/** Two tiers of timers as one set of timers. */
module EventTimers {
  import opened Lists
  import opened Options
  import opened EventQueues
  import opened EventOps
  import opened EventCalls

  lemma WakesMore(b: Base, running: set<nat>, more: set<nat>)
    requires Fine(b, running) && running <= more
    ensures Fine(b, more)
  {
    hide FlagsOk, ActiveOk, LaterOk, CountsOk, HeapOk, CommonOk, StandInsOk;
  }

  lemma WakesActive(b: Base, running: set<nat>, e: nat)
    requires Fine(b, running + {e}) && e < |b.st| && b.st[e].active
    ensures Fine(b, running)
  {
    hide FlagsOk, ActiveOk, LaterOk, CountsOk, HeapOk, CommonOk, StandInsOk;
    forall c | 0 <= c < |b.ctls|
      ensures WakesUp(b.st, b.timers[c], b.ctls[c], b.at, running)
    {
      assert WakesUp(b.st, b.timers[c], b.ctls[c], b.at, running + {e});
    }
  }

  /** Once its queue is empty, a stand-in has nothing to wake the loop up for. */
  lemma WakesEmpty(b: Base, c: nat)
    requires c < |b.timers| && Fine(b, {b.timers[c]}) && c < |b.ctls| && b.ctls[c] == []
    ensures Fine(b, {})
  {
    hide FlagsOk, ActiveOk, LaterOk, CountsOk, HeapOk, CommonOk;
    forall d | 0 <= d < |b.ctls|
      ensures WakesUp(b.st, b.timers[d], b.ctls[d], b.at, {})
    {
      assert WakesUp(b.st, b.timers[d], b.ctls[d], b.at, {b.timers[c]});
    }
  }

  /** An event that has timed out. */
  function Fired(s: State): State {
    s.(inserted := false, timeout := false, active := true, later := false, timedOut := true)
  }

  /** Lets an event time out: deletes it and makes it active. */
  function Fire(b: Base, e: nat): Base
    requires Has(b, e)
  {
    ActivateEvent(Del(b, e, false), e, true)
  }

  lemma FireKeeps(b: Base, e: nat, running: set<nat>)
    requires Fine(b, running) && Has(b, e) && b.st[e].timeout
    ensures Fine(Fire(b, e), running) && Fire(b, e).st == b.st[e := Fired(b.st[e])]
    ensures Fire(b, e).continues == (b.continues || b.info[e].pri < b.running)
  {
    hide Core, Wakes, Del, ActivateEvent;
    Exclusive(b, e, running);
    WakesMore(b, running, running + {e});
    DelKeeps(b, e, false, running + {e});
    ActivateEventKeeps(Del(b, e, false), e, true, running + {e});
    WakesActive(Fire(b, e), running, e);
  }

  lemma FireTimes(b: Base, e: nat)
    requires Core(b) && IntervalsOk(b) && Has(b, e) && b.st[e].timeout
    ensures IntervalsOk(Fire(b, e))
  {
    hide Core, Wakes, Fire, IntervalsOk;
    AllRunning(b);
    FireKeeps(b, e, set t | t in b.timers);
    FireShape(b, e);
    IntervalsSame(b, Fire(b, e));
  }

  lemma FireShape(b: Base, e: nat)
    requires Has(b, e)
    ensures SameSetup(b, Fire(b, e)) && Has(Fire(b, e), e) && Fire(b, e).nDeferreds == b.nDeferreds
  {
    hide Del;
  }

  lemma AllRunning(b: Base)
    requires Core(b)
    ensures Fine(b, set t | t in b.timers)
  {
    hide FlagsOk, ActiveOk, LaterOk, CountsOk, HeapOk, CommonOk;
    var all := set t | t in b.timers;
    forall c | 0 <= c < |b.ctls|
      ensures b.timers[c] in all
    {
      assert b.timers[c] in b.timers;
    }
  }

  /** A timer in the heap. */
  lemma HeapFacts(b: Base, e: nat)
    requires Core(b) && e in b.at
    ensures Has(b, e) && b.st[e].timeout && b.st[e].deadline == Timeval(b.at[e], None)
  {
    hide FlagsOk, LaterOk, CountsOk, CommonOk, StandInsOk;
  }

  /** Some stand-in is active: its queue has yet to be looked at. */
  predicate StandInActive(b: Base) {
    exists c :: 0 <= c < |b.timers| && b.timers[c] < |b.st| && b.st[b.timers[c]].active
  }

  /** The heap knows when to wake up: nothing in either tier is due before the first event in the heap is. */
  lemma HeapIsEarliest(b: Base, e: nat)
    requires Fine(b, {}) && e < |b.st| && b.st[e].timeout && !StandInActive(b)
    ensures exists x :: x in b.at && b.at[x] <= b.st[e].deadline.usec
  {
    hide FlagsOk, ActiveOk, LaterOk, CountsOk;
    match b.st[e].deadline.queue {
      case None =>
        assert b.at[e] <= b.st[e].deadline.usec;
      case Some(c) =>
        QueueFacts(b, c);
        HeadIsEarliest(b, c, e);
        assert WakesUp(b.st, b.timers[c], b.ctls[c], b.at, {});
        assert b.at[b.timers[c]] <= b.st[e].deadline.usec;
    }
  }

  lemma HeadIsEarliest(b: Base, c: nat, e: nat)
    requires Core(b) && c < |b.ctls| && e < |b.st| && b.st[e].timeout && b.st[e].deadline.queue == Some(c)
    ensures b.ctls[c] != [] && b.ctls[c][0] < |b.st| && b.st[b.ctls[c][0]].deadline.usec <= b.st[e].deadline.usec
  {
    hide FlagsOk, ActiveOk, LaterOk, CountsOk, HeapOk, StandInsOk;
    QueueFacts(b, c);
    assert QueueOk(b.st, c, b.ctls[c]);
    var i := IndexOf(b.ctls[c], e);
  }

  /** The loop sleeps until the first event of the heap is due, or for as long as it takes if there is none. */
  ghost predicate SleepsUntilFirst(at: map<nat, int>, now: int, wait: Option<nat>) {
    if at == map[] then wait == None
    else exists e :: e in at && (forall x :: x in at ==> at[e] <= at[x]) && wait == Some(if at[e] <= now then 0 else at[e] - now)
  }

  lemma SleepsUntil(at: map<nat, int>, now: int, e: nat)
    requires e in at && forall x :: x in at ==> at[e] <= at[x]
    ensures SleepsUntilFirst(at, now, Some(if at[e] <= now then 0 else at[e] - now))
  {}

  /** Once nothing due is left in the heap and no stand-in is active, no event of either tier is overdue. */
  lemma NothingOverdue(b: Base, e: nat)
    requires Fine(b, {}) && !StandInActive(b) && forall x :: x in b.at ==> b.at[x] > b.now
    requires e < |b.st| && b.st[e].timeout
    ensures b.st[e].deadline.usec > b.now
  {
    hide Fine;
    HeapIsEarliest(b, e);
  }

  /** Some of the events that were due have timed out; no other event, but for the stand-ins, is any different. */
  ghost predicate Expiring(b0: Base, b: Base) {
    && b.timers == b0.timers && b.now == b0.now && |b.st| == |b0.st|
    && forall e: nat :: e < |b.st| && !IsTimer(b.timers, e) ==>
         b.st[e] == b0.st[e] || (Due(b0, e) && b.st[e] == Fired(b0.st[e]))
  }

  /** The event has a timeout, and its time has come. */
  predicate Due(b: Base, e: nat)
    requires e < |b.st|
  {
    b.st[e].timeout && b.st[e].deadline.usec <= b.now
  }

  lemma ExpiringMore(b0: Base, b: Base, b': Base)
    requires Expiring(b0, b) && Expiring(b, b')
    ensures Expiring(b0, b')
  {}

  /** What the heap leaves behind. */
  lemma HeapExpires(b: Base, b': Base)
    requires Core(b) && |b'.st| == |b.st| && b'.timers == b.timers && b'.now == b.now
    requires forall e :: 0 <= e < |b.st| ==> b'.st[e] == if e in b.at && b.at[e] <= b.now then Fired(b.st[e]) else b.st[e]
    ensures Expiring(b, b')
  {
    hide FlagsOk, ActiveOk, LaterOk, CountsOk, CommonOk, StandInsOk;
  }

  /** What the callback of a stand-in leaves behind. */
  lemma QueueExpires(b: Base, b': Base, c: nat)
    requires Core(b) && c < |b.ctls| && |b'.st| == |b.st| && b'.timers == b.timers && b'.now == b.now
    requires forall e :: 0 <= e < |b.st| && e != b.timers[c] ==>
               b'.st[e] == if e in b.ctls[c] && b.st[e].deadline.usec <= b.now then Fired(b.st[e]) else b.st[e]
    ensures Expiring(b, b')
    ensures forall d :: 0 <= d < |b.timers| && d != c ==> b.timers[d] < |b.st| && b'.st[b.timers[d]] == b.st[b.timers[d]]
  {
    hide FlagsOk, ActiveOk, LaterOk, CountsOk, HeapOk, CommonOk;
    QueueFacts(b, c);
    assert IsTimer(b.timers, b.timers[c]);
  }

  /** When every event that is left is not due, each event that was has timed out: two tiers of timers and their
      stand-ins come to one set of timers. */
  lemma AllExpired(b0: Base, b: Base)
    requires Expiring(b0, b) && Fine(b, {}) && !StandInActive(b) && forall x :: x in b.at ==> b.at[x] > b.now
    ensures forall e: nat :: e < |b.st| && b.st[e].timeout ==> b.st[e].deadline.usec > b.now
    ensures forall e: nat :: e < |b.st| && !IsTimer(b.timers, e) ==> b.st[e] == if Due(b0, e) then Fired(b0.st[e]) else b0.st[e]
  {
    hide Fine, StandInActive;
    forall e: nat | e < |b.st| && b.st[e].timeout
      ensures b.st[e].deadline.usec > b.now
    {
      NothingOverdue(b, e);
    }
  }

  /** The queues whose stand-in is active. */
  function ActiveStandIns(b: Base): set<nat> {
    set c: nat | c < |b.timers| && b.timers[c] < |b.st| && b.st[b.timers[c]].active
  }

  /** A stand-in that is about to run its callback is neither active nor in the heap; nothing else has changed. */
  lemma StandInBegins(b: Base, b': Base, c: nat)
    requires Core(b) && c < |b.timers| && |b'.st| == |b.st| && b'.timers == b.timers && b'.now == b.now
    requires b.timers[c] < |b.st| && !b'.st[b.timers[c]].active
    requires forall x :: 0 <= x < |b.st| && x != b.timers[c] ==> b'.st[x] == b.st[x]
    ensures Expiring(b, b') && ActiveStandIns(b') == ActiveStandIns(b) - {c}
  {
    hide FlagsOk, ActiveOk, LaterOk, CountsOk, HeapOk, CommonOk;
    assert IsTimer(b.timers, b.timers[c]);
  }

  lemma FineIsCore(b: Base, running: set<nat>)
    requires Fine(b, running)
    ensures Core(b)
  {}

  lemma StepsKeepTimers(b: Base, e: nat)
    requires Has(b, e)
    ensures RemoveInserted(b, e).at == RemoveActive(b, e).at == RemoveLater(b, e).at == InsertActive(b, e).at == b.at
    ensures RemoveInserted(b, e).ctls == RemoveActive(b, e).ctls == RemoveLater(b, e).ctls == InsertActive(b, e).ctls == b.ctls
  {}

  lemma DelTimers(b: Base, e: nat)
    requires Has(b, e) && b.st[e].timeout && !b.info[e].finalizing
    ensures Del(b, e, false).at == RemoveTimeout(b, e).at && Del(b, e, false).ctls == RemoveTimeout(b, e).ctls
  {
    hide RemoveTimeout, RemoveActive, RemoveLater, RemoveInserted;
    StepsKeepTimers(OffTimers(b, e), e);
    StepsKeepTimers(OffActive(OffTimers(b, e), e), e);
  }

  lemma ActivateEventTimers(b: Base, e: nat, timedOut: bool)
    requires Has(b, e)
    ensures ActivateEvent(b, e, timedOut).at == b.at && ActivateEvent(b, e, timedOut).ctls == b.ctls
  {}

  /** A stand-in whose callback starts leaves the heap. */
  lemma DelHeap(b: Base, e: nat)
    requires Core(b) && Has(b, e) && !b.info[e].finalizing && b.st[e].deadline.queue == None
    ensures Del(b, e, false).at == b.at - {e} && Del(b, e, false).ctls == b.ctls
  {
    hide FlagsOk, ActiveOk, LaterOk, CountsOk, CommonOk, StandInsOk, RemoveActive, RemoveLater, RemoveInserted;
    StepsKeepTimers(OffTimers(b, e), e);
    StepsKeepTimers(OffActive(OffTimers(b, e), e), e);
  }

  /** Setting a stand-in again puts it in the heap, due when the head of its queue is. */
  lemma ScheduledHeap(b: Base, c: nat)
    requires Core(b) && c < |b.ctls| == |b.timers| && b.ctls[c] != [] && b.ctls[c][0] < |b.st|
    ensures Has(b, b.timers[c])
    ensures var b' := ScheduleCommon(b, c);
            b'.at == b.at[b.timers[c] := b.st[b.ctls[c][0]].deadline.usec] && b'.ctls == b.ctls
  {
    hide FlagsOk, ActiveOk, LaterOk, CountsOk, HeapOk, CommonOk, StandInsOk, RemoveActive;
    QueueFacts(b, c);
    TimerFacts(b, b.timers[c]);
    StepsKeepTimers(OffTimers(b, b.timers[c]), b.timers[c]);
  }

  /** Letting an event in the heap time out takes it, and only it, out of the heap. */
  lemma FiredHeap(b: Base, e: nat)
    requires Core(b) && e in b.at
    ensures Has(b, e) && b.st[e].timeout && b.st[e].deadline.queue == None
    ensures Fire(b, e).at == b.at - {e} && Fire(b, e).ctls == b.ctls && |b.at - {e}| < |b.at|
  {
    hide Core, Del, ActivateEvent;
    HeapFacts(b, e);
    AllRunning(b);
    Exclusive(b, e, set t | t in b.timers);
    DelTimers(b, e);
    ActivateEventTimers(Del(b, e, false), e, true);
    SmallerMap(b.at, e);
  }

  lemma SmallerMap(m: map<nat, int>, e: nat)
    requires e in m
    ensures |m - {e}| < |m|
  {
    assert (m - {e}).Keys == m.Keys - {e};
    assert |(m - {e}).Keys| == |m - {e}| && |m.Keys| == |m|;
  }

  /** Of the events in the heap `at0`, those that are no longer in the heap `at` were due, and have timed out. */
  ghost predicate TimedOut(st0: seq<State>, at0: map<nat, int>, st: seq<State>, at: map<nat, int>, now: int) {
    && |st| == |st0|
    && (forall e :: e in at ==> e in at0 && at0[e] == at[e])
    && (forall e :: e in at0 && e !in at ==> at0[e] <= now)
    && (forall e :: 0 <= e < |st| ==> st[e] == if e in at0 && e !in at then Fired(st0[e]) else st0[e])
  }

  /** The events leave the heap in the order of their deadlines. */
  ghost predicate InOrderOfTime(at: map<nat, int>, fired: seq<nat>) {
    && (forall i :: 0 <= i < |fired| ==> fired[i] in at)
    && (forall i, j :: 0 <= i < j < |fired| ==> at[fired[i]] <= at[fired[j]])
  }

  /** No event that is still in the heap is due before one that has left it. */
  ghost predicate NoneEarlier(at0: map<nat, int>, fired: seq<nat>, at: map<nat, int>) {
    forall i, e :: 0 <= i < |fired| && fired[i] in at0 && e in at ==> at0[fired[i]] <= at[e]
  }

  lemma InOrderMore(at0: map<nat, int>, fired: seq<nat>, at: map<nat, int>, e: nat)
    requires InOrderOfTime(at0, fired) && NoneEarlier(at0, fired, at)
    requires e in at && e in at0 && at0[e] == at[e] && forall x :: x in at ==> at[e] <= at[x]
    ensures InOrderOfTime(at0, fired + [e]) && NoneEarlier(at0, fired + [e], at - {e})
  {}

  lemma TimedOutMore(st0: seq<State>, at0: map<nat, int>, st: seq<State>, at: map<nat, int>, now: int, e: nat)
    requires TimedOut(st0, at0, st, at, now) && e in at && at[e] <= now && e < |st|
    ensures TimedOut(st0, at0, st[e := Fired(st[e])], at - {e}, now)
  {}

  /** When nothing that is still in the heap is due, exactly the events that were due have timed out. */
  lemma TimedOutAll(st0: seq<State>, at0: map<nat, int>, st: seq<State>, at: map<nat, int>, now: int)
    requires TimedOut(st0, at0, st, at, now) && forall e :: e in at ==> at[e] > now
    ensures |st| == |st0|
    ensures forall e :: 0 <= e < |st| ==> st[e] == if e in at0 && at0[e] <= now then Fired(st0[e]) else st0[e]
  {}

  /** Of the events in the queue `q0`, the first `k` were due, and have timed out. */
  ghost predicate TimedOutFirst(st0: seq<State>, q0: seq<nat>, st: seq<State>, q: seq<nat>, now: int, k: nat)
    ensures TimedOutFirst(st0, q0, st, q, now, k) ==> |st| == |st0| && k <= |q0| && |q| == |q0| - k
  {
    && |st| == |st0| && k <= |q0| && q == q0[k..] && Known(q0, |st0|)
    && (forall i :: 0 <= i < k ==> st0[q0[i]].deadline.usec <= now)
    && (forall e :: 0 <= e < |st| ==> st[e] == if e in q0[..k] then Fired(st0[e]) else st0[e])
  }

  lemma TimedOutNext(st0: seq<State>, q0: seq<nat>, st: seq<State>, q: seq<nat>, now: int, k: nat)
    requires TimedOutFirst(st0, q0, st, q, now, k) && Unique(q0) && q != [] && q[0] < |st| && st[q[0]].deadline.usec <= now
    ensures TimedOutFirst(st0, q0, st[q[0] := Fired(st[q[0]])], Remove(q, q[0]), now, k + 1)
  {
    assert q[0] == q0[k] && Remove(q, q[0]) == q0[k + 1..];
    assert q0[..k + 1] == q0[..k] + [q0[k]];
  }

  /** When the head of what is left of a sorted queue is not due, exactly the events that were due have timed out. */
  lemma TimedOutHead(st0: seq<State>, q0: seq<nat>, st: seq<State>, q: seq<nat>, now: int, k: nat)
    requires TimedOutFirst(st0, q0, st, q, now, k) && Sorted(st0, q0) && Unique(q0)
    requires q != [] && q[0] < |st| ==> st[q[0]].deadline.usec > now
    ensures forall e :: 0 <= e < |st| ==> st[e] == if e in q0 && st0[e].deadline.usec <= now then Fired(st0[e]) else st0[e]
  {
    forall e | 0 <= e < |st|
      ensures st[e] == if e in q0 && st0[e].deadline.usec <= now then Fired(st0[e]) else st0[e]
    {
      if e in q0 {
        var i := IndexOf(q0, e);
        if i < k {
          assert q0[..k][i] == e;
        } else {
          assert q0[k] == q[0] && st0[q0[k]].deadline.usec <= st0[q0[i]].deadline.usec;
          assert st[q[0]].deadline == st0[q[0]].deadline;
        }
      }
    }
  }

  /** Letting an event in a queue time out takes it, and only it, out of the queue. */
  lemma FiredQueue(b: Base, e: nat, c: nat)
    requires Core(b) && c < |b.ctls| && e in b.ctls[c]
    ensures Has(b, e) && b.st[e].timeout && b.st[e].deadline.queue == Some(c)
    ensures Fire(b, e).at == b.at && Fire(b, e).ctls == b.ctls[c := Remove(b.ctls[c], e)]
  {
    hide Core, Del, ActivateEvent;
    QueueFacts(b, c);
    HasIt(b, e);
    AllRunning(b);
    Exclusive(b, e, set t | t in b.timers);
    DelTimers(b, e);
    ActivateEventTimers(Del(b, e, false), e, true);
  }
}
