/** What a round of the loop does, and that no timer is forgotten in it. */
module EventRounds {
  import opened Lists
  import opened Options
  import opened EventQueues
  import opened EventOps
  import opened EventCalls
  import opened EventActions
  import opened EventTimers
  import opened EventDispatch
  import opened EventReplay

  /** The states a round goes through before callbacks are run: when those of the last round have been made active, when the
      backend's events have happened, and when the events `fired` of the heap have timed out. */
  datatype Round = Round(promoted: Base, happened: Base, expired: Base, fired: seq<nat>)

  /** Exactly the events of the heap that were due have timed out. */
  ghost predicate HeapExpired(b: Base, b': Base) {
    && SameSetup(b, b')
    && (forall e :: 0 <= e < |b.st| ==> b'.st[e] == if e in b.at && b.at[e] <= b.now then Fired(b.st[e]) else b.st[e])
    && (forall e :: e in b'.at ==> b'.at[e] > b.now)
  }

  /** The round has gone through these states, and the invariant holds in them. */
  ghost predicate Passes(b: Base, round: Round, time: int, ready: seq<Action>) {
    && Promoted(b, round.promoted, |b.later|)
    && round.happened == Acts(round.promoted.(now := time), ready)
    && round.expired == Fires(round.happened, round.fired) && InOrderOfTime(round.happened.at, round.fired)
    && HeapExpired(round.happened, round.expired) && Fine(round.happened, {}) && Fine(round.expired, {})
  }

  /** What is left of a round: its callbacks are run as the log says, if there are any. */
  ghost predicate Completes(round: Round, ran: bool, log: seq<Start>, b: Base, script: nat -> seq<Action>, ioOk: nat -> bool) {
    if ran then Replays(round.expired, log, b, script, ioOk, 0) else log == [] && b == round.expired
  }

  /** The base at the start of a round. */
  function NewRound(b: Base): Base {
    b.(continues := false, nDeferreds := 0)
  }

  // Several rounds

  /** A round that has dispatched. */
  datatype RoundLog = RoundLog(before: Base, round: Round, ran: bool, log: seq<Start>, after: Base)

  ghost predicate Done(r: RoundLog, time: int, ready: seq<Action>, script: nat -> seq<Action>, ioOk: nat -> bool) {
    Passes(NewRound(r.before), r.round, time, ready) && Completes(r.round, r.ran, r.log, r.after, script, ioOk)
  }

  /** What happens while the loop runs: in its i-th round the dispatch of the backend takes until `times(i)`, succeeds if
      `dispatched(i)`, and makes `ready(i)` happen; the k-th callback of that round carries out `scripts(i)(k)`. */
  datatype World = World(times: nat -> int, dispatched: nat -> bool, ready: nat -> seq<Action>,
                         scripts: nat -> nat -> seq<Action>, ioOk: nat -> nat -> bool)

  /** The i-th round of the world. */
  ghost predicate DoneAt(r: RoundLog, w: World, i: nat) {
    w.dispatched(i) && Done(r, w.times(i), w.ready(i), w.scripts(i), w.ioOk(i))
  }

  /** Rounds that have dispatched, each from where the one before it has ended. */
  ghost predicate RoundsDone(b0: Base, rounds: seq<RoundLog>, w: World) {
    forall i: nat :: i < |rounds| ==> DoneAt(rounds[i], w, i) && rounds[i].before == LastOf(b0, rounds[..i])
  }

  function LastOf(b0: Base, rounds: seq<RoundLog>): Base {
    if rounds == [] then b0 else rounds[|rounds| - 1].after
  }

  function LogOf(rounds: seq<RoundLog>): seq<Start> {
    if rounds == [] then [] else LogOf(rounds[..|rounds| - 1]) + rounds[|rounds| - 1].log
  }

  lemma OneMoreRound(b0: Base, rounds: seq<RoundLog>, w: World, r: RoundLog)
    requires RoundsDone(b0, rounds, w) && r.before == LastOf(b0, rounds) && DoneAt(r, w, |rounds|)
    ensures RoundsDone(b0, rounds + [r], w) && LastOf(b0, rounds + [r]) == r.after && LogOf(rounds + [r]) == LogOf(rounds) + r.log
  {
    hide DoneAt, LastOf;
    var all := rounds + [r];
    assert all[..|rounds|] == rounds;
    forall i: nat | i < |all|
      ensures DoneAt(all[i], w, i) && all[i].before == LastOf(b0, all[..i])
    {
      if i < |rounds| {
        assert all[..i] == rounds[..i] && DoneAt(rounds[i], w, i);
      }
    }
    LastRound(b0, all);
  }

  lemma LastRound(b0: Base, rounds: seq<RoundLog>)
    requires rounds != []
    ensures LastOf(b0, rounds) == rounds[|rounds| - 1].after
  {}

  // No timer is forgotten

  /** The event is due, and no stand-in is about to let it time out. */
  predicate Overlooked(b: Base, e: nat) {
    e < |b.st| && Due(b, e) && !(b.st[e].deadline.queue.Some? && StandInIsActive(b, b.st[e].deadline.queue.value))
  }

  /** If the callback was active it is still, and if it had a timeout it has become active or has that timeout still; it is not
      overlooked. */
  ghost predicate Waits(b0: Base, b: Base, e: nat) {
    && e < |b0.st| == |b.st|
    && (b0.st[e].active ==> b.st[e].active)
    && (b0.st[e].timeout ==> b.st[e].active || (b.st[e].timeout && b.st[e].deadline == b0.st[e].deadline))
    && !Overlooked(b, e)
  }

  predicate IsStarted(log: seq<Start>, e: nat) {
    exists i :: 0 <= i < |log| && log[i].e == e
  }

  /** Every callback of the user that has not been started waits. */
  ghost predicate NoneForgotten(b0: Base, log: seq<Start>, b: Base) {
    && |b.st| == |b0.st| && b.timers == b0.timers
    && forall e: nat :: e < |b.st| && !IsTimer(b.timers, e) && !IsStarted(log, e) ==> Waits(b0, b, e)
  }

  /** No persistent event has a negative interval. */
  ghost predicate NonNegative(b: Base) {
    |b.info| == |b.st| && forall e :: 0 <= e < |b.st| && b.info[e].persist ==> b.st[e].interval.usec >= 0
  }

  ghost predicate PlaysNothing(script: nat -> seq<Action>) {
    forall k: nat :: script(k) == []
  }

  /** Once nothing that is left in the heap is due, no event is overlooked. */
  lemma NoneOverlooked(b: Base, e: nat)
    requires Fine(b, {}) && forall x :: x in b.at ==> b.at[x] > b.now
    ensures !Overlooked(b, e)
  {
    hide FlagsOk, ActiveOk, LaterOk, CountsOk;
    if e < |b.st| && Due(b, e) && b.st[e].deadline.queue.Some? {
      var c := b.st[e].deadline.queue.value;
      QueueFacts(b, c);
      HeadIsEarliest(b, c, e);
      assert WakesUp(b.st, b.timers[c], b.ctls[c], b.at, {});
    }
  }

  /** An event that goes into a queue does not go before one that is due no later. */
  lemma HeadStays(st: seq<State>, q: seq<nat>, e: nat, time: int, x: nat)
    requires Known(q, |st|) && e !in q && x in q && st[x].deadline.usec <= time
    ensures InsertInOrder(st, q, e, time) != [] && InsertInOrder(st, q, e, time)[0] != e
  {
    var i := IndexOf(q, x);
    assert Slot(st, q, time) > 0;
    assert q[0] in q;
  }

  /** Setting a timeout leaves the stand-in of a queue active in which another event is due no later. */
  lemma SetTimerLeavesStandIn(b: Base, e: nat, tv: Timeval, c: nat, x: nat)
    requires Fine(b, {}) && Has(b, e) && b.info[e].isEvent && !b.info[e].finalizing && !IsTimer(b.timers, e)
    requires c < |b.ctls| && tv.queue == Some(c) && x < |b.st| && x != e && b.st[x].timeout
    requires b.st[x].deadline.queue == Some(c) && b.st[x].deadline.usec <= tv.usec
    ensures !Headed(SetTimer(b, e, tv, true), c, e)
  {
    hide Fine, Unset, InsertInOrder;
    var u := Unset(b, e, tv);
    UnsetKeeps(b, e, tv, {});
    FineIsCore(u, {});
    InQueueOf(u, c, x);
    NotInQueueOf(u, c, e);
    QueueFacts(u, c);
    HeadStays(u.st, u.ctls[c], e, tv.usec, x);
  }

  lemma InQueueOf(b: Base, c: nat, x: nat)
    requires Core(b) && c < |b.ctls| && x < |b.st| && b.st[x].timeout && b.st[x].deadline.queue == Some(c)
    ensures x in b.ctls[c]
  {
    hide FlagsOk, ActiveOk, LaterOk, CountsOk, HeapOk, StandInsOk;
    assert QueueOk(b.st, c, b.ctls[c]);
  }

  lemma NotInQueueOf(b: Base, c: nat, x: nat)
    requires Core(b) && c < |b.ctls| && x < |b.st| && !b.st[x].timeout
    ensures x !in b.ctls[c]
  {
    hide FlagsOk, ActiveOk, LaterOk, CountsOk, HeapOk, StandInsOk;
    assert QueueOk(b.st, c, b.ctls[c]);
  }

  /** Adding a persistent event again leaves the stand-in of a queue active in which another event is due. */
  lemma RearmLeavesStandIn(b: Base, e: nat, ioOk: bool, c: nat, x: nat)
    requires Fine(b, {}) && IntervalsOk(b) && Has(b, e) && b.info[e].isEvent && b.info[e].persist && !IsTimer(b.timers, e)
    requires b.st[e].interval.usec >= 0 && StandInIsActive(b, c) && x < |b.st| && x != e && Due(b, x) && b.st[x].deadline.queue == Some(c)
    ensures StandInIsActive(Rearm(b, e, ioOk), c)
  {
    hide Fine, Add, IntervalsOk;
    if HasInterval(b.st[e]) {
      IntervalTagged(b, e);
      AddLeavesStandIn(b, e, Timeval(NextRun(b.st[e], b.now), b.st[e].interval.queue), ioOk, c, x);
    }
  }

  lemma IntervalTagged(b: Base, e: nat)
    requires IntervalsOk(b) && Has(b, e) && b.info[e].persist && HasInterval(b.st[e])
    ensures Tagged(b, b.st[e].interval)
  {}

  lemma AddLeavesStandIn(b: Base, e: nat, tv: Timeval, ioOk: bool, c: nat, x: nat)
    requires Fine(b, {}) && Has(b, e) && b.info[e].isEvent && !IsTimer(b.timers, e) && Tagged(b, tv)
    requires StandInIsActive(b, c) && x < |b.st| && x != e && b.st[x].timeout && b.st[x].deadline.queue == Some(c)
    requires tv.queue == Some(c) ==> b.st[x].deadline.usec <= tv.usec
    ensures StandInIsActive(Add(b, e, Some(tv), true, ioOk).1, c)
  {
    hide Fine, SetTimer, InsertInserted, ScheduleCommon;
    var s := b.st[e];
    var io := b.info[e].io && !s.inserted && !s.active && !s.later;
    if b.info[e].finalizing || (io && !ioOk) {
      return;
    }
    StepShapes(b, e);
    if io {
      FineInsertInserted(b, e, {});
    }
    var b1 := if io then InsertInserted(b, e) else b;
    SetTimerLeavesIt(b1, e, tv, c, x);
  }

  lemma SetTimerLeavesIt(b: Base, e: nat, tv: Timeval, c: nat, x: nat)
    requires Fine(b, {}) && Has(b, e) && b.info[e].isEvent && !b.info[e].finalizing && !IsTimer(b.timers, e) && Tagged(b, tv)
    requires StandInIsActive(b, c) && x < |b.st| && x != e && b.st[x].timeout && b.st[x].deadline.queue == Some(c)
    requires tv.queue == Some(c) ==> b.st[x].deadline.usec <= tv.usec
    ensures StandInIsActive(AddTimeout(b, e, tv, true), c)
  {
    hide Core, Wakes, SetTimer;
    StandInFacts(b, c);
    AddTimeoutKeeps(b, e, tv, true, {});
    var b1 := SetTimer(b, e, tv, true);
    match tv.queue {
      case None =>
        SetPlainKeeps(b, e, tv, true, {});
      case Some(d) =>
        SetCommonKeeps(b, e, tv, true, {}, d);
        if d == c {
          SetTimerLeavesStandIn(b, e, tv, c, x);
        } else if Headed(b1, d, e) {
          ScheduleKeeps(b1, d, {});
          OtherStandIn(b, c, d);
        }
    }
  }

  lemma OtherStandIn(b: Base, c: nat, d: nat)
    requires Core(b) && c < |b.timers| && d < |b.timers| && c != d
    ensures b.timers[c] != b.timers[d]
  {
    hide FlagsOk, ActiveOk, LaterOk, CountsOk, HeapOk, CommonOk;
  }

  /** The persistent event would go before all others of the queue. */
  predicate GoesFirst(b: Base, e: nat, c: nat) {
    && e < |b.st| && HasInterval(b.st[e]) && b.st[e].interval.queue == Some(c)
    && forall y :: 0 <= y < |b.st| && y != e && b.st[y].timeout && b.st[y].deadline.queue == Some(c) ==>
         NextRun(b.st[e], b.now) < b.st[y].deadline.usec
  }

  /** Exactly when adding a persistent event again makes a due event be overlooked whose stand-in was active: when the persistent
      event goes before all others of that queue, which with a non-negative interval it does not. */
  lemma RearmOverlooks(b: Base, e: nat, ioOk: bool, c: nat, x: nat)
    requires Fine(b, {}) && IntervalsOk(b) && Has(b, e) && b.info[e].isEvent && b.info[e].persist && !IsTimer(b.timers, e)
    requires !b.info[e].finalizing && (b.info[e].io && !b.st[e].inserted && !b.st[e].active && !b.st[e].later ==> ioOk)
    requires StandInIsActive(b, c) && b.st[b.timers[c]].timedOut
    requires x < |b.st| && x != e && Due(b, x) && b.st[x].deadline.queue == Some(c)
    ensures Overlooked(Rearm(b, e, ioOk), x) <==> GoesFirst(b, e, c)
    ensures b.st[e].interval.usec >= 0 ==> !GoesFirst(b, e, c)
  {
    hide Fine, IntervalsOk, Rearm;
    RearmKeeps(b, e, ioOk, {});
    FineIsCore(b, {});
    assert !IsTimer(b.timers, x) by {
      if IsTimer(b.timers, x) {
        TimerFacts(b, x);
      }
    }
    RearmDecides(b, e, ioOk, c, x);
  }

  lemma RearmDecides(b: Base, e: nat, ioOk: bool, c: nat, x: nat)
    requires Fine(b, {}) && IntervalsOk(b) && Has(b, e) && b.info[e].isEvent && b.info[e].persist && !IsTimer(b.timers, e)
    requires !b.info[e].finalizing && (b.info[e].io && !b.st[e].inserted && !b.st[e].active && !b.st[e].later ==> ioOk)
    requires StandInIsActive(b, c) && b.st[b.timers[c]].timedOut
    requires x < |b.st| && x != e && Due(b, x) && b.st[x].deadline.queue == Some(c)
    ensures StandInIsActive(Rearm(b, e, ioOk), c) <==> !GoesFirst(b, e, c)
  {
    hide Fine, Add, IntervalsOk;
    if HasInterval(b.st[e]) {
      IntervalTagged(b, e);
      var tv := Timeval(NextRun(b.st[e], b.now), b.st[e].interval.queue);
      if GoesFirst(b, e, c) {
        AddResetsStandIn(b, e, tv, ioOk, c);
      } else {
        var y := x;
        if tv.queue == Some(c) {
          y :| 0 <= y < |b.st| && y != e && b.st[y].timeout && b.st[y].deadline.queue == Some(c) && tv.usec >= b.st[y].deadline.usec;
        }
        AddLeavesStandIn(b, e, tv, ioOk, c, y);
      }
    }
  }

  lemma AddResetsStandIn(b: Base, e: nat, tv: Timeval, ioOk: bool, c: nat)
    requires Fine(b, {}) && Has(b, e) && b.info[e].isEvent && !IsTimer(b.timers, e) && tv.queue == Some(c) && c < |b.ctls|
    requires !b.info[e].finalizing && (b.info[e].io && !b.st[e].inserted && !b.st[e].active && !b.st[e].later ==> ioOk)
    requires StandInIsActive(b, c) && b.st[b.timers[c]].timedOut
    requires forall y :: 0 <= y < |b.st| && y != e && b.st[y].timeout && b.st[y].deadline.queue == Some(c) ==> tv.usec < b.st[y].deadline.usec
    ensures !StandInIsActive(Add(b, e, Some(tv), true, ioOk).1, c)
  {
    hide Core, Wakes, SetTimer, InsertInserted, ScheduleCommon;
    var s := b.st[e];
    var io := b.info[e].io && !s.inserted && !s.active && !s.later;
    StepShapes(b, e);
    if io {
      FineInsertInserted(b, e, {});
    }
    var b1 := if io then InsertInserted(b, e) else b;
    StandInFacts(b1, c);
    SetCommonKeeps(b1, e, tv, true, {}, c);
    GoesToHead(b1, e, tv, c);
    ScheduleKeeps(SetTimer(b1, e, tv, true), c, {});
  }

  /** An event that is due before all others of its queue goes to the head. */
  lemma GoesToHead(b: Base, e: nat, tv: Timeval, c: nat)
    requires Fine(b, {}) && Has(b, e) && b.info[e].isEvent && !b.info[e].finalizing && !IsTimer(b.timers, e)
    requires tv.queue == Some(c) && c < |b.ctls|
    requires forall y :: 0 <= y < |b.st| && y != e && b.st[y].timeout && b.st[y].deadline.queue == Some(c) ==> tv.usec < b.st[y].deadline.usec
    ensures Headed(SetTimer(b, e, tv, true), c, e)
  {
    hide Fine, Unset, Core;
    var u := Unset(b, e, tv);
    UnsetKeeps(b, e, tv, {});
    FineIsCore(u, {});
    QueueFacts(u, c);
    StandInFacts(u, c);
    if u.ctls[c] != [] {
      var y := u.ctls[c][0];
      assert y in u.ctls[c];
    }
  }

  /** What waits goes on waiting. */
  ghost predicate Carries(b: Base, b': Base, x: nat) {
    && x < |b.st| == |b'.st|
    && (b.st[x].active ==> b'.st[x].active)
    && (b.st[x].timeout ==> b'.st[x].active || (b'.st[x].timeout && b'.st[x].deadline == b.st[x].deadline))
    && (Overlooked(b', x) ==> Overlooked(b, x))
  }

  lemma CarriesOn(b0: Base, b: Base, b': Base, x: nat)
    requires Waits(b0, b, x) && Carries(b, b', x)
    ensures Waits(b0, b', x)
  {
    hide Overlooked;
  }

  /** The callback of a stand-in forgets no event. */
  lemma StandInForgetsNone(b: Base, c: nat, b': Base, x: nat)
    requires Core(b) && Cleared(b, c, b') && x < |b.st| && !IsTimer(b.timers, x)
    ensures Carries(b, b', x)
  {
    hide FlagsOk, ActiveOk, LaterOk, CountsOk, HeapOk, CommonOk;
    assert b.timers[c] in b.timers;
    if Overlooked(b', x) && b.st[x].deadline.queue.Some? {
      var d := b.st[x].deadline.queue.value;
      if d == c {
        InQueueOf(b, c, x);
      } else if d < |b.timers| {
        OtherStandIn(b, c, d);
      }
    }
  }

  /** Nor does adding a persistent event again. */
  lemma RearmForgetsNone(b: Base, e: nat, ioOk: bool, x: nat)
    requires Fine(b, {}) && IntervalsOk(b) && Has(b, e) && b.info[e].isEvent && b.info[e].persist && !IsTimer(b.timers, e)
    requires b.st[e].interval.usec >= 0 && x < |b.st| && x != e && !IsTimer(b.timers, x)
    ensures Carries(b, Rearm(b, e, ioOk), x)
  {
    hide Fine, IntervalsOk, Rearm;
    RearmKeeps(b, e, ioOk, {});
    if Due(b, x) && b.st[x].deadline.queue.Some? && StandInIsActive(b, b.st[x].deadline.queue.value) {
      RearmLeavesStandIn(b, e, ioOk, b.st[x].deadline.queue.value, x);
    }
  }

  lemma BegunForgetsNone(b: Base, e: nat, x: nat)
    requires Fine(b, {}) && IntervalsOk(b) && Has(b, e) && b.st[e].active && !IsTimer(b.timers, e) && x < |b.st| && x != e
    ensures Carries(b, Begun(b, e), x)
  {
    hide Fine, IntervalsOk, Begun;
    BegunKeeps(b, e);
  }

  lemma BegunStandInForgetsNone(b: Base, e: nat, b': Base, x: nat)
    requires Fine(b, {}) && IntervalsOk(b) && Has(b, e) && b.st[e].active && IsTimer(b.timers, e) && x < |b.st| && !IsTimer(b.timers, x)
    requires Cleared(Begun(b, e), IndexOf(b.timers, e), b')
    ensures Carries(b, b', x)
  {
    hide Fine, IntervalsOk, Begun, Core;
    var b1, c := Begun(b, e), IndexOf(b.timers, e);
    BegunKeeps(b, e);
    FineIsCore(b1, {e});
    StandInForgetsNone(b1, c, b', x);
    if Overlooked(b', x) && b.st[x].deadline.queue.Some? && StandInIsActive(b, b.st[x].deadline.queue.value) {
      var d := b.st[x].deadline.queue.value;
      if d == c {
        FineIsCore(b, {});
        InQueueOf(b1, c, x);
      } else {
        assert Overlooked(b1, x);
        OtherStandIn(b1, c, d);
      }
    }
  }

  /** The same callbacks and the same time, and still no persistent event has a negative interval. */
  ghost predicate Alike(b: Base, b': Base) {
    && b'.info == b.info && b'.timers == b.timers && |b'.st| == |b.st| && b'.now == b.now
    && (NonNegative(b) ==> NonNegative(b'))
  }

  lemma BegunIsAlike(b: Base, e: nat)
    requires Fine(b, {}) && IntervalsOk(b) && Has(b, e) && b.st[e].active
    ensures Alike(b, Begun(b, e)) && Begun(b, e).st[e].interval == b.st[e].interval
  {
    hide Fine, IntervalsOk, Begun;
    BegunKeeps(b, e);
  }

  lemma ClearedIsAlike(b: Base, c: nat, b': Base)
    requires Core(b) && Cleared(b, c, b')
    ensures Alike(b, b')
  {
    hide FlagsOk, ActiveOk, LaterOk, CountsOk, HeapOk, CommonOk;
    assert b.timers[c] in b.timers;
  }

  lemma RearmIsAlike(b: Base, e: nat, ioOk: bool)
    requires Fine(b, {}) && IntervalsOk(b) && Has(b, e) && b.info[e].isEvent && b.info[e].persist && !IsTimer(b.timers, e)
    ensures Alike(b, Rearm(b, e, ioOk))
  {
    hide Fine, IntervalsOk, Rearm;
    RearmKeeps(b, e, ioOk, {});
    FineIsCore(b, {});
    TimersArePlain(b);
  }

  /** A callback that does nothing itself lets everybody else wait on. */
  lemma QuietStart(s: Start, ioOk: bool)
    requires Replayed(s, [], ioOk)
    ensures Alike(s.before, s.after)
    ensures NonNegative(s.before) ==>
              forall x: nat :: x < |s.before.st| && x != s.e && !IsTimer(s.before.timers, x) ==> Carries(s.before, s.after, x)
  {
    hide Fine, IntervalsOk, Begun, Carries, Rearm, Expires, Alike, Core;
    var b, e, b' := s.before, s.e, s.after;
    var b1 := Begun(b, e);
    FineIsCore(b, {});
    HeadIsActive(b, s.priority);
    BegunKeeps(b, e);
    BegunIsAlike(b, e);
    if IsTimer(b.timers, e) {
      FineIsCore(b1, {e});
      ClearedIsAlike(b1, IndexOf(b.timers, e), b');
      forall x: nat | x < |b.st| && !IsTimer(b.timers, x)
        ensures Carries(b, b', x)
      {
        BegunStandInForgetsNone(b, e, b', x);
      }
    } else {
      ActsInOrder(b1, [], []);
      QuietEvent(s, ioOk);
    }
    AlikeOn(b, b1, b');
  }

  lemma AlikeOn(b: Base, b1: Base, b2: Base)
    requires Alike(b, b1) && Alike(b1, b2)
    ensures Alike(b, b2)
  {}

  lemma QuietEvent(s: Start, ioOk: bool)
    requires Replayed(s, [], ioOk) && !IsTimer(s.before.timers, s.e) && s.before.st[s.e].active
    ensures Alike(Begun(s.before, s.e), s.after)
    ensures NonNegative(s.before) ==>
              forall x: nat :: x < |s.before.st| && x != s.e && !IsTimer(s.before.timers, x) ==> Carries(s.before, s.after, x)
  {
    hide Fine, IntervalsOk, Begun, Carries, Rearm, Core;
    var b, e, b' := s.before, s.e, s.after;
    var b1 := Begun(b, e);
    BegunKeeps(b, e);
    BegunIsAlike(b, e);
    if b.info[e].isEvent && b.info[e].persist && !b.info[e].finalizing {
      ActsInOrder(Rearm(b1, e, ioOk), [], []);
      RearmIsAlike(b1, e, ioOk);
    } else {
      ActsInOrder(b1, [], []);
    }
    if NonNegative(b) {
      forall x: nat | x < |b.st| && x != e && !IsTimer(b.timers, x)
        ensures Carries(b, b', x)
      {
        BegunForgetsNone(b, e, x);
        if b.info[e].isEvent && b.info[e].persist && !b.info[e].finalizing {
          RearmForgetsNone(b1, e, ioOk, x);
        }
        CarriesBoth(b, b1, b', x);
      }
    }
  }

  lemma CarriesBoth(b: Base, b1: Base, b2: Base, x: nat)
    requires Carries(b, b1, x) && (Carries(b1, b2, x) || b2 == b1)
    ensures Carries(b, b2, x)
  {
    hide Overlooked;
  }

  lemma AlikeBetween(b: Base, b': Base)
    requires Between(b, b')
    ensures Alike(b, b') && forall x: nat :: x < |b.st| ==> Carries(b, b', x)
  {}

  /** Callbacks that do nothing themselves, one after the other: whoever is not started waits on. */
  lemma {:induction false} QuietLog(b0: Base, b: Base, log: seq<Start>, b': Base, script: nat -> seq<Action>, ioOk: nat -> bool, k0: nat)
    requires Replays(b, log, b', script, ioOk, k0) && PlaysNothing(script) && NonNegative(b) && NoneForgotten(b0, [], b)
    ensures NoneForgotten(b0, log, b') && Alike(b, b')
    decreases |log|
  {
    hide Waits, Carries, NonNegative, Replayed, Alike;
    if log == [] {
      AlikeBetween(b, b');
      NoneForgottenOn(b0, [], b, [], b');
    } else {
      var n := |log| - 1;
      var s := log[n];
      ReplaysLast(b, log, b', script, ioOk, k0);
      QuietLog(b0, b, log[..n], s.before, script, ioOk, k0);
      AlikeKeeps(b, s.before);
      QuietStart(s, ioOk(k0 + n));
      AlikeBetween(s.after, b');
      AlikeOn(b, s.before, s.after);
      AlikeOn(b, s.after, b');
      AlikeKeeps(s.before, s.after);
      AlikeKeeps(s.after, b');
      assert [s][0].e == s.e;
      NoneForgottenOn(b0, log[..n], s.before, [s], s.after);
      NoneForgottenOn(b0, log[..n] + [s], s.after, [], b');
      assert log[..n] + [s] == log && log + [] == log;
    }
  }

  lemma AlikeKeeps(b: Base, b': Base)
    requires Alike(b, b')
    ensures |b'.st| == |b.st| && b'.timers == b.timers && (NonNegative(b) ==> NonNegative(b'))
  {}

  lemma NoneForgottenOn(b0: Base, log: seq<Start>, b: Base, more: seq<Start>, b': Base)
    requires NoneForgotten(b0, log, b) && |b'.st| == |b.st| && b'.timers == b.timers
    requires forall x: nat :: x < |b.st| && !IsTimer(b.timers, x) && !IsStarted(more, x) ==> Carries(b, b', x)
    ensures NoneForgotten(b0, log + more, b')
  {
    hide Waits, Carries;
    forall x: nat | x < |b.st| && !IsTimer(b.timers, x) && !IsStarted(log + more, x)
      ensures Waits(b0, b', x)
    {
      StartedOn(log, more, x);
      CarriesOn(b0, b, b', x);
    }
  }

  lemma StartedOn(log: seq<Start>, more: seq<Start>, x: nat)
    ensures IsStarted(log + more, x) <==> IsStarted(log, x) || IsStarted(more, x)
  {
    if IsStarted(log, x) {
      var i :| 0 <= i < |log| && log[i].e == x;
      assert (log + more)[i].e == x;
    }
    if IsStarted(more, x) {
      var i :| 0 <= i < |more| && more[i].e == x;
      assert (log + more)[|log| + i].e == x;
    }
  }

  /** Whoever has not timed out from the heap waits. */
  lemma ExpiredForgetsNone(b: Base, b': Base)
    requires Core(b) && HeapExpired(b, b') && Fine(b', {})
    ensures NoneForgotten(b, [], b') && Alike(b, b')
  {
    hide FlagsOk, ActiveOk, LaterOk, CountsOk, CommonOk, StandInsOk, Wakes, Overlooked;
    forall e: nat | e < |b.st|
      ensures !Overlooked(b', e)
    {
      NoneOverlooked(b', e);
    }
  }

  /** Making the callbacks of the last round active and waking up changes no timer. */
  lemma PromotedForgetsNone(b: Base, p: Base, time: int, log: seq<Start>, b': Base)
    requires Promoted(b, p, |b.later|) && NoneForgotten(p.(now := time), log, b')
    ensures NoneForgotten(b, log, b') && (NonNegative(b) ==> NonNegative(p.(now := time)))
  {
    hide Overlooked, AtPriority, Deferreds;
  }

  /** In a round in which neither the backend nor any callback does anything itself, no timer is forgotten: an event of either tier
      that is due is started, or is still active, or its stand-in is. */
  lemma QuietRound(b: Base, round: Round, time: int, ran: bool, log: seq<Start>, b': Base, script: nat -> seq<Action>, ioOk: nat -> bool)
    requires Passes(b, round, time, []) && Completes(round, ran, log, b', script, ioOk)
    requires PlaysNothing(script) && NonNegative(b)
    ensures NoneForgotten(b, log, b') && NonNegative(b') && b'.now == time
  {
    hide Promoted, HeapExpired, Fine, Replays, NoneForgotten, NonNegative, PlaysNothing, Waits;
    ActsInOrder(round.promoted.(now := time), [], []);
    FineIsCore(round.happened, {});
    ExpiredForgetsNone(round.happened, round.expired);
    QuietStates(b, round.promoted, time);
    AlikeKeeps(round.happened, round.expired);
    if ran {
      QuietLog(round.happened, round.expired, log, b', script, ioOk, 0);
      AlikeKeeps(round.expired, b');
    }
    PromotedForgetsNone(b, round.promoted, time, log, b');
  }

  lemma QuietStates(b: Base, p: Base, time: int)
    requires Promoted(b, p, |b.later|) && NonNegative(b)
    ensures NonNegative(p.(now := time))
  {
    hide AtPriority, Deferreds;
  }

  /** One round after the other. */
  lemma NoneForgottenThen(b0: Base, log: seq<Start>, b: Base, more: seq<Start>, b': Base)
    requires NoneForgotten(b0, log, b) && NoneForgotten(b, more, b')
    ensures NoneForgotten(b0, log + more, b')
  {
    hide Overlooked;
    forall x: nat | x < |b.st| && !IsTimer(b.timers, x) && !IsStarted(log + more, x)
      ensures Waits(b0, b', x)
    {
      StartedOn(log, more, x);
    }
  }

  /** What the dispatcher keeps for itself is no part of it. */
  lemma NoneForgottenControl(b: Base, b0: Base, log: seq<Start>, b': Base)
    requires b0 == b.(continues := b0.continues, nDeferreds := b0.nDeferreds) && NoneForgotten(b0, log, b')
    ensures NoneForgotten(b, log, b')
  {
    hide Overlooked;
  }

  /** In a round that ends before anything is dispatched no timer is forgotten that has not been before. */
  lemma IdleRound(b0: Base, log: seq<Start>, b: Base, b1: Base, b': Base)
    requires NoneForgotten(b0, log, b) && b1 == b.(continues := b1.continues, nDeferreds := b1.nDeferreds)
    requires b' == b1 || Promoted(b1, b', |b1.later|)
    ensures NoneForgotten(b0, log, b') && (NonNegative(b) ==> NonNegative(b'))
  {
    hide AtPriority, Deferreds;
  }

  // Why intervals must not be negative

  /** A stand-in and a persistent event are active, and one more event waits in their queue; it is time 10, and the persistent event
      has an interval of -6. */
  function Backward(): Base {
    NewInterval(Crowded(), 1, Timeval(-6, Some(0)), false)
  }

  /** The same base once the callback of the persistent event is to be run. */
  function BackwardStarted(): Base {
    Started().(st := Started().st[1 := Started().st[1].(interval := Timeval(-6, Some(0)))])
  }

  lemma BackwardStarts()
    ensures Fine(Backward(), {}) && Has(Backward(), 1) && Begun(Backward(), 1) == BackwardStarted() && Has(BackwardStarted(), 1)
  {
    hide Fine;
    CrowdedIsFine();
    FineInterval(Crowded(), 1, Timeval(-6, Some(0)), false, {});
    assert Remove([1, 0], 1) == [0];
  }

  lemma GoesBefore(st: seq<State>)
    requires 2 < |st| && st[2].deadline.usec == 10
    ensures InsertInOrder(st, [2], 1, 4) == [1, 2]
  {}

  lemma BackwardGoesBefore()
    ensures Has(BackwardStarted(), 1)
    ensures var b := SetTimer(BackwardStarted(), 1, Timeval(4, Some(0)), true);
            && b.ctls == [[1, 2]] && b.timers == [0] && |b.st| == 3 && |b.info| == 3 && b.info[0].pri == 0 && |b.queues| == 1 && b.now == 10
            && b.st[0] == BackwardStarted().st[0] && b.st[2] == BackwardStarted().st[2] && b.st[1].deadline.usec == 4
  {
    hide InsertInOrder;
    var b := Unset(BackwardStarted(), 1, Timeval(4, Some(0)));
    assert b == With(BackwardStarted(), 1, BackwardStarted().st[1].(deadline := Timeval(4, Some(0))));
    GoesBefore(b.st);
    assert Known([2], 3);
  }

  /** Going back with a deadline that is over makes the persistent event the head of its queue, and takes the stand-in off the
      active ones: the event behind it was due and not overlooked, and now is overlooked until the next round. */
  lemma NegativeInterval()
    ensures Fine(Backward(), {}) && Has(Backward(), 1) && !NonNegative(Backward())
    ensures !Overlooked(Backward(), 2) && Overlooked(Rearm(Begun(Backward(), 1), 1, true), 2)
  {
    hide Fine, SetTimer, Begun;
    BackwardStarts();
    BackwardGoesBefore();
    var b := SetTimer(BackwardStarted(), 1, Timeval(4, Some(0)), true);
    assert Rearm(BackwardStarted(), 1, true) == ScheduleCommon(b, 0);
    StandInIsReset(b);
  }

  lemma StandInIsReset(b: Base)
    requires b.ctls == [[1, 2]] && b.timers == [0] && |b.st| == |b.info| == 3 && b.info[0].pri == 0 && |b.queues| == 1
    requires b.st[0].active && b.st[0].timedOut && !b.st[0].timeout
    ensures Has(b, 0)
    ensures ScheduleCommon(b, 0).st[2] == b.st[2] && !ScheduleCommon(b, 0).st[0].active
  {
    hide Remove;
  }

  // Runs of the loop

  /** Neither the backend nor any callback does anything itself. */
  ghost predicate NothingHappens(w: World) {
    (forall i: nat :: w.ready(i) == []) && (forall i: nat :: PlaysNothing(w.scripts(i)))
  }

  /** The base after the last round that has dispatched, or after one more that has not. */
  ghost predicate Settled(last: Base, b: Base) {
    b == last || b == NewRound(last) || Promoted(NewRound(last), b, |last.later|)
  }

  /** From `b0` to `b` the loop has done these rounds, and no timer has been forgotten. */
  ghost predicate Looped(b0: Base, w: World, done: seq<RoundLog>, log: seq<Start>, b: Base) {
    && RoundsDone(b0.(breaks := false), done, w) && log == LogOf(done) && Settled(LastOf(b0.(breaks := false), done), b)
    && (NothingHappens(w) && NonNegative(b0) ==> NonNegative(b) && (done != [] ==> NoneForgotten(b0, log, b)))
  }

  lemma LoopedNone(b0: Base, w: World)
    ensures Looped(b0, w, [], [], b0.(breaks := false)) && LastOf(b0.(breaks := false), []) == b0.(breaks := false)
  {
    hide NothingHappens;
  }

  /** One more round that dispatches. */
  lemma LoopedOn(b0: Base, w: World, done: seq<RoundLog>, log: seq<Start>, r: RoundLog)
    requires Looped(b0, w, done, log, r.before) && r.before == LastOf(b0.(breaks := false), done) && DoneAt(r, w, |done|)
    requires NothingHappens(w) && NonNegative(r.before) ==> NoneForgotten(r.before, r.log, r.after) && NonNegative(r.after)
    ensures Looped(b0, w, done + [r], log + r.log, r.after) && r.after == LastOf(b0.(breaks := false), done + [r])
  {
    hide RoundsDone, LogOf, NothingHappens, NonNegative, NoneForgotten, DoneAt, Promoted;
    OneMoreRound(b0.(breaks := false), done, w, r);
    if NothingHappens(w) && NonNegative(b0) {
      if done == [] {
        FirstLog();
        UnbrokenForgetsNone(b0, r.log, r.after);
      } else {
        NoneForgottenThen(b0, log, r.before, r.log, r.after);
      }
    }
  }

  lemma FirstLog()
    ensures LogOf([]) == [] && forall l: seq<Start> :: [] + l == l
  {}

  lemma UnbrokenForgetsNone(b0: Base, log: seq<Start>, b: Base)
    requires NoneForgotten(b0.(breaks := false), log, b)
    ensures NoneForgotten(b0, log, b)
  {
    hide Overlooked;
  }

  /** A last one that does not. */
  lemma LoopedToEnd(b0: Base, w: World, done: seq<RoundLog>, log: seq<Start>, b: Base, b': Base)
    requires Looped(b0, w, done, log, b) && b == LastOf(b0.(breaks := false), done)
    requires b' == NewRound(b) || Promoted(NewRound(b), b', |b.later|)
    ensures Looped(b0, w, done, log, b')
  {
    hide RoundsDone, LogOf, NothingHappens, NonNegative, NoneForgotten, Promoted;
    if NothingHappens(w) && NonNegative(b0) {
      if done != [] {
        IdleRound(b0, log, b, NewRound(b), b');
      } else {
        IdleKeepsIntervals(b, b');
      }
    }
  }

  lemma IdleKeepsIntervals(b: Base, b': Base)
    requires b' == NewRound(b) || Promoted(NewRound(b), b', |b.later|)
    ensures NonNegative(b) ==> NonNegative(b')
  {
    hide AtPriority, Deferreds;
  }

  lemma LoopedMeans(b0: Base, w: World, done: seq<RoundLog>, log: seq<Start>, b: Base)
    requires Looped(b0, w, done, log, b)
    ensures RoundsDone(b0.(breaks := false), done, w) && log == LogOf(done) && Settled(LastOf(b0.(breaks := false), done), b)
    ensures done != [] && NothingHappens(w) && NonNegative(b0) ==> NoneForgotten(b0, log, b)
  {
    hide RoundsDone, LogOf, NothingHappens, NonNegative, NoneForgotten, Promoted;
  }
}
