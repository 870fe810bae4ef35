/** What an event base knows about its callbacks, and what its queues and counters have to agree on. */
module EventQueues {
  import opened Lists
  import opened Options

  /** A time in microseconds, tagged with the common-timeout queue it belongs to, if any. */
  datatype Timeval = Timeval(usec: int, queue: Option<nat>)

  /** What is fixed when a callback is set up; only an event can be added. */
  datatype Info = Info(isEvent: bool, internal: bool, finalizing: bool, io: bool, persist: bool, pri: nat)

  /** What changes: the EVLIST flags, whether the result holds EV_TIMEOUT, the time at which the event
      times out, and the interval of a persistent one. */
  datatype State = State(inserted: bool, timeout: bool, active: bool, later: bool, timedOut: bool,
                         deadline: Timeval, interval: Timeval)

  // The active queues and the queue of callbacks to be made active in the next round

  ghost predicate ActiveOk(info: seq<Info>, st: seq<State>, queues: seq<seq<nat>>)
    requires |info| == |st|
  {
    && (forall e: nat :: e < |info| ==> info[e].pri < |queues|)
    && (forall p: nat :: p < |queues| ==> ActiveAt(info, st, queues[p], p))
  }

  /** The queue of a priority lists the active callbacks of that priority, once each. */
  ghost predicate ActiveAt(info: seq<Info>, st: seq<State>, q: seq<nat>, p: nat)
    requires |info| == |st|
  {
    && Unique(q)
    && (forall e: nat :: e in q <==> e < |st| && st[e].active && info[e].pri == p)
  }

  ghost predicate LaterOk(st: seq<State>, later: seq<nat>) {
    && Unique(later)
    && (forall e: nat :: e in later <==> e < |st| && st[e].later)
  }

  /** A callback does not have flags that exclude each other, or that only an event can have. */
  predicate FlagOk(i: Info, s: State) {
    && !(s.active && s.later)
    && (s.inserted ==> i.isEvent && i.io && !i.finalizing)
    && (s.timeout ==> i.isEvent && !i.finalizing)
  }

  ghost predicate FlagsOk(info: seq<Info>, st: seq<State>)
    requires |info| == |st|
  {
    forall e :: 0 <= e < |st| ==> FlagOk(info[e], st[e])
  }

  function Flag(b: bool): nat {
    if b then 1 else 0
  }

  /** How many queue flags a callback adds to the event count; internal ones add none. */
  function Weight(i: Info, s: State): nat {
    if i.internal then 0 else Flag(s.inserted) + Flag(s.timeout) + Flag(s.active) + Flag(s.later)
  }

  function Weights(info: seq<Info>, st: seq<State>): nat
    requires |info| == |st|
  {
    if st == [] then 0 else Weight(info[0], st[0]) + Weights(info[1..], st[1..])
  }

  lemma {:induction false} WeightsUpdate(info: seq<Info>, st: seq<State>, e: nat, s: State)
    requires |info| == |st| && e < |st|
    ensures Weights(info, st[e := s]) == Weights(info, st) - Weight(info[e], st[e]) + Weight(info[e], s)
    ensures Weights(info, st) >= Weight(info[e], st[e])
  {
    if e > 0 {
      WeightsUpdate(info[1..], st[1..], e - 1, s);
      assert st[e := s][1..] == st[1..][e - 1 := s];
    } else {
      assert st[e := s][1..] == st[1..];
    }
  }

  /** The event count is zero exactly when nothing that is not internal is on any queue. */
  lemma {:induction false} NothingPending(info: seq<Info>, st: seq<State>)
    requires |info| == |st|
    ensures Weights(info, st) == 0 <==>
              forall e :: 0 <= e < |st| && !info[e].internal ==> !st[e].inserted && !st[e].timeout && !st[e].active && !st[e].later
  {
    if st != [] {
      NothingPending(info[1..], st[1..]);
      if Weights(info[1..], st[1..]) == 0 {
        forall e | 0 < e < |st| && !info[e].internal
          ensures !st[e].inserted && !st[e].timeout && !st[e].active && !st[e].later
        {
          assert !info[1..][e - 1].internal && st[e] == st[1..][e - 1];
        }
      } else {
        var e :| 0 <= e < |st[1..]| && !info[1..][e].internal && (st[1..][e].inserted || st[1..][e].timeout || st[1..][e].active || st[1..][e].later);
        assert !info[e + 1].internal && st[e + 1] == st[1..][e];
      }
    }
  }

  /** Both counters agree with the queues and flags. */
  ghost predicate CountsOk(info: seq<Info>, st: seq<State>, queues: seq<seq<nat>>, later: seq<nat>, count: int, countActive: int)
    requires |info| == |st|
  {
    count == Weights(info, st) && countActive == Total(queues) + |later|
  }

  // The two tiers of timers

  ghost predicate HeapOk(st: seq<State>, at: map<nat, int>) {
    && (forall e :: e in at ==> e < |st| && st[e].timeout && st[e].deadline == Timeval(at[e], None))
    && (forall e :: 0 <= e < |st| && st[e].timeout && st[e].deadline.queue == None ==> e in at)
  }

  ghost predicate Sorted(st: seq<State>, q: seq<nat>) {
    forall i, j :: 0 <= i < j < |q| && q[i] < |st| && q[j] < |st| ==> st[q[i]].deadline.usec <= st[q[j]].deadline.usec
  }

  /** A common-timeout queue holds its events, each once and in the order in which they are due. */
  ghost predicate QueueOk(st: seq<State>, c: nat, q: seq<nat>) {
    && Unique(q) && Sorted(st, q)
    && (forall e :: e in q ==> e < |st| && st[e].timeout && st[e].deadline.queue == Some(c))
    && (forall e :: 0 <= e < |st| && st[e].timeout && st[e].deadline.queue == Some(c) ==> e in q)
  }

  ghost predicate CommonOk(st: seq<State>, ctls: seq<seq<nat>>) {
    && (forall c :: 0 <= c < |ctls| ==> QueueOk(st, c, ctls[c]))
    && (forall e :: 0 <= e < |st| && st[e].timeout && st[e].deadline.queue.Some? ==> st[e].deadline.queue.value < |ctls|)
  }

  predicate IsTimer(timers: seq<nat>, e: nat) {
    e in timers
  }

  /** The internal events that stand in for the common-timeout queues. */
  ghost predicate StandInsOk(info: seq<Info>, st: seq<State>, timers: seq<nat>)
    requires |info| == |st|
  {
    && Unique(timers)
    && forall c :: 0 <= c < |timers| ==>
         && timers[c] < |st| && info[timers[c]] == Info(true, true, false, false, false, 0)
         && st[timers[c]].deadline.queue == None && !st[timers[c]].later
  }

  /** The stand-in of a queue is in the heap, due no later than the head of the queue; or it is active; or it is
      one of those in `running`. */
  ghost predicate WakesUp(st: seq<State>, timer: nat, q: seq<nat>, at: map<nat, int>, running: set<nat>)
  {
    || q == [] || q[0] >= |st|
    || timer in running || timer >= |st| || st[timer].active
    || (timer in at && at[timer] <= st[q[0]].deadline.usec)
  }

  // Changing one callback

  lemma FlagsUpdate(info: seq<Info>, st: seq<State>, e: nat, s: State)
    requires |info| == |st| && e < |st| && FlagsOk(info, st)
    requires FlagOk(info[e], st[e]) ==> FlagOk(info[e], s)
    ensures FlagsOk(info, st[e := s])
  {}

  lemma ActiveSame(info: seq<Info>, st: seq<State>, queues: seq<seq<nat>>, e: nat, s: State)
    requires |info| == |st| && e < |st| && ActiveOk(info, st, queues) && s.active == st[e].active
    ensures ActiveOk(info, st[e := s], queues)
  {
    forall p: nat | p < |queues|
      ensures ActiveAt(info, st[e := s], queues[p], p)
    {
      assert ActiveAt(info, st, queues[p], p);
    }
  }

  lemma ActiveInsert(info: seq<Info>, st: seq<State>, queues: seq<seq<nat>>, e: nat, s: State)
    requires |info| == |st| && e < |st| && ActiveOk(info, st, queues) && s.active && !st[e].active
    ensures ActiveOk(info, st[e := s], queues[info[e].pri := queues[info[e].pri] + [e]])
  {
    hide Unique;
    var queues' := queues[info[e].pri := queues[info[e].pri] + [e]];
    forall p: nat | p < |queues|
      ensures ActiveAt(info, st[e := s], queues'[p], p)
    {
      assert ActiveAt(info, st, queues[p], p);
      UniqueAppend(queues[info[e].pri], e);
    }
  }

  lemma ActiveRemove(info: seq<Info>, st: seq<State>, queues: seq<seq<nat>>, e: nat, s: State)
    requires |info| == |st| && e < |st| && ActiveOk(info, st, queues) && !s.active && st[e].active
    ensures ActiveOk(info, st[e := s], queues[info[e].pri := Remove(queues[info[e].pri], e)])
    ensures e in queues[info[e].pri] && |Remove(queues[info[e].pri], e)| == |queues[info[e].pri]| - 1
  {
    hide Remove, Unique;
    var q := queues[info[e].pri];
    assert ActiveAt(info, st, q, info[e].pri);
    RemoveMeaning(q, e);
    var queues' := queues[info[e].pri := Remove(q, e)];
    forall p: nat | p < |queues|
      ensures ActiveAt(info, st[e := s], queues'[p], p)
    {
      assert ActiveAt(info, st, queues[p], p);
    }
  }

  lemma LaterSame(st: seq<State>, later: seq<nat>, e: nat, s: State)
    requires e < |st| && LaterOk(st, later) && s.later == st[e].later
    ensures LaterOk(st[e := s], later)
  {}

  lemma LaterInsert(st: seq<State>, later: seq<nat>, e: nat, s: State)
    requires e < |st| && LaterOk(st, later) && s.later && !st[e].later
    ensures LaterOk(st[e := s], later + [e])
  {
    UniqueAppend(later, e);
  }

  lemma LaterRemove(st: seq<State>, later: seq<nat>, e: nat, s: State)
    requires e < |st| && LaterOk(st, later) && !s.later && st[e].later
    ensures LaterOk(st[e := s], Remove(later, e)) && |Remove(later, e)| == |later| - 1
  {
    hide Remove;
    RemoveMeaning(later, e);
  }

  lemma HeapSame(st: seq<State>, at: map<nat, int>, e: nat, s: State)
    requires e < |st| && HeapOk(st, at) && s.timeout == st[e].timeout && (s.timeout ==> s.deadline == st[e].deadline)
    ensures HeapOk(st[e := s], at)
  {}

  lemma HeapInsert(st: seq<State>, at: map<nat, int>, e: nat, s: State)
    requires e < |st| && HeapOk(st, at) && !st[e].timeout && s.timeout
    ensures HeapOk(st[e := s], if s.deadline.queue == None then at[e := s.deadline.usec] else at)
    ensures e !in at
  {}

  lemma HeapRemove(st: seq<State>, at: map<nat, int>, e: nat, s: State)
    requires e < |st| && HeapOk(st, at) && st[e].timeout && !s.timeout
    ensures HeapOk(st[e := s], at - {e}) && (e in at <==> st[e].deadline.queue == None)
  {}

  /** Changing an event that is in the queue neither before nor after, or stays where it is. */
  lemma QueueSame(st: seq<State>, c: nat, q: seq<nat>, e: nat, s: State)
    requires e < |st| && QueueOk(st, c, q)
    requires (s.timeout && s.deadline.queue == Some(c)) == (st[e].timeout && st[e].deadline.queue == Some(c))
    requires st[e].timeout && st[e].deadline.queue == Some(c) ==> s.deadline == st[e].deadline
    ensures QueueOk(st[e := s], c, q)
  {
    assert forall i :: 0 <= i < |q| ==> q[i] in q;
  }

  lemma CommonSame(st: seq<State>, ctls: seq<seq<nat>>, e: nat, s: State)
    requires e < |st| && CommonOk(st, ctls)
    requires s.timeout == st[e].timeout && (s.timeout ==> s.deadline == st[e].deadline)
    ensures CommonOk(st[e := s], ctls)
  {
    hide QueueOk;
    forall c | 0 <= c < |ctls|
      ensures QueueOk(st[e := s], c, ctls[c])
    {
      QueueSame(st, c, ctls[c], e, s);
    }
  }

  /** The event moves into or out of the heap only. */
  lemma CommonPlain(st: seq<State>, ctls: seq<seq<nat>>, e: nat, s: State)
    requires e < |st| && CommonOk(st, ctls)
    requires st[e].timeout ==> st[e].deadline.queue == None
    requires s.timeout ==> s.deadline.queue == None
    ensures CommonOk(st[e := s], ctls)
  {
    hide QueueOk;
    forall c | 0 <= c < |ctls|
      ensures QueueOk(st[e := s], c, ctls[c])
    {
      QueueSame(st, c, ctls[c], e, s);
    }
  }

  predicate Known(q: seq<nat>, n: nat) {
    forall i :: 0 <= i < |q| ==> q[i] < n
  }

  /** Where an event goes in a queue: behind the last one that is not due after it. */
  function Slot(st: seq<State>, q: seq<nat>, time: int): (k: nat)
    requires Known(q, |st|)
    ensures k <= |q| && (k > 0 ==> st[q[k - 1]].deadline.usec <= time)
    ensures forall i :: k <= i < |q| ==> time < st[q[i]].deadline.usec
  {
    if q == [] then 0
    else if st[q[|q| - 1]].deadline.usec <= time then |q|
    else Slot(st, q[..|q| - 1], time)
  }

  function InsertInOrder(st: seq<State>, q: seq<nat>, e: nat, time: int): seq<nat>
    requires Known(q, |st|)
  {
    q[..Slot(st, q, time)] + [e] + q[Slot(st, q, time)..]
  }

  lemma InsertMembers(q: seq<nat>, e: nat, k: nat)
    requires Unique(q) && e !in q && k <= |q|
    ensures Unique(q[..k] + [e] + q[k..]) && forall x :: x in q[..k] + [e] + q[k..] <==> x in q || x == e
  {
    assert q == q[..k] + q[k..];
    assert forall i :: 0 <= i < |q| ==> q[i] in q;
  }

  lemma QueueKnown(st: seq<State>, c: nat, q: seq<nat>)
    requires QueueOk(st, c, q)
    ensures Known(q, |st|)
  {
    assert forall i :: 0 <= i < |q| ==> q[i] in q;
  }

  lemma QueueInsert(st: seq<State>, c: nat, q: seq<nat>, e: nat, s: State)
    requires e < |st| && QueueOk(st, c, q) && !st[e].timeout && s.timeout && s.deadline.queue == Some(c) && Known(q, |st|)
    ensures QueueOk(st[e := s], c, InsertInOrder(st, q, e, s.deadline.usec))
  {
    hide Sorted;
    InsertMembers(q, e, Slot(st, q, s.deadline.usec));
    InsertSorted(st, q, e, s, Slot(st, q, s.deadline.usec));
  }

  /** The head of a queue with one more event. */
  lemma InsertHead(st: seq<State>, q: seq<nat>, e: nat, time: int)
    requires Known(q, |st|)
    ensures var r := InsertInOrder(st, q, e, time);
            && r != [] && (q == [] ==> r[0] == e)
            && (q != [] ==> r[0] == (if time < st[q[0]].deadline.usec then e else q[0]) || r[0] == q[0])
  {}

  /** The element at place `i` of a queue into which `e` has been put at place `k`. */
  lemma InsertedAt(q: seq<nat>, e: nat, k: nat, i: nat)
    requires k <= |q| && i <= |q|
    ensures (q[..k] + [e] + q[k..])[i] == if i < k then q[i] else if i == k then e else q[i - 1]
    ensures i < k ==> q[i] in q
    ensures i > k ==> q[i - 1] in q
  {}

  lemma InsertSorted(st: seq<State>, q: seq<nat>, e: nat, s: State, k: nat)
    requires e < |st| && Sorted(st, q) && e !in q && Known(q, |st|) && k == Slot(st, q, s.deadline.usec)
    ensures Sorted(st[e := s], q[..k] + [e] + q[k..])
  {
    var r, st' := q[..k] + [e] + q[k..], st[e := s];
    forall i, j | 0 <= i < j < |r| && r[i] < |st| && r[j] < |st|
      ensures st'[r[i]].deadline.usec <= st'[r[j]].deadline.usec
    {
      InsertedAt(q, e, k, i);
      InsertedAt(q, e, k, j);
      InsertPair(st, q, s.deadline.usec, k, i, j);
    }
  }

  lemma InsertPair(st: seq<State>, q: seq<nat>, time: int, k: nat, i: nat, j: nat)
    requires Sorted(st, q) && Known(q, |st|) && k == Slot(st, q, time) && i < j <= |q|
    ensures i < k && j == k ==> st[q[i]].deadline.usec <= time
    ensures i == k ==> time <= st[q[j - 1]].deadline.usec
    ensures i != k && j != k ==> st[q[if i < k then i else i - 1]].deadline.usec <= st[q[if j < k then j else j - 1]].deadline.usec
  {
    if i < k - 1 {
      assert st[q[i]].deadline.usec <= st[q[k - 1]].deadline.usec;
    }
  }

  lemma CommonInsert(st: seq<State>, ctls: seq<seq<nat>>, e: nat, s: State, c: nat)
    requires e < |st| && CommonOk(st, ctls) && !st[e].timeout && s.timeout && s.deadline.queue == Some(c) && c < |ctls|
    requires Known(ctls[c], |st|)
    ensures CommonOk(st[e := s], ctls[c := InsertInOrder(st, ctls[c], e, s.deadline.usec)])
  {
    hide QueueOk, InsertInOrder;
    QueueInsert(st, c, ctls[c], e, s);
    forall d | 0 <= d < |ctls| && d != c
      ensures QueueOk(st[e := s], d, ctls[d])
    {
      QueueSame(st, d, ctls[d], e, s);
    }
  }

  lemma QueueRemove(st: seq<State>, c: nat, q: seq<nat>, e: nat, s: State)
    requires e < |st| && QueueOk(st, c, q) && st[e].timeout && st[e].deadline.queue == Some(c) && !s.timeout
    ensures QueueOk(st[e := s], c, Remove(q, e))
  {
    hide Sorted, Remove;
    RemoveMeaning(q, e);
    RemoveSorted(st, q, e, s);
  }

  lemma RemoveSorted(st: seq<State>, q: seq<nat>, e: nat, s: State)
    requires e < |st| && Unique(q) && Sorted(st, q)
    ensures Sorted(st[e := s], Remove(q, e))
  {}

  /** The head of a queue with one event less is due no earlier. */
  lemma RemoveHead(st: seq<State>, q: seq<nat>, e: nat)
    requires Unique(q) && Sorted(st, q) && Known(q, |st|)
    ensures var r := Remove(q, e); r != [] ==> q != [] && r[0] < |st| && r[0] != e && st[q[0]].deadline.usec <= st[r[0]].deadline.usec
  {}

  lemma CommonRemove(st: seq<State>, ctls: seq<seq<nat>>, e: nat, s: State, c: nat)
    requires e < |st| && CommonOk(st, ctls) && st[e].timeout && !s.timeout && st[e].deadline.queue == Some(c)
    ensures c < |ctls| && CommonOk(st[e := s], ctls[c := Remove(ctls[c], e)])
  {
    hide QueueOk, Remove;
    QueueRemove(st, c, ctls[c], e, s);
    forall d | 0 <= d < |ctls| && d != c
      ensures QueueOk(st[e := s], d, ctls[d])
    {
      QueueSame(st, d, ctls[d], e, s);
    }
  }
}
