/** What the dispatcher does when it starts a callback, and what a whole dispatch comes to. */
module EventDispatch {
  import opened Lists
  import opened Options
  import opened EventQueues
  import opened EventOps
  import opened EventCalls
  import opened EventActions
  import opened EventTimers

  const INT_MAX := 0x7fff_ffff

  /** Every action is about a callback of the right kind. */
  ghost predicate AllAllowed(b: Base, acts: seq<Action>) {
    forall i :: 0 <= i < |acts| ==> Allowed(b, acts[i])
  }

  /** What callbacks do when they are run: the k-th one that is started carries out `script(k)`. */
  ghost predicate Plays(b: Base, script: nat -> seq<Action>) {
    forall k: nat :: AllAllowed(b, script(k))
  }

  ghost predicate AllOrderly(acts: seq<Action>) {
    forall i :: 0 <= i < |acts| ==> Orderly(acts[i])
  }

  ghost predicate AllDeferred(acts: seq<Action>) {
    forall i :: 0 <= i < |acts| ==> acts[i].Schedule?
  }

  lemma AllAllowedSame(b: Base, b': Base, acts: seq<Action>)
    requires AllAllowed(b, acts) && SameBase(b, b')
    ensures AllAllowed(b', acts)
  {
    hide Allowed;
    forall i | 0 <= i < |acts|
      ensures Allowed(b', acts[i])
    {
      AllowedSame(b, b', acts[i]);
    }
  }

  lemma PlaysSame(b: Base, b': Base, script: nat -> seq<Action>)
    requires Plays(b, script) && SameBase(b, b')
    ensures Plays(b', script)
  {
    hide AllAllowed;
    forall k: nat
      ensures AllAllowed(b', script(k))
    {
      AllAllowedSame(b, b', script(k));
    }
  }

  /** The callback that is about to be run is taken off its active queue; an event that is not persistent is deleted. */
  function Begun(b: Base, e: nat): (b': Base)
    requires Has(b, e)
    ensures Has(b', e) && SameRound(b, b')
  {
    if b.info[e].isEvent && !b.info[e].persist && !b.info[e].finalizing then Del(b, e, false) else RemoveActive(b, e)
  }

  lemma BegunKeeps(b: Base, e: nat)
    requires Fine(b, {}) && IntervalsOk(b) && Has(b, e) && b.st[e].active
    ensures Fine(Begun(b, e), if IsTimer(b.timers, e) then {e} else {}) && IntervalsOk(Begun(b, e))
    ensures var i, s := b.info[e], b.st[e];
            Begun(b, e).st == b.st[e := if i.isEvent && !i.persist && !i.finalizing
                                        then s.(inserted := false, timeout := false, active := false, later := false)
                                        else s.(active := false)]
  {
    hide Core, Wakes, Del, RemoveActive, IntervalsOk;
    var running := if IsTimer(b.timers, e) then {e} else {};
    WakesMore(b, {}, running);
    StepShapes(b, e);
    if b.info[e].isEvent && !b.info[e].persist && !b.info[e].finalizing {
      DelKeeps(b, e, false, running);
    } else {
      FineRemoveActive(b, e, running);
    }
    IntervalsSame(b, Begun(b, e));
  }

  lemma BegunShrinks(b: Base, e: nat)
    requires Core(b) && Has(b, e) && b.st[e].active
    ensures Shrinks(b, Begun(b, e)) && Core(Begun(b, e)) && Total(Begun(b, e).queues) <= Total(b.queues) - 1
  {
    hide FlagsOk, ActiveOk, LaterOk, HeapOk, CommonOk, StandInsOk, Del, RemoveActive, Wakes;
    AllRunning(b);
    var all := set t | t in b.timers;
    StepsShrink(b, e);
    StepShapes(b, e);
    if b.info[e].isEvent && !b.info[e].persist && !b.info[e].finalizing {
      DelShrinks(b, e, false);
      TimersRun(b, e, all);
      DelKeeps(b, e, false, all);
      DelCounts(b, e);
    } else {
      TimersRun(b, e, all);
      FineRemoveActive(b, e, all);
      RemoveActiveCounts(b, e);
    }
  }

  lemma TimersRun(b: Base, e: nat, all: set<nat>)
    requires all == set t | t in b.timers
    ensures IsTimer(b.timers, e) ==> e in all
  {}

  lemma RemoveActiveCounts(b: Base, e: nat)
    requires Core(b) && Has(b, e) && b.st[e].active
    ensures Total(RemoveActive(b, e).queues) == Total(b.queues) - 1
  {
    hide FlagsOk, LaterOk, HeapOk, CommonOk, StandInsOk, Remove;
    var p := b.info[e].pri;
    ActiveRemove(b.info, b.st, b.queues, e, b.st[e].(active := false));
    TotalUpdate(b.queues, p, Remove(b.queues[p], e));
  }

  lemma DelCounts(b: Base, e: nat)
    requires Core(b) && Has(b, e) && b.st[e].active && !b.info[e].finalizing
    ensures Total(Del(b, e, false).queues) == Total(b.queues) - 1
  {
    hide FlagsOk, ActiveOk, LaterOk, CountsOk, HeapOk, CommonOk, StandInsOk, RemoveTimeout, RemoveActive, RemoveLater, RemoveInserted, Wakes;
    AllRunning(b);
    var all := set t | t in b.timers;
    TimersRun(b, e, all);
    OffTimersKeeps(b, e, all);
    StepShapes(b, e);
    if b.st[e].timeout {
      RemoveTimeoutShape(b, e);
    }
    var b1 := OffTimers(b, e);
    RemoveActiveCounts(b1, e);
    OffBackendQueues(OffActive(b1, e), e);
  }

  lemma OffBackendQueues(b: Base, e: nat)
    requires Has(b, e)
    ensures OffBackend(b, e).queues == b.queues
  {}

  /** Shorter queues hold fewer callbacks. */
  lemma {:induction false} TotalShrinks(q: seq<seq<nat>>, q': seq<seq<nat>>)
    requires |q'| == |q| && forall p :: 0 <= p < |q| ==> |q'[p]| <= |q[p]|
    ensures Total(q') <= Total(q)
  {
    if q != [] {
      TotalShrinks(q[1..], q'[1..]);
    }
  }

  lemma ShrinkingKeepsBudget(b: Base, b': Base)
    requires Shrinks(b, b') && b'.nDeferreds == b.nDeferreds
    ensures Budget(b') <= Budget(b)
  {
    TotalShrinks(b.queues, b'.queues);
  }

  /** Starting a callback uses up one unit of the budget. */
  lemma BegunBudget(b: Base, e: nat)
    requires Core(b) && Has(b, e) && b.st[e].active
    ensures Budget(Begun(b, e)) <= Budget(b) - 1
  {
    hide Core, Begun, Total;
    BegunShrinks(b, e);
  }

  lemma ShrinkingKeepsOrder(b: Base, b': Base, p: int)
    requires Shrinks(b, b') && NoneBefore(b, p)
    ensures NoneBefore(b', p)
  {}

  /** A dispatch that starts with L callbacks queued has a budget of at most L + 33. */
  lemma BudgetBound(b: Base)
    requires Core(b) && b.nDeferreds >= 0
    ensures Budget(b) <= b.countActive + MAX_DEFERREDS_QUEUED + 1
  {
    hide FlagsOk, ActiveOk, LaterOk, HeapOk, CommonOk, StandInsOk;
  }

  lemma BudgetLeft(b: Base)
    ensures Budget(b) >= 0
  {}

  /** The head of an active queue is active, and of that queue's priority. */
  lemma HeadIsActive(b: Base, p: nat)
    requires Core(b) && p < |b.queues| && b.queues[p] != []
    ensures Has(b, b.queues[p][0]) && b.st[b.queues[p][0]].active && b.info[b.queues[p][0]].pri == p
  {
    hide FlagsOk, LaterOk, CountsOk, HeapOk, CommonOk, StandInsOk;
    var e := b.queues[p][0];
    assert e in b.queues[p];
    assert e < |b.st| && b.st[e].active && b.info[e].pri == p;
  }

  /** All that callbacks do leaves the priorities in order. */
  ghost predicate PlaysOrderly(script: nat -> seq<Action>) {
    forall k: nat :: AllOrderly(script(k))
  }

  /** All that callbacks do is to schedule deferred callbacks. */
  ghost predicate PlaysDeferred(script: nat -> seq<Action>) {
    forall k: nat :: AllDeferred(script(k))
  }

  /** Internal events have priority 0. */
  ghost predicate InternalFirst(info: seq<Info>) {
    forall e :: 0 <= e < |info| && info[e].internal ==> info[e].pri == 0
  }

  /** What holds of a run in which no priority is to be inverted, while queue `p` is being processed. */
  ghost predicate OrderlyAt(b: Base, p: nat) {
    InternalFirst(b.info) && b.running == p && !b.continues && NoneBefore(b, p)
  }

  lemma BegunOrder(b: Base, e: nat)
    requires Core(b) && Has(b, e) && b.st[e].active && OrderlyAt(b, b.info[e].pri)
    ensures InOrder(Begun(b, e)) && !Begun(b, e).continues
  {
    hide Core, Begun;
    BegunShrinks(b, e);
    ShrinkingKeepsOrder(b, Begun(b, e), b.info[e].pri);
  }

  lemma StandInFacts(b: Base, c: nat)
    requires Core(b) && c < |b.timers|
    ensures |b.timers| == |b.ctls| && Has(b, b.timers[c]) && IsTimer(b.timers, b.timers[c])
  {
    hide Core;
    TimerCount(b);
  }

  /** A stand-in that is about to run its callback leaves the heap. */
  lemma BegunStandIn(b: Base, c: nat)
    requires Core(b) && c < |b.timers| && Has(b, b.timers[c])
    ensures Begun(b, b.timers[c]).at == b.at - {b.timers[c]} && Begun(b, b.timers[c]).ctls == b.ctls
  {
    hide Core, Del;
    assert IsTimer(b.timers, b.timers[c]);
    TimerFacts(b, b.timers[c]);
    DelHeap(b, b.timers[c]);
  }

  /** A stand-in that starts is no longer active; nothing else has changed. */
  lemma StandInStarts(b: Base, c: nat)
    requires Fine(b, {}) && IntervalsOk(b) && c < |b.timers| && Has(b, b.timers[c]) && b.st[b.timers[c]].active
    ensures var t, b' := b.timers[c], Begun(b, b.timers[c]);
            && Expiring(b, b') && ActiveStandIns(b') == ActiveStandIns(b) - {c} && Core(b')
            && b'.at == b.at - {t} && b'.ctls == b.ctls && !b'.st[t].active
  {
    hide Fine, IntervalsOk, Begun, Expiring, Core;
    FineIsCore(b, {});
    BegunKeeps(b, b.timers[c]);
    FineIsCore(Begun(b, b.timers[c]), if IsTimer(b.timers, b.timers[c]) then {b.timers[c]} else {});
    BegunStandIn(b, c);
    StandInBegins(b, Begun(b, b.timers[c]), c);
  }

  // Events that the callback of a stand-in can make active

  predicate StandInIsActive(b: Base, c: nat) {
    c < |b.timers| && b.timers[c] < |b.st| && b.st[b.timers[c]].active
  }

  /** The event waits in a common-timeout queue whose stand-in is active, or is a persistent one that goes back there when
      its callback starts: because it is active, or because it is in `starting`. */
  predicate Awaits(b: Base, e: nat, starting: set<nat>) {
    && e < |b.st| && e < |b.info| && b.info[e].isEvent
    && b.st[e].deadline.queue.Some? && StandInIsActive(b, b.st[e].deadline.queue.value)
    && (b.st[e].timeout || (b.info[e].persist && (b.st[e].active || e in starting)))
  }

  function Awaiting(b: Base, starting: set<nat>): set<nat> {
    set e: nat | e < |b.st| && Awaits(b, e, starting)
  }

  /** At most how many more callbacks a dispatch can start, as long as callbacks only schedule deferred ones. */
  function Prospect(b: Base, starting: set<nat>): int {
    Budget(b) + |Awaiting(b, starting)|
  }

  /** How many events the callback that has been started can make active: for a stand-in, those of its queue. */
  function Owed(b: Base, e: nat): nat {
    if e in b.timers && IndexOf(b.timers, e) < |b.ctls| then |b.ctls[IndexOf(b.timers, e)]| else 0
  }

  lemma FewerElements(a: set<nat>, b: set<nat>)
    requires a <= b
    ensures |a| <= |b|
  {
    assert b == a + (b - a);
  }

  lemma FewerAwait(b: Base, s: set<nat>, b': Base, s': set<nat>)
    requires forall e: nat :: Awaits(b', e, s') ==> Awaits(b, e, s)
    requires |b'.st| <= |b.st|
    ensures |Awaiting(b', s')| <= |Awaiting(b, s)|
  {
    FewerElements(Awaiting(b', s'), Awaiting(b, s));
  }

  /** Scheduling a deferred callback does not add to what a dispatch can start. */
  lemma ScheduledProspect(b: Base, e: nat)
    requires Fine(b, {}) && Has(b, e) && !b.info[e].isEvent && !IsTimer(b.timers, e)
    ensures Prospect(ScheduleDeferred(b, e).1, {}) <= Prospect(b, {})
  {
    hide Fine, ScheduleDeferred, Budget, Awaiting;
    FineIsCore(b, {});
    ScheduleKeepsBudget(b, e);
    ScheduleDeferredKeeps(b, e, {});
    forall c: nat | StandInIsActive(ScheduleDeferred(b, e).1, c)
      ensures StandInIsActive(b, c)
    {
      assert b.timers[c] in b.timers;
    }
    FewerAwait(b, {}, ScheduleDeferred(b, e).1, {});
  }

  /** Adding a persistent event again does not either. */
  lemma RearmedProspect(b: Base, e: nat, ioOk: bool)
    requires Fine(b, {}) && IntervalsOk(b) && Has(b, e) && b.info[e].isEvent && b.info[e].persist && !IsTimer(b.timers, e)
    ensures Prospect(Rearm(b, e, ioOk), {}) <= Prospect(b, {e})
  {
    hide Fine, Add, Budget, Awaiting;
    var b' := Rearm(b, e, ioOk);
    RearmShrinks(b, e, ioOk);
    ShrinkingKeepsBudget(b, b');
    RearmKeeps(b, e, ioOk, {});
    if HasInterval(b.st[e]) {
      AddKeeps(b, e, Some(Timeval(NextRun(b.st[e], b.now), b.st[e].interval.queue)), true, ioOk, {});
    }
    FineIsCore(b', {});
    RearmedAwaits(b, b', e);
    FewerAwait(b, {e}, b', {});
  }

  lemma RearmedAwaits(b: Base, b': Base, e: nat)
    requires Core(b') && OthersSame(b, b', e) && SameSetup(b, b') && Has(b, e) && b.info[e].persist && !IsTimer(b.timers, e)
    requires b'.st[e].deadline.queue == b.st[e].deadline.queue
    ensures forall x: nat :: Awaits(b', x, {}) ==> Awaits(b, x, {e})
  {
    hide Core;
    forall c: nat | StandInIsActive(b', c)
      ensures StandInIsActive(b, c)
    {
      assert b.timers[c] in b.timers;
    }
    forall x: nat | Awaits(b', x, {})
      ensures Awaits(b, x, {e})
    {
      if IsTimer(b.timers, x) {
        TimerFacts(b', x);
      }
    }
  }

  /** Starting a callback takes one from what a dispatch can start, and what it owes. */
  lemma BegunProspect(b: Base, e: nat)
    requires Fine(b, {}) && IntervalsOk(b) && Has(b, e) && b.st[e].active
    ensures Prospect(Begun(b, e), {e}) + Owed(Begun(b, e), e) + 1 <= Prospect(b, {})
  {
    hide Fine, IntervalsOk, Begun, Budget, Awaiting, Core;
    FineIsCore(b, {});
    BegunBudget(b, e);
    BegunKeeps(b, e);
    if IsTimer(b.timers, e) {
      StandInBegun(b, e);
    } else {
      forall c: nat | StandInIsActive(Begun(b, e), c)
        ensures StandInIsActive(b, c)
      {
        assert b.timers[c] != e;
      }
      FewerAwait(b, {}, Begun(b, e), {e});
    }
  }

  /** The events in the queue of a stand-in that starts are no longer awaited, but owed. */
  lemma StandInBegun(b: Base, e: nat)
    requires Fine(b, {}) && IntervalsOk(b) && Has(b, e) && b.st[e].active && IsTimer(b.timers, e)
    ensures |Awaiting(Begun(b, e), {e})| + Owed(Begun(b, e), e) <= |Awaiting(b, {})|
  {
    hide Fine, IntervalsOk, Begun, Core, Awaits;
    FineIsCore(b, {});
    var c, b' := IndexOf(b.timers, e), Begun(b, e);
    StandInFacts(b, c);
    BegunKeeps(b, e);
    BegunStandIn(b, c);
    QueueFacts(b, c);
    TimerFacts(b, e);
    var owed := set x | x in b.ctls[c];
    UniqueSize(b.ctls[c], owed);
    forall x: nat
      ensures x in owed ==> Awaits(b, x, {}) && !Awaits(b', x, {e}) && x < |b.st|
      ensures Awaits(b', x, {e}) ==> Awaits(b, x, {})
    {
      StandInAwaits(b, b', c, x);
    }
    var rest := Awaiting(b', {e});
    assert rest !! owed;
    FewerElements(rest + owed, Awaiting(b, {}));
  }

  lemma StandInAwaits(b: Base, b': Base, c: nat, x: nat)
    requires Core(b) && c < |b.timers| && SameSetup(b, b')
    requires var e := b.timers[c];
             && Has(b, e) && b.st[e].active && !b'.st[e].active
             && b'.st[e].deadline.queue == None && forall y :: 0 <= y < |b.st| && y != e ==> b'.st[y] == b.st[y]
    ensures c < |b.ctls| && (x in b.ctls[c] ==> Awaits(b, x, {}) && !Awaits(b', x, {b.timers[c]}))
    ensures Awaits(b', x, {b.timers[c]}) ==> Awaits(b, x, {})
  {
    hide ActiveOk, LaterOk, CountsOk, HeapOk, CommonOk;
    QueueFacts(b, c);
    NotInQueue(b, c);
  }

  /** A common-timeout event is no stand-in. */
  lemma NotInQueue(b: Base, c: nat)
    requires Core(b) && c < |b.timers| == |b.ctls|
    ensures b.timers[c] < |b.st| && b.timers[c] !in b.ctls[c]
  {
    hide Core;
    QueueFacts(b, c);
    TimerFacts(b, b.timers[c]);
  }

  /** When the callback of a stand-in is over, no more events are awaited than before. */
  lemma CallbackAwaits(b: Base, b': Base, c: nat)
    requires Core(b) && c < |b.ctls| && SameSetup(b, b') && b.timers[c] < |b.st|
    requires forall e :: 0 <= e < |b.st| && e != b.timers[c] ==>
               b'.st[e] == if e in b.ctls[c] && b.st[e].deadline.usec <= b.now then Fired(b.st[e]) else b.st[e]
    requires !b'.st[b.timers[c]].active && b'.st[b.timers[c]].deadline.queue == None
    ensures |Awaiting(b', {})| <= |Awaiting(b, {b.timers[c]})|
  {
    hide FlagsOk, ActiveOk, LaterOk, CountsOk, HeapOk, CommonOk;
    QueueFacts(b, c);
    forall d: nat | StandInIsActive(b', d)
      ensures StandInIsActive(b, d) && d != c
    {
      NotFired(b, c, d);
    }
    FewerAwait(b, {b.timers[c]}, b', {});
  }

  lemma NotFired(b: Base, c: nat, d: nat)
    requires Core(b) && c < |b.ctls| && d < |b.timers|
    ensures b.timers[d] < |b.st| && b.timers[d] !in b.ctls[c]
  {
    hide Core;
    StandInFacts(b, d);
    QueueFacts(b, c);
    TimerFacts(b, b.timers[d]);
  }

  lemma CallbackProspect(b: Base, b': Base, c: nat)
    requires Core(b) && c < |b.ctls| && SameSetup(b, b') && b.timers[c] < |b.st| && Core(b')
    requires c == IndexOf(b.timers, b.timers[c]) && Budget(b') <= Budget(b) + |b.ctls[c]|
    requires forall e :: 0 <= e < |b.st| && e != b.timers[c] ==>
               b'.st[e] == if e in b.ctls[c] && b.st[e].deadline.usec <= b.now then Fired(b.st[e]) else b.st[e]
    requires !b'.st[b.timers[c]].active
    ensures Prospect(b', {}) <= Prospect(b, {b.timers[c]}) + Owed(b, b.timers[c])
  {
    hide Core, Budget, Awaiting;
    StandInFacts(b', c);
    TimerFacts(b', b.timers[c]);
    CallbackAwaits(b, b', c);
  }

  /** What the dispatcher keeps for itself is no part of it. */
  lemma ProspectControl(b: Base, b': Base)
    requires b' == b.(running := b'.running)
    ensures Prospect(b', {}) == Prospect(b, {})
  {
    assert Awaiting(b', {}) == Awaiting(b, {});
  }

  lemma StartingLess(b: Base, e: nat)
    ensures Prospect(b, {}) <= Prospect(b, {e})
  {
    hide Budget;
    FewerAwait(b, {e}, b, {});
  }

  /** Letting an event time out adds at most one to the budget. */
  lemma FireBudget(b: Base, e: nat)
    requires Has(b, e)
    ensures Budget(Fire(b, e)) <= Budget(b) + 1
  {
    hide Del, ActivateEvent, Budget;
    DelShrinks(b, e, false);
    ShrinkingKeepsBudget(b, Del(b, e, false));
    ActivateBudget(Del(b, e, false), e, true);
  }

  lemma ActivateBudget(b: Base, e: nat, timedOut: bool)
    requires Has(b, e)
    ensures Budget(ActivateEvent(b, e, timedOut)) <= Budget(b) + 1
  {
    var p := b.info[e].pri;
    TotalUpdate(b.queues, p, b.queues[p] + [e]);
  }

  lemma ScheduledBudget(b: Base, c: nat)
    requires c < |b.ctls| == |b.timers| && Has(b, b.timers[c]) && b.ctls[c] != [] && b.ctls[c][0] < |b.st|
    ensures Budget(ScheduleCommon(b, c)) <= Budget(b)
  {
    hide SetTimer, Budget;
    SetTimerShrinks(b, b.timers[c], Timeval(b.st[b.ctls[c][0]].deadline.usec, None), true);
    ShrinkingKeepsBudget(b, ScheduleCommon(b, c));
  }

  // How many are awaited

  /** The common-timeout queues whose stand-in is active. */
  function Pending(b: Base): seq<seq<nat>> {
    seq(|b.ctls|, c requires 0 <= c < |b.ctls| => if StandInIsActive(b, c) then b.ctls[c] else [])
  }

  /** The persistent events that are active and in no queue, but go back to one whose stand-in is active. */
  function Returning(b: Base): set<nat> {
    set e: nat | e < |b.st| && Awaits(b, e, {}) && !b.st[e].timeout
  }

  lemma {:induction false} ElementsBound(q: seq<nat>, s: set<nat>)
    requires forall x :: x in s ==> x in q
    ensures |s| <= |q|
  {
    if q == [] {
      assert s == {};
    } else {
      ElementsBound(q[1..], s - {q[0]});
      FewerElements(s, (s - {q[0]}) + {q[0]});
    }
  }

  lemma AwaitingBound(b: Base)
    requires Core(b)
    ensures |Awaiting(b, {})| <= Total(Pending(b)) + |Returning(b)|
    ensures !StandInActive(b) ==> Awaiting(b, {}) == {}
  {
    hide FlagsOk, ActiveOk, LaterOk, CountsOk, HeapOk, StandInsOk, QueueOk;
    var waiting := Awaiting(b, {}) - Returning(b);
    forall e | e in waiting
      ensures e in All(Pending(b))
    {
      var c := b.st[e].deadline.queue.value;
      assert QueueOk(b.st, c, b.ctls[c]);
      InItsQueue(b, c, e);
      AllMembers(Pending(b), e);
      assert e in Pending(b)[c];
    }
    ElementsBound(All(Pending(b)), waiting);
    FewerElements(Awaiting(b, {}), waiting + Returning(b));
  }

  lemma InItsQueue(b: Base, c: nat, e: nat)
    requires c < |b.ctls| && QueueOk(b.st, c, b.ctls[c]) && e < |b.st| && b.st[e].timeout && b.st[e].deadline.queue == Some(c)
    ensures e in b.ctls[c]
  {}

  /** A stand-in and a persistent event are active, and one more event waits in their queue; it is time 10. */
  function Crowded(): Base {
    var standIn, persistent, plain := Info(true, true, false, false, false, 0), Info(true, false, false, false, true, 0), Info(true, false, false, false, false, 0);
    Base([standIn, persistent, plain],
         [State(false, false, true, false, true, Timeval(10, None), Timeval(0, None)),
          State(false, false, true, false, true, Timeval(5, Some(0)), Timeval(5, Some(0))),
          State(false, true, false, false, false, Timeval(10, Some(0)), Timeval(0, None))],
         [[1, 0]], [], 2, 2, map[], [0], [[2]], 0, false, false, 0, 10)
  }

  lemma WeightsOfThree(i0: Info, i1: Info, i2: Info, s0: State, s1: State, s2: State)
    ensures Weights([i0, i1, i2], [s0, s1, s2]) == Weight(i0, s0) + Weight(i1, s1) + Weight(i2, s2)
  {
    assert [i0, i1, i2][1..] == [i1, i2] && [s0, s1, s2][1..] == [s1, s2];
    assert [i1, i2][1..] == [i2] && [s1, s2][1..] == [s2];
    assert [i2][1..] == [] && [s2][1..] == [];
    assert Weights([i2], [s2]) == Weight(i2, s2);
    assert Weights([i1, i2], [s1, s2]) == Weight(i1, s1) + Weights([i2], [s2]);
  }

  lemma CrowdedQueues()
    ensures var b := Crowded();
            && FlagsOk(b.info, b.st) && ActiveOk(b.info, b.st, b.queues) && LaterOk(b.st, b.later)
            && CountsOk(b.info, b.st, b.queues, b.later, b.count, b.countActive)
  {
    hide Weights;
    var b := Crowded();
    WeightsOfThree(b.info[0], b.info[1], b.info[2], b.st[0], b.st[1], b.st[2]);
    assert ActiveAt(b.info, b.st, b.queues[0], 0);
  }

  lemma CrowdedTimers()
    ensures var b := Crowded();
            HeapOk(b.st, b.at) && CommonOk(b.st, b.ctls) && StandInsOk(b.info, b.st, b.timers)
  {
    assert QueueOk(Crowded().st, 0, Crowded().ctls[0]);
  }

  lemma CrowdedIsFine()
    ensures Fine(Crowded(), {}) && IntervalsOk(Crowded())
  {
    hide FlagsOk, ActiveOk, LaterOk, CountsOk, HeapOk, CommonOk, StandInsOk;
    CrowdedQueues();
    CrowdedTimers();
  }

  /** The same base once the callback of the persistent event is to be run. */
  function Started(): Base {
    Crowded().(count := 1, countActive := 1, queues := [[0]], st := Crowded().st[1 := Crowded().st[1].(active := false)])
  }

  lemma CrowdedStarts()
    ensures Has(Crowded(), 1) && Begun(Crowded(), 1) == Started() && Has(Started(), 1)
  {
    assert Remove([1, 0], 1) == [0];
  }

  lemma GoesBehind(st: seq<State>)
    requires 2 < |st| && st[2].deadline.usec == 10
    ensures InsertInOrder(st, [2], 1, 10) == [2, 1]
  {}

  lemma StartedGoesBack()
    ensures Has(Started(), 1)
    ensures var b := SetTimer(Started(), 1, Timeval(10, Some(0)), true);
            b.ctls == [[2, 1]] && b.queues == [[0]] && b.now == 10 && |b.st| == 3 && b.st[0].active
            && b.st[1].timeout && b.st[2].timeout && b.st[1].deadline.usec == b.st[2].deadline.usec == 10
  {
    hide InsertInOrder;
    var b := Unset(Started(), 1, Timeval(10, Some(0)));
    assert b == With(Started(), 1, Started().st[1].(deadline := Timeval(10, Some(0))));
    GoesBehind(b.st);
    assert Known([2], 3);
  }

  /** The lengths of the queues are not enough: the persistent event goes back behind the one that waits, and is due
      at once, so that the stand-in lets both time out. */
  lemma GoesBack()
    ensures Fine(Crowded(), {}) && Has(Crowded(), 1) && Pending(Crowded()) == [[2]] && Returning(Crowded()) == {1}
    ensures var b := Rearm(Begun(Crowded(), 1), 1, true);
            b.ctls == [[2, 1]] && b.queues == [[0]] && StandInActive(b) && Due(b, 1) && Due(b, 2)
  {
    hide Fine, SetTimer, Begun;
    CrowdedIsFine();
    CrowdedStarts();
    StartedGoesBack();
    var b := Rearm(Started(), 1, true);
    assert b == SetTimer(Started(), 1, Timeval(10, Some(0)), true);
    assert b.st[b.timers[0]].active;
  }

  // Making the callbacks of the next round active

  /** The callbacks of a queue that have priority `p`, in their order. */
  function AtPriority(info: seq<Info>, q: seq<nat>, p: nat): seq<nat> {
    if q == [] then []
    else AtPriority(info, q[..|q| - 1], p) + (var e := q[|q| - 1]; if e < |info| && info[e].pri == p then [e] else [])
  }

  /** How many of the callbacks are not events. */
  function Deferreds(info: seq<Info>, q: seq<nat>): nat {
    if q == [] then 0
    else Deferreds(info, q[..|q| - 1]) + (var e := q[|q| - 1]; if e < |info| && !info[e].isEvent then 1 else 0)
  }

  /** Makes the first callback of the next round active; the counters do not change. */
  function Promote(b: Base, e: nat): Base
    requires Has(b, e)
  {
    var b1 := InsertActive(RemoveLater(b, e), e);
    b1.(nDeferreds := b.nDeferreds + if b.info[e].isEvent then 0 else 1)
  }

  lemma PromoteKeeps(b: Base, e: nat)
    requires Fine(b, {}) && IntervalsOk(b) && Has(b, e) && b.st[e].later
    ensures Fine(Promote(b, e), {}) && IntervalsOk(Promote(b, e)) && SameBase(b, Promote(b, e))
    ensures Promote(b, e).st == b.st[e := b.st[e].(active := true, later := false)]
  {
    hide Fine, IntervalsOk, InsertActive, RemoveLater;
    StepShapes(b, e);
    Exclusive(b, e, {});
    FineRemoveLater(b, e, {});
    var b1 := RemoveLater(b, e);
    FineInsertActive(b1, e, {});
    StepShapes(b1, e);
    FineControl(InsertActive(b1, e), Promote(b, e), {});
    IntervalsSame(b, Promote(b, e));
  }

  lemma PromoteShape(b: Base)
    requires b.later != [] && Has(b, b.later[0])
    ensures var e := b.later[0];
            Promote(b, e) == b.(later := b.later[1..], st := b.st[e := b.st[e].(active := true, later := false)],
                                queues := b.queues[b.info[e].pri := b.queues[b.info[e].pri] + [e]],
                                nDeferreds := b.nDeferreds + if b.info[e].isEvent then 0 else 1)
  {}

  /** The callbacks of the first `k` entries of `later0` have been made active, in their order. */
  ghost predicate Promoted(b0: Base, b: Base, k: nat) {
    && SameBase(b0, b) && k <= |b0.later| && b.later == b0.later[k..]
    && (forall e :: 0 <= e < |b0.st| ==> b.st[e] == if e in b0.later[..k] then b0.st[e].(active := true, later := false) else b0.st[e])
    && (forall p :: 0 <= p < |b0.queues| ==> b.queues[p] == b0.queues[p] + AtPriority(b0.info, b0.later[..k], p))
    && b.nDeferreds == b0.nDeferreds + Deferreds(b0.info, b0.later[..k])
    && b.count == b0.count && b.countActive == b0.countActive && b.continues == b0.continues
    && b.at == b0.at && b.ctls == b0.ctls && b.now == b0.now && b.breaks == b0.breaks
  }

  lemma PromotedNone(b: Base)
    ensures Promoted(b, b, 0)
  {}

  lemma PromotedNext(b0: Base, b: Base, k: nat)
    requires Promoted(b0, b, k) && Core(b) && Core(b0) && b.later != []
    ensures Has(b, b.later[0]) && b.st[b.later[0]].later && Promoted(b0, Promote(b, b.later[0]), k + 1)
  {
    hide FlagsOk, ActiveOk, CountsOk, HeapOk, CommonOk, StandInsOk, AtPriority, Deferreds;
    var e := b.later[0];
    assert e == b0.later[k] && e in b.later;
    HasIt(b, e);
    assert Remove(b.later, e) == b0.later[k + 1..];
    var q := b0.later[..k + 1];
    assert q[..|q| - 1] == b0.later[..k] && q[|q| - 1] == e;
    PromotedQueues(b0.info, q);
  }

  lemma PromotedQueues(info: seq<Info>, q: seq<nat>)
    requires q != []
    ensures var e := q[|q| - 1];
            && (forall p: nat :: AtPriority(info, q, p) == AtPriority(info, q[..|q| - 1], p) + if e < |info| && info[e].pri == p then [e] else [])
            && Deferreds(info, q) == Deferreds(info, q[..|q| - 1]) + if e < |info| && !info[e].isEvent then 1 else 0
  {}
}
