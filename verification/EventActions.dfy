/** What callbacks can do while the dispatcher runs them. */
module EventActions {
  import opened Lists
  import opened Options
  import opened EventQueues
  import opened EventOps
  import opened EventCalls

  datatype Action =
    | AddEvent(e: nat, tv: Option<Timeval>, ioOk: bool)
    | DelEvent(e: nat)
    | ActivateNow(e: nat, timedOut: bool)
    | ActivateInNextRound(e: nat, timedOut: bool)
    | Schedule(e: nat)
    | CancelCallback(e: nat)
    | LoopBreak
    | LoopExit
    | LoopContinue
    | SetClock(time: int)

  /** The action is about a callback of the right kind that belongs to the user. */
  ghost predicate Allowed(b: Base, a: Action) {
    |b.info| == |b.st| &&
    match a
    case AddEvent(e, tv, _) => e < |b.st| && b.info[e].isEvent && !IsTimer(b.timers, e) && (tv.Some? ==> Tagged(b, tv.value))
    case DelEvent(e) => e < |b.st| && b.info[e].isEvent && !IsTimer(b.timers, e)
    case ActivateNow(e, _) => e < |b.st| && b.info[e].isEvent && !IsTimer(b.timers, e)
    case ActivateInNextRound(e, _) => e < |b.st| && b.info[e].isEvent && !IsTimer(b.timers, e)
    case Schedule(e) => e < |b.st| && !b.info[e].isEvent && !IsTimer(b.timers, e)
    case CancelCallback(e) => e < |b.st| && !IsTimer(b.timers, e)
    case _ => true
  }

  ghost function Act(b: Base, a: Action): (b': Base)
    requires Core(b) && Allowed(b, a)
  {
    match a
    case AddEvent(e, tv, ioOk) => Add(b, e, tv, false, ioOk).1
    case DelEvent(e) => Del(b, e, false)
    case ActivateNow(e, timedOut) => ActivateEvent(b, e, timedOut)
    case ActivateInNextRound(e, timedOut) => ActivateEventLater(b, e, timedOut)
    case Schedule(e) => ScheduleDeferred(b, e).1
    case CancelCallback(e) => Cancel(b, e, false)
    case LoopBreak => b.(breaks := true)
    case LoopExit => b
    case LoopContinue => b.(continues := true)
    case SetClock(time) => b.(now := time)
  }

  /** Nothing that was set up has changed. */
  ghost predicate SameBase(b: Base, b': Base) {
    && b'.info == b.info && |b'.st| == |b.st| && |b'.queues| == |b.queues|
    && b'.timers == b.timers && |b'.ctls| == |b.ctls| && b'.running == b.running
  }

  lemma AllowedSame(b: Base, b': Base, a: Action)
    requires Allowed(b, a) && SameBase(b, b')
    ensures Allowed(b', a)
  {}

  /** Every action keeps the invariant. */
  lemma ActKeeps(b: Base, a: Action, running: set<nat>)
    requires Fine(b, running) && IntervalsOk(b) && Allowed(b, a)
    ensures Core(b) && Fine(Act(b, a), running) && IntervalsOk(Act(b, a)) && SameBase(b, Act(b, a))
  {
    hide Core, Wakes, Add, Del, ActivateEvent, ActivateEventLater, ScheduleDeferred, Cancel, IntervalsOk;
    if !a.LoopBreak? && !a.LoopExit? && !a.LoopContinue? && !a.SetClock? {
      HasIt(b, a.e);
    }
    match a {
      case AddEvent(e, tv, ioOk) =>
        AddKeeps(b, e, tv, false, ioOk, running);
        AddIntervals(b, e, tv, false, ioOk, running);
      case DelEvent(e) =>
        DelKeeps(b, e, false, running);
        IntervalsSame(b, Act(b, a));
      case ActivateNow(e, timedOut) =>
        ActivateEventKeeps(b, e, timedOut, running);
        IntervalsSame(b, Act(b, a));
      case ActivateInNextRound(e, timedOut) =>
        ActivateEventLaterKeeps(b, e, timedOut, running);
        IntervalsSame(b, Act(b, a));
      case Schedule(e) =>
        ScheduleDeferredKeeps(b, e, running);
        ScheduledTimes(b, e, running);
        IntervalsSame(b, Act(b, a));
      case CancelCallback(e) =>
        CancelKeeps(b, e, false, running);
        IntervalsSame(b, Act(b, a));
      case _ =>
        FineControl(b, Act(b, a), running);
        IntervalsSame(b, Act(b, a));
    }
  }

  /** What an action does to the callback it is about, and to what the dispatcher has been told; no callback of the user but
      that one changes. */
  lemma ActEffects(b: Base, a: Action, running: set<nat>)
    requires Fine(b, running) && Allowed(b, a)
    ensures Core(b) && |Act(b, a).st| == |b.st|
    ensures Act(b, a).breaks == (b.breaks || a.LoopBreak?) && Act(b, a).now == if a.SetClock? then a.time else b.now
    ensures a.LoopBreak? || a.LoopExit? || a.LoopContinue? || a.SetClock? ==> Act(b, a).st == b.st
    ensures a.LoopContinue? ==> Act(b, a).continues
    ensures a.DelEvent? || a.CancelCallback? ==>
              var s, b' := b.st[a.e], Act(b, a);
              b'.st == if b.info[a.e].finalizing then b.st
                       else b.st[a.e := s.(inserted := false, timeout := false, active := false, later := false)]
    ensures a.ActivateNow? ==>
              var s, b' := b.st[a.e], Act(b, a);
              && b'.st == (if b.info[a.e].finalizing then b.st
                           else b.st[a.e := s.(active := true, later := false,
                                               timedOut := a.timedOut || ((s.active || s.later) && s.timedOut))])
              && b'.continues == (b.continues || (!b.info[a.e].finalizing && !s.active && b.info[a.e].pri < b.running))
    ensures a.ActivateInNextRound? ==>
              var s, b' := b.st[a.e], Act(b, a);
              b'.st == b.st[a.e := s.(later := !s.active, timedOut := a.timedOut || ((s.active || s.later) && s.timedOut))]
    ensures a.Schedule? && b.nDeferreds <= 32 && !b.info[a.e].finalizing ==> Act(b, a).st == b.st[a.e := b.st[a.e].(active := true, later := false)]
    ensures a.Schedule? && b.nDeferreds > 32 ==> Act(b, a).st == b.st[a.e := b.st[a.e].(later := !b.st[a.e].active)]
    ensures a.AddEvent? ==>
              var s, b' := b.st[a.e], Act(b, a);
              var io := b.info[a.e].io && !s.inserted && !s.active && !s.later;
              if b.info[a.e].finalizing || (io && !a.ioOk) then b' == b
              else b'.st[a.e].inserted == (s.inserted || io) && OthersSame(b, b', a.e)
                   && (a.tv.Some? ==> b'.st[a.e].timeout && b'.st[a.e].deadline == Timeval(b.now + a.tv.value.usec, a.tv.value.queue))
                   && (a.tv == None ==> b'.st[a.e].timeout == s.timeout && b'.st[a.e].deadline == s.deadline)
  {
    hide Core, Wakes, Add, Del, ActivateEvent, ActivateEventLater, ScheduleDeferred, Cancel;
    if !a.LoopBreak? && !a.LoopExit? && !a.LoopContinue? && !a.SetClock? {
      HasIt(b, a.e);
    }
    match a {
      case AddEvent(e, tv, ioOk) => AddKeeps(b, e, tv, false, ioOk, running);
      case DelEvent(e) => DelKeeps(b, e, false, running);
      case ActivateNow(e, timedOut) => ActivateEventKeeps(b, e, timedOut, running);
      case ActivateInNextRound(e, timedOut) => ActivateEventLaterKeeps(b, e, timedOut, running);
      case Schedule(e) => ScheduleDeferredKeeps(b, e, running);
      case CancelCallback(e) => CancelKeeps(b, e, false, running);
      case _ =>
    }
  }

  lemma ScheduledTimes(b: Base, e: nat, running: set<nat>)
    requires Fine(b, running) && Has(b, e) && !IsTimer(b.timers, e)
    ensures var b' := ScheduleDeferred(b, e).1;
            |b'.st| == |b.st| && b'.st[e].deadline == b.st[e].deadline && b'.st[e].interval == b.st[e].interval
  {
    hide Fine, Activate, ActivateLater;
    if b.nDeferreds > MAX_DEFERREDS_QUEUED {
      ActivateLaterKeeps(b, e, running);
    } else {
      ActivateKeeps(b, e, running);
    }
  }

  // What the calls do to the lengths of the queues

  /** No queue has become longer. */
  ghost predicate Shrinks(b: Base, b': Base) {
    && |b'.queues| == |b.queues| && |b'.later| <= |b.later|
    && forall p :: 0 <= p < |b.queues| ==> |b'.queues[p]| <= |b.queues[p]|
  }

  lemma StepsShrink(b: Base, e: nat)
    requires Has(b, e)
    ensures Shrinks(b, RemoveInserted(b, e)) && Shrinks(b, InsertInserted(b, e))
    ensures Shrinks(b, RemoveActive(b, e)) && Shrinks(b, RemoveLater(b, e))
    ensures Shrinks(b, RemoveTimeout(b, e)) && Shrinks(b, InsertTimeout(b, e))
  {}

  lemma DelShrinks(b: Base, e: nat, evenIfFinalizing: bool)
    requires Has(b, e)
    ensures Shrinks(b, Del(b, e, evenIfFinalizing))
  {
    hide RemoveInserted, RemoveActive, RemoveLater, RemoveTimeout;
    StepsShrink(b, e);
    StepsShrink(OffTimers(b, e), e);
    StepsShrink(OffActive(OffTimers(b, e), e), e);
  }

  lemma SetTimerShrinks(b: Base, e: nat, tv: Timeval, absolute: bool)
    requires Has(b, e)
    ensures Shrinks(b, SetTimer(b, e, tv, absolute))
  {
    hide RemoveActive, RemoveTimeout, InsertTimeout;
    StepsShrink(b, e);
    StepsShrink(OffTimers(b, e), e);
    StepsShrink(Unset(b, e, Deadline(b, tv, absolute)), e);
  }

  lemma ShrinksOn(b: Base, b1: Base, b2: Base)
    ensures Shrinks(b, b1) && (Shrinks(b1, b2) || (b2.queues == b1.queues && b2.later == b1.later)) ==> Shrinks(b, b2)
    ensures Shrinks(b, b)
  {}

  lemma AddShrinks(b: Base, e: nat, tv: Option<Timeval>, absolute: bool, ioOk: bool)
    requires Has(b, e)
    ensures Shrinks(b, Add(b, e, tv, absolute, ioOk).1)
  {
    hide InsertInserted, SetTimer, Shrinks;
    StepsShrink(b, e);
    var io := b.info[e].io && !b.st[e].inserted && !b.st[e].active && !b.st[e].later;
    var b1 := if io then InsertInserted(b, e) else b;
    ShrinksOn(b, b, b1);
    if tv.Some? {
      var b2 := NewInterval(b1, e, tv.value, absolute);
      ShrinksOn(b1, b1, b2);
      SetTimerShrinks(b2, e, tv.value, absolute);
      var b3 := SetTimer(b2, e, tv.value, absolute);
      ShrinksOn(b, b1, b2);
      ShrinksOn(b, b2, b3);
      if tv.value.queue.Some? && Headed(b3, tv.value.queue.value, e) {
        var c := tv.value.queue.value;
        SetTimerShrinks(b3, b3.timers[c], Timeval(b3.st[b3.ctls[c][0]].deadline.usec, None), true);
        ShrinksOn(b, b3, ScheduleCommon(b3, c));
      }
    }
  }

  lemma CancelShrinks(b: Base, e: nat)
    requires Has(b, e)
    ensures Shrinks(b, Cancel(b, e, false))
  {
    hide RemoveActive, RemoveLater, Del;
    StepsShrink(b, e);
    DelShrinks(b, e, false);
  }

  lemma RearmShrinks(b: Base, e: nat, ioOk: bool)
    requires Has(b, e)
    ensures Shrinks(b, Rearm(b, e, ioOk))
  {
    hide Add;
    AddShrinks(b, e, Some(Timeval(NextRun(b.st[e], b.now), b.st[e].interval.queue)), true, ioOk);
  }

  // Priorities

  /** No callback of a smaller priority number is waiting. */
  ghost predicate NoneBefore(b: Base, p: int) {
    forall i :: 0 <= i < p && i < |b.queues| ==> b.queues[i] == []
  }

  /** Unless the dispatcher has been told to start over, nothing waits that goes before the queue it is running. */
  ghost predicate InOrder(b: Base) {
    b.continues || NoneBefore(b, b.running)
  }

  /** Activations go through ActivateEvent, and nobody asks the loop to start over. */
  predicate Orderly(a: Action) {
    !a.Schedule? && !a.LoopContinue?
  }

  lemma ActKeepsOrder(b: Base, a: Action)
    requires Core(b) && Allowed(b, a) && Orderly(a) && InOrder(b)
    ensures InOrder(Act(b, a))
  {
    hide Core, Add, Del, Cancel, Remove;
    if !a.LoopBreak? && !a.LoopExit? && !a.SetClock? {
      HasIt(b, a.e);
    }
    match a {
      case AddEvent(e, tv, ioOk) =>
        AddShrinks(b, e, tv, false, ioOk);
      case DelEvent(e) =>
        DelShrinks(b, e, false);
      case CancelCallback(e) =>
        CancelShrinks(b, e);
      case _ =>
    }
  }

  // The budget of deferred callbacks

  /** At most how many more callbacks a dispatch can start, as long as callbacks only schedule deferred ones. */
  function Budget(b: Base): int {
    Total(b.queues) + if b.nDeferreds <= MAX_DEFERREDS_QUEUED then |b.later| + MAX_DEFERREDS_QUEUED + 1 - b.nDeferreds else 0
  }

  lemma ScheduleKeepsBudget(b: Base, e: nat)
    requires Core(b) && e < |b.st|
    ensures Has(b, e) && Budget(ScheduleDeferred(b, e).1) <= Budget(b)
  {
    hide HeapOk, CommonOk, FlagsOk, CountsOk, StandInsOk;
    HasIt(b, e);
    var p := b.info[e].pri;
    TotalUpdate(b.queues, p, b.queues[p] + [e]);
    if b.st[e].later {
      RemoveMeaning(b.later, e);
    }
  }
}
