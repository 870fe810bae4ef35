/** The event base itself. */
module EventBaseModule {
  import opened Lists
  import opened Options
  import opened TimeHeapModule
  import opened EventQueues
  import opened EventOps
  import opened EventCalls
  import opened EventActions
  import opened EventTimers
  import opened EventDispatch
  import opened EventReplay
  import opened EventRounds
  import opened EventSetup

  /** EVLOOP_ONCE, EVLOOP_NONBLOCK and EVLOOP_NO_EXIT_ON_EMPTY. */
  datatype LoopFlags = LoopFlags(once: bool, nonblock: bool, noExitOnEmpty: bool)

  class EventBase {
    var info: seq<Info>
    var st: seq<State>
    var activequeues: seq<seq<nat>>
    var activeLaterQueue: seq<nat>
    var eventCount: int
    var eventCountActive: int
    const timeheap: TimeHeap
    // For each common timeout, the internal event that stands in for its queue, the queue, and the duration
    var timeoutEvents: seq<nat>
    var commonQueues: seq<seq<nat>>
    var durations: seq<Duration>
    var nDeferredsQueued: int
    var eventContinue: bool
    var eventBreak: bool
    // The loop has been asked to end; nothing else depends on it
    var eventGotterm: bool
    var eventRunningPriority: int
    var clock: int
    // How many callbacks, and for how long, the dispatcher runs from one queue, unless the queue is one of the first
    const maxDispatchCallbacks: int
    const maxDispatchTime: Option<nat>
    const limitCallbacksAfterPrio: int

    ghost function View(): Base
      reads this, timeheap
    {
      Base(info, st, activequeues, activeLaterQueue, eventCount, eventCountActive, timeheap.at, timeoutEvents, commonQueues,
           nDeferredsQueued, eventContinue, eventBreak, eventRunningPriority, clock)
    }

    ghost predicate Valid()
      reads this, timeheap
    {
      timeheap.Valid() && Core(View())
    }

    /** A base with the given number of priorities and limits. */
    constructor (npriorities: nat, maxCallbacks: int, maxTime: Option<nat>, limitAfterPrio: int)
      requires npriorities > 0
      ensures fresh(timeheap) && Valid() && Fine(View(), {}) && IntervalsOk(View())
      ensures |activequeues| == npriorities && st == [] && commonQueues == [] && durations == []
    {
      info, st, activequeues, activeLaterQueue := [], [], seq(npriorities, _ => []), [];
      eventCount, eventCountActive, timeoutEvents, commonQueues, durations := 0, 0, [], [], [];
      nDeferredsQueued, eventContinue, eventBreak, eventGotterm, eventRunningPriority, clock := 0, false, false, false, -1, 0;
      timeheap := new TimeHeap();
      maxDispatchCallbacks, maxDispatchTime, limitCallbacksAfterPrio := maxCallbacks, maxTime, limitAfterPrio;
      new;
      TotalNone(activequeues);
    }

    method QueueRemoveInserted(e: nat)
      requires timeheap.Valid() && Has(View(), e) && st[e].inserted
      modifies this`eventCount, this`st
      ensures timeheap.Valid() && View() == RemoveInserted(old(View()), e)
    {
      eventCount := eventCount - Unit(info[e]);
      st := st[e := st[e].(inserted := false)];
    }

    method QueueInsertInserted(e: nat)
      requires timeheap.Valid() && Has(View(), e) && !st[e].inserted
      modifies this`eventCount, this`st
      ensures timeheap.Valid() && View() == InsertInserted(old(View()), e)
    {
      eventCount := eventCount + Unit(info[e]);
      st := st[e := st[e].(inserted := true)];
    }

    method QueueRemoveActive(e: nat)
      requires timeheap.Valid() && Has(View(), e) && st[e].active
      modifies this`eventCount, this`eventCountActive, this`st, this`activequeues
      ensures timeheap.Valid() && View() == RemoveActive(old(View()), e)
    {
      eventCount := eventCount - Unit(info[e]);
      st := st[e := st[e].(active := false)];
      eventCountActive := eventCountActive - 1;
      var p := info[e].pri;
      activequeues := activequeues[p := Remove(activequeues[p], e)];
    }

    method QueueInsertActive(e: nat)
      requires timeheap.Valid() && Has(View(), e) && !st[e].active
      modifies this`eventCount, this`eventCountActive, this`st, this`activequeues
      ensures timeheap.Valid() && View() == InsertActive(old(View()), e)
    {
      eventCount := eventCount + Unit(info[e]);
      st := st[e := st[e].(active := true)];
      eventCountActive := eventCountActive + 1;
      var p := info[e].pri;
      activequeues := activequeues[p := activequeues[p] + [e]];
    }

    method QueueRemoveActiveLater(e: nat)
      requires timeheap.Valid() && Has(View(), e) && st[e].later
      modifies this`eventCount, this`eventCountActive, this`st, this`activeLaterQueue
      ensures timeheap.Valid() && View() == RemoveLater(old(View()), e)
    {
      eventCount := eventCount - Unit(info[e]);
      st := st[e := st[e].(later := false)];
      eventCountActive := eventCountActive - 1;
      activeLaterQueue := Remove(activeLaterQueue, e);
    }

    method QueueInsertActiveLater(e: nat)
      requires timeheap.Valid() && Has(View(), e) && !st[e].later && !st[e].active
      modifies this`eventCount, this`eventCountActive, this`st, this`activeLaterQueue
      ensures timeheap.Valid() && View() == InsertLater(old(View()), e)
    {
      eventCount := eventCount + Unit(info[e]);
      st := st[e := st[e].(later := true)];
      eventCountActive := eventCountActive + 1;
      activeLaterQueue := activeLaterQueue + [e];
    }

    method QueueRemoveTimeout(e: nat)
      requires timeheap.Valid() && Has(View(), e) && st[e].timeout && Tagged(View(), st[e].deadline)
      modifies this`eventCount, this`st, this`commonQueues, timeheap
      ensures timeheap.Valid() && View() == RemoveTimeout(old(View()), e)
    {
      eventCount := eventCount - Unit(info[e]);
      st := st[e := st[e].(timeout := false)];
      match st[e].deadline.queue {
        case Some(c) =>
          commonQueues := commonQueues[c := Remove(commonQueues[c], e)];
        case None =>
          var _ := timeheap.Erase(e);
      }
    }

    method QueueInsertTimeout(e: nat)
      requires timeheap.Valid() && Has(View(), e) && !st[e].timeout && Tagged(View(), st[e].deadline)
      requires forall c :: st[e].deadline.queue == Some(c) ==> Known(commonQueues[c], |st|)
      requires e !in timeheap.at
      modifies this`eventCount, this`st, this`commonQueues, timeheap
      ensures timeheap.Valid() && View() == InsertTimeout(old(View()), e)
    {
      eventCount := eventCount + Unit(info[e]);
      st := st[e := st[e].(timeout := true)];
      match st[e].deadline.queue {
        case Some(c) =>
          InsertCommonInOrder(c, e, old(st));
        case None =>
          var _ := timeheap.Push(e, st[e].deadline.usec, true);
      }
    }

    /** Searches from the end of the queue for the right place. */
    method InsertCommonInOrder(c: nat, e: nat, ghost st0: seq<State>)
      requires c < |commonQueues| && Known(commonQueues[c], |st|) && e < |st|
      requires |st0| == |st| && forall x :: 0 <= x < |st| ==> st0[x].deadline == st[x].deadline
      modifies this`commonQueues
      ensures commonQueues == old(commonQueues)[c := InsertInOrder(st0, old(commonQueues)[c], e, st[e].deadline.usec)]
    {
      var q := commonQueues[c];
      var k := |q|;
      assert q[..k] == q;
      while k > 0 && st[q[k - 1]].deadline.usec > st[e].deadline.usec
        invariant k <= |q| && Slot(st0, q, st[e].deadline.usec) == Slot(st0, q[..k], st[e].deadline.usec)
      {
        assert q[..k][..k - 1] == q[..k - 1];
        k := k - 1;
      }
      commonQueues := commonQueues[c := q[..k] + [e] + q[k..]];
    }

    /** The invariant, but for the stand-ins whose callbacks are running. */
    ghost predicate Sound(running: set<nat>)
      reads this, timeheap
    {
      timeheap.Valid() && Fine(View(), running) && IntervalsOk(View())
    }

    lemma TimeoutIsTagged(e: nat)
      requires Core(View()) && e < |st| && st[e].timeout
      ensures Tagged(View(), st[e].deadline)
    {
      hide FlagsOk, ActiveOk, LaterOk, CountsOk, HeapOk, StandInsOk;
    }

    /** Deletes an event. */
    method EventDel(e: nat, evenIfFinalizing: bool, ghost running: set<nat>)
      requires Sound(running) && e < |st| && (IsTimer(timeoutEvents, e) ==> e in running)
      modifies this`eventCount, this`eventCountActive, this`st, this`activequeues, this`activeLaterQueue, this`commonQueues, timeheap
      ensures Sound(running) && View() == Del(old(View()), e, evenIfFinalizing)
      ensures st == if info[e].finalizing && !evenIfFinalizing then old(st)
                    else old(st)[e := old(st)[e].(inserted := false, timeout := false, active := false, later := false)]
    {
      hide Core, Wakes, IntervalsOk, TimeHeap.Valid, Del;
      HasIt(View(), e);
      DelKeeps(View(), e, evenIfFinalizing, running);
      IntervalsSame(View(), Del(View(), e, evenIfFinalizing));
      TakeOff(e, evenIfFinalizing);
    }

    method TakeOff(e: nat, evenIfFinalizing: bool)
      requires timeheap.Valid() && Core(View()) && Has(View(), e)
      modifies this`eventCount, this`eventCountActive, this`st, this`activequeues, this`activeLaterQueue, this`commonQueues, timeheap
      ensures timeheap.Valid() && View() == Del(old(View()), e, evenIfFinalizing)
    {
      hide Core, OffTimers, OffActive, OffBackend, TimeHeap.Valid;
      if info[e].finalizing && !evenIfFinalizing {
        return;
      }
      FlagsOf(View(), e);
      if st[e].timeout {
        TimeoutIsTagged(e);
      }
      TakeOffTimers(e);
      TakeOffActive(e);
      TakeOffBackend(e);
    }

    method TakeOffTimers(e: nat)
      requires timeheap.Valid() && Has(View(), e) && (st[e].timeout ==> Tagged(View(), st[e].deadline)) && FlagOk(info[e], st[e])
      modifies this`eventCount, this`st, this`commonQueues, timeheap
      ensures timeheap.Valid() && View() == OffTimers(old(View()), e) && FlagOk(info[e], st[e])
    {
      hide RemoveTimeout, TimeHeap.Valid;
      StepShapes(View(), e);
      if st[e].timeout {
        QueueRemoveTimeout(e);
      }
    }

    method TakeOffActive(e: nat)
      requires timeheap.Valid() && Has(View(), e) && FlagOk(info[e], st[e])
      modifies this`eventCount, this`eventCountActive, this`st, this`activequeues, this`activeLaterQueue
      ensures timeheap.Valid() && View() == OffActive(old(View()), e) && FlagOk(info[e], st[e])
    {
      hide RemoveActive, RemoveLater, TimeHeap.Valid;
      StepShapes(View(), e);
      if st[e].active {
        QueueRemoveActive(e);
      } else if st[e].later {
        QueueRemoveActiveLater(e);
      }
    }

    method TakeOffBackend(e: nat)
      requires timeheap.Valid() && Has(View(), e)
      modifies this`eventCount, this`st
      ensures timeheap.Valid() && View() == OffBackend(old(View()), e)
    {
      hide RemoveInserted, TimeHeap.Valid;
      if st[e].inserted {
        QueueRemoveInserted(e);
      }
    }

    lemma FlagsOf(b: Base, e: nat)
      requires Core(b) && e < |b.st|
      ensures FlagOk(b.info[e], b.st[e])
    {
      hide ActiveOk, LaterOk, CountsOk, HeapOk, CommonOk, StandInsOk;
    }

    /** Gets an event ready for a new deadline: off its old tier, and not active because of the old deadline. */
    method UnsetTimer(e: nat, deadline: Timeval)
      requires timeheap.Valid() && Has(View(), e) && (st[e].timeout ==> Tagged(View(), st[e].deadline)) && FlagOk(info[e], st[e])
      modifies this`eventCount, this`eventCountActive, this`st, this`activequeues, this`commonQueues, timeheap
      ensures timeheap.Valid() && View() == Unset(old(View()), e, deadline)
    {
      hide OffTimers, RemoveActive, TimeHeap.Valid;
      TakeOffTimers(e);
      // it is not to be run for a deadline that no longer stands
      if st[e].active && st[e].timedOut {
        QueueRemoveActive(e);
      }
      st := st[e := st[e].(deadline := deadline)];
    }

    lemma ReadyToInsert(b: Base, e: nat, d: Timeval)
      requires Core(b) && Has(b, e) && Tagged(b, d) && (IsTimer(b.timers, e) ==> d.queue == None)
      ensures var b' := Unset(b, e, d);
              && b'.st[e].deadline == d && !b'.st[e].timeout && e !in b'.at
              && forall c :: d.queue == Some(c) ==> c < |b'.ctls| && Known(b'.ctls[c], |b'.st|)
    {
      hide Unset, FlagsOk, ActiveOk, LaterOk, CountsOk, CommonOk, StandInsOk, Wakes;
      AllRunning(b);
      UnsetKeeps(b, e, d, set t | t in b.timers);
      if d.queue.Some? {
        QueueFacts(Unset(b, e, d), d.queue.value);
      }
    }

    method SetTimeout(e: nat, tv: Timeval, absolute: bool)
      requires timeheap.Valid() && Core(View()) && e < |st| && Tagged(View(), tv) && (IsTimer(timeoutEvents, e) ==> tv.queue == None)
      modifies this`eventCount, this`eventCountActive, this`st, this`activequeues, this`commonQueues, timeheap
      ensures Has(old(View()), e) && timeheap.Valid() && View() == SetTimer(old(View()), e, tv, absolute)
    {
      hide Core, Unset, InsertTimeout, TimeHeap.Valid;
      HasIt(View(), e);
      FlagsOf(View(), e);
      if st[e].timeout {
        TimeoutIsTagged(e);
      }
      var deadline := if absolute then tv else Timeval(clock + tv.usec, tv.queue);
      ReadyToInsert(View(), e, deadline);
      UnsetTimer(e, deadline);
      QueueInsertTimeout(e);
    }

    /** Lets the stand-in of queue `c` time out when the queue's head does. */
    method CommonTimeoutSchedule(c: nat)
      requires timeheap.Valid() && Core(View()) && c < |commonQueues| && commonQueues[c] != []
      modifies this`eventCount, this`eventCountActive, this`st, this`activequeues, this`commonQueues, timeheap
      ensures old(|timeoutEvents| == |commonQueues| && Has(View(), timeoutEvents[c]) && commonQueues[c][0] < |st|)
      ensures timeheap.Valid() && View() == ScheduleCommon(old(View()), c)
      decreases 1
    {
      hide Core, SetTimer, TimeHeap.Valid;
      QueueFacts(View(), c);
      TimerCount(View());
      TimerFacts(View(), timeoutEvents[c]);
      var _ := EventAdd(timeoutEvents[c], Some(Timeval(st[commonQueues[c][0]].deadline.usec, None)), true, true);
    }

    /** Adds an event.  `ioOk` tells whether the backend can register it. */
    method EventAdd(e: nat, tv: Option<Timeval>, absolute: bool, ioOk: bool) returns (res: int)
      requires timeheap.Valid() && Core(View()) && e < |st| && info[e].isEvent
      requires tv.Some? ==> Tagged(View(), tv.value)
      requires IsTimer(timeoutEvents, e) ==> tv.Some? && tv.value.queue == None && absolute
      modifies this`eventCount, this`eventCountActive, this`st, this`activequeues, this`commonQueues, timeheap
      ensures Has(old(View()), e) && timeheap.Valid() && (res, View()) == Add(old(View()), e, tv, absolute, ioOk)
      ensures !IsTimer(timeoutEvents, e) ==>
                res == if info[e].finalizing || (info[e].io && !old(st)[e].inserted && !old(st)[e].active && !old(st)[e].later && !ioOk)
                       then -1 else 0
      // a timeout that is not absolute counts from now
      ensures !IsTimer(timeoutEvents, e) && res == 0 && tv.Some? ==>
                |st| == |old(st)| && st[e].timeout
                && st[e].deadline == if absolute then tv.value else Timeval(clock + tv.value.usec, tv.value.queue)
      decreases if tv.Some? && tv.value.queue.Some? then 2 else 0
    {
      hide Core, SetTimer, InsertInserted, ScheduleCommon, TimeHeap.Valid;
      HasIt(View(), e);
      if !IsTimer(timeoutEvents, e) {
        Added(View(), e, tv, absolute, ioOk);
      }
      FlagsOf(View(), e);
      if info[e].finalizing {
        return -1;
      }
      res := 0;
      if info[e].io && !st[e].inserted && !st[e].active && !st[e].later {
        if !ioOk {
          return -1;
        }
        InsertInsertedKeeps(View(), e);
        QueueInsertInserted(e);
      }
      if tv.Some? {
        AddTime(e, tv.value, absolute);
      }
    }

    lemma Added(b: Base, e: nat, tv: Option<Timeval>, absolute: bool, ioOk: bool)
      requires Core(b) && Has(b, e) && b.info[e].isEvent && !IsTimer(b.timers, e) && (tv.Some? ==> Tagged(b, tv.value))
      ensures var (r, b') := Add(b, e, tv, absolute, ioOk);
              && r == (if b.info[e].finalizing || (b.info[e].io && !b.st[e].inserted && !b.st[e].active && !b.st[e].later && !ioOk) then -1 else 0)
              && (r == 0 && tv.Some? ==>
                    && b'.st[e].timeout
                    && b'.st[e].deadline == if absolute then tv.value else Timeval(b.now + tv.value.usec, tv.value.queue))
    {
      hide Core, Wakes, Add;
      AllRunning(b);
      AddKeeps(b, e, tv, absolute, ioOk, set t | t in b.timers);
    }

    /** The part of adding an event that sets its timeout. */
    method AddTime(e: nat, tv: Timeval, absolute: bool)
      requires timeheap.Valid() && Core(View()) && e < |st| && info[e].isEvent && !info[e].finalizing && Tagged(View(), tv)
      requires IsTimer(timeoutEvents, e) ==> tv.queue == None && absolute
      modifies this`eventCount, this`eventCountActive, this`st, this`activequeues, this`commonQueues, timeheap
      ensures Has(old(View()), e) && timeheap.Valid() && View() == AddTimeout(old(View()), e, tv, absolute)
      decreases if tv.queue.Some? then 2 else 0, 0
    {
      hide Core, SetTimer, ScheduleCommon, TimeHeap.Valid;
      HasIt(View(), e);
      ghost var b := View();
      NewIntervalCore(b, e, tv, absolute);
      if info[e].persist && !absolute {
        st := st[e := st[e].(interval := tv)];
      }
      TimerSet(View(), e, tv, absolute);
      SetTimeout(e, tv, absolute);
      if tv.queue.Some? && commonQueues[tv.queue.value] != [] && e == commonQueues[tv.queue.value][0] {
        CommonTimeoutSchedule(tv.queue.value);
      }
    }

    lemma NewIntervalCore(b: Base, e: nat, tv: Timeval, absolute: bool)
      requires Core(b) && Has(b, e)
      ensures Core(NewInterval(b, e, tv, absolute))
    {
      hide Core, Wakes;
      AllRunning(b);
      FineInterval(b, e, tv, absolute, set t | t in b.timers);
    }

    lemma TimerSet(b: Base, e: nat, tv: Timeval, absolute: bool)
      requires Core(b) && Has(b, e) && b.info[e].isEvent && !b.info[e].finalizing && Tagged(b, tv) && (IsTimer(b.timers, e) ==> tv.queue == None)
      ensures var b' := SetTimer(b, e, tv, absolute);
              && Core(b') && |b'.timers| == |b'.ctls|
              && forall c :: 0 <= c < |b'.ctls| ==> Has(b', b'.timers[c]) && IsTimer(b'.timers, b'.timers[c])
    {
      hide Core, Wakes, SetTimer;
      AllRunning(b);
      var all := set t | t in b.timers;
      match tv.queue {
        case None => SetPlainKeeps(b, e, tv, absolute, all);
        case Some(c) => SetCommonKeeps(b, e, tv, absolute, all, c);
      }
      TimerCount(SetTimer(b, e, tv, absolute));
    }

    /** Makes a callback active. */
    method CallbackActivate(e: nat) returns (r: int)
      requires timeheap.Valid() && Core(View()) && e < |st|
      modifies this`eventCount, this`eventCountActive, this`st, this`activequeues, this`activeLaterQueue
      ensures Has(old(View()), e) && timeheap.Valid() && (r, View()) == Activate(old(View()), e)
    {
      hide Core, InsertActive, RemoveLater, TimeHeap.Valid;
      HasIt(View(), e);
      FlagsOf(View(), e);
      StepShapes(View(), e);
      r := 1;
      if info[e].finalizing {
        return 0;
      }
      if st[e].active {
        return 0;
      }
      if st[e].later {
        QueueRemoveActiveLater(e);
        r := 0;
      }
      QueueInsertActive(e);
    }

    method CallbackActivateLater(e: nat) returns (r: int)
      requires timeheap.Valid() && Core(View()) && e < |st|
      modifies this`eventCount, this`eventCountActive, this`st, this`activeLaterQueue
      ensures Has(old(View()), e) && timeheap.Valid() && (r, View()) == ActivateLater(old(View()), e)
    {
      hide Core, InsertLater, TimeHeap.Valid;
      HasIt(View(), e);
      if st[e].active || st[e].later {
        return 0;
      }
      QueueInsertActiveLater(e);
      r := 1;
    }

    /** Makes an event active, for one more reason; the dispatcher starts over if the event goes before what is running. */
    method EventActive(e: nat, timedOut: bool)
      requires timeheap.Valid() && Core(View()) && e < |st|
      modifies this`eventCount, this`eventCountActive, this`st, this`activequeues, this`activeLaterQueue, this`eventContinue
      ensures Has(old(View()), e) && timeheap.Valid() && View() == ActivateEvent(old(View()), e, timedOut)
    {
      hide Core, Activate, TimeHeap.Valid;
      HasIt(View(), e);
      if info[e].finalizing {
        return;
      }
      FlagsOf(View(), e);
      if st[e].active {
        // the reasons add up
        st := st[e := st[e].(timedOut := st[e].timedOut || timedOut)];
        return;
      }
      ResultCore(View(), e, (st[e].later && st[e].timedOut) || timedOut, eventContinue || info[e].pri < eventRunningPriority);
      if st[e].later {
        st := st[e := st[e].(timedOut := st[e].timedOut || timedOut)];
      } else {
        st := st[e := st[e].(timedOut := timedOut)];
      }
      if info[e].pri < eventRunningPriority {
        eventContinue := true;
      }
      var _ := CallbackActivate(e);
    }

    lemma ResultCore(b: Base, e: nat, timedOut: bool, continues: bool)
      requires Core(b) && Has(b, e)
      ensures Core(With(b, e, b.st[e].(timedOut := timedOut)))
      ensures Core(With(b, e, b.st[e].(timedOut := timedOut)).(continues := continues))
    {
      hide Core, Wakes;
      AllRunning(b);
      var all := set t | t in b.timers;
      var b' := With(b, e, b.st[e].(timedOut := timedOut));
      FineResult(b, e, timedOut, all);
      FineControl(b', b'.(continues := continues), all);
    }

    method EventActiveLater(e: nat, timedOut: bool)
      requires timeheap.Valid() && Core(View()) && e < |st|
      modifies this`eventCount, this`eventCountActive, this`st, this`activeLaterQueue
      ensures Has(old(View()), e) && timeheap.Valid() && View() == ActivateEventLater(old(View()), e, timedOut)
    {
      hide Core, ActivateLater, TimeHeap.Valid;
      HasIt(View(), e);
      if st[e].active || st[e].later {
        st := st[e := st[e].(timedOut := st[e].timedOut || timedOut)];
        return;
      }
      ResultCore(View(), e, timedOut, eventContinue);
      st := st[e := st[e].(timedOut := timedOut)];
      var _ := CallbackActivateLater(e);
    }

    method CallbackCancel(e: nat, evenIfFinalizing: bool)
      requires timeheap.Valid() && Core(View()) && e < |st|
      modifies this`eventCount, this`eventCountActive, this`st, this`activequeues, this`activeLaterQueue, this`commonQueues, timeheap
      ensures Has(old(View()), e) && timeheap.Valid() && View() == Cancel(old(View()), e, evenIfFinalizing)
    {
      hide Core, Del, RemoveActive, RemoveLater, TimeHeap.Valid;
      HasIt(View(), e);
      FlagsOf(View(), e);
      if info[e].finalizing && !evenIfFinalizing {
        return;
      }
      if info[e].isEvent {
        TakeOff(e, evenIfFinalizing);
        return;
      }
      if st[e].active {
        QueueRemoveActive(e);
      } else if st[e].later {
        QueueRemoveActiveLater(e);
      }
    }

    /** Queues a deferred callback. */
    method DeferredSchedule(e: nat) returns (r: int)
      requires timeheap.Valid() && Core(View()) && e < |st|
      modifies this`eventCount, this`eventCountActive, this`st, this`activequeues, this`activeLaterQueue, this`nDeferredsQueued
      ensures Has(old(View()), e) && timeheap.Valid() && (r, View()) == ScheduleDeferred(old(View()), e)
    {
      hide Core, Activate, ActivateLater, TimeHeap.Valid;
      r := 1;
      if nDeferredsQueued > MAX_DEFERREDS_QUEUED {
        r := CallbackActivateLater(e);
      } else {
        r := CallbackActivate(e);
        if r != 0 {
          nDeferredsQueued := nDeferredsQueued + 1;
        }
      }
    }

    /** Adds a persistent event again, just before its callback is run. */
    method PersistClosure(e: nat, ioOk: bool, ghost running: set<nat>)
      requires Sound(running) && e < |st| && info[e].isEvent && info[e].persist && !IsTimer(timeoutEvents, e)
      modifies this`eventCount, this`eventCountActive, this`st, this`activequeues, this`commonQueues, timeheap
      ensures Has(old(View()), e) && Sound(running) && View() == Rearm(old(View()), e, ioOk)
    {
      hide Core, Wakes, Add, TimeHeap.Valid;
      HasIt(View(), e);
      RearmKeeps(View(), e, ioOk, running);
      if st[e].interval.usec != 0 || st[e].interval.queue.Some? {
        assert st[e].deadline.queue == st[e].interval.queue;
        var delay, now := st[e].interval.usec, clock;
        var relativeTo := if st[e].timedOut then st[e].deadline.usec else now;
        var runAt := relativeTo + delay;
        if runAt < now {
          // that time is over already
          runAt := now + delay;
        }
        var _ := EventAdd(e, Some(Timeval(runAt, st[e].interval.queue)), true, ioOk);
      }
    }

    /** Carries out an action of a callback. */
    method Do(a: Action, ghost running: set<nat>)
      requires Sound(running) && Allowed(View(), a)
      modifies this, timeheap
      ensures Core(old(View())) && Sound(running) && View() == Act(old(View()), a)
      ensures eventGotterm == (old(eventGotterm) || a.LoopExit?)
    {
      hide Core, Wakes, IntervalsOk, Add, Del, ActivateEvent, ActivateEventLater, ScheduleDeferred, Cancel, TimeHeap.Valid;
      ActKeeps(View(), a, running);
      match a {
        case AddEvent(e, tv, ioOk) =>
          var _ := EventAdd(e, tv, false, ioOk);
        case DelEvent(e) =>
          HasIt(View(), e);
          TakeOff(e, false);
        case ActivateNow(e, timedOut) =>
          EventActive(e, timedOut);
        case ActivateInNextRound(e, timedOut) =>
          EventActiveLater(e, timedOut);
        case Schedule(e) =>
          var _ := DeferredSchedule(e);
        case CancelCallback(e) =>
          CallbackCancel(e, false);
        case LoopBreak =>
          eventBreak := true;
        case LoopExit =>
          eventGotterm := true;
        case LoopContinue =>
          eventContinue := true;
        case SetClock(time) =>
          clock := time;
      }
    }

    /** How long the loop may sleep: not at all, for some time, or (with no timer set) until something happens. */
    method TimeoutNext() returns (wait: Option<nat>)
      requires Sound({})
      ensures SleepsUntilFirst(timeheap.at, clock, wait)
      // it never sleeps past a deadline
      ensures !StandInActive(View()) ==> forall e :: 0 <= e < |st| && st[e].timeout ==>
                wait.Some? && (wait.value == 0 || clock + wait.value <= st[e].deadline.usec)
    {
      hide Fine, IntervalsOk, TimeHeap.Valid, SleepsUntilFirst, StandInActive;
      timeheap.TopIsLeast();
      if !StandInActive(View()) {
        forall e | 0 <= e < |st| && st[e].timeout
          ensures timeheap.n > 0 && timeheap.at[timeheap.Top()] <= st[e].deadline.usec
        {
          HeapIsEarliest(View(), e);
        }
      }
      if timeheap.n == 0 {
        NoneToSleepFor(clock);
        return None;
      }
      SleepsUntil(timeheap.at, clock, timeheap.Top());
      var time := timeheap.at[timeheap.Top()];
      if time <= clock {
        return Some(0);
      }
      wait := Some(time - clock);
    }

    lemma NoneToSleepFor(now: int)
      ensures SleepsUntilFirst(map[], now, None)
    {}

    /** Lets one event time out. */
    method TimeOut(e: nat, ghost running: set<nat>)
      requires Sound(running) && e < |st| && st[e].timeout
      modifies this`eventCount, this`eventCountActive, this`st, this`activequeues, this`activeLaterQueue,
               this`commonQueues, this`eventContinue, timeheap
      ensures Has(old(View()), e) && Sound(running) && View() == Fire(old(View()), e)
      ensures st == old(st)[e := Fired(old(st)[e])] && SameBase(old(View()), View()) && nDeferredsQueued == old(nDeferredsQueued)
      ensures eventContinue == (old(eventContinue) || info[e].pri < eventRunningPriority)
    {
      hide Core, Wakes, IntervalsOk, Del, ActivateEvent, TimeHeap.Valid;
      HasIt(View(), e);
      FireKeeps(View(), e, running);
      FireShape(View(), e);
      FireTimes(View(), e);
      AllRunning(View());
      DelKeeps(View(), e, false, set t | t in timeoutEvents);
      TakeOff(e, false);
      EventActive(e, true);
    }

    /** Lets every event in the heap whose time has come time out, and no other, in the order of their deadlines. */
    method TimeoutProcess() returns (ghost fired: seq<nat>)
      requires Sound({})
      modifies this`eventCount, this`eventCountActive, this`st, this`activequeues, this`activeLaterQueue,
               this`commonQueues, this`eventContinue, timeheap
      ensures Sound({}) && |st| == |old(st)|
      ensures forall e :: 0 <= e < |st| ==>
                st[e] == if e in old(timeheap.at) && old(timeheap.at)[e] <= clock then Fired(old(st)[e]) else old(st)[e]
      ensures forall e :: e in timeheap.at ==> timeheap.at[e] > clock
      ensures View() == Fires(old(View()), fired) && InOrderOfTime(old(timeheap.at), fired)
      ensures SameBase(old(View()), View()) && clock == old(clock)
      ensures eventRunningPriority <= 0 ==> eventContinue == old(eventContinue)
    {
      hide Core, Wakes, IntervalsOk, TimeHeap.Valid, Fire, TimedOut, Fires, InOrderOfTime, NoneEarlier;
      ghost var at0, st0, b0 := timeheap.at, st, View();
      fired := [];
      NoneTimedOut(View());
      timeheap.TopIsLeast();
      while timeheap.n > 0
        invariant Sound({}) && TimedOut(st0, at0, st, timeheap.at, clock)
        invariant timeheap.n == 0 <==> timeheap.at == map[]
        invariant View() == Fires(b0, fired) && InOrderOfTime(at0, fired) && NoneEarlier(at0, fired, timeheap.at)
        invariant SameBase(b0, View()) && (eventRunningPriority <= 0 ==> eventContinue == b0.continues)
        modifies this`eventCount, this`eventCountActive, this`st, this`activequeues, this`activeLaterQueue,
                 this`commonQueues, this`eventContinue, timeheap
        decreases |timeheap.at|
      {
        timeheap.TopIsLeast();
        var e := timeheap.Top();
        if timeheap.at[e] > clock {
          break;
        }
        FiredHeap(View(), e);
        FiresOneMore(b0, fired, e, View());
        StillInHeap(b0, st, timeheap.at, e);
        InOrderMore(at0, fired, timeheap.at, e);
        fired := fired + [e];
        TimedOutMore(st0, at0, st, timeheap.at, clock, e);
        TimeOut(e, {});
        timeheap.TopIsLeast();
      }
      TimedOutAll(st0, at0, st, timeheap.at, clock);
    }

    lemma NoneTimedOut(b: Base)
      ensures TimedOut(b.st, b.at, b.st, b.at, b.now)
      ensures Fires(b, []) == b && InOrderOfTime(b.at, []) && NoneEarlier(b.at, [], b.at)
    {}

    /** The earliest event of the heap is as it was. */
    lemma StillInHeap(b: Base, st: seq<State>, at: map<nat, int>, e: nat)
      requires TimedOut(b.st, b.at, st, at, b.now) && e in at
      ensures e in b.at && b.at[e] == at[e]
    {}

    /** The callback of a stand-in: lets every event of its queue whose time has come time out, and no other, and
        sets the stand-in again if there are more. */
    method CommonTimeoutCallback(c: nat) returns (ghost k: nat)
      requires c < |timeoutEvents| == |commonQueues| && Sound({timeoutEvents[c]})
      modifies this`eventCount, this`eventCountActive, this`st, this`activequeues, this`activeLaterQueue,
               this`commonQueues, this`eventContinue, timeheap
      ensures Sound({}) && |st| == |old(st)|
      ensures forall e :: 0 <= e < |st| && e != timeoutEvents[c] ==>
                st[e] == if e in old(commonQueues)[c] && old(st)[e].deadline.usec <= clock then Fired(old(st)[e]) else old(st)[e]
      ensures timeoutEvents[c] < |st| && st[timeoutEvents[c]].active ==> old(st)[timeoutEvents[c]].active
      // what is left of the queue is not due, and the stand-in is set to its head
      ensures commonQueues == old(commonQueues)[c := commonQueues[c]]
      ensures commonQueues[c] != [] ==> commonQueues[c][0] < |st| && st[commonQueues[c][0]].deadline.usec > clock
      ensures timeheap.at == if commonQueues[c] == [] then old(timeheap.at)
                             else old(timeheap.at)[timeoutEvents[c] := st[commonQueues[c][0]].deadline.usec]
      ensures SameBase(old(View()), View()) && nDeferredsQueued == old(nDeferredsQueued)
      ensures eventRunningPriority <= 0 ==> eventContinue == old(eventContinue)
      ensures Budget(View()) <= old(Budget(View())) + |old(commonQueues)[c]|
      ensures Expires(old(View()), c, k, View())
    {
      hide Core, Wakes, IntervalsOk, TimeHeap.Valid, Budget, Fires;
      k := ExpireQueue(c);
      HeadOfRest(old(View()), c, k, View());
      if commonQueues[c] != [] {
        ResetStandIn(View(), c);
        ScheduledHeap(View(), c);
        ScheduledBudget(View(), c);
        CommonTimeoutSchedule(c);
      } else {
        WakesEmpty(View(), c);
      }
    }

    /** Lets the events at the head of a queue time out, as long as they are due. */
    method ExpireQueue(c: nat) returns (ghost k: nat)
      requires c < |timeoutEvents| == |commonQueues| && Sound({timeoutEvents[c]})
      modifies this`eventCount, this`eventCountActive, this`st, this`activequeues, this`activeLaterQueue,
               this`commonQueues, this`eventContinue, timeheap
      ensures Sound({timeoutEvents[c]}) && |st| == |old(st)| && timeoutEvents[c] < |st|
      ensures forall e :: 0 <= e < |st| ==>
                st[e] == if e in old(commonQueues)[c] && old(st)[e].deadline.usec <= clock then Fired(old(st)[e]) else old(st)[e]
      ensures timeoutEvents[c] !in old(commonQueues)[c]
      ensures commonQueues == old(commonQueues)[c := commonQueues[c]] && timeheap.at == old(timeheap.at)
      ensures commonQueues[c] != [] ==> commonQueues[c][0] < |st| && st[commonQueues[c][0]].deadline.usec > clock
                                        && commonQueues[c][0] != timeoutEvents[c]
      ensures SameBase(old(View()), View()) && nDeferredsQueued == old(nDeferredsQueued)
      ensures eventRunningPriority <= 0 ==> eventContinue == old(eventContinue)
      ensures Budget(View()) <= old(Budget(View())) + |old(commonQueues)[c]|
      ensures HeadsFired(old(View()), c, k, View()) && commonQueues[c] == old(commonQueues)[c][k..]
    {
      hide Core, Wakes, IntervalsOk, TimeHeap.Valid, Fire, Firing, Budget, HeadsFired;
      ghost var b0 := View();
      k := 0;
      QueueFacts(b0, c);
      NotInQueue(b0, c);
      FiringNone(b0, c);
      while commonQueues[c] != []
        invariant c < |timeoutEvents| == |commonQueues| && Sound({timeoutEvents[c]}) && Firing(b0, c, k, View())
        invariant SameBase(b0, View()) && (eventRunningPriority <= 0 ==> eventContinue == b0.continues) && k <= |b0.ctls[c]|
        modifies this`eventCount, this`eventCountActive, this`st, this`activequeues, this`activeLaterQueue,
                 this`commonQueues, this`eventContinue, timeheap
        decreases |b0.ctls[c]| - k
      {
        var ev := commonQueues[c][0];
        QueueFacts(View(), c);
        if st[ev].deadline.usec > clock {
          break;
        }
        FiringNext(b0, c, k, View());
        TimeOut(ev, {timeoutEvents[c]});
        k := k + 1;
      }
      QueueFacts(View(), c);
      NotInQueue(View(), c);
      FiringMeans(b0, c, k, View());
      FiringDone(b0, c, k, View());
    }

    lemma FiringMeans(b0: Base, c: nat, k: nat, b: Base)
      requires Firing(b0, c, k, b)
      ensures b.at == b0.at && b.ctls == b0.ctls[c := b.ctls[c]] && b.nDeferreds == b0.nDeferreds
      ensures Budget(b) <= Budget(b0) + |b0.ctls[c]|
    {
      hide Budget, Fires;
    }

    /** The head of what is left of the queue is the first event that is not due. */
    lemma HeadOfRest(b: Base, c: nat, k: nat, b': Base)
      requires HeadsFired(b, c, k, b') && c < |b'.ctls| && b'.ctls[c] == b.ctls[c][k..]
      ensures b' == Fires(b, b.ctls[c][..k]) && (b'.ctls[c] == [] <==> k == |b.ctls[c]|)
      ensures k < |b.ctls[c]| ==> b'.ctls[c][0] == b.ctls[c][k]
    {}

    /** Setting the stand-in again keeps the invariant. */
    lemma ResetStandIn(b: Base, c: nat)
      requires c < |b.timers| == |b.ctls| && Fine(b, {b.timers[c]}) && IntervalsOk(b) && b.ctls[c] != [] && b.ctls[c][0] < |b.st|
      ensures Has(b, b.timers[c])
      ensures var b', t := ScheduleCommon(b, c), b.timers[c];
              && Fine(b', {}) && IntervalsOk(b') && SameBase(b, b')
              && (forall e :: 0 <= e < |b.st| && e != t ==> b'.st[e] == b.st[e])
              && (b'.st[t].active ==> b.st[t].active)
    {
      hide Core, Wakes, IntervalsOk, ScheduleCommon;
      assert {} + {b.timers[c]} == {b.timers[c]};
      ScheduleKeeps(b, c, {});
      TimersArePlain(b);
      IntervalsSame(b, ScheduleCommon(b, c));
    }

    /** Lets time out whatever is due: first the events in the heap, then, by the callbacks of the stand-ins that have become
        active, in any order, those in the common-timeout queues. */
    method ExpireAll()
      requires Sound({})
      modifies this`eventCount, this`eventCountActive, this`st, this`activequeues, this`activeLaterQueue,
               this`commonQueues, this`eventContinue, timeheap
      ensures Sound({}) && SameBase(old(View()), View()) && !StandInActive(View())
      // as if there were one set of timers: exactly the events that were due have timed out
      ensures forall e: nat :: e < |st| && !IsTimer(timeoutEvents, e) ==>
                st[e] == if Due(old(View()), e) then Fired(old(st)[e]) else old(st)[e]
      // and nothing is overdue
      ensures forall e: nat :: e < |st| && st[e].timeout ==> st[e].deadline.usec > clock
    {
      hide Fine, IntervalsOk, TimeHeap.Valid, Expiring, Begun, Due;
      ghost var b0 := View();
      FineIsCore(b0, {});
      ghost var _ := TimeoutProcess();
      HeapExpires(b0, View());
      while exists c :: 0 <= c < |timeoutEvents| && timeoutEvents[c] < |st| && st[timeoutEvents[c]].active
        invariant Sound({}) && SameBase(b0, View()) && Expiring(b0, View())
        invariant forall x :: x in timeheap.at ==> timeheap.at[x] > clock
        modifies this`eventCount, this`eventCountActive, this`st, this`activequeues, this`activeLaterQueue,
                 this`commonQueues, this`eventContinue, timeheap
        decreases ActiveStandIns(View())
      {
        var c :| 0 <= c < |timeoutEvents| && timeoutEvents[c] < |st| && st[timeoutEvents[c]].active;
        ghost var b := View();
        RunStandIn(c);
        ExpiringMore(b0, b, View());
      }
      AllExpired(b0, View());
    }

    /** Adds an event with a timeout of `tv` that counts from now, and lets time out whatever is due at a later time: the event
        has timed out exactly when the timeout is over. */
    method AddAndExpire(e: nat, tv: Timeval, ioOk: bool, time: int) returns (res: int)
      requires Sound({}) && e < |st| && info[e].isEvent && !IsTimer(timeoutEvents, e) && Tagged(View(), tv)
      modifies this, timeheap
      ensures Sound({}) && SameBase(old(View()), View()) && clock == time
      ensures res == if info[e].finalizing || (info[e].io && !old(st)[e].inserted && !old(st)[e].active && !old(st)[e].later && !ioOk)
                     then -1 else 0
      ensures res == 0 && time >= old(clock) + tv.usec ==> !st[e].timeout && st[e].active && st[e].timedOut
      ensures res == 0 && time < old(clock) + tv.usec ==>
                && st[e].timeout && st[e].deadline == Timeval(old(clock) + tv.usec, tv.queue)
                && (st[e].active ==> old(st)[e].active && !old(st)[e].timedOut)
    {
      hide Fine, IntervalsOk, TimeHeap.Valid, Add;
      ghost var b := View();
      FineIsCore(b, {});
      HasIt(b, e);
      AddKeeps(b, e, Some(tv), false, ioOk, {});
      AddIntervals(b, e, Some(tv), false, ioOk, {});
      res := EventAdd(e, Some(tv), false, ioOk);
      Wake(time);
      ExpireAll();
    }

    /** Runs the callback of a stand-in that is active. */
    method RunStandIn(c: nat)
      requires Sound({}) && c < |timeoutEvents| && timeoutEvents[c] < |st| && st[timeoutEvents[c]].active
      requires forall x :: x in timeheap.at ==> timeheap.at[x] > clock
      modifies this`eventCount, this`eventCountActive, this`st, this`activequeues, this`activeLaterQueue,
               this`commonQueues, this`eventContinue, timeheap
      ensures Sound({}) && SameBase(old(View()), View()) && Expiring(old(View()), View())
      ensures forall x :: x in timeheap.at ==> timeheap.at[x] > clock
      ensures ActiveStandIns(View()) == old(ActiveStandIns(View())) - {c} && c in old(ActiveStandIns(View()))
    {
      hide Fine, IntervalsOk, TimeHeap.Valid, Expiring, Begun, Expires;
      ghost var b := View();
      FineIsCore(b, {});
      StandInFacts(b, c);
      StandInStarts(b, c);
      Begin(timeoutEvents[c]);
      ghost var b1 := View();
      ghost var _ := CommonTimeoutCallback(c);
      QueueExpires(b1, View(), c);
      ExpiringMore(b, b1, View());
    }

    /** Carries out what a callback does. */
    method RunScript(acts: seq<Action>, ghost orderly: bool, ghost deferred: bool)
      requires Sound({}) && AllAllowed(View(), acts)
      requires orderly ==> AllOrderly(acts) && InOrder(View())
      requires deferred ==> AllDeferred(acts)
      modifies this, timeheap
      ensures Sound({}) && SameBase(old(View()), View()) && View() == Acts(old(View()), acts)
      ensures orderly ==> InOrder(View()) && (eventRunningPriority <= 0 && !old(eventContinue) ==> !eventContinue)
      ensures deferred ==> Prospect(View(), {}) <= old(Prospect(View(), {}))
    {
      hide Fine, IntervalsOk, TimeHeap.Valid, Act, Prospect, InOrder, Acts;
      ActsInOrder(View(), [], []);
      ghost var b0 := View();
      var i := 0;
      while i < |acts|
        invariant i <= |acts| && Sound({}) && SameBase(b0, View()) && AllAllowed(View(), acts)
        invariant View() == Acts(b0, acts[..i])
        invariant orderly ==> InOrder(View()) && (eventRunningPriority <= 0 && !b0.continues ==> !eventContinue)
        invariant deferred ==> Prospect(View(), {}) <= Prospect(b0, {})
      {
        ghost var b := View();
        FineIsCore(b, {});
        ActKeeps(b, acts[i], {});
        ActsNext(b0, acts, i, b);
        if orderly {
          ActKeepsOrder(b, acts[i]);
          ActAtFirst(b, acts[i]);
        }
        if deferred {
          ActDeferred(b, acts[i]);
        }
        Do(acts[i], {});
        AllAllowedSame(b, View(), acts);
        i := i + 1;
      }
      assert acts[..i] == acts;
    }

    /** Nothing goes before priority 0. */
    lemma ActAtFirst(b: Base, a: Action)
      requires Core(b) && Allowed(b, a) && Orderly(a)
      ensures b.running <= 0 && !b.continues ==> !Act(b, a).continues
    {
      hide Core, Add, Del, Cancel, Activate, ActivateLater;
      if !a.LoopBreak? && !a.LoopExit? && !a.SetClock? {
        HasIt(b, a.e);
      }
    }

    lemma ActDeferred(b: Base, a: Action)
      requires Core(b) && Fine(b, {}) && Allowed(b, a) && a.Schedule?
      ensures Prospect(Act(b, a), {}) <= Prospect(b, {})
    {
      hide Core, Fine, ScheduleDeferred, Prospect;
      HasIt(b, a.e);
      ScheduledProspect(b, a.e);
    }

    /** The queue whose stand-in an event is, if any. */
    method FindStandIn(e: nat) returns (c: Option<nat>)
      ensures c.Some? ==> c.value < |timeoutEvents| && IsTimer(timeoutEvents, e) && IndexOf(timeoutEvents, e) == c.value
      ensures c == None ==> !IsTimer(timeoutEvents, e)
    {
      var i := 0;
      while i < |timeoutEvents|
        invariant i <= |timeoutEvents| && e !in timeoutEvents[..i]
      {
        if timeoutEvents[i] == e {
          FirstIndex(timeoutEvents, e, i);
          return Some(i);
        }
        i := i + 1;
      }
      assert timeoutEvents[..i] == timeoutEvents;
      c := None;
    }

    /** Takes a callback that is about to be run off its queue. */
    method Begin(e: nat)
      requires Sound({}) && e < |st| && st[e].active
      modifies this`eventCount, this`eventCountActive, this`st, this`activequeues, this`activeLaterQueue, this`commonQueues, timeheap
      ensures Has(old(View()), e) && Sound(if IsTimer(timeoutEvents, e) then {e} else {}) && View() == Begun(old(View()), e)
    {
      hide Core, Wakes, IntervalsOk, TimeHeap.Valid, Del, RemoveActive;
      HasIt(View(), e);
      BegunKeeps(View(), e);
      if info[e].isEvent {
        if info[e].persist || info[e].finalizing {
          QueueRemoveActive(e);
        } else {
          TakeOff(e, false);
        }
      } else {
        QueueRemoveActive(e);
      }
    }

    /** Runs a callback: that of a stand-in, or one that carries out `acts`. */
    method RunCallback(e: nat, acts: seq<Action>, ioOk: bool, ghost orderly: bool, ghost deferred: bool)
      requires Sound(if IsTimer(timeoutEvents, e) then {e} else {}) && e < |st| && AllAllowed(View(), acts)
      requires orderly ==> AllOrderly(acts) && InOrder(View()) && (IsTimer(timeoutEvents, e) ==> eventRunningPriority <= 0)
      requires deferred ==> AllDeferred(acts) && !st[e].active
      modifies this, timeheap
      ensures Sound({}) && SameBase(old(View()), View())
      ensures orderly ==> InOrder(View()) && (eventRunningPriority <= 0 && !old(eventContinue) ==> !eventContinue)
      ensures deferred ==> Prospect(View(), {}) <= old(Prospect(View(), {e})) + old(Owed(View(), e))
      ensures Runs(old(View()), e, acts, ioOk, View())
    {
      hide Fine, IntervalsOk, TimeHeap.Valid, Prospect, Owed, AllAllowed, AllOrderly, AllDeferred, Rearm, Acts, Expires;
      var standIn := FindStandIn(e);
      FineIsCore(View(), if IsTimer(timeoutEvents, e) then {e} else {});
      HasIt(View(), e);
      if standIn.Some? {
        StandInsMatch(View(), {e});
        ghost var b := View();
        ghost var k := CommonTimeoutCallback(standIn.value);
        TimerIs(b, e, standIn.value);
        if deferred {
          FineIsCore(View(), {});
          CallbackProspect(b, View(), standIn.value);
        }
      } else {
        ghost var b := View();
        if info[e].isEvent && info[e].persist && !info[e].finalizing {
          PersistClosure(e, ioOk, {});
          Rearmed(b, e, ioOk);
          AllAllowedSame(b, View(), acts);
        } else {
          StartingLess(b, e);
        }
        RunScript(acts, orderly, deferred);
      }
    }

    lemma TimerIs(b: Base, e: nat, c: nat)
      requires c < |b.timers| && e in b.timers && IndexOf(b.timers, e) == c
      ensures b.timers[c] == e
    {}

    lemma StandInsMatch(b: Base, running: set<nat>)
      requires Fine(b, running)
      ensures |b.timers| == |b.ctls|
    {}

    /** Adding a persistent event again makes nothing active. */
    lemma Rearmed(b: Base, e: nat, ioOk: bool)
      requires Fine(b, {}) && IntervalsOk(b) && Has(b, e) && b.info[e].isEvent && b.info[e].persist && !IsTimer(b.timers, e)
      ensures var b' := Rearm(b, e, ioOk);
              && SameRound(b, b') && Prospect(b', {}) <= Prospect(b, {e}) && (InOrder(b) ==> InOrder(b'))
    {
      hide Fine, IntervalsOk, Rearm, Prospect;
      RearmShrinks(b, e, ioOk);
      RearmedProspect(b, e, ioOk);
    }

    /** Starts the first callback of queue `p` and runs it. */
    method RunNext(p: nat, acts: seq<Action>, ioOk: bool, ghost orderly: bool, ghost deferred: bool)
        returns (internal: bool, ghost start: Start)
      requires Sound({}) && p < |activequeues| && activequeues[p] != [] && AllAllowed(View(), acts)
      requires orderly ==> AllOrderly(acts) && OrderlyAt(View(), p)
      requires deferred ==> AllDeferred(acts)
      modifies this, timeheap
      ensures Sound({}) && SameBase(old(View()), View())
      ensures start == Start(old(activequeues[p][0]), p, old(View()), View())
      ensures eventRunningPriority == p ==> Replayed(start, acts, ioOk)
      ensures start.e < |info| && internal == info[start.e].internal && info[start.e].pri == p
      ensures orderly ==> AllInTurn([start]) && InOrder(View()) && (p == 0 ==> !eventContinue)
      ensures deferred ==> Prospect(View(), {}) + 1 <= old(Prospect(View(), {}))
    {
      hide Fine, IntervalsOk, TimeHeap.Valid, Begun, Prospect, Owed, AllAllowed, AllOrderly, AllDeferred, InOrder, NoneBefore, Runs, AllInTurn;
      ghost var b := View();
      FineIsCore(b, {});
      HeadIsActive(b, p);
      var e := activequeues[p][0];
      internal := info[e].internal;
      if orderly {
        BegunOrder(b, e);
      }
      BegunProspect(b, e);
      BegunKeeps(b, e);
      TimersAreInternal(b, e);
      Begin(e);
      AllAllowedSame(b, View(), acts);
      RunCallback(e, acts, ioOk, orderly, deferred);
      start := Start(e, p, b, View());
      if orderly {
        StartsInTurn(b, start);
      }
    }

    lemma StartsInTurn(b: Base, s: Start)
      requires NoneBefore(b, s.priority) && s.before == b
      ensures AllInTurn([s])
    {}

    lemma TimersAreInternal(b: Base, e: nat)
      requires Core(b) && Has(b, e)
      ensures IsTimer(b.timers, e) ==> b.info[e].internal && b.info[e].pri == 0
    {
      if IsTimer(b.timers, e) {
        TimerFacts(b, e);
      }
    }

    /** Runs the next callback of a queue that is being processed. */
    method ProcessNext(p: nat, ghost max: int, ghost endtime: Option<int>, script: nat -> seq<Action>, ioOk: nat -> bool, ghost k0: nat,
                       k: nat, ghost b0: Base, ghost log0: seq<Start>, ghost count: int, ghost orderly: bool, ghost deferred: bool)
        returns (internal: bool, ghost log: seq<Start>)
      requires Sound({}) && p < |activequeues| && activequeues[p] != [] && Plays(View(), script) && k == k0 + |log0|
      requires Processed(b0, log0, View(), script, ioOk, k0, p, max, endtime, count) && SameBase(b0, View()) && b0.running == p
      requires log0 != [] ==> !eventBreak && !eventContinue && count < max && (count != 0 && endtime.Some? ==> clock < endtime.value)
      requires orderly ==> PlaysOrderly(script) && OrderlyAt(View(), p) && AllInTurn(log0)
      requires deferred ==> PlaysDeferred(script)
      modifies this, timeheap
      ensures Sound({}) && SameBase(b0, View()) && |log| == |log0| + 1
      ensures Processed(b0, log, View(), script, ioOk, k0, p, max, endtime, count + if internal then 0 else 1)
      ensures orderly ==> AllInTurn(log) && (internal ==> p == 0) && (p == 0 ==> !eventContinue) && (eventContinue || OrderlyAt(View(), p))
      ensures deferred ==> Prospect(View(), {}) + 1 <= old(Prospect(View(), {}))
    {
      hide Fine, IntervalsOk, TimeHeap.Valid, Prospect, AllAllowed, AllOrderly, AllDeferred, AllInTurn, Replayed, Processed, NoneBefore;
      ghost var start;
      internal, start := RunNext(p, script(k), ioOk(k), orderly, deferred);
      ProcessedMore(b0, log0, start, script, ioOk, k0, p, max, endtime, count);
      if orderly {
        InTurnMore(log0, [start]);
      }
      log := log0 + [start];
    }

    /** Runs the callbacks of one active queue, `script(k0)` being what the first one does, until the queue is empty or
        a limit has been reached; it is observed for `fuel` callbacks.  The result is -1 after a loop break, and
        otherwise the number of callbacks run that were not internal. */
    method ProcessSingleQueue(p: nat, maxToProcess: int, endtime: Option<int>, script: nat -> seq<Action>, ioOk: nat -> bool,
                              k0: nat, fuel: nat, ghost orderly: bool, ghost deferred: bool)
        returns (count: int, k: nat, stopped: bool, ghost log: seq<Start>)
      requires Sound({}) && p < |activequeues| && activequeues[p] != [] && Plays(View(), script) && eventRunningPriority == p
      requires orderly ==> PlaysOrderly(script) && OrderlyAt(View(), p) && maxToProcess >= 1
      requires deferred ==> PlaysDeferred(script)
      modifies this, timeheap
      ensures Sound({}) && SameBase(old(View()), View())
      ensures |log| == k - k0 && k <= k0 + fuel && (stopped ==> k == k0 + fuel)
      // what has happened is what the log says; the result counts the starts
      ensures Processed(old(View()), log, View(), script, ioOk, k0, p, maxToProcess, endtime, |External(info, log)|)
      ensures count == if log != [] && eventBreak then -1 else |External(info, log)|
      // it goes on until the queue is empty or a limit has been reached
      ensures (fuel > 0 ==> log != []) && (stopped || log != [])
      ensures !stopped ==> activequeues[p] == [] || eventBreak || eventContinue || count >= maxToProcess
                           || (count != 0 && endtime.Some? && clock >= endtime.value)
      ensures orderly ==> AllInTurn(log)
      ensures orderly && count == 0 && !stopped ==> NoneBefore(View(), p + 1) && !eventContinue
      ensures deferred ==> k - k0 + Prospect(View(), {}) <= old(Prospect(View(), {}))
    {
      hide Fine, IntervalsOk, TimeHeap.Valid, Prospect, Plays, PlaysOrderly, PlaysDeferred, AllInTurn, Processed, External, OrderlyAt;
      ghost var b0 := View();
      count, k, stopped, log := 0, k0, false, [];
      ProcessedNone(b0, script, ioOk, k0, p, maxToProcess, endtime);
      InTurnNone();
      while activequeues[p] != []
        invariant Sound({}) && SameBase(b0, View()) && k0 <= k <= k0 + fuel && |log| == k - k0
        invariant Processed(b0, log, View(), script, ioOk, k0, p, maxToProcess, endtime, count) && count == |External(info, log)|
        invariant orderly ==> OrderlyAt(View(), p) && AllInTurn(log) && (count == 0 ==> p == 0 || k == k0)
        invariant k == k0 ==> activequeues[p] != []
        invariant log != [] ==> !eventBreak && !eventContinue && count < maxToProcess
                                && (count != 0 && endtime.Some? ==> clock < endtime.value)
        invariant deferred ==> k - k0 + Prospect(View(), {}) <= Prospect(b0, {})
        decreases k0 + fuel - k
      {
        if k == k0 + fuel {
          stopped := true;
          return;
        }
        PlaysSame(b0, View(), script);
        var internal;
        internal, log := ProcessNext(p, maxToProcess, endtime, script, ioOk, k0, k, b0, log, count, orderly, deferred);
        k := k + 1;
        if !internal {
          count := count + 1;
        }
        ProcessedCount(b0, log, View(), script, ioOk, k0, p, maxToProcess, endtime, count);
        if eventBreak {
          count := -1;
          return;
        }
        if count >= maxToProcess {
          return;
        }
        if count != 0 && endtime.Some? {
          if clock >= endtime.value {
            return;
          }
        }
        if eventContinue {
          break;
        }
      }
    }

    lemma InTurnNone()
      ensures AllInTurn([])
    {}

    /** Makes the callbacks that were put off to this round active, in their order and behind those that are. */
    method MakeLaterEventsActive()
      requires Sound({})
      modifies this`activeLaterQueue, this`st, this`activequeues, this`nDeferredsQueued
      ensures Sound({}) && activeLaterQueue == []
      ensures Promoted(old(View()), View(), old(|activeLaterQueue|))
      ensures nDeferredsQueued >= old(nDeferredsQueued)
    {
      hide Fine, IntervalsOk, TimeHeap.Valid, Promoted, Promote;
      ghost var b0, k := View(), 0;
      PromotedNone(b0);
      FineIsCore(b0, {});
      while activeLaterQueue != []
        invariant Sound({}) && Promoted(b0, View(), k) && |activeLaterQueue| == |b0.later| - k
        invariant nDeferredsQueued >= b0.nDeferreds
        modifies this`activeLaterQueue, this`st, this`activequeues, this`nDeferredsQueued
        decreases |activeLaterQueue|
      {
        ghost var b := View();
        FineIsCore(b, {});
        PromotedNext(b0, b, k);
        PromoteKeeps(b, b.later[0]);
        PromoteShape(b);
        PromoteHead();
        k := k + 1;
      }
    }

    method PromoteHead()
      requires timeheap.Valid() && activeLaterQueue != [] && Has(View(), activeLaterQueue[0])
      modifies this`activeLaterQueue, this`st, this`activequeues, this`nDeferredsQueued
      ensures timeheap.Valid() && View() == Promote(old(View()), old(activeLaterQueue[0]))
    {
      hide TimeHeap.Valid, Promote;
      PromoteShape(View());
      var e := activeLaterQueue[0];
      activeLaterQueue := activeLaterQueue[1..];
      st := st[e := st[e].(later := false, active := true)];
      var p := info[e].pri;
      activequeues := activequeues[p := activequeues[p] + [e]];
      if !info[e].isEvent {
        nDeferredsQueued := nDeferredsQueued + 1;
      }
    }

    /** Runs the active callbacks of the first queue that has any that are not internal, and all that come before it. */
    method ProcessActive(script: nat -> seq<Action>, ioOk: nat -> bool, k0: nat, fuel: nat, ghost orderly: bool, ghost deferred: bool)
        returns (c: int, k: nat, stopped: bool, ghost log: seq<Start>)
      requires Sound({}) && Plays(View(), script)
      requires orderly ==> PlaysOrderly(script) && InternalFirst(info) && !eventContinue && maxDispatchCallbacks >= 1
      requires deferred ==> PlaysDeferred(script)
      modifies this, timeheap
      ensures Sound({}) && eventRunningPriority == -1 && |log| == k - k0 && k <= k0 + fuel && (stopped ==> k == k0 + fuel)
      ensures SameBase(old(View()).(running := -1), View())
      // what has happened is that the callbacks of the log have been run, one after the other
      ensures Replays(old(View()), log, View(), script, ioOk, k0)
      // if anything is active, something is run, and the head of the first queue that is not empty goes first
      ensures fuel > 0 && log == [] ==> forall q :: 0 <= q < |activequeues| ==> old(activequeues)[q] == []
      ensures log != [] ==>
                && log[0].priority < |activequeues| && old(activequeues)[log[0].priority] != []
                && log[0].e == old(activequeues)[log[0].priority][0]
                && forall q :: 0 <= q < log[0].priority ==> old(activequeues)[q] == []
      // the result is -1 after a break, and otherwise the number of starts that count
      ensures c == if log != [] && eventBreak then -1 else |External(info, log)|
      // it goes on until the queues are empty or a limit has been reached, and no longer
      ensures WentAcross(info, log, old(DispatchLimits())) && (stopped || Ended(View(), log, c, old(DispatchLimits())))
      ensures orderly && c == 0 && !stopped ==> NoneBefore(View(), |activequeues|)
      // no priority inversion
      ensures orderly ==> AllInTurn(log)
      // callbacks that only schedule deferred ones cannot keep the dispatcher running
      ensures deferred ==> k - k0 + Prospect(View(), {}) <= old(Prospect(View(), {}))
    {
      hide Fine, IntervalsOk, TimeHeap.Valid, Prospect, PlaysOrderly, PlaysDeferred, AllInTurn, InternalFirst, Plays, Over, Ended, NoneBefore,
           WentAcross, Replays, External;
      ghost var b0 := View();
      ghost var i;
      var endtime := if maxDispatchTime.Some? then Some(clock + maxDispatchTime.value) else None;
      c, k, stopped, log, i := ProcessQueues(endtime, script, ioOk, k0, fuel, orderly, deferred);
      ghost var b := View();
      SetRunning(-1);
      OverBetween(b0, log, b, View(), script, ioOk, k0, Limits(maxDispatchCallbacks, endtime, limitCallbacksAfterPrio), i,
                  if fuel > 0 then |activequeues| else 0, c);
      OverMeans(b0, log, View(), script, ioOk, k0, Limits(maxDispatchCallbacks, endtime, limitCallbacksAfterPrio),
                if fuel > 0 then |activequeues| else 0, c);
    }

    /** Goes through the queues until callbacks that are not internal have been run. */
    method ProcessQueues(endtime: Option<int>, script: nat -> seq<Action>, ioOk: nat -> bool, k0: nat, fuel: nat,
                         ghost orderly: bool, ghost deferred: bool)
        returns (c: int, k: nat, stopped: bool, ghost log: seq<Start>, ghost last: nat)
      requires Sound({}) && Plays(View(), script)
      requires orderly ==> PlaysOrderly(script) && InternalFirst(info) && !eventContinue && maxDispatchCallbacks >= 1
      requires deferred ==> PlaysDeferred(script)
      modifies this, timeheap
      ensures Sound({}) && |log| == k - k0 && k <= k0 + fuel && (stopped ==> k == k0 + fuel)
      ensures SameBase(old(View()).(running := eventRunningPriority), View())
      ensures var limits := Limits(maxDispatchCallbacks, endtime, limitCallbacksAfterPrio);
              Over(old(View()), log, View(), script, ioOk, k0, limits, last, c) && (stopped || Ended(View(), log, c, limits))
      ensures log != [] || fuel == 0 || last == |activequeues|
      ensures orderly && c == 0 && !stopped ==> NoneBefore(View(), |activequeues|)
      ensures orderly ==> AllInTurn(log)
      ensures deferred ==> k - k0 + Prospect(View(), {}) <= old(Prospect(View(), {}))
    {
      hide Fine, IntervalsOk, TimeHeap.Valid, Prospect, PlaysOrderly, PlaysDeferred, AllInTurn, InternalFirst, Plays, Underway, Over, Ended,
           NoneBefore;
      ghost var b0, limits := View(), Limits(maxDispatchCallbacks, endtime, limitCallbacksAfterPrio);
      c, k, stopped, log := 0, k0, false, [];
      UnderwayNone(b0, script, ioOk, k0, limits);
      InTurnNone();
      var i := 0;
      while i < |activequeues|
        invariant i <= |activequeues| && Sound({}) && SameBase(b0.(running := eventRunningPriority), View())
        invariant k0 <= k <= k0 + fuel && |log| == k - k0 && !stopped && c == 0
        invariant Underway(b0, log, View(), script, ioOk, k0, limits, i)
        invariant orderly ==> InternalFirst(info) && !eventContinue && NoneBefore(View(), i) && AllInTurn(log)
        invariant deferred ==> k - k0 + Prospect(View(), {}) <= Prospect(b0, {})
        decreases |activequeues| - i
      {
        if activequeues[i] != [] {
          c, k, stopped, log := ProcessQueue(i, endtime, script, ioOk, k0, k, k0 + fuel - k, b0, log, limits, orderly, deferred);
          if stopped || c != 0 {
            // callbacks that count have been run, or a break was asked for
            last := i;
            return;
          }
        } else {
          UnderwayNext(b0, log, View(), script, ioOk, k0, limits, i);
        }
        i := i + 1;
      }
      UnderwayIsOver(b0, log, View(), script, ioOk, k0, limits, i);
      last := i;
    }

    /** Runs the callbacks of queue `i`, which is not empty. */
    method ProcessQueue(i: nat, endtime: Option<int>, script: nat -> seq<Action>, ioOk: nat -> bool, ghost k0: nat, k: nat, fuel: nat,
                        ghost b0: Base, ghost log0: seq<Start>, ghost limits: Limits, ghost orderly: bool, ghost deferred: bool)
        returns (c: int, k': nat, stopped: bool, ghost log: seq<Start>)
      requires Sound({}) && Plays(b0, script) && i < |activequeues| && activequeues[i] != [] && k == k0 + |log0|
      requires SameBase(b0.(running := eventRunningPriority), View()) && limits == Limits(maxDispatchCallbacks, endtime, limitCallbacksAfterPrio)
      requires Underway(b0, log0, View(), script, ioOk, k0, limits, i)
      requires orderly ==> PlaysOrderly(script) && InternalFirst(info) && !eventContinue && NoneBefore(View(), i) && limits.max >= 1
      requires deferred ==> PlaysDeferred(script)
      modifies this, timeheap
      ensures Sound({}) && SameBase(b0.(running := i), View())
      ensures k <= k' <= k + fuel && |log| == k' - k0 && (stopped ==> k' == k + fuel) && (stopped || log != [])
      ensures Over(b0, log, View(), script, ioOk, k0, limits, i, c)
      ensures c == 0 && !stopped ==> Underway(b0, log, View(), script, ioOk, k0, limits, i + 1)
      ensures stopped || Ended(View(), log, c, limits)
      ensures orderly && c == 0 && !stopped ==> NoneBefore(View(), i + 1) && !eventContinue
      ensures orderly && AllInTurn(log0) ==> AllInTurn(log)
      ensures deferred ==> k' - k + Prospect(View(), {}) <= old(Prospect(View(), {}))
    {
      hide Fine, IntervalsOk, TimeHeap.Valid, Prospect, PlaysOrderly, PlaysDeferred, AllInTurn, InternalFirst, Plays, Underway, Over, Processed,
           External;
      ghost var b := View();
      ghost var more;
      SetRunning(i);
      ghost var b1 := View();
      PlaysSameControl(b0, b1, script);
      var max := if i < limitCallbacksAfterPrio then INT_MAX else maxDispatchCallbacks;
      var until := if i < limitCallbacksAfterPrio then None else endtime;
      c, k', stopped, more := ProcessSingleQueue(i, max, until, script, ioOk, k, fuel, orderly, deferred);
      log := log0 + more;
      ProcessedFrom(b1, more, View(), script, ioOk, k, i, max, until, |External(info, more)|);
      UnderwayOn(b0, log0, b, b1, more, View(), script, ioOk, k0, limits, i, max, until, c);
      if orderly && AllInTurn(log0) {
        InTurnMore(log0, more);
      }
    }

    /** What limits a dispatch that starts now. */
    ghost function DispatchLimits(): Limits
      reads this`clock
    {
      Limits(maxDispatchCallbacks, if maxDispatchTime.Some? then Some(clock + maxDispatchTime.value) else None, limitCallbacksAfterPrio)
    }

    /** A dispatch whose callbacks only schedule deferred callbacks comes to an end.  If L callbacks are queued at its start,
        it runs at most L + 33, and one more for each event that waits in a common-timeout queue whose stand-in is active,
        or that goes back to such a queue when it is run. */
    method ProcessDeferred(script: nat -> seq<Action>, ioOk: nat -> bool, fuel: nat) returns (c: int, runs: nat, stopped: bool)
      requires Sound({}) && Plays(View(), script) && PlaysDeferred(script) && nDeferredsQueued >= 0
      modifies this, timeheap
      ensures Sound({})
      ensures runs <= old(eventCountActive) + 33 + old(Total(Pending(View())) + |Returning(View())|)
      ensures fuel > old(eventCountActive) + 33 + old(Total(Pending(View())) + |Returning(View())|) ==> !stopped
      // with no stand-in active, at most L + 33
      ensures !old(StandInActive(View())) ==> runs <= old(eventCountActive) + 33
      ensures !old(StandInActive(View())) && fuel > old(eventCountActive) + 33 ==> !stopped
    {
      hide Fine, IntervalsOk, TimeHeap.Valid, Core, Budget, StandInActive, Plays, PlaysDeferred, Pending, Returning, Awaiting;
      FineIsCore(View(), {});
      BudgetBound(View());
      AwaitingBound(View());
      ghost var log;
      c, runs, stopped, log := ProcessActive(script, ioOk, 0, fuel, false, true);
      BudgetLeft(View());
    }

    method SetRunning(p: int)
      requires Sound({})
      modifies this`eventRunningPriority
      ensures Sound({}) && View() == old(View()).(running := p)
      ensures Prospect(View(), {}) == old(Prospect(View(), {}))
    {
      hide Fine, IntervalsOk, TimeHeap.Valid;
      FineControl(View(), View().(running := p), {});
      ProspectControl(View(), View().(running := p));
      IntervalsSame(View(), View().(running := p));
      eventRunningPriority := p;
    }

    lemma PlaysSameControl(b: Base, b': Base, script: nat -> seq<Action>)
      requires Plays(b, script) && SameBase(b.(running := b'.running), b')
      ensures Plays(b', script)
    {
      forall k: nat, i: nat | i < |script(k)|
        ensures Allowed(b', script(k)[i])
      {
        assert Allowed(b, script(k)[i]);
      }
    }

    /** Sets up a callback that is on no queue. */
    method Assign(i: Info, ghost running: set<nat>) returns (e: nat)
      requires Sound(running) && i.pri < |activequeues|
      modifies this`info, this`st
      ensures Sound(running) && View() == Register(old(View()), i) && e == |old(st)|
      ensures info == old(info) + [i] && |st| == e + 1 && st[..e] == old(st)
      ensures !st[e].inserted && !st[e].timeout && !st[e].active && !st[e].later
    {
      hide Fine, IntervalsOk, TimeHeap.Valid;
      RegisterKeeps(View(), i, running);
      e := |st|;
      info, st := info + [i], st + [BLANK];
    }

    /** A timeval that carries the tag of the queue for the given duration, unless 256 others have been given out. */
    method InitCommonTimeout(duration: Duration) returns (tv: Option<Duration>)
      requires Sound({}) && |durations| == |commonQueues| && AllTagged(durations) && |activequeues| > 0
      modifies this`info, this`st, this`timeoutEvents, this`commonQueues, this`durations
      ensures Sound({}) && |durations| == |commonQueues| && AllTagged(durations)
      ensures tv == None <==> |old(durations)| >= MAX_COMMON_TIMEOUTS && !HasDuration(old(durations), Normal(duration, |old(durations)|))
      // it means the duration that was asked for, and names its queue
      ensures tv.Some? ==> IsCommon(tv.value.usec, |durations|) && durations[QueueOf(tv.value.usec)] == tv.value
      ensures tv.Some? ==> Meant(tv.value, |durations|).usec == Meant(duration, |old(durations)|).usec
                           && Tagged(View(), Meant(tv.value, |durations|))
      ensures View() == if tv == None || HasDuration(old(durations), Normal(duration, |old(durations)|)) then old(View())
                        else AddQueue(old(View()))
    {
      hide Fine, IntervalsOk, TimeHeap.Valid, IsCommon, QueueOf, Normal, Tag;
      var d := Normal(duration, |durations|);
      var i := 0;
      while i < |durations|
        invariant i <= |durations| && forall k: nat :: k < i ==> Untagged(durations[k]) != d
      {
        if Untagged(durations[i]) == d {
          TagReadsBack(d.usec, i, |durations|);
          return Some(durations[i]);
        }
        i := i + 1;
      }
      if |durations| >= MAX_COMMON_TIMEOUTS {
        return None;
      }
      TagReadsBack(d.usec, i, i + 1);
      tv := Some(d.(usec := Tag(d.usec, i)));
      AddCommon(tv.value);
    }

    method AddCommon(tv: Duration)
      requires Sound({}) && |durations| == |commonQueues| && |activequeues| > 0
      modifies this`info, this`st, this`timeoutEvents, this`commonQueues, this`durations
      ensures Sound({}) && View() == AddQueue(old(View())) && durations == old(durations) + [tv]
    {
      hide Fine, IntervalsOk, TimeHeap.Valid;
      AddQueueKeeps(View(), {});
      timeoutEvents, info := timeoutEvents + [|st|], info + [Info(true, true, false, false, false, 0)];
      st := st + [BLANK];
      commonQueues, durations := commonQueues + [[]], durations + [tv];
    }

    /** Nothing is left to be done: no callback is active or to be made active, and none that is not internal is on any queue. */
    ghost predicate Idle()
      reads this`info, this`st
    {
      forall e :: 0 <= e < |st| && e < |info| ==>
        && !st[e].active && !st[e].later
        && (!info[e].internal ==> !st[e].inserted && !st[e].timeout)
    }

    /** The two counters tell whether anything is left to be done. */
    lemma IdleWhenCountsAreZero()
      requires Core(View())
      ensures eventCount >= 0 && eventCountActive >= 0
      ensures eventCount == 0 && eventCountActive == 0 <==> Idle()
    {
      hide HeapOk, CommonOk, StandInsOk;
      NothingPending(info, st);
      if eventCountActive == 0 {
        forall e | 0 <= e < |st|
          ensures !st[e].active && !st[e].later
        {
          ActiveIsCounted(View(), e);
        }
      } else {
        NotIdle();
      }
    }

    lemma NotIdle()
      requires Core(View()) && eventCountActive != 0
      ensures exists e :: 0 <= e < |st| && (st[e].active || st[e].later)
    {
      hide HeapOk, CommonOk, StandInsOk, FlagsOk;
      TotalNone(activequeues);
      if activeLaterQueue != [] {
        var e := activeLaterQueue[0];
        assert e in activeLaterQueue;
      } else {
        var p :| 0 <= p < |activequeues| && activequeues[p] != [];
        HeadIsActive(View(), p);
      }
    }

    /** Forgets what the last round has told the dispatcher. */
    method NextRound()
      requires Sound({})
      modifies this`eventContinue, this`nDeferredsQueued
      ensures Sound({}) && View() == old(View()).(continues := false, nDeferreds := 0)
    {
      hide Fine, IntervalsOk, TimeHeap.Valid;
      FineControl(View(), View().(continues := false, nDeferreds := 0), {});
      IntervalsSame(View(), View().(continues := false, nDeferreds := 0));
      eventContinue, nDeferredsQueued := false, 0;
    }

    method Wake(time: int)
      requires Sound({})
      modifies this`clock
      ensures Sound({}) && View() == old(View()).(now := time)
    {
      hide Fine, IntervalsOk, TimeHeap.Valid;
      FineControl(View(), View().(now := time), {});
      IntervalsSame(View(), View().(now := time));
      clock := time;
    }

    lemma NoStandInActive()
      requires Core(View()) && eventCountActive == 0
      ensures !StandInActive(View())
    {
      hide Core;
      forall c | 0 <= c < |timeoutEvents| && timeoutEvents[c] < |st|
        ensures !st[timeoutEvents[c]].active
      {
        ActiveIsCounted(View(), timeoutEvents[c]);
      }
    }

    lemma ActiveIsCounted(b: Base, e: nat)
      requires Core(b) && e < |b.st|
      ensures b.st[e].active || b.st[e].later ==> b.countActive != 0
    {
      hide HeapOk, CommonOk, StandInsOk, FlagsOk;
      TotalNone(b.queues);
      if b.st[e].active {
        assert b.queues[b.info[e].pri] != [];
      }
    }

    lemma PromotedBase(b0: Base, b: Base, k: nat)
      requires Promoted(b0, b, k)
      ensures SameBase(b0, b) && b.continues == b0.continues
    {}

    /** No callback is active, now or in the next round. */
    ghost predicate Quiet()
      reads this
    {
      forall e :: 0 <= e < |st| && e < |info| ==> !st[e].active && !st[e].later
    }

    lemma QuietWhenCountIsZero()
      requires Core(View())
      ensures eventCountActive == 0 <==> Quiet()
    {
      hide HeapOk, CommonOk, StandInsOk, FlagsOk;
      if eventCountActive == 0 {
        forall e | 0 <= e < |st|
          ensures !st[e].active && !st[e].later
        {
          ActiveIsCounted(View(), e);
        }
      } else {
        NotIdle();
      }
    }

    /** One round of the loop.  The dispatch of the backend takes until `time` and makes `ready` happen, or fails; the k-th
        callback to be run carries out `script(k)`; the round is observed for `fuel` callbacks.  The result is what the
        loop returns if it ends in this round. */
    method LoopRound(flags: LoopFlags, virtualEventCount: nat, time: int, dispatched: bool, ready: seq<Action>,
                     script: nat -> seq<Action>, ioOk: nat -> bool, fuel: nat, ghost orderly: bool)
        returns (retval: Option<int>, wait: Option<nat>, n: int, ran: bool, stopped: bool, ghost log: seq<Start>, ghost round: Round)
      requires Sound({}) && Plays(View(), script) && AllAllowed(View(), ready) && eventRunningPriority == -1
      requires orderly ==> PlaysOrderly(script) && AllOrderly(ready) && InternalFirst(info) && maxDispatchCallbacks >= 1
      modifies this, timeheap
      ensures Sound({}) && eventRunningPriority == -1 && SameBase(old(View()), View())
      // the loop ends because it was told to, because nothing is left to be done, or because the dispatch failed
      ensures retval == Some(1) <==> old(Goes(flags, virtualEventCount) == Some(1))
      ensures retval == Some(1) ==> Idle() && !flags.noExitOnEmpty && virtualEventCount == 0
      ensures retval == Some(-1) <==> old(Goes(flags, virtualEventCount) == None) && !dispatched
      // or, by its flags, because callbacks have been run and none is left, or because there was none to run
      ensures retval == Some(0) <==>
                old(Goes(flags, virtualEventCount) == Some(0)) ||
                (old(Goes(flags, virtualEventCount) == None) && dispatched && !stopped &&
                 if ran then flags.once && n != 0 && Quiet() else flags.nonblock)
      ensures old(Goes(flags, virtualEventCount) == Some(0)) ==> eventGotterm || eventBreak
      ensures retval.None? || retval.value in {-1, 0, 1}
      ensures !ran ==> log == [] && (old(Goes(flags, virtualEventCount) == None) && dispatched ==> Quiet())
      // it does not sleep while a callback is active, nor past a deadline, and otherwise until the first one
      ensures old(Goes(flags, virtualEventCount) == None) ==>
                if old(eventCountActive) > 0 || flags.nonblock then wait == Some(0) else SleepsUntilFirst(old(timeheap.at), old(clock), wait)
      ensures old(Goes(flags, virtualEventCount) == None) ==> forall e :: 0 <= e < |old(st)| && old(st)[e].timeout ==>
                wait.Some? && (wait.value == 0 || old(clock) + wait.value <= old(st)[e].deadline.usec)
      // a round that dispatches goes through its three states and runs its callbacks; any other one does no more than to make
      // the callbacks of the last round active
      ensures old(Goes(flags, virtualEventCount) == None) && dispatched ==>
                Passes(NewRound(old(View())), round, time, ready) && Completes(round, ran, log, View(), script, ioOk)
      ensures old(Goes(flags, virtualEventCount) == None) && !dispatched ==> Promoted(NewRound(old(View())), View(), old(|activeLaterQueue|)) && !ran
      ensures old(Goes(flags, virtualEventCount) != None) ==> View() == NewRound(old(View())) && !ran
      // no timer is forgotten
      ensures old(Goes(flags, virtualEventCount) == None) && dispatched && !ran ==> forall e :: e in timeheap.at ==> timeheap.at[e] > clock
      ensures old(Goes(flags, virtualEventCount) == None) && dispatched && ready == [] && PlaysNothing(script) && old(NonNegative(View())) ==>
                NoneForgotten(old(View()), log, View()) && NonNegative(View()) && clock == time
      // no priority inversion
      ensures orderly ==> AllInTurn(log)
    {
      hide Fine, IntervalsOk, TimeHeap.Valid, AllAllowed, AllOrderly, AllInTurn, InternalFirst, Plays, StandInActive, Idle, Quiet, Passes,
           Completes, Promoted, NoneForgotten, NonNegative, PlaysNothing, SleepsUntilFirst;
      InTurnNone();
      ghost var b0 := View();
      n, ran, stopped, log, round := 0, false, false, [], Round(b0, b0, b0, []);
      retval, wait := StartRound(flags, virtualEventCount);
      if retval.Some? {
        return;
      }
      PlaysSame(b0, View(), script);
      AllAllowedSame(b0, View(), ready);
      ghost var b := View();
      retval, n, ran, stopped, log, round := RunRound(flags, time, dispatched, ready, script, ioOk, fuel, orderly);
      if dispatched {
        RoundForgetsNone(b0, b, round, time, ready, ran, log, View(), script, ioOk);
      }
    }

    /** The part of a round before the dispatch: finds out whether the loop goes on, and how long it may sleep. */
    method StartRound(flags: LoopFlags, virtualEventCount: nat) returns (retval: Option<int>, wait: Option<nat>)
      requires Sound({})
      modifies this`eventContinue, this`nDeferredsQueued
      ensures Sound({}) && View() == NewRound(old(View()))
      ensures retval == old(Goes(flags, virtualEventCount))
      ensures retval == Some(1) ==> Idle() && !flags.noExitOnEmpty && virtualEventCount == 0
      ensures retval == None ==>
                && (if old(eventCountActive) > 0 || flags.nonblock then wait == Some(0) else SleepsUntilFirst(timeheap.at, clock, wait))
                && forall e :: 0 <= e < |st| && st[e].timeout ==> wait.Some? && (wait.value == 0 || clock + wait.value <= st[e].deadline.usec)
    {
      hide Fine, IntervalsOk, TimeHeap.Valid, StandInActive, Idle, SleepsUntilFirst;
      FineIsCore(View(), {});
      IdleWhenCountsAreZero();
      NextRound();
      retval, wait := None, Some(0);
      if eventGotterm {
        return Some(0), wait;
      }
      if eventBreak {
        return Some(0), wait;
      }
      if eventCountActive == 0 && !flags.nonblock {
        FineIsCore(View(), {});
        NoStandInActive();
        wait := TimeoutNext();
      }
      if !flags.noExitOnEmpty && !(virtualEventCount > 0 || eventCount > 0) && eventCountActive == 0 {
        retval := Some(1);
        FineIsCore(View(), {});
        IdleWhenCountsAreZero();
      }
    }

    lemma RoundForgetsNone(b0: Base, b: Base, round: Round, time: int, ready: seq<Action>, ran: bool, log: seq<Start>, b': Base,
                           script: nat -> seq<Action>, ioOk: nat -> bool)
      requires b == b0.(continues := b.continues, nDeferreds := b.nDeferreds)
      requires Passes(b, round, time, ready) && Completes(round, ran, log, b', script, ioOk)
      ensures !ran ==> forall e :: e in b'.at ==> b'.at[e] > b'.now
      ensures ready == [] && PlaysNothing(script) && NonNegative(b0) ==> NoneForgotten(b0, log, b') && NonNegative(b') && b'.now == time
    {
      hide Promoted, Replays, NoneForgotten, PlaysNothing, Fine;
      if ready == [] && PlaysNothing(script) && NonNegative(b0) {
        QuietRound(b, round, time, ran, log, b', script, ioOk);
        NoneForgottenControl(b0, b, log, b');
      }
    }

    /** Everything that happens is about a callback of the right kind. */
    ghost predicate Happens(w: World, b: Base) {
      (forall i: nat :: AllAllowed(b, w.ready(i))) && (forall i: nat :: Plays(b, w.scripts(i)))
    }

    lemma HappensSame(b: Base, b': Base, w: World)
      requires Happens(w, b) && SameBase(b, b')
      ensures Happens(w, b')
    {
      hide AllAllowed, Plays;
      forall i: nat
        ensures AllAllowed(b', w.ready(i)) && Plays(b', w.scripts(i))
      {
        AllAllowedSame(b, b', w.ready(i));
        PlaysSame(b, b', w.scripts(i));
      }
    }

    /** The loop, observed for a number of rounds of the world `w`. */
    method Loop(flags: LoopFlags, rounds: nat, virtualEventCounts: nat -> nat, w: World, fuel: nat, ghost orderly: bool)
        returns (retval: Option<int>, ghost log: seq<Start>, ghost done: seq<RoundLog>)
      requires Sound({}) && Happens(w, View()) && eventRunningPriority == -1
      requires orderly ==> InternalFirst(info) && maxDispatchCallbacks >= 1
      requires orderly ==> forall i: nat :: PlaysOrderly(w.scripts(i)) && AllOrderly(w.ready(i))
      modifies this, timeheap
      ensures Sound({}) && eventRunningPriority == -1 && SameBase(old(View()), View())
      // it goes from round to round until it ends, and does nothing else
      ensures RoundsDone(old(View()).(breaks := false), done, w) && log == LogOf(done) && |done| <= rounds
      ensures retval == None ==> |done| == rounds
      ensures Settled(LastOf(old(View()).(breaks := false), done), View())
      // it ends with 1 for lack of events only when nothing is left to be done, with -1 when a dispatch fails, and with 0 when it has
      // been told to
      ensures retval == Some(1) ==> Idle() && !flags.noExitOnEmpty
      ensures retval == Some(-1) ==> !w.dispatched(|done|)
      ensures retval == Some(0) ==> eventGotterm || eventBreak || flags.once || flags.nonblock
      ensures retval.None? || retval.value in {-1, 0, 1}
      // no timer is forgotten: once a round has dispatched, if nothing but timeouts happens, each event of the user that was active
      // or had a timeout has been started, or is active, or is not yet due, or its stand-in is active
      ensures done != [] && NothingHappens(w) && old(NonNegative(View())) ==> NoneForgotten(old(View()), log, View())
      ensures done == [] ==> rounds == 0 || !w.dispatched(0) || (!flags.noExitOnEmpty && virtualEventCounts(0) == 0 && old(Idle()))
      // no priority inversion in the whole of it
      ensures orderly ==> AllInTurn(log)
    {
      hide Fine, IntervalsOk, TimeHeap.Valid, AllAllowed, AllOrderly, AllInTurn, InternalFirst, Plays, Idle, Quiet, Happens, PlaysOrderly,
           Promoted, Passes, Completes, NoneForgotten, NonNegative, NothingHappens, RoundsDone, LogOf, Looped, Settled, LastOf;
      ghost var b0 := View();
      Unbreak();
      retval, log, done := None, [], [];
      InTurnNone();
      LoopedNone(b0, w);
      var i := 0;
      while i < rounds && retval == None
        invariant Sound({}) && eventRunningPriority == -1 && SameBase(b0, View()) && |done| <= i <= rounds
        invariant Looped(b0, w, done, log, View())
        invariant retval == None ==> |done| == i && View() == LastOf(b0.(breaks := false), done) && (i == 0 ==> !eventGotterm && !eventBreak)
        invariant retval == Some(1) ==> Idle() && !flags.noExitOnEmpty
        invariant i == 0 ==> retval == None && Idle() == old(Idle())
        invariant done == [] && i > 0 ==> !w.dispatched(0) || (!flags.noExitOnEmpty && virtualEventCounts(0) == 0 && old(Idle()))
        invariant retval == Some(-1) ==> !w.dispatched(|done|)
        invariant retval == Some(0) ==> eventGotterm || eventBreak || flags.once || flags.nonblock
        invariant retval.None? || retval.value in {-1, 0, 1}
        invariant orderly ==> AllInTurn(log)
        decreases rounds - i
      {
        HappensSame(b0, View(), w);
        retval, log, done := LoopStep(flags, virtualEventCounts(i), w, i, fuel, orderly, b0, log, done);
        i := i + 1;
      }
      LoopedMeans(b0, w, done, log, View());
    }

    /** The i-th round. */
    method LoopStep(flags: LoopFlags, virtualEventCount: nat, w: World, i: nat, fuel: nat, ghost orderly: bool,
                    ghost b0: Base, ghost log0: seq<Start>, ghost done0: seq<RoundLog>)
        returns (retval: Option<int>, ghost log: seq<Start>, ghost done: seq<RoundLog>)
      requires Sound({}) && Happens(w, View()) && eventRunningPriority == -1
      requires orderly ==> InternalFirst(info) && maxDispatchCallbacks >= 1 && PlaysOrderly(w.scripts(i)) && AllOrderly(w.ready(i))
      requires Looped(b0, w, done0, log0, View()) && View() == LastOf(b0.(breaks := false), done0) && |done0| == i
      modifies this, timeheap
      ensures Sound({}) && eventRunningPriority == -1 && SameBase(old(View()), View()) && Looped(b0, w, done, log, View())
      ensures if old(Goes(flags, virtualEventCount)) == None && w.dispatched(i)
              then |done| == i + 1 && View() == LastOf(b0.(breaks := false), done)
              else done == done0 && retval.Some?
      ensures retval == Some(1) ==> Idle() && !flags.noExitOnEmpty
      ensures retval == Some(-1) ==> !w.dispatched(i) && done == done0
      ensures retval == Some(0) ==> eventGotterm || eventBreak || flags.once || flags.nonblock
      ensures retval.None? || retval.value in {-1, 0, 1}
      ensures orderly && AllInTurn(log0) ==> AllInTurn(log)
    {
      hide Fine, IntervalsOk, TimeHeap.Valid, AllAllowed, AllOrderly, AllInTurn, InternalFirst, Plays, Idle, Quiet, Happens, PlaysOrderly,
           Promoted, Passes, Completes, NoneForgotten, NonNegative, NothingHappens, Looped, DoneAt, PlaysNothing, NewRound, LastOf;
      HappensAt(View(), w, i);
      log, done := log0, done0;
      var wait, n, ran, stopped;
      ghost var b, goes, more, round := View(), Goes(flags, virtualEventCount), [], Round(View(), View(), View(), []);
      retval, wait, n, ran, stopped, more, round :=
        LoopRound(flags, virtualEventCount, w.times(i), w.dispatched(i), w.ready(i), w.scripts(i), w.ioOk(i), fuel, orderly);
      if goes == None && w.dispatched(i) {
        ghost var r := RoundLog(b, round, ran, more, View());
        RoundIsDone(r, w, i);
        LoopedOn(b0, w, done0, log0, r);
        if orderly && AllInTurn(log0) {
          InTurnMore(log0, more);
        }
        log, done := log0 + more, done0 + [r];
      } else {
        LoopedToEnd(b0, w, done0, log0, b, View());
      }
    }

    lemma RoundIsDone(r: RoundLog, w: World, i: nat)
      requires w.dispatched(i) && Passes(NewRound(r.before), r.round, w.times(i), w.ready(i))
      requires Completes(r.round, r.ran, r.log, r.after, w.scripts(i), w.ioOk(i))
      ensures DoneAt(r, w, i)
    {
      hide Passes, Completes;
    }

    lemma HappensAt(b: Base, w: World, i: nat)
      requires Happens(w, b)
      ensures AllAllowed(b, w.ready(i)) && Plays(b, w.scripts(i))
      ensures NothingHappens(w) ==> w.ready(i) == [] && PlaysNothing(w.scripts(i))
    {
      hide AllAllowed, Plays, PlaysNothing;
    }

    /** Forgets that an earlier run of the loop was told to end. */
    method Unbreak()
      requires Sound({})
      modifies this`eventBreak, this`eventGotterm
      ensures Sound({}) && View() == old(View()).(breaks := false) && !eventGotterm
    {
      hide Fine, IntervalsOk, TimeHeap.Valid;
      FineControl(View(), View().(breaks := false), {});
      IntervalsSame(View(), View().(breaks := false));
      eventBreak, eventGotterm := false, false;
    }

    /** What the loop returns if it ends before anything is dispatched. */
    ghost function Goes(flags: LoopFlags, virtualEventCount: nat): Option<int>
      reads this
    {
      if eventGotterm || eventBreak then Some(0)
      else if !flags.noExitOnEmpty && virtualEventCount == 0 && Idle() then Some(1)
      else None
    }

    /** The part of a round in which callbacks are run. */
    method RunRound(flags: LoopFlags, time: int, dispatched: bool, ready: seq<Action>, script: nat -> seq<Action>, ioOk: nat -> bool,
                    fuel: nat, ghost orderly: bool)
        returns (retval: Option<int>, n: int, ran: bool, stopped: bool, ghost log: seq<Start>, ghost round: Round)
      requires Sound({}) && Plays(View(), script) && AllAllowed(View(), ready) && eventRunningPriority == -1 && !eventContinue
      requires orderly ==> PlaysOrderly(script) && AllOrderly(ready) && InternalFirst(info) && maxDispatchCallbacks >= 1
      modifies this, timeheap
      ensures Sound({}) && eventRunningPriority == -1 && SameBase(old(View()), View())
      ensures retval == if !dispatched then Some(-1)
                        else if !stopped && (if ran then flags.once && n != 0 && Quiet() else flags.nonblock) then Some(0) else None
      ensures !ran ==> log == [] && (dispatched ==> Quiet())
      ensures dispatched ==> Passes(old(View()), round, time, ready) && Completes(round, ran, log, View(), script, ioOk)
      ensures !dispatched ==> Promoted(old(View()), View(), old(|activeLaterQueue|)) && !ran
      ensures orderly ==> AllInTurn(log)
    {
      hide Fine, IntervalsOk, TimeHeap.Valid, AllAllowed, AllOrderly, AllInTurn, InternalFirst, Plays, StandInActive, Promoted, Quiet, Passes,
           Completes, Replays;
      InTurnNone();
      ghost var b := View();
      retval, n, ran, stopped, log, round := None, 0, false, false, [], Round(b, b, b, []);
      MakeLaterEventsActive();
      PromotedBase(b, View(), |b.later|);
      if !dispatched {
        retval := Some(-1);
        return;
      }
      round := TakeIn(time, ready, orderly, b);
      FineIsCore(View(), {});
      QuietWhenCountIsZero();
      if eventCountActive != 0 {
        ran := true;
        var k;
        PlaysSame(b, View(), script);
        n, k, stopped, log := ProcessActive(script, ioOk, 0, fuel, orderly, false);
        FineIsCore(View(), {});
        QuietWhenCountIsZero();
        if !stopped && flags.once && eventCountActive == 0 && n != 0 {
          retval := Some(0);
        }
      } else if flags.nonblock {
        retval := Some(0);
      }
      RoundCompletes(round, ran, log, View(), script, ioOk);
    }

    lemma RoundCompletes(round: Round, ran: bool, log: seq<Start>, b: Base, script: nat -> seq<Action>, ioOk: nat -> bool)
      requires if ran then Replays(round.expired, log, b, script, ioOk, 0) else log == [] && b == round.expired
      ensures Completes(round, ran, log, b, script, ioOk)
    {}

    /** Lets happen what the backend has found, and lets time out whatever is due in the heap. */
    method TakeIn(time: int, ready: seq<Action>, ghost orderly: bool, ghost b: Base) returns (ghost round: Round)
      requires Sound({}) && AllAllowed(b, ready) && SameBase(b, View()) && Promoted(b, View(), |b.later|) && eventRunningPriority == -1
      requires orderly ==> AllOrderly(ready) && !eventContinue
      modifies this, timeheap
      ensures Sound({}) && SameBase(old(View()), View())
      ensures Passes(b, round, time, ready) && View() == round.expired
      ensures orderly ==> !eventContinue
    {
      hide Fine, IntervalsOk, TimeHeap.Valid, AllAllowed, AllOrderly, Promoted, Acts, Fires, InOrderOfTime;
      ghost var promoted := View();
      Wake(time);
      AllAllowedSame(b, View(), ready);
      RunScript(ready, orderly, false);
      ghost var happened := View();
      ghost var fired := TimeoutProcess();
      round := Round(promoted, happened, View(), fired);
    }
  }
}
