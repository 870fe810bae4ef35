/** What the calls on an event base do to it. */
module EventCalls {
  import opened Lists
  import opened Options
  import opened EventQueues
  import opened EventOps

  const MAX_DEFERREDS_QUEUED := 32

  function With(b: Base, e: nat, s: State): (b': Base)
    requires Has(b, e)
    ensures Has(b', e) && SameRound(b, b')
  {
    b.(st := b.st[e := s])
  }

  lemma WithShape(b: Base, e: nat, s: State)
    requires Has(b, e)
    ensures With(b, e, s).st == b.st[e := s]
  {}

  function OffTimers(b: Base, e: nat): (b': Base)
    requires Has(b, e)
    ensures Has(b', e) && SameRound(b, b')
  {
    if b.st[e].timeout then RemoveTimeout(b, e) else b
  }

  function OffActive(b: Base, e: nat): (b': Base)
    requires Has(b, e)
    ensures Has(b', e) && SameRound(b, b')
  {
    if b.st[e].active then RemoveActive(b, e) else if b.st[e].later then RemoveLater(b, e) else b
  }

  function OffBackend(b: Base, e: nat): (b': Base)
    requires Has(b, e)
    ensures Has(b', e) && SameRound(b, b')
  {
    if b.st[e].inserted then RemoveInserted(b, e) else b
  }

  /** Deletes an event: takes it off every queue. */
  function Del(b: Base, e: nat, evenIfFinalizing: bool): (b': Base)
    requires Has(b, e)
    ensures Has(b', e) && SameRound(b, b')
  {
    if b.info[e].finalizing && !evenIfFinalizing then b else OffBackend(OffActive(OffTimers(b, e), e), e)
  }

  /** Gets the event ready to be put on a tier of timers: off its old one, and not active because of it. */
  function Unset(b: Base, e: nat, deadline: Timeval): (b': Base)
    requires Has(b, e)
    ensures Has(b', e) && SameRound(b, b')
  {
    var b1 := OffTimers(b, e);
    var b2 := if b1.st[e].active && b1.st[e].timedOut then RemoveActive(b1, e) else b1;
    With(b2, e, b2.st[e].(deadline := deadline))
  }

  function Deadline(b: Base, tv: Timeval, absolute: bool): Timeval {
    if absolute then tv else Timeval(b.now + tv.usec, tv.queue)
  }

  /** Lets the event time out at a new time. */
  function SetTimer(b: Base, e: nat, tv: Timeval, absolute: bool): (b': Base)
    requires Has(b, e)
    ensures Has(b', e) && SameRound(b, b')
  {
    InsertTimeout(Unset(b, e, Deadline(b, tv, absolute)), e)
  }

  /** Lets the stand-in of a queue time out when the queue's head does. */
  function ScheduleCommon(b: Base, c: nat): (b': Base)
    requires c < |b.ctls| == |b.timers| && Has(b, b.timers[c]) && b.ctls[c] != [] && b.ctls[c][0] < |b.st|
    ensures SameRound(b, b')
  {
    SetTimer(b, b.timers[c], Timeval(b.st[b.ctls[c][0]].deadline.usec, None), true)
  }

  ghost predicate Headed(b: Base, c: nat, e: nat) {
    c < |b.ctls| == |b.timers| && b.ctls[c] != [] && b.ctls[c][0] == e && Has(b, b.timers[c])
  }

  function NewInterval(b: Base, e: nat, tv: Timeval, absolute: bool): (b': Base)
    requires Has(b, e)
    ensures Has(b', e) && SameRound(b, b')
  {
    if b.info[e].persist && !absolute then With(b, e, b.st[e].(interval := tv)) else b
  }

  /** The part of adding an event that sets its timeout. */
  ghost function AddTimeout(b: Base, e: nat, tv: Timeval, absolute: bool): (b': Base)
    requires Has(b, e)
    ensures Has(b', e) && SameRound(b, b')
  {
    var b1 := SetTimer(NewInterval(b, e, tv, absolute), e, tv, absolute);
    if tv.queue.Some? && Headed(b1, tv.queue.value, e) then ScheduleCommon(b1, tv.queue.value) else b1
  }

  /** Adds an event: registers it with the backend, which may fail, and sets its timeout. */
  ghost function Add(b: Base, e: nat, tv: Option<Timeval>, absolute: bool, ioOk: bool): (r: (int, Base))
    requires Has(b, e)
    ensures Has(r.1, e) && SameRound(b, r.1)
  {
    if b.info[e].finalizing then (-1, b) else
    var s := b.st[e];
    var io := b.info[e].io && !s.inserted && !s.active && !s.later;
    if io && !ioOk then (-1, b) else
    var b1 := if io then InsertInserted(b, e) else b;
    (0, if tv == None then b1 else AddTimeout(b1, e, tv.value, absolute))
  }

  /** Makes a callback active; the result tells whether it was on neither queue before. */
  function Activate(b: Base, e: nat): (r: (int, Base))
    requires Has(b, e)
    ensures Has(r.1, e) && SameRound(b, r.1)
  {
    if b.info[e].finalizing || b.st[e].active then (0, b)
    else if b.st[e].later then (0, InsertActive(RemoveLater(b, e), e))
    else (1, InsertActive(b, e))
  }

  function ActivateLater(b: Base, e: nat): (r: (int, Base))
    requires Has(b, e)
    ensures Has(r.1, e) && SameRound(b, r.1)
  {
    if b.st[e].active || b.st[e].later then (0, b) else (1, InsertLater(b, e))
  }

  /** Activates an event.  If it goes before the queue that is running, the dispatcher has to start over. */
  function ActivateEvent(b: Base, e: nat, timedOut: bool): (b': Base)
    requires Has(b, e)
    ensures Has(b', e) && SameSetup(b, b')
  {
    var s := b.st[e];
    if b.info[e].finalizing then b
    else if s.active then With(b, e, s.(timedOut := s.timedOut || timedOut))
    else
      var b1 := With(b, e, s.(timedOut := (s.later && s.timedOut) || timedOut));
      Activate(b1.(continues := b1.continues || b1.info[e].pri < b1.running), e).1
  }

  function ActivateEventLater(b: Base, e: nat, timedOut: bool): (b': Base)
    requires Has(b, e)
    ensures Has(b', e) && SameRound(b, b')
  {
    var s := b.st[e];
    if s.active || s.later then With(b, e, s.(timedOut := s.timedOut || timedOut))
    else ActivateLater(With(b, e, s.(timedOut := timedOut)), e).1
  }

  function Cancel(b: Base, e: nat, evenIfFinalizing: bool): (b': Base)
    requires Has(b, e)
    ensures Has(b', e) && SameRound(b, b')
  {
    if b.info[e].finalizing && !evenIfFinalizing then b
    else if b.info[e].isEvent then Del(b, e, evenIfFinalizing)
    else if b.st[e].active then RemoveActive(b, e)
    else if b.st[e].later then RemoveLater(b, e)
    else b
  }

  /** Queues a deferred callback: to be run at once, or in the next round when too many have been queued in this one. */
  function ScheduleDeferred(b: Base, e: nat): (r: (int, Base))
    requires Has(b, e)
    ensures Has(r.1, e) && SameSetup(b, r.1)
  {
    if b.nDeferreds > MAX_DEFERREDS_QUEUED then ActivateLater(b, e)
    else
      var (r, b1) := Activate(b, e);
      (r, if r != 0 then b1.(nDeferreds := b1.nDeferreds + 1) else b1)
  }

  /** When a persistent event is due again. */
  function NextRun(s: State, now: int): int {
    var from := if s.timedOut then s.deadline.usec else now;
    if from + s.interval.usec < now then now + s.interval.usec else from + s.interval.usec
  }

  predicate HasInterval(s: State) {
    s.interval.usec != 0 || s.interval.queue.Some?
  }

  /** Adds a persistent event again, just before its callback is run. */
  ghost function Rearm(b: Base, e: nat, ioOk: bool): (b': Base)
    requires Has(b, e)
    ensures Has(b', e) && SameRound(b, b')
  {
    if HasInterval(b.st[e]) then Add(b, e, Some(Timeval(NextRun(b.st[e], b.now), b.st[e].interval.queue)), true, ioOk).1
    else b
  }

  // Every call keeps the invariant

  /** The interval of a persistent event names the same queue as its deadline. */
  ghost predicate IntervalsOk(b: Base) {
    && |b.info| == |b.st|
    && forall e :: 0 <= e < |b.st| && b.info[e].persist && HasInterval(b.st[e]) ==>
         b.st[e].interval.queue == b.st[e].deadline.queue && Tagged(b, b.st[e].interval)
  }

  /** The time is tagged with no queue or with one that exists. */
  predicate Tagged(b: Base, tv: Timeval) {
    tv.queue.Some? ==> tv.queue.value < |b.ctls|
  }

  /** The invariant of the event base; the callbacks of the stand-ins in `running` have yet to set them again. */
  ghost predicate Fine(b: Base, running: set<nat>) {
    Core(b) && Wakes(b, running)
  }

  lemma IntervalsSame(b: Base, b': Base)
    requires IntervalsOk(b) && b'.info == b.info && |b'.st| == |b.st| && |b'.ctls| == |b.ctls|
    requires forall e :: 0 <= e < |b.st| && b.info[e].persist ==>
               b'.st[e].deadline == b.st[e].deadline && b'.st[e].interval == b.st[e].interval
    ensures IntervalsOk(b')
  {}

  lemma FineRemoveInserted(b: Base, e: nat, running: set<nat>)
    requires Fine(b, running) && Has(b, e) && b.st[e].inserted
    ensures Fine(RemoveInserted(b, e), running)
  {
    hide Core, Wakes;
    RemoveInsertedKeeps(b, e);
    SameTimersWakes(b, RemoveInserted(b, e), e, b.st[e].(inserted := false), running);
  }

  lemma FineInsertInserted(b: Base, e: nat, running: set<nat>)
    requires Fine(b, running) && Has(b, e) && !b.st[e].inserted && b.info[e].isEvent && b.info[e].io && !b.info[e].finalizing
    ensures Fine(InsertInserted(b, e), running)
  {
    hide Core, Wakes;
    InsertInsertedKeeps(b, e);
    SameTimersWakes(b, InsertInserted(b, e), e, b.st[e].(inserted := true), running);
  }

  lemma FineRemoveActive(b: Base, e: nat, running: set<nat>)
    requires Fine(b, running) && Has(b, e) && b.st[e].active && (IsTimer(b.timers, e) ==> e in running)
    ensures Fine(RemoveActive(b, e), running)
  {
    hide Core, Wakes, Remove;
    RemoveActiveKeeps(b, e);
    SameTimersWakes(b, RemoveActive(b, e), e, b.st[e].(active := false), running);
  }

  lemma FineInsertActive(b: Base, e: nat, running: set<nat>)
    requires Fine(b, running) && Has(b, e) && !b.st[e].active && !b.st[e].later
    ensures Fine(InsertActive(b, e), running)
  {
    hide Core, Wakes;
    InsertActiveKeeps(b, e);
    SameTimersWakes(b, InsertActive(b, e), e, b.st[e].(active := true), running);
  }

  lemma FineRemoveLater(b: Base, e: nat, running: set<nat>)
    requires Fine(b, running) && Has(b, e) && b.st[e].later
    ensures Fine(RemoveLater(b, e), running)
  {
    hide Core, Wakes, Remove;
    RemoveLaterKeeps(b, e);
    SameTimersWakes(b, RemoveLater(b, e), e, b.st[e].(later := false), running);
  }

  lemma FineInsertLater(b: Base, e: nat, running: set<nat>)
    requires Fine(b, running) && Has(b, e) && !b.st[e].active && !b.st[e].later && !IsTimer(b.timers, e)
    ensures Fine(InsertLater(b, e), running)
  {
    hide Core, Wakes;
    InsertLaterKeeps(b, e);
    SameTimersWakes(b, InsertLater(b, e), e, b.st[e].(later := true), running);
  }

  lemma FineRemoveTimeout(b: Base, e: nat, running: set<nat>)
    requires Fine(b, running) && Has(b, e) && b.st[e].timeout && (IsTimer(b.timers, e) ==> e in running)
    ensures Fine(RemoveTimeout(b, e), running)
  {
    hide Core, Wakes, RemoveTimeout;
    RemoveTimeoutKeeps(b, e);
    RemoveTimeoutShape(b, e);
    RemoveTimeoutWakes(b, e, running);
  }

  lemma OffTimersKeeps(b: Base, e: nat, running: set<nat>)
    requires Fine(b, running) && Has(b, e) && (IsTimer(b.timers, e) ==> e in running)
    ensures Fine(OffTimers(b, e), running) && OffTimers(b, e).st == b.st[e := b.st[e].(timeout := false)]
  {
    hide Fine, RemoveTimeout;
    StepShapes(b, e);
    if b.st[e].timeout {
      FineRemoveTimeout(b, e, running);
    }
  }

  lemma OffActiveKeeps(b: Base, e: nat, running: set<nat>)
    requires Fine(b, running) && Has(b, e) && (IsTimer(b.timers, e) ==> e in running)
    ensures Fine(OffActive(b, e), running) && OffActive(b, e).st == b.st[e := b.st[e].(active := false, later := false)]
  {
    hide Fine, RemoveActive, RemoveLater;
    Exclusive(b, e, running);
    StepShapes(b, e);
    if b.st[e].active {
      FineRemoveActive(b, e, running);
    } else if b.st[e].later {
      FineRemoveLater(b, e, running);
    }
  }

  lemma OffBackendKeeps(b: Base, e: nat, running: set<nat>)
    requires Fine(b, running) && Has(b, e)
    ensures Fine(OffBackend(b, e), running) && OffBackend(b, e).st == b.st[e := b.st[e].(inserted := false)]
  {
    hide Fine, RemoveInserted;
    StepShapes(b, e);
    if b.st[e].inserted {
      FineRemoveInserted(b, e, running);
    }
  }

  /** Deleting an event leaves it on no queue, unless it is being finalized, and changes no other event. */
  lemma DelKeeps(b: Base, e: nat, evenIfFinalizing: bool, running: set<nat>)
    requires Fine(b, running) && Has(b, e) && (IsTimer(b.timers, e) ==> e in running)
    ensures Fine(Del(b, e, evenIfFinalizing), running)
    ensures Del(b, e, evenIfFinalizing).st ==
            if b.info[e].finalizing && !evenIfFinalizing then b.st
            else b.st[e := b.st[e].(inserted := false, timeout := false, active := false, later := false)]
  {
    hide Fine, OffTimers, OffActive, OffBackend;
    if !b.info[e].finalizing || evenIfFinalizing {
      OffTimersKeeps(b, e, running);
      OffActiveKeeps(OffTimers(b, e), e, running);
      OffBackendKeeps(OffActive(OffTimers(b, e), e), e, running);
    }
  }

  lemma Exclusive(b: Base, e: nat, running: set<nat>)
    requires Fine(b, running) && Has(b, e)
    ensures FlagOk(b.info[e], b.st[e])
  {
    hide ActiveOk, LaterOk, CountsOk, HeapOk, CommonOk, StandInsOk;
  }

  /** What the elementary steps do to the callback's state. */
  lemma StepShapes(b: Base, e: nat)
    requires Has(b, e)
    ensures RemoveInserted(b, e).st == b.st[e := b.st[e].(inserted := false)]
    ensures InsertInserted(b, e).st == b.st[e := b.st[e].(inserted := true)]
    ensures RemoveActive(b, e).st == b.st[e := b.st[e].(active := false)]
    ensures InsertActive(b, e).st == b.st[e := b.st[e].(active := true)]
    ensures RemoveLater(b, e).st == b.st[e := b.st[e].(later := false)]
    ensures InsertLater(b, e).st == b.st[e := b.st[e].(later := true)]
    ensures RemoveTimeout(b, e).st == b.st[e := b.st[e].(timeout := false)]
    ensures InsertTimeout(b, e).st == b.st[e := b.st[e].(timeout := true)]
  {}

  /** What those that have to do with a queue of callbacks do to the queues: each is first in, first out. */
  lemma StepQueues(b: Base, e: nat)
    requires Has(b, e)
    ensures InsertActive(b, e).queues == b.queues[b.info[e].pri := b.queues[b.info[e].pri] + [e]]
    ensures RemoveActive(b, e).queues == b.queues[b.info[e].pri := Remove(b.queues[b.info[e].pri], e)]
    ensures InsertLater(b, e).later == b.later + [e] && RemoveLater(b, e).later == Remove(b.later, e)
    ensures InsertActive(b, e).later == RemoveActive(b, e).later == b.later
    ensures InsertLater(b, e).queues == RemoveLater(b, e).queues == b.queues
  {}

  /** A new deadline for an event whose timeout is not set. */
  lemma FineDeadline(b: Base, e: nat, tv: Timeval, running: set<nat>)
    requires Fine(b, running) && Has(b, e) && !b.st[e].timeout && (IsTimer(b.timers, e) ==> tv.queue == None)
    ensures Fine(With(b, e, b.st[e].(deadline := tv)), running)
  {
    hide FlagsOk, ActiveOk, LaterOk, HeapOk, CommonOk, StandInsOk, WakesUp;
    var s := b.st[e].(deadline := tv);
    FlagsUpdate(b.info, b.st, e, s);
    ActiveSame(b.info, b.st, b.queues, e, s);
    LaterSame(b.st, b.later, e, s);
    HeapSame(b.st, b.at, e, s);
    CommonSame(b.st, b.ctls, e, s);
    WeightsUpdate(b.info, b.st, e, s);
    if IsTimer(b.timers, e) {
      TimerFacts(b, e);
    }
    StandInsSame(b, e, s);
    forall c | 0 <= c < |b.ctls|
      ensures WakesUp(b.st[e := s], b.timers[c], b.ctls[c], b.at, running)
    {
      DeadlineWakes(b, e, s, running, c);
    }
  }

  lemma DeadlineWakes(b: Base, e: nat, s: State, running: set<nat>, c: nat)
    requires Core(b) && e < |b.st| && !b.st[e].timeout && c < |b.ctls| && s == b.st[e].(deadline := s.deadline)
    requires WakesUp(b.st, b.timers[c], b.ctls[c], b.at, running)
    ensures WakesUp(b.st[e := s], b.timers[c], b.ctls[c], b.at, running)
  {
    hide FlagsOk, ActiveOk, LaterOk, CountsOk, HeapOk, CommonOk, StandInsOk;
    QueueFacts(b, c);
    if b.ctls[c] != [] {
      assert b.ctls[c][0] in b.ctls[c];
    }
  }

  lemma UnsetKeeps(b: Base, e: nat, d: Timeval, running: set<nat>)
    requires Fine(b, running) && Has(b, e) && (IsTimer(b.timers, e) ==> e in running && d.queue == None)
    ensures Fine(Unset(b, e, d), running)
    ensures var s := b.st[e];
            Unset(b, e, d).st == b.st[e := s.(timeout := false, active := s.active && !s.timedOut, deadline := d)]
  {
    hide Fine, OffTimers, RemoveActive;
    OffTimersKeeps(b, e, running);
    var b1 := OffTimers(b, e);
    StepShapes(b1, e);
    if b1.st[e].active && b1.st[e].timedOut {
      FineRemoveActive(b1, e, running);
      FineDeadline(RemoveActive(b1, e), e, d, running);
    } else {
      FineDeadline(b1, e, d, running);
    }
  }

  /** Resetting a stand-in leaves the head of its queue alone. */
  lemma UnsetHead(b: Base, e: nat, d: Timeval, c: nat, time: int)
    requires Core(b) && Has(b, e) && c < |b.ctls| && b.timers[c] == e && HeadNotBefore(b, c, time)
    ensures Unset(b, e, d).ctls == b.ctls && HeadNotBefore(Unset(b, e, d), c, time)
  {
    hide FlagsOk, ActiveOk, LaterOk, CountsOk, HeapOk, CommonOk, Remove;
    QueueFacts(b, c);
    TimerFacts(b, e);
    assert b.ctls[c][0] in b.ctls[c];
  }

  /** Setting a timeout in a common-timeout queue; if the event comes to head it, its stand-in has yet to be set. */
  lemma SetCommonKeeps(b: Base, e: nat, tv: Timeval, absolute: bool, running: set<nat>, c: nat)
    requires Fine(b, running) && Has(b, e) && b.info[e].isEvent && !b.info[e].finalizing && tv.queue == Some(c) && c < |b.ctls|
    requires !IsTimer(b.timers, e)
    ensures var b', s := SetTimer(b, e, tv, absolute), b.st[e];
            && Core(b') && |b.timers| == |b.ctls| && Wakes(b', running + {b.timers[c]})
            && b'.st == b.st[e := s.(timeout := true, active := s.active && !s.timedOut, deadline := Deadline(b, tv, absolute))]
            && (Headed(b', c, e) || Wakes(b', running))
  {
    hide Core, Wakes, Unset, InsertTimeout;
    var b3 := Unset(b, e, Deadline(b, tv, absolute));
    UnsetKeeps(b, e, Deadline(b, tv, absolute), running);
    InsertTimeoutKeeps(b3, e);
    StepShapes(b3, e);
    InsertCommonWakes(b3, e, running, c);
    TimerCount(b3);
  }

  /** Setting a timeout in the heap; a stand-in due no later than its queue's head wakes the loop up. */
  lemma SetPlainKeeps(b: Base, e: nat, tv: Timeval, absolute: bool, running: set<nat>)
    requires Fine(b, running) && Has(b, e) && b.info[e].isEvent && !b.info[e].finalizing && tv.queue == None
    requires IsTimer(b.timers, e) ==> e in running
    ensures var b', s := SetTimer(b, e, tv, absolute), b.st[e];
            && Fine(b', running)
            && b'.st == b.st[e := s.(timeout := true, active := s.active && !s.timedOut, deadline := Deadline(b, tv, absolute))]
    ensures forall c :: 0 <= c < |b.ctls| == |b.timers| && b.timers[c] == e && absolute && HeadNotBefore(b, c, tv.usec) ==>
              Fine(SetTimer(b, e, tv, absolute), running - {e})
  {
    hide Core, Wakes, Unset, InsertTimeout, HeadNotBefore;
    var b3 := Unset(b, e, Deadline(b, tv, absolute));
    UnsetKeeps(b, e, Deadline(b, tv, absolute), running);
    InsertTimeoutKeeps(b3, e);
    StepShapes(b3, e);
    InsertPlainWakes(b3, e, running);
    forall c | 0 <= c < |b.ctls| == |b.timers| && b.timers[c] == e && absolute && HeadNotBefore(b, c, tv.usec)
      ensures Wakes(SetTimer(b, e, tv, absolute), running - {e})
    {
      UnsetHead(b, e, tv, c, tv.usec);
    }
  }

  lemma TimerCount(b: Base)
    requires Core(b)
    ensures |b.timers| == |b.ctls| && forall c :: 0 <= c < |b.timers| ==> Has(b, b.timers[c]) && IsTimer(b.timers, b.timers[c])
  {
    hide FlagsOk, LaterOk, CountsOk, HeapOk, CommonOk;
  }

  lemma FineInterval(b: Base, e: nat, tv: Timeval, absolute: bool, running: set<nat>)
    requires Fine(b, running) && Has(b, e)
    ensures Fine(NewInterval(b, e, tv, absolute), running)
  {
    hide FlagsOk, ActiveOk, LaterOk, HeapOk, CommonOk, StandInsOk, Wakes;
    var s := b.st[e].(interval := tv);
    FlagsUpdate(b.info, b.st, e, s);
    SameQueues(b, e, s);
    WeightsUpdate(b.info, b.st, e, s);
    if b.info[e].persist && !absolute {
      SameTimersWakes(b, With(b, e, s), e, s, running);
    }
  }

  /** No callback but `e` and the stand-ins is any different, and no stand-in has been made active. */
  ghost predicate OthersSame(b: Base, b': Base, e: nat) {
    && |b'.st| == |b.st|
    && (forall x :: 0 <= x < |b.st| && x != e && !IsTimer(b.timers, x) ==> b'.st[x] == b.st[x])
    && (forall x :: 0 <= x < |b.st| && x != e && b'.st[x].active ==> b.st[x].active)
  }

  lemma AddTimeoutKeeps(b: Base, e: nat, tv: Timeval, absolute: bool, running: set<nat>)
    requires Fine(b, running) && Has(b, e) && b.info[e].isEvent && !b.info[e].finalizing && Tagged(b, tv) && !IsTimer(b.timers, e)
    ensures Fine(AddTimeout(b, e, tv, absolute), running) && OthersSame(b, AddTimeout(b, e, tv, absolute), e)
    ensures var s := b.st[e];
            AddTimeout(b, e, tv, absolute).st[e] ==
              s.(timeout := true, active := s.active && !s.timedOut,
                 deadline := if absolute then tv else Timeval(b.now + tv.usec, tv.queue),
                 interval := if b.info[e].persist && !absolute then tv else s.interval)
  {
    hide Core, Wakes, SetTimer;
    var b0 := NewInterval(b, e, tv, absolute);
    FineInterval(b, e, tv, absolute, running);
    match tv.queue {
      case None =>
        SetPlainKeeps(b0, e, tv, absolute, running);
      case Some(c) =>
        SetCommonKeeps(b0, e, tv, absolute, running, c);
        var b1 := SetTimer(b0, e, tv, absolute);
        if Headed(b1, c, e) {
          ScheduleKeeps(b1, c, running);
        }
    }
  }

  /** Setting a queue's stand-in again makes up for the queue's new head. */
  lemma ScheduleKeeps(b: Base, c: nat, running: set<nat>)
    requires Core(b) && c < |b.ctls| == |b.timers| && b.ctls[c] != [] && b.ctls[c][0] < |b.st|
    requires Wakes(b, running + {b.timers[c]})
    ensures Has(b, b.timers[c]) && Fine(ScheduleCommon(b, c), running)
    ensures var t, s := b.timers[c], b.st[b.timers[c]];
            && ScheduleCommon(b, c).st == b.st[t := s.(timeout := true, active := s.active && !s.timedOut,
                                                       deadline := Timeval(b.st[b.ctls[c][0]].deadline.usec, None))]
            && IsTimer(b.timers, t)
  {
    hide Core, Wakes, SetTimer;
    var t := b.timers[c];
    TimerCount(b);
    TimerFacts(b, t);
    SetPlainKeeps(b, t, Timeval(b.st[b.ctls[c][0]].deadline.usec, None), true, running + {t});
    WakesFewer(ScheduleCommon(b, c), running, running + {t} - {t});
  }

  /** Adding an event keeps the invariant; a failure changes nothing. */
  lemma AddKeeps(b: Base, e: nat, tv: Option<Timeval>, absolute: bool, ioOk: bool, running: set<nat>)
    requires Fine(b, running) && Has(b, e) && b.info[e].isEvent && !IsTimer(b.timers, e)
    requires tv.Some? ==> Tagged(b, tv.value)
    ensures var (r, b') := Add(b, e, tv, absolute, ioOk);
            var io := b.info[e].io && !b.st[e].inserted && !b.st[e].active && !b.st[e].later;
            && Fine(b', running) && OthersSame(b, b', e)
            && r == (if b.info[e].finalizing || (io && !ioOk) then -1 else 0)
            && (r == -1 ==> b' == b)
            && (r == 0 && tv == None ==> b'.st[e] == b.st[e].(inserted := b.st[e].inserted || io))
            // a timeout that is not absolute counts from now
            && (r == 0 && tv.Some? ==>
                  var s := b.st[e];
                  b'.st[e] == s.(inserted := s.inserted || io, timeout := true, active := s.active && !s.timedOut,
                                 deadline := if absolute then tv.value else Timeval(b.now + tv.value.usec, tv.value.queue),
                                 interval := if b.info[e].persist && !absolute then tv.value else s.interval))
  {
    hide Fine, AddTimeout, InsertInserted;
    var s := b.st[e];
    var io := b.info[e].io && !s.inserted && !s.active && !s.later;
    if b.info[e].finalizing || (io && !ioOk) {
      return;
    }
    var b1 := if io then InsertInserted(b, e) else b;
    if io {
      FineInsertInserted(b, e, running);
    }
    StepShapes(b, e);
    if tv.Some? {
      AddTimeoutKeeps(b1, e, tv.value, absolute, running);
    }
  }

  /** What the dispatcher keeps for itself is no part of the invariant. */
  lemma FineControl(b: Base, b': Base, running: set<nat>)
    requires Fine(b, running) && b' == b.(continues := b'.continues, nDeferreds := b'.nDeferreds, breaks := b'.breaks, running := b'.running, now := b'.now)
    ensures Fine(b', running)
  {
    hide FlagsOk, ActiveOk, LaterOk, CountsOk, HeapOk, CommonOk, StandInsOk, WakesUp;
  }

  lemma FineResult(b: Base, e: nat, timedOut: bool, running: set<nat>)
    requires Fine(b, running) && Has(b, e)
    ensures Fine(With(b, e, b.st[e].(timedOut := timedOut)), running)
  {
    hide FlagsOk, ActiveOk, LaterOk, HeapOk, CommonOk, StandInsOk, Wakes;
    var s := b.st[e].(timedOut := timedOut);
    FlagsUpdate(b.info, b.st, e, s);
    SameQueues(b, e, s);
    WeightsUpdate(b.info, b.st, e, s);
    SameTimersWakes(b, With(b, e, s), e, s, running);
  }

  /** Activating a callback puts it on its active queue, and only there, unless it is being finalized. */
  lemma ActivateKeeps(b: Base, e: nat, running: set<nat>)
    requires Fine(b, running) && Has(b, e)
    ensures var (r, b') := Activate(b, e);
            && Fine(b', running)
            && r == (if b.info[e].finalizing || b.st[e].active || b.st[e].later then 0 else 1)
            && b'.st == (if b.info[e].finalizing then b.st else b.st[e := b.st[e].(active := true, later := false)])
            // it is the last one of its queue
            && b'.queues == (if b.info[e].finalizing || b.st[e].active then b.queues
                             else b.queues[b.info[e].pri := b.queues[b.info[e].pri] + [e]])
            && b'.later == (if !b.info[e].finalizing && b.st[e].later then Remove(b.later, e) else b.later)
  {
    hide Fine, InsertActive, RemoveLater, Remove;
    StepQueues(b, e);
    StepQueues(RemoveLater(b, e), e);
    Exclusive(b, e, running);
    StepShapes(b, e);
    if b.info[e].finalizing || b.st[e].active {
    } else if b.st[e].later {
      FineRemoveLater(b, e, running);
      FineInsertActive(RemoveLater(b, e), e, running);
      StepShapes(RemoveLater(b, e), e);
    } else {
      FineInsertActive(b, e, running);
    }
  }

  lemma ActivateLaterKeeps(b: Base, e: nat, running: set<nat>)
    requires Fine(b, running) && Has(b, e) && !IsTimer(b.timers, e)
    ensures var (r, b') := ActivateLater(b, e);
            && Fine(b', running)
            && r == (if b.st[e].active || b.st[e].later then 0 else 1)
            && b'.st == b.st[e := b.st[e].(later := !b.st[e].active)]
            && b'.queues == b.queues && b'.later == (if r == 1 then b.later + [e] else b.later)
  {
    hide Fine, InsertLater;
    StepQueues(b, e);
    Exclusive(b, e, running);
    StepShapes(b, e);
    if !b.st[e].active && !b.st[e].later {
      FineInsertLater(b, e, running);
    }
  }

  /** An event that is active already gets one more reason to be. */
  lemma ActivateAgainKeeps(b: Base, e: nat, timedOut: bool, running: set<nat>)
    requires Fine(b, running) && Has(b, e) && !b.info[e].finalizing && b.st[e].active
    ensures var b', s := ActivateEvent(b, e, timedOut), b.st[e];
            && Fine(b', running) && !s.later && b'.continues == b.continues
            && b'.st == b.st[e := s.(timedOut := timedOut || s.timedOut)]
  {
    hide Fine, Activate;
    Exclusive(b, e, running);
    FineResult(b, e, b.st[e].timedOut || timedOut, running);
  }

  /** Any other event gets its first reason, or one more if it was to be active in the next round. */
  lemma ActivateFirstKeeps(b: Base, e: nat, timedOut: bool, running: set<nat>)
    requires Fine(b, running) && Has(b, e) && !b.info[e].finalizing && !b.st[e].active
    ensures var b', s := ActivateEvent(b, e, timedOut), b.st[e];
            && Fine(b', running) && b'.continues == (b.continues || b.info[e].pri < b.running)
            && b'.st == b.st[e := s.(active := true, later := false, timedOut := timedOut || (s.later && s.timedOut))]
  {
    hide Fine, Activate, With;
    var s := b.st[e];
    WithShape(b, e, s.(timedOut := (s.later && s.timedOut) || timedOut));
    FineResult(b, e, (s.later && s.timedOut) || timedOut, running);
    var b1 := With(b, e, s.(timedOut := (s.later && s.timedOut) || timedOut));
    var b2 := b1.(continues := b1.continues || b1.info[e].pri < b1.running);
    FineControl(b1, b2, running);
    ActivateKeeps(b2, e, running);
  }

  /** Activating an event keeps the invariant, and makes the dispatcher start over if the event goes before what it is running. */
  lemma ActivateEventKeeps(b: Base, e: nat, timedOut: bool, running: set<nat>)
    requires Fine(b, running) && Has(b, e)
    ensures var b', s := ActivateEvent(b, e, timedOut), b.st[e];
            && Fine(b', running)
            && b'.st == (if b.info[e].finalizing then b.st else
                         b.st[e := s.(active := true, later := false, timedOut := timedOut || ((s.active || s.later) && s.timedOut))])
            && b'.continues == (b.continues || (!b.info[e].finalizing && !s.active && b.info[e].pri < b.running))
  {
    hide Fine, Activate;
    if !b.info[e].finalizing {
      if b.st[e].active {
        ActivateAgainKeeps(b, e, timedOut, running);
      } else {
        ActivateFirstKeeps(b, e, timedOut, running);
      }
    }
  }

  lemma ActivateEventLaterKeeps(b: Base, e: nat, timedOut: bool, running: set<nat>)
    requires Fine(b, running) && Has(b, e) && !IsTimer(b.timers, e)
    ensures var b', s := ActivateEventLater(b, e, timedOut), b.st[e];
            && Fine(b', running)
            && b'.st == b.st[e := s.(later := !s.active, timedOut := timedOut || ((s.active || s.later) && s.timedOut))]
  {
    hide Fine;
    var s := b.st[e];
    Exclusive(b, e, running);
    if s.active || s.later {
      FineResult(b, e, s.timedOut || timedOut, running);
    } else {
      FineResult(b, e, timedOut, running);
      ActivateLaterKeeps(With(b, e, s.(timedOut := timedOut)), e, running);
    }
  }

  /** A cancelled callback is on no queue, unless it is being finalized. */
  lemma CancelKeeps(b: Base, e: nat, evenIfFinalizing: bool, running: set<nat>)
    requires Fine(b, running) && Has(b, e) && !IsTimer(b.timers, e)
    ensures Fine(Cancel(b, e, evenIfFinalizing), running)
    ensures Cancel(b, e, evenIfFinalizing).st ==
            if b.info[e].finalizing && !evenIfFinalizing then b.st
            else b.st[e := b.st[e].(inserted := false, timeout := false, active := false, later := false)]
  {
    hide Fine, Del, RemoveActive, RemoveLater;
    Exclusive(b, e, running);
    StepShapes(b, e);
    if b.info[e].finalizing && !evenIfFinalizing {
    } else if b.info[e].isEvent {
      DelKeeps(b, e, evenIfFinalizing, running);
    } else if b.st[e].active {
      FineRemoveActive(b, e, running);
    } else if b.st[e].later {
      FineRemoveLater(b, e, running);
    }
  }

  /** A callback that is scheduled while no more than 32 have been goes to the end of its active queue, and any other one to
      the end of the queue for the next round. */
  lemma ScheduleDeferredKeeps(b: Base, e: nat, running: set<nat>)
    requires Fine(b, running) && Has(b, e) && !IsTimer(b.timers, e)
    ensures var (r, b'), s := ScheduleDeferred(b, e), b.st[e];
            && Fine(b', running)
            && r == (if s.active || s.later || (b.nDeferreds <= 32 && b.info[e].finalizing) then 0 else 1)
            && b'.nDeferreds == (if b.nDeferreds <= 32 then b.nDeferreds + r else b.nDeferreds)
            && b'.st == (if b.nDeferreds > 32 then b.st[e := s.(later := !s.active)]
                         else if b.info[e].finalizing then b.st
                         else b.st[e := s.(active := true, later := false)])
            && b'.queues == (if b.nDeferreds > 32 || b.info[e].finalizing || s.active then b.queues
                             else b.queues[b.info[e].pri := b.queues[b.info[e].pri] + [e]])
            && b'.later == (if b.nDeferreds > 32 then (if r == 1 then b.later + [e] else b.later)
                            else if !b.info[e].finalizing && s.later then Remove(b.later, e) else b.later)
  {
    hide Fine, Activate, ActivateLater, Remove;
    if b.nDeferreds > MAX_DEFERREDS_QUEUED {
      ActivateLaterKeeps(b, e, running);
    } else {
      ActivateKeeps(b, e, running);
      var (r, b1) := Activate(b, e);
      if r != 0 {
        FineControl(b1, b1.(nDeferreds := b1.nDeferreds + 1), running);
      }
    }
  }

  /** A persistent event runs again one interval after it was due, or, if it was not run for its timeout or that time is over
      already, one interval from now. */
  lemma RearmKeeps(b: Base, e: nat, ioOk: bool, running: set<nat>)
    requires Fine(b, running) && IntervalsOk(b) && Has(b, e) && b.info[e].isEvent && b.info[e].persist && !IsTimer(b.timers, e)
    ensures Fine(Rearm(b, e, ioOk), running) && OthersSame(b, Rearm(b, e, ioOk), e)
    ensures IntervalsOk(Rearm(b, e, ioOk))
    ensures var b', s := Rearm(b, e, ioOk), b.st[e];
            var fails := b.info[e].finalizing || (b.info[e].io && !s.inserted && !s.active && !s.later && !ioOk);
            if (s.interval.usec == 0 && s.interval.queue == None) || fails then b' == b
            else b'.st[e].timeout && b'.st[e].active == (s.active && !s.timedOut) && b'.st[e].interval == s.interval && b'.st[e].deadline.queue == s.interval.queue
                 && b'.st[e].deadline.usec == if s.timedOut && s.deadline.usec + s.interval.usec >= b.now
                                              then s.deadline.usec + s.interval.usec
                                              else b.now + s.interval.usec
  {
    hide Fine, Add;
    if HasInterval(b.st[e]) {
      var tv := Timeval(NextRun(b.st[e], b.now), b.st[e].interval.queue);
      AddKeeps(b, e, Some(tv), true, ioOk, running);
      AddIntervals(b, e, Some(tv), true, ioOk, running);
    }
  }

  /** After a successful addition the interval names the queue of the deadline. */
  lemma AddIntervals(b: Base, e: nat, tv: Option<Timeval>, absolute: bool, ioOk: bool, running: set<nat>)
    requires Fine(b, running) && IntervalsOk(b) && Has(b, e) && b.info[e].isEvent && !IsTimer(b.timers, e)
    requires tv.Some? ==> Tagged(b, tv.value)
    requires tv.Some? && absolute && b.info[e].persist && HasInterval(b.st[e]) ==> tv.value.queue == b.st[e].interval.queue
    ensures IntervalsOk(Add(b, e, tv, absolute, ioOk).1)
  {
    hide Add, HeapOk, CommonOk, FlagsOk, ActiveOk, LaterOk, CountsOk;
    AddKeeps(b, e, tv, absolute, ioOk, running);
    TimersArePlain(b);
  }

  lemma TimersArePlain(b: Base)
    requires Core(b)
    ensures forall x :: 0 <= x < |b.st| && IsTimer(b.timers, x) ==> !b.info[x].persist
  {
    hide HeapOk, CommonOk, FlagsOk, ActiveOk, LaterOk, CountsOk;
  }
}
