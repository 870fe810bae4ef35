/** The state of an event base, and what each of its elementary steps does to it. */
module EventOps {
  import opened Lists
  import opened Options
  import opened EventQueues

  /** An event base: its callbacks, its active queues and counters, the heap and the queues of its timers,
      and what the dispatcher keeps while it runs. */
  datatype Base = Base(info: seq<Info>, st: seq<State>, queues: seq<seq<nat>>, later: seq<nat>,
                       count: int, countActive: int, at: map<nat, int>, timers: seq<nat>, ctls: seq<seq<nat>>,
                       nDeferreds: int, continues: bool, breaks: bool, running: int, now: int)

  /** The invariant, except that the loop may not wake up for some common-timeout queue. */
  ghost predicate Core(b: Base) {
    && |b.info| == |b.st|
    && FlagsOk(b.info, b.st) && ActiveOk(b.info, b.st, b.queues) && LaterOk(b.st, b.later)
    && CountsOk(b.info, b.st, b.queues, b.later, b.count, b.countActive)
    && HeapOk(b.st, b.at) && CommonOk(b.st, b.ctls)
    && StandInsOk(b.info, b.st, b.timers) && |b.timers| == |b.ctls|
  }

  /** The loop wakes up for each common-timeout queue in time, but for those whose stand-in is in `running`. */
  ghost predicate Wakes(b: Base, running: set<nat>)
    requires Core(b)
  {
    forall c :: 0 <= c < |b.ctls| ==> WakesUp(b.st, b.timers[c], b.ctls[c], b.at, running)
  }

  /** The callback exists. */
  ghost predicate Has(b: Base, e: nat) {
    e < |b.st| == |b.info| && b.info[e].pri < |b.queues|
  }

  /** The same callbacks, priorities and common-timeout queues. */
  ghost predicate SameSetup(b: Base, b': Base) {
    && b'.info == b.info && |b'.st| == |b.st| && |b'.queues| == |b.queues|
    && b'.timers == b.timers && |b'.ctls| == |b.ctls|
    && b'.now == b.now && b'.running == b.running && b'.breaks == b.breaks
  }

  /** Nor has the dispatcher been told anything. */
  ghost predicate SameRound(b: Base, b': Base) {
    SameSetup(b, b') && b'.continues == b.continues && b'.nDeferreds == b.nDeferreds
  }

  function Unit(i: Info): int {
    if i.internal then 0 else 1
  }

  function RemoveInserted(b: Base, e: nat): (b': Base)
    requires Has(b, e)
    ensures Has(b', e) && SameRound(b, b')
  {
    b.(count := b.count - Unit(b.info[e]), st := b.st[e := b.st[e].(inserted := false)])
  }

  function InsertInserted(b: Base, e: nat): (b': Base)
    requires Has(b, e)
    ensures Has(b', e) && SameRound(b, b')
  {
    b.(count := b.count + Unit(b.info[e]), st := b.st[e := b.st[e].(inserted := true)])
  }

  function RemoveActive(b: Base, e: nat): (b': Base)
    requires Has(b, e)
    ensures Has(b', e) && SameRound(b, b')
  {
    var p := b.info[e].pri;
    b.(count := b.count - Unit(b.info[e]), countActive := b.countActive - 1,
       st := b.st[e := b.st[e].(active := false)], queues := b.queues[p := Remove(b.queues[p], e)])
  }

  function InsertActive(b: Base, e: nat): (b': Base)
    requires Has(b, e)
    ensures Has(b', e) && SameRound(b, b')
  {
    var p := b.info[e].pri;
    b.(count := b.count + Unit(b.info[e]), countActive := b.countActive + 1,
       st := b.st[e := b.st[e].(active := true)], queues := b.queues[p := b.queues[p] + [e]])
  }

  function RemoveLater(b: Base, e: nat): (b': Base)
    requires Has(b, e)
    ensures Has(b', e) && SameRound(b, b')
  {
    b.(count := b.count - Unit(b.info[e]), countActive := b.countActive - 1,
       st := b.st[e := b.st[e].(later := false)], later := Remove(b.later, e))
  }

  function InsertLater(b: Base, e: nat): (b': Base)
    requires Has(b, e)
    ensures Has(b', e) && SameRound(b, b')
  {
    b.(count := b.count + Unit(b.info[e]), countActive := b.countActive + 1,
       st := b.st[e := b.st[e].(later := true)], later := b.later + [e])
  }

  /** Takes the event out of the tier that its deadline names. */
  function RemoveTimeout(b: Base, e: nat): (b': Base)
    requires Has(b, e)
    ensures Has(b', e) && SameRound(b, b')
  {
    var b' := b.(count := b.count - Unit(b.info[e]), st := b.st[e := b.st[e].(timeout := false)]);
    match b.st[e].deadline.queue
    case None => b'.(at := b.at - {e})
    case Some(c) => if c < |b.ctls| then b'.(ctls := b.ctls[c := Remove(b.ctls[c], e)]) else b'
  }

  /** Puts the event into the tier that its deadline names. */
  function InsertTimeout(b: Base, e: nat): (b': Base)
    requires Has(b, e)
    ensures Has(b', e) && SameRound(b, b')
  {
    var b' := b.(count := b.count + Unit(b.info[e]), st := b.st[e := b.st[e].(timeout := true)]);
    var time := b.st[e].deadline.usec;
    match b.st[e].deadline.queue
    case None => b'.(at := b.at[e := time])
    case Some(c) =>
      if c < |b.ctls| && Known(b.ctls[c], |b.st|) then
        b'.(ctls := b.ctls[c := InsertInOrder(b.st, b.ctls[c], e, time)])
      else b'
  }

  lemma StandInsSame(b: Base, e: nat, s: State)
    requires Core(b) && e < |b.st|
    requires IsTimer(b.timers, e) ==> s.deadline.queue == None && !s.later
    ensures StandInsOk(b.info, b.st[e := s], b.timers)
  {
    hide FlagsOk, ActiveOk, LaterOk, CountsOk, HeapOk, CommonOk;
  }

  lemma TimerFacts(b: Base, e: nat)
    requires Core(b) && IsTimer(b.timers, e)
    ensures Has(b, e) && b.info[e] == Info(true, true, false, false, false, 0)
    ensures b.st[e].deadline.queue == None && !b.st[e].later
  {
    hide FlagsOk, LaterOk, CountsOk, HeapOk, CommonOk;
  }

  lemma HasIt(b: Base, e: nat)
    requires Core(b) && e < |b.st|
    ensures Has(b, e)
  {}

  lemma RemoveInsertedKeeps(b: Base, e: nat)
    requires Core(b) && e < |b.st| && b.st[e].inserted
    ensures Has(b, e) && Core(RemoveInserted(b, e))
  {
    hide ActiveOk, LaterOk, HeapOk, CommonOk, StandInsOk;
    HasIt(b, e);
    SameQueues(b, e, b.st[e].(inserted := false));
    WeightsUpdate(b.info, b.st, e, b.st[e].(inserted := false));
  }

  /** Changing a callback's state in ways that no queue depends on. */
  lemma SameQueues(b: Base, e: nat, s: State)
    requires Core(b) && e < |b.st|
    requires s == b.st[e].(inserted := s.inserted, timedOut := s.timedOut, interval := s.interval)
    ensures ActiveOk(b.info, b.st[e := s], b.queues) && LaterOk(b.st[e := s], b.later) && HeapOk(b.st[e := s], b.at)
    ensures CommonOk(b.st[e := s], b.ctls) && StandInsOk(b.info, b.st[e := s], b.timers)
  {
    hide FlagsOk, CountsOk, ActiveOk, LaterOk, HeapOk, CommonOk, StandInsOk;
    ActiveSame(b.info, b.st, b.queues, e, s);
    LaterSame(b.st, b.later, e, s);
    SameTimers(b, e, s);
  }

  /** Changing a callback's state in ways that no timer depends on. */
  lemma SameTimers(b: Base, e: nat, s: State)
    requires Core(b) && e < |b.st|
    requires s.timeout == b.st[e].timeout && s.deadline == b.st[e].deadline && (s.later ==> b.st[e].later || !IsTimer(b.timers, e))
    ensures HeapOk(b.st[e := s], b.at) && CommonOk(b.st[e := s], b.ctls) && StandInsOk(b.info, b.st[e := s], b.timers)
  {
    hide FlagsOk, CountsOk, ActiveOk, LaterOk, HeapOk, CommonOk, StandInsOk;
    HeapSame(b.st, b.at, e, s);
    CommonSame(b.st, b.ctls, e, s);
    if IsTimer(b.timers, e) {
      TimerFacts(b, e);
    }
    StandInsSame(b, e, s);
  }

  lemma InsertInsertedKeeps(b: Base, e: nat)
    requires Core(b) && e < |b.st| && !b.st[e].inserted && b.info[e].isEvent && b.info[e].io && !b.info[e].finalizing
    ensures Has(b, e) && Core(InsertInserted(b, e))
  {
    hide ActiveOk, LaterOk, HeapOk, CommonOk, StandInsOk;
    HasIt(b, e);
    SameQueues(b, e, b.st[e].(inserted := true));
    WeightsUpdate(b.info, b.st, e, b.st[e].(inserted := true));
  }

  lemma RemoveActiveKeeps(b: Base, e: nat)
    requires Core(b) && e < |b.st| && b.st[e].active
    ensures Has(b, e) && Core(RemoveActive(b, e))
  {
    hide ActiveOk, LaterOk, HeapOk, CommonOk, StandInsOk, Remove;
    HasIt(b, e);
    var s, p := b.st[e].(active := false), b.info[e].pri;
    ActiveRemove(b.info, b.st, b.queues, e, s);
    LaterSame(b.st, b.later, e, s);
    SameTimers(b, e, s);
    WeightsUpdate(b.info, b.st, e, s);
    TotalUpdate(b.queues, p, Remove(b.queues[p], e));
  }

  lemma InsertActiveKeeps(b: Base, e: nat)
    requires Core(b) && e < |b.st| && !b.st[e].active && !b.st[e].later
    ensures Has(b, e) && Core(InsertActive(b, e))
  {
    hide ActiveOk, LaterOk, HeapOk, CommonOk, StandInsOk, Remove;
    HasIt(b, e);
    var s, p := b.st[e].(active := true), b.info[e].pri;
    ActiveInsert(b.info, b.st, b.queues, e, s);
    LaterSame(b.st, b.later, e, s);
    SameTimers(b, e, s);
    WeightsUpdate(b.info, b.st, e, s);
    TotalUpdate(b.queues, p, b.queues[p] + [e]);
  }

  lemma RemoveLaterKeeps(b: Base, e: nat)
    requires Core(b) && e < |b.st| && b.st[e].later
    ensures Has(b, e) && Core(RemoveLater(b, e))
  {
    hide ActiveOk, LaterOk, HeapOk, CommonOk, StandInsOk, Remove;
    HasIt(b, e);
    var s := b.st[e].(later := false);
    ActiveSame(b.info, b.st, b.queues, e, s);
    LaterRemove(b.st, b.later, e, s);
    SameTimers(b, e, s);
    WeightsUpdate(b.info, b.st, e, s);
  }

  lemma InsertLaterKeeps(b: Base, e: nat)
    requires Core(b) && e < |b.st| && !b.st[e].active && !b.st[e].later && !IsTimer(b.timers, e)
    ensures Has(b, e) && Core(InsertLater(b, e))
  {
    hide ActiveOk, LaterOk, HeapOk, CommonOk, StandInsOk, Remove;
    HasIt(b, e);
    var s := b.st[e].(later := true);
    ActiveSame(b.info, b.st, b.queues, e, s);
    LaterInsert(b.st, b.later, e, s);
    SameTimers(b, e, s);
    WeightsUpdate(b.info, b.st, e, s);
  }

  /** Everything but the timers. */
  ghost predicate QueuesOk(b: Base) {
    && |b.info| == |b.st| && FlagsOk(b.info, b.st) && ActiveOk(b.info, b.st, b.queues) && LaterOk(b.st, b.later)
    && CountsOk(b.info, b.st, b.queues, b.later, b.count, b.countActive)
  }

  ghost predicate TimersOk(b: Base) {
    && |b.info| == |b.st| && HeapOk(b.st, b.at) && CommonOk(b.st, b.ctls)
    && StandInsOk(b.info, b.st, b.timers) && |b.timers| == |b.ctls|
  }

  lemma CoreParts(b: Base)
    ensures Core(b) <==> QueuesOk(b) && TimersOk(b)
  {
    hide FlagsOk, ActiveOk, LaterOk, CountsOk, HeapOk, CommonOk, StandInsOk;
  }

  /** Setting or clearing the timeout flag, and counting it. */
  lemma TimeoutFlagged(b: Base, b': Base, e: nat, flag: bool)
    requires QueuesOk(b) && Has(b, e) && b.st[e].timeout != flag && (flag ==> b.info[e].isEvent && !b.info[e].finalizing)
    requires b'.info == b.info && b'.st == b.st[e := b.st[e].(timeout := flag)] && b'.queues == b.queues && b'.later == b.later
    requires b'.count == b.count + (if flag then Unit(b.info[e]) else -Unit(b.info[e])) && b'.countActive == b.countActive
    ensures QueuesOk(b')
  {
    hide ActiveOk, LaterOk, FlagsOk;
    var s := b.st[e].(timeout := flag);
    FlagsUpdate(b.info, b.st, e, s);
    ActiveSame(b.info, b.st, b.queues, e, s);
    LaterSame(b.st, b.later, e, s);
    WeightsUpdate(b.info, b.st, e, s);
  }

  lemma RemoveTimeoutTimers(b: Base, e: nat)
    requires Core(b) && Has(b, e) && b.st[e].timeout
    ensures TimersOk(RemoveTimeout(b, e))
  {
    hide FlagsOk, CountsOk, ActiveOk, LaterOk, HeapOk, CommonOk, StandInsOk, Remove;
    var s := b.st[e].(timeout := false);
    HeapRemove(b.st, b.at, e, s);
    if IsTimer(b.timers, e) {
      TimerFacts(b, e);
    }
    StandInsSame(b, e, s);
    match b.st[e].deadline.queue {
      case None =>
        CommonPlain(b.st, b.ctls, e, s);
      case Some(c) =>
        CommonRemove(b.st, b.ctls, e, s, c);
        assert b.at - {e} == b.at;
    }
  }

  lemma RemoveTimeoutKeeps(b: Base, e: nat)
    requires Core(b) && e < |b.st| && b.st[e].timeout
    ensures Has(b, e) && Core(RemoveTimeout(b, e))
  {
    hide Core, QueuesOk, TimersOk, RemoveTimeout;
    HasIt(b, e);
    CoreParts(b);
    RemoveTimeoutShape(b, e);
    TimeoutFlagged(b, RemoveTimeout(b, e), e, false);
    RemoveTimeoutTimers(b, e);
    CoreParts(RemoveTimeout(b, e));
  }

  /** The events in a common-timeout queue exist. */
  lemma QueueFacts(b: Base, c: nat)
    requires Core(b) && c < |b.ctls|
    ensures Known(b.ctls[c], |b.st|) && Unique(b.ctls[c]) && Sorted(b.st, b.ctls[c])
    ensures forall e :: e in b.ctls[c] ==> e < |b.st| && b.st[e].timeout && b.st[e].deadline.queue == Some(c)
    ensures b.timers[c] < |b.st| && IsTimer(b.timers, b.timers[c])
  {
    hide FlagsOk, ActiveOk, LaterOk, CountsOk, HeapOk;
    QueueKnown(b.st, c, b.ctls[c]);
    assert b.timers[c] == b.timers[c];
  }

  lemma InsertTimeoutTimers(b: Base, e: nat)
    requires Core(b) && Has(b, e) && !b.st[e].timeout
    requires b.st[e].deadline.queue.Some? ==> b.st[e].deadline.queue.value < |b.ctls|
    ensures TimersOk(InsertTimeout(b, e))
  {
    hide FlagsOk, CountsOk, ActiveOk, LaterOk, HeapOk, CommonOk, StandInsOk, InsertInOrder;
    var s := b.st[e].(timeout := true);
    HeapInsert(b.st, b.at, e, s);
    if IsTimer(b.timers, e) {
      TimerFacts(b, e);
    }
    StandInsSame(b, e, s);
    match b.st[e].deadline.queue {
      case None =>
        CommonPlain(b.st, b.ctls, e, s);
      case Some(c) =>
        QueueFacts(b, c);
        CommonInsert(b.st, b.ctls, e, s, c);
    }
  }

  lemma InsertTimeoutKeeps(b: Base, e: nat)
    requires Core(b) && e < |b.st| && !b.st[e].timeout && b.info[e].isEvent && !b.info[e].finalizing
    requires b.st[e].deadline.queue.Some? ==> b.st[e].deadline.queue.value < |b.ctls|
    ensures Has(b, e) && Core(InsertTimeout(b, e))
  {
    hide Core, QueuesOk, TimersOk, InsertTimeout;
    HasIt(b, e);
    CoreParts(b);
    InsertTimeoutShape(b, e);
    TimeoutFlagged(b, InsertTimeout(b, e), e, true);
    InsertTimeoutTimers(b, e);
    CoreParts(InsertTimeout(b, e));
  }

  // Waking up

  /** Changing a callback without taking its timer away; `e` may stop being active if it is in `running`. */
  lemma WakesUpSame(st: seq<State>, timer: nat, q: seq<nat>, at: map<nat, int>, running: set<nat>, e: nat, s: State)
    requires timer < |st| && e < |st| && WakesUp(st, timer, q, at, running)
    requires s.deadline.usec == st[e].deadline.usec || (q != [] && q[0] != e)
    requires st[e].active && !s.active && e == timer ==> e in running
    ensures WakesUp(st[e := s], timer, q, at, running)
  {}

  lemma WakesFewer(b: Base, running: set<nat>, more: set<nat>)
    requires Core(b) && Wakes(b, more)
    requires forall e :: e in more && IsTimer(b.timers, e) ==> e in running
    ensures Wakes(b, running)
  {
    hide FlagsOk, ActiveOk, LaterOk, CountsOk, HeapOk, CommonOk;
    forall c | 0 <= c < |b.ctls|
      ensures WakesUp(b.st, b.timers[c], b.ctls[c], b.at, running)
    {
      assert IsTimer(b.timers, b.timers[c]);
      assert WakesUp(b.st, b.timers[c], b.ctls[c], b.at, more);
    }
  }

  /** A step that changes one callback but no timer. */
  lemma SameTimersWakes(b: Base, b': Base, e: nat, s: State, running: set<nat>)
    requires Core(b) && Core(b') && Wakes(b, running) && e < |b.st|
    requires b'.st == b.st[e := s] && b'.at == b.at && b'.ctls == b.ctls && b'.timers == b.timers && s.deadline == b.st[e].deadline
    requires b.st[e].active && !s.active && IsTimer(b.timers, e) ==> e in running
    ensures Wakes(b', running)
  {
    hide FlagsOk, ActiveOk, LaterOk, CountsOk, HeapOk, CommonOk;
    forall c | 0 <= c < |b.ctls|
      ensures WakesUp(b'.st, b'.timers[c], b'.ctls[c], b'.at, running)
    {
      assert IsTimer(b.timers, b.timers[c]);
      WakesUpSame(b.st, b.timers[c], b.ctls[c], b.at, running, e, s);
    }
  }

  /** Taking an event off its tier of timers. */
  lemma RemoveTimeoutWakes(b: Base, e: nat, running: set<nat>)
    requires Core(b) && Has(b, e) && b.st[e].timeout && Core(RemoveTimeout(b, e)) && Wakes(b, running)
    requires IsTimer(b.timers, e) ==> e in running
    ensures Wakes(RemoveTimeout(b, e), running)
  {
    hide FlagsOk, ActiveOk, LaterOk, CountsOk, HeapOk, CommonOk, StandInsOk, RemoveTimeout;
    RemoveTimeoutShape(b, e);
    var b' := RemoveTimeout(b, e);
    forall c | 0 <= c < |b.ctls|
      ensures WakesUp(b'.st, b'.timers[c], b'.ctls[c], b'.at, running)
    {
      RemoveTimeoutQueue(b, e, running, c);
    }
  }

  lemma RemoveTimeoutShape(b: Base, e: nat)
    requires Has(b, e)
    ensures var b' := RemoveTimeout(b, e);
            && b'.info == b.info && b'.st == b.st[e := b.st[e].(timeout := false)] && b'.queues == b.queues && b'.later == b.later
            && b'.count == b.count - Unit(b.info[e]) && b'.countActive == b.countActive
            && b'.timers == b.timers && |b'.ctls| == |b.ctls|
  {}

  lemma RemoveTimeoutQueue(b: Base, e: nat, running: set<nat>, c: nat)
    requires Core(b) && Has(b, e) && b.st[e].timeout && c < |b.ctls|
    requires WakesUp(b.st, b.timers[c], b.ctls[c], b.at, running) && (IsTimer(b.timers, e) ==> e in running)
    ensures var b' := RemoveTimeout(b, e); WakesUp(b'.st, b'.timers[c], b'.ctls[c], b'.at, running)
  {
    hide FlagsOk, ActiveOk, LaterOk, CountsOk, HeapOk, CommonOk, StandInsOk, Remove, Sorted;
    QueueFacts(b, c);
    if b.st[e].deadline.queue == Some(c) {
      RemoveHead(b.st, b.ctls[c], e);
    }
  }

  /** Putting an event in a common-timeout queue.  If it comes to head the queue, the loop may not wake up for it. */
  lemma InsertCommonWakes(b: Base, e: nat, running: set<nat>, c: nat)
    requires Core(b) && Has(b, e) && !b.st[e].timeout && Core(InsertTimeout(b, e)) && Wakes(b, running)
    requires b.st[e].deadline.queue == Some(c) && c < |b.ctls|
    ensures |InsertTimeout(b, e).ctls| == |b.ctls|
    ensures Wakes(InsertTimeout(b, e), running + {b.timers[c]})
    ensures var q := InsertTimeout(b, e).ctls[c]; q == [] || q[0] != e ==> Wakes(InsertTimeout(b, e), running)
  {
    hide FlagsOk, ActiveOk, LaterOk, CountsOk, HeapOk, CommonOk, StandInsOk, InsertTimeout;
    InsertTimeoutShape(b, e);
    var b' := InsertTimeout(b, e);
    forall d | 0 <= d < |b.ctls|
      ensures WakesUp(b'.st, b'.timers[d], b'.ctls[d], b'.at, running) || (d == c && b'.ctls[c] != [] && b'.ctls[c][0] == e)
    {
      InsertCommonQueue(b, e, running, c, d);
    }
  }

  lemma InsertTimeoutShape(b: Base, e: nat)
    requires Has(b, e)
    ensures var b' := InsertTimeout(b, e);
            && b'.info == b.info && b'.st == b.st[e := b.st[e].(timeout := true)] && b'.queues == b.queues && b'.later == b.later
            && b'.count == b.count + Unit(b.info[e]) && b'.countActive == b.countActive
            && b'.timers == b.timers && |b'.ctls| == |b.ctls|
  {}

  lemma InsertCommonQueue(b: Base, e: nat, running: set<nat>, c: nat, d: nat)
    requires Core(b) && Has(b, e) && !b.st[e].timeout && b.st[e].deadline.queue == Some(c) && c < |b.ctls|
    requires d < |b.ctls| && WakesUp(b.st, b.timers[d], b.ctls[d], b.at, running)
    ensures var b' := InsertTimeout(b, e);
            WakesUp(b'.st, b'.timers[d], b'.ctls[d], b'.at, running) || (d == c && b'.ctls[c] != [] && b'.ctls[c][0] == e)
  {
    hide FlagsOk, ActiveOk, LaterOk, CountsOk, HeapOk, CommonOk, StandInsOk, InsertInOrder, Sorted;
    QueueFacts(b, d);
    if d == c {
      InsertHead(b.st, b.ctls[c], e, b.st[e].deadline.usec);
    }
  }

  /** Putting an event in the heap.  A stand-in that is due no later than the head of its queue wakes the loop up. */
  lemma InsertPlainWakes(b: Base, e: nat, running: set<nat>)
    requires Core(b) && Has(b, e) && !b.st[e].timeout && Core(InsertTimeout(b, e)) && Wakes(b, running)
    requires b.st[e].deadline.queue == None
    ensures Wakes(InsertTimeout(b, e), running)
    ensures forall c :: 0 <= c < |b.ctls| && b.timers[c] == e && HeadNotBefore(b, c, b.st[e].deadline.usec) ==>
              Wakes(InsertTimeout(b, e), running - {e})
  {
    hide FlagsOk, ActiveOk, LaterOk, CountsOk, CommonOk;
    var b' := InsertTimeout(b, e);
    forall c | 0 <= c < |b.ctls|
      ensures WakesUp(b'.st, b'.timers[c], b'.ctls[c], b'.at, running)
      ensures b.timers[c] == e && HeadNotBefore(b, c, b.st[e].deadline.usec) ==> WakesUp(b'.st, b'.timers[c], b'.ctls[c], b'.at, running - {e})
    {
      assert WakesUp(b.st, b.timers[c], b.ctls[c], b.at, running);
    }
  }

  /** The head of the queue is not due before the given time. */
  ghost predicate HeadNotBefore(b: Base, c: nat, time: int)
    requires c < |b.ctls|
  {
    var q := b.ctls[c];
    q != [] && q[0] < |b.st| && time <= b.st[q[0]].deadline.usec
  }
}
