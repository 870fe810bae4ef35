/** The log of a dispatch, and what it comes to when it is played again. */
module EventReplay {
  import opened Lists
  import opened Options
  import opened EventQueues
  import opened EventOps
  import opened EventCalls
  import opened EventActions
  import opened EventTimers
  import opened EventDispatch

  /** The start of a callback: its priority, and the base just before it starts and once it is over. */
  datatype Start = Start(e: nat, priority: nat, before: Base, after: Base)

  /** No callback of a smaller priority number was waiting. */
  ghost predicate InTurn(s: Start) {
    forall i :: 0 <= i < s.priority && i < |s.before.queues| ==> s.before.queues[i] == []
  }

  /** No priority is inverted. */
  ghost predicate AllInTurn(log: seq<Start>) {
    forall i :: 0 <= i < |log| ==> InTurn(log[i])
  }

  lemma InTurnMore(log: seq<Start>, more: seq<Start>)
    requires AllInTurn(log) && AllInTurn(more)
    ensures AllInTurn(log + more)
  {
    hide InTurn;
  }

  // Several actions, and several timeouts

  /** Carries out actions, one after the other. */
  ghost function Acts(b: Base, acts: seq<Action>): Base {
    if acts == [] then b
    else
      var b1, a := Acts(b, acts[..|acts| - 1]), acts[|acts| - 1];
      if Core(b1) && Allowed(b1, a) then Act(b1, a) else b1
  }

  lemma ActsNext(b: Base, acts: seq<Action>, i: nat, b1: Base)
    requires i < |acts| && b1 == Acts(b, acts[..i]) && Core(b1) && Allowed(b1, acts[i])
    ensures Acts(b, acts[..i + 1]) == Act(b1, acts[i])
  {
    hide Core, Allowed, Act;
    assert acts[..i + 1][..i] == acts[..i];
  }

  /** Actions are carried out in their order, and none is left out. */
  lemma {:induction false} ActsInOrder(b: Base, first: seq<Action>, second: seq<Action>)
    ensures Acts(b, []) == b && Acts(b, first + second) == Acts(Acts(b, first), second)
    ensures |first| == 1 && Core(b) && Allowed(b, first[0]) ==> Acts(b, first) == Act(b, first[0])
  {
    hide Core, Allowed, Act;
    assert |first| == 1 ==> first[..0] == [];
    if second == [] {
      assert first + second == first;
    } else {
      var n := |first + second| - 1;
      assert (first + second)[..n] == first + second[..|second| - 1];
      ActsInOrder(b, first, second[..|second| - 1]);
    }
  }

  /** Lets the events of a queue time out, one after the other. */
  ghost function Fires(b: Base, q: seq<nat>): Base {
    if q == [] then b
    else
      var b1, e := Fires(b, q[..|q| - 1]), q[|q| - 1];
      if Has(b1, e) then Fire(b1, e) else b1
  }

  lemma FiresNext(b: Base, q: seq<nat>, k: nat, b1: Base)
    requires k < |q| && b1 == Fires(b, q[..k]) && Has(b1, q[k])
    ensures Fires(b, q[..k + 1]) == Fire(b1, q[k])
  {
    hide Has, Fire;
    assert q[..k + 1][..k] == q[..k];
  }

  lemma FiresOneMore(b: Base, q: seq<nat>, e: nat, b1: Base)
    requires b1 == Fires(b, q) && Has(b1, e)
    ensures Fires(b, q + [e]) == Fire(b1, e)
  {
    hide Has, Fire;
    assert (q + [e])[..|q|] == q;
  }

  // What the start of a callback does

  /** The first `k` events of queue `c`, which are those that are due, have timed out in their order. */
  ghost predicate HeadsFired(b: Base, c: nat, k: nat, b': Base) {
    && c < |b.ctls| && k <= |b.ctls[c]| && b' == Fires(b, b.ctls[c][..k])
    && (forall i :: 0 <= i < k ==> b.ctls[c][i] < |b.st| && b.st[b.ctls[c][i]].deadline.usec <= b.now)
    && (k < |b.ctls[c]| ==> b.ctls[c][k] < |b.st| && b.st[b.ctls[c][k]].deadline.usec > b.now)
  }

  /** The first `k` events of queue `c` were due and have timed out, and nothing else has changed in the queues of timers. */
  ghost predicate Firing(b0: Base, c: nat, k: nat, b: Base) {
    && c < |b0.ctls| == |b.ctls| && k <= |b0.ctls[c]| && b == Fires(b0, b0.ctls[c][..k]) && b.now == b0.now
    && TimedOutFirst(b0.st, b0.ctls[c], b.st, b.ctls[c], b0.now, k)
    && b.at == b0.at && b.ctls == b0.ctls[c := b.ctls[c]] && b.nDeferreds == b0.nDeferreds && Budget(b) <= Budget(b0) + k
  }

  lemma FiringNone(b: Base, c: nat)
    requires Core(b) && c < |b.ctls|
    ensures Firing(b, c, 0, b)
  {
    hide Core, Budget;
    QueueFacts(b, c);
    assert b.ctls[c][..0] == [];
  }

  lemma FiringNext(b0: Base, c: nat, k: nat, b: Base)
    requires Firing(b0, c, k, b) && Core(b0) && c < |b.timers| && Fine(b, {b.timers[c]}) && b.ctls[c] != []
    requires b.ctls[c][0] < |b.st| && b.st[b.ctls[c][0]].deadline.usec <= b.now
    ensures Has(b, b.ctls[c][0]) && b.st[b.ctls[c][0]].timeout && k < |b0.ctls[c]|
    ensures Firing(b0, c, k + 1, Fire(b, b.ctls[c][0]))
  {
    hide Core, Wakes, Budget, Fire, Fires, TimedOutFirst, FlagOk;
    var e := b.ctls[c][0];
    assert e in b.ctls[c];
    QueueFacts(b0, c);
    FiredQueue(b, e, c);
    FireKeeps(b, e, {b.timers[c]});
    FireShape(b, e);
    FireBudget(b, e);
    HeadOfFirst(b0.st, b0.ctls[c], b.st, b.ctls[c], b0.now, k);
    FiresNext(b0, b0.ctls[c], k, b);
    TimedOutNext(b0.st, b0.ctls[c], b.st, b.ctls[c], b0.now, k);
  }

  lemma HeadOfFirst(st0: seq<State>, q0: seq<nat>, st: seq<State>, q: seq<nat>, now: int, k: nat)
    requires TimedOutFirst(st0, q0, st, q, now, k)
    ensures q == q0[k..] && (q != [] ==> q[0] == q0[k])
  {}

  /** When the head of what is left of the queue is not due, exactly the events that were due have timed out. */
  lemma FiringDone(b0: Base, c: nat, k: nat, b: Base)
    requires Firing(b0, c, k, b) && Core(b0) && Core(b) && c < |b0.timers|
    requires b.ctls[c] != [] ==> b.ctls[c][0] < |b.st| && b.st[b.ctls[c][0]].deadline.usec > b.now
    ensures HeadsFired(b0, c, k, b) && b.ctls[c] == b0.ctls[c][k..] && |b.st| == |b0.st|
    ensures forall e :: 0 <= e < |b.st| ==>
              b.st[e] == if e in b0.ctls[c] && b0.st[e].deadline.usec <= b0.now then Fired(b0.st[e]) else b0.st[e]
  {
    hide Core, Budget, Fires;
    QueueFacts(b0, c);
    TimedOutHead(b0.st, b0.ctls[c], b.st, b.ctls[c], b0.now, k);
    assert forall i :: 0 <= i < k ==> b0.ctls[c][i] < |b0.st|;
  }

  /** The callback of the stand-in of queue `c`: if more events than the `k` that are due are in the queue, the stand-in is
      set again. */
  ghost predicate Expires(b: Base, c: nat, k: nat, b': Base) {
    var b1 := if c < |b.ctls| && k <= |b.ctls[c]| then Fires(b, b.ctls[c][..k]) else b;
    && HeadsFired(b, c, k, b1)
    && if k == |b.ctls[c]| then b' == b1
       else Headed(b1, c, b.ctls[c][k]) && b.ctls[c][k] < |b1.st| && b' == ScheduleCommon(b1, c)
  }

  /** What the callback of a stand-in leaves behind in the queue and of the events. */
  ghost predicate Cleared(b: Base, c: nat, b': Base) {
    && c < |b.ctls| == |b.timers| && SameSetup(b, b') && b.timers[c] < |b.st|
    && (forall e :: 0 <= e < |b.st| && e != b.timers[c] ==>
          b'.st[e] == if e in b.ctls[c] && b.st[e].deadline.usec <= b.now then Fired(b.st[e]) else b.st[e])
  }

  /** What a callback that has been taken off its queue does when it is run. */
  ghost predicate Runs(b: Base, e: nat, acts: seq<Action>, ioOk: bool, b': Base) {
    && Has(b, e)
    && if IsTimer(b.timers, e) then Cleared(b, IndexOf(b.timers, e), b') && exists k: nat :: Expires(b, IndexOf(b.timers, e), k, b')
       else b' == Acts(if b.info[e].isEvent && b.info[e].persist && !b.info[e].finalizing then Rearm(b, e, ioOk) else b, acts)
  }

  /** The callback at the head of its queue is taken off and run; the invariant holds when it starts. */
  ghost predicate Replayed(s: Start, acts: seq<Action>, ioOk: bool) {
    && Fine(s.before, {}) && IntervalsOk(s.before) && Has(s.before, s.e) && s.before.running == s.priority
    && s.priority < |s.before.queues| && s.before.queues[s.priority] != [] && s.e == s.before.queues[s.priority][0]
    && Runs(Begun(s.before, s.e), s.e, acts, ioOk, s.after)
  }

  /** What the start of a callback that is no stand-in comes to: it is taken off; an event that is not persistent is deleted, one
      that is and has an interval gets its next deadline; and then, in the base `m`, its actions are carried out. */
  lemma StartEffects(s: Start, acts: seq<Action>, ioOk: bool) returns (m: Base)
    requires Replayed(s, acts, ioOk) && !IsTimer(s.before.timers, s.e)
    ensures s.after == Acts(m, acts) && |m.st| == |s.before.st| && m.now == s.before.now
    ensures forall x :: 0 <= x < |m.st| && x != s.e && !IsTimer(s.before.timers, x) ==> m.st[x] == s.before.st[x]
    ensures var i, s0, s1, now := s.before.info[s.e], s.before.st[s.e], m.st[s.e], m.now;
            if !i.isEvent || i.finalizing then s1 == s0.(active := false)
            else if !i.persist then s1 == s0.(inserted := false, timeout := false, active := false, later := false)
            else if (s0.interval.usec == 0 && s0.interval.queue == None) || (i.io && !s0.inserted && !ioOk) then s1 == s0.(active := false)
            else s1.timeout && !s1.active && s1.interval == s0.interval && s1.deadline.queue == s0.interval.queue
                 && s1.deadline.usec == if s0.timedOut && s0.deadline.usec + s0.interval.usec >= now then s0.deadline.usec + s0.interval.usec
                                        else now + s0.interval.usec
  {
    hide Fine, IntervalsOk, Begun, Rearm, Acts, HasInterval, NextRun;
    var b, e := s.before, s.e;
    FineIsCore(b, {});
    HeadIsActive(b, s.priority);
    BegunKeeps(b, e);
    Exclusive(b, e, {});
    var b1 := Begun(b, e);
    if b.info[e].isEvent && b.info[e].persist && !b.info[e].finalizing {
      RearmKeeps(b1, e, ioOk, {});
      m := Rearm(b1, e, ioOk);
    } else {
      m := b1;
    }
  }

  /** The same, but for the priority that is being run. */
  predicate Between(b: Base, b': Base) {
    b' == b.(running := b'.running)
  }

  /** From `b0` to `b`, one callback after the other has been run as the log says, the k-th carrying out `script(k)`, and
      nothing else has happened. */
  ghost predicate Replays(b0: Base, log: seq<Start>, b: Base, script: nat -> seq<Action>, ioOk: nat -> bool, k0: nat) {
    && (forall i: nat :: i < |log| ==> Replayed(log[i], script(k0 + i), ioOk(k0 + i)))
    && (forall i: nat :: 0 < i < |log| ==> Between(log[i - 1].after, log[i].before))
    && (if log == [] then Between(b0, b) else Between(b0, log[0].before) && Between(log[|log| - 1].after, b))
  }

  lemma ReplaysNone(b0: Base, b: Base, script: nat -> seq<Action>, ioOk: nat -> bool, k0: nat)
    requires Between(b0, b)
    ensures Replays(b0, [], b, script, ioOk, k0)
  {}

  lemma ReplaysMore(b0: Base, log: seq<Start>, b: Base, s: Start, script: nat -> seq<Action>, ioOk: nat -> bool, k0: nat)
    requires Replays(b0, log, b, script, ioOk, k0)
    requires s.before == b && Replayed(s, script(k0 + |log|), ioOk(k0 + |log|))
    ensures Replays(b0, log + [s], s.after, script, ioOk, k0)
  {
    hide Replayed;
    var log' := log + [s];
    forall i: nat | 0 < i < |log'|
      ensures Between(log'[i - 1].after, log'[i].before)
    {
    }
  }

  lemma ReplaysOn(b0: Base, log: seq<Start>, b: Base, more: seq<Start>, b': Base,
                  script: nat -> seq<Action>, ioOk: nat -> bool, k0: nat)
    requires Replays(b0, log, b, script, ioOk, k0) && Replays(b, more, b', script, ioOk, k0 + |log|)
    ensures Replays(b0, log + more, b', script, ioOk, k0)
  {
    hide Replayed;
    var log' := log + more;
    forall i: nat | i < |log'|
      ensures Replayed(log'[i], script(k0 + i), ioOk(k0 + i))
      ensures i > 0 ==> Between(log'[i - 1].after, log'[i].before)
    {
      if i >= |log| {
        assert log'[i] == more[i - |log|];
        assert k0 + i == k0 + |log| + (i - |log|);
      }
    }
  }

  lemma ReplaysBetween(b0: Base, log: seq<Start>, b: Base, b': Base, script: nat -> seq<Action>, ioOk: nat -> bool, k0: nat)
    requires Replays(b0, log, b, script, ioOk, k0) && Between(b, b')
    ensures Replays(b0, log, b', script, ioOk, k0)
  {
    hide Replayed;
  }

  lemma ReplaysLast(b0: Base, log: seq<Start>, b: Base, script: nat -> seq<Action>, ioOk: nat -> bool, k0: nat)
    requires Replays(b0, log, b, script, ioOk, k0) && log != []
    ensures var n := |log| - 1;
            && Replays(b0, log[..n], log[n].before, script, ioOk, k0)
            && Replayed(log[n], script(k0 + n), ioOk(k0 + n)) && Between(log[n].after, b)
  {
    hide Replayed;
  }

  // Counting starts

  /** The places in the log at which a callback that is not internal is started. */
  function External(info: seq<Info>, log: seq<Start>): set<nat> {
    set i: nat | i < |log| && log[i].e < |info| && !info[log[i].e].internal
  }

  lemma ExternalMore(info: seq<Info>, log: seq<Start>, s: Start)
    requires s.e < |info|
    ensures |External(info, log + [s])| == |External(info, log)| + if info[s.e].internal then 0 else 1
  {
    var log' := log + [s];
    assert External(info, log') == External(info, log) + if info[s.e].internal then {} else {|log|};
  }

  lemma ExternalOn(info: seq<Info>, log: seq<Start>, more: seq<Start>)
    requires External(info, log) == {}
    ensures |External(info, log + more)| == |External(info, more)|
    decreases |more|
  {
    if more == [] {
      assert log + more == log;
    } else {
      var n := |more| - 1;
      assert (log + more[..n]) + [more[n]] == log + more && more[..n] + [more[n]] == more;
      ExternalOn(info, log, more[..n]);
      if more[n].e < |info| {
        ExternalMore(info, log + more[..n], more[n]);
        ExternalMore(info, more[..n], more[n]);
      } else {
        assert External(info, log + more) == External(info, log + more[..n]);
        assert External(info, more) == External(info, more[..n]);
      }
    }
  }

  /** From one start to the next within a queue: nothing had yet ended the processing of the queue. */
  ghost predicate WentOn(info: seq<Info>, log: seq<Start>, max: int, endtime: Option<int>) {
    forall i: nat :: 0 < i < |log| ==>
      && !log[i].before.breaks && !log[i].before.continues && |External(info, log[..i])| < max
      && (External(info, log[..i]) != {} && endtime.Some? ==> log[i].before.now < endtime.value)
  }

  lemma WentOnMore(info: seq<Info>, log: seq<Start>, max: int, endtime: Option<int>, s: Start)
    requires WentOn(info, log, max, endtime)
    requires log != [] ==> !s.before.breaks && !s.before.continues && |External(info, log)| < max
                           && (External(info, log) != {} && endtime.Some? ==> s.before.now < endtime.value)
    ensures WentOn(info, log + [s], max, endtime)
  {
    hide External;
    var log' := log + [s];
    forall i: nat | 0 < i < |log'|
      ensures !log'[i].before.breaks && !log'[i].before.continues && |External(info, log'[..i])| < max
      ensures External(info, log'[..i]) != {} && endtime.Some? ==> log'[i].before.now < endtime.value
    {
      assert log'[..i] == log[..i];
      assert i == |log| ==> log[..i] == log;
    }
  }

  /** Callbacks have been started from queue `p`, `count` of them not internal, and up to the last of them nothing had ended
      the processing of the queue. */
  ghost predicate Processed(b0: Base, log: seq<Start>, b: Base, script: nat -> seq<Action>, ioOk: nat -> bool, k0: nat,
                            p: nat, max: int, endtime: Option<int>, count: int) {
    && Replays(b0, log, b, script, ioOk, k0) && WentOn(b0.info, log, max, endtime)
    && (forall i :: 0 <= i < |log| ==> log[i].priority == p && log[i].e < |b0.info|)
    && count == |External(b0.info, log)|
  }

  lemma ProcessedCount(b0: Base, log: seq<Start>, b: Base, script: nat -> seq<Action>, ioOk: nat -> bool, k0: nat,
                       p: nat, max: int, endtime: Option<int>, count: int)
    requires Processed(b0, log, b, script, ioOk, k0, p, max, endtime, count)
    ensures count == |External(b0.info, log)|
  {
    hide Replays, WentOn, External;
  }

  lemma ProcessedNone(b: Base, script: nat -> seq<Action>, ioOk: nat -> bool, k0: nat, p: nat, max: int, endtime: Option<int>)
    ensures Processed(b, [], b, script, ioOk, k0, p, max, endtime, 0) && External(b.info, []) == {}
  {
    hide Replays;
    ReplaysNone(b, b, script, ioOk, k0);
  }

  lemma ProcessedMore(b0: Base, log: seq<Start>, s: Start, script: nat -> seq<Action>, ioOk: nat -> bool, k0: nat,
                      p: nat, max: int, endtime: Option<int>, count: int)
    requires Processed(b0, log, s.before, script, ioOk, k0, p, max, endtime, count)
    requires Replayed(s, script(k0 + |log|), ioOk(k0 + |log|)) && s.priority == p && s.e < |b0.info|
    requires log != [] ==> !s.before.breaks && !s.before.continues && count < max
                           && (count != 0 && endtime.Some? ==> s.before.now < endtime.value)
    ensures Processed(b0, log + [s], s.after, script, ioOk, k0, p, max, endtime, count + if b0.info[s.e].internal then 0 else 1)
  {
    hide Replays, Replayed, WentOn, External;
    ReplaysMore(b0, log, s.before, s, script, ioOk, k0);
    WentOnMore(b0.info, log, max, endtime, s);
    ExternalMore(b0.info, log, s);
  }

  // A whole dispatch

  /** How many callbacks, and until when, the dispatcher runs from a queue whose priority number is at least `after`. */
  datatype Limits = Limits(max: int, endtime: Option<int>, after: int)

  /** The start at place `i` is from the same queue as the one before it, and no limit had been reached; or it is from a later
      queue, and nothing that counts had been run.  In either case no break had been asked for. */
  ghost predicate NextStart(info: seq<Info>, log: seq<Start>, limits: Limits, i: nat)
    requires 0 < i < |log|
  {
    var n, p := |External(info, log[..i])|, log[i].priority;
    && !log[i].before.breaks && log[i - 1].priority <= p
    && (log[i - 1].priority < p ==> n == 0)
    && (log[i - 1].priority == p ==>
          && !log[i].before.continues && (p < limits.after ==> n < INT_MAX)
          && (p >= limits.after ==> n < limits.max && (n != 0 && limits.endtime.Some? ==> log[i].before.now < limits.endtime.value)))
  }

  ghost predicate WentAcross(info: seq<Info>, log: seq<Start>, limits: Limits) {
    forall i: nat :: 0 < i < |log| ==> NextStart(info, log, limits, i)
  }

  lemma WentAcrossOn(info: seq<Info>, log: seq<Start>, more: seq<Start>, p: nat, max: int, endtime: Option<int>, limits: Limits)
    requires WentAcross(info, log, limits) && External(info, log) == {} && forall i :: 0 <= i < |log| ==> log[i].priority < p
    requires WentOn(info, more, max, endtime) && forall i :: 0 <= i < |more| ==> more[i].priority == p
    requires if p < limits.after then max == INT_MAX else max == limits.max && endtime == limits.endtime
    requires log != [] && more != [] ==> !more[0].before.breaks
    ensures WentAcross(info, log + more, limits)
  {
    hide External;
    var log' := log + more;
    forall i: nat | 0 < i < |log'|
      ensures NextStart(info, log', limits, i)
    {
      if i < |log| {
        assert log'[..i] == log[..i];
        assert NextStart(info, log, limits, i);
      } else {
        var j := i - |log|;
        assert log'[..i] == log + more[..j] && log'[i] == more[j];
        ExternalOn(info, log, more[..j]);
        if j == 0 {
          assert more[..j] == [];
          NoneExternal(info);
        } else {
          assert log'[i - 1] == more[j - 1] && !more[j].before.continues;
        }
      }
    }
  }

  lemma NoneExternal(info: seq<Info>)
    ensures External(info, []) == {}
  {}

  /** From `b0` to `b`, a dispatch has started callbacks, `n` of them not internal. */
  ghost predicate Dispatched(b0: Base, log: seq<Start>, b: Base, script: nat -> seq<Action>, ioOk: nat -> bool, k0: nat,
                             limits: Limits, n: int) {
    && Replays(b0, log, b, script, ioOk, k0) && WentAcross(b0.info, log, limits)
    && (forall i :: 0 <= i < |log| ==> log[i].e < |b0.info|)
    && n == |External(b0.info, log)|
  }

  /** The first callback that is started is at the head of the first queue that has any. */
  ghost predicate StartsFirst(b: Base, log: seq<Start>, p: nat) {
    forall q: nat :: q < (if log == [] then p else log[0].priority) && q < |b.queues| ==> b.queues[q] == []
  }

  lemma DispatchedNone(b: Base, script: nat -> seq<Action>, ioOk: nat -> bool, k0: nat, limits: Limits)
    ensures Dispatched(b, [], b, script, ioOk, k0, limits, 0) && External(b.info, []) == {}
  {
    hide Replays;
    ReplaysNone(b, b, script, ioOk, k0);
    NoneExternal(b.info);
  }

  /** One more queue. */
  lemma DispatchedOn(b0: Base, log: seq<Start>, b: Base, b1: Base, more: seq<Start>, b': Base, script: nat -> seq<Action>,
                     ioOk: nat -> bool, k0: nat, limits: Limits, p: nat, max: int, endtime: Option<int>, n: int)
    requires Dispatched(b0, log, b, script, ioOk, k0, limits, 0) && Between(b, b1) && b.info == b0.info
    requires Processed(b1, more, b', script, ioOk, k0 + |log|, p, max, endtime, n)
    requires if p < limits.after then max == INT_MAX else max == limits.max && endtime == limits.endtime
    requires (forall i :: 0 <= i < |log| ==> log[i].priority < p) && (log != [] ==> !b.breaks)
    ensures Dispatched(b0, log + more, b', script, ioOk, k0, limits, n)
  {
    hide Replays, WentAcross, WentOn, External;
    ReplaysBetween(b0, log, b, b1, script, ioOk, k0);
    ReplaysOn(b0, log, b1, more, b', script, ioOk, k0);
    ExternalOn(b0.info, log, more);
    FirstBefore(b1, more, b', script, ioOk, k0 + |log|);
    WentAcrossOn(b0.info, log, more, p, max, endtime, limits);
  }

  lemma FirstBefore(b0: Base, log: seq<Start>, b: Base, script: nat -> seq<Action>, ioOk: nat -> bool, k0: nat)
    requires Replays(b0, log, b, script, ioOk, k0)
    ensures log != [] ==> Between(b0, log[0].before)
  {}

  /** Once callbacks that count have been run, the dispatch ends because the last queue is empty, or with the limit that has
      been reached, or because the dispatcher is to start over. */
  ghost predicate Ended(b: Base, log: seq<Start>, c: int, limits: Limits) {
    c > 0 ==>
      && log != [] && log[|log| - 1].priority < |b.queues|
      && var p := log[|log| - 1].priority;
         || b.queues[p] == [] || b.continues || (p < limits.after && c >= INT_MAX)
         || (p >= limits.after && c >= limits.max)
         || (p >= limits.after && limits.endtime.Some? && b.now >= limits.endtime.value)
  }

  lemma DispatchedBetween(b0: Base, log: seq<Start>, b: Base, b': Base, script: nat -> seq<Action>, ioOk: nat -> bool, k0: nat,
                          limits: Limits, n: int)
    requires Dispatched(b0, log, b, script, ioOk, k0, limits, n) && Between(b, b')
    ensures Dispatched(b0, log, b', script, ioOk, k0, limits, n)
    ensures (forall c :: Ended(b, log, c, limits) ==> Ended(b', log, c, limits)) && (forall p :: NoneBefore(b, p) ==> NoneBefore(b', p))
  {
    hide Replays, WentAcross, External;
    ReplaysBetween(b0, log, b, b', script, ioOk, k0);
  }

  lemma StartsAny(b: Base, log: seq<Start>, p: nat, q: nat)
    requires StartsFirst(b, log, p) && (log != [] || q <= p)
    ensures StartsFirst(b, log, q)
  {}

  lemma StartsHere(b0: Base, log: seq<Start>, more: seq<Start>, p: nat)
    requires StartsFirst(b0, log, p) && forall i :: 0 <= i < |more| ==> more[i].priority == p
    ensures StartsFirst(b0, log + more, p)
  {}

  lemma ProcessedFrom(b0: Base, log: seq<Start>, b: Base, script: nat -> seq<Action>, ioOk: nat -> bool, k0: nat,
                      p: nat, max: int, endtime: Option<int>, count: int)
    requires Processed(b0, log, b, script, ioOk, k0, p, max, endtime, count)
    ensures forall i :: 0 <= i < |log| ==> log[i].priority == p
    ensures log == [] ==> Between(b0, b) && count == 0
  {
    hide WentOn;
  }

  /** A dispatch that has started callbacks from the first `p` queues, and none that counts. */
  ghost predicate Underway(b0: Base, log: seq<Start>, b: Base, script: nat -> seq<Action>, ioOk: nat -> bool, k0: nat,
                           limits: Limits, p: nat) {
    && Dispatched(b0, log, b, script, ioOk, k0, limits, 0) && StartsFirst(b0, log, p)
    && (log != [] ==> !b.breaks) && (forall i :: 0 <= i < |log| ==> log[i].priority < p)
  }

  /** A dispatch that is over, with the result `c`; it got as far as queue `p`. */
  ghost predicate Over(b0: Base, log: seq<Start>, b: Base, script: nat -> seq<Action>, ioOk: nat -> bool, k0: nat,
                       limits: Limits, p: nat, c: int) {
    && Dispatched(b0, log, b, script, ioOk, k0, limits, |External(b0.info, log)|) && StartsFirst(b0, log, p)
    && c == if log != [] && b.breaks then -1 else |External(b0.info, log)|
  }

  lemma UnderwayNone(b: Base, script: nat -> seq<Action>, ioOk: nat -> bool, k0: nat, limits: Limits)
    ensures Underway(b, [], b, script, ioOk, k0, limits, 0) && NoneBefore(b, 0)
  {
    hide Dispatched;
    DispatchedNone(b, script, ioOk, k0, limits);
  }

  /** An empty queue is passed over. */
  lemma UnderwayNext(b0: Base, log: seq<Start>, b: Base, script: nat -> seq<Action>, ioOk: nat -> bool, k0: nat, limits: Limits, p: nat)
    requires Underway(b0, log, b, script, ioOk, k0, limits, p) && p < |b.queues| && b.queues[p] == []
    ensures Underway(b0, log, b, script, ioOk, k0, limits, p + 1) && (NoneBefore(b, p) ==> NoneBefore(b, p + 1))
  {
    hide WentAcross, External, Replayed;
  }

  lemma UnderwayIsOver(b0: Base, log: seq<Start>, b: Base, script: nat -> seq<Action>, ioOk: nat -> bool, k0: nat, limits: Limits, p: nat)
    requires Underway(b0, log, b, script, ioOk, k0, limits, p)
    ensures Over(b0, log, b, script, ioOk, k0, limits, p, 0) && Ended(b, log, 0, limits)
  {
    hide Replays, WentAcross, External;
  }

  /** A queue that is not empty is processed. */
  lemma UnderwayOn(b0: Base, log: seq<Start>, b: Base, b1: Base, more: seq<Start>, b': Base, script: nat -> seq<Action>,
                   ioOk: nat -> bool, k0: nat, limits: Limits, p: nat, max: int, endtime: Option<int>, c: int)
    requires Underway(b0, log, b, script, ioOk, k0, limits, p) && Between(b, b1) && b.info == b0.info
    requires Processed(b1, more, b', script, ioOk, k0 + |log|, p, max, endtime, |External(b0.info, more)|)
    requires if p < limits.after then max == INT_MAX else max == limits.max && endtime == limits.endtime
    requires c == if more != [] && b'.breaks then -1 else |External(b0.info, more)|
    ensures Over(b0, log + more, b', script, ioOk, k0, limits, p, c)
    ensures c == 0 && more != [] ==> Underway(b0, log + more, b', script, ioOk, k0, limits, p + 1)
  {
    hide Dispatched, Processed, External;
    ProcessedFrom(b1, more, b', script, ioOk, k0 + |log|, p, max, endtime, |External(b0.info, more)|);
    DispatchedOn(b0, log, b, b1, more, b', script, ioOk, k0, limits, p, max, endtime, |External(b0.info, more)|);
    DispatchedCount(b0, log, b, script, ioOk, k0, limits, 0);
    ExternalOn(b0.info, log, more);
    StartsHere(b0, log, more, p);
  }

  lemma DispatchedCount(b0: Base, log: seq<Start>, b: Base, script: nat -> seq<Action>, ioOk: nat -> bool, k0: nat, limits: Limits, n: int)
    requires Dispatched(b0, log, b, script, ioOk, k0, limits, n)
    ensures n == |External(b0.info, log)|
  {
    hide Replays, WentAcross, External;
  }

  lemma OverBetween(b0: Base, log: seq<Start>, b: Base, b': Base, script: nat -> seq<Action>, ioOk: nat -> bool, k0: nat,
                    limits: Limits, p: nat, q: nat, c: int)
    requires Over(b0, log, b, script, ioOk, k0, limits, p, c) && Between(b, b') && (log != [] || q <= p)
    ensures Over(b0, log, b', script, ioOk, k0, limits, q, c)
    ensures (forall n :: Ended(b, log, n, limits) ==> Ended(b', log, n, limits)) && (forall p :: NoneBefore(b, p) ==> NoneBefore(b', p))
  {
    hide Dispatched, External;
    DispatchedBetween(b0, log, b, b', script, ioOk, k0, limits, |External(b0.info, log)|);
    StartsAny(b0, log, p, q);
  }

  lemma OverMeans(b0: Base, log: seq<Start>, b: Base, script: nat -> seq<Action>, ioOk: nat -> bool, k0: nat,
                  limits: Limits, p: nat, c: int)
    requires Over(b0, log, b, script, ioOk, k0, limits, p, c)
    ensures Replays(b0, log, b, script, ioOk, k0) && WentAcross(b0.info, log, limits)
    ensures c == if log != [] && b.breaks then -1 else |External(b0.info, log)|
    ensures log == [] ==> forall q: nat :: q < p && q < |b0.queues| ==> b0.queues[q] == []
    ensures log != [] ==>
              && log[0].priority < |b0.queues| && b0.queues[log[0].priority] != [] && log[0].e == b0.queues[log[0].priority][0]
              && forall q: nat :: q < log[0].priority ==> b0.queues[q] == []
  {
    hide WentAcross, External, Runs;
    if log != [] {
      assert Replayed(log[0], script(k0 + 0), ioOk(k0 + 0));
    }
  }
}
