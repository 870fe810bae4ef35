/** Setting up callbacks and common-timeout queues. */
module EventSetup {
  import opened Lists
  import opened Options
  import opened EventQueues
  import opened EventOps
  import opened EventCalls

  const BLANK := State(false, false, false, false, false, Timeval(0, None), Timeval(0, None))

  /** Adds a callback that is on no queue. */
  function Register(b: Base, i: Info): Base {
    b.(info := b.info + [i], st := b.st + [BLANK])
  }

  /** Adds a common-timeout queue with its stand-in. */
  function AddQueue(b: Base): Base {
    Register(b, Info(true, true, false, false, false, 0)).(timers := b.timers + [|b.st|], ctls := b.ctls + [[]])
  }

  lemma {:induction false} WeightsMore(info: seq<Info>, st: seq<State>, i: Info)
    requires |info| == |st|
    ensures Weights(info + [i], st + [BLANK]) == Weights(info, st)
  {
    if st != [] {
      WeightsMore(info[1..], st[1..], i);
      assert (info + [i])[1..] == info[1..] + [i] && (st + [BLANK])[1..] == st[1..] + [BLANK];
    }
  }

  lemma RegisterActive(info: seq<Info>, st: seq<State>, queues: seq<seq<nat>>, i: Info)
    requires |info| == |st| && ActiveOk(info, st, queues) && i.pri < |queues|
    ensures ActiveOk(info + [i], st + [BLANK], queues)
  {
    forall p: nat | p < |queues|
      ensures ActiveAt(info + [i], st + [BLANK], queues[p], p)
    {
      assert ActiveAt(info, st, queues[p], p);
    }
  }

  lemma RegisterQueues(b: Base, i: Info)
    requires Core(b) && i.pri < |b.queues|
    ensures var b' := Register(b, i);
            && |b'.info| == |b'.st| && FlagsOk(b'.info, b'.st) && ActiveOk(b'.info, b'.st, b'.queues) && LaterOk(b'.st, b'.later)
            && CountsOk(b'.info, b'.st, b'.queues, b'.later, b'.count, b'.countActive)
  {
    hide HeapOk, CommonOk, StandInsOk, Weights, ActiveOk, Unique, Total;
    WeightsMore(b.info, b.st, i);
    RegisterActive(b.info, b.st, b.queues, i);
    var info', st' := b.info + [i], b.st + [BLANK];
    forall e | 0 <= e < |st'|
      ensures st'[e] == if e < |b.st| then b.st[e] else BLANK
      ensures info'[e] == if e < |b.info| then b.info[e] else i
    {}
  }

  lemma RegisterTimers(b: Base, i: Info)
    requires Core(b)
    ensures var b' := Register(b, i);
            HeapOk(b'.st, b'.at) && CommonOk(b'.st, b'.ctls) && StandInsOk(b'.info, b'.st, b'.timers)
  {
    hide FlagsOk, ActiveOk, LaterOk, CountsOk, Unique;
    var info', st' := b.info + [i], b.st + [BLANK];
    forall e | 0 <= e < |st'|
      ensures st'[e] == if e < |b.st| then b.st[e] else BLANK
      ensures info'[e] == if e < |b.info| then b.info[e] else i
    {}
    forall c | 0 <= c < |b.ctls|
      ensures QueueOk(st', c, b.ctls[c])
    {
      QueueFacts(b, c);
      assert QueueOk(b.st, c, b.ctls[c]);
    }
  }

  /** Setting up a callback keeps the invariant. */
  lemma RegisterKeeps(b: Base, i: Info, running: set<nat>)
    requires Fine(b, running) && IntervalsOk(b) && i.pri < |b.queues|
    ensures Fine(Register(b, i), running) && IntervalsOk(Register(b, i))
  {
    hide FlagsOk, ActiveOk, LaterOk, CountsOk, HeapOk, CommonOk, StandInsOk;
    RegisterQueues(b, i);
    RegisterTimers(b, i);
    forall c | 0 <= c < |b.ctls|
      ensures WakesUp(Register(b, i).st, b.timers[c], b.ctls[c], b.at, running)
    {
      QueueFacts(b, c);
      assert WakesUp(b.st, b.timers[c], b.ctls[c], b.at, running);
    }
  }

  /** So does setting up a common-timeout queue. */
  lemma AddQueueKeeps(b: Base, running: set<nat>)
    requires Fine(b, running) && IntervalsOk(b) && |b.queues| > 0
    ensures Fine(AddQueue(b), running) && IntervalsOk(AddQueue(b))
  {
    hide FlagsOk, ActiveOk, LaterOk, CountsOk, HeapOk, CommonOk;
    var i := Info(true, true, false, false, false, 0);
    RegisterKeeps(b, i, running);
    var b1 := Register(b, i);
    NewQueue(b1);
    assert forall c :: 0 <= c < |b.timers| ==> b.timers[c] < |b.st|;
    forall c | 0 <= c < |b.ctls| + 1
      ensures WakesUp(b1.st, (b.timers + [|b.st|])[c], (b.ctls + [[]])[c], b.at, running)
    {
      if c < |b.ctls| {
        assert WakesUp(b1.st, b1.timers[c], b1.ctls[c], b1.at, running);
      }
    }
  }

  lemma NewQueue(b: Base)
    requires Core(b)
    ensures CommonOk(b.st, b.ctls + [[]])
  {
    hide FlagsOk, ActiveOk, LaterOk, CountsOk, HeapOk, StandInsOk;
  }

  // How a common timeout is told from other ones: by the high bits of its microseconds

  const MAX_COMMON_TIMEOUTS := 256
  const MICROSECONDS := 0x10_0000
  const MAGIC := 0x5000_0000

  /** A struct timeval, of whose microseconds 32 bits matter. */
  datatype Duration = Duration(sec: int, usec: nat)

  function Tag(usec: nat, queue: nat): nat {
    usec + MAGIC + queue * MICROSECONDS
  }

  /** The number of the queue that the high bits name. */
  function QueueOf(usec: nat): nat {
    usec / MICROSECONDS % 256
  }

  predicate IsCommon(usec: nat, queues: nat) {
    usec / 0x1000_0000 % 16 == 5 && QueueOf(usec) < queues
  }

  /** The tag of a queue is read back, and only while the queue exists. */
  lemma TagReadsBack(usec: nat, queue: nat, queues: nat)
    requires usec < MICROSECONDS && queue < MAX_COMMON_TIMEOUTS
    ensures Tag(usec, queue) == 0x5000_0000 + queue * 0x10_0000 + usec
    ensures QueueOf(Tag(usec, queue)) == queue && Tag(usec, queue) % MICROSECONDS == usec
    ensures IsCommon(Tag(usec, queue), queues) <==> queue < queues
  {
    var tagged := Tag(usec, queue);
    assert tagged == (queue + 0x500) * MICROSECONDS + usec;
    assert tagged / MICROSECONDS == queue + 0x500 && tagged % MICROSECONDS == usec;
    assert tagged == 5 * 0x1000_0000 + (queue * MICROSECONDS + usec);
    assert tagged / 0x1000_0000 == 5;
  }

  /** What a timeval means to the event base. */
  function Meant(d: Duration, queues: nat): Timeval {
    if IsCommon(d.usec, queues) then Timeval(d.sec * 1_000_000 + d.usec % MICROSECONDS, Some(QueueOf(d.usec)))
    else Timeval(d.sec * 1_000_000 + d.usec, None)
  }

  /** A duration without a tag and without more than a second in its microseconds. */
  function Normal(d: Duration, queues: nat): (r: Duration)
    ensures r.usec <= 1_000_000
    ensures r.sec * 1_000_000 + r.usec == Meant(d, queues).usec
  {
    if d.usec > 1_000_000 then
      var usec := if IsCommon(d.usec, queues) then d.usec % MICROSECONDS else d.usec;
      Duration(d.sec + usec / 1_000_000, usec % 1_000_000)
    else d
  }

  /** The durations of the common timeouts carry the tags of their queues. */
  predicate AllTagged(durations: seq<Duration>) {
    |durations| <= MAX_COMMON_TIMEOUTS &&
    forall i: nat :: i < |durations| ==> Untagged(durations[i]).usec <= 1_000_000 && durations[i].usec == Tag(Untagged(durations[i]).usec, i)
  }

  function Untagged(d: Duration): Duration {
    d.(usec := d.usec % MICROSECONDS)
  }

  predicate HasDuration(durations: seq<Duration>, d: Duration) {
    exists i: nat :: i < |durations| && Untagged(durations[i]) == d
  }

  /** Asking for a common timeout with what asking has returned comes to the same duration, unless its microseconds are
      a whole second. */
  lemma AskedAgain(d: Duration, queue: nat, queues: nat)
    requires queue < queues <= MAX_COMMON_TIMEOUTS
    ensures var r := Normal(d, queues);
            Normal(r.(usec := Tag(r.usec, queue)), queues) == r <==> d.usec != 1_000_000
  {
    var r := Normal(d, queues);
    TagReadsBack(r.usec, queue, queues);
  }
}
