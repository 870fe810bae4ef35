/** Whole runs of operations on several buffers. */
module EvBufferRun {
  import opened ByteSeq
  import opened ChainModule
  import opened EvBufferModule
  import EvBufferPullup

  /** What a buffer is to its users: a byte queue with two ends that can be frozen. */
  datatype Queue = Queue(bytes: seq<Byte>, frozenStart: bool, frozenEnd: bool)

  datatype Op =
    | AddOp(b: nat, data: seq<Byte>)
    | PrependOp(b: nat, data: seq<Byte>)
    | DrainOp(b: nat, n: nat)
    | RemoveOp(b: nat, n: nat)
    | PullupOp(b: nat, size: int)
    | FreezeOp(b: nat, start: bool, on: bool)
    | MoveAllOp(b: nat, src: nat)
    | MoveAllToFrontOp(b: nat, src: nat)
    | MoveOp(b: nat, src: nat, n: nat)

  predicate TwoBuffers(op: Op) {
    op.MoveAllOp? || op.MoveAllToFrontOp? || op.MoveOp?
  }

  /** The operation names existing buffers; their lengths do not overflow when added, and a block for the
      bytes to be prepended can be allocated. */
  predicate Allowed(w: seq<Queue>, op: Op) {
    && op.b < |w|
    && (op.PrependOp? ==> |op.data| <= MAX_REQUEST)
    && (TwoBuffers(op) ==> op.src < |w| && |w[op.b].bytes| + |w[op.src].bytes| <= SIZE_MAX)
  }

  function Min(a: nat, b: nat): nat {
    if a <= b then a else b
  }

  /** The bytes that an operation brings into a buffer. */
  function Given(q: Queue, op: Op): seq<Byte> {
    match op
    case AddOp(_, data) => if !q.frozenEnd && |data| <= SIZE_MAX - |q.bytes| && |data| <= MAX_REQUEST then data else []
    case PrependOp(_, data) => if !q.frozenStart && |data| <= SIZE_MAX - |q.bytes| then data else []
    case _ => []
  }

  /** How many bytes an operation on one buffer takes out of it. */
  function Count(q: Queue, op: Op): (n: nat)
    ensures n <= |q.bytes|
  {
    if (op.DrainOp? || op.RemoveOp?) && !q.frozenStart then Min(op.n, |q.bytes|) else 0
  }

  /** The effect of an operation on its one buffer. */
  function After(q: Queue, op: Op): Queue {
    match op
    case AddOp(_, _) => q.(bytes := q.bytes + Given(q, op))
    case PrependOp(_, _) => q.(bytes := Given(q, op) + q.bytes)
    case FreezeOp(_, start, on) => if start then q.(frozenStart := on) else q.(frozenEnd := on)
    case _ => q.(bytes := q.bytes[Count(q, op)..])
  }

  /** How many bytes move from the front of `src` to another buffer. */
  function Moved(q: Queue, src: Queue, op: Op): (n: nat)
    ensures n <= |src.bytes|
  {
    if src.frozenStart || (if op.MoveAllToFrontOp? then q.frozenStart else q.frozenEnd) then 0
    else if op.MoveOp? then Min(op.n, |src.bytes|)
    else |src.bytes|
  }

  function MovedTo(q: Queue, src: Queue, op: Op): Queue {
    var bytes := src.bytes[..Moved(q, src, op)];
    q.(bytes := if op.MoveAllToFrontOp? then bytes + q.bytes else q.bytes + bytes)
  }

  function MovedFrom(q: Queue, src: Queue, op: Op): Queue {
    src.(bytes := src.bytes[Moved(q, src, op)..])
  }

  /** The effect of an operation on the queues. */
  function Step(w: seq<Queue>, op: Op): (w': seq<Queue>)
    requires Allowed(w, op)
    ensures |w'| == |w|
  {
    if !TwoBuffers(op) then w[op.b := After(w[op.b], op)]
    else if op.b == op.src then w
    else w[op.src := MovedFrom(w[op.b], w[op.src], op)][op.b := MovedTo(w[op.b], w[op.src], op)]
  }

  /** The bytes an operation hands to the user. */
  function Handed(w: seq<Queue>, op: Op): seq<Byte>
    requires Allowed(w, op)
  {
    if op.RemoveOp? then w[op.b].bytes[..Count(w[op.b], op)] else []
  }

  /** What comes of the operations on two queues that are not frozen. */
  lemma OnOpenQueues(q: Queue, s: Queue, data: seq<Byte>, n: nat, size: int)
    requires !q.frozenStart && !q.frozenEnd && !s.frozenStart && !s.frozenEnd && |q.bytes| + |s.bytes| <= SIZE_MAX
    requires |data| <= MAX_REQUEST && |data| + |q.bytes| <= SIZE_MAX
    ensures var w, k, m := [q, s], if n <= |q.bytes| then n else |q.bytes|, if n <= |s.bytes| then n else |s.bytes|;
            && Step(w, AddOp(0, data)) == [q.(bytes := q.bytes + data), s]
            && Step(w, PrependOp(0, data)) == [q.(bytes := data + q.bytes), s]
            && Step(w, DrainOp(0, n)) == Step(w, RemoveOp(0, n)) == [q.(bytes := q.bytes[k..]), s]
            && Handed(w, RemoveOp(0, n)) == q.bytes[..k] && Handed(w, DrainOp(0, n)) == []
            && Step(w, PullupOp(0, size)) == w
            && Step(w, MoveAllOp(0, 1)) == [q.(bytes := q.bytes + s.bytes), s.(bytes := [])]
            && Step(w, MoveAllToFrontOp(0, 1)) == [q.(bytes := s.bytes + q.bytes), s.(bytes := [])]
            && Step(w, MoveOp(0, 1, n)) == [q.(bytes := q.bytes + s.bytes[..m]), s.(bytes := s.bytes[m..])]
  {
    assert s.bytes[..|s.bytes|] == s.bytes && s.bytes[|s.bytes|..] == [];
    assert q.bytes[0..] == q.bytes;
  }

  /** Every operation of a run is allowed when its turn comes. */
  predicate AllowedRun(w: seq<Queue>, ops: seq<Op>)
    decreases |ops|
  {
    ops == [] || (Allowed(w, ops[0]) && AllowedRun(Step(w, ops[0]), ops[1..]))
  }

  function Outcome(w: seq<Queue>, ops: seq<Op>): (w': seq<Queue>)
    requires AllowedRun(w, ops)
    ensures |w'| == |w|
    decreases |ops|
  {
    if ops == [] then w else Outcome(Step(w, ops[0]), ops[1..])
  }

  /** The bytes handed to the user by a run, in order. */
  function Output(w: seq<Queue>, ops: seq<Op>): seq<Byte>
    requires AllowedRun(w, ops)
    decreases |ops|
  {
    if ops == [] then [] else Handed(w, ops[0]) + Output(Step(w, ops[0]), ops[1..])
  }

  /** A buffer stands for a queue. */
  ghost predicate Stands(buf: EvBuffer, q: Queue)
    reads buf, buf.Repr
  {
    buf.Valid() && buf.Contents() == q.bytes && buf.freezeStart == q.frozenStart && buf.freezeEnd == q.frozenEnd
  }

  /** No two buffers share a block. */
  ghost predicate Disjoint(bufs: seq<EvBuffer>)
    reads bufs
  {
    forall i, j :: 0 <= i < j < |bufs| ==> bufs[i] != bufs[j] && bufs[i].Repr !! bufs[j].Repr
  }

  ghost function Everything(bufs: seq<EvBuffer>): set<object>
    reads bufs
  {
    set i, o | 0 <= i < |bufs| && o in bufs[i].Repr :: o
  }

  ghost predicate AllStand(bufs: seq<EvBuffer>, w: seq<Queue>)
    reads bufs, Everything(bufs)
  {
    |w| == |bufs| && Disjoint(bufs) && forall i :: 0 <= i < |bufs| ==> Stands(bufs[i], w[i])
  }

  lemma Length(buf: EvBuffer)
    requires buf.Valid()
    ensures buf.totalLen == |buf.Contents()| && buf in buf.Repr
  {}

  /** Carries out an operation on one buffer. */
  method OnOne(buf: EvBuffer, op: Op, ghost q: Queue) returns (handed: seq<Byte>)
    requires Stands(buf, q) && !TwoBuffers(op) && (op.PrependOp? ==> |op.data| <= MAX_REQUEST)
    modifies buf.Repr
    ensures Stands(buf, After(q, op)) && fresh(buf.Repr - old(buf.Repr))
    ensures handed == if op.RemoveOp? then q.bytes[..Count(q, op)] else []
  {
    hide EvBuffer.Valid, EvBuffer.Contents;
    Length(buf);
    handed := [];
    match op {
      case AddOp(_, data) =>
        var _ := buf.Add(data);
      case PrependOp(_, data) =>
        var ok, stored := buf.Prepend(data);
        assert data[0..] == data && data[|data|..] == [];
      case DrainOp(_, n) =>
        var _ := buf.Drain(n);
      case RemoveOp(_, n) =>
        var out := new Byte[n];
        var count := if buf.freezeStart then 0 else Min(n, buf.totalLen);
        var _ := buf.Remove(out, n);
        handed := out[..count];
      case PullupOp(_, size) =>
        var _ := EvBufferPullup.Pullup(buf, size);
      case FreezeOp(_, start, on) =>
        buf.Freeze(start, on);
    }
  }

  /** Carries out an operation on two buffers. */
  method OnTwo(buf: EvBuffer, src: EvBuffer, op: Op, ghost q: Queue, ghost s: Queue)
    requires Stands(buf, q) && Stands(src, s) && buf != src && buf.Repr !! src.Repr
    requires TwoBuffers(op) && |q.bytes| + |s.bytes| <= SIZE_MAX
    modifies buf.Repr, src.Repr
    ensures Stands(buf, MovedTo(q, s, op)) && Stands(src, MovedFrom(q, s, op)) && buf.Repr !! src.Repr
    ensures fresh(buf.Repr + src.Repr - old(buf.Repr + src.Repr))
  {
    hide EvBuffer.Valid, EvBuffer.Contents;
    Length(buf);
    Length(src);
    match op {
      case MoveAllOp(_, _) =>
        var _ := buf.AddBuffer(src);
      case MoveAllToFrontOp(_, _) =>
        var _ := buf.PrependBuffer(src);
      case MoveOp(_, _, n) =>
        var _ := src.RemoveBuffer(buf, n);
    }
  }

  /** Moving a buffer's bytes to itself changes nothing. */
  method OnSame(buf: EvBuffer, op: Op, ghost q: Queue)
    requires Stands(buf, q) && TwoBuffers(op)
    modifies buf.Repr
    ensures Stands(buf, q) && fresh(buf.Repr - old(buf.Repr))
  {
    hide EvBuffer.Valid, EvBuffer.Contents;
    Length(buf);
    match op {
      case MoveAllOp(_, _) =>
        var _ := buf.AddBuffer(buf);
      case MoveAllToFrontOp(_, _) =>
        var _ := buf.PrependBuffer(buf);
      case MoveOp(_, _, n) =>
        var _ := buf.RemoveBuffer(buf, n);
    }
  }

  lemma Inside(bufs: seq<EvBuffer>, w: seq<Queue>, i: nat)
    requires AllStand(bufs, w) && i < |w|
    ensures |bufs| == |w| && bufs[i] in bufs[i].Repr && bufs[i].Repr <= Everything(bufs) && Stands(bufs[i], w[i])
  {
    Length(bufs[i]);
  }

  /** Carries out an operation on one of the buffers, leaving the others alone. */
  method PerformOne(bufs: seq<EvBuffer>, op: Op, ghost w: seq<Queue>) returns (handed: seq<Byte>)
    requires AllStand(bufs, w) && Allowed(w, op) && (TwoBuffers(op) ==> op.b == op.src)
    modifies bufs[op.b].Repr
    ensures AllStand(bufs, Step(w, op)) && fresh(Everything(bufs) - old(Everything(bufs)))
    ensures handed == Handed(w, op)
  {
    hide Stands, After, MovedTo, MovedFrom, Count;
    forall i | 0 <= i < |bufs|
      ensures bufs[i] in bufs[i].Repr && Stands(bufs[i], w[i])
    {
      Inside(bufs, w, i);
    }
    handed := [];
    if TwoBuffers(op) {
      OnSame(bufs[op.b], op, w[op.b]);
    } else {
      handed := OnOne(bufs[op.b], op, w[op.b]);
    }
  }

  /** Carries out an operation on two of the buffers, leaving the others alone. */
  method PerformTwo(bufs: seq<EvBuffer>, op: Op, ghost w: seq<Queue>)
    requires AllStand(bufs, w) && Allowed(w, op) && TwoBuffers(op) && op.b != op.src
    modifies bufs[op.b].Repr, bufs[op.src].Repr
    ensures AllStand(bufs, Step(w, op)) && fresh(Everything(bufs) - old(Everything(bufs)))
  {
    hide Stands, After, MovedTo, MovedFrom, Count;
    forall i | 0 <= i < |bufs|
      ensures bufs[i] in bufs[i].Repr && Stands(bufs[i], w[i])
    {
      Inside(bufs, w, i);
    }
    OnTwo(bufs[op.b], bufs[op.src], op, w[op.b], w[op.src]);
  }

  /** Carries out one operation. */
  method Perform(bufs: seq<EvBuffer>, op: Op, ghost w: seq<Queue>) returns (handed: seq<Byte>)
    requires AllStand(bufs, w) && Allowed(w, op)
    modifies Everything(bufs)
    ensures AllStand(bufs, Step(w, op)) && fresh(Everything(bufs) - old(Everything(bufs)))
    ensures handed == Handed(w, op)
  {
    hide AllStand, Step;
    Inside(bufs, w, op.b);
    if TwoBuffers(op) && op.b != op.src {
      Inside(bufs, w, op.src);
      PerformTwo(bufs, op, w);
      handed := [];
    } else {
      handed := PerformOne(bufs, op, w);
    }
  }

  /** Any run of operations on buffers that share nothing acts on each of them as on a byte queue. */
  method Run(bufs: seq<EvBuffer>, ops: seq<Op>, ghost w: seq<Queue>) returns (output: seq<Byte>)
    requires AllStand(bufs, w) && AllowedRun(w, ops)
    modifies Everything(bufs)
    ensures AllStand(bufs, Outcome(w, ops))
    ensures output == Output(w, ops)
  {
    hide AllStand, Allowed, Step, Handed;
    output := [];
    var i := 0;
    ghost var now := w;
    assert ops[0..] == ops;
    while i < |ops|
      invariant i <= |ops| && AllStand(bufs, now) && AllowedRun(now, ops[i..])
      invariant fresh(Everything(bufs) - old(Everything(bufs)))
      invariant Outcome(w, ops) == Outcome(now, ops[i..])
      invariant Output(w, ops) == output + Output(now, ops[i..])
    {
      assert ops[i..][1..] == ops[i + 1..];
      var handed := Perform(bufs, ops[i], now);
      Assoc(output, handed, Output(Step(now, ops[i]), ops[i + 1..]));
      output := output + handed;
      now := Step(now, ops[i]);
      i := i + 1;
    }
  }

  /** The bytes that a run brings in, in order. */
  function Fed(w: seq<Queue>, ops: seq<Op>): seq<Byte>
    requires AllowedRun(w, ops)
    decreases |ops|
  {
    if ops == [] then [] else Given(w[ops[0].b], ops[0]) + Fed(Step(w, ops[0]), ops[1..])
  }

  /** The bytes that a run takes out, handed to the user or dropped. */
  function Gone(w: seq<Queue>, ops: seq<Op>): seq<Byte>
    requires AllowedRun(w, ops)
    decreases |ops|
  {
    if ops == [] then [] else w[ops[0].b].bytes[..Count(w[ops[0].b], ops[0])] + Gone(Step(w, ops[0]), ops[1..])
  }

  /** How often a byte occurs. */
  function Tally(s: seq<Byte>, c: Byte): nat {
    multiset(s)[c]
  }

  /** How often a byte occurs in all the queues. */
  function TallyAll(w: seq<Queue>, c: Byte): nat {
    if w == [] then 0 else Tally(w[0].bytes, c) + TallyAll(w[1..], c)
  }

  lemma TallyConcat(a: seq<Byte>, b: seq<Byte>, c: Byte)
    ensures Tally(a + b, c) == Tally(a, c) + Tally(b, c)
  {}

  lemma TallyCut(s: seq<Byte>, n: nat, c: Byte)
    requires n <= |s|
    ensures Tally(s, c) == Tally(s[..n], c) + Tally(s[n..], c)
  {
    assert s == s[..n] + s[n..];
  }

  lemma {:induction false} TallyUpdate(w: seq<Queue>, i: nat, q: Queue, c: Byte)
    requires i < |w|
    ensures TallyAll(w[i := q], c) + Tally(w[i].bytes, c) == TallyAll(w, c) + Tally(q.bytes, c)
  {
    if i > 0 {
      TallyUpdate(w[1..], i - 1, q, c);
      assert w[i := q][1..] == w[1..][i - 1 := q];
    } else {
      assert w[i := q][1..] == w[1..];
    }
  }

  lemma StepConserves(w: seq<Queue>, op: Op, c: Byte)
    requires Allowed(w, op)
    ensures TallyAll(Step(w, op), c) + Tally(w[op.b].bytes[..Count(w[op.b], op)], c) == TallyAll(w, c) + Tally(Given(w[op.b], op), c)
  {
    hide Tally, TallyAll;
    var q := w[op.b];
    TallyCut(q.bytes, Count(q, op), c);
    if !TwoBuffers(op) {
      TallyUpdate(w, op.b, After(q, op), c);
      TallyConcat(q.bytes, Given(q, op), c);
      TallyConcat(Given(q, op), q.bytes, c);
      assert Count(q, op) == 0 ==> q.bytes[Count(q, op)..] == q.bytes;
      TallyNone(c);
    } else {
      TallyNone(c);
      if op.b != op.src {
        MoveConserves(w, op, c);
      }
    }
  }

  lemma MoveConserves(w: seq<Queue>, op: Op, c: Byte)
    requires Allowed(w, op) && TwoBuffers(op) && op.b != op.src
    ensures TallyAll(Step(w, op), c) == TallyAll(w, c)
  {
    hide Tally, TallyAll;
    var q, s := w[op.b], w[op.src];
    TallyUpdate(w, op.src, MovedFrom(q, s, op), c);
    TallyUpdate(w[op.src := MovedFrom(q, s, op)], op.b, MovedTo(q, s, op), c);
    var n := Moved(q, s, op);
    TallyCut(s.bytes, n, c);
    TallyConcat(q.bytes, s.bytes[..n], c);
    TallyConcat(s.bytes[..n], q.bytes, c);
  }

  lemma TallyNone(c: Byte)
    ensures Tally([], c) == 0
  {}

  /** No run loses, invents or duplicates a byte. */
  lemma {:induction false} RunConserves(w: seq<Queue>, ops: seq<Op>, c: Byte)
    requires AllowedRun(w, ops)
    ensures TallyAll(Outcome(w, ops), c) + Tally(Gone(w, ops), c) == TallyAll(w, c) + Tally(Fed(w, ops), c)
    decreases |ops|
  {
    hide Tally, TallyAll, Step, Given, Count;
    if ops == [] {
      TallyNone(c);
    } else {
      var op := ops[0];
      StepConserves(w, op, c);
      RunConserves(Step(w, op), ops[1..], c);
      TallyConcat(w[op.b].bytes[..Count(w[op.b], op)], Gone(Step(w, op), ops[1..]), c);
      TallyConcat(Given(w[op.b], op), Fed(Step(w, op), ops[1..]), c);
    }
  }

  /** Bytes are added to queue 0, moved from it to queue 1 and removed from that one. */
  predicate Forward(op: Op) {
    match op
    case AddOp(b, _) => b == 0
    case RemoveOp(b, _) => b == 1
    case MoveAllOp(b, src) => b == 1 && src == 0
    case MoveOp(b, src, _) => b == 1 && src == 0
    case PullupOp(_, _) => true
    case FreezeOp(_, _, _) => true
    case _ => false
  }

  lemma StepKeepsOrder(w: seq<Queue>, op: Op)
    requires |w| >= 2 && Allowed(w, op) && Forward(op)
    ensures Handed(w, op) + (Step(w, op)[1].bytes + Step(w, op)[0].bytes) == (w[1].bytes + w[0].bytes) + Given(w[op.b], op)
  {
    var w' := Step(w, op);
    if op.AddOp? {
      Assoc(w[1].bytes, w[0].bytes, Given(w[0], op));
    } else if op.RemoveOp? {
      var b, n := w[1].bytes, Count(w[1], op);
      assert b == b[..n] + b[n..];
      Assoc(b[..n], b[n..], w[0].bytes);
    } else if TwoBuffers(op) {
      var b, n := w[0].bytes, Moved(w[1], w[0], op);
      assert b == b[..n] + b[n..];
      Assoc(w[1].bytes, b[..n], b[n..]);
    }
  }

  /** A pipeline of two buffers delivers the bytes added to it in their order, however they are moved, frozen
      or pulled up on the way. */
  lemma {:induction false} RunKeepsOrder(w: seq<Queue>, ops: seq<Op>)
    requires |w| >= 2 && AllowedRun(w, ops) && forall op | op in ops :: Forward(op)
    ensures var w' := Outcome(w, ops);
            Output(w, ops) + (w'[1].bytes + w'[0].bytes) == (w[1].bytes + w[0].bytes) + Fed(w, ops)
    decreases |ops|
  {
    if ops != [] {
      hide Step, Given, Handed;
      var op := ops[0];
      var w1, w' := Step(w, op), Outcome(w, ops);
      StepKeepsOrder(w, op);
      RunKeepsOrder(w1, ops[1..]);
      Assoc(Handed(w, op), Output(w1, ops[1..]), w'[1].bytes + w'[0].bytes);
      Assoc(Handed(w, op), w1[1].bytes + w1[0].bytes, Fed(w1, ops[1..]));
      Assoc(w[1].bytes + w[0].bytes, Given(w[op.b], op), Fed(w1, ops[1..]));
    }
  }
}
