/** Making the first bytes of a buffer contiguous. */
module EvBufferPullup {
  import opened ByteSeq
  import opened ChainModule
  import opened ChainList
  import opened EvBufferModule

  /** `tmp` and its memory are not part of the list. */
  ghost predicate Foreign(tmp: Chain, t: seq<Chain>) {
    forall i :: 0 <= i < |t| ==> t[i] != tmp && t[i].buffer != tmp.buffer
  }

  /** `tmp.buffer`, from `at` on, starts with `d`. */
  ghost predicate Filled(tmp: Chain, at: nat, d: seq<Byte>)
    reads tmp.buffer
  {
    at + |d| <= tmp.buffer.Length && tmp.buffer[at..at + |d|] == d
  }

  /** Writes behind what has been filled in so far. */
  method FillMore(tmp: Chain, at: nat, ghost d: seq<Byte>, done: nat, e: seq<Byte>, ghost t: seq<Chain>, ghost tp: seq<seq<Byte>>)
    requires Filled(tmp, at, d) && done == |d| && at + done + |e| <= tmp.buffer.Length
    requires Foreign(tmp, t) && Holds(t, tp)
    modifies tmp.buffer
    ensures Filled(tmp, at, d + e) && Holds(t, tp)
    ensures tmp.buffer[..at] == old(tmp.buffer[..at])
  {
    Memcpy(tmp.buffer, at + done, e);
    var b := tmp.buffer;
    assert b[at..at + done + |e|] == b[..at + done][at..] + b[at + done..at + done + |e|];
    assert old(b[..at + done])[at..] == d;
    assert b[..at] == b[..at + done][..at];
    assert forall i :: 0 <= i < |t| ==> t[i].Data() == old(t[i].Data());
  }

  /** Copies into `tmp`, from `at` on, the blocks of the list that `want` bytes cover completely, and frees them.
      Tells whether block `d` (the last one with data) went, and whether block `d - 1` (holding the link to it) did. */
  method PullWhole(tmp: Chain, at: nat, chain0: Chain?, want: nat, lastWithData: Chain, link: Chain?,
                   ghost t: seq<Chain>, ghost tp: seq<seq<Byte>>, ghost d: nat)
    returns (chain: Chain?, rest: nat, removedData: bool, removedLink: bool, ghost j: nat)
    requires Linked(t) && Distinct(t) && Holds(t, tp) && Foreign(tmp, t) && chain0 == Nth(t, 0)
    requires want <= |Flatten(tp)| && at + want <= tmp.buffer.Length
    requires d < |t| && lastWithData == t[d] && (if d == 0 then link !in t else link == t[d - 1])
    modifies tmp.buffer
    ensures Linked(t) && Holds(t, tp) && |t| == |tp|
    ensures j <= |t| && chain == Nth(t, j) && (if chain == null then rest == 0 else rest < chain.off)
    ensures |Flatten(tp[..j])| + rest == want && Filled(tmp, at, Flatten(tp[..j]))
    ensures removedData <==> d < j
    ensures removedLink <==> 0 < d <= j
    ensures tmp.buffer[..at] == old(tmp.buffer[..at])
  {
    hide Linked, Holds, Distinct, Foreign, Flatten, Filled;
    chain, rest, removedData, removedLink, j := chain0, want, false, false, 0;
    PullStart(tmp, at, t, tp);
    while chain != null && rest >= chain.off
      invariant Linked(t) && Holds(t, tp) && j <= |t| && chain == Nth(t, j)
      invariant |Flatten(tp[..j])| + rest == want && Filled(tmp, at, Flatten(tp[..j])) && |tp| == |t|
      invariant removedData <==> d < j
      invariant removedLink <==> 0 < d <= j
      invariant tmp.buffer[..at] == old(tmp.buffer[..at])
      modifies tmp.buffer
      decreases |t| - j
    {
      LinkAt(t, j);
      HoldsAt(t, tp, j);
      FlattenPrefix(tp, j);
      SamePlace(t, j, d);
      if d > 0 {
        SamePlace(t, j, d - 1);
      }
      FillMore(tmp, at, Flatten(tp[..j]), want - rest, chain.buffer[chain.misalign..chain.misalign + chain.off], t, tp);
      rest := rest - chain.off;
      if chain == lastWithData {
        removedData := true;
      }
      if chain == link {
        removedLink := true;
      }
      chain := chain.next;
      j := j + 1;
    }
    PullEnd(t, tp, j, rest);
  }

  lemma SamePlace(t: seq<Chain>, i: nat, j: nat)
    requires Distinct(t) && i < |t| && j < |t|
    ensures t[i] == t[j] <==> i == j
    ensures t[i] in t
  {}

  lemma PullStart(tmp: Chain, at: nat, t: seq<Chain>, tp: seq<seq<Byte>>)
    requires at <= tmp.buffer.Length && Holds(t, tp)
    ensures Flatten(tp[..0]) == [] && Filled(tmp, at, []) && |tp| == |t|
  {}

  lemma PullEnd(t: seq<Chain>, tp: seq<seq<Byte>>, j: nat, rest: nat)
    requires j <= |t| == |tp| && |Flatten(tp[..j])| + rest <= |Flatten(tp)|
    ensures j == |t| ==> rest == 0
  {
    assert j == |t| ==> tp[..j] == tp;
  }

  /** What is left of the pieces when `j` of them and `rest` bytes of the next have been taken. */
  ghost function Remaining(tp: seq<seq<Byte>>, j: nat, rest: nat): seq<seq<Byte>>
    requires j <= |tp| && (j < |tp| ==> rest <= |tp[j]|)
  {
    if j == |tp| then [] else tp[j..][0 := tp[j][rest..]]
  }

  lemma RemainingBytes(tp: seq<seq<Byte>>, j: nat, rest: nat, want: nat)
    requires j <= |tp| && (if j < |tp| then rest <= |tp[j]| else rest == 0) && want == |Flatten(tp[..j])| + rest
    ensures want <= |Flatten(tp)|
    ensures Flatten(tp)[want..] == Flatten(Remaining(tp, j, rest))
    ensures j < |tp| ==> Flatten(tp)[..want] == Flatten(tp[..j]) + tp[j][..rest]
    ensures j == |tp| ==> Flatten(tp)[..want] == Flatten(tp[..j])
  {
    if j < |tp| {
      SplitPoint(tp, j, rest);
      FlattenFront(tp[j..], rest);
    } else {
      assert tp[..j] == tp;
    }
  }

  /** Copies the first `rest` bytes of the first block kept, and drops them there. */
  method PullPart(tmp: Chain, at: nat, chain: Chain?, rest: nat, done: nat,
                  ghost t: seq<Chain>, ghost tp: seq<seq<Byte>>, ghost j: nat)
    requires Linked(t) && Distinct(t) && Holds(t, tp) && Foreign(tmp, t) && tmp !in t
    requires j <= |t| == |tp| && chain == Nth(t, j) && (if chain == null then rest == 0 else rest < chain.off == |tp[j]|)
    requires Filled(tmp, at, Flatten(tp[..j])) && done == |Flatten(tp[..j])| && at + done + rest <= tmp.buffer.Length
    modifies tmp.buffer, if chain == null then {} else {chain}
    ensures done + rest <= |Flatten(tp)| && Filled(tmp, at, Flatten(tp)[..done + rest])
    ensures Linked(t[j..]) && Distinct(t[j..]) && Holds(t[j..], Remaining(tp, j, rest))
    ensures tmp.buffer[..at] == old(tmp.buffer[..at])
    ensures chain != null ==> chain.next == old(chain.next)
  {
    hide Linked, Holds, Distinct, Foreign, Flatten, Filled;
    RemainingBytes(tp, j, rest, done + rest);
    HoldsPart(t, tp, j);
    DistinctPart(t, j);
    LinkedDrop(t, j);
    if chain != null {
      HoldsAt(t, tp, j);
      chain.Window(0, rest);
      FillMore(tmp, at, Flatten(tp[..j]), done, chain.buffer[chain.misalign..chain.misalign + rest], t, tp);
      HoldsPart(t, tp, j);
      DropAt(chain, rest, t[j..], tp[j..], 0);
    } else {
      assert t[j..] == [] && tp[j..] == [];
    }
  }

  /** The mark after the first blocks have been pulled into `tmp`. */
  lemma MarksPulled(tmp: Chain, data: seq<Byte>, owner: Chain?, t: seq<Chain>, tp: seq<seq<Byte>>, d: nat, j: nat, rest: nat)
    requires |t| == |tp| && d < |t| && tp[d] != [] && EmptyFrom(tp, d + 1)
    requires j <= |t| && (j < |t| ==> rest < |tp[j]|)
    requires d > 0 ==> owner == t[d - 1]
    ensures d < j ==> Marks(null, [tmp] + t[j..], [data] + Remaining(tp, j, rest), 0)
    ensures j == d ==> Marks(tmp, [tmp] + t[j..], [data] + Remaining(tp, j, rest), 1)
    ensures j < d ==> Marks(owner, [tmp] + t[j..], [data] + Remaining(tp, j, rest), 1 + d - j)
  {}

  lemma WindowOf(tmp: Chain)
    requires tmp.Valid()
    ensures tmp.buffer[..tmp.misalign + tmp.off][tmp.misalign..] == tmp.Data()
  {}

  /** After `e` has been filled in behind the window, growing the window appends `e`. */
  lemma GrownWindow(tmp: Chain, before: seq<Byte>, e: seq<Byte>)
    requires tmp.misalign + |before| + |e| == tmp.misalign + tmp.off <= tmp.buffer.Length <= MAX_REQUEST && !tmp.immutable
    requires tmp.buffer.Length > 0
    requires tmp.buffer[..tmp.misalign + |before|][tmp.misalign..] == before
    requires Filled(tmp, tmp.misalign + |before|, e)
    ensures tmp.Valid() && tmp.Data() == before + e
  {
    var b, m, n := tmp.buffer, tmp.misalign, |before|;
    assert b[m..m + tmp.off] == b[..m + n][m..] + b[m + n..m + n + |e|];
  }

  /** The block that will receive the bytes: the first block, or a new one. */
  ghost predicate Target(buf: EvBuffer, tmp: Chain, j0: nat)
    reads buf, tmp
  {
    && !tmp.immutable && 0 < tmp.buffer.Length && tmp.misalign + tmp.off <= tmp.buffer.Length <= MAX_REQUEST
    && j0 <= 1
    && (if j0 == 1 then buf.spine != [] && tmp == buf.spine[0]
        else tmp !in buf.Repr && tmp.buffer !in buf.Repr && tmp.off == 0 && tmp.misalign == 0)
  }

  lemma TargetIsForeign(buf: EvBuffer, tmp: Chain, j0: nat)
    requires buf.Listed() && Target(buf, tmp, j0) && j0 <= |buf.spine|
    ensures var t := buf.spine[j0..];
            && Foreign(tmp, t) && tmp !in t && |buf.parts| == |buf.spine| && buf in buf.Repr
            && Linked(t) && Distinct(t) && Holds(t, buf.parts[j0..]) && Within(t, buf.Repr - {tmp, tmp.buffer})
    ensures j0 == 1 ==> tmp.Data() == buf.parts[0] && tmp.next == Nth(buf.spine, 1)
  {
    var s := buf.spine;
    forall i | 0 <= i < |s[j0..]|
      ensures s[j0..][i] != tmp && s[j0..][i].buffer != tmp.buffer
    {
      assert s[j0..][i] == s[j0 + i];
    }
    LinkedDrop(s, j0);
    DistinctPart(s, j0);
    HoldsPart(s, buf.parts, j0);
  }

  /** Where the pieces and the mark end up. */
  lemma GatheredBytes(parts: seq<seq<Byte>>, j0: nat, j: nat, rest: nat, want: nat)
    requires j0 <= 1 && j0 <= |parts| && j <= |parts[j0..]|
    requires if j < |parts[j0..]| then rest <= |parts[j0..][j]| else rest == 0
    requires want == |Flatten(parts[j0..][..j])| + rest
    ensures var tp, pre := parts[j0..], if j0 == 1 then parts[0] else [];
            && want <= |Flatten(tp)| && |pre| + want <= |Flatten(parts)|
            && pre + Flatten(tp)[..want] == Flatten(parts)[..|pre| + want]
            && Flatten([pre + Flatten(tp)[..want]] + Remaining(tp, j, rest)) == Flatten(parts)
  {
    var tp, pre := parts[j0..], if j0 == 1 then parts[0] else [];
    RemainingBytes(tp, j, rest, want);
    var data := pre + Flatten(tp)[..want];
    FlattenConcat([data], Remaining(tp, j, rest));
    FlattenOne(data);
    assert Flatten(tp) == Flatten(tp)[..want] + Flatten(tp)[want..];
    assert Flatten(parts) == pre + Flatten(tp);
    assert data + Flatten(tp)[want..] == pre + Flatten(tp);
  }

  /** Moves `want` bytes from the list into `tmp`, behind what it holds, freeing the blocks used up. */
  method Pull(tmp: Chain, chain0: Chain?, want: nat, lastWithData: Chain, link: Chain?,
              ghost t: seq<Chain>, ghost tp: seq<seq<Byte>>, ghost d: nat)
    returns (chain: Chain?, removedData: bool, removedLink: bool, ghost j: nat, ghost rest: nat)
    requires Linked(t) && Distinct(t) && Holds(t, tp) && Foreign(tmp, t) && tmp !in t && chain0 == Nth(t, 0)
    requires !tmp.immutable && tmp.Valid() && want <= |Flatten(tp)| && tmp.misalign + tmp.off + want <= tmp.buffer.Length
    requires d < |t| && lastWithData == t[d] && (if d == 0 then link !in t else link == t[d - 1])
    modifies tmp`off, tmp.buffer, t
    ensures |t| == |tp| && j <= |t| && chain == Nth(t, j) && (if j < |t| then rest < |tp[j]| else rest == 0)
    ensures want == |Flatten(tp[..j])| + rest
    ensures Linked(t[j..]) && Distinct(t[j..]) && Holds(t[j..], Remaining(tp, j, rest))
    ensures removedData <==> d < j
    ensures removedLink <==> 0 < d <= j
    ensures tmp.Valid() && tmp.off == old(tmp.off) + want && tmp.Data() == old(tmp.Data()) + Flatten(tp)[..want]
  {
    hide Linked, Holds, Distinct, Foreign, Flatten, Filled, Remaining, Chain.Data;
    var at, taken := tmp.misalign + tmp.off, 0;
    WindowOf(tmp);
    chain, taken, removedData, removedLink, j := PullWhole(tmp, at, chain0, want, lastWithData, link, t, tp, d);
    rest := taken;
    if chain != null {
      HoldsAt(t, tp, j);
    }
    PullPart(tmp, at, chain, taken, want - taken, t, tp, j);
    assert tmp.misalign == old(tmp.misalign) && tmp.off == old(tmp.off);
    tmp.off := tmp.off + want;
    GrownWindow(tmp, old(tmp.Data()), Flatten(tp)[..want]);
  }

  /** Makes `tmp` the first block, in front of what is left of the list, and repairs the mark. */
  method Settle(buf: EvBuffer, tmp: Chain, chain: Chain?, removedData: bool, removedLink: bool,
                ghost r: seq<Chain>, ghost q: seq<seq<Byte>>, ghost lwd: nat, ghost repr: set<object>)
    requires Linked(r) && Distinct(r) && Holds(r, q) && Within(r, repr - {tmp, tmp.buffer}) && chain == Nth(r, 0)
    requires tmp.Valid() && tmp !in r
    requires buf.totalLen == |Flatten([tmp.Data()] + q)| && (r != [] ==> buf.last == r[|r| - 1])
    requires removedLink && !removedData ==> chain != null && chain.off != 0
    requires Marks(if removedData then null else if removedLink then tmp else buf.lastWithDatap, [tmp] + r, [tmp.Data()] + q, lwd)
    modifies buf, tmp`next
    ensures buf.Valid() && buf.Contents() == old(Flatten([tmp.Data()] + q))
    ensures buf.Repr == {buf as object} + repr + {tmp, tmp.buffer} && buf.first == tmp
    ensures buf.freezeStart == old(buf.freezeStart) && buf.freezeEnd == old(buf.freezeEnd)
    ensures tmp.Valid() && tmp.Data() == old(tmp.Data())
  {
    hide Linked, Holds, Distinct, Flatten, Within, Marks, EvBuffer.Listed;
    if chain == null {
      buf.last := tmp;
    }
    LinkFront(tmp, r, q, chain, repr - {tmp, tmp.buffer});
    buf.Adopt(tmp, [tmp] + r, [tmp.Data()] + q, {tmp, tmp.buffer} + (repr - {tmp, tmp.buffer}));
    if removedData {
      buf.lastWithDatap := null;
    } else if removedLink {
      buf.DerefAt(tmp, 1);
      if buf.first.next != null && buf.first.next.off != 0 {
        buf.lastWithDatap := buf.first;
      } else {
        // the block after the freed ones has data
        assert false;
      }
    }
    buf.lwd := lwd;
  }

  /** Collects `want` more bytes into `tmp`, behind what it holds, and makes it the first block. */
  method Gather(buf: EvBuffer, tmp: Chain, chain0: Chain, want: nat, ghost j0: nat)
    requires buf.Valid() && Target(buf, tmp, j0) && 0 < buf.lwd && j0 < |buf.spine| && chain0 == buf.spine[j0]
    requires |buf.parts| == |buf.spine| && want <= |Flatten(buf.parts[j0..])| && tmp.misalign + tmp.off + want <= tmp.buffer.Length
    modifies buf.Repr, tmp, tmp.buffer
    ensures buf.Valid() && buf.Contents() == old(buf.Contents())
    ensures buf.Repr == old(buf.Repr) + {tmp, tmp.buffer} && buf.first == tmp
    ensures tmp.Valid() && tmp.off == old(tmp.off) + want && tmp.off <= |buf.Contents()| && tmp.Data() == buf.Contents()[..tmp.off]
    ensures tmp.misalign == old(tmp.misalign)
    ensures buf.freezeStart == old(buf.freezeStart) && buf.freezeEnd == old(buf.freezeEnd)
  {
    hide Linked, Holds, Distinct, Foreign, Flatten, Filled, Within, Marks, EmptyFrom, EvBuffer.Listed, Footprint, Remaining, Chain.Data, Chain.Valid;
    ghost var parts, t, tp, d, repr := buf.parts, buf.spine[j0..], buf.parts[j0..], buf.lwd - j0, buf.Repr - {tmp, tmp.buffer};
    var owner := buf.lastWithDatap;
    ReadyToPull(buf, tmp, j0);
    var chain, removedData, removedLink;
    ghost var j, rest;
    chain, removedData, removedLink, j, rest := Pull(tmp, chain0, want, buf.Deref(owner), owner, t, tp, d);
    Pulled(tmp, owner, t, tp, d, j, rest, parts, j0, want, repr);
    Settle(buf, tmp, chain, removedData, removedLink, t[j..], Remaining(tp, j, rest), if d < j then 0 else 1 + d - j, buf.Repr);
  }

  lemma ReadyToPull(buf: EvBuffer, tmp: Chain, j0: nat)
    requires buf.Valid() && Target(buf, tmp, j0) && 0 < buf.lwd && j0 < |buf.spine|
    ensures var t, tp, d := buf.spine[j0..], buf.parts[j0..], buf.lwd - j0;
            && |buf.parts| == |buf.spine| && buf in buf.Repr && 0 <= d < |t|
            && Foreign(tmp, t) && tmp !in t && Linked(t) && Distinct(t) && Holds(t, tp)
            && Within(t, buf.Repr - {tmp, tmp.buffer}) && (forall c | c in t :: c in buf.Repr)
            && tp[d] != [] && EmptyFrom(tp, d + 1) && buf.Deref(buf.lastWithDatap) == t[d]
            && (if d == 0 then buf.lastWithDatap !in t else buf.lastWithDatap == t[d - 1])
            && (d == 0 ==> buf.lastWithDatap == tmp)
            && buf.last == t[|t| - 1]
    ensures tmp.Valid() && tmp.Data() == if j0 == 1 then buf.parts[0] else []
  {
    hide Linked, Holds, Distinct, Foreign, Flatten, Within, Marks, EmptyFrom, EvBuffer.Listed, EvBuffer.Contents, Chain.Data, Chain.Valid;
    buf.ListedParts();
    TargetIsForeign(buf, tmp, j0);
    TargetData(buf, tmp, j0);
    MarksUnfold(buf.lastWithDatap, buf.spine, buf.parts, buf.lwd);
    MarksTail(buf.lastWithDatap, buf.spine, buf.parts, buf.lwd, j0);
    buf.DerefAt(buf.lastWithDatap, buf.lwd);
    BlocksOf(buf.spine[j0..], buf.Repr - {tmp, tmp.buffer});
  }

  lemma Pulled(tmp: Chain, owner: Chain?, t: seq<Chain>, tp: seq<seq<Byte>>, d: nat, j: nat, rest: nat,
               parts: seq<seq<Byte>>, j0: nat, want: nat, repr: set<object>)
    requires |t| == |tp| && d < |t| && tp[d] != [] && EmptyFrom(tp, d + 1) && j <= |t|
    requires if j < |t| then rest < |tp[j]| else rest == 0
    requires if d == 0 then owner == tmp else owner == t[d - 1]
    requires tmp !in t && Within(t, repr) && Holds(t[j..], Remaining(tp, j, rest)) && want == |Flatten(tp[..j])| + rest
    requires j0 <= 1 && j0 <= |parts| && tp == parts[j0..] && tmp.Valid() && want <= |Flatten(tp)|
    requires tmp.Data() == (if j0 == 1 then parts[0] else []) + Flatten(tp)[..want]
    ensures tmp !in t[j..] && Within(t[j..], repr) && (j < |t| ==> t[j].off != 0) && (d < j || j < |t|)
    ensures Marks(if d < j then null else if 0 < d <= j then tmp else owner,
                  [tmp] + t[j..], [tmp.Data()] + Remaining(tp, j, rest), if d < j then 0 else 1 + d - j)
    ensures tmp.off <= |Flatten(parts)| && tmp.Data() == Flatten(parts)[..tmp.off]
    ensures Flatten([tmp.Data()] + Remaining(tp, j, rest)) == Flatten(parts)
  {
    hide Holds, Flatten, Within, Marks, EmptyFrom, Remaining;
    GatheredBytes(parts, j0, j, rest, want);
    MarksPulled(tmp, tmp.Data(), owner, t, tp, d, j, rest);
    WithinPart(t, repr, j);
    StillForeign(tmp, t, tp, d, j, rest);
  }

  lemma TargetData(buf: EvBuffer, tmp: Chain, j0: nat)
    requires buf.Listed() && Target(buf, tmp, j0) && j0 <= |buf.spine| == |buf.parts|
    ensures tmp.Valid() && tmp.Data() == if j0 == 1 then buf.parts[0] else []
  {}

  lemma BlocksOf(t: seq<Chain>, repr: set<object>)
    requires Within(t, repr)
    ensures forall c | c in t :: c in repr
  {}

  lemma StillForeign(tmp: Chain, t: seq<Chain>, tp: seq<seq<Byte>>, d: nat, j: nat, rest: nat)
    requires tmp !in t && j <= |t| == |tp| && (if j < |t| then rest < |tp[j]| else rest == 0)
    requires Holds(t[j..], Remaining(tp, j, rest))
    ensures tmp !in t[j..]
    ensures j < |t| ==> t[j].off != 0
  {
    if j < |t| {
      HoldsAt(t[j..], Remaining(tp, j, rest), 0);
    }
  }

  /** Where `n` bytes are made contiguous: in the first block, if there is room from its window on, otherwise in a new one. */
  ghost predicate InBlock(first: Chain, misalign: nat, n: nat, result: Chain)
    reads result`misalign
  {
    if misalign + n <= first.buffer.Length then result == first && result.misalign == misalign
    else result.misalign == 0 && (n + CHAIN_SIZE <= MIN_BUFFER_SIZE ==> result.buffer.Length + CHAIN_SIZE == MIN_BUFFER_SIZE)
  }

  /** Makes the first `size` bytes (all, for a negative size) contiguous; null if there are not that many.
      They then start at the first block's window. */
  method Pullup(buf: EvBuffer, size: int) returns (result: Chain?)
    requires buf.Valid()
    modifies buf.Repr
    ensures buf.Valid() && fresh(buf.Repr - old(buf.Repr)) && buf.Contents() == old(buf.Contents())
    ensures buf.freezeStart == old(buf.freezeStart) && buf.freezeEnd == old(buf.freezeEnd)
    ensures var n := if size < 0 then old(buf.totalLen) else size;
            && (result == null <==> n == 0 || n > old(buf.totalLen) || n > MAX_REQUEST)
            && (result != null ==>
                  && result == buf.first && result.misalign + n <= result.buffer.Length
                  && result.buffer[result.misalign..result.misalign + n] == buf.Contents()[..n])
    // the bytes are in the block that was the first one, if they can be there, and otherwise in a new one
    ensures result != null ==> old(buf.first) != null
    ensures result != null ==>
              InBlock(old(buf.first), old(buf.first.misalign), if size < 0 then old(buf.totalLen) else size, result)
  {
    hide Linked, Holds, Distinct, Flatten, Within, Marks, EmptyFrom, EvBuffer.Listed, Footprint, UsedBlocks;
    var n := if size < 0 then buf.totalLen else size;
    if n == 0 || n > buf.totalLen {
      return null;
    }
    FirstBlock(buf);
    var chain := buf.first;
    if chain.off >= n {
      // the first n bytes are already here
      FlattenFront(buf.parts, n);
      chain.Window(0, n);
      return chain;
    }
    if chain.buffer.Length - chain.misalign >= n {
      // the other bytes fit behind those of the first block
      GatherInFirst(buf, chain, n);
      result := chain;
    } else {
      result := GatherInNew(buf, chain, n);
    }
  }

  /** Makes the first `n` bytes contiguous in the first block. */
  method GatherInFirst(buf: EvBuffer, chain: Chain, n: nat)
    requires buf.Valid() && chain == buf.first && chain.off < n <= buf.totalLen && n <= chain.buffer.Length - chain.misalign
    modifies buf.Repr
    ensures buf.Valid() && buf.Repr == old(buf.Repr) && buf.Contents() == old(buf.Contents())
    ensures buf.freezeStart == old(buf.freezeStart) && buf.freezeEnd == old(buf.freezeEnd)
    ensures chain == buf.first && chain.misalign == old(chain.misalign) && n <= |buf.Contents()|
    ensures chain.buffer[chain.misalign..chain.misalign + n] == buf.Contents()[..n]
  {
    hide Linked, Holds, Distinct, Flatten, Within, Marks, EmptyFrom, EvBuffer.Listed, Footprint, UsedBlocks;
    FirstBlock(buf);
    FlattenAt(buf.parts, 0);
    buf.BlockAt(0);
    Gather(buf, chain, chain.next, n - chain.off, 1);
    chain.Window(0, n);
  }

  /** Makes the first `n` bytes contiguous in a new block; null if there can be none of that size. */
  method GatherInNew(buf: EvBuffer, chain: Chain, n: nat) returns (result: Chain?)
    requires buf.Valid() && chain == buf.first && chain.off < n <= buf.totalLen
    modifies buf.Repr
    ensures buf.Valid() && fresh(buf.Repr - old(buf.Repr)) && buf.Contents() == old(buf.Contents())
    ensures buf.freezeStart == old(buf.freezeStart) && buf.freezeEnd == old(buf.freezeEnd)
    ensures result == null <==> n > MAX_REQUEST
    ensures result != null ==>
              && result == buf.first && result.misalign == 0 && n <= result.buffer.Length && n <= |buf.Contents()|
              && result.buffer[..n] == buf.Contents()[..n]
              && (n + CHAIN_SIZE <= MIN_BUFFER_SIZE ==> result.buffer.Length + CHAIN_SIZE == MIN_BUFFER_SIZE)
  {
    hide Linked, Holds, Distinct, Flatten, Within, Marks, EmptyFrom, EvBuffer.Listed, Footprint, UsedBlocks;
    FirstBlock(buf);
    result := ChainNew(n);
    if result == null {
      return;
    }
    Gather(buf, result, chain, n, 0);
    result.Window(0, n);
    assert result.buffer[0..n] == result.buffer[..n];
  }

  /** A buffer with data has a first block, and the rest of the data lies in the blocks after it. */
  lemma FirstBlock(buf: EvBuffer)
    requires buf.Valid() && buf.totalLen > 0
    ensures buf.spine != [] && buf.first == buf.spine[0] && |buf.parts| == |buf.spine| && buf in buf.Repr
    ensures buf.first in buf.Repr && buf.first.buffer in buf.Repr
    ensures buf.first.Valid() && buf.first.Data() == buf.parts[0] && buf.first.off == |buf.parts[0]|
    ensures buf.totalLen == buf.first.off + |Flatten(buf.parts[1..])|
    ensures buf.first.off < buf.totalLen ==> 0 < buf.lwd && 1 < |buf.spine| && buf.first.next == buf.spine[1]
  {
    FlattenAt(buf.parts, 0);
    buf.BlockAt(0);
    if buf.lwd == 0 {
      FlattenTruncate(buf.parts, 1);
      FlattenOne(buf.parts[0]);
      assert buf.parts[..1] == [buf.parts[0]];
    }
  }
}
