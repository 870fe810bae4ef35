/** A byte queue kept as a linked list of partly filled blocks. */
module EvBufferModule {
  import opened ByteSeq
  import opened ChainModule
  import opened ChainList
  import opened Options

  /** A position: `pos` bytes from the start, which is `posInChain` bytes into `chain`;
      a null `chain` is the end of the buffer. */
  datatype Ptr = Ptr(pos: int, chain: Chain?, posInChain: nat)

  const NOT_FOUND := Ptr(-1, null, 0)

  /** The value of a length once it has been cast to a 32-bit int. */
  function AsInt(n: int): (r: int)
    ensures -0x8000_0000 <= r < 0x8000_0000
    ensures -0x8000_0000 <= n < 0x8000_0000 ==> r == n
  {
    var m := n % 0x1_0000_0000;
    if m < 0x8000_0000 then m else m - 0x1_0000_0000
  }

  class EvBuffer {
    var first: Chain?
    var last: Chain?
    // The block whose `next` field links to the last block with data.  Null stands for
    // the buffer's own `first` field.
    var lastWithDatap: Chain?
    var totalLen: nat
    var freezeStart: bool
    var freezeEnd: bool

    // The blocks in list order, the bytes each one holds, and the index of the last block with data.
    ghost var spine: seq<Chain>
    ghost var parts: seq<seq<Byte>>
    ghost var lwd: nat
    ghost var Repr: set<object>

    /** The bytes queued in the buffer. */
    ghost function Contents(): seq<Byte>
      reads this
    {
      Flatten(parts)
    }

    /** The list of blocks is well formed and holds `parts`. */
    ghost predicate Listed()
      reads this`first, this`spine, this`parts, this`Repr, Repr - {this}
    {
      && this in Repr
      && Within(spine, Repr) && Distinct(spine)
      && Linked(spine) && first == Nth(spine, 0)
      && Holds(spine, parts)
    }

    /** Everything but the `last` field is in order. */
    ghost predicate Sound()
      reads this, Repr
      ensures Sound() ==> this in Repr
    {
      && Listed()
      && Marks(lastWithDatap, spine, parts, lwd)
      && totalLen == |Contents()|
    }

    ghost predicate Valid()
      reads this, Repr
      ensures Valid() ==> this in Repr
    {
      Sound() && last == Nth(spine, |spine| - 1)
    }

    constructor ()
      ensures Valid() && fresh(Repr) && Contents() == [] && spine == [] && !freezeStart && !freezeEnd
    {
      first, last, lastWithDatap, totalLen := null, null, null, 0;
      freezeStart, freezeEnd := false, false;
      spine, parts, lwd := [], [], 0;
      Repr := {this};
    }

    /** Follows a link: `owner`'s `next` field, or `first` for the null owner. */
    function Deref(owner: Chain?): Chain?
      reads this, owner
    {
      if owner == null then first else owner.next
    }

    lemma DerefAt(owner: Chain?, k: nat)
      requires Listed() && k <= |spine| && owner == Nth(spine, k - 1)
      ensures Deref(owner) == Nth(spine, k) && |parts| == |spine| && this in Repr
    {
      if k > 0 {
        LinkAt(spine, k - 1);
      }
    }

    /** What is known of the block at index `k`. */
    lemma BlockAt(k: nat)
      requires Listed() && k < |spine|
      ensures |parts| == |spine| && spine[k].Valid() && spine[k].Data() == parts[k] && spine[k].off == |parts[k]|
      ensures spine[k].next == Nth(spine, k + 1)
      ensures spine[k] in Repr && spine[k].buffer in Repr
    {}

    lemma BlocksDiffer(i: nat, j: nat)
      requires Listed() && i < |spine| && j < |spine| && i != j
      ensures spine[i] != spine[j]
    {}

    lemma TotalLenSplits(k: nat)
      requires Sound() && k <= |parts|
      ensures totalLen == |Flatten(parts[..k])| + |Flatten(parts[k..])|
      ensures k > lwd ==> Flatten(parts[k..]) == []
      ensures k < |parts| ==> |Flatten(parts[..k + 1])| == |Flatten(parts[..k])| + |parts[k]|
    {
      FlattenSplit(parts, k);
      if k > lwd {
        FlattenEmpty(parts[k..]);
      }
      if k < |parts| {
        FlattenSplit(parts[..k + 1], k);
        assert parts[..k + 1][..k] == parts[..k] && parts[..k + 1][k..] == [parts[k]];
        FlattenOne(parts[k]);
      }
    }

    lemma EmptyWhenUnused()
      requires Sound()
      ensures totalLen == 0 <==> UsedBlocks(parts, lwd) == 0
    {
      if parts != [] {
        FlattenAt(parts, lwd);
        FlattenEmpty(parts[lwd + 1..]);
        if parts[lwd] == [] {
          assert parts[..lwd] == [];
        }
      }
    }

    /** Unlinks the blocks from index `k` on, all of them empty; `owner` holds the link to be cleared. */
    method Cut(owner: Chain?, ghost k: nat)
      requires Sound() && UsedBlocks(parts, lwd) <= k < |spine| && owner == Nth(spine, k - 1)
      modifies this`first, this`spine, this`parts, Repr - {this}
      ensures Sound() && Contents() == old(Contents())
      ensures spine == old(spine[..k]) && parts == old(parts[..k])
      ensures lastWithDatap == old(lastWithDatap) && lwd == old(lwd) && totalLen == old(totalLen)
      ensures Repr == old(Repr) && freezeStart == old(freezeStart) && freezeEnd == old(freezeEnd)
      ensures forall c | c in old(spine) :: c.misalign == old(c.misalign) && c.off == old(c.off)
    {
      hide Distinct, Linked, Holds, Within, Flatten, Marks, EmptyFrom;
      MarksTruncate(lastWithDatap, spine, parts, lwd, k);
      FlattenTruncate(parts, k);
      DistinctPart(spine, k);
      WithinPart(spine, Repr, k);
      HoldsPart(spine, parts, k);
      if owner == null {
        first := null;
        LinkedDrop(spine, |spine|);
        assert spine[|spine|..] == spine[..k];
      } else {
        WithinAt(spine, Repr, k - 1);
        SplitAfter(owner, spine, k);
      }
      spine, parts := spine[..k], parts[..k];
    }

    /** The link to the first empty block from the last block with data on. */
    method TrailingLink() returns (owner: Chain?, ghost k: nat)
      requires Sound()
      ensures k == UsedBlocks(parts, lwd)
      ensures owner == Nth(spine, UsedBlocks(parts, lwd) - 1) && Deref(owner) == Nth(spine, UsedBlocks(parts, lwd))
    {
      hide Distinct, Linked, Holds, Within, Flatten;
      owner, k := lastWithDatap, lwd;
      DerefAt(owner, k);
      if Deref(owner) != null {
        BlockAt(k);
      }
      while Deref(owner) != null && Deref(owner).off != 0
        invariant lwd <= k <= UsedBlocks(parts, lwd)
        invariant owner == Nth(spine, k - 1) && Deref(owner) == Nth(spine, k)
        invariant Deref(owner) != null ==> Deref(owner).off == |parts[k]|
        decreases |spine| - k
      {
        owner := Deref(owner);
        k := k + 1;
        DerefAt(owner, k);
        if Deref(owner) != null {
          BlockAt(k);
        }
      }
    }

    /** Frees the empty blocks at the end and returns the link where the next block goes. */
    method FreeTrailingEmptyChains() returns (owner: Chain?)
      requires Sound()
      modifies this`first, this`spine, this`parts, Repr - {this}
      ensures Sound() && Contents() == old(Contents())
      ensures spine == old(spine[..UsedBlocks(parts, lwd)]) && parts == old(parts[..UsedBlocks(parts, lwd)])
      ensures owner == Nth(spine, |spine| - 1) && Repr == old(Repr)
      ensures lastWithDatap == old(lastWithDatap) && lwd == old(lwd) && totalLen == old(totalLen)
      ensures freezeStart == old(freezeStart) && freezeEnd == old(freezeEnd)
    {
      hide Distinct, Linked, Holds, Within, Flatten;
      ghost var k;
      owner, k := TrailingLink();
      if Deref(owner) != null {
        Cut(owner, k);
      }
    }

    /** Hangs the list `s2` off the end of this one; `owner` holds this list's last link. */
    method Attach(owner: Chain?, head: Chain?, ghost s2: seq<Chain>, ghost p2: seq<seq<Byte>>, ghost r2: set<object>)
      requires Listed() && owner == Nth(spine, |spine| - 1)
      requires Linked(s2) && Distinct(s2) && Holds(s2, p2) && Within(s2, r2) && head == Nth(s2, 0)
      requires r2 !! Repr
      modifies this`first, this`spine, this`parts, this`Repr, Repr - {this}
      ensures Listed()
      ensures spine == old(spine) + s2 && parts == old(parts) + p2 && Repr == old(Repr) + r2
      ensures lastWithDatap == old(lastWithDatap) && lwd == old(lwd) && totalLen == old(totalLen)
      ensures freezeStart == old(freezeStart) && freezeEnd == old(freezeEnd)
      ensures forall c | c in old(spine) :: c.misalign == old(c.misalign) && c.off == old(c.off)
    {
      hide Distinct, Linked, Holds, Within;
      DistinctConcat(spine, Repr, s2, r2);
      HoldsConcat(spine, parts, s2, p2);
      if owner == null {
        first := head;
        assert spine + s2 == s2;
      } else {
        WithinAt(spine, Repr, |spine| - 1);
        LinkAfter(owner, spine, head, s2);
      }
      spine, parts, Repr := spine + s2, parts + p2, Repr + r2;
    }

    /** Gives a buffer without blocks its first one. */
    method InsertFirst(chain: Chain)
      requires Valid() && spine == []
      requires chain.Valid() && chain.next == null && chain !in Repr && chain.buffer !in Repr
      modifies Repr
      ensures Valid() && Contents() == old(chain.Data())
      ensures spine == [chain] && parts == [old(chain.Data())] && Repr == old(Repr) + {chain, chain.buffer}
      ensures freezeStart == old(freezeStart) && freezeEnd == old(freezeEnd)
    {
      hide Listed, Distinct, Linked, Holds, Within, Flatten, Marks, EmptyFrom;
      ghost var d := chain.Data();
      SingleBlock(chain);
      FlattenOne(d);
      FlattenNil();
      MarksUnfold(lastWithDatap, spine, parts, lwd);
      Attach(null, chain, [chain], [d], {chain, chain.buffer});
      assert spine == [chain] && parts == [d];
      last := chain;
      totalLen := totalLen + chain.off;
    }

    /** Puts one block behind the last one with data. */
    method InsertAtEnd(chain: Chain)
      requires Valid() && chain.Valid() && chain.next == null && chain !in Repr && chain.buffer !in Repr
      modifies Repr
      ensures Valid() && Contents() == old(Contents()) + old(chain.Data())
      ensures spine == old(spine[..UsedBlocks(parts, lwd)]) + [chain]
      ensures parts == old(parts[..UsedBlocks(parts, lwd)]) + [old(chain.Data())]
      ensures Repr == old(Repr) + {chain, chain.buffer}
      ensures freezeStart == old(freezeStart) && freezeEnd == old(freezeEnd)
    {
      hide Listed, Distinct, Linked, Holds, Within, Flatten, Marks, EmptyFrom;
      ghost var d := chain.Data();
      SingleBlock(chain);
      FlattenOne(d);
      UsedIsFull(lastWithDatap, spine, parts, lwd);
      var owner := FreeTrailingEmptyChains();
      if chain.off != 0 {
        AppendList(owner, chain, null, chain, chain.off, [chain], [d], 0, {chain, chain.buffer});
      } else {
        AppendEmpty(owner, chain);
      }
    }

    /** Hangs an empty block off the end, leaving the mark where it is. */
    method AppendEmpty(owner: Chain?, chain: Chain)
      requires Sound() && UsedBlocks(parts, lwd) == |spine| && owner == Nth(spine, |spine| - 1)
      requires chain.Valid() && chain.off == 0 && chain.next == null && chain !in Repr && chain.buffer !in Repr
      modifies Repr
      ensures Valid() && Contents() == old(Contents()) && Repr == old(Repr) + {chain, chain.buffer}
      ensures spine == old(spine) + [chain] && parts == old(parts) + [[]]
      ensures freezeStart == old(freezeStart) && freezeEnd == old(freezeEnd)
    {
      hide Distinct, Linked, Holds, Marks, Flatten, Within, EmptyFrom, Listed;
      assert chain.Data() == [];
      SingleBlock(chain);
      FlattenOne([]);
      FlattenConcat(parts, [[]]);
      MarksAppend(lastWithDatap, spine, parts, lwd, owner, null, [chain], [[]], 0);
      Attach(owner, chain, [chain], [[]], {chain, chain.buffer});
      last := chain;
    }

    /** Adds one block at the end, freeing the empty blocks there. */
    method ChainInsert(chain: Chain)
      requires Valid() && chain.Valid() && chain.next == null && chain !in Repr && chain.buffer !in Repr
      modifies Repr
      ensures Valid() && Contents() == old(Contents()) + old(chain.Data())
      ensures spine == old(spine[..UsedBlocks(parts, lwd)]) + [chain]
      ensures parts == old(parts[..UsedBlocks(parts, lwd)]) + [old(chain.Data())]
      ensures Repr == old(Repr) + {chain, chain.buffer}
      ensures freezeStart == old(freezeStart) && freezeEnd == old(freezeEnd)
    {
      hide Listed, Distinct, Linked, Holds, Within, Marks, EmptyFrom;
      MarksUnfold(lastWithDatap, spine, parts, lwd);
      DerefAt(lastWithDatap, lwd);
      if Deref(lastWithDatap) == null {
        InsertFirst(chain);
      } else {
        InsertAtEnd(chain);
      }
    }

    /** The block `lwd`, if there is one. */
    method LastWithData() returns (chain: Chain?)
      requires Valid()
      ensures chain == Nth(spine, lwd)
      ensures if spine == [] then chain == null else lwd < |spine| && chain == spine[lwd]
    {
      hide Listed, Distinct, Linked, Holds, Within, Flatten, Marks, EmptyFrom;
      MarksUnfold(lastWithDatap, spine, parts, lwd);
      DerefAt(lastWithDatap, lwd);
      if Deref(lastWithDatap) == null {
        chain := last;
      } else {
        chain := Deref(lastWithDatap);
      }
    }

    /** Appends to the last block with data, in place. */
    method FillLast(chain: Chain, data: seq<Byte>)
      requires Valid() && lwd < |spine| && chain == spine[lwd]
      requires !chain.immutable && chain.Valid() && |data| <= chain.SpaceLen()
      modifies this`totalLen, this`parts, Repr - {this}
      ensures Valid() && Contents() == old(Contents()) + data
      ensures parts == old(parts[lwd := parts[lwd] + data])
      ensures chain.Valid() && chain.misalign == old(chain.misalign) && chain.off == old(chain.off) + |data|
    {
      hide Distinct, Linked, Holds, Within, Flatten, Marks, EmptyFrom;
      BlockAt(lwd);
      MarksUnfold(lastWithDatap, spine, parts, lwd);
      FlattenAppendAt(parts, lwd, data);
      MarksGrow(lastWithDatap, spine, parts, lwd, lwd, parts[lwd] + data);
      AppendAt(chain, data, spine, parts, lwd);
      parts := parts[lwd := parts[lwd] + data];
      totalLen := totalLen + |data|;
    }

    /** Moves the bytes of the last block with data to the front of its allocation. */
    method AlignLast(chain: Chain)
      requires Valid() && lwd < |spine| && chain == spine[lwd] && chain.Valid() && !chain.immutable
      modifies Repr - {this}
      ensures Valid() && chain.Valid() && chain.misalign == 0 && chain.off == old(chain.off)
    {
      hide Distinct, Linked, Holds, Within, Flatten, Marks, EmptyFrom;
      BlockAt(lwd);
      AlignAt(chain, spine, parts, lwd);
      HoldsAt(spine, parts, lwd);
    }

    /** Appends a copy of the user's bytes. */
    method Add(data: seq<Byte>) returns (ok: bool)
      requires Valid()
      modifies Repr
      ensures Valid() && fresh(Repr - old(Repr))
      ensures ok <==> !old(freezeEnd) && |data| <= SIZE_MAX - old(totalLen) && |data| <= MAX_REQUEST
      ensures Contents() == if ok then old(Contents()) + data else old(Contents())
      ensures freezeStart == old(freezeStart) && freezeEnd == old(freezeEnd)
    {
      hide Listed, Distinct, Linked, Holds, Within, Flatten, Marks, EmptyFrom;
      if freezeEnd {
        return false;
      }
      if |data| > SIZE_MAX - totalLen {
        return false;
      }
      var chain := LastWithData();
      if chain == null {
        chain := ChainNew(|data|);
        if chain == null {
          return false;
        }
        MarksUnfold(lastWithDatap, spine, parts, lwd);
        FlattenNil();
        InsertFirst(chain);
        MarksUnfold(lastWithDatap, spine, parts, lwd);
        ok := AddToBlock(chain, data);
        assert [] + data == data;
      } else {
        BlockAt(lwd);
        ok := AddToBlock(chain, data);
      }
    }

    /** Appends to the last block with data, then to a new block if that one is full. */
    method AddToBlock(chain: Chain, data: seq<Byte>) returns (ok: bool)
      requires Valid() && lwd < |spine| && chain == spine[lwd]
      modifies Repr
      ensures Valid() && fresh(Repr - old(Repr))
      ensures ok <==> |data| <= MAX_REQUEST
      ensures Contents() == if ok then old(Contents()) + data else old(Contents())
      ensures freezeStart == old(freezeStart) && freezeEnd == old(freezeEnd)
    {
      hide Listed, Distinct, Linked, Holds, Within, Flatten, Marks, EmptyFrom;
      BlockAt(lwd);
      var remain := 0;
      if !chain.immutable {
        remain := chain.buffer.Length - chain.misalign - chain.off;
        if remain >= |data| {
          // the space behind the data takes it all
          FillLast(chain, data);
          return true;
        } else if chain.ShouldRealign(|data|) {
          // space and slack together take it
          AlignLast(chain);
          FillLast(chain, data);
          return true;
        }
      }
      ok := AddBlock(chain, remain, data);
    }

    /** Fills the last block with data and puts the rest into a new block behind it. */
    method AddBlock(chain: Chain, remain: nat, data: seq<Byte>) returns (ok: bool)
      requires Valid() && lwd < |spine| && chain == spine[lwd]
      requires chain.Valid() && remain == chain.SpaceLen() <= |data|
      modifies Repr
      ensures Valid() && fresh(Repr - old(Repr))
      ensures ok <==> |data| <= MAX_REQUEST
      ensures Contents() == if ok then old(Contents()) + data else old(Contents())
      ensures freezeStart == old(freezeStart) && freezeEnd == old(freezeEnd)
    {
      hide Listed, Distinct, Linked, Holds, Within, Flatten, Marks, EmptyFrom, UsedBlocks;
      var toAlloc := chain.buffer.Length;
      if toAlloc <= CHAIN_MAX_AUTO_SIZE / 2 {
        toAlloc := toAlloc * 2;
      }
      if |data| > toAlloc {
        toAlloc := |data|;
      }
      var tmp := ChainNew(toAlloc);
      if tmp == null {
        return false;
      }
      tmp.AppendData(data[remain..]);
      if remain > 0 {
        FillLast(chain, data[..remain]);
      }
      ChainInsert(tmp);
      ok := true;
      AppendInTwo(old(Contents()), data, remain);
    }

    /** Grows the first block downwards, in place. */
    method FillFront(chain: Chain, data: seq<Byte>)
      requires Valid() && spine != [] && chain == spine[0]
      requires !chain.immutable && chain.Valid() && |data| <= chain.misalign
      modifies this`totalLen, this`parts, Repr - {this}
      ensures Valid() && Contents() == data + old(Contents())
      ensures |old(parts)| == |spine| && parts == old(parts)[0 := data + old(parts)[0]]
      ensures chain.Valid() && chain.misalign == old(chain.misalign) - |data| && chain.off == old(chain.off) + |data|
    {
      hide Distinct, Linked, Holds, Within, Flatten, Marks, EmptyFrom;
      BlockAt(0);
      MarksUnfold(lastWithDatap, spine, parts, lwd);
      FlattenPrependAt(parts, data);
      MarksGrow(lastWithDatap, spine, parts, lwd, 0, data + parts[0]);
      PrependAt(chain, data, spine, parts, 0);
      parts := parts[0 := data + parts[0]];
      totalLen := totalLen + |data|;
    }

    /** Counts all the room of an empty first block as slack in front. */
    method SlideFirst(chain: Chain)
      requires Valid() && spine != [] && chain == spine[0] && chain.Valid() && !chain.immutable && chain.off == 0
      modifies Repr - {this}
      ensures Valid() && chain.Valid() && chain.off == 0 && chain.misalign == chain.buffer.Length
    {
      hide Distinct, Linked, Holds, Within, Flatten, Marks, EmptyFrom;
      BlockAt(0);
      SlideAt(chain, spine, parts, 0);
      HoldsAt(spine, parts, 0);
    }

    /** Hangs a new block in front of the list. */
    method AttachFront(tmp: Chain, chain: Chain?)
      requires Listed() && chain == Nth(spine, 0)
      requires tmp.Valid() && tmp !in Repr && tmp.buffer !in Repr
      modifies this`first, this`spine, this`parts, this`Repr, tmp`next
      ensures Listed()
      ensures spine == [tmp] + old(spine) && parts == [old(tmp.Data())] + old(parts)
      ensures Repr == old(Repr) + {tmp, tmp.buffer}
    {
      hide Distinct, Linked, Holds, Within;
      LinkFront(tmp, spine, parts, chain, Repr);
      first := tmp;
      spine, parts, Repr := [tmp] + spine, [tmp.Data()] + parts, {tmp, tmp.buffer} + Repr;
    }

    /** Puts a new block holding `data` in front of the list. */
    method PushFront(tmp: Chain, data: seq<Byte>, chain: Chain)
      requires Valid() && spine != [] && chain == spine[0] && data != []
      requires tmp.Valid() && tmp.Data() == data && tmp !in Repr && tmp.buffer !in Repr
      modifies this, tmp`next
      ensures Valid() && Contents() == data + old(Contents())
      ensures Repr == old(Repr) + {tmp, tmp.buffer}
      ensures freezeStart == old(freezeStart) && freezeEnd == old(freezeEnd)
    {
      hide Listed, Distinct, Linked, Holds, Within, Flatten, Marks, EmptyFrom;
      BlockAt(0);
      MarksUnfold(lastWithDatap, spine, parts, lwd);
      MarksPush(lastWithDatap, spine, parts, lwd, tmp, data);
      FlattenConcat([data], parts);
      FlattenOne(data);
      AttachFront(tmp, chain);
      if lastWithDatap == null && chain.off != 0 {
        lastWithDatap, lwd := tmp, 1;
      } else if lastWithDatap != null {
        lwd := lwd + 1;
      }
      totalLen := totalLen + |data|;
    }

    /** How many bytes fit in front of the first block's data. */
    ghost function Slack(): nat
      reads this, spine`misalign, spine`off
    {
      if spine == [] || spine[0].immutable then 0
      else if spine[0].off == 0 then spine[0].buffer.Length
      else spine[0].misalign
    }

    /** Prepends a copy of the user's bytes.  A failure to allocate comes after the last `stored` bytes
        of the data have been put in place; they stay. */
    method Prepend(data: seq<Byte>) returns (ok: bool, ghost stored: nat)
      requires Valid()
      modifies Repr
      ensures Valid() && fresh(Repr - old(Repr))
      ensures stored <= |data| && Contents() == data[|data| - stored..] + old(Contents())
      ensures ok <==> data == [] || (!old(freezeStart) && |data| <= SIZE_MAX - old(totalLen) && |data| - old(Slack()) <= MAX_REQUEST)
      ensures stored == if ok then |data| else if old(freezeStart) || |data| > SIZE_MAX - old(totalLen) then 0 else old(Slack())
      ensures freezeStart == old(freezeStart) && freezeEnd == old(freezeEnd)
    {
      hide Listed, Distinct, Linked, Holds, Within, Flatten, Marks, EmptyFrom, UsedBlocks;
      PrependInTwo(Contents(), data, |data|);
      if |data| == 0 {
        return true, 0;
      }
      if freezeStart {
        return false, 0;
      }
      if |data| > SIZE_MAX - totalLen {
        return false, 0;
      }
      ok := HaveFirst(|data|);
      if ok {
        ok, stored := PrependToBlock(first, data);
      } else {
        stored := 0;
      }
    }

    /** Makes sure that there is a block, allocating one for `size` bytes if need be. */
    method HaveFirst(size: nat) returns (ok: bool)
      requires Valid()
      modifies Repr
      ensures Valid() && fresh(Repr - old(Repr)) && Contents() == old(Contents())
      ensures ok ==> spine != [] && first == spine[0]
      ensures ok <==> old(spine) != [] || size <= MAX_REQUEST
      ensures ok ==> if old(spine) == [] then Slack() >= size else Slack() == old(Slack())
      ensures !ok ==> old(Slack()) == 0
      ensures freezeStart == old(freezeStart) && freezeEnd == old(freezeEnd)
    {
      hide Listed, Distinct, Linked, Holds, Within, Flatten, Marks, EmptyFrom, UsedBlocks;
      MarksUnfold(lastWithDatap, spine, parts, lwd);
      DerefAt(null, 0);
      if first == null {
        var chain := ChainNew(size);
        if chain == null {
          return false;
        }
        FlattenNil();
        InsertFirst(chain);
        DerefAt(null, 0);
      }
      ok := true;
    }

    /** Fills the slack in front of the first block, then puts the rest in a new block before it. */
    method PrependToBlock(chain: Chain, data: seq<Byte>) returns (ok: bool, ghost stored: nat)
      requires Valid() && spine != [] && chain == spine[0] && data != []
      modifies Repr
      ensures Valid() && fresh(Repr - old(Repr))
      ensures stored <= |data| && Contents() == data[|data| - stored..] + old(Contents())
      ensures ok <==> |data| - old(Slack()) <= MAX_REQUEST
      ensures stored == if ok then |data| else old(Slack())
      ensures freezeStart == old(freezeStart) && freezeEnd == old(freezeEnd)
    {
      hide Listed, Distinct, Linked, Holds, Within, Flatten, Marks, EmptyFrom, UsedBlocks;
      BlockAt(0);
      var k := |data|;
      if !chain.immutable {
        if chain.off == 0 {
          // all of an empty block is slack
          SlideFirst(chain);
        }
        if chain.misalign >= |data| {
          assert data[0..] == data;
          FillFront(chain, data);
          return true, |data|;
        } else if chain.misalign > 0 {
          k := |data| - chain.misalign;
          FillFront(chain, data[k..]);
        }
      }
      PrependInTwo(old(Contents()), data, k);
      ok := PrependBlock(chain, data[..k]);
      stored := if ok then |data| else |data| - k;
    }

    /** Puts a copy of the user's bytes in a new block before the first one. */
    method PrependBlock(chain: Chain, data: seq<Byte>) returns (ok: bool)
      requires Valid() && spine != [] && chain == spine[0] && data != []
      modifies this
      ensures Valid() && fresh(Repr - old(Repr))
      ensures ok <==> |data| <= MAX_REQUEST
      ensures Contents() == if ok then data + old(Contents()) else old(Contents())
      ensures freezeStart == old(freezeStart) && freezeEnd == old(freezeEnd)
    {
      hide Listed, Distinct, Linked, Holds, Within, Flatten, Marks, EmptyFrom, UsedBlocks;
      var tmp := ChainNew(|data|);
      if tmp == null {
        return false;
      }
      BlockAt(0);
      tmp.FillAtEnd(data);
      PushFront(tmp, data, chain);
      ok := true;
    }

    /** Forgets all blocks. */
    method ZeroChain()
      modifies this
      ensures Valid() && Contents() == [] && Repr == {this} && spine == []
      ensures freezeStart == old(freezeStart) && freezeEnd == old(freezeEnd)
    {
      first, last, lastWithDatap, totalLen := null, null, null, 0;
      spine, parts, lwd, Repr := [], [], 0, {this};
    }

    /** Removes `len` bytes from the front, or all there are. */
    method Drain(len: nat) returns (ok: bool)
      requires Valid()
      modifies Repr
      ensures Valid() && Repr <= old(Repr)
      ensures ok <==> old(totalLen) == 0 || !old(freezeStart)
      ensures Contents() == if ok then old(Contents()[if len < totalLen then len else totalLen..]) else old(Contents())
      ensures freezeStart == old(freezeStart) && freezeEnd == old(freezeEnd)
    {
      hide Listed, Distinct, Linked, Holds, Within, Flatten, Marks, EmptyFrom, UsedBlocks;
      if totalLen == 0 {
        return true;
      }
      if freezeStart {
        return false;
      }
      if len >= totalLen {
        ZeroChain();
      } else {
        DrainPart(len);
      }
      ok := true;
    }

    /** Removes `len` bytes from the front, fewer than there are. */
    method DrainPart(len: nat)
      requires Valid() && len < totalLen
      modifies Repr
      ensures Valid() && Repr == old(Repr)
      ensures Contents() == old(Contents()[len..])
      ensures freezeStart == old(freezeStart) && freezeEnd == old(freezeEnd)
    {
      hide Listed, Distinct, Linked, Holds, Within, Flatten, Marks, EmptyFrom, UsedBlocks;
      ghost var j;
      var chain, remaining;
      chain, remaining, j := SkipWhole(len);
      BlockAt(j);
      MarksDrop(old(lastWithDatap), spine, parts, lwd, j);
      FlattenDrop(parts, j, remaining);
      MarksGrow(lastWithDatap, spine[j..], parts[j..], lwd - j, 0, parts[j][remaining..]);
      MarksUnfold(old(lastWithDatap), spine, parts, lwd);
      totalLen := totalLen - len;
      lwd := lwd - j;
      Advance(chain, j, remaining);
    }

    /** Lets the list start at its `j`-th block, without that block's first `n` bytes. */
    method Advance(chain: Chain, ghost j: nat, n: nat)
      requires Listed() && j < |spine| && chain == spine[j] && n < chain.off
      modifies this`first, this`spine, this`parts, Repr - {this}
      ensures Listed() && spine == old(spine[j..])
      ensures |old(parts)| == |old(spine)| && n <= |old(parts)[j]| && parts == old(parts)[j..][0 := old(parts)[j][n..]]
    {
      hide Distinct, Linked, Holds, Within;
      BlockAt(j);
      DistinctPart(spine, j);
      WithinPart(spine, Repr, j);
      HoldsPart(spine, parts, j);
      LinkedDrop(spine, j);
      first := chain;
      spine, parts := spine[j..], parts[j..];
      DropAt(chain, n, spine, parts, 0);
      parts := parts[0 := parts[0][n..]];
    }

    /** A block that `remaining` bytes cover is not the last one with data, if there is more data than that. */
    lemma SkipStep(mark: Chain?, j: nat, len: nat, remaining: nat)
      requires Listed() && Marks(mark, spine, parts, lwd) && j <= lwd < |spine|
      requires |Flatten(parts[..j])| + remaining == len < |Flatten(parts)| && spine[j].off <= remaining
      ensures j < lwd && mark == spine[lwd - 1]
      ensures |parts| == |spine| && spine[j].off == |parts[j]|
      ensures |Flatten(parts[..j + 1])| == |Flatten(parts[..j])| + spine[j].off
      ensures spine[j].next == spine[j + 1] && spine[j + 1].off == |parts[j + 1]|
      ensures spine[j] != spine[lwd] && Deref(mark) == spine[lwd]
      ensures j + 1 == lwd <==> spine[j] == mark
    {
      MarksUnfold(mark, spine, parts, lwd);
      FlattenTruncate(parts, lwd + 1);
      FlattenPrefix(parts, j);
      BlockAt(j);
      DerefAt(mark, lwd);
    }

    /** Walks past the blocks that `len` bytes cover completely, moving the mark off the ones to be freed. */
    method SkipWhole(len: nat) returns (chain: Chain, remaining: nat, ghost j: nat)
      requires Valid() && len < totalLen
      modifies this`lastWithDatap
      ensures j <= lwd < |spine| && chain == spine[j]
      ensures |Flatten(parts[..j])| + remaining == len && remaining < chain.off
      ensures lastWithDatap == if j == lwd then null else old(lastWithDatap)
      ensures Marks(old(lastWithDatap), spine, parts, lwd)
    {
      hide Listed, Distinct, Linked, Holds, Within, Flatten, Marks, EmptyFrom, UsedBlocks;
      MarksUnfold(lastWithDatap, spine, parts, lwd);
      FlattenNil();
      DerefAt(null, 0);
      chain, remaining, j := first, len, 0;
      BlockAt(0);
      while remaining >= chain.off
        invariant j <= lwd && chain == spine[j] && chain.off == |parts[j]|
        invariant |Flatten(parts[..j])| + remaining == len
        invariant lastWithDatap == if j == lwd then null else old(lastWithDatap)
        invariant Listed() && Marks(old(lastWithDatap), spine, parts, lwd)
        modifies this`lastWithDatap
        decreases lwd - j
      {
        SkipStep(old(lastWithDatap), j, len, remaining);
        remaining := remaining - chain.off;
        if chain == Deref(lastWithDatap) {
          // fewer bytes are drained than there are: the last block with data stays
          assert false;
        }
        if lastWithDatap == chain {
          lastWithDatap := null;
        }
        chain := chain.next;
        j := j + 1;
      }
    }

    /** `p` denotes a position in block `k`, or the end of the buffer. */
    ghost predicate At(p: Ptr, k: nat)
      reads this
    {
      && |parts| == |spine|
      && k <= |spine| && p.chain == Nth(spine, k)
      && p.posInChain <= (if k < |spine| then |parts[k]| else 0)
      && p.pos == |Flatten(parts[..k])| + p.posInChain
    }

    ghost predicate Denotes(p: Ptr)
      reads this
    {
      exists k: nat :: At(p, k)
    }

    lemma AtWithin(p: Ptr, k: nat)
      requires At(p, k)
      ensures 0 <= p.pos <= |Contents()|
      ensures k == |spine| ==> p.pos == |Contents()|
      ensures k < |spine| ==> p.pos + |parts[k]| - p.posInChain <= |Contents()|
    {
      if k < |spine| {
        FlattenAt(parts, k);
      } else {
        assert parts[..k] == parts;
      }
    }

    /** Stepping from the end of block `k` to the start of the next. */
    lemma AtNext(p: Ptr, k: nat)
      requires At(p, k) && k < |spine|
      ensures At(Ptr(p.pos + |parts[k]| - p.posInChain, Nth(spine, k + 1), 0), k + 1)
    {
      FlattenPrefix(parts, k);
    }

    /** Copies up to `datlen` bytes from a position (the front, if none is given) without removing them. */
    method CopyoutFrom(pos: Option<Ptr>, out: array<Byte>, datlen: nat) returns (result: int)
      requires Valid() && out !in Repr && datlen <= out.Length
      requires pos.Some? ==> Denotes(pos.value)
      modifies out
      ensures var start := if pos.Some? then pos.value.pos else 0;
              var n := if datlen <= totalLen - start then datlen else totalLen - start;
              && 0 <= start <= totalLen
              && result == (if (pos.Some? && datlen > SSIZE_MAX - start) || (n != 0 && freezeStart) then -1 else n)
              && (result >= 0 ==> out[..n] == Contents()[start..start + n])
              && (forall i :: (if result < 0 then 0 else n) <= i < out.Length ==> out[i] == old(out[i]))
    {
      hide Listed, Distinct, Linked, Holds, Within, Flatten, Marks, EmptyFrom, UsedBlocks;
      ghost var k: nat := 0;
      var chain, posInChain, n, start := first, 0, datlen, 0;
      if pos.Some? {
        k :| At(pos.value, k);
        AtWithin(pos.value, k);
        if datlen > SSIZE_MAX - pos.value.pos {
          return -1;
        }
        chain, posInChain, start := pos.value.chain, pos.value.posInChain, pos.value.pos;
        if datlen + start > totalLen {
          n := totalLen - start;
        }
      } else {
        StartAt();
        if datlen > totalLen {
          n := totalLen;
        }
      }
      if n == 0 {
        return 0;
      }
      if freezeStart {
        return -1;
      }
      CopyBytes(Ptr(start, chain, posInChain), k, out, n);
      result := n;
    }

    lemma StartAt()
      requires Listed()
      ensures At(Ptr(0, first, 0), 0)
    {
      FlattenNil();
    }

    /** The first `done` bytes of `out` are the buffer's bytes from `start` on. */
    ghost predicate Copied(out: array<Byte>, start: nat, done: nat)
      reads this, out
    {
      && start + done <= |Contents()| && done <= out.Length
      && out[..done] == Contents()[start..start + done]
    }

    /** Copies the `n` bytes from `p` on, block by block. */
    method CopyBytes(p: Ptr, ghost k0: nat, out: array<Byte>, n: nat)
      requires Valid() && out !in Repr && n <= out.Length && At(p, k0) && p.pos + n <= totalLen
      modifies out
      ensures Copied(out, p.pos, n)
      ensures forall i :: n <= i < out.Length ==> out[i] == old(out[i])
    {
      hide Listed, Distinct, Linked, Holds, Within, Flatten, Marks, EmptyFrom, UsedBlocks, At, Copied;
      ghost var k := k0;
      var chain: Chain?, posInChain: nat, done: nat := p.chain, p.posInChain, 0;
      NextToCopy(p, k);
      AtWithin(p, k);
      NothingCopied(out, p.pos);
      while n - done > 0 && n - done >= chain.off - posInChain
        invariant done <= n
        invariant Valid() && At(Ptr(p.pos + done, chain, posInChain), k) && Copied(out, p.pos, done)
        invariant done < n ==> k < |spine| && chain == spine[k] && posInChain <= chain.off
        invariant forall i :: n <= i < out.Length ==> out[i] == old(out[i])
        modifies out
        decreases |spine| - k
      {
        CopyWindow(chain, posInChain, chain.off - posInChain, out, p.pos, done, k);
        AtNext(Ptr(p.pos + done, chain, posInChain), k);
        BlockAt(k);
        done := done + (chain.off - posInChain);
        chain, posInChain, k := chain.next, 0, k + 1;
        NextToCopy(Ptr(p.pos + done, chain, posInChain), k);
      }
      if n - done > 0 {
        CopyWindow(chain, posInChain, n - done, out, p.pos, done, k);
      }
    }

    lemma NothingCopied(out: array<Byte>, start: nat)
      requires start <= |Contents()|
      ensures Copied(out, start, 0)
    {}

    /** Copies `len` bytes of one block, from its `a`-th on, to the end of what has been copied so far. */
    method CopyWindow(chain: Chain, a: nat, len: nat, out: array<Byte>, start: nat, done: nat, ghost k: nat)
      requires Sound() && out !in Repr && At(Ptr(start + done, chain, a), k) && k < |spine|
      requires a + len <= chain.off && done + len <= out.Length
      requires Copied(out, start, done)
      modifies out
      ensures Copied(out, start, done + len)
      ensures forall i :: done + len <= i < out.Length ==> out[i] == old(out[i])
    {
      hide Listed, Distinct, Linked, Holds, Within, Flatten, Marks, EmptyFrom, UsedBlocks;
      BlockAt(k);
      FlattenSlice(parts, k, a, a + len);
      chain.Window(a, a + len);
      Extend(out, done, chain.buffer[chain.misalign + a..chain.misalign + a + len], Contents(), start);
    }

    /** Before the end of the buffer there is a block to read from. */
    lemma NextToCopy(p: Ptr, k: nat)
      requires Sound() && At(p, k)
      ensures p.pos < totalLen ==> k < |spine| && p.chain == spine[k] && p.posInChain <= spine[k].off
    {
      AtWithin(p, k);
    }

    /** Copies up to `datlen` bytes out and removes them. */
    method Remove(out: array<Byte>, datlen: nat) returns (result: int)
      requires Valid() && out !in Repr && datlen <= out.Length
      modifies Repr, out
      ensures Valid() && Repr <= old(Repr)
      ensures var n := if datlen <= old(totalLen) then datlen else old(totalLen);
              if n != 0 && old(freezeStart) then
                result == -1 && Contents() == old(Contents())
              else
                && result == AsInt(n)
                && out[..n] == old(Contents()[..n]) && Contents() == old(Contents())[n..]
      ensures freezeStart == old(freezeStart) && freezeEnd == old(freezeEnd)
    {
      hide Listed, Distinct, Linked, Holds, Within, Flatten, Marks, EmptyFrom, UsedBlocks, Copied, At;
      var n := CopyoutFrom(None, out, datlen);
      if n > 0 {
        var ok := Drain(n);
        if !ok {
          n := -1;
        }
      }
      result := AsInt(n);
    }

    /** Replaces the list by another one. */
    method Adopt(head: Chain?, ghost s2: seq<Chain>, ghost p2: seq<seq<Byte>>, ghost r2: set<object>)
      requires Linked(s2) && Distinct(s2) && Holds(s2, p2) && Within(s2, r2) && head == Nth(s2, 0)
      modifies this`first, this`spine, this`parts, this`Repr
      ensures Listed() && spine == s2 && parts == p2 && Repr == {this} + r2 && first == head
      ensures last == old(last) && lastWithDatap == old(lastWithDatap) && totalLen == old(totalLen)
      ensures freezeStart == old(freezeStart) && freezeEnd == old(freezeEnd)
    {
      hide Distinct, Linked, Holds, Within;
      WithinMore(s2, r2, {this} + r2);
      first := head;
      spine, parts, Repr := s2, p2, {this} + r2;
    }

    /** Takes over the blocks of another buffer, this one's having been freed. */
    method TakeChains(inbuf: EvBuffer)
      requires inbuf.Valid() && this !in inbuf.Repr
      modifies this
      ensures Valid() && Contents() == inbuf.Contents()
      ensures Repr == {this} + (inbuf.Repr - {inbuf})
      ensures freezeStart == old(freezeStart) && freezeEnd == old(freezeEnd)
    {
      hide Distinct, Linked, Holds, Marks, Flatten, Within, Listed;
      inbuf.ListedParts();
      Adopt(inbuf.first, inbuf.spine, inbuf.parts, inbuf.Repr - {inbuf});
      if inbuf.lastWithDatap == null {
        lastWithDatap := null;
      } else {
        lastWithDatap := inbuf.lastWithDatap;
      }
      last := inbuf.last;
      totalLen := inbuf.totalLen;
      lwd := inbuf.lwd;
    }

    /** Hangs a list with data off the end of this one and moves the mark into it. */
    method AppendList(owner: Chain?, head: Chain?, owner2: Chain?, last2: Chain?, len2: nat,
                      ghost s2: seq<Chain>, ghost p2: seq<seq<Byte>>, ghost l2: nat, ghost r2: set<object>)
      requires Sound() && UsedBlocks(parts, lwd) == |spine| && owner == Nth(spine, |spine| - 1)
      requires Linked(s2) && Distinct(s2) && Holds(s2, p2) && Within(s2, r2) && head == Nth(s2, 0) && r2 !! Repr
      requires Marks(owner2, s2, p2, l2) && l2 < |p2| && p2[l2] != [] && last2 == Nth(s2, |s2| - 1)
      requires len2 == |Flatten(p2)|
      modifies Repr
      ensures Valid() && Contents() == old(Contents()) + Flatten(p2) && Repr == old(Repr) + r2
      ensures spine == old(spine) + s2 && parts == old(parts) + p2
      ensures freezeStart == old(freezeStart) && freezeEnd == old(freezeEnd)
    {
      hide Distinct, Linked, Holds, Marks, Flatten, Within, EmptyFrom, Listed;
      MarksUnfold(owner2, s2, p2, l2);
      FlattenConcat(parts, p2);
      MarksAppend(lastWithDatap, spine, parts, lwd, owner, owner2, s2, p2, l2);
      ghost var n := |spine|;
      Attach(owner, head, s2, p2, r2);
      lastWithDatap, lwd := if owner2 == null then owner else owner2, n + l2;
      last := last2;
      totalLen := totalLen + len2;
    }

    /** Hangs the blocks of another buffer behind this one's data. */
    method AppendChains(inbuf: EvBuffer)
      requires Valid() && inbuf.Valid() && Repr !! inbuf.Repr && inbuf.totalLen > 0
      modifies Repr
      ensures Valid() && Contents() == old(Contents() + inbuf.Contents())
      ensures Repr == old(Repr) + (inbuf.Repr - {inbuf})
      ensures freezeStart == old(freezeStart) && freezeEnd == old(freezeEnd)
    {
      hide Distinct, Linked, Holds, Marks, Flatten, Within, EmptyFrom, Listed, UsedBlocks;
      inbuf.EmptyWhenUnused();
      UsedIsFull(lastWithDatap, spine, parts, lwd);
      UsedIsFull(inbuf.lastWithDatap, inbuf.spine, inbuf.parts, inbuf.lwd);
      var owner := FreeTrailingEmptyChains();
      inbuf.ListedParts();
      AppendList(owner, inbuf.first, inbuf.lastWithDatap, inbuf.last, inbuf.totalLen,
                 inbuf.spine, inbuf.parts, inbuf.lwd, inbuf.Repr - {inbuf});
    }

    lemma ListedParts()
      requires Listed()
      ensures Linked(spine) && Distinct(spine) && Holds(spine, parts) && Within(spine, Repr) && Within(spine, Repr - {this})
      ensures first == Nth(spine, 0)
    {}

    /** Moves everything from another buffer to the end of this one, without copying. */
    method AddBuffer(inbuf: EvBuffer) returns (ok: bool)
      requires Valid()
      // the lengths are size_t counters that the code adds without a check
      requires inbuf != this ==> inbuf.Valid() && Repr !! inbuf.Repr && totalLen + inbuf.totalLen <= SIZE_MAX
      modifies Repr, inbuf.Repr
      ensures Valid() && inbuf.Valid()
      ensures ok <==> inbuf == this || old(inbuf.totalLen) == 0 || (!old(freezeEnd) && !old(inbuf.freezeStart))
      ensures inbuf == this || !ok ==> Contents() == old(Contents()) && inbuf.Contents() == old(inbuf.Contents())
      ensures inbuf != this && ok ==> Contents() == old(Contents() + inbuf.Contents()) && inbuf.Contents() == []
      ensures inbuf != this ==> Repr !! inbuf.Repr
      ensures Repr + inbuf.Repr <= old(Repr + inbuf.Repr)
      ensures freezeStart == old(freezeStart) && freezeEnd == old(freezeEnd)
      ensures inbuf.freezeStart == old(inbuf.freezeStart) && inbuf.freezeEnd == old(inbuf.freezeEnd)
    {
      hide Distinct, Linked, Holds, Marks, Flatten, Within, EmptyFrom, Listed;
      if inbuf.totalLen == 0 || inbuf == this {
        return true;
      }
      if freezeEnd || inbuf.freezeStart {
        return false;
      }
      if totalLen == 0 {
        // without data, whatever blocks it has are empty
        TakeChains(inbuf);
      } else {
        AppendChains(inbuf);
      }
      inbuf.ZeroChain();
      ok := true;
    }

    /** Hangs the blocks of another buffer in front of this one's. */
    method PrependChains(inbuf: EvBuffer)
      requires Valid() && inbuf.Valid() && Repr !! inbuf.Repr && inbuf.totalLen > 0 && totalLen > 0
      modifies Repr, inbuf.Repr
      ensures Valid() && Contents() == old(inbuf.Contents() + Contents())
      ensures Repr == old(Repr) + (old(inbuf.Repr) - {inbuf})
      ensures freezeStart == old(freezeStart) && freezeEnd == old(freezeEnd)
      ensures inbuf.freezeStart == old(inbuf.freezeStart) && inbuf.freezeEnd == old(inbuf.freezeEnd)
    {
      hide Distinct, Linked, Holds, Marks, Flatten, Within, EmptyFrom, Listed;
      EmptyWhenUnused();
      inbuf.EmptyWhenUnused();
      MarksUnfold(lastWithDatap, spine, parts, lwd);
      MarksUnfold(inbuf.lastWithDatap, inbuf.spine, inbuf.parts, inbuf.lwd);
      MarksUnder(inbuf.spine, inbuf.parts, lastWithDatap, spine, parts, lwd);
      FlattenConcat(inbuf.parts, parts);
      var head2, last2, len2 := inbuf.first, inbuf.last, inbuf.totalLen;
      ghost var n := |inbuf.spine|;
      inbuf.ListedParts();
      inbuf.BlockAt(n - 1);
      AttachBefore(head2, last2, inbuf.spine, inbuf.parts, inbuf.Repr - {inbuf});
      totalLen := totalLen + len2;
      DerefAt(lastWithDatap, if lastWithDatap == null then 0 else n + lwd);
      if Deref(lastWithDatap) == null {
        // this buffer has data
        assert false;
      } else if lastWithDatap == null {
        lastWithDatap := last2;
      }
      lwd := n + lwd;
    }

    /** Hangs the list `s2` in front of this one. */
    method AttachBefore(head: Chain?, tail: Chain?, ghost s2: seq<Chain>, ghost p2: seq<seq<Byte>>, ghost r2: set<object>)
      requires Listed() && s2 != [] && tail == s2[|s2| - 1]
      requires Linked(s2) && Distinct(s2) && Holds(s2, p2) && Within(s2, r2) && head == Nth(s2, 0)
      requires r2 !! Repr
      modifies this`first, this`spine, this`parts, this`Repr, tail`next
      ensures Listed()
      ensures spine == s2 + old(spine) && parts == p2 + old(parts) && Repr == old(Repr) + r2
      ensures lastWithDatap == old(lastWithDatap) && lwd == old(lwd) && totalLen == old(totalLen)
      ensures freezeStart == old(freezeStart) && freezeEnd == old(freezeEnd)
    {
      hide Distinct, Linked, Holds, Within;
      DistinctConcat(s2, r2, spine, Repr);
      HoldsConcat(s2, p2, spine, parts);
      LinkAfter(tail, s2, first, spine);
      first := head;
      spine, parts, Repr := s2 + spine, p2 + parts, r2 + Repr;
    }

    /** Moves everything from another buffer to the front of this one, without copying. */
    method PrependBuffer(inbuf: EvBuffer) returns (ok: bool)
      requires Valid()
      requires inbuf != this ==> inbuf.Valid() && Repr !! inbuf.Repr && totalLen + inbuf.totalLen <= SIZE_MAX
      modifies Repr, inbuf.Repr
      ensures Valid() && inbuf.Valid()
      ensures ok <==> inbuf == this || old(inbuf.totalLen) == 0 || (!old(freezeStart) && !old(inbuf.freezeStart))
      ensures inbuf == this || !ok ==> Contents() == old(Contents()) && inbuf.Contents() == old(inbuf.Contents())
      ensures inbuf != this && ok ==> Contents() == old(inbuf.Contents() + Contents()) && inbuf.Contents() == []
      ensures inbuf != this ==> Repr !! inbuf.Repr
      ensures Repr + inbuf.Repr <= old(Repr + inbuf.Repr)
      ensures freezeStart == old(freezeStart) && freezeEnd == old(freezeEnd)
      ensures inbuf.freezeStart == old(inbuf.freezeStart) && inbuf.freezeEnd == old(inbuf.freezeEnd)
    {
      hide Distinct, Linked, Holds, Marks, Flatten, Within, EmptyFrom, Listed;
      if inbuf.totalLen == 0 || inbuf == this {
        return true;
      }
      if freezeStart || inbuf.freezeStart {
        return false;
      }
      if totalLen == 0 {
        // without data, whatever blocks it has are empty
        TakeChains(inbuf);
      } else {
        PrependChains(inbuf);
      }
      inbuf.ZeroChain();
      ok := true;
    }

    /** Moves the mark from block `lwd` on to the last block with data. */
    method AdvanceLastWithData()
      requires Listed()
      requires (if spine == [] then lwd == 0 else lwd < |spine|) && lastWithDatap == Nth(spine, lwd - 1)
      requires lwd > 0 ==> parts[lwd] != []
      modifies this`lastWithDatap, this`lwd
      ensures Listed() && Marks(lastWithDatap, spine, parts, lwd)
    {
      hide Distinct, Linked, Holds, Flatten, Within;
      var owner := lastWithDatap;
      ghost var k := lwd;
      DerefAt(owner, k);
      if Deref(owner) == null {
        return;
      }
      BlockAt(k);
      while Deref(owner).next != null
        invariant Listed() && lwd <= k < |spine| && owner == Nth(spine, k - 1) && Deref(owner) == spine[k]
        invariant spine[k].next == Nth(spine, k + 1)
        invariant lastWithDatap == Nth(spine, lwd - 1) && (lwd > 0 ==> parts[lwd] != [])
        invariant forall i :: lwd < i <= k ==> parts[i] == []
        modifies this`lastWithDatap, this`lwd
        decreases |spine| - k
      {
        owner := Deref(owner);
        k := k + 1;
        DerefAt(owner, k);
        BlockAt(k);
        if Deref(owner).off != 0 {
          lastWithDatap, lwd := owner, k;
        }
      }
    }

    /** Walks past the blocks that `datlen` bytes cover completely, moving the mark off their links. */
    method SkipForMove(datlen: nat) returns (previous: Chain?, chain: Chain, remaining: nat, ghost j: nat)
      requires Valid() && datlen < totalLen
      modifies this`lastWithDatap
      ensures j <= lwd < |spine| && chain == spine[j] && (j > 0 ==> previous == spine[j - 1])
      ensures |Flatten(parts[..j])| + remaining == datlen && remaining < chain.off
      ensures lastWithDatap == if j == lwd then null else old(lastWithDatap)
      ensures Marks(old(lastWithDatap), spine, parts, lwd)
    {
      hide Listed, Distinct, Linked, Holds, Within, Flatten, Marks, EmptyFrom, UsedBlocks;
      MarksUnfold(lastWithDatap, spine, parts, lwd);
      FlattenNil();
      DerefAt(null, 0);
      previous, chain, remaining, j := first, first, datlen, 0;
      BlockAt(0);
      while chain.off <= remaining
        invariant j <= lwd && chain == spine[j] && chain.off == |parts[j]| && (j > 0 ==> previous == spine[j - 1])
        invariant |Flatten(parts[..j])| + remaining == datlen
        invariant lastWithDatap == if j == lwd then null else old(lastWithDatap)
        invariant Listed() && Marks(old(lastWithDatap), spine, parts, lwd)
        modifies this`lastWithDatap
        decreases lwd - j
      {
        SkipStep(old(lastWithDatap), j, datlen, remaining);
        // the walk ends before the mark, as there are more bytes than are asked for
        assert chain != Deref(lastWithDatap);
        remaining := remaining - chain.off;
        previous := chain;
        if lastWithDatap == chain {
          lastWithDatap := null;
        }
        chain := chain.next;
        j := j + 1;
      }
    }

    lemma NotABlock(s: seq<Chain>)
      ensures this !in Footprint(s)
    {}

    /** Splits the first `j` blocks off the list. */
    method SplitOff(previous: Chain, chain: Chain, ghost j: nat)
      requires Listed() && 0 < j < |spine| && previous == spine[j - 1] && chain == spine[j]
      modifies this`first, this`spine, this`parts, this`Repr, previous`next
      ensures Listed() && spine == old(spine[j..]) && |old(parts)| == |old(spine)| && parts == old(parts)[j..]
      ensures var s2, p2 := old(spine[..j]), old(parts)[..j];
              && Linked(s2) && Distinct(s2) && Holds(s2, p2) && Within(s2, Footprint(s2))
              && Repr == old(Repr) - Footprint(s2) && Footprint(s2) <= old(Repr)
    {
      hide Distinct, Linked, Holds, Within, Footprint;
      HoldsPart(spine, parts, j);
      DistinctPart(spine, j);
      FootprintSplit(spine, j, Repr);
      NotABlock(spine[..j]);
      SplitAfter(previous, spine, j);
      first := chain;
      Repr := Repr - Footprint(spine[..j]);
      spine, parts := spine[j..], parts[j..];
    }

    /** Moves the first `j` blocks to the end of another buffer. */
    method MoveBlocks(dst: EvBuffer, previous: Chain, chain: Chain, nread: nat, ghost j: nat, ghost mark: Chain?)
      requires Listed() && 0 < j <= lwd < |spine| && previous == spine[j - 1] && chain == spine[j]
      requires Marks(mark, spine, parts, lwd) && lastWithDatap == (if j == lwd then null else mark)
      requires last == Nth(spine, |spine| - 1) && totalLen == |Contents()| && nread == |Flatten(parts[..j])|
      requires dst.Valid() && dst.Repr !! Repr
      modifies Repr, dst.Repr
      ensures Valid() && dst.Valid() && dst.Repr !! Repr && dst.Repr + Repr <= old(dst.Repr + Repr)
      ensures Contents() == old(Flatten(parts[j..])) && dst.Contents() == old(dst.Contents() + Flatten(parts[..j]))
      ensures spine != [] && spine[0] == chain && parts != [] && parts[0] == old(parts[j])
      ensures freezeStart == old(freezeStart) && freezeEnd == old(freezeEnd)
      ensures dst.freezeStart == old(dst.freezeStart) && dst.freezeEnd == old(dst.freezeEnd)
    {
      hide Listed, Distinct, Linked, Holds, Within, Flatten, Marks, EmptyFrom, UsedBlocks, Footprint;
      MarksUnfold(mark, spine, parts, lwd);
      ghost var s2, p2 := spine[..j], parts[..j];
      var head := first;
      MarksDrop(mark, spine, parts, lwd, j);
      FlattenSplit(parts, j);
      BlockAt(j - 1);
      DerefAt(null, 0);
      SplitOff(previous, chain, j);
      totalLen := totalLen - nread;
      lwd := lwd - j;
      dst.Receive(head, previous, nread, s2, p2, Footprint(s2));
    }

    /** Takes a list of blocks, some of them perhaps empty, in behind the data. */
    method Receive(head: Chain?, tail: Chain, nread: nat, ghost s2: seq<Chain>, ghost p2: seq<seq<Byte>>, ghost r2: set<object>)
      requires Valid() && r2 !! Repr && s2 != [] && tail == s2[|s2| - 1] && nread == |Flatten(p2)|
      requires Linked(s2) && Distinct(s2) && Holds(s2, p2) && Within(s2, r2) && head == Nth(s2, 0)
      modifies Repr
      ensures Valid() && Contents() == old(Contents()) + Flatten(p2) && Repr == old(Repr) + r2
      ensures freezeStart == old(freezeStart) && freezeEnd == old(freezeEnd)
    {
      hide Listed, Distinct, Linked, Holds, Within, Flatten, Marks, EmptyFrom, UsedBlocks, Footprint;
      Apart(s2, r2, Repr);
      UsedIsFull(lastWithDatap, spine, parts, lwd);
      MarksUnfold(lastWithDatap, spine, parts, lwd);
      var owner := FreeTrailingEmptyChains();
      UsedIsFull(lastWithDatap, spine, parts, lwd);
      MarksUnfold(lastWithDatap, spine, parts, lwd);
      FlattenConcat(parts, p2);
      Attach(owner, head, s2, p2, r2);
      last := tail;
      AdvanceLastWithData();
      totalLen := totalLen + nread;
    }

    /** Moves `datlen` bytes, or all there are, to the end of another buffer, copying at most one block's part. */
    method RemoveBuffer(dst: EvBuffer, datlen: nat) returns (result: int)
      requires Valid()
      requires dst != this ==> dst.Valid() && Repr !! dst.Repr && totalLen + dst.totalLen <= SIZE_MAX
      modifies Repr, dst.Repr
      ensures Valid() && dst.Valid() && fresh(Repr + dst.Repr - old(Repr + dst.Repr))
      ensures dst != this ==> Repr !! dst.Repr
      ensures var n := if datlen <= old(totalLen) then datlen else old(totalLen);
              if datlen == 0 || dst == this then
                result == 0 && Contents() == old(Contents()) && dst.Contents() == old(dst.Contents())
              else if old(dst.freezeEnd) || old(freezeStart) then
                result == -1 && Contents() == old(Contents()) && dst.Contents() == old(dst.Contents())
              else
                && result == AsInt(n)
                && dst.Contents() == old(dst.Contents()) + old(Contents()[..n])
                && Contents() == old(Contents())[n..]
      ensures freezeStart == old(freezeStart) && freezeEnd == old(freezeEnd)
      ensures dst.freezeStart == old(dst.freezeStart) && dst.freezeEnd == old(dst.freezeEnd)
    {
      hide Listed, Distinct, Linked, Holds, Within, Flatten, Marks, EmptyFrom, UsedBlocks, Footprint;
      if datlen == 0 || dst == this {
        return 0;
      }
      if dst.freezeEnd || freezeStart {
        return -1;
      }
      if datlen >= totalLen {
        var n := totalLen;
        var _ := dst.AddBuffer(this);
        return AsInt(n);
      }
      MovePart(dst, datlen);
      result := AsInt(datlen);
    }

    method MovePart(dst: EvBuffer, datlen: nat)
      requires Valid() && dst.Valid() && Repr !! dst.Repr && totalLen + dst.totalLen <= SIZE_MAX
      requires datlen < totalLen && !dst.freezeEnd
      modifies Repr, dst.Repr
      ensures Valid() && dst.Valid() && fresh(Repr + dst.Repr - old(Repr + dst.Repr)) && Repr !! dst.Repr
      ensures dst.Contents() == old(dst.Contents()) + old(Contents()[..datlen])
      ensures Contents() == old(Contents())[datlen..]
      ensures freezeStart == old(freezeStart) && freezeEnd == old(freezeEnd)
      ensures dst.freezeStart == old(dst.freezeStart) && dst.freezeEnd == old(dst.freezeEnd)
    {
      hide Listed, Distinct, Linked, Holds, Within, Flatten, Marks, EmptyFrom, UsedBlocks, Footprint;
      ghost var mark, whole := lastWithDatap, Contents();
      ghost var j;
      var previous, chain, remaining;
      previous, chain, remaining, j := SkipForMove(datlen);
      MarksUnfold(mark, spine, parts, lwd);
      BlockAt(j);
      SplitPoint(parts, j, remaining);
      DerefAt(null, 0);
      if j > 0 {
        BlocksDiffer(0, j);
      }
      if chain != first {
        MoveBlocks(dst, previous, chain, datlen - remaining, j, mark);
      }
      BlockAt(0);
      CopyPart(dst, chain, remaining);
    }

    /** Copies the first `n` bytes of the first block to another buffer and drops them here. */
    method CopyPart(dst: EvBuffer, chain: Chain, n: nat)
      requires Valid() && dst.Valid() && Repr !! dst.Repr && spine != [] && chain == spine[0] && n < chain.off
      requires n + dst.totalLen <= SIZE_MAX && !dst.freezeEnd
      modifies Repr, dst.Repr
      ensures Valid() && dst.Valid() && fresh(dst.Repr - old(dst.Repr)) && Repr == old(Repr) && Repr !! dst.Repr
      ensures n <= |old(Contents())| && dst.Contents() == old(dst.Contents()) + old(Contents())[..n]
      ensures Contents() == old(Contents())[n..]
      ensures freezeStart == old(freezeStart) && freezeEnd == old(freezeEnd)
      ensures dst.freezeStart == old(dst.freezeStart) && dst.freezeEnd == old(dst.freezeEnd)
    {
      hide Listed, Distinct, Linked, Holds, Within, Flatten, Marks, EmptyFrom, UsedBlocks, Footprint;
      BlockAt(0);
      chain.Window(0, n);
      FlattenFront(parts, n);
      var ok := dst.Add(chain.buffer[chain.misalign..chain.misalign + n]);
      DropFront(chain, n);
    }

    /** Drops some bytes of the first block, but not all. */
    method DropFront(chain: Chain, n: nat)
      requires Valid() && spine != [] && chain == spine[0] && n < chain.off
      modifies Repr
      ensures Valid() && Repr == old(Repr) && n <= |old(Contents())| && Contents() == old(Contents())[n..]
      ensures freezeStart == old(freezeStart) && freezeEnd == old(freezeEnd)
    {
      hide Listed, Distinct, Linked, Holds, Within, Flatten, Marks, EmptyFrom, UsedBlocks, Footprint;
      BlockAt(0);
      FlattenFront(parts, n);
      MarksUnfold(lastWithDatap, spine, parts, lwd);
      MarksGrow(lastWithDatap, spine, parts, lwd, 0, parts[0][n..]);
      Advance(chain, 0, n);
      totalLen := totalLen - n;
    }

    /** Puts `tmp`, which holds a copy of the bytes of the last block with data, in that block's place. */
    method ReplaceBlock(chain: Chain, tmp: Chain)
      requires Valid() && lwd < |spine| == |parts| && chain == spine[lwd]
      requires tmp.Valid() && tmp.Data() == parts[lwd] && tmp !in Repr && tmp.buffer !in Repr
      modifies Repr, tmp`next
      ensures Valid() && Contents() == old(Contents()) && Repr == old(Repr) + {tmp, tmp.buffer}
      ensures spine == old(spine[lwd := tmp]) && parts == old(parts) && lwd == old(lwd)
      ensures tmp.Valid() && tmp.misalign == old(tmp.misalign) && tmp.off == old(tmp.off)
      ensures freezeStart == old(freezeStart) && freezeEnd == old(freezeEnd)
    {
      hide Distinct, Linked, Holds, Within, Flatten, Marks, EmptyFrom, Listed;
      MarksUnfold(lastWithDatap, spine, parts, lwd);
      MarksReplace(lastWithDatap, spine, parts, lwd, tmp);
      BlockAt(lwd);
      if last == chain {
        last := tmp;
      } else if lwd == |spine| - 1 {
        assert false;
      }
      if lwd < |spine| - 1 {
        BlocksDiffer(lwd, |spine| - 1);
      }
      Substitute(lastWithDatap, tmp, lwd);
    }

    /** Exchanges block `k` for `tmp`; `owner` holds the link to it. */
    method Substitute(owner: Chain?, tmp: Chain, ghost k: nat)
      requires Listed() && k < |spine| == |parts| && owner == Nth(spine, k - 1)
      requires tmp.Valid() && tmp.Data() == parts[k] && tmp !in Repr && tmp.buffer !in Repr
      modifies this`first, this`spine, this`Repr, Repr - {this}, tmp`next
      ensures Listed() && spine == old(spine)[k := tmp] && Repr == old(Repr) + {tmp, tmp.buffer}
      ensures tmp.misalign == old(tmp.misalign) && tmp.off == old(tmp.off)
      ensures forall c | c in old(spine) :: c.misalign == old(c.misalign) && c.off == old(c.off)
    {
      hide Distinct, Linked, Holds, Within;
      ghost var s, p, r := spine, parts, Repr;
      DerefAt(owner, k);
      BlockAt(k);
      Outside(s, r, tmp);
      ReplacedParts(s, p, k, tmp, r);
      if owner != null {
        BlockAt(k - 1);
      }
      Relink(owner, tmp, s, k, Deref(owner).next);
      if owner == null {
        first := tmp;
      }
      spine, Repr := s[k := tmp], {tmp, tmp.buffer} + r;
    }

    /** Appends a block that refers to the user's own bytes instead of copying them. */
    method AddReference(data: array<Byte>) returns (ok: bool)
      requires Valid() && data !in Repr && data.Length <= MAX_REQUEST
      modifies Repr
      ensures Valid() && fresh(Repr - old(Repr) - {data})
      ensures ok <==> !old(freezeEnd)
      ensures Contents() == if ok then old(Contents()) + data[..] else old(Contents())
      ensures data[..] == old(data[..]) && freezeStart == old(freezeStart) && freezeEnd == old(freezeEnd)
    {
      hide Listed, Distinct, Linked, Holds, Within, Flatten, Marks, EmptyFrom, UsedBlocks;
      var chain := new Chain.Reference(data);
      if freezeEnd {
        return false;
      }
      assert chain.Data() == data[..];
      ChainInsert(chain);
      ok := true;
    }

    /** Freezes or unfreezes one end. */
    method Freeze(start: bool, on: bool)
      requires Valid()
      modifies this`freezeStart, this`freezeEnd
      ensures Valid() && Contents() == old(Contents())
      ensures freezeStart == (if start then on else old(freezeStart))
      ensures freezeEnd == (if start then old(freezeEnd) else on)
    {
      hide Listed, Distinct, Linked, Holds, Within, Flatten, Marks, EmptyFrom, UsedBlocks;
      if start {
        freezeStart := on;
      } else {
        freezeEnd := on;
      }
    }
  }
}
