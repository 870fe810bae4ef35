/** Reserving room at the end of a buffer and committing bytes written there. */
module EvBufferSpace {
  import opened ByteSeq
  import opened ChainModule
  import opened ChainList
  import opened EvBufferModule

  /** How many bytes can be appended in place to a block. */
  ghost function SpaceOf(c: Chain): nat
    reads c`misalign, c`off
  {
    if c.immutable || c.misalign + c.off > c.buffer.Length then 0 else c.buffer.Length - (c.misalign + c.off)
  }

  ghost function TotalSpace(s: seq<Chain>): nat
    reads s`misalign, s`off
  {
    if s == [] then 0 else SpaceOf(s[0]) + TotalSpace(s[1..])
  }

  lemma {:induction false} TotalSpaceConcat(a: seq<Chain>, b: seq<Chain>)
    ensures TotalSpace(a + b) == TotalSpace(a) + TotalSpace(b)
  {
    if a == [] {
      assert a + b == b;
    } else {
      TotalSpaceConcat(a[1..], b);
      assert (a + b)[1..] == a[1..] + b;
    }
  }

  lemma TotalSpaceStep(s: seq<Chain>, a: nat, k: nat)
    requires a <= k < |s|
    ensures TotalSpace(s[a..k + 1]) == TotalSpace(s[a..k]) + SpaceOf(s[k])
  {
    assert s[a..k + 1] == s[a..k] + [s[k]];
    TotalSpaceConcat(s[a..k], [s[k]]);
    assert TotalSpace([s[k]]) == SpaceOf(s[k]) + TotalSpace([]);
  }

  /** The index of the block where writing starts: the last one with data, or the next if that one is full. */
  ghost function WriteIndex(buf: EvBuffer): (f: nat)
    requires buf.lwd < |buf.spine|
    reads buf, buf.spine`misalign, buf.spine`off
    ensures buf.lwd <= f <= buf.lwd + 1
  {
    if SpaceOf(buf.spine[buf.lwd]) == 0 then buf.lwd + 1 else buf.lwd
  }

  /** The first `m` blocks from the write index on have room for `size` bytes. */
  ghost predicate Offers(buf: EvBuffer, m: nat, size: nat)
    reads buf, buf.spine`misalign, buf.spine`off
  {
    && buf.lwd < |buf.spine|
    && WriteIndex(buf) + m <= |buf.spine|
    && TotalSpace(buf.spine[WriteIndex(buf)..WriteIndex(buf) + m]) >= size
  }

  /** Adds a new block with room for `size` bytes at the end. */
  method AddRoom(buf: EvBuffer, size: nat) returns (chain: Chain?, ghost m: nat)
    requires buf.Valid()
    modifies buf.Repr
    ensures buf.Valid() && fresh(buf.Repr - old(buf.Repr)) && buf.Contents() == old(buf.Contents())
    ensures buf.freezeStart == old(buf.freezeStart) && buf.freezeEnd == old(buf.freezeEnd)
    ensures chain == null <==> size > MAX_REQUEST
    ensures chain != null ==> buf.spine != [] && chain == buf.spine[|buf.spine| - 1] == buf.last && chain.Valid() && chain.SpaceLen() >= size
    ensures chain != null ==> m <= 2 && 0 < m && Offers(buf, m, size) && WriteIndex(buf) + m == |buf.spine|
  {
    hide EvBuffer.Listed, Distinct, Linked, Holds, Within, Flatten, Marks, EmptyFrom, UsedBlocks, TotalSpace;
    m := 0;
    chain := ChainNew(size);
    if chain == null {
      return;
    }
    UsedIsFull(buf.lastWithDatap, buf.spine, buf.parts, buf.lwd);
    buf.ChainInsert(chain);
    RoomAtEnd(buf, chain, size);
    m := |buf.spine| - WriteIndex(buf);
  }

  lemma RoomAtEnd(buf: EvBuffer, chain: Chain, size: nat)
    requires buf.Valid() && buf.spine != [] && chain == buf.spine[|buf.spine| - 1] && |buf.parts| == |buf.spine|
    requires |buf.spine| >= 2 ==> buf.parts[|buf.spine| - 2] != []
    requires SpaceOf(chain) >= size && SpaceOf(chain) > 0
    ensures buf.lwd < |buf.spine| && WriteIndex(buf) < |buf.spine| <= buf.lwd + 2
    ensures Offers(buf, |buf.spine| - WriteIndex(buf), size)
  {
    MarksUnfold(buf.lastWithDatap, buf.spine, buf.parts, buf.lwd);
    assert |buf.spine| <= buf.lwd + 2;
    var s, f := buf.spine, WriteIndex(buf);
    TotalSpaceStep(s, f, |s| - 1);
    assert s[f..|s| - 1 + 1] == s[f..f + (|s| - f)];
  }

  /** Forgets the slack in front of an empty block, so that all its room counts as space. */
  method RealignEmpty(buf: EvBuffer, chain: Chain, ghost k: nat)
    requires buf.Valid() && buf.lwd <= k < |buf.spine| && chain == buf.spine[k] && chain.off == 0
    modifies chain`misalign
    ensures buf.Valid() && SpaceOf(chain) == chain.buffer.Length
    ensures TotalSpace(buf.spine[buf.lwd..k]) == old(TotalSpace(buf.spine[buf.lwd..k]))
    ensures k > buf.lwd ==> WriteIndex(buf) == old(WriteIndex(buf))
    ensures chain.next == old(chain.next)
  {
    hide Distinct, Linked, Holds, Within, Flatten, Marks, EmptyFrom, UsedBlocks, TotalSpace;
    buf.BlockAt(k);
    NotBefore(buf.spine, buf.lwd, k);
    if k > buf.lwd {
      buf.BlocksDiffer(k, buf.lwd);
    }
    ResetAt(chain, buf.spine, buf.parts, k);
    HoldsAt(buf.spine, buf.parts, k);
  }

  /** The space of a block, counting the slack in front of an empty one. */
  ghost function Capacity(c: Chain): nat
    reads c
  {
    if c.off != 0 then SpaceOf(c) else c.buffer.Length
  }

  /** Looks at the space in the first `n` blocks that have some, counting the slack of empty blocks as space.
      `avail` is the space of the blocks looked at, up to index `k`, and `used` how many of them offer any. */
  method Scan(buf: EvBuffer, size: nat, n: nat) returns (enough: bool, avail: nat, used: nat, ghost k: nat)
    requires buf.Valid() && buf.lwd < |buf.spine| && n >= 1
    modifies buf.Repr - {buf}
    ensures buf.Valid() && buf.lwd < k <= |buf.spine|
    ensures avail == TotalSpace(buf.spine[buf.lwd..k]) && used <= n && used <= k - buf.lwd
    ensures k - WriteIndex(buf) <= used
    ensures enough ==> avail >= size
    ensures !enough ==> avail < size && (used < n ==> k == |buf.spine|)
    ensures size == 0 ==> enough
    ensures size == 0 ==> SpaceOf(buf.spine[buf.lwd]) == old(Capacity(buf.spine[buf.lwd]))
  {
    hide EvBuffer.Listed, Distinct, Linked, Holds, Within, Flatten, Marks, EmptyFrom, UsedBlocks, TotalSpace, EvBuffer.Contents;
    MarksUnfold(buf.lastWithDatap, buf.spine, buf.parts, buf.lwd);
    buf.DerefAt(buf.lastWithDatap, buf.lwd);
    enough, avail, used, k := false, 0, 0, buf.lwd;
    var chain := buf.Deref(buf.lastWithDatap);
    NoSpace(buf.spine, buf.lwd);
    while chain != null
      invariant buf.Valid() && buf.lwd <= k <= |buf.spine| && chain == Nth(buf.spine, k)
      invariant avail == TotalSpace(buf.spine[buf.lwd..k]) && used < n && used <= k - buf.lwd
      invariant k > buf.lwd ==> avail < size && k - WriteIndex(buf) <= used
      invariant k > buf.lwd ==> size > 0
      invariant k == buf.lwd ==> SpaceOf(buf.spine[k]) == old(SpaceOf(buf.spine[buf.lwd])) && buf.spine[k].off == old(buf.spine[buf.lwd].off)
      modifies buf.Repr - {buf}
      decreases |buf.spine| - k
    {
      var space, counts := LookAt(buf, chain, k);
      TotalSpaceStep(buf.spine, buf.lwd, k);
      avail := avail + space;
      if counts {
        used := used + 1;
      }
      chain := chain.next;
      k := k + 1;
      if avail >= size {
        return true, avail, used, k;
      }
      if used == n {
        return;
      }
    }
  }

  /** One block of the scan: its space, and whether it counts as used. */
  method LookAt(buf: EvBuffer, chain: Chain, ghost k: nat) returns (space: nat, counts: bool)
    requires buf.Valid() && buf.lwd <= k < |buf.spine| && chain == buf.spine[k]
    modifies buf.Repr - {buf}
    ensures buf.Valid() && space == SpaceOf(chain)
    ensures TotalSpace(buf.spine[buf.lwd..k]) == old(TotalSpace(buf.spine[buf.lwd..k]))
    ensures k > buf.lwd ==> WriteIndex(buf) == old(WriteIndex(buf)) && counts
    ensures k == buf.lwd ==> k + 1 - WriteIndex(buf) <= if counts then 1 else 0
    ensures if old(chain.off) != 0 then SpaceOf(chain) == old(SpaceOf(chain)) else SpaceOf(chain) == chain.buffer.Length
    ensures chain.next == Nth(buf.spine, k + 1)
  {
    hide EvBuffer.Listed, Distinct, Linked, Holds, Within, Flatten, Marks, UsedBlocks, TotalSpace, EvBuffer.Contents;
    buf.BlockAt(k);
    MarksUnfold(buf.lastWithDatap, buf.spine, buf.parts, buf.lwd);
    if chain.off != 0 {
      // only the last block with data can have any from there on
      assert k == buf.lwd;
      space := chain.SpaceLen();
      counts := space != 0;
    } else {
      RealignEmpty(buf, chain, k);
      space := chain.buffer.Length;
      counts := true;
    }
  }

  lemma NoSpace(s: seq<Chain>, a: nat)
    requires a <= |s|
    ensures TotalSpace(s[a..a]) == 0
  {}

  /** Hangs a new block behind the last one, however empty that is. */
  method AppendRoom(buf: EvBuffer, tmp: Chain)
    requires buf.Valid() && buf.spine != [] && tmp.Valid() && tmp.off == 0 && tmp.next == null
    requires tmp !in buf.Repr && tmp.buffer !in buf.Repr
    modifies buf.Repr
    ensures buf.Valid() && buf.Contents() == old(buf.Contents()) && buf.Repr == old(buf.Repr) + {tmp, tmp.buffer}
    ensures buf.spine == old(buf.spine) + [tmp] && buf.parts == old(buf.parts) + [[]] && buf.lwd == old(buf.lwd)
    ensures forall c | c in old(buf.spine) :: c.misalign == old(c.misalign) && c.off == old(c.off)
    ensures buf.lwd < |buf.spine| - 1
    ensures TotalSpace(buf.spine[..|buf.spine| - 1][buf.lwd..]) == old(TotalSpace(buf.spine[buf.lwd..|buf.spine|]))
    ensures buf.freezeStart == old(buf.freezeStart) && buf.freezeEnd == old(buf.freezeEnd)
  {
    hide Distinct, Linked, Holds, Marks, Flatten, Within, EmptyFrom, EvBuffer.Listed, TotalSpace;
    ghost var s, l := buf.spine, buf.lwd;
    buf.DerefAt(null, 0);
    MarksUnfold(buf.lastWithDatap, buf.spine, buf.parts, buf.lwd);
    MarksEmptyTail(buf.lastWithDatap, buf.spine, buf.parts, buf.lwd, tmp);
    assert tmp.Data() == [];
    SingleBlock(tmp);
    FlattenOne([]);
    FlattenConcat(buf.parts, [[]]);
    buf.Attach(buf.last, tmp, [tmp], [[]], {tmp, tmp.buffer});
    buf.last := tmp;
    assert buf.spine[..|buf.spine| - 1] == s && s[l..] == s[l..|s|];
    assert forall c | c in s[l..] :: c in s;
  }

  /** Frees all blocks after the last one with data; all blocks, if none has data. */
  method DropEmpties(buf: EvBuffer)
    requires buf.Valid() && buf.lwd + 1 < |buf.spine| && |buf.parts| == |buf.spine| && buf.parts[buf.lwd] != []
    modifies buf.Repr
    ensures buf.Valid() && buf.Contents() == old(buf.Contents()) && buf.Repr == old(buf.Repr)
    ensures buf.spine == old(buf.spine[..buf.lwd + 1]) && buf.parts == old(buf.parts[..buf.lwd + 1]) && buf.lwd == old(buf.lwd)
    ensures forall c | c in old(buf.spine) :: c.misalign == old(c.misalign) && c.off == old(c.off)
    ensures buf.freezeStart == old(buf.freezeStart) && buf.freezeEnd == old(buf.freezeEnd)
  {
    hide Distinct, Linked, Holds, Marks, Flatten, Within, EmptyFrom, EvBuffer.Listed;
    MarksUnfold(buf.lastWithDatap, buf.spine, buf.parts, buf.lwd);
    buf.DerefAt(buf.lastWithDatap, buf.lwd);
    var chain := buf.Deref(buf.lastWithDatap);
    buf.Cut(chain, buf.lwd + 1);
    buf.last := chain;
  }

  /** Makes sure that `size` bytes fit into the first `n` blocks with space, without moving any data.
      `m` is the number of blocks that it takes. */
  method ExpandFast(buf: EvBuffer, size: nat, n: nat) returns (ok: bool, ghost m: nat)
    requires buf.Valid() && n >= 2
    modifies buf.Repr
    ensures buf.Valid() && fresh(buf.Repr - old(buf.Repr)) && buf.Contents() == old(buf.Contents())
    ensures buf.freezeStart == old(buf.freezeStart) && buf.freezeEnd == old(buf.freezeEnd)
    ensures !ok ==> size > MAX_REQUEST
    ensures ok ==> m <= n && Offers(buf, m, size)
    ensures size == 0 ==> ok && (WriteIndex(buf) == |buf.spine| <==> old(EndsFull(buf)))
  {
    hide Distinct, Linked, Holds, Marks, Flatten, Within, EmptyFrom, EvBuffer.Listed, EvBuffer.Contents, TotalSpace, Offers;
    MarksUnfold(buf.lastWithDatap, buf.spine, buf.parts, buf.lwd);
    var chain := buf.last;
    if chain == null || chain.immutable {
      // no block at the end that could be written to
      var added;
      added, m := AddRoom(buf, size);
      return added != null, m;
    }
    FullWhenMarked(buf);
    var enough, avail, used;
    ghost var k;
    enough, avail, used, k := Scan(buf, size, n);
    if enough {
      ScannedRoom(buf, k, size, avail);
      return true, k - WriteIndex(buf);
    }
    if used < n {
      // all blocks have been looked at, and one more may be used
      ok, m := OneMore(buf, size, avail);
    } else {
      // no further block may be used, so one has to take the place of the empty ones
      ok, m := ReplaceEmpties(buf, size, avail, k);
    }
  }

  /** Adds a block that makes up for what is missing in all of those there are. */
  method OneMore(buf: EvBuffer, size: nat, avail: nat) returns (ok: bool, ghost m: nat)
    requires buf.Valid() && buf.lwd < |buf.spine| && avail == TotalSpace(buf.spine[buf.lwd..|buf.spine|]) && avail < size
    modifies buf.Repr
    ensures buf.Valid() && fresh(buf.Repr - old(buf.Repr)) && buf.Contents() == old(buf.Contents())
    ensures buf.freezeStart == old(buf.freezeStart) && buf.freezeEnd == old(buf.freezeEnd)
    ensures !ok ==> size > MAX_REQUEST
    ensures ok ==> m == 1 + |old(buf.spine)| - old(WriteIndex(buf)) && Offers(buf, m, size)
  {
    hide Distinct, Linked, Holds, Marks, Flatten, Within, EmptyFrom, EvBuffer.Listed, EvBuffer.Contents, TotalSpace, Offers;
    buf.BlockAt(buf.lwd);
    var tmp := ChainNew(size - avail);
    if tmp == null {
      return false, 0;
    }
    assert buf.spine[buf.lwd] in buf.spine;
    AppendRoom(buf, tmp);
    AppendedRoom(buf, tmp, size, avail);
    ok, m := true, |buf.spine| - WriteIndex(buf);
  }

  /** Frees all empty blocks after the last one with data and adds one that makes up for what is missing there. */
  method ReplaceEmpties(buf: EvBuffer, size: nat, avail: nat, ghost k: nat) returns (ok: bool, ghost m: nat)
    requires buf.Valid() && buf.lwd + 1 < k <= |buf.spine| && avail == TotalSpace(buf.spine[buf.lwd..k]) && avail < size
    modifies buf.Repr
    ensures buf.Valid() && fresh(buf.Repr - old(buf.Repr)) && buf.Contents() == old(buf.Contents())
    ensures buf.freezeStart == old(buf.freezeStart) && buf.freezeEnd == old(buf.freezeEnd)
    ensures !ok ==> size > MAX_REQUEST
    ensures ok ==> m <= 2 && Offers(buf, m, size)
  {
    hide Distinct, Linked, Holds, Marks, Flatten, Within, EmptyFrom, EvBuffer.Listed, TotalSpace, UsedBlocks;
    MarksUnfold(buf.lastWithDatap, buf.spine, buf.parts, buf.lwd);
    UsedIsFull(buf.lastWithDatap, buf.spine, buf.parts, buf.lwd);
    buf.DerefAt(buf.lastWithDatap, buf.lwd);
    buf.BlockAt(buf.lwd);
    buf.EmptyWhenUnused();
    var chain := buf.Deref(buf.lastWithDatap);
    if chain.off == 0 {
      buf.DerefAt(null, 0);
      assert chain == buf.first;
      FlattenNil();
      buf.ZeroChain();
      ok, m := RoomInEmpty(buf, size);
    } else {
      PartialSum(buf.spine, buf.lwd, k);
      var here := chain.SpaceLen();
      DropEmpties(buf);
      var tmp := ChainNew(size - here);
      if tmp == null {
        return false, 0;
      }
      AppendRoom(buf, tmp);
      TwoBlocks(buf, tmp, size, here);
      ok, m := true, |buf.spine| - WriteIndex(buf);
    }
  }

  /** Gives a buffer without blocks one with room for `size` bytes. */
  method RoomInEmpty(buf: EvBuffer, size: nat) returns (ok: bool, ghost m: nat)
    requires buf.Valid() && buf.spine == []
    modifies buf.Repr
    ensures buf.Valid() && fresh(buf.Repr - old(buf.Repr)) && buf.Contents() == []
    ensures buf.freezeStart == old(buf.freezeStart) && buf.freezeEnd == old(buf.freezeEnd)
    ensures !ok ==> size > MAX_REQUEST
    ensures ok ==> m <= 2 && Offers(buf, m, size)
  {
    hide Distinct, Linked, Holds, Marks, Flatten, Within, EmptyFrom, EvBuffer.Listed, TotalSpace, UsedBlocks;
    MarksUnfold(buf.lastWithDatap, buf.spine, buf.parts, buf.lwd);
    FlattenNil();
    var tmp := ChainNew(size);
    if tmp == null {
      return false, 0;
    }
    buf.InsertFirst(tmp);
    RoomAtEnd(buf, tmp, size);
    ok, m := true, |buf.spine| - WriteIndex(buf);
  }

  lemma PartialSum(s: seq<Chain>, l: nat, k: nat)
    requires l < k <= |s|
    ensures SpaceOf(s[l]) <= TotalSpace(s[l..k])
  {}

  /** The space of all blocks from the mark on, after one more has been added. */
  lemma AppendedRoom(buf: EvBuffer, tmp: Chain, size: nat, avail: nat)
    requires buf.Valid() && 0 < |buf.spine| && buf.lwd < |buf.spine| - 1 && tmp == buf.spine[|buf.spine| - 1]
    requires avail == TotalSpace(buf.spine[..|buf.spine| - 1][buf.lwd..]) && avail + SpaceOf(tmp) >= size
    ensures WriteIndex(buf) < |buf.spine| && Offers(buf, |buf.spine| - WriteIndex(buf), size)
  {
    var s, l := buf.spine, buf.lwd;
    assert s[..|s| - 1][l..] == s[l..|s| - 1];
    TotalSpaceStep(s, l, |s| - 1);
    ScannedRoom(buf, |s|, size, TotalSpace(s[l..|s|]));
  }

  lemma TwoBlocks(buf: EvBuffer, tmp: Chain, size: nat, here: nat)
    requires buf.Valid() && |buf.spine| == buf.lwd + 2 && tmp == buf.spine[buf.lwd + 1]
    requires here == SpaceOf(buf.spine[buf.lwd]) && here + SpaceOf(tmp) >= size
    ensures WriteIndex(buf) < |buf.spine| && Offers(buf, |buf.spine| - WriteIndex(buf), size)
  {
    var s, l := buf.spine, buf.lwd;
    assert s[..|s| - 1][l..] == [s[l]];
    assert TotalSpace([s[l]]) == SpaceOf(s[l]) + TotalSpace([]);
    AppendedRoom(buf, tmp, size, here);
  }

  /** The last block is the user's to write to, has data and is full. */
  ghost predicate EndsFull(buf: EvBuffer)
    reads buf, if buf.last == null then {} else {buf.last}
  {
    && buf.last != null && !buf.last.immutable
    && buf.last.off != 0 && buf.last.misalign + buf.last.off == buf.last.buffer.Length
  }

  lemma FullWhenMarked(buf: EvBuffer)
    requires buf.Valid() && buf.last != null && !buf.last.immutable
    ensures buf.lwd < |buf.spine|
    ensures var c := buf.spine[buf.lwd];
            EndsFull(buf) <==> buf.lwd == |buf.spine| - 1 && Capacity(c) == 0
  {
    MarksUnfold(buf.lastWithDatap, buf.spine, buf.parts, buf.lwd);
    buf.BlockAt(|buf.spine| - 1);
    buf.BlockAt(buf.lwd);
  }

  lemma ScannedRoom(buf: EvBuffer, k: nat, size: nat, avail: nat)
    requires buf.Valid() && buf.lwd < k <= |buf.spine|
    requires avail == TotalSpace(buf.spine[buf.lwd..k]) && avail >= size
    ensures WriteIndex(buf) <= k && Offers(buf, k - WriteIndex(buf), size)
  {
    var s, l := buf.spine, buf.lwd;
    if WriteIndex(buf) == l + 1 {
      assert s[l..k] == [s[l]] + s[l + 1..k];
    }
  }

  /** A stretch of memory to write to: `len` bytes from `base + at` on. */
  datatype IoVec = IoVec(base: array<Byte>, at: nat, len: nat)

  /** `v` starts where block `c` ends and fits into its space. */
  ghost predicate Fits(v: IoVec, c: Chain)
    reads c`misalign, c`off
  {
    v.base == c.buffer && v.at == c.misalign + c.off && v.len <= SpaceOf(c)
  }

  ghost function Lengths(vecs: seq<IoVec>): nat {
    if vecs == [] then 0 else Lengths(vecs[..|vecs| - 1]) + vecs[|vecs| - 1].len
  }

  /** The link to the first block to write to, and that block (null if there is none). */
  method FirstWithSpace(buf: EvBuffer) returns (owner: Chain?, chain: Chain?)
    requires buf.Valid() && buf.spine != []
    ensures buf.lwd < |buf.spine| && owner == Nth(buf.spine, WriteIndex(buf) - 1) && chain == Nth(buf.spine, WriteIndex(buf))
  {
    hide Distinct, Linked, Holds, Marks, Flatten, Within, EmptyFrom, EvBuffer.Listed, TotalSpace;
    MarksUnfold(buf.lastWithDatap, buf.spine, buf.parts, buf.lwd);
    owner := buf.lastWithDatap;
    buf.DerefAt(owner, buf.lwd);
    buf.BlockAt(buf.lwd);
    if buf.Deref(owner).SpaceLen() == 0 {
      owner := buf.Deref(owner);
      buf.DerefAt(owner, buf.lwd + 1);
    }
    chain := buf.Deref(owner);
  }

  /** The vectors lie in the space of the blocks from index `f` on, one each. */
  ghost predicate AllFit(vecs: seq<IoVec>, s: seq<Chain>, f: nat)
    reads s`misalign, s`off
  {
    f + |vecs| <= |s| && forall i :: 0 <= i < |vecs| ==> Fits(vecs[i], s[f + i])
  }

  lemma LengthsMore(vecs: seq<IoVec>, v: IoVec)
    ensures Lengths(vecs + [v]) == Lengths(vecs) + v.len
  {
    assert (vecs + [v])[..|vecs|] == vecs;
  }

  lemma AllFitMore(vecs: seq<IoVec>, s: seq<Chain>, f: nat, v: IoVec)
    requires AllFit(vecs, s, f) && f + |vecs| < |s| && Fits(v, s[f + |vecs|])
    ensures AllFit(vecs + [v], s, f)
  {
    hide Fits;
    forall i | 0 <= i < |vecs + [v]|
      ensures Fits((vecs + [v])[i], s[f + i])
    {
      assert i < |vecs| ==> Fits(vecs[i], s[f + i]);
    }
  }

  lemma AllFitNone(s: seq<Chain>, f: nat)
    requires f <= |s|
    ensures AllFit([], s, f) && Lengths([]) == 0 && TotalSpace(s[f..f]) == 0
  {}

  /** All the space of a block, or as much of it as is missing if `exact`. */
  method RoomOf(chain: Chain, missing: nat, exact: bool) returns (v: IoVec)
    requires chain.Valid()
    ensures Fits(v, chain) && v.len == if exact && SpaceOf(chain) > missing then missing else SpaceOf(chain)
  {
    var avail := chain.SpaceLen();
    if avail > missing && exact {
      avail := missing;
    }
    v := IoVec(chain.buffer, chain.misalign + chain.off, avail);
  }

  /** Points vectors at the space of the blocks to write to until they offer `howmuch` bytes,
      no more than that if `exact`, and else all the space of the blocks used. */
  method ReadSetupVecs(buf: EvBuffer, howmuch: nat, nVecs: nat, exact: bool, ghost m: nat) returns (vecs: seq<IoVec>)
    requires buf.Valid() && Offers(buf, m, howmuch) && m <= nVecs
    // the code asserts that there is a block to write to
    requires WriteIndex(buf) < |buf.spine|
    ensures |vecs| <= m && AllFit(vecs, buf.spine, WriteIndex(buf))
    ensures Lengths(vecs) >= howmuch && (exact ==> Lengths(vecs) == howmuch)
    ensures !exact ==> Lengths(vecs) == TotalSpace(buf.spine[WriteIndex(buf)..WriteIndex(buf) + |vecs|])
  {
    hide Distinct, Linked, Holds, Marks, Flatten, Within, EmptyFrom, EvBuffer.Listed, EvBuffer.Contents, TotalSpace, Lengths, AllFit, UsedBlocks, Fits, SpaceOf, Offers;
    OffersAll(buf, m, howmuch);
    var owner, chain := FirstWithSpace(buf);
    assert chain != null;
    ghost var f := WriteIndex(buf);
    var soFar: nat := 0;
    vecs := [];
    AllFitNone(buf.spine, f);
    while |vecs| < nVecs && soFar < howmuch
      invariant |vecs| <= m && f + m <= |buf.spine| && chain == Nth(buf.spine, f + |vecs|) && AllFit(vecs, buf.spine, f)
      invariant soFar == Lengths(vecs) && (exact ==> soFar <= howmuch)
      invariant soFar < howmuch || !exact ==> soFar == TotalSpace(buf.spine[f..f + |vecs|])
      decreases nVecs - |vecs|
    {
      assert |vecs| < m;
      buf.BlockAt(f + |vecs|);
      var v := RoomOf(chain, howmuch - soFar, exact);
      AllFitMore(vecs, buf.spine, f, v);
      LengthsMore(vecs, v);
      TotalSpaceStep(buf.spine, f, f + |vecs|);
      vecs := vecs + [v];
      soFar := soFar + v.len;
      chain := chain.next;
    }
  }

  lemma OffersAll(buf: EvBuffer, m: nat, size: nat)
    requires Offers(buf, m, size)
    ensures buf.lwd < |buf.spine| && WriteIndex(buf) + m <= |buf.spine|
    ensures TotalSpace(buf.spine[WriteIndex(buf)..WriteIndex(buf) + m]) >= size
  {}

  /** The block to write to first has data and some room, but too little to be worth making more of, and the next one,
      which is not the last, has enough. */
  ghost predicate Skips(buf: EvBuffer, size: nat)
    reads buf, buf.spine`misalign, buf.spine`off
  {
    && buf.lwd + 2 < |buf.spine|
    && var c, next := buf.spine[buf.lwd], buf.spine[buf.lwd + 1];
       && c.Valid() && c.off != 0 && 0 < SpaceOf(c) < size <= SpaceOf(next)
       && !c.ShouldRealign(size) && !WorthResizing(c, size)
  }

  predicate WorthResizing(c: Chain, size: nat)
    requires c.Valid()
    reads c`misalign, c`off
  {
    c.SpaceLen() >= c.buffer.Length / 8 && c.off <= MAX_TO_COPY_IN_EXPAND && size < CHAIN_MAX - c.off
  }

  /** The block is the one to write to first, or the last one. */
  ghost predicate FirstOrLast(buf: EvBuffer, k: nat)
    requires buf.lwd < |buf.spine|
    reads buf, buf.spine`misalign, buf.spine`off
  {
    k == WriteIndex(buf) || k == |buf.spine| - 1
  }

  /** Makes sure that `size` bytes fit behind one block, and returns it: the block to write to first,
      the one after it, or a new last one.  May move the bytes of the last block with data. */
  method ExpandSinglechain(buf: EvBuffer, size: nat) returns (result: Chain?, ghost k: nat)
    requires buf.Valid()
    modifies buf.Repr
    ensures buf.Valid() && fresh(buf.Repr - old(buf.Repr)) && buf.Contents() == old(buf.Contents())
    ensures buf.freezeStart == old(buf.freezeStart) && buf.freezeEnd == old(buf.freezeEnd)
    ensures result == null ==> size > MAX_REQUEST - MAX_TO_COPY_IN_EXPAND
    ensures result != null ==> buf.lwd <= k < |buf.spine| && result == buf.spine[k] && result.Valid() && result.SpaceLen() >= size
    ensures result != null ==> (FirstOrLast(buf, k) <==> !old(Skips(buf, size)))
  {
    hide Distinct, Linked, Holds, Marks, Flatten, Within, EmptyFrom, EvBuffer.Listed, TotalSpace, UsedBlocks, Offers, Skips;
    var chain: Chain? := null;
    MarksUnfold(buf.lastWithDatap, buf.spine, buf.parts, buf.lwd);
    buf.DerefAt(buf.lastWithDatap, buf.lwd);
    SkipsMeans(buf, size);
    if buf.Deref(buf.lastWithDatap) != null {
      var owner;
      owner, chain := FirstWithSpace(buf);
      k := WriteIndex(buf);
      if k < |buf.spine| {
        buf.BlockAt(k);
      }
    }
    if chain == null || chain.immutable {
      // none, or one that is not to be written to
      result, k := LastRoom(buf, size);
      return;
    }
    if chain.SpaceLen() >= size {
      return chain, k;
    }
    if chain.off == 0 {
      // empty and too small; the insertion frees it
      result, k := LastRoom(buf, size);
      return;
    }
    SpaceAtMark(buf, chain, k);
    if chain.ShouldRealign(size) {
      buf.AlignLast(chain);
      return chain, k;
    }
    if !WorthResizing(chain, size) {
      // its room is given up
      result, k := NextRoom(buf, chain, size);
      return;
    }
    // few bytes to copy, and much room to save
    result := Resize(buf, chain, size);
  }

  lemma SkipsMeans(buf: EvBuffer, size: nat)
    requires buf.Valid()
    ensures Skips(buf, size) ==>
              && buf.lwd + 2 < |buf.spine| && WriteIndex(buf) == buf.lwd
              && var c := buf.spine[buf.lwd];
                 c.Valid() && !c.immutable && c.off != 0 && c.SpaceLen() < size && !c.ShouldRealign(size) && !WorthResizing(c, size)
  {}

  /** The block after the one to write to first, if it has enough room, or else a new one. */
  method NextRoom(buf: EvBuffer, chain: Chain, size: nat) returns (result: Chain?, ghost k: nat)
    requires buf.Valid() && buf.lwd < |buf.spine| && chain == buf.spine[buf.lwd] && chain.Valid() && chain.off != 0
    requires 0 < chain.SpaceLen() < size && !chain.ShouldRealign(size) && !WorthResizing(chain, size)
    modifies buf.Repr
    ensures buf.Valid() && fresh(buf.Repr - old(buf.Repr)) && buf.Contents() == old(buf.Contents())
    ensures buf.freezeStart == old(buf.freezeStart) && buf.freezeEnd == old(buf.freezeEnd)
    ensures result == null ==> size > MAX_REQUEST
    ensures result != null ==> buf.lwd <= k < |buf.spine| && result == buf.spine[k] && result.Valid() && result.SpaceLen() >= size
    ensures result != null ==> (FirstOrLast(buf, k) <==> !old(Skips(buf, size)))
  {
    hide Distinct, Linked, Holds, Marks, Flatten, Within, EmptyFrom, EvBuffer.Listed, TotalSpace, UsedBlocks;
    buf.BlockAt(buf.lwd);
    if chain.next != null {
      buf.BlockAt(buf.lwd + 1);
      if chain.next.SpaceLen() >= size {
        return chain.next, buf.lwd + 1;
      }
    }
    result, k := LastRoom(buf, size);
  }

  lemma SpaceAtMark(buf: EvBuffer, chain: Chain, k: nat)
    requires buf.Valid() && k < |buf.spine| && chain == buf.spine[k] && buf.lwd <= k && chain.off != 0
    ensures k == buf.lwd && |buf.parts| == |buf.spine| && chain.Data() == buf.parts[k] && chain.next == Nth(buf.spine, k + 1)
  {
    buf.BlockAt(k);
    MarksUnfold(buf.lastWithDatap, buf.spine, buf.parts, buf.lwd);
  }

  method LastRoom(buf: EvBuffer, size: nat) returns (result: Chain?, ghost k: nat)
    requires buf.Valid()
    modifies buf.Repr
    ensures buf.Valid() && fresh(buf.Repr - old(buf.Repr)) && buf.Contents() == old(buf.Contents())
    ensures buf.freezeStart == old(buf.freezeStart) && buf.freezeEnd == old(buf.freezeEnd)
    ensures result == null <==> size > MAX_REQUEST
    ensures result != null ==> buf.lwd <= k < |buf.spine| && result == buf.spine[k] && result.Valid() && result.SpaceLen() >= size
    ensures result != null ==> k == |buf.spine| - 1
  {
    hide Distinct, Linked, Holds, Marks, Flatten, Within, EmptyFrom, EvBuffer.Listed, TotalSpace, UsedBlocks;
    ghost var m;
    result, m := AddRoom(buf, size);
    k := if result == null then 0 else |buf.spine| - 1;
  }

  /** Copies the last block with data to a larger one that takes its place. */
  method Resize(buf: EvBuffer, chain: Chain, size: nat) returns (tmp: Chain?)
    requires buf.Valid() && buf.lwd < |buf.spine| && chain == buf.spine[buf.lwd]
    modifies buf.Repr
    ensures buf.Valid() && fresh(buf.Repr - old(buf.Repr)) && buf.Contents() == old(buf.Contents())
    ensures buf.freezeStart == old(buf.freezeStart) && buf.freezeEnd == old(buf.freezeEnd)
    ensures tmp == null ==> old(chain.off) + size > MAX_REQUEST
    ensures tmp != null ==> buf.lwd == old(buf.lwd) < |buf.spine| && tmp == buf.spine[buf.lwd] && tmp.Valid() && tmp.SpaceLen() >= size
  {
    hide Distinct, Linked, Holds, Marks, Flatten, Within, EmptyFrom, EvBuffer.Listed, TotalSpace, UsedBlocks;
    buf.BlockAt(buf.lwd);
    tmp := ChainNew(chain.off + size);
    if tmp != null {
      assert tmp.Data() == [];
      tmp.AppendData(chain.buffer[chain.misalign..chain.misalign + chain.off]);
      buf.ReplaceBlock(chain, tmp);
    }
  }

  /** The bytes that lie in the vectors. */
  ghost function VecBytes(vecs: seq<IoVec>): (b: seq<Byte>)
    reads set v | v in vecs :: v.base
  {
    if vecs == [] then [] else
      var v := vecs[|vecs| - 1];
      VecBytes(vecs[..|vecs| - 1]) + if v.at + v.len <= v.base.Length then v.base[v.at..v.at + v.len] else []
  }

  /** Takes `n` bytes already written behind block `k` into it; `owner` holds the link to it. */
  method CommitBlock(buf: EvBuffer, owner: Chain?, chain: Chain, n: nat, ghost k: nat)
    requires buf.Valid() && buf.lwd <= k < |buf.spine| && chain == buf.spine[k] && owner == Nth(buf.spine, k - 1)
    requires n <= SpaceOf(chain)
    modifies chain`off, buf`lastWithDatap, buf`lwd, buf`parts, buf`totalLen
    ensures buf.Valid() && chain.misalign + chain.off <= chain.buffer.Length && chain.off == old(chain.off) + n
    ensures buf.Contents() == old(buf.Contents()) + chain.buffer[chain.misalign + old(chain.off)..chain.misalign + chain.off]
    ensures buf.lwd == if n == 0 then old(buf.lwd) else k
  {
    hide Distinct, Linked, Holds, Marks, Flatten, Within, EmptyFrom, TotalSpace, UsedBlocks;
    buf.BlockAt(k);
    MarksUnfold(buf.lastWithDatap, buf.spine, buf.parts, buf.lwd);
    ghost var d := chain.buffer[chain.misalign + chain.off..chain.misalign + chain.off + n];
    MarksMove(buf.lastWithDatap, buf.spine, buf.parts, buf.lwd, k, d);
    FlattenAppendAfter(buf.parts, buf.lwd, k, d);
    GrowAt(chain, n, buf.spine, buf.parts, k);
    buf.parts := buf.parts[k := buf.parts[k] + d];
    if n != 0 {
      buf.lastWithDatap, buf.lwd := owner, k;
    }
    buf.totalLen := buf.totalLen + n;
  }

  lemma VecBytesMore(vecs: seq<IoVec>, i: nat)
    requires i < |vecs| && vecs[i].at + vecs[i].len <= vecs[i].base.Length
    ensures VecBytes(vecs[..i + 1]) == VecBytes(vecs[..i]) + vecs[i].base[vecs[i].at..vecs[i].at + vecs[i].len]
  {
    assert vecs[..i + 1][..i] == vecs[..i];
  }

  /** Commits one vector of several. */
  method CommitOne(buf: EvBuffer, owner: Chain?, chain: Chain, ghost vecs: seq<IoVec>, v: IoVec, ghost f: nat, ghost i: nat, ghost c0: seq<Byte>)
    requires buf.Valid() && i < |vecs| && v == vecs[i] && f + |vecs| <= |buf.spine| && buf.lwd <= f + i
    requires chain == buf.spine[f + i] && owner == Nth(buf.spine, f + i - 1)
    requires forall j :: i <= j < |vecs| ==> Fits(vecs[j], buf.spine[f + j])
    requires buf.Contents() == c0 + VecBytes(vecs[..i])
    modifies chain`off, buf`lastWithDatap, buf`lwd, buf`parts, buf`totalLen
    ensures buf.Valid() && buf.lwd <= f + i
    ensures buf.Contents() == c0 + VecBytes(vecs[..i + 1])
    ensures forall j :: i < j < |vecs| ==> Fits(vecs[j], buf.spine[f + j])
  {
    hide Distinct, Linked, Holds, Marks, Flatten, Within, EmptyFrom, TotalSpace, UsedBlocks, EvBuffer.Listed, EvBuffer.Contents, VecBytes, Fits, SpaceOf;
    buf.BlockAt(f + i);
    FitsMeans(v, chain);
    assert forall w: IoVec :: w in vecs[..i] ==> w.base as object != chain && w.base as object != buf;
    VecBytesMore(vecs, i);
    Assoc(c0, VecBytes(vecs[..i]), v.base[v.at..v.at + v.len]);
    ghost var after := VecBytes(vecs[..i + 1]);
    assert forall w: IoVec :: w in vecs[..i + 1] ==> w.base as object != chain && w.base as object != buf;
    CommitBlock(buf, owner, chain, v.len, f + i);
    forall j | i < j < |vecs|
      ensures Fits(vecs[j], buf.spine[f + j])
    {
      buf.BlocksDiffer(f + i, f + j);
      assert old(Fits(vecs[j], buf.spine[f + j]));
    }
    assert VecBytes(vecs[..i + 1]) == after;
  }

  lemma FitsMeans(v: IoVec, c: Chain)
    requires Fits(v, c) && c.Valid()
    ensures v.base == c.buffer && v.at == c.misalign + c.off && v.len <= SpaceOf(c) && v.at + v.len <= v.base.Length
  {}

  /** Commits the vectors to the blocks from index `f` on. */
  method CommitAll(buf: EvBuffer, owner0: Chain?, chain0: Chain?, vecs: seq<IoVec>, ghost f: nat)
    requires buf.Valid() && buf.lwd <= f <= |buf.spine| && owner0 == Nth(buf.spine, f - 1) && chain0 == Nth(buf.spine, f)
    requires AllFit(vecs, buf.spine, f)
    modifies buf.Repr
    ensures buf.Valid() && buf.Repr == old(buf.Repr) && buf.Contents() == old(buf.Contents()) + VecBytes(vecs)
    ensures buf.freezeStart == old(buf.freezeStart) && buf.freezeEnd == old(buf.freezeEnd)
  {
    hide Distinct, Linked, Holds, Marks, Flatten, Within, EmptyFrom, TotalSpace, UsedBlocks, EvBuffer.Listed, EvBuffer.Contents, VecBytes, Fits;
    var owner, chain, i := owner0, chain0, 0;
    ghost var c0 := buf.Contents();
    NoVecBytes(vecs);
    while i < |vecs|
      invariant i <= |vecs| && buf.Valid() && buf.spine == old(buf.spine) && f + |vecs| <= |buf.spine| && buf.lwd <= f + i
      invariant owner == Nth(buf.spine, f + i - 1) && chain == Nth(buf.spine, f + i)
      invariant forall j :: i <= j < |vecs| ==> Fits(vecs[j], buf.spine[f + j])
      invariant buf.Contents() == c0 + VecBytes(vecs[..i])
      invariant buf.Repr == old(buf.Repr) && buf.freezeStart == old(buf.freezeStart) && buf.freezeEnd == old(buf.freezeEnd)
    {
      buf.BlockAt(f + i);
      CommitOne(buf, owner, chain, vecs, vecs[i], f, i, c0);
      buf.BlockAt(f + i);
      owner, chain, i := chain, chain.next, i + 1;
    }
    assert vecs[..i] == vecs;
  }

  lemma NoVecBytes(vecs: seq<IoVec>)
    ensures VecBytes(vecs[..0]) == []
    ensures forall s: seq<Byte> :: s + [] == s
  {}

  /** Takes `n` bytes already written behind the last block's data into it. */
  method CommitLast(buf: EvBuffer, n: nat)
    requires buf.Valid() && buf.last != null && n <= SpaceOf(buf.last)
    modifies buf.Repr
    ensures buf.Valid() && buf.Repr == old(buf.Repr)
    ensures buf.last == old(buf.last) && buf.last.misalign == old(buf.last.misalign) && buf.last.misalign + old(buf.last.off) + n <= buf.last.buffer.Length
    ensures var at := buf.last.misalign + old(buf.last.off);
            buf.Contents() == old(buf.Contents()) + buf.last.buffer[at..at + n]
    ensures buf.freezeStart == old(buf.freezeStart) && buf.freezeEnd == old(buf.freezeEnd)
  {
    hide Distinct, Linked, Holds, Marks, Flatten, Within, EmptyFrom, TotalSpace, UsedBlocks;
    ghost var k := |buf.spine| - 1;
    var last := buf.last;
    buf.BlockAt(k);
    MarksUnfold(buf.lastWithDatap, buf.spine, buf.parts, buf.lwd);
    ghost var d := last.buffer[last.misalign + last.off..last.misalign + last.off + n];
    MarksMove(buf.lastWithDatap, buf.spine, buf.parts, buf.lwd, k, d);
    FlattenAppendAfter(buf.parts, buf.lwd, k, d);
    GrowAt(last, n, buf.spine, buf.parts, k);
    buf.parts := buf.parts[k := buf.parts[k] + d];
    buf.totalLen := buf.totalLen + n;
    if n != 0 {
      buf.AdvanceLastWithData();
    }
  }

  /** Whether the vectors match the blocks from index `f` on. */
  method CheckVecs(buf: EvBuffer, chain0: Chain?, vecs: seq<IoVec>, ghost f: nat) returns (ok: bool)
    requires buf.Valid() && f <= |buf.spine| && chain0 == Nth(buf.spine, f)
    ensures ok <==> AllFit(vecs, buf.spine, f)
  {
    hide Distinct, Linked, Holds, Marks, Flatten, Within, EmptyFrom, TotalSpace, UsedBlocks, EvBuffer.Listed;
    var chain, i := chain0, 0;
    while i < |vecs|
      invariant i <= |vecs| && f + i <= |buf.spine| && chain == Nth(buf.spine, f + i)
      invariant forall j :: 0 <= j < i ==> Fits(vecs[j], buf.spine[f + j])
    {
      if chain == null {
        return false;
      }
      buf.BlockAt(f + i);
      if vecs[i].base != chain.buffer || vecs[i].at != chain.misalign + chain.off || vecs[i].len > chain.SpaceLen() {
        return false;
      }
      chain := chain.next;
      i := i + 1;
    }
    ok := true;
  }

  /** The vectors match the blocks to write to, or the only one matches the last block. */
  ghost predicate Committable(buf: EvBuffer, vecs: seq<IoVec>)
    reads buf, buf.spine`misalign, buf.spine`off, if buf.last == null then {} else {buf.last}
  {
    || vecs == []
    || (buf.lwd < |buf.spine| && AllFit(vecs, buf.spine, WriteIndex(buf)))
    || (|vecs| == 1 && buf.last != null && Fits(vecs[0], buf.last))
  }

  /** Takes the bytes that have been written to the vectors into the buffer: all of them, or, if a vector
      does not match its block, none. */
  method CommitSpace(buf: EvBuffer, vecs: seq<IoVec>) returns (ok: bool)
    requires buf.Valid()
    modifies buf.Repr
    ensures buf.Valid() && buf.Repr == old(buf.Repr)
    ensures ok <==> !old(buf.freezeEnd) && old(Committable(buf, vecs))
    ensures buf.Contents() == if ok then old(buf.Contents()) + VecBytes(vecs) else old(buf.Contents())
    ensures buf.freezeStart == old(buf.freezeStart) && buf.freezeEnd == old(buf.freezeEnd)
  {
    hide Distinct, Linked, Holds, Marks, Flatten, Within, EmptyFrom, TotalSpace, UsedBlocks, EvBuffer.Listed, EvBuffer.Contents;
    NoVecBytes(vecs);
    if buf.freezeEnd {
      return false;
    }
    if |vecs| == 0 {
      return true;
    }
    if |vecs| == 1 && buf.last != null {
      LastBlock(buf, vecs);
      if vecs[0].base == buf.last.buffer && vecs[0].at == buf.last.misalign + buf.last.off {
        if vecs[0].len > buf.last.SpaceLen() {
          return false;
        }
        CommitLast(buf, vecs[0].len);
        VecBytesMore(vecs, 0);
        assert vecs[..1] == vecs;
        return true;
      }
    }
    ok := CommitVecs(buf, vecs);
  }

  /** Checks the vectors against the blocks to write to before committing any. */
  method CommitVecs(buf: EvBuffer, vecs: seq<IoVec>) returns (ok: bool)
    requires buf.Valid()
    modifies buf.Repr
    ensures buf.Valid() && buf.Repr == old(buf.Repr)
    ensures ok <==> old(buf.lwd < |buf.spine| && AllFit(vecs, buf.spine, WriteIndex(buf)))
    ensures buf.Contents() == if ok then old(buf.Contents()) + VecBytes(vecs) else old(buf.Contents())
    ensures buf.freezeStart == old(buf.freezeStart) && buf.freezeEnd == old(buf.freezeEnd)
  {
    hide Distinct, Linked, Holds, Marks, Flatten, Within, EmptyFrom, TotalSpace, UsedBlocks, EvBuffer.Listed, EvBuffer.Contents, AllFit;
    MarksUnfold(buf.lastWithDatap, buf.spine, buf.parts, buf.lwd);
    buf.DerefAt(buf.lastWithDatap, buf.lwd);
    if buf.Deref(buf.lastWithDatap) == null {
      return false;
    }
    var owner, chain := FirstWithSpace(buf);
    ghost var f := WriteIndex(buf);
    ok := CheckVecs(buf, chain, vecs, f);
    if ok {
      CommitAll(buf, owner, chain, vecs, f);
    }
  }

  lemma LastBlock(buf: EvBuffer, vecs: seq<IoVec>)
    requires buf.Valid() && buf.last != null && |vecs| == 1
    ensures buf.last.Valid() && buf.lwd < |buf.spine| && buf.last == buf.spine[|buf.spine| - 1]
    ensures vecs[0].base == buf.last.buffer && AllFit(vecs, buf.spine, WriteIndex(buf)) ==> Fits(vecs[0], buf.last)
  {
    MarksUnfold(buf.lastWithDatap, buf.spine, buf.parts, buf.lwd);
    buf.BlockAt(|buf.spine| - 1);
  }

  /** What a reservation comes to.  It is aborted when an assertion in the code fails. */
  datatype Reservation = Refused | Aborted | Vectors(vecs: seq<IoVec>)

  /** The value of a signed size once it has been cast to size_t. */
  function AsSize(size: int): (n: nat)
    requires -SSIZE_MAX - 1 <= size <= SSIZE_MAX
    ensures size >= 0 ==> n == size
    ensures size < 0 ==> n > SSIZE_MAX
  {
    if size < 0 then size + SIZE_MAX + 1 else size
  }

  /** A vector over all the room of a block can be committed exactly if that block is the one to write to first, or the
      last one. */
  lemma CommittableWhen(buf: EvBuffer, v: IoVec, k: nat)
    requires buf.Valid() && buf.lwd <= k < |buf.spine| && Fits(v, buf.spine[k])
    ensures Committable(buf, [v]) <==> FirstOrLast(buf, k)
  {
    hide Holds, Marks, Flatten, Within, EmptyFrom, Linked, EvBuffer.Contents;
    var s, f := buf.spine, WriteIndex(buf);
    assert buf.last == s[|s| - 1];
    if AllFit([v], s, f) {
      assert Fits([v][0], s[f + 0]);
    }
  }

  /** Vectors over the blocks from the one to write to first can be committed. */
  lemma CommittableAll(buf: EvBuffer, vecs: seq<IoVec>)
    requires buf.Valid() && buf.lwd < |buf.spine| && AllFit(vecs, buf.spine, WriteIndex(buf))
    ensures Committable(buf, vecs)
  {}

  /** Reserves room for `size` bytes in at most `nVecs` stretches of memory.  With one stretch it lies in block `k`. */
  method ReserveSpace(buf: EvBuffer, size: int, nVecs: int) returns (r: Reservation, ghost k: nat)
    requires buf.Valid() && -SSIZE_MAX - 1 <= size <= SSIZE_MAX
    modifies buf.Repr
    ensures buf.Valid() && fresh(buf.Repr - old(buf.Repr)) && buf.Contents() == old(buf.Contents())
    ensures buf.freezeStart == old(buf.freezeStart) && buf.freezeEnd == old(buf.freezeEnd)
    ensures old(buf.freezeEnd) || nVecs < 1 ==> r.Refused?
    ensures r.Refused? ==> old(buf.freezeEnd) || nVecs < 1 || size < 0 || size > MAX_REQUEST - MAX_TO_COPY_IN_EXPAND
    ensures r.Aborted? <==> !old(buf.freezeEnd) && nVecs >= 2 && size == 0 && old(EndsFull(buf))
    ensures r.Vectors? ==> |r.vecs| <= nVecs && Lengths(r.vecs) >= size
    ensures r.Vectors? && nVecs >= 2 ==> buf.lwd < |buf.spine| && AllFit(r.vecs, buf.spine, WriteIndex(buf))
    ensures r.Vectors? && nVecs == 1 ==>
              && |r.vecs| == 1 && buf.lwd <= k < |buf.spine| && Fits(r.vecs[0], buf.spine[k]) && r.vecs[0].len == SpaceOf(buf.spine[k])
              && (Committable(buf, r.vecs) <==> FirstOrLast(buf, k))
    // what has been reserved can be committed, unless a block was skipped that had too little room
    ensures r.Vectors? ==> (Committable(buf, r.vecs) <==> !(nVecs == 1 && old(Skips(buf, AsSize(size)))))
  {
    hide Distinct, Linked, Holds, Marks, Flatten, Within, EmptyFrom, TotalSpace, UsedBlocks, EvBuffer.Listed, EvBuffer.Contents, AllFit, Offers, EndsFull, Skips, Committable, FirstOrLast;
    k := 0;
    if buf.freezeEnd || nVecs < 1 {
      return Refused, 0;
    }
    if nVecs == 1 {
      var chain;
      chain, k := ExpandSinglechain(buf, AsSize(size));
      if chain == null {
        return Refused, 0;
      }
      var v := IoVec(chain.buffer, chain.misalign + chain.off, chain.SpaceLen());
      LengthsMore([], v);
      assert [] + [v] == [v] && Fits(v, buf.spine[k]);
      CommittableWhen(buf, v, k);
      return Vectors([v]), k;
    }
    var ok;
    ghost var m;
    ok, m := ExpandFast(buf, AsSize(size), nVecs);
    if !ok || size < 0 {
      return Refused, 0;
    }
    OffersSome(buf, m, size);
    var owner, chain := FirstWithSpace(buf);
    if chain == null {
      return Aborted, 0;
    }
    var vecs := ReadSetupVecs(buf, size, nVecs, false, m);
    CommittableAll(buf, vecs);
    r := Vectors(vecs);
  }

  lemma OffersSome(buf: EvBuffer, m: nat, size: nat)
    requires Offers(buf, m, size)
    ensures buf.lwd < |buf.spine| && (size > 0 ==> WriteIndex(buf) < |buf.spine|)
  {}

  /** A block of the smallest size, filled. */
  method FullBlock() returns (chain: Chain)
    ensures fresh(chain) && fresh(chain.buffer) && chain.Valid() && !chain.immutable && chain.next == null
    ensures chain.off == chain.buffer.Length > 0 && |chain.Data()| == chain.off
  {
    chain := new Chain(MIN_BUFFER_SIZE - CHAIN_SIZE);
    chain.AppendData(seq(MIN_BUFFER_SIZE - CHAIN_SIZE, _ => 0));
  }

  /** Asking for no room in two vectors aborts when the only block is full. */
  method ReserveNothing() returns (r: Reservation)
    ensures r.Aborted?
  {
    hide Distinct, Linked, Holds, Marks, Flatten, Within, EmptyFrom, TotalSpace, UsedBlocks, EvBuffer.Listed, EvBuffer.Contents, Chain.Data, EndsFull;
    var buf := new EvBuffer();
    var chain := FullBlock();
    buf.InsertFirst(chain);
    LastIsFull(buf, chain);
    ghost var k;
    r, k := ReserveSpace(buf, 0, 2);
  }

  /** A block with little room left and two empty ones, as reservations that are never committed leave behind. */
  method Leftover() returns (buf: EvBuffer)
    ensures fresh(buf.Repr) && buf.Valid() && !buf.freezeEnd && Skips(buf, 100)
  {
    hide EvBuffer.Valid, Skips, Chain.Data, TotalSpace;
    ghost var a, b, c;
    buf, a := NearlyFull();
    b := HangEmpty(buf);
    c := HangEmpty(buf);
    SkipsFirst(buf, a, b, c);
  }

  /** A buffer of one block, of which 900 bytes are used. */
  method NearlyFull() returns (buf: EvBuffer, ghost chain: Chain)
    ensures fresh(buf.Repr) && buf.Valid() && !buf.freezeEnd && buf.lwd == 0 && buf.spine == [chain]
    ensures chain.misalign == 0 && chain.off == 900 && !chain.immutable && chain.buffer.Length == MIN_BUFFER_SIZE - CHAIN_SIZE
  {
    hide Distinct, Linked, Holds, Marks, Flatten, Within, EmptyFrom, EvBuffer.Listed, EvBuffer.Contents, Chain.Data;
    buf := new EvBuffer();
    var block := new Chain(MIN_BUFFER_SIZE - CHAIN_SIZE);
    block.AppendData(seq(900, _ => 0));
    buf.InsertFirst(block);
    buf.BlockAt(0);
    MarkAtOnly(buf);
    chain := block;
  }

  /** Hangs an empty block of the smallest size behind the last one. */
  method HangEmpty(buf: EvBuffer) returns (ghost chain: Chain)
    requires buf.Valid() && buf.spine != []
    modifies buf.Repr
    ensures buf.Valid() && fresh(buf.Repr - old(buf.Repr)) && buf.spine == old(buf.spine) + [chain] && buf.lwd == old(buf.lwd)
    ensures chain.misalign == chain.off == 0 && !chain.immutable && chain.buffer.Length == MIN_BUFFER_SIZE - CHAIN_SIZE
    ensures forall c | c in old(buf.spine) :: c.misalign == old(c.misalign) && c.off == old(c.off)
    ensures buf.freezeEnd == old(buf.freezeEnd)
  {
    hide Distinct, Linked, Holds, Marks, Flatten, Within, EmptyFrom, EvBuffer.Listed, EvBuffer.Contents, Chain.Data, TotalSpace;
    var empty := new Chain(MIN_BUFFER_SIZE - CHAIN_SIZE);
    AppendRoom(buf, empty);
    assert buf.spine[|buf.spine| - 1] == empty;
    buf.BlockAt(|buf.spine| - 1);
    chain := empty;
  }

  /** What has been reserved there in one vector is not taken. */
  method ReserveInVain() returns (ok: bool)
    ensures !ok
  {
    hide Distinct, Linked, Holds, Marks, Flatten, Within, EmptyFrom, EvBuffer.Listed, EvBuffer.Contents, Skips, Committable;
    var buf := Leftover();
    var r;
    ghost var k;
    r, k := ReserveSpace(buf, 100, 1);
    ok := CommitSpace(buf, r.vecs);
  }

  lemma MarkAtOnly(buf: EvBuffer)
    requires buf.Valid() && |buf.spine| == |buf.parts| == 1
    ensures buf.lwd == 0
  {}

  lemma SkipsFirst(buf: EvBuffer, a: Chain, b: Chain, c: Chain)
    requires buf.lwd == 0 && buf.spine == [a, b, c] && a.Valid()
    requires a.misalign == b.misalign == 0 && a.off == 900 && b.off == 0 && !a.immutable && !b.immutable
    requires a.buffer.Length == b.buffer.Length == MIN_BUFFER_SIZE - CHAIN_SIZE
    ensures Skips(buf, 100)
  {}

  lemma LastIsFull(buf: EvBuffer, chain: Chain)
    requires buf.Valid() && buf.spine == [chain] && |buf.parts| == 1 && !chain.immutable
    requires |buf.parts[0]| == chain.buffer.Length
    ensures EndsFull(buf)
  {
    buf.BlockAt(0);
  }
}
