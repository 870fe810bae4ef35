/** Singly linked lists of blocks, described by the sequence of their nodes. */
module ChainList {
  import opened ByteSeq
  import opened ChainModule

  /** The block at index `i`, or null past either end. */
  ghost function Nth(s: seq<Chain>, i: int): Chain? {
    if 0 <= i < |s| then s[i] else null
  }

  /** No block, and no block's memory, occurs twice. */
  ghost predicate Distinct(s: seq<Chain>) {
    forall i, j :: 0 <= i < j < |s| ==> s[i] != s[j] && s[i].buffer != s[j].buffer
  }

  /** The `next` fields spell out the sequence. */
  ghost predicate Linked(s: seq<Chain>)
    reads s`next
  {
    forall i {:trigger s[i].next} :: 0 <= i < |s| ==> s[i].next == Nth(s, i + 1)
  }

  /** Block `i` holds the bytes `p[i]`. */
  ghost predicate Holds(s: seq<Chain>, p: seq<seq<Byte>>)
    reads s`misalign, s`off, set c | c in s :: c.buffer
  {
    && |s| == |p|
    && forall i :: 0 <= i < |s| ==> s[i].Valid() && s[i].Data() == p[i]
  }

  /** Every block and its memory belongs to `repr`. */
  ghost predicate Within(s: seq<Chain>, repr: set<object>) {
    forall i :: 0 <= i < |s| ==> s[i] in repr && s[i].buffer in repr
  }

  lemma LinkAt(s: seq<Chain>, i: nat)
    requires Linked(s) && i < |s|
    ensures s[i].next == Nth(s, i + 1)
  {}

  lemma HoldsAt(s: seq<Chain>, p: seq<seq<Byte>>, i: nat)
    requires Holds(s, p) && i < |s|
    ensures |s| == |p| && s[i].Valid() && s[i].Data() == p[i] && s[i].off == |p[i]|
  {}

  lemma WithinAt(s: seq<Chain>, repr: set<object>, i: nat)
    requires Within(s, repr) && i < |s|
    ensures s[i] in repr && s[i].buffer in repr
  {}

  lemma WithinMore(s: seq<Chain>, r: set<object>, r': set<object>)
    requires Within(s, r) && r <= r'
    ensures Within(s, r')
  {}

  /** The blocks and their memory. */
  ghost function Footprint(s: seq<Chain>): set<object> {
    (set c: Chain | c in s :: c as object) + (set c: Chain | c in s :: c.buffer as object)
  }

  /** Taking the first `j` blocks out of a footprint leaves the rest in it. */
  lemma FootprintSplit(s: seq<Chain>, j: nat, repr: set<object>)
    requires Distinct(s) && Within(s, repr) && j <= |s|
    ensures Within(s[..j], Footprint(s[..j])) && Footprint(s[..j]) <= repr
    ensures Within(s[j..], repr - Footprint(s[..j]))
  {}

  lemma Apart(s: seq<Chain>, r: set<object>, repr: set<object>)
    requires Within(s, r) && r !! repr
    ensures forall c | c in s :: c !in repr && c.buffer !in repr
  {}

  lemma Outside(s: seq<Chain>, repr: set<object>, c: Chain)
    requires Within(s, repr) && c !in repr
    ensures c !in s
  {}

  lemma NotBefore(s: seq<Chain>, a: nat, k: nat)
    requires Distinct(s) && a <= k < |s|
    ensures s[k] !in s[a..k]
  {}

  lemma DistinctPart(s: seq<Chain>, k: nat)
    requires Distinct(s) && k <= |s|
    ensures Distinct(s[..k]) && Distinct(s[k..])
  {}

  lemma WithinPart(s: seq<Chain>, repr: set<object>, k: nat)
    requires Within(s, repr) && k <= |s|
    ensures Within(s[..k], repr) && Within(s[k..], repr)
  {}

  lemma HoldsPart(s: seq<Chain>, p: seq<seq<Byte>>, k: nat)
    requires Holds(s, p) && k <= |s|
    ensures |s| == |p| && Holds(s[..k], p[..k]) && Holds(s[k..], p[k..])
  {}

  lemma HoldsConcat(a: seq<Chain>, pa: seq<seq<Byte>>, b: seq<Chain>, pb: seq<seq<Byte>>)
    requires Holds(a, pa) && Holds(b, pb)
    ensures Holds(a + b, pa + pb)
  {}

  /** Blocks from two separate worlds are distinct. */
  lemma DistinctConcat(a: seq<Chain>, ra: set<object>, b: seq<Chain>, rb: set<object>)
    requires Distinct(a) && Distinct(b) && Within(a, ra) && Within(b, rb) && ra !! rb
    ensures Distinct(a + b) && Within(a + b, ra + rb)
  {
    forall i, j | 0 <= i < j < |a + b|
      ensures (a + b)[i] != (a + b)[j] && (a + b)[i].buffer != (a + b)[j].buffer
    {
      if i < |a| <= j {
        assert (a + b)[j] == b[j - |a|];
      }
    }
  }

  /** Clears the link out of `c`, the `k`-th block, splitting the list in two. */
  method SplitAfter(c: Chain, ghost s: seq<Chain>, ghost k: nat)
    requires Linked(s) && Distinct(s) && 0 < k <= |s| && c == s[k - 1]
    modifies c`next
    ensures Linked(s[..k]) && Linked(s[k..])
  {
    c.next := null;
  }

  /** Points the last block of `a` at the head of `b`. */
  method LinkAfter(c: Chain, ghost a: seq<Chain>, head: Chain?, ghost b: seq<Chain>)
    requires Linked(a) && Linked(b) && Distinct(a + b) && a != [] && c == a[|a| - 1] && head == Nth(b, 0)
    modifies c`next
    ensures Linked(a + b)
  {
    c.next := head;
    ghost var s := a + b;
    forall i | 0 <= i < |s|
      ensures s[i].next == Nth(s, i + 1)
    {
      assert s[|a| - 1] == c;
      if i < |a| {
        assert s[i] == a[i] && (i < |a| - 1 ==> old(a[i].next) == a[i + 1]);
      } else {
        assert s[i] == b[i - |a|] && old(b[i - |a|].next) == Nth(b, i - |a| + 1);
      }
    }
  }

  /** Links `tmp` in, in the place of block `k`. */
  method Relink(owner: Chain?, tmp: Chain, ghost s: seq<Chain>, ghost k: nat, next: Chain?)
    requires Linked(s) && Distinct(s) && k < |s| && owner == Nth(s, k - 1) && next == Nth(s, k + 1) && tmp !in s
    modifies tmp`next, (if owner == null then {} else {owner})`next
    ensures Linked(s[k := tmp])
  {
    if owner != null {
      owner.next := tmp;
    }
    tmp.next := next;
    ghost var t := s[k := tmp];
    forall i | 0 <= i < |t|
      ensures t[i].next == Nth(t, i + 1)
    {
      assert i != k ==> old(s[i].next) == Nth(s, i + 1);
    }
  }

  /** Puts a fresh block in front of a list. */
  method LinkFront(tmp: Chain, ghost s: seq<Chain>, ghost p: seq<seq<Byte>>, head: Chain?, ghost repr: set<object>)
    requires Linked(s) && Distinct(s) && Holds(s, p) && Within(s, repr) && head == Nth(s, 0)
    requires tmp.Valid() && tmp !in repr && tmp.buffer !in repr
    modifies tmp`next
    ensures Linked([tmp] + s) && Distinct([tmp] + s) && Within([tmp] + s, {tmp, tmp.buffer} + repr)
    ensures Holds([tmp] + s, [tmp.Data()] + p) && tmp.Data() == old(tmp.Data())
  {
    hide Distinct, Linked, Holds, Within, Marks;
    Outside(s, repr, tmp);
    tmp.next := null;
    SingleBlock(tmp);
    DistinctConcat([tmp], {tmp, tmp.buffer}, s, repr);
    HoldsConcat([tmp], [tmp.Data()], s, p);
    LinkAfter(tmp, [tmp], head, s);
  }

  lemma LinkedDrop(s: seq<Chain>, k: nat)
    requires Linked(s) && k <= |s|
    ensures Linked(s[k..])
  {}

  /** `owner` holds the link to the last block with data: block `lwd`, or the first block if none has data.
      Empty blocks may sit before it. */
  ghost predicate Marks(owner: Chain?, s: seq<Chain>, p: seq<seq<Byte>>, lwd: nat) {
    && |s| == |p|
    && (if s == [] then lwd == 0 else lwd < |s|)
    && owner == Nth(s, lwd - 1)
    && (lwd > 0 ==> p[lwd] != [])
    && EmptyFrom(p, lwd + 1)
  }

  lemma SingleBlock(c: Chain)
    requires c.Valid() && c.next == null
    ensures Linked([c]) && Distinct([c]) && Holds([c], [c.Data()]) && Within([c], {c, c.buffer})
    ensures Marks(null, [c], [c.Data()], 0)
  {}

  lemma MarksUnfold(owner: Chain?, s: seq<Chain>, p: seq<seq<Byte>>, lwd: nat)
    requires Marks(owner, s, p, lwd)
    ensures |s| == |p| && (if s == [] then lwd == 0 else lwd < |s|) && owner == Nth(s, lwd - 1)
    ensures (lwd > 0 ==> p[lwd] != []) && EmptyFrom(p, lwd + 1)
  {}

  /** How many blocks there are up to the last one with data. */
  ghost function UsedBlocks(p: seq<seq<Byte>>, lwd: nat): (n: nat)
    ensures n <= |p|
  {
    if lwd >= |p| || p[lwd] == [] then 0 else lwd + 1
  }

  lemma UsedIsFull(owner: Chain?, s: seq<Chain>, p: seq<seq<Byte>>, lwd: nat)
    requires Marks(owner, s, p, lwd)
    ensures |s| == |p| && UsedBlocks(p, lwd) <= |s|
    ensures UsedBlocks(p, lwd) > 0 <==> lwd < |s| && p[lwd] != []
    ensures UsedBlocks(p, lwd) > 0 ==> UsedBlocks(p, lwd) == lwd + 1
    ensures UsedBlocks(p[..UsedBlocks(p, lwd)], lwd) == UsedBlocks(p, lwd)
  {}

  lemma MarksTruncate(owner: Chain?, s: seq<Chain>, p: seq<seq<Byte>>, lwd: nat, k: nat)
    requires Marks(owner, s, p, lwd) && UsedBlocks(p, lwd) <= k <= |s|
    ensures |s| == |p| && EmptyFrom(p, k) && Marks(owner, s[..k], p[..k], lwd)
  {}

  /** Empty blocks at the end leave the mark where it is. */
  lemma MarksEmptyTail(owner: Chain?, s: seq<Chain>, p: seq<seq<Byte>>, lwd: nat, c: Chain)
    requires Marks(owner, s, p, lwd) && s != []
    ensures Marks(owner, s + [c], p + [[]], lwd)
  {}

  /** Putting a second list behind one that ends in its last block with data. */
  lemma MarksAppend(owner: Chain?, s: seq<Chain>, p: seq<seq<Byte>>, lwd: nat, end: Chain?,
                    owner2: Chain?, s2: seq<Chain>, p2: seq<seq<Byte>>, lwd2: nat)
    requires Marks(owner, s, p, lwd) && UsedBlocks(p, lwd) == |s| && end == Nth(s, |s| - 1)
    requires Marks(owner2, s2, p2, lwd2) && s2 != []
    ensures p2[lwd2] != [] || s == [] ==>
              Marks(if owner2 == null then end else owner2, s + s2, p + p2, |s| + lwd2)
    ensures p2[lwd2] == [] ==> Marks(owner, s + s2, p + p2, lwd)
  {}

  /** Data in a block at or after the mark moves the mark there. */
  lemma MarksMove(owner: Chain?, s: seq<Chain>, p: seq<seq<Byte>>, lwd: nat, k: nat, d: seq<Byte>)
    requires Marks(owner, s, p, lwd) && lwd <= k < |s|
    ensures |s| == |p|
    ensures d != [] ==> Marks(Nth(s, k - 1), s, p[k := p[k] + d], k)
    ensures d == [] ==> p[k := p[k] + d] == p
  {
    assert p[k] + [] == p[k];
  }

  /** Rewriting a piece up to `lwd` without emptying it leaves the mark where it is. */
  lemma MarksGrow(owner: Chain?, s: seq<Chain>, p: seq<seq<Byte>>, lwd: nat, i: nat, d: seq<Byte>)
    requires Marks(owner, s, p, lwd) && i < |p| && i <= lwd
    requires i == lwd && lwd > 0 ==> d != []
    ensures Marks(owner, s, p[i := d], lwd)
  {}

  /** The mark, seen from a list that starts one block later. */
  lemma MarksTail(owner: Chain?, s: seq<Chain>, p: seq<seq<Byte>>, lwd: nat, j0: nat)
    requires Marks(owner, s, p, lwd) && j0 <= lwd < |s| && lwd > 0 && Distinct(s) && j0 <= 1
    ensures |s| == |p| && p[j0..][lwd - j0] != [] && EmptyFrom(p[j0..], lwd - j0 + 1)
    ensures if lwd == j0 then owner !in s[j0..] else owner == s[j0..][lwd - j0 - 1]
  {
    if lwd == j0 {
      forall i | 0 <= i < |s[j0..]|
        ensures s[j0..][i] != owner
      {
        assert s[j0..][i] == s[j0 + i] && owner == s[0];
      }
    }
  }

  /** Putting blocks in front of a list with data moves the mark along. */
  lemma MarksUnder(s2: seq<Chain>, p2: seq<seq<Byte>>, owner: Chain?, s: seq<Chain>, p: seq<seq<Byte>>, lwd: nat)
    requires Marks(owner, s, p, lwd) && lwd < |p| && p[lwd] != [] && |s2| == |p2| > 0
    ensures Marks(if owner == null then s2[|s2| - 1] else owner, s2 + s, p2 + p, |s2| + lwd)
  {}

  /** A new first block with data moves the mark one block on. */
  lemma MarksPush(owner: Chain?, s: seq<Chain>, p: seq<seq<Byte>>, lwd: nat, c: Chain, d: seq<Byte>)
    requires Marks(owner, s, p, lwd) && d != []
    ensures s != [] && (lwd > 0 || p[0] != []) ==>
              Marks(if lwd == 0 then c else owner, [c] + s, [d] + p, lwd + 1)
    ensures lwd == 0 && (s != [] ==> p[0] == []) ==> Marks(null, [c] + s, [d] + p, 0)
  {}

  /** Dropping blocks before the last one with data. */
  lemma MarksDrop(owner: Chain?, s: seq<Chain>, p: seq<seq<Byte>>, lwd: nat, k: nat)
    requires Marks(owner, s, p, lwd) && k <= lwd < |s|
    ensures Marks(if k == lwd then null else owner, s[k..], p[k..], lwd - k)
  {}

  /** Appends to one block in place, changing one piece. */
  method AppendAt(c: Chain, data: seq<Byte>, ghost s: seq<Chain>, ghost p: seq<seq<Byte>>, ghost i: nat)
    requires Holds(s, p) && Distinct(s) && i < |s| && c == s[i]
    requires c.Valid() && !c.immutable && |data| <= c.SpaceLen()
    modifies c`off, c.buffer
    ensures Holds(s, p[i := p[i] + data])
    ensures c.Valid() && c.off == old(c.off) + |data|
  {
    c.AppendData(data);
    OthersUntouched(s, c, i);
  }

  /** Grows one block downwards, changing one piece. */
  method PrependAt(c: Chain, data: seq<Byte>, ghost s: seq<Chain>, ghost p: seq<seq<Byte>>, ghost i: nat)
    requires Holds(s, p) && Distinct(s) && i < |s| && c == s[i]
    requires c.Valid() && !c.immutable && |data| <= c.misalign
    modifies c`off, c`misalign, c.buffer
    ensures Holds(s, p[i := data + p[i]])
    ensures c.Valid() && c.off == old(c.off) + |data| && c.misalign == old(c.misalign) - |data|
  {
    c.PrependData(data);
    OthersUntouched(s, c, i);
  }

  /** Counts all the room of an empty block as slack in front. */
  method SlideAt(c: Chain, ghost s: seq<Chain>, ghost p: seq<seq<Byte>>, ghost i: nat)
    requires Holds(s, p) && Distinct(s) && i < |s| && c == s[i]
    requires c.Valid() && !c.immutable && c.off == 0
    modifies c`misalign
    ensures Holds(s, p) && c.Valid() && c.misalign == c.buffer.Length
  {
    c.misalign := c.buffer.Length;
    OthersUntouched(s, c, i);
  }

  lemma MarksReplace(owner: Chain?, s: seq<Chain>, p: seq<seq<Byte>>, lwd: nat, tmp: Chain)
    requires Marks(owner, s, p, lwd) && lwd < |s|
    ensures Marks(owner, s[lwd := tmp], p, lwd)
  {}

  lemma ReplacedParts(s: seq<Chain>, p: seq<seq<Byte>>, k: nat, tmp: Chain, r: set<object>)
    requires Distinct(s) && Within(s, r) && Holds(s, p) && k < |s| == |p|
    requires tmp.Valid() && tmp.Data() == p[k] && tmp !in r && tmp.buffer !in r
    ensures Distinct(s[k := tmp]) && Within(s[k := tmp], {tmp, tmp.buffer} + r) && Holds(s[k := tmp], p)
    ensures s[k := tmp] == s[..k] + ([tmp] + s[k + 1..])
  {}

  /** Takes bytes already written behind the window into it. */
  method GrowAt(c: Chain, n: nat, ghost s: seq<Chain>, ghost p: seq<seq<Byte>>, ghost i: nat)
    requires Holds(s, p) && Distinct(s) && i < |s| && c == s[i] && c.Valid() && n <= c.SpaceLen()
    modifies c`off
    ensures c.Valid() && c.off == old(c.off) + n
    ensures Holds(s, p[i := p[i] + c.buffer[c.misalign + old(c.off)..c.misalign + c.off]])
  {
    c.off := c.off + n;
    OthersUntouched(s, c, i);
    assert c.buffer[c.misalign..c.misalign + c.off] == old(c.Data()) + c.buffer[c.misalign + old(c.off)..c.misalign + c.off];
  }

  /** Forgets the slack in front of an empty block. */
  method ResetAt(c: Chain, ghost s: seq<Chain>, ghost p: seq<seq<Byte>>, ghost i: nat)
    requires Holds(s, p) && Distinct(s) && i < |s| && c == s[i] && c.off == 0
    modifies c`misalign
    ensures Holds(s, p) && c.misalign == 0
  {
    c.misalign := 0;
    OthersUntouched(s, c, i);
  }

  /** Moves one block's bytes to the front of its allocation, changing nothing seen from outside. */
  method AlignAt(c: Chain, ghost s: seq<Chain>, ghost p: seq<seq<Byte>>, ghost i: nat)
    requires Holds(s, p) && Distinct(s) && i < |s| && c == s[i]
    requires c.Valid() && !c.immutable
    modifies c`misalign, c.buffer
    ensures Holds(s, p) && c.Valid() && c.misalign == 0
  {
    c.Align();
    OthersUntouched(s, c, i);
  }

  /** Forgets bytes at the front of one block. */
  method DropAt(c: Chain, n: nat, ghost s: seq<Chain>, ghost p: seq<seq<Byte>>, ghost i: nat)
    requires Holds(s, p) && Distinct(s) && i < |s| && c == s[i]
    requires c.Valid() && n <= c.off && (n == c.off ==> n == 0 || !c.immutable)
    modifies c`misalign, c`off
    ensures |p[i]| == old(c.off) && Holds(s, p[i := p[i][n..]])
    ensures c.Valid() && c.off == old(c.off) - n && c.misalign == old(c.misalign) + n
  {
    c.misalign, c.off := c.misalign + n, c.off - n;
    OthersUntouched(s, c, i);
  }

  lemma OthersUntouched(s: seq<Chain>, c: Chain, i: nat)
    requires Distinct(s) && i < |s| && c == s[i]
    ensures forall j :: 0 <= j < |s| && j != i ==> s[j] != c && s[j].buffer != c.buffer
  {}
}
