/** Positions in a buffer, and searching for strings and line ends across block borders. */
module EvBufferSearch {
  import opened ByteSeq
  import opened ChainModule
  import opened ChainList
  import opened EvBufferModule
  import opened Options

  const CR: Byte := 13
  const LF: Byte := 10
  const CHUNK_SZ := 128

  /** The piece that byte `n` lies in, and its place there; for an `n` past the end, the number of
      pieces, and how far past the end it is. */
  function Locate(ps: seq<seq<Byte>>, n: nat): (r: (nat, nat))
    ensures r.0 <= |ps|
  {
    if ps == [] then (0, n)
    else if n < |ps[0]| then (0, n)
    else var (k, j) := Locate(ps[1..], n - |ps[0]|); (k + 1, j)
  }

  /** Locating a byte finds that byte, or how far it is past the end. */
  lemma {:induction false} LocateMeaning(ps: seq<seq<Byte>>, n: nat)
    ensures var (k, j) := Locate(ps, n);
            if n < |Flatten(ps)| then
              k < |ps| && j < |ps[k]| && n == |Flatten(ps[..k])| + j && Flatten(ps)[n] == ps[k][j]
            else
              k == |ps| && j == n - |Flatten(ps)|
  {
    if ps != [] && n >= |ps[0]| {
      LocateMeaning(ps[1..], n - |ps[0]|);
      var (k, j) := Locate(ps[1..], n - |ps[0]|);
      assert ps[..k + 1][1..] == ps[1..][..k];
    } else if ps != [] {
      FlattenNil();
      assert ps[..0] == [];
    }
  }

  /** Pieces that lie wholly before a byte can be skipped. */
  lemma {:induction false} LocateSkip(ps: seq<seq<Byte>>, k: nat, m: nat)
    requires k <= |ps|
    ensures var (i, j) := Locate(ps[k..], m); Locate(ps, |Flatten(ps[..k])| + m) == (k + i, j)
  {
    if k > 0 {
      LocateSkip(ps[1..], k - 1, m);
      assert ps[1..][k - 1..] == ps[k..] && ps[..k][1..] == ps[1..][..k - 1];
    }
  }

  /** The value of a size once it has been cast to ssize_t. */
  function AsSsize(n: nat): (r: int)
    ensures n <= SSIZE_MAX ==> r == n
  {
    if n <= SSIZE_MAX then n else n - SIZE_MAX - 1
  }

  /** The position `n` bytes into the buffer. */
  ghost function PtrTo(buf: EvBuffer, n: nat): Ptr
    reads buf
  {
    var (k, j) := Locate(buf.parts, n);
    if k < |buf.parts| then Ptr(AsSsize(n), Nth(buf.spine, k), j)
    else if j == 0 then Ptr(AsSsize(n), null, 0)
    else NOT_FOUND
  }

  lemma PtrToDenotes(buf: EvBuffer, n: nat)
    requires buf.Valid() && n <= buf.totalLen <= SSIZE_MAX
    ensures buf.Denotes(PtrTo(buf, n)) && PtrTo(buf, n).pos == n
    ensures n < buf.totalLen <==> PtrTo(buf, n).chain != null
  {
    LocateMeaning(buf.parts, n);
    var (k, j) := Locate(buf.parts, n);
    assert buf.parts[..|buf.parts|] == buf.parts;
    assert buf.At(PtrTo(buf, n), k);
  }

  datatype PtrHow = Set | Add

  /** Moves a position to an absolute place, or forward. */
  method PtrSet(buf: EvBuffer, pos: Ptr, position: nat, how: PtrHow) returns (result: int, moved: Ptr)
    requires buf.Valid() && position <= SIZE_MAX
    requires how.Add? ==> buf.Denotes(pos) || pos.pos < 0
    ensures how.Set? ==> moved == PtrTo(buf, position) && result == if position <= buf.totalLen then 0 else -1
    ensures how.Add? && (pos.pos < 0 || SIZE_MAX - position < pos.pos) ==> result == -1 && moved == pos
    ensures how.Add? && 0 <= pos.pos <= SIZE_MAX - position ==>
              moved == PtrTo(buf, pos.pos + position) && result == if pos.pos + position <= buf.totalLen then 0 else -1
  {
    hide EvBuffer.Listed, Distinct, Linked, Holds, Within, Flatten, Marks, EmptyFrom, UsedBlocks, EvBuffer.At;
    ghost var k: nat := 0;
    var chain: Chain?, at: nat, target: nat := buf.first, 0, position;
    buf.StartAt();
    if how == Add {
      if pos.pos < 0 || SIZE_MAX - position < pos.pos {
        return -1, pos;
      }
      k :| buf.At(pos, k);
      chain, at, target := pos.chain, pos.posInChain, pos.pos + position;
    }
    assert SIZE_MAX - position >= at by {
      Starts(buf, Ptr(target - position, chain, at), k, position);
    }
    result, moved := Walk(buf, Ptr(target - position, chain, at), position, k);
  }

  /** Moves on from a position by `position` bytes. */
  method Walk(buf: EvBuffer, p: Ptr, position: nat, ghost k0: nat) returns (result: int, moved: Ptr)
    requires buf.Valid() && buf.At(p, k0)
    ensures p.pos >= 0 && moved == PtrTo(buf, p.pos + position)
    ensures result == if p.pos + position <= buf.totalLen then 0 else -1
  {
    hide EvBuffer.Listed, Distinct, Linked, Holds, Within, Flatten, Marks, EmptyFrom, UsedBlocks, Locate;
    Starts(buf, p, k0, position);
    ghost var k := k0;
    var chain: Chain?, at: nat, left: nat, target: nat := p.chain, p.posInChain, position, p.pos + position;
    LocateMeaning(buf.parts, target);
    while chain != null && at + left >= chain.off
      invariant |buf.parts| == |buf.spine| && k <= |buf.spine| && chain == Nth(buf.spine, k)
      invariant at <= (if k < |buf.spine| then |buf.parts[k]| else 0)
      invariant var (i, j) := Locate(buf.parts[k..], at + left); Locate(buf.parts, target) == (k + i, j)
      decreases |buf.spine| - k
    {
      Passed(buf, k, at + left);
      left := left - (chain.off - at);
      chain, at, k := chain.next, 0, k + 1;
    }
    if chain != null {
      Passed(buf, k, at + left);
      return 0, Ptr(AsSsize(target), chain, at + left);
    }
    assert buf.parts[k..] == [];
    LocateEnd(left);
    if left == 0 {
      moved, result := Ptr(AsSsize(target), null, 0), 0;
    } else {
      moved, result := NOT_FOUND, -1;
    }
  }

  lemma Passed(buf: EvBuffer, k: nat, m: nat)
    requires buf.Valid() && k < |buf.spine|
    ensures |buf.parts| == |buf.spine| && buf.spine[k].off == |buf.parts[k]| && buf.spine[k].next == Nth(buf.spine, k + 1)
    ensures m >= |buf.parts[k]| ==>
              var (i, j) := Locate(buf.parts[k + 1..], m - |buf.parts[k]|); Locate(buf.parts[k..], m) == (i + 1, j)
    ensures m < |buf.parts[k]| ==> Locate(buf.parts[k..], m) == (0, m)
  {
    buf.BlockAt(k);
    assert buf.parts[k..][1..] == buf.parts[k + 1..];
  }

  lemma LocateEnd(m: nat)
    ensures Locate([], m) == (0, m)
  {}

  lemma Starts(buf: EvBuffer, p: Ptr, k: nat, m: nat)
    requires buf.At(p, k)
    ensures k <= |buf.parts| && p.posInChain <= p.pos
    ensures var (i, j) := Locate(buf.parts[k..], p.posInChain + m); Locate(buf.parts, p.pos + m) == (k + i, j)
  {
    LocateSkip(buf.parts, k, p.posInChain + m);
  }

  /** Setting a position and then adding to it is setting it to the sum, also past the end, unless the first position lies in the
      buffer and does not fit into the type that it is kept in. */
  method SetThenAdd(buf: EvBuffer, a: nat, b: nat) returns (twice: (int, Ptr), once: (int, Ptr))
    requires buf.Valid() && a + b <= SIZE_MAX
    ensures twice == once <==> a <= SSIZE_MAX || a > buf.totalLen
  {
    hide EvBuffer.Valid, Distinct, Linked, Holds, Within, Flatten, Marks, EmptyFrom, UsedBlocks, EvBuffer.At, PtrTo, EvBuffer.Contents;
    PtrToIs(buf, a);
    PtrToIs(buf, a + b);
    var r, p := PtrSet(buf, NOT_FOUND, a, Set);
    r, p := PtrSet(buf, p, b, Add);
    var r', p' := PtrSet(buf, NOT_FOUND, a + b, Set);
    twice, once := (r, p), (r', p');
  }

  /** The position of a byte of the buffer, or of its end, denotes it as long as it fits into its type; there is none past the end. */
  lemma PtrToIs(buf: EvBuffer, n: nat)
    requires buf.Valid() && n <= SIZE_MAX
    ensures n <= buf.totalLen ==> PtrTo(buf, n).pos == AsSsize(n)
    ensures n <= buf.totalLen && n <= SSIZE_MAX ==> buf.Denotes(PtrTo(buf, n))
    ensures n > buf.totalLen ==> PtrTo(buf, n) == NOT_FOUND
    ensures n > SSIZE_MAX ==> AsSsize(n) < 0
  {
    LocateMeaning(buf.parts, n);
    var (k, j) := Locate(buf.parts, n);
    assert buf.parts[..|buf.parts|] == buf.parts;
    if n <= buf.totalLen && n <= SSIZE_MAX {
      assert buf.At(PtrTo(buf, n), k);
    }
  }

  /** Moves a position back. */
  method PtrSubtract(buf: EvBuffer, pos: Ptr, howfar: nat) returns (result: int, moved: Ptr)
    requires buf.Valid() && buf.totalLen <= SSIZE_MAX && (buf.Denotes(pos) || pos.pos < 0)
    ensures result == if 0 <= howfar <= pos.pos then 0 else -1
    ensures result == 0 ==> buf.Denotes(moved) && moved.pos == pos.pos - howfar
    ensures result == 0 && howfar > 0 ==> moved.chain != null && moved.posInChain < moved.chain.off
    ensures result != 0 ==> moved == pos
  {
    hide EvBuffer.Listed, Distinct, Linked, Holds, Within, Flatten, Marks, EmptyFrom, UsedBlocks;
    if pos.pos < 0 {
      return -1, pos;
    }
    if howfar > pos.pos {
      return -1, pos;
    }
    ghost var k: nat :| buf.At(pos, k);
    buf.AtWithin(pos, k);
    if pos.chain != null && howfar <= pos.posInChain {
      moved := Ptr(pos.pos - howfar, pos.chain, pos.posInChain - howfar);
      result := 0;
      assert buf.At(moved, k);
      buf.BlockAt(k);
    } else {
      result, moved := PtrSet(buf, pos, pos.pos - howfar, Set);
      PtrToDenotes(buf, pos.pos - howfar);
      if howfar > 0 {
        PtrToInBlock(buf, pos.pos - howfar);
      }
    }
  }

  lemma PtrToInBlock(buf: EvBuffer, n: nat)
    requires buf.Valid() && n < buf.totalLen
    ensures PtrTo(buf, n).chain != null && PtrTo(buf, n).posInChain < PtrTo(buf, n).chain.off
  {
    LocateMeaning(buf.parts, n);
    buf.BlockAt(Locate(buf.parts, n).0);
  }

  /** The bytes of block `k`, found in the whole. */
  lemma BlockBytes(buf: EvBuffer, k: nat)
    requires buf.Valid() && k < |buf.spine|
    ensures |buf.parts| == |buf.spine| && buf.spine[k].Valid() && buf.spine[k].off == |buf.parts[k]|
    ensures buf.spine[k].next == Nth(buf.spine, k + 1)
    ensures var base := |Flatten(buf.parts[..k])|; base + buf.spine[k].off <= |buf.Contents()|
    ensures var c, base := buf.spine[k], |Flatten(buf.parts[..k])|;
            forall n :: base <= n < base + c.off ==> buf.Contents()[n] == c.buffer[c.misalign + (n - base)]
  {
    hide EvBuffer.Listed, Distinct, Linked, Holds, Within, Flatten, Marks, EmptyFrom, UsedBlocks;
    buf.BlockAt(k);
    FlattenAt(buf.parts, k);
    var c, base := buf.spine[k], |Flatten(buf.parts[..k])|;
    forall n | base <= n < base + c.off
      ensures buf.Contents()[n] == c.buffer[c.misalign + (n - base)]
    {
      assert c.buffer[c.misalign + (n - base)] == c.Data()[n - base];
    }
  }

  /** None of the bytes `from..to` is one of `stop`. */
  ghost predicate Clear(s: seq<Byte>, from: nat, to: nat, stop: set<Byte>)
  {
    from <= to <= |s| && forall i :: from <= i < to ==> s[i] !in stop
  }

  /** Byte `at` is the first one from `from` on that is one of `stop`. */
  ghost predicate FirstOf(s: seq<Byte>, from: nat, at: int, stop: set<Byte>)
  {
    from <= at < |s| && s[at] in stop && Clear(s, from, at, stop)
  }

  /** memchr(a + lo, c, hi - lo); `hi` stands for not found. */
  method Memchr(a: array<Byte>, lo: nat, hi: nat, c: Byte) returns (at: nat)
    requires lo <= hi <= a.Length
    ensures lo <= at <= hi && (at < hi ==> a[at] == c)
    ensures forall i :: lo <= i < at ==> a[i] != c
  {
    at := lo;
    while at < hi && a[at] != c
      invariant lo <= at <= hi
      invariant forall i :: lo <= i < at ==> a[i] != c
    {
      at := at + 1;
    }
  }

  /** The first carriage return or line feed, looked for in chunks; `hi` stands for not found. */
  method FindEolIn(a: array<Byte>, lo: nat, hi: nat) returns (at: nat)
    requires lo <= hi <= a.Length
    ensures lo <= at <= hi && (at < hi ==> a[at] == CR || a[at] == LF)
    ensures forall i :: lo <= i < at ==> a[i] != CR && a[i] != LF
  {
    var s := lo;
    while s < hi
      invariant lo <= s
      invariant forall i :: lo <= i < s && i < hi ==> a[i] != CR && a[i] != LF
    {
      var chunk := if s + CHUNK_SZ < hi then CHUNK_SZ else hi - s;
      var cr := Memchr(a, s, s + chunk, CR);
      var lf := Memchr(a, s, s + chunk, LF);
      if cr < s + chunk {
        if lf < s + chunk && lf < cr {
          return lf;
        }
        return cr;
      } else if lf < s + chunk {
        return lf;
      }
      s := s + CHUNK_SZ;
    }
    at := hi;
  }

  /** The position lies on a byte. */
  ghost predicate OnByte(buf: EvBuffer, p: Ptr, k: nat)
    reads buf
  {
    buf.At(p, k) && k < |buf.spine| && p.posInChain < |buf.parts[k]|
  }

  /** Walks on to the first byte equal to `c`. */
  method Strchr(buf: EvBuffer, it: Ptr, c: Byte) returns (found: bool, p: Ptr)
    requires buf.Valid() && buf.Denotes(it)
    ensures 0 <= it.pos <= |buf.Contents()|
    ensures found ==> FirstOf(buf.Contents(), it.pos, p.pos, {c}) && exists k :: OnByte(buf, p, k)
    ensures !found ==> Clear(buf.Contents(), it.pos, |buf.Contents()|, {c})
  {
    hide EvBuffer.Listed, Distinct, Linked, Holds, Within, Flatten, Marks, EmptyFrom, UsedBlocks;
    ghost var k: nat :| buf.At(it, k);
    var chain, i, pos: nat := it.chain, it.posInChain, it.pos;
    buf.AtWithin(it, k);
    while chain != null
      invariant buf.At(Ptr(pos, chain, i), k)
      invariant Clear(buf.Contents(), it.pos, pos, {c})
      decreases |buf.spine| - k
    {
      BlockBytes(buf, k);
      var at := Memchr(chain.buffer, chain.misalign + i, chain.misalign + chain.off, c);
      StopsAt(buf, k, it.pos, i, at, {c});
      var n := at - chain.misalign;
      if at < chain.misalign + chain.off {
        p := Ptr(pos + (n - i), chain, n);
        assert OnByte(buf, p, k);
        return true, p;
      }
      buf.AtNext(Ptr(pos, chain, i), k);
      pos := pos + (chain.off - i);
      chain, i, k := chain.next, 0, k + 1;
      buf.AtWithin(Ptr(pos, chain, i), k);
    }
    buf.AtWithin(Ptr(pos, chain, i), k);
    return false, NOT_FOUND;
  }

  /** A block in which the bytes `i..at` have been passed over. */
  lemma StopsAt(buf: EvBuffer, k: nat, from: nat, i: nat, at: nat, stop: set<Byte>)
    requires buf.Valid() && k < |buf.spine| && buf.spine[k].Valid()
    requires var c := buf.spine[k]; i <= c.off && c.misalign + i <= at <= c.misalign + c.off
    requires forall j :: buf.spine[k].misalign + i <= j < at ==> buf.spine[k].buffer[j] !in stop
    requires Clear(buf.Contents(), from, |Flatten(buf.parts[..k])| + i, stop)
    ensures var n := |Flatten(buf.parts[..k])| + (at - buf.spine[k].misalign);
            && Clear(buf.Contents(), from, n, stop)
            && (at < buf.spine[k].misalign + buf.spine[k].off ==> n < |buf.Contents()| && buf.Contents()[n] == buf.spine[k].buffer[at])
  {
    hide EvBuffer.Listed, Distinct, Linked, Holds, Within, Flatten, Marks, EmptyFrom, UsedBlocks;
    BlockBytes(buf, k);
    var c, base := buf.spine[k], |Flatten(buf.parts[..k])|;
    forall j | base + i <= j < base + (at - c.misalign)
      ensures buf.Contents()[j] !in stop
    {
      if base + i <= j {
        assert buf.Contents()[j] == c.buffer[c.misalign + (j - base)];
      }
    }
    if at < c.misalign + c.off {
      assert buf.Contents()[base + (at - c.misalign)] == c.buffer[at];
    }
  }

  /** Walks on to the first carriage return or line feed. */
  method FindEolChar(buf: EvBuffer, it: Ptr) returns (found: bool, p: Ptr)
    requires buf.Valid() && buf.Denotes(it)
    ensures 0 <= it.pos <= |buf.Contents()|
    ensures found ==> FirstOf(buf.Contents(), it.pos, p.pos, {CR, LF}) && exists k :: OnByte(buf, p, k)
    ensures !found ==> Clear(buf.Contents(), it.pos, |buf.Contents()|, {CR, LF})
  {
    hide EvBuffer.Listed, Distinct, Linked, Holds, Within, Flatten, Marks, EmptyFrom, UsedBlocks;
    ghost var k: nat :| buf.At(it, k);
    var chain, i, pos: nat := it.chain, it.posInChain, it.pos;
    buf.AtWithin(it, k);
    while chain != null
      invariant buf.At(Ptr(pos, chain, i), k)
      invariant Clear(buf.Contents(), it.pos, pos, {CR, LF})
      decreases |buf.spine| - k
    {
      BlockBytes(buf, k);
      var at := FindEolIn(chain.buffer, chain.misalign + i, chain.misalign + chain.off);
      StopsAt(buf, k, it.pos, i, at, {CR, LF});
      var n := at - chain.misalign;
      if at < chain.misalign + chain.off {
        p := Ptr(pos + (n - i), chain, n);
        assert OnByte(buf, p, k);
        return true, p;
      }
      buf.AtNext(Ptr(pos, chain, i), k);
      pos := pos + (chain.off - i);
      chain, i, k := chain.next, 0, k + 1;
      buf.AtWithin(Ptr(pos, chain, i), k);
    }
    buf.AtWithin(Ptr(pos, chain, i), k);
    return false, NOT_FOUND;
  }

  /** The longest run of bytes of `chrset` from byte `from` on has length `n`. */
  ghost predicate Run(s: seq<Byte>, from: nat, n: nat, chrset: seq<Byte>)
  {
    && from + n <= |s|
    && (forall i :: from <= i < from + n ==> s[i] in chrset)
    && (from + n < |s| ==> s[from + n] !in chrset)
  }

  /** From byte `from` on there is a byte that is not of `chrset`. */
  ghost predicate Stops(s: seq<Byte>, from: nat, chrset: seq<Byte>) {
    exists i :: from <= i < |s| && s[i] !in chrset
  }

  lemma RunStops(s: seq<Byte>, from: nat, n: nat, chrset: seq<Byte>)
    requires Run(s, from, n, chrset)
    ensures from + n < |s| <==> Stops(s, from, chrset)
  {}

  /** Counts the bytes of `chrset` from a position on, and moves the position to the byte where they end.  When they go on to the
      end of the buffer, what comes out is no position, as its place in the last block has been reset: unless that is empty. */
  method Strspn(buf: EvBuffer, p: Ptr, chrset: seq<Byte>) returns (count: nat, moved: Ptr)
    requires buf.Valid() && buf.Denotes(p)
    ensures p.pos >= 0 && Run(buf.Contents(), p.pos, count, chrset)
    ensures moved.pos == p.pos + count
    ensures buf.Denotes(moved) <==> Stops(buf.Contents(), p.pos, chrset) || p.chain == null || buf.last.off == 0
  {
    hide EvBuffer.Listed, Distinct, Linked, Holds, Within, Flatten, Marks, EmptyFrom, UsedBlocks, Stops;
    ghost var k: nat :| buf.At(p, k);
    buf.AtWithin(p, k);
    var chain: Chain?, i: nat := p.chain, p.posInChain;
    count := 0;
    if chain == null {
      return 0, p;
    }
    assert p.pos >= 0;
    while true
      invariant k < |buf.spine| && chain == buf.spine[k] && buf.At(Ptr(p.pos + count, chain, i), k)
      invariant p.pos + count <= |buf.Contents()|
      invariant forall j :: p.pos <= j < p.pos + count ==> buf.Contents()[j] in chrset
      decreases |buf.spine| - k
    {
      BlockBytes(buf, k);
      ghost var base := |Flatten(buf.parts[..k])|;
      while i < chain.off
        invariant base <= base + i == p.pos + count && i <= chain.off
        invariant forall j :: p.pos <= j < p.pos + count ==> buf.Contents()[j] in chrset
      {
        assert buf.Contents()[base + i] == chain.buffer[chain.misalign + i];
        if chain.buffer[chain.misalign + i] !in chrset {
          moved := Ptr(p.pos + count, chain, i);
          assert buf.At(moved, k);
          RunStops(buf.Contents(), p.pos, count, chrset);
          return;
        }
        count := count + 1;
        i := i + 1;
      }
      ghost var here := Ptr(p.pos + count, chain, i);
      buf.AtWithin(here, k);
      if chain.next == null {
        assert buf.parts[..k + 1] == buf.parts;
        FlattenPrefix(buf.parts, k);
        moved := Ptr(p.pos + count, chain, 0);
        NoPlace(buf, moved, k);
        RunStops(buf.Contents(), p.pos, count, chrset);
        return;
      }
      buf.AtNext(here, k);
      i := 0;
      chain, k := chain.next, k + 1;
      buf.AtWithin(Ptr(p.pos + count, chain, i), k);
    }
  }

  /** The start of the last block is no place for the end of the buffer, unless that block is empty. */
  lemma NoPlace(buf: EvBuffer, p: Ptr, k: nat)
    requires buf.Valid() && k + 1 == |buf.spine| && p == Ptr(|buf.Contents()|, buf.spine[k], 0)
    ensures buf.last == buf.spine[k] && (buf.Denotes(p) <==> buf.spine[k].off == 0)
  {
    hide EvBuffer.Listed, Linked, Holds, Within, Flatten, Marks, EmptyFrom, UsedBlocks;
    buf.BlockAt(k);
    buf.TotalLenSplits(k);
    assert buf.parts[..k + 1] == buf.parts;
    FlattenPrefix(buf.parts, k);
    if buf.spine[k].off == 0 {
      assert buf.At(p, k);
    } else if buf.Denotes(p) {
      var j: nat :| buf.At(p, j);
      if j < k {
        buf.BlocksDiffer(j, k);
      }
    }
  }

  /** Searching a buffer that holds just "\r\n" for the end of the run of these two bytes comes out at no place of it. */
  method SpanToEnd() returns (buf: EvBuffer, moved: Ptr)
    ensures fresh(buf) && buf.Valid() && buf.Contents() == [CR, LF] && !buf.Denotes(moved)
  {
    hide EvBuffer.Valid, EvBuffer.Listed, EvBuffer.Contents, Distinct, Linked, Holds, Within, Flatten, Marks, EmptyFrom, UsedBlocks, Stops;
    buf := new EvBuffer();
    var chain := new Chain(MIN_BUFFER_SIZE - CHAIN_SIZE);
    chain.AppendData([CR, LF]);
    buf.InsertFirst(chain);
    OnlyBlock(buf, chain);
    var count;
    count, moved := Strspn(buf, Ptr(0, chain, 0), [CR, LF]);
  }

  lemma OnlyBlock(buf: EvBuffer, chain: Chain)
    requires buf.Valid() && buf.spine == [chain] && buf.parts == [[CR, LF]]
    ensures buf.Denotes(Ptr(0, chain, 0)) && buf.last == chain && chain.off == 2
    ensures buf.Contents() == [CR, LF] && !Stops(buf.Contents(), 0, [CR, LF])
  {
    buf.BlockAt(0);
    FlattenOne([CR, LF]);
    FlattenNil();
    assert buf.parts[..0] == [];
    assert buf.At(Ptr(0, chain, 0), 0);
  }

  /** memcmp(a + at, mem, n) == 0 */
  method Equal(a: array<Byte>, at: nat, mem: seq<Byte>) returns (same: bool)
    requires at + |mem| <= a.Length
    ensures same <==> a[at..at + |mem|] == mem
  {
    var i := 0;
    while i < |mem| && a[at + i] == mem[i]
      invariant i <= |mem| && a[at..at + i] == mem[..i]
    {
      i := i + 1;
    }
    same := i == |mem|;
    assert !same ==> a[at..at + |mem|][i] != mem[i];
  }

  /** The string `what` is found at byte `at`. */
  ghost predicate Occurs(s: seq<Byte>, at: int, what: seq<Byte>)
  {
    0 <= at && at + |what| <= |s| && s[at..at + |what|] == what
  }

  lemma OccursInTwo(s: seq<Byte>, at: nat, what: seq<Byte>, n: nat)
    requires n <= |what| && at + |what| <= |s|
    ensures Occurs(s, at, what) <==> s[at..at + n] == what[..n] && Occurs(s, at + n, what[n..])
  {
    var w := s[at..at + |what|];
    assert w == s[at..at + n] + s[at + n..at + n + |what[n..]|];
    assert what == what[..n] + what[n..];
    if Occurs(s, at, what) {
      assert s[at..at + n] == w[..n] && s[at + n..at + n + |what[n..]|] == w[n..];
    }
  }

  /** Some bytes of a block, as bytes of the whole. */
  lemma BlockSlice(buf: EvBuffer, k: nat, at: nat, n: nat)
    requires buf.Valid() && k < |buf.spine| && at + n <= buf.spine[k].off
    ensures var c, base := buf.spine[k], |Flatten(buf.parts[..k])|;
            && c.misalign + c.off <= c.buffer.Length && |buf.parts| == |buf.spine| && c.off == |buf.parts[k]|
            && base + at + n <= |buf.Contents()| && c.next == Nth(buf.spine, k + 1)
            && c.buffer[c.misalign + at..c.misalign + at + n] == buf.Contents()[base + at..base + at + n]
  {
    hide EvBuffer.Listed, Distinct, Linked, Holds, Within, Flatten, Marks, EmptyFrom, UsedBlocks;
    buf.BlockAt(k);
    buf.spine[k].Window(at, at + n);
    FlattenSlice(buf.parts, k, at, at + n);
  }

  /** Compares what is left of a string with the bytes of one block. */
  method MatchBlock(buf: EvBuffer, pos: nat, done: nat, chain: Chain, position: nat, mem: seq<Byte>, ghost k: nat) returns (same: bool, n: nat)
    requires buf.Valid() && k < |buf.spine| && chain == buf.spine[k] && done <= |mem| && pos + |mem| <= |buf.Contents()|
    requires position <= chain.off && pos + done == |Flatten(buf.parts[..k])| + position
    ensures n == if |mem| - done + position > chain.off then chain.off - position else |mem| - done
    ensures !same ==> !Occurs(buf.Contents(), pos + done, mem[done..])
    ensures same ==> Occurs(buf.Contents(), pos + done, mem[done..]) == Occurs(buf.Contents(), pos + done + n, mem[done + n..])
  {
    hide EvBuffer.Listed, Distinct, Linked, Holds, Within, Flatten, Marks, EmptyFrom, UsedBlocks, Occurs, EvBuffer.Contents;
    BlockSlice(buf, k, 0, 0);
    var len := |mem| - done;
    n := if len + position > chain.off then chain.off - position else len;
    BlockSlice(buf, k, position, n);
    OccursInTwo(buf.Contents(), pos + done, mem[done..], n);
    assert mem[done..][n..] == mem[done + n..] && mem[done..][..n] == mem[done..done + n];
    same := Equal(chain.buffer, chain.misalign + position, mem[done..done + n]);
  }

  /** Compares the bytes from a position on with a string. */
  method PtrMatches(buf: EvBuffer, pos: Ptr, mem: seq<Byte>) returns (same: bool)
    requires buf.Valid() && buf.Denotes(pos)
    ensures same <==> Occurs(buf.Contents(), pos.pos, mem) && |mem| <= SIZE_MAX - pos.pos
  {
    hide EvBuffer.Listed, Distinct, Linked, Holds, Within, Flatten, Marks, EmptyFrom, UsedBlocks, Occurs;
    OccursBound(buf.Contents(), pos.pos, mem);
    if pos.pos < 0 || SIZE_MAX - |mem| < pos.pos || pos.pos + |mem| > buf.totalLen {
      return false;
    }
    ghost var k: nat :| buf.At(pos, k);
    var chain: Chain?, position: nat, done: nat := pos.chain, pos.posInChain, 0;
    assert mem[0..] == mem;
    if chain != null {
      buf.BlockAt(k);
    }
    while done < |mem| && chain != null
      invariant done <= |mem| && buf.At(Ptr(pos.pos + done, chain, position), k) && (chain != null ==> position <= chain.off)
      invariant Occurs(buf.Contents(), pos.pos, mem) <==> Occurs(buf.Contents(), pos.pos + done, mem[done..])
      decreases |buf.spine| - k
    {
      var same, n := MatchBlock(buf, pos.pos, done, chain, position, mem, k);
      if !same {
        return false;
      }
      if done + n == |mem| {
        OccursEnd(buf.Contents(), pos.pos + done + n, mem[done + n..]);
        return true;
      }
      buf.AtNext(Ptr(pos.pos + done, chain, position), k);
      buf.BlockAt(k);
      done := done + n;
      chain, position, k := chain.next, 0, k + 1;
    }
    buf.AtWithin(Ptr(pos.pos + done, chain, position), k);
    OccursEnd(buf.Contents(), pos.pos + done, mem[done..]);
    same := true;
  }

  lemma OccursBound(s: seq<Byte>, at: int, what: seq<Byte>)
    ensures Occurs(s, at, what) ==> 0 <= at && at + |what| <= |s|
  {}

  lemma OccursEnd(s: seq<Byte>, at: int, what: seq<Byte>)
    requires what == []
    ensures 0 <= at <= |s| ==> Occurs(s, at, what)
  {}

  /** No byte `from..to` starts an occurrence of `what`. */
  ghost predicate NoneIn(s: seq<Byte>, from: int, to: int, what: seq<Byte>)
  {
    forall i :: from <= i < to ==> !Occurs(s, i, what)
  }

  /** Where an occurrence that is to end by `limit` could start at the latest, plus one. */
  ghost function LastStart(s: seq<Byte>, end: Option<Ptr>, what: seq<Byte>): int
  {
    (if end.Some? && end.value.pos < |s| then end.value.pos else |s|) - |what| + 1
  }

  lemma OccursFirst(s: seq<Byte>, at: int, what: seq<Byte>)
    requires what != []
    ensures Occurs(s, at, what) ==> 0 <= at < |s| && s[at] == what[0]
  {
    if Occurs(s, at, what) {
      assert s[at..at + |what|][0] == s[at];
    }
  }

  lemma NoneMore(s: seq<Byte>, from: int, mid: int, to: int, what: seq<Byte>)
    requires NoneIn(s, from, mid, what) && what != []
    requires forall i :: mid <= i < to && 0 <= i < |s| ==> s[i] != what[0]
    ensures NoneIn(s, from, to, what)
  {
    forall i | from <= i < to
      ensures !Occurs(s, i, what)
    {
      OccursFirst(s, i, what);
    }
  }

  /** Finds the first occurrence of `what` that starts at or after `start`, unless it ends after `end`. */
  method SearchRange(buf: EvBuffer, what: seq<Byte>, start: Option<Ptr>, end: Option<Ptr>) returns (r: Ptr)
    requires buf.Valid() && buf.totalLen <= SSIZE_MAX
    requires start.Some? ==> buf.Denotes(start.value) || start.value == NOT_FOUND
    requires end.Some? ==> buf.Denotes(end.value)
    ensures |what| == 0 || |what| > SSIZE_MAX ==> r == if start.Some? then start.value else Ptr(0, buf.first, 0)
    ensures 0 < |what| <= SSIZE_MAX && r == NOT_FOUND ==>
              (start.Some? && start.value == NOT_FOUND) ||
              NoneIn(buf.Contents(), if start.Some? then start.value.pos else 0, LastStart(buf.Contents(), end, what), what)
    ensures 0 < |what| <= SSIZE_MAX && r != NOT_FOUND ==>
              var from := if start.Some? then start.value.pos else 0;
              && buf.Denotes(r) && from <= r.pos && Occurs(buf.Contents(), r.pos, what)
              && NoneIn(buf.Contents(), from, r.pos, what)
              && (end.Some? ==> r.pos + |what| <= end.value.pos)
  {
    hide EvBuffer.Listed, Distinct, Linked, Holds, Within, Flatten, Marks, EmptyFrom, UsedBlocks, Occurs, EvBuffer.At;
    r := if start.Some? then start.value else Ptr(0, buf.first, 0);
    if |what| == 0 || |what| > SSIZE_MAX {
      return;
    }
    if r == NOT_FOUND {
      return;
    }
    buf.StartAt();
    ghost var k: nat :| buf.At(r, k);
    r := SearchFrom(buf, what, r, k, end);
  }

  /** The loop of the search. */
  method SearchFrom(buf: EvBuffer, what: seq<Byte>, start: Ptr, ghost k0: nat, end: Option<Ptr>) returns (r: Ptr)
    requires buf.Valid() && buf.totalLen <= SSIZE_MAX && 0 < |what| <= SSIZE_MAX && buf.At(start, k0)
    requires end.Some? ==> buf.Denotes(end.value)
    ensures r == NOT_FOUND ==> NoneIn(buf.Contents(), start.pos, LastStart(buf.Contents(), end, what), what)
    ensures r != NOT_FOUND ==>
              && buf.Denotes(r) && start.pos <= r.pos && Occurs(buf.Contents(), r.pos, what)
              && NoneIn(buf.Contents(), start.pos, r.pos, what)
              && (end.Some? ==> r.pos + |what| <= end.value.pos)
  {
    hide EvBuffer.Listed, Distinct, Linked, Holds, Within, Flatten, Marks, EmptyFrom, UsedBlocks, Occurs, NoneIn;
    var lastChain := if end.Some? then end.value.chain else null;
    ghost var k, s := k0, buf.Contents();
    var chain: Chain?, posInChain: nat, pos: nat := start.chain, start.posInChain, start.pos;
    buf.AtWithin(start, k);
    NoneYet(s, start.pos, what);
    while chain != null
      invariant buf.At(Ptr(pos, chain, posInChain), k) && start.pos <= pos <= |s|
      invariant NoneIn(s, start.pos, pos, what)
      decreases |s| - pos, |buf.spine| - k
    {
      BlockBytes(buf, k);
      var at := Memchr(chain.buffer, chain.misalign + posInChain, chain.misalign + chain.off, what[0]);
      Unmatched(buf, k, pos, posInChain, at, start.pos, what);
      var n := at - chain.misalign - posInChain;
      pos, posInChain := pos + n, posInChain + n;
      if at < chain.misalign + chain.off {
        r := Ptr(pos, chain, posInChain);
        assert buf.At(r, k);
        var same := PtrMatches(buf, r, what);
        if same {
          if end.Some? && pos + |what| > end.value.pos {
            NoneLater(s, start.pos, pos, what, end);
            return NOT_FOUND;
          }
          return;
        }
        NotHere(s, start.pos, pos, what);
        pos, posInChain := pos + 1, posInChain + 1;
        if posInChain == chain.off {
          buf.AtNext(Ptr(pos, chain, posInChain), k);
          chain, posInChain, k := chain.next, 0, k + 1;
        }
      } else {
        if chain == lastChain {
          EndsHere(buf, k, end.value);
          NoneFewer(s, start.pos, pos, what, end);
          return NOT_FOUND;
        }
        buf.AtNext(Ptr(pos, chain, posInChain), k);
        chain, posInChain, k := chain.next, 0, k + 1;
      }
    }
    buf.AtWithin(Ptr(pos, chain, posInChain), k);
    NoneFewer(s, start.pos, pos, what, end);
    r := NOT_FOUND;
  }

  lemma NoneYet(s: seq<Byte>, from: int, what: seq<Byte>)
    ensures NoneIn(s, from, from, what)
  {}

  lemma NotHere(s: seq<Byte>, from: int, pos: int, what: seq<Byte>)
    requires NoneIn(s, from, pos, what) && !Occurs(s, pos, what)
    ensures NoneIn(s, from, pos + 1, what)
  {}

  lemma NoneFewer(s: seq<Byte>, from: int, pos: int, what: seq<Byte>, end: Option<Ptr>)
    requires NoneIn(s, from, pos, what) && what != []
    requires pos >= |s| || (end.Some? && end.value.pos <= pos)
    ensures NoneIn(s, from, LastStart(s, end, what), what)
  {}

  lemma NoneLater(s: seq<Byte>, from: int, pos: int, what: seq<Byte>, end: Option<Ptr>)
    requires NoneIn(s, from, pos, what) && end.Some? && pos + |what| > end.value.pos
    ensures NoneIn(s, from, LastStart(s, end, what), what)
  {}

  lemma EndsHere(buf: EvBuffer, k: nat, end: Ptr)
    requires buf.Valid() && k < |buf.spine| && buf.Denotes(end) && end.chain == buf.spine[k]
    ensures |buf.parts| == |buf.spine| && end.pos <= |Flatten(buf.parts[..k])| + |buf.parts[k]|
  {
    hide Flatten;
    var i: nat :| buf.At(end, i);
    if i < |buf.spine| && i != k {
      buf.BlocksDiffer(i, k);
    }
  }

  /** The first byte of `what` does not appear among the bytes passed over in a block. */
  lemma Unmatched(buf: EvBuffer, k: nat, pos: nat, i: nat, at: nat, from: int, what: seq<Byte>)
    requires buf.Valid() && k < |buf.spine| && buf.spine[k].Valid() && what != []
    requires var c := buf.spine[k]; i <= c.off && c.misalign + i <= at <= c.misalign + c.off
    requires pos == |Flatten(buf.parts[..k])| + i
    requires forall j :: buf.spine[k].misalign + i <= j < at ==> buf.spine[k].buffer[j] != what[0]
    requires NoneIn(buf.Contents(), from, pos, what)
    ensures NoneIn(buf.Contents(), from, pos + (at - buf.spine[k].misalign - i), what)
    ensures pos + (at - buf.spine[k].misalign - i) <= |buf.Contents()|
    ensures at < buf.spine[k].misalign + buf.spine[k].off ==> pos + (at - buf.spine[k].misalign - i) < |buf.Contents()|
  {
    hide EvBuffer.Listed, Distinct, Linked, Holds, Within, Flatten, Marks, EmptyFrom, UsedBlocks, NoneIn;
    BlockBytes(buf, k);
    var c := buf.spine[k];
    forall j | pos <= j < pos + (at - c.misalign - i)
      ensures buf.Contents()[j] != what[0]
    {
      assert buf.Contents()[j] == c.buffer[c.misalign + (j - pos + i)];
    }
    NoneMore(buf.Contents(), from, pos, pos + (at - c.misalign - i), what);
  }

  datatype EolStyle = EolAny | EolCrlf | EolCrlfStrict | EolLf | EolNul

  /** A line end of the given style starts at byte `at` and has `len` bytes. */
  ghost predicate LineEnd(s: seq<Byte>, style: EolStyle, at: int, len: nat)
  {
    0 <= at < |s| &&
    match style
    case EolAny => s[at] in {CR, LF} && Run(s, at, len, [CR, LF])
    case EolCrlf => (len == 1 && s[at] == LF) || (len == 2 && Occurs(s, at, [CR, LF]))
    case EolCrlfStrict => len == 2 && Occurs(s, at, [CR, LF])
    case EolLf => len == 1 && s[at] == LF
    case EolNul => len == 1 && s[at] == 0
  }

  /** No line end starts at one of the bytes `from..to`. */
  ghost predicate NoLineEnd(s: seq<Byte>, style: EolStyle, from: int, to: int)
  {
    forall i, len: nat :: from <= i < to ==> !LineEnd(s, style, i, len)
  }

  lemma CrLf(s: seq<Byte>, at: int)
    ensures Occurs(s, at, [CR, LF]) <==> 0 <= at && at + 1 < |s| && s[at] == CR && s[at + 1] == LF
  {
    if 0 <= at && at + 1 < |s| {
      assert s[at..at + 2] == [s[at], s[at + 1]];
    }
  }

  lemma NoneOfThese(s: seq<Byte>, style: EolStyle, from: nat, to: nat)
    requires !style.EolCrlfStrict?
    requires Clear(s, from, to, if style.EolAny? then {CR, LF} else if style.EolNul? then {0} else {LF})
    requires style.EolCrlf? && from < to < |s| && s[to - 1] == CR ==> s[to] != LF
    ensures NoLineEnd(s, style, from, to)
  {
    if style.EolCrlf? {
      forall i | from <= i < to
        ensures !Occurs(s, i, [CR, LF])
      {
        CrLf(s, i);
      }
    }
  }

  lemma NoneOfStrict(s: seq<Byte>, from: nat, to: int)
    requires NoneIn(s, from, to, [CR, LF])
    ensures NoLineEnd(s, EolCrlfStrict, from, to)
    ensures to + 1 >= |s| ==> NoLineEnd(s, EolCrlfStrict, from, |s|)
  {
    forall i | to <= i && to + 1 >= |s|
      ensures !Occurs(s, i, [CR, LF])
    {
      CrLf(s, i);
    }
  }

  /** What a search for a line end comes to: the first one at or after `from`, or the lack of one. */
  ghost predicate FoundEol(buf: EvBuffer, style: EolStyle, from: int, r: Ptr, eolLen: nat)
    reads buf
  {
    if r == NOT_FOUND then
      eolLen == 0 && NoLineEnd(buf.Contents(), style, from, |buf.Contents()|)
    else
      && buf.Denotes(r) && from <= r.pos
      && LineEnd(buf.Contents(), style, r.pos, eolLen)
      && NoLineEnd(buf.Contents(), style, from, r.pos)
  }

  /** Finds the first line end at or after `start`, and how long it is. */
  method SearchEol(buf: EvBuffer, start: Option<Ptr>, style: EolStyle) returns (r: Ptr, eolLen: nat)
    requires buf.Valid() && buf.totalLen <= SSIZE_MAX
    requires start.Some? ==> buf.Denotes(start.value) || start.value == NOT_FOUND
    ensures start.Some? && start.value == NOT_FOUND ==> r == NOT_FOUND && eolLen == 0
    ensures start != Some(NOT_FOUND) ==> FoundEol(buf, style, if start.Some? then start.value.pos else 0, r, eolLen)
  {
    hide EvBuffer.Listed, Distinct, Linked, Holds, Within, Flatten, Marks, EmptyFrom, UsedBlocks, EvBuffer.At, FoundEol;
    if start.Some? && start.value.chain == null {
      if start.value != NOT_FOUND {
        NothingLeft(buf, style, start.value);
      }
      return NOT_FOUND, 0;
    }
    var it := if start.Some? then start.value else Ptr(0, buf.first, 0);
    buf.StartAt();
    match style {
      case EolAny =>
        r, eolLen := SearchAny(buf, it);
      case EolCrlfStrict =>
        r := SearchRange(buf, [CR, LF], Some(it), None);
        eolLen := if r.pos < 0 then 0 else 2;
        StrictEnd(buf, it, r, eolLen);
      case EolCrlf =>
        r, eolLen := SearchCrlf(buf, it);
      case EolLf =>
        r, eolLen := SearchOne(buf, it, style, LF);
      case EolNul =>
        r, eolLen := SearchOne(buf, it, style, 0);
    }
  }

  lemma NothingLeft(buf: EvBuffer, style: EolStyle, p: Ptr)
    requires buf.Denotes(p) && p.chain == null
    ensures FoundEol(buf, style, p.pos, NOT_FOUND, 0)
  {
    hide Flatten;
    var k: nat :| buf.At(p, k);
    assert k == |buf.spine|;
    buf.AtWithin(p, k);
  }

  lemma StrictEnd(buf: EvBuffer, it: Ptr, r: Ptr, eolLen: nat)
    requires buf.Denotes(it) && eolLen == if r.pos < 0 then 0 else 2
    requires r == NOT_FOUND ==> NoneIn(buf.Contents(), it.pos, LastStart(buf.Contents(), None, [CR, LF]), [CR, LF])
    requires r != NOT_FOUND ==>
               && buf.Denotes(r) && it.pos <= r.pos && Occurs(buf.Contents(), r.pos, [CR, LF])
               && NoneIn(buf.Contents(), it.pos, r.pos, [CR, LF])
    ensures FoundEol(buf, EolCrlfStrict, it.pos, r, eolLen)
  {
    hide Flatten;
    var k: nat :| buf.At(it, k);
    if r == NOT_FOUND {
      NoneOfStrict(buf.Contents(), it.pos, |buf.Contents()| - 1);
    } else {
      CrLf(buf.Contents(), r.pos);
      NoneOfStrict(buf.Contents(), it.pos, r.pos);
    }
  }

  method SearchAny(buf: EvBuffer, it: Ptr) returns (r: Ptr, eolLen: nat)
    requires buf.Valid() && buf.Denotes(it)
    ensures FoundEol(buf, EolAny, it.pos, r, eolLen)
  {
    hide EvBuffer.Listed, Distinct, Linked, Holds, Within, Flatten, Marks, EmptyFrom, UsedBlocks, EvBuffer.At;
    var found, p := FindEolChar(buf, it);
    if !found {
      NoneOfThese(buf.Contents(), EolAny, it.pos, |buf.Contents()|);
      return NOT_FOUND, 0;
    }
    NoneOfThese(buf.Contents(), EolAny, it.pos, p.pos);
    r := p;
    var count, _ := Strspn(buf, p, [CR, LF]);
    eolLen := count;
  }

  method SearchOne(buf: EvBuffer, it: Ptr, style: EolStyle, c: Byte) returns (r: Ptr, eolLen: nat)
    requires buf.Valid() && buf.Denotes(it) && ((style == EolLf && c == LF) || (style == EolNul && c == 0))
    ensures FoundEol(buf, style, it.pos, r, eolLen)
  {
    hide EvBuffer.Listed, Distinct, Linked, Holds, Within, Flatten, Marks, EmptyFrom, UsedBlocks, EvBuffer.At;
    var found, p := Strchr(buf, it, c);
    if !found {
      NoneOfThese(buf.Contents(), style, it.pos, |buf.Contents()|);
      return NOT_FOUND, 0;
    }
    NoneOfThese(buf.Contents(), style, it.pos, p.pos);
    r, eolLen := p, 1;
  }

  /** Looks for a line feed, and then for a carriage return just before it. */
  method SearchCrlf(buf: EvBuffer, start: Ptr) returns (r: Ptr, eolLen: nat)
    requires buf.Valid() && buf.totalLen <= SSIZE_MAX && buf.Denotes(start)
    ensures FoundEol(buf, EolCrlf, start.pos, r, eolLen)
  {
    hide EvBuffer.Listed, Distinct, Linked, Holds, Within, Flatten, Marks, EmptyFrom, UsedBlocks, EvBuffer.At, Occurs;
    var found, it := Strchr(buf, start, LF);
    if !found {
      NoneOfThese(buf.Contents(), EolCrlf, start.pos, |buf.Contents()|);
      return NOT_FOUND, 0;
    }
    r, eolLen := it, 1;
    if it.pos == start.pos {
      // a feed at the place itself is the line end, whatever is before it
      return;
    }
    var res, it2 := PtrSubtract(buf, it, 1);
    if res < 0 {
      assert false;
    }
    var c := GetChr(buf, it2);
    CrLf(buf.Contents(), it2.pos);
    if c == CR {
      r, eolLen := it2, 2;
      NoneOfThese(buf.Contents(), EolCrlf, start.pos, it2.pos);
    } else {
      NoneOfThese(buf.Contents(), EolCrlf, start.pos, it.pos);
    }
  }

  /** The byte at a position, or -1 at the end. */
  method GetChr(buf: EvBuffer, it: Ptr) returns (c: int)
    requires buf.Valid() && buf.Denotes(it) && (it.chain != null ==> it.posInChain < it.chain.off)
    ensures 0 <= it.pos && c == if it.pos < |buf.Contents()| then buf.Contents()[it.pos] else -1
  {
    hide EvBuffer.Listed, Distinct, Linked, Holds, Within, Flatten, Marks, EmptyFrom, UsedBlocks;
    ghost var k: nat :| buf.At(it, k);
    buf.AtWithin(it, k);
    if it.chain == null {
      return -1;
    }
    BlockBytes(buf, k);
    assert buf.Contents()[it.pos] == it.chain.buffer[it.chain.misalign + it.posInChain];
    c := it.chain.buffer[it.chain.misalign + it.posInChain];
  }
}
