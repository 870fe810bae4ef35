/** Writing tagged records to buffers and reading them back. */
module EventTagging {
  import opened ByteSeq
  import opened ChainList
  import opened ChainModule
  import opened EvBufferModule
  import opened EvBufferPullup
  import opened Options
  import opened TagCodec

  /** The buffer takes `n` more bytes. */
  predicate Takes(buf: EvBuffer, n: nat)
    reads buf
  {
    !buf.freezeEnd && n <= MAX_REQUEST && buf.totalLen + n <= SIZE_MAX
  }

  /** What a buffer that holds `c` holds once `data` has been added; it refuses what it has no room for, and everything while
      its end is frozen. */
  function Added(c: seq<Byte>, frozenEnd: bool, data: seq<Byte>): seq<Byte> {
    if !frozenEnd && |data| <= MAX_REQUEST && |data| <= SIZE_MAX - |c| then c + data else c
  }

  /** The nibble at place `i` once the places before `off` have been written. */
  function Written(n: nat, off: nat, i: nat): (d: nat)
    ensures d < 16
  {
    if 1 <= i < off then Nibble(n, i - 1) else 0
  }

  /** The bytes hold the nibbles before place `off`, and zeros. */
  ghost predicate Filled(s: seq<Byte>, n: nat, off: nat) {
    forall j :: 0 <= j < |s| ==> s[j] == 16 * Written(n, off, 2 * j) + Written(n, off, 2 * j + 1)
  }

  /** The byte at place `j` with the nibble of place `off` put in. */
  function PutIn(b: Byte, off: nat, d: nat): (r: Byte)
    requires d < 16
  {
    if off % 2 == 1 then b / 16 * 16 + d else b % 16 + d * 16
  }

  lemma FilledNone(s: seq<Byte>, n: nat)
    requires forall j :: 0 <= j < |s| ==> s[j] == 0
    ensures Filled(s, n, 1)
  {}

  lemma FilledMore(s: seq<Byte>, n: nat, off: nat)
    requires Filled(s, n, off) && 1 <= off && off / 2 < |s|
    ensures Filled(s[off / 2 := PutIn(s[off / 2], off, Nibble(n, off - 1))], n, off + 1)
  {
    hide Nibble;
    var h := off / 2;
    var s' := s[h := PutIn(s[h], off, Nibble(n, off - 1))];
    forall j | 0 <= j < |s'|
      ensures s'[j] == 16 * Written(n, off + 1, 2 * j) + Written(n, off + 1, 2 * j + 1)
    {
      if j != h {
        assert off != 2 * j && off != 2 * j + 1;
        assert Written(n, off + 1, 2 * j) == Written(n, off, 2 * j);
        assert Written(n, off + 1, 2 * j + 1) == Written(n, off, 2 * j + 1);
      } else if off % 2 == 1 {
        assert off == 2 * j + 1;
      } else {
        assert off == 2 * j;
      }
    }
  }

  /** With the header in, the bytes are the code of the number. */
  lemma FilledAll(s: seq<Byte>, n: nat)
    requires Nibbles(n) <= 16 && Filled(s, n, Nibbles(n) + 1) && Nibbles(n) / 2 < |s|
    ensures s[0 := s[0] % 16 + (if n == 0 then 0 else Nibbles(n) - 1) * 16][..Nibbles(n) / 2 + 1] == IntCode(n)
  {
    hide Nibble, Nibbles;
    ZeroHasNone(n);
    forall j | 0 <= j <= Nibbles(n) / 2
      ensures j > 0 ==> s[j] == IntCode(n)[j]
      ensures j == 0 ==> s[0] % 16 == CodeNibble(n, 1)
    {
      if 2 * j + 1 > Nibbles(n) {
        NibblePast(n, 2 * j);
      }
    }
    if n == 0 {
      NibblePast(n, 0);
    }
  }

  method PutNibble(data: array<Byte>, off: nat, d: nat)
    requires off / 2 < data.Length && d < 16
    modifies data
    ensures data[..] == old(data[..])[off / 2 := PutIn(old(data[off / 2]), off, d)]
  {
    ghost var s := data[..][off / 2 := PutIn(data[off / 2], off, d)];
    if off % 2 == 1 {
      data[off / 2] := data[off / 2] / 16 * 16 + d;
    } else {
      data[off / 2] := data[off / 2] % 16 + d * 16;
    }
    assert data[..] == s;
  }

  /** Writes the code of a number into `data`. */
  method EncodeIntInternal(data: array<Byte>, number: nat, ghost maxNibbles: nat) returns (len: nat)
    requires 0 < maxNibbles <= 16 && number < Power16(maxNibbles) && data.Length == maxNibbles / 2 + 1
    modifies data
    ensures Nibbles(number) <= maxNibbles && len <= data.Length && data[..len] == IntCode(number)
  {
    hide Nibbles, Nibble, Shifted, Power16, Filled, IntCode;
    NibblesBound(number, maxNibbles);
    var off, rest, nibbles := 1, number, 0;
    forall i | 0 <= i < data.Length {
      data[i] := 0;
    }
    FilledNone(data[..], number);
    ShiftedOut(number, 0);
    ShiftedNone(number);
    while rest != 0
      invariant 1 <= off <= Nibbles(number) + 1 && rest == Shifted(number, off - 1) && Filled(data[..], number, off)
      decreases rest
    {
      ShiftedOut(number, off - 1);
      ShiftedStep(number, off - 1);
      FilledMore(data[..], number, off);
      PutNibble(data, off, rest % 16);
      rest := rest / 16;
      off := off + 1;
    }
    ShiftedOut(number, off - 1);
    ZeroHasNone(number);
    if off > 2 {
      nibbles := off - 2;
    }
    FilledAll(data[..], number);
    ghost var s := data[..][0 := data[0] % 16 + nibbles % 16 * 16];
    data[0] := data[0] % 16 + nibbles % 16 * 16;
    assert data[..] == s;
    len := (off + 1) / 2;
    assert data[..len] == s[..len];
  }

  lemma ShiftedNone(n: nat)
    ensures Shifted(n, 0) == n
  {}

  /** Appends the code of a number; nobody is told if the buffer refuses it. */
  method EncodeInt(buf: EvBuffer, number: nat)
    requires buf.Valid() && number < UINT32
    modifies buf.Repr
    ensures buf.Valid() && fresh(buf.Repr - old(buf.Repr))
    ensures buf.Contents() == Added(old(buf.Contents()), old(buf.freezeEnd), LengthCode(number))
    ensures buf.freezeStart == old(buf.freezeStart) && buf.freezeEnd == old(buf.freezeEnd)
  {
    hide EvBuffer.Valid, EvBuffer.Contents, Power16, Nibbles;
    Length(buf);
    LengthFits(number);
    var data := new Byte[5];
    var len := EncodeIntInternal(data, number, 8);
    var _ := buf.Add(data[..len]);
  }

  lemma TagUnfold(tag: nat)
    ensures TagCode(tag) == if tag / 128 == 0 then [(tag % 128) as Byte] else [(128 + tag % 128) as Byte] + TagCode(tag / 128)
  {}

  /** Writes the code of a tag into `data`. */
  method EncodeTagInternal(data: array<Byte>, tag: nat) returns (bytes: nat)
    requires tag < UINT32 && data.Length == 5
    modifies data
    ensures bytes == |TagCode(tag)| <= 5 && data[..bytes] == TagCode(tag)
  {
    hide TagCode;
    TagRoundTrip(tag, []);
    assert TagCode(tag) + [] == TagCode(tag);
    var rest: nat := tag;
    bytes := 0;
    TagUnfold(rest);
    while rest >= 128
      invariant bytes + |TagCode(rest)| == |TagCode(tag)| <= 5 && data[..bytes] + TagCode(rest) == TagCode(tag)
      invariant TagCode(rest) == if rest / 128 == 0 then [(rest % 128) as Byte] else [(128 + rest % 128) as Byte] + TagCode(rest / 128)
      modifies data
    {
      TagUnfold(rest / 128);
      ghost var done, code := data[..bytes], TagCode(rest / 128);
      data[bytes] := rest % 128 + 128;
      Assoc(done, [data[bytes]], code);
      bytes := bytes + 1;
      rest := rest / 128;
      assert data[..bytes] == done + [data[bytes - 1]];
    }
    ghost var done := data[..bytes];
    data[bytes] := rest % 128;
    bytes := bytes + 1;
    assert data[..bytes] == done + [data[bytes - 1]];
  }

  /** Appends the code of a tag; the result is its length, even if the buffer refuses it. */
  method EncodeTag(buf: EvBuffer, tag: nat) returns (bytes: nat)
    requires buf.Valid() && tag < UINT32
    modifies buf.Repr
    ensures buf.Valid() && fresh(buf.Repr - old(buf.Repr))
    ensures buf.Contents() == Added(old(buf.Contents()), old(buf.freezeEnd), TagCode(tag))
    ensures bytes == |TagCode(tag)| <= 5
    ensures buf.freezeStart == old(buf.freezeStart) && buf.freezeEnd == old(buf.freezeEnd)
  {
    hide EvBuffer.Valid, EvBuffer.Contents;
    Length(buf);
    var data := new Byte[5];
    bytes := EncodeTagInternal(data, tag);
    var _ := buf.Add(data[..bytes]);
  }

  /** The five bytes that have been made contiguous are not the end of the tag, nor too much for 32 bits: the code looks at a sixth
      one before it finds that a tag does not have that many. */
  predicate Strays(s: seq<Byte>) {
    |s| > 5 && (forall i :: 0 <= i < 5 ==> s[i] >= 128) && s[4] % 128 <= 15
  }

  /** And the memory of the first block ends after the five. */
  ghost predicate RunsOut(buf: EvBuffer)
    requires buf.Valid()
    reads buf, buf.Repr
  {
    Strays(buf.Contents()) && buf.first != null && buf.first.buffer.Length - buf.first.misalign == 5
  }

  /** What is written does not lead there. */
  lemma CodesDoNotStray(tag: nat, rest: seq<Byte>)
    requires tag < UINT32
    ensures !Strays(TagCode(tag) + rest)
  {
    hide ReadTagFrom, TagCode;
    TagRoundTrip(tag, rest);
    if Strays(TagCode(tag) + rest) {
      StraysIsNoTag(TagCode(tag) + rest);
    }
  }

  lemma StraysIsNoTag(s: seq<Byte>)
    requires Strays(s)
    ensures ReadTag(s) == None
  {
    assert ReadTagFrom(s, 5) == None;
    assert ReadTagFrom(s, 4) == None;
    assert ReadTagFrom(s, 3) == None;
    assert ReadTagFrom(s, 2) == None;
    assert ReadTagFrom(s, 1) == None;
  }

  /** Reads the tag at the front of a buffer and drains it if asked to; the result is its length, or -1.  It looks at a byte out of
      the memory of the first block just when the tag leads it to a sixth byte and the block ends after five. */
  method DecodeTagInternal(buf: EvBuffer, dodrain: bool) returns (result: int, tag: nat, outOfBounds: bool)
    requires buf.Valid()
    modifies buf.Repr
    ensures outOfBounds <==> old(RunsOut(buf))
    ensures buf.Valid() && fresh(buf.Repr - old(buf.Repr))
    ensures buf.freezeStart == old(buf.freezeStart) && buf.freezeEnd == old(buf.freezeEnd)
    ensures match ReadTag(old(buf.Contents())) {
              case None => result == -1 && buf.Contents() == old(buf.Contents())
              case Some((n, value)) => result == n && tag == value && buf.Contents() == old(buf.Contents())[if dodrain && !buf.freezeStart then n else 0..]
            }
  {
    hide EvBuffer.Valid, EvBuffer.Contents, ReadTagFrom;
    Length(buf);
    var len := buf.totalLen;
    ghost var s := buf.Contents();
    tag, outOfBounds := 0, false;
    var chain := Pullup(buf, if len < 5 then len else 5);
    if chain == null {
      NoTag(s);
      return -1, 0, false;
    }
    result, tag, outOfBounds := ReadTagBytes(chain.buffer, chain.misalign, len, s);
    assert s[0..] == s;
    if result != -1 && dodrain {
      Length(buf);
      var _ := buf.Drain(result);
    }
  }

  lemma Length(buf: EvBuffer)
    requires buf.Valid()
    ensures buf.totalLen == |buf.Contents()| && buf in buf.Repr
  {}

  lemma NoTag(s: seq<Byte>)
    ensures s == [] ==> ReadTag(s) == None
  {}

  function Power128(k: nat): (p: nat)
    ensures p > 0
  {
    if k == 0 then 1 else 128 * Power128(k - 1)
  }

  /** What the tag is, given what has been read of it. */
  function Resumed(number: nat, i: nat, r: Option<(nat, nat)>): Option<(nat, nat)> {
    match r
    case None => None
    case Some((end, value)) => Some((end, number + Power128(i) * value))
  }

  lemma Distribute(p: nat, x: nat, v: nat)
    ensures p * (x + 128 * v) == x * p + (128 * p) * v
  {
    assert p * (x + 128 * v) == p * x + p * (128 * v);
    assert p * (128 * v) == (128 * p) * v;
  }

  lemma ReadOn(s: seq<Byte>, i: nat, number: nat)
    requires i < |s| && i <= 4 && !(i == 4 && s[i] % 128 > 15)
    ensures s[i] < 128 ==> Resumed(number, i, ReadTagFrom(s, i)) == Some((i + 1, number + s[i] % 128 * Power128(i)))
    ensures s[i] >= 128 ==> Resumed(number, i, ReadTagFrom(s, i)) == Resumed(number + s[i] % 128 * Power128(i), i + 1, ReadTagFrom(s, i + 1))
  {
    hide Power128;
    NextPower(i);
    var low := s[i] % 128;
    Distribute(Power128(i), low, 0);
    if s[i] >= 128 && ReadTagFrom(s, i + 1).Some? {
      Distribute(Power128(i), low, ReadTagFrom(s, i + 1).value.1);
    }
  }

  lemma NextPower(i: nat)
    ensures Power128(i + 1) == 128 * Power128(i)
  {}

  lemma ReadNoMore(s: seq<Byte>, i: nat)
    requires i >= |s| || i > 4 || (i == 4 && s[i] % 128 > 15)
    ensures ReadTagFrom(s, i) == None
  {}

  /** Reads the tag at `a[at..]`, where the first five bytes of `s` are, or all if it has fewer. */
  method ReadTagBytes(a: array<Byte>, at: nat, len: nat, ghost s: seq<Byte>) returns (result: int, tag: nat, outOfBounds: bool)
    requires len == |s| && at + (if len < 5 then len else 5) <= a.Length
    requires a[at..at + if len < 5 then len else 5] == s[..if len < 5 then len else 5]
    ensures match ReadTag(s) {
              case None => result == -1
              case Some((n, value)) => result == n && tag == value
            }
    ensures outOfBounds <==> Strays(s) && at + 5 == a.Length
  {
    hide ReadTagFrom, Power128;
    var number: nat, count: nat, shift := 0, 0, 0;
    OneAtFirst(ReadTagFrom(s, 0));
    while count < len
      invariant count <= len && shift == 7 * count && count <= 5
      invariant (forall i :: 0 <= i < count ==> s[i] >= 128) && (count == 5 ==> s[4] % 128 <= 15)
      invariant Resumed(number, count, ReadTagFrom(s, count)) == ReadTag(s)
    {
      if at + count == a.Length {
        // the next byte is not in the block
        ReadNoMore(s, count);
        return -1, 0, true;
      }
      var lower := a[at + count];
      if shift > 28 {
        // no more than 32 bits
        ReadNoMore(s, count);
        return -1, 0, false;
      }
      assert lower == a[at..at + if len < 5 then len else 5][count] == s[count];
      if shift == 28 && lower % 128 > 15 {
        ReadNoMore(s, count);
        return -1, 0, false;
      }
      ReadOn(s, count, number);
      number := number + lower % 128 * Power128(count);
      count := count + 1;
      shift := shift + 7;
      if lower < 128 {
        return count, number, false;
      }
    }
    ReadNoMore(s, count);
    return -1, 0, false;
  }

  lemma OneAtFirst(r: Option<(nat, nat)>)
    ensures Resumed(0, 0, r) == r
  {
    assert Power128(0) == 1;
  }

  /** Reads the nibbles of a number, the last one first. */
  method ReadNibbles(a: array<Byte>, at: nat, k: nat, ghost s: seq<Byte>) returns (number: nat)
    requires k / 2 < |s| && at + k / 2 < a.Length && a[at..at + k / 2 + 1] == s[..k / 2 + 1]
    ensures number == ValueOf(s, 1, k)
  {
    number := 0;
    var nibbles: nat := k;
    while nibbles > 0
      invariant nibbles <= k && number == ValueOf(s, nibbles + 1, k)
    {
      var b := a[at + nibbles / 2];
      assert b == a[at..at + k / 2 + 1][nibbles / 2] == s[nibbles / 2];
      if nibbles % 2 == 1 {
        number := number * 16 + b % 16;
      } else {
        number := number * 16 + b / 16;
      }
      nibbles := nibbles - 1;
    }
  }

  /** Reads the number that starts `offset` bytes into a buffer; the result is its length, or -1. */
  method DecodeIntInternal(buf: EvBuffer, offset: nat, maxNibbles: nat) returns (result: int, number: nat)
    requires buf.Valid() && offset <= 5 && maxNibbles <= 16
    modifies buf.Repr
    ensures buf.Valid() && fresh(buf.Repr - old(buf.Repr)) && buf.Contents() == old(buf.Contents())
    ensures buf.freezeStart == old(buf.freezeStart) && buf.freezeEnd == old(buf.freezeEnd)
    ensures var s := buf.Contents();
            match if offset <= |s| then ReadInt(s[offset..], maxNibbles) else None {
              case None => result == -1
              case Some((n, value)) => result == n && number == value
            }
  {
    hide InBlock, EvBuffer.Valid, EvBuffer.Contents, ValueOf;
    Length(buf);
    ghost var s := buf.Contents();
    var len := buf.totalLen - offset;
    if len <= 0 {
      return -1, 0;
    }
    var chain := Pullup(buf, offset + 1);
    var b := chain.buffer[chain.misalign + offset];
    ByteOf(chain.buffer, chain.misalign, offset, s, offset + 1);
    var nibbles := b / 16 + 1;
    if nibbles > maxNibbles || nibbles / 2 + 1 > len {
      return -1, 0;
    }
    len := nibbles / 2 + 1;
    Length(buf);
    chain := Pullup(buf, offset + len);
    SliceOf(chain.buffer, chain.misalign, offset, s, offset + len);
    number := ReadNibbles(chain.buffer, chain.misalign + offset, nibbles, s[offset..]);
    result := len;
  }

  lemma ByteOf(a: array<Byte>, at: nat, i: nat, s: seq<Byte>, n: nat)
    requires i < n <= |s| && at + n <= a.Length && a[at..at + n] == s[..n]
    ensures a[at + i] == s[i]
  {
    assert a[at..at + n][i] == s[..n][i];
  }

  lemma SliceOf(a: array<Byte>, at: nat, i: nat, s: seq<Byte>, n: nat)
    requires i <= n <= |s| && at + n <= a.Length && a[at..at + n] == s[..n]
    ensures a[at + i..at + n] == s[i..][..n - i]
  {
    assert a[at + i..at + n] == a[at..at + n][i..];
  }

  /** Reads a number off the front of a buffer; while its start is frozen, the number stays there. */
  method DecodeInt(buf: EvBuffer) returns (result: int, number: nat)
    requires buf.Valid()
    modifies buf.Repr
    ensures buf.Valid() && fresh(buf.Repr - old(buf.Repr))
    ensures buf.freezeStart == old(buf.freezeStart) && buf.freezeEnd == old(buf.freezeEnd)
    ensures match ReadInt(old(buf.Contents()), 8) {
              case None => result == -1 && buf.Contents() == old(buf.Contents())
              case Some((n, value)) => result == 0 && number == value && buf.Contents() == old(buf.Contents())[if buf.freezeStart then 0 else n..]
            }
  {
    hide EvBuffer.Valid, EvBuffer.Contents, ReadInt;
    assert buf.Contents()[0..] == buf.Contents();
    var res;
    res, number := DecodeIntInternal(buf, 0, 8);
    if res != -1 {
      Length(buf);
      var _ := buf.Drain(res);
      return 0, number;
    }
    result := -1;
  }

  /** Tells the length of the record at the front of a buffer. */
  method PeekLength(buf: EvBuffer) returns (result: int, length: nat, outOfBounds: bool)
    requires buf.Valid()
    modifies buf.Repr
    ensures outOfBounds <==> old(RunsOut(buf))
    ensures buf.Valid() && fresh(buf.Repr - old(buf.Repr)) && buf.Contents() == old(buf.Contents())
    ensures match PeekedLength(old(buf.Contents())) {
              case None => result == -1
              case Some(n) => result == 0 && length == n
            }
    ensures buf.freezeStart == old(buf.freezeStart) && buf.freezeEnd == old(buf.freezeEnd)
  {
    hide EvBuffer.Valid, EvBuffer.Contents, ReadInt, ReadTag;
    ghost var s := buf.Contents();
    assert s[0..] == s;
    var len, _, strayed := DecodeTagInternal(buf, false);
    outOfBounds := strayed;
    if len == -1 {
      return -1, 0, outOfBounds;
    }
    var res;
    res, length := DecodeIntInternal(buf, len, 8);
    if res == -1 {
      return -1, 0, outOfBounds;
    }
    length := (length + res + len) % UINT32;
    result := 0;
  }

  /** What is left of a buffer once the head of a record has been read, as far as that goes. */
  function PastHead(s: seq<Byte>): seq<Byte> {
    match ReadTag(s)
    case None => s
    case Some((n, _)) =>
      match ReadInt(s[n..], 8)
      case None => s[n..]
      case Some((m, _)) => s[n..][m..]
  }

  /** Reads the head of a record off the front of a buffer; the result is the length of the payload, or -1. */
  method UnmarshalHeader(buf: EvBuffer) returns (result: int, tag: nat, outOfBounds: bool)
    requires buf.Valid() && !buf.freezeStart && buf.totalLen <= INT_MAX
    modifies buf.Repr
    ensures outOfBounds <==> old(RunsOut(buf))
    ensures buf.Valid() && fresh(buf.Repr - old(buf.Repr)) && buf.Contents() == PastHead(old(buf.Contents()))
    ensures buf.freezeStart == old(buf.freezeStart) && buf.freezeEnd == old(buf.freezeEnd)
    ensures match ReadHead(old(buf.Contents())) {
              case None => result == -1
              case Some((t, at, len)) =>
                if |old(buf.Contents())| - at < len then result == -1 else result == len && tag == t
            }
  {
    hide EvBuffer.Valid, EvBuffer.Contents, ReadInt, ReadTag;
    Length(buf);
    var len;
    result, tag, outOfBounds := DecodeTagInternal(buf, true);
    if result == -1 {
      return -1, 0, outOfBounds;
    }
    result, len := DecodeInt(buf);
    if result == -1 {
      return -1, 0, outOfBounds;
    }
    Length(buf);
    if buf.totalLen < len {
      return -1, 0, outOfBounds;
    }
    result := len;
  }

  lemma HeadThenPayload(s: seq<Byte>)
    requires ReadHead(s).Some?
    ensures PastHead(s) == s[ReadHead(s).value.1..]
  {}

  /** Drains a record. */
  method Consume(buf: EvBuffer) returns (result: int, outOfBounds: bool)
    requires buf.Valid() && !buf.freezeStart && buf.totalLen <= INT_MAX
    modifies buf.Repr
    ensures outOfBounds <==> old(RunsOut(buf))
    ensures buf.Valid() && fresh(buf.Repr - old(buf.Repr))
    ensures buf.freezeStart == old(buf.freezeStart) && buf.freezeEnd == old(buf.freezeEnd)
    ensures match ReadRecord(old(buf.Contents())) {
              case None => result == -1 && buf.Contents() == PastHead(old(buf.Contents()))
              case Some((_, rest)) => result == 0 && buf.Contents() == rest
            }
  {
    hide EvBuffer.Valid, EvBuffer.Contents, ReadHead, PastHead;
    Length(buf);
    ghost var s := buf.Contents();
    var len, _, strayed := UnmarshalHeader(buf);
    outOfBounds := strayed;
    if len == -1 {
      return -1, outOfBounds;
    }
    HeadThenPayload(s);
    Length(buf);
    var _ := buf.Drain(len);
    result := 0;
  }

  /** Reads a record off the front of a buffer and appends its payload to another; the result is the payload's length. */
  method Unmarshal(src: EvBuffer, dst: EvBuffer) returns (result: int, tag: nat, outOfBounds: bool)
    requires src.Valid() && dst.Valid() && src.Repr !! dst.Repr && !src.freezeStart && src.totalLen <= INT_MAX
    requires Takes(dst, src.totalLen)
    modifies src.Repr, dst.Repr
    ensures outOfBounds <==> old(RunsOut(src))
    ensures src.Valid() && dst.Valid() && src.Repr !! dst.Repr
    ensures fresh(src.Repr - old(src.Repr)) && fresh(dst.Repr - old(dst.Repr))
    ensures src.freezeStart == old(src.freezeStart) && src.freezeEnd == old(src.freezeEnd)
    ensures match ReadRecord(old(src.Contents())) {
              case None =>
                result == -1 && src.Contents() == PastHead(old(src.Contents())) && dst.Contents() == old(dst.Contents())
              case Some((r, rest)) =>
                && result == |r.payload| && tag == r.tag && src.Contents() == rest
                && dst.Contents() == old(dst.Contents()) + r.payload
            }
  {
    hide Strays, EvBuffer.Valid, EvBuffer.Contents, ReadHead, PastHead;
    Length(src);
    Length(dst);
    ghost var s := src.Contents();
    result, tag, outOfBounds := UnmarshalHeader(src);
    if result == -1 {
      return;
    }
    HeadThenPayload(s);
    Length(src);
    var payload := Front(src, result);
    var ok := dst.Add(payload);
    Length(src);
    var _ := src.Drain(result);
  }

  /** The first `n` bytes of a buffer, made contiguous. */
  method Front(buf: EvBuffer, n: nat) returns (bytes: seq<Byte>)
    requires buf.Valid() && n <= buf.totalLen && n <= MAX_REQUEST
    modifies buf.Repr
    ensures buf.Valid() && fresh(buf.Repr - old(buf.Repr)) && buf.Contents() == old(buf.Contents()) && n <= |buf.Contents()|
    ensures bytes == buf.Contents()[..n]
    ensures buf.freezeStart == old(buf.freezeStart) && buf.freezeEnd == old(buf.freezeEnd)
  {
    hide InBlock, EvBuffer.Valid, EvBuffer.Contents;
    Length(buf);
    var chain := Pullup(buf, n);
    bytes := if chain == null then [] else chain.buffer[chain.misalign..chain.misalign + n];
  }

  /** Appends a record: its three parts, each unless the buffer refuses it. */
  method Marshal(buf: EvBuffer, tag: nat, data: seq<Byte>)
    requires buf.Valid() && tag < UINT32 && |data| < UINT32
    modifies buf.Repr
    ensures buf.Valid() && fresh(buf.Repr - old(buf.Repr))
    ensures var c, f := old(buf.Contents()), old(buf.freezeEnd);
            buf.Contents() == Added(Added(Added(c, f, TagCode(tag)), f, LengthCode(|data|)), f, data)
    ensures old(Takes(buf, |data| + 10)) ==> buf.Contents() == old(buf.Contents()) + TagCode(tag) + LengthCode(|data|) + data
    ensures buf.freezeStart == old(buf.freezeStart) && buf.freezeEnd == old(buf.freezeEnd)
  {
    hide EvBuffer.Valid, EvBuffer.Contents, TagCode, LengthCode, Power16, Nibbles;
    Length(buf);
    LengthFits(|data|);
    var _ := EncodeTag(buf, tag);
    Length(buf);
    EncodeInt(buf, |data|);
    Length(buf);
    var _ := buf.Add(data);
  }

  /** Appends records to a buffer. */
  method MarshalAll(buf: EvBuffer, rs: seq<Record>)
    requires buf.Valid() && !buf.freezeEnd
    requires (forall r :: r in rs ==> WellFormed(r)) && |buf.Contents()| + |StreamCode(rs)| <= INT_MAX
    modifies buf.Repr
    ensures buf.Valid() && fresh(buf.Repr - old(buf.Repr)) && buf.Contents() == old(buf.Contents()) + StreamCode(rs)
    ensures buf.freezeStart == old(buf.freezeStart) && buf.freezeEnd == old(buf.freezeEnd)
  {
    hide EvBuffer.Valid, EvBuffer.Contents, StreamCode, TagCode, LengthCode;
    var i := 0;
    assert rs[0..] == rs;
    while i < |rs|
      invariant i <= |rs| && buf.Valid() && fresh(buf.Repr - old(buf.Repr))
      invariant buf.Contents() + StreamCode(rs[i..]) == old(buf.Contents()) + StreamCode(rs)
      invariant buf.freezeStart == old(buf.freezeStart) && buf.freezeEnd == old(buf.freezeEnd)
    {
      Length(buf);
      assert rs[i..][1..] == rs[i + 1..];
      NextRecord(rs[i..]);
      ghost var done := buf.Contents();
      RecordLength(rs[i]);
      Marshal(buf, rs[i].tag, rs[i].payload);
      Assoc(done, TagCode(rs[i].tag) + LengthCode(|rs[i].payload|), rs[i].payload);
      Assoc(done, TagCode(rs[i].tag), LengthCode(|rs[i].payload|));
      Assoc(done, RecordCode(rs[i]), StreamCode(rs[i + 1..]));
      i := i + 1;
    }
    assert rs[i..] == [];
    NextRecord([]);
  }

  lemma NextRecord(rs: seq<Record>)
    requires forall r :: r in rs ==> WellFormed(r)
    ensures StreamCode(rs) == if rs == [] then [] else RecordCode(rs[0]) + StreamCode(rs[1..])
    ensures rs == [] ==> forall s: seq<Byte> :: s + StreamCode(rs) == s
    ensures rs != [] ==> StreamCode(rs) != []
  {}

  lemma RecordLength(r: Record)
    requires WellFormed(r)
    ensures |r.payload| <= |RecordCode(r)|
  {}

  lemma RecordsDoNotStray(r: Record, rest: seq<Byte>)
    requires WellFormed(r)
    ensures !Strays(RecordCode(r) + rest)
  {
    hide TagCode, LengthCode, Strays;
    CodesDoNotStray(r.tag, LengthCode(|r.payload|) + r.payload + rest);
    assert TagCode(r.tag) + (LengthCode(|r.payload|) + r.payload + rest) == RecordCode(r) + rest;
  }

  lemma NoBlocks(buf: EvBuffer)
    requires buf.Valid() && buf.spine == []
    ensures buf.parts == [] && UsedBlocks(buf.parts, buf.lwd) == 0
  {}

  lemma OneBlock(buf: EvBuffer, c: Chain, d: seq<Byte>)
    requires buf.Valid() && buf.spine == [c] && buf.parts == [d] && d != []
    ensures UsedBlocks(buf.parts, buf.lwd) == 1
  {}

  method FiveThenOne() returns (front: Chain, back: Chain)
    ensures fresh(front) && fresh(front.buffer) && front.Valid() && front.next == null && front.immutable && front.buffer.Length == 5
    ensures fresh(back) && fresh(back.buffer) && back.Valid() && back.next == null && back != front && back.buffer != front.buffer
    ensures front.Data() == [128, 128, 128, 128, 128] && back.Data() == [0]
  {
    var user := new Byte[5](_ => 128);
    front := new Chain.Reference(user);
    back := new Chain(1);
    back.AppendData([0]);
  }

  /** A buffer of two blocks, of which the first one is the user's memory. */
  method FiveAndOne() returns (buf: EvBuffer)
    ensures buf.Valid() && fresh(buf.Repr) && Strays(buf.Contents())
    ensures buf.first != null && buf.first.buffer.Length - buf.first.misalign == 5
  {
    hide EvBuffer.Valid, EvBuffer.Contents, UsedBlocks, Strays, Chain.Valid, Chain.Data;
    var front, back := FiveThenOne();
    ghost var five, one := front.Data(), back.Data();
    buf := new EvBuffer();
    NoBlocks(buf);
    buf.ChainInsert(front);
    OneBlock(buf, front, five);
    buf.ChainInsert(back);
    FrontEndsThere(buf, front, back, five, one);
  }

  lemma FrontEndsThere(buf: EvBuffer, front: Chain, back: Chain, five: seq<Byte>, one: seq<Byte>)
    requires buf.Valid() && buf.spine == [front, back] && buf.parts == [five, one] && front.immutable && front.buffer.Length == 5
    requires five == [128, 128, 128, 128, 128] && one == [0]
    ensures buf.first == front && front.misalign == 0 && Strays(buf.Contents())
  {
    buf.BlockAt(0);
    FlattenOne(one);
    assert buf.parts[1..] == [one];
    assert buf.Contents() == five + one;
  }

  /** A tag of six bytes, of which the block at the front of the buffer holds five, sends the code out of that block. */
  method SixthByte() returns (outOfBounds: bool)
    ensures outOfBounds
  {
    hide EvBuffer.Valid, EvBuffer.Contents, Strays;
    var buf := FiveAndOne();
    var _, _, strayed := DecodeTagInternal(buf, false);
    outOfBounds := strayed;
  }

  /** Records written to a buffer are read back one by one, with nothing left over. */
  method WriteAndRead(rs: seq<Record>) returns (back: seq<Record>)
    requires (forall r :: r in rs ==> WellFormed(r)) && |StreamCode(rs)| <= INT_MAX
    ensures back == rs
  {
    hide EvBuffer.Valid, EvBuffer.Contents, StreamCode, ReadRecord, RecordCode;
    var buf := new EvBuffer();
    Length(buf);
    MarshalAll(buf, rs);
    assert [] + StreamCode(rs) == StreamCode(rs);
    back := [];
    ghost var i := 0;
    assert rs[0..] == rs && rs[..0] == [];
    Length(buf);
    while buf.totalLen != 0
      invariant i <= |rs| && back == rs[..i] && buf.Valid() && fresh(buf.Repr) && !buf.freezeStart
      invariant buf.Contents() == StreamCode(rs[i..]) && buf.totalLen == |buf.Contents()| <= INT_MAX
      decreases |rs| - i
    {
      NextRecord(rs[i..]);
      assert rs[i..] != [];
      RecordRoundTrip(rs[i], StreamCode(rs[i..][1..]));
      RecordsDoNotStray(rs[i], StreamCode(rs[i..][1..]));
      assert rs[i..][1..] == rs[i + 1..] && rs[i..][0] == rs[i];
      var dst := new EvBuffer();
      Length(dst);
      var n, tag, outOfBounds := Unmarshal(buf, dst);
      assert !outOfBounds;
      Length(dst);
      Length(buf);
      var payload := Front(dst, n);
      PayloadIs(dst.Contents(), payload, rs[i].payload, n);
      back := back + [Record(tag, payload)];
      i := i + 1;
    }
    NextRecord(rs[i..]);
    assert rs[i..] == [];
  }

  lemma PayloadIs(s: seq<Byte>, front: seq<Byte>, payload: seq<Byte>, n: nat)
    requires s == [] + payload && n == |payload| && front == s[..n]
    ensures front == payload
  {}
}
