/** The wire format of tagged records: numbers in nibbles, tags in base 128, and what reading them back gives. */
module TagCodec {
  import opened ByteSeq
  import opened Options

  const UINT32 := 0x1_0000_0000
  const INT_MAX := 0x7fff_ffff

  // Numbers: the count of nibbles less one, then the nibbles, lowest first

  /** How many nibbles a number has; zero has none. */
  function Nibbles(n: nat): nat {
    if n == 0 then 0 else 1 + Nibbles(n / 16)
  }

  /** The `i`-th nibble of a number, counted from the lowest. */
  function Nibble(n: nat, i: nat): (d: nat)
    ensures d < 16
  {
    if i == 0 then n % 16 else Nibble(n / 16, i - 1)
  }

  function Power16(k: nat): (p: nat)
    ensures p > 0
  {
    if k == 0 then 1 else 16 * Power16(k - 1)
  }

  lemma {:induction false} NibblesBound(n: nat, k: nat)
    requires n < Power16(k)
    ensures Nibbles(n) <= k
  {
    if n > 0 {
      NibblesBound(n / 16, k - 1);
    }
  }

  /** Nibbles past the last one are zero. */
  lemma {:induction false} NibblePast(n: nat, i: nat)
    requires i >= Nibbles(n)
    ensures Nibble(n, i) == 0
  {
    if i > 0 {
      NibblePast(n / 16, i - 1);
    }
  }

  /** The nibble at place `i` of the code of a number: the header at place 0, then the number's. */
  function CodeNibble(n: nat, i: nat): (d: nat) {
    if i == 0 then (if n == 0 then 0 else Nibbles(n) - 1) else Nibble(n, i - 1)
  }

  /** The code of a number of at most 16 nibbles, two nibbles in a byte, the earlier one in the upper half. */
  function IntCode(n: nat): (s: seq<Byte>)
    requires Nibbles(n) <= 16
    ensures |s| == Nibbles(n) / 2 + 1
  {
    seq(Nibbles(n) / 2 + 1, j requires 0 <= j <= Nibbles(n) / 2 => (16 * CodeNibble(n, 2 * j) + CodeNibble(n, 2 * j + 1)) as Byte)
  }

  /** The nibble at place `i` of a byte string. */
  function NibbleAt(s: seq<Byte>, i: nat): (d: nat)
    requires i / 2 < |s|
    ensures d < 16
  {
    if i % 2 == 0 then s[i / 2] / 16 else s[i / 2] % 16
  }

  /** The number whose nibbles, lowest first, are at the places `i` to `k` of `s`. */
  function ValueOf(s: seq<Byte>, i: nat, k: nat): nat
    requires k / 2 < |s| && i <= k + 1
    decreases k + 1 - i
  {
    if i > k then 0 else NibbleAt(s, i) + 16 * ValueOf(s, i + 1, k)
  }

  /** Reads a number of at most `maxNibbles` nibbles; the result is its length in bytes and its value. */
  function ReadInt(s: seq<Byte>, maxNibbles: nat): (r: Option<(nat, nat)>)
    ensures r.Some? ==> 0 < r.value.0 <= |s|
  {
    if s == [] then None
    else
      var k := s[0] / 16 + 1;
      if k > maxNibbles || k / 2 + 1 > |s| then None else Some((k / 2 + 1, ValueOf(s, 1, k)))
  }

  lemma CodeNibbleAt(n: nat, rest: seq<Byte>, i: nat)
    requires Nibbles(n) <= 16 && i <= Nibbles(n) + 1 && i / 2 <= Nibbles(n) / 2
    ensures i / 2 < |IntCode(n) + rest| && NibbleAt(IntCode(n) + rest, i) == CodeNibble(n, i)
  {
    hide Nibbles, Nibble;
    var j := i / 2;
    assert (IntCode(n) + rest)[j] == 16 * CodeNibble(n, 2 * j) + CodeNibble(n, 2 * j + 1);
  }

  /** A number without its `i` lowest nibbles. */
  function Shifted(n: nat, i: nat): nat {
    if i == 0 then n else Shifted(n / 16, i - 1)
  }

  lemma {:induction false} ShiftedStep(n: nat, i: nat)
    ensures Shifted(n, i) == Nibble(n, i) + 16 * Shifted(n, i + 1)
    ensures Shifted(n, i) / 16 == Shifted(n, i + 1) && Shifted(n, i) % 16 == Nibble(n, i)
  {
    if i > 0 {
      ShiftedStep(n / 16, i - 1);
    }
  }

  lemma {:induction false} ShiftedOut(n: nat, i: nat)
    ensures Shifted(n, i) == 0 <==> i >= Nibbles(n)
    ensures i <= Nibbles(n) ==> Nibbles(Shifted(n, i)) == Nibbles(n) - i
  {
    if i > 0 && n > 0 {
      ShiftedOut(n / 16, i - 1);
    } else if i > 0 {
      ShiftedOut(0, i - 1);
    }
  }

  lemma {:induction false} ValueIs(n: nat, rest: seq<Byte>, i: nat, k: nat)
    requires Nibbles(n) <= 16 && k == (if n == 0 then 1 else Nibbles(n)) && 1 <= i <= k + 1
    ensures k / 2 < |IntCode(n) + rest| && ValueOf(IntCode(n) + rest, i, k) == Shifted(n, i - 1)
    decreases k + 1 - i
  {
    hide IntCode, Nibble;
    if i > k {
      ShiftedOut(n, i - 1);
    } else {
      ValueIs(n, rest, i + 1, k);
      CodeNibbleAt(n, rest, i);
      ShiftedStep(n, i - 1);
    }
  }

  /** A number is read back as it was written, whatever follows it. */
  lemma IntRoundTrip(n: nat, rest: seq<Byte>, maxNibbles: nat)
    requires n < Power16(maxNibbles) && 0 < maxNibbles <= 16
    ensures Nibbles(n) <= maxNibbles && ReadInt(IntCode(n) + rest, maxNibbles) == Some((|IntCode(n)|, n))
  {
    hide IntCode, Nibble, Power16, Nibbles;
    NibblesBound(n, maxNibbles);
    CodeNibbleAt(n, rest, 0);
    ZeroHasNone(n);
    ValueIs(n, rest, 1, if n == 0 then 1 else Nibbles(n));
    ShiftedOut(n, 0);
  }

  lemma ZeroHasNone(n: nat)
    ensures Nibbles(n) == 0 <==> n == 0
  {}

  // The format, digit by digit

  /** A nibble is the hexadecimal digit at its place. */
  lemma {:induction false} NibbleIs(n: nat, i: nat) returns (high: nat, low: nat)
    ensures n == (16 * high + Nibble(n, i)) * Power16(i) + low && low < Power16(i)
  {
    if i == 0 {
      high, low := n / 16, 0;
    } else {
      high, low := NibbleIs(n / 16, i - 1);
      var x, p := 16 * high + Nibble(n, i), Power16(i - 1);
      assert x * (16 * p) == 16 * (x * p);
      low := 16 * low + n % 16;
    }
  }

  lemma {:induction false} NibblesIs(n: nat, k: nat)
    ensures Nibbles(n) <= k <==> n < Power16(k)
  {
    if n > 0 && k > 0 {
      NibblesIs(n / 16, k - 1);
    }
  }

  /** The first half byte tells how many hexadecimal digits there are, less one; they follow from the lowest on, and fill the bytes
      from the upper half of each to the lower. */
  lemma IntFormat(n: nat, i: nat)
    requires n < Power16(16) && i < (if n == 0 then 1 else Nibbles(n))
    ensures Nibbles(n) <= 16 && |IntCode(n)| == Nibbles(n) / 2 + 1 && (n > 0 ==> Power16(Nibbles(n) - 1) <= n < Power16(Nibbles(n)))
    ensures IntCode(n)[0] / 16 == (if n == 0 then 0 else Nibbles(n) - 1) as Byte
    ensures if i % 2 == 0 then IntCode(n)[i / 2] % 16 == Nibble(n, i) as Byte
            else IntCode(n)[(i + 1) / 2] / 16 == Nibble(n, i) as Byte
  {
    hide Nibbles, Nibble, Power16, IntCode;
    NibblesIs(n, 16);
    NibblesIs(n, Nibbles(n));
    if n > 0 {
      NibblesIs(n, Nibbles(n) - 1);
    }
    ZeroHasNone(n);
    CodeNibbleAt(n, [], 0);
    CodeNibbleAt(n, [], i + 1);
    assert IntCode(n) + [] == IntCode(n);
  }

  /** Bytes worked out by hand. */
  lemma Examples()
    ensures Nibbles(0x1234) == 4 && IntCode(0) == [0x00] && IntCode(0x1234) == [0x34, 0x32, 0x10]
    ensures TagCode(0x7f) == [0x7f] && TagCode(0x2a5) == [0xa5, 0x05]
  {
    assert Nibbles(0x12) == 2;
    assert IntCode(0x1234)[0] == 0x34;
    assert IntCode(0x1234)[1] == 0x32;
    assert Nibble(0x1234, 3) == Nibble(0x12, 1) == 1;
    assert Nibble(0x1234, 4) == Nibble(0x12, 2) == Nibble(0, 0) == 0;
    assert IntCode(0x1234)[2] == 0x10;
  }

  // Tags: seven bits in a byte, lowest first, and a high bit in all bytes but the last

  function TagCode(tag: nat): (s: seq<Byte>)
    ensures |s| > 0
  {
    if tag < 128 then [tag] else [128 + tag % 128] + TagCode(tag / 128)
  }

  /** Reads the tag whose first `i` bytes have been read already; the result is where it ends, and its value. */
  function ReadTagFrom(s: seq<Byte>, i: nat): (r: Option<(nat, nat)>)
    ensures r.Some? ==> i < r.value.0 <= |s| && r.value.0 <= 5
    decreases |s| - i
  {
    // the fifth byte has room for four bits, and there is no sixth
    if i >= |s| || i > 4 || (i == 4 && s[i] % 128 > 15) then None
    else if s[i] < 128 then Some((i + 1, s[i] as nat))
    else match ReadTagFrom(s, i + 1) {
      case None => None
      case Some((end, value)) => Some((end, s[i] - 128 + 128 * value))
    }
  }

  function ReadTag(s: seq<Byte>): (r: Option<(nat, nat)>)
    ensures r.Some? ==> 0 < r.value.0 <= |s| && r.value.0 <= 5
  {
    ReadTagFrom(s, 0)
  }

  /** The largest tag whose first byte is the byte at place `i`, plus one. */
  function Room(i: nat): nat
    requires i <= 4
    decreases 4 - i
  {
    if i == 4 then 16 else 128 * Room(i + 1)
  }

  lemma {:induction false} TagRoundTripFrom(before: seq<Byte>, tag: nat, rest: seq<Byte>)
    requires |before| <= 4 && tag < Room(|before|)
    ensures ReadTagFrom(before + TagCode(tag) + rest, |before|) == Some((|before| + |TagCode(tag)|, tag))
    decreases tag
  {
    var s := before + TagCode(tag) + rest;
    if tag >= 128 {
      var first := [(128 + tag % 128) as Byte];
      assert s == (before + first) + TagCode(tag / 128) + rest;
      TagRoundTripFrom(before + first, tag / 128, rest);
      assert s[|before|] == 128 + tag % 128;
    } else {
      assert s[|before|] == tag;
    }
  }

  /** A 32-bit tag is read back as it was written, whatever follows it. */
  lemma TagRoundTrip(tag: nat, rest: seq<Byte>)
    requires tag < UINT32
    ensures ReadTag(TagCode(tag) + rest) == Some((|TagCode(tag)|, tag))
  {
    assert Room(0) == 128 * 128 * 128 * 128 * 16 by {
      assert Room(4) == 16 && Room(3) == 128 * 16 && Room(2) == 128 * 128 * 16 && Room(1) == 128 * 128 * 128 * 16;
    }
    TagRoundTripFrom([], tag, rest);
    assert [] + TagCode(tag) + rest == TagCode(tag) + rest;
  }

  /** No code of a tag is the beginning of another's. */
  lemma TagPrefixFree(a: nat, b: nat, x: seq<Byte>, y: seq<Byte>)
    requires a < UINT32 && b < UINT32 && TagCode(a) + x == TagCode(b) + y
    ensures a == b && x == y
  {
    TagRoundTrip(a, x);
    TagRoundTrip(b, y);
    assert x == (TagCode(a) + x)[|TagCode(a)|..];
    assert y == (TagCode(b) + y)[|TagCode(b)|..];
  }

  /** Nor is any code of a number. */
  lemma IntPrefixFree(a: nat, b: nat, x: seq<Byte>, y: seq<Byte>, maxNibbles: nat)
    requires 0 < maxNibbles <= 16 && a < Power16(maxNibbles) && b < Power16(maxNibbles)
    requires Nibbles(a) <= 16 && Nibbles(b) <= 16 && IntCode(a) + x == IntCode(b) + y
    ensures a == b && x == y
  {
    IntRoundTrip(a, x, maxNibbles);
    IntRoundTrip(b, y, maxNibbles);
    assert x == (IntCode(a) + x)[|IntCode(a)|..];
    assert y == (IntCode(b) + y)[|IntCode(b)|..];
  }

  // Records

  datatype Record = Record(tag: nat, payload: seq<Byte>)

  predicate WellFormed(r: Record) {
    r.tag < UINT32 && |r.payload| <= INT_MAX
  }

  lemma LengthFits(n: nat)
    requires n < UINT32
    ensures Nibbles(n) <= 8 && n < Power16(8)
  {
    assert Power16(2) == 256 && Power16(4) == 65536 by {
      assert Power16(1) == 16 && Power16(3) == 4096;
    }
    assert Power16(8) == UINT32 by {
      assert Power16(5) == 16 * 65536 && Power16(6) == 256 * 65536 && Power16(7) == 4096 * 65536;
    }
    NibblesBound(n, 8);
  }

  function LengthCode(n: nat): (s: seq<Byte>)
    requires n < UINT32
    ensures 0 < |s| <= 5
  {
    LengthFits(n);
    IntCode(n)
  }

  function RecordCode(r: Record): (s: seq<Byte>)
    requires WellFormed(r)
    ensures |s| > 0
  {
    TagCode(r.tag) + LengthCode(|r.payload|) + r.payload
  }

  function StreamCode(rs: seq<Record>): seq<Byte>
    requires forall r :: r in rs ==> WellFormed(r)
  {
    if rs == [] then [] else RecordCode(rs[0]) + StreamCode(rs[1..])
  }

  /** Reads the head of a record: its tag, where its payload starts, and the payload's length. */
  function ReadHead(s: seq<Byte>): (r: Option<(nat, nat, nat)>)
    ensures r.Some? ==> 0 < r.value.1 <= |s|
  {
    match ReadTag(s)
    case None => None
    case Some((n, tag)) =>
      match ReadInt(s[n..], 8)
      case None => None
      case Some((m, len)) => Some((tag, n + m, len))
  }

  /** Reads a record; the result is the record and what follows it. */
  function ReadRecord(s: seq<Byte>): (r: Option<(Record, seq<Byte>)>)
    ensures r.Some? ==> |r.value.1| < |s|
  {
    match ReadHead(s)
    case None => None
    case Some((tag, at, len)) => if |s| - at < len then None else Some((Record(tag, s[at..at + len]), s[at + len..]))
  }

  /** Reads records up to the end. */
  function ReadStream(s: seq<Byte>): Option<seq<Record>>
    decreases |s|
  {
    if s == [] then Some([])
    else match ReadRecord(s) {
      case None => None
      case Some((r, rest)) =>
        match ReadStream(rest)
        case None => None
        case Some(rs) => Some([r] + rs)
    }
  }

  lemma HeadRoundTrip(tag: nat, len: nat, rest: seq<Byte>)
    requires tag < UINT32 && len < UINT32
    ensures ReadHead(TagCode(tag) + LengthCode(len) + rest) == Some((tag, |TagCode(tag)| + |LengthCode(len)|, len))
  {
    hide TagCode, IntCode, ReadInt, ReadTag, Nibbles, Power16;
    LengthFits(len);
    var s := TagCode(tag) + LengthCode(len) + rest;
    assert s == TagCode(tag) + (LengthCode(len) + rest);
    TagRoundTrip(tag, LengthCode(len) + rest);
    assert s[|TagCode(tag)|..] == IntCode(len) + rest;
    IntRoundTrip(len, rest, 8);
  }

  /** A record is read back as it was written, and what follows it is left. */
  lemma RecordRoundTrip(r: Record, rest: seq<Byte>)
    requires WellFormed(r)
    ensures ReadRecord(RecordCode(r) + rest) == Some((r, rest))
  {
    hide TagCode, LengthCode, ReadHead;
    var s := RecordCode(r) + rest;
    var at := |TagCode(r.tag)| + |LengthCode(|r.payload|)|;
    assert s == TagCode(r.tag) + LengthCode(|r.payload|) + (r.payload + rest);
    HeadRoundTrip(r.tag, |r.payload|, r.payload + rest);
    assert s[at..at + |r.payload|] == r.payload && s[at + |r.payload|..] == rest;
  }

  /** A stream of records is read back record by record, with nothing left over. */
  lemma {:induction false} StreamRoundTrip(rs: seq<Record>)
    requires forall r :: r in rs ==> WellFormed(r)
    ensures ReadStream(StreamCode(rs)) == Some(rs)
  {
    hide RecordCode, ReadRecord;
    if rs != [] {
      RecordRoundTrip(rs[0], StreamCode(rs[1..]));
      StreamRoundTrip(rs[1..]);
      assert [rs[0]] + rs[1..] == rs;
    }
  }

  /** The length of a record, told without reading its payload; it is computed modulo 2^32. */
  function PeekedLength(s: seq<Byte>): Option<nat> {
    match ReadHead(s)
    case None => None
    case Some((_, at, len)) => Some((len + at) % UINT32)
  }

  /** Unless it has wrapped around, the length told is the length of the record, if all of that is there. */
  lemma PeekedLengthIsLength(s: seq<Byte>)
    requires PeekedLength(s).Some? && ReadHead(s).value.1 + ReadHead(s).value.2 < UINT32
    ensures ReadRecord(s).Some? <==> PeekedLength(s).value <= |s|
    ensures ReadRecord(s).Some? ==> ReadRecord(s).value.1 == s[PeekedLength(s).value..]
  {
    hide ReadHead;
  }
}
