/** Domain names in DNS messages, with compression: sections 3.1 and 4.1.4 of RFC 1035. */
module DnsName {
  import opened ByteSeq
  import opened Options

  const DOT: Byte := 46
  const MAX_LABELS := 128

  /** In a buffer of at most so many bytes no pointer can be needed that does not reach: a name beyond the first 2^14 bytes takes
      three at least, and a pointer to it two. */
  const FAR := 0x4004

  /** What a byte string of labels separated by dots begins with. */
  function FirstLabel(name: seq<Byte>): (l: seq<Byte>)
    ensures |l| <= |name| && l == name[..|l|]
    ensures DOT !in l && (|l| == |name| || name[|l|] == DOT)
  {
    if name == [] || name[0] == DOT then [] else [name[0]] + FirstLabel(name[1..])
  }

  /** What follows the first dot, if there is one. */
  function Rest(name: seq<Byte>): Option<seq<Byte>> {
    var n := |FirstLabel(name)|;
    if n == |name| then None else Some(name[n + 1..])
  }

  /** No label is empty or longer than 63 bytes, and none holds a NUL. */
  predicate WellFormed(name: seq<Byte>)
    decreases |name|
  {
    && 1 <= |FirstLabel(name)| <= 63
    && 0 !in FirstLabel(name)
    && (Rest(name).Some? ==> WellFormed(Rest(name).value))
  }

  /** Where a pointer at place `e` leads. */
  function Target(p: seq<Byte>, e: nat): nat
    requires e + 1 < |p|
  {
    (p[e] as nat) % 64 * 256 + p[e + 1]
  }

  // Reading

  /** Reads a name from place `j` on, with `out` read already: the name, and the place just past where it started to be
      read.  `jumps` pointers have been followed; more than there are bytes means that they go round in a circle. */
  function ParseFrom(p: seq<Byte>, j: nat, jumps: nat, out: seq<Byte>, outLen: nat): (r: Option<(seq<Byte>, nat)>)
    requires jumps <= |p|
    ensures r.Some? ==> |r.value.0| < outLen && r.value.1 <= |p|
    decreases |p| - jumps, |p| - j
  {
    if j >= |p| then None
    else if p[j] == 0 then if |out| >= outLen then None else Some((out, j + 1))
    else if p[j] >= 64 then
      if j + 1 >= |p| || Target(p, j) >= |p| || jumps + 1 > |p| then None
      else match ParseFrom(p, Target(p, j), jumps + 1, out, outLen) {
        case None => None
        case Some((name, _)) => Some((name, j + 2))
      }
    else
      var end := j + 1 + p[j];
      if out != [] && |out| + 1 >= outLen then None
      else
        var out' := if out == [] then [] else out + [DOT];
        if |out'| + p[j] >= outLen || end > |p| then None
        else ParseFrom(p, end, jumps, out' + p[j + 1..end], outLen)
  }

  /** What comes of the byte at place `j`. */
  lemma ParseStep(p: seq<Byte>, j: nat, jumps: nat, out: seq<Byte>, outLen: nat)
    requires jumps <= |p|
    ensures var r := ParseFrom(p, j, jumps, out, outLen);
            if j >= |p| then r == None
            else if p[j] == 0 then r == if |out| >= outLen then None else Some((out, j + 1))
            else if p[j] >= 64 then
              if j + 1 >= |p| || Target(p, j) >= |p| || jumps + 1 > |p| then r == None
              else
                var t := ParseFrom(p, Target(p, j), jumps + 1, out, outLen);
                r == if t.Some? then Some((t.value.0, j + 2)) else None
            else
              var end := j + 1 + p[j];
              var out' := if out == [] then [] else out + [DOT];
              if (out != [] && |out| + 1 >= outLen) || |out'| + p[j] >= outLen || end > |p| then r == None
              else r == ParseFrom(p, end, jumps, out' + p[j + 1..end], outLen)
  {}

  /** Reading on from place `j` gives what reading from place `idx` gives. */
  ghost predicate Follows(p: seq<Byte>, idx: nat, outLen: nat, j: nat, jumps: nat, out: seq<Byte>, nameEnd: int)
    requires jumps <= |p|
  {
    match ParseFrom(p, idx, 0, [], outLen)
    case None => ParseFrom(p, j, jumps, out, outLen) == None
    case Some((n, e)) =>
      match ParseFrom(p, j, jumps, out, outLen)
      case None => false
      case Some((n', e')) => n' == n && e == if nameEnd < 0 then e' else nameEnd
  }

  /** Reads a name into a buffer of `outLen` bytes; the result is -1, or 0 with the name and the place just past it. */
  method NameParse(packet: array<Byte>, length: nat, idx: nat, outLen: nat) returns (result: int, name: seq<Byte>, next: nat)
    requires length <= packet.Length
    ensures match ParseFrom(packet[..length], idx, 0, [], outLen) {
              case None => result == -1
              case Some((n, e)) => result == 0 && name == n && next == e
            }
  {
    hide ParseFrom;
    var nameEnd := -1;
    var j: nat, ptrCount: nat := idx, 0;
    name, next := [], 0;
    ghost var p := packet[..length];
    while true
      invariant ptrCount <= length && (nameEnd >= 0 || ptrCount == 0) && -1 <= nameEnd <= length
      invariant Follows(p, idx, outLen, j, ptrCount, name, nameEnd)
      // it ends: a jump uses up one of a limited number, and a label brings the end of the packet nearer
      decreases length - ptrCount, length - j
    {
      ParseStep(p, j, ptrCount, name, outLen);
      if j >= length {
        return -1, name, 0;
      }
      var labelLen: nat := packet[j];
      assert labelLen == p[j];
      j := j + 1;
      if labelLen == 0 {
        break;
      }
      if labelLen >= 64 {
        if j >= length {
          return -1, name, 0;
        }
        var ptrLow: nat := packet[j];
        assert ptrLow == p[j];
        j := j + 1;
        if nameEnd < 0 {
          nameEnd := j;
        }
        j := labelLen % 64 * 256 + ptrLow;
        // the target must be in bounds
        if j >= length {
          return -1, name, 0;
        }
        ptrCount := ptrCount + 1;
        if ptrCount > length {
          // the pointers outnumber the bytes, so one has been followed twice
          return -1, name, 0;
        }
        continue;
      }
      if name != [] {
        if |name| + 1 >= outLen {
          return -1, name, 0;
        }
        name := name + [DOT];
      }
      if |name| + labelLen >= outLen {
        return -1, name, 0;
      }
      if j + labelLen > length {
        return -1, name, 0;
      }
      assert packet[j..j + labelLen] == p[j..j + labelLen] by {
        assert forall k :: j <= k < j + labelLen ==> packet[k] == p[k];
      }
      name := name + packet[j..j + labelLen];
      j := j + labelLen;
    }
    if |name| >= outLen {
      return -1, name, 0;
    }
    next := if nameEnd < 0 then j else nameEnd;
    result := 0;
  }

  // Writing

  datatype Entry = Entry(name: seq<Byte>, pos: nat)

  /** The place that the table gives for a name: that of the first entry for it. */
  function Lookup(table: seq<Entry>, name: seq<Byte>): (r: Option<nat>)
    ensures r.Some? ==> Entry(name, r.value) in table
  {
    if table == [] then None
    else if table[0].name == name then Some(table[0].pos)
    else Lookup(table[1..], name)
  }

  lemma {:induction false} LookupMore(table: seq<Entry>, e: Entry, name: seq<Byte>)
    ensures Lookup(table + [e], name) == if e.name == name && Lookup(table, name) == None then Some(e.pos) else Lookup(table, name)
  {
    if table != [] {
      assert (table + [e])[1..] == table[1..] + [e];
      LookupMore(table[1..], e, name);
    }
  }

  /** The table with one more entry, if there is room. */
  function Remember(table: seq<Entry>, e: Entry): (r: seq<Entry>)
    ensures |table| <= |r| && r[..|table|] == table
  {
    if |table| >= MAX_LABELS then table else table + [e]
  }

  /** A pointer to place `pos`. */
  function Pointer(pos: nat): (s: seq<Byte>)
    ensures |s| == 2
  {
    [192 + pos / 256 % 64, pos % 256]
  }

  /** A pointer leads to where it should just when that is within the first 2^14 bytes. */
  lemma PointerReaches(before: seq<Byte>, pos: nat, after: seq<Byte>)
    ensures Target(before + Pointer(pos) + after, |before|) == pos <==> pos < 0x4000
  {
    var p := before + Pointer(pos) + after;
    assert p[|before|] == 192 + pos / 256 % 64 && p[|before| + 1] == pos % 256;
  }

  lemma PrefixOfPrefix<T>(a: seq<T>, b: seq<T>, c: seq<T>)
    requires |a| <= |b| <= |c| && b[..|a|] == a && c[..|b|] == b
    ensures c[..|a|] == a
  {
    assert c[..|a|] == c[..|b|][..|a|];
  }

  datatype Written = Written(msg: seq<Byte>, table: seq<Entry>) | LabelTooLong | Overflow

  /** The message with the first label of a name written after it. */
  function OneLabel(msg: seq<Byte>, name: seq<Byte>): (r: seq<Byte>)
    requires |FirstLabel(name)| <= 63
    ensures |r| == |msg| + 1 + |FirstLabel(name)| && r[..|msg|] == msg
  {
    msg + ([|FirstLabel(name)| as Byte] + FirstLabel(name))
  }

  /** The message with a name written after it, using and extending the table if `compress`. */
  function WriteLabels(msg: seq<Byte>, bufLen: nat, name: seq<Byte>, table: seq<Entry>, compress: bool): (w: Written)
    ensures w.Written? ==> |msg| <= |w.msg| <= bufLen + 1 && w.msg[..|msg|] == msg && |table| <= |w.table| && w.table[..|table|] == table
    decreases |name|
  {
    if compress && Lookup(table, name).Some? then
      if |msg| + 2 > bufLen then Overflow else Written(msg + Pointer(Lookup(table, name).value), table)
    else
      var first := FirstLabel(name);
      if |first| > 63 then LabelTooLong
      else if |msg| + |first| + 1 > bufLen then Overflow
      else
        var table' := if compress then Remember(table, Entry(name, |msg|)) else table;
        var msg' := OneLabel(msg, name);
        if Rest(name).Some? then
          var w := WriteLabels(msg', bufLen, Rest(name).value, table', compress);
          if w.Written? then
            PrefixOfPrefix(msg, msg', w.msg);
            PrefixOfPrefix(table, table', w.table);
            w
          else w
        else Written(if msg'[|msg'| - 1] != 0 then msg' + [0] else msg', table')
  }

  function WriteName(msg: seq<Byte>, bufLen: nat, name: seq<Byte>, table: seq<Entry>, compress: bool): (w: Written)
    ensures w.Written? ==> |msg| <= |w.msg| <= bufLen + 1 && w.msg[..|msg|] == msg && |table| <= |w.table| && w.table[..|table|] == table
  {
    if |name| > 255 then Overflow else WriteLabels(msg, bufLen, name, table, compress)
  }

  lemma {:induction false} LookupLonger(table: seq<Entry>, longer: seq<Entry>, name: seq<Byte>)
    requires Lookup(table, name).Some? && |table| <= |longer| && longer[..|table|] == table
    ensures Lookup(longer, name) == Lookup(table, name)
  {
    assert longer[0] == table[0];
    if table[0].name != name {
      assert longer[1..][..|table| - 1] == table[1..];
      LookupLonger(table[1..], longer[1..], name);
    }
  }

  /** Names are compressed: one that has been written before, unless the table was full by then, takes just two bytes, the first of
      which is 192 or more. */
  lemma SecondTime(msg: seq<Byte>, bufLen: nat, name: seq<Byte>, table: seq<Entry>, msg': seq<Byte>, bufLen': nat)
    requires WriteName(msg, bufLen, name, table, true).Written? && |table| < MAX_LABELS && |msg'| + 2 <= bufLen'
    ensures var table' := WriteName(msg, bufLen, name, table, true).table;
            var w := WriteName(msg', bufLen', name, table', true);
            && w.Written? && |w.msg| == |msg'| + 2 && w.msg[|msg'|] >= 192 && w.table == table'
  {
    var w := WriteName(msg, bufLen, name, table, true);
    if Lookup(table, name) == None {
      var table1 := Remember(table, Entry(name, |msg|));
      LookupMore(table, Entry(name, |msg|), name);
      LookupLonger(table1, w.table, name);
    }
  }

  /** At place `j` stand the labels of a name, and then a NUL or a pointer to what is left of it; all that is read lies
      before `lim`, and all that a pointer leads to lies before the pointer. */
  ghost predicate Spells(p: seq<Byte>, j: nat, lim: nat, name: seq<Byte>)
    decreases |name|, 0
  {
    && j < lim <= |p| && 1 <= p[j] <= 63
    && var e := j + 1 + p[j];
    && e < lim && FirstLabel(name) == p[j + 1..e]
    && (if Rest(name) == None then p[e] == 0 else SpellsOrPoints(p, e, lim, Rest(name).value))
  }

  /** The same, or just a pointer. */
  ghost predicate SpellsOrPoints(p: seq<Byte>, e: nat, lim: nat, name: seq<Byte>)
    decreases |name|, 1
  {
    && e < lim <= |p|
    && if p[e] >= 64 then
         p[e] >= 192 && e + 1 < lim && Target(p, e) < e && Spells(p, Target(p, e), e, name)
       else
         Spells(p, e, lim, name)
  }

  /** More bytes after it do not change what is spelled. */
  lemma {:induction false} SpellsMore(p: seq<Byte>, j: nat, lim: nat, name: seq<Byte>, p': seq<Byte>, lim': nat)
    requires Spells(p, j, lim, name) && lim <= lim' <= |p'| && |p| <= |p'| && p'[..|p|] == p
    ensures Spells(p', j, lim', name)
    decreases |name|, 0
  {
    var e := j + 1 + p[j];
    Prefixed(p, p', j);
    Prefixed(p, p', e);
    PrefixedSlice(p, p', j + 1, e);
    if Rest(name).Some? {
      PointsMore(p, e, lim, Rest(name).value, p', lim');
    }
  }

  lemma Prefixed(p: seq<Byte>, p': seq<Byte>, i: nat)
    requires |p| <= |p'| && p'[..|p|] == p && i < |p|
    ensures p'[i] == p[i]
  {
    assert p'[..|p|][i] == p'[i];
  }

  lemma PrefixedSlice(p: seq<Byte>, p': seq<Byte>, a: nat, b: nat)
    requires |p| <= |p'| && p'[..|p|] == p && a <= b <= |p|
    ensures p'[a..b] == p[a..b]
  {
    forall i | a <= i < b
      ensures p'[i] == p[i]
    {
      Prefixed(p, p', i);
    }
  }

  lemma {:induction false} PointsMore(p: seq<Byte>, e: nat, lim: nat, name: seq<Byte>, p': seq<Byte>, lim': nat)
    requires SpellsOrPoints(p, e, lim, name) && lim <= lim' <= |p'| && |p| <= |p'| && p'[..|p|] == p
    ensures SpellsOrPoints(p', e, lim', name)
    decreases |name|, 1
  {
    Prefixed(p, p', e);
    if p[e] >= 64 {
      Prefixed(p, p', e + 1);
      SpellsMore(p, Target(p, e), e, name, p', e);
    } else {
      SpellsMore(p, e, lim, name, p', lim');
    }
  }

  /** The name so far, with another one after it. */
  function Joined(out: seq<Byte>, name: seq<Byte>): seq<Byte> {
    if out == [] then name else out + [DOT] + name
  }

  /** Where the reading of a name that starts at place `e` comes out. */
  function EndOf(p: seq<Byte>, e: nat, name: seq<Byte>): nat
    decreases |name|
  {
    if e >= |p| || p[e] >= 64 then e + 2
    else if Rest(name) == None then e + 2 + p[e]
    else EndOf(p, e + 1 + p[e], Rest(name).value)
  }

  lemma NameParts(name: seq<Byte>)
    ensures name == if Rest(name) == None then FirstLabel(name) else FirstLabel(name) + [DOT] + Rest(name).value
  {
    var n := |FirstLabel(name)|;
    if Rest(name).Some? {
      assert name == name[..n] + [name[n]] + name[n + 1..];
    }
  }

  /** Reading one label. */
  lemma ReadLabel(p: seq<Byte>, j: nat, jumps: nat, out: seq<Byte>, outLen: nat, first: seq<Byte>)
    requires j < |p| && jumps <= |p| && 1 <= p[j] <= 63 && j + 1 + p[j] <= |p| && first == p[j + 1..j + 1 + p[j]]
    requires |Joined(out, first)| < outLen
    ensures ParseFrom(p, j, jumps, out, outLen) == ParseFrom(p, j + 1 + p[j], jumps, Joined(out, first), outLen)
  {
    assert (if out == [] then [] else out + [DOT]) + p[j + 1..j + 1 + p[j]] == Joined(out, first);
  }

  lemma ReadEnd(p: seq<Byte>, j: nat, jumps: nat, out: seq<Byte>, outLen: nat)
    requires j < |p| && jumps <= |p| && p[j] == 0 && |out| < outLen
    ensures ParseFrom(p, j, jumps, out, outLen) == Some((out, j + 1))
  {}

  lemma JoinedTwice(out: seq<Byte>, first: seq<Byte>, rest: seq<Byte>)
    requires first != []
    ensures Joined(out, first + [DOT] + rest) == Joined(Joined(out, first), rest)
    ensures |Joined(out, first)| <= |Joined(out, first + [DOT] + rest)|
  {}

  /** What is spelled is read, whatever has been read before. */
  lemma {:induction false} SpelledIsRead(p: seq<Byte>, j: nat, lim: nat, name: seq<Byte>, jumps: nat, out: seq<Byte>, outLen: nat)
    requires Spells(p, j, lim, name) && jumps + lim <= |p| && |Joined(out, name)| < outLen && WellFormed(name)
    ensures ParseFrom(p, j, jumps, out, outLen) == Some((Joined(out, name), EndOf(p, j, name)))
    decreases |name|, 0
  {
    hide ParseFrom, Joined, FirstLabel, Rest, SpellsOrPoints;
    NameParts(name);
    var e := j + 1 + p[j];
    var first := FirstLabel(name);
    if Rest(name).Some? {
      var rest := Rest(name).value;
      JoinedTwice(out, first, rest);
      ReadLabel(p, j, jumps, out, outLen, first);
      PointedIsRead(p, e, lim, rest, jumps, Joined(out, first), outLen);
    } else {
      ReadLabel(p, j, jumps, out, outLen, first);
      ReadEnd(p, e, jumps, Joined(out, first), outLen);
    }
  }

  lemma {:induction false} PointedIsRead(p: seq<Byte>, e: nat, lim: nat, name: seq<Byte>, jumps: nat, out: seq<Byte>, outLen: nat)
    requires SpellsOrPoints(p, e, lim, name) && jumps + lim <= |p| && |Joined(out, name)| < outLen && WellFormed(name)
    ensures ParseFrom(p, e, jumps, out, outLen) == Some((Joined(out, name), EndOf(p, e, name)))
    decreases |name|, 1
  {
    if p[e] >= 64 {
      SpelledIsRead(p, Target(p, e), e, name, jumps + 1, out, outLen);
    } else {
      SpelledIsRead(p, e, lim, name, jumps, out, outLen);
    }
  }

  /** An entry of the table tells where its name is spelled. */
  ghost predicate Tells(msg: seq<Byte>, e: Entry) {
    e.pos < |msg| && WellFormed(e.name) && |e.name| <= 255 && Spells(msg, e.pos, |msg|, e.name)
  }

  /** So do all entries for names of at most `n` bytes. */
  ghost predicate TellsUpTo(msg: seq<Byte>, table: seq<Entry>, n: nat) {
    forall e :: e in table && |e.name| <= n ==> Tells(msg, e)
  }

  lemma TellsMore(msg: seq<Byte>, e: Entry, msg': seq<Byte>)
    requires Tells(msg, e) && |msg| <= |msg'| && msg'[..|msg|] == msg
    ensures Tells(msg', e)
  {
    SpellsMore(msg, e.pos, |msg|, e.name, msg', |msg'|);
  }

  lemma UpToMore(msg: seq<Byte>, table: seq<Entry>, n: nat, msg': seq<Byte>, table': seq<Entry>, n': nat)
    requires TellsUpTo(msg, table, n) && |msg| <= |msg'| && msg'[..|msg|] == msg && n' <= n
    requires forall e :: e in table' && |e.name| <= n' ==> e in table
    ensures TellsUpTo(msg', table', n')
  {
    forall e | e in table' && |e.name| <= n'
      ensures Tells(msg', e)
    {
      TellsMore(msg, e, msg');
    }
  }

  lemma RestIsShorter(name: seq<Byte>)
    requires WellFormed(name) && Rest(name).Some?
    ensures |Rest(name).value| < |name| && WellFormed(Rest(name).value)
  {}

  /** The last label of a name, and the NUL after it. */
  lemma LastLabel(msg: seq<Byte>, name: seq<Byte>)
    requires WellFormed(name) && Rest(name) == None
    ensures var msg' := OneLabel(msg, name);
            && msg'[|msg'| - 1] != 0 && SpellsOrPoints(msg' + [0], |msg|, |msg'| + 1, name)
            && Spells(msg' + [0], |msg|, |msg'| + 1, name)
            && EndOf(msg' + [0], |msg|, name) == |msg'| + 1
  {
    var first := FirstLabel(name);
    var msg' := OneLabel(msg, name);
    var p := msg' + [0];
    assert msg'[|msg'| - 1] == first[|first| - 1] && first[|first| - 1] in first;
    assert p[|msg|] == |first| && p[|msg| + 1..|msg| + 1 + |first|] == first;
  }

  /** Any other label, and what is spelled or pointed to after it. */
  lemma InnerLabel(msg: seq<Byte>, name: seq<Byte>, p: seq<Byte>)
    requires WellFormed(name) && Rest(name).Some?
    requires var msg' := OneLabel(msg, name);
             && |msg'| < |p| && p[..|msg'|] == msg' && SpellsOrPoints(p, |msg'|, |p|, Rest(name).value)
    ensures Spells(p, |msg|, |p|, name) && SpellsOrPoints(p, |msg|, |p|, name)
    ensures EndOf(p, |msg|, name) == EndOf(p, |OneLabel(msg, name)|, Rest(name).value)
  {
    hide FirstLabel, WellFormed;
    FirstFits(name);
    var first := FirstLabel(name);
    var msg' := OneLabel(msg, name);
    Prefixed(msg', p, |msg|);
    PrefixedSlice(msg', p, |msg| + 1, |msg'|);
    assert msg'[|msg|] == |first| && msg'[|msg| + 1..|msg'|] == first;
  }

  /** Writing a name that the table does not have, label by label. */
  lemma WriteStep(msg: seq<Byte>, bufLen: nat, name: seq<Byte>, table: seq<Entry>, compress: bool)
    requires WellFormed(name) && !(compress && Lookup(table, name).Some?)
    requires WriteLabels(msg, bufLen, name, table, compress).Written?
    ensures var w := WriteLabels(msg, bufLen, name, table, compress);
            var table' := if compress then Remember(table, Entry(name, |msg|)) else table;
            && |msg| < |w.msg|
            && (if Rest(name) == None then w == Written(OneLabel(msg, name) + [0], table')
                else w == WriteLabels(OneLabel(msg, name), bufLen, Rest(name).value, table', compress))
  {
    if Rest(name) == None {
      LastLabel(msg, name);
    }
  }

  /** Writing a name spells it, or points to where it is spelled; and every entry that is added to the table tells where
      its name is. */
  lemma {:induction false} WrittenIsSpelled(msg: seq<Byte>, bufLen: nat, name: seq<Byte>, table: seq<Entry>, compress: bool)
    requires WellFormed(name) && |name| <= 255 && (compress ==> TellsUpTo(msg, table, |name|))
    requires WriteLabels(msg, bufLen, name, table, compress).Written?
    requires bufLen <= FAR
    ensures var w := WriteLabels(msg, bufLen, name, table, compress);
            && SpellsOrPoints(w.msg, |msg|, |w.msg|, name)
            && EndOf(w.msg, |msg|, name) == |w.msg|
            && (forall e :: e in w.table[|table|..] ==> Tells(w.msg, e) && |e.name| <= |name|)
    decreases |name|
  {
    if compress && Lookup(table, name).Some? {
      PointsBack(msg, Lookup(table, name).value, name);
    } else {
      SpelledOut(msg, bufLen, name, table, compress);
    }
  }

  lemma {:induction false} SpelledOut(msg: seq<Byte>, bufLen: nat, name: seq<Byte>, table: seq<Entry>, compress: bool)
    requires WellFormed(name) && |name| <= 255 && (compress ==> TellsUpTo(msg, table, |name|))
    requires !(compress && Lookup(table, name).Some?)
    requires WriteLabels(msg, bufLen, name, table, compress).Written?
    requires bufLen <= FAR
    ensures var w := WriteLabels(msg, bufLen, name, table, compress);
            && SpellsOrPoints(w.msg, |msg|, |w.msg|, name)
            && EndOf(w.msg, |msg|, name) == |w.msg|
            && (forall e :: e in w.table[|table|..] ==> Tells(w.msg, e) && |e.name| <= |name|)
    decreases |name|, 0
  {
    hide WriteLabels, Spells, SpellsOrPoints, EndOf, Lookup, WellFormed, TellsUpTo, Rest, FirstLabel;
    FirstFits(name);
    WriteStep(msg, bufLen, name, table, compress);
    var w := WriteLabels(msg, bufLen, name, table, compress);
    var entry := Entry(name, |msg|);
    var table' := if compress then Remember(table, entry) else table;
    var msg' := OneLabel(msg, name);
    if Rest(name) == None {
      LastLabel(msg, name);
    } else {
      var rest := Rest(name).value;
      RestIsShorter(name);
      if compress {
        ShorterNames(msg, table, name, msg', table');
      }
      WrittenIsSpelled(msg', bufLen, rest, table', compress);
      SpelledWithin(w.msg, |msg'|, |w.msg|, rest);
      InnerLabel(msg, name, w.msg);
    }
    NewEntries(w.msg, |name|, table, table', entry, w.table);
  }

  lemma FirstFits(name: seq<Byte>)
    requires WellFormed(name)
    ensures 1 <= |FirstLabel(name)| <= 63
  {}

  lemma SpelledWithin(p: seq<Byte>, e: nat, lim: nat, name: seq<Byte>)
    requires SpellsOrPoints(p, e, lim, name)
    ensures e < lim <= |p|
  {}

  /** The entry for the name that is being written is not for what is left of it. */
  lemma ShorterNames(msg: seq<Byte>, table: seq<Entry>, name: seq<Byte>, msg': seq<Byte>, table': seq<Entry>)
    requires WellFormed(name) && Rest(name).Some? && TellsUpTo(msg, table, |name|)
    requires |msg| <= |msg'| && msg'[..|msg|] == msg && table' == Remember(table, Entry(name, |msg|))
    ensures TellsUpTo(msg', table', |Rest(name).value|)
  {
    RestIsShorter(name);
    UpToMore(msg, table, |name|, msg', table', |Rest(name).value|);
  }

  /** A pointer to an entry of the table. */
  lemma PointsBack(msg: seq<Byte>, pos: nat, name: seq<Byte>)
    requires Tells(msg, Entry(name, pos)) && |msg| + 2 <= FAR
    ensures SpellsOrPoints(msg + Pointer(pos), |msg|, |msg| + 2, name) && EndOf(msg + Pointer(pos), |msg|, name) == |msg| + 2
  {
    var p := msg + Pointer(pos);
    assert p == msg + Pointer(pos) + [];
    PointerReaches(msg, pos, []);
    assert p[|msg|] == 192 + pos / 256 % 64;
    SpellsMore(msg, pos, |msg|, name, p, |msg|);
  }

  lemma NewEntries(p: seq<Byte>, n: nat, table: seq<Entry>, table': seq<Entry>, entry: Entry, final: seq<Entry>)
    requires |table| <= |table'| <= |final| && table' in {table, table + [entry]} && final[..|table'|] == table'
    requires (table' != table ==> Tells(p, entry)) && |entry.name| <= n
    requires forall e :: e in final[|table'|..] ==> Tells(p, e) && |e.name| <= n
    ensures forall e :: e in final[|table|..] ==> Tells(p, e) && |e.name| <= n
  {
    if table' != table {
      assert final[|table|..] == [entry] + final[|table'|..] by {
        assert final[|table|] == final[..|table'|][|table|] == entry;
      }
    } else {
      assert |table'| == |table|;
    }
  }

  // Whole messages

  /** A message is made of names, and of other bytes between them. */
  datatype Part = NamePart(name: seq<Byte>, compress: bool) | BytesPart(bytes: seq<Byte>)

  predicate PartOk(part: Part) {
    part.NamePart? ==> WellFormed(part.name) && |part.name| <= 255
  }

  function WritePart(msg: seq<Byte>, bufLen: nat, part: Part, table: seq<Entry>): (w: Written)
    ensures w.Written? ==> |msg| <= |w.msg| && w.msg[..|msg|] == msg && |table| <= |w.table| && w.table[..|table|] == table
  {
    match part
    case NamePart(name, compress) => WriteName(msg, bufLen, name, table, compress)
    case BytesPart(bytes) => if |msg| + |bytes| > bufLen then Overflow else Written(msg + bytes, table)
  }

  /** Writes the parts one after the other, with one table for all of them. */
  function WriteParts(msg: seq<Byte>, bufLen: nat, parts: seq<Part>, table: seq<Entry>): (w: Written)
    ensures w.Written? ==> |msg| <= |w.msg| && w.msg[..|msg|] == msg && |table| <= |w.table| && w.table[..|table|] == table
    decreases |parts|
  {
    if parts == [] then Written(msg, table)
    else
      var w := WritePart(msg, bufLen, parts[0], table);
      if !w.Written? then w
      else
        var w' := WriteParts(w.msg, bufLen, parts[1..], w.table);
        if w'.Written? then PrefixOfPrefix(msg, w.msg, w'.msg); PrefixOfPrefix(table, w.table, w'.table); w' else w'
  }

  /** The first part is written before the other ones. */
  lemma FirstPart(msg: seq<Byte>, bufLen: nat, parts: seq<Part>, table: seq<Entry>)
    requires parts != [] && WriteParts(msg, bufLen, parts, table).Written?
    ensures var w := WritePart(msg, bufLen, parts[0], table);
            w.Written? && WriteParts(msg, bufLen, parts, table) == WriteParts(w.msg, bufLen, parts[1..], w.table)
  {}

  ghost predicate AllTell(msg: seq<Byte>, table: seq<Entry>) {
    forall e :: e in table ==> Tells(msg, e)
  }

  lemma PartKeepsTable(msg: seq<Byte>, bufLen: nat, part: Part, table: seq<Entry>)
    requires PartOk(part) && AllTell(msg, table)
    requires WritePart(msg, bufLen, part, table).Written? && bufLen <= FAR
    ensures var w := WritePart(msg, bufLen, part, table); AllTell(w.msg, w.table)
    ensures part.NamePart? ==>
              var w := WritePart(msg, bufLen, part, table);
              SpellsOrPoints(w.msg, |msg|, |w.msg|, part.name) && EndOf(w.msg, |msg|, part.name) == |w.msg|
  {
    hide Tells, WriteLabels, SpellsOrPoints, EndOf, WellFormed;
    var w := WritePart(msg, bufLen, part, table);
    if part.NamePart? {
      WrittenIsSpelled(msg, bufLen, part.name, table, part.compress);
    }
    forall e | e in w.table
      ensures Tells(w.msg, e)
    {
      if e in w.table[..|table|] {
        TellsMore(msg, e, w.msg);
      } else {
        assert w.table == w.table[..|table|] + w.table[|table|..];
        assert e in w.table[|table|..];
      }
    }
  }

  /** Every entry of the table tells where its name is, in whatever message. */
  lemma {:induction false} TableTells(msg: seq<Byte>, bufLen: nat, parts: seq<Part>, table: seq<Entry>)
    requires (forall part :: part in parts ==> PartOk(part)) && AllTell(msg, table)
    requires WriteParts(msg, bufLen, parts, table).Written? && bufLen <= FAR
    ensures var w := WriteParts(msg, bufLen, parts, table); AllTell(w.msg, w.table)
    decreases |parts|
  {
    hide AllTell, WritePart;
    if parts != [] {
      var w := WritePart(msg, bufLen, parts[0], table);
      FirstPart(msg, bufLen, parts, table);
      PartKeepsTable(msg, bufLen, parts[0], table);
      TableTells(w.msg, bufLen, parts[1..], w.table);
    }
  }

  lemma {:induction false} EndMore(p: seq<Byte>, e: nat, lim: nat, name: seq<Byte>, p': seq<Byte>)
    requires SpellsOrPoints(p, e, lim, name) && |p| <= |p'| && p'[..|p|] == p
    ensures EndOf(p', e, name) == EndOf(p, e, name)
    decreases |name|
  {
    Prefixed(p, p', e);
    if p[e] < 64 && Rest(name).Some? {
      EndMore(p, e + 1 + p[e], lim, Rest(name).value, p');
    }
  }

  /** Every name that is written into a message is read back from where it starts, in the whole message; the reading comes out
      just past where it ends. */
  lemma {:induction false} NamesReadBack(msg: seq<Byte>, bufLen: nat, parts: seq<Part>, table: seq<Entry>, i: nat, outLen: nat)
    requires (forall part :: part in parts ==> PartOk(part)) && AllTell(msg, table)
    requires WriteParts(msg, bufLen, parts, table).Written? && bufLen <= FAR
    requires i < |parts| && parts[i].NamePart? && |parts[i].name| < outLen
    ensures WriteParts(msg, bufLen, parts[..i], table).Written? && WriteParts(msg, bufLen, parts[..i + 1], table).Written?
    ensures var p := WriteParts(msg, bufLen, parts, table).msg;
            var start, end := |WriteParts(msg, bufLen, parts[..i], table).msg|, |WriteParts(msg, bufLen, parts[..i + 1], table).msg|;
            ParseFrom(p, start, 0, [], outLen) == Some((parts[i].name, end))
    decreases |parts|
  {
    hide AllTell, WritePart, ParseFrom, WellFormed, SpellsOrPoints, EndOf;
    var w := WritePart(msg, bufLen, parts[0], table);
    FirstPart(msg, bufLen, parts, table);
    PartKeepsTable(msg, bufLen, parts[0], table);
    var p := WriteParts(msg, bufLen, parts, table).msg;
    if i == 0 {
      assert parts[..1] == [parts[0]] && parts[..0] == [];
      OnePart(msg, bufLen, parts[0], table);
      SpelledWithin(w.msg, |msg|, |w.msg|, parts[0].name);
      PointsMore(w.msg, |msg|, |w.msg|, parts[0].name, p, |p|);
      EndMore(w.msg, |msg|, |w.msg|, parts[0].name, p);
      PointedIsRead(p, |msg|, |p|, parts[0].name, 0, [], outLen);
    } else {
      NamesReadBack(w.msg, bufLen, parts[1..], w.table, i - 1, outLen);
      assert parts[..i][1..] == parts[1..][..i - 1] && parts[..i + 1][1..] == parts[1..][..i];
    }
  }

  lemma OnePart(msg: seq<Byte>, bufLen: nat, part: Part, table: seq<Entry>)
    ensures WriteParts(msg, bufLen, [part], table) == WritePart(msg, bufLen, part, table)
  {}

  lemma TwoParts(msg: seq<Byte>, bufLen: nat, a: Part, b: Part, table: seq<Entry>)
    requires WritePart(msg, bufLen, a, table).Written?
    ensures var w := WritePart(msg, bufLen, a, table);
            WriteParts(msg, bufLen, [a, b], table) == WritePart(w.msg, bufLen, b, w.table)
  {
    hide WritePart;
    var w := WritePart(msg, bufLen, a, table);
    assert [a, b][1..] == [b];
    OnePart(w.msg, bufLen, b, w.table);
  }

  /** Every entry of the table is read back as its name. */
  lemma EntriesReadBack(msg: seq<Byte>, bufLen: nat, parts: seq<Part>, e: Entry, outLen: nat)
    requires forall part :: part in parts ==> PartOk(part)
    requires WriteParts(msg, bufLen, parts, []).Written? && bufLen <= FAR
    requires e in WriteParts(msg, bufLen, parts, []).table && |e.name| < outLen
    ensures var p := WriteParts(msg, bufLen, parts, []).msg;
            var r := ParseFrom(p, e.pos, 0, [], outLen);
            e.pos < |p| && r.Some? && r.value.0 == e.name
  {
    hide ParseFrom, WriteParts, PartOk;
    TableTells(msg, bufLen, parts, []);
    var p := WriteParts(msg, bufLen, parts, []).msg;
    SpelledIsRead(p, e.pos, |p|, e.name, 0, [], outLen);
  }

  // How large a buffer may be

  /** Each name of a message is read back from where it starts, and the reading comes out just past where it ends. */
  ghost predicate NamesAreBack(bufLen: nat, parts: seq<Part>)
    requires WriteParts([], bufLen, parts, []).Written?
  {
    forall i, outLen: nat :: 0 <= i < |parts| && parts[i].NamePart? && |parts[i].name| < outLen ==> NameIsBack(bufLen, parts, i, outLen)
  }

  ghost predicate NameIsBack(bufLen: nat, parts: seq<Part>, i: nat, outLen: nat)
    requires WriteParts([], bufLen, parts, []).Written? && i < |parts| && parts[i].NamePart?
  {
    var before, after := WriteParts([], bufLen, parts[..i], []), WriteParts([], bufLen, parts[..i + 1], []);
    && before.Written? && after.Written?
    && ParseFrom(WriteParts([], bufLen, parts, []).msg, |before.msg|, 0, [], outLen) == Some((parts[i].name, |after.msg|))
  }

  ghost predicate PartsOk(parts: seq<Part>) {
    forall part :: part in parts ==> PartOk(part)
  }

  /** The size of the buffer decides, as the code does not look at how far a pointer reaches: whatever is written into a buffer of
      at most 16388 bytes is read back; and for every larger one there is a message that is not. */
  lemma BufferSizeDecides(bufLen: nat)
    ensures bufLen <= FAR <==>
              forall parts :: PartsOk(parts) && WriteParts([], bufLen, parts, []).Written? ==> NamesAreBack(bufLen, parts)
  {
    hide WriteParts, ParseFrom;
    if bufLen <= FAR {
      forall parts | PartsOk(parts) && WriteParts([], bufLen, parts, []).Written?
        ensures NamesAreBack(bufLen, parts)
      {
        AllNamesAreBack(bufLen, parts);
      }
    } else {
      LostMessage(bufLen);
      assert !NamesAreBack(bufLen, LostParts());
    }
  }

  lemma AllNamesAreBack(bufLen: nat, parts: seq<Part>)
    requires bufLen <= FAR && PartsOk(parts) && WriteParts([], bufLen, parts, []).Written?
    ensures NamesAreBack(bufLen, parts)
  {
    hide WriteParts, ParseFrom;
    forall i, outLen: nat | 0 <= i < |parts| && parts[i].NamePart? && |parts[i].name| < outLen
      ensures NameIsBack(bufLen, parts, i, outLen)
    {
      NamesReadBack([], bufLen, parts, [], i, outLen);
    }
  }

  /** The buffer that responses are built in. */
  const RESPONSE_SIZE := 1500

  /** A response is never too large for its names to be read back. */
  lemma ResponsesReadBack(parts: seq<Part>)
    requires PartsOk(parts) && WriteParts([], RESPONSE_SIZE, parts, []).Written?
    ensures NamesAreBack(RESPONSE_SIZE, parts)
  {
    AllNamesAreBack(RESPONSE_SIZE, parts);
  }

  /** 16384 zeros, and then the name `a` twice. */
  function LostParts(): seq<Part> {
    [BytesPart(seq(0x4000, _ => 0)), NamePart([97], true), NamePart([97], true)]
  }

  /** The second occurrence of the name is written as a pointer that leads to the beginning of the message instead, where the name
      without labels is read. */
  lemma LostMessage(bufLen: nat)
    requires bufLen > FAR
    ensures PartsOk(LostParts()) && WriteParts([], bufLen, LostParts(), []).Written?
    ensures !NameIsBack(bufLen, LostParts(), 2, 256)
  {
    hide ParseFrom, WriteName;
    var zeros: seq<Byte>, parts := seq(0x4000, _ => 0), LostParts();
    assert [] + zeros == zeros;
    TwiceWritten(zeros, bufLen);
    var once := zeros + [1, 97, 0];
    var twice := once + Pointer(0x4000);
    OneLabelName();
    assert parts[..2] == [parts[0], parts[1]] && parts[..2][1..] == [parts[1]] && [parts[1]][1..] == [];
    assert parts[1..] == [parts[1], parts[2]] && parts[1..][1..] == [parts[2]] && [parts[2]][1..] == [];
    assert WriteParts([], bufLen, parts[..2], []) == Written(once, [Entry([97], 0x4000)]) by {
      TwoParts([], bufLen, parts[0], parts[1], []);
    }
    assert WriteParts([], bufLen, parts, []).msg == twice;
    ReadsNothing(twice, |once|);
  }

  lemma OneLabelName()
    ensures FirstLabel([97]) == [97] && Rest([97]) == None && WellFormed([97])
  {
    assert FirstLabel([97]) == [97] + FirstLabel([]);
  }

  lemma TwiceWritten(zeros: seq<Byte>, bufLen: nat)
    requires |zeros| == 0x4000 && bufLen > FAR
    ensures var once := zeros + [1, 97, 0];
            && WriteName(zeros, bufLen, [97], [], true) == Written(once, [Entry([97], 0x4000)])
            && WriteName(once, bufLen, [97], [Entry([97], 0x4000)], true) == Written(once + Pointer(0x4000), [Entry([97], 0x4000)])
  {
    OneLabelName();
    assert OneLabel(zeros, [97]) == zeros + [1, 97];
    assert zeros + [1, 97] + [0] == zeros + [1, 97, 0];
    assert [] + [Entry([97], 0x4000)] == [Entry([97], 0x4000)];
  }

  lemma ReadsNothing(p: seq<Byte>, j: nat)
    requires j + 1 < |p| && p[0] == 0 && p[j] == 192 && p[j + 1] == 0
    ensures ParseFrom(p, j, 0, [], 256) == Some(([], j + 2))
  {
    ParseStep(p, j, 0, [], 256);
    ParseStep(p, 0, 1, [], 256);
  }
}
