/** Writing names into a packet. */
module DnsWriter {
  import opened ByteSeq
  import opened DnsName
  import opened Options

  /** The names that have been written, and where. */
  class LabelTable {
    var labels: seq<Entry>

    constructor ()
      ensures labels == []
    {
      labels := [];
    }

    /** Where a name has been written, or -1. */
    method GetPos(label_: seq<Byte>) returns (pos: int)
      ensures match Lookup(labels, label_) case None => pos == -1 case Some(p) => pos == p
    {
      var i := 0;
      while i < |labels|
        invariant 0 <= i <= |labels| && Lookup(labels, label_) == Lookup(labels[i..], label_)
      {
        if labels[i].name == label_ {
          return labels[i].pos;
        }
        assert labels[i..][1..] == labels[i + 1..];
        i := i + 1;
      }
      pos := -1;
    }

    /** Remembers where a name is, if there is room: it is then found there, unless it was found before; all other names are found
        where they were. */
    method Add(label_: seq<Byte>, pos: nat) returns (result: int)
      modifies this
      ensures forall name :: Lookup(labels, name) ==
                             if name == label_ && Lookup(old(labels), name) == None && result == 0 then Some(pos) else Lookup(old(labels), name)
      ensures labels == Remember(old(labels), Entry(label_, pos))
      ensures result == if old(|labels|) >= MAX_LABELS then -1 else 0
    {
      if |labels| >= MAX_LABELS {
        return -1;
      }
      forall name
        ensures Lookup(labels + [Entry(label_, pos)], name) ==
                if name == label_ && Lookup(labels, name) == None then Some(pos) else Lookup(labels, name)
      {
        LookupMore(labels, Entry(label_, pos), name);
      }
      labels := labels + [Entry(label_, pos)];
      result := 0;
    }
  }

  /** What a table holds; without a table, nothing. */
  ghost function EntriesOf(table: LabelTable?): seq<Entry>
    reads table
  {
    if table == null then [] else table.labels
  }

  /** A 16-bit number, the high byte first. */
  function Be16(x: nat): (s: seq<Byte>)
    ensures |s| == 2
  {
    [x / 256 % 256, x % 256]
  }

  /** Writes a 16-bit number at place `j`, if there is room. */
  method Append16(buf: array<Byte>, bufLen: nat, j: nat, x: nat) returns (ok: bool)
    requires j <= bufLen <= buf.Length
    modifies buf
    ensures ok <==> j + 2 <= bufLen
    ensures ok ==> buf[..j + 2] == old(buf[..j]) + Be16(x)
    ensures buf[..j] == old(buf[..j])
  {
    ok := j + 2 <= bufLen;
    if ok {
      buf[j], buf[j + 1] := x / 256 % 256, x % 256;
    }
  }

  /** Writes a label at place `j`, its length first. */
  method AppendLabel(buf: array<Byte>, j: nat, l: seq<Byte>)
    requires j + 1 + |l| <= buf.Length && |l| <= 63
    modifies buf
    ensures buf[..j + 1 + |l|] == old(buf[..j]) + ([|l| as Byte] + l)
    ensures buf[..j] == old(buf[..j])
  {
    buf[j] := |l|;
    forall k | 0 <= k < |l| {
      buf[j + 1 + k] := l[k];
    }
  }

  /** Writes a reference to place `ref`, if there is room. */
  method AppendReference(buf: array<Byte>, bufLen: nat, j: nat, ref: nat) returns (ok: bool)
    requires j <= bufLen <= buf.Length
    modifies buf
    ensures ok <==> j + 2 <= bufLen
    ensures ok ==> buf[..j + 2] == old(buf[..j]) + Pointer(ref)
    ensures buf[..j] == old(buf[..j])
  {
    // ref | 0xc000, of which 16 bits are written
    ReferenceBytes(ref);
    ok := Append16(buf, bufLen, j, 0xc000 + ref % 0x4000);
  }

  lemma ReferenceBytes(ref: nat)
    ensures Be16(0xc000 + ref % 0x4000) == Pointer(ref)
  {
    var low, high, top := ref % 256, ref / 256 % 64, ref / 0x4000;
    assert ref == top * 0x4000 + high * 256 + low;
    assert ref % 0x4000 == high * 256 + low;
    assert 0xc000 + ref % 0x4000 == (192 + high) * 256 + low;
  }

  /** What comes of the next label of a name, or of the reference to all that is left of it. */
  lemma WriteNext(msg: seq<Byte>, bufLen: nat, name: seq<Byte>, table: seq<Entry>, compress: bool)
    ensures var w := WriteLabels(msg, bufLen, name, table, compress);
            var first := FirstLabel(name);
            var table' := if compress then Remember(table, Entry(name, |msg|)) else table;
            if compress && Lookup(table, name).Some? then
              w == if |msg| + 2 > bufLen then Overflow else Written(msg + Pointer(Lookup(table, name).value), table)
            else if |first| > 63 then w == LabelTooLong
            else if |msg| + |first| + 1 > bufLen then w == Overflow
            else w == match Rest(name)
                      case None => Written(Ended(OneLabel(msg, name)), table')
                      case Some(rest) => WriteLabels(OneLabel(msg, name), bufLen, rest, table', compress)
  {
    hide Lookup, FirstLabel, Remember;
  }

  /** A name with the NUL after it, unless one is there already. */
  function Ended(msg: seq<Byte>): seq<Byte>
    requires msg != []
  {
    if msg[|msg| - 1] != 0 then msg + [0] else msg
  }

  lemma RestShrinks(name: seq<Byte>)
    ensures Rest(name).Some? ==> |Rest(name).value| == |name| - |FirstLabel(name)| - 1
  {}

  /** Puts a NUL behind the labels, unless the last one is empty and so its length is one; the room for it is not checked. */
  method Terminate(buf: array<Byte>, j: nat) returns (end: nat, outOfBounds: bool)
    requires 0 < j <= buf.Length
    modifies buf
    ensures outOfBounds <==> |Ended(old(buf[..j]))| > buf.Length
    ensures !outOfBounds ==> j <= end <= buf.Length && buf[..end] == Ended(old(buf[..j]))
    ensures buf[..j] == old(buf[..j])
  {
    end, outOfBounds := j, false;
    assert buf[..j][j - 1] == buf[j - 1];
    if buf[j - 1] != 0 {
      if j == buf.Length {
        return j, true;
      }
      buf[j] := 0;
      end := j + 1;
      assert buf[..end] == old(buf[..j]) + [0];
    }
  }

  /** No label is longer than 63 bytes. */
  predicate LabelsFit(name: seq<Byte>)
    decreases |name|
  {
    |FirstLabel(name)| <= 63 && (Rest(name).Some? ==> LabelsFit(Rest(name).value))
  }

  /** The last label is not empty and does not end in a NUL. */
  predicate NeedsNul(name: seq<Byte>) {
    name != [] && name[|name| - 1] != DOT && name[|name| - 1] != 0
  }

  /** The table holds neither the name nor what is left of it after any of its labels. */
  predicate NoneKnown(table: seq<Entry>, name: seq<Byte>)
    decreases |name|
  {
    Lookup(table, name) == None && (Rest(name).Some? ==> NoneKnown(table, Rest(name).value))
  }

  /** Remembering a longer name makes no difference to that. */
  lemma {:induction false} LongerIsUnknown(table: seq<Entry>, e: Entry, name: seq<Byte>)
    requires |e.name| > |name|
    ensures NoneKnown(Remember(table, e), name) <==> NoneKnown(table, name)
    decreases |name|
  {
    hide FirstLabel, Lookup;
    LookupMore(table, e, name);
    RestShrinks(name);
    if Rest(name).Some? {
      LongerIsUnknown(table, e, Rest(name).value);
    }
  }

  /** Without a reference, the labels of a name take one byte more than the name, and there is the NUL; with one, all there is
      fits. */
  lemma {:induction false} LabelsLength(msg: seq<Byte>, bufLen: nat, name: seq<Byte>, table: seq<Entry>, compress: bool)
    ensures var w := WriteLabels(msg, bufLen, name, table, compress);
            if compress && !NoneKnown(table, name) then w.Written? ==> |w.msg| <= bufLen
            else
              && (w.Written? <==> LabelsFit(name) && |msg| + |name| + 1 <= bufLen)
              && (w.Written? ==> |w.msg| == |msg| + |name| + 1 + if NeedsNul(name) then 1 else 0)
    decreases |name|
  {
    hide FirstLabel, WriteLabels, Lookup, Remember;
    WriteNext(msg, bufLen, name, table, compress);
    RestShrinks(name);
    if |FirstLabel(name)| <= 63 && Rest(name).Some? {
      var e := Entry(name, |msg|);
      LongerIsUnknown(table, e, Rest(name).value);
      LabelsLength(OneLabel(msg, name), bufLen, Rest(name).value, if compress then Remember(table, e) else table, compress);
    }
  }

  /** The name is written label by label, needs a NUL, and fills the buffer to its end without it. */
  predicate FillsUp(start: nat, bufLen: nat, name: seq<Byte>, table: seq<Entry>, compress: bool) {
    && |name| <= 255 && (compress ==> NoneKnown(table, name)) && LabelsFit(name) && NeedsNul(name)
    && start + |name| + 1 == bufLen
  }

  /** Just then the NUL comes to lie past the end. */
  lemma PastTheEnd(msg: seq<Byte>, bufLen: nat, name: seq<Byte>, table: seq<Entry>, compress: bool)
    ensures var w := WriteName(msg, bufLen, name, table, compress);
            w.Written? && |w.msg| > bufLen <==> FillsUp(|msg|, bufLen, name, table, compress)
  {
    hide WriteLabels;
    LabelsLength(msg, bufLen, name, table, compress);
  }

  /** Writes a name at place `start`; the result is the place just past it, -1 when a label is too long, or -2 when the name does
      not fit.  The NUL that ends the name may take one byte more than `bufLen`; if that byte is past the end of the memory,
      it is written out of bounds. */
  method NameToLabels(buf: array<Byte>, bufLen: nat, start: nat, name: seq<Byte>, table: LabelTable?) returns (result: int, outOfBounds: bool)
    requires start <= bufLen <= buf.Length
    modifies buf, table
    ensures match WriteName(old(buf[..start]), bufLen, name, old(EntriesOf(table)), table != null) {
              case Written(msg, entries) =>
                && (!outOfBounds ==> result == |msg| <= buf.Length && buf[..result] == msg)
                && (table != null ==> table.labels == entries)
              case LabelTooLong => result == -1
              case Overflow => result == -2
            }
    ensures outOfBounds <==> bufLen == buf.Length && FillsUp(start, bufLen, name, old(EntriesOf(table)), table != null)
    ensures buf[..start] == old(buf[..start])
  {
    hide WriteLabels, FirstLabel, Rest, Lookup, Remember, Ended, FillsUp;
    PastTheEnd(buf[..start], bufLen, name, EntriesOf(table), table != null);
    if |name| > 255 {
      return -2, false;
    }
    ghost var goal := WriteLabels(buf[..start], bufLen, name, EntriesOf(table), table != null);
    var j: nat, rest := start, name;
    while true
      invariant start <= j <= bufLen && buf[..start] == old(buf[..start])
      invariant WriteLabels(buf[..j], bufLen, rest, EntriesOf(table), table != null) == goal
      decreases |rest|
    {
      ghost var before := buf[..j];
      WriteNext(before, bufLen, rest, EntriesOf(table), table != null);
      if table != null {
        var ref := table.GetPos(rest);
        if ref >= 0 {
          var ok := AppendReference(buf, bufLen, j, ref);
          return if ok then j + 2 else -2, false;
        }
      }
      var l := FirstLabel(rest);
      if |l| > 63 {
        return -1, false;
      }
      if j + |l| + 1 > bufLen {
        return -2, false;
      }
      if table != null {
        var _ := table.Add(rest, j);
      }
      AppendLabel(buf, j, l);
      j := j + 1 + |l|;
      if Rest(rest) == None {
        break;
      }
      RestShrinks(rest);
      rest := Rest(rest).value;
    }
    result, outOfBounds := Terminate(buf, j);
  }

  /** A response of 1498 bytes so far, to which the name "a" is added: the NUL comes to lie past its 1500 bytes. */
  method FilledResponse() returns (outOfBounds: bool)
    ensures outOfBounds
  {
    var buf := new Byte[RESPONSE_SIZE](_ => 0);
    var table := new LabelTable();
    OneLabelName();
    var _, past := NameToLabels(buf, RESPONSE_SIZE, RESPONSE_SIZE - 2, [97], table);
    outOfBounds := past;
  }
}
