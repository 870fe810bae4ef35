/** Requests on the wire: what a resolver sends, and what a server reads. */
module DnsMessage {
  import opened ByteSeq
  import opened DnsName
  import opened DnsWriter
  import opened Options

  // Building

  const STANDARD_QUERY := 0x0100

  /** The header of a request: a standard query with one question. */
  function Header(transId: nat): (s: seq<Byte>)
    ensures |s| == 12
  {
    Be16(transId) + Be16(STANDARD_QUERY) + Be16(1) + Be16(0) + Be16(0) + Be16(0)
  }

  /** The room that a request asks for. */
  function RequestLen(nameLen: nat): nat {
    96 + nameLen + 2 + 4
  }

  /** With room for all of it, a name is written unless one of its labels is too long. */
  lemma {:induction false} WriteFits(msg: seq<Byte>, bufLen: nat, name: seq<Byte>)
    requires |msg| + |name| + 2 <= bufLen
    ensures var w := WriteLabels(msg, bufLen, name, [], false);
            if LabelsFit(name) then w.Written? && |w.msg| <= |msg| + |name| + 2 else w == LabelTooLong
    decreases |name|
  {
    hide WriteLabels, FirstLabel;
    WriteNext(msg, bufLen, name, [], false);
    if |FirstLabel(name)| <= 63 && Rest(name).Some? {
      WriteFits(OneLabel(msg, name), bufLen, Rest(name).value);
    }
  }

  /** The request for a name, as it goes out. */
  function RequestBytes(name: seq<Byte>, transId: nat, qtype: nat, qclass: nat): (s: seq<Byte>)
    requires |name| <= 255 && LabelsFit(name)
    ensures |s| >= 12
  {
    WriteFits(Header(transId), RequestLen(|name|), name);
    WriteName(Header(transId), RequestLen(|name|), name, [], false).msg + Be16(qtype) + Be16(qclass)
  }

  /** With room for all of it, more room makes no difference. */
  lemma {:induction false} MoreRoom(msg: seq<Byte>, bufLen: nat, more: nat, name: seq<Byte>)
    requires |msg| + |name| + 2 <= bufLen <= more
    ensures WriteLabels(msg, bufLen, name, [], false) == WriteLabels(msg, more, name, [], false)
    decreases |name|
  {
    hide WriteLabels, FirstLabel;
    WriteNext(msg, bufLen, name, [], false);
    WriteNext(msg, more, name, [], false);
    if |FirstLabel(name)| <= 63 && Rest(name).Some? {
      MoreRoom(OneLabel(msg, name), bufLen, more, Rest(name).value);
    }
  }

  /** Builds a request; the result is its length, -1 when a label is too long, or -2 when the name is.  The buffer has at least
      the room that a request asks for. */
  method RequestDataBuild(name: seq<Byte>, transId: nat, qtype: nat, qclass: nat, buf: array<Byte>, bufLen: nat) returns (result: int)
    requires RequestLen(|name|) <= bufLen <= buf.Length
    modifies buf
    ensures |name| > 255 ==> result == -2
    ensures |name| <= 255 && !LabelsFit(name) ==> result == -1
    ensures |name| <= 255 && LabelsFit(name) ==>
              0 <= result <= bufLen && buf[..result] == RequestBytes(name, transId, qtype, qclass)
  {
    hide WriteLabels, LabelsFit;
    var ok := Append16(buf, bufLen, 0, transId);
    ok := Append16(buf, bufLen, 2, STANDARD_QUERY);
    ok := Append16(buf, bufLen, 4, 1);
    ok := Append16(buf, bufLen, 6, 0);
    ok := Append16(buf, bufLen, 8, 0);
    ok := Append16(buf, bufLen, 10, 0);
    assert buf[..12] == Header(transId);
    WriteFits(Header(transId), bufLen, name);
    MoreRoom(Header(transId), RequestLen(|name|), bufLen, name);
    var j, past := NameToLabels(buf, bufLen, 12, name, null);
    if j < 0 {
      return j;
    }
    ok := Append16(buf, bufLen, j, qtype);
    if !ok {
      return -1;
    }
    ok := Append16(buf, bufLen, j + 2, qclass);
    if !ok {
      return -1;
    }
    result := j + 4;
  }

  // Parsing

  datatype Question = Question(name: seq<Byte>, qtype: nat, qclass: nat)

  /** What a server makes of a packet.  It crashes when the code reads through a null pointer. */
  datatype Parsed = Crashed | Rejected | NotImplemented | Query(transId: nat, flags: nat, questions: seq<Question>)

  /** A 16-bit number out of its bytes. */
  function Pair(high: Byte, low: Byte): (x: nat)
    ensures x < 0x10000
  {
    (high as nat) * 256 + low
  }

  function Get16(p: seq<Byte>, j: nat): (x: nat)
    requires j + 1 < |p|
    ensures x < 0x10000
  {
    Pair(p[j], p[j + 1])
  }

  /** The name up to the first NUL. */
  function UpToNul(name: seq<Byte>): seq<Byte> {
    if name == [] || name[0] == 0 then [] else [name[0]] + UpToNul(name[1..])
  }

  /** The question at place `j`, and the place just past it. */
  function ReadQuestion(p: seq<Byte>, j: nat): Option<(Question, nat)> {
    match ParseFrom(p, j, 0, [], 256)
    case None => None
    case Some((name, e)) =>
      if e + 4 > |p| then None else Some((Question(UpToNul(name), Get16(p, e), Get16(p, e + 2)), e + 4))
  }

  /** So many questions from place `j` on, and the place just past them. */
  function ReadQuestions(p: seq<Byte>, j: nat, n: nat): (r: Option<(seq<Question>, nat)>)
    ensures r.Some? ==> |r.value.0| == n
  {
    if n == 0 then Some(([], j))
    else
      match ReadQuestions(p, j, n - 1)
      case None => None
      case Some((questions, e)) =>
        match ReadQuestion(p, e)
        case None => None
        case Some((q, e')) => Some((questions + [q], e'))
  }

  /** The flags that are kept: that recursion is desired, and that checking is disabled. */
  function KeptFlags(flags: nat): nat {
    flags / 0x100 % 2 * 0x100 + flags / 0x10 % 2 * 0x10
  }

  /** Any operation but the standard one. */
  predicate OtherOperation(flags: nat) {
    flags / 0x800 % 16 != 0
  }

  function ReadRequest(p: seq<Byte>): Parsed {
    if |p| < 12 then Crashed
    // an answer, or a message that asks nothing
    else if Get16(p, 2) >= 0x8000 || Get16(p, 4) == 0 then Rejected
    else
      match ReadQuestions(p, 12, Get16(p, 4))
      case None => Rejected
      case Some((questions, _)) =>
        if OtherOperation(KeptFlags(Get16(p, 2))) then NotImplemented
        else Query(Get16(p, 0), KeptFlags(Get16(p, 2)), questions)
  }

  /** The record of a request that is being read. */
  class ServerRequest {
    const transId: nat
    const flags: nat
    var questions: seq<Question>

    constructor (transId: nat, flags: nat)
      ensures this.transId == transId && this.flags == flags && questions == []
    {
      this.transId, this.flags, questions := transId, flags, [];
    }
  }

  /** Reads a request.  The error path frees the questions of the record, which has not been made yet when the packet is too short
      for a header: just then the code crashes. */
  method RequestParse(packet: array<Byte>, length: nat) returns (r: Parsed)
    requires length <= packet.Length
    ensures r == ReadRequest(packet[..length])
    ensures r == Crashed <==> length < 12
  {
    hide ParseFrom, UpToNul, KeptFlags, OtherOperation, Pair;
    ghost var p := packet[..length];
    var serverReq: ServerRequest? := null;
    var header: seq<nat>, j: nat := [], 0;
    // the number, the flags, and how many questions and records there are of each kind
    while |header| < 6
      invariant |header| <= 6 && j == 2 * |header| <= length
      invariant forall k :: 0 <= k < |header| ==> header[k] == Get16(p, 2 * k)
    {
      if j + 2 > length {
        return if serverReq == null then Crashed else Rejected;
      }
      header := header + [Pair(packet[j], packet[j + 1])];
      j := j + 2;
    }
    if header[1] >= 0x8000 {
      return Rejected;
    }
    serverReq := new ServerRequest(header[0], KeptFlags(header[1]));
    // there is no memory to be had for no questions
    if header[2] == 0 {
      return Rejected;
    }
    var i := 0;
    while i < header[2]
      invariant 0 <= i <= header[2] && ReadQuestions(p, 12, i) == Some((serverReq.questions, j))
      invariant fresh(serverReq)
      modifies serverReq
    {
      var result, name, next := NameParse(packet, length, j, 256);
      if result < 0 || next + 4 > length {
        NoMoreQuestions(p, i + 1, header[2]);
        return if serverReq == null then Crashed else Rejected;
      }
      var qtype, qclass := Pair(packet[next], packet[next + 1]), Pair(packet[next + 2], packet[next + 3]);
      assert qtype == Get16(p, next) && qclass == Get16(p, next + 2);
      serverReq.questions := serverReq.questions + [Question(UpToNul(name), qtype, qclass)];
      j := next + 4;
      i := i + 1;
    }
    // an answer of its own goes out for this
    if OtherOperation(serverReq.flags) {
      return NotImplemented;
    }
    r := Query(serverReq.transId, serverReq.flags, serverReq.questions);
  }

  /** An answer, and a message that asks nothing, is not read, nor is one whose questions cannot all be read: the header byte by
      byte. */
  lemma ReadInBytes(p: seq<Byte>)
    ensures |p| >= 12 ==>
              (ReadRequest(p).Query? <==> p[2] < 0x80 && (p[4] != 0 || p[5] != 0)
                                          && ReadQuestions(p, 12, p[4] as nat * 256 + p[5] as nat).Some?)
    ensures ReadRequest(p).Query? ==>
              && |p| >= 12 && ReadRequest(p).transId == p[0] as nat * 256 + p[1] as nat
              && ReadRequest(p).flags == p[2] as nat % 2 * 0x100 + p[3] as nat / 0x10 % 2 * 0x10
              && |ReadRequest(p).questions| == p[4] as nat * 256 + p[5] as nat
  {
    hide ReadQuestions, OtherOperation, KeptFlags;
    if |p| >= 12 {
      NoOperationKept(Get16(p, 2));
      KeptInBytes(p[2], p[3]);
    }
  }

  lemma KeptInBytes(high: Byte, low: Byte)
    ensures KeptFlags(Pair(high, low)) == high as nat % 2 * 0x100 + low as nat / 0x10 % 2 * 0x10
  {
    assert Pair(high, low) / 0x100 == high as nat;
    assert Pair(high, low) / 0x10 == high as nat * 16 + low as nat / 0x10;
  }

  lemma {:induction false} NoMoreQuestions(p: seq<Byte>, i: nat, n: nat)
    requires i <= n && ReadQuestions(p, 12, i) == None
    ensures ReadQuestions(p, 12, n) == None
  {
    if i < n {
      NoMoreQuestions(p, i, n - 1);
    }
  }

  /** The answer that an operation is not implemented is never given: the flags that tell the operation are gone by the time they
      are looked at. */
  lemma OperationIsNotSeen(p: seq<Byte>)
    ensures ReadRequest(p) != NotImplemented
  {
    if |p| >= 12 {
      NoOperationKept(Get16(p, 2));
    }
  }

  lemma NoOperationKept(flags: nat)
    ensures !OtherOperation(KeptFlags(flags))
  {
    assert KeptFlags(flags) <= 0x110;
  }

  // There and back

  lemma {:induction false} NoNulInside(name: seq<Byte>)
    requires 0 !in name
    ensures UpToNul(name) == name
  {
    if name != [] {
      NoNulInside(name[1..]);
    }
  }

  lemma {:induction false} WellFormedFits(name: seq<Byte>)
    requires WellFormed(name)
    ensures LabelsFit(name) && 0 !in name
    decreases |name|
  {
    NameParts(name);
    if Rest(name).Some? {
      WellFormedFits(Rest(name).value);
    }
  }

  lemma Be16ReadsBack(p: seq<Byte>, j: nat, x: nat)
    requires j + 2 <= |p| && p[j..j + 2] == Be16(x) && x < 0x10000
    ensures Get16(p, j) == x
  {
    assert p[j] == p[j..j + 2][0] && p[j + 1] == p[j..j + 2][1];
  }

  /** A standard query with one question is read as just that. */
  lemma OneQuestion(p: seq<Byte>, transId: nat, q: Question, end: nat)
    requires |p| >= 12 && Get16(p, 0) == transId && Get16(p, 2) == STANDARD_QUERY && Get16(p, 4) == 1
    requires ReadQuestion(p, 12) == Some((q, end))
    ensures ReadRequest(p) == Query(transId, STANDARD_QUERY, [q])
  {
    hide Get16, ReadQuestion;
    assert ReadQuestions(p, 12, 0) == Some(([], 12));
    assert [] + [q] == [q];
  }

  /** A server reads just what a resolver has asked: the number, that it is a standard query, and the one question. */
  lemma RequestReadsBack(name: seq<Byte>, transId: nat, qtype: nat, qclass: nat)
    requires WellFormed(name) && |name| <= 255 && transId < 0x10000 && qtype < 0x10000 && qclass < 0x10000
    ensures LabelsFit(name)
    ensures var p := RequestBytes(name, transId, qtype, qclass);
            && ReadRequest(p) == Query(transId, 0x0100, [Question(name, qtype, qclass)])
            && p[2..12] == [0x01, 0x00, 0x00, 0x01, 0x00, 0x00, 0x00, 0x00, 0x00, 0x00]
            && p[0] as nat * 256 + p[1] as nat == transId
  {
    hide WriteLabels, WellFormed, LabelsFit, ParseFrom, ReadQuestion, ReadRequest, RequestBytes, Get16, Header, UpToNul;
    WellFormedFits(name);
    NoNulInside(name);
    var p := RequestBytes(name, transId, qtype, qclass);
    QuestionReadsBack(name, transId, qtype, qclass);
    HeaderReadsBack(transId, p);
    HeaderInBytes(transId, p);
    OneQuestion(p, transId, Question(name, qtype, qclass), |p|);
  }

  lemma HeaderReadsBack(transId: nat, p: seq<Byte>)
    requires transId < 0x10000 && |p| >= 12 && p[..12] == Header(transId)
    ensures Get16(p, 0) == transId && Get16(p, 2) == STANDARD_QUERY && Get16(p, 4) == 1
  {
    assert p[0..2] == p[..12][0..2] == Be16(transId);
    assert p[2..4] == p[..12][2..4] == Be16(STANDARD_QUERY);
    assert p[4..6] == p[..12][4..6] == Be16(1);
    Be16ReadsBack(p, 0, transId);
    Be16ReadsBack(p, 2, STANDARD_QUERY);
    Be16ReadsBack(p, 4, 1);
  }

  lemma HeaderInBytes(transId: nat, p: seq<Byte>)
    requires transId < 0x10000 && |p| >= 12 && p[..12] == Header(transId)
    ensures p[2..12] == [0x01, 0x00, 0x00, 0x01, 0x00, 0x00, 0x00, 0x00, 0x00, 0x00]
    ensures p[0] as nat * 256 + p[1] as nat == transId
  {
    assert p[2..12] == p[..12][2..];
    assert p[0] == p[..12][0] && p[1] == p[..12][1];
  }

  lemma QuestionReadsBack(name: seq<Byte>, transId: nat, qtype: nat, qclass: nat)
    requires WellFormed(name) && |name| <= 255 && LabelsFit(name) && qtype < 0x10000 && qclass < 0x10000
    ensures var p := RequestBytes(name, transId, qtype, qclass);
            && |p| >= 12 && p[..12] == Header(transId)
            && ReadQuestion(p, 12) == Some((Question(UpToNul(name), qtype, qclass), |p|))
  {
    hide WriteLabels, WellFormed, LabelsFit, ParseFrom, UpToNul;
    var bufLen := RequestLen(|name|);
    WriteFits(Header(transId), bufLen, name);
    var w := WriteName(Header(transId), bufLen, name, [], false);
    var p := RequestBytes(name, transId, qtype, qclass);
    assert p[..|w.msg|] == w.msg;
    assert p[..12] == p[..|w.msg|][..12];
    NameInRequest(name, transId, bufLen, w, p);
    assert p[|w.msg|..|w.msg| + 2] == Be16(qtype);
    assert p[|w.msg| + 2..|w.msg| + 4] == Be16(qclass);
    Be16ReadsBack(p, |w.msg|, qtype);
    Be16ReadsBack(p, |w.msg| + 2, qclass);
  }

  lemma NameInRequest(name: seq<Byte>, transId: nat, bufLen: nat, w: Written, p: seq<Byte>)
    requires WellFormed(name) && |name| <= 255 && w == WriteName(Header(transId), bufLen, name, [], false) && w.Written? && bufLen <= FAR
    requires |p| >= |w.msg| && p[..|w.msg|] == w.msg
    ensures ParseFrom(p, 12, 0, [], 256) == Some((name, |w.msg|))
  {
    hide WriteLabels, ParseFrom, WellFormed, Spells, EndOf;
    NothingRemembered(Header(transId), bufLen, name);
    WrittenIsSpelled(Header(transId), bufLen, name, [], false);
    SpelledWithin(w.msg, 12, |w.msg|, name);
    PointsMore(w.msg, 12, |w.msg|, name, p, |p|);
    EndMore(w.msg, 12, |w.msg|, name, p);
    PointedIsRead(p, 12, |p|, name, 0, [], 256);
  }

  lemma {:induction false} NothingRemembered(msg: seq<Byte>, bufLen: nat, name: seq<Byte>)
    ensures var w := WriteLabels(msg, bufLen, name, [], false); w.Written? ==> w.table == []
    decreases |name|
  {
    hide FirstLabel;
    if Rest(name).Some? && |FirstLabel(name)| <= 63 {
      NothingRemembered(OneLabel(msg, name), bufLen, Rest(name).value);
    }
  }
}
