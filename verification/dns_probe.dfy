/** The DNS question behind a name probe, and what a reply may prove. */
module DnsProbe {
  import opened Bytes
  import opened Names
  import opened Wrappers
  import opened Text

  type u16 = n: int | 0 <= n < 0x1_0000

  type Label = seq<byte>

  const DOT: byte := 46

  // ---------------------------------------------------------------- encoding

  function Stripped(name: seq<byte>): seq<byte> {
    if name != [] && name[|name| - 1] == DOT then name[..|name| - 1] else name
  }

  predicate FitsALabel(text: Label) {
    1 <= |text| <= 63
  }

  predicate AllFit(labels: seq<Label>) {
    forall i | 0 <= i < |labels| :: FitsALabel(labels[i])
  }

  /** The names a question can be asked about. */
  predicate Encodable(name: seq<byte>) {
    0 < |Stripped(name)| <= 255 && AllFit(Split(Stripped(name), DOT))
  }

  function Wire(labels: seq<Label>): seq<byte>
    requires AllFit(labels)
  {
    if labels == [] then [] else [|labels[0]|] + labels[0] + Wire(labels[1..])
  }

  function Header(id: u16): seq<byte> {
    [id / 0x100, id % 0x100, 0x01, 0x00, 0x00, 0x01, 0x00, 0x00, 0x00, 0x00, 0x00, 0x00]
  }

  const ASKS_AAAA_IN: seq<byte> := [0x00, 0x1c, 0x00, 0x01]

  function QName(name: seq<byte>): seq<byte>
    requires Encodable(name)
  {
    Wire(Split(Stripped(name), DOT)) + [0]
  }

  function Query(id: u16, name: seq<byte>): seq<byte>
    requires Encodable(name)
  {
    Header(id) + QName(name) + ASKS_AAAA_IN
  }

  lemma {:induction false} WireOfMore(labels: seq<Label>, text: Label)
    requires AllFit(labels) && FitsALabel(text)
    ensures AllFit(labels + [text])
    ensures Wire(labels + [text]) == Wire(labels) + [|text|] + text
  {
    if labels == [] {
      assert [text][1..] == [];
    } else {
      assert (labels + [text])[1..] == labels[1..] + [text];
      WireOfMore(labels[1..], text);
    }
  }

  method EncodeQuery(id: u16, name: seq<byte>) returns (packet: Option<seq<byte>>)
    ensures packet == if Encodable(name) then Some(Query(id, name)) else None
  {
    var stripped := Stripped(name);
    if stripped == [] || |stripped| > 255 { return None; }
    var bytes: seq<byte> := [id / 0x100, id % 0x100];
    bytes := bytes + [0x01, 0x00, 0x00, 0x01, 0x00, 0x00, 0x00, 0x00, 0x00, 0x00];
    var labels := Split(stripped, DOT);
    for i := 0 to |labels|
      invariant AllFit(labels[..i])
      invariant bytes == Header(id) + Wire(labels[..i])
    {
      if labels[i] == [] || |labels[i]| > 63 { return None; }
      WireOfMore(labels[..i], labels[i]);
      assert labels[..i + 1] == labels[..i] + [labels[i]];
      bytes := bytes + [|labels[i]|];
      bytes := bytes + labels[i];
    }
    assert labels[..|labels|] == labels;
    bytes := bytes + [0];
    bytes := bytes + [0x00, 0x1c];
    bytes := bytes + [0x00, 0x01];
    assert bytes == Query(id, name);
    return Some(bytes);
  }

  // ---------------------------------------------------------------- decoding

  /** A domain name in a message: a sequence of labels, each a length octet and that
      many octets, ended by the zero octet of the root (RFC 1035, sections 3.1 and
      4.1.2). A length octet above 63 is no label. */
  function DecodeLabels(bytes: seq<byte>): Option<(seq<Label>, seq<byte>)> {
    if bytes == [] then None
    else if bytes[0] == 0 then Some(([], bytes[1..]))
    else if bytes[0] > 63 || |bytes| <= bytes[0] then None
    else
      var rest := DecodeLabels(bytes[1 + bytes[0]..]);
      if rest.None? then None else Some(([bytes[1..1 + bytes[0]]] + rest.value.0, rest.value.1))
  }

  /** A message of one question (RFC 1035, sections 4.1.1 and 4.1.2). */
  datatype Message = Message(id: u16, isResponse: bool, recursionDesired: bool, questions: u16, records: (u16, u16, u16),
                             labels: seq<Label>, qtype: u16, qclass: u16)

  function Word(bytes: seq<byte>, at: nat): u16
    requires at + 1 < |bytes|
  {
    bytes[at] as int * 0x100 + bytes[at + 1]
  }

  function DecodeMessage(bytes: seq<byte>): Option<Message> {
    if |bytes| < 12 then None
    else
      var name := DecodeLabels(bytes[12..]);
      if name.None? || |name.value.1| != 4 then None
      else
        Some(Message(Word(bytes, 0), bytes[2] >= 0x80, bytes[2] % 2 == 1,
                     Word(bytes, 4), (Word(bytes, 6), Word(bytes, 8), Word(bytes, 10)),
                     name.value.0, Word(name.value.1, 0), Word(name.value.1, 2)))
  }

  lemma {:induction false} DecodeOfWire(labels: seq<Label>, rest: seq<byte>)
    requires AllFit(labels)
    ensures DecodeLabels(Wire(labels) + [0] + rest) == Some((labels, rest))
  {
    var bytes := Wire(labels) + [0] + rest;
    if labels == [] {
      assert bytes[1..] == rest;
    } else {
      var n := |labels[0]|;
      assert bytes == [n] + labels[0] + (Wire(labels[1..]) + [0] + rest);
      assert bytes[1..1 + n] == labels[0];
      assert bytes[1 + n..] == Wire(labels[1..]) + [0] + rest;
      DecodeOfWire(labels[1..], rest);
      assert [labels[0]] + labels[1..] == labels;
    }
  }

  /** Read back by the standard, the packet is the question that was meant: one
      recursive AAAA question about exactly the labels of the name. */
  lemma DecodingTheQueryGivesTheName(id: u16, name: seq<byte>)
    requires Encodable(name)
    ensures DecodeMessage(Query(id, name)) ==
            Some(Message(id, false, true, 1, (0, 0, 0), Split(Stripped(name), DOT), 28, 1))
    ensures Join(DecodeMessage(Query(id, name)).value.labels, DOT) == Stripped(name)
  {
    var labels := Split(Stripped(name), DOT);
    var header, query := Header(id), Query(id, name);
    assert query == header + (QName(name) + ASKS_AAAA_IN);
    assert query[..12] == header && query[12..] == Wire(labels) + [0] + ASKS_AAAA_IN;
    assert forall k | 0 <= k < 12 :: query[k] == header[k];
    DecodeOfWire(labels, ASKS_AAAA_IN);
    JoinOfSplit(Stripped(name), DOT);
  }

  /** Two questions are the same packet exactly if they carry the same id and their
      names differ by no more than one trailing dot. */
  lemma QueriesAreInjective(id: u16, name: seq<byte>, otherId: u16, other: seq<byte>)
    requires Encodable(name) && Encodable(other)
    ensures Query(id, name) == Query(otherId, other) <==>
            id == otherId && (name == other || name == other + [DOT] || name + [DOT] == other)
  {
    DecodingTheQueryGivesTheName(id, name);
    DecodingTheQueryGivesTheName(otherId, other);
    StrippedOnce(name);
    StrippedOnce(other);
  }

  /** What is left of an encodable name does not end in a dot. */
  lemma StrippedOnce(name: seq<byte>)
    requires Encodable(name)
    ensures var s := Stripped(name);
            s[|s| - 1] != DOT && (name == s || name == s + [DOT])
  {
    var s := Stripped(name);
    if s[|s| - 1] == DOT {
      LastPartAfterSeparator(s, DOT);
    }
  }

  lemma {:induction false} LastPartAfterSeparator(s: seq<byte>, separator: byte)
    requires s != [] && s[|s| - 1] == separator
    ensures var parts := Split(s, separator); parts[|parts| - 1] == [] && |parts| >= 2
  {
    if |s| > 1 {
      LastPartAfterSeparator(s[1..], separator);
    }
  }

  /** The names that are asked about: labels of 1 to 63 octets joined by dots, 255 octets
      at most, with or without one dot behind. */
  predicate IsAName(name: seq<byte>, labels: seq<Label>) {
    && labels != [] && (forall i | 0 <= i < |labels| :: 1 <= |labels[i]| <= 63 && Free(labels[i], DOT))
    && |Join(labels, DOT)| <= 255
    && (name == Join(labels, DOT) || name == Join(labels, DOT) + [DOT])
  }

  lemma {:induction false} JoinEndsInItsLastPart(labels: seq<Label>)
    requires labels != [] && labels[|labels| - 1] != []
    ensures var joined, last := Join(labels, DOT), labels[|labels| - 1];
            joined != [] && joined[|joined| - 1] == last[|last| - 1]
  {
    if |labels| > 1 {
      JoinEndsInItsLastPart(labels[1..]);
    }
  }

  lemma EncodableExactly(name: seq<byte>)
    ensures Encodable(name) <==> exists labels :: IsAName(name, labels)
    ensures DOT == '.' as int
  {
    if Encodable(name) {
      var labels := Split(Stripped(name), DOT);
      JoinOfSplit(Stripped(name), DOT);
      assert forall i | 0 <= i < |labels| :: FitsALabel(labels[i]);
      StrippedOnce(name);
      assert IsAName(name, labels);
    }
    if labels :| IsAName(name, labels) {
      var joined := Join(labels, DOT);
      SplitOfJoin(labels, DOT);
      JoinEndsInItsLastPart(labels);
      assert joined[|joined| - 1] != DOT;
      if name != joined {
        assert name == joined + [DOT] && name[|name| - 1] == DOT && name[..|name| - 1] == joined;
      }
      assert Stripped(name) == joined;
    }
  }

  lemma {:induction false} WireLength(labels: seq<Label>)
    requires AllFit(labels) && labels != []
    ensures |Wire(labels)| == |Join(labels, DOT)| + 1
  {
    if |labels| > 1 {
      WireLength(labels[1..]);
    }
  }

  lemma QNameLength(name: seq<byte>)
    requires Encodable(name)
    ensures |QName(name)| == |Stripped(name)| + 2
    ensures forall id :: |Query(id, name)| == |Stripped(name)| + 18
  {
    WireLength(Split(Stripped(name), DOT));
    JoinOfSplit(Stripped(name), DOT);
  }

  /** Section 2.3.4 of RFC 1035 bounds a name on the wire at 255 octets; the encoder
      bounds its text. The two agree exactly for names of at most 253 characters. */
  lemma FitsTheWireUpTo253(name: seq<byte>)
    requires Encodable(name)
    ensures |QName(name)| <= 255 <==> |Stripped(name)| <= 253
  {
    QNameLength(name);
  }

  /** Four full labels are accepted, and make a name of 257 octets. */
  lemma ANameTooLongForTheWire() returns (name: seq<byte>)
    ensures Encodable(name) && |QName(name)| == 257
  {
    var text: Label := seq(63, i => 97);
    var two, three, labels := [text, text], [text, text, text], [text, text, text, text];
    assert two[1..] == [text] && three[1..] == two && labels[1..] == three;
    assert |Join([text], DOT)| == 63;
    assert |Join(two, DOT)| == 127;
    assert |Join(three, DOT)| == 191;
    name := Join(labels, DOT);
    assert |name| == 255;
    assert AllFree(labels, DOT);
    SplitOfJoin(labels, DOT);
    assert name == text + [DOT] + Join(three, DOT) && name[|name| - 1] == Join(three, DOT)[190];
    assert Join(three, DOT) == text + [DOT] + Join(two, DOT) && Join(three, DOT)[190] == Join(two, DOT)[126];
    assert Join(two, DOT) == text + [DOT] + text;
    assert Stripped(name) == name;
    QNameLength(name);
  }

  // ---------------------------------------------------------------- the verdict

  datatype ProbeDetail = IpLiteral | NoResolver | Timeout | Rcode(code: byte)

  const NXDOMAIN: byte := 3

  /** A response to the query `id`, as opposed to anything else that arrives. */
  predicate Answers(reply: seq<byte>, id: u16) {
    |reply| >= 12 && Word(reply, 0) == id && reply[2] >= 0x80
  }

  function DecodeRcode(id: u16, reply: seq<byte>): (rcode: Option<byte>)
    ensures rcode.Some? <==> Answers(reply, id)
    ensures rcode.Some? ==> rcode.value < 16 && (reply[3] - rcode.value) % 16 == 0
  {
    if |reply| < 12 then None
    else if reply[0..2] != [id / 0x100, id % 0x100] then None
    else if (reply[2] / 0x80) % 2 == 0 then None
    else Some(reply[3] % 0x10)
  }

  /** What answers is, read by the standard, a response with the id of the query. */
  lemma AnswersAreResponses(reply: seq<byte>, id: u16)
    requires DecodeMessage(reply).Some?
    ensures Answers(reply, id) <==> DecodeMessage(reply).value.id == id && DecodeMessage(reply).value.isResponse
    ensures Answers(reply, id) ==> DecodeRcode(id, reply) == Some(reply[3] % 16)
  {
  }

  /** The first of the replies that answers. */
  predicate FirstAnswer(replies: seq<seq<byte>>, id: u16, k: int) {
    0 <= k < |replies| && Answers(replies[k], id) && forall i | 0 <= i < k :: !Answers(replies[i], id)
  }

  /** `replies` are the datagrams that arrive before the deadline or a socket error. */
  method QueryRcode(id: u16, name: seq<byte>, replies: seq<seq<byte>>) returns (rcode: Option<byte>)
    ensures rcode.Some? <==> Encodable(name) && exists k :: FirstAnswer(replies, id, k)
    ensures rcode.Some? ==> exists k :: FirstAnswer(replies, id, k) && rcode == DecodeRcode(id, replies[k])
  {
    var packet := EncodeQuery(id, name);
    if packet.None? { return None; }
    for i := 0 to |replies|
      invariant forall k | 0 <= k < i :: !Answers(replies[k], id)
    {
      rcode := DecodeRcode(id, replies[i]);
      if rcode.Some? {
        assert FirstAnswer(replies, id, i);
        return;
      }
    }
    return None;
  }

  /** A name is called gone exactly when it is a name, was asked for, and the first
      answer to that very question said NXDOMAIN; whatever else happens leaves it. */
  method ProbeName(name: seq<byte>, isIpLiteral: bool, hasResolver: bool, id: u16, replies: seq<seq<byte>>)
    returns (verdict: NameVerdict, detail: ProbeDetail)
    ensures verdict == Gone <==>
              && !isIpLiteral && hasResolver && Encodable(name)
              && exists k :: FirstAnswer(replies, id, k) && replies[k][3] % 16 == 3
    ensures verdict == Gone ==> detail == Rcode(3)
    ensures detail == IpLiteral <==> isIpLiteral
    ensures detail == NoResolver <==> !isIpLiteral && !hasResolver
    ensures detail.Rcode? <==> !isIpLiteral && hasResolver && Encodable(name) && exists k :: FirstAnswer(replies, id, k)
  {
    if isIpLiteral { return ExistsOrUnknown, IpLiteral; }
    if !hasResolver { return ExistsOrUnknown, NoResolver; }
    var rcode := QueryRcode(id, name, replies);
    if rcode.None? { return ExistsOrUnknown, Timeout; }
    ghost var k :| FirstAnswer(replies, id, k) && rcode == DecodeRcode(id, replies[k]);
    assert forall j :: FirstAnswer(replies, id, j) ==> j == k;
    if rcode.value == NXDOMAIN { return Gone, Rcode(NXDOMAIN); }
    return ExistsOrUnknown, Rcode(rcode.value);
  }
}
