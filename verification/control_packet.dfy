/** The control-channel packet codec: seven `|`-separated fields, the first
    a signed code naming the packet kind, then conversation id,
    conversation name, client id, profile id, user name and content id. */
module ControlPacket {
  import opened Wrappers
  import opened Strings

  datatype Kind =
    | WhisperOffer
    | ListenRequest
    | ListenAuthYes
    | ListenAuthNo
    | Joining
    | Dropping
    | ListenOffer
    | RequestReread

  /** The wire code of a kind (the bundle's `$`). */
  function CodeOf(k: Kind): (code: string)
    ensures |code| == 3 && code[0] == '-' && '|' !in code
  {
    match k
    case WhisperOffer => "-20"
    case ListenRequest => "-21"
    case ListenAuthYes => "-22"
    case ListenAuthNo => "-23"
    case Joining => "-24"
    case Dropping => "-25"
    case ListenOffer => "-26"
    case RequestReread => "-40"
  }

  /** The kind a wire code names, if any (the decoder's code switch). */
  function KindOfCode(code: string): (r: Option<Kind>)
    ensures r.Some? ==> CodeOf(r.value) == code
  {
    match code
    case "-20" => Some(WhisperOffer)
    case "-21" => Some(ListenRequest)
    case "-22" => Some(ListenAuthYes)
    case "-23" => Some(ListenAuthNo)
    case "-24" => Some(Joining)
    case "-25" => Some(Dropping)
    case "-26" => Some(ListenOffer)
    case "-40" => Some(RequestReread)
    case _ => None
  }

  /** The code tables are mutually inverse: every kind's code decodes to
      that kind, and a code decodes to a kind only if it is that kind's code. */
  lemma CodeRoundTrip(k: Kind, code: string)
    ensures KindOfCode(CodeOf(k)) == Some(k)
    ensures KindOfCode(code) == Some(k) ==> CodeOf(k) == code
  {
  }

  /** A decoded packet; the source calls the kind field `offset`. */
  datatype Packet = Packet(
    kind: Kind,
    conversationId: string,
    conversationName: string,
    clientId: string,
    profileId: string,
    username: string,
    contentId: string)

  const FieldCount := 7

  /** The wire fields of a packet, in order. */
  function Fields(p: Packet): seq<string> {
    [CodeOf(p.kind), p.conversationId, p.conversationName, p.clientId,
     p.profileId, p.username, p.contentId]
  }

  /** No text field holds the separator, so the packet encodes faithfully. */
  predicate Encodable(p: Packet) {
    forall k :: 0 <= k < |Fields(p)| ==> '|' !in Fields(p)[k]
  }

  function Encode(p: Packet): string {
    Join(Fields(p), '|')
  }

  /** The decoder: split on every `|`; accept exactly seven fields whose
      first is a known code. */
  function Decode(data: string): (r: Option<Packet>)
    ensures r.Some? <==>
              |Split(data, '|')| == FieldCount && KindOfCode(Split(data, '|')[0]).Some?
    ensures r.Some? ==> Fields(r.value) == Split(data, '|')
  {
    var f := Split(data, '|');
    var kind := KindOfCode(f[0]);
    if |f| == FieldCount && kind.Some? then
      CodeRoundTrip(kind.value, f[0]);
      Some(Packet(kind.value, f[1], f[2], f[3], f[4], f[5], f[6]))
    else
      None
  }

  /** Decoding an encoded packet gives the packet back. */
  lemma DecodeEncode(p: Packet)
    requires Encodable(p)
    ensures Decode(Encode(p)) == Some(p)
  {
    SplitJoin(Fields(p), '|');
    CodeRoundTrip(p.kind, CodeOf(p.kind));
  }

  /** An encoding decodes exactly when no field holds the separator, and
      then to the packet itself: a stray `|` in any field adds a field, so
      the decoder's seven-field test refuses it. */
  lemma EncodeDecodesIff(p: Packet)
    ensures Decode(Encode(p)).Some? <==> Encodable(p)
    ensures Decode(Encode(p)).Some? ==> Decode(Encode(p)) == Some(p)
  {
    if Encodable(p) {
      DecodeEncode(p);
    } else {
      var k :| 0 <= k < |Fields(p)| && '|' in Fields(p)[k];
      JoinCount(Fields(p), '|');
      SplitCount(Encode(p), '|');
      assert |Split(Encode(p), '|')| > FieldCount;
    }
  }

  /** Every accepted string is the encoding of the packet it decodes to,
      and that packet is encodable: the codec is a bijection between
      encodable packets and accepted strings. */
  lemma EncodeDecode(data: string)
    requires Decode(data).Some?
    ensures Encode(Decode(data).value) == data
    ensures Encodable(Decode(data).value)
  {
    SplitJoinsBack(data, '|');
  }

  /** The encoding written out field by field, as the listener's template
      strings spell it. */
  lemma EncodeSpelledOut(p: Packet)
    ensures Encode(p) == CodeOf(p.kind) + "|" + p.conversationId + "|" + p.conversationName
                         + "|" + p.clientId + "|" + p.profileId + "|" + p.username + "|" + p.contentId
  {
    JoinSeven(CodeOf(p.kind), p.conversationId, p.conversationName, p.clientId,
              p.profileId, p.username, p.contentId);
  }

  lemma JoinSeven(a: string, b: string, c: string, d: string, e: string, f: string, g: string)
    ensures Join([a, b, c, d, e, f, g], '|') == a + "|" + b + "|" + c + "|" + d + "|" + e + "|" + f + "|" + g
  {
    assert [f, g][1..] == [g];
    assert Join([g], '|') == g;
    var j6 := Join([f, g], '|');
    assert j6 == f + ['|'] + Join([g], '|');
    assert j6 == f + "|" + g;
    assert [e, f, g][1..] == [f, g];
    var j5 := Join([e, f, g], '|');
    assert j5 == e + "|" + j6;
    assert [d, e, f, g][1..] == [e, f, g];
    var j4 := Join([d, e, f, g], '|');
    assert j4 == d + "|" + j5;
    assert [c, d, e, f, g][1..] == [d, e, f, g];
    var j3 := Join([c, d, e, f, g], '|');
    assert j3 == c + "|" + j4;
    assert [b, c, d, e, f, g][1..] == [c, d, e, f, g];
    var j2 := Join([b, c, d, e, f, g], '|');
    assert j2 == b + "|" + j3;
    assert [a, b, c, d, e, f, g][1..] == [b, c, d, e, f, g];
    assert Join([a, b, c, d, e, f, g], '|') == a + "|" + j2;
  }
}
