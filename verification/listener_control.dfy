/** The listener's handshake on the control channel: the status it shows,
    and how each addressed control packet moves it (`initial` →
    `requesting` → a content id, or `denied`, or teardown). */
module ListenerControl {
  import opened Wrappers
  import opened Strings
  import opened Channel
  import opened ControlPacket

  /** Every value the handshake stores as its status. `Granted` carries the
      content id that names the session's content channel. */
  datatype Status = Initial | Requesting | Denied | InvalidNotice | Granted(contentId: string)

  const InvalidPacketNotice := "Ignoring an invalid packet; see log for details"
  const InvalidChannelAlert := "Communication error: invalid channel id!"
  /** Delay between a refusal and the teardown it schedules. */
  const DenialGraceMs: nat := 1000

  /** The status string the component holds. */
  function StatusText(s: Status): string {
    match s
    case Initial => "initial"
    case Requesting => "requesting"
    case Denied => "denied"
    case InvalidNotice => InvalidPacketNotice
    case Granted(id) => id
  }

  /** The component shows the content view exactly when its status string
      matches `^[A-Za-z0-9-]{36}$`. */
  predicate ShowsContent(statusText: string) {
    IsUuidShaped(statusText)
  }

  /** A granted status always carries a well-shaped content id. */
  predicate WellFormed(s: Status) {
    s.Granted? ==> IsUuidShaped(s.contentId)
  }

  /** The status after a message, and the effects the message caused. */
  datatype Step = Step(status: Status, effects: seq<Effect>)

  /** The packet announcing this listener when it first renders. */
  function ListenOfferFrom(me: Identity): Packet {
    Packet(ListenOffer, me.conversationId, "", me.clientId, me.clientId, "", "")
  }

  /** The packet answering a speaker's whisper offer. */
  function ListenRequestFor(me: Identity, offer: Packet): Packet {
    Packet(ListenRequest, me.conversationId, offer.conversationName, me.clientId,
           me.clientId, me.clientName, "")
  }

  /** The control-channel message handler. */
  function HandleControl(me: Identity, status: Status, m: Message): (r: Step)
    ensures WellFormed(status) ==> WellFormed(r.status)
    ensures !Addressed(m.name, me.clientId) ==> r == Step(status, [])
    ensures Addressed(m.name, me.clientId) && Decode(m.data).None? ==> r == Step(InvalidNotice, [])
    ensures Addressed(m.name, me.clientId) && Decode(m.data).Some?
            && Decode(m.data).value.kind in {ListenRequest, Joining, ListenOffer, RequestReread}
            ==> r == Step(status, [])
  {
    if !Addressed(m.name, me.clientId) then Step(status, [])
    else
      match Decode(m.data)
      case None => Step(InvalidNotice, [])
      case Some(p) =>
        match p.kind
        case Dropping => Step(status, [Terminate])
        case ListenAuthYes =>
          if IsUuidShaped(p.contentId) then Step(Granted(p.contentId), [])
          else Step(status, [Alert(InvalidChannelAlert), Terminate])
        case ListenAuthNo => Step(Denied, [TerminateAfter(DenialGraceMs)])
        case WhisperOffer =>
          Step(Requesting, [Publish(ControlChannel(me.conversationId), p.clientId,
                                    Encode(ListenRequestFor(me, p)))])
        case _ => Step(status, [])
  }

  /** The content view is shown exactly in the granted states. */
  lemma ShowsContentIffGranted(s: Status)
    requires WellFormed(s)
    ensures ShowsContent(StatusText(s)) <==> s.Granted?
  {
    assert |InvalidPacketNotice| != 36;
  }

  /** The status becomes a content id only through an addressed
      `listenAuthYes` carrying that id, and only a well-shaped id; a
      `listenAuthYes` with a malformed id alerts and tears down instead. */
  lemma GrantOnlyByValidAuthYes(me: Identity, status: Status, m: Message, id: string)
    requires HandleControl(me, status, m).status == Granted(id)
    requires status != Granted(id)
    ensures Addressed(m.name, me.clientId)
    ensures Decode(m.data).Some? && Decode(m.data).value.kind == ListenAuthYes
    ensures Decode(m.data).value.contentId == id && IsUuidShaped(id)
  {
  }

  lemma AuthYesOutcome(me: Identity, status: Status, m: Message)
    requires Addressed(m.name, me.clientId)
    requires Decode(m.data).Some? && Decode(m.data).value.kind == ListenAuthYes
    ensures var id := Decode(m.data).value.contentId;
            var r := HandleControl(me, status, m);
            (IsUuidShaped(id) ==> r == Step(Granted(id), []))
            && (!IsUuidShaped(id) ==> r.status == status && r.effects == [Alert(InvalidChannelAlert), Terminate])
  {
  }

  /** A refusal shows `denied` and schedules one teardown a second later;
      a drop tears down at once and leaves the status alone. */
  lemma RefusalAndDropOutcome(me: Identity, status: Status, m: Message)
    requires Addressed(m.name, me.clientId) && Decode(m.data).Some?
    ensures Decode(m.data).value.kind == ListenAuthNo ==>
              HandleControl(me, status, m) == Step(Denied, [TerminateAfter(1000)])
    ensures Decode(m.data).value.kind == Dropping ==>
              HandleControl(me, status, m) == Step(status, [Terminate])
  {
  }

  /** A handled message publishes something only when it is a whisper
      offer, and then exactly one listen request, addressed by message name
      to the offering speaker's client id. The speaker's decoder reads it
      back as this listener's request exactly when the listener's own ids
      and name hold no `|`; otherwise the request carries extra fields and
      is refused as invalid. */
  lemma WhisperOfferAnswered(me: Identity, status: Status, m: Message)
    ensures var r := HandleControl(me, status, m);
            (exists k :: 0 <= k < |r.effects| && r.effects[k].Publish?) <==>
              (Addressed(m.name, me.clientId) && Decode(m.data).Some? && Decode(m.data).value.kind == WhisperOffer)
    ensures var r := HandleControl(me, status, m);
            Addressed(m.name, me.clientId) && Decode(m.data).Some? && Decode(m.data).value.kind == WhisperOffer ==>
              var offer := Decode(m.data).value;
              && r.status == Requesting
              && |r.effects| == 1
              && r.effects[0].channel == ControlChannel(me.conversationId)
              && r.effects[0].name == offer.clientId
              && (Decode(r.effects[0].data).Some? <==>
                    '|' !in me.conversationId && '|' !in me.clientId && '|' !in me.clientName)
              && (Decode(r.effects[0].data).Some? ==> Decode(r.effects[0].data) == Some(ListenRequestFor(me, offer)))
  {
    var r := HandleControl(me, status, m);
    if Addressed(m.name, me.clientId) && Decode(m.data).Some? && Decode(m.data).value.kind == WhisperOffer {
      var offer := Decode(m.data).value;
      EncodeDecode(m.data);
      var req := ListenRequestFor(me, offer);
      assert Fields(req)[2] == Fields(offer)[2];
      assert Encodable(req) <==> '|' !in me.conversationId && '|' !in me.clientId && '|' !in me.clientName by {
        assert Fields(req)[1] == me.conversationId;
        assert Fields(req)[3] == me.clientId;
        assert Fields(req)[5] == me.clientName;
      }
      EncodeDecodesIff(req);
      assert r.effects[0].Publish?;
    }
  }

  /** The listen offer is a well-formed control packet exactly when the
      listener's ids hold no separator, and then reads back as itself. */
  lemma ListenOfferDecodes(me: Identity)
    ensures Decode(Encode(ListenOfferFrom(me))).Some? <==> '|' !in me.conversationId && '|' !in me.clientId
    ensures Decode(Encode(ListenOfferFrom(me))).Some? ==> Decode(Encode(ListenOfferFrom(me))) == Some(ListenOfferFrom(me))
  {
    var offer := ListenOfferFrom(me);
    assert Encodable(offer) <==> '|' !in me.conversationId && '|' !in me.clientId by {
      assert Fields(offer)[1] == me.conversationId;
      assert Fields(offer)[3] == me.clientId;
    }
    EncodeDecodesIff(offer);
  }
}
