/** The listener page as a whole: the handshake status, the content view's
    text, the page-global resync flag and one-shot counters, and whether
    the root has torn the conversation down. Every event is followed by a
    render, which sends the listen offer once per page and, the first time
    the content view shows, asks once for the live text. */
module Listener {
  import opened Strings
  import opened Channel
  import opened ControlPacket
  import opened ListenerControl
  import opened Content
  import opened OneShot
  import ContentRuns

  /** One-shot keys the bundle uses. */
  const OfferKey := "initialOffer"
  const ReadKey := "initialRead"

  datatype Page = Page(
    status: Status,
    replica: Replica,
    shots: map<string, nat>,
    ended: bool)

  /** What reaches the page: the first render, a control-channel message,
      a content-channel message, or the delayed teardown firing. */
  datatype Event = Start | ControlMessage(m: Message) | ContentMessage(m: Message) | Teardown

  datatype Outcome = Outcome(page: Page, effects: seq<Effect>)

  /** A freshly loaded page. */
  const Fresh := Page(Initial, Replica(Text("", ""), false), map[], false)

  /** The listen offer as published on the control channel. */
  function OfferEffect(me: Identity): Effect {
    Publish(ControlChannel(me.conversationId), SpeakerName, Encode(ListenOfferFrom(me)))
  }

  /** Whether the content view (rather than the status view) is mounted. */
  predicate ContentShown(p: Page) {
    ShowsContent(StatusText(p.status))
  }

  /** A render of the handshake component and, when shown, the content
      view: the offer fires once per page, then the initial read once per
      page. A torn-down page renders nothing of either. */
  function Render(me: Identity, p: Page): (r: Outcome)
    ensures r.page.status == p.status && r.page.ended == p.ended
    ensures r.page.replica.text == p.replica.text
    ensures p.ended ==> r == Outcome(p, [])
    ensures OfferEffect(me) in r.effects <==> !p.ended && Count(p.shots, OfferKey) < 1
    ensures forall k :: 0 <= k < |r.effects| ==> r.effects[k] == OfferEffect(me) || r.effects[k] == RereadEffect(me)
    ensures r.page.replica.resyncing <==> p.replica.resyncing || RereadEffect(me) in r.effects
    ensures RereadEffect(me) in r.effects <==>
              !p.ended && ContentShown(p) && Count(p.shots, ReadKey) < 1 && !p.replica.resyncing
    ensures p.ended || !ContentShown(p) ==> Count(r.page.shots, ReadKey) == Count(p.shots, ReadKey)
    ensures !p.ended && ContentShown(p) ==> Count(r.page.shots, ReadKey) >= 1
  {
    if p.ended then Outcome(p, [])
    else
      OfferIsNotReread(me);
      var (q1, offered) := Fire(p.shots, OfferKey, 1);
      var e1 := if offered then [OfferEffect(me)] else [];
      if !ContentShown(p) then Outcome(p.(shots := q1), e1)
      else
        var (q2, reading) := Fire(q1, ReadKey, 1);
        if !reading then Outcome(p.(shots := q2), e1)
        else
          var (flag, e2) := Reread(me, p.replica.resyncing);
          Outcome(Page(p.status, Replica(p.replica.text, flag), q2, false), e1 + e2)
  }

  /** The effects of a handler as they bear on the page: whether they tear
      it down at once. */
  function EndsPage(effects: seq<Effect>): bool {
    Terminate in effects
  }

  /** The page after an event and its render. */
  function Step(me: Identity, p: Page, e: Event): (r: Outcome)
    ensures p.ended ==> r == Outcome(p, [])
    ensures !p.ended && e.Teardown? ==> r == Outcome(p.(ended := true), [])
    ensures e.ContentMessage? && !ContentShown(p) ==> r == Outcome(p, [])
    ensures && !p.ended && e.ContentMessage? && ContentShown(p)
            && Count(p.shots, OfferKey) >= 1 && Count(p.shots, ReadKey) >= 1
            ==> var u := HandleContent(me, p.replica, e.m);
                r == Outcome(p.(replica := u.replica), u.effects)
  {
    if p.ended then Outcome(p, [])
    else
      match e
      case Start => Render(me, p)
      case Teardown => Outcome(p.(ended := true), [])
      case ControlMessage(m) =>
        var s := HandleControl(me, p.status, m);
        var mounting := !ContentShown(p) && ShowsContent(StatusText(s.status));
        var text := if mounting then Text("", "") else p.replica.text;
        var p1 := Page(s.status, Replica(text, p.replica.resyncing), p.shots, EndsPage(s.effects));
        var rendered := Render(me, p1);
        Outcome(rendered.page, s.effects + rendered.effects)
      case ContentMessage(m) =>
        if !ContentShown(p) then Outcome(p, [])
        else
          var u := HandleContent(me, p.replica, m);
          var rendered := Render(me, p.(replica := u.replica));
          Outcome(rendered.page, u.effects + rendered.effects)
  }

  /** A control message on a live page: the handler's status and effects
      come first and are kept whole; the page ends exactly when the handler
      asks for an immediate teardown; the render then adds at most the
      listen offer and the reread request; resync holds afterwards exactly
      when it held before or the reread request went out, which it does
      only when no resync was pending; and the text is emptied only when
      the content view mounts. */
  lemma ControlStep(me: Identity, p: Page, m: Message)
    requires !p.ended
    ensures var s := HandleControl(me, p.status, m);
            var r := Step(me, p, ControlMessage(m));
            && r.page.status == s.status
            && r.page.ended == (Terminate in s.effects)
            && |s.effects| <= |r.effects| && r.effects[..|s.effects|] == s.effects
            && (forall k :: |s.effects| <= k < |r.effects| ==> r.effects[k] == OfferEffect(me) || r.effects[k] == RereadEffect(me))
            && (r.page.replica.resyncing <==> p.replica.resyncing || RereadEffect(me) in r.effects)
            && (RereadEffect(me) in r.effects ==> !p.replica.resyncing)
            && r.page.replica.text == if !ContentShown(p) && ShowsContent(StatusText(s.status)) then Text("", "")
                                      else p.replica.text
  {
    var s := HandleControl(me, p.status, m);
    var mounting := !ContentShown(p) && ShowsContent(StatusText(s.status));
    var text := if mounting then Text("", "") else p.replica.text;
    var p1 := Page(s.status, Replica(text, p.replica.resyncing), p.shots, EndsPage(s.effects));
    var rendered := Render(me, p1);
    var r := Step(me, p, ControlMessage(m));
    assert r == Outcome(rendered.page, s.effects + rendered.effects);
    RereadIsNoHandlerEffect(me, p.status, m);
    assert RereadEffect(me) in r.effects <==> RereadEffect(me) in rendered.effects;
    assert (s.effects + rendered.effects)[..|s.effects|] == s.effects;
    forall k | |s.effects| <= k < |r.effects|
      ensures r.effects[k] == OfferEffect(me) || r.effects[k] == RereadEffect(me)
    {
      assert r.effects[k] == rendered.effects[k - |s.effects|];
    }
  }

  /** The page after a run of events, and everything it published. */
  function Run(me: Identity, p: Page, es: seq<Event>): Outcome
    decreases |es|
  {
    if |es| == 0 then Outcome(p, [])
    else
      var first := Step(me, p, es[0]);
      var rest := Run(me, first.page, es[1..]);
      Outcome(rest.page, first.effects + rest.effects)
  }

  /** Rendering twice is rendering once: the second render (React's strict
      mode, or any re-render) changes nothing and publishes nothing. */
  lemma RenderIdempotent(me: Identity, p: Page)
    ensures var once := Render(me, p);
            Render(me, once.page) == Outcome(once.page, [])
  {
    var once := Render(me, p);
    if !p.ended {
      assert Count(once.page.shots, OfferKey) >= 1;
      if ContentShown(p) {
        assert Count(once.page.shots, ReadKey) >= 1;
      }
    }
  }

  /** The first render of a fresh page publishes the listen offer and
      nothing else. */
  lemma FirstRender(me: Identity)
    ensures Step(me, Fresh, Start).effects == [OfferEffect(me)]
  {
    assert StatusText(Initial) == "initial";
    assert !IsUuidShaped("initial");
  }

  /** Content messages are not seen until the content view is shown. */
  lemma ContentIgnoredUntilShown(me: Identity, p: Page, m: Message)
    requires !ContentShown(p)
    ensures Step(me, p, ContentMessage(m)) == Outcome(p, [])
  {
  }

  /** Entering the content view from the status view starts from an empty
      text; a further grant while it is shown keeps the text. */
  lemma MountResetsText(me: Identity, p: Page, m: Message)
    requires !p.ended
    ensures var s := HandleControl(me, p.status, m);
            var r := Step(me, p, ControlMessage(m));
            && (!ContentShown(p) && ShowsContent(StatusText(s.status)) ==> r.page.replica.text == Text("", ""))
            && (ContentShown(p) ==> r.page.replica.text == p.replica.text)
            && r.page.status == s.status
  {
  }

  /** A grant that mounts the content view on a page whose `initialRead`
      is unspent and with no resync outstanding asks once for the live
      text. `FreshRunRequestsRead` shows that every run from a fresh page
      reaches its first mount in such a state. */
  lemma FirstShowRequestsRead(me: Identity, p: Page, m: Message)
    requires !p.ended && !ContentShown(p)
    requires Count(p.shots, OfferKey) >= 1 && ReadKey !in p.shots
    requires !p.replica.resyncing
    requires ShowsContent(StatusText(HandleControl(me, p.status, m).status))
    ensures var r := Step(me, p, ControlMessage(m));
            && r.effects == HandleControl(me, p.status, m).effects + [RereadEffect(me)]
            && r.page.replica == Replica(Text("", ""), true)
  {
    var s := HandleControl(me, p.status, m);
    assert !EndsPage(s.effects) by {
      StatusShownOnlyAfterGrant(me, p.status, m);
    }
  }

  /** What every page reached from `Fresh` keeps about the initial read:
      while `initialRead` is unspent no resync is pending, and a live page
      showing the content view has spent it. */
  predicate ReadInvariant(p: Page) {
    && (Count(p.shots, ReadKey) == 0 ==> !p.replica.resyncing)
    && (!p.ended && ContentShown(p) ==> Count(p.shots, ReadKey) >= 1)
  }

  lemma StepKeepsReadInvariant(me: Identity, p: Page, e: Event)
    requires ReadInvariant(p)
    ensures ReadInvariant(Step(me, p, e).page)
  {
    StepKeepsShots(me, p, e, ReadKey);
    if !p.ended && e.ControlMessage? {
      ControlStep(me, p, e.m);
    }
  }

  /** A step from a page with `initialRead` unspent spends it only by
      publishing the reread request. */
  lemma ReadSpentOnlyWithRequest(me: Identity, p: Page, e: Event)
    requires ReadInvariant(p) && Count(p.shots, ReadKey) == 0
    ensures var r := Step(me, p, e);
            Count(r.page.shots, ReadKey) >= 1 ==> RereadEffect(me) in r.effects
  {
    if !p.ended && e.ControlMessage? {
      ControlStep(me, p, e.m);
    }
  }

  lemma {:induction false} RunKeepsReadInvariant(me: Identity, p: Page, es: seq<Event>)
    requires ReadInvariant(p)
    ensures ReadInvariant(Run(me, p, es).page)
    decreases |es|
  {
    if |es| > 0 {
      StepKeepsReadInvariant(me, p, es[0]);
      RunKeepsReadInvariant(me, Step(me, p, es[0]).page, es[1..]);
    }
  }

  /** Over a run from a page with `initialRead` unspent, the one-shot is
      spent only together with a published reread request. */
  lemma {:induction false} RunSpendsReadWithRequest(me: Identity, p: Page, es: seq<Event>)
    requires ReadInvariant(p) && Count(p.shots, ReadKey) == 0
    ensures var r := Run(me, p, es);
            Count(r.page.shots, ReadKey) >= 1 ==> RereadEffect(me) in r.effects
    decreases |es|
  {
    if |es| > 0 {
      var first := Step(me, p, es[0]);
      ReadSpentOnlyWithRequest(me, p, es[0]);
      if Count(first.page.shots, ReadKey) == 0 {
        StepKeepsReadInvariant(me, p, es[0]);
        RunSpendsReadWithRequest(me, first.page, es[1..]);
      } else {
        StepKeepsShots(me, p, es[0], ReadKey);
      }
    }
  }

  /** On any run from a freshly loaded page, a live page showing the
      content view has asked for the live text: the first mount of the
      content view publishes the reread request. */
  lemma FreshRunRequestsRead(me: Identity, es: seq<Event>)
    ensures var r := Run(me, Fresh, es);
            && ReadInvariant(r.page)
            && (!r.page.ended && ContentShown(r.page) ==> RereadEffect(me) in r.effects)
  {
    assert !ContentShown(Fresh) by {
      assert StatusText(Initial) == "initial";
      assert !IsUuidShaped("initial");
    }
    RunKeepsReadInvariant(me, Fresh, es);
    RunSpendsReadWithRequest(me, Fresh, es);
  }

  /** A fresh page's first render followed by a grant publishes the offer
      and then, as the content view mounts, the reread request. */
  lemma FirstGrantRequestsRead(me: Identity, m: Message)
    requires ShowsContent(StatusText(HandleControl(me, Initial, m).status))
    ensures Run(me, Fresh, [Start, ControlMessage(m)]).effects == [OfferEffect(me), RereadEffect(me)]
  {
    FirstRender(me);
    var p := Step(me, Fresh, Start).page;
    assert !IsUuidShaped("initial");
    StatusShownOnlyAfterGrant(me, Initial, m);
    FirstShowRequestsRead(me, p, m);
    var es := [Start, ControlMessage(m)];
    assert es[1..] == [ControlMessage(m)] && es[1..][1..] == [];
    assert Run(me, p, es[1..]).effects == Step(me, p, ControlMessage(m)).effects;
  }

  /** A handler that moves the status into a shown content id does not
      also tear the page down. */
  lemma StatusShownOnlyAfterGrant(me: Identity, status: Status, m: Message)
    requires !ShowsContent(StatusText(status))
    requires ShowsContent(StatusText(HandleControl(me, status, m).status))
    ensures HandleControl(me, status, m).effects == []
  {
    assert |InvalidPacketNotice| != 36;
    assert !IsUuidShaped("denied") && !IsUuidShaped("requesting");
  }

  /** The page invariant: a granted status carries a well-shaped id. */
  predicate Invariant(p: Page) {
    WellFormed(p.status)
  }

  lemma {:induction false} RunKeepsInvariant(me: Identity, p: Page, es: seq<Event>)
    requires Invariant(p)
    ensures Invariant(Run(me, p, es).page)
    decreases |es|
  {
    if |es| > 0 {
      var first := Step(me, p, es[0]);
      assert Invariant(first.page);
      RunKeepsInvariant(me, first.page, es[1..]);
    }
  }

  /** A torn-down page stays torn down, quiet whatever arrives. */
  lemma {:induction false} EndedIsFinal(me: Identity, p: Page, es: seq<Event>)
    requires p.ended
    ensures Run(me, p, es) == Outcome(p, [])
    decreases |es|
  {
    if |es| > 0 {
      EndedIsFinal(me, p, es[1..]);
    }
  }

  /** The counter of a one-shot key never goes down. */
  lemma StepKeepsShots(me: Identity, p: Page, e: Event, key: string)
    ensures Count(Step(me, p, e).page.shots, key) >= Count(p.shots, key)
  {
  }

  /** Over any run of events after the first render, the listen offer is
      never published again. */
  lemma {:induction false} OfferNotRepeated(me: Identity, p: Page, es: seq<Event>)
    requires Count(p.shots, OfferKey) >= 1
    ensures OfferEffect(me) !in Run(me, p, es).effects
    decreases |es|
  {
    if |es| > 0 {
      var first := Step(me, p, es[0]);
      OfferNotRepeatedStep(me, p, es[0]);
      StepKeepsShots(me, p, es[0], OfferKey);
      OfferNotRepeated(me, first.page, es[1..]);
    }
  }

  lemma OfferNotRepeatedStep(me: Identity, p: Page, e: Event)
    requires Count(p.shots, OfferKey) >= 1
    ensures OfferEffect(me) !in Step(me, p, e).effects
  {
    if !p.ended && e.ControlMessage? {
      OfferIsNoHandlerEffect(me, p.status, e.m);
    } else if !p.ended && e.ContentMessage? && ContentShown(p) {
      OfferIsNoContentEffect(me, p.replica, e.m);
    }
  }

  /** Neither channel handler publishes the listen offer itself. */
  lemma OfferIsNoHandlerEffect(me: Identity, status: Status, m: Message)
    ensures OfferEffect(me) !in HandleControl(me, status, m).effects
  {
    var r := HandleControl(me, status, m);
    if Addressed(m.name, me.clientId) && Decode(m.data).Some? && Decode(m.data).value.kind == WhisperOffer {
      var offer := Decode(m.data).value;
      var req := ListenRequestFor(me, offer);
      EncodeSpelledOut(req);
      EncodeSpelledOut(ListenOfferFrom(me));
      assert Encode(req)[..3] == "-21";
      assert Encode(ListenOfferFrom(me))[..3] == "-26";
    }
  }

  lemma OfferIsNoContentEffect(me: Identity, st: Replica, m: Message)
    ensures OfferEffect(me) !in HandleContent(me, st, m).effects
  {
    HandleIsParseThenApply(me, st, m);
    ApplyShape(me, st, ParseChunk(m.data));
    OfferIsNotReread(me);
  }

  /** The listen offer and the reread request differ in their code. */
  lemma OfferIsNotReread(me: Identity)
    ensures OfferEffect(me) != RereadEffect(me)
  {
    EncodeSpelledOut(ListenOfferFrom(me));
    assert Encode(ListenOfferFrom(me))[1] == '2';
    assert RereadRequestData[1] == '4';
  }

  /** The content-channel messages `ms` as page events. */
  function ContentEvents(ms: seq<Message>): (es: seq<Event>)
    ensures |es| == |ms|
    ensures forall i :: 0 <= i < |ms| ==> es[i] == ContentMessage(ms[i])
  {
    seq(|ms|, i requires 0 <= i < |ms| => ContentMessage(ms[i]))
  }

  /** Once the content view is shown and both one-shots have fired, the
      page handles content messages exactly as the content handler does:
      the replica follows the handler's run, and the page publishes what
      the handler publishes and nothing else. */
  lemma {:induction false} ShownPageFollowsContent(me: Identity, p: Page, ms: seq<Message>)
    requires !p.ended && ContentShown(p)
    requires Count(p.shots, OfferKey) >= 1 && Count(p.shots, ReadKey) >= 1
    ensures var u := ContentRuns.Run(me, p.replica, ms);
            Run(me, p, ContentEvents(ms)) == Outcome(p.(replica := u.replica), u.effects)
    decreases |ms|
  {
    if |ms| > 0 {
      var es := ContentEvents(ms);
      var first := Step(me, p, es[0]);
      assert es[1..] == ContentEvents(ms[1..]);
      ShownPageFollowsContent(me, first.page, ms[1..]);
    }
  }

  /** On a shown page with resync pending, content messages that are not an
      addressed `-3|` chunk, then `-3|T`, leave the line `T` with the
      history untouched, end resync and publish nothing. */
  lemma ShownPageResyncConverges(me: Identity, p: Page, ms: seq<Message>, t: string)
    requires !p.ended && ContentShown(p) && p.replica.resyncing
    requires Count(p.shots, OfferKey) >= 1 && Count(p.shots, ReadKey) >= 1
    requires forall i :: 0 <= i < |ms| ==> !ContentRuns.Read(me, ms[i]).FullLiveText?
    ensures Run(me, p, ContentEvents(ms + [Message(me.clientId, "-3|" + t)]))
              == Outcome(p.(replica := Replica(Text(t, p.replica.text.past), false)), [])
  {
    ShownPageFollowsContent(me, p, ms + [Message(me.clientId, "-3|" + t)]);
    ContentRuns.ResyncConvergesOnChannel(me, p.replica, ms, t);
  }

  /** On a shown page the committed history only grows, at the front. */
  lemma ShownPageHistoryOnlyGrows(me: Identity, p: Page, ms: seq<Message>)
    requires !p.ended && ContentShown(p)
    requires Count(p.shots, OfferKey) >= 1 && Count(p.shots, ReadKey) >= 1
    ensures ContentRuns.IsSuffix(p.replica.text.past, Run(me, p, ContentEvents(ms)).page.replica.text.past)
  {
    ShownPageFollowsContent(me, p, ms);
    ContentRuns.HistoryOnlyGrowsOnChannel(me, p.replica, ms);
  }

  /** The control handler never publishes the reread request: its only
      publish is a listen request, whose code is `-21`. */
  lemma RereadIsNoHandlerEffect(me: Identity, status: Status, m: Message)
    ensures RereadEffect(me) !in HandleControl(me, status, m).effects
  {
    if Addressed(m.name, me.clientId) && Decode(m.data).Some? && Decode(m.data).value.kind == WhisperOffer {
      var req := ListenRequestFor(me, Decode(m.data).value);
      EncodeSpelledOut(req);
      assert Encode(req)[1] == '2';
      assert RereadRequestData[1] == '4';
    }
  }

  /** An addressed `dropping` packet tears a live page down at once, and
      its teardown is the first thing the step asks for. */
  lemma DropEndsPage(me: Identity, p: Page, m: Message)
    requires !p.ended && Addressed(m.name, me.clientId)
    requires Decode(m.data).Some? && Decode(m.data).value.kind == Dropping
    ensures var r := Step(me, p, ControlMessage(m));
            r.page.ended && |r.effects| >= 1 && r.effects[0] == Terminate
  {
    assert HandleControl(me, p.status, m).effects == [Terminate];
  }

  /** An addressed `listenAuthYes` with a malformed id alerts, then tears a
      live page down. */
  lemma MalformedGrantEndsPage(me: Identity, p: Page, m: Message)
    requires !p.ended && Addressed(m.name, me.clientId)
    requires Decode(m.data).Some? && Decode(m.data).value.kind == ListenAuthYes
    requires !IsUuidShaped(Decode(m.data).value.contentId)
    ensures var r := Step(me, p, ControlMessage(m));
            r.page.ended && r.page.status == p.status
            && |r.effects| >= 2 && r.effects[..2] == [Alert(InvalidChannelAlert), Terminate]
  {
    assert HandleControl(me, p.status, m).effects == [Alert(InvalidChannelAlert), Terminate];
  }

  /** An addressed whisper offer on a live page publishes the listen
      request to the offering client as the step's first effect and moves
      the page to `requesting`. */
  lemma WhisperOfferPublished(me: Identity, p: Page, m: Message)
    requires !p.ended && Addressed(m.name, me.clientId)
    requires Decode(m.data).Some? && Decode(m.data).value.kind == WhisperOffer
    ensures var offer := Decode(m.data).value;
            var r := Step(me, p, ControlMessage(m));
            && !r.page.ended && r.page.status == Requesting
            && |r.effects| >= 1
            && r.effects[0] == Publish(ControlChannel(me.conversationId), offer.clientId,
                                       Encode(ListenRequestFor(me, offer)))
  {
    var offer := Decode(m.data).value;
    assert HandleControl(me, p.status, m).effects
             == [Publish(ControlChannel(me.conversationId), offer.clientId, Encode(ListenRequestFor(me, offer)))];
  }
}
