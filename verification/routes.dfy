/** The server's decision rules for three routes: who gets a publish or
    subscribe token, where a subscription link redirects, and when a
    posted device token counts as a change. Storage, token minting, JWT
    checking and byte conversions are parameters or outputs. */
module Routes {
  import opened Wrappers
  import opened Strings

  /** A JSON body field is truthy when present and not the empty string. */
  predicate Truthy(f: Option<string>) {
    f.Some? && f.value != ""
  }

  /** The storage key of a client, `cli:${clientId}`. */
  function ClientKey(clientId: string): string {
    "cli:" + clientId
  }

  const InvalidPostData := "Invalid post data"
  const InvalidAuthorizationHeader := "Invalid authorization header"
  const InvalidAuthorization := "Invalid authorization"
  const InvalidActivity := "Invalid activity"
  const SelfPublishing := "Self-publishing is not allowed"
  const Impersonation := "Impersonation is not allowed"

  const BearerPrefix := "bearer "

  // ---------------------------------------------------------------------
  // pubSubTokenRequest

  datatype TokenBody = TokenBody(
    clientId: Option<string>,
    activity: Option<string>,
    publisherId: Option<string>,
    userName: Option<string>)

  /** The client data update the handler writes when a user name comes with
      the request: `{id, userName}` under the client's key. */
  datatype NameUpdate = NameUpdate(key: string, id: string, userName: string)

  /** The response: an error status with its reason, or the token request
      that is minted and sent with status 200. */
  datatype TokenReply =
    | Refused(code: int, reason: string)
    | IssuePublish(clientId: string)
    | IssueSubscribe(clientId: string, publisherId: string)

  datatype TokenOutcome = TokenOutcome(stored: Option<NameUpdate>, reply: TokenReply)

  predicate HasRequiredFields(body: TokenBody) {
    Truthy(body.clientId) && Truthy(body.activity) && Truthy(body.publisherId)
  }

  /** The Authorization header is present and, lower-cased, begins with
      `bearer `. */
  predicate HasBearer(auth: Option<string>) {
    Truthy(auth) && StartsWith(ToLower(auth.value), BearerPrefix)
  }

  /** The JWT after the seven-character scheme prefix. */
  function BearerToken(auth: string): string
    requires |auth| >= 7
  {
    auth[7..]
  }

  /** The token request handler. `validate(jwt, clientKey)` stands for the
      JWT check, which this model does not open. */
  function PubSubTokenRequest(body: TokenBody, auth: Option<string>, validate: (string, string) -> bool): (r: TokenOutcome)
    ensures !HasRequiredFields(body) ==> r == TokenOutcome(None, Refused(400, InvalidPostData))
    ensures r.stored.Some? <==> HasRequiredFields(body) && Truthy(body.userName)
    ensures r.stored.Some? ==>
              r.stored.value == NameUpdate(ClientKey(body.clientId.value), body.clientId.value, body.userName.value)
  {
    if !HasRequiredFields(body) then TokenOutcome(None, Refused(400, InvalidPostData))
    else
      var clientId := body.clientId.value;
      var stored := if Truthy(body.userName)
                    then Some(NameUpdate(ClientKey(clientId), clientId, body.userName.value))
                    else None;
      TokenOutcome(stored, Authorize(clientId, body.activity.value, body.publisherId.value, auth, validate))
  }

  /** The checks after the body check, in the handler's order. */
  function Authorize(clientId: string, activity: string, publisherId: string, auth: Option<string>,
                     validate: (string, string) -> bool): (r: TokenReply)
    ensures !HasBearer(auth) ==> r == Refused(403, InvalidAuthorizationHeader)
  {
    if !HasBearer(auth) then Refused(403, InvalidAuthorizationHeader)
    else if !validate(BearerToken(auth.value), ClientKey(clientId)) then Refused(403, InvalidAuthorization)
    else if activity != "publish" && activity != "subscribe" then Refused(400, InvalidActivity)
    else if clientId == publisherId && activity == "subscribe" then Refused(400, SelfPublishing)
    else if clientId != publisherId && activity != "subscribe" then Refused(400, Impersonation)
    else if activity == "publish" then IssuePublish(clientId)
    else IssueSubscribe(clientId, publisherId)
  }

  /** The request's JWT is accepted for the request's client. */
  predicate Authenticated(body: TokenBody, auth: Option<string>, validate: (string, string) -> bool)
    requires HasRequiredFields(body)
  {
    HasBearer(auth) && validate(BearerToken(auth.value), ClientKey(body.clientId.value))
  }

  /** A token is issued exactly for publishing as oneself or subscribing to
      someone else, by an authenticated client, and names the request's
      own ids. */
  lemma TokenIssuedIff(body: TokenBody, auth: Option<string>, validate: (string, string) -> bool)
    ensures var r := PubSubTokenRequest(body, auth, validate).reply;
            !r.Refused? <==>
              && HasRequiredFields(body)
              && Authenticated(body, auth, validate)
              && ((body.activity.value == "publish" && body.clientId.value == body.publisherId.value)
                  || (body.activity.value == "subscribe" && body.clientId.value != body.publisherId.value))
    ensures var r := PubSubTokenRequest(body, auth, validate).reply;
            && (r.IssuePublish? ==> body.activity == Some("publish") && r.clientId == body.clientId.value
                                    && body.publisherId == body.clientId)
            && (r.IssueSubscribe? ==> body.activity == Some("subscribe") && r.clientId == body.clientId.value
                                      && r.publisherId == body.publisherId.value && r.clientId != r.publisherId)
  {
  }

  /** Each refusal names the first rule the request breaks, in the order
      body, header, JWT, activity, self-subscription, impersonation. */
  lemma RefusalOrder(body: TokenBody, auth: Option<string>, validate: (string, string) -> bool)
    ensures var r := PubSubTokenRequest(body, auth, validate).reply;
            r == Refused(400, InvalidPostData) <==> !HasRequiredFields(body)
    ensures var r := PubSubTokenRequest(body, auth, validate).reply;
            r == Refused(403, InvalidAuthorizationHeader) <==> HasRequiredFields(body) && !HasBearer(auth)
    ensures var r := PubSubTokenRequest(body, auth, validate).reply;
            r == Refused(403, InvalidAuthorization) <==>
              HasRequiredFields(body) && HasBearer(auth) && !Authenticated(body, auth, validate)
    ensures var r := PubSubTokenRequest(body, auth, validate).reply;
            r == Refused(400, InvalidActivity) <==>
              HasRequiredFields(body) && Authenticated(body, auth, validate)
              && body.activity.value != "publish" && body.activity.value != "subscribe"
    ensures var r := PubSubTokenRequest(body, auth, validate).reply;
            r == Refused(400, SelfPublishing) <==>
              HasRequiredFields(body) && Authenticated(body, auth, validate)
              && body.activity.value == "subscribe" && body.clientId.value == body.publisherId.value
    ensures var r := PubSubTokenRequest(body, auth, validate).reply;
            r == Refused(400, Impersonation) <==>
              HasRequiredFields(body) && Authenticated(body, auth, validate)
              && body.activity.value == "publish" && body.clientId.value != body.publisherId.value
  {
  }

  /** The header passes the scheme test exactly when its first seven
      characters, lower-cased, are `bearer `. */
  lemma BearerIff(auth: Option<string>)
    ensures HasBearer(auth) <==> auth.Some? && |auth.value| >= 7 && ToLower(auth.value[..7]) == BearerPrefix
  {
    if auth.Some? && |auth.value| >= 7 {
      var low := ToLower(auth.value);
      assert ToLower(auth.value[..7]) == low[..7];
    }
  }

  /** The scheme test ignores letter case and needs the space. */
  lemma BearerCases()
    ensures HasBearer(Some("Bearer abc")) && HasBearer(Some("BEARER abc")) && HasBearer(Some("bearer "))
    ensures !HasBearer(Some("Bearerabc")) && !HasBearer(Some("")) && !HasBearer(None)
    ensures !HasBearer(Some("Basic abc"))
  {
    assert ToLower("Bearer abc")[..7] == BearerPrefix;
    assert ToLower("BEARER abc")[..7] == BearerPrefix;
    assert ToLower("bearer ")[..7] == BearerPrefix;
    assert ToLower("Bearerabc")[6] == 'a';
    assert ToLower("Basic abc")[1] == 'a';
  }

  // ---------------------------------------------------------------------
  // subscribeToPublisher

  const NotFoundPage := "/subscribe404.html"
  const ListenPage := "/listen/index.html"

  /** The cookie session the handler writes. */
  datatype Session = Session(publisherId: string, clientId: string)

  /** A 303 redirect, and the new session if the handler replaced it. */
  datatype Redirect = Redirect(location: string, session: Option<Session>)

  function ListenLocation(clientId: string, publisherId: string): string {
    ListenPage + "?clientId=" + clientId + "&publisherId=" + publisherId
  }

  /** The subscription link handler. `sessionClientId` is the client id the
      visitor's session already holds; `freshId` is the random id the
      handler draws when it holds none. */
  function SubscribeToPublisher(publisherId: Option<string>, sessionClientId: Option<string>, freshId: string): (r: Redirect)
    ensures r.session.None? <==> !(Truthy(publisherId) && IsUuidShaped(publisherId.value))
    ensures r.session.None? ==> r.location == NotFoundPage
  {
    if !Truthy(publisherId) || !IsUuidShaped(publisherId.value) then Redirect(NotFoundPage, None)
    else
      var clientId := if Truthy(sessionClientId) then sessionClientId.value else freshId;
      Redirect(ListenLocation(clientId, publisherId.value), Some(Session(publisherId.value, clientId)))
  }

  /** An accepted link sends the visitor to the listen page for that
      publisher, keeping the client id the session had or else using the
      fresh one, and the new session records the same pair. */
  lemma SubscribeAccepted(publisherId: string, sessionClientId: Option<string>, freshId: string)
    requires IsUuidShaped(publisherId)
    ensures var r := SubscribeToPublisher(Some(publisherId), sessionClientId, freshId);
            var c := if Truthy(sessionClientId) then sessionClientId.value else freshId;
            && r.session == Some(Session(publisherId, c))
            && r.location == ListenLocation(c, publisherId)
            && StartsWith(r.location, ListenPage + "?clientId=" + c + "&publisherId=")
            && r.location[|r.location| - 36..] == publisherId
  {
    var c := if Truthy(sessionClientId) then sessionClientId.value else freshId;
    var head := ListenPage + "?clientId=" + c + "&publisherId=";
    var loc := ListenLocation(c, publisherId);
    assert loc == head + publisherId;
    assert loc[..|head|] == head;
    assert loc[|loc| - 36..] == publisherId;
  }

  /** The query of the listen page link reads back as the two parameters:
      splitting it at `&` gives the client id and `publisherId=` followed by
      the publisher id. */
  lemma ListenLocationReadsBack(clientId: string, publisherId: string)
    requires '&' !in clientId
    requires IsUuidShaped(publisherId)
    ensures var q := ListenLocation(clientId, publisherId)[|ListenPage + "?clientId="|..];
            Split(q, '&') == [clientId, "publisherId=" + publisherId]
  {
    var q := ListenLocation(clientId, publisherId)[|ListenPage + "?clientId="|..];
    assert q == clientId + ['&'] + ("publisherId=" + publisherId);
    assert '&' !in "publisherId=" + publisherId by {
      assert forall i :: 0 <= i < |publisherId| ==> IsIdChar(publisherId[i]);
      assert forall i :: 0 <= i < |"publisherId="| ==> "publisherId="[i] != '&';
    }
    SplitAfterFirst(clientId, '&', "publisherId=" + publisherId);
    assert Split("publisherId=" + publisherId, '&') == ["publisherId=" + publisherId] by {
      SplitJoin(["publisherId=" + publisherId], '&');
    }
  }

  // ---------------------------------------------------------------------
  // apnsToken

  /** A stored client record; every field may be absent. */
  datatype ClientData = ClientData(
    id: Option<string>,
    deviceId: Option<string>,
    token: Option<string>,
    tokenDate: Option<int>,
    lastSecret: Option<string>,
    userName: Option<string>,
    appInfo: Option<string>)

  datatype ApnsBody = ApnsBody(
    token: Option<string>,
    deviceId: Option<string>,
    clientId: Option<string>,
    lastSecret: Option<string>,
    userName: Option<string>,
    appInfo: Option<string>)

  /** The record as received: device id, token and secret (the latter two
      converted from base64 to hex by `hex`). */
  datatype Received = Received(id: string, deviceId: string, token: string, tokenDate: int,
                               lastSecret: string, userName: string, appInfo: string)

  /** The record written for a received post. */
  function Record(r: Received): ClientData {
    ClientData(Some(r.id), Some(r.deviceId), Some(r.token), Some(r.tokenDate),
               Some(r.lastSecret), Some(r.userName), Some(r.appInfo))
  }

  /** The change test: no stored record, or its secret, token or device id
      differs from the received one (an absent stored field differs from
      any string). */
  predicate ClientChanged(existing: Option<ClientData>, received: Received)
    ensures existing.None? ==> ClientChanged(existing, received)
    ensures existing == Some(Record(received)) ==> !ClientChanged(existing, received)
  {
    || existing.None?
    || Some(received.lastSecret) != existing.value.lastSecret
    || Some(received.token) != existing.value.token
    || Some(received.deviceId) != existing.value.deviceId
  }

  /** A complete post writes nothing exactly when storage already holds a
      record for the client with the same secret and token (after the hex
      conversion) and the same device id; the rest of the record is not
      looked at, and an incomplete post writes nothing either. */
  lemma UnchangedIff(body: ApnsBody, existing: Option<ClientData>, now: int, hex: string -> string)
    ensures var r := ApnsToken(body, existing, now, hex);
            r.ApnsAccepted? && r.write.None? && !r.changed <==>
              && Truthy(body.token) && Truthy(body.deviceId) && Truthy(body.clientId) && Truthy(body.lastSecret)
              && exists d :: existing == Some(d) && d.lastSecret == Some(hex(body.lastSecret.value))
                            && d.token == Some(hex(body.token.value)) && d.deviceId == Some(body.deviceId.value)
  {
    var r := ApnsToken(body, existing, now, hex);
    if r.ApnsAccepted? && !r.changed {
      var d := existing.value;
      assert existing == Some(d);
    }
  }

  /** The response: 400 for a missing field, otherwise 204 with the write
      (if any) and the change flag passed on to the secret sender. */
  datatype ApnsOutcome =
    | ApnsRefused(code: int, reason: string)
    | ApnsAccepted(key: string, write: Option<ClientData>, changed: bool)

  function Receive(body: ApnsBody, now: int, hex: string -> string): Received
    requires Truthy(body.token) && Truthy(body.deviceId) && Truthy(body.clientId) && Truthy(body.lastSecret)
  {
    Received(body.clientId.value, body.deviceId.value, hex(body.token.value), now,
             hex(body.lastSecret.value),
             if Truthy(body.userName) then body.userName.value else "",
             if Truthy(body.appInfo) then body.appInfo.value else "")
  }

  /** The device token handler. `existing` is what storage holds under the
      client's key; `now` the clock; `hex` the base64-to-hex conversion. */
  function ApnsToken(body: ApnsBody, existing: Option<ClientData>, now: int, hex: string -> string): (r: ApnsOutcome)
    ensures r.ApnsRefused? <==>
              !(Truthy(body.token) && Truthy(body.deviceId) && Truthy(body.clientId) && Truthy(body.lastSecret))
    ensures r.ApnsRefused? ==> r == ApnsRefused(400, InvalidPostData)
    ensures r.ApnsAccepted? ==> r.key == ClientKey(body.clientId.value) && (r.write.Some? <==> r.changed)
    ensures r.ApnsAccepted? ==>
              (r.changed <==> || existing.None?
                              || existing.value.lastSecret != Some(hex(body.lastSecret.value))
                              || existing.value.token != Some(hex(body.token.value))
                              || existing.value.deviceId != Some(body.deviceId.value))
    ensures r.ApnsAccepted? && r.changed ==> r.write == Some(Record(Receive(body, now, hex)))
  {
    if !(Truthy(body.token) && Truthy(body.deviceId) && Truthy(body.clientId) && Truthy(body.lastSecret)) then
      ApnsRefused(400, InvalidPostData)
    else
      var received := Receive(body, now, hex);
      var changed := ClientChanged(existing, received);
      ApnsAccepted(ClientKey(received.id), if changed then Some(Record(received)) else None, changed)
  }

  /** Posting the same device token again, once the first post was stored,
      writes nothing and tells the secret sender nothing changed; a first
      post always writes. */
  lemma RepeatPostUnchanged(body: ApnsBody, now1: int, now2: int, hex: string -> string)
    requires Truthy(body.token) && Truthy(body.deviceId) && Truthy(body.clientId) && Truthy(body.lastSecret)
    ensures var first := ApnsToken(body, None, now1, hex);
            && first.ApnsAccepted? && first.changed && first.write.Some?
            && ApnsToken(body, first.write, now2, hex) == ApnsAccepted(first.key, None, false)
  {
  }

  /** A post whose secret, token or device id differs from the stored one
      is written, whatever else the stored record holds. */
  lemma ChangedPostWritten(body: ApnsBody, d: ClientData, now: int, hex: string -> string)
    requires Truthy(body.token) && Truthy(body.deviceId) && Truthy(body.clientId) && Truthy(body.lastSecret)
    requires d.lastSecret != Some(hex(body.lastSecret.value)) || d.token != Some(hex(body.token.value))
             || d.deviceId != Some(body.deviceId.value)
    ensures ApnsToken(body, Some(d), now, hex) == ApnsAccepted(ClientKey(body.clientId.value),
                                                             Some(Record(Receive(body, now, hex))), true)
  {
  }
}
