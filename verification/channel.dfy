/** What the listener sees of the publish/subscribe transport: inbound
    messages (a message name and a string payload), the outward effects its
    handlers request, and the address filter both channel handlers apply. */
module Channel {
  import opened Strings

  /** An inbound transport message: `name` addresses it, `data` carries it. */
  datatype Message = Message(name: string, data: string)

  /** What a handler asks of its surroundings. `Publish` is a transport
      publish on the conversation's control channel; `Terminate` is the
      root component's teardown; `TerminateAfter` schedules it with
      `setTimeout`; `Alert` is a browser alert. */
  datatype Effect =
    | Publish(channel: string, name: string, data: string)
    | Terminate
    | TerminateAfter(ms: nat)
    | Alert(text: string)

  /** Who this listener is: the conversation it joins, its client id and
      the name it shows to the speaker. */
  datatype Identity = Identity(conversationId: string, clientId: string, clientName: string)

  /** Message name the listener uses to address the speaker. */
  const SpeakerName := "whisperer"

  /** `${conversationId}:control`, the channel for handshake packets. */
  function ControlChannel(conversationId: string): string {
    conversationId + ":control"
  }

  /** Broadcast target: a message of this name is for every listener. */
  const Everyone := "ALL"

  /** A message is for this client when its name, upper-cased, is this
      client's id upper-cased or is `ALL`. */
  predicate Addressed(name: string, clientId: string) {
    ToUpper(name) == ToUpper(clientId) || ToUpper(name) == Everyone
  }

  /** The filter ignores letter case both ways and admits the broadcast
      name in any case; any other name is refused. */
  lemma AddressedCases(clientId: string)
    ensures Addressed(clientId, clientId)
    ensures Addressed(ToUpper(clientId), clientId) && Addressed(ToLower(clientId), clientId)
    ensures Addressed("all", clientId) && Addressed("All", clientId) && Addressed(Everyone, clientId)
  {
    UpperIdempotent(clientId);
    UpperOfLower(clientId);
  }

  /** A name addresses this client exactly when it has the client id's
      length and matches it character by character up to ASCII letter case,
      or it spells `ALL` in any case. So a name of another length is refused
      unless it is the broadcast name. */
  lemma AddressedIff(name: string, clientId: string)
    ensures Addressed(name, clientId) <==>
              || (|name| == |clientId| && forall i :: 0 <= i < |name| ==> UpperChar(name[i]) == UpperChar(clientId[i]))
              || (|name| == 3 && UpperChar(name[0]) == 'A' && UpperChar(name[1]) == 'L' && UpperChar(name[2]) == 'L')
    ensures Addressed(name, clientId) ==> |name| == |clientId| || |name| == 3
  {
    if |name| == |clientId| && forall i :: 0 <= i < |name| ==> UpperChar(name[i]) == UpperChar(clientId[i]) {
      assert ToUpper(name) == ToUpper(clientId);
    }
    if |name| == 3 && UpperChar(name[0]) == 'A' && UpperChar(name[1]) == 'L' && UpperChar(name[2]) == 'L' {
      assert ToUpper(name) == Everyone;
    }
    if ToUpper(name) == ToUpper(clientId) {
      assert forall i :: 0 <= i < |name| ==> UpperChar(name[i]) == ToUpper(name)[i];
    }
    if ToUpper(name) == Everyone {
      assert ToUpper(name)[0] == 'A' && ToUpper(name)[1] == 'L' && ToUpper(name)[2] == 'L';
    }
  }

  /** Concrete cases: mixed case is admitted, another client's id, a
      longer id sharing a prefix and other broadcast-like names are not. */
  lemma AddressedExamples()
    ensures Addressed("aLiCe", "ALICE") && Addressed("alice", "Alice")
    ensures !Addressed("bob", "alice") && !Addressed("alicia", "alice") && !Addressed("alice", "alice2")
    ensures !Addressed("everyone", "alice") && !Addressed("al", "alice")
  {
    assert ToUpper("aLiCe") == "ALICE" == ToUpper("ALICE");
    assert ToUpper("alice") == "ALICE" == ToUpper("Alice");
    assert ToUpper("bob")[0] == 'B';
    assert ToUpper("alice")[0] == 'A';
    assert ToUpper("alicia")[4] == 'I';
    assert ToUpper("alice")[4] == 'E';
    assert |ToUpper("alice2")| == 6;
    assert |ToUpper("everyone")| == 8;
    assert |ToUpper("al")| == 2;
  }

  lemma UpperIdempotent(s: string)
    ensures ToUpper(ToUpper(s)) == ToUpper(s)
  {
  }

  lemma UpperOfLower(s: string)
    ensures ToUpper(ToLower(s)) == ToUpper(s)
  {
  }
}
