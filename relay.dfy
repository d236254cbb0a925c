/**
 * The socket handlers of app/main/events.py as pure runs: from the node state
 * before an event to the state after it and the effects it had, in order. The
 * methods of module Events are proved to follow these functions; the lemmas here
 * state what the handlers promise.
 */
module Relay {
  import opened Common
  import opened HexCodec

  /** What `worker._recv_msg` leaves behind: the object store after the command ran
      (it may create or consume objects, even when it fails) and either the reply
      bytes or the text of the exception it raised. */
  datatype Execution = Execution(objects: ObjStore, reply: Result<Bytes, string>)

  /** The execution engine, supplied by the caller: it is not part of this model. */
  type Engine = (ObjStore, Bytes) -> Execution

  /** `WebsocketGridClient(hook, uri, id=id).connect()`, supplied by the caller:
      `None` when the connection is made, else the text of the exception it raised. */
  type Dialer = (string, string) -> Option<string>

  const CmdResponse: string := "/cmd-response"
  const ConnectNodeResponse: string := "/connect-node-response"
  const ConnectedText: string := "Succefully connected!"

  /** The object store and the snapshot after a `/cmd` event, and its effects. */
  datatype CmdRun = CmdRun(objects: ObjStore, snapshot: ObjStore, effects: seq<Effect>)

  function Respond(text: string): Effect
  {
    Emitted(Event(CmdResponse, text))
  }

  /** `cmd`: recover when the object store is empty, decode, execute, encode,
      snapshot, emit; any exception becomes the text of the one response. */
  function RunCmd(objects: ObjStore, snapshot: ObjStore, message: map<string, string>, engine: Engine): CmdRun
  {
    var cold := |objects| == 0;
    var recovered := if cold then snapshot else objects;
    var before := if cold then [Recovered] else [];
    if "message" !in message then
      CmdRun(recovered, snapshot, before + [Respond(KeyErrorText("message"))])
    else
      match TransportDecode(message["message"])
      case Err(e) =>
        CmdRun(recovered, snapshot, before + [Respond(e.Text())])
      case Ok(command) =>
        var run := engine(recovered, command);
        match run.reply
        case Err(text) =>
          CmdRun(run.objects, snapshot, before + [Executed(command), Respond(text)])
        case Ok(reply) =>
          CmdRun(run.objects, run.objects, before + [Executed(command), Snapshotted, Respond(TransportEncode(reply))])
  }

  /** The known workers after a `/connect-node` event, and its effects. */
  datatype ConnectRun = ConnectRun(known: map<string, string>, effects: seq<Effect>)

  /** `connect_node`: a peer whose id is already known is left alone; otherwise a
      connection is attempted and its outcome is the one response. */
  function RunConnectNode(known: map<string, string>, message: map<string, string>, dial: Dialer): ConnectRun
  {
    if "id" !in message then
      ConnectRun(known, [Emitted(Event(ConnectNodeResponse, KeyErrorText("id")))])
    else if message["id"] in known then
      ConnectRun(known, [])
    else if "uri" !in message then
      ConnectRun(known, [Emitted(Event(ConnectNodeResponse, KeyErrorText("uri")))])
    else
      var id, uri := message["id"], message["uri"];
      match dial(id, uri)
      case None =>
        ConnectRun(known[id := uri], [Dialed(id, uri), Emitted(Event(ConnectNodeResponse, ConnectedText))])
      case Some(text) =>
        ConnectRun(known, [Dialed(id, uri), Emitted(Event(ConnectNodeResponse, text))])
  }

  // ---------------------------------------------------------------------------
  // Properties of `cmd`
  // ---------------------------------------------------------------------------

  /** Every `/cmd` event emits exactly one `/cmd-response`, as its last effect. */
  lemma CmdRespondsOnce(objects: ObjStore, snapshot: ObjStore, message: map<string, string>, engine: Engine)
    ensures var e := RunCmd(objects, snapshot, message, engine).effects;
            && |e| > 0
            && e[|e| - 1].Emitted? && e[|e| - 1].event.name == CmdResponse
            && forall i :: 0 <= i < |e| - 1 ==> !e[i].Emitted?
  {
  }

  /** Recovery happens exactly when the object store is empty on entry, and then it
      is the first effect, before any decoding or execution. */
  lemma CmdRecoversWhenEmpty(objects: ObjStore, snapshot: ObjStore, message: map<string, string>, engine: Engine)
    ensures var e := RunCmd(objects, snapshot, message, engine).effects;
            && (Recovered in e <==> |objects| == 0)
            && (|objects| == 0 ==> e[0] == Recovered)
            && forall i :: 0 < i < |e| ==> e[i] != Recovered
  {
  }

  /** A message whose text does not decode reaches neither the engine nor the
      snapshot: the one response carries the decoder's error text. */
  lemma CmdRejectsMalformed(objects: ObjStore, snapshot: ObjStore, message: map<string, string>, engine: Engine)
    requires "message" in message && TransportDecode(message["message"]).Err?
    ensures var r := RunCmd(objects, snapshot, message, engine);
            && r.snapshot == snapshot
            && r.objects == (if |objects| == 0 then snapshot else objects)
            && (forall i :: 0 <= i < |r.effects| ==> !r.effects[i].Executed? && r.effects[i] != Snapshotted)
            && r.effects[|r.effects| - 1] == Respond(TransportDecode(message["message"]).error.Text())
  {
  }

  /** The snapshot is written exactly when the engine returned a reply, right before
      the response, and then holds the object store as the engine left it. */
  lemma CmdSnapshotsAfterSuccess(objects: ObjStore, snapshot: ObjStore, message: map<string, string>, engine: Engine)
    ensures var r := RunCmd(objects, snapshot, message, engine);
            var e := r.effects;
            && (Snapshotted in e <==>
                  "message" in message && TransportDecode(message["message"]).Ok?
                  && engine(if |objects| == 0 then snapshot else objects, TransportDecode(message["message"]).value).reply.Ok?)
            && (Snapshotted in e ==> |e| >= 3 && e[|e| - 2] == Snapshotted && e[|e| - 3].Executed?
                                      && r.snapshot == r.objects)
            && (Snapshotted !in e ==> r.snapshot == snapshot)
            && (Snapshotted in e ==>
                  "message" in message && TransportDecode(message["message"]).Ok?
                  && r.snapshot == engine(if |objects| == 0 then snapshot else objects,
                                          TransportDecode(message["message"]).value).objects)
  {
  }

  /** A command sent in the transport encoding reaches the engine unchanged, run
      against the object store (recovered first when it was empty), and a reply
      comes back in that encoding. */
  lemma CmdExecutesEncodedCommand(objects: ObjStore, snapshot: ObjStore, command: Bytes, engine: Engine)
    ensures var r := RunCmd(objects, snapshot, map["message" := TransportEncode(command)], engine);
            var run := engine(if |objects| == 0 then snapshot else objects, command);
            && r.objects == run.objects
            && r.effects[if |objects| == 0 then 1 else 0] == Executed(command)
            && r.effects[|r.effects| - 1] ==
                 Respond(if run.reply.Ok? then TransportEncode(run.reply.value) else run.reply.error)
  {
    TransportRoundTrip(command);
  }

  /** Recovery round trip: after a `/cmd` whose engine call succeeded, a restarted
      node (empty object store) runs its next command against exactly the object
      store that the first command left. */
  lemma CmdRecoveryRoundTrip(objects: ObjStore, snapshot: ObjStore, message: map<string, string>,
                              command: Bytes, engine: Engine)
    requires Snapshotted in RunCmd(objects, snapshot, message, engine).effects
    ensures var first := RunCmd(objects, snapshot, message, engine);
            var second := RunCmd(map[], first.snapshot, map["message" := TransportEncode(command)], engine);
            && second.effects[..2] == [Recovered, Executed(command)]
            && second.objects == engine(first.objects, command).objects
  {
    var first := RunCmd(objects, snapshot, message, engine);
    CmdSnapshotsAfterSuccess(objects, snapshot, message, engine);
    assert first.snapshot == first.objects;
    var next := map["message" := TransportEncode(command)];
    assert next["message"] == TransportEncode(command);
    TransportRoundTrip(command);
    assert TransportDecode(next["message"]) == Ok(command);
    var second := RunCmd(map[], first.snapshot, next, engine);
    var run := engine(first.objects, command);
    assert second.effects == [Recovered, Executed(command)] + second.effects[2..];
  }

  // ---------------------------------------------------------------------------
  // Properties of `connect_node`
  // ---------------------------------------------------------------------------

  /** A peer id that is already known: no connection is attempted, nothing is
      emitted and the known workers are unchanged. */
  lemma ConnectKnownPeer(known: map<string, string>, message: map<string, string>, dial: Dialer)
    requires "id" in message && message["id"] in known
    ensures RunConnectNode(known, message, dial) == ConnectRun(known, [])
  {
  }

  /** A new peer id: one connection attempt per event when the message has a uri,
      and the peer becomes known exactly when that attempt succeeds; no other peer
      entry changes. The one response reports success, the connection's error text,
      or the missing uri. */
  lemma ConnectRegistersOnSuccess(known: map<string, string>, message: map<string, string>, dial: Dialer)
    requires "id" in message && message["id"] !in known
    ensures var r := RunConnectNode(known, message, dial);
            && (message["id"] in r.known <==> "uri" in message && dial(message["id"], message["uri"]).None?)
            && (message["id"] in r.known ==> r.known == known[message["id"] := message["uri"]])
            && (message["id"] !in r.known ==> r.known == known)
    ensures "uri" in message ==>
              var id, uri := message["id"], message["uri"];
              var d := dial(id, uri);
              RunConnectNode(known, message, dial).effects ==
                [Dialed(id, uri), Emitted(Event(ConnectNodeResponse, if d.None? then ConnectedText else d.value))]
    ensures "uri" !in message ==>
              RunConnectNode(known, message, dial).effects == [Emitted(Event(ConnectNodeResponse, KeyErrorText("uri")))]
  {
  }

  /** Registration is idempotent: repeating an event that registered the peer
      attempts no second connection, emits nothing and changes nothing. */
  lemma ConnectTwice(known: map<string, string>, message: map<string, string>, dial: Dialer)
    requires "id" in message
    requires message["id"] in RunConnectNode(known, message, dial).known
    ensures var first := RunConnectNode(known, message, dial);
            RunConnectNode(first.known, message, dial) == ConnectRun(first.known, [])
  {
  }
}
