/**
 * The socket handlers of app/main/events.py as methods that update a NodeState
 * step by step. Each is proved to follow the matching run of module Relay, whose
 * lemmas state what the handlers promise.
 */
module Events {
  import opened Common
  import opened HexCodec
  import opened Relay
  import opened Node

  /** `recover_objects(hook)`: reloads the object store from the last snapshot. */
  method RecoverObjects(node: NodeState)
    modifies node`objects, node`effects
    ensures node.objects == node.snapshot
    ensures node.effects == old(node.effects) + [Recovered]
  {
    node.objects := node.snapshot;
    node.effects := node.effects + [Recovered];
  }

  /** `snapshot(worker)`: writes the whole object store as the durable image. */
  method Snapshot(node: NodeState)
    modifies node`snapshot, node`effects
    ensures node.snapshot == node.objects
    ensures node.effects == old(node.effects) + [Snapshotted]
  {
    node.snapshot := node.objects;
    node.effects := node.effects + [Snapshotted];
  }

  /** `emit(name, payload)`. */
  method Emit(node: NodeState, name: string, payload: string)
    modifies node`effects
    ensures node.effects == old(node.effects) + [Emitted(Event(name, payload))]
  {
    node.effects := node.effects + [Emitted(Event(name, payload))];
  }

  /** `set_grid_name`: the node takes the id of the message and the server role.
      Without an id the KeyError escapes, as the handler has no `try`. */
  method SetGridName(node: NodeState, message: map<string, string>) returns (raised: Option<string>)
    modifies node`workerId, node`isClientWorker
    ensures "id" in message ==> raised.None? && node.workerId == message["id"] && !node.isClientWorker
    ensures "id" !in message ==>
              && raised == Some(KeyErrorText("id"))
              && node.workerId == old(node.workerId) && node.isClientWorker == old(node.isClientWorker)
  {
    if "id" !in message {
      return Some(KeyErrorText("id"));
    }
    node.workerId := message["id"];
    node.isClientWorker := false;
    raised := None;
  }

  /** `connect_node`. */
  method ConnectNode(node: NodeState, message: map<string, string>, dial: Dialer)
    modifies node`knownWorkers, node`effects
    ensures var run := RunConnectNode(old(node.knownWorkers), message, dial);
            node.knownWorkers == run.known && node.effects == old(node.effects) + run.effects
  {
    if "id" !in message {
      Emit(node, ConnectNodeResponse, KeyErrorText("id"));
      return;
    }
    var id := message["id"];
    if id in node.knownWorkers {
      return;
    }
    if "uri" !in message {
      Emit(node, ConnectNodeResponse, KeyErrorText("uri"));
      return;
    }
    var uri := message["uri"];
    node.effects := node.effects + [Dialed(id, uri)];
    var failure := dial(id, uri);
    if failure.Some? {
      Emit(node, ConnectNodeResponse, failure.value);
      return;
    }
    node.knownWorkers := node.knownWorkers[id := uri];
    Emit(node, ConnectNodeResponse, ConnectedText);
  }

  /** `cmd`: forwards a command to the execution engine and emits its reply. */
  method Cmd(node: NodeState, message: map<string, string>, engine: Engine)
    modifies node`objects, node`snapshot, node`effects
    ensures var run := RunCmd(old(node.objects), old(node.snapshot), message, engine);
            && node.objects == run.objects && node.snapshot == run.snapshot
            && node.effects == old(node.effects) + run.effects
  {
    if |node.objects| == 0 {
      RecoverObjects(node);
    }
    if "message" !in message {
      Emit(node, CmdResponse, KeyErrorText("message"));
      return;
    }
    var decoded := TransportDecode(message["message"]);
    if decoded.Err? {
      Emit(node, CmdResponse, decoded.error.Text());
      return;
    }
    node.effects := node.effects + [Executed(decoded.value)];
    var run := engine(node.objects, decoded.value);
    node.objects := run.objects;
    if run.reply.Err? {
      Emit(node, CmdResponse, run.reply.error);
      return;
    }
    var encoded := TransportEncode(run.reply.value);
    Snapshot(node);
    Emit(node, CmdResponse, encoded);
  }
}
