# Grid node state and command relay, in Dafny

This project models the core of a grid node: a process that holds a local object
store of tensors and models, serves saved models, and relays remote commands to an
execution engine. Two parts are modelled.

**The model store** (`app/main/model_manager.py`) keeps four pieces of state in step:

- the in-memory model cache;
- the durable model table (id to serialized model, id unique);
- the durable tensor table (id to payload, id unique);
- the worker's object store.

Its operations are save, get, delete, list and clear-cache, plus the cache helpers.
Each gives back a success or failure result for the errors the code catches. An
exception that escapes the code is modelled as an `Uncaught` reply. The model treats a
model as a tagged value, `Plain` or `Plan(stateIds)`. Deserialization is a function
passed in by the caller. The tables are maps whose inserts fail on an existing id.

**The command relay and peer registration** (`app/main/events.py`):

- `cmd` recovers the object store from the last snapshot when the store is empty. It
  then decodes the `b'<hex>'` transport text, runs the engine, re-encodes the reply,
  snapshots the store and emits exactly one response.
- `connect_node` registers a peer once.
- `set_grid_name` overwrites the node's identity.

Files:

- `common.dfy` (module `Common`): bytes, objects, `Model`, events and effects.
- `model_store.dfy` (module `ModelStore`): the model store as pure state transitions
  over a `Store` value, with the lemmas about them.
- `node.dfy` (module `Node`): class `NodeState`, holding every field the handlers
  update in place.
- `model_manager.dfy` (module `ModelManager`): the manager's functions as methods on
  a `NodeState`. Each is proved to end in the state, and give the reply, that the
  `ModelStore` function computes.
- `hex_codec.dfy` (module `HexCodec`): `hexlify`, `unhexlify`, the `[2:-1]` slice and
  their round trips.
- `relay.dfy` (module `Relay`): `cmd` and `connect_node` as pure runs that yield the
  new state and the ordered list of effects, with the lemmas about them.
- `events.dfy` (module `Events`): the handlers as methods on a `NodeState`, proved to
  follow those runs.

Behaviour of the code that its docstrings and comments do not state (the docstrings at
lines 113 and 165 of `app/main/model_manager.py` promise a dict on error, and the comment
at lines 137-138 describes only a model row that is missing from the cache):

- A Plan whose state tensor row is missing does not give a "not found" result. Line 154
  reads `.object` from `None`, and the AttributeError escapes both `get_model_with_id`
  and `save_model`. The model returns `Uncaught(MissingTensorRow(id))` and keeps the
  registrations made before that point.
- A Plan state id that is missing from the object store makes the lookup raise inside
  `save_model`, either in `get_obj` or in `.data` on its result (`local_worker_utils` is
  not part of this model). No `except` clause there catches it, so it escapes after the
  model row and the cache entry are written (`Uncaught(MissingObject(id))`).
- The repair after an IntegrityError also runs when the tensor batch hits an existing
  id. In that case the id is already cached, so the repair changes nothing.
- `delete_model` never removes tensor rows. A Plan with at least one state id that was
  saved and deleted therefore cannot be saved again: the new save fails on the tensor
  table, after writing the model row and the cache entry
  (`ModelStore.ResaveAfterDeleteFails`). A Plan with no state ids saves again, because
  its batch of tensor rows is empty.
- A command text shorter than three characters slices to `""`. The engine then runs on
  the empty command; no decode error is raised.

## Model

| member | source | states |
|---|---|---|
| `Node.NodeState.constructor` | app/main/model_manager.py:14 | A fresh node has an empty cache, empty tables, an empty object store and snapshot, no known peers and no effects |
| `ModelStore.SaveToCache` | app/main/model_manager.py:47-59 | A no-op when the id is cached; otherwise the cache gains the id with the given model, or with the blob deserialized when it came serialized; tables and object store are untouched |
| `ModelStore.Repair` | app/main/model_manager.py:135-142 | The IntegrityError handler raises exactly when `get_model_with_id` raised, and then the same error; otherwise it fails with the violation once the id is cached, so the cache write on line 141 is a no-op |
| `ModelStore.InsertBatchSpec` | app/main/model_manager.py:100-101 | A batch insert succeeds exactly when no row id is in the table and none repeats; it then adds every row and keeps every old row |
| `ModelStore.StateRowsSpec` | app/main/model_manager.py:94-98 | The rows exist exactly when every state id is in the object store; then there is one row per id, in order, with that id's object; otherwise the first missing id is reported |
| `ModelStore.SaveStatesSpec` | app/main/model_manager.py:94-101 | Storing state tensors succeeds exactly when all ids are in the object store, none is in the tensor table and none repeats; it then adds each id's object; otherwise it raises a missing object or the uniqueness violation |
| `ModelStore.RehydrateSpec` | app/main/model_manager.py:151-154 | Rehydration completes exactly when every state id has a tensor row; it then registers each row's payload under its id and keeps other objects; a stop names an id without a row |
| `ModelStore.ClearCacheKeepsCoherence` | app/main/model_manager.py:17-20 | Clearing empties the cache, keeps both tables and the object store, and keeps cache coherence |
| `ModelStore.GetKeepsCoherence` | app/main/model_manager.py:157-187 | `get_model_with_id` keeps every cached model equal to its deserialized row |
| `ModelStore.SaveKeepsCoherence` | app/main/model_manager.py:104-142 | `save_model` keeps every cached model equal to its deserialized row, on every path |
| `ModelStore.DeleteKeepsCoherence` | app/main/model_manager.py:190-210 | `delete_model` keeps every cached model equal to its deserialized row |
| `ModelStore.SaveRefusesCachedId` | app/main/model_manager.py:115-120 | Saving a cached id fails with "Model with id: <id> already eixsts." and changes no state |
| `ModelStore.SaveSucceeds` | app/main/model_manager.py:104-134 | Save succeeds exactly when the id is in neither cache nor table and the Plan's states are storable; the table then gains the blob, the cache the deserialized model, each state id a row with its object; the object store is kept |
| `ModelStore.SaveStatesRefusedKeepsModel` | app/main/model_manager.py:121-142 | When the tensor batch is refused, save fails with the uniqueness violation, and the model stays in the table and the cache with no rollback |
| `ModelStore.SaveMissingStateObjectRaises` | app/main/model_manager.py:94-132 | A Plan state id missing from the object store makes save raise, after the model row and cache entry are written |
| `ModelStore.SaveRepairsCache` | app/main/model_manager.py:135-142 | An id in the table but not cached: save keeps both tables; it fails with the model-table violation and leaves the cache holding the deserialized existing row exactly when each Plan state has a row, and otherwise raises the missing tensor row with the cache unchanged; the object store ends as `get_model_with_id` leaves it |
| `ModelStore.GetFromCache` | app/main/model_manager.py:167-169 | A cache hit returns the cached model and changes nothing |
| `ModelStore.GetNotFound` | app/main/model_manager.py:170-185 | An id in neither cache nor table gives "Model not found" and changes nothing |
| `ModelStore.GetFromTable` | app/main/model_manager.py:170-183 | On a miss with a row, get succeeds exactly when each Plan state has a tensor row; it then caches the model, registers each state's payload and keeps every other object; otherwise it raises at a missing row, caches nothing, and keeps every object outside the Plan's state ids |
| `ModelStore.DeleteSpec` | app/main/model_manager.py:190-210 | Delete always drops the id from the cache only; it succeeds exactly when the row exists and then removes just that row; tensor table and object store are untouched |
| `ModelStore.SaveTwice` | app/main/model_manager.py:104-169 | After a successful save, a second save of the id is refused and changes nothing, and get answers the first save's model from the cache |
| `ModelStore.DeleteThenGet` | app/main/model_manager.py:157-210 | After a successful delete the id is gone from the table and get reports "Model not found" |
| `ModelStore.RehydrateAfterClearCache` | app/main/model_manager.py:94-183 | A Plan saved, evicted by `clear_cache` and fetched again comes back with each state id registered, holding the object it had at save time |
| `ModelStore.ResaveAfterDeleteFails` | app/main/model_manager.py:190-210 | Since delete keeps tensor rows, re-saving a deleted Plan with state fails on the tensor table while writing the model row and cache entry |
| `ModelManager.IsModelInCache` | app/main/model_manager.py:23-32 | True exactly when the id is in the cache |
| `ModelManager.GetModelFromCache` | app/main/model_manager.py:35-44 | The cached model when the id is cached, else nothing |
| `ModelManager.GetModelFromDb` | app/main/model_manager.py:145-148 | The stored blob when the model table has the id, else nothing |
| `ModelManager.ClearCache` | app/main/model_manager.py:17-20 | Empties the cache and changes no other field |
| `ModelManager.SaveModelToCache` | app/main/model_manager.py:47-59 | Updates the cache as `ModelStore.SaveToCache` says; no other field changes |
| `ModelManager.RemoveModelFromCache` | app/main/model_manager.py:62-69 | The cache loses the id, whether or not it had it; no other field changes |
| `ModelManager.ListModels` | app/main/model_manager.py:72-85 | Succeeds with exactly the ids of the model table, each once, whatever the cache holds |
| `ModelManager.SaveModelInDb` | app/main/model_manager.py:88-91 | Inserts the row exactly when its id is new; otherwise reports the violation and leaves the table unchanged |
| `ModelManager.SaveStatesInDb` | app/main/model_manager.py:94-101 | The loop builds the rows of `ModelStore.StateRows` and the batch is inserted all-or-nothing, as `ModelStore.SaveStates` says |
| `ModelManager.RetrieveState` | app/main/model_manager.py:151-154 | The loop leaves the object store and the stopping id that `ModelStore.Rehydrate` gives |
| `ModelManager.GetModelWithId` | app/main/model_manager.py:157-187 | Ends in the state and reply of `ModelStore.GetModel` |
| `ModelManager.RepairCache` | app/main/model_manager.py:135-141 | Ends in the state and reply of `ModelStore.Repair`, proving the cache write on line 141 unnecessary |
| `ModelManager.SaveModel` | app/main/model_manager.py:104-142 | Ends in the state and reply of `ModelStore.SaveModel` |
| `ModelManager.DeleteModel` | app/main/model_manager.py:190-210 | Ends in the state and reply of `ModelStore.DeleteModel` |
| `HexCodec.Hexlify` | app/main/events.py:55 | Two digits from `0-9a-f` per byte: the high nibble's value, then the low nibble's |
| `HexCodec.UnhexlifyHexlify` | app/main/events.py:51-55 | Unhexlifying a hexlified byte string gives it back |
| `HexCodec.TransportRoundTrip` | app/main/events.py:51-55 | Decoding `str(hexlify(b))` with the `[2:-1]` slice gives `b` back |
| `HexCodec.UnhexlifySpec` | app/main/events.py:51 | Unhexlify accepts exactly the even-length ASCII hex texts of either case; otherwise it names the non-ASCII, odd-length or non-hex error in that order; hexlifying what it accepts gives the text in lower case |
| `HexCodec.ShortTransportIsEmptyCommand` | app/main/events.py:51 | A text shorter than three characters decodes to the empty command |
| `Relay.CmdRespondsOnce` | app/main/events.py:44-61 | Every `/cmd` emits exactly one `/cmd-response`, as its last effect |
| `Relay.CmdRecoversWhenEmpty` | app/main/events.py:45-47 | Recovery happens exactly when the object store is empty on entry, and then comes first |
| `Relay.CmdRejectsMalformed` | app/main/events.py:49-61 | Text that does not decode reaches neither engine nor snapshot, and the one response carries the decoder's error text |
| `Relay.CmdSnapshotsAfterSuccess` | app/main/events.py:53-59 | The snapshot is taken exactly when the engine gave a reply, just before the response, and equals the store the engine left |
| `Relay.CmdExecutesEncodedCommand` | app/main/events.py:44-59 | A transport-encoded command reaches the engine unchanged, run against the object store or, when that was empty, the recovered one; its encoded reply or error text is the response |
| `Relay.CmdRecoveryRoundTrip` | app/main/events.py:45-57 | After a successful command, a restarted node runs its next command against the store that command left |
| `Relay.ConnectKnownPeer` | app/main/events.py:33-36 | A known peer id: no connection attempt, nothing emitted, nothing changed |
| `Relay.ConnectRegistersOnSuccess` | app/main/events.py:32-38 | A new peer with a uri: one attempt, then exactly one response, "Succefully connected!" or the attempt's error text; the peer becomes known exactly when the attempt succeeds; without a uri only the KeyError text is emitted |
| `Relay.ConnectTwice` | app/main/events.py:29-38 | Repeating an event that registered the peer attempts nothing, emits nothing and changes nothing |
| `Events.RecoverObjects` | app/main/events.py:46-47 | The object store becomes the last snapshot |
| `Events.Snapshot` | app/main/events.py:57 | The snapshot becomes the whole object store |
| `Events.SetGridName` | app/main/events.py:21-26 | The node takes the message's id and the non-client role; repeated calls overwrite; without an id the KeyError escapes and nothing changes |
| `Events.ConnectNode` | app/main/events.py:29-38 | Ends with the known workers and effects of `Relay.RunConnectNode` |
| `Events.Cmd` | app/main/events.py:41-61 | Ends with the object store, snapshot and effects of `Relay.RunCmd` |

## Left out

- Database failures other than a duplicate id are not modelled, for example a lost
  connection. The model's database only fails on a unique-key violation, or on delete
  of a missing row (`session.delete(None)` raises a SQLAlchemyError). So the failure
  branch of `list_models` (lines 84-85) never arises in the model.
- SQLAlchemy session mechanics are modelled as map reads and writes: `session.remove`,
  queries, commit, and the rollback state after a failed commit.
- `sy.serde.deserialize` and the Plan type check are outside the model. Deserialization
  is a total function passed in, so a blob that fails to deserialize is not modelled.
  The Plan check is the datatype tag.
- Library exception texts are reported as error kinds, not their text: IntegrityError,
  UnmappedInstanceError, the object-store lookup error, and AttributeError. The texts
  the code writes itself are modelled exactly.
- A tensor's `.data` is not told apart from the tensor: the row stores the object itself.
- `recover_objects` and `snapshot` are not part of this model. They are modelled as
  copying the object store to and from a snapshot field, and they never fail.
- The execution engine (`worker._recv_msg`) is an injected function. It returns the
  object store it leaves behind, plus a reply or an error text.
- The peer client (`WebsocketGridClient(...)` and `connect()`) is an injected function.
  A peer whose connection fails is modelled as not registered. Whether the real client's
  constructor registers it anyway depends on code that is not part of this model.
- `emit` appends to the node's effect log. The `connect` handler (lines 16-18) only
  emits a fixed greeting and is not modelled.
- Messages are maps from strings to strings. A message that is not a dict, or a command
  that is bytes rather than str, is not modelled.
- `ModelManager.ListModels` does not fix the order of the ids, because the query has no
  `ORDER BY`.
- Concurrency and locking around the shared stores are out of scope. Each handler runs
  to completion on its own.
- `app/main/routes.py` is not part of this model. It holds the HTTP handling, the status
  codes and the inference numerics.
