/**
 * The mutable state of one grid node. The source keeps it in module-level
 * globals and in the hook's local worker; here it is one object that the
 * handlers of modules ModelManager and Events update in place.
 */
module Node {
  import opened Common
  import ModelStore

  class NodeState {
    var cache: map<string, Model>          // model_cache in app/main/model_manager.py
    var modelTable: map<string, Bytes>     // the TorchModel table, keyed by its unique id
    var tensorTable: map<string, Obj>      // the TorchTensor table, keyed by its unique id
    var objects: ObjStore                  // the local worker's object store
    var snapshot: ObjStore                 // the durable image written by `snapshot`, read by `recover_objects`
    var workerId: string                   // hook.local_worker.id
    var isClientWorker: bool               // hook.local_worker.is_client_worker
    var knownWorkers: map<string, string>  // hook.local_worker._known_workers: peer id -> uri
    var effects: seq<Effect>               // what the socket handlers did, in order

    /** A freshly started node: nothing cached, stored, registered or emitted yet. */
    constructor (id: string, isClient: bool)
      ensures cache == map[] && modelTable == map[] && tensorTable == map[]
      ensures objects == map[] && snapshot == map[]
      ensures workerId == id && isClientWorker == isClient
      ensures knownWorkers == map[] && effects == []
    {
      cache, modelTable, tensorTable := map[], map[], map[];
      objects, snapshot := map[], map[];
      workerId, isClientWorker := id, isClient;
      knownWorkers, effects := map[], [];
    }

    /** The part of the node the model manager works on. */
    function Store(): ModelStore.Store
      reads this
    {
      ModelStore.Store(cache, modelTable, tensorTable, objects)
    }
  }
}
