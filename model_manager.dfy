/**
 * The model manager of app/main/model_manager.py as methods that update a
 * NodeState in place. Each method is proved to leave the node in the state,
 * and to give the reply, that the matching function of module ModelStore
 * computes from the state before the call; what those functions promise is
 * proved there.
 */
module ModelManager {
  import opened Common
  import opened ModelStore
  import opened Node

  // ---------------------------------------------------------------------------
  // The cache helpers
  // ---------------------------------------------------------------------------

  /** `clear_cache`: the cache is emptied, nothing else changes. */
  method ClearCache(node: NodeState)
    modifies node`cache
    ensures node.cache == map[]
    ensures node.Store() == ModelStore.ClearCache(old(node.Store()))
  {
    node.cache := map[];
  }

  /** `is_model_in_cache`. */
  function IsModelInCache(node: NodeState, id: string): (r: bool)
    reads node
    ensures r <==> id in node.Store().cache
  {
    id in node.cache
  }

  /** `get_model_from_cache`: `model_cache.get(model_id)`. */
  function GetModelFromCache(node: NodeState, id: string): (r: Option<Model>)
    reads node
    ensures r.Some? <==> IsModelInCache(node, id)
    ensures r.Some? ==> r.value == node.cache[id]
  {
    if id in node.cache then Some(node.cache[id]) else None
  }

  /** `save_model_to_cache`: stores the model, deserializing it first when it
      arrives serialized, unless the id is already cached. */
  method SaveModelToCache(node: NodeState, input: CacheInput, id: string, deserialize: Deserializer)
    modifies node`cache
    ensures old(id in node.cache) ==> node.cache == old(node.cache)
    ensures !old(id in node.cache) ==> node.cache == old(node.cache)[id := CacheValue(input, deserialize)]
    ensures node.Store() == SaveToCache(old(node.Store()), input, id, deserialize)
  {
    if !IsModelInCache(node, id) {
      var model: Model;
      match input {
        case Serialized(blob) =>
          model := deserialize(blob);
        case Deserialized(m) =>
          model := m;
      }
      node.cache := node.cache[id := model];
    }
  }

  /** `remove_model_from_cache`. */
  method RemoveModelFromCache(node: NodeState, id: string)
    modifies node`cache
    ensures node.cache == old(node.cache) - {id}
    ensures node.Store() == RemoveFromCache(old(node.Store()), id)
  {
    if IsModelInCache(node, id) {
      node.cache := node.cache - {id};
    }
  }

  // ---------------------------------------------------------------------------
  // The durable tables
  // ---------------------------------------------------------------------------

  /** `list_models`: the ids of the model table, each once, read from the table
      alone, whatever the cache holds. */
  method ListModels(node: NodeState) returns (r: Reply<seq<string>>)
    ensures r.Success?
    ensures forall id :: id in r.value <==> id in node.modelTable
    ensures forall i, j :: 0 <= i < j < |r.value| ==> r.value[i] != r.value[j]
  {
    var ids: seq<string> := [];
    var rest := node.modelTable.Keys;
    while rest != {}
      invariant rest <= node.modelTable.Keys
      invariant forall id :: id in ids ==> id in node.modelTable && id !in rest
      invariant forall id :: id in node.modelTable ==> id in ids || id in rest
      invariant forall i, j :: 0 <= i < j < |ids| ==> ids[i] != ids[j]
      decreases rest
    {
      var id :| id in rest;
      ids := ids + [id];
      rest := rest - {id};
    }
    r := Success(ids);
  }

  /** `_save_model_in_db`: inserts the row unless its id is taken (IntegrityError). */
  method SaveModelInDb(node: NodeState, blob: Bytes, id: string) returns (inserted: bool)
    modifies node`modelTable
    ensures inserted <==> id !in old(node.modelTable)
    ensures InsertModel(old(node.modelTable), id, blob) ==
              if inserted then Some(node.modelTable) else None
    ensures !inserted ==> node.modelTable == old(node.modelTable)
  {
    inserted := id !in node.modelTable;
    if inserted {
      node.modelTable := node.modelTable[id := blob];
    }
  }

  /** `_save_states_in_db`: collects a row per state id from the object store, then
      inserts the whole batch in one commit. Gives the error it raises, if any. */
  method SaveStatesInDb(node: NodeState, ids: seq<string>) returns (raised: Option<Error>)
    modifies node`tensorTable
    ensures match SaveStates(old(node.Store()), ids)
            case Ok(table) => raised.None? && node.tensorTable == table
            case Err(e) => raised == Some(e) && node.tensorTable == old(node.tensorTable)
  {
    ghost var before := node.Store();
    var objects := node.objects;
    ghost var all := StateRows(objects, ids);
    var rows: seq<(string, Obj)> := [];
    var i := 0;
    PrependNothing(all);
    assert ids[0..] == ids;
    while i < |ids|
      invariant 0 <= i <= |ids|
      invariant all == PrependRows(rows, StateRows(objects, ids[i..]))
      invariant node.tensorTable == before.tensors
    {
      assert ids[i..][1..] == ids[i + 1..];
      if ids[i] !in objects {
        // get_obj raises before anything is added to the session
        assert all == Err(ids[i]);
        return Some(MissingObject(ids[i]));
      }
      var row := (ids[i], objects[ids[i]]);
      PrependTwice(rows, row, StateRows(objects, ids[i + 1..]));
      rows := rows + [row];
      i := i + 1;
    }
    assert rows + [] == rows;
    assert all == Ok(rows);
    assert SaveStates(before, ids) ==
             match InsertBatch(before.tensors, rows)
             case None => Err(UniqueViolation(TensorTable))
             case Some(table) => Ok(table);
    match InsertBatch(node.tensorTable, rows) {
      case None =>
        raised := Some(UniqueViolation(TensorTable));
      case Some(table) =>
        node.tensorTable := table;
        raised := None;
    }
  }

  /** Before the loop no rows are built yet. */
  lemma PrependNothing(r: Result<seq<(string, Obj)>, string>)
    ensures PrependRows([], r) == r
  {
    if r.Ok? {
      assert [] + r.value == r.value;
    }
  }

  /** One loop step moves a row from the rows still to build to those built. */
  lemma PrependTwice(rows: seq<(string, Obj)>, row: (string, Obj), later: Result<seq<(string, Obj)>, string>)
    ensures PrependRows(rows, PrependRows([row], later)) == PrependRows(rows + [row], later)
  {
    if later.Ok? {
      assert rows + ([row] + later.value) == (rows + [row]) + later.value;
    }
  }

  /** `_get_model_from_db`: the stored blob for the id, if the model table has it. */
  function GetModelFromDb(node: NodeState, id: string): (r: Option<Bytes>)
    reads node
    ensures r.Some? <==> id in node.modelTable
    ensures r.Some? ==> r.value == node.modelTable[id]
  {
    if id in node.modelTable then Some(node.modelTable[id]) else None
  }

  /** `_retrieve_state`: registers each state id's tensor row into the object store;
      gives the first state id without a row, where the loop stops by raising. */
  method RetrieveState(node: NodeState, ids: seq<string>) returns (missing: Option<string>)
    modifies node`objects
    ensures Rehydrate(old(node.objects), node.tensorTable, ids) == Rehydration(node.objects, missing)
  {
    var i := 0;
    while i < |ids|
      invariant 0 <= i <= |ids|
      invariant Rehydrate(node.objects, node.tensorTable, ids[i..]) == Rehydrate(old(node.objects), node.tensorTable, ids)
    {
      assert ids[i..][1..] == ids[i + 1..];
      if ids[i] !in node.tensorTable {
        return Some(ids[i]);
      }
      node.objects := node.objects[ids[i] := node.tensorTable[ids[i]]];
      i := i + 1;
    }
    missing := None;
  }

  // ---------------------------------------------------------------------------
  // The operations
  // ---------------------------------------------------------------------------

  /** `get_model_with_id`. */
  method GetModelWithId(node: NodeState, deserialize: Deserializer, id: string) returns (r: Reply<Model>)
    modifies node`cache, node`objects
    ensures var step := GetModel(old(node.Store()), deserialize, id);
            node.Store() == step.store && r == step.reply
  {
    if IsModelInCache(node, id) {
      return Success(GetModelFromCache(node, id).value);
    }
    var row := GetModelFromDb(node, id);
    if row.None? {
      return Failure(ModelNotFound);
    }
    var model := deserialize(row.value);
    if model.Plan? {
      var missing := RetrieveState(node, model.stateIds);
      if missing.Some? {
        return Uncaught(MissingTensorRow(missing.value));
      }
    }
    SaveModelToCache(node, Deserialized(model), id, deserialize);
    r := Success(model);
  }

  /** The `except IntegrityError` branch of `save_model`. */
  method RepairCache(node: NodeState, deserialize: Deserializer, id: string, e: Error) returns (r: Reply<string>)
    requires id in node.cache || id in node.modelTable
    modifies node`cache, node`objects
    ensures var step := Repair(old(node.Store()), deserialize, id, e);
            node.Store() == step.store && r == step.reply
  {
    var fetched := GetModelWithId(node, deserialize, id);
    if fetched.Uncaught? {
      return Uncaught(fetched.error);
    }
    // `fetched` stands for a dict, which is always truthy, and the id is cached by
    // now, so `save_model_to_cache(db_model, model_id)` stops at its guard.
    assert IsModelInCache(node, id);
    r := Failure(e);
  }

  /** `save_model`. */
  method SaveModel(node: NodeState, deserialize: Deserializer, blob: Bytes, id: string) returns (r: Reply<string>)
    modifies node`cache, node`modelTable, node`tensorTable, node`objects
    ensures var step := ModelStore.SaveModel(old(node.Store()), deserialize, blob, id);
            node.Store() == step.store && r == step.reply
  {
    if IsModelInCache(node, id) {
      return Failure(AlreadyCached(id));
    }
    var inserted := SaveModelInDb(node, blob, id);
    if !inserted {
      r := RepairCache(node, deserialize, id, UniqueViolation(ModelTable));
      return;
    }
    var model := deserialize(blob);
    SaveModelToCache(node, Deserialized(model), id, deserialize);
    if model.Plan? {
      var raised := SaveStatesInDb(node, model.stateIds);
      if raised.Some? {
        if raised.value.UniqueViolation? {
          r := RepairCache(node, deserialize, id, raised.value);
        } else {
          r := Uncaught(raised.value);
        }
        return;
      }
    }
    r := Success(SavedText(id));
  }

  /** `delete_model`. */
  method DeleteModel(node: NodeState, id: string) returns (r: Reply<string>)
    modifies node`cache, node`modelTable
    ensures var step := ModelStore.DeleteModel(old(node.Store()), id);
            node.Store() == step.store && r == step.reply
  {
    RemoveModelFromCache(node, id);
    var row := GetModelFromDb(node, id);
    if row.None? {
      // session.delete(None) raises UnmappedInstanceError, a SQLAlchemyError
      return Failure(NoSuchRow(id));
    }
    node.modelTable := node.modelTable - {id};
    r := Success(DeletedText(id));
  }
}
