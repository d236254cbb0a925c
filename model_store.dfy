/**
 * The model store of a grid node as pure state transitions.
 *
 * A `Store` holds the four pieces of state that app/main/model_manager.py keeps
 * consistent: the in-memory cache `model_cache`, the durable model table
 * `TorchModel`, the durable tensor table `TorchTensor` and the worker's object
 * store (reached through `get_obj` and `register_obj`). Each operation of the
 * manager is a function from the store before the call to the store after it and
 * the reply the call gives. The imperative methods in module ModelManager are
 * proved to follow these functions; the lemmas here state what the operations
 * promise.
 */
module ModelStore {
  import opened Common

  datatype Store = Store(
    cache: map<string, Model>,   // model_cache: id -> deserialized model
    models: map<string, Bytes>,  // TorchModel: id (unique) -> serialized model
    tensors: map<string, Obj>,   // TorchTensor: id (unique) -> tensor payload
    objects: ObjStore)           // the worker's object store

  /** `sy.serde.deserialize`, supplied by the caller: the codec is not part of this model. */
  type Deserializer = Bytes -> Model

  datatype Table = ModelTable | TensorTable

  datatype Error =
    | AlreadyCached(id: string)     // the id is already in the cache
    | ModelNotFound                 // neither cache nor model table has the id
    | UniqueViolation(table: Table) // IntegrityError: an insert hit an existing id
    | NoSuchRow(id: string)         // session.delete(None): the model table lacks the id
    | MissingObject(id: string)     // get_obj on an id the object store lacks
    | MissingTensorRow(id: string)  // `result.object` on a tensor row that does not exist
  {
    /** The fixed message text of the errors whose text the manager writes itself;
        the others carry the text of an exception raised by a library. */
    function Text(): Option<string>
    {
      match this
      case AlreadyCached(id) => Some("Model with id: " + id + " already eixsts.")
      case ModelNotFound => Some("Model not found")
      case _ => None
    }
  }

  /** The result dict of a manager operation: `{"success": True, ...}`,
      `{"success": False, "error": ...}`, or an exception that no `except`
      clause of the manager catches and that therefore escapes to the caller. */
  datatype Reply<T> = Success(value: T) | Failure(error: Error) | Uncaught(error: Error)

  /** The store after an operation and the reply the operation gives. */
  datatype Step<T> = Step(store: Store, reply: Reply<T>)

  /** The second argument of `save_model_to_cache`: with `serialized` true the
      model arrives as a blob to deserialize, otherwise as a model. */
  datatype CacheInput = Serialized(blob: Bytes) | Deserialized(model: Model)

  function SavedText(id: string): string { "Model saved with id: " + id }

  function DeletedText(id: string): string { "Model Deleted: " + id }

  // ---------------------------------------------------------------------------
  // The cache helpers
  // ---------------------------------------------------------------------------

  function ClearCache(s: Store): Store
  {
    s.(cache := map[])
  }

  /** The model that `save_model_to_cache` stores for a given input. */
  function CacheValue(input: CacheInput, deserialize: Deserializer): Model
  {
    match input
    case Serialized(blob) => deserialize(blob)
    case Deserialized(m) => m
  }

  /** `save_model_to_cache`: nothing happens when the id is already cached. */
  function SaveToCache(s: Store, input: CacheInput, id: string, deserialize: Deserializer): (r: Store)
    ensures r.models == s.models && r.tensors == s.tensors && r.objects == s.objects
    ensures id in s.cache ==> r == s
    ensures id !in s.cache ==> r.cache == s.cache[id := CacheValue(input, deserialize)]
  {
    if id in s.cache then s
    else s.(cache := s.cache[id := CacheValue(input, deserialize)])
  }

  /** `remove_model_from_cache`. */
  function RemoveFromCache(s: Store, id: string): Store
  {
    if id in s.cache then s.(cache := s.cache - {id}) else s
  }

  // ---------------------------------------------------------------------------
  // The durable tables
  // ---------------------------------------------------------------------------

  /** `_save_model_in_db`: an insert into a table whose id is unique; the commit
      fails with an IntegrityError when the id is already there. */
  function InsertModel(models: map<string, Bytes>, id: string, blob: Bytes): Option<map<string, Bytes>>
  {
    if id in models then None else Some(models[id := blob])
  }

  /** The rows `_save_states_in_db` builds: one `(state_id, get_obj(state_id))` per
      state id, in order; `Err(id)` names the first state id the object store lacks. */
  function StateRows(objects: ObjStore, ids: seq<string>): Result<seq<(string, Obj)>, string>
  {
    if ids == [] then Ok([])
    else if ids[0] !in objects then Err(ids[0])
    else PrependRows([(ids[0], objects[ids[0]])], StateRows(objects, ids[1..]))
  }

  /** Rows already built, followed by those a later part of the loop builds. */
  function PrependRows(rows: seq<(string, Obj)>, r: Result<seq<(string, Obj)>, string>): Result<seq<(string, Obj)>, string>
  {
    match r
    case Ok(more) => Ok(rows + more)
    case Err(id) => Err(id)
  }

  /** `add_all` followed by one `commit`: every row is inserted or none is. The
      batch fails when a row's id is already in the table or appears twice in it. */
  function InsertBatch(table: map<string, Obj>, rows: seq<(string, Obj)>): Option<map<string, Obj>>
    decreases |rows|
  {
    if rows == [] then Some(table)
    else if rows[0].0 in table then None
    else InsertBatch(table[rows[0].0 := rows[0].1], rows[1..])
  }

  /** `_save_states_in_db`: the new tensor table, or the error it raises. */
  function SaveStates(s: Store, ids: seq<string>): Result<map<string, Obj>, Error>
  {
    match StateRows(s.objects, ids)
    case Err(missing) => Err(MissingObject(missing))
    case Ok(rows) =>
      match InsertBatch(s.tensors, rows)
      case None => Err(UniqueViolation(TensorTable))
      case Some(table) => Ok(table)
  }

  /** The object store after `_retrieve_state`, and the first state id whose tensor
      row is missing, if any (registration stops there with an AttributeError). */
  datatype Rehydration = Rehydration(objects: ObjStore, missing: Option<string>)

  /** `_retrieve_state`: registers each state id's tensor row into the object store, in order. */
  function Rehydrate(objects: ObjStore, tensors: map<string, Obj>, ids: seq<string>): Rehydration
    decreases |ids|
  {
    if ids == [] then Rehydration(objects, None)
    else if ids[0] !in tensors then Rehydration(objects, Some(ids[0]))
    else Rehydrate(objects[ids[0] := tensors[ids[0]]], tensors, ids[1..])
  }

  // ---------------------------------------------------------------------------
  // The operations
  // ---------------------------------------------------------------------------

  /** `get_model_with_id`. */
  function GetModel(s: Store, deserialize: Deserializer, id: string): Step<Model>
  {
    if id in s.cache then Step(s, Success(s.cache[id]))
    else if id !in s.models then Step(s, Failure(ModelNotFound))
    else
      var m := deserialize(s.models[id]);
      var r := if m.Plan? then Rehydrate(s.objects, s.tensors, m.stateIds) else Rehydration(s.objects, None);
      if r.missing.Some? then Step(s.(objects := r.objects), Uncaught(MissingTensorRow(r.missing.value)))
      else Step(SaveToCache(s.(objects := r.objects), Deserialized(m), id, deserialize), Success(m))
  }

  /** The `except IntegrityError` branch of `save_model`: the call fails with `e`, but
      first `get_model_with_id` is run for its side effect on the cache. Its reply is
      then a dict, which is always truthy, and the id is cached by then, so the
      `save_model_to_cache(db_model, model_id)` that follows does nothing. */
  function Repair(s: Store, deserialize: Deserializer, id: string, e: Error): (r: Step<string>)
    requires id in s.cache || id in s.models
    ensures r.reply.Uncaught? || (r.reply == Failure(e) && id in r.store.cache)
    ensures r.reply.Uncaught? <==> GetModel(s, deserialize, id).reply.Uncaught?
    ensures r.reply.Uncaught? ==> r.reply.error == GetModel(s, deserialize, id).reply.error
  {
    var g := GetModel(s, deserialize, id);
    if g.reply.Uncaught? then Step(g.store, Uncaught(g.reply.error))
    else Step(g.store, Failure(e))
  }

  /** `save_model`. */
  function SaveModel(s: Store, deserialize: Deserializer, blob: Bytes, id: string): Step<string>
  {
    if id in s.cache then Step(s, Failure(AlreadyCached(id)))
    else match InsertModel(s.models, id, blob)
      case None => Repair(s, deserialize, id, UniqueViolation(ModelTable))
      case Some(models) =>
        var m := deserialize(blob);
        var s1 := SaveToCache(s.(models := models), Deserialized(m), id, deserialize);
        if !m.Plan? then Step(s1, Success(SavedText(id)))
        else match SaveStates(s1, m.stateIds)
          case Ok(tensors) => Step(s1.(tensors := tensors), Success(SavedText(id)))
          case Err(e) =>
            if e.UniqueViolation? then Repair(s1, deserialize, id, e)
            else Step(s1, Uncaught(e))
  }

  /** `delete_model`: the cache entry goes first, then the model row. */
  function DeleteModel(s: Store, id: string): Step<string>
  {
    var s1 := RemoveFromCache(s, id);
    if id in s1.models then Step(s1.(models := s1.models - {id}), Success(DeletedText(id)))
    else Step(s1, Failure(NoSuchRow(id)))
  }

  // ---------------------------------------------------------------------------
  // Properties of the building blocks
  // ---------------------------------------------------------------------------

  ghost predicate DistinctIds(rows: seq<(string, Obj)>)
  {
    forall i, j :: 0 <= i < j < |rows| ==> rows[i].0 != rows[j].0
  }

  ghost predicate AllIn<V>(ids: seq<string>, m: map<string, V>)
  {
    forall k :: 0 <= k < |ids| ==> ids[k] in m
  }

  ghost predicate NoneIn<V>(ids: seq<string>, m: map<string, V>)
  {
    forall k :: 0 <= k < |ids| ==> ids[k] !in m
  }

  ghost predicate Distinct(ids: seq<string>)
  {
    forall i, j :: 0 <= i < j < |ids| ==> ids[i] != ids[j]
  }

  /** A batch insert succeeds exactly when no row's id is in the table and no id
      repeats; then the table gains exactly the rows and keeps every old row. */
  lemma {:induction false} InsertBatchSpec(table: map<string, Obj>, rows: seq<(string, Obj)>)
    ensures InsertBatch(table, rows).Some? <==>
              (forall i :: 0 <= i < |rows| ==> rows[i].0 !in table) && DistinctIds(rows)
    ensures InsertBatch(table, rows).Some? ==>
              var t := InsertBatch(table, rows).value;
              && t.Keys == table.Keys + (set i | 0 <= i < |rows| :: rows[i].0)
              && (forall k :: k in table ==> t[k] == table[k])
              && (forall i :: 0 <= i < |rows| ==> t[rows[i].0] == rows[i].1)
    decreases |rows|
  {
    if rows != [] {
      var t1 := table[rows[0].0 := rows[0].1];
      InsertBatchSpec(t1, rows[1..]);
      if rows[0].0 !in table {
        assert (forall i :: 0 <= i < |rows| ==> rows[i].0 !in table) && DistinctIds(rows)
           <==> (forall i :: 0 <= i < |rows| - 1 ==> rows[1..][i].0 !in t1) && DistinctIds(rows[1..]) by {
          if (forall i :: 0 <= i < |rows| - 1 ==> rows[1..][i].0 !in t1) && DistinctIds(rows[1..]) {
            forall i, j | 0 <= i < j < |rows| ensures rows[i].0 != rows[j].0 {
              if i > 0 {
                assert rows[i] == rows[1..][i - 1] && rows[j] == rows[1..][j - 1];
              } else {
                assert rows[j] == rows[1..][j - 1];
              }
            }
          }
        }
        if InsertBatch(table, rows).Some? {
          var t := InsertBatch(table, rows).value;
          var all := set i | 0 <= i < |rows| :: rows[i].0;
          var tail := set i | 0 <= i < |rows| - 1 :: rows[1..][i].0;
          assert all == {rows[0].0} + tail by {
            forall x | x in all ensures x in {rows[0].0} + tail {
              var i :| 0 <= i < |rows| && rows[i].0 == x;
              if i > 0 { assert rows[1..][i - 1].0 == x; }
            }
          }
          forall i | 0 <= i < |rows| ensures t[rows[i].0] == rows[i].1 {
            if i > 0 { assert rows[i] == rows[1..][i - 1]; }
          }
        }
      } else {
        assert rows[0].0 in table;
      }
    }
  }

  /** The rows exist exactly when every state id is in the object store; then there
      is one row per state id, in order, carrying the object stored under it. A
      missing id is reported as the first state id the object store lacks. */
  lemma {:induction false} StateRowsSpec(objects: ObjStore, ids: seq<string>)
    ensures StateRows(objects, ids).Ok? <==> AllIn(ids, objects)
    ensures StateRows(objects, ids).Ok? ==>
              var rows := StateRows(objects, ids).value;
              |rows| == |ids| && forall k :: 0 <= k < |ids| ==> rows[k] == (ids[k], objects[ids[k]])
    ensures StateRows(objects, ids).Err? ==>
              exists k :: 0 <= k < |ids| && ids[k] == StateRows(objects, ids).error && ids[k] !in objects
                          && AllIn(ids[..k], objects)
  {
    if ids != [] && ids[0] in objects {
      StateRowsSpec(objects, ids[1..]);
      if StateRows(objects, ids).Ok? {
        var rows := StateRows(objects, ids).value;
        forall k | 0 <= k < |ids| ensures rows[k] == (ids[k], objects[ids[k]]) {
          if k > 0 { assert ids[k] == ids[1..][k - 1]; }
        }
      }
      if !AllIn(ids[1..], objects) {
        var k' :| 0 <= k' < |ids| - 1 && ids[1..][k'] == StateRows(objects, ids[1..]).error
                   && ids[1..][k'] !in objects && AllIn(ids[1..][..k'], objects);
        assert ids[..k' + 1] == [ids[0]] + ids[1..][..k'];
        assert AllIn(ids[..k' + 1], objects);
      } else {
        forall k | 0 <= k < |ids| ensures ids[k] in objects {
          if k > 0 { assert ids[k] == ids[1..][k - 1]; }
        }
      }
    } else if ids != [] {
      assert ids[..0] == [];
    }
  }

  /** Rehydration completes exactly when every state id has a tensor row; then each
      state id is registered with its row's payload and every other object is kept.
      When it stops, it stops at a state id without a row, having registered only
      state ids; objects under other ids are kept either way. */
  lemma {:induction false} RehydrateSpec(objects: ObjStore, tensors: map<string, Obj>, ids: seq<string>)
    ensures Rehydrate(objects, tensors, ids).missing.None? <==> AllIn(ids, tensors)
    ensures var r := Rehydrate(objects, tensors, ids);
            forall x :: x in objects && x !in ids ==> x in r.objects && r.objects[x] == objects[x]
    ensures var r := Rehydrate(objects, tensors, ids);
            forall x :: x in r.objects ==> x in objects || x in ids
    ensures var r := Rehydrate(objects, tensors, ids);
            r.missing.None? ==> forall k :: 0 <= k < |ids| ==> ids[k] in r.objects && r.objects[ids[k]] == tensors[ids[k]]
    ensures var r := Rehydrate(objects, tensors, ids);
            r.missing.Some? ==> r.missing.value in ids && r.missing.value !in tensors
    decreases |ids|
  {
    if ids != [] && ids[0] in tensors {
      var o1 := objects[ids[0] := tensors[ids[0]]];
      RehydrateSpec(o1, tensors, ids[1..]);
      var r := Rehydrate(objects, tensors, ids);
      assert AllIn(ids, tensors) <==> AllIn(ids[1..], tensors) by {
        if AllIn(ids[1..], tensors) {
          forall k | 0 <= k < |ids| ensures ids[k] in tensors {
            if k > 0 { assert ids[k] == ids[1..][k - 1]; }
          }
        }
      }
      if r.missing.None? {
        forall k | 0 <= k < |ids| ensures ids[k] in r.objects && r.objects[ids[k]] == tensors[ids[k]] {
          if k > 0 {
            assert ids[k] == ids[1..][k - 1];
          } else if ids[0] !in ids[1..] {
            assert ids[0] in o1 && ids[0] !in ids[1..];
          } else {
            var j :| 0 <= j < |ids[1..]| && ids[1..][j] == ids[0];
          }
        }
      }
    } else if ids != [] {
      assert ids[0] in ids;
    }
  }

  /** `_save_states_in_db` stores its batch exactly when every state id is in the
      object store, none is in the tensor table yet and none repeats; the tensor
      table then gains a row per state id holding that id's object. Otherwise it
      raises: for a state id missing from the object store before any insert,
      else with the uniqueness violation of the batch. */
  lemma SaveStatesSpec(s: Store, ids: seq<string>)
    ensures SaveStates(s, ids).Ok? <==> AllIn(ids, s.objects) && NoneIn(ids, s.tensors) && Distinct(ids)
    ensures SaveStates(s, ids).Err? ==>
              if AllIn(ids, s.objects) then SaveStates(s, ids).error == UniqueViolation(TensorTable)
              else SaveStates(s, ids).error.MissingObject?
                   && SaveStates(s, ids).error.id in ids && SaveStates(s, ids).error.id !in s.objects
    ensures SaveStates(s, ids).Ok? ==>
              var t := SaveStates(s, ids).value;
              && t.Keys == s.tensors.Keys + (set k | 0 <= k < |ids| :: ids[k])
              && (forall x :: x in s.tensors ==> t[x] == s.tensors[x])
              && (forall k :: 0 <= k < |ids| ==> t[ids[k]] == s.objects[ids[k]])
  {
    StateRowsSpec(s.objects, ids);
    if AllIn(ids, s.objects) {
      var rows := StateRows(s.objects, ids).value;
      InsertBatchSpec(s.tensors, rows);
      assert forall i :: 0 <= i < |rows| ==> rows[i].0 == ids[i];
      assert (set i | 0 <= i < |rows| :: rows[i].0) == (set k | 0 <= k < |ids| :: ids[k]);
    }
  }

  // ---------------------------------------------------------------------------
  // Cache coherence: every cached model is the deserialized form of its row
  // ---------------------------------------------------------------------------

  ghost predicate Coherent(s: Store, deserialize: Deserializer)
  {
    forall id :: id in s.cache ==> id in s.models && s.cache[id] == deserialize(s.models[id])
  }

  lemma ClearCacheKeepsCoherence(s: Store, deserialize: Deserializer)
    ensures Coherent(ClearCache(s), deserialize)
    ensures ClearCache(s).cache == map[]
    ensures ClearCache(s).models == s.models && ClearCache(s).tensors == s.tensors
    ensures ClearCache(s).objects == s.objects
  {
  }

  lemma GetKeepsCoherence(s: Store, deserialize: Deserializer, id: string)
    requires Coherent(s, deserialize)
    ensures Coherent(GetModel(s, deserialize, id).store, deserialize)
  {
  }

  lemma SaveKeepsCoherence(s: Store, deserialize: Deserializer, blob: Bytes, id: string)
    requires Coherent(s, deserialize)
    ensures Coherent(SaveModel(s, deserialize, blob, id).store, deserialize)
  {
    if id !in s.cache && id !in s.models {
      var s1 := SaveToCache(s.(models := s.models[id := blob]), Deserialized(deserialize(blob)), id, deserialize);
      assert Coherent(s1, deserialize);
      if deserialize(blob).Plan? && SaveStates(s1, deserialize(blob).stateIds).Err? {
        GetKeepsCoherence(s1, deserialize, id);
      }
    } else if id !in s.cache {
      GetKeepsCoherence(s, deserialize, id);
    }
  }

  lemma DeleteKeepsCoherence(s: Store, deserialize: Deserializer, id: string)
    requires Coherent(s, deserialize)
    ensures Coherent(DeleteModel(s, id).store, deserialize)
  {
  }

  // ---------------------------------------------------------------------------
  // What each operation promises
  // ---------------------------------------------------------------------------

  /** Saving an id that is already cached is refused and changes nothing. */
  lemma SaveRefusesCachedId(s: Store, deserialize: Deserializer, blob: Bytes, id: string)
    requires id in s.cache
    ensures SaveModel(s, deserialize, blob, id) == Step(s, Failure(AlreadyCached(id)))
    ensures SaveModel(s, deserialize, blob, id).reply.error.Text() == Some("Model with id: " + id + " already eixsts.")
  {
  }

  /** The condition under which the state tensors of a model can be stored. */
  ghost predicate StatesStorable(s: Store, m: Model)
  {
    m.Plan? ==> AllIn(m.stateIds, s.objects) && NoneIn(m.stateIds, s.tensors) && Distinct(m.stateIds)
  }

  /** `save_model` succeeds exactly when the id is in neither the cache nor the
      model table and the model's state tensors can be stored; then the model table
      gains the blob, the cache the deserialized model, and, for a Plan, the tensor
      table a row per state id holding that id's object; the object store is kept. */
  lemma {:induction false} SaveSucceeds(s: Store, deserialize: Deserializer, blob: Bytes, id: string)
    ensures SaveModel(s, deserialize, blob, id).reply.Success? <==>
              id !in s.cache && id !in s.models && StatesStorable(s, deserialize(blob))
    ensures var r := SaveModel(s, deserialize, blob, id);
            r.reply.Success? ==>
              && r.reply.value == SavedText(id)
              && r.store.models == s.models[id := blob]
              && r.store.cache == s.cache[id := deserialize(blob)]
              && r.store.objects == s.objects
              && (forall t :: t in s.tensors ==> t in r.store.tensors && r.store.tensors[t] == s.tensors[t])
              && (var m := deserialize(blob);
                  if m.Plan? then
                    && r.store.tensors.Keys == s.tensors.Keys + (set k | 0 <= k < |m.stateIds| :: m.stateIds[k])
                    && (forall k :: 0 <= k < |m.stateIds| ==> r.store.tensors[m.stateIds[k]] == s.objects[m.stateIds[k]])
                  else r.store.tensors == s.tensors)
  {
    var m := deserialize(blob);
    if id !in s.cache && id !in s.models && m.Plan? {
      var s1 := SaveToCache(s.(models := s.models[id := blob]), Deserialized(m), id, deserialize);
      SaveStatesSpec(s1, m.stateIds);
    }
  }

  /** Partial failure: when the model row is written but the batch of state tensors
      is refused, `save_model` fails and nothing is rolled back: the model stays in
      the model table and in the cache, and the tensor table is unchanged. */
  lemma SaveStatesRefusedKeepsModel(s: Store, deserialize: Deserializer, blob: Bytes, id: string)
    requires id !in s.cache && id !in s.models
    requires deserialize(blob).Plan? && AllIn(deserialize(blob).stateIds, s.objects)
    requires !NoneIn(deserialize(blob).stateIds, s.tensors) || !Distinct(deserialize(blob).stateIds)
    ensures var r := SaveModel(s, deserialize, blob, id);
            && r.reply == Failure(UniqueViolation(TensorTable))
            && r.store == Store(s.cache[id := deserialize(blob)], s.models[id := blob], s.tensors, s.objects)
  {
    var m := deserialize(blob);
    var s1 := SaveToCache(s.(models := s.models[id := blob]), Deserialized(m), id, deserialize);
    SaveStatesSpec(s1, m.stateIds);
  }

  /** A Plan whose state id is missing from the object store makes `save_model` raise,
      after the model row and the cache entry are written. */
  lemma SaveMissingStateObjectRaises(s: Store, deserialize: Deserializer, blob: Bytes, id: string)
    requires id !in s.cache && id !in s.models
    requires deserialize(blob).Plan? && !AllIn(deserialize(blob).stateIds, s.objects)
    ensures var r := SaveModel(s, deserialize, blob, id);
            && r.reply.Uncaught? && r.reply.error.MissingObject?
            && r.reply.error.id in deserialize(blob).stateIds && r.reply.error.id !in s.objects
            && r.store == Store(s.cache[id := deserialize(blob)], s.models[id := blob], s.tensors, s.objects)
  {
    var m := deserialize(blob);
    var s1 := SaveToCache(s.(models := s.models[id := blob]), Deserialized(m), id, deserialize);
    SaveStatesSpec(s1, m.stateIds);
  }

  /** The repair path: when the id is in the model table but not cached, `save_model`
      fails with the uniqueness violation, keeps the tables, and leaves the cache
      holding the deserialized existing row, filled in by `get_model_with_id`. It
      raises instead when a state tensor row of that Plan is missing. */
  lemma {:induction false} SaveRepairsCache(s: Store, deserialize: Deserializer, blob: Bytes, id: string)
    requires id !in s.cache && id in s.models
    ensures var r := SaveModel(s, deserialize, blob, id);
            var m := deserialize(s.models[id]);
            && r.store.models == s.models && r.store.tensors == s.tensors
            && (r.reply == Failure(UniqueViolation(ModelTable)) <==> (m.Plan? ==> AllIn(m.stateIds, s.tensors)))
            && (r.reply.Uncaught? <==> !(m.Plan? ==> AllIn(m.stateIds, s.tensors)))
            && (r.reply.Failure? ==> r.store.cache == s.cache[id := m])
            && (r.reply.Uncaught? ==> r.store.cache == s.cache && r.reply.error.MissingTensorRow?)
            && r.store.objects == GetModel(s, deserialize, id).store.objects
  {
    var m := deserialize(s.models[id]);
    if m.Plan? {
      RehydrateSpec(s.objects, s.tensors, m.stateIds);
    }
  }

  /** `get_model_with_id` on a cached id answers from the cache and changes nothing. */
  lemma GetFromCache(s: Store, deserialize: Deserializer, id: string)
    requires id in s.cache
    ensures GetModel(s, deserialize, id) == Step(s, Success(s.cache[id]))
  {
  }

  /** `get_model_with_id` on an id in neither the cache nor the model table reports
      "Model not found" and changes nothing. */
  lemma GetNotFound(s: Store, deserialize: Deserializer, id: string)
    requires id !in s.cache && id !in s.models
    ensures GetModel(s, deserialize, id) == Step(s, Failure(ModelNotFound))
    ensures GetModel(s, deserialize, id).reply.error.Text() == Some("Model not found")
  {
  }

  /** On a cache miss with the id in the model table, `get_model_with_id` returns the
      deserialized row exactly when every state tensor of a Plan has a row; it then
      caches the model and has registered each state id's payload into the object
      store, keeping every other object. Otherwise it raises at a state id without a
      row, caching nothing. */
  lemma {:induction false} GetFromTable(s: Store, deserialize: Deserializer, id: string)
    requires id !in s.cache && id in s.models
    ensures var r := GetModel(s, deserialize, id);
            var m := deserialize(s.models[id]);
            && r.store.models == s.models && r.store.tensors == s.tensors
            && (r.reply.Success? <==> (m.Plan? ==> AllIn(m.stateIds, s.tensors)))
            && (r.reply.Success? ==>
                  && r.reply.value == m
                  && r.store.cache == s.cache[id := m]
                  && (m.Plan? ==> forall k :: 0 <= k < |m.stateIds| ==>
                                   m.stateIds[k] in r.store.objects && r.store.objects[m.stateIds[k]] == s.tensors[m.stateIds[k]])
                  && (!m.Plan? ==> r.store.objects == s.objects)
                  && (forall x :: x in s.objects && !(m.Plan? && x in m.stateIds) ==>
                                   x in r.store.objects && r.store.objects[x] == s.objects[x])
                  && (forall x :: x in r.store.objects ==> x in s.objects || (m.Plan? && x in m.stateIds)))
            && (!r.reply.Success? ==>
                  && r.store.cache == s.cache
                  && (forall x :: x in s.objects && !(m.Plan? && x in m.stateIds) ==>
                                   x in r.store.objects && r.store.objects[x] == s.objects[x])
                  && (forall x :: x in r.store.objects ==> x in s.objects || (m.Plan? && x in m.stateIds))
                  && r.reply.Uncaught? && r.reply.error.MissingTensorRow?
                  && r.reply.error.id in m.stateIds && r.reply.error.id !in s.tensors)
  {
    var m := deserialize(s.models[id]);
    if m.Plan? {
      RehydrateSpec(s.objects, s.tensors, m.stateIds);
    }
  }

  /** `delete_model` always drops the id from the cache and keeps the other cache
      entries; it succeeds exactly when the id has a model row, and then removes just
      that row. The tensor table and the object store are never touched. */
  lemma DeleteSpec(s: Store, id: string)
    ensures var r := DeleteModel(s, id);
            && r.store.cache == s.cache - {id}
            && (r.reply.Success? <==> id in s.models)
            && (r.reply.Success? ==> r.reply.value == DeletedText(id) && r.store.models == s.models - {id})
            && (!r.reply.Success? ==> r.reply == Failure(NoSuchRow(id)) && r.store.models == s.models)
            && r.store.tensors == s.tensors && r.store.objects == s.objects
  {
  }

  // ---------------------------------------------------------------------------
  // Sequences of operations
  // ---------------------------------------------------------------------------

  /** Saving the same id twice: the second save is refused, nothing changes, and
      `get_model_with_id` then answers the first save's model from the cache. */
  lemma SaveTwice(s: Store, deserialize: Deserializer, blob: Bytes, blob2: Bytes, id: string)
    requires SaveModel(s, deserialize, blob, id).reply.Success?
    ensures var s1 := SaveModel(s, deserialize, blob, id).store;
            && SaveModel(s1, deserialize, blob2, id) == Step(s1, Failure(AlreadyCached(id)))
            && GetModel(s1, deserialize, id) == Step(s1, Success(deserialize(blob)))
  {
    SaveSucceeds(s, deserialize, blob, id);
  }

  /** After a successful delete, `get_model_with_id` reports "Model not found" and the
      id is no longer among the ids of the model table. */
  lemma DeleteThenGet(s: Store, deserialize: Deserializer, id: string)
    requires DeleteModel(s, id).reply.Success?
    ensures var s1 := DeleteModel(s, id).store;
            && id !in s1.models
            && GetModel(s1, deserialize, id) == Step(s1, Failure(ModelNotFound))
  {
  }

  /** A Plan saved successfully, evicted by `clear_cache` and fetched again comes back
      with each of its state ids registered in the object store, holding the object
      that was there when the Plan was saved. */
  lemma {:induction false} RehydrateAfterClearCache(s: Store, deserialize: Deserializer, blob: Bytes, id: string)
    requires deserialize(blob).Plan?
    requires SaveModel(s, deserialize, blob, id).reply.Success?
    ensures var s2 := ClearCache(SaveModel(s, deserialize, blob, id).store);
            var g := GetModel(s2, deserialize, id);
            var ids := deserialize(blob).stateIds;
            && g.reply == Success(deserialize(blob))
            && forall k :: 0 <= k < |ids| ==>
                 ids[k] in s.objects && ids[k] in g.store.objects && g.store.objects[ids[k]] == s.objects[ids[k]]
  {
    var m := deserialize(blob);
    SaveSucceeds(s, deserialize, blob, id);
    var s2 := ClearCache(SaveModel(s, deserialize, blob, id).store);
    assert AllIn(m.stateIds, s2.tensors) by {
      forall k | 0 <= k < |m.stateIds| ensures m.stateIds[k] in s2.tensors {
        assert m.stateIds[k] in (set j | 0 <= j < |m.stateIds| :: m.stateIds[j]);
      }
    }
    GetFromTable(s2, deserialize, id);
  }

  /** `delete_model` never removes tensor rows, so saving again a Plan with state that
      was saved and deleted fails on the tensor table, although the model row and
      the cache entry are written. */
  lemma {:induction false} ResaveAfterDeleteFails(s: Store, deserialize: Deserializer, blob: Bytes, id: string)
    requires deserialize(blob).Plan? && |deserialize(blob).stateIds| > 0
    requires SaveModel(s, deserialize, blob, id).reply.Success?
    ensures var s1 := DeleteModel(SaveModel(s, deserialize, blob, id).store, id).store;
            var r := SaveModel(s1, deserialize, blob, id);
            && r.reply == Failure(UniqueViolation(TensorTable))
            && r.store.models == s1.models[id := blob]
            && r.store.cache == s1.cache[id := deserialize(blob)]
  {
    var m := deserialize(blob);
    SaveSucceeds(s, deserialize, blob, id);
    var s1 := DeleteModel(SaveModel(s, deserialize, blob, id).store, id).store;
    assert m.stateIds[0] in s1.tensors by {
      assert m.stateIds[0] in (set j | 0 <= j < |m.stateIds| :: m.stateIds[j]);
    }
    SaveStatesRefusedKeepsModel(s1, deserialize, blob, id);
  }
}
