/**
 * Values shared by the model store and the command relay of a grid node:
 * bytes, the objects of the worker's object store, the two kinds of model,
 * and the option/result wrappers used for outcomes.
 */
module Common {

  newtype byte = x: int | 0 <= x < 256

  type Bytes = seq<byte>

  /** An object of the worker's object store (a tensor, a plan, a reference to a remote object, ...),
      kept as its serialized form; the store never looks inside it. */
  type Obj = Bytes

  /** The worker's object store: object id to object. */
  type ObjStore = map<string, Obj>

  /** A deserialized model: either a plain executable artifact, or a Plan whose
      execution needs the state tensors named by `stateIds` in the object store. */
  datatype Model =
    | Plain(code: Bytes)
    | Plan(code: Bytes, stateIds: seq<string>)

  datatype Option<T> = None | Some(value: T)

  datatype Result<T, E> = Ok(value: T) | Err(error: E)

  /** An event sent back over the socket: its name and its text payload. */
  datatype Event = Event(name: string, payload: string)

  /** The observable effects of the socket handlers, in the order they happen. */
  datatype Effect =
    | Recovered                          // the object store was reloaded from the last snapshot
    | Executed(command: Bytes)           // the execution engine ran on a decoded command
    | Snapshotted                        // the object store was written to the snapshot
    | Dialed(peer: string, uri: string)  // a connection to a peer node was attempted
    | Emitted(event: Event)              // an event was sent back to the caller

  /** Python's `str(KeyError(key))` for the string keys used here. */
  function KeyErrorText(key: string): string
  {
    "'" + key + "'"
  }
}
