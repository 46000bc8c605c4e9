/** The values that pass between the storage backends and the replication engine. */
module Types {

  type Bytes = seq<bv8>

  datatype Option<+T> = None | Some(value: T)

  datatype Result<+T> = Ok(value: T) | Err(error: S3Error)

  datatype S3Error =
    | NoSuchKey
    | NoSuchBucket
    | InvalidRequest(message: string)
    | AccessDenied
    | SignatureDoesNotMatch
    | InternalError(cause: Failure)

  /** What the formatted text of an internal error says. */
  datatype Failure =
    | AllBackendsFailed
    | OnlySomeSucceeded(succeeded: nat, total: nat)
    | BackendFailed(backend: nat)
    | PutFailedAt(backend: nat, reason: S3Error)
    | DeleteFailedAt(backend: nat, reason: S3Error)
    | EtagMismatch
    | DifferentNumberOfObjects
    | DifferentObjects

  datatype ObjectMetadata = ObjectMetadata(
    key: string,
    size: nat,
    etag: string,
    lastModified: int,
    contentType: string)

  datatype StoredObject = StoredObject(data: Bytes, metadata: ObjectMetadata)

  type Store = map<string, StoredObject>

  /** SHA-256 in its quoted hexadecimal form is never computed: it is a parameter. */
  type EtagFunction = Bytes -> string

  ghost predicate Injective(etagOf: EtagFunction) {
    forall a: Bytes, b: Bytes :: etagOf(a) == etagOf(b) ==> a == b
  }

  /** The object an in-memory backend builds from a drained body. */
  function MakeObject(etagOf: EtagFunction, key: string, data: Bytes, now: int): StoredObject {
    StoredObject(data, ObjectMetadata(key, |data|, etagOf(data), now, "binary/octet-stream"))
  }

  /** Each backend stamps its own time, so replicas are compared without it. */
  function Timeless(m: ObjectMetadata): ObjectMetadata {
    m.(lastModified := 0)
  }

  /** Metadata equal up to the time stamp is equal in everything else. */
  lemma TimelessExactly(m: ObjectMetadata, n: ObjectMetadata)
    ensures Timeless(m) == Timeless(n) <==>
            m.key == n.key && m.size == n.size && m.etag == n.etag && m.contentType == n.contentType
  {
  }

  /** Every object carries the metadata that MakeObject gives its data. */
  ghost predicate WellFormed(etagOf: EtagFunction, store: Store) {
    forall k :: k in store ==>
      store[k] == MakeObject(etagOf, k, store[k].data, store[k].metadata.lastModified)
  }

  function Lookup<V>(m: map<string, V>, k: string): Option<V> {
    if k in m then Some(m[k]) else None
  }

  /** What a store holds under a key, whatever the time stamp. */
  function DataAt(store: Store, k: string): Option<Bytes> {
    if k in store then Some(store[k].data) else None
  }

  /** A source of chunks: it ends after the last one, or fails there. */
  datatype Source = Source(chunks: seq<Bytes>, fault: Option<S3Error>)
}
