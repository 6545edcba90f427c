/** The byte storage the block writes submissions to, as a map from path to
    bytes: `exists`, the guarded `save`, and `open`. */
module BlobStore {
  import opened Wrappers
  import opened ChunkedRead

  type Store = map<string, seq<byte>>

  /** `default_storage.exists(path)`. */
  predicate Exists(store: Store, path: string) {
    path in store
  }

  /** `if not default_storage.exists(path): default_storage.save(path, data)`:
      a blob is written once and never overwritten. */
  function SaveIfAbsent(store: Store, path: string, data: seq<byte>): (r: Store)
    ensures r.Keys == store.Keys + {path}
    ensures forall p :: p in store ==> r[p] == store[p]
    ensures !Exists(store, path) ==> r[path] == data
  {
    if Exists(store, path) then store else store[path := data]
  }

  /** Saving a path a second time, whatever the bytes, changes nothing. */
  lemma SaveIfAbsentIdempotent(store: Store, path: string, data: seq<byte>, again: seq<byte>)
    ensures SaveIfAbsent(SaveIfAbsent(store, path, data), path, again) == SaveIfAbsent(store, path, data)
  {
  }

  /** `default_storage.open(path)`: a stream positioned at the blob's start,
      or nothing when no blob is stored there. */
  function Open(store: Store, path: string): (r: Option<Stream>)
    ensures r.Some? <==> Exists(store, path)
    ensures r.Some? ==> r.value.pos == 0 && Remaining(r.value) == store[path]
  {
    if Exists(store, path) then Some(Stream(path, store[path], 0)) else None
  }
}
