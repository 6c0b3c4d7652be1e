/** What the protocol may assume of any back end: the effect of one operation on the objects
    stored, whatever the names of objects are (the `CacheBackend` contract, backend.rs). */
module AbstractStore {
  import opened Prelude
  import opened Streams

  /** A put of `stream` under `key`: done, or an object found there and kept, or failed before or
      after its effect. A broken stream is never stored. */
  ghost predicate AbstractPut<K(!new)>(before: map<K, Bytes>, key: K, stream: ByteStream, ok: bool,
                                       after: map<K, Bytes>)
  {
    || (Whole(stream) && after == before[key := Payload(stream)])
    || (after == before && (ok ==> key in before))
  }

  /** The same where an object there is replaced. */
  ghost predicate ReplacingPut<K(!new)>(before: map<K, Bytes>, key: K, stream: ByteStream, ok: bool,
                                        after: map<K, Bytes>)
  {
    (Whole(stream) && after == before[key := Payload(stream)]) || (!ok && after == before)
  }

  ghost predicate AbstractDelete<K(!new)>(before: map<K, Bytes>, key: K, ok: bool, after: map<K, Bytes>) {
    after == before - {key} || (!ok && after == before)
  }

  datatype Answer = Present(data: Bytes) | Absent | Failing

  predicate AbstractGet<K(!new)>(store: map<K, Bytes>, key: K, answer: Answer) {
    match answer
    case Present(data) => key in store && store[key] == data
    case Absent => key !in store
    case Failing => true
  }

  /** In a store whose objects hash to their names, keeping and overwriting come to the same when
      the bytes put hash to the name too, unless what is there are other bytes of the same hash. */
  lemma SuccessfulPut(hash: Bytes -> string, before: map<string, Bytes>, hex: string, stream: ByteStream,
                      after: map<string, Bytes>)
    requires hex in before && hash(before[hex]) == hash(Payload(stream)) ==> before[hex] == Payload(stream)
    requires forall h :: h in before ==> hash(before[h]) == h
    requires hash(Payload(stream)) == hex && AbstractPut(before, hex, stream, true, after)
    ensures after == before[hex := Payload(stream)]
    ensures forall h :: h in after ==> hash(after[h]) == h
  {}

  lemma OneChunk(data: Bytes)
    ensures Payload([Chunk(data)]) == data && Whole([Chunk(data)])
  {
    assert [Chunk(data)][1..] == [];
  }
}
