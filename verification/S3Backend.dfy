/** The object-store back end (ci-cache-backend-s3): puts gather all chunks and then make one
    request, which may take effect even when it fails. Each request goes to the object that its
    key is parsed into. */
module S3Backend {
  import opened Prelude
  import opened Naming
  import opened Streams
  import opened AbstractStore
  import opened ObjectUrl

  /** The filesystem's path to an object, as text. */
  function PathText(path: FilePath): string {
    path.dir + "/" + path.file
  }

  /** Both back ends spell the name of an object alike. */
  lemma SameNames(hex: string, ns: string, key: string)
    ensures PathText(BlobPath(hex)) == BlobKey(hex)
    ensures PathText(ManifestFile(NameOf(ns, key))) == ManifestKey(ns, key)
  {
    assert ("blobs" + "/") + hex == "blobs/" + hex;
  }

  class Bucket {
    const root: seq<string>
    var objects: map<string, Bytes>

    constructor (root: seq<string>)
      ensures this.root == root && objects == map[]
    {
      this.root := root;
      objects := map[];
    }

    /** A signed PUT request. A refusal changes nothing; a lost answer may follow the effect. */
    method PutObject(key: string, body: Bytes) returns (ok: bool)
      modifies this`objects
      ensures objects == old(objects)[ObjectAt(root, key) := body] || (!ok && objects == old(objects))
    {
      var done: bool := *;
      ok := *;
      if ok || done {
        objects := objects[ObjectAt(root, key) := body];
      }
    }

    /** A GET request: a 404 is absence, any other failure is not. */
    method GetObject(key: string) returns (answer: Answer)
      ensures AbstractGet(objects, ObjectAt(root, key), answer)
    {
      var fails: bool := *;
      if fails {
        return Failing;
      }
      return if ObjectAt(root, key) in objects then Present(objects[ObjectAt(root, key)]) else Absent;
    }

    /** `has_blob`, a HEAD request; `None` if and only if that fails. */
    method HasBlob(hex: string) returns (present: Option<bool>, ghost answer: Answer)
      ensures AbstractGet(objects, ObjectAt(root, BlobKey(hex)), answer)
      ensures present.None? <==> answer.Failing?
      ensures present.Some? ==> (present.value <==> ObjectAt(root, BlobKey(hex)) in objects)
    {
      var found := GetObject(BlobKey(hex));
      answer := found;
      present := match found
                 case Failing => None
                 case Present(_) => Some(true)
                 case Absent => Some(false);
    }

    /** A DELETE request, which succeeds on what is absent. */
    method DeleteObject(key: string) returns (ok: bool)
      modifies this`objects
      ensures AbstractDelete(old(objects), ObjectAt(root, key), ok, objects)
    {
      var done: bool := *;
      ok := *;
      if ok || done {
        objects := objects - {ObjectAt(root, key)};
      }
    }

    /** `put_blob`: a broken stream is never sent, so the bucket never holds part of a body; a whole
        one is, and `sent` is what the request comes to. */
    method PutBlob(hex: string, stream: ByteStream) returns (size: Option<nat>, ghost sent: Option<bool>)
      modifies this`objects
      ensures sent.Some? <==> Whole(stream)
      ensures size.Some? <==> sent == Some(true)
      ensures sent.None? ==> objects == old(objects)
      ensures size.Some? ==> Whole(stream) && size.value == |Payload(stream)|
      ensures ReplacingPut(old(objects), ObjectAt(root, BlobKey(hex)), stream, size.Some?, objects)
      ensures AbstractPut(old(objects), ObjectAt(root, BlobKey(hex)), stream, size.Some?, objects)
    {
      var buf: Bytes := [];
      var total: nat := 0;
      for i := 0 to |stream|
        invariant buf + Payload(stream[i..]) == Payload(stream) && total == |buf|
        invariant forall k :: 0 <= k < i ==> stream[k].Chunk?
      {
        assert stream[i..][0] == stream[i] && stream[i..][1..] == stream[i + 1..];
        match stream[i] {
          case Broken =>
            assert !Whole(stream);
            return None, None;
          case Chunk(data) =>
            assert buf + (data + Payload(stream[i + 1..])) == (buf + data) + Payload(stream[i + 1..]);
            total := total + |data|;
            buf := buf + data;
        }
      }
      assert Payload(stream[|stream|..]) == [];
      assert buf == Payload(stream);
      var ok := PutObject(BlobKey(hex), buf);
      return if ok then Some(total) else None, Some(ok);
    }

    /** `put_manifest`: always replaces; names are not validated. */
    method PutManifest(ns: string, key: string, json: Bytes) returns (ok: bool)
      modifies this`objects
      ensures ReplacingPut(old(objects), ObjectAt(root, ManifestKey(ns, key)), [Chunk(json)], ok, objects)
    {
      OneChunk(json);
      ok := PutObject(ManifestKey(ns, key), json);
    }
  }
}
