/** Byte streams and their collection into memory (backend.rs in ci-cache-core). */
module Streams {
  import opened Prelude

  /** What a byte stream yields. */
  datatype Item = Chunk(data: Bytes) | Broken

  type ByteStream = seq<Item>

  /** All bytes of a stream, ignoring breaks. */
  function Payload(stream: ByteStream): Bytes {
    if stream == [] then []
    else (if stream[0].Chunk? then stream[0].data else []) + Payload(stream[1..])
  }

  predicate Whole(stream: ByteStream) {
    forall i :: 0 <= i < |stream| ==> stream[i].Chunk?
  }

  datatype StreamError = StreamBroken | BlobTooLarge(size: nat, limit: nat)

  /** Where collecting from `buf` on stops. */
  function Collected(buf: Bytes, stream: ByteStream, max: nat): Result<Bytes, StreamError>
    decreases |stream|
  {
    if stream == [] then Ok(buf)
    else match stream[0]
      case Broken => Err(StreamBroken)
      case Chunk(data) =>
        if |buf| + |data| > max then Err(BlobTooLarge(|buf| + |data|, max))
        else Collected(buf + data, stream[1..], max)
  }

  method CollectStreamCapped(stream: ByteStream, max: nat) returns (r: Result<Bytes, StreamError>)
    ensures r == Collected([], stream, max)
  {
    var buf: Bytes := [];
    for i := 0 to |stream|
      invariant Collected([], stream, max) == Collected(buf, stream[i..], max)
    {
      assert stream[i..][0] == stream[i] && stream[i..][1..] == stream[i + 1..];
      match stream[i] {
        case Broken => return Err(StreamBroken);
        case Chunk(data) =>
          if |buf| + |data| > max {
            return Err(BlobTooLarge(|buf| + |data|, max));
          }
          buf := buf + data;
      }
    }
    return Ok(buf);
  }

  /** Collecting yields the concatenation exactly when the stream does not break and all of it
      fits, however it is cut into chunks; otherwise an error, and never one below the cap. */
  lemma {:induction false} CollectedExactly(buf: Bytes, stream: ByteStream, max: nat)
    requires |buf| <= max
    ensures var r, all := Collected(buf, stream, max), buf + Payload(stream);
            && (r.Ok? <==> Whole(stream) && |all| <= max)
            && (r.Ok? ==> r.value == all)
            && (r.Err? && r.error.BlobTooLarge? ==> max < r.error.size <= |all|)
            && (r.Err? && Whole(stream) ==> r.error.BlobTooLarge?)
    decreases |stream|
  {
    if stream == [] {
      assert buf + [] == buf;
    } else if stream[0].Chunk? {
      var data, rest := stream[0].data, stream[1..];
      assert buf + (data + Payload(rest)) == (buf + data) + Payload(rest);
      assert Whole(stream) <==> Whole(rest) by {
        assert forall i :: 1 <= i < |stream| ==> stream[i] == rest[i - 1];
      }
      if |buf| + |data| <= max {
        CollectedExactly(buf + data, rest, max);
      }
    }
  }

  const TWO_GIB: nat := 2 * 1024 * 1024 * 1024

  /** The default `get_blob_bytes` drains the stream of a blob under a cap of 2 GiB, the override
      of the filesystem back end reads the file whole: for every chunking of the blob they agree
      exactly up to the cap. */
  lemma DefaultGetBlobBytesAgrees(content: Bytes, stream: ByteStream)
    requires Whole(stream) && Payload(stream) == content
    ensures Collected([], stream, TWO_GIB) == Ok(content) <==> |content| <= 0x8000_0000
  {
    CollectedExactly([], stream, TWO_GIB);
    assert [] + Payload(stream) == content;
  }
}
