/** Manifests: blob lookup, size sums and expiry (manifest.rs in ci-cache-core). */
module Manifests {
  import opened Prelude

  datatype CacheType = Cargo | Npm | Pnpm | Yarn | Docker | Generic

  datatype BlobRef = BlobRef(digest: string, size: nat, uncompressed: nat, compression: string,
                             backend: string, location: string)

  datatype CachedPath = CachedPath(originalPath: string, archiveDigest: string, mode: Option<nat>)

  /** Times are nanoseconds since an epoch. */
  datatype Manifest = Manifest(
    namespace: string,
    cacheType: CacheType,
    key: string,
    createdAt: int,
    updatedAt: int,
    ttl: Option<u64>,
    paths: seq<CachedPath>,
    blobs: seq<BlobRef>,
    metadata: map<string, string>)

  /** `find_blob`: the first reference with this digest. */
  function FindBlob(blobs: seq<BlobRef>, digest: string): (r: Option<BlobRef>)
    ensures r.None? <==> forall i :: 0 <= i < |blobs| ==> blobs[i].digest != digest
    ensures r.Some? ==>
      exists i :: 0 <= i < |blobs| && blobs[i] == r.value && r.value.digest == digest
                  && forall j :: 0 <= j < i ==> blobs[j].digest != digest
  {
    if blobs == [] then None
    else if blobs[0].digest == digest then Some(blobs[0])
    else
      var r := FindBlob(blobs[1..], digest);
      assert r.Some? ==> exists i :: 0 <= i < |blobs| - 1 && blobs[1..][i] == r.value && r.value.digest == digest
                           && forall j :: 0 <= j < i ==> blobs[1..][j].digest != digest;
      assert forall i :: 0 <= i < |blobs| - 1 ==> blobs[1..][i] == blobs[i + 1];
      r
  }

  /** `total_compressed_size`, short of overflow. */
  function TotalSize(blobs: seq<BlobRef>): nat {
    if blobs == [] then 0 else blobs[0].size + TotalSize(blobs[1..])
  }

  lemma {:induction false} TotalSizeSnoc(blobs: seq<BlobRef>, b: BlobRef)
    ensures TotalSize(blobs + [b]) == TotalSize(blobs) + b.size
  {
    if blobs == [] {
      assert [] + [b] == [b] && [b][1..] == [];
    } else {
      assert (blobs + [b])[1..] == blobs[1..] + [b];
      TotalSizeSnoc(blobs[1..], b);
    }
  }

  /** The compressed sizes are summed, each once. */
  lemma {:induction false} TotalSizeSplits(a: seq<BlobRef>, b: seq<BlobRef>)
    ensures TotalSize(a + b) == TotalSize(a) + TotalSize(b)
    ensures TotalSize([]) == 0 && forall ref :: TotalSize([ref]) == ref.size
  {
    if a == [] {
      assert a + b == b;
    } else {
      assert (a + b)[1..] == a[1..] + b;
      TotalSizeSplits(a[1..], b);
    }
    forall ref
      ensures TotalSize([ref]) == ref.size
    {
      assert [ref][1..] == [];
    }
  }

  // ---- Expiry ----

  const SECOND: int := 1_000_000_000

  /** Whole seconds of a signed duration, cut off toward zero. */
  function NumSeconds(elapsed: int): int {
    if elapsed >= 0 then elapsed / SECOND else -((-elapsed) / SECOND)
  }

  /** The cast of an unsigned to a signed 64-bit integer. */
  function AsSigned(n: u64): int {
    if n < U64 / 2 then n else n - U64
  }

  predicate IsExpired(m: Manifest, now: int) {
    match m.ttl
    case None => false
    case Some(ttl) => NumSeconds(now - m.updatedAt) > AsSigned(ttl)
  }

  /** A manifest expires when its time to live plus one second is over. A time to live of 2^63
      seconds or more counts as negative, and such a manifest is expired from the start, short of
      a clock that runs that far behind. */
  lemma ExpiredExactly(m: Manifest, now: int)
    ensures var elapsed := now - m.updatedAt;
            IsExpired(m, now)
            <==> m.ttl.Some?
                 && if m.ttl.value < 0x8000_0000_0000_0000 then elapsed >= (m.ttl.value + 1) * 1_000_000_000
                    else elapsed > (m.ttl.value - 0x1_0000_0000_0000_0000) * 1_000_000_000
  {
    if m.ttl.Some? {
      var ttl := AsSigned(m.ttl.value);
      var elapsed := now - m.updatedAt;
      if elapsed >= 0 {
        assert elapsed == (elapsed / SECOND) * SECOND + elapsed % SECOND;
      } else {
        var e := -elapsed;
        assert e == (e / SECOND) * SECOND + e % SECOND;
      }
    }
  }

  /** An expired manifest stays expired. */
  lemma ExpiryIsFinal(m: Manifest, now: int, later: int)
    requires now <= later && IsExpired(m, now)
    ensures IsExpired(m, later)
  {
    ExpiredExactly(m, now);
    ExpiredExactly(m, later);
  }
}
