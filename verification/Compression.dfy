/** Capped decompression (compression.rs). The codecs themselves are parameters: `inflate`
    gives what a decoder would yield in full and whether it then ends cleanly. A decoder hands
    its output out in pieces of its own choosing. */
module Compression {
  import opened Prelude

  datatype Algorithm = Store | Zstd | Gzip

  /** `as_str` */
  function AlgorithmName(a: Algorithm): string {
    match a
    case Store => "none"
    case Zstd => "zstd"
    case Gzip => "gzip"
  }

  function Lower(s: string): string {
    seq(|s|, i requires 0 <= i < |s| => if 'A' <= s[i] <= 'Z' then (s[i] as int + 32) as char else s[i])
  }

  /** `parse`, which ignores case. */
  function ParseAlgorithm(s: string): Option<Algorithm> {
    var t := Lower(s);
    if t == "none" then Some(Store)
    else if t == "zstd" then Some(Zstd)
    else if t == "gzip" || t == "gz" then Some(Gzip)
    else None
  }

  lemma ParsesOwnName(a: Algorithm)
    ensures ParseAlgorithm(AlgorithmName(a)) == Some(a)
  {
    assert Lower(AlgorithmName(a)) == AlgorithmName(a);
  }

  /** `s` is `word`, in any mix of cases. */
  predicate Spells(s: string, word: string) {
    |s| == |word| && forall i :: 0 <= i < |s| ==>
      s[i] == word[i] || ('a' <= word[i] <= 'z' && s[i] as int == word[i] as int - 32)
  }

  lemma LowerSpells(s: string, word: string)
    requires forall i :: 0 <= i < |word| ==> 'a' <= word[i] <= 'z'
    ensures Lower(s) == word <==> Spells(s, word)
  {
    var t := Lower(s);
    assert |t| == |s|;
    if |s| == |word| {
      forall i | 0 <= i < |s|
        ensures t[i] == word[i] <==> s[i] == word[i] || s[i] as int == word[i] as int - 32
      {}
    }
  }

  /** Which texts are accepted, and for what; all others are refused. */
  lemma ParseExactly(s: string)
    ensures ParseAlgorithm(s) == Some(Store) <==> Spells(s, "none")
    ensures ParseAlgorithm(s) == Some(Zstd) <==> Spells(s, "zstd")
    ensures ParseAlgorithm(s) == Some(Gzip) <==> Spells(s, "gzip") || Spells(s, "gz")
    ensures AlgorithmName(Store) == "none" && AlgorithmName(Zstd) == "zstd" && AlgorithmName(Gzip) == "gzip"
  {
    LowerSpells(s, "none");
    LowerSpells(s, "zstd");
    LowerSpells(s, "gzip");
    LowerSpells(s, "gz");
    hide Lower, Spells;
  }

  /** Everything a decoder yields, then a clean end or an error. */
  datatype Inflated = Inflated(output: Bytes, clean: bool)

  /** The zstd and gzip libraries. */
  datatype Codec = Codec(encode: (Algorithm, Bytes) -> Bytes, decode: (Algorithm, Bytes) -> Inflated)

  function Compress(codec: Codec, a: Algorithm, data: Bytes): Bytes {
    if a == Store then data else codec.encode(a, data)
  }

  function Inflate(codec: Codec, a: Algorithm, data: Bytes): Inflated {
    if a == Store then Inflated(data, true) else codec.decode(a, data)
  }

  /** Hypothesis on the libraries: decoding undoes encoding. */
  ghost predicate Lossless(codec: Codec) {
    forall a, data :: codec.decode(a, codec.encode(a, data)) == Inflated(data, true)
  }

  datatype DecompressError = Bomb(size: nat, limit: nat) | Io

  /** A decoder in the middle of its output. */
  class Decoder {
    var rest: Bytes
    var clean: bool

    constructor (inflated: Inflated)
      ensures rest == inflated.output && clean == inflated.clean
    {
      rest, clean := inflated.output, inflated.clean;
    }

    /** `Read::read`: some bytes while there are any, then 0 or an error. */
    method Read(size: nat) returns (got: Option<Bytes>)
      requires size > 0
      modifies this`rest
      ensures got.None? <==> old(rest) == [] && !clean
      ensures got.None? ==> rest == old(rest)
      ensures got.Some? ==> old(rest) == got.value + rest && |got.value| <= size
      ensures got.Some? && old(rest) != [] ==> got.value != []
    {
      if rest == [] {
        return if clean then Some([]) else None;
      }
      var most := Min(size, |rest|);
      var n :| 0 < n <= most;
      got := Some(rest[..n]);
      rest := rest[n..];
    }
  }

  /** `CapacityLimit` over a `Vec`: refuses a write that would pass the limit. */
  class CapacityLimit {
    var inner: Bytes
    var written: nat
    const limit: nat
    var exceeded: bool

    ghost predicate Valid()
      reads this
    {
      written == |inner| <= limit
    }

    constructor (limit: nat)
      ensures Valid() && inner == [] && !exceeded && this.limit == limit
    {
      inner, written, exceeded := [], 0, false;
      this.limit := limit;
    }

    method Write(buf: Bytes) returns (ok: bool)
      requires Valid()
      modifies this
      ensures Valid()
      ensures ok == (old(|inner|) + |buf| <= limit)
      ensures inner == if ok then old(inner) + buf else old(inner)
      ensures exceeded == (old(exceeded) || !ok)
    {
      if written + |buf| > limit {
        exceeded := true;
        return false;
      }
      inner := inner + buf;
      written := written + |buf|;
      ok := true;
    }
  }

  const BUFFER: nat := 0x1_0000

  /** The result of each arm, without reading in pieces. */
  function Decompressed(a: Algorithm, inflated: Inflated, max: nat): Result<Bytes, DecompressError> {
    var out := inflated.output;
    match a
    case Store =>
      if |out| > max then Err(Bomb(|out|, max)) else Ok(out)
    case Zstd =>
      if |out| > max then Err(Bomb(max + 1, max)) else if inflated.clean then Ok(out) else Err(Io)
    case Gzip =>
      if |out| >= max then Ok(out[..max]) else if inflated.clean then Ok(out) else Err(Io)
  }

  /** The zstd arm: `io::copy` from the decoder into the limiter. */
  method DecompressZstd(inflated: Inflated, max: nat) returns (r: Result<Bytes, DecompressError>)
    ensures r == Decompressed(Zstd, inflated, max)
  {
    var decoder := new Decoder(inflated);
    var limiter := new CapacityLimit(max);
    while true
      invariant limiter.Valid() && !limiter.exceeded && limiter.limit == max
      invariant decoder.clean == inflated.clean
      invariant limiter.inner + decoder.rest == inflated.output
      decreases |decoder.rest|
    {
      var got := decoder.Read(BUFFER);
      if got.None? {
        assert limiter.inner + [] == limiter.inner;
        return Err(Io);
      }
      if got.value == [] {
        assert limiter.inner + [] == limiter.inner;
        break;
      }
      var ok := limiter.Write(got.value);
      if !ok {
        return Err(if limiter.exceeded then Bomb(max + 1, max) else Io);
      }
    }
    return Ok(limiter.inner);
  }

  /** The gzip arm: reads through `take(max)`, then probes the same, by then exhausted, `take`. */
  method DecompressGzip(inflated: Inflated, max: nat) returns (r: Result<Bytes, DecompressError>)
    ensures r == Decompressed(Gzip, inflated, max)
  {
    var decoder := new Decoder(inflated);
    var left: nat := max;
    var out: Bytes := [];
    while true
      invariant decoder.clean == inflated.clean
      invariant out + decoder.rest == inflated.output
      invariant |out| + left == max
      decreases |decoder.rest|
    {
      if left == 0 {
        break;
      }
      var got := decoder.Read(Min(BUFFER, left));
      if got.None? {
        assert out + [] == out;
        return Err(Io);
      }
      if got.value == [] {
        assert out + [] == out;
        break;
      }
      left := left - |got.value|;
      out := out + got.value;
    }
    assert inflated.output[..|out|] == out;
    if left > 0 {
      var probe := decoder.Read(1);
      if probe.None? {
        return Err(Io);
      }
      if probe.value != [] {
        return Err(Bomb(max, max));
      }
    }
    return Ok(out);
  }

  method Decompress(codec: Codec, a: Algorithm, data: Bytes, max: nat)
    returns (r: Result<Bytes, DecompressError>)
    ensures r == Decompressed(a, Inflate(codec, a, data), max)
  {
    match a {
      case Store => r := if |data| > max then Err(Bomb(|data|, max)) else Ok(data);
      case Zstd => r := DecompressZstd(codec.decode(Zstd, data), max);
      case Gzip => r := DecompressGzip(codec.decode(Gzip, data), max);
    }
  }

  /** Every arm stays under the cap and returns a prefix of the true output. */
  lemma DecompressedIsPrefix(a: Algorithm, inflated: Inflated, max: nat)
    requires Decompressed(a, inflated, max).Ok?
    ensures var out := Decompressed(a, inflated, max).value;
            |out| <= max && out <= inflated.output
  {}

  /** Clean output that fits is returned whole by every arm. What does not fit is refused by two
      of them, with the size known by then, and cut short, without an error, by the gzip arm: its
      probe never sees a byte. Output that ends in an error is refused where it fits, but for the
      gzip arm when it fills the limit exactly. */
  lemma DecompressedExactly(a: Algorithm, inflated: Inflated, max: nat)
    requires a == Store ==> inflated.clean
    ensures var r, out := Decompressed(a, inflated, max), inflated.output;
            if |out| > max then
              r == (match a
                    case Store => Err(Bomb(|out|, max))
                    case Zstd => Err(Bomb(max + 1, max))
                    case Gzip => Ok(out[..max]))
            else if inflated.clean || (a == Gzip && |out| == max) then r == Ok(out)
            else r == Err(Io)
  {
    var out := inflated.output;
    assert out[..|out|] == out;
  }

  /** The overflow report of the gzip arm is unreachable, whatever the input. */
  lemma GzipNeverReportsBomb(inflated: Inflated, max: nat)
    ensures Decompressed(Gzip, inflated, max).Ok? <==> inflated.clean || |inflated.output| >= max
    ensures Decompressed(Gzip, inflated, max).Err? ==> Decompressed(Gzip, inflated, max).error == Io
  {}
}
