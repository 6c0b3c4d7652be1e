/** Vocabulary shared by all modules: options, results, bytes, machine words, text. */
module Prelude {

  datatype Option<+T> = None | Some(value: T)

  datatype Result<+T, +E> = Ok(value: T) | Err(error: E)

  newtype byte = x: int | 0 <= x < 256

  type Bytes = seq<byte>

  const U32: int := 0x1_0000_0000
  const U64: int := 0x1_0000_0000_0000_0000

  type u64 = x: int | 0 <= x < U64

  /** Text is UTF-8 and a `char` holds one code unit, so `s[i]` and `|s|` are byte offsets as in Rust. */
  predicate IsText(s: string) {
    forall i :: 0 <= i < |s| ==> s[i] as int < 256
  }

  function Min(a: nat, b: nat): (m: nat)
    ensures m <= a && m <= b && (m == a || m == b)
  {
    if a <= b then a else b
  }
}
