/** Machine integers and small datatypes shared by every component. */
module Basics {

  const U64_MAX: int := 0xFFFF_FFFF_FFFF_FFFF

  type U64 = x: int | 0 <= x <= U64_MAX

  datatype Option<+T> = None | Some(value: T)

  datatype Result<+T, +E> = Ok(value: T) | Err(error: E)

  /** Rust's `u64::saturating_add`. */
  function SatAdd(a: U64, b: U64): U64 {
    if a + b > U64_MAX then U64_MAX else a + b
  }

  function Min(a: int, b: int): int {
    if a <= b then a else b
  }

  function Max(a: int, b: int): int {
    if a >= b then a else b
  }

  function MaxU64(a: U64, b: U64): U64 {
    if a >= b then a else b
  }

  /** What a `u64` that was only ever changed by saturating additions holds when the exact sum is `n`. */
  function Saturated(n: nat): U64 {
    if n > U64_MAX then U64_MAX else n
  }

  predicate IsI64(n: int) {
    -0x8000_0000_0000_0000 <= n < 0x8000_0000_0000_0000
  }

  // ---------- Stock facts ----------

  lemma Associates<T>(a: seq<T>, b: seq<T>, c: seq<T>)
    ensures (a + b) + c == a + (b + c)
  {
  }

  lemma {:induction false} OneMore(n: nat, size: nat)
    ensures (n + 1) * size == n * size + size && n * size >= 0
  {
    if n > 0 {
      OneMore(n - 1, size);
    }
  }

  lemma {:induction false} TimesGrows(a: nat, b: nat, unit: nat)
    requires a <= b
    ensures a * unit <= b * unit
    decreases b
  {
    if a < b {
      TimesGrows(a, b - 1, unit);
      OneMore(b - 1, unit);
    }
  }
}
