/** The fixed-width integers of the original, the wrap-around of its release profile, and the
    result types the modules share. */
module Machine {

  const TWO_64: nat := 0x1_0000_0000_0000_0000
  const TWO_128: nat := TWO_64 * TWO_64

  /** An hour in milliseconds: how old a recount may be. */
  const HOUR: u64 := 1000 * 60 * 60

  type byte = x: int | 0 <= x < 256
  type u64 = x: int | 0 <= x < TWO_64
  type u128 = x: int | 0 <= x < TWO_128

  datatype Option<+T> = None | Some(value: T)
  datatype Result<+T, +E> = Ok(value: T) | Err(error: E)

  /** An unbounded total as a 64-bit register holds it. */
  function Wrap(n: nat): u64 {
    if n < TWO_64 then n else Wrap(n - TWO_64)
  }

  lemma {:induction false} WrapIsModulo(n: nat)
    ensures Wrap(n) == n % TWO_64
  {
    if n >= TWO_64 {
      WrapIsModulo(n - TWO_64);
    }
  }

  /** `AtomicU64::fetch_add` and `+=` on a `u64` without overflow checks. */
  function Add64(a: u64, b: u64): u64 {
    if a + b < TWO_64 then a + b else a + b - TWO_64
  }

  /** `-` on `u64` without overflow checks. */
  function Sub64(a: u64, b: u64): u64 {
    if b <= a then a - b else a - b + TWO_64
  }

  lemma NoWrap(n: nat)
    ensures n < TWO_64 ==> Wrap(n) == n
  {
  }

  lemma WrapAdd(n: nat, b: u64)
    ensures Add64(Wrap(n), b) == Wrap(n + b)
  {
    WrapIsModulo(n);
    WrapIsModulo(n + b);
  }

  lemma WrapSub(n: nat, b: u64)
    requires b <= n
    ensures Sub64(Wrap(n), b) == Wrap(n - b)
  {
    WrapIsModulo(n);
    WrapIsModulo(n - b);
  }
}
