/** Values shared by every module: optional values, results of calls that may fail. */
module Wrappers {

  datatype Option<+T> = None | Some(value: T)

  datatype Result<+T> = Ok(value: T) | Err(message: string)
}

/** Fixed-width arithmetic that Go and C++ perform and Dafny's `int` does not. */
module Machine {

  const TWO_63: int := 0x8000_0000_0000_0000
  const TWO_64: int := 0x1_0000_0000_0000_0000

  /** The value a 64-bit signed register holds after computing `x`. */
  function WrapInt64(x: int): (r: int)
    ensures -TWO_63 <= r < TWO_63
    ensures (r - x) % TWO_64 == 0
    ensures -TWO_63 <= x < TWO_63 ==> r == x
  {
    (x + TWO_63) % TWO_64 - TWO_63
  }

  /** Clamps to the 64-bit signed range, as subtracting two `time.Time` values does. */
  function SaturateInt64(x: int): (r: int)
    ensures -TWO_63 <= r < TWO_63
  {
    if x < -TWO_63 then -TWO_63 else if x >= TWO_63 then TWO_63 - 1 else x
  }

  /** A 64-bit unsigned register. */
  type Uint64 = x: int | 0 <= x < TWO_64

  function Increment(x: Uint64): (r: Uint64) { if x == TWO_64 - 1 then 0 else x + 1 }

  /** Remainder by repeated subtraction, which the solver handles better than `%`. */
  function Remainder(a: nat, n: nat): (r: nat)
    requires n > 0
    ensures r < n
  {
    if a < n then a else Remainder(a - n, n)
  }

  lemma {:induction false} RemainderIsModulo(a: nat, n: nat)
    requires n > 0
    ensures Remainder(a, n) == a % n
  {
    if a >= n {
      RemainderIsModulo(a - n, n);
      assert a % n == (a - n + n) % n == (a - n) % n by { ModuloShift(a - n, n); }
    }
  }

  lemma ModuloShift(a: nat, n: nat)
    requires n > 0
    ensures (a + n) % n == a % n
  {
    var q, r := a / n, a % n;
    assert a + n == (q + 1) * n + r;
    ModuloUnique(a + n, n, q + 1, r);
  }

  lemma ModuloUnique(a: int, n: int, q: int, r: int)
    requires n > 0 && a == q * n + r && 0 <= r < n
    ensures a % n == r
  {
    var d := a / n - q;
    assert d * n == r - a % n;
    assert d >= 1 ==> d * n >= n;
    assert d <= -1 ==> d * n <= -n;
  }

  /** The value a `Uint64` register, started at zero, holds after `n` increments: `n` modulo `2^64`. */
  function Low64(n: nat): (r: Uint64) { Remainder(n, TWO_64) }

  lemma {:induction false} IncrementLow64(n: nat)
    ensures Increment(Low64(n)) == Low64(n + 1)
  {
    if n >= TWO_64 { IncrementLow64(n - TWO_64); }
  }

  function Max(a: int, b: int): (r: int) { if a < b then b else a }

  function Min(a: int, b: int): (r: int) { if a < b then a else b }
}
