/** Fixed-width integers and panics as the Rust code sees them.

    Arithmetic follows the debug profile: an i32 `*` or `-` whose exact
    result leaves the i32 range panics, and `/` truncates toward zero and
    panics on a zero divisor or on `i32::MIN / -1`.  A panic ends the
    process, so every operation that can panic returns an `Outcome`. */
module Rust {

  const I32_MIN: int := -0x8000_0000
  const I32_MAX: int := 0x7FFF_FFFF
  const U32_MODULUS: int := 0x1_0000_0000

  type i32 = x: int | -0x8000_0000 <= x < 0x8000_0000
  type u32 = x: int | 0 <= x < 0x1_0000_0000
  type usize = x: int | 0 <= x < 0x1_0000_0000_0000_0000
  type byte = x: int | 0 <= x < 0x100

  predicate InI32(x: int) {
    I32_MIN <= x <= I32_MAX
  }

  /** Rust's `Option`. */
  datatype Option<+T> = None | Some(value: T)

  /** Why the process aborted. */
  datatype Panic =
    | ArithmeticOverflow
    | DivisionByZero
    | IndexOutOfBounds
    | InteriorNul

  /** The result of code that either finishes or panics; usable with `:-`. */
  datatype Outcome<+T> = Ok(value: T) | Panicked(panic: Panic) {

    predicate IsFailure() {
      Panicked?
    }

    function PropagateFailure<U>(): Outcome<U>
      requires Panicked?
    {
      Panicked(panic)
    }

    function Extract(): T
      requires Ok?
    {
      value
    }
  }

  /** `x as u32` for an i32 `x`: the two's-complement bits reread unsigned. */
  function I32AsU32(x: i32): (r: u32)
    ensures (r - x) % U32_MODULUS == 0
    ensures 0 <= x ==> r == x
  {
    if x < 0 then x + U32_MODULUS else x
  }

  /** `n as u32` for a usize `n`: keeps the low 32 bits. */
  function UsizeAsU32(n: nat): (r: u32)
    ensures n < U32_MODULUS ==> r == n
    ensures (n - r) % U32_MODULUS == 0
  {
    n % U32_MODULUS
  }

  function Abs(x: int): nat {
    if x < 0 then -x else x
  }

  /** Rust's integer division, which rounds toward zero. */
  function TruncDiv(a: int, b: int): (q: int)
    requires b != 0
    ensures 0 <= a && 0 < b ==> q == a / b
    ensures Abs(q) <= Abs(a)
    ensures q < 0 ==> (a < 0) != (b < 0)
    ensures q != 0 ==> (q < 0 <==> (a < 0) != (b < 0))
    ensures Abs(b) * Abs(q) <= Abs(a) < Abs(b) * (Abs(q) + 1)
  {
    var m := Abs(a) / Abs(b);
    DivNoLarger(Abs(a), Abs(b));
    QuotientBounds(Abs(a), Abs(b));
    var q := if (a < 0) != (b < 0) then -m else m;
    assert Abs(q) == m;
    q
  }

  /** The Euclidean quotient of naturals brackets the dividend. */
  lemma QuotientBounds(x: nat, y: nat)
    requires 0 < y
    ensures y * (x / y) <= x < y * (x / y + 1)
  {
    var q, r := x / y, x % y;
    assert x == y * q + r && 0 <= r < y;
    assert y * (q + 1) == y * q + y;
  }

  /** A quotient of naturals is no larger than the dividend. */
  lemma {:induction false} DivNoLarger(x: nat, y: nat)
    requires 0 < y
    ensures 0 <= x / y <= x
    decreases x
  {
    if x >= y {
      DivNoLarger(x - y, y);
      DivUnique(x, y, (x - y) / y + 1, (x - y) % y);
    }
  }

  /** Euclidean division has exactly one quotient and remainder. */
  lemma DivUnique(x: nat, y: nat, q: int, r: int)
    requires 0 < y && x == y * q + r && 0 <= r < y
    ensures x / y == q && x % y == r
  {
    var q', r' := x / y, x % y;
    assert x == y * q' + r' && 0 <= r' < y;
    assert y * (q - q') == r' - r;
    if q' < q {
      MulAtLeast(y, q - q');
      assert false;
    } else if q < q' {
      MulAtLeast(y, q' - q);
      assert false;
    }
  }

  lemma {:induction false} MulAtLeast(y: nat, k: nat)
    requires 1 <= k
    ensures y <= y * k
    decreases k
  {
    if k > 1 {
      MulAtLeast(y, k - 1);
      assert y * k == y * (k - 1) + y;
    }
  }

  function CheckedSub(a: i32, b: i32): (r: Outcome<i32>)
    ensures r.Ok? <==> InI32(a - b)
    ensures r.Ok? ==> r.value == a - b
    ensures r.Panicked? ==> r.panic == ArithmeticOverflow
  {
    if InI32(a - b) then Ok(a - b) else Panicked(ArithmeticOverflow)
  }

  function CheckedMul(a: i32, b: i32): (r: Outcome<i32>)
    ensures r.Ok? <==> InI32(a * b)
    ensures r.Ok? ==> r.value == a * b
    ensures r.Panicked? ==> r.panic == ArithmeticOverflow
  {
    if InI32(a * b) then Ok(a * b) else Panicked(ArithmeticOverflow)
  }

  function CheckedDiv(a: i32, b: i32): (r: Outcome<i32>)
    ensures b == 0 <==> r == Panicked(DivisionByZero)
    ensures r.Ok? <==> b != 0 && !(a == I32_MIN && b == -1)
    ensures r.Ok? ==> r.value == TruncDiv(a, b)
  {
    if b == 0 then Panicked(DivisionByZero)
    else if a == I32_MIN && b == -1 then Panicked(ArithmeticOverflow)
    else
      Ok(TruncDiv(a, b))
  }

}
