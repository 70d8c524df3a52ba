/** The int64 overflow guards of the Go runtime, over explicitly wrapping arithmetic. */
module Overflow {
  import opened Numbers

  const MIN: int := -(TWO63 as int)

  predicate InInt64(x: int) {
    MIN <= x < TWO63
  }

  /** The int64 that a wrapping operation leaves for the mathematical result `x`. */
  function Wrap(x: int): (r: int)
    ensures InInt64(r) && (x - r) % TWO64 == 0
    ensures InInt64(x) ==> r == x
  {
    (x + TWO63) % TWO64 - TWO63
  }

  /** Go's int64 quotient: the one quotient out of range, MIN / -1, wraps back to MIN. */
  function GoDiv(x: int, y: int): int
    requires y != 0
  {
    Wrap(TruncDiv(x, y))
  }

  datatype Outcome = Value(n: int) | Panic

  function CheckedMul(a: int, b: int): Outcome {
    if a == 0 || b == 0 then Value(0)
    else
      var result := Wrap(a * b);
      if GoDiv(result, a) != b then Panic else Value(result)
  }

  function CheckedAdd(a: int, b: int): Outcome {
    var result := Wrap(a + b);
    if (b > 0 && result < a) || (b < 0 && result > a) then Panic else Value(result)
  }

  /** What both guards are for: the exact mathematical result, or a panic exactly when it does not fit. */
  function Exact(x: int): Outcome {
    if InInt64(x) then Value(x) else Panic
  }

  lemma AddIsExact(a: int, b: int)
    requires InInt64(a) && InInt64(b)
    ensures CheckedAdd(a, b) == Exact(a + b)
  {
    if a + b >= TWO63 {
      WrapBy(a + b, 1);
    } else if a + b < MIN {
      WrapBy(a + b, -1);
    }
  }

  lemma WrapBy(x: int, k: int)
    requires InInt64(x - k * TWO64)
    ensures Wrap(x) == x - k * TWO64
  {
    var y := x - k * TWO64 + TWO63;
    assert x + TWO63 == k * TWO64 + y;
    ModUnique(x + TWO63, k, y);
  }

  lemma ModUnique(x: int, k: int, y: int)
    requires x == k * TWO64 + y && 0 <= y < TWO64
    ensures x % TWO64 == y
  {
  }

  lemma {:induction false} ExactQuotient(a: int, b: int)
    requires a != 0
    ensures TruncDiv(a * b, a) == b
  {
    var m, n := Abs(a), Abs(b);
    assert Abs(a * b) == m * n by { AbsProduct(a, b); }
    assert (m * n) / m == n by { QuotientOf(m, n, 0); }
    if b == 0 {
    } else if a > 0 {
      assert (a * b < 0) == (b < 0) by { SignOfProduct(a, b); }
    } else {
      assert (a * b < 0) == (b > 0) by { SignOfProduct(a, b); }
    }
  }

  lemma AbsProduct(a: int, b: int)
    ensures Abs(a * b) == Abs(a) * Abs(b)
  {
    if a < 0 && b < 0 {
      assert a * b == (-a) * (-b);
    } else if a < 0 {
      assert a * b == -((-a) * b);
    } else if b < 0 {
      assert a * b == -(a * (-b));
    }
  }

  lemma SignOfProduct(a: int, b: int)
    requires a != 0 && b != 0
    ensures (a * b < 0) == ((a < 0) != (b < 0))
    ensures a * b != 0
  {
    if a < 0 {
      assert a * b == -((-a) * b);
    }
  }

  lemma {:induction false} QuotientOf(m: nat, n: nat, r: nat)
    requires 0 <= r < m
    ensures (m * n + r) / m == n
  {
    var q, rem := (m * n + r) / m, (m * n + r) % m;
    assert m * (n - q) == rem - r;
    assert n - q >= 1 ==> m * (n - q) >= m;
    assert n - q <= -1 ==> m * (n - q) <= -(m as int);
  }

  /** A truncated quotient times its divisor is within |divisor| of the dividend. */
  lemma QuotientNear(r: int, a: int, b: int)
    requires a != 0 && TruncDiv(r, a) == b
    ensures Abs(r - a * b) < Abs(a)
  {
    var m, x := Abs(a), Abs(r);
    assert x == m * (x / m) + x % m;
    AbsProduct(a, b);
  }

  /** The multiplication guard gives the exact product or panics exactly on overflow, for every
      pair but one: for (-1, MIN) the wrapped quotient of the wrapped product is again MIN, and
      the overflow goes unnoticed. */
  lemma {:induction false} MulIsExactExcept(a: int, b: int)
    requires InInt64(a) && InInt64(b)
    ensures CheckedMul(a, b) == Exact(a * b) <==> !(a == -1 && b == MIN)
  {
    if a != 0 && b != 0 {
      if InInt64(a * b) {
        ExactQuotient(a, b);
      } else {
        MulOverflows(a, b);
      }
    }
  }

  lemma {:induction false} MulOverflows(a: int, b: int)
    requires InInt64(a) && InInt64(b) && a != 0 && b != 0 && !InInt64(a * b)
    ensures CheckedMul(a, b).Panic? <==> !(a == -1 && b == MIN)
  {
    var r := Wrap(a * b);
    if a == -1 {
      assert a * b == -b;
      assert b == MIN;
    } else if TruncDiv(r, a) == b {
      QuotientNear(r, a, b);
      FarApart(a * b, r);
    } else {
      TruncInRange(r, a);
    }
  }

  lemma FarApart(x: int, r: int)
    requires (x - r) % TWO64 == 0 && x != r
    ensures Abs(r - x) >= TWO64
  {
  }

  lemma {:induction false} TruncInRange(r: int, a: int)
    requires InInt64(r) && a != 0 && a != -1
    ensures InInt64(TruncDiv(r, a))
  {
    if a != 1 {
      HalvesAtLeast(Abs(r), Abs(a));
    }
  }

  lemma HalvesAtLeast(x: nat, m: nat)
    requires m >= 2
    ensures 0 <= x / m && 2 * (x / m) <= x
  {
    var q := x / m;
    assert x == m * q + x % m;
    assert m * q >= 2 * q;
  }

  /** The pair the guard misses, and what it returns. */
  lemma MulMissesOnePair()
    ensures CheckedMul(-1, MIN) == Value(MIN) && !InInt64(-1 * MIN)
    ensures CheckedMul(MIN, -1) == Panic
  {
  }
}
