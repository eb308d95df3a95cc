/**
 Go's big.Int.Quo truncates toward zero, while Dafny's `/` is Euclidean. Quo is
 spelled out here, with the facts the fee arithmetic rests on.
 */
module TruncatedDivision {

  function Abs(x: int): nat {
    if x < 0 then -x else x
  }

  function Quo(a: int, b: int): int
    requires b != 0
  {
    var m := Abs(a) / Abs(b);
    if (a >= 0) == (b > 0) then m else -m
  }

  /** The remainder is smaller than the divisor and never has the opposite sign of the dividend. */
  lemma QuoRemainder(a: int, b: int)
    requires b > 0
    ensures a >= 0 ==> 0 <= a - b * Quo(a, b) < b
    ensures a <= 0 ==> -b < a - b * Quo(a, b) <= 0
  {
    var n := Abs(a);
    assert n == b * (n / b) + n % b;
    if a < 0 {
      assert b * -(n / b) == -(b * (n / b));
    }
  }

  /** Rounding toward zero, from above zero: q is the largest multiple that fits. */
  lemma QuoFloor(a: int, b: int, q: int)
    requires b > 0 && a >= 0
    ensures q <= Quo(a, b) <==> b * q <= a
  {
    QuoRemainder(a, b);
    var m := Quo(a, b);
    if q <= m {
      assert b * q <= b * m;
    } else {
      assert b * q >= b * (m + 1) == b * m + b;
    }
  }

  /** Rounding toward zero, from below zero: q is the smallest multiple that covers. */
  lemma QuoCeiling(a: int, b: int, q: int)
    requires b > 0 && a <= 0
    ensures q >= Quo(a, b) <==> b * q >= a
  {
    QuoOdd(a, b);
    QuoFloor(-a, b, -q);
    assert b * -q == -(b * q);
  }

  lemma QuoOdd(a: int, b: int)
    requires b != 0
    ensures Quo(-a, b) == -Quo(a, b)
  {
    if a == 0 {
      ZeroDividend(Abs(b));
    } else {
      assert Abs(-a) == Abs(a);
    }
  }

  lemma ZeroDividend(b: nat)
    requires b > 0
    ensures 0 / b == 0
  {
  }

  lemma QuoMonotone(a: int, a': int, b: int)
    requires b > 0 && a <= a'
    ensures Quo(a, b) <= Quo(a', b)
  {
    QuoRemainder(a, b);
    QuoRemainder(a', b);
    if 0 <= a {
      QuoFloor(a', b, Quo(a, b));
    } else if a' <= 0 {
      QuoCeiling(a, b, Quo(a', b));
    } else {
      QuoCeiling(a, b, 0);
      QuoFloor(a', b, 0);
    }
  }

  /** Truncating twice is truncating once by the product. */
  lemma QuoNested(a: int, b: int, c: int)
    requires b > 0 && c > 0
    ensures b * c > 0
    ensures Quo(Quo(a, b), c) == Quo(a, b * c)
  {
    assert b * c > 0;
    if a >= 0 {
      NestedFloor(a, b, c);
    } else {
      NestedFloor(-a, b, c);
      QuoOdd(a, b);
      QuoOdd(Quo(a, b), c);
      QuoOdd(a, b * c);
    }
  }

  lemma NestedFloor(a: int, b: int, c: int)
    requires b > 0 && c > 0 && a >= 0
    ensures b * c > 0
    ensures Quo(Quo(a, b), c) == Quo(a, b * c)
  {
    assert b * c > 0;
    var m := Quo(a, b);
    QuoFloor(a, b, 0);
    var q, q' := Quo(m, c), Quo(a, b * c);
    QuoFloor(m, c, q);
    QuoFloor(a, b, c * q);
    assert b * (c * q) == (b * c) * q;
    QuoFloor(a, b * c, q);
    QuoFloor(a, b * c, q');
    assert b * (c * q') == (b * c) * q';
    QuoFloor(a, b, c * q');
    QuoFloor(m, c, q');
  }

  lemma ScaleOrder(b: int, x: int, y: int)
    requires b > 0 && x <= y
    ensures b * x <= b * y && b * (x + 1) == b * x + b && b * (x - 1) == b * x - b
    ensures b * (y + 1) == b * y + b && b * (y - 1) == b * y - b
  {
  }

  /** The quotient is one unit short of enough at most. */
  lemma QuoTight(n: int, b: int, move: int)
    requires b > 0
    ensures b * move >= n ==> move >= Quo(n, b)
    ensures move >= Quo(n, b) ==> b * (move + 1) > n
  {
    var d := Quo(n, b);
    QuoRemainder(n, b);
    if move < d {
      ScaleOrder(b, move, d - 1);
    } else {
      ScaleOrder(b, d + 1, move + 1);
    }
    if n <= 0 {
      QuoCeiling(n, b, move);
    }
  }

  /** A scaled quotient stays above -p exactly when the factor stays above -b. */
  lemma QuoAbove(p: int, h: int, b: int)
    requires p > 0 && b > 0
    ensures p + Quo(p * h, b) > 0 <==> h + b > 0
  {
    if h >= 0 {
      assert p * h >= 0;
      QuoFloor(p * h, b, 0);
    } else {
      assert p * h <= 0;
      QuoCeiling(p * h, b, -p);
      SignOfProduct(p, h + b);
      assert p * (h + b) == p * h - b * -p;
    }
  }

  lemma SignOfProduct(p: int, x: int)
    requires p > 0
    ensures p * x > 0 <==> x > 0
  {
  }
}
