/** Swift's integer division and remainder, and the Euclidean facts the
    rest of the model needs.

    Swift's `/` truncates toward zero and its `%` takes the sign of the
    dividend; Dafny's `/` and `%` are Euclidean (the remainder is never
    negative).  The two agree when both operands are non-negative. */
module SwiftInt {

  function Abs(x: int): (r: nat)
    ensures r == x || r == -x
  {
    if x < 0 then -x else x
  }

  /** Swift's `a / b` on `Int`: the quotient rounded toward zero. */
  function Quot(a: int, b: int): (q: int)
    requires b != 0
    ensures (a < 0) == (b < 0) ==> q >= 0
    ensures (a < 0) != (b < 0) ==> q <= 0
    ensures a >= 0 && b > 0 ==> q == a / b
  {
    if a >= 0 && b > 0 then DivNonneg(a, b); a / b
    else if a < 0 && b < 0 then DivNonneg(-a, -b); (-a) / (-b)
    else if a >= 0 then DivNonneg(a, -b); -(a / (-b))
    else DivNonneg(-a, b); -((-a) / b)
  }

  /** Euclidean division of a non-negative value by a positive one is
      non-negative. */
  lemma DivNonneg(a: int, b: int)
    requires a >= 0 && b > 0
    ensures a / b >= 0
  {
    var q := a / b;
    assert a == q * b + a % b;
    if q < 0 {
      MulMono(q, -1, b);
      assert false;
    }
  }

  /** Swift's `a % b` on `Int`: the remainder of the truncating division,
      with the sign of the dividend. */
  function Rem(a: int, b: int): (r: int)
    requires b != 0
    ensures a == Quot(a, b) * b + r
    ensures Abs(r) < Abs(b)
    ensures a >= 0 ==> 0 <= r
    ensures a <= 0 ==> r <= 0
    ensures a >= 0 && b > 0 ==> r == a % b
  {
    RemOfQuot(a, b);
    a - Quot(a, b) * b
  }

  /** The remainder left by the truncated quotient is the Euclidean
      remainder of the magnitudes, signed like the dividend. */
  lemma RemOfQuot(a: int, b: int)
    requires b != 0
    ensures a >= 0 ==> a - Quot(a, b) * b == Abs(a) % Abs(b)
    ensures a < 0 ==> a - Quot(a, b) * b == -(Abs(a) % Abs(b))
    ensures Abs(a) % Abs(b) < Abs(b)
  {
    var aa: int, ab: int := Abs(a), Abs(b);
    var m, n := aa / ab, aa % ab;
    assert aa == m * ab + n;
    if a >= 0 && b > 0 {
      assert Quot(a, b) == m;
    } else if a < 0 && b < 0 {
      assert Quot(a, b) == m;
      assert a - m * b == -(aa - m * ab) by {
        TimesNeg(m, ab);
      }
    } else if a >= 0 {
      assert Quot(a, b) == -m;
      NegTimesNeg(m, ab);
    } else {
      assert Quot(a, b) == -m;
      NegTimes(m, ab);
    }
  }

  lemma NegTimesNeg(x: int, y: int)
    ensures (-x) * (-y) == x * y
  {
  }

  lemma NegTimes(x: int, y: int)
    ensures (-x) * y == -(x * y)
  {
  }

  lemma TimesNeg(x: int, y: int)
    ensures x * (-y) == -(x * y)
  {
  }

  /** Truncating division is the only division whose remainder is smaller
      than the divisor and carries the dividend's sign. */
  lemma QuotRemUnique(a: int, b: int, q: int, r: int)
    requires b != 0
    requires a == q * b + r
    requires Abs(r) < Abs(b)
    requires a > 0 ==> r >= 0
    requires a < 0 ==> r <= 0
    ensures q == Quot(a, b) && r == Rem(a, b)
  {
    var q', r' := Quot(a, b), Rem(a, b);
    assert a == q' * b + r';
    MulSub(q, q', b);
    assert Abs(r' - r) < Abs(b) by {
      if a == 0 {
        assert r' == 0;
      }
    }
    SmallMultipleIsZero(q - q', b, r' - r);
  }

  lemma MulSub(x: int, y: int, b: int)
    ensures x * b - y * b == (x - y) * b
  {
  }

  /** The only multiple of `b` smaller than `|b|` in magnitude is 0. */
  lemma SmallMultipleIsZero(k: int, b: int, d: int)
    requires b != 0 && k * b == d && Abs(d) < Abs(b)
    ensures k == 0
  {
    if k != 0 {
      MulAtLeast(k, b);
    }
  }

  /** A non-zero multiple of `b` is at least `|b|` away from zero. */
  lemma MulAtLeast(k: int, b: int)
    requires k != 0
    ensures Abs(k * b) >= Abs(b)
  {
    var ak: int, ab: int := Abs(k), Abs(b);
    MulMono(1, ak, ab);
    AbsMul(k, b);
  }

  lemma AbsMul(x: int, y: int)
    ensures Abs(x * y) == Abs(x) * Abs(y)
  {
    if x < 0 {
      NegTimes(-x, y);
    }
    if y < 0 {
      TimesNeg(x, -y);
    }
    if x < 0 && y < 0 {
      NegTimesNeg(-x, -y);
    }
    MulNonneg(Abs(x), Abs(y));
  }

  lemma MulNonneg(x: int, y: int)
    requires x >= 0 && y >= 0
    ensures x * y >= 0
  {
  }

  lemma MulMono(x: int, y: int, c: int)
    requires x <= y && c >= 0
    ensures x * c <= y * c
  {
    MulNonneg(y - x, c);
    assert (y - x) * c == y * c - x * c;
  }

  /** Euclidean division recovers the quotient and remainder of
      `q * d + r`. */
  lemma DivModOf(q: int, d: int, r: int)
    requires d > 0 && 0 <= r < d
    ensures (q * d + r) / d == q
    ensures (q * d + r) % d == r
  {
    var n := q * d + r;
    var q', r' := n / d, n % d;
    assert n == q' * d + r';
    var k := q - q';
    assert k * d == r' - r by {
      assert q * d - q' * d == (q - q') * d;
    }
    if k != 0 {
      MulAtLeast(k, d);
      assert false;
    }
  }

  /** Euclidean division of `n`, given as `q * d + r`, recovers `q` and
      `r`. */
  lemma DivModIs(n: int, d: int, q: int, r: int)
    requires d > 0 && 0 <= r < d && n == q * d + r
    ensures n / d == q && n % d == r
  {
    DivModOf(q, d, r);
  }

  /** A value below `m * d` has a quotient by `d` below `m`. */
  lemma DivBelow(n: int, d: int, m: int)
    requires d > 0 && 0 <= n < m * d
    ensures 0 <= n / d < m
  {
    var q := n / d;
    assert n == q * d + n % d;
    if q >= m {
      MulMono(m, q, d);
      assert false;
    }
    if q < 0 {
      MulMono(q, -1, d);
      assert false;
    }
  }

  /** Composing a quotient below `m` with a remainder below `d` stays
      below `m * d`. */
  lemma ComposeBelow(q: int, d: int, r: int, m: int)
    requires 0 <= q < m && 0 <= r < d
    ensures 0 <= q * d + r < m * d
  {
    MulMono(q, m - 1, d);
    MulNonneg(q, d);
    assert (m - 1) * d == m * d - d;
  }
}
