/** Signed integer division as C++ performs it on `std::ptrdiff_t`.
    C++ truncates the quotient toward zero; Dafny's `/` on `int` is Euclidean,
    so the two differ whenever an operand is negative. */
module CppInt {

  function Abs(x: int): nat
  {
    if x < 0 then -x else x
  }

  /** Sign rules for a product, as separate facts the solver can use linearly. */
  lemma MulSigns(x: int, y: int)
    ensures (-x) * y == -(x * y) && x * (-y) == -(x * y)
    ensures x >= 0 && y >= 0 ==> x * y >= 0
  {
  }

  /** A product is positive exactly when both factors are nonzero with the
      same sign, and zero exactly when a factor is. */
  lemma ProductSign(x: int, y: int)
    ensures x * y > 0 <==> (x > 0 && y > 0) || (x < 0 && y < 0)
    ensures x * y == 0 <==> x == 0 || y == 0
  {
    MulSigns(x, y);
    MulSigns(-x, y);
    MulSigns(x, -y);
    MulSigns(-x, -y);
    if x != 0 && y != 0 {
      AbsMulAtLeast(x, y);
    }
  }

  /** The quotient `a / b` of C++: the multiple of `b` closest to `a` that does
      not overshoot it, i.e. the remainder is smaller than `b` in magnitude and
      never of the opposite sign to `a`. */
  function Quot(a: int, b: int): (q: int)
    requires b != 0
    ensures Abs(a - q * b) < Abs(b)
    ensures Abs(q * b) <= Abs(a)
    ensures a - q * b == 0 || ((a - q * b < 0) <==> (a < 0))
  {
    var m := Abs(a) / Abs(b);
    var q := if (a < 0) == (b < 0) then m else -m;
    QuotFacts(a, b, m, q);
    q
  }

  lemma QuotFacts(a: int, b: int, m: int, q: int)
    requires b != 0
    requires m == Abs(a) / Abs(b)
    requires q == if (a < 0) == (b < 0) then m else -m
    ensures Abs(a - q * b) < Abs(b)
    ensures Abs(q * b) <= Abs(a)
    ensures a - q * b == 0 || ((a - q * b < 0) <==> (a < 0))
  {
    var aa, bb := Abs(a), Abs(b);
    var p, r := m * bb, aa % bb;
    DivMod(aa, bb);
    assert aa == p + r && 0 <= r < bb;
    assert m >= 0;
    MulSigns(m, bb);
    assert p >= 0;
    QuotTimesDivisor(a, b, m, q);
    RemainderSigns(a, bb, p, r, q * b);
  }

  /** Euclidean division of naturals, as a fact stated once. */
  lemma DivMod(x: nat, y: nat)
    requires y > 0
    ensures x == (x / y) * y + x % y && 0 <= x % y < y
  {
  }

  /** The linear core of QuotFacts, with the products as plain numbers:
      |a| = p + r with 0 <= r < bb, and qb is p carrying the sign of a. */
  lemma RemainderSigns(a: int, bb: int, p: int, r: int, qb: int)
    requires Abs(a) == p + r && 0 <= r < bb && p >= 0
    requires qb == if a < 0 then -p else p
    ensures Abs(a - qb) < bb
    ensures Abs(qb) <= Abs(a)
    ensures a - qb == 0 || ((a - qb < 0) <==> (a < 0))
  {
  }

  /** The product of the truncated quotient and the divisor, by sign case. */
  lemma QuotTimesDivisor(a: int, b: int, m: int, q: int)
    requires b != 0
    requires q == if (a < 0) == (b < 0) then m else -m
    ensures q * b == (if a < 0 then -(m * Abs(b)) else m * Abs(b))
  {
    MulSigns(m, b);
    if b < 0 {
      MulSigns(m, -b);
    }
  }

  lemma SubMul(x: int, y: int, z: int)
    ensures (x - y) * z == x * z - y * z
  {
  }

  /** |x * y| == |x| * |y|. */
  lemma AbsMul(x: int, y: int)
    ensures Abs(x * y) == Abs(x) * Abs(y)
  {
    MulSigns(x, y);
    MulSigns(-x, y);
    MulSigns(Abs(x), Abs(y));
    if x < 0 && y < 0 {
      assert x * y == (-x) * (-y);
    }
  }

  /** A nonzero multiple of `b` is at least `b` in magnitude. */
  lemma AbsMulAtLeast(k: int, b: int)
    requires k != 0
    ensures Abs(k * b) >= Abs(b)
  {
    AbsMul(k, b);
    var kk := Abs(k);
    assert kk >= 1;
    assert kk * Abs(b) == Abs(b) + (kk - 1) * Abs(b);
    MulSigns(kk - 1, Abs(b));
  }

  /** Two remainders within `bb` of zero, neither on the other side of zero
      from `a`, are less than `bb` apart. */
  lemma RemaindersClose(a: int, bb: int, r1: int, r2: int)
    requires Abs(r1) < bb && Abs(r2) < bb
    requires r1 == 0 || ((r1 < 0) <==> (a < 0))
    requires r2 == 0 || ((r2 < 0) <==> (a < 0))
    ensures Abs(r1 - r2) < bb
  {
  }

  /** The three conditions of Quot's contract admit a single quotient. */
  lemma QuotUnique(a: int, b: int, c: int)
    requires b != 0
    requires Abs(a - c * b) < Abs(b)
    requires Abs(c * b) <= Abs(a)
    requires a - c * b == 0 || ((a - c * b < 0) <==> (a < 0))
    ensures c == Quot(a, b)
  {
    var q := Quot(a, b);
    if c != q {
      var rc, rq := a - c * b, a - q * b;
      RemaindersClose(a, Abs(b), rc, rq);
      SubMul(q, c, b);
      assert rc - rq == (q - c) * b;
      AbsMulAtLeast(q - c, b);
      assert false;
    }
  }

  /** An exact multiple divides back to its factor, whatever the signs:
      C++ `(n * b) / b == n` for every nonzero `b`. */
  lemma QuotExact(n: int, b: int)
    requires b != 0
    ensures Quot(n * b, b) == n
  {
    AbsMul(n, b);
    QuotUnique(n * b, b, n);
  }

  /** Truncation is symmetric about zero (flooring division is not):
      C++ `(-a) / b == -(a / b)`. */
  lemma QuotNegate(a: int, b: int)
    requires b != 0
    ensures Quot(-a, b) == -Quot(a, b)
  {
    var q := Quot(a, b);
    MulSigns(q, b);
    assert -a - (-q) * b == -(a - q * b);
    QuotUnique(-a, b, -q);
  }
}
