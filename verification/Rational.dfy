/** Exact positive ratios in lowest terms. */
module Rational {
  import opened Wrappers

  datatype Ratio = Ratio(num: nat, den: nat)

  datatype Error = NotPositive

  const ONE := Ratio(1, 1)

  function Gcd(a: nat, b: nat): nat
    decreases b
  {
    if b == 0 then a else Gcd(b, a % b)
  }

  predicate Reduced(r: Ratio) { r.num > 0 && r.den > 0 && Gcd(r.num, r.den) == 1 }

  /** The two stand for the same number. */
  predicate Equal(r: Ratio, num: nat, den: nat) { r.num * den == num * r.den }

  lemma DivMod(a: nat, b: nat)
    requires b > 0
    ensures a == b * (a / b) + a % b
  {}

  /** `Gcd` is a common divisor ... */
  lemma {:induction false} GcdDivides(a: nat, b: nat) returns (p: nat, q: nat)
    ensures a == Gcd(a, b) * p && b == Gcd(a, b) * q
    ensures a > 0 || b > 0 ==> Gcd(a, b) > 0
    decreases b
  {
    if b == 0 {
      p, q := 1, 0;
    } else {
      var g := Gcd(a, b);
      var q', r' := GcdDivides(b, a % b);
      DivMod(a, b);
      p, q := q' * (a / b) + r', q';
      Spread(g, q', a / b, r');
    }
  }

  lemma Spread(g: int, x: int, y: int, z: int)
    ensures g * x * y + g * z == g * (x * y + z)
  {
    assert g * x * y == g * (x * y);
  }

  /** ... and a combination of the two numbers, hence the greatest. */
  lemma {:induction false} Bezout(a: nat, b: nat) returns (u: int, v: int)
    ensures a * u + b * v == Gcd(a, b)
    decreases b
  {
    if b == 0 {
      u, v := 1, 0;
    } else {
      var u', v' := Bezout(b, a % b);
      DivMod(a, b);
      u, v := v', u' - (a / b) * v';
      Regroup(a, b, a / b, a % b, u', v');
    }
  }

  lemma Regroup(a: int, b: int, q: int, r: int, u: int, v: int)
    requires a == b * q + r
    ensures a * v + b * (u - q * v) == b * u + r * v
  {
    assert a * v == b * q * v + r * v;
    assert b * (u - q * v) == b * u - b * (q * v);
    assert b * q * v == b * (q * v);
  }

  lemma GcdIsGreatest(a: nat, b: nat, d: nat, p: nat, q: nat) returns (m: int)
    requires a == d * p && b == d * q
    ensures Gcd(a, b) == d * m
    ensures a > 0 || b > 0 ==> d <= Gcd(a, b)
  {
    var u, v := Bezout(a, b);
    m := p * u + q * v;
    Factored(d, p, u, q, v);
    var x, y := GcdDivides(a, b);
    if a > 0 || b > 0 { AtLeast(d, m); }
  }

  lemma Factored(d: int, p: int, u: int, q: int, v: int)
    ensures d * p * u + d * q * v == d * (p * u + q * v)
  {
    assert d * p * u == d * (p * u);
    assert d * q * v == d * (q * v);
  }

  lemma NotPositiveProduct(d: nat, m: int)
    requires m <= 0
    ensures d * m <= 0
  {}

  lemma Grows(d: nat, m: int)
    requires m >= 1
    ensures d * m >= d
  {
    assert d * m == d + d * (m - 1);
  }

  lemma AtLeast(d: nat, m: int)
    requires d * m > 0
    ensures d <= d * m
  {
    if m <= 0 { NotPositiveProduct(d, m); } else { Grows(d, m); }
  }

  /** The loop of `gcd`. */
  method ComputeGcd(left: nat, right: nat) returns (g: nat)
    ensures g == Gcd(left, right)
  {
    var a, b := left, right;
    while b != 0
      invariant Gcd(a, b) == Gcd(left, right)
      decreases b
    {
      var remainder := a % b;
      a := b;
      b := remainder;
    }
    g := a;
  }

  // ---------------------------------------------------------------- coprimality

  /** A combination that makes one. */
  lemma UnitGcd(a: nat, b: nat, u: int, v: int)
    requires a * u + b * v == 1
    ensures Gcd(a, b) == 1
  {
    var p, q := GcdDivides(a, b);
    var g := Gcd(a, b);
    Factored(g, p, u, q, v);
    var m := p * u + q * v;
    assert g * m == 1;
    if m <= 0 { NotPositiveProduct(g, m); } else { Grows(g, m); }
  }


  /** What is left after the common divisor is taken out is coprime. */
  lemma CofactorsCoprime(a: nat, b: nat)
    requires a > 0 && b > 0
    ensures Gcd(a, b) > 0
    ensures a == Gcd(a, b) * (a / Gcd(a, b)) && b == Gcd(a, b) * (b / Gcd(a, b))
    ensures Gcd(a / Gcd(a, b), b / Gcd(a, b)) == 1 && a / Gcd(a, b) > 0 && b / Gcd(a, b) > 0
  {
    var g := Gcd(a, b);
    var p, q := GcdDivides(a, b);
    ExactQuotient(g, p);
    ExactQuotient(g, q);
    var u, v := Bezout(a, b);
    Factored(g, p, u, q, v);
    var m := p * u + q * v;
    assert g * m == g;
    UniqueQuotient(g, m, 1, 0);
    UnitGcd(p, q, u, v);
  }

  lemma UniqueQuotient(g: nat, p: int, k: int, r: nat)
    requires g * p == g * k + r && r < g
    ensures p == k
  {
    assert g * (p - k) == g * p - g * k;
    assert g * (k - p) == g * k - g * p;
    if p > k { Grows(g, p - k); } else if p < k { Grows(g, k - p); }
  }

  lemma ExactQuotient(g: nat, p: nat)
    requires g > 0
    ensures (g * p) / g == p
  {
    var n := g * p;
    DivMod(n, g);
    UniqueQuotient(g, p, n / g, n % g);
  }

  /** Divisors of coprime numbers are coprime. */
  lemma DivisorsCoprime(a: nat, b: nat, g: nat, p: nat, h: nat, q: nat)
    requires a == g * p && b == h * q && Gcd(a, b) == 1
    ensures Gcd(p, q) == 1
  {
    var u, v := Bezout(a, b);
    Reassociate(g, p, u);
    Reassociate(h, q, v);
    UnitGcd(p, q, g * u, h * v);
  }

  lemma Reassociate(g: int, p: int, u: int)
    ensures g * p * u == p * (g * u)
  {}

  lemma ProductCoprime(a: nat, b: nat, c: nat)
    requires Gcd(a, c) == 1 && Gcd(b, c) == 1
    ensures Gcd(a * b, c) == 1
  {
    var u, v := Bezout(a, c);
    var s, t := Bezout(b, c);
    var x, y := u * s, a * u * t + v;
    Multiplied(a, b, c, u, v, s, t);
    UnitGcd(a * b, c, x, y);
  }

  lemma Multiplied(a: int, b: int, c: int, u: int, v: int, s: int, t: int)
    requires a * u + c * v == 1 && b * s + c * t == 1
    ensures a * b * (u * s) + c * (a * u * t + v) == 1
  {
    assert a * b * (u * s) == (a * u) * (b * s);
    assert c * (a * u * t + v) == (a * u) * (c * t) + c * v;
    assert (a * u) * (b * s) + (a * u) * (c * t) == (a * u) * (b * s + c * t);
  }

  /** Euclid: what divides a product and is coprime to one part divides the other. */
  lemma DividesOther(a: nat, b: nat, c: nat, d: nat) returns (k: int)
    requires Gcd(a, b) == 1 && a * d == c * b
    ensures c == a * k
  {
    var u, v := Bezout(a, b);
    k := c * u + d * v;
    Euclid(a, b, c, d, u, v);
  }

  lemma Euclid(a: int, b: int, c: int, d: int, u: int, v: int)
    requires a * u + b * v == 1 && a * d == c * b
    ensures c == a * (c * u + d * v)
  {
    calc {
      a * (c * u + d * v);
      a * (c * u) + a * (d * v);
      { Reassociate(a, d, v); Reassociate(c, b, v); Reassociate(c, a, u); }
      c * (a * u) + c * (b * v);
      c * (a * u + b * v);
      c;
    }
  }

  /** Lowest terms are unique. */
  lemma SameRatio(r: Ratio, s: Ratio)
    requires Reduced(r) && Reduced(s) && r.num * s.den == s.num * r.den
    ensures r == s
  {
    var j := DividesOther(r.num, r.den, s.num, s.den);
    var k := DividesOther(s.num, s.den, r.num, r.den);
    Mutual(r.num, s.num, j, k);
    assert r.num * s.den == r.num * r.den;
    UniqueQuotient(r.num, s.den, r.den, 0);
  }

  lemma Mutual(a: nat, b: nat, j: int, k: int)
    requires a > 0 && b > 0 && b == a * j && a == b * k
    ensures a == b
  {
    if j <= 0 { NotPositiveProduct(a, j); } else { Grows(a, j); }
    if k <= 0 { NotPositiveProduct(b, k); } else { Grows(b, k); }
  }

  lemma SameNumber(r: Ratio, s: Ratio, num: nat, den: nat)
    requires Reduced(r) && Reduced(s) && den > 0
    requires r.num * den == num * r.den && s.num * den == num * s.den
    ensures r == s
  {
    assert (r.num * s.den) * den == (num * r.den) * s.den;
    assert (s.num * r.den) * den == (num * s.den) * r.den;
    assert (num * r.den) * s.den == (num * s.den) * r.den;
    UniqueQuotient(den, r.num * s.den, s.num * r.den, 0);
    SameRatio(r, s);
  }

  // ---------------------------------------------------------------- the two operations

  /** `rational`. */
  function Reduce(num: nat, den: nat): (r: Result<Ratio, Error>)
  {
    if num == 0 || den == 0 then Failure(NotPositive)
    else
      CofactorsCoprime(num, den);
      Success(Ratio(num / Gcd(num, den), den / Gcd(num, den)))
  }

  lemma ReduceMeaning(num: nat, den: nat)
    ensures Reduce(num, den).Success? <==> num > 0 && den > 0
    ensures Reduce(num, den).Success? ==> Reduced(Reduce(num, den).value) && Equal(Reduce(num, den).value, num, den)
  {
    if num > 0 && den > 0 {
      CofactorsCoprime(num, den);
      var g, p, q := Gcd(num, den), num / Gcd(num, den), den / Gcd(num, den);
      assert p * (g * q) == (g * p) * q;
    }
  }

  /** The product after the cross-reduction. */
  function Cross(left: Ratio, right: Ratio): Ratio
    requires Reduced(left) && Reduced(right)
  {
    CofactorsCoprime(left.num, right.den);
    CofactorsCoprime(right.num, left.den);
    var a := Gcd(left.num, right.den);
    var b := Gcd(right.num, left.den);
    Ratio((left.num / a) * (right.num / b), (left.den / b) * (right.den / a))
  }

  /** `multiply` passes that product to `rational`. */
  function Multiply(left: Ratio, right: Ratio): Result<Ratio, Error>
    requires Reduced(left) && Reduced(right)
  {
    Reduce(Cross(left, right).num, Cross(left, right).den)
  }

  /** The four parts left by the cross-reduction. */
  lemma CrossReduced(p: nat, q: nat, r: nat, s: nat)
    requires Gcd(p, r) == 1 && Gcd(p, s) == 1 && Gcd(q, r) == 1 && Gcd(q, s) == 1
    requires p > 0 && q > 0 && r > 0 && s > 0
    ensures Gcd(p * q, r * s) == 1
  {
    ProductCoprime(p, q, r);
    ProductCoprime(p, q, s);
    Swap(p * q, r);
    Swap(p * q, s);
    ProductCoprime(r, s, p * q);
    Swap(r * s, p * q);
  }

  lemma Swap(a: nat, b: nat)
    requires Gcd(a, b) == 1
    ensures Gcd(b, a) == 1
  {
    var u, v := Bezout(a, b);
    UnitGcd(b, a, v, u);
  }

  /** The product of two reduced ratios never fails, is exact and reduced; the common
      divisor that `rational` looks for once more is always one. */
  lemma MultiplyMeaning(left: Ratio, right: Ratio)
    requires Reduced(left) && Reduced(right)
    ensures Multiply(left, right) == Success(Cross(left, right)) && Reduced(Cross(left, right))
    ensures Equal(Cross(left, right), left.num * right.num, left.den * right.den)
  {
    CofactorsCoprime(left.num, right.den);
    CofactorsCoprime(right.num, left.den);
    var a, b := Gcd(left.num, right.den), Gcd(right.num, left.den);
    var p, s := left.num / a, right.den / a;
    var q, r := right.num / b, left.den / b;
    DivisorsCoprime(left.num, left.den, a, p, b, r);
    DivisorsCoprime(right.num, right.den, b, q, a, s);
    Swap(p, s);
    CrossReduced(p, q, r, s);
    Positive(p, q);
    Positive(r, s);
    ReduceMeaning(p * q, r * s);
    assert Gcd(p * q, r * s) == 1;
    DivideByOne(p * q);
    DivideByOne(r * s);
    CrossProducts(a, b, p, q, r, s);
  }

  lemma Positive(x: nat, y: nat)
    requires x > 0 && y > 0
    ensures x * y > 0
  {}

  lemma DivideByOne(x: nat)
    ensures x / 1 == x
  {}

  lemma CrossProducts(a: nat, b: nat, p: nat, q: nat, r: nat, s: nat)
    ensures (p * q) * ((b * r) * (a * s)) == ((a * p) * (b * q)) * (r * s)
  {
    assert (b * r) * (a * s) == (a * b) * (r * s) by { assert (b * r) * (a * s) == b * r * a * s; }
    assert (a * p) * (b * q) == (a * b) * (p * q) by { assert (a * p) * (b * q) == a * p * b * q; }
    assert (p * q) * ((a * b) * (r * s)) == ((a * b) * (p * q)) * (r * s);
  }
}
