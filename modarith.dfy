/** Integer powers and Python's three-argument `pow(b, e, m)`, with the
    exponent laws the Schnorr verification equation rests on. */
module ModArith {

  /** b^e over the unbounded integers. */
  function Pow(b: int, e: nat): int
    decreases e
  {
    if e == 0 then 1 else b * Pow(b, e - 1)
  }

  /** Python's `pow(b, e, m)` for a positive modulus and a non-negative
      exponent: b^e reduced into [0, m). */
  function ModPow(b: int, e: nat, m: int): int
    requires m > 0
  {
    Pow(b, e) % m
  }

  lemma {:induction false} PowAdd(b: int, m: nat, n: nat)
    ensures Pow(b, m + n) == Pow(b, m) * Pow(b, n)
    decreases m
  {
    if m > 0 {
      PowAdd(b, m - 1, n);
      assert Pow(b, m + n) == b * Pow(b, m - 1 + n);
    }
  }

  lemma {:induction false} PowMul(b: int, m: nat, n: nat)
    ensures Pow(b, m * n) == Pow(Pow(b, m), n)
    decreases n
  {
    if n > 0 {
      PowMul(b, m, n - 1);
      assert m * n == m + m * (n - 1);
      PowAdd(b, m, m * (n - 1));
    }
  }

  lemma {:induction false} PowOne(n: nat)
    ensures Pow(1, n) == 1
  {
    if n > 0 { PowOne(n - 1); }
  }

  /** Every positive power of 2 is even. */
  lemma PowTwoEven(n: nat)
    requires n >= 1
    ensures Pow(2, n) % 2 == 0 && Pow(2, n) >= 2
  {
    PowPositive(2, n - 1);
  }

  lemma {:induction false} PowPositive(b: int, n: nat)
    requires b > 0
    ensures Pow(b, n) > 0
  {
    if n > 0 { PowPositive(b, n - 1); }
  }

  /** Euclidean division is unique: a quotient and a remainder in [0, m)
      determine n mod m. */
  lemma ModUnique(n: int, m: int, d: int, a: int)
    requires m > 0 && 0 <= a < m && n == d * m + a
    ensures n % m == a
  {
    var d0, a0 := n / m, n % m;
    assert n == d0 * m + a0;
    assert (d - d0) * m == a0 - a;
    MulSmallIsZero(d - d0, m);
  }

  /** A multiple of m strictly between -m and m is zero. */
  lemma MulSmallIsZero(k: int, m: int)
    requires m > 0 && -m < k * m < m
    ensures k == 0
  {
    assert k >= 1 ==> k * m == (k - 1) * m + m;
    assert k <= -1 ==> k * m == (k + 1) * m - m;
  }

  /** (k*m + t) mod m == t mod m. */
  lemma ModAddMultiple(k: int, m: int, t: int)
    requires m > 0
    ensures (k * m + t) % m == t % m
  {
    var d := t / m;
    assert t == d * m + t % m;
    assert k * m + t == (k + d) * m + t % m;
    ModUnique(k * m + t, m, k + d, t % m);
  }

  /** Reducing a factor before multiplying does not change the product mod m. */
  lemma MulModLeft(a: int, b: int, m: int)
    requires m > 0
    ensures (a * b) % m == ((a % m) * b) % m
  {
    var d := a / m;
    assert a == d * m + a % m;
    assert a * b == (d * b) * m + (a % m) * b;
    ModAddMultiple(d * b, m, (a % m) * b);
  }

  lemma MulMod(a: int, b: int, m: int)
    requires m > 0
    ensures (a * b) % m == ((a % m) * (b % m)) % m
  {
    MulModLeft(a, b, m);
    MulModLeft(b, a % m, m);
  }

  /** Reducing the base before exponentiating does not change the result. */
  lemma {:induction false} PowModBase(b: int, e: nat, m: int)
    requires m > 0
    ensures Pow(b % m, e) % m == Pow(b, e) % m
    decreases e
  {
    if e > 0 {
      PowModBase(b, e - 1, m);
      var a, u, v := b % m, Pow(b % m, e - 1), Pow(b, e - 1);
      assert Pow(b % m, e) == a * u;
      assert Pow(b, e) == b * v;
      MulMod(a, u, m);
      MulMod(b, v, m);
      ModUnique(a, m, 0, a);
      assert (a * u) % m == (b * v) % m;
    }
  }

  /** If g^q == 1 (mod m), exponents of g may be reduced modulo q. */
  lemma ExponentReduction(g: int, q: nat, e: nat, m: int)
    requires m > 0 && q > 0
    requires ModPow(g, q, m) == 1
    ensures ModPow(g, e, m) == ModPow(g, e % q, m)
  {
    var k := e / q;
    var t := e % q;
    assert e == q * k + t;
    PowAdd(g, q * k, t);
    PowMul(g, q, k);
    // g^(q*k) mod m == (g^q mod m)^k mod m == 1^k mod m == 1
    PowModBase(Pow(g, q), k, m);
    PowOne(k);
    assert Pow(Pow(g, q), k) % m == 1 % m;
    MulMod(Pow(g, q * k), Pow(g, t), m);
    MulMod(1, Pow(g, t), m);
  }

  /** Completeness of one Schnorr round: with f = g^s, y = g^x and
      r = (s + c*x) mod q, the verification equation g^r == f * y^c (mod p)
      holds whenever g^q == 1 (mod p). */
  lemma Completeness(p: int, q: nat, g: int, x: nat, s: nat, c: nat)
    requires p > 0 && q > 0
    requires ModPow(g, q, p) == 1
    ensures ModPow(g, (s + c * x) % q, p)
         == (ModPow(g, s, p) * ModPow(ModPow(g, x, p), c, p)) % p
  {
    ExponentReduction(g, q, s + c * x, p);
    // y^c mod p == g^(x*c) mod p
    PowModBase(Pow(g, x), c, p);
    PowMul(g, x, c);
    assert ModPow(ModPow(g, x, p), c, p) == Pow(g, x * c) % p;
    // (g^s mod p) * (g^(x*c) mod p) mod p == g^(s + x*c) mod p
    MulMod(Pow(g, s), Pow(g, x * c), p);
    PowAdd(g, s, x * c);
    assert s + c * x == s + x * c;
  }
}
