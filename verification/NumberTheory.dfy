/**
 Modular arithmetic over an arbitrary modulus, up to Fermat's little theorem.
 Nothing here depends on BN254; `Field` instantiates it at the scalar order.
 */
module NumberTheory {

  predicate Divides(d: int, n: int)
    requires d > 0
  {
    n % d == 0
  }

  ghost predicate IsPrime(p: int) {
    2 <= p && forall d :: 2 <= d < p ==> !Divides(d, p)
  }

  /** A number is prime exactly when it has no other factors than itself and one. */
  lemma PrimeIff(p: int)
    ensures IsPrime(p) <==> 2 <= p && forall a: nat, b: nat :: a * b == p ==> a == 1 || b == 1
  {
    if IsPrime(p) {
      forall a: nat, b: nat | a * b == p
        ensures a == 1 || b == 1
      {
        if a != 1 && b != 1 {
          ProperFactor(a, b, p);
          assert Divides(a, p);
        }
      }
    } else if 2 <= p {
      var d :| 2 <= d < p && Divides(d, p);
      assert d * (p / d) == p;
    }
  }

  lemma ProperFactor(a: nat, b: nat, p: int)
    requires a * b == p && 2 <= p && a != 1 && b != 1
    ensures 2 <= a < p && p % a == 0
  {
    assert a != 0 && b != 0;
    assert b >= 2 ==> a * b >= 2 * a;
    RemainderIsUnique(p, a, b, 0);
  }

  function Pow(b: int, e: nat): int {
    if e == 0 then 1 else b * Pow(b, e - 1)
  }

  // ---------- remainders ----------

  lemma RemainderIsUnique(x: int, p: int, q: int, m: int)
    requires p > 0 && 0 <= m < p
    requires x == q * p + m
    ensures x % p == m && x / p == q
  {
    QuotientsAgree(p, x / p, x % p, q, m);
  }

  lemma QuotientsAgree(p: int, q: int, m: int, q': int, m': int)
    requires 0 <= m < p && 0 <= m' < p
    requires q * p + m == q' * p + m'
    ensures q == q' && m == m'
  {
    var d := q - q';
    assert d * p == m' - m;
    if d >= 1 {
      AtLeastOneTimes(d, p);
    } else if d <= -1 {
      AtLeastOneTimes(-d, p);
    }
  }

  lemma AtLeastOneTimes(d: int, p: int)
    requires d >= 1 && p >= 0
    ensures d * p >= p && -d * p <= -p
  {
  }

  /** Adding multiples of the modulus changes nothing. */
  lemma ModShift(x: int, k: int, p: int)
    requires p > 0
    ensures (x + k * p) % p == x % p
  {
    var q, m := x / p, x % p;
    assert x + k * p == (q + k) * p + m;
    RemainderIsUnique(x + k * p, p, q + k, m);
  }

  lemma ModSub(x: int, y: int, p: int)
    requires p > 0
    ensures (x % p - y % p) % p == (x - y) % p
  {
    var q, q' := x / p, y / p;
    var m, m' := x % p, y % p;
    assert x == q * p + m && y == q' * p + m';
    assert q * p - q' * p == (q - q') * p;
    ModShift(m - m', q - q', p);
  }

  lemma ModMul(x: int, y: int, p: int)
    requires p > 0
    ensures ((x % p) * y) % p == (x * y) % p
    ensures (x * (y % p)) % p == (x * y) % p
    ensures ((x % p) * (y % p)) % p == (x * y) % p
  {
    ModMulLeft(x, y, p);
    ModMulLeft(y, x, p);
    ModMulLeft(x, y % p, p);
    assert (y % p) * x == x * (y % p) && y * x == x * y;
  }

  lemma ModMulLeft(x: int, y: int, p: int)
    requires p > 0
    ensures ((x % p) * y) % p == (x * y) % p
  {
    var q, m := x / p, x % p;
    ModShift(m * y, q * y, p);
    assert x * y == (q * p + m) * y == m * y + (q * y) * p;
  }

  /** x and y have the same remainder exactly when p divides their difference. */
  lemma SameRemainder(x: int, y: int, p: int)
    requires p > 0
    ensures x % p == y % p <==> Divides(p, x - y)
  {
    ModSub(x, y, p);
    if Divides(p, x - y) {
      var k := (x - y) / p;
      assert x == y + k * p;
      ModShift(y, k, p);
    }
  }

  // ---------- powers ----------

  lemma {:induction false} PowAdd(b: int, m: nat, n: nat)
    ensures Pow(b, m + n) == Pow(b, m) * Pow(b, n)
  {
    if m > 0 {
      PowAdd(b, m - 1, n);
      assert Pow(b, m + n) == b * (Pow(b, m - 1) * Pow(b, n));
    }
  }

  lemma {:induction false} PowMul(b: int, m: nat, n: nat)
    ensures 0 <= m * n
    ensures Pow(b, m * n) == Pow(Pow(b, m), n)
  {
    if n == 0 {
      assert m * n == 0;
    } else {
      PowMul(b, m, n - 1);
      assert m * n == m + m * (n - 1);
      PowAdd(b, m, m * (n - 1));
    }
  }

  lemma {:induction false} PowMod(b: int, e: nat, p: int)
    requires p > 0
    ensures Pow(b % p, e) % p == Pow(b, e) % p
  {
    if e > 0 {
      PowMod(b, e - 1, p);
      var x, y := Pow(b % p, e - 1), Pow(b, e - 1);
      ModMul(b % p, x, p);
      ModMul(b % p, y, p);
      ModMul(b, y, p);
    }
  }

  lemma {:induction false} PowOne(e: nat)
    ensures Pow(1, e) == 1
  {
    if e > 0 {
      PowOne(e - 1);
    }
  }

  // ---------- primes ----------

  /** Euclid's lemma, by descent on a: replace a by p mod a. */
  lemma {:induction false} EuclidReduced(p: int, a: int, b: int)
    requires IsPrime(p) && 0 < a < p && Divides(p, a * b)
    ensures Divides(p, b)
    decreases a
  {
    if a == 1 {
    } else {
      var q, r := p / a, p % a;
      assert !Divides(a, p);
      assert r * b == b * p - q * (a * b) by {
        assert p == q * a + r;
        assert p * b == (q * a + r) * b == q * (a * b) + r * b;
      }
      var k := (a * b) / p;
      assert a * b == k * p;
      assert r * b == (b - q * k) * p by {
        assert q * (k * p) == (q * k) * p;
        assert b * p - (q * k) * p == (b - q * k) * p;
      }
      ModShift(0, b - q * k, p);
      EuclidReduced(p, r, b);
    }
  }

  lemma Euclid(p: int, a: int, b: int)
    requires IsPrime(p) && Divides(p, a * b)
    ensures Divides(p, a) || Divides(p, b)
  {
    if !Divides(p, a) {
      ModMul(a, b, p);
      EuclidReduced(p, a % p, b);
    }
  }

  /** A factor that p does not divide can be cancelled. */
  lemma Cancel(p: int, c: int, x: int, y: int)
    requires IsPrime(p) && !Divides(p, c)
    requires (c * x) % p == (c * y) % p
    ensures x % p == y % p
  {
    SameRemainder(c * x, c * y, p);
    assert c * x - c * y == c * (x - y);
    Euclid(p, c, x - y);
    SameRemainder(x, y, p);
  }

  // ---------- Fermat's little theorem ----------

  function Residue(a: int, i: int, p: int): int
    requires p > 0
  {
    (a * i) % p
  }

  /** The residues a*1, a*2, ..., a*n modulo p. */
  ghost function Multiples(a: int, n: nat, p: int): set<int>
    requires p > 0
  {
    if n == 0 then {} else Multiples(a, n - 1, p) + {Residue(a, n, p)}
  }

  /** Some element of a nonempty set. */
  ghost function Pick<T(!new)>(s: set<T>): (x: T)
    requires s != {}
    ensures x in s
  {
    var x :| x in s;
    x
  }

  ghost function Product(s: set<int>): int {
    if s == {} then 1 else Pick(s) * Product(s - {Pick(s)})
  }

  lemma {:induction false} ProductRemove(s: set<int>, x: int)
    requires x in s
    ensures Product(s) == x * Product(s - {x})
    decreases |s|
  {
    var y := Pick(s);
    if y != x {
      var t := s - {x} - {y};
      assert s - {y} - {x} == t;
      ProductRemove(s - {y}, x);
      ProductRemove(s - {x}, y);
      MulSwap(y, x, Product(t));
    }
  }

  lemma MulSwap(x: int, y: int, z: int)
    ensures x * (y * z) == y * (x * z)
  {
  }

  lemma {:induction false} MultiplesElements(a: int, n: nat, p: int)
    requires p > 0
    ensures forall v :: v in Multiples(a, n, p) <==> exists i :: 1 <= i <= n && Residue(a, i, p) == v
  {
    hide Residue;
    if n > 0 {
      MultiplesElements(a, n - 1, p);
    }
  }

  /** a*n is a new residue: multiplication by a is injective below p. */
  lemma NewMultiple(a: int, n: nat, p: int)
    requires IsPrime(p) && !Divides(p, a) && 1 <= n < p
    ensures Residue(a, n, p) !in Multiples(a, n - 1, p)
    ensures 0 < Residue(a, n, p) < p
  {
    MultiplesElements(a, n - 1, p);
    forall i | 1 <= i <= n - 1
      ensures Residue(a, i, p) != Residue(a, n, p)
    {
      if Residue(a, i, p) == Residue(a, n, p) {
        Cancel(p, a, i, n);
        RemainderIsUnique(i, p, 0, i);
        RemainderIsUnique(n, p, 0, n);
      }
    }
    if Divides(p, a * n) {
      Euclid(p, a, n);
      RemainderIsUnique(n, p, 0, n);
    }
  }

  /** All the multiples together: n of them, inside 1..p-1, multiplying to a^n times the product for a = 1. */
  lemma {:induction false} MultiplesProduct(a: int, n: nat, p: int)
    requires IsPrime(p) && !Divides(p, a) && n < p
    ensures |Multiples(a, n, p)| == n
    ensures forall v :: v in Multiples(a, n, p) ==> 0 < v < p
    ensures Product(Multiples(a, n, p)) % p == (Pow(a, n) * Factorial(n)) % p
  {
    if n > 0 {
      MultiplesProduct(a, n - 1, p);
      NewMultiple(a, n, p);
      var s, t, v := Multiples(a, n, p), Multiples(a, n - 1, p), Residue(a, n, p);
      assert s - {v} == t;
      ProductRemove(s, v);
      ProductStep(a, n, Product(t), Pow(a, n - 1), Factorial(n - 1), p);
    }
  }

  lemma ProductStep(a: int, n: nat, prod: int, pow: int, fact: int, p: int)
    requires p > 0
    requires prod % p == (pow * fact) % p
    ensures ((a * n) % p * prod) % p == ((a * pow) * (n * fact)) % p
  {
    var u := pow * fact;
    calc {
      ((a * n) % p * prod) % p;
      { ModMul(a * n, prod, p); }
      ((a * n) % p * (prod % p)) % p;
      ((a * n) % p * (u % p)) % p;
      { ModMul(a * n, u, p); }
      ((a * n) * u) % p;
      { assert (a * n) * (pow * fact) == (a * pow) * (n * fact); }
      ((a * pow) * (n * fact)) % p;
    }
  }

  function Factorial(n: nat): int {
    if n == 0 then 1 else n * Factorial(n - 1)
  }

  lemma {:induction false} FactorialIndivisible(n: nat, p: int)
    requires IsPrime(p) && n < p
    ensures !Divides(p, Factorial(n))
  {
    if n == 0 {
      RemainderIsUnique(1, p, 0, 1);
    } else {
      FactorialIndivisible(n - 1, p);
      RemainderIsUnique(n, p, 0, n);
      if Divides(p, Factorial(n)) {
        Euclid(p, n, Factorial(n - 1));
      }
    }
  }

  /** The numbers 1..n. */
  ghost function UpTo(n: nat): (s: set<int>)
    ensures forall v :: v in s <==> 1 <= v <= n
    ensures |s| == n
  {
    if n == 0 then {} else UpTo(n - 1) + {n}
  }

  lemma FullRange(s: set<int>, n: nat)
    requires |s| == n && forall v :: v in s ==> 1 <= v <= n
    ensures s == UpTo(n)
  {
    var t := UpTo(n);
    assert s <= t;
    SubsetOfSameSize(s, t);
  }

  lemma SubsetOfSameSize<T>(s: set<T>, t: set<T>)
    requires s <= t && |s| == |t|
    ensures s == t
  {
    assert t == s + (t - s);
  }

  /** Fermat: a^(p-1) is 1 modulo a prime p that does not divide a. */
  lemma Fermat(p: int, a: int)
    requires IsPrime(p) && !Divides(p, a)
    ensures Pow(a, p - 1) % p == 1
  {
    var n := p - 1;
    RemainderIsUnique(1, p, 0, 1);
    assert Multiples(a, n, p) == Multiples(1, n, p) by {
      AllMultiples(a, p);
      AllMultiples(1, p);
    }
    MultiplesProduct(a, n, p);
    MultiplesProduct(1, n, p);
    PowOne(n);
    CancelFactorial(p, n, Pow(a, n));
  }

  lemma AllMultiples(a: int, p: int)
    requires IsPrime(p) && !Divides(p, a)
    ensures Multiples(a, p - 1, p) == UpTo(p - 1)
  {
    MultiplesProduct(a, p - 1, p);
    FullRange(Multiples(a, p - 1, p), p - 1);
  }

  lemma CancelFactorial(p: int, n: nat, f: int)
    requires IsPrime(p) && n < p
    requires (f * Factorial(n)) % p == (1 * Factorial(n)) % p
    ensures f % p == 1
  {
    var c := Factorial(n);
    FactorialIndivisible(n, p);
    assert c * f == f * c && c * 1 == 1 * c;
    Cancel(p, c, f, 1);
    RemainderIsUnique(1, p, 0, 1);
  }

  /** Fermat for every base, including multiples of p: a^(k*(p-1)+1) is a. */
  lemma FermatMultiple(p: int, a: int, k: nat, n: nat)
    requires IsPrime(p)
    requires n == (p - 1) * k
    ensures Pow(a, n + 1) % p == a % p
  {
    PowMul(a, p - 1, k);
    if !Divides(p, a) {
      FermatPower(p, a, k);
    }
    TimesOneModulo(p, a, Pow(a, n));
    assert Pow(a, n + 1) == a * Pow(a, n) == Pow(a, n) * a;
  }

  lemma TimesOneModulo(p: int, a: int, f: int)
    requires p >= 2
    requires Divides(p, a) || f % p == 1
    ensures (f * a) % p == a % p
  {
    if f % p == 1 {
      calc {
        (f * a) % p;
        { ModMulLeft(f, a, p); }
        ((f % p) * a) % p;
        (1 * a) % p;
        a % p;
      }
    } else {
      calc {
        (f * a) % p;
        { assert f * a == a * f; }
        (a * f) % p;
        { ModMulLeft(a, f, p); }
        ((a % p) * f) % p;
        (0 * f) % p;
        { assert 0 * f == 0; }
        0 % p;
        0;
        a % p;
      }
    }
  }

  lemma FermatPower(p: int, a: int, k: nat)
    requires IsPrime(p) && !Divides(p, a)
    ensures Pow(Pow(a, p - 1), k) % p == 1
  {
    Fermat(p, a);
    PowMod(Pow(a, p - 1), k, p);
    PowOne(k);
    RemainderIsUnique(1, p, 0, 1);
  }

  /**
   Raising to e and then to d is the identity modulo p whenever e*d is one more
   than a multiple of p - 1. The two exponents play the same part, so each undoes
   the other.
   */
  lemma ExponentsUndo(p: int, a: int, e: nat, d: nat, k: nat)
    requires IsPrime(p)
    requires e * d == (p - 1) * k + 1
    ensures Pow(Pow(a, e) % p, d) % p == a % p
  {
    PowMod(Pow(a, e), d, p);
    PowMul(a, e, d);
    FermatMultiple(p, a, k, e * d - 1);
  }

  /** The exponent of the fifth root, which exists when 5 does not divide p - 1. */
  function FifthRootExponent(p: int): (d: nat)
    requires p >= 2 && (p - 1) % 5 != 0
    ensures 5 * d == (p - 1) * FifthRootMultiplier(p) + 1
  {
    ((p - 1) * FifthRootMultiplier(p) + 1) / 5
  }

  function FifthRootMultiplier(p: int): (k: nat)
    requires p >= 2 && (p - 1) % 5 != 0
    ensures ((p - 1) * k + 1) % 5 == 0
  {
    var k: nat := match (p - 1) % 5 case 1 => 4 case 2 => 2 case 3 => 3 case _ => 1;
    MinusOneModuloFive((p - 1) / 5, (p - 1) % 5, k);
    k
  }

  lemma MinusOneModuloFive(q: int, m: int, k: nat)
    requires (m == 1 && k == 4) || (m == 2 && k == 2) || (m == 3 && k == 3) || (m == 4 && k == 1)
    ensures ((5 * q + m) * k + 1) % 5 == 0
  {
    var t := q * k + (if m == 2 then 1 else if m == 3 then 2 else 1);
    assert (5 * q + m) * k + 1 == t * 5 + 0;
    RemainderIsUnique((5 * q + m) * k + 1, 5, t, 0);
  }
}
