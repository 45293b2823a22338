/**
 The BN254 scalar field as integers below its order R, with the operations the
 circuit and the hash use. That R is prime is a hypothesis of the few lemmas
 that need it, never an assumption of the definitions.
 */
module Field {
  import opened NumberTheory

  /** The order of the BN254 scalar field. */
  const R: int := 21888242871839275222246405745257275088548364400416034343698204186575808495617

  type Fr = x: nat | x < R witness 0

  function Reduce(x: int): Fr {
    x % R
  }

  function Add(a: Fr, b: Fr): Fr {
    Reduce(a + b)
  }

  function Sub(a: Fr, b: Fr): Fr {
    Reduce(a - b)
  }

  function Mul(a: Fr, b: Fr): Fr {
    Reduce(a * b)
  }

  // ---------- ring laws ----------

  lemma ReduceFr(a: Fr)
    ensures Reduce(a) == a
  {
  }

  // Addition and subtraction need one correction at most, which keeps their laws linear.

  lemma AddCases(a: Fr, b: Fr)
    ensures Add(a, b) == if a + b < R then a + b else a + b - R
  {
  }

  lemma SubCases(a: Fr, b: Fr)
    ensures Sub(a, b) == if a >= b then a - b else a - b + R
  {
  }

  lemma AddZero(a: Fr)
    ensures Add(a, 0) == a
  {
    AddCases(a, 0);
  }

  lemma AddAssoc(a: Fr, b: Fr, c: Fr)
    ensures Add(Add(a, b), c) == Add(a, Add(b, c))
  {
    AddCases(a, b);
    AddCases(b, c);
    AddCases(Add(a, b), c);
    AddCases(a, Add(b, c));
  }

  lemma SubAdd(a: Fr, b: Fr)
    ensures Add(Sub(a, b), b) == a
    ensures Sub(Add(a, b), b) == a
  {
    SubCases(a, b);
    AddCases(a, b);
    AddCases(Sub(a, b), b);
    SubCases(Add(a, b), b);
  }

  lemma AddNegated(a: Fr, b: Fr)
    ensures Add(a, Sub(0, b)) == Sub(a, b)
  {
    SubCases(0, b);
    SubCases(a, b);
    AddCases(a, Sub(0, b));
  }

  lemma NegatedSum(a: Fr, b: Fr)
    ensures Add(Sub(0, a), Sub(0, b)) == Sub(0, Add(a, b))
  {
    SubCases(0, a);
    SubCases(0, b);
    AddCases(a, b);
    SubCases(0, Add(a, b));
    AddCases(Sub(0, a), Sub(0, b));
  }

  lemma MulComm(a: Fr, b: Fr)
    ensures Mul(a, b) == Mul(b, a)
  {
  }

  lemma MulSub(a: Fr, b: Fr, c: Fr)
    ensures Mul(a, Sub(b, c)) == Sub(Mul(a, b), Mul(a, c))
  {
    ModMul(a, b - c, R);
    ModSub(a * b, a * c, R);
    assert a * (b - c) == a * b - a * c;
  }

  lemma MulOne(a: Fr)
    ensures Mul(1, a) == a && Mul(a, 1) == a
    ensures Mul(0, a) == 0 && Mul(a, 0) == 0
  {
  }

  lemma SubZero(a: Fr, b: Fr)
    ensures Sub(a, b) == 0 <==> a == b
  {
  }

  /** The field has no zero divisors: this is where primality is used. */
  lemma NoZeroDivisors(a: Fr, b: Fr)
    requires IsPrime(R)
    requires Mul(a, b) == 0
    ensures a == 0 || b == 0
  {
    Euclid(R, a, b);
  }
}
