/**
 MiMC over the scalar field: the keyed permutation, the two-input hash, and the
 generator of the round constants.
 */
module Mimc {
  import opened NumberTheory
  import opened Field
  import opened Xorshift

  const ROUNDS: nat := 91
  const LEAF_DOMAIN: Fr := 1
  const NULLIFIER_DOMAIN: Fr := 2

  // ---------- the permutation and the hash ----------

  /** t^5 by the three multiplications the circuit also spends. */
  function Quintic(t: Fr): Fr {
    var t2 := Mul(t, t);
    var t4 := Mul(t2, t2);
    Mul(t4, t)
  }

  function Round(x: Fr, k: Fr, c: Fr): Fr {
    Quintic(Add(Add(x, k), c))
  }

  function Rounds(x: Fr, k: Fr, constants: seq<Fr>): Fr
    decreases |constants|
  {
    if constants == [] then x else Rounds(Round(x, k, constants[0]), k, constants[1..])
  }

  function Permute(x: Fr, k: Fr, constants: seq<Fr>): Fr {
    Add(Rounds(x, k, constants), k)
  }

  function Hash2(l: Fr, r: Fr, constants: seq<Fr>): Fr {
    Add(Add(Permute(l, r, constants), l), r)
  }

  /** The two-input hash under fixed constants, as the trees use it. */
  function Hash(constants: seq<Fr>): (Fr, Fr) -> Fr {
    (l: Fr, r: Fr) => Hash2(l, r, constants)
  }

  method Mimc(x0: Fr, k: Fr, constants: seq<Fr>) returns (h: Fr)
    ensures h == Permute(x0, k, constants)
  {
    var x := x0;
    for i := 0 to |constants|
      invariant Rounds(x, k, constants[i..]) == Rounds(x0, k, constants)
    {
      var t := Add(Add(x, k), constants[i]);
      var t2 := Mul(t, t);
      var t4 := Mul(t2, t2);
      x := Mul(t4, t);
      assert constants[i..][0] == constants[i] && constants[i..][1..] == constants[i + 1..];
    }
    h := Add(x, k);
  }

  /** The constants are used from the first to the last. */
  lemma {:induction false} RoundsInOrder(x: Fr, k: Fr, first: seq<Fr>, rest: seq<Fr>)
    ensures Rounds(x, k, first + rest) == Rounds(Rounds(x, k, first), k, rest)
    decreases |first|
  {
    hide Round;
    if first == [] {
      assert first + rest == rest;
    } else {
      assert (first + rest)[1..] == first[1..] + rest;
      RoundsInOrder(Round(x, k, first[0]), k, first[1..], rest);
    }
  }

  /** The hash is the last round plus the first input plus twice the second, which is the key. */
  lemma HashFormula(l: Fr, r: Fr, constants: seq<Fr>)
    ensures Hash2(l, r, constants) == (Rounds(l, r, constants) + l + 2 * r) % R
    ensures Hash(constants)(l, r) == Hash2(l, r, constants)
  {
    hide Rounds;
    var x := Rounds(l, r, constants);
    AddCases(x, r);
    AddCases(Add(x, r), l);
    AddCases(Add(Add(x, r), l), r);
  }

  // ---------- MiMC is a permutation under every key ----------

  const ROOT_EXPONENT: nat := FifthRootExponent(R)

  function QuinticRoot(y: Fr): Fr {
    Reduce(Pow(y, ROOT_EXPONENT))
  }

  function Unround(x: Fr, k: Fr, c: Fr): Fr {
    Sub(Sub(QuinticRoot(x), c), k)
  }

  /** The rounds run backwards: the last round is undone first. */
  function Unrounds(y: Fr, k: Fr, constants: seq<Fr>): Fr
    decreases |constants|
  {
    if constants == [] then y else Unround(Unrounds(y, k, constants[1..]), k, constants[0])
  }

  function Unpermute(y: Fr, k: Fr, constants: seq<Fr>): Fr {
    Unrounds(Sub(y, k), k, constants)
  }

  /** Multiplying powers of t in the field adds their exponents. */
  lemma MulPow(t: Fr, m: nat, n: nat)
    ensures Mul(Reduce(Pow(t, m)), Reduce(Pow(t, n))) == Reduce(Pow(t, m + n))
  {
    PowAdd(t, m, n);
    ModMul(Pow(t, m), Pow(t, n), R);
  }

  lemma FirstPow(t: Fr)
    ensures Reduce(Pow(t, 1)) == t
  {
    assert Pow(t, 1) == t * Pow(t, 0) == t;
  }

  /** Taking fifth powers and taking fifth roots undo each other. */
  lemma QuinticRootUndoes(t: Fr)
    requires IsPrime(R)
    ensures QuinticRoot(Quintic(t)) == t
    ensures Quintic(QuinticRoot(t)) == t
  {
    hide Pow, Mul, Reduce, ROOT_EXPONENT, IsPrime, FifthRootExponent, FifthRootMultiplier;
    var y := QuinticRoot(t);
    FirstPow(t);
    MulPow(t, 1, 1);
    MulPow(t, 2, 2);
    MulPow(t, 4, 1);
    FirstPow(y);
    MulPow(y, 1, 1);
    MulPow(y, 2, 2);
    MulPow(y, 4, 1);
    assert Quintic(t) == Reduce(Pow(t, 5)) && Quintic(y) == Reduce(Pow(y, 5));
    RootsUndo(t);
  }

  lemma RootsUndo(t: Fr)
    requires IsPrime(R)
    ensures Reduce(Pow(Reduce(Pow(t, 5)), ROOT_EXPONENT)) == t
    ensures Reduce(Pow(Reduce(Pow(t, ROOT_EXPONENT)), 5)) == t
  {
    hide Pow;
    var d := ROOT_EXPONENT;
    var k := FifthRootMultiplier(R);
    ExponentsUndo(R, t, 5, d, k);
    ExponentsUndo(R, t, d, 5, k);
  }

  lemma UnroundUndoes(x: Fr, k: Fr, c: Fr)
    requires IsPrime(R)
    ensures Unround(Round(x, k, c), k, c) == x
    ensures Round(Unround(x, k, c), k, c) == x
  {
    var t := Add(Add(x, k), c);
    QuinticRootUndoes(t);
    SubAdd(Add(x, k), c);
    SubAdd(x, k);
    var s := QuinticRoot(x);
    QuinticRootUndoes(x);
    SubAdd(s, c);
    SubAdd(Sub(s, c), k);
  }

  /** One round takes the fifth power of input, key and constant together. */
  lemma RoundFormula(x: Fr, k: Fr, c: Fr)
    requires IsPrime(R)
    ensures QuinticRoot(Rounds(x, k, [c])) == (x + k + c) % R
  {
    hide QuinticRoot, Quintic;
    assert [c][1..] == [];
    QuinticRootUndoes(Add(Add(x, k), c));
    AddCases(x, k);
    AddCases(Add(x, k), c);
  }

  lemma {:induction false} UnroundsUndo(x: Fr, k: Fr, constants: seq<Fr>)
    requires IsPrime(R)
    ensures Unrounds(Rounds(x, k, constants), k, constants) == x
    ensures Rounds(Unrounds(x, k, constants), k, constants) == x
    decreases |constants|
  {
    if constants != [] {
      var c, rest := constants[0], constants[1..];
      UnroundsUndo(Round(x, k, c), k, rest);
      UnroundUndoes(x, k, c);
      UnroundsUndo(x, k, rest);
      UnroundUndoes(Unrounds(x, k, rest), k, c);
    }
  }

  /** MiMC is a bijection of the field under every key, with Unpermute as its inverse on both sides. */
  lemma PermuteIsPermutation(x: Fr, k: Fr, constants: seq<Fr>)
    requires IsPrime(R)
    ensures Unpermute(Permute(x, k, constants), k, constants) == x
    ensures Permute(Unpermute(x, k, constants), k, constants) == x
  {
    SubAdd(Rounds(x, k, constants), k);
    UnroundsUndo(x, k, constants);
    UnroundsUndo(Sub(x, k), k, constants);
    SubAdd(x, k);
  }

  /** The second input is the key: taking the feed-forward away and undoing the permutation gives the first. */
  lemma HashUndone(l: Fr, r: Fr, constants: seq<Fr>)
    requires IsPrime(R)
    ensures Unpermute(Sub(Sub(Hash2(l, r, constants), r), l), r, constants) == l
  {
    var y := Permute(l, r, constants);
    SubAdd(Add(y, l), r);
    SubAdd(y, l);
    PermuteIsPermutation(l, r, constants);
  }

  // ---------- round constants ----------

  const SEED: bv128 := 0xDEAD_BEEF_CAFE_BABE_0123_4567_89AB_CDEF

  function FromState(s: bv128): Fr {
    s as int
  }

  function Constants(seed: bv128, n: nat): (cs: seq<Fr>)
    ensures |cs| == n
  {
    seq(n, i requires 0 <= i < n => FromState(StateAfter(seed, i + 1)))
  }

  const ROUND_CONSTANTS: seq<Fr> := Constants(SEED, ROUNDS)

  method RoundConstants() returns (cs: seq<Fr>)
    ensures cs == ROUND_CONSTANTS
  {
    cs := [];
    var state := SEED;
    for i := 0 to ROUNDS
      invariant state == StateAfter(SEED, i)
      invariant |cs| == i && forall j :: 0 <= j < i ==> cs[j] == FromState(StateAfter(SEED, j + 1))
    {
      state := Left13(state);
      state := Right7(state);
      state := Left17(state);
      cs := cs + [FromState(state)];
    }
  }

  /** The word that a constant was made from. */
  function ToState(c: Fr): bv128
    requires c < 0x1_0000_0000_0000_0000_0000_0000_0000_0000
  {
    c as bv128
  }

  lemma ConstantIsWord(s: bv128)
    ensures FromState(s) < 0x1_0000_0000_0000_0000_0000_0000_0000_0000
    ensures ToState(FromState(s)) == s
  {
  }

  /**
   The first constant is one step of the generator after the seed, and each following one is one
   step after the one before.
   */
  lemma ConstantsFollow(seed: bv128, n: nat)
    ensures var cs := Constants(seed, n);
      && (forall i :: 0 <= i < n ==> cs[i] < 0x1_0000_0000_0000_0000_0000_0000_0000_0000)
      && (n > 0 ==> PreviousState(ToState(cs[0])) == seed)
      && forall i :: 0 < i < n ==> ToState(cs[i]) == NextState(ToState(cs[i - 1]))
  {
    hide NextState, PreviousState, FromState, ToState;
    var cs := Constants(seed, n);
    forall i | 0 <= i < n
      ensures cs[i] < 0x1_0000_0000_0000_0000_0000_0000_0000_0000 && ToState(cs[i]) == StateAfter(seed, i + 1)
    {
      ConstantIsWord(StateAfter(seed, i + 1));
    }
    if n > 0 {
      NextStateIsPermutation(StateAfter(seed, 0));
    }
    assert forall i :: 0 < i < n ==> StateAfter(seed, i + 1) == NextState(StateAfter(seed, i));
  }

  /** The deployed constants: 91 of them, from the fixed seed. */
  lemma DeployedConstants()
    ensures |ROUND_CONSTANTS| == 91
    ensures ROUND_CONSTANTS[0] < 0x1_0000_0000_0000_0000_0000_0000_0000_0000
    ensures PreviousState(ToState(ROUND_CONSTANTS[0])) == 0xDEAD_BEEF_CAFE_BABE_0123_4567_89AB_CDEF
  {
    hide NextState, PreviousState, FromState, ToState, StateAfter;
    ConstantsFollow(SEED, ROUNDS);
  }

  lemma FromStateIsInjective(s: bv128, t: bv128)
    ensures FromState(s) == FromState(t) ==> s == t
  {
    assert (s as int) as bv128 == s && (t as int) as bv128 == t;
  }

  /**
   From a nonzero seed no round constant is zero, and two of them can only coincide if the
   generator has meanwhile come back to its seed.
   */
  lemma {:induction false} ConstantsRepeatOnlyWithSeed(seed: bv128, n: nat, i: nat, j: nat)
    requires seed != 0 && i <= j < n
    ensures Constants(seed, n)[i] != 0
    ensures Constants(seed, n)[i] == Constants(seed, n)[j] <==> StateAfter(seed, j - i) == seed
  {
    StateNeverZero(seed, i + 1);
    FromStateIsInjective(StateAfter(seed, i + 1), 0);
    FromStateIsInjective(StateAfter(seed, i + 1), StateAfter(seed, j + 1));
    RewindStates(seed, i + 1, j + 1);
  }
}
