/**
 Rank-1 constraint systems and the gadget primitives of the constraint builder:
 allocation of inputs, witnesses and booleans, products, selection and equality.
 */
module R1cs {
  import opened NumberTheory
  import opened Field
  import opened Wrappers

  datatype Variable = One | Input(i: nat) | Witness(j: nat)

  datatype Term = Term(coeff: Fr, v: Variable)

  /** A linear combination of variables; the field variables of the gadgets are such combinations. */
  type LC = seq<Term>

  /** a * b = c. */
  datatype Constraint = Constraint(a: LC, b: LC, c: LC)

  datatype Assignment = Assignment(inputs: seq<Fr>, wires: seq<Fr>)

  // ---------- meaning ----------

  function Value(v: Variable, z: Assignment): Fr {
    match v
    case One => 1
    case Input(i) => if i < |z.inputs| then z.inputs[i] else 0
    case Witness(j) => if j < |z.wires| then z.wires[j] else 0
  }

  function Eval(lc: LC, z: Assignment): Fr {
    if lc == [] then 0 else Add(Mul(lc[0].coeff, Value(lc[0].v, z)), Eval(lc[1..], z))
  }

  predicate Holds(c: Constraint, z: Assignment) {
    Mul(Eval(c.a, z), Eval(c.b, z)) == Eval(c.c, z)
  }

  predicate Satisfied(cs: seq<Constraint>, z: Assignment) {
    forall i :: 0 <= i < |cs| ==> Holds(cs[i], z)
  }

  // ---------- linear combinations ----------

  function Constant(c: Fr): LC { [Term(c, One)] }

  function Var(v: Variable): LC { [Term(1, v)] }

  function Plus(a: LC, b: LC): LC { a + b }

  function Negate(a: LC): LC {
    seq(|a|, i requires 0 <= i < |a| => Term(Sub(0, a[i].coeff), a[i].v))
  }

  function Minus(a: LC, b: LC): LC { a + Negate(b) }

  lemma EvalSingle(c: Fr, v: Variable, z: Assignment)
    ensures Eval(Var(v), z) == Value(v, z)
    ensures Eval(Constant(c), z) == c
  {
    MulOne(Value(v, z));
    MulOne(c);
    EvalOneTerm(1, v, z);
    EvalOneTerm(c, One, z);
  }

  lemma EvalOneTerm(c: Fr, v: Variable, z: Assignment)
    ensures Eval([Term(c, v)], z) == Mul(c, Value(v, z))
  {
    AddZero(Mul(c, Value(v, z)));
    assert [Term(c, v)][1..] == [];
  }

  lemma {:induction false} EvalPlus(a: LC, b: LC, z: Assignment)
    ensures Eval(Plus(a, b), z) == Add(Eval(a, z), Eval(b, z))
  {
    if a == [] {
      assert a + b == b;
    } else {
      assert (a + b)[1..] == a[1..] + b;
      EvalPlus(a[1..], b, z);
      AddAssoc(Mul(a[0].coeff, Value(a[0].v, z)), Eval(a[1..], z), Eval(b, z));
    }
  }

  lemma {:induction false} EvalNegate(a: LC, z: Assignment)
    ensures Eval(Negate(a), z) == Sub(0, Eval(a, z))
  {
    if a != [] {
      assert Negate(a)[1..] == Negate(a[1..]);
      EvalNegate(a[1..], z);
      NegatedTerm(a[0].coeff, Value(a[0].v, z), Eval(a[1..], z));
    }
  }

  lemma NegatedTerm(c: Fr, v: Fr, rest: Fr)
    ensures Add(Mul(Sub(0, c), v), Sub(0, rest)) == Sub(0, Add(Mul(c, v), rest))
  {
    calc {
      Mul(Sub(0, c), v);
      { MulComm(Sub(0, c), v); MulSub(v, 0, c); }
      Sub(Mul(v, 0), Mul(v, c));
      { MulOne(v); MulComm(v, c); }
      Sub(0, Mul(c, v));
    }
    NegatedSum(Mul(c, v), rest);
  }

  lemma EvalMinus(a: LC, b: LC, z: Assignment)
    ensures Eval(Minus(a, b), z) == Sub(Eval(a, z), Eval(b, z))
  {
    EvalPlus(a, Negate(b), z);
    EvalNegate(b, z);
    AddNegated(Eval(a, z), Eval(b, z));
  }

  lemma SatisfiedConcat(a: seq<Constraint>, b: seq<Constraint>, z: Assignment)
    ensures Satisfied(a + b, z) <==> Satisfied(a, z) && Satisfied(b, z)
  {
    if Satisfied(a + b, z) {
      assert forall i :: 0 <= i < |a| ==> a[i] == (a + b)[i];
      assert forall i :: 0 <= i < |b| ==> b[i] == (a + b)[|a| + i];
    }
  }

  /** A combination only reads the variables it mentions. */
  predicate Mentions(lc: LC, numInputs: nat, numWitness: nat) {
    forall i :: 0 <= i < |lc| ==> InRange(lc[i].v, numInputs, numWitness)
  }

  predicate InRange(v: Variable, numInputs: nat, numWitness: nat) {
    match v
    case One => true
    case Input(i) => i < numInputs
    case Witness(j) => j < numWitness
  }

  lemma {:induction false} EvalExtends(lc: LC, z: Assignment, z': Assignment)
    requires Mentions(lc, |z.inputs|, |z.wires|)
    requires z.inputs <= z'.inputs && z.wires <= z'.wires
    ensures Eval(lc, z) == Eval(lc, z')
  {
    if lc != [] {
      assert InRange(lc[0].v, |z.inputs|, |z.wires|);
      assert forall i :: 0 <= i < |lc[1..]| ==> lc[1..][i] == lc[i + 1];
      EvalExtends(lc[1..], z, z');
    }
  }

  // ---------- what each primitive enforces ----------

  function ProductConstraint(a: LC, b: LC, out: Variable): Constraint {
    Constraint(a, b, Var(out))
  }

  /** (1 - x) * x = 0. */
  function BooleanConstraint(x: Variable): Constraint {
    Constraint(Minus(Var(One), Var(x)), Var(x), [])
  }

  /** bit * (whenTrue - whenFalse) = out - whenFalse. */
  function SelectConstraint(bit: LC, whenTrue: LC, whenFalse: LC, out: Variable): Constraint {
    Constraint(bit, Minus(whenTrue, whenFalse), Minus(Var(out), whenFalse))
  }

  /** (a - b) * 1 = 0. */
  function EqualConstraint(a: LC, b: LC): Constraint {
    Constraint(Minus(a, b), Var(One), [])
  }

  lemma ProductMeaning(a: LC, b: LC, out: Variable, z: Assignment)
    ensures Holds(ProductConstraint(a, b, out), z) <==> Value(out, z) == Mul(Eval(a, z), Eval(b, z))
  {
    EvalSingle(1, out, z);
  }

  lemma BooleanMeaning(x: Variable, z: Assignment)
    requires IsPrime(R)
    ensures Holds(BooleanConstraint(x), z) <==> Value(x, z) == 0 || Value(x, z) == 1
  {
    var v := Value(x, z);
    EvalSingle(1, x, z);
    EvalSingle(1, One, z);
    EvalMinus(Var(One), Var(x), z);
    MulOne(v);
    MulOne(Sub(1, v));
    SubZero(1, v);
    if Mul(Sub(1, v), v) == 0 {
      NoZeroDivisors(Sub(1, v), v);
    }
  }

  lemma SelectMeaning(bit: LC, t: LC, f: LC, out: Variable, z: Assignment)
    requires Eval(bit, z) == 0 || Eval(bit, z) == 1
    ensures Holds(SelectConstraint(bit, t, f, out), z)
       <==> Value(out, z) == if Eval(bit, z) == 1 then Eval(t, z) else Eval(f, z)
  {
    var tv, fv, ov := Eval(t, z), Eval(f, z), Value(out, z);
    EvalMinus(t, f, z);
    EvalSingle(1, out, z);
    EvalMinus(Var(out), f, z);
    MulOne(Sub(tv, fv));
    SubAdd(tv, fv);
    SubAdd(ov, fv);
    SubZero(ov, fv);
  }

  lemma EqualMeaning(a: LC, b: LC, z: Assignment)
    ensures Holds(EqualConstraint(a, b), z) <==> Eval(a, z) == Eval(b, z)
  {
    EvalMinus(a, b, z);
    EvalSingle(1, One, z);
    MulOne(Sub(Eval(a, z), Eval(b, z)));
    SubZero(Eval(a, z), Eval(b, z));
  }

  // ---------- the builder ----------

  /** Why synthesis stops: a value is missing, or an indexed vector is too short (a panic in the original). */
  datatype Failure = AssignmentMissing | IndexOutOfBounds

  /**
   In setup mode variables are only counted and the value closures are never run;
   in proving mode every allocation also records its value.
   */
  class ConstraintSystem {
    const proving: bool
    var numInputs: nat
    var numWitness: nat
    var constraints: seq<Constraint>
    var inputs: seq<Fr>
    var wires: seq<Fr>

    constructor (proving: bool)
      ensures this.proving == proving && Valid()
      ensures numInputs == numWitness == 0 && constraints == []
      ensures inputs == wires == []
    {
      this.proving := proving;
      numInputs, numWitness := 0, 0;
      constraints, inputs, wires := [], [], [];
    }

    ghost predicate Valid()
      reads this
    {
      && |inputs| == (if proving then numInputs else 0)
      && |wires| == (if proving then numWitness else 0)
    }

    function Assigned(): Assignment
      reads this
    {
      Assignment(inputs, wires)
    }

    method NewInput(value: Result<Fr, Failure>) returns (r: Result<LC, Failure>)
      requires Valid()
      modifies `numInputs, `inputs
      ensures Valid()
      ensures r.Failure? <==> proving && value.Failure?
      ensures r.Failure? ==> r.error == value.error && numInputs == old(numInputs) && inputs == old(inputs)
      ensures r.Success? ==>
        && r.value == Var(Input(old(numInputs))) && numInputs == old(numInputs) + 1
        && inputs == old(inputs) + if proving then [value.value] else []
    {
      if proving {
        var v :- value;
        inputs := inputs + [v];
      }
      r := Success(Var(Input(numInputs)));
      numInputs := numInputs + 1;
    }

    method NewWitness(value: Result<Fr, Failure>) returns (r: Result<LC, Failure>)
      requires Valid()
      modifies `numWitness, `wires
      ensures Valid()
      ensures r.Failure? <==> proving && value.Failure?
      ensures r.Failure? ==> r.error == value.error && numWitness == old(numWitness) && wires == old(wires)
      ensures r.Success? ==>
        && r.value == Var(Witness(old(numWitness))) && numWitness == old(numWitness) + 1
        && wires == old(wires) + if proving then [value.value] else []
    {
      if proving {
        var v :- value;
        wires := wires + [v];
      }
      r := Success(Var(Witness(numWitness)));
      numWitness := numWitness + 1;
    }

    method NewBoolean(value: Result<bool, Failure>) returns (r: Result<LC, Failure>)
      requires Valid()
      modifies `numWitness, `wires, `constraints
      ensures Valid()
      ensures r.Failure? <==> proving && value.Failure?
      ensures r.Failure? ==> r.error == value.error && numWitness == old(numWitness)
                             && wires == old(wires) && constraints == old(constraints)
      ensures r.Success? ==>
        && r.value == Var(Witness(old(numWitness))) && numWitness == old(numWitness) + 1
        && constraints == old(constraints) + [BooleanConstraint(Witness(old(numWitness)))]
        && wires == old(wires) + if proving then [FromBool(value.value)] else []
    {
      var bit :- NewWitness(MapBool(value));
      constraints := constraints + [BooleanConstraint(Witness(numWitness - 1))];
      r := Success(bit);
    }

    method Product(a: LC, b: LC) returns (r: LC)
      requires Valid()
      modifies `numWitness, `wires, `constraints
      ensures Valid()
      ensures r == Var(Witness(old(numWitness))) && numWitness == old(numWitness) + 1
      ensures constraints == old(constraints) + [ProductConstraint(a, b, Witness(old(numWitness)))]
      ensures wires == old(wires)
                         + if proving then [Mul(Eval(a, old(Assigned())), Eval(b, old(Assigned())))] else []
    {
      constraints := constraints + [ProductConstraint(a, b, Witness(numWitness))];
      r := Var(Witness(numWitness));
      if proving {
        wires := wires + [Mul(Eval(a, Assigned()), Eval(b, Assigned()))];
      }
      numWitness := numWitness + 1;
    }

    method Select(bit: LC, whenTrue: LC, whenFalse: LC) returns (r: LC)
      requires Valid()
      modifies `numWitness, `wires, `constraints
      ensures Valid()
      ensures r == Var(Witness(old(numWitness))) && numWitness == old(numWitness) + 1
      ensures constraints
           == old(constraints) + [SelectConstraint(bit, whenTrue, whenFalse, Witness(old(numWitness)))]
      ensures wires == old(wires) + if proving then [Chosen(bit, whenTrue, whenFalse, old(Assigned()))] else []
    {
      constraints := constraints + [SelectConstraint(bit, whenTrue, whenFalse, Witness(numWitness))];
      r := Var(Witness(numWitness));
      if proving {
        wires := wires + [Chosen(bit, whenTrue, whenFalse, Assigned())];
      }
      numWitness := numWitness + 1;
    }

    method EnforceEqual(a: LC, b: LC)
      requires Valid()
      modifies `constraints
      ensures Valid()
      ensures constraints == old(constraints) + [EqualConstraint(a, b)]
    {
      constraints := constraints + [EqualConstraint(a, b)];
    }
  }

  function FromBool(b: bool): Fr { if b then 1 else 0 }

  function MapBool(value: Result<bool, Failure>): Result<Fr, Failure> {
    match value
    case Success(b) => Success(FromBool(b))
    case Failure(e) => Failure(e)
  }

  function Chosen(bit: LC, whenTrue: LC, whenFalse: LC, z: Assignment): Fr {
    if Eval(bit, z) == 1 then Eval(whenTrue, z) else Eval(whenFalse, z)
  }
}
