/**
 The membership circuit. `...Emit` functions say which constraints and variables a piece of
 the circuit produces, `...Wires` functions say which values an honest prover assigns to
 those variables, and the `...Meaning` lemmas connect the two in both directions.
 */
module Circuit {
  import opened NumberTheory
  import opened Field
  import opened Wrappers
  import opened Mimc
  import opened R1cs
  import opened HashTree

  const DEPTH: nat := 4

  /** An emitted piece: its result, the next free witness variable, its constraints. */
  datatype Piece = Piece(out: LC, next: nat, constraints: seq<Constraint>)

  function Slice(z: Assignment, from: nat, to: nat): seq<Fr>
    requires from <= to <= |z.wires|
  {
    z.wires[from..to]
  }

  // ---------- the hash gadget ----------

  function RoundInput(x: LC, k: LC, c: Fr): LC {
    Plus(Plus(x, k), Constant(c))
  }

  /** t2 = t * t, t4 = t2 * t2, x' = t4 * t. */
  function RoundConstraints(x: LC, k: LC, c: Fr, n: nat): (cs: seq<Constraint>)
    ensures |cs| == 3
  {
    var t := RoundInput(x, k, c);
    [ProductConstraint(t, t, Witness(n)),
     ProductConstraint(Var(Witness(n)), Var(Witness(n)), Witness(n + 1)),
     ProductConstraint(Var(Witness(n + 1)), t, Witness(n + 2))]
  }

  function RoundsEmit(x: LC, k: LC, constants: seq<Fr>, n: nat): (p: Piece)
    ensures p.next == n + 3 * |constants| && |p.constraints| == 3 * |constants|
    decreases |constants|
  {
    if constants == [] then Piece(x, n, [])
    else
      var rest := RoundsEmit(Var(Witness(n + 2)), k, constants[1..], n + 3);
      Piece(rest.out, rest.next, RoundConstraints(x, k, constants[0], n) + rest.constraints)
  }

  function HashEmit(l: LC, r: LC, constants: seq<Fr>, n: nat): (p: Piece)
    ensures p.next == n + 3 * |constants| && |p.constraints| == 3 * |constants|
  {
    var rounds := RoundsEmit(l, r, constants, n);
    rounds.(out := Plus(Plus(Plus(rounds.out, r), l), r))
  }

  function SingleRoundWires(t: Fr): (w: seq<Fr>)
    ensures |w| == 3 && w[2] == Quintic(t)
  {
    var t2 := Mul(t, t);
    var t4 := Mul(t2, t2);
    [t2, t4, Mul(t4, t)]
  }

  function RoundWires(x: Fr, k: Fr, constants: seq<Fr>): (w: seq<Fr>)
    ensures |w| == 3 * |constants|
    decreases |constants|
  {
    if constants == [] then []
    else
      var t := Add(Add(x, k), constants[0]);
      SingleRoundWires(t) + RoundWires(Quintic(t), k, constants[1..])
  }

  lemma EvalRoundInput(x: LC, k: LC, c: Fr, z: Assignment)
    ensures Eval(RoundInput(x, k, c), z) == Add(Add(Eval(x, z), Eval(k, z)), c)
  {
    EvalPlus(x, k, z);
    EvalPlus(Plus(x, k), Constant(c), z);
    EvalSingle(c, One, z);
  }

  lemma EvalWire(j: nat, z: Assignment)
    requires j < |z.wires|
    ensures Eval(Var(Witness(j)), z) == z.wires[j]
  {
    EvalSingle(0, Witness(j), z);
  }

  lemma ProductOfWires(a: LC, b: LC, j: nat, z: Assignment)
    requires j < |z.wires|
    ensures Holds(ProductConstraint(a, b, Witness(j)), z) <==> z.wires[j] == Mul(Eval(a, z), Eval(b, z))
  {
    ProductMeaning(a, b, Witness(j), z);
  }

  lemma SatisfiedThree(cs: seq<Constraint>, z: Assignment)
    requires |cs| == 3
    ensures Satisfied(cs, z) <==> Holds(cs[0], z) && Holds(cs[1], z) && Holds(cs[2], z)
  {
  }

  /** The three products of a round hold exactly when its wires are t^2, t^4 and t^5. */
  lemma RoundMeaning(x: LC, k: LC, c: Fr, n: nat, z: Assignment)
    requires n + 3 <= |z.wires|
    ensures Satisfied(RoundConstraints(x, k, c, n), z)
       <==> Slice(z, n, n + 3) == SingleRoundWires(Add(Add(Eval(x, z), Eval(k, z)), c))
  {
    hide Holds, Eval, Mul, Add, Satisfied, RoundInput;
    var t := RoundInput(x, k, c);
    EvalRoundInput(x, k, c, z);
    EvalWire(n, z);
    EvalWire(n + 1, z);
    ProductOfWires(t, t, n, z);
    ProductOfWires(Var(Witness(n)), Var(Witness(n)), n + 1, z);
    ProductOfWires(Var(Witness(n + 1)), t, n + 2, z);
    SatisfiedThree(RoundConstraints(x, k, c, n), z);
    assert Slice(z, n, n + 3) == [z.wires[n], z.wires[n + 1], z.wires[n + 2]];
  }

  lemma SliceSplit(z: Assignment, a: nat, b: nat, c: nat, left: seq<Fr>, right: seq<Fr>)
    requires a <= b <= c <= |z.wires| && |left| == b - a && |right| == c - b
    ensures Slice(z, a, c) == left + right <==> Slice(z, a, b) == left && Slice(z, b, c) == right
  {
    assert Slice(z, a, c) == Slice(z, a, b) + Slice(z, b, c);
    assert Slice(z, a, c)[..b - a] == Slice(z, a, b) && Slice(z, a, c)[b - a..] == Slice(z, b, c);
    assert (left + right)[..b - a] == left && (left + right)[b - a..] == right;
  }

  lemma {:induction false} RoundsMeaning(x: LC, k: LC, constants: seq<Fr>, n: nat, z: Assignment)
    requires n + 3 * |constants| <= |z.wires|
    ensures var p := RoundsEmit(x, k, constants, n);
      && (Satisfied(p.constraints, z)
          <==> Slice(z, n, p.next) == RoundWires(Eval(x, z), Eval(k, z), constants))
      && (Satisfied(p.constraints, z) ==> Eval(p.out, z) == Rounds(Eval(x, z), Eval(k, z), constants))
    decreases |constants|
  {
    hide Holds, Eval, Mul, Add, Satisfied, Quintic, SingleRoundWires;
    if constants == [] {
      SatisfiedNone(z);
    } else {
      var c, x' := constants[0], Var(Witness(n + 2));
      var rest := RoundsEmit(x', k, constants[1..], n + 3);
      var t := Add(Add(Eval(x, z), Eval(k, z)), c);
      RoundMeaning(x, k, c, n, z);
      SatisfiedConcat(RoundConstraints(x, k, c, n), rest.constraints, z);
      EvalWire(n + 2, z);
      if Slice(z, n, n + 3) == SingleRoundWires(t) {
        assert z.wires[n + 2] == Slice(z, n, n + 3)[2];
      }
      RoundsMeaning(x', k, constants[1..], n + 3, z);
      SliceSplit(z, n, n + 3, rest.next, SingleRoundWires(t), RoundWires(Quintic(t), Eval(k, z), constants[1..]));
    }
  }

  lemma SatisfiedNone(z: Assignment)
    ensures Satisfied([], z)
  {
  }

  lemma HashMeaning(l: LC, r: LC, constants: seq<Fr>, n: nat, z: Assignment)
    requires n + 3 * |constants| <= |z.wires|
    ensures var p := HashEmit(l, r, constants, n);
      && (Satisfied(p.constraints, z)
          <==> Slice(z, n, p.next) == RoundWires(Eval(l, z), Eval(r, z), constants))
      && (Satisfied(p.constraints, z) ==> Eval(p.out, z) == Hash2(Eval(l, z), Eval(r, z), constants))
  {
    hide Holds, Eval, Mul, Add, RoundsEmit, RoundWires;
    var out := RoundsEmit(l, r, constants, n).out;
    RoundsMeaning(l, r, constants, n, z);
    EvalPlus(out, r, z);
    EvalPlus(Plus(out, r), l, z);
    EvalPlus(Plus(Plus(out, r), l), r, z);
  }

  // ---------- the authentication path ----------

  /** Sibling, position bit, left child and right child are the wires n, n+1, n+2, n+3. */
  function LevelConstraints(cur: LC, n: nat): (cs: seq<Constraint>)
    ensures |cs| == 3
  {
    var sibling, bit := Var(Witness(n)), Var(Witness(n + 1));
    [BooleanConstraint(Witness(n + 1)),
     SelectConstraint(bit, sibling, cur, Witness(n + 2)),
     SelectConstraint(bit, cur, sibling, Witness(n + 3))]
  }

  function LevelHash(constants: seq<Fr>, n: nat): (p: Piece)
    ensures p.next == n + 4 + 3 * |constants| && |p.constraints| == 3 * |constants|
  {
    HashEmit(Var(Witness(n + 2)), Var(Witness(n + 3)), constants, n + 4)
  }

  function LevelEmit(cur: LC, constants: seq<Fr>, n: nat): (p: Piece)
    ensures p.next == n + 4 + 3 * |constants| && |p.constraints| == 3 + 3 * |constants|
  {
    var hash := LevelHash(constants, n);
    hash.(constraints := LevelConstraints(cur, n) + hash.constraints)
  }

  function PathEmit(cur: LC, constants: seq<Fr>, levels: nat, n: nat): (p: Piece)
    ensures p.next == n + PathWireCount(|constants|, levels)
    ensures |p.constraints| + levels == PathWireCount(|constants|, levels)
    decreases levels
  {
    if levels == 0 then Piece(cur, n, [])
    else
      var level := LevelEmit(cur, constants, n);
      var rest := PathEmit(level.out, constants, levels - 1, level.next);
      Piece(rest.out, rest.next, level.constraints + rest.constraints)
  }

  function PathWireCount(rounds: nat, levels: nat): nat {
    if levels == 0 then 0 else 4 + 3 * rounds + PathWireCount(rounds, levels - 1)
  }

  lemma PathWireCountStep(rounds: nat, levels: nat)
    requires levels > 0
    ensures PathWireCount(rounds, levels) == 4 + 3 * rounds + PathWireCount(rounds, levels - 1)
  {
  }

  function LevelWires(cur: Fr, sibling: Fr, right: bool): (w: seq<Fr>)
    ensures |w| == 4
  {
    [sibling, FromBool(right), if right then sibling else cur, if right then cur else sibling]
  }

  /** All wires of a level: the selection and the rounds of its hash. */
  function LevelBlock(cur: Fr, sibling: Fr, right: bool, constants: seq<Fr>): (w: seq<Fr>)
    ensures |w| == 4 + 3 * |constants|
  {
    var level := LevelWires(cur, sibling, right);
    level + RoundWires(level[2], level[3], constants)
  }

  function PathWires(cur: Fr, siblings: seq<Fr>, rights: seq<bool>, constants: seq<Fr>): (w: seq<Fr>)
    requires |siblings| == |rights|
    ensures |w| == PathWireCount(|constants|, |siblings|)
    decreases |siblings|
  {
    if siblings == [] then []
    else
      LevelBlock(cur, siblings[0], rights[0], constants)
        + PathWires(Step(Hash(constants), cur, siblings[0], rights[0]), siblings[1..], rights[1..], constants)
  }

  /** The siblings and position bits that an assignment to the path wires contains. */
  function PathSiblings(w: seq<Fr>, rounds: nat, levels: nat): (s: seq<Fr>)
    requires |w| >= PathWireCount(rounds, levels)
    ensures |s| == levels
    decreases levels
  {
    if levels == 0 then [] else [w[0]] + PathSiblings(w[4 + 3 * rounds..], rounds, levels - 1)
  }

  function PathRights(w: seq<Fr>, rounds: nat, levels: nat): (s: seq<bool>)
    requires |w| >= PathWireCount(rounds, levels)
    ensures |s| == levels
    decreases levels
  {
    if levels == 0 then [] else [w[1] == 1] + PathRights(w[4 + 3 * rounds..], rounds, levels - 1)
  }

  lemma LevelMeaning(cur: LC, n: nat, z: Assignment)
    requires IsPrime(R)
    requires n + 4 <= |z.wires|
    ensures Satisfied(LevelConstraints(cur, n), z)
       <==> Slice(z, n, n + 4) == LevelWires(Eval(cur, z), z.wires[n], z.wires[n + 1] == 1)
  {
    hide Holds, Eval, Satisfied, SelectConstraint, BooleanConstraint;
    EvalWire(n, z);
    EvalWire(n + 1, z);
    SatisfiedThree(LevelConstraints(cur, n), z);
    BooleanMeaning(Witness(n + 1), z);
    assert Slice(z, n, n + 4) == [z.wires[n], z.wires[n + 1], z.wires[n + 2], z.wires[n + 3]];
    if z.wires[n + 1] == 0 || z.wires[n + 1] == 1 {
      SelectMeaning(Var(Witness(n + 1)), Var(Witness(n)), cur, Witness(n + 2), z);
      SelectMeaning(Var(Witness(n + 1)), cur, Var(Witness(n)), Witness(n + 3), z);
    }
  }

  lemma LevelHashMeaning(constants: seq<Fr>, n: nat, cur: Fr, sibling: Fr, right: bool, z: Assignment)
    requires n + 4 + 3 * |constants| <= |z.wires|
    requires Slice(z, n, n + 4) == LevelWires(cur, sibling, right)
    ensures var p, level := LevelHash(constants, n), LevelWires(cur, sibling, right);
      && (Satisfied(p.constraints, z) <==> Slice(z, n + 4, p.next) == RoundWires(level[2], level[3], constants))
      && (Satisfied(p.constraints, z) ==> Eval(p.out, z) == Step(Hash(constants), cur, sibling, right))
  {
    hide Eval, Satisfied, HashEmit, RoundWires, Hash2;
    assert z.wires[n + 2] == Slice(z, n, n + 4)[2] && z.wires[n + 3] == Slice(z, n, n + 4)[3];
    EvalWire(n + 2, z);
    EvalWire(n + 3, z);
    HashMeaning(Var(Witness(n + 2)), Var(Witness(n + 3)), constants, n + 4, z);
  }

  /** A whole level holds exactly when its block is honest, and then passes on the parent. */
  lemma LevelBlockMeaning(cur: LC, constants: seq<Fr>, n: nat, z: Assignment)
    requires IsPrime(R)
    requires n + 4 + 3 * |constants| <= |z.wires|
    ensures var p := LevelEmit(cur, constants, n);
      var cv, s, b := Eval(cur, z), z.wires[n], z.wires[n + 1] == 1;
      && (Satisfied(p.constraints, z) <==> Slice(z, n, p.next) == LevelBlock(cv, s, b, constants))
      && (Satisfied(p.constraints, z) ==> Eval(p.out, z) == Step(Hash(constants), cv, s, b))
  {
    hide Eval, Satisfied, LevelConstraints, LevelHash, LevelWires, RoundWires, Step, Hash, Slice;
    var hash := LevelHash(constants, n);
    var cv, s, b := Eval(cur, z), z.wires[n], z.wires[n + 1] == 1;
    var level := LevelWires(cv, s, b);
    LevelMeaning(cur, n, z);
    if Slice(z, n, n + 4) == level {
      LevelHashMeaning(constants, n, cv, s, b, z);
    }
    SatisfiedConcat(LevelConstraints(cur, n), hash.constraints, z);
    SliceSplit(z, n, n + 4, hash.next, level, RoundWires(level[2], level[3], constants));
  }

  lemma PathEmitStep(cur: LC, constants: seq<Fr>, levels: nat, n: nat)
    requires levels > 0
    ensures var level := LevelEmit(cur, constants, n);
      var rest := PathEmit(level.out, constants, levels - 1, level.next);
      PathEmit(cur, constants, levels, n) == Piece(rest.out, rest.next, level.constraints + rest.constraints)
  {
  }

  lemma PathWiresStep(cur: Fr, s: Fr, siblings: seq<Fr>, b: bool, rights: seq<bool>, constants: seq<Fr>)
    requires |siblings| == |rights|
    ensures PathWires(cur, [s] + siblings, [b] + rights, constants)
         == LevelBlock(cur, s, b, constants)
            + PathWires(Step(Hash(constants), cur, s, b), siblings, rights, constants)
  {
    assert ([s] + siblings)[1..] == siblings && ([b] + rights)[1..] == rights;
  }

  lemma PathOpeningStep(w: seq<Fr>, rounds: nat, levels: nat)
    requires levels > 0 && |w| >= PathWireCount(rounds, levels)
    ensures PathSiblings(w, rounds, levels) == [w[0]] + PathSiblings(w[4 + 3 * rounds..], rounds, levels - 1)
    ensures PathRights(w, rounds, levels) == [w[1] == 1] + PathRights(w[4 + 3 * rounds..], rounds, levels - 1)
  {
  }

  /**
   The path constraints hold exactly when every wire after the freely chosen siblings and
   bits has its honest value; the result is then the fold along that path.
   */
  lemma {:induction false} PathMeaning(cur: LC, constants: seq<Fr>, levels: nat, n: nat, z: Assignment)
    requires IsPrime(R)
    requires n + PathWireCount(|constants|, levels) <= |z.wires|
    ensures var p := PathEmit(cur, constants, levels, n);
      var siblings := PathSiblings(z.wires[n..], |constants|, levels);
      var rights := PathRights(z.wires[n..], |constants|, levels);
      && (Satisfied(p.constraints, z)
          <==> Slice(z, n, p.next) == PathWires(Eval(cur, z), siblings, rights, constants))
      && (Satisfied(p.constraints, z)
          ==> Eval(p.out, z) == Fold(Hash(constants), Eval(cur, z), siblings, rights))
    decreases levels
  {
    hide *;
    var m, cv := |constants|, Eval(cur, z);
    if levels == 0 {
      PathMeaningBase(cur, constants, n, z);
    } else {
      PathWireCountStep(m, levels);
      var level := LevelEmit(cur, constants, n);
      var above := z.wires[level.next..];
      var siblings, rights := PathSiblings(above, m, levels - 1), PathRights(above, m, levels - 1);
      var s, b := z.wires[n], z.wires[n + 1] == 1;
      PathEmitStep(cur, constants, levels, n);
      DropDrop(z.wires, n, 4 + 3 * m);
      PathOpeningStep(z.wires[n..], m, levels);
      PathWiresStep(cv, s, siblings, b, rights, constants);
      FoldCons(Hash(constants), cv, s, siblings, b, rights);
      LevelBlockMeaning(cur, constants, n, z);
      PathMeaning(level.out, constants, levels - 1, level.next, z);
      var rest := PathEmit(level.out, constants, levels - 1, level.next);
      SatisfiedConcat(level.constraints, rest.constraints, z);
      SliceSplit(z, n, level.next, rest.next, LevelBlock(cv, s, b, constants),
                 PathWires(Step(Hash(constants), cv, s, b), siblings, rights, constants));
    }
  }

  lemma PathMeaningBase(cur: LC, constants: seq<Fr>, n: nat, z: Assignment)
    requires n <= |z.wires|
    ensures var p := PathEmit(cur, constants, 0, n);
      && p.out == cur && Satisfied(p.constraints, z)
      && Slice(z, n, p.next) == PathWires(Eval(cur, z), [], [], constants)
      && Eval(p.out, z) == Fold(Hash(constants), Eval(cur, z), [], [])
      && PathSiblings(z.wires[n..], |constants|, 0) == [] && PathRights(z.wires[n..], |constants|, 0) == []
  {
  }

  lemma DropDrop(w: seq<Fr>, a: nat, b: nat)
    requires a + b <= |w|
    ensures w[a..][b..] == w[a + b..]
  {
  }

  // ---------- the whole circuit ----------

  // Inputs are root, nullifier, address, in this order; wire 0 is the bound address, wire 1 the secret.
  const ROOT: LC := Var(Input(0))
  const NULLIFIER: LC := Var(Input(1))
  const ADDRESS: LC := Var(Input(2))
  const SECRET: LC := Var(Witness(1))

  function LeafPiece(constants: seq<Fr>): (p: Piece)
    ensures p.next == 2 + 3 * |constants| && |p.constraints| == 3 * |constants|
  {
    HashEmit(SECRET, Constant(LEAF_DOMAIN), constants, 2)
  }

  function PathPiece(constants: seq<Fr>, depth: nat): (p: Piece)
    ensures p.next == 2 + 3 * |constants| + PathWireCount(|constants|, depth)
    ensures |p.constraints| + depth == PathWireCount(|constants|, depth)
  {
    PathEmit(LeafPiece(constants).out, constants, depth, 2 + 3 * |constants|)
  }

  function NullifierPiece(constants: seq<Fr>, depth: nat): (p: Piece)
    ensures p.next == WireCount(|constants|, depth) && |p.constraints| == 3 * |constants|
  {
    HashEmit(SECRET, Constant(NULLIFIER_DOMAIN), constants, PathPiece(constants, depth).next)
  }

  function WireCount(rounds: nat, depth: nat): nat {
    2 + 3 * rounds + PathWireCount(rounds, depth) + 3 * rounds
  }

  const ADDRESS_BOUND: Constraint := ProductConstraint(ADDRESS, ADDRESS, Witness(0))

  /** Everything the circuit emits. It is a function of the constants and the depth alone. */
  function CircuitConstraints(constants: seq<Fr>, depth: nat): seq<Constraint> {
    var leaf, path, last := LeafPiece(constants), PathPiece(constants, depth), NullifierPiece(constants, depth);
    [ADDRESS_BOUND] + leaf.constraints + path.constraints + [EqualConstraint(path.out, ROOT)]
      + last.constraints + [EqualConstraint(last.out, NULLIFIER)]
  }

  /** The public statement and the private opening. */
  datatype Claim = Claim(root: Fr, nullifier: Fr, addr: Fr)

  datatype Opening = Opening(secret: Fr, siblings: seq<Fr>, rights: seq<bool>)

  /** The relation the circuit is meant to express. */
  predicate Opens(constants: seq<Fr>, depth: nat, c: Claim, o: Opening) {
    && |o.siblings| == |o.rights| == depth
    && Fold(Hash(constants), Hash2(o.secret, LEAF_DOMAIN, constants), o.siblings, o.rights) == c.root
    && Hash2(o.secret, NULLIFIER_DOMAIN, constants) == c.nullifier
  }

  function CircuitWires(constants: seq<Fr>, addr: Fr, o: Opening): (w: seq<Fr>)
    requires |o.siblings| == |o.rights|
    ensures |w| == WireCount(|constants|, |o.siblings|)
  {
    [Mul(addr, addr), o.secret] + RoundWires(o.secret, LEAF_DOMAIN, constants)
      + PathWires(Hash2(o.secret, LEAF_DOMAIN, constants), o.siblings, o.rights, constants)
      + RoundWires(o.secret, NULLIFIER_DOMAIN, constants)
  }

  function ClaimOf(z: Assignment): Claim
    requires |z.inputs| == 3
  {
    Claim(z.inputs[0], z.inputs[1], z.inputs[2])
  }

  /** The secret, siblings and position bits that the wires of an assignment contain. */
  function OpeningOf(w: seq<Fr>, rounds: nat, depth: nat): (o: Opening)
    requires |w| == WireCount(rounds, depth)
    ensures |o.siblings| == |o.rights| == depth
  {
    Opening(w[1], PathSiblings(w[2 + 3 * rounds..], rounds, depth), PathRights(w[2 + 3 * rounds..], rounds, depth))
  }

  predicate WellSized(z: Assignment, rounds: nat, depth: nat) {
    |z.inputs| == 3 && |z.wires| == WireCount(rounds, depth)
  }

  lemma EvalInput(i: nat, z: Assignment)
    requires i < |z.inputs|
    ensures Eval(Var(Input(i)), z) == z.inputs[i]
  {
    EvalSingle(0, Input(i), z);
  }

  lemma SatisfiedOne(c: Constraint, z: Assignment)
    ensures Satisfied([c], z) <==> Holds(c, z)
  {
    assert [c][0] == c;
  }

  lemma SatisfiedParts(constants: seq<Fr>, depth: nat, z: Assignment)
    ensures var leaf, path, last :=
        LeafPiece(constants), PathPiece(constants, depth), NullifierPiece(constants, depth);
      (Satisfied(CircuitConstraints(constants, depth), z))
      <==> && Holds(ADDRESS_BOUND, z)
             && Satisfied(leaf.constraints, z)
             && Satisfied(path.constraints, z)
             && Holds(EqualConstraint(path.out, ROOT), z)
             && Satisfied(last.constraints, z)
             && Holds(EqualConstraint(last.out, NULLIFIER), z)
  {
    hide Satisfied, Holds, LeafPiece, PathPiece, NullifierPiece, EqualConstraint;
    var leaf, path, last := LeafPiece(constants), PathPiece(constants, depth), NullifierPiece(constants, depth);
    var c1 := [ADDRESS_BOUND] + leaf.constraints;
    var c2 := c1 + path.constraints;
    var c3 := c2 + [EqualConstraint(path.out, ROOT)];
    var c4 := c3 + last.constraints;
    SatisfiedConcat([ADDRESS_BOUND], leaf.constraints, z);
    SatisfiedConcat(c1, path.constraints, z);
    SatisfiedConcat(c2, [EqualConstraint(path.out, ROOT)], z);
    SatisfiedConcat(c3, last.constraints, z);
    SatisfiedConcat(c4, [EqualConstraint(last.out, NULLIFIER)], z);
    SatisfiedOne(ADDRESS_BOUND, z);
    SatisfiedOne(EqualConstraint(path.out, ROOT), z);
    SatisfiedOne(EqualConstraint(last.out, NULLIFIER), z);
  }

  /** The wires are the honest ones exactly when each of their four stretches is. */
  lemma WireParts(constants: seq<Fr>, z: Assignment, addr: Fr, o: Opening)
    requires |o.siblings| == |o.rights| && WellSized(z, |constants|, |o.siblings|)
    ensures var a := 2 + 3 * |constants|;
      var b := a + PathWireCount(|constants|, |o.siblings|);
      (z.wires == CircuitWires(constants, addr, o))
      <==> && z.wires[0] == Mul(addr, addr) && z.wires[1] == o.secret
             && Slice(z, 2, a) == RoundWires(o.secret, LEAF_DOMAIN, constants)
             && Slice(z, a, b) == PathWires(Hash2(o.secret, LEAF_DOMAIN, constants), o.siblings, o.rights, constants)
             && Slice(z, b, |z.wires|) == RoundWires(o.secret, NULLIFIER_DOMAIN, constants)
  {
    hide RoundWires, PathWires, PathWireCount, Hash2, Mul, Slice;
    FourSlices(z, [Mul(addr, addr), o.secret], RoundWires(o.secret, LEAF_DOMAIN, constants),
               PathWires(Hash2(o.secret, LEAF_DOMAIN, constants), o.siblings, o.rights, constants),
               RoundWires(o.secret, NULLIFIER_DOMAIN, constants));
    SliceEnds(z, Mul(addr, addr), o.secret);
  }

  lemma FourSlices(z: Assignment, w0: seq<Fr>, w1: seq<Fr>, w2: seq<Fr>, w3: seq<Fr>)
    requires |z.wires| == |w0| + |w1| + |w2| + |w3|
    ensures var a, b, c := |w0|, |w0| + |w1|, |w0| + |w1| + |w2|;
      (z.wires == w0 + w1 + w2 + w3)
      <==> Slice(z, 0, a) == w0 && Slice(z, a, b) == w1 && Slice(z, b, c) == w2 && Slice(z, c, |z.wires|) == w3
  {
    hide *;
    var a, b, c := |w0|, |w0| + |w1|, |w0| + |w1| + |w2|;
    SliceSplit(z, 0, c, |z.wires|, w0 + w1 + w2, w3);
    SliceSplit(z, 0, b, c, w0 + w1, w2);
    SliceSplit(z, 0, a, b, w0, w1);
    WholeSlice(z);
  }

  lemma WholeSlice(z: Assignment)
    ensures Slice(z, 0, |z.wires|) == z.wires
  {
  }

  lemma SliceEnds(z: Assignment, x: Fr, y: Fr)
    requires |z.wires| >= 2
    ensures Slice(z, 0, 2) == [x, y] <==> z.wires[0] == x && z.wires[1] == y
  {
    assert Slice(z, 0, 2) == [z.wires[0], z.wires[1]];
  }

  /**
   The exact meaning of the circuit: an assignment satisfies the constraints if and only if
   the opening it contains opens its claim and every other wire has its honest value.
   */
  lemma CircuitMeaning(constants: seq<Fr>, depth: nat, z: Assignment)
    requires IsPrime(R)
    requires WellSized(z, |constants|, depth)
    ensures var o := OpeningOf(z.wires, |constants|, depth);
      Satisfied(CircuitConstraints(constants, depth), z)
      <==> Opens(constants, depth, ClaimOf(z), o) && z.wires == CircuitWires(constants, z.inputs[2], o)
  {
    hide Satisfied, Holds, Eval, Mul, CircuitConstraints, CircuitWires, HashEmit, PathEmit, RoundWires, PathWires,
      PathSiblings, PathRights, PathWireCount, Hash2, Fold, EqualConstraint, ProductConstraint, Slice, Hash;
    var m, o := |constants|, OpeningOf(z.wires, |constants|, depth);
    var leaf, path, last := LeafPiece(constants), PathPiece(constants, depth), NullifierPiece(constants, depth);
    SatisfiedParts(constants, depth, z);
    WireParts(constants, z, z.inputs[2], o);
    EvalInput(0, z);
    EvalInput(1, z);
    EvalInput(2, z);
    EvalWire(1, z);
    EvalSingle(LEAF_DOMAIN, One, z);
    EvalSingle(NULLIFIER_DOMAIN, One, z);
    ProductOfWires(ADDRESS, ADDRESS, 0, z);
    HashMeaning(SECRET, Constant(LEAF_DOMAIN), constants, 2, z);
    PathMeaning(leaf.out, constants, depth, leaf.next, z);
    HashMeaning(SECRET, Constant(NULLIFIER_DOMAIN), constants, path.next, z);
    EqualMeaning(path.out, ROOT, z);
    EqualMeaning(last.out, NULLIFIER, z);
  }

  // ---------- soundness and completeness ----------

  function PathBits(w: seq<Fr>, rounds: nat, levels: nat): (s: seq<Fr>)
    requires |w| >= PathWireCount(rounds, levels)
    ensures |s| == levels
    decreases levels
  {
    if levels == 0 then [] else [w[1]] + PathBits(w[4 + 3 * rounds..], rounds, levels - 1)
  }

  lemma HonestBitsBase(w: seq<Fr>, rounds: nat)
    ensures PathWireCount(rounds, 0) == 0
    ensures PathBits(w, rounds, 0) == [] && PathRights(w, rounds, 0) == []
  {
  }

  lemma PathBitsStep(w: seq<Fr>, rounds: nat, levels: nat)
    requires levels > 0 && |w| >= PathWireCount(rounds, levels)
    ensures PathBits(w, rounds, levels) == [w[1]] + PathBits(w[4 + 3 * rounds..], rounds, levels - 1)
  {
  }

  lemma LevelBlockBit(cur: Fr, s: Fr, b: bool, constants: seq<Fr>)
    ensures LevelBlock(cur, s, b, constants)[1] == FromBool(b)
  {
  }

  lemma PrefixSplit(w: seq<Fr>, left: seq<Fr>, right: seq<Fr>)
    requires |w| >= |left| + |right|
    requires w[..|left| + |right|] == left + right
    ensures forall i :: 0 <= i < |left| ==> w[i] == left[i]
    ensures w[|left|..][..|right|] == right
  {
    assert forall i :: 0 <= i < |left| ==> w[i] == w[..|left| + |right|][i];
    assert w[|left|..][..|right|] == w[..|left| + |right|][|left|..];
  }

  /** On honest path wires the bits are the booleans that the opening reads off them. */
  lemma {:induction false} HonestBits(cur: Fr, w: seq<Fr>, constants: seq<Fr>, levels: nat)
    requires |w| >= PathWireCount(|constants|, levels)
    requires var m := |constants|;
      w[..PathWireCount(m, levels)] == PathWires(cur, PathSiblings(w, m, levels), PathRights(w, m, levels), constants)
    ensures forall i :: 0 <= i < levels ==>
      PathBits(w, |constants|, levels)[i] == FromBool(PathRights(w, |constants|, levels)[i])
    decreases levels
  {
    hide *;
    var m := |constants|;
    if levels == 0 {
      HonestBitsBase(w, m);
    } else {
      PathWireCountStep(m, levels);
      var s, b, rest := w[0], w[1] == 1, w[4 + 3 * m..];
      var siblings, rights := PathSiblings(rest, m, levels - 1), PathRights(rest, m, levels - 1);
      PathOpeningStep(w, m, levels);
      PathBitsStep(w, m, levels);
      PathWiresStep(cur, s, siblings, b, rights, constants);
      PrefixSplit(w, LevelBlock(cur, s, b, constants),
                  PathWires(Step(Hash(constants), cur, s, b), siblings, rights, constants));
      LevelBlockBit(cur, s, b, constants);
      HonestBits(Step(Hash(constants), cur, s, b), rest, constants, levels - 1);
    }
  }

  /** Reading the opening off honest wires gives back what was put in. */
  lemma {:induction false} PathOpeningRoundTrip(
      cur: Fr, siblings: seq<Fr>, rights: seq<bool>, constants: seq<Fr>, tail: seq<Fr>)
    requires |siblings| == |rights|
    ensures var w := PathWires(cur, siblings, rights, constants) + tail;
      && PathSiblings(w, |constants|, |siblings|) == siblings
      && PathRights(w, |constants|, |siblings|) == rights
    decreases |siblings|
  {
    hide *;
    if siblings == [] {
      NoPathOpening(cur, rights, constants, tail);
    } else {
      var s, b := siblings[0], rights[0];
      var parent := Step(Hash(constants), cur, s, b);
      var rest := PathWires(parent, siblings[1..], rights[1..], constants);
      var block := LevelBlock(cur, s, b, constants);
      assert siblings == [s] + siblings[1..] && rights == [b] + rights[1..];
      PathOpeningRoundTrip(parent, siblings[1..], rights[1..], constants, tail);
      PathWiresStep(cur, s, siblings[1..], b, rights[1..], constants);
      LevelBlockStart(cur, s, b, constants);
      var w := block + rest + tail;
      assert w == block + (rest + tail);
      assert w[4 + 3 * |constants|..] == rest + tail;
      PathWireCountStep(|constants|, |siblings|);
      PathOpeningStep(w, |constants|, |siblings|);
    }
  }

  lemma NoPathOpening(cur: Fr, rights: seq<bool>, constants: seq<Fr>, tail: seq<Fr>)
    requires rights == []
    ensures var w := PathWires(cur, [], rights, constants) + tail;
      PathSiblings(w, |constants|, 0) == [] && PathRights(w, |constants|, 0) == []
  {
  }

  lemma LevelBlockStart(cur: Fr, s: Fr, b: bool, constants: seq<Fr>)
    ensures LevelBlock(cur, s, b, constants)[0] == s
    ensures LevelBlock(cur, s, b, constants)[1] == 1 <==> b
  {
  }

  lemma OpeningRoundTrip(constants: seq<Fr>, addr: Fr, o: Opening)
    requires |o.siblings| == |o.rights|
    ensures OpeningOf(CircuitWires(constants, addr, o), |constants|, |o.siblings|) == o
  {
    hide RoundWires, PathWires, PathSiblings, PathRights, PathWireCount, Hash2, Mul;
    var m := |constants|;
    var w := CircuitWires(constants, addr, o);
    var leaf := Hash2(o.secret, LEAF_DOMAIN, constants);
    var path := PathWires(leaf, o.siblings, o.rights, constants);
    var tail := RoundWires(o.secret, NULLIFIER_DOMAIN, constants);
    assert w[2 + 3 * m..] == path + tail;
    PathOpeningRoundTrip(leaf, o.siblings, o.rights, constants, tail);
  }

  /**
   Soundness: whatever values the intermediate wires take, a satisfying assignment has boolean
   position bits and contains an opening of its public root and nullifier.
   */
  lemma CircuitSoundness(constants: seq<Fr>, depth: nat, z: Assignment)
    requires IsPrime(R)
    requires WellSized(z, |constants|, depth)
    requires Satisfied(CircuitConstraints(constants, depth), z)
    ensures Opens(constants, depth, ClaimOf(z), OpeningOf(z.wires, |constants|, depth))
    ensures var bits := PathBits(z.wires[2 + 3 * |constants|..], |constants|, depth);
      forall i :: 0 <= i < depth ==> bits[i] == 0 || bits[i] == 1
  {
    hide Satisfied, CircuitConstraints, RoundWires, PathWires, PathSiblings, PathRights, PathBits, PathWireCount,
      Hash2, Fold, Mul, Hash;
    var m, o := |constants|, OpeningOf(z.wires, |constants|, depth);
    CircuitMeaning(constants, depth, z);
    WireParts(constants, z, z.inputs[2], o);
    var w := z.wires[2 + 3 * m..];
    assert w[..PathWireCount(m, depth)] == Slice(z, 2 + 3 * m, 2 + 3 * m + PathWireCount(m, depth));
    HonestBits(Hash2(o.secret, LEAF_DOMAIN, constants), w, constants, depth);
  }

  /**
   Completeness, and its converse on honest wires: the assignment an honest prover computes
   from an opening satisfies the circuit exactly when the opening opens the claim.
   */
  lemma HonestAssignment(constants: seq<Fr>, depth: nat, c: Claim, o: Opening)
    requires IsPrime(R)
    requires |o.siblings| == |o.rights| == depth
    ensures Satisfied(CircuitConstraints(constants, depth),
                      Assignment([c.root, c.nullifier, c.addr], CircuitWires(constants, c.addr, o)))
       <==> Opens(constants, depth, c, o)
  {
    hide Satisfied, CircuitConstraints, CircuitWires, OpeningOf, Opens;
    var z := Assignment([c.root, c.nullifier, c.addr], CircuitWires(constants, c.addr, o));
    CircuitMeaning(constants, depth, z);
    OpeningRoundTrip(constants, c.addr, o);
  }

  /**
   The address is bound only as a public input: the constraints tie it to nothing, so it can
   be exchanged in any satisfying assignment together with its square.
   */
  lemma AddressIsFree(constants: seq<Fr>, depth: nat, z: Assignment, addr: Fr)
    requires IsPrime(R)
    requires WellSized(z, |constants|, depth)
    requires Satisfied(CircuitConstraints(constants, depth), z)
    ensures Satisfied(CircuitConstraints(constants, depth),
                      Assignment(z.inputs[2 := addr], z.wires[0 := Mul(addr, addr)]))
  {
    hide Satisfied, CircuitConstraints, CircuitWires, OpeningOf;
    var o := OpeningOf(z.wires, |constants|, depth);
    CircuitMeaning(constants, depth, z);
    ExchangeAddress(constants, z.inputs[2], addr, o);
    HonestAssignment(constants, depth, Claim(z.inputs[0], z.inputs[1], addr), o);
    assert z.inputs[2 := addr] == [z.inputs[0], z.inputs[1], addr];
  }

  lemma ExchangeAddress(constants: seq<Fr>, addr: Fr, addr': Fr, o: Opening)
    requires |o.siblings| == |o.rights|
    ensures CircuitWires(constants, addr, o)[0 := Mul(addr', addr')] == CircuitWires(constants, addr', o)
  {
    hide RoundWires, PathWires, Hash2, Mul;
  }

  /** One secret has one nullifier, whatever tree, path and address it is used with. */
  lemma OneNullifierPerSecret(constants: seq<Fr>, depth: nat, z: Assignment, depth': nat, z': Assignment)
    requires IsPrime(R)
    requires WellSized(z, |constants|, depth) && Satisfied(CircuitConstraints(constants, depth), z)
    requires WellSized(z', |constants|, depth') && Satisfied(CircuitConstraints(constants, depth'), z')
    requires z.wires[1] == z'.wires[1]
    ensures z.inputs[1] == z'.inputs[1]
  {
    hide Satisfied, CircuitConstraints, CircuitWires, Hash2, Fold, PathSiblings, PathRights;
    CircuitMeaning(constants, depth, z);
    CircuitMeaning(constants, depth', z');
  }

  // ---------- shape ----------

  lemma {:induction false} PathWireCountClosed(rounds: nat, levels: nat)
    ensures PathWireCount(rounds, levels) == 4 * levels + 3 * (rounds * levels)
  {
    if levels > 0 {
      PathWireCountClosed(rounds, levels - 1);
      assert rounds * levels == rounds * (levels - 1) + rounds;
    }
  }

  /** The size of the circuit for every depth and constants list. */
  lemma CircuitSize(constants: seq<Fr>, depth: nat)
    ensures |CircuitConstraints(constants, depth)| == 1 + 3 * (|constants| * (depth + 2)) + 3 * depth + 2
    ensures WireCount(|constants|, depth) == 2 + 3 * (|constants| * (depth + 2)) + 4 * depth
  {
    var m := |constants|;
    PathWireCountClosed(m, depth);
    assert m * (depth + 2) == m * depth + 2 * m;
  }

  /** The deployed circuit: 1653 constraints over 1656 witness variables. */
  lemma DeployedCircuitSize()
    ensures |CircuitConstraints(ROUND_CONSTANTS, DEPTH)| == 1653
    ensures WireCount(ROUNDS, DEPTH) == 1656
  {
    hide CircuitConstraints, WireCount;
    CircuitSize(ROUND_CONSTANTS, DEPTH);
  }

  // ---------- the generator ----------

  /** The circuit with its witness; setup leaves every value out. */
  datatype MerkleCircuit = MerkleCircuit(
    constants: seq<Fr>,
    root: Option<Fr>,
    nullifier: Option<Fr>,
    addr: Option<Fr>,
    secret: Option<Fr>,
    pathElements: Option<seq<Fr>>,
    pathIndices: Option<seq<bool>>)

  function Empty(constants: seq<Fr>): MerkleCircuit {
    MerkleCircuit(constants, None, None, None, None, None, None)
  }

  function OkOr<T>(v: Option<T>): Result<T, Failure> {
    match v
    case Some(x) => Success(x)
    case None => Failure(AssignmentMissing)
  }

  /** v[i] inside a value closure: out of range is a panic. */
  function ElementAt<T>(v: Option<seq<T>>, i: nat): Result<T, Failure> {
    match v
    case Some(xs) => if i < |xs| then Success(xs[i]) else Failure(IndexOutOfBounds)
    case None => Failure(AssignmentMissing)
  }

  /** The first failing value closure of the levels i, i+1, ..., depth-1, if any. */
  function PathFailure(elements: Option<seq<Fr>>, indices: Option<seq<bool>>, i: nat, depth: nat): Option<Failure>
    requires i <= depth
    decreases depth - i
  {
    if i == depth then None
    else if ElementAt(elements, i).Failure? then Some(ElementAt(elements, i).error)
    else if ElementAt(indices, i).Failure? then Some(ElementAt(indices, i).error)
    else PathFailure(elements, indices, i + 1, depth)
  }

  /** The first failing value closure of the whole synthesis, if any. */
  function SynthesisFailure(c: MerkleCircuit, depth: nat): Option<Failure> {
    if c.root.None? || c.nullifier.None? || c.addr.None? || c.secret.None? then Some(AssignmentMissing)
    else PathFailure(c.pathElements, c.pathIndices, 0, depth)
  }

  lemma {:induction false} PathFailureFree(elements: Option<seq<Fr>>, indices: Option<seq<bool>>, i: nat, depth: nat)
    requires i <= depth
    ensures PathFailure(elements, indices, i, depth).None?
       <==> i == depth || (elements.Some? && indices.Some? && |elements.value| >= depth && |indices.value| >= depth)
    decreases depth - i
  {
    if i < depth {
      PathFailureFree(elements, indices, i + 1, depth);
    }
  }

  /** One round of the gadget's loop. */
  method MimcRound(cs: ConstraintSystem, x: LC, k: LC, c: Fr) returns (x': LC)
    requires cs.Valid()
    requires Mentions(x, cs.numInputs, cs.numWitness) && Mentions(k, cs.numInputs, cs.numWitness)
    modifies cs`numWitness, cs`wires, cs`constraints
    ensures cs.Valid()
    ensures x' == Var(Witness(old(cs.numWitness) + 2)) && cs.numWitness == old(cs.numWitness) + 3
    ensures cs.constraints == old(cs.constraints) + RoundConstraints(x, k, c, old(cs.numWitness))
    ensures cs.wires == old(cs.wires)
      + if cs.proving
        then SingleRoundWires(Add(Add(Eval(x, old(cs.Assigned())), Eval(k, old(cs.Assigned()))), c)) else []
  {
    hide Eval, Add, Mul;
    var t := Plus(Plus(x, k), Constant(c));
    ghost var z := cs.Assigned();
    var t2 := cs.Product(t, t);
    ghost var z1 := cs.Assigned();
    var t4 := cs.Product(t2, t2);
    ghost var z2 := cs.Assigned();
    x' := cs.Product(t4, t);
    if cs.proving {
      EvalRoundInput(x, k, c, z);
      EvalWire(old(cs.numWitness), z1);
      EvalWire(old(cs.numWitness) + 1, z2);
      EvalExtends(t, z, z2);
    }
  }

  method MimcGadget(cs: ConstraintSystem, x0: LC, k: LC, constants: seq<Fr>) returns (out: LC)
    requires cs.Valid()
    requires Mentions(x0, cs.numInputs, cs.numWitness) && Mentions(k, cs.numInputs, cs.numWitness)
    modifies cs`numWitness, cs`wires, cs`constraints
    ensures cs.Valid()
    ensures var p := RoundsEmit(x0, k, constants, old(cs.numWitness));
      && out == Plus(p.out, k) && cs.numWitness == p.next
      && cs.constraints == old(cs.constraints) + p.constraints
    ensures cs.wires == old(cs.wires)
      + if cs.proving
        then RoundWires(Eval(x0, old(cs.Assigned())), Eval(k, old(cs.Assigned())), constants) else []
    ensures Mentions(out, cs.numInputs, cs.numWitness)
  {
    hide Eval, Add, Mul, RoundConstraints, SingleRoundWires, Quintic, RoundsEmit, RoundWires;
    var x := x0;
    ghost var z0, n0 := cs.Assigned(), cs.numWitness;
    for i := 0 to |constants|
      invariant cs.Valid() && n0 <= cs.numWitness && z0.wires <= cs.wires
      invariant Mentions(x, cs.numInputs, cs.numWitness)
      invariant var p0, p := RoundsEmit(x0, k, constants, n0), RoundsEmit(x, k, constants[i..], cs.numWitness);
        && p.out == p0.out && p.next == p0.next
        && cs.constraints + p.constraints == old(cs.constraints) + p0.constraints
      invariant if cs.proving
        then cs.wires + RoundWires(Eval(x, cs.Assigned()), Eval(k, z0), constants[i..])
          == z0.wires + RoundWires(Eval(x0, z0), Eval(k, z0), constants)
        else cs.wires == z0.wires
    {
      ghost var n, z := cs.numWitness, cs.Assigned();
      GadgetStep(x, k, constants, i, n);
      MentionsMore(k, n0, n, cs.numInputs);
      ghost var before := cs.constraints;
      ghost var x1 := x;
      x := MimcRound(cs, x, k, constants[i]);
      ghost var rest := RoundsEmit(x, k, constants[i + 1..], n + 3);
      assert before + (RoundConstraints(x1, k, constants[i], n) + rest.constraints)
          == cs.constraints + rest.constraints;
      if cs.proving {
        EvalExtends(k, z0, z);
        WiresStep(Eval(x1, z), Eval(k, z0), constants, i);
        EvalWire(n + 2, cs.Assigned());
      }
    }
    assert constants[|constants|..] == [];
    GadgetEnd(x, k, Eval(x, cs.Assigned()), Eval(k, z0), cs.numWitness);
    MentionsMore(k, n0, cs.numWitness, cs.numInputs);
    out := Plus(x, k);
  }

  lemma GadgetEnd(x: LC, k: LC, xv: Fr, kv: Fr, n: nat)
    ensures RoundsEmit(x, k, [], n) == Piece(x, n, []) && RoundWires(xv, kv, []) == []
  {
  }

  lemma MentionsMore(lc: LC, n: nat, n': nat, numInputs: nat)
    requires Mentions(lc, numInputs, n) && n <= n'
    ensures Mentions(lc, numInputs, n')
  {
  }

  lemma GadgetStep(x: LC, k: LC, constants: seq<Fr>, i: nat, n: nat)
    requires i < |constants|
    ensures var rest := RoundsEmit(Var(Witness(n + 2)), k, constants[i + 1..], n + 3);
      RoundsEmit(x, k, constants[i..], n)
        == Piece(rest.out, rest.next, RoundConstraints(x, k, constants[i], n) + rest.constraints)
  {
    assert constants[i..][0] == constants[i] && constants[i..][1..] == constants[i + 1..];
  }

  lemma WiresStep(x: Fr, k: Fr, constants: seq<Fr>, i: nat)
    requires i < |constants|
    ensures var t := Add(Add(x, k), constants[i]);
      RoundWires(x, k, constants[i..]) == SingleRoundWires(t) + RoundWires(Quintic(t), k, constants[i + 1..])
  {
    assert constants[i..][0] == constants[i] && constants[i..][1..] == constants[i + 1..];
  }

  /** Honest round wires make the emitted hash evaluate to the native one. */
  lemma HashValue(l: LC, r: LC, constants: seq<Fr>, n: nat, z: Assignment)
    requires n + 3 * |constants| == |z.wires|
    requires Slice(z, n, |z.wires|) == RoundWires(Eval(l, z), Eval(r, z), constants)
    ensures Eval(HashEmit(l, r, constants, n).out, z) == Hash2(Eval(l, z), Eval(r, z), constants)
  {
    hide Eval, RoundWires, Hash2, Satisfied, RoundsEmit;
    HashMeaning(l, r, constants, n, z);
  }

  method Hash2Gadget(cs: ConstraintSystem, l: LC, r: LC, constants: seq<Fr>) returns (out: LC)
    requires cs.Valid()
    requires Mentions(l, cs.numInputs, cs.numWitness) && Mentions(r, cs.numInputs, cs.numWitness)
    modifies cs`numWitness, cs`wires, cs`constraints
    ensures cs.Valid()
    ensures var p := HashEmit(l, r, constants, old(cs.numWitness));
      && out == p.out && cs.numWitness == p.next
      && cs.constraints == old(cs.constraints) + p.constraints
    ensures cs.wires == old(cs.wires)
      + if cs.proving
        then RoundWires(Eval(l, old(cs.Assigned())), Eval(r, old(cs.Assigned())), constants) else []
    ensures cs.proving ==>
      Eval(out, cs.Assigned()) == Hash2(Eval(l, old(cs.Assigned())), Eval(r, old(cs.Assigned())), constants)
    ensures Mentions(out, cs.numInputs, cs.numWitness)
  {
    hide Eval, RoundsEmit, RoundWires, Hash2;
    ghost var n, z := cs.numWitness, cs.Assigned();
    var h := MimcGadget(cs, l, r, constants);
    out := Plus(Plus(h, l), r);
    if cs.proving {
      EvalExtends(l, z, cs.Assigned());
      EvalExtends(r, z, cs.Assigned());
      HashValue(l, r, constants, n, cs.Assigned());
    }
  }

  /** Sibling, bit and the two selections of one turn of the path loop. */
  method Children(cs: ConstraintSystem, cur: LC, sibling: Result<Fr, Failure>, right: Result<bool, Failure>)
    returns (r: Result<(LC, LC), Failure>)
    requires cs.Valid()
    requires Mentions(cur, cs.numInputs, cs.numWitness)
    modifies cs`numWitness, cs`wires, cs`constraints
    ensures cs.Valid()
    ensures r.Failure? <==> cs.proving && (sibling.Failure? || right.Failure?)
    ensures r.Failure? ==> r.error == if sibling.Failure? then sibling.error else right.error
    ensures r.Success? ==>
      var n := old(cs.numWitness);
      && r.value == (Var(Witness(n + 2)), Var(Witness(n + 3))) && cs.numWitness == n + 4
      && cs.constraints == old(cs.constraints) + LevelConstraints(cur, n)
      && cs.wires == old(cs.wires)
           + if cs.proving
             then LevelWires(Eval(cur, old(cs.Assigned())), sibling.value, right.value) else []
  {
    hide Eval;
    ghost var n, z := cs.numWitness, cs.Assigned();
    var sib :- cs.NewWitness(sibling);
    var bit :- cs.NewBoolean(right);
    ghost var z2 := cs.Assigned();
    var left := cs.Select(bit, sib, cur);
    ghost var z3 := cs.Assigned();
    var rgt := cs.Select(bit, cur, sib);
    if cs.proving {
      EvalExtends(cur, z, z2);
      EvalExtends(cur, z, z3);
      EvalWire(n, z2);
      EvalWire(n + 1, z2);
      EvalWire(n, z3);
      EvalWire(n + 1, z3);
    }
    r := Success((left, rgt));
  }

  /** One turn of the path loop: the children of the next node, and their hash. */
  method PathLevel(cs: ConstraintSystem, cur: LC, constants: seq<Fr>,
                   sibling: Result<Fr, Failure>, right: Result<bool, Failure>) returns (r: Result<LC, Failure>)
    requires cs.Valid()
    requires Mentions(cur, cs.numInputs, cs.numWitness)
    modifies cs`numWitness, cs`wires, cs`constraints
    ensures cs.Valid()
    ensures r.Failure? <==> cs.proving && (sibling.Failure? || right.Failure?)
    ensures r.Failure? ==> r.error == if sibling.Failure? then sibling.error else right.error
    ensures r.Success? ==>
      var p := LevelEmit(cur, constants, old(cs.numWitness));
      && r.value == p.out && cs.numWitness == p.next && Mentions(p.out, cs.numInputs, cs.numWitness)
      && cs.constraints == old(cs.constraints) + p.constraints
      && cs.wires == old(cs.wires)
           + if cs.proving
             then LevelBlock(Eval(cur, old(cs.Assigned())), sibling.value, right.value, constants) else []
    ensures r.Success? && cs.proving ==>
      Eval(r.value, cs.Assigned()) == Step(Hash(constants), Eval(cur, old(cs.Assigned())), sibling.value, right.value)
  {
    hide Eval, HashEmit, RoundWires, LevelConstraints, Hash2;
    ghost var n := cs.numWitness;
    var children :- Children(cs, cur, sibling, right);
    if cs.proving {
      EvalWire(n + 2, cs.Assigned());
      EvalWire(n + 3, cs.Assigned());
    }
    var out := Hash2Gadget(cs, children.0, children.1, constants);
    r := Success(out);
  }

  /** The first `depth` elements, when the vector is there and long enough. */
  function Taken<T>(v: Option<seq<T>>, depth: nat): seq<T> {
    if v.Some? && |v.value| >= depth then v.value[..depth] else []
  }

  lemma PathWiresAt(curv: Fr, constants: seq<Fr>, siblings: seq<Fr>, rights: seq<bool>, i: nat)
    requires i < |siblings| == |rights|
    ensures PathWires(curv, siblings[i..], rights[i..], constants)
         == LevelBlock(curv, siblings[i], rights[i], constants)
            + PathWires(Step(Hash(constants), curv, siblings[i], rights[i]),
                        siblings[i + 1..], rights[i + 1..], constants)
  {
    hide PathWires, LevelBlock, Step, Hash;
    assert siblings[i..] == [siblings[i]] + siblings[i + 1..];
    assert rights[i..] == [rights[i]] + rights[i + 1..];
    PathWiresStep(curv, siblings[i], siblings[i + 1..], rights[i], rights[i + 1..], constants);
  }

  lemma NoPath(cur: LC, curv: Fr, constants: seq<Fr>, n: nat)
    ensures PathEmit(cur, constants, 0, n) == Piece(cur, n, [])
    ensures PathWires(curv, [], [], constants) == []
  {
  }

  /** The loop over the levels of the tree. */
  method PathGadget(cs: ConstraintSystem, leaf: LC, constants: seq<Fr>,
                    elements: Option<seq<Fr>>, indices: Option<seq<bool>>, depth: nat) returns (r: Result<LC, Failure>)
    requires cs.Valid()
    requires Mentions(leaf, cs.numInputs, cs.numWitness)
    modifies cs`numWitness, cs`wires, cs`constraints
    ensures cs.Valid()
    ensures r.Failure? <==> cs.proving && PathFailure(elements, indices, 0, depth).Some?
    ensures r.Failure? ==> r.error == PathFailure(elements, indices, 0, depth).value
    ensures r.Success? ==>
      var p := PathEmit(leaf, constants, depth, old(cs.numWitness));
      && r.value == p.out && cs.numWitness == p.next && Mentions(p.out, cs.numInputs, cs.numWitness)
      && cs.constraints == old(cs.constraints) + p.constraints
    ensures r.Success? && cs.proving ==> |Taken(elements, depth)| == |Taken(indices, depth)| == depth
    ensures r.Success? ==>
      cs.wires == old(cs.wires)
        + if cs.proving
          then PathWires(Eval(leaf, old(cs.Assigned())), Taken(elements, depth), Taken(indices, depth), constants)
          else []
  {
    hide *;
    var cur := leaf;
    ghost var z0, n0, w0, c0 := cs.Assigned(), cs.numWitness, cs.wires, cs.constraints;
    ghost var siblings, rights := Taken(elements, depth), Taken(indices, depth);
    ghost var honest := cs.proving && PathFailure(elements, indices, 0, depth).None?;
    if honest {
      TakenWhole(elements, indices, depth);
    }
    assert cs.constraints + PathEmit(cur, constants, depth, n0).constraints
        == c0 + PathEmit(leaf, constants, depth, n0).constraints;
    for i := 0 to depth
      invariant cs.Valid() && Mentions(cur, cs.numInputs, cs.numWitness)
      invariant cs.proving ==> PathFailure(elements, indices, i, depth) == PathFailure(elements, indices, 0, depth)
      invariant var p0, p := PathEmit(leaf, constants, depth, n0), PathEmit(cur, constants, depth - i, cs.numWitness);
        p.out == p0.out && p.next == p0.next && cs.constraints + p.constraints == c0 + p0.constraints
      invariant !cs.proving ==> cs.wires == w0
      invariant honest ==>
        (cs.wires + PathWires(Eval(cur, cs.Assigned()), siblings[i..], rights[i..], constants)
         == w0 + PathWires(Eval(leaf, z0), siblings, rights, constants))
    {
      ghost var n, z, before, w := cs.numWitness, cs.Assigned(), cs.constraints, cs.wires;
      PathEmitStep(cur, constants, depth - i, n);
      ghost var level := LevelEmit(cur, constants, n);
      ghost var rest := PathEmit(level.out, constants, depth - i - 1, level.next);
      AppendAssoc(before, level.constraints, rest.constraints);
      ghost var curv := Eval(cur, z);
      PathFailureStep(elements, indices, i, depth);
      var turn := PathLevel(cs, cur, constants, ElementAt(elements, i), ElementAt(indices, i));
      if turn.Failure? {
        return Failure(turn.error);
      }
      cur := turn.value;
      if honest {
        PathWiresAt(curv, constants, siblings, rights, i);
        AppendAssoc(w, LevelBlock(curv, siblings[i], rights[i], constants),
                    PathWires(Eval(cur, cs.Assigned()), siblings[i + 1..], rights[i + 1..], constants));
      }
    }
    PathFailureEnd(elements, indices, depth);
    NoPath(cur, Eval(cur, cs.Assigned()), constants, cs.numWitness);
    r := Success(cur);
  }

  lemma PathFailureStep(elements: Option<seq<Fr>>, indices: Option<seq<bool>>, i: nat, depth: nat)
    requires i < depth
    ensures PathFailure(elements, indices, i, depth)
         == if ElementAt(elements, i).Failure? then Some(ElementAt(elements, i).error)
            else if ElementAt(indices, i).Failure? then Some(ElementAt(indices, i).error)
            else PathFailure(elements, indices, i + 1, depth)
  {
  }

  lemma PathFailureEnd(elements: Option<seq<Fr>>, indices: Option<seq<bool>>, depth: nat)
    ensures PathFailure(elements, indices, depth, depth) == None
  {
  }

  /** If no closure fails, both vectors reach as far as the circuit is deep. */
  lemma TakenWhole(elements: Option<seq<Fr>>, indices: Option<seq<bool>>, depth: nat)
    requires PathFailure(elements, indices, 0, depth).None?
    ensures |Taken(elements, depth)| == |Taken(indices, depth)| == depth
    ensures forall i :: 0 <= i < depth ==> ElementAt(elements, i) == Success(Taken(elements, depth)[i])
    ensures forall i :: 0 <= i < depth ==> ElementAt(indices, i) == Success(Taken(indices, depth)[i])
  {
    PathFailureFree(elements, indices, 0, depth);
  }

  /** The opening that a fully assigned circuit instance carries. */
  function OpeningIn(c: MerkleCircuit, depth: nat): Opening
    requires c.secret.Some?
  {
    Opening(c.secret.value, Taken(c.pathElements, depth), Taken(c.pathIndices, depth))
  }

  /** The inputs in their fixed order, the bound address and the secret. */
  method Declare(cs: ConstraintSystem, c: MerkleCircuit) returns (r: Result<(), Failure>)
    requires cs.Valid() && cs.numInputs == cs.numWitness == 0 && cs.constraints == []
    modifies cs
    ensures r.Failure? <==> cs.proving && (c.root.None? || c.nullifier.None? || c.addr.None? || c.secret.None?)
    ensures r.Failure? ==> r.error == AssignmentMissing
    ensures r.Success? ==>
      cs.Valid() && cs.numInputs == 3 && cs.numWitness == 2 && cs.constraints == [ADDRESS_BOUND]
    ensures r.Success? && cs.proving ==>
      && cs.inputs == [c.root.value, c.nullifier.value, c.addr.value]
      && cs.wires == [Mul(c.addr.value, c.addr.value), c.secret.value]
  {
    hide Eval, Mul;
    var root :- cs.NewInput(OkOr(c.root));
    var nullifier :- cs.NewInput(OkOr(c.nullifier));
    var addr :- cs.NewInput(OkOr(c.addr));
    if cs.proving {
      EvalInput(2, cs.Assigned());
    }
    var addrBound := cs.Product(addr, addr);
    var secret :- cs.NewWitness(OkOr(c.secret));
    r := Success(());
  }

  /**
   Synthesis on a fresh constraint system. In both modes it emits exactly CircuitConstraints,
   so setup and proving agree on the shape; in proving mode it also assigns the inputs in the
   order root, nullifier, address and the honest wires of the opening.
   */
  method GenerateConstraints(cs: ConstraintSystem, c: MerkleCircuit, depth: nat) returns (r: Result<(), Failure>)
    requires cs.Valid() && cs.numInputs == cs.numWitness == 0 && cs.constraints == []
    modifies cs
    ensures r.Failure? <==> cs.proving && SynthesisFailure(c, depth).Some?
    ensures r.Failure? ==> r.error == SynthesisFailure(c, depth).value
    ensures r.Success? ==>
      && cs.Valid() && cs.numInputs == 3 && cs.numWitness == WireCount(|c.constants|, depth)
      && cs.constraints == CircuitConstraints(c.constants, depth)
    ensures r.Success? && cs.proving ==>
      && cs.inputs == [c.root.value, c.nullifier.value, c.addr.value]
      && |Taken(c.pathElements, depth)| == |Taken(c.pathIndices, depth)| == depth
      && cs.wires == CircuitWires(c.constants, c.addr.value, OpeningIn(c, depth))
  {
    hide Eval, HashEmit, PathEmit, RoundWires, PathWires, Hash2, Mul, EqualConstraint, PathWireCount, Taken,
      PathFailure, ProductConstraint;
    var declared :- Declare(cs, c);
    if cs.proving {
      EvalWire(1, cs.Assigned());
      EvalSingle(LEAF_DOMAIN, One, cs.Assigned());
    }
    var leaf := Hash2Gadget(cs, SECRET, Constant(LEAF_DOMAIN), c.constants);
    var cur :- PathGadget(cs, leaf, c.constants, c.pathElements, c.pathIndices, depth);
    cs.EnforceEqual(cur, ROOT);
    if cs.proving {
      EvalWire(1, cs.Assigned());
      EvalSingle(NULLIFIER_DOMAIN, One, cs.Assigned());
    }
    var nullCalc := Hash2Gadget(cs, SECRET, Constant(NULLIFIER_DOMAIN), c.constants);
    cs.EnforceEqual(nullCalc, NULLIFIER);
    r := Success(());
  }
}
