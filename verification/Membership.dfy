/**
 Proof generation for a holder: commitment, nullifier, address binding, and the sequence
 that turns a tree and a secret into a satisfied circuit. The proof system itself is a
 parameter; completeness and extraction are stated about the circuit that it is given.
 */
module Membership {
  import opened Wrappers
  import opened NumberTheory
  import opened Field
  import opened Mimc
  import opened HashTree
  import opened Merkle
  import opened R1cs
  import opened Circuit
  import opened Hex
  import opened Curves
  import opened Encoding
  import opened KeyDigest

  function LeafCommitment(secret: Fr, constants: seq<Fr>): Fr {
    Hash2(secret, LEAF_DOMAIN, constants)
  }

  function Nullifier(secret: Fr, constants: seq<Fr>): Fr {
    Hash2(secret, NULLIFIER_DOMAIN, constants)
  }

  /** Commitments and nullifiers are hashes under different second inputs: a common value is a collision. */
  lemma DomainsSeparate(secret: Fr, secret': Fr, constants: seq<Fr>)
    ensures Nullifier(secret, constants) == LeafCommitment(secret', constants)
       <==> Collides(Hash(constants), Collision(secret, 2, secret', 1))
  {
    hide Permute;
  }

  function AddressField(sha: seq<Byte> -> Digest, strkey: seq<Byte>): Fr {
    FrFromBe(sha(strkey))
  }

  /** An address is bound to the number of its digest modulo the order, and to nothing else. */
  lemma AddressFieldIsDigest(sha: seq<Byte> -> Digest, strkey: seq<Byte>)
    ensures Divides(R, FromBytes(sha(strkey)) - AddressField(sha, strkey))
    ensures AddressField(sha, strkey) == FromBytes(sha(strkey)) % R
  {
    hide ToBytes, FromBytes;
    var a := AddressField(sha, strkey);
    WordSize();
    FrRoundTrip(a);
    FromToBytes(a, 32);
    SameScalar(sha(strkey), Word(a));
  }

  /** Two addresses are bound to the same field element exactly when their digests agree modulo the order. */
  lemma AddressFieldEqual(sha: seq<Byte> -> Digest, a: seq<Byte>, b: seq<Byte>)
    ensures AddressField(sha, a) == AddressField(sha, b)
       <==> Divides(R, FromBytes(sha(a)) - FromBytes(sha(b)))
  {
    SameScalar(sha(a), sha(b));
  }

  datatype Proof = Proof(a: G1, b: G2, c: G1)

  datatype EncodedProof = EncodedProof(a: seq<Byte>, b: seq<Byte>, c: seq<Byte>)

  function EncodeProof(p: Proof): EncodedProof {
    EncodedProof(G1Layout(p.a), G2Layout(p.b), G1Layout(p.c))
  }

  datatype MembershipProof = MembershipProof(proof: EncodedProof, root: seq<Byte>, nullifier: seq<Byte>)

  datatype CryptoError = NotAMember | ProvingFailed

  /** The proof system under fixed keys and randomness. */
  datatype Groth16 = Groth16(
    prove: (seq<Constraint>, Assignment) -> Option<Proof>,
    verify: (seq<Fr>, Proof) -> bool)
  {
    /** For the circuit the keys were made for, satisfying values give a proof that is accepted for the inputs. */
    ghost predicate Complete(cs: seq<Constraint>) {
      forall z :: Satisfied(cs, z) ==> prove(cs, z).Some? && verify(z.inputs, prove(cs, z).value)
    }
  }

  /** The hypothesis about the proof system can be met. */
  lemma CompletenessIsPossible(cs: seq<Constraint>, p: Proof)
    ensures Groth16((c, z) => Some(p), (inputs, q) => true).Complete(cs)
  {
  }

  /**
   The circuit as the trusted setup synthesizes it, without a witness: synthesis cannot fail, and
   the result is the very circuit that proving hands over, with its three inputs.
   */
  method SetupCircuit(constants: seq<Fr>, depth: nat)
    returns (circuit: seq<Constraint>, numInputs: nat, numWitness: nat)
    ensures circuit == CircuitConstraints(constants, depth)
    ensures numInputs == 3 && numWitness == WireCount(|constants|, depth)
    ensures constants == ROUND_CONSTANTS && depth == DEPTH ==> |circuit| == 1653 && numWitness == 1656
  {
    hide CircuitConstraints, WireCount;
    DeployedCircuitSize();
    var cs := new ConstraintSystem(false);
    var synthesized := GenerateConstraints(cs, Empty(constants), depth);
    circuit, numInputs, numWitness := cs.constraints, cs.numInputs, cs.numWitness;
  }

  /** The position of the first leaf that equals x. */
  function FirstIndex(leaves: seq<Fr>, x: Fr): (r: Option<nat>)
    ensures r.None? <==> x !in leaves
    ensures r.Some? ==> r.value < |leaves| && leaves[r.value] == x && x !in leaves[..r.value]
  {
    if leaves == [] then None
    else if leaves[0] == x then Some(0)
    else
      var rest := FirstIndex(leaves[1..], x);
      assert rest.Some? ==> leaves[..rest.value + 1] == [leaves[0]] + leaves[1..][..rest.value];
      match rest
      case Some(i) => Some(i + 1)
      case None => None
  }

  /** The statement that is proved for a secret, and the opening of it that the tree provides. */
  function MemberClaim(constants: seq<Fr>, depth: nat, leaves: seq<Fr>, secret: Fr, addr: Fr): Claim
    requires |leaves| <= Pow2(depth)
  {
    Claim(RootOf(Hash(constants), leaves, depth), Nullifier(secret, constants), addr)
  }

  function MemberOpening(constants: seq<Fr>, depth: nat, leaves: seq<Fr>, secret: Fr): (o: Opening)
    requires |leaves| <= Pow2(depth) && LeafCommitment(secret, constants) in leaves
    ensures |o.siblings| == |o.rights| == depth
  {
    var i := FirstIndex(leaves, LeafCommitment(secret, constants)).value;
    Opening(secret, Siblings(Hash(constants), depth, Padded(leaves, depth), i), Digits(depth, i))
  }

  /** The values the prover hands to the proof system. */
  function MemberAssignment(constants: seq<Fr>, depth: nat, leaves: seq<Fr>, secret: Fr, addr: Fr): (z: Assignment)
    requires |leaves| <= Pow2(depth) && LeafCommitment(secret, constants) in leaves
    ensures z.inputs == [RootOf(Hash(constants), leaves, depth), Nullifier(secret, constants), addr]
  {
    var c := MemberClaim(constants, depth, leaves, secret, addr);
    Assignment([c.root, c.nullifier, c.addr],
               CircuitWires(constants, addr, MemberOpening(constants, depth, leaves, secret)))
  }

  /** Completeness: for every member and every address the handed-over values satisfy the circuit. */
  lemma MemberIsProvable(constants: seq<Fr>, depth: nat, leaves: seq<Fr>, secret: Fr, addr: Fr)
    requires IsPrime(R)
    requires |leaves| <= Pow2(depth) && LeafCommitment(secret, constants) in leaves
    ensures Satisfied(CircuitConstraints(constants, depth), MemberAssignment(constants, depth, leaves, secret, addr))
  {
    hide Satisfied, CircuitConstraints, CircuitWires, TreeRoot, Siblings, Hash2, Hash, Fold, Digits;
    var i := FirstIndex(leaves, LeafCommitment(secret, constants)).value;
    FoldOfSiblings(Hash(constants), depth, Padded(leaves, depth), i);
    HonestAssignment(constants, depth, MemberClaim(constants, depth, leaves, secret, addr),
                     MemberOpening(constants, depth, leaves, secret));
  }

  /**
   The whole sequence. It refuses exactly the secrets whose commitment is absent; otherwise
   synthesis cannot fail, the proof system is given the satisfied circuit, and a proof is
   returned exactly when it verifies for [root, nullifier, address].
   */
  method Prove(groth: Groth16, sha: seq<Byte> -> Digest, tree: MerkleTree, secret: Fr, strkey: seq<Byte>)
    returns (r: Result<MembershipProof, CryptoError>)
    requires tree.Valid()
    ensures r == Failure(NotAMember) <==> LeafCommitment(secret, tree.constants) !in tree.leaves
    ensures r != Failure(NotAMember) ==>
      var z := MemberAssignment(tree.constants, tree.depth, tree.leaves, secret, AddressField(sha, strkey));
      var p := groth.prove(CircuitConstraints(tree.constants, tree.depth), z);
      && (r.Success? <==> p.Some? && groth.verify(z.inputs, p.value))
      && (r.Success? ==> r.value == MembershipProof(EncodeProof(p.value), Word(z.inputs[0]), Word(z.inputs[1])))
    ensures IsPrime(R) && groth.Complete(CircuitConstraints(tree.constants, tree.depth)) ==>
      (r.Success? <==> LeafCommitment(secret, tree.constants) in tree.leaves)
  {
    hide Satisfied, CircuitConstraints, CircuitWires, TreeRoot, Siblings, Hash2, Hash, Fold, Digits, Padded,
      PathFailure, PathWireCount, Word, G1Layout, G2Layout, FrFromBe;
    var constants, depth := tree.constants, tree.depth;
    var leaf := LeafCommitment(secret, constants);
    var index := FirstIndex(tree.leaves, leaf);
    if index.None? {
      return Failure(NotAMember);
    }
    var witnessed := tree.Witness(index.value);
    if witnessed.Failure? {
      return Failure(NotAMember);
    }
    var path := witnessed.value;
    var root := tree.Root();
    var null' := Nullifier(secret, constants);
    var addr := AddressField(sha, strkey);
    var circuit := MerkleCircuit(
      constants, Some(root), Some(null'), Some(addr), Some(secret), Some(path.pathElements), Some(path.pathIndices));
    PathFailureFree(circuit.pathElements, circuit.pathIndices, 0, depth);
    var cs := new ConstraintSystem(true);
    var synthesized := GenerateConstraints(cs, circuit, depth);
    if synthesized.Failure? {
      return Failure(ProvingFailed);
    }
    ghost var z := MemberAssignment(constants, depth, tree.leaves, secret, addr);
    assert OpeningIn(circuit, depth) == MemberOpening(constants, depth, tree.leaves, secret);
    assert cs.Assigned() == z;
    if IsPrime(R) {
      MemberIsProvable(constants, depth, tree.leaves, secret, addr);
    }
    var proof := groth.prove(cs.constraints, cs.Assigned());
    if proof.None? || !groth.verify([root, null', addr], proof.value) {
      return Failure(ProvingFailed);
    }
    r := Success(MembershipProof(EncodeProof(proof.value), Word(root), Word(null')));
  }

  // ---------- what an accepted circuit proves about the tree ----------

  /** The collision, if any, between the path in an assignment and the tree it is claimed to lead into. */
  function ExtractedCollision(constants: seq<Fr>, depth: nat, leaves: seq<Fr>, o: Opening): Option<Collision<Fr>>
    requires |leaves| <= Pow2(depth) && |o.siblings| == |o.rights| == depth
  {
    PathCollision(Hash(constants), depth, Padded(leaves, depth), LeafCommitment(o.secret, constants),
                  o.siblings, o.rights)
  }

  /**
   Membership extraction: an assignment that satisfies the circuit for the root of a tree
   contains a secret whose commitment stands in the slot that the position bits spell (an
   empty slot holds the commitment 0), together with the tree's own path to that slot, or else it
   yields two inputs with the same hash.
   */
  lemma MembershipExtraction(constants: seq<Fr>, depth: nat, leaves: seq<Fr>, z: Assignment)
    requires IsPrime(R)
    requires |leaves| <= Pow2(depth) && WellSized(z, |constants|, depth)
    requires Satisfied(CircuitConstraints(constants, depth), z)
    requires z.inputs[0] == RootOf(Hash(constants), leaves, depth)
    ensures var o := OpeningOf(z.wires, |constants|, depth);
      var commitment, k, c :=
        LeafCommitment(o.secret, constants), IndexOf(o.rights), ExtractedCollision(constants, depth, leaves, o);
      && z.inputs[1] == Nullifier(o.secret, constants)
      && if c.Some? then Collides(Hash(constants), c.value)
         else
           && (if k < |leaves| then leaves[k] == commitment else commitment == 0)
           && o.siblings == Siblings(Hash(constants), depth, Padded(leaves, depth), k) && o.rights == Digits(depth, k)
  {
    hide Satisfied, CircuitConstraints, TreeRoot, PathCollision, Hash2, Fold, PathSiblings, PathRights, PathWireCount,
      PathBits, Siblings, Digits;
    var o := OpeningOf(z.wires, |constants|, depth);
    CircuitSoundness(constants, depth, z);
    PathLeadsToLeaf(Hash(constants), leaves, depth, LeafCommitment(o.secret, constants), o.siblings, o.rights);
  }

  /**
   One nullifier for each slot of a tree: two satisfying assignments for the same root whose
   paths end in the same slot have the same nullifier, unless there is a collision in one of
   the paths or between the two commitments.
   */
  lemma OneNullifierPerSlot(constants: seq<Fr>, depth: nat, leaves: seq<Fr>, z: Assignment, z': Assignment)
    requires IsPrime(R)
    requires |leaves| <= Pow2(depth) && WellSized(z, |constants|, depth) && WellSized(z', |constants|, depth)
    requires Satisfied(CircuitConstraints(constants, depth), z) && Satisfied(CircuitConstraints(constants, depth), z')
    requires z.inputs[0] == z'.inputs[0] == RootOf(Hash(constants), leaves, depth)
    requires IndexOf(OpeningOf(z.wires, |constants|, depth).rights)
          == IndexOf(OpeningOf(z'.wires, |constants|, depth).rights)
    ensures var h, m := Hash(constants), |constants|;
      var o, o' := OpeningOf(z.wires, m, depth), OpeningOf(z'.wires, m, depth);
      var c, c' := ExtractedCollision(constants, depth, leaves, o), ExtractedCollision(constants, depth, leaves, o');
      || z.inputs[1] == z'.inputs[1]
      || (c.Some? && Collides(h, c.value))
      || (c'.Some? && Collides(h, c'.value))
      || Collides(h, Collision(o.secret, LEAF_DOMAIN, o'.secret, LEAF_DOMAIN))
  {
    hide Satisfied, CircuitConstraints, TreeRoot, ExtractedCollision, Hash2, OpeningOf;
    MembershipExtraction(constants, depth, leaves, z);
    MembershipExtraction(constants, depth, leaves, z');
  }
}
