/**
 The request handlers over a store, statement by statement. Each is proved to do what the
 protocol's handler of the same request does when nobody interrupts it, so that everything
 proved about the protocol speaks about these handlers.
 */
module Handlers {
  import opened Wrappers
  import opened NumberTheory
  import opened Field
  import opened Mimc
  import opened HashTree
  import opened Merkle
  import opened Hex
  import opened Encoding
  import opened KeyDigest
  import opened Storage
  import opened Protocol
  import opened Serial
  import Circuit
  import Membership
  import Invariant

  // ---------- the protocol's side ----------

  /** The protocol serving one request on its own. */
  function Lone(h: (Fr, Fr) -> Fr, db: Db, request: Request): State {
    ApplyAll(h, State(db, map[], map[]), Turn(0, request))
  }

  /** The handler's reply and the database it leaves behind are the protocol's. */
  ghost predicate AsProtocol(h: (Fr, Fr) -> Fr, before: Db, request: Request, after: Db, reply: Reply) {
    var s := Lone(h, before, request);
    after == s.db && 0 in s.handlers && ReplyOf(h, s.handlers[0]) == Some(reply)
  }

  lemma LoneIs(h: (Fr, Fr) -> Fr, db: Db, request: Request)
    ensures var s := At(State(db, map[], map[]), 0, Accept(request));
      Lone(h, db, request)
        == match Accept(request)
           case Rejected => s
           case Add(issuer, c, _) => AfterAdd(s, 0, issuer, c)
           case Publish(issuer, _) => AfterPublish(h, s, 0, issuer)
           case Prove(issuer, secret, _) => AfterProve(h, s, 0, issuer, secret)
  {
    hide Accept, Apply, ApplyAll, AfterAdd, AfterPublish, AfterProve;
    var start := State(db, map[], map[]);
    var s := At(start, 0, Accept(request));
    ApplyFirst(h, start, Arrive(0, request), [Run(0), Run(0), Run(0), Run(0)]);
    assert [Arrive(0, request)] + [Run(0), Run(0), Run(0), Run(0)] == Turn(0, request);
    Arrives(h, start, 0, request);
    match Accept(request)
    case Rejected =>
      TurnSteps(h, s, 0);
      Settled(h, s, 0);
    case Add(issuer, c, _) => AddTurns(h, s, 0, issuer, c);
    case Publish(issuer, _) => PublishTurns(h, s, 0, issuer);
    case Prove(issuer, secret, _) => ProveTurns(h, s, 0, issuer, secret);
  }

  function StoreFailure(e: StoreError): ApiError {
    match e
    case Full => Conflict
    case Database => Internal
    case BadHex => Internal
  }

  function CryptoFailure(e: Membership.CryptoError): ApiError {
    match e
    case NotAMember => NotFound
    case ProvingFailed => Internal
  }

  function AddReply(r: Result<(nat, nat), ApiError>): Reply {
    match r
    case Success((position, count)) => Added(position, count)
    case Failure(e) => Refused(e)
  }

  function RootReply(r: Result<string, ApiError>): Reply {
    match r
    case Success(root) => RootIs(root)
    case Failure(e) => Refused(e)
  }

  // ---------- the handlers ----------

  /** What the protocol makes of an addition on its own. */
  lemma LoneAdd(h: (Fr, Fr) -> Fr, db: Db, name: string, text: string)
    ensures var request, registered, n := AddRequest(name, text), WithIssuer(db, name), |Rows(db, name)|;
      match ParseFrHex(text)
      case Failure(_) => AsProtocol(h, db, request, db, Refused(BadRequest))
      case Success(c) =>
        var inserted := WithLeaf(registered, name, n, ToHex(c));
        if n >= CAPACITY then AsProtocol(h, db, request, registered, Refused(Conflict))
        else if inserted.Success? then AsProtocol(h, db, request, inserted.value, Added(n, n + 1))
        else AsProtocol(h, db, request, registered, Refused(Internal))
  {
    hide ParseFrHex, ToHex, Lone, CAPACITY, WithIssuer, WithLeaf, Rows, LeafList;
    LoneIs(h, db, AddRequest(name, text));
    IssuerKeepsRows(db, name, name);
  }

  method AddLeaf(store: Store, ghost h: (Fr, Fr) -> Fr, name: string, text: string)
    returns (r: Result<(nat, nat), ApiError>)
    modifies store
    ensures AsProtocol(h, old(store.Contents()), AddRequest(name, text), store.Contents(), AddReply(r))
    ensures r.Success? ==>
      && ParseFrHex(text).Success? && r.value.0 == |old(Rows(store.Contents(), name))| && r.value.1 == r.value.0 + 1
      && (old(Dense(Rows(store.Contents(), name))) ==>
            LeafList(store.Contents(), name) == old(LeafList(store.Contents(), name)) + [ParseFrHex(text).value])
  {
    hide ParseFrHex, ToHex, AsProtocol, CAPACITY, Dense, WithIssuer, LeafList;
    LoneAdd(h, store.Contents(), name, text);
    IssuerKeepsRows(store.Contents(), name, name);
    Invariant.EnsuredIssuer(store.Contents(), name);
    var parsed := ParseFrHex(text);
    if parsed.Failure? {
      return Failure(BadRequest);
    }
    var added := store.AddLeaf(name, parsed.value);
    r := if added.Success? then Success(added.value) else Failure(StoreFailure(added.error));
  }

  method Publish(store: Store, constants: seq<Fr>, name: string) returns (r: Result<string, ApiError>)
    modifies store
    ensures AsProtocol(Hash(constants), old(store.Contents()), PublishRequest(name), store.Contents(), RootReply(r))
    ensures r.Success? ==>
      var leaves := SelectLeaves(old(store.Contents()), name);
      && leaves.Success? && leaves.value != [] && |leaves.value| <= CAPACITY
      && var root := RootOf(Hash(constants), leaves.value, Circuit.DEPTH);
         r.value == ToHex(root) && SelectRoot(store.Contents(), name) == Success(Some(root))
  {
    hide ToHex, Lone, Hash, TreeRoot, SelectLeaves, WithIssuer, WithRoot, LeafList, Dense, SelectRoot;
    LoneIs(Hash(constants), store.Contents(), PublishRequest(name));
    var read := store.Leaves(name);
    if read.Failure? {
      return Failure(StoreFailure(read.error));
    }
    if read.value == [] {
      return Failure(BadRequest);
    }
    var tree := MerkleTree.FromLeaves(Circuit.DEPTH, constants, read.value);
    if tree.Failure? {
      return Failure(Conflict);
    }
    var root := tree.value.Root();
    store.SetPublishedRoot(name, root);
    r := Success(ToHex(root));
  }

  datatype ProveResponse = ProveResponse(a: string, b: string, c: string, root: string, nullifier: string)

  function ProveReply(r: Result<ProveResponse, ApiError>): Reply {
    match r
    case Success(p) => Proved(p.root, p.nullifier)
    case Failure(e) => Refused(e)
  }

  /** Where a proof response comes from. */
  ghost predicate Responds(groth: Membership.Groth16, constants: seq<Fr>, db: Db, name: string, secret: Fr, addr: Fr,
                           p: ProveResponse)
  {
    var leaves := SelectLeaves(db, name);
    && leaves.Success? && |leaves.value| <= CAPACITY && Membership.LeafCommitment(secret, constants) in leaves.value
    && var z := Membership.MemberAssignment(constants, Circuit.DEPTH, leaves.value, secret, addr);
       var proof := groth.prove(Circuit.CircuitConstraints(constants, Circuit.DEPTH), z);
       && proof.Some? && groth.verify(z.inputs, proof.value)
       && p.a == Encode(G1Layout(proof.value.a)) && p.b == Encode(G2Layout(proof.value.b))
       && p.c == Encode(G1Layout(proof.value.c))
       && p.root == ToHex(z.inputs[0]) && p.nullifier == ToHex(z.inputs[1])
  }

  /** The leaves are read and their root is compared with the published one, as in the protocol. */
  method CheckedTree(store: Store, constants: seq<Fr>, name: string) returns (r: Result<MerkleTree, ApiError>)
    ensures var h, db := Hash(constants), store.Contents();
      var s, tree := State(db, map[], map[]), ReadTree(db, name, NotFound);
      if r.Failure? then
        (if tree.Failure? then tree.error == r.error else CheckRoot(h, s, name, tree.value) == ProveFailed(r.error))
      else
        && fresh(r.value) && r.value.Valid() && r.value.depth == Circuit.DEPTH && r.value.constants == constants
        && tree == Success(r.value.leaves) && !CheckRoot(h, s, name, tree.value).ProveFailed?
  {
    hide ToHex, Hash, TreeRoot, SelectLeaves, SelectRoot, LeafList, Dense;
    var read := store.Leaves(name);
    if read.Failure? {
      return Failure(StoreFailure(read.error));
    }
    if read.value == [] {
      return Failure(NotFound);
    }
    var tree := MerkleTree.FromLeaves(Circuit.DEPTH, constants, read.value);
    if tree.Failure? {
      return Failure(Conflict);
    }
    var published := store.PublishedRoot(name);
    if published.Failure? {
      return Failure(StoreFailure(published.error));
    }
    var root := tree.value.Root();
    match published.value {
      case Some(stored) =>
        if stored != root {
          return Failure(Conflict);
        }
      case None =>
        return Failure(Conflict);
    }
    r := Success(tree.value);
  }

  /** What the protocol makes of a proof request after its check. */
  lemma LoneProve(h: (Fr, Fr) -> Fr, db: Db, name: string, text: string, secret: Fr)
    requires ParseFrHex(text) == Success(secret)
    ensures var s, read := State(db, map[], map[]), ReadTree(db, name, NotFound);
      var request := ProveRequest(name, text);
      if read.Failure? then AsProtocol(h, db, request, db, Refused(read.error))
      else
        var checked := CheckRoot(h, s, name, read.value);
        if checked.ProveFailed? then AsProtocol(h, db, request, db, Refused(checked.error))
        else if Commitment(h, secret) !in read.value then AsProtocol(h, db, request, db, Refused(NotFound))
        else
          var noted := WithNullifier(db, name, ToHex(NullifierOf(h, secret)));
          AsProtocol(h, db, request, if noted.Success? then noted.value else db,
                     Proved(ToHex(Root(h, read.value)), ToHex(NullifierOf(h, secret))))
  {
    hide ToHex, Lone, ReadTree, CheckRoot, ParseFrHex, WithNullifier, Root, Commitment, NullifierOf;
    LoneIs(h, db, ProveRequest(name, text));
    var s := State(db, map[], map[]);
    var s' := At(s, 0, Protocol.Prove(name, secret, ProveStart));
    var read := ReadTree(db, name, NotFound);
    if read.Success? {
      SameCheck(h, s, s', name, read.value);
    }
  }

  /**
   A proof request. Only the proof system can make it deviate from the protocol, by failing on
   a circuit that is satisfied; then the request fails and nothing is written.
   */
  method Prove(store: Store, groth: Membership.Groth16, sha: seq<Byte> -> Digest, constants: seq<Fr>,
               name: string, text: string, strkey: seq<Byte>) returns (r: Result<ProveResponse, ApiError>)
    modifies store
    ensures
      || AsProtocol(Hash(constants), old(store.Contents()), ProveRequest(name, text), store.Contents(), ProveReply(r))
      || (r == Failure(Internal) && store.Contents() == old(store.Contents()))
    ensures IsPrime(Field.R) && groth.Complete(Circuit.CircuitConstraints(constants, Circuit.DEPTH)) ==>
      AsProtocol(Hash(constants), old(store.Contents()), ProveRequest(name, text), store.Contents(), ProveReply(r))
    ensures r.Success? ==>
      && ParseFrHex(text).Success?
      && Responds(groth, constants, old(store.Contents()), name, ParseFrHex(text).value,
                  Membership.AddressField(sha, strkey), r.value)
  {
    hide *;
    ghost var h, db := Hash(constants), store.Contents();
    var parsed := ParseFrHex(text);
    if parsed.Failure? {
      LoneRejected(h, db, name, text);
      r := Failure(BadRequest);
      Refuses(BadRequest);
      return;
    }
    var secret := parsed.value;
    LoneProve(h, db, name, text, secret);
    SameHashes(secret, constants);
    var checked := CheckedTree(store, constants, name);
    if checked.Failure? {
      r := Failure(checked.error);
      Refuses(checked.error);
      return;
    }
    var tree := checked.value;
    var membership := Membership.Prove(groth, sha, tree, secret, strkey);
    if membership.Failure? {
      r := Failure(CryptoFailure(membership.error));
      CryptoFails(membership.error);
      Refuses(CryptoFailure(membership.error));
      return;
    }
    var nullifier := Membership.Nullifier(secret, constants);
    var noted := store.RecordNullifier(name, nullifier);
    var p := membership.value;
    r := Success(ProveResponse(Encode(p.proof.a), Encode(p.proof.b), Encode(p.proof.c), Encode(p.root),
                               Encode(Word(nullifier))));
    ProofIsResponse(groth, constants, db, name, secret, Membership.AddressField(sha, strkey), tree.leaves, p, r.value);
    Proves(r.value);
  }

  lemma SameHashes(secret: Fr, constants: seq<Fr>)
    ensures Commitment(Hash(constants), secret) == Membership.LeafCommitment(secret, constants)
    ensures NullifierOf(Hash(constants), secret) == Membership.Nullifier(secret, constants)
  {
  }

  lemma ProofIsResponse(groth: Membership.Groth16, constants: seq<Fr>, db: Db, name: string, secret: Fr, addr: Fr,
                        leaves: Tree, given: Membership.MembershipProof, p: ProveResponse)
    requires ReadTree(db, name, NotFound) == Success(leaves)
    requires Membership.LeafCommitment(secret, constants) in leaves
    requires var z := Membership.MemberAssignment(constants, Circuit.DEPTH, leaves, secret, addr);
      var proof := groth.prove(Circuit.CircuitConstraints(constants, Circuit.DEPTH), z);
      && proof.Some? && groth.verify(z.inputs, proof.value)
      && given == Membership.MembershipProof(Membership.EncodeProof(proof.value), Word(z.inputs[0]), Word(z.inputs[1]))
    requires p == ProveResponse(Encode(given.proof.a), Encode(given.proof.b), Encode(given.proof.c), Encode(given.root),
                                Encode(Word(Membership.Nullifier(secret, constants))))
    ensures Responds(groth, constants, db, name, secret, addr, p)
    ensures p.root == ToHex(Root(Hash(constants), leaves))
    ensures p.nullifier == ToHex(Membership.Nullifier(secret, constants))
  {
    hide Encode, Word, TreeRoot, Hash2, SelectLeaves, Circuit.CircuitConstraints, Circuit.CircuitWires,
      Membership.MemberOpening, G1Layout, G2Layout;
  }

  lemma Proves(p: ProveResponse)
    ensures ProveReply(Success(p)) == Proved(p.root, p.nullifier)
  {
  }

  lemma Refuses(e: ApiError)
    ensures ProveReply(Failure(e)) == Refused(e)
  {
  }

  lemma CryptoFails(e: Membership.CryptoError)
    ensures CryptoFailure(e) == if e.NotAMember? then NotFound else Internal
  {
  }

  lemma LoneRejected(h: (Fr, Fr) -> Fr, db: Db, name: string, text: string)
    requires ParseFrHex(text).Failure?
    ensures AsProtocol(h, db, ProveRequest(name, text), db, Refused(BadRequest))
  {
    hide ParseFrHex, Lone;
    LoneIs(h, db, ProveRequest(name, text));
  }
}
