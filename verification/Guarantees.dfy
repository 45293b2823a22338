/**
 The guarantees of the protocol over whole runs: concurrent appends, published roots, the
 agreement of proofs with publishes, and the nullifier rows.
 */
module Guarantees {
  import opened Wrappers
  import opened Field
  import opened Mimc
  import opened HashTree
  import opened Merkle
  import opened Encoding
  import opened Storage
  import opened Protocol
  import opened Invariant
  import Circuit

  // ---------- runs ----------

  /** The state before event k of a run. */
  function StateAt(h: (Fr, Fr) -> Fr, events: seq<Event>, k: nat): State
    requires k <= |events|
  {
    Exec(h, events[..k])
  }

  lemma {:induction false} ApplyConcat(h: (Fr, Fr) -> Fr, s: State, a: seq<Event>, b: seq<Event>)
    ensures ApplyAll(h, s, a + b) == ApplyAll(h, ApplyAll(h, s, a), b)
    decreases |a|
  {
    hide Apply;
    if a == [] {
      assert a + b == b;
    } else {
      assert (a + b)[1..] == a[1..] + b;
      ApplyConcat(h, Apply(h, s, a[0]), a[1..], b);
    }
  }

  lemma LastStep(h: (Fr, Fr) -> Fr, events: seq<Event>)
    requires events != []
    ensures Exec(h, events) == Apply(h, Exec(h, events[..|events| - 1]), events[|events| - 1])
  {
    hide Apply;
    var n := |events| - 1;
    assert events == events[..n] + [events[n]];
    ApplyConcat(h, INITIAL, events[..n], [events[n]]);
    assert [events[n]][1..] == [];
  }

  lemma SameLeavesGrow(db: Db, db': Db)
    requires LeavesKept(db, db')
    ensures Grows(db, db')
  {
    hide LeafList;
    forall issuer
      ensures LeafList(db, issuer) <= LeafList(db', issuer)
    {
      SameLeaves(db, db', issuer);
    }
  }

  /** Statements other than a commit leave the leaves alone and take nothing away. */
  ghost predicate LeavesKept(db: Db, db': Db) {
    db'.leaves == db.leaves && db.issuers.Keys <= db'.issuers.Keys && db.nullifiers <= db'.nullifiers
  }

  lemma RunKeepsLeaves(h: (Fr, Fr) -> Fr, s: State, id: nat)
    requires id in s.handlers && !(s.handlers[id].Add? && s.handlers[id].add.Inserted?)
    ensures LeavesKept(s.db, Apply(h, s, Run(id)).db)
  {
    hide Accept, ToHex, Root, ReadTree, CheckRoot, WithLeaf, Blocked, Commitment, NullifierOf, FailStep, DropStep,
      LostAckStep, VanishStep, Rows, OriginOf;
  }

  lemma FaultKeepsLeaves(h: (Fr, Fr) -> Fr, s: State, e: Event)
    requires e.id in s.handlers && !(s.handlers[e.id].Add? && s.handlers[e.id].add.Inserted?) && !e.Run?
    ensures LeavesKept(s.db, Apply(h, s, e).db)
  {
    hide Accept, ToHex, Root, RunStep, Commitment, NullifierOf, End;
  }

  lemma NewcomerKeepsLeaves(h: (Fr, Fr) -> Fr, s: State, e: Event)
    requires e.id !in s.handlers
    ensures LeavesKept(s.db, Apply(h, s, e).db)
  {
    hide Accept;
  }

  /** What a commit writes does not depend on who hears of it. */
  lemma CommitDb(s: State, id: nat, issuer: string, c: Fr, n: nat)
    ensures forall lost :: Commit(s, id, issuer, c, n, lost).db == Commit(s, id, issuer, c, n, None).db
  {
  }

  lemma CommitGrows(h: (Fr, Fr) -> Fr, s: State, e: Event)
    requires Inv(h, s) && e.id in s.handlers && s.handlers[e.id].Add? && s.handlers[e.id].add.Inserted?
    ensures Grows(s.db, Apply(h, s, e).db)
  {
    hide Inv, Grows, WithLeaf, ToHex, Accept, HandlerOk, LeafList, RunPublish, RunProve, WriteRoot, Note;
    var handler := s.handlers[e.id];
    SameLeavesGrow(s.db, s.db);
    RowCommitted(h, s, e.id, handler.commitment, handler.issuer, handler.add.n, None);
    CommitDb(s, e.id, handler.issuer, handler.commitment, handler.add.n);
  }

  /** No step takes a row back. */
  lemma StepGrows(h: (Fr, Fr) -> Fr, s: State, e: Event)
    requires Inv(h, s)
    ensures Grows(s.db, Apply(h, s, e).db)
  {
    hide Inv, Grows, Apply, LeavesKept;
    if e.id in s.handlers && s.handlers[e.id].Add? && s.handlers[e.id].add.Inserted? {
      CommitGrows(h, s, e);
    } else {
      if e.id !in s.handlers {
        NewcomerKeepsLeaves(h, s, e);
      } else if e.Run? {
        RunKeepsLeaves(h, s, e.id);
      } else {
        FaultKeepsLeaves(h, s, e);
      }
      SameLeavesGrow(s.db, Apply(h, s, e).db);
    }
  }

  lemma {:induction false} RunGrows(h: (Fr, Fr) -> Fr, s: State, events: seq<Event>)
    requires Inv(h, s)
    ensures Grows(s.db, ApplyAll(h, s, events).db)
    decreases |events|
  {
    hide Inv, Apply, Grows;
    if events == [] {
      SameLeavesGrow(s.db, s.db);
    } else {
      var s' := Apply(h, s, events[0]);
      StepKeepsInv(h, s, events[0]);
      StepGrows(h, s, events[0]);
      RunGrows(h, s', events[1..]);
      GrowsTransitive(s.db, s'.db, ApplyAll(h, s, events).db);
    }
  }

  lemma GrowsTransitive(a: Db, b: Db, c: Db)
    requires Grows(a, b) && Grows(b, c)
    ensures Grows(a, c)
  {
    hide LeafList;
  }

  /** A finished handler stays as it is. */
  lemma {:induction false} FinishedStays(h: (Fr, Fr) -> Fr, s: State, events: seq<Event>, id: nat)
    requires id in s.handlers && Finished(s.handlers[id])
    ensures var s' := ApplyAll(h, s, events); id in s'.handlers && s'.handlers[id] == s.handlers[id]
    decreases |events|
  {
    hide Apply;
    if events != [] {
      FinishedStep(h, s, events[0], id);
      FinishedStays(h, Apply(h, s, events[0]), events[1..], id);
    }
  }

  lemma FinishedStep(h: (Fr, Fr) -> Fr, s: State, e: Event, id: nat)
    requires id in s.handlers && Finished(s.handlers[id])
    ensures var s' := Apply(h, s, e); id in s'.handlers && s'.handlers[id] == s.handlers[id]
  {
    hide Accept, At, ToHex, Root, ReadTree, CheckRoot, WithLeaf, WithNullifier, WithRoot, WithIssuer, Commitment,
      NullifierOf;
    if e.id != id {
      OthersUntouched(h, s, e, id);
    }
  }

  /** A step changes no handler but its own. */
  lemma OthersUntouched(h: (Fr, Fr) -> Fr, s: State, e: Event, id: nat)
    requires e.id != id
    ensures var s' := Apply(h, s, e);
      (id in s'.handlers <==> id in s.handlers) && (id in s.handlers ==> s'.handlers[id] == s.handlers[id])
  {
    hide Accept, ToHex, Root, ReadTree, CheckRoot, WithLeaf, WithNullifier, WithRoot, WithIssuer, Commitment,
      NullifierOf, Blocked, End, SelectRoot, OriginOf;
  }

  // ---------- concurrent appends ----------

  /** The leaves of an issuer in the state that a run leads to. */
  function LeavesAfter(h: (Fr, Fr) -> Fr, events: seq<Event>, issuer: string): seq<Fr> {
    LeafList(Exec(h, events).db, issuer)
  }

  /**
   In every run the rows of every issuer stand at exactly the positions 0, 1, ..., n-1 with n at
   most the capacity, every row was committed by exactly one handler and holds its commitment,
   and reading them back never fails.
   */
  lemma RowsAreDense(h: (Fr, Fr) -> Fr, events: seq<Event>, issuer: string)
    ensures var s, list := Exec(h, events), LeavesAfter(h, events, issuer);
      && |list| <= CAPACITY
      && (forall k: nat :: k in Rows(s.db, issuer) <==> k < |list|)
      && SelectLeaves(s.db, issuer) == Success(list)
      && (forall k: nat :: k < |list| ==> Owned(s, issuer, k))
      && (forall id, k: nat :: Owns(s, id, issuer, k) ==> k < |list| && list[k] == s.handlers[id].commitment)
      && (forall id, id', k: nat :: Owns(s, id, issuer, k) && Owns(s, id', issuer, k) ==> id == id')
  {
    hide Apply, ToHex, FromHex, LeafList, SelectLeaves, ReadTree, Justified, RootOk;
    ReachableInv(h, events);
    var s := Exec(h, events);
    TableDense(s.db, issuer);
    SelectDense(s.db, issuer);
    forall id, k: nat | Owns(s, id, issuer, k)
      ensures k < |LeafList(s.db, issuer)| && LeafList(s.db, issuer)[k] == s.handlers[id].commitment
    {
      assert HandlerOk(h, s.db, s.handlers[id]);
    }
  }

  /** The client of an addition has received this position and count. */
  predicate WasTold(h: (Fr, Fr) -> Fr, s: State, id: nat, issuer: string, position: nat, count: nat) {
    && id in s.handlers && s.handlers[id].Add? && s.handlers[id].issuer == issuer
    && ReplyOf(h, s.handlers[id]) == Some(Added(position, count))
  }

  /**
   A client that is told a position and a count finds its commitment there, the count is one
   more than the position and within capacity, and no other client of this issuer is told the
   same position; all of this stays so for ever.
   */
  lemma AddedForEver(h: (Fr, Fr) -> Fr, events: seq<Event>, later: seq<Event>, id: nat, position: nat, count: nat)
    requires var s := Exec(h, events);
      id in s.handlers && s.handlers[id].Add? && WasTold(h, s, id, s.handlers[id].issuer, position, count)
    ensures var s := Exec(h, events + later);
      var list := LeafList(s.db, Exec(h, events).handlers[id].issuer);
      && id in s.handlers && s.handlers[id] == Exec(h, events).handlers[id]
      && count == position + 1 <= |list| <= CAPACITY
      && list[position] == s.handlers[id].commitment
      && LeavesAfter(h, events, s.handlers[id].issuer) <= list
      && forall id' :: WasTold(h, s, id', s.handlers[id].issuer, position, count) ==> id' == id
  {
    hide Apply, ToHex, Root, LeafList, Inv, NullifierOf, CAPACITY;
    var s, s' := Exec(h, events), Exec(h, events + later);
    var issuer := s.handlers[id].issuer;
    ApplyConcat(h, INITIAL, events, later);
    FinishedStays(h, s, later, id);
    ReachableInv(h, events);
    RunGrows(h, s, later);
    RowsAreDense(h, events + later, issuer);
    assert Owns(s', id, issuer, position);
    forall id' | WasTold(h, s', id', issuer, position, count)
      ensures id' == id
    {
      assert Owns(s', id', issuer, position);
    }
  }

  /**
   When an addition is refused: as full only if the tree is full, and as an internal error of
   its own insertion only if another handler has taken the position since it was counted.
   */
  lemma WhyAddFails(h: (Fr, Fr) -> Fr, events: seq<Event>, id: nat, issuer: string, c: Fr, step: AddStep)
    requires var s := Exec(h, events);
      id in s.handlers && s.handlers[id] == Add(issuer, c, step) && !step.AddFailed?
    ensures var s', list := Exec(h, events + [Run(id)]), LeavesAfter(h, events, issuer);
      && id in s'.handlers
      && (s'.handlers[id] == Add(issuer, c, AddFailed(Conflict)) <==> step == Registered && |list| == CAPACITY)
      && (s'.handlers[id] == Add(issuer, c, AddFailed(Internal))
          <==> step.Counted? && step.n < |list| && !Blocked(Exec(h, events), id, issuer, step.n))
  {
    hide Apply, ToHex, LeafList, Blocked, Dense;
    var s := Exec(h, events);
    ApplyConcat(h, INITIAL, events, [Run(id)]);
    assert [Run(id)][1..] == [];
    ReachableInv(h, events);
    TableDense(s.db, issuer);
    RowsAreDense(h, events, issuer);
    RunOutcome(h, s, id, issuer, c, step);
  }

  lemma RunOutcome(h: (Fr, Fr) -> Fr, s: State, id: nat, issuer: string, c: Fr, step: AddStep)
    requires Inv(h, s) && id in s.handlers && s.handlers[id] == Add(issuer, c, step) && !step.AddFailed?
    ensures var s', n := Apply(h, s, Run(id)), |LeafList(s.db, issuer)|;
      && id in s'.handlers
      && (s'.handlers[id] == Add(issuer, c, AddFailed(Conflict)) <==> step == Registered && n >= CAPACITY)
      && (s'.handlers[id] == Add(issuer, c, AddFailed(Internal))
          <==> step.Counted? && step.n in Rows(s.db, issuer) && !Blocked(s, id, issuer, step.n))
  {
    hide ToHex, LeafList, Blocked, Root, Justified, RootOk, PendingOk, OwnersOk;
    assert HandlerOk(h, s.db, s.handlers[id]);
    if step.Inserted? {
      RowCommitted(h, s, id, c, issuer, step.n, None);
    }
  }

  /**
   In every run a blocked insertion waits for exactly one other handler, which holds the position
   right behind the committed rows. That handler waits for nobody: its own next statement commits
   its row, and the insertion is no longer blocked. So waiting is never circular.
   */
  lemma BlockedByOne(h: (Fr, Fr) -> Fr, events: seq<Event>, id: nat, issuer: string, c: Fr, n: nat)
    returns (holder: nat)
    requires var s := Exec(h, events);
      id in s.handlers && s.handlers[id] == Add(issuer, c, Counted(n)) && Blocked(s, id, issuer, n)
    ensures var s, s' := Exec(h, events), Exec(h, events + [Run(holder)]);
      && holder != id && HoldsRow(s, holder, issuer)
      && (forall other :: HoldsRow(s, other, issuer) ==> other == holder)
      && n == |LeafList(s.db, issuer)|
      && holder in s'.handlers
      && s'.handlers[holder] == Add(issuer, s.handlers[holder].commitment, Committed(n, None))
      && LeafList(s'.db, issuer) == LeafList(s.db, issuer) + [s.handlers[holder].commitment]
      && id in s'.handlers && s'.handlers[id] == s.handlers[id] && !Blocked(s', id, issuer, n)
  {
    hide ApplyAll, LeafList, ToHex, Root, Inv, ReadTree, CheckRoot, WithLeaf, HandlerOk;
    var s := Exec(h, events);
    ReachableInv(h, events);
    HoldersAgree(h, s);
    holder :| holder in s.handlers && holder != id && HoldsRow(s, holder, issuer) && s.handlers[holder].add.n == n;
    RowCommitted(h, s, holder, s.handlers[holder].commitment, issuer, n, None);
    LastStep(h, events + [Run(holder)]);
    assert (events + [Run(holder)])[..|events|] == events;
    OthersUntouched(h, s, Run(holder), id);
    var s' := Exec(h, events + [Run(holder)]);
    forall other | other != holder
      ensures HoldsRow(s', other, issuer) ==> HoldsRow(s, other, issuer)
    {
      OthersUntouched(h, s, Run(holder), other);
    }
  }

  lemma HoldersAgree(h: (Fr, Fr) -> Fr, s: State)
    requires Inv(h, s)
    ensures PendingOk(s)
  {
  }

  // ---------- replies ----------

  /** The proof that answers a request, as the client receives it. */
  function ProofReply(h: (Fr, Fr) -> Fr, secret: Fr, t: Tree): Reply {
    Proved(ToHex(Root(h, t)), ToHex(NullifierOf(h, secret)))
  }

  predicate AtProof(handler: Handler) {
    handler.Prove? && handler.prove.ProofMade?
  }

  /** What becomes of an unfinished handler when its next statement does not simply succeed. */
  ghost predicate FaultsAnswer(h: (Fr, Fr) -> Fr, s: State, id: nat)
    requires id in s.handlers
  {
    var run, fail, drop := Apply(h, s, Run(id)), Apply(h, s, Fail(id)), Apply(h, s, Drop(id));
    var lost, vanish := Apply(h, s, LostAck(id)), Apply(h, s, Vanish(id));
    var answer := if AtProof(s.handlers[id])
                  then ProofReply(h, s.handlers[id].secret, s.handlers[id].prove.tree) else Refused(Internal);
    && id in fail.handlers && id in drop.handlers && id in lost.handlers && id in vanish.handlers
    && Finished(fail.handlers[id]) && Finished(drop.handlers[id])
    && Finished(lost.handlers[id]) && Finished(vanish.handlers[id])
    && fail.db == drop.db == s.db && lost.db == vanish.db == run.db
    && ReplyOf(h, fail.handlers[id]) == ReplyOf(h, lost.handlers[id]) == Some(answer)
    && ReplyOf(h, drop.handlers[id]) == ReplyOf(h, vanish.handlers[id]) == None
  }

  /**
   In every run: a failed statement of an unfinished handler leaves the database alone and is
   answered as an internal error, a lost acknowledgement leaves the database as the statement
   would and is answered the same way; only the note of a nullifier is not worth an error, the
   request is answered with its proof. A client that has gone away is not answered, before the
   statement takes effect or after it.
   */
  lemma FaultOutcomes(h: (Fr, Fr) -> Fr, events: seq<Event>, id: nat)
    requires id in Exec(h, events).handlers && !Finished(Exec(h, events).handlers[id])
    ensures FaultsAnswer(h, Exec(h, events), id)
  {
    hide Apply, ApplyAll, Inv, FaultsAnswer;
    var s := Exec(h, events);
    ReachableInv(h, events);
    match s.handlers[id]
    case Rejected =>
    case Add(_, _, _) => AddFaults(h, s, id);
    case Publish(_, _) => PublishFaults(h, s, id);
    case Prove(_, _, _) => ProveFaults(h, s, id);
  }

  lemma AddFaults(h: (Fr, Fr) -> Fr, s: State, id: nat)
    requires Inv(h, s) && id in s.handlers && s.handlers[id].Add? && !Finished(s.handlers[id])
    ensures FaultsAnswer(h, s, id)
  {
    hide Inv, HandlerOk, LeafList, ToHex, Root, WithLeaf, WithIssuer, RunPublish, RunProve, NullifierOf, Rows, Blocked;
    var Add(issuer, c, step) := s.handlers[id];
    if step.Inserted? {
      RowCommitted(h, s, id, c, issuer, step.n, None);
    }
  }

  lemma PublishFaults(h: (Fr, Fr) -> Fr, s: State, id: nat)
    requires id in s.handlers && s.handlers[id].Publish? && !Finished(s.handlers[id])
    ensures FaultsAnswer(h, s, id)
  {
    hide ToHex, Root, WithRoot, WithIssuer, RunAdd, RunProve, NullifierOf, ReadTree;
  }

  lemma ProveFaults(h: (Fr, Fr) -> Fr, s: State, id: nat)
    requires id in s.handlers && s.handlers[id].Prove? && !Finished(s.handlers[id])
    ensures FaultsAnswer(h, s, id)
  {
    hide ToHex, Root, RunAdd, RunPublish, NullifierOf, ReadTree, CheckRoot, WithNullifier, Commitment;
  }

  /** What the next statement of a publish or a proof request leads to when it succeeds. */
  ghost predicate StatementAnswers(h: (Fr, Fr) -> Fr, s: State, id: nat)
    requires id in s.handlers && (s.handlers[id].Publish? || s.handlers[id].Prove?)
  {
    var s', list := Apply(h, s, Run(id)), LeafList(s.db, s.handlers[id].issuer);
    && id in s'.handlers && |list| <= CAPACITY
    && match s.handlers[id]
       case Publish(issuer, PublishStart) =>
         if list == [] then ReplyOf(h, s'.handlers[id]) == Some(Refused(BadRequest))
         else s'.handlers[id] == Publish(issuer, Computed(list))
       case Prove(issuer, secret, ProveStart) =>
         if list == [] then ReplyOf(h, s'.handlers[id]) == Some(Refused(NotFound))
         else s'.handlers[id] == Prove(issuer, secret, LeavesRead(list))
       case Prove(issuer, secret, RootChecked(t, p)) =>
         if h(secret, 1) in t then s'.handlers[id] == Prove(issuer, secret, ProofMade(t, p))
         else ReplyOf(h, s'.handlers[id]) == Some(Refused(NotFound))
       case Prove(issuer, secret, ProofMade(t, p)) =>
         && ReplyOf(h, s'.handlers[id]) == Some(ProofReply(h, secret, t))
         && (issuer, ToHex(h(secret, 2))) in s'.db.nullifiers
       case _ => true
  }

  /**
   In every run: no leaves are a bad request for publish and not found for prove, a foreign secret
   is not found, and a proof is answered, with its nullifier noted; everything else goes on with
   the issuer's whole list. (The check of the root is the subject of Staleness.)
   */
  lemma StatementOutcomes(h: (Fr, Fr) -> Fr, events: seq<Event>, id: nat)
    requires var s := Exec(h, events); id in s.handlers && (s.handlers[id].Publish? || s.handlers[id].Prove?)
    ensures StatementAnswers(h, Exec(h, events), id)
  {
    hide Apply, ApplyAll, LeafList, Inv, StatementAnswers, TablesOk, HandlerOk;
    var s := Exec(h, events);
    ReachableInv(h, events);
    StepOk(h, s, id);
    if s.handlers[id].Publish? {
      PublishStatement(h, s, id);
    } else {
      ProveStatement(h, s, id);
    }
  }

  lemma PublishStatement(h: (Fr, Fr) -> Fr, s: State, id: nat)
    requires TablesOk(s.db) && id in s.handlers && s.handlers[id].Publish?
    ensures StatementAnswers(h, s, id)
  {
    hide LeafList, ToHex, Root, ReadTree, TablesOk, RunAdd, RunProve, WriteRoot, WithIssuer, ProofReply;
    ReadTreeOk(s.db, s.handlers[id].issuer, BadRequest);
    KindStays(h, s, id);
  }

  lemma ProveStatement(h: (Fr, Fr) -> Fr, s: State, id: nat)
    requires TablesOk(s.db) && id in s.handlers && HandlerOk(h, s.db, s.handlers[id]) && s.handlers[id].Prove?
    ensures StatementAnswers(h, s, id)
  {
    hide LeafList, ToHex, Root, ReadTree, CheckRoot, TablesOk, RunAdd, RunPublish, HandlerOk, OriginOf;
    ReadTreeOk(s.db, s.handlers[id].issuer, NotFound);
    if AtProof(s.handlers[id]) {
      ProvedIssuer(h, s.db, s.handlers[id].issuer, s.handlers[id]);
    }
  }

  /** Who has a proof has read leaves, and leaves have an issuer. */
  lemma ProvedIssuer(h: (Fr, Fr) -> Fr, db: Db, issuer: string, handler: Handler)
    requires TablesOk(db) && HandlerOk(h, db, handler) && AtProof(handler) && handler.issuer == issuer
    ensures issuer in db.issuers
  {
    hide ToHex, Root;
  }

  /** The publish has answered with the root of these leaves. */
  predicate HasPublished(s: State, id: nat, issuer: string, t: Tree) {
    id in s.handlers && s.handlers[id] == Publish(issuer, Published(t, None))
  }

  lemma StepPublishes(h: (Fr, Fr) -> Fr, s: State, e: Event, id: nat, issuer: string, t: Tree)
    requires Inv(h, s) && !HasPublished(s, id, issuer, t) && HasPublished(Apply(h, s, e), id, issuer, t)
    ensures e == Run(id) && id in s.handlers && s.handlers[id] == Publish(issuer, Ensured(t))
    ensures SelectRoot(Apply(h, s, e).db, issuer) == Success(Some(Root(h, t)))
  {
    hide Inv, ToHex, FromHex, Root, ReadTree, CheckRoot, WithNullifier, WithIssuer, WithLeaf, LeafList, NullifierOf,
      RunAdd, RunProve, Accept, HandlerOk;
    if e.id != id {
      OthersUntouched(h, s, e, id);
    } else if e == Run(id) && id in s.handlers {
      KindStays(h, s, id);
      StepOk(h, s, id);
      StoredRoundTrip(Root(h, t));
      PublishOkUnfolds(h, s.db, s.handlers[id].issuer);
    }
  }

  // ---------- published roots ----------

  /**
   In every run a published root is the root of the first m leaves of the issuer for some m > 0,
   even when a slow publish has overwritten a newer one; and it is never unreadable.
   */
  lemma PublishedRootIsOfPrefix(h: (Fr, Fr) -> Fr, events: seq<Event>, issuer: string) returns (m: nat)
    ensures var r, list := SelectRoot(Exec(h, events).db, issuer), LeavesAfter(h, events, issuer);
      && m <= |list| <= CAPACITY
      && r.Success?
      && (r.value.Some? <==> m > 0)
      && (r.value.Some? ==> r.value.value == RootOf(h, list[..m], Circuit.DEPTH))
  {
    hide Apply, ToHex, FromHex, LeafList, SelectRoot, TreeRoot;
    var s := Exec(h, events);
    ReachableInv(h, events);
    RowsAreDense(h, events, issuer);
    assert RootOk(h, s, issuer);
    SelectRootOk(h, s, issuer);
    if HasRoot(s.db, issuer) {
      m := |s.origin[issuer]|;
      assert s.origin[issuer] == LeafList(s.db, issuer)[..m];
    } else {
      m := 0;
    }
  }

  // ---------- proofs and publishes ----------

  /** The proof request has read these leaves. */
  predicate HasRead(s: State, id: nat, issuer: string, t: Tree) {
    && id in s.handlers && s.handlers[id].Prove? && s.handlers[id].issuer == issuer
    && match s.handlers[id].prove
       case LeavesRead(t') => t' == t
       case RootChecked(t', _) => t' == t
       case ProofMade(t', _) => t' == t
       case Responded(t', _, _) => t' == t
       case _ => false
  }

  /** The proof request has passed the comparison with the published root, whose origin was p. */
  predicate HasChecked(s: State, id: nat, issuer: string, t: Tree, p: Tree) {
    && id in s.handlers && s.handlers[id].Prove? && s.handlers[id].issuer == issuer
    && match s.handlers[id].prove
       case RootChecked(t', p') => t' == t && p' == p
       case ProofMade(t', p') => t' == t && p' == p
       case Responded(t', p', _) => t' == t && p' == p
       case _ => false
  }

  /** The publish has read these leaves and computed their root. */
  predicate HasComputed(s: State, id: nat, issuer: string, t: Tree) {
    && id in s.handlers && s.handlers[id].Publish? && s.handlers[id].issuer == issuer
    && match s.handlers[id].publish
       case Computed(t') => t' == t
       case Ensured(t') => t' == t
       case Published(t', _) => t' == t
       case _ => false
  }

  /** Failures, departures and lost acknowledgements read and check nothing. */
  lemma ErrorsObserveNothing(h: (Fr, Fr) -> Fr, s: State, e: Event, issuer: string)
    requires e.Fail? || e.Drop? || e.LostAck? || e.Vanish?
    ensures var s' := Apply(h, s, e);
      && (forall t :: HasRead(s', e.id, issuer, t) ==> HasRead(s, e.id, issuer, t))
      && (forall t, p :: HasChecked(s', e.id, issuer, t, p) ==> HasChecked(s, e.id, issuer, t, p))
      && (forall t :: HasComputed(s', e.id, issuer, t) ==> HasComputed(s, e.id, issuer, t))
  {
    hide ToHex, Root, ReadTree, CheckRoot, WithNullifier, WithRoot, WithIssuer, WithLeaf, LeafList, Commitment,
      NullifierOf, RunAdd, RunPublish, RunProve, Blocked, Accept;
  }

  lemma ArrivalsObserveNothing(h: (Fr, Fr) -> Fr, s: State, e: Event, issuer: string)
    requires e.Arrive?
    ensures var s' := Apply(h, s, e);
      && (forall t :: HasRead(s', e.id, issuer, t) ==> HasRead(s, e.id, issuer, t))
      && (forall t, p :: HasChecked(s', e.id, issuer, t, p) ==> HasChecked(s, e.id, issuer, t, p))
      && (forall t :: HasComputed(s', e.id, issuer, t) ==> HasComputed(s, e.id, issuer, t))
  {
    hide Accept;
  }

  /** Only its own next statement makes a handler observe anything. */
  lemma ObserversRun(h: (Fr, Fr) -> Fr, s: State, e: Event, id: nat, issuer: string)
    requires e != Run(id) || id !in s.handlers
    ensures var s' := Apply(h, s, e);
      && (forall t :: HasRead(s', id, issuer, t) ==> HasRead(s, id, issuer, t))
      && (forall t, p :: HasChecked(s', id, issuer, t, p) ==> HasChecked(s, id, issuer, t, p))
      && (forall t :: HasComputed(s', id, issuer, t) ==> HasComputed(s, id, issuer, t))
  {
    if e.id != id {
      hide Apply;
      OthersUntouched(h, s, e, id);
    } else if e.Arrive? {
      hide Apply;
      ArrivalsObserveNothing(h, s, e, issuer);
    } else if !e.Run? {
      hide Apply;
      ErrorsObserveNothing(h, s, e, issuer);
    }
  }

  lemma KindStays(h: (Fr, Fr) -> Fr, s: State, id: nat)
    requires id in s.handlers
    ensures var s' := Apply(h, s, Run(id));
      && id in s'.handlers
      && (s'.handlers[id].Prove? <==> s.handlers[id].Prove?)
      && (s'.handlers[id].Publish? <==> s.handlers[id].Publish?)
  {
    hide ToHex, Root, ReadTree, CheckRoot, WithNullifier, WithRoot, WithIssuer, WithLeaf, Commitment, NullifierOf,
      Blocked, FailStep, DropStep, LostAckStep, VanishStep, Accept, Rows;
  }

  lemma RunReads(h: (Fr, Fr) -> Fr, s: State, id: nat, t: Tree)
    requires TablesOk(s.db) && id in s.handlers && s.handlers[id].Prove?
    requires var p := s.handlers[id];
      HasRead(RunProve(h, s, id, p.issuer, p.secret, p.prove), id, p.issuer, t) && !HasRead(s, id, p.issuer, t)
    ensures LeafList(s.db, s.handlers[id].issuer) == t
  {
    hide TablesOk, ToHex, Root, ReadTree, CheckRoot, WithNullifier, LeafList, Commitment, NullifierOf, OriginOf;
    ReadTreeOk(s.db, s.handlers[id].issuer, NotFound);
  }

  lemma StepReads(h: (Fr, Fr) -> Fr, s: State, e: Event, id: nat, issuer: string, t: Tree)
    requires Inv(h, s) && !HasRead(s, id, issuer, t) && HasRead(Apply(h, s, e), id, issuer, t)
    ensures e == Run(id) && LeafList(s.db, issuer) == t
  {
    hide Inv, LeafList, RunAdd, RunPublish, Accept, FailStep, DropStep, LostAckStep, VanishStep, TablesOk, RootOk,
      HandlerOk;
    if e != Run(id) || id !in s.handlers {
      ObserversRun(h, s, e, id, issuer);
    } else {
      KindStays(h, s, id);
      StepOk(h, s, id);
      IssuerStays(h, s, id);
      RunReads(h, s, id, t);
    }
  }

  lemma IssuerStays(h: (Fr, Fr) -> Fr, s: State, id: nat)
    requires id in s.handlers && s.handlers[id].Prove?
    ensures var s' := Apply(h, s, Run(id));
      id in s'.handlers && s'.handlers[id].Prove? && s'.handlers[id].issuer == s.handlers[id].issuer
  {
    hide ToHex, Root, ReadTree, CheckRoot, WithNullifier, Commitment, NullifierOf, OriginOf;
  }

  lemma StepChecks(h: (Fr, Fr) -> Fr, s: State, e: Event, id: nat, issuer: string, t: Tree, p: Tree)
    requires !HasChecked(s, id, issuer, t, p) && HasChecked(Apply(h, s, e), id, issuer, t, p)
    ensures e == Run(id) && HasRead(s, id, issuer, t)
    ensures SelectRoot(s.db, issuer) == Success(Some(Root(h, t))) && OriginOf(s, issuer) == p
  {
    hide ToHex, Root, ReadTree, CheckRoot, WithNullifier, WithRoot, WithIssuer, WithLeaf, LeafList, Commitment,
      NullifierOf, RunAdd, RunPublish, Blocked, Accept, SelectRoot, FailStep, DropStep, LostAckStep, VanishStep;
    if e != Run(id) || id !in s.handlers {
      ObserversRun(h, s, e, id, issuer);
    } else {
      KindStays(h, s, id);
    }
  }

  lemma StepComputes(h: (Fr, Fr) -> Fr, s: State, e: Event, id: nat, issuer: string, t: Tree)
    requires Inv(h, s) && !HasComputed(s, id, issuer, t) && HasComputed(Apply(h, s, e), id, issuer, t)
    ensures e == Run(id) && LeafList(s.db, issuer) == t
  {
    hide Inv, ToHex, Root, ReadTree, CheckRoot, WithNullifier, WithRoot, WithIssuer, WithLeaf, LeafList, Commitment,
      NullifierOf, RunAdd, RunProve, Blocked, Accept, FailStep, DropStep, LostAckStep, VanishStep;
    if e != Run(id) || id !in s.handlers {
      ObserversRun(h, s, e, id, issuer);
    } else {
      KindStays(h, s, id);
    }
    StepOk(h, s, id);
    ReadTreeOk(s.db, issuer, BadRequest);
  }

  /** The statement that a handler waits for is executed, whatever becomes of the reply. */
  predicate TakesEffect(e: Event) {
    e.Run? || e.LostAck? || e.Vanish?
  }

  /** The origin of a published root only changes when a publish writes the root. */
  lemma StepWrites(h: (Fr, Fr) -> Fr, s: State, e: Event, issuer: string)
    requires OriginOf(Apply(h, s, e), issuer) != OriginOf(s, issuer)
    ensures TakesEffect(e) && HasComputed(s, e.id, issuer, OriginOf(Apply(h, s, e), issuer))
    ensures s.handlers[e.id].publish.Ensured?
  {
    hide ToHex, Root, ReadTree, CheckRoot, WithNullifier, WithRoot, WithIssuer, LeafList, Commitment, NullifierOf,
      Blocked, Accept, WithLeaf, SelectRoot;
  }

  lemma StatesAt(h: (Fr, Fr) -> Fr, events: seq<Event>, k: nat)
    requires k < |events|
    ensures forall j: nat :: j <= k ==> StateAt(h, events, j) == StateAt(h, events[..k], j)
    ensures StateAt(h, events, |events|) == Exec(h, events)
  {
    hide Apply, Exec;
    assert forall j: nat :: j <= k ==> events[..k][..j] == events[..j];
    assert events[..|events|] == events;
  }

  lemma NothingYet(h: (Fr, Fr) -> Fr, events: seq<Event>, id: nat, issuer: string, t: Tree)
    ensures HasRead(Exec(h, events), id, issuer, t) || HasComputed(Exec(h, events), id, issuer, t) ==> events != []
    ensures OriginOf(Exec(h, events), issuer) != [] ==> events != []
  {
  }

  /** The leaves in a proof request were the whole list when its first statement ran. */
  lemma {:induction false} ReadAt(
      h: (Fr, Fr) -> Fr, events: seq<Event>, id: nat, issuer: string, t: Tree) returns (i: nat)
    requires HasRead(Exec(h, events), id, issuer, t)
    ensures i < |events| && events[i] == Run(id) && LeafList(StateAt(h, events, i).db, issuer) == t
  {
    hide Apply, HasRead, LeafList;
    NothingYet(h, events, id, issuer, t);
    var n := |events| - 1;
    LastStep(h, events);
    StatesAt(h, events, n);
    if HasRead(Exec(h, events[..n]), id, issuer, t) {
      i := ReadAt(h, events[..n], id, issuer, t);
    } else {
      i := n;
      ReachableInv(h, events[..n]);
      StepReads(h, Exec(h, events[..n]), events[n], id, issuer, t);
    }
  }

  lemma CheckedHasRead(s: State, id: nat, issuer: string, t: Tree, p: Tree)
    requires HasChecked(s, id, issuer, t, p)
    ensures HasRead(s, id, issuer, t)
  {
  }

  /** When its second statement ran, their root was the published root. */
  lemma {:induction false} CheckedAt(
      h: (Fr, Fr) -> Fr, events: seq<Event>, id: nat, issuer: string, t: Tree, p: Tree) returns (i: nat, k: nat)
    requires HasChecked(Exec(h, events), id, issuer, t, p)
    ensures i < k < |events| && events[i] == events[k] == Run(id)
    ensures LeafList(StateAt(h, events, i).db, issuer) == t
    ensures var s := StateAt(h, events, k);
      SelectRoot(s.db, issuer) == Success(Some(Root(h, t))) && OriginOf(s, issuer) == p
  {
    hide Apply, HasRead, HasChecked, LeafList, SelectRoot;
    CheckedHasRead(Exec(h, events), id, issuer, t, p);
    NothingYet(h, events, id, issuer, t);
    var n := |events| - 1;
    LastStep(h, events);
    StatesAt(h, events, n);
    if HasChecked(Exec(h, events[..n]), id, issuer, t, p) {
      i, k := CheckedAt(h, events[..n], id, issuer, t, p);
    } else {
      StepChecks(h, Exec(h, events[..n]), events[n], id, issuer, t, p);
      i := ReadAt(h, events[..n], id, issuer, t);
      k := n;
    }
  }

  lemma {:induction false} ComputedAt(
      h: (Fr, Fr) -> Fr, events: seq<Event>, id: nat, issuer: string, t: Tree) returns (i: nat)
    requires HasComputed(Exec(h, events), id, issuer, t)
    ensures i < |events| && events[i] == Run(id) && LeafList(StateAt(h, events, i).db, issuer) == t
  {
    hide Apply, HasComputed, LeafList;
    NothingYet(h, events, id, issuer, t);
    var n := |events| - 1;
    LastStep(h, events);
    StatesAt(h, events, n);
    if HasComputed(Exec(h, events[..n]), id, issuer, t) {
      i := ComputedAt(h, events[..n], id, issuer, t);
    } else {
      i := n;
      ReachableInv(h, events[..n]);
      StepComputes(h, Exec(h, events[..n]), events[n], id, issuer, t);
    }
  }

  lemma ComputedTree(s: State, id: nat, issuer: string, t: Tree)
    requires HasComputed(s, id, issuer, t) && s.handlers[id].publish.Ensured?
    ensures id in s.handlers && s.handlers[id] == Publish(issuer, Ensured(t))
  {
  }

  /**
   A publish that has answered with a root read the leaves of that root as the whole list, and
   when it answered this root was the published one.
   */
  lemma {:induction false} PublishReplied(h: (Fr, Fr) -> Fr, events: seq<Event>, id: nat, issuer: string, t: Tree)
    returns (i: nat, k: nat)
    requires HasPublished(Exec(h, events), id, issuer, t)
    ensures ReplyOf(h, Exec(h, events).handlers[id]) == Some(RootIs(ToHex(Root(h, t))))
    ensures i < k < |events| && events[i] == events[k] == Run(id)
    ensures LeafList(StateAt(h, events, i).db, issuer) == t
    ensures SelectRoot(StateAt(h, events, k + 1).db, issuer) == Success(Some(Root(h, t)))
  {
    hide Apply, HasComputed, LeafList, SelectRoot, ToHex, Root;
    PublishedHasComputed(Exec(h, events), id, issuer, t);
    NothingYet(h, events, id, issuer, t);
    var n := |events| - 1;
    LastStep(h, events);
    StatesAt(h, events, n);
    var s := Exec(h, events[..n]);
    if HasPublished(s, id, issuer, t) {
      i, k := PublishReplied(h, events[..n], id, issuer, t);
    } else {
      ReachableInv(h, events[..n]);
      StepPublishes(h, s, events[n], id, issuer, t);
      EnsuredHasComputed(s, id, issuer, t);
      i := ComputedAt(h, events[..n], id, issuer, t);
      k := n;
    }
  }

  lemma PublishedHasComputed(s: State, id: nat, issuer: string, t: Tree)
    requires HasPublished(s, id, issuer, t)
    ensures HasComputed(s, id, issuer, t)
  {
  }

  lemma EnsuredHasComputed(s: State, id: nat, issuer: string, t: Tree)
    requires id in s.handlers && s.handlers[id] == Publish(issuer, Ensured(t))
    ensures HasComputed(s, id, issuer, t)
  {
  }

  /** The issuer's published root is that of t, and t is remembered as its origin. */
  ghost predicate Rooted(h: (Fr, Fr) -> Fr, s: State, issuer: string, t: Tree) {
    OriginOf(s, issuer) == t && SelectRoot(s.db, issuer) == Success(Some(Root(h, t)))
  }

  lemma OriginIsRoot(h: (Fr, Fr) -> Fr, events: seq<Event>, issuer: string)
    ensures var s := Exec(h, events); OriginOf(s, issuer) != [] ==> Rooted(h, s, issuer, OriginOf(s, issuer))
  {
    hide Apply, LeafList, ToHex, Root, SelectRoot, Exec;
    ReachableInv(h, events);
    SelectRootOk(h, Exec(h, events), issuer);
  }

  /**
   A published root was written by an event of the publish whose leaves it comes from; those
   leaves were the whole list when that publish read them; and from the write on the root is
   the published one.
   */
  lemma {:induction false} WrittenAt(h: (Fr, Fr) -> Fr, events: seq<Event>, issuer: string)
    returns (i: nat, k: nat, id: nat)
    requires OriginOf(Exec(h, events), issuer) != []
    ensures i < k < |events| && events[i] == Run(id) && TakesEffect(events[k]) && events[k].id == id
    ensures var t := OriginOf(Exec(h, events), issuer);
      && LeafList(StateAt(h, events, i).db, issuer) == t
      && id in StateAt(h, events, k).handlers && StateAt(h, events, k).handlers[id] == Publish(issuer, Ensured(t))
      && forall j: nat :: k < j <= |events| ==> Rooted(h, StateAt(h, events, j), issuer, t)
  {
    hide Apply, HasComputed, LeafList, Rooted, OriginOf, TakesEffect;
    NothingYet(h, events, 0, issuer, []);
    var n := |events| - 1;
    LastStep(h, events);
    StatesAt(h, events, n);
    OriginIsRoot(h, events, issuer);
    var s, t := Exec(h, events[..n]), OriginOf(Exec(h, events), issuer);
    if OriginOf(s, issuer) == t {
      i, k, id := WrittenAt(h, events[..n], issuer);
    } else {
      StepWrites(h, s, events[n], issuer);
      k, id := n, events[n].id;
      i := ComputedAt(h, events[..n], id, issuer, t);
      ComputedTree(s, id, issuer, t);
    }
  }

  /**
   Every successful proof response, under any interleaving: the leaves it proves against were
   the issuer's whole list when they were read; at the later moment of the check their root was
   the published root; that root had been written by an event of a publish which had itself read
   the whole list, and had been the published one ever since; and the two lists fill the same
   padded layer, unless the hash collides.
   */
  lemma ProofAgreesWithPublish(h: (Fr, Fr) -> Fr, events: seq<Event>, id: nat)
    returns (read: nat, check: nat, publishRead: nat, publishWrite: nat, publisher: nat)
    requires var s := Exec(h, events); id in s.handlers && s.handlers[id].Prove? && s.handlers[id].prove.Responded?
    ensures var Prove(issuer, secret, Responded(t, p, _)) := Exec(h, events).handlers[id];
      && read < check < |events| && events[read] == events[check] == Run(id)
      && LeafList(StateAt(h, events, read).db, issuer) == t
      && SelectRoot(StateAt(h, events, check).db, issuer) == Success(Some(Root(h, t)))
      && Commitment(h, secret) in t
      && publishRead < publishWrite < check && events[publishRead] == Run(publisher)
      && TakesEffect(events[publishWrite]) && events[publishWrite].id == publisher
      && LeafList(StateAt(h, events, publishRead).db, issuer) == p
      && publisher in StateAt(h, events, publishWrite).handlers
      && StateAt(h, events, publishWrite).handlers[publisher] == Publish(issuer, Ensured(p))
      && (forall j: nat :: publishWrite < j <= check ==> Rooted(h, StateAt(h, events, j), issuer, p))
      && var c := LeavesCollision(h, t, p, Circuit.DEPTH);
         (c.Some? && Collides(h, c.value)) || Padded(t, Circuit.DEPTH) == Padded(p, Circuit.DEPTH)
  {
    hide Apply, LeafList, SelectRoot, ToHex, TreeRoot, LayerCollision, Padded, Inv, Rooted, TakesEffect;
    var s := Exec(h, events);
    var Prove(issuer, secret, Responded(t, p, _)) := s.handlers[id];
    ReachableInv(h, events);
    StepOk(h, s, id);
    assert HasChecked(s, id, issuer, t, p);
    read, check := CheckedAt(h, events, id, issuer, t, p);
    publishRead, publishWrite, publisher := WrittenAt(h, events[..check], issuer);
    StatesAt(h, events, check);
    RootBinds(h, Circuit.DEPTH, Padded(t, Circuit.DEPTH), Padded(p, Circuit.DEPTH));
  }

  // ---------- nullifier rows ----------

  /** Commitments and nullifiers are hashes under different second inputs: a common value is a collision. */
  lemma DomainsSeparate(h: (Fr, Fr) -> Fr, secret: Fr, secret': Fr)
    ensures NullifierOf(h, secret) == Commitment(h, secret')
       <==> Collides(h, Collision(secret, 2, secret', 1))
  {
  }

  /** Every recorded nullifier belongs to a secret whose commitment is one of the issuer's leaves. */
  lemma NullifierHasLeaf(h: (Fr, Fr) -> Fr, events: seq<Event>, row: (string, string)) returns (secret: Fr, k: nat)
    requires row in Exec(h, events).db.nullifiers
    ensures row.1 == ToHex(NullifierOf(h, secret))
    ensures var list := LeavesAfter(h, events, row.0); k < |list| && list[k] == Commitment(h, secret)
  {
    hide Apply, LeafList, ToHex;
    ReachableInv(h, events);
    var db := Exec(h, events).db;
    assert Justified(h, db, row);
    secret :| Vouches(h, db, row, secret);
    k :| 0 <= k < |LeafList(db, row.0)| && LeafList(db, row.0)[k] == Commitment(h, secret);
  }

  lemma NoteAgain(h: (Fr, Fr) -> Fr, s: State, id: nat, issuer: string, secret: Fr, t: Tree, p: Tree)
    requires (issuer, ToHex(NullifierOf(h, secret))) in s.db.nullifiers
    ensures Note(h, s, id, issuer, secret, t, p).db == s.db
  {
    hide ToHex, NullifierOf;
    var row := (issuer, ToHex(NullifierOf(h, secret)));
    assert s.db.nullifiers + {row} == s.db.nullifiers;
  }

  /** The only statement of a proof request that writes is the note of its nullifier. */
  lemma ProveEventDb(h: (Fr, Fr) -> Fr, s: State, e: Event, issuer: string, secret: Fr)
    requires e.id in s.handlers && s.handlers[e.id].Prove?
    requires s.handlers[e.id].issuer == issuer && s.handlers[e.id].secret == secret
    requires forall t, p :: Note(h, s, e.id, issuer, secret, t, p).db == s.db
    ensures Apply(h, s, e).db == s.db
  {
    hide ToHex, ReadTree, CheckRoot, Root, RunAdd, RunPublish, Note, Accept, Commitment, OriginOf, End;
  }

  /** Once a nullifier has been noted, no event of a request with the same secret changes the database. */
  lemma RepeatedProof(h: (Fr, Fr) -> Fr, events: seq<Event>, e: Event)
    requires var s := Exec(h, events);
      && e.id in s.handlers && s.handlers[e.id].Prove?
      && (s.handlers[e.id].issuer, ToHex(NullifierOf(h, s.handlers[e.id].secret))) in s.db.nullifiers
    ensures Exec(h, events + [e]).db == Exec(h, events).db
  {
    hide Apply, ApplyAll, LeafList, ToHex, NullifierOf, Note;
    var s := Exec(h, events);
    LastStep(h, events + [e]);
    assert (events + [e])[..|events|] == events;
    var issuer, secret := s.handlers[e.id].issuer, s.handlers[e.id].secret;
    forall t: Tree, p: Tree
      ensures Note(h, s, e.id, issuer, secret, t, p).db == s.db
    {
      NoteAgain(h, s, e.id, issuer, secret, t, p);
    }
    ProveEventDb(h, s, e, issuer, secret);
  }

  /** A set that is numbered below n without repetition has at most n elements. */
  lemma {:induction false} NumberedSet<T>(rows: set<T>, number: map<T, nat>, n: nat)
    requires forall r :: r in rows ==> r in number && number[r] < n
    requires forall r, r' :: r in rows && r' in rows && number[r] == number[r'] ==> r == r'
    ensures |rows| <= n
  {
    if n == 0 {
      assert rows == {};
    } else if top :| top in rows && number[top] == n - 1 {
      NumberedSet(rows - {top}, number, n - 1);
    } else {
      NumberedSet(rows, number, n - 1);
    }
  }

  function RowsOf(db: Db, issuer: string): set<(string, string)> {
    set row | row in db.nullifiers && row.0 == issuer
  }

  /** An issuer never has more recorded nullifiers than leaves, unless two secrets have the same commitment. */
  lemma NoMoreNullifiersThanLeaves(h: (Fr, Fr) -> Fr, events: seq<Event>, issuer: string)
    returns (c: Option<Collision<Fr>>)
    ensures if c.Some? then Collides(h, c.value)
            else |RowsOf(Exec(h, events).db, issuer)| <= |LeavesAfter(h, events, issuer)|
  {
    hide Apply, LeafList, ToHex;
    var list, rows := LeavesAfter(h, events, issuer), RowsOf(Exec(h, events).db, issuer);
    var number: map<(string, string), nat>, secrets: map<(string, string), Fr> := map[], map[];
    var left := rows;
    while left != {}
      invariant left <= rows
      invariant forall r :: r in rows && r !in left ==> Numbered(h, list, number, secrets, r)
      decreases left
    {
      var r :| r in left;
      var secret, k := NullifierHasLeaf(h, events, r);
      number, secrets, left := number[r := k], secrets[r := secret], left - {r};
    }
    if r, r' :| r in rows && r' in rows && number[r] == number[r'] && r != r' {
      assert Numbered(h, list, number, secrets, r) && Numbered(h, list, number, secrets, r');
      c := Some(Collision(secrets[r], LEAF_DOMAIN, secrets[r'], LEAF_DOMAIN));
    } else {
      NumberedSet(rows, number, |list|);
      c := None;
    }
  }

  /** The row has been given a leaf position, through a secret with its nullifier. */
  predicate Numbered(h: (Fr, Fr) -> Fr, list: seq<Fr>, number: map<(string, string), nat>,
                     secrets: map<(string, string), Fr>, r: (string, string))
  {
    && r in number && r in secrets
    && r.1 == ToHex(NullifierOf(h, secrets[r]))
    && number[r] < |list| && list[number[r]] == Commitment(h, secrets[r])
  }
}
