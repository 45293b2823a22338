/**
 What every reachable state of the protocol satisfies, and the proof that each step of each
 handler keeps it, whatever the other handlers do in between.
 */
module Invariant {
  import opened Wrappers
  import opened Field
  import opened Encoding
  import opened Storage
  import opened Protocol

  // ---------- the invariant ----------

  /** Leaves that were the issuer's whole list at some time. */
  ghost predicate Snapshot(db: Db, issuer: string, t: Tree) {
    t != [] && t <= LeafList(db, issuer)
  }

  ghost predicate TablesOk(db: Db) {
    forall issuer :: issuer in db.leaves ==> issuer in db.issuers && Dense(Rows(db, issuer))
  }

  predicate HasRoot(db: Db, issuer: string) {
    issuer in db.issuers && db.issuers[issuer].Some?
  }

  /** A root is stored exactly where a publish has written one, and it is the root of the leaves of that publish. */
  ghost predicate RootOk(h: (Fr, Fr) -> Fr, s: State, issuer: string) {
    && (issuer in s.origin <==> HasRoot(s.db, issuer))
    && (issuer in s.origin ==>
          && Snapshot(s.db, issuer, s.origin[issuer])
          && s.db.issuers[issuer].value == ToHex(Root(h, s.origin[issuer])))
  }

  /** The row has a secret behind it that belongs to one of the issuer's leaves. */
  ghost predicate Justified(h: (Fr, Fr) -> Fr, db: Db, row: (string, string)) {
    exists secret :: Vouches(h, db, row, secret)
  }

  predicate Vouches(h: (Fr, Fr) -> Fr, db: Db, row: (string, string), secret: Fr) {
    row.1 == ToHex(NullifierOf(h, secret)) && Commitment(h, secret) in LeafList(db, row.0)
  }

  ghost predicate AddOk(db: Db, issuer: string, c: Fr, step: AddStep) {
    match step
    case Registered => issuer in db.issuers
    case Counted(n) => issuer in db.issuers && n <= |LeafList(db, issuer)| && n < CAPACITY
    case Inserted(n) => issuer in db.issuers && n < CAPACITY
    case Committed(n, _) => n < |LeafList(db, issuer)| && LeafList(db, issuer)[n] == c
    case _ => true
  }

  ghost predicate PublishOk(db: Db, issuer: string, step: PublishStep) {
    match step
    case Computed(t) => Snapshot(db, issuer, t)
    case Ensured(t) => Snapshot(db, issuer, t) && issuer in db.issuers
    case Published(t, _) => Snapshot(db, issuer, t)
    case _ => true
  }

  /** The leaves that were read and the leaves that were published have the same root. */
  ghost predicate Agreed(h: (Fr, Fr) -> Fr, db: Db, issuer: string, t: Tree, p: Tree) {
    Snapshot(db, issuer, t) && Snapshot(db, issuer, p) && Root(h, t) == Root(h, p)
  }

  ghost predicate ProveOk(h: (Fr, Fr) -> Fr, db: Db, issuer: string, secret: Fr, step: ProveStep) {
    match step
    case LeavesRead(t) => Snapshot(db, issuer, t)
    case RootChecked(t, p) => Agreed(h, db, issuer, t, p)
    case ProofMade(t, p) => Agreed(h, db, issuer, t, p) && Commitment(h, secret) in t
    case Responded(t, p, noted) =>
      && Agreed(h, db, issuer, t, p) && Commitment(h, secret) in t
      && (noted ==> (issuer, ToHex(NullifierOf(h, secret))) in db.nullifiers)
    case _ => true
  }

  ghost predicate HandlerOk(h: (Fr, Fr) -> Fr, db: Db, handler: Handler) {
    match handler
    case Rejected => true
    case Add(issuer, c, step) => AddOk(db, issuer, c, step)
    case Publish(issuer, step) => PublishOk(db, issuer, step)
    case Prove(issuer, secret, step) => ProveOk(h, db, issuer, secret, step)
  }

  predicate Owns(s: State, id: nat, issuer: string, k: nat) {
    && id in s.handlers && s.handlers[id].Add? && s.handlers[id].issuer == issuer
    && s.handlers[id].add.Committed? && s.handlers[id].add.n == k
  }

  ghost predicate Owned(s: State, issuer: string, k: nat) {
    exists id :: Owns(s, id, issuer, k)
  }

  /** An uncommitted row stands right behind the committed ones, and an issuer has at most one. */
  ghost predicate PendingOk(s: State) {
    && (forall id, issuer :: HoldsRow(s, id, issuer) ==> s.handlers[id].add.n == |LeafList(s.db, issuer)|)
    && (forall id, id', issuer :: HoldsRow(s, id, issuer) && HoldsRow(s, id', issuer) ==> id == id')
  }

  /** Every row was committed by exactly one handler. */
  ghost predicate OwnersOk(s: State) {
    && (forall issuer, k: nat :: k < |LeafList(s.db, issuer)| ==> Owned(s, issuer, k))
    && (forall id, id', issuer, k :: Owns(s, id, issuer, k) && Owns(s, id', issuer, k) ==> id == id')
  }

  ghost predicate Inv(h: (Fr, Fr) -> Fr, s: State) {
    && TablesOk(s.db)
    && (forall issuer :: RootOk(h, s, issuer))
    && (forall row :: row in s.db.nullifiers ==> Justified(h, s.db, row))
    && (forall id :: id in s.handlers ==> HandlerOk(h, s.db, s.handlers[id]))
    && PendingOk(s)
    && OwnersOk(s)
  }

  // ---------- preservation ----------

  /** Nothing that handlers rely on is ever taken back. */
  ghost predicate Grows(db: Db, db': Db) {
    && (forall issuer :: issuer in db.issuers ==> issuer in db'.issuers)
    && (forall issuer :: LeafList(db, issuer) <= LeafList(db', issuer))
    && db.nullifiers <= db'.nullifiers
  }

  lemma HandlerGrows(h: (Fr, Fr) -> Fr, db: Db, db': Db, handler: Handler)
    requires HandlerOk(h, db, handler) && Grows(db, db')
    ensures HandlerOk(h, db', handler)
  {
    hide LeafList, ToHex, Root;
    match handler
    case Rejected =>
    case Add(issuer, _, _) => assert LeafList(db, issuer) <= LeafList(db', issuer);
    case Publish(issuer, _) => assert LeafList(db, issuer) <= LeafList(db', issuer);
    case Prove(issuer, _, _) => assert LeafList(db, issuer) <= LeafList(db', issuer);
  }

  lemma JustifiedGrows(h: (Fr, Fr) -> Fr, db: Db, db': Db, row: (string, string))
    requires Justified(h, db, row) && Grows(db, db')
    ensures Justified(h, db', row)
  {
    hide LeafList, ToHex;
    var secret :| Vouches(h, db, row, secret);
    assert LeafList(db, row.0) <= LeafList(db', row.0);
    assert Vouches(h, db', row, secret);
  }

  /** A handler may change to any step that neither holds nor owns a row. */
  lemma Replace(h: (Fr, Fr) -> Fr, s: State, id: nat, handler: Handler)
    requires Inv(h, s)
    requires id in s.handlers ==> !(s.handlers[id].Add? && s.handlers[id].add.Committed?)
    requires HandlerOk(h, s.db, handler)
    requires handler.Add? ==> !handler.add.Inserted? && !handler.add.Committed?
    ensures Inv(h, At(s, id, handler))
  {
    hide LeafList, ToHex, Root, Dense, HandlerOk, Justified, Snapshot;
    var s' := At(s, id, handler);
    assert forall i, issuer :: HoldsRow(s', i, issuer) ==> HoldsRow(s, i, issuer);
    assert forall i, issuer, k :: Owns(s', i, issuer, k) <==> Owns(s, i, issuer, k);
    forall issuer, k: nat | k < |LeafList(s.db, issuer)|
      ensures Owned(s', issuer, k)
    {
      assert Owned(s, issuer, k);
    }
    forall issuer
      ensures RootOk(h, s', issuer)
    {
      assert RootOk(h, s, issuer);
    }
  }

  /** Statements that leave the leaves alone, do no harm if the roots and nullifiers are in order. */
  lemma TablesKept(h: (Fr, Fr) -> Fr, s: State, s': State)
    requires Inv(h, s) && s'.handlers == s.handlers && s'.db.leaves == s.db.leaves && Grows(s.db, s'.db)
    requires forall issuer :: RootOk(h, s', issuer)
    requires forall row :: row in s'.db.nullifiers ==> Justified(h, s'.db, row)
    ensures Inv(h, s')
  {
    hide ToHex, Root, Dense, HandlerOk, Justified, RootOk, LeafList;
    forall issuer
      ensures LeafList(s'.db, issuer) == LeafList(s.db, issuer)
    {
      SameLeaves(s.db, s'.db, issuer);
    }
    forall issuer | issuer in s'.db.leaves
      ensures issuer in s'.db.issuers && Dense(Rows(s'.db, issuer))
    {
      assert Rows(s'.db, issuer) == Rows(s.db, issuer);
    }
    forall id | id in s'.handlers
      ensures HandlerOk(h, s'.db, s'.handlers[id])
    {
      HandlerGrows(h, s.db, s'.db, s.handlers[id]);
    }
    assert forall i, issuer :: HoldsRow(s', i, issuer) ==> HoldsRow(s, i, issuer);
    assert forall i, issuer, k :: Owns(s', i, issuer, k) <==> Owns(s, i, issuer, k);
    forall issuer, k: nat | k < |LeafList(s.db, issuer)|
      ensures Owned(s', issuer, k)
    {
      assert Owned(s, issuer, k);
    }
  }

  lemma SameLeaves(db: Db, db': Db, issuer: string)
    requires Rows(db', issuer) == Rows(db, issuer)
    ensures LeafList(db', issuer) == LeafList(db, issuer)
  {
  }

  lemma IssuerAdded(h: (Fr, Fr) -> Fr, s: State, issuer: string)
    requires Inv(h, s)
    ensures Inv(h, s.(db := WithIssuer(s.db, issuer))) && Grows(s.db, WithIssuer(s.db, issuer))
  {
    hide ToHex, Root, Dense, HandlerOk, LeafList, OwnersOk, PendingOk, TablesOk, Justified;
    var s' := s.(db := WithIssuer(s.db, issuer));
    forall i
      ensures LeafList(s.db, i) == LeafList(s'.db, i)
    {
      SameLeaves(s.db, s'.db, i);
    }
    forall i
      ensures RootOk(h, s', i)
    {
      assert RootOk(h, s, i);
    }
    forall row | row in s'.db.nullifiers
      ensures Justified(h, s'.db, row)
    {
      JustifiedGrows(h, s.db, s'.db, row);
    }
    TablesKept(h, s, s');
  }

  lemma RootWritten(h: (Fr, Fr) -> Fr, s: State, id: nat, issuer: string, t: Tree, lost: Option<ApiError>)
    requires Inv(h, s) && issuer in s.db.issuers && Snapshot(s.db, issuer, t)
    requires id in s.handlers && s.handlers[id].Publish?
    ensures Inv(h, WriteRoot(h, s, id, issuer, t, lost))
  {
    hide ToHex, Root, Dense, HandlerOk, LeafList, OwnersOk, PendingOk, TablesOk, Justified;
    var s' := State(WithRoot(s.db, issuer, ToHex(Root(h, t))), s.handlers, s.origin[issuer := t]);
    forall i
      ensures LeafList(s.db, i) == LeafList(s'.db, i)
    {
      SameLeaves(s.db, s'.db, i);
    }
    forall i
      ensures RootOk(h, s', i)
    {
      assert RootOk(h, s, i);
    }
    forall row | row in s'.db.nullifiers
      ensures Justified(h, s'.db, row)
    {
      JustifiedGrows(h, s.db, s'.db, row);
    }
    TablesKept(h, s, s');
    var handler := Publish(issuer, Published(t, lost));
    assert HandlerOk(h, s'.db, handler) by {
      PublishedOk(h, s'.db, issuer, t, lost);
    }
    Replace(h, s', id, handler);
  }

  lemma PublishedOk(h: (Fr, Fr) -> Fr, db: Db, issuer: string, t: Tree, lost: Option<ApiError>)
    requires Snapshot(db, issuer, t)
    ensures HandlerOk(h, db, Publish(issuer, Published(t, lost)))
  {
  }

  lemma NullifierNoted(h: (Fr, Fr) -> Fr, s: State, id: nat, issuer: string, secret: Fr, t: Tree, p: Tree)
    requires Inv(h, s) && Agreed(h, s.db, issuer, t, p) && Commitment(h, secret) in t
    requires id in s.handlers && s.handlers[id].Prove?
    ensures Inv(h, Note(h, s, id, issuer, secret, t, p))
  {
    hide ToHex, Root, Dense, LeafList, OwnersOk, PendingOk, TablesOk, Justified, HandlerOk, RootOk;
    var text := ToHex(NullifierOf(h, secret));
    match WithNullifier(s.db, issuer, text)
    case Failure(_) =>
      RespondedOk(h, s.db, issuer, secret, t, p, false);
      Replace(h, s, id, Prove(issuer, secret, Responded(t, p, false)));
    case Success(db) =>
      var s' := s.(db := db);
      forall i
        ensures LeafList(s.db, i) == LeafList(db, i)
      {
        SameLeaves(s.db, db, i);
      }
      forall i
        ensures RootOk(h, s', i)
      {
        RootKept(h, s, s', i);
      }
      NewRowJustified(h, db, issuer, secret, t);
      forall row | row in db.nullifiers
        ensures Justified(h, db, row)
      {
        if row != (issuer, text) {
          JustifiedGrows(h, s.db, db, row);
        }
      }
      TablesKept(h, s, s');
      RespondedOk(h, db, issuer, secret, t, p, true);
      Replace(h, s', id, Prove(issuer, secret, Responded(t, p, true)));
  }

  lemma RootKept(h: (Fr, Fr) -> Fr, s: State, s': State, issuer: string)
    requires RootOk(h, s, issuer)
    requires s'.db.issuers == s.db.issuers && s'.origin == s.origin && LeafList(s.db, issuer) <= LeafList(s'.db, issuer)
    ensures RootOk(h, s', issuer)
  {
    hide ToHex, Root, LeafList;
  }

  lemma NewRowJustified(h: (Fr, Fr) -> Fr, db: Db, issuer: string, secret: Fr, t: Tree)
    requires Snapshot(db, issuer, t) && Commitment(h, secret) in t
    ensures Justified(h, db, (issuer, ToHex(NullifierOf(h, secret))))
  {
    hide ToHex, LeafList;
    assert Vouches(h, db, (issuer, ToHex(NullifierOf(h, secret))), secret);
  }

  lemma RespondedOk(h: (Fr, Fr) -> Fr, db: Db, issuer: string, secret: Fr, t: Tree, p: Tree, noted: bool)
    requires Agreed(h, db, issuer, t, p) && Commitment(h, secret) in t
    requires noted ==> (issuer, ToHex(NullifierOf(h, secret))) in db.nullifiers
    ensures HandlerOk(h, db, Prove(issuer, secret, Responded(t, p, noted)))
  {
  }

  /** An insertion that the keys admit takes the next position, which nobody else holds. */
  lemma RowInserted(h: (Fr, Fr) -> Fr, s: State, id: nat, c: Fr, issuer: string, n: nat)
    requires Inv(h, s)
    requires id in s.handlers && s.handlers[id] == Add(issuer, c, Counted(n))
    requires !Blocked(s, id, issuer, n) && WithLeaf(s.db, issuer, n, ToHex(c)).Success?
    ensures Inv(h, At(s, id, Add(issuer, c, Inserted(n))))
  {
    hide ToHex, Root, Justified, RootOk, Dense, LeafList, TablesOk, HandlerOk;
    assert HandlerOk(h, s.db, s.handlers[id]);
    CountedAdd(h, s.db, issuer, c, n, s.handlers[id]);
    NextPosition(s.db, issuer, n);
    var s' := At(s, id, Add(issuer, c, Inserted(n)));
    assert forall i, issuer', k :: Owns(s', i, issuer', k) <==> Owns(s, i, issuer', k);
    forall issuer', k: nat | k < |LeafList(s.db, issuer')|
      ensures Owned(s', issuer', k)
    {
      assert Owned(s, issuer', k);
    }
    forall i
      ensures RootOk(h, s', i)
    {
      RootKept(h, s, s', i);
    }
    assert forall i, issuer' :: HoldsRow(s', i, issuer') ==> HoldsRow(s, i, issuer') || (i == id && issuer' == issuer);
  }

  lemma CountedAdd(h: (Fr, Fr) -> Fr, db: Db, issuer: string, c: Fr, n: nat, handler: Handler)
    requires handler == Add(issuer, c, Counted(n)) && HandlerOk(h, db, handler)
    ensures n <= |LeafList(db, issuer)| && HandlerOk(h, db, Add(issuer, c, Inserted(n)))
  {
  }

  /** In a dense table the only free position not beyond the count is the count. */
  lemma NextPosition(db: Db, issuer: string, n: nat)
    requires TablesOk(db) && n <= |LeafList(db, issuer)| && n !in Rows(db, issuer)
    ensures n == |LeafList(db, issuer)|
  {
    hide ToHex, LeafList;
  }

  lemma TableDense(db: Db, issuer: string)
    requires TablesOk(db)
    ensures Dense(Rows(db, issuer))
  {
  }

  lemma RowCommitted(h: (Fr, Fr) -> Fr, s: State, id: nat, c: Fr, issuer: string, n: nat, lost: Option<ApiError>)
    requires Inv(h, s)
    requires id in s.handlers && s.handlers[id] == Add(issuer, c, Inserted(n))
    ensures Inv(h, Commit(s, id, issuer, c, n, lost))
    ensures WithLeaf(s.db, issuer, n, ToHex(c)).Success?
    ensures LeafList(WithLeaf(s.db, issuer, n, ToHex(c)).value, issuer) == LeafList(s.db, issuer) + [c]
    ensures Grows(s.db, WithLeaf(s.db, issuer, n, ToHex(c)).value)
  {
    hide ToHex, Root, Justified, RootOk, Dense, LeafList, HandlerOk;
    var list := LeafList(s.db, issuer);
    assert issuer in s.db.issuers && n < CAPACITY && n == |list| by {
      assert HoldsRow(s, id, issuer);
      PendingAdd(h, s.db, issuer, c, n, s.handlers[id]);
    }
    TableDense(s.db, issuer);
    AppendLeaf(s.db, issuer, c);
    var db := WithLeaf(s.db, issuer, n, ToHex(c)).value;
    var handler := Add(issuer, c, Committed(n, lost));
    var s' := At(s.(db := db), id, handler);
    forall i
      ensures LeafList(db, i) == if i == issuer then list + [c] else LeafList(s.db, i)
    {
      if i != issuer {
        SameLeaves(s.db, db, i);
      }
    }
    forall i | i in s'.handlers
      ensures HandlerOk(h, db, s'.handlers[i])
    {
      if i == id {
        CommittedOk(h, db, issuer, c, n, lost);
      } else {
        HandlerGrows(h, s.db, db, s.handlers[i]);
      }
    }
    CommitKeepsRest(h, s, s');
    OwnersBelow(h, s);
    CommitPending(s, s', id, issuer, n);
    CommitOwners(s, s', id, issuer, n);
  }

  lemma PendingAdd(h: (Fr, Fr) -> Fr, db: Db, issuer: string, c: Fr, n: nat, handler: Handler)
    requires handler == Add(issuer, c, Inserted(n)) && HandlerOk(h, db, handler)
    ensures issuer in db.issuers && n < CAPACITY
  {
  }

  lemma CommittedOk(h: (Fr, Fr) -> Fr, db: Db, issuer: string, c: Fr, n: nat, lost: Option<ApiError>)
    requires n < |LeafList(db, issuer)| && LeafList(db, issuer)[n] == c
    ensures HandlerOk(h, db, Add(issuer, c, Committed(n, lost)))
  {
  }

  lemma CommitKeepsRest(h: (Fr, Fr) -> Fr, s: State, s': State)
    requires Inv(h, s) && Grows(s.db, s'.db)
    requires s'.db.issuers == s.db.issuers && s'.db.nullifiers == s.db.nullifiers && s'.origin == s.origin
    ensures forall issuer :: RootOk(h, s', issuer)
    ensures forall row :: row in s'.db.nullifiers ==> Justified(h, s'.db, row)
  {
    hide ToHex, Root, Justified, RootOk, Dense, LeafList, HandlerOk, PendingOk, OwnersOk;
    forall issuer
      ensures RootOk(h, s', issuer)
    {
      RootKept(h, s, s', issuer);
    }
    forall row | row in s'.db.nullifiers
      ensures Justified(h, s'.db, row)
    {
      JustifiedGrows(h, s.db, s'.db, row);
    }
  }

  lemma OwnersBelow(h: (Fr, Fr) -> Fr, s: State)
    requires Inv(h, s)
    ensures forall i, issuer, k: nat :: Owns(s, i, issuer, k) ==> k < |LeafList(s.db, issuer)|
  {
    hide LeafList, RootOk, Justified, PendingOk, OwnersOk, TablesOk;
    forall i, issuer, k: nat | Owns(s, i, issuer, k)
      ensures k < |LeafList(s.db, issuer)|
    {
      assert HandlerOk(h, s.db, s.handlers[i]);
    }
  }

  lemma CommitPending(s: State, s': State, id: nat, issuer: string, n: nat)
    requires PendingOk(s) && HoldsRow(s, id, issuer)
    requires id in s'.handlers && s'.handlers == s.handlers[id := s'.handlers[id]] && Owns(s', id, issuer, n)
    requires forall i :: i != issuer ==> LeafList(s'.db, i) == LeafList(s.db, i)
    ensures PendingOk(s')
  {
    hide LeafList;
    assert forall i, issuer' :: HoldsRow(s', i, issuer') ==> i != id && HoldsRow(s, i, issuer');
  }

  lemma CommitOwners(s: State, s': State, id: nat, issuer: string, n: nat)
    requires PendingOk(s) && OwnersOk(s) && HoldsRow(s, id, issuer)
    requires id in s'.handlers && s'.handlers == s.handlers[id := s'.handlers[id]] && Owns(s', id, issuer, n)
    requires n == |LeafList(s.db, issuer)|
    requires forall i :: |LeafList(s'.db, i)| == if i == issuer then n + 1 else |LeafList(s.db, i)|
    requires forall i, issuer', k: nat :: Owns(s, i, issuer', k) ==> k < |LeafList(s.db, issuer')|
    ensures OwnersOk(s')
  {
    hide LeafList;
    assert forall i, issuer', k :: Owns(s', i, issuer', k)
                                   <==> Owns(s, i, issuer', k) || (i == id && issuer' == issuer && k == n);
    forall issuer', k: nat | k < |LeafList(s'.db, issuer')|
      ensures Owned(s', issuer', k)
    {
      if issuer' == issuer && k == n {
        assert Owns(s', id, issuer, n);
      } else {
        assert Owned(s, issuer', k);
      }
    }
  }

  /** No handler ever reads unreadable text or too many leaves. */
  lemma ReadTreeOk(db: Db, issuer: string, whenEmpty: ApiError)
    requires TablesOk(db)
    ensures |LeafList(db, issuer)| <= CAPACITY
    ensures ReadTree(db, issuer, whenEmpty)
         == if LeafList(db, issuer) == [] then Failure(whenEmpty) else Success(LeafList(db, issuer))
  {
    hide ToHex, LeafList, SelectLeaves;
    TableDense(db, issuer);
    SelectDense(db, issuer);
  }

  /** A stored root is read back as the root of its origin. */
  lemma SelectRootOk(h: (Fr, Fr) -> Fr, s: State, issuer: string)
    requires RootOk(h, s, issuer)
    ensures SelectRoot(s.db, issuer)
         == Success(if HasRoot(s.db, issuer) then Some(Root(h, s.origin[issuer])) else None)
  {
    hide ToHex, FromHex, Root, LeafList;
    if HasRoot(s.db, issuer) {
      StoredRoundTrip(Root(h, s.origin[issuer]));
    }
  }

  lemma CheckRootOk(h: (Fr, Fr) -> Fr, s: State, issuer: string, t: Tree, secret: Fr)
    requires RootOk(h, s, issuer) && Snapshot(s.db, issuer, t)
    ensures HandlerOk(h, s.db, Prove(issuer, secret, CheckRoot(h, s, issuer, t)))
  {
    hide ToHex, Root, LeafList, SelectRoot;
    SelectRootOk(h, s, issuer);
  }

  lemma AddKeepsInv(h: (Fr, Fr) -> Fr, s: State, id: nat, issuer: string, c: Fr, step: AddStep)
    requires Inv(h, s) && id in s.handlers && s.handlers[id] == Add(issuer, c, step)
    ensures Inv(h, RunAdd(s, id, issuer, c, step))
  {
    hide Inv, HandlerOk, LeafList, Commit, WithLeaf, WithIssuer, At;
    StepOk(h, s, id);
    match step
    case AddStart =>
      IssuerAdded(h, s, issuer);
      var s' := s.(db := WithIssuer(s.db, issuer));
      AddOkUnfolds(h, s'.db, issuer, c);
      EnsuredIssuer(s.db, issuer);
      Replace(h, s', id, Add(issuer, c, Registered));
    case Registered =>
      AddOkUnfolds(h, s.db, issuer, c);
      var n := |Rows(s.db, issuer)|;
      Replace(h, s, id, Add(issuer, c, if n >= CAPACITY then AddFailed(Conflict) else Counted(n)));
    case Counted(n) =>
      if !Blocked(s, id, issuer, n) {
        if WithLeaf(s.db, issuer, n, ToHex(c)).Success? {
          RowInserted(h, s, id, c, issuer, n);
        } else {
          AddOkUnfolds(h, s.db, issuer, c);
          Replace(h, s, id, Add(issuer, c, AddFailed(Internal)));
        }
      }
    case Inserted(n) => RowCommitted(h, s, id, c, issuer, n, None);
    case Committed(_, _) =>
    case AddFailed(_) =>
  }

  lemma EnsuredIssuer(db: Db, issuer: string)
    ensures issuer in WithIssuer(db, issuer).issuers
  {
  }

  lemma StepOk(h: (Fr, Fr) -> Fr, s: State, id: nat)
    requires Inv(h, s) && id in s.handlers
    ensures HandlerOk(h, s.db, s.handlers[id]) && TablesOk(s.db) && forall issuer :: RootOk(h, s, issuer)
  {
  }

  lemma AddOkUnfolds(h: (Fr, Fr) -> Fr, db: Db, issuer: string, c: Fr)
    ensures HandlerOk(h, db, Add(issuer, c, Registered)) <==> issuer in db.issuers
    ensures forall n: nat :: HandlerOk(h, db, Add(issuer, c, Counted(n)))
                             <==> issuer in db.issuers && n <= |LeafList(db, issuer)| && n < CAPACITY
    ensures forall e :: HandlerOk(h, db, Add(issuer, c, AddFailed(e)))
  {
  }

  lemma PublishKeepsInv(h: (Fr, Fr) -> Fr, s: State, id: nat, issuer: string, step: PublishStep)
    requires Inv(h, s) && id in s.handlers && s.handlers[id] == Publish(issuer, step)
    ensures Inv(h, RunPublish(h, s, id, issuer, step))
  {
    hide Inv, HandlerOk, LeafList, WriteRoot, WithIssuer, At, ReadTree, Snapshot, Grows, TablesOk;
    StepOk(h, s, id);
    PublishOkUnfolds(h, s.db, issuer);
    match step
    case PublishStart =>
      ReadTreeOk(s.db, issuer, BadRequest);
      if ReadTree(s.db, issuer, BadRequest).Success? {
        WholeSnapshot(s.db, issuer, LeafList(s.db, issuer));
        Replace(h, s, id, Publish(issuer, Computed(LeafList(s.db, issuer))));
      } else {
        Replace(h, s, id, Publish(issuer, PublishFailed(BadRequest)));
      }
    case Computed(t) =>
      IssuerAdded(h, s, issuer);
      var s' := s.(db := WithIssuer(s.db, issuer));
      EnsuredIssuer(s.db, issuer);
      HandlerGrows(h, s.db, s'.db, s.handlers[id]);
      PublishOkUnfolds(h, s'.db, issuer);
      Replace(h, s', id, Publish(issuer, Ensured(t)));
    case Ensured(t) => RootWritten(h, s, id, issuer, t, None);
    case Published(_, _) =>
    case PublishFailed(_) =>
  }

  lemma PublishOkUnfolds(h: (Fr, Fr) -> Fr, db: Db, issuer: string)
    ensures forall t :: HandlerOk(h, db, Publish(issuer, Computed(t))) <==> Snapshot(db, issuer, t)
    ensures forall t :: HandlerOk(h, db, Publish(issuer, Ensured(t)))
                        <==> Snapshot(db, issuer, t) && issuer in db.issuers
    ensures forall e :: HandlerOk(h, db, Publish(issuer, PublishFailed(e)))
  {
  }

  lemma WholeSnapshot(db: Db, issuer: string, t: Tree)
    requires t == LeafList(db, issuer) != []
    ensures Snapshot(db, issuer, t)
  {
  }

  lemma ProveKeepsInv(h: (Fr, Fr) -> Fr, s: State, id: nat, issuer: string, secret: Fr, step: ProveStep)
    requires Inv(h, s) && id in s.handlers && s.handlers[id] == Prove(issuer, secret, step)
    ensures Inv(h, RunProve(h, s, id, issuer, secret, step))
  {
    hide Inv, HandlerOk, LeafList, At, ReadTree, Snapshot, TablesOk, RootOk, Agreed, Commitment, CheckRoot, Note;
    StepOk(h, s, id);
    ProveOkUnfolds(h, s.db, issuer, secret);
    match step
    case ProveStart =>
      ReadTreeOk(s.db, issuer, NotFound);
      if ReadTree(s.db, issuer, NotFound).Success? {
        WholeSnapshot(s.db, issuer, LeafList(s.db, issuer));
        Replace(h, s, id, Prove(issuer, secret, LeavesRead(LeafList(s.db, issuer))));
      } else {
        Replace(h, s, id, Prove(issuer, secret, ProveFailed(NotFound)));
      }
    case LeavesRead(t) =>
      CheckRootOk(h, s, issuer, t, secret);
      Replace(h, s, id, Prove(issuer, secret, CheckRoot(h, s, issuer, t)));
    case RootChecked(t, p) =>
      Replace(h, s, id,
              Prove(issuer, secret, if Commitment(h, secret) in t then ProofMade(t, p) else ProveFailed(NotFound)));
    case ProofMade(t, p) => NullifierNoted(h, s, id, issuer, secret, t, p);
    case Responded(_, _, _) =>
    case ProveFailed(_) =>
  }

  lemma ProveOkUnfolds(h: (Fr, Fr) -> Fr, db: Db, issuer: string, secret: Fr)
    ensures forall t :: HandlerOk(h, db, Prove(issuer, secret, LeavesRead(t))) <==> Snapshot(db, issuer, t)
    ensures forall t, p :: HandlerOk(h, db, Prove(issuer, secret, RootChecked(t, p))) <==> Agreed(h, db, issuer, t, p)
    ensures forall t, p :: HandlerOk(h, db, Prove(issuer, secret, ProofMade(t, p)))
                           <==> Agreed(h, db, issuer, t, p) && Commitment(h, secret) in t
    ensures forall t, p :: HandlerOk(h, db, Prove(issuer, secret, Responded(t, p, false)))
                           <==> Agreed(h, db, issuer, t, p) && Commitment(h, secret) in t
    ensures forall e :: HandlerOk(h, db, Prove(issuer, secret, ProveFailed(e)))
  {
  }

  lemma EndOk(h: (Fr, Fr) -> Fr, db: Db, handler: Handler, e: ApiError)
    ensures HandlerOk(h, db, End(handler, e))
  {
  }

  lemma FailKeepsInv(h: (Fr, Fr) -> Fr, s: State, id: nat)
    requires Inv(h, s) && id in s.handlers
    ensures Inv(h, FailStep(s, id)) && Inv(h, DropStep(s, id))
  {
    hide Inv, HandlerOk, At, Agreed;
    StepOk(h, s, id);
    var handler := s.handlers[id];
    if !Finished(handler) {
      EndOk(h, s.db, handler, Internal);
      EndOk(h, s.db, handler, NoResponse);
      Replace(h, s, id, End(handler, Internal));
      Replace(h, s, id, End(handler, NoResponse));
      if handler.Prove? && handler.prove.ProofMade? {
        ProveOkUnfolds(h, s.db, handler.issuer, handler.secret);
        Replace(h, s, id,
                Prove(handler.issuer, handler.secret, Responded(handler.prove.tree, handler.prove.published, false)));
      }
    }
  }

  lemma UnreportedKeepsInv(h: (Fr, Fr) -> Fr, s: State, id: nat, e: ApiError)
    requires Inv(h, s) && id in s.handlers && Writing(s.handlers[id])
    ensures Inv(h, WriteUnreported(h, s, id, e))
  {
    hide Inv, HandlerOk, At, WithIssuer, WriteRoot, Commit;
    StepOk(h, s, id);
    match s.handlers[id]
    case Add(issuer, c, AddStart) =>
      IssuerAdded(h, s, issuer);
      EndOk(h, WithIssuer(s.db, issuer), s.handlers[id], e);
      Replace(h, s.(db := WithIssuer(s.db, issuer)), id, Add(issuer, c, AddFailed(e)));
    case Add(issuer, c, Inserted(n)) => RowCommitted(h, s, id, c, issuer, n, Some(e));
    case Publish(issuer, Computed(t)) =>
      IssuerAdded(h, s, issuer);
      EndOk(h, WithIssuer(s.db, issuer), s.handlers[id], e);
      Replace(h, s.(db := WithIssuer(s.db, issuer)), id, Publish(issuer, PublishFailed(e)));
    case Publish(issuer, Ensured(t)) =>
      PublishOkUnfolds(h, s.db, issuer);
      RootWritten(h, s, id, issuer, t, Some(e));
  }

  lemma LostAckKeepsInv(h: (Fr, Fr) -> Fr, s: State, id: nat)
    requires Inv(h, s) && id in s.handlers
    ensures Inv(h, LostAckStep(h, s, id)) && Inv(h, VanishStep(h, s, id))
  {
    hide Inv, HandlerOk, At, Agreed, Writing, WriteUnreported, Note, FailStep, DropStep;
    StepOk(h, s, id);
    if Writing(s.handlers[id]) {
      UnreportedKeepsInv(h, s, id, Internal);
      UnreportedKeepsInv(h, s, id, NoResponse);
    }
    FailKeepsInv(h, s, id);
    match s.handlers[id]
    case Prove(issuer, secret, ProofMade(t, p)) =>
      ProveOkUnfolds(h, s.db, issuer, secret);
      NullifierNoted(h, s, id, issuer, secret, t, p);
      var s' := Note(h, s, id, issuer, secret, t, p);
      Noted(h, s, id, issuer, secret, t, p);
      ProveOkUnfolds(h, s'.db, issuer, secret);
      Replace(h, s', id, Prove(issuer, secret, ProveFailed(NoResponse)));
    case _ =>
  }

  lemma Noted(h: (Fr, Fr) -> Fr, s: State, id: nat, issuer: string, secret: Fr, t: Tree, p: Tree)
    ensures var s' := Note(h, s, id, issuer, secret, t, p);
      id in s'.handlers && s'.handlers[id].Prove?
  {
    hide WithNullifier, ToHex;
  }

  lemma ArriveKeepsInv(h: (Fr, Fr) -> Fr, s: State, id: nat, request: Request)
    requires Inv(h, s) && id !in s.handlers
    ensures Inv(h, At(s, id, Accept(request)))
  {
    hide Inv, At, ParseFrHex;
    Replace(h, s, id, Accept(request));
  }

  /** Every step of every handler, whatever the others have done in between, keeps the invariant. */
  lemma StepKeepsInv(h: (Fr, Fr) -> Fr, s: State, e: Event)
    requires Inv(h, s)
    ensures Inv(h, Apply(h, s, e))
  {
    hide Inv, At, Accept, RunAdd, RunPublish, RunProve, FailStep, DropStep, LostAckStep, VanishStep;
    if e.Arrive? {
      if e.id !in s.handlers {
        ArriveKeepsInv(h, s, e.id, e.request);
      }
    } else if e.id in s.handlers {
      FailKeepsInv(h, s, e.id);
      LostAckKeepsInv(h, s, e.id);
      match s.handlers[e.id]
      case Rejected =>
      case Add(issuer, c, step) => AddKeepsInv(h, s, e.id, issuer, c, step);
      case Publish(issuer, step) => PublishKeepsInv(h, s, e.id, issuer, step);
      case Prove(issuer, secret, step) => ProveKeepsInv(h, s, e.id, issuer, secret, step);
    }
  }

  lemma {:induction false} RunKeepsInv(h: (Fr, Fr) -> Fr, s: State, events: seq<Event>)
    requires Inv(h, s)
    ensures Inv(h, ApplyAll(h, s, events))
    decreases |events|
  {
    hide Inv, Apply;
    if events != [] {
      StepKeepsInv(h, s, events[0]);
      RunKeepsInv(h, Apply(h, s, events[0]), events[1..]);
    }
  }

  lemma InitialInv(h: (Fr, Fr) -> Fr)
    ensures INITIAL == State(Db(map[], map[], {}), map[], map[])
    ensures Inv(h, INITIAL)
  {
  }

  /** Every reachable state satisfies the invariant. */
  lemma ReachableInv(h: (Fr, Fr) -> Fr, events: seq<Event>)
    ensures Inv(h, Exec(h, events))
  {
    hide Inv, Apply;
    InitialInv(h);
    RunKeepsInv(h, INITIAL, events);
  }
}
