/**
 Requests served one after the other. Without overlap the protocol behaves like a simple
 ledger.
 */
module Serial {
  import opened Wrappers
  import opened Field
  import opened Encoding
  import opened Storage
  import opened Protocol
  import opened Invariant
  import opened Guarantees

  // ---------- the ledger ----------

  /** Per issuer the leaves, and the leaves as of the last publish; and the nullifiers noted. */
  datatype Ledger = Ledger(leaves: map<string, Tree>, published: map<string, Tree>, noted: set<(string, Fr)>)

  const EMPTY_LEDGER: Ledger := Ledger(map[], map[], {})

  function ListOf(l: Ledger, issuer: string): Tree {
    if issuer in l.leaves then l.leaves[issuer] else []
  }

  function Appended(l: Ledger, issuer: string, c: Fr): Ledger
    requires |ListOf(l, issuer)| < CAPACITY
  {
    l.(leaves := l.leaves[issuer := ListOf(l, issuer) + [c]])
  }

  function ServeAdd(l: Ledger, issuer: string, c: Fr): (Ledger, Reply) {
    var list := ListOf(l, issuer);
    if |list| == CAPACITY then (l, Refused(Conflict))
    else (Appended(l, issuer, c), Added(|list|, |list| + 1))
  }

  function ServePublish(h: (Fr, Fr) -> Fr, l: Ledger, issuer: string): (Ledger, Reply) {
    var list := ListOf(l, issuer);
    if list == [] then (l, Refused(BadRequest))
    else (l.(published := l.published[issuer := list]), RootIs(ToHex(Root(h, list))))
  }

  function ServeProve(h: (Fr, Fr) -> Fr, l: Ledger, issuer: string, secret: Fr): (Ledger, Reply) {
    var list := ListOf(l, issuer);
    if list == [] then (l, Refused(NotFound))
    else if issuer !in l.published || Root(h, l.published[issuer]) != Root(h, list) then (l, Refused(Conflict))
    else if Commitment(h, secret) !in list then (l, Refused(NotFound))
    else (l.(noted := l.noted + {(issuer, NullifierOf(h, secret))}),
          Proved(ToHex(Root(h, list)), ToHex(NullifierOf(h, secret))))
  }

  function Serve(h: (Fr, Fr) -> Fr, l: Ledger, request: Request): (Ledger, Reply) {
    match Accept(request)
    case Rejected => (l, Refused(BadRequest))
    case Add(issuer, c, _) => ServeAdd(l, issuer, c)
    case Publish(issuer, _) => ServePublish(h, l, issuer)
    case Prove(issuer, secret, _) => ServeProve(h, l, issuer, secret)
  }

  function ServeAll(h: (Fr, Fr) -> Fr, requests: seq<Request>): Ledger {
    if requests == [] then EMPTY_LEDGER
    else Serve(h, ServeAll(h, requests[..|requests| - 1]), requests[|requests| - 1]).0
  }

  // ---------- serial runs of the protocol ----------

  /** One request from its arrival to its reply; further turns of a finished handler do nothing. */
  function Turn(id: nat, request: Request): seq<Event> {
    [Arrive(id, request), Run(id), Run(id), Run(id), Run(id)]
  }

  function SerialRun(requests: seq<Request>): seq<Event> {
    if requests == [] then []
    else SerialRun(requests[..|requests| - 1]) + Turn(|requests| - 1, requests[|requests| - 1])
  }

  /** The database stands for the ledger. */
  ghost predicate Represents(db: Db, origin: map<string, Tree>, l: Ledger) {
    && (forall issuer :: LeafList(db, issuer) == ListOf(l, issuer))
    && (forall issuer :: HasRoot(db, issuer) <==> issuer in l.published)
    && (forall issuer :: issuer in l.published ==> issuer in origin && origin[issuer] == l.published[issuer])
    && NotedIn(db, l)
  }

  ghost predicate NotedIn(db: Db, l: Ledger) {
    forall issuer: string, n: Fr :: (issuer, ToHex(n)) in db.nullifiers <==> (issuer, n) in l.noted
  }

  // ---------- one request ----------

  lemma TurnSteps(h: (Fr, Fr) -> Fr, s: State, id: nat)
    ensures ApplyAll(h, s, [Run(id), Run(id), Run(id), Run(id)])
         == Apply(h, Apply(h, Apply(h, Apply(h, s, Run(id)), Run(id)), Run(id)), Run(id))
  {
    hide Apply, ApplyAll;
    var e := Run(id);
    var s1 := Apply(h, s, e);
    var s2 := Apply(h, s1, e);
    var s3 := Apply(h, s2, e);
    ApplyFirst(h, s, e, [e, e, e]);
    ApplyFirst(h, s1, e, [e, e]);
    ApplyFirst(h, s2, e, [e]);
    ApplyFirst(h, s3, e, []);
    assert [e] + [e, e, e] == [e, e, e, e] && [e] + [e, e] == [e, e, e] && [e] + [e] == [e, e] && [e] + [] == [e];
  }

  lemma ApplyFirst(h: (Fr, Fr) -> Fr, s: State, e: Event, rest: seq<Event>)
    ensures ApplyAll(h, s, [e] + rest) == ApplyAll(h, Apply(h, s, e), rest)
    ensures ApplyAll(h, Apply(h, s, e), []) == Apply(h, s, e)
  {
    hide Apply;
    assert ([e] + rest)[1..] == rest;
  }

  lemma Settled(h: (Fr, Fr) -> Fr, s: State, id: nat)
    requires id in s.handlers && Finished(s.handlers[id])
    ensures Apply(h, s, Run(id)) == s
  {
  }

  lemma RunsProve(h: (Fr, Fr) -> Fr, s: State, id: nat, issuer: string, secret: Fr, step: ProveStep)
    requires id in s.handlers && s.handlers[id] == Prove(issuer, secret, step)
    ensures Apply(h, s, Run(id)) == RunProve(h, s, id, issuer, secret, step)
  {
    hide RunProve, RunAdd, RunPublish;
  }

  /** The further steps of an uninterrupted proof request that has read these leaves. */
  function CheckedOutcome(h: (Fr, Fr) -> Fr, s: State, issuer: string, secret: Fr, t: Tree): ProveStep {
    var checked := CheckRoot(h, s, issuer, t);
    if checked.ProveFailed? then checked
    else if Commitment(h, secret) !in t then ProveFailed(NotFound)
    else ProofMade(t, OriginOf(s, issuer))
  }

  /** The steps of a proof request that nobody interrupts. */
  function ProveOutcome(h: (Fr, Fr) -> Fr, s: State, issuer: string, secret: Fr): ProveStep {
    match ReadTree(s.db, issuer, NotFound)
    case Failure(e) => ProveFailed(e)
    case Success(t) => CheckedOutcome(h, s, issuer, secret, t)
  }

  function Conclude(h: (Fr, Fr) -> Fr, s: State, id: nat, issuer: string, secret: Fr, outcome: ProveStep): State {
    if outcome.ProofMade? then Note(h, s, id, issuer, secret, outcome.tree, outcome.published)
    else At(s, id, Prove(issuer, secret, outcome))
  }

  /** What a proof request that nobody interrupts leaves behind. */
  function AfterProve(h: (Fr, Fr) -> Fr, s: State, id: nat, issuer: string, secret: Fr): State {
    Conclude(h, s, id, issuer, secret, ProveOutcome(h, s, issuer, secret))
  }

  lemma SameCheck(h: (Fr, Fr) -> Fr, s: State, s': State, issuer: string, t: Tree)
    requires s'.db == s.db && s'.origin == s.origin
    ensures CheckRoot(h, s', issuer, t) == CheckRoot(h, s, issuer, t)
  {
    hide SelectRoot, Root;
  }

  lemma CheckTurns(h: (Fr, Fr) -> Fr, s: State, id: nat, issuer: string, secret: Fr, t: Tree)
    requires id in s.handlers && s.handlers[id] == Prove(issuer, secret, LeavesRead(t))
    ensures Apply(h, Apply(h, Apply(h, s, Run(id)), Run(id)), Run(id))
         == Conclude(h, s, id, issuer, secret, CheckedOutcome(h, s, issuer, secret, t))
  {
    hide Apply, Root, Commitment, CheckRoot, OriginOf, Note;
    RunsProve(h, s, id, issuer, secret, LeavesRead(t));
    var s1 := At(s, id, Prove(issuer, secret, CheckRoot(h, s, issuer, t)));
    if CheckRoot(h, s, issuer, t).ProveFailed? {
      Settled(h, s1, id);
    } else {
      var p := OriginOf(s, issuer);
      RunsProve(h, s1, id, issuer, secret, RootChecked(t, p));
      var s2 := Apply(h, s1, Run(id));
      if Commitment(h, secret) in t {
        assert s2 == At(s, id, Prove(issuer, secret, ProofMade(t, p)));
        RunsProve(h, s2, id, issuer, secret, ProofMade(t, p));
        SameNote(h, s, s2, id, issuer, secret, t, p);
      } else {
        assert s2 == At(s, id, Prove(issuer, secret, ProveFailed(NotFound)));
        Settled(h, s2, id);
      }
    }
  }

  lemma ProveTurns(h: (Fr, Fr) -> Fr, s: State, id: nat, issuer: string, secret: Fr)
    requires id in s.handlers && s.handlers[id] == Prove(issuer, secret, ProveStart)
    ensures ApplyAll(h, s, [Run(id), Run(id), Run(id), Run(id)]) == AfterProve(h, s, id, issuer, secret)
  {
    hide Apply, ApplyAll, Root, ReadTree, Commitment, CheckRoot, OriginOf, Note, CheckedOutcome, Conclude;
    TurnSteps(h, s, id);
    RunsProve(h, s, id, issuer, secret, ProveStart);
    var s1 := Apply(h, s, Run(id));
    match ReadTree(s.db, issuer, NotFound)
    case Failure(e) =>
      Settled(h, s1, id);
      Concluded(h, s, id, issuer, secret, e);
    case Success(t) =>
      CheckTurns(h, s1, id, issuer, secret, t);
      SameConclusion(h, s, s1, id, issuer, secret, t);
  }

  lemma Concluded(h: (Fr, Fr) -> Fr, s: State, id: nat, issuer: string, secret: Fr, e: ApiError)
    ensures Conclude(h, s, id, issuer, secret, ProveFailed(e)) == At(s, id, Prove(issuer, secret, ProveFailed(e)))
  {
  }

  lemma SameConclusion(h: (Fr, Fr) -> Fr, s: State, s': State, id: nat, issuer: string, secret: Fr, t: Tree)
    requires s'.db == s.db && s'.origin == s.origin
    requires id in s'.handlers && s'.handlers == s.handlers[id := s'.handlers[id]]
    ensures CheckedOutcome(h, s', issuer, secret, t) == CheckedOutcome(h, s, issuer, secret, t)
    ensures Conclude(h, s', id, issuer, secret, CheckedOutcome(h, s, issuer, secret, t))
         == Conclude(h, s, id, issuer, secret, CheckedOutcome(h, s, issuer, secret, t))
  {
    hide CheckRoot, Note, Commitment;
    SameCheck(h, s, s', issuer, t);
    var outcome := CheckedOutcome(h, s, issuer, secret, t);
    if outcome.ProofMade? {
      SameNote(h, s, s', id, issuer, secret, outcome.tree, outcome.published);
    }
  }

  lemma SameNote(h: (Fr, Fr) -> Fr, s: State, s': State, id: nat, issuer: string, secret: Fr, t: Tree, p: Tree)
    requires s'.db == s.db && s'.origin == s.origin
    requires id in s'.handlers && s'.handlers == s.handlers[id := s'.handlers[id]]
    ensures Note(h, s', id, issuer, secret, t, p) == Note(h, s, id, issuer, secret, t, p)
  {
    hide WithNullifier;
  }

  lemma RunsAdd(h: (Fr, Fr) -> Fr, s: State, id: nat, issuer: string, c: Fr, step: AddStep)
    requires id in s.handlers && s.handlers[id] == Add(issuer, c, step)
    ensures Apply(h, s, Run(id)) == RunAdd(s, id, issuer, c, step)
  {
    hide RunProve, RunAdd, RunPublish;
  }

  lemma RunsPublish(h: (Fr, Fr) -> Fr, s: State, id: nat, issuer: string, step: PublishStep)
    requires id in s.handlers && s.handlers[id] == Publish(issuer, step)
    ensures Apply(h, s, Run(id)) == RunPublish(h, s, id, issuer, step)
  {
    hide RunProve, RunAdd, RunPublish;
  }

  /** What an addition that nobody interrupts leaves behind. */
  function AfterAdd(s: State, id: nat, issuer: string, c: Fr): State {
    var db, n := WithIssuer(s.db, issuer), |LeafList(s.db, issuer)|;
    var inserted := WithLeaf(db, issuer, n, ToHex(c));
    if n >= CAPACITY then At(s.(db := db), id, Add(issuer, c, AddFailed(Conflict)))
    else if inserted.Success? then At(s.(db := inserted.value), id, Add(issuer, c, Committed(n, None)))
    else At(s.(db := db), id, Add(issuer, c, AddFailed(Internal)))
  }

  lemma AddTurns(h: (Fr, Fr) -> Fr, s: State, id: nat, issuer: string, c: Fr)
    requires id in s.handlers && s.handlers[id] == Add(issuer, c, AddStart)
    requires forall other :: !HoldsRow(s, other, issuer)
    ensures ApplyAll(h, s, [Run(id), Run(id), Run(id), Run(id)]) == AfterAdd(s, id, issuer, c)
  {
    hide Apply, ApplyAll, LeafList, ToHex, WithIssuer, WithLeaf, CAPACITY;
    var db, n := WithIssuer(s.db, issuer), |LeafList(s.db, issuer)|;
    TurnSteps(h, s, id);
    RunsAdd(h, s, id, issuer, c, AddStart);
    var s1 := Apply(h, s, Run(id));
    IssuerKeepsRows(s.db, issuer, issuer);
    RunsAdd(h, s1, id, issuer, c, Registered);
    var s2 := Apply(h, s1, Run(id));
    if n >= CAPACITY {
      assert s2 == AfterAdd(s, id, issuer, c);
      Settled(h, s2, id);
    } else {
      assert s2 == At(s.(db := db), id, Add(issuer, c, Counted(n)));
      assert forall other :: HoldsRow(s2, other, issuer) ==> HoldsRow(s, other, issuer);
      RunsAdd(h, s2, id, issuer, c, Counted(n));
      var s3 := Apply(h, s2, Run(id));
      if WithLeaf(db, issuer, n, ToHex(c)).Failure? {
        assert s3 == AfterAdd(s, id, issuer, c);
        Settled(h, s3, id);
      } else {
        assert s3 == At(s.(db := db), id, Add(issuer, c, Inserted(n)));
        RunsAdd(h, s3, id, issuer, c, Inserted(n));
        assert Apply(h, s3, Run(id)) == AfterAdd(s, id, issuer, c);
      }
    }
  }

  lemma IssuerKeepsRows(db: Db, issuer: string, other: string)
    ensures Rows(WithIssuer(db, issuer), other) == Rows(db, other)
    ensures LeafList(WithIssuer(db, issuer), other) == LeafList(db, other)
    ensures |LeafList(db, other)| == |Rows(db, other)|
  {
    SameLeaves(db, WithIssuer(db, issuer), other);
  }

  /** What a publish that nobody interrupts leaves behind. */
  function AfterPublish(h: (Fr, Fr) -> Fr, s: State, id: nat, issuer: string): State {
    match ReadTree(s.db, issuer, BadRequest)
    case Failure(e) => At(s, id, Publish(issuer, PublishFailed(e)))
    case Success(t) => WriteRoot(h, s.(db := WithIssuer(s.db, issuer)), id, issuer, t, None)
  }

  lemma PublishTurns(h: (Fr, Fr) -> Fr, s: State, id: nat, issuer: string)
    requires id in s.handlers && s.handlers[id] == Publish(issuer, PublishStart)
    ensures ApplyAll(h, s, [Run(id), Run(id), Run(id), Run(id)]) == AfterPublish(h, s, id, issuer)
  {
    hide Apply, ApplyAll, Root, ReadTree, WithIssuer, WithRoot;
    TurnSteps(h, s, id);
    RunsPublish(h, s, id, issuer, PublishStart);
    var s1 := Apply(h, s, Run(id));
    match ReadTree(s.db, issuer, BadRequest)
    case Failure(_) => Settled(h, s1, id);
    case Success(list) =>
      RunsPublish(h, s1, id, issuer, Computed(list));
      var s2 := Apply(h, s1, Run(id));
      assert s2 == At(s.(db := WithIssuer(s.db, issuer)), id, Publish(issuer, Ensured(list)));
      RunsPublish(h, s2, id, issuer, Ensured(list));
      var s3 := Apply(h, s2, Run(id));
      assert s3 == AfterPublish(h, s, id, issuer);
      Settled(h, s3, id);
  }

  // ---------- the database against the ledger ----------

  lemma IssuerRepresents(db: Db, origin: map<string, Tree>, l: Ledger, issuer: string)
    requires Represents(db, origin, l)
    ensures Represents(WithIssuer(db, issuer), origin, l)
  {
    hide LeafList, ToHex;
    var db' := WithIssuer(db, issuer);
    forall i
      ensures LeafList(db', i) == LeafList(db, i)
    {
      IssuerKeepsRows(db, issuer, i);
    }
    assert forall i :: HasRoot(db', i) <==> HasRoot(db, i);
  }

  lemma LeafRepresents(db: Db, origin: map<string, Tree>, l: Ledger, issuer: string, c: Fr)
    requires Represents(db, origin, l) && issuer in db.issuers && Dense(Rows(db, issuer))
    requires |LeafList(db, issuer)| < CAPACITY && |ListOf(l, issuer)| < CAPACITY
    ensures var r := WithLeaf(db, issuer, |LeafList(db, issuer)|, ToHex(c));
      r.Success? && Represents(r.value, origin, Appended(l, issuer, c))
  {
    hide LeafList, ToHex, Dense;
    AppendLeaf(db, issuer, c);
    var db' := WithLeaf(db, issuer, |LeafList(db, issuer)|, ToHex(c)).value;
    forall i | i != issuer
      ensures LeafList(db', i) == LeafList(db, i)
    {
      SameLeaves(db, db', i);
    }
    assert forall i :: HasRoot(db', i) <==> HasRoot(db, i);
  }

  lemma RootRepresents(db: Db, origin: map<string, Tree>, l: Ledger, issuer: string, text: string, t: Tree)
    requires Represents(db, origin, l) && issuer in db.issuers
    ensures Represents(WithRoot(db, issuer, text), origin[issuer := t], l.(published := l.published[issuer := t]))
  {
    hide LeafList, ToHex;
    var db' := WithRoot(db, issuer, text);
    forall i
      ensures LeafList(db', i) == LeafList(db, i)
    {
      SameLeaves(db, db', i);
    }
    assert forall i :: HasRoot(db', i) <==> HasRoot(db, i) || i == issuer;
  }

  lemma NoteRepresents(db: Db, origin: map<string, Tree>, l: Ledger, issuer: string, n: Fr)
    requires Represents(db, origin, l) && issuer in db.issuers
    ensures var r := WithNullifier(db, issuer, ToHex(n));
      r.Success? && Represents(r.value, origin, l.(noted := l.noted + {(issuer, n)}))
  {
    hide LeafList, ToHex;
    var db' := WithNullifier(db, issuer, ToHex(n)).value;
    forall i
      ensures LeafList(db', i) == LeafList(db, i)
    {
      SameLeaves(db, db', i);
    }
    assert forall i :: HasRoot(db', i) <==> HasRoot(db, i);
    forall i: string, m: Fr
      ensures (i, ToHex(m)) in db'.nullifiers <==> (i, m) in l.noted + {(issuer, n)}
    {
      ToHexInjective(m, n);
    }
  }

  /** The handler has replied as the ledger does, and the database stands for the ledger's new state. */
  ghost predicate Served(h: (Fr, Fr) -> Fr, s: State, id: nat, outcome: (Ledger, Reply)) {
    && id in s.handlers && Finished(s.handlers[id])
    && ReplyOf(h, s.handlers[id]) == Some(outcome.1)
    && Represents(s.db, s.origin, outcome.0)
  }

  lemma AddServed(h: (Fr, Fr) -> Fr, s: State, l: Ledger, id: nat, issuer: string, c: Fr)
    requires TablesOk(s.db) && Represents(s.db, s.origin, l)
    ensures Served(h, AfterAdd(s, id, issuer, c), id, ServeAdd(l, issuer, c))
  {
    hide LeafList, ToHex, WithIssuer, WithLeaf, Represents, Dense, Root;
    SameList(s.db, s.origin, l, issuer);
    var db := WithIssuer(s.db, issuer);
    IssuerRepresents(s.db, s.origin, l, issuer);
    IssuerKeepsRows(s.db, issuer, issuer);
    EnsuredIssuer(s.db, issuer);
    TableDense(s.db, issuer);
    if |LeafList(s.db, issuer)| < CAPACITY {
      LeafRepresents(db, s.origin, l, issuer, c);
    }
  }

  lemma SameList(db: Db, origin: map<string, Tree>, l: Ledger, issuer: string)
    requires Represents(db, origin, l)
    ensures LeafList(db, issuer) == ListOf(l, issuer)
    ensures HasRoot(db, issuer) <==> issuer in l.published
    ensures issuer in l.published ==> issuer in origin && origin[issuer] == l.published[issuer]
  {
  }

  lemma PublishServed(h: (Fr, Fr) -> Fr, s: State, l: Ledger, id: nat, issuer: string)
    requires TablesOk(s.db) && Represents(s.db, s.origin, l)
    ensures Served(h, AfterPublish(h, s, id, issuer), id, ServePublish(h, l, issuer))
  {
    hide LeafList, ToHex, WithIssuer, WithRoot, Represents, TablesOk, Root, ReadTree;
    var list := ListOf(l, issuer);
    SameList(s.db, s.origin, l, issuer);
    ReadTreeOk(s.db, issuer, BadRequest);
    if list != [] {
      IssuerRepresents(s.db, s.origin, l, issuer);
      EnsuredIssuer(s.db, issuer);
      RootRepresents(WithIssuer(s.db, issuer), s.origin, l, issuer, ToHex(Root(h, list)), list);
    }
  }

  lemma ProveServed(h: (Fr, Fr) -> Fr, s: State, l: Ledger, id: nat, issuer: string, secret: Fr)
    requires TablesOk(s.db) && RootOk(h, s, issuer) && Represents(s.db, s.origin, l)
    ensures Served(h, AfterProve(h, s, id, issuer, secret), id, ServeProve(h, l, issuer, secret))
  {
    hide LeafList, ToHex, WithNullifier, Represents, TablesOk, Root, Commitment, NullifierOf, RootOk, SelectRoot,
      ReadTree;
    var list := ListOf(l, issuer);
    ReadTreeOk(s.db, issuer, NotFound);
    SameList(s.db, s.origin, l, issuer);
    SelectRootOk(h, s, issuer);
    if list != [] {
      ListedIssuer(s.db, issuer);
      NoteRepresents(s.db, s.origin, l, issuer, NullifierOf(h, secret));
    }
  }

  lemma ListedIssuer(db: Db, issuer: string)
    requires TablesOk(db) && LeafList(db, issuer) != []
    ensures issuer in db.issuers
  {
  }

  /** A request that nobody interrupts is served as by the ledger. */
  lemma TurnServed(h: (Fr, Fr) -> Fr, s: State, l: Ledger, id: nat, request: Request)
    requires Inv(h, s) && Represents(s.db, s.origin, l) && id !in s.handlers
    requires forall other, issuer :: !HoldsRow(s, other, issuer)
    ensures Served(h, ApplyAll(h, s, Turn(id, request)), id, Serve(h, l, request))
  {
    hide LeafList, ApplyAll, Apply, Represents, Inv, Served, Accept, AfterAdd, ServeAdd, ServePublish, ServeProve,
      AfterPublish, AfterProve, TablesOk, HandlerOk, RootOk, ListOf;
    var handler := Accept(request);
    var s0 := At(s, id, handler);
    ApplyFirst(h, s, Arrive(id, request), [Run(id), Run(id), Run(id), Run(id)]);
    assert [Arrive(id, request)] + [Run(id), Run(id), Run(id), Run(id)] == Turn(id, request);
    Arrives(h, s, id, request);
    ArriveKeepsInv(h, s, id, request);
    StepOk(h, s0, id);
    match handler
    case Rejected =>
      TurnSteps(h, s0, id);
      Settled(h, s0, id);
      RejectedServed(h, s0, l, id);
    case Add(issuer, c, _) =>
      assert forall other :: HoldsRow(s0, other, issuer) ==> HoldsRow(s, other, issuer);
      AddTurns(h, s0, id, issuer, c);
      AddServed(h, s0, l, id, issuer, c);
    case Publish(issuer, _) =>
      PublishTurns(h, s0, id, issuer);
      PublishServed(h, s0, l, id, issuer);
    case Prove(issuer, secret, _) =>
      ProveTurns(h, s0, id, issuer, secret);
      ProveServed(h, s0, l, id, issuer, secret);
  }

  lemma Arrives(h: (Fr, Fr) -> Fr, s: State, id: nat, request: Request)
    requires id !in s.handlers
    ensures Apply(h, s, Arrive(id, request)) == At(s, id, Accept(request))
  {
    hide Accept;
  }

  lemma RejectedServed(h: (Fr, Fr) -> Fr, s: State, l: Ledger, id: nat)
    requires Represents(s.db, s.origin, l) && id in s.handlers && s.handlers[id] == Rejected
    ensures Served(h, s, id, (l, Refused(BadRequest)))
  {
    hide Represents;
  }

  lemma {:induction false} TurnTouchesOwn(h: (Fr, Fr) -> Fr, s: State, events: seq<Event>, id: nat, other: nat)
    requires other != id && forall k :: 0 <= k < |events| ==> events[k].id == id
    ensures var s' := ApplyAll(h, s, events);
      (other in s'.handlers <==> other in s.handlers)
      && (other in s.handlers ==> s'.handlers[other] == s.handlers[other])
    decreases |events|
  {
    hide Apply;
    if events != [] {
      OthersUntouched(h, s, events[0], other);
      TurnTouchesOwn(h, Apply(h, s, events[0]), events[1..], id, other);
    }
  }

  /** The handlers are those of the requests, and every client has received the ledger's reply. */
  ghost predicate Replied(h: (Fr, Fr) -> Fr, s: State, requests: seq<Request>) {
    && (forall id: nat :: id in s.handlers <==> id < |requests|)
    && (forall id: nat :: id in s.handlers ==>
          && Finished(s.handlers[id])
          && ReplyOf(h, s.handlers[id]) == Some(Serve(h, ServeAll(h, requests[..id]), requests[id]).1))
  }

  lemma RepliedNext(h: (Fr, Fr) -> Fr, before: State, s: State, requests: seq<Request>)
    requires requests != []
    requires var n := |requests| - 1;
      && Replied(h, before, requests[..n])
      && Served(h, s, n, Serve(h, ServeAll(h, requests[..n]), requests[n]))
      && forall id: nat :: id != n ==>
           && (id in s.handlers <==> id in before.handlers)
           && (id in before.handlers ==> s.handlers[id] == before.handlers[id])
    ensures Replied(h, s, requests)
  {
    hide Serve, ReplyOf, Finished, Represents, ServeAll;
    var n := |requests| - 1;
    assert forall id: nat :: id < n ==> requests[..n][..id] == requests[..id] && requests[..n][id] == requests[id];
  }

  /**
   Without overlap the protocol is the ledger: after any list of requests, served one after the
   other, the database stands for the ledger and every client has received the ledger's reply.
   */
  lemma {:induction false} SerialRunIsLedger(h: (Fr, Fr) -> Fr, requests: seq<Request>)
    ensures var s := Exec(h, SerialRun(requests));
      Represents(s.db, s.origin, ServeAll(h, requests)) && Replied(h, s, requests)
  {
    hide Apply, ApplyAll, Represents, Inv, Serve, Replied, Served;
    if requests == [] {
      EmptySerialRun(h);
    } else {
      var n := |requests| - 1;
      var before, l := Exec(h, SerialRun(requests[..n])), ServeAll(h, requests[..n]);
      var s := Exec(h, SerialRun(requests));
      SerialRunIsLedger(h, requests[..n]);
      ReachableInv(h, SerialRun(requests[..n]));
      ApplyConcat(h, INITIAL, SerialRun(requests[..n]), Turn(n, requests[n]));
      RepliedIs(h, before, requests[..n]);
      TurnServed(h, before, l, n, requests[n]);
      ServedIs(h, s, n, Serve(h, l, requests[n]));
      forall id: nat | id != n
        ensures (id in s.handlers <==> id in before.handlers)
                && (id in before.handlers ==> s.handlers[id] == before.handlers[id])
      {
        TurnTouchesOwn(h, before, Turn(n, requests[n]), n, id);
      }
      RepliedNext(h, before, s, requests);
    }
  }

  lemma RepliedIs(h: (Fr, Fr) -> Fr, s: State, requests: seq<Request>)
    requires Replied(h, s, requests)
    ensures forall id: nat :: id in s.handlers ==> id < |requests| && Finished(s.handlers[id])
    ensures forall k: nat :: k < |requests| ==>
      k in s.handlers && ReplyOf(h, s.handlers[k]) == Some(Serve(h, ServeAll(h, requests[..k]), requests[k]).1)
  {
  }

  lemma ServedIs(h: (Fr, Fr) -> Fr, s: State, id: nat, outcome: (Ledger, Reply))
    requires Served(h, s, id, outcome)
    ensures id in s.handlers && Finished(s.handlers[id]) && ReplyOf(h, s.handlers[id]) == Some(outcome.1)
    ensures Represents(s.db, s.origin, outcome.0)
  {
  }

  lemma EmptySerialRun(h: (Fr, Fr) -> Fr)
    ensures Exec(h, SerialRun([])) == INITIAL
    ensures Represents(INITIAL.db, INITIAL.origin, ServeAll(h, [])) && Replied(h, INITIAL, [])
  {
  }
}
