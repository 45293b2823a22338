/**
 The add, publish and prove handlers as a concurrent system. Every database statement is one
 step of a READ COMMITTED database, so that any number of handlers interleave between their
 statements. A statement can also fail or lose its acknowledgement, and the client can go away
 before or after the statement in flight takes effect.
 */
module Protocol {
  import opened Wrappers
  import opened Field
  import opened Mimc
  import opened Merkle
  import opened Encoding
  import opened Storage
  import Circuit

  /** The leaves of a tree in memory: never more than it has slots. */
  type Tree = t: seq<Fr> | |t| <= CAPACITY witness []

  function Root(h: (Fr, Fr) -> Fr, t: Tree): Fr {
    RootOf(h, t, Circuit.DEPTH)
  }

  function Commitment(h: (Fr, Fr) -> Fr, secret: Fr): Fr {
    h(secret, LEAF_DOMAIN)
  }

  function NullifierOf(h: (Fr, Fr) -> Fr, secret: Fr): Fr {
    h(secret, NULLIFIER_DOMAIN)
  }

  // ---------- handlers ----------

  /** NoResponse: the client has gone away. */
  datatype ApiError = BadRequest | NotFound | Conflict | Internal | NoResponse

  datatype Request =
    | AddRequest(issuer: string, text: string)
    | PublishRequest(issuer: string)
    | ProveRequest(issuer: string, text: string)

  /** `lost` is what became of the reply although the write took effect; none if it was a success. */
  datatype AddStep =
    | AddStart
    | Registered
    | Counted(n: nat)
    | Inserted(n: nat)
    | Committed(n: nat, lost: Option<ApiError>)
    | AddFailed(error: ApiError)

  datatype PublishStep =
    | PublishStart
    | Computed(tree: Tree)
    | Ensured(tree: Tree)
    | Published(tree: Tree, lost: Option<ApiError>)
    | PublishFailed(error: ApiError)

  /** `published` remembers the leaves behind the published root at the moment of the check. */
  datatype ProveStep =
    | ProveStart
    | LeavesRead(tree: Tree)
    | RootChecked(tree: Tree, published: Tree)
    | ProofMade(tree: Tree, published: Tree)
    | Responded(tree: Tree, published: Tree, noted: bool)
    | ProveFailed(error: ApiError)

  datatype Handler =
    | Rejected
    | Add(issuer: string, commitment: Fr, add: AddStep)
    | Publish(issuer: string, publish: PublishStep)
    | Prove(issuer: string, secret: Fr, prove: ProveStep)

  /** `origin` remembers the leaves from which each published root was computed. */
  datatype State = State(db: Db, handlers: map<nat, Handler>, origin: map<string, Tree>)

  const INITIAL: State := State(EMPTY_DB, map[], map[])

  function At(s: State, id: nat, handler: Handler): State {
    s.(handlers := s.handlers[id := handler])
  }

  /** Scalars in requests are parsed before anything else happens. */
  function Accept(request: Request): (handler: Handler)
    ensures handler.Add? ==> handler.add == AddStart
    ensures handler.Publish? ==> handler.publish == PublishStart
    ensures handler.Prove? ==> handler.prove == ProveStart
  {
    match request
    case AddRequest(issuer, text) =>
      (match ParseFrHex(text)
       case Success(c) => Add(issuer, c, AddStart)
       case Failure(_) => Rejected)
    case PublishRequest(issuer) => Publish(issuer, PublishStart)
    case ProveRequest(issuer, text) =>
      (match ParseFrHex(text)
       case Success(x) => Prove(issuer, x, ProveStart)
       case Failure(_) => Rejected)
  }

  // ---------- steps ----------

  predicate Pending(handler: Handler, issuer: string) {
    handler.Add? && handler.add.Inserted? && handler.issuer == issuer
  }

  predicate HoldsRow(s: State, id: nat, issuer: string) {
    id in s.handlers && Pending(s.handlers[id], issuer)
  }

  /** An insertion waits while another transaction holds an uncommitted row with the same key. */
  predicate Blocked(s: State, id: nat, issuer: string, n: nat) {
    exists other :: other in s.handlers && other != id && HoldsRow(s, other, issuer) && s.handlers[other].add.n == n
  }

  function RunAdd(s: State, id: nat, issuer: string, c: Fr, step: AddStep): State {
    match step
    case AddStart => At(s.(db := WithIssuer(s.db, issuer)), id, Add(issuer, c, Registered))
    case Registered =>
      var n := |Rows(s.db, issuer)|;
      At(s, id, Add(issuer, c, if n >= CAPACITY then AddFailed(Conflict) else Counted(n)))
    case Counted(n) =>
      if Blocked(s, id, issuer, n) then s
      else if WithLeaf(s.db, issuer, n, ToHex(c)).Failure? then At(s, id, Add(issuer, c, AddFailed(Internal)))
      else At(s, id, Add(issuer, c, Inserted(n)))
    case Inserted(n) => Commit(s, id, issuer, c, n, None)
    case _ => s
  }

  function Commit(s: State, id: nat, issuer: string, c: Fr, n: nat, lost: Option<ApiError>): State {
    match WithLeaf(s.db, issuer, n, ToHex(c))
    case Success(db) => At(s.(db := db), id, Add(issuer, c, Committed(n, lost)))
    case Failure(_) => At(s, id, Add(issuer, c, AddFailed(Internal)))
  }

  /** What a handler makes of the stored leaves. */
  function ReadTree(db: Db, issuer: string, whenEmpty: ApiError): (r: Result<Tree, ApiError>)
    ensures r.Failure? ==> r.error == whenEmpty || r.error == Internal || r.error == Conflict
  {
    match SelectLeaves(db, issuer)
    case Failure(_) => Failure(Internal)
    case Success(list) =>
      if list == [] then Failure(whenEmpty)
      else if |list| > CAPACITY then Failure(Conflict)
      else Success(list)
  }

  function RunPublish(h: (Fr, Fr) -> Fr, s: State, id: nat, issuer: string, step: PublishStep): State {
    match step
    case PublishStart =>
      (match ReadTree(s.db, issuer, BadRequest)
       case Failure(e) => At(s, id, Publish(issuer, PublishFailed(e)))
       case Success(t) => At(s, id, Publish(issuer, Computed(t))))
    case Computed(t) => At(s.(db := WithIssuer(s.db, issuer)), id, Publish(issuer, Ensured(t)))
    case Ensured(t) => WriteRoot(h, s, id, issuer, t, None)
    case _ => s
  }

  function WriteRoot(h: (Fr, Fr) -> Fr, s: State, id: nat, issuer: string, t: Tree, lost: Option<ApiError>): State {
    var written := State(WithRoot(s.db, issuer, ToHex(Root(h, t))), s.handlers,
                         if issuer in s.db.issuers then s.origin[issuer := t] else s.origin);
    At(written, id, Publish(issuer, Published(t, lost)))
  }

  function OriginOf(s: State, issuer: string): Tree {
    if issuer in s.origin then s.origin[issuer] else []
  }

  function RunProve(h: (Fr, Fr) -> Fr, s: State, id: nat, issuer: string, secret: Fr, step: ProveStep): State {
    match step
    case ProveStart =>
      (match ReadTree(s.db, issuer, NotFound)
       case Failure(e) => At(s, id, Prove(issuer, secret, ProveFailed(e)))
       case Success(t) => At(s, id, Prove(issuer, secret, LeavesRead(t))))
    case LeavesRead(t) => At(s, id, Prove(issuer, secret, CheckRoot(h, s, issuer, t)))
    case RootChecked(t, p) =>
      At(s, id, Prove(issuer, secret, if Commitment(h, secret) in t then ProofMade(t, p) else ProveFailed(NotFound)))
    case ProofMade(t, p) => Note(h, s, id, issuer, secret, t, p)
    case _ => s
  }

  /** The published root is compared with the root of the leaves read before. */
  function CheckRoot(h: (Fr, Fr) -> Fr, s: State, issuer: string, t: Tree): (step: ProveStep)
    ensures step.ProveFailed? || step == RootChecked(t, OriginOf(s, issuer))
    ensures step.ProveFailed? ==> step.error == Internal || step.error == Conflict
    ensures !step.ProveFailed? ==> SelectRoot(s.db, issuer) == Success(Some(Root(h, t)))
  {
    match SelectRoot(s.db, issuer)
    case Failure(_) => ProveFailed(Internal)
    case Success(None) => ProveFailed(Conflict)
    case Success(Some(root)) =>
      if root == Root(h, t) then RootChecked(t, OriginOf(s, issuer)) else ProveFailed(Conflict)
  }

  /** The nullifier is noted; failing to do so does not spoil the response. */
  function Note(h: (Fr, Fr) -> Fr, s: State, id: nat, issuer: string, secret: Fr, t: Tree, p: Tree): State {
    match WithNullifier(s.db, issuer, ToHex(NullifierOf(h, secret)))
    case Success(db) => At(s.(db := db), id, Prove(issuer, secret, Responded(t, p, true)))
    case Failure(_) => At(s, id, Prove(issuer, secret, Responded(t, p, false)))
  }

  predicate Finished(handler: Handler) {
    match handler
    case Rejected => true
    case Add(_, _, step) => step.Committed? || step.AddFailed?
    case Publish(_, step) => step.Published? || step.PublishFailed?
    case Prove(_, _, step) => step.Responded? || step.ProveFailed?
  }

  /** The handler ends with an error; an open transaction is rolled back with it. */
  function End(handler: Handler, e: ApiError): Handler {
    match handler
    case Rejected => Rejected
    case Add(issuer, c, _) => Add(issuer, c, AddFailed(e))
    case Publish(issuer, _) => Publish(issuer, PublishFailed(e))
    case Prove(issuer, secret, _) => Prove(issuer, secret, ProveFailed(e))
  }

  function RunStep(h: (Fr, Fr) -> Fr, s: State, id: nat): State
    requires id in s.handlers
  {
    match s.handlers[id]
    case Rejected => s
    case Add(issuer, c, step) => RunAdd(s, id, issuer, c, step)
    case Publish(issuer, step) => RunPublish(h, s, id, issuer, step)
    case Prove(issuer, secret, step) => RunProve(h, s, id, issuer, secret, step)
  }

  /** The awaited operation fails without effect; only the note of a nullifier may do so silently. */
  function FailStep(s: State, id: nat): State
    requires id in s.handlers
  {
    match s.handlers[id]
    case Prove(issuer, secret, ProofMade(t, p)) => At(s, id, Prove(issuer, secret, Responded(t, p, false)))
    case handler => if Finished(handler) then s else At(s, id, End(handler, Internal))
  }

  /** The client goes away and the handler is dropped. */
  function DropStep(s: State, id: nat): State
    requires id in s.handlers
  {
    if Finished(s.handlers[id]) then s else At(s, id, End(s.handlers[id], NoResponse))
  }

  /** The awaited statement takes effect, but its acknowledgement is lost: the handler reports an error. */
  function LostAckStep(h: (Fr, Fr) -> Fr, s: State, id: nat): State
    requires id in s.handlers
  {
    match s.handlers[id]
    case Prove(issuer, secret, ProofMade(t, p)) => Note(h, s, id, issuer, secret, t, p)
    case _ => if Writing(s.handlers[id]) then WriteUnreported(h, s, id, Internal) else FailStep(s, id)
  }

  /** The client goes away while the awaited statement takes effect: nobody is told. */
  function VanishStep(h: (Fr, Fr) -> Fr, s: State, id: nat): State
    requires id in s.handlers
  {
    match s.handlers[id]
    case Prove(issuer, secret, ProofMade(t, p)) =>
      At(Note(h, s, id, issuer, secret, t, p), id, Prove(issuer, secret, ProveFailed(NoResponse)))
    case _ => if Writing(s.handlers[id]) then WriteUnreported(h, s, id, NoResponse) else DropStep(s, id)
  }

  /** The awaited statement writes to the tables, apart from the note of a nullifier. */
  predicate Writing(handler: Handler) {
    match handler
    case Add(_, _, step) => step.AddStart? || step.Inserted?
    case Publish(_, step) => step.Computed? || step.Ensured?
    case _ => false
  }

  /** The awaited write takes effect, and e is all that the handler makes of it. */
  function WriteUnreported(h: (Fr, Fr) -> Fr, s: State, id: nat, e: ApiError): State
    requires id in s.handlers && Writing(s.handlers[id])
  {
    match s.handlers[id]
    case Add(issuer, c, AddStart) => At(s.(db := WithIssuer(s.db, issuer)), id, Add(issuer, c, AddFailed(e)))
    case Add(issuer, c, Inserted(n)) => Commit(s, id, issuer, c, n, Some(e))
    case Publish(issuer, Computed(t)) => At(s.(db := WithIssuer(s.db, issuer)), id, Publish(issuer, PublishFailed(e)))
    case Publish(issuer, Ensured(t)) => WriteRoot(h, s, id, issuer, t, Some(e))
  }

  datatype Event =
    | Arrive(id: nat, request: Request)
    | Run(id: nat)
    | Fail(id: nat)
    | Drop(id: nat)
    | LostAck(id: nat)
    | Vanish(id: nat)

  function Apply(h: (Fr, Fr) -> Fr, s: State, e: Event): State {
    match e
    case Arrive(id, request) => if id in s.handlers then s else At(s, id, Accept(request))
    case Run(id) => if id in s.handlers then RunStep(h, s, id) else s
    case Fail(id) => if id in s.handlers then FailStep(s, id) else s
    case Drop(id) => if id in s.handlers then DropStep(s, id) else s
    case LostAck(id) => if id in s.handlers then LostAckStep(h, s, id) else s
    case Vanish(id) => if id in s.handlers then VanishStep(h, s, id) else s
  }

  function ApplyAll(h: (Fr, Fr) -> Fr, s: State, events: seq<Event>): State
    decreases |events|
  {
    if events == [] then s else ApplyAll(h, Apply(h, s, events[0]), events[1..])
  }

  /** The state that a run leads to. */
  function Exec(h: (Fr, Fr) -> Fr, events: seq<Event>): State {
    ApplyAll(h, INITIAL, events)
  }

  // ---------- replies ----------

  datatype Reply =
    | Added(position: nat, count: nat)
    | RootIs(root: string)
    | Proved(root: string, nullifier: string)
    | Refused(error: ApiError)

  function Refusal(e: ApiError): Option<Reply> {
    if e == NoResponse then None else Some(Refused(e))
  }

  /** What the client is told; nothing while the handler is still at work or after the client has gone. */
  function ReplyOf(h: (Fr, Fr) -> Fr, handler: Handler): Option<Reply> {
    match handler
    case Rejected => Some(Refused(BadRequest))
    case Add(_, _, Committed(n, None)) => Some(Added(n, n + 1))
    case Add(_, _, Committed(_, Some(e))) => Refusal(e)
    case Add(_, _, AddFailed(e)) => Refusal(e)
    case Publish(_, Published(t, None)) => Some(RootIs(ToHex(Root(h, t))))
    case Publish(_, Published(_, Some(e))) => Refusal(e)
    case Publish(_, PublishFailed(e)) => Refusal(e)
    case Prove(_, secret, Responded(t, _, _)) => Some(Proved(ToHex(Root(h, t)), ToHex(NullifierOf(h, secret))))
    case Prove(_, _, ProveFailed(e)) => Refusal(e)
    case _ => None
  }
}
