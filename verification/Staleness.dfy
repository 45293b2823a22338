/**
 When a proof request notices that the tree has changed since the last publish, and when it
 does not: the exact condition over all runs, and runs in which a change goes unnoticed.
 */
module Staleness {
  import opened Wrappers
  import opened Field
  import opened Merkle
  import opened HashTree
  import opened Encoding
  import opened Storage
  import opened Protocol
  import opened Invariant
  import opened Guarantees
  import opened Serial
  import Circuit

  // ---------- the check, over all runs ----------

  function Shorter(t: Tree, p: Tree): Tree { if |t| <= |p| then t else p }

  function Longer(t: Tree, p: Tree): Tree { if |t| <= |p| then p else t }

  /** The collision, if any, between the trees over the leaves that were read and those that were published. */
  function CheckCollision(h: (Fr, Fr) -> Fr, t: Tree, p: Tree): Option<Collision<Fr>> {
    LeavesCollision(h, Shorter(t, p), Longer(t, p), Circuit.DEPTH)
  }

  lemma CheckRefuses(h: (Fr, Fr) -> Fr, s: State, issuer: string, t: Tree)
    requires RootOk(h, s, issuer) && HasRoot(s.db, issuer) && Snapshot(s.db, issuer, t)
    ensures var p := OriginOf(s, issuer);
      var a, b, c := Shorter(t, p), Longer(t, p), CheckCollision(h, t, p);
      && a <= b <= LeafList(s.db, issuer)
      && (CheckRoot(h, s, issuer, t) == ProveFailed(Conflict) ==> !AllEmpty(b[|a|..]))
      && (!AllEmpty(b[|a|..]) ==>
            CheckRoot(h, s, issuer, t) == ProveFailed(Conflict) || (c.Some? && Collides(h, c.value)))
  {
    hide LeafList, RootOf, LeavesCollision, ToHex, SelectRoot, AllEmpty;
    var p := OriginOf(s, issuer);
    SelectRootOk(h, s, issuer);
    GrownTreeRoot(h, Shorter(t, p), Longer(t, p), Circuit.DEPTH);
  }

  /**
   The check of a proof request at any moment of any run, with t the leaves it has read and p
   those behind the published root. One of them is a beginning of the other. The request is only
   refused if the longer one has a leaf beyond the shorter that is not the empty leaf, and then it
   is, unless the two trees exhibit a collision. Without a published root it is always refused.
   */
  lemma StaleCheck(h: (Fr, Fr) -> Fr, events: seq<Event>, id: nat)
    requires var s := Exec(h, events); id in s.handlers && s.handlers[id].Prove? && s.handlers[id].prove.LeavesRead?
    ensures var s, s' := Exec(h, events), Exec(h, events + [Run(id)]);
      var Prove(issuer, secret, LeavesRead(t)) := s.handlers[id];
      var p := OriginOf(s, issuer);
      var a, b, c := Shorter(t, p), Longer(t, p), CheckCollision(h, t, p);
      var refused := Prove(issuer, secret, ProveFailed(Conflict));
      && id in s'.handlers
      && (s'.handlers[id] == refused || s'.handlers[id] == Prove(issuer, secret, RootChecked(t, p)))
      && (!HasRoot(s.db, issuer) ==> s'.handlers[id] == refused)
      && (HasRoot(s.db, issuer) ==>
            && a <= b <= LeafList(s.db, issuer)
            && (s'.handlers[id] == refused ==> !AllEmpty(b[|a|..]))
            && (!AllEmpty(b[|a|..]) ==> s'.handlers[id] == refused || (c.Some? && Collides(h, c.value))))
  {
    hide Apply, ApplyAll, LeafList, CheckCollision, Inv, CheckRoot, HandlerOk, RootOk, AllEmpty, Snapshot, SelectRoot;
    var s := Exec(h, events);
    var Prove(issuer, secret, LeavesRead(t)) := s.handlers[id];
    ReachableInv(h, events);
    StepOk(h, s, id);
    ProveOkUnfolds(h, s.db, issuer, secret);
    LastStep(h, events + [Run(id)]);
    assert (events + [Run(id)])[..|events|] == events;
    RunsProve(h, s, id, issuer, secret, LeavesRead(t));
    CheckKnows(h, s, issuer, t);
    if HasRoot(s.db, issuer) {
      CheckRefuses(h, s, issuer, t);
    }
  }

  /** The stored root is readable, so a failed check is a refusal; and without a root the check fails. */
  lemma CheckKnows(h: (Fr, Fr) -> Fr, s: State, issuer: string, t: Tree)
    requires RootOk(h, s, issuer)
    ensures CheckRoot(h, s, issuer, t).ProveFailed? ==> CheckRoot(h, s, issuer, t) == ProveFailed(Conflict)
    ensures !HasRoot(s.db, issuer) ==> CheckRoot(h, s, issuer, t) == ProveFailed(Conflict)
  {
    hide LeafList, ToHex, SelectRoot, Root;
    SelectRootOk(h, s, issuer);
  }

  // ---------- requests that nobody interrupts ----------

  /**
   After any run, however its handlers have overlapped and failed: a proof request that nobody
   interrupts is only refused because the tree has changed if some leaf appended since the leaves
   behind the published root is not the empty leaf, and then it is, unless there is a collision.
   */
  lemma StaleTreeRefused(h: (Fr, Fr) -> Fr, events: seq<Event>, id: nat, issuer: string, text: string)
    requires id !in Exec(h, events).handlers && ParseFrHex(text).Success? && HasRoot(Exec(h, events).db, issuer)
    ensures var s, s' := Exec(h, events), Exec(h, events + Turn(id, ProveRequest(issuer, text)));
      var p, list := OriginOf(s, issuer), LeafList(s.db, issuer);
      && p <= list && |list| <= CAPACITY
      && id in s'.handlers
      && (ReplyOf(h, s'.handlers[id]) == Some(Refused(Conflict)) ==> !AllEmpty(list[|p|..]))
      && var c := LeavesCollision(h, p, list, Circuit.DEPTH);
         (!AllEmpty(list[|p|..]) ==>
            ReplyOf(h, s'.handlers[id]) == Some(Refused(Conflict)) || (c.Some? && Collides(h, c.value)))
  {
    hide Apply, ApplyAll, LeafList, LeavesCollision, Inv, CheckRoot, HandlerOk, RootOk, AllEmpty, ParseFrHex,
      Commitment, AfterProve, ReadTree, TablesOk, HasRoot, OriginOf;
    var s := Exec(h, events);
    var secret := ParseFrHex(text).value;
    var request := ProveRequest(issuer, text);
    var s0 := At(s, id, Prove(issuer, secret, ProveStart));
    ApplyConcat(h, INITIAL, events, Turn(id, request));
    ReachableInv(h, events);
    StateOk(h, s);
    ApplyFirst(h, s, Arrive(id, request), [Run(id), Run(id), Run(id), Run(id)]);
    assert [Arrive(id, request)] + [Run(id), Run(id), Run(id), Run(id)] == Turn(id, request);
    Arrives(h, s, id, request);
    ProveTurns(h, s0, id, issuer, secret);
    ReadTreeOk(s.db, issuer, NotFound);
    var list := LeafList(s.db, issuer);
    RootedList(h, s, issuer);
    CheckKnows(h, s, issuer, list);
    CheckRefuses(h, s, issuer, list);
    LoneReply(h, s, id, issuer, secret, list);
  }

  lemma StateOk(h: (Fr, Fr) -> Fr, s: State)
    requires Inv(h, s)
    ensures TablesOk(s.db) && forall issuer :: RootOk(h, s, issuer)
  {
  }

  /** Where a root is published, the issuer's list is not empty and goes on from the published leaves. */
  lemma RootedList(h: (Fr, Fr) -> Fr, s: State, issuer: string)
    requires RootOk(h, s, issuer) && HasRoot(s.db, issuer) && |LeafList(s.db, issuer)| <= CAPACITY
    ensures var list := LeafList(s.db, issuer);
      && Snapshot(s.db, issuer, list) && OriginOf(s, issuer) <= list
      && Shorter(list, OriginOf(s, issuer)) == OriginOf(s, issuer) && Longer(list, OriginOf(s, issuer)) == list
  {
    hide LeafList, ToHex, Root;
  }

  lemma LoneReply(h: (Fr, Fr) -> Fr, s: State, id: nat, issuer: string, secret: Fr, list: Tree)
    requires ReadTree(s.db, issuer, NotFound) == Success(list)
    requires CheckRoot(h, s, issuer, list).ProveFailed? ==> CheckRoot(h, s, issuer, list) == ProveFailed(Conflict)
    ensures var s' := AfterProve(h, At(s, id, Prove(issuer, secret, ProveStart)), id, issuer, secret);
      && id in s'.handlers
      && (ReplyOf(h, s'.handlers[id]) == Some(Refused(Conflict))
          <==> CheckRoot(h, s, issuer, list) == ProveFailed(Conflict))
  {
    hide ReadTree, CheckRoot, ToHex, Root, Commitment, WithNullifier;
    SameCheck(h, s, At(s, id, Prove(issuer, secret, ProveStart)), issuer, list);
  }

  /** In particular in serial runs, in terms of the ledger. */
  lemma SerialStaleTree(h: (Fr, Fr) -> Fr, requests: seq<Request>, issuer: string, text: string)
    requires ParseFrHex(text).Success? && issuer in ServeAll(h, requests).published
    ensures var l := ServeAll(h, requests);
      var published, list := l.published[issuer], ListOf(l, issuer);
      var c := LeavesCollision(h, published, list, Circuit.DEPTH);
      && published <= list
      && (Serve(h, l, ProveRequest(issuer, text)).1 == Refused(Conflict) ==> !AllEmpty(list[|published|..]))
      && (!AllEmpty(list[|published|..]) ==>
            Serve(h, l, ProveRequest(issuer, text)).1 == Refused(Conflict) || (c.Some? && Collides(h, c.value)))
  {
    hide Apply, ApplyAll, LeafList, LeavesCollision, AllEmpty, ParseFrHex, Serve, ServeAll, ReplyOf, Represents;
    var n, request := |requests|, ProveRequest(issuer, text);
    SerialRunIsLedger(h, requests);
    SameList(Exec(h, SerialRun(requests)).db, Exec(h, SerialRun(requests)).origin, ServeAll(h, requests), issuer);
    SerialRunIsLedger(h, requests + [request]);
    assert (requests + [request])[..n] == requests;
    StaleTreeRefused(h, SerialRun(requests), n, issuer, text);
  }

  // ---------- changes that go unnoticed ----------

  const NAME: string := "issuer"

  function AddAndPublish(c: Fr): seq<Request> {
    [AddRequest(NAME, ToHex(c)), PublishRequest(NAME)]
  }

  lemma ServeNext(h: (Fr, Fr) -> Fr, requests: seq<Request>, request: Request)
    ensures ServeAll(h, requests + [request]) == Serve(h, ServeAll(h, requests), request).0
  {
    hide Serve;
    assert (requests + [request])[..|requests|] == requests;
  }

  lemma ServesAdd(h: (Fr, Fr) -> Fr, l: Ledger, issuer: string, c: Fr)
    ensures Serve(h, l, AddRequest(issuer, ToHex(c))) == ServeAdd(l, issuer, c)
  {
    hide ToHex, ParseFrHex;
    HexRoundTrip(c);
  }

  function OneLeaf(c: Fr): (t: Tree)
    ensures t == [c]
  {
    CapacityIs16();
    [c]
  }

  function TwoLeaves(c: Fr, d: Fr): (t: Tree)
    ensures t == [c, d]
  {
    CapacityIs16();
    [c, d]
  }

  /** After one addition and a publish. */
  function PublishedOne(c: Fr): Ledger {
    Ledger(map[NAME := OneLeaf(c)], map[NAME := OneLeaf(c)], {})
  }

  /** After a further addition. */
  function GrownByOne(c: Fr, d: Fr): Ledger {
    Ledger(map[NAME := TwoLeaves(c, d)], map[NAME := OneLeaf(c)], {})
  }

  lemma PublishedLedger(h: (Fr, Fr) -> Fr, c: Fr, requests: seq<Request>)
    requires requests == AddAndPublish(c)
    ensures ServeAll(h, requests) == PublishedOne(c)
  {
    hide ToHex, ParseFrHex, CAPACITY, Root, ServeAll, Serve;
    var r1, r2 := AddRequest(NAME, ToHex(c)), PublishRequest(NAME);
    CapacityIs16();
    ServeNext(h, [], r1);
    ServeNext(h, [r1], r2);
    assert [] + [r1] == [r1] && [r1] + [r2] == requests;
    ServesNothing(h);
    ServesAdd(h, EMPTY_LEDGER, NAME, c);
    assert [] + [c] == [c];
    assert ServeAll(h, [r1]) == Ledger(map[NAME := OneLeaf(c)], map[], {});
    ServesPublish(h, ServeAll(h, [r1]), NAME);
  }

  lemma GrownLedger(h: (Fr, Fr) -> Fr, c: Fr, d: Fr)
    ensures Serve(h, PublishedOne(c), AddRequest(NAME, ToHex(d))).0 == GrownByOne(c, d)
  {
    hide ToHex, ParseFrHex, CAPACITY, Serve;
    CapacityIs16();
    ServesAdd(h, PublishedOne(c), NAME, d);
    assert [c] + [d] == [c, d];
  }

  lemma ServesNothing(h: (Fr, Fr) -> Fr)
    ensures ServeAll(h, []) == EMPTY_LEDGER
  {
  }

  lemma ServesPublish(h: (Fr, Fr) -> Fr, l: Ledger, issuer: string)
    ensures Serve(h, l, PublishRequest(issuer)) == ServePublish(h, l, issuer)
  {
  }

  lemma ServesProve(h: (Fr, Fr) -> Fr, l: Ledger, issuer: string, secret: Fr)
    ensures Serve(h, l, ProveRequest(issuer, ToHex(secret))) == ServeProve(h, l, issuer, secret)
  {
    hide ToHex, ParseFrHex;
    HexRoundTrip(secret);
  }

  predicate GaveProof(h: (Fr, Fr) -> Fr, s: State, id: nat) {
    id in s.handlers && ReplyOf(h, s.handlers[id]).Some? && ReplyOf(h, s.handlers[id]).value.Proved?
  }

  /**
   The promise of a refusal after every change fails for every hash and every secret: a commitment
   is added, the tree published, the commitment 0 added, and a proof request is served.
   */
  lemma ChangeGoesUnnoticed(h: (Fr, Fr) -> Fr, secret: Fr, changes: seq<Request>)
    requires changes == AddAndPublish(Commitment(h, secret)) + [AddRequest(NAME, ToHex(0))]
    ensures
      && GaveProof(h, Exec(h, SerialRun(changes + [ProveRequest(NAME, ToHex(secret))])), |changes|)
      && ServeAll(h, changes) == GrownByOne(Commitment(h, secret), 0)
  {
    hide Apply, ApplyAll, RootOf, ToHex, LeafList, Inv, Commitment, ServeAll, Serve, Represents, NullifierOf, ReplyOf,
      SerialRun, Exec;
    var c := Commitment(h, secret);
    var requests := changes + [ProveRequest(NAME, ToHex(secret))];
    CapacityIs16();
    PublishedLedger(h, c, AddAndPublish(c));
    ServeNext(h, AddAndPublish(c), AddRequest(NAME, ToHex(0)));
    GrownLedger(h, c, 0);
    ServesProve(h, ServeAll(h, changes), NAME, secret);
    GrownTreeRoot(h, OneLeaf(c), TwoLeaves(c, 0), Circuit.DEPTH);
    SerialRunIsLedger(h, requests);
    assert requests[..|changes|] == changes;
  }

  /** A proof request reads the leaves, an addition is served, and the request goes on. */
  function LateAppend(c: Fr, d: Fr, secret: Fr): seq<Event> {
    SerialRun(AddAndPublish(c)) + [Arrive(2, ProveRequest(NAME, ToHex(secret))), Run(2)]
      + Turn(3, AddRequest(NAME, ToHex(d))) + [Run(2), Run(2), Run(2)]
  }

  lemma ThreeSteps(h: (Fr, Fr) -> Fr, s: State, id: nat)
    ensures ApplyAll(h, s, [Run(id), Run(id), Run(id)]) == Apply(h, Apply(h, Apply(h, s, Run(id)), Run(id)), Run(id))
  {
    hide Apply, ApplyAll;
    var e := Run(id);
    ApplyFirst(h, s, e, [e, e]);
    ApplyFirst(h, Apply(h, s, e), e, [e]);
    ApplyFirst(h, Apply(h, Apply(h, s, e), e), e, []);
    assert [e] + [e, e] == [e, e, e] && [e] + [e] == [e, e] && [e] + [] == [e];
  }

  /** A proof request arrives and reads the leaves. */
  lemma ReadsLeaves(h: (Fr, Fr) -> Fr, s: State, id: nat, issuer: string, secret: Fr, t: Tree)
    requires id !in s.handlers && ReadTree(s.db, issuer, NotFound) == Success(t)
    ensures ApplyAll(h, s, [Arrive(id, ProveRequest(issuer, ToHex(secret))), Run(id)])
         == At(s, id, Prove(issuer, secret, LeavesRead(t)))
  {
    hide Apply, ApplyAll, ToHex, ReadTree, ParseFrHex;
    var request := ProveRequest(issuer, ToHex(secret));
    HexRoundTrip(secret);
    Arrives(h, s, id, request);
    var s1 := At(s, id, Prove(issuer, secret, ProveStart));
    ApplyFirst(h, s, Arrive(id, request), [Run(id)]);
    ApplyFirst(h, s1, Run(id), []);
    assert [Arrive(id, request)] + [Run(id)] == [Arrive(id, request), Run(id)] && [Run(id)] + [] == [Run(id)];
    RunsProve(h, s1, id, issuer, secret, ProveStart);
  }

  /** A request that has read the published leaves is served, whatever has been appended since. */
  lemma ServedLate(h: (Fr, Fr) -> Fr, s: State, id: nat, issuer: string, secret: Fr, t: Tree)
    requires RootOk(h, s, issuer) && HasRoot(s.db, issuer) && OriginOf(s, issuer) == t && Commitment(h, secret) in t
    requires id in s.handlers && s.handlers[id] == Prove(issuer, secret, LeavesRead(t))
    ensures var s' := ApplyAll(h, s, [Run(id), Run(id), Run(id)]);
      GaveProof(h, s', id) && LeafList(s'.db, issuer) == LeafList(s.db, issuer) && s'.origin == s.origin
  {
    hide Apply, ApplyAll, ToHex, Root, Commitment, NullifierOf, SelectRoot, LeafList;
    ThreeSteps(h, s, id);
    CheckTurns(h, s, id, issuer, secret, t);
    SelectRootOk(h, s, issuer);
    SameLeaves(s.db, ApplyAll(h, s, [Run(id), Run(id), Run(id)]).db, issuer);
  }

  /**
   With overlap even a commitment that is not 0 goes unnoticed, for every hash, secret and
   commitment d: it is appended after the request has read the leaves and before its check.
   */
  lemma LateAppendGoesUnnoticed(h: (Fr, Fr) -> Fr, secret: Fr, d: Fr, events: seq<Event>)
    requires events == LateAppend(Commitment(h, secret), d, secret)
    ensures var s := Exec(h, events);
      && GaveProof(h, s, 2)
      && LeafList(s.db, NAME) == [Commitment(h, secret), d] && OriginOf(s, NAME) == [Commitment(h, secret)]
  {
    hide *;
    var c := Commitment(h, secret);
    var first, late := AddAndPublish(c), AddRequest(NAME, ToHex(d));
    var read := [Arrive(2, ProveRequest(NAME, ToHex(secret))), Run(2)];
    var before := SerialRun(first) + read;
    LateAppendParts(c, d, secret);
    AfterRead(h, secret, first, before);
    var s2 := Exec(h, before);
    var s3 := Exec(h, before + Turn(3, late));
    ExecConcat(h, before, Turn(3, late));
    ExecConcat(h, before + Turn(3, late), [Run(2), Run(2), Run(2)]);
    ReachableInv(h, before);
    ReachableInv(h, before + Turn(3, late));
    TurnServed(h, s2, PublishedOne(c), 3, late);
    ServedIs(h, s3, 3, Serve(h, PublishedOne(c), late));
    GrownLedger(h, c, d);
    TurnIsOwn(3, late);
    TurnTouchesOwn(h, s2, Turn(3, late), 3, 2);
    GrownState(s3, c, d);
    StateOk(h, s3);
    InOne(c);
    ServedLate(h, s3, 2, NAME, secret, OneLeaf(c));
    SameOrigin(s3, Exec(h, events), NAME);
  }

  lemma LateAppendParts(c: Fr, d: Fr, secret: Fr)
    ensures LateAppend(c, d, secret)
         == SerialRun(AddAndPublish(c)) + [Arrive(2, ProveRequest(NAME, ToHex(secret))), Run(2)]
            + Turn(3, AddRequest(NAME, ToHex(d))) + [Run(2), Run(2), Run(2)]
  {
  }

  lemma ExecConcat(h: (Fr, Fr) -> Fr, a: seq<Event>, b: seq<Event>)
    ensures Exec(h, a + b) == ApplyAll(h, Exec(h, a), b)
  {
    ApplyConcat(h, INITIAL, a, b);
  }

  lemma AfterRead(h: (Fr, Fr) -> Fr, secret: Fr, first: seq<Request>, events: seq<Event>)
    requires first == AddAndPublish(Commitment(h, secret))
    requires events == SerialRun(first) + [Arrive(2, ProveRequest(NAME, ToHex(secret))), Run(2)]
    ensures var s, c := Exec(h, events), Commitment(h, secret);
      && 2 in s.handlers && 3 !in s.handlers
      && s.handlers[2] == Prove(NAME, secret, LeavesRead(OneLeaf(c)))
      && Represents(s.db, s.origin, PublishedOne(c))
      && forall other, issuer :: !HoldsRow(s, other, issuer)
  {
    hide Apply, ApplyAll, ToHex, LeafList, Inv, Commitment, ServeAll, Serve, Represents, ReplyOf, SerialRun, Exec,
      ReadTree;
    var c, s0 := Commitment(h, secret), Exec(h, SerialRun(first));
    PublishedLedger(h, c, first);
    SerialRunIsLedger(h, first);
    ReachableInv(h, SerialRun(first));
    StateOk(h, s0);
    SameList(s0.db, s0.origin, PublishedOne(c), NAME);
    ReadTreeOk(s0.db, NAME, NotFound);
    ExecConcat(h, SerialRun(first), [Arrive(2, ProveRequest(NAME, ToHex(secret))), Run(2)]);
    ReadsLeaves(h, s0, 2, NAME, secret, OneLeaf(c));
  }

  lemma TurnIsOwn(id: nat, request: Request)
    ensures forall k :: 0 <= k < |Turn(id, request)| ==> Turn(id, request)[k].id == id
  {
  }

  lemma GrownState(s: State, c: Fr, d: Fr)
    requires Represents(s.db, s.origin, GrownByOne(c, d))
    ensures HasRoot(s.db, NAME) && OriginOf(s, NAME) == OneLeaf(c) && LeafList(s.db, NAME) == [c, d]
  {
    hide ToHex, LeafList;
    SameList(s.db, s.origin, GrownByOne(c, d), NAME);
  }

  lemma InOne(c: Fr)
    ensures c in OneLeaf(c)
  {
  }

  lemma SameOrigin(s: State, s': State, issuer: string)
    requires s'.origin == s.origin
    ensures OriginOf(s', issuer) == OriginOf(s, issuer)
  {
  }
}
