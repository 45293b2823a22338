/**
 The tables and the statements that the server runs against them. Each statement is a
 function of the whole database; the class Store keeps the tables and updates them in place.
 */
module Storage {
  import opened Wrappers
  import opened Field
  import opened HashTree
  import opened Hex
  import opened Encoding
  import Circuit

  /** The most leaves that one tree can hold. */
  const CAPACITY: nat := Pow2(Circuit.DEPTH)

  /** The position column is a 32-bit INTEGER. */
  const POSITIONS: nat := 0x8000_0000

  datatype StoreError = Database | BadHex | Full

  /**
   issuers maps a name to its published root, NULL being None; leaves maps an issuer to its
   rows by position, which is the primary key; nullifiers holds (issuer, nullifier) pairs.
   */
  datatype Db = Db(
    issuers: map<string, Option<string>>,
    leaves: map<string, map<nat, string>>,
    nullifiers: set<(string, string)>)

  const EMPTY_DB: Db := Db(map[], map[], {})

  lemma CapacityIs16()
    ensures CAPACITY == 16 < POSITIONS
  {
    assert Pow2(2) == 4;
  }

  // ---------- stored scalars ----------

  /** How a stored scalar is read back. */
  function FromHex(s: string): (r: Result<Fr, StoreError>)
    ensures r.Failure? ==> r.error == BadHex
  {
    match Decode(s)
    case Failure(_) => Failure(BadHex)
    case Success(bytes) => if |bytes| != 32 then Failure(BadHex) else Success(FrFromBe(bytes))
  }

  /** Stored scalars are read back as themselves. */
  lemma StoredRoundTrip(f: Fr)
    ensures FromHex(ToHex(f)) == Success(f)
  {
    HexRoundTrip(f);
    FrRoundTrip(f);
  }

  /** Stored text is read like a client's text, with one error for everything that does not parse. */
  lemma StoredIsParsed(s: string)
    ensures FromHex(s) == if ParseFrHex(s).Success? then Success(ParseFrHex(s).value) else Failure(BadHex)
  {
  }

  // ---------- statements ----------

  function Rows(db: Db, issuer: string): map<nat, string> {
    if issuer in db.leaves then db.leaves[issuer] else map[]
  }

  /** INSERT INTO issuers ... ON CONFLICT DO NOTHING. */
  function WithIssuer(db: Db, name: string): Db {
    if name in db.issuers then db else db.(issuers := db.issuers[name := None])
  }

  /** INSERT INTO leaves: refused by the foreign key and by the primary key. */
  function WithLeaf(db: Db, issuer: string, position: nat, text: string): Result<Db, StoreError> {
    if issuer !in db.issuers || position in Rows(db, issuer) then Failure(Database)
    else Success(db.(leaves := db.leaves[issuer := Rows(db, issuer)[position := text]]))
  }

  /** UPDATE issuers SET published_root: without a row for the issuer nothing changes. */
  function WithRoot(db: Db, issuer: string, text: string): Db {
    if issuer in db.issuers then db.(issuers := db.issuers[issuer := Some(text)]) else db
  }

  /** INSERT INTO generated_nullifiers ... ON CONFLICT DO NOTHING: refused by the foreign key only. */
  function WithNullifier(db: Db, issuer: string, text: string): Result<Db, StoreError> {
    if issuer !in db.issuers then Failure(Database)
    else Success(db.(nullifiers := db.nullifiers + {(issuer, text)}))
  }

  /** The rows below a position, in ascending order. */
  function OrderedBelow(rows: map<nat, string>, bound: nat): seq<string> {
    if bound == 0 then []
    else OrderedBelow(rows, bound - 1) + if bound - 1 in rows then [rows[bound - 1]] else []
  }

  /** SELECT commitment ... ORDER BY position. */
  function SelectCommitments(db: Db, issuer: string): seq<string> {
    OrderedBelow(Rows(db, issuer), POSITIONS)
  }

  function ReadAll(texts: seq<string>): (r: Result<seq<Fr>, StoreError>)
    ensures if r.Success? then |r.value| == |texts| else r.error == BadHex
  {
    if texts == [] then Success([])
    else
      var first :- FromHex(texts[0]);
      var rest :- ReadAll(texts[1..]);
      Success([first] + rest)
  }

  function SelectLeaves(db: Db, issuer: string): (r: Result<seq<Fr>, StoreError>)
    ensures r.Failure? ==> r.error == BadHex
  {
    ReadAll(SelectCommitments(db, issuer))
  }

  /** SELECT published_root, with a missing row and NULL both read as none. */
  function SelectRoot(db: Db, issuer: string): (r: Result<Option<Fr>, StoreError>)
    ensures r.Failure? ==> r.error == BadHex
  {
    if issuer in db.issuers && db.issuers[issuer].Some? then
      var root :- FromHex(db.issuers[issuer].value);
      Success(Some(root))
    else Success(None)
  }

  // ---------- healthy tables ----------

  /** The value of a stored text; 0 stands for text that does not parse. */
  function Leaf(text: string): Fr {
    if FromHex(text).Success? then FromHex(text).value else 0
  }

  /** Rows at 0, 1, ..., n-1 without a gap, no more than the tree can hold, all of them canonical text. */
  ghost predicate Dense(rows: map<nat, string>) {
    && |rows| <= CAPACITY
    && (forall k: nat :: k in rows <==> k < |rows|)
    && forall k: nat :: k in rows ==> rows[k] == ToHex(Leaf(rows[k]))
  }

  /** The commitments of an issuer by position. */
  function LeafList(db: Db, issuer: string): (list: seq<Fr>)
    ensures |list| == |Rows(db, issuer)|
  {
    var rows := Rows(db, issuer);
    seq(|rows|, k requires 0 <= k < |rows| => if k in rows then Leaf(rows[k]) else 0)
  }

  lemma {:induction false} OrderedDense(rows: map<nat, string>, bound: nat)
    requires forall k: nat :: k in rows <==> k < |rows|
    ensures var n := if bound <= |rows| then bound else |rows|;
      && |OrderedBelow(rows, bound)| == n
      && forall k :: 0 <= k < n ==> OrderedBelow(rows, bound)[k] == rows[k]
  {
    if bound > 0 {
      OrderedDense(rows, bound - 1);
    }
  }

  lemma CanonicalText(f: Fr)
    ensures Leaf(ToHex(f)) == f
  {
    StoredRoundTrip(f);
  }

  function Values(texts: seq<string>): (list: seq<Fr>)
    ensures |list| == |texts|
  {
    seq(|texts|, k requires 0 <= k < |texts| => Leaf(texts[k]))
  }

  lemma {:induction false} ReadAllCanonical(texts: seq<string>)
    requires forall k :: 0 <= k < |texts| ==> texts[k] == ToHex(Leaf(texts[k]))
    ensures ReadAll(texts) == Success(Values(texts))
  {
    hide FromHex, ToHex, Leaf;
    if texts != [] {
      ReadAllCanonical(texts[1..]);
      StoredRoundTrip(Leaf(texts[0]));
      assert Values(texts) == [Leaf(texts[0])] + Values(texts[1..]);
    }
  }

  /** Reading a dense table gives its commitments in order: no parse can fail. */
  lemma SelectDense(db: Db, issuer: string)
    requires Dense(Rows(db, issuer))
    ensures SelectLeaves(db, issuer) == Success(LeafList(db, issuer))
  {
    hide FromHex, ToHex, Leaf, OrderedBelow, ReadAll, POSITIONS;
    CapacityIs16();
    OrderedDense(Rows(db, issuer), POSITIONS);
    ReadAllCanonical(SelectCommitments(db, issuer));
    assert Values(SelectCommitments(db, issuer)) == LeafList(db, issuer);
  }

  lemma DenseExtend(rows: map<nat, string>, commitment: Fr)
    requires Dense(rows) && |rows| < CAPACITY
    ensures Dense(rows[|rows| := ToHex(commitment)])
  {
    hide FromHex, ToHex, Leaf, CAPACITY;
    CanonicalText(commitment);
    var n := |rows|;
    var rows' := rows[n := ToHex(commitment)];
    assert |rows'| == n + 1;
  }

  /** Inserting at the count appends to the list and leaves all other lists alone. */
  lemma AppendLeaf(db: Db, issuer: string, commitment: Fr)
    requires Dense(Rows(db, issuer)) && |Rows(db, issuer)| < CAPACITY && issuer in db.issuers
    ensures var r := WithLeaf(db, issuer, |Rows(db, issuer)|, ToHex(commitment));
      && r.Success?
      && Dense(Rows(r.value, issuer))
      && LeafList(r.value, issuer) == LeafList(db, issuer) + [commitment]
      && forall other :: other != issuer ==> Rows(r.value, other) == Rows(db, other)
  {
    hide FromHex, ToHex, Leaf, CAPACITY;
    var n := |Rows(db, issuer)|;
    CanonicalText(commitment);
    DenseExtend(Rows(db, issuer), commitment);
    var db' := WithLeaf(db, issuer, n, ToHex(commitment)).value;
    assert Rows(db', issuer) == Rows(db, issuer)[n := ToHex(commitment)];
    assert LeafList(db', issuer) == LeafList(db, issuer) + [commitment];
  }

  // ---------- the store ----------

  class Store {
    var issuers: map<string, Option<string>>
    var leaves: map<string, map<nat, string>>
    var nullifiers: set<(string, string)>

    function Contents(): Db
      reads this
    {
      Db(issuers, leaves, nullifiers)
    }

    constructor ()
      ensures Contents() == EMPTY_DB == Db(map[], map[], {})
    {
      issuers, leaves, nullifiers := map[], map[], {};
    }

    method EnsureIssuer(name: string)
      modifies `issuers
      ensures Contents() == WithIssuer(old(Contents()), name)
    {
      if name !in issuers {
        issuers := issuers[name := None];
      }
    }

    method CountLeaves(issuer: string) returns (n: nat)
      ensures n == |Rows(Contents(), issuer)|
    {
      n := if issuer in leaves then |leaves[issuer]| else 0;
    }

    /**
     Appends a leaf. A full tree is left as it is; a dense one grows by exactly this commitment,
     at the returned position; only a table with a gap can make the insertion fail.
     */
    method AddLeaf(issuer: string, commitment: Fr) returns (r: Result<(nat, nat), StoreError>)
      modifies `issuers, `leaves
      ensures var n := |old(Rows(Contents(), issuer))|;
        r == if n >= CAPACITY then Failure(Full)
             else if n in old(Rows(Contents(), issuer)) then Failure(Database)
             else Success((n, n + 1))
      ensures r.Success? ==>
        WithLeaf(WithIssuer(old(Contents()), issuer), issuer, r.value.0, ToHex(commitment)) == Success(Contents())
      ensures r.Failure? ==> Contents() == WithIssuer(old(Contents()), issuer)
      ensures old(Dense(Rows(Contents(), issuer))) ==>
        && Dense(Rows(Contents(), issuer))
        && r != Failure(Database)
        && LeafList(Contents(), issuer) == old(LeafList(Contents(), issuer)) + if r.Success? then [commitment] else []
    {
      hide FromHex, ToHex, Leaf, CAPACITY, Dense;
      EnsureIssuer(issuer);
      ghost var registered := Contents();
      var count := CountLeaves(issuer);
      if old(Dense(Rows(Contents(), issuer))) && count < CAPACITY {
        AppendLeaf(registered, issuer, commitment);
      }
      if count >= CAPACITY {
        return Failure(Full);
      }
      var position := count;
      var rows := if issuer in leaves then leaves[issuer] else map[];
      if position in rows {
        return Failure(Database);
      }
      leaves := leaves[issuer := rows[position := ToHex(commitment)]];
      r := Success((position, count + 1));
    }

    /** The commitments in order of position. */
    method Leaves(issuer: string) returns (r: Result<seq<Fr>, StoreError>)
      ensures r == SelectLeaves(Contents(), issuer)
      ensures Dense(Rows(Contents(), issuer)) ==> r == Success(LeafList(Contents(), issuer))
    {
      hide Dense, LeafList;
      r := SelectLeaves(Contents(), issuer);
      if Dense(Rows(Contents(), issuer)) {
        SelectDense(Contents(), issuer);
      }
    }

    /** The root is stored for the issuer, who exists afterwards, and for nobody else. */
    method SetPublishedRoot(issuer: string, root: Fr)
      modifies `issuers
      ensures Contents() == WithRoot(WithIssuer(old(Contents()), issuer), issuer, ToHex(root))
      ensures SelectRoot(Contents(), issuer) == Success(Some(root))
      ensures forall other :: other != issuer ==> SelectRoot(Contents(), other) == old(SelectRoot(Contents(), other))
    {
      hide FromHex, ToHex;
      EnsureIssuer(issuer);
      if issuer in issuers {
        issuers := issuers[issuer := Some(ToHex(root))];
      }
      StoredRoundTrip(root);
    }

    method PublishedRoot(issuer: string) returns (r: Result<Option<Fr>, StoreError>)
      ensures r == SelectRoot(Contents(), issuer)
      ensures issuer !in issuers || issuers[issuer].None? ==> r == Success(None)
      ensures issuer in issuers && issuers[issuer].Some? ==>
        && (forall x: Fr :: issuers[issuer].value == ToHex(x) ==> r == Success(Some(x)))
        && (r.Failure? <==> FromHex(issuers[issuer].value) == Failure(BadHex))
    {
      hide FromHex, ToHex;
      if issuer in issuers && issuers[issuer].Some? {
        forall x: Fr | issuers[issuer].value == ToHex(x)
          ensures FromHex(issuers[issuer].value) == Success(x)
        {
          StoredRoundTrip(x);
        }
        var root :- FromHex(issuers[issuer].value);
        return Success(Some(root));
      }
      r := Success(None);
    }

    /** Notes a nullifier; noting it again changes nothing. */
    method RecordNullifier(issuer: string, nullifier: Fr) returns (r: Result<(), StoreError>)
      modifies `nullifiers
      ensures r.Success? <==> issuer in old(issuers)
      ensures r.Success? ==> nullifiers == old(nullifiers) + {(issuer, ToHex(nullifier))}
      ensures r.Failure? ==> r.error == Database && nullifiers == old(nullifiers)
      ensures var noted := WithNullifier(old(Contents()), issuer, ToHex(nullifier));
        Contents() == if noted.Success? then noted.value else old(Contents())
    {
      if issuer !in issuers {
        return Failure(Database);
      }
      nullifiers := nullifiers + {(issuer, ToHex(nullifier))};
      r := Success(());
    }
  }
}
