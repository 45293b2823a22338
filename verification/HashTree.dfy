/**
 Binary hash trees over an arbitrary two-input hash. Collision resistance is never
 assumed: where binding needs it, the colliding inputs are computed.
 */
module HashTree {
  import opened NumberTheory
  import opened Wrappers

  function Pow2(n: nat): (r: nat)
    ensures r >= 1
  {
    if n == 0 then 1 else 2 * Pow2(n - 1)
  }

  /** The root of a full layer of 2^d nodes: hash of the roots of its halves. */
  function TreeRoot<T>(h: (T, T) -> T, d: nat, layer: seq<T>): T
    requires |layer| == Pow2(d)
  {
    if d == 0 then layer[0]
    else
      var half := Pow2(d - 1);
      h(TreeRoot(h, d - 1, layer[..half]), TreeRoot(h, d - 1, layer[half..]))
  }

  /** One bottom-up step: every adjacent pair is hashed. */
  function NextLevel<T>(h: (T, T) -> T, layer: seq<T>): (next: seq<T>)
    requires |layer| % 2 == 0
    ensures |next| == |layer| / 2
  {
    if layer == [] then [] else [h(layer[0], layer[1])] + NextLevel(h, layer[2..])
  }

  lemma {:induction false} NextLevelAt<T>(h: (T, T) -> T, layer: seq<T>, i: nat)
    requires |layer| % 2 == 0 && 2 * i < |layer|
    ensures NextLevel(h, layer)[i] == h(layer[2 * i], layer[2 * i + 1])
  {
    if i > 0 {
      NextLevelAt(h, layer[2..], i - 1);
    }
  }

  lemma {:induction false} NextLevelConcat<T>(h: (T, T) -> T, a: seq<T>, b: seq<T>)
    requires |a| % 2 == 0 && |b| % 2 == 0
    ensures NextLevel(h, a + b) == NextLevel(h, a) + NextLevel(h, b)
    decreases |a|
  {
    if a == [] {
      assert a + b == b;
    } else {
      assert (a + b)[2..] == a[2..] + b;
      NextLevelConcat(h, a[2..], b);
    }
  }

  lemma RootOfConcat<T>(h: (T, T) -> T, d: nat, a: seq<T>, b: seq<T>)
    requires |a| == |b| == Pow2(d)
    ensures TreeRoot(h, d + 1, a + b) == h(TreeRoot(h, d, a), TreeRoot(h, d, b))
  {
    assert (a + b)[..Pow2(d)] == a && (a + b)[Pow2(d)..] == b;
  }

  lemma Split<T>(d: nat, layer: seq<T>) returns (a: seq<T>, b: seq<T>)
    requires |layer| == Pow2(d + 1)
    ensures layer == a + b && |a| == |b| == Pow2(d)
  {
    a, b := layer[..Pow2(d)], layer[Pow2(d)..];
  }

  lemma RootOfLeaf<T>(h: (T, T) -> T, layer: seq<T>)
    requires |layer| == 1
    ensures TreeRoot(h, 0, layer) == layer[0]
  {
  }

  lemma RootOfPair<T>(h: (T, T) -> T, layer: seq<T>)
    requires |layer| == 2
    ensures TreeRoot(h, 1, layer) == TreeRoot(h, 0, NextLevel(h, layer))
  {
  }

  lemma {:induction false} RootOfNextLevel<T>(h: (T, T) -> T, d: nat, layer: seq<T>)
    requires |layer| == Pow2(d + 1)
    ensures TreeRoot(h, d + 1, layer) == TreeRoot(h, d, NextLevel(h, layer))
  {
    hide TreeRoot, NextLevel;
    if d == 0 {
      RootOfPair(h, layer);
    } else {
      var a, b := Split(d, layer);
      RootOfConcat(h, d, a, b);
      RootOfNextLevel(h, d - 1, a);
      RootOfNextLevel(h, d - 1, b);
      NextLevelConcat(h, a, b);
      RootOfConcat(h, d - 1, NextLevel(h, a), NextLevel(h, b));
    }
  }

  // ---------- membership paths ----------

  lemma AppendAssoc<T>(a: seq<T>, b: seq<T>, c: seq<T>)
    ensures a + (b + c) == a + b + c
  {
  }

  /** One step up a path; `right` says that the current node is the right child. */
  function Step<T>(h: (T, T) -> T, cur: T, sibling: T, right: bool): T {
    if right then h(sibling, cur) else h(cur, sibling)
  }

  function Fold<T>(h: (T, T) -> T, cur: T, siblings: seq<T>, rights: seq<bool>): T
    requires |siblings| == |rights|
    decreases |siblings|
  {
    if siblings == [] then cur
    else Fold(h, Step(h, cur, siblings[0], rights[0]), siblings[1..], rights[1..])
  }

  /** The number whose little-endian binary digits are `rights`. */
  function IndexOf(rights: seq<bool>): (i: nat)
    ensures i < Pow2(|rights|)
  {
    if rights == [] then 0 else (if rights[0] then 1 else 0) + 2 * IndexOf(rights[1..])
  }

  function Digits(d: nat, index: nat): (rights: seq<bool>)
    ensures |rights| == d
  {
    if d == 0 then [] else [index % 2 == 1] + Digits(d - 1, index / 2)
  }

  /** Bit i is the binary digit of the index at 2^i. */
  lemma {:induction false} DigitAt(d: nat, index: nat, i: nat)
    requires i < d
    ensures Digits(d, index)[i] <==> index / Pow2(i) % 2 == 1
  {
    if i > 0 {
      DigitAt(d - 1, index / 2, i - 1);
      DivideTwice(index, Pow2(i - 1));
    }
  }

  lemma DivideTwice(index: nat, k: nat)
    requires k > 0
    ensures index / 2 / k == index / (2 * k)
  {
    var q, m := index / (2 * k), index % (2 * k);
    assert index == 2 * (k * q) + m;
    assert index / 2 == k * q + m / 2;
    assert m / 2 < k;
    RemainderIsUnique(index / 2, k, q, m / 2);
  }

  lemma {:induction false} DigitsRoundTrip(d: nat, index: nat)
    requires index < Pow2(d)
    ensures IndexOf(Digits(d, index)) == index
  {
    if d > 0 {
      DigitsRoundTrip(d - 1, index / 2);
      assert Digits(d, index)[1..] == Digits(d - 1, index / 2);
    }
  }

  lemma {:induction false} IndexOfRoundTrip(rights: seq<bool>)
    ensures Digits(|rights|, IndexOf(rights)) == rights
  {
    if rights != [] {
      IndexOfRoundTrip(rights[1..]);
    }
  }

  /** The other node of the pair that holds `index`. */
  function Flip(index: nat): nat {
    if index % 2 == 0 then index + 1 else index - 1
  }

  function Siblings<T>(h: (T, T) -> T, d: nat, layer: seq<T>, index: nat): (s: seq<T>)
    requires |layer| == Pow2(d) && index < |layer|
    ensures |s| == d
    decreases d
  {
    if d == 0 then []
    else [layer[Flip(index)]] + Siblings(h, d - 1, NextLevel(h, layer), index / 2)
  }

  lemma StepToParent<T>(h: (T, T) -> T, layer: seq<T>, index: nat)
    requires |layer| % 2 == 0 && index < |layer|
    ensures Step(h, layer[index], layer[Flip(index)], index % 2 == 1) == NextLevel(h, layer)[index / 2]
  {
    hide NextLevel;
    NextLevelAt(h, layer, index / 2);
  }

  /** Folding a leaf along its siblings gives the root of the whole tree. */
  lemma {:induction false} FoldOfSiblings<T>(h: (T, T) -> T, d: nat, layer: seq<T>, index: nat)
    requires |layer| == Pow2(d) && index < |layer|
    ensures Fold(h, layer[index], Siblings(h, d, layer, index), Digits(d, index)) == TreeRoot(h, d, layer)
    decreases d
  {
    hide TreeRoot, NextLevel;
    if d == 0 {
      RootOfLeaf(h, layer);
    } else {
      var next := NextLevel(h, layer);
      StepToParent(h, layer, index);
      FoldOfSiblings(h, d - 1, next, index / 2);
      RootOfNextLevel(h, d - 1, layer);
      FoldCons(h, layer[index], layer[Flip(index)], Siblings(h, d - 1, next, index / 2),
               index % 2 == 1, Digits(d - 1, index / 2));
    }
  }

  lemma FoldCons<T>(h: (T, T) -> T, cur: T, s: T, siblings: seq<T>, b: bool, rights: seq<bool>)
    requires |siblings| == |rights|
    ensures Fold(h, cur, [s] + siblings, [b] + rights) == Fold(h, Step(h, cur, s, b), siblings, rights)
  {
    assert ([s] + siblings)[1..] == siblings && ([b] + rights)[1..] == rights;
  }

  // ---------- binding ----------

  datatype Collision<T> = Collision(l1: T, r1: T, l2: T, r2: T)

  /** Two different pairs of inputs with the same hash. */
  predicate Collides<T(==)>(h: (T, T) -> T, c: Collision<T>): (b: bool)
    ensures b <==> (c.l1, c.r1) != (c.l2, c.r2) && h(c.l1, c.r1) == h(c.l2, c.r2)
  {
    (c.l1 != c.l2 || c.r1 != c.r2) && h(c.l1, c.r1) == h(c.l2, c.r2)
  }

  function Pair<T>(cur: T, sibling: T, right: bool): (T, T) {
    if right then (sibling, cur) else (cur, sibling)
  }

  /** Walks a claimed path beside the real tree and stops at the first colliding pair. */
  function PathCollision<T(==)>(h: (T, T) -> T, d: nat, layer: seq<T>, cur: T, siblings: seq<T>, rights: seq<bool>)
    : Option<Collision<T>>
    requires |layer| == Pow2(d) && |siblings| == |rights| == d
    decreases d
  {
    if d == 0 then None
    else
      var k := IndexOf(rights) / 2;
      var (l, r) := Pair(cur, siblings[0], rights[0]);
      var c := Collision(l, r, layer[2 * k], layer[2 * k + 1]);
      if Collides(h, c) then Some(c)
      else
        PathCollision(h, d - 1, NextLevel(h, layer), Step(h, cur, siblings[0], rights[0]), siblings[1..], rights[1..])
  }

  lemma IndexOfCons(rights: seq<bool>)
    requires rights != []
    ensures IndexOf(rights) / 2 == IndexOf(rights[1..])
    ensures IndexOf(rights) % 2 == 1 <==> rights[0]
  {
  }

  /** A pair that hashes to the parent is the parent's own pair, or collides with it. */
  lemma PairBinds<T>(h: (T, T) -> T, layer: seq<T>, index: nat, cur: T, sibling: T)
    requires |layer| % 2 == 0 && index < |layer|
    requires Step(h, cur, sibling, index % 2 == 1) == NextLevel(h, layer)[index / 2]
    ensures var k, (l, r) := index / 2, Pair(cur, sibling, index % 2 == 1);
      Collides(h, Collision(l, r, layer[2 * k], layer[2 * k + 1]))
      || (layer[index] == cur && layer[Flip(index)] == sibling)
  {
    hide NextLevel;
    NextLevelAt(h, layer, index / 2);
  }

  /**
   A path that folds to the root of a tree is that tree's own path to the leaf at the
   position its bits spell, sibling for sibling and bit for bit, unless it yields a collision.
   */
  lemma {:induction false} PathBinds<T>(
      h: (T, T) -> T, d: nat, layer: seq<T>, cur: T, siblings: seq<T>, rights: seq<bool>)
    requires |layer| == Pow2(d) && |siblings| == |rights| == d
    requires Fold(h, cur, siblings, rights) == TreeRoot(h, d, layer)
    ensures var c := PathCollision(h, d, layer, cur, siblings, rights);
      if c.Some? then Collides(h, c.value)
      else
        && layer[IndexOf(rights)] == cur
        && siblings == Siblings(h, d, layer, IndexOf(rights)) && rights == Digits(d, IndexOf(rights))
    decreases d
  {
    hide *;
    IndexOfRoundTrip(rights);
    if d == 0 {
      NoPathBinds(h, layer, cur, siblings, rights);
    } else {
      PowerStep(d);
      var index := IndexOf(rights);
      var next, parent := NextLevel(h, layer), Step(h, cur, siblings[0], rights[0]);
      IndexOfCons(rights);
      RootOfNextLevel(h, d - 1, layer);
      assert siblings == [siblings[0]] + siblings[1..] && rights == [rights[0]] + rights[1..];
      FoldCons(h, cur, siblings[0], siblings[1..], rights[0], rights[1..]);
      PathBinds(h, d - 1, next, parent, siblings[1..], rights[1..]);
      PathCollisionStep(h, d, layer, cur, siblings, rights);
      if PathCollision(h, d, layer, cur, siblings, rights).None? {
        PairBinds(h, layer, index, cur, siblings[0]);
        SiblingsStep(h, d, layer, index);
      }
    }
  }

  lemma PowerStep(d: nat)
    requires d > 0
    ensures Pow2(d) == 2 * Pow2(d - 1)
  {
  }

  lemma NoPathBinds<T>(h: (T, T) -> T, layer: seq<T>, cur: T, siblings: seq<T>, rights: seq<bool>)
    requires |layer| == Pow2(0) && |siblings| == |rights| == 0
    requires Fold(h, cur, siblings, rights) == TreeRoot(h, 0, layer)
    ensures PathCollision(h, 0, layer, cur, siblings, rights).None?
    ensures IndexOf(rights) == 0 && layer[0] == cur && siblings == Siblings(h, 0, layer, 0)
  {
  }

  lemma PathCollisionStep<T>(h: (T, T) -> T, d: nat, layer: seq<T>, cur: T, siblings: seq<T>, rights: seq<bool>)
    requires d > 0 && |layer| == Pow2(d) && |siblings| == |rights| == d
    ensures var k, (l, r) := IndexOf(rights) / 2, Pair(cur, siblings[0], rights[0]);
      var c := Collision(l, r, layer[2 * k], layer[2 * k + 1]);
      PathCollision(h, d, layer, cur, siblings, rights)
        == if Collides(h, c) then Some(c)
           else PathCollision(h, d - 1, NextLevel(h, layer), Step(h, cur, siblings[0], rights[0]),
                              siblings[1..], rights[1..])
  {
    hide Collides, NextLevel, Step;
  }

  lemma SiblingsStep<T>(h: (T, T) -> T, d: nat, layer: seq<T>, index: nat)
    requires d > 0 && |layer| == Pow2(d) && index < |layer|
    ensures Siblings(h, d, layer, index) == [layer[Flip(index)]] + Siblings(h, d - 1, NextLevel(h, layer), index / 2)
  {
    hide NextLevel;
  }

  /** The two pairs of children below the roots of two trees. */
  function TopPairs<T>(h: (T, T) -> T, d: nat, a: seq<T>, b: seq<T>): Collision<T>
    requires |a| == |b| == Pow2(d + 1)
  {
    var half := Pow2(d);
    Collision(TreeRoot(h, d, a[..half]), TreeRoot(h, d, a[half..]),
              TreeRoot(h, d, b[..half]), TreeRoot(h, d, b[half..]))
  }

  lemma TopPairsHash<T>(h: (T, T) -> T, d: nat, a: seq<T>, b: seq<T>)
    requires |a| == |b| == Pow2(d + 1)
    ensures var c := TopPairs(h, d, a, b);
      TreeRoot(h, d + 1, a) == h(c.l1, c.r1) && TreeRoot(h, d + 1, b) == h(c.l2, c.r2)
  {
  }

  /** Looks for a pair of nodes at the same place of two trees that hash alike but differ. */
  function LayerCollision<T(==)>(h: (T, T) -> T, d: nat, a: seq<T>, b: seq<T>): Option<Collision<T>>
    requires |a| == |b| == Pow2(d)
  {
    if d == 0 then None
    else if Collides(h, TopPairs(h, d - 1, a, b)) then Some(TopPairs(h, d - 1, a, b))
    else
      var half := Pow2(d - 1);
      var left := LayerCollision(h, d - 1, a[..half], b[..half]);
      if left.Some? then left else LayerCollision(h, d - 1, a[half..], b[half..])
  }

  /** Equal roots mean equal layers, or a collision. */
  lemma {:induction false} RootBinds<T>(h: (T, T) -> T, d: nat, a: seq<T>, b: seq<T>)
    requires |a| == |b| == Pow2(d)
    requires TreeRoot(h, d, a) == TreeRoot(h, d, b)
    ensures var c := LayerCollision(h, d, a, b);
      if c.Some? then Collides(h, c.value) else a == b
  {
    hide TreeRoot;
    if d == 0 {
      RootOfLeaf(h, a);
      RootOfLeaf(h, b);
      assert a == [a[0]] && b == [b[0]];
    } else {
      TopPairsHash(h, d - 1, a, b);
      if !Collides(h, TopPairs(h, d - 1, a, b)) {
        var half := Pow2(d - 1);
        RootBinds(h, d - 1, a[..half], b[..half]);
        RootBinds(h, d - 1, a[half..], b[half..]);
        assert a == a[..half] + a[half..] && b == b[..half] + b[half..];
      }
    }
  }
}
