/**
 What `nft_burn` amounts to. The code removes NFTs one by one, in whatever order the storage
 layer drains the `Children` rows. On every table of rows a successful burn removes exactly what
 can be reached, whatever the order. Where those rows are a tree, the counters are exact too and
 the depth budget alone decides about success.
 */
module BurnTheory {
  import opened Prelude
  import opened AccountCodec
  import opened Rows
  import opened CoreSpec

  function InCollection(items: set<Item>, c: u32): set<Item> {
    set x | x in items && x.collection == c
  }

  function MinusSaturating(a: u32, k: nat): u32 {
    if a <= k then 0 else a - k
  }

  /** The row under which the NFT's own record says it hangs: clearing the NFT removes it. */
  predicate OwnRow(nfts: map<Item, NftInfo>, row: (Item, Item)) {
    row.1 in nfts && nfts[row.1].owner == CollectionAndNftTuple(row.0)
  }

  /** The NFTs `gone` taken away, with their resources, the rows below them and their own rows. */
  ghost function Pruned(s: Core, gone: set<Item>): Core {
    s.(nfts := s.nfts - gone,
       resources := map r | r in s.resources && r.0 !in gone :: s.resources[r],
       children := (set row | row in s.children && row.0 !in gone && !(row.1 in gone && OwnRow(s.nfts, row))))
  }

  ghost predicate CollectionsKnown(s: Core, items: set<Item>) {
    forall x :: x in items ==> x.collection in s.collections
  }

  /** `t` is `s` without `gone`, as far as nothing but counters may differ. */
  ghost predicate PrunedTo(s: Core, gone: set<Item>, t: Core) {
    t == Pruned(s, gone).(collections := t.collections)
  }

  // ---------- what every burn keeps ----------

  ghost function LiveIn(s: Core, c: u32): set<Item> {
    InCollection(s.nfts.Keys, c)
  }

  /** `t` differs from `s` only by removals; a counter drops at least as far as the number of live NFTs. */
  ghost predicate Shrunk(s: Core, t: Core) {
    && t == s.(nfts := t.nfts, children := t.children, resources := t.resources, collections := t.collections)
    && (forall x :: x in t.nfts ==> x in s.nfts && t.nfts[x] == s.nfts[x])
    && t.children <= s.children
    && t.collections.Keys == s.collections.Keys
    && forall c :: c in s.collections ==> CounterShrunk(s, t, c)
  }

  ghost predicate CounterShrunk(s: Core, t: Core, c: u32)
    requires c in s.collections && c in t.collections
  {
    && t.collections[c] == s.collections[c].(nftsCount := t.collections[c].nftsCount)
    && t.collections[c].nftsCount <= s.collections[c].nftsCount
    && (t.collections[c].nftsCount == 0
        || t.collections[c].nftsCount + |LiveIn(s, c)| <= s.collections[c].nftsCount + |LiveIn(t, c)|)
  }

  lemma ShrunkTwice(s: Core, t: Core, u: Core)
    requires Shrunk(s, t) && Shrunk(t, u)
    ensures Shrunk(s, u)
  {
    forall c | c in s.collections
      ensures CounterShrunk(s, u, c)
    {
      assert CounterShrunk(s, t, c) && CounterShrunk(t, u, c);
    }
  }

  lemma LiveWithout(nfts: map<Item, NftInfo>, n: Item, c: u32)
    ensures |InCollection(nfts.Keys, c)| <= |InCollection((nfts - {n}).Keys, c)| + if n.collection == c then 1 else 0
  {
    var before, after := InCollection(nfts.Keys, c), InCollection((nfts - {n}).Keys, c);
    if n in before {
      assert before == after + {n};
    } else {
      assert before == after;
    }
  }

  lemma {:induction false} BurnsShrink(s: Core, n: Item, b: nat, r: Result<Core, Error>)
    requires Burns(s, n, b, r) && r.Ok?
    ensures Shrunk(s, r.value)
    decreases b, 0
  {
    var q :| Drains(Cleared(s, n), n, b - 1, q) && r == ThenUncounted(q, n.collection);
    DrainsShrink(Cleared(s, n), n, b - 1, q);
    var u, t := Cleared(s, n), r.value;
    forall c | c in s.collections
      ensures CounterShrunk(s, t, c)
    {
      assert CounterShrunk(u, q.value, c);
      LiveWithout(s.nfts, n, c);
    }
  }

  lemma {:induction false} DrainsShrink(s: Core, n: Item, b: nat, q: Result<Core, Error>)
    requires Drains(s, n, b, q) && q.Ok?
    ensures Shrunk(s, q.value)
    decreases b, 1, s.children
  {
    if RowsOf(s.children, n) != {} {
      var row, r :| DrainsFirst(s, n, b, row, r, q);
      var s1 := WithoutRow(s, row);
      assert Shrunk(s, s1);
      BurnsShrink(s1, row.1, b, r);
      DrainsShrink(r.value, n, b, q);
      ShrunkTwice(s1, r.value, q.value);
      ShrunkTwice(s, s1, q.value);
    }
  }

  // ---------- what is gone ----------

  lemma PrunedTwice(s: Core, a: set<Item>, t: Core, b: set<Item>, u: Core)
    requires PrunedTo(s, a, t) && PrunedTo(t, b, u)
    ensures PrunedTo(s, a + b, u)
  {
    var v := Pruned(s, a + b);
    assert u.nfts == v.nfts;
    assert u.resources == v.resources;
    assert u.children == v.children;
  }

  /** The storage after `n` itself was cleared, before its rows are drained. */
  ghost predicate IsCleared(s: Core, n: Item) {
    n !in s.nfts && forall r :: r in s.resources ==> r.0 != n
  }

  lemma ClearedReaches(s: Core, n: Item)
    ensures Reach(Cleared(s, n).children, n) == Reach(s.children, n)
    ensures IsCleared(Cleared(s, n), n)
  {
    ReachWithoutReturn(s.children, n, Cleared(s, n).children);
  }

  lemma PrunedCleared(s: Core, n: Item, gone: set<Item>, t: Core)
    requires n in gone && PrunedTo(Cleared(s, n), gone, t)
    ensures PrunedTo(s, gone, t)
  {
    var u := Pruned(s, gone);
    assert t.nfts == u.nfts;
    assert t.resources == u.resources;
    assert t.children == u.children;
  }

  lemma NothingBelow(s: Core, n: Item)
    requires IsCleared(s, n) && RowsOf(s.children, n) == {}
    ensures PrunedTo(s, Reach(s.children, n), s) && Below(s.children, n) == {}
  {
    forall row | row in s.children
      ensures row.0 != n
    {
      assert row !in RowsOf(s.children, n);
    }
    ReachAlone(s.children, n);
    var u := Pruned(s, {n});
    assert u.nfts == s.nfts;
    assert u.resources == s.resources;
    assert u.children == s.children;
  }

  /** What the burn of the first child leaves of the rows below `n`. */
  lemma FirstChildGone(s: Core, n: Item, z: Item, t: Core)
    requires (n, z) in s.children
    requires PrunedTo(WithoutRow(s, (n, z)), Reach(s.children - {(n, z)}, z), t)
    ensures WithoutPart(s.children, n, z, t.children)
    ensures Reach(s.children, n) == Reach(s.children - {(n, z)}, z) + Reach(t.children, n)
    ensures Below(s.children, n) == Reach(s.children - {(n, z)}, z) + Below(t.children, n)
  {
    hide Reach, Below;
    ReachInTwoParts(s.children, n, z, t.children);
  }

  lemma DrainedTogether(s: Core, n: Item, z: Item, part: set<Item>, t: Core, left: set<Item>, u: Core)
    requires (n, z) in s.children && n in left
    requires PrunedTo(WithoutRow(s, (n, z)), part, t) && PrunedTo(t, left, u)
    ensures PrunedTo(s, part + left, u)
  {
    var s1 := WithoutRow(s, (n, z));
    PrunedTwice(s1, part, t, left, u);
    assert Pruned(s1, part + left).children == Pruned(s, part + left).children;
  }

  /**
   A successful burn removes exactly the NFTs reached from `n`, their resources, every row out of
   them and every own row of one that was live. The table of rows may be anything.
   */
  lemma {:induction false} BurnsExact(s: Core, n: Item, b: nat, t: Core)
    requires Burns(s, n, b, Ok(t))
    ensures t == Pruned(s, Reach(s.children, n)).(collections := t.collections)
    decreases b, 0
  {
    hide Pruned, Reach;
    var q :| Drains(Cleared(s, n), n, b - 1, q) && Ok(t) == ThenUncounted(q, n.collection);
    ClearedReaches(s, n);
    DrainsExact(Cleared(s, n), n, b - 1, q.value);
    var gone := Reach(s.children, n);
    ReachClosed(s.children, n);
    PrunedCleared(s, n, gone, q.value);
  }

  lemma {:induction false} DrainsExact(s: Core, n: Item, b: nat, q: Core)
    requires IsCleared(s, n) && Drains(s, n, b, Ok(q))
    ensures PrunedTo(s, Reach(s.children, n), q)
    decreases b, 1, s.children
  {
    hide Reach;
    if RowsOf(s.children, n) == {} {
      NothingBelow(s, n);
    } else {
      var row, r :| DrainsFirst(s, n, b, row, r, Ok(q));
      var z, t := row.1, r.value;
      BurnsExact(WithoutRow(s, row), z, b, t);
      FirstChildGone(s, n, z, t);
      DrainsExact(t, n, b, q);
      ReachClosed(t.children, n);
      DrainedTogether(s, n, z, Reach(s.children - {row}, z), t, Reach(t.children, n), q);
    }
  }

  /** Whatever order rows are drained in, two burns that succeed leave the same storage, but for counters. */
  lemma BurnIgnoresOrder(s: Core, n: Item, b1: nat, b2: nat, t1: Core, t2: Core)
    requires Burns(s, n, b1, Ok(t1)) && Burns(s, n, b2, Ok(t2))
    ensures t1 == t2.(collections := t1.collections)
  {
    BurnsExact(s, n, b1, t1);
    BurnsExact(s, n, b2, t2);
  }

  // ---------- what is counted ----------

  lemma InCollectionAdds(a: set<Item>, b: set<Item>, c: u32)
    ensures |InCollection(a + b, c)| == |InCollection(a, c)| + |InCollection(b, c)| - |InCollection(a * b, c)|
  {
    assert InCollection(a + b, c) == InCollection(a, c) + InCollection(b, c);
    assert InCollection(a * b, c) == InCollection(a, c) * InCollection(b, c);
  }

  /** Collection `c` was counted down by `k` or more. */
  ghost predicate CountsOff(s: Core, t: Core, c: u32, k: nat) {
    c in s.collections ==>
      c in t.collections && t.collections[c].nftsCount <= MinusSaturating(s.collections[c].nftsCount, k)
  }

  ghost predicate CountsOffAtMost(s: Core, t: Core, c: u32, k: nat) {
    c in s.collections ==>
      c in t.collections && t.collections[c].nftsCount >= MinusSaturating(s.collections[c].nftsCount, k)
  }

  /** What a burn counts off besides what it drains: `n`, at the very end. */
  function OneIn(n: Item, c: u32): nat {
    if n.collection == c then 1 else 0
  }

  lemma ReachCounted(rel: Table, n: Item, c: u32)
    ensures |InCollection(Reach(rel, n), c)| <= |InCollection(Below(rel, n), c)| + OneIn(n, c)
    ensures n !in Below(rel, n) || n.collection != c ==>
              |InCollection(Reach(rel, n), c)| == |InCollection(Below(rel, n), c)| + OneIn(n, c)
  {
    ReachIsBelow(rel, n);
    assert InCollection({n}, c) == if n.collection == c then {n} else {};
    InCollectionAdds({n}, Below(rel, n), c);
    if n !in Below(rel, n) || n.collection != c {
      assert InCollection({n} * Below(rel, n), c) == {};
    }
  }

  /** Everything reached is counted off at least once, dead or alive; and `n` once more if it is drained as well. */
  lemma {:induction false} BurnsCount(s: Core, n: Item, b: nat, t: Core, c: u32)
    requires Burns(s, n, b, Ok(t))
    ensures CountsOff(s, t, c, |InCollection(Reach(s.children, n), c)|)
    ensures CountsOff(s, t, c, |InCollection(Below(Cleared(s, n).children, n), c)| + OneIn(n, c))
    decreases b, 0
  {
    hide Reach, Below;
    var q :| Drains(Cleared(s, n), n, b - 1, q) && Ok(t) == ThenUncounted(q, n.collection);
    ClearedReaches(s, n);
    DrainsCount(Cleared(s, n), n, b - 1, q.value, c);
    ReachCounted(Cleared(s, n).children, n, c);
  }

  lemma {:induction false} DrainsCount(s: Core, n: Item, b: nat, q: Core, c: u32)
    requires IsCleared(s, n) && Drains(s, n, b, Ok(q))
    ensures CountsOff(s, q, c, |InCollection(Below(s.children, n), c)|)
    decreases b, 1, s.children
  {
    hide Reach, Below;
    if RowsOf(s.children, n) == {} {
      NothingBelow(s, n);
      assert InCollection({}, c) == {};
    } else {
      var row, r :| DrainsFirst(s, n, b, row, r, Ok(q));
      var z, t := row.1, r.value;
      BurnsExact(WithoutRow(s, row), z, b, t);
      BurnsCount(WithoutRow(s, row), z, b, t, c);
      FirstChildGone(s, n, z, t);
      DrainsCount(t, n, b, q, c);
      InCollectionAdds(Reach(s.children - {row}, z), Below(t.children, n), c);
    }
  }

  // ---------- when it succeeds ----------

  /** With the collections known, only the budget can fail, and does not if every chain fits. */
  lemma {:induction false} BurnSucceeds(s: Core, n: Item, b: nat, r: Result<Core, Error>)
    requires Burns(s, n, b, r) && CollectionsKnown(s, Reach(s.children, n))
    ensures r.Ok? || r == Err(TooManyRecursions)
    ensures ChainsFit(s.children, n, b) ==> r.Ok?
    decreases b, 0
  {
    hide Reach, ChainsFit;
    ReachClosed(s.children, n);
    if b == 0 {
      NoChainFits(s.children, n);
    } else {
      var q :| Drains(Cleared(s, n), n, b - 1, q) && r == ThenUncounted(q, n.collection);
      ClearedReaches(s, n);
      ReachIsBelow(Cleared(s, n).children, n);
      DrainSucceeds(Cleared(s, n), n, b - 1, q);
      if ChainsFit(s.children, n, b) {
        ChainsFitShrink(s.children, n, Cleared(s, n).children, b);
      }
      if q.Ok? {
        DrainsShrink(Cleared(s, n), n, b - 1, q);
      }
    }
  }

  lemma NoChainFits(rel: Table, n: Item)
    ensures !ChainsFit(rel, n, 0)
  {
    assert Hops(rel, n, n, 0);
  }

  lemma {:induction false} DrainSucceeds(s: Core, n: Item, b: nat, q: Result<Core, Error>)
    requires IsCleared(s, n) && Drains(s, n, b, q) && CollectionsKnown(s, Below(s.children, n))
    ensures q.Ok? || q == Err(TooManyRecursions)
    ensures ChainsFit(s.children, n, b + 1) ==> q.Ok?
    decreases b, 1, s.children
  {
    hide Reach, Below, ChainsFit, Pruned, Shrunk;
    if RowsOf(s.children, n) != {} {
      var row, r :| DrainsFirst(s, n, b, row, r, q);
      var z, s1 := row.1, WithoutRow(s, row);
      ChildBelow(s.children, n, z);
      BurnSucceeds(s1, z, b, r);
      if ChainsFit(s.children, n, b + 1) {
        ChainsFitChild(s.children, n, z, s1.children, b + 1);
      }
      if r.Ok? {
        RestOfDrain(s, n, z, b, r.value);
        DrainSucceeds(r.value, n, b, q);
        if ChainsFit(s.children, n, b + 1) {
          ChainsFitShrink(s.children, n, r.value.children, b + 1);
        }
      }
    }
  }

  /** Where the drain goes on after its first child. */
  lemma RestOfDrain(s: Core, n: Item, z: Item, b: nat, t: Core)
    requires IsCleared(s, n) && (n, z) in s.children && Burns(WithoutRow(s, (n, z)), z, b, Ok(t))
    ensures IsCleared(t, n) && t.children <= s.children - {(n, z)} && t.collections.Keys == s.collections.Keys
    ensures Below(t.children, n) <= Below(s.children, n) && Reach(t.children, n) <= Reach(s.children, n)
  {
    hide Below, Reach;
    BurnsShrink(WithoutRow(s, (n, z)), z, b, Ok(t));
    BurnsExact(WithoutRow(s, (n, z)), z, b, t);
    FirstChildGone(s, n, z, t);
  }

  /** No burn succeeds that reaches an NFT of an unknown collection. */
  lemma {:induction false} BurnNeedsCollections(s: Core, n: Item, b: nat, t: Core)
    requires Burns(s, n, b, Ok(t))
    ensures CollectionsKnown(s, Reach(s.children, n))
    decreases b, 0
  {
    hide Reach, Below;
    var u := Cleared(s, n);
    var q :| Drains(u, n, b - 1, q) && Ok(t) == ThenUncounted(q, n.collection);
    DrainNeedsCollections(u, n, b - 1, q.value);
    DrainsShrink(u, n, b - 1, q);
    ClearedReaches(s, n);
    ReachIsBelow(u.children, n);
  }

  lemma {:induction false} DrainNeedsCollections(s: Core, n: Item, b: nat, q: Core)
    requires IsCleared(s, n) && Drains(s, n, b, Ok(q))
    ensures CollectionsKnown(s, Below(s.children, n))
    decreases b, 1, s.children
  {
    hide Reach, Below, Pruned, Shrunk;
    if RowsOf(s.children, n) == {} {
      NothingBelow(s, n);
    } else {
      var row, r :| DrainsFirst(s, n, b, row, r, Ok(q));
      var t := r.value;
      BurnNeedsCollections(WithoutRow(s, row), row.1, b, t);
      RestOfDrain(s, n, row.1, b, t);
      DrainNeedsCollections(t, n, b, q);
      BurnsExact(WithoutRow(s, row), row.1, b, t);
      FirstChildGone(s, n, row.1, t);
    }
  }

  lemma ChildBelow(rel: Table, n: Item, z: Item)
    requires (n, z) in rel
    ensures Reach(rel - {(n, z)}, z) <= Below(rel, n)
  {
    var sub := rel - {(n, z)};
    ChildReached(rel, n, z);
    ReachClosed(rel, n);
    ReachMonotone(rel, n, sub, z);
    ReachIsBelow(sub, z);
  }

  // ---------- trees ----------

  /** On a tree a burn that succeeds had the budget for the longest chain. */
  lemma {:induction false} BurnNeedsBudget(s: Core, n: Item, b: nat, t: Core)
    requires Burns(s, n, b, Ok(t)) && TreeBelow(s.children, n)
    ensures ChainsFit(s.children, n, b)
    decreases b, 0
  {
    hide Reach, Below, ChainsFit;
    var q :| Drains(Cleared(s, n), n, b - 1, q) && Ok(t) == ThenUncounted(q, n.collection);
    ClearedReaches(s, n);
    TreeShrinks(s.children, n, Cleared(s, n).children);
    DrainNeedsBudget(Cleared(s, n), n, b - 1, q.value);
    ChainsFitWithoutReturn(s.children, n, Cleared(s, n).children, b);
  }

  lemma {:induction false} DrainNeedsBudget(s: Core, n: Item, b: nat, q: Core)
    requires IsCleared(s, n) && Drains(s, n, b, Ok(q)) && TreeBelow(s.children, n)
    ensures ChainsFit(s.children, n, b + 1)
    decreases b, 1, s.children
  {
    hide Reach, Below, ChainsFit;
    if RowsOf(s.children, n) == {} {
      ChainsFitAlone(s.children, n, b);
    } else {
      var row, r :| DrainsFirst(s, n, b, row, r, Ok(q));
      var z, t := row.1, r.value;
      BurnsExact(WithoutRow(s, row), z, b, t);
      FirstChildGone(s, n, z, t);
      TreeInTwoParts(s.children, n, z, t.children);
      BurnNeedsBudget(WithoutRow(s, row), z, b, t);
      DrainNeedsBudget(t, n, b, q);
      TreeChains(s.children, n, z, t.children, b);
    }
  }

  lemma ChainsFitAlone(rel: Table, n: Item, b: nat)
    requires RowsOf(rel, n) == {}
    ensures ChainsFit(rel, n, b + 1)
  {
    forall row | row in rel
      ensures row.0 != n
    {
      assert row !in RowsOf(rel, n);
    }
    forall x, k: nat | Hops(rel, n, x, k)
      ensures k == 0
    {
      if k > 0 {
        var c := HopsFirst(rel, n, x, k);
      }
    }
  }

  /** Where no row leads back to `n`, rows into `n` lengthen no chain below it. */
  lemma ChainsFitWithoutReturn(rel: Table, n: Item, sub: Table, b: nat)
    requires sub <= rel && (forall row :: row in rel && row !in sub ==> row.1 == n)
    requires n !in Below(rel, n) && ChainsFit(sub, n, b)
    ensures ChainsFit(rel, n, b)
  {
    forall x, k: nat | Hops(rel, n, x, k)
      ensures k < b
    {
      HopsWithoutReturn(rel, n, sub, x, k);
    }
  }

  lemma {:induction false} HopsWithoutReturn(rel: Table, n: Item, sub: Table, x: Item, k: nat)
    requires sub <= rel && (forall row :: row in rel && row !in sub ==> row.1 == n)
    requires n !in Below(rel, n) && Hops(rel, n, x, k)
    ensures Hops(sub, n, x, k)
    decreases k
  {
    hide Below;
    if k > 0 {
      var y :| Hops(rel, n, y, k - 1) && (y, x) in rel;
      HopsWithoutReturn(rel, n, sub, y, k - 1);
      LastHop(rel, n, x, k);
      assert (y, x) in sub;
    }
  }
}
