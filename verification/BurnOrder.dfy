/**
 When `nfts_count` comes out right. An NFT reached by two rows may be burnt, and counted off,
 twice; whether it is depends on the order in which rows are drained, and on the row that its
 own record names, which disappears with the NFT. This module says exactly when every order of
 draining leaves the right count, on every table of rows.
 */
module BurnOrder {
  import opened Prelude
  import opened AccountCodec
  import opened Ownership
  import opened Rows
  import opened CoreSpec
  import opened BurnTheory

  /** The rows that do not lead into `x`. */
  function Avoiding(rel: Table, x: Item): Table {
    set row | row in rel && row.1 != x
  }

  /** Row (`q`, `x`) is still there after `x` was reached another way, and what hangs on `q` is drained too. */
  ghost predicate Again(rel: Table, nfts: map<Item, NftInfo>, n: Item, q: Item, x: Item) {
    (q, x) in rel && q in Reach(rel, n) && !OwnRow(nfts, (q, x))
  }

  /** Some order of draining comes to `x`, which is not `n`, by a first row and later by another one. */
  ghost predicate TwoWays(rel: Table, nfts: map<Item, NftInfo>, n: Item, x: Item) {
    exists p, q :: p != q && (p, x) in rel && p in Reach(Avoiding(rel, x), n) && Again(rel, nfts, n, q, x)
  }

  /** A burn of `n` may count `x` off twice. */
  ghost predicate Twice(s: Core, n: Item, x: Item) {
    if x == n then exists q :: Again(s.children, s.nfts, n, q, n) else TwoWays(s.children, s.nfts, n, x)
  }

  // ---------- paths that avoid an item ----------

  lemma FirstEntry(rel: Table, z: Item, x: Item) returns (p: Item)
    requires x in Reach(rel, z) && x != z
    ensures p in Reach(Avoiding(rel, x), z) && (p, x) in rel
  {
    var before := Reach(Avoiding(rel, x), z);
    ReachClosed(Avoiding(rel, x), z);
    ReachIsBelow(Avoiding(rel, x), z);
    assert x !in before;
    if forall row :: row in rel && row.0 in before ==> row.1 != x {
      ReachLeast(rel, z, before);
      assert false;
    }
    var row :| row in rel && row.0 in before && row.1 == x;
    p := row.0;
  }

  /** The last time a path from `n` leaves `n`: after that it keeps off the rows out of `n`. */
  lemma {:induction false} LastLeave(rel: Table, n: Item, p: Item, k: nat) returns (z: Item)
    requires Hops(rel, n, p, k) && p != n
    ensures (n, z) in rel && z != n && p in Reach(rel - {(n, z)}, z)
    ensures p in Reach(NotFrom(rel, n), z)
    decreases k
  {
    var y :| Hops(rel, n, y, k - 1) && (y, p) in rel;
    if y == n {
      z := p;
    } else {
      z := LastLeave(rel, n, y, k - 1);
    }
    ReachClosed(NotFrom(rel, n), z);
    assert y != n ==> (y, p) in NotFrom(rel, n);
    ReachClosed(rel - {(n, z)}, z);
    ReachMonotone(rel - {(n, z)}, z, NotFrom(rel, n), z);
  }

  function NotFrom(rel: Table, n: Item): Table {
    set row | row in rel && row.0 != n
  }

  /** Where a path to `p` that avoids `x` first goes, and that the rest of it avoids `x` and the row taken. */
  lemma FirstStep(rel: Table, n: Item, p: Item, x: Item) returns (z: Item)
    requires p in Reach(Avoiding(rel, x), n) && p != n
    ensures (n, z) in rel && z != n && z != x && p in Reach(Avoiding(rel - {(n, z)}, x), z)
  {
    var k: nat :| Hops(Avoiding(rel, x), n, p, k);
    z := LastLeave(Avoiding(rel, x), n, p, k);
    assert Avoiding(rel, x) - {(n, z)} == Avoiding(rel - {(n, z)}, x);
  }

  /** What is reached from a child of `n` off `x` is reached from `n` off `x`. */
  lemma ThroughChild(rel: Table, n: Item, z: Item, x: Item)
    requires (n, z) in rel && z != x
    ensures Reach(Avoiding(rel - {(n, z)}, x), z) <= Reach(Avoiding(rel, x), n)
  {
    ChildReached(Avoiding(rel, x), n, z);
    ReachMonotone(Avoiding(rel, x), n, Avoiding(rel - {(n, z)}, x), z);
  }

  // ---------- a successful burn exists ----------

  /** Enough budget for any table: one for each row, and one for `n`. */
  lemma {:induction false} BurnExists(s: Core, n: Item, b: nat) returns (t: Core)
    requires CollectionsKnown(s, Reach(s.children, n)) && b > |s.children|
    ensures Burns(s, n, b, Ok(t))
    decreases b, 0
  {
    hide Reach;
    ReachClosed(s.children, n);
    ClearedReaches(s, n);
    ReachIsBelow(Cleared(s, n).children, n);
    SubsetSize(Cleared(s, n).children, s.children);
    var q := DrainExists(Cleared(s, n), n, b - 1);
    t := BurnFromDrain(s, n, b, q);
  }

  lemma BurnFromDrain(s: Core, n: Item, b: nat, q: Core) returns (t: Core)
    requires b > 0 && Drains(Cleared(s, n), n, b - 1, Ok(q)) && n.collection in s.collections
    ensures Burns(s, n, b, Ok(t)) && Uncounted(q, n.collection) == Ok(t)
  {
    DrainsShrink(Cleared(s, n), n, b - 1, Ok(q));
    hide Drains;
    t := Uncounted(q, n.collection).value;
    assert ThenUncounted(Ok(q), n.collection) == Ok(t);
  }

  lemma {:induction false} DrainExists(s: Core, n: Item, b: nat) returns (q: Core)
    requires IsCleared(s, n) && CollectionsKnown(s, Below(s.children, n)) && b >= |s.children|
    ensures Drains(s, n, b, Ok(q))
    decreases b, 1, s.children
  {
    hide Reach, Below, Pruned, Shrunk;
    if RowsOf(s.children, n) == {} {
      q := s;
    } else {
      var row :| row in RowsOf(s.children, n);
      ChildBelow(s.children, n, row.1);
      var t := BurnExists(WithoutRow(s, row), row.1, b);
      q := DrainOnExists(s, n, row.1, b, t);
    }
  }

  /** However the first child was burnt, the rest of the drain can succeed. */
  lemma {:induction false} DrainOnExists(s: Core, n: Item, z: Item, b: nat, t: Core) returns (q: Core)
    requires IsCleared(s, n) && CollectionsKnown(s, Below(s.children, n)) && b >= |s.children|
    requires (n, z) in s.children && Burns(WithoutRow(s, (n, z)), z, b, Ok(t))
    ensures Drains(s, n, b, Ok(q)) && Drains(t, n, b, Ok(q)) && t.children <= s.children - {(n, z)}
    decreases b, 1, s.children, 0
  {
    hide Reach, Below, Pruned, Shrunk, Burns;
    RestOfDrain(s, n, z, b, t);
    SubsetSize(t.children, s.children);
    q := DrainExists(t, n, b);
    hide Drains;
    DrainStarts(s, n, z, b, t, q);
  }

  lemma DrainStarts(s: Core, n: Item, z: Item, b: nat, t: Core, q: Core)
    requires (n, z) in s.children && Burns(WithoutRow(s, (n, z)), z, b, Ok(t))
    requires t.children <= s.children - {(n, z)} && Drains(t, n, b, Ok(q))
    ensures Drains(s, n, b, Ok(q))
  {
    assert DrainsFirst(s, n, b, (n, z), Ok(t), Ok(q));
  }

  // ---------- an order that counts twice ----------

  /** An item in both sets is counted twice. */
  lemma SharedCounts(a: set<Item>, b: set<Item>, c: u32, x: Item)
    requires x in a && x in b && x.collection == c
    ensures |InCollection(a, c)| + |InCollection(b, c)| >= |InCollection(a + b, c)| + 1
  {
    InCollectionAdds(a, b, c);
    assert x in InCollection(a * b, c);
  }

  lemma CountsOffAdds(s: Core, t: Core, u: Core, c: u32, j: nat, k: nat, m: nat)
    requires CountsOff(s, t, c, j) && CountsOff(t, u, c, k) && m <= j + k
    ensures CountsOff(s, u, c, m)
  {
  }

  /** A row into `x` that outlives the first burn of `x` makes the rest of the drain count `x` again. */
  lemma RowSurvives(s: Core, n: Item, z: Item, t: Core, q: Item, x: Item)
    requires (n, z) in s.children && Again(s.children, s.nfts, n, q, x) && (q, x) != (n, z)
    requires PrunedTo(WithoutRow(s, (n, z)), Reach(s.children - {(n, z)}, z), t)
    requires q !in Reach(s.children - {(n, z)}, z)
    ensures x in Below(t.children, n)
  {
    hide Reach;
    FirstChildGone(s, n, z, t);
    assert (q, x) in t.children;
    assert (q, x).0 in Reach(t.children, n);
  }

  /** Some order counts `x` off twice. */
  lemma {:induction false} BurnTwice(s: Core, n: Item, b: nat, c: u32, x: Item) returns (t: Core)
    requires CollectionsKnown(s, Reach(s.children, n)) && b > |s.children|
    requires Twice(s, n, x) && x.collection == c
    ensures Burns(s, n, b, Ok(t)) && CountsOff(s, t, c, |InCollection(Reach(s.children, n), c)| + 1)
    decreases b, 0
  {
    hide Reach, Below;
    var u := Cleared(s, n);
    ReachClosed(s.children, n);
    ClearedReaches(s, n);
    ReachIsBelow(u.children, n);
    SubsetSize(u.children, s.children);
    if x == n {
      t := BurnExists(s, n, b);
      BurnsCount(s, n, b, t, c);
      ReturnCounts(s, n, c);
    } else {
      ClearedTwoWays(s, n, x);
      var q := DrainTwice(u, n, b - 1, c, x);
      t := BurnFromDrain(s, n, b, q);
      ReachCounted(u.children, n, c);
    }
  }

  /** A row back into `n` that is not its own makes `n` count among what is drained below it. */
  lemma ReturnCounts(s: Core, n: Item, c: u32)
    requires Twice(s, n, n)
    ensures |InCollection(Reach(s.children, n), c)| == |InCollection(Below(Cleared(s, n).children, n), c)|
  {
    var q :| Again(s.children, s.nfts, n, q, n);
    var u := Cleared(s, n);
    ClearedReaches(s, n);
    ReachIsBelow(u.children, n);
    hide Reach, Below;
    ItselfBelow(u.children, n, q);
    assert {n} + Below(u.children, n) == Below(u.children, n);
  }

  lemma ItselfBelow(rel: Table, n: Item, q: Item)
    requires (q, n) in rel && q in Reach(rel, n)
    ensures n in Below(rel, n)
  {
    assert (q, n).0 in Reach(rel, n);
  }

  /** Clearing `n` leaves every way to another NFT as it was. */
  lemma ClearedTwoWays(s: Core, n: Item, x: Item)
    requires x != n
    ensures TwoWays(Cleared(s, n).children, Cleared(s, n).nfts, n, x) <==> TwoWays(s.children, s.nfts, n, x)
  {
    var u := Cleared(s, n);
    ClearedReaches(s, n);
    ReachWithoutReturn(Avoiding(s.children, x), n, Avoiding(u.children, x));
    hide Reach;
    assert forall p :: (p, x) in u.children <==> (p, x) in s.children;
    assert forall p :: OwnRow(u.nfts, (p, x)) <==> OwnRow(s.nfts, (p, x));
    assert forall q :: Again(u.children, u.nfts, n, q, x) <==> Again(s.children, s.nfts, n, q, x);
  }

  lemma {:induction false} DrainTwice(s: Core, n: Item, b: nat, c: u32, x: Item) returns (u: Core)
    requires IsCleared(s, n) && CollectionsKnown(s, Below(s.children, n)) && b >= |s.children|
    requires x != n && TwoWays(s.children, s.nfts, n, x) && x.collection == c
    ensures Drains(s, n, b, Ok(u)) && CountsOff(s, u, c, |InCollection(Below(s.children, n), c)| + 1)
    decreases b, 1
  {
    hide Reach, Below, Pruned, Shrunk, Burns, Drains, Twice;
    var p, q :| p != q && (p, x) in s.children && p in Reach(Avoiding(s.children, x), n)
                && Again(s.children, s.nfts, n, q, x);
    var z := x;
    if p != n {
      z := FirstStep(s.children, n, p, x);
    }
    var s1 := WithoutRow(s, (n, z));
    var part := Reach(s1.children, z);
    FirstReaches(s.children, n, z, p, q, x);
    ChildBelow(s.children, n, z);
    var t: Core;
    if q in part {
      SecondInside(s, n, z, p, q, x);
      t := BurnTwice(s1, z, b, c, x);
    } else {
      t := BurnExists(s1, z, b);
      BurnsCount(s1, z, b, t, c);
    }
    u := DrainOnExists(s, n, z, b, t);
    DrainCountsAgain(s, n, z, b, t, u, c, x, q);
  }

  /** The count of a drain in which `x` comes up once in the first child, and again there or in the rest. */
  lemma DrainCountsAgain(s: Core, n: Item, z: Item, b: nat, t: Core, u: Core, c: u32, x: Item, q: Item)
    requires IsCleared(s, n) && (n, z) in s.children && x.collection == c
    requires Burns(WithoutRow(s, (n, z)), z, b, Ok(t)) && Drains(t, n, b, Ok(u))
    requires var part := Reach(s.children - {(n, z)}, z);
             x in part && CountsOff(s, t, c, |InCollection(part, c)| + if q in part then 1 else 0)
    requires Again(s.children, s.nfts, n, q, x) && (q, x) != (n, z)
    ensures CountsOff(s, u, c, |InCollection(Below(s.children, n), c)| + 1)
  {
    hide Reach, Below, Pruned, Shrunk, Burns, Drains;
    var part, left := Reach(s.children - {(n, z)}, z), Below(t.children, n);
    RestOfDrain(s, n, z, b, t);
    BurnsExact(WithoutRow(s, (n, z)), z, b, t);
    FirstChildGone(s, n, z, t);
    DrainsCount(t, n, b, u, c);
    InCollectionAdds(part, left, c);
    if q !in part {
      RowSurvives(s, n, z, t, q, x);
      SharedCounts(part, left, c, x);
    }
    assert Below(s.children, n) == part + left;
    CountsOffAdds(s, t, u, c, |InCollection(part, c)| + if q in part then 1 else 0, |InCollection(left, c)|,
                  |InCollection(part + left, c)| + 1);
  }

  /** Going for `p` first reaches `x`, by a row other than that of `q`. */
  lemma FirstReaches(rel: Table, n: Item, z: Item, p: Item, q: Item, x: Item)
    requires (n, z) in rel && p != q && (p, x) in rel && (q, x) in rel
    requires if p == n then z == x else z != x && p in Reach(Avoiding(rel - {(n, z)}, x), z)
    ensures x in Reach(rel - {(n, z)}, z) && (q, x) != (n, z)
  {
    var sub := rel - {(n, z)};
    ReachClosed(sub, z);
    if p != n {
      ReachMonotone(sub, z, Avoiding(sub, x), z);
      assert (p, x) in sub && (p, x).0 in Reach(sub, z);
    }
  }

  /** Both rows into `x` are drained inside the first child. */
  lemma SecondInside(s: Core, n: Item, z: Item, p: Item, q: Item, x: Item)
    requires (n, z) in s.children && p != q && (p, x) in s.children
    requires Again(s.children, s.nfts, n, q, x) && q in Reach(s.children - {(n, z)}, z)
    requires if p == n then z == x else z != x && p in Reach(Avoiding(s.children - {(n, z)}, x), z)
    ensures Twice(WithoutRow(s, (n, z)), z, x)
  {
    hide Reach;
    assert (q, x) != (n, z);
    assert Again(s.children - {(n, z)}, s.nfts, z, q, x);
  }

  // ---------- no order counts twice ----------

  /** None of the items in collection `c` can be counted off twice. */
  ghost predicate NeverTwice(s: Core, n: Item, items: set<Item>, c: u32) {
    forall x :: x in InCollection(items, c) ==> !Twice(s, n, x)
  }

  /** The same for a drain of the rows below `n`, which comes back to `n` not even once. */
  ghost predicate DrainsOnce(s: Core, n: Item, c: u32) {
    forall x :: x in InCollection(Below(s.children, n), c) ==> x != n && !TwoWays(s.children, s.nfts, n, x)
  }

  lemma ClearedDrainsOnce(s: Core, n: Item, c: u32)
    requires NeverTwice(s, n, Reach(s.children, n), c)
    ensures DrainsOnce(Cleared(s, n), n, c)
  {
    var u := Cleared(s, n);
    ClearedReaches(s, n);
    ReachIsBelow(u.children, n);
    forall x | x in InCollection(Below(u.children, n), c)
      ensures x != n && !TwoWays(u.children, u.nfts, n, x)
    {
      assert x in InCollection(Reach(s.children, n), c);
      if x == n {
        ReturnIsAgain(s, n);
      } else {
        ClearedTwoWays(s, n, x);
      }
    }
  }

  lemma ReturnIsAgain(s: Core, n: Item)
    requires n in Below(Cleared(s, n).children, n)
    ensures Twice(s, n, n)
  {
    var u := Cleared(s, n);
    ClearedReaches(s, n);
    var row :| row in u.children && row.0 in Reach(u.children, n) && row.1 == n;
    hide Reach;
    assert row == (row.0, n);
    assert Again(s.children, s.nfts, n, row.0, n);
  }

  lemma {:induction false} BurnsCountOnce(s: Core, n: Item, b: nat, t: Core, c: u32)
    requires Burns(s, n, b, Ok(t)) && NeverTwice(s, n, Reach(s.children, n), c)
    ensures CountsOffAtMost(s, t, c, |InCollection(Reach(s.children, n), c)|)
    decreases b, 0
  {
    hide Reach, Below, DrainsOnce, NeverTwice;
    var q :| Drains(Cleared(s, n), n, b - 1, q) && Ok(t) == ThenUncounted(q, n.collection);
    ClearedDrainsOnce(s, n, c);
    DrainsCountOnce(Cleared(s, n), n, b - 1, q.value, c);
    ClearedReaches(s, n);
    OnceIsNotBack(Cleared(s, n), n, c);
    ReachCounted(Cleared(s, n).children, n, c);
  }

  lemma OnceIsNotBack(s: Core, n: Item, c: u32)
    requires DrainsOnce(s, n, c)
    ensures n !in Below(s.children, n) || n.collection != c
  {
    assert n in InCollection(Below(s.children, n), c) <==> n in Below(s.children, n) && n.collection == c;
  }

  lemma {:induction false} DrainsCountOnce(s: Core, n: Item, b: nat, q: Core, c: u32)
    requires IsCleared(s, n) && Drains(s, n, b, Ok(q)) && DrainsOnce(s, n, c)
    ensures CountsOffAtMost(s, q, c, |InCollection(Below(s.children, n), c)|)
    decreases b, 1, s.children
  {
    hide Reach, Below, Pruned, DrainsOnce, NeverTwice;
    if RowsOf(s.children, n) == {} {
      assert CountsOffAtMost(s, q, c, 0);
    } else {
      var row, r :| DrainsFirst(s, n, b, row, r, Ok(q));
      var z, t := row.1, r.value;
      BurnsExact(WithoutRow(s, row), z, b, t);
      OnceInFirst(s, n, z, c);
      BurnsCountOnce(WithoutRow(s, row), z, b, t, c);
      OnceInRest(s, n, z, t, c);
      FirstChildGone(s, n, z, t);
      RestOfDrain(s, n, z, b, t);
      DrainsCountOnce(t, n, b, q, c);
      InCollectionAdds(Reach(s.children - {row}, z), Below(t.children, n), c);
    }
  }

  /** A child reached twice inside its own subtree would have been reached twice from `n`. */
  lemma OnceInFirst(s: Core, n: Item, z: Item, c: u32)
    requires (n, z) in s.children && DrainsOnce(s, n, c)
    ensures NeverTwice(WithoutRow(s, (n, z)), z, Reach(s.children - {(n, z)}, z), c)
  {
    var s1 := WithoutRow(s, (n, z));
    ChildBelow(s.children, n, z);
    hide Reach, Below, Twice, TwoWays;
    forall x | x in InCollection(Reach(s1.children, z), c)
      ensures !Twice(s1, z, x)
    {
      assert x in InCollection(Below(s.children, n), c);
      if x == z {
        OnceAtChild(s, n, z);
      } else {
        OnceBelowChild(s, n, z, x);
      }
    }
  }

  lemma OnceAtChild(s: Core, n: Item, z: Item)
    requires (n, z) in s.children && !TwoWays(s.children, s.nfts, n, z)
    ensures !Twice(WithoutRow(s, (n, z)), z, z)
  {
    var s1 := WithoutRow(s, (n, z));
    ChildReached(s.children, n, z);
    ReachMonotone(s.children, n, s1.children, z);
    ReachClosed(Avoiding(s.children, z), n);
    hide Reach;
    forall q
      ensures !Again(s1.children, s1.nfts, z, q, z)
    {
      assert Again(s1.children, s1.nfts, z, q, z) ==> Again(s.children, s.nfts, n, q, z) && n != q;
    }
  }

  lemma OnceBelowChild(s: Core, n: Item, z: Item, x: Item)
    requires (n, z) in s.children && x != z && !TwoWays(s.children, s.nfts, n, x)
    ensures !Twice(WithoutRow(s, (n, z)), z, x)
  {
    var s1 := WithoutRow(s, (n, z));
    ChildReached(s.children, n, z);
    ReachMonotone(s.children, n, s1.children, z);
    ThroughChild(s.children, n, z, x);
    hide Reach;
    forall p, q | p != q && (p, x) in s1.children && p in Reach(Avoiding(s1.children, x), z)
      ensures !Again(s1.children, s1.nfts, z, q, x)
    {
      assert Again(s1.children, s1.nfts, z, q, x) ==> Again(s.children, s.nfts, n, q, x);
    }
  }

  /** What the first child took is not drained again, and the rest has no second way to anything either. */
  lemma OnceInRest(s: Core, n: Item, z: Item, t: Core, c: u32)
    requires (n, z) in s.children && DrainsOnce(s, n, c)
    requires PrunedTo(WithoutRow(s, (n, z)), Reach(s.children - {(n, z)}, z), t)
    ensures DrainsOnce(t, n, c)
    ensures InCollection(Reach(s.children - {(n, z)}, z) * Below(t.children, n), c) == {}
  {
    var part := Reach(s.children - {(n, z)}, z);
    FirstChildGone(s, n, z, t);
    forall x | x in InCollection(Below(t.children, n), c)
      ensures x != n && x !in part && !TwoWays(t.children, t.nfts, n, x)
    {
      NotDrainedAgain(s, n, z, t, c, x);
      NoTwoWaysInRest(s, n, z, t, x);
    }
  }

  lemma NotDrainedAgain(s: Core, n: Item, z: Item, t: Core, c: u32, x: Item)
    requires (n, z) in s.children && DrainsOnce(s, n, c)
    requires PrunedTo(WithoutRow(s, (n, z)), Reach(s.children - {(n, z)}, z), t)
    requires x in InCollection(Below(t.children, n), c)
    ensures x != n && !TwoWays(s.children, s.nfts, n, x) && x !in Reach(s.children - {(n, z)}, z)
  {
    FirstChildGone(s, n, z, t);
    assert x in InCollection(Below(s.children, n), c);
    if x in Reach(s.children - {(n, z)}, z) {
      DrainedAgain(s, n, z, t, x);
    }
  }

  /** A first way to what the child `z` reaches. */
  lemma WayThroughFirst(rel: Table, n: Item, z: Item, x: Item) returns (p: Item)
    requires (n, z) in rel && x in Reach(rel - {(n, z)}, z)
    ensures (p, x) in rel && p in Reach(Avoiding(rel, x), n)
    ensures (p == n && x == z) || p in Reach(rel - {(n, z)}, z)
  {
    var sub := rel - {(n, z)};
    if x == z {
      p := n;
      ReachClosed(Avoiding(rel, x), n);
    } else {
      p := FirstEntry(sub, z, x);
      ThroughChild(rel, n, z, x);
      ReachClosed(sub, z);
      ReachMonotone(sub, z, Avoiding(sub, x), z);
    }
  }

  /** What comes up in the first child and in the rest has two ways to it. */
  lemma DrainedAgain(s: Core, n: Item, z: Item, t: Core, x: Item)
    requires (n, z) in s.children
    requires PrunedTo(WithoutRow(s, (n, z)), Reach(s.children - {(n, z)}, z), t)
    requires x in Reach(s.children - {(n, z)}, z) && x in Below(t.children, n)
    ensures TwoWays(s.children, s.nfts, n, x)
  {
    FirstChildGone(s, n, z, t);
    var row :| row in t.children && row.0 in Reach(t.children, n) && row.1 == x;
    var p := WayThroughFirst(s.children, n, z, x);
    hide Reach, Below;
    assert row == (row.0, x);
    assert Again(s.children, s.nfts, n, row.0, x);
  }

  lemma NoTwoWaysInRest(s: Core, n: Item, z: Item, t: Core, x: Item)
    requires (n, z) in s.children && !TwoWays(s.children, s.nfts, n, x)
    requires PrunedTo(WithoutRow(s, (n, z)), Reach(s.children - {(n, z)}, z), t)
    requires x !in Reach(s.children - {(n, z)}, z)
    ensures !TwoWays(t.children, t.nfts, n, x)
  {
    var part := Reach(s.children - {(n, z)}, z);
    FirstChildGone(s, n, z, t);
    ReachClosed(Avoiding(s.children, x), n);
    ReachMonotone(Avoiding(s.children, x), n, Avoiding(t.children, x), n);
    hide Reach;
    forall p, q | p != q && (p, x) in t.children && p in Reach(Avoiding(t.children, x), n)
      ensures !Again(t.children, t.nfts, n, q, x)
    {
      assert Again(t.children, t.nfts, n, q, x) ==> Again(s.children, s.nfts, n, q, x);
    }
  }

  // ---------- the counters ----------

  lemma LiveSplit(s: Core, t: Core, gone: set<Item>, c: u32)
    requires t.nfts.Keys == s.nfts.Keys - gone
    ensures |LiveIn(s, c)| == |LiveIn(t, c)| + |InCollection(gone * s.nfts.Keys, c)|
    ensures |InCollection(gone, c)| == |InCollection(gone * s.nfts.Keys, c)| + |InCollection(gone - s.nfts.Keys, c)|
  {
    InCollectionAdds(t.nfts.Keys, gone * s.nfts.Keys, c);
    assert t.nfts.Keys + gone * s.nfts.Keys == s.nfts.Keys;
    assert InCollection(t.nfts.Keys * (gone * s.nfts.Keys), c) == {};
    InCollectionAdds(gone * s.nfts.Keys, gone - s.nfts.Keys, c);
    assert gone * s.nfts.Keys + (gone - s.nfts.Keys) == gone;
    assert InCollection(gone * s.nfts.Keys * (gone - s.nfts.Keys), c) == {};
  }

  ghost predicate CounterExact(s: Core, c: u32) {
    c in s.collections && s.collections[c].nftsCount == |LiveIn(s, c)|
  }

  /**
   What the burn of `n` does to collection `c` cannot miscount: nothing dead, and nothing twice; or nothing is
   left.
   */
  ghost predicate CountsRight(s: Core, n: Item, c: u32) {
    var gone := Reach(s.children, n);
    LiveIn(s, c) <= gone
    || forall x :: x in InCollection(gone, c) ==> x in s.nfts && !Twice(s, n, x)
  }

  /** On any table, the burn keeps an exact counter exact in whatever order it drains, if nothing can be miscounted. */
  lemma BurnCountsRight(s: Core, n: Item, b: nat, t: Core, c: u32)
    requires CounterExact(s, c) && CountsRight(s, n, c) && Burns(s, n, b, Ok(t))
    ensures CounterExact(t, c)
  {
    var gone := Reach(s.children, n);
    BurnsExact(s, n, b, t);
    BurnsShrink(s, n, b, Ok(t));
    BurnsCount(s, n, b, t, c);
    hide Reach, Below, Shrunk, Burns, Twice;
    LiveSplit(s, t, gone, c);
    if LiveIn(s, c) <= gone {
      assert InCollection(gone * s.nfts.Keys, c) == LiveIn(s, c);
    } else {
      BurnsCountOnce(s, n, b, t, c);
      assert InCollection(gone - s.nfts.Keys, c) == {};
    }
  }

  /** A live NFT that stays makes one count too many show. */
  lemma OneTooMany(s: Core, gone: set<Item>, t: Core, c: u32, k: nat)
    requires CounterExact(s, c) && t.nfts.Keys == s.nfts.Keys - gone && !(LiveIn(s, c) <= gone)
    requires CountsOff(s, t, c, k) && k > |InCollection(gone * s.nfts.Keys, c)|
    ensures !CounterExact(t, c)
  {
    LiveSplit(s, t, gone, c);
    var y :| y in LiveIn(s, c) && y !in gone;
    assert y in LiveIn(t, c);
  }

  /** ... and only then: otherwise some order of draining leaves the wrong count. */
  lemma BurnMiscounts(s: Core, n: Item, c: u32) returns (t: Core)
    requires CounterExact(s, c) && !CountsRight(s, n, c) && CollectionsKnown(s, Reach(s.children, n))
    ensures Burns(s, n, |s.children| + 1, Ok(t)) && !CounterExact(t, c)
  {
    var gone, b := Reach(s.children, n), |s.children| + 1;
    var x :| x in InCollection(gone, c) && (x !in s.nfts || Twice(s, n, x));
    hide Reach, Twice;
    var k := |InCollection(gone, c)|;
    LiveSplit(s, Pruned(s, gone), gone, c);
    if x !in s.nfts {
      t := BurnExists(s, n, b);
      BurnsCount(s, n, b, t, c);
      assert x in InCollection(gone - s.nfts.Keys, c);
    } else {
      t := BurnTwice(s, n, b, c, x);
      k := k + 1;
    }
    BurnsExact(s, n, b, t);
    OneTooMany(s, gone, t, c, k);
  }

  /**
   An exact counter stays exact in every order of draining, at every budget, iff the burn either takes the last
   live NFTs of the collection, or reaches no dead NFT of it and none that could be counted off twice; or no burn
   can succeed.
   */
  lemma BurnKeepsCounterIff(s: Core, n: Item, c: u32)
    requires CounterExact(s, c)
    ensures (forall b: nat, t :: Burns(s, n, b, Ok(t)) ==> CounterExact(t, c)) <==>
            (CollectionsKnown(s, Reach(s.children, n)) ==> CountsRight(s, n, c))
  {
    hide CountsRight, Burns, Reach;
    forall b: nat, t | Burns(s, n, b, Ok(t)) && (CollectionsKnown(s, Reach(s.children, n)) ==> CountsRight(s, n, c))
      ensures CounterExact(t, c)
    {
      BurnNeedsCollections(s, n, b, t);
      BurnCountsRight(s, n, b, t, c);
    }
    if CollectionsKnown(s, Reach(s.children, n)) && !CountsRight(s, n, c) {
      var t := BurnMiscounts(s, n, c);
    }
  }

  // ---------- trees ----------

  /** On a tree nothing is counted twice. */
  lemma TreeNeverTwice(s: Core, n: Item, c: u32)
    requires TreeBelow(s.children, n)
    ensures NeverTwice(s, n, Reach(s.children, n), c)
  {
    ReachIsBelow(s.children, n);
    hide Reach;
    forall x | x in Reach(s.children, n)
      ensures !Twice(s, n, x)
    {
      TreeHasOneWay(s.children, s.nfts, n, x);
    }
  }

  lemma TreeDrainsOnce(s: Core, n: Item, c: u32)
    requires TreeBelow(s.children, n)
    ensures DrainsOnce(s, n, c)
  {
    hide Reach, Below;
    forall x | x in InCollection(Below(s.children, n), c)
      ensures x != n && !TwoWays(s.children, s.nfts, n, x)
    {
      TreeHasOneWay(s.children, s.nfts, n, x);
    }
  }

  lemma TreeHasOneWay(rel: Table, nfts: map<Item, NftInfo>, n: Item, x: Item)
    requires TreeBelow(rel, n)
    ensures !TwoWays(rel, nfts, n, x) && forall q :: !Again(rel, nfts, n, q, n)
  {
    ReachClosed(rel, n);
    ReachMonotone(rel, n, Avoiding(rel, x), n);
    hide Reach;
    forall q
      ensures !Again(rel, nfts, n, q, n)
    {
      if (q, n) in rel && q in Reach(rel, n) {
        ItselfBelow(rel, n, q);
      }
    }
    forall p, q | p != q && (p, x) in rel && p in Reach(Avoiding(rel, x), n)
      ensures !Again(rel, nfts, n, q, x)
    {
      assert (p, x) in rel && (p, x).1 == (q, x).1 && (p, x) != (q, x);
    }
  }

  /** Where nothing reached is dead or can be counted twice, a counter drops by just what its collection loses. */
  lemma BurnCountsExactly(s: Core, n: Item, b: nat, t: Core, c: u32)
    requires CounterExact(s, c) && Burns(s, n, b, Ok(t))
    requires forall x :: x in InCollection(Reach(s.children, n), c) ==> x in s.nfts && !Twice(s, n, x)
    ensures CounterExact(t, c)
    ensures t.collections[c].nftsCount == s.collections[c].nftsCount - |InCollection(Reach(s.children, n), c)|
  {
    var gone := Reach(s.children, n);
    BurnsExact(s, n, b, t);
    BurnCountsRight(s, n, b, t, c);
    hide Reach, Burns, Twice;
    LiveSplit(s, t, gone, c);
    assert InCollection(gone - s.nfts.Keys, c) == {};
  }

  /** On a tree the order is of no consequence at all: whether the counter stays exact is decided beforehand. */
  lemma TreeKeepsCounterIff(s: Core, n: Item, b: nat, t: Core, c: u32)
    requires TreeBelow(s.children, n) && CounterExact(s, c) && Burns(s, n, b, Ok(t))
    ensures CounterExact(t, c) <==>
            LiveIn(s, c) <= Reach(s.children, n) || InCollection(Reach(s.children, n) - s.nfts.Keys, c) == {}
  {
    hide Reach, Burns, Twice, TreeBelow;
    var gone := Reach(s.children, n);
    TreeNeverTwice(s, n, c);
    assert InCollection(gone - s.nfts.Keys, c) == {} ==> forall x :: x in InCollection(gone, c) ==> x in s.nfts by {
      assert forall x :: x in InCollection(gone, c) && x !in s.nfts ==> x in InCollection(gone - s.nfts.Keys, c);
    }
    if LiveIn(s, c) <= gone || InCollection(gone - s.nfts.Keys, c) == {} {
      BurnCountsRight(s, n, b, t, c);
    } else {
      BurnsExact(s, n, b, t);
      BurnsCount(s, n, b, t, c);
      LiveSplit(s, t, gone, c);
      OneTooMany(s, gone, t, c, |InCollection(gone, c)|);
    }
  }

  lemma TreeBurnIgnoresOrder(s: Core, n: Item, b1: nat, b2: nat, t1: Core, t2: Core)
    requires TreeBelow(s.children, n) && Burns(s, n, b1, Ok(t1)) && Burns(s, n, b2, Ok(t2))
    ensures t1 == t2
  {
    hide Reach, Burns, TreeBelow, NeverTwice;
    BurnIgnoresOrder(s, n, b1, b2, t1, t2);
    BurnsShrink(s, n, b1, Ok(t1));
    BurnsShrink(s, n, b2, Ok(t2));
    forall c | c in s.collections
      ensures t1.collections[c] == t2.collections[c]
    {
      TreeNeverTwice(s, n, c);
      BurnsCount(s, n, b1, t1, c);
      BurnsCount(s, n, b2, t2, c);
      BurnsCountOnce(s, n, b1, t1, c);
      BurnsCountOnce(s, n, b2, t2, c);
      assert CounterShrunk(s, t1, c) && CounterShrunk(s, t2, c);
    }
    assert t1.collections == t2.collections;
  }
}
