/**
 The `Children` index as a relation: rows (parent, child), with no assumption on them. What can
 be reached from an NFT by following rows downwards, and how that changes as rows disappear.
 */
module Rows {
  import opened AccountCodec

  type Table = set<(Item, Item)>

  /** `x` is reached from `n` in `k` rows. */
  ghost predicate Hops(rel: Table, n: Item, x: Item, k: nat)
    decreases k
  {
    if k == 0 then x == n else exists y :: Hops(rel, n, y, k - 1) && (y, x) in rel
  }

  ghost function Nodes(rel: Table): set<Item> {
    (set row | row in rel :: row.0) + (set row | row in rel :: row.1)
  }

  /** `n` and everything reached from it. */
  ghost function Reach(rel: Table, n: Item): set<Item> {
    set x | x in Nodes(rel) + {n} && exists k: nat :: Hops(rel, n, x, k)
  }

  /** What is reached from `n` in one row or more; on a cycle `n` itself is among it. */
  ghost function Below(rel: Table, n: Item): set<Item> {
    set row | row in rel && row.0 in Reach(rel, n) :: row.1
  }

  ghost predicate Closed(rel: Table, items: set<Item>) {
    forall row :: row in rel && row.0 in items ==> row.1 in items
  }

  lemma ReachClosed(rel: Table, n: Item)
    ensures n in Reach(rel, n) && Closed(rel, Reach(rel, n))
  {
    assert Hops(rel, n, n, 0);
    forall row | row in rel && row.0 in Reach(rel, n)
      ensures row.1 in Reach(rel, n)
    {
      var k: nat :| Hops(rel, n, row.0, k);
      assert (row.0, row.1) in rel;
      assert Hops(rel, n, row.1, k + 1);
    }
  }

  lemma {:induction false} HopsInClosed(rel: Table, n: Item, items: set<Item>, x: Item, k: nat)
    requires n in items && Closed(rel, items) && Hops(rel, n, x, k)
    ensures x in items
    decreases k
  {
    if k > 0 {
      var y :| Hops(rel, n, y, k - 1) && (y, x) in rel;
      HopsInClosed(rel, n, items, y, k - 1);
    }
  }

  /** `Reach` is the least set that contains `n` and is closed under rows. */
  lemma ReachLeast(rel: Table, n: Item, items: set<Item>)
    requires n in items && Closed(rel, items)
    ensures Reach(rel, n) <= items
  {
    forall x | x in Reach(rel, n)
      ensures x in items
    {
      var k: nat :| Hops(rel, n, x, k);
      HopsInClosed(rel, n, items, x, k);
    }
  }

  lemma ReachMonotone(rel: Table, n: Item, sub: Table, m: Item)
    requires sub <= rel && m in Reach(rel, n)
    ensures Reach(sub, m) <= Reach(rel, n)
  {
    ReachClosed(rel, n);
    ReachLeast(sub, m, Reach(rel, n));
  }

  lemma ChildReached(rel: Table, n: Item, z: Item)
    requires (n, z) in rel
    ensures n in Reach(rel, n) && z in Reach(rel, n) && z in Below(rel, n)
  {
    ReachClosed(rel, n);
    assert (n, z).0 in Reach(rel, n);
  }

  lemma ReachIsBelow(rel: Table, n: Item)
    ensures Reach(rel, n) == {n} + Below(rel, n)
  {
    ReachClosed(rel, n);
    ReachLeast(rel, n, {n} + Below(rel, n));
  }

  lemma BelowMonotone(rel: Table, n: Item, sub: Table)
    requires sub <= rel
    ensures Below(sub, n) <= Below(rel, n)
  {
    ReachClosed(rel, n);
    ReachMonotone(rel, n, sub, n);
  }

  /** Rows into `n` are not needed to reach anything from `n`. */
  lemma ReachWithoutReturn(rel: Table, n: Item, sub: Table)
    requires sub <= rel && (forall row :: row in rel && row !in sub ==> row.1 == n)
    ensures Reach(sub, n) == Reach(rel, n)
  {
    ReachClosed(rel, n);
    ReachClosed(sub, n);
    ReachMonotone(rel, n, sub, n);
    ReachLeast(rel, n, Reach(sub, n));
  }

  lemma ReachAlone(rel: Table, n: Item)
    requires forall row :: row in rel ==> row.0 != n
    ensures Reach(rel, n) == {n} && Below(rel, n) == {}
  {
    ReachClosed(rel, n);
    ReachLeast(rel, n, {n});
  }

  /**
   Exploring child `z` of `n` first, and then the rest of `n` in a table `rest` that lost only rows
   out of or into what `z` reached, finds exactly what `n` reaches.
   */
  lemma ReachInTwoParts(rel: Table, n: Item, z: Item, rest: Table)
    requires (n, z) in rel && WithoutPart(rel, n, z, rest)
    ensures Reach(rel, n) == Reach(rel - {(n, z)}, z) + Reach(rest, n)
    ensures Below(rel, n) == Reach(rel - {(n, z)}, z) + Below(rest, n)
  {
    var part, left := Reach(rel - {(n, z)}, z), Reach(rest, n);
    ReachClosed(rel, n);
    ReachClosed(rel - {(n, z)}, z);
    ReachClosed(rest, n);
    ReachMonotone(rel, n, rel - {(n, z)}, z);
    ReachMonotone(rel, n, rest, n);
    ReachLeast(rel, n, part + left);
    ReachIsBelow(rel - {(n, z)}, z);
    forall x
      ensures x in Below(rel, n) <==> x in part + Below(rest, n)
    {
      if x in Below(rel, n) && x !in part {
        var row :| row in rel && row.0 in Reach(rel, n) && row.1 == x;
        assert row.0 !in part && row in rest;
      }
      if x in part && x != z {
        assert x in Below(rel - {(n, z)}, z);
        var row :| row in rel - {(n, z)} && row.0 in part && row.1 == x;
      }
      if x in Below(rest, n) {
        var row :| row in rest && row.0 in left && row.1 == x;
      }
    }
  }

  // ---------- chains ----------

  /** Every chain of rows down from `n` has at most `b` NFTs. */
  ghost predicate ChainsFit(rel: Table, n: Item, b: nat) {
    forall x, k: nat :: Hops(rel, n, x, k) ==> k < b
  }

  lemma {:induction false} HopsMonotone(rel: Table, sub: Table, n: Item, x: Item, k: nat)
    requires sub <= rel && Hops(sub, n, x, k)
    ensures Hops(rel, n, x, k)
    decreases k
  {
    if k > 0 {
      var y :| Hops(sub, n, y, k - 1) && (y, x) in sub;
      HopsMonotone(rel, sub, n, y, k - 1);
    }
  }

  lemma {:induction false} HopsPrepend(rel: Table, n: Item, c: Item, x: Item, k: nat)
    requires (n, c) in rel && Hops(rel, c, x, k)
    ensures Hops(rel, n, x, k + 1)
    decreases k
  {
    if k == 0 {
      assert Hops(rel, n, n, 0);
    } else {
      var y :| Hops(rel, c, y, k - 1) && (y, x) in rel;
      HopsPrepend(rel, n, c, y, k - 1);
    }
  }

  lemma {:induction false} HopsFirst(rel: Table, n: Item, x: Item, k: nat) returns (c: Item)
    requires k > 0 && Hops(rel, n, x, k)
    ensures (n, c) in rel && Hops(rel, c, x, k - 1)
    decreases k
  {
    var y :| Hops(rel, n, y, k - 1) && (y, x) in rel;
    if k == 1 {
      c := x;
    } else {
      c := HopsFirst(rel, n, y, k - 1);
    }
  }

  lemma ChainsFitChild(rel: Table, n: Item, c: Item, sub: Table, b: nat)
    requires ChainsFit(rel, n, b) && (n, c) in rel && sub <= rel
    ensures b > 0 && ChainsFit(sub, c, b - 1)
  {
    assert Hops(rel, n, n, 0);
    forall x, k: nat | Hops(sub, c, x, k)
      ensures k < b - 1
    {
      HopsMonotone(rel, sub, c, x, k);
      HopsPrepend(rel, n, c, x, k);
    }
  }

  lemma ChainsFitShrink(rel: Table, n: Item, sub: Table, b: nat)
    requires ChainsFit(rel, n, b) && sub <= rel
    ensures ChainsFit(sub, n, b)
  {
    forall x, k: nat | Hops(sub, n, x, k)
      ensures k < b
    {
      HopsMonotone(rel, sub, n, x, k);
    }
  }

  // ---------- trees ----------

  /** Among the rows below `n`, every NFT has one parent, and `n` has none. */
  ghost predicate TreeBelow(rel: Table, n: Item) {
    && (forall r1, r2 :: r1 in rel && r2 in rel && r1.0 in Reach(rel, n) && r2.0 in Reach(rel, n) && r1.1 == r2.1 ==>
          r1 == r2)
    && n !in Below(rel, n)
  }

  lemma TreeShrinks(rel: Table, n: Item, sub: Table)
    requires TreeBelow(rel, n) && sub <= rel
    ensures TreeBelow(sub, n)
  {
    ReachClosed(rel, n);
    ReachMonotone(rel, n, sub, n);
    BelowMonotone(rel, n, sub);
  }

  /** A table that lost only rows out of or into what `z` reaches, and has no row out of it. */
  ghost predicate WithoutPart(rel: Table, n: Item, z: Item, rest: Table) {
    var part := Reach(rel - {(n, z)}, z);
    && rest <= rel - {(n, z)}
    && (forall row :: row in rest ==> row.0 !in part)
    && (forall row :: row in rel && row != (n, z) && row !in rest ==> row.0 in part || row.1 in part)
  }

  /** In a tree the subtree of a child is a tree, and shares nothing with what is left of `n`. */
  lemma TreeInTwoParts(rel: Table, n: Item, z: Item, rest: Table)
    requires TreeBelow(rel, n) && (n, z) in rel && WithoutPart(rel, n, z, rest)
    ensures TreeBelow(rel - {(n, z)}, z) && TreeBelow(rest, n)
    ensures Reach(rel - {(n, z)}, z) !! Reach(rest, n)
    ensures n !in Reach(rel - {(n, z)}, z)
    ensures forall row :: row in rel && row.0 in Reach(rest, n) && row != (n, z) ==> row in rest
  {
    hide Reach, Closed;
    var sub := rel - {(n, z)};
    var part, left := Reach(sub, z), Reach(rest, n);
    ChildReached(rel, n, z);
    ReachMonotone(rel, n, sub, z);
    ReachMonotone(rel, n, rest, n);
    ReachIsBelow(sub, z);
    ReachIsBelow(rest, n);
    BelowMonotone(rel, n, rest);
    assert Below(sub, z) <= Below(rel, n);
    assert forall row :: row in rel && row.0 in Reach(rel, n) && row.1 == z ==> row == (n, z);
    assert forall r1, r2 :: r1 in rel && r1.0 in left && r1.0 !in part && r2 in sub && r2.0 in part ==> r1.1 != r2.1;
    forall x | x in Below(rest, n)
      ensures x !in part
    {
      var r1 :| r1 in rest && r1.0 in left && r1.1 == x;
      assert r1.0 !in part;
    }
  }

  /** The chains of a tree are those through the child and those through the rest. */
  lemma TreeChains(rel: Table, n: Item, z: Item, rest: Table, b: nat)
    requires TreeBelow(rel, n) && (n, z) in rel && WithoutPart(rel, n, z, rest)
    requires ChainsFit(rel - {(n, z)}, z, b) && ChainsFit(rest, n, b + 1)
    ensures ChainsFit(rel, n, b + 1)
  {
    hide Reach, Below, Closed, Hops, WithoutPart;
    TreeInTwoParts(rel, n, z, rest);
    forall x, k: nat | Hops(rel, n, x, k)
      ensures k < b + 1
    {
      TreeChain(rel, n, z, rest, x, k);
      assert Hops(rest, n, x, k) ==> k < b + 1;
      assert k > 0 && Hops(rel - {(n, z)}, z, x, k - 1) ==> k - 1 < b;
    }
  }

  lemma {:induction false} TreeChain(rel: Table, n: Item, z: Item, rest: Table, x: Item, k: nat)
    requires n !in Below(rel, n) && n !in Reach(rel - {(n, z)}, z)
    requires forall row :: row in rel && row.0 in Reach(rest, n) && row != (n, z) ==> row in rest
    requires Hops(rel, n, x, k)
    ensures (Hops(rest, n, x, k) && x in Reach(rest, n))
            || (k > 0 && Hops(rel - {(n, z)}, z, x, k - 1) && x in Reach(rel - {(n, z)}, z))
    decreases k
  {
    hide Reach, Below;
    var sub := rel - {(n, z)};
    ReachClosed(rest, n);
    ReachClosed(sub, z);
    if k > 0 {
      var y :| Hops(rel, n, y, k - 1) && (y, x) in rel;
      TreeChain(rel, n, z, rest, y, k - 1);
      if (y, x) == (n, z) {
        HopFromRoot(rel, n, k - 1);
        assert Hops(sub, z, z, 0);
      } else if y in Reach(rest, n) && Hops(rest, n, y, k - 1) {
        assert (y, x) in rest;
        assert Hops(rest, n, x, k);
      } else {
        assert (y, x) in sub;
        assert Hops(sub, z, x, k - 1);
      }
    }
  }

  /** The root of a tree is reached only by the empty chain. */
  lemma HopFromRoot(rel: Table, n: Item, k: nat)
    requires n !in Below(rel, n) && Hops(rel, n, n, k)
    ensures k == 0
  {
    ReachClosed(rel, n);
    if k > 0 {
      LastHop(rel, n, n, k);
    }
  }

  lemma LastHop(rel: Table, n: Item, x: Item, k: nat)
    requires k > 0 && Hops(rel, n, x, k)
    ensures x in Below(rel, n)
  {
    hide Reach, Closed;
    var y :| Hops(rel, n, y, k - 1) && (y, x) in rel;
    ReachClosed(rel, n);
    HopsInClosed(rel, n, Reach(rel, n), y, k - 1);
    assert (y, x).0 in Reach(rel, n);
  }
}
