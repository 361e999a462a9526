/**
 The ownership graph. `Links` maps an NFT to the NFT that owns it; pallet_uniques' owner
 table induces one such map, and the rows of the `Children` index induce another.
 Everything here is about following links upwards.
 */
module Forest {
  import opened Prelude
  import opened AccountCodec

  type Links = map<Item, Item>

  /** The item reached from `x` by following `k` links. */
  function Ancestor(l: Links, x: Item, k: nat): Option<Item>
    decreases k
  {
    if k == 0 then Some(x) else if x in l then Ancestor(l, l[x], k - 1) else None
  }

  /** A non-empty path of links leads from `x` up to `y`. */
  ghost predicate Descends(l: Links, x: Item, y: Item) {
    exists k: nat :: k > 0 && Ancestor(l, x, k) == Some(y)
  }

  ghost predicate AtOrBelow(l: Links, x: Item, y: Item) {
    x == y || Descends(l, x, y)
  }

  ghost predicate Acyclic(l: Links) {
    forall x :: !Descends(l, x, x)
  }

  ghost function Above(l: Links, x: Item): set<Item> {
    set y | y in l.Values && Descends(l, x, y)
  }

  // ---------- paths ----------

  lemma {:induction false} AncestorAdd(l: Links, x: Item, j: nat, k: nat)
    requires Ancestor(l, x, j).Some?
    ensures Ancestor(l, x, j + k) == Ancestor(l, Ancestor(l, x, j).value, k)
    decreases j
  {
    if j > 0 {
      AncestorAdd(l, l[x], j - 1, k);
    }
  }

  lemma DescendsStep(l: Links, x: Item, y: Item)
    ensures Descends(l, x, y) <==> x in l && AtOrBelow(l, l[x], y)
  {
    if Descends(l, x, y) {
      var k: nat :| k > 0 && Ancestor(l, x, k) == Some(y);
      assert Ancestor(l, l[x], k - 1) == Some(y);
    }
    if x in l && l[x] == y {
      assert Ancestor(l, x, 1) == Some(y) by { assert Ancestor(l, y, 0) == Some(y); }
    } else if x in l && Descends(l, l[x], y) {
      var k: nat :| k > 0 && Ancestor(l, l[x], k) == Some(y);
      assert Ancestor(l, x, k + 1) == Some(y);
    }
  }

  lemma DescendsTransitive(l: Links, x: Item, y: Item, z: Item)
    requires Descends(l, x, y) && AtOrBelow(l, y, z)
    ensures Descends(l, x, z)
  {
    if y != z {
      var j: nat :| j > 0 && Ancestor(l, x, j) == Some(y);
      var k: nat :| k > 0 && Ancestor(l, y, k) == Some(z);
      AncestorAdd(l, x, j, k);
    }
  }

  /** The last step of a path: some direct child of `y` lies on it. */
  lemma DescendsLast(l: Links, x: Item, y: Item) returns (c: Item)
    requires Descends(l, x, y)
    ensures c in l && l[c] == y && AtOrBelow(l, x, c)
  {
    var k: nat :| k > 0 && Ancestor(l, x, k) == Some(y);
    c := AncestorLast(l, x, y, k);
  }

  lemma {:induction false} AncestorLast(l: Links, x: Item, y: Item, k: nat) returns (c: Item)
    requires k > 0 && Ancestor(l, x, k) == Some(y)
    ensures Ancestor(l, x, k - 1) == Some(c) && c in l && l[c] == y && AtOrBelow(l, x, c)
    decreases k
  {
    if k == 1 {
      c := x;
      assert Ancestor(l, l[x], 0) == Some(y);
    } else {
      c := AncestorLast(l, l[x], y, k - 1);
      assert Ancestor(l, x, k - 1) == Some(c);
    }
  }

  lemma AboveShrinks(l: Links, x: Item)
    requires Acyclic(l) && x in l
    ensures Above(l, l[x]) < Above(l, x)
  {
    var p := l[x];
    forall y | y in Above(l, p)
      ensures y in Above(l, x)
    {
      DescendsStep(l, x, y);
    }
    DescendsStep(l, x, p);
    assert p in Above(l, x) && p !in Above(l, p);
  }

  // ---------- changing links ----------

  /** Paths after `n` was linked below `p`: old ones, or old ones joined by the new link. */
  lemma {:induction false} PathAfterLink(l: Links, n: Item, p: Item, x: Item, y: Item, k: nat)
    requires n != p && !Descends(l, p, n)
    requires k > 0 && Ancestor(l[n := p], x, k) == Some(y)
    ensures Descends(l, x, y) || (AtOrBelow(l, x, n) && AtOrBelow(l, p, y))
    decreases k
  {
    var z := l[n := p][x];
    if k == 1 {
      assert Ancestor(l[n := p], z, 0) == Some(y);
    } else {
      PathAfterLink(l, n, p, z, y, k - 1);
    }
    if x != n {
      DescendsStep(l, x, y);
      DescendsStep(l, x, n);
    }
  }

  lemma AcyclicAfterLink(l: Links, n: Item, p: Item)
    requires Acyclic(l)
    requires n != p && !Descends(l, p, n)
    ensures Acyclic(l[n := p])
  {
    var m := l[n := p];
    forall x
      ensures !Descends(m, x, x)
    {
      if Descends(m, x, x) {
        var k: nat :| k > 0 && Ancestor(m, x, k) == Some(x);
        PathAfterLink(l, n, p, x, x, k);
        if x != p && x != n {
          DescendsTransitive(l, p, x, n);
        }
      }
    }
  }

  /** A link to oneself or to something below oneself closes a cycle: the guard of `send` is exact. */
  lemma CycleAfterBadLink(l: Links, n: Item, p: Item)
    requires Acyclic(l)
    requires n == p || Descends(l, p, n)
    ensures !Acyclic(l[n := p])
  {
    var m := l[n := p];
    if n != p {
      var k: nat :| k > 0 && Ancestor(l, p, k) == Some(n);
      PathAvoids(l, n, p, p, k);
    }
    DescendsStep(m, n, n);
    assert Descends(m, n, n);
  }

  /** The path from `x` up to `n` does not use the link of `n`. */
  lemma {:induction false} PathAvoids(l: Links, n: Item, p: Item, x: Item, k: nat)
    requires Acyclic(l)
    requires k > 0 && Ancestor(l, x, k) == Some(n)
    ensures Descends(l[n := p], x, n)
    decreases k
  {
    var m := l[n := p];
    if x == n {
      assert Descends(l, n, n);
    } else {
      if k > 1 {
        PathAvoids(l, n, p, l[x], k - 1);
      } else {
        assert Ancestor(l, l[x], 0) == Some(n);
      }
      DescendsStep(m, x, n);
    }
  }

  ghost predicate Extends(l: Links, m: Links) {
    forall x :: x in m ==> x in l && l[x] == m[x]
  }

  lemma {:induction false} AncestorInLarger(l: Links, m: Links, x: Item, k: nat)
    requires Extends(l, m)
    requires Ancestor(m, x, k).Some?
    ensures Ancestor(l, x, k) == Ancestor(m, x, k)
    decreases k
  {
    if k > 0 {
      AncestorInLarger(l, m, m[x], k - 1);
    }
  }

  lemma DescendsInLarger(l: Links, m: Links, x: Item, y: Item)
    requires Extends(l, m)
    ensures Descends(m, x, y) ==> Descends(l, x, y)
  {
    if Descends(m, x, y) {
      var k: nat :| k > 0 && Ancestor(m, x, k) == Some(y);
      AncestorInLarger(l, m, x, k);
    }
  }

  lemma AcyclicShrink(l: Links, m: Links)
    requires Acyclic(l) && Extends(l, m)
    ensures Acyclic(m)
  {
    forall x
      ensures !Descends(m, x, x)
    {
      DescendsInLarger(l, m, x, x);
    }
  }
}
