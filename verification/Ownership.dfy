/**
 The true owner of an item is its owner in pallet_uniques. The two recursive lookups of
 rmrk-core follow that table upwards without any bound, so they are defined only on
 tables without cycles.
 */
module Ownership {
  import opened Prelude
  import opened AccountCodec
  import opened Forest

  type Owners = map<Item, Account>

  /** The links the owner table induces: the owner account decodes to an NFT. */
  function LinksOf(o: Owners): Links {
    map x | x in o && o[x].Virtual? :: o[x].item
  }

  ghost predicate Rooted(o: Owners) {
    Acyclic(LinksOf(o))
  }

  /** `lookup_root_owner` */
  function LookupRootOwner(o: Owners, x: Item): (r: Result<(Account, Item), Error>)
    requires Rooted(o)
    ensures r.Ok? ==> r.value.0.User? && r.value.1 in o && o[r.value.1] == r.value.0
    ensures r.Ok? ==> x in o && AtOrBelow(LinksOf(o), x, r.value.1)
    ensures r.Err? ==> r.error == NoAvailableNftId
    decreases Above(LinksOf(o), x)
  {
    if x !in o then Err(NoAvailableNftId)
    else
      match o[x]
      case User(_) => Ok((o[x], x))
      case Virtual(parent) =>
        AboveShrinks(LinksOf(o), x);
        var root := LookupRootOwner(o, parent);
        assert root.Ok? ==> AtOrBelow(LinksOf(o), x, root.value.1) by {
          if root.Ok? { DescendsStep(LinksOf(o), x, root.value.1); }
        }
        root
  }

  /** `is_x_descendent_of_y`: true exactly when a non-empty path of owners leads from `x` to `y`. */
  function IsXDescendentOfY(o: Owners, x: Item, y: Item): (found: bool)
    requires Rooted(o)
    ensures found <==> Descends(LinksOf(o), x, y)
    decreases Above(LinksOf(o), x)
  {
    DescendsStep(LinksOf(o), x, y);
    if x !in o then false
    else
      match o[x]
      case User(_) => false
      case Virtual(parent) =>
        AboveShrinks(LinksOf(o), x);
        if parent == y then true else IsXDescendentOfY(o, parent, y)
  }

  /** `lookup_root_owner` on any table: on a cycle the recursion has no result. */
  ghost function RootOf(o: Owners, x: Item): Result<(Account, Item), Error> {
    if Rooted(o) then LookupRootOwner(o, x) else Err(Diverges)
  }

  /** `a` is the root owner of `n`. */
  ghost predicate RootedAt(o: Owners, n: Item, a: Account) {
    RootOf(o, n).Ok? && RootOf(o, n).value.0 == a
  }

  lemma RootIsItem(o: Owners, n: Item)
    requires RootOf(o, n).Ok?
    ensures n in o
  {
  }

  lemma MissingHasNoRoot(o: Owners, n: Item)
    requires Rooted(o) && n !in o
    ensures RootOf(o, n) == Err(NoAvailableNftId)
  {
  }

  // ---------- how long the lookups run ----------

  /** The items `lookup_root_owner` visits, one per call. */
  ghost function Trail(o: Owners, x: Item): set<Item>
    requires Rooted(o)
    decreases Above(LinksOf(o), x)
  {
    if x in o && o[x].Virtual? then
      AboveShrinks(LinksOf(o), x);
      {x} + Trail(o, o[x].item)
    else {x}
  }

  /** The number of calls `lookup_root_owner` makes, counting the first. */
  ghost function LookupCalls(o: Owners, x: Item): nat
    requires Rooted(o)
    decreases Above(LinksOf(o), x)
  {
    if x in o && o[x].Virtual? then
      AboveShrinks(LinksOf(o), x);
      1 + LookupCalls(o, o[x].item)
    else 1
  }

  /** The number of calls `is_x_descendent_of_y` makes, counting the first. */
  ghost function DescentCalls(o: Owners, x: Item, y: Item): nat
    requires Rooted(o)
    decreases Above(LinksOf(o), x)
  {
    if x in o && o[x].Virtual? && o[x].item != y then
      AboveShrinks(LinksOf(o), x);
      1 + DescentCalls(o, o[x].item, y)
    else 1
  }

  /** The descendant check goes up the same items as the root lookup, but stops when it meets `y`. */
  lemma {:induction false} DescentStopsEarlier(o: Owners, x: Item, y: Item)
    requires Rooted(o)
    ensures DescentCalls(o, x, y) <= LookupCalls(o, x)
    ensures IsXDescendentOfY(o, x, y) ==>
              Ancestor(LinksOf(o), x, DescentCalls(o, x, y)) == Some(y) && DescentCalls(o, x, y) < LookupCalls(o, x)
    decreases Above(LinksOf(o), x)
  {
    if x in o && o[x].Virtual? {
      AboveShrinks(LinksOf(o), x);
      if o[x].item != y {
        DescentStopsEarlier(o, o[x].item, y);
      } else {
        assert Ancestor(LinksOf(o), o[x].item, 0) == Some(y);
      }
    }
  }

  /** The item the lookup stops at: one owned by a real account, or one that is missing. */
  ghost function LastVisited(o: Owners, x: Item): Item
    requires Rooted(o)
    decreases Above(LinksOf(o), x)
  {
    if x in o && o[x].Virtual? then
      AboveShrinks(LinksOf(o), x);
      LastVisited(o, o[x].item)
    else x
  }

  lemma {:induction false} TrailFacts(o: Owners, x: Item)
    requires Rooted(o)
    ensures |Trail(o, x)| == LookupCalls(o, x)
    ensures forall y :: y in Trail(o, x) ==> AtOrBelow(LinksOf(o), x, y)
    ensures Trail(o, x) <= o.Keys + {LastVisited(o, x)}
    ensures LookupRootOwner(o, x).Ok? ==> LastVisited(o, x) in o
    decreases Above(LinksOf(o), x)
  {
    if x in o && o[x].Virtual? {
      var p := o[x].item;
      AboveShrinks(LinksOf(o), x);
      TrailFacts(o, p);
      forall y | y in Trail(o, p)
        ensures Descends(LinksOf(o), x, y)
      {
        DescendsStep(LinksOf(o), x, y);
      }
      assert x !in Trail(o, p);
    }
  }

  /** Subsets are no larger. */
  lemma {:induction false} SubsetSize<T>(a: set<T>, b: set<T>)
    requires a <= b
    ensures |a| <= |b|
  {
    if a != {} {
      var e :| e in a;
      SubsetSize(a - {e}, b - {e});
    }
  }

  /** Either lookup makes at most one call per item in pallet_uniques, plus one for a missing parent. */
  lemma LookupIsBounded(o: Owners, x: Item, y: Item)
    requires Rooted(o)
    ensures DescentCalls(o, x, y) <= LookupCalls(o, x) <= |o| + 1
    ensures LookupRootOwner(o, x).Ok? ==> LookupCalls(o, x) <= |o|
    ensures IsXDescendentOfY(o, x, y) ==> DescentCalls(o, x, y) <= |o|
  {
    hide Rooted, Trail, LookupCalls, LastVisited, LookupRootOwner, DescentCalls, IsXDescendentOfY;
    DescentStopsEarlier(o, x, y);
    TrailFacts(o, x);
    SubsetSize(Trail(o, x), o.Keys + {LastVisited(o, x)});
    if LookupRootOwner(o, x).Ok? {
      assert o.Keys + {LastVisited(o, x)} == o.Keys;
    } else {
      assert |o.Keys + {LastVisited(o, x)}| <= |o| + 1;
    }
  }

  // ---------- the ways a step changes the table ----------

  /** Re-parenting `n` keeps the table acyclic if the new owner is a real account or is not below `n`. */
  lemma RootedAfterMove(o: Owners, n: Item, a: Account)
    requires Rooted(o)
    requires a.Virtual? ==> a.item != n && !Descends(LinksOf(o), a.item, n)
    ensures Rooted(o[n := a])
  {
    if a.Virtual? {
      assert LinksOf(o[n := a]) == LinksOf(o)[n := a.item];
      AcyclicAfterLink(LinksOf(o), n, a.item);
    } else {
      AcyclicShrink(LinksOf(o), LinksOf(o[n := a]));
    }
  }

  /** ... and only then: the two checks before a re-parenting are exactly what is needed. */
  lemma RootedOnlyAfterGoodMove(o: Owners, n: Item, a: Account)
    requires Rooted(o)
    ensures Rooted(o[n := a]) <==> (a.Virtual? ==> a.item != n && !Descends(LinksOf(o), a.item, n))
  {
    if a.Virtual? && (a.item == n || Descends(LinksOf(o), a.item, n)) {
      assert LinksOf(o[n := a]) == LinksOf(o)[n := a.item];
      CycleAfterBadLink(LinksOf(o), n, a.item);
    } else {
      RootedAfterMove(o, n, a);
    }
  }

  /** Minting: a fresh item is owned by nothing that was missing before. */
  lemma RootedAfterMint(o: Owners, n: Item, a: Account)
    requires Rooted(o)
    requires n !in o && n !in LinksOf(o).Values
    requires a.Virtual? ==> a.item != n
    ensures Rooted(o[n := a])
  {
    if a.Virtual? && Descends(LinksOf(o), a.item, n) {
      var c := DescendsLast(LinksOf(o), a.item, n);
    }
    RootedAfterMove(o, n, a);
  }

  lemma RootedAfterBurn(o: Owners, n: Item)
    requires Rooted(o)
    ensures Rooted(o - {n})
  {
    AcyclicShrink(LinksOf(o), LinksOf(o - {n}));
  }

  /** The root owner found from `x`; what the new table answers for the items that keep their path. */
  lemma {:induction false} RootElsewhere(o: Owners, p: Owners, n: Item, x: Item)
    requires Rooted(o) && Rooted(p)
    requires forall y :: y != n ==> (y in o <==> y in p) && (y in o ==> o[y] == p[y])
    requires !AtOrBelow(LinksOf(o), x, n)
    ensures LookupRootOwner(p, x) == LookupRootOwner(o, x)
    decreases Above(LinksOf(o), x)
  {
    if x in o && o[x].Virtual? {
      AboveShrinks(LinksOf(o), x);
      DescendsStep(LinksOf(o), x, n);
      RootElsewhere(o, p, n, o[x].item);
    }
  }

  /** After a re-parenting the whole subtree of `n` has the root owner of `n`. */
  lemma {:induction false} RootBelow(o: Owners, p: Owners, n: Item, x: Item)
    requires Rooted(o) && Rooted(p)
    requires forall y :: y != n ==> (y in o <==> y in p) && (y in o ==> o[y] == p[y])
    requires AtOrBelow(LinksOf(o), x, n)
    ensures LookupRootOwner(p, x) == LookupRootOwner(p, n)
    decreases Above(LinksOf(o), x)
  {
    if x != n {
      DescendsStep(LinksOf(o), x, n);
      AboveShrinks(LinksOf(o), x);
      RootBelow(o, p, n, o[x].item);
    }
  }

  /**
   Moving `n` to account `a`: everything at or below `n` gets the root owner of `a`,
   and nothing else changes its root owner.
   */
  lemma RootsAfterMove(o: Owners, n: Item, a: Account, x: Item)
    requires Rooted(o)
    requires a.Virtual? ==> a.item != n && !Descends(LinksOf(o), a.item, n)
    ensures Rooted(o[n := a])
    ensures AtOrBelow(LinksOf(o), x, n) && a.User? ==> LookupRootOwner(o[n := a], x) == Ok((a, n))
    ensures AtOrBelow(LinksOf(o), x, n) && a.Virtual? ==>
              LookupRootOwner(o[n := a], x) == LookupRootOwner(o, a.item)
    ensures !AtOrBelow(LinksOf(o), x, n) ==> LookupRootOwner(o[n := a], x) == LookupRootOwner(o, x)
  {
    RootedAfterMove(o, n, a);
    if AtOrBelow(LinksOf(o), x, n) {
      RootBelow(o, o[n := a], n, x);
      if a.Virtual? {
        RootElsewhere(o, o[n := a], n, a.item);
      }
    } else {
      RootElsewhere(o, o[n := a], n, x);
    }
  }

  /** Everything on one path has one root. */
  lemma {:induction false} RootShared(o: Owners, x: Item, n: Item)
    requires Rooted(o) && AtOrBelow(LinksOf(o), x, n)
    ensures LookupRootOwner(o, x) == LookupRootOwner(o, n)
  {
    RootBelow(o, o, n, x);
  }
}
