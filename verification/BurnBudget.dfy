/**
 When a burn succeeds. An NFT with two rows may be burnt early, by the row its record does not
 name; its own row then goes with it, and chains through that row get shorter. So success itself may depend on
 the order in which rows are drained. This module says exactly when every order succeeds, on every table of rows,
 cyclic or not, and exactly when some budget is enough.
 */
module BurnBudget {
  import opened Prelude
  import opened AccountCodec
  import opened Ownership
  import opened Rows
  import opened CoreSpec
  import opened BurnTheory
  import opened BurnOrder

  // ---------- going down ----------

  /** The rows left when `n` is cleared. */
  function Entered(rel: Table, nfts: map<Item, NftInfo>, n: Item): Table {
    set row | row in rel && !(row.1 == n && OwnRow(nfts, row))
  }

  /**
   A way down from `n` by `b` rows that uses no row twice, and comes back to an NFT it has passed only by a
   row other than that NFT's own.
   */
  ghost predicate WayDown(rel: Table, nfts: map<Item, NftInfo>, n: Item, b: nat)
    decreases b
  {
    b == 0 || exists c :: StepDown(rel, nfts, n, c, b)
  }

  ghost predicate StepDown(rel: Table, nfts: map<Item, NftInfo>, n: Item, c: Item, b: nat)
    requires b > 0
    decreases b, 0
  {
    var left := Entered(rel, nfts, n);
    (n, c) in left && WayDown(left - {(n, c)}, nfts, c, b - 1)
  }

  lemma ClearedIsEntered(s: Core, n: Item)
    ensures Cleared(s, n).children == Entered(s.children, s.nfts, n)
  {
  }

  /** Fewer rows give fewer ways down, if what is lost of the records is not missed by the rows that stay. */
  lemma {:induction false} FewerWaysDown(rel: Table, nfts: map<Item, NftInfo>, sub: Table, nfts': map<Item, NftInfo>,
                                         n: Item, b: nat)
    requires sub <= rel && forall row :: row in sub && OwnRow(nfts, row) ==> OwnRow(nfts', row)
    requires WayDown(sub, nfts', n, b)
    ensures WayDown(rel, nfts, n, b)
    decreases b
  {
    if b > 0 {
      var c :| StepDown(sub, nfts', n, c, b);
      var left, left' := Entered(rel, nfts, n), Entered(sub, nfts', n);
      FewerWaysDown(left - {(n, c)}, nfts, left' - {(n, c)}, nfts', c, b - 1);
      assert StepDown(rel, nfts, n, c, b);
    }
  }

  /** Every way down can be taken first, and a burn that takes it runs out of budget. */
  lemma {:induction false} BurnMayRunOut(s: Core, n: Item, b: nat)
    requires WayDown(s.children, s.nfts, n, b)
    ensures Burns(s, n, b, Err(TooManyRecursions))
    decreases b
  {
    if b > 0 {
      var c :| StepDown(s.children, s.nfts, n, c, b);
      var u := Cleared(s, n);
      ClearedIsEntered(s, n);
      var s1 := WithoutRow(u, (n, c));
      FewerWaysDown(s1.children, s1.nfts, s1.children, s.nfts, c, b - 1);
      BurnMayRunOut(s1, c, b - 1);
      hide WayDown;
      assert DrainsFirst(u, n, b - 1, (n, c), Err(TooManyRecursions), Err(TooManyRecursions));
      assert Drains(u, n, b - 1, Err(TooManyRecursions));
      assert ThenUncounted(Err(TooManyRecursions), n.collection) == Err(TooManyRecursions);
    }
  }

  /** And only then does it. */
  lemma {:induction false} RunOutHasWay(s: Core, n: Item, b: nat)
    requires Burns(s, n, b, Err(TooManyRecursions))
    ensures WayDown(s.children, s.nfts, n, b)
    decreases b, 0
  {
    if b > 0 {
      var u := Cleared(s, n);
      var q :| Drains(u, n, b - 1, q) && Err(TooManyRecursions) == ThenUncounted(q, n.collection);
      hide WayDown;
      var c := DrainOutHasWay(u, n, b - 1);
      ClearedIsEntered(s, n);
      FewerWaysDown(u.children - {(n, c)}, s.nfts, u.children - {(n, c)}, u.nfts, c, b - 1);
      WayDownStarts(s.children, s.nfts, n, c, b);
    }
  }

  lemma WayDownStarts(rel: Table, nfts: map<Item, NftInfo>, n: Item, c: Item, b: nat)
    requires b > 0 && (n, c) in Entered(rel, nfts, n)
    requires WayDown(Entered(rel, nfts, n) - {(n, c)}, nfts, c, b - 1)
    ensures WayDown(rel, nfts, n, b)
  {
    assert StepDown(rel, nfts, n, c, b);
  }

  lemma {:induction false} DrainOutHasWay(s: Core, n: Item, b: nat) returns (c: Item)
    requires IsCleared(s, n) && Drains(s, n, b, Err(TooManyRecursions))
    ensures (n, c) in s.children && WayDown(s.children - {(n, c)}, s.nfts, c, b)
    decreases b, 1, s.children
  {
    hide WayDown, Reach, Below;
    var row, r :| DrainsFirst(s, n, b, row, r, Err(TooManyRecursions));
    var s1 := WithoutRow(s, row);
    if r.Err? {
      RunOutHasWay(s1, row.1, b);
      c := row.1;
    } else {
      var t := r.value;
      RestOfDrain(s, n, row.1, b, t);
      c := DrainOutHasWay(t, n, b);
      BurnsExact(s1, row.1, b, t);
      RowsOutlive(s1, Reach(s1.children, row.1), t);
      FewerWaysDown(s.children - {(n, c)}, s.nfts, t.children - {(n, c)}, t.nfts, c, b);
    }
  }

  /** The row that a record names outlives a burn only with the record. */
  lemma RowsOutlive(s: Core, gone: set<Item>, t: Core)
    requires PrunedTo(s, gone, t)
    ensures t.children <= s.children && forall row :: row in t.children && OwnRow(s.nfts, row) ==> OwnRow(t.nfts, row)
  {
  }

  // ---------- collections ----------

  /** A burn can be carried out at all, at some budget and in some order, iff it reaches no unknown collection. */
  lemma BurnPossibleIff(s: Core, n: Item)
    ensures (exists b: nat, t :: Burns(s, n, b, Ok(t))) <==> CollectionsKnown(s, Reach(s.children, n))
  {
    hide Reach, Burns;
    forall b: nat, t | Burns(s, n, b, Ok(t))
      ensures CollectionsKnown(s, Reach(s.children, n))
    {
      BurnNeedsCollections(s, n, b, t);
    }
    if CollectionsKnown(s, Reach(s.children, n)) {
      var t := BurnExists(s, n, |s.children| + 1);
    }
  }

  // ---------- every order ----------

  /** Every burn has an outcome. */
  lemma {:induction false} BurnHasOutcome(s: Core, n: Item, b: nat) returns (r: Result<Core, Error>)
    ensures Burns(s, n, b, r)
    decreases b, 0
  {
    if b == 0 {
      r := Err(TooManyRecursions);
    } else {
      var q := DrainHasOutcome(Cleared(s, n), n, b - 1);
      r := ThenUncounted(q, n.collection);
    }
  }

  lemma {:induction false} DrainHasOutcome(s: Core, n: Item, b: nat) returns (q: Result<Core, Error>)
    ensures Drains(s, n, b, q)
    decreases b, 1, s.children
  {
    if RowsOf(s.children, n) == {} {
      q := Ok(s);
    } else {
      var row :| row in RowsOf(s.children, n);
      var r := BurnHasOutcome(WithoutRow(s, row), row.1, b);
      if r.Err? {
        q := Err(r.error);
      } else {
        BurnsShrink(WithoutRow(s, row), row.1, b, r);
        q := DrainHasOutcome(r.value, n, b);
      }
      assert DrainsFirst(s, n, b, row, r, q);
    }
  }

  /** The burn of `n` succeeds in whatever order rows are drained. */
  ghost predicate AlwaysBurns(s: Core, n: Item, b: nat) {
    forall r :: Burns(s, n, b, r) ==> r.Ok?
  }

  /** On any table: every order succeeds iff no unknown collection is reached and no way down is `b` rows long. */
  lemma AlwaysBurnsIff(s: Core, n: Item, b: nat)
    ensures AlwaysBurns(s, n, b) <==>
            CollectionsKnown(s, Reach(s.children, n)) && !WayDown(s.children, s.nfts, n, b)
  {
    hide Burns, Reach, WayDown;
    if AlwaysBurns(s, n, b) {
      var r := BurnHasOutcome(s, n, b);
      BurnNeedsCollections(s, n, b, r.value);
      if WayDown(s.children, s.nfts, n, b) {
        BurnMayRunOut(s, n, b);
      }
    }
    if CollectionsKnown(s, Reach(s.children, n)) && !WayDown(s.children, s.nfts, n, b) {
      forall r | Burns(s, n, b, r)
        ensures r.Ok?
      {
        BurnSucceeds(s, n, b, r);
        if r == Err(TooManyRecursions) {
          RunOutHasWay(s, n, b);
        }
      }
    }
  }

  /** No way down is longer than the table has rows, so a larger budget is enough for every order. */
  lemma {:induction false} WaysAreShort(rel: Table, nfts: map<Item, NftInfo>, n: Item, b: nat)
    requires WayDown(rel, nfts, n, b)
    ensures b <= |rel|
    decreases b
  {
    if b > 0 {
      var c :| StepDown(rel, nfts, n, c, b);
      var left := Entered(rel, nfts, n);
      WaysAreShort(left - {(n, c)}, nfts, c, b - 1);
      SubsetSize(left, rel);
    }
  }

  lemma LargeBudgetSuffices(s: Core, n: Item, b: nat)
    requires b > |s.children|
    ensures AlwaysBurns(s, n, b) <==> CollectionsKnown(s, Reach(s.children, n))
  {
    hide AlwaysBurns, Reach, WayDown;
    AlwaysBurnsIff(s, n, b);
    if WayDown(s.children, s.nfts, n, b) {
      WaysAreShort(s.children, s.nfts, n, b);
    }
  }

  // ---------- tables without a cycle ----------

  ghost predicate NoCycleBelow(rel: Table, n: Item) {
    forall x :: x in Reach(rel, n) ==> x !in Below(rel, x)
  }

  lemma NoCycleShrinks(rel: Table, n: Item, c: Item, sub: Table)
    requires NoCycleBelow(rel, n) && sub <= rel && c in Reach(rel, n)
    ensures NoCycleBelow(sub, c)
  {
    ReachMonotone(rel, n, sub, c);
    hide Reach, Below;
    forall x | x in Reach(sub, c)
      ensures x !in Below(sub, x)
    {
      BelowMonotone(rel, x, sub);
    }
  }

  /** A chain that starts at a child of `n`, where nothing leads back to `n`, uses no row of `n` and none into it. */
  lemma {:induction false} ChainAvoids(rel: Table, n: Item, c: Item, x: Item, k: nat, sub: Table)
    requires (n, c) in rel && n !in Below(rel, n) && Hops(rel, c, x, k)
    requires sub <= rel && forall row :: row in rel && row !in sub ==> row.0 == n || row.1 == n
    ensures Hops(sub, c, x, k) && x in Below(rel, n)
    decreases k
  {
    hide Reach, Below;
    ChildReached(rel, n, c);
    HopsPrepend(rel, n, c, x, k);
    LastHop(rel, n, x, k + 1);
    if k > 0 {
      var y :| Hops(rel, c, y, k - 1) && (y, x) in rel;
      ChainAvoids(rel, n, c, y, k - 1, sub);
      assert (y, x) in sub;
    }
  }

  /** Without cycles the ways down are the chains. */
  lemma {:induction false} ChainIsWayDown(rel: Table, nfts: map<Item, NftInfo>, n: Item, x: Item, k: nat)
    requires NoCycleBelow(rel, n) && Hops(rel, n, x, k)
    ensures WayDown(rel, nfts, n, k)
    decreases k
  {
    hide Reach, Below;
    if k > 0 {
      var c := HopsFirst(rel, n, x, k);
      var left := Entered(rel, nfts, n);
      ReachClosed(rel, n);
      ChildReached(rel, n, c);
      assert c != n;
      ChainAvoids(rel, n, c, x, k - 1, left - {(n, c)});
      NoCycleShrinks(rel, n, c, left - {(n, c)});
      ChainIsWayDown(left - {(n, c)}, nfts, c, x, k - 1);
      WayDownStarts(rel, nfts, n, c, k);
    }
  }

  lemma {:induction false} WayDownIsChain(rel: Table, nfts: map<Item, NftInfo>, n: Item, k: nat) returns (x: Item)
    requires WayDown(rel, nfts, n, k)
    ensures Hops(rel, n, x, k)
    decreases k
  {
    if k == 0 {
      x := n;
    } else {
      var c :| StepDown(rel, nfts, n, c, k);
      var sub := Entered(rel, nfts, n) - {(n, c)};
      x := WayDownIsChain(sub, nfts, c, k - 1);
      HopsMonotone(rel, sub, c, x, k - 1);
      HopsPrepend(rel, n, c, x, k - 1);
    }
  }

  lemma {:induction false} HopsShorter(rel: Table, n: Item, x: Item, k: nat, j: nat) returns (y: Item)
    requires Hops(rel, n, x, k) && j <= k
    ensures Hops(rel, n, y, j)
    decreases k
  {
    y := x;
    if j < k {
      var z :| Hops(rel, n, z, k - 1) && (z, x) in rel;
      y := HopsShorter(rel, n, z, k - 1, j);
    }
  }

  lemma ChainsFitIff(rel: Table, nfts: map<Item, NftInfo>, n: Item, b: nat)
    ensures ChainsFit(rel, n, b) ==> !WayDown(rel, nfts, n, b)
    ensures NoCycleBelow(rel, n) && !WayDown(rel, nfts, n, b) ==> ChainsFit(rel, n, b)
  {
    hide Reach, Below, Hops, WayDown, NoCycleBelow;
    if WayDown(rel, nfts, n, b) {
      var x := WayDownIsChain(rel, nfts, n, b);
    } else if NoCycleBelow(rel, n) {
      forall x, k: nat | Hops(rel, n, x, k)
        ensures k < b
      {
        if k >= b {
          var y := HopsShorter(rel, n, x, k, b);
          ChainIsWayDown(rel, nfts, n, y, b);
        }
      }
    }
  }

  /** Without a cycle below `n`, every order succeeds iff the collections are known and every chain fits the budget. */
  lemma AcyclicAlwaysBurnsIff(s: Core, n: Item, b: nat)
    requires NoCycleBelow(s.children, n)
    ensures AlwaysBurns(s, n, b) <==> CollectionsKnown(s, Reach(s.children, n)) && ChainsFit(s.children, n, b)
  {
    hide Reach, AlwaysBurns, NoCycleBelow, WayDown, ChainsFit;
    AlwaysBurnsIff(s, n, b);
    ChainsFitIff(s.children, s.nfts, n, b);
  }

  /** On a tree the order does not matter: any outcome is a success iff every one is. */
  lemma TreeBurnsIff(s: Core, n: Item, b: nat, r: Result<Core, Error>)
    requires TreeBelow(s.children, n) && Burns(s, n, b, r)
    ensures r.Ok? <==> CollectionsKnown(s, Reach(s.children, n)) && ChainsFit(s.children, n, b)
    ensures CollectionsKnown(s, Reach(s.children, n)) && r.Err? ==> r == Err(TooManyRecursions)
  {
    hide Reach, Burns, ChainsFit, TreeBelow;
    if r.Ok? {
      BurnNeedsCollections(s, n, b, r.value);
      BurnNeedsBudget(s, n, b, r.value);
    }
    if CollectionsKnown(s, Reach(s.children, n)) {
      BurnSucceeds(s, n, b, r);
    }
  }
}
