/**
 The `Children` index against the true owners. As long as an NFT is accepted only for the recipient
 it was sent to, every row says what pallet_uniques says, and the only live NFTs without a row are
 those minted straight into an NFT and not sent since. That is what tells which NFTs `burn_nft` and
 `reject_nft` remove, and that the rows below an NFT are always a tree.
 */
module ChildIndex {
  import opened Prelude
  import opened AccountCodec
  import opened Forest
  import opened Ownership
  import opened Rows
  import opened CoreSpec
  import opened BurnTheory
  import opened BurnBudget
  import opened CoreInvariant

  ghost predicate UniqueParents(children: Table) {
    forall r1, r2 :: r1 in children && r2 in children && r1.1 == r2.1 ==> r1 == r2
  }

  /** A live NFT has the row of its true owner and no other; one of the `rowless` has no row at all. */
  ghost predicate RowsMatch(s: Core, x: Item, rowless: set<Item>) {
    x in s.owners && forall p :: (p, x) in s.children <==> x !in rowless && s.owners[x] == Virtual(p)
  }

  /** The index is exact, except that the live NFTs among `rowless` have no row. */
  ghost predicate IndexInvBut(s: Core, rowless: set<Item>) {
    && (forall x :: x in s.nfts ==> RowsMatch(s, x, rowless))
    && (forall row :: row in s.children ==> row.0 in s.nfts)
    && UniqueParents(s.children)
  }

  ghost predicate IndexInv(s: Core) {
    IndexInvBut(s, {})
  }

  /** The owner links that the index knows about, when rows of `rowless` are missing; `n` is what we look from. */
  ghost function LinksWithRows(s: Core, rowless: set<Item>, n: Item): Links {
    LinksOf(s.owners) - (rowless - {n})
  }

  // ---------- index paths and owner paths ----------

  /** Rows never lead to a live NFT that is not nested in `n`, and reach it only by links that have rows. */
  lemma ReachedIsNested(s: Core, rowless: set<Item>, n: Item, x: Item)
    requires IndexInvBut(s, rowless) && x in s.nfts && x in Reach(s.children, n)
    ensures AtOrBelow(LinksWithRows(s, rowless, n), x, n)
  {
    var l := LinksWithRows(s, rowless, n);
    var nested := set y | y in Reach(s.children, n) && (y in s.nfts ==> AtOrBelow(l, y, n));
    ReachClosed(s.children, n);
    hide Reach;
    forall row | row in s.children && row.0 in nested
      ensures row.1 in nested
    {
      if row.1 in s.nfts && row.1 != n {
        assert RowsMatch(s, row.1, rowless);
        assert (row.0, row.1) in s.children;
        DescendsStep(l, row.1, n);
      }
    }
    ReachLeast(s.children, n, nested);
  }

  lemma {:induction false} NestedIsReached(s: Core, rowless: set<Item>, n: Item, x: Item)
    requires Rooted(s.owners) && IndexInvBut(s, rowless) && x in s.nfts
    requires AtOrBelow(LinksWithRows(s, rowless, n), x, n)
    ensures x in Reach(s.children, n)
    decreases Above(LinksOf(s.owners), x)
  {
    hide Reach, Rooted;
    ReachClosed(s.children, n);
    if x != n {
      var l := LinksWithRows(s, rowless, n);
      DescendsStep(l, x, n);
      var p := l[x];
      assert RowsMatch(s, x, rowless);
      assert (p, x) in s.children && (p, x).0 in s.nfts;
      AboveShrinks(LinksOf(s.owners), x) by { UnfoldRooted(s.owners); }
      NestedIsReached(s, rowless, n, p);
    }
  }

  lemma UnfoldRooted(o: Owners)
    requires Rooted(o)
    ensures Acyclic(LinksOf(o))
  {
  }

  /** What a live NFT is reached from is what it is nested in, along links that have rows. */
  lemma ReachedIffNested(s: Core, rowless: set<Item>, n: Item, x: Item)
    requires Rooted(s.owners) && IndexInvBut(s, rowless) && x in s.nfts
    ensures x in Reach(s.children, n) <==> AtOrBelow(LinksWithRows(s, rowless, n), x, n)
  {
    hide Reach, Rooted, IndexInvBut, AtOrBelow;
    if x in Reach(s.children, n) {
      ReachedIsNested(s, rowless, n, x);
    }
    if AtOrBelow(LinksWithRows(s, rowless, n), x, n) {
      NestedIsReached(s, rowless, n, x);
    }
  }

  /** The rows below any NFT are a tree, because ownership has no cycle. */
  lemma IndexIsTree(s: Core, rowless: set<Item>, n: Item)
    requires Rooted(s.owners) && IndexInvBut(s, rowless)
    ensures TreeBelow(s.children, n)
  {
    if n in Below(s.children, n) {
      var row :| row in s.children && row.0 in Reach(s.children, n) && row.1 == n;
      var q := row.0;
      assert row == (q, n);
      if n !in s.nfts {
        ReachAlone(s.children, n);
        assert false;
      }
      ReachedIsNested(s, rowless, n, q);
      assert RowsMatch(s, n, rowless);
      var l := LinksWithRows(s, rowless, n);
      DescendsStep(l, n, n);
      DescendsInLarger(LinksOf(s.owners), l, n, n);
      assert false;
    }
  }

  /** On an exact index every live NFT has a root owner. */
  lemma {:induction false} LiveHaveRoots(s: Core, x: Item)
    requires Rooted(s.owners) && IndexInv(s) && x in s.nfts
    ensures RootOf(s.owners, x).Ok?
    decreases Above(LinksOf(s.owners), x)
  {
    assert RowsMatch(s, x, {});
    if s.owners[x].Virtual? {
      var p := s.owners[x].item;
      assert (p, x) in s.children && (p, x).0 in s.nfts;
      AboveShrinks(LinksOf(s.owners), x);
      LiveHaveRoots(s, p);
    }
  }

  lemma AllHaveRoots(s: Core)
    requires Rooted(s.owners) && IndexInv(s)
    ensures forall x :: x in s.nfts ==> RootOf(s.owners, x).Ok?
  {
    forall x | x in s.nfts
      ensures RootOf(s.owners, x).Ok?
    {
      LiveHaveRoots(s, x);
    }
  }

  // ---------- steps ----------

  lemma IndexFrame(s: Core, t: Core, rowless: set<Item>)
    requires IndexInvBut(s, rowless)
    requires t.owners == s.owners && t.nfts.Keys == s.nfts.Keys && t.children == s.children
    ensures IndexInvBut(t, rowless)
  {
    forall x | x in t.nfts
      ensures RowsMatch(t, x, rowless)
    {
      assert RowsMatch(s, x, rowless);
    }
  }

  /** A mint writes no row: right for a real owner, one row too few for an NFT as owner. */
  lemma MintKeepsIndex(s: Core, t: Core, c: u32, owner: Account, nft: NftInfo, rowless: set<Item>)
    requires IdsInv(s) && IndexInvBut(s, rowless) && MintEffect(s, t, c, owner, nft)
    ensures owner.User? ==> IndexInvBut(t, rowless)
    ensures IndexInvBut(t, rowless + {Minted(s, c)})
  {
    MintedIsFresh(s, c);
    hide IdsInv;
    var n := Minted(s, c);
    forall x | x in t.nfts
      ensures RowsMatch(t, x, rowless + {n})
      ensures owner.User? ==> RowsMatch(t, x, rowless)
    {
      assert x != n ==> RowsMatch(s, x, rowless);
      assert forall p :: (p, n) in t.children ==> (p, n).1 != n;
    }
  }

  /** Minting straight into an NFT always leaves the new NFT without its row. */
  lemma MintDirectlyBreaksIndex(s: Core, sender: Account, owner: Item, c: u32, transferable: bool,
                                resources: seq<Resource>, t: Core, rowless: set<Item>)
    requires IdsInv(s) && MintNftDirectlyToNft(s, sender, owner, c, transferable, resources) == Ok(t)
    ensures Minted(s, c) in t.nfts && t.owners[Minted(s, c)] == Virtual(owner)
    ensures (owner, Minted(s, c)) !in t.children
    ensures !IndexInv(t)
    ensures IndexInvBut(s, rowless) ==> IndexInvBut(t, rowless + {Minted(s, c)})
  {
    hide IdsInv;
    MintDirectlyEffect(s, sender, owner, c, transferable, resources, t);
    MintedIsFresh(s, c);
    var pending := RootOf(s.owners, owner).value.0 != sender;
    if IndexInvBut(s, rowless) {
      MintKeepsIndex(s, t, c, Virtual(owner), NftInfo(CollectionAndNftTuple(owner), false, pending, transferable),
                     rowless);
    }
    assert (owner, Minted(s, c)) !in t.children;
    assert !RowsMatch(t, Minted(s, c), {});
  }

  /** A send moves the row with the owner, and enters the one that was missing. */
  lemma SendKeepsIndex(s: Core, sender: Account, n: Item, newOwner: Owner, t: Core, rowless: set<Item>)
    requires Rooted(s.owners) && RealOwner(newOwner) && IndexInvBut(s, rowless)
    requires Send(s, sender, n, newOwner) == Ok(t)
    ensures IndexInvBut(t, rowless - {n})
  {
    SendEffect(s, sender, n, newOwner, t);
    MovedRow(s, t, n, OwnerAccount(newOwner), rowless);
  }

  lemma MovedRow(s: Core, t: Core, n: Item, to: Account, rowless: set<Item>)
    requires IndexInvBut(s, rowless) && n in s.nfts && n in s.owners && (to.Virtual? ==> to.item in s.nfts)
    requires t.nfts.Keys == s.nfts.Keys && t.owners == s.owners[n := to]
    requires t.children == AddChild(RemoveChild(s.children, s.owners[n], n), to, n)
    ensures IndexInvBut(t, rowless - {n})
  {
    assert RowsMatch(s, n, rowless);
    assert forall p :: (p, n) in t.children <==> to == Virtual(p);
    forall x | x in t.nfts
      ensures RowsMatch(t, x, rowless - {n})
    {
      assert RowsMatch(s, x, rowless);
      assert x != n ==> forall p :: (p, x) in t.children <==> (p, x) in s.children;
    }
    forall row | row in t.children
      ensures row.0 in t.nfts && (row.1 != n ==> row in s.children)
    {
    }
  }

  /** Two owner accounts decode to the same NFT, or both to none. */
  predicate SameNft(a: Account, b: Account) {
    if a.Virtual? || b.Virtual? then a == b else true
  }

  /**
   `accept_nft` keeps the index as exact as it was just when it names the NFT the item was sent to, or
   neither is an NFT, or the item has no row anyway.
   */
  lemma AcceptKeepsIndexIff(s: Core, sender: Account, n: Item, newOwner: Owner, t: Core, rowless: set<Item>)
    requires Rooted(s.owners) && RealOwner(newOwner) && IndexInvBut(s, rowless)
    requires AcceptNft(s, sender, n, newOwner) == Ok(t)
    ensures n in s.owners
    ensures IndexInvBut(t, rowless) <==> n in rowless || SameNft(s.owners[n], OwnerAccount(newOwner))
  {
    AcceptEffect(s, sender, n, newOwner, t);
    KeptRow(s, t, n, OwnerAccount(newOwner), rowless);
  }

  lemma KeptRow(s: Core, t: Core, n: Item, to: Account, rowless: set<Item>)
    requires IndexInvBut(s, rowless) && n in s.nfts && n in s.owners
    requires t.nfts.Keys == s.nfts.Keys && t.owners == s.owners[n := to] && t.children == s.children
    ensures IndexInvBut(t, rowless) <==> n in rowless || SameNft(s.owners[n], to)
  {
    var from := s.owners[n];
    assert RowsMatch(s, n, rowless);
    if IndexInvBut(t, rowless) && n !in rowless {
      assert RowsMatch(t, n, rowless);
      assert forall p :: from == Virtual(p) <==> to == Virtual(p);
      assert from.Virtual? ==> from == Virtual(from.item);
      assert to.Virtual? ==> to == Virtual(to.item);
    }
    if n in rowless || SameNft(from, to) {
      forall x | x in t.nfts
        ensures RowsMatch(t, x, rowless)
      {
        assert RowsMatch(s, x, rowless);
      }
    }
  }

  // ---------- burning ----------

  /** A burn takes the live NFTs nested below `n` by links that have rows, and leaves the rest as exact as it was. */
  lemma BurnOnIndex(s: Core, n: Item, b: nat, t: Core, rowless: set<Item>)
    requires Rooted(s.owners) && IndexInvBut(s, rowless)
    requires Burns(s, n, b, Ok(t))
    ensures forall x :: x in t.nfts <==> x in s.nfts && !AtOrBelow(LinksWithRows(s, rowless, n), x, n)
    ensures t.owners == s.owners && n !in t.nfts
    ensures IndexInvBut(t, rowless - {n}) && IndexInvBut(t, rowless)
  {
    hide Rooted, IndexInvBut, AtOrBelow, Reach, Burns;
    BurnsExact(s, n, b, t);
    forall x
      ensures x in t.nfts <==> x in s.nfts && !AtOrBelow(LinksWithRows(s, rowless, n), x, n)
    {
      if x in s.nfts {
        ReachedIffNested(s, rowless, n, x);
      }
    }
    ReachClosed(s.children, n);
    PrunedKeepsIndex(s, Reach(s.children, n), n, t, rowless);
  }

  lemma PrunedKeepsIndex(s: Core, gone: set<Item>, n: Item, t: Core, rowless: set<Item>)
    requires IndexInvBut(s, rowless) && Closed(s.children, gone) && n in gone && PrunedTo(s, gone, t)
    ensures IndexInvBut(t, rowless - {n}) && IndexInvBut(t, rowless)
  {
    forall x | x in t.nfts
      ensures RowsMatch(t, x, rowless - {n}) && RowsMatch(t, x, rowless)
    {
      assert RowsMatch(s, x, rowless);
      forall p
        ensures (p, x) in t.children <==> (p, x) in s.children
      {
        assert (p, x) in s.children ==> (p, x).0 !in gone;
      }
    }
  }

  lemma WithoutItem(u: Core, n: Item, t: Core, rowless: set<Item>)
    requires IndexInvBut(u, rowless) && n !in u.nfts && t == u.(owners := u.owners - {n})
    ensures IndexInvBut(t, rowless)
  {
    forall x | x in t.nfts
      ensures RowsMatch(t, x, rowless)
    {
      assert RowsMatch(u, x, rowless);
    }
  }

  lemma AllLinksHaveRows(s: Core, n: Item)
    ensures LinksWithRows(s, {}, n) == LinksOf(s.owners)
  {
  }

  /**
   A successful `burn_nft` removes exactly `n` and the live NFTs nested in it at any depth, down to the
   first that has no row. On an exact index that is all of them, and every NFT left has a root owner.
   */
  lemma BurnNftRemovesSubtree(s: Core, sender: Account, n: Item, maxBurns: nat, t: Core, rowless: set<Item>)
    requires CoreInv(s) && IndexInvBut(s, rowless)
    requires BurnNft(s, sender, n, maxBurns, Ok(t))
    ensures forall x :: x in t.nfts <==> x in s.nfts && !AtOrBelow(LinksWithRows(s, rowless, n), x, n)
    ensures t.owners == s.owners - {n}
    ensures IndexInvBut(t, rowless)
    ensures rowless == {} ==>
              && (forall x :: x in t.nfts <==> x in s.nfts && !AtOrBelow(LinksOf(s.owners), x, n))
              && (forall x :: x in t.nfts ==> RootOf(t.owners, x).Ok?)
  {
    hide IdsInv, CollectionsInv, CountersInv, IndexInvBut, AtOrBelow;
    var u := BurnNftEffect(s, sender, n, maxBurns, t);
    BurnOnIndex(s, n, maxBurns, u, rowless);
    WithoutItem(u, n, t, rowless);
    RootedAfterBurn(s.owners, n);
    AllLinksHaveRows(s, n);
    if rowless == {} {
      AllHaveRoots(t);
    }
  }

  lemma RemovedChildIndex(s: Core, n: Item, rowless: set<Item>)
    requires IndexInvBut(s, rowless) && n in s.nfts && n in s.owners
    ensures IndexInvBut(RejectStart(s, n), rowless + {n})
  {
    var u := RejectStart(s, n);
    forall x | x in u.nfts
      ensures RowsMatch(u, x, rowless + {n})
    {
      assert RowsMatch(s, x, rowless);
    }
  }

  /** The same for `reject_nft`, which leaves the rejected item in pallet_uniques. */
  lemma RejectNftRemovesSubtree(s: Core, sender: Account, n: Item, maxRecursions: nat, t: Core, rowless: set<Item>)
    requires CoreInv(s) && IndexInvBut(s, rowless)
    requires RejectNft(s, sender, n, maxRecursions, Ok(t))
    ensures forall x :: x in t.nfts <==> x in s.nfts && !AtOrBelow(LinksWithRows(s, rowless, n), x, n)
    ensures t.owners == s.owners
    ensures IndexInvBut(t, rowless)
    ensures rowless == {} ==>
              && (forall x :: x in t.nfts <==> x in s.nfts && !AtOrBelow(LinksOf(s.owners), x, n))
              && (forall x :: x in t.nfts ==> RootOf(t.owners, x).Ok?)
  {
    hide CoreInv, IdsInv, IndexInvBut, AtOrBelow, Burns, Shrunk, RejectNft, RootOf, Rooted;
    LiveAreItems(s) by { InvHasIds(s); }
    InvIsRooted(s);
    RejectEffect(s, sender, n, maxRecursions, t);
    var u := RejectStart(s, n);
    RemovedChildIndex(s, n, rowless);
    BurnOnIndex(u, n, maxRecursions, t, rowless + {n});
    assert rowless + {n} - {n} == rowless - {n};
    AfterReject(t, n, rowless);
    AllLinksHaveRows(s, n);
    if rowless == {} {
      AllHaveRoots(t);
    }
  }

  lemma AfterReject(t: Core, n: Item, rowless: set<Item>)
    requires IndexInvBut(t, rowless + {n}) && n !in t.nfts
    ensures IndexInvBut(t, rowless)
  {
    forall x | x in t.nfts
      ensures RowsMatch(t, x, rowless)
    {
      assert RowsMatch(t, x, rowless + {n});
    }
  }

  // ---------- when removal succeeds ----------

  lemma LiveHaveCollections(s: Core, items: set<Item>)
    requires CoreInv(s) && items <= s.nfts.Keys + s.owners.Keys
    ensures CollectionsKnown(s, items)
  {
    hide Rooted;
  }

  /** Every order of draining carries the call through. */
  ghost predicate AlwaysBurnsNft(s: Core, sender: Account, n: Item, maxBurns: nat) {
    forall r :: BurnNft(s, sender, n, maxBurns, r) ==> r.Ok?
  }

  ghost predicate AlwaysRejects(s: Core, sender: Account, n: Item, maxRecursions: nat) {
    forall r :: RejectNft(s, sender, n, maxRecursions, r) ==> r.Ok?
  }

  /** For the root owner the call is the burn, and what comes after the burn cannot fail. */
  lemma BurnNftIsBurn(s: Core, sender: Account, n: Item, maxBurns: nat, q: Result<Core, Error>)
    requires CoreInv(s) && RootedAt(s.owners, n, sender) && Burns(s, n, maxBurns, q)
    ensures BurnNft(s, sender, n, maxBurns, ThenDoBurn(q, n))
    ensures ThenDoBurn(q, n).Ok? <==> q.Ok?
    ensures q.Err? ==> ThenDoBurn(q, n) == q
  {
    RootIsItem(s.owners, n);
    assert n.collection in s.collectionOwners;
    if q.Ok? {
      BurnsShrink(s, n, maxBurns, q);
    }
    hide CoreInv, Burns;
  }

  lemma BurnOfNft(s: Core, sender: Account, n: Item, maxBurns: nat, r: Result<Core, Error>)
    returns (q: Result<Core, Error>)
    requires RootedAt(s.owners, n, sender) && BurnNft(s, sender, n, maxBurns, r)
    ensures Burns(s, n, maxBurns, q) && r == ThenDoBurn(q, n)
  {
    q :| Burns(s, n, maxBurns, q) && r == ThenDoBurn(q, n);
  }

  /**
   On any table of rows, a burn of `n` succeeds in every order of draining iff the root owner asks, the collections
   of all that is reached exist and no way down has `maxBurns` rows; without a cycle below `n`, iff the root owner
   asks, they exist and the longest chain down has at most `maxBurns` NFTs.
   */
  lemma BurnNftSucceedsIff(s: Core, sender: Account, n: Item, maxBurns: nat)
    requires CoreInv(s)
    ensures AlwaysBurnsNft(s, sender, n, maxBurns) <==>
            && RootedAt(s.owners, n, sender)
            && CollectionsKnown(s, Reach(s.children, n)) && !WayDown(s.children, s.nfts, n, maxBurns)
    ensures NoCycleBelow(s.children, n) ==>
              (AlwaysBurnsNft(s, sender, n, maxBurns) <==>
               && RootedAt(s.owners, n, sender)
               && CollectionsKnown(s, Reach(s.children, n)) && ChainsFit(s.children, n, maxBurns))
    ensures NoCycleBelow(s.children, n) && Reach(s.children, n) <= s.nfts.Keys ==>
              (AlwaysBurnsNft(s, sender, n, maxBurns) <==>
               RootedAt(s.owners, n, sender) && ChainsFit(s.children, n, maxBurns))
  {
    hide CoreInv, Reach, WayDown, NoCycleBelow, ChainsFit, Rooted, RootOf, Burns, BurnNft, CollectionsKnown;
    if Reach(s.children, n) <= s.nfts.Keys {
      LiveHaveCollections(s, Reach(s.children, n));
    }
    AlwaysBurnsIff(s, n, maxBurns);
    ChainsFitIff(s.children, s.nfts, n, maxBurns);
    if !RootedAt(s.owners, n, sender) {
      var r := BurnNftRefused(s, sender, n, maxBurns);
      assert BurnNft(s, sender, n, maxBurns, r);
    } else {
      RootMayBurn(s, sender, n, maxBurns);
    }
  }

  /** Nobody but the root owner burns an NFT. */
  lemma BurnNftRefused(s: Core, sender: Account, n: Item, maxBurns: nat) returns (r: Result<Core, Error>)
    requires !RootedAt(s.owners, n, sender)
    ensures r.Err? && (RootOf(s.owners, n).Ok? ==> r == Err(NoPermission))
    ensures forall q :: BurnNft(s, sender, n, maxBurns, q) <==> q == r
  {
    hide LookupRootOwner, Rooted;
    r := Err(if RootOf(s.owners, n).Ok? then NoPermission else RootOf(s.owners, n).error);
  }

  lemma RootMayBurn(s: Core, sender: Account, n: Item, maxBurns: nat)
    requires CoreInv(s) && RootedAt(s.owners, n, sender)
    ensures AlwaysBurnsNft(s, sender, n, maxBurns) <==> AlwaysBurns(s, n, maxBurns)
  {
    hide CoreInv, RootOf, Burns, BurnNft;
    if AlwaysBurnsNft(s, sender, n, maxBurns) {
      forall q | Burns(s, n, maxBurns, q)
        ensures q.Ok?
      {
        BurnNftIsBurn(s, sender, n, maxBurns, q);
      }
    }
    if AlwaysBurns(s, n, maxBurns) {
      forall r | BurnNft(s, sender, n, maxBurns, r)
        ensures r.Ok?
      {
        var q := BurnOfNft(s, sender, n, maxBurns, r);
        BurnNftIsBurn(s, sender, n, maxBurns, q);
      }
    }
  }

  /**
   What one outcome tells, on any table: a success reached no unknown collection, and if none is reached the
   budget is the only error. On a tree one outcome decides for all.
   */
  lemma BurnNftOutcome(s: Core, sender: Account, n: Item, maxBurns: nat, r: Result<Core, Error>)
    requires CoreInv(s) && RootedAt(s.owners, n, sender) && BurnNft(s, sender, n, maxBurns, r)
    ensures r.Ok? ==> CollectionsKnown(s, Reach(s.children, n))
    ensures r.Err? && CollectionsKnown(s, Reach(s.children, n)) ==> r == Err(TooManyRecursions)
    ensures TreeBelow(s.children, n) ==>
              (r.Ok? <==> CollectionsKnown(s, Reach(s.children, n)) && ChainsFit(s.children, n, maxBurns))
  {
    hide CoreInv, Reach, TreeBelow, ChainsFit, Rooted, RootOf, Burns, BurnNft;
    var q := BurnOfNft(s, sender, n, maxBurns, r);
    BurnNftIsBurn(s, sender, n, maxBurns, q);
    if q.Ok? {
      BurnNeedsCollections(s, n, maxBurns, q.value);
    } else if CollectionsKnown(s, Reach(s.children, n)) {
      BurnSucceeds(s, n, maxBurns, q);
    }
    if TreeBelow(s.children, n) {
      TreeBurnsIff(s, n, maxBurns, q);
    }
  }

  lemma RejectStartRows(s: Core, n: Item)
    requires n in s.owners
    ensures var u := RejectStart(s, n);
            && Reach(u.children, n) == Reach(s.children, n) && u.children <= s.children
            && (CollectionsKnown(u, Reach(u.children, n)) <==> CollectionsKnown(s, Reach(s.children, n)))
  {
    ReachWithoutReturn(s.children, n, RejectStart(s, n).children);
  }

  /** Only a pending NFT can be rejected, and only by its root owner. */
  ghost predicate MayReject(s: Core, sender: Account, n: Item) {
    n in s.nfts && n in s.owners && s.nfts[n].pending && RootedAt(s.owners, n, sender)
  }

  lemma RejectIsBurn(s: Core, sender: Account, n: Item, maxRecursions: nat, r: Result<Core, Error>)
    requires MayReject(s, sender, n)
    ensures RejectNft(s, sender, n, maxRecursions, r) <==> Burns(RejectStart(s, n), n, maxRecursions, r)
  {
  }

  /** The one outcome of any other rejection: whose NFT it is is asked after whether it is pending. */
  lemma RejectRefused(s: Core, sender: Account, n: Item, maxRecursions: nat) returns (r: Result<Core, Error>)
    requires !MayReject(s, sender, n)
    ensures r.Err?
    ensures forall q :: RejectNft(s, sender, n, maxRecursions, q) <==> q == r
    ensures RootOf(s.owners, n).Ok? && n in s.nfts ==>
              r == Err(if s.nfts[n].pending then CannotRejectNonOwnedNft else CannotRejectNonPendingNft)
  {
    hide LookupRootOwner, Rooted;
    if RootOf(s.owners, n).Ok? {
      RootIsItem(s.owners, n);
    }
    r := Err(if RootOf(s.owners, n).Err? then RootOf(s.owners, n).error
             else if n !in s.nfts then NoAvailableNftId
             else if s.nfts[n].pending then CannotRejectNonOwnedNft
             else CannotRejectNonPendingNft);
  }

  /**
   Every order carries a rejection through iff the NFT may be rejected and the burn behind it succeeds in every
   order.
   */
  lemma RejectNftSucceedsIff(s: Core, sender: Account, n: Item, maxRecursions: nat)
    ensures AlwaysRejects(s, sender, n, maxRecursions) <==>
            && MayReject(s, sender, n) && CollectionsKnown(s, Reach(s.children, n))
            && !WayDown(RejectStart(s, n).children, s.nfts, n, maxRecursions)
    ensures NoCycleBelow(s.children, n) ==>
              (AlwaysRejects(s, sender, n, maxRecursions) <==>
               && MayReject(s, sender, n) && CollectionsKnown(s, Reach(s.children, n))
               && ChainsFit(s.children, n, maxRecursions))
  {
    hide Reach, WayDown, NoCycleBelow, ChainsFit, Rooted, RootOf, Burns, RejectNft, CollectionsKnown;
    if MayReject(s, sender, n) {
      DueRejection(s, sender, n, maxRecursions);
    } else {
      var r := RejectRefused(s, sender, n, maxRecursions);
      assert RejectNft(s, sender, n, maxRecursions, r);
    }
  }

  lemma DueRejection(s: Core, sender: Account, n: Item, maxRecursions: nat)
    requires MayReject(s, sender, n)
    ensures AlwaysRejects(s, sender, n, maxRecursions) <==>
            && CollectionsKnown(s, Reach(s.children, n))
            && !WayDown(RejectStart(s, n).children, s.nfts, n, maxRecursions)
    ensures NoCycleBelow(s.children, n) ==>
              (AlwaysRejects(s, sender, n, maxRecursions) <==>
               CollectionsKnown(s, Reach(s.children, n)) && ChainsFit(s.children, n, maxRecursions))
  {
    hide Reach, WayDown, NoCycleBelow, ChainsFit, Rooted, RootOf, Burns, RejectNft, CollectionsKnown;
    var u := RejectStart(s, n);
    forall r
      ensures RejectNft(s, sender, n, maxRecursions, r) <==> Burns(u, n, maxRecursions, r)
    {
      RejectIsBurn(s, sender, n, maxRecursions, r);
    }
    RejectStartRows(s, n);
    AlwaysBurnsIff(u, n, maxRecursions);
    if NoCycleBelow(s.children, n) {
      NoReturn(s.children, n);
      ChainsWithoutOwnRow(s.children, n, u.children, maxRecursions);
      NoCycleShrinks(s.children, n, n, u.children);
      ChainsFitIff(u.children, u.nfts, n, maxRecursions);
    }
  }

  lemma NoReturn(rel: Table, n: Item)
    requires NoCycleBelow(rel, n)
    ensures n in Reach(rel, n) && n !in Below(rel, n)
  {
    ReachClosed(rel, n);
  }

  /** What one outcome of a rejection tells, whoever asks: on a tree with a chain over the limit nobody can reject. */
  lemma RejectNftOutcome(s: Core, sender: Account, n: Item, maxRecursions: nat, r: Result<Core, Error>)
    requires RejectNft(s, sender, n, maxRecursions, r)
    ensures r.Ok? ==> MayReject(s, sender, n) && CollectionsKnown(s, Reach(s.children, n))
    ensures MayReject(s, sender, n) ==>
              && (r.Err? && CollectionsKnown(s, Reach(s.children, n)) ==> r == Err(TooManyRecursions))
              && (TreeBelow(s.children, n) ==>
                    (r.Ok? <==> CollectionsKnown(s, Reach(s.children, n)) && ChainsFit(s.children, n, maxRecursions)))
  {
    hide Rooted, RootOf, Reach, TreeBelow, ChainsFit, Burns, CollectionsKnown, RejectNft;
    if !MayReject(s, sender, n) {
      var q := RejectRefused(s, sender, n, maxRecursions);
    } else {
      var u := RejectStart(s, n);
      RejectIsBurn(s, sender, n, maxRecursions, r);
      RejectStartRows(s, n);
      if r.Ok? {
        BurnNeedsCollections(u, n, maxRecursions, r.value);
      } else if CollectionsKnown(s, Reach(s.children, n)) {
        BurnSucceeds(u, n, maxRecursions, r);
      }
      if TreeBelow(s.children, n) {
        TreeWithoutOwnRow(s.children, n, u.children);
        ChainsWithoutOwnRow(s.children, n, u.children, maxRecursions);
        TreeBurnsIff(u, n, maxRecursions, r);
      }
    }
  }

  /** The row into `n` has no part in what is below it. */
  lemma ChainsWithoutOwnRow(rel: Table, n: Item, sub: Table, b: nat)
    requires n !in Below(rel, n) && sub <= rel && forall row :: row in rel && row !in sub ==> row.1 == n
    ensures ChainsFit(sub, n, b) <==> ChainsFit(rel, n, b)
  {
    hide Reach, Below, ChainsFit;
    if ChainsFit(sub, n, b) {
      ChainsFitWithoutReturn(rel, n, sub, b);
    }
    if ChainsFit(rel, n, b) {
      ChainsFitShrink(rel, n, sub, b);
    }
  }

  lemma TreeWithoutOwnRow(rel: Table, n: Item, sub: Table)
    requires TreeBelow(rel, n) && sub <= rel
    ensures TreeBelow(sub, n) && n !in Below(rel, n)
  {
    TreeShrinks(rel, n, sub);
  }
}
