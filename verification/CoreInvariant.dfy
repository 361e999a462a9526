/**
 What holds of the storage of rmrk-core and pallet_uniques after any calls at all, as long as
 the accounts named in the calls are real ones.
 */
module CoreInvariant {
  import opened Prelude
  import opened AccountCodec
  import opened Forest
  import opened Ownership
  import opened CoreSpec
  import opened BurnTheory

  /** The id of `x` has been handed out. */
  predicate Allocated(s: Core, x: Item) {
    x.id < Count(s.nextNftId, x.collection)
  }

  /** Ids are handed out before they are used anywhere; live NFTs are items of pallet_uniques. */
  ghost predicate IdsInv(s: Core) {
    && s.nfts.Keys <= s.owners.Keys
    && (forall x :: x in s.owners ==> Allocated(s, x) && x.collection in s.collections)
    && (forall x :: x in s.owners && s.owners[x].Virtual? ==> Allocated(s, s.owners[x].item))
    && (forall row :: row in s.children ==> Allocated(s, row.0) && Allocated(s, row.1))
    && (forall x :: x in s.lock ==> Allocated(s, x))
  }

  /** Both pallets agree on the collections and their owners. */
  ghost predicate CollectionsInv(s: Core) {
    && s.collections.Keys == s.collectionOwners.Keys
    && (forall c :: c in s.collections ==> c < s.collectionIndex && s.collections[c].issuer == s.collectionOwners[c])
    && (forall c :: c in s.nextNftId ==> c < s.collectionIndex)
  }

  /** The counter of a collection never exceeds the number of its live NFTs. */
  ghost predicate CountersInv(s: Core) {
    forall c :: c in s.collections ==> s.collections[c].nftsCount <= |LiveIn(s, c)|
  }

  ghost predicate CoreInv(s: Core) {
    && Rooted(s.owners)
    && IdsInv(s)
    && CollectionsInv(s)
    && CountersInv(s)
  }

  lemma EmptyInv()
    ensures CoreInv(EMPTY_CORE)
  {
    assert LinksOf(EMPTY_CORE.owners) == map[];
    forall x
      ensures !Descends(map[], x, x)
    {
      DescendsStep(map[], x, x);
    }
  }

  lemma InvIsRooted(s: Core)
    requires CoreInv(s)
    ensures Rooted(s.owners)
  {
  }

  lemma InvHasIds(s: Core)
    requires CoreInv(s)
    ensures IdsInv(s)
  {
  }

  lemma AgreedCollections(s: Core)
    requires CoreInv(s)
    ensures CollectionsInv(s)
  {
  }

  // ---------- steps that only lose items, or leave them alone ----------

  lemma IdsFrame(s: Core, t: Core)
    requires IdsInv(s)
    requires t.owners.Keys <= s.owners.Keys && (forall x :: x in t.owners ==> t.owners[x] == s.owners[x])
    requires t.nfts.Keys <= s.nfts.Keys * t.owners.Keys
    requires t.nextNftId == s.nextNftId && t.children <= s.children
    requires forall x :: x in t.lock ==> x in s.lock || x in s.owners
    requires forall x :: x in t.owners && x.collection in s.collections ==> x.collection in t.collections
    ensures IdsInv(t)
  {
  }

  lemma CountersFrame(s: Core, t: Core)
    requires CountersInv(s)
    requires t.nfts.Keys == s.nfts.Keys
    requires forall c :: c in t.collections ==>
               t.collections[c].nftsCount == 0
               || (c in s.collections && t.collections[c].nftsCount <= s.collections[c].nftsCount)
    ensures CountersInv(t)
  {
    forall c
      ensures LiveIn(t, c) == LiveIn(s, c)
    {
    }
  }

  // ---------- collections ----------

  lemma CreateKeepsInv(s: Core, sender: Account, max: Option<u32>, t: Core)
    requires CoreInv(s) && CreateCollection(s, sender, max) == Ok(t)
    ensures CoreInv(t)
  {
    hide IdsInv, CountersInv, Rooted;
    LiveAreItems(s);
    IdsFrame(s, t);
    CountersFrame(s, t);
  }

  lemma DestroyKeepsInv(s: Core, sender: Account, c: u32, t: Core)
    requires CoreInv(s) && DestroyCollection(s, sender, c) == Ok(t)
    ensures CoreInv(t)
  {
    hide IdsInv, CountersInv, Rooted;
    forall x | x in s.owners
      ensures x.collection != c
    {
      assert x !in ItemsOf(s.owners, c);
    }
    LiveAreItems(s);
    IdsFrame(s, t);
    CountersFrame(s, t);
  }

  lemma LiveAreItems(s: Core)
    requires IdsInv(s)
    ensures s.nfts.Keys <= s.owners.Keys
  {
  }

  lemma ChangeIssuerKeepsInv(s: Core, sender: Account, c: u32, newIssuer: Account, accepted: bool, t: Core)
    requires CoreInv(s) && ChangeCollectionIssuer(s, sender, c, newIssuer, accepted) == Ok(t)
    ensures CoreInv(t)
  {
    hide IdsInv, CountersInv, Rooted;
    LiveAreItems(s);
    IdsFrame(s, t);
    CountersFrame(s, t);
  }

  lemma LockCollectionKeepsInv(s: Core, sender: Account, c: u32, t: Core)
    requires CoreInv(s) && LockCollection(s, sender, c) == Ok(t)
    ensures CoreInv(t)
  {
    hide IdsInv, CountersInv, Rooted;
    LiveAreItems(s);
    IdsFrame(s, t);
    CountersFrame(s, t);
  }

  /** Steps that touch neither owners, ids nor collections: resources, equipped flags, and locks of existing items. */
  lemma LocalChangeKeepsInv(s: Core, t: Core)
    requires CoreInv(s)
    requires t.owners == s.owners && t.nfts.Keys == s.nfts.Keys && t.children == s.children
    requires t.collections == s.collections && t.collectionOwners == s.collectionOwners
    requires t.nextNftId == s.nextNftId && t.collectionIndex == s.collectionIndex
    requires forall x :: x in t.lock ==> x in s.lock || x in s.owners
    ensures CoreInv(t)
  {
    hide IdsInv, CountersInv, Rooted;
    LiveAreItems(s);
    IdsFrame(s, t);
    CountersFrame(s, t);
  }

  // ---------- minting ----------

  /** The item a successful mint in `c` creates. */
  function Minted(s: Core, c: u32): Item {
    Item(c, Count(s.nextNftId, c))
  }

  /** A successful mint of either kind: a fresh item owned by `owner`, counted once. */
  ghost predicate MintEffect(s: Core, t: Core, c: u32, owner: Account, nft: NftInfo) {
    var n := Minted(s, c);
    && c in s.collections && c in s.collectionOwners
    && Count(s.nextNftId, c) < MAX_U32 && s.collections[c].nftsCount < MAX_U32
    && (s.collections[c].max.Some? ==> n.id < s.collections[c].max.value)
    && t == s.(nextNftId := s.nextNftId[c := n.id + 1],
               nfts := s.nfts[n := nft],
               owners := s.owners[n := owner],
               collections := s.collections[c := s.collections[c].(nftsCount := s.collections[c].nftsCount + 1)],
               resources := t.resources, nextResourceId := t.nextResourceId,
               equippableBases := t.equippableBases, equippableSlots := t.equippableSlots)
    && s.equippableBases <= t.equippableBases
    && !nft.equipped
  }

  lemma MintNftEffect(s: Core, sender: Account, owner: Option<Account>, c: u32, transferable: bool,
                      resources: seq<Resource>, t: Core)
    requires MintNft(s, sender, owner, c, transferable, resources) == Ok(t)
    ensures var a := if owner.Some? then owner.value else sender;
            MintEffect(s, t, c, a, NftInfo(AccountId(a), false, a != sender, transferable))
  {
  }

  lemma MintDirectlyEffect(s: Core, sender: Account, owner: Item, c: u32, transferable: bool,
                           resources: seq<Resource>, t: Core)
    requires MintNftDirectlyToNft(s, sender, owner, c, transferable, resources) == Ok(t)
    ensures RootOf(s.owners, owner).Ok?
    ensures var pending := RootOf(s.owners, owner).value.0 != sender;
            MintEffect(s, t, c, Virtual(owner), NftInfo(CollectionAndNftTuple(owner), false, pending, transferable))
  {
  }

  lemma MintedIsFresh(s: Core, c: u32)
    requires IdsInv(s)
    ensures Minted(s, c) !in s.owners && Minted(s, c) !in s.nfts && Minted(s, c) !in s.lock
    ensures Minted(s, c) !in LinksOf(s.owners).Values
    ensures forall row :: row in s.children ==> row.0 != Minted(s, c) && row.1 != Minted(s, c)
  {
    assert !Allocated(s, Minted(s, c));
  }

  lemma MintKeepsIds(s: Core, t: Core, c: u32, owner: Account, nft: NftInfo)
    requires IdsInv(s) && MintEffect(s, t, c, owner, nft)
    requires owner.Virtual? ==> owner.item in s.owners
    ensures IdsInv(t)
  {
    forall x | Allocated(s, x)
      ensures Allocated(t, x)
    {
    }
  }

  lemma MintKeepsCounters(s: Core, t: Core, c: u32, owner: Account, nft: NftInfo)
    requires CountersInv(s) && MintEffect(s, t, c, owner, nft)
    requires Minted(s, c) !in s.nfts
    ensures CountersInv(t)
  {
    forall d | d in t.collections
      ensures t.collections[d].nftsCount <= |LiveIn(t, d)|
    {
      if d == c {
        assert LiveIn(t, c) == LiveIn(s, c) + {Minted(s, c)};
      } else {
        assert LiveIn(t, d) == LiveIn(s, d);
      }
    }
  }

  lemma MintKeepsInv(s: Core, t: Core, c: u32, owner: Account, nft: NftInfo)
    requires CoreInv(s) && MintEffect(s, t, c, owner, nft)
    requires owner.Virtual? ==> owner.item in s.owners
    ensures CoreInv(t)
  {
    hide IdsInv, CountersInv, Rooted;
    MintedIsFresh(s, c);
    RootedAfterMint(s.owners, Minted(s, c), owner);
    MintKeepsIds(s, t, c, owner, nft);
    MintKeepsCounters(s, t, c, owner, nft);
  }

  // ---------- sending and accepting ----------

  /** `n` moves to `a`: a real account, or a live NFT that is not at or below `n`. */
  ghost predicate GoodMove(s: Core, n: Item, a: Account) {
    && n in s.nfts && n !in s.lock && RootOf(s.owners, n).Ok?
    && (a.Virtual? ==>
          a.item in s.nfts && a.item != n && !Descends(LinksOf(s.owners), a.item, n) && RootOf(s.owners, a.item).Ok?)
  }

  ghost predicate MoveEffect(s: Core, t: Core, n: Item, a: Account) {
    && GoodMove(s, n, a)
    && n in t.nfts
    && t == s.(owners := s.owners[n := a], nfts := s.nfts[n := t.nfts[n]], children := t.children)
    && t.nfts[n].equipped == s.nfts[n].equipped
    && (forall row :: row in t.children && row !in s.children ==> a.Virtual? && row == (a.item, n))
  }

  /** The owner an account is sent to is real; NFTs are named as NFTs. */
  predicate RealOwner(owner: Owner) {
    owner.AccountId? ==> owner.account.User?
  }

  lemma SendEffect(s: Core, sender: Account, n: Item, newOwner: Owner, t: Core)
    requires Rooted(s.owners) && RealOwner(newOwner)
    requires Send(s, sender, n, newOwner) == Ok(t)
    ensures MoveEffect(s, t, n, OwnerAccount(newOwner))
    ensures RootOf(s.owners, n).value.0 == sender
    ensures !s.nfts[n].equipped && s.nfts[n].transferable
    ensures t.children == AddChild(RemoveChild(s.children, s.owners[n], n), OwnerAccount(newOwner), n)
  {
  }

  lemma AcceptEffect(s: Core, sender: Account, n: Item, newOwner: Owner, t: Core)
    requires Rooted(s.owners) && RealOwner(newOwner)
    requires AcceptNft(s, sender, n, newOwner) == Ok(t)
    ensures MoveEffect(s, t, n, OwnerAccount(newOwner))
    ensures RootOf(s.owners, n).value.0 == sender
    ensures t.children == s.children
    ensures newOwner.CollectionAndNftTuple? ==> RootOf(s.owners, newOwner.item).value.0 == sender
  {
  }

  lemma MoveKeepsIds(s: Core, t: Core, n: Item, a: Account)
    requires IdsInv(s) && MoveEffect(s, t, n, a)
    ensures IdsInv(t)
  {
    hide RootOf, Descends;
    forall row | row in t.children
      ensures Allocated(t, row.0) && Allocated(t, row.1)
    {
      assert row in s.children || row == (a.item, n);
    }
  }

  lemma MoveKeepsInv(s: Core, t: Core, n: Item, a: Account)
    requires CoreInv(s) && MoveEffect(s, t, n, a)
    ensures CoreInv(t)
  {
    hide IdsInv, CountersInv, Rooted;
    RootedAfterMove(s.owners, n, a);
    MoveKeepsIds(s, t, n, a);
    CountersFrame(s, t);
  }

  // ---------- burning ----------

  lemma ShrunkKeepsCounters(s: Core, t: Core)
    requires CountersInv(s) && Shrunk(s, t)
    ensures CountersInv(t)
  {
    forall c | c in t.collections
      ensures t.collections[c].nftsCount <= |LiveIn(t, c)|
    {
      assert CounterShrunk(s, t, c);
    }
  }

  lemma ShrunkKeepsCollections(s: Core, t: Core)
    requires CollectionsInv(s) && Shrunk(s, t)
    ensures CollectionsInv(t)
  {
    forall c | c in t.collections
      ensures t.collections[c].issuer == s.collections[c].issuer
    {
      assert CounterShrunk(s, t, c);
    }
  }

  lemma ShrunkKeepsInv(s: Core, t: Core)
    requires CoreInv(s) && Shrunk(s, t)
    ensures CoreInv(t)
  {
    hide IdsInv, CollectionsInv, CountersInv, Rooted;
    LiveAreItems(s);
    IdsFrame(s, t);
    ShrunkKeepsCollections(s, t);
    ShrunkKeepsCounters(s, t);
  }

  /** The storage in which `burn_nft`'s recursion ended, before pallet_uniques forgets the item. */
  lemma BurnNftEffect(s: Core, sender: Account, n: Item, maxBurns: nat, t: Core) returns (u: Core)
    requires BurnNft(s, sender, n, maxBurns, Ok(t))
    ensures RootOf(s.owners, n).Ok? && RootOf(s.owners, n).value.0 == sender
    ensures Burns(s, n, maxBurns, Ok(u)) && Shrunk(s, u) && n !in u.nfts
    ensures t == u.(owners := s.owners - {n})
  {
    var q :| Burns(s, n, maxBurns, q) && Ok(t) == ThenDoBurn(q, n);
    u := q.value;
    BurnsShrink(s, n, maxBurns, q);
    BurnsRemoveSelf(s, n, maxBurns, q);
  }

  lemma BurnsRemoveSelf(s: Core, n: Item, b: nat, r: Result<Core, Error>)
    requires Burns(s, n, b, r) && r.Ok?
    ensures n !in r.value.nfts
  {
    var q :| Drains(Cleared(s, n), n, b - 1, q) && r == ThenUncounted(q, n.collection);
    DrainsShrink(Cleared(s, n), n, b - 1, q);
  }

  lemma BurnNftKeepsInv(s: Core, sender: Account, n: Item, maxBurns: nat, t: Core)
    requires CoreInv(s) && BurnNft(s, sender, n, maxBurns, Ok(t))
    ensures CoreInv(t)
  {
    hide IdsInv, CollectionsInv, CountersInv, Rooted;
    var u := BurnNftEffect(s, sender, n, maxBurns, t);
    ShrunkKeepsInv(s, u);
    RootedAfterBurn(s.owners, n);
    LiveAreItems(u);
    IdsFrame(u, t);
    CountersFrame(u, t);
    assert CollectionsInv(t) by { SameCollections(u, t); }
  }

  lemma SameCollections(s: Core, t: Core)
    requires CollectionsInv(s)
    requires t.collections == s.collections && t.collectionOwners == s.collectionOwners
    requires t.nextNftId == s.nextNftId && t.collectionIndex == s.collectionIndex
    ensures CollectionsInv(t)
  {
  }

  lemma RejectEffect(s: Core, sender: Account, n: Item, maxRecursions: nat, t: Core)
    requires RejectNft(s, sender, n, maxRecursions, Ok(t))
    requires n in s.nfts ==> n in s.owners
    ensures RootOf(s.owners, n).Ok? && RootOf(s.owners, n).value.0 == sender
    ensures n in s.nfts && s.nfts[n].pending && Shrunk(s, t) && n !in t.nfts
    ensures Burns(RejectStart(s, n), n, maxRecursions, Ok(t))
  {
    var u := RejectStart(s, n);
    BurnsShrink(u, n, maxRecursions, Ok(t));
    BurnsRemoveSelf(u, n, maxRecursions, Ok(t));
    assert Shrunk(s, u);
    ShrunkTwice(s, u, t);
  }

  lemma RejectKeepsInv(s: Core, sender: Account, n: Item, maxRecursions: nat, t: Core)
    requires CoreInv(s) && RejectNft(s, sender, n, maxRecursions, Ok(t))
    ensures CoreInv(t)
  {
    RejectEffect(s, sender, n, maxRecursions, t);
    ShrunkKeepsInv(s, t);
  }

  // ---------- the counters never overflow ----------

  lemma {:induction false} AtMostIds(items: set<Item>, c: u32, bound: nat)
    requires forall x :: x in items ==> x.collection == c && x.id < bound
    ensures |items| <= bound
    decreases bound
  {
    if bound == 0 {
      assert items == {};
    } else if bound - 1 > MAX_U32 {
      AtMostIds(items, c, bound - 1);
    } else {
      var last := Item(c, bound - 1);
      forall x | x in items - {last}
        ensures x.id < bound - 1
      {
      }
      AtMostIds(items - {last}, c, bound - 1);
      assert items <= (items - {last}) + {last};
      SubsetSize(items, (items - {last}) + {last});
    }
  }

  /** `nfts_count` <= live NFTs <= ids handed out. */
  lemma CountersBounded(s: Core, c: u32)
    requires CoreInv(s)
    ensures |LiveIn(s, c)| <= Count(s.nextNftId, c)
    ensures c in s.collections ==> s.collections[c].nftsCount <= |LiveIn(s, c)|
  {
    AtMostIds(LiveIn(s, c), c, Count(s.nextNftId, c));
  }

  lemma CounterHasRoom(s: Core, c: u32)
    requires CoreInv(s) && c in s.collections && Count(s.nextNftId, c) < MAX_U32
    ensures s.collections[c].nftsCount < MAX_U32
  {
    hide IdsInv, CollectionsInv, CountersInv, Rooted;
    CountersBounded(s, c);
  }

  /** The checked additions in the two mints never fail: the id counter runs out first. */
  lemma MintNeverOverflows(s: Core, sender: Account, c: u32, transferable: bool, owner: Account, parent: Item)
    requires CoreInv(s)
    ensures NftMint(s, sender, owner, c, transferable) != Err(Overflow)
    ensures NftMintDirectlyToNft(s, sender, parent, c, transferable) != Err(Overflow)
  {
    hide CoreInv;
    if c in s.collections && Count(s.nextNftId, c) < MAX_U32 {
      CounterHasRoom(s, c);
    }
  }
}
