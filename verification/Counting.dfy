/** When `nfts_count` is the number of live NFTs: call by call, and along whole runs. */
module Counting {
  import opened Prelude
  import opened AccountCodec
  import opened Ownership
  import opened Rows
  import opened CoreSpec
  import opened BurnTheory
  import opened BurnOrder
  import opened CoreInvariant
  import opened ChildIndex
  import opened MarketSpec
  import opened MarketTheory
  import opened EquipTheory
  import opened Chain
  import opened ChainInvariant
  import opened Safety

  // ---------- the two calls that burn ----------

  /**
   `burn_nft` keeps an exact counter exact, in every order and at every budget, iff what can succeed miscounts
   nothing.
   */
  lemma BurnNftKeepsCounterIff(s: Core, sender: Account, n: Item, c: u32)
    requires CoreInv(s) && CounterExact(s, c)
    ensures (forall b: nat, t :: CoreSpec.BurnNft(s, sender, n, b, Ok(t)) ==> CounterExact(t, c)) <==>
            (RootedAt(s.owners, n, sender) && CollectionsKnown(s, Reach(s.children, n)) ==> CountsRight(s, n, c))
  {
    hide CoreInv, RootOf, Reach, CountsRight, Burns, CoreSpec.BurnNft, CounterExact;
    BurnKeepsCounterIff(s, n, c);
    if !RootedAt(s.owners, n, sender) {
      forall b: nat, t
        ensures !CoreSpec.BurnNft(s, sender, n, b, Ok(t))
      {
        var r := BurnNftRefused(s, sender, n, b);
      }
    } else if forall b: nat, t :: CoreSpec.BurnNft(s, sender, n, b, Ok(t)) ==> CounterExact(t, c) {
      forall b: nat, u | Burns(s, n, b, Ok(u))
        ensures CounterExact(u, c)
      {
        BurnNftIsBurn(s, sender, n, b, Ok(u));
        var t := ThenDoBurn(Ok(u), n).value;
        SameCounter(u, t, c);
      }
    } else {
      var b: nat, t :| CoreSpec.BurnNft(s, sender, n, b, Ok(t)) && !CounterExact(t, c);
      var u := BurnNftEffect(s, sender, n, b, t);
      SameCounter(u, t, c);
      assert Burns(s, n, b, Ok(u)) && !CounterExact(u, c);
    }
  }

  lemma SameCounter(s: Core, t: Core, c: u32)
    requires t.nfts.Keys == s.nfts.Keys && t.collections == s.collections
    ensures CounterExact(t, c) <==> CounterExact(s, c)
  {
    assert LiveIn(t, c) == LiveIn(s, c);
  }

  /** The same for `reject_nft`, whose burn starts without the row under the true owner. */
  lemma RejectNftKeepsCounterIff(s: Core, sender: Account, n: Item, c: u32)
    requires CounterExact(s, c)
    ensures (forall b: nat, t :: CoreSpec.RejectNft(s, sender, n, b, Ok(t)) ==> CounterExact(t, c)) <==>
            (MayReject(s, sender, n) && CollectionsKnown(s, Reach(s.children, n)) ==>
               CountsRight(RejectStart(s, n), n, c))
  {
    hide RootOf, Reach, CountsRight, Burns, CoreSpec.RejectNft, CounterExact, CollectionsKnown;
    if !MayReject(s, sender, n) {
      forall b: nat, t
        ensures !CoreSpec.RejectNft(s, sender, n, b, Ok(t))
      {
        var r := RejectRefused(s, sender, n, b);
      }
    } else {
      DueRejectionCounts(s, sender, n, c);
    }
  }

  lemma DueRejectionCounts(s: Core, sender: Account, n: Item, c: u32)
    requires CounterExact(s, c) && MayReject(s, sender, n)
    ensures (forall b: nat, t :: CoreSpec.RejectNft(s, sender, n, b, Ok(t)) ==> CounterExact(t, c)) <==>
            (CollectionsKnown(s, Reach(s.children, n)) ==> CountsRight(RejectStart(s, n), n, c))
  {
    hide RootOf, Reach, CountsRight, Burns, CoreSpec.RejectNft, CounterExact, CollectionsKnown;
    var u := RejectStart(s, n);
    RejectStartRows(s, n);
    SameCounter(s, u, c);
    BurnKeepsCounterIff(u, n, c);
    if forall b: nat, t :: CoreSpec.RejectNft(s, sender, n, b, Ok(t)) ==> CounterExact(t, c) {
      forall b: nat, t | Burns(u, n, b, Ok(t))
        ensures CounterExact(t, c)
      {
        RejectIsBurn(s, sender, n, b, Ok(t));
      }
    } else {
      var b: nat, t :| CoreSpec.RejectNft(s, sender, n, b, Ok(t)) && !CounterExact(t, c);
      RejectIsBurn(s, sender, n, b, Ok(t));
    }
  }

  // ---------- all other calls ----------

  /** Collections keep their count, or are new and empty. */
  lemma QuietCounter(cfg: Config, s: Core, signer: Account, call: Call, t: Core, c: u32)
    requires CollectionsInv(s) && IsQuietCall(call) && CoreExecutes(cfg, s, signer, call, t) && c in t.collections
    ensures t.nfts == s.nfts
    ensures if c in s.collections then t.collections[c].nftsCount == s.collections[c].nftsCount
            else c == s.collectionIndex && t.collections[c].nftsCount == 0
  {
    hide CoreSpec.MintNft, CoreSpec.MintNftDirectlyToNft, CoreSpec.BurnNft, CoreSpec.Send, CoreSpec.AcceptNft;
    hide CoreSpec.RejectNft, ResourceAdd;
  }

  lemma NewIsEmpty(s: Core, c: u32)
    requires IdsInv(s) && CollectionsInv(s) && c == s.collectionIndex
    ensures c !in s.collections && LiveIn(s, c) == {}
  {
    assert forall x :: x in s.nfts ==> x in s.owners && x.collection in s.collections;
  }

  lemma MintKeepsCounter(s: Core, t: Core, d: u32, owner: Account, nft: NftInfo, c: u32)
    requires IdsInv(s) && MintEffect(s, t, d, owner, nft) && CounterExact(s, c)
    ensures CounterExact(t, c)
  {
    MintedIsFresh(s, d);
    hide IdsInv;
    if c == d {
      assert LiveIn(t, c) == LiveIn(s, c) + {Minted(s, d)};
    } else {
      assert LiveIn(t, c) == LiveIn(s, c);
    }
  }

  lemma CoreStepKeepsCounter(cfg: Config, s: Core, signer: Account, call: Call, t: Core, c: u32)
    requires IsCoreCall(call) && RealCall(signer, call) && !call.BurnNft? && !call.RejectNft?
    requires CoreInv(s) && CoreExecutes(cfg, s, signer, call, t)
    requires c in t.collections && (c in s.collections ==> CounterExact(s, c))
    ensures CounterExact(t, c)
  {
    hide CoreInv, IdsInv, CollectionsInv, Rooted, RootOf, MintEffect, MoveEffect, CounterExact;
    hide CoreSpec.CreateCollection, CoreSpec.DestroyCollection, CoreSpec.ChangeCollectionIssuer,
         CoreSpec.LockCollection;
    hide CoreSpec.MintNft, CoreSpec.MintNftDirectlyToNft, CoreSpec.Send, CoreSpec.AcceptNft, ResourceAdd;
    InvHasIds(s);
    InvIsRooted(s);
    AgreedCollections(s);
    match call
    case MintNft(owner, d, transferable, resources) =>
      var a := if owner.Some? then owner.value else signer;
      MintNftEffect(s, signer, owner, d, transferable, resources, t);
      MintedCounter(s, t, d, a, NftInfo(AccountId(a), false, a != signer, transferable), c);
    case MintNftDirectlyToNft(parent, d, transferable, resources) =>
      MintDirectlyEffect(s, signer, parent, d, transferable, resources, t);
      var pending := RootOf(s.owners, parent).value.0 != signer;
      MintedCounter(s, t, d, Virtual(parent), NftInfo(CollectionAndNftTuple(parent), false, pending, transferable), c);
    case Send(n, newOwner) =>
      SendEffect(s, signer, n, newOwner, t);
      MovedCounter(s, t, n, OwnerAccount(newOwner), c);
    case AcceptNft(n, newOwner) =>
      AcceptEffect(s, signer, n, newOwner, t);
      MovedCounter(s, t, n, OwnerAccount(newOwner), c);
    case _ =>
      QuietKeepsCounter(cfg, s, signer, call, t, c);
  }

  lemma MovedCounter(s: Core, t: Core, n: Item, a: Account, c: u32)
    requires MoveEffect(s, t, n, a) && c in t.collections && (c in s.collections ==> CounterExact(s, c))
    ensures CounterExact(t, c)
  {
    hide GoodMove, CounterExact;
    GoodMoveIsLive(s, n, a);
    SameCounter(s, t, c);
  }

  lemma QuietKeepsCounter(cfg: Config, s: Core, signer: Account, call: Call, t: Core, c: u32)
    requires IdsInv(s) && CollectionsInv(s) && IsQuietCall(call) && CoreExecutes(cfg, s, signer, call, t)
    requires c in t.collections && (c in s.collections ==> CounterExact(s, c))
    ensures CounterExact(t, c)
  {
    hide IdsInv, CollectionsInv, CoreExecutes, CounterExact;
    QuietCounter(cfg, s, signer, call, t, c);
    NewIsEmpty(s, s.collectionIndex);
    QuietExact(s, t, c);
  }

  lemma MintedCounter(s: Core, t: Core, d: u32, owner: Account, nft: NftInfo, c: u32)
    requires IdsInv(s) && MintEffect(s, t, d, owner, nft)
    requires c in t.collections && (c in s.collections ==> CounterExact(s, c))
    ensures CounterExact(t, c)
  {
    assert c in s.collections;
    MintKeepsCounter(s, t, d, owner, nft, c);
  }

  lemma QuietExact(s: Core, t: Core, c: u32)
    requires c in t.collections && t.nfts == s.nfts && (c in s.collections ==> CounterExact(s, c))
    requires if c in s.collections then t.collections[c].nftsCount == s.collections[c].nftsCount
             else LiveIn(s, c) == {} && t.collections[c].nftsCount == 0
    ensures CounterExact(t, c)
  {
  }

  /** Every call but the two that burn keeps every counter exact, and those of new collections start exact. */
  lemma StepKeepsCounter(cfg: Config, s: State, signer: Account, call: Call, t: State, c: u32)
    requires ChainInv(s) && RealCall(signer, call) && Executes(cfg, s, signer, call, t)
    requires !call.BurnNft? && !call.RejectNft?
    requires c in t.core.collections && (c in s.core.collections ==> CounterExact(s.core, c))
    ensures CounterExact(t.core, c)
  {
    hide CoreInv, LockInv, OffersInv, EquipInv, Executes, CounterExact;
    if IsCoreCall(call) {
      UnfoldCore(cfg, s, signer, call, t);
      CoreStepKeepsCounter(cfg, s.core, signer, call, t.core, c);
    } else {
      OtherStepEffect(cfg, s, signer, call, t);
      SameCounter(s.core, t.core, c);
    }
  }

  /** If the call burns, it can miscount nothing in `c`. */
  ghost predicate CallCountsRight(s: Core, call: Call, c: u32) {
    && (call.BurnNft? ==> CountsRight(s, call.n, c))
    && (call.RejectNft? && call.n in s.owners ==> CountsRight(RejectStart(s, call.n), call.n, c))
  }

  lemma BurningKeepsCounter(cfg: Config, s: Core, signer: Account, call: Call, t: Core, c: u32)
    requires (call.BurnNft? || call.RejectNft?) && CoreInv(s) && CoreExecutes(cfg, s, signer, call, t)
    requires CallCountsRight(s, call, c) && c in t.collections && (c in s.collections ==> CounterExact(s, c))
    ensures CounterExact(t, c)
  {
    hide CoreInv, IdsInv, RootOf, Burns, CountsRight, CounterExact, CoreSpec.BurnNft, CoreSpec.RejectNft;
    if call.BurnNft? {
      var u := BurnNftEffect(s, signer, call.n, call.maxBurns, t);
      BurnCountsRight(s, call.n, call.maxBurns, u, c);
      SameCounter(u, t, c);
    } else {
      LiveAreItems(s) by { InvHasIds(s); }
      RejectEffect(s, signer, call.n, cfg.maxRecursions, t);
      SameCounter(s, RejectStart(s, call.n), c);
      BurnCountsRight(RejectStart(s, call.n), call.n, cfg.maxRecursions, t, c);
    }
  }
}
