/** How many NFTs a collection can ever have. */
module Supply {
  import opened Prelude
  import opened AccountCodec
  import opened Ownership
  import opened CoreSpec
  import opened BurnTheory
  import opened CoreInvariant
  import opened MarketSpec
  import opened MarketTheory
  import opened EquipSpec
  import opened EquipTheory
  import opened Chain
  import opened ChainInvariant
  import opened Safety

  predicate MintsIn(call: Call, c: u32) {
    (call.MintNft? && call.c == c) || (call.MintNftDirectlyToNft? && call.c == c)
  }

  /** No more than `m` ids of collection `c` are or ever will be handed out. */
  predicate Capped(s: Core, c: u32, m: nat) {
    && c < s.collectionIndex && Count(s.nextNftId, c) <= m
    && (c in s.collections ==> s.collections[c].max.Some? && s.collections[c].max.value <= m)
  }

  /** The collection is full, or gone, for good. */
  predicate Sealed(s: Core, c: u32) {
    && c < s.collectionIndex
    && (c in s.collections ==> s.collections[c].max.Some? && s.collections[c].max.value <= Count(s.nextNftId, c))
  }

  /** A call that mints nothing in `c`: the limit stays, or `lock_collection` sets it to the count. */
  ghost predicate NoMint(s: Core, t: Core, c: u32) {
    && s.collectionIndex <= t.collectionIndex
    && Count(t.nextNftId, c) == Count(s.nextNftId, c)
    && (c in t.collections && c < s.collectionIndex ==>
          && c in s.collections
          && (t.collections[c].max == s.collections[c].max || t.collections[c].max == Some(s.collections[c].nftsCount)))
  }

  lemma ShrunkMintsNothing(s: Core, t: Core, c: u32)
    requires Shrunk(s, t)
    ensures NoMint(s, t, c)
  {
    if c in t.collections {
      assert CounterShrunk(s, t, c);
    }
  }

  lemma MintElsewhere(s: Core, t: Core, d: u32, owner: Account, nft: NftInfo, c: u32)
    requires MintEffect(s, t, d, owner, nft) && c != d
    ensures NoMint(s, t, c)
  {
  }

  lemma QuietMintsNothing(cfg: Config, s: Core, signer: Account, call: Call, t: Core, c: u32)
    requires IsQuietCall(call) && CoreExecutes(cfg, s, signer, call, t)
    ensures NoMint(s, t, c)
  {
  }

  lemma MoveMintsNothing(s: Core, t: Core, n: Item, a: Account, c: u32)
    requires MoveEffect(s, t, n, a)
    ensures NoMint(s, t, c)
  {
  }

  lemma BurnMintsNothing(s: Core, sender: Account, n: Item, maxBurns: u32, t: Core, c: u32)
    requires CoreSpec.BurnNft(s, sender, n, maxBurns, Ok(t))
    ensures NoMint(s, t, c)
  {
    var u := BurnNftEffect(s, sender, n, maxBurns, t);
    ShrunkMintsNothing(s, u, c);
  }

  lemma CoreStepMintsNothing(cfg: Config, s: Core, signer: Account, call: Call, t: Core, c: u32)
    requires IsCoreCall(call) && !MintsIn(call, c) && RealCall(signer, call)
    requires CoreInv(s) && CoreExecutes(cfg, s, signer, call, t)
    ensures NoMint(s, t, c)
  {
    hide IdsInv, CollectionsInv, CountersInv, Rooted, RootOf, NoMint, MintEffect, MoveEffect, Shrunk;
    hide CoreSpec.CreateCollection, CoreSpec.DestroyCollection, CoreSpec.ChangeCollectionIssuer,
         CoreSpec.LockCollection;
    hide CoreSpec.MintNft, CoreSpec.MintNftDirectlyToNft, CoreSpec.BurnNft, CoreSpec.Send, CoreSpec.AcceptNft;
    hide CoreSpec.RejectNft, ResourceAdd;
    match call
    case MintNft(owner, d, transferable, resources) =>
      var a := if owner.Some? then owner.value else signer;
      MintNftEffect(s, signer, owner, d, transferable, resources, t);
      MintElsewhere(s, t, d, a, NftInfo(AccountId(a), false, a != signer, transferable), c);
    case MintNftDirectlyToNft(parent, d, transferable, resources) =>
      MintDirectlyEffect(s, signer, parent, d, transferable, resources, t);
      var pending := RootOf(s.owners, parent).value.0 != signer;
      MintElsewhere(s, t, d, Virtual(parent), NftInfo(CollectionAndNftTuple(parent), false, pending, transferable), c);
    case BurnNft(n, maxBurns) => BurnMintsNothing(s, signer, n, maxBurns, t, c);
    case Send(n, newOwner) =>
      SendEffect(s, signer, n, newOwner, t);
      MoveMintsNothing(s, t, n, OwnerAccount(newOwner), c);
    case AcceptNft(n, newOwner) =>
      AcceptEffect(s, signer, n, newOwner, t);
      MoveMintsNothing(s, t, n, OwnerAccount(newOwner), c);
    case RejectNft(n) =>
      LiveAreItems(s);
      RejectEffect(s, signer, n, cfg.maxRecursions, t);
      ShrunkMintsNothing(s, t, c);
    case _ => QuietMintsNothing(cfg, s, signer, call, t, c);
  }

  lemma SameCollectionsMintNothing(s: Core, t: Core, c: u32)
    requires t.collectionIndex == s.collectionIndex && t.nextNftId == s.nextNftId && t.collections == s.collections
    ensures NoMint(s, t, c)
  {
  }

  lemma StepMintsNothing(cfg: Config, s: State, signer: Account, call: Call, t: State, c: u32)
    requires ChainInv(s) && RealCall(signer, call) && !MintsIn(call, c)
    requires Executes(cfg, s, signer, call, t)
    ensures NoMint(s.core, t.core, c)
  {
    hide CoreInv, LockInv, OffersInv, EquipInv, NoMint, CoreExecutes, MarketExecutes, DoEquip;
    if IsCoreCall(call) {
      CoreStepMintsNothing(cfg, s.core, signer, call, t.core, c);
    } else {
      if call.Buy? || call.AcceptOffer? {
        if call.AcceptOffer? {
          OffersAreBacked(Exchange(s.core, s.market), s.deposits, (call.n, call.offerer));
        }
        var owner, buyer := PurchaseChange(cfg, Exchange(s.core, s.market), s.now, signer, call,
                                           Exchange(t.core, t.market));
      } else if IsMarketCall(call) {
        QuietMarketEffect(cfg, Exchange(s.core, s.market), s.now, signer, call, Exchange(t.core, t.market));
      } else if call.EquipItem? {
        var r := DoEquip(s.core, s.equip, signer, call.n, call.key, call.resourceId).value;
        EquipKeepsIds(s.core, s.equip, signer, call.n, call.key, call.resourceId, r.0, r.1, r.2);
      }
      SameCollectionsMintNothing(s.core, t.core, c);
    }
  }

  lemma EquipKeepsIds(s: Core, e: Equip, issuer: Account, n: Item, key: SlotKey, resource: u32, t: Core, f: Equip,
                      equipped: bool)
    requires DoEquip(s, e, issuer, n, key, resource) == Ok((t, f, equipped))
    ensures t == s.(nfts := t.nfts)
  {
  }

  /** What a successful mint in `c` says of the limit and the ids. */
  lemma MintUsesId(cfg: Config, s: State, signer: Account, call: Call, t: State, c: u32)
    requires MintsIn(call, c) && Executes(cfg, s, signer, call, t)
    ensures c in s.core.collections && Count(s.core.nextNftId, c) < MAX_U32
    ensures s.core.collections[c].max.Some? ==> Count(s.core.nextNftId, c) < s.core.collections[c].max.value
    ensures c in t.core.collections && t.core.collections[c].max == s.core.collections[c].max
    ensures Count(t.core.nextNftId, c) == Count(s.core.nextNftId, c) + 1
    ensures t.core.collectionIndex == s.core.collectionIndex
  {
    hide CoreSpec.MintNft, CoreSpec.MintNftDirectlyToNft, RootOf;
    match call
    case MintNft(owner, d, transferable, resources) =>
      MintNftEffect(s.core, signer, owner, d, transferable, resources, t.core);
    case MintNftDirectlyToNft(parent, d, transferable, resources) =>
      MintDirectlyEffect(s.core, signer, parent, d, transferable, resources, t.core);
  }

  lemma StepKeepsCap(cfg: Config, s: State, signer: Account, call: Call, t: State, c: u32, m: nat)
    requires ChainInv(s) && RealCall(signer, call) && Step(cfg, s, signer, call, t)
    requires Capped(s.core, c, m)
    ensures Capped(t.core, c, m)
  {
    hide CoreInv, LockInv, OffersInv, EquipInv, Executes;
    if t != s {
      if MintsIn(call, c) {
        MintUsesId(cfg, s, signer, call, t, c);
      } else {
        StepMintsNothing(cfg, s, signer, call, t, c);
        CountersBounded(s.core, c);
      }
    }
  }

  lemma StepKeepsSeal(cfg: Config, s: State, signer: Account, call: Call, t: State, c: u32)
    requires ChainInv(s) && RealCall(signer, call) && Step(cfg, s, signer, call, t)
    requires Sealed(s.core, c)
    ensures Sealed(t.core, c)
  {
    hide CoreInv, LockInv, OffersInv, EquipInv, Executes;
    if t != s {
      if MintsIn(call, c) {
        MintUsesId(cfg, s, signer, call, t, c);
      } else {
        StepMintsNothing(cfg, s, signer, call, t, c);
        CountersBounded(s.core, c);
      }
    }
  }

  lemma SealedMintsNothing(cfg: Config, s: State, signer: Account, call: Call, t: State, c: u32)
    requires Sealed(s.core, c) && MintsIn(call, c)
    ensures !Executes(cfg, s, signer, call, t)
  {
    hide Executes;
    if Executes(cfg, s, signer, call, t) {
      MintUsesId(cfg, s, signer, call, t, c);
    }
  }

  /** `lock_collection` seals: the limit becomes the count, which is at most the number of ids handed out. */
  lemma LockSeals(cfg: Config, s: State, signer: Account, c: u32, t: State)
    requires ChainInv(s) && Executes(cfg, s, signer, Call.LockCollection(c), t)
    ensures Sealed(t.core, c)
  {
    hide CoreInv, LockInv, OffersInv, EquipInv;
    CountersBounded(s.core, c);
    CollectionsHaveIds(s.core);
  }

  lemma CollectionsHaveIds(s: Core)
    requires CoreInv(s)
    ensures forall d :: d in s.collections ==> d < s.collectionIndex
  {
  }
}
