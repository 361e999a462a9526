/** Who can make a step do what: minting, governing a collection or a base, locking, opening slots. */
module Authority {
  import opened Prelude
  import opened AccountCodec
  import opened Ownership
  import opened CoreSpec
  import opened BurnTheory
  import opened CoreInvariant
  import opened CoreCalls
  import opened MarketSpec
  import opened MarketTheory
  import opened MarketCalls
  import opened EquipSpec
  import opened EquipTheory
  import opened Chain
  import opened ChainInvariant
  import opened Safety
  import opened Supply

  // ---------- minting ----------

  lemma MintNeedsOwner(cfg: Config, s: Core, signer: Account, call: Call, t: Core, c: u32)
    requires CoreInv(s) && IsCoreCall(call) && RealCall(signer, call) && MintsIn(call, c)
    requires CoreExecutes(cfg, s, signer, call, t)
    ensures MayMint(s, signer, c)
  {
    hide CoreInv, CoreSpec.MintNft, CoreSpec.MintNftDirectlyToNft;
    match call
    case MintNft(owner, d, transferable, resources) => MintNftIff(s, signer, owner, d, transferable, resources);
    case MintNftDirectlyToNft(parent, d, transferable, resources) =>
      MintDirectlyIff(s, signer, parent, d, transferable, resources);
  }

  /** An id of a collection is handed out only to its owner, in a mint, one at a time and below the limit. */
  lemma IdNeedsOwner(cfg: Config, s: State, signer: Account, call: Call, t: State, c: u32)
    requires ChainInv(s) && RealCall(signer, call) && Step(cfg, s, signer, call, t)
    requires Count(t.core.nextNftId, c) != Count(s.core.nextNftId, c)
    ensures MintsIn(call, c) && MayMint(s.core, signer, c)
    ensures Count(t.core.nextNftId, c) == Count(s.core.nextNftId, c) + 1
  {
    hide CoreInv, LockInv, OffersInv, EquipInv, Executes, CoreExecutes;
    if !MintsIn(call, c) {
      StepMintsNothing(cfg, s, signer, call, t, c);
    } else {
      MintUsesId(cfg, s, signer, call, t, c);
      UnfoldCore(cfg, s, signer, call, t);
      MintNeedsOwner(cfg, s.core, signer, call, t.core, c);
    }
  }

  // ---------- collections ----------

  /** The collection is there with the same issuer and limit. */
  predicate SameTerms(s: Core, t: Core, c: u32) {
    c in s.collections ==>
      c in t.collections && t.collections[c].issuer == s.collections[c].issuer
      && t.collections[c].max == s.collections[c].max
  }

  lemma QuietTerms(cfg: Config, s: Core, signer: Account, call: Call, t: Core, c: u32)
    requires CollectionsInv(s) && IsQuietCall(call) && CoreExecutes(cfg, s, signer, call, t)
    requires c in s.collections && signer != s.collections[c].issuer
    ensures SameTerms(s, t, c)
  {
    hide CoreSpec.CreateCollection, CoreSpec.DestroyCollection, CoreSpec.ChangeCollectionIssuer;
    hide CoreSpec.LockCollection, ResourceAdd;
    hide CoreSpec.MintNft, CoreSpec.MintNftDirectlyToNft, CoreSpec.BurnNft, CoreSpec.Send, CoreSpec.AcceptNft;
    hide CoreSpec.RejectNft;
    match call
    case CreateCollection(max) => CreateCollectionIff(s, signer, max);
    case DestroyCollection(d) => DestroyCollectionIff(s, signer, d);
    case ChangeCollectionIssuer(d, newIssuer, accepted) => ChangeIssuerIff(s, signer, d, newIssuer, accepted);
    case LockCollection(d) => LockCollectionIff(s, signer, d);
    case AddResource(n, resource) =>
    case TouchResources(rows) =>
  }

  lemma ShrunkTerms(s: Core, t: Core, c: u32)
    requires Shrunk(s, t)
    ensures SameTerms(s, t, c)
  {
    if c in s.collections {
      assert CounterShrunk(s, t, c);
    }
  }

  lemma MintTerms(s: Core, t: Core, d: u32, owner: Account, nft: NftInfo, c: u32)
    requires MintEffect(s, t, d, owner, nft)
    ensures SameTerms(s, t, c)
  {
  }

  lemma MoveTerms(s: Core, t: Core, n: Item, a: Account, c: u32)
    requires MoveEffect(s, t, n, a)
    ensures SameTerms(s, t, c)
  {
    hide GoodMove;
  }

  lemma BurnTerms(s: Core, signer: Account, n: Item, maxBurns: u32, t: Core, c: u32)
    requires CoreSpec.BurnNft(s, signer, n, maxBurns, Ok(t))
    ensures SameTerms(s, t, c)
  {
    hide Shrunk, CoreSpec.BurnNft, Burns;
    var u := BurnNftEffect(s, signer, n, maxBurns, t);
    ShrunkTerms(s, u, c);
  }

  lemma CoreTerms(cfg: Config, s: Core, signer: Account, call: Call, t: Core, c: u32)
    requires IsCoreCall(call) && RealCall(signer, call) && CoreInv(s) && CoreExecutes(cfg, s, signer, call, t)
    requires c in s.collections && signer != s.collections[c].issuer
    ensures SameTerms(s, t, c)
  {
    hide CoreInv, IdsInv, CollectionsInv, Rooted, RootOf, MintEffect, MoveEffect, Shrunk, Burns, SameTerms;
    hide CoreSpec.CreateCollection, CoreSpec.DestroyCollection, CoreSpec.ChangeCollectionIssuer,
         CoreSpec.LockCollection;
    hide CoreSpec.MintNft, CoreSpec.MintNftDirectlyToNft, CoreSpec.BurnNft, CoreSpec.Send, CoreSpec.AcceptNft;
    hide CoreSpec.RejectNft, ResourceAdd;
    InvHasIds(s);
    InvIsRooted(s);
    AgreedCollections(s);
    match call
    case MintNft(owner, d, transferable, resources) =>
      var a := if owner.Some? then owner.value else signer;
      MintNftEffect(s, signer, owner, d, transferable, resources, t);
      MintTerms(s, t, d, a, NftInfo(AccountId(a), false, a != signer, transferable), c);
    case MintNftDirectlyToNft(parent, d, transferable, resources) =>
      MintDirectlyEffect(s, signer, parent, d, transferable, resources, t);
      var pending := RootOf(s.owners, parent).value.0 != signer;
      MintTerms(s, t, d, Virtual(parent), NftInfo(CollectionAndNftTuple(parent), false, pending, transferable), c);
    case BurnNft(n, maxBurns) =>
      BurnTerms(s, signer, n, maxBurns, t, c);
    case Send(n, newOwner) =>
      SendEffect(s, signer, n, newOwner, t);
      MoveTerms(s, t, n, OwnerAccount(newOwner), c);
    case AcceptNft(n, newOwner) =>
      AcceptEffect(s, signer, n, newOwner, t);
      MoveTerms(s, t, n, OwnerAccount(newOwner), c);
    case RejectNft(n) =>
      LiveAreItems(s);
      RejectEffect(s, signer, n, cfg.maxRecursions, t);
      ShrunkTerms(s, t, c);
    case _ => QuietTerms(cfg, s, signer, call, t, c);
  }

  /** Only its issuer destroys a collection, hands it over or changes its limit. */
  lemma CollectionNeedsIssuer(cfg: Config, s: State, signer: Account, call: Call, t: State, c: u32)
    requires ChainInv(s) && RealCall(signer, call) && Step(cfg, s, signer, call, t)
    requires !SameTerms(s.core, t.core, c)
    ensures c in s.core.collections && signer == s.core.collections[c].issuer
  {
    hide CoreInv, LockInv, OffersInv, EquipInv, Executes, CoreExecutes;
    if c in s.core.collections && signer != s.core.collections[c].issuer {
      if IsCoreCall(call) {
        UnfoldCore(cfg, s, signer, call, t);
        CoreTerms(cfg, s.core, signer, call, t.core, c);
      } else {
        OtherStepEffect(cfg, s, signer, call, t);
      }
    }
  }

  // ---------- bases ----------

  /** Only its issuer hands a base over or changes a part of it; parts are never removed. */
  lemma BaseNeedsIssuer(cfg: Config, s: State, signer: Account, call: Call, t: State, base: u32, id: u32)
    requires ChainInv(s) && Step(cfg, s, signer, call, t)
    requires base in s.equip.bases && signer != s.equip.bases[base]
    ensures base in t.equip.bases && t.equip.bases[base] == s.equip.bases[base]
    ensures Get(t.equip.parts, (base, id)) == Get(s.equip.parts, (base, id))
  {
    hide CoreInv, LockInv, OffersInv, CoreExecutes, MarketExecutes, DoEquip, InsertParts, MayEquip, MayUnequip;
    if t != s {
      match call
      case EquipItem(n, key, resourceId) =>
        var r := DoEquip(s.core, s.equip, signer, n, key, resourceId).value;
        DoEquipEffect(s.core, s.equip, signer, n, key, resourceId, r.0, r.1, r.2);
      case CreateBase(parts) => InsertPartsFrame(s.equip.parts, s.equip.nextBaseId, parts, (base, id));
      case _ =>
    }
  }

  // ---------- locks ----------

  /**
   A lock on an item appears only with a listing by its owner, a real account, and goes only when the owner takes
   the listing back or the item is sold.
   */
  lemma LockNeedsOwner(cfg: Config, s: State, signer: Account, call: Call, t: State, n: Item)
    requires ChainInv(s) && RealCall(signer, call) && Step(cfg, s, signer, call, t)
    ensures n !in s.core.lock && n in t.core.lock ==>
              call.List? && call.n == n && n in s.core.owners && signer == s.core.owners[n]
    ensures n in s.core.lock && n !in t.core.lock ==>
              || (call.Unlist? && call.n == n && n in s.core.owners && signer == s.core.owners[n])
              || ((call.Buy? || call.AcceptOffer?) && call.n == n)
  {
    hide CoreInv, LockInv, OffersInv, EquipInv, CoreExecutes, MarketExecutes, DoEquip, Rooted, RootOf;
    var x, y := Exchange(s.core, s.market), Exchange(t.core, t.market);
    if t != s {
      if IsCoreCall(call) {
        var ch := CoreChange(cfg, s.core, signer, call, t.core);
      } else if call.Buy? || call.AcceptOffer? {
        if call.AcceptOffer? {
          OffersAreBacked(x, s.deposits, (call.n, call.offerer));
        }
        var owner, buyer := PurchaseChange(cfg, x, s.now, signer, call, y);
      } else if IsMarketCall(call) {
        QuietLocks(cfg, x, s.now, signer, call, y, n);
      } else if call.EquipItem? {
        var r := DoEquip(s.core, s.equip, signer, call.n, call.key, call.resourceId).value;
        DoEquipEffect(s.core, s.equip, signer, call.n, call.key, call.resourceId, r.0, r.1, r.2);
      }
    }
  }

  lemma QuietLocks(cfg: Config, x: Exchange, now: nat, signer: Account, call: Call, y: Exchange, n: Item)
    requires IsMarketCall(call) && !call.Buy? && !call.AcceptOffer?
    requires MarketExecutes(cfg, x, now, signer, call, y)
    ensures n !in x.core.lock && n in y.core.lock ==>
              call.List? && call.n == n && n in x.core.owners && signer == x.core.owners[n]
    ensures n in x.core.lock && n !in y.core.lock ==>
              call.Unlist? && call.n == n && n in x.core.owners && signer == x.core.owners[n]
  {
    hide MarketSpec.List, MarketSpec.Unlist;
    match call
    case List(m, price, expires) => ListIff(x, signer, m, price, expires);
    case Unlist(m) => UnlistIff(x, signer, m);
    case _ =>
  }
}
