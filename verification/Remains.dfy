/**
 What burnt NFTs leave behind. Items nested in one lose their root owner, for good. A row to one
 whose collection is destroyed stays, and the NFT that has the row can never be burnt or rejected.
 */
module Remains {
  import opened Prelude
  import opened AccountCodec
  import opened Forest
  import opened Ownership
  import opened Rows
  import opened CoreSpec
  import opened BurnTheory
  import opened CoreInvariant
  import opened ChildIndex
  import opened MarketSpec
  import opened MarketTheory
  import opened EquipSpec
  import opened EquipTheory
  import opened Chain
  import opened ChainInvariant
  import opened Safety
  import opened Supply

  // ---------- items without a root owner ----------

  ghost predicate Orphan(o: Owners, x: Item) {
    x in o && RootOf(o, x).Err?
  }

  /** One change of the owner table touches no orphan. */
  lemma ChangeKeepsOrphan(s: Core, t: Core, signer: Account, ch: Change, x: Item)
    requires Rooted(s.owners) && Rooted(t.owners) && Changes(s, t, signer, ch) && Orphan(s.owners, x)
    ensures Orphan(t.owners, x) && t.owners[x] == s.owners[x]
  {
    match ch
    case Same =>
    case Mints(m, b) =>
      DescendsStep(LinksOf(s.owners), x, m);
      if Descends(LinksOf(s.owners), x, m) {
        var c := DescendsLast(LinksOf(s.owners), x, m);
      }
      RootElsewhere(s.owners, t.owners, m, x);
    case Moves(m, b) =>
      RootsAfterMove(s.owners, m, b, x);
      if AtOrBelow(LinksOf(s.owners), x, m) {
        RootShared(s.owners, x, m);
      }
    case Drops(m) =>
      if AtOrBelow(LinksOf(s.owners), x, m) {
        RootShared(s.owners, x, m);
      }
      RootElsewhere(s.owners, t.owners, m, x);
  }

  lemma SaleKeepsOrphan(x: Exchange, y: Exchange, m: Item, owner: Account, buyer: Account, o: Item)
    requires Rooted(x.core.owners) && Sold(x, y, m, owner, buyer) && Orphan(x.core.owners, o)
    ensures Orphan(y.core.owners, o) && y.core.owners[o] == x.core.owners[o]
  {
    RootsAfterMove(x.core.owners, m, buyer, o);
    if AtOrBelow(LinksOf(x.core.owners), o, m) {
      RootShared(x.core.owners, o, m);
    }
  }

  /** Whatever the step, an item without a root owner stays where it is, and without one. */
  lemma StepKeepsOrphan(cfg: Config, s: State, signer: Account, call: Call, t: State, x: Item)
    requires ChainInv(s) && RealCall(signer, call) && Step(cfg, s, signer, call, t)
    requires Orphan(s.core.owners, x)
    ensures Orphan(t.core.owners, x) && t.core.owners[x] == s.core.owners[x]
  {
    hide CoreInv, LockInv, OffersInv, EquipInv, CoreExecutes, MarketExecutes, DoEquip, Rooted, RootOf, Orphan, Sold;
    OrphanIsItem(s.core.owners, x);
    InvIsRooted(s.core);
    if t != s {
      if IsCoreCall(call) {
        var ch := CoreChange(cfg, s.core, signer, call, t.core);
        ChangeKeepsOrphan(s.core, t.core, signer, ch, x);
      } else if call.Buy? || call.AcceptOffer? {
        var before, after := Exchange(s.core, s.market), Exchange(t.core, t.market);
        if call.AcceptOffer? {
          OffersAreBacked(before, s.deposits, (call.n, call.offerer));
        }
        var owner, buyer := PurchaseChange(cfg, before, s.now, signer, call, after);
        SaleKeepsOrphan(before, after, call.n, owner, buyer, x);
      } else if IsMarketCall(call) {
        QuietMarketEffect(cfg, Exchange(s.core, s.market), s.now, signer, call, Exchange(t.core, t.market));
      } else if call.EquipItem? {
        var r := DoEquip(s.core, s.equip, signer, call.n, call.key, call.resourceId).value;
        DoEquipEffect(s.core, s.equip, signer, call.n, call.key, call.resourceId, r.0, r.1, r.2);
      }
    }
  }

  lemma OrphanIsItem(o: Owners, x: Item)
    requires Orphan(o, x)
    ensures x in o
  {
  }

  /** A burn orphans just the items, live or not, that were nested in the NFT. */
  lemma BurnOrphans(s: Core, sender: Account, n: Item, maxBurns: nat, t: Core, x: Item)
    requires CoreInv(s) && CoreSpec.BurnNft(s, sender, n, maxBurns, Ok(t))
    ensures Orphan(t.owners, x) <==>
            x in t.owners && (Orphan(s.owners, x) || Descends(LinksOf(s.owners), x, n))
  {
    hide CoreInv, CoreSpec.BurnNft, Burns, Rooted, Shrunk, LookupRootOwner, Descends;
    InvIsRooted(s);
    var u := BurnNftEffect(s, sender, n, maxBurns, t);
    RootedAfterBurn(s.owners, n);
    MissingHasNoRoot(t.owners, n);
    if AtOrBelow(LinksOf(s.owners), x, n) {
      RootBelow(s.owners, t.owners, n, x);
    } else {
      RootElsewhere(s.owners, t.owners, n, x);
    }
  }

  /** Nobody can move, accept, burn or reject an orphan, nor destroy its collection. */
  lemma OrphanIsStuck(s: Core, sender: Account, x: Item, newOwner: Owner, budget: nat, r: Result<Core, Error>)
    requires Orphan(s.owners, x)
    ensures CoreSpec.Send(s, sender, x, newOwner).Err? && CoreSpec.AcceptNft(s, sender, x, newOwner).Err?
    ensures CoreSpec.BurnNft(s, sender, x, budget, r) || CoreSpec.RejectNft(s, sender, x, budget, r) ==> r.Err?
    ensures CoreSpec.DestroyCollection(s, sender, x.collection).Err?
  {
    hide RootOf;
    assert x in ItemsOf(s.owners, x.collection);
  }

  // ---------- rows to a destroyed collection ----------

  /** A row to an NFT whose collection was destroyed. */
  predicate DeadRow(s: Core, p: Item, x: Item) {
    (p, x) in s.children && x.collection !in s.collections && x.collection < s.collectionIndex
  }

  /** Whoever has such a row at or below it cannot be burnt or rejected, by anybody, at any budget. */
  lemma DeadRowPins(s: Core, n: Item, p: Item, x: Item, sender: Account, budget: nat, r: Result<Core, Error>)
    requires CoreInv(s) && DeadRow(s, p, x) && p in Reach(s.children, n)
    ensures CoreSpec.BurnNft(s, sender, n, budget, r) || CoreSpec.RejectNft(s, sender, n, budget, r) ==> r.Err?
  {
    hide CoreInv, Burns, RootOf, Rooted;
    ReachClosed(s.children, n);
    assert (p, x).0 in Reach(s.children, n);
    hide Reach;
    if r.Ok? && CoreSpec.BurnNft(s, sender, n, budget, r) {
      BurnNftOutcome(s, sender, n, budget, r) by { RootOfBurner(s, sender, n, budget, r); }
    }
    if r.Ok? && CoreSpec.RejectNft(s, sender, n, budget, r) {
      RejectNftOutcome(s, sender, n, budget, r);
    }
  }

  lemma RootOfBurner(s: Core, sender: Account, n: Item, budget: nat, r: Result<Core, Error>)
    requires CoreSpec.BurnNft(s, sender, n, budget, r) && r.Ok?
    ensures RootedAt(s.owners, n, sender)
  {
  }

  lemma DeadIsGone(s: Core, p: Item, x: Item)
    requires CoreInv(s) && DeadRow(s, p, x)
    ensures x !in s.owners && x !in s.nfts
  {
  }

  /** A successful burn leaves the row, and the NFT that has it. */
  lemma BurnKeepsDeadRow(s: Core, n: Item, b: nat, t: Core, p: Item, x: Item)
    requires DeadRow(s, p, x) && x !in s.nfts && Burns(s, n, b, Ok(t))
    ensures (p, x) in t.children && (p in s.nfts ==> p in t.nfts)
  {
    BurnsExact(s, n, b, t);
    BurnNeedsCollections(s, n, b, t);
    ReachClosed(s.children, n);
    hide Reach, Burns;
    assert (p, x).1 !in Reach(s.children, n) && (p, x).0 !in Reach(s.children, n);
  }

  lemma CoreKeepsDeadRow(cfg: Config, s: Core, signer: Account, call: Call, t: Core, p: Item, x: Item)
    requires IsCoreCall(call) && RealCall(signer, call) && CoreInv(s) && CoreExecutes(cfg, s, signer, call, t)
    requires DeadRow(s, p, x)
    ensures (p, x) in t.children && (p in s.nfts ==> p in t.nfts)
  {
    hide CoreInv, IdsInv, Rooted, RootOf, Descends, MintEffect, Shrunk, Burns, GoodMove;
    hide CoreSpec.CreateCollection, CoreSpec.DestroyCollection, CoreSpec.ChangeCollectionIssuer,
         CoreSpec.LockCollection;
    hide CoreSpec.MintNft, CoreSpec.MintNftDirectlyToNft, CoreSpec.BurnNft, CoreSpec.Send, CoreSpec.AcceptNft;
    hide CoreSpec.RejectNft, ResourceAdd;
    DeadIsGone(s, p, x);
    InvIsRooted(s);
    match call
    case MintNft(owner, c, transferable, resources) =>
      MintNftEffect(s, signer, owner, c, transferable, resources, t);
      MintKeepsRows(s, t, c, if owner.Some? then owner.value else signer, t.nfts[Minted(s, c)]);
    case MintNftDirectlyToNft(parent, c, transferable, resources) =>
      MintDirectlyEffect(s, signer, parent, c, transferable, resources, t);
      MintKeepsRows(s, t, c, Virtual(parent), t.nfts[Minted(s, c)]);
    case BurnNft(n, maxBurns) =>
      var u := BurnNftEffect(s, signer, n, maxBurns, t);
      BurnKeepsDeadRow(s, n, maxBurns, u, p, x);
    case Send(n, newOwner) =>
      SendEffect(s, signer, n, newOwner, t);
      GoodMoveIsLive(s, n, OwnerAccount(newOwner));
    case AcceptNft(n, newOwner) => AcceptEffect(s, signer, n, newOwner, t);
    case RejectNft(n) =>
      LiveAreItems(s) by { InvHasIds(s); }
      RejectEffect(s, signer, n, cfg.maxRecursions, t);
      BurnKeepsDeadRow(RejectStart(s, n), n, cfg.maxRecursions, t, p, x);
    case _ => QuietEffect(cfg, s, signer, call, t);
  }

  lemma MintKeepsRows(s: Core, t: Core, c: u32, owner: Account, nft: NftInfo)
    requires MintEffect(s, t, c, owner, nft)
    ensures t.children == s.children && s.nfts.Keys <= t.nfts.Keys
  {
  }

  /** Whatever the step, such a row stays, and so does the NFT that has it. */
  lemma StepKeepsDeadRow(cfg: Config, s: State, signer: Account, call: Call, t: State, p: Item, x: Item)
    requires ChainInv(s) && RealCall(signer, call) && Step(cfg, s, signer, call, t)
    requires DeadRow(s.core, p, x)
    ensures DeadRow(t.core, p, x) && (p in s.core.nfts ==> p in t.core.nfts)
  {
    hide CoreInv, LockInv, OffersInv, EquipInv, CoreExecutes, MarketExecutes, DoEquip, Rooted, RootOf, Executes;
    if t != s {
      if IsCoreCall(call) {
        assert CoreExecutes(cfg, s.core, signer, call, t.core) by { UnfoldCore(cfg, s, signer, call, t); }
        CoreKeepsDeadRow(cfg, s.core, signer, call, t.core, p, x);
      } else {
        OtherStepEffect(cfg, s, signer, call, t);
      }
      if MintsIn(call, x.collection) {
        MintUsesId(cfg, s, signer, call, t, x.collection);
      } else {
        StepMintsNothing(cfg, s, signer, call, t, x.collection);
      }
    }
  }
}
