/** The invariants of the whole chain, kept by every step, and who can make an NFT change hands. */
module Safety {
  import opened Prelude
  import opened AccountCodec
  import opened Forest
  import opened Ownership
  import opened CoreSpec
  import opened BurnTheory
  import opened CoreInvariant
  import opened ChildIndex
  import opened Balances
  import opened MarketSpec
  import opened MarketTheory
  import opened EquipSpec
  import opened EquipTheory
  import opened Chain
  import opened ChainInvariant

  ghost predicate ChainInv(s: State) {
    && CoreInv(s.core)
    && LockInv(Exchange(s.core, s.market))
    && OffersInv(s.market, s.deposits)
    && EquipInv(s.equip, s.core.equippableBases)
  }

  // ---------- what calls leave to rmrk-equip ----------

  /** What a call outside rmrk-equip leaves of the tables rmrk-equip relies on. */
  ghost predicate EquipSafe(s: Core, t: Core) {
    s.equippableBases <= t.equippableBases && FlagsKept(s, t)
  }

  lemma MintIsEquipSafe(s: Core, t: Core, c: u32, owner: Account, nft: NftInfo)
    requires IdsInv(s) && MintEffect(s, t, c, owner, nft)
    ensures EquipSafe(s, t)
  {
    MintedIsFresh(s, c);
    hide IdsInv;
  }

  lemma FewerFlags(s: Core, t: Core)
    requires t.nextNftId == s.nextNftId && s.equippableBases <= t.equippableBases
    requires forall x :: x in t.nfts ==> x in s.nfts && t.nfts[x].equipped == s.nfts[x].equipped
    ensures EquipSafe(s, t)
  {
  }

  lemma MoveIsEquipSafe(s: Core, t: Core, n: Item, a: Account)
    requires MoveEffect(s, t, n, a)
    ensures EquipSafe(s, t)
  {
    hide GoodMove;
    assert n in s.nfts by { GoodMoveIsLive(s, n, a); }
    FewerFlags(s, t);
  }

  lemma GoodMoveIsLive(s: Core, n: Item, a: Account)
    requires GoodMove(s, n, a)
    ensures n in s.nfts
  {
  }

  lemma ShrunkIsEquipSafe(s: Core, t: Core)
    requires Shrunk(s, t)
    ensures EquipSafe(s, t)
  {
    FewerFlags(s, t);
  }

  lemma CoreStepFlags(cfg: Config, s: Core, signer: Account, call: Call, t: Core)
    requires IsCoreCall(call) && RealCall(signer, call)
    requires CoreInv(s) && CoreExecutes(cfg, s, signer, call, t)
    ensures EquipSafe(s, t)
  {
    hide IdsInv, CollectionsInv, CountersInv, Rooted, Descends, RootOf, EquipSafe, MintEffect, MoveEffect, Shrunk;
    hide CoreSpec.CreateCollection, CoreSpec.DestroyCollection, CoreSpec.ChangeCollectionIssuer,
         CoreSpec.LockCollection;
    hide CoreSpec.MintNft, CoreSpec.MintNftDirectlyToNft, CoreSpec.BurnNft, CoreSpec.Send, CoreSpec.AcceptNft;
    hide CoreSpec.RejectNft, ResourceAdd;
    LiveAreItems(s);
    match call
    case MintNft(owner, c, transferable, resources) =>
      var a := if owner.Some? then owner.value else signer;
      MintNftEffect(s, signer, owner, c, transferable, resources, t);
      MintIsEquipSafe(s, t, c, a, NftInfo(AccountId(a), false, a != signer, transferable));
    case MintNftDirectlyToNft(parent, c, transferable, resources) =>
      MintDirectlyEffect(s, signer, parent, c, transferable, resources, t);
      var pending := RootOf(s.owners, parent).value.0 != signer;
      MintIsEquipSafe(s, t, c, Virtual(parent), NftInfo(CollectionAndNftTuple(parent), false, pending, transferable));
    case BurnNft(n, maxBurns) =>
      BurnIsEquipSafe(s, signer, n, maxBurns, t);
    case Send(n, newOwner) =>
      SendEffect(s, signer, n, newOwner, t);
      MoveIsEquipSafe(s, t, n, OwnerAccount(newOwner));
    case AcceptNft(n, newOwner) =>
      AcceptEffect(s, signer, n, newOwner, t);
      MoveIsEquipSafe(s, t, n, OwnerAccount(newOwner));
    case RejectNft(n) =>
      RejectEffect(s, signer, n, cfg.maxRecursions, t);
      ShrunkIsEquipSafe(s, t);
    case _ =>
      QuietEffect(cfg, s, signer, call, t);
      FewerFlags(s, t);
  }

  lemma BurnIsEquipSafe(s: Core, sender: Account, n: Item, maxBurns: u32, t: Core)
    requires CoreSpec.BurnNft(s, sender, n, maxBurns, Ok(t))
    ensures EquipSafe(s, t)
  {
    var u := BurnNftEffect(s, sender, n, maxBurns, t);
    FewerFlags(s, t);
  }

  lemma MarketStepFlags(cfg: Config, x: Exchange, deposits: Amounts, now: nat, signer: Account, call: Call, y: Exchange)
    requires IsMarketCall(call) && signer.User?
    requires CoreInv(x.core) && OffersInv(x.market, deposits)
    requires MarketExecutes(cfg, x, now, signer, call, y)
    ensures EquipSafe(x.core, y.core)
  {
    hide CoreInv, OffersInv, MarketExecutes, FlagsKept;
    if call.Buy? || call.AcceptOffer? {
      if call.AcceptOffer? {
        OffersAreBacked(x, deposits, (call.n, call.offerer));
      }
      var owner, buyer := PurchaseChange(cfg, x, now, signer, call, y);
    } else {
      QuietMarketEffect(cfg, x, now, signer, call, y);
    }
    FewerFlags(x.core, y.core);
  }

  /** Calls to other pallets change no child, collection or id, and no NFT but for its record. */
  lemma OtherStepEffect(cfg: Config, s: State, signer: Account, call: Call, t: State)
    requires CoreInv(s.core) && OffersInv(s.market, s.deposits)
    requires RealCall(signer, call) && !IsCoreCall(call) && Executes(cfg, s, signer, call, t)
    ensures t.core == s.core.(nfts := t.core.nfts, owners := t.core.owners, lock := t.core.lock)
    ensures t.core.nfts.Keys == s.core.nfts.Keys && t.core.owners.Keys == s.core.owners.Keys
  {
    hide CoreInv, OffersInv, MarketExecutes, DoEquip, Rooted, RootOf;
    if call.Buy? || call.AcceptOffer? {
      var before, after := Exchange(s.core, s.market), Exchange(t.core, t.market);
      if call.AcceptOffer? {
        OffersAreBacked(before, s.deposits, (call.n, call.offerer));
      }
      var owner, buyer := PurchaseChange(cfg, before, s.now, signer, call, after);
    } else if IsMarketCall(call) {
      QuietMarketEffect(cfg, Exchange(s.core, s.market), s.now, signer, call, Exchange(t.core, t.market));
    } else if call.EquipItem? {
      var r := DoEquip(s.core, s.equip, signer, call.n, call.key, call.resourceId).value;
      DoEquipEffect(s.core, s.equip, signer, call.n, call.key, call.resourceId, r.0, r.1, r.2);
    }
  }

  lemma UnfoldCore(cfg: Config, s: State, signer: Account, call: Call, t: State)
    requires IsCoreCall(call) && Executes(cfg, s, signer, call, t)
    ensures CoreExecutes(cfg, s.core, signer, call, t.core)
  {
  }

  // ---------- every step keeps the invariants ----------

  lemma CoreStepKeepsChain(cfg: Config, s: State, signer: Account, call: Call, t: State)
    requires ChainInv(s) && IsCoreCall(call) && RealCall(signer, call)
    requires Executes(cfg, s, signer, call, t)
    ensures ChainInv(t)
  {
    hide CoreInv, LockInv, OffersInv, EquipInv, CoreExecutes, RealCall;
    CoreStepKeepsInv(cfg, s.core, signer, call, t.core);
    CoreStepKeepsLocks(cfg, Exchange(s.core, s.market), signer, call, t.core);
    CoreStepFlags(cfg, s.core, signer, call, t.core);
    EquipInvGrows(s.equip, s.core.equippableBases, t.core.equippableBases);
  }

  lemma MarketStepKeepsChain(cfg: Config, s: State, signer: Account, call: Call, t: State)
    requires ChainInv(s) && IsMarketCall(call) && signer.User?
    requires Executes(cfg, s, signer, call, t)
    ensures ChainInv(t)
  {
    hide CoreInv, LockInv, OffersInv, EquipInv, MarketExecutes, Rooted, EquipSafe;
    InvIsRooted(s.core);
    var x, y := Exchange(s.core, s.market), Exchange(t.core, t.market);
    MarketStepKeepsInv(cfg, x, s.deposits, s.now, signer, call, y);
    MarketStepKeepsOffers(cfg, x, s.deposits, s.now, signer, call, y);
    MarketStepFlags(cfg, x, s.deposits, s.now, signer, call, y);
    BasesGrow(s.core, t.core);
    EquipInvGrows(s.equip, s.core.equippableBases, t.core.equippableBases);
  }

  lemma BasesGrow(s: Core, t: Core)
    requires EquipSafe(s, t)
    ensures s.equippableBases <= t.equippableBases
  {
  }

  lemma LocksFrame(x: Exchange, y: Exchange)
    requires LockInv(x)
    requires y.core.lock == x.core.lock && y.core.owners == x.core.owners && y.market.listedNfts == x.market.listedNfts
    ensures LockInv(y)
  {
    forall n | n in y.core.lock
      ensures LockedIsListed(y, n)
    {
      assert LockedIsListed(x, n);
    }
  }

  lemma ElsewhereKeepsOffers(m: Market, deposits: Amounts, money: Money, deposits': Amounts)
    requires OffersInv(m, deposits) && BacksOffers(m.money, deposits, money, deposits')
    ensures OffersInv(m.(money := money), deposits')
  {
    forall a
      ensures ReserveBacks(m.(money := money), deposits', a)
    {
      assert ReserveBacks(m, deposits, a);
      assert Balance(money.reserved, a) - Balance(deposits', a) == Balance(m.money.reserved, a) - Balance(deposits, a);
    }
  }

  lemma OtherStepKeepsChain(cfg: Config, s: State, signer: Account, call: Call, t: State)
    requires ChainInv(s) && !IsCoreCall(call) && !IsMarketCall(call)
    requires Executes(cfg, s, signer, call, t)
    ensures ChainInv(t)
  {
    hide CoreInv, LockInv, OffersInv, EquipInv, DoEquip;
    var bases := s.core.equippableBases;
    match call
    case EquipItem(n, key, resourceId) =>
      var r := DoEquip(s.core, s.equip, signer, n, key, resourceId).value;
      DoEquipEffect(s.core, s.equip, signer, n, key, resourceId, r.0, r.1, r.2);
      DoEquipKeepsInv(s.core, s.equip, signer, n, key, resourceId, r.0, r.1, r.2);
      LocalChangeKeepsInv(s.core, t.core);
      LocksFrame(Exchange(s.core, s.market), Exchange(t.core, t.market));
    case Equippable(base, part, list) => DoEquippableKeepsInv(s.equip, signer, base, part, list, bases, t.equip);
    case CreateBase(parts) => BaseCreateKeepsInv(s.equip, signer, parts, bases, t.equip);
    case ChangeBaseIssuer(base, newIssuer) =>
      ChangeBaseIssuerKeepsInv(s.equip, signer, base, newIssuer, bases, t.equip);
    case Elsewhere(money, deposits, now) =>
      ElsewhereKeepsOffers(s.market, s.deposits, money, deposits);
      LocksFrame(Exchange(s.core, s.market), Exchange(t.core, t.market));
  }

  lemma StepKeepsChain(cfg: Config, s: State, signer: Account, call: Call, t: State)
    requires ChainInv(s) && RealCall(signer, call) && Step(cfg, s, signer, call, t)
    ensures ChainInv(t)
  {
    hide ChainInv, Executes;
    if t != s {
      if IsCoreCall(call) {
        CoreStepKeepsChain(cfg, s, signer, call, t);
      } else if IsMarketCall(call) {
        MarketStepKeepsChain(cfg, s, signer, call, t);
      } else {
        OtherStepKeepsChain(cfg, s, signer, call, t);
      }
    }
  }

  lemma GenesisInv(s: State)
    requires IsGenesis(s)
    ensures ChainInv(s)
  {
    EmptyInv();
    hide CoreInv;
    forall a
      ensures ReserveBacks(s.market, s.deposits, a)
    {
      NoOffers(s.market.offers, a);
    }
  }

  lemma NoOffers(offers: map<(Item, Account), Offer>, a: Account)
    requires offers.Keys == {}
    ensures OffersOf(offers, a) == 0
  {
    var mine := map k | k in offers && k.1 == a :: offers[k].amount;
    assert mine.Keys == {};
  }

  // ---------- the slots, under documented use ----------

  /** A call on an occupied slot names the item that sits in it. */
  predicate EquipDocumented(s: State, call: Call) {
    call.EquipItem? ==> NamesOccupant(s.seats, call.n, call.key)
  }

  lemma StepKeepsSeats(cfg: Config, s: State, signer: Account, call: Call, t: State)
    requires ChainInv(s) && RealCall(signer, call) && Step(cfg, s, signer, call, t)
    requires EquipDocumented(s, call) && SeatInv(s.core, s.equip, s.seats)
    ensures SeatInv(t.core, t.equip, t.seats)
  {
    hide LockInv, OffersInv, EquipInv, SeatInv, CoreExecutes, MarketExecutes, DoEquip;
    if t != s {
      if IsCoreCall(call) {
        CoreStepFlags(cfg, s.core, signer, call, t.core);
        FlagsKeptKeepsSeats(s.core, t.core, s.equip, s.seats);
      } else if IsMarketCall(call) {
        MarketStepFlags(cfg, Exchange(s.core, s.market), s.deposits, s.now, signer, call, Exchange(t.core, t.market));
        FlagsKeptKeepsSeats(s.core, t.core, s.equip, s.seats);
      } else {
        OtherStepKeepsSeats(cfg, s, signer, call, t);
      }
    }
  }

  lemma OtherStepKeepsSeats(cfg: Config, s: State, signer: Account, call: Call, t: State)
    requires IdsInv(s.core) && !IsCoreCall(call) && !IsMarketCall(call)
    requires Executes(cfg, s, signer, call, t)
    requires EquipDocumented(s, call) && SeatInv(s.core, s.equip, s.seats)
    ensures SeatInv(t.core, t.equip, t.seats)
  {
    if call.EquipItem? {
      hide IdsInv, SeatInv, DoEquip;
      var r := DoEquip(s.core, s.equip, signer, call.n, call.key, call.resourceId).value;
      DocumentedEquipKeepsSeats(s.core, s.equip, s.seats, signer, call.n, call.key, call.resourceId, r.0, r.1, r.2);
    } else {
      SeatsFrame(s.core, s.equip, t.equip, s.seats);
    }
  }

  lemma SeatsFrame(s: Core, e: Equip, f: Equip, seats: map<SlotKey, Item>)
    requires SeatInv(s, e, seats) && f.equippings == e.equippings
    ensures SeatInv(s, f, seats)
  {
  }

  // ---------- the child index, under documented use ----------

  /** `accept_nft` names the recipient the NFT was sent to. */
  predicate NestingDocumented(s: Core, call: Call) {
    call.AcceptNft? && call.n in s.owners ==> SameNft(s.owners[call.n], OwnerAccount(call.newOwner))
  }

  /** The NFTs without a row after a call: a direct mint adds one, a send enters the row. */
  function RowlessAfter(s: Core, call: Call, rowless: set<Item>): set<Item> {
    match call
    case MintNftDirectlyToNft(_, c, _, _) => rowless + {Minted(s, c)}
    case Send(n, _) => rowless - {n}
    case _ => rowless
  }

  lemma CoreStepKeepsIndex(cfg: Config, s: Core, signer: Account, call: Call, t: Core, rowless: set<Item>)
    requires IsCoreCall(call) && RealCall(signer, call) && NestingDocumented(s, call)
    requires CoreInv(s) && IndexInvBut(s, rowless) && CoreExecutes(cfg, s, signer, call, t)
    ensures IndexInvBut(t, RowlessAfter(s, call, rowless))
  {
    hide CoreInv, IdsInv, Rooted, IndexInvBut, RootOf, Descends, MintEffect, AtOrBelow;
    hide CoreSpec.CreateCollection, CoreSpec.DestroyCollection, CoreSpec.ChangeCollectionIssuer,
         CoreSpec.LockCollection;
    hide CoreSpec.MintNft, CoreSpec.MintNftDirectlyToNft, CoreSpec.BurnNft, CoreSpec.Send, CoreSpec.AcceptNft;
    hide CoreSpec.RejectNft, ResourceAdd;
    InvHasIds(s);
    InvIsRooted(s);
    match call
    case MintNft(owner, c, transferable, resources) =>
      var a := if owner.Some? then owner.value else signer;
      MintNftEffect(s, signer, owner, c, transferable, resources, t);
      MintKeepsIndex(s, t, c, a, NftInfo(AccountId(a), false, a != signer, transferable), rowless);
    case MintNftDirectlyToNft(parent, c, transferable, resources) =>
      MintDirectlyBreaksIndex(s, signer, parent, c, transferable, resources, t, rowless);
    case BurnNft(n, maxBurns) => BurnNftRemovesSubtree(s, signer, n, maxBurns, t, rowless);
    case Send(n, newOwner) => SendKeepsIndex(s, signer, n, newOwner, t, rowless);
    case AcceptNft(n, newOwner) => AcceptKeepsIndexIff(s, signer, n, newOwner, t, rowless);
    case RejectNft(n) => RejectNftRemovesSubtree(s, signer, n, cfg.maxRecursions, t, rowless);
    case _ =>
      QuietEffect(cfg, s, signer, call, t);
      IndexFrame(s, t, rowless);
  }

  lemma SaleKeepsIndex(s: Core, t: Core, n: Item, buyer: Account, rowless: set<Item>)
    requires IndexInvBut(s, rowless) && n in s.nfts && n in s.owners && s.owners[n].User? && buyer.User?
    requires t.owners == s.owners[n := buyer] && t.nfts.Keys == s.nfts.Keys && t.children == s.children
    ensures IndexInvBut(t, rowless)
  {
    KeptRow(s, t, n, buyer, rowless);
  }

  lemma MarketStepKeepsIndex(cfg: Config, x: Exchange, deposits: Amounts, now: nat, signer: Account, call: Call,
                             y: Exchange, rowless: set<Item>)
    requires IsMarketCall(call) && signer.User?
    requires CoreInv(x.core) && OffersInv(x.market, deposits) && IndexInvBut(x.core, rowless)
    requires MarketExecutes(cfg, x, now, signer, call, y)
    ensures IndexInvBut(y.core, rowless)
  {
    hide CoreInv, OffersInv, MarketExecutes, IndexInvBut;
    if call.Buy? || call.AcceptOffer? {
      if call.AcceptOffer? {
        OffersAreBacked(x, deposits, (call.n, call.offerer));
      }
      var owner, buyer := PurchaseChange(cfg, x, now, signer, call, y);
      SaleKeepsIndex(x.core, y.core, call.n, buyer, rowless);
    } else {
      QuietMarketEffect(cfg, x, now, signer, call, y);
      IndexFrame(x.core, y.core, rowless);
    }
  }

  /** Documented acceptances keep every row right; just the NFTs in `RowlessAfter` have none. */
  lemma StepKeepsIndex(cfg: Config, s: State, signer: Account, call: Call, t: State, rowless: set<Item>)
    requires ChainInv(s) && RealCall(signer, call) && Executes(cfg, s, signer, call, t)
    requires NestingDocumented(s.core, call) && IndexInvBut(s.core, rowless)
    ensures IndexInvBut(t.core, RowlessAfter(s.core, call, rowless))
  {
    hide CoreInv, LockInv, OffersInv, EquipInv, IndexInvBut, CoreExecutes, MarketExecutes;
    if IsCoreCall(call) {
      CoreStepKeepsIndex(cfg, s.core, signer, call, t.core, rowless);
    } else if IsMarketCall(call) {
      MarketStepKeepsIndex(cfg, Exchange(s.core, s.market), s.deposits, s.now, signer, call,
                           Exchange(t.core, t.market), rowless);
    } else {
      if call.EquipItem? {
        var r := DoEquip(s.core, s.equip, signer, call.n, call.key, call.resourceId).value;
        hide DoEquip;
        DoEquipEffect(s.core, s.equip, signer, call.n, call.key, call.resourceId, r.0, r.1, r.2);
      }
      IndexFrame(s.core, t.core, rowless);
    }
  }

  // ---------- locked items ----------

  /** A locked item changes hands only by a purchase; else it stays, or its owner burns it. */
  lemma LockedMovesOnlyByPurchase(cfg: Config, s: State, signer: Account, call: Call, t: State, n: Item)
    requires ChainInv(s) && RealCall(signer, call) && Step(cfg, s, signer, call, t)
    requires n in s.core.lock && n in s.core.owners
    ensures (n in t.core.owners && t.core.owners[n] == s.core.owners[n])
            || ((call.Buy? || call.AcceptOffer?) && call.n == n)
            || (call.BurnNft? && call.n == n && signer == s.core.owners[n] && n !in t.core.owners)
  {
    var x, y := Exchange(s.core, s.market), Exchange(t.core, t.market);
    hide CoreInv, LockInv, OffersInv, EquipInv, MarketExecutes, CoreExecutes, DoEquip, RootOf;
    LockInvAt(x, n);
    if t != s {
      if IsCoreCall(call) {
        LockedStaysPut(cfg, s.core, signer, call, t.core, n);
        RootOfTop(s.core.owners, n);
      } else if call.Buy? || call.AcceptOffer? {
        if call.AcceptOffer? {
          OffersAreBacked(x, s.deposits, (call.n, call.offerer));
        }
        var owner, buyer := PurchaseChange(cfg, x, s.now, signer, call, y);
      } else if IsMarketCall(call) {
        QuietMarketEffect(cfg, x, s.now, signer, call, y);
      } else if call.EquipItem? {
        var r := DoEquip(s.core, s.equip, signer, call.n, call.key, call.resourceId).value;
        DoEquipEffect(s.core, s.equip, signer, call.n, call.key, call.resourceId, r.0, r.1, r.2);
      }
    }
  }

  /** An equipped or non-transferable NFT that stays an item changes owner only by an acceptance of it. */
  lemma FixedMovesOnlyByAccept(cfg: Config, s: State, signer: Account, call: Call, t: State, n: Item)
    requires ChainInv(s) && RealCall(signer, call) && Step(cfg, s, signer, call, t)
    requires n in s.core.nfts && (s.core.nfts[n].equipped || !s.core.nfts[n].transferable)
    requires n in s.core.owners && n in t.core.owners && t.core.owners[n] != s.core.owners[n]
    ensures call.AcceptNft? && call.n == n && CoreExecutes(cfg, s.core, signer, call, t.core)
  {
    hide CoreInv, LockInv, OffersInv, EquipInv, MarketExecutes, CoreExecutes, DoEquip, RootOf, Rooted;
    var x, y := Exchange(s.core, s.market), Exchange(t.core, t.market);
    if IsCoreCall(call) {
      var ch := CoreChange(cfg, s.core, signer, call, t.core);
    } else if call.Buy? || call.AcceptOffer? {
      if call.AcceptOffer? {
        OffersAreBacked(x, s.deposits, (call.n, call.offerer));
      }
      var owner, buyer := PurchaseChange(cfg, x, s.now, signer, call, y);
    } else if IsMarketCall(call) {
      QuietMarketEffect(cfg, x, s.now, signer, call, y);
    } else if call.EquipItem? {
      var r := DoEquip(s.core, s.equip, signer, call.n, call.key, call.resourceId).value;
      DoEquipEffect(s.core, s.equip, signer, call.n, call.key, call.resourceId, r.0, r.1, r.2);
    }
  }

  /** Whatever the step: a slot that was taken before and is taken after it holds the same resource of the same NFT. */
  lemma SlotKeepsContent(cfg: Config, s: State, signer: Account, call: Call, t: State, key: SlotKey)
    requires Step(cfg, s, signer, call, t)
    requires key in s.equip.equippings && key in t.equip.equippings
    ensures t.equip.equippings[key] == s.equip.equippings[key]
    ensures key in s.seats <==> key in t.seats
    ensures key in s.seats ==> t.seats[key] == s.seats[key]
  {
    hide CoreExecutes, MarketExecutes, DoEquip, InsertParts, MayEquip, MayUnequip;
    if call.EquipItem? && t != s {
      var r := DoEquip(s.core, s.equip, signer, call.n, call.key, call.resourceId).value;
      DoEquipEffect(s.core, s.equip, signer, call.n, call.key, call.resourceId, r.0, r.1, r.2);
    }
  }

  lemma RootOfTop(o: Owners, n: Item)
    requires n in o && o[n].User?
    ensures RootOf(o, n).Ok? ==> RootOf(o, n).value.0 == o[n]
  {
  }

  lemma LockInvAt(x: Exchange, n: Item)
    requires LockInv(x) && n in x.core.lock
    ensures LockedIsListed(x, n)
  {
  }

  // ---------- consent ----------

  /** One change of the owner table takes an NFT from account `a` only if `a` signed it. */
  lemma ChangeNeedsConsent(s: Core, t: Core, signer: Account, ch: Change, n: Item, a: Account)
    requires Rooted(s.owners) && Rooted(t.owners) && Changes(s, t, signer, ch)
    requires RootedAt(s.owners, n, a) && !RootedAt(t.owners, n, a)
    ensures signer == a
  {
    match ch
    case Same =>
    case Mints(m, b) =>
      DescendsStep(LinksOf(s.owners), n, m);
      if Descends(LinksOf(s.owners), n, m) {
        var c := DescendsLast(LinksOf(s.owners), n, m);
      }
      RootElsewhere(s.owners, t.owners, m, n);
    case Moves(m, b) =>
      RootsAfterMove(s.owners, m, b, n);
      if AtOrBelow(LinksOf(s.owners), n, m) {
        RootShared(s.owners, n, m);
      }
    case Drops(m) =>
      if AtOrBelow(LinksOf(s.owners), n, m) {
        RootShared(s.owners, n, m);
      } else {
        RootElsewhere(s.owners, t.owners, m, n);
      }
  }

  lemma SaleNeedsConsent(x: Exchange, y: Exchange, m: Item, owner: Account, buyer: Account, n: Item, a: Account)
    requires Rooted(x.core.owners) && Rooted(y.core.owners) && Sold(x, y, m, owner, buyer)
    requires RootedAt(x.core.owners, n, a) && !RootedAt(y.core.owners, n, a)
    ensures owner == a && RootOf(x.core.owners, n) == Ok((a, m))
  {
    RootsAfterMove(x.core.owners, m, buyer, n);
    if AtOrBelow(LinksOf(x.core.owners), n, m) {
      RootShared(x.core.owners, n, m);
    }
  }

  /**
   If a step makes `a` stop being the root owner of `n`, then `a` signed it, or the step is a `buy` of
   the root NFT of `n` under a stored listing that `a` made.
   */
  lemma OwnershipNeedsConsent(cfg: Config, s: State, signer: Account, call: Call, t: State, n: Item, a: Account)
    requires ChainInv(s) && RealCall(signer, call) && Step(cfg, s, signer, call, t)
    requires RootedAt(s.core.owners, n, a) && !RootedAt(t.core.owners, n, a)
    ensures signer == a
            || (call.Buy? && RootOf(s.core.owners, n) == Ok((a, call.n))
                && call.n in s.market.listedNfts && s.market.listedNfts[call.n].listedBy == a)
  {
    hide CoreInv, LockInv, OffersInv, EquipInv, CoreExecutes, MarketExecutes, DoEquip, Rooted, RootOf, RootedAt;
    hide MayEquip, MayUnequip, InsertParts;
    StepKeepsChain(cfg, s, signer, call, t);
    InvIsRooted(s.core);
    InvIsRooted(t.core);
    if IsCoreCall(call) {
      var ch := CoreChange(cfg, s.core, signer, call, t.core);
      ChangeNeedsConsent(s.core, t.core, signer, ch, n, a);
    } else if IsMarketCall(call) {
      var x, y := Exchange(s.core, s.market), Exchange(t.core, t.market);
      MarketConsent(cfg, x, s.deposits, s.now, signer, call, y, n, a);
    } else if call.EquipItem? {
      var r := DoEquip(s.core, s.equip, signer, call.n, call.key, call.resourceId).value;
      DoEquipEffect(s.core, s.equip, signer, call.n, call.key, call.resourceId, r.0, r.1, r.2);
    }
  }

  lemma MarketConsent(cfg: Config, x: Exchange, deposits: Amounts, now: nat, signer: Account, call: Call, y: Exchange,
                      n: Item, a: Account)
    requires IsMarketCall(call) && signer.User?
    requires CoreInv(x.core) && OffersInv(x.market, deposits)
    requires MarketExecutes(cfg, x, now, signer, call, y)
    requires RootedAt(x.core.owners, n, a) && !RootedAt(y.core.owners, n, a)
    ensures signer == a
            || (call.Buy? && RootOf(x.core.owners, n) == Ok((a, call.n))
                && call.n in x.market.listedNfts && x.market.listedNfts[call.n].listedBy == a)
  {
    assert Rooted(x.core.owners);
    if call.AcceptOffer? {
      OffersAreBacked(x, deposits, (call.n, call.offerer));
    }
    hide CoreInv, OffersInv, MarketExecutes, Rooted, RootOf;
    if !call.Buy? && !call.AcceptOffer? {
      QuietMarketEffect(cfg, x, now, signer, call, y);
    }
    var owner, buyer := PurchaseChange(cfg, x, now, signer, call, y);
    InvIsRooted(y.core);
    SaleNeedsConsent(x, y, call.n, owner, buyer, n, a);
  }
}
