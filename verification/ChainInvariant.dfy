/** What every state of every run satisfies, and what every step respects. */
module ChainInvariant {
  import opened Prelude
  import opened AccountCodec
  import opened Forest
  import opened Ownership
  import opened CoreSpec
  import opened CoreInvariant
  import opened Balances
  import opened MarketSpec
  import opened MarketTheory
  import opened Chain

  // ---------- how a call changes the owner table ----------

  datatype Change = Same | Mints(n: Item, a: Account) | Moves(n: Item, a: Account) | Drops(n: Item)

  ghost predicate Changes(s: Core, t: Core, signer: Account, ch: Change) {
    match ch
    case Same => t.owners == s.owners
    case Mints(n, a) =>
      && n !in s.owners && !Allocated(s, n) && n !in s.lock && n !in LinksOf(s.owners).Values
      && t.owners == s.owners[n := a]
    case Moves(n, a) =>
      && n in s.owners && n !in s.lock && RootOf(s.owners, n).Ok? && RootOf(s.owners, n).value.0 == signer
      && (a.Virtual? ==> a.item != n && !Descends(LinksOf(s.owners), a.item, n))
      && t.owners == s.owners[n := a]
    case Drops(n) =>
      && RootOf(s.owners, n).Ok? && RootOf(s.owners, n).value.0 == signer
      && t.owners == s.owners - {n}
  }

  lemma MintChange(s: Core, t: Core, signer: Account, c: u32, a: Account, nft: NftInfo)
    requires CoreInv(s) && MintEffect(s, t, c, a, nft)
    requires a.Virtual? ==> a.item in s.owners
    ensures t.lock == s.lock && Changes(s, t, signer, Mints(Minted(s, c), a)) && Rooted(t.owners)
  {
    MintedIsFresh(s, c);
    RootedAfterMint(s.owners, Minted(s, c), a);
  }

  lemma MoveChange(s: Core, t: Core, signer: Account, n: Item, a: Account)
    requires CoreInv(s) && MoveEffect(s, t, n, a) && RootOf(s.owners, n).value.0 == signer
    ensures t.lock == s.lock && Changes(s, t, signer, Moves(n, a)) && Rooted(t.owners)
  {
    LiveAreItems(s);
    RootedAfterMove(s.owners, n, a);
  }

  lemma BurnChange(s: Core, t: Core, signer: Account, n: Item, maxBurns: u32)
    requires CoreInv(s) && CoreSpec.BurnNft(s, signer, n, maxBurns, Ok(t))
    ensures t.lock == s.lock && Changes(s, t, signer, Drops(n)) && Rooted(t.owners)
  {
    var u := BurnNftEffect(s, signer, n, maxBurns, t);
    RootedAfterBurn(s.owners, n);
  }

  predicate IsQuietCall(call: Call) {
    call.CreateCollection? || call.DestroyCollection? || call.ChangeCollectionIssuer? || call.LockCollection?
    || call.AddResource? || call.TouchResources?
  }

  /** Collection and resource calls leave every NFT, its owner, its children and its lock alone. */
  lemma QuietEffect(cfg: Config, s: Core, signer: Account, call: Call, t: Core)
    requires IsQuietCall(call) && CoreExecutes(cfg, s, signer, call, t)
    ensures t.lock == s.lock && t.owners == s.owners && t.nfts == s.nfts && t.children == s.children
    ensures t.nextNftId == s.nextNftId && s.equippableBases <= t.equippableBases
  {
  }

  /** The calls to rmrk-core that move an existing item. */
  predicate MovedBy(s: Core, call: Call, n: Item) {
    || (call.AcceptNft? && call.n == n)
    || (call.Send? && call.n == n && n in s.nfts && s.nfts[n].transferable && !s.nfts[n].equipped)
  }

  /** Calls to rmrk-core change at most one owner, under the signer's root ownership, and no lock. */
  lemma CoreChange(cfg: Config, s: Core, signer: Account, call: Call, t: Core) returns (ch: Change)
    requires IsCoreCall(call) && RealCall(signer, call)
    requires CoreInv(s) && CoreExecutes(cfg, s, signer, call, t)
    ensures t.lock == s.lock
    ensures Changes(s, t, signer, ch)
    ensures ch.Drops? ==> call.BurnNft? && call.n == ch.n
    ensures ch.Moves? ==> MovedBy(s, call, ch.n)
    ensures Rooted(t.owners)
  {
    hide IdsInv, CollectionsInv, CountersInv, Rooted;
    hide CoreSpec.CreateCollection, CoreSpec.DestroyCollection, CoreSpec.ChangeCollectionIssuer,
         CoreSpec.LockCollection;
    hide CoreSpec.MintNft, CoreSpec.MintNftDirectlyToNft, CoreSpec.BurnNft, CoreSpec.Send, CoreSpec.AcceptNft;
    hide CoreSpec.RejectNft, ResourceAdd;
    match call
    case MintNft(owner, c, transferable, resources) =>
      var a := if owner.Some? then owner.value else signer;
      MintNftEffect(s, signer, owner, c, transferable, resources, t);
      MintChange(s, t, signer, c, a, NftInfo(AccountId(a), false, a != signer, transferable));
      ch := Mints(Minted(s, c), a);
    case MintNftDirectlyToNft(parent, c, transferable, resources) =>
      MintDirectlyEffect(s, signer, parent, c, transferable, resources, t);
      var pending := RootOf(s.owners, parent).value.0 != signer;
      MintChange(s, t, signer, c, Virtual(parent),
                 NftInfo(CollectionAndNftTuple(parent), false, pending, transferable));
      ch := Mints(Minted(s, c), Virtual(parent));
    case BurnNft(n, maxBurns) =>
      BurnChange(s, t, signer, n, maxBurns);
      ch := Drops(n);
    case Send(n, newOwner) =>
      SendEffect(s, signer, n, newOwner, t);
      ch := Moves(n, OwnerAccount(newOwner));
      MoveChange(s, t, signer, n, ch.a);
    case AcceptNft(n, newOwner) =>
      AcceptEffect(s, signer, n, newOwner, t);
      ch := Moves(n, OwnerAccount(newOwner));
      MoveChange(s, t, signer, n, ch.a);
    case RejectNft(n) =>
      LiveAreItems(s);
      RejectEffect(s, signer, n, cfg.maxRecursions, t);
      ch := Same;
    case _ =>
      QuietEffect(cfg, s, signer, call, t);
      ch := Same;
  }

  lemma CoreStepKeepsInv(cfg: Config, s: Core, signer: Account, call: Call, t: Core)
    requires IsCoreCall(call) && RealCall(signer, call)
    requires CoreInv(s) && CoreExecutes(cfg, s, signer, call, t)
    ensures CoreInv(t)
  {
    hide IdsInv, CollectionsInv, CountersInv, Rooted;
    hide CoreSpec.CreateCollection, CoreSpec.DestroyCollection, CoreSpec.ChangeCollectionIssuer,
         CoreSpec.LockCollection;
    hide CoreSpec.MintNft, CoreSpec.MintNftDirectlyToNft, CoreSpec.BurnNft, CoreSpec.Send, CoreSpec.AcceptNft;
    hide CoreSpec.RejectNft;
    match call
    case CreateCollection(max) => CreateKeepsInv(s, signer, max, t);
    case DestroyCollection(c) => DestroyKeepsInv(s, signer, c, t);
    case ChangeCollectionIssuer(c, newIssuer, accepted) => ChangeIssuerKeepsInv(s, signer, c, newIssuer, accepted, t);
    case LockCollection(c) => LockCollectionKeepsInv(s, signer, c, t);
    case AddResource(n, resource) => LocalChangeKeepsInv(s, t);
    case TouchResources(rows) => LocalChangeKeepsInv(s, t);
    case MintNft(owner, c, transferable, resources) =>
      var a := if owner.Some? then owner.value else signer;
      MintNftEffect(s, signer, owner, c, transferable, resources, t);
      MintKeepsInv(s, t, c, a, NftInfo(AccountId(a), false, a != signer, transferable));
    case MintNftDirectlyToNft(parent, c, transferable, resources) =>
      MintDirectlyEffect(s, signer, parent, c, transferable, resources, t);
      var pending := RootOf(s.owners, parent).value.0 != signer;
      MintKeepsInv(s, t, c, Virtual(parent), NftInfo(CollectionAndNftTuple(parent), false, pending, transferable));
    case BurnNft(n, maxBurns) => BurnNftKeepsInv(s, signer, n, maxBurns, t);
    case Send(n, newOwner) =>
      SendEffect(s, signer, n, newOwner, t);
      MoveKeepsInv(s, t, n, OwnerAccount(newOwner));
    case AcceptNft(n, newOwner) =>
      AcceptEffect(s, signer, n, newOwner, t);
      MoveKeepsInv(s, t, n, OwnerAccount(newOwner));
    case RejectNft(n) => RejectKeepsInv(s, signer, n, cfg.maxRecursions, t);
  }

  // ---------- purchases and other market calls ----------

  /** The account that gives `n` up in a purchase, and the state the `send` inside starts from. */
  lemma PurchaseChange(cfg: Config, x: Exchange, now: nat, signer: Account, call: Call, y: Exchange)
    returns (owner: Account, buyer: Account)
    requires call.Buy? || call.AcceptOffer?
    requires CoreInv(x.core) && signer.User? && MarketExecutes(cfg, x, now, signer, call, y)
    requires call.AcceptOffer? ==> OfferBacked(x, (call.n, call.offerer))
    ensures Sold(x, y, call.n, owner, buyer)
    ensures call.Buy? ==>
              buyer == signer && call.n in x.market.listedNfts && x.market.listedNfts[call.n].listedBy == owner
    ensures call.AcceptOffer? ==> owner == signer && buyer == call.offerer && (call.n, buyer) in x.market.offers
    ensures CoreInv(y.core)
  {
    hide IdsInv, CollectionsInv, CountersInv, Rooted;
    if call.Buy? {
      BuyIsExchange(cfg, x, now, signer, call.n, call.amount, y);
      buyer := signer;
    } else {
      AcceptOfferIsExchange(cfg, x, now, signer, call.n, call.offerer, y);
      buyer := call.offerer;
    }
    owner := x.core.owners[call.n];
    SoldKeepsInv(x.core, y.core, call.n, buyer);
  }

  /** `n` went from its owner, a real account, to `buyer`, another one, and is unlocked. */
  ghost predicate Sold(x: Exchange, y: Exchange, n: Item, owner: Account, buyer: Account) {
    && n in x.core.owners && x.core.owners[n] == owner && owner.User? && buyer.User? && owner != buyer
    && n in x.core.nfts && n in y.core.nfts && n !in y.core.lock
    && x.core.nfts[n].transferable && !x.core.nfts[n].equipped
    && y.core == x.core.(owners := x.core.owners[n := buyer], lock := x.core.lock - {n},
                         nfts := x.core.nfts[n := y.core.nfts[n]])
    && y.core.nfts[n].equipped == x.core.nfts[n].equipped
    && y.market.listedNfts - {n} == x.market.listedNfts - {n}
  }

  /** A purchase of either kind makes the buyer the root owner of the NFT and all below it, and of nothing else. */
  lemma PurchaseMovesRoots(cfg: Config, x: Exchange, deposits: Amounts, now: nat, signer: Account, call: Call,
                           y: Exchange, m: Item)
    requires call.Buy? || call.AcceptOffer?
    requires CoreInv(x.core) && OffersInv(x.market, deposits) && signer.User?
    requires MarketExecutes(cfg, x, now, signer, call, y)
    ensures AtOrBelow(LinksOf(x.core.owners), m, call.n) ==>
              RootOf(y.core.owners, m) == Ok((if call.Buy? then signer else call.offerer, call.n))
    ensures !AtOrBelow(LinksOf(x.core.owners), m, call.n) ==> RootOf(y.core.owners, m) == RootOf(x.core.owners, m)
  {
    hide CoreInv, MarketExecutes, OffersInv;
    if call.AcceptOffer? {
      OffersAreBacked(x, deposits, (call.n, call.offerer));
    }
    var owner, buyer := PurchaseChange(cfg, x, now, signer, call, y);
    InvIsRooted(x.core);
    RootsAfterMove(x.core.owners, call.n, buyer, m);
  }

  // ---------- locks ----------

  /** No call to rmrk-core moves a locked item or makes one appear; only a burn by its root owner removes one. */
  lemma LockedStaysPut(cfg: Config, s: Core, signer: Account, call: Call, t: Core, n: Item)
    requires IsCoreCall(call) && RealCall(signer, call)
    requires CoreInv(s) && CoreExecutes(cfg, s, signer, call, t)
    requires n in s.lock
    ensures n in t.lock
    ensures n in t.owners ==> n in s.owners && t.owners[n] == s.owners[n]
    ensures n in s.owners && n !in t.owners ==>
              call.BurnNft? && call.n == n && RootOf(s.owners, n).Ok? && RootOf(s.owners, n).value.0 == signer
  {
    hide CoreInv, CoreExecutes, Rooted, RootOf, Descends;
    var ch := CoreChange(cfg, s, signer, call, t);
  }

  lemma CoreStepKeepsLocks(cfg: Config, x: Exchange, signer: Account, call: Call, t: Core)
    requires IsCoreCall(call) && RealCall(signer, call)
    requires CoreInv(x.core) && LockInv(x) && CoreExecutes(cfg, x.core, signer, call, t)
    ensures LockInv(Exchange(t, x.market))
  {
    hide CoreInv, CoreExecutes, Rooted, RootOf, Descends;
    var y := Exchange(t, x.market);
    var ch := CoreChange(cfg, x.core, signer, call, t);
    forall n | n in y.core.lock
      ensures LockedIsListed(y, n)
    {
      assert LockedIsListed(x, n);
    }
  }

  lemma MarketStepKeepsInv(cfg: Config, x: Exchange, deposits: Amounts, now: nat, signer: Account, call: Call,
                           y: Exchange)
    requires IsMarketCall(call) && signer.User?
    requires CoreInv(x.core) && LockInv(x) && OffersInv(x.market, deposits)
    requires MarketExecutes(cfg, x, now, signer, call, y)
    ensures CoreInv(y.core) && LockInv(y)
  {
    hide CoreInv, MarketExecutes, LockInv;
    if call.Buy? || call.AcceptOffer? {
      if call.AcceptOffer? {
        OffersAreBacked(x, deposits, (call.n, call.offerer));
      }
      hide OffersInv;
      var owner, buyer := PurchaseChange(cfg, x, now, signer, call, y);
      SaleKeepsLocks(x, y, call.n, owner, buyer);
    } else {
      hide OffersInv;
      QuietMarketStep(cfg, x, now, signer, call, y);
    }
  }

  /** The market calls that move no item change nothing in rmrk-core but locks. */
  lemma QuietMarketEffect(cfg: Config, x: Exchange, now: nat, signer: Account, call: Call, y: Exchange)
    requires IsMarketCall(call) && !call.Buy? && !call.AcceptOffer?
    requires MarketExecutes(cfg, x, now, signer, call, y)
    ensures y.core == x.core.(lock := y.core.lock)
  {
  }

  /** They lock what they list and unlock what they unlist. */
  lemma QuietMarketStep(cfg: Config, x: Exchange, now: nat, signer: Account, call: Call, y: Exchange)
    requires IsMarketCall(call) && !call.Buy? && !call.AcceptOffer? && signer.User?
    requires CoreInv(x.core) && LockInv(x)
    requires MarketExecutes(cfg, x, now, signer, call, y)
    ensures CoreInv(y.core) && LockInv(y)
  {
    hide IdsInv, CollectionsInv, CountersInv, Rooted;
    LocalChangeKeepsInv(x.core, y.core);
    forall n | n in y.core.lock
      ensures LockedIsListed(y, n)
    {
      assert n in x.core.lock ==> LockedIsListed(x, n);
    }
  }

  lemma SaleKeepsLocks(x: Exchange, y: Exchange, n: Item, owner: Account, buyer: Account)
    requires LockInv(x) && Sold(x, y, n, owner, buyer)
    ensures LockInv(y)
  {
    forall m | m in y.core.lock
      ensures LockedIsListed(y, m)
    {
      assert LockedIsListed(x, m);
      assert m in y.market.listedNfts - {n} <==> m in x.market.listedNfts - {n};
    }
  }

  lemma MarketStepKeepsOffers(cfg: Config, x: Exchange, deposits: Amounts, now: nat, signer: Account, call: Call,
                              y: Exchange)
    requires IsMarketCall(call) && signer.User?
    requires Rooted(x.core.owners) && OffersInv(x.market, deposits)
    requires MarketExecutes(cfg, x, now, signer, call, y)
    ensures OffersInv(y.market, deposits)
    ensures Total(y.market.money) == Total(x.market.money)
  {
    hide Rooted;
    match call
    case List(n, price, expires) => SameOffers(x.market, y.market, deposits);
    case Unlist(n) => SameOffers(x.market, y.market, deposits);
    case MakeOffer(n, price, expires) =>
      MakeKeepsOffers(cfg, x, deposits, signer, n, price, expires, y);
      MoneyConserved(x.market.money, signer, signer, price, 0);
    case WithdrawOffer(n) =>
      OffersAreBacked(x, deposits, (n, signer));
      hide OffersInv;
      var offer := x.market.offers[(n, signer)];
      OfferGone(x.market, y.market, deposits, (n, signer));
      MoneyConserved(x.market.money, offer.maker, signer, offer.amount, 0);
    case AcceptOffer(n, offerer) =>
      OffersAreBacked(x, deposits, (n, offerer));
      hide OffersInv;
      AcceptOfferIsExchange(cfg, x, now, signer, n, offerer, y);
      AcceptOfferConserves(cfg, x, now, signer, n, offerer, y);
      OfferGone(x.market, y.market, deposits, (n, offerer));
    case Buy(n, amount) =>
      var owner, price := DoBuyEffect(cfg, x, now, signer, n, amount, false, y);
      SameOffers(x.market, y.market, deposits);
  }

  lemma AcceptOfferConserves(cfg: Config, x: Exchange, now: nat, sender: Account, n: Item, offerer: Account,
                             y: Exchange)
    requires Rooted(x.core.owners) && OfferBacked(x, (n, offerer))
    requires MarketSpec.AcceptOffer(cfg, x, now, sender, n, offerer) == Ok(y)
    ensures Total(y.market.money) == Total(x.market.money)
  {
    hide Rooted;
    var offer := x.market.offers[(n, offerer)];
    var paid := x.(market := x.market.(money := Unreserve(x.market.money, offer.maker, offer.amount)));
    MoneyConserved(x.market.money, offer.maker, sender, offer.amount, 0);
    var done := DoBuy(cfg, paid, now, offer.maker, n, None, true).value;
    var owner, price := DoBuyEffect(cfg, paid, now, offer.maker, n, None, true, done);
  }
}
