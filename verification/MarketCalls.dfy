/**
 When each call to rmrk-market goes through, who may make it and what it leaves: free of the order
 of its checks. What expires at block `e` is good while the block number is below `e`, and never again.
 */
module MarketCalls {
  import opened Prelude
  import opened AccountCodec
  import opened Ownership
  import opened CoreSpec
  import opened CoreInvariant
  import opened Balances
  import opened MarketSpec
  import opened MarketTheory

  // ---------- listings ----------

  /** Only the owner, a real account, lists a live transferable NFT: locked or not, listed before or not. */
  lemma ListIff(x: Exchange, sender: Account, n: Item, amount: nat, expires: Option<nat>)
    ensures List(x, sender, n, amount, expires).Ok? <==>
            && n in x.core.owners && x.core.owners[n] == sender && sender.User?
            && n in x.core.nfts && x.core.nfts[n].transferable
    ensures List(x, sender, n, amount, expires).Ok? ==>
              List(x, sender, n, amount, expires).value
              == Exchange(x.core.(lock := x.core.lock + {n}),
                          x.market.(listedNfts := x.market.listedNfts[n := ListInfo(sender, amount, expires)]))
    ensures n in x.core.owners && x.core.owners[n].Virtual? ==>
              List(x, sender, n, amount, expires) == Err(CannotListNftOwnedByNft)
    ensures n in x.core.owners && x.core.owners[n].User? && x.core.owners[n] != sender ==>
              List(x, sender, n, amount, expires) == Err(NoPermission)
  {
  }

  /** Only the owner takes a listing back, whoever made it; the lock goes with it. */
  lemma UnlistIff(x: Exchange, sender: Account, n: Item)
    ensures Unlist(x, sender, n).Ok? <==>
            n in x.market.listedNfts && n in x.core.owners && x.core.owners[n] == sender
    ensures Unlist(x, sender, n).Ok? ==>
              Unlist(x, sender, n).value
              == Exchange(x.core.(lock := x.core.lock - {n}),
                          x.market.(listedNfts := x.market.listedNfts - {n}))
    ensures n in x.market.listedNfts && n in x.core.owners && x.core.owners[n] != sender ==>
              Unlist(x, sender, n) == Err(NoPermission)
    ensures n !in x.market.listedNfts ==> Unlist(x, sender, n) == Err(CannotUnlistToken)
  {
  }

  // ---------- offers ----------

  /** An account offers once, for an item it does not own, no less than the minimum and no more than it has. */
  lemma MakeOfferIff(cfg: Config, x: Exchange, sender: Account, n: Item, amount: nat, expires: Option<nat>)
    ensures MakeOffer(cfg, x, sender, n, amount, expires).Ok? <==>
            && cfg.minimumOfferAmount <= amount <= Balance(x.market.money.free, sender)
            && n in x.core.owners && x.core.owners[n] != sender && (n, sender) !in x.market.offers
    ensures MakeOffer(cfg, x, sender, n, amount, expires).Ok? ==>
              var y := MakeOffer(cfg, x, sender, n, amount, expires).value; var m, m' := x.market.money, y.market.money;
              && y == x.(market := x.market.(money := m', offers := y.market.offers))
              && y.market.offers == x.market.offers[(n, sender) := Offer(sender, amount, expires)]
              && Balance(m'.free, sender) == Balance(m.free, sender) - amount
              && Balance(m'.reserved, sender) == Balance(m.reserved, sender) + amount
              && (forall a :: a != sender ==>
                    Balance(m'.free, a) == Balance(m.free, a) && Balance(m'.reserved, a) == Balance(m.reserved, a))
    ensures amount < cfg.minimumOfferAmount ==> MakeOffer(cfg, x, sender, n, amount, expires) == Err(OfferTooLow)
  {
  }

  // ---------- purchases ----------

  predicate Sellable(s: Core, n: Item) {
    n in s.nfts && s.nfts[n].transferable && !s.nfts[n].equipped
  }

  lemma SellableUnlocked(s: Core, n: Item)
    ensures Sellable(SetLock(s, n, false), n) == Sellable(s, n)
  {
  }

  /** The owner's send to a buyer, as a purchase makes it on the unlocked NFT. */
  lemma SendToBuyer(s: Core, owner: Account, n: Item, buyer: Account)
    requires CoreInv(s) && n in s.owners && s.owners[n] == owner && owner.User? && n !in s.lock
    ensures Send(s, owner, n, AccountId(buyer)).Ok? <==> Sellable(s, n)
  {
    assert n.collection in s.collectionOwners;
    hide IdsInv, CollectionsInv, CountersInv, Rooted;
    assert RootOf(s.owners, n) == Ok((owner, n));
  }

  ghost predicate SameMoney(m: Money, m': Money) {
    forall a :: Balance(m'.free, a) == Balance(m.free, a) && Balance(m'.reserved, a) == Balance(m.reserved, a)
  }

  /** `from` has the money, and afterwards both hold the existential deposit. */
  predicate CanPay(cfg: Config, m: Money, from: Account, to: Account, amount: nat) {
    amount == 0
    || (&& amount <= Balance(m.free, from)
        && Balance(m.free, from) - amount + Balance(m.reserved, from) >= cfg.existentialDeposit
        && Balance(m.free, to) + amount + Balance(m.reserved, to) >= cfg.existentialDeposit)
  }

  lemma CanPayDecides(cfg: Config, m: Money, m': Money, from: Account, to: Account, amount: nat)
    requires SameMoney(m, m') && from != to
    ensures Transfer(m', from, to, amount, cfg.existentialDeposit).Ok? <==> CanPay(cfg, m, from, to, amount)
  {
  }

  /** The owner's send to the buyer, inside a purchase. */
  lemma SaleGoesIff(s: Core, n: Item, buyer: Account)
    requires CoreInv(s) && n in s.owners
    ensures Send(SetLock(s, n, false), s.owners[n], n, AccountId(buyer)).Ok? <==> s.owners[n].User? && Sellable(s, n)
  {
    hide CoreInv, Send;
    var u := SetLock(s, n, false);
    LocalChangeKeepsInv(s, u);
    SellableUnlocked(s, n);
    if s.owners[n].User? {
      SendToBuyer(u, s.owners[n], n, buyer);
    } else {
      NoRootIsVirtual(u, n, buyer);
    }
  }

  lemma NoRootIsVirtual(s: Core, n: Item, buyer: Account)
    requires n in s.owners && s.owners[n].Virtual?
    ensures Send(s, s.owners[n], n, AccountId(buyer)).Err?
  {
  }

  /**
   Exactly when `buy` goes through: the owner, a real account, made the stored listing, the block number is below its
   expiry if it has one, the price is the one named if one is, and the buyer can pay; whoever else may own the lock.
   */
  lemma BuyIff(cfg: Config, x: Exchange, now: nat, buyer: Account, n: Item, amount: Option<nat>)
    requires CoreInv(x.core)
    ensures Buy(cfg, x, now, buyer, n, amount).Ok? <==>
            && n in x.core.owners && x.core.owners[n].User? && x.core.owners[n] != buyer && Sellable(x.core, n)
            && n in x.market.listedNfts && x.market.listedNfts[n].listedBy == x.core.owners[n]
            && (x.market.listedNfts[n].expires.Some? ==> now < x.market.listedNfts[n].expires.value)
            && (amount.Some? ==> amount.value == x.market.listedNfts[n].amount)
            && CanPay(cfg, x.market.money, buyer, x.core.owners[n], x.market.listedNfts[n].amount)
  {
    hide CoreInv, Send, Transfer, Sellable, CanPay;
    if n in x.core.owners {
      SaleGoesIff(x.core, n, buyer);
      if n in x.market.listedNfts && buyer != x.core.owners[n] {
        CanPayDecides(cfg, x.market.money, x.market.money, buyer, x.core.owners[n], x.market.listedNfts[n].amount);
      }
    }
  }

  /** The errors of `buy` at a stored listing of the current owner. */
  lemma BuyRefusals(cfg: Config, x: Exchange, now: nat, buyer: Account, n: Item, amount: Option<nat>)
    requires n in x.core.owners && x.core.owners[n] != buyer
    ensures n !in x.market.listedNfts || x.market.listedNfts[n].listedBy != x.core.owners[n] ==>
              Buy(cfg, x, now, buyer, n, amount) == Err(TokenNotForSale)
    ensures n in x.market.listedNfts && x.market.listedNfts[n].listedBy == x.core.owners[n] ==>
              var info := x.market.listedNfts[n];
              if info.expires.Some? && info.expires.value <= now then
                Buy(cfg, x, now, buyer, n, amount) == Err(ListingHasExpired)
              else if amount.Some? && amount.value != info.amount then
                Buy(cfg, x, now, buyer, n, amount) == Err(PriceDiffersFromExpected)
              else if info.amount > Balance(x.market.money.free, buyer) then
                Buy(cfg, x, now, buyer, n, amount) == Err(InsufficientBalance)
              else true
  {
  }

  /** What the offerer and the owner must hold for the owner to be paid out of the offerer's reserve. */
  predicate ReserveCanPay(cfg: Config, m: Money, offerer: Account, owner: Account, amount: nat) {
    amount == 0
    || (&& Balance(m.free, offerer) + Balance(m.reserved, offerer) - amount >= cfg.existentialDeposit
        && Balance(m.free, owner) + Balance(m.reserved, owner) + amount >= cfg.existentialDeposit)
  }

  /**
   Exactly when a stored offer that its maker's reserve covers, fresh or not, can be accepted: by the owner, a real
   account, while the block number is below its expiry, with the NFT sellable and both accounts staying alive.
   */
  lemma AcceptOfferIff(cfg: Config, x: Exchange, now: nat, sender: Account, n: Item, offerer: Account)
    requires CoreInv(x.core) && OfferBacked(x, (n, offerer))
    ensures AcceptOffer(cfg, x, now, sender, n, offerer).Ok? <==>
            && n in x.core.owners && x.core.owners[n] == sender && sender.User? && Sellable(x.core, n)
            && (n, offerer) in x.market.offers && offerer != sender
            && (x.market.offers[(n, offerer)].expires.Some? ==> now < x.market.offers[(n, offerer)].expires.value)
            && ReserveCanPay(cfg, x.market.money, offerer, sender, x.market.offers[(n, offerer)].amount)
  {
    hide CoreInv, Send, Transfer, Sellable, CanPay, ReserveCanPay, Unreserve;
    if n in x.core.owners && (n, offerer) in x.market.offers {
      var offer := x.market.offers[(n, offerer)];
      var paid := Unreserve(x.market.money, offerer, offer.amount);
      SaleGoesIff(x.core, n, offerer);
      if offerer != sender {
        CanPayDecides(cfg, paid, paid, offerer, sender, offer.amount);
        ReservePays(cfg, x.market.money, offerer, sender, offer.amount);
      }
    }
  }

  lemma ReservePays(cfg: Config, m: Money, offerer: Account, owner: Account, amount: nat)
    requires offerer != owner && amount <= Balance(m.reserved, offerer)
    ensures CanPay(cfg, Unreserve(m, offerer, amount), offerer, owner, amount)
            <==> ReserveCanPay(cfg, m, offerer, owner, amount)
  {
  }

  /** The errors of `accept_offer` by the owner. */
  lemma AcceptOfferRefusals(cfg: Config, x: Exchange, now: nat, sender: Account, n: Item, offerer: Account)
    requires n in x.core.owners
    ensures x.core.owners[n] != sender ==> AcceptOffer(cfg, x, now, sender, n, offerer) == Err(NoPermission)
    ensures x.core.owners[n] == sender && (n, offerer) !in x.market.offers ==>
              AcceptOffer(cfg, x, now, sender, n, offerer) == Err(UnknownOffer)
    ensures x.core.owners[n] == sender && (n, offerer) in x.market.offers
            && x.market.offers[(n, offerer)].expires.Some? && x.market.offers[(n, offerer)].expires.value <= now ==>
              AcceptOffer(cfg, x, now, sender, n, offerer) == Err(OfferHasExpired)
  {
  }
}
