/** What a purchase does, and what every market call keeps. */
module MarketTheory {
  import opened Prelude
  import opened AccountCodec
  import opened Forest
  import opened Ownership
  import opened CoreSpec
  import opened CoreInvariant
  import opened Balances
  import opened MarketSpec

  // ---------- purchases ----------

  /** Money moved from `payer` to `payee`: their balances, and nobody else's. */
  ghost predicate Paid(m: Money, m': Money, payer: Account, payee: Account, price: nat) {
    && m'.reserved == m.reserved
    && price <= Balance(m.free, payer)
    && Balance(m'.free, payer) == Balance(m.free, payer) - price
    && Balance(m'.free, payee) == Balance(m.free, payee) + price
    && (forall a :: a != payer && a != payee ==> Balance(m'.free, a) == Balance(m.free, a))
  }

  lemma TransferPays(m: Money, from: Account, to: Account, amount: nat, ed: nat)
    requires from != to && Transfer(m, from, to, amount, ed).Ok?
    requires amount > 0 ==> amount <= Balance(m.free, from)
    ensures Paid(m, Transfer(m, from, to, amount, ed).value, from, to, amount)
  {
  }

  /** The common part of `buy` and `accept_offer`. */
  lemma DoBuyEffect(cfg: Config, x: Exchange, now: nat, buyer: Account, n: Item, amount: Option<nat>, isOffer: bool,
                    y: Exchange) returns (owner: Account, price: nat)
    requires Rooted(x.core.owners) && buyer.User?
    requires DoBuy(cfg, x, now, buyer, n, amount, isOffer) == Ok(y)
    ensures n in x.core.owners && owner == x.core.owners[n] && owner.User? && owner != buyer
    ensures MoveEffect(SetLock(x.core, n, false), y.core, n, buyer)
    ensures n in y.core.nfts && y.core.nfts[n] == x.core.nfts[n].(owner := AccountId(buyer))
    ensures y.core.children == x.core.children
    ensures x.core.nfts[n].transferable && !x.core.nfts[n].equipped
    ensures TakePrice(x, now, buyer, n, owner, isOffer) == Ok((price, y.market.listedNfts))
    ensures amount.Some? ==> amount.value == price
    ensures Paid(x.market.money, y.market.money, buyer, owner, price)
    ensures y.market.offers == x.market.offers
    ensures Total(y.market.money) == Total(x.market.money)
  {
    owner := x.core.owners[n];
    price := TakePrice(x, now, buyer, n, owner, isOffer).value.0;
    var unlocked := SetLock(x.core, n, false);
    SendEffect(unlocked, owner, n, AccountId(buyer), y.core);
    hide Rooted, Descends;
    assert owner.User?;
    TransferPays(x.market.money, buyer, owner, price, cfg.existentialDeposit);
    MoneyConserved(x.market.money, buyer, owner, price, cfg.existentialDeposit);
  }

  /**
   A successful `buy` is an atomic exchange: the buyer gets the NFT, unlocked; the former owner, who
   listed it, gets the listed price, which is `amount` if one was named; the listing is used up;
   offers, reserves, all other balances and the rest of rmrk-core are as before.
   */
  lemma BuyIsExchange(cfg: Config, x: Exchange, now: nat, buyer: Account, n: Item, amount: Option<nat>, y: Exchange)
    requires Rooted(x.core.owners) && buyer.User?
    requires Buy(cfg, x, now, buyer, n, amount) == Ok(y)
    ensures n in x.core.owners && n in x.market.listedNfts && n in x.core.nfts && n in y.core.nfts
    ensures var owner := x.core.owners[n]; var info := x.market.listedNfts[n];
            && owner.User? && owner != buyer
            && info.listedBy == owner && (info.expires.Some? ==> now < info.expires.value)
            && (amount.Some? ==> info.amount == amount.value)
            && x.core.nfts[n].transferable && !x.core.nfts[n].equipped
            && Paid(x.market.money, y.market.money, buyer, owner, info.amount)
            && y.core == x.core.(owners := x.core.owners[n := buyer], lock := x.core.lock - {n},
                                 nfts := x.core.nfts[n := x.core.nfts[n].(owner := AccountId(buyer))])
            && y.market == x.market.(listedNfts := x.market.listedNfts - {n}, money := y.market.money)
  {
    var owner, price := DoBuyEffect(cfg, x, now, buyer, n, amount, false, y);
  }

  ghost predicate OfferBacked(x: Exchange, k: (Item, Account)) {
    k in x.market.offers ==>
      && x.market.offers[k].maker == k.1 && k.1.User?
      && x.market.offers[k].amount <= Balance(x.market.money.reserved, k.1)
  }

  /**
   A successful `accept_offer`, on a backed offer, is the same exchange paid out of the maker's reserve:
   the reserve shrinks by the offered amount and the former owner's free balance grows by it.
   */
  lemma AcceptOfferIsExchange(cfg: Config, x: Exchange, now: nat, sender: Account, n: Item, offerer: Account,
                              y: Exchange)
    requires Rooted(x.core.owners) && OfferBacked(x, (n, offerer))
    requires AcceptOffer(cfg, x, now, sender, n, offerer) == Ok(y)
    ensures n in x.core.owners && (n, offerer) in x.market.offers && n in x.core.nfts && n in y.core.nfts
    ensures var offer := x.market.offers[(n, offerer)];
            && x.core.owners[n] == sender && sender.User? && sender != offerer && offer.maker == offerer
            && (offer.expires.Some? ==> now < offer.expires.value)
            && x.core.nfts[n].transferable && !x.core.nfts[n].equipped
            && Balance(y.market.money.reserved, offerer) == Balance(x.market.money.reserved, offerer) - offer.amount
            && Balance(y.market.money.free, offerer) == Balance(x.market.money.free, offerer)
            && Balance(y.market.money.free, sender) == Balance(x.market.money.free, sender) + offer.amount
            && (forall a :: a != offerer ==> Balance(y.market.money.reserved, a) == Balance(x.market.money.reserved, a))
            && (forall a :: a != offerer && a != sender ==>
                  Balance(y.market.money.free, a) == Balance(x.market.money.free, a))
            && y.core == x.core.(owners := x.core.owners[n := offerer], lock := x.core.lock - {n},
                                 nfts := x.core.nfts[n := x.core.nfts[n].(owner := AccountId(offerer))])
            && y.market == x.market.(offers := x.market.offers - {(n, offerer)}, money := y.market.money)
  {
    var offer := x.market.offers[(n, offerer)];
    var paid := x.(market := x.market.(money := Unreserve(x.market.money, offer.maker, offer.amount)));
    var done := DoBuy(cfg, paid, now, offer.maker, n, None, true).value;
    var owner, price := DoBuyEffect(cfg, paid, now, offer.maker, n, None, true, done);
  }

  /**
   A successful `send`, and with it a purchase, hands the whole subtree to the new owner's root and touches no
   other.
   */
  lemma SendMovesRoots(s: Core, sender: Account, n: Item, newOwner: Owner, t: Core, y: Item)
    requires Rooted(s.owners) && RealOwner(newOwner)
    requires Send(s, sender, n, newOwner) == Ok(t)
    ensures Rooted(t.owners)
    ensures AtOrBelow(LinksOf(s.owners), y, n) && newOwner.AccountId? ==>
              RootOf(t.owners, y) == Ok((newOwner.account, n))
    ensures AtOrBelow(LinksOf(s.owners), y, n) && newOwner.CollectionAndNftTuple? ==>
              RootOf(t.owners, y).Ok? && RootOf(t.owners, y) == RootOf(s.owners, newOwner.item)
    ensures !AtOrBelow(LinksOf(s.owners), y, n) ==> RootOf(t.owners, y) == RootOf(s.owners, y)
  {
    SendEffect(s, sender, n, newOwner, t);
    RootsAfterMove(s.owners, n, OwnerAccount(newOwner), y);
  }

  lemma SoldKeepsInv(s: Core, t: Core, n: Item, buyer: Account)
    requires CoreInv(s) && buyer.User? && n in s.nfts && n in s.owners && n in t.nfts
    requires t == s.(owners := s.owners[n := buyer], lock := s.lock - {n}, nfts := s.nfts[n := t.nfts[n]])
    ensures CoreInv(t)
  {
    hide IdsInv, CountersInv, Rooted;
    RootedAfterMove(s.owners, n, buyer);
    SoldKeepsIds(s, t, n, buyer);
    CountersFrame(s, t);
  }

  lemma SoldKeepsIds(s: Core, t: Core, n: Item, buyer: Account)
    requires IdsInv(s) && buyer.User? && n in s.nfts && n in s.owners && n in t.nfts
    requires t == s.(owners := s.owners[n := buyer], lock := s.lock - {n}, nfts := s.nfts[n := t.nfts[n]])
    ensures IdsInv(t)
  {
  }

  // ---------- locks ----------

  ghost predicate LockedIsListed(x: Exchange, n: Item) {
    n in x.core.lock && n in x.core.owners ==>
      && n in x.market.listedNfts
      && x.market.listedNfts[n].listedBy == x.core.owners[n]
      && x.core.owners[n].User?
  }

  /** A locked item is listed, by its current owner, who is a real account. */
  ghost predicate LockInv(x: Exchange) {
    forall n :: n in x.core.lock ==> LockedIsListed(x, n)
  }

  // ---------- offers ----------

  ghost function OffersOf(offers: map<(Item, Account), Offer>, a: Account): nat {
    Sum(map k | k in offers && k.1 == a :: offers[k].amount)
  }

  lemma OffersWithout(offers: map<(Item, Account), Offer>, k: (Item, Account), a: Account)
    requires k in offers
    ensures OffersOf(offers - {k}, a) == OffersOf(offers, a) - if a == k.1 then offers[k].amount else 0
  {
    var mine := map j | j in offers && j.1 == a :: offers[j].amount;
    var left := map j | j in offers - {k} && j.1 == a :: (offers - {k})[j].amount;
    if a == k.1 {
      SumWithout(mine, k);
      assert left == mine - {k};
    } else {
      assert left == mine;
    }
  }

  lemma OffersWith(offers: map<(Item, Account), Offer>, k: (Item, Account), o: Offer, a: Account)
    requires k !in offers
    ensures OffersOf(offers[k := o], a) == OffersOf(offers, a) + if a == k.1 then o.amount else 0
  {
    OffersWithout(offers[k := o], k, a);
    assert offers[k := o] - {k} == offers;
  }

  ghost predicate ReserveBacks(m: Market, deposits: Amounts, a: Account) {
    Balance(m.money.reserved, a) == Balance(deposits, a) + OffersOf(m.offers, a)
  }

  /** Every reserve is what other pallets hold plus the open offers; offers are filed under their maker. */
  ghost predicate OffersInv(m: Market, deposits: Amounts) {
    && (forall a :: ReserveBacks(m, deposits, a))
    && (forall k :: k in m.offers ==> m.offers[k].maker == k.1 && k.1.User?)
  }

  lemma OffersAreBacked(x: Exchange, deposits: Amounts, k: (Item, Account))
    requires OffersInv(x.market, deposits)
    ensures OfferBacked(x, k)
  {
    if k in x.market.offers {
      assert ReserveBacks(x.market, deposits, k.1);
      OffersWithout(x.market.offers, k, k.1);
    }
  }

  /** On a backed offer, unreserving returns the full amount. */
  lemma UnreserveInFull(m: Money, who: Account, amount: nat)
    requires amount <= Balance(m.reserved, who)
    ensures Balance(Unreserve(m, who, amount).reserved, who) == Balance(m.reserved, who) - amount
    ensures Balance(Unreserve(m, who, amount).free, who) == Balance(m.free, who) + amount
  {
  }

  lemma WithdrawReturnsAll(x: Exchange, deposits: Amounts, sender: Account, n: Item, y: Exchange)
    requires OffersInv(x.market, deposits)
    requires WithdrawOffer(x, sender, n) == Ok(y)
    ensures (n, sender) in x.market.offers && (n, sender) !in y.market.offers
    ensures var amount := x.market.offers[(n, sender)].amount;
            && Balance(y.market.money.free, sender) == Balance(x.market.money.free, sender) + amount
            && Balance(y.market.money.reserved, sender) == Balance(x.market.money.reserved, sender) - amount
  {
    OffersAreBacked(x, deposits, (n, sender));
    hide OffersInv;
    UnreserveInFull(x.market.money, sender, x.market.offers[(n, sender)].amount);
  }

  /** A filed offer can be withdrawn as long as its NFT is an item, and not a moment longer. */
  lemma WithdrawSucceedsIff(x: Exchange, deposits: Amounts, sender: Account, n: Item)
    requires OffersInv(x.market, deposits)
    ensures WithdrawOffer(x, sender, n).Ok? <==> (n, sender) in x.market.offers && n in x.core.owners
    ensures (n, sender) in x.market.offers && n !in x.core.owners ==>
              WithdrawOffer(x, sender, n) == Err(TokenDoesNotExist)
  {
  }

  lemma MakeKeepsOffers(cfg: Config, x: Exchange, deposits: Amounts, sender: Account, n: Item, amount: nat,
                        expires: Option<nat>, y: Exchange)
    requires OffersInv(x.market, deposits) && sender.User?
    requires MakeOffer(cfg, x, sender, n, amount, expires) == Ok(y)
    ensures OffersInv(y.market, deposits)
  {
    forall a
      ensures ReserveBacks(y.market, deposits, a)
    {
      assert ReserveBacks(x.market, deposits, a);
      OffersWith(x.market.offers, (n, sender), Offer(sender, amount, expires), a);
    }
  }

  /** An offer leaves the table and its amount leaves the maker's reserve. */
  lemma OfferGone(m: Market, m': Market, deposits: Amounts, k: (Item, Account))
    requires OffersInv(m, deposits) && k in m.offers
    requires m'.offers == m.offers - {k}
    requires Balance(m'.money.reserved, k.1) == Balance(m.money.reserved, k.1) - m.offers[k].amount
    requires forall a :: a != k.1 ==> Balance(m'.money.reserved, a) == Balance(m.money.reserved, a)
    ensures OffersInv(m', deposits)
  {
    forall a
      ensures ReserveBacks(m', deposits, a)
    {
      assert ReserveBacks(m, deposits, a);
      OffersWithout(m.offers, k, a);
    }
  }

  lemma SameOffers(m: Market, m': Market, deposits: Amounts)
    requires OffersInv(m, deposits)
    requires m'.offers == m.offers && m'.money.reserved == m.money.reserved
    ensures OffersInv(m', deposits)
  {
    forall a
      ensures ReserveBacks(m', deposits, a)
    {
      assert ReserveBacks(m, deposits, a);
    }
  }
}
