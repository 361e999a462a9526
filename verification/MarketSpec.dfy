/** rmrk-market as functions on its own tables, the currency, and the storage of rmrk-core. */
module MarketSpec {
  import opened Prelude
  import opened AccountCodec
  import opened CoreSpec
  import opened Balances

  datatype ListInfo = ListInfo(listedBy: Account, amount: nat, expires: Option<nat>)

  datatype Offer = Offer(maker: Account, amount: nat, expires: Option<nat>)

  datatype Market = Market(listedNfts: map<Item, ListInfo>, offers: map<(Item, Account), Offer>, money: Money)

  /** Everything a market call may change. */
  datatype Exchange = Exchange(core: Core, market: Market)

  datatype Config = Config(minimumOfferAmount: nat, existentialDeposit: nat, maxRecursions: u32)

  /** `set_lock` */
  function SetLock(s: Core, n: Item, locked: bool): Core {
    s.(lock := if locked then s.lock + {n} else s.lock - {n})
  }

  function List(x: Exchange, sender: Account, n: Item, amount: nat, expires: Option<nat>): Result<Exchange, Error> {
    var owner :- OkOr(Get(x.core.owners, n), TokenDoesNotExist);
    var _ :- Ensure(!owner.Virtual?, CannotListNftOwnedByNft);
    var _ :- Ensure(sender == owner, NoPermission);
    var nft :- OkOr(Get(x.core.nfts, n), TokenDoesNotExist);
    var _ :- Ensure(nft.transferable, NonTransferable);
    Ok(Exchange(SetLock(x.core, n, true),
                x.market.(listedNfts := x.market.listedNfts[n := ListInfo(sender, amount, expires)])))
  }

  function Unlist(x: Exchange, sender: Account, n: Item): Result<Exchange, Error> {
    var _ :- Ensure(n in x.market.listedNfts, CannotUnlistToken);
    var owner :- OkOr(Get(x.core.owners, n), TokenDoesNotExist);
    var _ :- Ensure(sender == owner, NoPermission);
    Ok(Exchange(SetLock(x.core, n, false), x.market.(listedNfts := x.market.listedNfts - {n})))
  }

  function MakeOffer(cfg: Config, x: Exchange, sender: Account, n: Item, amount: nat, expires: Option<nat>)
    : Result<Exchange, Error>
  {
    var _ :- Ensure(amount >= cfg.minimumOfferAmount, OfferTooLow);
    var owner :- OkOr(Get(x.core.owners, n), TokenDoesNotExist);
    var _ :- Ensure(sender != owner, CannotOfferOnOwnToken);
    var _ :- Ensure((n, sender) !in x.market.offers, AlreadyOffered);
    var money :- Reserve(x.market.money, sender, amount);
    Ok(x.(market := x.market.(money := money,
                              offers := x.market.offers[(n, sender) := Offer(sender, amount, expires)])))
  }

  function WithdrawOffer(x: Exchange, sender: Account, n: Item): Result<Exchange, Error> {
    var offer :- OkOr(Get(x.market.offers, (n, sender)), UnknownOffer);
    var owner :- OkOr(Get(x.core.owners, n), TokenDoesNotExist);
    var _ :- Ensure(sender == owner || sender == offer.maker, CannotWithdrawOffer);
    Ok(x.(market := x.market.(money := Unreserve(x.market.money, offer.maker, offer.amount),
                              offers := x.market.offers - {(n, sender)})))
  }

  function NotExpired(expires: Option<nat>, now: nat): bool {
    expires.Some? ==> expires.value > now
  }

  /** The price of a purchase and the listings that remain: a listing is used up, an offer not yet. */
  function TakePrice(x: Exchange, now: nat, buyer: Account, n: Item, owner: Account, isOffer: bool)
    : Result<(nat, map<Item, ListInfo>), Error>
  {
    if isOffer then
      var offer :- OkOr(Get(x.market.offers, (n, buyer)), UnknownOffer);
      Ok((offer.amount, x.market.listedNfts))
    else
      var info :- OkOr(Get(x.market.listedNfts, n), TokenNotForSale);
      var _ :- Ensure(info.listedBy == owner, TokenNotForSale);
      var _ :- Ensure(NotExpired(info.expires, now), ListingHasExpired);
      Ok((info.amount, x.market.listedNfts - {n}))
  }

  ghost function DoBuy(cfg: Config, x: Exchange, now: nat, buyer: Account, n: Item, amount: Option<nat>, isOffer: bool)
    : Result<Exchange, Error>
  {
    var owner :- OkOr(Get(x.core.owners, n), TokenDoesNotExist);
    var _ :- Ensure(buyer != owner, CannotBuyOwnToken);
    var (price, listings) :- TakePrice(x, now, buyer, n, owner, isOffer);
    var _ :- Ensure(amount.Some? ==> price == amount.value, PriceDiffersFromExpected);
    var unlocked := SetLock(x.core, n, false);
    var money :- Transfer(x.market.money, buyer, owner, price, cfg.existentialDeposit);
    var core :- Send(unlocked, owner, n, AccountId(buyer));
    Ok(Exchange(core, x.market.(listedNfts := listings, money := money)))
  }

  ghost function Buy(cfg: Config, x: Exchange, now: nat, sender: Account, n: Item, amount: Option<nat>)
    : Result<Exchange, Error>
  {
    DoBuy(cfg, x, now, sender, n, amount, false)
  }

  /** The offer is taken out of the table only after the purchase inside has read it there. */
  ghost function AcceptOffer(cfg: Config, x: Exchange, now: nat, sender: Account, n: Item, offerer: Account)
    : Result<Exchange, Error>
  {
    var owner :- OkOr(Get(x.core.owners, n), TokenDoesNotExist);
    var _ :- Ensure(sender == owner, NoPermission);
    var offer :- OkOr(Get(x.market.offers, (n, offerer)), UnknownOffer);
    var _ :- Ensure(NotExpired(offer.expires, now), OfferHasExpired);
    var paid := x.(market := x.market.(money := Unreserve(x.market.money, offer.maker, offer.amount)));
    var done :- DoBuy(cfg, paid, now, offer.maker, n, None, true);
    Ok(done.(market := done.market.(offers := done.market.offers - {(n, offerer)})))
  }
}
