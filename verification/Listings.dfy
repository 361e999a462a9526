/** Listings and offers that outlive what they were made for. */
module Listings {
  import opened Prelude
  import opened AccountCodec
  import opened Ownership
  import opened CoreSpec
  import opened CoreInvariant
  import opened Balances
  import opened MarketSpec
  import opened MarketTheory
  import opened EquipSpec
  import opened EquipTheory
  import opened Chain
  import opened ChainInvariant
  import opened Safety

  // ---------- listed and unlocked ----------

  /** A listing of `n` is in the table, and `n` is not locked. */
  ghost predicate Stale(x: Exchange, n: Item) {
    n in x.market.listedNfts && n !in x.core.lock
  }

  /** The calls that use a listing up, take it back or make a new one. */
  predicate Relists(call: Call, n: Item) {
    (call.List? || call.Unlist? || call.Buy?) && call.n == n
  }

  /**
   Whatever the state, a listing is stale after a call iff the call accepted an offer on the listed NFT, or
   the listing was stale before and the call was not about it.
   */
  lemma StaleIff(cfg: Config, s: State, signer: Account, call: Call, t: State, n: Item)
    requires ChainInv(s) && RealCall(signer, call) && Executes(cfg, s, signer, call, t)
    ensures Stale(Exchange(t.core, t.market), n) <==>
            || (call.AcceptOffer? && call.n == n && n in s.market.listedNfts)
            || (Stale(Exchange(s.core, s.market), n) && !Relists(call, n))
  {
    hide CoreInv, LockInv, OffersInv, EquipInv, CoreExecutes, MarketExecutes, DoEquip, Rooted, RootOf;
    if IsCoreCall(call) {
      var ch := CoreChange(cfg, s.core, signer, call, t.core);
    } else if IsMarketCall(call) {
      InvIsRooted(s.core);
      MarketListings(cfg, Exchange(s.core, s.market), s.deposits, s.now, signer, call, Exchange(t.core, t.market), n);
    } else if call.EquipItem? {
      var r := DoEquip(s.core, s.equip, signer, call.n, call.key, call.resourceId).value;
      DoEquipEffect(s.core, s.equip, signer, call.n, call.key, call.resourceId, r.0, r.1, r.2);
    }
  }

  lemma MarketListings(cfg: Config, x: Exchange, deposits: Amounts, now: nat, signer: Account, call: Call, y: Exchange,
                       n: Item)
    requires Rooted(x.core.owners) && OffersInv(x.market, deposits)
    requires IsMarketCall(call) && signer.User? && MarketExecutes(cfg, x, now, signer, call, y)
    ensures Stale(y, n) <==>
            || (call.AcceptOffer? && call.n == n && n in x.market.listedNfts)
            || (Stale(x, n) && !Relists(call, n))
  {
    hide Rooted, OffersInv, MarketExecutes;
    if call.Buy? || call.AcceptOffer? {
      Unfold(cfg, x, now, signer, call, y);
      if call.Buy? {
        BuyIsExchange(cfg, x, now, signer, call.n, call.amount, y);
      } else {
        OffersAreBacked(x, deposits, (call.n, call.offerer));
        AcceptOfferIsExchange(cfg, x, now, signer, call.n, call.offerer, y);
      }
    } else {
      QuietListings(cfg, x, now, signer, call, y, n);
    }
  }

  lemma Unfold(cfg: Config, x: Exchange, now: nat, signer: Account, call: Call, y: Exchange)
    requires (call.Buy? || call.AcceptOffer?) && MarketExecutes(cfg, x, now, signer, call, y)
    ensures call.Buy? ==> MarketSpec.Buy(cfg, x, now, signer, call.n, call.amount) == Ok(y)
    ensures call.AcceptOffer? ==> MarketSpec.AcceptOffer(cfg, x, now, signer, call.n, call.offerer) == Ok(y)
  {
  }

  lemma QuietListings(cfg: Config, x: Exchange, now: nat, signer: Account, call: Call, y: Exchange, n: Item)
    requires IsMarketCall(call) && !call.Buy? && !call.AcceptOffer?
    requires MarketExecutes(cfg, x, now, signer, call, y)
    ensures Stale(y, n) <==> Stale(x, n) && !Relists(call, n)
  {
  }

  // ---------- offers on what is gone ----------

  /** The item was handed out and burnt. */
  predicate Burnt(s: Core, n: Item) {
    Allocated(s, n) && n !in s.owners
  }

  ghost predicate SameOffer(m: Market, m': Market, k: (Item, Account)) {
    (k in m'.offers <==> k in m.offers) && (k in m.offers ==> m'.offers[k] == m.offers[k])
  }

  /** Burnt items never come back, and no call touches an offer on one. */
  lemma StepKeepsBurnt(cfg: Config, s: State, signer: Account, call: Call, t: State, n: Item, a: Account)
    requires ChainInv(s) && RealCall(signer, call) && Step(cfg, s, signer, call, t)
    requires Burnt(s.core, n)
    ensures Burnt(t.core, n) && SameOffer(s.market, t.market, (n, a))
  {
    hide CoreInv, LockInv, OffersInv, EquipInv, CoreExecutes, MarketExecutes, DoEquip, Rooted, RootOf;
    if t != s {
      if IsCoreCall(call) {
        CoreKeepsBurnt(cfg, s.core, signer, call, t.core, n);
      } else if IsMarketCall(call) {
        InvIsRooted(s.core);
        MarketKeepsBurnt(cfg, Exchange(s.core, s.market), s.deposits, s.now, signer, call, Exchange(t.core, t.market),
                         n, a);
      } else if call.EquipItem? {
        var r := DoEquip(s.core, s.equip, signer, call.n, call.key, call.resourceId).value;
        DoEquipEffect(s.core, s.equip, signer, call.n, call.key, call.resourceId, r.0, r.1, r.2);
      }
    }
  }

  lemma CoreKeepsBurnt(cfg: Config, s: Core, signer: Account, call: Call, t: Core, n: Item)
    requires IsCoreCall(call) && RealCall(signer, call) && CoreInv(s) && CoreExecutes(cfg, s, signer, call, t)
    requires Burnt(s, n)
    ensures Burnt(t, n)
  {
    hide CoreInv, CoreExecutes, Rooted, RootOf;
    var ch := CoreChange(cfg, s, signer, call, t);
    CoreStepFlags(cfg, s, signer, call, t);
  }

  lemma MarketKeepsBurnt(cfg: Config, x: Exchange, deposits: Amounts, now: nat, signer: Account, call: Call,
                         y: Exchange, n: Item, a: Account)
    requires Rooted(x.core.owners) && OffersInv(x.market, deposits)
    requires IsMarketCall(call) && signer.User? && MarketExecutes(cfg, x, now, signer, call, y)
    requires Burnt(x.core, n)
    ensures Burnt(y.core, n) && SameOffer(x.market, y.market, (n, a))
  {
    hide Rooted, OffersInv, MarketExecutes;
    if call.Buy? || call.AcceptOffer? {
      PurchasedOffers(cfg, x, deposits, now, signer, call, y);
    } else {
      QuietMarketEffect(cfg, x, now, signer, call, y);
      QuietOffers(cfg, x, now, signer, call, y, n, a);
    }
  }

  /** A purchase uses up at most the offer it accepts, and is of an item that exists. */
  lemma PurchasedOffers(cfg: Config, x: Exchange, deposits: Amounts, now: nat, signer: Account, call: Call, y: Exchange)
    requires Rooted(x.core.owners) && OffersInv(x.market, deposits)
    requires (call.Buy? || call.AcceptOffer?) && signer.User? && MarketExecutes(cfg, x, now, signer, call, y)
    ensures call.n in x.core.owners && y.core.owners.Keys == x.core.owners.Keys && y.core.nextNftId == x.core.nextNftId
    ensures y.market.offers == if call.Buy? then x.market.offers else x.market.offers - {(call.n, call.offerer)}
  {
    hide Rooted, OffersInv, MarketExecutes;
    Unfold(cfg, x, now, signer, call, y);
    if call.Buy? {
      BuyIsExchange(cfg, x, now, signer, call.n, call.amount, y);
    } else {
      OffersAreBacked(x, deposits, (call.n, call.offerer));
      AcceptOfferIsExchange(cfg, x, now, signer, call.n, call.offerer, y);
    }
  }

  lemma QuietOffers(cfg: Config, x: Exchange, now: nat, signer: Account, call: Call, y: Exchange, n: Item, a: Account)
    requires IsMarketCall(call) && !call.Buy? && !call.AcceptOffer?
    requires MarketExecutes(cfg, x, now, signer, call, y) && n !in x.core.owners
    ensures SameOffer(x.market, y.market, (n, a))
  {
  }
}
