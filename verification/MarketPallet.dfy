/**
 rmrk-market as it runs, on top of the rmrk-core object it calls `send` and `set_lock` on.
 A failing call restores both pallets, also when the failure is inside the nested `send`.
 */
module MarketPallet {
  import opened Prelude
  import opened AccountCodec
  import opened Ownership
  import opened CoreSpec
  import opened CoreInvariant
  import opened Balances
  import Spec = MarketSpec
  import opened MarketSpec
  import CorePallet

  /** A whole call: the specified state of both pallets, or the specified error and no change in either. */
  ghost predicate Commits(spec: Result<Exchange, Error>, before: Exchange, r: Result<(), Error>, after: Exchange) {
    match spec
    case Ok(x) => r == Ok(()) && after == x
    case Err(e) => r == Err(e) && after == before
  }

  class Pallet {
    const core: CorePallet.Pallet
    const cfg: Config
    var listedNfts: map<Item, ListInfo>
    var offers: map<(Item, Account), Offer>
    var money: Money

    constructor (core: CorePallet.Pallet, cfg: Config, money: Money)
      requires core.Valid()
      ensures Valid()
      ensures this.core == core && this.cfg == cfg
      ensures State() == Exchange(core.State(), Market(map[], map[], money))
    {
      this.core, this.cfg := core, cfg;
      listedNfts, offers, this.money := map[], map[], money;
    }

    function State(): Exchange
      reads this, core
    {
      Exchange(core.State(), Market(listedNfts, offers, money))
    }

    /** The core is sound and offers were made by real accounts. */
    ghost predicate Valid()
      reads this, core
    {
      core.Valid() && forall k :: k in offers ==> offers[k].maker.User?
    }

    method Restore(x: Exchange)
      modifies this, core
      ensures State() == x
    {
      core.Restore(x.core);
      listedNfts := x.market.listedNfts;
      offers := x.market.offers;
      money := x.market.money;
    }

    method List(sender: Account, n: Item, amount: nat, expires: Option<nat>) returns (r: Result<(), Error>)
      requires Valid()
      modifies this`listedNfts, core`lock
      ensures Commits(Spec.List(old(State()), sender, n, amount, expires), old(State()), r, State())
      ensures Valid()
    {
      hide CoreInv;
      var owner :- OkOr(Get(core.owners, n), TokenDoesNotExist);
      var _ :- Ensure(!owner.Virtual?, CannotListNftOwnedByNft);
      var _ :- Ensure(sender == owner, NoPermission);
      var nft :- OkOr(Get(core.nfts, n), TokenDoesNotExist);
      var _ :- Ensure(nft.transferable, NonTransferable);
      ghost var before := core.State();
      core.SetLock(n, true);
      SetLockKeepsInv(before, core.State(), n, true);
      if n in listedNfts {
        listedNfts := listedNfts - {n};
      }
      listedNfts := listedNfts[n := ListInfo(sender, amount, expires)];
      return Ok(());
    }

    method Unlist(sender: Account, n: Item) returns (r: Result<(), Error>)
      requires Valid()
      modifies this`listedNfts, core`lock
      ensures Commits(Spec.Unlist(old(State()), sender, n), old(State()), r, State())
      ensures Valid()
    {
      hide CoreInv;
      var _ :- Ensure(n in listedNfts, CannotUnlistToken);
      var owner :- OkOr(Get(core.owners, n), TokenDoesNotExist);
      var _ :- Ensure(sender == owner, NoPermission);
      ghost var before := core.State();
      core.SetLock(n, false);
      SetLockKeepsInv(before, core.State(), n, false);
      listedNfts := listedNfts - {n};
      return Ok(());
    }

    method MakeOffer(sender: Account, n: Item, amount: nat, expires: Option<nat>) returns (r: Result<(), Error>)
      requires Valid() && sender.User?
      modifies this`offers, this`money
      ensures Commits(Spec.MakeOffer(cfg, old(State()), sender, n, amount, expires), old(State()), r, State())
      ensures Valid()
    {
      hide CoreInv;
      var _ :- Ensure(amount >= cfg.minimumOfferAmount, OfferTooLow);
      var owner :- OkOr(Get(core.owners, n), TokenDoesNotExist);
      var _ :- Ensure(sender != owner, CannotOfferOnOwnToken);
      var _ :- Ensure((n, sender) !in offers, AlreadyOffered);
      var reserved :- Reserve(money, sender, amount);
      money := reserved;
      offers := offers[(n, sender) := Offer(sender, amount, expires)];
      return Ok(());
    }

    method WithdrawOffer(sender: Account, n: Item) returns (r: Result<(), Error>)
      requires Valid()
      modifies this`offers, this`money
      ensures Commits(Spec.WithdrawOffer(old(State()), sender, n), old(State()), r, State())
      ensures Valid()
    {
      hide CoreInv;
      var offer :- OkOr(Get(offers, (n, sender)), UnknownOffer);
      var owner :- OkOr(Get(core.owners, n), TokenDoesNotExist);
      var _ :- Ensure(sender == owner || sender == offer.maker, CannotWithdrawOffer);
      money := Unreserve(money, offer.maker, offer.amount);
      offers := offers - {(n, sender)};
      return Ok(());
    }

    /** `do_buy`: price, unlock, pay, send on the owner's behalf. A failure is rolled back by the caller. */
    method DoBuy(now: nat, buyer: Account, n: Item, amount: Option<nat>, isOffer: bool) returns (r: Result<(), Error>)
      requires Valid() && buyer.User?
      modifies this`listedNfts, this`money, core
      ensures match Spec.DoBuy(cfg, old(State()), now, buyer, n, amount, isOffer)
              case Ok(x) => r == Ok(()) && State() == x
              case Err(e) => r == Err(e)
      ensures core.Valid()
    {
      hide IdsInv, CollectionsInv, CountersInv, Rooted;
      var owner :- OkOr(Get(core.owners, n), TokenDoesNotExist);
      var _ :- Ensure(buyer != owner, CannotBuyOwnToken);
      var listPrice: nat;
      if isOffer {
        var offer :- OkOr(Get(offers, (n, buyer)), UnknownOffer);
        listPrice := offer.amount;
      } else {
        var info :- OkOr(Get(listedNfts, n), TokenNotForSale);
        listedNfts := listedNfts - {n};
        var _ :- Ensure(info.listedBy == owner, TokenNotForSale);
        var _ :- Ensure(NotExpired(info.expires, now), ListingHasExpired);
        listPrice := info.amount;
      }
      var _ :- Ensure(amount.Some? ==> listPrice == amount.value, PriceDiffersFromExpected);
      ghost var locked := core.State();
      core.SetLock(n, false);
      SetLockKeepsInv(locked, core.State(), n, false);
      var paid :- Transfer(money, buyer, owner, listPrice, cfg.existentialDeposit);
      money := paid;
      r := core.Send(owner, n, AccountId(buyer));
    }

    method Buy(now: nat, sender: Account, n: Item, amount: Option<nat>) returns (r: Result<(), Error>)
      requires Valid() && sender.User?
      modifies this, core
      ensures Commits(Spec.Buy(cfg, old(State()), now, sender, n, amount), old(State()), r, State())
      ensures Valid()
    {
      hide CoreInv, Spec.DoBuy;
      var saved := State();
      r := DoBuy(now, sender, n, amount, false);
      if r.Err? {
        Restore(saved);
      }
    }

    method AcceptOffer(now: nat, sender: Account, n: Item, offerer: Account) returns (r: Result<(), Error>)
      requires Valid()
      modifies this, core
      ensures Commits(Spec.AcceptOffer(cfg, old(State()), now, sender, n, offerer), old(State()), r, State())
      ensures Valid()
    {
      hide CoreInv, Spec.DoBuy;
      var saved := State();
      var owner :- OkOr(Get(core.owners, n), TokenDoesNotExist);
      var _ :- Ensure(sender == owner, NoPermission);
      var offer :- OkOr(Get(offers, (n, offerer)), UnknownOffer);
      var _ :- Ensure(NotExpired(offer.expires, now), OfferHasExpired);
      money := Unreserve(money, offer.maker, offer.amount);
      r := DoBuy(now, offer.maker, n, None, true);
      if r.Err? {
        Restore(saved);
        return;
      }
      offers := offers - {(n, offerer)};
    }
  }

  lemma SetLockKeepsInv(s: Core, t: Core, n: Item, locked: bool)
    requires CoreInv(s) && t == SetLock(s, n, locked) && (locked ==> n in s.owners)
    ensures CoreInv(t)
  {
    hide CoreInv;
    LocalChangeKeepsInv(s, t);
  }
}
