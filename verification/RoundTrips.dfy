/** What one call sets up, another takes back or completes. */
module RoundTrips {
  import opened Prelude
  import opened AccountCodec
  import opened Forest
  import opened Ownership
  import opened CoreSpec
  import opened CoreInvariant
  import opened Balances
  import opened MarketSpec
  import opened MarketCalls
  import opened EquipSpec

  // ---------- market ----------

  /** `unlist` right after `list` restores both pallets, if the NFT was neither locked nor listed before. */
  lemma UnlistUndoesList(x: Exchange, sender: Account, n: Item, amount: nat, expires: Option<nat>, y: Exchange)
    requires List(x, sender, n, amount, expires) == Ok(y)
    requires n !in x.core.lock && n !in x.market.listedNfts
    ensures Unlist(y, sender, n) == Ok(x)
  {
    assert y.core.lock - {n} == x.core.lock;
    assert y.market.listedNfts - {n} == x.market.listedNfts;
  }

  /** What a successful `list` says of the NFT and its owner. */
  lemma ListedIsSellable(x: Exchange, sender: Account, n: Item, price: nat, expires: Option<nat>, y: Exchange)
    requires List(x, sender, n, price, expires) == Ok(y)
    ensures n in x.core.owners && x.core.owners[n] == sender && sender.User?
    ensures n in x.core.nfts && x.core.nfts[n].transferable
    ensures y == Exchange(SetLock(x.core, n, true),
                          x.market.(listedNfts := x.market.listedNfts[n := ListInfo(sender, price, expires)]))
  {
  }

  /** Exactly when a fresh listing can be bought: other buyer, in time, at the price, with the funds, not equipped. */
  lemma ListThenBuyIff(cfg: Config, x: Exchange, sender: Account, n: Item, price: nat, expires: Option<nat>,
                       y: Exchange, now: nat, buyer: Account, amount: Option<nat>)
    requires CoreInv(x.core) && List(x, sender, n, price, expires) == Ok(y)
    ensures n in x.core.nfts
    ensures Buy(cfg, y, now, buyer, n, amount).Ok? <==>
            && buyer != sender && (expires.Some? ==> now < expires.value)
            && (amount.Some? ==> amount.value == price)
            && CanPay(cfg, x.market.money, buyer, sender, price)
            && !x.core.nfts[n].equipped
  {
    hide CoreInv, List, Buy, CanPay;
    ListedIsSellable(x, sender, n, price, expires, y);
    LocalChangeKeepsInv(x.core, y.core);
    BuyIff(cfg, y, now, buyer, n, amount);
  }

  /** `withdraw_offer` right after `make_offer` succeeds and gives every account its balances back. */
  lemma WithdrawUndoesMake(cfg: Config, x: Exchange, sender: Account, n: Item, amount: nat, expires: Option<nat>,
                           y: Exchange)
    requires MakeOffer(cfg, x, sender, n, amount, expires) == Ok(y)
    ensures WithdrawOffer(y, sender, n).Ok?
    ensures var z := WithdrawOffer(y, sender, n).value;
            && z.core == x.core && z.market == x.market.(money := z.market.money)
            && SameMoney(x.market.money, z.market.money)
  {
    assert y.market.offers - {(n, sender)} == x.market.offers;
  }

  /**
   Exactly when the owner can accept a fresh offer: in time, sellable, and paid without leaving either
   account below the existential deposit.
   */
  lemma MakeThenAcceptIff(cfg: Config, x: Exchange, maker: Account, n: Item, amount: nat, expires: Option<nat>,
                          y: Exchange, now: nat)
    requires CoreInv(x.core)
    requires MakeOffer(cfg, x, maker, n, amount, expires) == Ok(y)
    requires n in x.core.owners && x.core.owners[n].User?
    ensures AcceptOffer(cfg, y, now, x.core.owners[n], n, maker).Ok? <==>
            && (expires.Some? ==> now < expires.value) && Sellable(x.core, n)
            && CanPay(cfg, x.market.money, maker, x.core.owners[n], amount)
  {
    hide CoreInv, Send, Sellable, MakeOffer, Unreserve, Transfer;
    var owner := x.core.owners[n];
    var unlocked := SetLock(x.core, n, false);
    MadeOffer(cfg, x, maker, n, amount, expires, y);
    var paid := Unreserve(y.market.money, maker, amount);
    LocalChangeKeepsInv(x.core, unlocked);
    SendToBuyer(unlocked, owner, n, maker);
    assert Sellable(unlocked, n) == Sellable(x.core, n) by { SellableUnlocked(x.core, n); }
    CanPayDecides(cfg, x.market.money, paid, maker, owner, amount);
  }

  lemma MadeOffer(cfg: Config, x: Exchange, maker: Account, n: Item, amount: nat, expires: Option<nat>, y: Exchange)
    requires MakeOffer(cfg, x, maker, n, amount, expires) == Ok(y)
    ensures y.core == x.core && (n in x.core.owners ==> maker != x.core.owners[n])
    ensures y.market.offers == x.market.offers[(n, maker) := Offer(maker, amount, expires)]
    ensures SameMoney(x.market.money, Unreserve(y.market.money, maker, amount))
  {
  }

  // ---------- rmrk-core ----------

  /** Sending an NFT back to the account it came from restores everything, if its record named that account. */
  lemma SendBackUndoesSend(s: Core, a: Account, n: Item, b: Account, t: Core)
    requires Rooted(s.owners) && b.User?
    requires n in s.owners && s.owners[n] == a && a.User?
    requires n in s.nfts && s.nfts[n].owner == AccountId(a)
    requires Send(s, a, n, AccountId(b)) == Ok(t)
    ensures Send(t, b, n, AccountId(a)) == Ok(s)
  {
    SendEffect(s, a, n, AccountId(b), t);
    RootedAfterMove(s.owners, n, b);
    RootedAfterMove(t.owners, n, a);
    hide Rooted, Descends;
    assert RootOf(t.owners, n) == Ok((b, n));
    assert t.owners[n := a] == s.owners;
    assert t.nfts[n := t.nfts[n].(owner := AccountId(a))] == s.nfts;
  }

  /** Burning a freshly minted NFT leaves no trace of it but the used id and resource bookkeeping. */
  lemma BurnUndoesMint(s: Core, sender: Account, c: u32, transferable: bool, resources: seq<Resource>, t: Core,
                       maxBurns: u32, u: Core)
    requires CoreInv(s) && sender.User?
    requires MintNft(s, sender, None, c, transferable, resources) == Ok(t)
    requires BurnNft(t, sender, Minted(s, c), maxBurns, Ok(u))
    ensures u == s.(nextNftId := t.nextNftId, resources := u.resources, nextResourceId := t.nextResourceId,
                    equippableBases := t.equippableBases, equippableSlots := t.equippableSlots)
    ensures forall r :: r in u.resources ==> r.0 != Minted(s, c)
  {
    hide IdsInv, CollectionsInv, CountersInv, Rooted, RootOf, CoreSpec.MintNft, CoreSpec.BurnNft, Burns;
    var n := Minted(s, c);
    MintNftEffect(s, sender, None, c, transferable, resources, t);
    MintedIsFresh(s, c);
    var v := BurnNftEffect(t, sender, n, maxBurns, u);
    assert RowsOf(t.children, n) == {};
    ChildlessBurn(t, n, maxBurns, Ok(v));
    hide MintEffect, Cleared, Uncounted;
    ClearMinted(s, t, c, sender, NftInfo(AccountId(sender), false, false, transferable), v);
  }

  lemma ClearMinted(s: Core, t: Core, c: u32, owner: Account, nft: NftInfo, v: Core)
    requires MintEffect(s, t, c, owner, nft) && nft.owner.AccountId?
    requires Minted(s, c) !in s.nfts && Minted(s, c) !in s.owners
    requires Uncounted(Cleared(t, Minted(s, c)), c) == Ok(v)
    ensures v.owners - {Minted(s, c)} == s.owners
    ensures v == s.(nextNftId := t.nextNftId, owners := t.owners, resources := v.resources,
                    nextResourceId := t.nextResourceId, equippableBases := t.equippableBases,
                    equippableSlots := t.equippableSlots)
    ensures forall r :: r in v.resources ==> r.0 != Minted(s, c)
  {
    assert t.nfts - {Minted(s, c)} == s.nfts;
    assert v.collections == s.collections;
  }

  /** Without rows there is nothing to drain. */
  lemma ChildlessBurn(s: Core, n: Item, b: nat, r: Result<Core, Error>)
    requires Burns(s, n, b, r) && r.Ok?
    requires RowsOf(s.children, n) == {}
    ensures Uncounted(Cleared(s, n), n.collection) == r
  {
    var q :| Drains(Cleared(s, n), n, b - 1, q) && r == ThenUncounted(q, n.collection);
    assert RowsOf(Cleared(s, n).children, n) <= RowsOf(s.children, n);
  }

  // ---------- rmrk-equip ----------

  /** The same `equip` call once more takes the item out again and restores both pallets. */
  lemma SecondEquipUndoesFirst(s: Core, e: Equip, issuer: Account, n: Item, key: SlotKey, resource: u32, t: Core,
                               f: Equip)
    requires DoEquip(s, e, issuer, n, key, resource) == Ok((t, f, true))
    ensures DoEquip(t, f, issuer, n, key, resource) == Ok((s, e, false))
  {
    assert f.equippings - {key} == e.equippings;
    assert SetEquipped(t.nfts, n, false) == s.nfts;
  }
}
