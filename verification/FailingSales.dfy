/** A listing that outlives a sale by offer and sells the NFT again; an offer that outlives its NFT. */
module FailingSales {
  import opened Prelude
  import opened AccountCodec
  import opened Ownership
  import opened CoreSpec
  import opened CoreInvariant
  import opened Balances
  import opened MarketSpec
  import opened MarketTheory
  import opened MarketCalls
  import opened RoundTrips
  import opened ChildIndex
  import opened FailingInputs
  import opened FailingBurns

  /** The sale by offer of a listed NFT leaves its listing in the table, and the NFT free to move. */
  lemma AcceptLeavesListing(cfg: Config, x: Exchange, now: nat, seller: Account, n: Item, maker: Account, y: Exchange)
    requires Rooted(x.core.owners) && OfferBacked(x, (n, maker))
    requires AcceptOffer(cfg, x, now, seller, n, maker) == Ok(y) && n in x.market.listedNfts
    ensures n in y.market.listedNfts && y.market.listedNfts[n] == x.market.listedNfts[n] && n !in y.core.lock
  {
    AcceptOfferIsExchange(cfg, x, now, seller, n, maker, y);
  }

  /** Enough for the whole story below: an unlocked NFT of the seller, and money for both deals. */
  ghost predicate ReadyToSell(cfg: Config, x: Exchange, seller: Account, n: Item, price: nat, maker: Account,
                              offered: nat, buyer: Account)
  {
    && seller.User? && maker.User? && buyer.User? && seller != maker && buyer != seller && buyer != maker
    && n in x.core.owners && x.core.owners[n] == seller && Sellable(x.core, n) && n !in x.core.lock
    && (n, maker) !in x.market.offers && offered >= cfg.minimumOfferAmount
    && offered <= Balance(x.market.money.free, maker)
    && CanPay(cfg, x.market.money, maker, seller, offered) && CanPay(cfg, x.market.money, buyer, seller, price)
  }

  /**
   The seller lists, then sells by offer, and gets the NFT back as a gift. No new listing is made, yet
   anybody can buy the NFT at the price of the first one.
   */
  lemma OldListingSellsAgain(cfg: Config, x: Exchange, seller: Account, n: Item, price: nat, maker: Account,
                             offered: nat, buyer: Account, now: nat)
    returns (listed: Exchange, asked: Exchange, sold: Exchange, back: Exchange)
    requires CoreInv(x.core) && ReadyToSell(cfg, x, seller, n, price, maker, offered, buyer)
    ensures List(x, seller, n, price, None) == Ok(listed)
    ensures MakeOffer(cfg, listed, maker, n, offered, None) == Ok(asked)
    ensures AcceptOffer(cfg, asked, now, seller, n, maker) == Ok(sold)
    ensures n in sold.market.listedNfts && n !in sold.core.lock
    ensures back.market == sold.market && Send(sold.core, maker, n, AccountId(seller)) == Ok(back.core)
    ensures back.core.owners == x.core.owners && n !in back.core.lock
    ensures Buy(cfg, back, now, buyer, n, Some(price)).Ok?
  {
    hide CoreInv, Send, Buy, AcceptOffer, Unreserve;
    listed := List(x, seller, n, price, None).value;
    LocalChangeKeepsInv(x.core, listed.core);
    asked := MakeOffer(cfg, listed, maker, n, offered, None).value;
    MakeThenAcceptIff(cfg, listed, maker, n, offered, None, asked, now);
    sold := AcceptOffer(cfg, asked, now, seller, n, maker).value;
    InvIsRooted(asked.core);
    AcceptOfferIsExchange(cfg, asked, now, seller, n, maker, sold);
    SoldKeepsInv(asked.core, sold.core, n, maker);
    SendToBuyer(sold.core, maker, n, seller);
    var core := Send(sold.core, maker, n, AccountId(seller)).value;
    back := Exchange(core, sold.market);
    GivenBack(sold.core, maker, n, seller, core);
    assert back.core.owners == x.core.owners;
    assert CanPay(cfg, back.market.money, buyer, seller, price);
    BuyIff(cfg, back, now, buyer, n, Some(price));
  }

  lemma GivenBack(s: Core, from: Account, n: Item, to: Account, t: Core)
    requires CoreInv(s) && to.User? && Send(s, from, n, AccountId(to)) == Ok(t)
    ensures CoreInv(t) && t.owners == s.owners[n := to] && t.lock == s.lock
    ensures n in s.nfts && n in t.nfts
    ensures t.nfts[n] == s.nfts[n].(owner := AccountId(to))
  {
    InvIsRooted(s);
    hide CoreInv, Rooted;
    SendEffect(s, from, n, AccountId(to), t);
    MoveKeepsInv(s, t, n, to);
  }

  // ---------- a chain on which that happens ----------

  /**
   `a` has minted one NFT; `a`, `b` and `c` have what the two deals take, and nothing is listed, offered or
   reserved.
   */
  function Market0(cfg: Config, a: Account, b: Account, c: Account, price: nat): Exchange {
    var ed := cfg.existentialDeposit;
    Exchange(Flat(a, 1),
             Market(map[], map[], Money(map[a := ed, b := cfg.minimumOfferAmount + ed, c := price + ed], map[])))
  }

  lemma Market0IsReady(cfg: Config, a: Account, b: Account, c: Account, price: nat)
    requires a.User? && b.User? && c.User? && a != b && a != c && b != c
    ensures var x := Market0(cfg, a, b, c, price);
            CoreInv(x.core) && ReadyToSell(cfg, x, a, R, price, b, cfg.minimumOfferAmount, c)
  {
    hide CoreInv;
    FlatInv(a, 1);
    assert R in FirstItems(1);
    FlatHas(a, 1, R);
  }

  // ---------- an offer on a burnt NFT ----------

  /** `b` makes an offer on the NFT, `a` burns it: the money stays reserved and the offer cannot be withdrawn. */
  lemma OfferOutlivesNft(cfg: Config, a: Account, b: Account, c: Account, price: nat) returns (y: Exchange, burnt: Core)
    requires a.User? && b.User? && c.User? && a != b && a != c && b != c
    ensures MakeOffer(cfg, Market0(cfg, a, b, c, price), b, R, cfg.minimumOfferAmount, None) == Ok(y)
    ensures BurnNft(y.core, a, R, 1, Ok(burnt))
    ensures (R, b) in y.market.offers && Balance(y.market.money.reserved, b) == cfg.minimumOfferAmount
    ensures WithdrawOffer(Exchange(burnt, y.market), b, R) == Err(TokenDoesNotExist)
  {
    hide CoreInv, RootOf, BurnNft, Burns, Flat;
    FlatInv(a, 1);
    assert R in FirstItems(1);
    FlatHas(a, 1, R);
    var x := Market0(cfg, a, b, c, price);
    y := MakeOffer(cfg, x, b, R, cfg.minimumOfferAmount, None).value;
    assert RowsOf(y.core.children, R) == {};
    var u := LeafBurns(y.core, R, 1);
    BurnNftIsBurn(y.core, a, R, 1, Ok(u));
    burnt := ThenDoBurn(Ok(u), R).value;
  }
}
