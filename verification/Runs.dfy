/** The main results: what holds along every run from an empty chain. */
module Runs {
  import opened Prelude
  import opened AccountCodec
  import opened Forest
  import opened Ownership
  import opened CoreSpec
  import opened Rows
  import opened BurnTheory
  import opened BurnOrder
  import opened CoreInvariant
  import opened ChildIndex
  import opened Balances
  import opened MarketSpec
  import opened MarketTheory
  import opened MarketCalls
  import opened EquipSpec
  import opened EquipTheory
  import opened Chain
  import opened Safety
  import opened Listings
  import opened Supply
  import opened Counting
  import opened Remains

  lemma {:induction false} InvAlongRun(cfg: Config, run: Run, k: nat)
    requires IsRun(cfg, run) && k < |run.states|
    ensures ChainInv(run.states[k])
    decreases k
  {
    hide ChainInv, IsGenesis, Step, RealCall;
    if k == 0 {
      GenesisInv(run.states[0]);
    } else {
      InvAlongRun(cfg, run, k - 1);
      assert StepOf(cfg, run, k - 1);
      StepKeepsChain(cfg, run.states[k - 1], run.signers[k - 1], run.calls[k - 1], run.states[k]);
    }
  }

  /** No NFT ever owns itself, directly or through others; so both lookups always come to an end, in time. */
  lemma OwnershipIsAcyclic(cfg: Config, run: Run, k: nat, x: Item, y: Item)
    requires IsRun(cfg, run) && k < |run.states|
    ensures var o := run.states[k].core.owners;
            !Descends(LinksOf(o), x, x) && Rooted(o) && DescentCalls(o, x, y) <= LookupCalls(o, x) <= |o| + 1
  {
    InvAlongRun(cfg, run, k);
    LookupIsBounded(run.states[k].core.owners, x, y);
  }

  /** A locked NFT that exists is listed by its current owner, a real account. */
  lemma LockedIsListedByOwner(cfg: Config, run: Run, k: nat, n: Item)
    requires IsRun(cfg, run) && k < |run.states|
    requires n in run.states[k].core.lock && n in run.states[k].core.owners
    ensures n in run.states[k].market.listedNfts
    ensures run.states[k].market.listedNfts[n].listedBy == run.states[k].core.owners[n]
    ensures run.states[k].core.owners[n].User?
  {
    hide IsRun;
    InvAlongRun(cfg, run, k);
    var s := run.states[k];
    assert LockedIsListed(Exchange(s.core, s.market), n);
  }

  /** Every reserve is exactly what other pallets hold plus the open offers, each filed under its maker. */
  lemma ReservesAddUp(cfg: Config, run: Run, k: nat, a: Account, n: Item)
    requires IsRun(cfg, run) && k < |run.states|
    ensures var s := run.states[k];
            && Balance(s.market.money.reserved, a) == Balance(s.deposits, a) + OffersOf(s.market.offers, a)
            && ((n, a) in s.market.offers ==>
                  s.market.offers[(n, a)].maker == a
                  && s.market.offers[(n, a)].amount <= Balance(s.market.money.reserved, a))
  {
    hide IsRun;
    InvAlongRun(cfg, run, k);
    var s := run.states[k];
    assert ReserveBacks(s.market, s.deposits, a);
    OffersAreBacked(Exchange(s.core, s.market), s.deposits, (n, a));
  }

  /** `nfts_count` <= number of live NFTs <= ids handed out. */
  lemma CountersOrdered(cfg: Config, run: Run, k: nat, c: u32)
    requires IsRun(cfg, run) && k < |run.states|
    ensures var s := run.states[k].core;
            && |LiveIn(s, c)| <= Count(s.nextNftId, c)
            && (c in s.collections ==> s.collections[c].nftsCount <= |LiveIn(s, c)|)
  {
    InvAlongRun(cfg, run, k);
    CountersBounded(run.states[k].core, c);
  }

  /** An occupied slot refers to an existing base, a slot part of it, and an NFT that was given the base. */
  lemma OccupiedSlotsAreBacked(cfg: Config, run: Run, k: nat, key: SlotKey)
    requires IsRun(cfg, run) && k < |run.states|
    requires key in run.states[k].equip.equippings
    ensures SlotBacked(run.states[k].equip, run.states[k].core.equippableBases, key)
  {
    InvAlongRun(cfg, run, k);
  }

  /**
   The counter of a collection is the number of its live NFTs as long as every burn and rejection that went through
   reached no dead NFT of it and none it could count twice, or left no live one.
   */
  lemma {:induction false} CounterStaysExact(cfg: Config, run: Run, k: nat, c: u32)
    requires IsRun(cfg, run) && k < |run.states| && c in run.states[k].core.collections
    requires forall i :: 0 <= i < k && run.states[i + 1] != run.states[i] ==>
                           CallCountsRight(run.states[i].core, run.calls[i], c)
    ensures CounterExact(run.states[k].core, c)
    decreases k
  {
    hide ChainInv, Executes, RealCall, CallCountsRight, CounterExact;
    if k > 0 {
      hide IsGenesis;
      var s, t := run.states[k - 1], run.states[k];
      InvAlongRun(cfg, run, k - 1);
      assert StepOf(cfg, run, k - 1);
      if c in s.core.collections {
        CounterStaysExact(cfg, run, k - 1, c);
      }
      if t != s {
        CounterStep(cfg, s, run.signers[k - 1], run.calls[k - 1], t, c);
      }
    }
  }

  lemma CounterStep(cfg: Config, s: State, signer: Account, call: Call, t: State, c: u32)
    requires ChainInv(s) && RealCall(signer, call) && Executes(cfg, s, signer, call, t)
    requires CallCountsRight(s.core, call, c)
    requires c in t.core.collections && (c in s.core.collections ==> CounterExact(s.core, c))
    ensures CounterExact(t.core, c)
  {
    hide CoreInv, LockInv, OffersInv, EquipInv, Executes, CounterExact, CallCountsRight;
    if call.BurnNft? || call.RejectNft? {
      UnfoldCore(cfg, s, signer, call, t);
      BurningKeepsCounter(cfg, s.core, signer, call, t.core, c);
    } else {
      StepKeepsCounter(cfg, s, signer, call, t, c);
    }
  }

  // ---------- what burns leave behind ----------

  /** An item that a burn left without a root owner stays where it is, and without one, in all later states. */
  lemma {:induction false} OrphanForever(cfg: Config, run: Run, i: nat, j: nat, x: Item)
    requires IsRun(cfg, run) && i <= j < |run.states| && Orphan(run.states[i].core.owners, x)
    ensures Orphan(run.states[j].core.owners, x) && run.states[j].core.owners[x] == run.states[i].core.owners[x]
    decreases j
  {
    hide ChainInv, Step, RealCall, IsGenesis, RootOf;
    if i < j {
      OrphanForever(cfg, run, i, j - 1, x);
      InvAlongRun(cfg, run, j - 1);
      assert StepOf(cfg, run, j - 1);
      StepKeepsOrphan(cfg, run.states[j - 1], run.signers[j - 1], run.calls[j - 1], run.states[j], x);
    }
  }

  /**
   A live NFT with a row to an NFT of a destroyed collection stays live, and no burn or rejection of it ever
   succeeds.
   */
  lemma {:induction false} DeadRowForever(cfg: Config, run: Run, i: nat, j: nat, p: Item, x: Item, a: Account,
                                          budget: nat, r: Result<Core, Error>)
    requires IsRun(cfg, run) && i <= j < |run.states|
    requires DeadRow(run.states[i].core, p, x) && p in run.states[i].core.nfts
    ensures DeadRow(run.states[j].core, p, x) && p in run.states[j].core.nfts
    ensures (CoreSpec.BurnNft(run.states[j].core, a, p, budget, r)
             || CoreSpec.RejectNft(run.states[j].core, a, p, budget, r)) ==> r.Err?
    decreases j
  {
    hide ChainInv, Step, RealCall, IsGenesis, Burns, RootOf;
    if i < j {
      DeadRowForever(cfg, run, i, j - 1, p, x, a, budget, r);
      InvAlongRun(cfg, run, j - 1);
      assert StepOf(cfg, run, j - 1);
      StepKeepsDeadRow(cfg, run.states[j - 1], run.signers[j - 1], run.calls[j - 1], run.states[j], p, x);
    }
    var s := run.states[j].core;
    CoreInvAt(cfg, run, j);
    ReachClosed(s.children, p);
    DeadRowPins(s, p, p, x, a, budget, r);
  }

  lemma CoreInvAt(cfg: Config, run: Run, k: nat)
    requires IsRun(cfg, run) && k < |run.states|
    ensures CoreInv(run.states[k].core)
  {
    hide IsRun;
    InvAlongRun(cfg, run, k);
  }

  // ---------- consent along a run ----------

  /** At every step of every run, an account loses root ownership only by its own signature or its own listing. */
  lemma NobodyLosesAnNft(cfg: Config, run: Run, k: nat, n: Item, a: Account)
    requires IsRun(cfg, run) && k < |run.calls|
    requires RootedAt(run.states[k].core.owners, n, a) && !RootedAt(run.states[k + 1].core.owners, n, a)
    ensures run.signers[k] == a
            || (run.calls[k].Buy? && RootOf(run.states[k].core.owners, n) == Ok((a, run.calls[k].n))
                && run.calls[k].n in run.states[k].market.listedNfts
                && run.states[k].market.listedNfts[run.calls[k].n].listedBy == a)
  {
    InvAlongRun(cfg, run, k);
    assert StepOf(cfg, run, k);
    hide ChainInv, IsRun, Step, RealCall;
    OwnershipNeedsConsent(cfg, run.states[k], run.signers[k], run.calls[k], run.states[k + 1], n, a);
  }

  // ---------- documented runs ----------

  // Refused calls may be anything: they change nothing.

  ghost predicate NestingDocumentedRun(run: Run)
    requires |run.states| == |run.calls| + 1
  {
    forall i :: 0 <= i < |run.calls| && run.states[i + 1] != run.states[i] ==>
                  NestingDocumented(run.states[i].core, run.calls[i])
  }

  ghost predicate EquipDocumentedRun(run: Run)
    requires |run.states| == |run.calls| + 1
  {
    forall i :: 0 <= i < |run.calls| && run.states[i + 1] != run.states[i] ==>
                  EquipDocumented(run.states[i], run.calls[i])
  }

  /** The NFTs minted straight into an NFT in the first `k` steps and not sent since. */
  ghost function Rowless(run: Run, k: nat): set<Item>
    requires |run.states| == |run.calls| + 1 && k <= |run.calls|
    decreases k
  {
    if k == 0 then {}
    else if run.states[k] == run.states[k - 1] then Rowless(run, k - 1)
    else RowlessAfter(run.states[k - 1].core, run.calls[k - 1], Rowless(run, k - 1))
  }

  lemma {:induction false} NothingRowless(run: Run, k: nat)
    requires |run.states| == |run.calls| + 1 && k <= |run.calls|
    requires forall i :: 0 <= i < k ==> !run.calls[i].MintNftDirectlyToNft?
    ensures Rowless(run, k) == {}
    decreases k
  {
    if k > 0 {
      NothingRowless(run, k - 1);
    }
  }

  lemma {:induction false} IndexAlongRun(cfg: Config, run: Run, k: nat)
    requires IsRun(cfg, run) && NestingDocumentedRun(run) && k < |run.states|
    ensures IndexInvBut(run.states[k].core, Rowless(run, k))
    decreases k
  {
    hide ChainInv, Executes, RealCall, IndexInvBut;
    if k == 0 {
      EmptyIndex();
    } else {
      hide IsGenesis;
      IndexAlongRun(cfg, run, k - 1);
      InvAlongRun(cfg, run, k - 1);
      assert StepOf(cfg, run, k - 1);
      if run.states[k] != run.states[k - 1] {
        StepKeepsIndex(cfg, run.states[k - 1], run.signers[k - 1], run.calls[k - 1], run.states[k],
                       Rowless(run, k - 1));
      }
    }
  }

  lemma EmptyIndex()
    ensures IndexInvBut(EMPTY_CORE, {})
  {
  }

  /**
   With documented acceptances, a live NFT has the row of its owner and no other; only those minted
   straight into an NFT and not sent since have none. Only live NFTs have children.
   */
  lemma IndexAgrees(cfg: Config, run: Run, k: nat, c: Item, p: Item)
    requires IsRun(cfg, run) && NestingDocumentedRun(run) && k < |run.states|
    ensures var s := run.states[k].core;
            && (c in s.nfts ==>
                  ((p, c) in s.children <==> c !in Rowless(run, k) && c in s.owners && s.owners[c] == Virtual(p)))
            && ((p, c) in s.children ==> p in s.nfts)
            && (c in s.nfts && Rowless(run, k) == {} ==> RootOf(s.owners, c).Ok?)
  {
    IndexAlongRun(cfg, run, k);
    OwnershipIsAcyclic(cfg, run, k, c, c);
    hide IsRun, Rooted, RootOf;
    var s := run.states[k].core;
    if c in s.nfts {
      assert RowsMatch(s, c, Rowless(run, k));
      if Rowless(run, k) == {} {
        LiveHaveRoots(s, c);
      }
    }
    assert (p, c) in s.children ==> (p, c).0 in s.nfts;
  }

  /** With documented acceptances the rows below any NFT are a tree, in every reachable state. */
  lemma RowsAreTrees(cfg: Config, run: Run, k: nat, n: Item)
    requires IsRun(cfg, run) && NestingDocumentedRun(run) && k < |run.states|
    ensures TreeBelow(run.states[k].core.children, n)
  {
    IndexAlongRun(cfg, run, k);
    OwnershipIsAcyclic(cfg, run, k, n, n);
    hide IsRun, Rooted, IndexInvBut;
    IndexIsTree(run.states[k].core, Rowless(run, k), n);
  }

  /**
   So there, for the root owner of `n`, a burn succeeds iff all collections reached exist and the longest chain fits the
   budget; all orders of draining agree; and whether an exact counter stays exact is decided beforehand.
   */
  lemma BurnIsDecided(cfg: Config, run: Run, k: nat, a: Account, n: Item, maxBurns: u32, r: Result<Core, Error>, c: u32)
    requires IsRun(cfg, run) && NestingDocumentedRun(run) && k < |run.states|
    requires RootedAt(run.states[k].core.owners, n, a)
    requires CoreSpec.BurnNft(run.states[k].core, a, n, maxBurns, r)
    ensures var s := run.states[k].core; var gone := Reach(s.children, n);
            && (r.Ok? <==> CollectionsKnown(s, gone) && ChainsFit(s.children, n, maxBurns))
            && (r.Err? && CollectionsKnown(s, gone) ==> r == Err(TooManyRecursions))
            && (r.Ok? ==> forall r' :: CoreSpec.BurnNft(s, a, n, maxBurns, r') ==> r' == r)
            && (r.Ok? && CounterExact(s, c) ==>
                  (CounterExact(r.value, c) <==> LiveIn(s, c) <= gone || InCollection(gone - s.nfts.Keys, c) == {}))
  {
    hide IsRun, CoreInv, TreeBelow, ChainsFit, Reach, Burns, Rooted, LockInv, OffersInv, EquipInv, CounterExact;
    RowsAreTrees(cfg, run, k, n);
    InvAlongRun(cfg, run, k);
    var s := run.states[k].core;
    BurnNftOutcome(s, a, n, maxBurns, r);
    if r.Ok? {
      var t := BurnNftEffect(s, a, n, maxBurns, r.value);
      forall r' | CoreSpec.BurnNft(s, a, n, maxBurns, r')
        ensures r' == r
      {
        BurnNftOutcome(s, a, n, maxBurns, r');
        var t' := BurnNftEffect(s, a, n, maxBurns, r'.value);
        TreeBurnIgnoresOrder(s, n, maxBurns, maxBurns, t, t');
      }
      if CounterExact(s, c) {
        TreeKeepsCounterIff(s, n, maxBurns, t, c);
        SameCounter(t, r.value, c);
      }
    }
  }

  /**
   With documented acceptances a burn or a rejection removes exactly the NFT and the live NFTs nested in it, down to
   the first that has no row. If there is no such NFT, every NFT left has a root owner.
   */
  lemma RemovalIsExact(cfg: Config, run: Run, k: nat, x: Item)
    requires IsRun(cfg, run) && NestingDocumentedRun(run) && k < |run.calls|
    requires run.calls[k].BurnNft? || run.calls[k].RejectNft?
    requires run.states[k + 1] != run.states[k]
    ensures var s, t, n := run.states[k].core, run.states[k + 1].core, run.calls[k].n;
            && (x in t.nfts <==> x in s.nfts && !AtOrBelow(LinksWithRows(s, Rowless(run, k), n), x, n))
            && (Rowless(run, k) == {} ==>
                  && (x in t.nfts <==> x in s.nfts && !AtOrBelow(LinksOf(s.owners), x, n))
                  && (x in t.nfts ==> RootOf(t.owners, x).Ok?))
  {
    InvAlongRun(cfg, run, k);
    IndexAlongRun(cfg, run, k);
    assert StepOf(cfg, run, k);
    var s, t, call := run.states[k], run.states[k + 1], run.calls[k];
    assert CoreExecutes(cfg, s.core, run.signers[k], call, t.core);
    hide IsRun, CoreInv, IndexInvBut, LockInv, OffersInv, EquipInv, AtOrBelow;
    if call.BurnNft? {
      BurnNftRemovesSubtree(s.core, run.signers[k], call.n, call.maxBurns, t.core, Rowless(run, k));
    } else {
      RejectNftRemovesSubtree(s.core, run.signers[k], call.n, cfg.maxRecursions, t.core, Rowless(run, k));
    }
  }

  lemma {:induction false} SeatsAlongRun(cfg: Config, run: Run, k: nat)
    requires IsRun(cfg, run) && EquipDocumentedRun(run) && k < |run.states|
    ensures SeatInv(run.states[k].core, run.states[k].equip, run.states[k].seats)
    decreases k
  {
    hide ChainInv, Step, RealCall;
    if k > 0 {
      hide SeatInv, IsGenesis;
      SeatsAlongRun(cfg, run, k - 1);
      InvAlongRun(cfg, run, k - 1);
      assert StepOf(cfg, run, k - 1);
      if run.states[k] != run.states[k - 1] {
        StepKeepsSeats(cfg, run.states[k - 1], run.signers[k - 1], run.calls[k - 1], run.states[k]);
      }
    }
  }

  /** Under documented use a live NFT is flagged as equipped iff it sits in a slot, and then in exactly one. */
  lemma FlagMeansOneSlot(cfg: Config, run: Run, k: nat, x: Item)
    requires IsRun(cfg, run) && EquipDocumentedRun(run) && k < |run.states|
    requires x in run.states[k].core.nfts
    ensures var s := run.states[k];
            && (s.core.nfts[x].equipped <==> exists key :: Sits(s.seats, x, key))
            && (forall j, key :: Sits(s.seats, x, j) && Sits(s.seats, x, key) ==> j == key)
            && s.seats.Keys == s.equip.equippings.Keys
  {
    SeatsAlongRun(cfg, run, k);
    assert FlagRight(run.states[k].core, run.states[k].seats, x);
  }

  /** While a slot stays taken, it holds the same resource of the same NFT. */
  lemma {:induction false} SlotHeld(cfg: Config, run: Run, i: nat, j: nat, key: SlotKey)
    requires IsRun(cfg, run) && i <= j < |run.states|
    requires forall k :: i <= k <= j ==> key in run.states[k].equip.equippings
    ensures run.states[j].equip.equippings[key] == run.states[i].equip.equippings[key]
    ensures Get(run.states[j].seats, key) == Get(run.states[i].seats, key)
    decreases j
  {
    hide Step, RealCall, IsGenesis;
    if i < j {
      SlotHeld(cfg, run, i, j - 1, key);
      assert StepOf(cfg, run, j - 1);
      SlotKeepsContent(cfg, run.states[j - 1], run.signers[j - 1], run.calls[j - 1], run.states[j], key);
    }
  }

  // ---------- listings and offers ----------

  /** Step `i` accepted an offer on `n` while `n` was listed. */
  predicate SoldWhileListed(run: Run, i: nat, n: Item)
    requires i < |run.calls| && |run.states| == |run.calls| + 1
  {
    && run.states[i + 1] != run.states[i]
    && run.calls[i].AcceptOffer? && run.calls[i].n == n && n in run.states[i].market.listedNfts
  }

  /** No `list`, `unlist` or `buy` of `n` went through in the steps after `i` and before `k`. */
  predicate NotRelisted(run: Run, i: nat, k: nat, n: Item)
    requires k <= |run.calls| && |run.states| == |run.calls| + 1
  {
    forall j :: i < j < k && run.states[j + 1] != run.states[j] ==> !Relists(run.calls[j], n)
  }

  /**
   An NFT is listed but not locked iff an offer on it was accepted while it was listed, and it was not listed
   anew since.
   */
  lemma {:induction false} StaleIffSoldWhileListed(cfg: Config, run: Run, k: nat, n: Item)
    requires IsRun(cfg, run) && k < |run.states|
    ensures Stale(Exchange(run.states[k].core, run.states[k].market), n) <==>
            exists i :: 0 <= i < k && SoldWhileListed(run, i, n) && NotRelisted(run, i, k, n)
    decreases k
  {
    hide ChainInv, Executes, RealCall;
    if k > 0 {
      hide IsGenesis, Stale;
      StaleIffSoldWhileListed(cfg, run, k - 1, n);
      InvAlongRun(cfg, run, k - 1);
      assert StepOf(cfg, run, k - 1);
      var s, t := run.states[k - 1], run.states[k];
      if t != s {
        StaleIff(cfg, s, run.signers[k - 1], run.calls[k - 1], t, n);
      }
      forall i | 0 <= i < k - 1
        ensures NotRelisted(run, i, k, n) <==>
                NotRelisted(run, i, k - 1, n) && (t != s ==> !Relists(run.calls[k - 1], n))
      {
      }
      if t != s && run.calls[k - 1].AcceptOffer? && run.calls[k - 1].n == n && n in s.market.listedNfts {
        assert SoldWhileListed(run, k - 1, n) && NotRelisted(run, k - 1, k, n);
      }
    }
  }

  /** Blocks only pass: the block number never falls. */
  lemma {:induction false} TimePasses(cfg: Config, run: Run, i: nat, j: nat)
    requires IsRun(cfg, run) && i <= j < |run.states|
    ensures run.states[i].now <= run.states[j].now
    decreases j
  {
    hide Step, RealCall, IsGenesis;
    if i < j {
      TimePasses(cfg, run, i, j - 1);
      assert StepOf(cfg, run, j - 1);
      StepTakesTime(cfg, run.states[j - 1], run.signers[j - 1], run.calls[j - 1], run.states[j]);
    }
  }

  lemma StepTakesTime(cfg: Config, s: State, signer: Account, call: Call, t: State)
    requires Step(cfg, s, signer, call, t)
    ensures s.now <= t.now
  {
    hide CoreExecutes, MarketExecutes, DoEquip, InsertParts;
  }

  /**
   Once the block of its expiry is reached, nobody can buy at a listing that expires then, nor can an offer that
   expires then be accepted, in that or any later state.
   */
  lemma ExpiredForever(cfg: Config, run: Run, i: nat, j: nat, n: Item, e: nat, a: Account, amount: Option<nat>,
                       offerer: Account)
    requires IsRun(cfg, run) && i <= j < |run.states| && e <= run.states[i].now
    ensures var t := run.states[j]; var x := Exchange(t.core, t.market);
            && (n in t.market.listedNfts && t.market.listedNfts[n].expires == Some(e) ==>
                  MarketSpec.Buy(cfg, x, t.now, a, n, amount).Err?)
            && ((n, offerer) in t.market.offers && t.market.offers[(n, offerer)].expires == Some(e) ==>
                  MarketSpec.AcceptOffer(cfg, x, t.now, a, n, offerer).Err?)
  {
    TimePasses(cfg, run, i, j);
    CoreInvAt(cfg, run, j);
    hide IsRun, CoreInv;
    var t := run.states[j];
    var x := Exchange(t.core, t.market);
    BuyIff(cfg, x, t.now, a, n, amount);
    if n in t.core.owners {
      AcceptOfferRefusals(cfg, x, t.now, a, n, offerer);
    }
  }

  /** An offer on a burnt NFT stays filed, its amount reserved and out of its maker's reach, in all later states. */
  lemma {:induction false} OfferOnBurntStays(cfg: Config, run: Run, i: nat, j: nat, n: Item, a: Account)
    requires IsRun(cfg, run) && i <= j < |run.states|
    requires Burnt(run.states[i].core, n) && (n, a) in run.states[i].market.offers
    ensures var t := run.states[j];
            && Burnt(t.core, n)
            && (n, a) in t.market.offers && t.market.offers[(n, a)] == run.states[i].market.offers[(n, a)]
            && t.market.offers[(n, a)].amount <= Balance(t.market.money.reserved, a)
            && MarketSpec.WithdrawOffer(Exchange(t.core, t.market), a, n) == Err(TokenDoesNotExist)
    decreases j
  {
    hide ChainInv, Step, RealCall, IsGenesis;
    if i < j {
      OfferOnBurntStays(cfg, run, i, j - 1, n, a);
      InvAlongRun(cfg, run, j - 1);
      assert StepOf(cfg, run, j - 1);
      StepKeepsBurnt(cfg, run.states[j - 1], run.signers[j - 1], run.calls[j - 1], run.states[j], n, a);
    }
    ReservesAddUp(cfg, run, j, a, n);
  }

  // ---------- supply ----------

  /** The mints in collection `c` that went through in the first `k` steps. */
  ghost function MintCount(run: Run, c: u32, k: nat): nat
    requires |run.states| == |run.calls| + 1 && k <= |run.calls|
    decreases k
  {
    if k == 0 then 0
    else
      MintCount(run, c, k - 1)
      + if MintsIn(run.calls[k - 1], c) && run.states[k] != run.states[k - 1] then 1 else 0
  }

  /** Ids count mints: refused mints use none up. */
  lemma {:induction false} IdsCountMints(cfg: Config, run: Run, c: u32, k: nat)
    requires IsRun(cfg, run) && k <= |run.calls|
    ensures MintCount(run, c, k) == Count(run.states[k].core.nextNftId, c)
    decreases k
  {
    hide ChainInv, RealCall, Executes;
    if k > 0 {
      hide IsGenesis;
      IdsCountMints(cfg, run, c, k - 1);
      InvAlongRun(cfg, run, k - 1);
      assert StepOf(cfg, run, k - 1);
      var s, t := run.states[k - 1], run.states[k];
      if t != s {
        if MintsIn(run.calls[k - 1], c) {
          MintUsesId(cfg, s, run.signers[k - 1], run.calls[k - 1], t, c);
        } else {
          StepMintsNothing(cfg, s, run.signers[k - 1], run.calls[k - 1], t, c);
        }
      }
    }
  }

  lemma {:induction false} CapAlongRun(cfg: Config, run: Run, c: u32, m: nat, i: nat, j: nat)
    requires IsRun(cfg, run) && i <= j < |run.states|
    requires Capped(run.states[i].core, c, m)
    ensures Capped(run.states[j].core, c, m)
    decreases j
  {
    hide ChainInv, RealCall, Step;
    if i < j {
      hide Capped;
      CapAlongRun(cfg, run, c, m, i, j - 1);
      InvAlongRun(cfg, run, j - 1);
      assert StepOf(cfg, run, j - 1);
      StepKeepsCap(cfg, run.states[j - 1], run.signers[j - 1], run.calls[j - 1], run.states[j], c, m);
    }
  }

  /** Whatever is burned, locked or handed over, no more NFTs are ever minted than the limit given at creation. */
  lemma SupplyCap(cfg: Config, run: Run, i: nat, m: u32, j: nat)
    requires IsRun(cfg, run) && i < j <= |run.calls|
    requires run.calls[i] == Call.CreateCollection(Some(m)) && run.states[i + 1] != run.states[i]
    ensures MintCount(run, run.states[i].core.collectionIndex, j) <= m
  {
    var s, t := run.states[i], run.states[i + 1];
    var c := s.core.collectionIndex;
    InvAlongRun(cfg, run, i);
    assert StepOf(cfg, run, i);
    assert Executes(cfg, s, run.signers[i], run.calls[i], t);
    assert CollectionsInv(s.core);
    assert Capped(t.core, c, m) by {
      CreationCaps(s.core, run.signers[i], m, t.core);
    }
    hide ChainInv, IsGenesis, Executes;
    CapAlongRun(cfg, run, c, m, i + 1, j);
    IdsCountMints(cfg, run, c, j);
  }

  lemma CreationCaps(s: Core, sender: Account, m: u32, t: Core)
    requires CollectionsInv(s) && CoreSpec.CreateCollection(s, sender, Some(m)) == Ok(t)
    ensures Capped(t, s.collectionIndex, m)
  {
  }

  lemma {:induction false} SealAlongRun(cfg: Config, run: Run, c: u32, i: nat, j: nat)
    requires IsRun(cfg, run) && i <= j < |run.states|
    requires Sealed(run.states[i].core, c)
    ensures Sealed(run.states[j].core, c)
    decreases j
  {
    hide ChainInv, RealCall, Step;
    if i < j {
      hide Sealed;
      SealAlongRun(cfg, run, c, i, j - 1);
      InvAlongRun(cfg, run, j - 1);
      assert StepOf(cfg, run, j - 1);
      StepKeepsSeal(cfg, run.states[j - 1], run.signers[j - 1], run.calls[j - 1], run.states[j], c);
    }
  }

  /** After `lock_collection` no mint of either kind ever succeeds there again, by anyone, whatever happens between. */
  lemma LockIsForever(cfg: Config, run: Run, i: nat, c: u32, j: nat, signer: Account, call: Call, t: State)
    requires IsRun(cfg, run) && i < |run.calls| && i < j < |run.states|
    requires run.calls[i] == Call.LockCollection(c)
    requires Executes(cfg, run.states[i], run.signers[i], run.calls[i], run.states[i + 1])
    requires MintsIn(call, c)
    ensures !Executes(cfg, run.states[j], signer, call, t)
  {
    hide ChainInv, Executes;
    InvAlongRun(cfg, run, i);
    LockSeals(cfg, run.states[i], run.signers[i], c, run.states[i + 1]);
    SealAlongRun(cfg, run, c, i + 1, j);
    SealedMintsNothing(cfg, run.states[j], signer, call, t, c);
  }
}
