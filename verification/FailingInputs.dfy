/**
 Inputs at which the calls do not do what one would hope, each with the proof that the calls go
 through there. The exact conditions are theorems of other modules.
 */
module FailingInputs {
  import opened Prelude
  import opened AccountCodec
  import opened Forest
  import opened Ownership
  import opened Rows
  import opened CoreSpec
  import opened BurnTheory
  import opened BurnOrder
  import opened CoreInvariant
  import opened ChildIndex
  import opened Handshake
  import opened MarketCalls

  // ---------- a chain to work with ----------

  function FirstItems(k: nat): set<Item>
    requires k <= MAX_U32
  {
    set i: int | 0 <= i < k :: Item(0, i)
  }

  /** One collection of account `a`, and no NFT yet. */
  function Fresh(a: Account): Core {
    EMPTY_CORE.(collectionIndex := 1, collections := map[0 := CollectionInfo(a, None, 0)],
                collectionOwners := map[0 := a])
  }

  function Free(a: Account): NftInfo {
    NftInfo(AccountId(a), false, false, true)
  }

  /** ... and with `k` NFTs of `a` side by side. */
  function Flat(a: Account, k: u32): Core
    requires k > 0
  {
    Fresh(a).(collections := map[0 := CollectionInfo(a, None, k)],
              nextNftId := map[0 := k],
              nfts := map n | n in FirstItems(k) :: Free(a),
              owners := map n | n in FirstItems(k) :: a)
  }

  /** That is what `create_collection` and then `k` mints leave. */
  lemma FlatIsMinted(a: Account, k: u32)
    requires 0 < k < MAX_U32
    ensures CreateCollection(EMPTY_CORE, a, None) == Ok(Fresh(a))
    ensures MintNft(Fresh(a), a, None, 0, true, []) == Ok(Flat(a, 1))
    ensures MintNft(Flat(a, k), a, None, 0, true, []) == Ok(Flat(a, k + 1))
  {
    hide MintNft, Flat;
    FirstMint(a);
    NextMint(a, k);
  }

  lemma FirstMint(a: Account)
    ensures MintNft(Fresh(a), a, None, 0, true, []) == Ok(Flat(a, 1))
  {
    assert FirstItems(1) == {Item(0, 0)};
    var s, t := Fresh(a), Flat(a, 1);
    assert t.nfts == s.nfts[Item(0, 0) := Free(a)];
    assert t.owners == s.owners[Item(0, 0) := a];
    assert t.collections == s.collections[0 := CollectionInfo(a, None, 1)];
    assert t.nextNftId == s.nextNftId[0 := 1];
    hide Flat;
    assert OpenSlot(s, 0) == Ok((s.(nextNftId := t.nextNftId), Item(0, 0)));
  }

  lemma NextMint(a: Account, k: u32)
    requires 0 < k < MAX_U32
    ensures MintNft(Flat(a, k), a, None, 0, true, []) == Ok(Flat(a, k + 1))
  {
    assert FirstItems(k + 1) == FirstItems(k) + {Item(0, k)};
    assert Item(0, k) !in FirstItems(k);
    var s, t := Flat(a, k), Flat(a, k + 1);
    assert t.nfts == s.nfts[Item(0, k) := Free(a)];
    assert t.owners == s.owners[Item(0, k) := a];
    assert t.collections == s.collections[0 := CollectionInfo(a, None, k + 1)];
    assert t.nextNftId == s.nextNftId[0 := k + 1];
    hide FirstItems;
    assert OpenSlot(s, 0) == Ok((s.(nextNftId := t.nextNftId), Item(0, k)));
  }

  lemma FlatInv(a: Account, k: u32)
    requires a.User? && k > 0
    ensures CoreInv(Flat(a, k)) && LiveIn(Flat(a, k), 0) == FirstItems(k) && |FirstItems(k)| == k
    ensures forall x :: x in FirstItems(k) ==> RootedAt(Flat(a, k).owners, x, a)
  {
    EmptyInv();
    FirstItemsSize(k);
    var s := Flat(a, k);
    assert LinksOf(s.owners) == LinksOf(EMPTY_CORE.owners);
    assert s.nfts.Keys == FirstItems(k);
    assert LiveIn(s, 0) == FirstItems(k);
    assert Rooted(s.owners);
  }

  lemma {:induction false} FirstItemsSize(k: nat)
    requires k <= MAX_U32
    ensures |FirstItems(k)| == k
  {
    if k > 0 {
      FirstItemsSize(k - 1);
      assert FirstItems(k) == FirstItems(k - 1) + {Item(0, k - 1)};
      assert Item(0, k - 1) !in FirstItems(k - 1);
    } else {
      assert FirstItems(0) == {};
    }
  }

  // ---------- nesting by hand ----------

  /** Account `a` root-owns the live NFT `n` and may move it. */
  ghost predicate Movable(s: Core, a: Account, n: Item) {
    && Rooted(s.owners) && RootedAt(s.owners, n, a) && a.User?
    && Sellable(s, n) && n !in s.lock && n.collection in s.collectionOwners
  }

  /** What nests nothing cannot be above anything. */
  lemma NothingAbove(o: Owners, n: Item, x: Item)
    requires forall y :: y in o ==> o[y] != Virtual(n)
    ensures !Descends(LinksOf(o), x, n)
  {
    if Descends(LinksOf(o), x, n) {
      var c := DescendsLast(LinksOf(o), x, n);
    }
  }

  /** Putting an NFT without children into another NFT of the same account. */
  lemma Nest(s: Core, a: Account, n: Item, target: Item) returns (t: Core)
    requires Movable(s, a, n) && n != target && target in s.nfts && RootedAt(s.owners, target, a)
    requires forall y :: y in s.owners ==> s.owners[y] != Virtual(n)
    ensures Send(s, a, n, CollectionAndNftTuple(target)) == Ok(t)
    ensures t == s.(owners := s.owners[n := Virtual(target)],
                    nfts := s.nfts[n := s.nfts[n].(owner := CollectionAndNftTuple(target))],
                    children := AddChild(RemoveChild(s.children, s.owners[n], n), Virtual(target), n))
    ensures Rooted(t.owners) && forall x :: RootedAt(s.owners, x, a) ==> RootedAt(t.owners, x, a)
  {
    NothingAbove(s.owners, n, target);
    t := s.(owners := s.owners[n := Virtual(target)],
            nfts := s.nfts[n := s.nfts[n].(owner := CollectionAndNftTuple(target))],
            children := AddChild(RemoveChild(s.children, s.owners[n], n), Virtual(target), n));
    RootedAfterMove(s.owners, n, Virtual(target));
    hide Rooted, Descends, LookupRootOwner;
    forall x | RootedAt(s.owners, x, a)
      ensures RootedAt(t.owners, x, a)
    {
      RootsAfterMove(s.owners, n, Virtual(target), x);
    }
  }

  // ---------- two parents ----------

  const R := Item(0, 0)
  const P := Item(0, 1)
  const Q := Item(0, 2)
  const N := Item(0, 3)
  const U := Item(0, 4)

  function Under(p: Item): NftInfo {
    NftInfo(CollectionAndNftTuple(p), false, false, true)
  }

  /** `R` holds `P` and `Q`, `P` holds `N`; `U` lies apart. */
  function Nested(a: Account): Core {
    var s := Flat(a, 5);
    s.(nfts := s.nfts[P := Under(R)][Q := Under(R)][N := Under(P)],
       owners := s.owners[P := Virtual(R)][Q := Virtual(R)][N := Virtual(P)],
       children := {(R, P), (R, Q), (P, N)})
  }

  /** `N` accepted out of `P` for its own account: the row stays. */
  function Loose(a: Account): Core {
    Nested(a).(owners := Nested(a).owners[N := a])
  }

  /** ... and then sent to `Q`. */
  function TwoParents(a: Account): Core {
    var s := Nested(a);
    s.(nfts := s.nfts[N := Under(Q)],
       owners := s.owners[N := Virtual(Q)],
       children := s.children + {(Q, N)})
  }

  lemma ReachNested(a: Account) returns (s1: Core, s2: Core)
    requires a.User?
    ensures Send(Flat(a, 5), a, P, CollectionAndNftTuple(R)) == Ok(s1)
    ensures Send(s1, a, Q, CollectionAndNftTuple(R)) == Ok(s2)
    ensures Send(s2, a, N, CollectionAndNftTuple(P)) == Ok(Nested(a))
    ensures Rooted(Nested(a).owners) && forall x :: x in {R, P, Q, N, U} ==> RootedAt(Nested(a).owners, x, a)
  {
    hide CoreInv, Rooted, RootedAt, Send, CollectionsInv;
    FlatInv(a, 5);
    InvIsRooted(Flat(a, 5));
    assert FirstItems(5) == {R, P, Q, N, U};
    s1 := Nest(Flat(a, 5), a, P, R);
    s2 := Nest(s1, a, Q, R);
    var s3 := Nest(s2, a, N, P);
    assert s3.owners == Nested(a).owners;
    assert s3.nfts == Nested(a).nfts;
    assert s3.children == Nested(a).children;
  }

  lemma NestedIsIndexed(a: Account)
    requires a.User?
    ensures IndexInv(Nested(a)) && N in Nested(a).nfts
  {
    var s := Nested(a);
    assert FirstItems(5) == {R, P, Q, N, U};
    forall x | x in s.nfts
      ensures RowsMatch(s, x, {})
    {
      assert s.owners[x] == if x == P || x == Q then Virtual(R) else if x == N then Virtual(P) else a;
    }
  }

  /** A misnamed acceptance goes through and breaks an exact index. */
  lemma MisnamedAcceptance(a: Account)
    requires a.User?
    ensures IndexInv(Nested(a)) && AcceptNft(Nested(a), a, N, AccountId(a)) == Ok(Loose(a)) && !IndexInv(Loose(a))
  {
    hide Rooted, RootOf, AcceptNft, Nested, IndexInv;
    var s1, s2 := ReachNested(a);
    NestedIsIndexed(a);
    var s := Nested(a);
    AcceptToAccountIff(s, a, N, a);
    AcceptableN(a);
    LooseIsNotIndexed(a);
  }

  lemma AcceptableN(a: Account)
    ensures var s := Nested(a);
            && N in s.nfts && N !in s.lock && N.collection in s.collectionOwners
            && s.(owners := s.owners[N := a], nfts := s.nfts[N := s.nfts[N].(pending := false)]) == Loose(a)
  {
    var s := Nested(a);
    assert s.nfts[N := s.nfts[N].(pending := false)] == s.nfts;
  }

  lemma LooseIsNotIndexed(a: Account)
    requires a.User?
    ensures !IndexInv(Loose(a))
  {
    var t := Loose(a);
    assert N in t.nfts && (P, N) in t.children && !RowsMatch(t, N, {});
  }

  /** After the next send `N` has two rows. */
  lemma ReachTwoParents(a: Account)
    requires a.User?
    ensures Send(Loose(a), a, N, CollectionAndNftTuple(Q)) == Ok(TwoParents(a))
  {
    hide Rooted, Send, Descends, LookupRootOwner, RootOf;
    var s1, s2 := ReachNested(a);
    LooseRoots(a);
    var t := Nest(Loose(a), a, N, Q);
    assert t.owners == TwoParents(a).owners;
    assert t.nfts == TwoParents(a).nfts;
    assert t.children == TwoParents(a).children;
  }

  lemma LooseRoots(a: Account)
    requires a.User? && Rooted(Nested(a).owners) && RootedAt(Nested(a).owners, Q, a)
    ensures Rooted(Loose(a).owners) && RootedAt(Loose(a).owners, N, a) && RootedAt(Loose(a).owners, Q, a)
    ensures forall y :: y in Loose(a).owners ==> Loose(a).owners[y] != Virtual(N)
  {
    hide Descends, LookupRootOwner, Rooted, Nested;
    var o := Nested(a).owners;
    RootsAfterMove(o, N, a, N);
    RootsAfterMove(o, N, a, Q);
    NoneUnderN(a);
  }

  lemma NoneUnderN(a: Account)
    requires a.User?
    ensures forall y :: y in Loose(a).owners ==> Loose(a).owners[y] != Virtual(N)
  {
  }

  /** The rows of `TwoParents`. */
  const DIAMOND: Table := {(R, P), (R, Q), (P, N), (Q, N)}

  lemma ReachDiamond()
    ensures Reach(DIAMOND, R) == {R, P, Q, N} && Q in Reach(Avoiding(DIAMOND, N), R)
  {
    ReachLeast(DIAMOND, R, {R, P, Q, N});
    ChildReached(DIAMOND, R, P);
    ChildReached(DIAMOND, R, Q);
    ReachClosed(DIAMOND, R);
    assert (P, N).0 in Reach(DIAMOND, R);
    ChildReached(Avoiding(DIAMOND, N), R, Q);
  }

  lemma NTwice(a: Account)
    ensures TwoParents(a).children == DIAMOND && Twice(TwoParents(a), R, N)
  {
    hide Reach;
    ReachDiamond();
    var s := TwoParents(a);
    assert s.children == DIAMOND;
    assert Again(DIAMOND, s.nfts, R, P, N);
    assert Q != P && (Q, N) in DIAMOND && N != R;
  }

  /**
   Before the burn every count is right and nothing is dead; yet an order of draining counts `U` off, which is
   live.
   */
  lemma TwoParentsMiscount(a: Account) returns (t: Core)
    requires a.User?
    ensures CounterExact(TwoParents(a), 0) && Reach(TwoParents(a).children, R) <= TwoParents(a).nfts.Keys
    ensures Burns(TwoParents(a), R, 5, Ok(t)) && U in t.nfts && t.collections[0].nftsCount == 0
  {
    hide Reach, Twice, Burns, TwoParents, CoreInv;
    var s := TwoParents(a);
    ReachDiamond();
    NTwice(a);
    TwoParentsCounts(a);
    assert InCollection({R, P, Q, N}, 0) == {R, P, Q, N};
    t := BurnTwice(s, R, 5, 0, N);
    BurnsExact(s, R, 5, t);
    BurnsShrink(s, R, 5, Ok(t));
  }

  lemma TwoParentsCounts(a: Account)
    requires a.User?
    ensures var s := TwoParents(a);
            && s.nfts.Keys == {R, P, Q, N, U} && s.collections == map[0 := CollectionInfo(a, None, 5)]
            && CounterExact(s, 0)
  {
    FlatInv(a, 5);
    hide CoreInv;
    assert FirstItems(5) == {R, P, Q, N, U};
    assert TwoParents(a).nfts.Keys == FirstItems(5);
    assert LiveIn(TwoParents(a), 0) == LiveIn(Flat(a, 5), 0);
  }

  lemma ClearedR(a: Account)
    ensures var u := Cleared(TwoParents(a), R);
            && u.children == DIAMOND && IsCleared(u, R) && u.collections == TwoParents(a).collections
            && N in u.nfts && u.nfts[N] == Under(Q)
  {
    assert TwoParents(a).children == DIAMOND;
    assert TwoParents(a).nfts[R] == Free(a);
  }

  /** What is left to drain of the diamond after `P`: the record of `N` names `Q`, and that row went with `N`. */
  lemma AfterP(a: Account, t: Core)
    requires PrunedTo(WithoutRow(Cleared(TwoParents(a), R), (R, P)), {P, N}, t)
    ensures t.children == {(R, Q)}
  {
    hide TwoParents, Cleared;
    ClearedR(a);
    var s1 := WithoutRow(Cleared(TwoParents(a), R), (R, P));
    assert s1.children == {(R, Q), (P, N), (Q, N)};
    assert s1.nfts[N] == Under(Q);
    assert OwnRow(s1.nfts, (Q, N));
  }

  lemma ReachP()
    ensures Reach(DIAMOND - {(R, P)}, P) == {P, N} && TreeBelow(DIAMOND - {(R, P)}, P)
  {
    ReachLeast(DIAMOND - {(R, P)}, P, {P, N});
    ChildReached(DIAMOND - {(R, P)}, P, N);
  }

  lemma ReachRest()
    ensures Reach({(R, Q)}, R) == {R, Q} && Below({(R, Q)}, R) == {Q} && TreeBelow({(R, Q)}, R)
  {
    ReachLeast({(R, Q)}, R, {R, Q});
    ChildReached({(R, Q)}, R, Q);
  }

  /** If `P` is drained first, the count comes out right: the outcome of this burn depends on the order. */
  lemma OrderMatters(a: Account) returns (t: Core)
    requires a.User?
    ensures Burns(TwoParents(a), R, 5, Ok(t)) && t.nfts.Keys == {U} && t.collections[0].nftsCount == 1
  {
    hide Reach, Below, TreeBelow, Burns, Drains, TwoParents, CoreInv, NeverTwice, DrainsOnce, Pruned, Cleared;
    var s := TwoParents(a);
    var u := Cleared(s, R);
    var s1 := WithoutRow(u, (R, P));
    NTwice(a);
    ReachDiamond();
    ReachP();
    TwoParentsCounts(a);
    ClearedR(a);
    var t1 := BurnExists(s1, P, 4);
    ReachIsBelow(DIAMOND, R);
    var q := DrainOnExists(u, R, P, 4, t1);
    t := BurnFromDrain(s, R, 5, q);
    PAlone(a, t1, q);
    BurnsExact(s, R, 5, t);
    RemainingU(s, t);
  }

  /** `P` and `N` are counted off once each, then `Q`. */
  lemma PAlone(a: Account, t1: Core, q: Core)
    requires a.User?
    requires Burns(WithoutRow(Cleared(TwoParents(a), R), (R, P)), P, 4, Ok(t1)) && Drains(t1, R, 4, Ok(q))
    ensures 0 in q.collections && q.collections[0].nftsCount == 2
  {
    hide Reach, Below, TreeBelow, Burns, Drains, TwoParents, CoreInv, NeverTwice, DrainsOnce, Cleared, CounterExact;
    var s1 := WithoutRow(Cleared(TwoParents(a), R), (R, P));
    ReachP();
    ReachRest();
    TwoParentsCounts(a);
    ClearedR(a);
    BurnsExact(s1, P, 4, t1);
    AfterP(a, t1);
    TreeNeverTwice(s1, P, 0);
    BurnsCountOnce(s1, P, 4, t1, 0);
    BurnsCount(s1, P, 4, t1, 0);
    TreeDrainsOnce(t1, R, 0);
    DrainsCountOnce(t1, R, 4, q, 0);
    DrainsCount(t1, R, 4, q, 0);
    assert InCollection({P, N}, 0) == {P, N} && InCollection({Q}, 0) == {Q};
    assert |{P, N}| == 2;
  }

  lemma RemainingU(s: Core, t: Core)
    requires s.nfts.Keys == {R, P, Q, N, U} && PrunedTo(s, {R, P, Q, N}, t)
    ensures t.nfts.Keys == {U}
  {
  }

  // ---------- a mint without a row ----------

  lemma FlatIsIndexed(a: Account, k: u32)
    requires a.User? && k > 0
    ensures IndexInv(Flat(a, k))
  {
    var s := Flat(a, k);
    forall x | x in s.nfts
      ensures RowsMatch(s, x, {})
    {
    }
  }

  /** Minting straight into an NFT goes through on an exact index, and the new NFT has no row. */
  lemma DirectMint(a: Account) returns (t: Core)
    requires a.User?
    ensures IndexInv(Flat(a, 1)) && MintNftDirectlyToNft(Flat(a, 1), a, R, 0, true, []) == Ok(t)
    ensures P in t.nfts && t.owners[P] == Virtual(R) && t.children == {} && !IndexInv(t)
  {
    hide CoreInv, IdsInv, IndexInv, RootOf;
    var s := Flat(a, 1);
    FlatIsIndexed(a, 1);
    FlatInv(a, 1);
    InvHasIds(s);
    FlatHas(a, 1, R);
    FlatLacks(a, 1, P);
    hide Flat;
    t := MintNftDirectlyToNft(s, a, R, 0, true, []).value;
    MintDirectlyBreaksIndex(s, a, R, 0, true, [], t, {});
  }

  lemma FlatHas(a: Account, k: u32, x: Item)
    requires k > 0 && x in FirstItems(k)
    ensures var s := Flat(a, k);
            && x in s.nfts && x in s.owners && s.owners[x] == a && s.nfts[x] == Free(a)
            && x.collection == 0 && s.collectionOwners == map[0 := a] && s.lock == {} && s.children == {}
            && s.collections == map[0 := CollectionInfo(a, None, k)] && Count(s.nextNftId, 0) == k
  {
  }

  lemma FlatLacks(a: Account, k: u32, x: Item)
    requires k > 0 && x !in FirstItems(k)
    ensures x !in Flat(a, k).nfts && x !in Flat(a, k).owners
  {
  }

  // ---------- the row of an NFT that is gone ----------

  /** `R` belongs to `b`, the rest to `a`. */
  function HandedOver(a: Account, b: Account): Core {
    var s := Flat(a, 3);
    s.(nfts := s.nfts[R := Free(b)], owners := s.owners[R := b])
  }

  /** `a` has sent `P` to `R`: its record still names `a`. */
  function Offered(a: Account, b: Account): Core {
    var s := HandedOver(a, b);
    s.(nfts := s.nfts[P := Free(a).(pending := true)], owners := s.owners[P := Virtual(R)], children := {(R, P)})
  }

  lemma ReachHandedOver(a: Account, b: Account)
    requires a.User? && b.User? && a != b
    ensures Send(Flat(a, 3), a, R, AccountId(b)) == Ok(HandedOver(a, b))
    ensures Rooted(HandedOver(a, b).owners)
    ensures RootedAt(HandedOver(a, b).owners, R, b) && RootedAt(HandedOver(a, b).owners, P, a)
  {
    hide Descends, Flat;
    FlatHas(a, 3, R);
    FlatHas(a, 3, P);
    FlatInv(a, 3);
    hide CoreInv;
    var s := Flat(a, 3);
    assert s.owners[R] == a;
    InvIsRooted(s);
    RootedAfterMove(s.owners, R, b);
  }

  /** Sending an NFT into an NFT of somebody else. */
  lemma NestForeign(s: Core, a: Account, n: Item, target: Item, b: Account) returns (t: Core)
    requires Movable(s, a, n) && n != target && target in s.nfts && RootedAt(s.owners, target, b) && a != b
    requires !Descends(LinksOf(s.owners), target, n)
    ensures Send(s, a, n, CollectionAndNftTuple(target)) == Ok(t)
    ensures t == s.(owners := s.owners[n := Virtual(target)],
                    nfts := s.nfts[n := s.nfts[n].(pending := true)],
                    children := AddChild(RemoveChild(s.children, s.owners[n], n), Virtual(target), n))
    ensures Rooted(t.owners) && RootedAt(t.owners, n, b) && RootedAt(t.owners, target, b)
  {
    t := s.(owners := s.owners[n := Virtual(target)],
            nfts := s.nfts[n := s.nfts[n].(pending := true)],
            children := AddChild(RemoveChild(s.children, s.owners[n], n), Virtual(target), n));
    hide Rooted, Descends, LookupRootOwner;
    RootsAfterMove(s.owners, n, Virtual(target), n);
    RootsAfterMove(s.owners, n, Virtual(target), target);
  }

  lemma ReachOffered(a: Account, b: Account)
    requires a.User? && b.User? && a != b
    ensures Send(Flat(a, 3), a, R, AccountId(b)) == Ok(HandedOver(a, b))
    ensures Send(HandedOver(a, b), a, P, CollectionAndNftTuple(R)) == Ok(Offered(a, b))
    ensures Rooted(Offered(a, b).owners)
    ensures RootedAt(Offered(a, b).owners, P, b) && RootedAt(Offered(a, b).owners, R, b)
  {
    hide Rooted, RootOf, Send, Flat;
    ReachHandedOver(a, b);
    FlatHas(a, 3, R);
    FlatHas(a, 3, P);
    FlatOwners(a, 3);
    NothingAbove(HandedOver(a, b).owners, P, R);
    var t := NestForeign(HandedOver(a, b), a, P, R, b);
    assert t.children == {(R, P)};
  }

  lemma FlatOwners(a: Account, k: u32)
    requires k > 0
    ensures forall x :: x in Flat(a, k).owners ==> Flat(a, k).owners[x] == a
    ensures Flat(a, k).nfts.Keys == FirstItems(k)
  {
  }

  lemma OfferedShape(a: Account, b: Account)
    ensures var s := Offered(a, b);
            && s.nfts.Keys == s.owners.Keys == {R, P, Q} && s.owners[R] == b && s.nfts[P].owner == AccountId(a)
            && s.children == {(R, P)}
            && s.collections == map[0 := CollectionInfo(a, None, 3)] && s.collectionOwners == map[0 := a]
  {
    assert FirstItems(3) == {R, P, Q};
  }

  lemma OneRow()
    ensures Reach({(R, P)}, P) == {P} && Below({(R, P)}, P) == {} && Reach({(R, P)}, R) == {R, P}
  {
    ReachAlone({(R, P)}, P);
    ReachLeast({(R, P)}, R, {R, P});
    ChildReached({(R, P)}, R, P);
  }

  /** `b` burns the NFT it was offered: the row under `R` is not that of the record, and stays. */
  lemma OfferedBurnt(a: Account, b: Account) returns (t: Core)
    requires a.User? && b.User? && a != b
    ensures BurnNft(Offered(a, b), b, P, 2, Ok(t))
    ensures t.children == {(R, P)} && t.nfts.Keys == {R, Q} && RootedAt(t.owners, R, b)
    ensures t.collections == map[0 := CollectionInfo(a, None, 2)]
  {
    hide Rooted, LookupRootOwner, Reach, Below, Burns, Pruned, Offered;
    var s := Offered(a, b);
    ReachOffered(a, b);
    OfferedShape(a, b);
    OneRow();
    var u := BurnExists(s, P, 2);
    BurnsExact(s, P, 2, u);
    PGone(a, s, u);
    POff(a, s, u);
    t := u.(owners := u.owners - {P});
    BurnCompletes(s, b, P, 2, u);
    RootedAfterBurn(s.owners, P);
    RootIsOwner(t.owners, R);
  }

  lemma BurnCompletes(s: Core, b: Account, n: Item, maxBurns: u32, u: Core)
    requires RootedAt(s.owners, n, b) && Burns(s, n, maxBurns, Ok(u)) && n.collection in u.collectionOwners
    requires n in u.owners
    ensures BurnNft(s, b, n, maxBurns, Ok(u.(owners := u.owners - {n})))
  {
    hide Burns, LookupRootOwner, Rooted;
    assert ThenDoBurn(Ok(u), n) == Ok(u.(owners := u.owners - {n}));
  }

  lemma RootIsOwner(o: Owners, x: Item)
    requires Rooted(o) && x in o && o[x].User?
    ensures RootedAt(o, x, o[x])
  {
  }

  lemma PGone(a: Account, s: Core, u: Core)
    requires PrunedTo(s, {P}, u) && s.children == {(R, P)} && P in s.nfts && s.nfts[P].owner == AccountId(a)
    ensures u.children == {(R, P)} && u.nfts == s.nfts - {P}
    ensures u.owners == s.owners && u.collectionOwners == s.collectionOwners
  {
  }

  lemma POff(a: Account, s: Core, u: Core)
    requires s.children == {(R, P)} && s.collections == map[0 := CollectionInfo(a, None, 3)] && Burns(s, P, 2, Ok(u))
    ensures u.collections == map[0 := CollectionInfo(a, None, 2)]
  {
    hide Reach, Below, Burns;
    OneRow();
    TreeNeverTwice(s, P, 0);
    BurnsCount(s, P, 2, u, 0);
    BurnsCountOnce(s, P, 2, u, 0);
    BurnsShrink(s, P, 2, Ok(u));
    assert InCollection({P}, 0) == {P};
    assert CounterShrunk(s, u, 0);
  }

  /** When `b` then burns `R`, `P` is counted off once more, in every order: the count says 0, but `Q` is live. */
  lemma DeadNftCounted(a: Account, b: Account) returns (t: Core, u: Core)
    requires a.User? && b.User? && a != b
    ensures BurnNft(Offered(a, b), b, P, 2, Ok(t)) && RootedAt(t.owners, R, b)
    ensures CounterExact(t, 0) && TreeBelow(t.children, R)
    ensures Burns(t, R, 2, Ok(u)) && Q in u.nfts && u.collections[0].nftsCount == 0
  {
    hide Reach, Below, Burns, Offered, RootOf, BurnNft;
    t := OfferedBurnt(a, b);
    OneRow();
    assert LiveIn(t, 0) == {R, Q};
    u := BurnExists(t, R, 2);
    BurnsExact(t, R, 2, u);
    BurnsCount(t, R, 2, u, 0);
    assert InCollection({R, P}, 0) == {R, P};
    ReachIsBelow({(R, P)}, R);
    RIsTree();
  }

  lemma RIsTree()
    ensures TreeBelow({(R, P)}, R)
  {
  }
}
