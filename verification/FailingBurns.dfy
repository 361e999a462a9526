/**
 Burns and rejections that depend on the order of draining, or can never succeed, or leave live NFTs without
 a root.
 */
module FailingBurns {
  import opened Prelude
  import opened AccountCodec
  import opened Forest
  import opened Ownership
  import opened Rows
  import opened CoreSpec
  import opened BurnTheory
  import opened BurnOrder
  import opened BurnBudget
  import opened CoreInvariant
  import opened ChildIndex
  import opened Handshake
  import opened MarketCalls
  import opened FailingInputs

  // ---------- success depends on the order ----------

  /** `R` has rows to `P` and `Q`, and `P` one to `Q`, which its record names. */
  function Shortcut(a: Account): Core {
    var s := Flat(a, 3);
    s.(nfts := s.nfts[P := Under(R)][Q := Under(P)],
       owners := s.owners[P := Virtual(R)][Q := Virtual(P)],
       children := {(R, P), (R, Q), (P, Q)})
  }

  /** An acceptance out of an NFT, for the root owner's account. */
  lemma AcceptOut(s: Core, a: Account, n: Item) returns (t: Core)
    requires Movable(s, a, n)
    ensures AcceptNft(s, a, n, AccountId(a)) == Ok(t)
    ensures t == s.(owners := s.owners[n := a], nfts := s.nfts[n := s.nfts[n].(pending := false)])
    ensures Rooted(t.owners) && forall x :: RootedAt(s.owners, x, a) ==> RootedAt(t.owners, x, a)
  {
    hide Rooted, Descends, LookupRootOwner;
    AcceptToAccountIff(s, a, n, a);
    t := s.(owners := s.owners[n := a], nfts := s.nfts[n := s.nfts[n].(pending := false)]);
    RootedAfterMove(s.owners, n, a);
    forall x | RootedAt(s.owners, x, a)
      ensures RootedAt(t.owners, x, a)
    {
      RootsAfterMove(s.owners, n, a, x);
    }
  }

  /** `P` and `Q` side by side in `R`. */
  function SideBySide(a: Account): Core {
    var s := Flat(a, 3);
    s.(nfts := s.nfts[P := Under(R)][Q := Under(R)],
       owners := s.owners[P := Virtual(R)][Q := Virtual(R)],
       children := {(R, P), (R, Q)})
  }

  lemma ReachSideBySide(a: Account) returns (s1: Core)
    requires a.User?
    ensures Send(Flat(a, 3), a, P, CollectionAndNftTuple(R)) == Ok(s1)
    ensures Send(s1, a, Q, CollectionAndNftTuple(R)) == Ok(SideBySide(a))
    ensures Rooted(SideBySide(a).owners) && forall x :: x in {R, P, Q} ==> RootedAt(SideBySide(a).owners, x, a)
  {
    hide CoreInv, Rooted, RootedAt, Send, CollectionsInv;
    FlatInv(a, 3);
    InvIsRooted(Flat(a, 3));
    assert FirstItems(3) == {R, P, Q};
    s1 := Nest(Flat(a, 3), a, P, R);
    var s2 := Nest(s1, a, Q, R);
    assert s2.owners == SideBySide(a).owners;
    assert s2.nfts == SideBySide(a).nfts;
    assert s2.children == SideBySide(a).children;
  }

  /** Send, send, accept for one's own account, send: all go through. */
  lemma ReachShortcut(a: Account) returns (s1: Core, s3: Core)
    requires a.User?
    ensures Send(Flat(a, 3), a, P, CollectionAndNftTuple(R)) == Ok(s1)
    ensures Send(s1, a, Q, CollectionAndNftTuple(R)) == Ok(SideBySide(a))
    ensures AcceptNft(SideBySide(a), a, Q, AccountId(a)) == Ok(s3)
    ensures Send(s3, a, Q, CollectionAndNftTuple(P)) == Ok(Shortcut(a))
    ensures RootedAt(Shortcut(a).owners, R, a)
  {
    hide Rooted, RootedAt, Send, AcceptNft;
    s1 := ReachSideBySide(a);
    assert FirstItems(3) == {R, P, Q};
    s3 := AcceptOut(SideBySide(a), a, Q);
    var s4 := Nest(s3, a, Q, P);
    assert s4.owners == Shortcut(a).owners;
    assert s4.nfts == Shortcut(a).nfts;
    assert s4.children == Shortcut(a).children;
  }

  /** With nothing below it, an NFT burns on a budget of one. */
  lemma LeafBurns(s: Core, n: Item, b: nat) returns (t: Core)
    requires RowsOf(s.children, n) == {} && b > 0 && n.collection in s.collections
    ensures Burns(s, n, b, Ok(t)) && PrunedTo(s, {n}, t)
  {
    var u := Cleared(s, n);
    assert RowsOf(u.children, n) <= RowsOf(s.children, n);
    assert Drains(u, n, b - 1, Ok(u));
    t := BurnFromDrain(s, n, b, u);
    BurnsExact(s, n, b, t);
    NothingBelow(u, n);
    ClearedReaches(s, n);
    ReachIsBelow(u.children, n);
  }

  lemma ShortcutShape(a: Account)
    ensures var s := Shortcut(a);
            && s.nfts.Keys == {R, P, Q} && s.nfts[R] == Free(a) && s.nfts[P] == Under(R) && s.nfts[Q] == Under(P)
            && s.children == {(R, P), (R, Q), (P, Q)} && 0 in s.collections
            && Cleared(s, R) == s.(nfts := s.nfts - {R})
  {
    assert FirstItems(3) == {R, P, Q};
    assert Cleared(Shortcut(a), R).resources == Shortcut(a).resources;
    assert Cleared(Shortcut(a), R).children == Shortcut(a).children;
  }

  /** With `Q` burnt first its row under `P` is gone, and two levels are enough. */
  lemma ShortcutBurns(a: Account) returns (t: Core)
    requires a.User?
    ensures Burns(Shortcut(a), R, 2, Ok(t))
  {
    hide Shortcut, Burns, Drains, Cleared;
    ShortcutShape(a);
    var s := Shortcut(a);
    var u := Cleared(s, R);
    var u1 := WithoutRow(u, (R, Q));
    assert RowsOf(u1.children, Q) == {};
    var t1 := LeafBurns(u1, Q, 1);
    assert OwnRow(u1.nfts, (P, Q));
    assert t1.children == {(R, P)};
    var u2 := WithoutRow(t1, (R, P));
    assert u2.children == {};
    LeafKeeps(u1, Q, t1);
    var t2 := LeafBurns(u2, P, 1);
    LeafKeeps(u2, P, t2);
    DrainedAll(t2, R, 1);
    DrainStarts(t1, R, P, 1, t2, t2);
    DrainStarts(u, R, Q, 1, t1, t2);
    t := BurnFromDrain(s, R, 2, t2);
  }

  lemma LeafKeeps(s: Core, n: Item, t: Core)
    requires Burns(s, n, 1, Ok(t))
    ensures t.children <= s.children && t.collections.Keys == s.collections.Keys
  {
    BurnsShrink(s, n, 1, Ok(t));
  }

  lemma DrainedAll(s: Core, n: Item, b: nat)
    requires s.children == {}
    ensures Drains(s, n, b, Ok(s))
  {
  }

  /** With `P` burnt first, three levels are needed: the same burn runs out of the same budget. */
  lemma ShortcutRunsOut(a: Account)
    ensures Burns(Shortcut(a), R, 2, Err(TooManyRecursions))
    ensures Reach(Shortcut(a).children, R) <= Shortcut(a).nfts.Keys && !ChainsFit(Shortcut(a).children, R, 2)
  {
    hide Shortcut, Burns, Reach;
    ShortcutShape(a);
    var s := Shortcut(a);
    var rel := s.children;
    var left := Entered(rel, s.nfts, R) - {(R, P)};
    assert left == {(R, Q), (P, Q)};
    var below := Entered(left, s.nfts, P) - {(P, Q)};
    assert WayDown(below, s.nfts, Q, 0);
    WayDownStarts(left, s.nfts, P, Q, 1);
    WayDownStarts(rel, s.nfts, R, P, 2);
    BurnMayRunOut(s, R, 2);
    ReachLeast(rel, R, {R, P, Q});
    var x := WayDownIsChain(rel, s.nfts, R, 2);
    assert Hops(rel, R, x, 2);
  }

  // ---------- a live NFT without a root owner ----------

  /** Burning the parent of an NFT minted straight into it leaves that NFT live, its owner gone. */
  lemma DirectMintOrphaned(a: Account) returns (t: Core, u: Core)
    requires a.User?
    ensures MintNftDirectlyToNft(Flat(a, 1), a, R, 0, true, []) == Ok(t)
    ensures BurnNft(t, a, R, 1, Ok(u)) && P in u.nfts && RootOf(u.owners, P).Err?
  {
    hide CoreInv, RootOf, Burns, BurnNft, Reach, IdsInv;
    t := DirectMint(a);
    DirectMintFacts(a, t);
    FlatInv(a, 1);
    var v := LeafBurns(t, R, 1);
    BurnNftIsBurn(t, a, R, 1, Ok(v));
    u := ThenDoBurn(Ok(v), R).value;
    NoRoot(u.owners, P, R);
  }

  lemma NoRoot(o: Owners, x: Item, p: Item)
    requires x in o && o[x] == Virtual(p) && p !in o
    ensures RootOf(o, x).Err?
  {
  }

  lemma DirectMintFacts(a: Account, t: Core)
    requires a.User? && MintNftDirectlyToNft(Flat(a, 1), a, R, 0, true, []) == Ok(t) && t.children == {}
    requires P in t.nfts && P in t.owners && t.owners[P] == Virtual(R)
    ensures CoreInv(t) && RootedAt(t.owners, R, a) && R in t.owners && RowsOf(t.children, R) == {} && 0 in t.collections
  {
    var s := Flat(a, 1);
    hide CoreInv, IdsInv, Rooted;
    FlatInv(a, 1);
    FlatHas(a, 1, R);
    hide Flat, MintNftDirectlyToNft, LookupRootOwner;
    MintDirectlyEffect(s, a, R, 0, true, [], t);
    var pending := RootOf(s.owners, R).value.0 != a;
    MintKeepsInv(s, t, 0, Virtual(R), NftInfo(CollectionAndNftTuple(R), false, pending, true));
    InvIsRooted(t);
    RootIsOwner(t.owners, R);
  }

  // ---------- a row to a destroyed collection ----------

  /** An NFT of a second collection. */
  const X := Item(1, 0)

  /** `b` has collection 0 with `R`, `a` has collection 1 with `X`. */
  function TwoHouses(a: Account, b: Account): Core {
    var s := Flat(b, 1);
    s.(collectionIndex := 2,
       collections := map[0 := CollectionInfo(b, None, 1), 1 := CollectionInfo(a, None, 1)],
       collectionOwners := map[0 := b, 1 := a],
       nextNftId := map[0 := 1, 1 := 1],
       nfts := s.nfts[X := Free(a)],
       owners := s.owners[X := a])
  }

  lemma ReachTwoHouses(a: Account, b: Account) returns (s: Core)
    ensures CreateCollection(Flat(b, 1), a, None) == Ok(s)
    ensures MintNft(s, a, None, 1, true, []) == Ok(TwoHouses(a, b))
  {
    hide MintNft, TwoHouses, Flat;
    FlatHas(b, 1, R);
    FlatPlainIds(b);
    s := CreateCollection(Flat(b, 1), a, None).value;
    MintX(a, b, s);
  }

  lemma FlatPlainIds(b: Account)
    ensures Flat(b, 1).collectionIndex == 1 && Flat(b, 1).nextNftId == map[0 := 1]
  {
  }

  lemma MintX(a: Account, b: Account, s: Core)
    requires s == Flat(b, 1).(collectionIndex := 2,
                              collections := map[0 := CollectionInfo(b, None, 1)][1 := CollectionInfo(a, None, 0)],
                              collectionOwners := map[0 := b][1 := a])
    ensures MintNft(s, a, None, 1, true, []) == Ok(TwoHouses(a, b))
  {
    var t := TwoHouses(a, b);
    FlatLacks(b, 1, X);
    FlatPlainIds(b);
    hide Flat;
    assert t.collections == s.collections[1 := CollectionInfo(a, None, 1)];
    assert t.nextNftId == s.nextNftId[1 := 1];
    assert t.collectionOwners == s.collectionOwners;
    assert OpenSlot(s, 1) == Ok((s.(nextNftId := t.nextNftId), X));
  }

  lemma HousesShape(a: Account, b: Account)
    requires a.User? && b.User?
    ensures var s := TwoHouses(a, b);
            && s.nfts.Keys == s.owners.Keys == {R, X} && s.nfts[X] == Free(a) && s.owners == map[R := b, X := a]
            && s.children == {} && s.lock == {} && Rooted(s.owners)
            && RootedAt(s.owners, R, b) && RootedAt(s.owners, X, a)
  {
    var s := TwoHouses(a, b);
    assert FirstItems(1) == {R};
    EmptyInv();
    assert LinksOf(s.owners) == LinksOf(EMPTY_CORE.owners);
    assert Rooted(s.owners);
    hide Rooted;
    RootIsOwner(s.owners, R);
    RootIsOwner(s.owners, X);
  }

  /** `a` sends `X` to `R`, `b` burns it, `a` destroys its collection: the row is still there. */
  lemma ReachDeadRow(a: Account, b: Account) returns (s: Core, t: Core, w: Core)
    requires a.User? && b.User? && a != b
    ensures Send(TwoHouses(a, b), a, X, CollectionAndNftTuple(R)) == Ok(s)
    ensures BurnNft(s, b, X, 2, Ok(t))
    ensures DestroyCollection(t, a, 1) == Ok(w)
    ensures (R, X) in w.children && 1 !in w.collections && R in w.nfts && RootedAt(w.owners, R, b)
  {
    hide Rooted, RootOf, Burns, BurnNft, Send, TwoHouses, Descends, Reach;
    var h := TwoHouses(a, b);
    HousesShape(a, b);
    NothingAbove(h.owners, X, R);
    s := NestForeign(h, a, X, R, b) by { HousesTables(a, b); }
    HousesTables(a, b);
    assert s.children == {(R, X)};
    assert RowsOf(s.children, X) == {};
    var u := LeafBurns(s, X, 2);
    XOff(s, u);
    BurnCompletes(s, b, X, 2, u);
    t := u.(owners := u.owners - {X});
    RootedAfterBurn(s.owners, X);
    RootIsOwner(t.owners, R);
    assert ItemsOf(t.owners, 1) == {};
    w := DestroyCollection(t, a, 1).value;
  }

  lemma HousesTables(a: Account, b: Account)
    ensures var s := TwoHouses(a, b);
            && s.collections == map[0 := CollectionInfo(b, None, 1), 1 := CollectionInfo(a, None, 1)]
            && s.collectionOwners == map[0 := b, 1 := a]
  {
  }

  lemma XOff(s: Core, u: Core)
    requires s.children == {(R, X)} && 1 in s.collections && s.collections[1].nftsCount == 1
    requires X in s.nfts && s.nfts[X].owner.AccountId? && Burns(s, X, 2, Ok(u)) && PrunedTo(s, {X}, u)
    ensures u.children == {(R, X)} && u.nfts == s.nfts - {X} && u.owners == s.owners
    ensures u.collectionOwners == s.collectionOwners && 1 in u.collections && u.collections[1].nftsCount == 0
  {
    BurnsCount(s, X, 2, u, 1);
    ReachClosed(s.children, X);
    hide Reach, Burns;
    var gone := InCollection(Reach(s.children, X), 1);
    assert X in gone;
  }

  /** From then on no burn of `R` succeeds, whoever asks, whatever the budget; the tree below `R` is one row. */
  lemma DeadRowInput(a: Account, b: Account) returns (w: Core)
    requires a.User? && b.User? && a != b
    ensures R in w.nfts && RootedAt(w.owners, R, b)
    ensures forall sender, budget: nat, r :: BurnNft(w, sender, R, budget, r) ==> r.Err?
  {
    var s, t, w' := ReachDeadRow(a, b);
    w := w';
    ReachClosed(w.children, R);
    assert (R, X).0 in Reach(w.children, R);
    hide Reach, Burns, BurnNft, RootOf;
    forall sender, budget: nat, r | BurnNft(w, sender, R, budget, r)
      ensures r.Err?
    {
      if r.Ok? {
        var u := BurnNftEffect(w, sender, R, budget, r.value);
        BurnNeedsCollections(w, R, budget, u);
      }
    }
  }

  // ---------- a pending NFT that can never be rejected ----------

  /** The NFTs to be nested in one another, the top one first. */
  function Rung(i: nat): Item
    requires i < MAX_U32
  {
    Item(0, i + 1)
  }

  /** Of `L + 2` NFTs side by side, `R` apart, `j` rungs hang below the first. */
  ghost predicate Ladder(s: Core, a: Account, L: nat, j: nat)
    requires j <= L <= MAX_U32 - 2
  {
    && CoreInv(s) && IndexInv(s)
    && s.nfts.Keys == s.owners.Keys == FirstItems(L + 2) && s.lock == {} && s.collectionOwners == map[0 := a]
    && (forall x :: x in s.nfts ==> Sellable(s, x) && RootedAt(s.owners, x, a))
    && s.owners[R] == a
    && (forall i: nat :: j < i <= L ==> s.owners[Rung(i)] == a)
    && (forall i: nat, y :: j <= i <= L && y in s.owners ==> s.owners[y] != Virtual(Rung(i)))
    && s.owners[Rung(0)] == a
    && Hops(s.children, Rung(0), Rung(j), j)
  }

  lemma LadderFoot(a: Account, L: nat)
    requires a.User? && L <= MAX_U32 - 2
    ensures Ladder(Flat(a, L + 2), a, L, 0)
  {
    hide CoreInv, RootedAt, IndexInv;
    FlatInv(a, L + 2);
    FlatIsIndexed(a, L + 2);
    FlatOwners(a, L + 2);
    var s := Flat(a, L + 2);
    forall x | x in s.nfts
      ensures Sellable(s, x) && RootedAt(s.owners, x, a)
    {
      FlatHas(a, L + 2, x);
    }
    FlatHas(a, L + 2, R);
    assert Hops(Flat(a, L + 2).children, Rung(0), Rung(0), 0);
  }

  /** One more rung. */
  lemma LadderStep(s: Core, a: Account, L: nat, j: nat) returns (t: Core)
    requires a.User? && j < L <= MAX_U32 - 2 && Ladder(s, a, L, j)
    ensures Send(s, a, Rung(j + 1), CollectionAndNftTuple(Rung(j))) == Ok(t) && Ladder(t, a, L, j + 1)
  {
    hide CoreInv, RootedAt, IndexInv, IndexInvBut, Send, Hops, Rooted;
    var n, target := Rung(j + 1), Rung(j);
    InvIsRooted(s);
    assert n in FirstItems(L + 2) && target in FirstItems(L + 2);
    t := Nest(s, a, n, target);
    LadderInvs(s, a, n, target, t);
    HopsMonotone(t.children, s.children, Rung(0), target, j);
    OneMoreHop(t.children, Rung(0), target, n, j);
  }

  lemma OneMoreHop(rel: Table, n: Item, y: Item, x: Item, k: nat)
    requires Hops(rel, n, y, k) && (y, x) in rel
    ensures Hops(rel, n, x, k + 1)
  {
  }

  lemma LadderInvs(s: Core, a: Account, n: Item, target: Item, t: Core)
    requires CoreInv(s) && IndexInv(s) && Send(s, a, n, CollectionAndNftTuple(target)) == Ok(t)
    ensures CoreInv(t) && IndexInv(t)
  {
    hide CoreInv, IndexInvBut, Send, Rooted;
    InvIsRooted(s);
    SendEffect(s, a, n, CollectionAndNftTuple(target), t);
    MoveKeepsInv(s, t, n, Virtual(target));
    SendKeepsIndex(s, a, n, CollectionAndNftTuple(target), t, {});
    assert {} - {n} == {};
  }

  /** The sends that build the ladder, one after the other, from what mints leave. */
  ghost predicate Climbs(states: seq<Core>, a: Account, L: nat)
    requires L <= MAX_U32 - 2
  {
    && |states| > 0 && |states| <= L + 1 && states[0] == Flat(a, L + 2)
    && forall i: nat :: i < |states| - 1 ==> Climb(states, a, i)
  }

  ghost predicate Climb(states: seq<Core>, a: Account, i: nat)
    requires i < |states| - 1 < MAX_U32
  {
    Send(states[i], a, Rung(i + 1), CollectionAndNftTuple(Rung(i))) == Ok(states[i + 1])
  }

  lemma {:induction false} BuildLadder(a: Account, L: nat, j: nat) returns (states: seq<Core>)
    requires a.User? && j <= L <= MAX_U32 - 2
    ensures Climbs(states, a, L) && |states| == j + 1 && Ladder(states[j], a, L, j)
    decreases j
  {
    hide Ladder, Send, Flat;
    if j == 0 {
      LadderFoot(a, L);
      states := [Flat(a, L + 2)];
    } else {
      var lower := BuildLadder(a, L, j - 1);
      var t := LadderStep(lower[j - 1], a, L, j - 1);
      states := lower + [t];
      forall i: nat | i < j
        ensures Climb(states, a, i)
      {
        assert i < j - 1 ==> Climb(lower, a, i);
      }
    }
  }

  /**
   For every limit: `a` builds a ladder one NFT longer, hands `R` to `b` and sends the ladder to `R`. It is pending, and
   neither `b` nor anybody else can ever reject it.
   */
  lemma NeverRejected(a: Account, b: Account, L: nat) returns (states: seq<Core>, s: Core, t: Core)
    requires a.User? && b.User? && a != b && L <= MAX_U32 - 2
    ensures Climbs(states, a, L) && |states| == L + 1
    ensures Send(states[L], a, R, AccountId(b)) == Ok(s)
    ensures Send(s, a, Rung(0), CollectionAndNftTuple(R)) == Ok(t)
    ensures Rung(0) in t.nfts && t.nfts[Rung(0)].pending && RootedAt(t.owners, Rung(0), b)
    ensures forall sender, r :: RejectNft(t, sender, Rung(0), L, r) ==> r.Err?
  {
    hide Ladder, Send, Climbs, RejectNft, Rooted, RootOf, TreeBelow;
    states := BuildLadder(a, L, L);
    s, t := OfferLadder(states[L], a, b, L);
    forall sender, r | RejectNft(t, sender, Rung(0), L, r)
      ensures r.Err?
    {
      RejectNftOutcome(t, sender, Rung(0), L, r);
    }
  }

  lemma OfferLadder(l: Core, a: Account, b: Account, L: nat) returns (s: Core, t: Core)
    requires a.User? && b.User? && a != b && L <= MAX_U32 - 2 && Ladder(l, a, L, L)
    ensures Send(l, a, R, AccountId(b)) == Ok(s)
    ensures Send(s, a, Rung(0), CollectionAndNftTuple(R)) == Ok(t)
    ensures Rung(0) in t.nfts && t.nfts[Rung(0)].pending && RootedAt(t.owners, Rung(0), b)
    ensures CoreInv(t) && TreeBelow(t.children, Rung(0)) && !ChainsFit(t.children, Rung(0), L)
  {
    hide CoreInv, RootedAt, IndexInv, IndexInvBut, Send, Hops, Rooted, TreeBelow, Descends;
    assert R in FirstItems(L + 2) && Rung(0) in FirstItems(L + 2);
    InvIsRooted(l);
    s := HandOver(l, a, b, R, Rung(0));
    ROnTop(s.owners, b);
    t := NestForeign(s, a, Rung(0), R, b);
    LadderInvs(s, a, Rung(0), R, t);
    IndexIsTree(t, {}, Rung(0)) by { UnfoldIndex(t); }
    LongChain(l.children, t.children, L);
  }

  lemma UnfoldIndex(s: Core)
    requires IndexInv(s)
    ensures IndexInvBut(s, {})
  {
  }

  lemma LongChain(rel: Table, rel': Table, L: nat)
    requires L < MAX_U32 && Hops(rel, Rung(0), Rung(L), L) && rel <= rel'
    ensures !ChainsFit(rel', Rung(0), L)
  {
    HopsMonotone(rel', rel, Rung(0), Rung(L), L);
  }

  lemma ROnTop(o: Owners, b: Account)
    requires R in o && o[R].User?
    ensures !Descends(LinksOf(o), R, Rung(0))
  {
    DescendsStep(LinksOf(o), R, Rung(0));
  }

  /** An NFT given away; `x` is not below it. */
  lemma HandOver(l: Core, a: Account, b: Account, n: Item, x: Item) returns (s: Core)
    requires CoreInv(l) && IndexInv(l) && b.User? && Movable(l, a, n) && l.owners[n] == a
    requires x in l.owners && l.owners[x] == a && x != n && RootedAt(l.owners, x, a)
    ensures Send(l, a, n, AccountId(b)) == Ok(s) && CoreInv(s) && IndexInv(s) && Rooted(s.owners)
    ensures s == l.(owners := l.owners[n := b], nfts := s.nfts) && s.nfts.Keys == l.nfts.Keys
    ensures x in l.nfts ==> s.nfts[x] == l.nfts[x]
    ensures RootedAt(s.owners, n, b) && RootedAt(s.owners, x, a)
  {
    hide CoreInv, IndexInvBut, Rooted;
    InvIsRooted(l);
    s := Send(l, a, n, AccountId(b)).value;
    SendEffect(l, a, n, AccountId(b), s);
    hide Send;
    MoveKeepsInv(l, s, n, b);
    SendKeepsIndex(l, a, n, AccountId(b), s, {});
    assert {} - {n} == {};
    InvIsRooted(s);
    RootIsOwner(s.owners, n);
    RootIsOwner(s.owners, x);
  }
}
