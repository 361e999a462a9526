/** Equipped NFTs that the calls treat otherwise than one would hope. */
module FailingSlots {
  import opened Prelude
  import opened AccountCodec
  import opened Ownership
  import opened CoreSpec
  import opened CoreInvariant
  import opened Handshake
  import opened EquipSpec
  import opened EquipTheory
  import opened FailingInputs

  // `R` is to hold `P` in slot 1 and `Q` in slot 2 of base 0
  const ONE := SlotKey(R, 0, 1)
  const TWO := SlotKey(R, 0, 2)

  /** Adding a resource, as the issuer and root owner of an unlocked NFT. */
  lemma AddOwn(s: Core, a: Account, n: Item, resource: Resource) returns (t: Core)
    requires RootedAt(s.owners, n, a) && n !in s.lock && n.collection in s.collections
    requires s.collections[n.collection].issuer == a && n !in s.nextResourceId
    ensures ResourceAdd(s, a, n, resource, false) == Ok(t)
    ensures t == s.(nextResourceId := s.nextResourceId[n := 1],
                    resources := s.resources[(n, 0) := ResourceInfo(false, resource)],
                    equippableBases := s.equippableBases + BaseRows(n, resource),
                    equippableSlots := s.equippableSlots + SlotRows(n, 0, resource))
  {
    hide RootOf;
    t := ResourceAdd(s, a, n, resource, false).value;
  }

  /** Three NFTs of `a`, with the resources to equip `P` and `Q` into `R`. */
  lemma Prepared(a: Account) returns (s1: Core, s2: Core, s3: Core)
    requires a.User?
    ensures ResourceAdd(Flat(a, 3), a, R, Composable(0, None), false) == Ok(s1)
    ensures ResourceAdd(s1, a, P, Resource.Slot(0, 1), false) == Ok(s2)
    ensures ResourceAdd(s2, a, Q, Resource.Slot(0, 2), false) == Ok(s3)
    ensures s3 == Flat(a, 3).(nextResourceId := s3.nextResourceId, resources := s3.resources,
                              equippableBases := s3.equippableBases, equippableSlots := s3.equippableSlots)
    ensures (R, 0) in s3.equippableBases && {(P, 0, 0, 1), (Q, 0, 0, 2)} <= s3.equippableSlots
  {
    hide RootOf, Flat, ResourceAdd, CoreInv;
    FlatInv(a, 3);
    FlatHas(a, 3, R);
    FlatHas(a, 3, P);
    FlatHas(a, 3, Q);
    FlatPlain(a, 3);
    s1 := AddOwn(Flat(a, 3), a, R, Composable(0, None));
    s2 := AddOwn(s1, a, P, Resource.Slot(0, 1));
    s3 := AddOwn(s2, a, Q, Resource.Slot(0, 2));
  }

  /** ... and both nested in `R`. */
  lemma Dressed(a: Account, s3: Core) returns (s4: Core, s: Core)
    requires a.User?
    requires s3 == Flat(a, 3).(nextResourceId := s3.nextResourceId, resources := s3.resources,
                               equippableBases := s3.equippableBases, equippableSlots := s3.equippableSlots)
    ensures Send(s3, a, P, CollectionAndNftTuple(R)) == Ok(s4)
    ensures Send(s4, a, Q, CollectionAndNftTuple(R)) == Ok(s)
    ensures s == s3.(nfts := s.nfts, owners := s.owners, children := s.children)
    ensures s.nfts.Keys == {R, P, Q} && s.nfts[P] == s.nfts[Q] == Under(R)
    ensures s.lock == {} && s.collectionOwners == map[0 := a]
    ensures forall x :: x in {R, P, Q} ==> RootedAt(s.owners, x, a)
  {
    hide Rooted, RootOf, Send, Flat, CoreInv;
    FlatInv(a, 3);
    InvIsRooted(Flat(a, 3));
    FlatOwners(a, 3);
    assert FirstItems(3) == {R, P, Q};
    FlatHas(a, 3, R);
    FlatHas(a, 3, P);
    FlatHas(a, 3, Q);
    s4 := Nest(s3, a, P, R);
    s := Nest(s4, a, Q, R);
  }

  lemma FlatPlain(a: Account, k: u32)
    requires k > 0
    ensures Flat(a, k).nextResourceId == map[]
  {
  }

  const TWO_SLOTS := [SlotPart(1, All), SlotPart(2, All)]

  lemma BaseIsCreated(a: Account) returns (e: Equip)
    ensures BaseCreate(Equip(0, map[], map[], map[]), a, TWO_SLOTS) == Ok(e)
    ensures e.equippings == map[]
    ensures (0, 1) in e.parts && e.parts[(0, 1)] == SlotPart(1, All)
    ensures (0, 2) in e.parts && e.parts[(0, 2)] == SlotPart(2, All)
  {
    e := BaseCreate(Equip(0, map[], map[], map[]), a, TWO_SLOTS).value;
    assert TWO_SLOTS[..1] == [SlotPart(1, All)];
    assert TWO_SLOTS[..1][..0] == [];
  }

  /** A dressed `R` with a base of two slots: everything a call on slots 1 and 2 asks for. */
  ghost predicate Ready(a: Account, s: Core, e: Equip) {
    && s.nfts.Keys == {R, P, Q} && s.nfts[P] == s.nfts[Q] == Under(R)
    && (R, 0) in s.equippableBases && {(P, 0, 0, 1), (Q, 0, 0, 2)} <= s.equippableSlots
    && s.lock == {} && s.collectionOwners == map[0 := a] && (forall x :: x in {R, P, Q} ==> RootedAt(s.owners, x, a))
    && e.equippings == map[] && (0, 1) in e.parts && (0, 2) in e.parts
    && e.parts[(0, 1)] == SlotPart(1, All) && e.parts[(0, 2)] == SlotPart(2, All)
  }

  /** Such a state is reached from the empty chain by ordinary calls: see `FlatIsMinted` for the mints. */
  lemma ReadyIsReached(a: Account) returns (s1: Core, s2: Core, s3: Core, s4: Core, s: Core, e: Equip)
    requires a.User?
    ensures ResourceAdd(Flat(a, 3), a, R, Composable(0, None), false) == Ok(s1)
    ensures ResourceAdd(s1, a, P, Resource.Slot(0, 1), false) == Ok(s2)
    ensures ResourceAdd(s2, a, Q, Resource.Slot(0, 2), false) == Ok(s3)
    ensures Send(s3, a, P, CollectionAndNftTuple(R)) == Ok(s4)
    ensures Send(s4, a, Q, CollectionAndNftTuple(R)) == Ok(s)
    ensures BaseCreate(Equip(0, map[], map[], map[]), a, TWO_SLOTS) == Ok(e)
    ensures Ready(a, s, e)
  {
    hide RootOf, Send, ResourceAdd, BaseCreate, Flat;
    s1, s2, s3 := Prepared(a);
    s4, s := Dressed(a, s3);
    e := BaseIsCreated(a);
  }

  /** The wrongly named call: `Q` sits in slot 2, the call names it on slot 1, where `P` sits. */
  lemma WrongNameEmptiesSlot(a: Account, s: Core, e: Equip)
    returns (t1: Core, e1: Equip, t2: Core, e2: Equip, t: Core, f: Equip)
    requires Ready(a, s, e)
    ensures DoEquip(s, e, a, P, ONE, 0) == Ok((t1, e1, true))
    ensures DoEquip(t1, e1, a, Q, TWO, 0) == Ok((t2, e2, true))
    ensures DoEquip(t2, e2, a, Q, ONE, 0) == Ok((t, f, false))
    ensures P in t.nfts && Q in t.nfts && f.equippings == map[TWO := 0]
    ensures t.nfts[P].equipped && !t.nfts[Q].equipped
  {
    hide RootOf, DoEquip, EquipSpec.CheckEquip;
    t1, e1 := EquipStep(s, e, a, P, ONE);
    t2, e2 := EquipStep(t1, e1, a, Q, TWO);
    EquipSucceedsIff(t2, e2, a, Q, ONE, 0);
    var r := DoEquip(t2, e2, a, Q, ONE, 0).value;
    t, f := r.0, r.1;
    DoEquipEffect(t2, e2, a, Q, ONE, 0, t, f, false);
    assert e2.equippings == map[ONE := 0, TWO := 0];
  }

  lemma EquipStep(s: Core, e: Equip, a: Account, n: Item, key: SlotKey) returns (t: Core, f: Equip)
    requires n !in s.lock && key.equipper !in s.lock && MayEquip(s, e, a, n, key, 0)
    ensures DoEquip(s, e, a, n, key, 0) == Ok((t, f, true))
    ensures t == s.(nfts := s.nfts[n := s.nfts[n].(equipped := true)])
    ensures f == e.(equippings := e.equippings[key := 0])
  {
    hide RootOf, DoEquip;
    EquipSucceedsIff(s, e, a, n, key, 0);
    var r := DoEquip(s, e, a, n, key, 0).value;
    t, f := r.0, r.1;
    DoEquipEffect(s, e, a, n, key, 0, t, f, true);
  }

  /** So flags and seats fall apart: `P` is flagged and sits nowhere, `Q` sits in slot 2 and is not flagged. */
  lemma FlagsFallApart(a: Account, t: Core, f: Equip, seats: map<SlotKey, Item>)
    requires P in t.nfts && Q in t.nfts && t.nfts[P].equipped && !t.nfts[Q].equipped
    requires seats == Reseat(Reseat(Reseat(map[], ONE, P, true), TWO, Q, true), ONE, Q, false)
    ensures seats == map[TWO := Q] && !FlagRight(t, seats, P) && !FlagRight(t, seats, Q)
  {
    assert Sits(seats, Q, TWO);
  }

  /** `accept_nft` takes an equipped NFT out of its slot's parent and hands it to anybody. */
  lemma AcceptMovesEquipped(a: Account, s: Core, e: Equip, b: Account) returns (t: Core, f: Equip, u: Core)
    requires Ready(a, s, e)
    ensures DoEquip(s, e, a, P, ONE, 0) == Ok((t, f, true))
    ensures Send(t, a, P, AccountId(b)) == Err(CannotSendEquippedItem)
    ensures AcceptNft(t, a, P, AccountId(b)) == Ok(u) && u.owners[P] == b
    ensures P in u.nfts && u.nfts[P].equipped && ONE in f.equippings
  {
    hide RootOf, DoEquip, Send, AcceptNft;
    t, f := EquipStep(s, e, a, P, ONE);
    FixedCannotBeSent(t, a, P, AccountId(b));
    AcceptToAccountIff(t, a, P, b);
    u := AcceptNft(t, a, P, AccountId(b)).value;
  }

  /** ... and one that was minted as not transferable. */
  lemma AcceptMovesSoulbound(a: Account, b: Account) returns (s: Core, t: Core)
    requires a.User?
    ensures MintNft(Fresh(a), a, None, 0, false, []) == Ok(s)
    ensures R in s.nfts && !s.nfts[R].transferable
    ensures Send(s, a, R, AccountId(b)) == Err(NonTransferable)
    ensures AcceptNft(s, a, R, AccountId(b)) == Ok(t) && t.owners[R] == b
  {
    s := MintNft(Fresh(a), a, None, 0, false, []).value;
    RootedAlone(s.owners, R, a);
    hide RootOf, MintNft, Send, AcceptNft;
    FixedCannotBeSent(s, a, R, AccountId(b));
    AcceptToAccountIff(s, a, R, b);
    t := AcceptNft(s, a, R, AccountId(b)).value;
  }

  lemma RootedAlone(o: Owners, n: Item, a: Account)
    requires o == map[n := a] && a.User?
    ensures RootedAt(o, n, a)
  {
    EmptyInv();
    assert LinksOf(o) == LinksOf(EMPTY_CORE.owners);
    assert Rooted(o);
  }
}
