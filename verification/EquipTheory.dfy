/** The slot table of rmrk-equip: what an occupied slot refers to, and which NFT sits in it. */
module EquipTheory {
  import opened Prelude
  import opened AccountCodec
  import opened Ownership
  import opened CoreSpec
  import opened CoreInvariant
  import opened EquipSpec

  // ---------- occupied slots stay meaningful ----------

  ghost predicate SlotBacked(e: Equip, equippableBases: set<(Item, u32)>, k: SlotKey) {
    && k.base in e.bases
    && (k.base, k.slot) in e.parts && e.parts[(k.base, k.slot)].SlotPart?
    && (k.equipper, k.base) in equippableBases
  }

  /** An occupied slot refers to a base, to a part of it that is a slot, and to an NFT that was given the base. */
  ghost predicate EquipInv(e: Equip, equippableBases: set<(Item, u32)>) {
    && (forall k :: k in e.equippings ==> SlotBacked(e, equippableBases, k))
    && (forall b :: b in e.bases ==> b < e.nextBaseId)
    && (forall p :: p in e.parts ==> p.0 in e.bases)
  }

  lemma EquipInvGrows(e: Equip, before: set<(Item, u32)>, after: set<(Item, u32)>)
    requires EquipInv(e, before) && before <= after
    ensures EquipInv(e, after)
  {
    forall k | k in e.equippings
      ensures SlotBacked(e, after, k)
    {
      assert SlotBacked(e, before, k);
    }
  }

  /** `InsertParts` writes only under its base, and only parts of the list. */
  lemma {:induction false} InsertPartsFrame(table: map<(u32, u32), Part>, base: u32, parts: seq<Part>, k: (u32, u32))
    ensures k.0 != base ==> (k in InsertParts(table, base, parts) <==> k in table)
    ensures k.0 != base && k in table ==> InsertParts(table, base, parts)[k] == table[k]
    ensures k in InsertParts(table, base, parts) ==> k in table || k.0 == base
    decreases |parts|
  {
    if parts != [] {
      InsertPartsFrame(table, base, parts[..|parts| - 1], k);
    }
  }

  /** The place of the last part with that id in a list, if there is one. */
  predicate LastWith(parts: seq<Part>, id: u32, i: nat) {
    i < |parts| && parts[i].id == id && forall j :: i < j < |parts| ==> parts[j].id != id
  }

  /** Of several parts with one id the last is stored. */
  lemma {:induction false} InsertPartsStores(table: map<(u32, u32), Part>, base: u32, parts: seq<Part>, id: u32, i: nat)
    requires LastWith(parts, id, i)
    ensures (base, id) in InsertParts(table, base, parts) && InsertParts(table, base, parts)[(base, id)] == parts[i]
    decreases |parts|
  {
    var front := parts[..|parts| - 1];
    if i < |front| {
      assert parts[|front|].id != id;
      assert LastWith(front, id, i);
      InsertPartsStores(table, base, front, id, i);
    }
  }

  /** An id that no part of the list has keeps what the table had. */
  lemma {:induction false} InsertPartsSkips(table: map<(u32, u32), Part>, base: u32, parts: seq<Part>, id: u32)
    requires forall p :: p in parts ==> p.id != id
    ensures (base, id) in InsertParts(table, base, parts) <==> (base, id) in table
    decreases |parts|
  {
    if parts != [] {
      InsertPartsSkips(table, base, parts[..|parts| - 1], id);
    }
  }

  /** Anyone creates a base while ids last; each id then holds the last part of that id in the list. */
  lemma BaseCreateIff(e: Equip, issuer: Account, parts: seq<Part>, bases: set<(Item, u32)>, id: u32)
    requires EquipInv(e, bases)
    ensures BaseCreate(e, issuer, parts).Ok? <==> e.nextBaseId < MAX_U32
    ensures BaseCreate(e, issuer, parts).Ok? ==>
              var f, base := BaseCreate(e, issuer, parts).value, e.nextBaseId;
              && f.nextBaseId == base + 1 && f.bases == e.bases[base := issuer] && f.equippings == e.equippings
              && base !in e.bases
              && ((base, id) in f.parts <==> exists p :: p in parts && p.id == id)
              && (forall i: nat :: LastWith(parts, id, i) ==> (base, id) in f.parts && f.parts[(base, id)] == parts[i])
  {
    hide InsertParts;
    forall i: nat | LastWith(parts, id, i)
      ensures (e.nextBaseId, id) in InsertParts(e.parts, e.nextBaseId, parts)
      ensures InsertParts(e.parts, e.nextBaseId, parts)[(e.nextBaseId, id)] == parts[i]
    {
      InsertPartsStores(e.parts, e.nextBaseId, parts, id, i);
    }
    if exists p :: p in parts && p.id == id {
      var p :| p in parts && p.id == id;
      var j :| 0 <= j < |parts| && parts[j] == p;
      var i := FindLast(parts, id, j);
    } else {
      InsertPartsSkips(e.parts, e.nextBaseId, parts, id);
    }
  }

  lemma {:induction false} FindLast(parts: seq<Part>, id: u32, j: nat) returns (i: nat)
    requires j < |parts| && parts[j].id == id
    ensures LastWith(parts, id, i)
    decreases |parts| - j
  {
    if k :| j < k < |parts| && parts[k].id == id {
      i := FindLast(parts, id, k);
    } else {
      i := j;
    }
  }

  /** Only the issuer hands a base over. */
  lemma ChangeBaseIssuerIff(e: Equip, sender: Account, base: u32, newIssuer: Account)
    ensures ChangeBaseIssuer(e, sender, base, newIssuer).Ok? <==> base in e.bases && e.bases[base] == sender
    ensures ChangeBaseIssuer(e, sender, base, newIssuer).Ok? ==>
              ChangeBaseIssuer(e, sender, base, newIssuer).value == e.(bases := e.bases[base := newIssuer])
    ensures base in e.bases && e.bases[base] != sender ==>
              ChangeBaseIssuer(e, sender, base, newIssuer) == Err(PermissionError)
  {
  }

  /** The list lets NFTs of collection `c` in. */
  predicate Admits(list: EquippableList, c: u32) {
    list.All? || (list.Custom? && c in list.collections)
  }

  /** Only the base issuer says who may use a slot: the slot then holds the list passed, and nothing else changes. */
  lemma DoEquippableIff(e: Equip, issuer: Account, base: u32, partId: u32, list: EquippableList)
    ensures DoEquippable(e, issuer, base, partId, list).Ok? <==>
            && base in e.bases && e.bases[base] == issuer
            && (base, partId) in e.parts && e.parts[(base, partId)].SlotPart?
    ensures DoEquippable(e, issuer, base, partId, list).Ok? ==>
              var f := DoEquippable(e, issuer, base, partId, list).value; var p := (base, partId);
              && f == e.(parts := f.parts) && f.parts.Keys == e.parts.Keys
              && f.parts[p].SlotPart? && f.parts[p].id == e.parts[p].id && f.parts[p].equippable == list
              && (forall q :: q in e.parts && q != p ==> f.parts[q] == e.parts[q])
    ensures base !in e.bases ==> DoEquippable(e, issuer, base, partId, list) == Err(BaseDoesntExist)
    ensures base in e.bases && e.bases[base] != issuer ==>
              DoEquippable(e, issuer, base, partId, list) == Err(PermissionError)
    ensures base in e.bases && e.bases[base] == issuer && (base, partId) in e.parts
            && e.parts[(base, partId)].FixedPart? ==>
              DoEquippable(e, issuer, base, partId, list) == Err(NoEquippableOnFixedPart)
  {
  }

  lemma BaseCreateKeepsInv(e: Equip, issuer: Account, parts: seq<Part>, bases: set<(Item, u32)>, f: Equip)
    requires EquipInv(e, bases) && BaseCreate(e, issuer, parts) == Ok(f)
    ensures EquipInv(f, bases)
    ensures e.nextBaseId !in e.bases && forall k :: k in e.parts ==> k in f.parts && f.parts[k] == e.parts[k]
  {
    forall k
      ensures k in e.parts ==> k.0 != e.nextBaseId && k in f.parts && f.parts[k] == e.parts[k]
      ensures k in f.parts ==> k.0 in f.bases
    {
      InsertPartsFrame(e.parts, e.nextBaseId, parts, k);
    }
    forall k | k in f.equippings
      ensures SlotBacked(f, bases, k)
    {
      assert SlotBacked(e, bases, k);
    }
  }

  lemma DoEquippableKeepsInv(e: Equip, issuer: Account, base: u32, partId: u32, list: EquippableList,
                             bases: set<(Item, u32)>, f: Equip)
    requires EquipInv(e, bases) && DoEquippable(e, issuer, base, partId, list) == Ok(f)
    ensures EquipInv(f, bases)
  {
    forall k | k in f.equippings
      ensures SlotBacked(f, bases, k)
    {
      assert SlotBacked(e, bases, k);
    }
  }

  lemma ChangeBaseIssuerKeepsInv(e: Equip, sender: Account, base: u32, newIssuer: Account, bases: set<(Item, u32)>,
                                 f: Equip)
    requires EquipInv(e, bases) && ChangeBaseIssuer(e, sender, base, newIssuer) == Ok(f)
    ensures EquipInv(f, bases)
  {
    forall k | k in f.equippings
      ensures SlotBacked(f, bases, k)
    {
      assert SlotBacked(e, bases, k);
    }
  }

  /** The part is a slot that takes NFTs of collection `c`. */
  predicate OpenSlotFor(part: Part, c: u32) {
    part.SlotPart? && !part.equippable.Empty? && (part.equippable.Custom? ==> c in part.equippable.collections)
  }

  /** What the root owner of item and equipper may put where. */
  ghost predicate MayEquip(s: Core, e: Equip, issuer: Account, n: Item, key: SlotKey, resource: u32) {
    && key !in e.equippings
    && n in s.nfts && key.equipper in s.nfts && !s.nfts[n].equipped
    && RootedAt(s.owners, n, issuer) && RootedAt(s.owners, key.equipper, issuer)
    && s.nfts[n].owner == CollectionAndNftTuple(key.equipper)
    && (key.equipper, key.base) in s.equippableBases
    && (n, resource, key.base, key.slot) in s.equippableSlots
    && (key.base, key.slot) in e.parts && OpenSlotFor(e.parts[(key.base, key.slot)], n.collection)
  }

  /** Who may empty a taken slot: a root owner of either, or anyone who names an NFT that is gone. */
  ghost predicate MayUnequip(s: Core, e: Equip, issuer: Account, n: Item, key: SlotKey) {
    && key in e.equippings
    && (n in s.nfts ==>
          && RootOf(s.owners, n).Ok? && RootOf(s.owners, key.equipper).Ok?
          && (RootedAt(s.owners, n, issuer) || RootedAt(s.owners, key.equipper, issuer)))
  }

  /** Exactly when `equip` goes through, and which of its two things it then does. */
  lemma EquipSucceedsIff(s: Core, e: Equip, issuer: Account, n: Item, key: SlotKey, resource: u32)
    ensures var r := DoEquip(s, e, issuer, n, key, resource);
            var unlocked := n !in s.lock && key.equipper !in s.lock;
            && (r.Ok? && r.value.2 <==> unlocked && MayEquip(s, e, issuer, n, key, resource))
            && (r.Ok? && !r.value.2 <==> unlocked && MayUnequip(s, e, issuer, n, key))
  {
  }

  /** What an error of `equip` says, as a fact about the call. */
  ghost predicate SaysTrue(s: Core, e: Equip, issuer: Account, n: Item, key: SlotKey, resource: u32, error: Error) {
    && (error.Locked? ==> n in s.lock || key.equipper in s.lock)
    && (error.NoAvailableNftId? ==> RootOf(s.owners, n).Err? || RootOf(s.owners, key.equipper).Err?)
    && (error.EquipperDoesntExist? ==> key.equipper !in s.nfts)
    && (error.ItemDoesntExist? ==> n !in s.nfts)
    && (error.AlreadyEquipped? ==> n in s.nfts && s.nfts[n].equipped)
    && (error.PermissionError? ==> !RootedAt(s.owners, n, issuer) || !RootedAt(s.owners, key.equipper, issuer))
    && (error.MustBeDirectParent? ==> n in s.nfts && s.nfts[n].owner != CollectionAndNftTuple(key.equipper))
    && (error.NoResourceForThisBaseFoundOnNft? ==> (key.equipper, key.base) !in s.equippableBases)
    && (error.ItemHasNoResourceToEquipThere? ==> (n, resource, key.base, key.slot) !in s.equippableSlots)
    && (error.PartDoesntExist? ==> (key.base, key.slot) !in e.parts)
    && (error.CantEquipFixedPart? ==> (key.base, key.slot) in e.parts && e.parts[(key.base, key.slot)].FixedPart?)
    && (error.CollectionNotEquippable? ==>
          && (key.base, key.slot) in e.parts && e.parts[(key.base, key.slot)].SlotPart?
          && !Admits(e.parts[(key.base, key.slot)].equippable, n.collection))
    && (error.Locked? || error.NoAvailableNftId? || error.EquipperDoesntExist? || error.ItemDoesntExist?
        || error.AlreadyEquipped? || error.PermissionError? || error.MustBeDirectParent?
        || error.NoResourceForThisBaseFoundOnNft? || error.ItemHasNoResourceToEquipThere? || error.PartDoesntExist?
        || error.CantEquipFixedPart? || error.CollectionNotEquippable?)
  }

  lemma CheckErrorIsTrue(s: Core, e: Equip, issuer: Account, n: Item, key: SlotKey, resource: u32, itemRoot: Account,
                         equipperRoot: Account)
    requires RootedAt(s.owners, n, itemRoot) && RootedAt(s.owners, key.equipper, equipperRoot)
    ensures var r := CheckEquip(s, e, issuer, n, key, resource, itemRoot, equipperRoot);
            r.Err? ==> SaysTrue(s, e, issuer, n, key, resource, r.error)
  {
    hide RootOf;
  }

  /** Every error of `equip` names something that is wrong with the call; with `EquipSucceedsIff`, one always does. */
  lemma EquipErrorsAreTrue(s: Core, e: Equip, issuer: Account, n: Item, key: SlotKey, resource: u32)
    requires Rooted(s.owners)
    ensures var r := DoEquip(s, e, issuer, n, key, resource);
            r.Err? ==> SaysTrue(s, e, issuer, n, key, resource, r.error)
  {
    hide Rooted, RootOf, CheckEquip, SaysTrue;
    var itemRoot, equipperRoot := RootOf(s.owners, n), RootOf(s.owners, key.equipper);
    if itemRoot.Ok? && equipperRoot.Ok? {
      CheckErrorIsTrue(s, e, issuer, n, key, resource, itemRoot.value.0, equipperRoot.value.0);
    }
    NoRootSaysTrue(s, e, issuer, n, key, resource);
  }

  lemma NoRootSaysTrue(s: Core, e: Equip, issuer: Account, n: Item, key: SlotKey, resource: u32)
    requires Rooted(s.owners)
    ensures RootOf(s.owners, n).Err? ==> SaysTrue(s, e, issuer, n, key, resource, RootOf(s.owners, n).error)
    ensures RootOf(s.owners, key.equipper).Err? ==>
              SaysTrue(s, e, issuer, n, key, resource, RootOf(s.owners, key.equipper).error)
    ensures n in s.lock || key.equipper in s.lock ==> SaysTrue(s, e, issuer, n, key, resource, Locked)
  {
  }

  /** After `equippable` an empty slot takes NFTs of a collection iff the new list admits it, all else being right. */
  lemma EquippableDecides(e: Equip, issuer: Account, base: u32, partId: u32, list: EquippableList, f: Equip,
                          s: Core, sender: Account, n: Item, equipper: Item, resource: u32)
    requires DoEquippable(e, issuer, base, partId, list) == Ok(f)
    ensures var key := SlotKey(equipper, base, partId);
            var open := f.(parts := f.parts[(base, partId) := SlotPart(0, All)]);
            && (MayEquip(s, f, sender, n, key, resource) <==>
                  Admits(list, n.collection) && MayEquip(s, open, sender, n, key, resource))
            && (n !in s.lock && equipper !in s.lock && MayEquip(s, open, sender, n, key, resource) ==>
                  && (DoEquip(s, f, sender, n, key, resource).Ok? <==> Admits(list, n.collection))
                  && (!Admits(list, n.collection) ==>
                        DoEquip(s, f, sender, n, key, resource) == Err(CollectionNotEquippable)))
  {
    hide Rooted, LookupRootOwner;
    DoEquippableIff(e, issuer, base, partId, list);
  }

  /**
   The two outcomes of a successful `equip`: the named item is seated in an empty slot, or a taken slot is
   emptied.
   */
  lemma DoEquipEffect(s: Core, e: Equip, issuer: Account, n: Item, key: SlotKey, resource: u32, t: Core, f: Equip,
                      equipped: bool)
    requires DoEquip(s, e, issuer, n, key, resource) == Ok((t, f, equipped))
    ensures t == s.(nfts := SetEquipped(s.nfts, n, equipped))
    ensures equipped <==> key !in e.equippings
    ensures f == e.(equippings := if equipped then e.equippings[key := resource] else e.equippings - {key})
    ensures if equipped then MayEquip(s, e, issuer, n, key, resource) else MayUnequip(s, e, issuer, n, key)
  {
    EquipSucceedsIff(s, e, issuer, n, key, resource);
    hide RootOf;
  }

  lemma DoEquipKeepsInv(s: Core, e: Equip, issuer: Account, n: Item, key: SlotKey, resource: u32, t: Core, f: Equip,
                        equipped: bool)
    requires EquipInv(e, s.equippableBases)
    requires DoEquip(s, e, issuer, n, key, resource) == Ok((t, f, equipped))
    ensures EquipInv(f, t.equippableBases)
  {
    DoEquipEffect(s, e, issuer, n, key, resource, t, f, equipped);
    forall k | k in f.equippings
      ensures SlotBacked(f, t.equippableBases, k)
    {
      assert k in e.equippings ==> SlotBacked(e, s.equippableBases, k);
    }
  }

  // ---------- who sits where ----------

  ghost predicate Sits(seats: map<SlotKey, Item>, x: Item, k: SlotKey) {
    k in seats && seats[k] == x
  }

  /** The flag of a live NFT says that it sits in a slot, and it sits in at most one. */
  ghost predicate FlagRight(s: Core, seats: map<SlotKey, Item>, x: Item)
    requires x in s.nfts
  {
    && (s.nfts[x].equipped <==> exists k :: Sits(seats, x, k))
    && (forall j, k :: Sits(seats, x, j) && Sits(seats, x, k) ==> j == k)
  }

  ghost predicate SeatInv(s: Core, e: Equip, seats: map<SlotKey, Item>) {
    && seats.Keys == e.equippings.Keys
    && (forall k :: k in seats ==> Allocated(s, seats[k]))
    && (forall x :: x in s.nfts ==> FlagRight(s, seats, x))
  }

  /** Calls outside rmrk-equip: NFTs vanish, keep their flag, or are new. */
  ghost predicate FlagsKept(s: Core, t: Core) {
    && (forall x :: x in t.nfts ==>
          if x in s.nfts then t.nfts[x].equipped == s.nfts[x].equipped
          else !t.nfts[x].equipped && !Allocated(s, x))
    && (forall x :: Allocated(s, x) ==> Allocated(t, x))
  }

  lemma FlagsKeptKeepsSeats(s: Core, t: Core, e: Equip, seats: map<SlotKey, Item>)
    requires SeatInv(s, e, seats) && FlagsKept(s, t)
    ensures SeatInv(t, e, seats)
  {
    forall x | x in t.nfts
      ensures FlagRight(t, seats, x)
    {
      if x in s.nfts {
        assert FlagRight(s, seats, x);
      }
    }
  }

  /** The call names the item that sits in the slot, if any does. */
  predicate NamesOccupant(seats: map<SlotKey, Item>, n: Item, key: SlotKey) {
    key in seats ==> seats[key] == n
  }

  /** A taken slot is emptied without harm for a wrongly named item: nobody's flag was about this slot or is lost. */
  predicate Harmless(s: Core, seats: map<SlotKey, Item>, n: Item, key: SlotKey) {
    key in seats && seats[key] !in s.nfts && (n !in s.nfts || !s.nfts[n].equipped)
  }

  lemma FlagAfterEquip(s: Core, t: Core, seats: map<SlotKey, Item>, n: Item, key: SlotKey, x: Item)
    requires key !in seats && n in s.nfts && !s.nfts[n].equipped
    requires t == s.(nfts := SetEquipped(s.nfts, n, true))
    requires x in s.nfts && FlagRight(s, seats, x)
    ensures FlagRight(t, seats[key := n], x)
  {
    var seats' := seats[key := n];
    assert forall k :: Sits(seats', x, k) <==> Sits(seats, x, k) || (k == key && x == n);
    assert Sits(seats', n, key);
  }

  lemma SeatsAfterEquip(s: Core, e: Equip, seats: map<SlotKey, Item>, n: Item, key: SlotKey, resource: u32,
                        t: Core, f: Equip)
    requires SeatInv(s, e, seats)
    requires key !in e.equippings && n in s.nfts && !s.nfts[n].equipped && Allocated(s, n)
    requires t == s.(nfts := SetEquipped(s.nfts, n, true))
    requires f == e.(equippings := e.equippings[key := resource])
    ensures SeatInv(t, f, seats[key := n])
  {
    hide FlagRight;
    forall x | x in t.nfts
      ensures FlagRight(t, seats[key := n], x)
    {
      FlagAfterEquip(s, t, seats, n, key, x);
    }
  }

  lemma EquipSeats(s: Core, e: Equip, seats: map<SlotKey, Item>, issuer: Account, n: Item, key: SlotKey, resource: u32,
                   t: Core, f: Equip)
    requires IdsInv(s) && SeatInv(s, e, seats)
    requires DoEquip(s, e, issuer, n, key, resource) == Ok((t, f, true))
    ensures SeatInv(t, f, Reseat(seats, key, n, true))
  {
    hide SeatInv;
    DoEquipEffect(s, e, issuer, n, key, resource, t, f, true);
    SeatsAfterEquip(s, e, seats, n, key, resource, t, f);
  }

  /**
   Emptying a slot keeps flags and seats in step exactly when the call named the occupant, or no harm was
   possible.
   */
  lemma UnequipSeatsIff(s: Core, e: Equip, seats: map<SlotKey, Item>, issuer: Account, n: Item, key: SlotKey,
                        resource: u32, t: Core, f: Equip)
    requires SeatInv(s, e, seats)
    requires DoEquip(s, e, issuer, n, key, resource) == Ok((t, f, false))
    ensures key in seats
    ensures SeatInv(t, f, Reseat(seats, key, n, false)) <==> seats[key] == n || Harmless(s, seats, n, key)
  {
    DoEquipEffect(s, e, issuer, n, key, resource, t, f, false);
    hide DoEquip;
    var seats' := Reseat(seats, key, n, false);
    var o := seats[key];
    assert forall x, k :: Sits(seats', x, k) <==> Sits(seats, x, k) && k != key;
    if o == n || Harmless(s, seats, n, key) {
      forall x | x in t.nfts
        ensures FlagRight(t, seats', x)
      {
        assert FlagRight(s, seats, x);
        if x == o {
          assert Sits(seats, x, key);
        }
      }
    } else if o in s.nfts {
      assert FlagRight(s, seats, o) && Sits(seats, o, key);
      assert !FlagRight(t, seats', o);
    } else {
      assert FlagRight(s, seats, n);
      var k :| Sits(seats, n, k);
      assert Sits(seats', n, k);
      assert !FlagRight(t, seats', n);
    }
  }

  /** Under documented use every successful `equip` call keeps flags and seats in step. */
  lemma DocumentedEquipKeepsSeats(s: Core, e: Equip, seats: map<SlotKey, Item>, issuer: Account, n: Item, key: SlotKey,
                                  resource: u32, t: Core, f: Equip, equipped: bool)
    requires IdsInv(s) && SeatInv(s, e, seats) && NamesOccupant(seats, n, key)
    requires DoEquip(s, e, issuer, n, key, resource) == Ok((t, f, equipped))
    ensures SeatInv(t, f, Reseat(seats, key, n, equipped))
  {
    if equipped {
      EquipSeats(s, e, seats, issuer, n, key, resource, t, f);
    } else {
      UnequipSeatsIff(s, e, seats, issuer, n, key, resource, t, f);
    }
  }
}
