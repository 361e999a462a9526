/**
 rmrk-equip as it runs. Its calls are not transactional in the source: nothing is rolled back,
 so the methods below also show that a failing call has written nothing.
 */
module EquipPallet {
  import opened Prelude
  import opened AccountCodec
  import opened Ownership
  import opened CoreSpec
  import opened CoreInvariant
  import opened EquipTheory
  import Spec = EquipSpec
  import opened EquipSpec
  import CorePallet

  class Pallet {
    const core: CorePallet.Pallet
    var nextBaseId: u32
    var bases: map<u32, Account>
    var parts: map<(u32, u32), Part>
    var equippings: map<SlotKey, u32>

    constructor (core: CorePallet.Pallet)
      requires core.Valid()
      ensures Valid()
      ensures this.core == core && State() == Equip(0, map[], map[], map[])
    {
      this.core := core;
      nextBaseId, bases, parts, equippings := 0, map[], map[], map[];
    }

    function State(): Equip
      reads this
    {
      Equip(nextBaseId, bases, parts, equippings)
    }

    /** The core is sound, and every taken slot means something. */
    ghost predicate Valid()
      reads this, core
    {
      core.Valid() && EquipInv(State(), core.equippableBases)
    }

    /** An error, and nothing written, or the specified tables. */
    ghost predicate Settles(spec: Result<Equip, Error>, before: Equip, r: Result<(), Error>)
      reads this
    {
      match spec
      case Ok(e) => r == Ok(()) && State() == e
      case Err(e) => r == Err(e) && State() == before
    }

    method BaseCreate(issuer: Account, newParts: seq<Part>) returns (r: Result<(), Error>)
      requires Valid()
      modifies this`nextBaseId, this`parts, this`bases
      ensures Valid()
      ensures Settles(Spec.BaseCreate(old(State()), issuer, newParts), old(State()), r)
    {
      hide CoreInv, EquipInv;
      ghost var before := State();
      var base := nextBaseId;
      var _ :- Ensure(base != MAX_U32, NoAvailableBaseId);
      nextBaseId := base + 1;
      ghost var table := parts;
      for i := 0 to |newParts|
        invariant nextBaseId == base + 1 && bases == old(bases)
        invariant parts == InsertParts(table, base, newParts[..i])
      {
        assert newParts[..i + 1][..i] == newParts[..i];
        match newParts[i] {
          case SlotPart(id, _) => parts := parts[(base, id) := newParts[i]];
          case FixedPart(id) => parts := parts[(base, id) := newParts[i]];
        }
      }
      assert newParts[..|newParts|] == newParts;
      bases := bases[base := issuer];
      BaseCreateKeepsInv(before, issuer, newParts, core.equippableBases, State());
      return Ok(());
    }

    method ChangeBaseIssuer(sender: Account, base: u32, newIssuer: Account) returns (r: Result<(), Error>)
      requires Valid()
      modifies this`bases
      ensures Valid()
      ensures Settles(Spec.ChangeBaseIssuer(old(State()), sender, base, newIssuer), old(State()), r)
    {
      hide CoreInv, EquipInv;
      ghost var before := State();
      var issuer :- OkOr(Get(bases, base), BaseDoesntExist);
      var _ :- Ensure(issuer == sender, PermissionError);
      bases := bases[base := newIssuer];
      ChangeBaseIssuerKeepsInv(before, sender, base, newIssuer, core.equippableBases, State());
      return Ok(());
    }

    method DoEquippable(issuer: Account, base: u32, partId: u32, equippables: EquippableList)
      returns (r: Result<(), Error>)
      requires Valid()
      modifies this`parts
      ensures Valid()
      ensures Settles(Spec.DoEquippable(old(State()), issuer, base, partId, equippables), old(State()), r)
    {
      hide CoreInv, EquipInv;
      ghost var before := State();
      var owner :- OkOr(Get(bases, base), BaseDoesntExist);
      var _ :- Ensure(owner == issuer, PermissionError);
      var part :- OkOr(Get(parts, (base, partId)), PartDoesntExist);
      match part {
        case FixedPart(_) => return Err(NoEquippableOnFixedPart);
        case SlotPart(id, _) => parts := parts[(base, partId) := SlotPart(id, equippables)];
      }
      DoEquippableKeepsInv(before, issuer, base, partId, equippables, core.equippableBases, State());
      return Ok(());
    }

    method SetFlag(item: Item, equipped: bool)
      requires core.Valid()
      modifies core`nfts
      ensures core.nfts == SetEquipped(old(core.nfts), item, equipped)
      ensures core.Valid()
    {
      hide CoreInv;
      ghost var before := core.State();
      if item in core.nfts {
        core.nfts := core.nfts[item := core.nfts[item].(equipped := equipped)];
      }
      LocalChangeKeepsInv(before, core.State());
    }

    method Unequip(item: Item, key: SlotKey)
      requires core.Valid()
      modifies this`equippings, core`nfts
      ensures equippings == old(equippings) - {key}
      ensures core.nfts == SetEquipped(old(core.nfts), item, false)
      ensures core.Valid()
    {
      hide CoreInv;
      equippings := equippings - {key};
      SetFlag(item, false);
    }

    /** `do_equip`: whether the item was equipped (`true`) or a slot was emptied (`false`). */
    method DoEquip(issuer: Account, item: Item, key: SlotKey, resource: u32) returns (r: Result<bool, Error>)
      requires Valid()
      modifies this`equippings, core`nfts
      ensures Valid()
      ensures match Spec.DoEquip(old(core.State()), old(State()), issuer, item, key, resource)
              case Ok((s, e, equipped)) => r == Ok(equipped) && core.State() == s && State() == e
              case Err(e) => r == Err(e) && core.State() == old(core.State()) && State() == old(State())
    {
      hide CoreInv, EquipInv, Rooted, CheckEquip, SetEquipped;
      ghost var core0, equip0 := core.State(), State();
      InvIsRooted(core.State());
      var _ :- Ensure(item !in core.lock, Locked);
      var _ :- Ensure(key.equipper !in core.lock, Locked);
      var taken := key in equippings;
      if taken && item !in core.nfts {
        Unequip(item, key);
        DoEquipKeepsInv(core0, equip0, issuer, item, key, resource, core.State(), State(), false);
        return Ok(false);
      }
      var itemOwner :- LookupRootOwner(core.owners, item);
      var equipperOwner :- LookupRootOwner(core.owners, key.equipper);
      if taken && (itemOwner.0 == issuer || equipperOwner.0 == issuer) {
        Unequip(item, key);
        DoEquipKeepsInv(core0, equip0, issuer, item, key, resource, core.State(), State(), false);
        return Ok(false);
      }
      var _ :- Check(issuer, item, key, resource, itemOwner.0, equipperOwner.0);
      equippings := equippings[key := resource];
      SetFlag(item, true);
      DoEquipKeepsInv(core0, equip0, issuer, item, key, resource, core.State(), State(), true);
      return Ok(true);
    }

    /** What must hold before an empty slot is filled; nothing is written. */
    method Check(issuer: Account, item: Item, key: SlotKey, resource: u32, itemOwner: Account, equipperOwner: Account)
      returns (r: Result<(), Error>)
      ensures r == CheckEquip(core.State(), State(), issuer, item, key, resource, itemOwner, equipperOwner)
    {
      var _ :- Ensure(key.equipper in core.nfts, EquipperDoesntExist);
      var nft :- OkOr(Get(core.nfts, item), ItemDoesntExist);
      var _ :- Ensure(!nft.equipped, AlreadyEquipped);
      var _ :- Ensure(equipperOwner == issuer, PermissionError);
      var _ :- Ensure(itemOwner == issuer, PermissionError);
      var _ :- Ensure(nft.owner == CollectionAndNftTuple(key.equipper), MustBeDirectParent);
      var _ :- Ensure((key.equipper, key.base) in core.equippableBases, NoResourceForThisBaseFoundOnNft);
      var _ :- Ensure((item, resource, key.base, key.slot) in core.equippableSlots, ItemHasNoResourceToEquipThere);
      var part :- OkOr(Get(parts, (key.base, key.slot)), PartDoesntExist);
      match part {
        case FixedPart(_) => return Err(CantEquipFixedPart);
        case SlotPart(_, Empty) => return Err(CollectionNotEquippable);
        case SlotPart(_, All) => return Ok(());
        case SlotPart(_, Custom(collections)) =>
          var _ :- Ensure(item.collection in collections, CollectionNotEquippable);
          return Ok(());
      }
    }
  }
}
