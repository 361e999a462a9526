/** rmrk-equip as functions on its own tables and the NFT table of rmrk-core. */
module EquipSpec {
  import opened Prelude
  import opened AccountCodec
  import opened Ownership
  import opened CoreSpec

  datatype EquippableList = All | Empty | Custom(collections: seq<u32>)

  datatype Part = FixedPart(id: u32) | SlotPart(id: u32, equippable: EquippableList)

  /** A key of `Equippings`: the equipping NFT, the base and the slot. */
  datatype SlotKey = SlotKey(equipper: Item, base: u32, slot: u32)

  /** `bases` keeps the issuer; `equippings` the equipped resource, but not whose it is. */
  datatype Equip = Equip(
    nextBaseId: u32,
    bases: map<u32, Account>,
    parts: map<(u32, u32), Part>,
    equippings: map<SlotKey, u32>
  )

  function InsertParts(table: map<(u32, u32), Part>, base: u32, parts: seq<Part>): map<(u32, u32), Part>
    decreases |parts|
  {
    if parts == [] then table
    else
      var last := parts[|parts| - 1];
      InsertParts(table, base, parts[..|parts| - 1])[(base, last.id) := last]
  }

  function BaseCreate(e: Equip, issuer: Account, parts: seq<Part>): Result<Equip, Error> {
    var _ :- Ensure(e.nextBaseId != MAX_U32, NoAvailableBaseId);
    Ok(e.(nextBaseId := e.nextBaseId + 1,
          parts := InsertParts(e.parts, e.nextBaseId, parts),
          bases := e.bases[e.nextBaseId := issuer]))
  }

  function ChangeBaseIssuer(e: Equip, sender: Account, base: u32, newIssuer: Account): Result<Equip, Error> {
    var issuer :- OkOr(Get(e.bases, base), BaseDoesntExist);
    var _ :- Ensure(issuer == sender, PermissionError);
    Ok(e.(bases := e.bases[base := newIssuer]))
  }

  function DoEquippable(e: Equip, issuer: Account, base: u32, partId: u32, equippables: EquippableList)
    : Result<Equip, Error>
  {
    var owner :- OkOr(Get(e.bases, base), BaseDoesntExist);
    var _ :- Ensure(owner == issuer, PermissionError);
    var part :- OkOr(Get(e.parts, (base, partId)), PartDoesntExist);
    match part
    case FixedPart(_) => Err(NoEquippableOnFixedPart)
    case SlotPart(id, _) => Ok(e.(parts := e.parts[(base, partId) := SlotPart(id, equippables)]))
  }

  function SetEquipped(nfts: map<Item, NftInfo>, item: Item, equipped: bool): map<Item, NftInfo> {
    if item in nfts then nfts[item := nfts[item].(equipped := equipped)] else nfts
  }

  /** The slot is a slot, and open to the collection. */
  function CheckSlot(part: Part, collection: u32): Result<(), Error> {
    match part
    case FixedPart(_) => Err(CantEquipFixedPart)
    case SlotPart(_, Empty) => Err(CollectionNotEquippable)
    case SlotPart(_, All) => Ok(())
    case SlotPart(_, Custom(collections)) => Ensure(collection in collections, CollectionNotEquippable)
  }

  ghost function CheckEquip(s: Core, e: Equip, issuer: Account, item: Item, key: SlotKey, resource: u32,
                            itemRoot: Account, equipperRoot: Account): Result<(), Error>
  {
    var _ :- Ensure(key.equipper in s.nfts, EquipperDoesntExist);
    var nft :- OkOr(Get(s.nfts, item), ItemDoesntExist);
    var _ :- Ensure(!nft.equipped, AlreadyEquipped);
    var _ :- Ensure(equipperRoot == issuer, PermissionError);
    var _ :- Ensure(itemRoot == issuer, PermissionError);
    var _ :- Ensure(nft.owner == CollectionAndNftTuple(key.equipper), MustBeDirectParent);
    var _ :- Ensure((key.equipper, key.base) in s.equippableBases, NoResourceForThisBaseFoundOnNft);
    var _ :- Ensure((item, resource, key.base, key.slot) in s.equippableSlots, ItemHasNoResourceToEquipThere);
    var part :- OkOr(Get(e.parts, (key.base, key.slot)), PartDoesntExist);
    CheckSlot(part, item.collection)
  }

  /** `do_equip`: one call that equips, or unequips if the slot is taken. The flag says which. */
  ghost function DoEquip(s: Core, e: Equip, issuer: Account, item: Item, key: SlotKey, resource: u32)
    : Result<(Core, Equip, bool), Error>
  {
    var _ :- Ensure(item !in s.lock, Locked);
    var _ :- Ensure(key.equipper !in s.lock, Locked);
    var taken := key in e.equippings;
    var cleared := (s.(nfts := SetEquipped(s.nfts, item, false)), e.(equippings := e.equippings - {key}), false);
    if taken && item !in s.nfts then Ok(cleared)
    else
      var itemRoot :- RootOf(s.owners, item);
      var equipperRoot :- RootOf(s.owners, key.equipper);
      if taken && (itemRoot.0 == issuer || equipperRoot.0 == issuer) then Ok(cleared)
      else
        var _ :- CheckEquip(s, e, issuer, item, key, resource, itemRoot.0, equipperRoot.0);
        Ok((s.(nfts := SetEquipped(s.nfts, item, true)), e.(equippings := e.equippings[key := resource]), true))
  }

  /** Equipping seats the item; unequipping empties the slot, whichever item the call named. */
  function Reseat(seats: map<SlotKey, Item>, key: SlotKey, item: Item, equipped: bool): map<SlotKey, Item> {
    if equipped then seats[key := item] else seats - {key}
  }
}
