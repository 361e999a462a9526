/**
 rmrk-core and the part of pallet_uniques it drives, as functions from storage to storage.
 A call that returns `Err` is rolled back, so the functions say nothing about the storage
 in that case. `nft_burn` drains children in an order the storage layer picks: it is a relation.
 */
module CoreSpec {
  import opened Prelude
  import opened AccountCodec
  import opened Forest
  import opened Ownership

  /** `AccountIdOrCollectionNftTuple` */
  datatype Owner = AccountId(account: Account) | CollectionAndNftTuple(item: Item)

  datatype NftInfo = NftInfo(owner: Owner, equipped: bool, pending: bool, transferable: bool)

  datatype CollectionInfo = CollectionInfo(issuer: Account, max: Option<u32>, nftsCount: u32)

  datatype Resource =
    | Basic
    | Composable(base: u32, slot: Option<(u32, u32)>)
    | Slot(base: u32, slotId: u32)

  datatype ResourceInfo = ResourceInfo(pending: bool, resource: Resource)

  /** The storage maps of rmrk-core, then the two tables of pallet_uniques. */
  datatype Core = Core(
    collectionIndex: u32,
    collections: map<u32, CollectionInfo>,
    nextNftId: map<u32, u32>,
    nfts: map<Item, NftInfo>,
    children: set<(Item, Item)>,
    resources: map<(Item, u32), ResourceInfo>,
    nextResourceId: map<Item, u32>,
    equippableBases: set<(Item, u32)>,
    equippableSlots: set<(Item, u32, u32, u32)>,
    lock: set<Item>,
    owners: Owners,
    collectionOwners: map<u32, Account>
  )

  const EMPTY_CORE := Core(0, map[], map[], map[], {}, map[], map[], {}, {}, {}, map[], map[])

  // ---------- pallet_uniques ----------

  function DoMint(s: Core, n: Item, owner: Account): Result<Core, Error> {
    var _ :- Ensure(n !in s.owners, AlreadyExists);
    var _ :- Ensure(n.collection in s.collectionOwners, UnknownCollection);
    Ok(s.(owners := s.owners[n := owner]))
  }

  /** `do_transfer` asks rmrk-core, its Locker, before it moves an item. */
  function DoTransfer(s: Core, n: Item, dest: Account): Result<Core, Error> {
    var _ :- Ensure(n.collection in s.collectionOwners, UnknownCollection);
    var _ :- Ensure(n !in s.lock, Locked);
    var _ :- Ensure(n in s.owners, UnknownItem);
    Ok(s.(owners := s.owners[n := dest]))
  }

  function DoBurn(s: Core, n: Item): Result<Core, Error> {
    var _ :- Ensure(n.collection in s.collectionOwners && n in s.owners, UnknownCollection);
    Ok(s.(owners := s.owners - {n}))
  }

  // ---------- collections ----------

  function CollectionCreate(s: Core, issuer: Account, max: Option<u32>): Result<(Core, u32), Error> {
    var c := s.collectionIndex;
    var _ :- Ensure(c != MAX_U32, NoAvailableCollectionId);
    Ok((s.(collectionIndex := c + 1, collections := s.collections[c := CollectionInfo(issuer, max, 0)]), c))
  }

  function CreateCollection(s: Core, sender: Account, max: Option<u32>): Result<Core, Error> {
    var (t, c) :- CollectionCreate(s, sender, max);
    var _ :- Ensure(c !in t.collectionOwners, InUse);
    Ok(t.(collectionOwners := t.collectionOwners[c := sender]))
  }

  function CollectionBurn(s: Core, c: u32): Result<Core, Error> {
    var info :- OkOr(Get(s.collections, c), CollectionUnknown);
    var _ :- Ensure(info.nftsCount == 0, CollectionNotEmpty);
    Ok(s.(collections := s.collections - {c}))
  }

  function ItemsOf(o: Owners, c: u32): set<Item> {
    set x | x in o && x.collection == c
  }

  function DestroyCollection(s: Core, sender: Account, c: u32): Result<Core, Error> {
    var t :- CollectionBurn(s, c);
    var _ :- Ensure(c in t.collectionOwners, NoWitness);
    var _ :- Ensure(ItemsOf(t.owners, c) == {}, CollectionNotEmpty);
    var _ :- Ensure(t.collectionOwners[c] == sender, NoPermission);
    Ok(t.(collectionOwners := t.collectionOwners - {c}))
  }

  /** `accepted`: the new issuer has announced in pallet_uniques that it takes the collection. */
  function ChangeCollectionIssuer(s: Core, sender: Account, c: u32, newIssuer: Account, accepted: bool)
    : Result<Core, Error>
  {
    var info :- OkOr(Get(s.collections, c), CollectionUnknown);
    var _ :- Ensure(info.issuer == sender, NoPermission);
    var _ :- Ensure(accepted, Unaccepted);
    var _ :- Ensure(c in s.collectionOwners, UnknownCollection);
    var _ :- Ensure(s.collectionOwners[c] == sender, NoPermission);
    Ok(s.(collections := s.collections[c := info.(issuer := newIssuer)],
          collectionOwners := s.collectionOwners[c := newIssuer]))
  }

  /** `collection_lock`: no more NFTs than are counted now. */
  function LockCollection(s: Core, sender: Account, c: u32): Result<Core, Error> {
    var info :- OkOr(Get(s.collections, c), CollectionUnknown);
    var _ :- Ensure(info.issuer == sender, NoPermission);
    Ok(s.(collections := s.collections[c := info.(max := Some(info.nftsCount))]))
  }

  // ---------- resources ----------

  /** The bases a resource lets `n` equip things into. */
  function BaseRows(n: Item, resource: Resource): set<(Item, u32)> {
    if resource.Composable? then {(n, resource.base)} else {}
  }

  /** The slots resource `id` lets `n` be equipped into. */
  function SlotRows(n: Item, id: u32, resource: Resource): set<(Item, u32, u32, u32)> {
    match resource
    case Basic => {}
    case Composable(_, slot) => if slot.Some? then {(n, id, slot.value.0, slot.value.1)} else {}
    case Slot(base, slotId) => {(n, id, base, slotId)}
  }

  ghost function ResourceAdd(s: Core, sender: Account, n: Item, resource: Resource, addingOnMint: bool)
    : (r: Result<Core, Error>)
    ensures r.Ok? ==> r.value == s.(resources := r.value.resources, nextResourceId := r.value.nextResourceId,
                                    equippableBases := r.value.equippableBases,
                                    equippableSlots := r.value.equippableSlots)
    ensures r.Ok? ==> s.equippableBases <= r.value.equippableBases
  {
    var info :- OkOr(Get(s.collections, n.collection), CollectionUnknown);
    var id := Count(s.nextResourceId, n);
    var _ :- Ensure(id != MAX_U32, NoAvailableResourceId);
    var _ :- Ensure(info.issuer == sender, NoPermission);
    var root :- RootOf(s.owners, n);
    var _ :- Ensure(n !in s.lock, Locked);
    Ok(s.(nextResourceId := s.nextResourceId[n := id + 1],
          equippableBases := s.equippableBases + BaseRows(n, resource),
          equippableSlots := s.equippableSlots + SlotRows(n, id, resource),
          resources := s.resources[(n, id) := ResourceInfo(root.0 != sender && !addingOnMint, resource)]))
  }

  /** The at-mint resources, added one after the other. */
  ghost function AddAtMint(s: Core, sender: Account, n: Item, resources: seq<Resource>): (r: Result<Core, Error>)
    ensures r.Ok? ==> r.value == s.(resources := r.value.resources, nextResourceId := r.value.nextResourceId,
                                    equippableBases := r.value.equippableBases,
                                    equippableSlots := r.value.equippableSlots)
    ensures r.Ok? ==> s.equippableBases <= r.value.equippableBases
    decreases |resources|
  {
    if resources == [] then Ok(s)
    else
      var t :- ResourceAdd(s, sender, n, resources[0], true);
      AddAtMint(t, sender, n, resources[1..])
  }

  // ---------- minting ----------

  /** `get_next_nft_id`: ids of a collection are handed out once, in order. */
  function GetNextNftId(s: Core, c: u32): Result<(Core, u32), Error> {
    var id := Count(s.nextNftId, c);
    var _ :- Ensure(id != MAX_U32, NoAvailableNftId);
    Ok((s.(nextNftId := s.nextNftId[c := id + 1]), id))
  }

  /** The part of both mints before the NFT is written: a fresh id, a known and not yet full collection. */
  function OpenSlot(s: Core, c: u32): Result<(Core, Item), Error> {
    var (t, id) :- GetNextNftId(s, c);
    var info :- OkOr(Get(t.collections, c), CollectionUnknown);
    var _ :- Ensure(info.max.Some? ==> id < info.max.value, CollectionFullOrLocked);
    Ok((t, Item(c, id)))
  }

  /** The part of both mints after the checks: write the NFT and count it. */
  function InsertMinted(s: Core, n: Item, nft: NftInfo): Result<Core, Error>
    requires n.collection in s.collections
  {
    var info := s.collections[n.collection];
    var _ :- Ensure(info.nftsCount != MAX_U32, Overflow);
    Ok(s.(nfts := s.nfts[n := nft],
          collections := s.collections[n.collection := info.(nftsCount := info.nftsCount + 1)]))
  }

  function NftMint(s: Core, sender: Account, owner: Account, c: u32, transferable: bool): Result<(Core, Item), Error> {
    var (t, n) :- OpenSlot(s, c);
    var u :- InsertMinted(t, n, NftInfo(AccountId(owner), false, owner != sender, transferable));
    Ok((u, n))
  }

  ghost function NftMintDirectlyToNft(s: Core, sender: Account, owner: Item, c: u32, transferable: bool)
    : Result<(Core, Item), Error>
  {
    var (t, n) :- OpenSlot(s, c);
    var root :- RootOf(t.owners, owner);
    var u :- InsertMinted(t, n, NftInfo(CollectionAndNftTuple(owner), false, root.0 != sender, transferable));
    Ok((u, n))
  }

  function CheckIssuer(s: Core, sender: Account, c: u32): Result<(), Error> {
    var issuer :- OkOr(Get(s.collectionOwners, c), CollectionUnknown);
    Ensure(issuer == sender, NoPermission)
  }

  ghost function MintNft(s: Core, sender: Account, owner: Option<Account>, c: u32, transferable: bool,
                         resources: seq<Resource>): Result<Core, Error>
  {
    var _ :- CheckIssuer(s, sender, c);
    var nftOwner := if owner.Some? then owner.value else sender;
    var (t, n) :- NftMint(s, sender, nftOwner, c, transferable);
    var u :- DoMint(t, n, nftOwner);
    AddAtMint(u, sender, n, resources)
  }

  ghost function MintNftDirectlyToNft(s: Core, sender: Account, owner: Item, c: u32, transferable: bool,
                                      resources: seq<Resource>): Result<Core, Error>
  {
    var _ :- CheckIssuer(s, sender, c);
    var (t, n) :- NftMintDirectlyToNft(s, sender, owner, c, transferable);
    var u :- DoMint(t, n, Virtual(owner));
    AddAtMint(u, sender, n, resources)
  }

  // ---------- sending, accepting ----------

  /** The rows of `Children` after `n` left `from`, if that is an NFT. */
  function RemoveChild(children: set<(Item, Item)>, from: Account, n: Item): set<(Item, Item)> {
    if from.Virtual? then children - {(from.item, n)} else children
  }

  function AddChild(children: set<(Item, Item)>, to: Account, n: Item): set<(Item, Item)> {
    if to.Virtual? then children + {(to.item, n)} else children
  }

  /** The checks `send` and `accept_nft` share when the new owner is an NFT; gives its root owner. */
  ghost function CheckTarget(s: Core, n: Item, target: Item): Result<Account, Error> {
    var _ :- Ensure(target in s.nfts, NoAvailableNftId);
    var _ :- Ensure(n != target, CannotSendToDescendentOrSelf);
    var _ :- Ensure(!Descends(LinksOf(s.owners), target, n), CannotSendToDescendentOrSelf);
    var root :- RootOf(s.owners, target);
    Ok(root.0)
  }

  function OwnerAccount(owner: Owner): Account {
    match owner
    case AccountId(a) => a
    case CollectionAndNftTuple(target) => Virtual(target)
  }

  /** `nft_send`: the new storage, the account to transfer to, and whether the receiver must accept. */
  ghost function NftSend(s: Core, sender: Account, n: Item, newOwner: Owner): Result<(Core, Account, bool), Error> {
    var parent :- OkOr(Get(s.owners, n), NoAvailableNftId);
    var root :- RootOf(s.owners, n);
    var _ :- Ensure(sender == root.0, NoPermission);
    var nft :- OkOr(Get(s.nfts, n), NoAvailableNftId);
    var _ :- Ensure(nft.transferable, NonTransferable);
    var _ :- Ensure(!nft.equipped, CannotSendEquippedItem);
    var pending :-
      match newOwner
      case AccountId(_) => Ok(false)
      case CollectionAndNftTuple(target) =>
        var targetRoot :- CheckTarget(s, n, target);
        Ok(targetRoot != root.0);
    var to := OwnerAccount(newOwner);
    var sent := if pending then nft.(pending := true) else nft.(owner := newOwner);
    Ok((s.(nfts := s.nfts[n := sent],
           children := AddChild(RemoveChild(s.children, parent, n), to, n)), to, pending))
  }

  ghost function Send(s: Core, sender: Account, n: Item, newOwner: Owner): Result<Core, Error> {
    var (t, to, _) :- NftSend(s, sender, n, newOwner);
    DoTransfer(t, n, to)
  }

  ghost function NftAccept(s: Core, sender: Account, n: Item, newOwner: Owner): Result<(Core, Account), Error> {
    var root :- RootOf(s.owners, n);
    var _ :- Ensure(sender == root.0, NoPermission);
    var nft :- OkOr(Get(s.nfts, n), NoAvailableNftId);
    var _ :-
      match newOwner
      case AccountId(_) => Ok(())
      case CollectionAndNftTuple(target) =>
        var targetRoot :- CheckTarget(s, n, target);
        Ensure(targetRoot == root.0, CannotAcceptNonOwnedNft);
    Ok((s.(nfts := s.nfts[n := nft.(pending := false)]), OwnerAccount(newOwner)))
  }

  ghost function AcceptNft(s: Core, sender: Account, n: Item, newOwner: Owner): Result<Core, Error> {
    var (t, to) :- NftAccept(s, sender, n, newOwner);
    DoTransfer(t, n, to)
  }

  // ---------- burning ----------

  /** What one `nft_burn` call removes before it turns to the children. */
  function Cleared(s: Core, n: Item): Core {
    var rows := if n in s.nfts && s.nfts[n].owner.CollectionAndNftTuple? then {(s.nfts[n].owner.item, n)} else {};
    s.(children := s.children - rows,
       nfts := s.nfts - {n},
       resources := map r | r in s.resources && r.0 != n :: s.resources[r])
  }

  /** `saturating_dec` of the collection's counter, the last thing one `nft_burn` call does. */
  function Uncounted(s: Core, c: u32): Result<Core, Error> {
    var info :- OkOr(Get(s.collections, c), CollectionUnknown);
    Ok(s.(collections := s.collections[c := info.(nftsCount := if info.nftsCount == 0 then 0 else info.nftsCount - 1)]))
  }

  function RowsOf(children: set<(Item, Item)>, n: Item): set<(Item, Item)> {
    set row | row in children && row.0 == n
  }

  function WithoutRow(s: Core, row: (Item, Item)): Core {
    s.(children := s.children - {row})
  }

  ghost function ThenUncounted(q: Result<Core, Error>, c: u32): Result<Core, Error> {
    match q
    case Err(e) => Err(e)
    case Ok(t) => Uncounted(t, c)
  }

  /** `r` is a possible outcome of `nft_burn(n, budget)` started in `s`. */
  ghost predicate Burns(s: Core, n: Item, budget: nat, r: Result<Core, Error>)
    decreases budget, 0
  {
    if budget == 0 then r == Err(TooManyRecursions)
    else exists q :: Drains(Cleared(s, n), n, budget - 1, q) && r == ThenUncounted(q, n.collection)
  }

  /** `q` is a possible outcome of draining the children of `n`, whichever row comes first. */
  ghost predicate Drains(s: Core, n: Item, budget: nat, q: Result<Core, Error>)
    decreases budget, 1, s.children
  {
    if RowsOf(s.children, n) == {} then q == Ok(s)
    else exists row, r :: DrainsFirst(s, n, budget, row, r, q)
  }

  /** The drain starts with `row`, whose child burns with outcome `r`. */
  ghost predicate DrainsFirst(s: Core, n: Item, budget: nat, row: (Item, Item), r: Result<Core, Error>,
                              q: Result<Core, Error>)
    decreases budget, 1, s.children, 0
  {
    && row in RowsOf(s.children, n)
    && Burns(WithoutRow(s, row), row.1, budget, r)
    && match r
       case Err(e) => q == Err(e)
       case Ok(t) => t.children <= s.children - {row} && Drains(t, n, budget, q)
  }

  ghost predicate BurnNft(s: Core, sender: Account, n: Item, maxBurns: nat, r: Result<Core, Error>) {
    match RootOf(s.owners, n)
    case Err(e) => r == Err(e)
    case Ok((root, _)) =>
      if sender != root then r == Err(NoPermission)
      else exists q :: Burns(s, n, maxBurns, q) && r == ThenDoBurn(q, n)
  }

  ghost function ThenDoBurn(q: Result<Core, Error>, n: Item): Result<Core, Error> {
    match q
    case Err(e) => Err(e)
    case Ok(t) => DoBurn(t, n)
  }

  /** Where `reject_nft` starts its burn: without the row under the true owner. */
  function RejectStart(s: Core, n: Item): Core
    requires n in s.owners
  {
    s.(children := RemoveChild(s.children, s.owners[n], n))
  }

  /** `reject_nft`: the row under the true owner goes first; the item stays in pallet_uniques. */
  ghost predicate RejectNft(s: Core, sender: Account, n: Item, maxRecursions: nat, r: Result<Core, Error>) {
    match RootOf(s.owners, n)
    case Err(e) => r == Err(e)
    case Ok((root, _)) =>
      if n !in s.nfts then r == Err(NoAvailableNftId)
      else if !s.nfts[n].pending then r == Err(CannotRejectNonPendingNft)
      else if sender != root then r == Err(CannotRejectNonOwnedNft)
      else Burns(RejectStart(s, n), n, maxRecursions, r)
  }
}
