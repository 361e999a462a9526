/**
 rmrk-core as it runs: storage maps updated in place. Every dispatchable takes a snapshot first
 and puts it back when anything inside returns `Err`, which is what `#[transactional]` does.
 Each method is tied to the storage function of the same name in `CoreSpec`.
 */
module CorePallet {
  import opened Prelude
  import opened AccountCodec
  import opened Ownership
  import Spec = CoreSpec
  import opened CoreSpec
  import opened CoreInvariant

  /** A helper that returns `v` and leaves `after`; on an error the caller rolls back. */
  ghost predicate Yields<T>(spec: Result<(Core, T), Error>, r: Result<T, Error>, after: Core) {
    match spec
    case Ok((t, v)) => r == Ok(v) && after == t
    case Err(e) => r == Err(e)
  }

  /** A whole call: the specified storage, or the specified error and no change at all. */
  ghost predicate Commits(spec: Result<Core, Error>, before: Core, r: Result<(), Error>, after: Core) {
    match spec
    case Ok(t) => r == Ok(()) && after == t
    case Err(e) => r == Err(e) && after == before
  }

  class Pallet {
    var collectionIndex: u32
    var collections: map<u32, CollectionInfo>
    var nextNftId: map<u32, u32>
    var nfts: map<Item, NftInfo>
    var children: set<(Item, Item)>
    var resources: map<(Item, u32), ResourceInfo>
    var nextResourceId: map<Item, u32>
    var equippableBases: set<(Item, u32)>
    var equippableSlots: set<(Item, u32, u32, u32)>
    var lock: set<Item>
    // pallet_uniques
    var owners: Owners
    var collectionOwners: map<u32, Account>

    function State(): Core
      reads this
    {
      Core(collectionIndex, collections, nextNftId, nfts, children, resources, nextResourceId,
           equippableBases, equippableSlots, lock, owners, collectionOwners)
    }

    ghost predicate Valid()
      reads this
    {
      CoreInv(State())
    }

    /** Before the first call: empty storage. */
    constructor ()
      ensures State() == EMPTY_CORE && Valid()
    {
      collectionIndex, collections, nextNftId := 0, map[], map[];
      nfts, children, resources, nextResourceId := map[], {}, map[], map[];
      equippableBases, equippableSlots, lock := {}, {}, {};
      owners, collectionOwners := map[], map[];
      new;
      EmptyInv();
    }

    /** Put a snapshot back: the rollback of a failed call. */
    method Restore(s: Core)
      modifies this
      ensures State() == s
    {
      collectionIndex := s.collectionIndex;
      collections := s.collections;
      nextNftId := s.nextNftId;
      nfts := s.nfts;
      children := s.children;
      resources := s.resources;
      nextResourceId := s.nextResourceId;
      equippableBases := s.equippableBases;
      equippableSlots := s.equippableSlots;
      lock := s.lock;
      owners := s.owners;
      collectionOwners := s.collectionOwners;
    }

    // ---------- pallet_uniques ----------

    method DoMint(n: Item, owner: Account) returns (r: Result<(), Error>)
      modifies this`owners
      ensures Commits(Spec.DoMint(old(State()), n, owner), old(State()), r, State())
    {
      var _ :- Ensure(n !in owners, AlreadyExists);
      var _ :- Ensure(n.collection in collectionOwners, UnknownCollection);
      owners := owners[n := owner];
      return Ok(());
    }

    method DoTransfer(n: Item, dest: Account) returns (r: Result<(), Error>)
      modifies this`owners
      ensures Commits(Spec.DoTransfer(old(State()), n, dest), old(State()), r, State())
    {
      var _ :- Ensure(n.collection in collectionOwners, UnknownCollection);
      var _ :- Ensure(n !in lock, Locked);
      var _ :- Ensure(n in owners, UnknownItem);
      owners := owners[n := dest];
      return Ok(());
    }

    method DoBurn(n: Item) returns (r: Result<(), Error>)
      modifies this`owners
      ensures Commits(Spec.DoBurn(old(State()), n), old(State()), r, State())
    {
      var _ :- Ensure(n.collection in collectionOwners && n in owners, UnknownCollection);
      owners := owners - {n};
      return Ok(());
    }

    // ---------- collections ----------

    method CreateCollection(sender: Account, max: Option<u32>) returns (r: Result<(), Error>)
      modifies this
      ensures Commits(Spec.CreateCollection(old(State()), sender, max), old(State()), r, State())
    {
      var saved := State();
      var c := collectionIndex;
      var _ :- Ensure(c != MAX_U32, NoAvailableCollectionId);
      collectionIndex := c + 1;
      collections := collections[c := CollectionInfo(sender, max, 0)];
      if c in collectionOwners {
        Restore(saved);
        return Err(InUse);
      }
      collectionOwners := collectionOwners[c := sender];
      return Ok(());
    }

    method DestroyCollection(sender: Account, c: u32) returns (r: Result<(), Error>)
      modifies this
      ensures Commits(Spec.DestroyCollection(old(State()), sender, c), old(State()), r, State())
    {
      var saved := State();
      var info :- OkOr(Get(collections, c), CollectionUnknown);
      var _ :- Ensure(info.nftsCount == 0, CollectionNotEmpty);
      collections := collections - {c};
      var checked := DestroyInUniques(sender, c);
      if checked.Err? {
        Restore(saved);
        return checked;
      }
      return Ok(());
    }

    method DestroyInUniques(sender: Account, c: u32) returns (r: Result<(), Error>)
      modifies this`collectionOwners
      ensures r == if c !in old(collectionOwners) then Err(NoWitness)
                   else if ItemsOf(owners, c) != {} then Err(CollectionNotEmpty)
                   else if old(collectionOwners)[c] != sender then Err(NoPermission)
                   else Ok(())
      ensures collectionOwners == if r.Ok? then old(collectionOwners) - {c} else old(collectionOwners)
    {
      var _ :- Ensure(c in collectionOwners, NoWitness);
      var _ :- Ensure(ItemsOf(owners, c) == {}, CollectionNotEmpty);
      var _ :- Ensure(collectionOwners[c] == sender, NoPermission);
      collectionOwners := collectionOwners - {c};
      return Ok(());
    }

    method ChangeCollectionIssuer(sender: Account, c: u32, newIssuer: Account, accepted: bool)
      returns (r: Result<(), Error>)
      modifies this
      ensures Commits(Spec.ChangeCollectionIssuer(old(State()), sender, c, newIssuer, accepted), old(State()), r,
                      State())
    {
      var saved := State();
      var info :- OkOr(Get(collections, c), CollectionUnknown);
      var _ :- Ensure(info.issuer == sender, NoPermission);
      collections := collections[c := info.(issuer := newIssuer)];
      if !accepted {
        Restore(saved);
        return Err(Unaccepted);
      }
      if c !in collectionOwners {
        Restore(saved);
        return Err(UnknownCollection);
      }
      if collectionOwners[c] != sender {
        Restore(saved);
        return Err(NoPermission);
      }
      collectionOwners := collectionOwners[c := newIssuer];
      return Ok(());
    }

    method LockCollection(sender: Account, c: u32) returns (r: Result<(), Error>)
      modifies this`collections
      ensures Commits(Spec.LockCollection(old(State()), sender, c), old(State()), r, State())
    {
      var info :- OkOr(Get(collections, c), CollectionUnknown);
      var _ :- Ensure(info.issuer == sender, NoPermission);
      collections := collections[c := info.(max := Some(info.nftsCount))];
      return Ok(());
    }

    // ---------- resources ----------

    /** The writes of `resource_add`: what the resource may equip or be equipped into, then its row. */
    method StoreResource(n: Item, id: u32, resource: Resource, pending: bool)
      modifies this`resources, this`equippableBases, this`equippableSlots
      ensures equippableBases == old(equippableBases) + BaseRows(n, resource)
      ensures equippableSlots == old(equippableSlots) + SlotRows(n, id, resource)
      ensures resources == old(resources)[(n, id) := ResourceInfo(pending, resource)]
    {
      match resource {
        case Basic =>
        case Composable(base, slot) =>
          equippableBases := equippableBases + {(n, base)};
          if slot.Some? {
            equippableSlots := equippableSlots + {(n, id, slot.value.0, slot.value.1)};
          }
        case Slot(base, slotId) =>
          equippableSlots := equippableSlots + {(n, id, base, slotId)};
      }
      resources := resources[(n, id) := ResourceInfo(pending, resource)];
    }

    method ResourceAdd(sender: Account, n: Item, resource: Resource, addingOnMint: bool) returns (r: Result<(), Error>)
      requires Rooted(owners)
      modifies this`resources, this`nextResourceId, this`equippableBases, this`equippableSlots
      ensures match Spec.ResourceAdd(old(State()), sender, n, resource, addingOnMint)
              case Ok(t) => r == Ok(()) && State() == t
              case Err(e) => r == Err(e)
    {
      hide Rooted, BaseRows, SlotRows;
      var info :- OkOr(Get(collections, n.collection), CollectionUnknown);
      var id := Count(nextResourceId, n);
      var _ :- Ensure(id != MAX_U32, NoAvailableResourceId);
      nextResourceId := nextResourceId[n := id + 1];
      var _ :- Ensure(info.issuer == sender, NoPermission);
      var root :- LookupRootOwner(owners, n);
      var _ :- Ensure(n !in lock, Locked);
      StoreResource(n, id, resource, root.0 != sender && !addingOnMint);
      return Ok(());
    }

    method AddResource(sender: Account, n: Item, resource: Resource) returns (r: Result<(), Error>)
      requires Valid()
      modifies this
      ensures Commits(Spec.ResourceAdd(old(State()), sender, n, resource, false), old(State()), r, State())
      ensures Valid()
    {
      hide IdsInv, CollectionsInv, CountersInv, Rooted;
      ghost var before := State();
      var saved := State();
      r := ResourceAdd(sender, n, resource, false);
      if r.Err? {
        Restore(saved);
      } else {
        LocalChangeKeepsInv(before, State());
      }
    }

    method AddAtMint(sender: Account, n: Item, atMint: seq<Resource>) returns (r: Result<(), Error>)
      requires Rooted(owners)
      modifies this`resources, this`nextResourceId, this`equippableBases, this`equippableSlots
      ensures match Spec.AddAtMint(old(State()), sender, n, atMint)
              case Ok(t) => r == Ok(()) && State() == t
              case Err(e) => r == Err(e)
    {
      hide Rooted;
      ghost var start := State();
      for i := 0 to |atMint|
        invariant Spec.AddAtMint(start, sender, n, atMint) == Spec.AddAtMint(State(), sender, n, atMint[i..])
      {
        assert atMint[i..][1..] == atMint[i + 1..];
        var _ :- ResourceAdd(sender, n, atMint[i], true);
      }
      return Ok(());
    }

    // ---------- minting ----------

    method GetNextNftId(c: u32) returns (r: Result<u32, Error>)
      modifies this`nextNftId
      ensures Yields(Spec.GetNextNftId(old(State()), c), r, State())
    {
      var id := Count(nextNftId, c);
      var _ :- Ensure(id != MAX_U32, NoAvailableNftId);
      nextNftId := nextNftId[c := id + 1];
      return Ok(id);
    }

    /** The checks both mints share before the NFT is written. */
    method OpenSlot(c: u32) returns (r: Result<Item, Error>)
      modifies this`nextNftId
      ensures Yields(Spec.OpenSlot(old(State()), c), r, State())
      ensures r.Ok? ==> r.value.collection in collections
    {
      var id :- GetNextNftId(c);
      var info :- OkOr(Get(collections, c), CollectionUnknown);
      var _ :- Ensure(info.max.Some? ==> id < info.max.value, CollectionFullOrLocked);
      return Ok(Item(c, id));
    }

    /** The writes both mints share: the NFT, then the counter. */
    method InsertMinted(n: Item, nft: NftInfo) returns (r: Result<(), Error>)
      requires n.collection in collections
      modifies this`nfts, this`collections
      ensures match Spec.InsertMinted(old(State()), n, nft)
              case Ok(t) => r == Ok(()) && State() == t
              case Err(e) => r == Err(e)
    {
      nfts := nfts[n := nft];
      var info := collections[n.collection];
      var _ :- Ensure(info.nftsCount != MAX_U32, Overflow);
      collections := collections[n.collection := info.(nftsCount := info.nftsCount + 1)];
      return Ok(());
    }

    method NftMint(sender: Account, owner: Account, c: u32, transferable: bool) returns (r: Result<Item, Error>)
      modifies this`nextNftId, this`nfts, this`collections
      ensures Yields(Spec.NftMint(old(State()), sender, owner, c, transferable), r, State())
    {
      hide Spec.OpenSlot, Spec.InsertMinted;
      var n :- OpenSlot(c);
      var _ :- InsertMinted(n, NftInfo(AccountId(owner), false, owner != sender, transferable));
      return Ok(n);
    }

    method NftMintDirectlyToNft(sender: Account, owner: Item, c: u32, transferable: bool)
      returns (r: Result<Item, Error>)
      requires Rooted(owners)
      modifies this`nextNftId, this`nfts, this`collections
      ensures Yields(Spec.NftMintDirectlyToNft(old(State()), sender, owner, c, transferable), r, State())
    {
      hide Rooted, Spec.OpenSlot, Spec.InsertMinted;
      var n :- OpenSlot(c);
      var root :- LookupRootOwner(owners, owner);
      var _ :- InsertMinted(n, NftInfo(CollectionAndNftTuple(owner), false, root.0 != sender, transferable));
      return Ok(n);
    }

    /** The second half of both mints: enter the item in pallet_uniques and give it its resources. */
    method FinishMint(sender: Account, n: Item, uniquesOwner: Account, atMint: seq<Resource>)
      returns (r: Result<(), Error>)
      requires Rooted(owners[n := uniquesOwner])
      modifies this`owners, this`resources, this`nextResourceId, this`equippableBases, this`equippableSlots
      ensures match Spec.DoMint(old(State()), n, uniquesOwner)
              case Err(e) => r == Err(e)
              case Ok(u) =>
                match Spec.AddAtMint(u, sender, n, atMint)
                case Ok(t) => r == Ok(()) && State() == t
                case Err(e) => r == Err(e)
    {
      hide Rooted;
      var _ :- DoMint(n, uniquesOwner);
      r := AddAtMint(sender, n, atMint);
    }

    method MintNft(sender: Account, owner: Option<Account>, c: u32, transferable: bool, atMint: seq<Resource>)
      returns (r: Result<(), Error>)
      requires Valid() && sender.User? && (owner.Some? ==> owner.value.User?)
      modifies this
      ensures Commits(Spec.MintNft(old(State()), sender, owner, c, transferable, atMint), old(State()), r, State())
      ensures Valid()
    {
      hide IdsInv, CollectionsInv, CountersInv, Rooted;
      ghost var before := State();
      var saved := State();
      var _ :- CheckIssuer(State(), sender, c);
      var nftOwner := if owner.Some? then owner.value else sender;
      MintedIsFresh(before, c);
      RootedAfterMint(before.owners, Minted(before, c), nftOwner);
      var n := NftMint(sender, nftOwner, c, transferable);
      if n.Err? {
        Restore(saved);
        return Err(n.error);
      }
      r := FinishMint(sender, n.value, nftOwner, atMint);
      if r.Err? {
        Restore(saved);
      } else {
        MintNftEffect(before, sender, owner, c, transferable, atMint, State());
        MintKeepsInv(before, State(), c, nftOwner,
                     NftInfo(AccountId(nftOwner), false, nftOwner != sender, transferable));
      }
    }

    method MintNftDirectlyToNft(sender: Account, owner: Item, c: u32, transferable: bool, atMint: seq<Resource>)
      returns (r: Result<(), Error>)
      requires Valid()
      modifies this
      ensures Commits(Spec.MintNftDirectlyToNft(old(State()), sender, owner, c, transferable, atMint),
                      old(State()), r, State())
      ensures Valid()
    {
      hide IdsInv, CollectionsInv, CountersInv, Rooted;
      ghost var before := State();
      var saved := State();
      var _ :- CheckIssuer(State(), sender, c);
      MintedIsFresh(before, c);
      var n := NftMintDirectlyToNft(sender, owner, c, transferable);
      if n.Err? {
        Restore(saved);
        return Err(n.error);
      }
      RootedAfterMint(before.owners, Minted(before, c), Virtual(owner));
      r := FinishMint(sender, n.value, Virtual(owner), atMint);
      if r.Err? {
        Restore(saved);
      } else {
        MintDirectlyEffect(before, sender, owner, c, transferable, atMint, State());
        ghost var pending := LookupRootOwner(before.owners, owner).value.0 != sender;
        MintKeepsInv(before, State(), c, Virtual(owner),
                     NftInfo(CollectionAndNftTuple(owner), false, pending, transferable));
      }
    }

    // ---------- sending and accepting ----------

    /** The checks on an NFT recipient; nothing is written. */
    method CheckTarget(n: Item, target: Item) returns (r: Result<Account, Error>)
      requires Rooted(owners)
      ensures r == Spec.CheckTarget(State(), n, target)
    {
      hide Rooted;
      var _ :- Ensure(target in nfts, NoAvailableNftId);
      var _ :- Ensure(n != target, CannotSendToDescendentOrSelf);
      var _ :- Ensure(!IsXDescendentOfY(owners, target, n), CannotSendToDescendentOrSelf);
      var root :- LookupRootOwner(owners, target);
      return Ok(root.0);
    }

    method NftSend(sender: Account, n: Item, newOwner: Owner) returns (r: Result<(Account, bool), Error>)
      requires Rooted(owners)
      modifies this`nfts, this`children
      ensures match Spec.NftSend(old(State()), sender, n, newOwner)
              case Ok((t, to, pending)) => r == Ok((to, pending)) && State() == t
              case Err(e) => r == Err(e) && State() == old(State())
    {
      hide Rooted;
      var parent :- OkOr(Get(owners, n), NoAvailableNftId);
      var root :- LookupRootOwner(owners, n);
      var _ :- Ensure(sender == root.0, NoPermission);
      var sendingNft :- OkOr(Get(nfts, n), NoAvailableNftId);
      var _ :- Ensure(sendingNft.transferable, NonTransferable);
      var _ :- Ensure(!sendingNft.equipped, CannotSendEquippedItem);
      var approvalRequired := true;
      var newOwnerAccount: Account;
      match newOwner {
        case AccountId(id) =>
          approvalRequired := false;
          newOwnerAccount := id;
        case CollectionAndNftTuple(target) =>
          var targetRoot :- CheckTarget(n, target);
          if targetRoot == root.0 {
            approvalRequired := false;
          }
          newOwnerAccount := Virtual(target);
      }
      if approvalRequired {
        nfts := nfts[n := nfts[n].(pending := true)];
      } else {
        nfts := nfts[n := sendingNft.(owner := newOwner)];
      }
      if parent.Virtual? {
        children := children - {(parent.item, n)};
      }
      if newOwnerAccount.Virtual? {
        children := children + {(newOwnerAccount.item, n)};
      }
      return Ok((newOwnerAccount, approvalRequired));
    }

    method Send(sender: Account, n: Item, newOwner: Owner) returns (r: Result<(), Error>)
      requires Valid() && RealOwner(newOwner)
      modifies this
      ensures Commits(Spec.Send(old(State()), sender, n, newOwner), old(State()), r, State())
      ensures Valid()
    {
      hide IdsInv, CollectionsInv, CountersInv, Rooted;
      ghost var before := State();
      var saved := State();
      var sent := NftSend(sender, n, newOwner);
      if sent.Err? {
        return Err(sent.error);
      }
      r := DoTransfer(n, sent.value.0);
      if r.Err? {
        Restore(saved);
      } else {
        SendEffect(before, sender, n, newOwner, State());
        MoveKeepsInv(before, State(), n, OwnerAccount(newOwner));
      }
    }

    method NftAccept(sender: Account, n: Item, newOwner: Owner) returns (r: Result<Account, Error>)
      requires Rooted(owners)
      modifies this`nfts
      ensures Yields(Spec.NftAccept(old(State()), sender, n, newOwner), r, State())
      ensures r.Err? ==> State() == old(State())
    {
      hide Rooted;
      var root :- LookupRootOwner(owners, n);
      var _ :- Ensure(sender == root.0, NoPermission);
      var nft :- OkOr(Get(nfts, n), NoAvailableNftId);
      var newOwnerAccount: Account;
      match newOwner {
        case AccountId(id) =>
          newOwnerAccount := id;
        case CollectionAndNftTuple(target) =>
          var targetRoot :- CheckTarget(n, target);
          var _ :- Ensure(targetRoot == root.0, CannotAcceptNonOwnedNft);
          newOwnerAccount := Virtual(target);
      }
      nfts := nfts[n := nft.(pending := false)];
      return Ok(newOwnerAccount);
    }

    method AcceptNft(sender: Account, n: Item, newOwner: Owner) returns (r: Result<(), Error>)
      requires Valid() && RealOwner(newOwner)
      modifies this
      ensures Commits(Spec.AcceptNft(old(State()), sender, n, newOwner), old(State()), r, State())
      ensures Valid()
    {
      hide IdsInv, CollectionsInv, CountersInv, Rooted;
      ghost var before := State();
      var saved := State();
      var accepted := NftAccept(sender, n, newOwner);
      if accepted.Err? {
        return Err(accepted.error);
      }
      r := DoTransfer(n, accepted.value);
      if r.Err? {
        Restore(saved);
      } else {
        AcceptEffect(before, sender, n, newOwner, State());
        MoveKeepsInv(before, State(), n, OwnerAccount(newOwner));
      }
    }

    // ---------- burning ----------

    /** `nft_burn`: clear the NFT, drain and burn its children, count it off. */
    method NftBurn(n: Item, maxRecursions: u32) returns (r: Result<(), Error>)
      modifies this`nfts, this`children, this`resources, this`collections
      ensures Burns(old(State()), n, maxRecursions, if r.Ok? then Ok(State()) else Err(r.error))
      ensures children <= old(children)
      decreases maxRecursions, 0
    {
      var _ :- Ensure(maxRecursions > 0, TooManyRecursions);
      ghost var before := State();
      if n in nfts && nfts[n].owner.CollectionAndNftTuple? {
        children := children - {(nfts[n].owner.item, n)};
      }
      nfts := nfts - {n};
      resources := map row | row in resources && row.0 != n :: resources[row];
      assert State() == Cleared(before, n);
      hide Drains;
      r := DrainChildren(n, maxRecursions - 1);
      ghost var q := if r.Ok? then Ok(State()) else Err(r.error);
      assert Drains(Cleared(before, n), n, maxRecursions - 1, q);
      if r.Ok? {
        r := DecrementCount(n.collection);
      }
      assert (if r.Ok? then Ok(State()) else Err(r.error)) == ThenUncounted(q, n.collection);
    }

    /** The `drain_prefix` loop: burn the children of `n` in whatever order their rows come. */
    method DrainChildren(n: Item, budget: u32) returns (r: Result<(), Error>)
      modifies this`nfts, this`children, this`resources, this`collections
      ensures Drains(old(State()), n, budget, if r.Ok? then Ok(State()) else Err(r.error))
      ensures children <= old(children)
      decreases budget, 1
    {
      ghost var start := State();
      while RowsOf(children, n) != {}
        invariant children <= start.children
        invariant forall q :: Drains(State(), n, budget, q) ==> Drains(start, n, budget, q)
        decreases children
      {
        var row :| row in RowsOf(children, n);
        ghost var at := State();
        children := children - {row};
        r := NftBurn(row.1, budget);
        ghost var child := if r.Ok? then Ok(State()) else Err(r.error);
        forall q | (if r.Err? then q == Err(r.error) else Drains(State(), n, budget, q))
          ensures Drains(start, n, budget, q)
        {
          assert DrainsFirst(at, n, budget, row, child, q);
          assert Drains(at, n, budget, q);
        }
        if r.Err? {
          return;
        }
      }
      assert Drains(State(), n, budget, Ok(State()));
      return Ok(());
    }

    method DecrementCount(c: u32) returns (r: Result<(), Error>)
      modifies this`collections
      ensures Commits(Uncounted(old(State()), c), old(State()), r, State())
    {
      var info :- OkOr(Get(collections, c), CollectionUnknown);
      collections := collections[c := info.(nftsCount := if info.nftsCount == 0 then 0 else info.nftsCount - 1)];
      return Ok(());
    }

    method BurnNft(sender: Account, n: Item, maxBurns: u32) returns (r: Result<(), Error>)
      requires Valid()
      modifies this
      ensures Spec.BurnNft(old(State()), sender, n, maxBurns, if r.Ok? then Ok(State()) else Err(r.error))
      ensures r.Err? ==> State() == old(State())
      ensures Valid()
    {
      hide IdsInv, CollectionsInv, CountersInv, Rooted;
      ghost var before := State();
      var saved := State();
      var root :- LookupRootOwner(owners, n);
      var _ :- Ensure(sender == root.0, NoPermission);
      r := NftBurn(n, maxBurns);
      ghost var q := if r.Ok? then Ok(State()) else Err(r.error);
      assert Burns(before, n, maxBurns, q);
      if r.Ok? {
        r := DoBurn(n);
      }
      assert (if r.Ok? then Ok(State()) else Err(r.error)) == ThenDoBurn(q, n);
      if r.Err? {
        Restore(saved);
      } else {
        BurnNftKeepsInv(before, sender, n, maxBurns, State());
      }
    }

    method RejectNft(sender: Account, n: Item, maxRecursions: u32) returns (r: Result<(), Error>)
      requires Valid()
      modifies this
      ensures Spec.RejectNft(old(State()), sender, n, maxRecursions, if r.Ok? then Ok(State()) else Err(r.error))
      ensures r.Err? ==> State() == old(State())
      ensures Valid()
    {
      hide IdsInv, CollectionsInv, CountersInv, Rooted;
      ghost var before := State();
      var saved := State();
      var root :- LookupRootOwner(owners, n);
      var nft :- OkOr(Get(nfts, n), NoAvailableNftId);
      var _ :- Ensure(nft.pending, CannotRejectNonPendingNft);
      var _ :- Ensure(sender == root.0, CannotRejectNonOwnedNft);
      if owners[n].Virtual? {
        children := children - {(owners[n].item, n)};
      }
      r := NftBurn(n, maxRecursions);
      if r.Err? {
        Restore(saved);
      } else {
        RejectKeepsInv(before, sender, n, maxRecursions, State());
      }
    }

    method SetLock(n: Item, locked: bool)
      modifies this`lock
      ensures lock == if locked then old(lock) + {n} else old(lock) - {n}
    {
      lock := if locked then lock + {n} else lock - {n};
    }
  }
}
