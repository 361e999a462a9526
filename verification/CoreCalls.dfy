/**
 When each call to rmrk-core goes through, who may make it and what it leaves: free of the order of
 its checks. Where a single condition fails, the error names it.
 */
module CoreCalls {
  import opened Prelude
  import opened AccountCodec
  import opened Forest
  import opened Ownership
  import opened CoreSpec
  import opened CoreInvariant

  // ---------- collections ----------

  /** Anyone may create a collection while ids last; the creator issues it, under the limit given. */
  lemma CreateCollectionIff(s: Core, sender: Account, max: Option<u32>)
    requires CollectionsInv(s)
    ensures CreateCollection(s, sender, max).Ok? <==> s.collectionIndex < MAX_U32
    ensures s.collectionIndex == MAX_U32 ==> CreateCollection(s, sender, max) == Err(NoAvailableCollectionId)
    ensures CreateCollection(s, sender, max).Ok? ==>
              var t := CreateCollection(s, sender, max).value; var c := s.collectionIndex;
              && c !in s.collections && t.collectionIndex == c + 1
              && t == s.(collectionIndex := t.collectionIndex, collections := t.collections,
                         collectionOwners := t.collectionOwners)
              && t.collections == s.collections[c := CollectionInfo(sender, max, 0)]
              && t.collectionOwners == s.collectionOwners[c := sender]
  {
  }

  /** Only the issuer may destroy a collection, once its counter is zero and it has no items. */
  lemma DestroyCollectionIff(s: Core, sender: Account, c: u32)
    requires CollectionsInv(s)
    ensures DestroyCollection(s, sender, c).Ok? <==>
            && c in s.collections && s.collections[c].issuer == sender && s.collections[c].nftsCount == 0
            && (forall x :: x in s.owners ==> x.collection != c)
    ensures DestroyCollection(s, sender, c).Ok? ==>
              DestroyCollection(s, sender, c).value
              == s.(collections := s.collections - {c}, collectionOwners := s.collectionOwners - {c})
    ensures c !in s.collections ==> DestroyCollection(s, sender, c) == Err(CollectionUnknown)
    ensures c in s.collections && s.collections[c].nftsCount > 0 ==>
              DestroyCollection(s, sender, c) == Err(CollectionNotEmpty)
  {
    hide ItemsOf;
    NoItemsIff(s.owners, c);
  }

  lemma NoItemsIff(o: Owners, c: u32)
    ensures ItemsOf(o, c) == {} <==> forall x :: x in o ==> x.collection != c
  {
    if ItemsOf(o, c) == {} {
      forall x | x in o
        ensures x.collection != c
      {
        assert x !in ItemsOf(o, c);
      }
    }
  }

  /** Only the issuer may hand a collection over, to an account that has agreed; both pallets then name that account. */
  lemma ChangeIssuerIff(s: Core, sender: Account, c: u32, newIssuer: Account, accepted: bool)
    requires CollectionsInv(s)
    ensures ChangeCollectionIssuer(s, sender, c, newIssuer, accepted).Ok? <==>
            c in s.collections && s.collections[c].issuer == sender && accepted
    ensures ChangeCollectionIssuer(s, sender, c, newIssuer, accepted).Ok? ==>
              var t := ChangeCollectionIssuer(s, sender, c, newIssuer, accepted).value;
              && t == s.(collections := t.collections, collectionOwners := t.collectionOwners)
              && t.collections == s.collections[c := s.collections[c].(issuer := newIssuer)]
              && t.collectionOwners == s.collectionOwners[c := newIssuer]
    ensures c in s.collections && s.collections[c].issuer != sender ==>
              ChangeCollectionIssuer(s, sender, c, newIssuer, accepted) == Err(NoPermission)
  {
  }

  /** Only the issuer may lock a collection; its limit is then what is counted, whatever it was before. */
  lemma LockCollectionIff(s: Core, sender: Account, c: u32)
    ensures LockCollection(s, sender, c).Ok? <==> c in s.collections && s.collections[c].issuer == sender
    ensures LockCollection(s, sender, c).Ok? ==>
              LockCollection(s, sender, c).value
              == s.(collections := s.collections[c := s.collections[c].(max := Some(s.collections[c].nftsCount))])
    ensures c in s.collections && s.collections[c].issuer != sender ==>
              LockCollection(s, sender, c) == Err(NoPermission)
  {
  }

  // ---------- resources ----------

  /** What a resource lets its NFT equip: a row for the base of a composable one, and for nothing else. */
  lemma BaseRowsAre(n: Item, resource: Resource, row: (Item, u32))
    ensures row in BaseRows(n, resource) <==> resource.Composable? && row == (n, resource.base)
  {
  }

  /** Where a resource lets its NFT be equipped: the slot of a slot resource, or the one a composable may have. */
  lemma SlotRowsAre(n: Item, id: u32, resource: Resource, row: (Item, u32, u32, u32))
    ensures row in SlotRows(n, id, resource) <==>
            || (resource.Slot? && row == (n, id, resource.base, resource.slotId))
            || (resource.Composable? && resource.slot.Some?
                && row == (n, id, resource.slot.value.0, resource.slot.value.1))
  {
  }

  /**
   Only the issuer may add a resource, to an unlocked NFT that has a root owner. It gets the next id of the NFT, and is
   pending just when it is added after the mint to an NFT of somebody else.
   */
  lemma ResourceAddIff(s: Core, sender: Account, n: Item, resource: Resource, addingOnMint: bool)
    ensures ResourceAdd(s, sender, n, resource, addingOnMint).Ok? <==>
            && n.collection in s.collections && s.collections[n.collection].issuer == sender
            && RootOf(s.owners, n).Ok? && n !in s.lock && Count(s.nextResourceId, n) < MAX_U32
    ensures ResourceAdd(s, sender, n, resource, addingOnMint).Ok? ==>
              var t := ResourceAdd(s, sender, n, resource, addingOnMint).value; var id := Count(s.nextResourceId, n);
              && t == s.(nextResourceId := s.nextResourceId[n := id + 1], resources := t.resources,
                         equippableBases := s.equippableBases + BaseRows(n, resource),
                         equippableSlots := s.equippableSlots + SlotRows(n, id, resource))
              && t.resources.Keys == s.resources.Keys + {(n, id)}
              && t.resources[(n, id)].resource == resource
              && (t.resources[(n, id)].pending <==> !addingOnMint && !RootedAt(s.owners, n, sender))
              && (forall k :: k in s.resources && k != (n, id) ==> t.resources[k] == s.resources[k])
  {
    hide LookupRootOwner, Rooted;
  }

  /** The resource is stored under its id, and the owner need not accept it. */
  predicate Stored(t: Core, n: Item, id: int, resource: Resource) {
    0 <= id <= MAX_U32 && (n, id) in t.resources && t.resources[(n, id)] == ResourceInfo(false, resource)
  }

  predicate AllStored(t: Core, n: Item, first: nat, resources: seq<Resource>) {
    forall i :: 0 <= i < |resources| ==> Stored(t, n, first + i, resources[i])
  }

  /** At a mint all resources are added, in order, under consecutive ids, and none is pending. */
  lemma {:induction false} AddAtMintIff(s: Core, sender: Account, n: Item, resources: seq<Resource>)
    requires n.collection in s.collections && s.collections[n.collection].issuer == sender
    requires RootOf(s.owners, n).Ok? && n !in s.lock
    ensures AddAtMint(s, sender, n, resources).Ok? <==> Count(s.nextResourceId, n) + |resources| <= MAX_U32
    ensures AddAtMint(s, sender, n, resources).Ok? ==>
              var t := AddAtMint(s, sender, n, resources).value; var first := Count(s.nextResourceId, n);
              && Count(t.nextResourceId, n) == first + |resources|
              && AllStored(t, n, first, resources)
              && (forall k :: k in s.resources && (k.0 != n || k.1 < first) ==>
                    k in t.resources && t.resources[k] == s.resources[k])
    decreases |resources|
  {
    hide RootOf, ResourceAdd, Stored;
    var first := Count(s.nextResourceId, n);
    if resources != [] {
      ResourceAddIff(s, sender, n, resources[0], true);
      var added := ResourceAdd(s, sender, n, resources[0], true);
      if added.Ok? {
        var rest := resources[1..];
        AddAtMintIff(added.value, sender, n, rest);
        var all := AddAtMint(added.value, sender, n, rest);
        if all.Ok? {
          assert Stored(all.value, n, first, resources[0]) by { UnfoldStored(all.value, n, first, resources[0]); }
          forall i | 0 <= i < |resources|
            ensures Stored(all.value, n, first + i, resources[i])
          {
            if i > 0 {
              assert Stored(all.value, n, first + 1 + (i - 1), rest[i - 1]);
            }
          }
        }
      }
    }
  }

  lemma UnfoldStored(t: Core, n: Item, id: u32, resource: Resource)
    requires (n, id) in t.resources && t.resources[(n, id)] == ResourceInfo(false, resource)
    ensures Stored(t, n, id, resource)
  {
  }

  // ---------- minting ----------

  /** Who may mint in `c`, and while there is room: only its owner, below the limit, while ids last. */
  predicate MayMint(s: Core, sender: Account, c: u32) {
    && c in s.collections && s.collections[c].issuer == sender
    && Count(s.nextNftId, c) < MAX_U32
    && (s.collections[c].max.Some? ==> Count(s.nextNftId, c) < s.collections[c].max.value)
  }

  /** Room for the at-mint resources: a mint without any needs none. */
  predicate ResourceIdsLast(s: Core, n: Item, resources: seq<Resource>) {
    resources == [] || Count(s.nextResourceId, n) + |resources| <= MAX_U32
  }

  /** What both mints write before the resources are added. */
  lemma MintCore(s: Core, sender: Account, c: u32, owner: Account, nft: NftInfo) returns (u: Core)
    requires CoreInv(s) && MayMint(s, sender, c)
    ensures s.collections[c].nftsCount < MAX_U32
    ensures u == s.(nextNftId := s.nextNftId[c := Count(s.nextNftId, c) + 1],
                    nfts := s.nfts[Minted(s, c) := nft],
                    owners := s.owners[Minted(s, c) := owner],
                    collections := s.collections[c := s.collections[c].(nftsCount := s.collections[c].nftsCount + 1)])
    ensures OpenSlot(s, c).Ok? && OpenSlot(s, c).value.1 == Minted(s, c)
    ensures InsertMinted(OpenSlot(s, c).value.0, Minted(s, c), nft).Ok?
    ensures DoMint(InsertMinted(OpenSlot(s, c).value.0, Minted(s, c), nft).value, Minted(s, c), owner) == Ok(u)
    ensures Minted(s, c) !in u.lock && u.collections[c].issuer == sender
  {
    hide Rooted, CountersInv, IdsInv;
    CounterHasRoom(s, c);
    MintedIsFresh(s, c);
    u := s.(nextNftId := s.nextNftId[c := Count(s.nextNftId, c) + 1],
            nfts := s.nfts[Minted(s, c) := nft],
            owners := s.owners[Minted(s, c) := owner],
            collections := s.collections[c := s.collections[c].(nftsCount := s.collections[c].nftsCount + 1)]);
  }

  lemma MintedHasRoot(s: Core, c: u32, owner: Account)
    requires CoreInv(s) && (owner.Virtual? ==> RootOf(s.owners, owner.item).Ok?)
    ensures RootOf(s.owners[Minted(s, c) := owner], Minted(s, c)).Ok?
  {
    hide CollectionsInv, CountersInv;
    MintedIsFresh(s, c);
    var n, o := Minted(s, c), s.owners[Minted(s, c) := owner];
    hide IdsInv, Rooted;
    if owner.Virtual? {
      RootIsItem(s.owners, owner.item);
    }
    RootedAfterMint(s.owners, n, owner);
    if owner.Virtual? {
      if Descends(LinksOf(s.owners), owner.item, n) {
        var y := DescendsLast(LinksOf(s.owners), owner.item, n);
      }
      RootElsewhere(s.owners, o, n, owner.item);
    }
  }

  /**
   `mint_nft` goes through for the owner of the collection below its limit while ids last, and for nobody else. The
   limit counts ids: one equal to it is refused.
   */
  lemma MintNftIff(s: Core, sender: Account, owner: Option<Account>, c: u32, transferable: bool,
                   resources: seq<Resource>)
    requires CoreInv(s) && sender.User? && (owner.Some? ==> owner.value.User?)
    ensures MintNft(s, sender, owner, c, transferable, resources).Ok? <==>
            MayMint(s, sender, c) && ResourceIdsLast(s, Minted(s, c), resources)
    ensures MintNft(s, sender, owner, c, transferable, resources).Ok? ==>
              var t := MintNft(s, sender, owner, c, transferable, resources).value;
              AllStored(t, Minted(s, c), Count(s.nextResourceId, Minted(s, c)), resources)
  {
    hide CoreInv, AddAtMint, ResourceAdd, RootOf, MintNft, ResourceIdsLast, AllStored;
    MintRefusals(s, sender, owner, c, transferable, resources);
    if MayMint(s, sender, c) {
      var u := MintWrites(s, sender, owner, c, transferable, resources);
      var n := Minted(s, c);
      AddAtMintIff(u, sender, n, resources);
      NoResources(u, sender, n, resources);
      SameRoom(s, u, n, resources);
    }
  }

  lemma MintWrites(s: Core, sender: Account, owner: Option<Account>, c: u32, transferable: bool,
                   resources: seq<Resource>)
    returns (u: Core)
    requires CoreInv(s) && MayMint(s, sender, c) && sender.User? && (owner.Some? ==> owner.value.User?)
    ensures MintNft(s, sender, owner, c, transferable, resources) == AddAtMint(u, sender, Minted(s, c), resources)
    ensures c in u.collections && u.collections[c].issuer == sender && u.nextResourceId == s.nextResourceId
    ensures RootOf(u.owners, Minted(s, c)).Ok? && Minted(s, c) !in u.lock
  {
    hide CoreInv, AddAtMint, RootOf, OpenSlot, InsertMinted, DoMint;
    AgreedIssuer(s, c);
    var a := if owner.Some? then owner.value else sender;
    u := MintCore(s, sender, c, a, NftInfo(AccountId(a), false, a != sender, transferable));
    MintedHasRoot(s, c, a);
  }

  /** A stranger gets NoPermission, a full collection CollectionFullOrLocked: an id equal to the limit is refused. */
  lemma MintRefusals(s: Core, sender: Account, owner: Option<Account>, c: u32, transferable: bool,
                     resources: seq<Resource>)
    requires CoreInv(s)
    ensures MintNft(s, sender, owner, c, transferable, resources).Ok? ==> MayMint(s, sender, c)
    ensures c in s.collections && s.collections[c].issuer != sender ==>
              MintNft(s, sender, owner, c, transferable, resources) == Err(NoPermission)
    ensures c !in s.collections ==> MintNft(s, sender, owner, c, transferable, resources) == Err(CollectionUnknown)
    ensures c in s.collections && s.collections[c].issuer == sender && Count(s.nextNftId, c) < MAX_U32
            && !MayMint(s, sender, c) ==>
              MintNft(s, sender, owner, c, transferable, resources) == Err(CollectionFullOrLocked)
  {
    hide CoreInv, AddAtMint;
    AgreedIssuer(s, c);
  }

  lemma AgreedIssuer(s: Core, c: u32)
    requires CoreInv(s)
    ensures c in s.collections <==> c in s.collectionOwners
    ensures c in s.collections ==> s.collections[c].issuer == s.collectionOwners[c]
  {
  }

  lemma NoResources(s: Core, sender: Account, n: Item, resources: seq<Resource>)
    ensures resources == [] ==> AddAtMint(s, sender, n, resources) == Ok(s)
  {
  }

  /** The same for a mint into an NFT, which must have a root owner. */
  lemma MintDirectlyIff(s: Core, sender: Account, parent: Item, c: u32, transferable: bool, resources: seq<Resource>)
    requires CoreInv(s)
    ensures MintNftDirectlyToNft(s, sender, parent, c, transferable, resources).Ok? <==>
            && MayMint(s, sender, c) && RootOf(s.owners, parent).Ok?
            && ResourceIdsLast(s, Minted(s, c), resources)
    ensures MintNftDirectlyToNft(s, sender, parent, c, transferable, resources).Ok? ==>
              var t := MintNftDirectlyToNft(s, sender, parent, c, transferable, resources).value;
              AllStored(t, Minted(s, c), Count(s.nextResourceId, Minted(s, c)), resources)
  {
    hide CoreInv, AddAtMint, ResourceAdd, RootOf, MintNftDirectlyToNft, ResourceIdsLast, AllStored;
    MintDirectlyRefusals(s, sender, parent, c, transferable, resources);
    if MayMint(s, sender, c) && RootOf(s.owners, parent).Ok? {
      var u := MintDirectlyWrites(s, sender, parent, c, transferable, resources);
      var n := Minted(s, c);
      AddAtMintIff(u, sender, n, resources);
      NoResources(u, sender, n, resources);
      SameRoom(s, u, n, resources);
    }
  }

  lemma SameRoom(s: Core, u: Core, n: Item, resources: seq<Resource>)
    requires u.nextResourceId == s.nextResourceId
    ensures ResourceIdsLast(s, n, resources) <==> resources == [] || Count(u.nextResourceId, n) + |resources| <= MAX_U32
  {
  }

  lemma MintDirectlyWrites(s: Core, sender: Account, parent: Item, c: u32, transferable: bool, resources: seq<Resource>)
    returns (u: Core)
    requires CoreInv(s) && MayMint(s, sender, c) && RootOf(s.owners, parent).Ok?
    ensures MintNftDirectlyToNft(s, sender, parent, c, transferable, resources)
            == AddAtMint(u, sender, Minted(s, c), resources)
    ensures c in u.collections && u.collections[c].issuer == sender && u.nextResourceId == s.nextResourceId
    ensures RootOf(u.owners, Minted(s, c)).Ok? && Minted(s, c) !in u.lock
  {
    hide CoreInv, AddAtMint, RootOf, OpenSlot, InsertMinted, DoMint;
    AgreedIssuer(s, c);
    var pending := RootOf(s.owners, parent).value.0 != sender;
    u := MintCore(s, sender, c, Virtual(parent), NftInfo(CollectionAndNftTuple(parent), false, pending, transferable));
    MintedHasRoot(s, c, Virtual(parent));
    SlotKeepsOwners(s, c);
  }

  lemma SlotKeepsOwners(s: Core, c: u32)
    ensures OpenSlot(s, c).Ok? ==> OpenSlot(s, c).value.0.owners == s.owners
  {
  }

  /** Nobody but the owner of the collection mints into an NFT, and only into one that has a root owner. */
  lemma MintDirectlyRefusals(s: Core, sender: Account, parent: Item, c: u32, transferable: bool,
                             resources: seq<Resource>)
    requires CoreInv(s)
    ensures MintNftDirectlyToNft(s, sender, parent, c, transferable, resources).Ok? ==>
              MayMint(s, sender, c) && RootOf(s.owners, parent).Ok?
    ensures c in s.collections && s.collections[c].issuer != sender ==>
              MintNftDirectlyToNft(s, sender, parent, c, transferable, resources) == Err(NoPermission)
    ensures c !in s.collections ==>
              MintNftDirectlyToNft(s, sender, parent, c, transferable, resources) == Err(CollectionUnknown)
    ensures MayMint(s, sender, c) && parent !in s.owners ==>
              MintNftDirectlyToNft(s, sender, parent, c, transferable, resources) == Err(NoAvailableNftId)
  {
    hide CoreInv, AddAtMint, RootOf;
    AgreedIssuer(s, c);
    InvIsRooted(s);
    if parent !in s.owners {
      MissingHasNoRoot(s.owners, parent);
    }
  }

  // ---------- sending ----------

  /** The NFT can be moved at all: live, transferable, not equipped, not locked, in a known collection. */
  predicate CanMove(s: Core, n: Item) {
    && n in s.nfts && s.nfts[n].transferable && !s.nfts[n].equipped
    && n !in s.lock && n.collection in s.collectionOwners
  }

  /** Where it can go: any account, or a live NFT with a root owner that is not the NFT or nested in it. */
  ghost predicate CanReceive(s: Core, n: Item, newOwner: Owner) {
    newOwner.CollectionAndNftTuple? ==>
      && newOwner.item in s.nfts && RootOf(s.owners, newOwner.item).Ok?
      && newOwner.item != n && !Descends(LinksOf(s.owners), newOwner.item, n)
  }

  /** The root owner may send an NFT, nested or not, to an account or into an NFT: exactly when `send` succeeds. */
  lemma SendIff(s: Core, sender: Account, n: Item, newOwner: Owner)
    ensures Send(s, sender, n, newOwner).Ok? <==>
            RootedAt(s.owners, n, sender) && CanMove(s, n) && CanReceive(s, n, newOwner)
  {
    hide Rooted, Descends, LookupRootOwner;
    if RootOf(s.owners, n).Ok? {
      RootIsItem(s.owners, n);
    }
  }

  /** The error of `send` where one condition fails and all others hold. */
  lemma SendRefusals(s: Core, sender: Account, n: Item, newOwner: Owner)
    requires RootOf(s.owners, n).Ok? && n in s.nfts && n.collection in s.collectionOwners
    ensures !RootedAt(s.owners, n, sender) ==> Send(s, sender, n, newOwner) == Err(NoPermission)
    ensures RootedAt(s.owners, n, sender) && CanMove(s, n) && newOwner.CollectionAndNftTuple? ==>
              var target := newOwner.item;
              && (target !in s.nfts ==> Send(s, sender, n, newOwner) == Err(NoAvailableNftId))
              && (target in s.nfts && AtOrBelow(LinksOf(s.owners), target, n) ==>
                    Send(s, sender, n, newOwner) == Err(CannotSendToDescendentOrSelf))
    ensures RootedAt(s.owners, n, sender) && CanReceive(s, n, newOwner)
            && s.nfts[n].transferable && !s.nfts[n].equipped && n in s.lock ==>
              Send(s, sender, n, newOwner) == Err(Locked)
  {
    hide Rooted, Descends, LookupRootOwner;
    RootIsItem(s.owners, n);
  }
}
