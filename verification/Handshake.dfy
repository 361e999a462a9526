/**
 Sending an NFT to an NFT of somebody else is a handshake: the root owner changes at once, the NFT is
 marked pending, and from then on only the receiving root owner can accept, reject, send or burn it.
 */
module Handshake {
  import opened Prelude
  import opened AccountCodec
  import opened Forest
  import opened Ownership
  import opened CoreSpec
  import opened CoreInvariant

  /** The receiver must accept exactly when the target is not root-owned by the sender. */
  lemma PendingIffForeign(s: Core, sender: Account, n: Item, newOwner: Owner, t: Core)
    requires Rooted(s.owners) && RealOwner(newOwner)
    requires Send(s, sender, n, newOwner) == Ok(t)
    ensures n in s.nfts && n in t.nfts
    ensures var foreign := newOwner.CollectionAndNftTuple? && RootOf(s.owners, newOwner.item).value.0 != sender;
            && (foreign ==> t.nfts[n] == s.nfts[n].(pending := true))
            && (!foreign ==> t.nfts[n] == s.nfts[n].(owner := newOwner))
  {
    SendEffect(s, sender, n, newOwner, t);
  }

  /** After a send to the NFT `target`, both roots are the target's, and the way back is closed. */
  lemma SentBelow(s: Core, sender: Account, n: Item, target: Item, t: Core)
    requires Rooted(s.owners)
    requires Send(s, sender, n, CollectionAndNftTuple(target)) == Ok(t)
    ensures Rooted(t.owners) && t.owners == s.owners[n := Virtual(target)]
    ensures n in t.nfts && target in t.nfts && n != target && n !in t.lock && n.collection in t.collectionOwners
    ensures RootOf(s.owners, target).Ok?
    ensures RootOf(t.owners, n) == RootOf(t.owners, target) == RootOf(s.owners, target)
    ensures !Descends(LinksOf(t.owners), target, n)
  {
    SendEffect(s, sender, n, CollectionAndNftTuple(target), t);
    RootsAfterMove(s.owners, n, Virtual(target), n);
    RootsAfterMove(s.owners, n, Virtual(target), target);
    var l := LinksOf(t.owners);
    assert l[n] == target;
    if Descends(l, target, n) {
      DescendsStep(l, n, n);
    }
  }

  /** Accepting for the NFT it was sent to succeeds at once and does nothing but clear the mark. */
  lemma SendThenAccept(s: Core, sender: Account, n: Item, target: Item, t: Core, receiver: Account)
    requires Rooted(s.owners)
    requires Send(s, sender, n, CollectionAndNftTuple(target)) == Ok(t)
    requires RootOf(s.owners, target).Ok? ==> RootOf(s.owners, target).value.0 == receiver
    ensures n in t.nfts
    ensures AcceptNft(t, receiver, n, CollectionAndNftTuple(target))
            == Ok(t.(nfts := t.nfts[n := t.nfts[n].(pending := false)]))
  {
    SentBelow(s, sender, n, target, t);
    hide Rooted, Descends, RootOf, Send;
    assert t.owners[n := Virtual(target)] == t.owners;
  }

  /** The former root owner has lost every way to dispose of the NFT. */
  lemma SenderLetGo(s: Core, sender: Account, n: Item, target: Item, t: Core, anyOwner: Owner, budget: u32,
                    r: Result<Core, Error>)
    requires Rooted(s.owners)
    requires Send(s, sender, n, CollectionAndNftTuple(target)) == Ok(t)
    requires RootOf(s.owners, target).Ok? ==> RootOf(s.owners, target).value.0 != sender
    ensures Send(t, sender, n, anyOwner) == Err(NoPermission)
    ensures AcceptNft(t, sender, n, anyOwner) == Err(NoPermission)
    ensures BurnNft(t, sender, n, budget, r) ==> r == Err(NoPermission)
    ensures RejectNft(t, sender, n, budget, r) ==> r == Err(CannotRejectNonOwnedNft)
  {
    SentBelow(s, sender, n, target, t);
    PendingIffForeign(s, sender, n, CollectionAndNftTuple(target), t);
    hide Rooted, Descends, RootOf;
  }

  /**
   `accept_nft` for an account asks of the NFT only that it is live, unlocked and root-owned by the
   caller: it need not be pending, and may be equipped or not transferable, though `send` refuses those.
   */
  lemma AcceptToAccountIff(s: Core, sender: Account, n: Item, a: Account)
    ensures AcceptNft(s, sender, n, AccountId(a)).Ok? <==>
            RootedAt(s.owners, n, sender) && n in s.nfts && n !in s.lock && n.collection in s.collectionOwners
    ensures AcceptNft(s, sender, n, AccountId(a)).Ok? ==>
              AcceptNft(s, sender, n, AccountId(a)).value
              == s.(owners := s.owners[n := a], nfts := s.nfts[n := s.nfts[n].(pending := false)])
  {
  }

  /** Into an NFT: the caller must root-own both, and the recipient must be live and not be, or be in, the NFT. */
  lemma AcceptIntoNftIff(s: Core, sender: Account, n: Item, target: Item)
    ensures AcceptNft(s, sender, n, CollectionAndNftTuple(target)).Ok? <==>
            && RootedAt(s.owners, n, sender) && n in s.nfts && n !in s.lock && n.collection in s.collectionOwners
            && RootedAt(s.owners, target, sender) && target in s.nfts
            && !AtOrBelow(LinksOf(s.owners), target, n)
    ensures AcceptNft(s, sender, n, CollectionAndNftTuple(target)).Ok? ==>
              AcceptNft(s, sender, n, CollectionAndNftTuple(target)).value
              == s.(owners := s.owners[n := Virtual(target)], nfts := s.nfts[n := s.nfts[n].(pending := false)])
  {
    hide Rooted, Descends, LookupRootOwner;
  }

  /** The errors of `accept_nft` where one condition fails. */
  lemma AcceptRefusals(s: Core, sender: Account, n: Item, newOwner: Owner)
    requires RootOf(s.owners, n).Ok? && n in s.nfts && n.collection in s.collectionOwners
    ensures !RootedAt(s.owners, n, sender) ==> AcceptNft(s, sender, n, newOwner) == Err(NoPermission)
    ensures RootedAt(s.owners, n, sender) && newOwner.AccountId? && n in s.lock ==>
              AcceptNft(s, sender, n, newOwner) == Err(Locked)
    ensures RootedAt(s.owners, n, sender) && newOwner.CollectionAndNftTuple? ==>
              var target := newOwner.item;
              && (target !in s.nfts ==> AcceptNft(s, sender, n, newOwner) == Err(NoAvailableNftId))
              && (target in s.nfts && AtOrBelow(LinksOf(s.owners), target, n) ==>
                    AcceptNft(s, sender, n, newOwner) == Err(CannotSendToDescendentOrSelf))
              && (target in s.nfts && !AtOrBelow(LinksOf(s.owners), target, n)
                  && RootOf(s.owners, target).Ok? && !RootedAt(s.owners, target, sender) ==>
                    AcceptNft(s, sender, n, newOwner) == Err(CannotAcceptNonOwnedNft))
  {
    hide Rooted, Descends, LookupRootOwner;
  }

  /** What `send` says to the root owner of an NFT that is not to be moved. */
  lemma FixedCannotBeSent(s: Core, sender: Account, n: Item, newOwner: Owner)
    requires n in s.nfts && (s.nfts[n].equipped || !s.nfts[n].transferable)
    ensures Send(s, sender, n, newOwner).Err?
    ensures RootedAt(s.owners, n, sender) ==>
              Send(s, sender, n, newOwner)
              == Err(if s.nfts[n].transferable then CannotSendEquippedItem else NonTransferable)
  {
  }

  // ---------- why accounts must be real ----------

  /**
   Naming the account of an NFT as a plain account skips the descendant check. Whether ownership stays
   acyclic after a send then depends on just that check: for an NFT named as an NFT it always holds.
   */
  lemma SendKeepsForestIff(s: Core, sender: Account, n: Item, newOwner: Owner, t: Core)
    requires Rooted(s.owners)
    requires Send(s, sender, n, newOwner) == Ok(t)
    ensures Rooted(t.owners) <==>
            (OwnerAccount(newOwner).Virtual? ==> !AtOrBelow(LinksOf(s.owners), OwnerAccount(newOwner).item, n))
    ensures newOwner.CollectionAndNftTuple? ==> Rooted(t.owners)
  {
    RootedOnlyAfterGoodMove(s.owners, n, OwnerAccount(newOwner));
    hide Rooted;
  }

  lemma AcceptKeepsForestIff(s: Core, sender: Account, n: Item, newOwner: Owner, t: Core)
    requires Rooted(s.owners)
    requires AcceptNft(s, sender, n, newOwner) == Ok(t)
    ensures Rooted(t.owners) <==>
            (OwnerAccount(newOwner).Virtual? ==> !AtOrBelow(LinksOf(s.owners), OwnerAccount(newOwner).item, n))
    ensures newOwner.CollectionAndNftTuple? ==> Rooted(t.owners)
  {
    RootedOnlyAfterGoodMove(s.owners, n, OwnerAccount(newOwner));
    hide Rooted;
  }

  /** The failing input: an owner sends its NFT to the account the NFT itself stands for. */
  lemma SendToOwnAccountMakesCycle(s: Core, sender: Account, n: Item, t: Core)
    requires Rooted(s.owners)
    requires Send(s, sender, n, AccountId(Virtual(n))) == Ok(t)
    ensures !Rooted(t.owners)
  {
    SendKeepsForestIff(s, sender, n, AccountId(Virtual(n)), t);
  }

  /** Nothing in the call prevents it: the send goes through on an ordinary NFT of the sender. */
  lemma SendToOwnAccountSucceeds(s: Core, sender: Account, n: Item)
    requires Rooted(s.owners) && sender.User?
    requires n in s.owners && s.owners[n] == sender && n in s.nfts && n !in s.lock && n.collection in s.collectionOwners
    requires s.nfts[n].transferable && !s.nfts[n].equipped
    ensures Send(s, sender, n, AccountId(Virtual(n))).Ok?
  {
  }
}
