# RMRK pallets: nested ownership, market and equipment

This project models three Substrate pallets that let NFTs own NFTs: rmrk-core (collections, minting, sending,
accepting, rejecting, burning), rmrk-market (listings and offers with reserved funds) and rmrk-equip (putting child
NFTs into the slots of a parent). They share one storage and drive pallet_uniques, whose owner table holds the true
owner of every item. The model is one storage state machine; the theorems are about every reachable state, every step,
or every input of a call.

## How it is built

- `Prelude`, `AccountCodec`: 32-bit integers, results, error names; the byte encoding of an NFT key as an account.
  Everywhere else an account is seen through `decode_nft_account_id`, as `User(bytes)` or `Virtual(item)`;
  `AccountCodec.ViewIsExact` shows that nothing is lost by that on account ids of 16 bytes or more.
- `Forest`, `Ownership`: paths of owners, and the two unbounded lookups of rmrk-core. `Rows`: the `Children` index as a
  relation without assumptions, and what can be reached along its rows.
- `CoreSpec`, `MarketSpec`, `EquipSpec`, `Balances`: every call as a function from storage to `Ok(storage)` or
  `Err(error)`, with the checks in the order of the source. `nft_burn` is a relation, `CoreSpec.Burns`, because the
  order in which rows are drained is up to the storage layer.
- `CorePallet`, `MarketPallet`, `EquipPallet`: the pallets as objects whose methods update the storage maps in place,
  with the snapshot and restore of `#[transactional]`. Each method is proved against the function of the same name,
  error code included.
- `CoreCalls`, `MarketCalls`: for each call, exactly when it goes through, what it leaves, and its error where one condition
  fails, free of the order of the checks. (Accepting, burning, rejecting and equipping: `Handshake`, `ChildIndex`,
  `EquipTheory`.) `Authority`: the same seen from the outside, who can make a step do what.
- `BurnTheory`, `BurnBudget`, `BurnOrder`: what a burn removes, on any table of rows; when it succeeds, and when the
  counters come out right, in every order of draining.
- `ChildIndex`, `CoreInvariant`, `Handshake`, `MarketTheory`, `EquipTheory`, `RoundTrips`: what the calls mean, one by
  one and together.
- `Chain`, `ChainInvariant`, `Safety`, `Listings`, `Supply`, `Counting`, `Remains`, `Runs`: steps, runs, invariants of
  every run, consent, listings and offers over time, supply, counters, and what burnt NFTs leave behind.
- `FailingInputs`, `FailingBurns`, `FailingSales`, `FailingSlots`: concrete states, reached by calls that go through, at which the code
  does not do what one would hope.

In `Chain.Step` a call either executes or leaves the state alone. The second case also stands for refusals the model
does not explain (a deposit that cannot be paid, for instance), so a run may contain any of those.

### Hypotheses

- Signers and plain-account arguments are real accounts: they do not decode to an NFT (`Chain.RealCall`).
  `Handshake.SendKeepsForestIff` shows that this is needed, and exactly when it could be dropped for one call;
  `Handshake.SendToOwnAccountMakesCycle` and `SendToOwnAccountSucceeds` give the input that breaks ownership without it.
- Nothing but these pallets writes item owners: direct calls to pallet_uniques are filtered by the runtime
  (runtime/src/lib.rs:169-193), and pallet_uniques asks rmrk-core for locks (runtime/src/lib.rs:392).
- "Documented" runs, where a theorem says so: every `accept_nft` that goes through names the recipient the NFT was sent to
  (pallets/rmrk-core/src/lib.rs:604-605), and, for theorems about slots, every `equip` on a taken slot that goes through names the item in it.
  `mint_nft_directly_to_nft` is allowed; `Runs.Rowless` is the set of NFTs that have no row because of it.
- `State.seats` is not a storage item. `Equippings` stores the equipped resource but not whose it is, so the state
  machine remembers the item beside it, to be able to say which NFT sits where.

### Results that differ from what one would hope

For each: the exact condition, and an input that fails it.

- A burn does not succeed just when the longest chain of rows fits `max_burns`: an NFT with two rows may be burnt early,
  and its own row then goes with it. `ChildIndex.BurnNftSucceedsIff`: on every table, cycles included, all orders of
  draining succeed iff all collections reached exist and no way down that respects this (`BurnBudget.WayDown`) has
  `max_burns` rows; without a cycle below the NFT, iff they exist and the longest chain fits. One order may succeed where
  another fails: `FailingBurns.ShortcutBurns` and `FailingBurns.ShortcutRunsOut` are two orders of one burn at one budget,
  with everything alive. On a tree, and so in documented runs, all orders agree (`Runs.BurnIsDecided`).
- An NFT may become impossible to burn. If a row leads to an NFT that was burnt, and its collection is destroyed, no burn
  or rejection that reaches the row ever succeeds (`BurnBudget.BurnPossibleIff`, `Runs.DeadRowForever`; the input is
  `FailingBurns.DeadRowInput`).
- `nfts_count` is not always the number of live NFTs. Rows of dead NFTs are counted off again, and an NFT with two rows
  may be counted off twice, depending on the order in which the storage layer drains. `BurnOrder.BurnKeepsCounterIff`:
  on every table of rows an exact counter stays exact in all orders iff the burn takes all live NFTs of the collection,
  or reaches no dead one of it and none with two ways to it (`BurnOrder.Twice`), or cannot succeed at all.
  `FailingInputs.DeadNftCounted` fails by a dead NFT; `FailingInputs.TwoParentsMiscount` by two rows, with everything alive
  before the burn; `FailingInputs.OrderMatters` gives another order of that same burn in which the count comes out right.
  No other call makes an exact counter wrong (`Counting.StepKeepsCounter`, `Runs.CounterStaysExact`), and in every run
  the counter is at most the number of live NFTs (`Runs.CountersOrdered`).
- A burn leaves items without a root owner: exactly those nested in the NFT that stay in pallet_uniques
  (`Remains.BurnOrphans`), where nobody can move them ever again (`Remains.OrphanIsStuck`, `Runs.OrphanForever`).
  On an exact index none of them is live (`ChildIndex.BurnNftRemovesSubtree`); after a direct mint one may be
  (`FailingBurns.DirectMintOrphaned`).
- `mint_nft_directly_to_nft` never enters the new NFT in `Children` (`ChildIndex.MintDirectlyBreaksIndex`;
  `FailingInputs.DirectMint`), so a burn of its parent leaves it. `Runs.RemovalIsExact` says what a burn removes then.
- `accept_nft` may leave a row behind (`ChildIndex.AcceptKeepsIndexIff` says exactly when;
  `FailingInputs.MisnamedAcceptance`).
- `accept_nft` moves equipped and non-transferable NFTs, to any account, pending or not: `Handshake.AcceptToAccountIff`,
  `FailingSlots.AcceptMovesEquipped`, `FailingSlots.AcceptMovesSoulbound`. It is the only call that does
  (`Safety.FixedMovesOnlyByAccept`).
- A wrongly named `equip` on a taken slot may clear the flag of an NFT that sits elsewhere
  (`EquipTheory.UnequipSeatsIff` says exactly when flags and seats stay in step; `FailingSlots.WrongNameEmptiesSlot`).
- `accept_offer` unlocks the NFT but keeps a listing of it; no other call leaves a listed NFT unlocked
  (`Listings.StaleIff`, for each NFT by itself). When the NFT comes back to its lister the old listing sells it again,
  at the old price and without a new `list` (`FailingSales.OldListingSellsAgain`, from the chain of
  `FailingSales.Market0IsReady`; `MarketCalls.BuyIff`).
- `withdraw_offer` needs the item to exist (`MarketTheory.WithdrawSucceedsIff`): an offer on an NFT that was burnt keeps
  its reserve for good (`Runs.OfferOnBurntStays`; `FailingSales.OfferOutlivesNft`).
- A pending NFT with a chain below it longer than the configured limit can never be rejected
  if the rows below it are a tree (`ChildIndex.RejectNftOutcome`; in general `ChildIndex.RejectNftSucceedsIff`).
  `FailingBurns.NeverRejected` reaches one for every limit up to 2^32 - 3.

## Model

| member | source | states |
|---|---|---|
| AccountCodec.DecodeEncode | pallets/rmrk-core/src/functions.rs:644-679 | decoding the account of an NFT gives the NFT back iff account ids have at least 16 bytes, for every width |
| AccountCodec.AccountLayout | pallets/rmrk-core/src/functions.rs:641-661 | bytes 0 to 7 are the text RmrkNft/, then come the base-256 digits of collection and NFT id, lowest first, four each, then zeros |
| AccountCodec.EncodeDecode | pallets/rmrk-core/src/functions.rs:663-679 | an account that decodes to an NFT is byte for byte the account of that NFT: no collisions |
| AccountCodec.ViewIsExact | pallets/rmrk-core/src/functions.rs:663-679 | seeing accounts as real or as an NFT is a bijection on account ids of a fixed width of 16 bytes or more |
| AccountCodec.UintRoundTrip | pallets/rmrk-core/src/functions.rs:648-650 | the fixed-width little-endian encoding of a number that fits decodes to the number |
| AccountCodec.UintCanonical | pallets/rmrk-core/src/functions.rs:666-671 | decoding bytes and encoding the number at the same width gives the bytes back |
| Ownership.LookupRootOwner | pallets/rmrk-core/src/functions.rs:692-704 | on an acyclic table the lookup ends; it finds a real account that owns an item at or above the NFT, or reports a missing item |
| Ownership.IsXDescendentOfY | pallets/rmrk-core/src/functions.rs:740-770 | true exactly when a non-empty path of owners leads from x to y |
| Ownership.LookupIsBounded | pallets/rmrk-core/src/functions.rs:740-770 | the descendant check makes no more calls than the root lookup, and that at most one per item, plus one if it runs into a missing parent |
| Ownership.DescentStopsEarlier | pallets/rmrk-core/src/functions.rs:740-770 | a descendant check that answers yes stops after as many calls as y is steps above x |
| Ownership.RootedOnlyAfterGoodMove | pallets/rmrk-core/src/functions.rs:473-482 | re-parenting keeps ownership acyclic iff the new parent is neither the NFT nor below it: the two checks are exact |
| Ownership.RootsAfterMove | pallets/rmrk-core/src/functions.rs:692-704 | moving an NFT gives its whole subtree the root owner of the new parent and changes no other root owner |
| CoreCalls.CreateCollectionIff | pallets/rmrk-core/src/functions.rs:224-241 | anyone creates a collection while ids last and becomes its issuer in both pallets, under the limit given, counter zero |
| CoreCalls.DestroyCollectionIff | pallets/rmrk-core/src/lib.rs:539-559 | only the issuer destroys, once counter and items are gone; both pallets forget the collection |
| CoreCalls.ChangeIssuerIff | pallets/rmrk-core/src/lib.rs:666-693 | only the issuer hands over, to an account that agreed, which both pallets then name |
| CoreCalls.LockCollectionIff | pallets/rmrk-core/src/functions.rs:265-276 | only the issuer locks; the limit becomes the count whatever it was |
| CoreCalls.ResourceAddIff | pallets/rmrk-core/src/functions.rs:78-131 | only the issuer adds, to an unlocked NFT with a root owner, under the next id; pending iff added after the mint to an NFT of somebody else |
| CoreCalls.SlotRowsAre | pallets/rmrk-core/src/functions.rs:100-119 | which slots a resource opens for its NFT: that of a slot resource, or the one a composable may have |
| CoreCalls.BaseRowsAre | pallets/rmrk-core/src/functions.rs:100-119 | which base a resource opens for equipping: that of a composable one |
| CoreCalls.AddAtMintIff | pallets/rmrk-core/src/lib.rs:401-405 | at-mint resources are stored in order under consecutive ids, none pending, iff the ids last |
| CoreCalls.MintNftIff | pallets/rmrk-core/src/lib.rs:357-414 | a mint goes through iff the signer owns the collection, NFT and resource ids last and the next id is below the limit; the resources given are then stored |
| CoreCalls.MintRefusals | pallets/rmrk-core/src/lib.rs:371-371 | a stranger gets NoPermission, a full collection CollectionFullOrLocked, an id equal to the limit included |
| CoreCalls.MintDirectlyIff | pallets/rmrk-core/src/lib.rs:427-483 | the same for a mint into an NFT, which must have a root owner |
| CoreCalls.MintDirectlyRefusals | pallets/rmrk-core/src/lib.rs:427-483 | its errors |
| CoreCalls.SendIff | pallets/rmrk-core/src/functions.rs:435-525 | a send goes through iff the signer is the root owner, nested or not, the NFT can be moved, and the recipient is an account or a live NFT with a root owner that is not at or below it |
| CoreCalls.SendRefusals | pallets/rmrk-core/src/functions.rs:435-525 | the error of a send where one condition fails |
| CoreInvariant.MintKeepsInv | pallets/rmrk-core/src/lib.rs:357-414 | a mint keeps acyclicity, id allocation and counters: ids are never reused and parents already exist |
| CoreInvariant.MoveKeepsInv | pallets/rmrk-core/src/lib.rs:570-633 | a send or an acceptance keeps all invariants of rmrk-core |
| CoreInvariant.BurnNftKeepsInv | pallets/rmrk-core/src/lib.rs:518-534 | a burn keeps all invariants, whatever the `Children` rows look like |
| CoreInvariant.CountersBounded | pallets/rmrk-core/src/functions.rs:330-336 | nfts_count is at most the number of live NFTs, which is at most the number of ids handed out |
| CoreInvariant.MintNeverOverflows | pallets/rmrk-core/src/functions.rs:331-331 | the checked addition of either mint cannot fail in a reachable state |
| BurnTheory.BurnsExact | pallets/rmrk-core/src/functions.rs:399-433 | on any table of rows, cyclic or not, a successful burn removes exactly the NFTs reached from the burnt one, with their resources, all rows under them and the recorded own row of each live one, and changes nothing else but counters |
| BurnTheory.BurnsCount | pallets/rmrk-core/src/functions.rs:425-430 | every NFT reached is counted off at least once, dead or alive |
| BurnTheory.BurnSucceeds | pallets/rmrk-core/src/functions.rs:404-423 | with the collections known a burn fails only for the budget, and cannot fail if every chain of rows fits it |
| BurnTheory.BurnNeedsBudget | pallets/rmrk-core/src/functions.rs:404-423 | where the rows below are a tree, a burn that succeeds had the budget for the longest chain |
| BurnTheory.BurnNeedsCollections | pallets/rmrk-core/src/functions.rs:425-430 | no burn succeeds that reaches an NFT whose collection does not exist |
| BurnBudget.BurnPossibleIff | pallets/rmrk-core/src/functions.rs:399-433 | some budget and some order carry a burn through iff all collections reached exist, on any table |
| BurnBudget.AlwaysBurnsIff | pallets/rmrk-core/src/functions.rs:404-423 | on any table, cyclic or not, every order succeeds iff all collections reached exist and no way down is as long as the budget |
| BurnBudget.BurnMayRunOut | pallets/rmrk-core/src/functions.rs:404-423 | a way down as long as the budget makes some order fail with TooManyRecursions |
| BurnBudget.RunOutHasWay | pallets/rmrk-core/src/functions.rs:404-423 | and only such a way does |
| BurnBudget.LargeBudgetSuffices | pallets/rmrk-core/src/functions.rs:404-423 | with a budget above the number of rows every order succeeds iff the collections exist |
| BurnBudget.AcyclicAlwaysBurnsIff | pallets/rmrk-core/src/functions.rs:404-423 | without a cycle below the NFT every order succeeds iff the collections exist and the longest chain fits |
| BurnTheory.BurnIgnoresOrder | pallets/rmrk-core/src/functions.rs:419-423 | on any table two successful burns end in the same storage but for counters, whatever order rows were drained in |
| BurnOrder.BurnKeepsCounterIff | pallets/rmrk-core/src/functions.rs:425-430 | on any table an exact counter stays exact in every order of draining iff the burn takes all live NFTs of the collection, or reaches no dead one and none that has two ways to it, or no burn can succeed |
| Counting.BurnNftKeepsCounterIff | pallets/rmrk-core/src/lib.rs:518-534 | the same for the whole call burn_nft, by anybody |
| Counting.RejectNftKeepsCounterIff | pallets/rmrk-core/src/functions.rs:579-617 | the same for reject_nft, whose burn starts without the row under the true owner |
| Counting.StepKeepsCounter | pallets/rmrk-core/src/lib.rs:341-877 | every call but these two keeps every counter exact, and counters of new collections start exact |
| BurnOrder.BurnTwice | pallets/rmrk-core/src/functions.rs:406-423 | an NFT with two ways to it is counted off twice in some order that succeeds |
| BurnOrder.BurnsCountOnce | pallets/rmrk-core/src/functions.rs:406-423 | without such NFTs nothing is counted off twice, in any order |
| BurnOrder.BurnExists | pallets/rmrk-core/src/functions.rs:404-423 | with the collections known and a budget larger than the table, some order succeeds, on any table |
| BurnOrder.BurnCountsExactly | pallets/rmrk-core/src/functions.rs:425-430 | where nothing reached is dead or has two ways to it, an exact counter drops by exactly what its collection loses |
| BurnOrder.TreeKeepsCounterIff | pallets/rmrk-core/src/functions.rs:425-430 | on a tree an exact counter stays exact iff no dead NFT of the collection is reached or no live one is left |
| BurnOrder.TreeBurnIgnoresOrder | pallets/rmrk-core/src/functions.rs:419-423 | on a tree all successful burns end in the same storage, counters included |
| BurnTheory.BurnsShrink | pallets/rmrk-core/src/functions.rs:399-433 | any successful burn only removes, and a counter drops at least as far as the live NFTs of its collection |
| ChildIndex.ReachedIffNested | pallets/rmrk-core/src/functions.rs:507-522 | the rows reach just those live NFTs whose owner path runs through the NFT, down to the first without a row |
| ChildIndex.IndexIsTree | pallets/rmrk-core/src/functions.rs:507-522 | where every row follows an acyclic owner, the rows below any NFT are a tree |
| ChildIndex.SendKeepsIndex | pallets/rmrk-core/src/functions.rs:507-522 | a send moves the row with the owner, and enters the missing row of an NFT that had none |
| ChildIndex.AcceptKeepsIndexIff | pallets/rmrk-core/src/functions.rs:527-577 | an acceptance keeps the index as exact as it was iff it names the NFT the item was sent to, or neither old nor new owner is an NFT, or the item has no row |
| FailingInputs.MisnamedAcceptance | pallets/rmrk-core/src/functions.rs:527-577 | a misnamed acceptance that goes through and breaks an exact index |
| ChildIndex.MintDirectlyBreaksIndex | pallets/rmrk-core/src/functions.rs:377-396 | minting straight into an NFT always leaves the new NFT without its row, and every other row as it was |
| FailingInputs.DirectMint | pallets/rmrk-core/src/lib.rs:427-483 | such a mint going through on an exact index |
| ChildIndex.BurnNftRemovesSubtree | pallets/rmrk-core/src/lib.rs:518-534 | a successful burn removes exactly the NFT and the live NFTs nested in it, down to the first without a row; on an exact index that is all of them, and the rest keeps its root owners |
| ChildIndex.RejectNftRemovesSubtree | pallets/rmrk-core/src/functions.rs:579-617 | the same for a rejection, which leaves the item in pallet_uniques |
| ChildIndex.BurnNftSucceedsIff | pallets/rmrk-core/src/functions.rs:404-423 | a burn succeeds in every order iff the root owner asks, all collections reached exist and no way down has max_burns rows; without a cycle, iff they exist and the longest chain down has at most max_burns NFTs, and with only live NFTs below iff the chain fits |
| ChildIndex.BurnNftRefused | pallets/rmrk-core/src/lib.rs:518-534 | nobody else burns: the only outcome is NoPermission |
| ChildIndex.BurnNftOutcome | pallets/rmrk-core/src/functions.rs:404-423 | a success reached existing collections only, and with these the budget is the only error; on a tree one outcome decides for all |
| ChildIndex.RejectNftSucceedsIff | pallets/rmrk-core/src/functions.rs:579-617 | a rejection succeeds in every order iff the NFT is live and pending, its root owner asks, and the burn behind it always succeeds; without a cycle, iff the longest chain fits the limit |
| ChildIndex.RejectRefused | pallets/rmrk-core/src/functions.rs:579-617 | the only outcome of any other rejection: CannotRejectNonPendingNft for a live NFT that is not pending, else CannotRejectNonOwnedNft for a wrong sender |
| ChildIndex.RejectNftOutcome | pallets/rmrk-core/src/functions.rs:579-617 | a success was the root owner's, on a live pending NFT; on a tree with a chain over the limit nobody can ever reject it |
| FailingBurns.ReachShortcut | pallets/rmrk-core/src/functions.rs:527-577 | send, send, accept for one's own account, send: R has rows to P and Q, P one to Q |
| FailingBurns.ShortcutBurns | pallets/rmrk-core/src/functions.rs:404-423 | with a budget of 2 the burn of R succeeds in one order |
| FailingBurns.ShortcutRunsOut | pallets/rmrk-core/src/functions.rs:404-423 | and fails with TooManyRecursions in another, all of it alive and the longest chain 3 |
| FailingBurns.ReachDeadRow | pallets/rmrk-core/src/lib.rs:518-559 | an NFT sent to R and burnt there leaves a row, and its collection can be destroyed |
| FailingBurns.DeadRowInput | pallets/rmrk-core/src/functions.rs:425-430 | then no burn of R by anybody, at any budget, ever succeeds |
| FailingBurns.NeverRejected | pallets/rmrk-core/src/functions.rs:579-617 | for every limit up to 2^32 - 3 a pending NFT, reached by sends that go through, that nobody can reject |
| FailingInputs.DeadNftCounted | pallets/rmrk-core/src/functions.rs:406-430 | the row of an NFT burnt while pending stays, and the next burn counts the dead NFT off: the count is 0 with one NFT live |
| FailingInputs.FlatIsMinted | pallets/rmrk-core/src/lib.rs:357-513 | the states these inputs start from are what create_collection and a number of mints leave |
| FailingInputs.ReachTwoParents | pallets/rmrk-core/src/functions.rs:527-577 | a misnamed acceptance and a send leave one NFT with two rows |
| FailingInputs.TwoParentsMiscount | pallets/rmrk-core/src/functions.rs:419-430 | in that state all counts are right and nothing is dead, yet one order of the burn ends with count 0 while an NFT is live |
| FailingInputs.OrderMatters | pallets/rmrk-core/src/functions.rs:419-430 | and another order of the same burn ends with the right count |
| Handshake.PendingIffForeign | pallets/rmrk-core/src/functions.rs:461-505 | a sent NFT is marked pending iff the target NFT is root-owned by somebody else; else its recorded owner is updated |
| Handshake.SendThenAccept | pallets/rmrk-core/src/functions.rs:527-577 | after a send to an NFT, accepting for that NFT by its root owner succeeds and only clears the mark |
| Handshake.SenderLetGo | pallets/rmrk-core/src/functions.rs:446-448 | after a pending send the former root owner can neither send, accept, burn nor reject the NFT |
| Handshake.AcceptToAccountIff | pallets/rmrk-core/src/functions.rs:527-577 | accept_nft for an account succeeds iff the caller root-owns the NFT and it is live and unlocked: pending, equipped and transferable are not asked |
| Handshake.AcceptIntoNftIff | pallets/rmrk-core/src/functions.rs:527-577 | into an NFT it succeeds iff the caller root-owns both, both are live, the NFT is unlocked, and the recipient is neither the NFT nor nested in it |
| Handshake.AcceptRefusals | pallets/rmrk-core/src/functions.rs:527-577 | the error of an acceptance where one condition fails |
| Handshake.FixedCannotBeSent | pallets/rmrk-core/src/functions.rs:450-459 | sending an equipped or non-transferable NFT fails, for its root owner with the error of the first of the two checks |
| Handshake.SendKeepsForestIff | pallets/rmrk-core/src/functions.rs:465-491 | a send keeps ownership acyclic iff the new owner account is not that of the NFT or of one below it; always if it is named as an NFT |
| Handshake.AcceptKeepsForestIff | pallets/rmrk-core/src/functions.rs:543-567 | the same for an acceptance |
| Handshake.SendToOwnAccountMakesCycle | pallets/rmrk-core/src/functions.rs:466-469 | sending an NFT to the account it stands for makes it its own owner |
| Handshake.SendToOwnAccountSucceeds | pallets/rmrk-core/src/functions.rs:466-469 | and nothing in the call refuses that |
| CorePallet.Pallet.DoTransfer | pallets/rmrk-core/src/functions.rs:620-627 | a transfer in pallet_uniques refuses locked items and otherwise changes one owner |
| CorePallet.Pallet.CreateCollection | pallets/rmrk-core/src/lib.rs:488-513 | the call commits the specified storage or reports the specified error and changes nothing |
| CorePallet.Pallet.DestroyCollection | pallets/rmrk-core/src/lib.rs:539-559 | the same: only an uncounted collection without items, by its owner in pallet_uniques |
| CorePallet.Pallet.ChangeCollectionIssuer | pallets/rmrk-core/src/lib.rs:666-693 | the same: both pallets change the issuer or neither does |
| CorePallet.Pallet.LockCollection | pallets/rmrk-core/src/functions.rs:265-276 | the same: the limit becomes the count |
| CorePallet.Pallet.ResourceAdd | pallets/rmrk-core/src/functions.rs:78-131 | the resource row, its pending mark, its id and the base and slot rows it opens, or the first failing check |
| CorePallet.Pallet.AddAtMint | pallets/rmrk-core/src/lib.rs:401-405 | the loop adds the at-mint resources one after the other and stops at the first failure |
| CorePallet.Pallet.NftMint | pallets/rmrk-core/src/functions.rs:285-339 | a fresh id, the NFT with its pending mark, and the counter |
| CorePallet.Pallet.NftMintDirectlyToNft | pallets/rmrk-core/src/functions.rs:341-397 | the same below an NFT, pending iff that NFT is root-owned by another account |
| CorePallet.Pallet.MintNft | pallets/rmrk-core/src/lib.rs:357-414 | mint, item and resources together or not at all; keeps the invariants |
| CorePallet.Pallet.MintNftDirectlyToNft | pallets/rmrk-core/src/lib.rs:427-483 | the same for a mint into an NFT |
| CorePallet.Pallet.CheckTarget | pallets/rmrk-core/src/functions.rs:470-483 | the checks on an NFT recipient in their order, with the root owner they find |
| CorePallet.Pallet.NftSend | pallets/rmrk-core/src/functions.rs:435-525 | every check in its order, then the NFT record and the moved `Children` row; on an error nothing is written |
| CorePallet.Pallet.Send | pallets/rmrk-core/src/lib.rs:570-597 | rmrk-core and pallet_uniques change together or not at all; keeps the invariants |
| CorePallet.Pallet.NftAccept | pallets/rmrk-core/src/functions.rs:527-577 | the checks of an acceptance, then the cleared mark |
| CorePallet.Pallet.AcceptNft | pallets/rmrk-core/src/lib.rs:608-633 | acceptance and transfer together or not at all; keeps the invariants |
| CorePallet.Pallet.NftBurn | pallets/rmrk-core/src/functions.rs:399-433 | clearing, draining and counting yield an outcome the burn relation allows, within the recursion budget |
| CorePallet.Pallet.DrainChildren | pallets/rmrk-core/src/functions.rs:419-423 | the drain loop burns children in any order and stops at the first failure; `Children` only shrinks |
| CorePallet.Pallet.BurnNft | pallets/rmrk-core/src/lib.rs:518-534 | burn and removal from pallet_uniques together; any failure inside the recursion restores the whole storage |
| CorePallet.Pallet.RejectNft | pallets/rmrk-core/src/lib.rs:643-656 | only a pending NFT, by its root owner; any failure restores the whole storage |
| MarketTheory.SendMovesRoots | pallets/rmrk-core/src/lib.rs:570-597 | a send makes the recipient's root owner the root owner of the NFT and of all below it, and of nothing else |
| MarketCalls.ListIff | pallets/rmrk-market/src/lib.rs:230-272 | only the owner, a real account, lists a live transferable NFT, locked or listed before or not; the new listing replaces an old one |
| MarketCalls.UnlistIff | pallets/rmrk-market/src/lib.rs:282-302 | only the owner takes a listing back, and the lock goes with it |
| MarketCalls.MakeOfferIff | pallets/rmrk-market/src/lib.rs:315-356 | an offer goes through iff it is for an item of somebody else, the first, no less than the minimum and covered; exactly its amount is reserved |
| MarketCalls.BuyIff | pallets/rmrk-market/src/lib.rs:465-528 | a buy goes through iff the owner made the listing, the block number is below its expiry, the price is the one named if one is, the buyer is another account and can pay with both keeping the existential deposit, and the NFT can be sent |
| MarketCalls.BuyRefusals | pallets/rmrk-market/src/lib.rs:478-506 | its errors: not listed by the owner, at or past the expiry, another price, too little money |
| MarketCalls.AcceptOfferIff | pallets/rmrk-market/src/lib.rs:409-448 | an acceptance of a covered offer goes through iff the owner signs, the block number is below the expiry, the NFT can be sent and both accounts keep the existential deposit |
| MarketCalls.AcceptOfferRefusals | pallets/rmrk-market/src/lib.rs:409-448 | its errors: not the owner, no such offer, at or past the expiry |
| ChainInvariant.PurchaseMovesRoots | pallets/rmrk-market/src/lib.rs:206-448 | a buy or an accepted offer makes the buyer the root owner of the NFT and of all below it, and of nothing else |
| MarketTheory.BuyIsExchange | pallets/rmrk-market/src/lib.rs:206-215 | a buy is an exact exchange: NFT unlocked to the buyer, listed price (equal to the named amount) to the owner who listed it, listing used up, everything else unchanged |
| MarketTheory.AcceptOfferIsExchange | pallets/rmrk-market/src/lib.rs:409-448 | an accepted offer is the same exchange, paid in full out of the maker's reserve, and the offer is gone |
| MarketTheory.WithdrawReturnsAll | pallets/rmrk-market/src/lib.rs:367-398 | withdrawing an offer returns the whole amount from reserved to free |
| MarketTheory.WithdrawSucceedsIff | pallets/rmrk-market/src/lib.rs:367-398 | a filed offer can be withdrawn iff its item still exists |
| MarketTheory.OffersAreBacked | pallets/rmrk-market/src/lib.rs:336-345 | every open offer is filed under its maker and covered by the maker's reserve |
| Balances.MoneyConserved | pallets/rmrk-market/src/lib.rs:509-514 | reserving, unreserving and transferring keep the total of free and reserved funds |
| Balances.TransferIff | pallets/rmrk-market/src/lib.rs:509-514 | a KeepAlive transfer goes through iff the payer has the money and both accounts then hold the existential deposit; paying nothing or oneself changes nothing |
| MarketPallet.Pallet.List | pallets/rmrk-market/src/lib.rs:230-272 | a listing by the real owner of a live transferable NFT locks it, or the first failing check is reported and nothing changes |
| MarketPallet.Pallet.Unlist | pallets/rmrk-market/src/lib.rs:282-302 | the owner takes the listing back and the lock off, or nothing changes |
| MarketPallet.Pallet.MakeOffer | pallets/rmrk-market/src/lib.rs:315-356 | the offer is filed and its amount reserved, or nothing changes |
| MarketPallet.Pallet.WithdrawOffer | pallets/rmrk-market/src/lib.rs:367-398 | the offer is removed and unreserved, or nothing changes |
| MarketPallet.Pallet.DoBuy | pallets/rmrk-market/src/lib.rs:465-528 | price, unlock, payment and send in their order |
| MarketPallet.Pallet.Buy | pallets/rmrk-market/src/lib.rs:206-215 | all of it or nothing, also when the nested send fails |
| MarketPallet.Pallet.AcceptOffer | pallets/rmrk-market/src/lib.rs:409-448 | all of it or nothing; the offer is still in the table while the purchase reads it |
| EquipTheory.BaseCreateKeepsInv | pallets/rmrk-equip/src/functions.rs:62-88 | a new base has a fresh id and overwrites no part; occupied slots stay meaningful |
| EquipTheory.BaseCreateIff | pallets/rmrk-equip/src/functions.rs:62-88 | anyone creates a base while ids last; each part id then holds the last part of that id in the list, and no other part appears |
| EquipTheory.ChangeBaseIssuerIff | pallets/rmrk-equip/src/lib.rs:238-258 | only the issuer hands a base over |
| EquipTheory.DoEquippableIff | pallets/rmrk-equip/src/functions.rs:322-350 | only the issuer, only on a slot; that slot then holds the list passed and nothing else changes |
| EquipTheory.EquippableDecides | pallets/rmrk-equip/src/functions.rs:262-308 | after that, equip into the slot is open to a collection iff the new list admits it, all else being right; else CollectionNotEquippable |
| EquipTheory.DoEquippableKeepsInv | pallets/rmrk-equip/src/functions.rs:322-350 | changing who may use a slot keeps it a slot |
| Safety.SlotKeepsContent | pallets/rmrk-equip/src/functions.rs:127-308 | whatever the step, a slot taken before and after it holds the same resource of the same NFT |
| Safety.FixedMovesOnlyByAccept | pallets/rmrk-core/src/functions.rs:806-809 | an equipped or non-transferable NFT that stays an item changes owner only by an executed accept_nft of it |
| FailingSlots.AcceptMovesEquipped | pallets/rmrk-core/src/functions.rs:527-577 | an equipped NFT that cannot be sent is moved to any account by accept_nft |
| FailingSlots.AcceptMovesSoulbound | pallets/rmrk-core/src/functions.rs:527-577 | so is one minted as not transferable |
| EquipTheory.UnequipSeatsIff | pallets/rmrk-equip/src/functions.rs:156-204 | emptying a slot keeps flags and seats in step iff the call named the occupant, or the occupant is gone and the named NFT was not flagged |
| FailingSlots.WrongNameEmptiesSlot | pallets/rmrk-equip/src/functions.rs:184-204 | a wrongly named call that empties the slot of one NFT and clears the flag of another, which stays seated |
| FailingSlots.FlagsFallApart | pallets/rmrk-equip/src/functions.rs:184-204 | after that call one NFT is flagged and sits nowhere, the other sits in a slot and is not flagged |
| FailingSlots.ReadyIsReached | pallets/rmrk-core/src/functions.rs:78-131 | the state of that input is reached by adding resources, nesting and creating a base |
| EquipTheory.EquipSucceedsIff | pallets/rmrk-equip/src/functions.rs:127-308 | when equip fills a slot and when it empties one, free of the order of its checks: by whom, which item, which part |
| EquipTheory.EquipErrorsAreTrue | pallets/rmrk-equip/src/functions.rs:127-308 | each error of equip names something that is wrong with the call |
| EquipTheory.DoEquipEffect | pallets/rmrk-equip/src/functions.rs:127-308 | a successful equip seats a live, direct child that has the resource in an open slot part of a base its parent was given, or empties a taken slot for an entitled caller; nothing else changes |
| EquipTheory.DocumentedEquipKeepsSeats | pallets/rmrk-equip/src/functions.rs:127-308 | a call that names the occupant keeps every flag right |
| EquipPallet.Pallet.BaseCreate | pallets/rmrk-equip/src/functions.rs:62-88 | the loop enters every part under the new base; a failing call has written nothing |
| EquipPallet.Pallet.DoEquippable | pallets/rmrk-equip/src/functions.rs:322-350 | only the base issuer, only on a slot part; a failing call has written nothing |
| EquipPallet.Pallet.DoEquip | pallets/rmrk-equip/src/functions.rs:127-308 | every branch of the toggle with its error; a failing call has written nothing in either pallet, though it is not transactional |
| RoundTrips.UnlistUndoesList | pallets/rmrk-market/src/lib.rs:282-302 | unlisting right after listing restores both pallets, if the NFT was neither locked nor listed before |
| RoundTrips.ListThenBuyIff | pallets/rmrk-market/src/lib.rs:465-528 | a fresh listing can be bought iff the buyer is another account, below the expiry, names no other price, can pay with both accounts keeping the existential deposit, and the NFT is not equipped |
| RoundTrips.WithdrawUndoesMake | pallets/rmrk-market/src/lib.rs:367-398 | withdrawing right after offering succeeds and gives every account its balances back |
| RoundTrips.MakeThenAcceptIff | pallets/rmrk-market/src/lib.rs:409-448 | the owner can accept a fresh offer iff the block number is below the expiry, the NFT is live, transferable and not equipped, and the maker can pay with both accounts keeping the existential deposit |
| RoundTrips.SendBackUndoesSend | pallets/rmrk-core/src/lib.rs:570-597 | sending an NFT back to the account it came from restores the storage, if its record named that account |
| RoundTrips.BurnUndoesMint | pallets/rmrk-core/src/lib.rs:518-534 | burning a freshly minted NFT restores NFTs, owners, children and counters; only used ids and resource bookkeeping remain |
| RoundTrips.SecondEquipUndoesFirst | pallets/rmrk-equip/src/functions.rs:184-204 | repeating a successful equip takes the item out again and restores both pallets |
| ChainInvariant.CoreChange | pallets/rmrk-core/src/lib.rs:341-877 | every call to rmrk-core changes at most one owner, under the signer's root ownership, and no lock |
| ChainInvariant.MarketStepKeepsOffers | pallets/rmrk-market/src/lib.rs:206-448 | every market call keeps reserves equal to deposits plus offers and conserves total funds |
| Safety.StepKeepsChain | pallets/rmrk-core/src/lib.rs:341-877 | every step of any pallet keeps all invariants |
| Safety.LockedMovesOnlyByPurchase | pallets/rmrk-core/src/functions.rs:620-627 | a locked item changes owner only by a purchase of it; otherwise it stays, or its owner burns it and it is gone |
| Listings.StaleIff | pallets/rmrk-market/src/lib.rs:206-448 | in whatever state, a listing is in the table without a lock after a call iff the call accepted an offer on that listed NFT, or it was so before and the call was no list, unlist or buy of the NFT |
| FailingSales.OldListingSellsAgain | pallets/rmrk-market/src/lib.rs:478-491 | list, sell by offer, get the NFT back: it can be bought at the old price without a new listing |
| FailingSales.Market0IsReady | pallets/rmrk-market/src/lib.rs:230-272 | a concrete chain and funds from which that happens, for every configuration and price |
| FailingSales.OfferOutlivesNft | pallets/rmrk-market/src/lib.rs:367-398 | an offer made on an NFT that is then burnt cannot be withdrawn, its amount still reserved |
| FailingSales.AcceptLeavesListing | pallets/rmrk-market/src/lib.rs:472-496 | whenever an offer on a listed NFT is accepted, its listing stays in the table and its lock goes |
| Listings.StepKeepsBurnt | pallets/rmrk-market/src/lib.rs:367-398 | a burnt item never comes back and no call touches an offer on it |
| Safety.OwnershipNeedsConsent | pallets/rmrk-core/src/functions.rs:446-448 | a step that takes root ownership from an account was signed by it, or is a buy of the root NFT under that account's own listing |
| Authority.IdNeedsOwner | pallets/rmrk-core/src/lib.rs:371-371 | whatever the step, an id of a collection is handed out only in a mint signed by its owner, one at a time and below the limit |
| Authority.CollectionNeedsIssuer | pallets/rmrk-core/src/functions.rs:265-276 | whatever the step, only its issuer destroys a collection, hands it over or changes its limit |
| Authority.BaseNeedsIssuer | pallets/rmrk-equip/src/functions.rs:322-350 | whatever the step, only its issuer hands a base over or changes a part of it |
| Authority.LockNeedsOwner | pallets/rmrk-market/src/lib.rs:254-300 | whatever the step, a lock appears only with a listing by the owner, and goes only when the owner unlists or the item is sold |
| Supply.StepKeepsCap | pallets/rmrk-core/src/functions.rs:294-300 | a limit on the ids of a collection is never exceeded or raised |
| Supply.SealedMintsNothing | pallets/rmrk-core/src/functions.rs:350-356 | in a collection whose limit is reached no mint of either kind succeeds |
| Supply.LockSeals | pallets/rmrk-core/src/functions.rs:265-276 | locking a collection puts its limit at or below the ids handed out |
| Runs.OwnershipIsAcyclic | pallets/rmrk-core/src/functions.rs:692-770 | in every reachable state no NFT owns itself at any distance, and both lookups end within the number of items plus one |
| Runs.LockedIsListedByOwner | pallets/rmrk-market/src/lib.rs:238-267 | in every reachable state a locked item is listed by its current owner, a real account |
| Runs.ReservesAddUp | pallets/rmrk-market/src/lib.rs:330-345 | in every reachable state a reserve is the deposits of other pallets plus the open offers, each under its maker |
| Runs.CountersOrdered | pallets/rmrk-core/src/functions.rs:330-336 | in every reachable state nfts_count is at most the live NFTs, at most the ids handed out |
| Runs.CounterStaysExact | pallets/rmrk-core/src/functions.rs:425-430 | over any run, nfts_count is the number of live NFTs if no burn or rejection that went through could miscount |
| Runs.OccupiedSlotsAreBacked | pallets/rmrk-equip/src/functions.rs:242-291 | in every reachable state an occupied slot refers to an existing base, a slot part, and an equipper that was given the base |
| Runs.NobodyLosesAnNft | pallets/rmrk-market/src/lib.rs:485-488 | at every step of every run root ownership is lost only by one's own signature or one's own listing |
| Runs.IndexAgrees | pallets/rmrk-core/src/functions.rs:507-522 | with documented acceptances a live NFT has the row of its owner and no other, or none if it was minted straight into an NFT and not sent since; only live NFTs have children |
| Runs.RowsAreTrees | pallets/rmrk-core/src/functions.rs:507-522 | there the rows below any NFT are a tree in every reachable state |
| Runs.BurnIsDecided | pallets/rmrk-core/src/functions.rs:399-433 | there the root owner's burn succeeds iff all collections reached exist and the longest chain fits, all orders agree, and an exact counter stays exact iff no dead NFT is reached or no live one left |
| Runs.RemovalIsExact | pallets/rmrk-core/src/functions.rs:399-433 | there a burn or rejection removes exactly the NFT and the live NFTs nested in it, down to the first without a row; without direct mints, all of them, and the rest keeps root owners |
| Remains.BurnOrphans | pallets/rmrk-core/src/lib.rs:518-534 | a burn leaves without a root owner exactly the remaining items that were nested in the NFT, besides those that had none |
| Remains.OrphanIsStuck | pallets/rmrk-core/src/functions.rs:692-704 | an item without a root owner cannot be sent, accepted, burnt or rejected, nor can its collection be destroyed |
| Runs.OrphanForever | pallets/rmrk-core/src/functions.rs:692-704 | over any run such an item keeps its owner and never gets a root owner again |
| FailingBurns.DirectMintOrphaned | pallets/rmrk-core/src/functions.rs:377-423 | burning the parent of an NFT minted straight into it leaves that NFT live and without a root owner |
| Remains.DeadRowPins | pallets/rmrk-core/src/functions.rs:399-433 | whatever has a row to an NFT of a destroyed collection at or below it can be neither burnt nor rejected |
| Runs.DeadRowForever | pallets/rmrk-core/src/functions.rs:399-433 | over any run such a row stays, and so does the live NFT that has it |
| Runs.FlagMeansOneSlot | pallets/rmrk-equip/src/functions.rs:150-204 | in documented runs a live NFT is flagged equipped iff it sits in a slot, and it sits in at most one |
| Runs.SlotHeld | pallets/rmrk-equip/src/functions.rs:184-204 | over any run, a slot that stays taken keeps the same resource of the same NFT |
| Runs.StaleIffSoldWhileListed | pallets/rmrk-market/src/lib.rs:409-448 | over any run, an NFT is listed without a lock iff an offer on it was accepted while it was listed, and no list, unlist or buy of it went through since |
| Runs.OfferOnBurntStays | pallets/rmrk-market/src/lib.rs:367-398 | over any run, an offer on a burnt NFT stays filed, its amount reserved, and cannot be withdrawn |
| Runs.ExpiredForever | pallets/rmrk-market/src/lib.rs:427-499 | over any run, once the block of an expiry is reached, no listing or offer that expires then is ever bought at or accepted |
| Runs.IdsCountMints | pallets/rmrk-core/src/functions.rs:772-778 | the id counter of a collection is the number of mints that went through: refused mints use up no id |
| Runs.SupplyCap | pallets/rmrk-core/src/functions.rs:294-300 | over whole runs the mints of a collection never exceed the limit given at creation |
| Runs.LockIsForever | pallets/rmrk-core/src/functions.rs:265-276 | once a collection was locked, no mint of either kind by anyone ever succeeds there again |

## Left out

- Balances.Transfer: does not model account liveness beyond the existential deposit of payer and payee, overflow of 128-bit balances, or
  other locks on funds; `Chain.Step` allows a refusal for any such reason.
- Chain.Step: does not say when a refusal may happen; it only says that a refused call changes nothing.
- BurnBudget.AlwaysBurnsIff: says when every order of draining succeeds; which budgets let at least one order succeed is
  settled for trees (`BurnBudget.TreeBurnsIff`) and for budgets above the number of rows, not in between.
- Deposits of pallet_uniques: a part of the reserve that other pallets hold; its movements are `Elsewhere` steps.
- pallet_uniques beyond item and collection owners: frozen flags, teams, attributes and its other direct calls.
- Root and sudo calls, which bypass the call filter.
- Events, metadata, symbols, royalties, properties, priorities and themes, and limits on the length of lists.
- Accepting and removing resources (`accept_resource`, `remove_resource`, `accept_resource_removal`): their checks are not
  modelled. They write rows of `Resources` and nothing else, and `Chain.TouchResources` is a step that may change those in
  any way; it also stands for `set_property` and `set_priority`, whose tables are not part of the state.
- Blocks and time, except the block number that is compared with the expiry of listings and offers.
