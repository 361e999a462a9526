/** Vocabulary shared by every module: fixed-width integers, results and the error names of the pallets. */
module Prelude {

  const MAX_U32 := 0xFFFF_FFFF

  type u32 = x: int | 0 <= x <= MAX_U32

  datatype Option<+T> = None | Some(value: T)

  /** The outcome of a call: the pallets' `Result`, usable with `:-` like Rust's `?`. */
  datatype Result<+T, +E> = Ok(value: T) | Err(error: E) {
    predicate IsFailure() {
      Err?
    }

    function PropagateFailure<U>(): Result<U, E>
      requires Err?
    {
      Err(error)
    }

    function Extract(): T
      requires Ok?
    {
      value
    }
  }

  /** `ensure!(condition, error)` */
  function Ensure<E>(condition: bool, error: E): Result<(), E> {
    if condition then Ok(()) else Err(error)
  }

  /** `option.ok_or(error)` */
  function OkOr<T, E>(option: Option<T>, error: E): Result<T, E> {
    match option
    case Some(v) => Ok(v)
    case None => Err(error)
  }

  /** `StorageMap::get` of an `OptionQuery` map. */
  function Get<K, V>(m: map<K, V>, k: K): Option<V> {
    if k in m then Some(m[k]) else None
  }

  /** `StorageMap::get` of a `ValueQuery` map whose default is zero. */
  function Count<K>(m: map<K, u32>, k: K): u32 {
    if k in m then m[k] else 0
  }

  datatype Error =
    // rmrk-core
    | NoAvailableCollectionId
    | NoAvailableResourceId
    | NoAvailableNftId
    | CollectionUnknown
    | NoPermission
    | NoWitness
    | CollectionNotEmpty
    | CollectionFullOrLocked
    | CannotSendToDescendentOrSelf
    | TooManyRecursions
    | CannotAcceptNonOwnedNft
    | CannotRejectNonOwnedNft
    | CannotRejectNonPendingNft
    | ResourceDoesntExist
    | NonTransferable
    | CannotSendEquippedItem
    | Overflow
    // pallet_uniques and pallet_balances
    | AlreadyExists
    | UnknownCollection
    | UnknownItem
    | InUse
    | Locked
    | Unaccepted
    | InsufficientBalance
    | KeepAlive
    | ExistentialDeposit
    // rmrk-market
    | TokenNotForSale
    | CannotWithdrawOffer
    | CannotUnlistToken
    | CannotOfferOnOwnToken
    | CannotBuyOwnToken
    | UnknownOffer
    | CannotListNftOwnedByNft
    | TokenDoesNotExist
    | OfferTooLow
    | AlreadyOffered
    | OfferHasExpired
    | ListingHasExpired
    | PriceDiffersFromExpected
    // rmrk-equip
    | PermissionError
    | ItemDoesntExist
    | EquipperDoesntExist
    | NoAvailableBaseId
    | MustBeDirectParent
    | PartDoesntExist
    | BaseDoesntExist
    | CantEquipFixedPart
    | NoResourceForThisBaseFoundOnNft
    | CollectionNotEquippable
    | ItemHasNoResourceToEquipThere
    | NoEquippableOnFixedPart
    | AlreadyEquipped
    // a recursion that would never return
    | Diverges
}
