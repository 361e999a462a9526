/**
 The three pallets as one state machine. A step is a signed call; every call is transactional,
 so a step that does not execute leaves the state as it was, for whatever reason it was refused.
 */
module Chain {
  import opened Prelude
  import opened AccountCodec
  import opened CoreSpec
  import opened Balances
  import opened MarketSpec
  import opened EquipSpec

  /**
   The storage of the chain. `deposits` is what other pallets hold in reserve. `seats` is no
   storage item: it remembers which NFT was put into an occupied slot.
   */
  datatype State = State(
    core: Core,
    market: Market,
    equip: Equip,
    deposits: Amounts,
    now: nat,
    seats: map<SlotKey, Item>
  )

  datatype Call =
    | CreateCollection(max: Option<u32>)
    | DestroyCollection(c: u32)
    | ChangeCollectionIssuer(c: u32, newIssuer: Account, accepted: bool)
    | LockCollection(c: u32)
    | AddResource(n: Item, resource: Resource)
    // accepting and removing resources, properties and priorities: nothing else in the state can change
    | TouchResources(rows: map<(Item, u32), ResourceInfo>)
    | MintNft(owner: Option<Account>, c: u32, transferable: bool, resources: seq<Resource>)
    | MintNftDirectlyToNft(parent: Item, c: u32, transferable: bool, resources: seq<Resource>)
    | BurnNft(n: Item, maxBurns: u32)
    | Send(n: Item, newOwner: Owner)
    | AcceptNft(n: Item, newOwner: Owner)
    | RejectNft(n: Item)
    | List(n: Item, price: nat, expires: Option<nat>)
    | Unlist(n: Item)
    | MakeOffer(n: Item, price: nat, expires: Option<nat>)
    | WithdrawOffer(n: Item)
    | AcceptOffer(n: Item, offerer: Account)
    | Buy(n: Item, amount: Option<nat>)
    | EquipItem(n: Item, key: SlotKey, resourceId: u32)
    | Equippable(base: u32, part: u32, equippables: EquippableList)
    | CreateBase(parts: seq<Part>)
    | ChangeBaseIssuer(base: u32, newIssuer: Account)
    // other pallets move money and reserves, and blocks pass
    | Elsewhere(money: Money, deposits: Amounts, now: nat)

  predicate IsCoreCall(call: Call) {
    call.CreateCollection? || call.DestroyCollection? || call.ChangeCollectionIssuer? || call.LockCollection?
    || call.AddResource? || call.TouchResources? || call.MintNft? || call.MintNftDirectlyToNft?
    || call.BurnNft? || call.Send?
    || call.AcceptNft? || call.RejectNft?
  }

  predicate IsMarketCall(call: Call) {
    call.List? || call.Unlist? || call.MakeOffer? || call.WithdrawOffer? || call.AcceptOffer? || call.Buy?
  }

  /** `t` is a storage a successful call to rmrk-core leaves. */
  ghost predicate CoreExecutes(cfg: Config, s: Core, signer: Account, call: Call, t: Core)
    requires IsCoreCall(call)
  {
    match call
    case CreateCollection(max) => CoreSpec.CreateCollection(s, signer, max) == Ok(t)
    case DestroyCollection(c) => CoreSpec.DestroyCollection(s, signer, c) == Ok(t)
    case ChangeCollectionIssuer(c, newIssuer, accepted) =>
      CoreSpec.ChangeCollectionIssuer(s, signer, c, newIssuer, accepted) == Ok(t)
    case LockCollection(c) => CoreSpec.LockCollection(s, signer, c) == Ok(t)
    case AddResource(n, resource) => ResourceAdd(s, signer, n, resource, false) == Ok(t)
    case TouchResources(rows) => t == s.(resources := rows)
    case MintNft(owner, c, transferable, resources) =>
      CoreSpec.MintNft(s, signer, owner, c, transferable, resources) == Ok(t)
    case MintNftDirectlyToNft(parent, c, transferable, resources) =>
      CoreSpec.MintNftDirectlyToNft(s, signer, parent, c, transferable, resources) == Ok(t)
    case BurnNft(n, maxBurns) => CoreSpec.BurnNft(s, signer, n, maxBurns, Ok(t))
    case Send(n, newOwner) => CoreSpec.Send(s, signer, n, newOwner) == Ok(t)
    case AcceptNft(n, newOwner) => CoreSpec.AcceptNft(s, signer, n, newOwner) == Ok(t)
    case RejectNft(n) => CoreSpec.RejectNft(s, signer, n, cfg.maxRecursions, Ok(t))
  }

  ghost predicate MarketExecutes(cfg: Config, x: Exchange, now: nat, signer: Account, call: Call, y: Exchange)
    requires IsMarketCall(call)
  {
    match call
    case List(n, price, expires) => MarketSpec.List(x, signer, n, price, expires) == Ok(y)
    case Unlist(n) => MarketSpec.Unlist(x, signer, n) == Ok(y)
    case MakeOffer(n, price, expires) => MarketSpec.MakeOffer(cfg, x, signer, n, price, expires) == Ok(y)
    case WithdrawOffer(n) => MarketSpec.WithdrawOffer(x, signer, n) == Ok(y)
    case AcceptOffer(n, offerer) => MarketSpec.AcceptOffer(cfg, x, now, signer, n, offerer) == Ok(y)
    case Buy(n, amount) => MarketSpec.Buy(cfg, x, now, signer, n, amount) == Ok(y)
  }

  ghost predicate EquipExecutes(s: State, signer: Account, n: Item, key: SlotKey, resourceId: u32, t: State) {
    var r := DoEquip(s.core, s.equip, signer, n, key, resourceId);
    r.Ok? && t == s.(core := r.value.0, equip := r.value.1, seats := Reseat(s.seats, key, n, r.value.2))
  }

  /** What other pallets may do: anything, except touch the part of a reserve that backs offers. */
  ghost predicate BacksOffers(m: Money, deposits: Amounts, m': Money, deposits': Amounts) {
    forall a :: Balance(m'.reserved, a) - Balance(deposits', a) == Balance(m.reserved, a) - Balance(deposits, a)
  }

  /** The call goes through and leads from `s` to `t`. */
  ghost predicate Executes(cfg: Config, s: State, signer: Account, call: Call, t: State) {
    if IsCoreCall(call) then
      CoreExecutes(cfg, s.core, signer, call, t.core) && t == s.(core := t.core)
    else if IsMarketCall(call) then
      && MarketExecutes(cfg, Exchange(s.core, s.market), s.now, signer, call, Exchange(t.core, t.market))
      && t == s.(core := t.core, market := t.market)
    else
      match call
      case EquipItem(n, key, resourceId) => EquipExecutes(s, signer, n, key, resourceId, t)
      case Equippable(base, part, equippables) =>
        DoEquippable(s.equip, signer, base, part, equippables) == Ok(t.equip) && t == s.(equip := t.equip)
      case CreateBase(parts) => BaseCreate(s.equip, signer, parts) == Ok(t.equip) && t == s.(equip := t.equip)
      case ChangeBaseIssuer(base, newIssuer) =>
        EquipSpec.ChangeBaseIssuer(s.equip, signer, base, newIssuer) == Ok(t.equip) && t == s.(equip := t.equip)
      case Elsewhere(money, deposits, now) =>
        BacksOffers(s.market.money, s.deposits, money, deposits) && s.now <= now
        && t == s.(market := s.market.(money := money), deposits := deposits, now := now)
  }

  ghost predicate Step(cfg: Config, s: State, signer: Account, call: Call, t: State) {
    t == s || Executes(cfg, s, signer, call, t)
  }

  /** The accounts a call names are real ones: they do not decode to an NFT. */
  predicate RealCall(signer: Account, call: Call) {
    && signer.User?
    && match call
       case MintNft(owner, _, _, _) => owner.Some? ==> owner.value.User?
       case Send(_, newOwner) => newOwner.AccountId? ==> newOwner.account.User?
       case AcceptNft(_, newOwner) => newOwner.AccountId? ==> newOwner.account.User?
       case _ => true
  }

  /** The chain before the first call: accounts may hold money, and other pallets may hold deposits. */
  ghost predicate IsGenesis(s: State) {
    && s.core == EMPTY_CORE
    && s.market == Market(map[], map[], s.market.money)
    && s.equip == Equip(0, map[], map[], map[])
    && (forall a :: Balance(s.market.money.reserved, a) == Balance(s.deposits, a))
    && s.seats == map[]
  }

  /** A run: its states, one more than its calls. */
  datatype Run = Run(states: seq<State>, signers: seq<Account>, calls: seq<Call>)

  ghost predicate IsRun(cfg: Config, run: Run) {
    && |run.states| == |run.calls| + 1 && |run.signers| == |run.calls|
    && IsGenesis(run.states[0])
    && forall i :: 0 <= i < |run.calls| ==> StepOf(cfg, run, i)
  }

  ghost predicate StepOf(cfg: Config, run: Run, i: nat)
    requires |run.states| == |run.calls| + 1 && |run.signers| == |run.calls| && i < |run.calls|
  {
    && RealCall(run.signers[i], run.calls[i])
    && Step(cfg, run.states[i], run.signers[i], run.calls[i], run.states[i + 1])
  }
}
