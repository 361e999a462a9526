/** The currency as rmrk-market uses it: free and reserved balances, and sums over them. */
module Balances {
  import opened Prelude
  import opened AccountCodec

  type Amounts = map<Account, nat>

  function Balance(m: Amounts, a: Account): nat {
    if a in m then m[a] else 0
  }

  function Credit(m: Amounts, a: Account, amount: nat): Amounts {
    m[a := Balance(m, a) + amount]
  }

  function Debit(m: Amounts, a: Account, amount: nat): Amounts
    requires amount <= Balance(m, a)
  {
    m[a := Balance(m, a) - amount]
  }

  datatype Money = Money(free: Amounts, reserved: Amounts)

  /** `Currency::reserve` */
  function Reserve(m: Money, who: Account, amount: nat): Result<Money, Error> {
    if Balance(m.free, who) < amount then Err(InsufficientBalance)
    else Ok(Money(Debit(m.free, who, amount), Credit(m.reserved, who, amount)))
  }

  /** `Currency::unreserve`: as much as there is, silently less if the reserve falls short. */
  function Unreserve(m: Money, who: Account, amount: nat): Money {
    var actual := if amount <= Balance(m.reserved, who) then amount else Balance(m.reserved, who);
    Money(Credit(m.free, who, actual), Debit(m.reserved, who, actual))
  }

  /** `Currency::transfer` with `KeepAlive`: afterwards payer and payee both hold the existential deposit. */
  function Transfer(m: Money, from: Account, to: Account, amount: nat, existentialDeposit: nat): Result<Money, Error> {
    if amount == 0 || from == to then Ok(m)
    else if Balance(m.free, from) < amount then Err(InsufficientBalance)
    else if Balance(m.free, to) + amount + Balance(m.reserved, to) < existentialDeposit then Err(ExistentialDeposit)
    else if Balance(m.free, from) - amount + Balance(m.reserved, from) < existentialDeposit then Err(KeepAlive)
    else Ok(m.(free := Credit(Debit(m.free, from, amount), to, amount)))
  }

  /**
   Money goes from one account to another iff the payer has it and both accounts then hold the existential
   deposit. Paying nothing, or oneself, always goes through and changes nothing.
   */
  lemma TransferIff(m: Money, from: Account, to: Account, amount: nat, existentialDeposit: nat)
    ensures amount == 0 || from == to ==> Transfer(m, from, to, amount, existentialDeposit) == Ok(m)
    ensures amount > 0 && from != to ==>
              (Transfer(m, from, to, amount, existentialDeposit).Ok? <==>
               && amount <= Balance(m.free, from)
               && Balance(m.free, to) + amount + Balance(m.reserved, to) >= existentialDeposit
               && Balance(m.free, from) - amount + Balance(m.reserved, from) >= existentialDeposit)
    ensures amount > Balance(m.free, from) && from != to ==>
              Transfer(m, from, to, amount, existentialDeposit) == Err(InsufficientBalance)
    ensures 0 < amount <= Balance(m.free, from) && from != to
            && Balance(m.free, to) + amount + Balance(m.reserved, to) >= existentialDeposit
            && Balance(m.free, from) - amount + Balance(m.reserved, from) < existentialDeposit ==>
              Transfer(m, from, to, amount, existentialDeposit) == Err(KeepAlive)
  {
  }

  // ---------- sums ----------

  ghost function Sum<K(!new)>(m: map<K, nat>): nat
    decreases |m|
  {
    if m == map[] then 0
    else
      var k :| k in m;
      m[k] + Sum(m - {k})
  }

  lemma {:induction false} SumWithout<K(!new)>(m: map<K, nat>, k: K)
    requires k in m
    ensures Sum(m) == m[k] + Sum(m - {k})
    decreases |m|
  {
    var j :| j in m && Sum(m) == m[j] + Sum(m - {j});
    if j != k {
      SumWithout(m - {j}, k);
      SumWithout(m - {k}, j);
      assert m - {j} - {k} == m - {k} - {j};
    }
  }

  lemma SumSet<K(!new)>(m: map<K, nat>, k: K, v: nat)
    ensures Sum(m[k := v]) == Sum(m - {k}) + v
    ensures Sum(m) == Sum(m - {k}) + if k in m then m[k] else 0
  {
    SumWithout(m[k := v], k);
    assert m[k := v] - {k} == m - {k};
    if k in m {
      SumWithout(m, k);
    } else {
      assert m - {k} == m;
    }
  }

  ghost function Total(m: Money): nat {
    Sum(m.free) + Sum(m.reserved)
  }

  lemma CreditSum(m: Amounts, a: Account, amount: nat)
    ensures Sum(Credit(m, a, amount)) == Sum(m) + amount
  {
    SumSet(m, a, Balance(m, a) + amount);
  }

  lemma DebitSum(m: Amounts, a: Account, amount: nat)
    requires amount <= Balance(m, a)
    ensures Sum(Debit(m, a, amount)) == Sum(m) - amount
  {
    SumSet(m, a, Balance(m, a) - amount);
  }

  /** No operation of the currency creates or destroys money. */
  lemma MoneyConserved(m: Money, who: Account, to: Account, amount: nat, existentialDeposit: nat)
    ensures Reserve(m, who, amount).Ok? ==> Total(Reserve(m, who, amount).value) == Total(m)
    ensures Total(Unreserve(m, who, amount)) == Total(m)
    ensures var r := Transfer(m, who, to, amount, existentialDeposit); r.Ok? ==> Total(r.value) == Total(m)
  {
    if amount <= Balance(m.free, who) {
      DebitSum(m.free, who, amount);
      CreditSum(m.reserved, who, amount);
      CreditSum(Debit(m.free, who, amount), to, amount);
    }
    var actual := if amount <= Balance(m.reserved, who) then amount else Balance(m.reserved, who);
    CreditSum(m.free, who, actual);
    DebitSum(m.reserved, who, actual);
  }
}
