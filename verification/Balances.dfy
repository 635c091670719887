/**
 The currency as the collator pallet uses it: free and reserved balances with the contracts of
 reserve, unreserve and a keep-alive transfer.
 */
module Balances {
  import opened Texts

  type Account = nat

  datatype Ledger = Ledger(free: map<Account, nat>, reserved: map<Account, nat>)

  function Amount(m: map<Account, nat>, a: Account): nat {
    if a in m then m[a] else 0
  }

  function Free(l: Ledger, a: Account): nat { Amount(l.free, a) }

  function Reserved(l: Ledger, a: Account): nat { Amount(l.reserved, a) }

  function Min(a: nat, b: nat): nat { if a <= b then a else b }

  /** `liquid` is the currency's own verdict on the withdrawal (locks). */
  function Reserve(l: Ledger, who: Account, amount: nat, liquid: bool): Option<Ledger> {
    if amount == 0 then Some(l)
    else if Free(l, who) < amount || !liquid then None
    else Some(Ledger(l.free[who := Free(l, who) - amount], l.reserved[who := Reserved(l, who) + amount]))
  }

  /** Gives back up to `amount`. */
  function Unreserve(l: Ledger, who: Account, amount: nat): Ledger {
    var actual := Min(Reserved(l, who), amount);
    Ledger(l.free[who := Free(l, who) + actual], l.reserved[who := Reserved(l, who) - actual])
  }

  /** A transfer that must leave both accounts with the existential deposit `ed`. */
  function Transfer(l: Ledger, from: Account, to: Account, amount: nat, ed: nat): Option<Ledger> {
    if amount == 0 || from == to then Some(l)
    else if Free(l, from) < amount then None
    else if Free(l, to) + amount + Reserved(l, to) < ed then None
    else if Free(l, from) - amount + Reserved(l, from) < ed then None
    else
      var taken := l.free[from := Free(l, from) - amount];
      Some(l.(free := taken[to := Amount(taken, to) + amount]))
  }

  // ---------------------------------------------------------------- total issuance

  ghost function Sum(m: map<Account, nat>): nat {
    if m == map[] then 0
    else
      var a :| a in m;
      m[a] + Sum(m - {a})
  }

  /** The sum does not depend on the order in which it is taken. */
  lemma {:induction false} SumTake(m: map<Account, nat>, a: Account)
    requires a in m
    ensures Sum(m) == m[a] + Sum(m - {a})
    decreases |m|
  {
    var b :| b in m && Sum(m) == m[b] + Sum(m - {b});
    if a != b {
      SumTake(m - {b}, a);
      SumTake(m - {a}, b);
      assert m - {b} - {a} == m - {a} - {b};
    }
  }

  lemma SumSet(m: map<Account, nat>, a: Account, v: nat)
    ensures Sum(m[a := v]) + Amount(m, a) == Sum(m) + v
  {
    SumTake(m[a := v], a);
    assert m[a := v] - {a} == m - {a};
    if a in m {
      SumTake(m, a);
    } else {
      assert m - {a} == m;
    }
  }

  ghost function Total(l: Ledger): nat { Sum(l.free) + Sum(l.reserved) }

  lemma ReserveConserves(l: Ledger, who: Account, amount: nat, liquid: bool)
    ensures var r := Reserve(l, who, amount, liquid); r.Some? ==> Total(r.value) == Total(l)
  {
    if Reserve(l, who, amount, liquid).Some? && amount > 0 {
      SumSet(l.free, who, Free(l, who) - amount);
      SumSet(l.reserved, who, Reserved(l, who) + amount);
    }
  }

  lemma UnreserveConserves(l: Ledger, who: Account, amount: nat)
    ensures Total(Unreserve(l, who, amount)) == Total(l)
  {
    var actual := Min(Reserved(l, who), amount);
    SumSet(l.free, who, Free(l, who) + actual);
    SumSet(l.reserved, who, Reserved(l, who) - actual);
  }

  /** A transfer between two accounts goes through exactly if it takes no more than there is and leaves both at the deposit. */
  lemma TransferExactly(l: Ledger, from: Account, to: Account, amount: nat, ed: nat)
    requires amount > 0 && from != to
    ensures var r := Transfer(l, from, to, amount, ed);
            && (r.Some? <==> && amount <= Free(l, from)
                             && Free(l, to) + Reserved(l, to) + amount >= ed && Free(l, from) + Reserved(l, from) - amount >= ed)
            && (r.Some? ==> forall a ::
                  && Reserved(r.value, a) == Reserved(l, a)
                  && Free(r.value, a) == if a == from then Free(l, a) - amount else if a == to then Free(l, a) + amount else Free(l, a))
  {
  }

  lemma TransferConserves(l: Ledger, from: Account, to: Account, amount: nat, ed: nat)
    ensures var r := Transfer(l, from, to, amount, ed); r.Some? ==> Total(r.value) == Total(l)
  {
    if Transfer(l, from, to, amount, ed).Some? && amount > 0 && from != to {
      var taken := l.free[from := Free(l, from) - amount];
      SumSet(l.free, from, Free(l, from) - amount);
      SumSet(taken, to, Amount(taken, to) + amount);
    }
  }
}
