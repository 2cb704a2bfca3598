/**
 The community-currency ledger of one community. Balances decay lazily: an entry stores its
 value at its last update. The decay is a parameter; amounts are real numbers up to a cap.
 */
module Ledger {
  import opened Primitives

  datatype Entry = Entry(principal: real, lastUpdate: nat)

  datatype Ledger = Ledger(balances: map<Account, Entry>, total: Entry)

  // The existential deposit, the largest representable balance, and the demurrage.
  datatype Rules = Rules(deposit: real, cap: real, decay: (real, nat) -> real)

  // Demurrage never increases a balance nor makes it negative.
  ghost predicate ValidRules(r: Rules) {
    && 0.0 <= r.deposit && 0.0 <= r.cap
    && forall p, e :: p >= 0.0 ==> 0.0 <= r.decay(p, e) <= p
  }

  datatype Error = BalanceTooLow | TotalIssuanceOverflow | NoAccount | BelowExistentialDeposit

  // An unchecked addition that overflows aborts the call.
  datatype Outcome = Done(ledger: Ledger) | Failed(error: Error) | Overflowed

  const NO_ENTRY := Entry(0.0, 0)

  function Updated(r: Rules, e: Entry, block: nat): Entry {
    if e.lastUpdate == block then e
    else if e.principal == 0.0 then Entry(0.0, block)
    else Entry(r.decay(e.principal, Min(SatSub(block, e.lastUpdate), U32_MAX)), block)
  }

  lemma UpdatedNow(r: Rules, e: Entry, block: nat)
    ensures Updated(r, e, block).lastUpdate == block
    ensures e.lastUpdate == block ==> Updated(r, e, block) == e
  {
  }

  function EntryOf(l: Ledger, a: Account): Entry {
    if a in l.balances then l.balances[a] else NO_ENTRY
  }

  function Balance(r: Rules, l: Ledger, a: Account, block: nat): real {
    Updated(r, EntryOf(l, a), block).principal
  }

  function TotalIssuance(r: Rules, l: Ledger, block: nat): real {
    Updated(r, l.total, block).principal
  }

  // ---------- operations ----------

  function Write(l: Ledger, a: Account, value: real, block: nat): Ledger {
    l.(balances := l.balances[a := Entry(value, block)])
  }

  function RealMin(x: real, y: real): real {
    if x <= y then x else y
  }

  function RealMax(x: real, y: real): real {
    if x <= y then y else x
  }

  function Transfer(r: Rules, l: Ledger, block: nat, source: Account, dest: Account, amount: real): Outcome {
    if amount == 0.0 then Done(l)
    else if source !in l.balances then Failed(NoAccount)
    else
      var from := Balance(r, l, source, block);
      if from < amount then Failed(BalanceTooLow)
      else if source == dest then Done(Write(l, source, from, block))
      else if dest !in l.balances && amount <= r.deposit then Failed(BelowExistentialDeposit)
      else
        var to := RealMin(Balance(r, l, dest, block) + amount, r.cap);
        var moved := Write(Write(l, source, from - amount, block), dest, to, block);
        Done(if from - amount < r.deposit then moved.(balances := moved.balances - {source}) else moved)
  }

  function Issue(r: Rules, l: Ledger, block: nat, who: Account, amount: real): Outcome {
    var total := TotalIssuance(r, l, block);
    if total + amount > r.cap then Failed(TotalIssuanceOverflow)
    else if Balance(r, l, who, block) + amount > r.cap then Overflowed
    else Done(Write(l, who, Balance(r, l, who, block) + amount, block).(total := Entry(total + amount, block)))
  }

  function Burn(r: Rules, l: Ledger, block: nat, who: Account, amount: real): Outcome {
    if Balance(r, l, who, block) < amount then Failed(BalanceTooLow)
    else
      Done(Write(l, who, Balance(r, l, who, block) - amount, block).(
             total := Entry(RealMax(TotalIssuance(r, l, block) - amount, 0.0), block)))
  }

  // ---------- the pallet ----------

  class Pallet {
    var balances: map<Account, Entry>
    var total: Entry
    const rules: Rules

    ghost function View(): Ledger
      reads this
    {
      Ledger(balances, total)
    }

    constructor (rules: Rules)
      ensures View() == Ledger(map[], NO_ENTRY) && this.rules == rules
    {
      this.rules := rules;
      balances, total := map[], NO_ENTRY;
    }

    method BalanceEntryUpdated(a: Account, block: nat) returns (e: Entry)
      ensures e == Updated(rules, EntryOf(View(), a), block)
    {
      var stored := if a in balances then balances[a] else NO_ENTRY;
      if stored.lastUpdate == block {
        return stored;
      }
      if stored.principal == 0.0 {
        return Entry(0.0, block);
      }
      var elapsed := if stored.lastUpdate <= block then block - stored.lastUpdate else 0;
      if elapsed > U32_MAX {
        elapsed := U32_MAX;
      }
      return Entry(rules.decay(stored.principal, elapsed), block);
    }

    method RemoveAccount(a: Account, block: nat) returns (ok: bool)
      modifies this`balances
      ensures ok <==> a in old(balances) && Balance(rules, old(View()), a, block) < rules.deposit
      ensures View() == if ok then old(View()).(balances := old(balances) - {a}) else old(View())
    {
      var e := BalanceEntryUpdated(a, block);
      if a !in balances || e.principal >= rules.deposit {
        return false;
      }
      balances := balances - {a};
      return true;
    }

    method DoTransfer(block: nat, source: Account, dest: Account, amount: real) returns (error: Option<Error>)
      requires amount >= 0.0
      modifies this`balances
      ensures error.None? ==> Transfer(rules, old(View()), block, source, dest, amount) == Done(View())
      ensures error.Some? ==> View() == old(View())
      ensures error.Some? ==> Transfer(rules, old(View()), block, source, dest, amount) == Failed(error.value)
    {
      hide Updated;
      if amount == 0.0 {
        return None;
      }
      if source !in balances {
        return Some(NoAccount);
      }
      var from := BalanceEntryUpdated(source, block);
      UpdatedNow(rules, EntryOf(View(), source), block);
      if from.principal < amount {
        return Some(BalanceTooLow);
      }
      if source == dest {
        balances := balances[source := from];
        return None;
      }
      if dest !in balances && amount <= rules.deposit {
        return Some(BelowExistentialDeposit);
      }
      var to := BalanceEntryUpdated(dest, block);
      UpdatedNow(rules, EntryOf(View(), dest), block);
      balances := balances[source := from.(principal := from.principal - amount)];
      balances := balances[dest := to.(principal := RealMin(to.principal + amount, rules.cap))];
      ReapDust(source, block);
      return None;
    }

    // Removes an account just written whose balance fell below the existential deposit.
    method ReapDust(a: Account, block: nat)
      requires a in balances && balances[a].lastUpdate == block
      modifies this`balances
      ensures balances == if old(balances)[a].principal < rules.deposit then old(balances) - {a} else old(balances)
    {
      hide Updated;
      UpdatedNow(rules, balances[a], block);
      var e := BalanceEntryUpdated(a, block);
      if e.principal < rules.deposit {
        var removed := RemoveAccount(a, block);
        assert removed;
      }
    }

    // The balance is added without a check: an overflow there aborts the call.
    method DoIssue(block: nat, who: Account, amount: real) returns (outcome: Outcome)
      requires amount >= 0.0
      modifies this
      ensures outcome == Issue(rules, old(View()), block, who, amount)
      ensures View() == if outcome.Done? then outcome.ledger else old(View())
    {
      var entry := BalanceEntryUpdated(who, block);
      var tot := Updated(rules, total, block);
      if tot.principal + amount > rules.cap {
        return Failed(TotalIssuanceOverflow);
      }
      if entry.principal + amount > rules.cap {
        return Overflowed;
      }
      total := tot.(principal := tot.principal + amount);
      balances := balances[who := entry.(principal := entry.principal + amount)];
      return Done(Ledger(balances, total));
    }

    method DoBurn(block: nat, who: Account, amount: real) returns (error: Option<Error>)
      requires amount >= 0.0
      modifies this
      ensures error.None? ==> Burn(rules, old(View()), block, who, amount) == Done(View())
      ensures error.Some? ==> View() == old(View())
      ensures error.Some? ==> Burn(rules, old(View()), block, who, amount) == Failed(error.value)
    {
      var entry := BalanceEntryUpdated(who, block);
      var tot := Updated(rules, total, block);
      if entry.principal < amount {
        return Some(BalanceTooLow);
      }
      total := tot.(principal := RealMax(tot.principal - amount, 0.0));
      balances := balances[who := entry.(principal := entry.principal - amount)];
      return None;
    }
  }

  // ---------- the sum of all balances ----------

  ghost function Sum(m: map<Account, real>): real
    decreases |m|
  {
    if m == map[] then 0.0
    else
      var a :| a in m;
      assert |m - {a}| < |m| by { SmallerMap(m, a); }
      m[a] + Sum(m - {a})
  }

  lemma SmallerMap(m: map<Account, real>, a: Account)
    requires a in m
    ensures |m - {a}| == |m| - 1
  {
    assert (m - {a}).Keys == m.Keys - {a};
  }

  // The sum does not depend on the order of summation.
  lemma {:induction false} SumPick(m: map<Account, real>, a: Account)
    requires a in m
    ensures Sum(m) == m[a] + Sum(m - {a})
    decreases |m|
  {
    var b :| b in m && Sum(m) == m[b] + Sum(m - {b});
    if a != b {
      SmallerMap(m, b);
      SmallerMap(m, a);
      SumPick(m - {b}, a);
      SumPick(m - {a}, b);
      assert m - {b} - {a} == m - {a} - {b};
    }
  }

  lemma SumWrite(m: map<Account, real>, a: Account, x: real)
    ensures Sum(m[a := x]) == Sum(m) - (if a in m then m[a] else 0.0) + x
  {
    SumPick(m[a := x], a);
    if a in m {
      SumPick(m, a);
      assert m[a := x] - {a} == m - {a};
    } else {
      assert m[a := x] - {a} == m;
    }
  }

  lemma {:induction false} SumBounds(m: map<Account, real>)
    requires forall a :: a in m ==> m[a] >= 0.0
    ensures Sum(m) >= 0.0
    decreases |m|
  {
    if m != map[] {
      var a :| a in m && Sum(m) == m[a] + Sum(m - {a});
      SmallerMap(m, a);
      SumBounds(m - {a});
    }
  }

  lemma PartWithinSum(m: map<Account, real>, a: Account, b: Account)
    requires forall x :: x in m ==> m[x] >= 0.0
    ensures a in m ==> m[a] <= Sum(m)
    ensures a in m && b in m && a != b ==> m[a] + m[b] <= Sum(m)
  {
    if a in m {
      SumPick(m, a);
      SumBounds(m - {a});
      if b in m && a != b {
        SumPick(m - {a}, b);
        SumBounds(m - {a} - {b});
      }
    }
  }

  ghost function Values(r: Rules, l: Ledger, block: nat): map<Account, real> {
    map a | a in l.balances :: Balance(r, l, a, block)
  }

  ghost function Supply(r: Rules, l: Ledger, block: nat): real {
    Sum(Values(r, l, block))
  }

  ghost predicate Nonnegative(l: Ledger) {
    && (forall a :: a in l.balances ==> l.balances[a].principal >= 0.0)
    && l.total.principal >= 0.0
  }

  lemma ValuesNonnegative(r: Rules, l: Ledger, block: nat)
    requires ValidRules(r) && Nonnegative(l)
    ensures forall a :: Balance(r, l, a, block) >= 0.0
    ensures TotalIssuance(r, l, block) >= 0.0
    ensures forall a :: a in Values(r, l, block) ==> Values(r, l, block)[a] >= 0.0
  {
  }

  lemma WriteSupply(r: Rules, l: Ledger, a: Account, x: real, block: nat)
    ensures Supply(r, Write(l, a, x, block), block) == Supply(r, l, block) - Balance(r, l, a, block) + x
  {
    assert Values(r, Write(l, a, x, block), block) == Values(r, l, block)[a := x];
    SumWrite(Values(r, l, block), a, x);
  }

  /** Issuing adds exactly the amount to the sum of decayed balances and to the total. */
  lemma IssueAdds(r: Rules, l: Ledger, block: nat, who: Account, amount: real)
    requires Issue(r, l, block, who, amount).Done?
    ensures var l' := Issue(r, l, block, who, amount).ledger;
            && Supply(r, l', block) == Supply(r, l, block) + amount
            && TotalIssuance(r, l', block) == TotalIssuance(r, l, block) + amount
  {
    var value := Balance(r, l, who, block) + amount;
    WriteSupply(r, l, who, value, block);
    SameSupply(r, Write(l, who, value, block), Issue(r, l, block, who, amount).ledger, block);
  }

  lemma SameSupply(r: Rules, l: Ledger, l': Ledger, block: nat)
    requires l'.balances == l.balances
    ensures Supply(r, l', block) == Supply(r, l, block)
  {
    assert Values(r, l', block) == Values(r, l, block);
  }

  /** Burning takes exactly the amount from the sum; the total loses as much unless it clips at zero. */
  lemma BurnTakes(r: Rules, l: Ledger, block: nat, who: Account, amount: real)
    requires Burn(r, l, block, who, amount).Done?
    ensures var l' := Burn(r, l, block, who, amount).ledger;
            && Supply(r, l', block) == Supply(r, l, block) - amount
            && TotalIssuance(r, l', block) == RealMax(TotalIssuance(r, l, block) - amount, 0.0)
  {
    var value := Balance(r, l, who, block) - amount;
    WriteSupply(r, l, who, value, block);
    SameSupply(r, Write(l, who, value, block), Burn(r, l, block, who, amount).ledger, block);
  }

  // What a transfer destroys: the rest of the source if it falls below the deposit.
  ghost function Dust(r: Rules, l: Ledger, block: nat, source: Account, dest: Account, amount: real): real {
    var rest := Balance(r, l, source, block) - amount;
    if amount != 0.0 && source != dest && rest < r.deposit then rest else 0.0
  }

  // What the saturating addition cuts off at the destination.
  ghost function Clipped(r: Rules, l: Ledger, block: nat, source: Account, dest: Account, amount: real): real {
    if amount == 0.0 || source == dest then 0.0
    else RealMax(Balance(r, l, dest, block) + amount - r.cap, 0.0)
  }

  /** A transfer changes the sum only by the dust it reaps, which is below the deposit, and by
      what saturates at the cap; the total is untouched. */
  lemma TransferConserves(r: Rules, l: Ledger, block: nat, source: Account, dest: Account, amount: real)
    requires ValidRules(r) && Nonnegative(l) && amount >= 0.0
    requires Transfer(r, l, block, source, dest, amount).Done?
    ensures var l' := Transfer(r, l, block, source, dest, amount).ledger;
            var dust := Dust(r, l, block, source, dest, amount);
            && Supply(r, l', block) == Supply(r, l, block) - dust - Clipped(r, l, block, source, dest, amount)
            && 0.0 <= dust && (dust == 0.0 || dust < r.deposit)
            && l'.total == l.total
  {
    hide Updated, Values;
    ValuesNonnegative(r, l, block);
    if amount != 0.0 {
      if source == dest {
        WriteSupply(r, l, source, Balance(r, l, source, block), block);
      } else {
        MoveSupply(r, l, block, source, dest, amount);
      }
    }
  }

  lemma MoveSupply(r: Rules, l: Ledger, block: nat, source: Account, dest: Account, amount: real)
    requires source != dest && source in l.balances
    ensures var from := Balance(r, l, source, block);
            var to := RealMin(Balance(r, l, dest, block) + amount, r.cap);
            var moved := Write(Write(l, source, from - amount, block), dest, to, block);
            var supply := Supply(r, l, block) - amount + to - Balance(r, l, dest, block);
            && Supply(r, moved, block) == supply
            && Supply(r, moved.(balances := moved.balances - {source}), block) == supply - (from - amount)
  {
    hide Updated;
    var from := Balance(r, l, source, block);
    var to := RealMin(Balance(r, l, dest, block) + amount, r.cap);
    var paid := Write(l, source, from - amount, block);
    var moved := Write(paid, dest, to, block);
    WriteSupply(r, l, source, from - amount, block);
    WriteSupply(r, paid, dest, to, block);
    FreshValue(r, moved, source, block);
    var values := Values(r, moved, block);
    SumPick(values, source);
    assert Values(r, moved.(balances := moved.balances - {source}), block) == values - {source};
  }

  lemma FreshValue(r: Rules, l: Ledger, a: Account, block: nat)
    requires a in l.balances && l.balances[a].lastUpdate == block
    ensures Balance(r, l, a, block) == l.balances[a].principal
  {
  }

  // ---------- backing ----------

  // Demurrage at a fixed rate, computed exactly: factors multiply over time.
  ghost predicate ExactDecay(r: Rules, f: nat -> real) {
    && (forall p, e :: r.decay(p, e) == p * f(e))
    && (forall e :: 0.0 <= f(e) <= 1.0)
    && (forall d: nat, e: nat :: Composes(f, d, e))
    && f(0) == 1.0
  }

  ghost predicate Composes(f: nat -> real, d: nat, e: nat) {
    f(d + e) == f(d) * f(e)
  }

  // All entries were written at or before the block, within the range of block numbers.
  ghost predicate Dated(l: Ledger, block: nat) {
    && block <= U32_MAX
    && l.total.lastUpdate <= block
    && forall a :: a in l.balances ==> l.balances[a].lastUpdate <= block
  }

  /** The sum of all balances is covered by the total issuance, which fits the cap. */
  ghost predicate Backed(r: Rules, l: Ledger, block: nat) {
    Nonnegative(l) && Dated(l, block) && Supply(r, l, block) <= TotalIssuance(r, l, block) <= r.cap
  }

  lemma Regroup(p: real, x: real, y: real, z: real)
    requires z == x * y
    ensures p * z == (p * x) * y
  {
  }

  predicate Scaled(x: real, y: real, c: real) {
    y == x * c
  }

  lemma ScaledSum(x: real, y: real, u: real, v: real, c: real)
    requires Scaled(x, y, c) && Scaled(u, v, c)
    ensures Scaled(x + u, y + v, c)
  {
  }

  lemma {:induction false} SumScales(m: map<Account, real>, m': map<Account, real>, c: real)
    requires m'.Keys == m.Keys && forall a :: a in m ==> Scaled(m[a], m'[a], c)
    ensures Scaled(Sum(m), Sum(m'), c)
    decreases |m|
  {
    if m == map[] {
      assert m' == map[];
    } else {
      hide Scaled;
      var a :| a in m && Sum(m) == m[a] + Sum(m - {a});
      SmallerMap(m, a);
      SumPick(m', a);
      SumScales(m - {a}, m' - {a}, c);
      ScaledSum(m[a], m'[a], Sum(m - {a}), Sum(m' - {a}), c);
    }
  }

  datatype Op =
    | IssueOp(who: Account, amount: real)
    | TransferOp(source: Account, dest: Account, amount: real)
    | BurnOp(who: Account, amount: real)

  function Execute(r: Rules, l: Ledger, block: nat, op: Op): Outcome {
    match op
    case IssueOp(who, amount) => Issue(r, l, block, who, amount)
    case TransferOp(source, dest, amount) => Transfer(r, l, block, source, dest, amount)
    case BurnOp(who, amount) => Burn(r, l, block, who, amount)
  }

  // A saturating or unchecked operation would change its result.
  ghost predicate Clips(r: Rules, l: Ledger, block: nat, op: Op) {
    match op
    case IssueOp(who, amount) => Issue(r, l, block, who, amount).Overflowed?
    case TransferOp(source, dest, amount) =>
      Transfer(r, l, block, source, dest, amount).Done? && Clipped(r, l, block, source, dest, amount) > 0.0
    case BurnOp(who, amount) =>
      Burn(r, l, block, who, amount).Done? && TotalIssuance(r, l, block) - amount < 0.0
  }

  /** In a backed ledger nothing clips, and every operation leaves the ledger backed. */
  lemma OperationKeepsBacked(r: Rules, l: Ledger, block: nat, op: Op)
    requires ValidRules(r) && Backed(r, l, block) && op.amount >= 0.0
    ensures !Clips(r, l, block, op)
    ensures Execute(r, l, block, op).Done? ==> Backed(r, Execute(r, l, block, op).ledger, block)
  {
    hide Updated;
    ValuesNonnegative(r, l, block);
    var values := Values(r, l, block);
    SumBounds(values);
    match op {
      case IssueOp(who, amount) =>
        PartWithinSum(values, who, who);
        AbsentIsZero(r, l, who, block);
        if Execute(r, l, block, op).Done? {
          IssueAdds(r, l, block, who, amount);
        }
      case BurnOp(who, amount) =>
        PartWithinSum(values, who, who);
        AbsentIsZero(r, l, who, block);
        if Execute(r, l, block, op).Done? {
          BurnTakes(r, l, block, who, amount);
        }
      case TransferOp(source, dest, amount) =>
        PartWithinSum(values, source, dest);
        AbsentIsZero(r, l, dest, block);
        if Execute(r, l, block, op).Done? {
          TransferConserves(r, l, block, source, dest, amount);
        }
    }
  }

  lemma AbsentIsZero(r: Rules, l: Ledger, a: Account, block: nat)
    ensures a !in l.balances ==> Balance(r, l, a, block) == 0.0
  {
  }

  datatype Timed = At(block: nat, op: Op)

  predicate Ordered(ops: seq<Timed>) {
    && (forall i :: 0 <= i < |ops| ==> ops[i].block <= U32_MAX && ops[i].op.amount >= 0.0)
    && (forall i, j :: 0 <= i < j < |ops| ==> ops[i].block <= ops[j].block)
  }

  function Settle(r: Rules, l: Ledger, ops: seq<Timed>): Ledger {
    if ops == [] then l
    else
      var before := Settle(r, l, ops[..|ops| - 1]);
      var last := ops[|ops| - 1];
      var outcome := Execute(r, before, last.block, last.op);
      if outcome.Done? then outcome.ledger else before
  }
}
