/**
 Backing under rounding. The code multiplies fixed-point numbers, so an updated entry is only
 close to the exactly decayed one. Over every run the sum of the balances then exceeds the total
 issuance by at most a bound that grows with the number of writes; with exact decay the bound is
 zero and the ledger is always backed.
 */
module LedgerRounding {
  import opened Primitives
  import opened Ledger

  // Factors of an exact demurrage at a fixed rate.
  ghost predicate Exponential(f: nat -> real) {
    && (forall e :: 0.0 <= f(e) <= 1.0)
    && (forall d: nat, e: nat :: Composes(f, d, e))
    && f(0) == 1.0
  }

  // The computed decay is at most lo below and at most hi above the exact one.
  ghost predicate NearDecay(r: Rules, f: nat -> real, lo: real, hi: real) {
    && ValidRules(r) && Exponential(f) && lo >= 0.0 && hi >= 0.0
    && forall p, e :: 0.0 <= p <= r.cap ==> p * f(e) - lo <= r.decay(p, e) <= p * f(e) + hi
  }

  // ---------- exact values ----------

  ghost function Exact(f: nat -> real, e: Entry, block: nat): real
    requires e.lastUpdate <= block
  {
    e.principal * f(block - e.lastUpdate)
  }

  ghost function ExactValues(f: nat -> real, l: Ledger, block: nat): map<Account, real>
    requires Dated(l, block)
  {
    map a | a in l.balances :: Exact(f, l.balances[a], block)
  }

  // By how much the exact balances exceed the exact total.
  ghost function Gap(f: nat -> real, l: Ledger, block: nat): real
    requires Dated(l, block)
  {
    Sum(ExactValues(f, l, block)) - Exact(f, l.total, block)
  }

  ghost predicate Capped(r: Rules, l: Ledger) {
    && (forall a :: a in l.balances ==> l.balances[a].principal <= r.cap)
    && l.total.principal <= r.cap
  }

  ghost predicate Near(r: Rules, f: nat -> real, l: Ledger, block: nat, slack: real) {
    Nonnegative(l) && Dated(l, block) && Capped(r, l) && Gap(f, l, block) <= slack
  }

  // One entry is computed nearly exactly.
  lemma EntryNear(r: Rules, f: nat -> real, lo: real, hi: real, e: Entry, block: nat)
    requires NearDecay(r, f, lo, hi) && e.lastUpdate <= block <= U32_MAX && 0.0 <= e.principal <= r.cap
    ensures Exact(f, e, block) - lo <= Updated(r, e, block).principal <= Exact(f, e, block) + hi
    ensures 0.0 <= Updated(r, e, block).principal <= e.principal
  {
  }

  lemma EntryAges(f: nat -> real, e: Entry, block: nat, later: nat)
    requires Exponential(f) && e.lastUpdate <= block <= later
    ensures Scaled(Exact(f, e, block), Exact(f, e, later), f(later - block))
  {
    var d, k := block - e.lastUpdate, later - block;
    assert Composes(f, d, k);
    Regroup(e.principal, f(d), f(k), f(d + k));
  }

  lemma ScaledGap(x: real, y: real, x': real, y': real, c: real, slack: real)
    requires Scaled(x, x', c) && Scaled(y, y', c) && x - y <= slack && 0.0 <= slack && 0.0 <= c <= 1.0
    ensures x' - y' <= slack
  {
    var gap := x - y;
    assert x' - y' == gap * c;
    if gap >= 0.0 {
      ProductNonnegative(gap, 1.0 - c);
      assert gap * (1.0 - c) == gap - gap * c;
    } else {
      ProductNonnegative(0.0 - gap, c);
      assert (0.0 - gap) * c == 0.0 - gap * c;
    }
  }

  /** Passing time only narrows the gap. */
  lemma TimeKeepsNear(r: Rules, f: nat -> real, l: Ledger, block: nat, later: nat, slack: real)
    requires Exponential(f) && slack >= 0.0 && Near(r, f, l, block, slack) && block <= later <= U32_MAX
    ensures Near(r, f, l, later, slack)
  {
    hide Scaled, Exact;
    var c := f(later - block);
    var now, aged := ExactValues(f, l, block), ExactValues(f, l, later);
    forall a | a in l.balances ensures Scaled(now[a], aged[a], c) {
      EntryAges(f, l.balances[a], block, later);
    }
    EntryAges(f, l.total, block, later);
    SumScales(now, aged, c);
    ScaledGap(Sum(now), Exact(f, l.total, block), Sum(aged), Exact(f, l.total, later), c, slack);
  }

  lemma FreshExact(f: nat -> real, x: real, block: nat)
    requires Exponential(f)
    ensures Exact(f, Entry(x, block), block) == x
  {
  }

  lemma WriteExact(f: nat -> real, l: Ledger, a: Account, x: real, block: nat)
    requires Exponential(f) && Dated(l, block)
    ensures Dated(Write(l, a, x, block), block)
    ensures Sum(ExactValues(f, Write(l, a, x, block), block)) ==
            Sum(ExactValues(f, l, block)) - (if a in l.balances then Exact(f, l.balances[a], block) else 0.0) + x
  {
    hide Exact;
    FreshExact(f, x, block);
    var after, expected := ExactValues(f, Write(l, a, x, block), block), ExactValues(f, l, block)[a := x];
    assert after.Keys == expected.Keys;
    assert after == expected;
    SumWrite(ExactValues(f, l, block), a, x);
  }

  // The balance read is at most hi above the exact one.
  lemma BalanceNear(r: Rules, f: nat -> real, lo: real, hi: real, l: Ledger, a: Account, block: nat, slack: real)
    requires NearDecay(r, f, lo, hi) && Near(r, f, l, block, slack)
    ensures 0.0 <= Balance(r, l, a, block) <= r.cap
    ensures Balance(r, l, a, block) <= (if a in l.balances then Exact(f, l.balances[a], block) else 0.0) + hi
  {
    if a in l.balances {
      EntryNear(r, f, lo, hi, l.balances[a], block);
    }
  }

  lemma TotalNear(r: Rules, f: nat -> real, lo: real, hi: real, l: Ledger, block: nat, slack: real)
    requires NearDecay(r, f, lo, hi) && Near(r, f, l, block, slack)
    ensures Exact(f, l.total, block) - lo <= TotalIssuance(r, l, block)
    ensures 0.0 <= TotalIssuance(r, l, block) <= r.cap
  {
    EntryNear(r, f, lo, hi, l.total, block);
  }

  lemma FactorOne(r: Rules, f: nat -> real, lo: real, hi: real)
    requires NearDecay(r, f, lo, hi)
    ensures Exponential(f) && f(0) == 1.0 && lo >= 0.0 && hi >= 0.0
  {
  }

  // A write that raises an entry by no more than what is allowed.
  lemma WriteKeepsNear(r: Rules, f: nat -> real, l: Ledger, block: nat, a: Account, x: real, slack: real, more: real)
    requires Exponential(f) && Near(r, f, l, block, slack) && 0.0 <= x <= r.cap
    requires x <= (if a in l.balances then Exact(f, l.balances[a], block) else 0.0) + more
    ensures Near(r, f, Write(l, a, x, block), block, slack + more)
  {
    WriteExact(f, l, a, x, block);
  }

  // A total lowered by no more than what is allowed.
  lemma TotalKeepsNear(r: Rules, f: nat -> real, l: Ledger, block: nat, x: real, slack: real, less: real)
    requires Exponential(f) && Near(r, f, l, block, slack) && 0.0 <= x <= r.cap
    requires x >= Exact(f, l.total, block) - less
    ensures Near(r, f, l.(total := Entry(x, block)), block, slack + less)
  {
    assert ExactValues(f, l.(total := Entry(x, block)), block) == ExactValues(f, l, block);
  }

  lemma IssueKeepsNear(r: Rules, f: nat -> real, lo: real, hi: real, l: Ledger, block: nat, who: Account, amount: real,
                       slack: real)
    requires NearDecay(r, f, lo, hi) && Near(r, f, l, block, slack) && amount >= 0.0
    requires Issue(r, l, block, who, amount).Done?
    ensures Near(r, f, Issue(r, l, block, who, amount).ledger, block, slack + lo + hi)
  {
    hide Updated, NearDecay, Near;
    FactorOne(r, f, lo, hi);
    NearDated(r, f, l, block, slack);
    BalanceNear(r, f, lo, hi, l, who, block, slack);
    TotalNear(r, f, lo, hi, l, block, slack);
    var value, total := Balance(r, l, who, block) + amount, TotalIssuance(r, l, block) + amount;
    WriteKeepsNear(r, f, l, block, who, value, slack, hi + amount);
    TotalKeepsNear(r, f, Write(l, who, value, block), block, total, slack + (hi + amount), lo - amount);
    assert slack + (hi + amount) + (lo - amount) == slack + lo + hi;
  }

  lemma BurnKeepsNear(r: Rules, f: nat -> real, lo: real, hi: real, l: Ledger, block: nat, who: Account, amount: real,
                      slack: real)
    requires NearDecay(r, f, lo, hi) && Near(r, f, l, block, slack) && amount >= 0.0
    requires Burn(r, l, block, who, amount).Done?
    ensures Near(r, f, Burn(r, l, block, who, amount).ledger, block, slack + lo + hi)
  {
    hide Updated, NearDecay, Near;
    FactorOne(r, f, lo, hi);
    NearDated(r, f, l, block, slack);
    BalanceNear(r, f, lo, hi, l, who, block, slack);
    TotalNear(r, f, lo, hi, l, block, slack);
    var value, total := Balance(r, l, who, block) - amount, RealMax(TotalIssuance(r, l, block) - amount, 0.0);
    WriteKeepsNear(r, f, l, block, who, value, slack, hi - amount);
    TotalKeepsNear(r, f, Write(l, who, value, block), block, total, slack + (hi - amount), lo + amount);
    assert slack + (hi - amount) + (lo + amount) == slack + lo + hi;
  }

  lemma RemoveKeepsNear(r: Rules, f: nat -> real, l: Ledger, block: nat, a: Account, slack: real)
    requires Exponential(f) && Near(r, f, l, block, slack) && a in l.balances
    ensures Near(r, f, l.(balances := l.balances - {a}), block, slack)
  {
    hide Exact, Exponential;
    var l' := l.(balances := l.balances - {a});
    var values := ExactValues(f, l, block);
    assert ExactValues(f, l', block) == values - {a};
    SumPick(values, a);
    ExactNonnegative(f, l.balances[a], block);
  }

  lemma ExactNonnegative(f: nat -> real, e: Entry, block: nat)
    requires Exponential(f) && e.lastUpdate <= block && e.principal >= 0.0
    ensures Exact(f, e, block) >= 0.0
  {
    ProductNonnegative(e.principal, f(block - e.lastUpdate));
  }

  lemma ProductNonnegative(x: real, y: real)
    requires x >= 0.0 && y >= 0.0
    ensures x * y >= 0.0
  {
  }

  lemma TransferKeepsNear(r: Rules, f: nat -> real, lo: real, hi: real, l: Ledger, block: nat, source: Account,
                          dest: Account, amount: real, slack: real)
    requires NearDecay(r, f, lo, hi) && Near(r, f, l, block, slack) && amount >= 0.0 && r.cap >= 0.0
    requires Transfer(r, l, block, source, dest, amount).Done?
    ensures Near(r, f, Transfer(r, l, block, source, dest, amount).ledger, block, slack + 2.0 * hi)
  {
    hide Updated, NearDecay, Near;
    FactorOne(r, f, lo, hi);
    var from := Balance(r, l, source, block);
    BalanceNear(r, f, lo, hi, l, source, block, slack);
    if amount == 0.0 {
      Loosen(r, f, l, block, slack, 2.0 * hi);
    } else if source == dest {
      NearDated(r, f, l, block, slack);
      WriteKeepsNear(r, f, l, block, source, from, slack, hi);
      Loosen(r, f, Write(l, source, from, block), block, slack + hi, hi);
    } else {
      NearDated(r, f, l, block, slack);
      BalanceNear(r, f, lo, hi, l, dest, block, slack);
      // first the source, then the destination, then the dust
      var paid := Write(l, source, from - amount, block);
      WriteKeepsNear(r, f, l, block, source, from - amount, slack, hi - amount);
      NearDated(r, f, paid, block, slack + (hi - amount));
      var to := RealMin(Balance(r, l, dest, block) + amount, r.cap);
      WriteKeepsNear(r, f, paid, block, dest, to, slack + (hi - amount), hi + amount);
      var moved := Write(paid, dest, to, block);
      assert slack + (hi - amount) + (hi + amount) == slack + 2.0 * hi;
      RemoveKeepsNear(r, f, moved, block, source, slack + 2.0 * hi);
    }
  }

  lemma NearDated(r: Rules, f: nat -> real, l: Ledger, block: nat, slack: real)
    requires Near(r, f, l, block, slack)
    ensures Dated(l, block)
  {
  }

  lemma Loosen(r: Rules, f: nat -> real, l: Ledger, block: nat, slack: real, more: real)
    requires Near(r, f, l, block, slack) && more >= 0.0
    ensures Near(r, f, l, block, slack + more)
  {
  }

  // ---------- runs ----------

  // The product of a number and an error, kept linear.
  function Times(n: nat, x: real): real {
    if n == 0 then 0.0 else Times(n - 1, x) + x
  }

  lemma {:induction false} TimesIsProduct(n: nat, x: real)
    ensures Times(n, x) == n as real * x
  {
    if n > 0 {
      TimesIsProduct(n - 1, x);
      Distributes((n - 1) as real, x);
      assert (n - 1) as real + 1.0 == n as real;
    }
  }

  lemma Distributes(n: real, x: real)
    ensures (n + 1.0) * x == n * x + x
  {
  }

  lemma {:induction false} TimesAdds(m: nat, n: nat, x: real)
    ensures Times(m + n, x) == Times(m, x) + Times(n, x)
  {
    if n > 0 {
      TimesAdds(m, n - 1, x);
    }
  }

  lemma {:induction false} TimesNonnegative(n: nat, x: real)
    requires x >= 0.0
    ensures Times(n, x) >= 0.0
  {
    if n > 0 {
      TimesNonnegative(n - 1, x);
    }
  }

  // Issues and burns write the total.
  function TotalWrites(ops: seq<Timed>): nat {
    if ops == [] then 0 else TotalWrites(ops[..|ops| - 1]) + if ops[|ops| - 1].op.TransferOp? then 0 else 1
  }

  // How much the writes of a run can lose: one low error per write of the total, and at most two
  // high errors for the balances written by one operation.
  function Slack(ops: seq<Timed>, lo: real, hi: real): real {
    Times(TotalWrites(ops), lo) + Times(2 * |ops|, hi)
  }

  lemma SlackGrows(ops: seq<Timed>, lo: real, hi: real)
    requires ops != []
    ensures Slack(ops, lo, hi) ==
            Slack(ops[..|ops| - 1], lo, hi) + (if ops[|ops| - 1].op.TransferOp? then 0.0 else lo) + 2.0 * hi
  {
    assert Times(2 * |ops|, hi) == Times(2 * |ops| - 1, hi) + hi == Times(2 * |ops| - 2, hi) + hi + hi;
  }

  lemma SlackNonnegative(ops: seq<Timed>, lo: real, hi: real)
    requires lo >= 0.0 && hi >= 0.0
    ensures Slack(ops, lo, hi) >= 0.0
  {
    TimesNonnegative(TotalWrites(ops), lo);
    TimesNonnegative(2 * |ops|, hi);
  }

  lemma ExecuteKeepsNear(r: Rules, f: nat -> real, lo: real, hi: real, l: Ledger, block: nat, op: Op, slack: real)
    requires NearDecay(r, f, lo, hi) && Near(r, f, l, block, slack) && op.amount >= 0.0
    requires Execute(r, l, block, op).Done?
    ensures Near(r, f, Execute(r, l, block, op).ledger, block,
                 slack + (if op.TransferOp? then 0.0 else lo) + 2.0 * hi)
  {
    hide Near;
    match op {
      case IssueOp(who, amount) =>
        IssueKeepsNear(r, f, lo, hi, l, block, who, amount, slack);
        Loosen(r, f, Issue(r, l, block, who, amount).ledger, block, slack + lo + hi, hi);
      case BurnOp(who, amount) =>
        BurnKeepsNear(r, f, lo, hi, l, block, who, amount, slack);
        Loosen(r, f, Burn(r, l, block, who, amount).ledger, block, slack + lo + hi, hi);
      case TransferOp(source, dest, amount) =>
        TransferKeepsNear(r, f, lo, hi, l, block, source, dest, amount, slack);
    }
  }

  const EMPTY_LEDGER := Ledger(map[], NO_ENTRY)

  lemma {:induction false} RunKeepsNear(r: Rules, f: nat -> real, lo: real, hi: real, ops: seq<Timed>, block: nat)
    requires NearDecay(r, f, lo, hi) && Ordered(ops)
    requires block <= U32_MAX && (ops != [] ==> ops[|ops| - 1].block <= block)
    ensures Near(r, f, Settle(r, EMPTY_LEDGER, ops), block, Slack(ops, lo, hi))
  {
    hide Near, Slack, Execute;
    FactorOne(r, f, lo, hi);
    if ops == [] {
      EmptyNear(r, f, lo, hi, block);
      NoSlack(lo, hi);
    } else {
      var front, last := ops[..|ops| - 1], ops[|ops| - 1];
      var before := Settle(r, EMPTY_LEDGER, front);
      RunKeepsNear(r, f, lo, hi, front, last.block);
      SlackGrows(ops, lo, hi);
      SlackNonnegative(ops, lo, hi);
      if Execute(r, before, last.block, last.op).Done? {
        ExecuteKeepsNear(r, f, lo, hi, before, last.block, last.op, Slack(front, lo, hi));
      } else {
        Loosen(r, f, before, last.block, Slack(front, lo, hi), (if last.op.TransferOp? then 0.0 else lo) + 2.0 * hi);
      }
      TimeKeepsNear(r, f, Settle(r, EMPTY_LEDGER, ops), last.block, block, Slack(ops, lo, hi));
    }
  }

  lemma NoSlack(lo: real, hi: real)
    ensures Slack([], lo, hi) == 0.0
  {
  }

  lemma EmptyNear(r: Rules, f: nat -> real, lo: real, hi: real, block: nat)
    requires NearDecay(r, f, lo, hi) && block <= U32_MAX
    ensures Near(r, f, EMPTY_LEDGER, block, 0.0)
  {
    assert ExactValues(f, EMPTY_LEDGER, block) == map[];
  }

  lemma {:induction false} SumNear(m: map<Account, real>, m': map<Account, real>, hi: real)
    requires m'.Keys == m.Keys && hi >= 0.0 && forall a :: a in m ==> m'[a] <= m[a] + hi
    ensures Sum(m') <= Sum(m) + Times(|m|, hi)
    decreases |m|
  {
    if m == map[] {
      assert m' == map[];
    } else {
      var a :| a in m && Sum(m) == m[a] + Sum(m - {a});
      SmallerMap(m, a);
      SumPick(m', a);
      SumNear(m - {a}, m' - {a}, hi);
    }
  }

  // The bound on what rounding can do to the backing.
  function Shortfall(ops: seq<Timed>, accounts: nat, lo: real, hi: real): real {
    Times(TotalWrites(ops) + 1, lo) + Times(2 * |ops| + accounts, hi)
  }

  lemma ShortfallIs(ops: seq<Timed>, accounts: nat, lo: real, hi: real)
    ensures Shortfall(ops, accounts, lo, hi) ==
            (TotalWrites(ops) + 1) as real * lo + (2 * |ops| + accounts) as real * hi
  {
    hide Times, TotalWrites;
    TimesIsProduct(TotalWrites(ops) + 1, lo);
    TimesIsProduct(2 * |ops| + accounts, hi);
  }

  lemma ShortfallNonnegative(ops: seq<Timed>, accounts: nat, lo: real, hi: real)
    requires lo >= 0.0 && hi >= 0.0
    ensures Shortfall(ops, accounts, lo, hi) >= 0.0
  {
    hide Times, TotalWrites;
    TimesNonnegative(TotalWrites(ops) + 1, lo);
    TimesNonnegative(2 * |ops| + accounts, hi);
  }

  lemma {:induction false} TimesZero(n: nat)
    ensures Times(n, 0.0) == 0.0
  {
    if n > 0 {
      TimesZero(n - 1);
    }
  }

  /** Over every run the sum of the balances exceeds the total issuance by at most one low error
      per write of the total and for reading it, and a high error per balance written and read. */
  lemma NearlyBacked(r: Rules, f: nat -> real, lo: real, hi: real, ops: seq<Timed>, block: nat)
    requires NearDecay(r, f, lo, hi) && Ordered(ops)
    requires block <= U32_MAX && (ops != [] ==> ops[|ops| - 1].block <= block)
    ensures var l := Settle(r, EMPTY_LEDGER, ops);
            && Nonnegative(l) && Dated(l, block) && TotalIssuance(r, l, block) <= r.cap
            && Supply(r, l, block) <= TotalIssuance(r, l, block) + Shortfall(ops, |l.balances|, lo, hi)
  {
    hide Exact, Updated, NearDecay, Settle;
    var l := Settle(r, EMPTY_LEDGER, ops);
    var slack := Slack(ops, lo, hi);
    FactorOne(r, f, lo, hi);
    RunKeepsNear(r, f, lo, hi, ops, block);
    TotalNear(r, f, lo, hi, l, block, slack);
    ReadsNear(r, f, lo, hi, l, block, slack);
    TimesAdds(2 * |ops|, |l.balances|, hi);
  }

  lemma ReadsNear(r: Rules, f: nat -> real, lo: real, hi: real, l: Ledger, block: nat, slack: real)
    requires NearDecay(r, f, lo, hi) && Near(r, f, l, block, slack)
    ensures Supply(r, l, block) <= Sum(ExactValues(f, l, block)) + Times(|l.balances|, hi)
  {
    hide Exact, Updated;
    var exact, values := ExactValues(f, l, block), Values(r, l, block);
    forall a | a in exact ensures values[a] <= exact[a] + hi {
      BalanceNear(r, f, lo, hi, l, a, block, slack);
    }
    SumNear(exact, values, hi);
    SameKeys(l, exact);
  }

  lemma SameKeys(l: Ledger, m: map<Account, real>)
    requires m.Keys == l.balances.Keys
    ensures |m| == |l.balances|
  {
    assert |m.Keys| == |m| && |l.balances.Keys| == |l.balances|;
  }

  // What a saturating or unchecked step cuts off, or lets overflow.
  ghost function ClippedBy(r: Rules, l: Ledger, block: nat, op: Op): real {
    match op
    case IssueOp(who, amount) => RealMax(Balance(r, l, who, block) + amount - r.cap, 0.0)
    case TransferOp(source, dest, amount) => Clipped(r, l, block, source, dest, amount)
    case BurnOp(who, amount) => RealMax(amount - TotalIssuance(r, l, block), 0.0)
  }

  /** An operation that is not refused clips by no more than the balances exceed the total. */
  lemma ClipsWithin(r: Rules, l: Ledger, block: nat, op: Op, shortfall: real)
    requires ValidRules(r) && Nonnegative(l) && op.amount >= 0.0 && shortfall >= 0.0
    requires TotalIssuance(r, l, block) <= r.cap
    requires Supply(r, l, block) <= TotalIssuance(r, l, block) + shortfall
    requires !Execute(r, l, block, op).Failed?
    ensures ClippedBy(r, l, block, op) <= shortfall
    ensures Clips(r, l, block, op) ==> ClippedBy(r, l, block, op) > 0.0
  {
    hide Updated;
    ValuesNonnegative(r, l, block);
    var values := Values(r, l, block);
    SumBounds(values);
    match op {
      case IssueOp(who, amount) =>
        PartWithinSum(values, who, who);
        AbsentIsZero(r, l, who, block);
      case BurnOp(who, amount) =>
        PartWithinSum(values, who, who);
        AbsentIsZero(r, l, who, block);
      case TransferOp(source, dest, amount) =>
        PartWithinSum(values, source, dest);
        AbsentIsZero(r, l, dest, block);
    }
  }

  /** Over every run no operation clips by more than the accumulated rounding. */
  lemma ClipsAreSmall(r: Rules, f: nat -> real, lo: real, hi: real, ops: seq<Timed>, block: nat, op: Op)
    requires NearDecay(r, f, lo, hi) && Ordered(ops) && op.amount >= 0.0
    requires block <= U32_MAX && (ops != [] ==> ops[|ops| - 1].block <= block)
    ensures var l := Settle(r, EMPTY_LEDGER, ops);
            !Execute(r, l, block, op).Failed? ==>
              ClippedBy(r, l, block, op) <= Shortfall(ops, |l.balances|, lo, hi)
  {
    hide Execute, ClippedBy, Settle, Shortfall;
    var l := Settle(r, EMPTY_LEDGER, ops);
    NearlyBacked(r, f, lo, hi, ops, block);
    FactorOne(r, f, lo, hi);
    ShortfallNonnegative(ops, |l.balances|, lo, hi);
    DecayValid(r, f, lo, hi);
    if !Execute(r, l, block, op).Failed? {
      ClipsWithin(r, l, block, op, Shortfall(ops, |l.balances|, lo, hi));
    }
  }

  lemma DecayValid(r: Rules, f: nat -> real, lo: real, hi: real)
    requires NearDecay(r, f, lo, hi)
    ensures ValidRules(r)
  {
  }

  /** The case without rounding: with exact decay the balances stay covered by the total issuance
      over every run, and no addition or subtraction ever clips. */
  lemma AlwaysBacked(r: Rules, f: nat -> real, ops: seq<Timed>, block: nat)
    requires ValidRules(r) && ExactDecay(r, f) && Ordered(ops)
    requires block <= U32_MAX && (ops != [] ==> ops[|ops| - 1].block <= block)
    ensures Backed(r, Settle(r, EMPTY_LEDGER, ops), block)
    ensures forall op: Op :: op.amount >= 0.0 ==> !Clips(r, Settle(r, EMPTY_LEDGER, ops), block, op)
  {
    hide Settle, Supply, TotalIssuance, Clips, ExactDecay, Times;
    var l := Settle(r, EMPTY_LEDGER, ops);
    ExactIsNear(r, f);
    NearlyBacked(r, f, 0.0, 0.0, ops, block);
    TimesZero(TotalWrites(ops) + 1);
    TimesZero(2 * |ops| + |l.balances|);
    forall op: Op | op.amount >= 0.0 ensures !Clips(r, l, block, op) {
      OperationKeepsBacked(r, l, block, op);
    }
  }

  lemma ExactIsNear(r: Rules, f: nat -> real)
    requires ValidRules(r) && ExactDecay(r, f)
    ensures NearDecay(r, f, 0.0, 0.0)
  {
  }

  // ---------- rounding on raw bits ----------

  const UNIT: nat := 0x1_0000_0000_0000_0000

  // Principals and factors in bits of U64F64 numbers: the product is truncated.
  function Truncated(p: real, bits: nat): real {
    (p * bits as real / UNIT as real).Floor as real
  }

  function BitsDecay(factor: nat -> nat): (real, nat) -> real {
    (p: real, e: nat) => Truncated(p, factor(e))
  }

  /** The computed decay meets the bounds: if the factor bits are off an exact demurrage by at most
      delta, truncation loses at most one bit more. */
  lemma TruncationIsNear(deposit: real, cap: real, factor: nat -> nat, f: nat -> real, delta: real)
    requires deposit >= 0.0 && cap >= 0.0 && delta >= 0.0 && Exponential(f)
    requires forall e :: factor(e) <= UNIT && f(e) - delta <= factor(e) as real / UNIT as real <= f(e) + delta
    ensures NearDecay(Rules(deposit, cap, BitsDecay(factor)), f, 1.0 + cap * delta, cap * delta)
  {
    hide BitsDecay;
    ProductNonnegative(cap, delta);
    var r := Rules(deposit, cap, BitsDecay(factor));
    forall p: real, e: nat | p >= 0.0
      ensures 0.0 <= r.decay(p, e) <= p
      ensures p <= cap ==> p * f(e) - (1.0 + cap * delta) <= r.decay(p, e) <= p * f(e) + cap * delta
    {
      BitsNear(factor, p, cap, e, f(e), delta);
    }
  }

  lemma BitsNear(factor: nat -> nat, p: real, cap: real, e: nat, exact: real, delta: real)
    requires p >= 0.0 && delta >= 0.0 && factor(e) <= UNIT
    requires exact - delta <= factor(e) as real / UNIT as real <= exact + delta
    ensures 0.0 <= BitsDecay(factor)(p, e) <= p
    ensures p <= cap ==>
              p * exact - (1.0 + cap * delta) <= BitsDecay(factor)(p, e) <= p * exact + cap * delta
  {
    hide Truncated;
    var g := factor(e) as real / UNIT as real;
    Fraction(factor(e) as real, UNIT as real);
    TruncatedNear(p, factor(e), g);
    Spread(p, cap, g, exact, delta);
  }

  lemma TruncatedNear(p: real, bits: nat, g: real)
    requires g == bits as real / UNIT as real
    ensures p * g - 1.0 < Truncated(p, bits) <= p * g
    ensures p * g >= 0.0 ==> Truncated(p, bits) >= 0.0
  {
    Quotient(p, bits as real, UNIT as real);
    FloorBounds(p * bits as real / UNIT as real);
  }

  lemma FloorBounds(x: real)
    ensures x - 1.0 < x.Floor as real <= x
    ensures x >= 0.0 ==> x.Floor as real >= 0.0
  {
  }

  lemma Fraction(x: real, u: real)
    requires 0.0 <= x <= u && u > 0.0
    ensures 0.0 <= x / u <= 1.0
  {
  }

  lemma Quotient(p: real, x: real, u: real)
    requires u > 0.0
    ensures p * x / u == p * (x / u)
  {
    assert (x / u) * u == x;
    assert (p * (x / u)) * u == p * x;
  }

  lemma Spread(p: real, cap: real, g: real, exact: real, delta: real)
    requires p >= 0.0 && 0.0 <= g <= 1.0 && delta >= 0.0 && exact - delta <= g <= exact + delta
    ensures 0.0 <= p * g <= p
    ensures p <= cap ==> p * exact - cap * delta <= p * g <= p * exact + cap * delta
  {
    ProductNonnegative(p, g);
    ProductNonnegative(p, 1.0 - g);
    ProductNonnegative(p, g - exact + delta);
    ProductNonnegative(p, exact + delta - g);
    if p <= cap {
      ProductNonnegative(cap - p, delta);
    }
  }

  /** Truncation does break the backing, at every positive rate that leaves two thirds of a balance
      after e and after 2 * e blocks, for any such e: three bits issued, and the total written once
      more in between, leave a balance of two bits over a total of one, and burning it clips. */
  lemma RoundingBreaksBacking(factor: nat -> nat, e: nat, deposit: real, cap: real)
    requires e >= 1 && cap >= 3.0
    requires 2 * UNIT <= 3 * factor(e) < 3 * UNIT && 2 * UNIT <= 3 * factor(2 * e) < 3 * UNIT && 2 * e <= U32_MAX
    ensures var r := Rules(deposit, cap, BitsDecay(factor));
            var l := Settle(r, EMPTY_LEDGER, [At(0, IssueOp(1, 3.0)), At(e, IssueOp(2, 0.0))]);
            && Balance(r, l, 1, 2 * e) == 2.0 && TotalIssuance(r, l, 2 * e) == 1.0
            && Clips(r, l, 2 * e, BurnOp(1, 2.0))
  {
    var r := Rules(deposit, cap, BitsDecay(factor));
    var first, second := At(0, IssueOp(1, 3.0)), At(e, IssueOp(2, 0.0));
    assert [first][..0] == [] && [first, second][..1] == [first];
    assert Settle(r, EMPTY_LEDGER, []) == EMPTY_LEDGER;
    var l1 := Ledger(map[1 := Entry(3.0, 0)], Entry(3.0, 0));
    assert Execute(r, EMPTY_LEDGER, 0, first.op) == Done(l1);
    assert Settle(r, EMPTY_LEDGER, [first]) == l1;
    FloorOf(3, factor(e), 2);
    FloorOf(3, factor(2 * e), 2);
    FloorOf(2, factor(e), 1);
    var l2 := Ledger(map[1 := Entry(3.0, 0), 2 := Entry(0.0, e)], Entry(2.0, e));
    assert Execute(r, l1, e, second.op) == Done(l2);
    assert Settle(r, EMPTY_LEDGER, [first, second]) == l2;
  }

  lemma FloorOf(p: nat, factor: nat, q: nat)
    requires q * UNIT <= p * factor < (q + 1) * UNIT
    ensures (p as real * factor as real / UNIT as real).Floor == q
  {
    var x := p as real * factor as real / UNIT as real;
    assert p as real * factor as real == (p * factor) as real;
    assert x * UNIT as real == (p * factor) as real;
  }

  // ---------- without demurrage ----------

  predicate Whole(x: real) {
    x.Floor as real == x
  }

  ghost predicate WholeLedger(l: Ledger) {
    (forall a :: a in l.balances ==> Whole(l.balances[a].principal)) && Whole(l.total.principal)
  }

  // Rules without decay: the same deposit and cap, and nothing else.
  function Undecayed(r: Rules): Rules {
    r.(decay := (p: real, e: nat) => p)
  }

  // A decay that leaves whole numbers alone.
  ghost predicate KeepsWhole(r: Rules) {
    Whole(r.cap) && forall p: real, e: nat :: Whole(p) ==> r.decay(p, e) == p
  }

  lemma WholeArithmetic(x: real, y: real)
    requires Whole(x) && Whole(y)
    ensures Whole(x + y) && Whole(x - y)
  {
    var a, b := x.Floor, y.Floor;
    assert x + y == (a + b) as real && x - y == (a - b) as real;
    IntegerIsWhole(a + b);
    IntegerIsWhole(a - b);
  }

  lemma IntegerIsWhole(n: int)
    ensures Whole(n as real)
  {
  }

  lemma SameBalances(r: Rules, l: Ledger, block: nat)
    requires KeepsWhole(r) && WholeLedger(l)
    ensures forall a :: Balance(r, l, a, block) == Balance(Undecayed(r), l, a, block) && Whole(Balance(r, l, a, block))
    ensures TotalIssuance(r, l, block) == TotalIssuance(Undecayed(r), l, block) && Whole(TotalIssuance(r, l, block))
  {
  }

  lemma WholeExecute(r: Rules, l: Ledger, block: nat, op: Op)
    requires KeepsWhole(r) && WholeLedger(l) && Whole(op.amount)
    ensures Execute(r, l, block, op) == Execute(Undecayed(r), l, block, op)
    ensures Execute(r, l, block, op).Done? ==> WholeLedger(Execute(r, l, block, op).ledger)
  {
    hide Balance, TotalIssuance, Whole, KeepsWhole;
    SameBalances(r, l, block);
    CapWhole(r);
    match op {
      case IssueOp(who, amount) =>
        WholeArithmetic(Balance(r, l, who, block), amount);
        WholeArithmetic(TotalIssuance(r, l, block), amount);
      case BurnOp(who, amount) =>
        WholeArithmetic(Balance(r, l, who, block), amount);
        WholeArithmetic(TotalIssuance(r, l, block), amount);
      case TransferOp(source, dest, amount) =>
        WholeArithmetic(Balance(r, l, source, block), amount);
        WholeArithmetic(Balance(r, l, dest, block), amount);
    }
  }

  lemma CapWhole(r: Rules)
    requires KeepsWhole(r)
    ensures Whole(r.cap) && Whole(0.0)
  {
  }

  ghost predicate WholeRun(ops: seq<Timed>, block: nat) {
    && Ordered(ops) && (forall i :: 0 <= i < |ops| ==> Whole(ops[i].op.amount))
    && block <= U32_MAX && (ops != [] ==> ops[|ops| - 1].block <= block)
  }

  lemma {:induction false} WholeSettle(r: Rules, ops: seq<Timed>)
    requires KeepsWhole(r) && forall i :: 0 <= i < |ops| ==> Whole(ops[i].op.amount)
    ensures Settle(r, EMPTY_LEDGER, ops) == Settle(Undecayed(r), EMPTY_LEDGER, ops)
    ensures WholeLedger(Settle(r, EMPTY_LEDGER, ops))
  {
    hide KeepsWhole, Execute, Whole;
    if ops == [] {
      CapWhole(r);
    } else {
      var front, last := ops[..|ops| - 1], ops[|ops| - 1];
      WholeSettle(r, front);
      WholeExecute(r, Settle(r, EMPTY_LEDGER, front), last.block, last.op);
    }
  }

  lemma UndecayedIsExact(r: Rules)
    requires r.deposit >= 0.0 && r.cap >= 0.0
    ensures ValidRules(Undecayed(r)) && ExactDecay(Undecayed(r), (e: nat) => 1.0)
  {
    var f := (e: nat) => 1.0;
    forall d: nat, e: nat ensures Composes(f, d, e) {}
  }

  /** Where decay leaves whole numbers alone, every run of whole amounts is backed. */
  lemma WholeRunBacked(r: Rules, ops: seq<Timed>, block: nat)
    requires KeepsWhole(r) && r.deposit >= 0.0 && r.cap >= 0.0 && WholeRun(ops, block)
    ensures Backed(r, Settle(r, EMPTY_LEDGER, ops), block)
  {
    hide Settle, KeepsWhole, Balance, TotalIssuance, Whole;
    var l, r0 := Settle(r, EMPTY_LEDGER, ops), Undecayed(r);
    WholeSettle(r, ops);
    UndecayedIsExact(r);
    AlwaysBacked(r0, (e: nat) => 1.0, ops, block);
    SameBalances(r, l, block);
    assert Values(r, l, block) == Values(r0, l, block);
  }

  // Every run of whole bits is backed at every block.
  ghost predicate RunsBacked(r: Rules) {
    forall ops: seq<Timed>, block: nat :: WholeRun(ops, block) ==> Backed(r, Settle(r, EMPTY_LEDGER, ops), block)
  }

  // Factors within one, which either never or always decay, and slowly enough at some distance.
  ghost predicate SlowRate(factor: nat -> nat, e: nat) {
    && factor(0) == UNIT && e >= 1 && 2 * e <= U32_MAX
    && (forall x: nat :: factor(x) <= UNIT)
    && ((forall x: nat :: x > 0 ==> factor(x) == UNIT) || (forall x: nat :: x > 0 ==> factor(x) < UNIT))
    && 2 * UNIT <= 3 * factor(e) && 2 * UNIT <= 3 * factor(2 * e)
  }

  lemma UnitKeepsWhole(factor: nat -> nat, deposit: real, cap: nat)
    requires forall x: nat :: factor(x) == UNIT
    ensures KeepsWhole(Rules(deposit, cap as real, BitsDecay(factor)))
  {
    forall p: real, e: nat | Whole(p) ensures BitsDecay(factor)(p, e) == p {
      Quotient(p, UNIT as real, UNIT as real);
    }
  }

  /** Among the rates that leave two thirds after some e and 2 * e blocks, whatever the deposit and
      the cap, every run is backed if and only if there is no demurrage. */
  lemma RunsBackedExactly(factor: nat -> nat, e: nat, deposit: real, cap: nat)
    requires SlowRate(factor, e) && deposit >= 0.0 && cap >= 3
    ensures RunsBacked(Rules(deposit, cap as real, BitsDecay(factor))) <==> forall x: nat :: factor(x) == UNIT
  {
    var r := Rules(deposit, cap as real, BitsDecay(factor));
    if forall x: nat :: factor(x) == UNIT {
      UnitKeepsWhole(factor, deposit, cap);
      forall ops: seq<Timed>, block: nat | WholeRun(ops, block)
        ensures Backed(r, Settle(r, EMPTY_LEDGER, ops), block)
      {
        WholeRunBacked(r, ops, block);
      }
    } else {
      RoundingBreaksBacking(factor, e, deposit, cap as real);
      var ops := [At(0, IssueOp(1, 3.0)), At(e, IssueOp(2, 0.0))];
      var l := Settle(r, EMPTY_LEDGER, ops);
      assert WholeRun(ops, 2 * e);
      BitsValid(factor, deposit, cap as real);
      NotBacked(r, l, 2 * e);
    }
  }

  lemma NotBacked(r: Rules, l: Ledger, block: nat)
    requires Balance(r, l, 1, block) == 2.0 && TotalIssuance(r, l, block) == 1.0
    requires ValidRules(r)
    ensures !Backed(r, l, block)
  {
    hide Balance, TotalIssuance, ValidRules;
    if Nonnegative(l) {
      ValuesNonnegative(r, l, block);
      AbsentIsZero(r, l, 1, block);
      PartWithinSum(Values(r, l, block), 1, 1);
    }
  }

  lemma BitsValid(factor: nat -> nat, deposit: real, cap: real)
    requires deposit >= 0.0 && cap >= 0.0 && forall x: nat :: factor(x) <= UNIT
    ensures ValidRules(Rules(deposit, cap, BitsDecay(factor)))
  {
    hide BitsDecay;
    forall p: real, e: nat | p >= 0.0 ensures 0.0 <= BitsDecay(factor)(p, e) <= p {
      BitsNear(factor, p, cap, e, factor(e) as real / UNIT as real, 0.0);
    }
  }
}
