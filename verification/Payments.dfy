/**
 Who pays and who receives. What a ledger operation does is stated on the balances read before and
 after it, at its own block and at every later one.
 */
module Payments {
  import opened Primitives
  import opened Ledger

  // What is left of a value after some blocks.
  function Aged(r: Rules, x: real, blocks: nat): real {
    if blocks == 0 || x == 0.0 then x else r.decay(x, Min(blocks, U32_MAX))
  }

  // From this block on, the account reads this value, less demurrage.
  ghost predicate Holds(r: Rules, l: Ledger, a: Account, x: real, block: nat) {
    forall later: nat :: later >= block ==> Balance(r, l, a, later) == Aged(r, x, later - block)
  }

  ghost predicate SameFor(r: Rules, l: Ledger, l': Ledger, a: Account) {
    && (a in l'.balances <==> a in l.balances)
    && forall block: nat :: Balance(r, l', a, block) == Balance(r, l, a, block)
  }

  ghost predicate SameTotal(r: Rules, l: Ledger, l': Ledger) {
    forall block: nat :: TotalIssuance(r, l', block) == TotalIssuance(r, l, block)
  }

  lemma WrittenHolds(r: Rules, l: Ledger, a: Account, x: real, block: nat)
    ensures a in l.balances && l.balances[a] == Entry(x, block) ==> Holds(r, l, a, x, block)
    ensures a !in l.balances ==> Holds(r, l, a, 0.0, block)
  {
  }

  /** A transfer goes through exactly if there is nothing to move, or the source exists and can
      pay, and the destination exists, is the source, or receives more than the deposit. */
  lemma TransferExactly(r: Rules, l: Ledger, block: nat, source: Account, dest: Account, amount: real)
    ensures Transfer(r, l, block, source, dest, amount).Done? <==>
            || amount == 0.0
            || (source in l.balances && Balance(r, l, source, block) >= amount
                && (dest in l.balances || amount > r.deposit))
    ensures !Transfer(r, l, block, source, dest, amount).Overflowed?
  {
  }

  /** A transfer takes the amount from the source, which is reaped if less than the deposit is
      left, and gives it to the destination, up to the cap; nobody else is touched. */
  lemma TransferMoves(r: Rules, l: Ledger, block: nat, source: Account, dest: Account, amount: real)
    requires source != dest && amount != 0.0 && Transfer(r, l, block, source, dest, amount).Done?
    ensures var t := Transfer(r, l, block, source, dest, amount).ledger;
            var rest := Balance(r, l, source, block) - amount;
            && (source in t.balances <==> rest >= r.deposit)
            && Holds(r, t, source, if rest >= r.deposit then rest else 0.0, block)
            && dest in t.balances
            && Holds(r, t, dest, RealMin(Balance(r, l, dest, block) + amount, r.cap), block)
            && (forall a: Account :: a != source && a != dest ==> SameFor(r, l, t, a))
            && SameTotal(r, l, t)
  {
    var t := Transfer(r, l, block, source, dest, amount).ledger;
    var rest, gained := Balance(r, l, source, block) - amount, RealMin(Balance(r, l, dest, block) + amount, r.cap);
    WrittenHolds(r, t, source, rest, block);
    WrittenHolds(r, t, dest, gained, block);
  }

  /** A transfer to oneself, or of nothing, leaves every balance at its block as it was. */
  lemma TransferToSelf(r: Rules, l: Ledger, block: nat, source: Account, dest: Account, amount: real)
    requires (source == dest || amount == 0.0) && Transfer(r, l, block, source, dest, amount).Done?
    ensures var t := Transfer(r, l, block, source, dest, amount).ledger;
            && t.balances.Keys == l.balances.Keys
            && (forall a: Account :: Balance(r, t, a, block) == Balance(r, l, a, block))
            && SameTotal(r, l, t)
  {
  }

  /** Issuing fails above the cap of the total, aborts above the cap of the balance, and otherwise
      gives the amount to this account and to the total, and nothing to anybody else. */
  lemma IssueGives(r: Rules, l: Ledger, block: nat, who: Account, amount: real)
    ensures var outcome := Issue(r, l, block, who, amount);
            && (outcome.Failed? <==> TotalIssuance(r, l, block) + amount > r.cap)
            && (outcome.Done? <==> TotalIssuance(r, l, block) + amount <= r.cap
                                   && Balance(r, l, who, block) + amount <= r.cap)
            && (outcome.Done? ==>
                  && who in outcome.ledger.balances
                  && Holds(r, outcome.ledger, who, Balance(r, l, who, block) + amount, block)
                  && (forall a: Account :: a != who ==> SameFor(r, l, outcome.ledger, a))
                  && forall later: nat :: later >= block ==>
                       TotalIssuance(r, outcome.ledger, later) ==
                       Aged(r, TotalIssuance(r, l, block) + amount, later - block))
  {
    var outcome := Issue(r, l, block, who, amount);
    if outcome.Done? {
      WrittenHolds(r, outcome.ledger, who, Balance(r, l, who, block) + amount, block);
    }
  }

  /** Burning succeeds exactly if the account can pay; it takes the amount from this account and
      from the total, down to zero, and nothing from anybody else. */
  lemma BurnTakesFrom(r: Rules, l: Ledger, block: nat, who: Account, amount: real)
    ensures var outcome := Burn(r, l, block, who, amount);
            && !outcome.Overflowed?
            && (outcome.Done? <==> Balance(r, l, who, block) >= amount)
            && (outcome.Done? ==>
                  && who in outcome.ledger.balances
                  && Holds(r, outcome.ledger, who, Balance(r, l, who, block) - amount, block)
                  && (forall a: Account :: a != who ==> SameFor(r, l, outcome.ledger, a))
                  && forall later: nat :: later >= block ==>
                       TotalIssuance(r, outcome.ledger, later) ==
                       Aged(r, RealMax(TotalIssuance(r, l, block) - amount, 0.0), later - block))
  {
    var outcome := Burn(r, l, block, who, amount);
    if outcome.Done? {
      WrittenHolds(r, outcome.ledger, who, Balance(r, l, who, block) - amount, block);
    }
  }

  // Demurrage over two stretches is demurrage over both together.
  ghost predicate Stretches(r: Rules) {
    forall x: real, d: nat, e: nat :: x > 0.0 && d > 0 && e > 0 ==> r.decay(r.decay(x, d), e) == r.decay(x, d + e)
  }

  /** Decay is lazy: writing a balance back as it reads, at any block, changes no later reading.
      So when an account is touched makes no difference to anybody. */
  lemma TouchingIsFree(r: Rules, l: Ledger, a: Account, block: nat, later: nat)
    requires ValidRules(r) && Stretches(r) && Nonnegative(l)
    requires EntryOf(l, a).lastUpdate <= block <= later <= U32_MAX
    ensures Balance(r, Write(l, a, Balance(r, l, a, block), block), a, later) == Balance(r, l, a, later)
  {
    var e := EntryOf(l, a);
    if e.principal > 0.0 && e.lastUpdate < block < later {
      assert r.decay(r.decay(e.principal, block - e.lastUpdate), later - block) ==
             r.decay(e.principal, block - e.lastUpdate + (later - block));
      assert r.decay(0.0, later - block) == 0.0;
    }
  }
}
