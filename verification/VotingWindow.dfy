/**
 The voting window is as large as it can be. The ceremonies whose attendances may vote on a proposal
 are those frozen at its submission which no expiry purge can reach within its lifetime. Only before
 one reputation lifetime has passed since the first ceremony does the code leave out more.
 */
module VotingWindow {
  import opened Primitives
  import opened Arithmetic
  import opened Hall
  import opened Ceremonies
  import opened Governance
  import opened Chain
  import opened Turnout
  import opened Electorate
  import Scheduler
  import IndexReach
  import CI = CeremonyInvariants

  // An expiry purge drops ceremony i at the start of ceremony i + lifetime + 1: some run of the
  // hook from ceremony start gets there within the lifetime of a proposal.
  ghost predicate Expires(d: Scheduler.Durations, day: nat, p: Parameters, start: nat, i: nat)
    requires day > 0
  {
    IndexReach.Reached(d, day, start, p.proposalLifetime, i + p.reputationLifetime + 1)
  }

  // Fewer cycles than the lifetime of a proposal takes have passed since ceremony 0.
  predicate TooYoung(p: Parameters, start: nat, i: nat) {
    start < p.reputationLifetime && i * p.cycleDuration < p.proposalLifetime
  }

  // The scheduler goes with the parameters, and times stay away from the end of u64.
  predicate Fits(d: Scheduler.Durations, p: Parameters) {
    && d.registering > 0 && d.assigning > 0 && d.attesting > 0 && p.cycleDuration == d.Cycle()
    && p.proposalLifetime + 3 * d.Cycle() < U64_MAX
  }

  lemma CyclesCover(p: Parameters, x: nat)
    requires p.cycleDuration > 0 && LifetimeCycles(p).Ok? && x < U32_MAX
    ensures LifetimeCycles(p).value <= x <==> p.proposalLifetime <= x * p.cycleDuration
  {
    var cycle, q := p.cycleDuration, (p.proposalLifetime + p.cycleDuration - 1) / p.cycleDuration;
    DivIdentity(p.proposalLifetime + cycle - 1, cycle);
    if q <= x {
      ProductMonotone(q, cycle, x, cycle);
    } else {
      ProductMonotone(x + 1, cycle, q, cycle);
      assert (x + 1) * cycle == x * cycle + cycle;
    }
  }

  lemma ExpiresExactly(d: Scheduler.Durations, day: nat, p: Parameters, start: nat, i: nat)
    requires day > 0 && Fits(d, p) && start + i + p.reputationLifetime + 1 < U32_MAX
    ensures Expires(d, day, p, start, i) <==>
            i + p.reputationLifetime < start ||
            p.proposalLifetime > (i + p.reputationLifetime - start) * p.cycleDuration
  {
    var c := i + p.reputationLifetime + 1;
    if c <= start {
      IndexReach.ReachedExactly(d, day, start, p.proposalLifetime, 0);
      IndexReach.ReachedLess(d, day, start, p.proposalLifetime, start, c);
    } else {
      IndexReach.ReachedExactly(d, day, start, p.proposalLifetime, c - start);
    }
  }

  /** An attendance may vote exactly if its ceremony is frozen at submission and cannot expire
      within the lifetime of the proposal, and the chain is not too young. */
  lemma WindowExactly(d: Scheduler.Durations, day: nat, p: Parameters, clock: Clock, i: nat)
    requires day > 0 && Fits(d, p) && clock.cindex + i + p.reputationLifetime + 1 < U32_MAX
    ensures MayVote(p, clock.cindex, i) <==>
            CI.Frozen(clock, i) && !Expires(d, day, p, clock.cindex, i) && !TooYoung(p, clock.cindex, i)
  {
    hide LifetimeCycles;
    var start := clock.cindex;
    assert LifetimeCycles(p).Ok? by { CyclesKnown(d, p); }
    ExpiresExactly(d, day, p, start, i);
    CyclesCover(p, i);
    if i + p.reputationLifetime >= start {
      CyclesCover(p, i + p.reputationLifetime - start);
    }
  }

  lemma CyclesKnown(d: Scheduler.Durations, p: Parameters)
    requires Fits(d, p)
    ensures LifetimeCycles(p).Ok?
  {
  }

  /** The roll of a proposal are the attendances that stand, of its electors, at the ceremonies
      frozen at submission that cannot expire within its lifetime. */
  lemma RollExactly(d: Scheduler.Durations, day: nat, rules: Rules, s: Chain, electors: Option<Cid>, v: Attendance)
    requires day > 0 && Fits(d, rules.gov)
    requires s.clock.cindex + v.cindex + rules.gov.reputationLifetime + 1 < U32_MAX
    ensures LifetimeCycles(rules.gov).Ok?
    ensures v in RollOf(rules, s, electors) <==>
            && Attended(s, v) && (electors.None? || electors == Some(v.cid))
            && CI.Frozen(s.clock, v.cindex) && !Expires(d, day, rules.gov, s.clock.cindex, v.cindex)
            && !TooYoung(rules.gov, s.clock.cindex, v.cindex)
  {
    hide LifetimeCycles, Roll;
    assert LifetimeCycles(rules.gov).Ok? by { CyclesKnown(d, rules.gov); }
    WindowExactly(d, day, rules.gov, s.clock, v.cindex);
    RollMembers(s.cer, electors, VotingFrom(rules.gov, s.clock.cindex, LifetimeCycles(rules.gov).value),
                VotingTo(s.clock.cindex), v);
  }

  /** In a young chain the window is smaller than it could be: ceremony 1 is frozen at ceremony 4
      and cannot expire within the two cycles of a proposal, yet nobody votes with it. */
  lemma YoungWindowShort(day: nat)
    requires day > 0
    ensures var p := Parameters(6, 5, 20, 1, 10, (e: nat, t: nat, a: nat) => Some(2 * a > t));
            var d := Scheduler.Durations(5, 3, 2);
            && CI.Frozen(Clock(100, Registering, 4), 1) && !Expires(d, day, p, 4, 1)
            && !MayVote(p, 4, 1)
  {
    var p := Parameters(6, 5, 20, 1, 10, (e: nat, t: nat, a: nat) => Some(2 * a > t));
    ExpiresExactly(Scheduler.Durations(5, 3, 2), day, p, 4, 1);
    CyclesCover(p, 1);
  }
}
