/** The roll at submission bounds the turnout of every proposal, and the electorate counted then
    bounds that of every community proposal. */
module Electorate {
  import opened Primitives
  import opened Hall
  import opened Ceremonies
  import opened Governance
  import opened Chain
  import opened Turnout
  import TurnoutRule
  import FixedPointRule
  import CI = CeremonyInvariants
  import GI = GovernanceInvariants

  // Whose attendances count: one community's, or everybody's.
  predicate Covers(electors: Option<Cid>, cid: Cid) {
    electors.None? || electors.value == cid
  }

  // The electoral roll: the verified attendances of the electors at ceremonies lo..hi.
  ghost function Roll(c: Ceremonies.State, electors: Option<Cid>, lo: nat, hi: nat): set<Attendance> {
    set cc, a | cc in c.halls && Covers(electors, cc.cid) && lo <= cc.cindex <= hi &&
                a in c.halls[cc].VerifiedAccounts() :: Attendance(a, cc.cid, cc.cindex)
  }

  ghost function RollAt(c: Ceremonies.State, cid: Cid, i: nat): set<Attendance> {
    set a | a in HallAt(c, CC(cid, i)).VerifiedAccounts() :: Attendance(a, cid, i)
  }

  lemma SameCount(accounts: set<Account>, cid: Cid, i: nat, roll: set<Attendance>)
    requires roll == set a | a in accounts :: Attendance(a, cid, i)
    ensures |roll| == |accounts|
  {
    if accounts != {} {
      var a :| a in accounts;
      assert roll - {Attendance(a, cid, i)} == set b | b in accounts - {a} :: Attendance(b, cid, i);
      SameCount(accounts - {a}, cid, i, roll - {Attendance(a, cid, i)});
    }
  }

  lemma RollMembers(c: Ceremonies.State, electors: Option<Cid>, lo: nat, hi: nat, v: Attendance)
    ensures v in Roll(c, electors, lo, hi) <==>
            && Covers(electors, v.cid) && lo <= v.cindex <= hi
            && v.account in HallAt(c, CC(v.cid, v.cindex)).VerifiedAccounts()
  {
    var cc := CC(v.cid, v.cindex);
    assert v == Attendance(v.account, cc.cid, cc.cindex);
    if cc !in c.halls {
      assert EMPTY_HALL.VerifiedAccounts() == {};
    }
  }

  /** The counted electorate of a community is at least the size of its roll. */
  lemma {:induction false} RollWithinCounts(clock: Clock, c: Ceremonies.State, cid: Cid, lo: nat, hi: nat)
    requires CI.Inv(clock, c)
    ensures |Roll(c, Some(cid), lo, hi)| <= SumCounts(c, Some(cid), lo, hi)
    decreases hi + 1 - lo
  {
    hide CI.Inv, RollAt, CountAt, Roll;
    RollSplits(c, cid, lo, hi);
    if lo <= hi {
      RollWithinCounts(clock, c, cid, lo + 1, hi);
      RollAtCount(clock, c, cid, lo);
      UnionSize(RollAt(c, cid, lo), Roll(c, Some(cid), lo + 1, hi));
    }
  }

  lemma RollSplits(c: Ceremonies.State, cid: Cid, lo: nat, hi: nat)
    ensures lo > hi ==> Roll(c, Some(cid), lo, hi) == {}
    ensures lo <= hi ==> Roll(c, Some(cid), lo, hi) == RollAt(c, cid, lo) + Roll(c, Some(cid), lo + 1, hi)
  {
    hide Roll;
    forall v: Attendance
      ensures v in Roll(c, Some(cid), lo, hi) <==>
              lo <= hi && (v in RollAt(c, cid, lo) || v in Roll(c, Some(cid), lo + 1, hi))
    {
      RollMembers(c, Some(cid), lo, hi, v);
      RollMembers(c, Some(cid), lo + 1, hi, v);
      RollAtMembers(c, cid, lo, v);
    }
  }

  lemma RollAtMembers(c: Ceremonies.State, cid: Cid, i: nat, v: Attendance)
    ensures v in RollAt(c, cid, i) <==>
            v.cid == cid && v.cindex == i && v.account in HallAt(c, CC(cid, i)).VerifiedAccounts()
  {
  }

  lemma RollAtCount(clock: Clock, c: Ceremonies.State, cid: Cid, i: nat)
    requires CI.Inv(clock, c)
    ensures |RollAt(c, cid, i)| <= CountAt(c, Some(cid), i)
  {
    hide CI.Inv, CI.HallOk;
    var h := HallAt(c, CC(cid, i));
    CI.HallAtOk(clock, c, CC(cid, i));
    CountBound(clock, i, h);
    SameCount(h.VerifiedAccounts(), cid, i, RollAt(c, cid, i));
  }

  lemma CountBound(clock: Clock, i: nat, h: Hall)
    requires CI.HallOk(clock, i, h)
    ensures |h.VerifiedAccounts()| <= h.reputationCount
  {
  }

  /** Purging one community erases the global count of the ceremony index: from then on the
      global count bounds the attendances there exactly if none is left. */
  lemma PurgeBreaksGlobalCount(c: Ceremonies.State, cc: CommunityCeremony)
    ensures var t := PurgeCeremony(c, cc);
            |Roll(t, None, cc.cindex, cc.cindex)| <= SumCounts(t, None, cc.cindex, cc.cindex) <==>
            forall cid: Cid :: cid != cc.cid ==> HallAt(c, CC(cid, cc.cindex)).VerifiedAccounts() == {}
  {
    hide Roll;
    var t, i := PurgeCeremony(c, cc), cc.cindex;
    assert SumCounts(t, None, i, i) == CountAt(t, None, i) + SumCounts(t, None, i + 1, i) == 0;
    if forall cid: Cid :: cid != cc.cid ==> HallAt(c, CC(cid, i)).VerifiedAccounts() == {} {
      forall v: Attendance ensures v !in Roll(t, None, i, i) {
        RollMembers(t, None, i, i, v);
        assert EMPTY_HALL.VerifiedAccounts() == {};
      }
      assert Roll(t, None, i, i) == {};
    } else {
      var cid: Cid :| cid != cc.cid && HallAt(c, CC(cid, i)).VerifiedAccounts() != {};
      var a :| a in HallAt(c, CC(cid, i)).VerifiedAccounts();
      RollMembers(t, None, i, i, Attendance(a, cid, i));
    }
  }

  lemma UnionSize<T>(a: set<T>, b: set<T>)
    ensures |a + b| <= |a| + |b|
  {
    assert a + b == a + (b - a);
    CI.SubsetCardinality(b - a, b);
  }

  // The attendance still stands and is of the right community and age.
  ghost predicate CanVote(rules: Rules, s: Chain, id: nat, v: Attendance) {
    && id in s.gov.proposals
    && Eligible(rules.gov, s.gov.proposals[id], CC(v.cid, v.cindex))
    && Attended(s, v)
  }

  // The roll of a proposal submitted in state s.
  ghost function RollOf(rules: Rules, s: Chain, electors: Option<Cid>): set<Attendance>
    requires LifetimeCycles(rules.gov).Ok?
  {
    Roll(s.cer, electors, VotingFrom(rules.gov, s.clock.cindex, LifetimeCycles(rules.gov).value),
         VotingTo(s.clock.cindex))
  }

  // Proposal id was submitted by call m.
  ghost predicate SubmittedAt(states: seq<Chain>, m: nat, id: nat, action: Action)
    requires m + 1 < |states|
  {
    && id !in states[m].gov.proposals && id in states[m + 1].gov.proposals
    && states[m + 1].gov.proposals[id].action == action
  }

  lemma RollAtSubmission(rules: Rules, s: Chain, call: Call, id: nat)
    requires Inv(rules, s) && CallOk(rules, s, call) && id !in s.gov.proposals
    requires id in Apply(rules, s, call).gov.proposals
    ensures LifetimeCycles(rules.gov).Ok?
    ensures var t := Apply(rules, s, call);
            var action := t.gov.proposals[id].action;
            && Electorate(rules.gov, s.cer, s.clock.cindex, action) == Ok(t.gov.proposals[id].electorate)
            && forall v :: CanVote(rules, t, id, v) ==> v in RollOf(rules, s, action.Electors())
  {
    hide Apply, CallOk, CI.Inv, LifetimeCycles, Action.Electors;
    FreshTurnout(rules, s, call, id);
    var t := Apply(rules, s, call);
    var electors := t.gov.proposals[id].action.Electors();
    var lo := VotingFrom(rules.gov, s.clock.cindex, LifetimeCycles(rules.gov).value);
    forall v | CanVote(rules, t, id, v) ensures v in RollOf(rules, s, electors) {
      RollMembers(s.cer, electors, lo, VotingTo(s.clock.cindex), v);
    }
  }

  /** The electorate is the one counted when the proposal was submitted, and nobody votes who
      was not on the roll then, for community and global proposals alike. */
  lemma {:induction false} OnlyTheRollVotes(rules: Rules, states: seq<Chain>, calls: seq<Call>, m: nat, n: nat, id: nat,
                                            action: Action)
    requires IsRun(rules, states, calls) && m < n <= |calls| && SubmittedAt(states, m, id, action)
    ensures LifetimeCycles(rules.gov).Ok? && id in states[n].gov.proposals
    ensures Electorate(rules.gov, states[m].cer, states[m].clock.cindex, action) ==
            Ok(states[n].gov.proposals[id].electorate)
    ensures Voted(states, calls, n, id) <= RollOf(rules, states[m], action.Electors())
    ensures forall v :: CanVote(rules, states[n], id, v) ==> v in RollOf(rules, states[m], action.Electors())
    decreases n
  {
    hide Apply, CallOk, Inv, Step, CanVote, RollOf, LifetimeCycles, VotesFor, Action.Electors, Electorate;
    RunKeeps(rules, states, calls, n - 1);
    assert Next(rules, states[n - 1], calls[n - 1], states[n - 1 + 1]);
    if n == m + 1 {
      NoVotesBefore(rules, states, calls, m, id);
      RollAtSubmission(rules, states[m], calls[m], id);
      FreshTurnout(rules, states[m], calls[m], id);
    } else {
      OnlyTheRollVotes(rules, states, calls, m, n - 1, id, action);
      RollStep(rules, states[n - 1], calls[n - 1], id, RollOf(rules, states[m], action.Electors()));
    }
  }

  lemma RollStep(rules: Rules, s: Chain, call: Call, id: nat, roll: set<Attendance>)
    requires Inv(rules, s) && CallOk(rules, s, call) && GI.EmptyFails(rules.gov) && id in s.gov.proposals
    requires forall v :: CanVote(rules, s, id, v) ==> v in roll
    ensures var t := Apply(rules, s, call);
            && id in t.gov.proposals && t.gov.proposals[id].electorate == s.gov.proposals[id].electorate
            && VotesFor(s, call, t, id) <= roll
            && forall v :: CanVote(rules, t, id, v) ==> v in roll
  {
    hide Apply, CallOk, Inv, Step, Eligible, Attended, VotesFor, CI.Frozen;
    var t := Apply(rules, s, call);
    ApplyKeeps(rules, s, call);
    ProposalKept(rules, s, t, id);
    VoteEffect(rules, s, call, id);
    forall v | CanVote(rules, t, id, v) ensures v in roll {
      EligibleIsFrozen(rules, s.clock, s.gov.proposals[id], v);
      FrozenAttendance(rules, s, t, v);
      assert CanVote(rules, s, id, v);
    }
    forall v | v in VotesFor(s, call, t, id) ensures v in roll {
      assert CanVote(rules, s, id, v);
    }
  }

  lemma {:induction false} FindSubmission(rules: Rules, states: seq<Chain>, calls: seq<Call>, n: nat, id: nat)
    returns (m: nat)
    requires IsRun(rules, states, calls) && n <= |calls| && id in states[n].gov.proposals
    ensures m < n && SubmittedAt(states, m, id, states[n].gov.proposals[id].action)
  {
    hide Apply, CallOk, Inv, Step, Eligible;
    assert n > 0;
    if id in states[n - 1].gov.proposals {
      RunKeeps(rules, states, calls, n - 1);
      ProposalKept(rules, states[n - 1], states[n - 1 + 1], id);
      m := FindSubmission(rules, states, calls, n - 1, id);
    } else {
      m := n - 1;
    }
  }

  lemma AyesWithinTurnout(rules: Rules, s: Chain, id: nat)
    requires Inv(rules, s) && id in s.gov.proposals
    ensures id in s.gov.tallies && s.gov.tallies[id].ayes <= s.gov.tallies[id].turnout
  {
    hide CI.Inv;
    GI.DatedAt(rules.gov, s.clock, s.gov, id);
  }

  /** In every reachable state the turnout of any proposal is at most the number of attendances
      on the roll at the moment m when it was submitted, and the electorate is the one counted
      then. */
  lemma TurnoutWithinRoll(rules: Rules, states: seq<Chain>, calls: seq<Call>, n: nat, id: nat) returns (m: nat)
    requires IsRun(rules, states, calls) && n <= |calls| && id in states[n].gov.proposals
    ensures m < n && SubmittedAt(states, m, id, states[n].gov.proposals[id].action)
    ensures LifetimeCycles(rules.gov).Ok? && id in states[n].gov.tallies
    ensures var proposal, tally := states[n].gov.proposals[id], states[n].gov.tallies[id];
            && Electorate(rules.gov, states[m].cer, states[m].clock.cindex, proposal.action) == Ok(proposal.electorate)
            && tally.ayes <= tally.turnout <= |RollOf(rules, states[m], proposal.action.Electors())|
  {
    hide Apply, CallOk, Inv, Step, Action.Electors, RollOf, Voted, VoteRecord, Eligible, Attended, Electorate;
    var action := states[n].gov.proposals[id].action;
    m := FindSubmission(rules, states, calls, n, id);
    OnlyTheRollVotes(rules, states, calls, m, n, id, action);
    TurnoutCountsOnce(rules, states, calls, n, id);
    CI.SubsetCardinality(Voted(states, calls, n, id), RollOf(rules, states[m], action.Electors()));
    RunKeeps(rules, states, calls, n);
    AyesWithinTurnout(rules, states[n], id);
  }

  /** In every reachable state ayes <= turnout <= electorate, where the electorate is the one
      counted at submission: for every community proposal, and for a global one whenever the
      global counts covered the roll when it was submitted. */
  lemma TurnoutWithinElectorate(rules: Rules, states: seq<Chain>, calls: seq<Call>, n: nat, id: nat) returns (m: nat)
    requires IsRun(rules, states, calls) && n <= |calls| && id in states[n].gov.proposals
    ensures m < n && SubmittedAt(states, m, id, states[n].gov.proposals[id].action)
    ensures LifetimeCycles(rules.gov).Ok? && id in states[n].gov.tallies
    ensures var proposal, tally := states[n].gov.proposals[id], states[n].gov.tallies[id];
            && Electorate(rules.gov, states[m].cer, states[m].clock.cindex, proposal.action) == Ok(proposal.electorate)
            && (proposal.action.Electors().Some? || |RollOf(rules, states[m], None)| <= proposal.electorate ==>
                  tally.ayes <= tally.turnout <= proposal.electorate)
  {
    hide Apply, CallOk, Inv, Step, Action.Electors, Roll;
    m := TurnoutWithinRoll(rules, states, calls, n, id);
    var electors := states[n].gov.proposals[id].action.Electors();
    if electors.Some? {
      RunKeeps(rules, states, calls, m);
      CommunityRoll(rules, states[m], electors.value);
    }
  }

  lemma CommunityRoll(rules: Rules, s: Chain, cid: Cid)
    requires Inv(rules, s) && LifetimeCycles(rules.gov).Ok?
    ensures |RollOf(rules, s, Some(cid))| <=
            SumCounts(s.cer, Some(cid), VotingFrom(rules.gov, s.clock.cindex, LifetimeCycles(rules.gov).value),
                      VotingTo(s.clock.cindex))
  {
    hide CI.Inv, LifetimeCycles;
    RollWithinCounts(s.clock, s.cer, cid, VotingFrom(rules.gov, s.clock.cindex, LifetimeCycles(rules.gov).value),
                     VotingTo(s.clock.cindex));
  }

  lemma ApprovedPasses(rules: Rules, s: Chain, id: nat)
    requires Inv(rules, s) && id in s.gov.proposals
    requires s.gov.proposals[id].state.Approved? || s.gov.proposals[id].state.Enacted?
    ensures id in s.gov.tallies
    ensures var t := s.gov.tallies[id];
            rules.gov.bias(s.gov.proposals[id].electorate, t.turnout, t.ayes) == Some(true)
  {
    hide CI.Inv;
    assert GI.StateOk(rules.gov, s.clock, s.gov.proposals[id], s.gov.tallies[id]);
  }

  /** If the quorum rule is computed exactly, every approved or enacted community proposal
      carries a strict majority of the votes cast. */
  lemma ApprovedByMajority(rules: Rules, states: seq<Chain>, calls: seq<Call>, n: nat, id: nat)
    requires IsRun(rules, states, calls) && n <= |calls| && id in states[n].gov.proposals
    requires states[n].gov.proposals[id].action.Electors().Some?
    requires states[n].gov.proposals[id].state.Approved? || states[n].gov.proposals[id].state.Enacted?
    requires forall e, t, a :: rules.gov.bias(e, t, a) == Some(true) ==> TurnoutRule.Approves(e, t, a)
    ensures id in states[n].gov.tallies
    ensures 2 * states[n].gov.tallies[id].ayes > states[n].gov.tallies[id].turnout
  {
    hide Inv, Step, Action.Electors, TurnoutRule.Approves;
    var m := TurnoutWithinElectorate(rules, states, calls, n, id);
    RunKeeps(rules, states, calls, n);
    ApprovedPasses(rules, states[n], id);
    var t := states[n].gov.tallies[id];
    TurnoutRule.RuleNeedsMajority(states[n].gov.proposals[id].electorate, t.turnout, t.ayes);
  }

  // Whatever the rule approves, some pair of computed roots approves on raw bits. The roots are
  // in the order of their arguments, and that of the turnout is nearly exact.
  ghost predicate FixedPoint(bias: (nat, nat, nat) -> Option<bool>) {
    forall e: nat, t: nat, a: nat :: bias(e, t, a) == Some(true) ==>
      0 < t < FixedPointRule.UNIT && exists se, st, ulps :: ApprovedBits(e, t, a, se, st, ulps)
  }

  ghost predicate ApprovedBits(e: nat, t: nat, a: nat, se: nat, st: nat, ulps: nat) {
    && (t <= e ==> st <= se) && ulps <= FixedPointRule.ULPS_MAX
    && FixedPointRule.RootBits(st, t, ulps) && FixedPointRule.PassesFixed(a, se, st)
  }

  /** With the rounding of the code, every approved or enacted community proposal still carries
      at least half of the votes cast. */
  lemma ApprovedByHalf(rules: Rules, states: seq<Chain>, calls: seq<Call>, n: nat, id: nat)
    requires IsRun(rules, states, calls) && n <= |calls| && id in states[n].gov.proposals
    requires states[n].gov.proposals[id].action.Electors().Some?
    requires states[n].gov.proposals[id].state.Approved? || states[n].gov.proposals[id].state.Enacted?
    requires FixedPoint(rules.gov.bias)
    ensures id in states[n].gov.tallies
    ensures 2 * states[n].gov.tallies[id].ayes >= states[n].gov.tallies[id].turnout
  {
    hide Inv, Step, Action.Electors, FixedPointRule.RootBits, FixedPointRule.PassesFixed;
    var m := TurnoutWithinElectorate(rules, states, calls, n, id);
    RunKeeps(rules, states, calls, n);
    ApprovedPasses(rules, states[n], id);
    var e, tally := states[n].gov.proposals[id].electorate, states[n].gov.tallies[id];
    var se, st, ulps :| ApprovedBits(e, tally.turnout, tally.ayes, se, st, ulps);
    FixedPointRule.RoundedRuleNeedsHalf(tally.turnout, tally.ayes, se, st, ulps);
  }

  // The same with both roots nearly exact.
  ghost predicate NearRoots(bias: (nat, nat, nat) -> Option<bool>) {
    forall e: nat, t: nat, a: nat :: bias(e, t, a) == Some(true) ==>
      0 < t < FixedPointRule.UNIT && exists se, st, ulps :: NearBits(e, t, a, se, st, ulps)
  }

  ghost predicate NearBits(e: nat, t: nat, a: nat, se: nat, st: nat, ulps: nat) {
    && ulps <= FixedPointRule.ULPS_MAX
    && FixedPointRule.RootBits(se, e, ulps) && FixedPointRule.RootBits(st, t, ulps)
    && FixedPointRule.PassesFixed(a, se, st)
  }

  /** With the rounding of the code, every approved or enacted community proposal in which not the
      whole electorate voted carries a strict majority of the votes cast. */
  lemma ApprovedBelowElectorate(rules: Rules, states: seq<Chain>, calls: seq<Call>, n: nat, id: nat)
    requires IsRun(rules, states, calls) && n <= |calls| && id in states[n].gov.proposals
    requires states[n].gov.proposals[id].action.Electors().Some?
    requires states[n].gov.proposals[id].state.Approved? || states[n].gov.proposals[id].state.Enacted?
    requires NearRoots(rules.gov.bias)
    ensures id in states[n].gov.tallies
    ensures var e, tally := states[n].gov.proposals[id].electorate, states[n].gov.tallies[id];
            tally.turnout == e || (tally.turnout < e && 2 * tally.ayes > tally.turnout)
  {
    hide Inv, Step, Action.Electors, FixedPointRule.RootBits, FixedPointRule.PassesFixed;
    var m := TurnoutWithinElectorate(rules, states, calls, n, id);
    RunKeeps(rules, states, calls, n);
    ApprovedPasses(rules, states[n], id);
    var e, tally := states[n].gov.proposals[id].electorate, states[n].gov.tallies[id];
    var se, st, ulps :| NearBits(e, tally.turnout, tally.ayes, se, st, ulps);
    if tally.turnout < e {
      FixedPointRule.RoundedRuleNeedsMajority(e, tally.turnout, tally.ayes, se, st, ulps);
    }
  }

  // The same with truncated roots.
  ghost predicate TruncatedRoots(bias: (nat, nat, nat) -> Option<bool>) {
    forall e: nat, t: nat, a: nat :: bias(e, t, a) == Some(true) ==>
      0 < t < FixedPointRule.UNIT && exists se, st :: TruncatedBits(e, t, a, se, st)
  }

  ghost predicate TruncatedBits(e: nat, t: nat, a: nat, se: nat, st: nat) {
    && FixedPointRule.TruncatedRoot(se, e) && FixedPointRule.TruncatedRoot(st, t)
    && FixedPointRule.PassesFixed(a, se, st)
  }

  /** With truncated roots, the only approved or enacted community proposals without a strict
      majority are those in which everybody voted, exactly half aye, and their number is no square. */
  lemma ApprovedExactly(rules: Rules, states: seq<Chain>, calls: seq<Call>, n: nat, id: nat)
    requires IsRun(rules, states, calls) && n <= |calls| && id in states[n].gov.proposals
    requires states[n].gov.proposals[id].action.Electors().Some?
    requires states[n].gov.proposals[id].state.Approved? || states[n].gov.proposals[id].state.Enacted?
    requires TruncatedRoots(rules.gov.bias)
    ensures id in states[n].gov.tallies
    ensures var e, tally := states[n].gov.proposals[id].electorate, states[n].gov.tallies[id];
            || 2 * tally.ayes > tally.turnout
            || (tally.turnout == e == 2 * tally.ayes && !FixedPointRule.IsSquare(e))
  {
    hide Inv, Step, Action.Electors, FixedPointRule.TruncatedRoot, FixedPointRule.PassesFixed, FixedPointRule.IsSquare;
    var m := TurnoutWithinElectorate(rules, states, calls, n, id);
    RunKeeps(rules, states, calls, n);
    ApprovedPasses(rules, states[n], id);
    var e, tally := states[n].gov.proposals[id].electorate, states[n].gov.tallies[id];
    var se, st :| TruncatedBits(e, tally.turnout, tally.ayes, se, st);
    FixedPointRule.PassesWithoutMajorityExactly(e, tally.turnout, tally.ayes, se, st);
  }
}
