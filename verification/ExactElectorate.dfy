/**
 The electorate of a proposal is the size of its roll: of every community proposal in every run, and
 of global ones in runs without manual and inactivity purges.
 */
module ExactElectorate {
  import opened Primitives
  import opened Hall
  import opened Ceremonies
  import opened Governance
  import opened Chain
  import opened Turnout
  import opened Electorate
  import opened ExactCounts
  import BackedRuns
  import RegistrationGuards
  import SignedLinks
  import Standing
  import MJ = MeetupJudgement
  import CI = CeremonyInvariants
  import GI = GovernanceInvariants

  // The attendances of one ceremony index, of one community or of all.
  ghost function RollOfIndex(c: Ceremonies.State, electors: Option<Cid>, i: nat): set<Attendance> {
    Roll(c, electors, i, i)
  }

  // The stored count of every index in the window is the number of attendances there.
  ghost predicate CountedExactly(c: Ceremonies.State, electors: Option<Cid>, lo: nat, hi: nat) {
    forall i: nat :: lo <= i <= hi ==> |RollOfIndex(c, electors, i)| == CountAt(c, electors, i)
  }

  lemma RollSplitsOff(c: Ceremonies.State, electors: Option<Cid>, lo: nat, hi: nat)
    requires lo <= hi
    ensures Roll(c, electors, lo, hi) == RollOfIndex(c, electors, lo) + Roll(c, electors, lo + 1, hi)
    ensures RollOfIndex(c, electors, lo) !! Roll(c, electors, lo + 1, hi)
  {
    hide Roll;
    forall v: Attendance
      ensures v in Roll(c, electors, lo, hi) <==>
              v in RollOfIndex(c, electors, lo) || v in Roll(c, electors, lo + 1, hi)
      ensures !(v in RollOfIndex(c, electors, lo) && v in Roll(c, electors, lo + 1, hi))
    {
      RollMembers(c, electors, lo, hi, v);
      RollMembers(c, electors, lo, lo, v);
      RollMembers(c, electors, lo + 1, hi, v);
    }
  }

  lemma {:induction false} RollIsCounted(c: Ceremonies.State, electors: Option<Cid>, lo: nat, hi: nat)
    requires CountedExactly(c, electors, lo, hi)
    ensures |Roll(c, electors, lo, hi)| == SumCounts(c, electors, lo, hi)
    decreases hi + 1 - lo
  {
    hide Roll, CountAt;
    if lo <= hi {
      RollSplitsOff(c, electors, lo, hi);
      RollIsCounted(c, electors, lo + 1, hi);
    } else {
      EmptyRoll(c, electors, lo, hi);
    }
  }

  lemma EmptyRoll(c: Ceremonies.State, electors: Option<Cid>, lo: nat, hi: nat)
    requires lo > hi
    ensures Roll(c, electors, lo, hi) == {}
  {
  }

  lemma CommunityCounted(c: Ceremonies.State, cid: Cid, lo: nat, hi: nat)
    requires CountsExact(c)
    ensures CountedExactly(c, Some(cid), lo, hi)
  {
    hide Roll;
    forall i: nat | lo <= i <= hi ensures |RollOfIndex(c, Some(cid), i)| == CountAt(c, Some(cid), i) {
      forall v: Attendance ensures v in RollOfIndex(c, Some(cid), i) <==> v in RollAt(c, cid, i) {
        RollMembers(c, Some(cid), i, i, v);
        RollAtMembers(c, cid, i, v);
      }
      assert RollOfIndex(c, Some(cid), i) == RollAt(c, cid, i);
      SameCount(HallAt(c, CC(cid, i)).VerifiedAccounts(), cid, i, RollAt(c, cid, i));
      assert HallExact(HallAt(c, CC(cid, i)));
    }
  }

  /** Over every run, the electorate of a community proposal is exactly the number of verified
      attendances on its roll when it was submitted. */
  lemma ElectorateIsRoll(rules: Rules, states: seq<Chain>, calls: seq<Call>, m: nat, n: nat, id: nat, action: Action)
    requires IsRun(rules, states, calls) && m < n <= |calls| && SubmittedAt(states, m, id, action)
    requires action.Electors().Some?
    ensures LifetimeCycles(rules.gov).Ok? && id in states[n].gov.proposals
    ensures states[n].gov.proposals[id].electorate == |RollOf(rules, states[m], action.Electors())|
  {
    hide Next, Genesis, Roll, LifetimeCycles, CountsExact, Action.Electors;
    OnlyTheRollVotes(rules, states, calls, m, n, id, action);
    CountsInEveryState(rules, states, calls, m);
    var lo, hi := VotingFrom(rules.gov, states[m].clock.cindex, LifetimeCycles(rules.gov).value),
                  VotingTo(states[m].clock.cindex);
    CommunityCounted(states[m].cer, action.Electors().value, lo, hi);
    RollIsCounted(states[m].cer, action.Electors(), lo, hi);
  }

  // ---------- global proposals ----------

  // Only the expiry hook purges.
  predicate NoPurge(call: Call) {
    !call.PurgeCall? && (call.PhaseChange? ==> call.inactives == [])
  }

  // The global counts of the ceremonies that have not expired are exact.
  ghost predicate GlobalExact(rules: Rules, s: Chain) {
    forall i: nat :: i + rules.gov.reputationLifetime >= s.clock.cindex ==> GlobalExactAt(s.cer, i)
  }

  ghost predicate GlobalExactAt(c: Ceremonies.State, i: nat) {
    |RollOfIndex(c, None, i)| == GlobalCount(c, i)
  }

  lemma IndexMembers(c: Ceremonies.State, i: nat, v: Attendance)
    ensures v in RollOfIndex(c, None, i) <==>
            v.cindex == i && v.account in HallAt(c, CC(v.cid, v.cindex)).VerifiedAccounts()
  {
    RollMembers(c, None, i, i, v);
  }

  lemma SameIndexRoll(s: Ceremonies.State, t: Ceremonies.State, i: nat)
    requires forall cc: CommunityCeremony :: cc.cindex == i ==>
               HallAt(t, cc).VerifiedAccounts() == HallAt(s, cc).VerifiedAccounts()
    ensures RollOfIndex(t, None, i) == RollOfIndex(s, None, i)
  {
    hide RollOfIndex;
    forall v: Attendance ensures v in RollOfIndex(t, None, i) <==> v in RollOfIndex(s, None, i) {
      IndexMembers(s, i, v);
      IndexMembers(t, i, v);
    }
  }

  lemma PaidIndexRoll(s: Chain, t: Chain, cc: CommunityCeremony, paid: seq<Account>, i: nat)
    requires CountsPaid(s, t, cc, paid) && GlobalExactAt(s.cer, i)
    ensures GlobalExactAt(t.cer, i)
  {
    hide RollOfIndex;
    if i == cc.cindex {
      var votes := set a | a in paid :: Attendance(a, cc.cid, cc.cindex);
      forall v: Attendance
        ensures v in RollOfIndex(t.cer, None, i) <==> v in RollOfIndex(s.cer, None, i) || v in votes
        ensures !(v in RollOfIndex(s.cer, None, i) && v in votes)
      {
        IndexMembers(s.cer, i, v);
        IndexMembers(t.cer, i, v);
        assert CC(v.cid, v.cindex) != cc ==> HallAt(t.cer, CC(v.cid, v.cindex)) == HallAt(s.cer, CC(v.cid, v.cindex));
      }
      assert RollOfIndex(t.cer, None, i) == RollOfIndex(s.cer, None, i) + votes;
      var payees := set a | a in paid;
      DistinctSize(paid, payees);
      SameCount(payees, cc.cid, i, votes);
    } else {
      SameIndexRoll(s.cer, t.cer, i);
    }
  }

  lemma RegistrationGlobal(rules: Rules, s: Chain, call: Call, i: nat)
    requires Inv(rules, s) && CallOk(rules, s, call) && GlobalExactAt(s.cer, i)
    requires call.RegisterCall? || call.UpgradeCall? || call.UnregisterCall? || call.EndorseCall?
    ensures GlobalExactAt(Apply(rules, s, call).cer, i)
  {
    hide Inv, CallOk, Apply, RollOfIndex;
    RegistrationCounts(rules, s, call);
    SameIndexRoll(s.cer, Apply(rules, s, call).cer, i);
  }

  lemma AssigningGlobal(rules: Rules, s: Chain, call: Call, i: nat)
    requires CallOk(rules, s, call) && call.PhaseChange? && call.inactives == [] && s.clock.phase == Registering
    requires GlobalExactAt(s.cer, i)
    ensures GlobalExactAt(Apply(rules, s, call).cer, i)
  {
    hide AssignSeats, SeatInputOk, RollOfIndex, EnactAll;
    var cfg, t := rules.Config(), Apply(rules, s, call);
    assert PurgeInactive(cfg, s.clock.cindex, s.cer, []) == s.cer;
    forall cc: CommunityCeremony | cc.cindex == i
      ensures HallAt(t.cer, cc).VerifiedAccounts() == HallAt(s.cer, cc).VerifiedAccounts()
    {
      if cc.cid in s.cer.communities && cc.cindex == s.clock.cindex {
        CI.AssignOnlySeats(cfg.seating, HallAt(s.cer, cc), SeatInputFor(call.seats, cc.cid));
      }
    }
    SameIndexRoll(s.cer, t.cer, i);
  }

  // The other calls leave the ceremonies of an index alone that does not expire.
  lemma OtherGlobal(rules: Rules, s: Chain, call: Call, i: nat)
    requires CallOk(rules, s, call) && NoPurge(call) && GlobalExactAt(s.cer, i)
    requires !call.RegisterCall? && !call.UpgradeCall? && !call.UnregisterCall? && !call.EndorseCall?
    requires !call.ClaimCall? && !(call.PhaseChange? && s.clock.phase == Registering)
    requires i + rules.gov.reputationLifetime >= Apply(rules, s, call).clock.cindex
    ensures GlobalExactAt(Apply(rules, s, call).cer, i)
  {
    hide SubmitProposal, CastVote, UpdateProposal, RegisterPurpose, CommitReputation, PurgeCommitments, RollOfIndex;
    SameIndexRoll(s.cer, Apply(rules, s, call).cer, i);
  }

  lemma CallGlobal(rules: Rules, s: Chain, call: Call)
    requires Inv(rules, s) && CallOk(rules, s, call) && Step(rules, s, Apply(rules, s, call)) && NoPurge(call)
    requires BackedRuns.VerifiedPaid(s.cer) && GlobalExact(rules, s)
    ensures GlobalExact(rules, Apply(rules, s, call))
  {
    hide Inv, CallOk, Apply, BackedRuns.VerifiedPaid, GlobalExactAt;
    var t := Apply(rules, s, call);
    assert s.clock.cindex <= t.clock.cindex;
    forall i: nat | i + rules.gov.reputationLifetime >= t.clock.cindex ensures GlobalExactAt(t.cer, i) {
      assert GlobalExactAt(s.cer, i);
      if call.RegisterCall? || call.UpgradeCall? || call.UnregisterCall? || call.EndorseCall? {
        RegistrationGlobal(rules, s, call, i);
      } else if call.ClaimCall? {
        ClaimEffect(rules, s, call);
        PaidIndexRoll(s, t, CC(call.cid, ClaimIndex(s.clock)), BackedRuns.PaidOf(s, call), i);
      } else if call.PhaseChange? && s.clock.phase == Registering {
        AssigningGlobal(rules, s, call, i);
      } else {
        OtherGlobal(rules, s, call, i);
      }
    }
  }

  lemma {:induction false} GlobalInEveryState(rules: Rules, states: seq<Chain>, calls: seq<Call>, n: nat)
    requires IsRun(rules, states, calls) && n <= |calls| && forall i :: 0 <= i < n ==> NoPurge(calls[i])
    ensures GlobalExact(rules, states[n])
  {
    hide Inv, Step, Apply, CallOk, GlobalExact, BackedRuns.VerifiedPaid;
    if n == 0 {
      GenesisGlobal(rules, states[0]);
    } else {
      GlobalInEveryState(rules, states, calls, n - 1);
      CountsInEveryState(rules, states, calls, n - 1);
      RunKeeps(rules, states, calls, n - 1);
      assert Next(rules, states[n - 1], calls[n - 1], states[n - 1 + 1]);
      CallGlobal(rules, states[n - 1], calls[n - 1]);
    }
  }

  lemma GenesisGlobal(rules: Rules, s: Chain)
    requires Genesis(s)
    ensures GlobalExact(rules, s)
  {
    forall i: nat ensures RollOfIndex(s.cer, None, i) == {} {}
  }

  /** In a run without manual and inactivity purges, the electorate of a global proposal is exactly
      the number of verified attendances on its roll as well. */
  lemma GlobalElectorateIsRoll(rules: Rules, states: seq<Chain>, calls: seq<Call>, m: nat, n: nat, id: nat,
                               action: Action)
    requires IsRun(rules, states, calls) && m < n <= |calls| && SubmittedAt(states, m, id, action)
    requires action.Electors().None?
    requires forall i :: 0 <= i < m ==> NoPurge(calls[i])
    ensures LifetimeCycles(rules.gov).Ok? && id in states[n].gov.proposals
    ensures states[n].gov.proposals[id].electorate == |RollOf(rules, states[m], None)|
  {
    hide Next, Genesis, Roll, LifetimeCycles, Action.Electors;
    OnlyTheRollVotes(rules, states, calls, m, n, id, action);
    GlobalInEveryState(rules, states, calls, m);
    var lo, hi := VotingFrom(rules.gov, states[m].clock.cindex, LifetimeCycles(rules.gov).value),
                  VotingTo(states[m].clock.cindex);
    forall i: nat | lo <= i <= hi ensures |RollOfIndex(states[m].cer, None, i)| == CountAt(states[m].cer, None, i) {
      assert GlobalExactAt(states[m].cer, i);
    }
    RollIsCounted(states[m].cer, None, lo, hi);
  }
}
