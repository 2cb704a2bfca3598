/**
 The stored counts are exact. In every run the reputation count of a ceremony is the number of
 verified attendances there, so the electorate of a community proposal is its roll, and in runs
 without manual and inactivity purges that of a global proposal is as well.
 */
module ExactCounts {
  import opened Primitives
  import opened Hall
  import opened Ceremonies
  import opened Chain
  import opened Payout
  import opened BackedRuns
  import opened RegistrationGuards
  import ProofBacking
  import SignedLinks
  import Standing
  import Governance
  import MJ = MeetupJudgement
  import CI = CeremonyInvariants
  import GI = GovernanceInvariants

  ghost predicate HallExact(h: Hall) {
    |h.VerifiedAccounts()| == h.reputationCount
  }

  ghost predicate CountsExact(s: Ceremonies.State) {
    forall cc: CommunityCeremony :: HallExact(HallAt(s, cc))
  }

  // ---------- claims ----------

  lemma {:induction false} DistinctSize<T>(xs: seq<T>, all: set<T>)
    requires NoDuplicates(xs) && forall x :: x in all <==> x in xs
    ensures |all| == |xs|
  {
    if xs != [] {
      var front, last := xs[..|xs| - 1], xs[|xs| - 1];
      assert xs == front + [last] && last !in front;
      DistinctSize(front, all - {last});
    } else {
      assert all == {};
    }
  }

  // What a claim does to the counts: its payees are new, and every one of them is counted once.
  ghost predicate CountsPaid(s: Chain, t: Chain, cc: CommunityCeremony, paid: seq<Account>) {
    var h, g := HallAt(s.cer, cc), HallAt(t.cer, cc);
    && NoDuplicates(paid) && (forall a :: a in paid ==> a !in h.VerifiedAccounts())
    && (forall other: CommunityCeremony :: other != cc ==> HallAt(t.cer, other) == HallAt(s.cer, other))
    && g.VerifiedAccounts() == h.VerifiedAccounts() + (set a | a in paid)
    && g.reputationCount == h.reputationCount + |paid|
    && forall i: nat :: GlobalCount(t.cer, i) == GlobalCount(s.cer, i) + if i == cc.cindex then |paid| else 0
  }

  lemma PaidOnce(rules: Rules, s: Chain, call: Call)
    requires Inv(rules, s) && CallOk(rules, s, call) && call.ClaimCall?
    ensures NoDuplicates(PaidOf(s, call))
  {
    hide Inv, CallOk, Recorded, PaidBy, Apply;
    ClaimPaysNewcomers(rules, s, call);
    var paid, payments := PaidOf(s, call), Payments(s, call);
    forall i, j | 0 <= i < j < |paid| ensures paid[i] != paid[j] {
      assert payments[i] != payments[j];
    }
  }

  lemma ClaimCounts(clock: Clock, s: Ceremonies.State, sender: Account, cid: Cid, named: Option<nat>,
                    verdict: Verdict, failures: set<nat>)
    requires CI.Inv(clock, s) && ClaimRewards(clock, s, sender, cid, named, verdict, failures).Ok?
    ensures var cc := CC(cid, ClaimIndex(clock));
            var t, paid := ClaimRewards(clock, s, sender, cid, named, verdict, failures).value,
                           PaidBy(clock, s, sender, cid, named, verdict, failures);
            && HallAt(t, cc).reputationCount == HallAt(s, cc).reputationCount + |paid|
            && forall i: nat :: GlobalCount(t, i) == GlobalCount(s, i) + if i == cc.cindex then |paid| else 0
  {
    hide ParticipantsOf, MeetupOf, Reward, Payees, CI.HallOk;
    var cc := CC(cid, ClaimIndex(clock));
    var h := HallAt(s, cc);
    if verdict.Judged? {
      CI.HallAtOk(clock, s, cc);
      CountBounded(clock, cc.cindex, h);
      CI.RewardEffect(h, ParticipantsOf(h, ClaimedMeetup(h, sender, named).value).value, verdict.legit, failures);
    }
  }

  lemma CountBounded(clock: Clock, i: nat, h: Hall)
    requires CI.HallOk(clock, i, h)
    ensures |h.VerifiedAccounts()| <= h.reputationCount
  {
  }

  /** A claim raises the count of its ceremony and the global count by the number of accounts it
      pays, who become verified there and were not before. */
  lemma ClaimEffect(rules: Rules, s: Chain, call: Call)
    requires Inv(rules, s) && CallOk(rules, s, call) && call.ClaimCall? && VerifiedPaid(s.cer)
    ensures CountsPaid(s, Apply(rules, s, call), CC(call.cid, ClaimIndex(s.clock)), PaidOf(s, call))
  {
    hide CI.Inv, PaidBy, ClaimRewards, MJ.ClaimVerdict, GI.Inv, VerifiedPaid;
    var cc, t, paid := CC(call.cid, ClaimIndex(s.clock)), Apply(rules, s, call), PaidOf(s, call);
    var verdict := MJ.ClaimVerdict(s.clock, s.cer, call.sender, call.cid, call.named, call.ballot);
    PaidOnce(rules, s, call);
    if ClaimRewards(s.clock, s.cer, call.sender, call.cid, call.named, verdict, call.failures).Ok? {
      NotAssigning(s, call, verdict);
      Standing.ClaimWrites(s.clock, s.cer, call.sender, call.cid, call.named, verdict, call.failures);
      ClaimCounts(s.clock, s.cer, call.sender, call.cid, call.named, verdict, call.failures);
      forall a: Account
        ensures a in HallAt(t.cer, cc).VerifiedAccounts() <==> a in HallAt(s.cer, cc).VerifiedAccounts() || a in paid
      {
        assert Standing.Paid(HallAt(s.cer, cc), HallAt(t.cer, cc), paid, a);
      }
      forall a | a in paid ensures a !in HallAt(s.cer, cc).VerifiedAccounts() {
        PayeeUnverified(rules, s, call, a);
      }
    } else {
      FailedPaysNobody(s, call, verdict);
    }
  }

  lemma NotAssigning(s: Chain, call: Call, verdict: Verdict)
    requires call.ClaimCall?
    requires ClaimRewards(s.clock, s.cer, call.sender, call.cid, call.named, verdict, call.failures).Ok?
    ensures s.clock.phase != Assigning
  {
  }

  lemma FailedPaysNobody(s: Chain, call: Call, verdict: Verdict)
    requires call.ClaimCall?
    requires ClaimRewards(s.clock, s.cer, call.sender, call.cid, call.named, verdict, call.failures).Err?
    ensures PaidBy(s.clock, s.cer, call.sender, call.cid, call.named, verdict, call.failures) == []
  {
  }

  // ---------- the other calls ----------

  // Registrations change neither the verified accounts nor any count.
  lemma RegistrationCounts(rules: Rules, s: Chain, call: Call)
    requires Inv(rules, s) && CallOk(rules, s, call)
    requires call.RegisterCall? || call.UpgradeCall? || call.UnregisterCall? || call.EndorseCall?
    ensures Standing.Steady(s.cer, Apply(rules, s, call).cer) && SameRest(s.cer, Apply(rules, s, call).cer)
  {
    hide RegisterParticipant, UpgradeRegistration, UnregisterParticipant, EndorseNewcomer, CI.HallOk, SameRest,
         Standing.Steady, Belongs, HasRoom, GI.Inv;
    var cfg, cc := rules.Config(), CC(call.cid, Target(s.clock));
    Standing.CallSteady(rules, s, call);
    SameRestReflexive(s.cer);
    if call.RegisterCall? {
      var c := CategoryFor(s.cer, cfg.reputationLifetime, cc, call.sender, call.proof.Some?);
      RegisterParticipantExactly(cfg, s.clock, s.cer, call.sender, call.cid, call.proof, call.issued, c);
    } else if call.UpgradeCall? {
      var c := CategoryFor(s.cer, cfg.reputationLifetime, cc, call.sender, true);
      UpgradeExactly(cfg, s.clock, s.cer, call.sender, call.cid, call.attendance, call.issued, c);
    } else if call.UnregisterCall? {
      UnregisterExactly(cfg, s.clock, s.cer, call.sender, call.cid, call.refund);
    } else {
      EndorseExactly(cfg, s.clock, s.cer, call.cid, call.newbie, call.hasTicket, call.issued);
    }
  }

  lemma SameRestReflexive(s: Ceremonies.State)
    ensures SameRest(s, s)
  {
  }

  // Ceremonies are left as they are, or emptied.
  ghost predicate OnlyDrops(s: Ceremonies.State, t: Ceremonies.State) {
    forall cc: CommunityCeremony :: HallAt(t, cc) == HallAt(s, cc) || HallAt(t, cc) == EMPTY_HALL
  }

  lemma DropsExact(s: Ceremonies.State, t: Ceremonies.State)
    requires CountsExact(s) && VerifiedPaid(s) && OnlyDrops(s, t)
    ensures CountsExact(t) && VerifiedPaid(t)
  {
    hide HallPaid;
    assert EMPTY_HALL.VerifiedAccounts() == {};
    NobodyVerified(EMPTY_HALL);
    forall cc: CommunityCeremony ensures HallExact(HallAt(t, cc)) && HallPaid(HallAt(t, cc)) {
      assert HallExact(HallAt(s, cc)) && HallPaid(HallAt(s, cc));
    }
  }

  lemma AssignExact(rules: Rules, s: Chain, call: Call)
    requires Inv(rules, s) && CallOk(rules, s, call) && call.PhaseChange? && s.clock.phase == Registering
    requires CountsExact(s.cer) && VerifiedPaid(s.cer)
    ensures CountsExact(Apply(rules, s, call).cer) && VerifiedPaid(Apply(rules, s, call).cer)
  {
    hide AssignSeats, SeatInputOk, PurgeInactive, CountsExact, VerifiedPaid, Governance.EnactAll, CI.Inv, GI.Inv;
    var cfg := rules.Config();
    var kept := PurgeInactive(cfg, s.clock.cindex, s.cer, call.inactives);
    SignedLinks.InactiveHalls(cfg, s.clock.cindex, s.cer, call.inactives);
    DropsExact(s.cer, kept);
    CI.PurgeKeeps(s.clock, s.cer, kept);
    AssignPaid(cfg, s.clock, kept, call.seats);
    SeatsExact(cfg, s.clock.cindex, kept, call.seats);
  }

  lemma SeatsExact(cfg: Config, cindex: nat, s: Ceremonies.State, inputs: map<Cid, SeatInput>)
    requires SeatInputsOk(cfg, s, cindex, inputs) && CountsExact(s)
    ensures CountsExact(AssignAll(cfg, s, cindex, inputs))
  {
    hide AssignSeats, SeatInputOk;
    var t := AssignAll(cfg, s, cindex, inputs);
    forall cc: CommunityCeremony ensures HallExact(HallAt(t, cc)) {
      assert HallExact(HallAt(s, cc));
      if cc.cid in s.communities && cc.cindex == cindex {
        CI.AssignOnlySeats(cfg.seating, HallAt(s, cc), SeatInputFor(inputs, cc.cid));
      }
    }
  }

  lemma OtherDrops(rules: Rules, s: Chain, call: Call)
    requires CallOk(rules, s, call)
    requires !call.RegisterCall? && !call.UpgradeCall? && !call.UnregisterCall? && !call.EndorseCall?
    requires !call.ClaimCall? && !(call.PhaseChange? && s.clock.phase == Registering)
    ensures OnlyDrops(s.cer, Apply(rules, s, call).cer)
  {
    hide Governance.SubmitProposal, Governance.CastVote, Governance.UpdateProposal, Governance.RegisterPurpose,
         Governance.CommitReputation, Governance.PurgeCommitments;
  }

  lemma SteadyExact(s: Ceremonies.State, t: Ceremonies.State)
    requires CountsExact(s) && Standing.Steady(s, t) && SameRest(s, t)
    ensures CountsExact(t)
  {
    forall cc: CommunityCeremony ensures HallExact(HallAt(t, cc)) {
      assert HallExact(HallAt(s, cc));
    }
  }

  lemma ClaimExact(rules: Rules, s: Chain, call: Call)
    requires Inv(rules, s) && CallOk(rules, s, call) && call.ClaimCall?
    requires Step(rules, s, Apply(rules, s, call)) && CountsExact(s.cer) && VerifiedPaid(s.cer)
    ensures CountsExact(Apply(rules, s, call).cer) && VerifiedPaid(Apply(rules, s, call).cer)
  {
    hide Apply, CallOk, VerifiedPaid, Inv, Step;
    var cc, t, paid := CC(call.cid, ClaimIndex(s.clock)), Apply(rules, s, call), PaidOf(s, call);
    ClaimEffect(rules, s, call);
    DistinctSize(paid, set a | a in paid);
    forall other: CommunityCeremony ensures HallExact(HallAt(t.cer, other)) {
      assert HallExact(HallAt(s.cer, other));
    }
    if t != s {
      ClaimOpen(rules, s, call);
      ClaimPaid(rules, s, call);
    }
  }

  lemma ClaimOpen(rules: Rules, s: Chain, call: Call)
    requires CallOk(rules, s, call) && call.ClaimCall? && Apply(rules, s, call) != s
    ensures s.clock.phase != Assigning
  {
    hide MJ.ClaimVerdict, IssueRewards;
  }

  lemma CallExact(rules: Rules, s: Chain, call: Call)
    requires Inv(rules, s) && CallOk(rules, s, call) && Step(rules, s, Apply(rules, s, call))
    requires CountsExact(s.cer) && VerifiedPaid(s.cer)
    ensures CountsExact(Apply(rules, s, call).cer) && VerifiedPaid(Apply(rules, s, call).cer)
  {
    hide Apply, CallOk, Inv, Step, CountsExact, VerifiedPaid;
    if call.RegisterCall? || call.UpgradeCall? || call.UnregisterCall? || call.EndorseCall? {
      RegistrationCounts(rules, s, call);
      SteadyExact(s.cer, Apply(rules, s, call).cer);
      SteadyPaid(rules, s, Apply(rules, s, call));
    } else if call.ClaimCall? {
      ClaimExact(rules, s, call);
    } else if call.PhaseChange? && s.clock.phase == Registering {
      AssignExact(rules, s, call);
    } else {
      OtherDrops(rules, s, call);
      DropsExact(s.cer, Apply(rules, s, call).cer);
    }
  }

  lemma GenesisExact(s: Chain)
    requires Genesis(s)
    ensures CountsExact(s.cer) && VerifiedPaid(s.cer)
  {
    assert EMPTY_HALL.VerifiedAccounts() == {};
  }

  /** In every state of every run the reputation count of a ceremony is the number of accounts
      verified there, all of whom were paid there. */
  lemma {:induction false} CountsInEveryState(rules: Rules, states: seq<Chain>, calls: seq<Call>, n: nat)
    requires IsRun(rules, states, calls) && n <= |calls|
    ensures CountsExact(states[n].cer) && VerifiedPaid(states[n].cer)
  {
    hide Inv, Step, Apply, CallOk, CountsExact, VerifiedPaid;
    if n == 0 {
      GenesisExact(states[0]);
    } else {
      CountsInEveryState(rules, states, calls, n - 1);
      RunKeeps(rules, states, calls, n - 1);
      assert Next(rules, states[n - 1], calls[n - 1], states[n - 1 + 1]);
      CallExact(rules, states[n - 1], calls[n - 1]);
    }
  }
}
