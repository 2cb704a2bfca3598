/** An attendance is linked to a ceremony only by a call that carries the attendee's signature. */
module SignedLinks {
  import opened Primitives
  import opened Hall
  import opened Ceremonies
  import opened Chain
  import opened RegistrationGuards
  import BackedRuns
  import ProofBacking
  import Governance
  import MJ = MeetupJudgement
  import CI = CeremonyInvariants

  predicate LinkedAt(s: Chain, cc: CommunityCeremony, a: Account, c: nat) {
    HallAt(s.cer, cc).ReputationOf(a) == VerifiedLinked(c)
  }

  function ProofOf(call: Call): Option<ProofOfAttendance> {
    match call
    case RegisterCall(_, _, proof, _) => proof
    case UpgradeCall(_, _, attendance, _) => Some(attendance)
    case _ => None
  }

  // The call registers its sender for ceremony c with this attendance, signed by the attendee.
  predicate Signs(s: Chain, call: Call, cc: CommunityCeremony, a: Account, c: nat) {
    && (call.RegisterCall? || call.UpgradeCall?)
    && ProofOf(call).Some?
    && var p := ProofOf(call).value;
       && p.signatureValid && p.attendee == a && CC(p.cid, p.cindex) == cc && p.prover == call.sender
       && c == Target(s.clock)
  }

  lemma RegisterSigns(rules: Rules, s: Chain, call: Call, cc: CommunityCeremony, a: Account, c: nat)
    requires Inv(rules, s) && CallOk(rules, s, call) && (call.RegisterCall? || call.UpgradeCall?)
    requires LinkedAt(Apply(rules, s, call), cc, a, c) && !LinkedAt(s, cc, a, c)
    ensures Signs(s, call, cc, a, c)
  {
    hide RegisterParticipant, UpgradeRegistration, CI.HallOk, Joined, Moved, SameRest, UsedEndorsement,
         SameEndorsements, HasRoom, Belongs;
    var cfg, to := rules.Config(), CC(call.cid, Target(s.clock));
    var kind := CategoryFor(s.cer, cfg.reputationLifetime, to, call.sender, ProofOf(call).Some?);
    if call.RegisterCall? {
      RegisterParticipantExactly(cfg, s.clock, s.cer, call.sender, call.cid, call.proof, call.issued, kind);
    } else {
      UpgradeExactly(cfg, s.clock, s.cer, call.sender, call.cid, call.attendance, call.issued, kind);
    }
  }

  lemma {:induction false} InactiveHalls(cfg: Config, cindex: nat, s: Ceremonies.State, inactives: seq<Cid>)
    ensures var t := PurgeInactive(cfg, cindex, s, inactives);
            forall cc :: cc in t.halls ==> cc in s.halls && t.halls[cc] == s.halls[cc]
    decreases |inactives|
  {
    if inactives != [] {
      InactiveHalls(cfg, cindex, PurgeCommunity(cfg, cindex, s, inactives[0]), inactives[1..]);
    }
  }

  lemma AssigningFewer(rules: Rules, s: Chain, call: Call)
    requires CallOk(rules, s, call) && call.PhaseChange? && s.clock.phase == Registering
    ensures BackedRuns.FewerMarks(s.cer, Apply(rules, s, call).cer)
  {
    hide AssignSeats, SeatInputOk, PurgeInactive, BackedRuns.FewerMarks, Governance.EnactAll;
    var cfg := rules.Config();
    var kept, t := PurgeInactive(cfg, s.clock.cindex, s.cer, call.inactives), Apply(rules, s, call);
    InactiveHalls(cfg, s.clock.cindex, s.cer, call.inactives);
    BackedRuns.PurgeFewer(s.cer, kept);
    forall cc: CommunityCeremony ensures HallAt(t.cer, cc).reputation == HallAt(kept, cc).reputation {
      if cc.cid in kept.communities && cc.cindex == s.clock.cindex {
        CI.AssignOnlySeats(cfg.seating, HallAt(kept, cc), SeatInputFor(call.seats, cc.cid));
      }
    }
    assert ProofBacking.SameReputations(kept, t.cer);
    BackedRuns.SameIsFewer(kept, t.cer);
    BackedRuns.FewerTransitive(s.cer, kept, t.cer);
  }

  lemma RefundCallFewer(rules: Rules, s: Chain, call: Call)
    requires CallOk(rules, s, call) && call.UnregisterCall?
    ensures BackedRuns.FewerMarks(s.cer, Apply(rules, s, call).cer)
  {
    hide Refund, RemoveParticipant, ProofBacking.SameReputations, BackedRuns.FewerMarks;
    var cfg, cc := rules.Config(), CC(call.cid, Target(s.clock));
    SameFewer(s.cer);
    if UnregisterParticipant(cfg, s.clock, s.cer, call.sender, call.cid, call.refund).Ok? {
      var c := HallAt(s.cer, cc).CategoryOf(call.sender).value;
      var t := UnregisterParticipant(cfg, s.clock, s.cer, call.sender, call.cid, call.refund).value;
      if (c == Reputable || c == Bootstrapper) && call.refund.Some? {
        var refunded := Refund(cfg, s.cer, call.sender, cc, call.refund.value).value;
        BackedRuns.RefundFewer(cfg, s.cer, call.sender, cc, call.refund.value);
        ProofBacking.RemoveSame(s.clock, refunded, cc, call.sender);
        BackedRuns.SameIsFewer(refunded, t);
        BackedRuns.FewerTransitive(s.cer, refunded, t);
      } else {
        ProofBacking.RemoveSame(s.clock, s.cer, cc, call.sender);
        BackedRuns.SameIsFewer(s.cer, t);
      }
    }
  }

  lemma SameFewer(s: Ceremonies.State)
    ensures BackedRuns.FewerMarks(s, s)
  {
  }

  lemma EndorseFewer(rules: Rules, s: Chain, call: Call)
    requires CallOk(rules, s, call) && call.EndorseCall?
    ensures BackedRuns.FewerMarks(s.cer, Apply(rules, s, call).cer)
  {
    hide EndorseNewcomer, ProofBacking.SameReputations, BackedRuns.FewerMarks;
    var cfg := rules.Config();
    SameFewer(s.cer);
    if EndorseNewcomer(cfg, s.clock, s.cer, call.cid, call.newbie, call.hasTicket, call.issued).Ok? {
      ProofBacking.EndorseSame(cfg, s.clock, s.cer, call.cid, call.newbie, call.hasTicket, call.issued);
      BackedRuns.SameIsFewer(s.cer, Apply(rules, s, call).cer);
    }
  }

  // The other calls leave all ceremonies alone, or purge.
  lemma OtherFewer(rules: Rules, s: Chain, call: Call)
    requires CallOk(rules, s, call)
    requires !call.RegisterCall? && !call.UpgradeCall? && !call.UnregisterCall? && !call.EndorseCall?
    requires !call.ClaimCall? && !(call.PhaseChange? && s.clock.phase == Registering)
    ensures BackedRuns.FewerMarks(s.cer, Apply(rules, s, call).cer)
  {
    hide Governance.SubmitProposal, Governance.CastVote, Governance.UpdateProposal, Governance.RegisterPurpose,
         Governance.CommitReputation, Governance.PurgeCommitments, BackedRuns.FewerMarks;
    BackedRuns.PurgeFewer(s.cer, Apply(rules, s, call).cer);
  }

  lemma CallFewer(rules: Rules, s: Chain, call: Call)
    requires CallOk(rules, s, call) && !call.RegisterCall? && !call.UpgradeCall?
    ensures BackedRuns.FewerMarks(s.cer, Apply(rules, s, call).cer)
  {
    hide Apply, BackedRuns.FewerMarks;
    if call.UnregisterCall? {
      RefundCallFewer(rules, s, call);
    } else if call.EndorseCall? {
      EndorseFewer(rules, s, call);
    } else if call.ClaimCall? {
      SameFewer(s.cer);
      if Apply(rules, s, call) != s {
        BackedRuns.ClaimFewer(rules, s, call);
      }
    } else if call.PhaseChange? && s.clock.phase == Registering {
      AssigningFewer(rules, s, call);
    } else {
      OtherFewer(rules, s, call);
    }
  }

  /** The only calls that link an attendance carry the signature of the attendee. */
  lemma LinkNeedsSignature(rules: Rules, s: Chain, call: Call, cc: CommunityCeremony, a: Account, c: nat)
    requires Inv(rules, s) && CallOk(rules, s, call)
    requires LinkedAt(Apply(rules, s, call), cc, a, c) && !LinkedAt(s, cc, a, c)
    ensures Signs(s, call, cc, a, c)
  {
    hide Inv, CallOk, Apply;
    if call.RegisterCall? || call.UpgradeCall? {
      RegisterSigns(rules, s, call, cc, a, c);
    } else {
      CallFewer(rules, s, call);
    }
  }

  /** Over every run, whoever's attendance is linked to a ceremony has signed, while that ceremony
      was registered for, the proof of the participant registered with it. */
  lemma {:induction false} LinkedWasSigned(rules: Rules, states: seq<Chain>, calls: seq<Call>, n: nat,
                                           cc: CommunityCeremony, a: Account, c: nat) returns (m: nat)
    requires IsRun(rules, states, calls) && n <= |calls| && LinkedAt(states[n], cc, a, c)
    ensures m < n && Signs(states[m], calls[m], cc, a, c) && LinkedAt(states[m + 1], cc, a, c)
  {
    hide Inv, Step, Apply, CallOk, Signs;
    if n > 0 {
      RunKeeps(rules, states, calls, n - 1);
      assert Next(rules, states[n - 1], calls[n - 1], states[n - 1 + 1]);
      if LinkedAt(states[n - 1], cc, a, c) {
        m := LinkedWasSigned(rules, states, calls, n - 1, cc, a, c);
      } else {
        m := n - 1;
        LinkNeedsSignature(rules, states[n - 1], calls[n - 1], cc, a, c);
      }
    }
  }
}
