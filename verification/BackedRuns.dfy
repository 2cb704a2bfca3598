/**
 Over whole runs without manual or inactivity purges, and without refunds by bootstrappers who
 registered without a proof, every proof-backed registration keeps a linked attendance of its own.
 */
module BackedRuns {
  import opened Primitives
  import opened Hall
  import opened Ceremonies
  import opened Chain
  import opened Payout
  import opened ProofBacking
  import Governance
  import Standing
  import MJ = MeetupJudgement
  import CI = CeremonyInvariants
  import GI = GovernanceInvariants

  // ---------- everybody verified was paid ----------

  ghost predicate HallPaid(h: Hall) {
    forall a: Account :: a in h.VerifiedAccounts() ==> exists k :: PaidAt(h, k, a)
  }

  ghost predicate VerifiedPaid(s: Ceremonies.State) {
    forall cc: CommunityCeremony :: HallPaid(HallAt(s, cc))
  }

  lemma PaidNeedsMeetups(h: Hall, k: nat, a: Account)
    requires PaidAt(h, k, a)
    ensures h.meetups > 0
  {
    hide GroupAt;
  }

  // A payment on record stays on record while the ceremony keeps its meetups.
  lemma PaidAtStays(clock: Clock, i: nat, h: Hall, h': Hall, k: nat, a: Account)
    requires CI.HallOk(clock, i, h) && CI.HallStep(clock, i, h, h') && h'.meetups == h.meetups && PaidAt(h, k, a)
    ensures PaidAt(h', k, a)
  {
    hide ParticipantsOf, RegistriesOk, SeatsOk, CI.Past;
    PaidNeedsMeetups(h, k, a);
    ListsOfSameSeats(h, h', k);
  }

  lemma ListsOfSameSeats(h: Hall, h': Hall, k: nat)
    ensures CI.SameSeats(h, h') ==> ParticipantsOf(h', k) == ParticipantsOf(h, k)
  {
    hide ParticipantsOf;
    if CI.SameSeats(h, h') {
      SameSeatsSameLists(h, h', k);
    }
  }

  lemma SteadyHallPaid(clock: Clock, i: nat, h: Hall, h': Hall)
    requires CI.HallOk(clock, i, h) && CI.HallStep(clock, i, h, h') && h'.meetups == h.meetups
    requires HallPaid(h) && forall a :: a in h'.VerifiedAccounts() ==> a in h.VerifiedAccounts()
    ensures HallPaid(h')
  {
    hide PaidAt, CI.HallOk, CI.HallStep;
    forall a: Account | a in h'.VerifiedAccounts() ensures exists k :: PaidAt(h', k, a) {
      var k :| PaidAt(h, k, a);
      PaidAtStays(clock, i, h, h', k, a);
    }
  }

  lemma NobodyVerified(h: Hall)
    requires h.VerifiedAccounts() == {}
    ensures HallPaid(h)
  {
  }

  lemma SteadyPaid(rules: Rules, s: Chain, t: Chain)
    requires Inv(rules, s) && Step(rules, s, t) && VerifiedPaid(s.cer) && Standing.Steady(s.cer, t.cer)
    ensures VerifiedPaid(t.cer)
  {
    hide CI.HallOk, CI.HallStep, HallPaid, GI.InvExcept, GI.Evolves;
    forall cc: CommunityCeremony ensures HallPaid(HallAt(t.cer, cc)) {
      CI.HallAtOk(s.clock, s.cer, cc);
      assert CI.HallStep(s.clock, cc.cindex, HallAt(s.cer, cc), HallAt(t.cer, cc));
      SteadyHallPaid(s.clock, cc.cindex, HallAt(s.cer, cc), HallAt(t.cer, cc));
    }
  }

  // A purge leaves every ceremony as it is or empty.
  lemma PurgePaid(s: Ceremonies.State, t: Ceremonies.State)
    requires VerifiedPaid(s) && forall cc :: cc in t.halls ==> cc in s.halls && t.halls[cc] == s.halls[cc]
    ensures VerifiedPaid(t)
  {
    hide HallPaid;
    forall cc: CommunityCeremony ensures HallPaid(HallAt(t, cc)) {
      assert EMPTY_HALL.VerifiedAccounts() == {};
      NobodyVerified(EMPTY_HALL);
      assert cc in t.halls ==> HallAt(t, cc) == HallAt(s, cc);
    }
  }

  lemma AssignPaid(cfg: Config, clock: Clock, s: Ceremonies.State, inputs: map<Cid, SeatInput>)
    requires CI.Inv(clock, s) && clock.phase == Registering && VerifiedPaid(s)
    requires SeatInputsOk(cfg, s, clock.cindex, inputs)
    ensures VerifiedPaid(AssignAll(cfg, s, clock.cindex, inputs))
  {
    hide HallPaid, AssignSeats, SeatInputOk, CI.HallOk;
    var t := AssignAll(cfg, s, clock.cindex, inputs);
    forall cc: CommunityCeremony ensures HallPaid(HallAt(t, cc)) {
      if cc.cid in s.communities && cc.cindex == clock.cindex {
        CI.AssignOnlySeats(cfg.seating, HallAt(s, cc), SeatInputFor(inputs, cc.cid));
        Standing.OpenHall(clock, s, cc, 0);
        assert HallAt(t, cc) == AssignSeats(cfg.seating, HallAt(s, cc), SeatInputFor(inputs, cc.cid));
        NobodyVerified(HallAt(t, cc));
      } else {
        assert HallAt(t, cc) == HallAt(s, cc);
      }
    }
  }

  // ---------- claims ----------

  // The index of a claim is past, and not the one registrations are for.
  lemma ClaimIsPast(clock: Clock)
    requires clock.cindex >= 1 && clock.phase != Assigning
    ensures CI.Past(clock, ClaimIndex(clock)) && ClaimIndex(clock) != Target(clock)
  {
  }

  function PaidOf(s: Chain, call: Call): seq<Account>
    requires call.ClaimCall?
  {
    PaidBy(s.clock, s.cer, call.sender, call.cid, call.named,
           MJ.ClaimVerdict(s.clock, s.cer, call.sender, call.cid, call.named, call.ballot), call.failures)
  }

  lemma PayeeRecorded(rules: Rules, s: Chain, call: Call, a: Account)
    requires Inv(rules, s) && CallOk(rules, s, call) && call.ClaimCall? && a in PaidOf(s, call)
    ensures var v := Payment(a, call.cid, ClaimIndex(s.clock));
            !Recorded(s, v) && Recorded(Apply(rules, s, call), v)
  {
    hide Inv, CallOk, Apply, Recorded, PaidBy;
    ClaimPaysNewcomers(rules, s, call);
    var paid := PaidOf(s, call);
    var i :| 0 <= i < |paid| && paid[i] == a;
    assert Payments(s, call)[i] == Payment(a, call.cid, ClaimIndex(s.clock));
  }

  /** Whoever a claim pays was not verified at that ceremony before. */
  lemma PayeeUnverified(rules: Rules, s: Chain, call: Call, a: Account)
    requires Inv(rules, s) && CallOk(rules, s, call) && call.ClaimCall? && a in PaidOf(s, call)
    requires VerifiedPaid(s.cer) && s.clock.phase != Assigning
    ensures a !in HallAt(s.cer, CC(call.cid, ClaimIndex(s.clock))).VerifiedAccounts()
  {
    hide Apply, CallOk, PaidBy, PaidAt, CI.HallOk, MJ.ClaimVerdict;
    var cc := CC(call.cid, ClaimIndex(s.clock));
    PayeeRecorded(rules, s, call, a);
    ClaimIsPast(s.clock);
    assert HallPaid(HallAt(s.cer, cc));
  }

  lemma ClaimPaid(rules: Rules, s: Chain, call: Call)
    requires Inv(rules, s) && CallOk(rules, s, call) && call.ClaimCall? && VerifiedPaid(s.cer)
    requires Step(rules, s, Apply(rules, s, call)) && Apply(rules, s, call) != s && s.clock.phase != Assigning
    ensures VerifiedPaid(Apply(rules, s, call).cer)
  {
    hide CI.HallOk, CI.HallStep, HallPaid, PaidAt, PaidBy, ClaimRewards, MJ.ClaimVerdict, GI.InvExcept, GI.Evolves;
    var cc, t := CC(call.cid, ClaimIndex(s.clock)), Apply(rules, s, call);
    var verdict := MJ.ClaimVerdict(s.clock, s.cer, call.sender, call.cid, call.named, call.ballot);
    Standing.ClaimWrites(s.clock, s.cer, call.sender, call.cid, call.named, verdict, call.failures);
    ClaimIsPast(s.clock);
    forall other: CommunityCeremony ensures HallPaid(HallAt(t.cer, other)) {
      if other == cc {
        CI.HallAtOk(s.clock, s.cer, cc);
        assert CI.HallStep(s.clock, cc.cindex, HallAt(s.cer, cc), HallAt(t.cer, cc));
        ClaimedHallPaid(rules, s, call);
      }
    }
  }

  lemma ClaimedHallPaid(rules: Rules, s: Chain, call: Call)
    requires Inv(rules, s) && CallOk(rules, s, call) && call.ClaimCall? && CI.Past(s.clock, ClaimIndex(s.clock))
    requires var cc, t := CC(call.cid, ClaimIndex(s.clock)), Apply(rules, s, call);
             var h, h' := HallAt(s.cer, cc), HallAt(t.cer, cc);
             && CI.HallOk(s.clock, cc.cindex, h) && CI.HallStep(s.clock, cc.cindex, h, h')
             && h'.meetups == h.meetups && HallPaid(h)
             && forall a: Account :: Standing.Paid(h, h', PaidOf(s, call), a)
    ensures HallPaid(HallAt(Apply(rules, s, call).cer, CC(call.cid, ClaimIndex(s.clock))))
  {
    hide Apply, CallOk, CI.HallOk, CI.HallStep, PaidAt, PaidOf, Inv;
    var cc, t := CC(call.cid, ClaimIndex(s.clock)), Apply(rules, s, call);
    var h, h' := HallAt(s.cer, cc), HallAt(t.cer, cc);
    forall a: Account | a in h'.VerifiedAccounts() ensures exists k :: PaidAt(h', k, a) {
      assert Standing.Paid(h, h', PaidOf(s, call), a);
      if a in PaidOf(s, call) {
        PayeeRecorded(rules, s, call, a);
        assert h.meetups != 0;
      } else {
        assert a in h.VerifiedAccounts();
        var k :| PaidAt(h, k, a);
        PaidAtStays(s.clock, cc.cindex, h, h', k, a);
      }
    }
  }

  // ---------- reputations ----------

  // No reputation is written but verified and unlinked.
  ghost predicate FewerMarks(s: Ceremonies.State, t: Ceremonies.State) {
    forall cc: CommunityCeremony, a: Account :: a in HallAt(t, cc).reputation ==>
      || HallAt(t, cc).reputation[a] == VerifiedUnlinked
      || (a in HallAt(s, cc).reputation && HallAt(s, cc).reputation[a] == HallAt(t, cc).reputation[a])
  }

  // Links reach back no further than the reputation lifetime, and registrations with a proof are
  // for no later ceremony than the one registered for now.
  ghost predicate Tidy(lifetime: nat, clock: Clock, s: Ceremonies.State) {
    forall cc: CommunityCeremony, a: Account :: a in HallAt(s, cc).reputation ==>
      match HallAt(s, cc).reputation[a]
      case VerifiedLinked(c) => c <= cc.cindex + lifetime
      case UnverifiedReputable => cc.cindex <= Target(clock)
      case _ => true
  }

  lemma FewerStaysTidy(lifetime: nat, clock: Clock, s: Ceremonies.State, t: Ceremonies.State)
    requires Tidy(lifetime, clock, s) && FewerMarks(s, t)
    ensures Tidy(lifetime, clock, t)
  {
  }

  lemma SameIsFewer(s: Ceremonies.State, t: Ceremonies.State)
    requires SameReputations(s, t)
    ensures FewerMarks(s, t)
  {
    forall cc: CommunityCeremony, a: Account | a in HallAt(t, cc).reputation
      ensures a in HallAt(s, cc).reputation && HallAt(s, cc).reputation[a] == HallAt(t, cc).reputation[a]
    {
      assert HallAt(t, cc).reputation == HallAt(s, cc).reputation;
    }
  }

  lemma FewerTransitive(s: Ceremonies.State, t: Ceremonies.State, u: Ceremonies.State)
    requires FewerMarks(s, t) && FewerMarks(t, u)
    ensures FewerMarks(s, u)
  {
  }

  lemma ProofTidy(cfg: Config, clock: Clock, s: Ceremonies.State, sender: Account, cid: Cid,
                  proof: Option<ProofOfAttendance>, issued: bool)
    requires Tidy(cfg.reputationLifetime, clock, s)
    requires RegisterParticipant(cfg, clock, s, sender, cid, proof, issued).Ok?
    ensures Tidy(cfg.reputationLifetime, clock, RegisterParticipant(cfg, clock, s, sender, cid, proof, issued).value)
  {
    hide Register, Tidy, SetReputation;
    var cc, t := CC(cid, Target(clock)), RegisterParticipant(cfg, clock, s, sender, cid, proof, issued).value;
    match proof {
      case None =>
        RegisterSame(cfg, s, cc, sender, false, issued);
        SameIsFewer(s, t);
        FewerStaysTidy(cfg.reputationLifetime, clock, s, t);
      case Some(p) =>
        Standing.ProofFacts(cfg, clock, s, sender, cid, p, issued);
        var marked := Standing.LinkedState(s, cc, sender, p);
        LinkedTidy(cfg.reputationLifetime, clock, s, cc, sender, p);
        RegisterSame(cfg, marked, cc, sender, true, issued);
        SameIsFewer(marked, t);
        FewerStaysTidy(cfg.reputationLifetime, clock, marked, t);
    }
  }

  lemma LinkedTidy(lifetime: nat, clock: Clock, s: Ceremonies.State, cc: CommunityCeremony, sender: Account,
                   p: ProofOfAttendance)
    requires Tidy(lifetime, clock, s) && cc.cindex == Target(clock) && cc.cindex <= p.cindex + lifetime
    ensures Tidy(lifetime, clock, Standing.LinkedState(s, cc, sender, p))
  {
    hide Tidy, SetReputation;
    var from := CC(p.cid, p.cindex);
    WriteTidy(lifetime, clock, s, from, p.attendee, VerifiedLinked(cc.cindex));
    WriteTidy(lifetime, clock, SetReputation(s, from, p.attendee, VerifiedLinked(cc.cindex)), cc, sender,
              UnverifiedReputable);
  }

  lemma WriteTidy(lifetime: nat, clock: Clock, s: Ceremonies.State, cc: CommunityCeremony, a: Account, r: Reputation)
    requires Tidy(lifetime, clock, s)
    requires r.VerifiedLinked? ==> r.linkedTo <= cc.cindex + lifetime
    requires r.UnverifiedReputable? ==> cc.cindex <= Target(clock)
    ensures Tidy(lifetime, clock, SetReputation(s, cc, a, r))
  {
    var t := SetReputation(s, cc, a, r);
    forall other: CommunityCeremony, b: Account | b in HallAt(t, other).reputation
      ensures match HallAt(t, other).reputation[b]
              case VerifiedLinked(c) => c <= other.cindex + lifetime
              case UnverifiedReputable => other.cindex <= Target(clock)
              case _ => true
    {
      if other != cc || b != a {
        assert b in HallAt(s, other).reputation && HallAt(s, other).reputation[b] == HallAt(t, other).reputation[b];
      }
    }
  }

  lemma PurgeFewer(s: Ceremonies.State, t: Ceremonies.State)
    requires forall cc :: cc in t.halls ==> cc in s.halls && t.halls[cc] == s.halls[cc]
    ensures FewerMarks(s, t)
  {
  }

  lemma RefundFewer(cfg: Config, s: Ceremonies.State, sender: Account, cc: CommunityCeremony, from: CommunityCeremony)
    requires Refund(cfg, s, sender, cc, from).Ok?
    ensures FewerMarks(s, Refund(cfg, s, sender, cc, from).value)
  {
  }

  // ---------- the registrations stay backed ----------

  ghost predicate Backed(rules: Rules, s: Chain) {
    && ProofsBacked(s.cer, Target(s.clock))
    && Tidy(rules.gov.reputationLifetime, s.clock, s.cer)
    && VerifiedPaid(s.cer)
  }

  // No manual or inactivity purge, and no refund without a proof-backed registration of one's own.
  ghost predicate Allowed(s: Chain, call: Call) {
    match call
    case PurgeCall(_) => false
    case PhaseChange(inactives, _, _) => inactives == []
    case UnregisterCall(sender, cid, refund) =>
      refund.Some? ==> Mark(CC(cid, Target(s.clock)), sender) in Proven(s.cer, Target(s.clock))
    case _ => true
  }

  // What a call leaves to be shown beside the payments.
  ghost predicate ProofsTidy(lifetime: nat, clock: Clock, s: Ceremonies.State) {
    ProofsBacked(s, Target(clock)) && Tidy(lifetime, clock, s)
  }

  lemma SameProofsTidy(lifetime: nat, clock: Clock, s: Ceremonies.State, t: Ceremonies.State)
    requires ProofsTidy(lifetime, clock, s) && SameReputations(s, t)
    ensures ProofsTidy(lifetime, clock, t)
  {
    hide SameReputations, Tidy, Linked, Proven;
    SameBacking(s, t, Target(clock));
    SameIsFewer(s, t);
    FewerStaysTidy(lifetime, clock, s, t);
  }

  lemma RegisterProofsTidy(cfg: Config, clock: Clock, s: Ceremonies.State, sender: Account, cid: Cid,
                           proof: Option<ProofOfAttendance>, issued: bool)
    requires CI.Inv(clock, s) && ProofsTidy(cfg.reputationLifetime, clock, s)
    ensures var r := RegisterParticipant(cfg, clock, s, sender, cid, proof, issued);
            r.Ok? ==> ProofsTidy(cfg.reputationLifetime, clock, r.value)
  {
    hide RegisterParticipant, ProofsBacked, Tidy, CI.Inv;
    if RegisterParticipant(cfg, clock, s, sender, cid, proof, issued).Ok? {
      RegistrationKeepsBacked(cfg, clock, s, sender, cid, proof, issued);
      ProofTidy(cfg, clock, s, sender, cid, proof, issued);
    }
  }

  lemma UpgradeProofsTidy(cfg: Config, clock: Clock, s: Ceremonies.State, sender: Account, cid: Cid,
                          proof: ProofOfAttendance, issued: bool)
    requires CI.Inv(clock, s) && ProofsTidy(cfg.reputationLifetime, clock, s)
    ensures var r := UpgradeRegistration(cfg, clock, s, sender, cid, proof, issued);
            r.Ok? ==> ProofsTidy(cfg.reputationLifetime, clock, r.value)
  {
    hide RegisterParticipant, RemoveParticipant, ProofsTidy, SameReputations, CI.HallOk, CI.HallStep, CI.Step;
    var cc := CC(cid, Target(clock));
    if UpgradeRegistration(cfg, clock, s, sender, cid, proof, issued).Ok? {
      var removed := RemoveParticipant(clock, s, cc, sender).value;
      RemoveSame(clock, s, cc, sender);
      SameProofsTidy(cfg.reputationLifetime, clock, s, removed);
      CI.RemoveParticipantKeeps(clock, s, cc, sender);
      RegisterProofsTidy(cfg, clock, removed, sender, cid, Some(proof), issued);
    }
  }

  lemma UnregisterProofsTidy(cfg: Config, clock: Clock, s: Ceremonies.State, sender: Account, cid: Cid,
                             refund: Option<CommunityCeremony>)
    requires CI.Inv(clock, s) && ProofsTidy(cfg.reputationLifetime, clock, s)
    requires refund.Some? ==> Mark(CC(cid, Target(clock)), sender) in Proven(s, Target(clock))
    ensures var r := UnregisterParticipant(cfg, clock, s, sender, cid, refund);
            r.Ok? ==> ProofsTidy(cfg.reputationLifetime, clock, r.value)
  {
    hide Refund, RemoveParticipant, SameReputations, ProofsBacked, Tidy, Proven, CI.Inv;
    var cc := CC(cid, Target(clock));
    if UnregisterParticipant(cfg, clock, s, sender, cid, refund).Ok? {
      var category := HallAt(s, cc).CategoryOf(sender).value;
      var t := UnregisterParticipant(cfg, clock, s, sender, cid, refund).value;
      if (category == Reputable || category == Bootstrapper) && refund.Some? {
        var refunded := Refund(cfg, s, sender, cc, refund.value).value;
        UnregisterBackedExactly(cfg, clock, s, sender, cid, refund.value);
        RefundFewer(cfg, s, sender, cc, refund.value);
        RemoveSame(clock, refunded, cc, sender);
        SameIsFewer(refunded, t);
        FewerTransitive(s, refunded, t);
        FewerStaysTidy(cfg.reputationLifetime, clock, s, t);
      } else {
        RemoveSame(clock, s, cc, sender);
        SameProofsTidy(cfg.reputationLifetime, clock, s, t);
      }
    }
  }

  lemma ClaimProofsTidy(rules: Rules, s: Chain, call: Call)
    requires Inv(rules, s) && CallOk(rules, s, call) && call.ClaimCall? && VerifiedPaid(s.cer)
    requires Apply(rules, s, call) != s && s.clock.phase != Assigning
    requires ProofsTidy(rules.gov.reputationLifetime, s.clock, s.cer)
    ensures ProofsTidy(rules.gov.reputationLifetime, s.clock, Apply(rules, s, call).cer)
  {
    hide CI.HallOk, PaidBy, ClaimRewards, MJ.ClaimVerdict, GI.Inv, Marked, Tidy, VerifiedPaid;
    var cc, t, c := CC(call.cid, ClaimIndex(s.clock)), Apply(rules, s, call), Target(s.clock);
    var verdict := MJ.ClaimVerdict(s.clock, s.cer, call.sender, call.cid, call.named, call.ballot);
    Standing.ClaimWrites(s.clock, s.cer, call.sender, call.cid, call.named, verdict, call.failures);
    ClaimIsPast(s.clock);
    ClaimFewer(rules, s, call);
    FewerStaysTidy(rules.gov.reputationLifetime, s.clock, s.cer, t.cer);
    forall m: Mark
      ensures m in Linked(t.cer, c) <==> m in Linked(s.cer, c)
      ensures m in Proven(t.cer, c) <==> m in Proven(s.cer, c)
    {
      MarkedMembers(s.cer, VerifiedLinked(c), m);
      MarkedMembers(t.cer, VerifiedLinked(c), m);
      MarkedMembers(s.cer, UnverifiedReputable, m);
      MarkedMembers(t.cer, UnverifiedReputable, m);
      if m.cc == cc {
        assert Standing.Paid(HallAt(s.cer, cc), HallAt(t.cer, cc), PaidOf(s, call), m.account);
        if m.account in PaidOf(s, call) {
          PayeeUnverified(rules, s, call, m.account);
        }
      }
    }
    assert Linked(t.cer, c) == Linked(s.cer, c) && Proven(t.cer, c) == Proven(s.cer, c);
  }

  lemma ClaimFewer(rules: Rules, s: Chain, call: Call)
    requires CallOk(rules, s, call) && call.ClaimCall? && Apply(rules, s, call) != s
    ensures FewerMarks(s.cer, Apply(rules, s, call).cer)
  {
    hide PaidBy, ClaimRewards, MJ.ClaimVerdict;
    var verdict := MJ.ClaimVerdict(s.clock, s.cer, call.sender, call.cid, call.named, call.ballot);
    Standing.ClaimWrites(s.clock, s.cer, call.sender, call.cid, call.named, verdict, call.failures);
    var cc, t := CC(call.cid, ClaimIndex(s.clock)), Apply(rules, s, call);
    forall other: CommunityCeremony, a: Account | a in HallAt(t.cer, other).reputation
      ensures || HallAt(t.cer, other).reputation[a] == VerifiedUnlinked
              || (a in HallAt(s.cer, other).reputation &&
                  HallAt(s.cer, other).reputation[a] == HallAt(t.cer, other).reputation[a])
    {
      assert Standing.Paid(HallAt(s.cer, cc), HallAt(t.cer, cc),
                           PaidBy(s.clock, s.cer, call.sender, call.cid, call.named, verdict, call.failures), a);
    }
  }

  // ---------- phase changes ----------

  /** The expiry purge on entering the registering phase only touches an index too old to be
      linked, so it always keeps the backing. */
  lemma ExpiryKeepsBacked(rules: Rules, s: Chain)
    requires s.clock.phase == Attesting && Backed(rules, s)
    ensures Backed(rules, EnterRegistering(rules, s))
  {
    hide Marked, VerifiedPaid, FewerMarks, Tidy, Governance.PurgeCommitments;
    var t, c, lifetime := EnterRegistering(rules, s), Target(s.clock), rules.gov.reputationLifetime;
    assert Target(t.clock) == c;
    PurgePaid(s.cer, t.cer);
    PurgeFewer(s.cer, t.cer);
    FewerStaysTidy(lifetime, s.clock, s.cer, t.cer);
    forall m: Mark
      ensures m in Linked(t.cer, c) <==> m in Linked(s.cer, c)
      ensures m in Proven(t.cer, c) <==> m in Proven(s.cer, c)
    {
      MarkedMembers(s.cer, VerifiedLinked(c), m);
      MarkedMembers(t.cer, VerifiedLinked(c), m);
      MarkedMembers(s.cer, UnverifiedReputable, m);
      MarkedMembers(t.cer, UnverifiedReputable, m);
      LinkIsYoung(lifetime, s.clock, s.cer, m);
    }
    assert Linked(t.cer, c) == Linked(s.cer, c) && Proven(t.cer, c) == Proven(s.cer, c);
    Retarget(lifetime, s.clock, t.clock, t.cer);
  }

  lemma LinkIsYoung(lifetime: nat, clock: Clock, s: Ceremonies.State, m: Mark)
    requires Tidy(lifetime, clock, s)
    ensures m.account in HallAt(s, m.cc).reputation && HallAt(s, m.cc).reputation[m.account].VerifiedLinked? ==>
              HallAt(s, m.cc).reputation[m.account].linkedTo <= m.cc.cindex + lifetime
  {
  }

  lemma AssigningKeepsBacked(rules: Rules, s: Chain, seats: map<Cid, SeatInput>, succeeding: set<nat>)
    requires Inv(rules, s) && s.clock.phase == Registering && Backed(rules, s)
    requires PurgeInactive(rules.Config(), s.clock.cindex, s.cer, []) == s.cer
    requires SeatInputsOk(rules.Config(), s.cer, s.clock.cindex, seats)
    ensures Backed(rules, EnterAssigning(rules, s, [], seats, succeeding))
  {
    hide AssignSeats, SeatInputOk, ProofsBacked, Tidy, VerifiedPaid, Governance.EnactAll, CI.HallOk, GI.Inv;
    var cfg := rules.Config();
    var t := AssignAll(cfg, s.cer, s.clock.cindex, seats);
    AssignPaid(cfg, s.clock, s.cer, seats);
    forall cc: CommunityCeremony ensures HallAt(t, cc).reputation == HallAt(s.cer, cc).reputation {
      if cc.cid in s.cer.communities && cc.cindex == s.clock.cindex {
        CI.AssignOnlySeats(cfg.seating, HallAt(s.cer, cc), SeatInputFor(seats, cc.cid));
      }
    }
    SameProofsTidy(rules.gov.reputationLifetime, s.clock, s.cer, t);
    Retarget(rules.gov.reputationLifetime, s.clock, s.clock.(phase := Assigning), t);
  }

  // The same target, at another phase.
  lemma Retarget(lifetime: nat, clock: Clock, clock': Clock, s: Ceremonies.State)
    requires ProofsTidy(lifetime, clock, s) && Target(clock') == Target(clock)
    ensures ProofsTidy(lifetime, clock', s)
  {
  }

  // Nobody has registered yet for the ceremony that opens with the attesting phase.
  lemma AttestingKeepsBacked(rules: Rules, s: Chain)
    requires s.clock.phase == Assigning && Backed(rules, s)
    ensures Backed(rules, s.(clock := s.clock.(phase := Attesting)))
  {
    hide Marked, VerifiedPaid;
    var c := s.clock.cindex + 1;
    forall m: Mark ensures m !in Proven(s.cer, c) {
      MarkedMembers(s.cer, UnverifiedReputable, m);
    }
    assert Proven(s.cer, c) == {};
  }

  // ---------- one call ----------

  lemma RegistrationBacked(rules: Rules, s: Chain, call: Call)
    requires Inv(rules, s) && CallOk(rules, s, call) && Backed(rules, s) && Allowed(s, call)
    requires call.RegisterCall? || call.UpgradeCall? || call.UnregisterCall? || call.EndorseCall?
    requires Step(rules, s, Apply(rules, s, call))
    ensures Backed(rules, Apply(rules, s, call))
  {
    hide RegisterParticipant, UpgradeRegistration, UnregisterParticipant, EndorseNewcomer, VerifiedPaid, ProofsBacked,
         Tidy, SameReputations, Standing.Steady, CI.Inv, GI.Inv, Step, Proven;
    var cfg, t := rules.Config(), Apply(rules, s, call);
    Standing.CallSteady(rules, s, call);
    SteadyPaid(rules, s, t);
    if call.RegisterCall? {
      RegisterProofsTidy(cfg, s.clock, s.cer, call.sender, call.cid, call.proof, call.issued);
    } else if call.UpgradeCall? {
      UpgradeProofsTidy(cfg, s.clock, s.cer, call.sender, call.cid, call.attendance, call.issued);
    } else if call.UnregisterCall? {
      UnregisterProofsTidy(cfg, s.clock, s.cer, call.sender, call.cid, call.refund);
    } else if EndorseNewcomer(cfg, s.clock, s.cer, call.cid, call.newbie, call.hasTicket, call.issued).Ok? {
      EndorseSame(cfg, s.clock, s.cer, call.cid, call.newbie, call.hasTicket, call.issued);
      SameProofsTidy(cfg.reputationLifetime, s.clock, s.cer, t.cer);
    }
  }

  lemma ClaimBacked(rules: Rules, s: Chain, call: Call)
    requires Inv(rules, s) && CallOk(rules, s, call) && Backed(rules, s) && call.ClaimCall?
    requires Step(rules, s, Apply(rules, s, call))
    ensures Backed(rules, Apply(rules, s, call))
  {
    hide VerifiedPaid, ProofsBacked, Tidy, MJ.ClaimVerdict, CI.Inv, GI.Inv, Step;
    if Apply(rules, s, call) != s {
      ClaimPaid(rules, s, call);
      ClaimProofsTidy(rules, s, call);
    }
  }

  // The other calls leave all ceremonies and their target alone, or drop nothing.
  lemma OtherBacked(rules: Rules, s: Chain, call: Call)
    requires CallOk(rules, s, call) && Backed(rules, s) && Allowed(s, call)
    requires !call.RegisterCall? && !call.UpgradeCall? && !call.UnregisterCall? && !call.EndorseCall?
    requires !call.ClaimCall?
    requires !call.PhaseChange?
    ensures Backed(rules, Apply(rules, s, call))
  {
    hide Governance.SubmitProposal, Governance.CastVote, Governance.UpdateProposal, Governance.RegisterPurpose,
         Governance.CommitReputation, VerifiedPaid, ProofsBacked, Tidy;
    var t := Apply(rules, s, call);
    assert t.cer.halls == s.cer.halls && Target(t.clock) == Target(s.clock);
    SameHallsBacked(rules, s, t);
  }

  lemma SameHallsBacked(rules: Rules, s: Chain, t: Chain)
    requires Backed(rules, s) && t.cer.halls == s.cer.halls && Target(t.clock) == Target(s.clock)
    ensures Backed(rules, t)
  {
    hide VerifiedPaid, ProofsBacked, Tidy;
    SameProofsTidy(rules.gov.reputationLifetime, s.clock, s.cer, t.cer);
    Retarget(rules.gov.reputationLifetime, s.clock, t.clock, t.cer);
    PurgePaid(s.cer, t.cer);
  }

  lemma CallKeepsBacked(rules: Rules, s: Chain, call: Call)
    requires Inv(rules, s) && CallOk(rules, s, call) && Backed(rules, s) && Allowed(s, call)
    requires Step(rules, s, Apply(rules, s, call))
    ensures Backed(rules, Apply(rules, s, call))
  {
    hide Inv, Step, Backed, SeatInputsOk, AssignAll, Proven;
    if call.RegisterCall? || call.UpgradeCall? || call.UnregisterCall? || call.EndorseCall? {
      RegistrationBacked(rules, s, call);
    } else if call.ClaimCall? {
      ClaimBacked(rules, s, call);
    } else if call.PhaseChange? {
      match s.clock.phase {
        case Registering => AssigningKeepsBacked(rules, s, call.seats, call.succeeding);
        case Assigning => AttestingKeepsBacked(rules, s);
        case Attesting => ExpiryKeepsBacked(rules, s);
      }
    } else {
      OtherBacked(rules, s, call);
    }
  }

  lemma GenesisBacked(rules: Rules, s: Chain)
    requires Genesis(s)
    ensures Backed(rules, s)
  {
    hide Marked;
    var c := Target(s.clock);
    forall m: Mark ensures m !in Proven(s.cer, c) {
      MarkedMembers(s.cer, UnverifiedReputable, m);
    }
    assert Proven(s.cer, c) == {};
    assert EMPTY_HALL.VerifiedAccounts() == {};
  }

  /** Over every run without manual or inactivity purges and without refunds by callers who did not
      register with a proof, the proof-backed registrations for the next ceremony never outnumber
      the attendances linked to it. */
  lemma {:induction false} BackedInEveryState(rules: Rules, states: seq<Chain>, calls: seq<Call>, n: nat)
    requires IsRun(rules, states, calls) && n <= |calls|
    requires forall i :: 0 <= i < |calls| ==> Allowed(states[i], calls[i])
    ensures ProofsBacked(states[n].cer, Target(states[n].clock))
    ensures Backed(rules, states[n])
  {
    hide Inv, Step, Apply, CallOk, Allowed, ProofsBacked, Tidy, VerifiedPaid;
    if n == 0 {
      GenesisBacked(rules, states[0]);
    } else {
      BackedInEveryState(rules, states, calls, n - 1);
      RunKeeps(rules, states, calls, n - 1);
      assert Next(rules, states[n - 1], calls[n - 1], states[n - 1 + 1]);
      CallKeepsBacked(rules, states[n - 1], calls[n - 1]);
    }
  }
}
