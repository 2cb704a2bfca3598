/**
 The runtime: a clock, the ceremonies pallet and the governance pallets, driven by calls
 and by the phase-change hooks. A failing call leaves the storage as it was.
 */
module Chain {
  import opened Primitives
  import opened Hall
  import opened Ceremonies
  import opened Governance
  import MJ = MeetupJudgement
  import CI = CeremonyInvariants
  import GI = GovernanceInvariants

  datatype Chain = Chain(clock: Clock, cer: Ceremonies.State, gov: Governance.State)

  // Reputation lifetime and phase durations are fixed for a run.
  datatype Rules = Rules(seating: Seating, gov: Parameters)
  {
    function Config(): Ceremonies.Config {
      Ceremonies.Config(gov.reputationLifetime, seating)
    }
  }

  datatype Call =
    | RegisterCall(sender: Account, cid: Cid, proof: Option<ProofOfAttendance>, issued: bool)
    | UpgradeCall(sender: Account, cid: Cid, attendance: ProofOfAttendance, issued: bool)
    | UnregisterCall(sender: Account, cid: Cid, refund: Option<CommunityCeremony>)
    | EndorseCall(cid: Cid, newbie: Account, hasTicket: bool, issued: bool)
    | ClaimCall(sender: Account, cid: Cid, named: Option<nat>, ballot: MJ.Ballot, failures: set<nat>)
    | PurgeCall(cc: CommunityCeremony)
    | NewCommunityCall(cid: Cid, bootstrappers: seq<Account>)
    | RemoveCommunityCall(cid: Cid)
    | RegisterPurposeCall(descriptor: nat)
    | CommitCall(sender: Account, cc: CommunityCeremony, purpose: nat, hash: Option<nat>)
    | SubmitCall(action: Action)
    | VoteCall(sender: Account, id: nat, vote: Vote, reputations: seq<CommunityCeremony>)
    | UpdateCall(id: nat)
    | Tick(now: Moment)
    | PhaseChange(inactives: seq<Cid>, seats: map<Cid, SeatInput>, succeeding: set<nat>)

  // What the environment guarantees: time does not run backwards, and seat assignment gets
  // usable draws.
  ghost predicate CallOk(rules: Rules, s: Chain, call: Call) {
    match call
    case Tick(now) => s.clock.now <= now
    case PhaseChange(inactives, seats, _) =>
      s.clock.phase == Registering ==>
        SeatInputsOk(rules.Config(), PurgeInactive(rules.Config(), s.clock.cindex, s.cer, inactives),
                     s.clock.cindex, seats)
    case _ => true
  }

  function WithCer<E>(s: Chain, r: Result<Ceremonies.State, E>): Chain {
    if r.Ok? then s.(cer := r.value) else s
  }

  function WithGov<E>(s: Chain, r: Result<Governance.State, E>): Chain {
    if r.Ok? then s.(gov := r.value) else s
  }

  function Recommitted<E>(s: Chain, r: Result<CommitmentRegistry, E>): Chain {
    if r.Ok? then s.(gov := s.gov.(commitments := r.value)) else s
  }

  // Entering the registering phase of ceremony c purges ceremony c - lifetime - 1.
  function EnterRegistering(rules: Rules, s: Chain): Chain {
    var c := s.clock.cindex + 1;
    var t := s.(clock := s.clock.(phase := Registering, cindex := c));
    var lifetime := rules.gov.reputationLifetime;
    if c <= lifetime then t
    else
      var expired := c - lifetime - 1;
      t.(cer := PurgeRegistry(s.cer, expired),
         gov := s.gov.(commitments := PurgeCommitments(s.gov.commitments, s.cer.communities, expired)))
  }

  // Entering the assigning phase purges inactive communities, assigns seats and enacts.
  ghost function EnterAssigning(rules: Rules, s: Chain, inactives: seq<Cid>, seats: map<Cid, SeatInput>,
                                succeeding: set<nat>): Chain
    requires SeatInputsOk(rules.Config(), PurgeInactive(rules.Config(), s.clock.cindex, s.cer, inactives),
                          s.clock.cindex, seats)
  {
    var kept := PurgeInactive(rules.Config(), s.clock.cindex, s.cer, inactives);
    Chain(s.clock.(phase := Assigning),
          AssignAll(rules.Config(), kept, s.clock.cindex, seats),
          EnactAll(s.gov, succeeding))
  }

  ghost function Apply(rules: Rules, s: Chain, call: Call): Chain
    requires CallOk(rules, s, call)
  {
    match call
    case RegisterCall(sender, cid, proof, issued) =>
      WithCer(s, RegisterParticipant(rules.Config(), s.clock, s.cer, sender, cid, proof, issued))
    case UpgradeCall(sender, cid, proof, issued) =>
      WithCer(s, UpgradeRegistration(rules.Config(), s.clock, s.cer, sender, cid, proof, issued))
    case UnregisterCall(sender, cid, refund) =>
      WithCer(s, UnregisterParticipant(rules.Config(), s.clock, s.cer, sender, cid, refund))
    case EndorseCall(cid, newbie, hasTicket, issued) =>
      WithCer(s, EndorseNewcomer(rules.Config(), s.clock, s.cer, cid, newbie, hasTicket, issued))
    case ClaimCall(sender, cid, named, ballot, failures) =>
      var verdict := MJ.ClaimVerdict(s.clock, s.cer, sender, cid, named, ballot);
      WithCer(s, ClaimRewards(s.clock, s.cer, sender, cid, named, verdict, failures))
    case PurgeCall(cc) => s.(cer := PurgeCeremony(s.cer, cc))
    case NewCommunityCall(cid, bootstrappers) => WithCer(s, NewCommunity(s.cer, cid, bootstrappers))
    case RemoveCommunityCall(cid) => s.(cer := RemoveCommunity(s.cer, cid))
    case RegisterPurposeCall(descriptor) =>
      var r := RegisterPurpose(s.gov.commitments, descriptor);
      if r.Ok? then s.(gov := s.gov.(commitments := r.value.0)) else s
    case CommitCall(sender, cc, purpose, hash) =>
      Recommitted(s, CommitReputation(s.cer, s.gov.commitments, sender, cc, purpose, hash))
    case SubmitCall(action) => WithGov(s, SubmitProposal(rules.gov, s.clock, s.cer, s.gov, action))
    case VoteCall(sender, id, vote, reputations) =>
      WithGov(s, CastVote(rules.gov, s.clock, s.cer, s.gov, sender, id, vote, reputations))
    case UpdateCall(id) => WithGov(s, UpdateProposal(rules.gov, s.clock.now, s.gov, id))
    case Tick(now) => s.(clock := s.clock.(now := now))
    case PhaseChange(inactives, seats, succeeding) =>
      match s.clock.phase
      case Registering => EnterAssigning(rules, s, inactives, seats, succeeding)
      case Assigning => s.(clock := s.clock.(phase := Attesting))
      case Attesting => EnterRegistering(rules, s)
  }

  // ---------- runs ----------

  ghost predicate Genesis(s: Chain) {
    && s.clock.cindex >= 1
    && s.cer.halls == map[] && s.cer.globalReputationCount == map[]
    && s.gov.commitments.commitments == map[]
    && (forall p :: p in s.gov.commitments.purposes ==> p < s.gov.commitments.next)
    && s.gov.proposals == map[] && s.gov.tallies == map[] && s.gov.purposeIds == map[]
    && s.gov.lastApproved == map[] && s.gov.queue == map[]
  }

  ghost predicate IsRun(rules: Rules, states: seq<Chain>, calls: seq<Call>) {
    && |states| == |calls| + 1
    && Genesis(states[0])
    && GI.EmptyFails(rules.gov)
    && forall i :: 0 <= i < |calls| ==> Next(rules, states[i], calls[i], states[i + 1])
  }

  ghost predicate Next(rules: Rules, s: Chain, call: Call, t: Chain) {
    CallOk(rules, s, call) && t == Apply(rules, s, call)
  }

  ghost predicate Inv(rules: Rules, s: Chain) {
    CI.Inv(s.clock, s.cer) && GI.Inv(rules.gov, s.clock, s.gov)
  }

  // What any call may do to a chain in good order.
  ghost predicate Step(rules: Rules, s: Chain, t: Chain) {
    && s.gov.tallies.Keys == s.gov.proposals.Keys
    && CI.Step(s.clock, s.cer, t.cer)
    && GI.Evolves(rules.gov, s.clock.now, s.gov, t.gov)
    && (t.gov != s.gov ==> t.clock.now == s.clock.now)
    && s.clock.now <= t.clock.now && s.clock.cindex <= t.clock.cindex
    && (forall i :: CI.Past(s.clock, i) ==> CI.Past(t.clock, i))
  }

  lemma NothingChanged(rules: Rules, s: Chain)
    requires Inv(rules, s)
    ensures Step(rules, s, s)
  {
    CI.PurgeKeeps(s.clock, s.cer, s.cer);
    GI.InvKeys(rules.gov, s.clock, s.gov);
    GI.KeySets(s.gov);
    GI.EvolvesReflexive(rules.gov, s.clock.now, s.gov);
  }

  lemma CerOnly(rules: Rules, s: Chain, cer: Ceremonies.State)
    requires Inv(rules, s) && CI.Keeps(s.clock, s.cer, cer)
    ensures Inv(rules, s.(cer := cer)) && Step(rules, s, s.(cer := cer))
  {
    NothingChanged(rules, s);
  }

  lemma GovOnly(rules: Rules, s: Chain, gov: Governance.State)
    requires Inv(rules, s) && GI.Inv(rules.gov, s.clock, gov)
    requires s.gov.tallies.Keys == s.gov.proposals.Keys && GI.Evolves(rules.gov, s.clock.now, s.gov, gov)
    ensures Inv(rules, s.(gov := gov)) && Step(rules, s, s.(gov := gov))
  {
    NothingChanged(rules, s);
  }

  lemma CerCallKeeps(rules: Rules, s: Chain, call: Call)
    requires Inv(rules, s) && CallOk(rules, s, call)
    requires call.RegisterCall? || call.UpgradeCall? || call.UnregisterCall? || call.EndorseCall? ||
             call.ClaimCall? || call.PurgeCall? || call.NewCommunityCall? || call.RemoveCommunityCall?
    ensures Inv(rules, Apply(rules, s, call)) && Step(rules, s, Apply(rules, s, call))
  {
    hide *;
    var cfg := rules.Config();
    var t := Apply(rules, s, call);
    KeepsOrNot(rules, s, call);
    if CI.Keeps(s.clock, s.cer, t.cer) {
      CerOnly(rules, s, t.cer);
    } else {
      NothingChanged(rules, s);
    }
  }

  lemma KeepsOrNot(rules: Rules, s: Chain, call: Call)
    requires Inv(rules, s) && CallOk(rules, s, call)
    requires call.RegisterCall? || call.UpgradeCall? || call.UnregisterCall? || call.EndorseCall? ||
             call.ClaimCall? || call.PurgeCall? || call.NewCommunityCall? || call.RemoveCommunityCall?
    ensures var t := Apply(rules, s, call);
            t == s.(cer := t.cer) && (CI.Keeps(s.clock, s.cer, t.cer) || t == s)
  {
    hide CI.Keeps, CI.Inv, GI.Inv, RegisterParticipant, UpgradeRegistration, UnregisterParticipant,
         EndorseNewcomer, ClaimRewards, MJ.ClaimVerdict;
    var cfg := rules.Config();
    match call {
      case RegisterCall(sender, cid, proof, issued) =>
        CI.RegisterParticipantKeeps(cfg, s.clock, s.cer, sender, cid, proof, issued);
      case UpgradeCall(sender, cid, proof, issued) =>
        CI.UpgradeKeeps(cfg, s.clock, s.cer, sender, cid, proof, issued);
      case UnregisterCall(sender, cid, refund) =>
        CI.UnregisterKeeps(cfg, s.clock, s.cer, sender, cid, refund);
      case EndorseCall(cid, newbie, hasTicket, issued) =>
        CI.EndorseKeeps(cfg, s.clock, s.cer, cid, newbie, hasTicket, issued);
      case ClaimCall(sender, cid, named, ballot, failures) =>
        var verdict := MJ.ClaimVerdict(s.clock, s.cer, sender, cid, named, ballot);
        MJ.ClaimVerdictDistinct(s.clock, s.cer, sender, cid, named, ballot);
        CI.ClaimKeeps(s.clock, s.cer, sender, cid, named, verdict, failures);
      case PurgeCall(cc) => CI.PurgeKeeps(s.clock, s.cer, PurgeCeremony(s.cer, cc));
      case NewCommunityCall(cid, bootstrappers) =>
        var r := NewCommunity(s.cer, cid, bootstrappers);
        if r.Ok? { CI.PurgeKeeps(s.clock, s.cer, r.value); }
      case RemoveCommunityCall(cid) => CI.PurgeKeeps(s.clock, s.cer, RemoveCommunity(s.cer, cid));
    }
  }

  lemma GovCallKeeps(rules: Rules, s: Chain, call: Call)
    requires Inv(rules, s) && CallOk(rules, s, call) && GI.EmptyFails(rules.gov)
    requires call.RegisterPurposeCall? || call.CommitCall? || call.SubmitCall? || call.VoteCall? || call.UpdateCall?
    ensures var t := Apply(rules, s, call);
            && t == s.(gov := t.gov) && GI.Inv(rules.gov, s.clock, t.gov)
            && s.gov.tallies.Keys == s.gov.proposals.Keys && GI.Evolves(rules.gov, s.clock.now, s.gov, t.gov)
  {
    hide CI.Inv, GI.InvExcept, GI.Evolves, SubmitProposal, CastVote, UpdateProposal;
    GI.InvKeys(rules.gov, s.clock, s.gov);
    GI.KeySets(s.gov);
    GI.EvolvesReflexive(rules.gov, s.clock.now, s.gov);
    match call {
      case RegisterPurposeCall(descriptor) =>
        var r := RegisterPurpose(s.gov.commitments, descriptor);
        if r.Ok? { GI.OtherCommitmentsKeep(rules.gov, s.clock, s.gov, r.value.0); }
      case CommitCall(sender, cc, purpose, hash) =>
        var r := CommitReputation(s.cer, s.gov.commitments, sender, cc, purpose, hash);
        if r.Ok? { GI.OtherCommitmentsKeep(rules.gov, s.clock, s.gov, r.value); }
      case SubmitCall(action) =>
        assert s.clock.cindex >= 1 by { CindexPositive(s); }
        GI.SubmitKeeps(rules.gov, s.clock, s.cer, s.gov, action);
      case VoteCall(sender, id, vote, reputations) =>
        GI.VoteKeeps(rules.gov, s.clock, s.cer, s.gov, sender, id, vote, reputations);
      case UpdateCall(id) =>
        GI.InvWeakens(rules.gov, s.clock, s.gov, id);
        GI.UpdateKeeps(rules.gov, s.clock, s.gov, id);
    }
  }

  lemma CindexPositive(s: Chain)
    requires CI.Inv(s.clock, s.cer)
    ensures s.clock.cindex >= 1
  {
  }

  lemma EnterAssigningKeeps(rules: Rules, s: Chain, inactives: seq<Cid>, seats: map<Cid, SeatInput>,
                            succeeding: set<nat>)
    requires Inv(rules, s) && s.clock.phase == Registering
    requires SeatInputsOk(rules.Config(), PurgeInactive(rules.Config(), s.clock.cindex, s.cer, inactives),
                          s.clock.cindex, seats)
    ensures var t := EnterAssigning(rules, s, inactives, seats, succeeding);
            Inv(rules, t) && Step(rules, s, t)
  {
    hide CI.HallOk, CI.HallStep, CI.Step, GI.InvExcept, GI.Evolves, AssignAll, PurgeInactive, SeatInputsOk, EnactAll;
    var cfg := rules.Config();
    var kept := PurgeInactive(cfg, s.clock.cindex, s.cer, inactives);
    CI.PurgeInactiveKeeps(cfg, s.clock, s.cer, inactives);
    CI.AssignKeeps(cfg, s.clock, kept, seats);
    CI.StepTransitive(s.clock, s.cer, kept, AssignAll(cfg, kept, s.clock.cindex, seats));
    GI.EnactKeeps(rules.gov, s.clock, s.gov, succeeding);
    GI.TimeKeeps(rules.gov, s.clock, s.clock.(phase := Assigning), EnactAll(s.gov, succeeding));
    GI.InvKeys(rules.gov, s.clock, s.gov);
    GI.KeySets(s.gov);
  }

  lemma EnterRegisteringKeeps(rules: Rules, s: Chain)
    requires Inv(rules, s) && s.clock.phase == Attesting
    ensures Inv(rules, EnterRegistering(rules, s)) && Step(rules, s, EnterRegistering(rules, s))
  {
    hide CI.HallOk, CI.HallStep, GI.InvExcept, GI.Evolves;
    var t := EnterRegistering(rules, s);
    CI.PurgeKeeps(s.clock, s.cer, t.cer);
    MoveCeremonies(s.clock, t.clock, t.cer);
    GI.OtherCommitmentsKeep(rules.gov, s.clock, s.gov, t.gov.commitments);
    assert t.gov == s.gov.(commitments := t.gov.commitments);
    GI.TimeKeeps(rules.gov, s.clock, t.clock, t.gov);
    GI.InvKeys(rules.gov, s.clock, s.gov);
    GI.KeySets(s.gov);
  }

  lemma MoveCeremonies(clock: Clock, clock': Clock, cer: Ceremonies.State)
    requires CI.Inv(clock, cer) && clock.cindex <= clock'.cindex
    requires forall i :: CI.Past(clock, i) ==> CI.Past(clock', i)
    ensures CI.Inv(clock', cer)
  {
    hide CI.HallOk;
    forall cc | cc in cer.halls ensures CI.HallOk(clock', cc.cindex, cer.halls[cc]) {
      CI.HallOkMoves(clock, clock', cc.cindex, cer.halls[cc]);
    }
  }

  lemma ClockOnly(rules: Rules, s: Chain, clock: Clock)
    requires Inv(rules, s) && s.clock.now <= clock.now && s.clock.cindex <= clock.cindex
    requires forall i :: CI.Past(s.clock, i) ==> CI.Past(clock, i)
    ensures Inv(rules, s.(clock := clock)) && Step(rules, s, s.(clock := clock))
  {
    hide CI.HallOk, CI.HallStep, CI.Step, GI.InvExcept, GI.Evolves;
    NothingChanged(rules, s);
    MoveCeremonies(s.clock, clock, s.cer);
    GI.TimeKeeps(rules.gov, s.clock, clock, s.gov);
  }

  /** Every call and every hook keeps the invariants of all three pallets. */
  lemma ApplyKeeps(rules: Rules, s: Chain, call: Call)
    requires Inv(rules, s) && CallOk(rules, s, call) && GI.EmptyFails(rules.gov)
    ensures Inv(rules, Apply(rules, s, call)) && Step(rules, s, Apply(rules, s, call))
  {
    hide CI.Inv, CI.Step, GI.InvExcept, GI.Evolves, Step, Inv, AssignAll, PurgeInactive, SeatInputsOk;
    if call.Tick? {
      ClockOnly(rules, s, s.clock.(now := call.now));
    } else if call.PhaseChange? {
      match s.clock.phase {
        case Registering => EnterAssigningKeeps(rules, s, call.inactives, call.seats, call.succeeding);
        case Assigning => ClockOnly(rules, s, s.clock.(phase := Attesting));
        case Attesting => EnterRegisteringKeeps(rules, s);
      }
    } else if call.RegisterPurposeCall? || call.CommitCall? || call.SubmitCall? || call.VoteCall? || call.UpdateCall? {
      GovCallKeeps(rules, s, call);
      GovOnly(rules, s, Apply(rules, s, call).gov);
    } else {
      CerCallKeeps(rules, s, call);
    }
  }

  lemma GenesisInv(rules: Rules, s: Chain)
    requires Genesis(s)
    ensures Inv(rules, s)
  {
  }

  /** All invariants hold in every reachable state. */
  lemma {:induction false} RunKeeps(rules: Rules, states: seq<Chain>, calls: seq<Call>, n: nat)
    requires IsRun(rules, states, calls) && n <= |calls|
    ensures Inv(rules, states[n])
    ensures n < |calls| ==> Step(rules, states[n], states[n + 1])
  {
    hide CI.Inv, GI.InvExcept, Step, Apply, CallOk;
    if n == 0 {
      GenesisInv(rules, states[0]);
    } else {
      RunKeeps(rules, states, calls, n - 1);
      assert Next(rules, states[n - 1], calls[n - 1], states[n - 1 + 1]);
      ApplyKeeps(rules, states[n - 1], calls[n - 1]);
    }
    if n < |calls| {
      assert Next(rules, states[n], calls[n], states[n + 1]);
      ApplyKeeps(rules, states[n], calls[n]);
    }
  }
}
