/**
 The ceremonies pallet: registration, endorsement, reward claims and purging, as
 functions from storage to storage. An error means the call is rolled back.
 */
module Ceremonies {
  import opened Primitives
  import opened ParticipantRegistry
  import opened Hall

  datatype Clock = Clock(now: Moment, phase: Phase, cindex: nat)

  datatype Config = Config(reputationLifetime: nat, seating: Seating)

  datatype State = State(
    communities: seq<Cid>,
    bootstrappers: map<Cid, seq<Account>>,
    halls: map<CommunityCeremony, Hall>,
    globalReputationCount: map<nat, nat>)

  datatype Error =
    | RegisteringOrAttestationPhaseRequired | InexistentCommunity | ParticipantAlreadyRegistered
    | WrongProofSubject | ProofAcausal | ProofOutdated | AttendanceUnverifiedOrAlreadyUsed
    | BootstrapperReputationIsUntransferrable | BadProofOfAttendanceSignature | RegistryOverflow
    | OnlyBootstrappers | ParticipantIsNotRegistered | MustBeNewbieToUpgradeRegistration
    | WrongPhaseForUnregistering | ReputationCommunityCeremonyRequired | ReputationMustBeLinked
    | AlreadyEndorsed | NoMoreNewbieTickets | WrongPhaseForClaimingRewards | RewardsAlreadyIssued
    | InvalidMeetupIndex | VotesNotDependableError | EarlyRewardsNotPossible
    | MeetupValidationIndexOutOfBounds | CommunityAlreadyRegistered

  // The signature check is an input: whether the attendee signed for the prover.
  datatype ProofOfAttendance = ProofOfAttendance(
    prover: Account, cindex: nat, cid: Cid, attendee: Account, signatureValid: bool)

  // The outcome of meetup validation: which of the listed participants merit the reward.
  datatype Verdict =
    | Undependable(result: MeetupResult)
    | Judged(legit: seq<nat>, early: bool)

  function HallAt(s: State, cc: CommunityCeremony): Hall {
    if cc in s.halls then s.halls[cc] else EMPTY_HALL
  }

  function Put(s: State, cc: CommunityCeremony, h: Hall): State {
    s.(halls := s.halls[cc := h])
  }

  function BootstrappersOf(s: State, cid: Cid): seq<Account> {
    if cid in s.bootstrappers then s.bootstrappers[cid] else []
  }

  // ---------- registration ----------

  // Registrations during attestation are for the following ceremony.
  function Target(clock: Clock): nat {
    if clock.phase == Attesting then clock.cindex + 1 else clock.cindex
  }

  function SetReputation(s: State, cc: CommunityCeremony, a: Account, r: Reputation): State {
    var h := HallAt(s, cc);
    Put(s, cc, h.(reputation := h.reputation[a := r]))
  }

  // The latest ceremony within the reputation lifetime at which the account was endorsed.
  function EndorsedAt(s: State, a: Account, cc: CommunityCeremony, lifetime: nat, i: nat): Option<nat>
    requires i <= lifetime + 1
    decreases lifetime + 1 - i
  {
    if i > lifetime then None
    else
      var cindex := SatSub(cc.cindex, i);
      if a in HallAt(s, CC(cc.cid, cindex)).endorsements then Some(cindex)
      else EndorsedAt(s, a, cc, lifetime, i + 1)
  }

  function RegisterAs(s: State, cc: CommunityCeremony, c: Category, a: Account): Result<State, Error> {
    var h := HallAt(s, cc);
    if h.RegistryOf(c).count >= U64_MAX then Err(RegistryOverflow)
    else Ok(Put(s, cc, h.With(c, Append(h.RegistryOf(c), a))))
  }

  function RemoveEndorsement(s: State, cc: CommunityCeremony, a: Account): State {
    var h := HallAt(s, cc);
    Put(s, cc, h.(endorsements := h.endorsements - {a}))
  }

  function Register(cfg: Config, s: State, cc: CommunityCeremony, a: Account, reputable: bool, issued: bool)
    : Result<State, Error>
  {
    if a in BootstrappersOf(s, cc.cid) then RegisterAs(s, cc, Bootstrapper, a)
    else if !issued then Err(OnlyBootstrappers)
    else if reputable then RegisterAs(s, cc, Reputable, a)
    else
      match EndorsedAt(s, a, cc, cfg.reputationLifetime, 0)
      case Some(cindex) => RegisterAs(RemoveEndorsement(s, CC(cc.cid, cindex), a), cc, Endorsee, a)
      case None => RegisterAs(s, cc, Newbie, a)
  }

  function CheckProof(cfg: Config, s: State, sender: Account, cid: Cid, target: nat, p: ProofOfAttendance)
    : Result<(), Error>
  {
    if sender != p.prover then Err(WrongProofSubject)
    else if p.cindex >= target then Err(ProofAcausal)
    else if p.cindex < SatSub(target, cfg.reputationLifetime) then Err(ProofOutdated)
    else if !HallAt(s, CC(p.cid, p.cindex)).ReputationOf(p.attendee).IsVerifiedAndUnlinkedFor(target) then
      Err(AttendanceUnverifiedOrAlreadyUsed)
    else if p.attendee in BootstrappersOf(s, cid) && p.attendee != sender then
      Err(BootstrapperReputationIsUntransferrable)
    else if !p.signatureValid then Err(BadProofOfAttendanceSignature)
    else Ok(())
  }

  function RegisterParticipant(cfg: Config, clock: Clock, s: State, sender: Account, cid: Cid,
                               proof: Option<ProofOfAttendance>, issued: bool): Result<State, Error>
  {
    var cc := CC(cid, Target(clock));
    if clock.phase == Assigning then Err(RegisteringOrAttestationPhaseRequired)
    else if cid !in s.communities then Err(InexistentCommunity)
    else if HallAt(s, cc).IsRegistered(sender) then Err(ParticipantAlreadyRegistered)
    else
      match proof
      case None => Register(cfg, s, cc, sender, false, issued)
      case Some(p) =>
        match CheckProof(cfg, s, sender, cid, cc.cindex, p)
        case Err(e) => Err(e)
        case Ok(_) =>
          var linked := SetReputation(s, CC(p.cid, p.cindex), p.attendee, VerifiedLinked(cc.cindex));
          Register(cfg, SetReputation(linked, cc, sender, UnverifiedReputable), cc, sender, true, issued)
  }

  function RemoveParticipant(clock: Clock, s: State, cc: CommunityCeremony, a: Account): Result<State, Error> {
    var h := HallAt(s, cc);
    if clock.phase != Registering then Err(WrongPhaseForUnregistering)
    else
      match h.CategoryOf(a)
      case None => Err(ParticipantIsNotRegistered)
      case Some(c) => Ok(Put(s, cc, h.With(c, SwapRemove(h.RegistryOf(c), a))))
  }

  function UpgradeRegistration(cfg: Config, clock: Clock, s: State, sender: Account, cid: Cid,
                               proof: ProofOfAttendance, issued: bool): Result<State, Error>
  {
    var cc := CC(cid, Target(clock));
    if cid !in s.communities then Err(InexistentCommunity)
    else if clock.phase == Assigning then Err(RegisteringOrAttestationPhaseRequired)
    else
      match HallAt(s, cc).CategoryOf(sender)
      case None => Err(ParticipantIsNotRegistered)
      case Some(c) =>
        if c != Newbie then Err(MustBeNewbieToUpgradeRegistration)
        else
          match RemoveParticipant(clock, s, cc, sender)
          case Err(e) => Err(e)
          case Ok(removed) => RegisterParticipant(cfg, clock, removed, sender, cid, Some(proof), issued)
  }

  function Refund(cfg: Config, s: State, sender: Account, cc: CommunityCeremony, from: CommunityCeremony)
    : Result<State, Error>
  {
    if from.cindex < SatSub(cc.cindex, cfg.reputationLifetime) then Err(ProofOutdated)
    else if HallAt(s, from).ReputationOf(sender) != VerifiedLinked(cc.cindex) then Err(ReputationMustBeLinked)
    else
      var unlinked := SetReputation(s, from, sender, VerifiedUnlinked);
      var h := HallAt(unlinked, cc);
      Ok(Put(unlinked, cc, h.(reputation := h.reputation - {sender})))
  }

  function UnregisterParticipant(cfg: Config, clock: Clock, s: State, sender: Account, cid: Cid,
                                 refund: Option<CommunityCeremony>): Result<State, Error>
  {
    var cc := CC(cid, Target(clock));
    if clock.phase == Assigning then Err(RegisteringOrAttestationPhaseRequired)
    else if cid !in s.communities then Err(InexistentCommunity)
    else
      match HallAt(s, cc).CategoryOf(sender)
      case None => Err(ParticipantIsNotRegistered)
      case Some(c) =>
        if (c == Reputable || c == Bootstrapper) && refund.Some? then
          match Refund(cfg, s, sender, cc, refund.value)
          case Err(e) => Err(e)
          case Ok(refunded) => RemoveParticipant(clock, refunded, cc, sender)
        else if c == Reputable then Err(ReputationCommunityCeremonyRequired)
        else RemoveParticipant(clock, s, cc, sender)
  }

  // Whether the endorser still has a ticket is an input.
  function EndorseNewcomer(cfg: Config, clock: Clock, s: State, cid: Cid, newbie: Account,
                           hasTicket: bool, issued: bool): Result<State, Error>
  {
    var cc := CC(cid, if clock.phase == Registering then clock.cindex else clock.cindex + 1);
    if cid !in s.communities then Err(InexistentCommunity)
    else if EndorsedAt(s, newbie, cc, cfg.reputationLifetime, 0).Some? then Err(AlreadyEndorsed)
    else if !hasTicket then Err(NoMoreNewbieTickets)
    else
      var h := HallAt(s, cc);
      var endorsed := Put(s, cc, h.(endorsements := h.endorsements + {newbie}));
      if newbie in h.newbies.index then
        match RemoveParticipant(clock, endorsed, cc, newbie)
        case Err(e) => Err(e)
        case Ok(removed) => Register(cfg, removed, cc, newbie, false, issued)
      else Ok(endorsed)
  }

  // ---------- rewards ----------

  // Pays the legit participants one by one; a failing issuance earns no reputation.
  function Reward(h: Hall, participants: seq<Account>, legit: seq<nat>, failures: set<nat>): Result<Hall, Error>
  {
    if legit == [] then Ok(h)
    else
      match Reward(h, participants, legit[..|legit| - 1], failures)
      case Err(e) => Err(e)
      case Ok(paid) =>
        var i := legit[|legit| - 1];
        if i >= |participants| then Err(MeetupValidationIndexOutOfBounds)
        else if i in failures then Ok(paid)
        else Ok(paid.(reputation := paid.reputation[participants[i] := VerifiedUnlinked],
                      reputationCount := paid.reputationCount + 1))
  }

  // The accounts that receive the nominal income in this call.
  function Payees(participants: seq<Account>, legit: seq<nat>, failures: set<nat>): seq<Account> {
    if legit == [] then []
    else
      var i := legit[|legit| - 1];
      Payees(participants, legit[..|legit| - 1], failures) +
        (if i >= |participants| || i in failures then [] else [participants[i]])
  }

  function GlobalCount(s: State, cindex: nat): nat {
    if cindex in s.globalReputationCount then s.globalReputationCount[cindex] else 0
  }

  function IssueRewards(s: State, cc: CommunityCeremony, k: nat, participants: seq<Account>,
                        legit: seq<nat>, failures: set<nat>): Result<State, Error>
  {
    match Reward(HallAt(s, cc), participants, legit, failures)
    case Err(e) => Err(e)
    case Ok(h) =>
      var paid := |Payees(participants, legit, failures)|;
      var total := GlobalCount(s, cc.cindex) + paid;
      Ok(Put(s, cc, h.(issued := h.issued[k := MeetupOk])).(
           globalReputationCount := s.globalReputationCount[cc.cindex := total]))
  }

  // Rewards are claimed for the running ceremony, or for the last one while registering.
  function ClaimIndex(clock: Clock): nat {
    if clock.phase == Registering then SatSub(clock.cindex, 1) else clock.cindex
  }

  // The meetup a claim is about: the one named by the caller, or the caller's own.
  function ClaimedMeetup(h: Hall, sender: Account, named: Option<nat>): Option<nat> {
    if named.Some? then named else MeetupOf(h, sender)
  }

  function ClaimRewards(clock: Clock, s: State, sender: Account, cid: Cid, named: Option<nat>,
                        verdict: Verdict, failures: set<nat>): Result<State, Error>
  {
    var cc := CC(cid, ClaimIndex(clock));
    var h := HallAt(s, cc);
    if clock.phase == Assigning then Err(WrongPhaseForClaimingRewards)
    else
      match ClaimedMeetup(h, sender, named)
      case None => Err(ParticipantIsNotRegistered)
      case Some(k) =>
        if k in h.issued then Err(RewardsAlreadyIssued)
        else
          match ParticipantsOf(h, k)
          case None => Err(InvalidMeetupIndex)
          case Some(participants) =>
            match verdict
            case Undependable(result) =>
              if clock.phase == Registering then Ok(Put(s, cc, h.(issued := h.issued[k := result])))
              else Err(VotesNotDependableError)
            case Judged(legit, early) =>
              if clock.phase == Attesting && !early then Err(EarlyRewardsNotPossible)
              else IssueRewards(s, cc, k, participants, legit, failures)
  }

  // The accounts a claim pays, and nobody if it fails.
  function PaidBy(clock: Clock, s: State, sender: Account, cid: Cid, named: Option<nat>,
                  verdict: Verdict, failures: set<nat>): seq<Account>
  {
    var h := HallAt(s, CC(cid, ClaimIndex(clock)));
    if ClaimRewards(clock, s, sender, cid, named, verdict, failures).Ok? && verdict.Judged? then
      Payees(ParticipantsOf(h, ClaimedMeetup(h, sender, named).value).value, verdict.legit, failures)
    else []
  }

  // ---------- purging, communities, and the phase-change hook ----------

  // Purging one community's ceremony also drops the global count of that index.
  function PurgeCeremony(s: State, cc: CommunityCeremony): State {
    s.(halls := s.halls - {cc}, globalReputationCount := s.globalReputationCount - {cc.cindex})
  }

  function PurgeRegistry(s: State, cindex: nat): State {
    if s.communities == [] then s
    else
      s.(halls := map cc | cc in s.halls && !(cc.cid in s.communities && cc.cindex == cindex) :: s.halls[cc],
         globalReputationCount := s.globalReputationCount - {cindex})
  }

  function NewCommunity(s: State, cid: Cid, bootstrappers: seq<Account>): Result<State, Error> {
    if cid in s.communities then Err(CommunityAlreadyRegistered)
    else Ok(s.(communities := s.communities + [cid], bootstrappers := s.bootstrappers[cid := bootstrappers]))
  }

  function RemoveCommunity(s: State, cid: Cid): State {
    s.(communities := Without(s.communities, cid), bootstrappers := s.bootstrappers - {cid})
  }

  // An inactive community is purged with its ceremonies of the last lifetime cycles.
  function PurgeCommunity(cfg: Config, cindex: nat, s: State, cid: Cid): State {
    var oldest := SatSub(cindex, cfg.reputationLifetime);
    RemoveCommunity(
      s.(halls := map cc | cc in s.halls && !(cc.cid == cid && oldest <= cc.cindex <= cindex) :: s.halls[cc],
         globalReputationCount := map i | i in s.globalReputationCount && !(oldest <= i <= cindex) ::
           s.globalReputationCount[i]),
      cid)
  }

  function PurgeInactive(cfg: Config, cindex: nat, s: State, inactives: seq<Cid>): State
    decreases |inactives|
  {
    if inactives == [] then s
    else PurgeInactive(cfg, cindex, PurgeCommunity(cfg, cindex, s, inactives[0]), inactives[1..])
  }

  function SeatInputFor(inputs: map<Cid, SeatInput>, cid: Cid): SeatInput {
    if cid in inputs then inputs[cid] else SeatInput(0, Draw(1, 1), Draw(1, 1), Draw(1, 1))
  }

  ghost predicate SeatInputsOk(cfg: Config, s: State, cindex: nat, inputs: map<Cid, SeatInput>) {
    forall cid :: cid in s.communities ==>
      SeatInputOk(cfg.seating, HallAt(s, CC(cid, cindex)), SeatInputFor(inputs, cid))
  }

  ghost function AssignAll(cfg: Config, s: State, cindex: nat, inputs: map<Cid, SeatInput>): State
    requires SeatInputsOk(cfg, s, cindex, inputs)
  {
    var targets := set cid | cid in s.communities :: CC(cid, cindex);
    s.(halls := map cc | cc in s.halls.Keys + targets ::
         if cc in targets
         then AssignSeats(cfg.seating, HallAt(s, cc), SeatInputFor(inputs, cc.cid))
         else s.halls[cc])
  }
}
