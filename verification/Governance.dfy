/**
 The reputation-commitments and democracy pallets as functions on their storage. The
 adaptive-quorum rule and the effect of an enacted action are parameters.
 */
module Governance {
  import opened Primitives
  import opened Hall
  import opened Ceremonies

  // ---------- proposals ----------

  datatype Action =
    | AddLocation(cid: Cid, arg: nat)
    | RemoveLocation(cid: Cid, arg: nat)
    | UpdateCommunityMetadata(cid: Cid, arg: nat)
    | UpdateDemurrage(cid: Cid, arg: nat)
    | UpdateNominalIncome(cid: Cid, arg: nat)
    | SetInactivityTimeout(arg: nat)
    | Petition(scope: Option<Cid>, arg: nat)
    | SpendNative(scope: Option<Cid>, arg: nat)
    | IssueSwapNativeOption(cid: Cid, arg: nat)
    | SpendAsset(scope: Option<Cid>, arg: nat)
    | IssueSwapAssetOption(cid: Cid, arg: nat)
  {
    // The community whose members vote, or none for a global proposal.
    function Electors(): Option<Cid> {
      match this
      case SetInactivityTimeout(_) => None
      case Petition(scope, _) => scope
      case SpendNative(scope, _) => scope
      case SpendAsset(scope, _) => scope
      case AddLocation(cid, _) => Some(cid)
      case RemoveLocation(cid, _) => Some(cid)
      case UpdateCommunityMetadata(cid, _) => Some(cid)
      case UpdateDemurrage(cid, _) => Some(cid)
      case UpdateNominalIncome(cid, _) => Some(cid)
      case IssueSwapNativeOption(cid, _) => Some(cid)
      case IssueSwapAssetOption(cid, _) => Some(cid)
    }

    function Identifier(): ActionIdentifier {
      match this
      case AddLocation(cid, _) => ActionIdentifier(KindAddLocation, Some(cid))
      case RemoveLocation(cid, _) => ActionIdentifier(KindRemoveLocation, Some(cid))
      case UpdateCommunityMetadata(cid, _) => ActionIdentifier(KindMetadata, Some(cid))
      case UpdateDemurrage(cid, _) => ActionIdentifier(KindDemurrage, Some(cid))
      case UpdateNominalIncome(cid, _) => ActionIdentifier(KindNominalIncome, Some(cid))
      case SetInactivityTimeout(_) => ActionIdentifier(KindInactivityTimeout, None)
      case Petition(scope, _) => ActionIdentifier(KindPetition, scope)
      case SpendNative(scope, _) => ActionIdentifier(KindSpendNative, scope)
      case IssueSwapNativeOption(cid, _) => ActionIdentifier(KindSwapNative, Some(cid))
      case SpendAsset(scope, _) => ActionIdentifier(KindSpendAsset, scope)
      case IssueSwapAssetOption(cid, _) => ActionIdentifier(KindSwapAsset, Some(cid))
    }

    predicate Supersedes() {
      AddLocation? || RemoveLocation? || UpdateCommunityMetadata? || UpdateDemurrage? ||
      UpdateNominalIncome? || SetInactivityTimeout?
    }
  }

  datatype Kind =
    | KindAddLocation | KindRemoveLocation | KindMetadata | KindDemurrage | KindNominalIncome
    | KindInactivityTimeout | KindPetition | KindSpendNative | KindSwapNative | KindSpendAsset | KindSwapAsset

  datatype ActionIdentifier = ActionIdentifier(kind: Kind, scope: Option<Cid>)

  datatype ProposalState =
    | Ongoing
    | Confirming(since: Moment)
    | Approved
    | SupersededBy(id: nat)
    | Rejected
    | Enacted
  {
    predicate CanUpdate() {
      Confirming? || Ongoing?
    }
  }

  datatype Proposal = Proposal(
    start: Moment, startCindex: nat, action: Action, state: ProposalState, electorate: nat)

  datatype Tally = Tally(turnout: nat, ayes: nat)

  datatype Vote = Aye | Nay

  // Commitments: one attendance spent on one purpose.
  datatype Commitment = Commitment(cid: Cid, cindex: nat, purpose: nat, account: Account)

  datatype CommitmentRegistry = CommitmentRegistry(
    next: nat, purposes: map<nat, nat>, commitments: map<Commitment, Option<nat>>)

  datatype State = State(
    commitments: CommitmentRegistry,
    proposals: map<nat, Proposal>,
    tallies: map<nat, Tally>,
    purposeIds: map<nat, nat>,
    proposalCount: nat,
    lastApproved: map<ActionIdentifier, (Moment, nat)>,
    queue: map<ActionIdentifier, seq<nat>>)

  datatype Parameters = Parameters(
    reputationLifetime: nat, confirmationPeriod: nat, proposalLifetime: nat, minTurnout: nat,
    cycleDuration: nat, bias: (nat, nat, nat) -> Option<bool>)

  datatype Error =
    | ProposalIdOutOfBounds | InexistentProposal | VoteCountOverflow | ProposalCannotBeUpdated | AQBError
    | ProposalWaitingForEnactment | MathError | PurposeRegistryOverflow
    | InexistentPurpose | NoReputation | AlreadyCommitted

  const QUEUE_MAX: nat := 128

  // ---------- reputation commitments ----------

  function RegisterPurpose(r: CommitmentRegistry, descriptor: nat): Result<(CommitmentRegistry, nat), Error> {
    if r.next >= U64_MAX then Err(PurposeRegistryOverflow)
    else Ok((r.(next := r.next + 1, purposes := r.purposes[r.next := descriptor]), r.next))
  }

  predicate HasAttended(c: Ceremonies.State, a: Account, cc: CommunityCeremony) {
    HallAt(c, cc).ReputationOf(a).IsVerified()
  }

  function CommitReputation(c: Ceremonies.State, r: CommitmentRegistry, a: Account, cc: CommunityCeremony,
                            purpose: nat, hash: Option<nat>): Result<CommitmentRegistry, Error>
  {
    var key := Commitment(cc.cid, cc.cindex, purpose, a);
    if purpose !in r.purposes then Err(InexistentPurpose)
    else if !HasAttended(c, a, cc) then Err(NoReputation)
    else if key in r.commitments then Err(AlreadyCommitted)
    else Ok(r.(commitments := r.commitments[key := hash]))
  }

  function PurgeCommitments(r: CommitmentRegistry, communities: seq<Cid>, cindex: nat): CommitmentRegistry {
    r.(commitments := map k | k in r.commitments && !(k.cid in communities && k.cindex == cindex) ::
         r.commitments[k])
  }

  // ---------- electorate ----------

  function LifetimeCycles(p: Parameters): Result<nat, Error> {
    if p.cycleDuration == 0 || p.proposalLifetime + p.cycleDuration > U64_MAX then Err(MathError)
    else
      Ok(Min((p.proposalLifetime + p.cycleDuration - 1) / p.cycleDuration, U32_MAX))
  }

  // The first and the last ceremony index whose attendances may vote.
  function VotingFrom(p: Parameters, start: nat, cycles: nat): nat {
    SatSub(start, p.reputationLifetime) + cycles
  }

  function VotingTo(start: nat): nat {
    SatSub(start, 2)
  }

  predicate MayVote(p: Parameters, start: nat, cindex: nat) {
    LifetimeCycles(p).Ok? && VotingFrom(p, start, LifetimeCycles(p).value) <= cindex <= VotingTo(start)
  }

  function CountAt(c: Ceremonies.State, electors: Option<Cid>, i: nat): nat {
    match electors
    case Some(cid) => HallAt(c, CC(cid, i)).reputationCount
    case None => GlobalCount(c, i)
  }

  function SumCounts(c: Ceremonies.State, electors: Option<Cid>, lo: nat, hi: nat): nat
    decreases hi + 1 - lo
  {
    if lo > hi then 0 else CountAt(c, electors, lo) + SumCounts(c, electors, lo + 1, hi)
  }

  function Electorate(p: Parameters, c: Ceremonies.State, start: nat, action: Action): Result<nat, Error> {
    match LifetimeCycles(p)
    case Err(e) => Err(e)
    case Ok(cycles) => Ok(SumCounts(c, action.Electors(), VotingFrom(p, start, cycles), VotingTo(start)))
  }

  // ---------- state updates ----------

  function TallyPasses(p: Parameters, electorate: nat, tally: Tally): Result<bool, Error> {
    var perThousand := if electorate == 0 then 0 else tally.turnout * 1000 / electorate;
    if perThousand < p.minTurnout then Ok(false)
    else
      match p.bias(electorate, tally.turnout, tally.ayes)
      case None => Err(AQBError)
      case Some(b) => Ok(b)
  }

  predicate TooOld(p: Parameters, now: Moment, proposal: Proposal) {
    now > proposal.start + p.proposalLifetime
  }

  // The state a proposal moves to when it is looked at.
  function NextState(p: Parameters, now: Moment, proposal: Proposal, tally: Option<Tally>, last: Option<(Moment, nat)>)
    : Result<ProposalState, Error>
  {
    if proposal.action.Supersedes() && last.Some? && proposal.start < last.value.0 then
      Ok(SupersededBy(last.value.1))
    else if tally.None? then Err(InexistentProposal)
    else
      match TallyPasses(p, proposal.electorate, tally.value)
      case Err(e) => Err(e)
      case Ok(true) =>
        if proposal.state.Confirming? then
          Ok(if SatSub(now, proposal.state.since) > p.confirmationPeriod then Approved else proposal.state)
        else if TooOld(p, now, proposal) then Ok(Rejected)
        else Ok(Confirming(now))
      case Ok(false) =>
        if TooOld(p, now, proposal) then Ok(Rejected)
        else if proposal.state.Confirming? then Ok(Ongoing)
        else Ok(proposal.state)
  }

  function TallyOf(s: State, id: nat): Option<Tally> {
    if id in s.tallies then Some(s.tallies[id]) else None
  }

  function LastApproved(s: State, k: ActionIdentifier): Option<(Moment, nat)> {
    if k in s.lastApproved then Some(s.lastApproved[k]) else None
  }

  // An overfull queue drops the id; the proposal is approved all the same.
  function Enqueue(queue: map<ActionIdentifier, seq<nat>>, k: ActionIdentifier, id: nat)
    : map<ActionIdentifier, seq<nat>>
  {
    var ids := if k in queue then queue[k] else [];
    if |ids| >= QUEUE_MAX then queue else queue[k := ids + [id]]
  }

  function SetState(s: State, id: nat, st: ProposalState): State
    requires id in s.proposals
  {
    s.(proposals := s.proposals[id := s.proposals[id].(state := st)])
  }

  function UpdateProposal(p: Parameters, now: Moment, s: State, id: nat): Result<State, Error> {
    if id !in s.proposals then Err(InexistentProposal)
    else if !s.proposals[id].state.CanUpdate() then Err(ProposalCannotBeUpdated)
    else
      var proposal := s.proposals[id];
      var k := proposal.action.Identifier();
      match NextState(p, now, proposal, TallyOf(s, id), LastApproved(s, k))
      case Err(e) => Err(e)
      case Ok(st) =>
        var t := SetState(s, id, st);
        if st.Approved? then
          Ok(t.(queue := Enqueue(s.queue, k, id), lastApproved := s.lastApproved[k := (now, id)]))
        else Ok(t)
  }

  function SubmitProposal(p: Parameters, clock: Clock, c: Ceremonies.State, s: State, action: Action)
    : Result<State, Error>
  {
    var id := s.proposalCount + 1;
    if action.Identifier() in s.queue then Err(ProposalWaitingForEnactment)
    else if id > U128_MAX then Err(ProposalIdOutOfBounds)
    else
      match Electorate(p, c, clock.cindex, action)
      case Err(e) => Err(e)
      case Ok(electorate) =>
        match RegisterPurpose(s.commitments, id)
        case Err(e) => Err(e)
        case Ok((registry, purpose)) =>
          Ok(s.(commitments := registry,
                proposals := s.proposals[id := Proposal(clock.now, clock.cindex, action, Ongoing, electorate)],
                purposeIds := s.purposeIds[id := purpose],
                proposalCount := id,
                tallies := s.tallies[id := Tally(0, 0)]))
  }

  // ---------- voting ----------

  // Whether one offered attendance counts for this proposal.
  predicate Eligible(p: Parameters, proposal: Proposal, cc: CommunityCeremony) {
    && MayVote(p, proposal.startCindex, cc.cindex)
    && (proposal.action.Electors().None? || proposal.action.Electors().value == cc.cid)
  }

  // Commits the eligible attendances in order; those that cannot be committed are skipped.
  function CommitAll(p: Parameters, c: Ceremonies.State, proposal: Proposal, purpose: nat, a: Account,
                     r: CommitmentRegistry, reputations: seq<CommunityCeremony>): (CommitmentRegistry, nat)
  {
    if reputations == [] then (r, 0)
    else
      var (r1, n) := CommitAll(p, c, proposal, purpose, a, r, reputations[..|reputations| - 1]);
      var cc := reputations[|reputations| - 1];
      if !Eligible(p, proposal, cc) then (r1, n)
      else
        match CommitReputation(c, r1, a, cc, purpose, None)
        case Err(_) => (r1, n)
        case Ok(r2) => (r2, n + 1)
  }

  function CommitVotes(p: Parameters, c: Ceremonies.State, s: State, id: nat, a: Account,
                       reputations: seq<CommunityCeremony>): Result<(State, nat), Error>
  {
    if id !in s.proposals || id !in s.purposeIds then Err(InexistentProposal)
    else if reputations != [] && LifetimeCycles(p).Err? then Err(LifetimeCycles(p).error)
    else
      var (r, n) := CommitAll(p, c, s.proposals[id], s.purposeIds[id], a, s.commitments, reputations);
      Ok((s.(commitments := r), n))
  }

  // The proposal is updated before and after; a vote that finds it final is rolled back.
  function CastVote(p: Parameters, clock: Clock, c: Ceremonies.State, s: State, sender: Account, id: nat,
                    vote: Vote, reputations: seq<CommunityCeremony>): Result<State, Error>
  {
    if id !in s.tallies then Err(InexistentProposal)
    else
      var tally := s.tallies[id];
      match UpdateProposal(p, clock.now, s, id)
      case Err(e) => Err(e)
      case Ok(updated) =>
        match CommitVotes(p, c, updated, id, sender, reputations)
        case Err(e) => Err(e)
        case Ok((committed, n)) =>
          var counted := Tally(tally.turnout + n, tally.ayes + if vote.Aye? then n else 0);
          if counted.turnout > U128_MAX || counted.ayes > U128_MAX then Err(VoteCountOverflow)
          else UpdateProposal(p, clock.now, committed.(tallies := committed.tallies[id := counted]), id)
  }

  // ---------- enactment ----------

  predicate Queued(s: State, id: nat) {
    exists k | k in s.queue :: id in s.queue[k]
  }

  // Every queued proposal is enacted unless its action fails; the queue is emptied either way.
  function EnactAll(s: State, succeeding: set<nat>): State {
    s.(proposals := map id | id in s.proposals ::
         if Queued(s, id) && id in succeeding then s.proposals[id].(state := Enacted) else s.proposals[id],
       queue := map[])
  }
}
