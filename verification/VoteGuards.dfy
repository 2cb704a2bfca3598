/**
 When a vote goes through. The state update before counting may close the proposal; the update
 after counting then fails and the whole call is rolled back, so such a proposal can only be
 closed by a call of its own.
 */
module VoteGuards {
  import opened Primitives
  import opened Ceremonies
  import opened Governance
  import opened GovernanceInvariants

  // A later proposal of the same superseding kind was approved after this one was submitted.
  predicate Superseded(s: GState, proposal: Proposal) {
    var last := LastApproved(s, proposal.action.Identifier());
    proposal.action.Supersedes() && last.Some? && proposal.start < last.value.0
  }

  // Confirming for longer than the confirmation period.
  predicate Confirmed(p: Parameters, now: Moment, proposal: Proposal) {
    proposal.state.Confirming? && SatSub(now, proposal.state.since) > p.confirmationPeriod
  }

  // Ongoing beyond the lifetime of proposals.
  predicate Expired(p: Parameters, now: Moment, proposal: Proposal) {
    proposal.state.Ongoing? && TooOld(p, now, proposal)
  }

  predicate StaysOpen(p: Parameters, now: Moment, s: GState, id: nat) {
    && id in s.proposals
    && s.proposals[id].state.CanUpdate()
    && !Superseded(s, s.proposals[id])
    && !Confirmed(p, now, s.proposals[id])
    && !Expired(p, now, s.proposals[id])
  }

  // The quorum of the present tally can be computed.
  predicate QuorumKnown(p: Parameters, s: GState, id: nat) {
    id in s.proposals && id in s.tallies && TallyPasses(p, s.proposals[id].electorate, s.tallies[id]).Ok?
  }

  /** It always can, but for a proposal nobody has voted on, without a minimum turnout. */
  lemma QuorumKnownExactly(p: Parameters, clock: Clock, s: GState, id: nat)
    requires Inv(p, clock, s) && id in s.proposals && s.proposals[id].state.CanUpdate()
    ensures id in s.tallies
    ensures QuorumKnown(p, s, id) <==>
            p.minTurnout > 0 || s.tallies[id] != Tally(0, 0) || p.bias(s.proposals[id].electorate, 0, 0).Some?
  {
    hide SlotOk, Action.Identifier;
    KeySets(s);
    assert StateOk(p, clock, s.proposals[id], s.tallies[id]);
  }

  /** In a state that agrees with its tallies, an update leaves a proposal open exactly if it is
      neither superseded nor confirmed nor expired, and then it changes nothing at all. */
  lemma UpdateIdleExactly(p: Parameters, clock: Clock, s: GState, id: nat)
    requires Inv(p, clock, s)
    ensures UpdateProposal(p, clock.now, s, id) == Ok(s) <==> StaysOpen(p, clock.now, s, id) && QuorumKnown(p, s, id)
    ensures var r := UpdateProposal(p, clock.now, s, id);
            r.Ok? ==> (r.value.proposals[id].state.CanUpdate() <==> StaysOpen(p, clock.now, s, id))
  {
    hide Action.Identifier, Action.Supersedes, SlotOk, TallyPasses;
    if id in s.proposals && s.proposals[id].state.CanUpdate() {
      KeySets(s);
      assert StateOk(p, clock, s.proposals[id], s.tallies[id]);
      var r := UpdateProposal(p, clock.now, s, id);
      if StaysOpen(p, clock.now, s, id) && r.Ok? {
        assert r.value.proposals == s.proposals;
      } else if r.Ok? {
        assert r.value.proposals[id].state != s.proposals[id].state;
      }
    }
  }

  // The tally once the offered attendances are counted.
  function CountedTally(p: Parameters, c: Ceremonies.State, s: GState, sender: Account, id: nat, vote: Vote,
                        reputations: seq<CommunityCeremony>): Tally
    requires id in s.proposals && id in s.purposeIds && id in s.tallies
  {
    VotedState(p, c, s, sender, id, vote, reputations).tallies[id]
  }

  // The guards a voter can look up before voting.
  predicate Accepted(p: Parameters, now: Moment, c: Ceremonies.State, s: GState, sender: Account, id: nat, vote: Vote,
                     reputations: seq<CommunityCeremony>)
    requires s.tallies.Keys == s.proposals.Keys == s.purposeIds.Keys
  {
    && StaysOpen(p, now, s, id) && QuorumKnown(p, s, id)
    && (reputations != [] ==> LifetimeCycles(p).Ok?)
    && var counted := CountedTally(p, c, s, sender, id, vote, reputations);
       && counted.turnout <= U128_MAX && counted.ayes <= U128_MAX
       && TallyPasses(p, s.proposals[id].electorate, counted).Ok?
  }

  /** A vote goes through exactly if the proposal stays open until it is counted, the cycle
      length is known where attendances are offered, the counts fit and the quorum can be
      computed before and after counting. */
  lemma VoteAcceptedExactly(p: Parameters, clock: Clock, c: Ceremonies.State, s: GState, sender: Account, id: nat,
                            vote: Vote, reputations: seq<CommunityCeremony>)
    requires Inv(p, clock, s)
    ensures s.tallies.Keys == s.proposals.Keys == s.purposeIds.Keys
    ensures CastVote(p, clock, c, s, sender, id, vote, reputations).Ok? <==>
            Accepted(p, clock.now, c, s, sender, id, vote, reputations)
  {
    hide UpdateProposal, CommitAll, TallyPasses, StateOk, SlotOk, StaysOpen, QuorumKnown;
    KeySets(s);
    UpdateIdleExactly(p, clock, s, id);
    if StaysOpen(p, clock.now, s, id) && QuorumKnown(p, s, id) {
      OpenNeeds(p, clock.now, s, id);
      CountedUpdate(p, clock.now, c, s, sender, id, vote, reputations);
    } else if CastVote(p, clock, c, s, sender, id, vote, reputations).Ok? {
      VoteUnfolds(p, clock, c, s, sender, id, vote, reputations);
    }
  }

  lemma OpenNeeds(p: Parameters, now: Moment, s: GState, id: nat)
    requires StaysOpen(p, now, s, id)
    ensures id in s.proposals
  {
  }

  // The update after counting fails only if the quorum cannot be computed.
  lemma CountedUpdate(p: Parameters, now: Moment, c: Ceremonies.State, s: GState, sender: Account, id: nat, vote: Vote,
                      reputations: seq<CommunityCeremony>)
    requires StaysOpen(p, now, s, id) && id in s.tallies && id in s.purposeIds
    ensures UpdateProposal(p, now, VotedState(p, c, s, sender, id, vote, reputations), id).Ok? <==>
            TallyPasses(p, s.proposals[id].electorate, CountedTally(p, c, s, sender, id, vote, reputations)).Ok?
  {
    hide CommitAll, TallyPasses, Action.Identifier, Action.Supersedes;
  }

  // ---------- the rolled-back votes ----------

  /** Whoever votes on an expired, confirmed or superseded proposal only gets an error, whatever
      attendances are offered; updating it closes it, unless the quorum cannot be computed. */
  lemma ClosingVoteFails(p: Parameters, clock: Clock, c: Ceremonies.State, s: GState, sender: Account, id: nat,
                         vote: Vote, reputations: seq<CommunityCeremony>)
    requires Inv(p, clock, s) && id in s.proposals && s.proposals[id].state.CanUpdate()
    requires !StaysOpen(p, clock.now, s, id)
    ensures CastVote(p, clock, c, s, sender, id, vote, reputations).Err?
    ensures UpdateProposal(p, clock.now, s, id).Ok? <==> Superseded(s, s.proposals[id]) || QuorumKnown(p, s, id)
    ensures UpdateProposal(p, clock.now, s, id).Ok? ==>
              !UpdateProposal(p, clock.now, s, id).value.proposals[id].state.CanUpdate()
  {
    hide CommitAll, TallyPasses, SlotOk, Action.Identifier, Action.Supersedes, CastVote;
    VoteAcceptedExactly(p, clock, c, s, sender, id, vote, reputations);
    UpdateIdleExactly(p, clock, s, id);
    KeySets(s);
    assert StateOk(p, clock, s.proposals[id], s.tallies[id]);
  }

  const SAMPLE_PARAMETERS :=
    Parameters(5, 5, 10, 1, 3, (e: nat, t: nat, a: nat) => Some(2 * a > t))

  function SampleState(st: ProposalState): GState {
    Governance.State(CommitmentRegistry(1, map[0 := 1], map[]),
                     map[1 := Proposal(0, 1, Petition(None, 0), st, 4)],
                     map[1 := Tally(3, if st.Ongoing? then 1 else 2)],
                     map[1 := 0], 1, map[], map[])
  }

  /** An expired proposal: the vote fails, while an update rejects the proposal. */
  lemma ExpiredSample(c: Ceremonies.State, sender: Account)
    ensures var s := SampleState(Ongoing);
            && Inv(SAMPLE_PARAMETERS, Clock(11, Registering, 1), s)
            && CastVote(SAMPLE_PARAMETERS, Clock(11, Registering, 1), c, s, sender, 1, Aye, []).Err?
            && UpdateProposal(SAMPLE_PARAMETERS, 11, s, 1).Ok?
            && UpdateProposal(SAMPLE_PARAMETERS, 11, s, 1).value.proposals[1].state == Rejected
  {
    SampleInv(Ongoing, 11);
    ClosingVoteFails(SAMPLE_PARAMETERS, Clock(11, Registering, 1), c, SampleState(Ongoing), sender, 1, Aye, []);
  }

  /** A confirmed proposal: the vote fails, while an update approves the proposal. */
  lemma ConfirmedSample(c: Ceremonies.State, sender: Account)
    ensures var s := SampleState(Confirming(1));
            && Inv(SAMPLE_PARAMETERS, Clock(7, Registering, 1), s)
            && CastVote(SAMPLE_PARAMETERS, Clock(7, Registering, 1), c, s, sender, 1, Nay, []).Err?
            && UpdateProposal(SAMPLE_PARAMETERS, 7, s, 1).Ok?
            && UpdateProposal(SAMPLE_PARAMETERS, 7, s, 1).value.proposals[1].state == Approved
  {
    SampleInv(Confirming(1), 7);
    ClosingVoteFails(SAMPLE_PARAMETERS, Clock(7, Registering, 1), c, SampleState(Confirming(1)), sender, 1, Nay, []);
  }

  lemma SampleInv(st: ProposalState, now: Moment)
    requires st == Ongoing || (st == Confirming(1) && now >= 1)
    ensures Inv(SAMPLE_PARAMETERS, Clock(now, Registering, 1), SampleState(st))
  {
    var s := SampleState(st);
    assert s.tallies.Keys == {1} && s.proposals.Keys == {1} && s.purposeIds.Keys == {1};
    assert 3 * 1000 / 4 == 750;
    assert StateOk(SAMPLE_PARAMETERS, Clock(now, Registering, 1), s.proposals[1], s.tallies[1]);
  }
}
