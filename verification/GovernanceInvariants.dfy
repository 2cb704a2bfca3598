/** What every democracy call keeps, and the transitions a proposal can make. */
module GovernanceInvariants {
  import opened Primitives
  import opened Ceremonies
  import opened Governance

  type GState = Governance.State

  // The quorum is missed, or nobody has voted and a quorum of no votes cannot be computed.
  predicate Fails(p: Parameters, electorate: nat, tally: Tally) {
    var passes := TallyPasses(p, electorate, tally);
    passes == Ok(false) || (tally == Tally(0, 0) && passes.Err?)
  }

  // Without any vote nothing passes: the minimum turnout sees to it, or else the rule, which in
  // the code divides by the root of the turnout and so has no result.
  ghost predicate EmptyFails(p: Parameters) {
    p.minTurnout > 0 || forall electorate: nat :: p.bias(electorate, 0, 0) != Some(true)
  }

  // The tally must agree with the state after every completed call.
  ghost predicate StateOk(p: Parameters, clock: Clock, proposal: Proposal, tally: Tally) {
    match proposal.state
    case Ongoing => Fails(p, proposal.electorate, tally)
    case Confirming(since) =>
      && TallyPasses(p, proposal.electorate, tally) == Ok(true)
      && SinceOk(p, clock, proposal, since)
    case Approved => TallyPasses(p, proposal.electorate, tally) == Ok(true)
    case Enacted => TallyPasses(p, proposal.electorate, tally) == Ok(true)
    case _ => true
  }

  // Confirmation began within the proposal's lifetime.
  predicate SinceOk(p: Parameters, clock: Clock, proposal: Proposal, since: Moment) {
    proposal.start <= since <= proposal.start + p.proposalLifetime && since <= clock.now
  }

  ghost predicate Dated(clock: Clock, proposal: Proposal, tally: Tally) {
    proposal.start <= clock.now && 1 <= proposal.startCindex <= clock.cindex && tally.ayes <= tally.turnout
  }

  // Every queued id is approved, sits under its own action identifier, and sits there once.
  ghost predicate QueueOk(s: GState) {
    forall k :: k in s.queue ==> SlotOk(s, k, s.queue[k])
  }

  ghost predicate SlotOk(s: GState, k: ActionIdentifier, ids: seq<nat>) {
    && 0 < |ids| <= QUEUE_MAX
    && NoDuplicates(ids)
    && forall id :: id in ids ==>
         id in s.proposals && s.proposals[id].state == Approved && s.proposals[id].action.Identifier() == k
  }

  ghost predicate KeysOk(s: GState) {
    && (forall id :: id in s.proposals ==> 1 <= id <= s.proposalCount)
    && s.tallies.Keys == s.proposals.Keys
    && s.purposeIds.Keys == s.proposals.Keys
    && (forall id :: id in s.purposeIds ==> s.purposeIds[id] < s.commitments.next)
    && (forall i, j :: i in s.purposeIds && j in s.purposeIds && i != j ==> s.purposeIds[i] != s.purposeIds[j])
  }

  ghost predicate TimesOk(clock: Clock, s: GState) {
    forall k :: k in s.lastApproved ==> s.lastApproved[k].0 <= clock.now
  }

  // Everything but the agreement of one proposal's state with its tally.
  ghost predicate InvExcept(p: Parameters, clock: Clock, s: GState, open: nat) {
    && KeysOk(s)
    && (forall id :: id in s.proposals ==> Dated(clock, s.proposals[id], s.tallies[id]))
    && (forall id :: id in s.proposals && id != open ==> StateOk(p, clock, s.proposals[id], s.tallies[id]))
    && QueueOk(s)
    && TimesOk(clock, s)
  }

  ghost predicate Inv(p: Parameters, clock: Clock, s: GState) {
    InvExcept(p, clock, s, 0)
  }

  // ---------- transitions ----------

  // Rejected, SupersededBy and Enacted are never left; Enacted is entered from Approved only.
  predicate Edge(from: ProposalState, to: ProposalState) {
    || from == to
    || (from.Ongoing? && (to.Confirming? || to.Rejected? || to.SupersededBy?))
    || (from.Confirming? && (to.Ongoing? || to.Approved? || to.Rejected? || to.SupersededBy?))
    || (from.Approved? && to.Enacted?)
  }

  // Approval needs more than the confirmation period, and no later approval of the same kind
  // after this proposal was submitted.
  ghost predicate ApprovalOk(p: Parameters, now: Moment, s: GState, s': GState, id: nat)
    requires id in s.proposals
  {
    var proposal := s.proposals[id];
    var k := proposal.action.Identifier();
    && proposal.state.Confirming?
    && now > proposal.state.since + p.confirmationPeriod
    && (proposal.action.Supersedes() && k in s.lastApproved ==> s.lastApproved[k].0 <= proposal.start)
    && k in s'.lastApproved && s'.lastApproved[k] == (now, id)
  }

  ghost predicate ProposalStep(p: Parameters, now: Moment, s: GState, s': GState, id: nat)
    requires id in s.proposals && id in s.tallies
  {
    && id in s'.proposals && id in s'.tallies
    && s'.proposals[id] == s.proposals[id].(state := s'.proposals[id].state)
    && Edge(s.proposals[id].state, s'.proposals[id].state)
    && (!s.proposals[id].state.CanUpdate() ==> s'.tallies[id] == s.tallies[id])
    && (s'.proposals[id].state.Confirming? ==>
          s'.proposals[id].state == s.proposals[id].state || s'.proposals[id].state.since == now)
    && (s'.proposals[id].state.Approved? && s.proposals[id].state != Approved ==> ApprovalOk(p, now, s, s', id))
  }

  ghost predicate Evolves(p: Parameters, now: Moment, s: GState, s': GState)
    requires s.tallies.Keys == s.proposals.Keys
  {
    && (forall id :: id in s.proposals ==> ProposalStep(p, now, s, s', id))
    && (forall id :: id in s'.proposals && id !in s.proposals ==> s'.proposals[id].state == Ongoing)
    && (forall k :: k in s.lastApproved ==> k in s'.lastApproved && s.lastApproved[k].0 <= s'.lastApproved[k].0)
  }

  lemma EvolvesReflexive(p: Parameters, now: Moment, s: GState)
    requires s.tallies.Keys == s.proposals.Keys
    ensures Evolves(p, now, s, s)
  {
  }

  // ---------- one update ----------

  lemma NextStateOk(p: Parameters, clock: Clock, proposal: Proposal, tally: Tally, last: Option<(Moment, nat)>)
    requires Dated(clock, proposal, tally) && proposal.state.CanUpdate()
    requires proposal.state.Confirming? ==> SinceOk(p, clock, proposal, proposal.state.since)
    ensures var r := NextState(p, clock.now, proposal, Some(tally), last);
            r.Ok? ==>
              && StateOk(p, clock, proposal.(state := r.value), tally)
              && Edge(proposal.state, r.value)
              && !r.value.Enacted?
              && (r.value.Confirming? ==> r.value == proposal.state || r.value.since == clock.now)
              && (r.value.Approved? ==>
                    && proposal.state.Confirming? && clock.now > proposal.state.since + p.confirmationPeriod
                    && (proposal.action.Supersedes() && last.Some? ==> last.value.0 <= proposal.start))
  {
  }

  lemma EnqueueOk(s: GState, s': GState, k: ActionIdentifier, id: nat)
    requires QueueOk(s) && id in s.proposals && s.proposals[id].state.CanUpdate()
    requires s'.queue == Enqueue(s.queue, k, id)
    requires s'.proposals == s.proposals[id := s.proposals[id].(state := Approved)]
    requires k == s.proposals[id].action.Identifier()
    ensures QueueOk(s')
  {
    forall j | j in s'.queue ensures SlotOk(s', j, s'.queue[j]) {
      if j in s.queue {
        assert SlotOk(s, j, s.queue[j]);
        assert id !in s.queue[j];
      }
      if j == k {
        var ids := if k in s.queue then s.queue[k] else [];
        assert forall i :: i in ids + [id] <==> i in ids || i == id;
      }
    }
  }

  lemma SetStateOk(s: GState, id: nat, st: ProposalState)
    requires QueueOk(s) && id in s.proposals && s.proposals[id].state.CanUpdate()
    ensures QueueOk(SetState(s, id, st))
  {
    var t := SetState(s, id, st);
    forall k | k in t.queue ensures SlotOk(t, k, t.queue[k]) {
      assert SlotOk(s, k, s.queue[k]);
    }
  }

  // The storage after an update that moved proposal id to state st.
  ghost predicate Updated(p: Parameters, clock: Clock, s: GState, t: GState, id: nat, st: ProposalState)
    requires id in s.proposals
  {
    var proposal := s.proposals[id];
    var k := proposal.action.Identifier();
    && t == SetState(s, id, st).(queue := t.queue, lastApproved := t.lastApproved)
    && (if st.Approved?
        then t.queue == Enqueue(s.queue, k, id) && t.lastApproved == s.lastApproved[k := (clock.now, id)]
             && ApprovalOk(p, clock.now, s, t, id)
        else t.queue == s.queue && t.lastApproved == s.lastApproved)
    && Edge(proposal.state, st)
    && (st.Confirming? ==> st == proposal.state || st.since == clock.now)
  }

  lemma UpdateShape(p: Parameters, clock: Clock, s: GState, id: nat) returns (st: ProposalState)
    requires InvExcept(p, clock, s, id) && UpdateProposal(p, clock.now, s, id).Ok?
    requires s.proposals[id].state.Confirming? ==>
               SinceOk(p, clock, s.proposals[id], s.proposals[id].state.since)
    ensures id in s.proposals && id in s.tallies && s.proposals[id].state.CanUpdate()
    ensures Updated(p, clock, s, UpdateProposal(p, clock.now, s, id).value, id, st)
    ensures StateOk(p, clock, s.proposals[id].(state := st), s.tallies[id])
  {
    hide NextState, StateOk, Enqueue, SlotOk, QueueOk, TimesOk, Action.Identifier, Action.Supersedes;
    var proposal, tally, k := s.proposals[id], s.tallies[id], s.proposals[id].action.Identifier();
    NextStateOk(p, clock, proposal, tally, LastApproved(s, k));
    st := NextState(p, clock.now, proposal, Some(tally), LastApproved(s, k)).value;
  }

  lemma UpdatedInv(p: Parameters, clock: Clock, s: GState, t: GState, id: nat, st: ProposalState)
    requires InvExcept(p, clock, s, id) && id in s.proposals && s.proposals[id].state.CanUpdate()
    requires Updated(p, clock, s, t, id, st) && StateOk(p, clock, s.proposals[id].(state := st), s.tallies[id])
    ensures Inv(p, clock, t)
  {
    hide StateOk, Enqueue, SlotOk, QueueOk, ApprovalOk, Edge, KeysOk, Action.Identifier, Action.Supersedes;
    KeySets(s);
    SameKeys(s, t);
    if st.Approved? {
      EnqueueOk(s, t, s.proposals[id].action.Identifier(), id);
    } else {
      SetStateOk(s, id, st);
      assert QueueOk(t) by { SameQueue(SetState(s, id, st), t); }
    }
  }

  lemma SameKeys(s: GState, t: GState)
    requires KeysOk(s) && t.proposals.Keys == s.proposals.Keys && t.proposalCount == s.proposalCount
    requires t.tallies.Keys == s.tallies.Keys && t.purposeIds == s.purposeIds
    requires t.commitments.next >= s.commitments.next
    ensures KeysOk(t)
  {
  }

  lemma SameQueue(s: GState, t: GState)
    requires QueueOk(s) && t.queue == s.queue && t.proposals == s.proposals
    ensures QueueOk(t)
  {
    forall k | k in t.queue ensures SlotOk(t, k, t.queue[k]) {
      assert SlotOk(s, k, s.queue[k]);
    }
  }

  lemma UpdatedEvolves(p: Parameters, clock: Clock, s: GState, t: GState, id: nat, st: ProposalState)
    requires InvExcept(p, clock, s, id) && id in s.proposals && s.proposals[id].state.CanUpdate()
    requires Updated(p, clock, s, t, id, st)
    ensures Evolves(p, clock.now, s, t)
  {
    hide StateOk, Enqueue, SlotOk, QueueOk, ApprovalOk, Action.Identifier, Action.Supersedes;
  }

  lemma UpdateKeeps(p: Parameters, clock: Clock, s: GState, id: nat)
    requires InvExcept(p, clock, s, id)
    requires id in s.proposals && s.proposals[id].state.Confirming? ==>
               SinceOk(p, clock, s.proposals[id], s.proposals[id].state.since)
    ensures var r := UpdateProposal(p, clock.now, s, id);
            r.Ok? ==> Inv(p, clock, r.value) && Evolves(p, clock.now, s, r.value)
                      && r.value.commitments == s.commitments && r.value.tallies == s.tallies
  {
    hide UpdateProposal, StateOk, InvExcept, Evolves, Enqueue, Edge, ApprovalOk;
    var r := UpdateProposal(p, clock.now, s, id);
    if r.Ok? {
      UpdateNeedsOpen(p, clock.now, s, id);
      var st := UpdateShape(p, clock, s, id);
      UpdatedInv(p, clock, s, r.value, id, st);
      UpdatedEvolves(p, clock, s, r.value, id, st);
    }
  }

  // ---------- votes ----------

  // The first update of a vote that goes through changes nothing.
  lemma FirstUpdateIdle(p: Parameters, clock: Clock, s: GState, id: nat)
    requires Inv(p, clock, s) && UpdateProposal(p, clock.now, s, id).Ok?
    requires UpdateProposal(p, clock.now, s, id).value.proposals[id].state.CanUpdate()
    ensures UpdateProposal(p, clock.now, s, id).value == s
  {
    var t := UpdateProposal(p, clock.now, s, id).value;
    assert StateOk(p, clock, s.proposals[id], s.tallies[id]);
    assert t.proposals[id] == s.proposals[id];
    assert t.proposals == s.proposals;
  }

  lemma SubmitKeeps(p: Parameters, clock: Clock, c: Ceremonies.State, s: GState, action: Action)
    requires Inv(p, clock, s) && EmptyFails(p) && clock.cindex >= 1
    ensures var r := SubmitProposal(p, clock, c, s, action);
            r.Ok? ==> Inv(p, clock, r.value) && Evolves(p, clock.now, s, r.value)
  {
    hide Electorate, Action.Identifier, InvExcept, Evolves;
    assert KeysOk(s) by { InvKeys(p, clock, s); }
    var r := SubmitProposal(p, clock, c, s, action);
    if r.Ok? {
      AddedKeeps(p, clock, s, r.value, action);
    }
  }

  lemma InvKeys(p: Parameters, clock: Clock, s: GState)
    requires Inv(p, clock, s)
    ensures KeysOk(s)
  {
  }

  // Storage t is storage s with one more proposal.
  ghost predicate Added(clock: Clock, s: GState, t: GState, action: Action) {
    && t.proposalCount == s.proposalCount + 1
    && t.proposalCount in t.proposals
    && t.proposals == s.proposals[t.proposalCount :=
         Proposal(clock.now, clock.cindex, action, Ongoing, t.proposals[t.proposalCount].electorate)]
    && t.tallies == s.tallies[t.proposalCount := Tally(0, 0)]
    && t.purposeIds == s.purposeIds[t.proposalCount := s.commitments.next]
    && t.commitments.next == s.commitments.next + 1
    && t.queue == s.queue && t.lastApproved == s.lastApproved
  }

  lemma AddedKeys(clock: Clock, s: GState, t: GState, action: Action)
    requires KeysOk(s) && Added(clock, s, t, action)
    ensures KeysOk(t) && t.proposalCount !in s.proposals
  {
    assert t.proposals.Keys == s.proposals.Keys + {t.proposalCount};
    assert t.tallies.Keys == s.tallies.Keys + {t.proposalCount};
    assert t.purposeIds.Keys == s.purposeIds.Keys + {t.proposalCount};
  }

  lemma AddedKeeps(p: Parameters, clock: Clock, s: GState, t: GState, action: Action)
    requires Inv(p, clock, s) && EmptyFails(p) && clock.cindex >= 1 && Added(clock, s, t, action)
    ensures Inv(p, clock, t) && Evolves(p, clock.now, s, t)
  {
    hide KeysOk, SlotOk, TallyPasses, Action.Identifier, Action.Supersedes;
    AddedKeys(clock, s, t, action);
    KeySets(s);
    FreshTallyFails(p, t.proposals[t.proposalCount].electorate);
    forall k | k in t.queue ensures SlotOk(t, k, t.queue[k]) {
      SlotGrows(s, t, k, t.queue[k]);
    }
  }

  lemma KeySets(s: GState)
    requires KeysOk(s)
    ensures s.tallies.Keys == s.proposals.Keys && s.purposeIds.Keys == s.proposals.Keys
    ensures s.proposalCount + 1 !in s.proposals
  {
  }

  lemma SlotGrows(s: GState, t: GState, k: ActionIdentifier, ids: seq<nat>)
    requires SlotOk(s, k, ids)
    requires forall id :: id in s.proposals ==> id in t.proposals && t.proposals[id] == s.proposals[id]
    ensures SlotOk(t, k, ids)
  {
  }

  lemma FreshTallyFails(p: Parameters, electorate: nat)
    requires EmptyFails(p)
    ensures Fails(p, electorate, Tally(0, 0))
  {
    if electorate > 0 {
      assert 0 / electorate == 0;
    }
  }

  // A counted vote leaves everything but this proposal's tally and the commitments alone.
  lemma CountedKeeps(p: Parameters, clock: Clock, s: GState, t: GState, id: nat)
    requires Inv(p, clock, s) && id in s.proposals && s.proposals[id].state.CanUpdate()
    requires t == s.(commitments := t.commitments, tallies := t.tallies)
    requires t.commitments.next == s.commitments.next
    requires t.tallies.Keys == s.tallies.Keys && t.tallies[id].ayes <= t.tallies[id].turnout
    requires forall i :: i in s.tallies && i != id ==> t.tallies[i] == s.tallies[i]
    ensures InvExcept(p, clock, t, id)
    ensures t.proposals[id].state.Confirming? ==> SinceOk(p, clock, t.proposals[id], t.proposals[id].state.since)
    ensures forall v :: Evolves(p, clock.now, t, v) ==> Evolves(p, clock.now, s, v)
  {
    hide TallyPasses, SlotOk, KeysOk, Action.Identifier, Action.Supersedes;
    KeySets(s);
    SameKeys(s, t);
    assert StateOk(p, clock, s.proposals[id], s.tallies[id]);
    forall k | k in t.queue ensures SlotOk(t, k, t.queue[k]) {
      SlotGrows(s, t, k, t.queue[k]);
    }
    forall v | Evolves(p, clock.now, t, v) ensures Evolves(p, clock.now, s, v) {
      SameStart(p, clock.now, s, t, v);
    }
  }

  // Evolution does not look at the open tallies or the commitments of the state it starts from.
  lemma SameStart(p: Parameters, now: Moment, s: GState, t: GState, v: GState)
    requires t == s.(commitments := t.commitments, tallies := t.tallies)
    requires s.tallies.Keys == s.proposals.Keys == t.tallies.Keys
    requires forall i :: i in s.proposals && !s.proposals[i].state.CanUpdate() ==> t.tallies[i] == s.tallies[i]
    requires Evolves(p, now, t, v)
    ensures Evolves(p, now, s, v)
  {
    hide Edge, TallyPasses, Action.Identifier, Action.Supersedes;
    forall i | i in s.proposals ensures ProposalStep(p, now, s, v, i) {
      assert ProposalStep(p, now, t, v, i);
    }
  }

  lemma {:induction false} CommitAllKeepsPurposes(p: Parameters, c: Ceremonies.State, proposal: Proposal, purpose: nat,
                                                  a: Account, r: CommitmentRegistry,
                                                      reputations: seq<CommunityCeremony>)
    ensures var (r', n) := CommitAll(p, c, proposal, purpose, a, r, reputations);
            r'.next == r.next && r'.purposes == r.purposes
  {
    if reputations != [] {
      CommitAllKeepsPurposes(p, c, proposal, purpose, a, r, reputations[..|reputations| - 1]);
    }
  }

  lemma VoteKeeps(p: Parameters, clock: Clock, c: Ceremonies.State, s: GState, sender: Account, id: nat,
                  vote: Vote, reputations: seq<CommunityCeremony>)
    requires Inv(p, clock, s)
    ensures var r := CastVote(p, clock, c, s, sender, id, vote, reputations);
            r.Ok? ==> Inv(p, clock, r.value) && Evolves(p, clock.now, s, r.value)
  {
    hide UpdateProposal, CommitAll, InvExcept, Evolves, SlotOk, StateOk;
    var r := CastVote(p, clock, c, s, sender, id, vote, reputations);
    if r.Ok? {
      VoteUnfolds(p, clock, c, s, sender, id, vote, reputations);
      var t := VotedState(p, c, s, sender, id, vote, reputations);
      CommitAllKeepsPurposes(p, c, s.proposals[id], s.purposeIds[id], sender, s.commitments, reputations);
      assert Dated(clock, s.proposals[id], s.tallies[id]) by { DatedAt(p, clock, s, id); }
      CountedKeeps(p, clock, s, t, id);
      UpdateKeeps(p, clock, t, id);
    }
  }

  lemma DatedAt(p: Parameters, clock: Clock, s: GState, id: nat)
    requires Inv(p, clock, s) && id in s.proposals
    ensures KeysOk(s) && Dated(clock, s.proposals[id], s.tallies[id])
  {
  }

  // The state in which the votes are committed and counted, before the final update.
  function VotedState(p: Parameters, c: Ceremonies.State, s: GState, sender: Account, id: nat,
                      vote: Vote, reputations: seq<CommunityCeremony>): GState
    requires id in s.proposals && id in s.purposeIds && id in s.tallies
  {
    var (r, n) := CommitAll(p, c, s.proposals[id], s.purposeIds[id], sender, s.commitments, reputations);
    var tally := s.tallies[id];
    s.(commitments := r,
       tallies := s.tallies[id := Tally(tally.turnout + n, tally.ayes + if vote.Aye? then n else 0)])
  }

  lemma UpdateNeedsOpen(p: Parameters, now: Moment, s: GState, id: nat)
    requires UpdateProposal(p, now, s, id).Ok?
    ensures id in s.proposals && s.proposals[id].state.CanUpdate()
  {
  }

  lemma UpdateKeepsCommitments(p: Parameters, now: Moment, s: GState, id: nat)
    requires UpdateProposal(p, now, s, id).Ok?
    ensures var t := UpdateProposal(p, now, s, id).value;
            t.commitments == s.commitments && t.tallies == s.tallies && t.purposeIds == s.purposeIds
  {
  }

  lemma VoteUnfolds(p: Parameters, clock: Clock, c: Ceremonies.State, s: GState, sender: Account, id: nat,
                    vote: Vote, reputations: seq<CommunityCeremony>)
    requires Inv(p, clock, s) && CastVote(p, clock, c, s, sender, id, vote, reputations).Ok?
    ensures KeysOk(s) && id in s.proposals && s.proposals[id].state.CanUpdate()
    ensures UpdateProposal(p, clock.now, s, id) == Ok(s)
    ensures UpdateProposal(p, clock.now, VotedState(p, c, s, sender, id, vote, reputations), id) ==
            CastVote(p, clock, c, s, sender, id, vote, reputations)
  {
    hide UpdateProposal, CommitAll, StateOk, SlotOk;
    var t := UpdateProposal(p, clock.now, s, id).value;
    UpdateNeedsOpen(p, clock.now, s, id);
    var (committed, n) := CommitVotes(p, c, t, id, sender, reputations).value;
    var tally := s.tallies[id];
    var counted := Tally(tally.turnout + n, tally.ayes + if vote.Aye? then n else 0);
    UpdateNeedsOpen(p, clock.now, committed.(tallies := committed.tallies[id := counted]), id);
    FirstUpdateIdle(p, clock, s, id);
  }

  // ---------- enactment and time ----------

  lemma EnactKeeps(p: Parameters, clock: Clock, s: GState, succeeding: set<nat>)
    requires Inv(p, clock, s)
    ensures Inv(p, clock, EnactAll(s, succeeding)) && Evolves(p, clock.now, s, EnactAll(s, succeeding))
  {
    hide StateOk, SlotOk, Queued, KeysOk, Action.Identifier, Action.Supersedes;
    var t := EnactAll(s, succeeding);
    KeySets(s);
    SameKeys(s, t);
    forall id | id in s.proposals
      ensures Queued(s, id) ==> s.proposals[id].state == Approved
      ensures StateOk(p, clock, t.proposals[id], t.tallies[id])
    {
      if Queued(s, id) {
        QueuedIsApproved(s, id);
      }
      EnactedOk(p, clock, s.proposals[id], s.tallies[id]);
    }
  }

  lemma QueuedIsApproved(s: GState, id: nat)
    requires QueueOk(s) && Queued(s, id)
    ensures id in s.proposals && s.proposals[id].state == Approved
  {
    var k :| k in s.queue && id in s.queue[k];
    assert SlotOk(s, k, s.queue[k]);
  }

  lemma EnactedOk(p: Parameters, clock: Clock, proposal: Proposal, tally: Tally)
    requires StateOk(p, clock, proposal, tally)
    ensures proposal.state == Approved ==> StateOk(p, clock, proposal.(state := Enacted), tally)
  {
  }

  lemma TimeKeeps(p: Parameters, clock: Clock, clock': Clock, s: GState)
    requires Inv(p, clock, s) && clock.now <= clock'.now && clock.cindex <= clock'.cindex
    ensures Inv(p, clock', s)
  {
    hide TallyPasses, SlotOk;
    forall id | id in s.proposals ensures StateOk(p, clock', s.proposals[id], s.tallies[id]) {
      assert StateOk(p, clock, s.proposals[id], s.tallies[id]);
    }
  }

  lemma InvWeakens(p: Parameters, clock: Clock, s: GState, id: nat)
    requires Inv(p, clock, s)
    ensures InvExcept(p, clock, s, id)
    ensures id in s.proposals && s.proposals[id].state.Confirming? ==>
              SinceOk(p, clock, s.proposals[id], s.proposals[id].state.since)
  {
    hide TallyPasses, SlotOk;
    if id in s.proposals {
      assert StateOk(p, clock, s.proposals[id], s.tallies[id]);
    }
  }

  lemma OtherCommitmentsKeep(p: Parameters, clock: Clock, s: GState, r: CommitmentRegistry)
    requires Inv(p, clock, s) && r.next >= s.commitments.next
    ensures Inv(p, clock, s.(commitments := r)) && Evolves(p, clock.now, s, s.(commitments := r))
  {
    hide TallyPasses, SlotOk, StateOk;
    var t := s.(commitments := r);
    forall k | k in t.queue ensures SlotOk(t, k, t.queue[k]) {
      SlotGrows(s, t, k, t.queue[k]);
    }
  }
}
