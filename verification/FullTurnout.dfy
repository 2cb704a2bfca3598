/**
 The bound on turnout is exact. From the moment a proposal is submitted, everybody on the roll can
 vote within the same block, so its turnout can exceed the electorate exactly if the roll does.
 */
module FullTurnout {
  import opened Primitives
  import opened Hall
  import opened Ceremonies
  import opened Governance
  import opened Chain
  import opened Turnout
  import opened Electorate
  import TimedRuns
  import VoteGuards
  import CI = CeremonyInvariants
  import GI = GovernanceInvariants

  // ---------- purposes ----------

  // Purpose ids are handed out in order, and commitments are for registered purposes only.
  ghost predicate PurposesOk(r: CommitmentRegistry) {
    && (forall p :: p in r.purposes ==> p < r.next)
    && (forall k :: k in r.commitments ==> k.purpose in r.purposes)
  }

  lemma {:induction false} CommitAllPurposes(p: Parameters, c: Ceremonies.State, proposal: Proposal, purpose: nat,
                                             a: Account, r: CommitmentRegistry, reputations: seq<CommunityCeremony>)
    requires PurposesOk(r)
    ensures PurposesOk(CommitAll(p, c, proposal, purpose, a, r, reputations).0)
  {
    hide Eligible;
    if reputations != [] {
      CommitAllPurposes(p, c, proposal, purpose, a, r, reputations[..|reputations| - 1]);
    }
  }

  lemma VotePurposes(rules: Rules, s: Chain, sender: Account, id: nat, vote: Vote, reputations: seq<CommunityCeremony>)
    requires Inv(rules, s) && PurposesOk(s.gov.commitments)
    ensures var r := CastVote(rules.gov, s.clock, s.cer, s.gov, sender, id, vote, reputations);
            r.Ok? ==> PurposesOk(r.value.commitments)
  {
    hide CI.Inv, CastVote, UpdateProposal, CommitAll, GI.InvExcept, PurposesOk;
    if CastVote(rules.gov, s.clock, s.cer, s.gov, sender, id, vote, reputations).Ok? {
      GI.VoteUnfolds(rules.gov, s.clock, s.cer, s.gov, sender, id, vote, reputations);
      GI.KeySets(s.gov);
      var u := GI.VotedState(rules.gov, s.cer, s.gov, sender, id, vote, reputations);
      GI.UpdateKeepsCommitments(rules.gov, s.clock.now, u, id);
      CommitAllPurposes(rules.gov, s.cer, s.gov.proposals[id], s.gov.purposeIds[id], sender, s.gov.commitments,
                        reputations);
    }
  }

  lemma SubmitPurposes(rules: Rules, s: Chain, action: Action)
    requires PurposesOk(s.gov.commitments)
    ensures var r := SubmitProposal(rules.gov, s.clock, s.cer, s.gov, action);
            r.Ok? ==> PurposesOk(r.value.commitments)
  {
    hide Governance.Electorate, Action.Identifier;
  }

  lemma CallPurposes(rules: Rules, s: Chain, call: Call)
    requires Inv(rules, s) && CallOk(rules, s, call) && PurposesOk(s.gov.commitments)
    ensures PurposesOk(Apply(rules, s, call).gov.commitments)
  {
    hide CI.Inv, CastVote, UpdateProposal, SubmitProposal, GI.InvExcept, AssignAll, SeatInputsOk, PurgeInactive;
    if call.VoteCall? {
      VotePurposes(rules, s, call.sender, call.id, call.vote, call.reputations);
    } else if call.SubmitCall? {
      SubmitPurposes(rules, s, call.action);
    } else if call.UpdateCall? && UpdateProposal(rules.gov, s.clock.now, s.gov, call.id).Ok? {
      GI.UpdateKeepsCommitments(rules.gov, s.clock.now, s.gov, call.id);
    }
  }

  lemma {:induction false} RunPurposes(rules: Rules, states: seq<Chain>, calls: seq<Call>, n: nat)
    requires IsRun(rules, states, calls) && n <= |calls|
    ensures PurposesOk(states[n].gov.commitments)
  {
    hide Inv, Step, Apply, CallOk;
    if n > 0 {
      RunPurposes(rules, states, calls, n - 1);
      RunKeeps(rules, states, calls, n - 1);
      assert Next(rules, states[n - 1], calls[n - 1], states[n - 1 + 1]);
      CallPurposes(rules, states[n - 1], calls[n - 1]);
    }
  }

  // ---------- one more vote ----------

  // The quorum of any number of nays up to a total can be computed.
  ghost predicate Computable(p: Parameters, electorate: nat, total: nat) {
    forall nays: nat :: nays <= total ==> TallyPasses(p, electorate, Tally(nays, 0)).Ok?
  }

  // The proposal is open in the block in which it was submitted, and its purpose is registered.
  ghost predicate Fresh(s: Chain, id: nat) {
    && id in s.gov.proposals && id in s.gov.purposeIds && id in s.gov.tallies
    && s.gov.proposals[id].start == s.clock.now && s.gov.proposals[id].state.CanUpdate()
    && s.gov.purposeIds[id] in s.gov.commitments.purposes
  }

  // In that block nothing closes it.
  lemma FreshStaysOpen(rules: Rules, s: Chain, id: nat)
    requires Inv(rules, s) && Fresh(s, id)
    ensures VoteGuards.StaysOpen(rules.gov, s.clock.now, s.gov, id)
  {
    hide CI.Inv, TallyPasses, GI.KeysOk, GI.QueueOk, Action.Identifier, Action.Supersedes;
    GI.DatedAt(rules.gov, s.clock, s.gov, id);
    assert GI.StateOk(rules.gov, s.clock, s.gov.proposals[id], s.gov.tallies[id]);
  }

  // Nor does an update after counting.
  lemma FreshUpdate(p: Parameters, now: Moment, s: Governance.State, id: nat)
    requires VoteGuards.StaysOpen(p, now, s, id) && s.proposals[id].start == now && UpdateProposal(p, now, s, id).Ok?
    ensures UpdateProposal(p, now, s, id).value.proposals[id].state.CanUpdate()
  {
    hide TallyPasses, Action.Identifier, Action.Supersedes;
  }

  function BallotOf(v: Attendance, id: nat): Call {
    VoteCall(v.account, id, Nay, [CC(v.cid, v.cindex)])
  }

  // A standing attendance that is not spent yet is committed and counted.
  lemma OneCommitted(rules: Rules, s: Chain, id: nat, v: Attendance)
    requires Fresh(s, id) && CanVote(rules, s, id, v) && !Committed(s, v, s.gov.purposeIds[id])
    ensures var (r, n) := CommitAll(rules.gov, s.cer, s.gov.proposals[id], s.gov.purposeIds[id], v.account,
                                    s.gov.commitments, [CC(v.cid, v.cindex)]);
            && n == 1 && r.purposes == s.gov.commitments.purposes
            && r.commitments.Keys == s.gov.commitments.commitments.Keys + {KeyOf(v, s.gov.purposeIds[id])}
  {
    hide Eligible;
    var cc, purpose := CC(v.cid, v.cindex), s.gov.purposeIds[id];
    AttendedMeansVerified(s, v);
    assert [cc][..0] == [] && [cc][0] == cc;
    assert CommitAll(rules.gov, s.cer, s.gov.proposals[id], purpose, v.account, s.gov.commitments, []) ==
           (s.gov.commitments, 0);
  }

  /** In the block of its submission, everybody on the roll who has not voted can: the vote goes
      through, counts once, commits this attendance only, and leaves the proposal open. */
  lemma OneMoreVote(rules: Rules, s: Chain, id: nat, v: Attendance)
    requires Inv(rules, s) && Fresh(s, id) && s.gov.tallies[id].ayes == 0
    requires Computable(rules.gov, s.gov.proposals[id].electorate, s.gov.tallies[id].turnout + 1)
    requires CanVote(rules, s, id, v) && !Committed(s, v, s.gov.purposeIds[id])
    requires s.gov.tallies[id].turnout < U128_MAX
    ensures var t := Apply(rules, s, BallotOf(v, id));
            && Fresh(t, id) && t.cer == s.cer && t.clock == s.clock
            && t.gov.purposeIds[id] == s.gov.purposeIds[id]
            && t.gov.tallies[id] == Tally(s.gov.tallies[id].turnout + 1, 0)
            && t.gov.commitments.commitments.Keys ==
               s.gov.commitments.commitments.Keys + {KeyOf(v, s.gov.purposeIds[id])}
            && t.gov.proposals[id] == s.gov.proposals[id].(state := t.gov.proposals[id].state)
  {
    hide CI.Inv, CastVote, UpdateProposal, CommitAll, TallyPasses, Eligible, Attended, GI.InvExcept;
    var ccs := [CC(v.cid, v.cindex)];
    FreshStaysOpen(rules, s, id);
    OneCommitted(rules, s, id, v);
    KnownNow(rules.gov, s.gov, id);
    MayVoteCycles(rules, s, id, v);
    VoteGuards.VoteAcceptedExactly(rules.gov, s.clock, s.cer, s.gov, v.account, id, Nay, ccs);
    GI.VoteUnfolds(rules.gov, s.clock, s.cer, s.gov, v.account, id, Nay, ccs);
    var u := GI.VotedState(rules.gov, s.cer, s.gov, v.account, id, Nay, ccs);
    GI.UpdateKeepsCommitments(rules.gov, s.clock.now, u, id);
    VotedStaysOpen(rules, s, id, u);
    FreshUpdate(rules.gov, s.clock.now, u, id);
    UpdateKeepsProposal(rules.gov, s.clock.now, u, id);
  }

  lemma KnownNow(p: Parameters, s: Governance.State, id: nat)
    requires id in s.proposals && id in s.tallies && s.tallies[id].ayes == 0
    requires Computable(p, s.proposals[id].electorate, s.tallies[id].turnout + 1)
    ensures VoteGuards.QuorumKnown(p, s, id)
    ensures TallyPasses(p, s.proposals[id].electorate, Tally(s.tallies[id].turnout + 1, 0)).Ok?
  {
    hide TallyPasses;
    assert s.tallies[id] == Tally(s.tallies[id].turnout, 0);
  }

  lemma MayVoteCycles(rules: Rules, s: Chain, id: nat, v: Attendance)
    requires CanVote(rules, s, id, v)
    ensures LifetimeCycles(rules.gov).Ok?
  {
  }

  lemma VotedStaysOpen(rules: Rules, s: Chain, id: nat, u: Governance.State)
    requires VoteGuards.StaysOpen(rules.gov, s.clock.now, s.gov, id)
    requires u.proposals == s.gov.proposals && u.lastApproved == s.gov.lastApproved
    ensures VoteGuards.StaysOpen(rules.gov, s.clock.now, u, id)
  {
  }

  lemma UpdateKeepsProposal(p: Parameters, now: Moment, s: Governance.State, id: nat)
    requires UpdateProposal(p, now, s, id).Ok?
    ensures var t := UpdateProposal(p, now, s, id).value;
            && id in s.proposals && id in t.proposals
            && t.proposals[id] == s.proposals[id].(state := t.proposals[id].state)
  {
  }

  // ---------- everybody votes ----------

  ghost predicate Continues(rules: Rules, states: seq<Chain>, calls: seq<Call>, states': seq<Chain>,
                            calls': seq<Call>) {
    && IsRun(rules, states', calls')
    && |states| <= |states'| && |calls| <= |calls'|
    && states'[..|states|] == states && calls'[..|calls|] == calls
  }

  // The attendances that can still vote, and the turnout they would add up to.
  ghost predicate Pending(rules: Rules, s: Chain, id: nat, pending: set<Attendance>, total: nat) {
    && Fresh(s, id) && s.gov.tallies[id].turnout + |pending| == total && s.gov.tallies[id].ayes == 0
    && Computable(rules.gov, s.gov.proposals[id].electorate, total)
    && forall v :: v in pending ==> CanVote(rules, s, id, v) && !Committed(s, v, s.gov.purposeIds[id])
  }

  lemma ExtendRun(rules: Rules, states: seq<Chain>, calls: seq<Call>, call: Call)
    requires IsRun(rules, states, calls) && CallOk(rules, states[|calls|], call)
    ensures IsRun(rules, states + [Apply(rules, states[|calls|], call)], calls + [call])
  {
    hide Apply, CallOk, Genesis;
    var t := Apply(rules, states[|calls|], call);
    var states', calls' := states + [t], calls + [call];
    forall i | 0 <= i < |calls'| ensures Next(rules, states'[i], calls'[i], states'[i + 1]) {
      if i < |calls| {
        assert Next(rules, states[i], calls[i], states[i + 1]);
      }
    }
  }

  lemma VoteLeaves(rules: Rules, s: Chain, id: nat, pending: set<Attendance>, total: nat, v: Attendance)
    requires Inv(rules, s) && total <= U128_MAX
    requires Pending(rules, s, id, pending, total) && v in pending
    ensures Pending(rules, Apply(rules, s, BallotOf(v, id)), id, pending - {v}, total)
  {
    hide Inv, Apply, Eligible, Attended;
    var t := Apply(rules, s, BallotOf(v, id));
    OneMoreVote(rules, s, id, v);
    forall w | w in pending - {v} ensures CanVote(rules, t, id, w) && !Committed(t, w, t.gov.purposeIds[id]) {
      StandsStill(rules, s, t, id, w);
      assert KeyOf(w, s.gov.purposeIds[id]) != KeyOf(v, s.gov.purposeIds[id]);
    }
  }

  lemma StandsStill(rules: Rules, s: Chain, t: Chain, id: nat, w: Attendance)
    requires CanVote(rules, s, id, w) && t.cer == s.cer && id in t.gov.proposals
    requires t.gov.proposals[id] == s.gov.proposals[id].(state := t.gov.proposals[id].state)
    ensures CanVote(rules, t, id, w)
  {
  }

  lemma {:induction false} EveryoneVotes(rules: Rules, states: seq<Chain>, calls: seq<Call>, id: nat,
                                         pending: set<Attendance>, total: nat)
    returns (states': seq<Chain>, calls': seq<Call>)
    requires IsRun(rules, states, calls) && total <= U128_MAX
    requires Pending(rules, states[|calls|], id, pending, total)
    ensures Continues(rules, states, calls, states', calls')
    ensures id in states'[|calls'|].gov.tallies && states'[|calls'|].gov.tallies[id].turnout == total
    decreases |pending|
  {
    hide Inv, Step, Apply, Next, Genesis, CanVote, Committed;
    if pending == {} {
      states', calls' := states, calls;
    } else {
      var v :| v in pending;
      var s := states[|calls|];
      RunKeeps(rules, states, calls, |calls|);
      VoteLeaves(rules, s, id, pending, total, v);
      ExtendRun(rules, states, calls, BallotOf(v, id));
      var longer, more := states + [Apply(rules, s, BallotOf(v, id))], calls + [BallotOf(v, id)];
      states', calls' := EveryoneVotes(rules, longer, more, id, pending - {v}, total);
      assert states'[..|states|] == longer[..|states|] == states;
      assert calls'[..|calls|] == more[..|calls|] == calls;
    }
  }

  // Right after its submission, the whole roll is pending.
  lemma RollPending(rules: Rules, states: seq<Chain>, calls: seq<Call>, m: nat, id: nat, action: Action)
    requires IsRun(rules, states, calls) && m < |calls| && SubmittedAt(states, m, id, action)
    ensures LifetimeCycles(rules.gov).Ok?
    ensures var roll := RollOf(rules, states[m], action.Electors());
            Computable(rules.gov, states[m + 1].gov.proposals[id].electorate, |roll|) ==>
              Pending(rules, states[m + 1], id, roll, |roll|)
  {
    hide Inv, Step, Apply, CallOk, CI.Inv, Action.Electors, LifetimeCycles, Roll;
    var s, t := states[m], states[m + 1];
    RunKeeps(rules, states, calls, m);
    assert Next(rules, states[m], calls[m], states[m + 1]);
    RunPurposes(rules, states, calls, m);
    FreshTurnout(rules, s, calls[m], id);
    RollAtSubmission(rules, s, calls[m], id);
    SubmittedFresh(rules, s, calls[m], id);
    var roll := RollOf(rules, s, action.Electors());
    forall v | v in roll ensures CanVote(rules, t, id, v) && !Committed(t, v, t.gov.purposeIds[id]) {
      RollMembers(s.cer, action.Electors(), VotingFrom(rules.gov, s.clock.cindex, LifetimeCycles(rules.gov).value),
                  VotingTo(s.clock.cindex), v);
    }
  }

  lemma SubmittedFresh(rules: Rules, s: Chain, call: Call, id: nat)
    requires CallOk(rules, s, call) && call.SubmitCall? && PurposesOk(s.gov.commitments)
    requires id !in s.gov.proposals && id in Apply(rules, s, call).gov.proposals
    ensures var t := Apply(rules, s, call);
            && Fresh(t, id)
            && forall k :: k in t.gov.commitments.commitments ==> k.purpose != t.gov.purposeIds[id]
  {
    hide Governance.Electorate, Action.Identifier;
  }

  // ---------- the exact condition ----------

  // However the run goes on, the turnout stays within the electorate.
  ghost predicate StaysWithin(rules: Rules, states: seq<Chain>, calls: seq<Call>, id: nat) {
    forall states', calls' :: Continues(rules, states, calls, states', calls') ==> WithinAtEnd(states', calls', id)
  }

  ghost predicate WithinAtEnd(states: seq<Chain>, calls: seq<Call>, id: nat) {
    |states| == |calls| + 1 ==>
      var s := states[|calls|];
      id in s.gov.proposals && id in s.gov.tallies ==> s.gov.tallies[id].turnout <= s.gov.proposals[id].electorate
  }

  lemma OneSubmission(rules: Rules, states: seq<Chain>, calls: seq<Call>, m: nat, n: nat, id: nat, action: Action,
                      action': Action)
    requires IsRun(rules, states, calls) && m < |calls| && n < |calls|
    requires SubmittedAt(states, m, id, action) && SubmittedAt(states, n, id, action')
    ensures m == n
  {
    if m < n {
      TimedRuns.ProposalConstant(rules, states, calls, m + 1, n, id);
    } else if n < m {
      TimedRuns.ProposalConstant(rules, states, calls, n + 1, m, id);
    }
  }

  /** Whatever follows its submission, the turnout of a proposal stays within the electorate if and
      only if the roll at submission does: for community proposals always, for global ones exactly
      if the global counts cover all standing attendances. */
  lemma StaysWithinExactly(rules: Rules, states: seq<Chain>, calls: seq<Call>, id: nat, action: Action)
    requires IsRun(rules, states, calls) && |calls| > 0 && SubmittedAt(states, |calls| - 1, id, action)
    ensures LifetimeCycles(rules.gov).Ok?
    ensures var roll := RollOf(rules, states[|calls| - 1], action.Electors());
            var electorate := states[|calls|].gov.proposals[id].electorate;
            |roll| <= U128_MAX && Computable(rules.gov, electorate, |roll|) ==>
              (StaysWithin(rules, states, calls, id) <==> |roll| <= electorate)
  {
    hide Inv, Step, Apply, CallOk, Next, Genesis, Action.Electors, LifetimeCycles, RollOf, Governance.Electorate;
    var m := |calls| - 1;
    RollPending(rules, states, calls, m, id, action);
    var roll, electorate := RollOf(rules, states[m], action.Electors()), states[|calls|].gov.proposals[id].electorate;
    if |roll| <= U128_MAX && Computable(rules.gov, electorate, |roll|) {
      var states', calls' := EveryoneVotes(rules, states, calls, id, roll, |roll|);
      SameProposal(rules, states, calls, states', calls', id);
      if StaysWithin(rules, states, calls, id) {
        assert WithinAtEnd(states', calls', id);
      }
      if |roll| <= electorate {
        forall later, more | Continues(rules, states, calls, later, more) ensures WithinAtEnd(later, more, id) {
          RollBounds(rules, states, calls, later, more, id, action);
        }
      }
    }
  }

  lemma SameProposal(rules: Rules, states: seq<Chain>, calls: seq<Call>, states': seq<Chain>, calls': seq<Call>,
                     id: nat)
    requires |states| == |calls| + 1 && Continues(rules, states, calls, states', calls')
    requires id in states[|calls|].gov.proposals
    ensures states'[|calls|] == states[|calls|]
    ensures id in states'[|calls'|].gov.proposals
    ensures states'[|calls'|].gov.proposals[id].electorate == states[|calls|].gov.proposals[id].electorate
  {
    hide Next, Genesis;
    assert states'[..|states|][|calls|] == states'[|calls|];
    TimedRuns.ProposalConstant(rules, states', calls', |calls|, |calls'|, id);
  }

  lemma RollBounds(rules: Rules, states: seq<Chain>, calls: seq<Call>, states': seq<Chain>, calls': seq<Call>, id: nat,
                   action: Action)
    requires |states| == |calls| + 1 && |calls| > 0 && SubmittedAt(states, |calls| - 1, id, action)
    requires Continues(rules, states, calls, states', calls') && LifetimeCycles(rules.gov).Ok?
    requires |RollOf(rules, states[|calls| - 1], action.Electors())| <= states[|calls|].gov.proposals[id].electorate
    ensures WithinAtEnd(states', calls', id)
  {
    hide Next, Genesis, Action.Electors, LifetimeCycles, RollOf, Governance.Electorate;
    var m, n := |calls| - 1, |calls'|;
    SameProposal(rules, states, calls, states', calls', id);
    assert states'[..|states|][m] == states'[m];
    var found := TurnoutWithinRoll(rules, states', calls', n, id);
    OneSubmission(rules, states', calls', m, found, id, action, states'[n].gov.proposals[id].action);
    TimedRuns.ProposalConstant(rules, states', calls', |calls|, n, id);
  }
}
