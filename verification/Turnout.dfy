/**
 Turnout over whole runs: it counts each attendance once, and for community proposals it
 never exceeds the electorate frozen at submission.
 */
module Turnout {
  import opened Primitives
  import opened Hall
  import opened Ceremonies
  import opened Governance
  import opened Chain
  import MJ = MeetupJudgement
  import CI = CeremonyInvariants
  import GI = GovernanceInvariants

  datatype Attendance = Attendance(account: Account, cid: Cid, cindex: nat)

  ghost predicate Attended(s: Chain, v: Attendance) {
    v.account in HallAt(s.cer, CC(v.cid, v.cindex)).VerifiedAccounts()
  }

  function KeyOf(v: Attendance, purpose: nat): Commitment {
    Commitment(v.cid, v.cindex, purpose, v.account)
  }

  ghost predicate Committed(s: Chain, v: Attendance, purpose: nat) {
    KeyOf(v, purpose) in s.gov.commitments.commitments
  }

  // ---------- one vote ----------

  ghost function NewKeys(r: CommitmentRegistry, r': CommitmentRegistry): set<Commitment> {
    r'.commitments.Keys - r.commitments.Keys
  }

  ghost predicate FreshCommitment(p: Parameters, c: Ceremonies.State, proposal: Proposal, purpose: nat, a: Account,
                                  k: Commitment) {
    && k.purpose == purpose && k.account == a
    && Eligible(p, proposal, CC(k.cid, k.cindex))
    && HasAttended(c, a, CC(k.cid, k.cindex))
  }

  // Committing adds one fresh, attended and eligible key for each vote it counts.
  lemma {:induction false} CommitAllEffect(p: Parameters, c: Ceremonies.State, proposal: Proposal, purpose: nat,
                                           a: Account,
                                           r: CommitmentRegistry, reputations: seq<CommunityCeremony>)
    ensures var (r', n) := CommitAll(p, c, proposal, purpose, a, r, reputations);
            && r.commitments.Keys <= r'.commitments.Keys
            && n == |NewKeys(r, r')|
            && forall k :: k in NewKeys(r, r') ==> FreshCommitment(p, c, proposal, purpose, a, k)
  {
    hide Eligible, HasAttended, CommitReputation;
    if reputations != [] {
      var front, cc := reputations[..|reputations| - 1], reputations[|reputations| - 1];
      CommitAllEffect(p, c, proposal, purpose, a, r, front);
      var (r1, n1) := CommitAll(p, c, proposal, purpose, a, r, front);
      var one := CommitReputation(c, r1, a, cc, purpose, None);
      if Eligible(p, proposal, cc) && one.Ok? {
        CommitOne(c, r1, a, cc, purpose);
        GrowsByOne(r, r1, one.value, Commitment(cc.cid, cc.cindex, purpose, a));
        assert CommitAll(p, c, proposal, purpose, a, r, reputations) == (one.value, n1 + 1);
        assert CC(cc.cid, cc.cindex) == cc;
      } else {
        assert CommitAll(p, c, proposal, purpose, a, r, reputations) == (r1, n1);
      }
    } else {
      assert NewKeys(r, r) == {};
    }
  }

  lemma GrowsByOne(r: CommitmentRegistry, r1: CommitmentRegistry, r2: CommitmentRegistry, key: Commitment)
    requires r.commitments.Keys <= r1.commitments.Keys && key !in r1.commitments
    requires r2.commitments.Keys == r1.commitments.Keys + {key}
    ensures r.commitments.Keys <= r2.commitments.Keys
    ensures NewKeys(r, r2) == NewKeys(r, r1) + {key} && |NewKeys(r, r2)| == |NewKeys(r, r1)| + 1
  {
  }

  lemma CommitOne(c: Ceremonies.State, r: CommitmentRegistry, a: Account, cc: CommunityCeremony, purpose: nat)
    requires CommitReputation(c, r, a, cc, purpose, None).Ok?
    ensures var key := Commitment(cc.cid, cc.cindex, purpose, a);
            && key !in r.commitments && HasAttended(c, a, cc)
            && CommitReputation(c, r, a, cc, purpose, None).value.commitments.Keys == r.commitments.Keys + {key}
  {
  }

  // The attendances a vote adds to the turnout of its proposal.
  ghost function NewVotes(s: Chain, t: Chain): set<Attendance> {
    set k | k in NewKeys(s.gov.commitments, t.gov.commitments) :: Attendance(k.account, k.cid, k.cindex)
  }

  ghost function VotesFor(s: Chain, call: Call, t: Chain, id: nat): set<Attendance> {
    if call.VoteCall? && call.id == id then NewVotes(s, t) else {}
  }

  lemma SameSize(keys: set<Commitment>, purpose: nat, votes: set<Attendance>)
    requires forall k :: k in keys ==> k.purpose == purpose
    requires votes == set k | k in keys :: Attendance(k.account, k.cid, k.cindex)
    ensures |votes| == |keys|
  {
    if keys != {} {
      var k :| k in keys;
      var v := Attendance(k.account, k.cid, k.cindex);
      assert forall l :: l in keys && l != k ==> Attendance(l.account, l.cid, l.cindex) != v;
      assert votes - {v} == set l | l in keys - {k} :: Attendance(l.account, l.cid, l.cindex);
      SameSize(keys - {k}, purpose, votes - {v});
    }
  }

  ghost predicate CountedVote(rules: Rules, s: Chain, v: Attendance, id: nat) {
    && id in s.gov.proposals && id in s.gov.purposeIds
    && Attended(s, v)
    && !Committed(s, v, s.gov.purposeIds[id])
    && Eligible(rules.gov, s.gov.proposals[id], CC(v.cid, v.cindex))
  }

  /** A vote raises the turnout by the number of attendances it commits, all of them attended,
      eligible and not committed before; every other call leaves the turnout alone. */
  lemma VoteEffect(rules: Rules, s: Chain, call: Call, id: nat)
    requires Inv(rules, s) && CallOk(rules, s, call) && id in s.gov.proposals
    ensures var t := Apply(rules, s, call);
            && id in s.gov.tallies && id in t.gov.tallies
            && id in s.gov.purposeIds && id in t.gov.purposeIds && t.gov.purposeIds[id] == s.gov.purposeIds[id]
            && t.gov.tallies[id].turnout == s.gov.tallies[id].turnout + |VotesFor(s, call, t, id)|
            && (forall v :: v in VotesFor(s, call, t, id) ==>
                  CountedVote(rules, s, v, id) && Committed(t, v, s.gov.purposeIds[id]))
  {
    hide *;
    if call.VoteCall? {
      VoteCallEffect(rules, s, call, id);
    } else {
      QuietCallEffect(rules, s, call, id);
      NoVotesFor(s, call, Apply(rules, s, call), id);
    }
  }

  lemma NoVotesFor(s: Chain, call: Call, t: Chain, id: nat)
    ensures !call.VoteCall? ==> VotesFor(s, call, t, id) == {}
  {
  }

  // Other calls leave the turnout of an existing proposal alone.
  lemma QuietCallEffect(rules: Rules, s: Chain, call: Call, id: nat)
    requires Inv(rules, s) && CallOk(rules, s, call) && id in s.gov.proposals && !call.VoteCall?
    ensures var t := Apply(rules, s, call);
            && id in s.gov.tallies && id in t.gov.tallies && t.gov.tallies[id] == s.gov.tallies[id]
            && id in s.gov.purposeIds && id in t.gov.purposeIds && t.gov.purposeIds[id] == s.gov.purposeIds[id]
  {
    hide MJ.ClaimVerdict, RegisterParticipant, UpgradeRegistration, UnregisterParticipant, EndorseNewcomer,
         ClaimRewards,
         AssignAll, PurgeInactive, SeatInputsOk, PurgeRegistry, PurgeCommitments, Queued, CI.Inv, CastVote,
         UpdateProposal, Electorate, Action.Identifier, GI.InvExcept;
    GI.InvKeys(rules.gov, s.clock, s.gov);
    GI.KeySets(s.gov);
    if call.UpdateCall? && UpdateProposal(rules.gov, s.clock.now, s.gov, call.id).Ok? {
      GI.UpdateKeepsCommitments(rules.gov, s.clock.now, s.gov, call.id);
    }
  }

  lemma VoteCallEffect(rules: Rules, s: Chain, call: Call, id: nat)
    requires Inv(rules, s) && CallOk(rules, s, call) && id in s.gov.proposals && call.VoteCall?
    ensures var t := Apply(rules, s, call);
            && id in s.gov.tallies && id in t.gov.tallies
            && id in s.gov.purposeIds && id in t.gov.purposeIds && t.gov.purposeIds[id] == s.gov.purposeIds[id]
            && t.gov.tallies[id].turnout == s.gov.tallies[id].turnout + |VotesFor(s, call, t, id)|
            && (forall v :: v in VotesFor(s, call, t, id) ==>
                  CountedVote(rules, s, v, id) && Committed(t, v, s.gov.purposeIds[id]))
  {
    hide CI.Inv, CastVote, GI.InvExcept, CountedVote, Committed, Attended;
    GI.InvKeys(rules.gov, s.clock, s.gov);
    GI.KeySets(s.gov);
    if CastVote(rules.gov, s.clock, s.cer, s.gov, call.sender, call.id, call.vote, call.reputations).Ok? {
      VoteCounted(rules, s, call.sender, call.id, call.vote, call.reputations, id);
    } else {
      assert VotesFor(s, call, s, id) == {};
    }
  }

  lemma VoteCounted(rules: Rules, s: Chain, sender: Account, voted: nat, vote: Vote,
                    reputations: seq<CommunityCeremony>, id: nat)
    requires Inv(rules, s) && id in s.gov.proposals
    requires CastVote(rules.gov, s.clock, s.cer, s.gov, sender, voted, vote, reputations).Ok?
    ensures var gov := CastVote(rules.gov, s.clock, s.cer, s.gov, sender, voted, vote, reputations).value;
            var t := s.(gov := gov);
            && id in s.gov.tallies && id in gov.tallies && id in s.gov.purposeIds
            && gov.purposeIds == s.gov.purposeIds
            && gov.tallies[id].turnout == s.gov.tallies[id].turnout + (if id == voted then |NewVotes(s, t)| else 0)
            && (id == voted ==> forall v :: v in NewVotes(s, t) ==>
                  CountedVote(rules, s, v, id) && Committed(t, v, s.gov.purposeIds[id]))
  {
    hide CI.Inv, CastVote, UpdateProposal, CommitAll, Eligible, GI.InvExcept;
    var gov := CastVote(rules.gov, s.clock, s.cer, s.gov, sender, voted, vote, reputations).value;
    var t := s.(gov := gov);
    GI.VoteUnfolds(rules.gov, s.clock, s.cer, s.gov, sender, voted, vote, reputations);
    GI.KeySets(s.gov);
    var u := GI.VotedState(rules.gov, s.cer, s.gov, sender, voted, vote, reputations);
    GI.UpdateKeepsCommitments(rules.gov, s.clock.now, u, voted);
    CommitAllEffect(rules.gov, s.cer, s.gov.proposals[voted], s.gov.purposeIds[voted], sender,
                    s.gov.commitments, reputations);
    SameSize(NewKeys(s.gov.commitments, gov.commitments), s.gov.purposeIds[voted], NewVotes(s, t));
    forall v | v in NewVotes(s, t)
      ensures CountedVote(rules, s, v, voted) && Committed(t, v, s.gov.purposeIds[voted])
    {
      var k :| k in NewKeys(s.gov.commitments, gov.commitments) && v == Attendance(k.account, k.cid, k.cindex);
      assert k == KeyOf(v, s.gov.purposeIds[voted]);
      AttendedMeansVerified(s, v);
    }
  }

  lemma AttendedMeansVerified(s: Chain, v: Attendance)
    ensures Attended(s, v) <==> HasAttended(s.cer, v.account, CC(v.cid, v.cindex))
  {
  }

  // ---------- what happens to a counted attendance ----------

  // Counted votes stay committed, or their attendance is gone for good.
  ghost predicate Spent(s: Chain, v: Attendance, purpose: nat) {
    Committed(s, v, purpose) || !Attended(s, v)
  }

  lemma EligibleIsFrozen(rules: Rules, clock: Clock, proposal: Proposal, v: Attendance)
    requires 1 <= proposal.startCindex <= clock.cindex && Eligible(rules.gov, proposal, CC(v.cid, v.cindex))
    ensures CI.Frozen(clock, v.cindex)
  {
  }

  // Attendance records of frozen ceremonies can only disappear.
  lemma FrozenAttendance(rules: Rules, s: Chain, t: Chain, v: Attendance)
    requires Step(rules, s, t) && CI.Frozen(s.clock, v.cindex) && Attended(t, v)
    ensures Attended(s, v)
  {
    var cc := CC(v.cid, v.cindex);
    assert CI.HallStep(s.clock, cc.cindex, HallAt(s.cer, cc), HallAt(t.cer, cc));
  }

  /** A commitment disappears only together with the attendance it was made for. */
  lemma PurgedTogether(rules: Rules, s: Chain, call: Call, k: Commitment)
    requires Inv(rules, s) && CallOk(rules, s, call) && k in s.gov.commitments.commitments
    ensures var t := Apply(rules, s, call);
            k in t.gov.commitments.commitments || CC(k.cid, k.cindex) !in t.cer.halls
  {
    hide CI.Inv, CastVote, UpdateProposal, SubmitProposal, GI.InvExcept, AssignAll;
    match call {
      case VoteCall(sender, id, vote, reputations) =>
        var r := CastVote(rules.gov, s.clock, s.cer, s.gov, sender, id, vote, reputations);
        if r.Ok? {
          VoteOnlyAdds(rules, s, sender, id, vote, reputations);
        }
      case UpdateCall(id) =>
        if UpdateProposal(rules.gov, s.clock.now, s.gov, id).Ok? {
          GI.UpdateKeepsCommitments(rules.gov, s.clock.now, s.gov, id);
        }
      case SubmitCall(action) => SubmitOnlyAdds(rules, s, action);
      case _ =>
    }
  }

  lemma SubmitOnlyAdds(rules: Rules, s: Chain, action: Action)
    ensures var r := SubmitProposal(rules.gov, s.clock, s.cer, s.gov, action);
            r.Ok? ==> r.value.commitments.commitments == s.gov.commitments.commitments
  {
    hide Electorate, Action.Identifier;
  }

  lemma VoteOnlyAdds(rules: Rules, s: Chain, sender: Account, id: nat, vote: Vote, reputations: seq<CommunityCeremony>)
    requires Inv(rules, s)
    requires CastVote(rules.gov, s.clock, s.cer, s.gov, sender, id, vote, reputations).Ok?
    ensures var gov := CastVote(rules.gov, s.clock, s.cer, s.gov, sender, id, vote, reputations).value;
            s.gov.commitments.commitments.Keys <= gov.commitments.commitments.Keys
  {
    hide CI.Inv, CastVote, UpdateProposal, CommitAll, GI.InvExcept;
    GI.VoteUnfolds(rules.gov, s.clock, s.cer, s.gov, sender, id, vote, reputations);
    GI.KeySets(s.gov);
    var u := GI.VotedState(rules.gov, s.cer, s.gov, sender, id, vote, reputations);
    GI.UpdateKeepsCommitments(rules.gov, s.clock.now, u, id);
    CommitAllEffect(rules.gov, s.cer, s.gov.proposals[id], s.gov.purposeIds[id], sender, s.gov.commitments,
                    reputations);
  }

  lemma SpentStays(rules: Rules, s: Chain, call: Call, v: Attendance, purpose: nat)
    requires Inv(rules, s) && CallOk(rules, s, call) && GI.EmptyFails(rules.gov)
    requires CI.Frozen(s.clock, v.cindex) && Spent(s, v, purpose)
    ensures Spent(Apply(rules, s, call), v, purpose)
  {
    hide Apply, Inv, CallOk, Step;
    var t := Apply(rules, s, call);
    ApplyKeeps(rules, s, call);
    if Attended(t, v) {
      FrozenAttendance(rules, s, t, v);
      PurgedTogether(rules, s, call, KeyOf(v, purpose));
    }
  }

  // ---------- turnout over runs ----------

  // All attendances counted for a proposal in the first n calls.
  ghost function Voted(states: seq<Chain>, calls: seq<Call>, n: nat, id: nat): set<Attendance>
    requires n <= |calls| < |states|
  {
    if n == 0 then {}
    else Voted(states, calls, n - 1, id) + VotesFor(states[n - 1], calls[n - 1], states[n], id)
  }

  ghost predicate VoteRecord(rules: Rules, s: Chain, v: Attendance, id: nat)
    requires id in s.gov.proposals && id in s.gov.purposeIds
  {
    && Eligible(rules.gov, s.gov.proposals[id], CC(v.cid, v.cindex))
    && Spent(s, v, s.gov.purposeIds[id])
  }

  ghost predicate TurnoutExact(rules: Rules, states: seq<Chain>, calls: seq<Call>, n: nat, id: nat)
    requires n <= |calls| < |states|
  {
    var s := states[n];
    && id in s.gov.tallies && id in s.gov.purposeIds
    && s.gov.tallies[id].turnout == |Voted(states, calls, n, id)|
    && forall v :: v in Voted(states, calls, n, id) ==> id in s.gov.proposals && VoteRecord(rules, s, v, id)
  }

  // One more call keeps the count exact: what it adds was never counted before.
  lemma CountStaysExact(rules: Rules, states: seq<Chain>, calls: seq<Call>, n: nat, id: nat)
    requires IsRun(rules, states, calls) && n < |calls|
    requires id in states[n].gov.proposals && TurnoutExact(rules, states, calls, n, id)
    ensures TurnoutExact(rules, states, calls, n + 1, id)
    ensures VotesFor(states[n], calls[n], states[n + 1], id) !! Voted(states, calls, n, id)
  {
    hide Apply, CallOk, Inv, Step, Spent, Eligible, CI.Frozen, Attended, Committed, VotesFor;
    var s, t, call := states[n], states[n + 1], calls[n];
    RunKeeps(rules, states, calls, n);
    assert Next(rules, states[n], calls[n], states[n + 1]);
    VoteEffect(rules, s, call, id);
    ProposalKept(rules, s, t, id);
    var old', new' := Voted(states, calls, n, id), VotesFor(s, call, t, id);
    var purpose := s.gov.purposeIds[id];
    forall v | v in new' ensures v !in old' && VoteRecord(rules, t, v, id) {
      NewIsNotSpent(rules, s, v, id);
      CommittedIsSpent(t, v, purpose);
    }
    forall v | v in old' ensures VoteRecord(rules, t, v, id) {
      EligibleIsFrozen(rules, s.clock, s.gov.proposals[id], v);
      SpentStays(rules, s, call, v, purpose);
    }
  }

  lemma NewIsNotSpent(rules: Rules, s: Chain, v: Attendance, id: nat)
    requires CountedVote(rules, s, v, id)
    ensures !Spent(s, v, s.gov.purposeIds[id])
  {
  }

  lemma CommittedIsSpent(s: Chain, v: Attendance, purpose: nat)
    requires Committed(s, v, purpose)
    ensures Spent(s, v, purpose)
  {
  }

  lemma ProposalKept(rules: Rules, s: Chain, t: Chain, id: nat)
    requires Inv(rules, s) && Step(rules, s, t) && id in s.gov.proposals
    ensures id in t.gov.proposals
    ensures t.gov.proposals[id] == s.gov.proposals[id].(state := t.gov.proposals[id].state)
    ensures 1 <= s.gov.proposals[id].startCindex <= s.clock.cindex
    ensures forall cc :: Eligible(rules.gov, s.gov.proposals[id], cc) <==> Eligible(rules.gov, t.gov.proposals[id], cc)
  {
    hide CI.Inv, CI.Step, GI.StateOk, GI.QueueOk, GI.ApprovalOk, LifetimeCycles, Action.Electors;
    assert GI.ProposalStep(rules.gov, s.clock.now, s.gov, t.gov, id);
  }

  // A proposal enters with an empty tally.
  lemma FreshTurnout(rules: Rules, s: Chain, call: Call, id: nat)
    requires Inv(rules, s) && CallOk(rules, s, call) && id !in s.gov.proposals
    requires id in Apply(rules, s, call).gov.proposals
    ensures var t := Apply(rules, s, call);
            && id in t.gov.tallies && id in t.gov.purposeIds && t.gov.tallies[id] == Tally(0, 0)
            && call.SubmitCall? && t.cer == s.cer && t.clock == s.clock
            && t.gov.proposals[id].startCindex == s.clock.cindex && t.gov.proposals[id].start == s.clock.now
            && t.gov.proposals[id].action == call.action
            && Electorate(rules.gov, s.cer, s.clock.cindex, call.action) == Ok(t.gov.proposals[id].electorate)
            && VotesFor(s, call, t, id) == {}
  {
    hide MJ.ClaimVerdict, RegisterParticipant, UpgradeRegistration, UnregisterParticipant, EndorseNewcomer,
         ClaimRewards,
         AssignAll, PurgeInactive, SeatInputsOk, PurgeRegistry, PurgeCommitments, Queued, CI.Inv, CastVote,
             UpdateProposal, Electorate, Action.Identifier, GI.InvExcept;
    match call {
      case VoteCall(sender, voted, vote, reputations) =>
        var r := CastVote(rules.gov, s.clock, s.cer, s.gov, sender, voted, vote, reputations);
        if r.Ok? {
          GI.VoteUnfolds(rules.gov, s.clock, s.cer, s.gov, sender, voted, vote, reputations);
          GI.KeySets(s.gov);
          var u := GI.VotedState(rules.gov, s.cer, s.gov, sender, voted, vote, reputations);
          SameProposals(rules.gov, s.clock.now, u, voted);
        }
      case UpdateCall(other) =>
        if UpdateProposal(rules.gov, s.clock.now, s.gov, other).Ok? {
          SameProposals(rules.gov, s.clock.now, s.gov, other);
        }
      case _ =>
    }
  }

  lemma SameProposals(p: Parameters, now: Moment, s: Governance.State, id: nat)
    requires UpdateProposal(p, now, s, id).Ok?
    ensures UpdateProposal(p, now, s, id).value.proposals.Keys == s.proposals.Keys
  {
  }

  lemma {:induction false} NoVotesBefore(rules: Rules, states: seq<Chain>, calls: seq<Call>, n: nat, id: nat)
    requires IsRun(rules, states, calls) && n <= |calls| && id !in states[n].gov.proposals
    ensures Voted(states, calls, n, id) == {}
  {
    hide Apply, CallOk, Inv, Step;
    if n > 0 {
      RunKeeps(rules, states, calls, n - 1);
      assert Next(rules, states[n - 1], calls[n - 1], states[n - 1 + 1]);
      if id in states[n - 1].gov.proposals {
        ProposalKept(rules, states[n - 1], states[n], id);
      }
      NoVotesBefore(rules, states, calls, n - 1, id);
      StrangersGetNoVotes(rules, states[n - 1], calls[n - 1], id);
    }
  }

  lemma StrangersGetNoVotes(rules: Rules, s: Chain, call: Call, id: nat)
    requires Inv(rules, s) && CallOk(rules, s, call) && id !in s.gov.proposals
    ensures VotesFor(s, call, Apply(rules, s, call), id) == {}
  {
    hide CI.Inv, CastVote, GI.InvExcept, GI.QueueOk, GI.StateOk;
    if call.VoteCall? {
      var r := CastVote(rules.gov, s.clock, s.cer, s.gov, call.sender, call.id, call.vote, call.reputations);
      if r.Ok? {
        GI.VoteUnfolds(rules.gov, s.clock, s.cer, s.gov, call.sender, call.id, call.vote, call.reputations);
      }
    }
  }

  /** In every reachable state the turnout of a proposal is the number of distinct attendances
      counted for it: none adds twice, not even after its commitment was purged. */
  lemma {:induction false} TurnoutCountsOnce(rules: Rules, states: seq<Chain>, calls: seq<Call>, n: nat, id: nat)
    requires IsRun(rules, states, calls) && n <= |calls| && id in states[n].gov.proposals
    ensures TurnoutExact(rules, states, calls, n, id)
  {
    hide Apply, CallOk, Inv, Step, VoteRecord, VotesFor;
    assert n > 0;
    if id in states[n - 1].gov.proposals {
      TurnoutCountsOnce(rules, states, calls, n - 1, id);
      CountStaysExact(rules, states, calls, n - 1, id);
    } else {
      RunKeeps(rules, states, calls, n - 1);
      assert Next(rules, states[n - 1], calls[n - 1], states[n - 1 + 1]);
      NoVotesBefore(rules, states, calls, n - 1, id);
      FreshTurnout(rules, states[n - 1], calls[n - 1], id);
    }
  }
}
