/**
 What a ballot counts: everything its sender offers that may vote and was not committed yet, and
 nothing else; and when proposals and commitments go through.
 */
module Ballots {
  import opened Primitives
  import opened Hall
  import opened Ceremonies
  import opened Governance
  import opened Chain
  import opened Turnout
  import opened Electorate
  import CI = CeremonyInvariants
  import GI = GovernanceInvariants

  // ---------- commitments ----------

  /** A commitment goes through exactly for a registered purpose, an attendance on record and a key
      not committed yet; it is then on record with its hash, and nothing else changes. */
  lemma CommitExactly(c: Ceremonies.State, r: CommitmentRegistry, a: Account, cc: CommunityCeremony, purpose: nat,
                      hash: Option<nat>)
    ensures var result, key := CommitReputation(c, r, a, cc, purpose, hash), Commitment(cc.cid, cc.cindex, purpose, a);
            && (result.Ok? <==>
                  && purpose in r.purposes && key !in r.commitments
                  && a in HallAt(c, cc).VerifiedAccounts())
            && (result.Ok? ==>
                  && result.value.purposes == r.purposes && result.value.next == r.next
                  && (forall k :: k in result.value.commitments <==> k in r.commitments || k == key)
                  && forall k :: k in result.value.commitments ==>
                       result.value.commitments[k] == if k == key then hash else r.commitments[k])
  {
  }

  // The keys a ballot commits: of this account and purpose, offered, eligible and attended.
  ghost predicate Offered(p: Parameters, c: Ceremonies.State, proposal: Proposal, purpose: nat, a: Account,
                          reputations: seq<CommunityCeremony>, k: Commitment) {
    && k.purpose == purpose && k.account == a
    && CC(k.cid, k.cindex) in reputations
    && Eligible(p, proposal, CC(k.cid, k.cindex)) && HasAttended(c, a, CC(k.cid, k.cindex))
  }

  lemma {:induction false} CommitsAllOffered(p: Parameters, c: Ceremonies.State, proposal: Proposal, purpose: nat,
                                             a: Account, r: CommitmentRegistry, reputations: seq<CommunityCeremony>)
    requires purpose in r.purposes
    ensures var r' := CommitAll(p, c, proposal, purpose, a, r, reputations).0;
            && r'.purposes == r.purposes && r'.next == r.next
            && forall k :: k in r'.commitments <==>
                 k in r.commitments || Offered(p, c, proposal, purpose, a, reputations, k)
  {
    hide Eligible, HasAttended;
    if reputations != [] {
      var front, cc := reputations[..|reputations| - 1], reputations[|reputations| - 1];
      assert reputations == front + [cc];
      CommitsAllOffered(p, c, proposal, purpose, a, r, front);
      var key := Commitment(cc.cid, cc.cindex, purpose, a);
      forall k
        ensures Offered(p, c, proposal, purpose, a, reputations, k) <==>
                || Offered(p, c, proposal, purpose, a, front, k)
                || (k == key && Eligible(p, proposal, cc) && HasAttended(c, a, cc))
      {
        assert CC(k.cid, k.cindex) in reputations <==> CC(k.cid, k.cindex) in front || CC(k.cid, k.cindex) == cc;
      }
    }
  }

  // ---------- purposes of proposals ----------

  ghost predicate PurposesKnown(s: Governance.State) {
    forall id :: id in s.purposeIds ==> s.purposeIds[id] in s.commitments.purposes
  }

  lemma VoteKeepsPurposes(rules: Rules, s: Chain, call: Call)
    requires Inv(rules, s) && call.VoteCall? && PurposesKnown(s.gov)
    ensures var r := CastVote(rules.gov, s.clock, s.cer, s.gov, call.sender, call.id, call.vote, call.reputations);
            r.Ok? ==> PurposesKnown(r.value)
  {
    hide CI.Inv, CastVote, UpdateProposal, CommitAll, GI.InvExcept;
    if CastVote(rules.gov, s.clock, s.cer, s.gov, call.sender, call.id, call.vote, call.reputations).Ok? {
      GI.VoteUnfolds(rules.gov, s.clock, s.cer, s.gov, call.sender, call.id, call.vote, call.reputations);
      GI.KeySets(s.gov);
      var u := GI.VotedState(rules.gov, s.cer, s.gov, call.sender, call.id, call.vote, call.reputations);
      GI.UpdateKeepsCommitments(rules.gov, s.clock.now, u, call.id);
      CommitsAllOffered(rules.gov, s.cer, s.gov.proposals[call.id], s.gov.purposeIds[call.id], call.sender,
                        s.gov.commitments, call.reputations);
    }
  }

  lemma SubmitKeepsPurposes(rules: Rules, s: Chain, action: Action)
    requires PurposesKnown(s.gov)
    ensures var r := SubmitProposal(rules.gov, s.clock, s.cer, s.gov, action);
            r.Ok? ==> PurposesKnown(r.value)
  {
    hide Governance.Electorate, Action.Identifier;
  }

  lemma CallKeepsPurposes(rules: Rules, s: Chain, call: Call)
    requires Inv(rules, s) && CallOk(rules, s, call) && PurposesKnown(s.gov)
    ensures PurposesKnown(Apply(rules, s, call).gov)
  {
    hide CI.Inv, CastVote, UpdateProposal, SubmitProposal, GI.InvExcept, AssignAll, SeatInputsOk, PurgeInactive;
    if call.VoteCall? {
      VoteKeepsPurposes(rules, s, call);
    } else if call.SubmitCall? {
      SubmitKeepsPurposes(rules, s, call.action);
    } else if call.UpdateCall? && UpdateProposal(rules.gov, s.clock.now, s.gov, call.id).Ok? {
      GI.UpdateKeepsCommitments(rules.gov, s.clock.now, s.gov, call.id);
    }
  }

  // In every reachable state the purpose of every proposal is registered.
  lemma {:induction false} PurposesInEveryState(rules: Rules, states: seq<Chain>, calls: seq<Call>, n: nat)
    requires IsRun(rules, states, calls) && n <= |calls|
    ensures PurposesKnown(states[n].gov)
  {
    hide Inv, Step, Apply, CallOk;
    if n > 0 {
      PurposesInEveryState(rules, states, calls, n - 1);
      RunKeeps(rules, states, calls, n - 1);
      assert Next(rules, states[n - 1], calls[n - 1], states[n - 1 + 1]);
      CallKeepsPurposes(rules, states[n - 1], calls[n - 1]);
    }
  }

  // ---------- ballots ----------

  /** A vote that goes through counts exactly the offered attendances of its sender that can vote
      and are not committed yet: each raises the turnout by one, and on an aye the ayes as well. */
  lemma BallotCounts(rules: Rules, s: Chain, call: Call)
    requires Inv(rules, s) && call.VoteCall? && PurposesKnown(s.gov)
    requires CastVote(rules.gov, s.clock, s.cer, s.gov, call.sender, call.id, call.vote, call.reputations).Ok?
    ensures var t, id := Apply(rules, s, call), call.id;
            var counted := VotesFor(s, call, t, id);
            && id in s.gov.tallies && id in s.gov.purposeIds && t.gov.tallies.Keys == s.gov.tallies.Keys
            && t.gov.tallies[id] == Tally(s.gov.tallies[id].turnout + |counted|,
                                          s.gov.tallies[id].ayes + if call.vote == Aye then |counted| else 0)
            && (forall other :: other in s.gov.tallies && other != id ==> t.gov.tallies[other] == s.gov.tallies[other])
            && forall v :: v in counted <==>
                 && v.account == call.sender && CC(v.cid, v.cindex) in call.reputations
                 && CanVote(rules, s, id, v) && !Committed(s, v, s.gov.purposeIds[id])
  {
    hide CI.Inv, CastVote, UpdateProposal, CommitAll, Eligible, HasAttended, Attended, GI.InvExcept;
    var t, id, r := Apply(rules, s, call), call.id, s.gov.commitments;
    GI.VoteUnfolds(rules.gov, s.clock, s.cer, s.gov, call.sender, id, call.vote, call.reputations);
    GI.KeySets(s.gov);
    var proposal, purpose := s.gov.proposals[id], s.gov.purposeIds[id];
    var u := GI.VotedState(rules.gov, s.cer, s.gov, call.sender, id, call.vote, call.reputations);
    GI.UpdateKeepsCommitments(rules.gov, s.clock.now, u, id);
    CommitAllEffect(rules.gov, s.cer, proposal, purpose, call.sender, r, call.reputations);
    CommitsAllOffered(rules.gov, s.cer, proposal, purpose, call.sender, r, call.reputations);
    SameSize(NewKeys(r, t.gov.commitments), purpose, NewVotes(s, t));
    forall v ensures v in NewVotes(s, t) <==>
                     && v.account == call.sender && CC(v.cid, v.cindex) in call.reputations
                     && CanVote(rules, s, id, v) && !Committed(s, v, purpose)
    {
      AttendedMeansVerified(s, v);
      VoteOfKey(s, t, purpose, v);
      assert KeyOf(v, purpose) in NewKeys(r, t.gov.commitments) <==>
             KeyOf(v, purpose) !in r.commitments &&
             Offered(rules.gov, s.cer, proposal, purpose, call.sender, call.reputations, KeyOf(v, purpose));
    }
  }

  lemma VoteOfKey(s: Chain, t: Chain, purpose: nat, v: Attendance)
    requires forall k :: k in NewKeys(s.gov.commitments, t.gov.commitments) ==> k.purpose == purpose
    ensures v in NewVotes(s, t) <==> KeyOf(v, purpose) in NewKeys(s.gov.commitments, t.gov.commitments)
  {
    if v in NewVotes(s, t) {
      var k :| k in NewKeys(s.gov.commitments, t.gov.commitments) && v == Attendance(k.account, k.cid, k.cindex);
      assert k == KeyOf(v, purpose);
    }
    if KeyOf(v, purpose) in NewKeys(s.gov.commitments, t.gov.commitments) {
      assert v == Attendance(KeyOf(v, purpose).account, KeyOf(v, purpose).cid, KeyOf(v, purpose).cindex);
    }
  }

  // ---------- submission ----------

  /** A proposal goes through exactly if none of its kind waits for enactment, the cycle length is
      known, and there is a free id and a free purpose. Only the new proposal is added: ongoing,
      with no votes, under a purpose of its own. */
  lemma SubmitExactly(p: Parameters, clock: Clock, c: Ceremonies.State, s: Governance.State, action: Action)
    ensures var r, id := SubmitProposal(p, clock, c, s, action), s.proposalCount + 1;
            && (r.Ok? <==>
                  && action.Identifier() !in s.queue && LifetimeCycles(p).Ok?
                  && s.proposalCount < U128_MAX && s.commitments.next < U64_MAX)
            && (r.Ok? ==>
                  && id in r.value.proposals && id in r.value.purposeIds && id in r.value.tallies
                  && r.value.proposalCount == id
                  && r.value.purposeIds[id] == s.commitments.next && r.value.tallies[id] == Tally(0, 0)
                  && r.value.proposals[id] ==
                     Proposal(clock.now, clock.cindex, action, Ongoing, r.value.proposals[id].electorate)
                  && r.value.commitments.commitments == s.commitments.commitments
                  && r.value.commitments.next == s.commitments.next + 1
                  && r.value.queue == s.queue && r.value.lastApproved == s.lastApproved
                  && forall other :: other in s.proposals && other != id ==>
                       other in r.value.proposals && r.value.proposals[other] == s.proposals[other])
  {
    hide Action.Identifier, SumCounts, LifetimeCycles;
  }

  // ---------- kinds of actions ----------

  predicate SameKind(a: Action, b: Action) {
    || (a.AddLocation? && b.AddLocation?) || (a.RemoveLocation? && b.RemoveLocation?)
    || (a.UpdateCommunityMetadata? && b.UpdateCommunityMetadata?) || (a.UpdateDemurrage? && b.UpdateDemurrage?)
    || (a.UpdateNominalIncome? && b.UpdateNominalIncome?)
    || (a.SetInactivityTimeout? && b.SetInactivityTimeout?) || (a.Petition? && b.Petition?)
    || (a.SpendNative? && b.SpendNative?) || (a.IssueSwapNativeOption? && b.IssueSwapNativeOption?)
    || (a.SpendAsset? && b.SpendAsset?) || (a.IssueSwapAssetOption? && b.IssueSwapAssetOption?)
  }

  /** Actions share an identifier, and so a queue and an approval record, exactly if they are of the
      same kind and the same community, whatever their arguments. Settings supersede each other;
      petitions, payments and swap options never do. */
  lemma IdentifiersTell(a: Action, b: Action)
    ensures a.Identifier() == b.Identifier() <==> SameKind(a, b) && a.Electors() == b.Electors()
    ensures SameKind(a, b) ==> a.Supersedes() == b.Supersedes()
    ensures a.Supersedes() <==>
            !(a.Petition? || a.SpendNative? || a.IssueSwapNativeOption? || a.SpendAsset? || a.IssueSwapAssetOption?)
  {
  }
}
