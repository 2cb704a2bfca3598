/**
 A minimum turnout of zero. The quorum of no votes divides by the root of the turnout and has no
 result, so the first vote on a proposal fails like every update, and nothing is ever decided.
 */
module NoMinimum {
  import opened Primitives
  import opened Ceremonies
  import opened Governance
  import opened Chain
  import VoteGuards
  import CI = CeremonyInvariants
  import GI = GovernanceInvariants

  ghost predicate Undecidable(p: Parameters) {
    p.minTurnout == 0 && forall electorate: nat :: p.bias(electorate, 0, 0).None?
  }

  ghost predicate Untouched(s: GI.GState) {
    && s.lastApproved == map[] && s.queue == map[]
    && s.tallies.Keys == s.proposals.Keys
    && forall id :: id in s.proposals ==> s.proposals[id].state == Ongoing && s.tallies[id] == Tally(0, 0)
  }

  lemma UpdateFails(p: Parameters, now: Moment, s: GI.GState, id: nat)
    requires Undecidable(p) && Untouched(s)
    ensures UpdateProposal(p, now, s, id).Err?
  {
    hide Action.Identifier, Action.Supersedes;
    if id in s.proposals && s.proposals[id].electorate > 0 {
      assert 0 / s.proposals[id].electorate == 0;
    }
  }

  lemma GovernanceUntouched(rules: Rules, s: Chain, call: Call)
    requires CallOk(rules, s, call) && Undecidable(rules.gov) && Untouched(s.gov)
    ensures Untouched(Apply(rules, s, call).gov)
  {
    hide CI.Inv, CastVote, UpdateProposal, SubmitProposal, AssignAll, SeatInputsOk, PurgeInactive;
    if call.VoteCall? {
      VoteFails(rules, s, call);
    } else if call.UpdateCall? {
      UpdateFails(rules.gov, s.clock.now, s.gov, call.id);
    } else if call.SubmitCall? {
      SubmitUntouched(rules, s, call.action);
    }
  }

  lemma VoteFails(rules: Rules, s: Chain, call: Call)
    requires Undecidable(rules.gov) && Untouched(s.gov) && call.VoteCall?
    ensures CastVote(rules.gov, s.clock, s.cer, s.gov, call.sender, call.id, call.vote, call.reputations).Err?
  {
    hide UpdateProposal;
    UpdateFails(rules.gov, s.clock.now, s.gov, call.id);
  }

  lemma SubmitUntouched(rules: Rules, s: Chain, action: Action)
    requires Untouched(s.gov)
    ensures var r := SubmitProposal(rules.gov, s.clock, s.cer, s.gov, action);
            r.Ok? ==> Untouched(r.value)
  {
    hide Governance.Electorate, Action.Identifier;
  }

  /** Without a minimum turnout every proposal of every run stays open without a vote for good. */
  lemma {:induction false} NothingIsDecided(rules: Rules, states: seq<Chain>, calls: seq<Call>, n: nat)
    requires IsRun(rules, states, calls) && n <= |calls| && Undecidable(rules.gov)
    ensures Untouched(states[n].gov)
  {
    hide Inv, Step, Apply, CallOk;
    if n > 0 {
      NothingIsDecided(rules, states, calls, n - 1);
      assert Next(rules, states[n - 1], calls[n - 1], states[n - 1 + 1]);
      GovernanceUntouched(rules, states[n - 1], calls[n - 1]);
    }
  }
}
