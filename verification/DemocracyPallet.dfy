/**
 The storage of the democracy pallet, updated in place. A dispatchable call restores the
 storage when it fails; the phase-change hook is never rolled back.
 */
module DemocracyPallet {
  import opened Primitives
  import opened Hall
  import opened Ceremonies
  import opened Governance
  import CommitmentsPallet

  // A call ends as its specification says, and a failing call changes nothing.
  ghost predicate Outcome(before: Governance.State, spec: Result<Governance.State, Governance.Error>,
                          result: Result<(), Governance.Error>, after: Governance.State)
  {
    match spec
    case Ok(s) => result == Ok(()) && after == s
    case Err(e) => result == Err(e) && after == before
  }

  // The proposals after those in `done` had their turn.
  function Settled(proposals: map<nat, Proposal>, done: set<nat>, succeeding: set<nat>): map<nat, Proposal> {
    map id | id in proposals ::
      if id in done && id in succeeding then proposals[id].(state := Enacted) else proposals[id]
  }

  ghost predicate QueuedOutside(queue: map<ActionIdentifier, seq<nat>>, rest: map<ActionIdentifier, seq<nat>>,
                                id: nat) {
    exists k | k in queue :: k !in rest && id in queue[k]
  }

  class Pallet {
    const registry: CommitmentsPallet.Pallet
    var proposals: map<nat, Proposal>
    var tallies: map<nat, Tally>
    var purposeIds: map<nat, nat>
    var proposalCount: nat
    var lastApproved: map<ActionIdentifier, (Moment, nat)>
    var queue: map<ActionIdentifier, seq<nat>>

    function View(): Governance.State
      reads this, registry
    {
      Governance.State(registry.View(), proposals, tallies, purposeIds, proposalCount, lastApproved, queue)
    }

    constructor (registry: CommitmentsPallet.Pallet)
      ensures this.registry == registry
      ensures View() == Governance.State(registry.View(), map[], map[], map[], 0, map[], map[])
    {
      this.registry := registry;
      proposals, tallies, purposeIds, proposalCount, lastApproved, queue := map[], map[], map[], 0, map[], map[];
    }

    // The storage layer's rollback.
    method Restore(s: Governance.State)
      modifies this, registry
      ensures View() == s
    {
      registry.currentPurposeId := s.commitments.next;
      registry.purposes := s.commitments.purposes;
      registry.commitments := s.commitments.commitments;
      proposals, tallies, purposeIds := s.proposals, s.tallies, s.purposeIds;
      proposalCount, lastApproved, queue := s.proposalCount, s.lastApproved, s.queue;
    }

    method GetElectorate(p: Parameters, cer: Ceremonies.State, start: nat, action: Action)
      returns (result: Result<nat, Governance.Error>)
      ensures result == Electorate(p, cer, start, action)
    {
      var cycles := LifetimeCycles(p);
      if cycles.Err? {
        return Err(cycles.error);
      }
      var lo, hi := VotingFrom(p, start, cycles.value), VotingTo(start);
      var sum, i := 0, lo;
      while i <= hi
        invariant lo <= i
        invariant sum + SumCounts(cer, action.Electors(), i, hi) == SumCounts(cer, action.Electors(), lo, hi)
      {
        sum := sum + CountAt(cer, action.Electors(), i);
        i := i + 1;
      }
      return Ok(sum);
    }

    method SubmitProposal(p: Parameters, clock: Clock, cer: Ceremonies.State, action: Action)
      returns (result: Result<(), Governance.Error>)
      modifies this, registry
      ensures Outcome(old(View()), Governance.SubmitProposal(p, clock, cer, old(View()), action), result, View())
    {
      if action.Identifier() in queue {
        return Err(ProposalWaitingForEnactment);
      }
      var next := proposalCount + 1;
      if next > U128_MAX {
        return Err(ProposalIdOutOfBounds);
      }
      var electorate := GetElectorate(p, cer, clock.cindex, action);
      if electorate.Err? {
        return Err(electorate.error);
      }
      var purpose := registry.DoRegisterPurpose(next);
      if purpose.Err? {
        return Err(purpose.error);
      }
      proposals := proposals[next := Proposal(clock.now, clock.cindex, action, Ongoing, electorate.value)];
      purposeIds := purposeIds[next := purpose.value];
      proposalCount := next;
      tallies := tallies[next := Tally(0, 0)];
      return Ok(());
    }

    method ValidateAndCommitReputations(p: Parameters, cer: Ceremonies.State, id: nat, account: Account,
                                        reputations: seq<CommunityCeremony>)
      returns (result: Result<nat, Governance.Error>)
      modifies registry
      ensures match CommitVotes(p, cer, old(View()), id, account, reputations) {
                case Ok((s, n)) => result == Ok(n) && View() == s
                case Err(e) => result == Err(e) && View() == old(View())
              }
    {
      if id !in proposals || id !in purposeIds {
        return Err(InexistentProposal);
      }
      var proposal, purpose := proposals[id], purposeIds[id];
      var electors := proposal.action.Electors();
      var count := 0;
      for n := 0 to |reputations|
        invariant n > 0 ==> LifetimeCycles(p).Ok?
        invariant (registry.View(), count) ==
                  CommitAll(p, cer, proposal, purpose, account, old(registry.View()), reputations[..n])
      {
        assert reputations[..n + 1][..n] == reputations[..n] && reputations[..n + 1][n] == reputations[n];
        var cycles := LifetimeCycles(p);
        if cycles.Err? {
          assert n == 0;
          return Err(cycles.error);
        }
        var cc := reputations[n];
        if VotingFrom(p, proposal.startCindex, cycles.value) <= cc.cindex <= VotingTo(proposal.startCindex) {
          if electors.None? || electors.value == cc.cid {
            var committed := registry.DoCommitReputation(cer, account, cc, purpose, None);
            if committed.Ok? {
              count := count + 1;
            }
          }
        }
      }
      assert reputations[..|reputations|] == reputations;
      return Ok(count);
    }

    // Whether the current tally passes.
    function IsPassing(p: Parameters, id: nat): Result<bool, Governance.Error>
      reads this
    {
      if id !in tallies then Err(InexistentProposal)
      else if id !in proposals then Err(InexistentProposal)
      else TallyPasses(p, proposals[id].electorate, tallies[id])
    }

    method DoUpdateProposalState(p: Parameters, now: Moment, id: nat) returns (result: Result<bool, Governance.Error>)
      modifies this
      ensures match UpdateProposal(p, now, old(View()), id) {
                case Ok(s) => result == Ok(s.proposals[id].state.Approved?) && View() == s
                case Err(e) => result == Err(e) && View() == old(View())
              }
    {
      if id !in proposals {
        return Err(InexistentProposal);
      }
      var proposal := proposals[id];
      if !proposal.state.CanUpdate() {
        return Err(ProposalCannotBeUpdated);
      }
      var approved := false;
      var k := proposal.action.Identifier();
      var last := if k in lastApproved then Some(lastApproved[k]) else None;
      var tooOld := now > proposal.start + p.proposalLifetime;
      if proposal.action.Supersedes() && last.Some? && proposal.start < last.value.0 {
        proposal := proposal.(state := SupersededBy(last.value.1));
      } else {
        var passing := IsPassing(p, id);
        if passing.Err? {
          return Err(passing.error);
        }
        if passing.value {
          if proposal.state.Confirming? {
            if SatSub(now, proposal.state.since) > p.confirmationPeriod {
              proposal := proposal.(state := Approved);
              var ids := if k in queue then queue[k] else [];
              if |ids| < QUEUE_MAX {
                queue := queue[k := ids + [id]];
              }
              lastApproved := lastApproved[k := (now, id)];
              approved := true;
            }
          } else if tooOld {
            proposal := proposal.(state := Rejected);
          } else {
            proposal := proposal.(state := Confirming(now));
          }
        } else if tooOld {
          proposal := proposal.(state := Rejected);
        } else if proposal.state.Confirming? {
          proposal := proposal.(state := Ongoing);
        }
      }
      proposals := proposals[id := proposal];
      return Ok(approved);
    }

    // The body of a vote; an error may leave storage half written.
    method TryVote(p: Parameters, clock: Clock, cer: Ceremonies.State, sender: Account, id: nat, vote: Vote,
                   reputations: seq<CommunityCeremony>)
      returns (result: Result<(), Governance.Error>)
      modifies this, registry
      ensures match CastVote(p, clock, cer, old(View()), sender, id, vote, reputations) {
                case Ok(s) => result == Ok(()) && View() == s
                case Err(e) => result == Err(e)
              }
    {
      hide UpdateProposal, CommitVotes;
      if id !in tallies {
        return Err(InexistentProposal);
      }
      var tally := tallies[id];
      var first := DoUpdateProposalState(p, clock.now, id);
      if first.Err? {
        return Err(first.error);
      }
      var votes := ValidateAndCommitReputations(p, cer, id, sender, reputations);
      if votes.Err? {
        return Err(votes.error);
      }
      var ayes := match vote { case Aye => votes.value case Nay => 0 };
      if tally.turnout + votes.value > U128_MAX || tally.ayes + ayes > U128_MAX {
        return Err(VoteCountOverflow);
      }
      tallies := tallies[id := Tally(tally.turnout + votes.value, tally.ayes + ayes)];
      var second := DoUpdateProposalState(p, clock.now, id);
      if second.Err? {
        return Err(second.error);
      }
      return Ok(());
    }

    method Vote(p: Parameters, clock: Clock, cer: Ceremonies.State, sender: Account, id: nat, vote: Vote,
                reputations: seq<CommunityCeremony>)
      returns (result: Result<(), Governance.Error>)
      modifies this, registry
      ensures Outcome(old(View()), CastVote(p, clock, cer, old(View()), sender, id, vote, reputations), result, View())
    {
      hide CastVote;
      var before := View();
      result := TryVote(p, clock, cer, sender, id, vote, reputations);
      if result.Err? {
        Restore(before);
      }
    }

    // Whether the action takes effect is an input.
    method EnactProposal(id: nat, succeeding: set<nat>)
      modifies this`proposals
      ensures proposals == Settled(old(proposals), {id}, succeeding)
    {
      if id in proposals && id in succeeding {
        proposals := proposals[id := proposals[id].(state := Enacted)];
      }
    }

    method EnactQueue(ids: seq<nat>, succeeding: set<nat>)
      modifies this`proposals
      ensures proposals == Settled(old(proposals), (set id | id in ids), succeeding)
    {
      for n := 0 to |ids|
        invariant proposals == Settled(old(proposals), (set id | id in ids[..n]), succeeding)
      {
        EnactProposal(ids[n], succeeding);
        assert ids[..n + 1] == ids[..n] + [ids[n]];
      }
      assert ids[..|ids|] == ids;
    }

    // The hook on entering the assigning phase: the whole queue, in storage order.
    method OnAssigning(succeeding: set<nat>)
      modifies this
      ensures View() == EnactAll(old(View()), succeeding)
    {
      hide Settled, Done, EnactAll;
      var rest := queue;
      ghost var done: set<nat> := {};
      NoneDone(View(), succeeding);
      while rest != map[]
        invariant unchanged(this`tallies, this`purposeIds, this`proposalCount, this`lastApproved, this`queue)
        invariant Done(queue, rest, done)
        invariant proposals == Settled(old(proposals), done, succeeding)
        decreases |rest|
      {
        var k :| k in rest;
        EnactQueue(rest[k], succeeding);
        SettledTwice(old(proposals), done, (set id | id in rest[k]), succeeding);
        MoreDone(queue, rest, k, done);
        done := done + (set id | id in rest[k]);
        rest := rest - {k};
      }
      AllDone(old(View()), done, succeeding);
      queue := map[];
    }
  }

  // The ids that had their turn are those queued under the keys visited.
  ghost predicate Done(queue: map<ActionIdentifier, seq<nat>>, rest: map<ActionIdentifier, seq<nat>>, done: set<nat>) {
    && (forall k :: k in rest ==> k in queue && rest[k] == queue[k])
    && (forall id :: id in done <==> QueuedOutside(queue, rest, id))
  }

  lemma SettledTwice(proposals: map<nat, Proposal>, done: set<nat>, more: set<nat>, succeeding: set<nat>)
    ensures Settled(Settled(proposals, done, succeeding), more, succeeding) ==
            Settled(proposals, done + more, succeeding)
  {
  }

  lemma NoneDone(s: Governance.State, succeeding: set<nat>)
    ensures Done(s.queue, s.queue, {}) && Settled(s.proposals, {}, succeeding) == s.proposals
  {
  }

  lemma AllDone(s: Governance.State, done: set<nat>, succeeding: set<nat>)
    requires Done(s.queue, map[], done)
    ensures s.(proposals := Settled(s.proposals, done, succeeding), queue := map[]) == EnactAll(s, succeeding)
  {
    forall id: nat ensures id in done <==> Queued(s, id) {
      assert QueuedOutside(s.queue, map[], id) <==> Queued(s, id);
    }
  }

  lemma MoreDone(queue: map<ActionIdentifier, seq<nat>>, rest: map<ActionIdentifier, seq<nat>>, k: ActionIdentifier,
                 done: set<nat>)
    requires k in rest && Done(queue, rest, done)
    ensures Done(queue, rest - {k}, done + (set id | id in rest[k]))
    ensures |rest - {k}| < |rest|
  {
    MoreOutside(queue, rest, k);
  }

  lemma MoreOutside(queue: map<ActionIdentifier, seq<nat>>, rest: map<ActionIdentifier, seq<nat>>, k: ActionIdentifier)
    requires k in rest && k in queue && rest[k] == queue[k]
    ensures forall id: nat :: QueuedOutside(queue, rest - {k}, id) <==> QueuedOutside(queue, rest, id) || id in queue[k]
    ensures |rest - {k}| < |rest|
  {
    assert (rest - {k}).Keys == rest.Keys - {k};
    assert |(rest - {k}).Keys| == |rest - {k}| && |rest.Keys| == |rest|;
    forall id: nat | QueuedOutside(queue, rest, id) || id in queue[k] ensures QueuedOutside(queue, rest - {k}, id) {
      if id in queue[k] {
        assert k in queue && k !in rest - {k};
      } else {
        var j :| j in queue && j !in rest && id in queue[j];
        assert j !in rest - {k};
      }
    }
  }
}
