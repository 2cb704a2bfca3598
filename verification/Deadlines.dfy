/**
 Deadlines over whole runs: what an update makes of a proposal at which time, when proposals are
 rejected, who supersedes whom, and how an approval leads to enactment.
 */
module Deadlines {
  import opened Primitives
  import opened Arithmetic
  import opened Ceremonies
  import opened Governance
  import opened Chain
  import opened Lifecycle
  import opened VoteGuards
  import CI = CeremonyInvariants
  import GI = GovernanceInvariants

  function Deadline(p: Parameters, proposal: Proposal): Moment {
    proposal.start + p.proposalLifetime
  }

  // What an open proposal becomes: confirmation must begin by the deadline, and may run beyond it.
  predicate Decides(p: Parameters, now: Moment, proposal: Proposal, passes: bool, st: ProposalState) {
    match proposal.state
    case Ongoing =>
      st == if now > Deadline(p, proposal) then Rejected else if passes then Confirming(now) else Ongoing
    case Confirming(since) =>
      if passes then st == if now > since + p.confirmationPeriod then Approved else Confirming(since)
      else st == if now > Deadline(p, proposal) then Rejected else Ongoing
    case _ => false
  }

  function Verdict(p: Parameters, s: GI.GState, id: nat): Result<bool, Governance.Error>
    requires id in s.proposals && id in s.tallies
  {
    TallyPasses(p, s.proposals[id].electorate, s.tallies[id])
  }

  /** An update of an open proposal: superseded ones are closed as such; any other is decided by its
      tally and its deadline, and the update fails exactly if the quorum cannot be computed. */
  lemma UpdateDecides(p: Parameters, now: Moment, s: GI.GState, id: nat)
    requires id in s.proposals && id in s.tallies && s.proposals[id].state.CanUpdate()
    ensures var r, proposal := UpdateProposal(p, now, s, id), s.proposals[id];
            && (r.Ok? <==> Superseded(s, proposal) || Verdict(p, s, id).Ok?)
            && (r.Ok? ==>
                  && id in r.value.proposals
                  && var st := r.value.proposals[id].state;
                     && (Superseded(s, proposal) ==>
                           st == SupersededBy(LastApproved(s, proposal.action.Identifier()).value.1))
                     && (!Superseded(s, proposal) ==> Decides(p, now, proposal, Verdict(p, s, id).value, st)))
  {
    hide TallyPasses, Action.Identifier, Action.Supersedes;
  }

  predicate InQueue(s: GI.GState, k: ActionIdentifier, id: nat) {
    k in s.queue && id in s.queue[k]
  }

  /** Nothing else changes but, on approval, the queue and the approval record of the same kind. */
  lemma UpdateOnly(p: Parameters, now: Moment, s: GI.GState, id: nat)
    requires UpdateProposal(p, now, s, id).Ok?
    ensures id in s.proposals
    ensures var t, k := UpdateProposal(p, now, s, id).value, s.proposals[id].action.Identifier();
            && t.proposals.Keys == s.proposals.Keys
            && (forall i :: i in s.proposals && i != id ==> t.proposals[i] == s.proposals[i])
            && t.proposals[id] == s.proposals[id].(state := t.proposals[id].state)
            && t.tallies == s.tallies && t.purposeIds == s.purposeIds && t.commitments == s.commitments
            && t.proposalCount == s.proposalCount
            && t.lastApproved ==
               (if t.proposals[id].state.Approved? then s.lastApproved[k := (now, id)] else s.lastApproved)
            && forall i: nat, j: ActionIdentifier ::
                 InQueue(t, j, i) <==>
                 || InQueue(s, j, i)
                 || (t.proposals[id].state.Approved? && i == id && j == k
                     && (k in s.queue ==> |s.queue[k]| < QUEUE_MAX))
  {
    hide TallyPasses, Action.Identifier, Action.Supersedes;
  }

  // ---------- one call ----------

  predicate EntersAssigning(s: Chain, call: Call) {
    call.PhaseChange? && s.clock.phase == Registering
  }

  // Why a call may change the state of a proposal.
  ghost predicate Moved(rules: Rules, s: Chain, call: Call, t: Chain, id: nat)
    requires id in s.gov.proposals && id in t.gov.proposals
  {
    var proposal, st := s.gov.proposals[id], t.gov.proposals[id].state;
    || st == proposal.state
    || (call.PhaseChange? && s.clock.phase == Registering && proposal.state == Approved && st == Enacted)
    || (proposal.state.CanUpdate() && (call == UpdateCall(id) || (call.VoteCall? && call.id == id))
        && if Superseded(s.gov, proposal)
           then st == SupersededBy(LastApproved(s.gov, proposal.action.Identifier()).value.1)
           else Decides(rules.gov, s.clock.now, proposal, Passes(rules, t, id), st))
  }

  lemma UpdateMoves(rules: Rules, s: Chain, call: Call, u: GI.GState, other: nat, id: nat)
    requires id in s.gov.proposals && s.gov.tallies.Keys == s.gov.proposals.Keys
    requires call == UpdateCall(other) || (call.VoteCall? && call.id == other)
    requires u == s.gov.(tallies := u.tallies, commitments := u.commitments) && u.tallies.Keys == s.gov.tallies.Keys
    requires UpdateProposal(rules.gov, s.clock.now, u, other).Ok?
    ensures id in UpdateProposal(rules.gov, s.clock.now, u, other).value.proposals
    ensures Moved(rules, s, call, s.(gov := UpdateProposal(rules.gov, s.clock.now, u, other).value), id)
  {
    hide UpdateProposal, TallyPasses, Action.Identifier, Action.Supersedes, Decides;
    UpdateOnly(rules.gov, s.clock.now, u, other);
    if other == id {
      GI.UpdateNeedsOpen(rules.gov, s.clock.now, u, id);
      UpdateDecides(rules.gov, s.clock.now, u, id);
    }
  }

  lemma EnactMoves(s: Chain, succeeding: set<nat>, id: nat)
    requires GI.QueueOk(s.gov) && id in s.gov.proposals
    ensures var t := EnactAll(s.gov, succeeding);
            && id in t.proposals
            && (t.proposals[id].state == s.gov.proposals[id].state
                || (s.gov.proposals[id].state == Approved && t.proposals[id].state == Enacted))
            && (t.proposals[id].state == Enacted <==>
                  s.gov.proposals[id].state == Enacted || (Queued(s.gov, id) && id in succeeding))
  {
    if Queued(s.gov, id) {
      var k :| k in s.gov.queue && id in s.gov.queue[k];
      assert GI.SlotOk(s.gov, k, s.gov.queue[k]);
    }
  }

  lemma VoteMoves(rules: Rules, s: Chain, call: Call, id: nat)
    requires Inv(rules, s) && call.VoteCall? && id in s.gov.proposals
    ensures id in Apply(rules, s, call).gov.proposals
    ensures Moved(rules, s, call, Apply(rules, s, call), id)
  {
    hide CI.Inv, CastVote, UpdateProposal, GI.InvExcept, Moved, Action.Identifier, Action.Supersedes;
    if CastVote(rules.gov, s.clock, s.cer, s.gov, call.sender, call.id, call.vote, call.reputations).Ok? {
      GI.VoteUnfolds(rules.gov, s.clock, s.cer, s.gov, call.sender, call.id, call.vote, call.reputations);
      GI.KeySets(s.gov);
      var u := GI.VotedState(rules.gov, s.cer, s.gov, call.sender, call.id, call.vote, call.reputations);
      UpdateMoves(rules, s, call, u, call.id, id);
    } else {
      StaysPut(rules, s, call, s, id);
    }
  }

  lemma HookMoves(rules: Rules, s: Chain, call: Call, id: nat)
    requires Inv(rules, s) && CallOk(rules, s, call) && EntersAssigning(s, call) && id in s.gov.proposals
    ensures id in Apply(rules, s, call).gov.proposals
    ensures Moved(rules, s, call, Apply(rules, s, call), id)
  {
    hide CI.Inv, GI.InvExcept, AssignAll, SeatInputsOk, PurgeInactive, Moved, EnactAll;
    QueueKnown(rules, s);
    EnactMoves(s, call.succeeding, id);
    EnactedMoves(rules, s, call, Apply(rules, s, call), id);
  }

  // The other calls leave the proposals there are alone.
  lemma OtherMoves(rules: Rules, s: Chain, call: Call, id: nat)
    requires Inv(rules, s) && CallOk(rules, s, call) && id in s.gov.proposals
    requires !call.VoteCall? && !call.UpdateCall? && !EntersAssigning(s, call)
    ensures id in Apply(rules, s, call).gov.proposals
    ensures Moved(rules, s, call, Apply(rules, s, call), id)
  {
    hide CI.Inv, SubmitProposal, GI.InvExcept, AssignAll, SeatInputsOk, PurgeInactive, Moved, Action.Identifier,
         EnactAll;
    GI.InvKeys(rules.gov, s.clock, s.gov);
    if call.SubmitCall? {
      SubmitSame(rules, s, call.action, id);
    }
    StaysPut(rules, s, call, Apply(rules, s, call), id);
  }

  /** A call changes the state of a proposal only by an update or a vote, by supersession or by its
      tally and deadline, or by enactment of an approved one. */
  lemma CallMoves(rules: Rules, s: Chain, call: Call, id: nat)
    requires Inv(rules, s) && CallOk(rules, s, call) && id in s.gov.proposals
    ensures id in Apply(rules, s, call).gov.proposals
    ensures Moved(rules, s, call, Apply(rules, s, call), id)
  {
    hide CI.Inv, UpdateProposal, GI.InvExcept, Moved;
    if call.VoteCall? {
      VoteMoves(rules, s, call, id);
    } else if EntersAssigning(s, call) {
      HookMoves(rules, s, call, id);
    } else if !call.UpdateCall? {
      OtherMoves(rules, s, call, id);
    } else if UpdateProposal(rules.gov, s.clock.now, s.gov, call.id).Ok? {
      GI.InvKeys(rules.gov, s.clock, s.gov);
      GI.KeySets(s.gov);
      UpdateMoves(rules, s, call, s.gov, call.id, id);
    } else {
      StaysPut(rules, s, call, s, id);
    }
  }

  lemma StaysPut(rules: Rules, s: Chain, call: Call, t: Chain, id: nat)
    requires id in s.gov.proposals && id in t.gov.proposals && t.gov.proposals[id] == s.gov.proposals[id]
    ensures Moved(rules, s, call, t, id)
  {
  }

  lemma EnactedMoves(rules: Rules, s: Chain, call: Call, t: Chain, id: nat)
    requires id in s.gov.proposals && id in t.gov.proposals && call.PhaseChange? && s.clock.phase == Registering
    requires || t.gov.proposals[id].state == s.gov.proposals[id].state
             || (s.gov.proposals[id].state == Approved && t.gov.proposals[id].state == Enacted)
    ensures Moved(rules, s, call, t, id)
  {
  }

  lemma QueueKnown(rules: Rules, s: Chain)
    requires Inv(rules, s)
    ensures GI.QueueOk(s.gov)
  {
  }

  lemma SubmitSame(rules: Rules, s: Chain, action: Action, id: nat)
    requires id in s.gov.proposals && GI.KeysOk(s.gov)
    ensures var r := SubmitProposal(rules.gov, s.clock, s.cer, s.gov, action);
            r.Ok? ==> id in r.value.proposals && r.value.proposals[id] == s.gov.proposals[id]
  {
    hide Governance.Electorate, Action.Identifier;
  }

  // ---------- rejection over runs ----------

  /** A proposal is rejected only after its lifetime is over, in every run. */
  lemma {:induction false} RejectedAfterDeadline(rules: Rules, states: seq<Chain>, calls: seq<Call>, n: nat, id: nat)
    requires IsRun(rules, states, calls) && n <= |calls| && StateAt(states[n], id) == Some(Rejected)
    ensures states[n].clock.now > Deadline(rules.gov, states[n].gov.proposals[id])
  {
    hide Inv, CallOk, Apply, GI.ApprovalOk, GI.Edge, Superseded;
    if n > 0 {
      RunKeeps(rules, states, calls, n - 1);
      assert Next(rules, states[n - 1], calls[n - 1], states[n - 1 + 1]);
      if Known(states[n - 1], id) {
        StepOf(rules, states, calls, n - 1, id);
        CallMoves(rules, states[n - 1], calls[n - 1], id);
        if StateAt(states[n - 1], id) == Some(Rejected) {
          RejectedAfterDeadline(rules, states, calls, n - 1, id);
        }
      }
    }
  }

  // ---------- supersession over runs ----------

  // The record of kind k names a proposal that was approved then, by call m.
  ghost predicate ApprovedBy(states: seq<Chain>, m: nat, k: ActionIdentifier, at: Moment, id: nat)
    requires m + 1 < |states|
  {
    && EntersApproved(states, m, id) && states[m].clock.now == at
    && states[m + 1].gov.proposals[id].action.Identifier() == k
  }

  // A call writes the record of a kind only where it approves a proposal of that kind.
  lemma RecordStep(rules: Rules, s: Chain, call: Call, k: ActionIdentifier)
    requires Inv(rules, s) && CallOk(rules, s, call)
    ensures var t := Apply(rules, s, call);
            k in t.gov.lastApproved ==>
              || (k in s.gov.lastApproved && t.gov.lastApproved[k] == s.gov.lastApproved[k])
              || (var (at, id) := t.gov.lastApproved[k];
                  && at == s.clock.now && StateAt(s, id) != Some(Approved) && StateAt(t, id) == Some(Approved)
                  && t.gov.proposals[id].action.Identifier() == k)
  {
    hide CI.Inv, CastVote, UpdateProposal, SubmitProposal, GI.InvExcept, AssignAll, SeatInputsOk,
         PurgeInactive, Action.Identifier, Action.Supersedes;
    match call {
      case VoteCall(sender, other, vote, reputations) =>
        if CastVote(rules.gov, s.clock, s.cer, s.gov, sender, other, vote, reputations).Ok? {
          GI.VoteUnfolds(rules.gov, s.clock, s.cer, s.gov, sender, other, vote, reputations);
          GI.KeySets(s.gov);
          var u := GI.VotedState(rules.gov, s.cer, s.gov, sender, other, vote, reputations);
          UpdateOnly(rules.gov, s.clock.now, u, other);
        }
      case UpdateCall(other) =>
        if UpdateProposal(rules.gov, s.clock.now, s.gov, other).Ok? {
          UpdateOnly(rules.gov, s.clock.now, s.gov, other);
          GI.UpdateNeedsOpen(rules.gov, s.clock.now, s.gov, other);
        }
      case SubmitCall(action) => SubmitRecord(rules, s, action);
      case _ =>
    }
  }

  lemma SubmitRecord(rules: Rules, s: Chain, action: Action)
    ensures var r := SubmitProposal(rules.gov, s.clock, s.cer, s.gov, action);
            r.Ok? ==> r.value.lastApproved == s.gov.lastApproved
  {
    hide Governance.Electorate, Action.Identifier;
  }

  lemma {:induction false} RecordWasApproved(rules: Rules, states: seq<Chain>, calls: seq<Call>, n: nat,
                                             k: ActionIdentifier) returns (m: nat)
    requires IsRun(rules, states, calls) && n <= |calls| && k in states[n].gov.lastApproved
    ensures m < n && ApprovedBy(states, m, k, states[n].gov.lastApproved[k].0, states[n].gov.lastApproved[k].1)
  {
    hide Inv, Step, CallOk, Apply, Action.Identifier;
    if n > 0 {
      RunKeeps(rules, states, calls, n - 1);
      assert Next(rules, states[n - 1], calls[n - 1], states[n - 1 + 1]);
      RecordStep(rules, states[n - 1], calls[n - 1], k);
      if k in states[n - 1].gov.lastApproved && states[n].gov.lastApproved[k] == states[n - 1].gov.lastApproved[k] {
        m := RecordWasApproved(rules, states, calls, n - 1, k);
      } else {
        m := n - 1;
      }
    }
  }

  /** A superseded proposal is one of a superseding kind, and names a proposal of the same kind that
      was approved in the run after this one was submitted. */
  lemma {:induction false} SupersededByLater(rules: Rules, states: seq<Chain>, calls: seq<Call>, n: nat, id: nat,
                                             other: nat) returns (m: nat)
    requires IsRun(rules, states, calls) && n <= |calls| && StateAt(states[n], id) == Some(SupersededBy(other))
    ensures m < n && EntersApproved(states, m, other)
    ensures var proposal := states[n].gov.proposals[id];
            && proposal.action.Supersedes() && states[m].clock.now > proposal.start
            && states[m + 1].gov.proposals[other].action.Identifier() == proposal.action.Identifier()
  {
    hide Inv, Step, CallOk, Apply, GI.ApprovalOk, GI.Edge, Decides, Action.Identifier, Action.Supersedes;
    if n > 0 {
      RunKeeps(rules, states, calls, n - 1);
      assert Next(rules, states[n - 1], calls[n - 1], states[n - 1 + 1]);
      if Known(states[n - 1], id) {
        StepOf(rules, states, calls, n - 1, id);
        CallMoves(rules, states[n - 1], calls[n - 1], id);
        if StateAt(states[n - 1], id) == Some(SupersededBy(other)) {
          m := SupersededByLater(rules, states, calls, n - 1, id, other);
        } else {
          DecidesOpen(rules, states[n - 1], calls[n - 1], states[n], id);
          m := RecordWasApproved(rules, states, calls, n - 1, states[n].gov.proposals[id].action.Identifier());
        }
      } else {
        FreshIsOngoing(rules, states, calls, n - 1, id);
      }
    }
  }

  lemma DecidesOpen(rules: Rules, s: Chain, call: Call, t: Chain, id: nat)
    requires id in s.gov.proposals && id in t.gov.proposals && Moved(rules, s, call, t, id)
    requires t.gov.proposals[id].state.SupersededBy? && s.gov.proposals[id].state != t.gov.proposals[id].state
    ensures Superseded(s.gov, s.gov.proposals[id])
    ensures t.gov.proposals[id].state ==
            SupersededBy(LastApproved(s.gov, s.gov.proposals[id].action.Identifier()).value.1)
  {
    hide Superseded;
  }

  // ---------- enactment over runs ----------

  // There is room in the queue of the proposal's kind.
  predicate RoomFor(s: GI.GState, id: nat) {
    id in s.proposals &&
    var k := s.proposals[id].action.Identifier();
    k in s.queue ==> |s.queue[k]| < QUEUE_MAX
  }

  // An update takes nothing from the queue, and adds what it approves.
  lemma UpdateQueues(p: Parameters, now: Moment, s: GI.GState, other: nat, id: nat)
    requires UpdateProposal(p, now, s, other).Ok?
    ensures var t := UpdateProposal(p, now, s, other).value;
            && (Queued(s, id) ==> Queued(t, id))
            && (id in t.proposals && t.proposals[id].state == Approved && RoomFor(s, id) ==>
                  Queued(t, id) || s.proposals[id].state == Approved)
  {
    hide UpdateProposal, Action.Identifier;
    UpdateOnly(p, now, s, other);
    var t := UpdateProposal(p, now, s, other).value;
    if Queued(s, id) {
      var k :| k in s.queue && id in s.queue[k];
      assert InQueue(s, k, id) && InQueue(t, k, id);
    }
    if id == other && t.proposals[id].state == Approved && RoomFor(s, id) {
      assert InQueue(t, s.proposals[id].action.Identifier(), id);
    }
  }

  // Only the hook takes anything from the queue, and approval adds to it.
  lemma QueueStep(rules: Rules, s: Chain, call: Call, id: nat)
    requires Inv(rules, s) && CallOk(rules, s, call) && !EntersAssigning(s, call)
    ensures var t := Apply(rules, s, call);
            && (Queued(s.gov, id) ==> Queued(t.gov, id))
            && (StateAt(s, id) != Some(Approved) && StateAt(t, id) == Some(Approved) && RoomFor(s.gov, id) ==>
                  Queued(t.gov, id))
  {
    hide CI.Inv, CastVote, UpdateProposal, SubmitProposal, GI.InvExcept, AssignAll, SeatInputsOk,
         PurgeInactive, Action.Identifier, Action.Supersedes, Queued;
    match call {
      case VoteCall(sender, other, vote, reputations) =>
        if CastVote(rules.gov, s.clock, s.cer, s.gov, sender, other, vote, reputations).Ok? {
          GI.VoteUnfolds(rules.gov, s.clock, s.cer, s.gov, sender, other, vote, reputations);
          GI.KeySets(s.gov);
          var u := GI.VotedState(rules.gov, s.cer, s.gov, sender, other, vote, reputations);
          UpdateQueues(rules.gov, s.clock.now, u, other, id);
          assert Queued(u, id) <==> Queued(s.gov, id) by { SameQueued(s.gov, u, id); }
        }
      case UpdateCall(other) =>
        if UpdateProposal(rules.gov, s.clock.now, s.gov, other).Ok? {
          UpdateQueues(rules.gov, s.clock.now, s.gov, other, id);
        }
      case SubmitCall(action) => SubmitState(rules, s, action, id);
      case _ => SameQueued(s.gov, Apply(rules, s, call).gov, id);
    }
  }

  lemma SameQueued(s: GI.GState, t: GI.GState, id: nat)
    ensures t.queue == s.queue ==> (Queued(t, id) <==> Queued(s, id))
  {
  }

  lemma SubmitState(rules: Rules, s: Chain, action: Action, id: nat)
    ensures var r := SubmitProposal(rules.gov, s.clock, s.cer, s.gov, action);
            r.Ok? ==>
              && (Queued(r.value, id) <==> Queued(s.gov, id))
              && (StateAt(s, id) != Some(Approved) && id in r.value.proposals ==>
                    r.value.proposals[id].state != Approved)
  {
    hide Governance.Electorate, Action.Identifier, Queued;
    var r := SubmitProposal(rules.gov, s.clock, s.cer, s.gov, action);
    if r.Ok? {
      SameQueued(s.gov, r.value, id);
    }
  }

  lemma {:induction false} StaysQueued(rules: Rules, states: seq<Chain>, calls: seq<Call>, i: nat, j: nat, id: nat)
    requires IsRun(rules, states, calls) && i <= j <= |calls|
    requires Queued(states[i].gov, id) && forall m :: i <= m < j ==> !EntersAssigning(states[m], calls[m])
    ensures Queued(states[j].gov, id)
    decreases j - i
  {
    hide Inv, Step, CallOk, Apply, Queued;
    if i < j {
      StaysQueued(rules, states, calls, i, j - 1, id);
      RunKeeps(rules, states, calls, j - 1);
      assert Next(rules, states[j - 1], calls[j - 1], states[j - 1 + 1]);
      QueueStep(rules, states[j - 1], calls[j - 1], id);
    }
  }

  /** A proposal approved while its queue has room is enacted when the next assigning phase begins,
      exactly if its action succeeds; until then it stays approved. */
  lemma ApprovalIsEnacted(rules: Rules, states: seq<Chain>, calls: seq<Call>, i: nat, j: nat, id: nat)
    requires IsRun(rules, states, calls) && i < j < |calls|
    requires EntersApproved(states, i, id) && RoomFor(states[i].gov, id)
    requires EntersAssigning(states[j], calls[j])
    requires forall m :: i <= m < j ==> !EntersAssigning(states[m], calls[m])
    ensures StateAt(states[j], id) == Some(Approved)
    ensures StateAt(states[j + 1], id) == Some(if id in calls[j].succeeding then Enacted else Approved)
  {
    hide Inv, Step, CallOk, Apply, Queued, EnactAll, Action.Identifier;
    RunKeeps(rules, states, calls, i);
    RunKeeps(rules, states, calls, j);
    assert Next(rules, states[i], calls[i], states[i + 1]) && Next(rules, states[j], calls[j], states[j + 1]);
    QueueStep(rules, states[i], calls[i], id);
    StaysQueued(rules, states, calls, i + 1, j, id);
    QueueKnown(rules, states[j]);
    QueuedApproved(states[j].gov, id);
    EnactMoves(states[j], calls[j].succeeding, id);
    HookEnacts(rules, states[j], calls[j]);
  }

  lemma QueuedApproved(s: GI.GState, id: nat)
    requires GI.QueueOk(s) && Queued(s, id)
    ensures id in s.proposals && s.proposals[id].state == Approved
  {
    var k :| k in s.queue && id in s.queue[k];
    assert GI.SlotOk(s, k, s.queue[k]);
  }

  lemma HookEnacts(rules: Rules, s: Chain, call: Call)
    requires CallOk(rules, s, call) && EntersAssigning(s, call)
    ensures Apply(rules, s, call).gov == EnactAll(s.gov, call.succeeding)
  {
    hide EnactAll, AssignAll, PurgeInactive, SeatInputsOk;
  }

  // ---------- the minimum turnout ----------

  /** A tally passes exactly if it reaches the minimum turnout, in thousandths of the electorate, and
      the rule approves it; an empty electorate reaches no positive minimum. */
  lemma PassesExactly(p: Parameters, electorate: nat, tally: Tally)
    ensures TallyPasses(p, electorate, tally) == Ok(true) <==>
              && (if electorate == 0 then p.minTurnout == 0 else 1000 * tally.turnout >= p.minTurnout * electorate)
              && p.bias(electorate, tally.turnout, tally.ayes) == Some(true)
  {
    if electorate > 0 {
      var q := tally.turnout * 1000 / electorate;
      DivIdentity(tally.turnout * 1000, electorate);
      if p.minTurnout <= q {
        ProductMonotone(p.minTurnout, electorate, q, electorate);
      } else {
        ProductMonotone(q + 1, electorate, p.minTurnout, electorate);
        assert (q + 1) * electorate == electorate * q + electorate;
      }
    }
  }

  /** Over every run, an approved or enacted proposal reached the minimum turnout. */
  lemma ApprovedHasTurnout(rules: Rules, states: seq<Chain>, calls: seq<Call>, n: nat, id: nat)
    requires IsRun(rules, states, calls) && n <= |calls|
    requires StateAt(states[n], id) == Some(Approved) || StateAt(states[n], id) == Some(Enacted)
    ensures id in states[n].gov.tallies
    ensures 1000 * states[n].gov.tallies[id].turnout >= rules.gov.minTurnout * states[n].gov.proposals[id].electorate
  {
    hide IsRun, TallyPasses;
    RunLength(rules, states, calls);
    StatesMatchTallies(rules, states, calls, n, id);
    PassesExactly(rules.gov, states[n].gov.proposals[id].electorate, states[n].gov.tallies[id]);
  }
}
