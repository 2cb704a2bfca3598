/** The life of a proposal over whole runs. */
module Lifecycle {
  import opened Primitives
  import opened Governance
  import opened Chain
  import GI = GovernanceInvariants

  predicate Known(s: Chain, id: nat) {
    id in s.gov.proposals
  }

  function StateAt(s: Chain, id: nat): Option<ProposalState> {
    if id in s.gov.proposals then Some(s.gov.proposals[id].state) else None
  }

  predicate Passes(rules: Rules, s: Chain, id: nat) {
    && id in s.gov.proposals && id in s.gov.tallies
    && TallyPasses(rules.gov, s.gov.proposals[id].electorate, s.gov.tallies[id]) == Ok(true)
  }

  lemma StepOf(rules: Rules, states: seq<Chain>, calls: seq<Call>, n: nat, id: nat)
    requires IsRun(rules, states, calls) && n < |calls| && Known(states[n], id)
    ensures id in states[n].gov.tallies
    ensures GI.ProposalStep(rules.gov, states[n].clock.now, states[n].gov, states[n + 1].gov, id)
  {
    RunKeeps(rules, states, calls, n);
  }

  /** Rejected, superseded and enacted proposals stay as they are, with their tally. */
  lemma {:induction false} TerminalForever(rules: Rules, states: seq<Chain>, calls: seq<Call>, i: nat, j: nat, id: nat)
    requires IsRun(rules, states, calls) && i <= j <= |calls| && Known(states[i], id)
    requires var st := states[i].gov.proposals[id].state; st.Rejected? || st.SupersededBy? || st.Enacted?
    ensures Known(states[j], id) && states[j].gov.proposals[id] == states[i].gov.proposals[id]
    ensures TallyOf(states[j].gov, id) == TallyOf(states[i].gov, id)
    decreases j - i
  {
    hide *;
    if i < j {
      TerminalForever(rules, states, calls, i, j - 1, id);
      TerminalStep(rules, states, calls, j - 1, id);
    }
  }

  lemma TerminalStep(rules: Rules, states: seq<Chain>, calls: seq<Call>, n: nat, id: nat)
    requires IsRun(rules, states, calls) && n < |calls| && Known(states[n], id)
    requires var st := states[n].gov.proposals[id].state; st.Rejected? || st.SupersededBy? || st.Enacted?
    ensures Known(states[n + 1], id) && states[n + 1].gov.proposals[id] == states[n].gov.proposals[id]
    ensures TallyOf(states[n + 1].gov, id) == TallyOf(states[n].gov, id)
  {
    hide GI.ApprovalOk, IsRun;
    StepOf(rules, states, calls, n, id);
  }

  predicate EntersEnacted(states: seq<Chain>, n: nat, id: nat)
    requires n + 1 < |states|
  {
    StateAt(states[n], id) != Some(Enacted) && StateAt(states[n + 1], id) == Some(Enacted)
  }

  /** A proposal is enacted at most once in a run, and only after it was approved. */
  lemma EnactedOnce(rules: Rules, states: seq<Chain>, calls: seq<Call>, i: nat, j: nat, id: nat)
    requires IsRun(rules, states, calls) && i < |calls| && j < |calls|
    requires EntersEnacted(states, i, id) && EntersEnacted(states, j, id)
    ensures i == j && StateAt(states[i], id) == Some(Approved)
  {
    hide IsRun, GI.ApprovalOk;
    assert |states| == |calls| + 1 by { RunLength(rules, states, calls); }
    if i < j {
      TerminalForever(rules, states, calls, i + 1, j, id);
    } else if j < i {
      TerminalForever(rules, states, calls, j + 1, i, id);
    }
    if Known(states[i], id) {
      StepOf(rules, states, calls, i, id);
    } else {
      FreshIsOngoing(rules, states, calls, i, id);
    }
  }

  lemma RunLength(rules: Rules, states: seq<Chain>, calls: seq<Call>)
    requires IsRun(rules, states, calls)
    ensures |states| == |calls| + 1
  {
  }

  lemma FreshIsOngoing(rules: Rules, states: seq<Chain>, calls: seq<Call>, n: nat, id: nat)
    requires IsRun(rules, states, calls) && n < |calls| && !Known(states[n], id) && Known(states[n + 1], id)
    ensures states[n + 1].gov.proposals[id].state == Ongoing
  {
    RunKeeps(rules, states, calls, n);
  }

  // ---------- approval needs an uninterrupted passing stretch ----------

  ghost predicate ConfirmedFrom(states: seq<Chain>, j: nat, n: nat, id: nat, since: Moment)
    requires n < |states|
  {
    && j <= n
    && states[j].clock.now == since
    && forall i :: j <= i <= n ==> StateAt(states[i], id) == Some(Confirming(since))
  }

  lemma {:induction false} ConfirmingSince(rules: Rules, states: seq<Chain>, calls: seq<Call>, n: nat, id: nat,
                                           since: Moment)
    returns (j: nat)
    requires IsRun(rules, states, calls) && n <= |calls| && StateAt(states[n], id) == Some(Confirming(since))
    ensures ConfirmedFrom(states, j, n, id, since)
  {
    hide GI.ApprovalOk, GI.Edge;
    assert n > 0;
    if StateAt(states[n - 1], id) == Some(Confirming(since)) {
      j := ConfirmingSince(rules, states, calls, n - 1, id, since);
    } else {
      RunKeeps(rules, states, calls, n - 1);
      if Known(states[n - 1], id) {
        StepOf(rules, states, calls, n - 1, id);
      }
      j := n;
    }
  }

  lemma PassingWhileConfirming(rules: Rules, states: seq<Chain>, calls: seq<Call>, n: nat, id: nat)
    requires IsRun(rules, states, calls) && n <= |calls|
    requires StateAt(states[n], id).Some? && StateAt(states[n], id).value.Confirming?
    ensures Passes(rules, states[n], id)
  {
    hide TallyPasses;
    RunKeeps(rules, states, calls, n);
    assert GI.StateOk(rules.gov, states[n].clock, states[n].gov.proposals[id], states[n].gov.tallies[id]);
  }

  /** After every completed call an ongoing proposal does not pass, and a confirming one passes
      and began to do so within its lifetime. */
  lemma StatesMatchTallies(rules: Rules, states: seq<Chain>, calls: seq<Call>, n: nat, id: nat)
    requires IsRun(rules, states, calls) && n <= |calls| && Known(states[n], id)
    ensures var s := states[n];
            var proposal := s.gov.proposals[id];
            && id in s.gov.tallies
            && (proposal.state.Ongoing? ==> GI.Fails(rules.gov, proposal.electorate, s.gov.tallies[id]))
            && (proposal.state.Confirming? || proposal.state.Approved? || proposal.state.Enacted? ==>
                  Passes(rules, s, id))
            && (proposal.state.Confirming? ==>
                  && proposal.start <= proposal.state.since <= s.clock.now
                  && proposal.state.since <= proposal.start + rules.gov.proposalLifetime)
  {
    hide TallyPasses;
    RunKeeps(rules, states, calls, n);
    assert GI.StateOk(rules.gov, states[n].clock, states[n].gov.proposals[id], states[n].gov.tallies[id]);
  }

  /** In every reachable state a queued id is approved, and sits once under its own action
      identifier and nowhere else. */
  lemma QueuedOnce(rules: Rules, states: seq<Chain>, calls: seq<Call>, n: nat, k: ActionIdentifier, id: nat)
    requires IsRun(rules, states, calls) && n <= |calls|
    requires k in states[n].gov.queue && id in states[n].gov.queue[k]
    ensures StateAt(states[n], id) == Some(Approved) && states[n].gov.proposals[id].action.Identifier() == k
    ensures multiset(states[n].gov.queue[k])[id] == 1
    ensures forall j :: j in states[n].gov.queue && id in states[n].gov.queue[j] ==> j == k
  {
    hide Action.Identifier;
    RunKeeps(rules, states, calls, n);
    var gov := states[n].gov;
    assert GI.SlotOk(gov, k, gov.queue[k]);
    forall j | j in gov.queue && id in gov.queue[j] ensures j == k {
      assert GI.SlotOk(gov, j, gov.queue[j]);
    }
    DistinctOnce(gov.queue[k], id);
  }

  predicate EntersApproved(states: seq<Chain>, n: nat, id: nat)
    requires n + 1 < |states|
  {
    StateAt(states[n], id) != Some(Approved) && StateAt(states[n + 1], id) == Some(Approved)
  }

  lemma ApprovalDetails(rules: Rules, states: seq<Chain>, calls: seq<Call>, n: nat, id: nat)
    requires IsRun(rules, states, calls) && n < |calls| && EntersApproved(states, n, id)
    ensures Known(states[n], id)
    ensures GI.ApprovalOk(rules.gov, states[n].clock.now, states[n].gov, states[n + 1].gov, id)
    ensures states[n + 1].gov.proposals[id].start == states[n].gov.proposals[id].start
  {
    hide GI.ApprovalOk;
    if !Known(states[n], id) {
      FreshIsOngoing(rules, states, calls, n, id);
    }
    StepOf(rules, states, calls, n, id);
  }

  lemma WithinLifetime(rules: Rules, states: seq<Chain>, calls: seq<Call>, n: nat, id: nat)
    requires IsRun(rules, states, calls) && n <= |calls|
    requires StateAt(states[n], id).Some? && StateAt(states[n], id).value.Confirming?
    ensures StateAt(states[n], id).value.since <= states[n].gov.proposals[id].start + rules.gov.proposalLifetime
  {
    hide TallyPasses;
    RunKeeps(rules, states, calls, n);
    assert GI.StateOk(rules.gov, states[n].clock, states[n].gov.proposals[id], states[n].gov.tallies[id]);
  }

  /** A proposal is approved only after its tally passed in every state of a stretch that
      began within its lifetime and lasted longer than the confirmation period. */
  lemma ApprovedAfterConfirmation(rules: Rules, states: seq<Chain>, calls: seq<Call>, n: nat, id: nat)
    returns (j: nat)
    requires IsRun(rules, states, calls) && n < |calls| && EntersApproved(states, n, id)
    ensures j <= n && Known(states[n], id)
    ensures states[n].clock.now > states[j].clock.now + rules.gov.confirmationPeriod
    ensures forall i :: j <= i <= n ==> Passes(rules, states[i], id)
    ensures states[j].clock.now <= states[n].gov.proposals[id].start + rules.gov.proposalLifetime
  {
    hide Passes, IsRun;
    RunLength(rules, states, calls);
    ApprovalDetails(rules, states, calls, n, id);
    var since := states[n].gov.proposals[id].state.since;
    j := ConfirmingSince(rules, states, calls, n, id, since);
    forall i | j <= i <= n ensures Passes(rules, states[i], id) {
      PassingWhileConfirming(rules, states, calls, i, id);
    }
    WithinLifetime(rules, states, calls, n, id);
  }

  // ---------- supersession ----------

  lemma LastApprovalStep(rules: Rules, states: seq<Chain>, calls: seq<Call>, n: nat, k: ActionIdentifier)
    requires IsRun(rules, states, calls) && n < |calls| && k in states[n].gov.lastApproved
    ensures k in states[n + 1].gov.lastApproved
    ensures states[n].gov.lastApproved[k].0 <= states[n + 1].gov.lastApproved[k].0
  {
    hide GI.ProposalStep;
    RunKeeps(rules, states, calls, n);
  }

  lemma {:induction false} LastApprovalGrows(rules: Rules, states: seq<Chain>, calls: seq<Call>, i: nat, j: nat,
                                             k: ActionIdentifier)
    requires IsRun(rules, states, calls) && i <= j <= |calls| && k in states[i].gov.lastApproved
    ensures k in states[j].gov.lastApproved
    ensures states[i].gov.lastApproved[k].0 <= states[j].gov.lastApproved[k].0
    decreases j - i
  {
    hide *;
    if i < j {
      LastApprovalGrows(rules, states, calls, i, j - 1, k);
      LastApprovalStep(rules, states, calls, j - 1, k);
    }
  }

  /** Of two approved proposals with the same superseding action identifier, the one
      approved later was submitted no earlier than the other's approval. */
  lemma LaterApprovalStartedLater(rules: Rules, states: seq<Chain>, calls: seq<Call>, i: nat, j: nat, first: nat,
                                  second: nat)
    requires IsRun(rules, states, calls) && i < j < |calls|
    requires EntersApproved(states, i, first) && EntersApproved(states, j, second)
    requires states[i + 1].gov.proposals[first].action.Identifier() ==
             states[j + 1].gov.proposals[second].action.Identifier()
    requires states[j + 1].gov.proposals[second].action.Supersedes()
    ensures states[j + 1].gov.proposals[second].start >= states[i].clock.now
  {
    hide Action.Identifier, Action.Supersedes;
    ApprovalDetails(rules, states, calls, i, first);
    ApprovalDetails(rules, states, calls, j, second);
    StepOf(rules, states, calls, i, first);
    StepOf(rules, states, calls, j, second);
    var k := states[i].gov.proposals[first].action.Identifier();
    LastApprovalGrows(rules, states, calls, i + 1, j, k);
  }
}
