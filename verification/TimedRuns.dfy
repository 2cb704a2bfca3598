/**
 Runs driven by the clock: phases change only when a block's timestamp is past the slot of the
 scheduler. The ceremony index then advances by more than k only after more than k whole cycles,
 so within the lifetime of a proposal no expiry purge reaches an attendance that may vote on it,
 and the electorate stays constant.
 */
module TimedRuns {
  import opened Primitives
  import opened Arithmetic
  import opened Hall
  import opened Ceremonies
  import opened Governance
  import opened Chain
  import opened Turnout
  import opened Electorate
  import Scheduler
  import Standing
  import CI = CeremonyInvariants
  import GI = GovernanceInvariants

  // The slot of the scheduler has not passed.
  predicate Settled(s: Scheduler.State) {
    s.now <= s.nextTimestamp
  }

  // A block sets the time and then changes the phase if its slot has passed, before any other call.
  ghost predicate TimedStep(d: Scheduler.Durations, s: Scheduler.State, call: Call, t: Scheduler.State) {
    match call
    case Tick(now) => Settled(s) && t == s.(now := now) && s.now <= now
    case PhaseChange(_, _, _) => !Settled(s) && Scheduler.Progress(d, s) == Some(t)
    case _ => t == s && Settled(s)
  }

  ghost predicate InStep(d: Scheduler.Durations, s: Chain, c: Scheduler.State) {
    && s.clock == Clock(c.now, c.phase, c.cindex)
    && Scheduler.Safe(d, c.now) && c.cindex < U32_MAX
  }

  ghost predicate TimedRun(d: Scheduler.Durations, rules: Rules, states: seq<Chain>, calls: seq<Call>,
                           clocks: seq<Scheduler.State>)
  {
    && |clocks| == |states| == |calls| + 1
    && rules.gov.cycleDuration == d.Cycle() > 0
    && (forall i :: 0 <= i < |states| ==> InStep(d, states[i], clocks[i]))
    && (forall i :: 0 <= i < |calls| ==> TimedStep(d, clocks[i], calls[i], clocks[i + 1]))
  }

  // ---------- the hook drives timed runs ----------

  lemma ProgressSettles(d: Scheduler.Durations, s: Scheduler.State)
    requires d.Cycle() > 0 && Scheduler.Safe(d, s.now) && !Settled(s)
    ensures Scheduler.Progress(d, s).Some? && Settled(Scheduler.Progress(d, s).value)
  {
    var t := Scheduler.SatAdd(s.nextTimestamp, d.Of(Scheduler.Following(s.phase)));
    Scheduler.ResyncLands(d.Cycle(), s.now, t);
  }

  /** A timed block is the hook: setting the time, followed by a phase change if the slot has
      passed, is possible exactly to the state the hook computes. */
  lemma BlockIsHook(d: Scheduler.Durations, day: nat, s: Scheduler.State, now: nat, change: Call, t: Scheduler.State)
    requires day > 0 && d.Cycle() > 0 && Settled(s) && s.now <= now && Scheduler.Safe(d, s.now)
    requires Scheduler.Safe(d, now) && change.PhaseChange?
    ensures var stamped := s.(now := now);
            && TimedStep(d, s, Tick(now), stamped)
            && (t == Scheduler.SetTimestamp(d, day, s, now) <==>
                  if Settled(stamped) then t == stamped else TimedStep(d, stamped, change, t))
    ensures Settled(Scheduler.SetTimestamp(d, day, s, now))
  {
    if !Settled(s.(now := now)) {
      ProgressSettles(d, s.(now := now));
    }
  }

  // The timestamps of a run, as the scheduler sees them.
  function Stamps(calls: seq<Call>): seq<Scheduler.Event> {
    if calls == [] then []
    else
      var last := calls[|calls| - 1];
      Stamps(calls[..|calls| - 1]) + if last.Tick? then [Scheduler.Timestamp(last.now)] else []
  }

  // The state of the scheduler once the phase change that is due has been made.
  function Completed(d: Scheduler.Durations, s: Scheduler.State): Scheduler.State {
    if Settled(s) then s else Scheduler.NextPhase(d, s)
  }

  /** In every state of a timed run the scheduler is where the hook, called with the timestamps of
      the run so far, has moved it, up to the phase change that is due in the current block. */
  lemma {:induction false} HookDrives(d: Scheduler.Durations, day: nat, rules: Rules, states: seq<Chain>,
                                      calls: seq<Call>, clocks: seq<Scheduler.State>, n: nat)
    requires TimedRun(d, rules, states, calls, clocks) && n <= |calls| && day > 0 && Settled(clocks[0])
    ensures Completed(d, clocks[n]) == Scheduler.Run(d, day, clocks[0], Stamps(calls[..n]))
  {
    if n > 0 {
      var front, call := calls[..n - 1], calls[n - 1];
      HookDrives(d, day, rules, states, calls, clocks, n - 1);
      assert calls[..n] == front + [call] && (front + [call])[..n - 1] == front;
      assert InStep(d, states[n - 1], clocks[n - 1]) && InStep(d, states[n], clocks[n]);
      assert TimedStep(d, clocks[n - 1], call, clocks[n - 1 + 1]);
      DrivenStep(d, day, clocks[0], Stamps(front), clocks[n - 1], call, clocks[n]);
    }
  }

  lemma DrivenStep(d: Scheduler.Durations, day: nat, first: Scheduler.State, es: seq<Scheduler.Event>,
                   s: Scheduler.State, call: Call, t: Scheduler.State)
    requires day > 0 && d.Cycle() > 0 && Scheduler.Safe(d, s.now) && Scheduler.Safe(d, t.now)
    requires TimedStep(d, s, call, t) && Completed(d, s) == Scheduler.Run(d, day, first, es)
    ensures Completed(d, t) ==
            Scheduler.Run(d, day, first, es + if call.Tick? then [Scheduler.Timestamp(call.now)] else [])
  {
    if call.Tick? {
      var more := es + [Scheduler.Timestamp(call.now)];
      assert more[..|more| - 1] == es;
    } else {
      assert es + [] == es;
      if call.PhaseChange? {
        ProgressSettles(d, s);
      }
    }
  }

  // ---------- the pace of ceremonies ----------

  // A phase change driven by the clock never moves its slot back.
  lemma ProgressForward(d: Scheduler.Durations, s: Scheduler.State)
    requires d.Cycle() > 0 && s.nextTimestamp < s.now && Scheduler.Safe(d, s.now)
    ensures Scheduler.Progress(d, s).Some?
    ensures Scheduler.Progress(d, s).value.nextTimestamp >= s.nextTimestamp + d.Of(Scheduler.Following(s.phase))
  {
    var cycle, t := d.Cycle(), s.nextTimestamp + d.Of(Scheduler.Following(s.phase));
    assert Scheduler.SatAdd(s.nextTimestamp, d.Of(Scheduler.Following(s.phase))) == t;
    Scheduler.ResyncLands(cycle, s.now, t);
    if t >= s.now {
      DivModUnique(t - s.now, cycle, 0, t - s.now);
    }
  }

  // Where the cycle of ceremony 0 would have begun.
  function Base(d: Scheduler.Durations, s: Scheduler.State): int {
    s.nextTimestamp - d.Through(s.phase) - s.cindex * d.Cycle()
  }

  lemma BaseGrows(d: Scheduler.Durations, s: Scheduler.State)
    requires d.Cycle() > 0 && s.nextTimestamp < s.now && Scheduler.Safe(d, s.now) && s.cindex < U32_MAX
    ensures Scheduler.Progress(d, s).Some? && Base(d, Scheduler.Progress(d, s).value) >= Base(d, s)
    ensures s.phase == Attesting ==> s.now > Base(d, s) + d.Cycle() + s.cindex * d.Cycle()
  {
    ProgressForward(d, s);
    assert (s.cindex + 1) * d.Cycle() == s.cindex * d.Cycle() + d.Cycle();
  }

  // The index has not moved since clock a, or it moved after the cycles in between.
  ghost predicate OnPace(d: Scheduler.Durations, a: Scheduler.State, s: Scheduler.State) {
    && Base(d, s) >= Base(d, a) && s.cindex >= a.cindex && s.now >= a.now
    && (s.cindex == a.cindex || s.now > Base(d, a) + d.Cycle() + (s.cindex - 1) * d.Cycle())
  }

  lemma StepOnPace(d: Scheduler.Durations, a: Scheduler.State, s: Scheduler.State, call: Call, t: Scheduler.State)
    requires d.Cycle() > 0 && Scheduler.Safe(d, s.now) && s.cindex < U32_MAX
    requires TimedStep(d, s, call, t) && OnPace(d, a, s)
    ensures OnPace(d, a, t)
  {
    if call.PhaseChange? {
      BaseGrows(d, s);
    }
  }

  lemma {:induction false} RunOnPace(d: Scheduler.Durations, rules: Rules, states: seq<Chain>, calls: seq<Call>,
                                     clocks: seq<Scheduler.State>, m: nat, n: nat)
    requires TimedRun(d, rules, states, calls, clocks) && m <= n <= |calls|
    ensures OnPace(d, clocks[m], clocks[n])
    decreases n - m
  {
    hide TimedStep;
    if m < n {
      hide OnPace;
      RunOnPace(d, rules, states, calls, clocks, m, n - 1);
      assert InStep(d, states[n - 1], clocks[n - 1]);
      assert TimedStep(d, clocks[n - 1], calls[n - 1], clocks[n - 1 + 1]);
      StepOnPace(d, clocks[m], clocks[n - 1], calls[n - 1], clocks[n]);
    }
  }

  /** From any moment after the phase change of a block, the ceremony index advances by more than k
      only after more than k whole cycles. */
  lemma IndexPace(d: Scheduler.Durations, rules: Rules, states: seq<Chain>, calls: seq<Call>,
                  clocks: seq<Scheduler.State>, m: nat, n: nat, k: nat)
    requires TimedRun(d, rules, states, calls, clocks) && m <= n <= |calls|
    requires clocks[m].now <= clocks[m].nextTimestamp
    requires states[n].clock.cindex > states[m].clock.cindex + k
    ensures states[n].clock.now > states[m].clock.now + k * d.Cycle()
  {
    hide TimedStep;
    RunOnPace(d, rules, states, calls, clocks, m, n);
    assert InStep(d, states[m], clocks[m]) && InStep(d, states[n], clocks[n]);
    var a, s, cycle := clocks[m], clocks[n], d.Cycle();
    var more := s.cindex - 1 - a.cindex - k;
    assert (s.cindex - 1) * cycle == a.cindex * cycle + k * cycle + more * cycle;
    ProductMonotone(0, cycle, more, cycle);
  }

  // ---------- attendances that stand ----------

  // The ceremony index an expiry purge would drop on this call, if the phase changes.
  ghost predicate Spares(rules: Rules, s: Chain, call: Call, v: Attendance) {
    && !call.PurgeCall?
    && (call.PhaseChange? ==> call.inactives == [])
    && (call.PhaseChange? && s.clock.phase == Attesting ==>
          v.cindex + rules.gov.reputationLifetime != s.clock.cindex)
  }

  lemma SteadyAttended(s: Chain, t: Chain, v: Attendance)
    requires Standing.Steady(s.cer, t.cer) && Attended(s, v)
    ensures Attended(t, v)
  {
  }

  lemma ClaimAttended(rules: Rules, s: Chain, call: Call, v: Attendance)
    requires CallOk(rules, s, call) && call.ClaimCall? && Attended(s, v)
    ensures Attended(Apply(rules, s, call), v)
  {
    hide ClaimRewards, PaidBy, Standing.MJ.ClaimVerdict;
    var verdict := Standing.MJ.ClaimVerdict(s.clock, s.cer, call.sender, call.cid, call.named, call.ballot);
    if ClaimRewards(s.clock, s.cer, call.sender, call.cid, call.named, verdict, call.failures).Ok? {
      Standing.ClaimWrites(s.clock, s.cer, call.sender, call.cid, call.named, verdict, call.failures);
      var cc, t := CC(v.cid, v.cindex), Apply(rules, s, call);
      if cc == CC(call.cid, ClaimIndex(s.clock)) {
        var paid := PaidBy(s.clock, s.cer, call.sender, call.cid, call.named, verdict, call.failures);
        assert Standing.Paid(HallAt(s.cer, cc), HallAt(t.cer, cc), paid, v.account);
      }
    }
  }

  lemma AssigningAttended(rules: Rules, s: Chain, call: Call, v: Attendance)
    requires CallOk(rules, s, call) && call.PhaseChange? && call.inactives == [] && s.clock.phase == Registering
    requires Attended(s, v)
    ensures Attended(Apply(rules, s, call), v)
  {
    hide AssignSeats, SeatInputOk;
    var cfg, cc := rules.Config(), CC(v.cid, v.cindex);
    assert PurgeInactive(cfg, s.clock.cindex, s.cer, []) == s.cer;
    if cc.cid in s.cer.communities && cc.cindex == s.clock.cindex {
      CI.AssignOnlySeats(cfg.seating, HallAt(s.cer, cc), SeatInputFor(call.seats, cc.cid));
    }
  }

  /** An attendance stands through every call that spares it. */
  lemma AttendedStays(rules: Rules, s: Chain, call: Call, v: Attendance)
    requires Inv(rules, s) && CallOk(rules, s, call) && Attended(s, v) && Spares(rules, s, call, v)
    ensures Attended(Apply(rules, s, call), v)
  {
    hide Inv, Attended, AssignAll, SeatInputsOk, PurgeInactive;
    if call.RegisterCall? || call.UpgradeCall? || call.UnregisterCall? || call.EndorseCall? {
      Standing.CallSteady(rules, s, call);
      SteadyAttended(s, Apply(rules, s, call), v);
    } else if call.ClaimCall? {
      ClaimAttended(rules, s, call, v);
    } else if call.PhaseChange? && s.clock.phase == Registering {
      AssigningAttended(rules, s, call, v);
    } else {
      OtherAttended(rules, s, call, v);
    }
  }

  lemma OtherAttended(rules: Rules, s: Chain, call: Call, v: Attendance)
    requires CallOk(rules, s, call) && Attended(s, v) && Spares(rules, s, call, v)
    requires !call.RegisterCall? && !call.UpgradeCall? && !call.UnregisterCall? && !call.EndorseCall?
    requires !call.ClaimCall?
    requires call.PhaseChange? ==> s.clock.phase != Registering
    ensures Attended(Apply(rules, s, call), v)
  {
    hide SubmitProposal, CastVote, UpdateProposal, RegisterPurpose, CommitReputation, PurgeCommitments;
    assert EMPTY_HALL.VerifiedAccounts() == {};
  }

  // ---------- the electorate stays constant ----------

  // No purge but those of the expiry hook.
  predicate Untampered(calls: seq<Call>, m: nat, n: nat)
    requires m <= n <= |calls|
  {
    forall i :: m <= i < n ==> !calls[i].PurgeCall? && (calls[i].PhaseChange? ==> calls[i].inactives == [])
  }

  lemma {:induction false} ProposalConstant(rules: Rules, states: seq<Chain>, calls: seq<Call>, m: nat, n: nat, id: nat)
    requires IsRun(rules, states, calls) && m <= n <= |calls| && id in states[m].gov.proposals
    ensures id in states[n].gov.proposals
    ensures states[n].gov.proposals[id] == states[m].gov.proposals[id].(state := states[n].gov.proposals[id].state)
    decreases n - m
  {
    hide Inv, Step, Apply, CallOk, Eligible;
    if m < n {
      ProposalConstant(rules, states, calls, m, n - 1, id);
      RunKeeps(rules, states, calls, n - 1);
      ProposalKept(rules, states[n - 1], states[n - 1 + 1], id);
    }
  }

  // The proposal is of the moment at which it was submitted.
  lemma SubmittedNow(rules: Rules, states: seq<Chain>, calls: seq<Call>, m: nat, n: nat, id: nat, action: Action)
    requires IsRun(rules, states, calls) && m < n <= |calls| && SubmittedAt(states, m, id, action)
    ensures calls[m].SubmitCall? && id in states[n].gov.proposals
    ensures var proposal := states[n].gov.proposals[id];
            && proposal.start == states[m].clock.now && proposal.startCindex == states[m].clock.cindex
            && proposal.action == action
  {
    hide Inv, Step, Apply, CallOk, Action.Electors;
    RunKeeps(rules, states, calls, m);
    assert Next(rules, states[m], calls[m], states[m + 1]);
    FreshTurnout(rules, states[m], calls[m], id);
    ProposalConstant(rules, states, calls, m + 1, n, id);
  }

  // As many cycles as the lifetime covers, where attendances may vote at all.
  lemma LifetimeCovered(p: Parameters, start: nat, cindex: nat)
    requires MayVote(p, start, cindex) && start < U32_MAX
    ensures LifetimeCycles(p).value * p.cycleDuration >= p.proposalLifetime
  {
    var x, cycle := p.proposalLifetime + p.cycleDuration - 1, p.cycleDuration;
    DivIdentity(x, cycle);
    assert LifetimeCycles(p).value == x / cycle;
  }

  // Within the lifetime, the next phase change spares everybody who may vote.
  lemma LifetimeSpares(d: Scheduler.Durations, rules: Rules, states: seq<Chain>, calls: seq<Call>,
                       clocks: seq<Scheduler.State>, m: nat, i: nat, v: Attendance)
    requires IsRun(rules, states, calls) && TimedRun(d, rules, states, calls, clocks)
    requires m < i < |calls| && calls[m].SubmitCall? && Untampered(calls, i, i + 1)
    requires MayVote(rules.gov, states[m].clock.cindex, v.cindex)
    requires states[i + 1].clock.now <= states[m].clock.now + rules.gov.proposalLifetime
    ensures Spares(rules, states[i], calls[i], v)
  {
    hide Inv, IsRun, LifetimeCycles;
    var k := LifetimeCycles(rules.gov).value;
    assert InStep(d, states[m], clocks[m]);
    assert InStep(d, states[i], clocks[i]) && InStep(d, states[i + 1], clocks[i + 1]);
    assert TimedStep(d, clocks[m], calls[m], clocks[m + 1]);
    assert TimedStep(d, clocks[i], calls[i], clocks[i + 1]);
    LifetimeCovered(rules.gov, states[m].clock.cindex, v.cindex);
    if calls[i].PhaseChange? && states[i].clock.phase == Attesting {
      assert states[i + 1].clock.cindex == states[i].clock.cindex + 1;
      if states[i + 1].clock.cindex > states[m].clock.cindex + k {
        IndexPace(d, rules, states, calls, clocks, m, i + 1, k);
      }
    }
  }

  lemma TimeGrows(d: Scheduler.Durations, rules: Rules, states: seq<Chain>, calls: seq<Call>,
                  clocks: seq<Scheduler.State>, m: nat, n: nat)
    requires TimedRun(d, rules, states, calls, clocks) && m <= n <= |calls|
    ensures states[m].clock.now <= states[n].clock.now
  {
    hide TimedStep, Base;
    RunOnPace(d, rules, states, calls, clocks, m, n);
    assert InStep(d, states[m], clocks[m]) && InStep(d, states[n], clocks[n]);
  }

  lemma {:induction false} RollStands(d: Scheduler.Durations, rules: Rules, states: seq<Chain>, calls: seq<Call>,
                                      clocks: seq<Scheduler.State>, m: nat, n: nat, v: Attendance)
    requires IsRun(rules, states, calls) && TimedRun(d, rules, states, calls, clocks)
    requires m < n <= |calls| && calls[m].SubmitCall? && Untampered(calls, m, n)
    requires MayVote(rules.gov, states[m].clock.cindex, v.cindex) && Attended(states[m], v)
    requires states[n].clock.now <= states[m].clock.now + rules.gov.proposalLifetime
    ensures Attended(states[n], v)
    decreases n
  {
    hide Inv, Step, Apply, CallOk, Attended, MayVote, TimedRun, Spares;
    var i := n - 1;
    RunKeeps(rules, states, calls, i);
    assert Next(rules, states[i], calls[i], states[i + 1]);
    if i == m {
      SubmitSpares(rules, states[m], calls[m], v);
    } else {
      TimeGrows(d, rules, states, calls, clocks, i, n);
      RollStands(d, rules, states, calls, clocks, m, i, v);
      LifetimeSpares(d, rules, states, calls, clocks, m, i, v);
    }
    AttendedStays(rules, states[i], calls[i], v);
  }

  lemma SubmitSpares(rules: Rules, s: Chain, call: Call, v: Attendance)
    requires call.SubmitCall?
    ensures Spares(rules, s, call, v)
  {
  }

  /** The electorate is constant: throughout the lifetime of a proposal, in a run driven by the
      clock and without manual purges, the attendances that stand and are eligible are exactly
      those on the roll at submission. Nobody joins and nobody falls out. */
  lemma ElectorateConstant(d: Scheduler.Durations, rules: Rules, states: seq<Chain>, calls: seq<Call>,
                           clocks: seq<Scheduler.State>, m: nat, n: nat, id: nat, action: Action, v: Attendance)
    requires IsRun(rules, states, calls) && TimedRun(d, rules, states, calls, clocks)
    requires m < n <= |calls| && SubmittedAt(states, m, id, action) && Untampered(calls, m, n)
    requires id in states[n].gov.proposals
    requires states[n].clock.now <= states[n].gov.proposals[id].start + rules.gov.proposalLifetime
    ensures LifetimeCycles(rules.gov).Ok?
    ensures CanVote(rules, states[n], id, v) <==> v in RollOf(rules, states[m], action.Electors())
  {
    hide Inv, Step, Apply, CallOk, TimedRun, Untampered, LifetimeCycles, Action.Electors, Roll;
    OnlyTheRollVotes(rules, states, calls, m, n, id, action);
    SubmittedNow(rules, states, calls, m, n, id, action);
    if v in RollOf(rules, states[m], action.Electors()) {
      RollMembers(states[m].cer, action.Electors(),
                  VotingFrom(rules.gov, states[m].clock.cindex, LifetimeCycles(rules.gov).value),
                  VotingTo(states[m].clock.cindex), v);
      RollStands(d, rules, states, calls, clocks, m, n, v);
    }
  }
}
