/**
 Registered bootstrappers over whole runs, assuming that each community identifier always comes
 with the same list of bootstrappers. (An identifier contains a checksum of the list, so different
 lists can share one.) Then only members of the list are ever registered as bootstrappers, and
 seat assignment never runs out of seats for them.
 */
module Roster {
  import opened Primitives
  import opened ParticipantRegistry
  import opened Hall
  import opened Ceremonies
  import opened Chain
  import MJ = MeetupJudgement
  import CI = CeremonyInvariants

  ghost function Enlisted(s: Ceremonies.State, cc: CommunityCeremony): set<Account> {
    HallAt(s, cc).bootstrappers.index.Keys
  }

  // A step that registers as bootstrappers only those on the list of the community.
  ghost predicate Admits(s: Ceremonies.State, t: Ceremonies.State) {
    && t.bootstrappers == s.bootstrappers
    && forall cc: CommunityCeremony, a: Account :: a in Enlisted(t, cc) ==>
         a in Enlisted(s, cc) || a in BootstrappersOf(s, cc.cid)
  }

  lemma AdmitsTransitive(s: Ceremonies.State, t: Ceremonies.State, u: Ceremonies.State)
    requires Admits(s, t) && Admits(t, u)
    ensures Admits(s, u)
  {
  }

  // A write that leaves the bootstrapper registry of its ceremony alone.
  lemma PutAdmits(s: Ceremonies.State, cc: CommunityCeremony, h: Hall)
    requires forall a :: a in h.bootstrappers.index ==> a in Enlisted(s, cc) || a in BootstrappersOf(s, cc.cid)
    ensures Admits(s, Put(s, cc, h))
  {
  }

  lemma RegisterAsAdmits(s: Ceremonies.State, cc: CommunityCeremony, c: Category, a: Account)
    requires c == Bootstrapper ==> a in BootstrappersOf(s, cc.cid)
    ensures RegisterAs(s, cc, c, a).Ok? ==> Admits(s, RegisterAs(s, cc, c, a).value)
  {
    var h := HallAt(s, cc);
    PutAdmits(s, cc, h.With(c, Append(h.RegistryOf(c), a)));
  }

  lemma RegisterAdmits(cfg: Config, s: Ceremonies.State, cc: CommunityCeremony, a: Account, reputable: bool,
                       issued: bool)
    ensures var r := Register(cfg, s, cc, a, reputable, issued);
            r.Ok? ==> Admits(s, r.value)
  {
    hide Admits, RegisterAs;
    if a in BootstrappersOf(s, cc.cid) {
      RegisterAsAdmits(s, cc, Bootstrapper, a);
    } else {
      RegisterAsAdmits(s, cc, Reputable, a);
      RegisterAsAdmits(s, cc, Newbie, a);
      var endorsed := EndorsedAt(s, a, cc, cfg.reputationLifetime, 0);
      if endorsed.Some? {
        var from := CC(cc.cid, endorsed.value);
        var t := RemoveEndorsement(s, from, a);
        PutAdmits(s, from, HallAt(s, from).(endorsements := HallAt(s, from).endorsements - {a}));
        RegisterAsAdmits(t, cc, Endorsee, a);
        if RegisterAs(t, cc, Endorsee, a).Ok? {
          AdmitsTransitive(s, t, RegisterAs(t, cc, Endorsee, a).value);
        }
      }
    }
  }

  lemma ReputationAdmits(s: Ceremonies.State, cc: CommunityCeremony, a: Account, r: Reputation)
    ensures Admits(s, SetReputation(s, cc, a, r))
  {
    PutAdmits(s, cc, HallAt(s, cc).(reputation := HallAt(s, cc).reputation[a := r]));
  }

  lemma RegisterParticipantAdmits(cfg: Config, clock: Clock, s: Ceremonies.State, sender: Account, cid: Cid,
                                  proof: Option<ProofOfAttendance>, issued: bool)
    ensures var r := RegisterParticipant(cfg, clock, s, sender, cid, proof, issued);
            r.Ok? ==> Admits(s, r.value)
  {
    hide Admits, Register, CheckProof, SetReputation;
    var cc := CC(cid, Target(clock));
    match proof {
      case None => RegisterAdmits(cfg, s, cc, sender, false, issued);
      case Some(p) =>
        var linked := SetReputation(s, CC(p.cid, p.cindex), p.attendee, VerifiedLinked(cc.cindex));
        var marked := SetReputation(linked, cc, sender, UnverifiedReputable);
        ReputationAdmits(s, CC(p.cid, p.cindex), p.attendee, VerifiedLinked(cc.cindex));
        ReputationAdmits(linked, cc, sender, UnverifiedReputable);
        AdmitsTransitive(s, linked, marked);
        RegisterAdmits(cfg, marked, cc, sender, true, issued);
        if Register(cfg, marked, cc, sender, true, issued).Ok? {
          AdmitsTransitive(s, marked, Register(cfg, marked, cc, sender, true, issued).value);
        }
    }
  }

  lemma RemoveAdmits(clock: Clock, s: Ceremonies.State, cc: CommunityCeremony, a: Account)
    requires CI.Inv(clock, s)
    ensures var r := RemoveParticipant(clock, s, cc, a);
            r.Ok? ==> Admits(s, r.value)
  {
    hide CI.HallOk;
    var h := HallAt(s, cc);
    if RemoveParticipant(clock, s, cc, a).Ok? {
      var c := h.CategoryOf(a).value;
      CI.HallAtOk(clock, s, cc);
      ContiguousAt(clock, cc.cindex, h, c);
      SwapRemoveKeepsContiguous(h.RegistryOf(c), a);
      PutAdmits(s, cc, h.With(c, SwapRemove(h.RegistryOf(c), a)));
    }
  }

  lemma ContiguousAt(clock: Clock, i: nat, h: Hall, c: Category)
    requires CI.HallOk(clock, i, h)
    ensures Contiguous(h.RegistryOf(c))
  {
  }

  lemma UpgradeAdmits(cfg: Config, clock: Clock, s: Ceremonies.State, sender: Account, cid: Cid,
                      proof: ProofOfAttendance, issued: bool)
    requires CI.Inv(clock, s)
    ensures var r := UpgradeRegistration(cfg, clock, s, sender, cid, proof, issued);
            r.Ok? ==> Admits(s, r.value)
  {
    hide Admits, RemoveParticipant, RegisterParticipant, CI.Inv;
    var cc := CC(cid, Target(clock));
    var removed := RemoveParticipant(clock, s, cc, sender);
    RemoveAdmits(clock, s, cc, sender);
    if removed.Ok? {
      RegisterParticipantAdmits(cfg, clock, removed.value, sender, cid, Some(proof), issued);
      var r := RegisterParticipant(cfg, clock, removed.value, sender, cid, Some(proof), issued);
      if r.Ok? {
        AdmitsTransitive(s, removed.value, r.value);
      }
    }
  }

  lemma RefundAdmits(cfg: Config, s: Ceremonies.State, sender: Account, cc: CommunityCeremony, from: CommunityCeremony)
    ensures Refund(cfg, s, sender, cc, from).Ok? ==> Admits(s, Refund(cfg, s, sender, cc, from).value)
  {
    hide Admits;
    var unlinked := SetReputation(s, from, sender, VerifiedUnlinked);
    ReputationAdmits(s, from, sender, VerifiedUnlinked);
    var h := HallAt(unlinked, cc).(reputation := HallAt(unlinked, cc).reputation - {sender});
    PutAdmits(unlinked, cc, h);
    AdmitsTransitive(s, unlinked, Put(unlinked, cc, h));
  }

  lemma UnregisterAdmits(cfg: Config, clock: Clock, s: Ceremonies.State, sender: Account, cid: Cid,
                         refund: Option<CommunityCeremony>)
    requires CI.Inv(clock, s)
    ensures var r := UnregisterParticipant(cfg, clock, s, sender, cid, refund);
            r.Ok? ==> Admits(s, r.value)
  {
    hide Admits, Refund, RemoveParticipant, CI.HallOk, CI.HallStep, CI.Step;
    var cc := CC(cid, Target(clock));
    RemoveAdmits(clock, s, cc, sender);
    if refund.Some? && Refund(cfg, s, sender, cc, refund.value).Ok? {
      var refunded := Refund(cfg, s, sender, cc, refund.value).value;
      RefundAdmits(cfg, s, sender, cc, refund.value);
      CI.RefundKeeps(cfg, clock, s, sender, cc, refund.value);
      RemoveAdmits(clock, refunded, cc, sender);
      if RemoveParticipant(clock, refunded, cc, sender).Ok? {
        AdmitsTransitive(s, refunded, RemoveParticipant(clock, refunded, cc, sender).value);
      }
    }
  }

  lemma EndorseAdmits(cfg: Config, clock: Clock, s: Ceremonies.State, cid: Cid, newbie: Account, hasTicket: bool,
                      issued: bool)
    requires CI.Inv(clock, s)
    ensures var r := EndorseNewcomer(cfg, clock, s, cid, newbie, hasTicket, issued);
            r.Ok? ==> Admits(s, r.value)
  {
    hide Admits, Register, RemoveParticipant, EndorsedAt, CI.HallOk, CI.HallStep, CI.Step;
    var cc := CC(cid, if clock.phase == Registering then clock.cindex else clock.cindex + 1);
    var h := HallAt(s, cc);
    var endorsed := Put(s, cc, h.(endorsements := h.endorsements + {newbie}));
    PutAdmits(s, cc, h.(endorsements := h.endorsements + {newbie}));
    CI.EndorsementKeeps(clock, s, cc, h.endorsements + {newbie});
    RemoveAdmits(clock, endorsed, cc, newbie);
    var removed := RemoveParticipant(clock, endorsed, cc, newbie);
    if removed.Ok? {
      AdmitsTransitive(s, endorsed, removed.value);
      RegisterAdmits(cfg, removed.value, cc, newbie, false, issued);
      if Register(cfg, removed.value, cc, newbie, false, issued).Ok? {
        AdmitsTransitive(s, removed.value, Register(cfg, removed.value, cc, newbie, false, issued).value);
      }
    }
  }

  lemma ClaimAdmits(clock: Clock, s: Ceremonies.State, sender: Account, cid: Cid, named: Option<nat>,
                    verdict: Verdict, failures: set<nat>)
    requires CI.Inv(clock, s)
    ensures var r := ClaimRewards(clock, s, sender, cid, named, verdict, failures);
            r.Ok? ==> Admits(s, r.value)
  {
    hide ParticipantsOf, MeetupOf, Reward, CI.HallOk;
    var cc := CC(cid, ClaimIndex(clock));
    var h := HallAt(s, cc);
    var r := ClaimRewards(clock, s, sender, cid, named, verdict, failures);
    CI.HallAtOk(clock, s, cc);
    CountBound(clock, cc.cindex, h);
    if r.Ok? && verdict.Judged? {
      var people := ParticipantsOf(h, ClaimedMeetup(h, sender, named).value).value;
      CI.RewardEffect(h, people, verdict.legit, failures);
    }
  }

  lemma CountBound(clock: Clock, i: nat, h: Hall)
    requires CI.HallOk(clock, i, h)
    ensures |h.VerifiedAccounts()| <= h.reputationCount
  {
  }

  // ---------- runs ----------

  // The list of each community is the one assumed for its identifier.
  ghost predicate Listed(roster: Cid -> seq<Account>, s: Ceremonies.State) {
    && (forall cid :: cid in s.bootstrappers ==> s.bootstrappers[cid] == roster(cid))
    && forall cc: CommunityCeremony, a: Account :: a in Enlisted(s, cc) ==> a in roster(cc.cid)
  }

  ghost predicate FixedLists(roster: Cid -> seq<Account>, states: seq<Chain>, calls: seq<Call>) {
    && |states| > 0
    && (forall cid :: cid in states[0].cer.bootstrappers ==> states[0].cer.bootstrappers[cid] == roster(cid))
    && forall call :: call in calls && call.NewCommunityCall? ==> call.bootstrappers == roster(call.cid)
  }

  lemma AdmitsKeepsListed(roster: Cid -> seq<Account>, s: Ceremonies.State, t: Ceremonies.State)
    requires Listed(roster, s) && Admits(s, t)
    ensures Listed(roster, t)
  {
  }

  // Fewer halls and fewer lists.
  lemma FewerKeepsListed(roster: Cid -> seq<Account>, s: Ceremonies.State, t: Ceremonies.State)
    requires Listed(roster, s)
    requires forall cid :: cid in t.bootstrappers ==>
               || t.bootstrappers[cid] == roster(cid)
               || (cid in s.bootstrappers && t.bootstrappers[cid] == s.bootstrappers[cid])
    requires forall cc :: cc in t.halls ==> HallAt(t, cc).bootstrappers == HallAt(s, cc).bootstrappers
    ensures Listed(roster, t)
  {
  }

  lemma CallKeepsListed(roster: Cid -> seq<Account>, rules: Rules, s: Chain, call: Call)
    requires Inv(rules, s) && CallOk(rules, s, call) && Listed(roster, s.cer)
    requires call.NewCommunityCall? ==> call.bootstrappers == roster(call.cid)
    requires !call.PhaseChange?
    ensures Listed(roster, Apply(rules, s, call).cer)
  {
    hide Listed, Admits, CI.Inv, GI.Inv, RegisterParticipant, UpgradeRegistration, UnregisterParticipant,
         EndorseNewcomer,
         ClaimRewards, MJ.ClaimVerdict;
    var cfg, t := rules.Config(), Apply(rules, s, call);
    if call.PurgeCall? || call.NewCommunityCall? || call.RemoveCommunityCall? {
      ListedEntries(roster, s.cer);
      FewerKeepsListed(roster, s.cer, t.cer);
    } else if call.RegisterCall? {
      RegisterParticipantAdmits(cfg, s.clock, s.cer, call.sender, call.cid, call.proof, call.issued);
      if t.cer != s.cer { AdmitsKeepsListed(roster, s.cer, t.cer); }
    } else if call.UpgradeCall? {
      UpgradeAdmits(cfg, s.clock, s.cer, call.sender, call.cid, call.attendance, call.issued);
      if t.cer != s.cer { AdmitsKeepsListed(roster, s.cer, t.cer); }
    } else if call.UnregisterCall? {
      UnregisterAdmits(cfg, s.clock, s.cer, call.sender, call.cid, call.refund);
      if t.cer != s.cer { AdmitsKeepsListed(roster, s.cer, t.cer); }
    } else if call.EndorseCall? {
      EndorseAdmits(cfg, s.clock, s.cer, call.cid, call.newbie, call.hasTicket, call.issued);
      if t.cer != s.cer { AdmitsKeepsListed(roster, s.cer, t.cer); }
    } else if call.ClaimCall? {
      var verdict := MJ.ClaimVerdict(s.clock, s.cer, call.sender, call.cid, call.named, call.ballot);
      ClaimAdmits(s.clock, s.cer, call.sender, call.cid, call.named, verdict, call.failures);
      if t.cer != s.cer { AdmitsKeepsListed(roster, s.cer, t.cer); }
    } else {
      GovernanceOnly(rules, s, call);
    }
  }

  lemma ListedEntries(roster: Cid -> seq<Account>, s: Ceremonies.State)
    requires Listed(roster, s)
    ensures forall cid :: cid in s.bootstrappers ==> s.bootstrappers[cid] == roster(cid)
  {
  }

  lemma GovernanceOnly(rules: Rules, s: Chain, call: Call)
    requires CallOk(rules, s, call)
    requires call.RegisterPurposeCall? || call.CommitCall? || call.SubmitCall? || call.VoteCall? || call.UpdateCall? ||
             call.Tick?
    ensures Apply(rules, s, call).cer == s.cer
  {
  }

  lemma {:induction false} PurgeKeepsListed(roster: Cid -> seq<Account>, cfg: Config, cindex: nat, s: Ceremonies.State,
                                            inactives: seq<Cid>)
    requires Listed(roster, s)
    ensures Listed(roster, PurgeInactive(cfg, cindex, s, inactives))
    decreases |inactives|
  {
    if inactives != [] {
      var t := PurgeCommunity(cfg, cindex, s, inactives[0]);
      FewerKeepsListed(roster, s, t);
      PurgeKeepsListed(roster, cfg, cindex, t, inactives[1..]);
    }
  }

  lemma AssignKeepsListed(roster: Cid -> seq<Account>, cfg: Config, s: Ceremonies.State, cindex: nat,
                          inputs: map<Cid, SeatInput>)
    requires Listed(roster, s) && SeatInputsOk(cfg, s, cindex, inputs)
    ensures Listed(roster, AssignAll(cfg, s, cindex, inputs))
  {
    hide AssignSeats, SeatInputOk;
    var t := AssignAll(cfg, s, cindex, inputs);
    forall cc | cc in t.halls ensures HallAt(t, cc).bootstrappers == HallAt(s, cc).bootstrappers {
      if cc.cid in s.communities && cc.cindex == cindex {
        CI.AssignOnlySeats(cfg.seating, HallAt(s, cc), SeatInputFor(inputs, cc.cid));
      }
    }
    FewerKeepsListed(roster, s, t);
  }

  lemma PhaseKeepsListed(roster: Cid -> seq<Account>, rules: Rules, s: Chain, call: Call)
    requires CallOk(rules, s, call) && Listed(roster, s.cer) && call.PhaseChange?
    ensures Listed(roster, Apply(rules, s, call).cer)
  {
    hide Listed, AssignAll, SeatInputsOk, PurgeInactive;
    var cfg := rules.Config();
    match s.clock.phase {
      case Registering =>
        PurgeKeepsListed(roster, cfg, s.clock.cindex, s.cer, call.inactives);
        var kept := PurgeInactive(cfg, s.clock.cindex, s.cer, call.inactives);
        AssignKeepsListed(roster, cfg, kept, s.clock.cindex, call.seats);
      case Assigning =>
      case Attesting => FewerKeepsListed(roster, s.cer, Apply(rules, s, call).cer);
    }
  }

  lemma {:induction false} RunKeepsListed(roster: Cid -> seq<Account>, rules: Rules, states: seq<Chain>,
                                          calls: seq<Call>,
                                          n: nat)
    requires IsRun(rules, states, calls) && FixedLists(roster, states, calls) && n <= |calls|
    ensures Listed(roster, states[n].cer)
  {
    hide Listed, Apply, CallOk, Inv, Step;
    if n == 0 {
      GenesisListed(roster, states[0]);
    } else {
      RunKeepsListed(roster, rules, states, calls, n - 1);
      RunKeeps(rules, states, calls, n - 1);
      assert Next(rules, states[n - 1], calls[n - 1], states[n - 1 + 1]);
      assert calls[n - 1] in calls;
      if calls[n - 1].PhaseChange? {
        PhaseKeepsListed(roster, rules, states[n - 1], calls[n - 1]);
      } else {
        CallKeepsListed(roster, rules, states[n - 1], calls[n - 1]);
      }
    }
  }

  lemma GenesisListed(roster: Cid -> seq<Account>, s: Chain)
    requires Genesis(s) && forall cid :: cid in s.cer.bootstrappers ==> s.cer.bootstrappers[cid] == roster(cid)
    ensures Listed(roster, s.cer)
  {
  }

  lemma {:induction false} AccountsFit(s: set<Account>, list: seq<Account>)
    requires forall a :: a in s ==> a in list
    ensures |s| <= |list|
    decreases |list|
  {
    if list == [] {
      assert s == {};
    } else {
      var front, last := list[..|list| - 1], list[|list| - 1];
      assert list == front + [last];
      AccountsFit(s - {last}, front);
    }
  }

  /** In every reachable state at most as many bootstrappers are registered as their list has,
      so with lists no longer than the target size of a meetup seats never run out for them. */
  lemma SeatsNeverUnderflow(roster: Cid -> seq<Account>, rules: Rules, states: seq<Chain>, calls: seq<Call>, n: nat,
                            cc: CommunityCeremony, locations: nat)
    requires IsRun(rules, states, calls) && FixedLists(roster, states, calls) && n <= |calls|
    ensures HallAt(states[n].cer, cc).bootstrappers.count <= |roster(cc.cid)|
    ensures |roster(cc.cid)| <= rules.seating.target ==>
              Allowance(rules.seating, HallAt(states[n].cer, cc), locations) != Err(SeatsUnderflow)
  {
    hide Inv, CI.HallOk, Allowance;
    var h := HallAt(states[n].cer, cc);
    RunKeepsListed(roster, rules, states, calls, n);
    RunKeeps(rules, states, calls, n);
    HallInRun(rules, states[n], cc);
    CountIsMembers(h.bootstrappers);
    AccountsFit(h.bootstrappers.index.Keys, roster(cc.cid));
    if |roster(cc.cid)| <= rules.seating.target {
      SeatsSuffice(rules.seating, h, locations);
    }
  }

  lemma HallInRun(rules: Rules, s: Chain, cc: CommunityCeremony)
    requires Inv(rules, s)
    ensures Contiguous(HallAt(s.cer, cc).bootstrappers)
  {
    hide CI.HallOk;
    CI.HallAtOk(s.clock, s.cer, cc);
    ContiguousAt(s.clock, cc.cindex, HallAt(s.cer, cc), Bootstrapper);
  }
}
