/**
 What stands of the verified attendances: only claims add to them, and only purges drop them.
 Registrations, refunds and endorsements leave the set of verified accounts of every ceremony alone.
 */
module Standing {
  import opened Primitives
  import opened ParticipantRegistry
  import opened Hall
  import opened Ceremonies
  import opened Chain
  import MJ = MeetupJudgement
  import CI = CeremonyInvariants

  // Meetups and verified accounts of every ceremony stay the same.
  ghost predicate Steady(s: Ceremonies.State, t: Ceremonies.State) {
    forall cc: CommunityCeremony ::
      && HallAt(t, cc).meetups == HallAt(s, cc).meetups
      && HallAt(t, cc).VerifiedAccounts() == HallAt(s, cc).VerifiedAccounts()
  }

  lemma SteadyTransitive(s: Ceremonies.State, t: Ceremonies.State, u: Ceremonies.State)
    requires Steady(s, t) && Steady(t, u)
    ensures Steady(s, u)
  {
  }

  lemma PutSteady(s: Ceremonies.State, cc: CommunityCeremony, h: Hall)
    requires h.meetups == HallAt(s, cc).meetups && h.VerifiedAccounts() == HallAt(s, cc).VerifiedAccounts()
    ensures Steady(s, Put(s, cc, h))
  {
  }

  lemma SameReputation(h: Hall, h': Hall)
    requires h'.reputation == h.reputation
    ensures h'.VerifiedAccounts() == h.VerifiedAccounts()
  {
  }

  lemma RegisterAsSteady(s: Ceremonies.State, cc: CommunityCeremony, c: Category, a: Account)
    ensures RegisterAs(s, cc, c, a).Ok? ==> Steady(s, RegisterAs(s, cc, c, a).value)
  {
    var h := HallAt(s, cc);
    var h' := h.With(c, Append(h.RegistryOf(c), a));
    SameReputation(h, h');
    PutSteady(s, cc, h');
  }

  lemma EndorsementsSteady(s: Ceremonies.State, cc: CommunityCeremony, endorsements: set<Account>)
    ensures Steady(s, Put(s, cc, HallAt(s, cc).(endorsements := endorsements)))
  {
    SameReputation(HallAt(s, cc), HallAt(s, cc).(endorsements := endorsements));
    PutSteady(s, cc, HallAt(s, cc).(endorsements := endorsements));
  }

  lemma RegisterSteady(cfg: Config, s: Ceremonies.State, cc: CommunityCeremony, a: Account, reputable: bool,
                       issued: bool)
    ensures Register(cfg, s, cc, a, reputable, issued).Ok? ==>
              Steady(s, Register(cfg, s, cc, a, reputable, issued).value)
  {
    hide Steady, RegisterAs;
    RegisterAsSteady(s, cc, Bootstrapper, a);
    RegisterAsSteady(s, cc, Reputable, a);
    RegisterAsSteady(s, cc, Newbie, a);
    var endorsed := EndorsedAt(s, a, cc, cfg.reputationLifetime, 0);
    if endorsed.Some? {
      var from := CC(cc.cid, endorsed.value);
      var t := RemoveEndorsement(s, from, a);
      EndorsementsSteady(s, from, HallAt(s, from).endorsements - {a});
      RegisterAsSteady(t, cc, Endorsee, a);
      if RegisterAs(t, cc, Endorsee, a).Ok? {
        SteadyTransitive(s, t, RegisterAs(t, cc, Endorsee, a).value);
      }
    }
  }

  // A write that makes nobody verified who was not, nor the other way round.
  lemma WriteSteady(s: Ceremonies.State, cc: CommunityCeremony, a: Account, r: Reputation)
    requires r.IsVerified() <==> HallAt(s, cc).ReputationOf(a).IsVerified()
    ensures Steady(s, SetReputation(s, cc, a, r))
  {
    var h := HallAt(s, cc);
    var h' := h.(reputation := h.reputation[a := r]);
    assert h'.VerifiedAccounts() == h.VerifiedAccounts();
    PutSteady(s, cc, h');
  }

  // Nobody is verified yet at a ceremony still open.
  lemma OpenHall(clock: Clock, s: Ceremonies.State, cc: CommunityCeremony, a: Account)
    requires CI.Inv(clock, s) && !CI.Past(clock, cc.cindex)
    ensures HallAt(s, cc).VerifiedAccounts() == {} && HallAt(s, cc).meetups == 0
    ensures !HallAt(s, cc).ReputationOf(a).IsVerified()
  {
    CI.HallAtOk(clock, s, cc);
    var h := HallAt(s, cc);
    assert a in h.VerifiedAccounts() <==> a in h.reputation && h.reputation[a].IsVerified();
  }

  lemma ProofFacts(cfg: Config, clock: Clock, s: Ceremonies.State, sender: Account, cid: Cid, p: ProofOfAttendance,
                   issued: bool)
    requires RegisterParticipant(cfg, clock, s, sender, cid, Some(p), issued).Ok?
    ensures var cc := CC(cid, Target(clock));
            && p.cindex < cc.cindex && cc.cindex <= p.cindex + cfg.reputationLifetime && !CI.Past(clock, cc.cindex)
            && HallAt(s, CC(p.cid, p.cindex)).ReputationOf(p.attendee).IsVerifiedAndUnlinkedFor(cc.cindex)
            && RegisterParticipant(cfg, clock, s, sender, cid, Some(p), issued) ==
               Register(cfg, LinkedState(s, cc, sender, p), cc, sender, true, issued)
  {
    hide Register, SetReputation;
  }

  // The state in which the attendance is linked and the sender marked, before it is registered.
  function LinkedState(s: Ceremonies.State, cc: CommunityCeremony, sender: Account, p: ProofOfAttendance)
    : Ceremonies.State
  {
    SetReputation(SetReputation(s, CC(p.cid, p.cindex), p.attendee, VerifiedLinked(cc.cindex)),
                  cc, sender, UnverifiedReputable)
  }

  lemma LinkedSteady(clock: Clock, s: Ceremonies.State, cc: CommunityCeremony, sender: Account, p: ProofOfAttendance)
    requires CI.Inv(clock, s) && !CI.Past(clock, cc.cindex) && p.cindex < cc.cindex
    requires HallAt(s, CC(p.cid, p.cindex)).ReputationOf(p.attendee).IsVerified()
    ensures Steady(s, LinkedState(s, cc, sender, p))
  {
    hide CI.Inv, Steady, SetReputation;
    var from := CC(p.cid, p.cindex);
    var linked := SetReputation(s, from, p.attendee, VerifiedLinked(cc.cindex));
    WriteSteady(s, from, p.attendee, VerifiedLinked(cc.cindex));
    OpenHall(clock, s, cc, sender);
    OtherHall(s, from, p.attendee, VerifiedLinked(cc.cindex), cc);
    WriteSteady(linked, cc, sender, UnverifiedReputable);
    SteadyTransitive(s, linked, SetReputation(linked, cc, sender, UnverifiedReputable));
  }

  lemma OtherHall(s: Ceremonies.State, cc: CommunityCeremony, a: Account, r: Reputation, other: CommunityCeremony)
    requires other != cc
    ensures HallAt(SetReputation(s, cc, a, r), other) == HallAt(s, other)
  {
  }

  lemma RegisterParticipantSteady(cfg: Config, clock: Clock, s: Ceremonies.State, sender: Account, cid: Cid,
                                  proof: Option<ProofOfAttendance>, issued: bool)
    requires CI.Inv(clock, s)
    ensures var r := RegisterParticipant(cfg, clock, s, sender, cid, proof, issued);
            r.Ok? ==> Steady(s, r.value)
  {
    hide CI.Inv, Steady, Register, LinkedState;
    var cc := CC(cid, Target(clock));
    if RegisterParticipant(cfg, clock, s, sender, cid, proof, issued).Ok? {
      match proof {
        case None => RegisterSteady(cfg, s, cc, sender, false, issued);
        case Some(p) =>
          ProofFacts(cfg, clock, s, sender, cid, p, issued);
          var marked := LinkedState(s, cc, sender, p);
          LinkedSteady(clock, s, cc, sender, p);
          RegisterSteady(cfg, marked, cc, sender, true, issued);
          SteadyTransitive(s, marked, Register(cfg, marked, cc, sender, true, issued).value);
      }
    }
  }

  lemma RemoveSteady(clock: Clock, s: Ceremonies.State, cc: CommunityCeremony, a: Account)
    ensures RemoveParticipant(clock, s, cc, a).Ok? ==> Steady(s, RemoveParticipant(clock, s, cc, a).value)
  {
    var h := HallAt(s, cc);
    if RemoveParticipant(clock, s, cc, a).Ok? {
      var c := h.CategoryOf(a).value;
      var h' := h.With(c, SwapRemove(h.RegistryOf(c), a));
      SameReputation(h, h');
      PutSteady(s, cc, h');
    }
  }

  lemma UpgradeSteady(cfg: Config, clock: Clock, s: Ceremonies.State, sender: Account, cid: Cid, p: ProofOfAttendance,
                      issued: bool)
    requires CI.Inv(clock, s)
    ensures var r := UpgradeRegistration(cfg, clock, s, sender, cid, p, issued);
            r.Ok? ==> Steady(s, r.value)
  {
    hide Steady, RegisterParticipant, RemoveParticipant, CI.HallOk, CI.HallStep, CI.Step;
    var cc := CC(cid, Target(clock));
    if UpgradeRegistration(cfg, clock, s, sender, cid, p, issued).Ok? {
      var removed := RemoveParticipant(clock, s, cc, sender).value;
      RemoveSteady(clock, s, cc, sender);
      CI.RemoveParticipantKeeps(clock, s, cc, sender);
      RegisterParticipantSteady(cfg, clock, removed, sender, cid, Some(p), issued);
      SteadyTransitive(s, removed, RegisterParticipant(cfg, clock, removed, sender, cid, Some(p), issued).value);
    }
  }

  lemma RefundSteady(cfg: Config, clock: Clock, s: Ceremonies.State, sender: Account, cc: CommunityCeremony,
                     from: CommunityCeremony)
    requires CI.Inv(clock, s) && !CI.Past(clock, cc.cindex) && Refund(cfg, s, sender, cc, from).Ok?
    ensures Steady(s, Refund(cfg, s, sender, cc, from).value)
  {
    hide Steady, CI.Inv;
    var unlinked := SetReputation(s, from, sender, VerifiedUnlinked);
    WriteSteady(s, from, sender, VerifiedUnlinked);
    OpenHall(clock, s, cc, sender);
    assert from != cc;
    OtherHall(s, from, sender, VerifiedUnlinked, cc);
    var h := HallAt(unlinked, cc);
    var h' := h.(reputation := h.reputation - {sender});
    assert h'.VerifiedAccounts() == h.VerifiedAccounts();
    PutSteady(unlinked, cc, h');
    SteadyTransitive(s, unlinked, Put(unlinked, cc, h'));
  }

  lemma UnregisterSteady(cfg: Config, clock: Clock, s: Ceremonies.State, sender: Account, cid: Cid,
                         refund: Option<CommunityCeremony>)
    requires CI.Inv(clock, s)
    ensures var r := UnregisterParticipant(cfg, clock, s, sender, cid, refund);
            r.Ok? ==> Steady(s, r.value)
  {
    hide Steady, Refund, RemoveParticipant, CI.Inv;
    var cc := CC(cid, Target(clock));
    if UnregisterParticipant(cfg, clock, s, sender, cid, refund).Ok? {
      RemoveSteady(clock, s, cc, sender);
      if refund.Some? && Refund(cfg, s, sender, cc, refund.value).Ok? {
        var refunded := Refund(cfg, s, sender, cc, refund.value).value;
        RefundSteady(cfg, clock, s, sender, cc, refund.value);
        RemoveSteady(clock, refunded, cc, sender);
        if RemoveParticipant(clock, refunded, cc, sender).Ok? {
          SteadyTransitive(s, refunded, RemoveParticipant(clock, refunded, cc, sender).value);
        }
      }
    }
  }

  lemma EndorseSteady(cfg: Config, clock: Clock, s: Ceremonies.State, cid: Cid, newbie: Account, hasTicket: bool,
                      issued: bool)
    ensures var r := EndorseNewcomer(cfg, clock, s, cid, newbie, hasTicket, issued);
            r.Ok? ==> Steady(s, r.value)
  {
    hide Steady, Register, RemoveParticipant, EndorsedAt;
    var cc := CC(cid, if clock.phase == Registering then clock.cindex else clock.cindex + 1);
    var h := HallAt(s, cc);
    if EndorseNewcomer(cfg, clock, s, cid, newbie, hasTicket, issued).Ok? {
      var endorsed := Put(s, cc, h.(endorsements := h.endorsements + {newbie}));
      EndorsementsSteady(s, cc, h.endorsements + {newbie});
      if newbie in h.newbies.index {
        var removed := RemoveParticipant(clock, endorsed, cc, newbie).value;
        RemoveSteady(clock, endorsed, cc, newbie);
        SteadyTransitive(s, endorsed, removed);
        RegisterSteady(cfg, removed, cc, newbie, false, issued);
        SteadyTransitive(s, removed, Register(cfg, removed, cc, newbie, false, issued).value);
      }
    }
  }

  /** A registration call leaves the verified accounts of every ceremony alone. */
  lemma CallSteady(rules: Rules, s: Chain, call: Call)
    requires Inv(rules, s) && CallOk(rules, s, call)
    requires call.RegisterCall? || call.UpgradeCall? || call.UnregisterCall? || call.EndorseCall?
    ensures Steady(s.cer, Apply(rules, s, call).cer)
  {
    hide Steady, CI.Inv, GI.Inv, RegisterParticipant, UpgradeRegistration, UnregisterParticipant, EndorseNewcomer;
    var cfg := rules.Config();
    assert Steady(s.cer, s.cer) by { SteadyReflexive(s.cer); }
    if call.RegisterCall? {
      RegisterParticipantSteady(cfg, s.clock, s.cer, call.sender, call.cid, call.proof, call.issued);
    } else if call.UpgradeCall? {
      UpgradeSteady(cfg, s.clock, s.cer, call.sender, call.cid, call.attendance, call.issued);
    } else if call.UnregisterCall? {
      UnregisterSteady(cfg, s.clock, s.cer, call.sender, call.cid, call.refund);
    } else {
      EndorseSteady(cfg, s.clock, s.cer, call.cid, call.newbie, call.hasTicket, call.issued);
    }
  }

  lemma SteadyReflexive(s: Ceremonies.State)
    ensures Steady(s, s)
  {
  }

  // ---------- claims ----------

  // Who is paid becomes verified and unlinked; nobody else's reputation changes.
  ghost predicate Paid(h: Hall, g: Hall, paid: seq<Account>, a: Account) {
    if a in paid then a in g.reputation && g.reputation[a] == VerifiedUnlinked
    else (a in g.reputation <==> a in h.reputation) && (a in h.reputation ==> g.reputation[a] == h.reputation[a])
  }

  lemma {:induction false} RewardReputations(h: Hall, participants: seq<Account>, legit: seq<nat>, failures: set<nat>,
                                             a: Account)
    requires Reward(h, participants, legit, failures).Ok?
    ensures Paid(h, Reward(h, participants, legit, failures).value, Payees(participants, legit, failures), a)
  {
    if legit != [] {
      RewardReputations(h, participants, legit[..|legit| - 1], failures, a);
    }
  }

  // The hall a claim writes, and how.
  lemma ClaimWrites(clock: Clock, s: Ceremonies.State, sender: Account, cid: Cid, named: Option<nat>,
                    verdict: Verdict, failures: set<nat>)
    requires ClaimRewards(clock, s, sender, cid, named, verdict, failures).Ok?
    ensures var cc := CC(cid, ClaimIndex(clock));
            var t := ClaimRewards(clock, s, sender, cid, named, verdict, failures).value;
            && (forall other: CommunityCeremony :: other != cc ==> HallAt(t, other) == HallAt(s, other))
            && HallAt(t, cc).meetups == HallAt(s, cc).meetups
            && forall a: Account ::
                 Paid(HallAt(s, cc), HallAt(t, cc), PaidBy(clock, s, sender, cid, named, verdict, failures), a)
  {
    hide ParticipantsOf, MeetupOf, Reward, Payees;
    var cc := CC(cid, ClaimIndex(clock));
    var h, t := HallAt(s, cc), ClaimRewards(clock, s, sender, cid, named, verdict, failures).value;
    var people := ParticipantsOf(h, ClaimedMeetup(h, sender, named).value).value;
    if verdict.Judged? {
      RewardMeetups(h, people, verdict.legit, failures);
    }
    forall a: Account
      ensures Paid(h, HallAt(t, cc), PaidBy(clock, s, sender, cid, named, verdict, failures), a)
    {
      if verdict.Judged? {
        RewardReputations(h, people, verdict.legit, failures, a);
      }
    }
  }

  lemma {:induction false} RewardMeetups(h: Hall, participants: seq<Account>, legit: seq<nat>, failures: set<nat>)
    requires Reward(h, participants, legit, failures).Ok?
    ensures Reward(h, participants, legit, failures).value.meetups == h.meetups
  {
    if legit != [] {
      RewardMeetups(h, participants, legit[..|legit| - 1], failures);
    }
  }

  // ---------- expiry ----------

  /** Entering the registering phase drops every ceremony of a listed community that is exactly one
      reputation lifetime older than the ceremony just over, with its commitments and global count,
      and no other. */
  lemma ExpiryExactly(rules: Rules, s: Chain)
    requires s.clock.phase == Attesting
    ensures var t := EnterRegistering(rules, s);
            && t.clock == Clock(s.clock.now, Registering, s.clock.cindex + 1)
            && t.cer.communities == s.cer.communities
            && (forall cc: CommunityCeremony ::
                  HallAt(t.cer, cc) ==
                  if cc.cid in s.cer.communities && cc.cindex + rules.gov.reputationLifetime == s.clock.cindex
                  then EMPTY_HALL else HallAt(s.cer, cc))
            && (forall i: nat ::
                  GlobalCount(t.cer, i) ==
                  if s.cer.communities != [] && i + rules.gov.reputationLifetime == s.clock.cindex
                  then 0 else GlobalCount(s.cer, i))
            && (forall k :: k in t.gov.commitments.commitments <==>
                  && k in s.gov.commitments.commitments
                  && !(k.cid in s.cer.communities && k.cindex + rules.gov.reputationLifetime == s.clock.cindex))
            && t.gov.proposals == s.gov.proposals && t.gov.tallies == s.gov.tallies && t.gov.queue == s.gov.queue
  {
  }

  /** An inactive community is purged with its ceremonies of one reputation lifetime and the current
      one, and no others. */
  lemma InactiveExactly(cfg: Config, cindex: nat, s: Ceremonies.State, cid: Cid)
    ensures var t := PurgeCommunity(cfg, cindex, s, cid);
            && (forall c :: c in t.communities <==> c in s.communities && c != cid)
            && (forall cc: CommunityCeremony ::
                  HallAt(t, cc) ==
                  if cc.cid == cid && cc.cindex <= cindex <= cc.cindex + cfg.reputationLifetime
                  then EMPTY_HALL else HallAt(s, cc))
            && forall i: nat ::
                 GlobalCount(t, i) == if i <= cindex <= i + cfg.reputationLifetime then 0 else GlobalCount(s, i)
  {
  }
}
