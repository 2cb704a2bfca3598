/** What every ceremonies call and hook keeps, and what it can never change. */
module CeremonyInvariants {
  import opened Primitives
  import opened ParticipantRegistry
  import opened Hall
  import opened Ceremonies

  // The registration of ceremony i is closed: its seats have been, or will never be, assigned.
  predicate Past(clock: Clock, i: nat) {
    i < clock.cindex || (i == clock.cindex && clock.phase != Registering)
  }

  // No reward is issued at index i any more (nor ever at index 0).
  predicate Frozen(clock: Clock, i: nat) {
    i + 2 <= clock.cindex || i == 0
  }

  ghost predicate Untouched(h: Hall) {
    h.meetups == 0 && h.counts == NO_COUNTS && h.issued == map[] && h.VerifiedAccounts() == {}
  }

  ghost predicate HallOk(clock: Clock, i: nat, h: Hall) {
    && RegistriesOk(h)
    && SeatsOk(h)
    && |h.VerifiedAccounts()| <= h.reputationCount
    && (!Past(clock, i) || i == 0 ==> Untouched(h))
  }

  ghost predicate SameSeats(h: Hall, h': Hall) {
    && h'.bootstrappers == h.bootstrappers && h'.reputables == h.reputables
    && h'.endorsees == h.endorsees && h'.newbies == h.newbies
    && h'.counts == h.counts && h'.meetups == h.meetups
    && h'.coreParams == h.coreParams && h'.endorsedParams == h.endorsedParams && h'.newbieParams == h.newbieParams
  }

  // A purged ceremony: nobody is registered and nothing is assigned.
  ghost predicate Vacated(h: Hall) {
    SameSeats(EMPTY_HALL, h)
  }

  /** Once registration closed, registries and seats stay as they are and issuance marks stay
      set until the ceremony is purged; and a frozen ceremony never gains a verified attendance. */
  ghost predicate HallStep(clock: Clock, i: nat, h: Hall, h': Hall) {
    && (Past(clock, i) ==> Vacated(h') || (SameSeats(h, h') && h.issued.Keys <= h'.issued.Keys))
    && (Frozen(clock, i) ==> h'.VerifiedAccounts() <= h.VerifiedAccounts())
  }

  ghost predicate Inv(clock: Clock, s: State) {
    && clock.cindex >= 1
    && forall cc :: cc in s.halls ==> HallOk(clock, cc.cindex, s.halls[cc])
  }

  ghost predicate Step(clock: Clock, s: State, s': State) {
    forall cc: CommunityCeremony :: HallStep(clock, cc.cindex, HallAt(s, cc), HallAt(s', cc))
  }

  ghost predicate Keeps(clock: Clock, s: State, s': State) {
    Inv(clock, s') && Step(clock, s, s')
  }

  lemma EmptyHallOk(clock: Clock, i: nat)
    ensures HallOk(clock, i, EMPTY_HALL)
  {
    forall c: Category ensures Contiguous(EMPTY_HALL.RegistryOf(c)) {}
  }

  lemma HallAtOk(clock: Clock, s: State, cc: CommunityCeremony)
    requires Inv(clock, s)
    ensures HallOk(clock, cc.cindex, HallAt(s, cc))
  {
    EmptyHallOk(clock, cc.cindex);
  }

  lemma StepTransitive(clock: Clock, s: State, t: State, u: State)
    requires Step(clock, s, t) && Step(clock, t, u)
    ensures Step(clock, s, u)
  {
    forall cc: CommunityCeremony ensures HallStep(clock, cc.cindex, HallAt(s, cc), HallAt(u, cc)) {
      assert HallStep(clock, cc.cindex, HallAt(s, cc), HallAt(t, cc));
      assert HallStep(clock, cc.cindex, HallAt(t, cc), HallAt(u, cc));
    }
  }

  // One hall at a time: a write that is fine for its hall is fine for the pallet.
  lemma PutKeeps(clock: Clock, s: State, cc: CommunityCeremony, h: Hall)
    requires Inv(clock, s)
    requires HallOk(clock, cc.cindex, h) && HallStep(clock, cc.cindex, HallAt(s, cc), h)
    ensures Keeps(clock, s, Put(s, cc, h))
  {
    hide HallOk, HallStep;
    var s' := Put(s, cc, h);
    forall c: CommunityCeremony ensures HallStep(clock, c.cindex, HallAt(s, c), HallAt(s', c)) {
      if c != cc {
        HallStepReflexive(clock, c.cindex, HallAt(s, c));
      }
    }
  }

  lemma HallStepReflexive(clock: Clock, i: nat, h: Hall)
    ensures HallStep(clock, i, h, h)
  {
  }

  // ---------- registries ----------

  lemma AddKeepsRegistries(h: Hall, c: Category, a: Account)
    requires RegistriesOk(h) && !h.IsRegistered(a)
    ensures RegistriesOk(h.With(c, Append(h.RegistryOf(c), a)))
  {
    var h' := h.With(c, Append(h.RegistryOf(c), a));
    AppendKeepsContiguous(h.RegistryOf(c), a);
    forall d: Category ensures a !in h.RegistryOf(d).index {
      match d { case Bootstrapper => case Reputable => case Endorsee => case Newbie => }
    }
    forall d: Category ensures h'.RegistryOf(d) == if d == c then Append(h.RegistryOf(c), a) else h.RegistryOf(d) {}
    forall d: Category, e: Category | d != e
      ensures h'.RegistryOf(d).index.Keys !! h'.RegistryOf(e).index.Keys
    {
      assert h.RegistryOf(d).index.Keys !! h.RegistryOf(e).index.Keys;
    }
  }

  lemma RemoveKeepsRegistries(h: Hall, a: Account)
    requires RegistriesOk(h) && h.CategoryOf(a).Some?
    ensures var c := h.CategoryOf(a).value;
            var h' := h.With(c, SwapRemove(h.RegistryOf(c), a));
            RegistriesOk(h') && !h'.IsRegistered(a)
  {
    var c := h.CategoryOf(a).value;
    var h' := h.With(c, SwapRemove(h.RegistryOf(c), a));
    assert a in h.RegistryOf(c).index;
    SwapRemoveKeepsContiguous(h.RegistryOf(c), a);
    forall d: Category
      ensures h'.RegistryOf(d) == if d == c then SwapRemove(h.RegistryOf(c), a) else h.RegistryOf(d)
      ensures a !in h'.RegistryOf(d).index
    {
      assert d != c ==> h.RegistryOf(c).index.Keys !! h.RegistryOf(d).index.Keys;
    }
    forall d: Category, e: Category | d != e
      ensures h'.RegistryOf(d).index.Keys !! h'.RegistryOf(e).index.Keys
    {
      assert h.RegistryOf(d).index.Keys !! h.RegistryOf(e).index.Keys;
    }
    assert a !in h'.RegistryOf(Bootstrapper).index && a !in h'.RegistryOf(Reputable).index;
    assert a !in h'.RegistryOf(Endorsee).index && a !in h'.RegistryOf(Newbie).index;
  }

  lemma RegisterAsKeeps(clock: Clock, s: State, cc: CommunityCeremony, c: Category, a: Account)
    requires Inv(clock, s) && !Past(clock, cc.cindex) && !HallAt(s, cc).IsRegistered(a)
    ensures RegisterAs(s, cc, c, a).Ok? ==> Keeps(clock, s, RegisterAs(s, cc, c, a).value)
  {
    var h := HallAt(s, cc);
    HallAtOk(clock, s, cc);
    AddKeepsRegistries(h, c, a);
    var h' := h.With(c, Append(h.RegistryOf(c), a));
    assert h'.reputation == h.reputation && h'.counts == NO_COUNTS;
    assert h'.VerifiedAccounts() == h.VerifiedAccounts();
    PutKeeps(clock, s, cc, h');
  }

  lemma EndorsementKeeps(clock: Clock, s: State, cc: CommunityCeremony, endorsements: set<Account>)
    requires Inv(clock, s)
    ensures Keeps(clock, s, Put(s, cc, HallAt(s, cc).(endorsements := endorsements)))
  {
    var h := HallAt(s, cc);
    var h' := h.(endorsements := endorsements);
    HallAtOk(clock, s, cc);
    SameRegistries(h, h');
    assert h'.VerifiedAccounts() == h.VerifiedAccounts();
    PutKeeps(clock, s, cc, h');
  }

  lemma SameRegistries(h: Hall, h': Hall)
    requires RegistriesOk(h)
    requires h'.bootstrappers == h.bootstrappers && h'.reputables == h.reputables
    requires h'.endorsees == h.endorsees && h'.newbies == h.newbies
    ensures RegistriesOk(h')
  {
    forall c: Category ensures h'.RegistryOf(c) == h.RegistryOf(c) {}
  }

  lemma RegisterKeeps(cfg: Config, clock: Clock, s: State, cc: CommunityCeremony, a: Account,
                      reputable: bool, issued: bool)
    requires Inv(clock, s) && !Past(clock, cc.cindex) && !HallAt(s, cc).IsRegistered(a)
    ensures Register(cfg, s, cc, a, reputable, issued).Ok? ==>
              Keeps(clock, s, Register(cfg, s, cc, a, reputable, issued).value)
  {
    hide HallOk, HallStep, Step, RegisterAs;
    RegisterAsKeeps(clock, s, cc, Bootstrapper, a);
    RegisterAsKeeps(clock, s, cc, Reputable, a);
    RegisterAsKeeps(clock, s, cc, Newbie, a);
    var endorsed := EndorsedAt(s, a, cc, cfg.reputationLifetime, 0);
    if endorsed.Some? {
      var from := CC(cc.cid, endorsed.value);
      var t := RemoveEndorsement(s, from, a);
      EndorsementKeeps(clock, s, from, HallAt(s, from).endorsements - {a});
      assert !HallAt(t, cc).IsRegistered(a);
      RegisterAsKeeps(clock, t, cc, Endorsee, a);
      var r := RegisterAs(t, cc, Endorsee, a);
      if r.Ok? {
        StepTransitive(clock, s, t, r.value);
      }
    }
  }

  lemma SubsetCardinality<T>(a: set<T>, b: set<T>)
    requires a <= b
    ensures |a| <= |b|
  {
    assert b == a + (b - a);
    assert a !! (b - a);
  }

  // A write that verifies nobody anew keeps the count bound.
  lemma ReputationKeeps(clock: Clock, s: State, cc: CommunityCeremony, reputation: map<Account, Reputation>)
    requires Inv(clock, s)
    requires HallAt(s, cc).(reputation := reputation).VerifiedAccounts() <= HallAt(s, cc).VerifiedAccounts()
    ensures Keeps(clock, s, Put(s, cc, HallAt(s, cc).(reputation := reputation)))
  {
    var h := HallAt(s, cc);
    var h' := h.(reputation := reputation);
    HallAtOk(clock, s, cc);
    SameRegistries(h, h');
    SubsetCardinality(h'.VerifiedAccounts(), h.VerifiedAccounts());
    PutKeeps(clock, s, cc, h');
  }

  lemma RegisterParticipantKeeps(cfg: Config, clock: Clock, s: State, sender: Account, cid: Cid,
                                 proof: Option<ProofOfAttendance>, issued: bool)
    requires Inv(clock, s)
    ensures var r := RegisterParticipant(cfg, clock, s, sender, cid, proof, issued);
            r.Ok? ==> Keeps(clock, s, r.value)
  {
    hide HallOk, HallStep, Step, Register;
    var r := RegisterParticipant(cfg, clock, s, sender, cid, proof, issued);
    if r.Ok? {
      var cc := CC(cid, Target(clock));
      match proof {
        case None => RegisterKeeps(cfg, clock, s, cc, sender, false, issued);
        case Some(p) =>
          var from := CC(p.cid, p.cindex);
          var h := HallAt(s, from);
          ReputationKeeps(clock, s, from, h.reputation[p.attendee := VerifiedLinked(cc.cindex)]);
          var linked := SetReputation(s, from, p.attendee, VerifiedLinked(cc.cindex));
          assert HallAt(linked, cc) == HallAt(s, cc);
          ReputationKeeps(clock, linked, cc, HallAt(linked, cc).reputation[sender := UnverifiedReputable]);
          var marked := SetReputation(linked, cc, sender, UnverifiedReputable);
          StepTransitive(clock, s, linked, marked);
          RegisterKeeps(cfg, clock, marked, cc, sender, true, issued);
          StepTransitive(clock, s, marked, r.value);
      }
    }
  }

  lemma RemoveParticipantKeeps(clock: Clock, s: State, cc: CommunityCeremony, a: Account)
    requires Inv(clock, s) && !Past(clock, cc.cindex)
    ensures var r := RemoveParticipant(clock, s, cc, a);
            r.Ok? ==> Keeps(clock, s, r.value) && !HallAt(r.value, cc).IsRegistered(a)
  {
    var h := HallAt(s, cc);
    if RemoveParticipant(clock, s, cc, a).Ok? {
      HallAtOk(clock, s, cc);
      RemoveKeepsRegistries(h, a);
      var c := h.CategoryOf(a).value;
      var h' := h.With(c, SwapRemove(h.RegistryOf(c), a));
      assert h'.VerifiedAccounts() == h.VerifiedAccounts();
      PutKeeps(clock, s, cc, h');
    }
  }

  lemma UpgradeKeeps(cfg: Config, clock: Clock, s: State, sender: Account, cid: Cid,
                     proof: ProofOfAttendance, issued: bool)
    requires Inv(clock, s)
    ensures var r := UpgradeRegistration(cfg, clock, s, sender, cid, proof, issued);
            r.Ok? ==> Keeps(clock, s, r.value)
  {
    var r := UpgradeRegistration(cfg, clock, s, sender, cid, proof, issued);
    if r.Ok? {
      var cc := CC(cid, Target(clock));
      RemoveParticipantKeeps(clock, s, cc, sender);
      var removed := RemoveParticipant(clock, s, cc, sender).value;
      RegisterParticipantKeeps(cfg, clock, removed, sender, cid, Some(proof), issued);
      StepTransitive(clock, s, removed, r.value);
    }
  }

  lemma RefundKeeps(cfg: Config, clock: Clock, s: State, sender: Account, cc: CommunityCeremony,
                    from: CommunityCeremony)
    requires Inv(clock, s)
    ensures Refund(cfg, s, sender, cc, from).Ok? ==> Keeps(clock, s, Refund(cfg, s, sender, cc, from).value)
  {
    hide HallOk, HallStep, Step;
    if Refund(cfg, s, sender, cc, from).Ok? {
      ReputationKeeps(clock, s, from, HallAt(s, from).reputation[sender := VerifiedUnlinked]);
      var unlinked := SetReputation(s, from, sender, VerifiedUnlinked);
      ReputationKeeps(clock, unlinked, cc, HallAt(unlinked, cc).reputation - {sender});
      StepTransitive(clock, s, unlinked, Refund(cfg, s, sender, cc, from).value);
    }
  }

  lemma UnregisterKeeps(cfg: Config, clock: Clock, s: State, sender: Account, cid: Cid,
                        refund: Option<CommunityCeremony>)
    requires Inv(clock, s)
    ensures var r := UnregisterParticipant(cfg, clock, s, sender, cid, refund);
            r.Ok? ==> Keeps(clock, s, r.value)
  {
    hide HallOk, HallStep, Step, Refund, RemoveParticipant;
    var r := UnregisterParticipant(cfg, clock, s, sender, cid, refund);
    var cc := CC(cid, Target(clock));
    if r.Ok? {
      RemoveParticipantKeeps(clock, s, cc, sender);
      if refund.Some? && Refund(cfg, s, sender, cc, refund.value).Ok? {
        var refunded := Refund(cfg, s, sender, cc, refund.value).value;
        RefundKeeps(cfg, clock, s, sender, cc, refund.value);
        RemoveParticipantKeeps(clock, refunded, cc, sender);
        if RemoveParticipant(clock, refunded, cc, sender).Ok? {
          StepTransitive(clock, s, refunded, RemoveParticipant(clock, refunded, cc, sender).value);
        }
      }
    }
  }

  lemma EndorseKeeps(cfg: Config, clock: Clock, s: State, cid: Cid, newbie: Account, hasTicket: bool, issued: bool)
    requires Inv(clock, s)
    ensures var r := EndorseNewcomer(cfg, clock, s, cid, newbie, hasTicket, issued);
            r.Ok? ==> Keeps(clock, s, r.value)
  {
    hide HallOk, HallStep, Step, Register, RemoveParticipant;
    var r := EndorseNewcomer(cfg, clock, s, cid, newbie, hasTicket, issued);
    if r.Ok? {
      var cc := CC(cid, if clock.phase == Registering then clock.cindex else clock.cindex + 1);
      var h := HallAt(s, cc);
      EndorsementKeeps(clock, s, cc, h.endorsements + {newbie});
      var endorsed := Put(s, cc, h.(endorsements := h.endorsements + {newbie}));
      if newbie in h.newbies.index {
        RemoveParticipantKeeps(clock, endorsed, cc, newbie);
        var removed := RemoveParticipant(clock, endorsed, cc, newbie).value;
        StepTransitive(clock, s, endorsed, removed);
        RegisterKeeps(cfg, clock, removed, cc, newbie, false, issued);
        StepTransitive(clock, s, removed, r.value);
      }
    }
  }

  // ---------- rewards ----------

  // Paying changes nothing but reputations, and verifies at most as many as it counts.
  lemma {:induction false} RewardEffect(h: Hall, participants: seq<Account>, legit: seq<nat>, failures: set<nat>)
    requires Reward(h, participants, legit, failures).Ok?
    requires |h.VerifiedAccounts()| <= h.reputationCount
    ensures var h' := Reward(h, participants, legit, failures).value;
            && SameSeats(h, h') && h'.issued == h.issued && h'.endorsements == h.endorsements
            && |h'.VerifiedAccounts()| <= h'.reputationCount
            && h'.reputationCount == h.reputationCount + |Payees(participants, legit, failures)|
            && (forall a :: a in Payees(participants, legit, failures) ==> a in h'.VerifiedAccounts())
            && (forall a :: a in h'.VerifiedAccounts() ==>
                  a in h.VerifiedAccounts() || a in Payees(participants, legit, failures))
  {
    if legit != [] {
      var front, i := legit[..|legit| - 1], legit[|legit| - 1];
      RewardEffect(h, participants, front, failures);
      var g := Reward(h, participants, front, failures).value;
      var h' := Reward(h, participants, legit, failures).value;
      if i !in failures {
        assert h'.VerifiedAccounts() == g.VerifiedAccounts() + {participants[i]};
      }
    }
  }

  lemma MarkKeeps(clock: Clock, s: State, cc: CommunityCeremony, k: nat, result: MeetupResult)
    requires Inv(clock, s) && HallAt(s, cc).meetups > 0
    ensures Keeps(clock, s, Put(s, cc, HallAt(s, cc).(issued := HallAt(s, cc).issued[k := result])))
  {
    var h := HallAt(s, cc);
    var h' := h.(issued := h.issued[k := result]);
    HallAtOk(clock, s, cc);
    SameRegistries(h, h');
    assert h'.VerifiedAccounts() == h.VerifiedAccounts();
    PutKeeps(clock, s, cc, h');
  }

  lemma IssueKeeps(clock: Clock, s: State, cc: CommunityCeremony, k: nat, participants: seq<Account>,
                   legit: seq<nat>, failures: set<nat>)
    requires Inv(clock, s) && HallAt(s, cc).meetups > 0 && cc.cindex + 1 >= clock.cindex
    ensures var r := IssueRewards(s, cc, k, participants, legit, failures);
            r.Ok? ==> Keeps(clock, s, r.value)
  {
    var h := HallAt(s, cc);
    var r := Reward(h, participants, legit, failures);
    if r.Ok? {
      HallAtOk(clock, s, cc);
      RewardEffect(h, participants, legit, failures);
      var h' := r.value.(issued := r.value.issued[k := MeetupOk]);
      SameRegistries(h, h');
      assert h'.VerifiedAccounts() == r.value.VerifiedAccounts();
      PutKeeps(clock, s, cc, h');
      SameHalls(clock, s, Put(s, cc, h'), IssueRewards(s, cc, k, participants, legit, failures).value);
    }
  }

  lemma SameHalls(clock: Clock, s: State, t: State, u: State)
    requires Keeps(clock, s, t) && u.halls == t.halls
    ensures Keeps(clock, s, u)
  {
    hide HallOk, HallStep;
    forall cc: CommunityCeremony ensures HallAt(u, cc) == HallAt(t, cc) {}
  }

  lemma ClaimKeeps(clock: Clock, s: State, sender: Account, cid: Cid, named: Option<nat>,
                   verdict: Verdict, failures: set<nat>)
    requires Inv(clock, s)
    ensures var r := ClaimRewards(clock, s, sender, cid, named, verdict, failures);
            r.Ok? ==> Keeps(clock, s, r.value)
  {
    hide ParticipantsOf, MeetupOf, HallOk, HallStep, Step, IssueRewards;
    var cc := CC(cid, ClaimIndex(clock));
    var h := HallAt(s, cc);
    if ClaimRewards(clock, s, sender, cid, named, verdict, failures).Ok? {
      var k := ClaimedMeetup(h, sender, named).value;
      InvalidWithoutMeetups(h, k);
      match verdict {
        case Undependable(result) => MarkKeeps(clock, s, cc, k, result);
        case Judged(legit, early) =>
          IssueKeeps(clock, s, cc, k, ParticipantsOf(h, k).value, legit, failures);
      }
    }
  }

  lemma InvalidWithoutMeetups(h: Hall, k: nat)
    ensures ParticipantsOf(h, k).Some? <==> 1 <= k <= h.meetups
  {
  }

  // ---------- purges and hooks ----------

  lemma PurgeKeeps(clock: Clock, s: State, s': State)
    requires Inv(clock, s)
    requires forall cc :: cc in s'.halls ==> cc in s.halls && s'.halls[cc] == s.halls[cc]
    ensures Keeps(clock, s, s')
  {
    forall cc: CommunityCeremony ensures HallStep(clock, cc.cindex, HallAt(s, cc), HallAt(s', cc)) {
      if cc !in s'.halls {
        assert EMPTY_HALL.VerifiedAccounts() == {};
      }
    }
  }

  lemma {:induction false} PurgeInactiveKeeps(cfg: Config, clock: Clock, s: State, inactives: seq<Cid>)
    requires Inv(clock, s)
    ensures Keeps(clock, s, PurgeInactive(cfg, clock.cindex, s, inactives))
    decreases |inactives|
  {
    if inactives == [] {
      PurgeKeeps(clock, s, s);
    } else {
      var t := PurgeCommunity(cfg, clock.cindex, s, inactives[0]);
      PurgeKeeps(clock, s, t);
      PurgeInactiveKeeps(cfg, clock, t, inactives[1..]);
      StepTransitive(clock, s, t, PurgeInactive(cfg, clock.cindex, s, inactives));
    }
  }

  lemma AssignKeeps(cfg: Config, clock: Clock, s: State, inputs: map<Cid, SeatInput>)
    requires Inv(clock, s) && clock.phase == Registering
    requires SeatInputsOk(cfg, s, clock.cindex, inputs)
    ensures Inv(clock.(phase := Assigning), AssignAll(cfg, s, clock.cindex, inputs))
    ensures Step(clock, s, AssignAll(cfg, s, clock.cindex, inputs))
  {
    hide HallOk, HallStep, AssignSeats;
    var s' := AssignAll(cfg, s, clock.cindex, inputs);
    var clock' := clock.(phase := Assigning);
    forall cc: CommunityCeremony
      ensures HallOk(clock', cc.cindex, HallAt(s', cc))
      ensures HallStep(clock, cc.cindex, HallAt(s, cc), HallAt(s', cc))
    {
      HallAtOk(clock, s, cc);
      if cc.cid in s.communities && cc.cindex == clock.cindex {
        assert HallAt(s', cc) == AssignSeats(cfg.seating, HallAt(s, cc), SeatInputFor(inputs, cc.cid));
        AssignHallKeeps(cfg.seating, clock, HallAt(s, cc), SeatInputFor(inputs, cc.cid));
      } else {
        assert HallAt(s', cc) == HallAt(s, cc);
        HallStepReflexive(clock, cc.cindex, HallAt(s, cc));
        HallOkMoves(clock, clock', cc.cindex, HallAt(s, cc));
      }
    }
  }

  lemma HallOkMoves(clock: Clock, clock': Clock, i: nat, h: Hall)
    requires HallOk(clock, i, h) && (Past(clock, i) ==> Past(clock', i))
    ensures HallOk(clock', i, h)
  {
  }

  lemma AssignHallKeeps(cfg: Seating, clock: Clock, h: Hall, input: SeatInput)
    requires HallOk(clock, clock.cindex, h) && clock.phase == Registering && clock.cindex >= 1
    requires SeatInputOk(cfg, h, input)
    ensures HallOk(clock.(phase := Assigning), clock.cindex, AssignSeats(cfg, h, input))
    ensures HallStep(clock, clock.cindex, h, AssignSeats(cfg, h, input))
  {
    hide AssignSeats, Allowance, SeatInputOk;
    AssignedSeatsOk(cfg, h, input);
    AssignOnlySeats(cfg, h, input);
    SameRegistries(h, AssignSeats(cfg, h, input));
  }

  lemma AssignOnlySeats(cfg: Seating, h: Hall, input: SeatInput)
    requires SeatInputOk(cfg, h, input)
    ensures var h' := AssignSeats(cfg, h, input);
            && h'.bootstrappers == h.bootstrappers && h'.reputables == h.reputables
            && h'.endorsees == h.endorsees && h'.newbies == h.newbies
            && h'.reputation == h.reputation && h'.reputationCount == h.reputationCount
            && h'.issued == h.issued && h'.VerifiedAccounts() == h.VerifiedAccounts()
  {
  }
}
