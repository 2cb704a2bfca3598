/**
 Attendances behind registrations. Registering with a proof of attendance links the attendance to
 the ceremony, so that it cannot back a second registration there; a refund unlinks it again. This
 module says exactly when the number of proof-backed registrations stays within the number of
 linked attendances, and shows the refund that breaks it.
 */
module ProofBacking {
  import opened Primitives
  import opened ParticipantRegistry
  import opened Hall
  import opened Ceremonies
  import opened Standing
  import CI = CeremonyInvariants

  datatype Mark = Mark(cc: CommunityCeremony, account: Account)

  ghost function Marked(s: State, r: Reputation): set<Mark> {
    set cc, a | cc in s.halls && a in s.halls[cc].reputation && s.halls[cc].reputation[a] == r :: Mark(cc, a)
  }

  // The attendances linked to ceremony c.
  ghost function Linked(s: State, c: nat): set<Mark> {
    Marked(s, VerifiedLinked(c))
  }

  // The registrations for ceremony c made with a proof of attendance.
  ghost function Proven(s: State, c: nat): set<Mark> {
    set m | m in Marked(s, UnverifiedReputable) && m.cc.cindex == c
  }

  ghost predicate ProofsBacked(s: State, c: nat) {
    |Proven(s, c)| <= |Linked(s, c)|
  }

  lemma MarkedMembers(s: State, r: Reputation, m: Mark)
    ensures m in Marked(s, r) <==>
            m.account in HallAt(s, m.cc).reputation && HallAt(s, m.cc).reputation[m.account] == r
  {
    assert m == Mark(m.cc, m.account);
  }

  // ---------- writes ----------

  lemma SetMarks(s: State, cc: CommunityCeremony, a: Account, written: Reputation, r: Reputation)
    ensures Marked(SetReputation(s, cc, a, written), r) ==
            Marked(s, r) - {Mark(cc, a)} + (if written == r then {Mark(cc, a)} else {})
  {
    hide Marked;
    var t := SetReputation(s, cc, a, written);
    forall m: Mark ensures m in Marked(t, r) <==>
                           (m in Marked(s, r) && m != Mark(cc, a)) || (written == r && m == Mark(cc, a))
    {
      MarkedMembers(s, r, m);
      MarkedMembers(t, r, m);
    }
  }

  lemma DropMarks(s: State, cc: CommunityCeremony, a: Account, r: Reputation)
    ensures var h := HallAt(s, cc);
            Marked(Put(s, cc, h.(reputation := h.reputation - {a})), r) == Marked(s, r) - {Mark(cc, a)}
  {
    hide Marked;
    var h := HallAt(s, cc);
    var t := Put(s, cc, h.(reputation := h.reputation - {a}));
    forall m: Mark ensures m in Marked(t, r) <==> m in Marked(s, r) && m != Mark(cc, a) {
      MarkedMembers(s, r, m);
      MarkedMembers(t, r, m);
    }
  }

  ghost predicate SameReputations(s: State, t: State) {
    forall cc: CommunityCeremony :: HallAt(t, cc).reputation == HallAt(s, cc).reputation
  }

  lemma SameMarks(s: State, t: State, r: Reputation)
    requires SameReputations(s, t)
    ensures Marked(t, r) == Marked(s, r)
  {
    hide Marked;
    forall m: Mark ensures m in Marked(t, r) <==> m in Marked(s, r) {
      MarkedMembers(s, r, m);
      MarkedMembers(t, r, m);
    }
  }

  lemma SameBacking(s: State, t: State, c: nat)
    requires SameReputations(s, t)
    ensures Linked(t, c) == Linked(s, c) && Proven(t, c) == Proven(s, c)
  {
    SameMarks(s, t, VerifiedLinked(c));
    SameMarks(s, t, UnverifiedReputable);
  }

  // Registries and endorsements do not touch reputations.
  lemma RegisterSame(cfg: Config, s: State, cc: CommunityCeremony, a: Account, reputable: bool, issued: bool)
    ensures var r := Register(cfg, s, cc, a, reputable, issued);
            r.Ok? ==> SameReputations(s, r.value)
  {
    hide EndorsedAt;
  }

  lemma RemoveSame(clock: Clock, s: State, cc: CommunityCeremony, a: Account)
    ensures var r := RemoveParticipant(clock, s, cc, a);
            r.Ok? ==> SameReputations(s, r.value)
  {
    var h := HallAt(s, cc);
    forall c: Category, r: Registry ensures h.With(c, r).reputation == h.reputation {}
  }

  // Nobody is verified yet at a ceremony still open.
  lemma OpenUnverified(clock: Clock, s: State, cc: CommunityCeremony, a: Account, c: nat)
    requires CI.Inv(clock, s) && !CI.Past(clock, cc.cindex)
    ensures Mark(cc, a) !in Linked(s, c)
  {
    MarkedMembers(s, VerifiedLinked(c), Mark(cc, a));
    CI.HallAtOk(clock, s, cc);
    var h := HallAt(s, cc);
    assert a in h.VerifiedAccounts() <==> a in h.reputation && h.reputation[a].IsVerified();
  }

  // ---------- calls ----------

  lemma LinkedMarks(clock: Clock, s: State, cc: CommunityCeremony, sender: Account, proof: ProofOfAttendance)
    requires CI.Inv(clock, s) && !CI.Past(clock, cc.cindex) && proof.cindex < cc.cindex
    requires HallAt(s, CC(proof.cid, proof.cindex)).ReputationOf(proof.attendee) != VerifiedLinked(cc.cindex)
    ensures var t, m := LinkedState(s, cc, sender, proof), Mark(CC(proof.cid, proof.cindex), proof.attendee);
            && m !in Linked(s, cc.cindex) && Linked(t, cc.cindex) == Linked(s, cc.cindex) + {m}
            && Proven(t, cc.cindex) == Proven(s, cc.cindex) + {Mark(cc, sender)}
  {
    hide Marked, CI.Inv, SetReputation;
    var c, from := cc.cindex, CC(proof.cid, proof.cindex);
    var linked := SetReputation(s, from, proof.attendee, VerifiedLinked(c));
    SetMarks(s, from, proof.attendee, VerifiedLinked(c), VerifiedLinked(c));
    SetMarks(s, from, proof.attendee, VerifiedLinked(c), UnverifiedReputable);
    SetMarks(linked, cc, sender, UnverifiedReputable, VerifiedLinked(c));
    SetMarks(linked, cc, sender, UnverifiedReputable, UnverifiedReputable);
    OpenUnverified(clock, s, cc, sender, c);
    MarkedMembers(s, VerifiedLinked(c), Mark(from, proof.attendee));
  }

  /** A registration with a proof links one more attendance and adds at most one registration. */
  lemma ProofLinks(cfg: Config, clock: Clock, s: State, sender: Account, cid: Cid, proof: ProofOfAttendance,
                   issued: bool)
    requires CI.Inv(clock, s)
    requires RegisterParticipant(cfg, clock, s, sender, cid, Some(proof), issued).Ok?
    ensures var t, c := RegisterParticipant(cfg, clock, s, sender, cid, Some(proof), issued).value, Target(clock);
            && |Linked(t, c)| == |Linked(s, c)| + 1
            && Proven(t, c) == Proven(s, c) + {Mark(CC(cid, c), sender)}
  {
    hide Linked, Proven, Register, RegisterParticipant, CI.Inv, LinkedState;
    var cc := CC(cid, Target(clock));
    var marked := LinkedState(s, cc, sender, proof);
    ProofFacts(cfg, clock, s, sender, cid, proof, issued);
    LinkedMarks(clock, s, cc, sender, proof);
    RegisterSame(cfg, marked, cc, sender, true, issued);
    SameBacking(marked, Register(cfg, marked, cc, sender, true, issued).value, cc.cindex);
  }

  /** A refund unlinks one attendance, and takes back the caller's own registration if that was
      made with a proof. */
  lemma RefundUnlinks(cfg: Config, clock: Clock, s: State, sender: Account, cc: CommunityCeremony,
                      from: CommunityCeremony)
    requires CI.Inv(clock, s) && !CI.Past(clock, cc.cindex) && Refund(cfg, s, sender, cc, from).Ok?
    ensures var t, c := Refund(cfg, s, sender, cc, from).value, cc.cindex;
            && Mark(from, sender) in Linked(s, c) && Linked(t, c) == Linked(s, c) - {Mark(from, sender)}
            && Proven(t, c) == Proven(s, c) - {Mark(cc, sender)}
  {
    hide Marked, CI.Inv;
    var c := cc.cindex;
    var unlinked := SetReputation(s, from, sender, VerifiedUnlinked);
    MarkedMembers(s, VerifiedLinked(c), Mark(from, sender));
    MarkedMembers(s, UnverifiedReputable, Mark(from, sender));
    SetMarks(s, from, sender, VerifiedUnlinked, VerifiedLinked(c));
    SetMarks(s, from, sender, VerifiedUnlinked, UnverifiedReputable);
    DropMarks(unlinked, cc, sender, VerifiedLinked(c));
    DropMarks(unlinked, cc, sender, UnverifiedReputable);
    OpenUnverified(clock, s, cc, sender, c);
  }

  /** Unregistering with a refund keeps the registrations of a ceremony backed if and only if the
      caller's own registration was made with a proof, or an attendance is to spare. */
  lemma UnregisterBackedExactly(cfg: Config, clock: Clock, s: State, sender: Account, cid: Cid, from: CommunityCeremony)
    requires CI.Inv(clock, s) && ProofsBacked(s, Target(clock))
    requires UnregisterParticipant(cfg, clock, s, sender, cid, Some(from)).Ok?
    requires var category := HallAt(s, CC(cid, Target(clock))).CategoryOf(sender);
             category == Some(Reputable) || category == Some(Bootstrapper)
    ensures var t, c := UnregisterParticipant(cfg, clock, s, sender, cid, Some(from)).value, Target(clock);
            ProofsBacked(t, c) <==>
            Mark(CC(cid, c), sender) in Proven(s, c) || |Proven(s, c)| < |Linked(s, c)|
  {
    hide Refund, RemoveParticipant, Linked, Proven, CI.Inv;
    var c := Target(clock);
    var cc := CC(cid, c);
    var refunded := Refund(cfg, s, sender, cc, from).value;
    RefundUnlinks(cfg, clock, s, sender, cc, from);
    RemoveSame(clock, refunded, cc, sender);
    SameBacking(refunded, RemoveParticipant(clock, refunded, cc, sender).value, c);
  }

  /** All other registration calls keep the registrations backed. */
  lemma RegistrationKeepsBacked(cfg: Config, clock: Clock, s: State, sender: Account, cid: Cid,
                                proof: Option<ProofOfAttendance>, issued: bool)
    requires CI.Inv(clock, s) && ProofsBacked(s, Target(clock))
    requires RegisterParticipant(cfg, clock, s, sender, cid, proof, issued).Ok?
    ensures ProofsBacked(RegisterParticipant(cfg, clock, s, sender, cid, proof, issued).value, Target(clock))
  {
    hide Register, Linked, Proven, CI.Inv;
    var c := Target(clock);
    match proof {
      case None =>
        RegisterSame(cfg, s, CC(cid, c), sender, false, issued);
        SameBacking(s, RegisterParticipant(cfg, clock, s, sender, cid, proof, issued).value, c);
      case Some(p) => ProofLinks(cfg, clock, s, sender, cid, p, issued);
    }
  }

  lemma UpgradeKeepsBacked(cfg: Config, clock: Clock, s: State, sender: Account, cid: Cid, proof: ProofOfAttendance,
                           issued: bool)
    requires CI.Inv(clock, s) && ProofsBacked(s, Target(clock))
    requires UpgradeRegistration(cfg, clock, s, sender, cid, proof, issued).Ok?
    ensures ProofsBacked(UpgradeRegistration(cfg, clock, s, sender, cid, proof, issued).value, Target(clock))
  {
    hide RegisterParticipant, RemoveParticipant, Linked, Proven, CI.HallOk, CI.HallStep, CI.Step;
    var cc := CC(cid, Target(clock));
    var removed := RemoveParticipant(clock, s, cc, sender).value;
    RemoveSame(clock, s, cc, sender);
    SameBacking(s, removed, cc.cindex);
    CI.RemoveParticipantKeeps(clock, s, cc, sender);
    RegistrationKeepsBacked(cfg, clock, removed, sender, cid, Some(proof), issued);
  }

  lemma EndorseSame(cfg: Config, clock: Clock, s: State, cid: Cid, newbie: Account, hasTicket: bool, issued: bool)
    requires EndorseNewcomer(cfg, clock, s, cid, newbie, hasTicket, issued).Ok?
    ensures SameReputations(s, EndorseNewcomer(cfg, clock, s, cid, newbie, hasTicket, issued).value)
  {
    hide Register, RemoveParticipant, EndorsedAt;
    var cc := CC(cid, if clock.phase == Registering then clock.cindex else clock.cindex + 1);
    var h := HallAt(s, cc);
    var endorsed := Put(s, cc, h.(endorsements := h.endorsements + {newbie}));
    if newbie in h.newbies.index {
      var removed := RemoveParticipant(clock, endorsed, cc, newbie).value;
      RemoveSame(clock, endorsed, cc, newbie);
      RegisterSame(cfg, removed, cc, newbie, false, issued);
    }
  }

  lemma EndorseKeepsBacked(cfg: Config, clock: Clock, s: State, cid: Cid, newbie: Account, hasTicket: bool,
                           issued: bool, c: nat)
    requires EndorseNewcomer(cfg, clock, s, cid, newbie, hasTicket, issued).Ok?
    ensures var t := EndorseNewcomer(cfg, clock, s, cid, newbie, hasTicket, issued).value;
            Linked(t, c) == Linked(s, c) && Proven(t, c) == Proven(s, c)
  {
    EndorseSame(cfg, clock, s, cid, newbie, hasTicket, issued);
    SameBacking(s, EndorseNewcomer(cfg, clock, s, cid, newbie, hasTicket, issued).value, c);
  }

  // ---------- purges ----------

  // The marks at the ceremonies a purge drops.
  ghost function At(marks: set<Mark>, gone: set<CommunityCeremony>): set<Mark> {
    set m | m in marks && m.cc in gone
  }

  lemma PurgeDrops(s: State, t: State, gone: set<CommunityCeremony>, r: Reputation)
    requires t.halls == s.halls - gone
    ensures Marked(t, r) == Marked(s, r) - At(Marked(s, r), gone)
  {
    hide Marked;
    forall m: Mark ensures m in Marked(t, r) <==> m in Marked(s, r) && m.cc !in gone {
      MarkedMembers(s, r, m);
      MarkedMembers(t, r, m);
    }
  }

  lemma DropSize<T>(marks: set<T>, gone: set<T>)
    requires gone <= marks
    ensures |marks - gone| == |marks| - |gone|
  {
    assert marks == (marks - gone) + gone;
  }

  /** A purge keeps the registrations of a ceremony backed if and only if it does not drop more
      linked attendances than there are to spare, counting the registrations it drops. */
  lemma PurgeBackedExactly(s: State, t: State, gone: set<CommunityCeremony>, c: nat)
    requires t.halls == s.halls - gone
    ensures ProofsBacked(t, c) <==>
            |At(Linked(s, c), gone)| <= |Linked(s, c)| - |Proven(s, c)| + |At(Proven(s, c), gone)|
  {
    hide Marked;
    PurgeDrops(s, t, gone, VerifiedLinked(c));
    PurgeDrops(s, t, gone, UnverifiedReputable);
    assert Linked(t, c) == Linked(s, c) - At(Linked(s, c), gone);
    assert Proven(t, c) == Proven(s, c) - At(Proven(s, c), gone);
    DropSize(Linked(s, c), At(Linked(s, c), gone));
    DropSize(Proven(s, c), At(Proven(s, c), gone));
  }

  /** Purging the ceremony of a linked attendance leaves the registration without backing. */
  lemma PurgeFreesRegistration()
    ensures ProofsBacked(SAMPLE_STATE, 2) && !ProofsBacked(PurgeCeremony(SAMPLE_STATE, CC(2, 1)), 2)
  {
    hide Marked;
    var t := PurgeCeremony(SAMPLE_STATE, CC(2, 1));
    forall m: Mark
      ensures m in Linked(SAMPLE_STATE, 2) <==> m == Mark(CC(2, 1), 7)
      ensures m in Proven(SAMPLE_STATE, 2) <==> m == Mark(CC(2, 2), 7)
    {
      MarkedMembers(SAMPLE_STATE, VerifiedLinked(2), m);
      MarkedMembers(SAMPLE_STATE, UnverifiedReputable, m);
    }
    assert Linked(SAMPLE_STATE, 2) == {Mark(CC(2, 1), 7)} && Proven(SAMPLE_STATE, 2) == {Mark(CC(2, 2), 7)};
    PurgeBackedExactly(SAMPLE_STATE, t, {CC(2, 1)}, 2);
    assert At(Linked(SAMPLE_STATE, 2), {CC(2, 1)}) == {Mark(CC(2, 1), 7)};
    assert At(Proven(SAMPLE_STATE, 2), {CC(2, 1)}) == {};
  }

  // ---------- the refund that breaks it ----------

  const ONE_OF_SEVEN := Registry(map[1 := 7], map[7 := 1], 1)

  // Account 7 attended community 2, registered there again with that proof, and is registered in
  // community 1 as a bootstrapper, without a proof.
  const SAMPLE_STATE :=
    State([1, 2], map[1 := [7]],
          map[CC(2, 1) := EMPTY_HALL.(reputation := map[7 := VerifiedLinked(2)], reputationCount := 1),
              CC(2, 2) := EMPTY_HALL.(reputables := ONE_OF_SEVEN, reputation := map[7 := UnverifiedReputable]),
              CC(1, 2) := EMPTY_HALL.(bootstrappers := ONE_OF_SEVEN)],
          map[1 := 1])

  /** Unregistering in community 1 with a refund of the attendance at community 2 frees the
      attendance while the registration it backs stays; and another account can then register in
      community 2 with the same attendance. */
  lemma RefundFreesBackedAttendance(cfg: Config)
    requires cfg.reputationLifetime >= 1
    ensures var clock := Clock(0, Registering, 2);
            var r := UnregisterParticipant(cfg, clock, SAMPLE_STATE, 7, 1, Some(CC(2, 1)));
            && ProofsBacked(SAMPLE_STATE, 2)
            && r.Ok? && !ProofsBacked(r.value, 2)
            && HallAt(r.value, CC(2, 2)).CategoryOf(7) == Some(Reputable)
            && HallAt(r.value, CC(2, 1)).ReputationOf(7) == VerifiedUnlinked
            && var proof := ProofOfAttendance(8, 1, 2, 7, true);
               var again := RegisterParticipant(cfg, clock, r.value, 8, 2, Some(proof), true);
               && again.Ok?
               && HallAt(again.value, CC(2, 2)).CategoryOf(7) == Some(Reputable)
               && HallAt(again.value, CC(2, 2)).CategoryOf(8) == Some(Reputable)
  {
    hide ProofsBacked;
    SampleRefund(cfg);
    var t := UnregisterParticipant(cfg, Clock(0, Registering, 2), SAMPLE_STATE, 7, 1, Some(CC(2, 1))).value;
    SampleMarks(t);
    SampleReuse(cfg, t);
  }

  lemma SampleRefund(cfg: Config)
    requires cfg.reputationLifetime >= 1
    ensures var r := UnregisterParticipant(cfg, Clock(0, Registering, 2), SAMPLE_STATE, 7, 1, Some(CC(2, 1)));
            && r.Ok? && r.value.communities == [1, 2] && r.value.bootstrappers == map[1 := [7]]
            && HallAt(r.value, CC(2, 2)) == HallAt(SAMPLE_STATE, CC(2, 2))
            && HallAt(r.value, CC(2, 1)).reputation == map[7 := VerifiedUnlinked]
            && forall cc: CommunityCeremony :: cc !in [CC(2, 1), CC(2, 2)] ==> HallAt(r.value, cc).reputation == map[]
  {
    hide SwapRemove;
  }

  lemma SampleReuse(cfg: Config, t: State)
    requires cfg.reputationLifetime >= 1 && t.communities == [1, 2] && t.bootstrappers == map[1 := [7]]
    requires HallAt(t, CC(2, 2)) == HallAt(SAMPLE_STATE, CC(2, 2))
    requires HallAt(t, CC(2, 1)).reputation == map[7 := VerifiedUnlinked]
    ensures var proof := ProofOfAttendance(8, 1, 2, 7, true);
            var again := RegisterParticipant(cfg, Clock(0, Registering, 2), t, 8, 2, Some(proof), true);
            && again.Ok?
            && HallAt(again.value, CC(2, 2)).CategoryOf(7) == Some(Reputable)
            && HallAt(again.value, CC(2, 2)).CategoryOf(8) == Some(Reputable)
  {
  }

  lemma SampleMarks(t: State)
    requires forall cc: CommunityCeremony :: cc !in [CC(2, 1), CC(2, 2)] ==> HallAt(t, cc).reputation == map[]
    requires HallAt(t, CC(2, 1)).reputation == map[7 := VerifiedUnlinked]
    requires HallAt(t, CC(2, 2)).reputation == map[7 := UnverifiedReputable]
    ensures ProofsBacked(SAMPLE_STATE, 2) && !ProofsBacked(t, 2)
  {
    hide Marked;
    forall m: Mark
      ensures m in Linked(SAMPLE_STATE, 2) <==> m == Mark(CC(2, 1), 7)
      ensures m in Proven(SAMPLE_STATE, 2) <==> m == Mark(CC(2, 2), 7)
      ensures m !in Linked(t, 2)
      ensures m in Proven(t, 2) <==> m == Mark(CC(2, 2), 7)
    {
      MarkedMembers(SAMPLE_STATE, VerifiedLinked(2), m);
      MarkedMembers(SAMPLE_STATE, UnverifiedReputable, m);
      MarkedMembers(t, VerifiedLinked(2), m);
      MarkedMembers(t, UnverifiedReputable, m);
    }
    assert Linked(SAMPLE_STATE, 2) == {Mark(CC(2, 1), 7)} && Proven(SAMPLE_STATE, 2) == {Mark(CC(2, 2), 7)};
    assert Linked(t, 2) == {} && Proven(t, 2) == {Mark(CC(2, 2), 7)};
  }
}
