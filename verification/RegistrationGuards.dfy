/**
 When registration calls go through, and what they do: the guards a participant can look up before
 the call, the registry joined, and the marks written. No call skips a guard, and none refuses more.
 */
module RegistrationGuards {
  import opened Primitives
  import opened ParticipantRegistry
  import opened Hall
  import opened Ceremonies
  import CI = CeremonyInvariants

  // ---------- endorsements ----------

  // The endorsement stands in a ceremony within the reputation lifetime before this one.
  ghost predicate EndorsedIn(s: State, a: Account, cc: CommunityCeremony, lifetime: nat, i: nat) {
    i <= cc.cindex <= i + lifetime && a in HallAt(s, CC(cc.cid, i)).endorsements
  }

  /** The search finds an endorsement exactly if one stands within the lifetime, and the latest. */
  lemma {:induction false} LatestEndorsement(s: State, a: Account, cc: CommunityCeremony, lifetime: nat, k: nat)
    requires k <= lifetime + 1
    requires forall i: nat :: EndorsedIn(s, a, cc, lifetime, i) && k > 0 ==> i + k <= cc.cindex
    ensures var r := EndorsedAt(s, a, cc, lifetime, k);
            && (r.Some? <==> exists i: nat :: EndorsedIn(s, a, cc, lifetime, i))
            && (r.Some? ==> EndorsedIn(s, a, cc, lifetime, r.value)
                            && forall i: nat :: EndorsedIn(s, a, cc, lifetime, i) ==> i <= r.value)
    decreases lifetime + 1 - k
  {
    if k <= lifetime {
      var here := SatSub(cc.cindex, k);
      if a in HallAt(s, CC(cc.cid, here)).endorsements {
        assert EndorsedIn(s, a, cc, lifetime, here);
      } else {
        LatestEndorsement(s, a, cc, lifetime, k + 1);
      }
    }
  }

  lemma EndorsedExactly(s: State, a: Account, cc: CommunityCeremony, lifetime: nat)
    ensures var r := EndorsedAt(s, a, cc, lifetime, 0);
            && (r.Some? <==> exists i: nat :: EndorsedIn(s, a, cc, lifetime, i))
            && (r.Some? ==> EndorsedIn(s, a, cc, lifetime, r.value)
                            && forall i: nat :: EndorsedIn(s, a, cc, lifetime, i) ==> i <= r.value)
  {
    LatestEndorsement(s, a, cc, lifetime, 0);
  }

  // ---------- joining a registry ----------

  // Bootstrappers come first, then holders of a proof, then the endorsed.
  ghost predicate Belongs(s: State, lifetime: nat, cc: CommunityCeremony, a: Account, reputable: bool, c: Category) {
    var bootstrapper, endorsed := a in BootstrappersOf(s, cc.cid), exists i: nat :: EndorsedIn(s, a, cc, lifetime, i);
    match c
    case Bootstrapper => bootstrapper
    case Reputable => !bootstrapper && reputable
    case Endorsee => !bootstrapper && !reputable && endorsed
    case Newbie => !bootstrapper && !reputable && !endorsed
  }

  // There is room in the registry, and strangers only join once currency was issued.
  ghost predicate HasRoom(s: State, cc: CommunityCeremony, a: Account, c: Category, issued: bool) {
    HallAt(s, cc).RegistryOf(c).count < U64_MAX && (issued || a in BootstrappersOf(s, cc.cid))
  }

  // Everything but the registries, the reputations and the endorsements.
  ghost predicate SameRest(s: State, t: State) {
    && t.communities == s.communities && t.bootstrappers == s.bootstrappers
    && t.globalReputationCount == s.globalReputationCount
    && forall cc: CommunityCeremony ::
         SameOf(HallAt(s, cc), HallAt(t, cc))
  }

  // The account joins one registry of one ceremony, at its end.
  ghost predicate Joined(s: State, t: State, cc: CommunityCeremony, a: Account, c: Category) {
    forall other: CommunityCeremony, d: Category ::
      HallAt(t, other).RegistryOf(d) ==
      if other == cc && d == c then Append(HallAt(s, cc).RegistryOf(c), a) else HallAt(s, other).RegistryOf(d)
  }

  ghost predicate SameMarks(s: State, t: State) {
    forall cc: CommunityCeremony :: HallAt(t, cc).reputation == HallAt(s, cc).reputation
  }

  ghost predicate SameEndorsements(s: State, t: State) {
    forall cc: CommunityCeremony :: HallAt(t, cc).endorsements == HallAt(s, cc).endorsements
  }

  ghost predicate SameRegistries(s: State, t: State) {
    forall other: CommunityCeremony, d: Category :: HallAt(t, other).RegistryOf(d) == HallAt(s, other).RegistryOf(d)
  }

  // Joining as an endorsee uses up the latest endorsement, and nothing else does.
  ghost predicate UsedEndorsement(s: State, t: State, lifetime: nat, cc: CommunityCeremony, a: Account, c: Category) {
    forall other: CommunityCeremony, b: Account ::
      b in HallAt(t, other).endorsements <==>
      && b in HallAt(s, other).endorsements
      && !(c == Endorsee && b == a && other.cid == cc.cid && EndorsedIn(s, a, cc, lifetime, other.cindex)
           && forall i: nat :: EndorsedIn(s, a, cc, lifetime, i) ==> i <= other.cindex)
  }

  lemma WithOnly(h: Hall, c: Category, r: Registry)
    ensures var g := h.With(c, r);
            && (forall d: Category :: g.RegistryOf(d) == if d == c then r else h.RegistryOf(d))
            && g.reputation == h.reputation && g.endorsements == h.endorsements && SameOf(h, g)
  {
  }

  ghost predicate SameOf(h: Hall, g: Hall) {
    && g.counts == h.counts && g.meetups == h.meetups && g.issued == h.issued && g.reputationCount == h.reputationCount
    && forall k: Group :: g.ParamsOf(k) == h.ParamsOf(k)
  }

  lemma RegisterAsJoins(s: State, cc: CommunityCeremony, c: Category, a: Account)
    ensures var r := RegisterAs(s, cc, c, a);
            && (r.Ok? <==> HallAt(s, cc).RegistryOf(c).count < U64_MAX)
            && (r.Ok? ==>
                  && Joined(s, r.value, cc, a, c) && SameRest(s, r.value) && SameMarks(s, r.value)
                  && SameEndorsements(s, r.value))
  {
    hide Hall.With, Hall.RegistryOf, Append;
    WithOnly(HallAt(s, cc), c, Append(HallAt(s, cc).RegistryOf(c), a));
  }

  // The storage a registration starts from: an endorsee's endorsement is gone.
  function Prepared(s: State, lifetime: nat, cc: CommunityCeremony, a: Account, c: Category): State {
    var endorsed := EndorsedAt(s, a, cc, lifetime, 0);
    if c == Endorsee && endorsed.Some? then RemoveEndorsement(s, CC(cc.cid, endorsed.value), a) else s
  }

  lemma PreparedSame(s: State, lifetime: nat, cc: CommunityCeremony, a: Account, c: Category)
    requires c == Endorsee ==> exists i: nat :: EndorsedIn(s, a, cc, lifetime, i)
    ensures var t := Prepared(s, lifetime, cc, a, c);
            && UsedEndorsement(s, t, lifetime, cc, a, c) && SameRest(s, t) && SameMarks(s, t)
            && SameRegistries(s, t)
  {
    hide EndorsedAt;
    EndorsedExactly(s, a, cc, lifetime);
  }

  lemma RegisterShape(cfg: Config, s: State, cc: CommunityCeremony, a: Account, reputable: bool, issued: bool,
                      c: Category)
    requires Belongs(s, cfg.reputationLifetime, cc, a, reputable, c)
    ensures var r := Register(cfg, s, cc, a, reputable, issued);
            if issued || a in BootstrappersOf(s, cc.cid)
            then r == RegisterAs(Prepared(s, cfg.reputationLifetime, cc, a, c), cc, c, a)
            else r.Err?
  {
    hide RegisterAs, EndorsedAt;
    EndorsedExactly(s, a, cc, cfg.reputationLifetime);
  }

  /** A registration succeeds exactly if there is room in the registry the account belongs to, and
      does what it should: the account joins that registry and no other. */
  lemma RegisterJoins(cfg: Config, s: State, cc: CommunityCeremony, a: Account, reputable: bool, issued: bool,
                      c: Category)
    requires Belongs(s, cfg.reputationLifetime, cc, a, reputable, c)
    ensures var r := Register(cfg, s, cc, a, reputable, issued);
            && (r.Ok? <==> HasRoom(s, cc, a, c, issued))
            && (r.Ok? ==>
                  && Joined(s, r.value, cc, a, c) && SameRest(s, r.value) && SameMarks(s, r.value)
                  && UsedEndorsement(s, r.value, cfg.reputationLifetime, cc, a, c))
  {
    hide Register, RegisterAs, Prepared, EndorsedIn;
    var prepared := Prepared(s, cfg.reputationLifetime, cc, a, c);
    RegisterShape(cfg, s, cc, a, reputable, issued, c);
    PreparedSame(s, cfg.reputationLifetime, cc, a, c);
    RegisterAsJoins(prepared, cc, c, a);
  }

  // Everybody belongs to exactly one registry.
  lemma CategoryFor(s: State, lifetime: nat, cc: CommunityCeremony, a: Account, reputable: bool) returns (c: Category)
    ensures forall d: Category :: Belongs(s, lifetime, cc, a, reputable, d) <==> d == c
  {
    c := if a in BootstrappersOf(s, cc.cid) then Bootstrapper
         else if reputable then Reputable
         else if exists i: nat :: EndorsedIn(s, a, cc, lifetime, i) then Endorsee
         else Newbie;
  }

  // ---------- registration ----------

  // The proof is about the sender, signed by the attendee, recent enough, not used for this
  // ceremony yet, and not the proof of a bootstrapper for somebody else.
  ghost predicate GoodProof(s: State, lifetime: nat, sender: Account, cc: CommunityCeremony, p: ProofOfAttendance) {
    var reputation := HallAt(s, CC(p.cid, p.cindex)).ReputationOf(p.attendee);
    && p.prover == sender && p.signatureValid
    && p.cindex < cc.cindex <= p.cindex + lifetime
    && reputation.IsVerified() && reputation != VerifiedLinked(cc.cindex)
    && (p.attendee in BootstrappersOf(s, cc.cid) ==> p.attendee == sender)
  }

  // With a proof, the attendance is linked to this ceremony and the sender marked in it.
  ghost predicate Marked(s: State, t: State, cc: CommunityCeremony, sender: Account, proof: Option<ProofOfAttendance>) {
    forall other: CommunityCeremony, b: Account ::
      HallAt(t, other).ReputationOf(b) ==
      if proof.Some? && other == CC(proof.value.cid, proof.value.cindex) && b == proof.value.attendee
      then VerifiedLinked(cc.cindex)
      else if proof.Some? && other == cc && b == sender then UnverifiedReputable
      else HallAt(s, other).ReputationOf(b)
  }

  /** A participant is registered exactly outside the assigning phase, in a known community, if not
      registered yet, with a good proof or none, and if there is room in the registry of the kind of
      participant; and ends up in that registry, with the proof used up. */
  lemma RegisterParticipantExactly(cfg: Config, clock: Clock, s: State, sender: Account, cid: Cid,
                                   proof: Option<ProofOfAttendance>, issued: bool, c: Category)
    requires Belongs(s, cfg.reputationLifetime, CC(cid, Target(clock)), sender, proof.Some?, c)
    ensures var cc, r := CC(cid, Target(clock)), RegisterParticipant(cfg, clock, s, sender, cid, proof, issued);
            && (r.Ok? <==>
                  && clock.phase != Assigning && cid in s.communities && HallAt(s, cc).CategoryOf(sender).None?
                  && (proof.Some? ==> GoodProof(s, cfg.reputationLifetime, sender, cc, proof.value))
                  && HasRoom(s, cc, sender, c, issued))
            && (r.Ok? ==>
                  && Joined(s, r.value, cc, sender, c) && Marked(s, r.value, cc, sender, proof) && SameRest(s, r.value)
                  && UsedEndorsement(s, r.value, cfg.reputationLifetime, cc, sender, c))
  {
    hide Register, SetReputation, EndorsedIn;
    var cc := CC(cid, Target(clock));
    match proof {
      case None => RegisterJoins(cfg, s, cc, sender, false, issued, c);
      case Some(p) =>
        ProofChecked(cfg, s, sender, cc, p);
        var linked := SetReputation(s, CC(p.cid, p.cindex), p.attendee, VerifiedLinked(cc.cindex));
        var marked := SetReputation(linked, cc, sender, UnverifiedReputable);
        if GoodProof(s, cfg.reputationLifetime, sender, cc, p) {
          LinkedMarks(s, cc, sender, p);
          SameBelongs(s, marked, cfg.reputationLifetime, cc, sender, true, c);
          RegisterJoins(cfg, marked, cc, sender, true, issued, c);
          if RegisterParticipant(cfg, clock, s, sender, cid, proof, issued).Ok? {
            var t := RegisterParticipant(cfg, clock, s, sender, cid, proof, issued).value;
            MarksKept(s, marked, t, cc, sender, proof);
          }
        }
    }
  }

  lemma ProofChecked(cfg: Config, s: State, sender: Account, cc: CommunityCeremony, p: ProofOfAttendance)
    ensures CheckProof(cfg, s, sender, cc.cid, cc.cindex, p).Ok? <==>
            GoodProof(s, cfg.reputationLifetime, sender, cc, p)
  {
  }

  // Writing reputations of one ceremony leaves everything else alone.
  lemma PutMarks(s: State, cc: CommunityCeremony, h: Hall)
    requires h == HallAt(s, cc).(reputation := h.reputation)
    ensures var t := Put(s, cc, h);
            && SameRest(s, t) && SameEndorsements(s, t) && SameRegistries(s, t)
            && forall other: CommunityCeremony ::
                 HallAt(t, other).reputation == if other == cc then h.reputation else HallAt(s, other).reputation
  {
  }

  lemma WriteMark(s: State, cc: CommunityCeremony, a: Account, r: Reputation)
    ensures var t := SetReputation(s, cc, a, r);
            && SameRest(s, t) && SameEndorsements(s, t) && SameRegistries(s, t)
            && forall other: CommunityCeremony ::
                 HallAt(t, other).reputation ==
                 if other == cc then HallAt(s, cc).reputation[a := r] else HallAt(s, other).reputation
  {
    hide SameRest, SameEndorsements, SameRegistries;
    PutMarks(s, cc, HallAt(s, cc).(reputation := HallAt(s, cc).reputation[a := r]));
  }

  lemma BothSame(s: State, t: State, u: State)
    requires SameRest(s, t) && SameEndorsements(s, t) && SameRegistries(s, t)
    requires SameRest(t, u) && SameEndorsements(t, u) && SameRegistries(t, u)
    ensures SameRest(s, u) && SameEndorsements(s, u) && SameRegistries(s, u)
  {
    hide Hall.RegistryOf;
  }

  lemma LinkedMarks(s: State, cc: CommunityCeremony, sender: Account, p: ProofOfAttendance)
    requires p.cindex < cc.cindex
    ensures var linked := SetReputation(s, CC(p.cid, p.cindex), p.attendee, VerifiedLinked(cc.cindex));
            var t := SetReputation(linked, cc, sender, UnverifiedReputable);
            && Marked(s, t, cc, sender, Some(p)) && SameRest(s, t) && SameEndorsements(s, t)
            && SameRegistries(s, t)
  {
    hide SameRest, SameEndorsements, SameRegistries, SetReputation;
    var linked := SetReputation(s, CC(p.cid, p.cindex), p.attendee, VerifiedLinked(cc.cindex));
    WriteMark(s, CC(p.cid, p.cindex), p.attendee, VerifiedLinked(cc.cindex));
    WriteMark(linked, cc, sender, UnverifiedReputable);
    BothSame(s, linked, SetReputation(linked, cc, sender, UnverifiedReputable));
  }

  lemma SameBelongs(s: State, t: State, lifetime: nat, cc: CommunityCeremony, a: Account, reputable: bool, c: Category)
    requires SameEndorsements(s, t) && t.bootstrappers == s.bootstrappers
    ensures Belongs(t, lifetime, cc, a, reputable, c) <==> Belongs(s, lifetime, cc, a, reputable, c)
    ensures forall i: nat :: EndorsedIn(t, a, cc, lifetime, i) <==> EndorsedIn(s, a, cc, lifetime, i)
  {
    assert forall i: nat :: EndorsedIn(t, a, cc, lifetime, i) <==> EndorsedIn(s, a, cc, lifetime, i);
  }

  lemma MarksKept(s: State, t: State, u: State, cc: CommunityCeremony, sender: Account,
                  proof: Option<ProofOfAttendance>)
    requires Marked(s, t, cc, sender, proof) && SameMarks(t, u)
    ensures Marked(s, u, cc, sender, proof)
  {
    forall other: CommunityCeremony, b: Account
      ensures HallAt(u, other).ReputationOf(b) == HallAt(t, other).ReputationOf(b)
    {
      assert HallAt(u, other).reputation == HallAt(t, other).reputation;
    }
  }

  // ---------- leaving a registry ----------

  ghost predicate Left(s: State, t: State, cc: CommunityCeremony, a: Account, c: Category) {
    forall other: CommunityCeremony, d: Category ::
      HallAt(t, other).RegistryOf(d) ==
      if other == cc && d == c then SwapRemove(HallAt(s, cc).RegistryOf(c), a) else HallAt(s, other).RegistryOf(d)
  }

  lemma RemoveLeaves(clock: Clock, s: State, cc: CommunityCeremony, a: Account)
    ensures var r := RemoveParticipant(clock, s, cc, a);
            && (r.Ok? <==> clock.phase == Registering && HallAt(s, cc).CategoryOf(a).Some?)
            && (r.Ok? ==>
                  && Left(s, r.value, cc, a, HallAt(s, cc).CategoryOf(a).value) && SameRest(s, r.value)
                  && SameMarks(s, r.value) && SameEndorsements(s, r.value))
  {
    hide Hall.With, Hall.RegistryOf, SwapRemove;
    var c := HallAt(s, cc).CategoryOf(a);
    if c.Some? {
      WithOnly(HallAt(s, cc), c.value, SwapRemove(HallAt(s, cc).RegistryOf(c.value), a));
    }
  }

  // The attendance refunded is linked to this ceremony and not too old.
  ghost predicate GoodRefund(s: State, lifetime: nat, sender: Account, cc: CommunityCeremony, from: CommunityCeremony) {
    cc.cindex <= from.cindex + lifetime && HallAt(s, from).ReputationOf(sender) == VerifiedLinked(cc.cindex)
  }

  // A refund frees the attendance and erases the mark of the registration.
  ghost predicate Refunded(s: State, t: State, cc: CommunityCeremony, sender: Account,
                           from: Option<CommunityCeremony>) {
    forall other: CommunityCeremony, b: Account ::
      HallAt(t, other).ReputationOf(b) ==
      if from.Some? && other == cc && b == sender then Unverified
      else if from.Some? && other == from.value && b == sender then VerifiedUnlinked
      else HallAt(s, other).ReputationOf(b)
  }

  lemma RefundMarks(cfg: Config, s: State, sender: Account, cc: CommunityCeremony, from: CommunityCeremony)
    ensures var r := Refund(cfg, s, sender, cc, from);
            && (r.Ok? <==> GoodRefund(s, cfg.reputationLifetime, sender, cc, from))
            && (r.Ok? ==>
                  && Refunded(s, r.value, cc, sender, Some(from)) && SameRest(s, r.value)
                  && SameEndorsements(s, r.value) && SameRegistries(s, r.value))
  {
    hide SameRest, SameEndorsements, SameRegistries, SetReputation;
    var unlinked := SetReputation(s, from, sender, VerifiedUnlinked);
    var h := HallAt(unlinked, cc);
    WriteMark(s, from, sender, VerifiedUnlinked);
    PutMarks(unlinked, cc, h.(reputation := h.reputation - {sender}));
    BothSame(s, unlinked, Put(unlinked, cc, h.(reputation := h.reputation - {sender})));
  }

  /** Unregistering succeeds exactly in the registering phase, in a known community, for somebody
      registered: a reputable must name the attendance to be refunded, a bootstrapper may, and the
      attendance named must be good. The participant leaves the registry, and only a refund changes
      any reputation. */
  lemma UnregisterExactly(cfg: Config, clock: Clock, s: State, sender: Account, cid: Cid,
                          refund: Option<CommunityCeremony>)
    ensures var cc, r := CC(cid, Target(clock)), UnregisterParticipant(cfg, clock, s, sender, cid, refund);
            var c := HallAt(s, cc).CategoryOf(sender);
            var refunds := refund.Some? && (c == Some(Reputable) || c == Some(Bootstrapper));
            && (r.Ok? <==>
                  && clock.phase == Registering && cid in s.communities && c.Some?
                  && (c == Some(Reputable) ==> refund.Some?)
                  && (refunds ==> GoodRefund(s, cfg.reputationLifetime, sender, cc, refund.value)))
            && (r.Ok? ==>
                  && Left(s, r.value, cc, sender, c.value) && SameRest(s, r.value) && SameEndorsements(s, r.value)
                  && Refunded(s, r.value, cc, sender, if refunds then refund else None))
  {
    hide RemoveParticipant, Refund, Hall.RegistryOf;
    var cc := CC(cid, Target(clock));
    RemoveLeaves(clock, s, cc, sender);
    if refund.Some? {
      RefundMarks(cfg, s, sender, cc, refund.value);
      if Refund(cfg, s, sender, cc, refund.value).Ok? {
        var refunded := Refund(cfg, s, sender, cc, refund.value).value;
        RemoveLeaves(clock, refunded, cc, sender);
        SameCategories(s, refunded, cc, sender);
        if RemoveParticipant(clock, refunded, cc, sender).Ok? {
          RefundKept(s, refunded, RemoveParticipant(clock, refunded, cc, sender).value, cc, sender, refund);
        }
      }
    }
    if RemoveParticipant(clock, s, cc, sender).Ok? {
      RefundKept(s, s, RemoveParticipant(clock, s, cc, sender).value, cc, sender, None);
    }
  }

  lemma SameCategories(s: State, t: State, cc: CommunityCeremony, a: Account)
    requires forall d: Category :: HallAt(t, cc).RegistryOf(d) == HallAt(s, cc).RegistryOf(d)
    ensures HallAt(t, cc).CategoryOf(a) == HallAt(s, cc).CategoryOf(a)
  {
    assert HallAt(t, cc).RegistryOf(Bootstrapper) == HallAt(s, cc).RegistryOf(Bootstrapper);
    assert HallAt(t, cc).RegistryOf(Reputable) == HallAt(s, cc).RegistryOf(Reputable);
    assert HallAt(t, cc).RegistryOf(Endorsee) == HallAt(s, cc).RegistryOf(Endorsee);
    assert HallAt(t, cc).RegistryOf(Newbie) == HallAt(s, cc).RegistryOf(Newbie);
  }

  lemma RefundKept(s: State, t: State, u: State, cc: CommunityCeremony, sender: Account,
                   from: Option<CommunityCeremony>)
    requires Refunded(s, t, cc, sender, from) && SameMarks(t, u)
    ensures Refunded(s, u, cc, sender, from)
  {
    forall other: CommunityCeremony, b: Account
      ensures HallAt(u, other).ReputationOf(b) == HallAt(t, other).ReputationOf(b)
    {
      assert HallAt(u, other).reputation == HallAt(t, other).reputation;
    }
  }

  // ---------- upgrading ----------

  // The account leaves one registry of the ceremony and joins another.
  ghost predicate Moved(s: State, t: State, cc: CommunityCeremony, a: Account, from: Category, to: Category) {
    forall other: CommunityCeremony, d: Category ::
      HallAt(t, other).RegistryOf(d) ==
      if other == cc && d == to then Append(HallAt(s, cc).RegistryOf(to), a)
      else if other == cc && d == from then SwapRemove(HallAt(s, cc).RegistryOf(from), a)
      else HallAt(s, other).RegistryOf(d)
  }

  lemma LeftThenJoined(s: State, t: State, u: State, cc: CommunityCeremony, a: Account, from: Category, to: Category)
    requires Left(s, t, cc, a, from) && Joined(t, u, cc, a, to) && from != to
    ensures Moved(s, u, cc, a, from, to)
  {
    hide Hall.RegistryOf, Append, SwapRemove;
  }

  /** An upgrade succeeds exactly for a newbie of a known community in the registering phase with a
      good proof, if there is room; the newbie moves to the registry of a reputable, or of a
      bootstrapper, and the proof is used up. */
  lemma UpgradeExactly(cfg: Config, clock: Clock, s: State, sender: Account, cid: Cid, p: ProofOfAttendance,
                       issued: bool, c: Category)
    requires CI.Inv(clock, s)
    requires Belongs(s, cfg.reputationLifetime, CC(cid, Target(clock)), sender, true, c)
    ensures var cc, r := CC(cid, Target(clock)), UpgradeRegistration(cfg, clock, s, sender, cid, p, issued);
            && (r.Ok? <==>
                  && clock.phase == Registering && cid in s.communities
                  && HallAt(s, cc).CategoryOf(sender) == Some(Newbie)
                  && GoodProof(s, cfg.reputationLifetime, sender, cc, p) && HasRoom(s, cc, sender, c, issued))
            && (r.Ok? ==>
                  && Moved(s, r.value, cc, sender, Newbie, c) && Marked(s, r.value, cc, sender, Some(p))
                  && SameRest(s, r.value) && SameEndorsements(s, r.value))
  {
    hide CI.HallOk, RemoveParticipant, RegisterParticipant, Hall.RegistryOf, CI.Step, EndorsedIn;
    var cc := CC(cid, Target(clock));
    RemoveLeaves(clock, s, cc, sender);
    if HallAt(s, cc).CategoryOf(sender) == Some(Newbie) && RemoveParticipant(clock, s, cc, sender).Ok? {
      var removed := RemoveParticipant(clock, s, cc, sender).value;
      CI.RemoveParticipantKeeps(clock, s, cc, sender);
      SameBelongs(s, removed, cfg.reputationLifetime, cc, sender, true, c);
      RegisterParticipantExactly(cfg, clock, removed, sender, cid, Some(p), issued, c);
      SameGuards(s, removed, cfg.reputationLifetime, cc, sender, p, c, issued);
      var r := RegisterParticipant(cfg, clock, removed, sender, cid, Some(p), issued);
      if r.Ok? {
        LeftThenJoined(s, removed, r.value, cc, sender, Newbie, c);
        MarksAfter(s, removed, r.value, cc, sender, Some(p));
        NothingUsed(removed, r.value, cfg.reputationLifetime, cc, sender, c);
      }
    }
  }

  lemma SameGuards(s: State, t: State, lifetime: nat, cc: CommunityCeremony, a: Account, p: ProofOfAttendance,
                   c: Category, issued: bool)
    requires Left(s, t, cc, a, Newbie) && SameMarks(s, t) && t.bootstrappers == s.bootstrappers && c != Newbie
    ensures GoodProof(t, lifetime, a, cc, p) <==> GoodProof(s, lifetime, a, cc, p)
    ensures HasRoom(t, cc, a, c, issued) <==> HasRoom(s, cc, a, c, issued)
  {
    hide Hall.RegistryOf;
    var from := CC(p.cid, p.cindex);
    assert HallAt(t, from).reputation == HallAt(s, from).reputation;
  }

  lemma MarksAfter(s: State, t: State, u: State, cc: CommunityCeremony, sender: Account,
                   proof: Option<ProofOfAttendance>)
    requires SameMarks(s, t) && Marked(t, u, cc, sender, proof)
    ensures Marked(s, u, cc, sender, proof)
  {
    forall other: CommunityCeremony, b: Account
      ensures HallAt(t, other).ReputationOf(b) == HallAt(s, other).ReputationOf(b)
    {
      assert HallAt(t, other).reputation == HallAt(s, other).reputation;
    }
  }

  lemma NothingUsed(s: State, t: State, lifetime: nat, cc: CommunityCeremony, a: Account, c: Category)
    requires UsedEndorsement(s, t, lifetime, cc, a, c) && c != Endorsee
    ensures SameEndorsements(s, t)
  {
    forall other: CommunityCeremony ensures HallAt(t, other).endorsements == HallAt(s, other).endorsements {
      assert forall b: Account :: b in HallAt(t, other).endorsements <==> b in HallAt(s, other).endorsements;
    }
  }

  // ---------- endorsing ----------

  // The ceremony an endorsement made now is for.
  function EndorsedFor(clock: Clock): nat {
    if clock.phase == Registering then clock.cindex else clock.cindex + 1
  }

  // A newbie already registered is registered again: as an endorsee, or as a bootstrapper.
  predicate Reregisters(s: State, cc: CommunityCeremony, newbie: Account) {
    newbie in HallAt(s, cc).newbies.index
  }

  function EndorsedCategory(s: State, cc: CommunityCeremony, newbie: Account): Category {
    if newbie in BootstrappersOf(s, cc.cid) then Bootstrapper else Endorsee
  }

  // The endorsement is on record, unless an endorsee has used it up at once.
  ghost predicate Endorsed(s: State, t: State, cc: CommunityCeremony, newbie: Account, used: bool) {
    forall other: CommunityCeremony, b: Account ::
      b in HallAt(t, other).endorsements <==>
      b in HallAt(s, other).endorsements || (!used && other == cc && b == newbie)
  }

  /** An endorsement succeeds exactly in a known community for somebody without an endorsement in
      the reputation lifetime, with a ticket; a newbie registered already must be free to register
      again, and then moves to the registry of the endorsed. Everybody else is left alone. */
  lemma EndorseExactly(cfg: Config, clock: Clock, s: State, cid: Cid, newbie: Account, hasTicket: bool, issued: bool)
    requires CI.Inv(clock, s)
    ensures var cc, r := CC(cid, EndorsedFor(clock)), EndorseNewcomer(cfg, clock, s, cid, newbie, hasTicket, issued);
            var again, c := Reregisters(s, cc, newbie), EndorsedCategory(s, cc, newbie);
            && (r.Ok? <==>
                  && cid in s.communities && hasTicket
                  && (forall i: nat :: !EndorsedIn(s, newbie, cc, cfg.reputationLifetime, i))
                  && (again ==> clock.phase == Registering && HasRoom(s, cc, newbie, c, issued)))
            && (r.Ok? ==>
                  && (if again then Moved(s, r.value, cc, newbie, Newbie, c) else SameRegistries(s, r.value))
                  && Endorsed(s, r.value, cc, newbie, again && c == Endorsee)
                  && SameMarks(s, r.value) && SameRest(s, r.value))
  {
    hide CI.HallOk, RemoveParticipant, Register, Hall.RegistryOf, CI.Step, EndorsedIn, EndorsedAt;
    var lifetime, cc := cfg.reputationLifetime, CC(cid, EndorsedFor(clock));
    var c, h := EndorsedCategory(s, cc, newbie), HallAt(s, cc);
    EndorsedExactly(s, newbie, cc, lifetime);
    var t := Put(s, cc, h.(endorsements := h.endorsements + {newbie}));
    EndorsedRecord(s, cc, newbie);
    if Reregisters(s, cc, newbie) && EndorsedAt(s, newbie, cc, lifetime, 0).None? {
      RemoveLeaves(clock, t, cc, newbie);
      CategoryOfNewbie(clock, s, t, cc, newbie);
      if RemoveParticipant(clock, t, cc, newbie).Ok? {
        var removed := RemoveParticipant(clock, t, cc, newbie).value;
        NowBelongs(s, t, removed, lifetime, cc, newbie);
        RegisterJoins(cfg, removed, cc, newbie, false, issued, c);
        var r := Register(cfg, removed, cc, newbie, false, issued);
        if r.Ok? {
          EndorsedMoves(s, t, removed, r.value, lifetime, cc, newbie, c);
        }
      }
    }
  }

  lemma EndorsedRecord(s: State, cc: CommunityCeremony, newbie: Account)
    ensures var h := HallAt(s, cc);
            var t := Put(s, cc, h.(endorsements := h.endorsements + {newbie}));
            && SameRegistries(s, t) && Endorsed(s, t, cc, newbie, false) && SameMarks(s, t) && SameRest(s, t)
  {
  }

  lemma CategoryOfNewbie(clock: Clock, s: State, t: State, cc: CommunityCeremony, newbie: Account)
    requires CI.Inv(clock, s) && SameRegistries(s, t) && newbie in HallAt(s, cc).newbies.index
    ensures HallAt(t, cc).CategoryOf(newbie) == Some(Newbie)
  {
    hide CI.HallOk;
    CI.HallAtOk(clock, s, cc);
    SameCategories(s, t, cc, newbie);
    NewbieOnly(clock, cc.cindex, HallAt(s, cc), newbie);
  }

  lemma NewbieOnly(clock: Clock, i: nat, h: Hall, a: Account)
    requires CI.HallOk(clock, i, h) && a in h.newbies.index
    ensures h.CategoryOf(a) == Some(Newbie)
  {
    assert h.RegistryOf(Newbie).index.Keys !! h.RegistryOf(Bootstrapper).index.Keys;
    assert h.RegistryOf(Newbie).index.Keys !! h.RegistryOf(Reputable).index.Keys;
    assert h.RegistryOf(Newbie).index.Keys !! h.RegistryOf(Endorsee).index.Keys;
  }

  // Just endorsed, the newbie belongs to the endorsed, by the endorsement of this ceremony.
  lemma NowBelongs(s: State, t: State, removed: State, lifetime: nat, cc: CommunityCeremony, newbie: Account)
    requires Endorsed(s, t, cc, newbie, false) && SameEndorsements(t, removed)
    requires removed.bootstrappers == s.bootstrappers
    ensures Belongs(removed, lifetime, cc, newbie, false, EndorsedCategory(s, cc, newbie))
    ensures EndorsedIn(removed, newbie, cc, lifetime, cc.cindex)
  {
    assert newbie in HallAt(t, cc).endorsements && CC(cc.cid, cc.cindex) == cc;
    assert HallAt(removed, cc).endorsements == HallAt(t, cc).endorsements;
    assert EndorsedIn(removed, newbie, cc, lifetime, cc.cindex);
  }

  lemma EndorsedMoves(s: State, t: State, removed: State, u: State, lifetime: nat, cc: CommunityCeremony,
                      newbie: Account, c: Category)
    requires forall i: nat :: !EndorsedIn(s, newbie, cc, lifetime, i)
    requires SameRegistries(s, t) && Endorsed(s, t, cc, newbie, false)
    requires Left(t, removed, cc, newbie, Newbie) && SameEndorsements(t, removed)
    requires Joined(removed, u, cc, newbie, c) && UsedEndorsement(removed, u, lifetime, cc, newbie, c)
    requires EndorsedIn(removed, newbie, cc, lifetime, cc.cindex) && c != Newbie
    ensures Moved(s, u, cc, newbie, Newbie, c) && Endorsed(s, u, cc, newbie, c == Endorsee)
  {
    hide Hall.RegistryOf, Append, SwapRemove;
    LeftThenJoined(t, removed, u, cc, newbie, Newbie, c);
    forall i: nat ensures EndorsedIn(removed, newbie, cc, lifetime, i) <==> i == cc.cindex {
      assert HallAt(removed, CC(cc.cid, i)).endorsements == HallAt(t, CC(cc.cid, i)).endorsements;
      assert !EndorsedIn(s, newbie, cc, lifetime, i);
    }
    forall other: CommunityCeremony, b: Account
      ensures b in HallAt(u, other).endorsements <==>
              b in HallAt(s, other).endorsements || (c != Endorsee && other == cc && b == newbie)
    {
      assert HallAt(removed, other).endorsements == HallAt(t, other).endorsements;
      assert !EndorsedIn(s, newbie, cc, lifetime, cc.cindex) && CC(cc.cid, cc.cindex) == cc;
    }
  }
}
