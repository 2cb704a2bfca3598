/**
 The storage of the ceremonies pallet, updated in place. Each method is tied to the function
 of module Ceremonies that specifies it. A dispatchable call restores the storage when it
 fails; the purges run from hooks and never fail.
 */
module CeremoniesPallet {
  import opened Primitives
  import opened ParticipantRegistry
  import opened Hall
  import opened Ceremonies

  // What a step that may fail half way promises.
  ghost predicate Yields(spec: Result<State, Error>, result: Result<(), Error>, after: State) {
    match spec
    case Ok(s) => result == Ok(()) && after == s
    case Err(e) => result == Err(e)
  }

  // A call ends as its specification says, and a failing call changes nothing.
  ghost predicate Outcome(before: State, spec: Result<State, Error>, result: Result<(), Error>, after: State) {
    Yields(spec, result, after) && (result.Err? ==> after == before)
  }

  class Pallet {
    var communities: seq<Cid>
    var bootstrappers: map<Cid, seq<Account>>
    var halls: map<CommunityCeremony, Hall>
    var globalReputationCount: map<nat, nat>

    function View(): State
      reads this
    {
      State(communities, bootstrappers, halls, globalReputationCount)
    }

    constructor ()
      ensures View() == State([], map[], map[], map[])
    {
      communities, bootstrappers, halls, globalReputationCount := [], map[], map[], map[];
    }

    // The storage layer's rollback.
    method Restore(s: State)
      modifies this
      ensures View() == s
    {
      communities, bootstrappers := s.communities, s.bootstrappers;
      halls, globalReputationCount := s.halls, s.globalReputationCount;
    }

    // ---------- registration ----------

    method IsEndorsed(cfg: Config, a: Account, cc: CommunityCeremony) returns (result: Option<nat>)
      ensures result == EndorsedAt(View(), a, cc, cfg.reputationLifetime, 0)
    {
      for i := 0 to cfg.reputationLifetime + 1
        invariant EndorsedAt(View(), a, cc, cfg.reputationLifetime, 0) ==
                  EndorsedAt(View(), a, cc, cfg.reputationLifetime, i)
      {
        var cindex := SatSub(cc.cindex, i);
        if a in HallAt(View(), CC(cc.cid, cindex)).endorsements {
          return Some(cindex);
        }
      }
      return None;
    }

    method Enlist(cc: CommunityCeremony, c: Category, a: Account) returns (result: Result<(), Error>)
      modifies this`halls
      ensures Outcome(old(View()), RegisterAs(old(View()), cc, c, a), result, View())
    {
      var h := HallAt(View(), cc);
      if h.RegistryOf(c).count >= U64_MAX {
        return Err(RegistryOverflow);
      }
      halls := halls[cc := h.With(c, Append(h.RegistryOf(c), a))];
      return Ok(());
    }

    method Register(cfg: Config, cc: CommunityCeremony, a: Account, reputable: bool, issued: bool)
      returns (result: Result<(), Error>)
      modifies this`halls
      ensures Yields(Ceremonies.Register(cfg, old(View()), cc, a, reputable, issued), result, View())
    {
      if a in BootstrappersOf(View(), cc.cid) {
        result := Enlist(cc, Bootstrapper, a);
      } else if !issued {
        return Err(OnlyBootstrappers);
      } else if reputable {
        result := Enlist(cc, Reputable, a);
      } else {
        var endorsed := IsEndorsed(cfg, a, cc);
        if endorsed.Some? {
          var from := CC(cc.cid, endorsed.value);
          var h := HallAt(View(), from);
          halls := halls[from := h.(endorsements := h.endorsements - {a})];
          result := Enlist(cc, Endorsee, a);
        } else {
          result := Enlist(cc, Newbie, a);
        }
      }
    }

    method WriteReputation(cc: CommunityCeremony, a: Account, r: Reputation)
      modifies this`halls
      ensures View() == SetReputation(old(View()), cc, a, r)
    {
      var h := HallAt(View(), cc);
      halls := halls[cc := h.(reputation := h.reputation[a := r])];
    }

    method TryRegisterParticipant(cfg: Config, clock: Clock, sender: Account, cid: Cid,
                                  proof: Option<ProofOfAttendance>, issued: bool)
      returns (result: Result<(), Error>)
      modifies this`halls
      ensures Yields(Ceremonies.RegisterParticipant(cfg, clock, old(View()), sender, cid, proof, issued),
                     result, View())
    {
      hide Ceremonies.Register;
      var cindex := clock.cindex;
      if clock.phase == Assigning {
        return Err(RegisteringOrAttestationPhaseRequired);
      }
      if cid !in communities {
        return Err(InexistentCommunity);
      }
      if clock.phase == Attesting {
        cindex := cindex + 1;
      }
      if HallAt(View(), CC(cid, cindex)).IsRegistered(sender) {
        return Err(ParticipantAlreadyRegistered);
      }
      if proof.Some? {
        var p := proof.value;
        var checked := CheckProof(cfg, View(), sender, cid, cindex, p);
        if checked.Err? {
          return Err(checked.error);
        }
        WriteReputation(CC(p.cid, p.cindex), p.attendee, VerifiedLinked(cindex));
        WriteReputation(CC(cid, cindex), sender, UnverifiedReputable);
      }
      result := Register(cfg, CC(cid, cindex), sender, proof.Some?, issued);
    }

    method RegisterParticipant(cfg: Config, clock: Clock, sender: Account, cid: Cid,
                               proof: Option<ProofOfAttendance>, issued: bool)
      returns (result: Result<(), Error>)
      modifies this
      ensures Outcome(old(View()), Ceremonies.RegisterParticipant(cfg, clock, old(View()), sender, cid, proof, issued),
                      result, View())
    {
      hide Ceremonies.RegisterParticipant;
      var before := View();
      result := TryRegisterParticipant(cfg, clock, sender, cid, proof, issued);
      if result.Err? {
        Restore(before);
      }
    }

    method RemoveParticipantFromRegistry(clock: Clock, cc: CommunityCeremony, a: Account)
      returns (result: Result<(), Error>)
      modifies this`halls
      ensures Outcome(old(View()), RemoveParticipant(clock, old(View()), cc, a), result, View())
    {
      if clock.phase != Registering {
        return Err(WrongPhaseForUnregistering);
      }
      var h := HallAt(View(), cc);
      var category := h.CategoryOf(a);
      if category.None? {
        return Err(ParticipantIsNotRegistered);
      }
      match category.value {
        case Bootstrapper => h := h.(bootstrappers := SwapRemove(h.bootstrappers, a));
        case Reputable => h := h.(reputables := SwapRemove(h.reputables, a));
        case Endorsee => h := h.(endorsees := SwapRemove(h.endorsees, a));
        case Newbie => h := h.(newbies := SwapRemove(h.newbies, a));
      }
      halls := halls[cc := h];
      return Ok(());
    }

    method UpgradeRegistration(cfg: Config, clock: Clock, sender: Account, cid: Cid, proof: ProofOfAttendance,
                               issued: bool)
      returns (result: Result<(), Error>)
      modifies this
      ensures Outcome(old(View()), Ceremonies.UpgradeRegistration(cfg, clock, old(View()), sender, cid, proof, issued),
                      result, View())
    {
      hide RemoveParticipant, Ceremonies.RegisterParticipant;
      if cid !in communities {
        return Err(InexistentCommunity);
      }
      if clock.phase == Assigning {
        return Err(RegisteringOrAttestationPhaseRequired);
      }
      var cc := CC(cid, Target(clock));
      var category := HallAt(View(), cc).CategoryOf(sender);
      if category.None? {
        return Err(ParticipantIsNotRegistered);
      }
      if category.value != Newbie {
        return Err(MustBeNewbieToUpgradeRegistration);
      }
      var before := View();
      result := RemoveParticipantFromRegistry(clock, cc, sender);
      if result.Err? {
        return;
      }
      result := TryRegisterParticipant(cfg, clock, sender, cid, Some(proof), issued);
      if result.Err? {
        Restore(before);
      }
    }

    method RefundReputation(cfg: Config, sender: Account, cc: CommunityCeremony, from: CommunityCeremony)
      returns (result: Result<(), Error>)
      modifies this`halls
      ensures Outcome(old(View()), Refund(cfg, old(View()), sender, cc, from), result, View())
    {
      if from.cindex < SatSub(cc.cindex, cfg.reputationLifetime) {
        return Err(ProofOutdated);
      }
      if HallAt(View(), from).ReputationOf(sender) != VerifiedLinked(cc.cindex) {
        return Err(ReputationMustBeLinked);
      }
      WriteReputation(from, sender, VerifiedUnlinked);
      var h := HallAt(View(), cc);
      halls := halls[cc := h.(reputation := h.reputation - {sender})];
      return Ok(());
    }

    method UnregisterParticipant(cfg: Config, clock: Clock, sender: Account, cid: Cid,
                                 refund: Option<CommunityCeremony>)
      returns (result: Result<(), Error>)
      modifies this
      ensures Outcome(old(View()), Ceremonies.UnregisterParticipant(cfg, clock, old(View()), sender, cid, refund),
                      result, View())
    {
      hide RemoveParticipant, Refund;
      if clock.phase == Assigning {
        return Err(RegisteringOrAttestationPhaseRequired);
      }
      if cid !in communities {
        return Err(InexistentCommunity);
      }
      var cc := CC(cid, Target(clock));
      var category := HallAt(View(), cc).CategoryOf(sender);
      if category.None? {
        return Err(ParticipantIsNotRegistered);
      }
      var before := View();
      if category.value == Reputable || category.value == Bootstrapper {
        if refund.None? {
          if category.value == Reputable {
            return Err(ReputationCommunityCeremonyRequired);
          }
        } else {
          result := RefundReputation(cfg, sender, cc, refund.value);
          if result.Err? {
            return;
          }
        }
      }
      result := RemoveParticipantFromRegistry(clock, cc, sender);
      if result.Err? {
        Restore(before);
      }
    }

    method EndorseNewcomer(cfg: Config, clock: Clock, cid: Cid, newbie: Account, hasTicket: bool, issued: bool)
      returns (result: Result<(), Error>)
      modifies this
      ensures Outcome(old(View()), Ceremonies.EndorseNewcomer(cfg, clock, old(View()), cid, newbie, hasTicket, issued),
                      result, View())
    {
      hide RemoveParticipant, Ceremonies.Register, EndorsedAt;
      if cid !in communities {
        return Err(InexistentCommunity);
      }
      var cindex := clock.cindex;
      if clock.phase != Registering {
        cindex := cindex + 1;
      }
      var cc := CC(cid, cindex);
      var already := IsEndorsed(cfg, newbie, cc);
      if already.Some? {
        return Err(AlreadyEndorsed);
      }
      if !hasTicket {
        return Err(NoMoreNewbieTickets);
      }
      var before := View();
      var h := HallAt(View(), cc);
      halls := halls[cc := h.(endorsements := h.endorsements + {newbie})];
      result := Ok(());
      if newbie in HallAt(View(), cc).newbies.index {
        result := RemoveParticipantFromRegistry(clock, cc, newbie);
        if result.Ok? {
          result := Register(cfg, cc, newbie, false, issued);
        }
      }
      if result.Err? {
        Restore(before);
      }
    }

    // ---------- rewards ----------

    method IssueRewards(cc: CommunityCeremony, k: nat, participants: seq<Account>, legit: seq<nat>, failures: set<nat>)
      returns (result: Result<(), Error>)
      modifies this`halls, this`globalReputationCount
      ensures Yields(Ceremonies.IssueRewards(old(View()), cc, k, participants, legit, failures), result, View())
    {
      hide Reward, Payees;
      ghost var before := HallAt(View(), cc);
      ghost var paid := before;
      RewardNobody(before, participants, legit[..0], failures);
      var earned := 0;
      for n := 0 to |legit|
        invariant unchanged(this`globalReputationCount)
        invariant earned == |Payees(participants, legit[..n], failures)|
        invariant Reward(before, participants, legit[..n], failures) == Ok(paid)
        invariant HallAt(View(), cc) == paid.(reputationCount := before.reputationCount)
        invariant paid.reputationCount == before.reputationCount + earned
        invariant forall other :: other != cc ==> (other in halls <==> other in old(halls))
        invariant forall other :: other != cc && other in halls ==> halls[other] == old(halls)[other]
      {
        RewardStep(before, participants, legit, n, failures, paid);
        var i := legit[n];
        if i >= |participants| {
          RewardStops(before, participants, legit, n + 1, failures);
          return Err(MeetupValidationIndexOutOfBounds);
        }
        if i !in failures {
          WriteReputation(cc, participants[i], VerifiedUnlinked);
          earned := earned + 1;
          paid := Paid(paid, participants[i]);
        }
      }
      assert legit[..|legit|] == legit;
      Close(cc, k, earned);
      assert halls == old(halls)[cc := paid.(issued := paid.issued[k := MeetupOk])];
      return Ok(());
    }

    // Counts the reputations earned at a meetup and marks its rewards as issued.
    method Close(cc: CommunityCeremony, k: nat, earned: nat)
      modifies this`halls, this`globalReputationCount
      ensures var h := HallAt(old(View()), cc);
              halls == old(halls)[cc := h.(reputationCount := h.reputationCount + earned,
                                           issued := h.issued[k := MeetupOk])]
      ensures globalReputationCount ==
              old(globalReputationCount)[cc.cindex := GlobalCount(old(View()), cc.cindex) + earned]
    {
      var h := HallAt(View(), cc);
      var total := GlobalCount(View(), cc.cindex) + earned;
      halls := halls[cc := h.(reputationCount := h.reputationCount + earned, issued := h.issued[k := MeetupOk])];
      globalReputationCount := globalReputationCount[cc.cindex := total];
    }

    method TryClaimRewards(clock: Clock, sender: Account, cid: Cid, named: Option<nat>, verdict: Verdict,
                           failures: set<nat>)
      returns (result: Result<(), Error>)
      requires SeatsOk(HallAt(View(), CC(cid, ClaimIndex(clock))))
      modifies this`halls, this`globalReputationCount
      ensures Yields(Ceremonies.ClaimRewards(clock, old(View()), sender, cid, named, verdict, failures), result, View())
    {
      hide Ceremonies.IssueRewards, MeetupOf, ParticipantsOf;
      var cindex := clock.cindex;
      match clock.phase {
        case Registering => cindex := SatSub(cindex, 1);
        case Attesting =>
        case Assigning => return Err(WrongPhaseForClaimingRewards);
      }
      var cc := CC(cid, cindex);
      var h := HallAt(View(), cc);
      var meetup := if named.Some? then named else MeetupOf(h, sender);
      if meetup.None? {
        return Err(ParticipantIsNotRegistered);
      }
      if meetup.value in h.issued {
        return Err(RewardsAlreadyIssued);
      }
      var participants := GetMeetupParticipants(h, meetup.value);
      if participants.None? {
        return Err(InvalidMeetupIndex);
      }
      match verdict {
        case Undependable(outcome) =>
          // a failing early attempt does not close the meetup
          if clock.phase != Registering {
            return Err(VotesNotDependableError);
          }
          halls := halls[cc := h.(issued := h.issued[meetup.value := outcome])];
          return Ok(());
        case Judged(legit, early) =>
          if clock.phase == Attesting && !early {
            return Err(EarlyRewardsNotPossible);
          }
          result := IssueRewards(cc, meetup.value, participants.value, legit, failures);
      }
    }

    method ClaimRewards(clock: Clock, sender: Account, cid: Cid, named: Option<nat>, verdict: Verdict,
                        failures: set<nat>)
      returns (result: Result<(), Error>)
      requires SeatsOk(HallAt(View(), CC(cid, ClaimIndex(clock))))
      modifies this
      ensures Outcome(old(View()), Ceremonies.ClaimRewards(clock, old(View()), sender, cid, named, verdict, failures),
                      result, View())
    {
      hide Ceremonies.ClaimRewards;
      var before := View();
      result := TryClaimRewards(clock, sender, cid, named, verdict, failures);
      if result.Err? {
        Restore(before);
      }
    }

    // ---------- purging and the phase-change hook ----------

    method PurgeCommunityCeremonyInternal(cc: CommunityCeremony)
      modifies this`halls, this`globalReputationCount
      ensures View() == PurgeCeremony(old(View()), cc)
      // nothing is left of this ceremony, and all others stay
      ensures HallAt(View(), cc) == EMPTY_HALL
      ensures forall other :: other != cc ==> HallAt(View(), other) == HallAt(old(View()), other)
      ensures forall i :: i != cc.cindex ==> GlobalCount(View(), i) == GlobalCount(old(View()), i)
      ensures GlobalCount(View(), cc.cindex) == 0
    {
      halls := halls - {cc};
      globalReputationCount := globalReputationCount - {cc.cindex};
    }

    method PurgeRegistry(cindex: nat)
      modifies this`halls, this`globalReputationCount
      ensures View() == Ceremonies.PurgeRegistry(old(View()), cindex)
    {
      for n := 0 to |communities|
        invariant halls == map cc | cc in old(halls) && !(cc.cid in communities[..n] && cc.cindex == cindex) ::
                             old(halls)[cc]
        invariant globalReputationCount ==
                  if n == 0 then old(globalReputationCount) else old(globalReputationCount) - {cindex}
      {
        PurgeCommunityCeremonyInternal(CC(communities[n], cindex));
        assert communities[..n + 1] == communities[..n] + [communities[n]];
      }
      assert communities[..|communities|] == communities;
    }

    // Purges the ceremonies of one community from the oldest to before the given index.
    method PurgeHistory(cid: Cid, oldest: nat, end: nat)
      requires oldest <= end
      modifies this`halls, this`globalReputationCount
      ensures halls == map cc | cc in old(halls) && !(cc.cid == cid && oldest <= cc.cindex < end) :: old(halls)[cc]
      ensures globalReputationCount ==
              map i | i in old(globalReputationCount) && !(oldest <= i < end) :: old(globalReputationCount)[i]
    {
      for cindex := oldest to end
        invariant halls ==
                  map cc | cc in old(halls) && !(cc.cid == cid && oldest <= cc.cindex < cindex) :: old(halls)[cc]
        invariant globalReputationCount ==
                  map i | i in old(globalReputationCount) && !(oldest <= i < cindex) :: old(globalReputationCount)[i]
      {
        PurgeCommunityCeremonyInternal(CC(cid, cindex));
      }
    }

    method PurgeCommunity(cfg: Config, current: nat, cid: Cid)
      modifies this
      ensures View() == Ceremonies.PurgeCommunity(cfg, current, old(View()), cid)
    {
      var oldest := SatSub(current, cfg.reputationLifetime);
      PurgeHistory(cid, oldest, current + 1);
      communities := Without(communities, cid);
      bootstrappers := bootstrappers - {cid};
    }

    method PurgeInactives(cfg: Config, current: nat, inactives: seq<Cid>)
      modifies this
      ensures View() == PurgeInactive(cfg, current, old(View()), inactives)
    {
      hide Ceremonies.PurgeCommunity;
      for n := 0 to |inactives|
        invariant PurgeInactive(cfg, current, View(), inactives[n..]) ==
                  PurgeInactive(cfg, current, old(View()), inactives)
      {
        assert inactives[n..][1..] == inactives[n + 1..];
        PurgeCommunity(cfg, current, inactives[n]);
      }
    }

    method StoreHall(cc: CommunityCeremony, h: Hall)
      modifies this`halls
      ensures View() == Put(old(View()), cc, h)
    {
      halls := halls[cc := h];
    }

    method GenerateMeetupAssignmentParams(seating: Seating, cc: CommunityCeremony, input: SeatInput)
      requires SeatInputOk(seating, HallAt(View(), cc), input)
      modifies this`halls
      ensures View() == Put(old(View()), cc, AssignSeats(seating, HallAt(old(View()), cc), input))
    {
      hide *;
      var h := HallAt(View(), cc);
      var seated := AssignMeetups(seating, h, input);
      StoreHall(cc, seated);
    }

    method GenerateAllMeetupAssignmentParams(cfg: Config, cindex: nat, inputs: map<Cid, SeatInput>)
      requires SeatInputsOk(cfg, View(), cindex, inputs)
      modifies this`halls
      ensures View() == AssignAll(cfg, old(View()), cindex, inputs)
    {
      hide SeatInputOk, AssignSeats;
      for n := 0 to |communities|
        invariant forall cc :: cc in halls <==> cc in old(halls) || (cc.cindex == cindex && cc.cid in communities[..n])
        invariant forall cc: CommunityCeremony ::
                    HallAt(View(), cc) ==
                      if cc.cindex == cindex && cc.cid in communities[..n]
                      then Assigned(cfg, old(View()), inputs, cc)
                      else HallAt(old(View()), cc)
      {
        var cid := communities[n];
        assert communities[..n + 1] == communities[..n] + [cid];
        assert cid in communities;
        assert SeatInputOk(cfg.seating, HallAt(old(View()), CC(cid, cindex)), SeatInputFor(inputs, cid));
        AssignTwice(cfg.seating, HallAt(old(View()), CC(cid, cindex)), SeatInputFor(inputs, cid));
        GenerateMeetupAssignmentParams(cfg.seating, CC(cid, cindex), SeatInputFor(inputs, cid));
      }
      assert communities[..|communities|] == communities;
      assert halls == AssignAll(cfg, old(View()), cindex, inputs).halls;
    }
  }

  ghost function Assigned(cfg: Config, s: State, inputs: map<Cid, SeatInput>, cc: CommunityCeremony): Hall {
    var h, input := HallAt(s, cc), SeatInputFor(inputs, cc.cid);
    if SeatInputOk(cfg.seating, h, input) then AssignSeats(cfg.seating, h, input) else h
  }

  // Assigning a ceremony a second time with the same draws changes nothing.
  lemma AssignTwice(seating: Seating, h: Hall, input: SeatInput)
    requires SeatInputOk(seating, h, input)
    ensures SeatInputOk(seating, AssignSeats(seating, h, input), input)
    ensures AssignSeats(seating, AssignSeats(seating, h, input), input) == AssignSeats(seating, h, input)
  {
    assert Allowance(seating, AssignSeats(seating, h, input), input.locations) ==
           Allowance(seating, h, input.locations);
  }

  function Paid(h: Hall, a: Account): Hall {
    h.(reputation := h.reputation[a := VerifiedUnlinked], reputationCount := h.reputationCount + 1)
  }

  lemma RewardNobody(h: Hall, participants: seq<Account>, legit: seq<nat>, failures: set<nat>)
    requires legit == []
    ensures Reward(h, participants, legit, failures) == Ok(h) && Payees(participants, legit, failures) == []
  {
  }

  // One more listed participant.
  lemma RewardStep(h: Hall, participants: seq<Account>, legit: seq<nat>, n: nat, failures: set<nat>, paid: Hall)
    requires n < |legit| && Reward(h, participants, legit[..n], failures) == Ok(paid)
    ensures var i, r := legit[n], Reward(h, participants, legit[..n + 1], failures);
            var before := |Payees(participants, legit[..n], failures)|;
            var after := |Payees(participants, legit[..n + 1], failures)|;
            if i >= |participants| then r == Err(MeetupValidationIndexOutOfBounds)
            else if i in failures then r == Ok(paid) && after == before
            else r == Ok(Paid(paid, participants[i])) && after == before + 1
  {
    assert legit[..n + 1][..n] == legit[..n] && legit[..n + 1][n] == legit[n];
  }

  lemma {:induction false} RewardStops(h: Hall, participants: seq<Account>, legit: seq<nat>, n: nat, failures: set<nat>)
    requires n <= |legit| && Reward(h, participants, legit[..n], failures).Err?
    ensures Reward(h, participants, legit, failures) == Reward(h, participants, legit[..n], failures)
    decreases |legit| - n
  {
    if n == |legit| {
      assert legit[..n] == legit;
    } else {
      assert legit[..n + 1][..n] == legit[..n];
      RewardStops(h, participants, legit, n + 1, failures);
    }
  }
}
