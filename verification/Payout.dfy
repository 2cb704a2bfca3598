/** Nobody receives the nominal income twice for one ceremony, over whole runs. */
module Payout {
  import opened Primitives
  import opened Hall
  import opened Ceremonies
  import opened Chain
  import MJ = MeetupJudgement
  import CI = CeremonyInvariants

  datatype Payment = Payment(account: Account, cid: Cid, cindex: nat)

  function PaymentsOf(accounts: seq<Account>, cc: CommunityCeremony): seq<Payment> {
    seq(|accounts|, i requires 0 <= i < |accounts| => Payment(accounts[i], cc.cid, cc.cindex))
  }

  // The payments made by one call.
  function Payments(s: Chain, call: Call): seq<Payment> {
    match call
    case ClaimCall(sender, cid, named, ballot, failures) =>
      var verdict := MJ.ClaimVerdict(s.clock, s.cer, sender, cid, named, ballot);
      PaymentsOf(PaidBy(s.clock, s.cer, sender, cid, named, verdict, failures), CC(cid, ClaimIndex(s.clock)))
    case _ => []
  }

  // All payments of the first n calls, with multiplicity.
  ghost function PaidUpTo(states: seq<Chain>, calls: seq<Call>, n: nat): multiset<Payment>
    requires n <= |calls| < |states|
  {
    if n == 0 then multiset{} else PaidUpTo(states, calls, n - 1) + multiset(Payments(states[n - 1], calls[n - 1]))
  }

  // A paid ceremony is either purged, or still marks the meetup that was paid.
  ghost predicate Recorded(s: Chain, v: Payment) {
    var h := HallAt(s.cer, CC(v.cid, v.cindex));
    && CI.Past(s.clock, v.cindex)
    && (h.meetups == 0 || exists k :: PaidAt(h, k, v.account))
  }

  ghost predicate PaidAt(h: Hall, k: nat, a: Account) {
    k in h.issued && ParticipantsOf(h, k).Some? && a in ParticipantsOf(h, k).value
  }

  // The record of a payment survives every call.
  lemma RecordStays(rules: Rules, s: Chain, t: Chain, v: Payment)
    requires Step(rules, s, t) && Recorded(s, v)
    ensures Recorded(t, v)
  {
    hide ParticipantsOf, CI.Past;
    var cc := CC(v.cid, v.cindex);
    var h, h' := HallAt(s.cer, cc), HallAt(t.cer, cc);
    assert CI.HallStep(s.clock, cc.cindex, h, h');
    if h'.meetups != 0 {
      var k :| PaidAt(h, k, v.account);
      SameSeatsSameLists(h, h', k);
      assert PaidAt(h', k, v.account);
    }
  }

  lemma SameSeatsSameLists(h: Hall, h': Hall, k: nat)
    requires CI.SameSeats(h, h')
    ensures ParticipantsOf(h', k) == ParticipantsOf(h, k)
  {
    hide Assignment.Inverse;
    forall g: Group, ps: seq<nat> ensures Holders(h', g, ps) == Holders(h, g, ps) {
      SameHolders(h, h', g, ps);
    }
  }

  lemma {:induction false} SameHolders(h: Hall, h': Hall, g: Group, ps: seq<nat>)
    requires CI.SameSeats(h, h')
    ensures Holders(h', g, ps) == Holders(h, g, ps)
  {
    if ps != [] {
      SameHolders(h, h', g, ps[..|ps| - 1]);
    }
  }

  // A claim pays distinct participants of one meetup.
  lemma {:induction false} PayeesDistinct(participants: seq<Account>, legit: seq<nat>, failures: set<nat>)
    requires NoDuplicates(participants) && NoDuplicates(legit)
    ensures NoDuplicates(Payees(participants, legit, failures))
    ensures forall a :: a in Payees(participants, legit, failures) ==>
              a in participants && exists i :: i in legit && i < |participants| && participants[i] == a
  {
    if legit != [] {
      var front, i := legit[..|legit| - 1], legit[|legit| - 1];
      assert legit == front + [i] && i !in front;
      PayeesDistinct(participants, front, failures);
      if i < |participants| {
        assert participants[i] !in Payees(participants, front, failures);
      }
    }
  }

  /** Whoever a claim pays was not paid for that ceremony before, and is recorded after. */
  lemma ClaimPaysNewcomers(rules: Rules, s: Chain, call: Call)
    requires Inv(rules, s) && CallOk(rules, s, call)
    ensures NoDuplicates(Payments(s, call))
    ensures forall v :: v in Payments(s, call) ==> !Recorded(s, v) && Recorded(Apply(rules, s, call), v)
  {
    hide ParticipantsOf, MeetupOf, CI.HallOk, Reward, MJ.ClaimVerdict;
    if call.ClaimCall? && Payments(s, call) != [] {
      var verdict := MJ.ClaimVerdict(s.clock, s.cer, call.sender, call.cid, call.named, call.ballot);
      MJ.ClaimVerdictDistinct(s.clock, s.cer, call.sender, call.cid, call.named, call.ballot);
      var cc := CC(call.cid, ClaimIndex(s.clock));
      var h := HallAt(s.cer, cc);
      var k := ClaimedMeetup(h, call.sender, call.named).value;
      CI.HallAtOk(s.clock, s.cer, cc);
      CI.InvalidWithoutMeetups(h, k);
      HallFacts(s.clock, cc.cindex, h);
      LookupRoundTrip(h, k);
      var people := ParticipantsOf(h, k).value;
      PayeesDistinct(people, verdict.legit, call.failures);
      RewardKeepsSeats(h, people, verdict.legit, call.failures);
      var h' := HallAt(Apply(rules, s, call).cer, cc);
      SameSeatsSameLists(h, h', k);
      forall v | v in Payments(s, call) ensures !Recorded(s, v) && Recorded(Apply(rules, s, call), v) {
        var j :| 0 <= j < |Payments(s, call)| && Payments(s, call)[j] == v;
        assert Payees(people, verdict.legit, call.failures)[j] == v.account;
        assert v.account in people;
        NotRecorded(h, k, v.account);
        assert PaidAt(h', k, v.account);
      }
    }
  }

  lemma HallFacts(clock: Clock, i: nat, h: Hall)
    requires CI.HallOk(clock, i, h)
    ensures RegistriesOk(h) && SeatsOk(h) && (h.meetups > 0 ==> CI.Past(clock, i))
    ensures |h.VerifiedAccounts()| <= h.reputationCount
  {
  }

  lemma RewardKeepsSeats(h: Hall, people: seq<Account>, legit: seq<nat>, failures: set<nat>)
    requires Reward(h, people, legit, failures).Ok? && |h.VerifiedAccounts()| <= h.reputationCount
    ensures CI.SameSeats(h, Reward(h, people, legit, failures).value)
  {
    CI.RewardEffect(h, people, legit, failures);
  }

  // The account cannot have been paid at another meetup of the same ceremony.
  lemma NotRecorded(h: Hall, k: nat, a: Account)
    requires RegistriesOk(h) && SeatsOk(h) && k !in h.issued
    requires ParticipantsOf(h, k).Some? && a in ParticipantsOf(h, k).value
    ensures !exists l :: PaidAt(h, l, a)
  {
    hide ParticipantsOf, MeetupOf;
    forall l | PaidAt(h, l, a) ensures false {
      CI.InvalidWithoutMeetups(h, k);
      CI.InvalidWithoutMeetups(h, l);
      MeetupsDisjoint(h, k, l, a);
    }
  }

  lemma {:induction false} PaidRecorded(rules: Rules, states: seq<Chain>, calls: seq<Call>, n: nat)
    requires IsRun(rules, states, calls) && n <= |calls|
    ensures forall v :: v in PaidUpTo(states, calls, n) ==> PaidUpTo(states, calls, n)[v] == 1 && Recorded(states[n], v)
  {
    hide Recorded, Inv, Step, Apply, CallOk, Payments;
    if n > 0 {
      var s, t, call := states[n - 1], states[n], calls[n - 1];
      var before, now := PaidUpTo(states, calls, n - 1), Payments(s, call);
      PaidRecorded(rules, states, calls, n - 1);
      RunKeeps(rules, states, calls, n - 1);
      assert Next(rules, states[n - 1], calls[n - 1], states[n - 1 + 1]);
      ClaimPaysNewcomers(rules, s, call);
      forall v | v in before + multiset(now) ensures (before + multiset(now))[v] == 1 && Recorded(t, v) {
        DistinctOnce(now, v);
        if v in before {
          RecordStays(rules, s, t, v);
        }
      }
    }
  }

  /** Over every run no account receives the income of one community ceremony twice, through
      early claims, late claims, claims by outsiders naming a meetup, and purges. */
  lemma PaidAtMostOnce(rules: Rules, states: seq<Chain>, calls: seq<Call>, v: Payment)
    requires IsRun(rules, states, calls)
    ensures PaidUpTo(states, calls, |calls|)[v] <= 1
  {
    PaidRecorded(rules, states, calls, |calls|);
  }

  // ---------- registries and lookups in every reachable state ----------

  /** In every reachable state the four categories of every ceremony are contiguous, index and
      registry are inverse, no account is in two categories, and the lookups agree. */
  lemma RegistriesInEveryState(rules: Rules, states: seq<Chain>, calls: seq<Call>, n: nat, cc: CommunityCeremony,
                               k: nat)
    requires IsRun(rules, states, calls) && n <= |calls|
    ensures var h := HallAt(states[n].cer, cc);
            && RegistriesOk(h)
            && SeatsOk(h)
            && (1 <= k <= h.meetups ==>
                  && ParticipantsOf(h, k).Some?
                  && NoDuplicates(ParticipantsOf(h, k).value)
                  && forall a :: a in ParticipantsOf(h, k).value <==> MeetupOf(h, a) == Some(k))
  {
    hide ParticipantsOf, MeetupOf, CI.HallOk, RegistriesOk, SeatsOk;
    var h := HallAt(states[n].cer, cc);
    RunKeeps(rules, states, calls, n);
    CI.HallAtOk(states[n].clock, states[n].cer, cc);
    HallFacts(states[n].clock, cc.cindex, h);
    if 1 <= k <= h.meetups {
      LookupRoundTrip(h, k);
    }
  }

  /** Once its registration is over, a ceremony's registries and seats never change, with or
      without meetups, until it is purged; and a purged ceremony stays vacant. */
  lemma {:induction false} SeatsFrozen(rules: Rules, states: seq<Chain>, calls: seq<Call>, i: nat, j: nat,
                                       cc: CommunityCeremony)
    requires IsRun(rules, states, calls) && i <= j <= |calls| && CI.Past(states[i].clock, cc.cindex)
    ensures CI.Past(states[j].clock, cc.cindex)
    ensures CI.Vacated(HallAt(states[j].cer, cc)) || CI.SameSeats(HallAt(states[i].cer, cc), HallAt(states[j].cer, cc))
    decreases j - i
  {
    hide Inv, Step, Next, Genesis, HallAt, CI.SameSeats, CI.Vacated, CI.Past;
    var h := HallAt(states[i].cer, cc);
    if i < j {
      SeatsFrozen(rules, states, calls, i, j - 1, cc);
      RunSteps(rules, states, calls, j - 1);
      StepFreezes(rules, states[j - 1], states[j], cc);
      FreezesJoin(h, HallAt(states[j - 1].cer, cc), HallAt(states[j].cer, cc));
    } else {
      FreezesJoin(h, h, h);
    }
  }

  lemma RunSteps(rules: Rules, states: seq<Chain>, calls: seq<Call>, n: nat)
    requires IsRun(rules, states, calls) && n < |calls|
    ensures n + 1 < |states| && Step(rules, states[n], states[n + 1])
  {
    hide Inv, Step;
    RunKeeps(rules, states, calls, n);
  }

  lemma StepFreezes(rules: Rules, s: Chain, t: Chain, cc: CommunityCeremony)
    requires Step(rules, s, t) && CI.Past(s.clock, cc.cindex)
    ensures CI.Past(t.clock, cc.cindex)
    ensures CI.Vacated(HallAt(t.cer, cc)) || CI.SameSeats(HallAt(s.cer, cc), HallAt(t.cer, cc))
  {
    hide CI.Past, GI.Evolves, HallAt, CI.SameSeats;
    assert CI.HallStep(s.clock, cc.cindex, HallAt(s.cer, cc), HallAt(t.cer, cc));
  }

  lemma FreezesJoin(h: Hall, h1: Hall, h2: Hall)
    ensures CI.SameSeats(h, h)
    ensures (CI.Vacated(h1) || CI.SameSeats(h, h1)) && (CI.Vacated(h2) || CI.SameSeats(h1, h2)) ==>
              CI.Vacated(h2) || CI.SameSeats(h, h2)
  {
  }
}
