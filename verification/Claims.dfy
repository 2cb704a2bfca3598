/** When a claim goes through, whom it pays, and what it leaves on record. */
module Claims {
  import opened Primitives
  import opened Hall
  import opened Ceremonies
  import MJ = MeetupJudgement
  import CI = CeremonyInvariants

  // Claims are for the running ceremony once seats are taken, or for the last one.
  function ClaimedCeremony(clock: Clock, cid: Cid): CommunityCeremony {
    CC(cid, if clock.phase == Registering && clock.cindex > 0 then clock.cindex - 1 else clock.cindex)
  }

  // The meetup named, or else the claimant's own, exists and has not been settled yet.
  predicate Open(h: Hall, sender: Account, named: Option<nat>, k: nat) {
    (named == Some(k) || (named == None && MeetupOf(h, sender) == Some(k))) && 1 <= k <= h.meetups && k !in h.issued
  }

  // The outcome settles the meetup now: early only if everybody agrees.
  predicate Settles(clock: Clock, verdict: Verdict) {
    match clock.phase
    case Registering => true
    case Assigning => false
    case Attesting => verdict.Judged? && verdict.early
  }

  // Exactly the legit participants are paid, but for those whose issuance fails.
  ghost predicate PaysTheLegit(paid: seq<Account>, people: seq<Account>, legit: seq<nat>, failures: set<nat>) {
    forall a: Account :: a in paid <==> exists i: nat :: i in legit && i !in failures && i < |people| && people[i] == a
  }

  lemma {:induction false} PayeesAre(people: seq<Account>, legit: seq<nat>, failures: set<nat>)
    ensures PaysTheLegit(Payees(people, legit, failures), people, legit, failures)
  {
    if legit != [] {
      var front, last := legit[..|legit| - 1], legit[|legit| - 1];
      assert legit == front + [last];
      PayeesAre(people, front, failures);
      var paid := Payees(people, legit, failures);
      forall a: Account
        ensures a in paid <==> exists i: nat :: i in legit && i !in failures && i < |people| && people[i] == a
      {
        assert a in paid <==>
               a in Payees(people, front, failures) || (last !in failures && last < |people| && people[last] == a);
        if i: nat :| i in legit && i !in failures && i < |people| && people[i] == a {
          assert i in front || i == last;
        }
      }
    }
  }

  lemma {:induction false} RewardLeaves(h: Hall, people: seq<Account>, legit: seq<nat>, failures: set<nat>)
    requires Reward(h, people, legit, failures).Ok?
    ensures Reward(h, people, legit, failures).value.issued == h.issued
  {
    if legit != [] {
      RewardLeaves(h, people, legit[..|legit| - 1], failures);
    }
  }

  /** A claim goes through exactly if its meetup is open and the verdict on it settles it. The
      meetup is then marked with the outcome and no other is, and exactly the participants the
      verdict finds legit are paid, but for those whose issuance fails. */
  lemma ClaimExactly(clock: Clock, s: State, sender: Account, cid: Cid, named: Option<nat>, ballot: MJ.Ballot,
                     failures: set<nat>)
    ensures var cc, verdict := ClaimedCeremony(clock, cid), MJ.ClaimVerdict(clock, s, sender, cid, named, ballot);
            var h, r := HallAt(s, cc), ClaimRewards(clock, s, sender, cid, named, verdict, failures);
            && (r.Ok? <==> Settles(clock, verdict) && exists k :: Open(h, sender, named, k))
            && (r.Ok? ==>
                  forall k :: Open(h, sender, named, k) ==>
                    && HallAt(r.value, cc).issued ==
                       h.issued[k := if verdict.Judged? then MeetupOk else VotesNotDependable]
                    && verdict == MJ.VerdictOf(ParticipantsOf(h, k).value, ballot.voteOf, ballot.attestees)
                    && PaysTheLegit(PaidBy(clock, s, sender, cid, named, verdict, failures), ParticipantsOf(h, k).value,
                                    if verdict.Judged? then verdict.legit else [], failures))
  {
    hide MJ.VerdictOf, MeetupOf, Reward, Payees, PaysTheLegit;
    var cc, verdict := ClaimedCeremony(clock, cid), MJ.ClaimVerdict(clock, s, sender, cid, named, ballot);
    var h := HallAt(s, cc);
    assert cc == CC(cid, ClaimIndex(clock));
    var claimed := ClaimedMeetup(h, sender, named);
    if claimed.Some? {
      var k := claimed.value;
      CI.InvalidWithoutMeetups(h, k);
      assert Open(h, sender, named, k) <==> 1 <= k <= h.meetups && k !in h.issued;
      if ParticipantsOf(h, k).Some? {
        var people := ParticipantsOf(h, k).value;
        MJ.VerdictIsSound(people, ballot.voteOf, ballot.attestees);
        NobodyPaid(people, failures);
        if verdict.Judged? {
          MJ.RewardSucceeds(h, people, verdict.legit, failures);
          RewardLeaves(h, people, verdict.legit, failures);
          PayeesAre(people, verdict.legit, failures);
        }
      }
    }
  }

  lemma NobodyPaid(people: seq<Account>, failures: set<nat>)
    ensures PaysTheLegit([], people, [], failures)
  {
  }
}
