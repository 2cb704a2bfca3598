/**
 The judgement of a whole meetup, and what it means for a claim: the list of participants
 that merit the reward is duplicate-free and within range, whatever was voted and attested.
 */
module MeetupJudgement {
  import opened Primitives
  import opened Hall
  import opened Ceremonies
  import opened MeetupValidation

  function Voting(votes: seq<nat>): nat -> bool {
    (p: nat) => VoteOf(votes, p) > 0
  }

  function Silent(votes: seq<nat>): nat -> bool {
    (p: nat) => VoteOf(votes, p) == 0
  }

  function Dissenting(votes: seq<nat>, v: nat): nat -> bool {
    (p: nat) => VoteOf(votes, p) != v
  }

  function Except(i: nat): nat -> bool {
    (p: nat) => p != i
  }

  // Whether rewards may be paid before attesting is over.
  predicate EarlyRewards(legit: seq<nat>, att: Attestations, total: nat, m: Majority) {
    && m.unanimous
    && m.confirmed * 2 > total
    && (forall i :: 0 <= i < |att| ==> i in legit ==> |att[i]| == m.confirmed - 1)
    && (forall i :: 0 <= i < |att| ==> i in legit ==> multiset(att[i]) == multiset(Filter(legit, Except(i))))
  }

  function Judge(ps: seq<nat>, votes: seq<nat>, att: Attestations, threshold: nat -> nat)
    : Result<Judgements, ValidationError>
  {
    var voters := Filter(ps, Voting(votes));
    if !InRange(ps, |votes|) then Err(IndexOutOfBounds)
    else
      match FindMajority(voters, votes)
      case Err(e) => Err(e)
      case Ok(m) =>
        var agreeing := Filter(voters, Casting(votes, m.confirmed));
        if !InRange(agreeing, |att|) then Err(IndexOutOfBounds)
        else
          Ok(Judgements(
               StableCore(agreeing, att, threshold),
               Tagged(Filter(ps, Silent(votes)), NoVote) +
               Tagged(Filter(voters, Dissenting(votes, m.confirmed)), WrongVote) +
               Peel(agreeing, att, threshold),
               EarlyRewards(agreeing, att, |ps|, m)))
  }

  // ---------- the pass over a meetup ----------

  /** What remains after dropping the excluded is the stable group. */
  lemma {:induction false} CoreIsRest(ps: seq<nat>, att: Attestations, threshold: nat -> nat)
    ensures StableCore(ps, att, threshold) == Filter(ps, Outside(Indices(Peel(ps, att, threshold))))
    decreases |ps|
  {
    hide Weakest, WeakGroup;
    if ps == [] {
    } else if Weakest(ps, att, threshold(|ps|)).None? {
      FilterAll(ps, Outside([]));
    } else {
      var reason := Weakest(ps, att, threshold(|ps|)).value;
      var weak, left := WeakGroup(ps, att, reason), Survivors(ps, att, reason);
      var rest := Indices(Peel(left, att, threshold));
      CoreIsRest(left, att, threshold);
      TaggedIndices(weak, reason, Peel(left, att, threshold));
      FilterTwice(ps, Outside(weak), Outside(rest));
      FilterSame(ps, Both(Outside(weak), Outside(rest)), Outside(weak + rest));
    }
  }

  // Dropping everybody of one kind keeps everybody of the other.
  lemma DropKind(ps: seq<nat>, bad: nat -> bool, good: nat -> bool)
    requires forall p :: p in ps ==> good(p) == !bad(p)
    ensures Filter(ps, Outside(Filter(ps, bad))) == Filter(ps, good)
  {
    FilterElements(ps, bad);
    FilterSame(ps, Outside(Filter(ps, bad)), good);
  }

  lemma TaggedOnly(ps: seq<nat>, reason: Reason)
    ensures Indices(Tagged(ps, reason)) == ps
  {
  }

  // Keeps the participants not excluded and files the excluded ones.
  method Exclude(legit: seq<nat>, filed: seq<Excluded>, excluded: seq<Excluded>)
    returns (kept: seq<nat>, all: seq<Excluded>)
    ensures kept == Filter(legit, Outside(Indices(excluded)))
    ensures all == filed + excluded
  {
    kept := Retain(legit, Outside(Indices(excluded)));
    all := filed + excluded;
  }

  method ExcludedWhere(ps: seq<nat>, votes: seq<nat>, bad: nat -> bool, reason: Reason)
    returns (result: Result<seq<Excluded>, ValidationError>)
    ensures result == if InRange(ps, |votes|) then Ok(Tagged(Filter(ps, bad), reason)) else Err(IndexOutOfBounds)
  {
    hide Filter, Tagged;
    var found: seq<Excluded> := [];
    TaggedFirst(ps, bad, reason);
    for n := 0 to |ps|
      invariant InRange(ps[..n], |votes|)
      invariant found == Tagged(Filter(ps[..n], bad), reason)
    {
      assert ps[n] in ps;
      if ps[n] >= |votes| {
        return Err(IndexOutOfBounds);
      }
      RangeNext(ps, n, |votes|);
      TaggedNext(ps, n, bad, reason);
      if bad(ps[n]) {
        found := found + [Excluded(ps[n], reason)];
      }
    }
    assert ps[..|ps|] == ps;
    return Ok(found);
  }

  lemma TaggedFirst(ps: seq<nat>, bad: nat -> bool, reason: Reason)
    ensures Tagged(Filter(ps[..0], bad), reason) == []
  {
  }

  lemma TaggedNext(ps: seq<nat>, n: nat, bad: nat -> bool, reason: Reason)
    requires n < |ps|
    ensures Tagged(Filter(ps[..n + 1], bad), reason) ==
            Tagged(Filter(ps[..n], bad), reason) + if bad(ps[n]) then [Excluded(ps[n], reason)] else []
  {
    assert ps[..n + 1][..n] == ps[..n] && ps[..n + 1][n] == ps[n];
  }

  method GetParticipantJudgements(ps: seq<nat>, votes: seq<nat>, att: Attestations, threshold: nat -> nat)
    returns (result: Result<Judgements, ValidationError>)
    ensures result == Judge(ps, votes, att, threshold)
  {
    hide Filter, Tagged, Indices, FindMajority, Peel, EarlyRewards, StableCore;
    var legit, excluded := ps, [];
    var silent := ExcludedWhere(ps, votes, Silent(votes), NoVote);
    if silent.Err? {
      return Err(silent.error);
    }
    TaggedOnly(Filter(ps, Silent(votes)), NoVote);
    DropKind(ps, Silent(votes), Voting(votes));
    legit, excluded := Exclude(legit, excluded, silent.value);
    assert [] + silent.value == silent.value;

    var majority := FindMajorityVote(legit, votes);
    if majority.Err? {
      return Err(majority.error);
    }
    var m := majority.value;
    FilterElements(ps, Voting(votes));
    var dissenters := ExcludedWhere(legit, votes, Dissenting(votes, m.confirmed), WrongVote);
    TaggedOnly(Filter(legit, Dissenting(votes, m.confirmed)), WrongVote);
    DropKind(legit, Dissenting(votes, m.confirmed), Casting(votes, m.confirmed));
    legit, excluded := Exclude(legit, excluded, dissenters.value);

    var early := EarlyRewards(legit, att, |ps|, m);
    var weak := ExcludeByAttestations(legit, att, threshold);
    if weak.Err? {
      return Err(weak.error);
    }
    CoreIsRest(legit, att, threshold);
    legit, excluded := Exclude(legit, excluded, weak.value);
    return Ok(Judgements(legit, excluded, early));
  }

  // ---------- what a judgement means ----------

  lemma FilterBoth(ps: seq<nat>, bad: nat -> bool, good: nat -> bool)
    requires NoDuplicates(ps) && forall p :: p in ps ==> good(p) == !bad(p)
    ensures Splits(ps, Filter(ps, good), Filter(ps, bad))
  {
    FilterElements(ps, bad);
    FilterElements(ps, good);
  }

  lemma JoinIndices(a: seq<Excluded>, b: seq<Excluded>)
    ensures Indices(a + b) == Indices(a) + Indices(b)
  {
  }

  /** Every participant is judged exactly once; those who merit the reward all cast the vote
      with the most support, and form a stable group. */
  lemma JudgementSound(ps: seq<nat>, votes: seq<nat>, att: Attestations, threshold: nat -> nat)
    requires NoDuplicates(ps) && Judge(ps, votes, att, threshold).Ok?
    ensures var j, voters := Judge(ps, votes, att, threshold).value, Filter(ps, Voting(votes));
            && Splits(ps, j.legit, Indices(j.excluded))
            && Stable(j.legit, att, threshold)
            && FindMajority(voters, votes).Ok?
            && forall p :: p in j.legit ==> VoteOf(votes, p) == FindMajority(voters, votes).value.confirmed > 0
  {
    hide Filter, Tagged, Indices, FindMajority, Peel, EarlyRewards, StableCore, Stable;
    var j, voters := Judge(ps, votes, att, threshold).value, Filter(ps, Voting(votes));
    var m := FindMajority(voters, votes).value;
    var silent, wrong := Filter(ps, Silent(votes)), Filter(voters, Dissenting(votes, m.confirmed));
    var agreeing := Filter(voters, Casting(votes, m.confirmed));
    FilterElements(ps, Voting(votes));
    FilterElements(voters, Casting(votes, m.confirmed));
    FilterBoth(ps, Silent(votes), Voting(votes));
    FilterBoth(voters, Dissenting(votes, m.confirmed), Casting(votes, m.confirmed));
    PeelSplits(agreeing, att, threshold);
    CoreIsStable(agreeing, att, threshold);
    SplitsFurther(ps, voters, silent, agreeing, wrong);
    SplitsFurther(ps, agreeing, silent + wrong, j.legit, Indices(Peel(agreeing, att, threshold)));
    TaggedOnly(silent, NoVote);
    TaggedOnly(wrong, WrongVote);
    JoinIndices(Tagged(silent, NoVote), Tagged(wrong, WrongVote));
    JoinIndices(Tagged(silent, NoVote) + Tagged(wrong, WrongVote), Peel(agreeing, att, threshold));
  }

  // The attestations a participant needs in a group of the given size.
  function Threshold(size: nat): nat {
    Max(if size > 5 then SatSub(size, 2) else SatSub(size, 1), 1)
  }

  lemma {:induction false} DistinctFit(s: seq<nat>, bag: set<nat>)
    requires NoDuplicates(s) && forall x :: x in s ==> x in bag
    ensures |s| <= |bag|
  {
    if s != [] {
      var t, last := s[..|s| - 1], s[|s| - 1];
      assert s == t + [last] && last !in t;
      DistinctFit(t, bag - {last});
    }
  }

  lemma {:induction false} DropOne(s: seq<nat>, p: nat)
    requires NoDuplicates(s) && p in s
    ensures |Filter(s, Except(p))| == |s| - 1
  {
    var t, last := s[..|s| - 1], s[|s| - 1];
    assert s == t + [last] && last !in t;
    if last == p {
      FilterAll(t, Except(p));
    } else {
      DropOne(t, p);
    }
  }

  // Everyone in the group attests exactly the others.
  ghost predicate MutuallyAttested(ps: seq<nat>, att: Attestations) {
    forall p :: p in ps ==> p < |att| && multiset(att[p]) == multiset(Filter(ps, Except(p)))
  }

  lemma AttestsOthers(ps: seq<nat>, att: Attestations, p: nat)
    requires NoDuplicates(ps) && MutuallyAttested(ps, att) && p in ps
    ensures |att[p]| == |ps| - 1
    ensures forall q :: q in att[p] <==> q in ps && q != p
  {
    var others := Filter(ps, Except(p));
    DropOne(ps, p);
    FilterElements(ps, Except(p));
    assert |multiset(att[p])| == |multiset(others)|;
    forall q ensures q in att[p] <==> q in others {
      assert q in att[p] <==> q in multiset(att[p]);
      assert q in others <==> q in multiset(others);
    }
  }

  lemma MutualIsEnough(ps: seq<nat>, att: Attestations, p: nat)
    requires NoDuplicates(ps) && MutuallyAttested(ps, att) && p in ps
    ensures Outgoing(att, ps, p) >= |ps| - 1 && Incoming(att, p) >= |ps| - 1
  {
    hide Filter;
    AttestsOthers(ps, att, p);
    FilterAll(att[p], MeetupValidation.Within(ps));
    var others := Filter(ps, Except(p));
    DropOne(ps, p);
    FilterElements(ps, Except(p));
    forall q | q in others ensures q in Attesters(att, p) {
      AttestsOthers(ps, att, q);
    }
    DistinctFit(others, Attesters(att, p));
  }

  lemma LowestAtLeast(ps: seq<nat>, f: nat -> nat, t: nat)
    requires ps != [] && forall p :: p in ps ==> f(p) >= t
    ensures Lowest(ps, f) >= t
  {
    var low := Lowest(ps, f);
    var p: nat :| p in ps && f(p) == low;
  }

  lemma MutualIsStable(ps: seq<nat>, att: Attestations)
    requires NoDuplicates(ps) && MutuallyAttested(ps, att) && |ps| >= 2
    ensures StableCore(ps, att, Threshold) == ps && Peel(ps, att, Threshold) == []
  {
    hide MutuallyAttested, Lowest, Outgoing, Incoming;
    var t := Threshold(|ps|);
    forall p | p in ps ensures OutgoingIn(att, ps)(p) >= t && IncomingIn(att)(p) >= t {
      MutualIsEnough(ps, att, p);
    }
    LowestAtLeast(ps, OutgoingIn(att, ps), t);
    LowestAtLeast(ps, IncomingIn(att), t);
    assert Weakest(ps, att, t) == None;
  }

  /** Rewards may be paid early only to a complete group: everybody who voted confirmed the
      true number of the group, more than half of those registered, and attested all others;
      nobody else is excluded than those who did not vote. */
  lemma EarlyIsComplete(ps: seq<nat>, votes: seq<nat>, att: Attestations)
    requires NoDuplicates(ps) && Judge(ps, votes, att, Threshold).Ok? && Judge(ps, votes, att, Threshold).value.early
    ensures var j := Judge(ps, votes, att, Threshold).value;
            && j.legit == Filter(ps, Voting(votes)) && |j.legit| * 2 > |ps|
            && MutuallyAttested(j.legit, att)
            && (forall p :: p in j.legit ==> VoteOf(votes, p) == |j.legit|)
            && j.excluded == Tagged(Filter(ps, Silent(votes)), NoVote)
  {
    hide Filter, FindMajority, Tagged, StableCore, Peel, Support;
    var j, voters := Judge(ps, votes, att, Threshold).value, Filter(ps, Voting(votes));
    var m := FindMajority(voters, votes).value;
    MajorityLeads(voters, votes);
    FilterElements(ps, Voting(votes));
    FilterAll(voters, Casting(votes, m.confirmed));
    FilterNone(voters, Dissenting(votes, m.confirmed));
    SupportOfAll(voters, votes, m.confirmed);
    assert MutuallyAttested(voters, att);
    MutualIsStable(voters, att);
    var p := voters[0];
    AttestsOthers(voters, att, p);
    TaggedNone(WrongVote);
    assert j.excluded == Tagged(Filter(ps, Silent(votes)), NoVote) + [] + [];
  }

  lemma TaggedNone(reason: Reason)
    ensures Tagged([], reason) == []
  {
  }

  lemma SupportOfAll(ps: seq<nat>, votes: seq<nat>, v: nat)
    ensures Support(ps, votes, v) == |Filter(ps, Casting(votes, v))|
  {
  }

  // ---------- claims ----------

  // The first position of an account among the participants.
  function PositionIn(participants: seq<Account>, a: Account): (i: nat)
    ensures i <= |participants|
    ensures i < |participants| ==> participants[i] == a
    ensures forall j :: 0 <= j < i ==> participants[j] != a
  {
    if participants == [] then 0
    else if participants[0] == a then 0
    else 1 + PositionIn(participants[1..], a)
  }

  // Attestations of accounts outside the meetup are ignored.
  function Positions(participants: seq<Account>, attestees: seq<Account>): seq<nat> {
    if attestees == [] then []
    else
      var i := PositionIn(participants, attestees[|attestees| - 1]);
      Positions(participants, attestees[..|attestees| - 1]) + if i < |participants| then [i] else []
  }

  function GatherVotes(participants: seq<Account>, voteOf: Account -> nat): seq<nat> {
    seq(|participants|, i requires 0 <= i < |participants| => voteOf(participants[i]))
  }

  function GatherAttestations(participants: seq<Account>, attestees: Account -> seq<Account>): Attestations {
    seq(|participants|, i requires 0 <= i < |participants| => Positions(participants, attestees(participants[i])))
  }

  function UpTo(n: nat): seq<nat> {
    seq(n, i requires 0 <= i < n => i)
  }

  // The verdict a claim works with.
  function VerdictOf(participants: seq<Account>, voteOf: Account -> nat, attestees: Account -> seq<Account>): Verdict {
    match Judge(UpTo(|participants|), GatherVotes(participants, voteOf),
                GatherAttestations(participants, attestees), Threshold)
    case Ok(j) => Judged(j.legit, j.early)
    case Err(IndexOutOfBounds) => Undependable(ValidationIndexOutOfBounds)
    case Err(_) => Undependable(VotesNotDependable)
  }

  /** For every ballot the verdict names each legit participant once and within range, so
      what a claim assumes of its verdict always holds, and no index is ever out of bounds. */
  lemma VerdictIsSound(participants: seq<Account>, voteOf: Account -> nat, attestees: Account -> seq<Account>)
    ensures var v := VerdictOf(participants, voteOf, attestees);
            if v.Judged? then NoDuplicates(v.legit) && InRange(v.legit, |participants|)
            else v.result == VotesNotDependable
  {
    hide Filter, FindMajority, StableCore, Peel, Tagged, EarlyRewards, Positions, Splits;
    var ps, votes := UpTo(|participants|), GatherVotes(participants, voteOf);
    var att := GatherAttestations(participants, attestees);
    assert InRange(ps, |participants|) && |votes| == |participants| == |att|;
    var voters := Filter(ps, Voting(votes));
    FilterElements(ps, Voting(votes));
    NoStrangers(voters, votes);
    if FindMajority(voters, votes).Ok? {
      FilterElements(voters, Casting(votes, FindMajority(voters, votes).value.confirmed));
      JudgementSound(ps, votes, att, Threshold);
      var j := Judge(ps, votes, att, Threshold).value;
      SplitsParts(ps, j.legit, Indices(j.excluded));
    }
  }

  lemma SplitsParts(ps: seq<nat>, kept: seq<nat>, dropped: seq<nat>)
    requires Splits(ps, kept, dropped)
    ensures NoDuplicates(kept) && forall p :: p in kept ==> p in ps
  {
  }

  lemma NoStrangers(ps: seq<nat>, votes: seq<nat>)
    ensures InRange(ps, |votes|) ==> FindMajority(ps, votes) != Err(IndexOutOfBounds)
  {
  }

  lemma {:induction false} RewardSucceeds(h: Hall, participants: seq<Account>, legit: seq<nat>, failures: set<nat>)
    requires InRange(legit, |participants|)
    ensures Reward(h, participants, legit, failures).Ok?
  {
    if legit != [] {
      var t, last := legit[..|legit| - 1], legit[|legit| - 1];
      assert legit == t + [last];
      assert last in legit && forall p: nat :: p in t ==> p in legit;
      RewardSucceeds(h, participants, t, failures);
    }
  }

  /** A claim for an assigned meetup with no rewards issued yet succeeds in the registering
      phase whatever was voted and attested; in the attesting phase, exactly for an early verdict. */
  lemma ClaimSucceedsExactly(clock: Clock, s: State, sender: Account, cid: Cid, k: nat,
                             voteOf: Account -> nat, attestees: Account -> seq<Account>, failures: set<nat>)
    requires clock.phase != Assigning
    requires var h := HallAt(s, CC(cid, ClaimIndex(clock))); k !in h.issued && 1 <= k <= h.meetups
    ensures var h := HallAt(s, CC(cid, ClaimIndex(clock)));
            var v := VerdictOf(ParticipantsOf(h, k).value, voteOf, attestees);
            ClaimRewards(clock, s, sender, cid, Some(k), v, failures).Ok? <==>
              clock.phase == Registering || (v.Judged? && v.early)
  {
    hide VerdictOf, Reward;
    var h := HallAt(s, CC(cid, ClaimIndex(clock)));
    var participants := ParticipantsOf(h, k).value;
    var v := VerdictOf(participants, voteOf, attestees);
    VerdictIsSound(participants, voteOf, attestees);
    if v.Judged? {
      RewardSucceeds(h, participants, v.legit, failures);
    }
  }

  // What participants voted and attested.
  datatype Ballot = Ballot(voteOf: Account -> nat, attestees: Account -> seq<Account>)

  // The verdict on the meetup a claim is about.
  function ClaimVerdict(clock: Clock, s: State, sender: Account, cid: Cid, named: Option<nat>, ballot: Ballot)
    : Verdict
  {
    var h := HallAt(s, CC(cid, ClaimIndex(clock)));
    match ClaimedMeetup(h, sender, named)
    case None => Undependable(VotesNotDependable)
    case Some(k) =>
      match ParticipantsOf(h, k)
      case None => Undependable(VotesNotDependable)
      case Some(participants) => VerdictOf(participants, ballot.voteOf, ballot.attestees)
  }

  lemma ClaimVerdictDistinct(clock: Clock, s: State, sender: Account, cid: Cid, named: Option<nat>, ballot: Ballot)
    ensures var v := ClaimVerdict(clock, s, sender, cid, named, ballot); v.Judged? ==> NoDuplicates(v.legit)
  {
    hide VerdictOf, ParticipantsOf, MeetupOf;
    var h := HallAt(s, CC(cid, ClaimIndex(clock)));
    var k := ClaimedMeetup(h, sender, named);
    if k.Some? && ParticipantsOf(h, k.value).Some? {
      VerdictIsSound(ParticipantsOf(h, k.value).value, ballot.voteOf, ballot.attestees);
    }
  }
}
