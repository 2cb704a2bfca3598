/**
 Who stands behind a legit participant. The number of attestations received counts everybody
 assigned to the meetup, also participants excluded for their vote or for too few attestations;
 and the number given counts every entry of a list, also repeated ones. This module says exactly
 when the legit group supports its own members.
 */
module MeetupSupport {
  import opened Primitives
  import opened MeetupValidation
  import opened MeetupJudgement

  // The members of the group who attest p.
  function Backers(att: Attestations, group: seq<nat>, p: nat): set<nat> {
    set i: nat | 0 <= i < |att| && i in group && i != p && p in att[i]
  }

  // The attesters of p who are not in the group.
  function Outsiders(att: Attestations, group: seq<nat>, p: nat): set<nat> {
    set i: nat | 0 <= i < |att| && i !in group && i != p && p in att[i]
  }

  // Everybody in the group has enough attestations from within it.
  ghost predicate Supported(group: seq<nat>, att: Attestations, threshold: nat -> nat) {
    forall p :: p in group ==> |Backers(att, group, p)| >= threshold(|group|)
  }

  /** What a participant receives, it receives from within the group or from outside. */
  lemma IncomingSplits(att: Attestations, group: seq<nat>, p: nat)
    ensures Incoming(att, p) == |Backers(att, group, p)| + |Outsiders(att, group, p)|
  {
    assert Attesters(att, p) == Backers(att, group, p) + Outsiders(att, group, p);
    assert Backers(att, group, p) !! Outsiders(att, group, p);
  }

  // The ballot with the attestations by everybody outside the group erased.
  function Own(att: Attestations, group: seq<nat>): Attestations {
    seq(|att|, i requires 0 <= i < |att| => if i in group then att[i] else [])
  }

  lemma OwnCounts(att: Attestations, group: seq<nat>, ps: seq<nat>, p: nat)
    ensures Incoming(Own(att, group), p) == |Backers(att, group, p)|
    ensures Outgoing(Own(att, group), ps, p) == if p in group then Outgoing(att, ps, p) else 0
  {
    assert Attesters(Own(att, group), p) == Backers(att, group, p);
  }

  // A stable group is not peeled any further.
  lemma StableStays(ps: seq<nat>, att: Attestations, threshold: nat -> nat)
    requires Stable(ps, att, threshold)
    ensures StableCore(ps, att, threshold) == ps && Peel(ps, att, threshold) == []
  {
    hide Lowest, Outgoing, Incoming;
    if ps != [] {
      LowestAtLeast(ps, OutgoingIn(att, ps), threshold(|ps|));
      LowestAtLeast(ps, IncomingIn(att), threshold(|ps|));
      assert Weakest(ps, att, threshold(|ps|)) == None;
    }
  }

  lemma OwnStable(att: Attestations, group: seq<nat>, threshold: nat -> nat)
    requires Stable(group, att, threshold)
    ensures Stable(group, Own(att, group), threshold) <==> Supported(group, att, threshold)
  {
    hide Outgoing, Incoming, Backers, Own;
    forall p: nat | p in group
      ensures Incoming(Own(att, group), p) == |Backers(att, group, p)|
      ensures Outgoing(Own(att, group), group, p) == Outgoing(att, group, p)
    {
      OwnCounts(att, group, group, p);
    }
  }

  // More participants never make an outgoing count smaller.
  lemma {:induction false} FilterGrows(s: seq<nat>, f: nat -> bool, g: nat -> bool)
    requires forall x: nat :: f(x) ==> g(x)
    ensures |Filter(s, f)| <= |Filter(s, g)|
  {
    if s != [] {
      FilterGrows(s[..|s| - 1], f, g);
    }
  }

  lemma OutgoingGrows(att: Attestations, small: seq<nat>, large: seq<nat>, p: nat)
    requires forall x :: x in small ==> x in large
    ensures Outgoing(att, small, p) <= Outgoing(att, large, p)
  {
    if p < |att| {
      FilterGrows(att[p], MeetupValidation.Within(small), MeetupValidation.Within(large));
    }
  }

  // With the attestations from outside the group erased, one round drops everybody else.
  lemma OneRound(ps: seq<nat>, group: seq<nat>, att: Attestations, threshold: nat -> nat)
    requires ps != [] && threshold(|ps|) >= 1
    requires exists p :: p in ps && p !in group
    requires forall p: nat :: p in group ==> Outgoing(att, ps, p) >= 1
    ensures Weakest(ps, Own(att, group), threshold(|ps|)) == Some(TooFewOutgoing)
    ensures Survivors(ps, Own(att, group), TooFewOutgoing) == Filter(ps, MeetupValidation.Within(group))
  {
    hide Outgoing, Incoming, Backers, Filter;
    var own := Own(att, group);
    hide Own;
    forall p: nat ensures Outgoing(own, ps, p) == if p in group then Outgoing(att, ps, p) else 0 {
      OwnCounts(att, group, ps, p);
    }
    var q: nat :| q in ps && q !in group;
    var low := Lowest(ps, OutgoingIn(own, ps));
    assert low <= OutgoingIn(own, ps)(q) == 0;
    var weak := WeakGroup(ps, own, TooFewOutgoing);
    FilterElements(ps, WeakIn(ps, own, TooFewOutgoing));
    forall p: nat | p in ps ensures p in weak <==> p !in group {
      assert IsWeakest(ps, own, TooFewOutgoing, p) <==> Outgoing(own, ps, p) == 0;
    }
    FilterSame(ps, Outside(weak), MeetupValidation.Within(group));
  }

  // The core is a sub-list of the participants.
  lemma CoreWithin(ps: seq<nat>, att: Attestations, threshold: nat -> nat)
    ensures var group := StableCore(ps, att, threshold);
            && Filter(ps, MeetupValidation.Within(group)) == group
            && forall p :: p in group ==> p in ps
  {
    hide StableCore, Peel, Indices;
    var gone := Indices(Peel(ps, att, threshold));
    CoreIsRest(ps, att, threshold);
    FilterElements(ps, Outside(gone));
    FilterSame(ps, MeetupValidation.Within(Filter(ps, Outside(gone))), Outside(gone));
  }

  ghost predicate Positive(threshold: nat -> nat) {
    forall n: nat :: n > 0 ==> threshold(n) >= 1
  }

  /** The peeled group supports itself exactly if it is found again once the attestations by
      everybody else are erased. */
  lemma CoreSupportedExactly(ps: seq<nat>, att: Attestations, threshold: nat -> nat)
    requires Positive(threshold)
    ensures var group := StableCore(ps, att, threshold);
            StableCore(ps, Own(att, group), threshold) == group <==> Supported(group, att, threshold)
  {
    hide Outgoing, Incoming, Stable, Supported, Own, Weakest, Survivors;
    var group := StableCore(ps, att, threshold);
    CoreIsStable(ps, att, threshold);
    CoreWithin(ps, att, threshold);
    OwnStable(att, group, threshold);
    if StableCore(ps, Own(att, group), threshold) == group {
      CoreIsStable(ps, Own(att, group), threshold);
    }
    if Supported(group, att, threshold) {
      StableStays(group, Own(att, group), threshold);
      if forall p :: p in ps ==> p in group {
        FilterAll(ps, MeetupValidation.Within(group));
      } else {
        CoreGives(ps, group, att, threshold);
        OneRound(ps, group, att, threshold);
      }
    }
  }

  lemma CoreGives(ps: seq<nat>, group: seq<nat>, att: Attestations, threshold: nat -> nat)
    requires Stable(group, att, threshold) && Positive(threshold) && forall p :: p in group ==> p in ps
    ensures forall p: nat :: p in group ==> Outgoing(att, ps, p) >= 1
  {
    forall p: nat | p in group ensures Outgoing(att, ps, p) >= 1 {
      OutgoingGrows(att, group, ps, p);
    }
  }

  lemma ThresholdPositive()
    ensures Positive(Threshold)
  {
  }

  /** The legit participants of a meetup all have enough attestations from each other if and only
      if the same ballot, with the attestations by the excluded erased, has the same outcome. */
  lemma LegitSupportedExactly(ps: seq<nat>, votes: seq<nat>, att: Attestations)
    requires Judge(ps, votes, att, Threshold).Ok?
    ensures var legit := Judge(ps, votes, att, Threshold).value.legit;
            && Judge(ps, votes, Own(att, legit), Threshold).Ok?
            && (Judge(ps, votes, Own(att, legit), Threshold).value.legit == legit <==>
                Supported(legit, att, Threshold))
  {
    hide Filter, FindMajority, StableCore, Peel, Tagged, EarlyRewards, Supported;
    var voters := Filter(ps, Voting(votes));
    var agreeing := Filter(voters, Casting(votes, FindMajority(voters, votes).value.confirmed));
    ThresholdPositive();
    CoreSupportedExactly(agreeing, att, Threshold);
  }

  /** In particular they do when nobody excluded attests anybody who is legit. */
  lemma SupportedWithoutOutsiders(ps: seq<nat>, votes: seq<nat>, att: Attestations, threshold: nat -> nat)
    requires NoDuplicates(ps) && Judge(ps, votes, att, threshold).Ok?
    requires var legit := Judge(ps, votes, att, threshold).value.legit;
             forall p :: p in legit ==> Outsiders(att, legit, p) == {}
    ensures Supported(Judge(ps, votes, att, threshold).value.legit, att, threshold)
  {
    hide Judge, Incoming, Backers;
    var legit := Judge(ps, votes, att, threshold).value.legit;
    JudgementSound(ps, votes, att, threshold);
    forall p: nat | p in legit ensures |Backers(att, legit, p)| >= threshold(|legit|) {
      IncomingSplits(att, legit, p);
    }
  }

  // ---------- a group that does not support its member ----------

  const FIVE: seq<nat> := [0, 1, 2, 3, 4]
  const SIX: seq<nat> := [0, 1, 2, 3, 4, 5]
  const FOUR: seq<nat> := [6, 7, 8, 9]
  const TEN: seq<nat> := SIX + FOUR

  // Six agree and four dissent.
  const SAMPLE_VOTES: seq<nat> := [6, 6, 6, 6, 6, 6, 10, 10, 10, 10]

  // The first five attest each other but not the sixth, who is attested by the dissenters only.
  function SampleRow(i: nat): seq<nat> {
    if i < 5 then Filter(FIVE, Except(i)) else if i == 5 then FIVE else [5]
  }

  function SampleBallot(): Attestations {
    seq(10, i requires 0 <= i < 10 => SampleRow(i))
  }

  lemma {:induction false} FilterAppend(s: seq<nat>, t: seq<nat>, f: nat -> bool)
    ensures Filter(s + t, f) == Filter(s, f) + Filter(t, f)
  {
    if t == [] {
      assert s + t == s;
    } else {
      var front, last := t[..|t| - 1], t[|t| - 1];
      assert (s + t)[..|s + t| - 1] == s + front && (s + t)[|s + t| - 1] == last;
      FilterAppend(s, front, f);
    }
  }

  lemma SampleSupport(v: nat)
    ensures Filter(TEN, Casting(SAMPLE_VOTES, 6)) == SIX
    ensures v != 6 ==> Support(TEN, SAMPLE_VOTES, v) <= 4
  {
    FilterAppend(SIX, FOUR, Casting(SAMPLE_VOTES, 6));
    FilterAll(SIX, Casting(SAMPLE_VOTES, 6));
    FilterNone(FOUR, Casting(SAMPLE_VOTES, 6));
    if v != 6 {
      FilterAppend(SIX, FOUR, Casting(SAMPLE_VOTES, v));
      FilterNone(SIX, Casting(SAMPLE_VOTES, v));
      FilterElements(FOUR, Casting(SAMPLE_VOTES, v));
    }
  }

  lemma SampleMajority()
    ensures FindMajority(TEN, SAMPLE_VOTES).Ok? && FindMajority(TEN, SAMPLE_VOTES).value.confirmed == 6
  {
    hide Filter, Candidates;
    var cs := Candidates(TEN, SAMPLE_VOTES);
    SampleSupport(6);
    CandidatesTallied(TEN, SAMPLE_VOTES);
    assert Support(TEN, SAMPLE_VOTES, 6) == 6;
    var i :| 0 <= i < |cs| && cs[i].vote == 6;
    assert cs[Leader(cs)].count >= cs[i].count;
    MajorityLeads(TEN, SAMPLE_VOTES);
    SampleSupport(FindMajority(TEN, SAMPLE_VOTES).value.confirmed);
  }

  lemma SampleRows(i: nat, p: nat)
    requires i < 6
    ensures |SampleRow(i)| >= 4 && forall j :: j in SampleRow(i) ==> j in FIVE
    ensures i < 5 && p < 5 && p != i ==> p in SampleRow(i)
  {
    assert NoDuplicates(FIVE);
    assert forall j: nat :: j < 5 ==> FIVE[j] == j;
    assert forall j: nat :: j < 5 ==> j in FIVE by {
      forall j: nat | j < 5 ensures j in FIVE { assert FIVE[j] == j; }
    }
    if i < 5 {
      DropOne(FIVE, i);
      FilterElements(FIVE, Except(i));
    }
  }

  lemma SampleIncoming(p: nat)
    requires p < 6
    ensures Incoming(SampleBallot(), p) >= 4
  {
    hide Filter;
    if p == 5 {
      forall i: nat | i in FOUR ensures i in Attesters(SampleBallot(), p) {}
      DistinctFit(FOUR, Attesters(SampleBallot(), p));
    } else {
      var others := Filter(FIVE, Except(p));
      SampleRows(p, 0);
      FilterElements(FIVE, Except(p));
      assert NoDuplicates(FIVE);
      forall i: nat | i in others ensures i in Attesters(SampleBallot(), p) {
        SampleRows(i, p);
      }
      DistinctFit(others, Attesters(SampleBallot(), p));
    }
  }

  lemma SampleStable()
    ensures Stable(SIX, SampleBallot(), Threshold)
  {
    hide Filter, Incoming;
    forall p: nat | p in SIX
      ensures Outgoing(SampleBallot(), SIX, p) >= 4 && Incoming(SampleBallot(), p) >= 4
    {
      SampleRows(p, 0);
      assert forall j :: j in FIVE ==> j in SIX;
      FilterAll(SampleRow(p), MeetupValidation.Within(SIX));
      SampleIncoming(p);
    }
  }

  lemma SampleJudged()
    ensures var r := Judge(TEN, SAMPLE_VOTES, SampleBallot(), Threshold);
            r.Ok? && r.value.legit == SIX && !r.value.early
  {
    hide Filter, FindMajority, StableCore, Peel, Tagged, Support, SampleBallot;
    FilterAll(TEN, Voting(SAMPLE_VOTES));
    SampleMajority();
    SampleSupport(6);
    SampleStable();
    StableStays(SIX, SampleBallot(), Threshold);
    SampleSplit();
    assert |SampleBallot()| == 10 by { SampleSize(); }
  }

  lemma SampleSize()
    ensures |SampleBallot()| == 10
  {
  }

  lemma SampleSplit()
    ensures FindMajority(TEN, SAMPLE_VOTES).Ok? && !FindMajority(TEN, SAMPLE_VOTES).value.unanimous
  {
    hide FindMajority, Support;
    SampleMajority();
    MajorityLeads(TEN, SAMPLE_VOTES);
    assert TEN[6] == 6 && VoteOf(SAMPLE_VOTES, 6) == 10;
  }

  /** Ten participants without any repeated or self attestation: the sixth is legit, although
      nobody else who is legit attests it. */
  lemma UnsupportedSample()
    ensures var r := Judge(TEN, SAMPLE_VOTES, SampleBallot(), Threshold);
            && r.Ok? && r.value.legit == SIX && !r.value.early
            && Backers(SampleBallot(), SIX, 5) == {} && |Outsiders(SampleBallot(), SIX, 5)| == 4
            && !Supported(SIX, SampleBallot(), Threshold)
  {
    hide Filter, Judge;
    SampleJudged();
    forall i: nat | i < 6 ensures 5 !in SampleRow(i) || i == 5 {
      SampleRows(i, 5);
    }
    assert Backers(SampleBallot(), SIX, 5) == {};
    assert Outsiders(SampleBallot(), SIX, 5) == {6, 7, 8, 9};
    assert 5 in SIX;
  }

  // ---------- repeated attestations ----------

  function Entries(s: seq<nat>): set<nat> {
    set x | x in s
  }

  lemma {:induction false} DistinctEntries(s: seq<nat>)
    ensures |Entries(s)| <= |s|
    ensures |Entries(s)| == |s| <==> NoDuplicates(s)
  {
    if s == [] {
      assert Entries(s) == {};
    } else {
      var t, last := s[..|s| - 1], s[|s| - 1];
      assert s == t + [last];
      DistinctEntries(t);
      assert Entries(s) == Entries(t) + {last};
      if last in t {
        var i :| 0 <= i < |t| && t[i] == last;
        assert s[i] == s[|s| - 1];
        assert Entries(s) == Entries(t);
      } else {
        assert last !in Entries(t);
        assert NoDuplicates(t) ==> NoDuplicates(s);
        assert NoDuplicates(s) ==> NoDuplicates(t);
      }
    }
  }

  /** The outgoing count is the number of different attestees in the group exactly if none of
      them is listed twice; otherwise it is larger. */
  lemma OutgoingCountsRepeats(att: Attestations, ps: seq<nat>, p: nat)
    requires p < |att|
    ensures var listed := Filter(att[p], MeetupValidation.Within(ps));
            && Entries(listed) == (set j | j in att[p] && j in ps)
            && |Entries(listed)| <= Outgoing(att, ps, p)
            && (|Entries(listed)| == Outgoing(att, ps, p) <==> NoDuplicates(listed))
  {
    var listed := Filter(att[p], MeetupValidation.Within(ps));
    FilterElements(att[p], MeetupValidation.Within(ps));
    DistinctEntries(listed);
  }
}
