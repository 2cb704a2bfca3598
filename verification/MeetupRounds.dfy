/**
 The rounds of meetup validation, one by one: who is dropped in which round and why, which groups
 are left alone, and when rewards are early.
 */
module MeetupRounds {
  import opened Primitives
  import opened MeetupValidation
  import opened MeetupJudgement

  // The attestations that count towards this reason.
  function CountFor(reason: Reason, ps: seq<nat>, att: Attestations, p: nat): nat {
    if reason == TooFewIncoming then Incoming(att, p) else Outgoing(att, ps, p)
  }

  // Nobody in the group has a smaller count of either kind.
  ghost predicate Fewest(ps: seq<nat>, att: Attestations, reason: Reason, p: nat) {
    p in ps && forall q :: q in ps ==>
      CountFor(reason, ps, att, p) <= Outgoing(att, ps, q) && CountFor(reason, ps, att, p) <= Incoming(att, q)
  }

  // What a round drops: everybody with the fewest attestations, received ones being the reason only
  // where they are fewer than all given ones.
  ghost predicate RoundDrops(ps: seq<nat>, att: Attestations, threshold: nat, reason: Reason, weak: seq<nat>) {
    && weak != [] && (reason == TooFewIncoming || reason == TooFewOutgoing)
    && (forall p :: p in weak <==> Fewest(ps, att, reason, p))
    && (forall p :: p in weak ==> CountFor(reason, ps, att, p) < threshold)
    && (reason == TooFewIncoming <==>
          exists p :: p in ps && forall q :: q in ps ==> Incoming(att, p) < Outgoing(att, ps, q))
  }

  // Participants with the fewest attestations of each kind.
  lemma LowestBounds(ps: seq<nat>, att: Attestations) returns (out: nat, inc: nat)
    requires ps != []
    ensures out in ps && Outgoing(att, ps, out) == Lowest(ps, OutgoingIn(att, ps))
    ensures inc in ps && Incoming(att, inc) == Lowest(ps, IncomingIn(att))
    ensures forall p :: p in ps ==> Outgoing(att, ps, out) <= Outgoing(att, ps, p)
    ensures forall p :: p in ps ==> Incoming(att, inc) <= Incoming(att, p)
  {
    hide Incoming, Outgoing;
    var given, received := OutgoingIn(att, ps), IncomingIn(att);
    out := LowestOf(ps, given);
    inc := LowestOf(ps, received);
    forall p | p in ps
      ensures Outgoing(att, ps, out) <= Outgoing(att, ps, p) && Incoming(att, inc) <= Incoming(att, p)
    {
      assert given(p) == Outgoing(att, ps, p) && received(p) == Incoming(att, p);
    }
  }

  lemma LowestOf(ps: seq<nat>, f: nat -> nat) returns (low: nat)
    requires ps != []
    ensures low in ps && f(low) == Lowest(ps, f) && forall p :: p in ps ==> f(low) <= f(p)
  {
    var m := Lowest(ps, f);
    low :| low in ps && f(low) == m;
  }

  lemma WeakestExactly(ps: seq<nat>, att: Attestations, threshold: nat -> nat)
    requires ps != []
    ensures Weakest(ps, att, threshold(|ps|)).None? <==> Stable(ps, att, threshold)
  {
    hide Incoming, Outgoing, Lowest;
    var out, inc := LowestBounds(ps, att);
  }

  lemma WeakGroupFewest(ps: seq<nat>, att: Attestations, threshold: nat, reason: Reason)
    requires ps != [] && Weakest(ps, att, threshold) == Some(reason)
    ensures RoundDrops(ps, att, threshold, reason, WeakGroup(ps, att, reason))
  {
    hide Incoming, Outgoing, Lowest, Filter;
    var weak := WeakGroup(ps, att, reason);
    var out, inc := LowestBounds(ps, att);
    WeakGroupNonempty(ps, att, reason);
    FilterElements(ps, WeakIn(ps, att, reason));
    forall p ensures p in weak <==> Fewest(ps, att, reason, p) {
      assert p in weak <==> p in ps && IsWeakest(ps, att, reason, p);
    }
  }

  // The two functions of a round.
  lemma RoundUnfolds(ps: seq<nat>, att: Attestations, threshold: nat -> nat, reason: Reason)
    requires ps != [] && Weakest(ps, att, threshold(|ps|)) == Some(reason)
    ensures var weak, left := WeakGroup(ps, att, reason), Survivors(ps, att, reason);
            && (forall p :: p in left <==> p in ps && p !in weak)
            && Peel(ps, att, threshold) == Tagged(weak, reason) + Peel(left, att, threshold)
            && StableCore(ps, att, threshold) == StableCore(left, att, threshold)
  {
    hide Weakest, WeakGroup;
    FilterElements(ps, Outside(WeakGroup(ps, att, reason)));
  }

  // One round and what follows it.
  ghost predicate Round(ps: seq<nat>, att: Attestations, threshold: nat -> nat, reason: Reason, weak: seq<nat>,
                        left: seq<nat>) {
    && RoundDrops(ps, att, threshold(|ps|), reason, weak)
    && (forall p :: p in left <==> p in ps && p !in weak)
    && Peel(ps, att, threshold) == Tagged(weak, reason) + Peel(left, att, threshold)
    && StableCore(ps, att, threshold) == StableCore(left, att, threshold)
  }

  /** A stable group is left alone. Otherwise the round drops exactly those with the fewest
      attestations, who are below the threshold, and validation goes on with the others. */
  lemma PeelsInRounds(ps: seq<nat>, att: Attestations, threshold: nat -> nat)
    ensures Stable(ps, att, threshold) ==> StableCore(ps, att, threshold) == ps && Peel(ps, att, threshold) == []
    ensures !Stable(ps, att, threshold) ==>
              exists reason, weak, left :: Round(ps, att, threshold, reason, weak, left)
  {
    hide Weakest, WeakGroup, Survivors, RoundDrops;
    if ps != [] {
      WeakestExactly(ps, att, threshold);
      if !Stable(ps, att, threshold) {
        var reason := Weakest(ps, att, threshold(|ps|)).value;
        WeakGroupFewest(ps, att, threshold(|ps|), reason);
        RoundUnfolds(ps, att, threshold, reason);
        assert Round(ps, att, threshold, reason, WeakGroup(ps, att, reason), Survivors(ps, att, reason));
      }
    }
  }

  /** In a group of up to five everybody must be attested by and attest all others; in a larger one
      a single attestation may be missing either way; and one is needed at least. */
  lemma ThresholdTolerates(size: nat, missing: nat)
    requires size >= 2 && missing < size
    ensures size - 1 - missing >= Threshold(size) <==> missing == 0 || (missing == 1 && size > 5)
  {
  }

  /** Rewards are early exactly if everybody who voted confirmed the true number of the group, more
      than half of those registered, and attested exactly the others. */
  lemma EarlyExactly(ps: seq<nat>, votes: seq<nat>, att: Attestations)
    requires NoDuplicates(ps) && Judge(ps, votes, att, Threshold).Ok?
    ensures var voters := Filter(ps, Voting(votes));
            Judge(ps, votes, att, Threshold).value.early <==>
              && |voters| * 2 > |ps| && MutuallyAttested(voters, att)
              && forall p :: p in voters ==> VoteOf(votes, p) == |voters|
  {
    hide Filter, FindMajority, Tagged, StableCore, Peel, Support, Indices;
    var j, voters := Judge(ps, votes, att, Threshold).value, Filter(ps, Voting(votes));
    var m := FindMajority(voters, votes).value;
    if j.early {
      EarlyIsComplete(ps, votes, att);
    } else if |voters| * 2 > |ps| && MutuallyAttested(voters, att)
              && forall p :: p in voters ==> VoteOf(votes, p) == |voters|
    {
      MajorityLeads(voters, votes);
      FilterElements(ps, Voting(votes));
      CompleteIsEarly(ps, voters, votes, att, m);
    }
  }

  lemma CompleteIsEarly(ps: seq<nat>, voters: seq<nat>, votes: seq<nat>, att: Attestations, m: Majority)
    requires voters == Filter(ps, Voting(votes)) && NoDuplicates(voters) && voters != []
    requires FindMajority(voters, votes) == Ok(m) && |voters| * 2 > |ps| && MutuallyAttested(voters, att)
    requires forall p :: p in voters ==> VoteOf(votes, p) == |voters|
    ensures EarlyRewards(Filter(voters, Casting(votes, m.confirmed)), att, |ps|, m)
  {
    hide Filter, FindMajority, Support;
    MajorityLeads(voters, votes);
    SomeVoter(voters, votes, m.confirmed);
    FilterAll(voters, Casting(votes, m.confirmed));
    forall i | 0 <= i < |att| && i in voters ensures |att[i]| == m.confirmed - 1 {
      AttestsOthers(voters, att, i);
    }
  }
}
