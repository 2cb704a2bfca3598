/**
 Who merits the reward of a meetup: participants without a vote are excluded, then those who
 did not vote with the largest group, then repeatedly those with the fewest attestations.
 Participants are indices into the vote and attestation lists of the meetup.
 */
module MeetupValidation {
  import opened Primitives

  datatype ValidationError = BallotEmpty | NoDependableVote | IndexOutOfBounds

  datatype Reason = NoVote | WrongVote | TooFewIncoming | TooFewOutgoing

  datatype Excluded = Excluded(index: nat, reason: Reason)

  datatype Judgements = Judgements(legit: seq<nat>, excluded: seq<Excluded>, early: bool)

  type Attestations = seq<seq<nat>>

  predicate InRange(ps: seq<nat>, n: nat) {
    forall p :: p in ps ==> p < n
  }

  // ---------- filtered lists ----------

  function Filter(s: seq<nat>, f: nat -> bool): seq<nat> {
    if s == [] then []
    else Filter(s[..|s| - 1], f) + if f(s[|s| - 1]) then [s[|s| - 1]] else []
  }

  function Within(ps: seq<nat>): nat -> bool {
    (p: nat) => p in ps
  }

  function Outside(ps: seq<nat>): nat -> bool {
    (p: nat) => p !in ps
  }

  function Both(f: nat -> bool, g: nat -> bool): nat -> bool {
    (x: nat) => f(x) && g(x)
  }

  lemma {:induction false} FilterElements(s: seq<nat>, f: nat -> bool)
    ensures forall x :: x in Filter(s, f) <==> x in s && f(x)
    ensures |Filter(s, f)| <= |s|
    ensures NoDuplicates(s) ==> NoDuplicates(Filter(s, f))
  {
    if s != [] {
      var t := s[..|s| - 1];
      FilterElements(t, f);
      assert s == t + [s[|s| - 1]];
      assert NoDuplicates(s) ==> NoDuplicates(t) && s[|s| - 1] !in t;
    }
  }

  lemma {:induction false} FilterSame(s: seq<nat>, f: nat -> bool, g: nat -> bool)
    requires forall x :: x in s ==> f(x) == g(x)
    ensures Filter(s, f) == Filter(s, g)
  {
    if s != [] {
      assert forall x :: x in s[..|s| - 1] ==> x in s;
      FilterSame(s[..|s| - 1], f, g);
    }
  }

  lemma {:induction false} FilterAll(s: seq<nat>, f: nat -> bool)
    requires forall x :: x in s ==> f(x)
    ensures Filter(s, f) == s
  {
    if s != [] {
      var t, last := s[..|s| - 1], s[|s| - 1];
      assert s == t + [last] && last in s;
      FilterAll(t, f);
    }
  }

  lemma {:induction false} FilterNone(s: seq<nat>, f: nat -> bool)
    requires forall x :: x in s ==> !f(x)
    ensures Filter(s, f) == []
  {
    if s != [] {
      var t, last := s[..|s| - 1], s[|s| - 1];
      assert s == t + [last] && last in s;
      FilterNone(t, f);
    }
  }

  lemma {:induction false} FilterTwice(s: seq<nat>, f: nat -> bool, g: nat -> bool)
    ensures Filter(Filter(s, f), g) == Filter(s, Both(f, g))
  {
    if s != [] {
      FilterTwice(s[..|s| - 1], f, g);
      var t, last := Filter(s[..|s| - 1], f), s[|s| - 1];
      if f(last) {
        assert Filter(s, f) == t + [last] && (t + [last])[..|t|] == t;
      } else {
        assert Filter(s, f) == t;
      }
    }
  }

  // A proper member dropped makes the list shorter.
  lemma {:induction false} FilterShrinks(s: seq<nat>, f: nat -> bool)
    requires exists x :: x in s && !f(x)
    ensures |Filter(s, f)| < |s|
  {
    var t, last := s[..|s| - 1], s[|s| - 1];
    assert s == t + [last];
    if f(last) {
      FilterShrinks(t, f);
    } else {
      FilterElements(t, f);
    }
  }

  method Retain(s: seq<nat>, f: nat -> bool) returns (r: seq<nat>)
    ensures r == Filter(s, f)
  {
    r := [];
    for n := 0 to |s|
      invariant r == Filter(s[..n], f)
    {
      assert s[..n + 1][..n] == s[..n];
      if f(s[n]) {
        r := r + [s[n]];
      }
    }
    assert s[..|s|] == s;
  }

  // ---------- votes ----------

  function VoteOf(votes: seq<nat>, p: nat): nat {
    if p < |votes| then votes[p] else 0
  }

  function Casting(votes: seq<nat>, v: nat): nat -> bool {
    (p: nat) => VoteOf(votes, p) == v
  }

  // How many of the participants cast this vote.
  function Support(ps: seq<nat>, votes: seq<nat>, v: nat): nat {
    |Filter(ps, Casting(votes, v))|
  }

  // One candidate number with its count.
  datatype Candidate = Candidate(vote: nat, count: nat)

  function PositionOf(cs: seq<Candidate>, v: nat): (i: nat)
    ensures i <= |cs|
    ensures i < |cs| ==> cs[i].vote == v
    ensures forall j :: 0 <= j < i ==> cs[j].vote != v
  {
    if cs == [] then 0 else if cs[0].vote == v then 0 else 1 + PositionOf(cs[1..], v)
  }

  function Count(cs: seq<Candidate>, v: nat): seq<Candidate> {
    var i := PositionOf(cs, v);
    if i < |cs| then cs[i := Candidate(v, cs[i].count + 1)] else [Candidate(v, 1)] + cs
  }

  function Candidates(ps: seq<nat>, votes: seq<nat>): seq<Candidate> {
    if ps == [] then [] else Count(Candidates(ps[..|ps| - 1], votes), VoteOf(votes, ps[|ps| - 1]))
  }

  ghost predicate Tallied(cs: seq<Candidate>, ps: seq<nat>, votes: seq<nat>) {
    && (forall i :: 0 <= i < |cs| ==> cs[i].count == Support(ps, votes, cs[i].vote) && cs[i].count > 0)
    && (forall i, j :: 0 <= i < j < |cs| ==> cs[i].vote != cs[j].vote)
    && (forall v :: Support(ps, votes, v) > 0 ==> exists i :: 0 <= i < |cs| && cs[i].vote == v)
  }

  lemma {:induction false} CandidatesTallied(ps: seq<nat>, votes: seq<nat>)
    ensures Tallied(Candidates(ps, votes), ps, votes)
  {
    if ps != [] {
      var rest, p := ps[..|ps| - 1], ps[|ps| - 1];
      CandidatesTallied(rest, votes);
      CountTallied(Candidates(rest, votes), ps, votes);
    }
  }

  lemma SupportGrows(ps: seq<nat>, votes: seq<nat>, v: nat)
    requires ps != []
    ensures Support(ps, votes, v) ==
            Support(ps[..|ps| - 1], votes, v) + if VoteOf(votes, ps[|ps| - 1]) == v then 1 else 0
  {
  }

  lemma CountTallied(cs: seq<Candidate>, ps: seq<nat>, votes: seq<nat>)
    requires ps != [] && Tallied(cs, ps[..|ps| - 1], votes)
    ensures Tallied(Count(cs, VoteOf(votes, ps[|ps| - 1])), ps, votes)
  {
    hide Support, Tallied;
    var rest, v := ps[..|ps| - 1], VoteOf(votes, ps[|ps| - 1]);
    forall u ensures Support(ps, votes, u) == Support(rest, votes, u) + if v == u then 1 else 0 {
      SupportGrows(ps, votes, u);
    }
    if PositionOf(cs, v) < |cs| {
      CountAgain(cs, ps, rest, votes, v, PositionOf(cs, v));
    } else {
      CountFirst(cs, ps, rest, votes, v);
    }
  }

  lemma CountAgain(cs: seq<Candidate>, ps: seq<nat>, rest: seq<nat>, votes: seq<nat>, v: nat, i: nat)
    requires Tallied(cs, rest, votes) && i < |cs| && cs[i].vote == v
    requires forall u :: Support(ps, votes, u) == Support(rest, votes, u) + if v == u then 1 else 0
    ensures Tallied(cs[i := Candidate(v, cs[i].count + 1)], ps, votes)
  {
    hide Support;
    var ds := cs[i := Candidate(v, cs[i].count + 1)];
    assert forall j :: 0 <= j < |cs| ==> ds[j].vote == cs[j].vote;
    forall u | Support(ps, votes, u) > 0 ensures exists j :: 0 <= j < |ds| && ds[j].vote == u {
      if u == v {
        assert ds[i].vote == u;
      } else {
        var j :| 0 <= j < |cs| && cs[j].vote == u;
        assert ds[j].vote == u;
      }
    }
  }

  lemma CountFirst(cs: seq<Candidate>, ps: seq<nat>, rest: seq<nat>, votes: seq<nat>, v: nat)
    requires Tallied(cs, rest, votes) && forall j :: 0 <= j < |cs| ==> cs[j].vote != v
    requires forall u :: Support(ps, votes, u) == Support(rest, votes, u) + if v == u then 1 else 0
    ensures Tallied([Candidate(v, 1)] + cs, ps, votes)
  {
    hide Support;
    var ds := [Candidate(v, 1)] + cs;
    assert Support(rest, votes, v) == 0;
    assert forall j :: 1 <= j < |ds| ==> ds[j] == cs[j - 1];
    forall u | Support(ps, votes, u) > 0 ensures exists j :: 0 <= j < |ds| && ds[j].vote == u {
      if u == v {
        assert ds[0].vote == u;
      } else {
        var j :| 0 <= j < |cs| && cs[j].vote == u;
        assert ds[j + 1].vote == u;
      }
    }
  }

  // The head of the list sorted stably by descending count.
  function Leader(cs: seq<Candidate>): (i: nat)
    requires cs != []
    ensures i < |cs|
    ensures forall j :: 0 <= j < |cs| ==> cs[j].count <= cs[i].count
    ensures forall j :: 0 <= j < i ==> cs[j].count < cs[i].count
  {
    if |cs| == 1 then 0
    else
      var i := Leader(cs[..|cs| - 1]);
      if cs[|cs| - 1].count > cs[i].count then |cs| - 1 else i
  }

  datatype Majority = Majority(confirmed: nat, count: nat, unanimous: bool)

  function FindMajority(ps: seq<nat>, votes: seq<nat>): Result<Majority, ValidationError> {
    var cs := Candidates(ps, votes);
    if !InRange(ps, |votes|) then Err(IndexOutOfBounds)
    else if cs == [] then Err(BallotEmpty)
    else if cs[Leader(cs)].count < 3 then Err(NoDependableVote)
    else Ok(Majority(cs[Leader(cs)].vote, cs[Leader(cs)].count, |cs| == 1))
  }

  /** The confirmed number has at least three votes and no other number has more; the vote is
      unanimous exactly when everybody cast it. */
  lemma MajorityLeads(ps: seq<nat>, votes: seq<nat>)
    requires FindMajority(ps, votes).Ok?
    ensures var m := FindMajority(ps, votes).value;
            && m.count == Support(ps, votes, m.confirmed) >= 3
            && (forall v :: Support(ps, votes, v) <= m.count)
            && (m.unanimous <==> forall p :: p in ps ==> VoteOf(votes, p) == m.confirmed)
  {
    hide Support, Candidates;
    var cs, m := Candidates(ps, votes), FindMajority(ps, votes).value;
    CandidatesTallied(ps, votes);
    forall v ensures Support(ps, votes, v) <= m.count {
      if Support(ps, votes, v) > 0 {
        var i :| 0 <= i < |cs| && cs[i].vote == v;
      }
    }
    forall p | p in ps ensures Support(ps, votes, VoteOf(votes, p)) > 0 {
      VoterCounts(ps, votes, p);
    }
    if !m.unanimous {
      var i := if Leader(cs) == 0 then 1 else 0;
      SomeVoter(ps, votes, cs[i].vote);
    }
  }

  // The position of the first participant who cast the vote, or the length of the list.
  function FirstAt(ps: seq<nat>, votes: seq<nat>, v: nat): (i: nat)
    ensures i <= |ps|
  {
    if ps == [] then 0
    else
      var n := |ps| - 1;
      var i := FirstAt(ps[..n], votes, v);
      if i == n && VoteOf(votes, ps[n]) != v then n + 1 else i
  }

  ghost predicate NewestFirst(cs: seq<Candidate>, ps: seq<nat>, votes: seq<nat>) {
    && (forall i, j :: 0 <= i < j < |cs| ==> FirstAt(ps, votes, cs[j].vote) < FirstAt(ps, votes, cs[i].vote))
    && (forall i :: 0 <= i < |cs| ==> FirstAt(ps, votes, cs[i].vote) < |ps|)
    && (forall v :: FirstAt(ps, votes, v) < |ps| ==> Named(cs, v))
  }

  ghost predicate Named(cs: seq<Candidate>, v: nat) {
    exists i :: 0 <= i < |cs| && cs[i].vote == v
  }

  lemma NamedHasPosition(cs: seq<Candidate>, v: nat)
    ensures Named(cs, v) <==> PositionOf(cs, v) < |cs|
  {
  }

  lemma {:induction false} CandidatesNewestFirst(ps: seq<nat>, votes: seq<nat>)
    ensures NewestFirst(Candidates(ps, votes), ps, votes)
  {
    if ps != [] {
      var rest, v := ps[..|ps| - 1], VoteOf(votes, ps[|ps| - 1]);
      var cs, ds := Candidates(rest, votes), Candidates(ps, votes);
      CandidatesNewestFirst(rest, votes);
      FirstNext(ps, votes);
      NamedHasPosition(cs, v);
      if PositionOf(cs, v) < |cs| {
        OldCandidate(cs, ds, ps, rest, votes, v);
      } else {
        NewCandidate(cs, ps, rest, votes, v);
      }
    }
  }

  lemma FirstNext(ps: seq<nat>, votes: seq<nat>)
    requires ps != []
    ensures var rest, v := ps[..|ps| - 1], VoteOf(votes, ps[|ps| - 1]);
            && (forall u :: FirstAt(rest, votes, u) < |rest| ==> FirstAt(ps, votes, u) == FirstAt(rest, votes, u))
            && (forall u :: FirstAt(rest, votes, u) == |rest| ==>
                  FirstAt(ps, votes, u) == if u == v then |rest| else |ps|)
  {
  }

  lemma OldCandidate(cs: seq<Candidate>, ds: seq<Candidate>, ps: seq<nat>, rest: seq<nat>, votes: seq<nat>, v: nat)
    requires NewestFirst(cs, rest, votes) && Named(cs, v) && |ps| == |rest| + 1
    requires |ds| == |cs| && forall j :: 0 <= j < |cs| ==> ds[j].vote == cs[j].vote
    requires forall u :: FirstAt(rest, votes, u) < |rest| ==> FirstAt(ps, votes, u) == FirstAt(rest, votes, u)
    requires forall u :: FirstAt(rest, votes, u) == |rest| ==>
               FirstAt(ps, votes, u) == if u == v then |rest| else |ps|
    ensures NewestFirst(ds, ps, votes)
  {
    hide FirstAt, Named;
    forall u | FirstAt(ps, votes, u) < |ps| ensures Named(ds, u) {
      assert Named(cs, u);
      SameNames(cs, ds, u);
    }
  }

  lemma SameNames(cs: seq<Candidate>, ds: seq<Candidate>, u: nat)
    requires |ds| == |cs| && forall j :: 0 <= j < |cs| ==> ds[j].vote == cs[j].vote
    requires Named(cs, u)
    ensures Named(ds, u)
  {
    var i :| 0 <= i < |cs| && cs[i].vote == u;
    assert ds[i].vote == u;
  }

  lemma NewCandidate(cs: seq<Candidate>, ps: seq<nat>, rest: seq<nat>, votes: seq<nat>, v: nat)
    requires NewestFirst(cs, rest, votes) && !Named(cs, v) && |ps| == |rest| + 1
    requires forall u :: FirstAt(rest, votes, u) < |rest| ==> FirstAt(ps, votes, u) == FirstAt(rest, votes, u)
    requires forall u :: FirstAt(rest, votes, u) == |rest| ==>
               FirstAt(ps, votes, u) == if u == v then |rest| else |ps|
    ensures NewestFirst([Candidate(v, 1)] + cs, ps, votes)
  {
    hide FirstAt, Named;
    var ds := [Candidate(v, 1)] + cs;
    assert FirstAt(rest, votes, v) == |rest|;
    forall j | 0 <= j < |ds| ensures FirstAt(ps, votes, ds[j].vote) < |ps| {
      if j > 0 {
        assert ds[j] == cs[j - 1];
      }
    }
    forall i, j | 0 <= i < j < |ds| ensures FirstAt(ps, votes, ds[j].vote) < FirstAt(ps, votes, ds[i].vote) {
      assert ds[j] == cs[j - 1];
      if i > 0 {
        assert ds[i] == cs[i - 1];
      }
    }
    forall u | FirstAt(ps, votes, u) < |ps| ensures Named(ds, u) {
      if u != v {
        assert Named(cs, u);
      }
      PrependedName(cs, v, u);
    }
  }

  lemma PrependedName(cs: seq<Candidate>, v: nat, u: nat)
    ensures u == v || Named(cs, u) ==> Named([Candidate(v, 1)] + cs, u)
  {
    var ds := [Candidate(v, 1)] + cs;
    if u == v {
      assert ds[0].vote == u;
    } else if Named(cs, u) {
      var i :| 0 <= i < |cs| && cs[i].vote == u;
      assert ds[i + 1].vote == u;
    }
  }

  /** Of several numbers with the most votes, the one first voted for last is confirmed. */
  lemma TieGoesToNewest(ps: seq<nat>, votes: seq<nat>, v: nat)
    requires FindMajority(ps, votes).Ok?
    requires Support(ps, votes, v) == FindMajority(ps, votes).value.count
    requires v != FindMajority(ps, votes).value.confirmed
    ensures FirstAt(ps, votes, v) < FirstAt(ps, votes, FindMajority(ps, votes).value.confirmed)
  {
    hide Candidates, Support, FirstAt;
    var cs := Candidates(ps, votes);
    CandidatesTallied(ps, votes);
    CandidatesNewestFirst(ps, votes);
    var i :| 0 <= i < |cs| && cs[i].vote == v;
    assert Leader(cs) < i;
  }

  lemma VoterCounts(ps: seq<nat>, votes: seq<nat>, p: nat)
    requires p in ps
    ensures Support(ps, votes, VoteOf(votes, p)) > 0
  {
    FilterElements(ps, Casting(votes, VoteOf(votes, p)));
    assert p in Filter(ps, Casting(votes, VoteOf(votes, p)));
  }

  lemma SomeVoter(ps: seq<nat>, votes: seq<nat>, v: nat)
    requires Support(ps, votes, v) > 0
    ensures exists p :: p in ps && VoteOf(votes, p) == v
  {
    FilterElements(ps, Casting(votes, v));
    var p := Filter(ps, Casting(votes, v))[0];
    assert p in Filter(ps, Casting(votes, v));
  }

  method FindMajorityVote(ps: seq<nat>, votes: seq<nat>) returns (result: Result<Majority, ValidationError>)
    ensures result == FindMajority(ps, votes)
  {
    var cs: seq<Candidate> := [];
    for n := 0 to |ps|
      invariant InRange(ps[..n], |votes|)
      invariant cs == Candidates(ps[..n], votes)
    {
      assert ps[..n + 1][..n] == ps[..n] && ps[..n + 1] == ps[..n] + [ps[n]];
      if ps[n] >= |votes| {
        assert ps[n] in ps;
        return Err(IndexOutOfBounds);
      }
      var i := PositionOf(cs, votes[ps[n]]);
      if i < |cs| {
        cs := cs[i := Candidate(votes[ps[n]], cs[i].count + 1)];
      } else {
        cs := [Candidate(votes[ps[n]], 1)] + cs;
      }
    }
    assert ps[..|ps|] == ps;
    if cs == [] {
      return Err(BallotEmpty);
    }
    var lead := cs[Leader(cs)];
    if lead.count < 3 {
      return Err(NoDependableVote);
    }
    return Ok(Majority(lead.vote, lead.count, |cs| == 1));
  }

  // ---------- attestations ----------

  function Remaining(att: Attestations, ps: seq<nat>): Attestations {
    seq(|att|, i requires 0 <= i < |att| => Filter(att[i], Within(ps)))
  }

  function Outgoing(att: Attestations, ps: seq<nat>, p: nat): nat {
    if p < |att| then |Filter(att[p], Within(ps))| else 0
  }

  // Attestations by participants who were excluded still count.
  function Attesters(att: Attestations, p: nat): set<nat> {
    set i: nat | 0 <= i < |att| && i != p && p in att[i]
  }

  function Incoming(att: Attestations, p: nat): nat {
    |Attesters(att, p)|
  }

  function OutgoingIn(att: Attestations, ps: seq<nat>): nat -> nat {
    (p: nat) => Outgoing(att, ps, p)
  }

  function IncomingIn(att: Attestations): nat -> nat {
    (p: nat) => Incoming(att, p)
  }

  function Lowest(ps: seq<nat>, f: nat -> nat): (m: nat)
    requires ps != []
    ensures forall p :: p in ps ==> m <= f(p)
    ensures exists p :: p in ps && f(p) == m
  {
    var last := ps[|ps| - 1];
    if |ps| == 1 then f(last)
    else
      var m := Lowest(ps[..|ps| - 1], f);
      assert ps == ps[..|ps| - 1] + [last];
      Min(m, f(last))
  }

  // The reason to drop the weakest group, if any falls below the threshold.
  function Weakest(ps: seq<nat>, att: Attestations, threshold: nat): Option<Reason>
    requires ps != []
  {
    var outgoing := Lowest(ps, OutgoingIn(att, ps));
    var incoming := Lowest(ps, IncomingIn(att));
    if incoming < outgoing then (if incoming < threshold then Some(TooFewIncoming) else None)
    else if outgoing < threshold then Some(TooFewOutgoing)
    else None
  }

  predicate IsWeakest(ps: seq<nat>, att: Attestations, reason: Reason, p: nat)
    requires ps != []
  {
    if reason == TooFewIncoming then Incoming(att, p) == Lowest(ps, IncomingIn(att))
    else Outgoing(att, ps, p) == Lowest(ps, OutgoingIn(att, ps))
  }

  function WeakIn(ps: seq<nat>, att: Attestations, reason: Reason): nat -> bool
    requires ps != []
  {
    (p: nat) => IsWeakest(ps, att, reason, p)
  }

  function WeakGroup(ps: seq<nat>, att: Attestations, reason: Reason): seq<nat>
    requires ps != []
  {
    Filter(ps, WeakIn(ps, att, reason))
  }

  function Survivors(ps: seq<nat>, att: Attestations, reason: Reason): (r: seq<nat>)
    requires ps != []
    ensures |r| < |ps|
  {
    WeakGroupNonempty(ps, att, reason);
    var weak := WeakGroup(ps, att, reason);
    FilterShrinks(ps, Outside(weak));
    Filter(ps, Outside(weak))
  }

  lemma WeakGroupNonempty(ps: seq<nat>, att: Attestations, reason: Reason)
    requires ps != []
    ensures exists p :: p in ps && p in WeakGroup(ps, att, reason)
  {
    FilterElements(ps, WeakIn(ps, att, reason));
    var low := if reason == TooFewIncoming then Lowest(ps, IncomingIn(att))
               else Lowest(ps, OutgoingIn(att, ps));
    var p :| p in ps && (if reason == TooFewIncoming then Incoming(att, p) else Outgoing(att, ps, p)) == low;
    assert IsWeakest(ps, att, reason, p);
  }

  function Tagged(ps: seq<nat>, reason: Reason): seq<Excluded> {
    seq(|ps|, i requires 0 <= i < |ps| => Excluded(ps[i], reason))
  }

  function Indices(es: seq<Excluded>): seq<nat> {
    seq(|es|, i requires 0 <= i < |es| => es[i].index)
  }

  // Drops the weakest group as long as it falls below the threshold for the current size.
  function Peel(ps: seq<nat>, att: Attestations, threshold: nat -> nat): seq<Excluded>
    decreases |ps|
  {
    if ps == [] then []
    else
      match Weakest(ps, att, threshold(|ps|))
      case None => []
      case Some(reason) =>
        Tagged(WeakGroup(ps, att, reason), reason) + Peel(Survivors(ps, att, reason), att, threshold)
  }

  // What is left when peeling stops.
  function StableCore(ps: seq<nat>, att: Attestations, threshold: nat -> nat): seq<nat>
    decreases |ps|
  {
    if ps == [] then []
    else
      match Weakest(ps, att, threshold(|ps|))
      case None => ps
      case Some(reason) => StableCore(Survivors(ps, att, reason), att, threshold)
  }

  ghost predicate Stable(ps: seq<nat>, att: Attestations, threshold: nat -> nat) {
    forall p :: p in ps ==> Outgoing(att, ps, p) >= threshold(|ps|) && Incoming(att, p) >= threshold(|ps|)
  }

  /** Peeling stops only at a stable group: everyone left gives enough attestations within the
      group and receives enough, measured by the size of the group that is left. */
  lemma {:induction false} CoreIsStable(ps: seq<nat>, att: Attestations, threshold: nat -> nat)
    ensures Stable(StableCore(ps, att, threshold), att, threshold)
    decreases |ps|
  {
    if ps != [] {
      match Weakest(ps, att, threshold(|ps|)) {
        case None =>
        case Some(reason) => CoreIsStable(Survivors(ps, att, reason), att, threshold);
      }
    }
  }

  // A duplicate-free list and its parts.
  ghost predicate Splits(ps: seq<nat>, kept: seq<nat>, dropped: seq<nat>) {
    && (forall p :: p in ps <==> p in kept || p in dropped)
    && (forall p :: p in kept ==> p !in dropped)
    && NoDuplicates(kept) && NoDuplicates(dropped)
  }

  lemma TaggedIndices(ps: seq<nat>, reason: Reason, rest: seq<Excluded>)
    ensures Indices(Tagged(ps, reason) + rest) == ps + Indices(rest)
  {
  }

  lemma SplitsFurther(ps: seq<nat>, kept: seq<nat>, dropped: seq<nat>, core: seq<nat>, more: seq<nat>)
    requires Splits(ps, kept, dropped) && Splits(kept, core, more)
    ensures Splits(ps, core, dropped + more)
  {
    AppendDistinct(dropped, more);
  }

  lemma FilterSplits(ps: seq<nat>, weak: seq<nat>)
    requires NoDuplicates(ps) && NoDuplicates(weak) && forall p :: p in weak ==> p in ps
    ensures Splits(ps, Filter(ps, Outside(weak)), weak)
  {
    FilterElements(ps, Outside(weak));
  }

  /** Nobody is lost and nobody is judged twice. */
  lemma {:induction false} PeelSplits(ps: seq<nat>, att: Attestations, threshold: nat -> nat)
    requires NoDuplicates(ps)
    ensures Splits(ps, StableCore(ps, att, threshold), Indices(Peel(ps, att, threshold)))
    decreases |ps|
  {
    hide Weakest, IsWeakest;
    if ps != [] && Weakest(ps, att, threshold(|ps|)).Some? {
      var reason := Weakest(ps, att, threshold(|ps|)).value;
      var weak, left := WeakGroup(ps, att, reason), Survivors(ps, att, reason);
      FilterElements(ps, WeakIn(ps, att, reason));
      FilterSplits(ps, weak);
      PeelSplits(left, att, threshold);
      TaggedIndices(weak, reason, Peel(left, att, threshold));
      SplitsFurther(ps, left, weak, StableCore(left, att, threshold), Indices(Peel(left, att, threshold)));
    }
  }

  // ---------- one pass over the attestations ----------

  method FilterAttestations(ps: seq<nat>, att: Attestations) returns (r: Attestations)
    ensures r == Remaining(att, ps)
  {
    r := [];
    for n := 0 to |att|
      invariant r == Remaining(att, ps)[..n]
    {
      var kept := Retain(att[n], Within(ps));
      r := r + [kept];
    }
  }

  // Filtering again by a smaller group is filtering once.
  lemma RemainingTwice(att: Attestations, ps: seq<nat>, qs: seq<nat>)
    requires forall q :: q in qs ==> q in ps
    ensures Remaining(Remaining(att, ps), qs) == Remaining(att, qs)
  {
    forall i | 0 <= i < |att| ensures Remaining(Remaining(att, ps), qs)[i] == Remaining(att, qs)[i] {
      FilterTwice(att[i], Within(ps), Within(qs));
      FilterSame(att[i], Both(Within(ps), Within(qs)), Within(qs));
    }
  }

  // While p takes part, nobody's attestation of p is filtered out.
  lemma RemainingAttesters(att: Attestations, ps: seq<nat>, p: nat)
    requires p in ps
    ensures Attesters(Remaining(att, ps), p) == Attesters(att, p)
  {
    forall i | 0 <= i < |att| ensures p in Remaining(att, ps)[i] <==> p in att[i] {
      FilterElements(att[i], Within(ps));
    }
  }

  method CountIncoming(att: Attestations, p: nat) returns (count: nat)
    ensures count == Incoming(att, p)
  {
    count := 0;
    ghost var seen: set<nat> := {};
    for i := 0 to |att|
      invariant seen == set k: nat | 0 <= k < i && k != p && p in att[k]
      invariant count == |seen|
    {
      if i != p && p in att[i] {
        count := count + 1;
        seen := seen + {i};
      }
    }
    assert seen == Attesters(att, p);
  }

  // The participants of lowest value with that value: the first group of a stable sort.
  method LowestGroup(ps: seq<nat>, values: seq<nat>, ghost f: nat -> nat)
    returns (result: Result<(nat, seq<nat>), ValidationError>)
    requires ps != []
    requires forall p :: p in ps && p < |values| ==> values[p] == f(p)
    ensures result.Err? <==> !InRange(ps, |values|)
    ensures result.Err? ==> result.error == IndexOutOfBounds
    ensures result.Ok? ==> result.value.0 == Lowest(ps, f) && result.value.1 == Filter(ps, AtLevel(f, Lowest(ps, f)))
  {
    hide Lowest, Filter;
    assert ps[0] in ps;
    if ps[0] >= |values| {
      return Err(IndexOutOfBounds);
    }
    var low, group := values[ps[0]], [ps[0]];
    LowestFirst(ps, f);
    for n := 1 to |ps|
      invariant InRange(ps[..n], |values|)
      invariant low == Lowest(ps[..n], f)
      invariant group == Filter(ps[..n], AtLevel(f, low))
    {
      assert ps[n] in ps;
      if ps[n] >= |values| {
        return Err(IndexOutOfBounds);
      }
      var v := values[ps[n]];
      LowestNext(ps, n, f, v);
      LowestNext(ps, n, f, low);
      RangeNext(ps, n, |values|);
      if v < low {
        NoneAtLevel(ps[..n], f, v);
        low, group := v, [ps[n]];
      } else if v == low {
        group := group + [ps[n]];
      }
    }
    assert ps[..|ps|] == ps;
    return Ok((low, group));
  }

  lemma RangeNext(ps: seq<nat>, n: nat, limit: nat)
    requires n < |ps| && InRange(ps[..n], limit) && ps[n] < limit
    ensures InRange(ps[..n + 1], limit)
  {
    assert ps[..n + 1] == ps[..n] + [ps[n]];
  }

  lemma LowestFirst(ps: seq<nat>, f: nat -> nat)
    requires ps != []
    ensures Lowest(ps[..1], f) == f(ps[0]) && Filter(ps[..1], AtLevel(f, f(ps[0]))) == [ps[0]]
  {
    assert ps[..1] == [ps[0]] && ps[..1][..0] == [];
  }

  lemma LowestNext(ps: seq<nat>, n: nat, f: nat -> nat, level: nat)
    requires 1 <= n < |ps|
    ensures Lowest(ps[..n + 1], f) == Min(Lowest(ps[..n], f), f(ps[n]))
    ensures Filter(ps[..n + 1], AtLevel(f, level)) ==
            Filter(ps[..n], AtLevel(f, level)) + if f(ps[n]) == level then [ps[n]] else []
  {
    assert ps[..n + 1][..n] == ps[..n] && ps[..n + 1][n] == ps[n];
  }

  function AtLevel(f: nat -> nat, level: nat): nat -> bool {
    (p: nat) => f(p) == level
  }

  lemma NoneAtLevel(ps: seq<nat>, f: nat -> nat, v: nat)
    requires ps != [] && v < Lowest(ps, f)
    ensures Filter(ps, AtLevel(f, v)) == []
  {
    FilterNone(ps, AtLevel(f, v));
  }

  // The weakest group by one measure.
  lemma WeakGroupAtLevel(ps: seq<nat>, att: Attestations, reason: Reason)
    requires ps != []
    ensures reason == TooFewIncoming ==>
              WeakGroup(ps, att, reason) == Filter(ps, AtLevel(IncomingIn(att), Lowest(ps, IncomingIn(att))))
    ensures reason == TooFewOutgoing ==>
              WeakGroup(ps, att, reason) == Filter(ps, AtLevel(OutgoingIn(att, ps), Lowest(ps, OutgoingIn(att, ps))))
  {
    hide Lowest;
    if reason == TooFewIncoming {
      FilterSame(ps, WeakIn(ps, att, reason), AtLevel(IncomingIn(att), Lowest(ps, IncomingIn(att))));
    } else if reason == TooFewOutgoing {
      FilterSame(ps, WeakIn(ps, att, reason), AtLevel(OutgoingIn(att, ps), Lowest(ps, OutgoingIn(att, ps))));
    }
  }

  method CountAttestations(att: Attestations, ghost all: Attestations, ghost ps: seq<nat>)
    returns (outgoing: seq<nat>, incoming: seq<nat>)
    requires att == Remaining(all, ps)
    ensures |outgoing| == |incoming| == |all|
    ensures forall p :: p in ps && p < |all| ==> outgoing[p] == Outgoing(all, ps, p) && incoming[p] == Incoming(all, p)
  {
    outgoing, incoming := [], [];
    for n := 0 to |att|
      invariant |outgoing| == |incoming| == n
      invariant forall p :: p in ps && p < n ==> outgoing[p] == Outgoing(all, ps, p) && incoming[p] == Incoming(all, p)
    {
      var count := CountIncoming(att, n);
      if n in ps {
        RemainingAttesters(all, ps, n);
      }
      outgoing, incoming := outgoing + [|att[n]|], incoming + [count];
    }
  }

  // One look at the remaining group: whom to drop, and why.
  method FindWeakest(ps: seq<nat>, relevant: Attestations, threshold: nat, ghost att: Attestations)
    returns (result: Result<Option<(Reason, seq<nat>)>, ValidationError>)
    requires ps != [] && relevant == Remaining(att, ps)
    ensures !InRange(ps, |att|) ==> result == Err(IndexOutOfBounds)
    ensures InRange(ps, |att|) ==> result.Ok? && result.value.Some? == Weakest(ps, att, threshold).Some?
    ensures result.Ok? && result.value.Some? ==>
              && result.value.value.0 == Weakest(ps, att, threshold).value
              && result.value.value.1 == WeakGroup(ps, att, result.value.value.0)
  {
    hide Lowest, Filter, WeakGroup, Outgoing, Incoming, Remaining;
    assert |relevant| == |att| by { RemainingLength(att, ps); }
    var outgoing, incoming := CountAttestations(relevant, att, ps);
    var byOutgoing := LowestGroup(ps, outgoing, OutgoingIn(att, ps));
    if byOutgoing.Err? {
      return Err(byOutgoing.error);
    }
    var byIncoming := LowestGroup(ps, incoming, IncomingIn(att));
    assert byIncoming.Ok?;
    WeakGroupAtLevel(ps, att, TooFewIncoming);
    WeakGroupAtLevel(ps, att, TooFewOutgoing);
    if byIncoming.value.0 < byOutgoing.value.0 {
      if byIncoming.value.0 < threshold {
        return Ok(Some((TooFewIncoming, byIncoming.value.1)));
      }
    } else if byOutgoing.value.0 < threshold {
      return Ok(Some((TooFewOutgoing, byOutgoing.value.1)));
    }
    return Ok(None);
  }

  lemma RemainingLength(att: Attestations, ps: seq<nat>)
    ensures |Remaining(att, ps)| == |att|
  {
  }

  /** As many rounds as participants always suffice to reach the stable group. */
  method ExcludeByAttestations(ps: seq<nat>, att: Attestations, threshold: nat -> nat)
    returns (result: Result<seq<Excluded>, ValidationError>)
    ensures result == if InRange(ps, |att|) then Ok(Peel(ps, att, threshold)) else Err(IndexOutOfBounds)
  {
    hide Weakest, WeakGroup, Survivors, Remaining, Peel, Filter, Tagged, Outside;
    var relevant := FilterAttestations(ps, att);
    var excluded: seq<Excluded> := [];
    var todo := ps;
    for n := 0 to |ps|
      invariant |todo| <= |ps| - n
      invariant n == 0 ==> todo == ps
      invariant n > 0 ==> InRange(ps, |att|)
      invariant forall p :: p in todo ==> p in ps
      invariant relevant == Remaining(att, todo)
      invariant excluded + Peel(todo, att, threshold) == Peel(ps, att, threshold)
    {
      PeelStep(todo, att, threshold);
      assert excluded + [] == excluded;
      if todo == [] {
        return Ok(excluded);
      }
      var weakest := FindWeakest(todo, relevant, threshold(|todo|), att);
      if weakest.Err? {
        return Err(weakest.error);
      }
      if weakest.value.None? {
        return Ok(excluded);
      }
      var (reason, group) := weakest.value.value;
      var kept := Retain(todo, Outside(group));
      RemainingTwice(att, todo, kept);
      relevant := FilterAttestations(kept, relevant);
      excluded := excluded + Tagged(group, reason);
      todo := kept;
    }
    PeelStep(todo, att, threshold);
    assert excluded + [] == excluded;
    return Ok(excluded);
  }

  lemma PeelStep(ps: seq<nat>, att: Attestations, threshold: nat -> nat)
    ensures ps == [] ==> Peel(ps, att, threshold) == [] && InRange(ps, |att|)
    ensures ps != [] && Weakest(ps, att, threshold(|ps|)).None? ==> Peel(ps, att, threshold) == []
    ensures ps != [] && Weakest(ps, att, threshold(|ps|)).Some? ==>
              var reason := Weakest(ps, att, threshold(|ps|)).value;
              var kept := Filter(ps, Outside(WeakGroup(ps, att, reason)));
              && Peel(ps, att, threshold) == Tagged(WeakGroup(ps, att, reason), reason) + Peel(kept, att, threshold)
              && |kept| < |ps| && forall p :: p in kept ==> p in ps
  {
    hide Weakest, WeakGroup, Tagged;
    if ps != [] && Weakest(ps, att, threshold(|ps|)).Some? {
      var reason := Weakest(ps, att, threshold(|ps|)).value;
      assert Survivors(ps, att, reason) == Filter(ps, Outside(WeakGroup(ps, att, reason)));
      FilterElements(ps, Outside(WeakGroup(ps, att, reason)));
    }
  }
}
