/** The ring storage, the step-wise computation, the calls and the idle hook. */
module RingPallet {
  import opened Primitives
  import opened EvenSplit
  import opened Rings

  datatype LevelKey = LevelKey(cid: Cid, cindex: nat, level: nat)

  datatype RingKey = RingKey(level: LevelKey, index: nat)

  datatype Store = Store(rings: map<RingKey, seq<Key>>, counts: map<LevelKey, nat>)

  function RingAt(st: Store, k: LevelKey, i: nat): seq<Key> {
    if RingKey(k, i) in st.rings then st.rings[RingKey(k, i)] else []
  }

  // Sub-rings 0..n of one level, one after the other.
  ghost function Concat(st: Store, k: LevelKey, n: nat): seq<Key> {
    if n == 0 then [] else Concat(st, k, n - 1) + RingAt(st, k, n - 1)
  }

  lemma {:induction false} ConcatSame(st: Store, st': Store, k: LevelKey, n: nat)
    requires forall i :: 0 <= i < n ==> RingAt(st', k, i) == RingAt(st, k, i)
    ensures Concat(st', k, n) == Concat(st, k, n)
  {
    if n > 0 {
      ConcatSame(st, st', k, n - 1);
    }
  }

  /** The published level: its sub-rings together are the sorted keys of the members; none
      exceeds the limit, and a split leaves each at least half full. */
  ghost predicate Published(st: Store, w: World, most: nat, cid: Cid, cindex: nat, level: nat) {
    var k := LevelKey(cid, cindex, level);
    && k in st.counts
    && st.counts[k] >= 1
    && SortedBy(Concat(st, k, st.counts[k]), KEY_ORDER)
    && multiset(Concat(st, k, st.counts[k])) == KeyBag(w, Members(w, cid, cindex, level))
    && (forall i :: 0 <= i < st.counts[k] ==> SizeOk(|RingAt(st, k, i)|, most, st.counts[k]))
  }

  predicate SizeOk(size: nat, most: nat, parts: nat) {
    size <= most && (parts >= 2 ==> size >= (most + 1) / 2)
  }

  lemma PublishedKept(st: Store, st': Store, w: World, most: nat, cid: Cid, cindex: nat, level: nat)
    requires Published(st, w, most, cid, cindex, level)
    requires var k := LevelKey(cid, cindex, level);
             k in st'.counts && st'.counts[k] == st.counts[k] && forall i :: RingAt(st', k, i) == RingAt(st, k, i)
    ensures Published(st', w, most, cid, cindex, level)
  {
    var k := LevelKey(cid, cindex, level);
    ConcatSame(st, st', k, st.counts[k]);
  }

  /** Two published levels of one ceremony are nested as multisets of keys. */
  lemma PublishedNested(st: Store, w: World, most: nat, cid: Cid, cindex: nat, level: nat)
    requires Published(st, w, most, cid, cindex, level) && Published(st, w, most, cid, cindex, level + 1)
    ensures var k, k' := LevelKey(cid, cindex, level), LevelKey(cid, cindex, level + 1);
            multiset(Concat(st, k', st.counts[k'])) <= multiset(Concat(st, k, st.counts[k]))
  {
    LevelsNested(w, cid, cindex, level);
  }

  /** All five levels of one community ceremony are published. */
  ghost predicate Complete(st: Store, w: World, most: nat, c: Started) {
    forall level :: 1 <= level <= LEVELS ==> Published(st, w, most, c.cid, c.cindex, level)
  }

  // Whatever was published still is.
  ghost predicate PublishedStays(st: Store, st': Store, w: World, most: nat) {
    forall cid: Cid, cindex: nat, level: nat ::
      Published(st, w, most, cid, cindex, level) ==> Published(st', w, most, cid, cindex, level)
  }

  // Everything stored for other levels is left alone.
  ghost predicate OtherLevelsKept(st: Store, st': Store, k: LevelKey) {
    forall j: LevelKey :: j != k ==>
      && (j in st'.counts <==> j in st.counts) && (j in st'.counts ==> st'.counts[j] == st.counts[j])
      && forall i :: RingAt(st', j, i) == RingAt(st, j, i)
  }

  // Publishing one more level keeps the others.
  lemma LevelAdded(st: Store, st': Store, w: World, most: nat, cid: Cid, cindex: nat, level: nat)
    requires OtherLevelsKept(st, st', LevelKey(cid, cindex, level)) && Published(st', w, most, cid, cindex, level)
    ensures PublishedStays(st, st', w, most)
  {
    forall cid': Cid, cindex': nat, level': nat | Published(st, w, most, cid', cindex', level')
      ensures Published(st', w, most, cid', cindex', level')
    {
      if LevelKey(cid', cindex', level') != LevelKey(cid, cindex, level) {
        PublishedKept(st, st', w, most, cid', cindex', level');
      }
    }
  }

  lemma CompleteStays(st: Store, st': Store, w: World, most: nat)
    requires PublishedStays(st, st', w, most)
    ensures forall c: Started :: Complete(st, w, most, c) ==> Complete(st', w, most, c)
  {
  }

  // ---------- progress of a computation ----------

  // How many of the eleven steps are done.
  function StepsDone(p: RingPhase): int {
    match p
    case CollectingMembers(offset) => Min(offset, LEVELS)
    case BuildingRing(level) => 11 - Max(level, 1)
    case Done => 11
  }

  function Start(cid: Cid, cindex: nat): Computation {
    Computation(cid, cindex, CollectingMembers(0), [])
  }

  // What holds of every stored computation, whatever happens to keys and reputations meanwhile.
  ghost predicate WellFormed(s: Computation) {
    && Unique(s.attendance)
    && (forall i :: 0 <= i < |s.attendance| ==> 1 <= s.attendance[i].count <= LEVELS)
    && match s.phase
       case CollectingMembers(offset) =>
         offset <= LEVELS && forall i :: 0 <= i < |s.attendance| ==> s.attendance[i].count <= offset
       case BuildingRing(level) => 1 <= level <= LEVELS
       case Done => true
  }

  // With keys and reputations as in w throughout, the computation is on track.
  ghost predicate OnTrack(st: Store, w: World, most: nat, s: Computation) {
    match s.phase
    case CollectingMembers(offset) => Counts(s.attendance, Seen(w, s.community, s.cindex, offset))
    case BuildingRing(level) =>
      && Counts(s.attendance, Seen(w, s.community, s.cindex, LEVELS))
      && SortedBy(s.attendance, ACCOUNT_ORDER)
      && forall l :: level < l <= LEVELS ==> Published(st, w, most, s.community, s.cindex, l)
    case Done => forall l :: 1 <= l <= LEVELS ==> Published(st, w, most, s.community, s.cindex, l)
  }

  lemma StartOnTrack(st: Store, w: World, most: nat, cid: Cid, cindex: nat)
    ensures WellFormed(Start(cid, cindex)) && OnTrack(st, w, most, Start(cid, cindex))
    ensures StepsDone(Start(cid, cindex).phase) == 0
  {
  }

  // The counts a list itself records.
  ghost function CountIn(s: seq<Attendee>, a: Account): nat {
    if Listed(s, a) then var i :| 0 <= i < |s| && s[i].account == a; s[i].count else 0
  }

  lemma OwnCounts(s: seq<Attendee>)
    requires Unique(s) && forall i :: 0 <= i < |s| ==> s[i].count > 0
    ensures Counts(s, a => CountIn(s, a))
  {
  }

  lemma CountsAgree(s: seq<Attendee>, count: Account -> nat)
    requires Counts(s, count)
    ensures forall a :: CountIn(s, a) == count(a)
  {
  }

  lemma SeenGains(w: World, cid: Cid, cindex: nat, offset: nat, a: Account)
    ensures cindex > offset ==>
              Seen(w, cid, cindex, offset + 1)(a) ==
              Gained(Seen(w, cid, cindex, offset), w, CC(cid, cindex - offset), w.keys.Keys)(a)
    ensures cindex <= offset ==> Seen(w, cid, cindex, offset + 1)(a) == Seen(w, cid, cindex, offset)(a)
  {
  }

  // One collection step, with its effect when the world is stable.
  method CollectMembersStep(w: World, s: Computation, order: seq<Account>) returns (t: Computation)
    requires WellFormed(s) && s.phase.CollectingMembers? && Enumerates(order, w)
    ensures WellFormed(t) && t.community == s.community && t.cindex == s.cindex
    ensures StepsDone(t.phase) == StepsDone(s.phase) + 1
    ensures forall st: Store, most: nat :: OnTrack(st, w, most, s) ==> OnTrack(st, w, most, t)
  {
    hide Counts, Published, SortedBy;
    var offset := s.phase.offset;
    if offset >= LEVELS {
      var sorted := Sort(s.attendance, ACCOUNT_ORDER);
      SortSorts(s.attendance, ACCOUNT_ORDER);
      SortedKeepsForm(s, sorted);
      t := s.(attendance := sorted, phase := BuildingRing(LEVELS));
      return;
    }
    if s.cindex <= offset {
      t := s.(phase := CollectingMembers(offset + 1));
      SeenUnchanged(w, s, offset);
      return;
    }
    OwnCounts(s.attendance);
    ghost var own: Account -> nat := a => CountIn(s.attendance, a);
    assert forall a :: own(a) < U8_MAX;
    var updated := ScanCeremony(w, CC(s.community, s.cindex - offset), s.attendance, order, own);
    t := s.(attendance := updated, phase := CollectingMembers(offset + 1));
    ScanKeepsForm(w, s, offset, updated);
  }

  lemma SortedKeepsForm(s: Computation, sorted: seq<Attendee>)
    requires WellFormed(s) && multiset(sorted) == multiset(s.attendance)
    ensures WellFormed(s.(attendance := sorted, phase := BuildingRing(LEVELS)))
    ensures forall count: Account -> nat :: Counts(s.attendance, count) ==> Counts(sorted, count)
  {
    OwnCounts(s.attendance);
    ReorderedCounts(s.attendance, sorted, a => CountIn(s.attendance, a));
    forall i | 0 <= i < |sorted| ensures sorted[i] in s.attendance {
      assert sorted[i] in multiset(sorted);
    }
    forall count: Account -> nat | Counts(s.attendance, count) ensures Counts(sorted, count) {
      ReorderedCounts(s.attendance, sorted, count);
    }
  }

  lemma SeenUnchanged(w: World, s: Computation, offset: nat)
    requires s.cindex <= offset
    ensures Counts(s.attendance, Seen(w, s.community, s.cindex, offset)) ==>
              Counts(s.attendance, Seen(w, s.community, s.cindex, offset + 1))
  {
    if Counts(s.attendance, Seen(w, s.community, s.cindex, offset)) {
      forall a ensures Seen(w, s.community, s.cindex, offset + 1)(a) == Seen(w, s.community, s.cindex, offset)(a) {
        SeenGains(w, s.community, s.cindex, offset, a);
      }
      SameCounts(s.attendance, Seen(w, s.community, s.cindex, offset), Seen(w, s.community, s.cindex, offset + 1));
    }
  }

  lemma ScanKeepsForm(w: World, s: Computation, offset: nat, updated: seq<Attendee>)
    requires WellFormed(s) && s.phase == CollectingMembers(offset) && offset < LEVELS && offset < s.cindex
    requires Counts(updated, Gained(a => CountIn(s.attendance, a), w, CC(s.community, s.cindex - offset), w.keys.Keys))
    ensures WellFormed(s.(attendance := updated, phase := CollectingMembers(offset + 1)))
    ensures Counts(s.attendance, Seen(w, s.community, s.cindex, offset)) ==>
              Counts(updated, Seen(w, s.community, s.cindex, offset + 1))
  {
    hide Seen;
    var cc := CC(s.community, s.cindex - offset);
    var own: Account -> nat := a => CountIn(s.attendance, a);
    forall i | 0 <= i < |updated| ensures 1 <= updated[i].count <= offset + 1 {
      CountAt(updated, i, Gained(own, w, cc, w.keys.Keys));
    }
    if Counts(s.attendance, Seen(w, s.community, s.cindex, offset)) {
      hide Counts, WellFormed, CountIn;
      CountsAgree(s.attendance, Seen(w, s.community, s.cindex, offset));
      forall a ensures Seen(w, s.community, s.cindex, offset + 1)(a) == Gained(own, w, cc, w.keys.Keys)(a) {
        SeenGains(w, s.community, s.cindex, offset, a);
      }
      SameCounts(updated, Gained(own, w, cc, w.keys.Keys), Seen(w, s.community, s.cindex, offset + 1));
    }
  }

  // ---------- weights and events ----------

  // Computation time and proof size, both u64.
  datatype Weight = Weight(refTime: nat, proofSize: nat)
  {
    predicate AnyLess(other: Weight) {
      refTime < other.refTime || proofSize < other.proofSize
    }

    function Plus(other: Weight): Weight {
      Weight(Min(refTime + other.refTime, U64_MAX), Min(proofSize + other.proofSize, U64_MAX))
    }

    function Minus(other: Weight): Weight {
      Weight(SatSub(refTime, other.refTime), SatSub(proofSize, other.proofSize))
    }

    predicate Fits() {
      refTime <= U64_MAX && proofSize <= U64_MAX
    }
  }

  const ZERO := Weight(0, 0)

  // A community whose computation was started, and the ceremony index it runs for.
  datatype Started = Started(cid: Cid, cindex: nat)

  class Pallet {
    var rings: map<RingKey, seq<Key>>
    var counts: map<LevelKey, nat>
    var pending: Option<Computation>
    var queue: seq<Cid>
    var batch: nat
    const most: nat

    ghost function View(): Store
      reads this
    {
      Store(rings, counts)
    }

    ghost predicate Valid()
      reads this
    {
      most >= 1 && (pending.Some? ==> WellFormed(pending.value))
    }

    // The communities still to be computed, each with the index its batch was queued with.
    ghost function Waiting(): seq<Started>
      reads this
    {
      seq(|queue|, i requires 0 <= i < |queue| reads this => Started(queue[i], batch))
    }

    // The community whose computation is pending, if any.
    ghost function Running(): seq<Started>
      reads this
    {
      if pending.None? then [] else [Started(pending.value.community, pending.value.cindex)]
    }

    ghost predicate PendingOnTrack(w: World)
      reads this
    {
      pending.Some? ==> OnTrack(View(), w, most, pending.value)
    }

    constructor (most: nat)
      requires most >= 1
      ensures Valid() && View() == Store(map[], map[]) && pending == None && queue == [] && this.most == most
    {
      rings, counts, pending, queue, batch := map[], map[], None, [], 0;
      this.most := most;
    }

    // Writes the sub-rings of one level.
    method StoreRings(k: LevelKey, members: seq<Key>, parts: nat)
      requires most >= 1 && parts == Parts(|members|, most)
      modifies this`rings
      ensures Concat(View(), k, parts) == members
      ensures forall i :: 0 <= i < parts ==> SizeOk(|RingAt(View(), k, i)|, most, parts)
      ensures forall j: LevelKey, l :: j != k ==> RingAt(View(), j, l) == RingAt(old(View()), j, l)
    {
      hide Cut, Parts, SizeOk;
      var total := |members|;
      PartsBounds(total, most);
      CutBounds(0, total, parts);
      for i := 0 to parts
        invariant 0 <= Cut(i, total, parts) <= total
        invariant Concat(View(), k, i) == members[..Cut(i, total, parts)]
        invariant forall j :: 0 <= j < i ==> SizeOk(|RingAt(View(), k, j)|, most, parts)
        invariant forall j: LevelKey, l :: j != k ==> RingAt(View(), j, l) == RingAt(old(View()), j, l)
      {
        ghost var before := View();
        PartRange(i, total, most);
        var from, to := Cut(i, total, parts), Cut(i + 1, total, parts);
        var chunk := members[from..to];
        // the bounded conversion cannot fail
        assert |chunk| <= most by { SizeFits(|chunk|, most, parts); }
        rings := rings[RingKey(k, i) := chunk];
        ConcatSame(before, View(), k, i);
        assert members[..to] == members[..from] + chunk;
      }
      CutBounds(parts, total, parts);
      assert members[..total] == members;
    }

    method StoreLevel(k: LevelKey, members: seq<Key>)
      requires most >= 1
      modifies this`rings, this`counts
      ensures k in counts && counts[k] == Parts(|members|, most) && counts[k] >= 1
      ensures Concat(View(), k, counts[k]) == members
      ensures forall i :: 0 <= i < counts[k] ==> SizeOk(|RingAt(View(), k, i)|, most, counts[k])
      ensures OtherLevelsKept(old(View()), View(), k)
    {
      hide Parts, SizeOk;
      var parts := Parts(|members|, most);
      PartsBounds(|members|, most);
      StoreRings(k, members, parts);
      ghost var filled := View();
      counts := counts[k := parts];
      SameRings(filled, View());
      ConcatSame(filled, View(), k, parts);
    }

    // Builds the ring of one level; the split never produces a ring that is too large.
    method BuildRingStep(w: World, s: Computation) returns (t: Computation)
      requires most >= 1 && WellFormed(s) && s.phase.BuildingRing?
      modifies this`rings, this`counts
      ensures WellFormed(t) && t.community == s.community && t.cindex == s.cindex
      ensures StepsDone(t.phase) == StepsDone(s.phase) + 1
      ensures OnTrack(old(View()), w, most, s) ==>
                OnTrack(View(), w, most, t) && PublishedStays(old(View()), View(), w, most)
    {
      var level := s.phase.level;
      var members := CollectKeys(w, s.attendance, level);
      var sorted := Sort(members, KEY_ORDER);
      SortSorts(members, KEY_ORDER);
      StoreLevel(LevelKey(s.community, s.cindex, level), sorted);
      t := s.(phase := if level == 1 then Done else BuildingRing(level - 1));
      if OnTrack(old(View()), w, most, s) {
        QualifiedAreMembers(w, s.community, s.cindex, s.attendance, level);
        assert Published(View(), w, most, s.community, s.cindex, level);
        LevelAdded(old(View()), View(), w, most, s.community, s.cindex, level);
      }
    }

    /** One step of the computation. With keys and reputations stable it stays on track, so
        the eleventh step finds every level published. */
    method ProcessComputationStep(w: World, s: Computation, order: seq<Account>) returns (t: Computation)
      requires most >= 1 && WellFormed(s) && Enumerates(order, w)
      modifies this`rings, this`counts
      ensures WellFormed(t) && t.community == s.community && t.cindex == s.cindex
      ensures s.phase.Done? ==> t == s && View() == old(View())
      ensures !s.phase.Done? ==> StepsDone(t.phase) == StepsDone(s.phase) + 1
      ensures OnTrack(old(View()), w, most, s) ==>
                OnTrack(View(), w, most, t) && PublishedStays(old(View()), View(), w, most)
    {
      hide OnTrack, Published;
      match s.phase {
        case CollectingMembers(_) => t := CollectMembersStep(w, s, order);
        case BuildingRing(_) => t := BuildRingStep(w, s);
        case Done => t := s;
      }
    }

    // A manual start is allowed in the assigning phase, for a past ceremony, when idle.
    method InitiateRings(cid: Cid, cindex: nat, assigning: bool, communities: seq<Cid>, current: nat) returns (ok: bool)
      requires Valid()
      modifies this`pending
      ensures Valid()
      ensures ok <==> assigning && old(pending).None? && cid in communities && 0 < cindex < current
      ensures pending == if ok then Some(Start(cid, cindex)) else old(pending)
    {
      ok := assigning && pending.None? && cid in communities && 0 < cindex < current;
      if ok {
        pending := Some(Start(cid, cindex));
      }
    }

    /** One call advances the pending computation by one step and clears it after the last. */
    method ContinueRingComputation(w: World, order: seq<Account>) returns (ok: bool)
      requires Valid() && Enumerates(order, w)
      modifies this`rings, this`counts, this`pending
      ensures Valid()
      ensures ok <==> old(pending).Some? && old(pending).value.phase != Done
      ensures !ok ==> View() == old(View()) && pending == old(pending)
      ensures ok && old(OnTrack(View(), w, most, pending.value)) ==>
                var s := old(pending).value;
                if StepsDone(s.phase) == 10
                then && pending == None
                     && forall l :: 1 <= l <= LEVELS ==> Published(View(), w, most, s.community, s.cindex, l)
                else && pending.Some? && OnTrack(View(), w, most, pending.value)
                     && pending.value.community == s.community && pending.value.cindex == s.cindex
                     && StepsDone(pending.value.phase) == StepsDone(s.phase) + 1
    {
      if pending.None? || pending.value.phase == Done {
        return false;
      }
      hide Published, Counts;
      var t := ProcessComputationStep(w, pending.value, order);
      pending := if t.phase == Done then None else Some(t);
      return true;
    }

    /** Continuing until nothing is pending takes exactly eleven calls, and leaves all five levels
        published. */
    method ContinueUntilDone(w: World, order: seq<Account>) returns (calls: nat)
      requires Valid() && Enumerates(order, w)
      requires pending.Some? && pending.value == Start(pending.value.community, pending.value.cindex)
      modifies this`rings, this`counts, this`pending
      ensures Valid() && pending == None
      ensures calls == 11
      ensures Complete(View(), w, most, old(Running()[0]))
    {
      hide OnTrack, Published;
      ghost var c := Running()[0];
      StartOnTrack(View(), w, most, c.cid, c.cindex);
      calls := 0;
      while pending.Some?
        invariant Valid() && calls <= 11
        invariant pending.Some? ==>
                    && Running() == [c] && OnTrack(View(), w, most, pending.value)
                    && StepsDone(pending.value.phase) == calls < 11
        invariant pending.None? ==> calls == 11 && Complete(View(), w, most, c)
        decreases 11 - calls
      {
        var ok := ContinueRingComputation(w, order);
        assert ok;
        calls := calls + 1;
      }
    }

    // The phase-change hook queues all communities for the completed ceremony, unless the
    // previous batch is still waiting.
    method QueueBatch(communities: seq<Cid>, current: nat)
      modifies this`queue, this`batch
      ensures Waiting() == if current <= 1 || old(queue) != [] then old(Waiting())
                           else seq(|communities|, i requires 0 <= i < |communities| =>
                                      Started(communities[i], current - 1))
    {
      var completed := SatSub(current, 1);
      if completed == 0 || queue != [] {
        return;
      }
      queue := communities;
      batch := completed;
    }

    ghost predicate Served(w: World, cs: seq<Started>)
      reads this
    {
      forall c :: c in cs ==> c in Running() || Complete(View(), w, most, c)
    }

    // Steps the idle loop may still take: eleven per computation, and one to start it.
    ghost function StepsLeft(): int
      reads this
    {
      12 * |queue| +
        if pending.None? then 0
        else if pending.value.phase.Done? then 1
        else 11 - StepsDone(pending.value.phase)
    }

    // Takes one step of the pending computation and clears it after the last.
    method AdvancePending(w: World, order: seq<Account>, ghost cs: seq<Started>)
      requires Valid() && Enumerates(order, w) && pending.Some? && pending.value.phase != Done
      modifies this`rings, this`counts, this`pending
      ensures Valid() && StepsLeft() < old(StepsLeft())
      ensures old(PendingOnTrack(w) && Served(w, cs)) ==> PendingOnTrack(w) && Served(w, cs)
    {
      hide OnTrack, Complete, WellFormed, Published;
      ghost var before, s := View(), pending.value;
      var t := ProcessComputationStep(w, pending.value, order);
      pending := if t.phase == Done then None else Some(t);
      StepsRange(t);
      if OnTrack(before, w, most, s) {
        CompleteStays(before, View(), w, most);
        DoneIsComplete(View(), w, most, t);
      }
    }

    method DropPending(w: World, ghost cs: seq<Started>)
      requires Valid() && pending.Some? && pending.value.phase == Done
      modifies this`pending
      ensures Valid() && StepsLeft() < old(StepsLeft()) && pending == None
      ensures old(PendingOnTrack(w) && Served(w, cs)) ==> PendingOnTrack(w) && Served(w, cs)
    {
      hide OnTrack, Complete, WellFormed;
      if PendingOnTrack(w) {
        DoneIsComplete(View(), w, most, pending.value);
      }
      pending := None;
    }

    method StartNext(w: World, ghost cs: seq<Started>) returns (next: Started)
      requires Valid() && pending == None && queue != []
      modifies this`pending, this`queue
      ensures Valid() && StepsLeft() < old(StepsLeft())
      ensures [next] + Waiting() == old(Waiting())
      ensures PendingOnTrack(w) && (old(Served(w, cs)) ==> Served(w, cs + [next]))
    {
      hide OnTrack, Complete, WellFormed;
      ghost var waiting := Waiting();
      next := Started(queue[0], batch);
      queue := queue[1..];
      pending := Some(Start(next.cid, batch));
      assert waiting == [next] + Waiting();
      StartOnTrack(View(), w, most, next.cid, batch);
    }

    /** The idle hook: for any weights it terminates, stays within the offered weight in both
        dimensions, and starts waiting communities in order with their batch's index. */
    method OnIdle(w: World, order: seq<Account>, offered: Weight, step: Weight, overhead: Weight)
      returns (consumed: Weight, started: seq<Started>)
      requires Valid() && Enumerates(order, w) && offered.Fits() && step.Fits() && overhead.Fits()
      modifies this`rings, this`counts, this`pending, this`queue
      ensures Valid()
      ensures consumed.refTime <= offered.refTime && consumed.proofSize <= offered.proofSize
      ensures started + Waiting() == old(Waiting())
      // with keys and reputations stable, every community served ends with all its levels published
      ensures old(PendingOnTrack(w)) ==>
                && PendingOnTrack(w)
                && forall c :: c in old(Running()) + started ==> c in Running() || Complete(View(), w, most, c)
      // it stops only for lack of weight or of work
      ensures offered.Minus(consumed).AnyLess(step.Plus(overhead)) || (pending == None && queue == [])
    {
      hide OnTrack, WellFormed, Complete, Published, Weight.Plus, Weight.Minus;
      consumed := ZERO;
      started := [];
      var remaining := offered;
      NothingSpent(offered);
      BudgetCovers(step, overhead);
      var budget := step.Plus(overhead);
      while !remaining.AnyLess(budget)
        invariant Valid() && batch == old(batch)
        invariant remaining.Fits() && remaining == offered.Minus(consumed)
        invariant consumed.refTime <= offered.refTime && consumed.proofSize <= offered.proofSize
        invariant started + Waiting() == old(Waiting())
        invariant old(PendingOnTrack(w)) ==> PendingOnTrack(w) && Served(w, old(Running()) + started)
        decreases StepsLeft()
      {
        var cost := overhead;
        if pending.Some? {
          if pending.value.phase == Done {
            DropPending(w, old(Running()) + started);
          } else {
            AdvancePending(w, order, old(Running()) + started);
            cost := budget;
          }
        } else {
          if queue == [] {
            break;
          }
          var next := StartNext(w, old(Running()) + started);
          assert old(Running()) + (started + [next]) == old(Running()) + started + [next];
          started := started + [next];
        }
        Spend(offered, consumed, cost);
        consumed := consumed.Plus(cost);
        remaining := remaining.Minus(cost);
      }
    }
  }

  lemma StepsRange(s: Computation)
    requires WellFormed(s)
    ensures 0 <= StepsDone(s.phase) <= 11
    ensures s.phase != Done ==> StepsDone(s.phase) < 11
  {
  }

  lemma DoneIsComplete(st: Store, w: World, most: nat, s: Computation)
    ensures s.phase == Done && OnTrack(st, w, most, s) ==> Complete(st, w, most, Started(s.community, s.cindex))
  {
  }

  lemma NothingSpent(offered: Weight)
    ensures offered.Minus(ZERO) == offered
  {
  }

  lemma BudgetCovers(step: Weight, overhead: Weight)
    requires overhead.Fits()
    ensures !step.Plus(overhead).AnyLess(overhead)
  {
  }

  // What is affordable is taken without saturating.
  lemma Spend(offered: Weight, consumed: Weight, cost: Weight)
    requires offered.Fits() && consumed.refTime <= offered.refTime && consumed.proofSize <= offered.proofSize
    requires !offered.Minus(consumed).AnyLess(cost)
    ensures var after := consumed.Plus(cost);
            && after.refTime <= offered.refTime && after.proofSize <= offered.proofSize
            && offered.Minus(consumed).Minus(cost) == offered.Minus(after) && offered.Minus(after).Fits()
  {
  }

  lemma SameRings(st: Store, st': Store)
    requires st'.rings == st.rings
    ensures forall k: LevelKey, i: nat :: RingAt(st', k, i) == RingAt(st, k, i)
  {
  }

  lemma SizeFits(size: nat, most: nat, parts: nat)
    requires SizeOk(size, most, parts)
    ensures size <= most
  {
  }

  lemma PartRange(i: nat, total: nat, most: nat)
    requires most >= 1 && i < Parts(total, most)
    ensures var k := Parts(total, most);
            && 0 <= Cut(i, total, k) <= Cut(i + 1, total, k) <= total
            && SizeOk(Cut(i + 1, total, k) - Cut(i, total, k), most, k)
  {
    PartsBounds(total, most);
    var k := Parts(total, most);
    CutBounds(i, total, k);
    CutBounds(i + 1, total, k);
    PartSize(i, total, k);
    PartsFit(i, total, most);
    if k >= 2 {
      PartsLargeEnough(i, total, most);
    } else {
      assert total / k >= 0;
    }
  }
}
