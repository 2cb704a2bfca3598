/**
 The ceremony scheduler: phases follow each other, and every phase change resynchronises
 the next one with the cycle. Times are u64 and saturate; the ceremony index is u32.
 */
module Scheduler {
  import opened Primitives
  import opened Arithmetic

  datatype Durations = Durations(registering: nat, assigning: nat, attesting: nat)
  {
    function Of(p: Phase): nat {
      match p
      case Registering => registering
      case Assigning => assigning
      case Attesting => attesting
    }

    function Cycle(): nat {
      registering + assigning + attesting
    }

    // The durations of the phases from the start of a cycle through phase p.
    function Through(p: Phase): nat {
      match p
      case Registering => registering
      case Assigning => registering + assigning
      case Attesting => registering + assigning + attesting
    }
  }

  function SatAdd(a: nat, b: nat): nat {
    Min(a + b, U64_MAX)
  }

  function SatMul(a: nat, b: nat): nat {
    if a * b < U64_MAX then a * b else U64_MAX
  }

  function Following(p: Phase): Phase {
    match p
    case Registering => Assigning
    case Assigning => Attesting
    case Attesting => Registering
  }

  // The next phase change is moved by whole cycles to the first slot at or after now.
  function Resync(cycle: nat, now: nat, tnext: nat): Option<nat> {
    if cycle == 0 then None
    else if tnext < now then Some(SatAdd(tnext, SatMul(cycle, (now - tnext) / cycle + 1)))
    else Some(SatSub(tnext, SatMul(cycle, (tnext - now) / cycle)))
  }

  /** Resync keeps the slot within the cycle and lands in [now, now + cycle]. */
  lemma ResyncLands(cycle: nat, now: nat, tnext: nat)
    requires cycle > 0 && now + cycle <= U64_MAX && tnext <= U64_MAX
    ensures var r := Resync(cycle, now, tnext).value;
            && now <= r <= now + cycle
            && Congruent(r, tnext, cycle)
            && (r == now + cycle <==> tnext < now && (now - tnext) % cycle == 0)
  {
    if tnext < now {
      var n := (now - tnext) / cycle;
      DivIdentity(now - tnext, cycle);
      DivMonotone(0, now - tnext, cycle);
      DivModUnique(0, cycle, 0, 0);
      Distribute(cycle, n, 1);
      assert cycle * (n + 1) == cycle * n + cycle;
      CongruentMultiple(tnext, n + 1, cycle);
    } else {
      var n := (tnext - now) / cycle;
      DivIdentity(tnext - now, cycle);
      DivMonotone(0, tnext - now, cycle);
      DivModUnique(0, cycle, 0, 0);
      Distribute(cycle, 0, n);
      assert cycle * (-n) == -(cycle * n);
      if cycle * n < U64_MAX {
        CongruentMultiple(tnext, -n, cycle);
      } else {
        SaturatedSlot(cycle, now, tnext, n);
      }
    }
  }

  // The product can only reach the limit when it equals it, where saturation changes nothing.
  lemma SaturatedSlot(cycle: nat, now: nat, tnext: nat, n: nat)
    requires cycle > 0 && now <= tnext && tnext - now == cycle * n + (tnext - now) % cycle
    requires cycle * n >= U64_MAX && now + cycle <= U64_MAX && tnext <= U64_MAX
    ensures Congruent(SatSub(tnext, U64_MAX), tnext, cycle)
  {
    assert cycle * n == U64_MAX && tnext == U64_MAX;
    Distribute(cycle, 0, n);
    assert Apart(0, tnext, cycle, 0 - n);
  }

  datatype State = State(phase: Phase, cindex: nat, nextTimestamp: nat, now: nat)

  // The index advances when a new ceremony starts registering.
  function NextIndex(s: State): nat {
    if s.phase == Attesting && s.cindex < U32_MAX then s.cindex + 1 else s.cindex
  }

  // One phase change, unless the cycle is empty.
  function Progress(d: Durations, s: State): Option<State> {
    var phase := Following(s.phase);
    match Resync(d.Cycle(), s.now, SatAdd(s.nextTimestamp, d.Of(phase)))
    case None => None
    case Some(t) => Some(State(phase, NextIndex(s), t, s.now))
  }

  // The first timestamp anchors the rhythm at midnight of the genesis day.
  function Midnight(now: nat, day: nat): nat
    requires day > 0
  {
    now - now % day
  }

  function SetTimestamp(d: Durations, day: nat, s: State, now: nat): State
    requires day > 0
  {
    var t := s.(now := now);
    if s.nextTimestamp == 0 then
      var started := if t.cindex == 0 then t.(cindex := 1) else t;
      match Resync(d.Cycle(), now, SatAdd(Midnight(now, day), d.registering))
      case None => started
      case Some(next) => started.(nextTimestamp := next)
    else if s.nextTimestamp < now then
      match Progress(d, t)
      case Some(u) => u
      // the hook is not rolled back: the index is written before the resynchronisation fails
      case None => t.(cindex := NextIndex(t))
    else t
  }

  // A manual phase change by the ceremony master; an error leaves the state unchanged.
  function NextPhase(d: Durations, s: State): State {
    match Progress(d, s)
    case None => s
    case Some(t) => t
  }

  // ---------- the pallet ----------

  class Pallet {
    var phase: Phase
    var cindex: nat
    var nextTimestamp: nat
    var now: nat
    const durations: Durations
    const day: nat

    ghost function View(): State
      reads this
    {
      State(phase, cindex, nextTimestamp, now)
    }

    constructor (durations: Durations, day: nat, phase: Phase, cindex: nat)
      ensures View() == State(phase, cindex, 0, 0)
      ensures this.durations == durations && this.day == day
    {
      this.durations, this.day := durations, day;
      this.phase, this.cindex, nextTimestamp, now := phase, cindex, 0, 0;
    }

    method ResyncAndSet(tnext: nat) returns (ok: bool)
      modifies this`nextTimestamp
      ensures ok <==> Resync(durations.Cycle(), now, tnext).Some?
      ensures ok ==> nextTimestamp == Resync(durations.Cycle(), now, tnext).value
      ensures !ok ==> nextTimestamp == old(nextTimestamp)
      // the slot within the cycle is kept, at or after now
      ensures ok && now + durations.Cycle() <= U64_MAX && tnext <= U64_MAX ==>
                && now <= nextTimestamp <= now + durations.Cycle()
                && Congruent(nextTimestamp, tnext, durations.Cycle())
    {
      var cycle := durations.Cycle();
      if cycle == 0 {
        return false;
      }
      if tnext < now {
        var n := (now - tnext) / cycle;
        nextTimestamp := SatAdd(tnext, SatMul(cycle, n + 1));
      } else {
        var n := (tnext - now) / cycle;
        nextTimestamp := SatSub(tnext, SatMul(cycle, n));
      }
      if now + cycle <= U64_MAX && tnext <= U64_MAX {
        ResyncLands(cycle, now, tnext);
      }
      return true;
    }

    // The index is written before the resynchronisation can fail.
    method ProgressPhase() returns (ok: bool)
      modifies this`phase, this`cindex, this`nextTimestamp
      ensures ok <==> old(Progress(durations, View())).Some?
      ensures ok ==> View() == old(Progress(durations, View())).value
      ensures !ok ==> View() == old(View()).(cindex := NextIndex(old(View())))
    {
      var following := Following(phase);
      if phase == Attesting {
        cindex := if cindex < U32_MAX then cindex + 1 else cindex;
      }
      ok := ResyncAndSet(SatAdd(nextTimestamp, durations.Of(following)));
      if ok {
        phase := following;
      }
    }

    // The call of the ceremony master is transactional.
    method ManualNextPhase() returns (ok: bool)
      modifies this`phase, this`cindex, this`nextTimestamp
      ensures View() == NextPhase(durations, old(View()))
      ensures !ok ==> View() == old(View())
    {
      var before := cindex;
      ok := ProgressPhase();
      if !ok {
        cindex := before;
      }
    }

    method OnTimestampSet(moment: nat)
      requires day > 0
      modifies this
      ensures View() == SetTimestamp(durations, day, old(View()), moment)
    {
      now := moment;
      if nextTimestamp == 0 {
        if cindex == 0 {
          cindex := 1;
        }
        var ok := ResyncAndSet(SatAdd(moment - moment % day, durations.registering));
      } else if nextTimestamp < moment {
        var ok := ProgressPhase();
      }
    }
  }

  // ---------- rhythm ----------

  datatype Event = Timestamp(now: nat) | ManualNextPhase

  function Handle(d: Durations, day: nat, s: State, e: Event): State
    requires day > 0
  {
    match e
    case Timestamp(now) => SetTimestamp(d, day, s, now)
    case ManualNextPhase => NextPhase(d, s)
  }

  function Run(d: Durations, day: nat, s: State, es: seq<Event>): State
    requires day > 0
  {
    if es == [] then s else Handle(d, day, Run(d, day, s, es[..|es| - 1]), es[|es| - 1])
  }

  // Far enough from the end of u64 time that nothing saturates.
  predicate Safe(d: Durations, now: nat) {
    0 < now && now + 2 * d.Cycle() <= U64_MAX
  }

  predicate EventOk(d: Durations, e: Event) {
    e.Timestamp? ==> Safe(d, e.now)
  }

  // The started scheduler: a running clock, and a slot at or after the last resync.
  ghost predicate Started(d: Durations, s: State, anchor: int) {
    && Safe(d, s.now)
    && 0 < s.nextTimestamp && s.nextTimestamp + d.Cycle() <= U64_MAX
    && Congruent(s.nextTimestamp, anchor + d.Through(s.phase), d.Cycle())
  }

  lemma FollowingSlot(d: Durations, p: Phase)
    ensures d.Through(Following(p)) == d.Through(p) + d.Of(Following(p)) ||
            d.Through(Following(p)) + d.Cycle() == d.Through(p) + d.Of(Following(p))
  {
  }

  lemma ProgressKeepsRhythm(d: Durations, s: State, anchor: int)
    requires d.Cycle() > 0 && Started(d, s, anchor)
    ensures Progress(d, s).Some? && Started(d, Progress(d, s).value, anchor)
    ensures s.now <= Progress(d, s).value.nextTimestamp <= s.now + d.Cycle()
  {
    var next := Following(s.phase);
    var t := s.nextTimestamp + d.Of(next);
    var cycle := d.Cycle();
    assert SatAdd(s.nextTimestamp, d.Of(next)) == t;
    ResyncLands(cycle, s.now, t);
    var r := Resync(cycle, s.now, t).value;
    CongruentRefl(d.Of(next), cycle);
    CongruentAdd(s.nextTimestamp, anchor + d.Through(s.phase), d.Of(next), d.Of(next), cycle);
    FollowingSlot(d, s.phase);
    var slot := anchor + d.Through(next);
    var k := if d.Through(next) == d.Through(s.phase) + d.Of(next) then 0 else 1;
    assert Apart(anchor + d.Through(s.phase) + d.Of(next), slot, cycle, k);
    CongruentTrans(t, anchor + d.Through(s.phase) + d.Of(next), slot, cycle);
    CongruentTrans(r, t, slot, cycle);
  }

  // The anchor set by the first timestamp, given the phase configured at genesis.
  function Anchor(d: Durations, day: nat, genesis: Phase, now: nat): int
    requires day > 0
  {
    Midnight(now, day) + d.registering - d.Through(genesis)
  }

  lemma FirstTimestampStarts(d: Durations, day: nat, s: State, now: nat)
    requires day > 0 && d.Cycle() > 0 && s.nextTimestamp == 0 && Safe(d, now)
    ensures Started(d, SetTimestamp(d, day, s, now), Anchor(d, day, s.phase, now))
    ensures now <= SetTimestamp(d, day, s, now).nextTimestamp <= now + d.Cycle()
    ensures SetTimestamp(d, day, s, now).cindex == Max(s.cindex, 1)
    ensures SetTimestamp(d, day, s, now).phase == s.phase
  {
    DivIdentity(now, day);
    DivMonotone(0, now, day);
    DivModUnique(0, day, 0, 0);
    assert 0 <= now % day <= now by { assert day * (now / day) >= 0; }
    var t := Midnight(now, day) + d.registering;
    assert SatAdd(Midnight(now, day), d.registering) == t;
    ResyncLands(d.Cycle(), now, t);
  }

  lemma HandleKeepsRhythm(d: Durations, day: nat, s: State, e: Event, anchor: int)
    requires day > 0 && d.Cycle() > 0 && Started(d, s, anchor) && EventOk(d, e)
    ensures Started(d, Handle(d, day, s, e), anchor)
    // one phase change per block is enough to catch up
    ensures e.Timestamp? ==> e.now <= Handle(d, day, s, e).nextTimestamp
  {
    match e {
      case ManualNextPhase => ProgressKeepsRhythm(d, s, anchor);
      case Timestamp(now) =>
        var t := s.(now := now);
        assert Started(d, t, anchor);
        ProgressKeepsRhythm(d, t, anchor);
    }
  }

  /** Over every run of timestamps and manual phase changes the next phase change stays in
      step with the rhythm anchored at the first timestamp. */
  lemma {:induction false} RhythmPreserved(d: Durations, day: nat, genesis: State, first: nat, es: seq<Event>)
    requires day > 0 && d.Cycle() > 0 && genesis.nextTimestamp == 0 && Safe(d, first)
    requires forall e :: e in es ==> EventOk(d, e)
    ensures var s := Run(d, day, SetTimestamp(d, day, genesis, first), es);
            Started(d, s, Anchor(d, day, genesis.phase, first))
  {
    if es == [] {
      FirstTimestampStarts(d, day, genesis, first);
    } else {
      RhythmPreserved(d, day, genesis, first, es[..|es| - 1]);
      HandleKeepsRhythm(d, day, Run(d, day, SetTimestamp(d, day, genesis, first), es[..|es| - 1]), es[|es| - 1],
                        Anchor(d, day, genesis.phase, first));
    }
  }

  /** Phase changes fall at genesis midnight plus the durations through the current phase,
      modulo the cycle, exactly when the phases before the genesis phase fill whole cycles;
      a chain that starts in the registering phase always qualifies. */
  lemma RhythmFromMidnight(d: Durations, day: nat, genesis: State, first: nat, es: seq<Event>)
    requires day > 0 && d.Cycle() > 0 && genesis.nextTimestamp == 0 && Safe(d, first)
    requires forall e :: e in es ==> EventOk(d, e)
    ensures var s := Run(d, day, SetTimestamp(d, day, genesis, first), es);
            Congruent(s.nextTimestamp, Midnight(first, day) + d.Through(s.phase), d.Cycle()) <==>
            Congruent(d.registering, d.Through(genesis.phase), d.Cycle())
    ensures genesis.phase == Registering ==> Congruent(d.registering, d.Through(genesis.phase), d.Cycle())
  {
    RhythmPreserved(d, day, genesis, first, es);
    var s := Run(d, day, SetTimestamp(d, day, genesis, first), es);
    var cycle := d.Cycle();
    var x, y := Midnight(first, day) + d.Through(s.phase), d.registering - d.Through(genesis.phase);
    CongruentRefl(d.registering, cycle);
    assert Congruent(s.nextTimestamp, x + y, cycle);
    if Congruent(s.nextTimestamp, x, cycle) {
      CongruentSymm(s.nextTimestamp, x + y, cycle);
      CongruentTrans(x + y, s.nextTimestamp, x, cycle);
      var k :| Apart(x + y, x, cycle, k);
      assert Apart(d.registering, d.Through(genesis.phase), cycle, k);
    }
    if Congruent(d.registering, d.Through(genesis.phase), cycle) {
      var k :| Apart(d.registering, d.Through(genesis.phase), cycle, k);
      assert Apart(x + y, x, cycle, k);
      CongruentTrans(s.nextTimestamp, x + y, x, cycle);
    }
  }

  /** Without a cycle the phase never changes and the slot stays; but as the hook is not rolled
      back, n blocks past the end of an attesting phase advance the ceremony index by n. */
  lemma {:induction false} EmptyCycleDrifts(d: Durations, day: nat, s: State, es: seq<Event>)
    requires day > 0 && d.Cycle() == 0 && s.nextTimestamp != 0 && s.phase == Attesting && s.cindex <= U32_MAX
    requires forall e :: e in es ==> e.Timestamp? && e.now > s.nextTimestamp
    ensures var t := Run(d, day, s, es);
            && t.cindex == Min(s.cindex + |es|, U32_MAX)
            && t.phase == Attesting && t.nextTimestamp == s.nextTimestamp
  {
    if es != [] {
      var front, last := es[..|es| - 1], es[|es| - 1];
      assert es == front + [last] && last in es;
      EmptyCycleDrifts(d, day, s, front);
    }
  }

  /** The position in the calendar of ceremonies grows by one with every phase change. */
  function Position(s: State): nat {
    3 * s.cindex + match s.phase case Registering => 0 case Assigning => 1 case Attesting => 2
  }

  lemma PhasesInOrder(d: Durations, s: State)
    requires d.Cycle() > 0 && s.cindex < U32_MAX
    ensures Progress(d, s).Some? && Position(Progress(d, s).value) == Position(s) + 1
    ensures Position(NextPhase(d, s)) == Position(s) + 1
  {
  }

  /** A started scheduler keeps phase, index and slot at a timestamp exactly while its slot has not
      passed; after that every block moves on by one position. */
  lemma HookMovesExactly(d: Durations, day: nat, s: State, now: nat)
    requires day > 0 && d.Cycle() > 0 && s.nextTimestamp > 0 && s.cindex < U32_MAX
    ensures var t := SetTimestamp(d, day, s, now);
            && t.now == now
            && (Position(t) == Position(s) <==> now <= s.nextTimestamp)
            && (now <= s.nextTimestamp ==> t.nextTimestamp == s.nextTimestamp)
            && (now > s.nextTimestamp ==> Position(t) == Position(s) + 1)
  {
    PhasesInOrder(d, s.(now := now));
  }
}
