/**
 How far the ceremony index can advance within a span of time, over all runs of the hook.
 */
module IndexReach {
  import opened Primitives
  import opened Arithmetic
  import opened Scheduler
  import TimedRuns

  // Timestamps in order, none later than until.
  ghost predicate Ticking(d: Durations, es: seq<Event>, from: Moment, until: Moment) {
    && (forall i :: 0 <= i < |es| ==> es[i].Timestamp? && from <= es[i].now <= until && Safe(d, es[i].now))
    && (forall i, j :: 0 <= i < j < |es| ==> es[i].now <= es[j].now)
  }

  // A running scheduler in ceremony start.
  ghost predicate RunsAt(d: Durations, a: State, start: nat) {
    a.cindex == start && TimedRuns.Settled(a) && Safe(d, a.now)
  }

  // Some blocks within the span take the ceremony index from start to c or beyond.
  ghost predicate Reached(d: Durations, day: nat, start: nat, span: nat, c: nat)
    requires day > 0
  {
    exists a: State, es: seq<Event> ::
      && RunsAt(d, a, start) && Ticking(d, es, a.now, a.now + span)
      && Run(d, day, a, es).cindex >= c
  }

  // Within a short wait the slot stays as it is.
  lemma SoonerSlot(cycle: nat, now: nat, tnext: nat)
    requires now <= tnext < now + cycle
    ensures Resync(cycle, now, tnext) == Some(tnext)
  {
    DivModUnique(tnext - now, cycle, 0, tnext - now);
  }

  // One block right after a slot: the next phase begins, and lasts as long as it should.
  lemma PromptBlock(d: Durations, day: nat, s: State)
    requires day > 0 && s.nextTimestamp > 0 && s.nextTimestamp + 2 * d.Cycle() <= U64_MAX
    requires d.Of(Following(s.phase)) > 0
    ensures SetTimestamp(d, day, s, s.nextTimestamp + 1) ==
            State(Following(s.phase), NextIndex(s), s.nextTimestamp + d.Of(Following(s.phase)), s.nextTimestamp + 1)
  {
    SoonerSlot(d.Cycle(), s.nextTimestamp + 1, s.nextTimestamp + d.Of(Following(s.phase)));
  }

  lemma RunOne(d: Durations, day: nat, a: State, es: seq<Event>, now: nat)
    requires day > 0
    ensures Run(d, day, a, es + [Timestamp(now)]) == SetTimestamp(d, day, Run(d, day, a, es), now)
  {
    var more := es + [Timestamp(now)];
    assert more[..|more| - 1] == es;
  }

  lemma TickMore(d: Durations, es: seq<Event>, from: Moment, until: Moment, now: nat)
    requires Ticking(d, es, from, until) && from <= now && until <= now && Safe(d, now)
    ensures Ticking(d, es + [Timestamp(now)], from, now)
    ensures forall later: nat :: later >= now ==> Ticking(d, es + [Timestamp(now)], from, later)
  {
  }

  // The state at the end of j whole cycles, each block right after its slot.
  function CyclesLater(d: Durations, start: nat, t: Moment, j: nat): State {
    State(Attesting, start + j, t + j * d.Cycle(), if j == 0 then t else t + j * d.Cycle() - d.attesting + 1)
  }

  lemma {:induction false} PromptRun(d: Durations, day: nat, start: nat, t: Moment, j: nat) returns (es: seq<Event>)
    requires day > 0 && d.registering > 0 && d.assigning > 0 && d.attesting > 0
    requires t > 0 && t + j * d.Cycle() + 2 * d.Cycle() <= U64_MAX && start + j <= U32_MAX
    ensures Ticking(d, es, t, t + j * d.Cycle())
    ensures Run(d, day, State(Attesting, start, t, t), es) == CyclesLater(d, start, t, j)
  {
    hide SetTimestamp;
    if j == 0 {
      es := [];
    } else {
      hide Ticking, Run;
      var cycle, a := d.Cycle(), State(Attesting, start, t, t);
      assert j * cycle == (j - 1) * cycle + cycle;
      ProductMonotone(0, cycle, j - 1, cycle);
      var front := PromptRun(d, day, start, t, j - 1);
      var slot := t + (j - 1) * cycle;
      es := PromptCycle(d, day, a, front, CyclesLater(d, start, t, j - 1), t, slot);
    }
  }

  // Three blocks, each right after its slot, are one cycle.
  lemma PromptCycle(d: Durations, day: nat, a: State, front: seq<Event>, s: State, from: Moment,
                    slot: Moment) returns (es: seq<Event>)
    requires day > 0 && d.registering > 0 && d.assigning > 0 && d.attesting > 0
    requires Ticking(d, front, from, slot) && Run(d, day, a, front) == s && from <= slot
    requires s.phase == Attesting && s.nextTimestamp == slot > 0 && slot + 3 * d.Cycle() <= U64_MAX
    requires s.cindex < U32_MAX
    ensures Ticking(d, es, from, slot + d.Cycle())
    ensures Run(d, day, a, es) ==
            State(Attesting, s.cindex + 1, slot + d.Cycle(), slot + d.registering + d.assigning + 1)
  {
    hide Run, Ticking, SetTimestamp;
    var s1 := State(Registering, s.cindex + 1, slot + d.registering, slot + 1);
    var s2 := State(Assigning, s.cindex + 1, s1.nextTimestamp + d.assigning, s1.nextTimestamp + 1);
    PromptBlock(d, day, s);
    PromptBlock(d, day, s1);
    PromptBlock(d, day, s2);
    var e1 := front + [Timestamp(slot + 1)];
    var e2 := e1 + [Timestamp(s1.nextTimestamp + 1)];
    es := e2 + [Timestamp(s2.nextTimestamp + 1)];
    RunOne(d, day, a, front, slot + 1);
    RunOne(d, day, a, e1, s1.nextTimestamp + 1);
    RunOne(d, day, a, e2, s2.nextTimestamp + 1);
    TickMore(d, front, from, slot, slot + 1);
    TickMore(d, e1, from, slot + 1, s1.nextTimestamp + 1);
    TickMore(d, e2, from, s1.nextTimestamp + 1, s2.nextTimestamp + 1);
  }

  // The hook never falls behind the pace of the cycle.
  lemma {:induction false} HookOnPace(d: Durations, day: nat, a: State, es: seq<Event>, until: Moment)
    requires day > 0 && d.Cycle() > 0 && RunsAt(d, a, a.cindex) && Ticking(d, es, a.now, until) && a.now <= until
    requires Run(d, day, a, es).cindex < U32_MAX
    ensures var s := Run(d, day, a, es);
            && TimedRuns.OnPace(d, a, s) && TimedRuns.Settled(s) && Safe(d, s.now) && s.now <= until
            && (es != [] ==> s.now == es[|es| - 1].now)
  {
    hide TimedRuns.OnPace, SetTimestamp;
    if es == [] {
      PaceHere(d, a);
    } else {
      var front, last := es[..|es| - 1], es[|es| - 1];
      var s := Run(d, day, a, front);
      HookGrows(d, day, s, last.now);
      FrontTicks(d, es, a.now, until);
      HookOnPace(d, day, a, front, until);
      HookStep(d, day, a, s, last.now);
    }
  }

  lemma HookStep(d: Durations, day: nat, a: State, s: State, now: nat)
    requires day > 0 && d.Cycle() > 0 && s.now <= now && Safe(d, now) && Safe(d, s.now) && s.cindex < U32_MAX
    requires TimedRuns.OnPace(d, a, s) && TimedRuns.Settled(s)
    ensures var t := SetTimestamp(d, day, s, now);
            TimedRuns.OnPace(d, a, t) && TimedRuns.Settled(t) && t.now == now
  {
    var stamped := s.(now := now);
    if !TimedRuns.Settled(stamped) {
      TimedRuns.BaseGrows(d, stamped);
      TimedRuns.ProgressSettles(d, stamped);
    }
  }

  lemma PaceHere(d: Durations, a: State)
    ensures TimedRuns.OnPace(d, a, a)
  {
  }

  lemma HookGrows(d: Durations, day: nat, s: State, now: nat)
    requires day > 0
    ensures s.cindex <= SetTimestamp(d, day, s, now).cindex
  {
  }

  lemma FrontTicks(d: Durations, es: seq<Event>, from: Moment, until: Moment)
    requires Ticking(d, es, from, until) && es != []
    ensures Ticking(d, es[..|es| - 1], from, until)
  {
  }

  // The index advances one by one.
  lemma {:induction false} PassesThrough(d: Durations, day: nat, a: State, es: seq<Event>, until: Moment, c: nat)
    returns (prefix: seq<Event>)
    requires day > 0 && Ticking(d, es, a.now, until) && a.cindex <= c <= Run(d, day, a, es).cindex
    ensures Ticking(d, prefix, a.now, until) && Run(d, day, a, prefix).cindex == c
  {
    if Run(d, day, a, es).cindex == c {
      prefix := es;
    } else {
      FrontTicks(d, es, a.now, until);
      IndexStep(d, day, Run(d, day, a, es[..|es| - 1]), es[|es| - 1].now);
      prefix := PassesThrough(d, day, a, es[..|es| - 1], until, c);
    }
  }

  lemma IndexStep(d: Durations, day: nat, s: State, now: nat)
    requires day > 0
    ensures s.cindex <= SetTimestamp(d, day, s, now).cindex <= s.cindex + 1
  {
  }

  lemma OnlySoFar(d: Durations, day: nat, start: nat, span: nat, k: nat)
    requires day > 0 && d.Cycle() > 0 && start + k < U32_MAX && k > 0
    requires Reached(d, day, start, span, start + k)
    ensures span > (k - 1) * d.Cycle()
  {
    var a: State, es: seq<Event> :|
      && RunsAt(d, a, start) && Ticking(d, es, a.now, a.now + span)
      && Run(d, day, a, es).cindex >= start + k;
    hide Run, Ticking, TimedRuns.OnPace;
    var prefix := PassesThrough(d, day, a, es, a.now + span, start + k);
    HookOnPace(d, day, a, prefix, a.now + span);
    PaceBounds(d, a, Run(d, day, a, prefix), k);
  }

  lemma PaceBounds(d: Durations, a: State, s: State, k: nat)
    requires TimedRuns.OnPace(d, a, s) && TimedRuns.Settled(a) && s.cindex == a.cindex + k && k > 0
    ensures s.now > a.now + (k - 1) * d.Cycle()
  {
    var cycle := d.Cycle();
    Distribute(cycle, a.cindex, k - 1);
    assert (s.cindex - 1) * cycle == a.cindex * cycle + (k - 1) * cycle;
  }

  lemma ThusFar(d: Durations, day: nat, start: nat, span: nat, k: nat)
    requires day > 0 && d.registering > 0 && d.assigning > 0 && d.attesting > 0
    requires span + 3 * d.Cycle() < U64_MAX && start + k < U32_MAX && k > 0 && span > (k - 1) * d.Cycle()
    ensures Reached(d, day, start, span, start + k)
  {
    hide Run, Ticking, SetTimestamp;
    var a, slot := State(Attesting, start, 1, 1), 1 + (k - 1) * d.Cycle();
    ProductMonotone(0, d.Cycle(), k - 1, d.Cycle());
    var es := PromptRun(d, day, start, 1, k - 1);
    var s := CyclesLater(d, start, 1, k - 1);
    PromptBlock(d, day, s);
    RunOne(d, day, a, es, slot + 1);
    TickMore(d, es, 1, slot, slot + 1);
    var more := es + [Timestamp(slot + 1)];
    assert Ticking(d, more, a.now, a.now + span);
    assert RunsAt(d, a, start) && Run(d, day, a, more).cindex >= start + k;
  }

  lemma ReachedLess(d: Durations, day: nat, start: nat, span: nat, c: nat, less: nat)
    requires day > 0 && Reached(d, day, start, span, c) && less <= c
    ensures Reached(d, day, start, span, less)
  {
    var a: State, es: seq<Event> :|
      && RunsAt(d, a, start) && Ticking(d, es, a.now, a.now + span)
      && Run(d, day, a, es).cindex >= c;
  }

  /** Within a span of time the ceremony index can advance by k if and only if k is zero or the
      span is longer than k - 1 cycles. */
  lemma ReachedExactly(d: Durations, day: nat, start: nat, span: nat, k: nat)
    requires day > 0 && d.registering > 0 && d.assigning > 0 && d.attesting > 0
    requires span + 3 * d.Cycle() < U64_MAX && start + k < U32_MAX
    ensures Reached(d, day, start, span, start + k) <==> k == 0 || span > (k - 1) * d.Cycle()
  {
    if Reached(d, day, start, span, start + k) && k > 0 {
      OnlySoFar(d, day, start, span, k);
    }
    if k == 0 {
      var a := State(Attesting, start, 1, 1);
      assert Run(d, day, a, []) == a && RunsAt(d, a, start) && Ticking(d, [], a.now, a.now + span);
    } else if span > (k - 1) * d.Cycle() {
      ThusFar(d, day, start, span, k);
    }
  }
}
