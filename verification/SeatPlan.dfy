/**
 Seat allocation is the best there is: as many seats as locations and primes allow, given out by
 priority as far as they reach, at as few meetups as will do.
 */
module SeatPlan {
  import opened Primitives
  import opened Arithmetic
  import opened Primes
  import Assignment
  import opened Hall

  // So many meetups can be held: each at a location of its own, and no more than some prime
  // within the number of bootstrappers and reputables (or two).
  ghost predicate CanHold(h: Hall, locations: nat, k: nat) {
    k <= locations && exists q: nat :: Prime(q) && k <= q <= Max(2, h.bootstrappers.count + h.reputables.count)
  }

  /** The number of meetups seats are planned for is the largest that can be held. */
  lemma MostMeetups(h: Hall, locations: nat, k: nat)
    ensures CanHold(h, locations, k) <==> k <= MaxMeetups(h, locations)
  {
    var core := h.bootstrappers.count + h.reputables.count;
    LargestPrimeIsLargest(core);
    if core < 2 {
      LargestPrimeIsLargest(2);
    }
    if k <= MaxMeetups(h, locations) {
      assert Prime(LargestPrime(core)) && k <= LargestPrime(core) <= Max(2, core);
    }
  }

  // Everybody on the list is registered, all bootstrappers are, they fit into meetups that can be
  // held, and there are enough others for each newbie.
  ghost predicate Admissible(cfg: Seating, h: Hall, locations: nat, c: AssignmentCount) {
    && c.bootstrappers == h.bootstrappers.count && c.reputables <= h.reputables.count
    && c.endorsees <= h.endorsees.count && c.newbies <= h.newbies.count
    && (exists k: nat :: CanHold(h, locations, k) && c.Total() <= k * cfg.target)
    && c.newbies * cfg.newbieDivider <= c.bootstrappers + c.reputables + c.endorsees
  }

  // More reputables count for more than any number of endorsees, and these for more than newbies.
  predicate NoBetter(c: AssignmentCount, best: AssignmentCount) {
    || c.reputables < best.reputables
    || (c.reputables == best.reputables && c.endorsees < best.endorsees)
    || (c.reputables == best.reputables && c.endorsees == best.endorsees && c.newbies <= best.newbies)
  }

  lemma SeatsReached(cfg: Seating, h: Hall, locations: nat, n: nat)
    ensures (exists k: nat :: CanHold(h, locations, k) && n <= k * cfg.target) <==> n <= Seats(cfg, h, locations)
  {
    var most := MaxMeetups(h, locations);
    LargestPrimeIsLargest(h.bootstrappers.count + h.reputables.count);
    assert most >= 0;
    MostMeetups(h, locations, most);
    if k: nat :| CanHold(h, locations, k) && n <= k * cfg.target {
      MostMeetups(h, locations, k);
      ProductMonotone(k, cfg.target, most, cfg.target);
    }
  }

  lemma CapExactly(n: nat, others: nat, divider: nat)
    requires divider > 0
    ensures n * divider <= others <==> n <= others / divider
  {
    DivIdentity(others, divider);
    if n <= others / divider {
      ProductMonotone(n, divider, others / divider, divider);
    } else {
      ProductMonotone(others / divider + 1, divider, n, divider);
      assert (others / divider + 1) * divider == others / divider * divider + divider;
    }
  }

  /** The allowance is the best admissible one. */
  lemma AllowanceIsBest(cfg: Seating, h: Hall, locations: nat, other: AssignmentCount)
    requires Allowance(cfg, h, locations).Ok?
    ensures var best := Allowance(cfg, h, locations).value;
            && Admissible(cfg, h, locations, best)
            && (Admissible(cfg, h, locations, other) ==> NoBetter(other, best))
  {
    hide CanHold, Seats;
    var best := Allowance(cfg, h, locations).value;
    AllowanceIsFair(cfg, h, locations);
    SeatsReached(cfg, h, locations, best.Total());
    CapExactly(best.newbies, best.bootstrappers + best.reputables + best.endorsees, cfg.newbieDivider);
    if Admissible(cfg, h, locations, other) {
      SeatsReached(cfg, h, locations, other.Total());
      CapExactly(other.newbies, other.bootstrappers + other.reputables + other.endorsees, cfg.newbieDivider);
    }
  }

  // The seats of the assignment go to the fewest meetups of the target size.
  ghost predicate FewestMeetups(target: nat, total: nat, k: nat) {
    total <= k * target && forall j: nat :: total <= j * target ==> k <= j
  }

  lemma CeilIsFewest(total: nat, target: nat)
    requires target > 0
    ensures FewestMeetups(target, total, CeilDiv(total, target))
  {
    var k := CeilDiv(total, target);
    DivIdentity(total + target - 1, target);
    forall j: nat | total <= j * target ensures k <= j {
      CeilDivBound(total, target, j);
    }
  }

  // The modulus is the largest prime within the size of the group (or two), with the drawn factors.
  ghost predicate DrawnFor(p: Assignment.Params, d: Draw, size: nat) {
    && p.s1 == d.s1 && p.s2 == d.s2 && Prime(p.m) && p.m <= Max(2, size)
    && forall q: nat :: p.m < q <= size ==> !Prime(q)
  }

  /** Seats are assigned exactly if the allowance can be computed, meetups have a target size and
      enough people come; then to the allowance, at the fewest meetups that can seat it. */
  lemma SeatsAssigned(cfg: Seating, h: Hall, input: SeatInput)
    requires SeatInputOk(cfg, h, input)
    ensures var g, allowance := AssignSeats(cfg, h, input), Allowance(cfg, h, input.locations);
            if allowance.Ok? && cfg.target > 0 && allowance.value.Total() >= cfg.minSize
            then && g.counts == allowance.value && FewestMeetups(cfg.target, g.counts.Total(), g.meetups)
                 && DrawnFor(g.coreParams, input.core, g.SizeOf(Core))
                 && DrawnFor(g.endorsedParams, input.endorsed, g.SizeOf(Endorsed))
                 && DrawnFor(g.newbieParams, input.newbie, g.SizeOf(Fresh))
            else g == h
  {
    forall size: nat, d: Draw ensures DrawnFor(DrawnParams(d, size), d, size) {
      LargestPrimeIsLargest(size);
    }
    var allowance := Allowance(cfg, h, input.locations);
    if allowance.Ok? && cfg.target > 0 {
      CeilIsFewest(allowance.value.Total(), cfg.target);
    }
  }
}
