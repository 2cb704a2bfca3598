/**
 Everything the ceremonies pallet stores under one community ceremony, with seat allocation
 and the two meetup lookups: account to meetup, and meetup to accounts.
 */
module Hall {
  import opened Primitives
  import opened Arithmetic
  import opened ParticipantRegistry
  import opened Primes
  import opened Assignment
  import opened PrimeGaps

  datatype Category = Bootstrapper | Reputable | Endorsee | Newbie

  datatype MeetupResult = MeetupOk | VotesNotDependable | ValidationIndexOutOfBounds

  datatype AssignmentCount = AssignmentCount(bootstrappers: nat, reputables: nat, endorsees: nat, newbies: nat)
  {
    function Total(): nat {
      bootstrappers + reputables + endorsees + newbies
    }
  }

  // Bootstrappers and reputables share one group of seats.
  datatype Group = Core | Endorsed | Fresh

  datatype Hall = Hall(
    bootstrappers: Registry, reputables: Registry, endorsees: Registry, newbies: Registry,
    counts: AssignmentCount, coreParams: Params, endorsedParams: Params, newbieParams: Params, meetups: nat,
    reputation: map<Account, Reputation>, reputationCount: nat,
    endorsements: set<Account>, issued: map<nat, MeetupResult>)
  {
    function CategoryOf(a: Account): Option<Category> {
      if a in bootstrappers.index then Some(Bootstrapper)
      else if a in reputables.index then Some(Reputable)
      else if a in endorsees.index then Some(Endorsee)
      else if a in newbies.index then Some(Newbie)
      else None
    }

    predicate IsRegistered(a: Account) {
      a in bootstrappers.index || a in reputables.index || a in endorsees.index || a in newbies.index
    }

    function RegistryOf(c: Category): Registry {
      match c
      case Bootstrapper => bootstrappers
      case Reputable => reputables
      case Endorsee => endorsees
      case Newbie => newbies
    }

    function With(c: Category, r: Registry): Hall {
      match c
      case Bootstrapper => this.(bootstrappers := r)
      case Reputable => this.(reputables := r)
      case Endorsee => this.(endorsees := r)
      case Newbie => this.(newbies := r)
    }

    function ReputationOf(a: Account): Reputation {
      if a in reputation then reputation[a] else Unverified
    }

    function ParamsOf(g: Group): Params {
      match g
      case Core => coreParams
      case Endorsed => endorsedParams
      case Fresh => newbieParams
    }

    function SizeOf(g: Group): nat {
      match g
      case Core => counts.bootstrappers + counts.reputables
      case Endorsed => counts.endorsees
      case Fresh => counts.newbies
    }

    ghost function VerifiedAccounts(): set<Account> {
      set a | a in reputation && reputation[a].IsVerified()
    }
  }

  const NO_COUNTS := AssignmentCount(0, 0, 0, 0)
  const NO_PARAMS := Params(0, 0, 0)
  const EMPTY_HALL := Hall(EMPTY, EMPTY, EMPTY, EMPTY, NO_COUNTS, NO_PARAMS, NO_PARAMS, NO_PARAMS, 0,
                           map[], 0, {}, map[])

  // No account sits in two categories, and every category is contiguous.
  ghost predicate RegistriesOk(h: Hall) {
    && (forall c: Category :: Contiguous(h.RegistryOf(c)))
    && (forall c: Category, d: Category :: c != d ==> h.RegistryOf(c).index.Keys !! h.RegistryOf(d).index.Keys)
  }

  ghost predicate SeatsOk(h: Hall) {
    && h.counts.bootstrappers <= h.bootstrappers.count
    && h.counts.reputables <= h.reputables.count
    && h.counts.endorsees <= h.endorsees.count
    && h.counts.newbies <= h.newbies.count
    && (h.meetups > 0 ==>
          Usable(h.coreParams) && Usable(h.endorsedParams) && Usable(h.newbieParams) && WithinTwicePrime(h))
  }

  // The inverse lookup finds at most two participants per residue.
  ghost predicate WithinTwicePrime(h: Hall) {
    && h.SizeOf(Core) <= 2 * h.coreParams.m
    && h.SizeOf(Endorsed) <= 2 * h.endorsedParams.m
    && h.SizeOf(Fresh) <= 2 * h.newbieParams.m
  }

  // ---------- seat allocation ----------

  datatype Seating = Seating(target: nat, minSize: nat, newbieDivider: nat)

  // The last two have no value in the code: an unchecked subtraction and a division.
  datatype SeatError = NoLocationsAvailable | CheckedMath | SeatsUnderflow | ZeroDivider

  ghost function MaxMeetups(h: Hall, locations: nat): nat {
    Min(locations, LargestPrime(h.bootstrappers.count + h.reputables.count))
  }

  ghost function Seats(cfg: Seating, h: Hall, locations: nat): nat {
    MaxMeetups(h, locations) * cfg.target
  }

  // Groups whose primes and products fit the integer types of the assignment.
  ghost predicate GroupsFit(h: Hall) {
    && h.bootstrappers.count + h.reputables.count <= GROUP_MAX
    && h.endorsees.count <= GROUP_MAX && h.newbies.count <= GROUP_MAX
  }

  ghost function Allowance(cfg: Seating, h: Hall, locations: nat): Result<AssignmentCount, SeatError> {
    var b, seats := h.bootstrappers.count, Seats(cfg, h, locations);
    if locations == 0 then Err(NoLocationsAvailable)
    else if seats > U64_MAX then Err(CheckedMath)
    else if b > seats then Err(SeatsUnderflow)
    else if cfg.newbieDivider == 0 then Err(ZeroDivider)
    else
      var r := Min(h.reputables.count, seats - b);
      var e := Min(h.endorsees.count, seats - b - r);
      CapNonnegative(b + r + e, cfg.newbieDivider);
      var n := Min(Min(h.newbies.count, seats - b - r - e), (b + r + e) / cfg.newbieDivider);
      Ok(AssignmentCount(b, r, e, n))
  }

  /** The unchecked subtraction cannot underflow while no more bootstrappers are registered
      than one meetup has seats. */
  lemma SeatsSuffice(cfg: Seating, h: Hall, locations: nat)
    requires h.bootstrappers.count <= cfg.target
    ensures Allowance(cfg, h, locations) != Err(SeatsUnderflow)
  {
    LargestPrimeIsLargest(h.bootstrappers.count + h.reputables.count);
    if locations > 0 {
      ProductMonotone(1, cfg.target, MaxMeetups(h, locations), cfg.target);
    }
  }

  // Assigned within registered and within the seats, by priority, with the newbie cap.
  ghost predicate FairAllowance(cfg: Seating, h: Hall, locations: nat, c: AssignmentCount) {
    var seats := Seats(cfg, h, locations);
    && c.bootstrappers == h.bootstrappers.count
    && c.reputables <= h.reputables.count
    && c.endorsees <= h.endorsees.count
    && c.newbies <= h.newbies.count
    && c.Total() <= seats
    // a group is cut short only when the groups before it have filled the seats
    && (c.reputables < h.reputables.count ==> c.bootstrappers + c.reputables == seats && c.Total() == seats)
    && (c.endorsees < h.endorsees.count ==> c.bootstrappers + c.reputables + c.endorsees == seats)
    && (c.newbies < h.newbies.count ==>
          c.Total() == seats || NewbieCap(cfg, c) < c.newbies + 1)
    && c.newbies <= NewbieCap(cfg, c)
  }

  ghost function NewbieCap(cfg: Seating, c: AssignmentCount): int {
    if cfg.newbieDivider > 0 then (c.bootstrappers + c.reputables + c.endorsees) / cfg.newbieDivider else 0
  }

  lemma CapNonnegative(x: nat, d: nat)
    requires d > 0
    ensures x / d >= 0
  {
    DivMonotone(0, x, d);
    DivModUnique(0, d, 0, 0);
  }

  method ComputeAssignmentAllowance(cfg: Seating, h: Hall, locations: nat)
    returns (result: Result<AssignmentCount, SeatError>)
    requires h.bootstrappers.count + h.reputables.count <= U64_MAX
    ensures result == Allowance(cfg, h, locations)
    ensures result.Ok? ==> FairAllowance(cfg, h, locations, result.value)
    ensures result.Err? <==> locations == 0 || Seats(cfg, h, locations) > U64_MAX ||
                             h.bootstrappers.count > Seats(cfg, h, locations) || cfg.newbieDivider == 0
  {
    if locations == 0 {
      return Err(NoLocationsAvailable);
    }
    var prime := FindPrimeBelow(h.bootstrappers.count + h.reputables.count);
    var maxMeetups := Min(locations, prime);
    var seats := maxMeetups * cfg.target;
    if seats > U64_MAX {
      return Err(CheckedMath);
    }
    if h.bootstrappers.count > seats {
      return Err(SeatsUnderflow);
    }
    if cfg.newbieDivider == 0 {
      return Err(ZeroDivider);
    }
    var seatsLeft := seats - h.bootstrappers.count;
    var reputables := Min(h.reputables.count, seatsLeft);
    seatsLeft := seatsLeft - reputables;
    var endorsees := Min(h.endorsees.count, seatsLeft);
    seatsLeft := seatsLeft - endorsees;
    var others := h.bootstrappers.count + reputables + endorsees;
    CapNonnegative(others, cfg.newbieDivider);
    var newbies := Min(Min(h.newbies.count, seatsLeft), others / cfg.newbieDivider);
    return Ok(AssignmentCount(h.bootstrappers.count, reputables, endorsees, newbies));
  }

  lemma AllowanceIsFair(cfg: Seating, h: Hall, locations: nat)
    requires Allowance(cfg, h, locations).Ok?
    ensures FairAllowance(cfg, h, locations, Allowance(cfg, h, locations).value)
  {
    var c := Allowance(cfg, h, locations).value;
    CapNonnegative(c.bootstrappers + c.reputables + c.endorsees, cfg.newbieDivider);
  }

  function CeilDiv(x: nat, d: nat): nat
    requires d > 0
  {
    CapNonnegative(x + d - 1, d);
    (x + d - 1) / d
  }

  lemma CeilDivBound(x: nat, d: nat, q: nat)
    requires d > 0 && x <= q * d
    ensures 0 <= CeilDiv(x, d) <= q
    ensures x > 0 ==> CeilDiv(x, d) > 0
  {
    assert q * d == d * q;
    DivMonotone(x + d - 1, d * q + (d - 1), d);
    DivModUnique(d * q + (d - 1), d, q, d - 1);
    CapNonnegative(x + d - 1, d);
    if x > 0 {
      DivMonotone(d, x + d - 1, d);
      DivModUnique(d, d, 1, 0);
    }
  }

  /** The number of meetups never exceeds the number of locations. */
  lemma MeetupsHaveLocations(cfg: Seating, h: Hall, locations: nat)
    requires cfg.target > 0 && Allowance(cfg, h, locations).Ok?
    ensures var total := Allowance(cfg, h, locations).value.Total();
            && 0 <= CeilDiv(total, cfg.target) <= locations
            && (total > 0 ==> CeilDiv(total, cfg.target) > 0)
  {
    AllowanceIsFair(cfg, h, locations);
    LargestPrimeIsLargest(h.bootstrappers.count + h.reputables.count);
    CeilDivBound(Allowance(cfg, h, locations).value.Total(), cfg.target, MaxMeetups(h, locations));
  }

  // The random group elements drawn for the three groups.
  datatype Draw = Draw(s1: nat, s2: nat)
  datatype SeatInput = SeatInput(locations: nat, core: Draw, endorsed: Draw, newbie: Draw)

  ghost predicate DrawOk(d: Draw, count: nat) {
    var m := LargestPrime(count);
    1 <= d.s1 < m && 1 <= d.s2 < m
  }

  // What the runtime environment guarantees when a community's seats are assigned.
  ghost predicate SeatInputOk(cfg: Seating, h: Hall, input: SeatInput) {
    && GroupsFit(h)
    && (Allowance(cfg, h, input.locations).Ok? ==>
          var c := Allowance(cfg, h, input.locations).value;
          && DrawOk(input.core, c.bootstrappers + c.reputables)
          && DrawOk(input.endorsed, c.endorsees)
          && DrawOk(input.newbie, c.newbies))
  }

  ghost function DrawnParams(d: Draw, count: nat): Params {
    Params(LargestPrime(count), d.s1, d.s2)
  }

  function WithSeats(h: Hall, c: AssignmentCount, core: Params, endorsed: Params, novice: Params, meetups: nat): Hall {
    h.(counts := c, coreParams := core, endorsedParams := endorsed, newbieParams := novice, meetups := meetups)
  }

  ghost function AssignSeats(cfg: Seating, h: Hall, input: SeatInput): Hall
    requires SeatInputOk(cfg, h, input)
  {
    match Allowance(cfg, h, input.locations)
    case Err(_) => h
    case Ok(c) =>
      // without a target size the number of meetups cannot be computed
      if cfg.target == 0 || c.Total() < cfg.minSize then h
      else
        WithSeats(h, c, DrawnParams(input.core, c.bootstrappers + c.reputables),
                  DrawnParams(input.endorsed, c.endorsees), DrawnParams(input.newbie, c.newbies),
                  CeilDiv(c.Total(), cfg.target))
  }

  lemma DrawnUsable(d: Draw, count: nat)
    requires DrawOk(d, count) && count <= GROUP_MAX
    ensures Usable(DrawnParams(d, count)) && count <= 2 * DrawnParams(d, count).m
  {
    TwicePrime(count);
    LargestPrimeIsLargest(count);
  }

  lemma AssignedSeatsOk(cfg: Seating, h: Hall, input: SeatInput)
    requires SeatInputOk(cfg, h, input) && SeatsOk(h)
    ensures SeatsOk(AssignSeats(cfg, h, input))
    ensures AssignSeats(cfg, h, input).meetups > 0 ==> h.meetups > 0 || input.locations > 0
  {
    var result := Allowance(cfg, h, input.locations);
    if result.Ok? && cfg.target > 0 && result.value.Total() >= cfg.minSize {
      var c := result.value;
      AllowanceIsFair(cfg, h, input.locations);
      DrawnUsable(input.core, c.bootstrappers + c.reputables);
      DrawnUsable(input.endorsed, c.endorsees);
      DrawnUsable(input.newbie, c.newbies);
    }
  }

  lemma AllowanceSmall(cfg: Seating, h: Hall, locations: nat)
    requires GroupsFit(h) && Allowance(cfg, h, locations).Ok?
    ensures var c := Allowance(cfg, h, locations).value;
            c.bootstrappers + c.reputables <= U64_MAX && c.endorsees <= U64_MAX && c.newbies <= U64_MAX
  {
    AllowanceIsFair(cfg, h, locations);
  }

  method DrawParams(d: Draw, count: nat) returns (params: Params)
    requires count <= U64_MAX
    ensures params == DrawnParams(d, count)
  {
    var prime := FindPrimeBelow(count);
    params := Params(prime, d.s1, d.s2);
  }

  // The hall once the allowance is known.
  method StoreSeats(cfg: Seating, h: Hall, input: SeatInput, c: AssignmentCount) returns (seated: Hall)
    requires cfg.target > 0
    requires c.bootstrappers + c.reputables <= U64_MAX && c.endorsees <= U64_MAX && c.newbies <= U64_MAX
    ensures seated == WithSeats(h, c, DrawnParams(input.core, c.bootstrappers + c.reputables),
                                DrawnParams(input.endorsed, c.endorsees), DrawnParams(input.newbie, c.newbies),
                                CeilDiv(c.Total(), cfg.target))
  {
    hide WithSeats, CeilDiv, DrawnParams;
    var core := DrawParams(input.core, c.bootstrappers + c.reputables);
    var endorsed := DrawParams(input.endorsed, c.endorsees);
    var novice := DrawParams(input.newbie, c.newbies);
    seated := WithSeats(h, c, core, endorsed, novice, CeilDiv(c.Total(), cfg.target));
  }

  lemma AssignSeatsCases(cfg: Seating, h: Hall, input: SeatInput)
    requires SeatInputOk(cfg, h, input)
    ensures var allowance := Allowance(cfg, h, input.locations);
            if allowance.Err? || cfg.target == 0 || allowance.value.Total() < cfg.minSize
            then AssignSeats(cfg, h, input) == h
            else
              var c := allowance.value;
              && c.bootstrappers + c.reputables <= U64_MAX && c.endorsees <= U64_MAX && c.newbies <= U64_MAX
              && AssignSeats(cfg, h, input) ==
                 WithSeats(h, c, DrawnParams(input.core, c.bootstrappers + c.reputables),
                           DrawnParams(input.endorsed, c.endorsees), DrawnParams(input.newbie, c.newbies),
                           CeilDiv(c.Total(), cfg.target))
  {
    hide LargestPrime, Allowance, CeilDiv, FairAllowance, Seats, MaxMeetups, NewbieCap, DrawOk, DrawnParams, WithSeats;
    if Allowance(cfg, h, input.locations).Ok? && cfg.target > 0 {
      AllowanceSmall(cfg, h, input.locations);
    }
  }

  method AssignMeetups(cfg: Seating, h: Hall, input: SeatInput) returns (seated: Hall)
    requires SeatInputOk(cfg, h, input)
    ensures seated == AssignSeats(cfg, h, input)
  {
    hide LargestPrime, Allowance, CeilDiv, FairAllowance, Seats, MaxMeetups, DrawOk, NewbieCap, DrawnParams, WithSeats,
         AssignSeats;
    AssignSeatsCases(cfg, h, input);
    var allowance := ComputeAssignmentAllowance(cfg, h, input.locations);
    if allowance.Err? || cfg.target == 0 || allowance.value.Total() < cfg.minSize {
      return h;
    }
    seated := StoreSeats(cfg, h, input, allowance.value);
  }

  // ---------- account to meetup ----------

  datatype Seat = Seat(group: Group, position: nat)

  // The 0-based position of an assigned participant within its group.
  function SeatOf(h: Hall, a: Account): Option<Seat> {
    match h.CategoryOf(a)
    case None => None
    case Some(Bootstrapper) => Within(Core, h.bootstrappers.index[a], h.counts.bootstrappers, 0)
    case Some(Reputable) => Within(Core, h.reputables.index[a], h.counts.reputables, h.counts.bootstrappers)
    case Some(Endorsee) => Within(Endorsed, h.endorsees.index[a], h.counts.endorsees, 0)
    case Some(Newbie) => Within(Fresh, h.newbies.index[a], h.counts.newbies, 0)
  }

  function Within(g: Group, index: nat, limit: nat, offset: nat): Option<Seat> {
    if 1 <= index <= limit then Some(Seat(g, index - 1 + offset)) else None
  }

  function MeetupOf(h: Hall, a: Account): Option<nat> {
    match SeatOf(h, a)
    case None => None
    case Some(seat) => MeetupIndex(seat.position, h.ParamsOf(seat.group), h.meetups)
  }

  // ---------- meetup to accounts ----------

  // The registered holder of a position; an absent entry is logged and skipped by the source.
  function Holder(h: Hall, g: Group, p: nat): seq<Account> {
    match g
    case Core =>
      if p < h.counts.bootstrappers then Entry(h.bootstrappers, p + 1)
      else if p < h.counts.bootstrappers + h.counts.reputables then
        Entry(h.reputables, p - h.counts.bootstrappers + 1)
      else []
    case Endorsed => if p < h.counts.endorsees then Entry(h.endorsees, p + 1) else []
    case Fresh => if p < h.counts.newbies then Entry(h.newbies, p + 1) else []
  }

  function Entry(r: Registry, i: nat): seq<Account> {
    if i in r.entries then [r.entries[i]] else []
  }

  function Holders(h: Hall, g: Group, ps: seq<nat>): seq<Account> {
    if ps == [] then [] else Holders(h, g, ps[..|ps| - 1]) + Holder(h, g, ps[|ps| - 1])
  }

  function GroupAt(h: Hall, g: Group, k: nat): seq<Account> {
    if h.ParamsOf(g).m == 0 then []
    else Holders(h, g, Inverse(k, h.ParamsOf(g), h.meetups, h.SizeOf(g)))
  }

  // The participants of the 1-based meetup k, or none for an invalid index.
  function ParticipantsOf(h: Hall, k: nat): Option<seq<Account>>
  {
    if k > h.meetups || k < 1 then None
    else Some(GroupAt(h, Core, k - 1) + GroupAt(h, Endorsed, k - 1) + GroupAt(h, Fresh, k - 1))
  }

  method CollectHolders(h: Hall, g: Group, seats: seq<nat>) returns (accounts: seq<Account>)
    ensures accounts == Holders(h, g, seats)
  {
    accounts := [];
    for i := 0 to |seats|
      invariant accounts == Holders(h, g, seats[..i])
    {
      assert seats[..i + 1][..i] == seats[..i];
      accounts := accounts + Holder(h, g, seats[i]);
    }
    assert seats[..|seats|] == seats;
  }

  method CollectGroup(h: Hall, g: Group, k: nat) returns (accounts: seq<Account>)
    requires Usable(h.ParamsOf(g))
    ensures accounts == GroupAt(h, g, k)
  {
    var seats := AssignmentFnInverse(k, h.ParamsOf(g), h.meetups, h.SizeOf(g));
    accounts := CollectHolders(h, g, seats);
  }

  method GetMeetupParticipants(h: Hall, k: nat) returns (result: Option<seq<Account>>)
    requires SeatsOk(h)
    ensures result == ParticipantsOf(h, k)
  {
    hide Assignment.Inverse, Holders;
    if k > h.meetups || k < 1 {
      return None;
    }
    var core := CollectGroup(h, Core, k - 1);
    var endorsed := CollectGroup(h, Endorsed, k - 1);
    var novices := CollectGroup(h, Fresh, k - 1);
    return Some(core + endorsed + novices);
  }

  // ---------- the two lookups agree ----------

  lemma HolderIsSeated(h: Hall, g: Group, p: nat)
    requires RegistriesOk(h) && SeatsOk(h) && p < h.SizeOf(g)
    ensures |Holder(h, g, p)| == 1 && SeatOf(h, Holder(h, g, p)[0]) == Some(Seat(g, p))
  {
    assert Contiguous(h.RegistryOf(Bootstrapper)) && Contiguous(h.RegistryOf(Reputable));
    assert Contiguous(h.RegistryOf(Endorsee)) && Contiguous(h.RegistryOf(Newbie));
    assert h.RegistryOf(Bootstrapper).index.Keys !! h.RegistryOf(Reputable).index.Keys;
    assert h.RegistryOf(Bootstrapper).index.Keys !! h.RegistryOf(Endorsee).index.Keys;
    assert h.RegistryOf(Bootstrapper).index.Keys !! h.RegistryOf(Newbie).index.Keys;
    assert h.RegistryOf(Reputable).index.Keys !! h.RegistryOf(Endorsee).index.Keys;
    assert h.RegistryOf(Reputable).index.Keys !! h.RegistryOf(Newbie).index.Keys;
    assert h.RegistryOf(Endorsee).index.Keys !! h.RegistryOf(Newbie).index.Keys;
  }

  lemma SeatedIsHolder(h: Hall, a: Account)
    requires RegistriesOk(h) && SeatsOk(h) && SeatOf(h, a).Some?
    ensures var seat := SeatOf(h, a).value;
            seat.position < h.SizeOf(seat.group) && Holder(h, seat.group, seat.position) == [a]
  {
    assert Contiguous(h.RegistryOf(Bootstrapper)) && Contiguous(h.RegistryOf(Reputable));
    assert Contiguous(h.RegistryOf(Endorsee)) && Contiguous(h.RegistryOf(Newbie));
  }

  // Distinct positions have distinct holders, and the list holds exactly their holders.
  lemma {:induction false} HoldersExact(h: Hall, g: Group, ps: seq<nat>)
    requires RegistriesOk(h) && SeatsOk(h)
    requires NoDuplicates(ps) && forall p :: p in ps ==> p < h.SizeOf(g)
    ensures NoDuplicates(Holders(h, g, ps))
    ensures forall a :: a in Holders(h, g, ps) <==>
              SeatOf(h, a).Some? && SeatOf(h, a).value.group == g && SeatOf(h, a).value.position in ps
  {
    if ps != [] {
      var front, p := ps[..|ps| - 1], ps[|ps| - 1];
      assert ps == front + [p];
      assert p in ps && forall q :: q in front ==> q in ps;
      HoldersExact(h, g, front);
      HolderIsSeated(h, g, p);
      var a := Holder(h, g, p)[0];
      forall b | SeatOf(h, b) == Some(Seat(g, p)) ensures b == a {
        SeatedIsHolder(h, b);
      }
    }
  }

  lemma GroupExact(h: Hall, g: Group, k: nat)
    requires RegistriesOk(h) && SeatsOk(h) && k < h.meetups
    ensures Lists(h, g, k + 1, GroupAt(h, g, k))
  {
    var params, size := h.ParamsOf(g), h.SizeOf(g);
    assert Usable(params);
    var ps := Inverse(k, params, h.meetups, size);
    SeatsFromSound(k, params, h.meetups, size, 0);
    HoldersExact(h, g, ps);
    if size <= 2 * params.m {
      forall a | InGroup(h, g, k + 1, a) ensures a in GroupAt(h, g, k) {
        SeatedIsHolder(h, a);
        SeatFound(k, params, h.meetups, size, SeatOf(h, a).value.position);
      }
    }
  }

  /** Meetup lookup round trip: an account is listed for a meetup, once, exactly if it is
      looked up to that meetup. */
  lemma LookupRoundTrip(h: Hall, k: nat)
    requires RegistriesOk(h) && SeatsOk(h) && 1 <= k <= h.meetups
    ensures ParticipantsOf(h, k).Some? && NoDuplicates(ParticipantsOf(h, k).value)
    ensures forall a :: a in ParticipantsOf(h, k).value <==> MeetupOf(h, a) == Some(k)
  {
    hide Assignment.Inverse, MeetupOf, Holders;
    GroupExact(h, Core, k - 1);
    GroupExact(h, Endorsed, k - 1);
    GroupExact(h, Fresh, k - 1);
    JoinGroups(h, k, GroupAt(h, Core, k - 1), GroupAt(h, Endorsed, k - 1), GroupAt(h, Fresh, k - 1));
  }

  // A list with the participants of one group at meetup k, complete if the group fits.
  ghost predicate Lists(h: Hall, g: Group, k: nat, accounts: seq<Account>) {
    && NoDuplicates(accounts)
    && (forall a :: a in accounts ==> InGroup(h, g, k, a))
    && (h.SizeOf(g) <= 2 * h.ParamsOf(g).m ==> forall a :: InGroup(h, g, k, a) ==> a in accounts)
  }

  ghost predicate InGroup(h: Hall, g: Group, k: nat, a: Account) {
    SeatOf(h, a).Some? && SeatOf(h, a).value.group == g && MeetupOf(h, a) == Some(k)
  }

  lemma JoinGroups(h: Hall, k: nat, c: seq<Account>, e: seq<Account>, f: seq<Account>)
    requires Lists(h, Core, k, c) && Lists(h, Endorsed, k, e) && Lists(h, Fresh, k, f)
    ensures NoDuplicates(c + e + f)
    ensures forall a :: a in c + e + f ==> MeetupOf(h, a) == Some(k)
    ensures WithinTwicePrime(h) ==> forall a :: a in c + e + f <==> MeetupOf(h, a) == Some(k)
  {
    AppendDistinct(c, e);
    AppendDistinct(c + e, f);
    forall a | MeetupOf(h, a) == Some(k) ensures exists g: Group :: InGroup(h, g, k, a) {
      assert InGroup(h, SeatOf(h, a).value.group, k, a);
    }
    forall a | MeetupOf(h, a) == Some(k) && WithinTwicePrime(h) ensures a in c + e + f {
      var g: Group :| InGroup(h, g, k, a);
      match g {
        case Core => assert a in c;
        case Endorsed => assert a in e;
        case Fresh => assert a in f;
      }
    }
  }

  /** No participant is listed for two meetups. */
  lemma MeetupsDisjoint(h: Hall, k: nat, l: nat, a: Account)
    requires RegistriesOk(h) && SeatsOk(h) && 1 <= k <= h.meetups && 1 <= l <= h.meetups
    requires a in ParticipantsOf(h, k).value && a in ParticipantsOf(h, l).value
    ensures k == l
  {
    LookupRoundTrip(h, k);
    LookupRoundTrip(h, l);
  }
}
