/**
 The multi-block reputation-ring computation: five collection steps, one sorting step and
 five building steps, driven by calls or by the idle hook.
 */
module Rings {
  import opened Primitives
  import opened EvenSplit

  // Bandersnatch public keys, compared as byte strings.
  type Key = nat

  const LEVELS: nat := 5
  const U8_MAX: nat := 255

  datatype RingPhase = CollectingMembers(offset: nat) | BuildingRing(level: nat) | Done

  datatype Attendee = Attendee(account: Account, count: nat)

  datatype Computation = Computation(community: Cid, cindex: nat, phase: RingPhase, attendance: seq<Attendee>)

  // The registered keys, and who is verified at which community ceremony.
  datatype World = World(keys: map<Account, Key>, verified: (CommunityCeremony, Account) -> bool)

  // ---------- what a ring should contain ----------

  predicate Attended(w: World, cid: Cid, cindex: nat, offset: nat, a: Account) {
    cindex > offset && w.verified(CC(cid, cindex - offset), a)
  }

  // In how many of the last n ceremonies the account was verified.
  function Attendances(w: World, cid: Cid, cindex: nat, n: nat, a: Account): nat {
    if n == 0 then 0
    else Attendances(w, cid, cindex, n - 1, a) + if Attended(w, cid, cindex, n - 1, a) then 1 else 0
  }

  // The accounts with a key that attended at least level of the last five ceremonies.
  ghost function Members(w: World, cid: Cid, cindex: nat, level: nat): set<Account> {
    set a | a in w.keys && Attendances(w, cid, cindex, LEVELS, a) >= level
  }

  ghost function KeyBag(w: World, accounts: set<Account>): multiset<Key>
    requires accounts <= w.keys.Keys
  {
    if accounts == {} then multiset{}
    else var a :| a in accounts; multiset{w.keys[a]} + KeyBag(w, accounts - {a})
  }

  lemma {:induction false} KeyBagPick(w: World, accounts: set<Account>, a: Account)
    requires accounts <= w.keys.Keys && a in accounts
    ensures KeyBag(w, accounts) == multiset{w.keys[a]} + KeyBag(w, accounts - {a})
  {
    var b :| b in accounts && KeyBag(w, accounts) == multiset{w.keys[b]} + KeyBag(w, accounts - {b});
    if a != b {
      KeyBagPick(w, accounts - {b}, a);
      KeyBagPick(w, accounts - {a}, b);
      assert accounts - {b} - {a} == accounts - {a} - {b};
    }
  }

  lemma {:induction false} KeyBagMonotone(w: World, small: set<Account>, large: set<Account>)
    requires small <= large <= w.keys.Keys
    ensures KeyBag(w, small) <= KeyBag(w, large)
  {
    if small != {} {
      var a :| a in small;
      KeyBagPick(w, small, a);
      KeyBagPick(w, large, a);
      KeyBagMonotone(w, small - {a}, large - {a});
    }
  }

  /** A stricter ring is contained in every looser one. */
  lemma LevelsNested(w: World, cid: Cid, cindex: nat, level: nat)
    ensures Members(w, cid, cindex, level + 1) <= Members(w, cid, cindex, level)
    ensures KeyBag(w, Members(w, cid, cindex, level + 1)) <= KeyBag(w, Members(w, cid, cindex, level))
  {
    KeyBagMonotone(w, Members(w, cid, cindex, level + 1), Members(w, cid, cindex, level));
  }

  // ---------- attendance lists ----------

  ghost predicate Unique(s: seq<Attendee>) {
    forall i, j :: 0 <= i < j < |s| ==> s[i].account != s[j].account
  }

  ghost predicate Listed(s: seq<Attendee>, a: Account) {
    exists i :: 0 <= i < |s| && s[i].account == a
  }

  // The list holds exactly the accounts with a positive number of attendances so far.
  ghost predicate Counts(s: seq<Attendee>, count: Account -> nat) {
    && Unique(s)
    && (forall i :: 0 <= i < |s| ==> s[i].count == count(s[i].account) && s[i].count > 0)
    && (forall a :: count(a) > 0 ==> Listed(s, a))
  }

  function Seen(w: World, cid: Cid, cindex: nat, n: nat): Account -> nat {
    (a: Account) => if a in w.keys then Attendances(w, cid, cindex, n, a) else 0
  }

  // The counts once the verified ones among the visited accounts gained one.
  function Gained(count: Account -> nat, w: World, cc: CommunityCeremony, visited: set<Account>): Account -> nat {
    (a: Account) => count(a) + if a in visited && w.verified(cc, a) then 1 else 0
  }

  lemma {:induction false} AttendancesBound(w: World, cid: Cid, cindex: nat, n: nat, a: Account)
    ensures Attendances(w, cid, cindex, n, a) <= n
  {
    if n > 0 {
      AttendancesBound(w, cid, cindex, n - 1, a);
    }
  }

  method FindAttendee(s: seq<Attendee>, a: Account) returns (position: Option<nat>)
    ensures position.Some? ==> position.value < |s| && s[position.value].account == a
    ensures position.None? ==> !Listed(s, a)
  {
    for i := 0 to |s|
      invariant forall j :: 0 <= j < i ==> s[j].account != a
    {
      if s[i].account == a {
        return Some(i);
      }
    }
    return None;
  }

  // The storage iteration visits every key once, in an order of its own.
  ghost predicate Enumerates(order: seq<Account>, w: World) {
    NoDuplicates(order) && forall a :: a in order <==> a in w.keys
  }

  lemma BumpCounts(s: seq<Attendee>, i: nat, count: Account -> nat, count': Account -> nat)
    requires Counts(s, count) && i < |s|
    requires forall a :: count'(a) == count(a) + if a == s[i].account then 1 else 0
    ensures Counts(s[i := s[i].(count := s[i].count + 1)], count')
  {
    var t := s[i := s[i].(count := s[i].count + 1)];
    forall a | count'(a) > 0 ensures Listed(t, a) {
      var j :| 0 <= j < |s| && s[j].account == a;
      assert t[j].account == a;
    }
  }

  lemma PushCounts(s: seq<Attendee>, a: Account, count: Account -> nat, count': Account -> nat)
    requires Counts(s, count) && !Listed(s, a)
    requires forall b :: count'(b) == count(b) + if b == a then 1 else 0
    ensures Counts(s + [Attendee(a, 1)], count')
  {
    var t := s + [Attendee(a, 1)];
    assert count(a) == 0;
    forall b | count'(b) > 0 ensures Listed(t, b) {
      if b == a {
        assert t[|s|].account == a;
      } else {
        var j :| 0 <= j < |s| && s[j].account == b;
        assert t[j].account == b;
      }
    }
  }

  lemma SameCounts(s: seq<Attendee>, count: Account -> nat, count': Account -> nat)
    requires Counts(s, count) && forall a :: count'(a) == count(a)
    ensures Counts(s, count')
  {
  }

  // Counts one verified key holder that has not been looked at yet.
  method CountAccount(w: World, cc: CommunityCeremony, attendance: seq<Attendee>, account: Account,
                      ghost count: Account -> nat, ghost visited: set<Account>) returns (updated: seq<Attendee>)
    requires w.verified(cc, account) && account !in visited && count(account) < U8_MAX
    requires Counts(attendance, Gained(count, w, cc, visited))
    ensures Counts(updated, Gained(count, w, cc, visited + {account}))
  {
    hide Counts;
    ghost var before := Gained(count, w, cc, visited);
    ghost var after := Gained(count, w, cc, visited + {account});
    var position := FindAttendee(attendance, account);
    match position {
      case Some(p) =>
        BumpCounts(attendance, p, before, after);
        CountAt(attendance, p, before);
        updated := attendance[p := Attendee(account, Min(attendance[p].count + 1, U8_MAX))];
      case None =>
        PushCounts(attendance, account, before, after);
        updated := attendance + [Attendee(account, 1)];
    }
  }

  lemma CountAt(s: seq<Attendee>, i: nat, count: Account -> nat)
    requires Counts(s, count) && i < |s|
    ensures s[i].count == count(s[i].account)
  {
  }

  // Scans one past ceremony: every verified key holder gains one attendance.
  method ScanCeremony(w: World, cc: CommunityCeremony, attendance: seq<Attendee>, order: seq<Account>,
                      ghost count: Account -> nat) returns (updated: seq<Attendee>)
    requires Enumerates(order, w) && Counts(attendance, count) && forall a :: count(a) < U8_MAX
    ensures Counts(updated, Gained(count, w, cc, w.keys.Keys))
  {
    hide Counts;
    updated := attendance;
    SameCounts(updated, count, Gained(count, w, cc, {}));
    ghost var visited: set<Account> := {};
    for i := 0 to |order|
      invariant visited == set j | 0 <= j < i :: order[j]
      invariant Counts(updated, Gained(count, w, cc, visited))
    {
      var account := order[i];
      assert account !in visited;
      if w.verified(cc, account) {
        updated := CountAccount(w, cc, updated, account, count, visited);
      } else {
        SameCounts(updated, Gained(count, w, cc, visited), Gained(count, w, cc, visited + {account}));
      }
      visited := visited + {account};
    }
    assert forall a :: a in order <==> a in visited;
    assert visited == w.keys.Keys;
  }

  // ---------- sorting ----------

  ghost predicate SortedBy<T>(s: seq<T>, rank: T -> nat) {
    forall i, j :: 0 <= i < j < |s| ==> rank(s[i]) <= rank(s[j])
  }

  function Insert<T>(x: T, s: seq<T>, rank: T -> nat): (t: seq<T>)
    ensures multiset(t) == multiset{x} + multiset(s)
  {
    if s == [] then [x]
    else if rank(x) <= rank(s[0]) then [x] + s
    else
      assert s == [s[0]] + s[1..];
      [s[0]] + Insert(x, s[1..], rank)
  }

  lemma {:induction false} InsertSorted<T>(x: T, s: seq<T>, rank: T -> nat)
    requires SortedBy(s, rank)
    ensures SortedBy(Insert(x, s, rank), rank)
  {
    if s != [] && rank(x) > rank(s[0]) {
      var rest := Insert(x, s[1..], rank);
      InsertSorted(x, s[1..], rank);
      forall i | 0 <= i < |rest| ensures rank(s[0]) <= rank(rest[i]) {
        assert rest[i] in multiset{x} + multiset(s[1..]);
        if rest[i] != x {
          assert rest[i] in s[1..];
        }
      }
    }
  }

  // The library sort: stable, and a permutation.
  function Sort<T>(s: seq<T>, rank: T -> nat): (t: seq<T>)
    ensures multiset(t) == multiset(s)
  {
    if s == [] then []
    else
      assert s == [s[0]] + s[1..];
      Insert(s[0], Sort(s[1..], rank), rank)
  }

  lemma {:induction false} SortSorts<T>(s: seq<T>, rank: T -> nat)
    ensures SortedBy(Sort(s, rank), rank)
  {
    if s != [] {
      SortSorts(s[1..], rank);
      InsertSorted(s[0], Sort(s[1..], rank), rank);
    }
  }

  const KEY_ORDER: Key -> nat := (k: Key) => k
  const ACCOUNT_ORDER: Attendee -> nat := (x: Attendee) => x.account

  lemma HeadIsLeast(s: seq<Key>, t: seq<Key>)
    requires SortedBy(t, KEY_ORDER) && multiset(s) == multiset(t) && s != [] && t != []
    ensures KEY_ORDER(t[0]) <= KEY_ORDER(s[0])
  {
    assert s[0] in multiset(s);
    assert s[0] in t;
  }

  lemma TailBag(s: seq<Key>)
    requires s != []
    ensures multiset(s[1..]) == multiset(s) - multiset{s[0]}
  {
    assert s == [s[0]] + s[1..];
  }

  lemma HeadsAgree(s: seq<Key>, t: seq<Key>)
    requires SortedBy(s, KEY_ORDER) && SortedBy(t, KEY_ORDER) && multiset(s) == multiset(t) && s != [] && t != []
    ensures s[0] == t[0] && multiset(s[1..]) == multiset(t[1..])
  {
    HeadIsLeast(s, t);
    HeadIsLeast(t, s);
    TailBag(s);
    TailBag(t);
  }

  /** A sorted list of keys is determined by its multiset. */
  lemma {:induction false} SortedUnique(s: seq<Key>, t: seq<Key>)
    requires SortedBy(s, KEY_ORDER) && SortedBy(t, KEY_ORDER) && multiset(s) == multiset(t)
    ensures s == t
  {
    assert |s| == |multiset(s)| && |t| == |multiset(t)|;
    if s != [] {
      HeadsAgree(s, t);
      SortedUnique(s[1..], t[1..]);
      assert s == [s[0]] + s[1..] && t == [t[0]] + t[1..];
    }
  }

  lemma ReorderedCounts(s: seq<Attendee>, t: seq<Attendee>, count: Account -> nat)
    requires Counts(s, count) && multiset(s) == multiset(t)
    ensures Counts(t, count)
  {
    forall i | 0 <= i < |t| ensures t[i] in s {
      assert t[i] in multiset(t);
    }
    forall a | count(a) > 0 ensures Listed(t, a) {
      var j :| 0 <= j < |s| && s[j].account == a;
      assert s[j] in multiset(t);
      var i :| 0 <= i < |t| && t[i] == s[j];
    }
    forall i, j | 0 <= i < j < |t| && t[i].account == t[j].account ensures false {
      assert t[i] == t[j];
      TwiceMeansTwice(t, i, j);
      OnceMeansOnce(s, t[i]);
    }
  }

  lemma TwiceMeansTwice(t: seq<Attendee>, i: nat, j: nat)
    requires i < j < |t| && t[i] == t[j]
    ensures multiset(t)[t[i]] >= 2
  {
    assert t == t[..j] + [t[j]] + t[j + 1..];
    assert t[i] in multiset(t[..j]) by { assert t[..j][i] == t[i]; }
  }

  lemma {:induction false} OnceMeansOnce(s: seq<Attendee>, x: Attendee)
    requires Unique(s)
    ensures multiset(s)[x] <= 1
  {
    if s != [] {
      var front, last := s[..|s| - 1], s[|s| - 1];
      assert s == front + [last];
      OnceMeansOnce(front, x);
      assert x == last ==> x !in front;
    }
  }

  // ---------- collecting the keys of one level ----------

  method CollectKeys(w: World, attendance: seq<Attendee>, level: nat) returns (keys: seq<Key>)
    requires Unique(attendance)
    ensures multiset(keys) == KeyBag(w, Qualified(w, attendance, level))
  {
    keys := [];
    assert Qualified(w, attendance[..0], level) == {};
    for i := 0 to |attendance|
      invariant multiset(keys) == KeyBag(w, Qualified(w, attendance[..i], level))
    {
      var entry := attendance[i];
      QualifiedStep(w, attendance, level, i);
      if entry.count >= level && entry.account in w.keys {
        KeyBagPick(w, Qualified(w, attendance[..i + 1], level), entry.account);
        keys := keys + [w.keys[entry.account]];
      }
    }
    assert attendance[..|attendance|] == attendance;
  }

  ghost function Qualified(w: World, s: seq<Attendee>, level: nat): set<Account> {
    set i | 0 <= i < |s| && s[i].count >= level && s[i].account in w.keys :: s[i].account
  }

  lemma QualifiedStep(w: World, s: seq<Attendee>, level: nat, i: nat)
    requires Unique(s) && i < |s|
    ensures var front, all := Qualified(w, s[..i], level), Qualified(w, s[..i + 1], level);
            if s[i].count >= level && s[i].account in w.keys
            then all - {s[i].account} == front && s[i].account in all
            else all == front
  {
    var front, all := Qualified(w, s[..i], level), Qualified(w, s[..i + 1], level);
    assert s[..i + 1] == s[..i] + [s[i]];
    forall a | a in front ensures a in all && a != s[i].account {
      var j :| 0 <= j < i && s[..i][j].account == a && s[..i][j].count >= level;
      assert s[..i + 1][j] == s[..i][j] && s[j].account == a;
    }
    if s[i].count >= level && s[i].account in w.keys {
      assert s[..i + 1][i].account in all;
    }
    forall a | a in all && a != s[i].account ensures a in front {
      var j :| 0 <= j < i + 1 && s[..i + 1][j].account == a && s[..i + 1][j].count >= level;
      assert s[..i][j] == s[..i + 1][j];
    }
  }

  // With the counts complete, the qualified accounts are the members.
  lemma QualifiedAreMembers(w: World, cid: Cid, cindex: nat, s: seq<Attendee>, level: nat)
    requires Counts(s, Seen(w, cid, cindex, LEVELS)) && level >= 1
    ensures Qualified(w, s, level) == Members(w, cid, cindex, level)
  {
    var count := Seen(w, cid, cindex, LEVELS);
    forall a | a in Members(w, cid, cindex, level) ensures a in Qualified(w, s, level) {
      assert count(a) > 0;
      var i :| 0 <= i < |s| && s[i].account == a;
      assert s[i].count == count(a);
    }
    forall a | a in Qualified(w, s, level) ensures a in Members(w, cid, cindex, level) {
      var i :| 0 <= i < |s| && s[i].account == a && s[i].count >= level;
      assert s[i].count == count(a);
    }
  }
}
