/** Types shared by the pallet models. */
module Primitives {

  // Accounts and community identifiers are ordered, comparable keys in the runtime.
  type Account = nat
  type Cid = nat
  type Moment = nat

  const U32_MAX: nat := 0xFFFF_FFFF
  const U64_MAX: nat := 0xFFFF_FFFF_FFFF_FFFF
  const I64_MAX: nat := 0x7FFF_FFFF_FFFF_FFFF
  const U128_MAX: nat := 0xFFFF_FFFF_FFFF_FFFF_FFFF_FFFF_FFFF_FFFF

  datatype Option<+T> = None | Some(value: T)

  // A dispatchable either yields its result or an error; an error rolls the storage back.
  datatype Result<+T, +E> = Ok(value: T) | Err(error: E)

  datatype Phase = Registering | Assigning | Attesting

  // A community ceremony: one community's ceremony at one ceremony index.
  datatype CommunityCeremony = CC(cid: Cid, cindex: nat)

  datatype Reputation =
    | Unverified
    | UnverifiedReputable
    | VerifiedUnlinked
    | VerifiedLinked(linkedTo: nat)
  {
    predicate IsVerified() {
      VerifiedUnlinked? || VerifiedLinked?
    }

    predicate IsVerifiedAndUnlinkedFor(cindex: nat) {
      match this
      case VerifiedUnlinked => true
      case VerifiedLinked(c) => c != cindex
      case _ => false
    }
  }

  function Min(a: int, b: int): int {
    if a <= b then a else b
  }

  function Max(a: int, b: int): int {
    if a <= b then b else a
  }

  function SatSub(a: nat, b: nat): nat {
    if b <= a then a - b else 0
  }

  predicate NoDuplicates<T(==)>(s: seq<T>) {
    forall i, j :: 0 <= i < j < |s| ==> s[i] != s[j]
  }

  lemma AppendDistinct<T>(s: seq<T>, t: seq<T>)
    requires NoDuplicates(s) && NoDuplicates(t) && forall x :: x in s ==> x !in t
    ensures NoDuplicates(s + t)
  {
    forall i, j | 0 <= i < j < |s + t| ensures (s + t)[i] != (s + t)[j] {
      if i < |s| <= j {
        assert s[i] in s && t[j - |s|] in t;
      }
    }
  }

  lemma {:induction false} DistinctOnce<T>(s: seq<T>, x: T)
    requires NoDuplicates(s)
    ensures multiset(s)[x] == if x in s then 1 else 0
  {
    if s != [] {
      var t, last := s[..|s| - 1], s[|s| - 1];
      assert s == t + [last] && last !in t;
      DistinctOnce(t, x);
    }
  }

  // The list of communities with one of them removed.
  function Without(cids: seq<Cid>, cid: Cid): (rest: seq<Cid>)
    ensures forall c :: c in rest <==> c in cids && c != cid
  {
    if cids == [] then []
    else
      assert cids == [cids[0]] + cids[1..];
      (if cids[0] == cid then [] else [cids[0]]) + Without(cids[1..], cid)
  }
}
