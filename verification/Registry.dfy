/**
 The index/registry/count triple that holds one participant category of one ceremony,
 with the swap-removal that keeps the indices contiguous.
 */
module ParticipantRegistry {
  import opened Primitives

  datatype Registry = Registry(entries: map<nat, Account>, index: map<Account, nat>, count: nat)

  const EMPTY := Registry(map[], map[], 0)

  // Registry keys are exactly 1..count, and index and registry are mutual inverses.
  ghost predicate Contiguous(r: Registry) {
    && (forall k :: k in r.entries <==> 1 <= k <= r.count)
    && (forall a :: a in r.index ==> r.index[a] in r.entries && r.entries[r.index[a]] == a)
    && (forall k :: k in r.entries ==> r.entries[k] in r.index && r.index[r.entries[k]] == k)
  }

  // The new participant takes the position behind the last one.
  function Append(r: Registry, a: Account): (r': Registry) {
    Registry(r.entries[r.count + 1 := a], r.index[a := r.count + 1], r.count + 1)
  }

  // An absent index reads as 0.
  function IndexOf(r: Registry, a: Account): nat {
    if a in r.index then r.index[a] else 0
  }

  // Moves the last participant into the freed position.
  function SwapRemove(r: Registry, a: Account): Registry {
    if r.count !in r.entries then r
    else
      var i := IndexOf(r, a);
      var last := r.entries[r.count];
      Registry(r.entries[i := last] - {r.count}, r.index[last := i] - {a}, SatSub(r.count, 1))
  }

  lemma AppendKeepsContiguous(r: Registry, a: Account)
    requires Contiguous(r)
    ensures Contiguous(Append(r, a)) <==> a !in r.index
    ensures Append(r, a).index.Keys == r.index.Keys + {a}
  {
    if a in r.index {
      assert r.index[a] != r.count + 1;
      assert r.index[a] in Append(r, a).entries;
    }
  }

  /** Removing is safe exactly for members (or on an empty registry): a stranger reads as
      index 0, so its removal files the last participant under position 0. */
  lemma SwapRemoveKeepsContiguous(r: Registry, a: Account)
    requires Contiguous(r)
    ensures Contiguous(SwapRemove(r, a)) <==> (a in r.index || r.count == 0)
    ensures a in r.index ==>
              && SwapRemove(r, a).index.Keys == r.index.Keys - {a}
              && SwapRemove(r, a).count == r.count - 1
    ensures a in r.index ==>
              forall b :: b in r.index && b != a && r.index[b] != r.count ==>
                SwapRemove(r, a).index[b] == r.index[b]
  {
    if r.count in r.entries && a !in r.index {
      var last := r.entries[r.count];
      assert SwapRemove(r, a).entries[0] == last;
    }
  }

  /** Registering and then unregistering an account leaves no trace. */
  lemma AppendThenRemove(r: Registry, a: Account)
    requires Contiguous(r) && a !in r.index
    ensures SwapRemove(Append(r, a), a) == r
  {
    var s := Append(r, a);
    assert s.entries[s.count] == a && IndexOf(s, a) == s.count;
    assert s.entries[s.count := a] - {s.count} == r.entries;
    assert s.index[a := s.count] - {a} == r.index;
  }

  // A contiguous registry holds exactly count accounts.
  lemma {:induction false} CountIsMembers(r: Registry)
    requires Contiguous(r)
    ensures |r.index| == r.count
    decreases r.count
  {
    if r.count == 0 {
      assert r.index.Keys == {};
    } else {
      var a := r.entries[r.count];
      SwapRemoveKeepsContiguous(r, a);
      CountIsMembers(SwapRemove(r, a));
      assert r.index.Keys == SwapRemove(r, a).index.Keys + {a};
    }
  }

  /** The three storage items of one category, updated in place. */
  class Storage {
    var entries: map<nat, Account>
    var index: map<Account, nat>
    var count: nat

    ghost function Contents(): Registry
      reads this
    {
      Registry(entries, index, count)
    }

    constructor ()
      ensures Contents() == EMPTY && Contiguous(Contents())
    {
      entries, index, count := map[], map[], 0;
    }

    method Push(a: Account) returns (result: Result<nat, ()>)
      modifies this
      ensures result.Ok? <==> old(count) < U64_MAX
      ensures result.Ok? ==> Contents() == Append(old(Contents()), a) && result.value == count
      ensures result.Err? ==> Contents() == old(Contents())
      ensures result.Ok? && old(Contiguous(Contents())) && a !in old(index) ==> Contiguous(Contents())
    {
      if count >= U64_MAX {
        return Err(());
      }
      var position := count + 1;
      if Contiguous(Contents()) {
        AppendKeepsContiguous(Contents(), a);
      }
      entries := entries[position := a];
      index := index[a := position];
      count := position;
      return Ok(position);
    }

    method Remove(a: Account)
      modifies this
      ensures Contents() == SwapRemove(old(Contents()), a)
      ensures old(Contiguous(Contents())) && a in old(index) ==>
                Contiguous(Contents()) && index.Keys == old(index.Keys) - {a}
    {
      if Contiguous(Contents()) {
        SwapRemoveKeepsContiguous(Contents(), a);
      }
      var position := if a in index then index[a] else 0;
      if count in entries {
        var last := entries[count];
        entries := entries[position := last];
        index := index[last := position];
        entries := entries - {count};
        index := index - {a};
        count := SatSub(count, 1);
      }
    }
  }
}
