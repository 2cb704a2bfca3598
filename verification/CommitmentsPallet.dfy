/**
 The storage of the reputation-commitments pallet, updated in place. Each method is tied
 to the function of module Governance that specifies it.
 */
module CommitmentsPallet {
  import opened Primitives
  import opened Hall
  import opened Ceremonies
  import opened Governance

  class Pallet {
    var currentPurposeId: nat
    var purposes: map<nat, nat>
    var commitments: map<Commitment, Option<nat>>

    function View(): CommitmentRegistry
      reads this
    {
      CommitmentRegistry(currentPurposeId, purposes, commitments)
    }

    // Purpose ids are handed out consecutively, and every commitment is for a registered purpose.
    ghost predicate Valid()
      reads this
    {
      && (forall id: nat :: id in purposes <==> id < currentPurposeId)
      && (forall k :: k in commitments ==> k.purpose in purposes)
    }

    constructor ()
      ensures Valid()
      ensures View() == CommitmentRegistry(0, map[], map[])
    {
      currentPurposeId, purposes, commitments := 0, map[], map[];
    }

    method DoRegisterPurpose(descriptor: nat) returns (result: Result<nat, Governance.Error>)
      modifies this
      ensures match RegisterPurpose(old(View()), descriptor) {
                case Ok((registry, id)) => result == Ok(id) && View() == registry
                case Err(e) => result == Err(e) && View() == old(View())
              }
      // a new purpose is nobody else's, and nothing is committed to it yet
      ensures old(Valid()) ==> Valid()
      ensures old(Valid()) && result.Ok? ==>
                && result.value !in old(purposes) && purposes.Keys == old(purposes.Keys) + {result.value}
                && forall k :: k in commitments ==> k.purpose != result.value
    {
      var currentId := currentPurposeId;
      if currentId >= U64_MAX {
        return Err(PurposeRegistryOverflow);
      }
      currentPurposeId := currentId + 1;
      purposes := purposes[currentId := descriptor];
      return Ok(currentId);
    }

    method DoCommitReputation(cer: Ceremonies.State, account: Account, cc: CommunityCeremony, purpose: nat,
                              hash: Option<nat>)
      returns (result: Result<(), Governance.Error>)
      modifies this
      ensures match CommitReputation(cer, old(View()), account, cc, purpose, hash) {
                case Ok(registry) => result == Ok(()) && View() == registry
                case Err(e) => result == Err(e) && View() == old(View())
              }
      ensures old(Valid()) ==> Valid()
      // an attendance is spent once per purpose: afterwards the same commitment fails with
      // whatever hash, while all others succeed or fail as before
      ensures result.Ok? ==>
                forall h :: CommitReputation(cer, View(), account, cc, purpose, h) == Err(AlreadyCommitted)
      ensures forall a: Account, c: CommunityCeremony, p: nat, h: Option<nat> ::
                a != account || c != cc || p != purpose ==>
                  CommitReputation(cer, View(), a, c, p, h).Ok? == CommitReputation(cer, old(View()), a, c, p, h).Ok?
    {
      if purpose !in purposes {
        return Err(InexistentPurpose);
      }
      if !HallAt(cer, cc).ReputationOf(account).IsVerified() {
        return Err(NoReputation);
      }
      var key := Commitment(cc.cid, cc.cindex, purpose, account);
      if key in commitments {
        return Err(AlreadyCommitted);
      }
      commitments := commitments[key := hash];
      return Ok(());
    }

    method PurgeRegistry(cids: seq<Cid>, cindex: nat)
      modifies this
      ensures View() == PurgeCommitments(old(View()), cids, cindex)
      ensures old(Valid()) ==> Valid()
    {
      for n := 0 to |cids|
        invariant View() == PurgeCommitments(old(View()), cids[..n], cindex)
      {
        var expired := set k | k in commitments && k.cid == cids[n] && k.cindex == cindex;
        commitments := commitments - expired;
        assert cids[..n + 1] == cids[..n] + [cids[n]];
      }
      assert cids[..|cids|] == cids;
    }
  }
}
