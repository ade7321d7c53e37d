/** Every operation of the registry keeps the registry invariant, and the invariant makes the
    release count equal to the number of stored records. */
module RegistryInvariant {
  import opened ReleaseTypes
  import opened ReleaseRegistry

  lemma InitialInv()
    ensures Inv(Initial())
  {
    assert ReleasedIds(Initial()) == {};
  }

  /** The ids 0 .. n - 1. */
  function IdsBelow(n: nat): (ids: set<int>)
    ensures forall x :: x in ids <==> 0 <= x < n
    ensures |ids| == n
  {
    if n == 0 then {} else IdsBelow(n - 1) + {n - 1}
  }

  /** The count of created records (the counter) equals the number of stored records. */
  lemma RecordCountIsNextId(s: Registry)
    requires IdsDense(s)
    ensures |s.state.releases| == s.state.nextReleaseId
  {
    assert s.state.releases.Keys == IdsBelow(s.state.nextReleaseId);
  }

  /** With no record stored there is no released record, and so no fee transfer and no call. */
  lemma EmptyRegistryHasNoEffects(s: Registry)
    requires Inv(s) && s.state.nextReleaseId == 0
    ensures s.state.releases == map[] && s.stxTransfers == [] && s.contractCalls == []
  {
    assert forall id :: id !in s.state.releases;
    assert s.state.releases.Keys == {};
    assert ReleasedIds(s) == {};
  }

  lemma SetAuthorityContractPreservesInv(s: Registry, principal: string)
    requires Inv(s)
    ensures Inv(SetAuthorityContract(s, principal).next)
  {
    var s' := SetAuthorityContract(s, principal).next;
    if s' != s {
      EmptyRegistryHasNoEffects(s);
      assert ReleasedIds(s') == ReleasedIds(s);
    }
  }

  lemma SetReleaseFeePreservesInv(s: Registry, caller: string, newFee: int)
    requires Inv(s)
    ensures Inv(SetReleaseFee(s, caller, newFee).next)
  {
    var s' := SetReleaseFee(s, caller, newFee).next;
    assert ReleasedIds(s') == ReleasedIds(s);
  }

  lemma RequestReleasePreservesInv(s: Registry, blockHeight: int, a: ReleaseRequest)
    requires Inv(s)
    ensures Inv(RequestRelease(s, blockHeight, a).next)
  {
    var step := RequestRelease(s, blockHeight, a);
    if step.result.Ok? {
      var s' := step.next;
      assert s.state.nextReleaseId !in s.state.releases;
      assert ReleasedIds(s') == ReleasedIds(s);
      RequestReleaseKeepsIndex(s, blockHeight, a);
    }
  }

  /** Appending the new id, the largest so far, to its project's list keeps the index sound. */
  lemma RequestReleaseKeepsIndex(s: Registry, blockHeight: int, a: ReleaseRequest)
    requires Inv(s) && RequestRelease(s, blockHeight, a).result.Ok?
    ensures ProjectIndexSound(RequestRelease(s, blockHeight, a).next)
  {
    RequestReleaseIndexSound(s, blockHeight, a);
    RequestReleaseIndexOrdered(s, blockHeight, a);
    RequestReleaseIndexComplete(s, blockHeight, a);
  }

  /** After a request every indexed id names a stored record of that project. */
  lemma RequestReleaseIndexSound(s: Registry, blockHeight: int, a: ReleaseRequest)
    requires Inv(s) && RequestRelease(s, blockHeight, a).result.Ok?
    ensures var s' := RequestRelease(s, blockHeight, a).next;
      forall q, k :: q in s'.state.releasesByProject && 0 <= k < |s'.state.releasesByProject[q]| ==>
        s'.state.releasesByProject[q][k] in s'.state.releases
        && s'.state.releases[s'.state.releasesByProject[q][k]].projectId == q
  {
    var s' := RequestRelease(s, blockHeight, a).next;
    var p := a.projectId;
    var old_list := ProjectReleases(s, p);
    assert s'.state.releasesByProject == s.state.releasesByProject[p := old_list + [s.state.nextReleaseId]];
    forall q, k | q in s'.state.releasesByProject && 0 <= k < |s'.state.releasesByProject[q]|
      ensures s'.state.releasesByProject[q][k] in s'.state.releases
      ensures s'.state.releases[s'.state.releasesByProject[q][k]].projectId == q
    {
      if q == p && k < |old_list| {
        assert s'.state.releasesByProject[q][k] == old_list[k];
      }
    }
  }

  /** After a request every index list is still strictly increasing. */
  lemma RequestReleaseIndexOrdered(s: Registry, blockHeight: int, a: ReleaseRequest)
    requires Inv(s) && RequestRelease(s, blockHeight, a).result.Ok?
    ensures var s' := RequestRelease(s, blockHeight, a).next;
      forall q, j, k :: q in s'.state.releasesByProject && 0 <= j < k < |s'.state.releasesByProject[q]| ==>
        s'.state.releasesByProject[q][j] < s'.state.releasesByProject[q][k]
  {
    var s' := RequestRelease(s, blockHeight, a).next;
    var p := a.projectId;
    var old_list := ProjectReleases(s, p);
    assert s'.state.releasesByProject == s.state.releasesByProject[p := old_list + [s.state.nextReleaseId]];
    forall q, j, k | q in s'.state.releasesByProject && 0 <= j < k < |s'.state.releasesByProject[q]|
      ensures s'.state.releasesByProject[q][j] < s'.state.releasesByProject[q][k]
    {
      if q == p {
        assert s'.state.releasesByProject[q][j] == old_list[j];
        assert old_list[j] in s.state.releases;
      }
    }
  }

  /** After a request every stored record, the new one included, is listed under its project. */
  lemma RequestReleaseIndexComplete(s: Registry, blockHeight: int, a: ReleaseRequest)
    requires Inv(s) && RequestRelease(s, blockHeight, a).result.Ok?
    ensures var s' := RequestRelease(s, blockHeight, a).next;
      forall r :: r in s'.state.releases ==>
        s'.state.releases[r].projectId in s'.state.releasesByProject
        && r in s'.state.releasesByProject[s'.state.releases[r].projectId]
  {
    var s' := RequestRelease(s, blockHeight, a).next;
    var id := s.state.nextReleaseId;
    var p := a.projectId;
    var old_list := ProjectReleases(s, p);
    var list := old_list + [id];
    assert s'.state.releasesByProject == s.state.releasesByProject[p := list];
    assert s'.state.releases == s.state.releases[id := NewRelease(a, blockHeight)];
    forall r | r in s'.state.releases
      ensures s'.state.releases[r].projectId in s'.state.releasesByProject
      ensures r in s'.state.releasesByProject[s'.state.releases[r].projectId]
    {
      if r == id {
        assert list[|list| - 1] == id;
      } else if s.state.releases[r].projectId == p {
        assert r in old_list;
        assert r in list;
      }
    }
  }

  lemma UpdateReleasePreservesInv(s: Registry, caller: string, blockHeight: int,
                                  id: int, newAmount: int, newRecipient: string)
    requires Inv(s)
    ensures Inv(UpdateRelease(s, caller, blockHeight, id, newAmount, newRecipient).next)
  {
    var s' := UpdateRelease(s, caller, blockHeight, id, newAmount, newRecipient).next;
    assert ReleasedIds(s') == ReleasedIds(s);
  }

  lemma VerifyAndReleasePreservesInv(s: Registry, caller: string, blockHeight: int,
                                     id: int, signature: seq<bv8>)
    requires Inv(s)
    ensures Inv(VerifyAndRelease(s, caller, blockHeight, id, signature).next)
  {
    var step := VerifyAndRelease(s, caller, blockHeight, id, signature);
    if step.result.Ok? {
      var s' := step.next;
      assert id !in ReleasedIds(s);
      assert ReleasedIds(s') == ReleasedIds(s) + {id};
      assert AuthorityConfigured(s);
      var added := [EscrowTransfer(s.state.releases[id].amount, caller, s.state.releases[id].recipient), LogRelease(id)];
      assert forall c :: c in s'.contractCalls ==> c in s.contractCalls || c in added;
    }
  }

  lemma CancelReleasePreservesInv(s: Registry, caller: string, id: int)
    requires Inv(s)
    ensures Inv(CancelRelease(s, caller, id).next)
  {
    var s' := CancelRelease(s, caller, id).next;
    assert ReleasedIds(s') == ReleasedIds(s);
  }
}
