/** The payment releaser as an object: the registry's state is held in fields that each operation
    updates in place, next to the ambient caller and block height that the operation reads. Each
    method is proved to perform exactly the transition of the same name in `ReleaseRegistry`, and
    to keep the registry invariant. */
module PaymentReleaser {
  import opened ReleaseTypes
  import R = ReleaseRegistry
  import RegistryInvariant

  class PaymentReleaserMock {
    /** The `state` object: counter, configuration and the three record maps. */
    var state: R.State

    /** Ambient context of the next call: who calls, and at which block. */
    var blockHeight: int
    var caller: string

    /** Effect logs standing in for the fee transfers and the escrow and audit-logger calls. */
    var stxTransfers: seq<StxTransfer>
    var contractCalls: seq<ContractCall>

    /** The registry held by the fields. */
    function Snapshot(): R.Registry
      reads this
    {
      R.Registry(state, stxTransfers, contractCalls)
    }

    ghost predicate Valid()
      reads this
    {
      R.Inv(Snapshot())
    }

    constructor()
      ensures Valid()
      ensures Snapshot() == R.Initial() && blockHeight == 0 && caller == DEFAULT_CALLER
    {
      var initial := R.Initial();
      state, stxTransfers, contractCalls := initial.state, initial.stxTransfers, initial.contractCalls;
      blockHeight, caller := 0, DEFAULT_CALLER;
      RegistryInvariant.InitialInv();
    }

    /** Discards every record, the authority and both logs, and restores the defaults. */
    method Reset()
      modifies this
      ensures Valid()
      ensures Snapshot() == R.Initial() && blockHeight == 0 && caller == DEFAULT_CALLER
    {
      var initial := R.Initial();
      state, stxTransfers, contractCalls := initial.state, initial.stxTransfers, initial.contractCalls;
      blockHeight, caller := 0, DEFAULT_CALLER;
      RegistryInvariant.InitialInv();
    }

    method SetAuthorityContract(contractPrincipal: string) returns (r: Result<bool>)
      requires Valid()
      modifies this
      ensures Valid()
      ensures caller == old(caller) && blockHeight == old(blockHeight)
      ensures R.SetAuthorityContract(old(Snapshot()), contractPrincipal) == R.Step(Snapshot(), r)
    {
      if contractPrincipal == PLACEHOLDER_PRINCIPAL {
        return Err(ERR_INVALID_RECIPIENT);
      }
      if state.authorityContract.Some? {
        return Err(ERR_AUTHORITY_NOT_SET);
      }
      ghost var after := R.SetAuthorityContract(Snapshot(), contractPrincipal).next;
      RegistryInvariant.SetAuthorityContractPreservesInv(Snapshot(), contractPrincipal);
      state := state.(authorityContract := Some(contractPrincipal));
      assert Snapshot() == after;
      return Ok(true);
    }

    method SetReleaseFee(newFee: int) returns (r: Result<bool>)
      requires Valid()
      modifies this
      ensures Valid()
      ensures caller == old(caller) && blockHeight == old(blockHeight)
      ensures R.SetReleaseFee(old(Snapshot()), old(caller), newFee) == R.Step(Snapshot(), r)
    {
      if newFee < 0 {
        return Err(ERR_INVALID_FEE);
      }
      if !R.AuthorityConfigured(Snapshot()) {
        return Err(ERR_AUTHORITY_NOT_SET);
      }
      if caller != state.authorityContract.value {
        return Err(ERR_NOT_AUTHORIZED);
      }
      ghost var after := R.SetReleaseFee(Snapshot(), caller, newFee).next;
      RegistryInvariant.SetReleaseFeePreservesInv(Snapshot(), caller, newFee);
      state := state.(releaseFee := newFee);
      assert Snapshot() == after;
      return Ok(true);
    }

    method RequestRelease(projectId: int, milestoneId: int, amount: int, recipient: string,
                          penaltyRate: int, interestRate: int, gracePeriod: int,
                          location: string, currency: string) returns (r: Result<nat>)
      requires Valid()
      modifies this
      ensures Valid()
      ensures caller == old(caller) && blockHeight == old(blockHeight)
      ensures R.RequestRelease(old(Snapshot()), old(blockHeight),
                               ReleaseRequest(projectId, milestoneId, amount, recipient, penaltyRate,
                                              interestRate, gracePeriod, location, currency))
              == R.Step(Snapshot(), r)
    {
      if state.nextReleaseId >= state.maxReleases { return Err(ERR_MAX_RELEASES_EXCEEDED); }
      if projectId <= 0 { return Err(ERR_INVALID_PROJECT_ID); }
      if milestoneId <= 0 { return Err(ERR_INVALID_MILESTONE_ID); }
      if amount <= 0 { return Err(ERR_INVALID_AMOUNT); }
      if recipient == PLACEHOLDER_PRINCIPAL { return Err(ERR_INVALID_RECIPIENT); }
      if penaltyRate > MAX_PENALTY_RATE { return Err(ERR_INVALID_PENALTY); }
      if interestRate > MAX_INTEREST_RATE { return Err(ERR_INVALID_INTEREST); }
      if gracePeriod > MAX_GRACE_PERIOD { return Err(ERR_INVALID_GRACE_PERIOD); }
      if !ValidLocation(location) { return Err(ERR_INVALID_LOCATION); }
      if !SupportedCurrency(currency) { return Err(ERR_INVALID_CURRENCY); }
      if !R.AuthorityConfigured(Snapshot()) { return Err(ERR_AUTHORITY_NOT_SET); }

      ghost var request := ReleaseRequest(projectId, milestoneId, amount, recipient, penaltyRate, interestRate,
                                          gracePeriod, location, currency);
      ghost var after := R.RequestRelease(Snapshot(), blockHeight, request).next;
      RegistryInvariant.RequestReleasePreservesInv(Snapshot(), blockHeight, request);
      var id := state.nextReleaseId;
      var release := Release(projectId, milestoneId, amount, recipient, blockHeight, true,
                             penaltyRate, interestRate, gracePeriod, location, currency, false, false);
      state := state.(releases := state.releases[id := release]);
      var projectReleases := if projectId in state.releasesByProject then state.releasesByProject[projectId] else [];
      state := state.(releasesByProject := state.releasesByProject[projectId := projectReleases + [id]]);
      state := state.(nextReleaseId := state.nextReleaseId + 1);
      assert Snapshot() == after;
      return Ok(id);
    }

    /** The stored record with this id, if any: present exactly for the ids handed out so far, and
        then that id's record, which is always well formed. */
    function GetRelease(id: int): (r: Option<Release>)
      reads this
      requires Valid()
      ensures r.Some? <==> 0 <= id < state.nextReleaseId
      ensures r.Some? ==> r.value == state.releases[id] && R.WellFormed(r.value)
    {
      if id in state.releases then Some(state.releases[id]) else None
    }

    method UpdateRelease(id: int, newAmount: int, newRecipient: string) returns (r: Result<bool>)
      requires Valid()
      modifies this
      ensures Valid()
      ensures caller == old(caller) && blockHeight == old(blockHeight)
      ensures R.UpdateRelease(old(Snapshot()), old(caller), old(blockHeight), id, newAmount, newRecipient)
              == R.Step(Snapshot(), r)
    {
      if id !in state.releases { return Err(ERR_INVALID_UPDATE); }
      var release := state.releases[id];
      if caller != release.recipient { return Err(ERR_NOT_AUTHORIZED); }
      if newAmount <= 0 { return Err(ERR_INVALID_AMOUNT); }
      if newRecipient == PLACEHOLDER_PRINCIPAL { return Err(ERR_INVALID_RECIPIENT); }
      if release.released { return Err(ERR_ALREADY_RELEASED); }

      ghost var after := R.UpdateRelease(Snapshot(), caller, blockHeight, id, newAmount, newRecipient).next;
      RegistryInvariant.UpdateReleasePreservesInv(Snapshot(), caller, blockHeight, id, newAmount, newRecipient);
      state := state.(releases := state.releases[id := release.(amount := newAmount, recipient := newRecipient, timestamp := blockHeight)]);
      state := state.(releaseUpdates := state.releaseUpdates[id := ReleaseUpdate(newAmount, newRecipient, blockHeight, caller)]);
      assert Snapshot() == after;
      return Ok(true);
    }

    method VerifyAndRelease(id: int, signature: seq<bv8>) returns (r: Result<bool>)
      requires Valid()
      modifies this
      ensures Valid()
      ensures caller == old(caller) && blockHeight == old(blockHeight)
      ensures R.VerifyAndRelease(old(Snapshot()), old(caller), old(blockHeight), id, signature)
              == R.Step(Snapshot(), r)
    {
      if id !in state.releases { return Err(ERR_INVALID_UPDATE); }
      var release := state.releases[id];
      if |signature| != SIGNATURE_LENGTH { return Err(ERR_INVALID_SIGNATURE); }
      if caller != state.oracleContract { return Err(ERR_NOT_AUTHORIZED); }
      if release.verified { return Err(ERR_MILESTONE_NOT_VERIFIED); }
      if release.released { return Err(ERR_ALREADY_RELEASED); }
      if !release.status { return Err(ERR_INVALID_STATUS); }

      ghost var after := R.VerifyAndRelease(Snapshot(), caller, blockHeight, id, signature).next;
      RegistryInvariant.VerifyAndReleasePreservesInv(Snapshot(), caller, blockHeight, id, signature);
      ghost var callsBefore := contractCalls;
      contractCalls := contractCalls + [EscrowTransfer(release.amount, caller, release.recipient)];
      stxTransfers := stxTransfers + [StxTransfer(state.releaseFee, caller, state.authorityContract)];
      state := state.(releases := state.releases[id := release.(verified := true, released := true, timestamp := blockHeight)]);
      contractCalls := contractCalls + [LogRelease(id)];
      assert contractCalls == callsBefore + [EscrowTransfer(release.amount, caller, release.recipient), LogRelease(id)];
      assert Snapshot() == after;
      return Ok(true);
    }

    method CancelRelease(id: int) returns (r: Result<bool>)
      requires Valid()
      modifies this
      ensures Valid()
      ensures caller == old(caller) && blockHeight == old(blockHeight)
      ensures R.CancelRelease(old(Snapshot()), old(caller), id) == R.Step(Snapshot(), r)
    {
      if id !in state.releases { return Err(ERR_INVALID_UPDATE); }
      var release := state.releases[id];
      if caller != release.recipient { return Err(ERR_NOT_AUTHORIZED); }
      if release.released { return Err(ERR_ALREADY_RELEASED); }
      if release.verified { return Err(ERR_MILESTONE_NOT_VERIFIED); }

      ghost var after := R.CancelRelease(Snapshot(), caller, id).next;
      RegistryInvariant.CancelReleasePreservesInv(Snapshot(), caller, id);
      state := state.(releases := state.releases[id := release.(status := false)]);
      assert Snapshot() == after;
      return Ok(true);
    }

    /** The number of releases ever requested: the counter, which equals the number of stored
        records since none is ever removed. */
    function GetReleaseCount(): (r: Result<nat>)
      reads this
      requires Valid()
      ensures r == Ok(|state.releases|)
    {
      RegistryInvariant.RecordCountIsNextId(Snapshot());
      Ok(state.nextReleaseId)
    }
  }
}
