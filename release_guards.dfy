/** The guard chain of each registry operation, written as a table in the order the operation
    checks it, and the proof that each transition reports the code of the first failing guard,
    leaves the state untouched when one fails, and succeeds exactly when all hold. */
module ReleaseGuards {
  import opened ReleaseTypes
  import opened GuardChain
  import opened ReleaseRegistry

  function SetAuthorityContractGuards(s: Registry, principal: string): seq<Guard>
  {
    [ Guard(principal != PLACEHOLDER_PRINCIPAL, ERR_INVALID_RECIPIENT),
      Guard(s.state.authorityContract.None?, ERR_AUTHORITY_NOT_SET) ]
  }

  function SetReleaseFeeGuards(s: Registry, caller: string, newFee: int): seq<Guard>
  {
    [ Guard(newFee >= 0, ERR_INVALID_FEE),
      Guard(AuthorityConfigured(s), ERR_AUTHORITY_NOT_SET),
      Guard(s.state.authorityContract == Some(caller), ERR_NOT_AUTHORIZED) ]
  }

  function RequestReleaseGuards(s: Registry, a: ReleaseRequest): seq<Guard>
  {
    [ Guard(s.state.nextReleaseId < s.state.maxReleases, ERR_MAX_RELEASES_EXCEEDED),
      Guard(a.projectId > 0, ERR_INVALID_PROJECT_ID),
      Guard(a.milestoneId > 0, ERR_INVALID_MILESTONE_ID),
      Guard(a.amount > 0, ERR_INVALID_AMOUNT),
      Guard(a.recipient != PLACEHOLDER_PRINCIPAL, ERR_INVALID_RECIPIENT),
      Guard(a.penaltyRate <= MAX_PENALTY_RATE, ERR_INVALID_PENALTY),
      Guard(a.interestRate <= MAX_INTEREST_RATE, ERR_INVALID_INTEREST),
      Guard(a.gracePeriod <= MAX_GRACE_PERIOD, ERR_INVALID_GRACE_PERIOD),
      Guard(ValidLocation(a.location), ERR_INVALID_LOCATION),
      Guard(SupportedCurrency(a.currency), ERR_INVALID_CURRENCY),
      Guard(AuthorityConfigured(s), ERR_AUTHORITY_NOT_SET) ]
  }

  /** Every guard on a stored record comes after the lookup; a missing record stops the chain. */
  function UpdateReleaseGuards(s: Registry, caller: string, id: int, newAmount: int, newRecipient: string): seq<Guard>
  {
    if id !in s.state.releases then [Guard(false, ERR_INVALID_UPDATE)]
    else
      var release := s.state.releases[id];
      [ Guard(true, ERR_INVALID_UPDATE),
        Guard(caller == release.recipient, ERR_NOT_AUTHORIZED),
        Guard(newAmount > 0, ERR_INVALID_AMOUNT),
        Guard(newRecipient != PLACEHOLDER_PRINCIPAL, ERR_INVALID_RECIPIENT),
        Guard(!release.released, ERR_ALREADY_RELEASED) ]
  }

  function VerifyAndReleaseGuards(s: Registry, caller: string, id: int, signature: seq<bv8>): seq<Guard>
  {
    if id !in s.state.releases then [Guard(false, ERR_INVALID_UPDATE)]
    else
      var release := s.state.releases[id];
      [ Guard(true, ERR_INVALID_UPDATE),
        Guard(|signature| == SIGNATURE_LENGTH, ERR_INVALID_SIGNATURE),
        Guard(caller == s.state.oracleContract, ERR_NOT_AUTHORIZED),
        Guard(!release.verified, ERR_MILESTONE_NOT_VERIFIED),
        Guard(!release.released, ERR_ALREADY_RELEASED),
        Guard(release.status, ERR_INVALID_STATUS) ]
  }

  function CancelReleaseGuards(s: Registry, caller: string, id: int): seq<Guard>
  {
    if id !in s.state.releases then [Guard(false, ERR_INVALID_UPDATE)]
    else
      var release := s.state.releases[id];
      [ Guard(true, ERR_INVALID_UPDATE),
        Guard(caller == release.recipient, ERR_NOT_AUTHORIZED),
        Guard(!release.released, ERR_ALREADY_RELEASED),
        Guard(!release.verified, ERR_MILESTONE_NOT_VERIFIED) ]
  }

  /** A step decided by a guard chain: the first failing guard's code with the state unchanged, or
      success when the chain passes. */
  predicate DecidedBy<T>(step: Step<T>, s: Registry, guards: seq<Guard>)
  {
    match FirstFailure(guards)
    case Some(code) => step == Step(s, Err(code))
    case None => step.result.Ok?
  }

  lemma SetAuthorityContractFirstFailureWins(s: Registry, principal: string)
    ensures DecidedBy(SetAuthorityContract(s, principal), s, SetAuthorityContractGuards(s, principal))
  {
    var gs := SetAuthorityContractGuards(s, principal);
    assert gs[0].holds && gs[1].holds ==> FirstFailure(gs).None?;
  }

  lemma SetReleaseFeeFirstFailureWins(s: Registry, caller: string, newFee: int)
    ensures DecidedBy(SetReleaseFee(s, caller, newFee), s, SetReleaseFeeGuards(s, caller, newFee))
  {
    var gs := SetReleaseFeeGuards(s, caller, newFee);
    assert gs[0].holds && gs[1].holds && gs[2].holds ==> FirstFailure(gs).None?;
  }

  lemma RequestReleaseFirstFailureWins(s: Registry, blockHeight: int, a: ReleaseRequest)
    ensures DecidedBy(RequestRelease(s, blockHeight, a), s, RequestReleaseGuards(s, a))
  {
    var gs := RequestReleaseGuards(s, a);
    if !gs[0].holds {
      assert FirstFailure(gs) == Some(gs[0].code);
    } else if !gs[1].holds {
      assert forall j :: 0 <= j < 1 ==> gs[j].holds;
      assert FirstFailure(gs) == Some(gs[1].code);
    } else if !gs[2].holds {
      assert forall j :: 0 <= j < 2 ==> gs[j].holds;
      assert FirstFailure(gs) == Some(gs[2].code);
    } else if !gs[3].holds {
      assert forall j :: 0 <= j < 3 ==> gs[j].holds;
      assert FirstFailure(gs) == Some(gs[3].code);
    } else if !gs[4].holds {
      assert forall j :: 0 <= j < 4 ==> gs[j].holds;
      assert FirstFailure(gs) == Some(gs[4].code);
    } else if !gs[5].holds {
      assert forall j :: 0 <= j < 5 ==> gs[j].holds;
      assert FirstFailure(gs) == Some(gs[5].code);
    } else if !gs[6].holds {
      assert forall j :: 0 <= j < 6 ==> gs[j].holds;
      assert FirstFailure(gs) == Some(gs[6].code);
    } else if !gs[7].holds {
      assert forall j :: 0 <= j < 7 ==> gs[j].holds;
      assert FirstFailure(gs) == Some(gs[7].code);
    } else if !gs[8].holds {
      assert forall j :: 0 <= j < 8 ==> gs[j].holds;
      assert FirstFailure(gs) == Some(gs[8].code);
    } else if !gs[9].holds {
      assert forall j :: 0 <= j < 9 ==> gs[j].holds;
      assert FirstFailure(gs) == Some(gs[9].code);
    } else if !gs[10].holds {
      assert forall j :: 0 <= j < 10 ==> gs[j].holds;
      assert FirstFailure(gs) == Some(gs[10].code);
    } else {
      assert FirstFailure(gs).None?;
    }
  }

  lemma UpdateReleaseFirstFailureWins(s: Registry, caller: string, blockHeight: int,
                                      id: int, newAmount: int, newRecipient: string)
    ensures DecidedBy(UpdateRelease(s, caller, blockHeight, id, newAmount, newRecipient), s,
                      UpdateReleaseGuards(s, caller, id, newAmount, newRecipient))
  {
    var gs := UpdateReleaseGuards(s, caller, id, newAmount, newRecipient);
    assert !gs[0].holds ==> FirstFailure(gs) == Some(ERR_INVALID_UPDATE);
    if id in s.state.releases {
      assert gs[1].holds && gs[2].holds && gs[3].holds && gs[4].holds ==> FirstFailure(gs).None?;
    }
  }

  lemma VerifyAndReleaseFirstFailureWins(s: Registry, caller: string, blockHeight: int,
                                         id: int, signature: seq<bv8>)
    ensures DecidedBy(VerifyAndRelease(s, caller, blockHeight, id, signature), s,
                      VerifyAndReleaseGuards(s, caller, id, signature))
  {
    var gs := VerifyAndReleaseGuards(s, caller, id, signature);
    assert !gs[0].holds ==> FirstFailure(gs) == Some(ERR_INVALID_UPDATE);
    if id in s.state.releases {
      assert gs[1].holds && gs[2].holds && gs[3].holds && gs[4].holds && gs[5].holds ==> FirstFailure(gs).None?;
    }
  }

  lemma CancelReleaseFirstFailureWins(s: Registry, caller: string, id: int)
    ensures DecidedBy(CancelRelease(s, caller, id), s, CancelReleaseGuards(s, caller, id))
  {
    var gs := CancelReleaseGuards(s, caller, id);
    assert !gs[0].holds ==> FirstFailure(gs) == Some(ERR_INVALID_UPDATE);
    if id in s.state.releases {
      assert gs[1].holds && gs[2].holds && gs[3].holds ==> FirstFailure(gs).None?;
    }
  }
}
