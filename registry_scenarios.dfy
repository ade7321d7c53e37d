/** Concrete runs of the registry from the reset state, following the repository's test cases. */
module RegistryScenarios {
  import opened ReleaseTypes
  import opened ReleaseRegistry

  const AUTHORITY: string := "ST2TEST"
  const RECIPIENT: string := "ST3RECIP"

  function SiteA(): ReleaseRequest
  {
    ReleaseRequest(1, 1, 1000, RECIPIENT, 5, 10, 7, "SiteA", "STX")
  }

  function SiteB(): ReleaseRequest
  {
    ReleaseRequest(2, 2, 2000, "ST4RECIP", 10, 15, 14, "SiteB", "USD")
  }

  /** A 65-byte signature of zeros. */
  function Signature(n: nat): (sig: seq<bv8>)
    ensures |sig| == n
  {
    seq(n, _ => 0 as bv8)
  }

  /** The registry after the authority is configured, as every test but one begins. */
  function Configured(): Registry
  {
    SetAuthorityContract(Initial(), AUTHORITY).next
  }

  /** Without an authority a valid request is refused; with one it gets id 0 and the record echoes
      the request as a pending record, while a zero amount is refused. */
  lemma RequestScenario()
    ensures RequestRelease(Initial(), 0, SiteA()) == Step(Initial(), Err(ERR_AUTHORITY_NOT_SET))
    ensures var step := RequestRelease(Configured(), 0, SiteA());
      && step.result == Ok(0)
      && step.next.state.releases[0] == Release(1, 1, 1000, RECIPIENT, 0, true, 5, 10, 7, "SiteA", "STX", false, false)
    ensures RequestRelease(Configured(), 0, SiteA().(amount := 0)) == Step(Configured(), Err(ERR_INVALID_AMOUNT))
  {
  }

  /** Two successful requests make the count 2; with the capacity lowered to 1 first, the second
      request is refused. */
  lemma CountScenario()
    ensures var s1 := RequestRelease(Configured(), 0, SiteA()).next;
      RequestRelease(s1, 0, SiteB()).next.state.nextReleaseId == 2
    ensures var small := Configured().(state := Configured().state.(maxReleases := 1));
      var s1 := RequestRelease(small, 0, SiteA());
      && s1.result == Ok(0)
      && RequestRelease(s1.next, 0, SiteB()) == Step(s1.next, Err(ERR_MAX_RELEASES_EXCEEDED))
  {
  }

  /** The recipient amends the record, and the update slot names the old recipient as updater;
      anyone else is refused. */
  lemma UpdateScenario()
    ensures var s1 := RequestRelease(Configured(), 0, SiteA()).next;
      var step := UpdateRelease(s1, RECIPIENT, 0, 0, 1500, "ST4NEWRECIP");
      && step.result == Ok(true)
      && step.next.state.releases[0].amount == 1500 && step.next.state.releases[0].recipient == "ST4NEWRECIP"
      && step.next.state.releaseUpdates[0] == ReleaseUpdate(1500, "ST4NEWRECIP", 0, RECIPIENT)
      && UpdateRelease(s1, "ST5FAKE", 0, 0, 1500, "ST4NEWRECIP").result == Err(ERR_NOT_AUTHORIZED)
  {
  }

  /** The oracle (the placeholder principal by default) releases record 0: one fee of 500 to the
      authority, then the escrow transfer and the audit log; a 64-byte signature or another caller
      is refused, and the recipient can no longer cancel. */
  lemma ReleaseScenario()
    ensures var s1 := RequestRelease(Configured(), 0, SiteA()).next;
      var step := VerifyAndRelease(s1, PLACEHOLDER_PRINCIPAL, 0, 0, Signature(65));
      && step.result == Ok(true)
      && step.next.state.releases[0].verified && step.next.state.releases[0].released
      && step.next.stxTransfers == [StxTransfer(500, PLACEHOLDER_PRINCIPAL, Some(AUTHORITY))]
      && step.next.contractCalls == [EscrowTransfer(1000, PLACEHOLDER_PRINCIPAL, RECIPIENT), LogRelease(0)]
      && CancelRelease(step.next, RECIPIENT, 0).result == Err(ERR_ALREADY_RELEASED)
      && VerifyAndRelease(s1, PLACEHOLDER_PRINCIPAL, 0, 0, Signature(64)) == Step(s1, Err(ERR_INVALID_SIGNATURE))
      && VerifyAndRelease(s1, "ST5FAKE", 0, 0, Signature(65)).result == Err(ERR_NOT_AUTHORIZED)
  {
  }

  /** The recipient cancels a pending record: only its status is cleared. The authority sets the fee. */
  lemma CancelAndFeeScenario()
    ensures var s1 := RequestRelease(Configured(), 0, SiteA()).next;
      var step := CancelRelease(s1, RECIPIENT, 0);
      && step.result == Ok(true) && !step.next.state.releases[0].status
      && SetReleaseFee(Configured(), AUTHORITY, 1000) == Step(Configured().(state := Configured().state.(releaseFee := 1000)), Ok(true))
  {
  }
}
