/** The release registry as a value: its state, one transition function per operation, and the
    invariant every reachable state keeps. Each transition returns the next state and the
    operation's `{ ok, value }` result; a failed guard returns the state unchanged. */
module ReleaseRegistry {
  import opened ReleaseTypes

  /** The mock's `state` object: the counter, the configuration and the three record maps. */
  datatype State = State(
    nextReleaseId: nat,
    maxReleases: int,
    releaseFee: int,
    authorityContract: Option<string>,
    escrowContract: string,
    oracleContract: string,
    loggerContract: string,
    releases: map<int, Release>,
    releasesByProject: map<int, seq<int>>,
    releaseUpdates: map<int, ReleaseUpdate>)

  /** The whole registry: the `state` object and the two effect logs kept beside it. */
  datatype Registry = Registry(
    state: State,
    stxTransfers: seq<StxTransfer>,
    contractCalls: seq<ContractCall>)

  /** The next state of the registry and the result reported to the caller. */
  datatype Step<T> = Step(next: Registry, result: Result<T>)

  /** The state after `reset`: no records, no authority, default configuration, empty logs. */
  function Initial(): Registry
  {
    Registry(State(0, DEFAULT_MAX_RELEASES, DEFAULT_RELEASE_FEE, None,
                   PLACEHOLDER_PRINCIPAL, PLACEHOLDER_PRINCIPAL, PLACEHOLDER_PRINCIPAL,
                   map[], map[], map[]),
             [], [])
  }

  /** Whether the authority reads as configured: the checks `!authorityContract` treat both an
      unset authority and the empty string as not configured. */
  predicate AuthorityConfigured(s: Registry)
  {
    s.state.authorityContract.Some? && s.state.authorityContract.value != ""
  }

  function SetAuthorityContract(s: Registry, principal: string): Step<bool>
  {
    if principal == PLACEHOLDER_PRINCIPAL then Step(s, Err(ERR_INVALID_RECIPIENT))
    else if s.state.authorityContract.Some? then Step(s, Err(ERR_AUTHORITY_NOT_SET))
    else Step(s.(state := s.state.(authorityContract := Some(principal))), Ok(true))
  }

  function SetReleaseFee(s: Registry, caller: string, newFee: int): Step<bool>
  {
    if newFee < 0 then Step(s, Err(ERR_INVALID_FEE))
    else if !AuthorityConfigured(s) then Step(s, Err(ERR_AUTHORITY_NOT_SET))
    else if caller != s.state.authorityContract.value then Step(s, Err(ERR_NOT_AUTHORIZED))
    else Step(s.(state := s.state.(releaseFee := newFee)), Ok(true))
  }

  /** The record a successful request stores: the request's fields, stamped with the block height,
      active and neither verified nor released. */
  function NewRelease(a: ReleaseRequest, blockHeight: int): Release
  {
    Release(a.projectId, a.milestoneId, a.amount, a.recipient, blockHeight, true,
            a.penaltyRate, a.interestRate, a.gracePeriod, a.location, a.currency, false, false)
  }

  /** The ids indexed under a project, or the empty list for a project with none. */
  function ProjectReleases(s: Registry, projectId: int): seq<int>
  {
    if projectId in s.state.releasesByProject then s.state.releasesByProject[projectId] else []
  }

  function RequestRelease(s: Registry, blockHeight: int, a: ReleaseRequest): Step<nat>
  {
    if s.state.nextReleaseId >= s.state.maxReleases then Step(s, Err(ERR_MAX_RELEASES_EXCEEDED))
    else if a.projectId <= 0 then Step(s, Err(ERR_INVALID_PROJECT_ID))
    else if a.milestoneId <= 0 then Step(s, Err(ERR_INVALID_MILESTONE_ID))
    else if a.amount <= 0 then Step(s, Err(ERR_INVALID_AMOUNT))
    else if a.recipient == PLACEHOLDER_PRINCIPAL then Step(s, Err(ERR_INVALID_RECIPIENT))
    else if a.penaltyRate > MAX_PENALTY_RATE then Step(s, Err(ERR_INVALID_PENALTY))
    else if a.interestRate > MAX_INTEREST_RATE then Step(s, Err(ERR_INVALID_INTEREST))
    else if a.gracePeriod > MAX_GRACE_PERIOD then Step(s, Err(ERR_INVALID_GRACE_PERIOD))
    else if !ValidLocation(a.location) then Step(s, Err(ERR_INVALID_LOCATION))
    else if !SupportedCurrency(a.currency) then Step(s, Err(ERR_INVALID_CURRENCY))
    else if !AuthorityConfigured(s) then Step(s, Err(ERR_AUTHORITY_NOT_SET))
    else
      var id := s.state.nextReleaseId;
      Step(s.(state := s.state.(
                releases := s.state.releases[id := NewRelease(a, blockHeight)],
                releasesByProject := s.state.releasesByProject[a.projectId := ProjectReleases(s, a.projectId) + [id]],
                nextReleaseId := id + 1)),
           Ok(id))
  }

  function UpdateRelease(s: Registry, caller: string, blockHeight: int,
                         id: int, newAmount: int, newRecipient: string): Step<bool>
  {
    if id !in s.state.releases then Step(s, Err(ERR_INVALID_UPDATE))
    else
      var release := s.state.releases[id];
      if caller != release.recipient then Step(s, Err(ERR_NOT_AUTHORIZED))
      else if newAmount <= 0 then Step(s, Err(ERR_INVALID_AMOUNT))
      else if newRecipient == PLACEHOLDER_PRINCIPAL then Step(s, Err(ERR_INVALID_RECIPIENT))
      else if release.released then Step(s, Err(ERR_ALREADY_RELEASED))
      else
        var updated := release.(amount := newAmount, recipient := newRecipient, timestamp := blockHeight);
        Step(s.(state := s.state.(
                  releases := s.state.releases[id := updated],
                  releaseUpdates := s.state.releaseUpdates[id := ReleaseUpdate(newAmount, newRecipient, blockHeight, caller)])),
             Ok(true))
  }

  function VerifyAndRelease(s: Registry, caller: string, blockHeight: int,
                            id: int, signature: seq<bv8>): Step<bool>
  {
    if id !in s.state.releases then Step(s, Err(ERR_INVALID_UPDATE))
    else
      var release := s.state.releases[id];
      if |signature| != SIGNATURE_LENGTH then Step(s, Err(ERR_INVALID_SIGNATURE))
      else if caller != s.state.oracleContract then Step(s, Err(ERR_NOT_AUTHORIZED))
      else if release.verified then Step(s, Err(ERR_MILESTONE_NOT_VERIFIED))
      else if release.released then Step(s, Err(ERR_ALREADY_RELEASED))
      else if !release.status then Step(s, Err(ERR_INVALID_STATUS))
      else
        var updated := release.(verified := true, released := true, timestamp := blockHeight);
        Step(s.(contractCalls := s.contractCalls + [EscrowTransfer(release.amount, caller, release.recipient), LogRelease(id)],
                stxTransfers := s.stxTransfers + [StxTransfer(s.state.releaseFee, caller, s.state.authorityContract)],
                state := s.state.(releases := s.state.releases[id := updated])),
             Ok(true))
  }

  function CancelRelease(s: Registry, caller: string, id: int): Step<bool>
  {
    if id !in s.state.releases then Step(s, Err(ERR_INVALID_UPDATE))
    else
      var release := s.state.releases[id];
      if caller != release.recipient then Step(s, Err(ERR_NOT_AUTHORIZED))
      else if release.released then Step(s, Err(ERR_ALREADY_RELEASED))
      else if release.verified then Step(s, Err(ERR_MILESTONE_NOT_VERIFIED))
      else Step(s.(state := s.state.(releases := s.state.releases[id := release.(status := false)])), Ok(true))
  }

  // ---------------------------------------------------------------------------------------------
  // The registry invariant

  /** A stored record passed every validation of `requestRelease` (amount and recipient re-checked by
      `updateRelease`), and its lifecycle flags are consistent: released exactly when verified, and
      a released record was active when it was released. */
  predicate WellFormed(r: Release)
  {
    && r.projectId > 0
    && r.milestoneId > 0
    && r.amount > 0
    && r.recipient != PLACEHOLDER_PRINCIPAL
    && r.penaltyRate <= MAX_PENALTY_RATE
    && r.interestRate <= MAX_INTEREST_RATE
    && r.gracePeriod <= MAX_GRACE_PERIOD
    && ValidLocation(r.location)
    && SupportedCurrency(r.currency)
    && r.released == r.verified
    && (r.released ==> r.status)
  }

  /** The stored ids are exactly 0 .. nextReleaseId - 1. */
  ghost predicate IdsDense(s: Registry)
  {
    forall id :: id in s.state.releases <==> 0 <= id < s.state.nextReleaseId
  }

  ghost predicate RecordsWellFormed(s: Registry)
  {
    forall id :: id in s.state.releases ==> WellFormed(s.state.releases[id])
  }

  /** Every update slot belongs to a stored record and holds an amendment that passed validation. */
  ghost predicate UpdatesWellFormed(s: Registry)
  {
    forall id :: id in s.state.releaseUpdates ==>
      && id in s.state.releases
      && s.state.releaseUpdates[id].updateAmount > 0
      && s.state.releaseUpdates[id].updateRecipient != PLACEHOLDER_PRINCIPAL
  }

  /** The per-project index lists, in increasing order, exactly the ids of that project's records. */
  ghost predicate ProjectIndexSound(s: Registry)
  {
    && (forall p :: p in s.state.releasesByProject ==> |s.state.releasesByProject[p]| > 0)
    && (forall p, k :: p in s.state.releasesByProject && 0 <= k < |s.state.releasesByProject[p]| ==>
          s.state.releasesByProject[p][k] in s.state.releases && s.state.releases[s.state.releasesByProject[p][k]].projectId == p)
    && (forall p, j, k :: p in s.state.releasesByProject && 0 <= j < k < |s.state.releasesByProject[p]| ==>
          s.state.releasesByProject[p][j] < s.state.releasesByProject[p][k])
    && (forall id :: id in s.state.releases ==>
          s.state.releases[id].projectId in s.state.releasesByProject && id in s.state.releasesByProject[s.state.releases[id].projectId])
  }

  /** The fee is never negative, the authority is never the placeholder, and no record exists before
      the authority is configured. */
  predicate ConfigSound(s: Registry)
  {
    && s.state.releaseFee >= 0
    && s.state.authorityContract != Some(PLACEHOLDER_PRINCIPAL)
    && (s.state.nextReleaseId > 0 ==> AuthorityConfigured(s))
  }

  /** The ids of the records that have been released. */
  function ReleasedIds(s: Registry): set<int>
  {
    set id | id in s.state.releases && s.state.releases[id].released
  }

  /** Each release charged exactly one fee to the authority and made exactly two collaborator calls,
      and every audit-log entry names a released record. */
  ghost predicate EffectsConsistent(s: Registry)
  {
    && |s.stxTransfers| == |ReleasedIds(s)|
    && |s.contractCalls| == 2 * |s.stxTransfers|
    && (forall t :: t in s.stxTransfers ==> t.to == s.state.authorityContract && t.amount >= 0)
    && (forall c :: c in s.contractCalls && c.contract == AUDIT_LOGGER ==>
          |c.args| == 1 && c.args[0].Num? && c.args[0].n in ReleasedIds(s))
  }

  ghost predicate Inv(s: Registry)
  {
    && IdsDense(s)
    && RecordsWellFormed(s)
    && UpdatesWellFormed(s)
    && ProjectIndexSound(s)
    && ConfigSound(s)
    && EffectsConsistent(s)
  }
}
