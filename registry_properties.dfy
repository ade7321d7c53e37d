/** What the registry promises across calls: sequences of calls keep the invariant, the release
    count is the number of successful requests, history only grows, released records are frozen,
    and the lifecycle rules of each operation. */
module RegistryProperties {
  import opened ReleaseTypes
  import opened ReleaseRegistry
  import opened RegistryInvariant

  /** A call of one of the registry's operations. */
  datatype Call =
    | SetAuthorityContractCall(principal: string)
    | SetReleaseFeeCall(newFee: int)
    | RequestReleaseCall(request: ReleaseRequest)
    | UpdateReleaseCall(id: int, newAmount: int, newRecipient: string)
    | VerifyAndReleaseCall(id: int, signature: seq<bv8>)
    | CancelReleaseCall(id: int)

  /** A call together with its ambient caller and block height. */
  datatype Tx = Tx(caller: string, blockHeight: int, call: Call)

  /** The state after a call and whether the call succeeded. */
  datatype Applied = Applied(next: Registry, ok: bool)

  function Apply(s: Registry, tx: Tx): Applied
  {
    match tx.call
    case SetAuthorityContractCall(principal) =>
      var st := SetAuthorityContract(s, principal); Applied(st.next, st.result.Ok?)
    case SetReleaseFeeCall(newFee) =>
      var st := SetReleaseFee(s, tx.caller, newFee); Applied(st.next, st.result.Ok?)
    case RequestReleaseCall(request) =>
      var st := RequestRelease(s, tx.blockHeight, request); Applied(st.next, st.result.Ok?)
    case UpdateReleaseCall(id, newAmount, newRecipient) =>
      var st := UpdateRelease(s, tx.caller, tx.blockHeight, id, newAmount, newRecipient); Applied(st.next, st.result.Ok?)
    case VerifyAndReleaseCall(id, signature) =>
      var st := VerifyAndRelease(s, tx.caller, tx.blockHeight, id, signature); Applied(st.next, st.result.Ok?)
    case CancelReleaseCall(id) =>
      var st := CancelRelease(s, tx.caller, id); Applied(st.next, st.result.Ok?)
  }

  /** The state after a sequence of calls, one after the other. */
  function Run(s: Registry, txs: seq<Tx>): Registry
    decreases |txs|
  {
    if |txs| == 0 then s else Run(Apply(s, txs[0]).next, txs[1..])
  }

  /** How many of the calls are requests that succeed, each in the state the earlier calls left. */
  function SuccessfulRequests(s: Registry, txs: seq<Tx>): nat
    decreases |txs|
  {
    if |txs| == 0 then 0
    else
      var applied := Apply(s, txs[0]);
      (if txs[0].call.RequestReleaseCall? && applied.ok then 1 else 0) + SuccessfulRequests(applied.next, txs[1..])
  }

  lemma ApplyPreservesInv(s: Registry, tx: Tx)
    requires Inv(s)
    ensures Inv(Apply(s, tx).next)
  {
    match tx.call
    case SetAuthorityContractCall(principal) => SetAuthorityContractPreservesInv(s, principal);
    case SetReleaseFeeCall(newFee) => SetReleaseFeePreservesInv(s, tx.caller, newFee);
    case RequestReleaseCall(request) => RequestReleasePreservesInv(s, tx.blockHeight, request);
    case UpdateReleaseCall(id, newAmount, newRecipient) =>
      UpdateReleasePreservesInv(s, tx.caller, tx.blockHeight, id, newAmount, newRecipient);
    case VerifyAndReleaseCall(id, signature) =>
      VerifyAndReleasePreservesInv(s, tx.caller, tx.blockHeight, id, signature);
    case CancelReleaseCall(id) => CancelReleasePreservesInv(s, tx.caller, id);
  }

  /** Every state reachable from a valid one keeps the invariant; in particular `released` implies
      `verified` for every stored record and every stored id is below the counter. */
  lemma {:induction false} RunPreservesInv(s: Registry, txs: seq<Tx>)
    requires Inv(s)
    ensures Inv(Run(s, txs))
    decreases |txs|
  {
    if |txs| > 0 {
      ApplyPreservesInv(s, txs[0]);
      RunPreservesInv(Apply(s, txs[0]).next, txs[1..]);
    }
  }

  /** Only a successful request moves the counter, and by exactly one. */
  lemma ApplyCountsRequests(s: Registry, tx: Tx)
    ensures Apply(s, tx).next.state.nextReleaseId
         == s.state.nextReleaseId + (if tx.call.RequestReleaseCall? && Apply(s, tx).ok then 1 else 0)
  {
  }

  lemma {:induction false} RunCountsRequests(s: Registry, txs: seq<Tx>)
    ensures Run(s, txs).state.nextReleaseId == s.state.nextReleaseId + SuccessfulRequests(s, txs)
    decreases |txs|
  {
    if |txs| > 0 {
      ApplyCountsRequests(s, txs[0]);
      RunCountsRequests(Apply(s, txs[0]).next, txs[1..]);
    }
  }

  /** After any sequence of calls from the reset state, the release count equals both the number
      of successful requests and the number of stored records, whatever was cancelled or released. */
  lemma ReleaseCountAfterRun(txs: seq<Tx>)
    ensures Run(Initial(), txs).state.nextReleaseId == SuccessfulRequests(Initial(), txs)
    ensures |Run(Initial(), txs).state.releases| == SuccessfulRequests(Initial(), txs)
  {
    InitialInv();
    RunPreservesInv(Initial(), txs);
    RunCountsRequests(Initial(), txs);
    RecordCountIsNextId(Run(Initial(), txs));
  }

  /** The terms of a record that no operation rewrites. */
  predicate SameTerms(r: Release, r': Release)
  {
    && r'.projectId == r.projectId
    && r'.milestoneId == r.milestoneId
    && r'.penaltyRate == r.penaltyRate
    && r'.interestRate == r.interestRate
    && r'.gracePeriod == r.gracePeriod
    && r'.location == r.location
    && r'.currency == r.currency
  }

  /** What a call can never undo: the effect logs are only appended to, records are never removed and
      their terms never rewritten, a released record never changes again, a configured authority is
      never replaced, and the counter never goes down. */
  ghost predicate HistoryKept(s: Registry, s': Registry)
  {
    && s.stxTransfers <= s'.stxTransfers
    && s.contractCalls <= s'.contractCalls
    && s.state.nextReleaseId <= s'.state.nextReleaseId
    && (s.state.authorityContract.Some? ==> s'.state.authorityContract == s.state.authorityContract)
    && (forall id :: id in s.state.releases ==> id in s'.state.releases && SameTerms(s.state.releases[id], s'.state.releases[id]))
    && (forall id :: id in s.state.releases && s.state.releases[id].released ==> s'.state.releases[id] == s.state.releases[id])
  }

  /** A failed call changes nothing; any call keeps the history. */
  lemma ApplyKeepsHistory(s: Registry, tx: Tx)
    requires Inv(s)
    ensures !Apply(s, tx).ok ==> Apply(s, tx).next == s
    ensures HistoryKept(s, Apply(s, tx).next)
  {
    var s' := Apply(s, tx).next;
    match tx.call
    case RequestReleaseCall(request) =>
      assert s.state.nextReleaseId !in s.state.releases;
    case _ =>
  }

  lemma {:induction false} RunKeepsHistory(s: Registry, txs: seq<Tx>)
    requires Inv(s)
    ensures HistoryKept(s, Run(s, txs))
    decreases |txs|
  {
    if |txs| > 0 {
      var s1 := Apply(s, txs[0]).next;
      ApplyKeepsHistory(s, txs[0]);
      ApplyPreservesInv(s, txs[0]);
      RunKeepsHistory(s1, txs[1..]);
    }
  }

  // ---------------------------------------------------------------------------------------------
  // Single operations

  /** A successful request hands out the current counter as a fresh id, stores the request's
      fields as a pending record stamped with the block height, appends the id to its project's
      list, and grows the registry by exactly one record; nothing else changes. */
  lemma RequestReleaseStoresRequest(s: Registry, blockHeight: int, a: ReleaseRequest)
    requires Inv(s)
    requires RequestRelease(s, blockHeight, a).result.Ok?
    ensures var step := RequestRelease(s, blockHeight, a);
      var id := step.result.value;
      && id == s.state.nextReleaseId && id !in s.state.releases
      && step.next.state.nextReleaseId == s.state.nextReleaseId + 1
      && |step.next.state.releases| == |s.state.releases| + 1
      && id in step.next.state.releases
      && var r := step.next.state.releases[id];
      && r.projectId == a.projectId && r.milestoneId == a.milestoneId && r.amount == a.amount
      && r.recipient == a.recipient && r.penaltyRate == a.penaltyRate && r.interestRate == a.interestRate
      && r.gracePeriod == a.gracePeriod && r.location == a.location && r.currency == a.currency
      && r.timestamp == blockHeight && r.status && !r.verified && !r.released
      && ProjectReleases(step.next, a.projectId) == ProjectReleases(s, a.projectId) + [id]
      && (forall other :: other in s.state.releases ==> step.next.state.releases[other] == s.state.releases[other])
      && step.next == s.(state := s.state.(
           releases := s.state.releases[id := NewRelease(a, blockHeight)],
           releasesByProject := s.state.releasesByProject[a.projectId := ProjectReleases(s, a.projectId) + [id]],
           nextReleaseId := id + 1))
  {
    var s' := RequestRelease(s, blockHeight, a).next;
    RequestReleasePreservesInv(s, blockHeight, a);
    RecordCountIsNextId(s);
    RecordCountIsNextId(s');
  }

  /** At capacity every request fails with `ERR_MAX_RELEASES_EXCEEDED` and changes nothing. */
  lemma RequestAtCapacityRejected(s: Registry, blockHeight: int, a: ReleaseRequest)
    requires s.state.nextReleaseId >= s.state.maxReleases
    ensures RequestRelease(s, blockHeight, a) == Step(s, Err(ERR_MAX_RELEASES_EXCEEDED))
  {
  }

  /** An update succeeds exactly when the record exists, the caller is its current recipient, the
      new amount is positive, the new recipient is real and the record is not released; it then
      rewrites only amount, recipient and timestamp, and overwrites the record's update slot. */
  lemma UpdateReleaseSucceedsIff(s: Registry, caller: string, blockHeight: int,
                                 id: int, newAmount: int, newRecipient: string)
    ensures var step := UpdateRelease(s, caller, blockHeight, id, newAmount, newRecipient);
      step.result.Ok? <==>
        (&& id in s.state.releases && caller == s.state.releases[id].recipient && newAmount > 0
         && newRecipient != PLACEHOLDER_PRINCIPAL && !s.state.releases[id].released)
    ensures var step := UpdateRelease(s, caller, blockHeight, id, newAmount, newRecipient);
      step.result.Ok? ==>
        && step.next.state.releases == s.state.releases[id := s.state.releases[id].(amount := newAmount, recipient := newRecipient, timestamp := blockHeight)]
        && step.next.state.releaseUpdates == s.state.releaseUpdates[id := ReleaseUpdate(newAmount, newRecipient, blockHeight, caller)]
        && step.next.(state := step.next.state.(releases := s.state.releases, releaseUpdates := s.state.releaseUpdates)) == s
  {
  }

  /** Whatever the record's state, an update by anyone but its current recipient is refused. */
  lemma UpdateByNonRecipientRejected(s: Registry, caller: string, blockHeight: int,
                                     id: int, newAmount: int, newRecipient: string)
    requires id in s.state.releases && caller != s.state.releases[id].recipient
    ensures UpdateRelease(s, caller, blockHeight, id, newAmount, newRecipient) == Step(s, Err(ERR_NOT_AUTHORIZED))
  {
  }

  /** A successful release is made by the oracle on an active pending record; it marks the record
      verified and released, charges one fee from the caller to the configured authority, and makes
      exactly two collaborator calls in order: the escrow transfer to the recipient, then the audit
      log entry for the id. */
  lemma VerifyAndReleaseEffects(s: Registry, caller: string, blockHeight: int, id: int, signature: seq<bv8>)
    requires Inv(s)
    requires VerifyAndRelease(s, caller, blockHeight, id, signature).result.Ok?
    ensures var s' := VerifyAndRelease(s, caller, blockHeight, id, signature).next;
      && id in s.state.releases && caller == s.state.oracleContract && |signature| == SIGNATURE_LENGTH
      && var r := s.state.releases[id];
      && r.status && !r.verified && !r.released
      && AuthorityConfigured(s)
      && s'.stxTransfers == s.stxTransfers + [StxTransfer(s.state.releaseFee, caller, s.state.authorityContract)]
      && s'.contractCalls == s.contractCalls + [EscrowTransfer(r.amount, caller, r.recipient), LogRelease(id)]
      && s'.state == s.state.(releases := s.state.releases[id := r.(verified := true, released := true, timestamp := blockHeight)])
      && ReleasedIds(s') == ReleasedIds(s) + {id}
      && |ReleasedIds(s')| == |ReleasedIds(s)| + 1
  {
    var s' := VerifyAndRelease(s, caller, blockHeight, id, signature).next;
    assert id !in ReleasedIds(s);
    assert ReleasedIds(s') == ReleasedIds(s) + {id};
  }

  /** Releasing is not idempotent: once a release succeeds, every further release of the same id
      fails, and the oracle's retry with a well-formed signature reports the record as already
      verified. */
  lemma VerifyAndReleaseOnlyOnce(s: Registry, caller: string, blockHeight: int, id: int, signature: seq<bv8>,
                                 caller2: string, blockHeight2: int, signature2: seq<bv8>)
    requires Inv(s)
    requires VerifyAndRelease(s, caller, blockHeight, id, signature).result.Ok?
    ensures var s' := VerifyAndRelease(s, caller, blockHeight, id, signature).next;
      && VerifyAndRelease(s', caller2, blockHeight2, id, signature2).result.Err?
      && (caller2 == caller && |signature2| == SIGNATURE_LENGTH ==>
            VerifyAndRelease(s', caller2, blockHeight2, id, signature2) == Step(s', Err(ERR_MILESTONE_NOT_VERIFIED)))
  {
  }

  /** After a release, cancelling fails for everyone, and the recipient is told it is released. */
  lemma CancelAfterReleaseFails(s: Registry, oracle: string, blockHeight: int, id: int, signature: seq<bv8>,
                                caller: string)
    requires VerifyAndRelease(s, oracle, blockHeight, id, signature).result.Ok?
    ensures var s' := VerifyAndRelease(s, oracle, blockHeight, id, signature).next;
      && CancelRelease(s', caller, id).result.Err?
      && (caller == s'.state.releases[id].recipient ==> CancelRelease(s', caller, id) == Step(s', Err(ERR_ALREADY_RELEASED)))
  {
  }

  /** A cancellation by the recipient of a pending record only clears its status; the record then
      cannot be released, yet its recipient may still amend it. */
  lemma CancelledRecordLifecycle(s: Registry, caller: string, id: int, oracle: string, blockHeight: int,
                                 signature: seq<bv8>, newAmount: int, newRecipient: string)
    requires Inv(s)
    requires CancelRelease(s, caller, id).result.Ok?
    requires newAmount > 0 && newRecipient != PLACEHOLDER_PRINCIPAL
    ensures var s' := CancelRelease(s, caller, id).next;
      && s' == s.(state := s.state.(releases := s.state.releases[id := s.state.releases[id].(status := false)]))
      && VerifyAndRelease(s', oracle, blockHeight, id, signature).result.Err?
      && UpdateRelease(s', caller, blockHeight, id, newAmount, newRecipient).result.Ok?
  {
  }

  /** The fee setter: a negative fee is refused first, then an unconfigured authority, then a caller
      who is not the authority; on success only the fee changes. */
  lemma SetReleaseFeeRules(s: Registry, caller: string, newFee: int)
    ensures var step := SetReleaseFee(s, caller, newFee);
      && (newFee < 0 ==> step == Step(s, Err(ERR_INVALID_FEE)))
      && (step.result.Ok? <==> newFee >= 0 && AuthorityConfigured(s) && caller == s.state.authorityContract.value)
      && (step.result.Ok? ==> step.next == s.(state := s.state.(releaseFee := newFee)))
      && (step.result.Err? ==> step.next == s)
  {
  }

  /** The authority is set at most once: the placeholder is refused, and once an authority is
      stored every later attempt fails and keeps it. */
  lemma AuthoritySetOnce(s: Registry, principal: string, principal2: string)
    ensures var step := SetAuthorityContract(s, principal);
      && (step.result.Ok? <==> principal != PLACEHOLDER_PRINCIPAL && s.state.authorityContract.None?)
      && (step.result.Ok? ==> step.next == s.(state := s.state.(authorityContract := Some(principal))))
      && (step.result.Ok? ==> SetAuthorityContract(step.next, principal2).result.Err?
                              && SetAuthorityContract(step.next, principal2).next == step.next)
  {
  }
}
