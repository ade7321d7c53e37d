# Payment releaser — a verified Dafny model

This project models `PaymentReleaserMock`, the in-memory stand-in for the on-chain payment-release
contract. The contract is a small registry of milestone payment releases:

- A set-once **authority** receives a fee on every payout.
- Requests create **release records**: project, milestone, amount, recipient, penalty, interest
  and grace terms, location, currency, and the lifecycle flags `status`, `verified` and `released`.
- Every record is listed under its project in a per-project index.
- The current recipient may **amend** a record; the latest amendment is kept in a single update slot.
- The **oracle** verifies and releases a record. Releasing moves the fee from the calling oracle to the authority, asks
  the escrow fund to transfer the amount, and asks the audit logger to log the release.
- The recipient may **cancel** a record that is still pending.

Every operation is one atomic step. It runs a fixed chain of checks, each with its own numeric
error code, and either reports the first failing check's code and changes nothing, or performs
its update and reports success.

## Layout

- `release_types.dfy` (`ReleaseTypes`): error codes, constants, the `Release` and `ReleaseUpdate`
  records, a request's parameters, the fee-transfer and collaborator-call log entries, and `Result`.
- `release_registry.dfy` (`ReleaseRegistry`):
  - `State` is the mock's `state` object; `Registry` is `State` plus the two effect logs.
  - There is one transition function per operation, written as the same chain of checks in the
    same order as the source.
  - The registry invariant `Inv` is defined here.
- `guard_chain.dfy` (`GuardChain`): an independent, declarative definition of "the first failing
  check decides the error".
- `release_guards.dfy` (`ReleaseGuards`): each operation's checks written as an ordered table.
  Each operation is proved to be decided by its table.
- `registry_invariant.dfy` (`RegistryInvariant`): the reset state satisfies `Inv`, every
  operation preserves it, and under it the counter equals the number of stored records.
- `registry_properties.dfy` (`RegistryProperties`):
  - Sequences of calls: the invariant holds after any run, the count equals the number of
    successful requests, and history is only appended to.
  - One lemma per lifecycle rule of each operation.
- `registry_scenarios.dfy` (`RegistryScenarios`): the repository's test cases, stated as facts
  about the transition functions.
- `payment_releaser.dfy` (`PaymentReleaser`): the class `PaymentReleaserMock`.
  - It has the source's fields `state`, `blockHeight`, `caller`, `stxTransfers` and `contractCalls`.
  - Each method updates them in place, in the source's order.
  - Each method is proved to make exactly the transition of the same name, and to keep `Inv`.

## Modelling decisions

- **Ambient context.** The tests assign `caller` and `blockHeight` directly. They are class fields
  here, and the transition functions take them as parameters.
- **Authority checks.** `setReleaseFee` and `requestRelease` test `!this.state.authorityContract`.
  That test also treats the empty string as "not configured", so `AuthorityConfigured` requires a
  non-empty authority. `setAuthorityContract` tests `!== null`, so an empty authority still counts
  as set there.
- **The model follows the code as written:**
  - A missing record is reported as `ERR_INVALID_UPDATE` (123) by `updateRelease`,
    `verifyAndRelease` and `cancelRelease` (lines 183, 207 and 224).
  - A second `setAuthorityContract` reports `ERR_AUTHORITY_NOT_SET` (109), from line 116.
  - `setReleaseFee` checks for a negative fee (line 123) before it checks the authority (line 124).
  - The penalty, interest and grace terms have upper bounds only (lines 146-148).
  - A second `verifyAndRelease` by the oracle reports `ERR_MILESTONE_NOT_VERIFIED` (104), because
    line 210 checks `verified` before line 211 checks `released`, and line 216 sets both together.
- **Default identities.** The escrow, oracle and logger identities default to the placeholder
  principal. That same value is refused as a recipient and as the authority.

## Model

| member | source | states |
|---|---|---|
| GuardChain.FirstFailure | tests/PaymentReleaser.test.ts:141-151 | The first failing check decides: no code exactly when every check holds; otherwise the code of the earliest failing check. |
| ReleaseGuards.SetAuthorityContractFirstFailureWins | tests/PaymentReleaser.test.ts:111-120 | The placeholder is refused (107), then an already-set authority (109). Any failure leaves the state unchanged; with both checks passed the call succeeds. |
| ReleaseGuards.SetReleaseFeeFirstFailureWins | tests/PaymentReleaser.test.ts:122-128 | The checks run in order: negative fee (120), then no configured authority (109), then caller not the authority (100). The first failure is reported with the state unchanged; otherwise the call succeeds. |
| ReleaseGuards.RequestReleaseFirstFailureWins | tests/PaymentReleaser.test.ts:141-151 | The eleven checks run in source order: capacity, project, milestone, amount, placeholder recipient, penalty, interest, grace, location, currency, authority. The first failure is reported with the state (counter included) unchanged; success exactly when all pass. |
| ReleaseGuards.UpdateReleaseFirstFailureWins | tests/PaymentReleaser.test.ts:182-187 | The checks run in order: missing record (123), caller not the recipient, amount ≤ 0, placeholder recipient, already released. The first failure is reported with the state unchanged. |
| ReleaseGuards.VerifyAndReleaseFirstFailureWins | tests/PaymentReleaser.test.ts:206-212 | The checks run in order: missing record, signature length not 65, caller not the oracle, verified, released, inactive. The first failure is reported and nothing changes, neither effect log included. |
| ReleaseGuards.CancelReleaseFirstFailureWins | tests/PaymentReleaser.test.ts:223-227 | The checks run in order: missing record, caller not the recipient, released, verified. The first failure is reported with the state unchanged. |
| RegistryInvariant.InitialInv | tests/PaymentReleaser.test.ts:92-109 | The reset state satisfies the registry invariant. |
| RegistryInvariant.RecordCountIsNextId | tests/PaymentReleaser.test.ts:234-236 | When the stored ids are exactly 0 .. counter-1, the number of records equals the counter. |
| RegistryInvariant.EmptyRegistryHasNoEffects | tests/PaymentReleaser.test.ts:213-218 | Under the invariant, with the counter at 0 there are no records, no fee transfers and no collaborator calls. |
| RegistryInvariant.SetAuthorityContractPreservesInv | tests/PaymentReleaser.test.ts:111-120 | Setting the authority keeps the invariant: the authority is never the placeholder, and no record exists before it is configured. |
| RegistryInvariant.SetReleaseFeePreservesInv | tests/PaymentReleaser.test.ts:122-128 | Setting the fee keeps the invariant: the fee is never negative. |
| RegistryInvariant.RequestReleasePreservesInv | tests/PaymentReleaser.test.ts:141-174 | A request keeps the invariant: ids stay dense, the new record is well formed, and the project index stays sound. |
| RegistryInvariant.RequestReleaseKeepsIndex | tests/PaymentReleaser.test.ts:169-173 | Appending the new id to its project's list keeps the index sound, ordered and complete. |
| RegistryInvariant.RequestReleaseIndexSound | tests/PaymentReleaser.test.ts:170-172 | After a request, every indexed id names a stored record of that project. |
| RegistryInvariant.RequestReleaseIndexOrdered | tests/PaymentReleaser.test.ts:170-173 | After a request every project list is strictly increasing, because the new id exceeds every stored id. |
| RegistryInvariant.RequestReleaseIndexComplete | tests/PaymentReleaser.test.ts:169-172 | After a request every stored record, the new one included, is listed under its project. |
| RegistryInvariant.UpdateReleasePreservesInv | tests/PaymentReleaser.test.ts:181-203 | An update keeps the invariant: the amended record and its update slot pass validation. |
| RegistryInvariant.VerifyAndReleasePreservesInv | tests/PaymentReleaser.test.ts:205-220 | A release keeps the invariant: released implies verified, and there is one fee transfer per released record and two calls per transfer. Every transfer goes to the authority; every audit entry names a released record. |
| RegistryInvariant.CancelReleasePreservesInv | tests/PaymentReleaser.test.ts:222-232 | A cancellation keeps the invariant. |
| RegistryProperties.ApplyPreservesInv | tests/PaymentReleaser.test.ts:111-232 | Any single call, successful or not, keeps the invariant. |
| RegistryProperties.RunPreservesInv | tests/PaymentReleaser.test.ts:111-232 | Any sequence of calls from a valid state keeps the invariant. In particular every stored record has `released` ⇒ `verified`, and every stored id is below the counter. |
| RegistryProperties.ApplyCountsRequests | tests/PaymentReleaser.test.ts:173 | The counter grows by exactly one on a successful request, and by nothing on any other call. |
| RegistryProperties.RunCountsRequests | tests/PaymentReleaser.test.ts:173 | Over a sequence of calls, the counter grows by the number of successful requests. |
| RegistryProperties.ReleaseCountAfterRun | tests/PaymentReleaser.test.ts:234-236 | After any sequence of calls from reset, the count equals the number of successful requests, and also the number of stored records. |
| RegistryProperties.ApplyKeepsHistory | tests/PaymentReleaser.test.ts:111-232 | A failed call changes nothing. Any call only appends to both logs and never lowers the counter. A set authority stays unchanged. Records are never removed and their terms never rewritten; a released record never changes again. |
| RegistryProperties.RunKeepsHistory | tests/PaymentReleaser.test.ts:111-232 | The same history guarantees hold across any sequence of calls. |
| RegistryProperties.RequestReleaseStoresRequest | tests/PaymentReleaser.test.ts:153-174 | A successful request returns the old counter as a fresh id and increments the counter by one. It stores one new record echoing every request field, stamped with the block height, active, unverified and unreleased. The id goes at the end of its project's list. Nothing else changes: other records, update slots, configuration, other projects' lists and both logs stay as they were. |
| RegistryProperties.RequestAtCapacityRejected | tests/PaymentReleaser.test.ts:141 | At capacity every request reports 114 and changes nothing. |
| RegistryProperties.UpdateReleaseSucceedsIff | tests/PaymentReleaser.test.ts:181-202 | An update succeeds if and only if: the record exists, the caller is its recipient, the amount is positive, the recipient is not the placeholder, and the record is unreleased. Success rewrites only amount, recipient and timestamp, and overwrites the update slot with (amount, recipient, block height, caller). |
| RegistryProperties.UpdateByNonRecipientRejected | tests/PaymentReleaser.test.ts:184 | Any caller other than the current recipient gets 100 and nothing changes. |
| RegistryProperties.VerifyAndReleaseEffects | tests/PaymentReleaser.test.ts:205-219 | A successful release: oracle caller, 65-byte signature, active pending record, configured authority. It appends one fee transfer (fee, caller, authority) and exactly two calls: escrow transfer, then audit log. Only the record's flags and timestamp change. |
| RegistryProperties.VerifyAndReleaseOnlyOnce | tests/PaymentReleaser.test.ts:210-211 | After a successful release, every further release of that id fails; the oracle's retry with a 65-byte signature gets 104. |
| RegistryProperties.CancelAfterReleaseFails | tests/PaymentReleaser.test.ts:222-227 | After a release, cancellation fails for every caller, and the recipient gets 106. |
| RegistryProperties.CancelledRecordLifecycle | tests/PaymentReleaser.test.ts:222-232 | A successful cancellation only clears the record's status. The record can then never be released, yet its recipient can still amend it. |
| RegistryProperties.SetReleaseFeeRules | tests/PaymentReleaser.test.ts:122-128 | A negative fee gets 120 first. Success holds if and only if the fee is ≥ 0, the authority is configured, and the caller is the authority. Success changes only the fee; failure changes nothing. |
| RegistryProperties.AuthoritySetOnce | tests/PaymentReleaser.test.ts:111-120 | Setting the authority succeeds if and only if the principal is not the placeholder and no authority is stored. Success stores exactly that principal, and every later attempt fails and keeps it. |
| RegistryScenarios.RequestScenario | tests/PaymentReleaser.test.ts:247-292 | The request tests: id 0 and the echoed record; a zero amount is refused with 103; with no authority a request gets 109. |
| RegistryScenarios.CountScenario | tests/PaymentReleaser.test.ts:458-485 | The count test: two requests make the count 2. With the capacity lowered to 1, the second request gets 114. |
| RegistryScenarios.UpdateScenario | tests/PaymentReleaser.test.ts:294-337 | The update tests: the recipient's amendment and its update slot; a stranger gets 100. |
| RegistryScenarios.ReleaseScenario | tests/PaymentReleaser.test.ts:339-456 | The release tests: flags set, one fee of 500 to the authority, the escrow transfer and then the log entry. A 64-byte signature gets 116, a stranger gets 100, and a cancel after release gets 106. |
| RegistryScenarios.CancelAndFeeScenario | tests/PaymentReleaser.test.ts:386-436 | The cancel and fee tests: cancellation clears status; the authority sets the fee to 1000. |
| PaymentReleaser.PaymentReleaserMock.constructor | tests/PaymentReleaser.test.ts:88-90 | A new mock holds the reset state, which satisfies the invariant. |
| PaymentReleaser.PaymentReleaserMock.Reset | tests/PaymentReleaser.test.ts:92-109 | Restores the defaults (counter 0, capacity 10000, fee 500, no authority, placeholder identities, empty maps and logs), with block height 0 and caller `ST1TEST`. |
| PaymentReleaser.PaymentReleaserMock.SetAuthorityContract | tests/PaymentReleaser.test.ts:111-120 | Updates the fields exactly as the `SetAuthorityContract` transition and returns its result; keeps the invariant. |
| PaymentReleaser.PaymentReleaserMock.SetReleaseFee | tests/PaymentReleaser.test.ts:122-128 | Updates the fields exactly as the `SetReleaseFee` transition and returns its result; keeps the invariant. |
| PaymentReleaser.PaymentReleaserMock.RequestRelease | tests/PaymentReleaser.test.ts:130-175 | Updates the fields exactly as the `RequestRelease` transition and returns its result; keeps the invariant. |
| PaymentReleaser.PaymentReleaserMock.GetRelease | tests/PaymentReleaser.test.ts:177-179 | Returns a record exactly for the ids 0 .. counter-1, and then the record stored under that id, which is well formed. |
| PaymentReleaser.PaymentReleaserMock.UpdateRelease | tests/PaymentReleaser.test.ts:181-203 | Updates the fields exactly as the `UpdateRelease` transition and returns its result; keeps the invariant. |
| PaymentReleaser.PaymentReleaserMock.VerifyAndRelease | tests/PaymentReleaser.test.ts:205-220 | Updates the fields and both logs exactly as the `VerifyAndRelease` transition and returns its result; keeps the invariant. |
| PaymentReleaser.PaymentReleaserMock.CancelRelease | tests/PaymentReleaser.test.ts:222-232 | Updates the fields exactly as the `CancelRelease` transition and returns its result; keeps the invariant. |
| PaymentReleaser.PaymentReleaserMock.GetReleaseCount | tests/PaymentReleaser.test.ts:234-236 | Always succeeds, with the number of stored records. Under the invariant that number equals the counter the source returns. |

## Left out

- The vitest scaffolding (`describe`, `it`, `expect`, `beforeEach`) is not behaviour. Its cases appear only as the scenario lemmas.
- The test that parses Clarity values with `uintCV` calls a foreign library whose code is not part of this model.
- The real escrow fund, audit logger and STX transfers are modelled only as entries appended to `stxTransfers` and `contractCalls`.
- Error constants that no operation returns have no behaviour, so they are not declared.
- JavaScript numbers are modelled as unbounded integers. Non-integer and non-finite values, and precision loss above 2^53, are not modelled.
- Strings are sequences of characters. The location length is counted in characters, not UTF-16 code units.
- The signature's content is not modelled; only its length is checked.
- Test code's direct writes into `state` (the capacity test lowers `maxReleases`) have no method in the class; they appear only in the scenarios, as state updates. Writes to `caller` and `blockHeight` are writes to the class fields of the same names.
- Aliasing is not modelled. The source pushes onto the project list array it just read from the map; the model stores a new list value, which is observably the same because the mock never hands that array out.
