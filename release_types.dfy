/** Values shared by the payment-release registry: error codes, constants and records. */
module ReleaseTypes {

  // Error codes returned by the registry's operations.
  const ERR_NOT_AUTHORIZED: int := 100
  const ERR_INVALID_PROJECT_ID: int := 101
  const ERR_INVALID_MILESTONE_ID: int := 102
  const ERR_INVALID_AMOUNT: int := 103
  const ERR_MILESTONE_NOT_VERIFIED: int := 104
  const ERR_ALREADY_RELEASED: int := 106
  const ERR_INVALID_RECIPIENT: int := 107
  const ERR_AUTHORITY_NOT_SET: int := 109
  const ERR_INVALID_PENALTY: int := 110
  const ERR_INVALID_INTEREST: int := 111
  const ERR_INVALID_STATUS: int := 113
  const ERR_MAX_RELEASES_EXCEEDED: int := 114
  const ERR_INVALID_SIGNATURE: int := 116
  const ERR_INVALID_GRACE_PERIOD: int := 117
  const ERR_INVALID_LOCATION: int := 118
  const ERR_INVALID_CURRENCY: int := 119
  const ERR_INVALID_FEE: int := 120
  const ERR_INVALID_UPDATE: int := 123

  /** The well-known null principal: refused as recipient and as authority, and the default
      identity of the escrow, oracle and logger collaborators. */
  const PLACEHOLDER_PRINCIPAL: string := "SP000000000000000000002Q6VF78"
  const DEFAULT_CALLER: string := "ST1TEST"
  const DEFAULT_MAX_RELEASES: int := 10000
  const DEFAULT_RELEASE_FEE: int := 500
  const SIGNATURE_LENGTH: int := 65
  const MAX_PENALTY_RATE: int := 100
  const MAX_INTEREST_RATE: int := 20
  const MAX_GRACE_PERIOD: int := 30
  const MAX_LOCATION_LENGTH: int := 100
  const CURRENCIES: seq<string> := ["STX", "USD", "BTC"]

  // Collaborators named in the effect log of a release.
  const ESCROW_FUND: string := ".escrow-fund"
  const AUDIT_LOGGER: string := ".audit-logger"

  datatype Option<T> = None | Some(value: T)

  /** The `{ ok, value }` result of an operation: a value on success, a numeric error code otherwise. */
  datatype Result<T> = Ok(value: T) | Err(code: int)

  /** One release record, keyed by its id in the registry. */
  datatype Release = Release(
    projectId: int,
    milestoneId: int,
    amount: int,
    recipient: string,
    timestamp: int,
    status: bool,
    penaltyRate: int,
    interestRate: int,
    gracePeriod: int,
    location: string,
    currency: string,
    verified: bool,
    released: bool)

  /** The single retained amendment of a record. */
  datatype ReleaseUpdate = ReleaseUpdate(
    updateAmount: int,
    updateRecipient: string,
    updateTimestamp: int,
    updater: string)

  /** The arguments of `requestRelease`, in the order the operation takes them. */
  datatype ReleaseRequest = ReleaseRequest(
    projectId: int,
    milestoneId: int,
    amount: int,
    recipient: string,
    penaltyRate: int,
    interestRate: int,
    gracePeriod: int,
    location: string,
    currency: string)

  /** A fee transfer in native tokens; `to` is the authority, which may in principle be unset. */
  datatype StxTransfer = StxTransfer(amount: int, from: string, to: Option<string>)

  datatype CallArg = Num(n: int) | Text(s: string)

  /** A call into a collaborator contract, as recorded in the effect log. */
  datatype ContractCall = ContractCall(contract: string, methodName: string, args: seq<CallArg>)

  /** The escrow transfer that pays out a release. */
  function EscrowTransfer(amount: int, from: string, to: string): ContractCall
  {
    ContractCall(ESCROW_FUND, "transfer", [Num(amount), Text(from), Text(to)])
  }

  /** The audit-log entry written for a release. */
  function LogRelease(id: int): ContractCall
  {
    ContractCall(AUDIT_LOGGER, "log-release", [Num(id)])
  }

  /** A location is present (non-empty) and at most 100 characters long. */
  predicate ValidLocation(location: string)
  {
    0 < |location| <= MAX_LOCATION_LENGTH
  }

  predicate SupportedCurrency(currency: string)
  {
    currency in CURRENCIES
  }
}
