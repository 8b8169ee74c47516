/** The SDK-to-store wire format (rootsign/ingest/schemas.py), as far as the model reads it. */
module Wire {
  import opened Common
  import opened Hashing

  datatype Version = Version(major: nat, minor: nat)

  datatype ErrorCode =
    | SchemaVersionMismatch
    | UnknownAgent
    | SessionNotFound
    | SessionIsClosed
    | SessionAlreadyExists
    | DuplicateEvent
    | ActionNotFound
    | ActionAlreadyResolved
    | ApprovalParentNotFound
    | ValidationError
    | HashChainBroken
    | StoreUnavailable
    | WriteTimeout
    | RateLimited
    | InternalError

  /** `status` is free text on the wire; only two values mean anything. */
  datatype Status = Accepted | Rejected | Unrecognised

  datatype Response = Response(
    status: Status,
    eventId: Id,
    entityId: Option<Id>,
    number: Option<int>,
    selfHash: Option<Hash>,
    code: Option<ErrorCode>,
    message: string,
    retryable: Option<bool>)

  function Accept(eventId: Id, entityId: Option<Id>, number: Option<int>, selfHash: Option<Hash>): Response {
    Response(Accepted, eventId, entityId, number, selfHash, None, "", None)
  }

  function Reject(eventId: Id, code: ErrorCode, message: string, retryable: bool): Response {
    Response(Rejected, eventId, None, None, None, Some(code), message, Some(retryable))
  }

  /** The wire flag decides, not the code. */
  predicate NeedsRetry(r: Response) {
    r.status == Rejected && r.retryable == Some(true)
  }

  datatype Decision = Approve | Decline | Escalate

  datatype ApproverType = Human | AutomatedPolicy | TimeoutAutoApproved | TimeoutAutoRejected

  /** An ACTION_RECORD payload; the last four fields are the chain seal. */
  datatype ActionPayload = ActionPayload(
    toolName: string,
    inputHash: Hash,
    outputHash: Option<Hash>,
    timestamp: int,
    inputRedacted: Option<string>,
    outputRedacted: Option<string>,
    auth: Option<AuthStatus>,
    actionId: Option<Id>,
    number: Option<int>,
    prevHash: Option<Hash>,
    selfHash: Option<Hash>)

  datatype ApprovalPayload = ApprovalPayload(
    actionId: Id,
    approverType: ApproverType,
    decision: Decision,
    timestamp: int,
    parent: Option<Id>)

  datatype SessionStatus = Running | Completed | Failed | Abandoned

  datatype Body =
    | SessionOpen
    | ActionRecord(action: ActionPayload)
    | DecisionRecord
    | ApprovalRecord(approval: ApprovalPayload)
    | SessionClose(outcome: SessionStatus)

  datatype Envelope = Envelope(
    version: Version,
    eventId: Id,
    emittedAt: int,
    agentId: Id,
    sessionId: Id,
    body: Body)

  /** The sequence number an envelope's payload carries. */
  function SequenceOf(e: Envelope): Option<int> {
    if e.body.ActionRecord? then e.body.action.number else None
  }
}
