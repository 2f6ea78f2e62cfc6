/**
 The durable command outbox: one row per idempotency key, moved from worker to
 worker by leases.

 This module holds the rows, the receipts and what each statement of the store
 does to them, as functions from one store to the next.  Every operation is one
 atomic step that reads the database clock once.
 */
module Outbox {
  import opened Prelude

  type CommandId = nat

  /** A JSON object: keys are unordered, nested values stand in canonical text. */
  type Payload = map<string, string>

  datatype Status = Pending | Processing | Succeeded | Retry | DeadLetter

  /** The input that an idempotency key is bound to. */
  datatype Request = Request(commandType: string, subject: string, payload: Payload)

  datatype Command = Command(
    key: string,
    request: Request,
    status: Status,
    attempts: nat,
    availableAt: int,
    lockedBy: Option<string>,
    lockedUntil: Option<int>,
    lastError: Option<(string, string)>,
    createdAt: int)

  datatype Stage = Commit | Dispatch | Lease
  datatype Outcome = SucceededOutcome | FailedOutcome | UnknownOutcome

  /** Receipts are unique per command, stage, outcome and payload. */
  datatype ReceiptKey = ReceiptKey(command: CommandId, stage: Stage, outcome: Outcome, payload: Payload)

  datatype Receipt = Receipt(externalId: Option<(string, string)>, details: string, attempt: nat)

  datatype Store = Store(
    rows: map<CommandId, Command>,
    keyIndex: map<string, CommandId>,
    receipts: map<ReceiptKey, Receipt>)

  /** What a worker holds while it runs a command. */
  datatype Claim = Claim(command: CommandId, key: string, request: Request, attempt: nat, worker: string)

  datatype StoreError =
    | MissingIdentity
    | IdempotencyConflict
    | DuplicateId
    | InvalidLease
    | LeaseLost
    | InvalidMaxAttempts

  datatype Call =
    | Enqueue(key: string, request: Request, newId: CommandId)
    | TakeClaim(worker: string, leaseSeconds: int, picked: Option<CommandId>)
    | Renew(claim: Claim, leaseSeconds: int)
    | Succeed(claim: Claim, externalSystem: string, externalId: string, details: string)
    | Fail(claim: Claim, code: string, message: string, outcomeUnknown: bool, maxAttempts: int)
    | Recover

  datatype Reply =
    | Enqueued(command: CommandId, status: Status, created: bool)
    | Claimed(claim: Claim)
    | NothingToClaim
    | Renewed
    | MarkedSucceeded
    | MarkedFailed(status: Status)
    | Recovered(receipts: nat)
    | Refused(error: StoreError)

  /** Clock readings are whole microseconds. */
  const SECOND := 1_000_000

  const EMPTY := Store(map[], map[], map[])

  /** The unique index on idempotency keys agrees with the rows. */
  ghost predicate Valid(s: Store) {
    && (forall k :: k in s.keyIndex ==> s.keyIndex[k] in s.rows && s.rows[s.keyIndex[k]].key == k)
    && (forall id :: id in s.rows ==> s.rows[id].key in s.keyIndex && s.keyIndex[s.rows[id].key] == id)
  }

  predicate ValidLease(worker: string, leaseSeconds: int) {
    !Blank(worker) && 10 <= leaseSeconds <= 3600
  }

  predicate Claimable(row: Command, now: int) {
    && row.status in {Pending, Retry}
    && row.availableAt <= now
    && (row.lockedUntil.None? || row.lockedUntil.value < now)
  }

  /** The guard of every settlement and renewal: this exact claim, and still in time. */
  predicate Holds(s: Store, c: Claim, now: int) {
    && c.command in s.rows
    && var row := s.rows[c.command];
    && row.status == Processing
    && row.lockedBy == Some(c.worker)
    && row.attempts == c.attempt
    && row.lockedUntil.Some? && row.lockedUntil.value >= now
  }

  predicate Expired(row: Command, now: int) {
    row.status == Processing && row.lockedUntil.Some? && row.lockedUntil.value < now
  }

  /** Seconds until a failed attempt may be taken again. */
  function Delay(attempt: nat): nat {
    var d := Power2(if attempt < 11 then attempt else 11);
    if d < 3600 then d else 3600
  }

  /** A receipt insert that gives way to one already there. */
  function AddReceipt(receipts: map<ReceiptKey, Receipt>, k: ReceiptKey, r: Receipt): map<ReceiptKey, Receipt> {
    if k in receipts then receipts else receipts[k := r]
  }

  function NewRow(now: int, key: string, request: Request): Command {
    Command(key, request, Pending, 0, now, None, None, None, now)
  }

  function EnqueueStep(s: Store, now: int, key: string, request: Request, newId: CommandId): (Store, Reply)
    requires Valid(s)
  {
    if Blank(key) || Blank(request.commandType) || Blank(request.subject) then (s, Refused(MissingIdentity))
    else if key in s.keyIndex then
      var id := s.keyIndex[key];
      if s.rows[id].request == request
      then (s, Enqueued(id, s.rows[id].status, false))
      else (s, Refused(IdempotencyConflict))
    else if newId in s.rows then (s, Refused(DuplicateId))
    else
      (s.(rows := s.rows[newId := NewRow(now, key, request)], keyIndex := s.keyIndex[key := newId]),
       Enqueued(newId, Pending, true))
  }

  /** `picked` is the row that is first in line and not locked by another transaction. */
  function ClaimStep(s: Store, now: int, worker: string, leaseSeconds: int, picked: Option<CommandId>): (Store, Reply) {
    if !ValidLease(worker, leaseSeconds) then (s, Refused(InvalidLease))
    else if picked.None? || picked.value !in s.rows || !Claimable(s.rows[picked.value], now) then (s, NothingToClaim)
    else
      var row := s.rows[picked.value].(
        status := Processing,
        attempts := s.rows[picked.value].attempts + 1,
        lockedBy := Some(worker),
        lockedUntil := Some(now + leaseSeconds * SECOND));
      (s.(rows := s.rows[picked.value := row]),
       Claimed(Claim(picked.value, row.key, row.request, row.attempts, worker)))
  }

  function RenewStep(s: Store, now: int, c: Claim, leaseSeconds: int): (Store, Reply) {
    if !ValidLease(c.worker, leaseSeconds) then (s, Refused(InvalidLease))
    else if !Holds(s, c, now) then (s, Refused(LeaseLost))
    else
      var row := s.rows[c.command].(lockedUntil := Some(now + leaseSeconds * SECOND));
      (s.(rows := s.rows[c.command := row]), Renewed)
  }

  function SucceedStep(s: Store, now: int, c: Claim, system: string, externalId: string,
      details: string): (Store, Reply) {
    if !Holds(s, c, now) then (s, Refused(LeaseLost))
    else
      var row := s.rows[c.command].(status := Succeeded, lockedBy := None, lockedUntil := None);
      var key := ReceiptKey(c.command, Commit, SucceededOutcome, c.request.payload);
      (s.(rows := s.rows[c.command := row],
          receipts := AddReceipt(s.receipts, key, Receipt(Some((system, externalId)), details, c.attempt))),
       MarkedSucceeded)
  }

  function Prefix(s: string, n: nat): string {
    if |s| <= n then s else s[..n]
  }

  function FailStep(s: Store, now: int, c: Claim, code: string, message: string, outcomeUnknown: bool,
      maxAttempts: int): (Store, Reply) {
    if maxAttempts < 1 then (s, Refused(InvalidMaxAttempts))
    else if !Holds(s, c, now) then (s, Refused(LeaseLost))
    else
      var status := if c.attempt >= maxAttempts then DeadLetter else Retry;
      var row := s.rows[c.command].(
        status := status,
        availableAt := now + Delay(c.attempt) * SECOND,
        lockedBy := None, lockedUntil := None,
        lastError := Some((Prefix(code, 100), Prefix(message, 600))));
      var key := ReceiptKey(c.command, Dispatch,
                            if outcomeUnknown then UnknownOutcome else FailedOutcome, c.request.payload);
      (s.(rows := s.rows[c.command := row],
          receipts := AddReceipt(s.receipts, key, Receipt(None, Prefix(code, 100), c.attempt))),
       MarkedFailed(status))
  }

  function LeaseKey(id: CommandId, row: Command): ReceiptKey {
    ReceiptKey(id, Lease, UnknownOutcome, row.request.payload)
  }

  const LEASE_EXPIRED := "LEASE_EXPIRED"

  function ReleasedRow(row: Command, now: int): Command {
    row.(status := Retry, availableAt := now, lockedBy := None, lockedUntil := None,
         lastError := Some((LEASE_EXPIRED, "worker lease expired; reconcile before retry")))
  }

  function ExpiredIds(s: Store, now: int): set<CommandId> {
    set id | id in s.rows && Expired(s.rows[id], now)
  }

  /** The expired commands for which no lease receipt exists yet. */
  function FirstExpiries(rows: map<CommandId, Command>, receipts: map<ReceiptKey, Receipt>, now: int): set<CommandId> {
    set id | id in rows && Expired(rows[id], now) && LeaseKey(id, rows[id]) !in receipts
  }

  /** The update of the recovery statement. */
  function ReleasedRows(rows: map<CommandId, Command>, now: int): map<CommandId, Command> {
    map id | id in rows :: if Expired(rows[id], now) then ReleasedRow(rows[id], now) else rows[id]
  }

  /** The insert of the recovery statement. */
  function LeaseReceipts(rows: map<CommandId, Command>, ids: set<CommandId>): map<ReceiptKey, Receipt>
    requires ids <= rows.Keys
  {
    map id | id in ids :: LeaseKey(id, rows[id]) := Receipt(None, LEASE_EXPIRED, 0)
  }

  function RecoverStep(s: Store, now: int): (Store, Reply) {
    var first := FirstExpiries(s.rows, s.receipts, now);
    (s.(rows := ReleasedRows(s.rows, now), receipts := s.receipts + LeaseReceipts(s.rows, first)),
     Recovered(|first|))
  }

  function Step(s: Store, now: int, call: Call): (r: (Store, Reply))
    requires Valid(s)
    ensures Valid(r.0)
  {
    match call
    case Enqueue(key, request, newId) => EnqueueStep(s, now, key, request, newId)
    case TakeClaim(worker, leaseSeconds, picked) => ClaimStep(s, now, worker, leaseSeconds, picked)
    case Renew(c, leaseSeconds) => RenewStep(s, now, c, leaseSeconds)
    case Succeed(c, system, externalId, details) => SucceedStep(s, now, c, system, externalId, details)
    case Fail(c, code, message, unknown, maxAttempts) => FailStep(s, now, c, code, message, unknown, maxAttempts)
    case Recover => RecoverStep(s, now)
  }
}
