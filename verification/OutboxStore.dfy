/**
 The store as it is executed: one object over the `command_outbox` and
 `command_receipts` tables, every method one transaction.
 */
module OutboxStore {
  import opened Prelude
  import opened Outbox

  class EnterpriseStore {
    var rows: map<CommandId, Command>
    var keyIndex: map<string, CommandId>
    var receipts: map<ReceiptKey, Receipt>

    ghost function View(): Store
      reads this
    {
      Store(rows, keyIndex, receipts)
    }

    constructor ()
      ensures View() == EMPTY && Valid(View())
    {
      rows, keyIndex, receipts := map[], map[], map[];
    }

    method EnqueueCommand(now: int, key: string, request: Request, newId: CommandId) returns (reply: Reply)
      requires Valid(View())
      modifies this
      ensures (View(), reply) == Step(old(View()), now, Enqueue(key, request, newId))
      ensures Valid(View())
    {
      if Blank(key) || Blank(request.commandType) || Blank(request.subject) {
        return Refused(MissingIdentity);
      }
      var id, created;
      if key !in keyIndex {
        if newId in rows {
          return Refused(DuplicateId);
        }
        rows := rows[newId := NewRow(now, key, request)];
        keyIndex := keyIndex[key := newId];
        id, created := newId, true;
      } else {
        id, created := keyIndex[key], false;
      }
      if rows[id].request != request {
        return Refused(IdempotencyConflict);
      }
      return Enqueued(id, rows[id].status, created);
    }

    /**
     Takes the oldest claimable row, skipping the rows that other transactions
     have locked at this moment.
     */
    method ClaimCommand(now: int, worker: string, leaseSeconds: int, locked: set<CommandId>) returns (reply: Reply)
      requires Valid(View())
      modifies this`rows
      ensures reply.Claimed? || View() == old(View())
      ensures reply.Refused? <==> !ValidLease(worker, leaseSeconds)
      ensures reply == NothingToClaim <==>
        && ValidLease(worker, leaseSeconds)
        && forall id :: id in old(rows) && Claimable(old(rows)[id], now) ==> id in locked
      ensures reply.Claimed? ==>
        var id := reply.claim.command;
        && (View(), reply) == Step(old(View()), now, TakeClaim(worker, leaseSeconds, Some(id)))
        && id in old(rows) && Claimable(old(rows)[id], now) && id !in locked
        && forall other :: other in old(rows) && Claimable(old(rows)[other], now) && other !in locked
             ==> old(rows)[id].createdAt <= old(rows)[other].createdAt
      ensures Valid(View())
    {
      hide Valid, Blank, ValidLease;
      if !ValidLease(worker, leaseSeconds) {
        return Refused(InvalidLease);
      }
      var candidates := set id | id in rows && Claimable(rows[id], now) && id !in locked;
      if candidates == {} {
        assert forall id :: id in rows && Claimable(rows[id], now) && id !in locked ==> id in candidates;
        return NothingToClaim;
      }
      var picked := Oldest(candidates);
      var row := rows[picked].(
        status := Processing,
        attempts := rows[picked].attempts + 1,
        lockedBy := Some(worker),
        lockedUntil := Some(now + leaseSeconds * SECOND));
      rows := rows[picked := row];
      return Claimed(Claim(picked, row.key, row.request, row.attempts, worker));
    }

    /** `ORDER BY created_at LIMIT 1`. */
    method Oldest(candidates: set<CommandId>) returns (picked: CommandId)
      requires candidates != {} && candidates <= rows.Keys
      ensures picked in candidates
      ensures forall id :: id in candidates ==> rows[picked].createdAt <= rows[id].createdAt
    {
      picked :| picked in candidates;
      var rest := candidates - {picked};
      while rest != {}
        invariant picked in candidates && rest <= candidates
        invariant forall id :: id in candidates && id !in rest ==> rows[picked].createdAt <= rows[id].createdAt
        decreases rest
      {
        var id :| id in rest;
        if rows[id].createdAt < rows[picked].createdAt {
          picked := id;
        }
        rest := rest - {id};
      }
    }

    method RenewCommandLease(now: int, c: Claim, leaseSeconds: int) returns (reply: Reply)
      requires Valid(View())
      modifies this`rows
      ensures (View(), reply) == Step(old(View()), now, Renew(c, leaseSeconds))
      ensures Valid(View())
    {
      hide Valid, Blank, ValidLease;
      if !ValidLease(c.worker, leaseSeconds) {
        return Refused(InvalidLease);
      }
      var held := IsHeld(c, now);
      if !held {
        return Refused(LeaseLost);
      }
      rows := rows[c.command := rows[c.command].(lockedUntil := Some(now + leaseSeconds * SECOND))];
      return Renewed;
    }

    /** The `WHERE` clause of every guarded update. */
    method IsHeld(c: Claim, now: int) returns (held: bool)
      ensures held <==> Holds(View(), c, now)
    {
      return
        && c.command in rows && rows[c.command].status == Processing
        && rows[c.command].lockedBy == Some(c.worker) && rows[c.command].attempts == c.attempt
        && rows[c.command].lockedUntil.Some? && rows[c.command].lockedUntil.value >= now;
    }

    /** `INSERT ... ON CONFLICT DO NOTHING` on the receipts. */
    method InsertReceipt(k: ReceiptKey, r: Receipt)
      modifies this`receipts
      ensures receipts == AddReceipt(old(receipts), k, r)
    {
      if k !in receipts {
        receipts := receipts[k := r];
      }
    }

    method MarkSucceeded(now: int, c: Claim, externalSystem: string, externalId: string,
        details: string) returns (reply: Reply)
      requires Valid(View())
      modifies this
      ensures (View(), reply) == Step(old(View()), now, Succeed(c, externalSystem, externalId, details))
      ensures Valid(View())
    {
      hide Valid, Blank;
      var held := IsHeld(c, now);
      if !held {
        return Refused(LeaseLost);
      }
      rows := rows[c.command := rows[c.command].(status := Succeeded, lockedBy := None, lockedUntil := None)];
      InsertReceipt(ReceiptKey(c.command, Commit, SucceededOutcome, c.request.payload),
                    Receipt(Some((externalSystem, externalId)), details, c.attempt));
      return MarkedSucceeded;
    }

    method MarkFailed(now: int, c: Claim, code: string, message: string, outcomeUnknown: bool,
        maxAttempts: int) returns (reply: Reply)
      requires Valid(View())
      modifies this
      ensures (View(), reply) == Step(old(View()), now, Fail(c, code, message, outcomeUnknown, maxAttempts))
      ensures Valid(View())
    {
      hide Valid, Blank, Delay, Prefix;
      if maxAttempts < 1 {
        return Refused(InvalidMaxAttempts);
      }
      var final := c.attempt >= maxAttempts;
      var status := if final then DeadLetter else Retry;
      var delay := Delay(c.attempt);
      var held := IsHeld(c, now);
      if !held {
        return Refused(LeaseLost);
      }
      rows := rows[c.command := rows[c.command].(
        status := status, availableAt := now + delay * SECOND, lockedBy := None, lockedUntil := None,
        lastError := Some((Prefix(code, 100), Prefix(message, 600))))];
      InsertReceipt(ReceiptKey(c.command, Dispatch,
                               if outcomeUnknown then UnknownOutcome else FailedOutcome, c.request.payload),
                    Receipt(None, Prefix(code, 100), c.attempt));
      return MarkedFailed(status);
    }

    /** One statement: release the expired rows and insert their receipts. */
    method RecoverExpiredLeases(now: int) returns (reply: Reply)
      requires Valid(View())
      modifies this
      ensures (View(), reply) == Step(old(View()), now, Recover)
      ensures Valid(View())
    {
      hide Valid, Blank, LeaseReceipts, ReleasedRows;
      var inserted := FirstExpiries(rows, receipts, now);
      receipts := receipts + LeaseReceipts(rows, inserted);
      rows := ReleasedRows(rows, now);
      return Recovered(|inserted|);
    }
  }
}
