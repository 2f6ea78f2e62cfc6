/**
 When commands of the outbox are free: how long a lease lasts, when a failed
 command may be taken again, how much time lies between the claims of a run, and
 what each call is answered.
 */
module OutboxTiming {
  import opened Prelude
  import opened Outbox
  import opened OutboxRuns

  // ---------------------------------------------------------------------
  // From when and until when
  // ---------------------------------------------------------------------

  /** The command may be taken at these clock readings, while nothing else happens to it. */
  ghost predicate FreeFrom(s: Store, id: CommandId, t: int) {
    id in s.rows && forall n :: Claimable(s.rows[id], n) <==> n >= t
  }

  /** The claim holds up to this clock reading, after which the command can only be recovered. */
  ghost predicate LeasedUntil(s: Store, c: Claim, t: int) {
    && c.command in s.rows
    && (forall n :: Holds(s, c, n) <==> n <= t)
    && (forall n :: Expired(s.rows[c.command], n) <==> n > t)
    && (forall n :: !Claimable(s.rows[c.command], n))
  }

  /** A failed attempt waits for exactly its delay. */
  lemma RetryWaits(s: Store, now: int, call: Call)
    requires Valid(s) && call.Fail? && Step(s, now, call).1 == MarkedFailed(Retry)
    ensures FreeFrom(Step(s, now, call).0, call.claim.command, now + Delay(call.claim.attempt) * SECOND)
  {
    hide Delay, Valid;
  }

  /** New and released commands do not wait. */
  lemma NewAndReleasedAreFree(s: Store, now: int, call: Call, id: CommandId)
    requires Valid(s)
    ensures var (t, reply) := Step(s, now, call);
            && (call.Enqueue? && reply == Enqueued(id, Pending, true) && id !in s.rows ==> FreeFrom(t, id, now))
            && (call.Recover? && id in s.rows && Expired(s.rows[id], now) ==> FreeFrom(t, id, now))
  {
    hide Valid, Blank;
  }

  /** A claim or renewal holds for as many seconds as were asked for. */
  lemma LeaseLasts(s: Store, now: int, call: Call)
    requires Valid(s)
    ensures var (t, reply) := Step(s, now, call);
            && (call.TakeClaim? && reply.Claimed? ==> LeasedUntil(t, reply.claim, now + call.leaseSeconds * SECOND))
            && (call.Renew? && reply == Renewed ==> LeasedUntil(t, call.claim, now + call.leaseSeconds * SECOND))
  {
    hide Valid, Blank;
  }

  /** A settled command is neither free nor lost, and a refused call changes nothing. */
  lemma SettledIsNeverFree(s: Store, now: int, call: Call, n: int)
    requires Valid(s)
    ensures var (t, reply) := Step(s, now, call);
            && (reply == MarkedSucceeded || reply == MarkedFailed(DeadLetter) ==>
                  && (call.Succeed? || call.Fail?) && call.claim.command in t.rows
                  && !Claimable(t.rows[call.claim.command], n) && !Expired(t.rows[call.claim.command], n))
            && (reply.Refused? ==> t == s)
  {
    hide Valid, Blank;
  }

  /** Locks are on the rows under way and on no others, so a free row is not held back by one. */
  ghost predicate LocksMatch(s: Store) {
    forall id | id in s.rows ::
      && (s.rows[id].lockedBy.Some? <==> s.rows[id].status == Processing)
      && (s.rows[id].lockedUntil.Some? <==> s.rows[id].status == Processing)
  }

  lemma StepKeepsLocks(s: Store, now: int, call: Call)
    requires Valid(s) && LocksMatch(s)
    ensures LocksMatch(Step(s, now, call).0)
  {
    hide Delay, Valid, Blank;
  }

  lemma {:induction false} LocksAlwaysMatch(run: Run)
    ensures LocksMatch(StateAfter(run))
  {
    hide Step;
    if run != [] {
      var n := |run| - 1;
      LocksAlwaysMatch(run[..n]);
      StepKeepsLocks(StateAfter(run[..n]), run[n].now, run[n].call);
    }
  }

  // ---------------------------------------------------------------------
  // What a call is answered
  // ---------------------------------------------------------------------

  predicate Askable(worker: string, leaseSeconds: int) {
    Strip(worker) != "" && 10 <= leaseSeconds <= 3600
  }

  /** Why a call is refused, and that it is not refused otherwise. */
  lemma RefusedExactlyWhen(s: Store, now: int, call: Call)
    requires Valid(s)
    ensures var reply := Step(s, now, call).1;
            match call
            case TakeClaim(worker, leaseSeconds, picked) =>
              && (reply == Refused(InvalidLease) <==> !Askable(worker, leaseSeconds))
              && (reply.Claimed? <==>
                    && Askable(worker, leaseSeconds) && picked.Some? && picked.value in s.rows
                    && s.rows[picked.value].status in {Pending, Retry} && s.rows[picked.value].availableAt <= now
                    && (s.rows[picked.value].lockedUntil.Some? ==> s.rows[picked.value].lockedUntil.value < now))
              && (reply.Claimed? || reply == NothingToClaim || reply == Refused(InvalidLease))
            case Renew(c, leaseSeconds) =>
              && (reply == Refused(InvalidLease) <==> !Askable(c.worker, leaseSeconds))
              && (reply == Renewed <==> Askable(c.worker, leaseSeconds) && Holds(s, c, now))
              && (reply == Renewed || reply == Refused(InvalidLease) || reply == Refused(LeaseLost))
            case Succeed(c, _, _, _) =>
              reply == if Holds(s, c, now) then MarkedSucceeded else Refused(LeaseLost)
            case Fail(c, _, _, _, maxAttempts) =>
              && (reply == Refused(InvalidMaxAttempts) <==> maxAttempts <= 0)
              && (reply == Refused(LeaseLost) <==> maxAttempts > 0 && !Holds(s, c, now))
              && (reply == MarkedFailed(DeadLetter)
                  <==> maxAttempts > 0 && Holds(s, c, now) && c.attempt >= maxAttempts)
              && (reply == MarkedFailed(Retry) <==> maxAttempts > 0 && Holds(s, c, now) && c.attempt < maxAttempts)
            case _ => true
  {
    hide Delay, Valid, Holds;
  }

  /** Whoever passes the lease guard of a command is the worker on record, at the attempt on record. */
  lemma HoldersAgree(s: Store, c: Claim, t: int, d: Claim, u: int)
    requires Holds(s, c, t) && Holds(s, d, u) && c.command == d.command
    ensures c.worker == d.worker && c.attempt == d.attempt
  {
  }

  /** The text up to a length. */
  predicate CutTo(cut: string, text: string, n: nat) {
    cut <= text && |cut| == if |text| < n then |text| else n
  }

  /** What failed is on record: the beginnings of the code and of the message. */
  lemma FailureIsOnRecord(s: Store, now: int, call: Call)
    requires Valid(s) && call.Fail? && Step(s, now, call).1.MarkedFailed?
    ensures var t, id := Step(s, now, call).0, call.claim.command;
            && id in t.rows && t.rows[id].lastError.Some?
            && CutTo(t.rows[id].lastError.value.0, call.code, 100)
            && CutTo(t.rows[id].lastError.value.1, call.message, 600)
            && var k := ReceiptKey(id, Dispatch, if call.outcomeUnknown then UnknownOutcome else FailedOutcome,
                                   call.claim.request.payload);
               && k in t.receipts
               && (k !in s.receipts ==>
                     t.receipts[k] == Receipt(None, t.rows[id].lastError.value.0, call.claim.attempt))
  {
    hide Delay, Valid;
  }

  // ---------------------------------------------------------------------
  // The time that back-off takes
  // ---------------------------------------------------------------------

  ghost function FirstClaim(run: Run, id: CommandId): Option<int> {
    if run == [] then None
    else
      var n := |run| - 1;
      var before := FirstClaim(run[..n], id);
      if before.None? && ClaimsIn(ReplyAt(run, n), id) == 1 then Some(run[n].now) else before
  }

  ghost function LastClaim(run: Run, id: CommandId): Option<int> {
    if run == [] then None
    else
      var n := |run| - 1;
      if ClaimsIn(ReplyAt(run, n), id) == 1 then Some(run[n].now) else LastClaim(run[..n], id)
  }

  /** What has been scheduled so far has passed by the last claim, or will have by the next one. */
  ghost predicate Waited(s: Store, id: CommandId, now: int, first: Option<int>, last: Option<int>, backoff: nat) {
    if id !in s.rows || s.rows[id].status == Pending then first == None && backoff == 0
    else
      && first.Some? && last.Some? && last.value <= now
      && if s.rows[id].status == Retry then s.rows[id].availableAt >= first.value + backoff * SECOND
         else last.value >= first.value + backoff * SECOND
  }

  lemma WaitedStep(s: Store, before: int, now: int, call: Call, id: CommandId, first: Option<int>, last: Option<int>,
      backoff: nat)
    requires Valid(s) && before <= now && Waited(s, id, before, first, last, backoff)
    ensures var (t, reply) := Step(s, now, call);
            var claimed := ClaimsIn(reply, id) == 1;
            Waited(t, id, now, if claimed && first.None? then Some(now) else first,
                   if claimed then Some(now) else last, backoff + BackoffIn(call, reply, id))
  {
    hide Delay, Valid, Blank;
  }

  lemma WaitedInitially(id: CommandId, now: int)
    ensures Waited(EMPTY, id, now, None, None, 0)
  {
  }

  lemma {:induction false} AlwaysWaited(run: Run, id: CommandId, now: int)
    requires ClockNeverGoesBack(run) && (run != [] ==> now == run[|run| - 1].now)
    ensures Waited(StateAfter(run), id, now, FirstClaim(run, id), LastClaim(run, id), Backoff(run, id))
  {
    hide Step, Waited, BackoffIn, ClaimsIn;
    if run == [] {
      WaitedInitially(id, now);
    } else {
      var n := |run| - 1;
      var before := if n == 0 then now else run[n - 1].now;
      AlwaysWaited(run[..n], id, before);
      WaitedStep(StateAfter(run[..n]), before, now, run[n].call, id, FirstClaim(run[..n], id), LastClaim(run[..n], id),
                 Backoff(run[..n], id));
    }
  }

  /**
   Back-off is time that passes: the last claim of a command comes at least as
   many seconds after its first as failures have scheduled, and a command that
   waits is not free before.
   */
  lemma BackoffPasses(run: Run, id: CommandId)
    requires ClockNeverGoesBack(run) && Claims(run, id) > 0
    ensures FirstClaim(run, id).Some? && LastClaim(run, id).Some? && id in StateAfter(run).rows
    ensures var row, free := StateAfter(run).rows[id], FirstClaim(run, id).value + Backoff(run, id) * SECOND;
            if row.status == Retry then forall n | Claimable(row, n) :: n >= free
            else LastClaim(run, id).value >= free
  {
    hide StateAfter, Backoff;
    AlwaysWaited(run, id, if run == [] then 0 else run[|run| - 1].now);
    AttemptsCountClaims(run, id);
    if StateAfter(run).rows[id].status == Pending {
      PendingIsUnclaimed(run, id);
    }
  }

  lemma {:induction false} PendingIsUnclaimed(run: Run, id: CommandId)
    requires id in StateAfter(run).rows && StateAfter(run).rows[id].status == Pending
    ensures StateAfter(run).rows[id].attempts == 0
  {
    hide Valid, Blank, ValidLease;
    if run != [] {
      var p := run[..|run| - 1];
      if id in StateAfter(p).rows && StateAfter(p).rows[id].status == Pending {
        PendingIsUnclaimed(p, id);
      }
    }
  }

  /** A dead letter without expiries took at least the delays of its m claims: 2^m - 2 seconds for
      m up to 12. */
  lemma DeadLetterTookItsTime(run: Run, id: CommandId, m: nat)
    requires ClockNeverGoesBack(run) && m >= 1 && MaxAttemptsIs(run, m) && Expiries(run, id) == 0
    requires id in StateAfter(run).rows && StateAfter(run).rows[id].status == DeadLetter
    ensures FirstClaim(run, id).Some? && LastClaim(run, id).Some?
    ensures LastClaim(run, id).value - FirstClaim(run, id).value
            >= (if m <= 12 then Power2(m) - 2 else 4094 + 2048 * (m - 12)) * SECOND
  {
    hide StateAfter, Backoff, Power2;
    BackoffWithoutExpiries(run, id, m);
    BackoffPasses(run, id);
  }
}
