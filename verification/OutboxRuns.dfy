/**
 Safety of the command outbox over whole runs: any number of workers, any
 interleaving of calls, clock readings that never go back.
 */
module OutboxRuns {
  import opened Prelude
  import opened Outbox

  datatype Entry = Entry(now: int, call: Call)

  type Run = seq<Entry>

  function StateAfter(run: Run): (s: Store)
    ensures Valid(s)
  {
    if run == [] then EMPTY
    else
      var last := run[|run| - 1];
      Step(StateAfter(run[..|run| - 1]), last.now, last.call).0
  }

  /** The answer given to call number `i`. */
  function ReplyAt(run: Run, i: nat): Reply
    requires i < |run|
  {
    Step(StateAfter(run[..i]), run[i].now, run[i].call).1
  }

  ghost predicate ClockNeverGoesBack(run: Run) {
    forall i, j | 0 <= i < j < |run| :: run[i].now <= run[j].now
  }

  ghost predicate ClockAtLeast(run: Run, t: int) {
    forall i | 0 <= i < |run| :: t <= run[i].now
  }

  lemma StateAfterPrefix(run: Run, i: nat)
    requires i < |run|
    ensures StateAfter(run[..i + 1]) == Step(StateAfter(run[..i]), run[i].now, run[i].call).0
  {
    assert run[..i + 1][..i] == run[..i];
  }

  // ---------------------------------------------------------------------
  // What one step keeps
  // ---------------------------------------------------------------------

  /** How a single row may change in one step. */
  ghost predicate RowStep(before: Command, after: Command) {
    && after.key == before.key
    && after.request == before.request
    && after.createdAt == before.createdAt
    && before.attempts <= after.attempts <= before.attempts + 1
    && (after.attempts > before.attempts ==> before.status in {Pending, Retry} && after.status == Processing)
    && (before.status in {Succeeded, DeadLetter} ==> after == before)
  }

  lemma StepKeepsRows(s: Store, now: int, call: Call)
    requires Valid(s)
    ensures var t := Step(s, now, call).0;
            && (forall id :: id in s.rows ==> id in t.rows && RowStep(s.rows[id], t.rows[id]))
            && (forall k :: k in s.keyIndex ==> k in t.keyIndex && t.keyIndex[k] == s.keyIndex[k])
  {
    hide Valid, Blank, ValidLease;
  }

  /** A later row of the same command, any number of steps on. */
  ghost predicate RowLater(before: Command, after: Command) {
    && after.key == before.key
    && after.request == before.request
    && before.attempts <= after.attempts
    && (before.status in {Succeeded, DeadLetter} ==> after == before)
  }

  lemma {:induction false} RowsOnlyMoveForward(run: Run, i: nat, id: CommandId)
    requires i <= |run| && id in StateAfter(run[..i]).rows
    ensures id in StateAfter(run).rows && RowLater(StateAfter(run[..i]).rows[id], StateAfter(run).rows[id])
    decreases |run|
  {
    hide Step;
    if i == |run| {
      assert run[..i] == run;
    } else {
      var n := |run| - 1;
      assert run[..n][..i] == run[..i];
      RowsOnlyMoveForward(run[..n], i, id);
      StepKeepsRows(StateAfter(run[..n]), run[n].now, run[n].call);
    }
  }

  // ---------------------------------------------------------------------
  // Leases
  // ---------------------------------------------------------------------

  /** Call number `i` handed out the claim `c`. */
  ghost predicate ClaimedAt(run: Run, i: nat, c: Claim) {
    i < |run| && ReplyAt(run, i) == Claimed(c)
  }

  lemma ClaimIsRow(run: Run, i: nat, c: Claim)
    requires ClaimedAt(run, i, c)
    ensures c.command in StateAfter(run[..i]).rows && c.command in StateAfter(run[..i + 1]).rows
    ensures var before, after := StateAfter(run[..i]).rows[c.command], StateAfter(run[..i + 1]).rows[c.command];
            && before.attempts + 1 == after.attempts == c.attempt
            && after.request == c.request && after.key == c.key
  {
    hide Valid, Blank, ValidLease;
    StateAfterPrefix(run, i);
  }

  /** A later claim of the same command always has a higher fencing number. */
  lemma LaterClaimHasHigherAttempt(run: Run, i: nat, c: Claim, j: nat, d: Claim)
    requires i < j && ClaimedAt(run, i, c) && ClaimedAt(run, j, d) && c.command == d.command
    ensures c.attempt < d.attempt
  {
    ClaimIsRow(run, i, c);
    ClaimIsRow(run, j, d);
    hide StateAfter;
    assert run[..j][..i + 1] == run[..i + 1];
    RowsOnlyMoveForward(run[..j], i + 1, c.command);
  }

  /** At no clock reading do two claims of one command pass the lease guard. */
  lemma AtMostOneClaimHolds(run: Run, i: nat, c: Claim, j: nat, d: Claim, t: int)
    requires i != j && ClaimedAt(run, i, c) && ClaimedAt(run, j, d) && c.command == d.command
    ensures !(Holds(StateAfter(run), c, t) && Holds(StateAfter(run), d, t))
  {
    if i < j {
      LaterClaimHasHigherAttempt(run, i, c, j, d);
    } else {
      LaterClaimHasHigherAttempt(run, j, d, i, c);
    }
  }

  /** `c` was handed out at or before the row's present attempt. */
  ghost predicate Issued(s: Store, c: Claim) {
    c.command in s.rows && c.attempt <= s.rows[c.command].attempts
  }

  lemma LostStaysLostOneStep(s: Store, now: int, call: Call, c: Claim, t: int)
    requires Valid(s) && Issued(s, c) && !Holds(s, c, t) && t <= now
    ensures var r := Step(s, now, call).0;
            Issued(r, c) && !Holds(r, c, now)
  {
    hide Valid, Blank, ValidLease;
    StepKeepsRows(s, now, call);
    assert !Holds(s, c, now);
  }

  lemma {:induction false} LostStaysLostFrom(run: Run, more: Run, c: Claim, t: int, later: int)
    requires Issued(StateAfter(run), c) && !Holds(StateAfter(run), c, t)
    requires ClockNeverGoesBack(more) && ClockAtLeast(more, t)
    requires t <= later && forall i | 0 <= i < |more| :: more[i].now <= later
    ensures Issued(StateAfter(run + more), c) && !Holds(StateAfter(run + more), c, later)
    decreases |more|
  {
    hide Step;
    if more == [] {
      assert run + more == run;
    } else {
      var n := |more| - 1;
      var last := more[n];
      LostStaysLostFrom(run, more[..n], c, t, last.now);
      assert (run + more)[..|run + more| - 1] == run + more[..n];
      LostStaysLostOneStep(StateAfter(run + more[..n]), last.now, last.call, c, last.now);
    }
  }

  /**
   Once a claim fails the lease guard at some clock reading it fails at every
   later reading of every longer run: renewals, recovery and new claims of the
   same command, even by the same worker, do not bring it back.
   */
  lemma OnceLostNeverHeldAgain(run: Run, i: nat, c: Claim, t: int, more: Run, later: int)
    requires ClaimedAt(run, i, c) && !Holds(StateAfter(run), c, t)
    requires ClockNeverGoesBack(run + more) && ClockAtLeast(more, t)
    requires t <= later && forall k | 0 <= k < |more| :: more[k].now <= later
    ensures !Holds(StateAfter(run + more), c, later)
  {
    ClaimIsRow(run, i, c);
    RowsOnlyMoveForward(run, i + 1, c.command);
    forall a, b | 0 <= a < b < |more| ensures more[a].now <= more[b].now {
      assert more[a] == (run + more)[|run| + a] && more[b] == (run + more)[|run| + b];
    }
    LostStaysLostFrom(run, more, c, t, later);
  }

  // ---------------------------------------------------------------------
  // Settlement
  // ---------------------------------------------------------------------

  /** Call number `i` settled the command for good. */
  ghost predicate SettledAt(run: Run, i: nat, id: CommandId, status: Status) {
    && i < |run|
    && match run[i].call
       case Succeed(c, _, _, _) => c.command == id && status == Succeeded && ReplyAt(run, i) == MarkedSucceeded
       case Fail(c, _, _, _, _) =>
         c.command == id && status == DeadLetter && ReplyAt(run, i) == MarkedFailed(DeadLetter)
       case _ => false
  }

  lemma SettledRow(run: Run, i: nat, id: CommandId, status: Status)
    requires SettledAt(run, i, id, status)
    ensures id in StateAfter(run[..i]).rows && StateAfter(run[..i]).rows[id].status == Processing
    ensures id in StateAfter(run[..i + 1]).rows && StateAfter(run[..i + 1]).rows[id].status == status
    ensures status in {Succeeded, DeadLetter}
  {
    hide Valid, Blank, ValidLease;
    StateAfterPrefix(run, i);
  }

  /** A command is settled at most once, so never both succeeded and dead-lettered. */
  lemma SettledAtMostOnce(run: Run, i: nat, a: Status, j: nat, b: Status, id: CommandId)
    requires SettledAt(run, i, id, a) && SettledAt(run, j, id, b)
    ensures i == j && a == b
  {
    SettledRow(run, i, id, a);
    SettledRow(run, j, id, b);
    hide SettledAt, StateAfter;
    if i < j {
      assert run[..j][..i + 1] == run[..i + 1];
      RowsOnlyMoveForward(run[..j], i + 1, id);
    } else if j < i {
      assert run[..i][..j + 1] == run[..j + 1];
      RowsOnlyMoveForward(run[..i], j + 1, id);
    }
  }

  /** From then on nothing in the row changes: not the status, attempts, type, subject or payload. */
  lemma SettledRowIsFrozen(run: Run, i: nat, id: CommandId, status: Status)
    requires SettledAt(run, i, id, status)
    ensures id in StateAfter(run[..i + 1]).rows && id in StateAfter(run).rows
    ensures StateAfter(run).rows[id] == StateAfter(run[..i + 1]).rows[id]
    ensures StateAfter(run).rows[id].status == status
  {
    SettledRow(run, i, id, status);
    RowsOnlyMoveForward(run, i + 1, id);
  }

  // ---------------------------------------------------------------------
  // Attempts, expiries and back-off
  // ---------------------------------------------------------------------

  ghost function ClaimsIn(reply: Reply, id: CommandId): nat {
    if reply.Claimed? && reply.claim.command == id then 1 else 0
  }

  ghost function ExpiriesIn(s: Store, now: int, call: Call, id: CommandId): nat {
    if call.Recover? && id in ExpiredIds(s, now) then 1 else 0
  }

  ghost function BackoffIn(call: Call, reply: Reply, id: CommandId): nat {
    if call.Fail? && call.claim.command == id && reply == MarkedFailed(Retry) then Delay(call.claim.attempt) else 0
  }

  /** How often the command was handed to a worker. */
  ghost function Claims(run: Run, id: CommandId): nat {
    if run == [] then 0
    else
      var n := |run| - 1;
      Claims(run[..n], id) + ClaimsIn(ReplyAt(run, n), id)
  }

  /** How often an expired lease of the command was recovered. */
  ghost function Expiries(run: Run, id: CommandId): nat {
    if run == [] then 0
    else
      var p, last := run[..|run| - 1], run[|run| - 1];
      Expiries(p, id) + ExpiriesIn(StateAfter(p), last.now, last.call, id)
  }

  /** Seconds of retry delay that failures of the command have scheduled so far. */
  ghost function Backoff(run: Run, id: CommandId): nat {
    if run == [] then 0
    else
      var n := |run| - 1;
      Backoff(run[..n], id) + BackoffIn(run[n].call, ReplyAt(run, n), id)
  }

  ghost predicate MaxAttemptsIs(run: Run, m: int) {
    forall i | 0 <= i < |run| && run[i].call.Fail? :: run[i].call.maxAttempts == m
  }

  /** Delays of the attempts 1, ..., n. */
  ghost function DelaySum(n: nat): nat {
    if n == 0 then 0 else DelaySum(n - 1) + Delay(n)
  }

  /** The book-keeping of one command, as far as its row shows it. */
  ghost predicate Accounted(s: Store, id: CommandId, m: nat, claims: nat, expiries: nat, backoff: nat) {
    if id !in s.rows then claims == 0 && expiries == 0 && backoff == 0
    else
      var row := s.rows[id];
      var idle := row.status in {Pending, Retry};
      && row.attempts == claims
      && (row.status == Pending ==> row.attempts == 0)
      && (row.status != Pending ==> row.attempts >= 1)
      && row.attempts <= (if idle then m - 1 else m) + expiries
      && backoff <= DelaySum(Least(if idle then row.attempts else row.attempts - 1, m - 1))
      && (expiries == 0 ==> backoff == DelaySum(if idle then row.attempts else row.attempts - 1))
  }

  ghost function Least(a: int, b: int): nat {
    var l := if a < b then a else b;
    if l < 0 then 0 else l
  }

  lemma {:induction false} DelaySumGrows(a: nat, b: nat)
    requires a <= b
    ensures DelaySum(a) <= DelaySum(b)
    decreases b
  {
    if a < b {
      DelaySumGrows(a, b - 1);
    }
  }

  ghost predicate AccountedBy(r: (Store, Reply), call: Call, id: CommandId, m: nat, claims: nat, expiries: nat,
      backoff: nat) {
    Accounted(r.0, id, m, claims + ClaimsIn(r.1, id), expiries, backoff + BackoffIn(call, r.1, id))
  }

  lemma AccountedStep(s: Store, now: int, call: Call, id: CommandId, m: nat, claims: nat, expiries: nat, backoff: nat)
    requires Valid(s) && m >= 1 && (call.Fail? ==> call.maxAttempts == m)
    requires Accounted(s, id, m, claims, expiries, backoff)
    ensures AccountedBy(Step(s, now, call), call, id, m, claims, expiries + ExpiriesIn(s, now, call, id), backoff)
  {
    hide Delay, DelaySum, FailStep, RecoverStep, Valid, Blank, ValidLease;
    DelaySumStep(0);
    if call.Fail? {
      AccountedFail(s, now, call, id, m, claims, expiries, backoff);
    } else if call.Recover? {
      AccountedRecovery(s, now, id, m, claims, expiries, backoff);
    }
  }

  lemma AccountedRecovery(s: Store, now: int, id: CommandId, m: nat, claims: nat, expiries: nat, backoff: nat)
    requires m >= 1 && Accounted(s, id, m, claims, expiries, backoff)
    ensures var lost := ExpiriesIn(s, now, Recover, id);
            AccountedBy(RecoverStep(s, now), Recover, id, m, claims, expiries + lost, backoff)
  {
    hide Delay, DelaySum, FirstExpiries, LeaseReceipts;
    if id in s.rows && s.rows[id].status == Processing {
      DelaySumGrows(Least(s.rows[id].attempts - 1, m - 1), Least(s.rows[id].attempts, m - 1));
    }
  }

  lemma AccountedFail(s: Store, now: int, call: Call, id: CommandId, m: nat, claims: nat, expiries: nat, backoff: nat)
    requires Valid(s) && m >= 1 && call.Fail? && call.maxAttempts == m
    requires Accounted(s, id, m, claims, expiries, backoff)
    ensures AccountedBy(Step(s, now, call), call, id, m, claims, expiries, backoff)
  {
    hide Delay, DelaySum, Valid, Blank, ValidLease;
    if id in s.rows && s.rows[id].status == Processing {
      var a := s.rows[id].attempts;
      DelaySumStep(a);
      if a < m {
        assert Least(a - 1, m - 1) == a - 1 && Least(a, m - 1) == a;
      }
    }
  }

  lemma DelaySumStep(n: nat)
    ensures n > 0 ==> DelaySum(n) == DelaySum(n - 1) + Delay(n)
    ensures DelaySum(0) == 0
  {
  }

  lemma AccountedInitially(id: CommandId, m: nat)
    ensures Accounted(EMPTY, id, m, 0, 0, 0)
  {
  }

  lemma {:induction false} AlwaysAccounted(run: Run, id: CommandId, m: nat)
    requires m >= 1 && MaxAttemptsIs(run, m)
    ensures Accounted(StateAfter(run), id, m, Claims(run, id), Expiries(run, id), Backoff(run, id))
  {
    hide Step, ClaimsIn, ExpiriesIn, BackoffIn, DelaySum, Accounted;
    AccountedInitially(id, m);
    DelaySumStep(0);
    if run != [] {
      var p, last := run[..|run| - 1], run[|run| - 1];
      AlwaysAccounted(p, id, m);
      AccountedStep(StateAfter(p), last.now, last.call, id, m, Claims(p, id), Expiries(p, id), Backoff(p, id));
    }
  }

  lemma {:induction false} DelayIsCapped(attempt: nat)
    ensures Delay(attempt) == (if attempt < 11 then Power2(attempt) else 2048) <= 2048
  {
    assert Power2(5) == 32;
    assert Power2(8) == 2 * Power2(7) == 4 * Power2(6) == 8 * Power2(5);
    assert Power2(11) == 2 * Power2(10) == 4 * Power2(9) == 8 * Power2(8);
    Power2Grows(if attempt < 11 then attempt else 11, 11);
  }

  /** Up to twelve attempts the delays before them double; after that each is 2048. */
  lemma {:induction false} DelaySumClosed(n: nat)
    ensures DelaySum(n) == if n <= 11 then Power2(n + 1) - 2 else 4094 + 2048 * (n - 11)
  {
    if n > 0 {
      DelaySumClosed(n - 1);
      DelayIsCapped(n);
      assert Power2(5) == 32;
      assert Power2(8) == 2 * Power2(7) == 4 * Power2(6) == 8 * Power2(5);
      assert Power2(12) == 2 * Power2(11) == 4 * Power2(10) == 8 * Power2(9) == 16 * Power2(8);
    }
  }

  lemma AttemptsStep(s: Store, now: int, call: Call, id: CommandId)
    requires Valid(s)
    ensures var before := if id in s.rows then s.rows[id].attempts else 0;
            var t := Step(s, now, call).0;
            var after := if id in t.rows then t.rows[id].attempts else 0;
            after == before + ClaimsIn(Step(s, now, call).1, id)
  {
    hide Valid, Blank, ValidLease;
  }

  /** The attempt counter of a row counts its claims, whatever limits the failures used. */
  lemma {:induction false} AttemptsCountClaims(run: Run, id: CommandId)
    ensures Claims(run, id) == if id in StateAfter(run).rows then StateAfter(run).rows[id].attempts else 0
  {
    hide Step, ClaimsIn;
    if run != [] {
      var p, last := run[..|run| - 1], run[|run| - 1];
      AttemptsCountClaims(p, id);
      AttemptsStep(StateAfter(p), last.now, last.call, id);
    }
  }

  /**
   With one limit m a command is claimed at most m times plus once for every
   recovered expiry, and its scheduled back-off stays within that of m attempts:
   2^m - 2 seconds for m up to 12.
   */
  lemma ClaimsAndBackoffAreBounded(run: Run, id: CommandId, m: nat)
    requires m >= 1 && MaxAttemptsIs(run, m)
    ensures Claims(run, id) <= m + Expiries(run, id)
    ensures Backoff(run, id) <= if m <= 12 then Power2(m) - 2 else 4094 + 2048 * (m - 12)
  {
    AlwaysAccounted(run, id, m);
    var s := StateAfter(run);
    if id in s.rows {
      var row := s.rows[id];
      var spent := if row.status in {Pending, Retry} then row.attempts else row.attempts - 1;
      DelaySumGrows(Least(spent, m - 1), m - 1);
    }
    DelaySumClosed(m - 1);
    DelaySumGrows(0, m - 1);
  }

  /** A dead letter without expiries used up its m claims and all their delays exactly. */
  lemma BackoffWithoutExpiries(run: Run, id: CommandId, m: nat)
    requires m >= 1 && MaxAttemptsIs(run, m) && Expiries(run, id) == 0
    requires id in StateAfter(run).rows && StateAfter(run).rows[id].status == DeadLetter
    ensures Claims(run, id) == m
    ensures Backoff(run, id) == if m <= 12 then Power2(m) - 2 else 4094 + 2048 * (m - 12)
  {
    AlwaysAccounted(run, id, m);
    DeadLetterReachedLimit(run, id, m);
    DelaySumClosed(m - 1);
    hide StateAfter;
  }

  lemma {:induction false} DeadLetterReachedLimit(run: Run, id: CommandId, m: nat)
    requires MaxAttemptsIs(run, m)
    requires id in StateAfter(run).rows && StateAfter(run).rows[id].status == DeadLetter
    ensures StateAfter(run).rows[id].attempts >= m
  {
    hide Valid, Blank, ValidLease;
    if run != [] {
      var p := run[..|run| - 1];
      if id in StateAfter(p).rows && StateAfter(p).rows[id].status == DeadLetter {
        DeadLetterReachedLimit(p, id, m);
      }
    }
  }

  // ---------------------------------------------------------------------
  // Idempotent enqueueing
  // ---------------------------------------------------------------------

  /** Identifiers are fresh: no two enqueue calls bring the same one. */
  ghost predicate FreshIds(run: Run) {
    forall i, j | 0 <= i < j < |run| && run[i].call.Enqueue? && run[j].call.Enqueue? ::
      run[i].call.newId != run[j].call.newId
  }

  ghost predicate WellFormedEnqueue(call: Call) {
    && call.Enqueue?
    && !Blank(call.key) && !Blank(call.request.commandType) && !Blank(call.request.subject)
  }

  /** Each key with the first well-formed request that used it. */
  ghost function FirstRequests(run: Run): map<string, Request> {
    if run == [] then map[]
    else
      var rest, call := FirstRequests(run[..|run| - 1]), run[|run| - 1].call;
      if WellFormedEnqueue(call) && call.key !in rest then rest[call.key := call.request] else rest
  }

  /** What the outbox holds per key. */
  ghost function Requests(s: Store): map<string, Request>
    requires Valid(s)
  {
    map k | k in s.keyIndex :: s.rows[s.keyIndex[k]].request
  }

  ghost function CreationsIn(call: Call, reply: Reply, key: string): nat {
    if call.Enqueue? && call.key == key && reply.Enqueued? && reply.created then 1 else 0
  }

  /** How often an enqueue call was told that it created the command of `key`. */
  ghost function Creations(run: Run, key: string): nat {
    if run == [] then 0
    else
      var n := |run| - 1;
      Creations(run[..n], key) + CreationsIn(run[n].call, ReplyAt(run, n), key)
  }

  lemma RequestsStep(s: Store, now: int, call: Call, key: string)
    requires Valid(s) && (call.Enqueue? ==> call.newId !in s.rows)
    ensures var (t, reply) := Step(s, now, call);
            var first := WellFormedEnqueue(call) && call.key !in Requests(s);
            && Requests(t) == (if first then Requests(s)[call.key := call.request] else Requests(s))
            && CreationsIn(call, reply, key) == (if first && call.key == key then 1 else 0)
  {
    hide Blank;
    if !call.Enqueue? {
      OthersKeepRequests(s, now, call);
    }
  }

  lemma OthersKeepRequests(s: Store, now: int, call: Call)
    requires Valid(s) && !call.Enqueue?
    ensures Requests(Step(s, now, call).0) == Requests(s)
  {
    StepKeepsRows(s, now, call);
    OthersKeepIndex(s, now, call);
    hide Step;
  }

  lemma OthersKeepIndex(s: Store, now: int, call: Call)
    requires Valid(s) && !call.Enqueue?
    ensures Step(s, now, call).0.keyIndex == s.keyIndex
  {
    hide Valid, Blank, ValidLease;
  }

  lemma NewIdIsFresh(run: Run)
    requires run != [] && FreshIds(run) && run[|run| - 1].call.Enqueue?
    ensures run[|run| - 1].call.newId !in StateAfter(run[..|run| - 1]).rows
  {
    hide Step;
    var n := |run| - 1;
    var id := run[n].call.newId;
    if id in StateAfter(run[..n]).rows {
      IdsComeFromEnqueues(run[..n], id);
      assert false;
    }
  }

  lemma IdsStep(s: Store, now: int, call: Call)
    requires Valid(s)
    ensures Step(s, now, call).0.rows.Keys <= s.rows.Keys + (if call.Enqueue? then {call.newId} else {})
  {
    hide Valid, Blank, ValidLease;
  }

  lemma {:induction false} IdsComeFromEnqueues(run: Run, id: CommandId)
    requires id in StateAfter(run).rows
    ensures exists i | 0 <= i < |run| :: run[i].call.Enqueue? && run[i].call.newId == id
  {
    hide Step;
    if run != [] {
      var n := |run| - 1;
      IdsStep(StateAfter(run[..n]), run[n].now, run[n].call);
      if id in StateAfter(run[..n]).rows {
        IdsComeFromEnqueues(run[..n], id);
        var i :| 0 <= i < n && run[..n][i].call.Enqueue? && run[..n][i].call.newId == id;
        assert run[i] == run[..n][i];
      } else {
        assert run[n].call.Enqueue? && run[n].call.newId == id;
      }
    }
  }

  /**
   Exactly one command per key, created once, bound to the first request: so
   repeating and interleaving enqueues, and everything workers do in between,
   leaves the same commands as enqueueing every key once.
   */
  lemma {:induction false} OneCommandPerKey(run: Run, key: string)
    requires FreshIds(run)
    ensures Requests(StateAfter(run)) == FirstRequests(run)
    ensures Creations(run, key) == if key in FirstRequests(run) then 1 else 0
  {
    hide Step, CreationsIn, Requests, WellFormedEnqueue;
    NothingRequestedYet();
    if run != [] {
      var n := |run| - 1;
      var p, last := run[..n], run[n];
      OneCommandPerKey(p, key);
      if last.call.Enqueue? {
        NewIdIsFresh(run);
      }
      RequestsStep(StateAfter(p), last.now, last.call, key);
    }
  }

  lemma NothingRequestedYet()
    ensures Requests(EMPTY) == map[]
  {
  }

  /** Every accepted enqueue of a key is answered with the same command. */
  lemma SameKeySameCommand(run: Run, i: nat, j: nat)
    requires i < j < |run| && run[i].call.Enqueue? && run[j].call.Enqueue? && run[i].call.key == run[j].call.key
    requires ReplyAt(run, i).Enqueued? && ReplyAt(run, j).Enqueued?
    ensures ReplyAt(run, i).command == ReplyAt(run, j).command
    ensures run[i].call.request == run[j].call.request
    ensures !ReplyAt(run, j).created
  {
    var id := ReplyAt(run, i).command;
    StateAfterPrefix(run, i);
    assert run[..j][..i + 1] == run[..i + 1];
    RowsOnlyMoveForward(run[..j], i + 1, id);
  }

  /** A key that is reused for anything else is refused and the store is left as it was. */
  lemma ConflictingReuseChangesNothing(s: Store, now: int, key: string, request: Request, newId: CommandId)
    requires Valid(s)
    ensures var (t, r) := EnqueueStep(s, now, key, request, newId);
            && (key in s.keyIndex ==> t == s)
            && (r == Refused(IdempotencyConflict)
                <==> && WellFormedEnqueue(Enqueue(key, request, newId))
                     && key in Requests(s) && Requests(s)[key] != request)
  {
  }

  // ---------------------------------------------------------------------
  // Receipts
  // ---------------------------------------------------------------------

  ghost predicate HasReceipt(s: Store, id: CommandId, stage: Stage, outcome: Outcome) {
    id in s.rows && ReceiptKey(id, stage, outcome, s.rows[id].request.payload) in s.receipts
  }

  ghost predicate Genuine(s: Store, call: Call) {
    (call.Succeed? || call.Fail?) && call.claim.command in s.rows ==>
      call.claim.request == s.rows[call.claim.command].request
  }

  /** Every settlement call of the run presents a claim with the payload it was handed. */
  ghost predicate ClaimsAreGenuine(run: Run) {
    forall i | 0 <= i < |run| :: Genuine(StateAfter(run[..i]), run[i].call)
  }

  /** The outcome receipts tell the same story as the row. */
  ghost predicate ReceiptsMatchRow(s: Store, id: CommandId, expiries: nat) {
    if id !in s.rows then expiries == 0 && forall k :: k in s.receipts ==> k.command != id
    else
      && (HasReceipt(s, id, Commit, SucceededOutcome) <==> s.rows[id].status == Succeeded)
      && (s.rows[id].status == DeadLetter ==>
            HasReceipt(s, id, Dispatch, FailedOutcome) || HasReceipt(s, id, Dispatch, UnknownOutcome))
      && (HasReceipt(s, id, Lease, UnknownOutcome) <==> expiries > 0)
  }

  lemma ReceiptsMatchStep(s: Store, now: int, call: Call, id: CommandId, expiries: nat)
    requires Valid(s) && Genuine(s, call) && ReceiptsMatchRow(s, id, expiries)
    ensures ReceiptsMatchRow(Step(s, now, call).0, id, expiries + ExpiriesIn(s, now, call, id))
  {
    hide Valid, Blank, ValidLease;
    if call.Recover? {
      ReceiptsMatchRecovery(s, now, id, expiries);
    } else if call.Succeed? || call.Fail? {
      ReceiptsMatchSettlement(s, now, call, id, expiries);
    }
  }

  lemma ReceiptsMatchSettlement(s: Store, now: int, call: Call, id: CommandId, expiries: nat)
    requires Valid(s) && Genuine(s, call) && ReceiptsMatchRow(s, id, expiries)
    requires call.Succeed? || call.Fail?
    ensures ReceiptsMatchRow(Step(s, now, call).0, id, expiries)
  {
    hide Valid, Blank, ValidLease;
  }

  lemma ReceiptsMatchRecovery(s: Store, now: int, id: CommandId, expiries: nat)
    requires Valid(s) && ReceiptsMatchRow(s, id, expiries)
    ensures ReceiptsMatchRow(RecoverStep(s, now).0, id, expiries + ExpiriesIn(s, now, Recover, id))
  {
    var t := RecoverStep(s, now).0;
    if id in s.rows {
      assert t.rows[id].request == s.rows[id].request;
      assert LeaseKey(id, s.rows[id]) in t.receipts
             <==> LeaseKey(id, s.rows[id]) in s.receipts || id in ExpiredIds(s, now);
    }
  }

  /**
   A commit receipt exists exactly for succeeded commands, every dead letter has
   a dispatch receipt, and a lease receipt exists exactly after an expiry.
   */
  lemma {:induction false} ReceiptsAlwaysMatch(run: Run, id: CommandId)
    requires ClaimsAreGenuine(run)
    ensures ReceiptsMatchRow(StateAfter(run), id, Expiries(run, id))
  {
    hide Step, ReceiptsMatchRow, ExpiriesIn, Genuine;
    if run == [] {
      NoReceiptsYet(id);
    } else {
      var n := |run| - 1;
      var p := run[..n];
      forall i | 0 <= i < n ensures Genuine(StateAfter(p[..i]), p[i].call) {
        assert p[i] == run[i] && p[..i] == run[..i];
      }
      ReceiptsAlwaysMatch(p, id);
      ReceiptsMatchStep(StateAfter(p), run[n].now, run[n].call, id, Expiries(p, id));
    }
  }

  lemma NoReceiptsYet(id: CommandId)
    ensures ReceiptsMatchRow(EMPTY, id, 0)
  {
  }

  lemma NewLeaseReceiptsOnly(s: Store, now: int, k: ReceiptKey)
    ensures k in s.receipts ==> k !in LeaseReceipts(s.rows, FirstExpiries(s.rows, s.receipts, now))
  {
  }

  lemma StepKeepsReceipts(s: Store, now: int, call: Call, k: ReceiptKey)
    requires Valid(s) && k in s.receipts
    ensures var t := Step(s, now, call).0; k in t.receipts && t.receipts[k] == s.receipts[k]
  {
    hide Valid, Blank, ValidLease;
    if call.Recover? {
      NewLeaseReceiptsOnly(s, now, k);
    }
  }

  lemma {:induction false} ReceiptsNeverChange(run: Run, i: nat, k: ReceiptKey)
    requires i <= |run| && k in StateAfter(run[..i]).receipts
    ensures k in StateAfter(run).receipts && StateAfter(run).receipts[k] == StateAfter(run[..i]).receipts[k]
    decreases |run|
  {
    hide Step;
    if i == |run| {
      assert run[..i] == run;
    } else {
      var n := |run| - 1;
      assert run[..n][..i] == run[..i];
      ReceiptsNeverChange(run[..n], i, k);
      StepKeepsReceipts(StateAfter(run[..n]), run[n].now, run[n].call, k);
    }
  }

  /** The commit receipt of a command is for ever that of the call that settled it: what the worker
      reported, and under which attempt. */
  lemma CommitReceiptIsTheSettlement(run: Run, i: nat, id: CommandId)
    requires ClaimsAreGenuine(run) && SettledAt(run, i, id, Succeeded)
    ensures id in StateAfter(run).rows
    ensures var call, row := run[i].call, StateAfter(run).rows[id];
            var k := ReceiptKey(id, Commit, SucceededOutcome, row.request.payload);
            && k in StateAfter(run).receipts
            && StateAfter(run).receipts[k]
               == Receipt(Some((call.externalSystem, call.externalId)), call.details, row.attempts)
  {
    SettledRow(run, i, id, Succeeded);
    SettledRowIsFrozen(run, i, id, Succeeded);
    forall j | 0 <= j < i ensures Genuine(StateAfter(run[..i][..j]), run[..i][j].call) {
      assert run[..i][..j] == run[..j];
    }
    ReceiptsAlwaysMatch(run[..i], id);
    SettlementWritesReceipt(StateAfter(run[..i]), run[i].now, run[i].call, Expiries(run[..i], id));
    StateAfterPrefix(run, i);
    hide StateAfter, Step;
    var k := ReceiptKey(id, Commit, SucceededOutcome, StateAfter(run).rows[id].request.payload);
    ReceiptsNeverChange(run, i + 1, k);
  }

  lemma SettlementWritesReceipt(s: Store, now: int, call: Call, expiries: nat)
    requires Valid(s) && Genuine(s, call) && call.Succeed? && Step(s, now, call).1 == MarkedSucceeded
    requires ReceiptsMatchRow(s, call.claim.command, expiries)
    ensures var t, id := Step(s, now, call).0, call.claim.command;
            && id in t.rows
            && var k := ReceiptKey(id, Commit, SucceededOutcome, t.rows[id].request.payload);
               && k in t.receipts
               && t.receipts[k]
                  == Receipt(Some((call.externalSystem, call.externalId)), call.details, t.rows[id].attempts)
  {
    hide Valid, Blank, ValidLease;
  }

  /**
   Recovery releases every expired lease and leaves each such command with an
   unknown-outcome receipt, but the number it returns counts receipts: it is the
   number of released commands exactly when none of them had expired before.
   */
  lemma RecoveryReport(s: Store, now: int)
    requires Valid(s)
    ensures var (t, r) := RecoverStep(s, now);
            && (forall id :: id in ExpiredIds(s, now) ==>
                  t.rows[id].status == Retry && HasReceipt(t, id, Lease, UnknownOutcome))
            && (forall id :: id in s.rows && id !in ExpiredIds(s, now) ==> t.rows[id] == s.rows[id])
            && ExpiredIds(t, now) == {}
            && (r == Recovered(|ExpiredIds(s, now)|)
                <==> forall id :: id in ExpiredIds(s, now) ==> !HasReceipt(s, id, Lease, UnknownOutcome))
  {
    var released, first := ExpiredIds(s, now), FirstExpiries(s.rows, s.receipts, now);
    RecoveryRows(s, now);
    hide RecoverStep;
    assert first <= released;
    if first != released {
      ProperSubsetIsSmaller(first, released);
    }
  }

  // One command whose lease is lost twice.

  const ORDER := Request("t", "s", map[])
  const TWO_LOSSES: Run := [
    Entry(0, Enqueue("k", ORDER, 1)),
    Entry(0, TakeClaim("w", 10, Some(1))),
    Entry(11 * SECOND, Recover),
    Entry(11 * SECOND, TakeClaim("w", 10, Some(1))),
    Entry(22 * SECOND, Recover)]

  lemma NothingIsBlank()
    ensures !Blank("k") && !Blank("t") && !Blank("s") && !Blank("w")
  {
  }

  /** The only command, free to be claimed. */
  ghost predicate Free(s: Store, now: int) {
    s.rows.Keys == {1} && Claimable(s.rows[1], now)
  }

  predicate HasLost(s: Store) {
    1 in s.rows && LeaseKey(1, s.rows[1]) in s.receipts
  }

  /** A claim whose lease is over at `later`. */
  lemma ClaimIsLost(s: Store, now: int, later: int)
    requires Valid(s) && Free(s, now) && later > now + 10 * SECOND
    ensures var t := Step(s, now, TakeClaim("w", 10, Some(1))).0;
            t.rows.Keys == {1} && ExpiredIds(t, later) == {1} && (HasLost(t) <==> HasLost(s))
  {
    NothingIsBlank();
    hide Valid, Blank;
  }

  lemma LostClaimIsReleased(s: Store, now: int)
    requires Valid(s) && s.rows.Keys == {1} && ExpiredIds(s, now) == {1}
    ensures var (t, r) := Step(s, now, Recover);
            Free(t, now) && t.rows[1].status == Retry && HasLost(t) && r == Recovered(One(!HasLost(s)))
  {
    hide Valid, Step, RecoverStep;
    RecoveryRows(s, now);
    assert 1 in ExpiredIds(s, now);
    assert FirstExpiries(s.rows, s.receipts, now) == if HasLost(s) then {} else {1};
    RecoverIs(s, now);
  }

  lemma RecoverIs(s: Store, now: int)
    requires Valid(s)
    ensures Step(s, now, Recover) == RecoverStep(s, now)
    ensures forall id | id in ExpiredIds(s, now) ::
            LeaseKey(id, RecoverStep(s, now).0.rows[id]) in RecoverStep(s, now).0.receipts
  {
    hide Valid;
    forall id | id in ExpiredIds(s, now)
      ensures LeaseKey(id, RecoverStep(s, now).0.rows[id]) in RecoverStep(s, now).0.receipts
    {
      assert LeaseKey(id, s.rows[id]) == LeaseKey(id, RecoverStep(s, now).0.rows[id]);
    }
  }

  lemma FirstIsFree()
    ensures Free(StateAfter(TWO_LOSSES[..1]), 0) && !HasLost(StateAfter(TWO_LOSSES[..1]))
  {
    NothingIsBlank();
    hide Blank, Valid;
    assert TWO_LOSSES[..0] == [] && StateAfter([]) == EMPTY;
    StateAfterPrefix(TWO_LOSSES, 0);
  }

  /** The second time a command loses its lease it is released, and recovery reports nothing. */
  lemma SecondLossIsNotReported()
    ensures ExpiredIds(StateAfter(TWO_LOSSES[..4]), 22 * SECOND) == {1}
    ensures ReplyAt(TWO_LOSSES, 2) == Recovered(1) && ReplyAt(TWO_LOSSES, 4) == Recovered(0)
    ensures StateAfter(TWO_LOSSES).rows.Keys == {1} && StateAfter(TWO_LOSSES).rows[1].status == Retry
  {
    hide Valid, Step, StateAfter, Free, HasLost, ExpiredIds;
    FirstIsFree();
    StateAfterPrefix(TWO_LOSSES, 1);
    ClaimIsLost(StateAfter(TWO_LOSSES[..1]), 0, 11 * SECOND);
    StateAfterPrefix(TWO_LOSSES, 2);
    LostClaimIsReleased(StateAfter(TWO_LOSSES[..2]), 11 * SECOND);
    StateAfterPrefix(TWO_LOSSES, 3);
    ClaimIsLost(StateAfter(TWO_LOSSES[..3]), 11 * SECOND, 22 * SECOND);
    StateAfterPrefix(TWO_LOSSES, 4);
    LostClaimIsReleased(StateAfter(TWO_LOSSES[..4]), 22 * SECOND);
    assert TWO_LOSSES[..5] == TWO_LOSSES;
    FreeHasOneRow(StateAfter(TWO_LOSSES), 22 * SECOND);
  }

  lemma FreeHasOneRow(s: Store, now: int)
    requires Free(s, now)
    ensures s.rows.Keys == {1}
  {
  }

  lemma RecoveryRows(s: Store, now: int)
    requires Valid(s)
    ensures var (t, r) := RecoverStep(s, now);
            && r == Recovered(|FirstExpiries(s.rows, s.receipts, now)|)
            && t.rows.Keys == s.rows.Keys
            && (forall id :: id in s.rows ==>
                  t.rows[id] == if id in ExpiredIds(s, now) then ReleasedRow(s.rows[id], now) else s.rows[id])
            && (forall id :: id in ExpiredIds(s, now) ==> HasReceipt(t, id, Lease, UnknownOutcome))
  {
    hide Valid;
    var t := RecoverStep(s, now).0;
    forall id | id in ExpiredIds(s, now) ensures HasReceipt(t, id, Lease, UnknownOutcome) {
      assert LeaseKey(id, s.rows[id]) in t.receipts;
    }
  }

  lemma ProperSubsetIsSmaller<T>(a: set<T>, b: set<T>)
    requires a < b
    ensures |a| < |b|
  {
    assert b == a + (b - a);
  }
}
