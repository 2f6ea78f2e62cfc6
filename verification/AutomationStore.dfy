/** The scheduler's tables, changed in place. */
module AutomationStore {
  import opened Prelude
  import opened Automation
  import opened AutomationRuns

  lemma EarlierIsAnOrder(automations: map<nat, Automation>, x: nat, y: nat, z: nat)
    requires x in automations && y in automations && z in automations
    ensures x != y ==> Earlier(automations, x, y) || Earlier(automations, y, x)
    ensures Earlier(automations, x, y) && Earlier(automations, y, z) ==> Earlier(automations, x, z)
  {
  }

  lemma {:induction false} SomeComesFirst(automations: map<nat, Automation>, ids: set<nat>) returns (first: nat)
    requires ids != {} && ids <= automations.Keys
    ensures first in ids && forall x | x in ids && x != first :: Earlier(automations, first, x)
    decreases |ids|
  {
    hide Earlier;
    var m :| m in ids;
    var rest := ids - {m};
    if rest == {} {
      first := m;
      assert ids == {m};
    } else {
      var n := SomeComesFirst(automations, rest);
      EarlierIsAnOrder(automations, m, n, n);
      first := if Earlier(automations, m, n) then m else n;
      forall x | x in ids && x != first ensures Earlier(automations, first, x) {
        if x != m && x != n {
          assert x in rest;
          EarlierIsAnOrder(automations, m, n, x);
        }
      }
    }
  }

  /** The runs of a batch one after the other, each on the row as it was claimed. */
  function AllFinished(b: Board, ids: seq<nat>, rows: seq<Automation>, outcomes: seq<Outcome>, offset: int): (r: Board)
    requires |ids| == |rows| <= |outcomes|
    requires forall i | 0 <= i < |ids| :: ids[i] in b.automations
    ensures r.automations.Keys == b.automations.Keys
  {
    if ids == [] then b
    else
      var n := |ids| - 1;
      Finished(AllFinished(b, ids[..n], rows[..n], outcomes, offset), ids[n], rows[n], outcomes[n], offset)
  }

  /** A batch leaves one record per claimed row, in order, and every row unlocked and due only
      after its own run has ended. */
  lemma {:induction false} BatchFreesEveryRow(b: Board, ids: seq<nat>, rows: seq<Automation>, outcomes: seq<Outcome>,
      offset: int, i: nat)
    requires |ids| == |rows| <= |outcomes|
    requires forall j | 0 <= j < |ids| :: ids[j] in b.automations
    requires forall j, k | 0 <= j < k < |ids| :: ids[j] != ids[k]
    requires i < |ids|
    ensures var r := AllFinished(b, ids, rows, outcomes, offset);
            && |r.runs| == |b.runs| + |ids|
            && r.runs[|b.runs| + i].automation == ids[i]
            && r.automations[ids[i]].lockedUntil == None
            && r.automations[ids[i]].nextRun > EndOf(rows[i], outcomes[i], offset)
  {
    hide NextRun, Body, Strip;
    var n := |ids| - 1;
    BatchLength(b, ids[..n], rows[..n], outcomes, offset);
    if i < n {
      BatchFreesEveryRow(b, ids[..n], rows[..n], outcomes, offset, i);
    } else {
      NextRunIsLater(rows[n].schedule, outcomes[n].finished, offset);
      NextRunIsLater(rows[n].schedule, outcomes[n].failed, offset);
    }
  }

  lemma {:induction false} BatchLength(b: Board, ids: seq<nat>, rows: seq<Automation>, outcomes: seq<Outcome>,
      offset: int)
    requires |ids| == |rows| <= |outcomes|
    requires forall j | 0 <= j < |ids| :: ids[j] in b.automations
    ensures |AllFinished(b, ids, rows, outcomes, offset).runs| == |b.runs| + |ids|
    ensures |AllFinished(b, ids, rows, outcomes, offset).notices| >= |b.notices|
  {
    hide NextRun, Body, Strip;
    if ids != [] {
      BatchLength(b, ids[..|ids| - 1], rows[..|ids| - 1], outcomes, offset);
    }
  }

  function Successes(rows: seq<Automation>, outcomes: seq<Outcome>, offset: int): nat
    requires |rows| <= |outcomes|
  {
    if rows == [] then 0
    else
      var n := |rows| - 1;
      Successes(rows[..n], outcomes, offset) + if Succeeds(rows[n], outcomes[n], offset) then 1 else 0
  }

  datatype Report = Report(claimed: nat, completed: nat, failed: nat, notified: nat)

  /** The runs before number `done` end in records, and that one does not. */
  predicate FirstUnrecorded(rows: seq<Automation>, outcomes: seq<Outcome>, offset: int, done: nat) {
    && done <= |rows| <= |outcomes|
    && (forall i | 0 <= i < done :: Ends(rows[i], outcomes[i], offset))
    && (done < |rows| ==> !Ends(rows[done], outcomes[done], offset))
  }

  /** When a pass ends in an exception, the rows from that run on keep their locks and get no record. */
  lemma {:induction false} StoppedBatchKeepsLocks(b: Board, ids: seq<nat>, rows: seq<Automation>,
      outcomes: seq<Outcome>, offset: int, now: int, done: nat, j: nat)
    requires done <= j < |ids| == |rows| <= |outcomes|
    requires forall i | 0 <= i < |ids| :: ids[i] in b.automations
    requires forall i, k | 0 <= i < k < |ids| :: ids[i] != ids[k]
    ensures var locked := Locked(b, Ids(ids), now);
            var r := AllFinished(locked, ids[..done], rows[..done], outcomes, offset);
            && |r.runs| == |b.runs| + done
            && r.automations[ids[j]] == b.automations[ids[j]].(lockedUntil := Some(now + LOCK))
  {
    hide NextRun, Body, Strip;
    var locked := Locked(b, Ids(ids), now);
    assert ids[j] in Ids(ids);
    if done > 0 {
      StoppedBatchKeepsLocks(b, ids, rows, outcomes, offset, now, done - 1, j);
      assert ids[..done][..done - 1] == ids[..done - 1] && rows[..done][..done - 1] == rows[..done - 1];
    }
  }

  /** A notification that was counted and then rolled back. */
  predicate LosesNotice(t: Automation, o: Outcome, offset: int) {
    o.write == FailsLate && Prepared(t, o, offset) && ShouldNotify(t, o)
  }

  function LostNotices(rows: seq<Automation>, outcomes: seq<Outcome>, offset: int): nat
    requires |rows| <= |outcomes|
  {
    if rows == [] then 0
    else
      var n := |rows| - 1;
      LostNotices(rows[..n], outcomes, offset) + if LosesNotice(rows[n], outcomes[n], offset) then 1 else 0
  }

  lemma {:induction false} NothingLostExactlyWhen(rows: seq<Automation>, outcomes: seq<Outcome>, offset: int)
    requires |rows| <= |outcomes|
    ensures LostNotices(rows, outcomes, offset) == 0
            <==> forall i | 0 <= i < |rows| :: !LosesNotice(rows[i], outcomes[i], offset)
  {
    hide LosesNotice;
    if rows != [] {
      var n := |rows| - 1;
      NothingLostExactlyWhen(rows[..n], outcomes, offset);
      assert forall i | 0 <= i < n :: rows[..n][i] == rows[i];
    }
  }

  class Scheduler {
    var automations: map<nat, Automation>
    var runs: seq<RunRecord>
    var notices: seq<Notice>
    const offset: int

    function State(): Board
      reads this
    {
      Board(automations, runs, notices)
    }

    constructor (offset: int)
      ensures State() == Board(map[], [], []) && this.offset == offset
    {
      this.offset := offset;
      automations, runs, notices := map[], [], [];
    }

    /** The rows that a scheduler may run now, in the order in which it should. */
    method SelectDue(now: int, limit: int) returns (ids: seq<nat>)
      ensures IsBatch(State(), now, limit, ids)
    {
      hide Earlier;
      ids := [];
      var rest := set id | id in automations && Due(automations[id], now);
      while |ids| < BatchLimit(limit) && rest != {}
        invariant rest <= automations.Keys
        invariant forall i | 0 <= i < |ids| :: ids[i] in automations && Due(automations[ids[i]], now)
        invariant forall i, j | 0 <= i < j < |ids| :: Earlier(automations, ids[i], ids[j])
        invariant forall i, x | 0 <= i < |ids| && x in rest :: Earlier(automations, ids[i], x)
        invariant forall x | x in rest :: Due(automations[x], now)
        invariant forall x | x in automations && Due(automations[x], now) :: x in rest || x in ids
        invariant |ids| <= BatchLimit(limit)
        decreases rest
      {
        ghost var first := SomeComesFirst(automations, rest);
        var m :| m in rest && forall x | x in rest && x != m :: Earlier(automations, m, x);
        ids := ids + [m];
        rest := rest - {m};
      }
    }

    /** Locks the batch for a quarter of an hour and hands it over as it was. */
    method ClaimDue(now: int, limit: int) returns (ids: seq<nat>, rows: seq<Automation>)
      modifies this`automations
      ensures IsBatch(old(State()), now, limit, ids)
      ensures |rows| == |ids| && forall i | 0 <= i < |ids| :: rows[i] == old(automations)[ids[i]]
      ensures State() == Locked(old(State()), Ids(ids), now)
    {
      hide Earlier, Due;
      var due := SelectDue(now, limit);
      BatchIsDistinct(old(State()), now, limit, due);
      ids, rows := [], [];
      for i := 0 to |due|
        invariant ids == due[..i] && |rows| == i
        invariant forall j | 0 <= j < i :: rows[j] == old(automations)[due[j]]
        invariant State() == Locked(old(State()), Ids(due[..i]), now)
      {
        var id := due[i];
        var row := automations[id];
        assert id !in Ids(due[..i]);
        assert Unlocked(row, now) by { DueIsUnlocked(row, now); }
        if Unlocked(row, now) {
          rows := rows + [row];
          ids := ids + [id];
          automations := automations[id := row.(lockedUntil := Some(now + LOCK))];
        }
        OneMoreId(due, i);
      }
      assert due[..|due|] == due;
    }

    /** The part of a run between its answer and its record.  `counted` says whether it went
        into the number of notifications that is reported. */
    method RecordRun(id: nat, t: Automation, o: Outcome) returns (ended: bool, ok: bool, counted: bool)
      requires id in automations
      modifies this
      ensures ended <==> Ends(t, o, offset)
      ensures State() == if ended then Finished(old(State()), id, t, o, offset) else old(State())
      ensures ok <==> Succeeds(t, o, offset)
      ensures counted <==> Prepared(t, o, offset) && o.write != FailsEarly && ShouldNotify(t, o)
      ensures |notices| == |old(notices)| + if counted && ok then 1 else 0
    {
      hide NextRun, Body, Strip, Conditional;
      ended, ok, counted := true, false, false;
      var decision := Decided(t, o);
      if decision.Some? {
        var next := CalculateNextRun(t.schedule, o.finished, offset, false);
        if next.Some? && o.write != FailsEarly {
          counted := ShouldNotify(t, o);
          if o.write == Committed {
            ok := true;
            runs := runs + [RunRecord(id, t.nextRun, o.started, o.finished, Some(decision.value.triggered))];
            if counted {
              notices := notices + [Notice(id, t.username, t.title, Body(t, o))];
            }
            automations := automations[id := automations[id].(
              nextRun := next.value, lastRun := Some(o.finished), lastSucceeded := Some(true),
              lastTriggered := Some(decision.value.triggered), lockedUntil := None)];
            return;
          }
        }
      }
      var next := CalculateNextRun(t.schedule, o.failed, offset, false);
      if !o.recordable {
        ended := false;
        return;
      }
      runs := runs + [RunRecord(id, t.nextRun, o.started, o.failed, None)];
      automations := automations[id := automations[id].(
        nextRun := if next.Some? then next.value else o.failed + HOUR, lastRun := Some(o.failed),
        lastSucceeded := Some(false), lockedUntil := None)];
    }

    /** One pass of a scheduler.  What the reports, the evaluator, the clock and the database
        answer is given in `outcomes`.  Without a report the pass ended in an exception, at the
        first run that ends in no record. */
    method RunDueAutomations(enabled: bool, now: int, limit: int, outcomes: seq<Outcome>)
      returns (report: Option<Report>, ghost ids: seq<nat>, ghost rows: seq<Automation>, ghost done: nat)
      requires |outcomes| >= BatchLimit(limit)
      modifies this
      ensures !enabled ==> State() == old(State()) && ids == []
      ensures enabled ==> IsBatch(old(State()), now, limit, ids)
      ensures |rows| == |ids| <= |outcomes|
      ensures forall i | 0 <= i < |ids| :: ids[i] in old(automations) && rows[i] == old(automations)[ids[i]]
      ensures FirstUnrecorded(rows, outcomes, offset, done)
      ensures enabled ==>
                State() == AllFinished(Locked(old(State()), Ids(ids), now), ids[..done], rows[..done], outcomes, offset)
      ensures report.Some? <==> done == |ids|
      ensures report.Some? ==>
                var r := report.value;
                && r.claimed == |ids| == r.completed + r.failed && r.completed == Successes(rows, outcomes, offset)
                && |notices| == |old(notices)| + r.notified - LostNotices(rows, outcomes, offset)
                && (|notices| == |old(notices)| + r.notified
                    <==> forall i | 0 <= i < |ids| :: !LosesNotice(rows[i], outcomes[i], offset))
    {
      hide IsBatch, Due, LosesNotice, LostNotices, Successes, AllFinished, Ends;
      ids, rows, done := [], [], 0;
      NothingYet(outcomes, offset);
      if !enabled {
        return Some(Report(0, 0, 0, 0)), ids, rows, done;
      }
      var tasks, copies := ClaimDue(now, limit);
      BatchIsDistinct(old(State()), now, limit, tasks);
      var ended, completed, failed, notified := RunBatch(tasks, copies, outcomes);
      ids, rows, done := tasks, copies, ended;
      if ended < |tasks| {
        return None, ids, rows, done;
      }
      NothingLostExactlyWhen(copies, outcomes, offset);
      assert copies[..ended] == copies;
      return Some(Report(|tasks|, completed, failed, notified)), ids, rows, done;
    }

    /** The claimed runs, one after the other, until one ends in no record. */
    method RunBatch(tasks: seq<nat>, copies: seq<Automation>, outcomes: seq<Outcome>)
      returns (done: nat, completed: nat, failed: nat, notified: nat)
      requires |tasks| == |copies| <= |outcomes|
      requires forall i | 0 <= i < |tasks| :: tasks[i] in automations
      modifies this
      ensures FirstUnrecorded(copies, outcomes, offset, done)
      ensures State() == AllFinished(old(State()), tasks[..done], copies[..done], outcomes, offset)
      ensures completed + failed == done && completed == Successes(copies[..done], outcomes, offset)
      ensures |notices| == |old(notices)| + notified - LostNotices(copies[..done], outcomes, offset)
    {
      hide NextRun, Body, Strip, Finished, Succeeds, LosesNotice, LostNotices, Successes, Prepared, ShouldNotify, Ends;
      done, completed, failed, notified := 0, 0, 0, 0;
      NothingYet(outcomes, offset);
      ghost var before := State();
      while done < |tasks|
        invariant 0 <= done <= |tasks|
        invariant forall i | 0 <= i < done :: Ends(copies[i], outcomes[i], offset)
        invariant State() == AllFinished(before, tasks[..done], copies[..done], outcomes, offset)
        invariant completed + failed == done && completed == Successes(copies[..done], outcomes, offset)
        invariant |notices| == |before.notices| + notified - LostNotices(copies[..done], outcomes, offset)
      {
        assert tasks[done] in before.automations;
        assert tasks[..done + 1][..done] == tasks[..done] && copies[..done + 1][..done] == copies[..done];
        var ended, ok, counted := RecordRun(tasks[done], copies[done], outcomes[done]);
        if !ended {
          return;
        }
        OneMoreOutcome(copies, outcomes, offset, done, ok, counted);
        if ok {
          completed := completed + 1;
        } else {
          failed := failed + 1;
        }
        if counted {
          notified := notified + 1;
        }
        done := done + 1;
      }
    }

    method SetAutomationActive(id: nat, username: string, active: bool, now: int) returns (ok: bool)
      modifies this`automations
      ensures ok <==> SetActive(old(State()), id, username, active, now, offset).Some?
      ensures State() == OrSame(old(State()), SetActive(old(State()), id, username, active, now, offset))
    {
      hide NextRun;
      if id !in automations || automations[id].username != username || automations[id].deleted {
        return false;
      }
      var next := Some(automations[id].nextRun);
      if active {
        next := CalculateNextRun(automations[id].schedule, now, offset, true);
        if next.None? {
          return false;
        }
      }
      automations := automations[id := automations[id].(active := active, nextRun := next.value, lockedUntil := None)];
      return true;
    }

    method DeleteAutomation(id: nat, username: string) returns (ok: bool)
      modifies this`automations
      ensures ok <==> Delete(old(State()), id, username).Some?
      ensures State() == OrSame(old(State()), Delete(old(State()), id, username))
    {
      if id !in automations || automations[id].username != username || automations[id].deleted {
        return false;
      }
      automations := automations[id := automations[id].(active := false, deleted := true, lockedUntil := None)];
      return true;
    }
  }

  lemma NothingYet(outcomes: seq<Outcome>, offset: int)
    ensures Successes([], outcomes, offset) == 0 && LostNotices([], outcomes, offset) == 0
  {
  }

  /** What one more run adds to the two counts, given what was answered about it. */
  lemma OneMoreOutcome(rows: seq<Automation>, outcomes: seq<Outcome>, offset: int, i: nat, ok: bool, counted: bool)
    requires i < |rows| <= |outcomes|
    requires ok <==> Succeeds(rows[i], outcomes[i], offset)
    requires counted <==>
             Prepared(rows[i], outcomes[i], offset) && outcomes[i].write != FailsEarly
             && ShouldNotify(rows[i], outcomes[i])
    ensures Successes(rows[..i + 1], outcomes, offset) == Successes(rows[..i], outcomes, offset) + if ok then 1 else 0
    ensures LostNotices(rows[..i + 1], outcomes, offset)
            == LostNotices(rows[..i], outcomes, offset) + if counted && !ok then 1 else 0
  {
    hide Decided, NextRun, ShouldNotify;
    assert rows[..i + 1][..i] == rows[..i];
  }

  lemma OneRowBatch(b: Board, now: int, ids: seq<nat>)
    requires b.automations.Keys == {0} && Due(b.automations[0], now) && IsBatch(b, now, 1, ids)
    ensures ids == [0]
  {
    hide Due;
    if ids != [] {
      assert ids[0] in b.automations.Keys;
    }
    assert 0 in b.automations;
  }

  /** A report that is due, in a pass whose transaction fails at its end: one notification is
      reported, and none was sent. */
  method ReportedButNotSent() returns (reported: nat, sent: nat)
    ensures reported == 1 && sent == 0
  {
    hide NextRun, Body, IsBatch, Conditional;
    var a := Automation("u", "t", "", Interval(15), true, false, 0, None, None, None, None);
    var late := Outcome(Some("answer"), None, FailsLate, true, 1, 2, 3);
    var outcomes := seq(1, _ => late);
    var s := new Scheduler(0);
    s.automations := map[0 := a];
    var report, ids, rows, done := s.RunDueAutomations(true, 0, 1, outcomes);
    OneRowBatch(Board(map[0 := a], [], []), 0, ids);
    LateNoticeIsLost(a, late);
    assert rows == [a];
    assert [a][..0] == [] && ids[..0] == [] && rows[..0] == [];
    assert report.Some?;
    reported, sent := report.value.notified, |s.notices|;
  }

  lemma LateNoticeIsLost(a: Automation, o: Outcome)
    requires a.condition == "" && a.schedule == Interval(15) && o.answer.Some? && o.write == FailsLate
    ensures LosesNotice(a, o, 0) && !Succeeds(a, o, 0)
  {
    hide Body;
    assert Strip("") == "";
  }

  lemma BatchIsDistinct(b: Board, now: int, limit: int, ids: seq<nat>)
    requires IsBatch(b, now, limit, ids)
    ensures forall i, j | 0 <= i < j < |ids| :: ids[i] != ids[j]
    ensures |ids| <= BatchLimit(limit)
    ensures forall i | 0 <= i < |ids| :: ids[i] in b.automations && Due(b.automations[ids[i]], now)
  {
    hide Due;
  }

  lemma DueIsUnlocked(a: Automation, now: int)
    requires Due(a, now)
    ensures Unlocked(a, now)
  {
  }

  lemma OneMoreId(ids: seq<nat>, i: nat)
    requires i < |ids|
    ensures ids[..i + 1] == ids[..i] + [ids[i]]
    ensures Ids(ids[..i + 1]) == Ids(ids[..i]) + {ids[i]}
  {
    assert ids[..i + 1] == ids[..i] + [ids[i]];
    assert forall x :: x in ids[..i + 1] <==> x in ids[..i] || x == ids[i];
  }
}
