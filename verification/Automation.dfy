/**
 Scheduled reports: when a schedule comes round again, how due automations are
 claimed, and what a finished run leaves behind.  Instants are microseconds; the
 local zone is a constant offset.
 */
module Automation {
  import opened Prelude

  const MINUTE := 60_000_000
  const HOUR := 60 * MINUTE
  const DAY := 24 * HOUR
  const MIN_INTERVAL_MINUTES := 15
  const MAX_INTERVAL_MINUTES := 7 * 24 * 60
  const LOCK := 15 * MINUTE

  // ---------------------------------------------------------------------
  // Schedules
  // ---------------------------------------------------------------------

  /** A daily time is a minute of the day, or nothing when its text was refused. */
  datatype Schedule = Interval(minutes: int) | Daily(minute: Option<nat>) | OtherKind

  function TimeOfDay(instant: int, offset: int): int {
    (instant + offset) % DAY
  }

  /** The instants at which a daily schedule comes round. */
  predicate Matches(instant: int, minute: nat, offset: int) {
    TimeOfDay(instant, offset) == minute * MINUTE
  }

  /** The earliest match after `from`: the rest of the way round the clock from where `from` stands. */
  function FirstMatchAfter(from: int, minute: nat, offset: int): int {
    var gap := (minute * MINUTE - TimeOfDay(from, offset)) % DAY;
    from + if gap == 0 then DAY else gap
  }

  function NextRun(schedule: Schedule, now: int, offset: int, allowCurrentMinute: bool): Option<int> {
    match schedule
    case Interval(minutes) =>
      if MIN_INTERVAL_MINUTES <= minutes <= MAX_INTERVAL_MINUTES then Some(now + minutes * MINUTE) else None
    case OtherKind => None
    case Daily(minute) =>
      if minute.None? || minute.value >= 24 * 60 then None
      else Some(FirstMatchAfter(if allowCurrentMinute then now - MINUTE else now, minute.value, offset))
  }

  lemma Remainder(days: int, rest: int)
    requires 0 <= rest < DAY
    ensures (days * DAY + rest) % DAY == rest
  {
  }

  lemma Division(x: int) returns (days: int)
    ensures x == days * DAY + x % DAY && 0 <= x % DAY < DAY
  {
    days := x / DAY;
  }

  lemma FirstMatchMatches(from: int, minute: nat, offset: int)
    requires minute < 24 * 60
    ensures var r := FirstMatchAfter(from, minute, offset);
            from < r <= from + DAY && Matches(r, minute, offset)
  {
    var target := minute * MINUTE;
    var r := FirstMatchAfter(from, minute, offset);
    var d := Division(from + offset);
    var e := Division(target - (from + offset) % DAY);
    if r == from + DAY {
      Remainder(d + 1, target);
    } else {
      Remainder(d - e, target);
      assert r + offset == (d - e) * DAY + target;
    }
  }

  lemma OneMatchADay(x: int, y: int, minute: nat, offset: int)
    requires Matches(x, minute, offset) && Matches(y, minute, offset)
    ensures x < y ==> x + DAY <= y
  {
    var d := Division(x + offset);
    var e := Division(y + offset);
  }

  /** A daily run is due at the earliest instant after `from` with the local time asked for. */
  lemma FirstMatchIsFirst(from: int, minute: nat, offset: int, other: int)
    requires minute < 24 * 60
    ensures var r := FirstMatchAfter(from, minute, offset);
            from < r <= from + DAY && Matches(r, minute, offset)
    ensures from < other && Matches(other, minute, offset) ==> FirstMatchAfter(from, minute, offset) <= other
  {
    FirstMatchMatches(from, minute, offset);
    if from < other && Matches(other, minute, offset) {
      OneMatchADay(other, FirstMatchAfter(from, minute, offset), minute, offset);
    }
  }

  /** When a schedule comes round after `now`: so many minutes later, between a quarter of an hour
      and a week, or at the first instant with the local time asked for.  A time that passed less
      than a minute ago still counts when the current minute is allowed. */
  ghost predicate ComesRoundAt(schedule: Schedule, now: int, offset: int, allowCurrentMinute: bool, r: int) {
    match schedule
    case Interval(minutes) => 15 <= minutes <= 10_080 && r == now + minutes * MINUTE
    case OtherKind => false
    case Daily(minute) =>
      && minute.Some? && minute.value < 24 * 60
      && var from := if allowCurrentMinute then now - MINUTE else now;
         && from < r && Matches(r, minute.value, offset)
         && forall other | from < other && Matches(other, minute.value, offset) :: r <= other
  }

  /** The next run is when the schedule comes round, and there is none when it never does. */
  lemma NextRunComesRound(schedule: Schedule, now: int, offset: int, allowCurrentMinute: bool, r: int)
    ensures NextRun(schedule, now, offset, allowCurrentMinute) == Some(r)
       <==> ComesRoundAt(schedule, now, offset, allowCurrentMinute, r)
  {
    hide FirstMatchAfter, Matches;
    if schedule.Daily? && schedule.minute.Some? && schedule.minute.value < 24 * 60 {
      var from, minute := if allowCurrentMinute then now - MINUTE else now, schedule.minute.value;
      var first := FirstMatchAfter(from, minute, offset);
      FirstMatchMatches(from, minute, offset);
      FirstMatchIsFirst(from, minute, offset, r);
      forall other | from < other && Matches(other, minute, offset) ensures first <= other {
        FirstMatchIsFirst(from, minute, offset, other);
      }
    }
  }

  /** Today's time, or tomorrow's when it has passed.  `None` is the error that the schedule raises. */
  method CalculateNextRun(schedule: Schedule, now: int, offset: int, allowCurrentMinute: bool) returns (r: Option<int>)
    ensures r == NextRun(schedule, now, offset, allowCurrentMinute)
    ensures forall at :: r == Some(at) <==> ComesRoundAt(schedule, now, offset, allowCurrentMinute, at)
  {
    hide FirstMatchAfter, Matches, ComesRoundAt;
    forall at {
      NextRunComesRound(schedule, now, offset, allowCurrentMinute, at);
    }
    match schedule
    case Interval(minutes) =>
      if !(MIN_INTERVAL_MINUTES <= minutes <= MAX_INTERVAL_MINUTES) {
        return None;
      }
      return Some(now + minutes * MINUTE);
    case OtherKind =>
      return None;
    case Daily(minute) =>
      if minute.None? || minute.value >= 24 * 60 {
        return None;
      }
      var localNow := now + offset;
      var midnight := localNow - localNow % DAY;
      var candidate := midnight + minute.value * MINUTE;
      ghost var days := Division(localNow);
      TodayMatches(days, minute.value, offset);
      if candidate <= localNow {
        var withinCurrentMinute := localNow - candidate < MINUTE;
        if !(allowCurrentMinute && withinCurrentMinute) {
          candidate := candidate + DAY;
        }
      }
      OnlyMatch(if allowCurrentMinute then now - MINUTE else now, minute.value, offset, candidate - offset);
      return Some(candidate - offset);
  }

  lemma TodayMatches(days: int, minute: nat, offset: int)
    requires minute < 24 * 60
    ensures Matches(days * DAY + minute * MINUTE - offset, minute, offset)
    ensures Matches(days * DAY + minute * MINUTE + DAY - offset, minute, offset)
  {
    Remainder(days, minute * MINUTE);
    Remainder(days + 1, minute * MINUTE);
    assert (days + 1) * DAY + minute * MINUTE == days * DAY + minute * MINUTE + DAY;
  }

  lemma OnlyMatch(from: int, minute: nat, offset: int, r: int)
    requires minute < 24 * 60 && from < r <= from + DAY && Matches(r, minute, offset)
    ensures r == FirstMatchAfter(from, minute, offset)
  {
    FirstMatchMatches(from, minute, offset);
    OneMatchADay(r, FirstMatchAfter(from, minute, offset), minute, offset);
    OneMatchADay(FirstMatchAfter(from, minute, offset), r, minute, offset);
  }

  /** The next run is later than now, by less than a minute in the past at most when the current
      minute is allowed. */
  lemma NextRunIsLater(schedule: Schedule, now: int, offset: int)
    ensures NextRun(schedule, now, offset, false).Some? ==> NextRun(schedule, now, offset, false).value > now
    ensures NextRun(schedule, now, offset, true).Some? ==> NextRun(schedule, now, offset, true).value > now - MINUTE
  {
    if schedule.Daily? && schedule.minute.Some? && schedule.minute.value < 24 * 60 {
      FirstMatchIsFirst(now, schedule.minute.value, offset, now);
      FirstMatchIsFirst(now - MINUTE, schedule.minute.value, offset, now);
    }
  }

  // ---------------------------------------------------------------------
  // Tables
  // ---------------------------------------------------------------------

  datatype Automation = Automation(
    username: string,
    title: string,
    condition: string,
    schedule: Schedule,
    active: bool,
    deleted: bool,
    nextRun: int,
    lockedUntil: Option<int>,
    lastRun: Option<int>,
    lastSucceeded: Option<bool>,
    lastTriggered: Option<bool>)

  /** `triggered` is nothing for a failed run. */
  datatype RunRecord = RunRecord(automation: nat, scheduledFor: int, started: int, finished: int,
      triggered: Option<bool>)

  datatype Notice = Notice(automation: nat, username: string, title: string, body: string)

  datatype Board = Board(automations: map<nat, Automation>, runs: seq<RunRecord>, notices: seq<Notice>)

  predicate Conditional(a: Automation) {
    !Blank(a.condition)
  }

  // ---------------------------------------------------------------------
  // Claims
  // ---------------------------------------------------------------------

  predicate Unlocked(a: Automation, now: int) {
    a.lockedUntil.None? || a.lockedUntil.value < now
  }

  predicate Due(a: Automation, now: int) {
    a.active && !a.deleted && a.nextRun <= now && Unlocked(a, now)
  }

  function Ids(ids: seq<nat>): set<nat> {
    set id | id in ids
  }

  function Locked(b: Board, ids: set<nat>, now: int): Board {
    b.(automations := map id | id in b.automations ::
         if id in ids then b.automations[id].(lockedUntil := Some(now + LOCK)) else b.automations[id])
  }

  function BatchLimit(limit: int): nat {
    if limit < 1 then 1 else if limit > 10 then 10 else limit
  }

  /** `x` comes before `y` in a batch. */
  predicate Earlier(automations: map<nat, Automation>, x: nat, y: nat)
    requires x in automations && y in automations
  {
    automations[x].nextRun < automations[y].nextRun || (automations[x].nextRun == automations[y].nextRun && x < y)
  }

  /** The first due automations in order of their next run, as many as the limit allows. */
  ghost predicate IsBatch(b: Board, now: int, limit: int, ids: seq<nat>) {
    && (forall i | 0 <= i < |ids| :: ids[i] in b.automations && Due(b.automations[ids[i]], now))
    && (forall i, j | 0 <= i < j < |ids| :: Earlier(b.automations, ids[i], ids[j]))
    && |ids| <= BatchLimit(limit)
    && (forall id | id in b.automations && Due(b.automations[id], now) && id !in ids ::
          |ids| == BatchLimit(limit) && forall i | 0 <= i < |ids| :: Earlier(b.automations, ids[i], id))
  }

  // ---------------------------------------------------------------------
  // Finishing a run
  // ---------------------------------------------------------------------

  datatype Decision = Decision(triggered: bool, reason: string)

  /** Whether the transaction that records a success goes through, fails, or fails after the
      notification was counted. */
  datatype Write = Committed | FailsEarly | FailsLate

  /** What the report, the evaluator, the clock and the database answer during one run; nothing
      stands for an exception.  `recordable` says whether the record of a failure can be written. */
  datatype Outcome = Outcome(
    answer: Option<string>, decision: Option<Decision>, write: Write, recordable: bool,
    started: int, finished: int, failed: int)

  const ANSWER_LIMIT := 12_000

  function Cut(s: string): string {
    if |s| <= ANSWER_LIMIT then s else s[..ANSWER_LIMIT]
  }

  /** The decision of the run: reports without a condition always trigger. */
  function Decided(t: Automation, o: Outcome): Option<Decision> {
    if o.answer.None? then None
    else if Conditional(t) then o.decision
    else Some(Decision(true, ""))
  }

  predicate Prepared(t: Automation, o: Outcome, offset: int) {
    Decided(t, o).Some? && NextRun(t.schedule, o.finished, offset, false).Some?
  }

  predicate Succeeds(t: Automation, o: Outcome, offset: int) {
    Prepared(t, o, offset) && o.write == Committed
  }

  /** The run ends in a record.  Otherwise its last exception ends the whole pass. */
  predicate Ends(t: Automation, o: Outcome, offset: int) {
    Succeeds(t, o, offset) || o.recordable
  }

  /** Conditions alert when they turn true, plain reports every time. */
  predicate ShouldNotify(t: Automation, o: Outcome)
    requires Decided(t, o).Some?
  {
    !Conditional(t) || (Decided(t, o).value.triggered && t.lastTriggered != Some(true))
  }

  function Body(t: Automation, o: Outcome): string
    requires Decided(t, o).Some?
  {
    var answer := Cut(o.answer.value);
    Cut(if Conditional(t) then Strip(Decided(t, o).value.reason + "\n\n" + answer) else answer)
  }

  function AfterFailure(t: Automation, o: Outcome, offset: int): int {
    match NextRun(t.schedule, o.failed, offset, false) case Some(next) => next case None => o.failed + HOUR
  }

  function EndOf(t: Automation, o: Outcome, offset: int): int {
    if Succeeds(t, o, offset) then o.finished else o.failed
  }

  function Recorded(a: Automation, t: Automation, o: Outcome, offset: int): Automation {
    if Succeeds(t, o, offset) then
      a.(nextRun := NextRun(t.schedule, o.finished, offset, false).value,
         lastRun := Some(o.finished), lastSucceeded := Some(true),
         lastTriggered := Some(Decided(t, o).value.triggered), lockedUntil := None)
    else
      a.(nextRun := AfterFailure(t, o, offset), lastRun := Some(o.failed),
         lastSucceeded := Some(false), lockedUntil := None)
  }

  /** `t` is the row as it was when the run was claimed. */
  function Finished(b: Board, id: nat, t: Automation, o: Outcome, offset: int): Board
    requires id in b.automations
  {
    var success := Succeeds(t, o, offset);
    var record := RunRecord(id, t.nextRun, o.started, EndOf(t, o, offset),
                            if success then Some(Decided(t, o).value.triggered) else None);
    Board(b.automations[id := Recorded(b.automations[id], t, o, offset)],
          b.runs + [record],
          if success && ShouldNotify(t, o) then b.notices + [Notice(id, t.username, t.title, Body(t, o))]
          else b.notices)
  }

  // ---------------------------------------------------------------------
  // The user's own changes
  // ---------------------------------------------------------------------

  function Create(b: Board, id: nat, a: Automation, now: int, offset: int): Option<Board> {
    match NextRun(a.schedule, now, offset, true)
    case None => None
    case Some(next) =>
      Some(b.(automations := b.automations[
                id := a.(active := true, deleted := false, nextRun := next, lockedUntil := None, lastRun := None,
                         lastSucceeded := None, lastTriggered := None)]))
  }

  function SetActive(b: Board, id: nat, username: string, active: bool, now: int, offset: int): Option<Board> {
    if id !in b.automations || b.automations[id].username != username || b.automations[id].deleted then None
    else
      var a := b.automations[id];
      var next := if active then NextRun(a.schedule, now, offset, true) else Some(a.nextRun);
      if next.None? then None
      else Some(b.(automations := b.automations[
                     id := a.(active := active, nextRun := next.value, lockedUntil := None)]))
  }

  function Delete(b: Board, id: nat, username: string): Option<Board> {
    if id !in b.automations || b.automations[id].username != username || b.automations[id].deleted then None
    else Some(b.(automations := b.automations[
                   id := b.automations[id].(active := false, deleted := true, lockedUntil := None)]))
  }
}
