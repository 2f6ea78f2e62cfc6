/**
 When automations run over whole histories: how far apart their claims are, and
 that nothing is claimed which its owner has paused or deleted.
 */
module AutomationTiming {
  import opened Prelude
  import opened Automation
  import opened AutomationRuns

  // ---------------------------------------------------------------------
  // When a row is due
  // ---------------------------------------------------------------------

  /** A recorded run leaves its row due from the instant at which its schedule comes round after the
      run, and not before; from an hour later when a failed run has no valid schedule. */
  lemma FinishedRunIsDue(offset: int, w: World, claim: nat, o: Outcome)
    requires Possible(offset, w, Finish(claim, o))
    ensures var row := Step(offset, w, Finish(claim, o)).board.automations[w.held[claim].id];
            var t := w.held[claim].row;
            var end := EndOf(t, o, offset);
            && (forall n :: Due(row, n) <==> row.active && !row.deleted && n >= row.nextRun)
            && (ComesRoundAt(t.schedule, end, offset, false, row.nextRun)
                || (!Succeeds(t, o, offset) && row.nextRun == end + 60 * MINUTE
                    && forall r :: !ComesRoundAt(t.schedule, end, offset, false, r)))
  {
    hide NextRun, Matches, ComesRoundAt, Decided, ShouldNotify, Body;
    var t := w.held[claim].row;
    var end := EndOf(t, o, offset);
    forall r {
      NextRunComesRound(t.schedule, end, offset, false, r);
    }
  }

  /** The record of a run and its row say the same: when it was due and when it ended, whether it
      succeeded, and what it found; a report without a condition always finds something. */
  lemma RecordTellsTheRun(offset: int, w: World, claim: nat, o: Outcome)
    requires Possible(offset, w, Finish(claim, o))
    ensures var board, id, t := Step(offset, w, Finish(claim, o)).board, w.held[claim].id, w.held[claim].row;
            var record, row := board.runs[|board.runs| - 1], board.automations[id];
            && board.runs == w.board.runs + [record]
            && record.automation == id && record.scheduledFor == t.nextRun && record.started == o.started
            && row.lastRun == Some(record.finished)
            && record.finished == (if record.triggered.Some? then o.finished else o.failed)
            && row.lastSucceeded == Some(record.triggered.Some?)
            && (record.triggered.Some? ==> row.lastTriggered == record.triggered)
            && (record.triggered.Some? && !Conditional(t) ==> record.triggered.value)
            && (record.triggered.Some? && Conditional(t) ==>
                  o.decision.Some? && record.triggered.value == o.decision.value.triggered)
  {
    hide NextRun, Conditional, Body;
  }

  // ---------------------------------------------------------------------
  // Paused and deleted automations
  // ---------------------------------------------------------------------

  predicate Quiet(w: World, id: nat) {
    id in w.board.automations && (w.board.automations[id].deleted || !w.board.automations[id].active)
  }

  /** The owner switches the automation on again. */
  predicate Resumes(w: World, e: Event, id: nat) {
    && e.Switches? && e.id == id && e.active
    && id in w.board.automations && !w.board.automations[id].deleted && w.board.automations[id].username == e.username
  }

  /** What an owner switches off, or deletes, is quiet at once. */
  lemma OwnerSilences(offset: int, w: World, e: Event, id: nat)
    requires Possible(offset, w, e) && id in w.board.automations && !w.board.automations[id].deleted
    requires (e.Switches? && !e.active) || e.Deletes?
    requires e.id == id && e.username == w.board.automations[id].username
    ensures Quiet(Step(offset, w, e), id)
    ensures var row := Step(offset, w, e).board.automations[id];
            !row.active && row.lockedUntil == None && (row.deleted <==> e.Deletes?)
  {
    hide NextRun;
  }

  /** Nobody but its owner pauses, resumes or deletes an automation, and nobody one that is deleted. */
  lemma OnlyOwnersChange(offset: int, w: World, e: Event)
    requires Possible(offset, w, e) && (e.Switches? || e.Deletes?) && Step(offset, w, e) != w
    ensures e.id in w.board.automations && !w.board.automations[e.id].deleted
    ensures w.board.automations[e.id].username == e.username
    ensures Step(offset, w, e)
            == w.(board := w.board.(automations :=
                    w.board.automations[e.id := Step(offset, w, e).board.automations[e.id]]))
  {
    hide NextRun;
  }

  /** An automation that was just created, or switched on again by its owner, is due from when its
      schedule comes round, the current minute included; a new one has no past.  Nothing happens when
      the schedule never comes round. */
  lemma OwnerStarts(offset: int, w: World, e: Event, id: nat)
    requires Possible(offset, w, e) && (e.Creates? || Resumes(w, e, id)) && e.id == id
    ensures var next := Step(offset, w, e);
            var schedule := if e.Creates? then e.automation.schedule else w.board.automations[id].schedule;
            if !Accepted(schedule) then next == w
            else
              && id in next.board.automations
              && var row := next.board.automations[id];
                 && ComesRoundAt(schedule, e.now, offset, true, row.nextRun)
                 && (forall n :: Due(row, n) <==> n >= row.nextRun)
                 && (e.Creates? ==> row.lastRun == None && row.lastSucceeded == None && row.lastTriggered == None)
  {
    hide NextRun, ComesRoundAt, Accepted;
    var schedule := if e.Creates? then e.automation.schedule else w.board.automations[id].schedule;
    AcceptedComesRound(schedule, e.now, offset, true);
    forall r {
      NextRunComesRound(schedule, e.now, offset, true, r);
    }
  }

  lemma StepKeepsQuiet(offset: int, w: World, e: Event, id: nat)
    requires Possible(offset, w, e) && Quiet(w, id) && !Resumes(w, e, id)
    ensures Quiet(Step(offset, w, e), id)
    ensures e.Claim? ==> id !in e.ids
  {
    hide NextRun, Succeeds, ShouldNotify, Body, Ends, Taken;
  }

  /** Between a pause and the resumption by its owner, and for ever after its deletion, no scheduler
      claims an automation. */
  lemma {:induction false} QuietIsNotClaimed(offset: int, worlds: seq<World>, events: seq<Event>, id: nat)
    requires History(offset, worlds, events) && Quiet(worlds[0], id)
    requires forall i | 0 <= i < |events| :: !Resumes(worlds[i], events[i], id)
    ensures Quiet(worlds[|events|], id)
    ensures forall i | 0 <= i < |events| && events[i].Claim? :: id !in events[i].ids
  {
    hide Possible, Step, Quiet, Resumes;
    if events != [] {
      var n := |events| - 1;
      var before, early := worlds[..n + 1], events[..n];
      forall i | 0 <= i < n ensures !Resumes(before[i], early[i], id) {
        assert before[i] == worlds[i] && early[i] == events[i];
      }
      QuietIsNotClaimed(offset, before, early, id);
      assert before[n] == worlds[n];
      StepKeepsQuiet(offset, worlds[n], events[n], id);
      forall i | 0 <= i < |events| && events[i].Claim? ensures id !in events[i].ids {
        assert i < n ==> early[i] == events[i];
      }
    }
  }

  // ---------------------------------------------------------------------
  // The time between two claims
  // ---------------------------------------------------------------------

  /** The schedule has come round once in this time. */
  ghost predicate CameRound(schedule: Schedule, from: int, to: int, offset: int) {
    exists r :: r <= to && ComesRoundAt(schedule, from, offset, false, r)
  }

  lemma LaterComesRoundLater(schedule: Schedule, from: int, later: int, offset: int, r: int)
    requires from <= later && ComesRoundAt(schedule, later, offset, false, r)
    ensures CameRound(schedule, from, r, offset)
  {
    hide Matches;
    match schedule
    case Interval(minutes) => assert ComesRoundAt(schedule, from, offset, false, from + minutes * MINUTE);
    case Daily(minute) =>
      FirstMatchMatches(from, minute.value, offset);
      var first := FirstMatchAfter(from, minute.value, offset);
      FirstMatchIsFirst(from, minute.value, offset, r);
      NextRunComesRound(schedule, from, offset, false, first);
  }

  /** The schedule comes round at all. */
  predicate Accepted(schedule: Schedule) {
    match schedule
    case Interval(minutes) => 15 <= minutes <= 10_080
    case Daily(minute) => minute.Some? && minute.value < 24 * 60
    case OtherKind => false
  }

  lemma AcceptedComesRound(schedule: Schedule, now: int, offset: int, allowCurrentMinute: bool)
    ensures NextRun(schedule, now, offset, allowCurrentMinute).Some? <==> Accepted(schedule)
  {
    hide FirstMatchAfter;
  }

  /** Rows were created with a schedule that comes round, and copies have the schedule of their row. */
  ghost predicate Scheduled(w: World, id: nat) {
    id in w.board.automations ==>
      && Accepted(w.board.automations[id].schedule)
      && forall c | c in Running(w, id) :: w.held[c].row.schedule == w.board.automations[id].schedule
  }

  lemma StepKeepsSchedule(offset: int, w: World, e: Event, id: nat)
    requires Numbered(w) && Scheduled(w, id) && Possible(offset, w, e)
    ensures Scheduled(Step(offset, w, e), id)
    ensures var next := Step(offset, w, e).board.automations;
            id in w.board.automations ==> id in next && next[id].schedule == w.board.automations[id].schedule
  {
    hide NextRun, Accepted, Succeeds, ShouldNotify, Body, Ends, Taken, Due;
    var next := Step(offset, w, e);
    match e
    case Claim(ids, now) =>
      var c := RunningAfterClaim(offset, w, ids, now, id);
    case Creates(other, a, now) => AcceptedComesRound(a.schedule, now, offset, true);
    case _ => assert Running(next, id) <= Running(w, id);
  }

  lemma {:induction false} AlwaysScheduled(offset: int, worlds: seq<World>, events: seq<Event>, id: nat)
    requires History(offset, worlds, events) && Empty(worlds[0])
    ensures Numbered(worlds[|events|]) && Scheduled(worlds[|events|], id)
  {
    hide Step, Numbered, Possible, Scheduled;
    if events == [] {
      NothingScheduled(worlds[0], id);
    } else {
      var n := |events| - 1;
      AlwaysScheduled(offset, worlds[..n + 1], events[..n], id);
      assert worlds[..n + 1][n] == worlds[n];
      StepKeepsNumbers(offset, worlds[n], events[n]);
      StepKeepsSchedule(offset, worlds[n], events[n], id);
    }
  }

  lemma NothingScheduled(w: World, id: nat)
    requires Empty(w)
    ensures Numbered(w) && Scheduled(w, id)
  {
  }

  /** The event claims the automation or records a run of it. */
  predicate Claims(e: Event, id: nat) {
    e.Claim? && id in e.ids
  }

  ghost predicate Records(w: World, e: Event, id: nat) {
    e.Finish? && e.claim in w.held && w.held[e.claim].id == id
  }

  /** Runs that are recorded end, by their own clock, no earlier than `start`, and the owner leaves the
      automation alone. */
  ghost predicate EndsAfter(offset: int, w: World, e: Event, id: nat, start: int) {
    && (Records(w, e, id) ==> EndOf(w.held[e.claim].row, e.outcome, offset) >= start)
    && (e.Switches? || e.Deletes? ==> e.id != id)
  }

  /** Since a claim at `start`: recorded, and due again only when the schedule has come round, or not
      recorded and locked for a quarter of an hour. */
  ghost predicate Since(w: World, id: nat, start: int, offset: int, recorded: bool) {
    && id in w.board.automations
    && var a := w.board.automations[id];
       if recorded then CameRound(a.schedule, start, a.nextRun, offset)
       else a.lockedUntil.Some? && a.lockedUntil.value >= start + LOCK
  }

  lemma CameRoundLater(schedule: Schedule, from: int, to: int, later: int, offset: int)
    requires CameRound(schedule, from, to, offset) && to <= later
    ensures CameRound(schedule, from, later, offset)
  {
    hide ComesRoundAt;
  }

  lemma RecordKeepsSince(offset: int, w: World, e: Event, id: nat, start: int)
    requires Numbered(w) && Scheduled(w, id) && Possible(offset, w, e) && Records(w, e, id)
    requires EndsAfter(offset, w, e, id, start)
    ensures Since(Step(offset, w, e), id, start, offset, true)
  {
    hide NextRun, ComesRoundAt, CameRound, Matches, Succeeds, ShouldNotify, Body, Ends, Taken, Due;
    var t, end := w.held[e.claim].row, EndOf(w.held[e.claim].row, e.outcome, offset);
    assert e.claim in Running(w, id);
    FinishedRunIsDue(offset, w, e.claim, e.outcome);
    AcceptedComesRound(t.schedule, end, offset, false);
    var r := NextRun(t.schedule, end, offset, false).value;
    NextRunComesRound(t.schedule, end, offset, false, r);
    LaterComesRoundLater(t.schedule, start, end, offset, Step(offset, w, e).board.automations[id].nextRun);
  }

  lemma OthersKeepSince(offset: int, w: World, e: Event, id: nat, start: int, recorded: bool)
    requires Numbered(w) && Possible(offset, w, e) && Since(w, id, start, offset, recorded)
    requires EndsAfter(offset, w, e, id, start) && !Records(w, e, id) && (Claims(e, id) ==> start <= e.now)
    ensures Since(Step(offset, w, e), id, start, offset, recorded)
    ensures Claims(e, id) ==>
              if recorded then CameRound(w.board.automations[id].schedule, start, e.now, offset)
              else e.now > start + LOCK
  {
    hide NextRun, ComesRoundAt, CameRound, Succeeds, ShouldNotify, Body, Ends, Taken;
    if Claims(e, id) {
      var i :| 0 <= i < |e.ids| && e.ids[i] == id;
      assert Due(w.board.automations[id], e.now);
      if recorded {
        CameRoundLater(w.board.automations[id].schedule, start, w.board.automations[id].nextRun, e.now, offset);
      }
    }
  }

  /** Some run of the automation was recorded among the events from `i` on, before `j`. */
  ghost predicate RecordedBetween(worlds: seq<World>, events: seq<Event>, id: nat, i: nat, j: nat)
    requires j <= |events| < |worlds|
  {
    exists k | i <= k < j :: Records(worlds[k], events[k], id)
  }

  /** The clocks agree and the owner leaves the automation alone between event `i` and event `j`. */
  ghost predicate InOrder(offset: int, worlds: seq<World>, events: seq<Event>, id: nat, i: nat, j: nat)
    requires i < j <= |events| < |worlds| && events[i].Claim?
  {
    forall k | i < k < j ::
      && EndsAfter(offset, worlds[k], events[k], id, events[i].now)
      && (Claims(events[k], id) ==> events[i].now <= events[k].now)
  }

  lemma JustClaimed(offset: int, w: World, e: Event, id: nat)
    requires Possible(offset, w, e) && Claims(e, id)
    ensures Since(Step(offset, w, e), id, e.now, offset, false)
  {
    hide Taken, Due;
    var i :| 0 <= i < |e.ids| && e.ids[i] == id;
    assert id in Ids(e.ids);
  }

  lemma {:induction false} SinceTheClaim(offset: int, worlds: seq<World>, events: seq<Event>, id: nat, i: nat, j: nat)
    requires History(offset, worlds, events) && Empty(worlds[0])
    requires i < j <= |events| && Claims(events[i], id) && InOrder(offset, worlds, events, id, i, j)
    ensures Since(worlds[j], id, events[i].now, offset, RecordedBetween(worlds, events, id, i + 1, j))
    ensures worlds[j].board.automations[id].schedule == worlds[i + 1].board.automations[id].schedule
    decreases j
  {
    hide Step, Possible, Numbered, Scheduled, Since, Records, EndsAfter;
    var start := events[i].now;
    if j == i + 1 {
      JustClaimed(offset, worlds[i], events[i], id);
      SinceHasRow(worlds[j], id, start, offset, false);
    } else {
      var k := j - 1;
      SinceTheClaim(offset, worlds, events, id, i, k);
      SoundAt(offset, worlds, events, id, k);
      var recorded := RecordedBetween(worlds, events, id, i + 1, k);
      SinceHasRow(worlds[k], id, start, offset, recorded);
      StepKeepsSchedule(offset, worlds[k], events[k], id);
      if Records(worlds[k], events[k], id) {
        RecordKeepsSince(offset, worlds[k], events[k], id, start);
      } else {
        OthersKeepSince(offset, worlds[k], events[k], id, start, recorded);
        assert recorded == RecordedBetween(worlds, events, id, i + 1, j);
      }
    }
  }

  lemma SinceHasRow(w: World, id: nat, start: int, offset: int, recorded: bool)
    requires Since(w, id, start, offset, recorded)
    ensures id in w.board.automations
  {
  }

  lemma SoundAt(offset: int, worlds: seq<World>, events: seq<Event>, id: nat, k: nat)
    requires History(offset, worlds, events) && Empty(worlds[0]) && k <= |events|
    ensures Numbered(worlds[k]) && Scheduled(worlds[k], id)
  {
    hide Step, Possible, Numbered, Scheduled;
    AlwaysScheduled(offset, worlds[..k + 1], events[..k], id);
  }

  /**
   Two claims of an automation that its owner leaves alone are more than a quarter
   of an hour apart, or its schedule comes round between them; it does come round
   whenever a run of it is recorded between them.
   */
  lemma ClaimsComeRound(offset: int, worlds: seq<World>, events: seq<Event>, id: nat, i: nat, j: nat)
    requires History(offset, worlds, events) && Empty(worlds[0])
    requires i < j < |events| && Claims(events[i], id) && Claims(events[j], id)
    requires InOrder(offset, worlds, events, id, i, j) && events[i].now <= events[j].now
    ensures id in worlds[j].board.automations
    ensures var schedule := worlds[j].board.automations[id].schedule;
            if RecordedBetween(worlds, events, id, i + 1, j)
            then CameRound(schedule, events[i].now, events[j].now, offset)
            else events[j].now > events[i].now + LOCK
  {
    hide Step, Possible, Numbered, Scheduled, Since, RecordedBetween;
    SinceTheClaim(offset, worlds, events, id, i, j);
    SoundAt(offset, worlds, events, id, j);
    var recorded := RecordedBetween(worlds, events, id, i + 1, j);
    SinceHasRow(worlds[j], id, events[i].now, offset, recorded);
    assert !Records(worlds[j], events[j], id);
    OthersKeepSince(offset, worlds[j], events[j], id, events[i].now, recorded);
  }

  predicate Abandons(w: World, e: Event, id: nat) {
    e.Abandon? && e.claim in w.held && w.held[e.claim].id == id
  }

  lemma StepKeepsRunUnderWay(offset: int, w: World, e: Event, id: nat, c: nat)
    requires Numbered(w) && Possible(offset, w, e) && c in Running(w, id)
    requires !Records(w, e, id) && !Abandons(w, e, id)
    ensures c in Running(Step(offset, w, e), id)
  {
    hide NextRun, Succeeds, ShouldNotify, Body, Ends, Taken, Due;
    if e.Claim? {
      var d := RunningAfterClaim(offset, w, e.ids, e.now, id);
    }
  }

  lemma {:induction false} UnderWayOrRecorded(offset: int, worlds: seq<World>, events: seq<Event>, id: nat, i: nat,
      j: nat)
    requires History(offset, worlds, events) && Empty(worlds[0]) && i < j <= |events| && Claims(events[i], id)
    requires forall k | i < k < j :: !Abandons(worlds[k], events[k], id)
    ensures RecordedBetween(worlds, events, id, i + 1, j) || Running(worlds[j], id) != {}
    decreases j
  {
    hide Step, Possible, Numbered, Scheduled, Records, Abandons, Running;
    if j == i + 1 {
      SoundAt(offset, worlds, events, id, i);
      var c := RunningAfterClaim(offset, worlds[i], events[i].ids, events[i].now, id);
      assert c in Running(worlds[j], id);
    } else {
      var k := j - 1;
      UnderWayOrRecorded(offset, worlds, events, id, i, k);
      SoundAt(offset, worlds, events, id, k);
      if !RecordedBetween(worlds, events, id, i + 1, j) {
        assert !Records(worlds[k], events[k], id);
        var c :| c in Running(worlds[k], id);
        StepKeepsRunUnderWay(offset, worlds[k], events[k], id, c);
      }
    }
  }

  /** Runs that do not overlap and are not abandoned keep their schedule: between two claims it comes
      round, so an interval of m minutes lies between them. */
  lemma RunsAloneComeRound(offset: int, worlds: seq<World>, events: seq<Event>, id: nat, i: nat, j: nat)
    requires History(offset, worlds, events) && Empty(worlds[0]) && Alone(worlds, events, id)
    requires i < j < |events| && Claims(events[i], id) && Claims(events[j], id)
    requires InOrder(offset, worlds, events, id, i, j) && events[i].now <= events[j].now
    requires forall k | i < k < j :: !Abandons(worlds[k], events[k], id)
    ensures id in worlds[j].board.automations
    ensures var schedule := worlds[j].board.automations[id].schedule;
            && CameRound(schedule, events[i].now, events[j].now, offset)
            && (schedule.Interval? ==> events[j].now >= events[i].now + schedule.minutes * MINUTE)
  {
    hide History, InOrder, RecordedBetween, Abandons, Running;
    UnderWayOrRecorded(offset, worlds, events, id, i, j);
    ClaimsComeRound(offset, worlds, events, id, i, j);
  }

  function Every(minutes: int): Automation {
    QuarterHourly().(schedule := Interval(minutes))
  }

  /** A run that outlives its lock is claimed again a quarter of an hour after its claim, however long
      the interval. */
  lemma LongRunsComeEarly(minutes: int) returns (worlds: seq<World>, events: seq<Event>)
    requires 15 <= minutes <= 10_080
    ensures History(0, worlds, events) && Empty(worlds[0])
    ensures events == [
              Creates(0, Every(minutes), 0), Claim([0], minutes * MINUTE), Claim([0], minutes * MINUTE + LOCK + 1)]
    ensures worlds[2].board.automations.Keys == {0} && worlds[2].board.automations[0].schedule == Interval(minutes)
  {
    hide Possible, Step, Body, Strip, Ends;
    var w0, w1 := EveryCreated(minutes);
    var w2 := Claimed(w1, minutes * MINUTE, 0);
    var w3 := Claimed(w2, minutes * MINUTE + LOCK + 1, 1);
    SameRows(w1, minutes * MINUTE);
    worlds := [w0, w1, w2, w3];
    events := [Creates(0, Every(minutes), 0), Claim([0], minutes * MINUTE), Claim([0], minutes * MINUTE + LOCK + 1)];
  }

  lemma SameRows(w: World, now: int)
    requires Possible(0, w, Claim([0], now))
    ensures Step(0, w, Claim([0], now)).board.automations.Keys == w.board.automations.Keys
  {
  }

  lemma EveryCreated(minutes: int) returns (w: World, next: World)
    requires 15 <= minutes <= 10_080
    ensures var e := Creates(0, Every(minutes), 0); Empty(w) && Possible(0, w, e) && next == Step(0, w, e)
    ensures Numbered(next) && next.claims == [] && next.board.automations.Keys == {0}
    ensures next.board.automations[0] == Every(minutes).(nextRun := minutes * MINUTE)
  {
    w := World(Board(map[], [], []), map[], [], []);
    next := Step(0, w, Creates(0, Every(minutes), 0));
  }

  // ---------------------------------------------------------------------
  // What notifications say
  // ---------------------------------------------------------------------

  /** Notifications go to the owner of their automation under its title, and copies know both. */
  ghost predicate Addressed(w: World) {
    && (forall i | 0 <= i < |w.board.notices| ::
          && w.board.notices[i].automation in w.board.automations
          && var a := w.board.automations[w.board.notices[i].automation];
             w.board.notices[i].username == a.username && w.board.notices[i].title == a.title)
    && (forall c | c in w.held ::
          && w.held[c].id in w.board.automations
          && var a := w.board.automations[w.held[c].id];
             w.held[c].row.username == a.username && w.held[c].row.title == a.title)
  }

  lemma StepKeepsAddresses(offset: int, w: World, e: Event)
    requires Numbered(w) && Addressed(w) && Possible(offset, w, e)
    ensures Addressed(Step(offset, w, e))
  {
    hide Due, Taken;
    if e.Claim? {
      HeldAfterClaim(offset, w, e.ids, e.now);
    } else {
      OthersKeepAddresses(offset, w, e);
    }
  }

  lemma OthersKeepAddresses(offset: int, w: World, e: Event)
    requires Addressed(w) && Possible(offset, w, e) && !e.Claim?
    ensures Addressed(Step(offset, w, e))
  {
    hide NextRun, Succeeds, ShouldNotify, Body, Ends;
  }

  /** In every history each notification goes to the owner of its automation, under its title. */
  lemma {:induction false} NoticesAreAddressed(offset: int, worlds: seq<World>, events: seq<Event>)
    requires History(offset, worlds, events) && Empty(worlds[0])
    ensures Numbered(worlds[|events|]) && Addressed(worlds[|events|])
  {
    hide Step, Numbered, Possible, Addressed;
    if events == [] {
      NobodyAddressed(worlds[0]);
    } else {
      var n := |events| - 1;
      NoticesAreAddressed(offset, worlds[..n + 1], events[..n]);
      assert worlds[..n + 1][n] == worlds[n];
      StepKeepsNumbers(offset, worlds[n], events[n]);
      StepKeepsAddresses(offset, worlds[n], events[n]);
    }
  }

  lemma NobodyAddressed(w: World)
    requires Empty(w)
    ensures Numbered(w) && Addressed(w)
  {
  }

  /** A text without white space at its ends. */
  predicate Trimmed(s: string) {
    s != "" && !Whitespace(s[0]) && !Whitespace(s[|s| - 1])
  }

  /** A notification holds the answer of the report, after the reason when there is a condition. */
  lemma NoticeTellsTheAnswer(t: Automation, o: Outcome)
    requires Decided(t, o).Some? && Trimmed(o.answer.value)
    requires Conditional(t) ==> Trimmed(o.decision.value.reason)
    requires |o.answer.value| + (if Conditional(t) then |o.decision.value.reason| + 2 else 0) <= 12_000
    ensures Body(t, o) == (if Conditional(t) then o.decision.value.reason + "\n\n" else "") + o.answer.value
  {
    hide Whitespace;
    var text := Decided(t, o).value.reason + "\n\n" + o.answer.value;
    assert Conditional(t) ==> text[0] == o.decision.value.reason[0];
    assert text[|text| - 1] == o.answer.value[|o.answer.value| - 1];
    assert "" + o.answer.value == o.answer.value;
  }
}
