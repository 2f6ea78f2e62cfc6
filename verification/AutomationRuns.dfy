/**
 Histories of claims and runs by any number of schedulers: exactly when alerts
 fire as a condition turns true, what becomes of every claim, and why runs that
 keep within their lock do not overlap.
 */
module AutomationRuns {
  import opened Prelude
  import opened Automation

  // ---------------------------------------------------------------------
  // Histories
  // ---------------------------------------------------------------------

  /** A row in the hands of a scheduler, as it was when it was claimed. */
  datatype Held = Held(id: nat, row: Automation, at: int)

  /** `claims` lists every claim so far, `dropped` the automations of those that ended without a
      record, and `held` the runs under way by the number of their claim: one automation may be
      running several times. */
  datatype World = World(board: Board, held: map<nat, Held>, claims: seq<nat>, dropped: seq<nat>)

  datatype Event =
    | Claim(ids: seq<nat>, now: int)
    | Finish(claim: nat, outcome: Outcome)
    | Abandon(claim: nat)
    | Creates(id: nat, automation: Automation, now: int)
    | Switches(id: nat, username: string, active: bool, now: int)
    | Deletes(id: nat, username: string)

  /** A claim takes different due rows; a run finishes, or is abandoned with its pass, that is under
      way; new rows are new. */
  ghost predicate Possible(offset: int, w: World, e: Event) {
    match e
    case Claim(ids, now) =>
      && (forall i | 0 <= i < |ids| :: ids[i] in w.board.automations && Due(w.board.automations[ids[i]], now))
      && (forall i, j | 0 <= i < j < |ids| :: ids[i] != ids[j])
    case Finish(claim, o) =>
      claim in w.held && w.held[claim].id in w.board.automations && Ends(w.held[claim].row, o, offset)
    case Abandon(claim) => claim in w.held
    case Creates(id, _, _) => id !in w.board.automations
    case _ => true
  }

  function Taken(b: Board, ids: seq<nat>, first: nat, now: int): map<nat, Held>
    requires forall i | 0 <= i < |ids| :: ids[i] in b.automations
  {
    if ids == [] then map[]
    else
      var n := |ids| - 1;
      Taken(b, ids[..n], first, now)[first + n := Held(ids[n], b.automations[ids[n]], now)]
  }

  lemma {:induction false} TakenRow(b: Board, ids: seq<nat>, first: nat, now: int, c: nat)
    requires forall i | 0 <= i < |ids| :: ids[i] in b.automations
    ensures var t := Taken(b, ids, first, now);
            if first <= c < first + |ids|
            then c in t && t[c] == Held(ids[c - first], b.automations[ids[c - first]], now)
            else c !in t
  {
    if ids != [] {
      TakenRow(b, ids[..|ids| - 1], first, now, c);
    }
  }

  function OrSame(b: Board, next: Option<Board>): Board {
    match next case Some(n) => n case None => b
  }

  ghost function Step(offset: int, w: World, e: Event): World
    requires Possible(offset, w, e)
  {
    match e
    case Claim(ids, now) =>
      World(Locked(w.board, Ids(ids), now), w.held + Taken(w.board, ids, |w.claims|, now), w.claims + ids, w.dropped)
    case Finish(claim, o) =>
      w.(board := Finished(w.board, w.held[claim].id, w.held[claim].row, o, offset), held := w.held - {claim})
    case Abandon(claim) => w.(held := w.held - {claim}, dropped := w.dropped + [w.held[claim].id])
    case Creates(id, a, now) => w.(board := OrSame(w.board, Create(w.board, id, a, now, offset)))
    case Switches(id, username, active, now) =>
      w.(board := OrSame(w.board, SetActive(w.board, id, username, active, now, offset)))
    case Deletes(id, username) => w.(board := OrSame(w.board, Delete(w.board, id, username)))
  }

  /** The worlds of a history, one before each event and one at the end. */
  ghost predicate History(offset: int, worlds: seq<World>, events: seq<Event>) {
    && |worlds| == |events| + 1
    && forall i | 0 <= i < |events| ::
         Possible(offset, worlds[i], events[i]) && worlds[i + 1] == Step(offset, worlds[i], events[i])
  }

  /** The runs of an automation that are under way. */
  function Running(w: World, id: nat): set<nat> {
    set c | c in w.held && w.held[c].id == id
  }

  /** The runs of one automation do not overlap: it is not claimed while it is running. */
  ghost predicate Alone(worlds: seq<World>, events: seq<Event>, id: nat)
    requires |worlds| == |events| + 1
  {
    forall i | 0 <= i < |events| && events[i].Claim? && id in events[i].ids :: Running(worlds[i], id) == {}
  }

  /** Claims are numbered, and runs under way are claims of rows that are there. */
  ghost predicate Numbered(w: World) {
    forall c | c in w.held :: c < |w.claims| && w.held[c].id == w.claims[c] && w.held[c].id in w.board.automations
  }

  lemma HeldAfterClaim(offset: int, w: World, ids: seq<nat>, now: int)
    requires Numbered(w) && Possible(offset, w, Claim(ids, now))
    ensures var next, first := Step(offset, w, Claim(ids, now)), |w.claims|;
            && (forall c | c in w.held :: c < first && c in next.held && next.held[c] == w.held[c])
            && (forall c | first <= c < first + |ids| ::
                  c in next.held && next.held[c] == Held(ids[c - first], w.board.automations[ids[c - first]], now))
            && (forall c | c in next.held ::
                  c in w.held || (first <= c < first + |ids| && next.held[c].id == ids[c - first]))
  {
    hide Due, Taken;
    forall c: nat {
      TakenRow(w.board, ids, |w.claims|, now, c);
    }
  }

  lemma StepKeepsNumbers(offset: int, w: World, e: Event)
    requires Numbered(w) && Possible(offset, w, e)
    ensures Numbered(Step(offset, w, e))
  {
    hide Numbered, Step;
    if e.Claim? {
      ClaimKeepsNumbers(offset, w, e.ids, e.now);
    } else {
      OthersKeepNumbers(offset, w, e);
    }
  }

  lemma ClaimKeepsNumbers(offset: int, w: World, ids: seq<nat>, now: int)
    requires Numbered(w) && Possible(offset, w, Claim(ids, now))
    ensures Numbered(Step(offset, w, Claim(ids, now)))
  {
    hide Due, Taken;
    HeldAfterClaim(offset, w, ids, now);
  }

  lemma OthersKeepNumbers(offset: int, w: World, e: Event)
    requires Numbered(w) && Possible(offset, w, e) && !e.Claim?
    ensures Numbered(Step(offset, w, e))
  {
    hide NextRun, Recorded, Succeeds, ShouldNotify, Body, Ends;
  }

  /** The runs under way after a claim: those from before and one for each row of the batch. */
  lemma RunningAfterClaim(offset: int, w: World, ids: seq<nat>, now: int, id: nat) returns (c: nat)
    requires Numbered(w) && Possible(offset, w, Claim(ids, now))
    ensures var next := Step(offset, w, Claim(ids, now));
            if id in ids
            then c !in w.held && Running(next, id) == Running(w, id) + {c}
              && next.held[c] == Held(id, w.board.automations[id], now)
            else Running(next, id) == Running(w, id)
    ensures var next := Step(offset, w, Claim(ids, now));
            forall d | d in w.held :: d in next.held && next.held[d] == w.held[d]
  {
    hide Step, Due;
    HeldAfterClaim(offset, w, ids, now);
    var next, first := Step(offset, w, Claim(ids, now)), |w.claims|;
    var i := 0;
    if id in ids {
      i :| 0 <= i < |ids| && ids[i] == id;
    }
    c := first + i;
    forall d | d in next.held && d !in w.held && next.held[d].id == id ensures id in ids && d == c {
      assert ids[d - first] == id;
    }
    assert id in ids ==> Running(next, id) == Running(w, id) + {c};
  }

  ghost predicate Empty(w: World) {
    w == World(Board(map[], [], []), map[], [], [])
  }

  // ---------------------------------------------------------------------
  // Alerts
  // ---------------------------------------------------------------------

  /** The decisions of the successful runs of an automation, in order. */
  function Decisions(runs: seq<RunRecord>, id: nat): seq<bool> {
    if runs == [] then []
    else
      var last := runs[|runs| - 1];
      Decisions(runs[..|runs| - 1], id)
      + if last.automation == id && last.triggered.Some? then [last.triggered.value] else []
  }

  /** How often a decision is true and the one before it was not. */
  function RisingEdges(decisions: seq<bool>): nat {
    if decisions == [] then 0
    else
      var n := |decisions| - 1;
      RisingEdges(decisions[..n]) + if decisions[n] && (n == 0 || !decisions[n - 1]) then 1 else 0
  }

  function NoticesOf(notices: seq<Notice>, id: nat): nat {
    if notices == [] then 0
    else NoticesOf(notices[..|notices| - 1], id) + if notices[|notices| - 1].automation == id then 1 else 0
  }

  function LastOf(decisions: seq<bool>): Option<bool> {
    if decisions == [] then None else Some(decisions[|decisions| - 1])
  }

  /** What the owner should have been told: every turn of a condition, or every success without one. */
  ghost function Expected(w: World, id: nat): nat {
    if id !in w.board.automations then 0
    else
      var decisions := Decisions(w.board.runs, id);
      if Conditional(w.board.automations[id]) then RisingEdges(decisions) else |decisions|
  }

  ghost predicate Matching(w: World, id: nat) {
    NoticesOf(w.board.notices, id) == Expected(w, id)
  }

  /** The row remembers its last successful decision, and copies have the condition of their row. */
  ghost predicate Remembered(w: World, id: nat) {
    var decisions := Decisions(w.board.runs, id);
    if id !in w.board.automations then decisions == [] && NoticesOf(w.board.notices, id) == 0
    else
      var a := w.board.automations[id];
      && a.lastTriggered == LastOf(decisions)
      && (forall c | c in Running(w, id) :: w.held[c].row.condition == a.condition)
  }

  /** A run succeeds that finds the condition of its automation true. */
  ghost predicate FindsTrue(offset: int, w: World, e: Event, id: nat) {
    && e.Finish? && e.claim in w.held && w.held[e.claim].id == id && id in w.board.automations
    && var t, o := w.held[e.claim].row, e.outcome;
       Conditional(t) && Succeeds(t, o, offset) && Decided(t, o).value.triggered
  }

  /** What the run compares with, and what it should compare with: whether the condition was true
      when the row was copied, and whether it is by now. */
  predicate WasTrue(w: World, claim: nat)
    requires claim in w.held
  {
    w.held[claim].row.lastTriggered == Some(true)
  }

  predicate IsTrue(w: World, id: nat)
    requires id in w.board.automations
  {
    w.board.automations[id].lastTriggered == Some(true)
  }

  /** A second alert for one turn of the condition. */
  ghost predicate Repeats(offset: int, w: World, e: Event, id: nat) {
    FindsTrue(offset, w, e, id) && !WasTrue(w, e.claim) && IsTrue(w, id)
  }

  /** A turn of the condition without an alert. */
  ghost predicate Misses(offset: int, w: World, e: Event, id: nat) {
    FindsTrue(offset, w, e, id) && WasTrue(w, e.claim) && !IsTrue(w, id)
  }

  /** A run that finds its condition true agrees with its row about whether it was true before. */
  ghost predicate Current(offset: int, w: World, e: Event, id: nat) {
    FindsTrue(offset, w, e, id) ==> (WasTrue(w, e.claim) <==> IsTrue(w, id))
  }

  ghost function Repeated(offset: int, worlds: seq<World>, events: seq<Event>, id: nat): nat
    requires |worlds| >= |events|
  {
    if events == [] then 0
    else
      var n := |events| - 1;
      Repeated(offset, worlds, events[..n], id) + One(Repeats(offset, worlds[n], events[n], id))
  }

  ghost function Missed(offset: int, worlds: seq<World>, events: seq<Event>, id: nat): nat
    requires |worlds| >= |events|
  {
    if events == [] then 0
    else
      var n := |events| - 1;
      Missed(offset, worlds, events[..n], id) + One(Misses(offset, worlds[n], events[n], id))
  }

  lemma OneMoreDecision(decisions: seq<bool>, d: bool)
    ensures RisingEdges(decisions + [d]) == RisingEdges(decisions) + One(d && LastOf(decisions) != Some(true))
    ensures LastOf(decisions + [d]) == Some(d)
  {
    assert (decisions + [d])[..|decisions|] == decisions;
  }

  lemma OneMoreRun(runs: seq<RunRecord>, r: RunRecord, id: nat)
    ensures Decisions(runs + [r], id)
            == Decisions(runs, id) + if r.automation == id && r.triggered.Some? then [r.triggered.value] else []
  {
    assert (runs + [r])[..|runs|] == runs;
  }

  lemma OneMoreNotice(notices: seq<Notice>, n: Notice, id: nat)
    ensures NoticesOf(notices + [n], id) == NoticesOf(notices, id) + One(n.automation == id)
  {
    assert (notices + [n])[..|notices|] == notices;
  }

  /** What the end of a run adds to the decisions and notices of an automation. */
  lemma FinishTells(offset: int, w: World, claim: nat, o: Outcome, id: nat)
    requires Possible(offset, w, Finish(claim, o))
    ensures var next, t := Step(offset, w, Finish(claim, o)), w.held[claim].row;
            var told := w.held[claim].id == id && Succeeds(t, o, offset);
            && Decisions(next.board.runs, id)
               == Decisions(w.board.runs, id) + (if told then [Decided(t, o).value.triggered] else [])
            && NoticesOf(next.board.notices, id) == NoticesOf(w.board.notices, id) + One(told && ShouldNotify(t, o))
  {
    hide Decisions, NoticesOf, RisingEdges, NextRun, Body, Conditional, Recorded, Ends;
    var done, t := w.held[claim].id, w.held[claim].row;
    var next := Step(offset, w, Finish(claim, o));
    OneMoreRun(w.board.runs, next.board.runs[|w.board.runs|], id);
    if Succeeds(t, o, offset) {
      OneMoreNotice(w.board.notices, Notice(done, t.username, t.title, Body(t, o)), id);
    }
  }

  /** A step keeps what rows remember, and moves notices and expectation together unless it repeats
      or misses an alert. */
  ghost predicate Tells(offset: int, w: World, e: Event, id: nat)
    requires Possible(offset, w, e)
  {
    var next := Step(offset, w, e);
    && Remembered(next, id)
    && NoticesOf(next.board.notices, id) + Expected(w, id) + One(Misses(offset, w, e, id))
       == NoticesOf(w.board.notices, id) + Expected(next, id) + One(Repeats(offset, w, e, id))
  }

  lemma FinishIsTold(offset: int, w: World, claim: nat, o: Outcome, id: nat)
    requires Numbered(w) && Remembered(w, id) && Possible(offset, w, Finish(claim, o))
    ensures Tells(offset, w, Finish(claim, o), id)
  {
    hide Decisions, NoticesOf, RisingEdges, Strip, NextRun, Body, Ends;
    var done, t := w.held[claim].id, w.held[claim].row;
    var next := Step(offset, w, Finish(claim, o));
    assert Running(next, id) == Running(w, id) - {claim};
    assert done == id ==> claim in Running(w, id);
    FinishTells(offset, w, claim, o, id);
    var decisions := Decisions(w.board.runs, id);
    assert decisions + [] == decisions;
    if done == id && Succeeds(t, o, offset) {
      OneMoreDecision(decisions, Decided(t, o).value.triggered);
    }
  }

  lemma ClaimIsTold(offset: int, w: World, ids: seq<nat>, now: int, id: nat)
    requires Numbered(w) && Remembered(w, id) && Possible(offset, w, Claim(ids, now))
    ensures Tells(offset, w, Claim(ids, now), id)
  {
    hide Decisions, NoticesOf, RisingEdges, Strip, Taken, Due;
    var c := RunningAfterClaim(offset, w, ids, now, id);
  }

  lemma OthersAreTold(offset: int, w: World, e: Event, id: nat)
    requires Numbered(w) && Remembered(w, id) && Possible(offset, w, e) && !e.Claim? && !e.Finish?
    ensures Tells(offset, w, e, id)
  {
    hide Decisions, NoticesOf, RisingEdges, Strip, NextRun;
    assert Running(Step(offset, w, e), id) <= Running(w, id);
    assert RisingEdges([]) == 0 by { NoEdges(); }
  }

  lemma NoEdges()
    ensures RisingEdges([]) == 0
  {
  }

  lemma StepTells(offset: int, w: World, e: Event, id: nat)
    requires Numbered(w) && Remembered(w, id) && Possible(offset, w, e)
    ensures Numbered(Step(offset, w, e)) && Tells(offset, w, e, id)
  {
    hide Numbered, Remembered, Possible, Step, Tells;
    StepKeepsNumbers(offset, w, e);
    match e
    case Claim(ids, now) => ClaimIsTold(offset, w, ids, now, id);
    case Finish(claim, o) => FinishIsTold(offset, w, claim, o, id);
    case _ => OthersAreTold(offset, w, e, id);
  }

  lemma EmptyIsSound(w: World, id: nat)
    requires Empty(w)
    ensures Numbered(w) && Remembered(w, id) && Matching(w, id)
  {
  }

  /** In every history the notifications of an automation are its turns, and the repeated alerts,
      but for the missed ones; without a condition they are its successes. */
  lemma {:induction false} AlertsCounted(offset: int, worlds: seq<World>, events: seq<Event>, id: nat)
    requires History(offset, worlds, events) && Empty(worlds[0])
    ensures var w := worlds[|events|];
            && Numbered(w) && Remembered(w, id)
            && NoticesOf(w.board.notices, id) + Missed(offset, worlds, events, id)
               == Expected(w, id) + Repeated(offset, worlds, events, id)
  {
    hide Numbered, Remembered, Possible, Step, Expected, Repeats, Misses, NoticesOf;
    if events == [] {
      EmptyIsSound(worlds[0], id);
    } else {
      var n := |events| - 1;
      AlertsCounted(offset, worlds[..n + 1], events[..n], id);
      assert worlds[..n + 1][n] == worlds[n];
      CountsLookBack(offset, worlds, worlds[..n + 1], events[..n], id);
      StepTells(offset, worlds[n], events[n], id);
    }
  }

  lemma {:induction false} CountsLookBack(offset: int, worlds: seq<World>, fewer: seq<World>,
      events: seq<Event>, id: nat)
    requires |events| <= |fewer| <= |worlds| && fewer == worlds[..|fewer|]
    ensures Repeated(offset, fewer, events, id) == Repeated(offset, worlds, events, id)
    ensures Missed(offset, fewer, events, id) == Missed(offset, worlds, events, id)
  {
    hide Repeats, Misses;
    if events != [] {
      CountsLookBack(offset, worlds, fewer, events[..|events| - 1], id);
    }
  }

  /** The owner has been told of every turn exactly once, at every moment of a history, exactly when
      every run that finds its condition true agrees with its row about the time before. */
  lemma {:induction false} AlertsMatchExactlyWhen(offset: int, worlds: seq<World>, events: seq<Event>, id: nat)
    requires History(offset, worlds, events) && Empty(worlds[0])
    ensures (forall n | 0 <= n <= |events| :: Matching(worlds[n], id))
            <==> (forall i | 0 <= i < |events| :: Current(offset, worlds[i], events[i], id))
  {
    hide Numbered, Remembered, Possible, Step, Expected, Repeats, Misses, NoticesOf, Current, Matching;
    if events == [] {
      EmptyIsSound(worlds[0], id);
    } else {
      var n := |events| - 1;
      var before, early := worlds[..n + 1], events[..n];
      AlertsMatchExactlyWhen(offset, before, early, id);
      assert forall i | 0 <= i <= n :: before[i] == worlds[i];
      assert forall i | 0 <= i < n :: early[i] == events[i];
      AlertsCounted(offset, before, early, id);
      StepTells(offset, worlds[n], events[n], id);
      if forall i | 0 <= i <= n :: Matching(before[i], id) {
        assert Matching(before[n], id);
        MatchingGoesOn(offset, worlds[n], events[n], id);
        assert worlds[n + 1] == Step(offset, worlds[n], events[n]);
        assert forall i | 0 <= i <= n :: Matching(worlds[i], id) by {
          assert forall i | 0 <= i <= n :: Matching(before[i], id) && before[i] == worlds[i];
        }
        assert forall i | 0 <= i < n :: Current(offset, worlds[i], events[i], id) by {
          assert forall i | 0 <= i < n :: Current(offset, before[i], early[i], id) && before[i] == worlds[i];
        }
      } else {
        var i :| 0 <= i <= n && !Matching(before[i], id);
        var j :| 0 <= j < n && !Current(offset, before[j], early[j], id);
        assert !Matching(worlds[i], id) && !Current(offset, worlds[j], events[j], id);
      }
    }
  }

  lemma MatchingGoesOn(offset: int, w: World, e: Event, id: nat)
    requires Possible(offset, w, e) && Tells(offset, w, e, id) && Matching(w, id)
    ensures Matching(Step(offset, w, e), id) <==> Current(offset, w, e, id)
  {
    hide Possible, Step, Expected, NoticesOf, Remembered, FindsTrue, WasTrue, IsTrue;
  }

  /** One run under way at most, and on a copy that is still good. */
  ghost predicate Fresh(w: World, id: nat) {
    && (forall c | c in Running(w, id) ::
          id in w.board.automations && w.held[c].row.lastTriggered == w.board.automations[id].lastTriggered)
    && (forall c, d | c in Running(w, id) && d in Running(w, id) :: c == d)
  }

  lemma StepKeepsFresh(offset: int, w: World, e: Event, id: nat)
    requires Numbered(w) && Fresh(w, id) && Possible(offset, w, e)
    requires e.Claim? && id in e.ids ==> Running(w, id) == {}
    ensures Fresh(Step(offset, w, e), id) && Current(offset, w, e, id)
  {
    hide NextRun, Strip, Body, Taken, Due, Ends;
    var next := Step(offset, w, e);
    match e
    case Claim(ids, now) =>
      var c := RunningAfterClaim(offset, w, ids, now, id);
    case Finish(claim, o) =>
      assert Running(next, id) == Running(w, id) - {claim};
      assert w.held[claim].id == id <==> claim in Running(w, id);
    case _ =>
      assert Running(next, id) <= Running(w, id);
  }

  lemma {:induction false} RunsAloneAreCurrent(offset: int, worlds: seq<World>, events: seq<Event>, id: nat)
    requires History(offset, worlds, events) && Empty(worlds[0]) && Alone(worlds, events, id)
    ensures Numbered(worlds[|events|]) && Fresh(worlds[|events|], id)
    ensures forall i | 0 <= i < |events| :: Current(offset, worlds[i], events[i], id)
  {
    hide Numbered, Fresh, Possible, Step, Current;
    if events == [] {
      NothingHeld(worlds[0], id);
    } else {
      var n := |events| - 1;
      RunsAloneAreCurrent(offset, worlds[..n + 1], events[..n], id);
      assert worlds[..n + 1][n] == worlds[n];
      StepKeepsNumbers(offset, worlds[n], events[n]);
      StepKeepsFresh(offset, worlds[n], events[n], id);
      forall i | 0 <= i < |events| ensures Current(offset, worlds[i], events[i], id) {
        if i < n {
          assert worlds[..n + 1][i] == worlds[i] && events[..n][i] == events[i];
        }
      }
    }
  }

  /** When the runs of an automation do not overlap, its owner got one notification for every
      successful true decision whose previous successful decision was not true; an automation
      without a condition notifies on every success. */
  lemma AlertsAreRisingEdges(offset: int, worlds: seq<World>, events: seq<Event>, id: nat)
    requires History(offset, worlds, events) && Empty(worlds[0]) && Alone(worlds, events, id)
    requires id in worlds[|events|].board.automations
    ensures var board := worlds[|events|].board;
            NoticesOf(board.notices, id)
            == if Conditional(board.automations[id]) then RisingEdges(Decisions(board.runs, id))
               else |Decisions(board.runs, id)|
  {
    hide Possible, Step, Current;
    RunsAloneAreCurrent(offset, worlds, events, id);
    AlertsMatchExactlyWhen(offset, worlds, events, id);
    assert Matching(worlds[|events|], id);
  }

  /** Two runs of one automation that both find its condition true, on copies from before it was,
      alert twice for what is one turn at most. */
  lemma OverlappingRunsAlertTwice(offset: int, w: World, c: nat, d: nat, o: Outcome, p: Outcome)
    requires c != d && c in w.held && d in w.held && w.held[c].id == w.held[d].id
    requires Possible(offset, w, Finish(c, o)) && Possible(offset, w, Finish(d, p))
    requires Conditional(w.held[c].row) && Succeeds(w.held[c].row, o, offset) && o.decision.value.triggered
    requires Conditional(w.held[d].row) && Succeeds(w.held[d].row, p, offset) && p.decision.value.triggered
    requires !WasTrue(w, c) && !WasTrue(w, d)
    ensures var id, first := w.held[c].id, Step(offset, w, Finish(c, o));
            && Possible(offset, first, Finish(d, p))
            && var last, decisions := Step(offset, first, Finish(d, p)), Decisions(w.board.runs, id);
               && NoticesOf(last.board.notices, id) == NoticesOf(w.board.notices, id) + 2
               && Decisions(last.board.runs, id) == decisions + [true, true]
               && RisingEdges(decisions + [true, true]) == RisingEdges(decisions) + One(LastOf(decisions) != Some(true))
  {
    hide Decisions, NoticesOf, RisingEdges, NextRun, Body, Conditional;
    var id := w.held[c].id;
    var first := Step(offset, w, Finish(c, o));
    var decisions := Decisions(w.board.runs, id);
    FinishTells(offset, w, c, o, id);
    FinishTells(offset, first, d, p, id);
    OneMoreDecision(decisions, true);
    OneMoreDecision(decisions + [true], true);
    assert decisions + [true] + [true] == decisions + [true, true];
  }

  /** When the first of two overlapping runs finds the condition false and the second finds it true
      again, on a copy from before, nobody hears of the turn. */
  lemma OverlappingRunsMissATurn(offset: int, w: World, c: nat, d: nat, o: Outcome, p: Outcome)
    requires c != d && c in w.held && d in w.held && w.held[c].id == w.held[d].id
    requires Possible(offset, w, Finish(c, o)) && Possible(offset, w, Finish(d, p))
    requires Conditional(w.held[c].row) && Succeeds(w.held[c].row, o, offset) && !o.decision.value.triggered
    requires Conditional(w.held[d].row) && Succeeds(w.held[d].row, p, offset) && p.decision.value.triggered
    requires WasTrue(w, d)
    ensures var id, first := w.held[c].id, Step(offset, w, Finish(c, o));
            && Possible(offset, first, Finish(d, p))
            && var last, decisions := Step(offset, first, Finish(d, p)), Decisions(w.board.runs, id);
               && NoticesOf(last.board.notices, id) == NoticesOf(w.board.notices, id)
               && Decisions(last.board.runs, id) == decisions + [false, true]
               && RisingEdges(decisions + [false, true]) == RisingEdges(decisions) + 1
  {
    hide Decisions, NoticesOf, RisingEdges, NextRun, Body, Conditional;
    var id := w.held[c].id;
    var first := Step(offset, w, Finish(c, o));
    var decisions := Decisions(w.board.runs, id);
    FinishTells(offset, w, c, o, id);
    FinishTells(offset, first, d, p, id);
    OneMoreDecision(decisions, false);
    OneMoreDecision(decisions + [false], true);
    assert decisions + [false] + [true] == decisions + [false, true];
  }

  /** A successful run of a condition that ends at the given instant. */
  function Answers(triggered: bool, at: int): Outcome {
    Outcome(Some("answer"), Some(Decision(triggered, "")), Committed, true, at, at, at)
  }

  function QuarterHourly(): Automation {
    Automation("u", "t", "stock is low", Interval(15), true, false, 0, None, None, None, None)
  }

  lemma QuarterHourlyRuns(a: Automation, triggered: bool, at: int)
    requires a.condition == "stock is low" && a.schedule == Interval(15)
    ensures Conditional(a)
    ensures Decided(a, Answers(triggered, at)) == Some(Decision(triggered, ""))
    ensures Succeeds(a, Answers(triggered, at), 0) && Ends(a, Answers(triggered, at), 0)
    ensures NextRun(a.schedule, at, 0, false) == Some(at + 15 * MINUTE)
  {
    assert Strip("stock is low") == "stock is low";
  }

  /** The row of an automation with one run under way, claimed when it was due. */
  lemma Claimed(w: World, now: int, c: nat) returns (next: World)
    requires Numbered(w) && 0 in w.board.automations && Due(w.board.automations[0], now) && c == |w.claims|
    ensures Possible(0, w, Claim([0], now)) && next == Step(0, w, Claim([0], now)) && Numbered(next)
    ensures 0 in next.board.automations && |next.claims| == c + 1
    ensures next.board == w.board.(automations := next.board.automations)
    ensures next.board.automations[0] == w.board.automations[0].(lockedUntil := Some(now + LOCK))
    ensures c in next.held && next.held[c] == Held(0, w.board.automations[0], now)
    ensures forall d | d in w.held :: d in next.held && next.held[d] == w.held[d]
  {
    hide Due, Taken;
    StepKeepsNumbers(0, w, Claim([0], now));
    next := Step(0, w, Claim([0], now));
    HeldAfterClaim(0, w, [0], now);
    assert [0][0] in Ids([0]);
  }

  /** An automation created at midnight, claimed when it is due and once more after its lock, while
      its first run is still under way: both runs find the condition true. */
  lemma TwoAlertsForOneTurn() returns (worlds: seq<World>, events: seq<Event>)
    ensures History(0, worlds, events) && Empty(worlds[0])
    ensures events == [
              Creates(0, QuarterHourly(), 0), Claim([0], 15 * MINUTE), Claim([0], 31 * MINUTE),
              Finish(0, Answers(true, 32 * MINUTE)), Finish(1, Answers(true, 33 * MINUTE))]
    ensures NoticesOf(worlds[5].board.notices, 0) == 2 && RisingEdges(Decisions(worlds[5].board.runs, 0)) == 1
  {
    hide Possible, Step, Body, Strip, Ends;
    var a, o, p := QuarterHourly(), Answers(true, 32 * MINUTE), Answers(true, 33 * MINUTE);
    var w0, w1 := FirstCreated();
    var w2 := Claimed(w1, 15 * MINUTE, 0);
    var w3 := Claimed(w2, 31 * MINUTE, 1);
    QuarterHourlyRuns(w3.held[0].row, true, 32 * MINUTE);
    QuarterHourlyRuns(w3.held[1].row, true, 33 * MINUTE);
    CanFinish(w3, 0, o);
    CanFinish(w3, 1, p);
    OverlappingRunsAlertTwice(0, w3, 0, 1, o, p);
    var w4 := Step(0, w3, Finish(0, o));
    worlds := [w0, w1, w2, w3, w4, Step(0, w4, Finish(1, p))];
    events := [Creates(0, a, 0), Claim([0], 15 * MINUTE), Claim([0], 31 * MINUTE), Finish(0, o), Finish(1, p)];
  }

  lemma CanFinish(w: World, claim: nat, o: Outcome)
    requires claim in w.held && w.held[claim].id in w.board.automations && Ends(w.held[claim].row, o, 0)
    ensures Possible(0, w, Finish(claim, o))
  {
  }

  lemma FirstCreated() returns (w: World, next: World)
    ensures Empty(w) && Possible(0, w, Creates(0, QuarterHourly(), 0))
    ensures next == Step(0, w, Creates(0, QuarterHourly(), 0))
    ensures Numbered(next) && next.claims == []
    ensures next.held == map[] && next.board.runs == [] && next.board.notices == []
    ensures next.board.automations == map[0 := QuarterHourly().(nextRun := 15 * MINUTE)]
  {
    w := World(Board(map[], [], []), map[], [], []);
    next := Step(0, w, Creates(0, QuarterHourly(), 0));
  }

  /** A run that finds the condition true is followed by two that overlap: the first finds it false,
      the second true again. */
  lemma OneAlertForTwoTurns() returns (worlds: seq<World>, events: seq<Event>)
    ensures History(0, worlds, events) && Empty(worlds[0])
    ensures events == [
              Creates(0, QuarterHourly(), 0), Claim([0], 15 * MINUTE), Finish(0, Answers(true, 16 * MINUTE)),
              Claim([0], 31 * MINUTE), Claim([0], 47 * MINUTE),
              Finish(1, Answers(false, 48 * MINUTE)), Finish(2, Answers(true, 49 * MINUTE))]
    ensures NoticesOf(worlds[7].board.notices, 0) == 1 && RisingEdges(Decisions(worlds[7].board.runs, 0)) == 2
  {
    hide Possible, Step, Body, Strip, Ends;
    var a, o := QuarterHourly(), Answers(true, 16 * MINUTE);
    var p, q := Answers(false, 48 * MINUTE), Answers(true, 49 * MINUTE);
    var w0, w1 := FirstCreated();
    var w2 := Claimed(w1, 15 * MINUTE, 0);
    var w3 := FirstFinished(w2);
    var w4 := Claimed(w3, 31 * MINUTE, 1);
    var w5 := Claimed(w4, 47 * MINUTE, 2);
    QuarterHourlyRuns(w5.held[1].row, false, 48 * MINUTE);
    QuarterHourlyRuns(w5.held[2].row, true, 49 * MINUTE);
    CanFinish(w5, 1, p);
    CanFinish(w5, 2, q);
    OverlappingRunsMissATurn(0, w5, 1, 2, p, q);
    var w6 := Step(0, w5, Finish(1, p));
    worlds := [w0, w1, w2, w3, w4, w5, w6, Step(0, w6, Finish(2, q))];
    events := [Creates(0, a, 0), Claim([0], 15 * MINUTE), Finish(0, o), Claim([0], 31 * MINUTE),
               Claim([0], 47 * MINUTE), Finish(1, p), Finish(2, q)];
  }

  /** The first run of the automation, which turns its condition true. */
  lemma FirstFinished(w: World) returns (next: World)
    requires 0 in w.held && Numbered(w) && w.held[0].id == 0 && !WasTrue(w, 0)
    requires w.held[0].row.condition == "stock is low" && w.held[0].row.schedule == Interval(15)
    requires w.board.runs == [] && w.board.notices == []
    ensures var o := Answers(true, 16 * MINUTE);
            Possible(0, w, Finish(0, o)) && next == Step(0, w, Finish(0, o)) && Numbered(next)
    ensures next.claims == w.claims && 0 in next.board.automations
    ensures next.board.automations[0] == w.board.automations[0].(
              nextRun := 31 * MINUTE, lastRun := Some(16 * MINUTE), lastSucceeded := Some(true),
              lastTriggered := Some(true), lockedUntil := None)
    ensures NoticesOf(next.board.notices, 0) == 1 && Decisions(next.board.runs, 0) == [true]
    ensures RisingEdges([true]) == 1
  {
    hide Body, Strip;
    var o := Answers(true, 16 * MINUTE);
    QuarterHourlyRuns(w.held[0].row, true, 16 * MINUTE);
    FinishTells(0, w, 0, o, 0);
    StepKeepsNumbers(0, w, Finish(0, o));
    next := Step(0, w, Finish(0, o));
  }

  // ---------------------------------------------------------------------
  // One record for each claim
  // ---------------------------------------------------------------------

  function RunsOf(runs: seq<RunRecord>, id: nat): nat {
    if runs == [] then 0
    else RunsOf(runs[..|runs| - 1], id) + if runs[|runs| - 1].automation == id then 1 else 0
  }

  ghost predicate Accounted(w: World, id: nat) {
    multiset(w.claims)[id] == RunsOf(w.board.runs, id) + |Running(w, id)| + multiset(w.dropped)[id]
  }

  lemma OneMoreRecord(runs: seq<RunRecord>, r: RunRecord, id: nat)
    ensures RunsOf(runs + [r], id) == RunsOf(runs, id) + One(r.automation == id)
  {
    assert (runs + [r])[..|runs|] == runs;
  }

  lemma {:induction false} CountInDistinct(ids: seq<nat>, id: nat)
    requires forall i, j | 0 <= i < j < |ids| :: ids[i] != ids[j]
    ensures multiset(ids)[id] == One(id in ids)
  {
    if ids != [] {
      assert ids == [ids[0]] + ids[1..];
      forall i, j | 0 <= i < j < |ids[1..]| ensures ids[1..][i] != ids[1..][j] {
        assert ids[1..][i] == ids[i + 1] && ids[1..][j] == ids[j + 1];
      }
      CountInDistinct(ids[1..], id);
      forall j | 0 <= j < |ids[1..]| ensures ids[1..][j] != ids[0] {
        assert ids[1..][j] == ids[j + 1];
      }
    }
  }

  lemma ClaimAccounts(offset: int, w: World, ids: seq<nat>, now: int, id: nat)
    requires Numbered(w) && Accounted(w, id) && Possible(offset, w, Claim(ids, now))
    ensures Accounted(Step(offset, w, Claim(ids, now)), id)
  {
    hide RunsOf, Due, Taken, Running, Numbered;
    var next := Step(offset, w, Claim(ids, now));
    CountInDistinct(ids, id);
    assert multiset(w.claims + ids)[id] == multiset(w.claims)[id] + multiset(ids)[id];
    var c := RunningAfterClaim(offset, w, ids, now, id);
    assert c !in Running(w, id) || id !in ids by { RunsUnderWay(w, id, c); }
  }

  lemma RunsUnderWay(w: World, id: nat, c: nat)
    ensures c in Running(w, id) <==> c in w.held && w.held[c].id == id
  {
  }

  /** A run that is over leaves the runs under way. */
  lemma RunningWithout(w: World, next: World, claim: nat, id: nat)
    requires claim in w.held && next.held == w.held - {claim}
    ensures Running(next, id) == Running(w, id) - {claim}
    ensures |Running(w, id)| == |Running(next, id)| + One(w.held[claim].id == id)
  {
    assert Running(next, id) == Running(w, id) - {claim};
    assert w.held[claim].id == id <==> claim in Running(w, id);
  }

  lemma EndAccounts(offset: int, w: World, e: Event, id: nat)
    requires Accounted(w, id) && Possible(offset, w, e) && (e.Finish? || e.Abandon?)
    ensures Accounted(Step(offset, w, e), id)
  {
    hide RunsOf, Running, Recorded, Succeeds, ShouldNotify, Body, Ends;
    var next := Step(offset, w, e);
    RunningWithout(w, next, e.claim, id);
    if e.Finish? {
      OneMoreRecord(w.board.runs, next.board.runs[|w.board.runs|], id);
    }
  }

  lemma OthersAccount(offset: int, w: World, e: Event, id: nat)
    requires Accounted(w, id) && Possible(offset, w, e) && !e.Claim? && !e.Finish? && !e.Abandon?
    ensures Accounted(Step(offset, w, e), id)
  {
    hide RunsOf, NextRun;
    assert Running(Step(offset, w, e), id) == Running(w, id);
  }

  /** Every claim has exactly one run record, apart from the runs still under way and those that were
      abandoned with their pass, however the runs overlap. */
  lemma {:induction false} EveryClaimIsRecordedOnce(offset: int, worlds: seq<World>, events: seq<Event>, id: nat)
    requires History(offset, worlds, events) && Empty(worlds[0])
    ensures Numbered(worlds[|events|])
    ensures var w := worlds[|events|];
            multiset(w.claims)[id] == RunsOf(w.board.runs, id) + |Running(w, id)| + multiset(w.dropped)[id]
  {
    hide Step, Numbered, Possible;
    if events == [] {
      EmptyIsSound(worlds[0], id);
      assert Running(worlds[0], id) == {};
    } else {
      var n := |events| - 1;
      EveryClaimIsRecordedOnce(offset, worlds[..n + 1], events[..n], id);
      assert worlds[..n + 1][n] == worlds[n];
      StepKeepsNumbers(offset, worlds[n], events[n]);
      match events[n]
      case Claim(ids, now) => ClaimAccounts(offset, worlds[n], ids, now, id);
      case Finish(_, _) => EndAccounts(offset, worlds[n], events[n], id);
      case Abandon(_) => EndAccounts(offset, worlds[n], events[n], id);
      case _ => OthersAccount(offset, worlds[n], events[n], id);
    }
  }

  /** A finished run leaves its automation unlocked, to run next later than the run ended. */
  lemma FinishedRunFreesItsRow(offset: int, w: World, claim: nat, o: Outcome)
    requires Possible(offset, w, Finish(claim, o))
    ensures var next := Step(offset, w, Finish(claim, o));
            var id, t := w.held[claim].id, w.held[claim].row;
            && claim !in next.held
            && next.board.automations[id].lockedUntil == None
            && next.board.automations[id].nextRun > EndOf(t, o, offset)
            && (!Succeeds(t, o, offset) ==>
                  && next.board.automations[id].lastTriggered == w.board.automations[id].lastTriggered
                  && next.board.notices == w.board.notices)
  {
    hide NextRun, Strip, Body;
    NextRunIsLater(w.held[claim].row.schedule, o.finished, offset);
    NextRunIsLater(w.held[claim].row.schedule, o.failed, offset);
  }

  // ---------------------------------------------------------------------
  // When runs do not overlap
  // ---------------------------------------------------------------------

  /** A row has one run under way at most, and is locked until a quarter of an hour after its claim. */
  ghost predicate Guarded(w: World, id: nat) {
    && (forall c | c in Running(w, id) ::
          id in w.board.automations && w.board.automations[id].lockedUntil == Some(w.held[c].at + LOCK))
    && (forall c, d | c in Running(w, id) && d in Running(w, id) :: c == d)
  }

  /** The owner leaves the automation alone while it is running, and every claim comes while the
      locks of the runs under way still hold. */
  ghost predicate Undisturbed(w: World, e: Event, id: nat) {
    match e
    case Claim(ids, now) => forall c | c in Running(w, id) :: now <= w.held[c].at + LOCK
    case Switches(other, _, _, _) => other == id ==> Running(w, id) == {}
    case Deletes(other, _) => other == id ==> Running(w, id) == {}
    case _ => true
  }

  lemma StepGuards(offset: int, w: World, e: Event, id: nat)
    requires Numbered(w) && Guarded(w, id)
    requires Possible(offset, w, e) && Undisturbed(w, e, id)
    ensures Guarded(Step(offset, w, e), id)
    ensures e.Claim? && id in e.ids ==> Running(w, id) == {}
  {
    hide NextRun, Succeeds, ShouldNotify, Body, Ends, Taken;
    var next := Step(offset, w, e);
    match e
    case Claim(ids, now) =>
      var c := RunningAfterClaim(offset, w, ids, now, id);
      if id in ids {
        var i :| 0 <= i < |ids| && ids[i] == id;
        assert Due(w.board.automations[id], now);
        assert forall c | c in Running(w, id) :: false;
      }
    case Finish(claim, o) =>
      assert Running(next, id) == Running(w, id) - {claim};
      assert w.held[claim].id == id <==> claim in Running(w, id);
    case _ =>
      assert Running(next, id) <= Running(w, id);
  }

  /** Runs that end within their lock and are left alone by the owner never overlap. */
  lemma {:induction false} LocksKeepRunsApart(offset: int, worlds: seq<World>, events: seq<Event>, id: nat)
    requires History(offset, worlds, events) && Empty(worlds[0])
    requires forall i | 0 <= i < |events| :: Undisturbed(worlds[i], events[i], id)
    ensures Alone(worlds, events, id)
    ensures Numbered(worlds[|events|]) && Guarded(worlds[|events|], id)
  {
    hide Step, Guarded, Undisturbed, Numbered;
    if events == [] {
      NothingHeld(worlds[0], id);
    } else {
      var n := |events| - 1;
      forall i | 0 <= i < n ensures Undisturbed(worlds[..n + 1][i], events[..n][i], id) {
        assert worlds[..n + 1][i] == worlds[i] && events[..n][i] == events[i];
      }
      LocksKeepRunsApart(offset, worlds[..n + 1], events[..n], id);
      assert worlds[..n + 1][n] == worlds[n];
      StepKeepsNumbers(offset, worlds[n], events[n]);
      StepGuards(offset, worlds[n], events[n], id);
      forall i | 0 <= i < |events| && events[i].Claim? && id in events[i].ids ensures Running(worlds[i], id) == {} {
        if i < n {
          assert worlds[..n + 1][i] == worlds[i] && events[..n][i] == events[i];
        }
      }
    }
  }

  lemma NothingHeld(w: World, id: nat)
    requires Empty(w)
    ensures Numbered(w) && Guarded(w, id) && Fresh(w, id)
  {
  }
}
