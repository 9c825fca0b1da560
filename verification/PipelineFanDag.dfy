/** Dispositions and termination of the fan-out machine. */
module PipelineFanDag {
  import opened Base
  import opened Pipeline
  import opened PipelineProofs
  import opened PipelineTheorems
  import opened PipelineProgress
  import opened PipelineFanOut
  import opened PipelineFanSafety

  // ---- dispositions ------------------------------------------------------------------------------------------

  // The disposition of a step from what each step came to by itself: skipped where a need blocks it,
  // otherwise its own verdict.
  ghost function Declared(c: Config, verdicts: map<StepId, Disposition>, id: StepId): Disposition
    requires WellFormed(c) && id in c.doc
    decreases c.rank[id]
  {
    if exists n <- c.doc[id].needs :: Blocks(c.doc[n], Declared(c, verdicts, n)) then Skipped
    else if id in verdicts then verdicts[id] else Skipped
  }

  // Each claimed item is in flight or has its result.
  ghost predicate Counted(fan: Fan) {
    && fan.next <= |fan.items|
    && (forall item: nat :: item < fan.next <==> item in fan.lanes || item in fan.results)
    && fan.lanes.Keys !! fan.results.Keys
  }

  ghost predicate CellDag(c: Config, w: FanWalk, id: StepId)
    requires Shaped(c, w) && id in c.doc
  {
    match w.cells[id]
    case Unbegun => id !in w.verdicts
    case Asking => id !in w.verdicts && !FanBlocked(c, w, id)
    case Fanned(fan) => id !in w.verdicts && !FanBlocked(c, w, id) && Counted(fan)
    case Closed(d) => if FanBlocked(c, w, id) then d == Skipped else id in w.verdicts && d == w.verdicts[id]
    case Rejected => id !in w.verdicts
  }

  ghost predicate Dag(c: Config, w: FanWalk) {
    Shaped(c, w) && forall id <- c.doc :: CellDag(c, w, id)
  }

  // What blocks a step that has begun does not change while another one moves.
  lemma SameBlocked(c: Config, w: FanWalk, w': FanWalk, id: StepId, x: StepId)
    requires Shaped(c, w) && Shaped(c, w') && id in c.doc && x in c.doc && !w.cells[id].Closed? && NeedsClosed(c, w, x)
    requires forall y <- c.doc | y != id :: w'.cells[y] == w.cells[y]
    ensures FanBlocked(c, w', x) == FanBlocked(c, w, x)
  {
    hide CellShaped;
    forall n <- c.doc[x].needs ensures w'.cells[n] == w.cells[n] && n in c.doc {
      assert w.cells[n].Closed?;
    }
  }

  // One step moves to a new cell, perhaps with a verdict.
  ghost predicate Moves(w: FanWalk, w': FanWalk, id: StepId, cell: FanCell, verdict: Option<Disposition>) {
    w'.cells == w.cells[id := cell] && w'.verdicts == if verdict.Some? then w.verdicts[id := verdict.value] else w.verdicts
  }

  ghost predicate MoveOk(blocked: bool, cell: FanCell, verdict: Option<Disposition>) {
    match cell
    case Unbegun => false
    case Asking => verdict.None? && !blocked
    case Fanned(fan) => verdict.None? && !blocked && Counted(fan)
    case Closed(d) => if blocked then d == Skipped else verdict == Some(d)
    case Rejected => verdict.None?
  }

  lemma MoveKeepsDag(c: Config, w: FanWalk, w': FanWalk, id: StepId, cell: FanCell, verdict: Option<Disposition>)
    requires Dag(c, w) && Shaped(c, w') && id in c.doc && !w.cells[id].Closed? && NeedsClosed(c, w, id)
    requires Moves(w, w', id, cell, verdict) && MoveOk(FanBlocked(c, w, id), cell, verdict)
    ensures Dag(c, w')
  {
    hide CellShaped, WellFormed, FanBlocked, Counted;
    forall x <- c.doc ensures CellDag(c, w', x) {
      assert CellDag(c, w, x);
      if x == id || !w.cells[x].Unbegun? {
        SameBlocked(c, w, w', id, x);
      }
    }
  }

  lemma RunCounted(fan: Fan, item: nat, cell: Cell)
    requires Counted(fan) && item in fan.lanes
    ensures Counted(Moved(fan, item, cell))
  {
  }

  lemma ClaimCounted(fan: Fan, pc: Pc)
    requires Counted(fan) && fan.next < |fan.items|
    ensures Counted(fan.(next := fan.next + 1, lanes := fan.lanes[fan.next := pc]))
  {
  }

  lemma DagAt(c: Config, w: FanWalk, id: StepId)
    requires Dag(c, w) && id in c.doc
    ensures CellDag(c, w, id) && id in w.cells && CellShaped(c, w.journal, id, w.cells[id]) && (!w.cells[id].Unbegun? ==> NeedsClosed(c, w, id))
  {
    hide CellDag, CellShaped, NeedsClosed;
  }

  // What each kind of event moves its step to.
  lemma BeginMoves(c: Config, w: FanWalk, id: StepId, blocked: bool, e: Effect) returns (cell: FanCell, verdict: Option<Disposition>)
    requires e.Throw? || (e.cell.Active? ==> !blocked)
    ensures Moves(w, Began(c, w, id, blocked, e), id, cell, verdict) && MoveOk(blocked, cell, verdict)
  {
    hide Counted;
    verdict := None;
    if e.Throw? {
      cell := Rejected;
    } else if !e.cell.Active? {
      cell := Closed(Skipped);
      verdict := if blocked then None else Some(Skipped);
    } else if e.cell.pc.AtSlot? {
      cell := Fanned(Fan(e.cell.pc.items, 0, None, map[], map[]));
      NewCounted(e.cell.pc.items);
    } else {
      cell := Asking;
    }
  }

  lemma NewCounted(items: seq<Option<Item>>)
    ensures Counted(Fan(items, 0, None, map[], map[]))
  {
  }

  lemma EventMoves(c: Config, limit: StepId -> nat, w: FanWalk, e: FanEvent) returns (cell: FanCell, verdict: Option<Disposition>)
    requires Dag(c, w) && FanEnabled(c, limit, w, e) && !e.Pause? && !e.Cancel?
    ensures e.id in c.doc && e.id in w.cells && !w.cells[e.id].Closed? && NeedsClosed(c, w, e.id)
    ensures Moves(w, FanNext(c, limit, w, e), e.id, cell, verdict) && MoveOk(FanBlocked(c, w, e.id), cell, verdict)
  {
    hide Dag, BeginEffect, LaneEffect, FanBlocked, Counted, Began, NeedsClosed, WellFormed, LaneShape;
    assert Shaped(c, w) by { DagShaped(c, w); }
    var id, w' := e.id, FanNext(c, limit, w, e);
    DagAt(c, w, id);
    match e
    case BeginStep(_, anc, world) =>
      var blocked := FanBlocked(c, w, id);
      BeginCases(In(c, world), id, blocked, anc, Rows(w.journal, id, 0));
      cell, verdict := BeginMoves(c, w, id, blocked, BeginEffect(In(c, world), id, blocked, anc, Active(Begin, None, []), Rows(w.journal, id, 0)));
    case Run(_, item, anc, world, aborted) =>
      cell, verdict := w'.cells[id], None;
      var effect := LaneEffect(c, w, id, item, anc, world, aborted);
      assert effect.Throw? ==> w.cells[id := w.cells[id]] == w.cells;
      if effect.Effect? {
        RunCounted(w.cells[id].fan, item, effect.cell);
      }
    case Claim(_) =>
      cell, verdict := w'.cells[id], None;
      ClaimCounted(w.cells[id].fan, AtSlot(w.cells[id].fan.items, w.cells[id].fan.next, 0, true));
    case Decide(_, _) => cell, verdict := w'.cells[id], Some(w'.cells[id].disp);
    case Close(_) => cell, verdict := w'.cells[id], Some(w'.cells[id].disp);
  }

  lemma DagShaped(c: Config, w: FanWalk)
    requires Dag(c, w)
    ensures Shaped(c, w)
  {
  }

  lemma StepDag(c: Config, limit: StepId -> nat, w: FanWalk, e: FanEvent)
    requires Dag(c, w) && FanEnabled(c, limit, w, e) && Shaped(c, FanNext(c, limit, w, e))
    ensures Dag(c, FanNext(c, limit, w, e))
  {
    hide Shaped, FanEnabled, CellDag, Moves, MoveOk, FanBlocked, NeedsClosed;
    if e.Pause? || e.Cancel? {
      SignalDag(c, w, FanNext(c, limit, w, e));
    } else {
      var cell, verdict := EventMoves(c, limit, w, e);
      MoveKeepsDag(c, w, FanNext(c, limit, w, e), e.id, cell, verdict);
    }
  }

  lemma SignalDag(c: Config, w: FanWalk, w': FanWalk)
    requires Dag(c, w) && Shaped(c, w') && w'.cells == w.cells && w'.verdicts == w.verdicts
    ensures Dag(c, w')
  {
    hide CellShaped, WellFormed;
    forall x <- c.doc ensures CellDag(c, w', x) {
      assert CellDag(c, w, x);
      assert FanBlocked(c, w', x) == FanBlocked(c, w, x);
    }
  }

  lemma {:induction false} RunDag(c: Config, limit: StepId -> nat, j0: Journal, w: FanWalk, events: seq<FanEvent>, w': FanWalk)
    requires Inv(c, limit, j0, w) && Dag(c, w) && FanRuns(c, limit, w, events, w')
    ensures Dag(c, w')
    decreases |events|
  {
    hide FanEnabled, FanNext, CellDag, JournalOk, JournalGrew, CellInv, CellShaped, NeedsClosed, WellFormed;
    if events != [] {
      FanStepKeeps(c, limit, j0, w, events[0]);
      StepDag(c, limit, w, events[0]);
      RunDag(c, limit, j0, FanNext(c, limit, w, events[0]), events[1..], w');
    }
  }

  lemma {:induction false} DagDeclares(c: Config, w: FanWalk, id: StepId)
    requires Dag(c, w) && id in c.doc && w.cells[id].Closed?
    ensures w.cells[id].disp == Declared(c, w.verdicts, id)
    decreases c.rank[id]
  {
    hide CellShaped, Counted;
    assert CellDag(c, w, id) && NeedsClosed(c, w, id);
    forall n <- c.doc[id].needs ensures n in c.doc && w.cells[n].Closed? && w.cells[n].disp == Declared(c, w.verdicts, n) {
      DagDeclares(c, w, n);
    }
  }

  /** The walk refines its meaning, with any number of iterations in flight, any answers and in every
      interleaving: a step is settled only after all its needs, and its disposition is the one the
      steps' own verdicts declare. */
  lemma DispositionsDeclared(c: Config, limit: StepId -> nat, j: Journal, events: seq<FanEvent>, w: FanWalk)
    requires WellFormed(c) && JournalOk(c, j) && FanRuns(c, limit, StartFans(c, j), events, w)
    ensures Shaped(c, w)
    ensures forall id <- c.doc | !w.cells[id].Unbegun? :: NeedsClosed(c, w, id)
    ensures forall id <- c.doc | w.cells[id].Closed? :: w.cells[id].disp == Declared(c, w.verdicts, id)
  {
    hide JournalOk, CellShaped, NeedsClosed, WellFormed, FanRuns;
    FanStart(c, limit, j);
    RunDag(c, limit, j, StartFans(c, j), events, w);
    forall id <- c.doc | w.cells[id].Closed? ensures w.cells[id].disp == Declared(c, w.verdicts, id) {
      DagDeclares(c, w, id);
    }
  }

  /** A settled step stays as it is, so every step gets at most one disposition. */
  lemma {:induction false} SettledOnce(c: Config, limit: StepId -> nat, j0: Journal, w: FanWalk, events: seq<FanEvent>, w': FanWalk, id: StepId)
    requires Inv(c, limit, j0, w) && Dag(c, w) && FanRuns(c, limit, w, events, w') && id in c.doc && w.cells[id].Closed?
    ensures id in w'.cells && w'.cells[id] == w.cells[id]
    decreases |events|
  {
    hide FanEnabled, FanNext, CellDag, JournalOk, JournalGrew, CellInv, CellShaped, NeedsClosed, WellFormed;
    if events != [] {
      var e := events[0];
      FanStepKeeps(c, limit, j0, w, e);
      StepDag(c, limit, w, e);
      ClosedStays(c, limit, w, e, id);
      SettledOnce(c, limit, j0, FanNext(c, limit, w, e), events[1..], w', id);
    }
  }

  lemma ClosedStays(c: Config, limit: StepId -> nat, w: FanWalk, e: FanEvent, id: StepId)
    requires Dag(c, w) && FanEnabled(c, limit, w, e) && id in c.doc && w.cells[id].Closed?
    ensures id in FanNext(c, limit, w, e).cells && FanNext(c, limit, w, e).cells[id] == w.cells[id]
  {
    hide FanEnabled, CellDag, CellShaped, NeedsClosed, WellFormed, Began, Advanced, LaneEffect, BeginEffect;
    if !e.Pause? && !e.Cancel? {
      var cell, verdict := EventMoves(c, limit, w, e);
    }
  }

  /** When a step's pool closes, every item has its result, and the step completed exactly when all of
      them succeeded. */
  lemma PoolVerdict(c: Config, limit: StepId -> nat, w: FanWalk, id: StepId)
    requires Dag(c, w) && FanEnabled(c, limit, w, Close(id))
    ensures var fan := w.cells[id].fan;
      && (forall item: nat | item < |fan.items| :: item in fan.results)
      && (FanNext(c, limit, w, Close(id)).cells[id] == Closed(Completed) <==> forall item: nat | item < |fan.items| :: fan.results[item])
      && (FanNext(c, limit, w, Close(id)).cells[id] == Closed(Failed) <==> exists item: nat :: item < |fan.items| && !fan.results[item])
  {
    hide CellShaped, WellFormed;
    DagAt(c, w, id);
    var fan := w.cells[id].fan;
    assert forall item: nat :: item < |fan.items| <==> item in fan.results;
  }
}
