/** Skips, gates and results with any number of iterations in flight, in the document's own terms. */
module PipelineFanSkips {
  import opened Base
  import opened Pipeline
  import opened PipelineTheorems
  import opened PipelineFanOut
  import opened PipelineFanSafety
  import opened PipelineFanDag
  import opened PipelineSkips
  import opened PipelineTrace

  // Some need was skipped, was cancelled, or failed where nothing lets its dependents go on.
  ghost predicate FanHeldBack(c: Config, w: FanWalk, id: StepId)
    requires Shaped(c, w) && id in c.doc
  {
    exists n <- c.doc[id].needs :: w.cells[n].Closed? &&
      (|| w.cells[n].disp == Skipped || w.cells[n].disp == Disposition.Cancelled
       || (w.cells[n].disp == Failed && (c.doc[n].kind.Gate? || !c.doc[n].continueOnError)))
  }

  lemma FanBlockedIff(c: Config, w: FanWalk, id: StepId)
    requires Shaped(c, w) && id in c.doc
    ensures FanBlocked(c, w, id) <==> FanHeldBack(c, w, id)
  {
    hide CellShaped, NeedsClosed;
  }

  /** Skip propagation at every point of every run: a settled step that a need holds back was skipped, and one that
      none holds back came to its own verdict. */
  lemma FanSkipped(c: Config, limit: StepId -> nat, j: Journal, events: seq<FanEvent>, w: FanWalk, id: StepId)
    requires WellFormed(c) && JournalOk(c, j) && FanRuns(c, limit, StartFans(c, j), events, w)
    requires id in c.doc && id in w.cells && w.cells[id].Closed?
    ensures w.cells.Keys == c.doc.Keys && forall n <- c.doc[id].needs :: n in c.doc && w.cells[n].Closed?
    ensures var held := exists n <- c.doc[id].needs ::
        || w.cells[n].disp == Skipped || w.cells[n].disp == Disposition.Cancelled
        || (w.cells[n].disp == Failed && (c.doc[n].kind.Gate? || !c.doc[n].continueOnError));
      if held then w.cells[id].disp == Skipped else id in w.verdicts && w.cells[id].disp == w.verdicts[id]
  {
    hide JournalOk, CellShaped, FanRuns, JournalGrew, CellInv, Counted;
    FanStart(c, limit, j);
    RunDag(c, limit, j, StartFans(c, j), events, w);
    DagAt(c, w, id);
    hide Dag;
    FanBlockedIff(c, w, id);
  }

  lemma BeginIs(c: Config, id: StepId, held: bool, anc: Scope, rows: seq<Row>)
    requires id in c.doc
    ensures BeginEffect(c, id, held, anc, Active(Begin, None, []), rows)
      == if held || Unwanted(c, id, anc) then Effect(rows, Settled(Skipped, None, []))
         else if c.doc[id].kind.Work? then Effect(rows, Active(AtSlot(Listed(c, id, anc), 0, 0, true), None, []))
         else if exists row <- rows :: row.attempt == 0 then Throw
         else Effect(rows + [Row(0, "gate:" + id, AwaitingApproval, None)], Active(AtGate, None, []))
  {
    assert View(anc, id, None) == anc;
    if c.doc[id].kind.Work? {
      assert ItemsOf(c, id, anc) == Listed(c, id, anc);
    }
  }

  /** How a step begins: held back, without a true condition or without items it is skipped on the spot and journals
      nothing; otherwise a gate is asked, unless the journal refuses it, and an executable step gets its items. */
  lemma FanBegins(c: Config, limit: StepId -> nat, w: FanWalk, id: StepId, anc: Scope, world: World)
    requires Shaped(c, w) && FanEnabled(c, limit, w, BeginStep(id, anc, world))
    ensures var w' := FanNext(c, limit, w, BeginStep(id, anc, world));
      var rows := Rows(w.journal, id, 0);
      if FanHeldBack(c, w, id) || Unwanted(In(c, world), id, anc) then
        w'.cells == w.cells[id := Closed(Skipped)] && w'.journal == w.journal
      else if c.doc[id].kind.Work? then
        w'.cells == w.cells[id := Fanned(Fan(Listed(In(c, world), id, anc), 0, None, map[], map[]))] && w'.journal == w.journal
      else if exists row <- rows :: row.attempt == 0 then
        w'.cells == w.cells[id := Rejected] && w'.journal == w.journal
      else
        && w'.cells == w.cells[id := Asking]
        && w'.journal == w.journal[(id, 0) := rows + [Row(0, "gate:" + id, AwaitingApproval, None)]]
  {
    hide FanNext, Began, FanBlocked, FanHeldBack, BeginEffect, Listed, Unwanted;
    FanBlockedIff(c, w, id);
    BeginIs(In(c, world), id, FanHeldBack(c, w, id), anc, Rows(w.journal, id, 0));
    BeginNext(c, limit, w, id, anc, world);
    BeganCases(c, w, id, FanHeldBack(c, w, id), BeginEffect(In(c, world), id, FanHeldBack(c, w, id), anc, Active(Begin, None, []), Rows(w.journal, id, 0)));
    hide Shaped, FanEnabled;
  }

  lemma BeginNext(c: Config, limit: StepId -> nat, w: FanWalk, id: StepId, anc: Scope, world: World)
    requires Shaped(c, w) && FanEnabled(c, limit, w, BeginStep(id, anc, world))
    ensures FanNext(c, limit, w, BeginStep(id, anc, world)) == Began(c, w, id, FanBlocked(c, w, id),
      BeginEffect(In(c, world), id, FanBlocked(c, w, id), anc, Active(Begin, None, []), Rows(w.journal, id, 0)))
  {
    hide CellShaped, NeedsClosed, WellFormed, FanBlocked, BeginEffect, Began;
  }

  lemma BeganCases(c: Config, w: FanWalk, id: StepId, held: bool, e: Effect)
    ensures var w' := Began(c, w, id, held, e);
      && (e.Throw? ==> w'.cells == w.cells[id := Rejected] && w'.journal == w.journal)
      && (e.Effect? && !e.cell.Active? ==> w'.cells == w.cells[id := Closed(Skipped)] && w'.journal == w.journal)
      && (e.Effect? && e.cell.Active? && e.cell.pc.AtSlot? ==>
          w'.cells == w.cells[id := Fanned(Fan(e.cell.pc.items, 0, None, map[], map[]))] && w'.journal == w.journal)
      && (e.Effect? && e.cell.Active? && e.cell.pc.AtGate? ==>
          w'.cells == w.cells[id := Asking] && w'.journal == w.journal[(id, 0) := e.rows])
  {
  }

  /** How a gate is settled: completed exactly when it is allowed, or is not wired or expires under
      onTimeout:continue, cancelled exactly when superseded, and its row says the same. */
  lemma FanDecides(c: Config, limit: StepId -> nat, w: FanWalk, id: StepId, world: World)
    requires Shaped(c, w) && FanEnabled(c, limit, w, Decide(id, world))
    ensures var w' := FanNext(c, limit, w, Decide(id, world));
      && id in w'.cells && w'.cells[id].Closed? && c.doc[id].kind.Gate?
      && GateTold(world.gate(id), c.doc[id].kind.continueOnTimeout, w'.cells[id].disp)
      && var rows := Rows(w.journal, id, 0);
      if rows == [] then w'.journal == w.journal
      else Rows(w'.journal, id, 0) == rows[..|rows| - 1] + [rows[|rows| - 1].(output := None, status :=
        if w'.cells[id].disp == Completed then RowCompleted else if w'.cells[id].disp == Disposition.Cancelled then RowCancelled else RowFailed)]
  {
    hide NeedsClosed, WellFormed;
    assert CellShaped(c, w.journal, id, w.cells[id]);
  }

  /** How a try of the executor ends, in either machine: the row is completed with the output of a good result and
      failed otherwise; the output of a good result becomes the step's; and a bad one is tried again exactly
      when tries are left, the policy retries it and the run is not cancelled. */
  lemma ResultIs(c: Config, id: StepId, anc: Scope, cell: Cell, rows: seq<Row>, cancelled: bool, aborted: bool)
    requires id in c.doc && cell.Active? && cell.pc.InFlight? && PcShape(c.doc[id], cell.pc, rows)
    ensures var e := ResultEffect(c, id, anc, cell, rows, cancelled, aborted);
      var slot := PlaceSlot(c.doc[id], Place(cell.pc.i, cell.pc.l));
      var r := if aborted then ExecResult(false, false, "error", None) else c.world.execute(id, slot, cell.pc.input, cell.pc.tries);
      && e.Effect? && e.cell.Active?
      && e.rows == rows[..|rows| - 1] + [rows[|rows| - 1].(status := if Good(r) then RowCompleted else RowFailed, output := r.output)]
      && e.cell.own == (if Good(r) && r.output.Some? then r.output else cell.own)
      && (e.cell.pc.Backoff? <==> Again(c.doc[id], r) && cell.pc.tries <= c.doc[id].kind.retryMax && !cancelled)
      && (Good(r) ==> e.cell.pc.AtSlot? && e.cell.pc.allOk == cell.pc.allOk && e.cell.trace == cell.trace + [Visit(slot, cell.pc.input, true, r.output)])
      && (!Good(r) && !e.cell.pc.Backoff? ==>
          e.cell.pc == AtSlot(cell.pc.items, cell.pc.i + 1, 0, false) && e.cell.trace == cell.trace + [Visit(slot, cell.pc.input, false, None)])
  {
  }
}
