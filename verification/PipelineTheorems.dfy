/** Every run of the pipeline machine: journal safety, the declared meaning, and resume. */
module PipelineTheorems {
  import opened Base
  import opened Pipeline
  import opened PipelineProofs

  // ---- the invariant of a walk that began over journal j0 ----------------------------------

  // Of a journal that any number of walks have written, whatever their executors answered and
  // whichever steps had drifted.
  ghost predicate JournalOk(c: Config, j: Journal) {
    forall id, slot: nat {:trigger Rows(j, id, slot)} | id in c.doc && c.doc[id].kind.Work? :: RowsOk(Rows(j, id, slot))
  }

  // What one walk does to the journal: it only grows, by at most 1 + retry.max rows a slot, and no
  // undrifted step executes an input that has succeeded.
  ghost predicate JournalGrew(c: Config, j0: Journal, j: Journal) {
    forall id, slot: nat {:trigger Rows(j, id, slot)} | id in c.doc && c.doc[id].kind.Work? ::
      Extends(c, id, Rows(j0, id, slot), Rows(j, id, slot))
  }

  ghost predicate CellOk(c: Config, j0: Journal, j: Journal, id: StepId, cell: Cell)
    requires id in c.doc
  {
    && (cell.Waiting? || (cell.Active? && cell.pc.Begin?) ==> forall slot: nat :: Rows(j, id, slot) == Rows(j0, id, slot))
    && (cell.Active? && cell.pc.Begin? ==> cell.trace == [])
    && (cell.Refused? ==> c.doc[id].kind.Gate? && Journaled(j0, id))
    && (c.doc[id].kind.Gate? && Journaled(j0, id) ==> Turned(cell))
    && (cell.Active? && c.doc[id].kind.Work? ==>
        var step := c.doc[id];
        var slot := CurrentSlot(step, cell.pc);
        && Grown(step, cell.pc, Rows(j0, id, slot), Rows(j, id, slot))
        && SlotOk(c, id, cell.pc, Rows(j, id, slot))
        && forall i: nat, l: nat | l < MaxLoops(step) && Unvisited(cell.pc, i, l) ::
             Rows(j, id, SlotOf(step, i, l)) == Rows(j0, id, SlotOf(step, i, l)))
  }

  ghost predicate Struct(c: Config, j0: Journal, st: Walk) {
    && Shape(c, st)
    && JournalOk(c, st.journal)
    && JournalGrew(c, j0, st.journal)
    && (forall id <- c.doc :: CellOk(c, j0, st.journal, id, st.cells[id]))
    && (st.thrown <==> exists id <- c.doc :: st.cells[id].Refused?)
    && (st.cancelled ==> st.aborting) && (st.aborting ==> st.cancelled || st.thrown)
  }

  // The journal holds attempt 0 of this gate, and will refuse it a second time.
  ghost predicate Journaled(j: Journal, id: StepId) { exists row <- Rows(j, id, 0) :: row.attempt == 0 }

  // A gate that has not been passed: not begun, refused, or skipped.
  ghost predicate Turned(cell: Cell) {
    match cell
    case Waiting => true
    case Active(pc, _, _) => pc.Begin?
    case Settled(d, _, _) => d == Skipped
    case Refused => true
  }

  lemma RowsAfterPut(st: Walk, id: StepId, slot: nat, rows: seq<Row>, cell: Cell, id': StepId, slot': nat)
    ensures Rows(Put(st, id, slot, rows, cell).journal, id', slot')
         == if id' == id && slot' == slot then rows else Rows(st.journal, id', slot')
  {
  }

  lemma PutKeepsShape(c: Config, st: Walk, id: StepId, e: Effect)
    requires Shape(c, st) && id in c.doc && st.cells[id].Active?
    requires e.Effect? && ShapeAfter(c.doc[id], st.cells[id].pc, e)
    ensures Shape(c, Put(st, id, CurrentSlot(c.doc[id], st.cells[id].pc), e.rows, e.cell))
  {
    var st' := Put(st, id, CurrentSlot(c.doc[id], st.cells[id].pc), e.rows, e.cell);
    forall x <- c.doc | !st'.cells[x].Waiting? ensures NeedsSettled(c, st'.cells, x) {
      assert NeedsSettled(c, st.cells, x);
    }
    forall x <- c.doc | st'.cells[x].Active? ensures PcShape(c.doc[x], st'.cells[x].pc, CurrentRows(c, st', x)) {
      if x != id {
        assert CurrentRows(c, st', x) == CurrentRows(c, st, x);
      }
    }
  }

  // An advance never refuses a gate by itself, and takes a journaled one no further than to a skip.
  ghost predicate GateAfter(c: Config, j0: Journal, id: StepId, e: Effect)
    requires id in c.doc
  {
    e.Effect? ==> !e.cell.Refused? && (c.doc[id].kind.Gate? && Journaled(j0, id) ==> Turned(e.cell))
  }

  lemma GateTurned(c: Config, j0: Journal, j: Journal, id: StepId, blocked: bool, anc: Scope, cell: Cell, rows: seq<Row>,
                   paused: bool, cancelled: bool, aborted: bool)
    requires Ready1(c, id, cell, rows) && CellOk(c, j0, j, id, cell) && rows == Rows(j, id, CurrentSlot(c.doc[id], cell.pc))
    ensures GateAfter(c, j0, id, StepEffect(c, id, blocked, anc, cell, rows, paused, cancelled, aborted))
  {
    hide RowsOk, NoRerun, NoHit, SlotOk, FindMemo, Latest, Grown, Unvisited;
  }

  // The rows an advance leaves behind satisfy the slot invariant.
  lemma PutKeepsCell(c: Config, j0: Journal, st: Walk, id: StepId, e: Effect)
    requires Struct(c, j0, st) && id in c.doc && st.cells[id].Active? && e.Effect?
    requires ShapeAfter(c.doc[id], st.cells[id].pc, e)
    requires c.doc[id].kind.Work? ==>
      var slot := CurrentSlot(c.doc[id], st.cells[id].pc);
      && GrownAfter(c.doc[id], st.cells[id].pc, Rows(j0, id, slot), Rows(st.journal, id, slot), e)
      && RowsOk(e.rows) && Extends(c, id, Rows(j0, id, slot), e.rows)
      && (e.cell.Active? && !e.cell.pc.AtSlot? ==> SlotOk(c, id, e.cell.pc, e.rows))
    requires e.cell.Active? ==> !e.cell.pc.Begin?
    requires GateAfter(c, j0, id, e)
    ensures CellOk(c, j0, Put(st, id, CurrentSlot(c.doc[id], st.cells[id].pc), e.rows, e.cell).journal, id, e.cell)
  {
    hide RowsOk, NoRerun, NoHit;
    var step := c.doc[id];
    var slot := CurrentSlot(step, st.cells[id].pc);
    var j' := Put(st, id, slot, e.rows, e.cell).journal;
    if e.cell.Active? && step.kind.Work? {
      forall i: nat, l: nat | l < MaxLoops(step) && Unvisited(e.cell.pc, i, l)
        ensures Rows(j', id, SlotOf(step, i, l)) == Rows(j0, id, SlotOf(step, i, l))
      {
        assert Unvisited(st.cells[id].pc, i, l);
        assert Rows(st.journal, id, SlotOf(step, i, l)) == Rows(j0, id, SlotOf(step, i, l));
      }
      var now := CurrentSlot(step, e.cell.pc);
      assert Rows(j', id, now) == if now == slot then e.rows else Rows(st.journal, id, now);
      if e.cell.pc.AtSlot? {
        assert Unvisited(e.cell.pc, e.cell.pc.i, e.cell.pc.l);
        assert SlotOk(c, id, e.cell.pc, Rows(j', id, now));
      }
    }
  }

  lemma PutKeepsStruct(c: Config, j0: Journal, st: Walk, id: StepId, e: Effect)
    requires Struct(c, j0, st) && id in c.doc && st.cells[id].Active? && e.Effect?
    requires ShapeAfter(c.doc[id], st.cells[id].pc, e)
    requires c.doc[id].kind.Work? ==>
      var slot := CurrentSlot(c.doc[id], st.cells[id].pc);
      && GrownAfter(c.doc[id], st.cells[id].pc, Rows(j0, id, slot), Rows(st.journal, id, slot), e)
      && RowsOk(e.rows) && Extends(c, id, Rows(j0, id, slot), e.rows)
      && (e.cell.Active? && !e.cell.pc.AtSlot? ==> SlotOk(c, id, e.cell.pc, e.rows))
    requires e.cell.Active? ==> !e.cell.pc.Begin?
    requires GateAfter(c, j0, id, e)
    ensures Struct(c, j0, Put(st, id, CurrentSlot(c.doc[id], st.cells[id].pc), e.rows, e.cell))
  {
    hide RowsOk, NoRerun, NoHit, PcShape, Grown, SlotOk, Unvisited;
    PutKeepsShape(c, st, id, e);
    PutKeepsCell(c, j0, st, id, e);
    var slot := CurrentSlot(c.doc[id], st.cells[id].pc);
    var st' := Put(st, id, slot, e.rows, e.cell);
    forall x, s: nat {:trigger Rows(st'.journal, x, s)} | x in c.doc && c.doc[x].kind.Work?
      ensures RowsOk(Rows(st'.journal, x, s)) && Extends(c, x, Rows(j0, x, s), Rows(st'.journal, x, s))
    {
      RowsAfterPut(st, id, slot, e.rows, e.cell, x, s);
      assert RowsOk(Rows(st.journal, x, s)) && Extends(c, x, Rows(j0, x, s), Rows(st.journal, x, s));
    }
    forall x <- c.doc ensures CellOk(c, j0, st'.journal, x, st'.cells[x]) {
      if x != id {
        CellFrame(c, j0, st.journal, st'.journal, x, st.cells[x]);
      }
    }
  }

  lemma CellFrame(c: Config, j0: Journal, j: Journal, j': Journal, id: StepId, cell: Cell)
    requires id in c.doc && CellOk(c, j0, j, id, cell)
    requires forall slot: nat :: Rows(j', id, slot) == Rows(j, id, slot)
    ensures CellOk(c, j0, j', id, cell)
  {
  }

  lemma StructKept(c: Config, j0: Journal, st: Walk, e: Event)
    requires Struct(c, j0, st) && Enabled(c, st, e)
    ensures Struct(c, j0, Next(c, st, e))
  {
    hide RowsOk, NoRerun, NoHit, PcShape, SlotOk, EffectOf;
    match e
    case PauseSignal =>
    case CancelSignal =>
    case Generation => GenerationKeepsStruct(c, j0, st);
    case Advance(id, aborted) => AdvanceKeepsStruct(c, j0, st, id, aborted);
  }

  lemma GenerationKeepsStruct(c: Config, j0: Journal, st: Walk)
    requires Struct(c, j0, st) && Enabled(c, st, Generation)
    ensures Struct(c, j0, Next(c, st, Generation))
  {
    hide RowsOk, NoRerun, NoHit, SlotOk, CellOk, PcShape;
    var st' := Next(c, st, Generation);
    forall id <- c.doc ensures CellOk(c, j0, st'.journal, id, st'.cells[id]) {
      if id in Ready(c, st) {
        ClaimKeepsCell(c, j0, st.journal, id);
      }
    }
    GenerationKeepsShape(c, st);
  }

  lemma ClaimKeepsCell(c: Config, j0: Journal, j: Journal, id: StepId)
    requires id in c.doc && JournalOk(c, j) && CellOk(c, j0, j, id, Waiting)
    ensures CellOk(c, j0, j, id, Active(Begin, None, []))
  {
    hide RowsOk, NoRerun, NoHit;
    assert c.doc[id].kind.Work? ==> RowsOk(Rows(j, id, 0));
  }

  lemma GenerationKeepsShape(c: Config, st: Walk)
    requires Shape(c, st) && Enabled(c, st, Generation)
    ensures Shape(c, Next(c, st, Generation))
  {
    var st' := Next(c, st, Generation);
    forall x <- c.doc | !st'.cells[x].Waiting? ensures NeedsSettled(c, st'.cells, x) {
      assert NeedsSettled(c, st.cells, x);
      forall n <- c.doc[x].needs ensures st'.cells[n].Settled? {
        assert st.cells[n].Settled?;
      }
    }
  }

  lemma AdvanceKeepsStruct(c: Config, j0: Journal, st: Walk, id: StepId, aborted: bool)
    requires Struct(c, j0, st) && Enabled(c, st, Advance(id, aborted))
    ensures Struct(c, j0, Next(c, st, Advance(id, aborted)))
  {
    hide RowsOk, NoRerun, NoHit, PcShape, SlotOk, EffectOf, Grown, Unvisited;
    AdvanceFacts(c, j0, st, id, aborted);
    if EffectOf(c, st, id, aborted).Effect? {
      PutKeepsStruct(c, j0, st, id, EffectOf(c, st, id, aborted));
    } else {
      RefusalKeepsStruct(c, j0, st, id);
    }
  }

  lemma RefusalKeepsStruct(c: Config, j0: Journal, st: Walk, id: StepId)
    requires Struct(c, j0, st) && id in c.doc && st.cells[id].Active? && c.doc[id].kind.Gate? && Journaled(j0, id)
    ensures Struct(c, j0, st.(thrown := true, cells := st.cells[id := Refused]))
  {
    hide RowsOk, NoRerun, NoHit, PcShape, SlotOk, Grown, Unvisited, JournalOk, JournalGrew, CellOk;
    var st' := st.(thrown := true, cells := st.cells[id := Refused]);
    assert st'.cells[id].Refused?;
    forall x <- c.doc ensures CellOk(c, j0, st'.journal, x, st'.cells[x]) {
      if x == id {
        RefusedOk(c, j0, st.journal, id);
      }
    }
    forall x <- c.doc | !st'.cells[x].Waiting? ensures NeedsSettled(c, st'.cells, x) {
      assert NeedsSettled(c, st.cells, x);
    }
    forall x <- c.doc | st'.cells[x].Active? ensures PcShape(c.doc[x], st'.cells[x].pc, CurrentRows(c, st', x)) {
      assert CurrentRows(c, st', x) == CurrentRows(c, st, x);
    }
  }

  lemma RefusedOk(c: Config, j0: Journal, j: Journal, id: StepId)
    requires id in c.doc && c.doc[id].kind.Gate? && Journaled(j0, id)
    ensures CellOk(c, j0, j, id, Refused)
  {
  }

  // The local facts about an advance, at the walk it happens in.
  lemma AdvanceFacts(c: Config, j0: Journal, st: Walk, id: StepId, aborted: bool)
    requires Struct(c, j0, st) && id in c.doc && st.cells[id].Active?
    ensures var e := EffectOf(c, st, id, aborted);
      var slot := CurrentSlot(c.doc[id], st.cells[id].pc);
      && ShapeAfter(c.doc[id], st.cells[id].pc, e)
      && (e.Throw? ==> c.doc[id].kind.Gate? && Journaled(j0, id) && st.cells[id].pc.Begin?)
      && GateAfter(c, j0, id, e)
      && (e.Effect? && c.doc[id].kind.Work? ==>
          && GrownAfter(c.doc[id], st.cells[id].pc, Rows(j0, id, slot), Rows(st.journal, id, slot), e)
          && RowsOk(e.rows) && Extends(c, id, Rows(j0, id, slot), e.rows)
          && (e.cell.Active? && !e.cell.pc.AtSlot? ==> SlotOk(c, id, e.cell.pc, e.rows)))
  {
    hide RowsOk, NoRerun, NoHit, PcShape, SlotOk, StepEffect, Grown, Unvisited, GrownAfter, ShapeAfter, AncestorScope, SkipByUpstream;
    var cell := st.cells[id];
    var anc := AncestorScope(c, st, id);
    var rows := CurrentRows(c, st, id);
    var blocked := SkipByUpstream(c, st, id);
    var slot := CurrentSlot(c.doc[id], cell.pc);
    assert CellOk(c, j0, st.journal, id, cell);
    var e := EffectOf(c, st, id, aborted);
    var gaveUp := aborted && st.aborting;
    EffectShape(c, id, blocked, anc, cell, rows, st.paused, st.cancelled, gaveUp);
    GateTurned(c, j0, st.journal, id, blocked, anc, cell, rows, st.paused, st.cancelled, gaveUp);
    if e.Throw? {
      ThrowOnlyAtGate(c, id, blocked, anc, cell, rows, st.paused, st.cancelled, gaveUp);
      assert Rows(j0, id, 0) == rows;
    } else if c.doc[id].kind.Work? {
      assert Extends(c, id, Rows(j0, id, slot), rows);
      EffectRows(c, id, blocked, anc, cell, Rows(j0, id, slot), rows, st.paused, st.cancelled, gaveUp);
      EffectGrowth(c, id, blocked, anc, cell, Rows(j0, id, slot), rows, st.paused, st.cancelled, gaveUp);
    }
  }

  lemma ThrowOnlyAtGate(c: Config, id: StepId, blocked: bool, anc: Scope, cell: Cell, rows: seq<Row>,
                        paused: bool, cancelled: bool, aborted: bool)
    requires Ready1(c, id, cell, rows)
    requires StepEffect(c, id, blocked, anc, cell, rows, paused, cancelled, aborted).Throw?
    ensures cell.pc.Begin? && c.doc[id].kind.Gate? && exists row <- rows :: row.attempt == 0
  {
  }

  // ---- staying on the meaning -------------------------------------------------------------

  // No pause and no cancel.
  ghost predicate Calm(st: Walk) { !st.paused && !st.cancelled && !st.aborting }

  ghost predicate OnWalk(c: Config, j0: Journal, st: Walk)
    requires Shape(c, st)
  {
    forall id <- c.doc :: OnCell(c, id, st.cells[id]) && FaithfulTrace(c, j0, id, Trace(st.cells[id]))
  }

  ghost predicate FaithfulTrace(c: Config, j0: Journal, id: StepId, trace: seq<Visit>) {
    id !in c.drifted ==> forall v <- trace :: Faithful(Rows(j0, id, v.slot), v)
  }

  ghost predicate Diverged(c: Config, st: Walk)
    requires Shape(c, st)
  {
    exists id <- c.doc :: !(Trace(st.cells[id]) <= Meaning(c, id).visits)
  }

  /** The condition for a faithful resume: wherever the undisturbed run looks up the
      journal and finds a success, the newest one carries the output of that slot. */
  ghost predicate Replayable(c: Config, j: Journal)
    requires WellFormed(c)
  {
    forall id <- c.doc :: FaithfulTrace(c, j, id, Meaning(c, id).visits)
  }

  ghost predicate OnOrOff(c: Config, j0: Journal, st: Walk)
    requires Shape(c, st)
  {
    OnWalk(c, j0, st) || (Diverged(c, st) && !Replayable(c, j0))
  }

  lemma {:induction false} AncestorsSettled(c: Config, st: Walk, id: StepId, a: StepId)
    requires Shape(c, st) && id in c.doc && NeedsSettled(c, st.cells, id) && a in Ancestors(c, id)
    ensures st.cells[a].Settled?
    decreases c.rank[id]
  {
    if a !in c.doc[id].needs {
      var n :| n in c.doc[id].needs && a in Ancestors(c, n);
      AncestorsSettled(c, st, n, a);
    }
  }

  lemma ScopeIsKnown(c: Config, st: Walk, id: StepId)
    requires Shape(c, st) && id in c.doc && NeedsSettled(c, st.cells, id) && AncestorsOn(c, st, id)
    ensures AncestorScope(c, st, id) == Known(c, id)
    ensures st.cells[id].Active? ==> (Blocked(c, id) <==> SkipByUpstream(c, st, id))
  {
    hide Rest, OnPc;
    forall a <- Ancestors(c, id) ensures Own(st.cells[a]) == Meaning(c, a).own {
      AncestorsSettled(c, st, id, a);
      assert OnCell(c, a, st.cells[a]);
    }
    forall n <- c.doc[id].needs ensures st.cells[n].disp == Meaning(c, n).disp {
      assert OnCell(c, n, st.cells[n]);
    }
  }

  // The steps this one can see have kept to their meaning.
  ghost predicate AncestorsOn(c: Config, st: Walk, id: StepId)
    requires Shape(c, st) && id in c.doc
  {
    forall a <- Ancestors(c, id) :: OnCell(c, a, st.cells[a])
  }

  lemma OnKept(c: Config, j0: Journal, st: Walk, e: Event)
    requires Struct(c, j0, st) && Enabled(c, st, e) && Calm(st) && Calm(Next(c, st, e))
    requires OnOrOff(c, j0, st)
    ensures Shape(c, Next(c, st, e)) && OnOrOff(c, j0, Next(c, st, e))
  {
    hide Rest, Meaning, Known, OnCell, SlotOk, EffectOf, PcShape, CellOk, JournalOk, JournalGrew, Faithful;
    StructKept(c, j0, st, e);
    var st' := Next(c, st, e);
    TracesGrow(c, j0, st, e);
    if Diverged(c, st) && !Replayable(c, j0) {
      var id :| id in c.doc && !(Trace(st.cells[id]) <= Meaning(c, id).visits);
      assert !(Trace(st'.cells[id]) <= Meaning(c, id).visits);
    } else {
      match e
      case Generation => GenerationOn(c, j0, st);
      case Advance(id, aborted) => AdvanceOn(c, j0, st, id, aborted);
      case PauseSignal => assert st' == st;
    }
  }

  // Every trace of `cells` is a prefix of the one in `cells'`.
  ghost predicate TracesExtend(cells: map<StepId, Cell>, cells': map<StepId, Cell>) {
    cells.Keys == cells'.Keys && forall id <- cells :: Trace(cells[id]) <= Trace(cells'[id])
  }

  lemma TracesGrow(c: Config, j0: Journal, st: Walk, e: Event)
    requires Struct(c, j0, st) && Enabled(c, st, e)
    ensures TracesExtend(st.cells, Next(c, st, e).cells)
  {
    hide EffectOf, PcShape, JournalOk, JournalGrew, CellOk, Trace, TracesExtend, NeedsSettled;
    match e
    case Generation => ClaimTraces(st.cells, Ready(c, st));
    case Advance(id, aborted) =>
      AdvanceTrace(c, j0, st, id, aborted);
      var effect := EffectOf(c, st, id, aborted);
      OneTrace(st.cells, id, if effect.Effect? then effect.cell else Refused);
    case _ => SameTraces(st.cells);
  }

  lemma SameTraces(cells: map<StepId, Cell>)
    ensures TracesExtend(cells, cells)
  {
  }

  lemma OneTrace(cells: map<StepId, Cell>, id: StepId, cell: Cell)
    requires id in cells && Trace(cells[id]) <= Trace(cell)
    ensures TracesExtend(cells, cells[id := cell])
  {
  }

  lemma ClaimTraces(cells: map<StepId, Cell>, ready: set<StepId>)
    requires forall id <- ready :: id in cells && cells[id].Waiting?
    ensures TracesExtend(cells, map id | id in cells :: if id in ready then Active(Begin, None, []) else cells[id])
  {
  }

  lemma AdvanceTrace(c: Config, j0: Journal, st: Walk, id: StepId, aborted: bool)
    requires Struct(c, j0, st) && id in c.doc && st.cells[id].Active?
    ensures var e := EffectOf(c, st, id, aborted);
      Trace(st.cells[id]) <= Trace(if e.Effect? then e.cell else Refused)
  {
    hide StepEffect, PcShape, Ancestors, AncestorScope, SkipByUpstream, JournalOk, JournalGrew, SlotOk, Grown, Unvisited, Turned;
    var cell, rows := st.cells[id], CurrentRows(c, st, id);
    var gaveUp := aborted && st.aborting;
    EffectTrace(c, id, SkipByUpstream(c, st, id), AncestorScope(c, st, id), cell, rows, st.paused, st.cancelled, gaveUp);
    if EffectOf(c, st, id, aborted).Throw? {
      ThrowOnlyAtGate(c, id, SkipByUpstream(c, st, id), AncestorScope(c, st, id), cell, rows, st.paused, st.cancelled, gaveUp);
      assert CellOk(c, j0, st.journal, id, cell);
    }
  }

  lemma GenerationOn(c: Config, j0: Journal, st: Walk)
    requires Struct(c, j0, st) && Enabled(c, st, Generation) && OnWalk(c, j0, st)
    requires Shape(c, Next(c, st, Generation))
    ensures OnWalk(c, j0, Next(c, st, Generation))
  {
    hide Rest, Meaning, Known, SlotOk, PcShape, CellOk, JournalOk, JournalGrew, Faithful;
    var st' := Next(c, st, Generation);
    forall id <- c.doc ensures OnCell(c, id, st'.cells[id]) && FaithfulTrace(c, j0, id, Trace(st'.cells[id])) {
      assert OnCell(c, id, st.cells[id]) && FaithfulTrace(c, j0, id, Trace(st.cells[id]));
    }
  }

  lemma AdvanceOn(c: Config, j0: Journal, st: Walk, id: StepId, aborted: bool)
    requires Struct(c, j0, st) && Enabled(c, st, Advance(id, aborted)) && OnWalk(c, j0, st)
    requires Calm(st) && Shape(c, Next(c, st, Advance(id, aborted)))
    ensures OnOrOff(c, j0, Next(c, st, Advance(id, aborted)))
  {
    hide Rest, Meaning, Known, OnCell, SlotOk, EffectOf, PcShape, JournalOk, JournalGrew, Grown, Faithful, Unvisited, CellOk, KeepsOn, Strays;
    var cell := st.cells[id];
    var e := EffectOf(c, st, id, aborted);
    AdvanceFacts(c, j0, st, id, aborted);
    AdvanceFactsOn(c, j0, st, id, aborted);
    if e.Throw? {
      RefusedOn(c, j0, st, id);
    } else if Strays(c, id, Rows(j0, id, CurrentSlot(c.doc[id], cell.pc)), cell, e.cell) {
      StraysOff(c, j0, st, id, e);
    } else {
      OnPut(c, j0, st, id, e);
    }
  }

  lemma StraysOff(c: Config, j0: Journal, st: Walk, id: StepId, e: Effect)
    requires Shape(c, st) && id in c.doc && st.cells[id].Active? && e.Effect?
    requires Strays(c, id, Rows(j0, id, CurrentSlot(c.doc[id], st.cells[id].pc)), st.cells[id], e.cell)
    requires Shape(c, Put(st, id, CurrentSlot(c.doc[id], st.cells[id].pc), e.rows, e.cell))
    ensures Diverged(c, Put(st, id, CurrentSlot(c.doc[id], st.cells[id].pc), e.rows, e.cell)) && !Replayable(c, j0)
  {
    hide Rest, Meaning, Known, PcShape, Faithful;
    var slot := CurrentSlot(c.doc[id], st.cells[id].pc);
    var v :| v in Meaning(c, id).visits && v.slot == slot && !Faithful(Rows(j0, id, slot), v);
    assert !FaithfulTrace(c, j0, id, Meaning(c, id).visits);
    assert Put(st, id, slot, e.rows, e.cell).cells[id] == e.cell;
  }

  lemma RefusedOn(c: Config, j0: Journal, st: Walk, id: StepId)
    requires Shape(c, st) && OnWalk(c, j0, st) && id in c.doc && OnCell(c, id, Refused)
    requires Shape(c, st.(thrown := true, cells := st.cells[id := Refused]))
    ensures OnWalk(c, j0, st.(thrown := true, cells := st.cells[id := Refused]))
  {
    hide Rest, Meaning, Known, OnCell, PcShape, Faithful;
    var st' := st.(thrown := true, cells := st.cells[id := Refused]);
    forall x <- c.doc ensures OnCell(c, x, st'.cells[x]) && FaithfulTrace(c, j0, x, Trace(st'.cells[x])) {
      assert OnCell(c, x, st.cells[x]) && FaithfulTrace(c, j0, x, Trace(st.cells[x]));
    }
  }

  lemma AdvanceFactsOn(c: Config, j0: Journal, st: Walk, id: StepId, aborted: bool)
    requires Struct(c, j0, st) && id in c.doc && st.cells[id].Active? && OnWalk(c, j0, st) && Calm(st)
    ensures var e := EffectOf(c, st, id, aborted);
      && OnAfter(c, id, Rows(j0, id, CurrentSlot(c.doc[id], st.cells[id].pc)), st.cells[id], e)
      && (e.Throw? ==> OnCell(c, id, Refused))
  {
    hide Rest, Meaning, Known, OnCell, SlotOk, StepEffect, PcShape, JournalOk, JournalGrew, Grown, Faithful, Unvisited, OnAfter, AncestorScope;
    var cell := st.cells[id];
    var rows := CurrentRows(c, st, id);
    var slot := CurrentSlot(c.doc[id], cell.pc);
    ScopeIsKnown(c, st, id);
    assert OnCell(c, id, cell) && CellOk(c, j0, st.journal, id, cell);
    GrownAtGate(c.doc[id], cell.pc, Rows(j0, id, slot), rows);
    EffectOn(c, id, cell, Rows(j0, id, slot), rows);
    if EffectOf(c, st, id, aborted).Throw? {
      ThrowOn(c, id, cell, rows);
    }
  }

  lemma GrownAtGate(step: Step, pc: Pc, rows0: seq<Row>, rows: seq<Row>)
    requires step.kind.Gate? ==> PcShape(step, pc, rows)
    requires step.kind.Work? ==> Grown(step, pc, rows0, rows)
    ensures Grown(step, pc, rows0, rows)
  {
  }

  lemma OnPut(c: Config, j0: Journal, st: Walk, id: StepId, e: Effect)
    requires Shape(c, st) && OnWalk(c, j0, st) && id in c.doc && st.cells[id].Active? && e.Effect? && !e.cell.Waiting?
    requires KeepsOn(c, id, Rows(j0, id, CurrentSlot(c.doc[id], st.cells[id].pc)), st.cells[id], e.cell)
    requires Shape(c, Put(st, id, CurrentSlot(c.doc[id], st.cells[id].pc), e.rows, e.cell))
    ensures OnWalk(c, j0, Put(st, id, CurrentSlot(c.doc[id], st.cells[id].pc), e.rows, e.cell))
  {
    hide Rest, Meaning, Known, OnCell, PcShape, Faithful;
    var st' := Put(st, id, CurrentSlot(c.doc[id], st.cells[id].pc), e.rows, e.cell);
    forall x <- c.doc ensures OnCell(c, x, st'.cells[x]) && FaithfulTrace(c, j0, x, Trace(st'.cells[x])) {
      assert OnCell(c, x, st.cells[x]) && FaithfulTrace(c, j0, x, Trace(st.cells[x]));
    }
  }
}
