/** When a resumed run throws, read off the journal it resumes from. */
module PipelineGates {
  import opened Base
  import opened Pipeline
  import opened PipelineProofs
  import opened PipelineTheorems
  import opened PipelineRuns
  import opened PipelineTruth

  // What a walk knows of its gates even while it is being paused or cancelled: every begun step has
  // ancestors that kept to their meaning, so the gates do too; and a gate that was not passed
  // has no row of this walk.
  ghost predicate GatesOn(c: Config, j0: Journal, st: Walk)
    requires Shape(c, st)
  {
    && (forall id <- c.doc | !st.cells[id].Waiting? :: AncestorsOn(c, st, id))
    && (forall id <- c.doc | c.doc[id].kind.Gate? :: GateOn(c, j0, st.journal, id, st.cells[id]))
  }

  ghost predicate GateOn(c: Config, j0: Journal, j: Journal, id: StepId, cell: Cell)
    requires WellFormed(c) && id in c.doc
  {
    OnCell(c, id, cell) && (Turned(cell) ==> Rows(j, id, 0) == Rows(j0, id, 0))
  }

  // ---- one advance of a gate -------------------------------------------------------------------------------

  // A gate does not look at the pause and cancel flags.
  lemma GateIgnoresSignals(c: Config, id: StepId, blocked: bool, anc: Scope, cell: Cell, rows: seq<Row>,
                           paused: bool, cancelled: bool, aborted: bool)
    requires Ready1(c, id, cell, rows) && c.doc[id].kind.Gate?
    ensures StepEffect(c, id, blocked, anc, cell, rows, paused, cancelled, aborted)
         == StepEffect(c, id, blocked, anc, cell, rows, false, false, false)
  {
  }

  lemma GateMeaning(c: Config, id: StepId)
    requires WellFormed(c) && id in c.doc && c.doc[id].kind.Gate?
    ensures Meaning(c, id).visits == []
  {
    hide Known, Rest;
  }

  lemma GateRows(c: Config, id: StepId, blocked: bool, anc: Scope, cell: Cell, rows: seq<Row>)
    requires Ready1(c, id, cell, rows) && c.doc[id].kind.Gate?
    ensures var e := StepEffect(c, id, blocked, anc, cell, rows, false, false, false);
      e.Effect? && Turned(e.cell) ==> e.rows == rows && cell.pc.Begin?
    ensures CurrentSlot(c.doc[id], cell.pc) == 0
  {
  }

  lemma GateAdvances(c: Config, j0: Journal, st: Walk, id: StepId, aborted: bool)
    requires Struct(c, j0, st) && GatesOn(c, j0, st) && id in c.doc && st.cells[id].Active? && c.doc[id].kind.Gate?
    ensures var e := EffectOf(c, st, id, aborted);
      && OnCell(c, id, if e.Effect? then e.cell else Refused)
      && (if e.Effect? then Turned(e.cell) ==> e.rows == CurrentRows(c, st, id) == Rows(j0, id, 0) else CurrentRows(c, st, id) == Rows(j0, id, 0))
  {
    hide StepEffect, Meaning, Known, OnPc, PcShape, JournalOk, JournalGrew, SlotOk, Grown, Unvisited, AncestorScope, Faithful;
    var cell, rows := st.cells[id], CurrentRows(c, st, id);
    var blocked, anc := Blocked(c, id), Known(c, id);
    ScopeIsKnown(c, st, id);
    GateIgnoresSignals(c, id, blocked, anc, cell, rows, st.paused, st.cancelled, aborted && st.aborting);
    GateRows(c, id, blocked, anc, cell, rows);
    assert GateOn(c, j0, st.journal, id, cell);
    var e := StepEffect(c, id, blocked, anc, cell, rows, false, false, false);
    if e.Effect? {
      GrownGate(c.doc[id], cell.pc, rows);
      EffectOn(c, id, cell, rows, rows);
      GateMeaning(c, id);
    } else {
      ThrowOn(c, id, cell, rows);
      ThrowOnlyAtGate(c, id, blocked, anc, cell, rows, false, false, false);
    }
  }

  lemma GrownGate(step: Step, pc: Pc, rows: seq<Row>)
    requires step.kind.Gate? && PcShape(step, pc, rows)
    ensures Grown(step, pc, rows, rows)
  {
  }

  // ---- every event -----------------------------------------------------------------------------------------

  lemma CalmGates(c: Config, j0: Journal, st: Walk)
    requires Struct(c, j0, st) && OnWalk(c, j0, st)
    requires forall id <- c.doc | c.doc[id].kind.Gate? && Turned(st.cells[id]) :: Rows(st.journal, id, 0) == Rows(j0, id, 0)
    ensures GatesOn(c, j0, st)
  {
    hide OnCell, JournalOk, JournalGrew, CellOk, FaithfulTrace, PcShape, Turned;
    assert forall id <- c.doc :: OnCell(c, id, st.cells[id]);
  }

  lemma GenerationGates(c: Config, j0: Journal, st: Walk)
    requires Struct(c, j0, st) && GatesOn(c, j0, st) && OnWalk(c, j0, st) && Enabled(c, st, Generation)
    requires Struct(c, j0, Next(c, st, Generation)) && OnWalk(c, j0, Next(c, st, Generation))
    ensures GatesOn(c, j0, Next(c, st, Generation))
  {
    hide OnCell, JournalOk, JournalGrew, CellOk, FaithfulTrace, PcShape, OnWalk;
    var st' := Next(c, st, Generation);
    forall id <- c.doc | c.doc[id].kind.Gate? && Turned(st'.cells[id]) ensures Rows(st'.journal, id, 0) == Rows(j0, id, 0) {
      assert GateOn(c, j0, st.journal, id, st.cells[id]);
    }
    CalmGates(c, j0, st');
  }

  // A settled step stays as it is while another one advances.
  lemma AncestorsStay(c: Config, st: Walk, st': Walk, id: StepId, x: StepId)
    requires Shape(c, st) && Shape(c, st') && id in c.doc && st.cells[id].Active? && x in c.doc && !st.cells[x].Waiting? && AncestorsOn(c, st, x)
    requires forall y <- c.doc | y != id :: st'.cells[y] == st.cells[y]
    ensures AncestorsOn(c, st', x)
  {
    hide OnCell, PcShape;
    forall a <- Ancestors(c, x) ensures OnCell(c, a, st'.cells[a]) {
      AncestorsSettled(c, st, x, a);
    }
  }

  lemma AdvanceGates(c: Config, j0: Journal, st: Walk, id: StepId, aborted: bool)
    requires Struct(c, j0, st) && GatesOn(c, j0, st) && Enabled(c, st, Advance(id, aborted))
    requires Shape(c, Next(c, st, Advance(id, aborted)))
    ensures GatesOn(c, j0, Next(c, st, Advance(id, aborted)))
  {
    hide GateOn, AncestorsOn, JournalOk, JournalGrew, CellOk, PcShape, EffectOf, NeedsSettled;
    var st' := Next(c, st, Advance(id, aborted));
    OneCell(c, st, id, aborted);
    forall x <- c.doc | !st'.cells[x].Waiting? ensures AncestorsOn(c, st', x) {
      AncestorsStay(c, st, st', id, x);
    }
    forall x <- c.doc | c.doc[x].kind.Gate? ensures GateOn(c, j0, st'.journal, x, st'.cells[x]) {
      if x == id {
        ThisGate(c, j0, st, id, aborted);
      } else {
        OtherGate(c, j0, st, id, aborted, x);
      }
    }
  }

  // An advance changes one cell and that step's rows.
  lemma OneCell(c: Config, st: Walk, id: StepId, aborted: bool)
    requires Shape(c, st) && Enabled(c, st, Advance(id, aborted))
    ensures var st', e := Next(c, st, Advance(id, aborted)), EffectOf(c, st, id, aborted);
      && st'.cells == st.cells[id := if e.Effect? then e.cell else Refused]
      && (forall x, slot: nat :: Rows(st'.journal, x, slot) ==
            if e.Effect? && x == id && slot == CurrentSlot(c.doc[id], st.cells[id].pc) then e.rows else Rows(st.journal, x, slot))
  {
    hide EffectOf, PcShape, NeedsSettled, WellFormed;
    var e := EffectOf(c, st, id, aborted);
    if e.Effect? {
      var slot := CurrentSlot(c.doc[id], st.cells[id].pc);
      forall x, s: nat ensures Rows(Put(st, id, slot, e.rows, e.cell).journal, x, s) == if x == id && s == slot then e.rows else Rows(st.journal, x, s) {
        RowsAfterPut(st, id, slot, e.rows, e.cell, x, s);
      }
    }
  }

  lemma OtherGate(c: Config, j0: Journal, st: Walk, id: StepId, aborted: bool, x: StepId)
    requires Shape(c, st) && GatesOn(c, j0, st) && Enabled(c, st, Advance(id, aborted)) && x in c.doc && c.doc[x].kind.Gate? && x != id
    ensures x in Next(c, st, Advance(id, aborted)).cells
    ensures GateOn(c, j0, Next(c, st, Advance(id, aborted)).journal, x, Next(c, st, Advance(id, aborted)).cells[x])
  {
    hide OnCell, PcShape, EffectOf, AncestorsOn, Next;
    OneCell(c, st, id, aborted);
    assert GateOn(c, j0, st.journal, x, st.cells[x]);
  }

  lemma ThisGate(c: Config, j0: Journal, st: Walk, id: StepId, aborted: bool)
    requires Struct(c, j0, st) && GatesOn(c, j0, st) && Enabled(c, st, Advance(id, aborted)) && c.doc[id].kind.Gate?
    ensures id in Next(c, st, Advance(id, aborted)).cells
    ensures GateOn(c, j0, Next(c, st, Advance(id, aborted)).journal, id, Next(c, st, Advance(id, aborted)).cells[id])
  {
    hide OnCell, JournalOk, JournalGrew, CellOk, PcShape, EffectOf, GatesOn, Next;
    OneCell(c, st, id, aborted);
    GateAdvances(c, j0, st, id, aborted);
    GateSlot(c, st, id);
  }

  lemma GateSlot(c: Config, st: Walk, id: StepId)
    requires Shape(c, st) && id in c.doc && st.cells[id].Active? && c.doc[id].kind.Gate?
    ensures CurrentSlot(c.doc[id], st.cells[id].pc) == 0 && CurrentRows(c, st, id) == Rows(st.journal, id, 0)
  {
    assert PcShape(c.doc[id], st.cells[id].pc, CurrentRows(c, st, id));
  }

  lemma GatesKept(c: Config, j0: Journal, st: Walk, e: Event)
    requires Struct(c, j0, st) && GatesOn(c, j0, st) && Enabled(c, st, e)
    requires Calm(st) ==> OnWalk(c, j0, st)
    requires Shape(c, Next(c, st, e)) && (Calm(Next(c, st, e)) ==> OnWalk(c, j0, Next(c, st, e)))
    ensures GatesOn(c, j0, Next(c, st, e))
  {
    hide OnCell, JournalOk, JournalGrew, CellOk, PcShape, EffectOf, OnWalk;
    StructKept(c, j0, st, e);
    match e
    case Generation => GenerationGates(c, j0, st);
    case Advance(id, aborted) => AdvanceGates(c, j0, st, id, aborted);
    case _ => SignalGates(c, j0, st, Next(c, st, e));
  }

  lemma SignalGates(c: Config, j0: Journal, st: Walk, st': Walk)
    requires Shape(c, st) && GatesOn(c, j0, st) && Shape(c, st') && st'.cells == st.cells && st'.journal == st.journal
    ensures GatesOn(c, j0, st')
  {
    hide OnCell, PcShape;
    forall id <- c.doc | !st'.cells[id].Waiting? ensures AncestorsOn(c, st', id) {
      assert AncestorsOn(c, st, id);
    }
  }

  // Over a journal that can be replayed, whatever cuts the run.
  lemma {:induction false} RunGates(c: Config, j0: Journal, st: Walk, events: seq<Event>, st': Walk)
    requires Struct(c, j0, st) && Runs(c, st, events, st') && GatesOn(c, j0, st) && Replayable(c, j0)
    requires Calm(st) ==> OnOrOff(c, j0, st)
    ensures Shape(c, st') && GatesOn(c, j0, st')
    decreases |events|
  {
    hide Next, Enabled, OnWalk, JournalOk, JournalGrew, CellOk, PcShape, GatesOn, Replayable, Diverged;
    if events != [] {
      RunStep(c, j0, st, events[0]);
      GatesKept(c, j0, st, events[0]);
      RunGates(c, j0, Next(c, st, events[0]), events[1..], st');
    }
  }

  lemma StartGates(c: Config, j: Journal)
    requires WellFormed(c) && Shape(c, Start(c, j))
    ensures GatesOn(c, j, Start(c, j))
  {
    hide Meaning;
  }

  // The gates a first walk journaled are those its run reaches.
  lemma JournaledIsReached(c: Config, cut: seq<Event>, st: Walk, id: StepId)
    requires WellFormed(c) && Runs(c, Start(c, map[]), cut, st) && id in c.doc && c.doc[id].kind.Gate? && Journaled(st.journal, id)
    ensures Meaning(c, id).disp != Skipped
  {
    hide Meaning, Replayable, JournalOk, JournalGrew, Runs, PcShape, OnWalk, CellOk, GatesClear;
    BlankIsReplayable(c);
    StartOk(c, map[]);
    StartGates(c, map[]);
    RunGates(c, map[], Start(c, map[]), cut, st);
    assert GateOn(c, map[], st.journal, id, st.cells[id]);
  }

  /** When a resumed run throws, readable before resuming: cut a first walk anywhere, by a crash, a pause or a
      cancel; an undisturbed walk over its journal throws if and only if the journal holds a gate. */
  lemma ResumeThrowsIff(c: Config, cut: seq<Event>, st1: Walk, again: seq<Event>, st2: Walk)
    requires WellFormed(c) && Steady(c) && Runs(c, Start(c, map[]), cut, st1)
    requires Runs(c, Start(c, st1.journal), again, st2) && Done(c, st2) && Calm(st2)
    ensures st2.thrown <==> exists id <- c.doc :: c.doc[id].kind.Gate? && Journaled(st1.journal, id)
  {
    hide Meaning, Replayable, JournalOk, TrueJournal, Steady, Runs, Done, Journaled, NeverResumed;
    FirstJournal(c, cut, st1);
    ThrowsIff(c, st1.journal, again, st2);
    forall id <- c.doc | c.doc[id].kind.Gate? && Journaled(st1.journal, id) ensures Meaning(c, id).disp != Skipped {
      JournaledIsReached(c, cut, st1, id);
    }
  }
}
