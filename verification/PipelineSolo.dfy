/** Runs of documents that consist of one step without needs, event by event. */
module PipelineSolo {
  import opened Base
  import opened Pipeline
  import opened PipelineProofs
  import opened PipelineTheorems
  import opened PipelineRuns

  const ADVANCE: Event := Advance("a", false)

  ghost predicate IsSolo(c: Config, step: Step) {
    && c.doc == map["a" := step] && c.rank == map["a" := 0] && c.drifted == {} && step.needs == []
    && (step.kind.Work? && step.kind.loop.Some? ==> step.kind.loop.value <= 1000)
  }

  ghost function At(j: Journal, cell: Cell): Walk { Walk(j, map["a" := cell], false, false, false, false) }

  // The journal with these rows in the step's slot.
  ghost function With(j: Journal, rows: seq<Row>): Journal {
    if rows == Rows(j, "a", 0) then j else j[("a", 0) := rows]
  }

  lemma SoloFormed(c: Config, step: Step, j: Journal)
    requires IsSolo(c, step)
    ensures WellFormed(c) && Start(c, j) == At(j, Waiting) && Ancestors(c, "a") == {} && Known(c, "a") == map[]
  {
    hide Meaning;
    assert WellFormed(c);
    assert Ancestors(c, "a") == {};
    assert Known(c, "a") == map[];
  }

  lemma SoloShape(c: Config, step: Step, j: Journal, cell: Cell)
    requires IsSolo(c, step)
    requires cell.Active? ==> PcShape(step, cell.pc, Rows(j, "a", CurrentSlot(step, cell.pc)))
    ensures WellFormed(c) && Shape(c, At(j, cell))
  {
    hide PcShape, Ancestors;
    SoloFormed(c, step, j);
  }

  lemma SoloGeneration(c: Config, step: Step, j: Journal)
    requires IsSolo(c, step)
    ensures Shape(c, At(j, Waiting)) && Enabled(c, At(j, Waiting), Generation)
    ensures Next(c, At(j, Waiting), Generation) == At(j, Active(Begin, None, []))
  {
    hide Ancestors, EffectOf, Shape;
    SoloShape(c, step, j, Waiting);
    SoloReady(c, step, j);
    var st := Next(c, At(j, Waiting), Generation);
    assert st.cells == map["a" := Active(Begin, None, [])];
  }

  lemma SoloReady(c: Config, step: Step, j: Journal)
    requires IsSolo(c, step)
    ensures At(j, Waiting).cells.Keys == c.doc.Keys && Ready(c, At(j, Waiting)) == {"a"}
  {
  }

  // What the machine does on the step's next advance.
  ghost function SoloEffect(c: Config, step: Step, j: Journal, cell: Cell): Effect
    requires IsSolo(c, step) && cell.Active? && PcShape(step, cell.pc, Rows(j, "a", CurrentSlot(step, cell.pc)))
  {
    StepEffect(c, "a", false, map[], cell, Rows(j, "a", CurrentSlot(step, cell.pc)), false, false, false)
  }

  lemma SoloAdvance(c: Config, step: Step, j: Journal, cell: Cell)
    requires IsSolo(c, step) && cell.Active? && PcShape(step, cell.pc, Rows(j, "a", CurrentSlot(step, cell.pc)))
    ensures Shape(c, At(j, cell)) && Enabled(c, At(j, cell), ADVANCE)
    ensures EffectOf(c, At(j, cell), "a", false) == SoloEffect(c, step, j, cell)
  {
    hide StepEffect, PcShape, Ancestors, WellFormed;
    SoloFormed(c, step, j);
    SoloShape(c, step, j, cell);
    var st := At(j, cell);
    assert AncestorScope(c, st, "a") == map[];
    assert !SkipByUpstream(c, st, "a");
  }

  // The step moves on, writing to its slot 0.
  lemma SoloMoves(c: Config, step: Step, j: Journal, cell: Cell, e: Effect)
    requires IsSolo(c, step) && cell.Active? && PcShape(step, cell.pc, Rows(j, "a", CurrentSlot(step, cell.pc)))
    requires SoloEffect(c, step, j, cell) == e && e.Effect?
    requires CurrentSlot(step, cell.pc) == 0 || e.rows == Rows(j, "a", CurrentSlot(step, cell.pc))
    ensures Shape(c, At(j, cell)) && Enabled(c, At(j, cell), ADVANCE)
    ensures Next(c, At(j, cell), ADVANCE) == At(if CurrentSlot(step, cell.pc) == 0 then With(j, e.rows) else j, e.cell)
  {
    hide SoloEffect, EffectOf, PcShape, Shape, Enabled;
    SoloAdvance(c, step, j, cell);
    var st := At(j, cell);
    assert st.cells["a" := e.cell] == map["a" := e.cell];
  }

  lemma SoloThrows(c: Config, step: Step, j: Journal, cell: Cell)
    requires IsSolo(c, step) && cell.Active? && PcShape(step, cell.pc, Rows(j, "a", CurrentSlot(step, cell.pc)))
    requires SoloEffect(c, step, j, cell).Throw?
    ensures Shape(c, At(j, cell)) && Enabled(c, At(j, cell), ADVANCE)
    ensures Next(c, At(j, cell), ADVANCE) == At(j, Refused).(thrown := true)
  {
    hide SoloEffect, EffectOf, PcShape, Shape, Enabled;
    SoloAdvance(c, step, j, cell);
    var st := At(j, cell);
    assert st.cells["a" := Refused] == map["a" := Refused];
  }
}
