/** How often the executor runs: the exact number of journal rows an undisturbed walk adds. */
module PipelineAttempts {
  import opened Base
  import opened Pipeline
  import opened PipelineProofs
  import opened PipelineTheorems
  import opened PipelineRuns

  // The rows a visit takes in a slot that held rows0: one where the journal answers, otherwise one
  // for every try up to the one the retry loop stops at.
  function Attempts(c: Config, id: StepId, rows0: seq<Row>, v: Visit): nat
    requires id in c.doc && c.doc[id].kind.Work?
  {
    if id !in c.drifted && FindMemo(rows0, v.input).Some? then 1 else LastTry(c, id, v.slot, v.input, 1)
  }

  ghost predicate Placed(pc: Pc) { pc.AtSlot? || pc.InFlight? || pc.Backoff? }

  // The step has moved past position (i, l).
  ghost predicate Past(pc: Pc, i: nat, l: nat) {
    Placed(pc) && (i < pc.i || (i == pc.i && l < pc.l))
  }

  ghost predicate Passed(step: Step, pc: Pc, slot: nat)
    requires step.kind.Work?
  {
    exists i: nat, l: nat :: Past(pc, i, l) && l < MaxLoops(step) && slot == SlotOf(step, i, l)
  }

  ghost predicate Flying(step: Step, cell: Cell, slot: nat) {
    cell.Active? && (cell.pc.InFlight? || cell.pc.Backoff?) && slot == CurrentSlot(step, cell.pc)
  }

  ghost predicate FlyingRows(step: Step, cell: Cell, rows0: seq<Row>, rows: seq<Row>) {
    cell.Active? && (cell.pc.InFlight? || cell.pc.Backoff?) ==> NewRows(rows0, rows, cell.pc.input)
  }

  ghost predicate Visited(trace: seq<Visit>, slot: nat) {
    exists k :: 0 <= k < |trace| && trace[k].slot == slot
  }

  ghost predicate Counted(c: Config, id: StepId, j0: Journal, j: Journal, v: Visit)
    requires id in c.doc && c.doc[id].kind.Work?
  {
    var rows := Rows(j, id, v.slot);
    |rows| == |Rows(j0, id, v.slot)| + Attempts(c, id, Rows(j0, id, v.slot), v) && Landed(Rows(j0, id, v.slot), rows, v)
  }

  // The new rows of a slot are all of one input.
  ghost predicate NewRows(rows0: seq<Row>, rows: seq<Row>, input: Input) {
    rows0 <= rows && forall k | |rows0| <= k < |rows| :: rows[k].input == input
  }

  // The new rows of a visited slot are the visit's, and a success shows in the newest.
  ghost predicate Landed(rows0: seq<Row>, rows: seq<Row>, v: Visit) {
    rows != [] && NewRows(rows0, rows, v.input) && (v.ok ==> Hit(rows[|rows| - 1], v.input))
  }

  ghost predicate Tally(c: Config, j0: Journal, j: Journal, id: StepId, cell: Cell)
    requires id in c.doc && c.doc[id].kind.Work?
  {
    var step := c.doc[id];
    && (forall k | 0 <= k < |Trace(cell)| :: Counted(c, id, j0, j, Trace(cell)[k]))
    && (cell.Active? ==> FlyingRows(step, cell, Rows(j0, id, CurrentSlot(step, cell.pc)), Rows(j, id, CurrentSlot(step, cell.pc))))
    && (cell.Active? ==> OnTry(c, id, cell.pc) && forall k | 0 <= k < |cell.trace| :: Passed(step, cell.pc, cell.trace[k].slot))
    && (forall slot: nat {:trigger Rows(j, id, slot)} :: Visited(Trace(cell), slot) || Flying(step, cell, slot) || Rows(j, id, slot) == Rows(j0, id, slot))
  }

  // ---- one advance ------------------------------------------------------------------------------------

  // What an advance does to the count: it may add one visit of the current slot, with its rows
  // complete, and otherwise changes rows only while the slot stays in flight.
  ghost predicate TallyAfter(c: Config, id: StepId, cell: Cell, rows0: seq<Row>, rows: seq<Row>, e: Effect)
    requires id in c.doc && c.doc[id].kind.Work? && cell.Active?
  {
    e.Effect? ==>
      && !e.cell.Waiting? && !e.cell.Refused?
      && (e.cell.Active? ==> OnTry(c, id, e.cell.pc) && !e.cell.pc.Begin? && forall i: nat, l: nat :: Past(cell.pc, i, l) ==> Past(e.cell.pc, i, l))
      && (Still(c, id, cell, rows0, rows, e) || Visits(c, id, cell, rows0, e))
  }

  ghost predicate Still(c: Config, id: StepId, cell: Cell, rows0: seq<Row>, rows: seq<Row>, e: Effect)
    requires id in c.doc && cell.Active? && e.Effect? && !e.cell.Waiting? && !e.cell.Refused?
  {
    var slot := CurrentSlot(c.doc[id], cell.pc);
    && e.cell.trace == cell.trace
    && (e.rows == rows || Flying(c.doc[id], e.cell, slot))
    && (Flying(c.doc[id], cell, slot) ==> Flying(c.doc[id], e.cell, slot))
    && FlyingRows(c.doc[id], e.cell, rows0, e.rows)
  }

  ghost predicate Visits(c: Config, id: StepId, cell: Cell, rows0: seq<Row>, e: Effect)
    requires id in c.doc && c.doc[id].kind.Work? && cell.Active? && e.Effect? && !e.cell.Waiting? && !e.cell.Refused?
  {
    && |e.cell.trace| == |cell.trace| + 1 && e.cell.trace[..|cell.trace|] == cell.trace
    && var v := e.cell.trace[|cell.trace|];
       && v.slot == CurrentSlot(c.doc[id], cell.pc)
       && |e.rows| == |rows0| + Attempts(c, id, rows0, v) && Landed(rows0, e.rows, v)
       && Placed(cell.pc) && cell.pc.l < MaxLoops(c.doc[id])
       && e.cell.Active? && e.cell.pc.AtSlot? && Past(e.cell.pc, cell.pc.i, cell.pc.l)
  }

  lemma EffectTally(c: Config, id: StepId, blocked: bool, anc: Scope, cell: Cell, rows0: seq<Row>, rows: seq<Row>)
    requires Ready1(c, id, cell, rows) && c.doc[id].kind.Work? && Grown(c.doc[id], cell.pc, rows0, rows) && OnTry(c, id, cell.pc)
    requires FlyingRows(c.doc[id], cell, rows0, rows)
    requires SlotOk(c, id, cell.pc, rows)
    ensures TallyAfter(c, id, cell, rows0, rows, StepEffect(c, id, blocked, anc, cell, rows, false, false, false))
  {
    hide Latest, RowsOk, NoHit, FindMemo, LastTry;
    match cell.pc
    case Begin =>
    case AtGate =>
    case AtSlot(_, _, _, _) => SlotTally(c, id, anc, cell, rows0, rows);
    case InFlight(_, _, _, _, _, _) => ResultTally(c, id, anc, cell, rows0, rows);
    case Backoff(_, _, _, _, _, _) =>
  }

  lemma SlotTally(c: Config, id: StepId, anc: Scope, cell: Cell, rows0: seq<Row>, rows: seq<Row>)
    requires Ready1(c, id, cell, rows) && cell.pc.AtSlot? && Grown(c.doc[id], cell.pc, rows0, rows)
    ensures TallyAfter(c, id, cell, rows0, rows, SlotEffect(c, id, anc, cell, rows, false))
  {
    hide Latest, FindMemo;
  }

  lemma ResultTally(c: Config, id: StepId, anc: Scope, cell: Cell, rows0: seq<Row>, rows: seq<Row>)
    requires Ready1(c, id, cell, rows) && cell.pc.InFlight? && Grown(c.doc[id], cell.pc, rows0, rows) && OnTry(c, id, cell.pc)
    requires FlyingRows(c.doc[id], cell, rows0, rows)
    requires SlotOk(c, id, cell.pc, rows)
    ensures TallyAfter(c, id, cell, rows0, rows, ResultEffect(c, id, anc, cell, rows, false, false))
  {
    hide Latest, RowsOk, FindMemo;
    var InFlight(items, i, l, allOk, input, tries) := cell.pc;
    if id !in c.drifted {
      assert FindMemo(rows0, input).None? by {
        assert forall k | 0 <= k < |rows0| :: rows0[k] == rows[k];
      }
    }
  }

  // ---- every event --------------------------------------------------------------------------------------

  ghost predicate Tallied(c: Config, j0: Journal, st: Walk)
    requires Shape(c, st)
  {
    forall id <- c.doc | c.doc[id].kind.Work? :: Tally(c, j0, st.journal, id, st.cells[id])
  }

  lemma PassedIsElsewhere(step: Step, pc: Pc, slot: nat)
    requires step.kind.Work? && MaxLoops(step) <= 1000 && Passed(step, pc, slot) && pc.l < MaxLoops(step)
    ensures slot != CurrentSlot(step, pc)
  {
    var i: nat, l: nat :| Past(pc, i, l) && l < MaxLoops(step) && slot == SlotOf(step, i, l);
    if slot == CurrentSlot(step, pc) {
      SlotsDistinct(step, i, l, pc.i, pc.l);
    }
  }

  lemma PassedStill(step: Step, pc: Pc, pc': Pc, slot: nat)
    requires step.kind.Work? && Passed(step, pc, slot) && forall i: nat, l: nat :: Past(pc, i, l) ==> Past(pc', i, l)
    ensures Passed(step, pc', slot)
  {
    var i: nat, l: nat :| Past(pc, i, l) && l < MaxLoops(step) && slot == SlotOf(step, i, l);
    assert Past(pc', i, l);
  }

  // The journals of two moments differ at one slot of the step only.
  ghost predicate OnlyAt(j: Journal, j': Journal, id: StepId, at: nat, rows: seq<Row>) {
    forall slot: nat {:trigger Rows(j', id, slot)} :: Rows(j', id, slot) == if slot == at then rows else Rows(j, id, slot)
  }

  lemma StillTally(c: Config, j0: Journal, j: Journal, j': Journal, id: StepId, cell: Cell, e: Effect)
    requires WellFormed(c) && id in c.doc && c.doc[id].kind.Work? && cell.Active? && e.Effect?
    requires var at := CurrentSlot(c.doc[id], cell.pc);
      && Tally(c, j0, j, id, cell) && OnlyAt(j, j', id, at, e.rows)
      && TallyAfter(c, id, cell, Rows(j0, id, at), Rows(j, id, at), e)
      && ShapeAfter(c.doc[id], cell.pc, e) && Still(c, id, cell, Rows(j0, id, at), Rows(j, id, at), e)
    ensures Tally(c, j0, j', id, e.cell)
  {
    hide OnTry, Passed, Past, Attempts, Visits;
    var step := c.doc[id];
    var at := CurrentSlot(step, cell.pc);
    forall k | 0 <= k < |cell.trace| && e.cell.Active? ensures Passed(step, e.cell.pc, cell.trace[k].slot) {
      PassedStill(step, cell.pc, e.cell.pc, cell.trace[k].slot);
    }
    forall k | 0 <= k < |cell.trace| ensures Counted(c, id, j0, j', cell.trace[k]) {
      assert Counted(c, id, j0, j, cell.trace[k]);
      if e.rows != Rows(j, id, at) {
        PassedIsElsewhere(step, e.cell.pc, cell.trace[k].slot);
      }
    }
    forall slot: nat {:trigger Rows(j', id, slot)}
      ensures Visited(Trace(e.cell), slot) || Flying(step, e.cell, slot) || Rows(j', id, slot) == Rows(j0, id, slot)
    {
      assert Visited(Trace(cell), slot) || Flying(step, cell, slot) || Rows(j, id, slot) == Rows(j0, id, slot);
    }
  }

  lemma VisitsTally(c: Config, j0: Journal, j: Journal, j': Journal, id: StepId, cell: Cell, e: Effect)
    requires WellFormed(c) && id in c.doc && c.doc[id].kind.Work? && cell.Active? && e.Effect?
    requires var at := CurrentSlot(c.doc[id], cell.pc);
      && Tally(c, j0, j, id, cell) && OnlyAt(j, j', id, at, e.rows)
      && TallyAfter(c, id, cell, Rows(j0, id, at), Rows(j, id, at), e) && Visits(c, id, cell, Rows(j0, id, at), e)
    ensures Tally(c, j0, j', id, e.cell)
  {
    hide OnTry, Passed, Past, Attempts, Still;
    var step := c.doc[id];
    var at := CurrentSlot(step, cell.pc);
    var n := |cell.trace|;
    var trace := e.cell.trace;
    forall k | 0 <= k < |trace| ensures Passed(step, e.cell.pc, trace[k].slot) && Counted(c, id, j0, j', trace[k]) {
      if k < n {
        assert trace[k] == trace[..n][k] == cell.trace[k];
        assert Counted(c, id, j0, j, cell.trace[k]);
        PassedStill(step, cell.pc, e.cell.pc, cell.trace[k].slot);
        PassedIsElsewhere(step, cell.pc, cell.trace[k].slot);
      } else {
        NowPassed(step, cell.pc, e.cell.pc);
      }
    }
    forall slot: nat {:trigger Rows(j', id, slot)}
      ensures Visited(trace, slot) || Flying(step, e.cell, slot) || Rows(j', id, slot) == Rows(j0, id, slot)
    {
      assert Visited(Trace(cell), slot) || Flying(step, cell, slot) || Rows(j, id, slot) == Rows(j0, id, slot);
      if k :| 0 <= k < n && cell.trace[k].slot == slot {
        assert trace[k] == trace[..n][k];
      }
      assert trace[n].slot == at;
    }
  }

  lemma NowPassed(step: Step, pc: Pc, pc': Pc)
    requires step.kind.Work? && Placed(pc) && pc.l < MaxLoops(step) && Past(pc', pc.i, pc.l)
    ensures Passed(step, pc', CurrentSlot(step, pc))
  {
  }

  lemma OtherTally(c: Config, j0: Journal, j: Journal, j': Journal, id: StepId, cell: Cell)
    requires id in c.doc && c.doc[id].kind.Work? && Tally(c, j0, j, id, cell)
    requires forall slot: nat {:trigger Rows(j', id, slot)} :: Rows(j', id, slot) == Rows(j, id, slot)
    ensures Tally(c, j0, j', id, cell)
  {
    hide OnTry, Passed, Attempts, Flying, Visited;
    forall k | 0 <= k < |Trace(cell)| ensures Counted(c, id, j0, j', Trace(cell)[k]) {
      assert Counted(c, id, j0, j, Trace(cell)[k]);
    }
    forall slot: nat {:trigger Rows(j', id, slot)}
      ensures Visited(Trace(cell), slot) || Flying(c.doc[id], cell, slot) || Rows(j', id, slot) == Rows(j0, id, slot)
    {
      assert Rows(j, id, slot) == Rows(j', id, slot);
    }
  }

  lemma AdvanceTally(c: Config, j0: Journal, st: Walk, id: StepId, aborted: bool)
    requires Struct(c, j0, st) && Calm(st) && Tallied(c, j0, st) && Enabled(c, st, Advance(id, aborted))
    requires EffectOf(c, st, id, aborted).Effect? && c.doc[id].kind.Work?
    ensures Tally(c, j0, Next(c, st, Advance(id, aborted)).journal, id, Next(c, st, Advance(id, aborted)).cells[id])
  {
    hide StepEffect, RowsOk, SlotOk, PcShape, JournalOk, JournalGrew, AncestorScope, SkipByUpstream, Tally, TallyAfter, Still, Visits,
      ShapeAfter, GrownAfter, Grown, Unvisited, OnTry;
    var cell := st.cells[id];
    var at := CurrentSlot(c.doc[id], cell.pc);
    var rows := CurrentRows(c, st, id);
    var e := EffectOf(c, st, id, aborted);
    AdvanceFacts(c, j0, st, id, aborted);
    assert CellOk(c, j0, st.journal, id, cell);
    TallyOnTry(c, j0, st.journal, id, cell);
    EffectTally(c, id, SkipByUpstream(c, st, id), AncestorScope(c, st, id), cell, Rows(j0, id, at), rows);
    var j' := Next(c, st, Advance(id, aborted)).journal;
    forall slot: nat {:trigger Rows(j', id, slot)} ensures Rows(j', id, slot) == if slot == at then e.rows else Rows(st.journal, id, slot) {
      RowsAfterPut(st, id, at, e.rows, e.cell, id, slot);
    }
    TallyMoves(c, j0, st.journal, j', id, cell, e);
  }

  lemma TallyOnTry(c: Config, j0: Journal, j: Journal, id: StepId, cell: Cell)
    requires id in c.doc && c.doc[id].kind.Work? && cell.Active? && Tally(c, j0, j, id, cell)
    ensures OnTry(c, id, cell.pc)
    ensures FlyingRows(c.doc[id], cell, Rows(j0, id, CurrentSlot(c.doc[id], cell.pc)), Rows(j, id, CurrentSlot(c.doc[id], cell.pc)))
  {
  }

  lemma TallyMoves(c: Config, j0: Journal, j: Journal, j': Journal, id: StepId, cell: Cell, e: Effect)
    requires WellFormed(c) && id in c.doc && c.doc[id].kind.Work? && cell.Active? && e.Effect?
    requires var at := CurrentSlot(c.doc[id], cell.pc);
      && Tally(c, j0, j, id, cell) && OnlyAt(j, j', id, at, e.rows)
      && TallyAfter(c, id, cell, Rows(j0, id, at), Rows(j, id, at), e)
      && ShapeAfter(c.doc[id], cell.pc, e)
    ensures Tally(c, j0, j', id, e.cell)
  {
    hide Tally, OnlyAt, ShapeAfter, Still, Visits, OnTry, Past;
    if Still(c, id, cell, Rows(j0, id, CurrentSlot(c.doc[id], cell.pc)), Rows(j, id, CurrentSlot(c.doc[id], cell.pc)), e) {
      StillTally(c, j0, j, j', id, cell, e);
    } else {
      VisitsTally(c, j0, j, j', id, cell, e);
    }
  }

  lemma TallyKept(c: Config, j0: Journal, st: Walk, e: Event)
    requires Struct(c, j0, st) && Tallied(c, j0, st) && Enabled(c, st, e) && Calm(st) && Calm(Next(c, st, e))
    requires Shape(c, Next(c, st, e))
    ensures Tallied(c, j0, Next(c, st, e))
  {
    hide StepEffect, PcShape, JournalOk, JournalGrew, AncestorScope, SkipByUpstream, Tally, CellOk;
    var st' := Next(c, st, e);
    forall id <- c.doc | c.doc[id].kind.Work? ensures Tally(c, j0, st'.journal, id, st'.cells[id]) {
      assert Tally(c, j0, st.journal, id, st.cells[id]);
      if e.Advance? && e.id == id {
        AdvanceFacts(c, j0, st, id, e.aborted);
        AdvanceTally(c, j0, st, id, e.aborted);
      } else {
        if e.Advance? {
          OthersRows(c, st, e.id, e.aborted, id);
        }
        OtherTally(c, j0, st.journal, st'.journal, id, st.cells[id]);
        if st'.cells[id] != st.cells[id] {
          ClaimTally(c, j0, st'.journal, id);
        }
      }
    }
  }

  lemma OthersRows(c: Config, st: Walk, id: StepId, aborted: bool, x: StepId)
    requires Shape(c, st) && Enabled(c, st, Advance(id, aborted)) && x != id
    ensures var j' := Next(c, st, Advance(id, aborted)).journal;
      forall slot: nat {:trigger Rows(j', x, slot)} :: Rows(j', x, slot) == Rows(st.journal, x, slot)
  {
    hide EffectOf;
    var e := EffectOf(c, st, id, aborted);
    if e.Effect? {
      forall slot: nat ensures Rows(Next(c, st, Advance(id, aborted)).journal, x, slot) == Rows(st.journal, x, slot) {
        RowsAfterPut(st, id, CurrentSlot(c.doc[id], st.cells[id].pc), e.rows, e.cell, x, slot);
      }
    }
  }

  lemma ClaimTally(c: Config, j0: Journal, j: Journal, id: StepId)
    requires id in c.doc && c.doc[id].kind.Work? && Tally(c, j0, j, id, Waiting)
    ensures Tally(c, j0, j, id, Active(Begin, None, []))
  {
  }

  lemma TallyStart(c: Config, j: Journal)
    requires WellFormed(c) && Shape(c, Start(c, j))
    ensures Tallied(c, j, Start(c, j))
  {
  }

  lemma {:induction false} RunTallies(c: Config, j0: Journal, st: Walk, events: seq<Event>, st': Walk)
    requires Struct(c, j0, st) && Runs(c, st, events, st') && Calm(st') && Tallied(c, j0, st)
    ensures Calm(st) && Shape(c, st') && Tallied(c, j0, st')
    decreases |events|
  {
    hide Tallied, EffectOf, JournalOk, JournalGrew, CellOk, PcShape, Next, Enabled, NeedsSettled;
    if events != [] {
      var next := Next(c, st, events[0]);
      StructKept(c, j0, st, events[0]);
      CalmBefore(c, next, events[1..], st');
      CalmBefore(c, st, events, st');
      TallyKept(c, j0, st, events[0]);
      RunTallies(c, j0, next, events[1..], st');
    }
  }

  // A signal, once given, stays.
  lemma {:induction false} CalmBefore(c: Config, st: Walk, events: seq<Event>, st': Walk)
    requires Runs(c, st, events, st') && Calm(st')
    ensures Calm(st)
    decreases |events|
  {
    hide Shape, EffectOf;
    if events != [] {
      CalmBefore(c, Next(c, st, events[0]), events[1..], st');
    }
  }

  /** The exact cost of an undisturbed walk, whatever the interleaving and whatever the executor answers
      at each try.  A slot of the meaning that the journal answers gained one row, any other one row
      for every try up to the first success, the first failure that may not be retried, or the
      last try; no other slot of an executable step gained any. */
  lemma ExactAttempts(c: Config, j: Journal, events: seq<Event>, st: Walk, id: StepId, slot: nat)
    requires WellFormed(c) && JournalOk(c, j) && Replayable(c, j) && GatesClear(c, j) && id in c.doc && c.doc[id].kind.Work?
    requires Runs(c, Start(c, j), events, st) && Done(c, st) && Calm(st)
    ensures forall v <- Meaning(c, id).visits :: Counted(c, id, j, st.journal, v)
    ensures (forall v <- Meaning(c, id).visits :: v.slot != slot) ==> Rows(st.journal, id, slot) == Rows(j, id, slot)
  {
    hide Meaning, Replayable, JournalOk, JournalGrew, Ready, Shape, Runs, OnTry, Attempts, Struct, OnWalk, CellOk, GatesClear, Counted;
    StartOk(c, j);
    WalkMeaning(c, j, events, st);
    TallyStart(c, j);
    RunTallies(c, j, Start(c, j), events, st);
    var visits := Meaning(c, id).visits;
    assert Tally(c, j, st.journal, id, st.cells[id]) && Trace(st.cells[id]) == visits;
    forall v | v in visits ensures Counted(c, id, j, st.journal, v) {
      var k :| 0 <= k < |visits| && visits[k] == v;
      assert Counted(c, id, j, st.journal, visits[k]);
    }
    assert Visited(visits, slot) || Rows(st.journal, id, slot) == Rows(j, id, slot);
  }
}
