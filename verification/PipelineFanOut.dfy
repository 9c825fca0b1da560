/** The walk with several iterations of a step in flight (core/src/pipelines/runner.ts).

A step's items are claimed in order from its pool, at most `limit` at a time; each claimed item is
a lane that runs its own loop passes and retries over its own journal slots.  The lanes share the
step's entry in the step outputs.  Every event carries the world it runs in and what it sees of the
outputs of other steps, so that any answer of the executor, of a template, of a condition or of a
gate is possible at every moment.  A step may begin as soon as its needs are settled, which allows
more than the runner's generations do.
*/
module PipelineFanOut {
  import opened Base
  import opened Pipeline
  import opened PipelineProofs
  import opened PipelineTheorems

  // An executable step that has begun: its items, the shared counter, the output its lanes share,
  // the lanes in flight and the results of the finished ones, by item.
  datatype Fan = Fan(items: seq<Option<Item>>, next: nat, own: Option<Value>, lanes: map<nat, Pc>, results: map<nat, bool>)

  datatype FanCell = Unbegun | Asking | Fanned(fan: Fan) | Closed(disp: Disposition) | Rejected

  // `verdicts` is what a step came to by itself, where no need blocked it.
  datatype FanWalk = FanWalk(journal: Journal, cells: map<StepId, FanCell>, verdicts: map<StepId, Disposition>,
                             paused: bool, cancelled: bool, aborting: bool)

  datatype FanEvent =
    | BeginStep(id: StepId, anc: Scope, world: World)                      // runStep up to its first await
    | Decide(id: StepId, world: World)                                     // the gate is answered
    | Claim(id: StepId)                                                    // a worker takes the next item
    | Run(id: StepId, item: nat, anc: Scope, world: World, aborted: bool)  // a lane runs to its next await
    | Close(id: StepId)                                                    // the pool is empty
    | Pause
    | Cancel(listening: bool)  // after a rejection the walk no longer listens

  function StartFans(c: Config, j: Journal): FanWalk {
    FanWalk(j, map id | id in c.doc :: Unbegun, map[], false, false, false)
  }

  function In(c: Config, world: World): Config { c.(world := world) }

  ghost predicate NeedsClosed(c: Config, w: FanWalk, id: StepId)
    requires id in c.doc
  {
    forall n <- c.doc[id].needs :: n in w.cells && w.cells[n].Closed?
  }

  ghost predicate FanEnabled(c: Config, limit: StepId -> nat, w: FanWalk, e: FanEvent) {
    match e
    case BeginStep(id, _, _) => id in c.doc && id in w.cells && w.cells[id].Unbegun? && NeedsClosed(c, w, id)
    case Decide(id, _) => id in w.cells && w.cells[id].Asking?
    case Claim(id) => id in w.cells && w.cells[id].Fanned? && w.cells[id].fan.next < |w.cells[id].fan.items| && |w.cells[id].fan.lanes| < limit(id)
    case Run(id, item, _, _, _) => id in w.cells && w.cells[id].Fanned? && item in w.cells[id].fan.lanes
    case Close(id) => id in w.cells && w.cells[id].Fanned? && w.cells[id].fan.next == |w.cells[id].fan.items| && w.cells[id].fan.lanes == map[]
    case _ => true
  }

  ghost function LaneRows(c: Config, j: Journal, id: StepId, pc: Pc): seq<Row>
    requires id in c.doc
  {
    Rows(j, id, CurrentSlot(c.doc[id], pc))
  }

  ghost predicate LaneShape(c: Config, j: Journal, id: StepId, items: seq<Option<Item>>, item: nat, pc: Pc) {
    && id in c.doc && (pc.AtSlot? || pc.InFlight? || pc.Backoff?) && pc.i == item < |items| && pc.items == items
    && PcShape(c.doc[id], pc, LaneRows(c, j, id, pc))
  }

  // The machine's own types: which cells a step can have, and where its lanes can be.
  ghost predicate CellShaped(c: Config, j: Journal, id: StepId, cell: FanCell)
    requires id in c.doc
  {
    && (cell.Fanned? ==> c.doc[id].kind.Work? && forall item <- cell.fan.lanes :: LaneShape(c, j, id, cell.fan.items, item, cell.fan.lanes[item]))
    && (cell.Asking? || cell.Rejected? ==> c.doc[id].kind.Gate?)
  }

  ghost predicate Shaped(c: Config, w: FanWalk) {
    && WellFormed(c) && w.cells.Keys == c.doc.Keys
    && (forall id <- c.doc :: CellShaped(c, w.journal, id, w.cells[id]))
    && (forall id <- c.doc | !w.cells[id].Unbegun? :: NeedsClosed(c, w, id))
  }

  ghost predicate FanBlocked(c: Config, w: FanWalk, id: StepId)
    requires Shaped(c, w) && id in c.doc
  {
    exists n <- c.doc[id].needs :: w.cells[n].Closed? && Blocks(c.doc[n], w.cells[n].disp)
  }

  // The lane after an effect: done when its item is.
  ghost function Moved(fan: Fan, item: nat, cell: Cell): Fan {
    if cell.Active? && (cell.pc.AtSlot? ==> cell.pc.i == item) then fan.(own := cell.own, lanes := fan.lanes[item := cell.pc])
    else fan.(own := Own(cell), lanes := fan.lanes - {item}, results := fan.results[item := cell.Active? && cell.pc.AtSlot? && cell.pc.allOk])
  }

  ghost predicate AllOk(results: map<nat, bool>) { forall item <- results :: results[item] }

  ghost function SetCell(w: FanWalk, id: StepId, cell: FanCell): FanWalk { w.(cells := w.cells[id := cell]) }

  ghost function Settle(w: FanWalk, id: StepId, d: Disposition): FanWalk {
    w.(cells := w.cells[id := Closed(d)], verdicts := w.verdicts[id := d])
  }

  ghost function Began(c: Config, w: FanWalk, id: StepId, blocked: bool, effect: Effect): FanWalk {
    match effect
    case Throw => SetCell(w, id, Rejected)
    case Effect(rows, cell) =>
      if !cell.Active? then if blocked then SetCell(w, id, Closed(Skipped)) else Settle(w, id, Skipped)
      else if cell.pc.AtSlot? then SetCell(w, id, Fanned(Fan(cell.pc.items, 0, None, map[], map[])))
      else SetCell(w, id, Asking).(journal := w.journal[(id, 0) := rows])
  }

  ghost function LaneEffect(c: Config, w: FanWalk, id: StepId, item: nat, anc: Scope, world: World, aborted: bool): Effect
    requires id in c.doc && id in w.cells && w.cells[id].Fanned? && item in w.cells[id].fan.lanes
    requires LaneShape(c, w.journal, id, w.cells[id].fan.items, item, w.cells[id].fan.lanes[item])
  {
    var fan := w.cells[id].fan;
    var pc := fan.lanes[item];
    StepEffect(In(c, world), id, false, anc, Active(pc, fan.own, []), LaneRows(c, w.journal, id, pc), w.paused, w.cancelled, aborted && w.aborting)
  }

  ghost function Advanced(c: Config, w: FanWalk, id: StepId, item: nat, effect: Effect): FanWalk
    requires id in c.doc && id in w.cells && w.cells[id].Fanned? && item in w.cells[id].fan.lanes
  {
    var fan := w.cells[id].fan;
    match effect
    case Throw => w
    case Effect(rows, cell) =>
      SetCell(w, id, Fanned(Moved(fan, item, cell))).(journal := w.journal[(id, CurrentSlot(c.doc[id], fan.lanes[item])) := rows])
  }

  ghost function FanNext(c: Config, limit: StepId -> nat, w: FanWalk, e: FanEvent): FanWalk
    requires Shaped(c, w) && FanEnabled(c, limit, w, e)
  {
    match e
    case Pause => w.(paused := true)
    case Cancel(listening) => w.(cancelled := w.cancelled || listening, aborting := true)
    case BeginStep(id, anc, world) =>
      var blocked := FanBlocked(c, w, id);
      Began(c, w, id, blocked, BeginEffect(In(c, world), id, blocked, anc, Active(Begin, None, []), Rows(w.journal, id, 0)))
    case Decide(id, world) =>
      var d := GateDisposition(world.gate(id), c.doc[id].kind.continueOnTimeout);
      var rows := Rows(w.journal, id, 0);
      Settle(w, id, d).(journal := if rows == [] then w.journal else w.journal[(id, 0) := Finished(rows, GateStatus(d), None)])
    case Claim(id) =>
      var fan := w.cells[id].fan;
      SetCell(w, id, Fanned(fan.(next := fan.next + 1, lanes := fan.lanes[fan.next := AtSlot(fan.items, fan.next, 0, true)])))
    case Run(id, item, anc, world, aborted) =>
      var fan := w.cells[id].fan;
      assert CellShaped(c, w.journal, id, w.cells[id]) && LaneShape(c, w.journal, id, fan.items, item, fan.lanes[item]);
      Advanced(c, w, id, item, LaneEffect(c, w, id, item, anc, world, aborted))
    case Close(id) => Settle(w, id, if AllOk(w.cells[id].fan.results) then Completed else Failed)
  }

  ghost predicate FanRuns(c: Config, limit: StepId -> nat, w: FanWalk, events: seq<FanEvent>, w': FanWalk)
    decreases |events|
  {
    if events == [] then w == w'
    else Shaped(c, w) && FanEnabled(c, limit, w, events[0]) && FanRuns(c, limit, FanNext(c, limit, w, events[0]), events[1..], w')
  }

  // ---- the journal invariant --------------------------------------------------------------------------------

  // What a lane knows of its item's slots since the walk began over j0.
  ghost predicate LaneOk(c: Config, j0: Journal, j: Journal, id: StepId, items: seq<Option<Item>>, item: nat, pc: Pc) {
    && LaneShape(c, j, id, items, item, pc) && c.doc[id].kind.Work?
    && Grown(c.doc[id], pc, LaneRows(c, j0, id, pc), LaneRows(c, j, id, pc))
    && SlotOk(c, id, pc, LaneRows(c, j, id, pc))
    && forall l: nat | l < MaxLoops(c.doc[id]) && Unvisited(pc, item, l) :: Untouched(c, j0, j, id, item, l)
  }

  ghost predicate Untouched(c: Config, j0: Journal, j: Journal, id: StepId, item: nat, l: nat)
    requires id in c.doc
  {
    Rows(j, id, SlotOf(c.doc[id], item, l)) == Rows(j0, id, SlotOf(c.doc[id], item, l))
  }

  ghost predicate FanOk(c: Config, limit: StepId -> nat, j0: Journal, j: Journal, id: StepId, fan: Fan) {
    && id in c.doc && c.doc[id].kind.Work? && fan.next <= |fan.items| && |fan.lanes| <= limit(id)
    && (forall item <- fan.lanes :: item < fan.next && LaneOk(c, j0, j, id, fan.items, item, fan.lanes[item]))
    && forall item: nat, l: nat | fan.next <= item && l < MaxLoops(c.doc[id]) :: Untouched(c, j0, j, id, item, l)
  }

  ghost predicate CellInv(c: Config, limit: StepId -> nat, j0: Journal, j: Journal, id: StepId, cell: FanCell)
    requires id in c.doc
  {
    && (cell.Fanned? ==> FanOk(c, limit, j0, j, id, cell.fan))
    && (cell.Unbegun? ==> forall slot: nat :: Rows(j, id, slot) == Rows(j0, id, slot))
  }

  ghost predicate Inv(c: Config, limit: StepId -> nat, j0: Journal, w: FanWalk) {
    && Shaped(c, w) && JournalOk(c, w.journal) && JournalGrew(c, j0, w.journal)
    && forall id <- c.doc :: CellInv(c, limit, j0, w.journal, id, w.cells[id])
  }

  // ---- one lane ---------------------------------------------------------------------------------------------

  // An effect keeps the lane on its item until the item is done.
  ghost predicate MovesOn(pc: Pc, e: Effect) {
    && e.Effect? && e.cell.Active? && (e.cell.pc.AtSlot? || e.cell.pc.InFlight? || e.cell.pc.Backoff?)
    && (pc.AtSlot? || pc.InFlight? || pc.Backoff?) && e.cell.pc.items == pc.items
    && (e.cell.pc.i == pc.i || (e.cell.pc.AtSlot? && e.cell.pc.i == pc.i + 1))
  }

  lemma EffectMoves(c: Config, id: StepId, anc: Scope, cell: Cell, rows: seq<Row>, paused: bool, cancelled: bool, aborted: bool)
    requires Ready1(c, id, cell, rows) && c.doc[id].kind.Work?
    requires (cell.pc.AtSlot? || cell.pc.InFlight? || cell.pc.Backoff?) && cell.pc.i < |cell.pc.items|
    ensures MovesOn(cell.pc, StepEffect(c, id, false, anc, cell, rows, paused, cancelled, aborted))
    ensures cell.pc.l >= MaxLoops(c.doc[id]) ==> StepEffect(c, id, false, anc, cell, rows, paused, cancelled, aborted).rows == rows
  {
    hide FindMemo, Latest;
    match cell.pc
    case AtSlot(_, _, _, _) =>
    case InFlight(_, _, _, _, _, _) =>
    case Backoff(_, _, _, _, _, _) =>
  }

  // All that one advance of a lane does to the rows of its slot and to its place.
  ghost predicate LaneAfter(c: Config, id: StepId, pc: Pc, rows0: seq<Row>, rows: seq<Row>, e: Effect)
    requires id in c.doc && c.doc[id].kind.Work?
  {
    && MovesOn(pc, e) && ShapeAfter(c.doc[id], pc, e) && GrownAfter(c.doc[id], pc, rows0, rows, e) && RowsAfter(c, id, rows0, e)
    && (pc.l >= MaxLoops(c.doc[id]) ==> e.rows == rows)
  }

  // None of this depends on the world.
  lemma AfterIn(c: Config, world: World, id: StepId, pc: Pc, rows0: seq<Row>, rows: seq<Row>, e: Effect)
    requires id in c.doc && c.doc[id].kind.Work? && LaneAfter(In(c, world), id, pc, rows0, rows, e)
    ensures LaneAfter(c, id, pc, rows0, rows, e)
  {
  }

  lemma LaneAdvances(c: Config, j0: Journal, j: Journal, id: StepId, items: seq<Option<Item>>, item: nat, pc: Pc, own: Option<Value>,
                     anc: Scope, world: World, paused: bool, cancelled: bool, aborted: bool)
    requires WellFormed(c) && LaneOk(c, j0, j, id, items, item, pc) && JournalGrew(c, j0, j)
    ensures var rows := LaneRows(c, j, id, pc);
      LaneAfter(c, id, pc, LaneRows(c, j0, id, pc), rows,
                StepEffect(In(c, world), id, false, anc, Active(pc, own, []), rows, paused, cancelled, aborted))
  {
    hide StepEffect, PcShape, Grown, Unvisited, GrownAfter, ShapeAfter, RowsOk, NoRerun, RowsAfter;
    var c' := In(c, world);
    var cell := Active(pc, own, []);
    var rows0, rows := LaneRows(c, j0, id, pc), LaneRows(c, j, id, pc);
    assert Extends(c, id, rows0, rows);
    EffectShape(c', id, false, anc, cell, rows, paused, cancelled, aborted);
    EffectRows(c', id, false, anc, cell, rows0, rows, paused, cancelled, aborted);
    EffectGrowth(c', id, false, anc, cell, rows0, rows, paused, cancelled, aborted);
    EffectMoves(c', id, anc, cell, rows, paused, cancelled, aborted);
    AfterIn(c, world, id, pc, rows0, rows, StepEffect(c', id, false, anc, cell, rows, paused, cancelled, aborted));
  }

  // ---- the journal after an advance ---------------------------------------------------------------------------

  // The journals of two moments agree but for one slot of one step.
  ghost predicate OnlyAt(j: Journal, j': Journal, id: StepId, at: nat, rows: seq<Row>) {
    forall x, slot: nat {:trigger Rows(j', x, slot)} :: Rows(j', x, slot) == if x == id && slot == at then rows else Rows(j, x, slot)
  }

  lemma WriteOnlyAt(j: Journal, id: StepId, at: nat, rows: seq<Row>)
    ensures OnlyAt(j, j[(id, at) := rows], id, at, rows)
  {
  }

  lemma JournalKept(c: Config, j0: Journal, j: Journal, j': Journal, id: StepId, at: nat, rows: seq<Row>)
    requires WellFormed(c) && id in c.doc && JournalOk(c, j) && JournalGrew(c, j0, j) && OnlyAt(j, j', id, at, rows)
    requires c.doc[id].kind.Work? ==> RowsOk(rows) && Extends(c, id, Rows(j0, id, at), rows)
    ensures JournalOk(c, j') && JournalGrew(c, j0, j')
  {
    hide RowsOk, Extends;
    forall x, slot: nat {:trigger Rows(j', x, slot)} | x in c.doc && c.doc[x].kind.Work?
      ensures RowsOk(Rows(j', x, slot)) && Extends(c, x, Rows(j0, x, slot), Rows(j', x, slot))
    {
      assert RowsOk(Rows(j, x, slot)) && Extends(c, x, Rows(j0, x, slot), Rows(j, x, slot));
    }
  }

  // Between slots a lane asks no more of its slot than the journal invariant gives.
  lemma AtSlotOk(c: Config, j: Journal, id: StepId, pc: Pc)
    requires id in c.doc && c.doc[id].kind.Work? && JournalOk(c, j) && pc.AtSlot?
    ensures SlotOk(c, id, pc, LaneRows(c, j, id, pc))
  {
    hide RowsOk;
    assert RowsOk(LaneRows(c, j, id, pc));
  }

  // The lane that moved, when it stays on its item.
  lemma LaneKept(c: Config, j0: Journal, j: Journal, j': Journal, id: StepId, items: seq<Option<Item>>, item: nat, pc: Pc, e: Effect)
    requires WellFormed(c) && LaneOk(c, j0, j, id, items, item, pc) && JournalOk(c, j')
    requires LaneAfter(c, id, pc, LaneRows(c, j0, id, pc), LaneRows(c, j, id, pc), e) && e.cell.pc.i == item
    requires OnlyAt(j, j', id, CurrentSlot(c.doc[id], pc), e.rows)
    ensures LaneOk(c, j0, j', id, items, item, e.cell.pc)
  {
    hide RowsOk, JournalOk, SlotOk;
    var step := c.doc[id];
    var pc' := e.cell.pc;
    forall l: nat | l < MaxLoops(step) && Unvisited(pc', item, l) ensures Untouched(c, j0, j', id, item, l) {
      assert Unvisited(pc, item, l) && Untouched(c, j0, j, id, item, l);
    }
    if pc'.AtSlot? {
      AtSlotOk(c, j', id, pc');
      assert pc'.l < MaxLoops(step) ==> Untouched(c, j0, j', id, item, pc'.l);
    }
  }

  // Another lane of the same step works on other slots.
  lemma OtherLaneKept(c: Config, j0: Journal, j: Journal, j': Journal, id: StepId, items: seq<Option<Item>>, item: nat, pc: Pc,
                      other: nat, pc2: Pc, rows: seq<Row>)
    requires WellFormed(c) && LaneOk(c, j0, j, id, items, item, pc) && LaneOk(c, j0, j, id, items, other, pc2) && item != other
    requires JournalOk(c, j') && OnlyAt(j, j', id, CurrentSlot(c.doc[id], pc), rows)
    requires pc.l >= MaxLoops(c.doc[id]) ==> rows == LaneRows(c, j, id, pc)
    ensures LaneOk(c, j0, j', id, items, other, pc2)
  {
    hide RowsOk, JournalOk, SlotOk, Grown;
    var step := c.doc[id];
    forall l: nat | l < MaxLoops(step) ensures Rows(j', id, SlotOf(step, other, l)) == Rows(j, id, SlotOf(step, other, l)) {
      SlotElsewhere(step, pc, other, l);
    }
    if pc2.AtSlot? {
      AtSlotOk(c, j', id, pc2);
      GrownPastEnd(step, pc2, LaneRows(c, j0, id, pc2), LaneRows(c, j', id, pc2));
    }
    forall l: nat | l < MaxLoops(step) && Unvisited(pc2, other, l) ensures Untouched(c, j0, j', id, other, l) {
      assert Untouched(c, j0, j, id, other, l);
    }
  }

  lemma SlotElsewhere(step: Step, pc: Pc, other: nat, l: nat)
    requires step.kind.Work? && MaxLoops(step) <= 1000 && (pc.AtSlot? || pc.InFlight? || pc.Backoff?) && pc.i != other && l < MaxLoops(step)
    ensures pc.l < MaxLoops(step) ==> SlotOf(step, other, l) != CurrentSlot(step, pc)
  {
    if pc.l < MaxLoops(step) && SlotOf(step, other, l) == CurrentSlot(step, pc) {
      SlotsDistinct(step, other, l, pc.i, pc.l);
    }
  }

  lemma GrownPastEnd(step: Step, pc: Pc, rows0: seq<Row>, rows: seq<Row>)
    requires step.kind.Work? && pc.AtSlot?
    ensures pc.l >= MaxLoops(step) ==> Grown(step, pc, rows0, rows)
  {
  }

  // ---- every event ---------------------------------------------------------------------------------------------

  lemma FanFrame(c: Config, limit: StepId -> nat, j0: Journal, j: Journal, j': Journal, id: StepId, fan: Fan)
    requires FanOk(c, limit, j0, j, id, fan)
    requires forall slot: nat {:trigger Rows(j', id, slot)} :: Rows(j', id, slot) == Rows(j, id, slot)
    ensures FanOk(c, limit, j0, j', id, fan)
  {
    hide SlotOk, Grown, PcShape, Unvisited;
    forall item <- fan.lanes ensures item < fan.next && LaneOk(c, j0, j', id, fan.items, item, fan.lanes[item]) {
      assert LaneOk(c, j0, j, id, fan.items, item, fan.lanes[item]);
      var pc := fan.lanes[item];
      assert LaneRows(c, j', id, pc) == LaneRows(c, j, id, pc);
      forall l: nat | l < MaxLoops(c.doc[id]) && Unvisited(pc, item, l) ensures Untouched(c, j0, j', id, item, l) {
        assert Untouched(c, j0, j, id, item, l);
      }
    }
    forall item: nat, l: nat | fan.next <= item && l < MaxLoops(c.doc[id]) ensures Untouched(c, j0, j', id, item, l) {
      assert Untouched(c, j0, j, id, item, l);
    }
  }

  lemma MovedKept(c: Config, limit: StepId -> nat, j0: Journal, j: Journal, j': Journal, id: StepId, fan: Fan, item: nat, e: Effect)
    requires WellFormed(c) && FanOk(c, limit, j0, j, id, fan) && item in fan.lanes && JournalOk(c, j')
    requires var pc := fan.lanes[item];
      LaneAfter(c, id, pc, LaneRows(c, j0, id, pc), LaneRows(c, j, id, pc), e) && OnlyAt(j, j', id, CurrentSlot(c.doc[id], pc), e.rows)
    ensures FanOk(c, limit, j0, j', id, Moved(fan, item, e.cell))
  {
    hide SlotOk, Grown, PcShape, Unvisited, JournalOk, GrownAfter, ShapeAfter, LaneOk, OnlyAt;
    var pc := fan.lanes[item];
    var moved := Moved(fan, item, e.cell);
    assert LaneOk(c, j0, j, id, fan.items, item, pc);
    LanePlaced(c, j0, j, id, fan.items, item, pc);
    forall other <- moved.lanes ensures other < moved.next && LaneOk(c, j0, j', id, moved.items, other, moved.lanes[other]) {
      if other == item {
        LaneKept(c, j0, j, j', id, fan.items, item, pc, e);
      } else {
        OtherLaneKept(c, j0, j, j', id, fan.items, item, pc, other, fan.lanes[other], e.rows);
      }
    }
    forall other: nat, l: nat | moved.next <= other && l < MaxLoops(c.doc[id]) ensures Untouched(c, j0, j', id, other, l) {
      assert Untouched(c, j0, j, id, other, l);
      SlotElsewhere(c.doc[id], pc, other, l);
      RowsElsewhere(c, j, j', id, pc, SlotOf(c.doc[id], other, l), e.rows);
    }
    LanesCount(fan.lanes, moved.lanes, item);
  }

  lemma LanesCount(a: map<nat, Pc>, b: map<nat, Pc>, item: nat)
    requires item in a && (b.Keys == a.Keys || b.Keys == a.Keys - {item})
    ensures |b| <= |a|
  {
    assert |a| == |a.Keys| && |b| == |b.Keys|;
  }

  lemma LanePlaced(c: Config, j0: Journal, j: Journal, id: StepId, items: seq<Option<Item>>, item: nat, pc: Pc)
    requires LaneOk(c, j0, j, id, items, item, pc)
    ensures (pc.AtSlot? || pc.InFlight? || pc.Backoff?) && pc.i == item && id in c.doc && c.doc[id].kind.Work?
  {
  }

  lemma RowsElsewhere(c: Config, j: Journal, j': Journal, id: StepId, pc: Pc, slot: nat, rows: seq<Row>)
    requires id in c.doc && OnlyAt(j, j', id, CurrentSlot(c.doc[id], pc), rows)
    ensures slot != CurrentSlot(c.doc[id], pc) || rows == LaneRows(c, j, id, pc) ==> Rows(j', id, slot) == Rows(j, id, slot)
  {
  }
}
