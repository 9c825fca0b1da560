/** What the results of a fanned-out step say about the journal, with any number of lanes in flight. */
module PipelineFanResults {
  import opened Base
  import opened Pipeline
  import opened PipelineProofs
  import opened PipelineTheorems
  import opened PipelineProgress
  import opened PipelineFanOut
  import opened PipelineFanSafety
  import opened PipelineFanDag
  import F = PipelineFanSkips

  // ---- one advance of a lane ------------------------------------------------------------------------------------

  ghost predicate Leaves(pc: Pc, pc': Pc) { pc'.AtSlot? && (pc.AtSlot? || pc.InFlight? || pc.Backoff?) && pc'.i == pc.i + 1 }

  /** What one advance of a lane does to its step: the lane's effect decides the shared output; a lane that stays on
      its item keeps its place in the pool; one that leaves it is gone and has left its verdict as the item's result. */
  lemma LaneMoves(c: Config, limit: StepId -> nat, w: FanWalk, id: StepId, item: nat, anc: Scope, world: World, aborted: bool)
    requires Shaped(c, w) && FanEnabled(c, limit, w, FanEvent.Run(id, item, anc, world, aborted))
    ensures id in c.doc && LaneShape(c, w.journal, id, w.cells[id].fan.items, item, w.cells[id].fan.lanes[item])
    ensures var w' := FanNext(c, limit, w, FanEvent.Run(id, item, anc, world, aborted));
      var (fan, pc) := (w.cells[id].fan, w.cells[id].fan.lanes[item]);
      var e := LaneEffect(c, w, id, item, anc, world, aborted);
      && e == StepEffect(In(c, world), id, false, anc, Active(pc, fan.own, []), Rows(w.journal, id, CurrentSlot(c.doc[id], pc)),
                         w.paused, w.cancelled, aborted && w.aborting)
      && e.Effect? && e.cell.Active? && (e.cell.pc.AtSlot? || e.cell.pc.InFlight? || e.cell.pc.Backoff?)
      && w'.journal == w.journal[(id, CurrentSlot(c.doc[id], pc)) := e.rows]
      && w'.cells == w.cells[id := Fanned(
          if Leaves(pc, e.cell.pc) then
            fan.(own := e.cell.own, lanes := fan.lanes - {item}, results := fan.results[item := e.cell.pc.allOk])
          else fan.(own := e.cell.own, lanes := fan.lanes[item := e.cell.pc]))]
  {
    RunShape(c, limit, w, id, item, anc, world, aborted);
    hide FanNext, Advanced, LaneEffect, LaneShape, Shaped, FanEnabled;
    AdvancedIs(c, w, id, item, LaneEffect(c, w, id, item, anc, world, aborted));
  }

  lemma RunShape(c: Config, limit: StepId -> nat, w: FanWalk, id: StepId, item: nat, anc: Scope, world: World, aborted: bool)
    requires Shaped(c, w) && FanEnabled(c, limit, w, FanEvent.Run(id, item, anc, world, aborted))
    ensures id in c.doc && LaneShape(c, w.journal, id, w.cells[id].fan.items, item, w.cells[id].fan.lanes[item])
    ensures FanNext(c, limit, w, FanEvent.Run(id, item, anc, world, aborted)) == Advanced(c, w, id, item, LaneEffect(c, w, id, item, anc, world, aborted))
    ensures MovesOn(w.cells[id].fan.lanes[item], LaneEffect(c, w, id, item, anc, world, aborted)) && w.cells[id].fan.lanes[item].i == item
    ensures var pc := w.cells[id].fan.lanes[item];
      LaneEffect(c, w, id, item, anc, world, aborted)
        == StepEffect(In(c, world), id, false, anc, Active(pc, w.cells[id].fan.own, []), Rows(w.journal, id, CurrentSlot(c.doc[id], pc)),
                      w.paused, w.cancelled, aborted && w.aborting)
  {
    hide StepEffect, NeedsClosed, WellFormed, PcShape, Advanced, MovesOn;
    assert CellShaped(c, w.journal, id, w.cells[id]);
    var fan := w.cells[id].fan;
    var pc := fan.lanes[item];
    assert LaneShape(c, w.journal, id, fan.items, item, pc);
    EffectMoves(In(c, world), id, anc, Active(pc, fan.own, []), LaneRows(c, w.journal, id, pc), w.paused, w.cancelled, aborted && w.aborting);
  }

  lemma AdvancedIs(c: Config, w: FanWalk, id: StepId, item: nat, e: Effect)
    requires id in c.doc && id in w.cells && w.cells[id].Fanned? && item in w.cells[id].fan.lanes
    requires var pc := w.cells[id].fan.lanes[item]; MovesOn(pc, e) && pc.i == item
    ensures var (fan, pc) := (w.cells[id].fan, w.cells[id].fan.lanes[item]);
      && Advanced(c, w, id, item, e).journal == w.journal[(id, CurrentSlot(c.doc[id], pc)) := e.rows]
      && Advanced(c, w, id, item, e).cells == w.cells[id := Fanned(
          if Leaves(pc, e.cell.pc) then
            fan.(own := e.cell.own, lanes := fan.lanes - {item}, results := fan.results[item := e.cell.pc.allOk])
          else fan.(own := e.cell.own, lanes := fan.lanes[item := e.cell.pc]))]
  {
  }

  /** The signals a walk hears: a pause always, a cancel while it listens; running executors hear every cancel. */
  lemma SignalsHeard(c: Config, limit: StepId -> nat, w: FanWalk, listening: bool)
    requires Shaped(c, w)
    ensures FanNext(c, limit, w, Pause) == w.(paused := true)
    ensures var w' := FanNext(c, limit, w, Cancel(listening));
      && (w'.cancelled <==> w.cancelled || listening) && w'.aborting && w'.cells == w.cells && w'.journal == w.journal && w'.paused == w.paused
  {
  }

  // ---- the rows of an item ----------------------------------------------------------------------------------------

  // This walk, which began over j0, wrote to the slot; and the slot's last row is a success.
  ghost predicate Touched(rows0: seq<Row>, rows: seq<Row>) { |rows0| < |rows| }
  ghost predicate EndsGood(rows: seq<Row>) { rows != [] && (rows[|rows| - 1].status.RowCompleted? || rows[|rows| - 1].status.Memoized?) }

  ghost function SlotRows(c: Config, j: Journal, id: StepId, item: nat, l: nat): seq<Row>
    requires id in c.doc
  {
    Rows(j, id, SlotOf(c.doc[id], item, l))
  }

  // Something was written for the item, and each slot written to ends with a success.
  ghost predicate ItemGood(c: Config, j0: Journal, j: Journal, id: StepId, item: nat)
    requires id in c.doc && c.doc[id].kind.Work?
  {
    && (exists l: nat :: l < MaxLoops(c.doc[id]) && Touched(SlotRows(c, j0, id, item, l), SlotRows(c, j, id, item, l)))
    && (forall l: nat | l < MaxLoops(c.doc[id]) && Touched(SlotRows(c, j0, id, item, l), SlotRows(c, j, id, item, l)) ::
          EndsGood(SlotRows(c, j, id, item, l)))
  }

  // A lane at work: its earlier passes succeeded, and the one it is in was begun.
  ghost predicate LaneTold(c: Config, j0: Journal, j: Journal, id: StepId, item: nat, pc: Pc)
    requires id in c.doc && c.doc[id].kind.Work?
  {
    && (pc.AtSlot? || pc.InFlight? || pc.Backoff?) && pc.i == item && pc.allOk && pc.l <= MaxLoops(c.doc[id])
    && (pc.l > 0 ==> c.doc[id].kind.loop.Some?)
    && (forall l: nat | l < pc.l :: Touched(SlotRows(c, j0, id, item, l), SlotRows(c, j, id, item, l)) && EndsGood(SlotRows(c, j, id, item, l)))
    && (!pc.AtSlot? ==> pc.l < MaxLoops(c.doc[id]) && Touched(SlotRows(c, j0, id, item, pc.l), SlotRows(c, j, id, item, pc.l)))
  }

  // The four ways one advance can go.
  datatype Way = Stays | NextPass | Succeeds | Fails

  ghost predicate Went(way: Way, step: Step, pc: Pc, rows: seq<Row>, e: Effect)
    requires step.kind.Work? && (pc.AtSlot? || pc.InFlight? || pc.Backoff?) && e.Effect? && e.cell.Active?
  {
    var pc' := e.cell.pc;
    match way
    case Stays =>
      (pc'.InFlight? || pc'.Backoff?) && pc'.i == pc.i && pc'.l == pc.l < MaxLoops(step) && pc'.allOk == pc.allOk
      && |rows| <= |e.rows| && (pc.AtSlot? ==> |rows| < |e.rows|)
    case NextPass =>
      pc' == AtSlot(pc.items, pc.i, pc.l + 1, pc.allOk) && step.kind.loop.Some? && pc.l < MaxLoops(step) && EndsGood(e.rows)
      && |rows| <= |e.rows| && (pc.AtSlot? ==> |rows| < |e.rows|)
    case Succeeds =>
      pc' == AtSlot(pc.items, pc.i + 1, 0, pc.allOk)
      && (|| (pc.l < MaxLoops(step) && EndsGood(e.rows) && |rows| <= |e.rows| && (pc.AtSlot? ==> |rows| < |e.rows|))
          || (pc.AtSlot? && pc.l > 0 && e.rows == rows))
    case Fails =>
      pc' == AtSlot(pc.items, pc.i + 1, 0, false)
      && (|| (!pc.AtSlot? && e.rows != [] && !EndsGood(e.rows) && |rows| <= |e.rows|)
          || (pc.AtSlot? && pc.l == 0 && e.rows == rows))
  }

  lemma SlotGoes(c: Config, id: StepId, anc: Scope, cell: Cell, rows: seq<Row>, stopping: bool) returns (way: Way)
    requires id in c.doc && c.doc[id].kind.Work? && cell.Active? && cell.pc.AtSlot? && PcShape(c.doc[id], cell.pc, rows) && cell.pc.i < |cell.pc.items|
    ensures var e := SlotEffect(c, id, anc, cell, rows, stopping); e.Effect? && e.cell.Active? && Went(way, c.doc[id], cell.pc, rows, e)
  {
    hide FindMemo, Latest;
    var e := SlotEffect(c, id, anc, cell, rows, stopping);
    way := if !e.cell.pc.AtSlot? then Stays else if e.cell.pc.i == cell.pc.i then NextPass
           else if |e.rows| > |rows| || cell.pc.l > 0 then Succeeds else Fails;
  }

  lemma ResultGoes(c: Config, id: StepId, anc: Scope, cell: Cell, rows: seq<Row>, cancelled: bool, aborted: bool) returns (way: Way)
    requires id in c.doc && c.doc[id].kind.Work? && cell.Active? && cell.pc.InFlight? && PcShape(c.doc[id], cell.pc, rows)
    ensures var e := ResultEffect(c, id, anc, cell, rows, cancelled, aborted); e.Effect? && e.cell.Active? && Went(way, c.doc[id], cell.pc, rows, e)
  {
    var e := ResultEffect(c, id, anc, cell, rows, cancelled, aborted);
    way := if !e.cell.pc.AtSlot? then Stays else if e.cell.pc.i == cell.pc.i then NextPass else if EndsGood(e.rows) then Succeeds else Fails;
  }

  lemma LaneGoes(c: Config, id: StepId, anc: Scope, pc: Pc, own: Option<Value>, rows: seq<Row>, paused: bool, cancelled: bool, aborted: bool)
      returns (way: Way)
    requires id in c.doc && c.doc[id].kind.Work? && PcShape(c.doc[id], pc, rows)
    requires (pc.AtSlot? || pc.InFlight? || pc.Backoff?) && pc.i < |pc.items|
    ensures var e := StepEffect(c, id, false, anc, Active(pc, own, []), rows, paused, cancelled, aborted);
      e.Effect? && e.cell.Active? && Went(way, c.doc[id], pc, rows, e)
  {
    hide SlotEffect, ResultEffect;
    match pc
    case AtSlot(_, _, _, _) => way := SlotGoes(c, id, anc, Active(pc, own, []), rows, paused || cancelled);
    case InFlight(_, _, _, _, _, _) => way := ResultGoes(c, id, anc, Active(pc, own, []), rows, cancelled, aborted);
    case Backoff(_, _, _, _, _, _) => way := if cancelled then Fails else Stays;
  }

  // ---- the invariant -------------------------------------------------------------------------------------------------

  ghost predicate FanTold(c: Config, j0: Journal, j: Journal, id: StepId, fan: Fan)
    requires id in c.doc && c.doc[id].kind.Work?
  {
    && (forall item <- fan.lanes :: LaneTold(c, j0, j, id, item, fan.lanes[item]))
    && (forall item <- fan.results :: fan.results[item] <==> ItemGood(c, j0, j, id, item))
  }

  // What this walk did to the slots of one item: good before pass l, nothing after it.
  ghost predicate Before(c: Config, j0: Journal, j: Journal, id: StepId, item: nat, l: nat)
    requires id in c.doc && c.doc[id].kind.Work?
  {
    && (forall k: nat | k < l && k < MaxLoops(c.doc[id]) ::
          Touched(SlotRows(c, j0, id, item, k), SlotRows(c, j, id, item, k)) && EndsGood(SlotRows(c, j, id, item, k)))
    && (forall k: nat | l < k < MaxLoops(c.doc[id]) :: !Touched(SlotRows(c, j0, id, item, k), SlotRows(c, j, id, item, k)))
  }

  lemma StillBefore(c: Config, j0: Journal, j: Journal, j': Journal, id: StepId, items: seq<Option<Item>>, item: nat, pc: Pc, rows: seq<Row>)
    requires WellFormed(c) && LaneOk(c, j0, j, id, items, item, pc) && LaneTold(c, j0, j, id, item, pc)
    requires OnlyAt(j, j', id, CurrentSlot(c.doc[id], pc), rows)
    ensures Before(c, j0, j', id, item, pc.l) && SlotRows(c, j', id, item, pc.l) == rows
    ensures SlotRows(c, j, id, item, pc.l) == LaneRows(c, j, id, pc)
    ensures pc.AtSlot? && pc.l < MaxLoops(c.doc[id]) ==> LaneRows(c, j, id, pc) == SlotRows(c, j0, id, item, pc.l)
  {
    hide EndsGood, LaneOk, OnlyAt, Touched;
    AheadIsBlank(c, j0, j, id, items, item, pc);
    forall l: nat | l < MaxLoops(c.doc[id]) && l != pc.l ensures SlotRows(c, j', id, item, l) == SlotRows(c, j, id, item, l) {
      SameItem(c.doc[id], pc, item, l);
      RowsElsewhere(c, j, j', id, pc, SlotOf(c.doc[id], item, l), rows);
    }
    assert SlotRows(c, j', id, item, pc.l) == rows by { RowsHere(c, j, j', id, pc, rows); }
  }

  lemma RowsHere(c: Config, j: Journal, j': Journal, id: StepId, pc: Pc, rows: seq<Row>)
    requires id in c.doc && OnlyAt(j, j', id, CurrentSlot(c.doc[id], pc), rows) && (pc.AtSlot? || pc.InFlight? || pc.Backoff?)
    ensures SlotRows(c, j', id, pc.i, pc.l) == rows
  {
  }

  lemma AheadIsBlank(c: Config, j0: Journal, j: Journal, id: StepId, items: seq<Option<Item>>, item: nat, pc: Pc)
    requires LaneOk(c, j0, j, id, items, item, pc)
    ensures (pc.AtSlot? || pc.InFlight? || pc.Backoff?) && pc.i == item && id in c.doc && c.doc[id].kind.Work?
    ensures forall l: nat | pc.l < l < MaxLoops(c.doc[id]) :: !Touched(SlotRows(c, j0, id, item, l), SlotRows(c, j, id, item, l))
    ensures pc.AtSlot? && pc.l < MaxLoops(c.doc[id]) ==> LaneRows(c, j, id, pc) == SlotRows(c, j0, id, item, pc.l)
  {
    hide SlotOk, PcShape, Grown;
    forall l: nat | pc.l < l < MaxLoops(c.doc[id]) ensures !Touched(SlotRows(c, j0, id, item, l), SlotRows(c, j, id, item, l)) {
      assert Untouched(c, j0, j, id, item, l);
    }
    if pc.AtSlot? && pc.l < MaxLoops(c.doc[id]) {
      assert Untouched(c, j0, j, id, item, pc.l);
    }
  }

  // The moved lane.
  lemma LaneStays(c: Config, j0: Journal, j': Journal, id: StepId, item: nat, pc: Pc, rows: seq<Row>, e: Effect, way: Way)
    requires id in c.doc && c.doc[id].kind.Work? && (pc.AtSlot? || pc.InFlight? || pc.Backoff?) && pc.i == item && pc.allOk
    requires (pc.l > 0 ==> c.doc[id].kind.loop.Some?)
    requires e.Effect? && e.cell.Active? && Went(way, c.doc[id], pc, rows, e) && (way.Stays? || way.NextPass?)
    requires Before(c, j0, j', id, item, pc.l) && SlotRows(c, j', id, item, pc.l) == e.rows
    requires if pc.AtSlot? then rows == SlotRows(c, j0, id, item, pc.l) else Touched(SlotRows(c, j0, id, item, pc.l), rows)
    ensures !Leaves(pc, e.cell.pc) && LaneTold(c, j0, j', id, item, e.cell.pc)
  {
    hide EndsGood, SlotRows;
  }

  // The result it left.
  lemma LaneLeaves(c: Config, j0: Journal, j': Journal, id: StepId, item: nat, pc: Pc, rows: seq<Row>, e: Effect, way: Way)
    requires id in c.doc && c.doc[id].kind.Work? && (pc.AtSlot? || pc.InFlight? || pc.Backoff?) && pc.i == item && pc.allOk
    requires pc.l <= MaxLoops(c.doc[id]) && (!pc.AtSlot? ==> pc.l < MaxLoops(c.doc[id]))
    requires e.Effect? && e.cell.Active? && Went(way, c.doc[id], pc, rows, e) && (way.Succeeds? || way.Fails?)
    requires Before(c, j0, j', id, item, pc.l) && SlotRows(c, j', id, item, pc.l) == e.rows
    requires pc.l < MaxLoops(c.doc[id]) ==>
      if pc.AtSlot? then rows == SlotRows(c, j0, id, item, pc.l) else Touched(SlotRows(c, j0, id, item, pc.l), rows)
    ensures Leaves(pc, e.cell.pc) && (e.cell.pc.allOk <==> way.Succeeds?)
    ensures ItemGood(c, j0, j', id, item) <==> way.Succeeds?
  {
    hide EndsGood, SlotRows;
    if way.Succeeds? {
      var l := if pc.l > 0 then pc.l - 1 else 0;
      assert Touched(SlotRows(c, j0, id, item, l), SlotRows(c, j', id, item, l));
    } else if !pc.AtSlot? {
      assert Touched(SlotRows(c, j0, id, item, pc.l), SlotRows(c, j', id, item, pc.l)) && !EndsGood(SlotRows(c, j', id, item, pc.l));
    }
  }

  lemma SameItem(step: Step, pc: Pc, item: nat, l: nat)
    requires step.kind.Work? && MaxLoops(step) <= 1000 && (pc.AtSlot? || pc.InFlight? || pc.Backoff?) && pc.i == item
    requires l < MaxLoops(step) && l != pc.l && pc.l <= MaxLoops(step) && (pc.l > 0 ==> step.kind.loop.Some?)
    ensures SlotOf(step, item, l) != CurrentSlot(step, pc)
  {
  }

  // ---- every event -----------------------------------------------------------------------------------------------------

  // An item whose slots did not change.
  ghost predicate SameSlots(c: Config, j: Journal, j': Journal, id: StepId, item: nat)
    requires id in c.doc && c.doc[id].kind.Work?
  {
    forall l: nat | l < MaxLoops(c.doc[id]) :: SlotRows(c, j', id, item, l) == SlotRows(c, j, id, item, l)
  }

  lemma ItemSame(c: Config, j0: Journal, j: Journal, j': Journal, id: StepId, item: nat)
    requires id in c.doc && c.doc[id].kind.Work? && SameSlots(c, j, j', id, item)
    ensures ItemGood(c, j0, j', id, item) <==> ItemGood(c, j0, j, id, item)
    ensures forall pc :: LaneTold(c, j0, j, id, item, pc) ==> LaneTold(c, j0, j', id, item, pc)
  {
    hide SlotRows, EndsGood, Touched;
  }

  lemma FanSame(c: Config, j0: Journal, j: Journal, j': Journal, id: StepId, fan: Fan)
    requires id in c.doc && c.doc[id].kind.Work? && FanTold(c, j0, j, id, fan)
    requires forall slot: nat {:trigger Rows(j', id, slot)} :: Rows(j', id, slot) == Rows(j, id, slot)
    ensures FanTold(c, j0, j', id, fan)
  {
    hide LaneTold, ItemGood;
    forall item: nat ensures SameSlots(c, j, j', id, item) { }
    forall item <- fan.lanes ensures LaneTold(c, j0, j', id, item, fan.lanes[item]) { ItemSame(c, j0, j, j', id, item); }
    forall item <- fan.results ensures fan.results[item] <==> ItemGood(c, j0, j', id, item) { ItemSame(c, j0, j, j', id, item); }
  }

  lemma OtherItems(c: Config, j: Journal, j': Journal, id: StepId, pc: Pc, rows: seq<Row>, other: nat)
    requires WellFormed(c) && id in c.doc && c.doc[id].kind.Work? && (pc.AtSlot? || pc.InFlight? || pc.Backoff?) && other != pc.i
    requires OnlyAt(j, j', id, CurrentSlot(c.doc[id], pc), rows) && (pc.l >= MaxLoops(c.doc[id]) ==> rows == LaneRows(c, j, id, pc))
    ensures SameSlots(c, j, j', id, other)
  {
    hide OnlyAt;
    forall l: nat | l < MaxLoops(c.doc[id]) ensures SlotRows(c, j', id, other, l) == SlotRows(c, j, id, other, l) {
      SlotElsewhere(c.doc[id], pc, other, l);
      RowsElsewhere(c, j, j', id, pc, SlotOf(c.doc[id], other, l), rows);
    }
  }

  ghost predicate AllTold(c: Config, j0: Journal, w: FanWalk) {
    Shaped(c, w) && forall id <- c.doc | w.cells[id].Fanned? && c.doc[id].kind.Work? :: FanTold(c, j0, w.journal, id, w.cells[id].fan)
  }

  // The step that moves keeps its promise; the others do not notice.
  lemma OneTold(c: Config, j0: Journal, w: FanWalk, w': FanWalk, id: StepId)
    requires AllTold(c, j0, w) && Shaped(c, w') && id in c.doc && (forall x <- c.doc | x != id :: w'.cells[x] == w.cells[x])
    requires forall x, slot: nat {:trigger Rows(w'.journal, x, slot)} | x != id :: Rows(w'.journal, x, slot) == Rows(w.journal, x, slot)
    requires w'.cells[id].Fanned? && c.doc[id].kind.Work? ==> FanTold(c, j0, w'.journal, id, w'.cells[id].fan)
    ensures AllTold(c, j0, w')
  {
    hide FanTold, CellShaped, NeedsClosed, WellFormed;
    forall x <- c.doc | w'.cells[x].Fanned? && c.doc[x].kind.Work? ensures FanTold(c, j0, w'.journal, x, w'.cells[x].fan) {
      if x != id {
        FanSame(c, j0, w.journal, w'.journal, x, w.cells[x].fan);
      }
    }
  }

  lemma RunTold(c: Config, limit: StepId -> nat, j0: Journal, w: FanWalk, e: FanEvent)
    requires Inv(c, limit, j0, w) && Dag(c, w) && AllTold(c, j0, w) && FanEnabled(c, limit, w, e) && e.Run? && Shaped(c, FanNext(c, limit, w, e))
    ensures AllTold(c, j0, FanNext(c, limit, w, e))
  {
    hide Inv, Dag, AllTold, FanNext, Shaped, FanOk, LaneEffect, OnlyAt, CellShaped, LaneShape, PcShape, FanTold, LaneOk, LaneTold, SameSlots, ItemGood;
    var Run(id, item, anc, world, aborted) := e;
    assert Shaped(c, w) by { ToldShaped(c, j0, w); }
    LaneMoves(c, limit, w, id, item, anc, world, aborted);
    InvAt(c, limit, j0, w, id);
    var (fan, pc, effect) := (w.cells[id].fan, w.cells[id].fan.lanes[item], LaneEffect(c, w, id, item, anc, world, aborted));
    FanLane(c, limit, j0, w.journal, id, fan, item);
    var w' := FanNext(c, limit, w, e);
    var at := CurrentSlot(c.doc[id], pc);
    WriteOnlyAt(w.journal, id, at, effect.rows);
    OthersSame(w.journal, w'.journal, id, at, effect.rows);
    ToldAt(c, j0, w, id);
    LaneHasNoResult(c, w, id, item);
    LaneToldAt(c, j0, w.journal, id, fan, item);
    ThisLane(c, j0, w'.journal, w, id, item, anc, world, aborted);
    Reassembled(c, j0, w.journal, w'.journal, id, fan, item, effect.cell.pc, effect.cell.own, Leaves(pc, effect.cell.pc));
    OneTold(c, j0, w, w', id);
  }

  lemma ToldShaped(c: Config, j0: Journal, w: FanWalk)
    requires AllTold(c, j0, w)
    ensures Shaped(c, w)
  {
  }

  lemma LaneToldAt(c: Config, j0: Journal, j: Journal, id: StepId, fan: Fan, item: nat)
    requires id in c.doc && c.doc[id].kind.Work? && FanTold(c, j0, j, id, fan) && item in fan.lanes
    ensures LaneTold(c, j0, j, id, item, fan.lanes[item])
  {
  }

  lemma ToldAt(c: Config, j0: Journal, w: FanWalk, id: StepId)
    requires AllTold(c, j0, w) && id in c.doc && id in w.cells && w.cells[id].Fanned? && c.doc[id].kind.Work?
    ensures FanTold(c, j0, w.journal, id, w.cells[id].fan)
  {
  }

  // The lane that moved.
  lemma ThisLane(c: Config, j0: Journal, j': Journal, w: FanWalk, id: StepId, item: nat, anc: Scope, world: World, aborted: bool)
    requires WellFormed(c) && id in c.doc && c.doc[id].kind.Work? && id in w.cells && w.cells[id].Fanned? && item in w.cells[id].fan.lanes
    requires var (fan, j) := (w.cells[id].fan, w.journal);
      && LaneShape(c, j, id, fan.items, item, fan.lanes[item]) && LaneOk(c, j0, j, id, fan.items, item, fan.lanes[item])
      && LaneTold(c, j0, j, id, item, fan.lanes[item])
    requires var e := LaneEffect(c, w, id, item, anc, world, aborted);
      e.Effect? && e.cell.Active? && OnlyAt(w.journal, j', id, CurrentSlot(c.doc[id], w.cells[id].fan.lanes[item]), e.rows)
    ensures var (pc, e) := (w.cells[id].fan.lanes[item], LaneEffect(c, w, id, item, anc, world, aborted));
      && (e.cell.pc.AtSlot? || e.cell.pc.InFlight? || e.cell.pc.Backoff?)
      && (if Leaves(pc, e.cell.pc) then e.cell.pc.allOk <==> ItemGood(c, j0, j', id, item) else LaneTold(c, j0, j', id, item, e.cell.pc))
      && forall other: nat | other != item :: SameSlots(c, w.journal, j', id, other)
  {
    hide StepEffect, OnlyAt, LaneOk, PcShape, ItemGood, Before, SameSlots;
    var (fan, pc, e) := (w.cells[id].fan, w.cells[id].fan.lanes[item], LaneEffect(c, w, id, item, anc, world, aborted));
    var rows := LaneRows(c, w.journal, id, pc);
    EffectMoves(In(c, world), id, anc, Active(pc, fan.own, []), rows, w.paused, w.cancelled, aborted && w.aborting);
    var way := LaneGoes(In(c, world), id, anc, pc, fan.own, rows, w.paused, w.cancelled, aborted && w.aborting);
    StillBefore(c, j0, w.journal, j', id, fan.items, item, pc, e.rows);
    hide Went;
    if way.Stays? || way.NextPass? {
      LaneStays(c, j0, j', id, item, pc, rows, e, way);
    } else {
      LaneLeaves(c, j0, j', id, item, pc, rows, e, way);
    }
    forall other: nat | other != item ensures SameSlots(c, w.journal, j', id, other) { OtherItems(c, w.journal, j', id, pc, e.rows, other); }
  }

  lemma Reassembled(c: Config, j0: Journal, j: Journal, j': Journal, id: StepId, fan: Fan, item: nat, pc: Pc, own: Option<Value>, leaves: bool)
    requires id in c.doc && c.doc[id].kind.Work? && FanTold(c, j0, j, id, fan) && item in fan.lanes && item !in fan.results
    requires pc.AtSlot? || pc.InFlight? || pc.Backoff?
    requires if leaves then pc.allOk <==> ItemGood(c, j0, j', id, item) else LaneTold(c, j0, j', id, item, pc)
    requires forall other: nat | other != item :: SameSlots(c, j, j', id, other)
    ensures FanTold(c, j0, j', id,
      if leaves then fan.(own := own, lanes := fan.lanes - {item}, results := fan.results[item := pc.allOk])
      else fan.(own := own, lanes := fan.lanes[item := pc]))
  {
    hide LaneTold, ItemGood, SameSlots;
    forall other <- fan.lanes | other != item ensures LaneTold(c, j0, j', id, other, fan.lanes[other]) { ItemSame(c, j0, j, j', id, other); }
    forall other <- fan.results ensures fan.results[other] <==> ItemGood(c, j0, j', id, other) { ItemSame(c, j0, j, j', id, other); }
  }

  lemma LaneHasNoResult(c: Config, w: FanWalk, id: StepId, item: nat)
    requires Dag(c, w) && id in c.doc && w.cells[id].Fanned? && item in w.cells[id].fan.lanes
    ensures item !in w.cells[id].fan.results
  {
    DagAt(c, w, id);
  }

  // ---- the other events --------------------------------------------------------------------------------------------------

  lemma QuietTold(c: Config, limit: StepId -> nat, j0: Journal, w: FanWalk, e: FanEvent)
    requires Inv(c, limit, j0, w) && AllTold(c, j0, w) && FanEnabled(c, limit, w, e) && (e.Decide? || e.Close?) && Shaped(c, FanNext(c, limit, w, e))
    ensures AllTold(c, j0, FanNext(c, limit, w, e))
  {
    hide Inv, AllTold, CellShaped, NeedsClosed, WellFormed, FanTold;
    assert Shaped(c, w) by { ToldShaped(c, j0, w); }
    var w' := FanNext(c, limit, w, e);
    OneTold(c, j0, w, w', e.id);
  }

  lemma ClaimTold(c: Config, limit: StepId -> nat, j0: Journal, w: FanWalk, e: FanEvent)
    requires Inv(c, limit, j0, w) && AllTold(c, j0, w) && FanEnabled(c, limit, w, e) && e.Claim? && Shaped(c, FanNext(c, limit, w, e))
    ensures AllTold(c, j0, FanNext(c, limit, w, e))
  {
    hide Inv, AllTold, NeedsClosed, WellFormed, LaneShape;
    assert Shaped(c, w) by { ToldShaped(c, j0, w); }
    var w' := FanNext(c, limit, w, e);
    assert CellShaped(c, w.journal, e.id, w.cells[e.id]);
    ToldAt(c, j0, w, e.id);
    assert FanTold(c, j0, w'.journal, e.id, w'.cells[e.id].fan);
    OneTold(c, j0, w, w', e.id);
  }

  lemma BeginTold(c: Config, limit: StepId -> nat, j0: Journal, w: FanWalk, e: FanEvent)
    requires Inv(c, limit, j0, w) && AllTold(c, j0, w) && FanEnabled(c, limit, w, e) && e.BeginStep? && Shaped(c, FanNext(c, limit, w, e))
    ensures AllTold(c, j0, FanNext(c, limit, w, e))
  {
    hide Inv, AllTold, FanTold, FanNext, CellShaped, NeedsClosed, WellFormed, F.FanHeldBack;
    assert Shaped(c, w) by { ToldShaped(c, j0, w); }
    F.FanBegins(c, limit, w, e.id, e.anc, e.world);
    var w' := FanNext(c, limit, w, e);
    BeganFan(c, j0, w', e.id);
    OneTold(c, j0, w, w', e.id);
  }

  lemma BeganFan(c: Config, j0: Journal, w: FanWalk, id: StepId)
    requires id in c.doc && id in w.cells && (w.cells[id].Fanned? ==> w.cells[id].fan.lanes == map[] && w.cells[id].fan.results == map[])
    ensures w.cells[id].Fanned? && c.doc[id].kind.Work? ==> FanTold(c, j0, w.journal, id, w.cells[id].fan)
  {
    if w.cells[id].Fanned? && c.doc[id].kind.Work? {
      NewTold(c, j0, w.journal, id, w.cells[id].fan);
    }
  }

  lemma NewTold(c: Config, j0: Journal, j: Journal, id: StepId, fan: Fan)
    requires id in c.doc && c.doc[id].kind.Work? && fan.lanes == map[] && fan.results == map[]
    ensures FanTold(c, j0, j, id, fan)
  {
  }

  lemma SignalTold(c: Config, j0: Journal, w: FanWalk, w': FanWalk)
    requires AllTold(c, j0, w) && Shaped(c, w') && w'.cells == w.cells && w'.journal == w.journal
    ensures AllTold(c, j0, w')
  {
    hide CellShaped, NeedsClosed, WellFormed, FanTold;
  }

  lemma EventTold(c: Config, limit: StepId -> nat, j0: Journal, w: FanWalk, e: FanEvent)
    requires Inv(c, limit, j0, w) && Dag(c, w) && AllTold(c, j0, w) && Shaped(c, w) && FanEnabled(c, limit, w, e)
    requires Shaped(c, FanNext(c, limit, w, e))
    ensures AllTold(c, j0, FanNext(c, limit, w, e))
  {
    hide Inv, Dag, AllTold, Shaped, FanEnabled;
    match e
    case BeginStep(_, _, _) => BeginTold(c, limit, j0, w, e);
    case Claim(_) => ClaimTold(c, limit, j0, w, e);
    case Run(_, _, _, _, _) => RunTold(c, limit, j0, w, e);
    case Pause => SignalTold(c, j0, w, FanNext(c, limit, w, e));
    case Cancel(_) => SignalTold(c, j0, w, FanNext(c, limit, w, e));
    case _ => QuietTold(c, limit, j0, w, e);
  }

  lemma {:induction false} RunsTold(c: Config, limit: StepId -> nat, j0: Journal, w: FanWalk, events: seq<FanEvent>, w': FanWalk)
    requires Inv(c, limit, j0, w) && Dag(c, w) && AllTold(c, j0, w) && FanRuns(c, limit, w, events, w')
    ensures Inv(c, limit, j0, w') && Dag(c, w') && AllTold(c, j0, w')
    decreases |events|
  {
    hide FanEnabled, FanNext, CellDag, JournalOk, JournalGrew, CellInv, CellShaped, NeedsClosed, WellFormed, AllTold;
    if events != [] {
      FanStepKeeps(c, limit, j0, w, events[0]);
      StepDag(c, limit, w, events[0]);
      EventTold(c, limit, j0, w, events[0]);
      RunsTold(c, limit, j0, FanNext(c, limit, w, events[0]), events[1..], w');
    }
  }

  /** What a fanned-out step comes to, read off the journal, in every run with any answers and any number of lanes in
      flight: when its pool closes it completes if and only if this walk wrote something for every item and every slot
      it wrote to ends with a completed or memoized row; otherwise it fails. */
  lemma PoolIsJournaled(c: Config, limit: StepId -> nat, j: Journal, events: seq<FanEvent>, w: FanWalk, id: StepId)
    requires WellFormed(c) && JournalOk(c, j) && FanRuns(c, limit, StartFans(c, j), events, w)
    requires Shaped(c, w) && FanEnabled(c, limit, w, Close(id))
    ensures id in c.doc && c.doc[id].kind.Work?
    ensures var w' := FanNext(c, limit, w, Close(id));
      && id in w'.cells && w'.journal == w.journal
      && w'.cells[id] == Closed(
           if forall item: nat | item < |w.cells[id].fan.items| :: ItemGood(c, j, w.journal, id, item) then Completed else Failed)
  {
    hide JournalOk, FanRuns, CellShaped, NeedsClosed, WellFormed, FanTold, ItemGood;
    FanStart(c, limit, j);
    RunsTold(c, limit, j, StartFans(c, j), events, w);
    DagAt(c, w, id);
    PoolVerdict(c, limit, w, id);
    WorkIsFanned(c, w, id);
    ResultsTold(c, j, w, id);
  }

  lemma WorkIsFanned(c: Config, w: FanWalk, id: StepId)
    requires Shaped(c, w) && id in w.cells && w.cells[id].Fanned?
    ensures id in c.doc && c.doc[id].kind.Work?
  {
    assert CellShaped(c, w.journal, id, w.cells[id]);
  }

  lemma ResultsTold(c: Config, j0: Journal, w: FanWalk, id: StepId)
    requires AllTold(c, j0, w) && id in c.doc && c.doc[id].kind.Work? && w.cells[id].Fanned?
    ensures forall item <- w.cells[id].fan.results :: w.cells[id].fan.results[item] <==> ItemGood(c, j0, w.journal, id, item)
  {
    hide ItemGood;
    ToldAt(c, j0, w, id);
  }
}
