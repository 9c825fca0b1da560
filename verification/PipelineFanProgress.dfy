/** Termination of the fan-out machine, and what it ends in. */
module PipelineFanProgress {
  import opened Base
  import opened Pipeline
  import opened PipelineProofs
  import opened PipelineTheorems
  import opened PipelineProgress
  import opened PipelineFanOut
  import opened PipelineFanSafety
  import opened PipelineFanDag

  // ---- how much is left -----------------------------------------------------------------------------------

  ghost predicate Placed(step: Step, fan: Fan) {
    step.kind.Work? && forall item <- fan.lanes :: PcPlace(step, fan.lanes[item])
  }

  ghost function LaneWorks(step: Step, fan: Fan): map<nat, nat>
    requires Placed(step, fan)
  {
    map item | item in fan.lanes :: Remaining(step, Active(fan.lanes[item], None, []))
  }

  ghost predicate AllPlaced(c: Config, w: FanWalk) {
    w.cells.Keys == c.doc.Keys && forall id <- c.doc | w.cells[id].Fanned? :: Placed(c.doc[id], w.cells[id].fan)
  }

  ghost function Unbeguns(w: FanWalk): map<StepId, nat> { map id | id in w.cells :: if w.cells[id].Unbegun? then 1 else 0 }

  ghost function ToClaim(cell: FanCell): nat {
    if cell.Fanned? && cell.fan.next <= |cell.fan.items| then |cell.fan.items| - cell.fan.next else 0
  }

  ghost function Unclaimed(w: FanWalk): map<StepId, nat> { map id | id in w.cells :: ToClaim(w.cells[id]) }

  ghost function InLanes(c: Config, w: FanWalk): map<StepId, nat>
    requires AllPlaced(c, w)
  {
    map id | id in c.doc :: if w.cells[id].Fanned? then Sum(LaneWorks(c.doc[id], w.cells[id].fan)) else 0
  }

  ghost function Opens(w: FanWalk): map<StepId, nat> { map id | id in w.cells :: if w.cells[id].Fanned? || w.cells[id].Asking? then 1 else 0 }

  // (steps to begin, items to claim, advances left in the lanes, steps to settle) decreases lexicographically.
  ghost predicate FanDecreases(c: Config, w: FanWalk, w': FanWalk)
    requires AllPlaced(c, w) && AllPlaced(c, w')
  {
    || Sum(Unbeguns(w')) < Sum(Unbeguns(w))
    || (Sum(Unbeguns(w')) == Sum(Unbeguns(w)) && Sum(Unclaimed(w')) < Sum(Unclaimed(w)))
    || (Sum(Unbeguns(w')) == Sum(Unbeguns(w)) && Sum(Unclaimed(w')) == Sum(Unclaimed(w)) && Sum(InLanes(c, w')) < Sum(InLanes(c, w)))
    || (Sum(Unbeguns(w')) == Sum(Unbeguns(w)) && Sum(Unclaimed(w')) == Sum(Unclaimed(w)) && Sum(InLanes(c, w')) == Sum(InLanes(c, w))
        && Sum(Opens(w')) < Sum(Opens(w)))
  }

  lemma ShapedPlaced(c: Config, w: FanWalk)
    requires Shaped(c, w)
    ensures AllPlaced(c, w)
  {
    hide WellFormed, NeedsClosed;
    forall id <- c.doc | w.cells[id].Fanned? ensures Placed(c.doc[id], w.cells[id].fan) {
      assert CellShaped(c, w.journal, id, w.cells[id]);
      forall item <- w.cells[id].fan.lanes ensures PcPlace(c.doc[id], w.cells[id].fan.lanes[item]) {
        assert LaneShape(c, w.journal, id, w.cells[id].fan.items, item, w.cells[id].fan.lanes[item]);
      }
    }
  }

  // ---- each kind of event ------------------------------------------------------------------------------------

  lemma SameUnbeguns(w: FanWalk, w': FanWalk, id: StepId, cell: FanCell)
    requires id in w.cells && w'.cells == w.cells[id := cell] && !w.cells[id].Unbegun? && !cell.Unbegun?
    ensures Unbeguns(w') == Unbeguns(w)
  {
  }

  lemma SameUnclaimed(w: FanWalk, w': FanWalk, id: StepId, cell: FanCell)
    requires id in w.cells && w'.cells == w.cells[id := cell] && ToClaim(cell) == ToClaim(w.cells[id])
    ensures Unclaimed(w') == Unclaimed(w)
  {
    hide ToClaim;
  }

  lemma UnclaimedLess(w: FanWalk, w': FanWalk, id: StepId, cell: FanCell)
    requires id in w.cells && w'.cells == w.cells[id := cell] && ToClaim(cell) < ToClaim(w.cells[id])
    ensures Sum(Unclaimed(w')) < Sum(Unclaimed(w))
  {
    hide Sum, ToClaim;
    SumLess(Unclaimed(w'), Unclaimed(w), id);
  }

  lemma OneLess(c: Config, w: FanWalk, w': FanWalk, id: StepId, cell: FanCell)
    requires AllPlaced(c, w) && AllPlaced(c, w') && id in c.doc && w'.cells == w.cells[id := cell]
    requires w.cells[id].Unbegun? && !cell.Unbegun?
    ensures FanDecreases(c, w, w')
  {
    hide Sum, Placed, InLanes, Unclaimed, Opens;
    SumLess(Unbeguns(w'), Unbeguns(w), id);
  }

  lemma ClaimLess(c: Config, w: FanWalk, w': FanWalk, id: StepId, cell: FanCell)
    requires AllPlaced(c, w) && AllPlaced(c, w') && id in c.doc && w'.cells == w.cells[id := cell]
    requires w.cells[id].Fanned? && cell.Fanned? && cell.fan.items == w.cells[id].fan.items
    requires cell.fan.next == w.cells[id].fan.next + 1 <= |cell.fan.items|
    ensures FanDecreases(c, w, w')
  {
    hide Sum, Placed, InLanes, Opens, Unbeguns, Unclaimed;
    SameUnbeguns(w, w', id, cell);
    UnclaimedLess(w, w', id, cell);
  }

  lemma LaneLess(c: Config, w: FanWalk, w': FanWalk, id: StepId, cell: FanCell)
    requires AllPlaced(c, w) && AllPlaced(c, w') && id in c.doc && w'.cells == w.cells[id := cell]
    requires w.cells[id].Fanned? && cell.Fanned? && cell.fan.items == w.cells[id].fan.items && cell.fan.next == w.cells[id].fan.next
    requires Sum(LaneWorks(c.doc[id], cell.fan)) < Sum(LaneWorks(c.doc[id], w.cells[id].fan))
    ensures FanDecreases(c, w, w')
  {
    hide Sum, LaneWorks, Placed, Unbeguns, Unclaimed, Opens;
    SameUnbeguns(w, w', id, cell);
    SameUnclaimed(w, w', id, cell);
    SumLess(InLanes(c, w'), InLanes(c, w), id);
  }

  lemma CloseLess(c: Config, w: FanWalk, w': FanWalk, id: StepId, d: Disposition)
    requires AllPlaced(c, w) && AllPlaced(c, w') && id in c.doc && w'.cells == w.cells[id := Closed(d)]
    requires w.cells[id].Asking? || (w.cells[id].Fanned? && w.cells[id].fan.lanes == map[] && w.cells[id].fan.next == |w.cells[id].fan.items|)
    ensures FanDecreases(c, w, w')
  {
    hide Placed, Sum, LaneWorks, Unbeguns, Unclaimed;
    SameUnbeguns(w, w', id, Closed(d));
    SameUnclaimed(w, w', id, Closed(d));
    if w.cells[id].Fanned? {
      NoLanes(c.doc[id], w.cells[id].fan);
    }
    assert InLanes(c, w') == InLanes(c, w);
    SumLess(Opens(w'), Opens(w), id);
  }

  lemma NoLanes(step: Step, fan: Fan)
    requires Placed(step, fan) && fan.lanes == map[]
    ensures Sum(LaneWorks(step, fan)) == 0
  {
    assert LaneWorks(step, fan) == map[];
  }

  // An advance of a lane leaves less to do in it; a finished lane leaves nothing.
  lemma MovedLess(step: Step, fan: Fan, item: nat, cell: Cell)
    requires Placed(step, fan) && item in fan.lanes && Placed(step, Moved(fan, item, cell))
    requires cell.Active? && PcPlace(step, cell.pc) && Remaining(step, Active(cell.pc, None, [])) < Remaining(step, Active(fan.lanes[item], None, []))
    ensures Sum(LaneWorks(step, Moved(fan, item, cell))) < Sum(LaneWorks(step, fan))
  {
    hide Sum, Remaining, PcPlace;
    var moved := Moved(fan, item, cell);
    var a, b := LaneWorks(step, moved), LaneWorks(step, fan);
    if item in moved.lanes {
      SumLess(a, b, item);
    } else {
      SumRemove(b, item);
      assert a == b - {item};
    }
  }

  lemma WorkOfPc(step: Step, pc: Pc, own: Option<Value>, trace: seq<Visit>)
    requires PcPlace(step, pc)
    ensures Remaining(step, Active(pc, own, trace)) == Remaining(step, Active(pc, None, []))
  {
  }

  lemma RunLess(c: Config, w: FanWalk, id: StepId, item: nat, anc: Scope, world: World, aborted: bool)
    requires Shaped(c, w) && id in c.doc && w.cells[id].Fanned? && item in w.cells[id].fan.lanes
    requires LaneShape(c, w.journal, id, w.cells[id].fan.items, item, w.cells[id].fan.lanes[item])
    ensures var e := LaneEffect(c, w, id, item, anc, world, aborted);
      && e.Effect? && e.cell.Active? && PcPlace(c.doc[id], w.cells[id].fan.lanes[item]) && PcPlace(c.doc[id], e.cell.pc)
      && Remaining(c.doc[id], Active(e.cell.pc, None, [])) < Remaining(c.doc[id], Active(w.cells[id].fan.lanes[item], None, []))
  {
    hide StepEffect, Remaining, PcPlace, NeedsClosed, WellFormed;
    var fan := w.cells[id].fan;
    var pc := fan.lanes[item];
    var c' := In(c, world);
    var cell, rows := Active(pc, fan.own, []), LaneRows(c, w.journal, id, pc);
    assert CellShaped(c, w.journal, id, w.cells[id]);
    assert PcPlace(c.doc[id], pc) by { ShapePlace(c.doc[id], pc, rows); }
    EffectMoves(c', id, anc, cell, rows, w.paused, w.cancelled, aborted && w.aborting);
    EffectWorks(c', id, false, anc, cell, rows, w.paused, w.cancelled, aborted && w.aborting);
    var e := LaneEffect(c, w, id, item, anc, world, aborted);
    WorkOfPc(c.doc[id], pc, fan.own, []);
    WorkOfPc(c.doc[id], e.cell.pc, e.cell.own, e.cell.trace);
  }

  lemma ShapePlace(step: Step, pc: Pc, rows: seq<Row>)
    requires PcShape(step, pc, rows)
    ensures PcPlace(step, pc)
  {
  }

  // ---- every event, and the end ---------------------------------------------------------------------------------

  /** Every event that is not a signal makes the measure smaller, so every walk ends, whatever the answers
      and however many iterations are in flight. */
  lemma FanEventsDecrease(c: Config, limit: StepId -> nat, j0: Journal, w: FanWalk, e: FanEvent)
    requires Inv(c, limit, j0, w) && Dag(c, w) && FanEnabled(c, limit, w, e) && !e.Pause? && !e.Cancel?
    ensures AllPlaced(c, w) && AllPlaced(c, FanNext(c, limit, w, e)) && FanDecreases(c, w, FanNext(c, limit, w, e))
  {
    hide Inv, Dag, AllPlaced, FanDecreases, FanEnabled, FanNext, Shaped;
    assert Shaped(c, w) by { DagShaped(c, w); }
    FanStepKeeps(c, limit, j0, w, e);
    assert Shaped(c, FanNext(c, limit, w, e)) by { InvIsShaped(c, limit, j0, FanNext(c, limit, w, e)); }
    ShapedPlaced(c, w);
    ShapedPlaced(c, FanNext(c, limit, w, e));
    if e.Run? {
      RunDecreases(c, limit, w, e);
    } else {
      OtherDecreases(c, limit, w, e);
    }
  }

  lemma InvIsShaped(c: Config, limit: StepId -> nat, j0: Journal, w: FanWalk)
    requires Inv(c, limit, j0, w)
    ensures Shaped(c, w)
  {
  }

  lemma OtherDecreases(c: Config, limit: StepId -> nat, w: FanWalk, e: FanEvent)
    requires Dag(c, w) && FanEnabled(c, limit, w, e) && !e.Pause? && !e.Cancel? && !e.Run?
    requires AllPlaced(c, w) && AllPlaced(c, FanNext(c, limit, w, e))
    ensures FanDecreases(c, w, FanNext(c, limit, w, e))
  {
    hide Dag, AllPlaced, FanDecreases, BeginEffect, FanBlocked, NeedsClosed, WellFormed, CellDag, CellShaped;
    assert Shaped(c, w) by { DagShaped(c, w); }
    var id, w' := e.id, FanNext(c, limit, w, e);
    match e
    case BeginStep(_, anc, world) =>
      var cell, verdict := EventMoves(c, limit, w, e);
      OneLess(c, w, w', id, cell);
    case Decide(_, _) => CloseLess(c, w, w', id, w'.cells[id].disp);
    case Claim(_) => ClaimLess(c, w, w', id, w'.cells[id]);
    case Close(_) => CloseLess(c, w, w', id, w'.cells[id].disp);
  }

  lemma RunDecreases(c: Config, limit: StepId -> nat, w: FanWalk, e: FanEvent)
    requires Shaped(c, w) && FanEnabled(c, limit, w, e) && e.Run?
    requires AllPlaced(c, w) && AllPlaced(c, FanNext(c, limit, w, e))
    ensures FanDecreases(c, w, FanNext(c, limit, w, e))
  {
    hide FanDecreases, LaneEffect, NeedsClosed, WellFormed, Remaining, PcPlace, LaneShape, LaneWorks, Sum;
    var Run(id, item, anc, world, aborted) := e;
    assert CellShaped(c, w.journal, id, w.cells[id]);
    RunLess(c, w, id, item, anc, world, aborted);
    var fan := w.cells[id].fan;
    var effect := LaneEffect(c, w, id, item, anc, world, aborted);
    var w' := FanNext(c, limit, w, e);
    assert w'.cells[id] == Fanned(Moved(fan, item, effect.cell));
    MovedLess(c.doc[id], fan, item, effect.cell);
    LaneLess(c, w, w', id, w'.cells[id]);
  }

  // Nothing can happen but a signal.
  ghost predicate AtRest(c: Config, limit: StepId -> nat, w: FanWalk) {
    forall e: FanEvent | !e.Pause? && !e.Cancel? :: !FanEnabled(c, limit, w, e)
  }

  /** A walk at rest has settled every step, unless a gate was refused: with the decreasing measure, every
      walk that is not stopped gives every step its one disposition. */
  lemma {:induction false} RestIsSettled(c: Config, limit: StepId -> nat, w: FanWalk, id: StepId)
    requires Dag(c, w) && AtRest(c, limit, w) && id in c.doc
    requires (forall x :: limit(x) >= 1) && forall x <- c.doc :: !w.cells[x].Rejected?
    ensures w.cells[id].Closed?
    decreases c.rank[id]
  {
    hide CellShaped, FanBlocked;
    forall n <- c.doc[id].needs ensures n in w.cells && w.cells[n].Closed? {
      RestIsSettled(c, limit, w, n);
    }
    assert CellDag(c, w, id);
    if !w.cells[id].Closed? {
      GoesOn(c, limit, w, id);
    }
  }

  lemma GoesOn(c: Config, limit: StepId -> nat, w: FanWalk, id: StepId)
    requires id in c.doc && id in w.cells && NeedsClosed(c, w, id) && limit(id) >= 1 && !w.cells[id].Closed? && !w.cells[id].Rejected?
    requires w.cells[id].Fanned? ==> Counted(w.cells[id].fan)
    ensures exists e: FanEvent :: !e.Pause? && !e.Cancel? && FanEnabled(c, limit, w, e)
  {
    match w.cells[id]
    case Unbegun => assert FanEnabled(c, limit, w, BeginStep(id, map[], c.world));
    case Asking => assert FanEnabled(c, limit, w, Decide(id, c.world));
    case Fanned(_) => FannedGoesOn(c, limit, w, id);
  }

  lemma FannedGoesOn(c: Config, limit: StepId -> nat, w: FanWalk, id: StepId)
    requires id in w.cells && w.cells[id].Fanned? && Counted(w.cells[id].fan) && limit(id) >= 1
    ensures exists e: FanEvent :: !e.Pause? && !e.Cancel? && FanEnabled(c, limit, w, e)
  {
    var fan := w.cells[id].fan;
    if item :| item in fan.lanes {
      assert FanEnabled(c, limit, w, Run(id, item, map[], c.world, false));
    } else {
      assert fan.lanes == map[];
      assert FanEnabled(c, limit, w, if fan.next < |fan.items| then Claim(id) else Close(id));
    }
  }
}
