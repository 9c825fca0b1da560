/** What every run of the fan-out machine keeps of the journal. */
module PipelineFanSafety {
  import opened Base
  import opened Pipeline
  import opened PipelineProofs
  import opened PipelineTheorems
  import opened PipelineFanOut

  // What the invariant says of the journal, and of one step.
  lemma InvAt(c: Config, limit: StepId -> nat, j0: Journal, w: FanWalk, id: StepId)
    requires Inv(c, limit, j0, w) && id in c.doc
    ensures WellFormed(c) && JournalOk(c, w.journal) && JournalGrew(c, j0, w.journal) && id in w.cells
    ensures CellInv(c, limit, j0, w.journal, id, w.cells[id]) && CellShaped(c, w.journal, id, w.cells[id])
    ensures !w.cells[id].Unbegun? ==> NeedsClosed(c, w, id)
  {
    hide JournalOk, JournalGrew, CellInv, CellShaped, NeedsClosed;
  }

  lemma ShapedFrame(c: Config, j: Journal, j': Journal, id: StepId, cell: FanCell)
    requires id in c.doc && CellShaped(c, j, id, cell)
    requires forall slot: nat {:trigger Rows(j', id, slot)} :: Rows(j', id, slot) == Rows(j, id, slot)
    ensures CellShaped(c, j', id, cell)
  {
    hide PcShape;
    if cell.Fanned? {
      forall item <- cell.fan.lanes ensures LaneShape(c, j', id, cell.fan.items, item, cell.fan.lanes[item]) {
        assert LaneShape(c, j, id, cell.fan.items, item, cell.fan.lanes[item]);
        assert LaneRows(c, j', id, cell.fan.lanes[item]) == LaneRows(c, j, id, cell.fan.lanes[item]);
      }
    }
  }

  lemma CellFrame(c: Config, limit: StepId -> nat, j0: Journal, j: Journal, j': Journal, id: StepId, cell: FanCell)
    requires id in c.doc && CellInv(c, limit, j0, j, id, cell)
    requires forall slot: nat {:trigger Rows(j', id, slot)} :: Rows(j', id, slot) == Rows(j, id, slot)
    ensures CellInv(c, limit, j0, j', id, cell)
  {
    hide FanOk;
    if cell.Fanned? {
      FanFrame(c, limit, j0, j, j', id, cell.fan);
    }
  }

  // A step that is not settled moves: the other steps do not notice.
  lemma CellMoves(c: Config, limit: StepId -> nat, j0: Journal, w: FanWalk, w': FanWalk, id: StepId, cell: FanCell)
    requires Inv(c, limit, j0, w) && id in c.doc && !w.cells[id].Closed? && w'.cells == w.cells[id := cell]
    requires forall x, slot: nat {:trigger Rows(w'.journal, x, slot)} | x != id :: Rows(w'.journal, x, slot) == Rows(w.journal, x, slot)
    requires JournalOk(c, w'.journal) && JournalGrew(c, j0, w'.journal)
    requires CellInv(c, limit, j0, w'.journal, id, cell) && CellShaped(c, w'.journal, id, cell)
    requires !cell.Unbegun? && NeedsClosed(c, w, id)
    ensures Inv(c, limit, j0, w')
  {
    hide JournalOk, JournalGrew, CellInv, CellShaped, WellFormed;
    forall x <- c.doc ensures CellInv(c, limit, j0, w'.journal, x, w'.cells[x]) && CellShaped(c, w'.journal, x, w'.cells[x]) {
      if x != id {
        CellFrame(c, limit, j0, w.journal, w'.journal, x, w.cells[x]);
        ShapedFrame(c, w.journal, w'.journal, x, w.cells[x]);
      }
    }
    forall x <- c.doc | !w'.cells[x].Unbegun? ensures NeedsClosed(c, w', x) {
      assert NeedsClosed(c, w, x);
    }
  }

  lemma SameJournal(w: FanWalk, w': FanWalk)
    requires w'.journal == w.journal
    ensures forall x, slot: nat {:trigger Rows(w'.journal, x, slot)} :: Rows(w'.journal, x, slot) == Rows(w.journal, x, slot)
  {
  }

  lemma OthersSame(j: Journal, j': Journal, id: StepId, at: nat, rows: seq<Row>)
    requires OnlyAt(j, j', id, at, rows)
    ensures forall x, slot: nat {:trigger Rows(j', x, slot)} | x != id :: Rows(j', x, slot) == Rows(j, x, slot)
  {
  }

  // A gate writes its own rows, which nothing here depends on.
  lemma GateWrites(c: Config, j0: Journal, j: Journal, id: StepId, rows: seq<Row>)
    requires WellFormed(c) && id in c.doc && c.doc[id].kind.Gate? && JournalOk(c, j) && JournalGrew(c, j0, j)
    ensures var j' := j[(id, 0) := rows];
      && JournalOk(c, j') && JournalGrew(c, j0, j')
      && forall x, slot: nat {:trigger Rows(j', x, slot)} | x != id :: Rows(j', x, slot) == Rows(j, x, slot)
  {
    hide JournalOk, JournalGrew;
    WriteOnlyAt(j, id, 0, rows);
    JournalKept(c, j0, j, j[(id, 0) := rows], id, 0, rows);
    OthersSame(j, j[(id, 0) := rows], id, 0, rows);
  }

  // What beginning a step can come to.
  lemma BeginCases(c: Config, id: StepId, blocked: bool, anc: Scope, rows: seq<Row>)
    requires id in c.doc
    ensures var e := BeginEffect(c, id, blocked, anc, Active(Begin, None, []), rows);
      && (e.Throw? ==> c.doc[id].kind.Gate?)
      && (e.Effect? && e.cell.Active? ==>
            !blocked && (e.cell.pc.AtSlot? || e.cell.pc.AtGate?) && (e.cell.pc.AtSlot? <==> c.doc[id].kind.Work?))
      && (e.Effect? && !e.cell.Active? ==> e.cell.Settled?)
  {
  }

  lemma BeginKeeps(c: Config, limit: StepId -> nat, j0: Journal, w: FanWalk, e: FanEvent)
    requires Inv(c, limit, j0, w) && Shaped(c, w) && FanEnabled(c, limit, w, e) && e.BeginStep?
    ensures Inv(c, limit, j0, FanNext(c, limit, w, e))
  {
    hide Inv, WellFormed, BeginEffect, NeedsClosed, FanBlocked, Began, CellShaped;
    var BeginStep(id, anc, world) := e;
    var blocked := FanBlocked(c, w, id);
    var effect := BeginEffect(In(c, world), id, blocked, anc, Active(Begin, None, []), Rows(w.journal, id, 0));
    BeginCases(In(c, world), id, blocked, anc, Rows(w.journal, id, 0));
    BeganKeeps(c, limit, j0, w, id, blocked, effect);
  }

  lemma BeganKeeps(c: Config, limit: StepId -> nat, j0: Journal, w: FanWalk, id: StepId, blocked: bool, e: Effect)
    requires Inv(c, limit, j0, w) && id in c.doc && id in w.cells && w.cells[id].Unbegun? && NeedsClosed(c, w, id)
    requires e.Throw? ==> c.doc[id].kind.Gate?
    requires e.Effect? && e.cell.Active? ==> (e.cell.pc.AtSlot? || e.cell.pc.AtGate?) && (e.cell.pc.AtSlot? <==> c.doc[id].kind.Work?)
    ensures Inv(c, limit, j0, Began(c, w, id, blocked, e))
  {
    hide Inv, CellInv, CellShaped, JournalOk, JournalGrew, WellFormed, NeedsClosed;
    InvAt(c, limit, j0, w, id);
    var w' := Began(c, w, id, blocked, e);
    NewCell(c, limit, j0, w.journal, w'.journal, id, w'.cells[id]);
    if w'.cells[id].Asking? {
      GateWrites(c, j0, w.journal, id, e.rows);
    } else {
      SameJournal(w, w');
    }
    CellMoves(c, limit, j0, w, w', id, w'.cells[id]);
  }

  lemma NewCell(c: Config, limit: StepId -> nat, j0: Journal, j: Journal, j': Journal, id: StepId, cell: FanCell)
    requires id in c.doc && CellInv(c, limit, j0, j, id, Unbegun)
    requires cell.Fanned? ==> c.doc[id].kind.Work? && cell.fan.next == 0 && cell.fan.lanes == map[] && j' == j
    requires cell.Asking? || cell.Rejected? ==> c.doc[id].kind.Gate?
    requires !cell.Unbegun?
    ensures CellInv(c, limit, j0, j', id, cell) && CellShaped(c, j', id, cell)
  {
  }

  lemma DecideKeeps(c: Config, limit: StepId -> nat, j0: Journal, w: FanWalk, e: FanEvent)
    requires Inv(c, limit, j0, w) && Shaped(c, w) && FanEnabled(c, limit, w, e) && e.Decide?
    ensures Inv(c, limit, j0, FanNext(c, limit, w, e))
  {
    hide Inv, JournalOk, JournalGrew, WellFormed, NeedsClosed, CellInv;
    var id := e.id;
    InvAt(c, limit, j0, w, id);
    var w' := FanNext(c, limit, w, e);
    ClosedOk(c, limit, j0, w'.journal, id, w'.cells[id]);
    if w'.journal == w.journal {
      SameJournal(w, w');
    } else {
      GateWrites(c, j0, w.journal, id, w'.journal[(id, 0)]);
    }
    CellMoves(c, limit, j0, w, w', id, w'.cells[id]);
  }

  lemma ClosedOk(c: Config, limit: StepId -> nat, j0: Journal, j: Journal, id: StepId, cell: FanCell)
    requires id in c.doc && cell.Closed?
    ensures CellInv(c, limit, j0, j, id, cell) && CellShaped(c, j, id, cell)
  {
  }

  lemma CloseKeeps(c: Config, limit: StepId -> nat, j0: Journal, w: FanWalk, e: FanEvent)
    requires Inv(c, limit, j0, w) && Shaped(c, w) && FanEnabled(c, limit, w, e) && e.Close?
    ensures Inv(c, limit, j0, FanNext(c, limit, w, e))
  {
    hide Inv, JournalOk, JournalGrew, WellFormed, NeedsClosed, CellInv, CellShaped;
    InvAt(c, limit, j0, w, e.id);
    var w' := FanNext(c, limit, w, e);
    ClosedOk(c, limit, j0, w'.journal, e.id, w'.cells[e.id]);
    SameJournal(w, w');
    CellMoves(c, limit, j0, w, w', e.id, w'.cells[e.id]);
  }

  lemma FannedOk(c: Config, limit: StepId -> nat, j0: Journal, j: Journal, id: StepId, fan: Fan)
    requires FanOk(c, limit, j0, j, id, fan)
    ensures CellInv(c, limit, j0, j, id, Fanned(fan)) && CellShaped(c, j, id, Fanned(fan))
  {
    hide SlotOk, Grown, PcShape, Unvisited, Untouched;
    forall item <- fan.lanes ensures LaneShape(c, j, id, fan.items, item, fan.lanes[item]) {
      assert LaneOk(c, j0, j, id, fan.items, item, fan.lanes[item]);
    }
  }

  lemma ClaimKeeps(c: Config, limit: StepId -> nat, j0: Journal, w: FanWalk, e: FanEvent)
    requires Inv(c, limit, j0, w) && Shaped(c, w) && FanEnabled(c, limit, w, e) && e.Claim?
    ensures Inv(c, limit, j0, FanNext(c, limit, w, e))
  {
    hide Inv, FanOk, JournalOk, JournalGrew, WellFormed, NeedsClosed, CellShaped;
    var id := e.id;
    InvAt(c, limit, j0, w, id);
    var fan, w' := w.cells[id].fan, FanNext(c, limit, w, e);
    var fan' := fan.(next := fan.next + 1, lanes := fan.lanes[fan.next := AtSlot(fan.items, fan.next, 0, true)]);
    ClaimedFan(c, limit, j0, w.journal, id, fan, fan');
    FannedOk(c, limit, j0, w.journal, id, fan');
    SameJournal(w, w');
    CellMoves(c, limit, j0, w, w', id, Fanned(fan'));
  }

  lemma ClaimedFan(c: Config, limit: StepId -> nat, j0: Journal, j: Journal, id: StepId, fan: Fan, fan': Fan)
    requires WellFormed(c) && FanOk(c, limit, j0, j, id, fan) && fan.next < |fan.items| && |fan.lanes| < limit(id) && JournalOk(c, j)
    requires fan' == fan.(next := fan.next + 1, lanes := fan.lanes[fan.next := AtSlot(fan.items, fan.next, 0, true)])
    ensures FanOk(c, limit, j0, j, id, fan')
  {
    hide JournalOk, LaneOk, WellFormed, Untouched;
    NewLane(c, limit, j0, j, id, fan);
    forall item <- fan'.lanes ensures item < fan'.next && LaneOk(c, j0, j, id, fan'.items, item, fan'.lanes[item]) {
      if item != fan.next {
        assert LaneOk(c, j0, j, id, fan.items, item, fan.lanes[item]);
      }
    }
    OneMoreLane(fan.lanes, fan.next, fan'.lanes[fan.next]);
  }

  lemma OneMoreLane(lanes: map<nat, Pc>, item: nat, pc: Pc)
    requires item !in lanes
    ensures |lanes[item := pc]| == |lanes| + 1
  {
    assert lanes[item := pc].Keys == lanes.Keys + {item};
    assert |lanes[item := pc]| == |lanes[item := pc].Keys| && |lanes| == |lanes.Keys|;
  }

  lemma NewLane(c: Config, limit: StepId -> nat, j0: Journal, j: Journal, id: StepId, fan: Fan)
    requires WellFormed(c) && FanOk(c, limit, j0, j, id, fan) && fan.next < |fan.items| && JournalOk(c, j)
    ensures LaneOk(c, j0, j, id, fan.items, fan.next, AtSlot(fan.items, fan.next, 0, true))
  {
    hide JournalOk, SlotOk;
    var pc := AtSlot(fan.items, fan.next, 0, true);
    AtSlotOk(c, j, id, pc);
    assert 0 < MaxLoops(c.doc[id]) ==> Untouched(c, j0, j, id, fan.next, 0);
  }

  lemma FanLane(c: Config, limit: StepId -> nat, j0: Journal, j: Journal, id: StepId, fan: Fan, item: nat)
    requires FanOk(c, limit, j0, j, id, fan) && item in fan.lanes
    ensures LaneOk(c, j0, j, id, fan.items, item, fan.lanes[item]) && id in c.doc && c.doc[id].kind.Work?
    ensures LaneShape(c, j, id, fan.items, item, fan.lanes[item]) && PcShape(c.doc[id], fan.lanes[item], LaneRows(c, j, id, fan.lanes[item]))
  {
  }

  lemma AfterFacts(c: Config, id: StepId, pc: Pc, rows0: seq<Row>, rows: seq<Row>, e: Effect)
    requires id in c.doc && c.doc[id].kind.Work? && LaneAfter(c, id, pc, rows0, rows, e)
    ensures e.Effect? && RowsOk(e.rows) && Extends(c, id, rows0, e.rows)
  {
  }

  lemma RunKeeps(c: Config, limit: StepId -> nat, j0: Journal, w: FanWalk, e: FanEvent)
    requires Inv(c, limit, j0, w) && Shaped(c, w) && FanEnabled(c, limit, w, e) && e.Run?
    ensures Inv(c, limit, j0, FanNext(c, limit, w, e))
  {
    hide Inv, LaneOk, LaneShape, StepEffect, LaneAfter, FanOk, OnlyAt, JournalOk, JournalGrew, RowsOk, Extends, WellFormed, NeedsClosed, CellShaped;
    var Run(id, item, anc, world, aborted) := e;
    InvAt(c, limit, j0, w, id);
    var fan := w.cells[id].fan;
    var pc := fan.lanes[item];
    FanLane(c, limit, j0, w.journal, id, fan, item);
    var at := CurrentSlot(c.doc[id], pc);
    var rows0, rows := LaneRows(c, j0, id, pc), LaneRows(c, w.journal, id, pc);
    var effect := StepEffect(In(c, world), id, false, anc, Active(pc, fan.own, []), rows, w.paused, w.cancelled, aborted && w.aborting);
    LaneAdvances(c, j0, w.journal, id, fan.items, item, pc, fan.own, anc, world, w.paused, w.cancelled, aborted && w.aborting);
    AfterFacts(c, id, pc, rows0, rows, effect);
    var j' := w.journal[(id, at) := effect.rows];
    WriteOnlyAt(w.journal, id, at, effect.rows);
    JournalKept(c, j0, w.journal, j', id, at, effect.rows);
    MovedKept(c, limit, j0, w.journal, j', id, fan, item, effect);
    FannedOk(c, limit, j0, j', id, Moved(fan, item, effect.cell));
    OthersSame(w.journal, j', id, at, effect.rows);
    CellMoves(c, limit, j0, w, FanNext(c, limit, w, e), id, Fanned(Moved(fan, item, effect.cell)));
  }

  lemma FanStepKeeps(c: Config, limit: StepId -> nat, j0: Journal, w: FanWalk, e: FanEvent)
    requires Inv(c, limit, j0, w) && Shaped(c, w) && FanEnabled(c, limit, w, e)
    ensures Inv(c, limit, j0, FanNext(c, limit, w, e))
  {
    hide FanEnabled, JournalOk, JournalGrew, CellInv, CellShaped, NeedsClosed, WellFormed;
    match e
    case BeginStep(_, _, _) => BeginKeeps(c, limit, j0, w, e);
    case Decide(_, _) => DecideKeeps(c, limit, j0, w, e);
    case Claim(_) => ClaimKeeps(c, limit, j0, w, e);
    case Run(_, _, _, _, _) => RunKeeps(c, limit, j0, w, e);
    case Close(_) => CloseKeeps(c, limit, j0, w, e);
    case _ => SignalKeeps(c, limit, j0, w, FanNext(c, limit, w, e));
  }

  lemma SignalKeeps(c: Config, limit: StepId -> nat, j0: Journal, w: FanWalk, w': FanWalk)
    requires Inv(c, limit, j0, w) && w'.cells == w.cells && w'.journal == w.journal
    ensures Inv(c, limit, j0, w')
  {
    hide JournalOk, JournalGrew, CellInv, CellShaped, WellFormed;
    forall id <- c.doc | !w'.cells[id].Unbegun? ensures NeedsClosed(c, w', id) {
      assert NeedsClosed(c, w, id);
    }
  }

  lemma {:induction false} FanRunKeeps(c: Config, limit: StepId -> nat, j0: Journal, w: FanWalk, events: seq<FanEvent>, w': FanWalk)
    requires Inv(c, limit, j0, w) && FanRuns(c, limit, w, events, w')
    ensures Inv(c, limit, j0, w')
    decreases |events|
  {
    hide Inv, FanEnabled, Shaped, FanNext;
    if events != [] {
      FanStepKeeps(c, limit, j0, w, events[0]);
      FanRunKeeps(c, limit, j0, FanNext(c, limit, w, events[0]), events[1..], w');
    }
  }

  lemma FanStart(c: Config, limit: StepId -> nat, j: Journal)
    requires WellFormed(c) && JournalOk(c, j)
    ensures Inv(c, limit, j, StartFans(c, j))
  {
    hide RowsOk, WellFormed;
  }

  /** Journal safety with any number of iterations of any number of steps in flight, cut anywhere, and
      with any answer of the executor at every try: rows are only appended, at most 1 + retry.max a
      slot and walk; attempt numbers stay gap-free; no row of this walk executes an input of an
      undrifted step that has succeeded before, in this walk or an earlier one; and no step ever
      has more lanes in flight than its limit. */
  lemma FanOutSafety(c: Config, limit: StepId -> nat, j: Journal, events: seq<FanEvent>, w: FanWalk)
    requires WellFormed(c) && JournalOk(c, j) && FanRuns(c, limit, StartFans(c, j), events, w)
    ensures Shaped(c, w) && JournalOk(c, w.journal) && JournalGrew(c, j, w.journal)
    ensures forall id, slot: nat, k {:trigger Rows(w.journal, id, slot)[k]} |
        id in c.doc && c.doc[id].kind.Work? && 0 <= k < |Rows(w.journal, id, slot)| :: Rows(w.journal, id, slot)[k].attempt == k
    ensures forall id, slot: nat, a, b {:trigger Rows(w.journal, id, slot)[a], Rows(w.journal, id, slot)[b]} |
        && id in c.doc && c.doc[id].kind.Work? && id !in c.drifted
        && 0 <= a < b < |Rows(w.journal, id, slot)| && |Rows(j, id, slot)| <= b ::
        var rows := Rows(w.journal, id, slot);
        Hit(rows[a], rows[b].input) ==> rows[b].status.Memoized?
    ensures forall id <- c.doc | w.cells[id].Fanned? :: |w.cells[id].fan.lanes| <= limit(id)
  {
    hide WellFormed;
    FanStart(c, limit, j);
    FanRunKeeps(c, limit, j, StartFans(c, j), events, w);
    forall id, slot: nat | id in c.doc && c.doc[id].kind.Work?
      ensures RowsOk(Rows(w.journal, id, slot)) && (id !in c.drifted ==> NoRerun(Rows(j, id, slot), Rows(w.journal, id, slot)))
    {
      assert Extends(c, id, Rows(j, id, slot), Rows(w.journal, id, slot));
    }
    forall id <- c.doc | w.cells[id].Fanned? ensures |w.cells[id].fan.lanes| <= limit(id) {
      assert CellInv(c, limit, j, w.journal, id, w.cells[id]);
    }
  }

  // ---- any number of walks -------------------------------------------------------------------------------------

  // One walk: what had drifted when it began, and what happened.
  datatype Attempted = Attempted(drifted: set<StepId>, events: seq<FanEvent>, end: FanWalk)

  // Each walk begins over the journal the one before it left, wherever that one was cut.
  ghost predicate Resumes(c: Config, limit: StepId -> nat, j: Journal, walks: seq<Attempted>)
    decreases |walks|
  {
    walks == [] ||
    (FanRuns(c.(drifted := walks[0].drifted), limit, StartFans(c, j), walks[0].events, walks[0].end)
     && Resumes(c, limit, walks[0].end.journal, walks[1..]))
  }

  /** Across any number of resumes, with other answers and other drifted steps each time, the journal
      keeps its attempt numbers gap-free, every walk adds at most 1 + retry.max rows a slot, and
      none executes again what it may reuse. */
  lemma {:induction false} ResumesSafe(c: Config, limit: StepId -> nat, j: Journal, walks: seq<Attempted>, k: nat)
    requires WellFormed(c) && JournalOk(c, j) && Resumes(c, limit, j, walks) && k < |walks|
    ensures JournalOk(c, walks[k].end.journal)
    ensures JournalGrew(c.(drifted := walks[k].drifted), if k == 0 then j else walks[k - 1].end.journal, walks[k].end.journal)
    decreases k
  {
    hide JournalGrew, FanRuns;
    var c' := c.(drifted := walks[0].drifted);
    assert StartFans(c', j) == StartFans(c, j);
    FanOutSafety(c', limit, j, walks[0].events, walks[0].end);
    if k > 0 {
      ResumesSafe(c, limit, walks[0].end.journal, walks[1..], k - 1);
    }
  }
}
