/** Who is skipped, what a gate comes to and what a step sees, in the document's own terms and at every point
of every run: over any journal, in any interleaving, paused, cancelled or cut anywhere. */
module PipelineSkips {
  import opened Base
  import opened Pipeline
  import opened PipelineProofs
  import opened PipelineTheorems
  import opened PipelineRuns
  import opened PipelineGates

  // ---- what a step can see ---------------------------------------------------------------------------------

  // Each step on the path is a need of the next.
  ghost predicate NeedPath(c: Config, path: seq<StepId>) {
    |path| >= 2 ==>
      var m := |path| - 1;
      path[m] in c.doc && path[m - 1] in c.doc[path[m]].needs && NeedPath(c, path[..m])
  }

  ghost predicate PathTo(c: Config, a: StepId, id: StepId, path: seq<StepId>) {
    |path| >= 2 && path[0] == a && path[|path| - 1] == id && NeedPath(c, path)
  }

  ghost predicate Reaches(c: Config, a: StepId, id: StepId) {
    exists path :: PathTo(c, a, id, path)
  }

  /** The ancestors of a step are the steps a path of needs leads to, and no others. */
  lemma AncestorsIff(c: Config, id: StepId, a: StepId)
    requires WellFormed(c) && id in c.doc
    ensures a in Ancestors(c, id) <==> Reaches(c, a, id)
  {
    hide Ancestors, PathTo;
    if a in Ancestors(c, id) {
      AncestorReaches(c, id, a);
    }
    if path :| PathTo(c, a, id, path) {
      ReachesAncestor(c, id, a, path);
    }
  }

  lemma {:induction false} AncestorReaches(c: Config, id: StepId, a: StepId)
    requires WellFormed(c) && id in c.doc && a in Ancestors(c, id)
    ensures Reaches(c, a, id)
    decreases c.rank[id]
  {
    hide PathTo;
    if a in c.doc[id].needs {
      ShortPath(c, a, id);
    } else {
      var n :| n in c.doc[id].needs && a in Ancestors(c, n);
      AncestorReaches(c, n, a);
      hide Ancestors;
      var path :| PathTo(c, a, n, path);
      LongerPath(c, a, n, path, id);
    }
  }

  lemma ShortPath(c: Config, a: StepId, id: StepId)
    requires id in c.doc && a in c.doc[id].needs
    ensures PathTo(c, a, id, [a, id])
  {
    assert [a, id][..1] == [a];
    assert NeedPath(c, [a]);
  }

  lemma LongerPath(c: Config, a: StepId, n: StepId, path: seq<StepId>, id: StepId)
    requires PathTo(c, a, n, path) && id in c.doc && n in c.doc[id].needs
    ensures PathTo(c, a, id, path + [id])
  {
    assert (path + [id])[..|path|] == path;
  }

  lemma ShorterPath(c: Config, a: StepId, id: StepId, path: seq<StepId>)
    requires PathTo(c, a, id, path)
    ensures id in c.doc && path[|path| - 2] in c.doc[id].needs
    ensures if |path| == 2 then path[0] == a else PathTo(c, a, path[|path| - 2], path[..|path| - 1])
  {
  }

  lemma NeedsAncestors(c: Config, id: StepId, n: StepId)
    requires WellFormed(c) && id in c.doc && n in c.doc[id].needs
    ensures n in c.doc && n in Ancestors(c, id) && Ancestors(c, n) <= Ancestors(c, id)
  {
  }

  lemma {:induction false} ReachesAncestor(c: Config, id: StepId, a: StepId, path: seq<StepId>)
    requires WellFormed(c) && id in c.doc && PathTo(c, a, id, path)
    ensures a in Ancestors(c, id)
    decreases |path|
  {
    ShorterPath(c, a, id, path);
    hide Ancestors, PathTo;
    NeedsAncestors(c, id, path[|path| - 2]);
    if |path| > 2 {
      ReachesAncestor(c, path[|path| - 2], a, path[..|path| - 1]);
    }
  }

  /** A step sees the outputs of the steps a path of needs leads to, as they are, and nothing else. */
  lemma ScopeIff(c: Config, st: Walk, id: StepId, a: StepId)
    requires WellFormed(c) && id in c.doc && st.cells.Keys == c.doc.Keys
    ensures a in AncestorScope(c, st, id) <==>
      Reaches(c, a, id) && a in st.cells && (st.cells[a].Active? || st.cells[a].Settled?) && st.cells[a].own.Some?
    ensures a in AncestorScope(c, st, id) ==>
      a in st.cells && (st.cells[a].Active? || st.cells[a].Settled?) && st.cells[a].own == Some(AncestorScope(c, st, id)[a])
  {
    hide Reaches;
    AncestorsIff(c, id, a);
  }

  // ---- what a cell tells ------------------------------------------------------------------------------------

  // Some need was skipped, was cancelled, or failed where nothing lets its dependents go on.
  ghost predicate HeldBack(c: Config, st: Walk, id: StepId)
    requires Shape(c, st) && id in c.doc
  {
    exists n <- c.doc[id].needs :: st.cells[n].Settled? &&
      (|| st.cells[n].disp == Skipped || st.cells[n].disp == Disposition.Cancelled
       || (st.cells[n].disp == Failed && (c.doc[n].kind.Gate? || !c.doc[n].continueOnError)))
  }

  // A false condition, or a list of items that is empty.
  ghost predicate Unwanted(c: Config, id: StepId, scope: Scope)
    requires id in c.doc
  {
    || (c.doc[id].conditional && !c.world.when(id, scope))
    || (c.doc[id].kind.Work? && c.doc[id].kind.forEach && c.world.items(id, scope) == [])
  }

  // A gate completes when it is allowed, and also when it is not wired or expires and may then go on;
  // it is cancelled when it is superseded; otherwise it fails.
  ghost predicate GateTold(answer: Option<GateOutcome>, continueOnTimeout: bool, d: Disposition) {
    && (d == Completed <==> answer == Some(Allowed) || (continueOnTimeout && (answer.None? || answer == Some(GateOutcome.Expired))))
    && (d == Disposition.Cancelled <==> answer == Some(Superseded))
    && d != Skipped
  }

  ghost predicate GateRowTold(id: StepId, rows: seq<Row>, d: Disposition) {
    && rows != [] && rows[|rows| - 1].attempt == 0 && rows[|rows| - 1].input == "gate:" + id
    && rows[|rows| - 1].status ==
         (if d == Completed then RowCompleted else if d == Disposition.Cancelled then RowCancelled else RowFailed)
  }

  // What a cell says, given whether a need holds it back, what it sees, and the rows of its first slot.
  ghost predicate Told(c: Config, id: StepId, held: bool, scope: Scope, rows: seq<Row>, cell: Cell)
    requires id in c.doc
  {
    match cell
    case Waiting => true
    case Refused => true
    case Active(pc, own, trace) =>
      if pc.Begin? then own.None? && trace == []
      else
        && !held && !Unwanted(c, id, scope)
        && (if c.doc[id].kind.Gate? then
              && pc.AtGate? && own.None? && trace == []
              && rows != [] && rows[|rows| - 1] == Row(0, "gate:" + id, AwaitingApproval, None)
            else (pc.AtSlot? || pc.InFlight? || pc.Backoff?) && ItemsTold(c, id, scope, pc.items))
    case Settled(d, own, trace) =>
      if held || Unwanted(c, id, scope) then d == Skipped && own.None? && trace == []
      else if c.doc[id].kind.Gate? then
        && own.None? && trace == []
        && GateTold(c.world.gate(id), c.doc[id].kind.continueOnTimeout, d) && GateRowTold(id, rows, d)
      else d == Completed || d == Failed
  }

  // The items of a step: the list it asked for, or one pass without an item.
  ghost predicate ItemsTold(c: Config, id: StepId, scope: Scope, items: seq<Option<Item>>)
    requires id in c.doc && c.doc[id].kind.Work?
  {
    if c.doc[id].kind.forEach then
      |items| == |c.world.items(id, scope)| && forall k: nat | k < |items| :: items[k] == Some(c.world.items(id, scope)[k])
    else items == [None]
  }

  lemma BlockedIff(c: Config, st: Walk, id: StepId)
    requires Shape(c, st) && id in c.doc && st.cells[id].Active?
    ensures SkipByUpstream(c, st, id) <==> HeldBack(c, st, id)
  {
    hide PcShape;
    assert NeedsSettled(c, st.cells, id);
  }

  lemma BeginTold(c: Config, id: StepId, held: bool, scope: Scope, cell: Cell, rows: seq<Row>)
    requires id in c.doc && cell.Active? && cell.pc.Begin? && Told(c, id, held, scope, rows, cell)
    ensures var e := BeginEffect(c, id, held, scope, cell, rows); e.Effect? ==> Told(c, id, held, scope, e.rows, e.cell)
  {
  }

  lemma EffectTold(c: Config, id: StepId, held: bool, scope: Scope, cell: Cell, rows: seq<Row>,
                   paused: bool, cancelled: bool, aborted: bool)
    requires Ready1(c, id, cell, rows) && Told(c, id, held, scope, rows, cell)
    ensures var e := StepEffect(c, id, held, scope, cell, rows, paused, cancelled, aborted);
      e.Effect? ==> Told(c, id, held, scope, e.rows, e.cell)
  {
    hide BeginEffect, FindMemo, Latest;
    if cell.pc.Begin? {
      BeginTold(c, id, held, scope, cell, rows);
    }
  }

  ghost predicate WalkTold(c: Config, st: Walk) {
    Shape(c, st) && forall id <- c.doc :: Told(c, id, HeldBack(c, st, id), AncestorScope(c, st, id), Rows(st.journal, id, 0), st.cells[id])
  }

  // A step that has begun goes on seeing what it saw.
  lemma SeesTheSame(c: Config, st: Walk, st': Walk, x: StepId)
    requires Shape(c, st) && Shape(c, st') && x in c.doc && !st.cells[x].Waiting?
    requires forall y <- c.doc | st.cells[y].Settled? :: st'.cells[y] == st.cells[y]
    ensures HeldBack(c, st', x) == HeldBack(c, st, x) && AncestorScope(c, st', x) == AncestorScope(c, st, x)
  {
    hide PcShape;
    assert NeedsSettled(c, st.cells, x);
    forall a <- Ancestors(c, x) ensures st'.cells[a] == st.cells[a] {
      AncestorsSettled(c, st, x, a);
    }
  }

  lemma AdvanceTold(c: Config, st: Walk, id: StepId, aborted: bool)
    requires WalkTold(c, st) && Enabled(c, st, Advance(id, aborted)) && Shape(c, Next(c, st, Advance(id, aborted)))
    ensures WalkTold(c, Next(c, st, Advance(id, aborted)))
  {
    hide PcShape, Told, HeldBack, AncestorScope, NeedsSettled, StepEffect, SkipByUpstream;
    var st' := Next(c, st, Advance(id, aborted));
    OneCell(c, st, id, aborted);
    hide Next;
    forall x <- c.doc ensures Told(c, x, HeldBack(c, st', x), AncestorScope(c, st', x), Rows(st'.journal, x, 0), st'.cells[x]) {
      if st.cells[x].Waiting? {
        WaitingTold(c, x, HeldBack(c, st', x), AncestorScope(c, st', x), Rows(st'.journal, x, 0));
      } else {
        SeesTheSame(c, st, st', x);
        if x == id {
          BlockedIff(c, st, id);
          ThisTold(c, st, id, aborted);
        }
      }
    }
  }

  lemma WaitingTold(c: Config, id: StepId, held: bool, scope: Scope, rows: seq<Row>)
    requires id in c.doc
    ensures Told(c, id, held, scope, rows, Waiting) && Told(c, id, held, scope, rows, Refused)
    ensures Told(c, id, held, scope, rows, Active(Begin, None, []))
  {
  }

  // For an executable step the rows do not matter.
  lemma WorkTold(c: Config, id: StepId, held: bool, scope: Scope, rows: seq<Row>, rows': seq<Row>, cell: Cell)
    requires id in c.doc && c.doc[id].kind.Work? && Told(c, id, held, scope, rows, cell)
    ensures Told(c, id, held, scope, rows', cell)
  {
  }

  lemma ThisTold(c: Config, st: Walk, id: StepId, aborted: bool)
    requires WalkTold(c, st) && Enabled(c, st, Advance(id, aborted)) && Shape(c, Next(c, st, Advance(id, aborted)))
    ensures var st' := Next(c, st, Advance(id, aborted));
      id in st'.cells && Told(c, id, HeldBack(c, st, id), AncestorScope(c, st, id), Rows(st'.journal, id, 0), st'.cells[id])
  {
    hide PcShape, Told, HeldBack, AncestorScope, NeedsSettled, StepEffect, SkipByUpstream;
    var held, scope := HeldBack(c, st, id), AncestorScope(c, st, id);
    OneCell(c, st, id, aborted);
    hide Next;
    BlockedIff(c, st, id);
    var (cell, rows, e) := (st.cells[id], CurrentRows(c, st, id), EffectOf(c, st, id, aborted));
    if e.Throw? {
      WaitingTold(c, id, held, scope, Rows(Next(c, st, Advance(id, aborted)).journal, id, 0));
    } else {
      assert Told(c, id, held, scope, Rows(st.journal, id, 0), cell);
      if c.doc[id].kind.Gate? {
        GateSlot(c, st, id);
      } else {
        WorkTold(c, id, held, scope, Rows(st.journal, id, 0), rows, cell);
      }
      EffectTold(c, id, held, scope, cell, rows, st.paused, st.cancelled, aborted && st.aborting);
      if c.doc[id].kind.Work? {
        WorkTold(c, id, held, scope, e.rows, Rows(Next(c, st, Advance(id, aborted)).journal, id, 0), e.cell);
      }
    }
  }

  lemma GenerationTold(c: Config, st: Walk)
    requires WalkTold(c, st) && Enabled(c, st, Generation) && Shape(c, Next(c, st, Generation))
    ensures WalkTold(c, Next(c, st, Generation))
  {
    hide PcShape, Told, HeldBack, AncestorScope, NeedsSettled;
    var st' := Next(c, st, Generation);
    forall x <- c.doc ensures Told(c, x, HeldBack(c, st', x), AncestorScope(c, st', x), Rows(st'.journal, x, 0), st'.cells[x]) {
      if st.cells[x].Waiting? {
        WaitingTold(c, x, HeldBack(c, st', x), AncestorScope(c, st', x), Rows(st'.journal, x, 0));
      } else {
        SeesTheSame(c, st, st', x);
      }
    }
  }

  lemma SignalTold(c: Config, st: Walk, st': Walk)
    requires WalkTold(c, st) && Shape(c, st') && st'.cells == st.cells && st'.journal == st.journal
    ensures WalkTold(c, st')
  {
    hide PcShape, Told, NeedsSettled, HeldBack, AncestorScope;
    forall x <- c.doc ensures Told(c, x, HeldBack(c, st', x), AncestorScope(c, st', x), Rows(st'.journal, x, 0), st'.cells[x]) {
      if st.cells[x].Waiting? {
        WaitingTold(c, x, HeldBack(c, st', x), AncestorScope(c, st', x), Rows(st'.journal, x, 0));
      } else {
        SeesTheSame(c, st, st', x);
      }
    }
  }

  lemma StepTold(c: Config, j0: Journal, st: Walk, e: Event)
    requires Struct(c, j0, st) && WalkTold(c, st) && Enabled(c, st, e)
    ensures WalkTold(c, Next(c, st, e))
  {
    hide WalkTold, JournalOk, JournalGrew, CellOk, PcShape, EffectOf;
    StructKept(c, j0, st, e);
    match e
    case Generation => GenerationTold(c, st);
    case Advance(id, aborted) => AdvanceTold(c, st, id, aborted);
    case _ => SignalTold(c, st, Next(c, st, e));
  }

  lemma {:induction false} RunTold(c: Config, j0: Journal, st: Walk, events: seq<Event>, st': Walk)
    requires Struct(c, j0, st) && WalkTold(c, st) && Runs(c, st, events, st')
    ensures Struct(c, j0, st') && WalkTold(c, st')
    decreases |events|
  {
    hide Struct, WalkTold, Shape, Next, Enabled;
    if events != [] {
      StepTold(c, j0, st, events[0]);
      StructKept(c, j0, st, events[0]);
      RunTold(c, j0, Next(c, st, events[0]), events[1..], st');
    }
  }

  // At every point of every run.
  lemma AlwaysTold(c: Config, j: Journal, events: seq<Event>, st: Walk, id: StepId)
    requires WellFormed(c) && JournalOk(c, j) && Runs(c, Start(c, j), events, st) && id in c.doc
    ensures Shape(c, st) && (!st.cells[id].Waiting? ==> NeedsSettled(c, st.cells, id))
    ensures Told(c, id, HeldBack(c, st, id), AncestorScope(c, st, id), Rows(st.journal, id, 0), st.cells[id])
  {
    hide JournalOk, Runs, PcShape, Told, HeldBack, AncestorScope, NeedsSettled;
    StartOk(c, j);
    StartTold(c, j);
    RunTold(c, j, Start(c, j), events, st);
  }

  lemma StartTold(c: Config, j: Journal)
    requires WellFormed(c)
    ensures WalkTold(c, Start(c, j))
  {
  }

  /** Skip propagation, at every point of every run: a settled step was skipped, with nothing done, exactly
      when some need was skipped or cancelled, or failed as a gate or without onError:continue; or its
      condition was false or its list of items empty, over the outputs of its ancestors. */
  lemma SkippedIff(c: Config, j: Journal, events: seq<Event>, st: Walk, id: StepId)
    requires WellFormed(c) && JournalOk(c, j) && Runs(c, Start(c, j), events, st)
    requires id in c.doc && id in st.cells && st.cells[id].Settled?
    ensures st.cells.Keys == c.doc.Keys && forall n <- c.doc[id].needs :: st.cells[n].Settled?
    ensures var held := exists n <- c.doc[id].needs ::
        || st.cells[n].disp == Skipped || st.cells[n].disp == Disposition.Cancelled
        || (st.cells[n].disp == Failed && (c.doc[n].kind.Gate? || !c.doc[n].continueOnError));
      var scope := AncestorScope(c, st, id);
      var unwanted := (c.doc[id].conditional && !c.world.when(id, scope))
        || (c.doc[id].kind.Work? && c.doc[id].kind.forEach && c.world.items(id, scope) == []);
      && (st.cells[id].disp == Skipped <==> held || unwanted)
      && (held || unwanted ==> st.cells[id] == Settled(Skipped, None, []))
  {
    hide JournalOk, Runs, PcShape, AncestorScope, WellFormed;
    AlwaysTold(c, j, events, st, id);
  }

  /** What a gate comes to, at every point of every run: one that was not skipped completed exactly when it was
      allowed, or was not wired or expired under onTimeout:continue; it was cancelled exactly when superseded; and
      its row in the journal says the same. */
  lemma GateIff(c: Config, j: Journal, events: seq<Event>, st: Walk, id: StepId)
    requires WellFormed(c) && JournalOk(c, j) && Runs(c, Start(c, j), events, st)
    requires id in c.doc && c.doc[id].kind.Gate? && id in st.cells && st.cells[id].Settled? && st.cells[id].disp != Skipped
    ensures var (answer, go, d) := (c.world.gate(id), c.doc[id].kind.continueOnTimeout, st.cells[id].disp);
      && (d == Completed <==> answer == Some(Allowed) || (go && answer.None?) || (go && answer == Some(GateOutcome.Expired)))
      && (d == Disposition.Cancelled <==> answer == Some(Superseded))
      && (d == Failed <==> answer == Some(Denied) || (!go && answer.None?) || (!go && answer == Some(GateOutcome.Expired)))
    ensures st.cells[id].own.None? && st.cells[id].trace == [] && GateRowTold(id, Rows(st.journal, id, 0), st.cells[id].disp)
  {
    hide JournalOk, Runs, PcShape, AncestorScope, WellFormed;
    AlwaysTold(c, j, events, st, id);
    match c.world.gate(id)
    case None =>
    case Some(answer) => assert answer == Allowed || answer == Denied || answer == GateOutcome.Expired || answer == Superseded;
  }

  /** An executable step that is not skipped works through exactly the items its list gives over the outputs of its
      ancestors, in that order, or through one pass without an item; and it ends completed or failed. */
  lemma WorksThroughItems(c: Config, j: Journal, events: seq<Event>, st: Walk, id: StepId)
    requires WellFormed(c) && JournalOk(c, j) && Runs(c, Start(c, j), events, st) && id in c.doc && c.doc[id].kind.Work? && id in st.cells
    ensures st.cells.Keys == c.doc.Keys
    ensures st.cells[id].Active? && !st.cells[id].pc.Begin? ==>
      && (st.cells[id].pc.AtSlot? || st.cells[id].pc.InFlight? || st.cells[id].pc.Backoff?)
      && var (items, listed) := (st.cells[id].pc.items, c.world.items(id, AncestorScope(c, st, id)));
      if c.doc[id].kind.forEach then |items| == |listed| > 0 && forall k: nat | k < |items| :: items[k] == Some(listed[k])
      else items == [None]
    ensures st.cells[id].Settled? ==> st.cells[id].disp != Disposition.Cancelled
  {
    hide JournalOk, Runs, PcShape, AncestorScope, WellFormed;
    AlwaysTold(c, j, events, st, id);
  }
}
