/** What a pause or a cancel stops, and what a completed step means, at every point of every run. */
module PipelineStops {
  import opened Base
  import opened Pipeline
  import opened PipelineProofs
  import opened PipelineTheorems
  import opened PipelineRuns
  import opened PipelineGates
  import opened PipelineSkips
  import opened PipelineTrace

  // ---- nothing starts after a stop ---------------------------------------------------------------------------

  ghost predicate Stopped(st: Walk) { st.paused || st.cancelled }

  // The slot a step is executing or about to retry.
  ghost predicate Busy(c: Config, cell: Cell, id: StepId, slot: nat)
    requires id in c.doc
  {
    cell.Active? && (cell.pc.InFlight? || cell.pc.Backoff?) && slot == CurrentSlot(c.doc[id], cell.pc)
  }

  lemma StoppedEffect(c: Config, id: StepId, blocked: bool, anc: Scope, cell: Cell, rows: seq<Row>,
                      paused: bool, cancelled: bool, aborted: bool)
    requires Ready1(c, id, cell, rows) && c.doc[id].kind.Work? && (paused || cancelled)
    ensures var e := StepEffect(c, id, blocked, anc, cell, rows, paused, cancelled, aborted);
      && e.Effect?
      && (!cell.pc.InFlight? && !cell.pc.Backoff? ==> e.rows == rows)
      && (e.cell.Active? && (e.cell.pc.InFlight? || e.cell.pc.Backoff?) ==>
          (cell.pc.InFlight? || cell.pc.Backoff?) && CurrentSlot(c.doc[id], e.cell.pc) == CurrentSlot(c.doc[id], cell.pc))
      && (cancelled ==> OnlyCancelled(rows, e.rows))
  {
    hide FindMemo, Latest;
  }

  // What may still happen to a step's cell and rows after the walk stopped at `st`.
  ghost predicate StepStopped(c: Config, st: Walk, st': Walk, id: StepId)
    requires id in c.doc && id in st.cells && id in st'.cells
  {
    && (st.cells[id].Waiting? ==> st'.cells[id].Waiting?)
    && (c.doc[id].kind.Work? ==> forall slot: nat ::
          && (Busy(c, st'.cells[id], id, slot) ==> Busy(c, st.cells[id], id, slot))
          && (!Busy(c, st.cells[id], id, slot) ==> Rows(st'.journal, id, slot) == Rows(st.journal, id, slot))
          && (st.cancelled ==> OnlyCancelled(Rows(st.journal, id, slot), Rows(st'.journal, id, slot))))
  }

  // Rows are only added as cancelled, and a row that was finished stays as it was.
  ghost predicate OnlyCancelled(rows: seq<Row>, rows': seq<Row>) {
    && |rows| <= |rows'| && (forall k: nat | |rows| <= k < |rows'| :: rows'[k].status.RowCancelled?)
    && (forall k: nat | k < |rows| && !rows[k].status.Running? :: rows'[k] == rows[k])
  }

  lemma OnlyCancelledMore(a: seq<Row>, b: seq<Row>, d: seq<Row>)
    requires OnlyCancelled(a, b) && OnlyCancelled(b, d)
    ensures OnlyCancelled(a, d)
  {
  }

  ghost predicate WalkStopped(c: Config, st: Walk, st': Walk) {
    && st.cells.Keys == c.doc.Keys == st'.cells.Keys && (st.paused ==> st'.paused) && (st.cancelled ==> st'.cancelled)
    && forall id <- c.doc :: StepStopped(c, st, st', id)
  }

  lemma AdvanceStopped(c: Config, st: Walk, id: StepId, aborted: bool)
    requires Shape(c, st) && Stopped(st) && Enabled(c, st, Advance(id, aborted))
    ensures WalkStopped(c, st, Next(c, st, Advance(id, aborted)))
  {
    hide PcShape, NeedsSettled, StepEffect, SkipByUpstream, AncestorScope, OnlyCancelled;
    var st' := Next(c, st, Advance(id, aborted));
    assert st'.paused == st.paused && st'.cancelled == st.cancelled;
    OneCell(c, st, id, aborted);
    hide Next;
    forall x <- c.doc ensures StepStopped(c, st, st', x) {
      if x == id && c.doc[id].kind.Work? {
        ThisStopped(c, st, id, aborted);
      } else {
        SameStopped(c, st, st', x);
      }
    }
  }

  lemma SameStopped(c: Config, st: Walk, st': Walk, x: StepId)
    requires x in c.doc && x in st.cells && x in st'.cells
    requires c.doc[x].kind.Work? ==> st'.cells[x] == st.cells[x] && forall slot: nat :: Rows(st'.journal, x, slot) == Rows(st.journal, x, slot)
    requires st.cells[x].Waiting? ==> st'.cells[x].Waiting?
    ensures StepStopped(c, st, st', x)
  {
  }

  lemma ThisStopped(c: Config, st: Walk, id: StepId, aborted: bool)
    requires Shape(c, st) && Stopped(st) && Enabled(c, st, Advance(id, aborted)) && c.doc[id].kind.Work?
    ensures id in Next(c, st, Advance(id, aborted)).cells && StepStopped(c, st, Next(c, st, Advance(id, aborted)), id)
  {
    hide PcShape, NeedsSettled, StepEffect, SkipByUpstream, AncestorScope, CurrentSlot;
    var st' := Next(c, st, Advance(id, aborted));
    OneCell(c, st, id, aborted);
    StoppedEffect(c, id, SkipByUpstream(c, st, id), AncestorScope(c, st, id), st.cells[id], CurrentRows(c, st, id),
                  st.paused, st.cancelled, aborted && st.aborting);
    hide Next;
  }

  lemma EventStopped(c: Config, st: Walk, e: Event)
    requires Shape(c, st) && Stopped(st) && Enabled(c, st, e)
    ensures WalkStopped(c, st, Next(c, st, e))
  {
    hide PcShape, NeedsSettled, EffectOf, StepStopped;
    if e.Advance? {
      AdvanceStopped(c, st, e.id, e.aborted);
    } else {
      forall x <- c.doc ensures StepStopped(c, st, Next(c, st, e), x) {
        SameStopped(c, st, Next(c, st, e), x);
      }
    }
  }

  lemma StoppedMore(c: Config, a: Walk, b: Walk, d: Walk)
    requires WalkStopped(c, a, b) && WalkStopped(c, b, d)
    ensures WalkStopped(c, a, d)
  {
    hide Busy, OnlyCancelled;
    forall id <- c.doc ensures StepStopped(c, a, d, id) {
      assert StepStopped(c, a, b, id) && StepStopped(c, b, d, id);
      if c.doc[id].kind.Work? && a.cancelled {
        forall slot: nat ensures OnlyCancelled(Rows(a.journal, id, slot), Rows(d.journal, id, slot)) {
          OnlyCancelledMore(Rows(a.journal, id, slot), Rows(b.journal, id, slot), Rows(d.journal, id, slot));
        }
      }
    }
  }

  lemma {:induction false} RunStopped(c: Config, j0: Journal, st: Walk, events: seq<Event>, st': Walk)
    requires Struct(c, j0, st) && Stopped(st) && Runs(c, st, events, st')
    ensures WalkStopped(c, st, st')
    decreases |events|
  {
    hide Shape, Next, Enabled, WalkStopped, JournalOk, JournalGrew, CellOk;
    if events == [] {
      StaysStopped(c, st);
    } else {
      StructKept(c, j0, st, events[0]);
      EventStopped(c, st, events[0]);
      StoppedOn(c, st, Next(c, st, events[0]));
      RunStopped(c, j0, Next(c, st, events[0]), events[1..], st');
      StoppedMore(c, st, Next(c, st, events[0]), st');
    }
  }

  lemma StoppedOn(c: Config, st: Walk, st': Walk)
    requires Stopped(st) && WalkStopped(c, st, st')
    ensures Stopped(st')
  {
  }

  lemma StaysStopped(c: Config, st: Walk)
    requires Shape(c, st)
    ensures WalkStopped(c, st, st)
  {
  }

  /** Once a run is paused or cancelled nothing new starts: a waiting step stays waiting; the rows of an executable
      step do not change, except in the slot it was executing or about to retry; and after a cancel that slot gets
      no new try, only the outcome of the one in flight or a row that says cancelled. */
  lemma NothingStarts(c: Config, j: Journal, before: seq<Event>, st: Walk, after: seq<Event>, st': Walk, id: StepId, slot: nat)
    requires WellFormed(c) && JournalOk(c, j) && Runs(c, Start(c, j), before, st) && Stopped(st) && Runs(c, st, after, st') && id in c.doc
    ensures id in st.cells && id in st'.cells
    ensures st.cells[id].Waiting? ==> st'.cells[id].Waiting?
    ensures var (was, now) := (Rows(st.journal, id, slot), Rows(st'.journal, id, slot));
      c.doc[id].kind.Work? ==>
        && (now != was ==> Busy(c, st.cells[id], id, slot))
        && (st.cancelled ==> |was| <= |now| && forall k: nat | |was| <= k < |now| :: now[k].status == RowCancelled)
        && (st.cancelled ==> forall k: nat | k < |was| && was[k].status != Running :: now[k] == was[k])
  {
    hide JournalOk, Runs, Busy;
    FromStart(c, j, before, st);
    RunStopped(c, j, st, after, st');
    assert StepStopped(c, st, st', id);
  }

  // ---- a completed step ran all its items --------------------------------------------------------------------------

  // The first pass of item k was made.
  ghost predicate Made(step: Step, trace: seq<Visit>, k: nat)
    requires step.kind.Work?
  {
    exists v <- trace :: v.slot == PlaceSlot(step, Place(k, 0))
  }

  ghost predicate MadeUpTo(step: Step, trace: seq<Visit>, n: nat)
    requires step.kind.Work?
  {
    AllGood(trace) && forall k: nat | k < n :: Made(step, trace, k)
  }

  // As long as all went well, every visit was good and every item up to here was visited.
  ghost predicate Ran(c: Config, id: StepId, scope: Scope, cell: Cell)
    requires id in c.doc && c.doc[id].kind.Work?
  {
    match cell
    case Waiting => true
    case Refused => true
    case Active(pc, own, trace) =>
      if pc.Begin? then own.None? && trace == []
      else
        && (pc.AtSlot? || pc.InFlight? || pc.Backoff?) && pc.items == Listed(c, id, scope)
        && (pc.allOk ==> MadeUpTo(c.doc[id], trace, if pc.l > 0 then pc.i + 1 else pc.i))
    case Settled(d, own, trace) =>
      d == Completed ==> MadeUpTo(c.doc[id], trace, |Listed(c, id, scope)|)
  }

  lemma MadeMore(step: Step, trace: seq<Visit>, i: nat, l: nat, v: Visit)
    requires step.kind.Work? && MadeUpTo(step, trace, if l > 0 then i + 1 else i) && v.ok && v.slot == PlaceSlot(step, Place(i, l))
    ensures MadeUpTo(step, trace + [v], i + 1)
  {
    var more := trace + [v];
    assert v in more && forall x <- trace :: x in more;
    forall k: nat | k < i + 1 ensures Made(step, more, k) {
      if k < i || l > 0 {
        assert Made(step, trace, k);
        var x :| x in trace && x.slot == PlaceSlot(step, Place(k, 0));
        assert x in more;
      }
    }
  }

  lemma MadeFewer(step: Step, trace: seq<Visit>, n: nat, m: nat)
    requires step.kind.Work? && MadeUpTo(step, trace, n) && m <= n
    ensures MadeUpTo(step, trace, m)
  {
  }

  lemma SlotRan(c: Config, id: StepId, scope: Scope, cell: Cell, rows: seq<Row>, stopping: bool)
    requires Ready1(c, id, cell, rows) && c.doc[id].kind.Work? && Ran(c, id, scope, cell) && cell.pc.AtSlot?
    ensures SlotEffect(c, id, scope, cell, rows, stopping).Effect? && Ran(c, id, scope, SlotEffect(c, id, scope, cell, rows, stopping).cell)
  {
    hide FindMemo, Latest, Listed, MadeUpTo, View;
    var e := SlotEffect(c, id, scope, cell, rows, stopping);
    if cell.pc.i == |cell.pc.items| && cell.pc.allOk {
      MadeFewer(c.doc[id], cell.trace, if cell.pc.l > 0 then cell.pc.i + 1 else cell.pc.i, cell.pc.i);
    }
    if e.cell.Active? && |e.cell.trace| > |cell.trace| && cell.pc.allOk {
      MadeMore(c.doc[id], cell.trace, cell.pc.i, cell.pc.l, e.cell.trace[|cell.trace|]);
    }
  }

  lemma ResultRan(c: Config, id: StepId, scope: Scope, cell: Cell, rows: seq<Row>, cancelled: bool, aborted: bool)
    requires Ready1(c, id, cell, rows) && c.doc[id].kind.Work? && Ran(c, id, scope, cell) && cell.pc.InFlight?
    ensures var e := ResultEffect(c, id, scope, cell, rows, cancelled, aborted); e.Effect? && Ran(c, id, scope, e.cell)
  {
    hide Listed, MadeUpTo, View;
    var e := ResultEffect(c, id, scope, cell, rows, cancelled, aborted);
    if |e.cell.trace| > |cell.trace| && cell.pc.allOk && e.cell.trace[|cell.trace|].ok {
      MadeMore(c.doc[id], cell.trace, cell.pc.i, cell.pc.l, e.cell.trace[|cell.trace|]);
    }
  }

  lemma BeginRan(c: Config, id: StepId, blocked: bool, scope: Scope, cell: Cell, rows: seq<Row>)
    requires Ready1(c, id, cell, rows) && c.doc[id].kind.Work? && Ran(c, id, scope, cell) && cell.pc.Begin?
    ensures BeginEffect(c, id, blocked, scope, cell, rows).Effect? && Ran(c, id, scope, BeginEffect(c, id, blocked, scope, cell, rows).cell)
  {
    assert View(scope, id, None) == scope && ItemsOf(c, id, scope) == Listed(c, id, scope);
  }

  lemma EffectRan(c: Config, id: StepId, blocked: bool, scope: Scope, cell: Cell, rows: seq<Row>,
                  paused: bool, cancelled: bool, aborted: bool)
    requires Ready1(c, id, cell, rows) && c.doc[id].kind.Work? && Ran(c, id, scope, cell)
    ensures var e := StepEffect(c, id, blocked, scope, cell, rows, paused, cancelled, aborted);
      e.Effect? && Ran(c, id, scope, e.cell)
  {
    hide SlotEffect, ResultEffect, BeginEffect, Listed, MadeUpTo;
    match cell.pc
    case Begin => BeginRan(c, id, blocked, scope, cell, rows);
    case AtSlot(_, _, _, _) => SlotRan(c, id, scope, cell, rows, paused || cancelled);
    case InFlight(_, _, _, _, _, _) => ResultRan(c, id, scope, cell, rows, cancelled, aborted);
    case Backoff(_, _, _, _, _, _) =>
  }

  ghost predicate WalkRan(c: Config, st: Walk) {
    Shape(c, st) && forall id <- c.doc | c.doc[id].kind.Work? :: Ran(c, id, AncestorScope(c, st, id), st.cells[id])
  }

  lemma StepRan(c: Config, st: Walk, e: Event)
    requires WalkRan(c, st) && Enabled(c, st, e) && Shape(c, Next(c, st, e))
    ensures WalkRan(c, Next(c, st, e))
  {
    hide PcShape, NeedsSettled, AncestorScope, StepEffect, SkipByUpstream, Ran;
    var st' := Next(c, st, e);
    if e.Advance? {
      OneCell(c, st, e.id, e.aborted);
    }
    forall x <- c.doc | c.doc[x].kind.Work? ensures Ran(c, x, AncestorScope(c, st', x), st'.cells[x]) {
      if st.cells[x].Waiting? {
        FreshRan(c, x, AncestorScope(c, st', x));
      } else {
        SeesTheSame(c, st, st', x);
        if e.Advance? && x == e.id {
          EffectRan(c, x, SkipByUpstream(c, st, x), AncestorScope(c, st, x), st.cells[x], CurrentRows(c, st, x),
                    st.paused, st.cancelled, e.aborted && st.aborting);
        }
      }
    }
  }

  lemma FreshRan(c: Config, id: StepId, scope: Scope)
    requires id in c.doc && c.doc[id].kind.Work?
    ensures Ran(c, id, scope, Waiting) && Ran(c, id, scope, Active(Begin, None, []))
  {
  }

  lemma {:induction false} RunRan(c: Config, j0: Journal, st: Walk, events: seq<Event>, st': Walk)
    requires Struct(c, j0, st) && WalkRan(c, st) && Runs(c, st, events, st')
    ensures WalkRan(c, st')
    decreases |events|
  {
    hide Next, Enabled, WalkRan, JournalOk, JournalGrew, CellOk, PcShape;
    if events != [] {
      StructKept(c, j0, st, events[0]);
      StepRan(c, st, events[0]);
      RunRan(c, j0, Next(c, st, events[0]), events[1..], st');
    }
  }

  /** No false completion, at every point of every run, paused or cancelled anywhere: a step that completed visited
      each of its items and every one of its visits succeeded. */
  lemma CompletedRanAll(c: Config, j: Journal, events: seq<Event>, st: Walk, id: StepId)
    requires WellFormed(c) && JournalOk(c, j) && Runs(c, Start(c, j), events, st)
    requires id in c.doc && c.doc[id].kind.Work? && id in st.cells && st.cells[id].Settled? && st.cells[id].disp == Completed
    ensures st.cells.Keys == c.doc.Keys && forall v <- st.cells[id].trace :: v.ok
    ensures forall k: nat | k < |Listed(c, id, AncestorScope(c, st, id))| :: Made(c.doc[id], st.cells[id].trace, k)
  {
    hide JournalOk, Runs, PcShape, AncestorScope, Listed, Made, NeedsSettled;
    StartOk(c, j);
    RunRan(c, j, Start(c, j), events, st);
    assert Ran(c, id, AncestorScope(c, st, id), st.cells[id]);
  }
}
