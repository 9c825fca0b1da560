/** What every interleaving of the pipeline machine keeps, and what it ends in. */
module PipelineProofs {
  import opened Base
  import opened Pipeline

  // ---- the journal invariants ------------------------------------------------------------

  // Attempt numbers are gap-free; a memoized row carries no output of its own and repeats an
  // earlier completed one.
  ghost predicate RowsOk(rows: seq<Row>) {
    && (forall k | 0 <= k < |rows| :: rows[k].attempt == k && (rows[k].status.Memoized? ==> rows[k].output.None?))
    && Grounded(rows)
  }

  // No row added since the slot held rows0 executes an input that has succeeded: after a success
  // only memoized rows of that input are added.
  ghost predicate NoRerun(rows0: seq<Row>, rows: seq<Row>) {
    forall a, b | 0 <= a < b < |rows| && |rows0| <= b :: Hit(rows[a], rows[b].input) ==> rows[b].status.Memoized?
  }

  // Every memoized row repeats an earlier completed one.
  ghost predicate Grounded(rows: seq<Row>) {
    forall k | 0 <= k < |rows| && rows[k].status.Memoized? :: CompletedBefore(rows, k, rows[k].input)
  }

  ghost predicate CompletedBefore(rows: seq<Row>, k: nat, input: Input)
    requires k <= |rows|
  {
    exists a :: 0 <= a < k && rows[a].status.RowCompleted? && rows[a].input == input
  }

  ghost predicate NoHit(rows: seq<Row>, input: Input) {
    forall k | 0 <= k < |rows| :: !Hit(rows[k], input)
  }

  // A step whose capability did not drift executes only inputs the slot holds no success for.
  ghost predicate SlotOk(c: Config, id: StepId, pc: Pc, rows: seq<Row>) {
    RowsOk(rows) && (id !in c.drifted && (pc.InFlight? || pc.Backoff?) ==> NoHit(rows, pc.input))
  }

  lemma {:induction false} LatestIsCount(rows: seq<Row>)
    requires forall k | 0 <= k < |rows| :: rows[k].attempt == k
    ensures Latest(rows) == |rows| - 1
  {
    if rows != [] {
      LatestIsCount(rows[..|rows| - 1]);
    }
  }

  lemma AppendedOk(rows0: seq<Row>, rows: seq<Row>, input: Input, status: Status)
    requires RowsOk(rows) && rows0 <= rows && !status.RowCompleted?
    requires status.Memoized? ==> CompletedBefore(rows, |rows|, input)
    ensures RowsOk(Appended(rows, input, status))
    ensures NoRerun(rows0, rows) && (status.Memoized? || NoHit(rows, input)) ==> NoRerun(rows0, Appended(rows, input, status))
    ensures !status.Memoized? && NoHit(rows, input) ==> NoHit(Appended(rows, input, status), input)
  {
    LatestIsCount(rows);
    var rows' := Appended(rows, input, status);
    forall k | 0 <= k < |rows'| && rows'[k].status.Memoized? ensures CompletedBefore(rows', k, rows'[k].input) {
      var a :| 0 <= a < k && rows[a].status.RowCompleted? && rows[a].input == rows'[k].input;
      assert rows'[a] == rows[a];
    }
  }

  // A hit goes back to a completed row.
  lemma HitGrounded(rows: seq<Row>, input: Input, k: nat)
    requires RowsOk(rows) && k < |rows| && Hit(rows[k], input)
    ensures CompletedBefore(rows, |rows|, input)
  {
    if rows[k].status.Memoized? {
      var a :| 0 <= a < k && rows[a].status.RowCompleted? && rows[a].input == rows[k].input;
    }
  }

  lemma FinishedOk(rows0: seq<Row>, rows: seq<Row>, r: ExecResult)
    requires RowsOk(rows) && rows != [] && rows0 <= rows && rows[|rows| - 1].status.Running?
    ensures var rows' := Finished(rows, if Succeeded(r) then RowCompleted else RowFailed, r.output);
      && RowsOk(rows')
      && (NoRerun(rows0, rows) && NoHit(rows, rows[|rows| - 1].input) ==> NoRerun(rows0, rows'))
      && (NoHit(rows, rows[|rows| - 1].input) && !Succeeded(r) ==> NoHit(rows', rows[|rows| - 1].input))
  {
    hide CompletedBefore;
    var n := |rows| - 1;
    var rows' := Finished(rows, if Succeeded(r) then RowCompleted else RowFailed, r.output);
    FinishedGrounded(rows, rows');
    if NoRerun(rows0, rows) && NoHit(rows, rows[n].input) {
      forall a, b | 0 <= a < b < |rows'| && |rows0| <= b && Hit(rows'[a], rows'[b].input) ensures rows'[b].status.Memoized? {
        assert rows'[a] == rows[a];
        if b < n {
          assert rows'[b] == rows[b];
        }
      }
    }
  }

  lemma FinishedGrounded(rows: seq<Row>, rows': seq<Row>)
    requires Grounded(rows) && rows != [] && |rows'| == |rows| && rows'[..|rows| - 1] == rows[..|rows| - 1]
    requires !rows'[|rows| - 1].status.Memoized?
    ensures Grounded(rows')
  {
    var n := |rows| - 1;
    assert forall k | 0 <= k < n :: rows'[k] == rows'[..n][k] == rows[k];
    forall k | 0 <= k < |rows'| && rows'[k].status.Memoized? ensures CompletedBefore(rows', k, rows'[k].input) {
      assert CompletedBefore(rows, k, rows[k].input);
      var a :| 0 <= a < k && rows[a].status.RowCompleted? && rows[a].input == rows[k].input;
      assert rows'[a] == rows[a];
    }
  }

  // ---- one advance, seen from the step alone -------------------------------------------------

  // The facts an advance may rely on.
  ghost predicate Ready1(c: Config, id: StepId, cell: Cell, rows: seq<Row>) {
    id in c.doc && cell.Active? && PcShape(c.doc[id], cell.pc, rows)
  }

  ghost predicate ShapeAfter(step: Step, pc: Pc, e: Effect) {
    e.Effect? ==>
      && !e.cell.Waiting?
      && (e.cell.Active? ==> match e.cell.pc
          case Begin => false
          case AtSlot(items, i, _, _) => step.kind.Work? && i <= |items|
          case _ => PcShape(step, e.cell.pc, e.rows) && CurrentSlot(step, e.cell.pc) == CurrentSlot(step, pc))
  }

  lemma EffectShape(c: Config, id: StepId, blocked: bool, anc: Scope, cell: Cell, rows: seq<Row>,
                    paused: bool, cancelled: bool, aborted: bool)
    requires Ready1(c, id, cell, rows)
    ensures ShapeAfter(c.doc[id], cell.pc, StepEffect(c, id, blocked, anc, cell, rows, paused, cancelled, aborted))
  {
    match cell.pc
    case Begin =>
    case AtGate =>
    case AtSlot(_, _, _, _) => SlotShape(c, id, anc, cell, rows, paused || cancelled);
    case InFlight(_, _, _, _, _, _) => ResultShape(c, id, anc, cell, rows, cancelled, aborted);
    case Backoff(_, _, _, _, _, _) =>
  }

  // A step's trace only grows.
  lemma EffectTrace(c: Config, id: StepId, blocked: bool, anc: Scope, cell: Cell, rows: seq<Row>,
                    paused: bool, cancelled: bool, aborted: bool)
    requires Ready1(c, id, cell, rows)
    ensures var e := StepEffect(c, id, blocked, anc, cell, rows, paused, cancelled, aborted);
      e.Effect? ==> Trace(cell) <= Trace(e.cell)
  {
    match cell.pc
    case Begin =>
    case AtGate =>
    case AtSlot(_, _, _, _) =>
    case InFlight(_, _, _, _, _, _) =>
    case Backoff(_, _, _, _, _, _) =>
  }

  lemma SlotShape(c: Config, id: StepId, anc: Scope, cell: Cell, rows: seq<Row>, stopping: bool)
    requires Ready1(c, id, cell, rows) && cell.pc.AtSlot?
    ensures ShapeAfter(c.doc[id], cell.pc, SlotEffect(c, id, anc, cell, rows, stopping))
  {
  }

  lemma ResultShape(c: Config, id: StepId, anc: Scope, cell: Cell, rows: seq<Row>, cancelled: bool, aborted: bool)
    requires Ready1(c, id, cell, rows) && cell.pc.InFlight?
    ensures ShapeAfter(c.doc[id], cell.pc, ResultEffect(c, id, anc, cell, rows, cancelled, aborted))
  {
  }

  // What an advance leaves in its slot.
  ghost predicate RowsAfter(c: Config, id: StepId, rows0: seq<Row>, e: Effect) {
    && e.Effect? && RowsOk(e.rows) && (id !in c.drifted ==> NoRerun(rows0, e.rows))
    && (e.cell.Active? && !e.cell.pc.AtSlot? ==> SlotOk(c, id, e.cell.pc, e.rows))
  }

  lemma EffectRows(c: Config, id: StepId, blocked: bool, anc: Scope, cell: Cell, rows0: seq<Row>, rows: seq<Row>,
                   paused: bool, cancelled: bool, aborted: bool)
    requires Ready1(c, id, cell, rows) && c.doc[id].kind.Work? && SlotOk(c, id, cell.pc, rows)
    requires rows0 <= rows && (id !in c.drifted ==> NoRerun(rows0, rows))
    ensures RowsAfter(c, id, rows0, StepEffect(c, id, blocked, anc, cell, rows, paused, cancelled, aborted))
  {
    hide RowsOk, NoRerun, NoHit;
    match cell.pc
    case Begin =>
    case AtGate =>
    case AtSlot(items, i, l, allOk) => SlotRows(c, id, anc, cell, rows0, rows, paused || cancelled);
    case InFlight(items, i, l, allOk, input, tries) =>
      var slot := SlotOf(c.doc[id], i, l);
      FinishedOk(rows0, rows, if aborted then ExecResult(false, false, "error", None) else c.world.execute(id, slot, input, tries));
    case Backoff(items, i, l, allOk, input, tries) =>
      AppendedOk(rows0, rows, input, if cancelled then RowCancelled else Running);
  }

  lemma SlotRows(c: Config, id: StepId, anc: Scope, cell: Cell, rows0: seq<Row>, rows: seq<Row>, stopping: bool)
    requires Ready1(c, id, cell, rows) && cell.pc.AtSlot? && SlotOk(c, id, cell.pc, rows)
    requires rows0 <= rows && (id !in c.drifted ==> NoRerun(rows0, rows))
    ensures RowsAfter(c, id, rows0, SlotEffect(c, id, anc, cell, rows, stopping))
  {
    hide NoRerun;
    var AtSlot(items, i, l, allOk) := cell.pc;
    if i < |items| && l < MaxLoops(c.doc[id]) && !stopping {
      var input := c.world.resolve(id, View(anc, id, cell.own), items[i]);
      var memo := FindMemo(rows, input);
      if id !in c.drifted && memo.Some? {
        var k :| 0 <= k < |rows| && rows[k] == memo.value;
        HitGrounded(rows, input, k);
        AppendedOk(rows0, rows, input, Memoized);
      } else {
        AppendedOk(rows0, rows, input, Running);
      }
    }
  }

  // ---- which slots a walk has touched ----------------------------------------------------------

  lemma SlotsDistinct(step: Step, i: nat, l: nat, i': nat, l': nat)
    requires step.kind.Work? && MaxLoops(step) <= 1000
    requires l < MaxLoops(step) && l' < MaxLoops(step)
    requires SlotOf(step, i, l) == SlotOf(step, i', l')
    ensures i == i' && l == l'
  {
  }

  // Positions (item, pass) the step has yet to reach.
  ghost predicate Unvisited(pc: Pc, i: nat, l: nat) {
    match pc
    case Begin => true
    case AtGate => false
    case AtSlot(_, i0, l0, _) => i0 < i || (i0 == i && l0 <= l)
    case InFlight(_, i0, l0, _, _, _) => i0 < i || (i0 == i && l0 < l)
    case Backoff(_, i0, l0, _, _, _) => i0 < i || (i0 == i && l0 < l)
  }

  // The current slot against what it held when the walk began: one row per try.
  ghost predicate Grown(step: Step, pc: Pc, rows0: seq<Row>, rows: seq<Row>) {
    match pc
    case AtSlot(items, i, l, _) => step.kind.Work? && i < |items| && l < MaxLoops(step) ==> rows == rows0
    case InFlight(_, _, _, _, _, tries) => rows0 <= rows && |rows| == |rows0| + tries
    case Backoff(_, _, _, _, _, tries) => rows0 <= rows && |rows| == |rows0| + tries
    case _ => true
  }

  // Append-only history, with at most 1 + retry.max new rows.
  ghost predicate Longer(step: Step, rows0: seq<Row>, rows: seq<Row>)
    requires step.kind.Work?
  {
    rows0 <= rows && |rows| <= |rows0| + 1 + step.kind.retryMax
  }

  // What one walk may do to a slot.
  ghost predicate Extends(c: Config, id: StepId, rows0: seq<Row>, rows: seq<Row>)
    requires id in c.doc && c.doc[id].kind.Work?
  {
    Longer(c.doc[id], rows0, rows) && (id !in c.drifted ==> NoRerun(rows0, rows))
  }

  ghost predicate GrownAfter(step: Step, pc: Pc, rows0: seq<Row>, rows: seq<Row>, e: Effect)
    requires step.kind.Work?
  {
    e.Effect? ==>
      && Longer(step, rows0, e.rows)
      && (e.cell.Active? && !e.cell.pc.AtSlot? ==> Grown(step, e.cell.pc, rows0, e.rows))
      && (e.cell.Active? ==> forall i: nat, l: nat | l < MaxLoops(step) && Unvisited(e.cell.pc, i, l) ::
            Unvisited(pc, i, l) && (e.rows != rows ==> SlotOf(step, i, l) != CurrentSlot(step, pc)))
  }

  lemma EffectGrowth(c: Config, id: StepId, blocked: bool, anc: Scope, cell: Cell, rows0: seq<Row>, rows: seq<Row>,
                     paused: bool, cancelled: bool, aborted: bool)
    requires Ready1(c, id, cell, rows) && c.doc[id].kind.Work? && MaxLoops(c.doc[id]) <= 1000
    requires Grown(c.doc[id], cell.pc, rows0, rows) && Longer(c.doc[id], rows0, rows)
    ensures GrownAfter(c.doc[id], cell.pc, rows0, rows, StepEffect(c, id, blocked, anc, cell, rows, paused, cancelled, aborted))
  {
    match cell.pc
    case Begin =>
    case AtGate =>
    case AtSlot(_, _, _, _) => SlotGrowth(c, id, anc, cell, rows0, rows, paused || cancelled);
    case InFlight(_, _, _, _, _, _) => ResultGrowth(c, id, anc, cell, rows0, rows, cancelled, aborted);
    case Backoff(_, _, _, _, _, _) => RetryGrowth(c, id, cell, rows0, rows, cancelled);
  }

  lemma SlotGrowth(c: Config, id: StepId, anc: Scope, cell: Cell, rows0: seq<Row>, rows: seq<Row>, stopping: bool)
    requires Ready1(c, id, cell, rows) && cell.pc.AtSlot? && MaxLoops(c.doc[id]) <= 1000
    requires Grown(c.doc[id], cell.pc, rows0, rows) && Longer(c.doc[id], rows0, rows)
    ensures GrownAfter(c.doc[id], cell.pc, rows0, rows, SlotEffect(c, id, anc, cell, rows, stopping))
  {
    var step := c.doc[id];
    var e := SlotEffect(c, id, anc, cell, rows, stopping);
    forall i: nat, l: nat | e.cell.Active? && e.rows != rows && l < MaxLoops(step) && Unvisited(e.cell.pc, i, l)
      ensures SlotOf(step, i, l) != CurrentSlot(step, cell.pc)
    {
      if SlotOf(step, i, l) == CurrentSlot(step, cell.pc) {
        SlotsDistinct(step, i, l, cell.pc.i, cell.pc.l);
      }
    }
  }

  lemma ResultGrowth(c: Config, id: StepId, anc: Scope, cell: Cell, rows0: seq<Row>, rows: seq<Row>, cancelled: bool, aborted: bool)
    requires Ready1(c, id, cell, rows) && cell.pc.InFlight? && MaxLoops(c.doc[id]) <= 1000
    requires Grown(c.doc[id], cell.pc, rows0, rows)
    ensures GrownAfter(c.doc[id], cell.pc, rows0, rows, ResultEffect(c, id, anc, cell, rows, cancelled, aborted))
  {
    var step := c.doc[id];
    var e := ResultEffect(c, id, anc, cell, rows, cancelled, aborted);
    forall i: nat, l: nat | e.cell.Active? && l < MaxLoops(step) && Unvisited(e.cell.pc, i, l)
      ensures SlotOf(step, i, l) != CurrentSlot(step, cell.pc)
    {
      if SlotOf(step, i, l) == CurrentSlot(step, cell.pc) {
        SlotsDistinct(step, i, l, cell.pc.i, cell.pc.l);
      }
    }
  }

  lemma RetryGrowth(c: Config, id: StepId, cell: Cell, rows0: seq<Row>, rows: seq<Row>, cancelled: bool)
    requires Ready1(c, id, cell, rows) && cell.pc.Backoff? && MaxLoops(c.doc[id]) <= 1000
    requires Grown(c.doc[id], cell.pc, rows0, rows)
    ensures GrownAfter(c.doc[id], cell.pc, rows0, rows, RetryEffect(c, id, cell, rows, cancelled))
  {
    var step := c.doc[id];
    var e := RetryEffect(c, id, cell, rows, cancelled);
    forall i: nat, l: nat | e.cell.Active? && l < MaxLoops(step) && Unvisited(e.cell.pc, i, l)
      ensures SlotOf(step, i, l) != CurrentSlot(step, cell.pc)
    {
      if SlotOf(step, i, l) == CurrentSlot(step, cell.pc) {
        SlotsDistinct(step, i, l, cell.pc.i, cell.pc.l);
      }
    }
  }

  // ---- the retry loop ---------------------------------------------------------------------------

  ghost predicate MayRetry(c: Config, id: StepId, slot: nat, input: Input, k: nat)
    requires id in c.doc && c.doc[id].kind.Work?
  {
    var r := c.world.execute(id, slot, input, k);
    !Succeeded(r) && Retryable(c.doc[id], r)
  }

  /** Where the retry loop stops: at the first try that succeeds or may not be retried, and at the
      latest after retry.max retries. */
  lemma {:induction false} LastTryIs(c: Config, id: StepId, slot: nat, input: Input, t: nat, n: nat)
    requires id in c.doc && c.doc[id].kind.Work? && t <= 1 + c.doc[id].kind.retryMax
    ensures LastTry(c, id, slot, input, t) == n <==>
      && t <= n <= 1 + c.doc[id].kind.retryMax
      && (forall k | t <= k < n :: MayRetry(c, id, slot, input, k))
      && (MayRetry(c, id, slot, input, n) ==> n == 1 + c.doc[id].kind.retryMax)
    decreases 1 + c.doc[id].kind.retryMax - t
  {
    if t < 1 + c.doc[id].kind.retryMax && MayRetry(c, id, slot, input, t) {
      LastTryIs(c, id, slot, input, t + 1, n);
    } else {
      assert LastTry(c, id, slot, input, t) == t;
    }
  }

  // ---- staying on the declared meaning --------------------------------------------------------

  // The journal answers this slot's lookup with what the visit contributed.
  ghost predicate Faithful(rows: seq<Row>, v: Visit) {
    var memo := FindMemo(rows, v.input);
    memo.Some? ==> v.ok && memo.value.output == v.output
  }

  ghost function Behind(trace: seq<Visit>, o: Outcome): Outcome { o.(visits := trace + o.visits) }

  ghost predicate OnPc(c: Config, id: StepId, pc: Pc, own: Option<Value>, trace: seq<Visit>)
    requires WellFormed(c) && id in c.doc
  {
    match pc
    case Begin => own.None? && trace == []
    case AtGate =>
      && c.doc[id].kind.Gate?
      && Meaning(c, id) == Outcome(GateDisposition(c.world.gate(id), c.doc[id].kind.continueOnTimeout), own, trace)
    case AtSlot(items, i, l, allOk) =>
      && c.doc[id].kind.Work? && i <= |items|
      && Meaning(c, id) == Behind(trace, Rest(c, id, Known(c, id), own, items, i, l, allOk))
    case InFlight(items, i, l, allOk, input, tries) => OnAttempt(c, id, own, trace, items, i, l, allOk, input) && OnTry(c, id, pc)
    case Backoff(items, i, l, allOk, input, tries) => OnAttempt(c, id, own, trace, items, i, l, allOk, input) && OnTry(c, id, pc)
  }

  // The tries so far failed and may be retried: where the retry loop stops is still ahead.
  ghost predicate OnTry(c: Config, id: StepId, pc: Pc)
    requires id in c.doc
  {
    pc.InFlight? || pc.Backoff? ==>
      var t := if pc.InFlight? then pc.tries else pc.tries + 1;
      var slot := CurrentSlot(c.doc[id], pc);
      && c.doc[id].kind.Work? && 1 <= t <= 1 + c.doc[id].kind.retryMax
      && LastTry(c, id, slot, pc.input, 1) == LastTry(c, id, slot, pc.input, t)
  }

  ghost predicate OnAttempt(c: Config, id: StepId, own: Option<Value>, trace: seq<Visit>,
                            items: seq<Option<Item>>, i: nat, l: nat, allOk: bool, input: Input)
    requires WellFormed(c) && id in c.doc
  {
    && c.doc[id].kind.Work? && i < |items| && l < MaxLoops(c.doc[id])
    && input == c.world.resolve(id, View(Known(c, id), id, own), items[i])
    && Meaning(c, id) == Behind(trace, Rest(c, id, Known(c, id), own, items, i, l, allOk))
  }

  ghost predicate OnCell(c: Config, id: StepId, cell: Cell)
    requires WellFormed(c) && id in c.doc
  {
    match cell
    case Waiting => true
    case Active(pc, own, trace) => OnPc(c, id, pc, own, trace)
    case Settled(d, own, trace) => Meaning(c, id) == Outcome(d, own, trace)
    case Refused => c.doc[id].kind.Gate? && Meaning(c, id).disp != Skipped
  }

  ghost predicate Blocked(c: Config, id: StepId)
    requires WellFormed(c) && id in c.doc
  {
    exists n <- c.doc[id].needs :: Blocks(c.doc[n], Meaning(c, n).disp)
  }

  // An undisturbed advance stays on the meaning, unless it took a cached answer that is
  // not the executor's; then its trace leaves the meaning for good.
  ghost predicate OnAfter(c: Config, id: StepId, rows0: seq<Row>, cell: Cell, e: Effect)
    requires WellFormed(c) && id in c.doc && cell.Active?
  {
    e.Effect? ==> KeepsOn(c, id, rows0, cell, e.cell) || Strays(c, id, rows0, cell, e.cell)
  }

  ghost predicate KeepsOn(c: Config, id: StepId, rows0: seq<Row>, cell: Cell, cell': Cell)
    requires WellFormed(c) && id in c.doc && cell.Active?
  {
    && OnCell(c, id, cell')
    && (Trace(cell') == cell.trace
        || exists v :: Trace(cell') == cell.trace + [v] && v.slot == CurrentSlot(c.doc[id], cell.pc) && (id !in c.drifted ==> Faithful(rows0, v)))
  }

  ghost predicate Strays(c: Config, id: StepId, rows0: seq<Row>, cell: Cell, cell': Cell)
    requires WellFormed(c) && id in c.doc && cell.Active?
  {
    && id !in c.drifted && !(Trace(cell') <= Meaning(c, id).visits)
    && exists v <- Meaning(c, id).visits :: v.slot == CurrentSlot(c.doc[id], cell.pc) && !Faithful(rows0, v)
  }

  lemma EffectOn(c: Config, id: StepId, cell: Cell, rows0: seq<Row>, rows: seq<Row>)
    requires WellFormed(c) && Ready1(c, id, cell, rows) && OnCell(c, id, cell)
    requires c.doc[id].kind.Work? ==> SlotOk(c, id, cell.pc, rows)
    requires Grown(c.doc[id], cell.pc, rows0, rows)
    ensures OnAfter(c, id, rows0, cell, StepEffect(c, id, Blocked(c, id), Known(c, id), cell, rows, false, false, false))
  {
    hide Meaning, Known, Rest, LastTry, Faithful, SlotOk, Grown, FindMemo, Latest, BeginEffect, SlotEffect, ResultEffect;
    match cell.pc
    case Begin => BeginOn(c, id, cell, rows0, rows);
    case AtGate =>
    case AtSlot(_, _, _, _) => SlotOn(c, id, cell, rows0, rows);
    case InFlight(_, _, _, _, _, _) => ResultOn(c, id, cell, rows0, rows);
    case Backoff(_, _, _, _, _, _) =>
  }

  lemma BeginOn(c: Config, id: StepId, cell: Cell, rows0: seq<Row>, rows: seq<Row>)
    requires WellFormed(c) && Ready1(c, id, cell, rows) && cell.pc.Begin? && OnCell(c, id, cell)
    ensures OnAfter(c, id, rows0, cell, BeginEffect(c, id, Blocked(c, id), Known(c, id), cell, rows))
  {
    hide Known, LastTry, Faithful, Latest;
  }

  // A gate is refused only where the meaning reaches it.
  lemma ThrowOn(c: Config, id: StepId, cell: Cell, rows: seq<Row>)
    requires WellFormed(c) && Ready1(c, id, cell, rows) && OnCell(c, id, cell)
    requires StepEffect(c, id, Blocked(c, id), Known(c, id), cell, rows, false, false, false).Throw?
    ensures OnCell(c, id, Refused)
  {
    hide Rest, Known, FindMemo, Latest;
  }

  lemma SlotOn(c: Config, id: StepId, cell: Cell, rows0: seq<Row>, rows: seq<Row>)
    requires WellFormed(c) && Ready1(c, id, cell, rows) && cell.pc.AtSlot? && OnCell(c, id, cell)
    requires SlotOk(c, id, cell.pc, rows) && Grown(c.doc[id], cell.pc, rows0, rows)
    ensures OnAfter(c, id, rows0, cell, SlotEffect(c, id, Known(c, id), cell, rows, false))
  {
    if cell.pc.i == |cell.pc.items| || cell.pc.l >= MaxLoops(c.doc[id]) {
      ItemEndOn(c, id, cell, rows0, rows);
    } else {
      var input := c.world.resolve(id, View(Known(c, id), id, cell.own), cell.pc.items[cell.pc.i]);
      if id in c.drifted || FindMemo(rows, input).None? {
        MissOn(c, id, cell, rows0, rows);
      } else {
        assert rows == rows0;
        HitOn(c, id, cell, rows, input);
      }
    }
  }

  lemma ItemEndOn(c: Config, id: StepId, cell: Cell, rows0: seq<Row>, rows: seq<Row>)
    requires WellFormed(c) && Ready1(c, id, cell, rows) && cell.pc.AtSlot? && OnCell(c, id, cell)
    requires cell.pc.i == |cell.pc.items| || cell.pc.l >= MaxLoops(c.doc[id])
    ensures OnAfter(c, id, rows0, cell, SlotEffect(c, id, Known(c, id), cell, rows, false))
  {
    hide Meaning, Known, FindMemo, Faithful;
    var AtSlot(items, i, l, allOk) := cell.pc;
    var e := SlotEffect(c, id, Known(c, id), cell, rows, false);
    if i == |items| {
      assert Rest(c, id, Known(c, id), cell.own, items, i, l, allOk) == Outcome(if allOk then Completed else Failed, cell.own, []);
      assert cell.trace + [] == cell.trace;
      assert e.cell == Settled(if allOk then Completed else Failed, cell.own, cell.trace);
    } else {
      assert Rest(c, id, Known(c, id), cell.own, items, i, l, allOk)
          == Rest(c, id, Known(c, id), cell.own, items, i + 1, 0, allOk && l > 0);
      assert e.cell == Active(AtSlot(items, i + 1, 0, allOk && l > 0), cell.own, cell.trace);
    }
    assert KeepsOn(c, id, rows0, cell, e.cell);
  }

  lemma MissOn(c: Config, id: StepId, cell: Cell, rows0: seq<Row>, rows: seq<Row>)
    requires WellFormed(c) && Ready1(c, id, cell, rows) && cell.pc.AtSlot? && OnCell(c, id, cell)
    requires cell.pc.i < |cell.pc.items| && cell.pc.l < MaxLoops(c.doc[id])
    requires id in c.drifted || FindMemo(rows, c.world.resolve(id, View(Known(c, id), id, cell.own), cell.pc.items[cell.pc.i])).None?
    ensures OnAfter(c, id, rows0, cell, SlotEffect(c, id, Known(c, id), cell, rows, false))
  {
    hide Meaning, Known, Rest, LastTry, Faithful, Latest;
  }

  // A cache hit: the visit is the meaning's own exactly when the journal is faithful there.
  lemma HitOn(c: Config, id: StepId, cell: Cell, rows: seq<Row>, input: Input)
    requires WellFormed(c) && Ready1(c, id, cell, rows) && cell.pc.AtSlot? && OnCell(c, id, cell)
    requires id !in c.drifted
    requires cell.pc.i < |cell.pc.items| && cell.pc.l < MaxLoops(c.doc[id])
    requires input == c.world.resolve(id, View(Known(c, id), id, cell.own), cell.pc.items[cell.pc.i])
    requires FindMemo(rows, input).Some?
    ensures OnAfter(c, id, rows, cell, SlotEffect(c, id, Known(c, id), cell, rows, false))
  {
    hide Meaning, Known, Rest, FindMemo, Latest, LastTry;
    var AtSlot(items, i, l, allOk) := cell.pc;
    var anc := Known(c, id);
    var e := SlotEffect(c, id, anc, cell, rows, false);
    var memo := FindMemo(rows, input).value;
    var slot := SlotOf(c.doc[id], i, l);
    var v := AnswerVisit(c, id, slot, input);
    RestStep(c, id, anc, cell.own, items, i, l, allOk);
    var own := if v.ok then v.output.OrElse(cell.own) else cell.own;
    var next := if v.ok then AfterSuccess(c, id, anc, own, items, i, l, allOk) else AtSlot(items, i + 1, 0, false);
    VisitSplit(cell.trace, v, Rest(c, id, anc, own, items, next.i, next.l, next.allOk));
    if v.ok && memo.output == v.output {
      assert e.cell == Active(next, own, cell.trace + [v]);
      assert KeepsOn(c, id, rows, cell, e.cell);
    } else {
      assert Meaning(c, id).visits[|cell.trace|] == v;
      assert e.cell.trace[|cell.trace|] != v;
      assert v in Meaning(c, id).visits && !Faithful(rows, v);
      assert Strays(c, id, rows, cell, e.cell);
    }
  }

  // The visit of a slot that is executed.
  ghost function AnswerVisit(c: Config, id: StepId, slot: nat, input: Input): Visit
    requires id in c.doc && c.doc[id].kind.Work?
  {
    var r := Answer(c, id, slot, input);
    Visit(slot, input, Succeeded(r), if Succeeded(r) then r.output else None)
  }

  // The declarative run of one slot, in the machine's terms.
  lemma RestStep(c: Config, id: StepId, anc: Scope, own: Option<Value>, items: seq<Option<Item>>, i: nat, l: nat, allOk: bool)
    requires id in c.doc && c.doc[id].kind.Work? && i < |items| && l < MaxLoops(c.doc[id])
    ensures
      var input := c.world.resolve(id, View(anc, id, own), items[i]);
      var v := AnswerVisit(c, id, SlotOf(c.doc[id], i, l), input);
      var own' := if v.ok then v.output.OrElse(own) else own;
      var next := if v.ok then AfterSuccess(c, id, anc, own', items, i, l, allOk) else AtSlot(items, i + 1, 0, false);
      Rest(c, id, anc, own, items, i, l, allOk) == Ahead(v, Rest(c, id, anc, own', items, next.i, next.l, next.allOk))
  {
    hide LastTry;
  }

  lemma VisitSplit(trace: seq<Visit>, v: Visit, rest: Outcome)
    ensures Behind(trace, Ahead(v, rest)) == Behind(trace + [v], rest)
  {
    assert trace + ([v] + rest.visits) == trace + [v] + rest.visits;
  }

  lemma ResultOn(c: Config, id: StepId, cell: Cell, rows0: seq<Row>, rows: seq<Row>)
    requires WellFormed(c) && Ready1(c, id, cell, rows) && cell.pc.InFlight? && OnCell(c, id, cell)
    requires SlotOk(c, id, cell.pc, rows) && Grown(c.doc[id], cell.pc, rows0, rows)
    ensures OnAfter(c, id, rows0, cell, ResultEffect(c, id, Known(c, id), cell, rows, false, false))
  {
    hide Meaning, Known, Rest;
    var InFlight(items, i, l, allOk, input, tries) := cell.pc;
    var anc := Known(c, id);
    var slot := SlotOf(c.doc[id], i, l);
    var r := c.world.execute(id, slot, input, tries);
    var e := ResultEffect(c, id, anc, cell, rows, false, false);
    if !e.cell.pc.Backoff? {
      assert LastTry(c, id, slot, input, tries) == tries;
      assert r == Answer(c, id, slot, input);
      var v := AnswerVisit(c, id, slot, input);
      var own := if v.ok then v.output.OrElse(cell.own) else cell.own;
      var next := if v.ok then AfterSuccess(c, id, anc, own, items, i, l, allOk) else AtSlot(items, i + 1, 0, false);
      RestStep(c, id, anc, cell.own, items, i, l, allOk);
      VisitSplit(cell.trace, v, Rest(c, id, anc, own, items, next.i, next.l, next.allOk));
      assert e.cell == Active(next, own, cell.trace + [v]);
      if id !in c.drifted {
        assert FindMemo(rows0, input).None? by {
          assert forall k | 0 <= k < |rows0| :: rows0[k] == rows[k];
        }
      }
      assert KeepsOn(c, id, rows0, cell, e.cell);
    } else {
      assert LastTry(c, id, slot, input, tries) == LastTry(c, id, slot, input, tries + 1);
    }
  }
}
