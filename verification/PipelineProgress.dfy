/** Progress and termination of the pipeline machine, and the walk as the runner's loop. */
module PipelineProgress {
  import opened Base
  import opened Pipeline
  import opened PipelineProofs
  import opened PipelineTheorems
  import opened PipelineRuns

  // ---- sums over the cells ---------------------------------------------------------------

  ghost function Sum<K(!new)>(m: map<K, nat>): nat
    decreases |m|
  {
    if m == map[] then 0 else var k :| k in m; m[k] + Sum(m - {k})
  }

  lemma {:induction false} SumRemove<K(!new)>(m: map<K, nat>, k: K)
    requires k in m
    ensures Sum(m) == m[k] + Sum(m - {k})
    decreases |m|
  {
    var p :| p in m && Sum(m) == m[p] + Sum(m - {p});
    if p != k {
      SumRemove(m - {p}, k);
      SumRemove(m - {k}, p);
      assert m - {p} - {k} == m - {k} - {p};
    }
  }

  lemma {:induction false} SumBelow<K(!new)>(a: map<K, nat>, b: map<K, nat>)
    requires a.Keys == b.Keys && forall k <- a :: a[k] <= b[k]
    ensures Sum(a) <= Sum(b)
    decreases |a|
  {
    if a != map[] {
      var k :| k in a;
      SumRemove(a, k);
      SumRemove(b, k);
      SumBelow(a - {k}, b - {k});
    } else {
      assert b == map[];
    }
  }

  lemma SumLess<K(!new)>(a: map<K, nat>, b: map<K, nat>, k: K)
    requires a.Keys == b.Keys && (forall x <- a :: a[x] <= b[x]) && k in a && a[k] < b[k]
    ensures Sum(a) < Sum(b)
  {
    SumRemove(a, k);
    SumRemove(b, k);
    SumBelow(a - {k}, b - {k});
  }

  // ---- how much a step still has to do -----------------------------------------------------

  function Larger(a: nat, b: nat): nat { if a < b then b else a }

  // An upper bound on the advances left, with `n` items to go and loop pass `l` next.
  ghost function Left(step: Step, n: nat, l: nat): nat
    requires step.kind.Work?
    decreases n, if l < MaxLoops(step) then MaxLoops(step) - l else 0
  {
    if n == 0 then 1
    else if l >= MaxLoops(step) then 1 + Left(step, n - 1, 0)
    else 2 * step.kind.retryMax + 2 + Larger(Left(step, n - 1, 0), Left(step, n, l + 1))
  }

  ghost function LeftInSlot(step: Step, pc: Pc): nat
    requires pc.InFlight? || pc.Backoff?
    requires PcPlace(step, pc)
  {
    var n := |pc.items| - pc.i;
    2 * (step.kind.retryMax + 1 - pc.tries) + (if pc.InFlight? then 1 else 0)
      + Larger(Left(step, n - 1, 0), Left(step, n, pc.l + 1))
  }

  ghost predicate PcPlace(step: Step, pc: Pc) {
    match pc
    case AtSlot(items, i, l, _) => step.kind.Work? && i <= |items|
    case InFlight(items, i, l, _, _, tries) => step.kind.Work? && i < |items| && l < MaxLoops(step) && tries <= 1 + step.kind.retryMax
    case Backoff(items, i, l, _, _, tries) => step.kind.Work? && i < |items| && l < MaxLoops(step) && tries <= step.kind.retryMax
    case _ => true
  }

  ghost function Remaining(step: Step, cell: Cell): nat
    requires cell.Active? ==> PcPlace(step, cell.pc)
  {
    if !cell.Active? then 0
    else match cell.pc
      case Begin => 0
      case AtGate => 1
      case AtSlot(items, i, l, _) => Left(step, |items| - i, l)
      case _ => LeftInSlot(step, cell.pc)
  }

  ghost predicate WorksAfter(step: Step, cell: Cell, e: Effect)
    requires cell.Active? && PcPlace(step, cell.pc)
  {
    e.Effect? ==>
      && (e.cell.Active? ==> PcPlace(step, e.cell.pc) && !e.cell.pc.Begin?)
      && Remaining(step, e.cell) < Remaining(step, cell)
  }

  lemma EffectWorks(c: Config, id: StepId, blocked: bool, anc: Scope, cell: Cell, rows: seq<Row>,
                    paused: bool, cancelled: bool, aborted: bool)
    requires Ready1(c, id, cell, rows) && !cell.pc.Begin?
    ensures WorksAfter(c.doc[id], cell, StepEffect(c, id, blocked, anc, cell, rows, paused, cancelled, aborted))
  {
    hide SlotEffect, ResultEffect, RetryEffect, Left, LeftInSlot;
    match cell.pc
    case AtGate =>
    case AtSlot(_, _, _, _) => SlotWorks(c, id, anc, cell, rows, paused || cancelled);
    case InFlight(_, _, _, _, _, _) => ResultWorks(c, id, anc, cell, rows, cancelled, aborted);
    case Backoff(_, _, _, _, _, _) => RetryWorks(c, id, cell, rows, cancelled);
  }

  lemma SlotWorks(c: Config, id: StepId, anc: Scope, cell: Cell, rows: seq<Row>, stopping: bool)
    requires Ready1(c, id, cell, rows) && cell.pc.AtSlot?
    ensures WorksAfter(c.doc[id], cell, SlotEffect(c, id, anc, cell, rows, stopping))
  {
    hide Left, FindMemo, Latest;
    LeftSteps(c.doc[id], |cell.pc.items| - cell.pc.i, cell.pc.l);
  }

  lemma ResultWorks(c: Config, id: StepId, anc: Scope, cell: Cell, rows: seq<Row>, cancelled: bool, aborted: bool)
    requires Ready1(c, id, cell, rows) && cell.pc.InFlight?
    ensures WorksAfter(c.doc[id], cell, ResultEffect(c, id, anc, cell, rows, cancelled, aborted))
  {
    hide Left, Latest;
  }

  lemma RetryWorks(c: Config, id: StepId, cell: Cell, rows: seq<Row>, cancelled: bool)
    requires Ready1(c, id, cell, rows) && cell.pc.Backoff?
    ensures WorksAfter(c.doc[id], cell, RetryEffect(c, id, cell, rows, cancelled))
  {
    hide Left, Latest;
  }

  lemma LeftSteps(step: Step, n: nat, l: nat)
    requires step.kind.Work?
    ensures 0 < Left(step, n, l)
    ensures n > 0 && l >= MaxLoops(step) ==> Left(step, n, l) == 1 + Left(step, n - 1, 0)
    ensures n > 0 && l < MaxLoops(step) ==>
      Left(step, n, l) == 2 * step.kind.retryMax + 2 + Larger(Left(step, n - 1, 0), Left(step, n, l + 1))
  {
  }

  // ---- the measure of a whole walk --------------------------------------------------------

  ghost predicate Places(c: Config, st: Walk) {
    && st.cells.Keys == c.doc.Keys
    && forall id <- c.doc :: st.cells[id].Active? ==> PcPlace(c.doc[id], st.cells[id].pc)
  }

  lemma ShapePlaces(c: Config, st: Walk)
    requires Shape(c, st)
    ensures Places(c, st)
  {
    forall id <- c.doc | st.cells[id].Active? ensures PcPlace(c.doc[id], st.cells[id].pc) {
      assert PcShape(c.doc[id], st.cells[id].pc, CurrentRows(c, st, id));
    }
  }

  ghost function Waits(cells: map<StepId, Cell>): map<StepId, nat> {
    map id | id in cells :: if cells[id].Waiting? then 1 else 0
  }

  ghost function Begins(cells: map<StepId, Cell>): map<StepId, nat> {
    map id | id in cells :: if cells[id].Active? && cells[id].pc.Begin? then 1 else 0
  }

  ghost function Works(c: Config, st: Walk): map<StepId, nat>
    requires Places(c, st)
  {
    map id | id in c.doc :: Remaining(c.doc[id], st.cells[id])
  }

  // (waiting steps, steps claimed but not begun, advances left) decreases lexicographically.
  ghost predicate Decreases(c: Config, st: Walk, st': Walk)
    requires Places(c, st) && Places(c, st')
  {
    || Sum(Waits(st'.cells)) < Sum(Waits(st.cells))
    || (Sum(Waits(st'.cells)) == Sum(Waits(st.cells)) && Sum(Begins(st'.cells)) < Sum(Begins(st.cells)))
    || (Sum(Waits(st'.cells)) == Sum(Waits(st.cells)) && Sum(Begins(st'.cells)) == Sum(Begins(st.cells))
        && Sum(Works(c, st')) < Sum(Works(c, st)))
  }

  /** Every event that is not a signal makes the walk's measure smaller. */
  lemma EventsDecrease(c: Config, j0: Journal, st: Walk, e: Event)
    requires Struct(c, j0, st) && Enabled(c, st, e) && (e.Generation? || e.Advance?)
    ensures Places(c, st) && Places(c, Next(c, st, e))
    ensures Decreases(c, st, Next(c, st, e))
  {
    hide Struct, Enabled, Next, Decreases, Places, Shape;
    StructKept(c, j0, st, e);
    StructPlaces(c, j0, st);
    StructPlaces(c, j0, Next(c, st, e));
    if e.Generation? {
      GenerationDecreases(c, j0, st);
    } else {
      AdvanceDecreases(c, j0, st, e.id, e.aborted);
    }
  }

  lemma StructPlaces(c: Config, j0: Journal, st: Walk)
    requires Struct(c, j0, st)
    ensures Shape(c, st) && Places(c, st)
  {
    hide JournalOk, JournalGrew, CellOk, Shape, Places;
    ShapePlaces(c, st);
  }

  lemma GenerationDecreases(c: Config, j0: Journal, st: Walk)
    requires Struct(c, j0, st) && Enabled(c, st, Generation) && Places(c, st) && Places(c, Next(c, st, Generation))
    ensures Decreases(c, st, Next(c, st, Generation))
  {
    hide PcShape, CellOk, JournalOk, JournalGrew, PcPlace, Remaining, Sum, NeedsSettled;
    var st' := Next(c, st, Generation);
    var id :| id in Ready(c, st);
    SumLess(Waits(st'.cells), Waits(st.cells), id);
  }

  lemma AdvanceDecreases(c: Config, j0: Journal, st: Walk, id: StepId, aborted: bool)
    requires Struct(c, j0, st) && Enabled(c, st, Advance(id, aborted))
    requires Places(c, st) && Places(c, Next(c, st, Advance(id, aborted)))
    ensures Decreases(c, st, Next(c, st, Advance(id, aborted)))
  {
    hide PcShape, SlotOk, CellOk, JournalOk, JournalGrew, PcPlace, StepEffect, Remaining, Sum, AncestorScope, SkipByUpstream, Decreases, GrownAfter, WorksAfter;
    var e := EffectOf(c, st, id, aborted);
    AdvanceFacts(c, j0, st, id, aborted);
    if e.Throw? {
      RefusalDecreases(c, st, id);
      return;
    }
    if !st.cells[id].pc.Begin? {
      EffectWorks(c, id, SkipByUpstream(c, st, id), AncestorScope(c, st, id), st.cells[id], CurrentRows(c, st, id),
                  st.paused, st.cancelled, aborted && st.aborting);
    }
    PutDecreases(c, st, id, CurrentSlot(c.doc[id], st.cells[id].pc), e);
  }

  lemma RefusalDecreases(c: Config, st: Walk, id: StepId)
    requires Places(c, st) && id in c.doc && st.cells[id].Active? && st.cells[id].pc.Begin?
    requires Places(c, st.(thrown := true, cells := st.cells[id := Refused]))
    ensures Decreases(c, st, st.(thrown := true, cells := st.cells[id := Refused]))
  {
    hide PcPlace, Remaining, Sum;
    var st' := st.(thrown := true, cells := st.cells[id := Refused]);
    assert Waits(st'.cells) == Waits(st.cells);
    SumLess(Begins(st'.cells), Begins(st.cells), id);
  }

  lemma PutDecreases(c: Config, st: Walk, id: StepId, slot: nat, e: Effect)
    requires Places(c, st) && id in c.doc && st.cells[id].Active? && e.Effect?
    requires ShapeAfter(c.doc[id], st.cells[id].pc, e)
    requires st.cells[id].pc.Begin? || WorksAfter(c.doc[id], st.cells[id], e)
    requires Places(c, Put(st, id, slot, e.rows, e.cell))
    ensures Decreases(c, st, Put(st, id, slot, e.rows, e.cell))
  {
    hide PcShape, PcPlace, Remaining, Sum;
    var st' := Put(st, id, slot, e.rows, e.cell);
    assert Waits(st'.cells) == Waits(st.cells);
    if st.cells[id].pc.Begin? {
      SumLess(Begins(st'.cells), Begins(st.cells), id);
    } else {
      assert Begins(st'.cells) == Begins(st.cells);
      SumLess(Works(c, st'), Works(c, st), id);
    }
  }

  // ---- the runner's loop ---------------------------------------------------------------------

  datatype RunOutcome = RunCompleted | RunFailed | RunCancelled | RunPaused

  function OutcomeOf(st: Walk): RunOutcome {
    if st.cancelled then RunCancelled
    else if st.paused then RunPaused
    else if exists id <- st.cells :: st.cells[id].Settled? && st.cells[id].disp == Failed then RunFailed
    else RunCompleted
  }

  /** The outcome of a run: cancelled before paused before failed, and completed only where no step failed. */
  lemma OutcomeIs(st: Walk)
    ensures OutcomeOf(st) == RunCancelled <==> st.cancelled
    ensures OutcomeOf(st) == RunPaused <==> st.paused && !st.cancelled
    ensures OutcomeOf(st) == RunFailed <==>
      !st.cancelled && !st.paused && exists id <- st.cells :: st.cells[id].Settled? && st.cells[id].disp == Failed
  {
  }

  /** The undisturbed walk under a scheduler that picks any active step each time.  It
      terminates, settles every step with its declared outcome, and fails exactly when
      some step's declared outcome is a failure.  `events` is the run it took. */
  method RunReady(c: Config, j: Journal) returns (st: Walk, outcome: RunOutcome, ghost events: seq<Event>)
    requires WellFormed(c) && JournalOk(c, j) && GatesClear(c, j) && Replayable(c, j)
    ensures st.cells.Keys == c.doc.Keys
    ensures forall id <- c.doc ::
      st.cells[id] == Settled(Meaning(c, id).disp, Meaning(c, id).own, Meaning(c, id).visits)
    ensures Runs(c, Start(c, j), events, st) && Done(c, st) && Calm(st)
    ensures outcome == if exists id <- c.doc :: Meaning(c, id).disp == Failed then RunFailed else RunCompleted
    ensures JournalOk(c, st.journal) && JournalGrew(c, j, st.journal)
  {
    hide Struct, Sum, Waits, Begins, Works, Meaning, Ready, Next, Replayable, JournalOk, JournalGrew, Runs;
    GoingStart(c, j);
    st := Start(c, j);
    events := [];
    while true
      invariant Going(c, j, events, st) && GatesClear(c, j)
      decreases Sum(Waits(st.cells)), Sum(Begins(st.cells)), Sum(Works(c, st))
    {
      var active := set id | id in st.cells && st.cells[id].Active?;
      assert forall id <- st.cells | st.cells[id].Active? :: id in active;
      var e: Event;
      if active != {} {
        var id :| id in active;
        e := Advance(id, false);
      } else if Ready(c, st) != {} {
        e := Generation;
      } else {
        break;
      }
      GoingOn(c, j, events, st, e);
      events := events + [e];
      st := Next(c, st, e);
    }
    WalkMeaning(c, j, events, st);
    outcome := OutcomeOf(st);
    JournalSafety(c, j, events, st);
  }

  // An undisturbed walk under way.
  ghost predicate Going(c: Config, j: Journal, events: seq<Event>, st: Walk) {
    Struct(c, j, st) && Shape(c, st) && Calm(st) && !st.thrown && Places(c, st) && Runs(c, Start(c, j), events, st)
  }

  lemma GoingStart(c: Config, j: Journal)
    requires WellFormed(c) && JournalOk(c, j)
    ensures Going(c, j, [], Start(c, j))
  {
    hide JournalOk, Struct;
    StartOk(c, j);
  }

  lemma GoingOn(c: Config, j: Journal, events: seq<Event>, st: Walk, e: Event)
    requires Going(c, j, events, st) && Enabled(c, st, e) && (e.Generation? || e.Advance?)
    requires WellFormed(c) && JournalOk(c, j) && Replayable(c, j) && GatesClear(c, j)
    ensures Going(c, j, events + [e], Next(c, st, e)) && Decreases(c, st, Next(c, st, e))
  {
    hide PcShape, CellOk, JournalOk, JournalGrew, Decreases, Runs, EffectOf, PcPlace;
    EventsDecrease(c, j, st, e);
    StructKept(c, j, st, e);
    RunsExtend(c, Start(c, j), events, st, e);
    NotThrown(c, j, events + [e], Next(c, st, e));
  }

  // ---- the bounded pool -----------------------------------------------------------------------

  /** runBounded: `limit` workers share one counter.  Whatever order the calls finish in, every
      index is claimed exactly once, at most `limit` calls are in flight, and result k is
      the result of item k.  With limit 0 there is no worker and every result stays empty. */
  method RunBounded<T, R>(items: seq<T>, limit: nat, fn: (T, nat) -> R)
    returns (results: seq<Option<R>>, ghost claims: seq<nat>, ghost peak: nat)
    ensures |results| == |items|
    ensures limit > 0 ==> forall k | 0 <= k < |items| :: results[k] == Some(fn(items[k], k))
    ensures limit > 0 ==> |claims| == |items| && (forall k | 0 <= k < |items| :: claims[k] == k)
    ensures limit == 0 ==> claims == [] && forall k | 0 <= k < |items| :: results[k] == None
    ensures peak <= limit && peak <= |items|
  {
    hide AllFilled;
    results := seq(|items|, k => None);
    NoneFilled(items, fn, results);
    claims, peak := [], 0;
    var next := 0;
    var workers := if limit < |items| then limit else |items|;
    var idle := workers;            // workers at the top of their loop
    var flying: set<nat> := {};     // indexes whose call is in flight
    while idle > 0 || flying != {}
      invariant 0 <= next <= |items| && |results| == |items|
      invariant forall k <- flying :: k < next
      invariant |flying| <= peak <= workers && idle + |flying| <= workers
      invariant next < |items| ==> idle + |flying| == workers
      invariant AllFilled(items, fn, results, next, flying)
      invariant |claims| == next && forall k | 0 <= k < next :: claims[k] == k
      invariant limit == 0 ==> claims == [] && forall k | 0 <= k < |items| :: results[k] == None
      decreases |items| - next, |flying|, idle
    {
      if
      case idle > 0 =>
        // a worker claims the next index, or returns
        idle := idle - 1;
        if next < |items| {
          ClaimFills(items, fn, results, next, flying);
          claims := claims + [next];
          flying := flying + {next};
          next := next + 1;
          peak := if peak < |flying| then |flying| else peak;
        }
      case flying != {} =>
        // some call in flight settles, and its worker goes round again
        var k :| k in flying;
        SettleFills(items, fn, results, next, flying, k);
        results := results[k := Some(fn(items[k], k))];
        flying := flying - {k};
        idle := idle + 1;
    }
    AreFilled(items, fn, results, next);
  }

  // Every claimed index whose call has settled holds its result.
  ghost predicate AllFilled<T, R>(items: seq<T>, fn: (T, nat) -> R, results: seq<Option<R>>, next: nat, flying: set<nat>) {
    next <= |items| == |results| && forall k | 0 <= k < next && k !in flying :: results[k] == Some(fn(items[k], k))
  }

  lemma NoneFilled<T, R>(items: seq<T>, fn: (T, nat) -> R, results: seq<Option<R>>)
    requires |results| == |items|
    ensures AllFilled(items, fn, results, 0, {})
  {
  }

  lemma ClaimFills<T, R>(items: seq<T>, fn: (T, nat) -> R, results: seq<Option<R>>, next: nat, flying: set<nat>)
    requires AllFilled(items, fn, results, next, flying) && next < |items|
    ensures AllFilled(items, fn, results, next + 1, flying + {next})
  {
  }

  lemma AreFilled<T, R>(items: seq<T>, fn: (T, nat) -> R, results: seq<Option<R>>, next: nat)
    requires AllFilled(items, fn, results, next, {})
    ensures next <= |items| == |results| && forall k | 0 <= k < next :: results[k] == Some(fn(items[k], k))
  {
  }

  lemma SettleFills<T, R>(items: seq<T>, fn: (T, nat) -> R, results: seq<Option<R>>, next: nat, flying: set<nat>, k: nat)
    requires AllFilled(items, fn, results, next, flying) && k < next
    ensures AllFilled(items, fn, results[k := Some(fn(items[k], k))], next, flying - {k})
  {
  }
}
