/** Resuming, when the executor is a function of the resolved input.

The theorems in PipelineRuns hold for any answers.  Here the executor gives one answer per slot and
input, however often it is asked; then every cached success is the answer it would give again.
*/
module PipelineTruth {
  import opened Base
  import opened Pipeline
  import opened PipelineProofs
  import opened PipelineTheorems
  import opened PipelineRuns

  // Asking again changes nothing.
  ghost predicate Steady(c: Config) {
    forall id, slot: nat, input, t: nat :: c.world.execute(id, slot, input, t) == c.world.execute(id, slot, input, 1)
  }

  ghost predicate TrueRow(c: Config, id: StepId, slot: nat, row: Row) {
    var r := c.world.execute(id, slot, row.input, 1);
    && (row.status.RowCompleted? ==> Succeeded(r) && row.output == r.output)
    && (row.status.Memoized? ==> Succeeded(r))
  }

  ghost predicate TrueRows(c: Config, id: StepId, slot: nat, rows: seq<Row>) {
    forall k | 0 <= k < |rows| :: TrueRow(c, id, slot, rows[k])
  }

  // Every cached success is the executor's own answer, and no undrifted step executed an input
  // again after its success.
  ghost predicate TrueJournal(c: Config, j: Journal) {
    forall id, slot: nat {:trigger Rows(j, id, slot)} | id in c.doc && c.doc[id].kind.Work? ::
      TrueRows(c, id, slot, Rows(j, id, slot)) && (id !in c.drifted ==> NoRerun([], Rows(j, id, slot)))
  }

  lemma SteadyAnswer(c: Config, id: StepId, slot: nat, input: Input)
    requires Steady(c) && id in c.doc && c.doc[id].kind.Work?
    ensures Answer(c, id, slot, input) == c.world.execute(id, slot, input, 1)
  {
  }

  lemma EffectTrue(c: Config, id: StepId, blocked: bool, anc: Scope, cell: Cell, rows: seq<Row>,
                   paused: bool, cancelled: bool, aborted: bool)
    requires Steady(c) && Ready1(c, id, cell, rows) && c.doc[id].kind.Work? && TrueRows(c, id, CurrentSlot(c.doc[id], cell.pc), rows)
    ensures var e := StepEffect(c, id, blocked, anc, cell, rows, paused, cancelled, aborted);
      e.Effect? ==> TrueRows(c, id, CurrentSlot(c.doc[id], cell.pc), e.rows)
  {
    hide Latest;
    match cell.pc
    case Begin =>
    case AtGate =>
    case AtSlot(_, _, _, _) => SlotTrue(c, id, anc, cell, rows, paused || cancelled);
    case InFlight(_, _, _, _, _, _) =>
    case Backoff(_, _, _, _, _, _) =>
  }

  lemma SlotTrue(c: Config, id: StepId, anc: Scope, cell: Cell, rows: seq<Row>, stopping: bool)
    requires Ready1(c, id, cell, rows) && cell.pc.AtSlot? && TrueRows(c, id, CurrentSlot(c.doc[id], cell.pc), rows)
    ensures var e := SlotEffect(c, id, anc, cell, rows, stopping);
      e.Effect? ==> TrueRows(c, id, CurrentSlot(c.doc[id], cell.pc), e.rows)
  {
    hide Latest, FindMemo;
    var AtSlot(items, i, l, _) := cell.pc;
    if i < |items| && l < MaxLoops(c.doc[id]) {
      var input := c.world.resolve(id, View(anc, id, cell.own), items[i]);
      var memo := FindMemo(rows, input);
      if memo.Some? {
        var k :| 0 <= k < |rows| && rows[k] == memo.value;
        assert TrueRow(c, id, CurrentSlot(c.doc[id], cell.pc), rows[k]);
      }
    }
  }

  // The first half of a true journal, which needs no bookkeeping about what is drifted.
  ghost predicate AllTrue(c: Config, j: Journal) {
    forall id, slot: nat {:trigger Rows(j, id, slot)} | id in c.doc && c.doc[id].kind.Work? :: TrueRows(c, id, slot, Rows(j, id, slot))
  }

  lemma StepTrue(c: Config, j0: Journal, st: Walk, e: Event)
    requires Steady(c) && Struct(c, j0, st) && Enabled(c, st, e) && AllTrue(c, st.journal)
    ensures AllTrue(c, Next(c, st, e).journal)
  {
    hide StepEffect, SlotOk, PcShape, JournalOk, JournalGrew, AncestorScope, SkipByUpstream, TrueRows, CellOk, Steady;
    if e.Advance? && EffectOf(c, st, e.id, e.aborted).Effect? {
      var rows, effect := CurrentRows(c, st, e.id), EffectOf(c, st, e.id, e.aborted);
      var slot := CurrentSlot(c.doc[e.id], st.cells[e.id].pc);
      if c.doc[e.id].kind.Work? {
        assert TrueRows(c, e.id, slot, Rows(st.journal, e.id, slot));
        EffectTrue(c, e.id, SkipByUpstream(c, st, e.id), AncestorScope(c, st, e.id), st.cells[e.id], rows,
                   st.paused, st.cancelled, e.aborted && st.aborting);
      }
      var j' := Next(c, st, e).journal;
      forall x, s: nat {:trigger Rows(j', x, s)} | x in c.doc && c.doc[x].kind.Work? ensures TrueRows(c, x, s, Rows(j', x, s)) {
        RowsAfterPut(st, e.id, slot, effect.rows, effect.cell, x, s);
        assert TrueRows(c, x, s, Rows(st.journal, x, s));
      }
    }
  }

  lemma {:induction false} RunTrue(c: Config, j0: Journal, st: Walk, events: seq<Event>, st': Walk)
    requires Steady(c) && Struct(c, j0, st) && Runs(c, st, events, st') && AllTrue(c, st.journal)
    ensures AllTrue(c, st'.journal)
    decreases |events|
  {
    hide Struct, Shape, Next, AllTrue, Steady;
    if events != [] {
      StructKept(c, j0, st, events[0]);
      StepTrue(c, j0, st, events[0]);
      RunTrue(c, j0, Next(c, st, events[0]), events[1..], st');
    }
  }

  /** Over every run, cut anywhere: a journal that is true to the executor stays so. */
  lemma WalkIsTrue(c: Config, j: Journal, events: seq<Event>, st: Walk)
    requires WellFormed(c) && Steady(c) && JournalOk(c, j) && TrueJournal(c, j) && Runs(c, Start(c, j), events, st)
    ensures JournalOk(c, st.journal) && TrueJournal(c, st.journal)
  {
    hide Steady, TrueRows, Runs, Meaning;
    StartOk(c, j);
    FromStart(c, j, events, st);
    RunTrue(c, j, Start(c, j), events, st);
    forall id, slot: nat {:trigger Rows(st.journal, id, slot)} | id in c.doc && c.doc[id].kind.Work?
      ensures TrueRows(c, id, slot, Rows(st.journal, id, slot)) && (id !in c.drifted ==> NoRerun([], Rows(st.journal, id, slot)))
    {
      var rows0, rows := Rows(j, id, slot), Rows(st.journal, id, slot);
      assert Extends(c, id, rows0, rows);
      assert id !in c.drifted ==> NoRerun([], rows0);
      assert forall k | 0 <= k < |rows0| :: rows[k] == rows0[k];
    }
  }

  // ---- resume ------------------------------------------------------------------------------

  ghost predicate NoMemo(rows: seq<Row>) {
    forall k | 0 <= k < |rows| :: !rows[k].status.Memoized?
  }

  ghost predicate NeverResumed(c: Config, j: Journal) {
    forall id, slot: nat {:trigger Rows(j, id, slot)} | id in c.doc && c.doc[id].kind.Work? :: NoMemo(Rows(j, id, slot))
  }

  // A true journal that no resume has written a memoized row into replays faithfully.
  lemma NeverResumedIsReplayable(c: Config, j: Journal)
    requires WellFormed(c) && Steady(c) && TrueJournal(c, j) && NeverResumed(c, j)
    ensures Replayable(c, j)
  {
    hide NoRerun, Steady, Meaning, FindMemo;
    forall id <- c.doc ensures FaithfulTrace(c, j, id, Meaning(c, id).visits) {
      forall v <- Meaning(c, id).visits | id !in c.drifted ensures Faithful(Rows(j, id, v.slot), v) {
        var rows := Rows(j, id, v.slot);
        MeaningVisit(c, id, v);
        SteadyAnswer(c, id, v.slot, v.input);
        var memo := FindMemo(rows, v.input);
        if memo.Some? {
          var k :| 0 <= k < |rows| && rows[k] == memo.value;
          assert TrueRow(c, id, v.slot, rows[k]) && !rows[k].status.Memoized?;
        }
      }
    }
  }

  // Every visit of the meaning is what the retry loop makes of the executor's answers to its input.
  lemma MeaningVisit(c: Config, id: StepId, v: Visit)
    requires WellFormed(c) && id in c.doc && v in Meaning(c, id).visits
    ensures c.doc[id].kind.Work? && ExecutorSays(c, id, v)
  {
    RestVisit(c, id, Known(c, id), None, ItemsOf(c, id, Known(c, id)), 0, 0, true, v);
  }

  ghost predicate ExecutorSays(c: Config, id: StepId, v: Visit)
    requires id in c.doc && c.doc[id].kind.Work?
  {
    v == AnswerVisit(c, id, v.slot, v.input)
  }

  lemma {:induction false} RestVisit(c: Config, id: StepId, anc: Scope, own: Option<Value>,
                                     items: seq<Option<Item>>, i: nat, l: nat, allOk: bool, v: Visit)
    requires id in c.doc && c.doc[id].kind.Work? && i <= |items|
    requires v in Rest(c, id, anc, own, items, i, l, allOk).visits
    ensures ExecutorSays(c, id, v)
    decreases |items| - i, if l < MaxLoops(c.doc[id]) then MaxLoops(c.doc[id]) - l else 0
  {
    hide LastTry;
    if i < |items| {
      if l >= MaxLoops(c.doc[id]) {
        RestVisit(c, id, anc, own, items, i + 1, 0, allOk && l > 0, v);
      } else {
        var input := c.world.resolve(id, View(anc, id, own), items[i]);
        var w := AnswerVisit(c, id, SlotOf(c.doc[id], i, l), input);
        var own' := if w.ok then w.output.OrElse(own) else own;
        var next := if w.ok then AfterSuccess(c, id, anc, own', items, i, l, allOk) else AtSlot(items, i + 1, 0, false);
        RestStep(c, id, anc, own, items, i, l, allOk);
        if v in Rest(c, id, anc, own', items, next.i, next.l, next.allOk).visits {
          RestVisit(c, id, anc, own', items, next.i, next.l, next.allOk, v);
        }
      }
    }
  }

  // ---- a first walk never reads the cache ---------------------------------------------------

  lemma EffectNoMemo(c: Config, id: StepId, blocked: bool, anc: Scope, cell: Cell, rows: seq<Row>,
                     paused: bool, cancelled: bool, aborted: bool)
    requires Ready1(c, id, cell, rows) && c.doc[id].kind.Work? && NoMemo(rows)
    requires Grown(c.doc[id], cell.pc, [], rows)
    ensures var e := StepEffect(c, id, blocked, anc, cell, rows, paused, cancelled, aborted);
      e.Effect? ==> NoMemo(e.rows)
  {
    match cell.pc
    case Begin =>
    case AtGate =>
    case AtSlot(_, _, _, _) =>
    case InFlight(_, _, _, _, _, _) =>
    case Backoff(_, _, _, _, _, _) =>
  }

  ghost predicate Blank(c: Config, j: Journal) {
    forall id, slot: nat {:trigger Rows(j, id, slot)} | id in c.doc && c.doc[id].kind.Work? :: Rows(j, id, slot) == []
  }

  lemma NoMemoKept(c: Config, j0: Journal, st: Walk, e: Event)
    requires Struct(c, j0, st) && Enabled(c, st, e) && Blank(c, j0) && NeverResumed(c, st.journal)
    ensures NeverResumed(c, Next(c, st, e).journal)
  {
    hide StepEffect, SlotOk, PcShape, JournalOk, JournalGrew, AncestorScope, SkipByUpstream, NoMemo, Unvisited, Grown;
    if e.Advance? && EffectOf(c, st, e.id, e.aborted).Effect? {
      var rows := CurrentRows(c, st, e.id);
      var effect := EffectOf(c, st, e.id, e.aborted);
      var slot := CurrentSlot(c.doc[e.id], st.cells[e.id].pc);
      if c.doc[e.id].kind.Work? {
        assert CellOk(c, j0, st.journal, e.id, st.cells[e.id]);
        assert NoMemo(Rows(st.journal, e.id, slot)) && Rows(j0, e.id, slot) == [];
        EffectNoMemo(c, e.id, SkipByUpstream(c, st, e.id), AncestorScope(c, st, e.id), st.cells[e.id], rows,
                     st.paused, st.cancelled, e.aborted && st.aborting);
      }
      var j' := Next(c, st, e).journal;
      forall x, s: nat {:trigger Rows(j', x, s)} | x in c.doc && c.doc[x].kind.Work? ensures NoMemo(Rows(j', x, s)) {
        RowsAfterPut(st, e.id, slot, effect.rows, effect.cell, x, s);
        assert NoMemo(Rows(st.journal, x, s));
      }
    }
  }

  lemma {:induction false} FirstWalkNeverResumed(c: Config, j0: Journal, st: Walk, events: seq<Event>, st': Walk)
    requires Struct(c, j0, st) && Runs(c, st, events, st') && Blank(c, j0) && NeverResumed(c, st.journal)
    ensures NeverResumed(c, st'.journal)
    decreases |events|
  {
    hide Struct, Shape, Next, NeverResumed, Blank;
    if events != [] {
      StructKept(c, j0, st, events[0]);
      NoMemoKept(c, j0, st, events[0]);
      FirstWalkNeverResumed(c, j0, Next(c, st, events[0]), events[1..], st');
    }
  }

  lemma NothingJournaled(c: Config)
    requires WellFormed(c)
    ensures JournalOk(c, map[]) && TrueJournal(c, map[]) && Blank(c, map[]) && NeverResumed(c, map[])
  {
  }

  lemma NoGates(c: Config, j: Journal)
    requires WellFormed(c) && GateFree(c)
    ensures GatesClear(c, j)
  {
    hide Meaning;
  }

  ghost predicate GateFree(c: Config) {
    forall id <- c.doc :: c.doc[id].kind.Work?
  }

  /** Resume equivalence: cut a first walk of a gate-free document anywhere (crash, pause,
      cancel), walk again over its journal, and every step ends with the disposition,
      output and slot results of a walk that was never cut. */
  lemma ResumeEquivalence(c: Config, cut: seq<Event>, st1: Walk, again: seq<Event>, st2: Walk)
    requires WellFormed(c) && GateFree(c) && Steady(c)
    requires Runs(c, Start(c, map[]), cut, st1)
    requires Runs(c, Start(c, st1.journal), again, st2) && Done(c, st2) && Calm(st2)
    ensures forall id <- c.doc ::
      st2.cells[id] == Settled(Meaning(c, id).disp, Meaning(c, id).own, Meaning(c, id).visits)
    ensures forall whole, st :: Runs(c, Start(c, map[]), whole, st) && Done(c, st) && Calm(st) ==> st.cells == st2.cells
  {
    hide Meaning, Replayable, JournalOk, TrueJournal, GatesClear, Runs, Done, Steady;
    FirstJournal(c, cut, st1);
    NoGates(c, st1.journal);
    WalkMeaning(c, st1.journal, again, st2);
    BlankIsReplayable(c);
    forall whole, st | Runs(c, Start(c, map[]), whole, st) && Done(c, st) && Calm(st)
      ensures st.cells == st2.cells
    {
      WalkMeaning(c, map[], whole, st);
    }
  }

  // The journal a first walk leaves, cut anywhere.
  lemma FirstJournal(c: Config, cut: seq<Event>, st: Walk)
    requires WellFormed(c) && Steady(c) && Runs(c, Start(c, map[]), cut, st)
    ensures JournalOk(c, st.journal) && TrueJournal(c, st.journal) && Replayable(c, st.journal) && NeverResumed(c, st.journal)
  {
    hide Meaning, Replayable, JournalOk, TrueJournal, JournalGrew, Runs, Shape, Blank, NeverResumed, CellOk, OnWalk, Steady;
    NothingJournaled(c);
    StartOk(c, map[]);
    FirstWalkNeverResumed(c, map[], Start(c, map[]), cut, st);
    WalkIsTrue(c, map[], cut, st);
    NeverResumedIsReplayable(c, st.journal);
  }
}
