/** Whole runs of the pipeline machine: meaning, resume, termination. */
module PipelineRuns {
  import opened Base
  import opened Pipeline
  import opened PipelineProofs
  import opened PipelineTheorems

  // `st'` is reached from `st` by these events, in this order.
  ghost predicate Runs(c: Config, st: Walk, events: seq<Event>, st': Walk)
    decreases |events|
  {
    if events == [] then st == st'
    else Shape(c, st) && Enabled(c, st, events[0]) && Runs(c, Next(c, st, events[0]), events[1..], st')
  }

  lemma {:induction false} RunsExtend(c: Config, st0: Walk, events: seq<Event>, st: Walk, e: Event)
    requires Runs(c, st0, events, st) && Shape(c, st) && Enabled(c, st, e)
    ensures Runs(c, st0, events + [e], Next(c, st, e))
    decreases |events|
  {
    hide Shape, Next, Enabled;
    if events == [] {
      assert Runs(c, Next(c, st, e), [], Next(c, st, e));
      assert ([e])[1..] == [];
      assert events + [e] == [e];
    } else {
      RunsExtend(c, Next(c, st0, events[0]), events[1..], st, e);
      assert (events + [e])[1..] == events[1..] + [e];
    }
  }

  // Nothing is in flight, and nothing is ready or the walk has thrown.
  ghost predicate Done(c: Config, st: Walk) {
    && st.cells.Keys == c.doc.Keys
    && (forall id <- c.doc :: !st.cells[id].Active?)
    && (st.thrown || Ready(c, st) == {})
  }

  // No journaled gate is reached: each of them is one the run skips.
  ghost predicate GatesClear(c: Config, j: Journal)
    requires WellFormed(c)
  {
    forall id <- c.doc | c.doc[id].kind.Gate? && Journaled(j, id) :: Meaning(c, id).disp == Skipped
  }

  lemma StartOk(c: Config, j: Journal)
    requires WellFormed(c) && JournalOk(c, j)
    ensures Struct(c, j, Start(c, j)) && OnWalk(c, j, Start(c, j)) && Calm(Start(c, j))
  {
    hide SlotOk, Meaning, Known;
  }

  lemma {:induction false} RunKeeps(c: Config, j0: Journal, st: Walk, events: seq<Event>, st': Walk)
    requires Struct(c, j0, st) && Runs(c, st, events, st')
    requires Calm(st) ==> OnOrOff(c, j0, st)
    ensures Struct(c, j0, st') && (Calm(st') ==> OnOrOff(c, j0, st'))
    decreases |events|
  {
    hide Struct, OnOrOff, Shape, Next;
    if events != [] {
      RunStep(c, j0, st, events[0]);
      RunKeeps(c, j0, Next(c, st, events[0]), events[1..], st');
    }
  }

  // What holds at any point of any run.
  lemma FromStart(c: Config, j: Journal, events: seq<Event>, st: Walk)
    requires WellFormed(c) && JournalOk(c, j) && Runs(c, Start(c, j), events, st)
    ensures Struct(c, j, st) && (Calm(st) ==> OnOrOff(c, j, st))
  {
    hide OnWalk, JournalOk;
    StartOk(c, j);
    RunKeeps(c, j, Start(c, j), events, st);
  }

  lemma RunStep(c: Config, j0: Journal, st: Walk, e: Event)
    requires Struct(c, j0, st) && Enabled(c, st, e)
    requires Calm(st) ==> OnOrOff(c, j0, st)
    ensures Struct(c, j0, Next(c, st, e)) && (Calm(Next(c, st, e)) ==> OnOrOff(c, j0, Next(c, st, e)))
  {
    hide OnOrOff, JournalOk, JournalGrew, CellOk, PcShape, EffectOf;
    StructKept(c, j0, st, e);
    if Calm(Next(c, st, e)) {
      OnKept(c, j0, st, e);
    }
  }

  /** Journal safety, for every interleaving of steps, cut by a crash, a pause or a cancel anywhere,
      and also after a refused gate, whatever the executor answers at each try: rows are only
      appended, at most 1 + retry.max a slot and walk; attempt numbers stay gap-free; and no row
      of this walk executes an input of an undrifted step that has succeeded before, in this walk
      or an earlier one. */
  lemma JournalSafety(c: Config, j: Journal, events: seq<Event>, st: Walk)
    requires WellFormed(c) && JournalOk(c, j) && Runs(c, Start(c, j), events, st)
    ensures JournalOk(c, st.journal) && JournalGrew(c, j, st.journal)
    ensures forall id, slot: nat, a, b {:trigger Rows(st.journal, id, slot)[a], Rows(st.journal, id, slot)[b]} |
        && id in c.doc && c.doc[id].kind.Work? && id !in c.drifted
        && 0 <= a < b < |Rows(st.journal, id, slot)| && |Rows(j, id, slot)| <= b ::
        var rows := Rows(st.journal, id, slot);
        Hit(rows[a], rows[b].input) ==> rows[b].status.Memoized?
  {
    FromStart(c, j, events, st);
    forall id, slot: nat | id in c.doc && c.doc[id].kind.Work? && id !in c.drifted
      ensures NoRerun(Rows(j, id, slot), Rows(st.journal, id, slot))
    {
      assert Extends(c, id, Rows(j, id, slot), Rows(st.journal, id, slot));
    }
  }

  lemma {:induction false} DoneIsSettled(c: Config, st: Walk, id: StepId)
    requires Shape(c, st) && Done(c, st) && !st.thrown && id in c.doc
    requires forall x <- c.doc :: !st.cells[x].Refused?
    ensures st.cells[id].Settled?
    decreases c.rank[id]
  {
    forall n <- c.doc[id].needs ensures st.cells[n].Settled? {
      DoneIsSettled(c, st, n);
    }
    assert id !in Ready(c, st);
  }

  // ---- refused gates -------------------------------------------------------------------------

  /** Over a journal that holds a gate's attempt 0, no run ever gets past that gate: it waits, is
      about to begin, was refused, or was skipped. */
  lemma JournaledGateStops(c: Config, j: Journal, events: seq<Event>, st: Walk, id: StepId)
    requires WellFormed(c) && JournalOk(c, j) && Runs(c, Start(c, j), events, st)
    requires id in c.doc && c.doc[id].kind.Gate? && Journaled(j, id)
    ensures id in st.cells && Turned(st.cells[id])
  {
    hide Meaning, JournalOk, JournalGrew, Runs, OnOrOff;
    FromStart(c, j, events, st);
    assert CellOk(c, j, st.journal, id, st.cells[id]);
  }

  lemma NotThrown(c: Config, j: Journal, events: seq<Event>, st: Walk)
    requires WellFormed(c) && JournalOk(c, j) && Replayable(c, j) && GatesClear(c, j)
    requires Runs(c, Start(c, j), events, st) && Calm(st)
    ensures !st.thrown && Struct(c, j, st) && OnWalk(c, j, st)
  {
    hide Meaning, JournalOk, JournalGrew, Runs, Replayable, OnPc;
    FromStart(c, j, events, st);
    forall id <- c.doc ensures !st.cells[id].Refused? {
      assert OnCell(c, id, st.cells[id]) && CellOk(c, j, st.journal, id, st.cells[id]);
    }
  }

  /** Exactly when a walk throws: undisturbed and at rest over a journal that can be replayed, it
      has thrown if and only if the run reaches a gate the journal already holds. */
  lemma ThrowsIff(c: Config, j: Journal, events: seq<Event>, st: Walk)
    requires WellFormed(c) && JournalOk(c, j) && Replayable(c, j)
    requires Runs(c, Start(c, j), events, st) && Done(c, st) && Calm(st)
    ensures st.thrown <==> !GatesClear(c, j)
  {
    hide Meaning, JournalOk, JournalGrew, Runs, Replayable, OnPc;
    FromStart(c, j, events, st);
    if st.thrown {
      var id :| id in c.doc && st.cells[id].Refused?;
      assert OnCell(c, id, st.cells[id]) && CellOk(c, j, st.journal, id, st.cells[id]);
    } else {
      forall id <- c.doc | c.doc[id].kind.Gate? && Journaled(j, id) ensures Meaning(c, id).disp == Skipped {
        DoneIsSettled(c, st, id);
        assert OnCell(c, id, st.cells[id]) && CellOk(c, j, st.journal, id, st.cells[id]);
      }
    }
  }

  // ---- the meaning of a whole walk -----------------------------------------------------------

  /** The walk refines its meaning: whatever the interleaving, an undisturbed walk that has
      nothing left to do gave every step the outcome of the recursive definition. */
  lemma WalkMeaning(c: Config, j: Journal, events: seq<Event>, st: Walk)
    requires WellFormed(c) && JournalOk(c, j) && Replayable(c, j) && GatesClear(c, j)
    requires Runs(c, Start(c, j), events, st) && Done(c, st) && Calm(st)
    ensures st.cells.Keys == c.doc.Keys
    ensures forall id <- c.doc ::
      st.cells[id] == Settled(Meaning(c, id).disp, Meaning(c, id).own, Meaning(c, id).visits)
  {
    hide Meaning, Known, JournalOk, JournalGrew, CellOk, Replayable, GatesClear;
    NotThrown(c, j, events, st);
    forall id <- c.doc ensures st.cells[id] == Settled(Meaning(c, id).disp, Meaning(c, id).own, Meaning(c, id).visits) {
      DoneIsSettled(c, st, id);
      assert OnCell(c, id, st.cells[id]);
    }
  }

  /** Exactly when a walk over an old journal replays the meaning slot by slot. */
  lemma ReplayExact(c: Config, j: Journal, events: seq<Event>, st: Walk)
    requires WellFormed(c) && JournalOk(c, j) && GatesClear(c, j)
    requires Runs(c, Start(c, j), events, st) && Done(c, st) && Calm(st)
    ensures Replayable(c, j) <==> forall id <- c.doc :: Trace(st.cells[id]) == Meaning(c, id).visits
  {
    hide Meaning, JournalOk, JournalGrew, CellOk, Faithful, GatesClear, Runs, OnCell, Shape;
    if Replayable(c, j) {
      WalkMeaning(c, j, events, st);
    }
    if forall id <- c.doc :: Trace(st.cells[id]) == Meaning(c, id).visits {
      FromStart(c, j, events, st);
      assert !Diverged(c, st);
      forall id <- c.doc ensures FaithfulTrace(c, j, id, Meaning(c, id).visits) {
        assert FaithfulTrace(c, j, id, Trace(st.cells[id]));
      }
    }
  }

  lemma NoEvents(c: Config, st: Walk)
    ensures Runs(c, st, [], st)
  {
  }

  // ---- the first walk ------------------------------------------------------------------------

  // A walk over an empty journal finds nothing to replay.
  lemma BlankIsReplayable(c: Config)
    requires WellFormed(c)
    ensures JournalOk(c, map[]) && Replayable(c, map[]) && GatesClear(c, map[])
  {
    hide Meaning;
  }
}
