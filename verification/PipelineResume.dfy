/** Which journals can be resumed faithfully, in terms of the journal, for an executor that is a function
    of the resolved input. */
module PipelineResume {
  import opened Base
  import opened Pipeline
  import opened PipelineProofs
  import opened PipelineTheorems
  import opened PipelineRuns
  import opened PipelineTruth
  import opened PipelineAttempts

  // No output of this input is hidden behind a memoized row.
  ghost predicate Unhidden(rows: seq<Row>, input: Input) {
    forall a, k | 0 <= a < |rows| && 0 <= k < |rows| && rows[a].status.RowCompleted? && rows[k].status.Memoized? ::
      rows[a].input == input == rows[k].input ==> rows[a].output.None?
  }

  // The rows of a slot answer a visit's lookup faithfully exactly when nothing is hidden there.
  lemma FaithfulIff(c: Config, id: StepId, rows: seq<Row>, v: Visit)
    requires Steady(c) && id in c.doc && c.doc[id].kind.Work? && ExecutorSays(c, id, v)
    requires RowsOk(rows) && NoRerun([], rows) && TrueRows(c, id, v.slot, rows)
    ensures Faithful(rows, v) <==> Unhidden(rows, v.input)
  {
    hide FindMemo, Grounded, Steady, LastTry;
    SteadyAnswer(c, id, v.slot, v.input);
    var memo := FindMemo(rows, v.input);
    if memo.Some? {
      var m :| 0 <= m < |rows| && rows[m] == memo.value;
      assert TrueRow(c, id, v.slot, rows[m]);
      MemoIsNewest(rows, v.input, m);
      if rows[m].status.RowCompleted? {
        forall k | 0 <= k < |rows| && rows[k].status.Memoized? ensures rows[k].input != v.input {
          assert rows[k].input == v.input ==> Hit(rows[k], v.input);
        }
      } else {
        HitGrounded(rows, v.input, m);
        var a :| 0 <= a < |rows| && rows[a].status.RowCompleted? && rows[a].input == v.input;
        assert TrueRow(c, id, v.slot, rows[a]);
      }
    } else {
      assert forall k | 0 <= k < |rows| :: !Hit(rows[k], v.input);
    }
    forall a | 0 <= a < |rows| && rows[a].status.RowCompleted? && rows[a].input == v.input
      ensures rows[a].output == c.world.execute(id, v.slot, v.input, 1).output
    {
      assert TrueRow(c, id, v.slot, rows[a]);
    }
  }

  // The row a lookup finds is the last hit: a hit after it would have a larger attempt number.
  lemma {:induction false} NewestHit(rows: seq<Row>, input: Input, k: nat)
    requires forall i | 0 <= i < |rows| :: rows[i].attempt == i
    requires k < |rows| && Hit(rows[k], input)
    ensures FindMemo(rows, input).Some? && k <= FindMemo(rows, input).value.attempt < |rows|
  {
    var n := |rows| - 1;
    if k < n {
      NewestHit(rows[..n], input, k);
    }
    var best := FindMemo(rows[..n], input);
    if best.Some? {
      var i :| 0 <= i < n && rows[..n][i] == best.value;
    }
  }

  lemma MemoIsNewest(rows: seq<Row>, input: Input, m: nat)
    requires RowsOk(rows) && NoRerun([], rows) && m < |rows| && FindMemo(rows, input) == Some(rows[m])
    ensures forall k | 0 <= k < |rows| && Hit(rows[k], input) :: k <= m
    ensures rows[m].status.RowCompleted? ==> forall k | 0 <= k < |rows| && Hit(rows[k], input) :: k == m
  {
    forall k | 0 <= k < |rows| && Hit(rows[k], input) ensures k <= m {
      NewestHit(rows, input, k);
    }
  }

  /** Replayability in terms of the journal: the walk over it repeats the meaning if and only if, in
      every slot and for every input the run looks up, no memoized row hides a completed row's output. */
  lemma ReplayableIff(c: Config, j: Journal)
    requires WellFormed(c) && Steady(c) && JournalOk(c, j) && TrueJournal(c, j)
    ensures Replayable(c, j) <==>
      forall id <- c.doc | id !in c.drifted :: forall v <- Meaning(c, id).visits :: Unhidden(Rows(j, id, v.slot), v.input)
  {
    hide Meaning, Faithful, Unhidden, RowsOk, NoRerun, Steady, TrueRows;
    forall id, v | id in c.doc && id !in c.drifted && v in Meaning(c, id).visits
      ensures Faithful(Rows(j, id, v.slot), v) <==> Unhidden(Rows(j, id, v.slot), v.input)
    {
      MeaningVisit(c, id, v);
      assert RowsOk(Rows(j, id, v.slot)) && TrueRows(c, id, v.slot, Rows(j, id, v.slot));
      FaithfulIff(c, id, Rows(j, id, v.slot), v);
    }
  }

  // Readable off the journal alone: no slot of an executable step hides an output.
  ghost predicate NothingHidden(c: Config, j: Journal) {
    forall id, slot: nat, input {:trigger Unhidden(Rows(j, id, slot), input)} |
      id in c.doc && c.doc[id].kind.Work? && id !in c.drifted :: Unhidden(Rows(j, id, slot), input)
  }

  /** A check before resuming: a journal that hides no output is replayed faithfully. */
  lemma NothingHiddenIsReplayable(c: Config, j: Journal)
    requires WellFormed(c) && Steady(c) && JournalOk(c, j) && TrueJournal(c, j) && NothingHidden(c, j)
    ensures Replayable(c, j)
  {
    hide Meaning, Unhidden, JournalOk, TrueJournal, Replayable, Steady;
    ReplayableIff(c, j);
    forall id, v | id in c.doc && id !in c.drifted && v in Meaning(c, id).visits ensures Unhidden(Rows(j, id, v.slot), v.input) {
      MeaningVisit(c, id, v);
    }
  }

  // ---- the second resume ---------------------------------------------------------------------------------

  // No successful slot of the run has an output.
  ghost predicate Outputless(c: Config)
    requires WellFormed(c)
  {
    forall id <- c.doc | id !in c.drifted :: forall v <- Meaning(c, id).visits :: v.output.None?
  }

  // Readable off the journal: no completed row carries an output.
  ghost predicate NoOutputs(c: Config, j: Journal) {
    forall id, slot: nat, k {:trigger Rows(j, id, slot)[k]} |
      id in c.doc && c.doc[id].kind.Work? && id !in c.drifted && 0 <= k < |Rows(j, id, slot)| ::
      Rows(j, id, slot)[k].status.RowCompleted? ==> Rows(j, id, slot)[k].output.None?
  }

  lemma FirstOutputs(c: Config, first: seq<Event>, st: Walk)
    requires WellFormed(c) && GateFree(c) && Steady(c)
    requires Runs(c, Start(c, map[]), first, st) && Done(c, st) && Calm(st)
    ensures NoOutputs(c, st.journal) <==> Outputless(c)
  {
    hide Meaning, Replayable, JournalOk, TrueJournal, Steady, JournalGrew, Runs, Done, GatesClear, Counted, NeverResumed;
    FirstJournal(c, first, st);
    BlankIsReplayable(c);
    if NoOutputs(c, st.journal) {
      forall id, v | id in c.doc && id !in c.drifted && v in Meaning(c, id).visits ensures v.output.None? {
        ExactAttempts(c, map[], first, st, id, 0);
        VisitHasOutput(c, id, st.journal, v);
      }
    }
    if Outputless(c) {
      forall id, slot: nat, k | id in c.doc && id !in c.drifted && 0 <= k < |Rows(st.journal, id, slot)| && Rows(st.journal, id, slot)[k].status.RowCompleted?
        ensures Rows(st.journal, id, slot)[k].output.None?
      {
        ExactAttempts(c, map[], first, st, id, slot);
        var v :| v in Meaning(c, id).visits && v.slot == slot;
        RowHasVisit(c, id, st.journal, v, k);
      }
    }
  }

  // In a first journal the newest row of a successful slot is completed with the slot's output.
  lemma VisitHasOutput(c: Config, id: StepId, j: Journal, v: Visit)
    requires WellFormed(c) && id in c.doc && c.doc[id].kind.Work? && v in Meaning(c, id).visits
    requires Steady(c) && TrueJournal(c, j) && NeverResumed(c, j) && Counted(c, id, map[], j, v)
    ensures v.output.Some? ==> var rows := Rows(j, id, v.slot);
      rows != [] && rows[|rows| - 1].status.RowCompleted? && rows[|rows| - 1].output == v.output
  {
    hide Meaning, NoRerun, Steady, LastTry, FindMemo;
    MeaningVisit(c, id, v);
    SteadyAnswer(c, id, v.slot, v.input);
    var rows := Rows(j, id, v.slot);
    assert TrueRows(c, id, v.slot, rows) && NoMemo(rows);
    if v.output.Some? {
      assert TrueRow(c, id, v.slot, rows[|rows| - 1]);
    }
  }

  lemma RowHasVisit(c: Config, id: StepId, j: Journal, v: Visit, k: nat)
    requires WellFormed(c) && id in c.doc && c.doc[id].kind.Work? && v in Meaning(c, id).visits
    requires Steady(c) && TrueJournal(c, j) && Counted(c, id, map[], j, v)
    requires k < |Rows(j, id, v.slot)| && Rows(j, id, v.slot)[k].status.RowCompleted?
    ensures Rows(j, id, v.slot)[k].output == v.output
  {
    hide Meaning, NoRerun, Steady, LastTry, FindMemo;
    MeaningVisit(c, id, v);
    SteadyAnswer(c, id, v.slot, v.input);
    assert TrueRows(c, id, v.slot, Rows(j, id, v.slot));
    assert TrueRow(c, id, v.slot, Rows(j, id, v.slot)[k]);
  }

  // A slot that succeeded in two finished walks: the second walk's row is memoized.
  lemma SecondRowIsMemo(c: Config, id: StepId, j0: Journal, j1: Journal, j2: Journal, v: Visit)
    requires id in c.doc && c.doc[id].kind.Work? && v.ok
    requires Counted(c, id, j0, j1, v) && Counted(c, id, j1, j2, v)
    requires Steady(c) && ExecutorSays(c, id, v) && id !in c.drifted && TrueRows(c, id, v.slot, Rows(j1, id, v.slot))
    requires NoRerun([], Rows(j2, id, v.slot)) && Rows(j1, id, v.slot) <= Rows(j2, id, v.slot)
    ensures var rows := Rows(j2, id, v.slot); rows != [] && rows[|rows| - 1].status.Memoized? && rows[|rows| - 1].input == v.input
  {
    hide Steady, LastTry, FindMemo;
    var rows1, rows2 := Rows(j1, id, v.slot), Rows(j2, id, v.slot);
    var n := |rows1| - 1;
    assert rows2[n] == rows1[n] && Hit(rows1[n], v.input);
    assert Hit(rows2[n], rows2[|rows2| - 1].input);
  }

  /** Exactly when a finished run survives two resumes: after two finished walks of a gate-free
      document the journal can be replayed if and only if the journal of the first one holds no
      output, that is, if and only if there was nothing to lose. */
  lemma SecondResumeIff(c: Config, first: seq<Event>, st1: Walk, again: seq<Event>, st2: Walk)
    requires WellFormed(c) && GateFree(c) && Steady(c)
    requires Runs(c, Start(c, map[]), first, st1) && Done(c, st1) && Calm(st1)
    requires Runs(c, Start(c, st1.journal), again, st2) && Done(c, st2) && Calm(st2)
    ensures Replayable(c, st2.journal) <==> NoOutputs(c, st1.journal)
  {
    hide Meaning, Replayable, JournalOk, TrueJournal, Steady, JournalGrew, Runs, Done, GatesClear, Unhidden, Counted, NeverResumed, NoOutputs;
    FirstJournal(c, first, st1);
    FirstOutputs(c, first, st1);
    BlankIsReplayable(c);
    NoGates(c, st1.journal);
    JournalSafety(c, st1.journal, again, st2);
    WalkIsTrue(c, st1.journal, again, st2);
    ReplayableIff(c, st2.journal);
    forall id, v | id in c.doc && id !in c.drifted && v in Meaning(c, id).visits
      ensures Unhidden(Rows(st2.journal, id, v.slot), v.input) <==> v.output.None?
    {
      ExactAttempts(c, map[], first, st1, id, 0);
      ExactAttempts(c, st1.journal, again, st2, id, 0);
      SlotSurvives(c, id, st1.journal, st2.journal, v);
    }
  }

  lemma SlotSurvives(c: Config, id: StepId, j1: Journal, j2: Journal, v: Visit)
    requires WellFormed(c) && id in c.doc && c.doc[id].kind.Work? && id !in c.drifted && v in Meaning(c, id).visits
    requires Steady(c) && JournalOk(c, j2) && TrueJournal(c, j1) && TrueJournal(c, j2) && JournalGrew(c, j1, j2) && Counted(c, id, map[], j1, v) && Counted(c, id, j1, j2, v)
    ensures Unhidden(Rows(j2, id, v.slot), v.input) <==> v.output.None?
  {
    hide Meaning, Counted, Grounded, NoRerun, FindMemo, Steady, LastTry;
    MeaningVisit(c, id, v);
    var rows := Rows(j2, id, v.slot);
    SteadyAnswer(c, id, v.slot, v.input);
    assert RowsOk(rows) && TrueRows(c, id, v.slot, rows) && Extends(c, id, Rows(j1, id, v.slot), rows);
    assert TrueRows(c, id, v.slot, Rows(j1, id, v.slot));
    FaithfulIff(c, id, rows, v);
    if v.ok {
      SecondRowIsMemo(c, id, map[], j1, j2, v);
      var n := |rows| - 1;
      assert TrueRow(c, id, v.slot, rows[n]);
      HitIsFound(rows, v.input);
    } else {
      forall k | 0 <= k < |rows| ensures !Hit(rows[k], v.input) {
        assert TrueRow(c, id, v.slot, rows[k]);
      }
    }
  }

  lemma HitIsFound(rows: seq<Row>, input: Input)
    requires forall i | 0 <= i < |rows| :: rows[i].attempt == i
    requires rows != [] && Hit(rows[|rows| - 1], input)
    ensures FindMemo(rows, input) == Some(rows[|rows| - 1])
  {
    var n := |rows| - 1;
    var best := FindMemo(rows[..n], input);
    if best.Some? {
      var i :| 0 <= i < n && rows[..n][i] == best.value;
    }
  }
}
