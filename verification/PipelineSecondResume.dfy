/** The second resume of a run loses the outputs the first one replayed.

A cache hit is journaled as a `memoized` row without an output, and the next lookup
returns the newest hit, which is that row.  PipelineResume gives the exact condition; here is
a one-step document on which it fails, walked three times.
*/
module PipelineSecondResume {
  import opened Base
  import opened Pipeline
  import opened PipelineProofs
  import opened PipelineTheorems
  import opened PipelineRuns
  import opened PipelineTruth
  import opened PipelineSolo

  const TASK: Step := Step([], false, false, Work(false, None, 0, {}))
  const ANSWER: ExecResult := ExecResult(true, false, "", Some("1"))

  function Solo(): Config {
    Config(map["a" := TASK], map["a" := 0],
           World((id, s) => true, (id, s) => [], (id, s, i) => "in", (id, s, i) => true, (id, slot, i, n) => ANSWER, id => None),
           {})
  }

  // All the walks below need to know about the document.
  ghost predicate Answers(c: Config) {
    && IsSolo(c, TASK) && (forall n: nat :: c.world.execute("a", 0, "in", n) == ANSWER)
    && forall s: Scope :: c.world.resolve("a", s, None) == "in"
  }

  function Held(rows: seq<Row>): Journal { map[("a", 0) := rows] }

  function Ended(output: Option<Value>): Cell { Settled(Completed, output, [Visit(0, "in", true, output)]) }

  const BEGIN: Cell := Active(Begin, None, [])
  const SLOT: Cell := Active(AtSlot([None], 0, 0, true), None, [])
  const FLIGHT: Cell := Active(InFlight([None], 0, 0, true, "in", 1), None, [])

  function After(output: Option<Value>): Cell {
    Active(AtSlot([None], 1, 0, true), output, [Visit(0, "in", true, output)])
  }

  lemma Claimed(c: Config, j: Journal)
    requires Answers(c)
    ensures Runs(c, Start(c, j), [Generation, ADVANCE], At(j, SLOT))
  {
    hide Shape, Enabled, Next, Runs;
    SoloFormed(c, TASK, j);
    SoloGeneration(c, TASK, j);
    NoEvents(c, Start(c, j));
    RunsExtend(c, Start(c, j), [], Start(c, j), Generation);
    assert [] + [Generation] == [Generation];
    BeginsTask(c, j);
    SoloMoves(c, TASK, j, BEGIN, Effect(Rows(j, "a", 0), SLOT));
    RunsExtend(c, Start(c, j), [Generation], At(j, BEGIN), ADVANCE);
    assert [Generation] + [ADVANCE] == [Generation, ADVANCE];
  }

  lemma BeginsTask(c: Config, j: Journal)
    requires Answers(c)
    ensures SoloEffect(c, TASK, j, BEGIN) == Effect(Rows(j, "a", 0), SLOT)
  {
  }

  // From the end of the slot to the end of the step.
  lemma Settles(c: Config, j0: Journal, events: seq<Event>, j: Journal, output: Option<Value>)
    requires Answers(c) && Runs(c, Start(c, j0), events, At(j, After(output)))
    ensures Runs(c, Start(c, j0), events + [ADVANCE], At(j, Ended(output)))
  {
    hide Shape, Enabled, Next, Runs;
    EndsTask(c, j, output);
    SoloMoves(c, TASK, j, After(output), Effect(Rows(j, "a", 1), Ended(output)));
    RunsExtend(c, Start(c, j0), events, At(j, After(output)), ADVANCE);
  }

  lemma EndsTask(c: Config, j: Journal, output: Option<Value>)
    requires Answers(c)
    ensures SoloEffect(c, TASK, j, After(output)) == Effect(Rows(j, "a", 1), Ended(output))
  {
  }

  const FIRST: seq<Event> := [Generation, ADVANCE] + [ADVANCE] + [ADVANCE] + [ADVANCE]
  const AGAIN: seq<Event> := [Generation, ADVANCE] + [ADVANCE] + [ADVANCE]

  // A walk over an empty journal executes the step.
  lemma FirstWalk(c: Config)
    requires Answers(c)
    ensures Runs(c, Start(c, map[]), FIRST, At(Held([Row(0, "in", RowCompleted, Some("1"))]), Ended(Some("1"))))
  {
    hide Shape, Enabled, Next, Runs, SoloEffect;
    var running := [Row(0, "in", Running, None)];
    var done := [Row(0, "in", RowCompleted, Some("1"))];
    Claimed(c, map[]);
    Executes(c);
    assert With(map[], running) == Held(running);
    SoloMoves(c, TASK, map[], SLOT, Effect(running, FLIGHT));
    RunsExtend(c, Start(c, map[]), [Generation, ADVANCE], At(map[], SLOT), ADVANCE);
    Finishes(c);
    assert With(Held(running), done) == Held(done);
    SoloMoves(c, TASK, Held(running), FLIGHT, Effect(done, After(Some("1"))));
    RunsExtend(c, Start(c, map[]), [Generation, ADVANCE] + [ADVANCE], At(Held(running), FLIGHT), ADVANCE);
    Settles(c, map[], [Generation, ADVANCE] + [ADVANCE] + [ADVANCE], Held(done), Some("1"));
  }

  lemma Executes(c: Config)
    requires Answers(c)
    ensures SoloEffect(c, TASK, map[], SLOT) == Effect([Row(0, "in", Running, None)], FLIGHT)
  {
    assert View(map[], "a", None) == map[];
  }

  lemma Finishes(c: Config)
    requires Answers(c)
    ensures SoloEffect(c, TASK, Held([Row(0, "in", Running, None)]), FLIGHT)
      == Effect([Row(0, "in", RowCompleted, Some("1"))], After(Some("1")))
  {
    var v := Visit(0, "in", true, Some("1"));
    assert [] + [v] == [v];
    var e := SoloEffect(c, TASK, Held([Row(0, "in", Running, None)]), FLIGHT);
    assert e.rows == [Row(0, "in", RowCompleted, Some("1"))];
  }

  // A walk over a journal with a hit ends with the output of the newest one.
  lemma Replay(c: Config, rows: seq<Row>)
    requires Answers(c) && FindMemo(rows, "in").Some?
    ensures Runs(c, Start(c, Held(rows)), AGAIN, At(Held(Appended(rows, "in", Memoized)), Ended(FindMemo(rows, "in").value.output)))
  {
    hide Shape, Enabled, Next, Runs, SoloEffect, FindMemo, Latest;
    var output := FindMemo(rows, "in").value.output;
    var after := Appended(rows, "in", Memoized);
    Claimed(c, Held(rows));
    Hits(c, rows);
    assert With(Held(rows), after) == Held(after);
    SoloMoves(c, TASK, Held(rows), SLOT, Effect(after, After(output)));
    RunsExtend(c, Start(c, Held(rows)), [Generation, ADVANCE], At(Held(rows), SLOT), ADVANCE);
    Settles(c, Held(rows), [Generation, ADVANCE] + [ADVANCE], Held(after), output);
  }

  lemma Hits(c: Config, rows: seq<Row>)
    requires Answers(c) && FindMemo(rows, "in").Some?
    ensures SoloEffect(c, TASK, Held(rows), SLOT) == Effect(Appended(rows, "in", Memoized), After(FindMemo(rows, "in").value.output))
  {
    hide Latest;
    assert View(map[], "a", None) == map[];
    var v := Visit(0, "in", true, FindMemo(rows, "in").value.output);
    assert [] + [v] == [v];
  }

  /** Three walks of one run.  The first executes the step and its output is "1"; the second replays
      "1" from the journal and adds a memoized row; the third completes with no output at all. */
  lemma SecondResumeLosesOutput()
    ensures var c := Solo();
      var first := [Row(0, "in", RowCompleted, Some("1"))];
      var second := first + [Row(1, "in", Memoized, None)];
      var third := second + [Row(2, "in", Memoized, None)];
      && WellFormed(c) && GateFree(c) && Steady(c)
      && Runs(c, Start(c, map[]), FIRST, At(Held(first), Ended(Some("1"))))
      && Runs(c, Start(c, Held(first)), AGAIN, At(Held(second), Ended(Some("1"))))
      && Runs(c, Start(c, Held(second)), AGAIN, At(Held(third), Ended(None)))
  {
    hide Runs, Shape;
    var first := [Row(0, "in", RowCompleted, Some("1"))];
    var second := first + [Row(1, "in", Memoized, None)];
    var c := Solo();
    SoloFormed(c, TASK, map[]);
    assert Answers(c);
    FirstWalk(c);
    Lookups(first[0], second[1]);
    Replay(c, first);
    Replay(c, second);
  }

  lemma Lookups(done: Row, memo: Row)
    requires Hit(done, "in") && Hit(memo, "in") && done.attempt == 0 && memo.attempt == 1
    ensures FindMemo([done], "in") == Some(done) && FindMemo([done] + [memo], "in") == Some(memo)
    ensures Latest([done]) == 0 && Latest([done] + [memo]) == 1
  {
    assert ([done] + [memo])[..1] == [done] && [done][..0] == [];
  }
}
