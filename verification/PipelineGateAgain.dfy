/** A run that stopped at a gate cannot be resumed past it.

The gate's attempt 0 is journaled when the gate is reached, and a second walk journals the same
attempt again, which the append-only journal refuses.  `ThrowsIff` in PipelineRuns says exactly
when a walk throws; here is the smallest run that does.
*/
module PipelineGateAgain {
  import opened Base
  import opened Pipeline
  import opened PipelineProofs
  import opened PipelineTheorems
  import opened PipelineRuns
  import opened PipelineSolo

  const GATE: Step := Step([], false, false, Gate(false))
  const ROW: Row := Row(0, "gate:a", AwaitingApproval, None)

  function Approval(): Config {
    Config(map["a" := GATE], map["a" := 0],
           World((id, s) => true, (id, s) => [], (id, s, i) => "", (id, s, i) => true,
                 (id, slot, i, n) => ExecResult(false, false, "error", None), id => Some(Allowed)),
           {})
  }

  lemma BeginsGate(c: Config, j: Journal)
    requires IsSolo(c, GATE)
    ensures var e := SoloEffect(c, GATE, j, Active(Begin, None, []));
      if exists row <- Rows(j, "a", 0) :: row.attempt == 0 then e.Throw?
      else e == Effect(Rows(j, "a", 0) + [ROW], Active(AtGate, None, []))
  {
    assert "gate:" + "a" == "gate:a";
  }

  /** The gate would be approved, so the run means completion.  Its first walk reaches the gate and is
      cut there; the second walk throws. */
  lemma CutAtGateNeverCompletes()
    ensures var c := Approval();
      var journal: Journal := map[("a", 0) := [ROW]];
      && WellFormed(c) && Meaning(c, "a").disp == Completed && JournalOk(c, journal)
      && Runs(c, Start(c, map[]), [Generation, ADVANCE], At(journal, Active(AtGate, None, [])))
      && Runs(c, Start(c, journal), [Generation, ADVANCE], At(journal, Refused).(thrown := true))
  {
    hide Shape, Enabled, Next, Runs, SoloEffect;
    var c := Approval();
    var journal: Journal := map[("a", 0) := [ROW]];
    SoloFormed(c, GATE, map[]);
    BeginsGate(c, map[]);
    assert With(map[], [ROW]) == journal;
    Begun(c, map[]);
    SoloMoves(c, GATE, map[], Active(Begin, None, []), Effect([ROW], Active(AtGate, None, [])));
    RunsExtend(c, Start(c, map[]), [Generation], At(map[], Active(Begin, None, [])), ADVANCE);
    BeginsGate(c, journal);
    assert ROW in Rows(journal, "a", 0);
    Begun(c, journal);
    SoloThrows(c, GATE, journal, Active(Begin, None, []));
    RunsExtend(c, Start(c, journal), [Generation], At(journal, Active(Begin, None, [])), ADVANCE);
    assert [Generation] + [ADVANCE] == [Generation, ADVANCE];
  }

  lemma Begun(c: Config, j: Journal)
    requires IsSolo(c, GATE)
    ensures Runs(c, Start(c, j), [Generation], At(j, Active(Begin, None, [])))
  {
    hide Shape, Enabled, Next, Runs;
    SoloFormed(c, GATE, j);
    SoloGeneration(c, GATE, j);
    NoEvents(c, Start(c, j));
    RunsExtend(c, Start(c, j), [], Start(c, j), Generation);
    assert [] + [Generation] == [Generation];
  }
}
