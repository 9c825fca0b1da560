/** What a finished step did, slot by slot, in the document's own terms. */
module PipelineTrace {
  import opened Base
  import opened Pipeline
  import opened PipelineProofs
  import opened PipelineTheorems
  import opened PipelineRuns
  import opened PipelineTruth
  import opened PipelineSkips

  // The step's output after these visits: the last one that had any.
  ghost function Left(own: Option<Value>, visits: seq<Visit>): Option<Value>
    decreases |visits|
  {
    if visits == [] then own else Left(if visits[0].output.Some? then visits[0].output else own, visits[1..])
  }

  // The ancestors' outputs with the step's own.
  ghost function Seen(scope: Scope, id: StepId, own: Option<Value>): Scope {
    if own.Some? then scope[id := own.value] else scope
  }

  // The result counts as a success; and, where it does not, as one the policy retries.
  ghost predicate Good(r: ExecResult) { r.ok && !r.schemaFailed }
  ghost predicate Again(step: Step, r: ExecResult)
    requires step.kind.Work?
  {
    !Good(r) && (r.schemaFailed || r.errorKind in step.kind.retryOn)
  }

  // The visit is what n tries of the executor came to.
  ghost predicate Tried(c: Config, id: StepId, v: Visit, n: nat)
    requires id in c.doc && c.doc[id].kind.Work?
  {
    && 1 <= n <= 1 + c.doc[id].kind.retryMax
    && (forall t: nat | 1 <= t < n :: Again(c.doc[id], c.world.execute(id, v.slot, v.input, t)))
    && var r := c.world.execute(id, v.slot, v.input, n);
    && (n == 1 + c.doc[id].kind.retryMax || !Again(c.doc[id], r))
    && v.ok == Good(r) && v.output == if Good(r) then r.output else None
  }

  /** The visit of a slot, by the executor's answers: it stops at the first success, at the first failure the policy
      does not retry, or after the last try. */
  lemma AnswerIsTried(c: Config, id: StepId, slot: nat, input: Input)
    requires id in c.doc && c.doc[id].kind.Work?
    ensures Tried(c, id, AnswerVisit(c, id, slot, input), LastTry(c, id, slot, input, 1))
  {
    hide LastTry;
    var n := LastTry(c, id, slot, input, 1);
    LastTryIs(c, id, slot, input, 1, n);
    forall t: nat | 1 <= t < n ensures Again(c.doc[id], c.world.execute(id, slot, input, t)) {
      assert MayRetry(c, id, slot, input, t);
    }
  }

  // Where a step stands: its item, and the loop pass within it.
  datatype Place = Place(i: nat, l: nat)

  ghost function PlaceSlot(step: Step, p: Place): nat
    requires step.kind.Work?
  {
    if step.kind.loop.Some? then 1000 * p.i + p.l else p.i
  }

  // The next pass of the same item, while the loop goes on; otherwise the next item.
  ghost function Following(c: Config, id: StepId, scope: Scope, items: seq<Option<Item>>, p: Place, v: Visit, own: Option<Value>): Place
    requires id in c.doc && c.doc[id].kind.Work? && p.i < |items|
  {
    if v.ok && c.doc[id].kind.loop.Some? && !c.world.until(id, Seen(scope, id, own), items[p.i]) && p.l + 1 < c.doc[id].kind.loop.value
    then Place(p.i, p.l + 1) else Place(p.i + 1, 0)
  }

  // Visit k happened at its place: slot, input and answer.
  ghost predicate VisitAt(c: Config, id: StepId, scope: Scope, own: Option<Value>, items: seq<Option<Item>>, visits: seq<Visit>, k: nat, p: Place)
    requires id in c.doc && c.doc[id].kind.Work? && k < |visits|
  {
    && p.i < |items|
    && visits[k].slot == PlaceSlot(c.doc[id], p)
    && visits[k].input == c.world.resolve(id, Seen(scope, id, Left(own, visits[..k])), items[p.i])
    && exists n :: Tried(c, id, visits[k], n)
  }

  ghost function After(c: Config, id: StepId, scope: Scope, own: Option<Value>, items: seq<Option<Item>>, visits: seq<Visit>, k: nat, p: Place): Place
    requires id in c.doc && c.doc[id].kind.Work? && k < |visits| && p.i < |items|
  {
    Following(c, id, scope, items, p, visits[k], Left(own, visits[..k + 1]))
  }

  // The visits lead from one place to the end of the items.
  ghost predicate Path(c: Config, id: StepId, scope: Scope, own: Option<Value>, items: seq<Option<Item>>, start: Place,
                       visits: seq<Visit>, at: seq<Place>)
    requires id in c.doc && c.doc[id].kind.Work?
  {
    && |at| == |visits| + 1 && at[0] == start && at[|visits|].i == |items|
    && (forall k: nat | k < |visits| :: VisitAt(c, id, scope, own, items, visits, k, at[k]))
    && (forall k: nat | k < |visits| :: at[k + 1] == After(c, id, scope, own, items, visits, k, at[k]))
  }

  lemma LeftFirst(own: Option<Value>, v: Visit, visits: seq<Visit>)
    ensures Left(own, [v] + visits) == Left(if v.output.Some? then v.output else own, visits)
  {
    assert ([v] + visits)[1..] == visits;
  }

  lemma PathNone(c: Config, id: StepId, scope: Scope, own: Option<Value>, items: seq<Option<Item>>)
    requires id in c.doc && c.doc[id].kind.Work?
    ensures Path(c, id, scope, own, items, Place(|items|, 0), [], [Place(|items|, 0)])
  {
  }

  lemma PathMore(c: Config, id: StepId, scope: Scope, own: Option<Value>, items: seq<Option<Item>>, p: Place, v: Visit,
                 visits: seq<Visit>, at: seq<Place>)
    requires id in c.doc && c.doc[id].kind.Work? && p.i < |items|
    requires v.slot == PlaceSlot(c.doc[id], p) && v.input == c.world.resolve(id, Seen(scope, id, own), items[p.i]) && exists n :: Tried(c, id, v, n)
    requires var own' := if v.output.Some? then v.output else own;
      Path(c, id, scope, own', items, Following(c, id, scope, items, p, v, own'), visits, at)
    ensures Path(c, id, scope, own, items, p, [v] + visits, [p] + at)
  {
    hide Tried, Following, Seen;
    var own' := if v.output.Some? then v.output else own;
    var (vs, ps) := ([v] + visits, [p] + at);
    forall k: nat | k < |vs| ensures VisitAt(c, id, scope, own, items, vs, k, ps[k]) && ps[k + 1] == After(c, id, scope, own, items, vs, k, ps[k]) {
      LeftAt(own, v, visits, k);
      if k > 0 {
        assert VisitAt(c, id, scope, own', items, visits, k - 1, at[k - 1]);
        assert at[k] == After(c, id, scope, own', items, visits, k - 1, at[k - 1]);
      }
    }
  }

  lemma LeftAt(own: Option<Value>, v: Visit, visits: seq<Visit>, k: nat)
    requires k <= |visits|
    ensures var own' := if v.output.Some? then v.output else own;
      && Left(own, ([v] + visits)[..k + 1]) == Left(own', visits[..k])
      && Left(own, ([v] + visits)[..k]) == if k == 0 then own else Left(own', visits[..k - 1])
  {
    assert ([v] + visits)[..k + 1] == [v] + visits[..k];
    LeftFirst(own, v, visits[..k]);
    if k > 0 {
      assert ([v] + visits)[..k] == [v] + visits[..k - 1];
      LeftFirst(own, v, visits[..k - 1]);
    }
  }

  // ---- the meaning of a step is such a path --------------------------------------------------------------------

  ghost predicate AllGood(visits: seq<Visit>) { forall v <- visits :: v.ok }

  // The declarative run after a slot, at the place that follows it.
  lemma RestFollows(c: Config, id: StepId, scope: Scope, own: Option<Value>, items: seq<Option<Item>>, i: nat, l: nat, allOk: bool)
    requires id in c.doc && c.doc[id].kind.Work? && i < |items| && l < MaxLoops(c.doc[id])
    ensures var v := AnswerVisit(c, id, PlaceSlot(c.doc[id], Place(i, l)), c.world.resolve(id, Seen(scope, id, own), items[i]));
      var own' := if v.output.Some? then v.output else own;
      var next := Following(c, id, scope, items, Place(i, l), v, own');
      Rest(c, id, scope, own, items, i, l, allOk) == Ahead(v, Rest(c, id, scope, own', items, next.i, next.l, allOk && v.ok))
  {
    hide LastTry, Rest;
    RestStep(c, id, scope, own, items, i, l, allOk);
    var v := AnswerVisit(c, id, PlaceSlot(c.doc[id], Place(i, l)), c.world.resolve(id, Seen(scope, id, own), items[i]));
    var own' := if v.output.Some? then v.output else own;
    if v.ok && l + 1 == MaxLoops(c.doc[id]) {
      RestCapped(c, id, scope, own', items, i, l + 1, allOk);
    }
  }

  lemma RestCapped(c: Config, id: StepId, scope: Scope, own: Option<Value>, items: seq<Option<Item>>, i: nat, l: nat, allOk: bool)
    requires id in c.doc && c.doc[id].kind.Work? && i < |items| && l == MaxLoops(c.doc[id]) > 0
    ensures Rest(c, id, scope, own, items, i, l, allOk) == Rest(c, id, scope, own, items, i + 1, 0, allOk)
  {
  }

  lemma RestEnds(c: Config, id: StepId, scope: Scope, own: Option<Value>, items: seq<Option<Item>>, allOk: bool)
    requires id in c.doc && c.doc[id].kind.Work?
    ensures Rest(c, id, scope, own, items, |items|, 0, allOk) == Outcome(if allOk then Completed else Failed, own, [])
  {
  }

  lemma {:induction false} RestPath(c: Config, id: StepId, scope: Scope, own: Option<Value>, items: seq<Option<Item>>, i: nat, l: nat, allOk: bool)
      returns (at: seq<Place>)
    requires id in c.doc && c.doc[id].kind.Work? && i <= |items| && l < MaxLoops(c.doc[id]) && (i == |items| ==> l == 0)
    ensures var o := Rest(c, id, scope, own, items, i, l, allOk);
      && Path(c, id, scope, own, items, Place(i, l), o.visits, at)
      && o.own == Left(own, o.visits)
      && o.disp == if allOk && AllGood(o.visits) then Completed else Failed
    decreases |items| - i, MaxLoops(c.doc[id]) - l
  {
    hide Rest, LastTry, Path, AnswerVisit, PlaceSlot, Seen;
    if i == |items| {
      RestEnds(c, id, scope, own, items, allOk);
      PathNone(c, id, scope, own, items);
      at := [Place(|items|, 0)];
    } else {
      var input := c.world.resolve(id, Seen(scope, id, own), items[i]);
      var slot := PlaceSlot(c.doc[id], Place(i, l));
      var v := AnswerVisit(c, id, slot, input);
      var own' := if v.output.Some? then v.output else own;
      var next := Following(c, id, scope, items, Place(i, l), v, own');
      RestFollows(c, id, scope, own, items, i, l, allOk);
      var rest := Rest(c, id, scope, own', items, next.i, next.l, allOk && v.ok);
      var at' := RestPath(c, id, scope, own', items, next.i, next.l, allOk && v.ok);
      AnswerIsTried(c, id, slot, input);
      VisitedThere(c, id, slot, input);
      PathMore(c, id, scope, own, items, Place(i, l), v, rest.visits, at');
      LeftFirst(own, v, rest.visits);
      GoodFirst(v, rest.visits);
      at := [Place(i, l)] + at';
    }
  }

  lemma VisitedThere(c: Config, id: StepId, slot: nat, input: Input)
    requires id in c.doc && c.doc[id].kind.Work?
    ensures AnswerVisit(c, id, slot, input).slot == slot && AnswerVisit(c, id, slot, input).input == input
  {
  }

  lemma GoodFirst(v: Visit, visits: seq<Visit>)
    ensures AllGood([v] + visits) <==> v.ok && AllGood(visits)
  {
    assert v in [v] + visits && forall x <- visits :: x in [v] + visits;
  }

  // With a loop of no passes nothing is visited.
  lemma {:induction false} RestIdle(c: Config, id: StepId, scope: Scope, own: Option<Value>, items: seq<Option<Item>>, i: nat, allOk: bool)
    requires id in c.doc && c.doc[id].kind.Work? && i <= |items| && MaxLoops(c.doc[id]) == 0
    ensures Rest(c, id, scope, own, items, i, 0, allOk) == Outcome(if allOk && i == |items| then Completed else Failed, own, [])
    decreases |items| - i
  {
    if i < |items| {
      RestIdle(c, id, scope, own, items, i + 1, false);
    }
  }

  // ---- finished walks --------------------------------------------------------------------------------------------

  // The items by their list.
  ghost function Listed(c: Config, id: StepId, scope: Scope): seq<Option<Item>>
    requires id in c.doc && c.doc[id].kind.Work?
  {
    if c.doc[id].kind.forEach then
      var found := c.world.items(id, scope);
      seq(|found|, k requires 0 <= k < |found| => Some(found[k]))
    else [None]
  }

  lemma ScopeAtEnd(c: Config, st: Walk, id: StepId)
    requires WellFormed(c) && id in c.doc && st.cells.Keys == c.doc.Keys
    requires forall x <- c.doc :: st.cells[x] == Settled(Meaning(c, x).disp, Meaning(c, x).own, Meaning(c, x).visits)
    ensures AncestorScope(c, st, id) == Known(c, id)
  {
    hide Rest, Meaning;
    forall a <- Ancestors(c, id) ensures Own(st.cells[a]) == Meaning(c, a).own { }
  }

  lemma MeaningIsRest(c: Config, id: StepId)
    requires WellFormed(c) && id in c.doc && c.doc[id].kind.Work? && Meaning(c, id).disp != Skipped
    ensures Meaning(c, id) == Rest(c, id, Known(c, id), None, Listed(c, id, Known(c, id)), 0, 0, true)
    ensures Listed(c, id, Known(c, id)) != []
  {
    hide Rest, Known;
    assert ItemsOf(c, id, Known(c, id)) == Listed(c, id, Known(c, id));
  }

  /** What a finished walk did, slot by slot.  A step that was not skipped visited, from its first item and pass, one
      slot after the other to the end of its items: each with the input its template gives over the ancestors'
      outputs and its own so far, each answered as its executor's tries come to, with a next pass only after
      a success that the loop's condition does not end and while passes are left.  Its output is the last one of its
      visits, and it completed exactly when every visit succeeded. */
  lemma TraceIs(c: Config, j: Journal, events: seq<Event>, st: Walk, id: StepId) returns (at: seq<Place>)
    requires WellFormed(c) && JournalOk(c, j) && Replayable(c, j) && GatesClear(c, j)
    requires Runs(c, Start(c, j), events, st) && Done(c, st) && Calm(st)
    requires id in c.doc && c.doc[id].kind.Work? && c.doc[id].kind.loop != Some(0)
    requires id in st.cells && st.cells[id].Settled? && st.cells[id].disp != Skipped
    ensures st.cells.Keys == c.doc.Keys
    ensures var scope := AncestorScope(c, st, id);
      Path(c, id, scope, None, Listed(c, id, scope), Place(0, 0), st.cells[id].trace, at)
    ensures st.cells[id].own == Left(None, st.cells[id].trace)
    ensures st.cells[id].disp == if forall v <- st.cells[id].trace :: v.ok then Completed else Failed
  {
    hide Meaning, Known, JournalOk, Replayable, GatesClear, Runs, Calm, Done, Rest, Path, Left, Listed;
    WalkMeaning(c, j, events, st);
    ScopeAtEnd(c, st, id);
    MeaningIsRest(c, id);
    at := RestPath(c, id, Known(c, id), None, Listed(c, id, Known(c, id)), 0, 0, true);
  }

  /** With a loop of no passes a step that is not skipped visits nothing and fails. */
  lemma NoPassesFails(c: Config, j: Journal, events: seq<Event>, st: Walk, id: StepId)
    requires WellFormed(c) && JournalOk(c, j) && Replayable(c, j) && GatesClear(c, j)
    requires Runs(c, Start(c, j), events, st) && Done(c, st) && Calm(st)
    requires id in c.doc && c.doc[id].kind.Work? && c.doc[id].kind.loop == Some(0)
    requires id in st.cells && st.cells[id].Settled? && st.cells[id].disp != Skipped
    ensures st.cells[id] == Settled(Failed, None, [])
  {
    hide Meaning, Known, JournalOk, Replayable, GatesClear, Runs, Calm, Done, Rest, Listed;
    WalkMeaning(c, j, events, st);
    MeaningIsRest(c, id);
    RestIdle(c, id, Known(c, id), None, Listed(c, id, Known(c, id)), 0, true);
  }
}
