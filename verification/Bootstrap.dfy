/** The bootstrap-file publish/remove protocol (core/src/gateway/bootstrap.ts).

Each file-system call is one atomic step; boots publish and one removal runs in any
interleaving.  A published file carries the number of its publication, so that a file
can be told from an older one with the same token.
*/
module Bootstrap {
  import opened Base

  type Token = string
  type Pid = nat
  type RemovalId = nat

  datatype File = File(pub: nat, token: Option<Token>)  // no token: a torn or foreign body

  datatype Phase =
    | Renaming   // about to rename(path -> marker)
    | Isolated   // about to read the marker
    | Ours       // about to rm(marker)
    | Foreign    // about to link(marker -> path)
    | Linked     // about to rm(marker)
    | DoneAbsent | DoneRemoved | DoneForeign

  datatype Removal = Removal(token: Token, phase: Phase, marker: Option<File>)

  datatype State = State(
    path: Option<File>,
    temps: map<Pid, Token>,
    removals: map<RemovalId, Removal>,
    published: seq<Option<Token>>,        // the token of every publication so far
    removedBy: map<nat, Token>)           // publications unlinked, and by whose removal

  datatype Event =
    | WriteTemp(pid: Pid, token: Token)
    | PublishRename(pid: Pid)
    | BeginRemoval(id: RemovalId, token: Token)
    | RemovalStep(id: RemovalId)

  predicate InFlight(r: Removal) {
    !r.phase.DoneAbsent? && !r.phase.DoneRemoved? && !r.phase.DoneForeign?
  }

  predicate Enabled(s: State, e: Event) {
    match e
    case WriteTemp(_, _) => true
    case PublishRename(pid) => pid in s.temps
    case BeginRemoval(id, _) => id !in s.removals
    case RemovalStep(id) => id in s.removals && InFlight(s.removals[id])
  }

  function Next(s: State, e: Event): State
    requires Enabled(s, e)
  {
    match e
    case WriteTemp(pid, token) => s.(temps := s.temps[pid := token])
    case PublishRename(pid) =>
      s.(path := Some(File(|s.published|, Some(s.temps[pid]))),
         published := s.published + [Some(s.temps[pid])],
         temps := s.temps - {pid})
    case BeginRemoval(id, token) => s.(removals := s.removals[id := Removal(token, Renaming, None)])
    case RemovalStep(id) => Step(s, id)
  }

  function Step(s: State, id: RemovalId): State
    requires id in s.removals && InFlight(s.removals[id])
  {
    var r := s.removals[id];
    match r.phase
    case Renaming =>
      if s.path.None? then Set(s, id, r.(phase := DoneAbsent))
      else Set(s.(path := None), id, r.(phase := Isolated, marker := s.path))
    case Isolated =>
      var ours := r.marker.Some? && r.marker.value.token == Some(r.token);
      Set(s, id, r.(phase := if ours then Ours else Foreign))
    case Ours =>
      var gone := if r.marker.Some? then s.removedBy[r.marker.value.pub := r.token] else s.removedBy;
      Set(s.(removedBy := gone), id, r.(phase := DoneRemoved, marker := None))
    case Foreign =>
      // link is exclusive: an occupied path keeps its file
      Set(if s.path.None? then s.(path := r.marker) else s, id, r.(phase := Linked))
    case Linked => Set(s, id, r.(phase := DoneForeign, marker := None))
  }

  function Set(s: State, id: RemovalId, r: Removal): State {
    s.(removals := s.removals[id := r])
  }

  // ---- runs -----------------------------------------------------------------------------------

  // At most one removal is in flight at a time.
  ghost predicate Alone(s: State) {
    forall a, b | a in s.removals && b in s.removals && InFlight(s.removals[a]) && InFlight(s.removals[b]) :: a == b
  }

  ghost predicate Runs(s: State, events: seq<Event>, s': State)
    decreases |events|
  {
    if events == [] then s == s'
    else Enabled(s, events[0]) && Runs(Next(s, events[0]), events[1..], s')
  }

  // The same, with removals one at a time throughout.
  ghost predicate RunsAlone(s: State, events: seq<Event>, s': State)
    decreases |events|
  {
    Alone(s) &&
    if events == [] then s == s'
    else Enabled(s, events[0]) && RunsAlone(Next(s, events[0]), events[1..], s')
  }

  // What the canonical path should hold: the last publication, unless its own boot removed it.
  ghost function Expected(s: State): Option<File> {
    if s.published == [] || |s.published| - 1 in s.removedBy then None
    else Some(File(|s.published| - 1, s.published[|s.published| - 1]))
  }

  ghost predicate Init(s: State) {
    s.removals == map[] && s.removedBy == map[] && s.path == Expected(s)
  }

  // While a removal holds a file on its marker, the path is empty or has the newer file.
  ghost predicate Held(s: State, r: Removal) {
    && r.marker.Some?
    && r.marker.value.pub < |s.published|
    && r.marker.value.token == s.published[r.marker.value.pub]
    && if s.path.None? then Expected(s) == r.marker
       else s.path == Expected(s) && r.marker.value.pub < |s.published| - 1
  }

  ghost predicate PhaseOk(s: State, r: Removal) {
    match r.phase
    case Renaming => s.path == Expected(s) && r.marker.None?
    case Isolated => Held(s, r)
    case Ours => Held(s, r) && r.marker.value.token == Some(r.token)
    case Foreign => Held(s, r) && r.marker.value.token != Some(r.token)
    case Linked => s.path == Expected(s) && r.marker.Some?
    case _ => r.marker.None?
  }

  ghost predicate Inv(s: State) {
    && (forall id <- s.removals :: PhaseOk(s, s.removals[id]))
    && (s.path == Expected(s) || exists id <- s.removals :: InFlight(s.removals[id]))
    && (forall p <- s.removedBy :: p < |s.published| && s.published[p] == Some(s.removedBy[p]))
  }

  lemma StepKeepsInv(s: State, e: Event)
    requires Inv(s) && Alone(s) && Enabled(s, e) && Alone(Next(s, e))
    ensures Inv(Next(s, e))
  {
    var s' := Next(s, e);
    match e
    case WriteTemp(_, _) =>
    case PublishRename(pid) =>
      assert Expected(s') == s'.path;
    case BeginRemoval(id, token) =>
      assert InFlight(s'.removals[id]);
      forall x <- s.removals ensures !InFlight(s.removals[x]) {
        assert s'.removals[x] == s.removals[x];
      }
    case RemovalStep(id) =>
      RemovalKeepsInv(s, id);
  }

  lemma RemovalKeepsInv(s: State, id: RemovalId)
    requires Inv(s) && Alone(s) && id in s.removals && InFlight(s.removals[id])
    ensures Inv(Step(s, id))
  {
    hide Held, Expected;
    var s' := Step(s, id);
    assert PhaseOk(s, s.removals[id]) && id in s'.removals;
    StepPhaseOk(s, id);
    forall x <- s'.removals | x != id ensures PhaseOk(s', s'.removals[x]) {
      assert !InFlight(s.removals[x]);
    }
  }

  lemma StepPhaseOk(s: State, id: RemovalId)
    requires id in s.removals && InFlight(s.removals[id]) && PhaseOk(s, s.removals[id])
    requires forall p <- s.removedBy :: p < |s.published| && s.published[p] == Some(s.removedBy[p])
    ensures var s' := Step(s, id);
      && PhaseOk(s', s'.removals[id])
      && (s'.path == Expected(s') || InFlight(s'.removals[id]))
      && forall p <- s'.removedBy :: p < |s'.published| && s'.published[p] == Some(s'.removedBy[p])
  {
    var r := s.removals[id];
    match r.phase
    case Renaming =>
      if s.path.Some? {
        assert Expected(Step(s, id)) == s.path == Some(File(|s.published| - 1, s.published[|s.published| - 1]));
      }
    case Isolated =>
    case Ours =>
      var f := r.marker.value;
      assert Step(s, id).removedBy == s.removedBy[f.pub := r.token];
      if s.path.None? {
        assert f.pub == |s.published| - 1;
      }
    case Foreign =>
    case Linked =>
  }

  lemma {:induction false} RunKeepsInv(s: State, events: seq<Event>, s': State)
    requires Inv(s) && RunsAlone(s, events, s')
    ensures Inv(s') && Alone(s')
    decreases |events|
  {
    if events != [] {
      StepKeepsInv(s, events[0]);
      RunKeepsInv(Next(s, events[0]), events[1..], s');
    }
  }

  /** With removals one at a time and any interleaving of publications: whenever no removal
      is in flight, the canonical path holds the last publication unless its own boot
      removed it, every marker is gone, and whatever was unlinked was unlinked by the boot
      that published it.  Even mid-removal the last publication is never lost. */
  lemma RemovalIsSafe(s: State, events: seq<Event>, s': State)
    requires Init(s) && RunsAlone(s, events, s')
    ensures (forall id <- s'.removals :: !InFlight(s'.removals[id])) ==>
      s'.path == Expected(s') && forall id <- s'.removals :: s'.removals[id].marker.None?
    ensures forall p <- s'.removedBy :: p < |s'.published| && s'.published[p] == Some(s'.removedBy[p])
    ensures Expected(s').Some? ==>
      s'.path == Expected(s') || exists id <- s'.removals :: s'.removals[id].marker == Expected(s')
  {
    RunKeepsInv(s, events, s');
    forall id <- s'.removals ensures PhaseOk(s', s'.removals[id]) {
    }
  }

  // ---- the assumption is needed ------------------------------------------------------------------

  const EMPTY: State := State(None, map[], map[], [], map[])

  const C: File := File(0, Some("c"))
  const D: File := File(1, Some("d"))
  const A_HOLDS_C: Removal := Removal("a", Foreign, Some(C))
  const A_DONE: Removal := Removal("a", DoneForeign, None)
  const STEP_A: Event := RemovalStep(0)
  const STEP_B: Event := RemovalStep(1)

  const C_PUBLISHED: State := State(Some(C), map[], map[], [Some("c")], map[])
  const C_MOVED: State := State(None, map[], map[0 := A_HOLDS_C], [Some("c")], map[])
  const D_PUBLISHED: State := State(Some(D), map[], map[0 := A_HOLDS_C], [Some("c"), Some("d")], map[])
  const D_MOVED: State := State(None, map[], map[0 := A_HOLDS_C, 1 := Removal("b", Isolated, Some(D))], [Some("c"), Some("d")], map[])
  const C_RESTORED: State := State(Some(C), map[], map[0 := A_DONE, 1 := Removal("b", Isolated, Some(D))], [Some("c"), Some("d")], map[])
  const D_LOST: State := State(Some(C), map[], map[0 := A_DONE, 1 := Removal("b", DoneForeign, None)], [Some("c"), Some("d")], map[])

  lemma PublishC()
    ensures Runs(EMPTY, [WriteTemp(7, "c"), PublishRename(7)], C_PUBLISHED)
  {
    var s := Next(EMPTY, WriteTemp(7, "c"));
    assert Next(s, PublishRename(7)) == C_PUBLISHED;
    RunsTwo(EMPTY, WriteTemp(7, "c"), PublishRename(7));
  }

  lemma MoveC()
    ensures Runs(C_PUBLISHED, [BeginRemoval(0, "a"), STEP_A, STEP_A], C_MOVED)
  {
    var s := Next(Next(C_PUBLISHED, BeginRemoval(0, "a")), STEP_A);
    assert Next(s, STEP_A) == C_MOVED;
    RunsThree(C_PUBLISHED, BeginRemoval(0, "a"), STEP_A, STEP_A);
  }

  lemma PublishD()
    ensures Runs(C_MOVED, [WriteTemp(8, "d"), PublishRename(8)], D_PUBLISHED)
  {
    var s := Next(C_MOVED, WriteTemp(8, "d"));
    assert Next(s, PublishRename(8)) == D_PUBLISHED;
    RunsTwo(C_MOVED, WriteTemp(8, "d"), PublishRename(8));
  }

  lemma MoveD()
    ensures Runs(D_PUBLISHED, [BeginRemoval(1, "b"), STEP_B], D_MOVED)
  {
    var s := Next(D_PUBLISHED, BeginRemoval(1, "b"));
    assert Next(s, STEP_B) == D_MOVED;
    RunsTwo(D_PUBLISHED, BeginRemoval(1, "b"), STEP_B);
  }

  lemma RestoreC()
    ensures Runs(D_MOVED, [STEP_A, STEP_A], C_RESTORED)
  {
    var s := Next(D_MOVED, STEP_A);
    assert Next(s, STEP_A) == C_RESTORED;
    RunsTwo(D_MOVED, STEP_A, STEP_A);
  }

  lemma LoseD()
    ensures Runs(C_RESTORED, [STEP_B, STEP_B, STEP_B], D_LOST)
  {
    var s := Next(Next(C_RESTORED, STEP_B), STEP_B);
    assert Next(s, STEP_B) == D_LOST;
    RunsThree(C_RESTORED, STEP_B, STEP_B, STEP_B);
  }

  /** Two overlapping removals can bring an older file back over the latest one: C is on A's
      marker, D publishes and goes to B's marker, A restores C, and B then finds the path
      occupied and drops D. */
  lemma OverlappingRemovalsLoseLatest() returns (events: seq<Event>)
    ensures Init(EMPTY) && Runs(EMPTY, events, D_LOST)
    ensures forall id <- D_LOST.removals :: !InFlight(D_LOST.removals[id])
    ensures D_LOST.path == Some(C) && Expected(D_LOST) == Some(D)
  {
    hide Runs, Next;
    PublishC();
    MoveC();
    PublishD();
    MoveD();
    RestoreC();
    LoseD();
    events := [WriteTemp(7, "c"), PublishRename(7)];
    RunsAppend(EMPTY, events, C_PUBLISHED, [BeginRemoval(0, "a"), STEP_A, STEP_A], C_MOVED);
    events := events + [BeginRemoval(0, "a"), STEP_A, STEP_A];
    RunsAppend(EMPTY, events, C_MOVED, [WriteTemp(8, "d"), PublishRename(8)], D_PUBLISHED);
    events := events + [WriteTemp(8, "d"), PublishRename(8)];
    RunsAppend(EMPTY, events, D_PUBLISHED, [BeginRemoval(1, "b"), STEP_B], D_MOVED);
    events := events + [BeginRemoval(1, "b"), STEP_B];
    RunsAppend(EMPTY, events, D_MOVED, [STEP_A, STEP_A], C_RESTORED);
    events := events + [STEP_A, STEP_A];
    RunsAppend(EMPTY, events, C_RESTORED, [STEP_B, STEP_B, STEP_B], D_LOST);
    events := events + [STEP_B, STEP_B, STEP_B];
  }

  lemma {:induction false} RunsAppend(s: State, before: seq<Event>, mid: State, after: seq<Event>, s': State)
    requires Runs(s, before, mid) && Runs(mid, after, s')
    ensures Runs(s, before + after, s')
    decreases |before|
  {
    if before == [] {
      assert before + after == after;
    } else {
      assert (before + after)[1..] == before[1..] + after;
      RunsAppend(Next(s, before[0]), before[1..], mid, after, s');
    }
  }

  lemma RunsTwo(s: State, e: Event, f: Event)
    requires Enabled(s, e) && Enabled(Next(s, e), f)
    ensures Runs(s, [e, f], Next(Next(s, e), f))
  {
    var s' := Next(Next(s, e), f);
    assert Runs(s', [], s') && [f][1..] == [] && [e, f][1..] == [f];
    assert Runs(Next(s, e), [f], s');
  }

  lemma RunsThree(s: State, e: Event, f: Event, g: Event)
    requires Enabled(s, e) && Enabled(Next(s, e), f) && Enabled(Next(Next(s, e), f), g)
    ensures Runs(s, [e, f, g], Next(Next(Next(s, e), f), g))
  {
    RunsTwo(Next(s, e), f, g);
    assert [e, f, g][1..] == [f, g];
  }
}
