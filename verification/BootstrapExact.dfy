/** Overlapping removals: exactly when the canonical path ends up right.

Two branches of a removal can go wrong when another removal overlaps it.  A restore that finds the
path occupied drops its file, which is wrong if that file is the latest one.  A restore that finds
the path empty puts its file there, which is wrong if that file is not the latest one.
*/
module BootstrapExact {
  import opened Base
  import opened Bootstrap

  // `lost`: since the last publication a restore dropped the expected file because the path was occupied.
  // `stale`: the file on the path was put there by a restore although it was not the expected one.
  datatype Flags = Flags(lost: bool, stale: bool)

  ghost function Track(s: State, e: Event, f: Flags): Flags
    requires Enabled(s, e)
  {
    match e
    case PublishRename(_) => Flags(false, false)
    case RemovalStep(id) =>
      (match s.removals[id].phase
       case Renaming => f.(stale := false)  // whatever was on the path is taken away
       case Foreign =>
         if s.path.Some? then f.(lost := f.lost || s.removals[id].marker == Expected(s))
         else f.(stale := s.removals[id].marker != Expected(s))
       case _ => f)
    case _ => f
  }

  ghost function TrackAll(s: State, events: seq<Event>, f: Flags): Flags
    decreases |events|
  {
    if events == [] || !Enabled(s, events[0]) then f else TrackAll(Next(s, events[0]), events[1..], Track(s, events[0], f))
  }

  // ---- the invariant -----------------------------------------------------------------------------------

  // The removal's marker is the only name of its file.
  predicate Holds(r: Removal) { r.phase.Isolated? || r.phase.Ours? || r.phase.Foreign? }

  ghost predicate Genuine(s: State, f: File) {
    f.pub < |s.published| && f.token == s.published[f.pub] && f.pub !in s.removedBy
  }

  ghost predicate MarkerOk(s: State, r: Removal) {
    && (Holds(r) ==> r.marker.Some? && Genuine(s, r.marker.value))
    && (!InFlight(r) || r.phase.Renaming? ==> r.marker.None?)
  }

  // Each publication is under at most one name, apart from a marker whose file was just linked back.
  ghost predicate HeldOnce(s: State) {
    && (forall id <- s.removals :: MarkerOk(s, s.removals[id]))
    && (s.path.Some? ==> Genuine(s, s.path.value))
    && (forall id <- s.removals | Holds(s.removals[id]) && s.path.Some? :: s.removals[id].marker.value.pub != s.path.value.pub)
    && (forall a, b | a in s.removals && b in s.removals && a != b && Holds(s.removals[a]) && Holds(s.removals[b]) ::
          s.removals[a].marker.value.pub != s.removals[b].marker.value.pub)
  }

  // The expected file is on the path or on the marker of a removal in flight.
  ghost predicate Somewhere(s: State) {
    Expected(s).Some? ==> s.path == Expected(s) || exists id <- s.removals :: Holds(s.removals[id]) && s.removals[id].marker == Expected(s)
  }

  ghost predicate Tracked(s: State, f: Flags) {
    && HeldOnce(s) && (forall p <- s.removedBy :: p < |s.published|)
    && (f.stale <==> s.path.Some? && s.path != Expected(s))
    && (!f.lost ==> Somewhere(s))
    && (f.lost ==> Nowhere(s))
  }

  ghost predicate Nowhere(s: State) {
    && Expected(s).Some? && s.path != Expected(s)
    && forall id <- s.removals | Holds(s.removals[id]) :: s.removals[id].marker != Expected(s)
  }

  lemma StepTracks(s: State, e: Event, f: Flags)
    requires Tracked(s, f) && Enabled(s, e)
    ensures Tracked(Next(s, e), Track(s, e, f))
  {
    match e
    case WriteTemp(_, _) =>
    case PublishRename(pid) => PublishTracks(s, pid, f);
    case BeginRemoval(_, _) => BeginTracks(s, e, f);
    case RemovalStep(id) =>
      match s.removals[id].phase
      case Renaming => RenamingTracks(s, id, f);
      case Isolated => IsolatedTracks(s, id, f);
      case Ours => OursTracks(s, id, f);
      case Foreign => ForeignTracks(s, id, f);
      case Linked => LinkedTracks(s, id, f);
  }

  lemma PublishTracks(s: State, pid: Pid, f: Flags)
    requires Tracked(s, f) && pid in s.temps
    ensures Tracked(Next(s, PublishRename(pid)), Flags(false, false))
  {
    var s' := Next(s, PublishRename(pid));
    assert Expected(s') == s'.path;
    forall id <- s'.removals ensures MarkerOk(s', s'.removals[id]) {
      assert MarkerOk(s, s.removals[id]);
    }
  }

  lemma BeginTracks(s: State, e: Event, f: Flags)
    requires Tracked(s, f) && Enabled(s, e) && e.BeginRemoval?
    ensures Tracked(Next(s, e), f)
  {
    var s' := Next(s, e);
    assert Expected(s') == Expected(s);
    if !f.lost && Expected(s).Some? && s.path != Expected(s) {
      var x :| x in s.removals && Holds(s.removals[x]) && s.removals[x].marker == Expected(s);
      assert s'.removals[x] == s.removals[x];
    }
  }

  lemma RenamingTracks(s: State, id: RemovalId, f: Flags)
    requires Tracked(s, f) && id in s.removals && s.removals[id].phase.Renaming?
    ensures Tracked(Step(s, id), f.(stale := false))
  {
    hide HeldOnce;
    var s' := Step(s, id);
    assert Expected(s') == Expected(s);
    RenamingHeld(s, id);
    if !f.lost && Expected(s).Some? {
      if s.path == Expected(s) {
        assert Holds(s'.removals[id]) && s'.removals[id].marker == Expected(s');
      } else {
        var x :| x in s.removals && Holds(s.removals[x]) && s.removals[x].marker == Expected(s);
        assert s'.removals[x] == s.removals[x];
      }
    }
  }

  lemma RenamingHeld(s: State, id: RemovalId)
    requires HeldOnce(s) && id in s.removals && s.removals[id].phase.Renaming?
    ensures HeldOnce(Step(s, id))
  {
    hide Genuine;
    var s' := Step(s, id);
    assert MarkerOk(s, s.removals[id]);
    assert forall f: File :: Genuine(s', f) == Genuine(s, f) by { SameGenuine(s, s'); }
  }

  lemma SameGenuine(s: State, s': State)
    requires s'.published == s.published && s'.removedBy == s.removedBy
    ensures forall f: File :: Genuine(s', f) == Genuine(s, f)
  {
  }

  lemma ForeignHeld(s: State, id: RemovalId)
    requires HeldOnce(s) && id in s.removals && s.removals[id].phase.Foreign?
    ensures HeldOnce(Step(s, id))
  {
    hide Genuine;
    var s' := Step(s, id);
    assert MarkerOk(s, s.removals[id]);
    SameGenuine(s, s');
  }

  // The expected file is under one name only.
  lemma OneName(s: State, id: RemovalId)
    requires HeldOnce(s) && id in s.removals && Holds(s.removals[id]) && s.removals[id].marker == Expected(s)
    ensures s.path != Expected(s)
    ensures forall x <- s.removals | x != id && Holds(s.removals[x]) :: s.removals[x].marker != Expected(s)
  {
    assert MarkerOk(s, s.removals[id]);
    forall x <- s.removals | x != id && Holds(s.removals[x]) ensures s.removals[x].marker != Expected(s) {
      assert MarkerOk(s, s.removals[x]);
    }
  }

  lemma IsolatedTracks(s: State, id: RemovalId, f: Flags)
    requires Tracked(s, f) && id in s.removals && s.removals[id].phase.Isolated?
    ensures Tracked(Step(s, id), f)
  {
    var s' := Step(s, id);
    assert Expected(s') == Expected(s);
    assert MarkerOk(s, s.removals[id]);
    SomewhereStill(s, s', id, f);
  }

  // A removal whose file is not the expected one, or keeps it, leaves the expected file where it was.
  lemma SomewhereStill(s: State, s': State, id: RemovalId, f: Flags)
    requires Somewhere(s) || f.lost
    requires Expected(s') == Expected(s) && s'.path == s.path && id in s.removals && id in s'.removals
    requires s'.removals == s.removals[id := s'.removals[id]]
    requires Holds(s.removals[id]) && s.removals[id].marker == Expected(s) ==> Holds(s'.removals[id]) && s'.removals[id].marker == Expected(s)
    ensures Somewhere(s') || f.lost
  {
    if Somewhere(s) && Expected(s).Some? && s.path != Expected(s) {
      var x :| x in s.removals && Holds(s.removals[x]) && s.removals[x].marker == Expected(s);
      assert x in s'.removals && Holds(s'.removals[x]) && s'.removals[x].marker == Expected(s);
    }
  }

  lemma OursTracks(s: State, id: RemovalId, f: Flags)
    requires Tracked(s, f) && id in s.removals && s.removals[id].phase.Ours?
    ensures Tracked(Step(s, id), f)
  {
    var s' := Step(s, id);
    var gone := s.removals[id].marker.value;
    assert MarkerOk(s, s.removals[id]);
    forall x <- s'.removals ensures MarkerOk(s', s'.removals[x]) {
      assert MarkerOk(s, s.removals[x]);
    }
    assert gone.pub == |s.published| - 1 ==> Expected(s) == Some(gone);
    if Expected(s) == Some(gone) {
      assert Expected(s').None?;
    } else {
      assert Expected(s') == Expected(s);
      SomewhereStill(s, s', id, f);
    }
  }

  lemma ForeignTracks(s: State, id: RemovalId, f: Flags)
    requires Tracked(s, f) && id in s.removals && s.removals[id].phase.Foreign?
    ensures Tracked(Step(s, id), Track(s, RemovalStep(id), f))
  {
    hide HeldOnce;
    var s' := Step(s, id);
    assert Expected(s') == Expected(s);
    ForeignHeld(s, id);
    assert s.removals[id].marker.Some? by { MarkerHeld(s, id); }
    if s.removals[id].marker == Expected(s) {
      OneName(s, id);
    } else if s.path.Some? {
      SomewhereStill(s, s', id, f);
    } else if !f.lost && Expected(s).Some? {
      var x :| x in s.removals && Holds(s.removals[x]) && s.removals[x].marker == Expected(s);
      assert s'.removals[x] == s.removals[x];
    }
  }

  lemma MarkerHeld(s: State, id: RemovalId)
    requires HeldOnce(s) && id in s.removals && Holds(s.removals[id])
    ensures s.removals[id].marker.Some?
  {
    assert MarkerOk(s, s.removals[id]);
  }

  lemma LinkedTracks(s: State, id: RemovalId, f: Flags)
    requires Tracked(s, f) && id in s.removals && s.removals[id].phase.Linked?
    ensures Tracked(Step(s, id), f)
  {
    var s' := Step(s, id);
    assert Expected(s') == Expected(s);
    SomewhereStill(s, s', id, f);
  }

  lemma {:induction false} RunTracks(s: State, events: seq<Event>, s': State, f: Flags)
    requires Tracked(s, f) && Runs(s, events, s')
    ensures Tracked(s', TrackAll(s, events, f))
    decreases |events|
  {
    hide Tracked, Track, Next, Enabled;
    if events != [] {
      StepTracks(s, events[0], f);
      RunTracks(Next(s, events[0]), events[1..], s', Track(s, events[0], f));
    }
  }

  /** Exactly when the protocol is safe, with any number of removals overlapping.  At rest the markers are
      gone, and the path holds the last publication, or nothing where its own boot removed that, if and
      only if neither branch went wrong: no restore dropped the expected file since it was published,
      and what is on the path was not put there as a file already superseded or removed. */
  lemma SafeIff(s: State, events: seq<Event>, s': State)
    requires Init(s) && Runs(s, events, s') && forall id <- s'.removals :: !InFlight(s'.removals[id])
    ensures var f := TrackAll(s, events, Flags(false, false));
      && (s'.path == Expected(s') <==> !f.lost && !f.stale)
      && ((Expected(s').Some? ==> s'.path == Expected(s')) <==> !f.lost)
      && ((Expected(s').None? ==> s'.path.None?) <==> Expected(s').Some? || !f.stale)
      && forall id <- s'.removals :: s'.removals[id].marker.None?
  {
    assert Tracked(s, Flags(false, false));
    RunTracks(s, events, s', Flags(false, false));
    forall id <- s'.removals ensures s'.removals[id].marker.None? && !Holds(s'.removals[id]) {
      assert MarkerOk(s', s'.removals[id]);
    }
  }
}
