/** What becomes of one removal, and of the file it takes, in every run and with any number of other
removals overlapping it. */
module BootstrapFate {
  import opened Base
  import opened Bootstrap
  import opened BootstrapExact

  // The removal's own steps in a run.
  ghost function Steps(events: seq<Event>, id: RemovalId): nat
    decreases |events|
  {
    if events == [] then 0 else (if events[0] == RemovalStep(id) then 1 else 0) + Steps(events[1..], id)
  }

  // k steps after the removal took file f off the path.
  ghost predicate Fate(s: State, id: RemovalId, token: Token, f: File, k: nat) {
    && id in s.removals && s.removals[id].token == token
    && var r := s.removals[id];
    if f.token == Some(token) then
      || (k == 0 && r == Removal(token, Isolated, Some(f)))
      || (k == 1 && r == Removal(token, Ours, Some(f)))
      || (k == 2 && r == Removal(token, DoneRemoved, None) && f.pub in s.removedBy && s.removedBy[f.pub] == token)
    else
      || (k == 0 && r == Removal(token, Isolated, Some(f)))
      || (k == 1 && r == Removal(token, Foreign, Some(f)))
      || (k == 2 && r == Removal(token, Linked, Some(f)))
      || (k == 3 && r == Removal(token, DoneForeign, None))
  }

  lemma StepFate(s: State, e: Event, flags: Flags, id: RemovalId, token: Token, f: File, k: nat)
    requires Tracked(s, flags) && Fate(s, id, token, f, k) && Enabled(s, e)
    ensures Fate(Next(s, e), id, token, f, if e == RemovalStep(id) then k + 1 else k)
  {
    if e.RemovalStep? && e.id != id {
      assert MarkerOk(s, s.removals[e.id]);
    }
  }

  lemma {:induction false} RunFate(s: State, events: seq<Event>, s': State, flags: Flags, id: RemovalId, token: Token, f: File, k: nat)
    requires Tracked(s, flags) && Fate(s, id, token, f, k) && Runs(s, events, s')
    ensures Fate(s', id, token, f, k + Steps(events, id))
    ensures Tracked(s', TrackAll(s, events, flags))
    decreases |events|
  {
    hide Tracked, Track, Next, Enabled, Fate;
    if events != [] {
      StepFate(s, events[0], flags, id, token, f, k);
      StepTracks(s, events[0], flags);
      RunFate(Next(s, events[0]), events[1..], s', Track(s, events[0], flags), id, token, f,
              if events[0] == RemovalStep(id) then k + 1 else k);
    }
  }

  // A file that its own boot took off the path, or removed, is not on the path.
  lemma TakenIsOff(s: State, flags: Flags, id: RemovalId, token: Token, f: File, k: nat)
    requires Tracked(s, flags) && Fate(s, id, token, f, k) && f.token == Some(token)
    ensures s.path.None? || s.path.value.pub != f.pub
  {
    if k < 2 {
      assert Holds(s.removals[id]);
    }
  }

  /** A removal that finds its own boot's file on the path: from that rename on the file is never on the
      path again, and two steps later it is unlinked and the removal answers `removed`. */
  lemma OwnFileIsRemoved(s0: State, before: seq<Event>, s: State, id: RemovalId, after: seq<Event>, s': State)
    requires Init(s0) && Runs(s0, before, s)
    requires id in s.removals && s.removals[id].phase.Renaming?
    requires s.path.Some? && s.path.value.token == Some(s.removals[id].token)
    requires Runs(Next(s, RemovalStep(id)), after, s')
    ensures s'.path.None? || s'.path.value.pub != s.path.value.pub
    ensures id in s'.removals && Steps(after, id) <= 2
    ensures InFlight(s'.removals[id]) <==> Steps(after, id) < 2
    ensures Steps(after, id) == 2 ==>
      && s'.removals[id].phase == DoneRemoved && s'.removals[id].marker.None?
      && s.path.value.pub in s'.removedBy && s'.removedBy[s.path.value.pub] == s.removals[id].token
  {
    hide Tracked, Runs;
    var (token, f) := (s.removals[id].token, s.path.value);
    var flags := Begun(s0, before, s);
    StepTracks(s, RemovalStep(id), flags);
    MarkerEmpty(s, flags, id);
    var taken := Next(s, RemovalStep(id));
    assert Fate(taken, id, token, f, 0);
    var flags' := Track(s, RemovalStep(id), flags);
    RunFate(taken, after, s', flags', id, token, f, 0);
    TakenIsOff(s', TrackAll(taken, after, flags'), id, token, f, Steps(after, id));
  }

  /** A removal that finds another boot's file, or one without a token, answers `foreign` three steps later. */
  lemma ForeignFileIsForeign(s0: State, before: seq<Event>, s: State, id: RemovalId, after: seq<Event>, s': State)
    requires Init(s0) && Runs(s0, before, s)
    requires id in s.removals && s.removals[id].phase.Renaming?
    requires s.path.Some? && s.path.value.token != Some(s.removals[id].token)
    requires Runs(Next(s, RemovalStep(id)), after, s')
    ensures id in s'.removals && Steps(after, id) <= 3
    ensures InFlight(s'.removals[id]) <==> Steps(after, id) < 3
    ensures Steps(after, id) == 3 ==> s'.removals[id].phase == DoneForeign && s'.removals[id].marker.None?
  {
    hide Tracked, Runs;
    var (token, f) := (s.removals[id].token, s.path.value);
    var flags := Begun(s0, before, s);
    StepTracks(s, RemovalStep(id), flags);
    MarkerEmpty(s, flags, id);
    var taken := Next(s, RemovalStep(id));
    assert Fate(taken, id, token, f, 0);
    RunFate(taken, after, s', Track(s, RemovalStep(id), flags), id, token, f, 0);
  }

  lemma Begun(s0: State, before: seq<Event>, s: State) returns (flags: Flags)
    requires Init(s0) && Runs(s0, before, s)
    ensures Tracked(s, flags)
  {
    hide Runs, TrackAll;
    assert Tracked(s0, Flags(false, false));
    RunTracks(s0, before, s, Flags(false, false));
    flags := TrackAll(s0, before, Flags(false, false));
  }

  lemma MarkerEmpty(s: State, flags: Flags, id: RemovalId)
    requires Tracked(s, flags) && id in s.removals && s.removals[id].phase.Renaming?
    ensures s.removals[id].marker.None?
  {
    assert MarkerOk(s, s.removals[id]);
  }

  // A removal that has answered keeps its answer.
  lemma {:induction false} AnswerStays(s: State, id: RemovalId, events: seq<Event>, s': State)
    requires id in s.removals && !InFlight(s.removals[id]) && Runs(s, events, s')
    ensures id in s'.removals && s'.removals[id] == s.removals[id] && Steps(events, id) == 0
    decreases |events|
  {
    if events != [] {
      AnswerStays(Next(s, events[0]), id, events[1..], s');
    }
  }

  /** A removal that finds the path empty answers `absent` at once, and changes nothing else. */
  lemma EmptyPathIsAbsent(s: State, id: RemovalId, after: seq<Event>, s': State)
    requires id in s.removals && s.removals[id].phase.Renaming? && s.path.None?
    requires Runs(Next(s, RemovalStep(id)), after, s')
    ensures Next(s, RemovalStep(id)) == s.(removals := s.removals[id := s.removals[id].(phase := DoneAbsent)])
    ensures id in s'.removals && s'.removals[id].phase == DoneAbsent && Steps(after, id) == 0
  {
    hide Runs;
    AnswerStays(Next(s, RemovalStep(id)), id, after, s');
  }

  // ---- who unlinked what ---------------------------------------------------------------------------------

  // A removal of this token has answered `removed`.
  ghost predicate Removed(s: State, token: Token) {
    exists id <- s.removals :: s.removals[id].phase == DoneRemoved && s.removals[id].token == token
  }

  ghost predicate Accounted(s: State) {
    && (forall id <- s.removals | s.removals[id].phase.Ours? ::
          s.removals[id].marker.Some? && s.removals[id].marker.value.token == Some(s.removals[id].token))
    && (forall p <- s.removedBy :: p < |s.published| && s.published[p] == Some(s.removedBy[p]) && Removed(s, s.removedBy[p]))
    && (forall id <- s.removals | s.removals[id].phase == DoneRemoved :: s.removals[id].token in s.removedBy.Values)
  }

  // Only the last step of a removal that holds its own boot's file unlinks anything.
  lemma StepUnlinks(s: State, e: Event, flags: Flags)
    requires Tracked(s, flags) && Accounted(s) && Enabled(s, e)
    ensures var (s', unlinks) := (Next(s, e), e.RemovalStep? && s.removals[e.id].phase.Ours?);
      && s.published <= s'.published
      && (!unlinks ==> s'.removedBy == s.removedBy)
      && (unlinks ==>
          && s.removals[e.id].marker.Some?
          && var (p, token) := (s.removals[e.id].marker.value.pub, s.removals[e.id].token);
             p < |s.published| && s.published[p] == Some(token) && p !in s.removedBy && s'.removedBy == s.removedBy[p := token])
  {
    if e.RemovalStep? {
      assert MarkerOk(s, s.removals[e.id]);
    }
  }

  lemma StepAnswers(s: State, e: Event)
    requires Enabled(s, e)
    ensures forall id <- s.removals | s.removals[id].phase == DoneRemoved :: id in Next(s, e).removals && Next(s, e).removals[id] == s.removals[id]
    ensures forall id <- Next(s, e).removals | Next(s, e).removals[id].phase == DoneRemoved ::
      id in s.removals && Next(s, e).removals[id].token == s.removals[id].token
      && (s.removals[id].phase == DoneRemoved || (s.removals[id].phase.Ours? && e == RemovalStep(id)))
    ensures e.RemovalStep? && s.removals[e.id].phase.Ours? ==>
      e.id in Next(s, e).removals && Next(s, e).removals[e.id].phase == DoneRemoved && Next(s, e).removals[e.id].token == s.removals[e.id].token
  {
  }

  lemma OursCarriesToken(s: State, e: Event)
    requires Accounted(s) && Enabled(s, e)
    ensures forall id <- Next(s, e).removals | Next(s, e).removals[id].phase.Ours? ::
      && Next(s, e).removals[id].marker.Some?
      && Next(s, e).removals[id].marker.value.token == Some(Next(s, e).removals[id].token)
  {
  }

  lemma RemovedStays(s: State, e: Event, token: Token)
    requires Enabled(s, e) && Removed(s, token)
    ensures Removed(Next(s, e), token)
  {
    StepAnswers(s, e);
    hide Next, Enabled;
    var id :| id in s.removals && s.removals[id].phase == DoneRemoved && s.removals[id].token == token;
    assert Next(s, e).removals[id] == s.removals[id];
  }

  lemma StepUnlinked(s: State, e: Event, flags: Flags, p: nat)
    requires Tracked(s, flags) && Accounted(s) && Enabled(s, e) && p in Next(s, e).removedBy
    ensures var s' := Next(s, e); p < |s'.published| && s'.published[p] == Some(s'.removedBy[p]) && Removed(s', s'.removedBy[p])
  {
    StepUnlinks(s, e, flags);
    if p in s.removedBy {
      RemovedStays(s, e, s.removedBy[p]);
    } else {
      StepAnswers(s, e);
      hide Next, Tracked, Enabled;
      assert Next(s, e).removals[e.id].phase == DoneRemoved;
    }
  }

  lemma StepAnswered(s: State, e: Event, flags: Flags, id: RemovalId)
    requires Tracked(s, flags) && Accounted(s) && Enabled(s, e)
    requires id in Next(s, e).removals && Next(s, e).removals[id].phase == DoneRemoved
    ensures Next(s, e).removals[id].token in Next(s, e).removedBy.Values
  {
    StepUnlinks(s, e, flags);
    StepAnswers(s, e);
    hide Next, Tracked, Enabled;
    var s' := Next(s, e);
    if s.removals[id].phase == DoneRemoved {
      var p :| p in s.removedBy && s.removedBy[p] == s.removals[id].token;
      assert p in s'.removedBy && s'.removedBy[p] == s.removedBy[p];
    } else {
      assert s.removals[id].marker.value.pub in s'.removedBy;
    }
  }

  lemma StepAccounts(s: State, e: Event, flags: Flags)
    requires Tracked(s, flags) && Accounted(s) && Enabled(s, e)
    ensures Accounted(Next(s, e))
  {
    hide Tracked, Next, Enabled, Removed;
    OursCarriesToken(s, e);
    var s' := Next(s, e);
    forall p <- s'.removedBy
      ensures p < |s'.published| && s'.published[p] == Some(s'.removedBy[p]) && Removed(s', s'.removedBy[p])
    {
      StepUnlinked(s, e, flags, p);
    }
    forall id <- s'.removals | s'.removals[id].phase == DoneRemoved ensures s'.removals[id].token in s'.removedBy.Values {
      StepAnswered(s, e, flags, id);
    }
  }

  lemma {:induction false} RunAccounts(s: State, events: seq<Event>, s': State, flags: Flags)
    requires Tracked(s, flags) && Accounted(s) && Runs(s, events, s')
    ensures Accounted(s')
    decreases |events|
  {
    hide Tracked, Track, Next, Enabled, Accounted;
    if events != [] {
      StepAccounts(s, events[0], flags);
      StepTracks(s, events[0], flags);
      RunAccounts(Next(s, events[0]), events[1..], s', Track(s, events[0], flags));
    }
  }

  /** With any number of removals overlapping: a publication is unlinked only by a removal of the boot that
      published it, one that answered `removed`; every removal that answered `removed` unlinked one;
      and what was unlinked is not on the path. */
  lemma OnlyOwnFilesRemoved(s: State, events: seq<Event>, s': State)
    requires Init(s) && Runs(s, events, s')
    ensures forall p <- s'.removedBy :: p < |s'.published| && s'.published[p] == Some(s'.removedBy[p]) && Removed(s', s'.removedBy[p])
    ensures forall token :: Removed(s', token) <==> token in s'.removedBy.Values
    ensures s'.path.Some? ==> s'.path.value.pub !in s'.removedBy
  {
    assert Tracked(s, Flags(false, false));
    RunAccounts(s, events, s', Flags(false, false));
    RunTracks(s, events, s', Flags(false, false));
  }

  // ---- what a publication puts on the path ------------------------------------------------------------------

  lemma {:induction false} TempStays(s: State, pid: Pid, events: seq<Event>, s': State)
    requires pid in s.temps && Runs(s, events, s')
    requires forall e <- events :: (e.WriteTemp? || e.PublishRename?) ==> e.pid != pid
    ensures pid in s'.temps && s'.temps[pid] == s.temps[pid] && |s.published| <= |s'.published|
    decreases |events|
  {
    if events != [] {
      assert events[0] in events;
      TempStays(Next(s, events[0]), pid, events[1..], s');
    }
  }

  /** Whatever happens between a boot's write and its rename, the rename replaces the file on the path by one
      that carries the token the boot wrote, under a number no publication had before. */
  lemma PublishesWhatWasWritten(s: State, pid: Pid, token: Token, between: seq<Event>, s': State)
    requires Runs(Next(s, WriteTemp(pid, token)), between, s')
    requires forall e <- between :: (e.WriteTemp? || e.PublishRename?) ==> e.pid != pid
    ensures Enabled(s', PublishRename(pid))
    ensures var done := Next(s', PublishRename(pid));
      && done.path == Some(File(|s'.published|, Some(token))) && done.published == s'.published + [Some(token)]
      && done.removals == s'.removals && done.removedBy == s'.removedBy && pid !in done.temps
  {
    hide Runs;
    TempStays(Next(s, WriteTemp(pid, token)), pid, between, s');
  }
}
