/** Conservation in every run of the joiner. */
module JoinerProofs {
  import opened Base
  import opened Joiner

  // ---- the store and the counters -------------------------------------------------------------------

  // Every insert attempt is one row added or one late twin dropped; rows never change.
  ghost predicate Books(st: State, store0: map<string, Row>) {
    && st.stats.merged + st.stats.jsonlOnly + st.stats.otelOnly + |store0| == |st.store|
    && st.stats.merged + st.stats.jsonlOnly + st.stats.otelOnly + st.stats.lateTwinsDropped == st.attempts
    && (forall key <- store0 :: key in st.store && st.store[key] == store0[key])
    && (forall key <- st.store | key !in store0 :: st.store[key].rawRef == key)
  }

  // The store only grows.
  ghost predicate Keeps(a: map<string, Row>, b: map<string, Row>) {
    forall key <- a :: key in b && b[key] == a[key]
  }

  lemma InsertBooks(st: State, row: Row, bucket: Bucket, store0: map<string, Row>)
    requires Books(st, store0)
    ensures Books(Insert(st, row, bucket), store0)
    ensures Keeps(st.store, Insert(st, row, bucket).store) && row.rawRef in Insert(st, row, bucket).store
    ensures Insert(st, row, bucket).pending == st.pending && Insert(st, row, bucket).attempts == st.attempts + 1
  {
    if row.rawRef !in st.store {
      assert st.store[row.rawRef := row].Keys == st.store.Keys + {row.rawRef};
    }
  }

  // A pending entry holds exactly one half, of its own request.
  ghost predicate OneHalf(s: Slot) {
    && (s.halves.jsonl.Some? <==> s.halves.otel.None?)
    && (s.halves.jsonl.Some? ==> s.halves.jsonl.value.requestId == s.id)
    && (s.halves.otel.Some? ==> s.halves.otel.value.requestId == s.id)
  }

  lemma FlushSingleBooks(st: State, s: Slot, store0: map<string, Row>)
    requires Books(st, store0) && OneHalf(s)
    ensures var st' := FlushSingle(st, s.halves);
      Books(st', store0) && Keeps(st.store, st'.store) && RawRef(s.id) in st'.store && st'.pending == st.pending
  {
    if s.halves.jsonl.Some? {
      InsertBooks(st, JsonlOnlyRow(s.halves.jsonl.value), OnlyJsonl, store0);
    } else {
      InsertBooks(st, OtelOnlyRow(s.halves.otel.value), OnlyOtel, store0);
    }
  }

  lemma {:induction false} FlushAllBooks(st: State, slots: Pending, store0: map<string, Row>)
    requires Books(st, store0) && forall s <- slots :: OneHalf(s)
    ensures var st' := FlushAll(st, slots);
      && Books(st', store0) && Keeps(st.store, st'.store) && st'.pending == st.pending
      && forall s <- slots :: RawRef(s.id) in st'.store
    decreases |slots|
  {
    hide Books, FlushSingle, OneHalf, RawRef;
    if slots != [] {
      var st1 := FlushSingle(st, slots[0].halves);
      FlushSingleBooks(st, slots[0], store0);
      FlushAllBooks(st1, slots[1..], store0);
      assert slots == [slots[0]] + slots[1..];
    }
  }

  // ---- the pending map ------------------------------------------------------------------------------

  // Keys once each, one half each, oldest first, nothing newer than the clock.
  ghost predicate Shelf(p: Pending, clock: int)
    decreases |p|
  {
    p == [] ||
    (&& OneHalf(p[0]) && p[0].halves.bufferedAtMs <= clock
     && Shelf(p[1..], clock)
     && forall s <- p[1..] :: s.id != p[0].id && p[0].halves.bufferedAtMs <= s.halves.bufferedAtMs)
  }

  lemma {:induction false} ShelfMember(p: Pending, clock: int, s: Slot)
    requires Shelf(p, clock) && s in p
    ensures OneHalf(s) && s.halves.bufferedAtMs <= clock && Find(p, s.id) == Some(s.halves)
    decreases |p|
  {
    if s != p[0] {
      assert s in p[1..];
      ShelfMember(p[1..], clock, s);
    }
  }

  lemma {:induction false} ShelfOrdered(p: Pending, clock: int, i: nat, j: nat)
    requires Shelf(p, clock) && i < j < |p|
    ensures p[i].id != p[j].id && p[i].halves.bufferedAtMs <= p[j].halves.bufferedAtMs
    decreases |p|
  {
    if i == 0 {
      assert p[j] in p[1..];
    } else {
      ShelfOrdered(p[1..], clock, i - 1, j - 1);
    }
  }

  lemma {:induction false} ShelfLater(p: Pending, clock: int, now: int)
    requires Shelf(p, clock) && clock <= now
    ensures Shelf(p, now)
    decreases |p|
  {
    if p != [] {
      ShelfLater(p[1..], clock, now);
    }
  }

  lemma {:induction false} WithoutShelf(p: Pending, id: RequestId, clock: int)
    requires Shelf(p, clock)
    ensures Shelf(Without(p, id), clock) && |Without(p, id)| <= |p|
    decreases |p|
  {
    if p != [] {
      WithoutShelf(p[1..], id, clock);
      ShelfCons(p[0], Without(p[1..], id), clock);
    }
  }

  lemma ShelfCons(s: Slot, p: Pending, clock: int)
    requires OneHalf(s) && s.halves.bufferedAtMs <= clock && Shelf(p, clock)
    requires forall x <- p :: x.id != s.id && s.halves.bufferedAtMs <= x.halves.bufferedAtMs
    ensures Shelf([s] + p, clock)
  {
    assert ([s] + p)[1..] == p;
  }

  lemma {:induction false} KeptShelf(p: Pending, cutoff: int, clock: int)
    requires Shelf(p, clock)
    ensures Shelf(Kept(p, cutoff), clock) && |Kept(p, cutoff)| <= |p|
    decreases |p|
  {
    if p != [] {
      KeptShelf(p[1..], cutoff, clock);
      var tail := Kept(p[1..], cutoff);
      assert [] + tail == tail;
      ShelfCons(p[0], tail, clock);
    }
  }

  // A new key goes to the end; an old one is replaced where it is.
  lemma {:induction false} PutShelf(p: Pending, id: RequestId, h: Halves, clock: int, now: int)
    requires Shelf(p, clock) && clock <= now && OneHalf(Slot(id, h))
    requires h.bufferedAtMs == if Find(p, id).Some? then Find(p, id).value.bufferedAtMs else now
    ensures Shelf(Put(p, id, h), now)
    ensures |Put(p, id, h)| == if Find(p, id).None? then |p| + 1 else |p|
    decreases |p|
  {
    ShelfLater(p, clock, now);
    if p == [] {
      ShelfCons(Slot(id, h), [], now);
    } else if p[0].id == id {
      ShelfCons(Slot(id, h), p[1..], now);
    } else {
      PutShelf(p[1..], id, h, clock, now);
      if Find(p, id).Some? {
        assert Slot(id, Find(p, id).value) in p[1..];
      }
      ShelfCons(p[0], Put(p[1..], id, h), now);
    }
  }

  // ---- one operation ----------------------------------------------------------------------------------

  ghost predicate Buffered(p: Pending, id: RequestId) { exists s <- p :: s.id == id }

  // Every accepted request is buffered or stored.
  ghost predicate Accounted(st: State, accepted: set<RequestId>) {
    forall id <- accepted :: Buffered(st.pending, id) || RawRef(id) in st.store
  }

  ghost predicate Inv(st: State, maxPending: nat, store0: map<string, Row>, accepted: set<RequestId>, clock: int) {
    && 1 <= maxPending
    && Books(st, store0) && Shelf(st.pending, clock) && |st.pending| <= maxPending && Accounted(st, accepted)
  }

  lemma EvictOldestKeeps(st: State, maxPending: nat, store0: map<string, Row>, accepted: set<RequestId>, clock: int)
    requires Inv(st, maxPending, store0, accepted, clock) && st.pending != []
    ensures Inv(EvictOldest(st), maxPending, store0, accepted, clock)
    ensures Keeps(st.store, EvictOldest(st).store) && EvictOldest(st).pending == st.pending[1..]
    ensures forall s <- st.pending :: st.pending[0].halves.bufferedAtMs <= s.halves.bufferedAtMs
  {
    var oldest := st.pending[0];
    FlushSingleBooks(st.(pending := st.pending[1..]), oldest, store0);
    var st' := EvictOldest(st);
    assert st.pending == [oldest] + st.pending[1..];
    forall id <- accepted ensures Buffered(st'.pending, id) || RawRef(id) in st'.store {
      assert Buffered(st.pending, id) || RawRef(id) in st.store;
    }
  }

  lemma {:induction false} EvictKeeps(st: State, maxPending: nat, store0: map<string, Row>, accepted: set<RequestId>, clock: int)
    requires Inv(st, maxPending, store0, accepted, clock)
    ensures var st' := EvictIfFull(st, maxPending);
      && Inv(st', maxPending, store0, accepted, clock) && |st'.pending| < maxPending && Keeps(st.store, st'.store)
      && forall s <- st'.pending :: s in st.pending
    decreases |st.pending|
  {
    hide Books, Shelf, Accounted, EvictOldest;
    if |st.pending| >= maxPending {
      EvictOldestKeeps(st, maxPending, store0, accepted, clock);
      EvictKeeps(EvictOldest(st), maxPending, store0, accepted, clock);
    }
  }

  lemma BufferKeeps(st: State, maxPending: nat, store0: map<string, Row>, accepted: set<RequestId>, clock: int,
                    id: RequestId, h: Halves, now: int)
    requires Inv(st, maxPending, store0, accepted, clock) && clock <= now && OneHalf(Slot(id, h))
    requires h.bufferedAtMs == if Find(st.pending, id).Some? then Find(st.pending, id).value.bufferedAtMs else now
    requires Find(st.pending, id).None? ==> |st.pending| < maxPending
    ensures Inv(st.(pending := Put(st.pending, id, h)), maxPending, store0, accepted + {id}, now)
  {
    hide Books, OneHalf, Put, Shelf;
    PutShelf(st.pending, id, h, clock, now);
    var st' := st.(pending := Put(st.pending, id, h));
    BooksFrame(st, st'.pending, store0);
    forall x <- accepted + {id} ensures Buffered(st'.pending, x) || RawRef(x) in st'.store {
      if x != id {
        assert Buffered(st.pending, x) || RawRef(x) in st.store;
      } else {
        assert Slot(id, h) in st'.pending;
      }
    }
  }

  lemma MergeKeeps(st: State, maxPending: nat, store0: map<string, Row>, accepted: set<RequestId>, clock: int,
                   j: Jsonl, o: Otel, now: int)
    requires Inv(st, maxPending, store0, accepted, clock) && clock <= now && j.requestId == o.requestId
    ensures var st' := InsertMerged(st.(pending := Without(st.pending, j.requestId)), j, o);
      Inv(st', maxPending, store0, accepted + {j.requestId}, now) && Keeps(st.store, st'.store)
  {
    hide OneHalf, Shelf, Without;
    var id := j.requestId;
    ShelfLater(st.pending, clock, now);
    var stats := if o.account != j.account then st.stats.(labelMismatches := st.stats.labelMismatches + 1) else st.stats;
    var st1 := st.(pending := Without(st.pending, id), stats := stats);
    WithoutShelf(st.pending, id, now);
    InsertBooks(st1, MergedRow(j, o), Merged, store0);
    var st' := InsertMerged(st.(pending := Without(st.pending, id)), j, o);
    assert st' == Insert(st1, MergedRow(j, o), Merged);
    forall x <- accepted + {id} ensures Buffered(st'.pending, x) || RawRef(x) in st'.store {
      if x != id {
        assert Buffered(st.pending, x) || RawRef(x) in st.store;
      }
    }
  }

  // An entry that does not match leaves room for the offered half.
  lemma OfferJsonlKeeps(st: State, maxPending: nat, store0: map<string, Row>, accepted: set<RequestId>, clock: int,
                        half: Jsonl, now: int)
    requires Inv(st, maxPending, store0, accepted, clock) && clock <= now
    ensures var st' := OfferJsonl(st, maxPending, half, now);
      Inv(st', maxPending, store0, if Accepts(half.account, half.requestId) then accepted + {half.requestId} else accepted, now)
      && Keeps(st.store, st'.store)
  {
    hide Books, EvictIfFull, Put, Shelf, Accounted, InsertMerged;
    ShelfLater(st.pending, clock, now);
    if Accepts(half.account, half.requestId) {
      var id := half.requestId;
      var entry := Find(st.pending, id);
      if entry.Some? {
        ShelfMember(st.pending, clock, Slot(id, entry.value));
        if entry.value.otel.Some? {
          MergeKeeps(st, maxPending, store0, accepted, clock, half, entry.value.otel.value, now);
        } else {
          BufferKeeps(st, maxPending, store0, accepted, clock, id, entry.value.(jsonl := Some(half)), now);
        }
      } else {
        RoomFor(st, maxPending, store0, accepted, clock, id);
        BufferKeeps(EvictIfFull(st, maxPending), maxPending, store0, accepted, clock, id, Halves(Some(half), None, now), now);
      }
    }
  }

  lemma OfferOtelKeeps(st: State, maxPending: nat, store0: map<string, Row>, accepted: set<RequestId>, clock: int,
                       half: Otel, now: int)
    requires Inv(st, maxPending, store0, accepted, clock) && clock <= now
    ensures var st' := OfferOtel(st, maxPending, half, now);
      Inv(st', maxPending, store0, if Accepts(half.account, half.requestId) then accepted + {half.requestId} else accepted, now)
      && Keeps(st.store, st'.store)
  {
    hide Books, EvictIfFull, Put, Shelf, Accounted, InsertMerged;
    ShelfLater(st.pending, clock, now);
    if Accepts(half.account, half.requestId) {
      var id := half.requestId;
      var entry := Find(st.pending, id);
      if entry.Some? {
        ShelfMember(st.pending, clock, Slot(id, entry.value));
        if entry.value.jsonl.Some? {
          MergeKeeps(st, maxPending, store0, accepted, clock, entry.value.jsonl.value, half, now);
        } else {
          BufferKeeps(st, maxPending, store0, accepted, clock, id, entry.value.(otel := Some(half)), now);
        }
      } else {
        RoomFor(st, maxPending, store0, accepted, clock, id);
        BufferKeeps(EvictIfFull(st, maxPending), maxPending, store0, accepted, clock, id, Halves(None, Some(half), now), now);
      }
    }
  }

  lemma RoomFor(st: State, maxPending: nat, store0: map<string, Row>, accepted: set<RequestId>, clock: int, id: RequestId)
    requires Inv(st, maxPending, store0, accepted, clock) && Find(st.pending, id).None?
    ensures var st' := EvictIfFull(st, maxPending);
      && Inv(st', maxPending, store0, accepted, clock) && |st'.pending| < maxPending
      && Find(st'.pending, id).None? && Keeps(st.store, st'.store)
  {
    hide Inv;
    EvictKeeps(st, maxPending, store0, accepted, clock);
  }

  lemma FlushKeeps(st: State, maxPending: nat, store0: map<string, Row>, accepted: set<RequestId>, clock: int, cutoff: int, now: int)
    requires Inv(st, maxPending, store0, accepted, clock) && clock <= now
    ensures var st' := Flush(st, cutoff);
      && Inv(st', maxPending, store0, accepted, now) && Keeps(st.store, st'.store)
      && st'.pending == Kept(st.pending, cutoff)
  {
    hide Books, Shelf, Kept, Expired, FlushAll;
    var kept := Kept(st.pending, cutoff);
    var gone := Expired(st.pending, cutoff);
    ShelfLater(st.pending, clock, now);
    KeptShelf(st.pending, cutoff, now);
    forall s <- gone ensures OneHalf(s) {
      ShelfMember(st.pending, clock, s);
    }
    BooksFrame(st, kept, store0);
    FlushAllBooks(st.(pending := kept), gone, store0);
    var st' := Flush(st, cutoff);
    forall x <- accepted ensures Buffered(st'.pending, x) || RawRef(x) in st'.store {
      if x in accepted && Buffered(st.pending, x) {
        var s :| s in st.pending && s.id == x;
        assert s in kept || s in gone;
      }
    }
  }

  lemma BooksFrame(st: State, p: Pending, store0: map<string, Row>)
    requires Books(st, store0)
    ensures Books(st.(pending := p), store0)
  {
  }

  // ---- runs ---------------------------------------------------------------------------------------------

  datatype Event =
    | GiveJsonl(jsonl: Jsonl, at: int)
    | GiveOtel(otel: Otel, at: int)
    | FlushAt(maxAgeMs: int, at: int)

  function Apply(st: State, maxPending: nat, e: Event): State
    requires 1 <= maxPending
  {
    match e
    case GiveJsonl(half, at) => OfferJsonl(st, maxPending, half, at)
    case GiveOtel(half, at) => OfferOtel(st, maxPending, half, at)
    case FlushAt(maxAgeMs, at) => Flush(st, at - maxAgeMs)
  }

  function Run(st: State, maxPending: nat, events: seq<Event>): State
    requires 1 <= maxPending
    decreases |events|
  {
    if events == [] then st else Run(Apply(st, maxPending, events[0]), maxPending, events[1..])
  }

  // The clock never goes back.
  ghost predicate Timely(events: seq<Event>, clock: int) {
    (forall i | 0 <= i < |events| :: clock <= events[i].at) && forall i, j | 0 <= i < j < |events| :: events[i].at <= events[j].at
  }

  ghost predicate AcceptedBy(events: seq<Event>, id: RequestId) {
    exists e <- events ::
      || (e.GiveJsonl? && e.jsonl.requestId == id && Accepts(e.jsonl.account, id))
      || (e.GiveOtel? && e.otel.requestId == id && Accepts(e.otel.account, id))
  }

  lemma ApplyKeeps(st: State, maxPending: nat, store0: map<string, Row>, accepted: set<RequestId>, clock: int, e: Event)
      returns (accepted': set<RequestId>)
    requires Inv(st, maxPending, store0, accepted, clock) && clock <= e.at
    ensures Inv(Apply(st, maxPending, e), maxPending, store0, accepted', e.at) && Keeps(st.store, Apply(st, maxPending, e).store)
    ensures accepted <= accepted' && forall id | AcceptedBy([e], id) :: id in accepted'
  {
    hide Inv, Keeps, OfferJsonl, OfferOtel, Flush;
    match e
    case GiveJsonl(half, at) =>
      OfferJsonlKeeps(st, maxPending, store0, accepted, clock, half, at);
      accepted' := if Accepts(half.account, half.requestId) then accepted + {half.requestId} else accepted;
    case GiveOtel(half, at) =>
      OfferOtelKeeps(st, maxPending, store0, accepted, clock, half, at);
      accepted' := if Accepts(half.account, half.requestId) then accepted + {half.requestId} else accepted;
    case FlushAt(maxAgeMs, at) =>
      FlushKeeps(st, maxPending, store0, accepted, clock, at - maxAgeMs, at);
      accepted' := accepted;
  }

  lemma {:induction false} RunKeeps(st: State, maxPending: nat, store0: map<string, Row>, accepted: set<RequestId>, clock: int,
                                    events: seq<Event>)
      returns (accepted': set<RequestId>, clock': int)
    requires Inv(st, maxPending, store0, accepted, clock) && Timely(events, clock)
    ensures Inv(Run(st, maxPending, events), maxPending, store0, accepted', clock')
    ensures Keeps(st.store, Run(st, maxPending, events).store)
    ensures accepted <= accepted' && forall id | AcceptedBy(events, id) :: id in accepted'
    decreases |events|
  {
    accepted', clock' := accepted, clock;
    if events != [] {
      hide Books, Shelf, Apply;
      var e := events[0];
      var mid := ApplyKeeps(st, maxPending, store0, accepted, clock, e);
      accepted', clock' := RunKeeps(Apply(st, maxPending, e), maxPending, store0, mid, e.at, events[1..]);
      forall id | AcceptedBy(events, id) ensures id in accepted' {
        assert events == [e] + events[1..];
        assert AcceptedBy([e], id) || AcceptedBy(events[1..], id);
      }
    }
  }

  const NO_STATS: Stats := Stats(0, 0, 0, 0, 0, 0)

  /** Conservation: over any run of offers, re-offers, flushes and evictions with a clock that
      never goes back, every accepted request is buffered with exactly one half or in the
      store; the buffer stays within its cap and oldest-first; rows are never rewritten; and
      the counters count exactly the rows added and the insert attempts that added none. */
  lemma Conservation(store0: map<string, Row>, maxPending: nat, clock: int, events: seq<Event>)
    requires 1 <= maxPending && Timely(events, clock)
    ensures var st := Run(State([], store0, NO_STATS, 0), maxPending, events);
      && (forall id | AcceptedBy(events, id) :: Buffered(st.pending, id) || RawRef(id) in st.store)
      && (forall s <- st.pending :: OneHalf(s))
      && (forall i, j | 0 <= i < j < |st.pending| ::
            st.pending[i].id != st.pending[j].id && st.pending[i].halves.bufferedAtMs <= st.pending[j].halves.bufferedAtMs)
      && |st.pending| <= maxPending
      && Keeps(store0, st.store)
      && st.stats.merged + st.stats.jsonlOnly + st.stats.otelOnly == |st.store| - |store0|
      && st.stats.lateTwinsDropped == st.attempts - (|st.store| - |store0|)
  {
    var st0 := State([], store0, NO_STATS, 0);
    var accepted, end := RunKeeps(st0, maxPending, store0, {}, clock, events);
    var st := Run(st0, maxPending, events);
    forall s <- st.pending ensures OneHalf(s) {
      ShelfMember(st.pending, end, s);
    }
    forall i, j | 0 <= i < j < |st.pending|
      ensures st.pending[i].id != st.pending[j].id && st.pending[i].halves.bufferedAtMs <= st.pending[j].halves.bufferedAtMs
    {
      ShelfOrdered(st.pending, end, i, j);
    }
  }
}
