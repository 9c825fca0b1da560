/** The joiner's result does not depend on the order the halves arrive in. */
module JoinerOrder {
  import opened Base
  import opened Joiner
  import opened JoinerProofs

  ghost predicate IsOffer(e: Event) {
    match e
    case GiveJsonl(h, _) => Accepts(h.account, h.requestId)
    case GiveOtel(h, _) => Accepts(h.account, h.requestId)
    case FlushAt(_, _) => false
  }

  function IdOf(e: Event): RequestId {
    match e
    case GiveJsonl(h, _) => h.requestId
    case GiveOtel(h, _) => h.requestId
    case FlushAt(_, _) => ""
  }

  // The halves offered for a request, whatever the order.
  ghost function JsonlOf(events: seq<Event>, id: RequestId): (r: Option<Jsonl>)
    ensures r.Some? <==> exists e <- events :: e.GiveJsonl? && e.jsonl.requestId == id
    ensures r.Some? ==> exists e <- events :: e.GiveJsonl? && e.jsonl == r.value && r.value.requestId == id
    decreases |events|
  {
    if events == [] then None
    else
      var last := events[|events| - 1];
      assert events == events[..|events| - 1] + [last];
      if last.GiveJsonl? && last.jsonl.requestId == id then Some(last.jsonl) else JsonlOf(events[..|events| - 1], id)
  }

  ghost function OtelOf(events: seq<Event>, id: RequestId): (r: Option<Otel>)
    ensures r.Some? <==> exists e <- events :: e.GiveOtel? && e.otel.requestId == id
    ensures r.Some? ==> exists e <- events :: e.GiveOtel? && e.otel == r.value && r.value.requestId == id
    decreases |events|
  {
    if events == [] then None
    else
      var last := events[|events| - 1];
      assert events == events[..|events| - 1] + [last];
      if last.GiveOtel? && last.otel.requestId == id then Some(last.otel) else OtelOf(events[..|events| - 1], id)
  }

  // At most one offer per request and side.
  ghost predicate OncePerSide(events: seq<Event>) {
    forall i, j | 0 <= i < j < |events| && IdOf(events[i]) == IdOf(events[j]) :: events[i].GiveJsonl? != events[j].GiveJsonl?
  }

  ghost function Ids(events: seq<Event>): set<RequestId> { set e | e in events :: IdOf(e) }

  // The row a request must end with, from the fields of the halves that were offered: time, account,
  // tokens and source from the transcript where it came, attribution from the telemetry where it came.
  ghost function Target(events: seq<Event>, id: RequestId): Option<Row> {
    var j, o := JsonlOf(events, id), OtelOf(events, id);
    if j.None? && o.None? then None
    else Some(Row(
      if j.Some? then j.value.tsMs else o.value.tsMs,
      if j.Some? then j.value.account else o.value.account,
      if j.Some? then ClaudeJsonl else ClaudeOtel,
      "api_request:" + id,
      if j.Some? && j.value.nativeSessionId.Some? then j.value.nativeSessionId else if o.Some? then o.value.nativeSessionId else None,
      if j.Some? && j.value.model.Some? then j.value.model else if o.Some? then o.value.model else None,
      if j.Some? then j.value.usage else if o.value.usage.Some? then o.value.usage.value else Usage(None, None, None, None, None, None, None),
      if o.Some? then o.value.attribution else Attribution(None, None, None, None, None, None, None, None, None)))
  }

  // The requests of which exactly one half was offered: what the joiner has to buffer.
  ghost function Lone(events: seq<Event>): set<RequestId> { set id | id in Ids(events) && !Both(events, id) }

  ghost predicate Both(events: seq<Event>, id: RequestId) { JsonlOf(events, id).Some? && OtelOf(events, id).Some? }

  // Mid-run: lone halves are buffered, pairs are stored.
  ghost predicate Mid(st: State, store0: map<string, Row>, events: seq<Event>) {
    MidPending(st.pending, events) && MidStore(st.store, store0, events)
  }

  ghost predicate MidPending(p: Pending, events: seq<Event>) {
    && (forall s <- p :: s.id in Ids(events) && s.halves.jsonl == JsonlOf(events, s.id) && s.halves.otel == OtelOf(events, s.id))
    && (forall id <- Ids(events) :: Both(events, id) != Buffered(p, id))
  }

  ghost predicate MidStore(store: map<string, Row>, store0: map<string, Row>, events: seq<Event>) {
    && (forall key <- store0 :: key in store && store[key] == store0[key])
    && (forall key <- store | key !in store0 :: exists id <- Ids(events) :: key == RawRef(id) && Both(events, id))
    && (forall id <- Ids(events) | RawRef(id) !in store0 && Both(events, id) ::
          RawRef(id) in store && Target(events, id) == Some(store[RawRef(id)]))
  }

  // What one more offer adds.
  lemma OneMore(events: seq<Event>, e: Event, id: RequestId)
    ensures JsonlOf(events + [e], id) == if e.GiveJsonl? && e.jsonl.requestId == id then Some(e.jsonl) else JsonlOf(events, id)
    ensures OtelOf(events + [e], id) == if e.GiveOtel? && e.otel.requestId == id then Some(e.otel) else OtelOf(events, id)
    ensures Ids(events + [e]) == Ids(events) + {IdOf(e)}
  {
    assert (events + [e])[..|events|] == events;
  }

  lemma OthersSame(events: seq<Event>, e: Event, id: RequestId)
    requires id != IdOf(e) && IsOffer(e)
    ensures JsonlOf(events + [e], id) == JsonlOf(events, id) && OtelOf(events + [e], id) == OtelOf(events, id)
    ensures Both(events + [e], id) == Both(events, id) && Target(events + [e], id) == Target(events, id)
    ensures id in Ids(events + [e]) <==> id in Ids(events)
  {
    OneMore(events, e, id);
  }

  lemma HasOffer(events: seq<Event>, id: RequestId)
    requires forall e <- events :: IsOffer(e)
    ensures id in Ids(events) <==> JsonlOf(events, id).Some? || OtelOf(events, id).Some?
  {
  }

  lemma {:induction false} ShelfFits(p: Pending, clock: int, ids: set<RequestId>)
    requires Shelf(p, clock) && forall s <- p :: s.id in ids
    ensures |p| <= |ids|
    decreases |p|
  {
    if p != [] {
      assert p == [p[0]] + p[1..];
      ShelfFits(p[1..], clock, ids - {p[0].id});
    }
  }

  // The first half of a request: it is buffered.
  lemma LoneStep(st: State, store0: map<string, Row>, events: seq<Event>, e: Event, h: Halves)
    requires Mid(st, store0, events) && IsOffer(e) && IdOf(e) !in Ids(events)
    requires h.jsonl == JsonlOf(events + [e], IdOf(e)) && h.otel == OtelOf(events + [e], IdOf(e)) && !Both(events + [e], IdOf(e))
    ensures Mid(st.(pending := Put(st.pending, IdOf(e), h)), store0, events + [e])
  {
    hide Put, JsonlOf, OtelOf, Target, Both;
    var id := IdOf(e);
    var after := events + [e];
    var st' := st.(pending := Put(st.pending, id, h));
    OneMore(events, e, id);
    assert Slot(id, h) in st'.pending;
    forall s <- st'.pending ensures s.halves.jsonl == JsonlOf(after, s.id) && s.halves.otel == OtelOf(after, s.id) && s.id in Ids(after) {
      if s != Slot(id, h) {
        OthersSame(events, e, s.id);
      }
    }
    forall x <- Ids(after) ensures Both(after, x) != Buffered(st'.pending, x) {
      if x != id {
        OthersSame(events, e, x);
        SameBuffered(st.pending, id, h, x);
      }
    }
    forall x <- Ids(after) | RawRef(x) !in store0 && Both(after, x)
      ensures RawRef(x) in st'.store && Target(after, x) == Some(st'.store[RawRef(x)])
    {
      OthersSame(events, e, x);
    }
    forall key <- st'.store | key !in store0 ensures exists x <- Ids(after) :: key == RawRef(x) && Both(after, x) {
      var x :| x in Ids(events) && key == RawRef(x) && Both(events, x);
      OthersSame(events, e, x);
    }
  }

  lemma SameBuffered(p: Pending, id: RequestId, h: Halves, x: RequestId)
    requires x != id
    ensures Buffered(Put(p, id, h), x) == Buffered(p, x) && Buffered(Without(p, id), x) == Buffered(p, x)
  {
    hide Put, Without;
    if Buffered(p, x) {
      var s :| s in p && s.id == x;
      assert s in Put(p, id, h) && s in Without(p, id);
    }
  }

  // The second half: the pair is merged into the store.
  lemma MatchStep(st: State, store0: map<string, Row>, events: seq<Event>, e: Event, j: Jsonl, o: Otel)
    requires Mid(st, store0, events) && IsOffer(e)
    requires JsonlOf(events + [e], IdOf(e)) == Some(j) && OtelOf(events + [e], IdOf(e)) == Some(o) && !Both(events, IdOf(e))
    requires j.requestId == IdOf(e)
    ensures Mid(InsertMerged(st.(pending := Without(st.pending, IdOf(e))), j, o), store0, events + [e])
  {
    hide JsonlOf, OtelOf, Without, MidPending, MidStore, Target;
    MatchPending(st.pending, events, e);
    MatchStore(st.store, store0, events, e, j, o);
  }

  lemma MatchPending(p: Pending, events: seq<Event>, e: Event)
    requires MidPending(p, events) && IsOffer(e) && Both(events + [e], IdOf(e))
    ensures MidPending(Without(p, IdOf(e)), events + [e])
  {
    hide JsonlOf, OtelOf, Without;
    var id := IdOf(e);
    var after := events + [e];
    var p' := Without(p, id);
    forall s <- p' ensures s.halves.jsonl == JsonlOf(after, s.id) && s.halves.otel == OtelOf(after, s.id) && s.id in Ids(after) {
      OthersSame(events, e, s.id);
    }
    forall x <- Ids(after) ensures Both(after, x) != Buffered(p', x) {
      if x != id {
        OthersSame(events, e, x);
        SameBuffered(p, id, Halves(None, None, 0), x);
      }
    }
  }

  lemma MatchStore(store: map<string, Row>, store0: map<string, Row>, events: seq<Event>, e: Event, j: Jsonl, o: Otel)
    requires MidStore(store, store0, events) && IsOffer(e) && j.requestId == IdOf(e)
    requires JsonlOf(events + [e], IdOf(e)) == Some(j) && OtelOf(events + [e], IdOf(e)) == Some(o) && !Both(events, IdOf(e))
    ensures MidStore(if RawRef(IdOf(e)) in store then store else store[RawRef(IdOf(e)) := MergedRow(j, o)], store0, events + [e])
  {
    hide JsonlOf, OtelOf, MergedRow, RawRef, Target, Both;
    var id := IdOf(e);
    var after := events + [e];
    var store' := if RawRef(id) in store then store else store[RawRef(id) := MergedRow(j, o)];
    OneMore(events, e, id);
    MergedIsTarget(after, id, j, o);
    NotYetStored(store, store0, events, id);
    forall x <- Ids(after) | RawRef(x) !in store0 && Both(after, x)
      ensures RawRef(x) in store' && Target(after, x) == Some(store'[RawRef(x)])
    {
      if x != id {
        OthersSame(events, e, x);
        DifferentRefs(x, id);
      }
    }
    forall key <- store' | key !in store0 ensures exists x <- Ids(after) :: key == RawRef(x) && Both(after, x) {
      if key == RawRef(id) {
        assert id in Ids(after);
      } else {
        var x :| x in Ids(events) && key == RawRef(x) && Both(events, x);
        OthersSame(events, e, x);
      }
    }
  }

  lemma DifferentRefs(a: RequestId, b: RequestId)
    requires a != b
    ensures RawRef(a) != RawRef(b)
  {
    if RawRef(a) == RawRef(b) {
      RawRefInjective(a, b);
    }
  }

  lemma NotYetStored(store: map<string, Row>, store0: map<string, Row>, events: seq<Event>, id: RequestId)
    requires MidStore(store, store0, events) && !Both(events, id)
    ensures RawRef(id) in store ==> RawRef(id) in store0
  {
    if RawRef(id) in store && RawRef(id) !in store0 {
      var y :| y in Ids(events) && RawRef(id) == RawRef(y) && Both(events, y);
      RawRefInjective(id, y);
    }
  }

  lemma MergedIsTarget(events: seq<Event>, id: RequestId, j: Jsonl, o: Otel)
    requires JsonlOf(events, id) == Some(j) && OtelOf(events, id) == Some(o) && j.requestId == id
    ensures Target(events, id) == Some(MergedRow(j, o)) && MergedRow(j, o).rawRef == RawRef(id) && Both(events, id)
  {
  }

  // ---- one offer, then all of them ---------------------------------------------------------------------

  lemma OfferStep(st: State, maxPending: nat, store0: map<string, Row>, events: seq<Event>, e: Event,
                  accepted: set<RequestId>, clock: int)
    requires Mid(st, store0, events) && Inv(st, maxPending, store0, accepted, clock)
    requires (forall x <- events + [e] :: IsOffer(x)) && OncePerSide(events + [e]) && 1 <= maxPending
    requires IdOf(e) !in Ids(events) ==> |Lone(events)| < maxPending
    ensures Mid(Apply(st, maxPending, e), store0, events + [e])
  {
    hide MidStore, Books, Accounted, JsonlOf, OtelOf, InsertMerged, EvictIfFull, Put, Without, Target;
    var id := IdOf(e);
    assert e in events + [e];
    assert forall x <- events :: x in events + [e];
    OneMore(events, e, id);
    FirstOfSide(events, e);
    HasOffer(events, id);
    var entry := Find(st.pending, id);
    if id in Ids(events) {
      var s :| s in st.pending && s.id == id;
      ShelfMember(st.pending, clock, s);
      assert entry == Some(s.halves);
      if e.GiveJsonl? {
        MatchStep(st, store0, events, e, e.jsonl, entry.value.otel.value);
      } else {
        JsonlHasId(events, id);
        MatchStep(st, store0, events, e, entry.value.jsonl.value, e.otel);
      }
    } else {
      assert forall s <- st.pending :: Buffered(st.pending, s.id);
      ShelfFits(st.pending, clock, Lone(events));
      assert EvictIfFull(st, maxPending) == st by {
        RoomAlready(st, maxPending);
      }
      var h := if e.GiveJsonl? then Halves(Some(e.jsonl), None, e.at) else Halves(None, Some(e.otel), e.at);
      LoneStep(st, store0, events, e, h);
    }
  }

  lemma RoomAlready(st: State, maxPending: nat)
    requires 1 <= maxPending && |st.pending| < maxPending
    ensures EvictIfFull(st, maxPending) == st
  {
  }

  lemma JsonlHasId(events: seq<Event>, id: RequestId)
    ensures JsonlOf(events, id).Some? ==> JsonlOf(events, id).value.requestId == id
  {
  }

  lemma FirstOfSide(events: seq<Event>, e: Event)
    requires (forall x <- events + [e] :: IsOffer(x)) && OncePerSide(events + [e])
    ensures e.GiveJsonl? ==> JsonlOf(events, IdOf(e)).None?
    ensures e.GiveOtel? ==> OtelOf(events, IdOf(e)).None?
  {
    var all := events + [e];
    forall k | 0 <= k < |events| && IdOf(events[k]) == IdOf(e) ensures events[k].GiveJsonl? != e.GiveJsonl? {
      assert all[k] == events[k] && all[|events|] == e;
    }
  }

  lemma {:induction false} RunSnoc(st: State, maxPending: nat, events: seq<Event>, e: Event)
    requires 1 <= maxPending
    ensures Run(st, maxPending, events + [e]) == Apply(Run(st, maxPending, events), maxPending, e)
    decreases |events|
  {
    hide Apply;
    if events == [] {
      assert events + [e] == [e] && [e][1..] == [];
    } else {
      assert (events + [e])[1..] == events[1..] + [e];
      RunSnoc(Apply(st, maxPending, events[0]), maxPending, events[1..], e);
    }
  }

  // The cap is not reached: whenever the first half of a request arrives, fewer than maxPending
  // requests are waiting for their second half.
  ghost predicate Roomy(events: seq<Event>, maxPending: nat) {
    events == [] ||
    (var before, e := events[..|events| - 1], events[|events| - 1];
     Roomy(before, maxPending) && (IdOf(e) !in Ids(before) ==> |Lone(before)| < maxPending))
  }

  ghost predicate Fits(events: seq<Event>, maxPending: nat) {
    && 1 <= maxPending && (forall e <- events :: IsOffer(e)) && OncePerSide(events) && Roomy(events, maxPending)
  }

  lemma {:induction false} RunMid(store0: map<string, Row>, maxPending: nat, clock: int, events: seq<Event>)
    requires Fits(events, maxPending) && Timely(events, clock)
    ensures Mid(Run(State([], store0, NO_STATS, 0), maxPending, events), store0, events)
    decreases |events|
  {
    hide Fits, Apply, Inv, Timely, Books, OncePerSide;
    var st0 := State([], store0, NO_STATS, 0);
    if events != [] {
      var before, e := events[..|events| - 1], events[|events| - 1];
      assert events == before + [e];
      FitsPrefix(before, e, maxPending, clock);
      RunMid(store0, maxPending, clock, before);
      StartInv(store0, maxPending, clock);
      var accepted, now := RunKeeps(st0, maxPending, store0, {}, clock, before);
      OfferStep(Run(st0, maxPending, before), maxPending, store0, before, e, accepted, now);
      RunSnoc(st0, maxPending, before, e);
    }
  }

  lemma FitsPrefix(before: seq<Event>, e: Event, maxPending: nat, clock: int)
    requires Fits(before + [e], maxPending) && Timely(before + [e], clock)
    ensures Fits(before, maxPending) && Timely(before, clock)
    ensures 1 <= maxPending && (forall x <- before + [e] :: IsOffer(x)) && OncePerSide(before + [e])
    ensures IdOf(e) !in Ids(before) ==> |Lone(before)| < maxPending
  {
    Prefix(before, e, clock);
    assert (before + [e])[..|before|] == before;
  }

  lemma StartInv(store0: map<string, Row>, maxPending: nat, clock: int)
    requires 1 <= maxPending
    ensures Inv(State([], store0, NO_STATS, 0), maxPending, store0, {}, clock)
  {
  }

  // ---- the cap, exactly ------------------------------------------------------------------------------------

  lemma {:induction false} EvictCounts(st: State, maxPending: nat)
    requires 1 <= maxPending
    ensures st.stats.evicted <= EvictIfFull(st, maxPending).stats.evicted
    ensures st.stats.evicted == EvictIfFull(st, maxPending).stats.evicted <==> |st.pending| < maxPending
    decreases |st.pending|
  {
    if |st.pending| >= maxPending {
      EvictCounts(EvictOldest(st), maxPending);
    }
  }

  lemma OfferCounts(st: State, maxPending: nat, e: Event)
    requires 1 <= maxPending && IsOffer(e)
    ensures st.stats.evicted <= Apply(st, maxPending, e).stats.evicted
    ensures st.stats.evicted == Apply(st, maxPending, e).stats.evicted <==> Find(st.pending, IdOf(e)).Some? || |st.pending| < maxPending
  {
    hide EvictIfFull, Find, Put, Without;
    EvictCounts(st, maxPending);
  }

  lemma {:induction false} LoneFits(p: Pending, ids: set<RequestId>)
    requires forall id <- ids :: Buffered(p, id)
    ensures |ids| <= |p|
    decreases |p|
  {
    if p == [] {
      assert ids == {};
    } else {
      var rest := ids - {p[0].id};
      assert p == [p[0]] + p[1..];
      LoneFits(p[1..], rest);
      assert ids <= rest + {p[0].id};
      if p[0].id in ids {
        assert ids == rest + {p[0].id};
      } else {
        assert ids == rest;
      }
    }
  }

  lemma LoneIsPending(st: State, store0: map<string, Row>, events: seq<Event>, clock: int)
    requires Mid(st, store0, events) && Shelf(st.pending, clock)
    ensures |Lone(events)| == |st.pending|
  {
    hide MidStore, Both, Shelf;
    assert forall s <- st.pending :: Buffered(st.pending, s.id);
    ShelfFits(st.pending, clock, Lone(events));
    LoneFits(st.pending, Lone(events));
  }

  lemma FindIffIds(st: State, store0: map<string, Row>, events: seq<Event>, e: Event)
    requires Mid(st, store0, events) && (forall x <- events + [e] :: IsOffer(x)) && OncePerSide(events + [e])
    ensures Find(st.pending, IdOf(e)).Some? <==> IdOf(e) in Ids(events)
  {
    hide MidStore, Find, JsonlOf, OtelOf;
    var id := IdOf(e);
    assert e in events + [e];
    assert forall x <- events :: x in events + [e];
    FirstOfSide(events, e);
    if id in Ids(events) {
      assert !Both(events, id);
      assert Buffered(st.pending, id);
    }
  }

  /** `Roomy` is exactly that nothing is evicted: a run of offers, each request at most once per side,
      evicts something if and only if the first half of some request meets a full buffer. */
  lemma {:induction false} RoomyIffNoEviction(store0: map<string, Row>, maxPending: nat, clock: int, events: seq<Event>)
    requires 1 <= maxPending && (forall e <- events :: IsOffer(e)) && OncePerSide(events) && Timely(events, clock)
    ensures Roomy(events, maxPending) <==> Run(State([], store0, NO_STATS, 0), maxPending, events).stats.evicted == 0
    decreases |events|
  {
    hide Apply, Timely, Books, Accounted, OncePerSide, Mid, IsOffer, Lone, Shelf, Ids;
    var st0 := State([], store0, NO_STATS, 0);
    if events != [] {
      var before, e := events[..|events| - 1], events[|events| - 1];
      assert events == before + [e];
      assert IsOffer(e) by { assert e in events; }
      Prefix(before, e, clock);
      RoomyIffNoEviction(store0, maxPending, clock, before);
      RunSnoc(st0, maxPending, before, e);
      var st := Run(st0, maxPending, before);
      OfferCounts(st, maxPending, e);
      if Roomy(before, maxPending) {
        RunMid(store0, maxPending, clock, before);
        StartInv(store0, maxPending, clock);
        var accepted, now := RunKeeps(st0, maxPending, store0, {}, clock, before);
        LoneIsPending(st, store0, before, now);
        FindIffIds(st, store0, before, e);
      }
    }
  }

  lemma Prefix(before: seq<Event>, e: Event, clock: int)
    requires (forall x <- before + [e] :: IsOffer(x)) && OncePerSide(before + [e]) && Timely(before + [e], clock)
    ensures (forall x <- before :: IsOffer(x)) && OncePerSide(before) && Timely(before, clock)
  {
    hide IsOffer;
    var all := before + [e];
    assert forall k | 0 <= k < |before| :: all[k] == before[k];
    assert forall x <- before :: x in all;
  }

  // ---- the final flush ---------------------------------------------------------------------------------

  ghost function SingleRow(h: Halves): Option<Row> {
    if h.jsonl.Some? then Some(JsonlOnlyRow(h.jsonl.value))
    else if h.otel.Some? then Some(OtelOnlyRow(h.otel.value))
    else None
  }

  lemma FlushOne(st: State, s: Slot)
    requires OneHalf(s)
    ensures FlushSingle(st, s.halves).store
         == if RawRef(s.id) in st.store then st.store else st.store[RawRef(s.id) := SingleRow(s.halves).value]
  {
  }

  lemma {:induction false} FlushRows(st: State, slots: Pending, clock: int)
    requires Shelf(slots, clock)
    ensures var store := FlushAll(st, slots).store;
      && (forall key <- st.store :: key in store && store[key] == st.store[key])
      && (forall key <- store | key !in st.store :: exists s <- slots :: key == RawRef(s.id))
      && (forall s <- slots :: RawRef(s.id) in store
            && (RawRef(s.id) !in st.store ==> SingleRow(s.halves) == Some(store[RawRef(s.id)])))
    decreases |slots|
  {
    hide FlushSingle, SingleRow, RawRef;
    if slots != [] {
      var first := slots[0];
      var st1 := FlushSingle(st, first.halves);
      FlushOne(st, first);
      SingleRowSome(first);
      FlushRows(st1, slots[1..], clock);
      assert slots == [first] + slots[1..];
      var store := FlushAll(st, slots).store;
      forall s <- slots ensures RawRef(s.id) in store && (RawRef(s.id) !in st.store ==> SingleRow(s.halves) == Some(store[RawRef(s.id)])) {
        if s != first {
          assert s in slots[1..];
          DifferentRefs(s.id, first.id);
        }
      }
    }
  }

  lemma SingleRowSome(s: Slot)
    requires OneHalf(s)
    ensures SingleRow(s.halves).Some?
  {
  }

  // The rows a set of offers must leave, on top of what the store already had.
  ghost predicate Final(store: map<string, Row>, store0: map<string, Row>, events: seq<Event>) {
    && (forall key <- store0 :: key in store && store[key] == store0[key])
    && (forall key <- store | key !in store0 :: exists id <- Ids(events) :: key == RawRef(id))
    && (forall id <- Ids(events) :: RawRef(id) in store
          && (RawRef(id) !in store0 ==> Target(events, id) == Some(store[RawRef(id)])))
  }

  lemma FlushIsFinal(st: State, store0: map<string, Row>, events: seq<Event>, clock: int, cutoff: int)
    requires Mid(st, store0, events) && Shelf(st.pending, clock) && clock <= cutoff
    ensures Final(Flush(st, cutoff).store, store0, events)
  {
    hide JsonlOf, OtelOf, RawRef, FlushAll, MergedRow, JsonlOnlyRow, OtelOnlyRow;
    AllExpired(st.pending, clock, cutoff);
    var st1 := st.(pending := Kept(st.pending, cutoff));
    FlushRows(st1, st.pending, clock);
    var store := Flush(st, cutoff).store;
    assert store == FlushAll(st1, st.pending).store;
    forall id <- Ids(events) ensures RawRef(id) in store && (RawRef(id) !in store0 ==> Target(events, id) == Some(store[RawRef(id)])) {
      if !Both(events, id) {
        var s :| s in st.pending && s.id == id;
        ShelfMember(st.pending, clock, s);
        NotYetStored(st.store, store0, events, id);
        LoneTarget(events, s);
      } else if RawRef(id) in store0 {
        assert RawRef(id) in st.store;
      }
    }
    forall key <- store | key !in store0 ensures exists id <- Ids(events) :: key == RawRef(id) {
      if key !in st.store {
        var s :| s in st.pending && key == RawRef(s.id);
        assert s.id in Ids(events);
      }
    }
  }

  lemma LoneTarget(events: seq<Event>, s: Slot)
    requires OneHalf(s) && s.halves.jsonl == JsonlOf(events, s.id) && s.halves.otel == OtelOf(events, s.id)
    ensures Target(events, s.id) == SingleRow(s.halves)
  {
  }

  lemma {:induction false} AllExpired(p: Pending, clock: int, cutoff: int)
    requires Shelf(p, clock) && clock <= cutoff
    ensures Expired(p, cutoff) == p
    decreases |p|
  {
    if p != [] {
      AllExpired(p[1..], clock, cutoff);
      assert p == [p[0]] + p[1..];
    }
  }

  lemma RunThenFlush(store0: map<string, Row>, maxPending: nat, clock: int, events: seq<Event>, now: int)
    requires Fits(events, maxPending) && Timely(events, clock) && clock <= now && forall e <- events :: e.at <= now
    ensures Final(Flush(Run(State([], store0, NO_STATS, 0), maxPending, events), now).store, store0, events)
  {
    hide Mid, Final, Flush;
    var st0 := State([], store0, NO_STATS, 0);
    RunMid(store0, maxPending, clock, events);
    StartInv(store0, maxPending, clock);
    RunShelf(st0, maxPending, store0, {}, clock, events, now);
    FlushIsFinal(Run(st0, maxPending, events), store0, events, now, now);
  }

  lemma {:induction false} RunShelf(st: State, maxPending: nat, store0: map<string, Row>, accepted: set<RequestId>, clock: int,
                                    events: seq<Event>, now: int)
    requires Inv(st, maxPending, store0, accepted, clock) && Timely(events, clock) && clock <= now && forall e <- events :: e.at <= now
    ensures Shelf(Run(st, maxPending, events).pending, now)
    decreases |events|
  {
    hide Apply, Books, Shelf, Accounted;
    if events == [] {
      ShelfLater(st.pending, clock, now);
    } else {
      assert events[0] in events && forall e <- events[1..] :: e in events;
      var mid := ApplyKeeps(st, maxPending, store0, accepted, clock, events[0]);
      RunShelf(Apply(st, maxPending, events[0]), maxPending, store0, mid, events[0].at, events[1..], now);
    }
  }

  // ---- order independence ---------------------------------------------------------------------------------

  // The same halves, in any order and at any times.
  ghost predicate SameOffers(a: seq<Event>, b: seq<Event>) {
    && (forall e <- a | e.GiveJsonl? :: exists f <- b :: f.GiveJsonl? && f.jsonl == e.jsonl)
    && (forall e <- a | e.GiveOtel? :: exists f <- b :: f.GiveOtel? && f.otel == e.otel)
  }

  lemma OneJsonl(events: seq<Event>, e: Event)
    requires OncePerSide(events) && e in events && e.GiveJsonl?
    ensures JsonlOf(events, IdOf(e)) == Some(e.jsonl)
  {
    var f :| f in events && f.GiveJsonl? && f.jsonl == JsonlOf(events, IdOf(e)).value && IdOf(f) == IdOf(e);
    var i :| 0 <= i < |events| && events[i] == e;
    var k :| 0 <= k < |events| && events[k] == f;
    assert i == k;
  }

  lemma OneOtel(events: seq<Event>, e: Event)
    requires OncePerSide(events) && e in events && e.GiveOtel? && forall x <- events :: IsOffer(x)
    ensures OtelOf(events, IdOf(e)) == Some(e.otel)
  {
    var f :| f in events && f.GiveOtel? && f.otel == OtelOf(events, IdOf(e)).value && IdOf(f) == IdOf(e);
    var i :| 0 <= i < |events| && events[i] == e;
    var k :| 0 <= k < |events| && events[k] == f;
    assert i == k;
  }

  lemma JsonlCarries(a: seq<Event>, b: seq<Event>, id: RequestId)
    requires OncePerSide(b) && SameOffers(a, b) && JsonlOf(a, id).Some?
    ensures JsonlOf(b, id) == JsonlOf(a, id)
  {
    var e :| e in a && e.GiveJsonl? && e.jsonl == JsonlOf(a, id).value && e.jsonl.requestId == id;
    var f :| f in b && f.GiveJsonl? && f.jsonl == e.jsonl;
    OneJsonl(b, f);
  }

  lemma OtelCarries(a: seq<Event>, b: seq<Event>, id: RequestId)
    requires OncePerSide(b) && SameOffers(a, b) && OtelOf(a, id).Some? && forall x <- b :: IsOffer(x)
    ensures OtelOf(b, id) == OtelOf(a, id)
  {
    var e :| e in a && e.GiveOtel? && e.otel == OtelOf(a, id).value && e.otel.requestId == id;
    var f :| f in b && f.GiveOtel? && f.otel == e.otel;
    OneOtel(b, f);
  }

  lemma SameTarget(a: seq<Event>, b: seq<Event>, id: RequestId)
    requires OncePerSide(a) && OncePerSide(b) && SameOffers(a, b) && SameOffers(b, a)
    requires (forall e <- a :: IsOffer(e)) && (forall e <- b :: IsOffer(e))
    ensures Target(a, id) == Target(b, id) && (id in Ids(a) <==> id in Ids(b))
  {
    hide OncePerSide, SameOffers, IsOffer, JsonlOf, OtelOf;
    HasOffer(a, id);
    HasOffer(b, id);
    if JsonlOf(a, id).Some? {
      JsonlCarries(a, b, id);
    } else if JsonlOf(b, id).Some? {
      JsonlCarries(b, a, id);
    }
    if OtelOf(a, id).Some? {
      OtelCarries(a, b, id);
    } else if OtelOf(b, id).Some? {
      OtelCarries(b, a, id);
    }
  }

  /** Order independence: offer the same halves in any order, each request at most once per side
      and never with a full buffer, then flush everything.  The store ends the same: the merged row
      where both halves came, the single-source row otherwise. */
  lemma OrderIndependence(store0: map<string, Row>, maxPending: nat, clock: int, a: seq<Event>, b: seq<Event>, now: int)
    requires Fits(a, maxPending) && Fits(b, maxPending) && SameOffers(a, b) && SameOffers(b, a)
    requires Timely(a, clock) && Timely(b, clock) && clock <= now
    requires (forall e <- a :: e.at <= now) && (forall e <- b :: e.at <= now)
    ensures var st0 := State([], store0, NO_STATS, 0);
      var store := Flush(Run(st0, maxPending, a), now).store;
      && store == Flush(Run(st0, maxPending, b), now).store
      && (forall id <- Ids(a) :: RawRef(id) in store && (RawRef(id) !in store0 ==> Target(a, id) == Some(store[RawRef(id)])))
  {
    hide Flush, Run, Target, RawRef, Timely, OncePerSide, SameOffers, IsOffer, Ids;
    RunThenFlush(store0, maxPending, clock, a, now);
    RunThenFlush(store0, maxPending, clock, b, now);
    var st0 := State([], store0, NO_STATS, 0);
    FinalsAgree(Flush(Run(st0, maxPending, a), now).store, Flush(Run(st0, maxPending, b), now).store, store0, a, b);
  }

  lemma FinalsAgree(s: map<string, Row>, t: map<string, Row>, store0: map<string, Row>, a: seq<Event>, b: seq<Event>)
    requires Final(s, store0, a) && Final(t, store0, b)
    requires OncePerSide(a) && OncePerSide(b) && SameOffers(a, b) && SameOffers(b, a)
    requires (forall e <- a :: IsOffer(e)) && (forall e <- b :: IsOffer(e))
    ensures s == t
  {
    hide Final, OncePerSide, SameOffers, IsOffer;
    FinalKeys(s, t, store0, a, b);
    FinalKeys(t, s, store0, b, a);
  }

  lemma FinalKeys(s: map<string, Row>, t: map<string, Row>, store0: map<string, Row>, a: seq<Event>, b: seq<Event>)
    requires Final(s, store0, a) && Final(t, store0, b)
    requires OncePerSide(a) && OncePerSide(b) && SameOffers(a, b) && SameOffers(b, a)
    requires (forall e <- a :: IsOffer(e)) && (forall e <- b :: IsOffer(e))
    ensures forall key <- s :: key in t && t[key] == s[key]
  {
    hide Target, RawRef, JsonlOf, OtelOf, SameOffers, OncePerSide;
    forall key <- s ensures key in t && t[key] == s[key] {
      if key !in store0 {
        var id :| id in Ids(a) && key == RawRef(id);
        SameTarget(a, b, id);
      }
    }
  }
}
