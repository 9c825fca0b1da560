/** The JSONL/OTel request joiner (core/src/collector/ingest.ts).

`State` is the joiner's memory plus the event store, which keeps one row per raw_ref.
`attempts` counts calls of the store's insert; it exists for the statements only.
*/
module Joiner {
  import opened Base

  type RequestId = string
  datatype AccountLabel = Claude(name: string) | OtherBackend(name: string)

  datatype Usage = Usage(
    inputTokens: Option<nat>, outputTokens: Option<nat>, cacheReadTokens: Option<nat>, cacheCreationTokens: Option<nat>,
    cacheCreation5mTokens: Option<nat>, cacheCreation1hTokens: Option<nat>, reasoningTokens: Option<nat>)

  datatype Attribution = Attribution(
    promptId: Option<string>, provider: Option<string>, costEstimatedUsd: Option<real>, latencyMs: Option<nat>,
    toolName: Option<string>, skillName: Option<string>, agentName: Option<string>, mcpServer: Option<string>, ok: Option<bool>)

  datatype Jsonl = Jsonl(requestId: RequestId, account: AccountLabel, tsMs: nat,
                         nativeSessionId: Option<string>, model: Option<string>, usage: Usage)

  datatype Otel = Otel(requestId: RequestId, account: AccountLabel, tsMs: nat,
                       nativeSessionId: Option<string>, model: Option<string>, usage: Option<Usage>, attribution: Attribution)

  datatype Source = ClaudeJsonl | ClaudeOtel
  datatype Row = Row(tsMs: nat, account: AccountLabel, source: Source, rawRef: string,
                     nativeSessionId: Option<string>, model: Option<string>, usage: Usage, attribution: Attribution)

  const NO_USAGE: Usage := Usage(None, None, None, None, None, None, None)
  const NO_ATTRIBUTION: Attribution := Attribution(None, None, None, None, None, None, None, None, None)

  function RawRef(id: RequestId): string { "api_request:" + id }

  lemma RawRefInjective(a: RequestId, b: RequestId)
    requires RawRef(a) == RawRef(b)
    ensures a == b
  {
    assert RawRef(a)[12..] == a && RawRef(b)[12..] == b;
  }

  // Tokens from JSONL, attribution from OTel.
  function MergedRow(j: Jsonl, o: Otel): Row {
    Row(j.tsMs, j.account, ClaudeJsonl, RawRef(j.requestId), j.nativeSessionId.OrElse(o.nativeSessionId), j.model.OrElse(o.model),
        j.usage, o.attribution)
  }

  function JsonlOnlyRow(j: Jsonl): Row {
    Row(j.tsMs, j.account, ClaudeJsonl, RawRef(j.requestId), j.nativeSessionId, j.model, j.usage, NO_ATTRIBUTION)
  }

  function OtelOnlyRow(o: Otel): Row {
    Row(o.tsMs, o.account, ClaudeOtel, RawRef(o.requestId), o.nativeSessionId, o.model, o.usage.GetOr(NO_USAGE), o.attribution)
  }

  /** A merged row is the transcript's single-source row with the telemetry row's attribution, and
      with its session and model where the transcript has none. */
  lemma MergedTakesBoth(j: Jsonl, o: Otel)
    requires j.requestId == o.requestId
    ensures var (m, a, b) := (MergedRow(j, o), JsonlOnlyRow(j), OtelOnlyRow(o));
      && m.(attribution := a.attribution, nativeSessionId := a.nativeSessionId, model := a.model) == a
      && m.attribution == b.attribution && m.rawRef == a.rawRef == b.rawRef
      && m.nativeSessionId == (if a.nativeSessionId.Some? then a.nativeSessionId else b.nativeSessionId)
      && m.model == (if a.model.Some? then a.model else b.model)
      && a.usage == j.usage && b.attribution == o.attribution && a.source != b.source
  {
  }

  /** A telemetry-only row carries that half's own fields, its tokens included. */
  lemma OtelOnlyFields(o: Otel)
    ensures var r := OtelOnlyRow(o);
      && r.tsMs == o.tsMs && r.account == o.account && r.source == ClaudeOtel && r.rawRef == "api_request:" + o.requestId
      && r.nativeSessionId == o.nativeSessionId && r.model == o.model && r.attribution == o.attribution
      && (if o.usage.Some? then r.usage == o.usage.value else r.usage == Usage(None, None, None, None, None, None, None))
  {
  }

  // ---- the pending map, in insertion order ----------------------------------------------------------

  datatype Halves = Halves(jsonl: Option<Jsonl>, otel: Option<Otel>, bufferedAtMs: int)
  datatype Slot = Slot(id: RequestId, halves: Halves)
  type Pending = seq<Slot>

  function Find(p: Pending, id: RequestId): (r: Option<Halves>)
    ensures r.None? ==> forall s <- p :: s.id != id
    ensures r.Some? ==> Slot(id, r.value) in p
  {
    if p == [] then None
    else
      assert p == [p[0]] + p[1..];
      if p[0].id == id then Some(p[0].halves) else Find(p[1..], id)
  }

  function Without(p: Pending, id: RequestId): (r: Pending)
    ensures forall s :: s in r <==> s in p && s.id != id
  {
    if p == [] then []
    else
      assert p == [p[0]] + p[1..];
      if p[0].id == id then Without(p[1..], id) else [p[0]] + Without(p[1..], id)
  }

  // Map.set: an existing key keeps its place.
  function Put(p: Pending, id: RequestId, h: Halves): (r: Pending)
    ensures Slot(id, h) in r
    ensures forall s <- r :: s in p || s == Slot(id, h)
    ensures forall s <- p :: s.id != id ==> s in r
  {
    if p == [] then [Slot(id, h)]
    else
      assert p == [p[0]] + p[1..];
      if p[0].id == id then [Slot(id, h)] + p[1..] else [p[0]] + Put(p[1..], id, h)
  }

  // ---- operations -----------------------------------------------------------------------------------

  datatype Stats = Stats(merged: nat, jsonlOnly: nat, otelOnly: nat, lateTwinsDropped: nat, labelMismatches: nat, evicted: nat)
  datatype Bucket = Merged | OnlyJsonl | OnlyOtel
  datatype State = State(pending: Pending, store: map<string, Row>, stats: Stats, attempts: nat)

  // What String.prototype.trim removes: white space, line terminators, the byte-order mark.
  predicate IsSpace(c: char) {
    var u := c as int;
    || 0x09 <= u <= 0x0D || u == 0x20 || u == 0xA0 || u == 0x1680 || 0x2000 <= u <= 0x200A
    || u == 0x2028 || u == 0x2029 || u == 0x202F || u == 0x205F || u == 0x3000 || u == 0xFEFF
  }

  predicate IsBlank(s: string) { forall c <- s :: IsSpace(c) }

  // assertClaudeLabel: anything else is refused with an error and changes nothing.
  predicate Accepts(account: AccountLabel, id: RequestId) { account.Claude? && !IsBlank(id) }

  function Count(stats: Stats, bucket: Bucket): Stats {
    match bucket
    case Merged => stats.(merged := stats.merged + 1)
    case OnlyJsonl => stats.(jsonlOnly := stats.jsonlOnly + 1)
    case OnlyOtel => stats.(otelOnly := stats.otelOnly + 1)
  }

  function Insert(st: State, row: Row, bucket: Bucket): State {
    var st := st.(attempts := st.attempts + 1);
    if row.rawRef in st.store then st.(stats := st.stats.(lateTwinsDropped := st.stats.lateTwinsDropped + 1))
    else st.(store := st.store[row.rawRef := row], stats := Count(st.stats, bucket))
  }

  function FlushSingle(st: State, h: Halves): State {
    if h.jsonl.Some? then Insert(st, JsonlOnlyRow(h.jsonl.value), OnlyJsonl)
    else if h.otel.Some? then Insert(st, OtelOnlyRow(h.otel.value), OnlyOtel)
    else st
  }

  function InsertMerged(st: State, j: Jsonl, o: Otel): State {
    var stats := if o.account != j.account then st.stats.(labelMismatches := st.stats.labelMismatches + 1) else st.stats;
    Insert(st.(stats := stats), MergedRow(j, o), Merged)
  }

  function EvictOldest(st: State): State
    requires st.pending != []
  {
    var st' := FlushSingle(st.(pending := st.pending[1..]), st.pending[0].halves);
    st'.(stats := st'.stats.(evicted := st'.stats.evicted + 1))
  }

  function EvictIfFull(st: State, maxPending: nat): State
    requires 1 <= maxPending
    decreases |st.pending|
  {
    if |st.pending| >= maxPending then EvictIfFull(EvictOldest(st), maxPending) else st
  }

  function OfferJsonl(st: State, maxPending: nat, half: Jsonl, now: int): State
    requires 1 <= maxPending
  {
    if !Accepts(half.account, half.requestId) then st
    else
      var entry := Find(st.pending, half.requestId);
      if entry.Some? && entry.value.otel.Some? then
        InsertMerged(st.(pending := Without(st.pending, half.requestId)), half, entry.value.otel.value)
      else
        var st := if entry.None? then EvictIfFull(st, maxPending) else st;
        var h := entry.GetOr(Halves(None, None, now)).(jsonl := Some(half));
        st.(pending := Put(st.pending, half.requestId, h))
  }

  function OfferOtel(st: State, maxPending: nat, half: Otel, now: int): State
    requires 1 <= maxPending
  {
    if !Accepts(half.account, half.requestId) then st
    else
      var entry := Find(st.pending, half.requestId);
      if entry.Some? && entry.value.jsonl.Some? then
        InsertMerged(st.(pending := Without(st.pending, half.requestId)), entry.value.jsonl.value, half)
      else
        var st := if entry.None? then EvictIfFull(st, maxPending) else st;
        var h := entry.GetOr(Halves(None, None, now)).(otel := Some(half));
        st.(pending := Put(st.pending, half.requestId, h))
  }

  function Expired(p: Pending, cutoff: int): (r: Pending)
    ensures forall s :: s in r <==> s in p && s.halves.bufferedAtMs <= cutoff
  {
    if p == [] then []
    else
      assert p == [p[0]] + p[1..];
      (if p[0].halves.bufferedAtMs <= cutoff then [p[0]] else []) + Expired(p[1..], cutoff)
  }

  function Kept(p: Pending, cutoff: int): (r: Pending)
    ensures forall s :: s in r <==> s in p && s.halves.bufferedAtMs > cutoff
  {
    if p == [] then []
    else
      assert p == [p[0]] + p[1..];
      (if p[0].halves.bufferedAtMs <= cutoff then [] else [p[0]]) + Kept(p[1..], cutoff)
  }

  function FlushAll(st: State, slots: Pending): State
    decreases |slots|
  {
    if slots == [] then st else FlushAll(FlushSingle(st, slots[0].halves), slots[1..])
  }

  function Flush(st: State, cutoff: int): State {
    FlushAll(st.(pending := Kept(st.pending, cutoff)), Expired(st.pending, cutoff))
  }

  // ---- the counters ---------------------------------------------------------------------------------

  // The counters after an insert, given what they are when it adds a row.
  ghost function Counted(st: State, id: RequestId, added: Stats): Stats {
    if "api_request:" + id in st.store then st.stats.(lateTwinsDropped := st.stats.lateTwinsDropped + 1) else added
  }

  /** Which counter an insert moves, and by how much: a key the store holds is a late twin; a new one counts
      for the halves it came from.  Only a merge of halves under different accounts is a label mismatch. */
  lemma CountsByKind(st: State, h: Halves, j: Jsonl, o: Otel)
    ensures h.jsonl.Some? ==> FlushSingle(st, h).stats == Counted(st, h.jsonl.value.requestId, st.stats.(jsonlOnly := st.stats.jsonlOnly + 1))
    ensures h.jsonl.None? && h.otel.Some? ==>
      FlushSingle(st, h).stats == Counted(st, h.otel.value.requestId, st.stats.(otelOnly := st.stats.otelOnly + 1))
    ensures InsertMerged(st, j, o).stats.labelMismatches == st.stats.labelMismatches + (if j.account == o.account then 0 else 1)
    ensures InsertMerged(st, j, o).stats.(labelMismatches := st.stats.labelMismatches)
      == Counted(st, j.requestId, st.stats.(merged := st.stats.merged + 1))
  {
  }
}
