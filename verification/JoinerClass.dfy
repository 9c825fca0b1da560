/** The joiner as the object that mutates its buffer, proved against the functions in Joiner. */
module JoinerClass {
  import opened Base
  import J = Joiner
  import P = JoinerProofs

  class ApiRequestJoiner {
    const maxPending: nat
    const windowMs: int
    var pending: J.Pending
    var store: map<string, J.Row>
    var stats: J.Stats
    ghost var attempts: nat

    ghost function State(): J.State
      reads this
    {
      J.State(pending, store, stats, attempts)
    }

    // A map holds each key once.
    ghost predicate Valid()
      reads this
    {
      1 <= maxPending && KeysOnce(pending)
    }

    constructor (maxPending: nat, windowMs: int, store: map<string, J.Row>)
      requires 1 <= maxPending
      ensures Valid() && State() == J.State([], store, P.NO_STATS, 0) && this.maxPending == maxPending && this.windowMs == windowMs
    {
      this.maxPending, this.windowMs, this.store := maxPending, windowMs, store;
      pending, stats, attempts := [], P.NO_STATS, 0;
    }

    method InsertCounted(row: J.Row, bucket: J.Bucket)
      modifies this`store, this`stats, this`attempts
      ensures State() == J.Insert(old(State()), row, bucket)
    {
      attempts := attempts + 1;
      if row.rawRef in store {
        stats := stats.(lateTwinsDropped := stats.lateTwinsDropped + 1);
      } else {
        store := store[row.rawRef := row];
        stats := J.Count(stats, bucket);
      }
    }

    method FlushSingle(h: J.Halves)
      modifies this`store, this`stats, this`attempts
      ensures State() == J.FlushSingle(old(State()), h)
    {
      if h.jsonl.Some? {
        InsertCounted(J.JsonlOnlyRow(h.jsonl.value), J.OnlyJsonl);
      } else if h.otel.Some? {
        InsertCounted(J.OtelOnlyRow(h.otel.value), J.OnlyOtel);
      }
    }

    // Evict the first key of the map while it is at its cap.
    method EvictIfFull()
      requires Valid()
      modifies this`pending, this`store, this`stats, this`attempts
      ensures Valid() && State() == J.EvictIfFull(old(State()), maxPending)
    {
      while |pending| >= maxPending
        invariant Valid()
        invariant J.EvictIfFull(State(), maxPending) == J.EvictIfFull(old(State()), maxPending)
        decreases |pending|
      {
        ghost var was := State();
        var oldest := pending[0];
        pending := pending[1..];
        FlushSingle(oldest.halves);
        stats := stats.(evicted := stats.evicted + 1);
        assert State() == J.EvictOldest(was);
      }
    }

    method InsertMerged(j: J.Jsonl, o: J.Otel)
      modifies this`store, this`stats, this`attempts
      ensures State() == J.InsertMerged(old(State()), j, o)
    {
      if o.account != j.account {
        stats := stats.(labelMismatches := stats.labelMismatches + 1);
      }
      InsertCounted(J.MergedRow(j, o), J.Merged);
    }

    /** Offer the transcript half; an unacceptable half is refused and changes nothing. */
    method OfferJsonl(half: J.Jsonl, now: int) returns (ok: bool)
      requires Valid()
      modifies this`pending, this`store, this`stats, this`attempts
      ensures Valid() && (ok <==> half.account.Claude? && exists ch <- half.requestId :: !J.IsSpace(ch))
      ensures State() == J.OfferJsonl(old(State()), maxPending, half, now)
    {
      ok := J.Accepts(half.account, half.requestId);
      if !ok {
        return;
      }
      var entry := J.Find(pending, half.requestId);
      if entry.Some? && entry.value.otel.Some? {
        WithoutOnce(pending, half.requestId);
        pending := J.Without(pending, half.requestId);
        InsertMerged(half, entry.value.otel.value);
        return;
      }
      if entry.None? {
        EvictIfFull();
      }
      var h := entry.GetOr(J.Halves(None, None, now)).(jsonl := Some(half));
      PutOnce(pending, half.requestId, h);
      pending := J.Put(pending, half.requestId, h);
    }

    method OfferOtel(half: J.Otel, now: int) returns (ok: bool)
      requires Valid()
      modifies this`pending, this`store, this`stats, this`attempts
      ensures Valid() && (ok <==> half.account.Claude? && exists ch <- half.requestId :: !J.IsSpace(ch))
      ensures State() == J.OfferOtel(old(State()), maxPending, half, now)
    {
      ok := J.Accepts(half.account, half.requestId);
      if !ok {
        return;
      }
      var entry := J.Find(pending, half.requestId);
      if entry.Some? && entry.value.jsonl.Some? {
        WithoutOnce(pending, half.requestId);
        pending := J.Without(pending, half.requestId);
        InsertMerged(entry.value.jsonl.value, half);
        return;
      }
      if entry.None? {
        EvictIfFull();
      }
      var h := entry.GetOr(J.Halves(None, None, now)).(otel := Some(half));
      PutOnce(pending, half.requestId, h);
      pending := J.Put(pending, half.requestId, h);
    }

    /** Flush everything buffered at or before now - maxAgeMs: collect the keys, then
        delete and insert one by one. */
    method Flush(maxAgeMs: int, now: int) returns (count: nat)
      requires Valid()
      modifies this`pending, this`store, this`stats, this`attempts
      ensures Valid() && State() == J.Flush(old(State()), now - maxAgeMs)
      ensures count == |J.Expired(old(pending), now - maxAgeMs)|
    {
      hide J.Expired, J.Kept, J.Find, J.Without, J.FlushSingle, KeysOnce;
      var cutoff := now - maxAgeMs;
      var expired := CollectExpired(cutoff);
      ghost var all := J.Expired(pending, cutoff);
      ghost var target := J.Flush(State(), cutoff);
      ghost var kept := J.Kept(pending, cutoff);
      assert all[0..] == all;
      var i := 0;
      while i < |expired|
        invariant 0 <= i <= |expired| == |all|
        invariant forall k | 0 <= k < |all| :: expired[k] == all[k].id
        invariant KeysOnce(pending) && J.Expired(pending, cutoff) == all[i..] && J.Kept(pending, cutoff) == kept
        invariant J.FlushAll(State().(pending := kept), all[i..]) == target
      {
        FlushOne(expired[i], cutoff, kept, all[i..]);
        assert all[i..][1..] == all[i + 1..];
        i := i + 1;
      }
      NothingLeft(pending, cutoff);
      count := |expired|;
    }

    // One key of the collected ones: delete its entry, insert its row.
    method FlushOne(id: J.RequestId, ghost cutoff: int, ghost kept: J.Pending, ghost left: J.Pending)
      requires KeysOnce(pending) && left != [] && left[0].id == id && J.Expired(pending, cutoff) == left && J.Kept(pending, cutoff) == kept
      modifies this`pending, this`store, this`stats, this`attempts
      ensures KeysOnce(pending) && J.Expired(pending, cutoff) == left[1..] && J.Kept(pending, cutoff) == kept
      ensures State().(pending := kept) == J.FlushSingle(old(State()).(pending := kept), left[0].halves)
    {
      hide J.Expired, J.Kept, J.Find, J.Without, J.FlushSingle, KeysOnce;
      DeleteFront(pending, cutoff, left);
      ghost var was := State().(pending := kept);
      var entry := J.Find(pending, id);
      pending := J.Without(pending, id);
      if entry.Some? {
        FlushSingle(entry.value);
      }
      FlushIgnoresBuffer(was, pending, left[0].halves);
    }

    method CollectExpired(cutoff: int) returns (expired: seq<J.RequestId>)
      ensures |expired| == |J.Expired(pending, cutoff)|
      ensures forall k | 0 <= k < |expired| :: expired[k] == J.Expired(pending, cutoff)[k].id
    {
      hide J.Expired;
      expired := [];
      ghost var found: J.Pending := [];
      var i := 0;
      assert pending[0..] == pending;
      while i < |pending|
        invariant 0 <= i <= |pending| && |found| == |expired|
        invariant forall k | 0 <= k < |found| :: expired[k] == found[k].id
        invariant found + J.Expired(pending[i..], cutoff) == J.Expired(pending, cutoff)
      {
        ExpiredStep(pending, i, cutoff);
        if pending[i].halves.bufferedAtMs <= cutoff {
          expired := expired + [pending[i].id];
          found := found + [pending[i]];
        }
        i := i + 1;
      }
      ExpiredEnd(cutoff);
      assert pending[i..] == [] && found + [] == found;
    }
  }

  lemma ExpiredStep(p: J.Pending, i: nat, cutoff: int)
    requires i < |p|
    ensures J.Expired(p[i..], cutoff) == (if p[i].halves.bufferedAtMs <= cutoff then [p[i]] else []) + J.Expired(p[i + 1..], cutoff)
  {
    assert p[i..][1..] == p[i + 1..];
  }

  lemma ExpiredEnd(cutoff: int)
    ensures J.Expired([], cutoff) == []
  {
  }

  // An insert neither reads nor changes the buffer.
  lemma FlushIgnoresBuffer(st: J.State, p: J.Pending, h: J.Halves)
    ensures J.FlushSingle(st.(pending := p), h).(pending := st.pending) == J.FlushSingle(st, h)
  {
  }

  // Deleting the first expired key removes exactly that slot.
  lemma {:induction false} DeleteFront(p: J.Pending, cutoff: int, gone: J.Pending)
    requires KeysOnce(p) && J.Expired(p, cutoff) == gone && gone != []
    ensures J.Find(p, gone[0].id) == Some(gone[0].halves)
    ensures var p' := J.Without(p, gone[0].id);
      KeysOnce(p') && J.Expired(p', cutoff) == gone[1..] && J.Kept(p', cutoff) == J.Kept(p, cutoff)
    decreases |p|
  {
    WithoutOnce(p, gone[0].id);
    if p[0].halves.bufferedAtMs <= cutoff {
      assert gone[0] == p[0] && gone[1..] == J.Expired(p[1..], cutoff);
      WithoutAbsent(p[1..], p[0].id);
    } else {
      assert [] + J.Expired(p[1..], cutoff) == J.Expired(p[1..], cutoff);
      assert gone[0] in J.Expired(p[1..], cutoff) && gone[0] in p[1..];
      DeleteFront(p[1..], cutoff, gone);
      var tail := J.Without(p[1..], gone[0].id);
      assert J.Without(p, gone[0].id) == [p[0]] + tail && ([p[0]] + tail)[1..] == tail;
    }
  }

  ghost predicate KeysOnce(p: J.Pending)
    decreases |p|
  {
    p == [] || (KeysOnce(p[1..]) && forall s <- p[1..] :: s.id != p[0].id)
  }

  lemma {:induction false} WithoutOnce(p: J.Pending, id: J.RequestId)
    requires KeysOnce(p)
    ensures KeysOnce(J.Without(p, id))
    decreases |p|
  {
    if p != [] {
      WithoutOnce(p[1..], id);
      var tail := J.Without(p[1..], id);
      assert ([p[0]] + tail)[1..] == tail;
    }
  }

  lemma {:induction false} PutOnce(p: J.Pending, id: J.RequestId, h: J.Halves)
    requires KeysOnce(p)
    ensures KeysOnce(J.Put(p, id, h))
    decreases |p|
  {
    var r := J.Put(p, id, h);
    if p != [] {
      PutOnce(p[1..], id, h);
      assert r[1..] == if p[0].id == id then p[1..] else J.Put(p[1..], id, h);
    }
  }

  lemma {:induction false} WithoutAbsent(p: J.Pending, id: J.RequestId)
    requires forall s <- p :: s.id != id
    ensures J.Without(p, id) == p
    decreases |p|
  {
    if p != [] {
      WithoutAbsent(p[1..], id);
    }
  }

  lemma {:induction false} NothingLeft(p: J.Pending, cutoff: int)
    ensures J.Expired(p, cutoff) == [] ==> J.Kept(p, cutoff) == p
    decreases |p|
  {
    if p != [] {
      NothingLeft(p[1..], cutoff);
    }
  }
}
