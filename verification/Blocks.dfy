/** Five-hour usage blocks (core/src/readmodels/blocks.ts).

`Blocks` is the order-free meaning of a list of entries: the earliest entry opens a window, every
entry before the window's end belongs to it, the others make the following blocks.  The loop of
`AssembleBlocks` is proved against it.
*/
module Blocks {
  import opened Base
  import opened Sorting

  const HOUR_MS := 3_600_000
  const BLOCK_MS := 18_000_000

  datatype Entry = Entry(ts: int, tokens: int)
  datatype Block = Block(start: int, end: int, tokens: int, count: nat, first: int, last: int)

  // JavaScript's remainder takes the sign of the dividend.
  function JsRem(a: int, b: int): int
    requires b > 0
  {
    if a >= 0 then a % b else -((-a) % b)
  }

  function FloorToUtcHour(ts: int): (r: int)
    ensures r % HOUR_MS == 0
    ensures -HOUR_MS < ts - r < HOUR_MS
  {
    ts - JsRem(ts, HOUR_MS)
  }

  // The timestamps that the floor really floors.
  predicate Exact(ts: int) { ts >= 0 || ts % HOUR_MS == 0 }

  /** The floor is the start of the hour holding ts exactly when ts is not before the epoch, or is
      itself a whole hour. */
  lemma FloorIsHourStart(ts: int)
    ensures FloorToUtcHour(ts) <= ts < FloorToUtcHour(ts) + HOUR_MS <==> Exact(ts)
    ensures Exact(ts) ==> forall h: int | h % HOUR_MS == 0 && h <= ts :: h <= FloorToUtcHour(ts)
  {
  }

  ghost predicate AllExact(es: seq<Entry>) { forall e <- es :: Exact(e.ts) }

  // The timestamps that open a block are exact; those that join one need not be.
  ghost predicate OpenersExact(es: seq<Entry>)
    decreases |es|
  {
    es == [] || (LaterIsFewer(es); Exact(Least(es)) && OpenersExact(From(es, FirstBlock(es).end)))
  }

  // ---- the meaning ---------------------------------------------------------------------------------

  function Before(es: seq<Entry>, end: int): seq<Entry> {
    if es == [] then [] else (if es[0].ts < end then [es[0]] else []) + Before(es[1..], end)
  }

  function From(es: seq<Entry>, start: int): seq<Entry> {
    if es == [] then [] else (if es[0].ts >= start then [es[0]] else []) + From(es[1..], start)
  }

  function Tokens(es: seq<Entry>): int {
    if es == [] then 0 else es[0].tokens + Tokens(es[1..])
  }

  function Least(es: seq<Entry>): int
    requires es != []
  {
    if |es| == 1 then es[0].ts
    else
      var m := Least(es[1..]);
      if es[0].ts < m then es[0].ts else m
  }

  function Greatest(es: seq<Entry>, floor: int): int {
    if es == [] then floor else Greatest(es[1..], if es[0].ts > floor then es[0].ts else floor)
  }

  ghost function Blocks(es: seq<Entry>): seq<Block>
    decreases |es|
  {
    if es == [] then []
    else
      LaterIsFewer(es);
      [FirstBlock(es)] + Blocks(From(es, FirstBlock(es).end))
  }

  ghost function FirstBlock(es: seq<Entry>): Block
    requires es != []
  {
    var first := Least(es);
    var start := FloorToUtcHour(first);
    var inside := Before(es, start + BLOCK_MS);
    Block(start, start + BLOCK_MS, Tokens(inside), |inside|, first, Greatest(inside, first))
  }

  lemma {:induction false} LeastIs(es: seq<Entry>)
    requires es != []
    ensures exists k :: 0 <= k < |es| && es[k].ts == Least(es)
    ensures forall k | 0 <= k < |es| :: Least(es) <= es[k].ts
  {
    if |es| == 1 {
      assert es[0].ts == Least(es);
    } else {
      LeastIs(es[1..]);
      var k :| 0 <= k < |es[1..]| && es[1..][k].ts == Least(es[1..]);
      assert es[k + 1].ts == Least(es[1..]);
    }
  }

  lemma {:induction false} FromShrinks(es: seq<Entry>, start: int)
    ensures |From(es, start)| <= |es|
    ensures (exists k :: 0 <= k < |es| && es[k].ts < start) ==> |From(es, start)| < |es|
  {
    if es != [] {
      FromShrinks(es[1..], start);
      if k :| 0 <= k < |es| && es[k].ts < start {
        assert k > 0 ==> es[1..][k - 1].ts < start;
      }
    }
  }

  lemma LaterIsFewer(es: seq<Entry>)
    requires es != []
    ensures |From(es, FirstBlock(es).end)| < |es|
  {
    hide Before, From, Tokens, Greatest, Least;
    LeastIs(es);
    FromShrinks(es, FirstBlock(es).end);
  }

  // ---- the loop ------------------------------------------------------------------------------------

  ghost predicate Sorted(es: seq<Entry>) {
    forall i, j | 0 <= i < j < |es| :: es[i].ts <= es[j].ts
  }

  function ByTime(): (Entry, Entry) -> bool { (a: Entry, b: Entry) => a.ts <= b.ts }

  function Sort(es: seq<Entry>): (r: seq<Entry>)
    ensures forall x :: x in r <==> x in es
  {
    SortBy(es, ByTime())
  }

  lemma SortIsOrdered(es: seq<Entry>)
    ensures Sorted(Sort(es)) && multiset(Sort(es)) == multiset(es)
  {
    SortSorts(es, ByTime());
    forall i, j | 0 <= i < j < |Sort(es)| ensures Sort(es)[i].ts <= Sort(es)[j].ts {
      assert ByTime()(Sort(es)[i], Sort(es)[j]);
    }
  }

  function Open(e: Entry): Block {
    var start := FloorToUtcHour(e.ts);
    Block(start, start + BLOCK_MS, e.tokens, 1, e.ts, e.ts)
  }

  predicate Joins(cur: Block, e: Entry) { e.ts < cur.end && e.ts - cur.last < BLOCK_MS }

  function Joined(cur: Block, e: Entry): Block {
    cur.(tokens := cur.tokens + e.tokens, count := cur.count + 1, last := e.ts)
  }

  // The blocks still to come when `cur` is open and `rest` is unread.
  ghost function Continue(cur: Block, rest: seq<Entry>): seq<Block> {
    var inside := Before(rest, cur.end);
    [cur.(tokens := cur.tokens + Tokens(inside), count := cur.count + |inside|, last := Greatest(inside, cur.last))]
      + Blocks(From(rest, cur.end))
  }

  lemma {:induction false} NoneBefore(es: seq<Entry>, end: int)
    requires forall k | 0 <= k < |es| :: es[k].ts >= end
    ensures Before(es, end) == [] && From(es, end) == es
  {
    if es != [] {
      NoneBefore(es[1..], end);
    }
  }

  lemma SplitHead(e: Entry, rest: seq<Entry>, end: int)
    ensures Before([e] + rest, end) == (if e.ts < end then [e] else []) + Before(rest, end)
    ensures From([e] + rest, end) == (if e.ts >= end then [e] else []) + From(rest, end)
  {
    assert ([e] + rest)[1..] == rest;
  }

  lemma TokensHead(e: Entry, rest: seq<Entry>)
    ensures Tokens([e] + rest) == e.tokens + Tokens(rest)
  {
    assert ([e] + rest)[1..] == rest;
  }

  lemma GreatestHead(e: Entry, rest: seq<Entry>, floor: int)
    requires floor <= e.ts
    ensures Greatest([e] + rest, floor) == Greatest(rest, e.ts)
  {
    assert ([e] + rest)[1..] == rest;
  }

  lemma OpenContinues(rest: seq<Entry>)
    requires rest != [] && Sorted(rest)
    ensures Blocks(rest) == Continue(Open(rest[0]), rest[1..])
  {
    hide Before, From, Tokens, Greatest, Least, FloorToUtcHour;
    var e := rest[0];
    LeastIs(rest);
    var end := Open(e).end;
    assert e.ts < end by { FloorNear(e.ts); }
    assert rest == [e] + rest[1..];
    SplitHead(e, rest[1..], end);
    TokensHead(e, Before(rest[1..], end));
    GreatestHead(e, Before(rest[1..], end), e.ts);
    assert Least(rest) == e.ts;
    assert From(rest, end) == From(rest[1..], end);
  }

  lemma FloorNear(ts: int)
    ensures ts < FloorToUtcHour(ts) + HOUR_MS
  {
  }

  lemma JoinContinues(cur: Block, rest: seq<Entry>)
    requires rest != [] && rest[0].ts < cur.end && cur.last <= rest[0].ts
    ensures Continue(cur, rest) == Continue(Joined(cur, rest[0]), rest[1..])
  {
    hide Before, From, Tokens, Greatest, Blocks;
    var e := rest[0];
    assert rest == [e] + rest[1..];
    SplitHead(e, rest[1..], cur.end);
    TokensHead(e, Before(rest[1..], cur.end));
    GreatestHead(e, Before(rest[1..], cur.end), cur.last);
    assert From(rest, cur.end) == From(rest[1..], cur.end);
  }

  // The gap test only ever fails together with the window test.
  lemma GapTestIsImplied(cur: Block, e: Entry)
    requires Pending(cur)
    ensures Joins(cur, e) <==> e.ts < cur.end
  {
  }

  lemma EmptySums(floor: int)
    ensures Tokens([]) == 0 && Greatest([], floor) == floor
  {
  }

  lemma NothingContinues(cur: Block)
    ensures Continue(cur, []) == [cur]
  {
  }

  lemma CloseContinues(cur: Block, rest: seq<Entry>)
    requires rest != [] && Sorted(rest) && rest[0].ts >= cur.end
    ensures Continue(cur, rest) == [cur] + Continue(Open(rest[0]), rest[1..])
  {
    hide Blocks, Before, From, Tokens, Greatest, FloorToUtcHour;
    assert Tokens([]) == 0 && Greatest([], cur.last) == cur.last by { EmptySums(cur.last); }
    NoneBefore(rest, cur.end);
    OpenContinues(rest);
  }

  // The code's reading of a sorted list, for every timestamp.
  function Closed(current: Option<Block>): seq<Block> { if current.Some? then [current.value] else [] }

  function Assembled(current: Option<Block>, rest: seq<Entry>): seq<Block>
    decreases |rest|
  {
    if rest == [] then Closed(current)
    else if current.Some? && Joins(current.value, rest[0]) then Assembled(Some(Joined(current.value, rest[0])), rest[1..])
    else Closed(current) + Assembled(Some(Open(rest[0])), rest[1..])
  }

  /** assembleBlocks: one pass over the sorted entries.  Where the floor is exact for the timestamps
      that open a block, the result is the order-free meaning. */
  method AssembleBlocks(entries: seq<Entry>) returns (blocks: seq<Block>)
    ensures blocks == Assembled(None, Sort(entries))
    ensures OpenersExact(entries) ==> blocks == Blocks(entries)
  {
    hide Sort, Open, Joins, Joined, Blocks, OpenersExact;
    var sorted := Sort(entries);
    blocks := [];
    var current: Option<Block> := None;
    var i := 0;
    while i < |sorted|
      invariant 0 <= i <= |sorted|
      invariant blocks + Assembled(current, sorted[i..]) == Assembled(None, sorted)
    {
      var entry := sorted[i];
      assert sorted[i..][0] == entry && sorted[i..][1..] == sorted[i + 1..];
      if current.Some? && Joins(current.value, entry) {
        current := Some(Joined(current.value, entry));
      } else {
        if current.Some? {
          blocks := blocks + [current.value];
        }
        current := Some(Open(entry));
      }
      i := i + 1;
    }
    if current.Some? {
      blocks := blocks + [current.value];
    }
    if OpenersExact(entries) {
      AssembledIsBlocks(entries);
    }
  }

  lemma AssembledIsBlocks(entries: seq<Entry>)
    requires OpenersExact(entries)
    ensures Assembled(None, Sort(entries)) == Blocks(entries)
  {
    hide Blocks, Sort, Exact, Assembled, OpenersExact;
    SortIsOrdered(entries);
    SameBlocks(Sort(entries), entries);
    SameOpeners(Sort(entries), entries);
    AssembledContinues(None, Sort(entries));
  }

  // The loop from any point on yields the blocks still to come.
  lemma {:induction false} AssembledContinues(current: Option<Block>, rest: seq<Entry>)
    requires Sorted(rest) && Follows(current, rest)
    requires if current.Some? then Pending(current.value) && OpenersExact(From(rest, current.value.end)) else OpenersExact(rest)
    ensures current.Some? ==> Assembled(current, rest) == Continue(current.value, rest)
    ensures current.None? ==> Assembled(current, rest) == Blocks(rest)
    decreases |rest|
  {
    hide Blocks, Continue, FloorToUtcHour, Exact, OpenersExact, From;
    if rest == [] {
      NoBlocks();
      if current.Some? {
        NothingContinues(current.value);
      }
    } else {
      var e := rest[0];
      LoopStep(current, rest);
      if current.Some? && Joins(current.value, e) {
        FromTail(rest, current.value.end);
        AssembledContinues(Some(Joined(current.value, e)), rest[1..]);
      } else {
        OpenerStep(current, rest);
        OpenPends(e);
        AssembledContinues(Some(Open(e)), rest[1..]);
      }
    }
  }

  // The open block's last entry is not after any unread one.
  ghost predicate Follows(current: Option<Block>, rest: seq<Entry>) {
    current.Some? ==> forall k | 0 <= k < |rest| :: current.value.last <= rest[k].ts
  }

  lemma FromTail(rest: seq<Entry>, end: int)
    requires rest != [] && rest[0].ts < end
    ensures From(rest, end) == From(rest[1..], end)
  {
    assert [] + From(rest[1..], end) == From(rest[1..], end);
  }

  // The entry that opens the next block, and the openers after it.
  lemma OpenerStep(current: Option<Block>, rest: seq<Entry>)
    requires rest != [] && Sorted(rest)
    requires current.Some? ==> Pending(current.value) && !Joins(current.value, rest[0])
    ensures current.Some? ==> From(rest, current.value.end) == rest
    ensures OpenersExact(rest) <==> Exact(rest[0].ts) && OpenersExact(From(rest[1..], Open(rest[0]).end))
  {
    hide Exact, From, FloorToUtcHour, Before, Tokens, Greatest, Least;
    var e := rest[0];
    if current.Some? {
      GapTestIsImplied(current.value, e);
      NoneBefore(rest, current.value.end);
    }
    LeastIs(rest);
    assert Least(rest) == e.ts;
    FloorNear(e.ts);
    FromTail(rest, Open(e).end);
  }

  // An open block whose last entry is inside its window.
  ghost predicate Pending(cur: Block) {
    cur.start <= cur.last && cur.end == cur.start + BLOCK_MS
  }

  lemma NoBlocks()
    ensures Blocks([]) == []
  {
  }

  lemma OpenPends(e: Entry)
    requires Exact(e.ts)
    ensures Pending(Open(e))
  {
    FloorIsHourStart(e.ts);
  }

  // One turn of the loop keeps the blocks still to come.
  lemma LoopStep(current: Option<Block>, rest: seq<Entry>)
    requires rest != [] && Sorted(rest)
    requires current.Some? ==> Pending(current.value) && current.value.last <= rest[0].ts
    ensures current.None? ==> Blocks(rest) == Continue(Open(rest[0]), rest[1..])
    ensures current.Some? ==>
      Continue(current.value, rest) ==
        if Joins(current.value, rest[0]) then Continue(Joined(current.value, rest[0]), rest[1..])
        else [current.value] + Continue(Open(rest[0]), rest[1..])
  {
    hide Blocks, Continue, FloorToUtcHour, Exact;
    if current.None? {
      OpenContinues(rest);
    } else {
      GapTestIsImplied(current.value, rest[0]);
      if Joins(current.value, rest[0]) {
        JoinContinues(current.value, rest);
      } else {
        CloseContinues(current.value, rest);
      }
    }
  }

  // ---- the order of the entries does not matter ------------------------------------------------------

  lemma {:induction false} TokensConcat(a: seq<Entry>, b: seq<Entry>)
    ensures Tokens(a + b) == Tokens(a) + Tokens(b)
  {
    if a == [] {
      assert a + b == b;
    } else {
      assert (a + b)[1..] == a[1..] + b;
      TokensConcat(a[1..], b);
    }
  }

  lemma {:induction false} SameTokens(a: seq<Entry>, b: seq<Entry>)
    requires multiset(a) == multiset(b)
    ensures Tokens(a) == Tokens(b) && |a| == |b|
  {
    hide Tokens;
    assert |multiset(a)| == |a| && |multiset(b)| == |b|;
    if a == [] {
      assert b == [];
    } else {
      var x, rest := a[0], a[1..];
      assert a == [x] + rest;
      assert x in multiset(b);
      var i :| 0 <= i < |b| && b[i] == x;
      Removal(b, i);
      var c := b[..i] + b[i + 1..];
      assert multiset(rest) == multiset(a) - multiset{x};
      SameTokens(rest, c);
      TokensConcat([x], rest);
    }
  }

  lemma Removal(b: seq<Entry>, i: nat)
    requires i < |b|
    ensures multiset(b[..i] + b[i + 1..]) == multiset(b) - multiset{b[i]}
    ensures Tokens(b) == Tokens([b[i]]) + Tokens(b[..i] + b[i + 1..])
  {
    hide Tokens;
    assert b == b[..i] + ([b[i]] + b[i + 1..]);
    TokensConcat(b[..i], b[i + 1..]);
    TokensConcat(b[..i], [b[i]] + b[i + 1..]);
    TokensConcat([b[i]], b[i + 1..]);
  }

  lemma {:induction false} SplitCounts(es: seq<Entry>, end: int, e: Entry)
    ensures multiset(Before(es, end))[e] == if e.ts < end then multiset(es)[e] else 0
    ensures multiset(From(es, end))[e] == if e.ts >= end then multiset(es)[e] else 0
  {
    if es != [] {
      assert es == [es[0]] + es[1..];
      SplitCounts(es[1..], end, e);
    }
  }

  lemma SameSplits(a: seq<Entry>, b: seq<Entry>, end: int)
    requires multiset(a) == multiset(b)
    ensures multiset(Before(a, end)) == multiset(Before(b, end))
    ensures multiset(From(a, end)) == multiset(From(b, end))
  {
    forall e ensures multiset(Before(a, end))[e] == multiset(Before(b, end))[e] && multiset(From(a, end))[e] == multiset(From(b, end))[e] {
      SplitCounts(a, end, e);
      SplitCounts(b, end, e);
    }
  }

  lemma {:induction false} GreatestIs(es: seq<Entry>, floor: int)
    ensures Greatest(es, floor) == floor || exists k :: 0 <= k < |es| && es[k].ts == Greatest(es, floor)
    ensures floor <= Greatest(es, floor) && forall k | 0 <= k < |es| :: es[k].ts <= Greatest(es, floor)
  {
    if es != [] {
      var f := if es[0].ts > floor then es[0].ts else floor;
      GreatestIs(es[1..], f);
      if k :| 0 <= k < |es[1..]| && es[1..][k].ts == Greatest(es[1..], f) {
        assert es[k + 1].ts == Greatest(es, floor);
      }
    }
  }

  // The position in b of the entry at position k of a.
  lemma PositionOf(a: seq<Entry>, b: seq<Entry>, k: nat)
    requires multiset(a) == multiset(b) && k < |a|
    ensures exists j :: 0 <= j < |b| && b[j] == a[k]
  {
    assert a[k] in multiset(a);
    assert a[k] in multiset(b);
  }

  lemma LeastBelow(a: seq<Entry>, b: seq<Entry>)
    requires multiset(a) == multiset(b) && a != [] && b != []
    ensures Least(b) <= Least(a)
  {
    hide Least;
    LeastIs(a);
    LeastIs(b);
    var k :| 0 <= k < |a| && a[k].ts == Least(a);
    PositionOf(a, b, k);
  }

  lemma GreatestAbove(a: seq<Entry>, b: seq<Entry>, floor: int)
    requires multiset(a) == multiset(b)
    ensures Greatest(a, floor) <= Greatest(b, floor)
  {
    hide Greatest;
    GreatestIs(a, floor);
    GreatestIs(b, floor);
    if k :| 0 <= k < |a| && a[k].ts == Greatest(a, floor) {
      PositionOf(a, b, k);
    }
  }

  lemma SameFirst(a: seq<Entry>, b: seq<Entry>)
    requires multiset(a) == multiset(b) && a != [] && b != []
    ensures FirstBlock(a) == FirstBlock(b)
  {
    hide Before, From, Tokens, Greatest, Least, FloorToUtcHour;
    LeastBelow(a, b);
    LeastBelow(b, a);
    var first := Least(a);
    var end := FloorToUtcHour(first) + BLOCK_MS;
    SameSplits(a, b, end);
    SameTokens(Before(a, end), Before(b, end));
    GreatestAbove(Before(a, end), Before(b, end), first);
    GreatestAbove(Before(b, end), Before(a, end), first);
  }

  /** The blocks depend on the bag of entries only. */
  lemma {:induction false} SameBlocks(a: seq<Entry>, b: seq<Entry>)
    requires multiset(a) == multiset(b)
    ensures Blocks(a) == Blocks(b)
    decreases |a|
  {
    hide From, FirstBlock;
    assert |multiset(a)| == |a| && |multiset(b)| == |b|;
    if a != [] {
      SameFirst(a, b);
      var end := FirstBlock(a).end;
      SameSplits(a, b, end);
      LaterIsFewer(a);
      SameBlocks(From(a, end), From(b, end));
    }
  }

  lemma {:induction false} SameOpeners(a: seq<Entry>, b: seq<Entry>)
    requires multiset(a) == multiset(b)
    ensures OpenersExact(a) <==> OpenersExact(b)
    decreases |a|
  {
    hide From, FirstBlock, Exact, Least;
    assert |multiset(a)| == |a| && |multiset(b)| == |b|;
    if a != [] {
      SameFirst(a, b);
      LeastBelow(a, b);
      LeastBelow(b, a);
      var end := FirstBlock(a).end;
      SameSplits(a, b, end);
      LaterIsFewer(a);
      SameOpeners(From(a, end), From(b, end));
    }
  }

  // ---- what the blocks are -----------------------------------------------------------------------------

  // The entries of one window.
  function Within(es: seq<Entry>, start: int, end: int): seq<Entry> { Before(From(es, start), end) }

  // A block says exactly what its window holds.
  ghost predicate Describes(b: Block, es: seq<Entry>) {
    var w := Within(es, b.start, b.end);
    && b.start % 3_600_000 == 0 && b.end == b.start + 5 * 3_600_000
    && w != [] && b.tokens == Tokens(w) && b.count == |w|
    && b.first == Least(w) && b.last == Greatest(w, b.first)
    && b.start == FloorToUtcHour(b.first)
  }

  lemma {:induction false} WithinFrom(es: seq<Entry>, cut: int, start: int, end: int)
    requires cut <= start
    ensures Within(From(es, cut), start, end) == Within(es, start, end)
  {
    hide Before, From;
    if es == [] {
      SplitNone(cut, start, end);
    } else {
      var e, rest := es[0], es[1..];
      assert es == [e] + rest;
      WithinFrom(rest, cut, start, end);
      SplitHead(e, rest, cut);
      SplitHead(e, rest, start);
      SplitHead(e, From(rest, cut), start);
      SplitHead(e, From(rest, start), end);
      if e.ts < start {
        assert From(es, start) == From(rest, start);
        if e.ts < cut {
          assert From(es, cut) == From(rest, cut);
        } else {
          assert From(From(es, cut), start) == From(From(rest, cut), start);
        }
      } else {
        SplitHead(e, From(From(rest, cut), start), end);
      }
    }
  }

  lemma SplitNone(cut: int, start: int, end: int)
    ensures From([], cut) == [] && From([], start) == [] && Before([], end) == []
  {
  }

  lemma {:induction false} MemberSplits(es: seq<Entry>, end: int, e: Entry)
    requires e in es
    ensures e in if e.ts < end then Before(es, end) else From(es, end)
  {
    if e != es[0] {
      MemberSplits(es[1..], end, e);
    }
  }

  lemma {:induction false} SplitMember(es: seq<Entry>, end: int, e: Entry)
    ensures e in Before(es, end) ==> e in es && e.ts < end
    ensures e in From(es, end) ==> e in es && e.ts >= end
  {
    if es != [] {
      SplitMember(es[1..], end, e);
    }
  }

  lemma LeastBefore(es: seq<Entry>, end: int)
    requires es != [] && Least(es) < end
    ensures Before(es, end) != [] && Least(Before(es, end)) == Least(es)
  {
    hide Least, Before;
    LeastIs(es);
    var k :| 0 <= k < |es| && es[k].ts == Least(es);
    var w := Before(es, end);
    MemberSplits(es, end, es[k]);
    var i :| 0 <= i < |w| && w[i] == es[k];
    LeastIs(w);
    var j :| 0 <= j < |w| && w[j].ts == Least(w);
    SplitMember(es, end, w[j]);
  }

  lemma FirstDescribes(es: seq<Entry>)
    requires es != [] && Exact(Least(es))
    ensures Describes(FirstBlock(es), es)
    ensures FirstBlock(es).start <= Least(es)
  {
    hide Before, From, Tokens, Greatest, Least, FloorToUtcHour;
    LeastIs(es);
    var first := Least(es);
    assert Exact(first);
    FloorIsHourStart(first);
    assert FloorToUtcHour(first) % HOUR_MS == 0;
    NoneBefore(es, FloorToUtcHour(first));
    LeastBefore(es, FloorToUtcHour(first) + BLOCK_MS);
  }

  // Every block starts at or after `lo` and the one before it has ended by then.
  ghost predicate Chained(bs: seq<Block>, lo: int) {
    bs == [] || (lo <= bs[0].start < bs[0].end && Chained(bs[1..], bs[0].end))
  }

  lemma LaterFrom(es: seq<Entry>, end: int)
    ensures forall e <- From(es, end) :: e in es && e.ts >= end
  {
    hide From;
    forall e | e in From(es, end) ensures e in es && e.ts >= end {
      SplitMember(es, end, e);
    }
  }

  /** Timestamps that are not before the epoch always qualify. */
  lemma {:induction false} AllExactOpens(es: seq<Entry>)
    requires AllExact(es)
    ensures OpenersExact(es)
    decreases |es|
  {
    hide From, FirstBlock, Exact, Least;
    if es != [] {
      LeastIs(es);
      LaterIsFewer(es);
      LaterFrom(es, FirstBlock(es).end);
      AllExactOpens(From(es, FirstBlock(es).end));
    }
  }

  lemma WholeHourBelow(lo: int, first: int)
    requires lo % HOUR_MS == 0 && Exact(first) && lo <= first
    ensures lo <= FloorToUtcHour(first)
  {
    FloorIsHourStart(first);
  }

  lemma {:induction false} BlocksChained(es: seq<Entry>, lo: int)
    requires OpenersExact(es) && lo % HOUR_MS == 0 && forall e <- es :: lo <= e.ts
    ensures Chained(Blocks(es), lo)
    decreases |es|
  {
    hide From, FirstBlock, Exact, Least, FloorToUtcHour, Describes;
    if es != [] {
      var b := FirstBlock(es);
      FirstShape(es, lo);
      LaterIsFewer(es);
      LaterFrom(es, b.end);
      BlocksChained(From(es, b.end), b.end);
      assert Blocks(es)[1..] == Blocks(From(es, b.end));
    }
  }

  lemma FirstShape(es: seq<Entry>, lo: int)
    requires es != [] && Exact(Least(es)) && lo % HOUR_MS == 0 && forall e <- es :: lo <= e.ts
    ensures var b := FirstBlock(es); lo <= b.start < b.end && b.end % HOUR_MS == 0
  {
    hide Before, From, Tokens, Greatest, Least, FloorToUtcHour;
    LeastIs(es);
    assert Exact(Least(es));
    WholeHourBelow(lo, Least(es));
    assert FirstBlock(es).start % HOUR_MS == 0;
  }

  lemma {:induction false} ChainedApart(bs: seq<Block>, lo: int, i: nat, j: nat)
    requires Chained(bs, lo) && i < j < |bs|
    ensures bs[i].start < bs[i].end <= bs[j].start
    decreases j
  {
    if i > 0 {
      ChainedApart(bs[1..], bs[0].end, i - 1, j - 1);
    } else if j > 1 {
      ChainedApart(bs[1..], bs[0].end, 0, j - 1);
    }
  }

  // The earlier of two blocks ends before the later one starts.
  lemma BlocksApart(es: seq<Entry>, i: nat, j: nat)
    requires OpenersExact(es) && i < j < |Blocks(es)|
    ensures Blocks(es)[i].end <= Blocks(es)[j].start
  {
    hide Exact, Blocks, Least;
    if es == [] {
      NoBlocks();
    }
    LeastIs(es);
    var lo := FloorToUtcHour(Least(es));
    assert Exact(Least(es));
    FloorIsHourStart(Least(es));
    BlocksChained(es, lo);
    ChainedApart(Blocks(es), lo, i, j);
  }

  lemma {:induction false} BlocksDescribe(es: seq<Entry>, k: nat)
    requires OpenersExact(es) && k < |Blocks(es)|
    ensures Describes(Blocks(es)[k], es)
    decreases k
  {
    hide From, FirstBlock, Exact, FloorToUtcHour, Describes;
    var first := FirstBlock(es);
    FirstDescribes(es);
    if k > 0 {
      LaterFrom(es, first.end);
      BlocksDescribe(From(es, first.end), k - 1);
      BlocksApart(es, 0, k);
      DescribesMore(Blocks(es)[k], es, first.end);
    }
  }

  lemma DescribesMore(b: Block, es: seq<Entry>, cut: int)
    requires Describes(b, From(es, cut)) && cut <= b.start
    ensures Describes(b, es)
  {
    hide Before, From, Tokens, Greatest, Least, FloorToUtcHour;
    WithinFrom(es, cut, b.start, b.end);
  }

  lemma {:induction false} BlocksCover(es: seq<Entry>, e: Entry)
    requires OpenersExact(es) && e in es
    ensures exists k :: 0 <= k < |Blocks(es)| && Blocks(es)[k].start <= e.ts < Blocks(es)[k].end
    decreases |es|
  {
    hide From, FirstBlock, Exact, FloorToUtcHour, Describes, Least;
    var first := FirstBlock(es);
    FirstDescribes(es);
    if e.ts < first.end {
      LeastIs(es);
      assert Blocks(es)[0].start <= e.ts;
    } else {
      MemberSplits(es, first.end, e);
      LaterFrom(es, first.end);
      LaterIsFewer(es);
      var rest := Blocks(From(es, first.end));
      BlocksCover(From(es, first.end), e);
      var k :| 0 <= k < |rest| && rest[k].start <= e.ts < rest[k].end;
      assert Blocks(es)[k + 1] == rest[k];
    }
  }

  function TotalTokens(bs: seq<Block>): int { if bs == [] then 0 else bs[0].tokens + TotalTokens(bs[1..]) }

  function TotalCount(bs: seq<Block>): nat { if bs == [] then 0 else bs[0].count + TotalCount(bs[1..]) }

  lemma {:induction false} SplitSums(es: seq<Entry>, end: int)
    ensures Tokens(es) == Tokens(Before(es, end)) + Tokens(From(es, end))
    ensures |es| == |Before(es, end)| + |From(es, end)|
  {
    if es != [] {
      var e, rest := es[0], es[1..];
      SplitSums(rest, end);
      TokensHead(e, Before(rest, end));
      TokensHead(e, From(rest, end));
      assert [] + Before(rest, end) == Before(rest, end) && [] + From(rest, end) == From(rest, end);
    }
  }

  lemma {:induction false} BlocksConserve(es: seq<Entry>)
    ensures TotalTokens(Blocks(es)) == Tokens(es) && TotalCount(Blocks(es)) == |es|
    decreases |es|
  {
    if es != [] {
      hide Before, From, Tokens, Greatest, Least, FloorToUtcHour;
      var first := FirstBlock(es);
      SplitSums(es, first.end);
      LaterIsFewer(es);
      BlocksConserve(From(es, first.end));
      assert Blocks(es)[1..] == Blocks(From(es, first.end));
    }
  }

  /** The whole reconstruction, wherever the opening timestamps are exact.  Each block is hour-aligned, five hours long and reports exactly the
      entries of its window; the windows are ordered and disjoint; every entry is in one of them;
      tokens and entries are conserved. */
  lemma BlocksAreRight(es: seq<Entry>)
    requires OpenersExact(es)
    ensures forall b <- Blocks(es) :: Describes(b, es)
    ensures forall i, j | 0 <= i < j < |Blocks(es)| :: Blocks(es)[i].end <= Blocks(es)[j].start
    ensures forall e <- es :: exists k :: 0 <= k < |Blocks(es)| && Blocks(es)[k].start <= e.ts < Blocks(es)[k].end
    ensures TotalTokens(Blocks(es)) == Tokens(es) && TotalCount(Blocks(es)) == |es|
  {
    hide Blocks, Describes, Exact, Tokens, TotalTokens, TotalCount;
    forall b | b in Blocks(es) ensures Describes(b, es) {
      var k :| 0 <= k < |Blocks(es)| && Blocks(es)[k] == b;
      BlocksDescribe(es, k);
    }
    forall i, j | 0 <= i < j < |Blocks(es)| ensures Blocks(es)[i].end <= Blocks(es)[j].start {
      BlocksApart(es, i, j);
    }
    forall e | e in es ensures exists k :: 0 <= k < |Blocks(es)| && Blocks(es)[k].start <= e.ts < Blocks(es)[k].end {
      BlocksCover(es, e);
    }
    BlocksConserve(es);
  }

  // ---- the active block ----------------------------------------------------------------------------------

  function ActiveBlock(blocks: seq<Block>, now: int): Option<Block> {
    if blocks == [] then None
    else
      var last := blocks[|blocks| - 1];
      if now < last.start || now >= last.end || now - last.last >= BLOCK_MS then None else Some(last)
  }

  /** The active block is the one block whose window holds `now`, if that is the last one: the
      five-hour-gap test adds nothing to the window test, and no earlier block can hold `now`. */
  lemma ActiveIsLastWindow(es: seq<Entry>, now: int, b: Block)
    requires OpenersExact(es)
    ensures ActiveBlock(Blocks(es), now) == Some(b) <==>
      b in Blocks(es) && b.start <= now < b.end && forall e <- es :: e.ts < b.end
  {
    hide Blocks, Describes, OpenersExact;
    var bs := Blocks(es);
    if bs != [] {
      var n := |bs| - 1;
      BlocksDescribe(es, n);
      DescribedLast(bs[n], es);
      forall e | e in es ensures e.ts < bs[n].end { BeforeLastEnd(es, e); }
      if b in bs && b != bs[n] {
        var k :| 0 <= k < |bs| && bs[k] == b;
        BlocksApart(es, k, n);
      }
    }
  }

  lemma BeforeLastEnd(es: seq<Entry>, e: Entry)
    requires OpenersExact(es) && e in es
    ensures Blocks(es) != [] && e.ts < Blocks(es)[|Blocks(es)| - 1].end
  {
    hide Blocks, Describes, OpenersExact;
    var bs := Blocks(es);
    BlocksCover(es, e);
    var k :| 0 <= k < |bs| && bs[k].start <= e.ts < bs[k].end;
    if k < |bs| - 1 {
      BlocksApart(es, k, |bs| - 1);
      BlocksDescribe(es, |bs| - 1);
      DescribedLast(bs[|bs| - 1], es);
    }
  }

  lemma DescribedLast(b: Block, es: seq<Entry>)
    requires Describes(b, es)
    ensures b.start <= b.last < b.end == b.start + BLOCK_MS
    ensures exists e <- es :: e.ts == b.last
  {
    hide Before, From, Tokens, Greatest, Least, FloorToUtcHour, Exact;
    var w := Within(es, b.start, b.end);
    LeastIs(w);
    GreatestIs(w, b.first);
    var i :| 0 <= i < |w| && w[i].ts == b.last;
    SplitMember(From(es, b.start), b.end, w[i]);
    SplitMember(es, b.start, w[i]);
  }

  // ---- exactly when ---------------------------------------------------------------------------------------

  ghost predicate Floored(b: Block) { b.start == FloorToUtcHour(b.first) && b.end == b.start + BLOCK_MS }

  ghost predicate OpenedExactly(bs: seq<Block>) { forall b <- bs :: Exact(b.first) }

  lemma {:induction false} AssembledFloored(current: Option<Block>, rest: seq<Entry>)
    requires current.Some? ==> Floored(current.value)
    ensures forall b <- Assembled(current, rest) :: Floored(b)
    ensures current.Some? ==> Assembled(current, rest) != [] && Assembled(current, rest)[0].first == current.value.first
    decreases |rest|
  {
    hide FloorToUtcHour;
    if rest != [] {
      var e := rest[0];
      if current.Some? && Joins(current.value, e) {
        AssembledFloored(Some(Joined(current.value, e)), rest[1..]);
      } else {
        AssembledFloored(Some(Open(e)), rest[1..]);
      }
    }
  }

  // The loop's openers are those of the meaning, as long as they are exact.
  lemma {:induction false} AssembledOpeners(current: Option<Block>, rest: seq<Entry>)
    requires Sorted(rest) && Follows(current, rest)
    requires current.Some? ==> Pending(current.value) && Floored(current.value) && Exact(current.value.first)
    ensures OpenedExactly(Assembled(current, rest)) <==>
      OpenersExact(if current.Some? then From(rest, current.value.end) else rest)
    decreases |rest|
  {
    hide FloorToUtcHour, Exact, OpenersExact, From;
    if rest == [] {
      NoOpeners(if current.Some? then current.value.end else 0);
    } else {
      var e := rest[0];
      if current.Some? && Joins(current.value, e) {
        FromTail(rest, current.value.end);
        AssembledOpeners(Some(Joined(current.value, e)), rest[1..]);
      } else {
        OpenerStep(current, rest);
        AssembledFloored(Some(Open(e)), rest[1..]);
        var later := Assembled(Some(Open(e)), rest[1..]);
        ClosedExactly(current, later);
        if Exact(e.ts) {
          OpenPends(e);
          AssembledOpeners(Some(Open(e)), rest[1..]);
        } else {
          assert later[0] in later;
        }
      }
    }
  }

  lemma NoOpeners(end: int)
    ensures OpenersExact([]) && From([], end) == []
  {
  }

  lemma ClosedExactly(current: Option<Block>, later: seq<Block>)
    requires current.Some? ==> Exact(current.value.first)
    ensures OpenedExactly(Closed(current) + later) <==> OpenedExactly(later)
  {
    hide Exact;
    assert forall b <- later :: b in Closed(current) + later;
  }

  lemma AssembledOpenersIff(es: seq<Entry>)
    ensures OpenedExactly(Assembled(None, Sort(es))) <==> OpenersExact(es)
  {
    hide Sort, OpenersExact, OpenedExactly, Assembled;
    SortIsOrdered(es);
    SameOpeners(Sort(es), es);
    AssembledOpeners(None, Sort(es));
  }

  /** Every window holds the entry that opened it if and only if the opening timestamps are exact. */
  lemma WindowsHoldOpenersIff(es: seq<Entry>)
    ensures (forall b <- Assembled(None, Sort(es)) :: b.start <= b.first < b.end) <==> OpenersExact(es)
  {
    hide Sort, OpenersExact, Assembled, FloorToUtcHour, Exact;
    var bs := Assembled(None, Sort(es));
    AssembledOpenersIff(es);
    AssembledFloored(None, Sort(es));
    forall b | b in bs ensures b.start <= b.first < b.end <==> Exact(b.first) {
      FloorIsHourStart(b.first);
      FloorNear(b.first);
    }
  }

  /** The loop's result describes its entries, block by block, if and only if the opening timestamps are exact. */
  lemma DescribesIff(es: seq<Entry>)
    ensures (forall b <- Assembled(None, Sort(es)) :: Describes(b, es)) <==> OpenersExact(es)
  {
    hide Sort, OpenersExact, Assembled, Describes, Blocks;
    var bs := Assembled(None, Sort(es));
    if OpenersExact(es) {
      AssembledIsBlocks(es);
      BlocksAreRight(es);
    }
    WindowsHoldOpenersIff(es);
    forall b | b in bs && Describes(b, es) ensures b.start <= b.first < b.end {
      DescribedFirst(b, es);
    }
  }

  lemma DescribedFirst(b: Block, es: seq<Entry>)
    requires Describes(b, es)
    ensures b.start <= b.first < b.end
  {
    hide Before, From, Tokens, Greatest, Least, FloorToUtcHour;
    var w := Within(es, b.start, b.end);
    LeastIs(w);
    var i :| 0 <= i < |w| && w[i].ts == b.first;
    SplitMember(From(es, b.start), b.end, w[i]);
    SplitMember(es, b.start, w[i]);
  }

  /** Before the epoch the remainder is negative and the floor rounds up: two entries 5 h apart, given
      in either order, yield two overlapping blocks, the first starting after its own entry. */
  lemma NegativeTimestampsOverlap(swapped: bool)
    ensures var a, e := Entry(-1, 7), Entry(BLOCK_MS - 1, 9);
      var bs := Assembled(None, Sort(if swapped then [e, a] else [a, e]));
      |bs| == 2 && bs[0].first < bs[0].start < bs[1].start < bs[0].end
  {
    var a, e := Entry(-1, 7), Entry(BLOCK_MS - 1, 9);
    TwoSorted(a, e, swapped);
    var es := [a, e];
    assert es[1..] == [e];
    assert Assembled(Some(Open(a)), [e]) == [Open(a)] + Assembled(Some(Open(e)), []);
  }

  lemma TwoSorted(a: Entry, e: Entry, swapped: bool)
    requires a.ts < e.ts
    ensures Sort(if swapped then [e, a] else [a, e]) == [a, e]
  {
    SortTwo(a, e, ByTime());
    SortTwo(e, a, ByTime());
  }

  /** A negative timestamp that joins an open block does no harm. */
  lemma InexactMayJoin()
    ensures var es := [Entry(-HOUR_MS, 1), Entry(-1, 2)]; OpenersExact(es) && !AllExact(es)
  {
    var es := [Entry(-HOUR_MS, 1), Entry(-1, 2)];
    assert es[1..] == [es[1]] && [es[1]][1..] == [];
    assert es[1] in es && !Exact(es[1].ts);
    assert Least(es) == -HOUR_MS;
    var end := FirstBlock(es).end;
    assert end == -HOUR_MS + BLOCK_MS;
    FromTail(es, end);
    FromTail([es[1]], end);
  }
}
