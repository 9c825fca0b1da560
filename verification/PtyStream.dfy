/** The multi-consumer PTY output stream with ack watermarks (core/src/gateway/ptyStream.ts).

The ghost field `produced` is every byte the producer ever got accepted.  Each
consumer carries a ghost log of what its sink received since it was last
positioned, together with the ack watermark in force at each delivery.
*/
module PtyStream {
  import opened Base

  type Byte = b: int | 0 <= b < 256

  const PTY_FRAME_MAX_PAYLOAD_BYTES: nat := 1024 * 1024

  datatype Options = Options(
    capBytes: int,
    highWater: int,
    lowWater: int,
    deliveryWindowBytes: int,
    maxFramePayloadBytes: int)

  predicate LegalOptions(o: Options) {
    && 0 <= o.lowWater < o.highWater <= o.capBytes
    && 1 <= o.deliveryWindowBytes
    && 1 <= o.maxFramePayloadBytes <= PTY_FRAME_MAX_PAYLOAD_BYTES
  }

  datatype Chunk = Chunk(offset: nat, data: seq<Byte>) {
    function End(): nat { offset + |data| }
  }

  // One call of a sink's deliver(), with the ack watermark in force at that moment.
  datatype Delivery = Delivery(offset: nat, data: seq<Byte>, ackedThen: nat) {
    function End(): nat { offset + |data| }
  }

  datatype Lever = Pause | Resume
  datatype PushResult = Accepted | Ignored | Overflow(occupancy: nat)
  datatype StreamResult = Ok | WatermarkOutOfRange
  datatype AttachResult = Attached(consumer: Consumer) | Refused
  datatype CreateResult = Created(stream: PtySessionStream) | IllegalOptions

  // ---- what a log of deliveries says about the stream -------------------------

  ghost function Bytes(log: seq<Delivery>): seq<Byte> {
    if log == [] then [] else Bytes(log[..|log| - 1]) + log[|log| - 1].data
  }

  // The deliveries start at `from`, end at `to`, and leave no gap and no overlap.
  ghost predicate Contiguous(log: seq<Delivery>, from: nat, to: nat) {
    if log == [] then from == to
    else log[|log| - 1].End() == to && Contiguous(log[..|log| - 1], from, log[|log| - 1].offset)
  }

  // Byte exactness: the deliveries are contiguous and concatenate to produced[from..to).
  ghost predicate Delivers(log: seq<Delivery>, from: nat, to: nat, produced: seq<Byte>) {
    && from <= to <= |produced|
    && Contiguous(log, from, to)
    && Bytes(log) == produced[from..to]
  }

  lemma DeliversNothing(from: nat, produced: seq<Byte>, o: Options, acked: nat)
    requires from <= |produced|
    ensures Delivers([], from, from, produced) && Bounded([], o, acked)
  {
  }

  lemma DeliversMore(log: seq<Delivery>, from: nat, to: nat, produced: seq<Byte>, slice: seq<Byte>, ackedThen: nat)
    requires Delivers(log, from, to, produced)
    requires to + |slice| <= |produced| && slice == produced[to..to + |slice|]
    ensures Delivers(log + [Delivery(to, slice, ackedThen)], from, to + |slice|, produced)
  {
    assert (log + [Delivery(to, slice, ackedThen)])[..|log|] == log;
    assert produced[from..to] + produced[to..to + |slice|] == produced[from..to + |slice|];
  }

  lemma DeliversStill(log: seq<Delivery>, from: nat, to: nat, produced: seq<Byte>, more: seq<Byte>)
    requires Delivers(log, from, to, produced)
    ensures Delivers(log, from, to, produced + more)
  {
    assert (produced + more)[from..to] == produced[from..to];
  }

  ghost predicate Bounded(log: seq<Delivery>, o: Options, acked: nat) {
    forall d <- log ::
      && 1 <= |d.data| <= o.maxFramePayloadBytes
      && d.End() <= d.ackedThen + o.deliveryWindowBytes
      && d.ackedThen <= acked
  }

  ghost predicate Holds(c: Chunk, produced: seq<Byte>) {
    0 < |c.data| && c.End() <= |produced| && c.data == produced[c.offset..c.End()]
  }

  // The retained chunks tile the stream from at or below the floor up to the head.
  ghost predicate Tiled(chunks: seq<Chunk>, floor: nat, produced: seq<Byte>) {
    && (forall i | 0 <= i < |chunks| :: Holds(chunks[i], produced))
    && (forall i, j | 0 <= i < j < |chunks| && j == i + 1 :: chunks[i].End() == chunks[j].offset)
    && if chunks == [] then floor == |produced|
       else chunks[0].offset <= floor < chunks[0].End() && chunks[|chunks| - 1].End() == |produced|
  }

  // pause() and resume() calls strictly alternate, pause first.
  ghost predicate Alternating(levers: seq<Lever>) {
    && (forall i, j | 0 <= i < j < |levers| && j == i + 1 :: levers[i] != levers[j])
    && (levers != [] ==> levers[0] == Pause)
  }

  ghost predicate LastIsPause(levers: seq<Lever>) {
    levers != [] && levers[|levers| - 1] == Pause
  }

  lemma LeverPulled(levers: seq<Lever>, lever: Lever)
    requires Alternating(levers) && (lever == Pause <==> !LastIsPause(levers))
    ensures Alternating(levers + [lever])
  {
  }

  class Consumer {
    var deliveredTo: nat
    var acked: nat
    var detached: bool
    ghost var origin: nat              // where the last accepted attach or replay positioned it
    ghost var received: seq<Delivery>  // what its sink received since then

    constructor (from: nat)
      ensures deliveredTo == acked == origin == from && !detached && received == []
    {
      deliveredTo, acked, detached := from, from, false;
      origin, received := from, [];
    }

    // Byte exactness: the deliveries since the last positioning are produced[origin..deliveredTo).
    ghost predicate Exact(produced: seq<Byte>, o: Options)
      reads this
    {
      && origin <= deliveredTo <= |produced|
      && acked <= |produced|
      && Delivers(received, origin, deliveredTo, produced)
      && Bounded(received, o, acked)
    }
  }

  class PtySessionStream {
    const opts: Options
    var chunks: seq<Chunk>
    var head: nat
    var floor: nat
    var peakOccupancy: nat
    var paused: bool
    var exited: bool
    var consumers: set<Consumer>
    ghost var produced: seq<Byte>
    ghost var levers: seq<Lever>  // the producer's pause()/resume() calls so far

    function Occupancy(): int
      reads this
    {
      head - floor
    }

    // The part of the invariant that does not look at consumers.
    ghost predicate Retention()
      reads this
    {
      && LegalOptions(opts)
      && |produced| == head
      && floor <= head
      && Tiled(chunks, floor, produced)
      && Alternating(levers)
      && (!exited ==> (paused <==> LastIsPause(levers)))
      && Occupancy() <= opts.capBytes
      && Occupancy() <= peakOccupancy <= opts.capBytes
    }

    // Backpressure: at or above the high mark paused, at or below the low mark not.
    ghost predicate Watermarks()
      reads this
    {
      && (opts.highWater <= Occupancy() ==> paused)
      && (Occupancy() <= opts.lowWater ==> !paused)
    }

    ghost predicate Served(c: Consumer)
      reads this, c
    {
      && !c.detached
      && floor <= c.acked
      && c.Exact(produced, opts)
    }

    // Everything the window allows has been delivered.
    ghost predicate CaughtUp(c: Consumer)
      reads this, c
    {
      Min(head, c.acked + opts.deliveryWindowBytes) <= c.deliveredTo
    }

    ghost predicate Valid()
      reads this, consumers
    {
      && Retention()
      && Watermarks()
      && (forall c <- consumers :: Served(c) && CaughtUp(c))
      && (consumers != {} ==> exists c <- consumers :: c.acked == floor)
    }

    static method Create(o: Options) returns (r: CreateResult)
      ensures r.Created? <==>
        && 0 <= o.lowWater < o.highWater <= o.capBytes
        && 1 <= o.deliveryWindowBytes && 1 <= o.maxFramePayloadBytes <= 1_048_576
      ensures r.Created? ==>
        && fresh(r.stream) && r.stream.Valid() && r.stream.opts == o
        && r.stream.produced == [] && r.stream.levers == [] && r.stream.consumers == {} && !r.stream.exited
    {
      if LegalOptions(o) {
        var s := new PtySessionStream(o);
        r := Created(s);
      } else {
        r := IllegalOptions;
      }
    }

    constructor (o: Options)
      requires LegalOptions(o)
      ensures Valid() && opts == o && produced == [] && levers == [] && consumers == {} && !exited
    {
      opts, chunks, head, floor, peakOccupancy := o, [], 0, 0, 0;
      paused, exited, consumers := false, false, {};
      produced, levers := [], [];
    }

    /** Accept producer bytes.  A producer that pushes only while unpaused, in chunks
        of at most capBytes - highWater + 1, never meets the overflow error. */
    method Push(chunk: seq<Byte>) returns (r: PushResult)
      requires Valid()
      modifies this, consumers
      ensures Valid() && consumers == old(consumers) && floor == old(floor) && exited == old(exited)
      ensures r.Ignored? <==> old(exited) || chunk == []
      ensures r.Overflow? <==> !r.Ignored? && old(Occupancy()) + |chunk| > opts.capBytes
      ensures produced == if r.Accepted? then old(produced) + chunk else old(produced)
      ensures !old(exited) && !old(paused) && |chunk| <= opts.capBytes - opts.highWater + 1 ==> !r.Overflow?
      ensures paused == (old(paused) || (r.Accepted? && opts.highWater <= Occupancy()))
      ensures levers == if r.Accepted? && !old(paused) && opts.highWater <= Occupancy()
                        then old(levers) + [Pause] else old(levers)
      ensures peakOccupancy == if r.Accepted? then Max(old(peakOccupancy), Occupancy()) else old(peakOccupancy)
      ensures forall c <- consumers ::
        && c.acked == old(c.acked) && c.origin == old(c.origin)
        && old(c.received) <= c.received
        && c.deliveredTo == Max(old(c.deliveredTo), Min(head, c.acked + opts.deliveryWindowBytes))
    {
      hide Delivers, Bounded, Tiled, Alternating;
      if exited || |chunk| == 0 {
        return Ignored;
      }
      var next := head - floor + |chunk|;
      if next > opts.capBytes {
        return Overflow(next);
      }
      Retain(chunk);
      forall c <- consumers ensures Served(c) {
        DeliversStill(c.received, c.origin, c.deliveredTo, old(produced), chunk);
      }
      DeliverAll();
      r := Accepted;
    }

    method MarkExited()
      requires Valid()
      modifies this`exited
      ensures Valid() && exited
    {
      exited := true;
    }

    /** Attach at a watermark that is still retained. */
    method Attach(from: nat) returns (r: AttachResult)
      requires Valid()
      modifies this
      ensures Valid() && produced == old(produced) && exited == old(exited)
      ensures paused == (old(paused) && opts.lowWater < Occupancy())
      ensures levers == if old(paused) && !paused && !exited then old(levers) + [Resume] else old(levers)
      ensures r.Attached? <==> old(floor) <= from <= head
      ensures r.Refused? ==> consumers == old(consumers) && floor == old(floor) && levers == old(levers)
      ensures r.Attached? ==>
        && fresh(r.consumer) && consumers == old(consumers) + {r.consumer}
        && r.consumer.origin == from && r.consumer.acked == from
        && r.consumer.deliveredTo == Min(head, from + opts.deliveryWindowBytes)
        && floor == if old(consumers) == {} then from else old(floor)
    {
      hide Delivers, Bounded, Tiled, Alternating;
      if from < floor || from > head {
        return Refused;
      }
      DeliversNothing(from, produced, opts, from);
      var c := new Consumer(from);
      consumers := consumers + {c};
      assert Served(c);
      RecomputeFloor();
      DeliverMore(c);
      r := Attached(c);
    }

    /** Acknowledge: every byte below `watermark` is consumed. */
    method Ack(c: Consumer, watermark: nat) returns (r: StreamResult)
      requires Valid() && (c in consumers || c.detached)
      modifies this, c
      ensures Valid() && produced == old(produced) && consumers == old(consumers) && exited == old(exited)
      ensures paused == (old(paused) && opts.lowWater < Occupancy())
      ensures levers == if old(paused) && !paused && !exited then old(levers) + [Resume] else old(levers)
      ensures old(floor) <= floor
      ensures r.Ok? <==> !c.detached && watermark <= old(c.deliveredTo)
      ensures c.acked == if r.Ok? then Max(old(c.acked), watermark) else old(c.acked)
      ensures c.origin == old(c.origin) && old(c.received) <= c.received && c.detached == old(c.detached)
      ensures c.acked == old(c.acked) ==>
        floor == old(floor) && levers == old(levers) && c.received == old(c.received) && c.deliveredTo == old(c.deliveredTo)
      ensures r.Ok? ==> c.deliveredTo == Max(old(c.deliveredTo), Min(head, c.acked + opts.deliveryWindowBytes))
    {
      hide Delivers, Tiled, Alternating;
      if c.detached || watermark > c.deliveredTo {
        return WatermarkOutOfRange;
      }
      if watermark <= c.acked {
        return Ok;
      }
      c.acked := watermark;
      RecomputeFloor();
      DeliverMore(c);
      r := Ok;
    }

    /** Reposition an attached consumer.  Its ack watermark never regresses. */
    method ReplayFrom(c: Consumer, from: nat) returns (r: StreamResult)
      requires Valid() && (c in consumers || c.detached)
      modifies c
      ensures Valid() && c.acked == old(c.acked) && c.detached == old(c.detached)
      ensures r.Ok? <==> !c.detached && floor <= from <= head
      ensures r.Ok? ==> c.origin == from && c.deliveredTo == Max(from, Min(head, c.acked + opts.deliveryWindowBytes))
      ensures !r.Ok? ==> c.origin == old(c.origin) && c.received == old(c.received) && c.deliveredTo == old(c.deliveredTo)
    {
      hide Delivers, Bounded, Tiled, Alternating;
      if c.detached || from < floor || from > head {
        return WatermarkOutOfRange;
      }
      DeliversNothing(from, produced, opts, c.acked);
      c.deliveredTo := from;
      c.origin, c.received := from, [];
      DeliverMore(c);
      r := Ok;
    }

    method Detach(c: Consumer)
      requires Valid() && (c in consumers || c.detached)
      modifies this, c
      ensures Valid() && produced == old(produced) && exited == old(exited)
      ensures paused == (old(paused) && opts.lowWater < Occupancy())
      ensures levers == if old(paused) && !paused && !exited then old(levers) + [Resume] else old(levers)
      ensures c.detached && consumers == old(consumers) - {c}
      ensures c.acked == old(c.acked) && c.deliveredTo == old(c.deliveredTo)
      ensures consumers == {} ==> floor == old(floor) && levers == old(levers)
    {
      hide Delivers, Bounded, Tiled, Alternating;
      if c.detached {
        assert c !in consumers;
        return;
      }
      c.detached := true;
      consumers := consumers - {c};
      RecomputeFloor();
    }

    // ---- internals --------------------------------------------------------------

    // The part of push() before delivery: retain the bytes and pull the pause lever.
    method Retain(chunk: seq<Byte>)
      requires Retention() && Watermarks() && !exited && chunk != []
      requires Occupancy() + |chunk| <= opts.capBytes
      modifies this`chunks, this`head, this`produced, this`peakOccupancy, this`paused, this`levers
      ensures Retention() && Watermarks()
      ensures produced == old(produced) + chunk
      ensures paused == (old(paused) || opts.highWater <= Occupancy())
      ensures levers == if !old(paused) && opts.highWater <= Occupancy() then old(levers) + [Pause] else old(levers)
      ensures peakOccupancy == Max(old(peakOccupancy), Occupancy())
    {
      hide Tiled, Alternating;
      var next := head - floor + |chunk|;
      TiledAppend(chunks, floor, produced, chunk);
      chunks := chunks + [Chunk(head, chunk)];
      head := head + |chunk|;
      produced := produced + chunk;
      if next > peakOccupancy {
        peakOccupancy := next;
      }
      if !paused && next >= opts.highWater {
        LeverPulled(levers, Pause);
        paused := true;
        levers := levers + [Pause];
      }
    }

    // The delivery pass over every attached consumer.
    method DeliverAll()
      requires Retention()
      requires forall c <- consumers :: Served(c) && floor <= c.deliveredTo
      modifies consumers
      ensures forall c <- consumers ::
        && Served(c) && CaughtUp(c)
        && c.acked == old(c.acked) && c.origin == old(c.origin)
        && old(c.received) <= c.received
        && c.deliveredTo == Max(old(c.deliveredTo), Min(head, c.acked + opts.deliveryWindowBytes))
    {
      hide Delivers, Bounded, Tiled, Alternating;
      var todo := consumers;
      while todo != {}
        invariant todo <= consumers
        invariant forall c <- consumers :: Served(c) && c.acked == old(c.acked) && c.origin == old(c.origin)
        invariant forall c <- todo :: c.received == old(c.received) && c.deliveredTo == old(c.deliveredTo)
        invariant forall c <- consumers - todo ::
          && CaughtUp(c) && old(c.received) <= c.received
          && c.deliveredTo == Max(old(c.deliveredTo), Min(head, c.acked + opts.deliveryWindowBytes))
        modifies consumers
        decreases |todo|
      {
        var c :| c in todo;
        DeliverMore(c);
        todo := todo - {c};
      }
    }

    // Deliver retained bytes up to min(head, acked + window).
    method DeliverMore(c: Consumer)
      requires Retention() && Served(c)
      requires floor <= c.deliveredTo || CaughtUp(c)
      modifies c
      ensures Served(c) && CaughtUp(c)
      ensures c.acked == old(c.acked) && c.origin == old(c.origin)
      ensures old(c.received) <= c.received
      ensures c.deliveredTo == Max(old(c.deliveredTo), Min(head, c.acked + opts.deliveryWindowBytes))
    {
      hide Delivers, Tiled, Alternating;
      var limit := Min(head, c.acked + opts.deliveryWindowBytes);
      while c.deliveredTo < limit
        invariant old(c.deliveredTo) <= c.deliveredTo <= Max(old(c.deliveredTo), limit)
        invariant Served(c)
        invariant c.acked == old(c.acked) && c.origin == old(c.origin)
        invariant old(c.received) <= c.received
        decreases limit - c.deliveredTo
      {
        var slice := SliceAt(c.deliveredTo, limit);
        DeliversMore(c.received, c.origin, c.deliveredTo, produced, slice, c.acked);
        c.received := c.received + [Delivery(c.deliveredTo, slice, c.acked)];
        c.deliveredTo := c.deliveredTo + |slice|;
      }
    }

    // One frame-capped slice.  Inside the retained window there always is one.
    method SliceAt(offset: nat, limit: nat) returns (slice: seq<Byte>)
      requires Retention() && floor <= offset < limit <= head
      ensures 1 <= |slice| <= opts.maxFramePayloadBytes
      ensures offset + |slice| <= limit
      ensures slice == produced[offset..offset + |slice|]
    {
      hide Tiled, Alternating;
      var i := 0;
      while i < |chunks|
        invariant 0 <= i <= |chunks|
        invariant forall k | 0 <= k < i :: chunks[k].End() <= offset
      {
        var chunk := chunks[i];
        if chunk.End() > offset {
          TiledHolds(chunks, floor, produced, i, offset);
          var start := offset - chunk.offset;
          var take := Min(chunk.End(), limit) - offset;
          var capped := Min(take, opts.maxFramePayloadBytes);
          slice := chunk.data[start..start + capped];
          SliceOfSlice(produced, chunk.offset, chunk.End(), start, start + capped);
          return;
        }
        i := i + 1;
      }
      TiledCovers(chunks, floor, produced, offset);
      assert false;
    }

    // Release floor = least ack over attached consumers; frozen when there are none.
    method RecomputeFloor()
      requires Retention() && Watermarks()
      requires forall c <- consumers :: floor <= c.acked <= head
      modifies this`floor, this`chunks, this`paused, this`levers
      ensures Retention() && Watermarks()
      ensures old(floor) <= floor
      ensures paused == (old(paused) && opts.lowWater < Occupancy())
      ensures levers == if old(paused) && !paused && !exited then old(levers) + [Resume] else old(levers)
      ensures consumers == {} ==> floor == old(floor) && levers == old(levers)
      ensures consumers != {} ==> exists c <- consumers :: c.acked == floor
      ensures forall c <- consumers :: floor <= c.acked
      ensures floor == old(floor) ==> levers == old(levers)
    {
      hide Tiled, Alternating;
      if consumers == {} {
        return;
      }
      var min := LeastAck();
      if min <= floor {
        return;
      }
      Release(min);
    }

    method LeastAck() returns (min: nat)
      requires consumers != {} && forall c <- consumers :: floor <= c.acked <= head
      ensures floor <= min <= head
      ensures forall c <- consumers :: min <= c.acked
      ensures exists c <- consumers :: c.acked == min
    {
      min := head;  // an upper bound on every watermark, as Number.MAX_SAFE_INTEGER is in the source
      var todo := consumers;
      while todo != {}
        invariant todo <= consumers
        invariant floor <= min <= head
        invariant forall c <- consumers - todo :: min <= c.acked
        invariant min == head || exists c <- consumers :: c.acked == min
        decreases |todo|
      {
        var c :| c in todo;
        if c.acked < min {
          min := c.acked;
        }
        todo := todo - {c};
      }
      if min == head {
        var c :| c in consumers;
        assert c.acked == min;
      }
    }

    // Raise the floor, drop fully released chunks, and resume at the low mark.
    method Release(min: nat)
      requires Retention() && Watermarks() && floor < min <= head
      modifies this`floor, this`chunks, this`paused, this`levers
      ensures Retention() && Watermarks() && floor == min
      ensures paused == (old(paused) && opts.lowWater < Occupancy())
      ensures levers == if old(paused) && !paused && !exited then old(levers) + [Resume] else old(levers)
    {
      hide Tiled, Alternating;
      ghost var was := floor;
      floor := min;
      var drop := 0;
      while drop < |chunks| && chunks[drop].End() <= min
        invariant 0 <= drop <= |chunks|
        invariant forall k | 0 <= k < drop :: chunks[k].End() <= min
      {
        drop := drop + 1;
      }
      TiledDrop(chunks, was, produced, drop, min);
      chunks := chunks[drop..];
      if paused && Occupancy() <= opts.lowWater {
        paused := false;
        if !exited {
          LeverPulled(levers, Resume);
          levers := levers + [Resume];
        }
      }
    }
  }

  lemma HoldsStill(c: Chunk, produced: seq<Byte>, data: seq<Byte>)
    requires Holds(c, produced)
    ensures Holds(c, produced + data)
  {
    assert (produced + data)[c.offset..c.End()] == produced[c.offset..c.End()];
  }

  lemma TiledAppend(chunks: seq<Chunk>, floor: nat, produced: seq<Byte>, data: seq<Byte>)
    requires Tiled(chunks, floor, produced) && data != []
    ensures Tiled(chunks + [Chunk(|produced|, data)], floor, produced + data)
  {
    var after := chunks + [Chunk(|produced|, data)];
    forall i | 0 <= i < |after| ensures Holds(after[i], produced + data) {
      if i < |chunks| {
        HoldsStill(chunks[i], produced, data);
      }
    }
    forall i, j | 0 <= i < j < |after| && j == i + 1 ensures after[i].End() == after[j].offset {
      if j < |chunks| {
        assert chunks[i].End() == chunks[j].offset;
      }
    }
  }

  lemma SliceOfSlice<T>(s: seq<T>, lo: nat, hi: nat, a: nat, b: nat)
    requires lo <= hi <= |s| && a <= b <= hi - lo
    ensures s[lo..hi][a..b] == s[lo + a..lo + b]
  {
    var inner := s[lo..hi];
    assert forall k | 0 <= k < b - a :: inner[a..b][k] == inner[a + k] == s[lo + a + k];
  }

  // The first chunk that ends past a retained offset holds it.
  lemma TiledHolds(chunks: seq<Chunk>, floor: nat, produced: seq<Byte>, i: nat, offset: nat)
    requires Tiled(chunks, floor, produced) && i < |chunks| && floor <= offset < chunks[i].End()
    requires forall k | 0 <= k < i :: chunks[k].End() <= offset
    ensures chunks[i].offset <= offset && chunks[i].End() <= |produced|
    ensures chunks[i].data == produced[chunks[i].offset..chunks[i].End()]
  {
    assert Holds(chunks[i], produced);
    if i > 0 {
      assert chunks[i - 1].End() == chunks[i].offset;
    }
  }

  lemma TiledCovers(chunks: seq<Chunk>, floor: nat, produced: seq<Byte>, offset: nat)
    requires Tiled(chunks, floor, produced) && floor <= offset < |produced|
    ensures exists i | 0 <= i < |chunks| :: offset < chunks[i].End()
  {
    assert offset < chunks[|chunks| - 1].End();
  }

  lemma TiledDrop(chunks: seq<Chunk>, floor: nat, produced: seq<Byte>, drop: nat, newFloor: nat)
    requires Tiled(chunks, floor, produced)
    requires floor <= newFloor <= |produced| && drop <= |chunks|
    requires forall k | 0 <= k < drop :: chunks[k].End() <= newFloor
    requires drop < |chunks| ==> newFloor < chunks[drop].End()
    ensures Tiled(chunks[drop..], newFloor, produced)
  {
    var after := chunks[drop..];
    forall i, j | 0 <= i < j < |after| && j == i + 1 ensures after[i].End() == after[j].offset {
      assert after[i] == chunks[drop + i] && after[j] == chunks[drop + j];
    }
    assert forall i | 0 <= i < |after| :: after[i] == chunks[drop + i] && Holds(chunks[drop + i], produced);
    if after != [] && drop > 0 {
      assert chunks[drop - 1].End() == chunks[drop].offset;
    }
  }

  // ---- progress -------------------------------------------------------------------

  // ceil(rest / window), by counting windows.
  ghost function Rounds(rest: int, window: int): nat
    requires 1 <= window
    decreases Max(rest, 0)
  {
    if rest <= 0 then 0 else 1 + Rounds(rest - window, window)
  }

  lemma {:induction false} RoundsIsCeiling(rest: nat, window: nat)
    requires 1 <= window
    ensures (Rounds(rest, window) - 1) * window < Max(rest, 1) && rest <= Rounds(rest, window) * window
    decreases rest
  {
    if rest > window {
      RoundsIsCeiling(rest - window, window);
      var k := Rounds(rest - window, window);
      assert Rounds(rest, window) == k + 1;
      assert (k + 1) * window == k * window + window;
      assert k * window == (k - 1) * window + window;
    } else if rest > 0 {
      assert Rounds(rest - window, window) == 0;
      assert Rounds(rest, window) == 1;
    }
  }

  lemma {:induction false} RoundsMonotone(a: int, b: int, window: int)
    requires 1 <= window && a <= b
    ensures Rounds(a, window) <= Rounds(b, window)
    decreases Max(b, 0)
  {
    if a > 0 {
      RoundsMonotone(a - window, b - window, window);
    }
  }

  /** With no new output, acking what was delivered at most ceil((head - acked) / window)
      times brings one consumer to the head. */
  method DrainConsumer(s: PtySessionStream, c: Consumer) returns (acks: nat)
    requires s.Valid() && c in s.consumers
    modifies s, c
    ensures s.Valid() && s.produced == old(s.produced) && s.consumers == old(s.consumers) && s.exited == old(s.exited)
    ensures old(s.levers) <= s.levers
    ensures c.acked == s.head == old(s.head)
    ensures acks <= Rounds(s.head - old(c.acked), s.opts.deliveryWindowBytes)
  {
    hide Delivers, Bounded, Tiled, Alternating;
    acks := 0;
    while c.acked < s.head
      invariant s.Valid() && s.produced == old(s.produced) && s.consumers == old(s.consumers) && s.exited == old(s.exited)
      invariant old(s.levers) <= s.levers
      invariant acks + Rounds(s.head - c.acked, s.opts.deliveryWindowBytes)
             <= Rounds(s.head - old(c.acked), s.opts.deliveryWindowBytes)
      decreases s.head - c.acked
    {
      assert s.CaughtUp(c);
      ghost var rest := s.head - c.acked;
      var r := s.Ack(c, c.deliveredTo);
      RoundsMonotone(Min(s.head - c.acked, rest - s.opts.deliveryWindowBytes), rest - s.opts.deliveryWindowBytes, s.opts.deliveryWindowBytes);
      acks := acks + 1;
    }
  }

  /** If every consumer drains, with at most ceil((head - acked) / window) acks each, the floor reaches the
      head and a paused live producer is resumed. */
  method DrainAll(s: PtySessionStream) returns (acks: map<Consumer, nat>)
    requires s.Valid() && s.consumers != {}
    modifies s, s.consumers
    ensures s.Valid() && s.produced == old(s.produced) && s.consumers == old(s.consumers) && s.exited == old(s.exited)
    ensures acks.Keys == s.consumers
    ensures forall c <- acks :: acks[c] <= Rounds(s.head - old(c.acked), s.opts.deliveryWindowBytes)
    ensures s.floor == s.head && !s.paused
    ensures old(s.paused) && !s.exited ==> old(s.levers) < s.levers && s.levers[|s.levers| - 1] == Resume
  {
    hide PtySessionStream.Valid, Rounds;
    PausedByLever(s);
    acks := DrainEach(s, Due(s));
    Drained(s);
    PausedByLever(s);
  }

  method DrainEach(s: PtySessionStream, ghost due: map<Consumer, nat>) returns (acks: map<Consumer, nat>)
    requires s.Valid() && 1 <= s.opts.deliveryWindowBytes && due == Due(s)
    modifies s, s.consumers
    ensures s.Valid() && s.produced == old(s.produced) && s.consumers == old(s.consumers) && s.exited == old(s.exited)
    ensures s.head == old(s.head) && old(s.levers) <= s.levers
    ensures acks.Keys == s.consumers && AtMost(acks, due) && forall c <- s.consumers :: c.acked == s.head
  {
    hide PtySessionStream.Valid, Rounds, AtMost;
    acks := map[];
    NoAcks(due);
    var todo := s.consumers;
    while todo != {}
      invariant todo <= s.consumers == old(s.consumers)
      invariant s.Valid() && s.produced == old(s.produced) && s.exited == old(s.exited) && s.head == old(s.head)
      invariant old(s.levers) <= s.levers
      invariant forall c <- s.consumers - todo :: c.acked == s.head
      invariant forall c <- todo :: c.acked == old(c.acked)
      invariant acks.Keys == s.consumers - todo && AtMost(acks, due)
      decreases |todo|
    {
      var c: Consumer :| c in todo;
      var n := DrainConsumer(s, c);
      OneMoreAck(acks, due, c, n);
      acks := acks[c := n];
      todo := todo - {c};
    }
  }

  ghost predicate AtMost(acks: map<Consumer, nat>, due: map<Consumer, nat>) {
    acks.Keys <= due.Keys && forall c <- acks :: acks[c] <= due[c]
  }

  lemma NoAcks(due: map<Consumer, nat>)
    ensures AtMost(map[], due)
  {
  }

  lemma OneMoreAck(acks: map<Consumer, nat>, due: map<Consumer, nat>, c: Consumer, n: nat)
    requires AtMost(acks, due) && c in due && n <= due[c]
    ensures AtMost(acks[c := n], due)
  {
  }

  lemma PausedByLever(s: PtySessionStream)
    requires s.Valid()
    ensures 1 <= s.opts.deliveryWindowBytes
    ensures !s.exited ==> (s.paused <==> LastIsPause(s.levers))
  {
  }

  // The acks each consumer needs at most to reach the head.
  ghost function Due(s: PtySessionStream): map<Consumer, nat>
    requires 1 <= s.opts.deliveryWindowBytes
    reads s, s.consumers
  {
    map c | c in s.consumers :: Rounds(s.head - c.acked, s.opts.deliveryWindowBytes)
  }

  lemma Drained(s: PtySessionStream)
    requires s.Valid() && s.consumers != {} && forall c <- s.consumers :: c.acked == s.head
    ensures s.floor == s.head && !s.paused
  {
  }
}
