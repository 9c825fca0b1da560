/** The gateway's side of PTY delivery: which connection consumes which session's stream
(core/src/gateway/server.ts).  The gateway is the only one to attach to its streams. */
module GatewayPty {
  import opened Base
  import opened PtyStream
  import opened Gateway

  type SessionId = string

  datatype PtyReply = Fine | WatermarkRefused | SessionNotFound

  // Who consumes a session, all its output, and each consumer's ack and deliveries.
  datatype View = View(consumers: map<Connection, Consumer>, produced: seq<Byte>, positions: map<Consumer, (nat, seq<Delivery>)>)

  // These connections are gone; the output and the other consumers' positions are as before.
  ghost predicate Without(before: View, now: View, gone: set<Connection>) {
    && now.consumers == before.consumers - gone && now.produced == before.produced
    && forall c <- now.positions :: c in before.positions && before.positions[c] == now.positions[c]
  }

  lemma WithoutThen(a: View, b: View, c: View, conn: Connection)
    requires Without(a, b, {}) && Without(b, c, {conn})
    ensures Without(a, c, {conn})
  {
  }

  ghost predicate OneEach(m: map<Connection, Consumer>) {
    forall a, b | a in m && b in m && m[a] == m[b] :: a == b
  }

  lemma DropOne(m: map<Connection, Consumer>, conn: Connection)
    requires OneEach(m) && conn in m
    ensures OneEach(m - {conn}) && (m - {conn}).Values == m.Values - {m[conn]}
  {
    var r := m - {conn};
    forall c | c in m.Values - {m[conn]} ensures c in r.Values {
      var x: Connection :| x in m && m[x] == c;
      assert x in r && r[x] == c;
    }
  }

  lemma Others(m: map<Connection, Consumer>, conn: Connection)
    requires OneEach(m) && conn in m
    ensures forall x <- m | x != conn :: m[x] != m[conn]
  {
  }

  lemma AddOne(m: map<Connection, Consumer>, conn: Connection, c: Consumer)
    requires OneEach(m) && conn !in m && c !in m.Values
    ensures OneEach(m[conn := c]) && m[conn := c].Values == m.Values + {c}
  {
    var r := m[conn := c];
    assert r[conn] == c;
    forall x | x in m.Values ensures x in r.Values {
      var k: Connection :| k in m && m[k] == x;
      assert k in r && r[k] == x;
    }
  }

  lemma AttachedIsLive(s: PtySessionStream, c: Consumer)
    requires s.Valid() && c in s.consumers
    ensures !c.detached
  {
    assert s.Served(c);
  }

  lemma PausedAboveLow(s: PtySessionStream)
    requires s.Valid()
    ensures s.paused ==> s.opts.lowWater < s.Occupancy()
  {
  }

  lemma WindowIsPositive(s: PtySessionStream)
    requires s.Valid()
    ensures 1 <= s.opts.deliveryWindowBytes
  {
  }

  class PtyEntry {
    const stream: PtySessionStream
    var consumers: map<Connection, Consumer>

    // The consumers of the stream are exactly those of the connections, one each.
    ghost predicate Valid()
      reads this, stream, stream.consumers
    {
      stream.Valid() && consumers.Values == stream.consumers && OneEach(consumers)
    }

    ghost function Look(): View
      reads this, stream, stream.consumers
    {
      View(consumers, stream.produced, map c | c in stream.consumers :: (c.acked, c.received))
    }

    constructor (stream: PtySessionStream)
      requires stream.Valid() && stream.consumers == {}
      ensures Valid() && this.stream == stream && consumers == map[]
    {
      this.stream := stream;
      consumers := map[];
    }

    /** pty-ack.  A connection that never attached has been delivered nothing: watermark 0 is a stale
        ack, anything above is out of range. */
    method Ack(conn: Connection, watermark: nat) returns (reply: StreamResult)
      requires Valid()
      modifies this, stream, stream.consumers
      ensures Valid() && consumers == old(consumers) && stream.consumers == old(stream.consumers) && stream.produced == old(stream.produced)
      ensures reply.Ok? <==> watermark <= if conn in consumers then old(consumers[conn].deliveredTo) else 0
      ensures conn in consumers && reply.Ok? ==> consumers[conn].acked == Max(old(consumers[conn].acked), watermark)
      ensures forall c <- stream.consumers | conn !in consumers || c != consumers[conn] ::
        c.acked == old(c.acked) && c.received == old(c.received) && c.deliveredTo == old(c.deliveredTo)
      ensures stream.paused == (old(stream.paused) && stream.opts.lowWater < stream.Occupancy())
      ensures !reply.Ok? ==> Look() == old(Look())
    {
      hide PtySessionStream.Valid, OneEach;
      PausedAboveLow(stream);
      if conn !in consumers {
        return if watermark > 0 then StreamResult.WatermarkOutOfRange else Ok;
      }
      var c := consumers[conn];
      AttachedIsLive(stream, c);
      reply := stream.Ack(c, watermark);
    }

    /** pty-replay-request: the first one from a connection attaches it, later ones reposition it. */
    method ReplayRequest(conn: Connection, from: nat) returns (reply: StreamResult)
      requires Valid()
      modifies this, stream, stream.consumers
      ensures Valid() && stream.produced == old(stream.produced)
      ensures forall c <- stream.consumers :: c in old(stream.consumers) || fresh(c)
      ensures reply.Ok? <==> old(stream.floor) <= from <= stream.head
      ensures consumers.Keys == if reply.Ok? then old(consumers.Keys) + {conn} else old(consumers.Keys)
      ensures forall x <- old(consumers) :: x in consumers && consumers[x] == old(consumers)[x]
      ensures reply.Ok? ==>
        consumers[conn].origin == from
        && consumers[conn].deliveredTo == Max(from, Min(stream.head, consumers[conn].acked + stream.opts.deliveryWindowBytes))
      ensures conn !in old(consumers) && reply.Ok? ==> fresh(consumers[conn]) && consumers[conn].acked == from
      ensures conn in old(consumers) ==> consumers[conn].acked == old(consumers[conn].acked)
      ensures forall x <- old(consumers) | x != conn ::
        && consumers[x].acked == old(consumers[x].acked) && consumers[x].received == old(consumers[x].received)
        && consumers[x].deliveredTo == old(consumers[x].deliveredTo)
      ensures !reply.Ok? ==> Look() == old(Look())
    {
      hide PtySessionStream.Valid, OneEach;
      if conn in consumers {
        var c := consumers[conn];
        AttachedIsLive(stream, c);
        Others(consumers, conn);
        reply := stream.ReplayFrom(c, from);
        return;
      }
      WindowIsPositive(stream);
      var r := stream.Attach(from);
      if r.Refused? {
        return StreamResult.WatermarkOutOfRange;
      }
      AddOne(consumers, conn, r.consumer);
      consumers := consumers[conn := r.consumer];
      reply := Ok;
    }

    /** A connection that drops leaves this stream, and what it alone was holding back is released. */
    method Drop(conn: Connection)
      requires Valid()
      modifies this, stream, stream.consumers
      ensures Valid() && Without(old(Look()), Look(), {conn})
      ensures stream.paused == (old(stream.paused) && stream.opts.lowWater < stream.Occupancy())
      ensures stream.consumers <= old(stream.consumers)
      ensures conn in old(consumers) ==> old(consumers)[conn].detached
    {
      hide PtySessionStream.Valid, OneEach;
      PausedAboveLow(stream);
      if conn in consumers {
        var c := consumers[conn];
        assert c in stream.consumers;
        stream.Detach(c);
        DropOne(consumers, conn);
        consumers := consumers - {conn};
      }
    }
  }

  class PtyRouter {
    var entries: map<SessionId, PtyEntry>
    ghost var repr: set<object>  // the entries, their streams and the streams' consumers

    // Nothing is shared between two sessions.
    ghost predicate Apart()
      reads this, repr
    {
      && (forall sid <- entries :: entries[sid] in repr && entries[sid].stream in repr && entries[sid].stream.consumers <= repr)
      && (forall a, b | a in entries && b in entries && a != b ::
            entries[a] != entries[b] && entries[a].stream != entries[b].stream && entries[a].stream.consumers !! entries[b].stream.consumers)
    }

    ghost predicate Valid()
      reads this, repr
    {
      this !in repr && Apart() && forall sid <- entries :: entries[sid].Valid()
    }

    constructor ()
      ensures Valid() && entries == map[]
    {
      entries, repr := map[], {};
    }

    /** A session is wired once, to a stream of its own; a second announcement is ignored, and illegal
        flow-control options make no stream. */
    method Wire(sid: SessionId, options: Options) returns (wired: bool)
      requires Valid()
      modifies this
      ensures Valid() && (wired <==> sid !in old(entries) && LegalOptions(options))
      ensures entries.Keys == if wired then old(entries.Keys) + {sid} else old(entries.Keys)
      ensures forall x <- old(entries) :: x in entries && entries[x] == old(entries)[x]
      ensures wired ==> fresh(entries[sid].stream) && entries[sid].stream.produced == [] && entries[sid].consumers == map[]
    {
      hide PtyEntry.Valid, PtySessionStream.Valid;
      if sid in entries {
        return false;
      }
      var r := PtySessionStream.Create(options);
      if r.IllegalOptions? {
        return false;
      }
      var entry := new PtyEntry(r.stream);
      entries := entries[sid := entry];
      repr := repr + {entry, r.stream};
      wired := true;
    }

    ghost function LookAt(sid: SessionId): View
      requires Apart() && sid in entries
      reads this, repr
    {
      entries[sid].Look()
    }

    // Every session that is done lost this connection, the others are as they were.
    ghost predicate Progress(was: map<SessionId, View>, todo: set<SessionId>, conn: Connection)
      reads this, repr
    {
      Apart() && forall sid <- entries :: sid in was && Without(was[sid], LookAt(sid), if sid in todo then {} else {conn})
    }

    /** pty-ack, by session: unknown sessions are refused and the other sessions are not touched. */
    method HandleAck(conn: Connection, sid: SessionId, watermark: nat) returns (reply: PtyReply)
      requires Valid()
      modifies repr
      ensures Valid() && entries == old(entries)
      ensures reply.SessionNotFound? <==> sid !in entries
      ensures sid in entries ==> (reply.Fine? <==>
        watermark <= if conn in old(entries[sid].consumers) then old(entries[sid].consumers[conn].deliveredTo) else 0)
      ensures forall x <- entries | x != sid || !reply.Fine? :: LookAt(x) == old(LookAt(x))
      ensures reply.Fine? ==> entries[sid].consumers == old(entries[sid].consumers) && entries[sid].stream.produced == old(entries[sid].stream.produced)
      ensures reply.Fine? && conn in entries[sid].consumers ==>
        entries[sid].consumers[conn].acked == Max(old(entries[sid].consumers[conn].acked), watermark)
    {
      hide PtyEntry.Valid, PtyEntry.Look, PtySessionStream.Valid;
      if sid !in entries {
        return SessionNotFound;
      }
      var r := entries[sid].Ack(conn, watermark);
      reply := if r.Ok? then Fine else WatermarkRefused;
    }

    /** pty-replay-request, by session. */
    method HandleReplayRequest(conn: Connection, sid: SessionId, from: nat) returns (reply: PtyReply)
      requires Valid()
      modifies this`repr, repr
      ensures Valid() && entries == old(entries)
      ensures reply.SessionNotFound? <==> sid !in entries
      ensures sid in entries ==> (reply.Fine? <==> old(entries[sid].stream.floor) <= from <= entries[sid].stream.head)
      ensures forall x <- entries | x != sid || !reply.Fine? :: LookAt(x) == old(LookAt(x))
      ensures reply.Fine? ==>
        && entries[sid].consumers.Keys == old(entries[sid].consumers.Keys) + {conn}
        && entries[sid].consumers[conn].origin == from && entries[sid].stream.produced == old(entries[sid].stream.produced)
    {
      hide PtyEntry.Valid, PtyEntry.Look, PtySessionStream.Valid;
      if sid !in entries {
        return SessionNotFound;
      }
      var r := ReplayEntry(sid, conn, from);
      Own(sid);
      reply := if r.Ok? then Fine else WatermarkRefused;
    }

    // The router owns the consumers of a session that may have got a new one.
    ghost method Own(sid: SessionId)
      requires sid in entries && this !in repr && forall x <- entries :: entries[x].Valid() && entries[x] in repr && entries[x].stream in repr
      requires forall x <- entries | x != sid :: entries[x].stream.consumers <= repr
      requires forall a, b | a in entries && b in entries && a != b ::
        entries[a] != entries[b] && entries[a].stream != entries[b].stream && entries[a].stream.consumers !! entries[b].stream.consumers
      modifies this`repr
      ensures Valid()
      ensures repr == old(repr) + entries[sid].stream.consumers
    {
      hide PtyEntry.Valid, PtySessionStream.Valid;
      repr := repr + entries[sid].stream.consumers;
    }

    method ReplayEntry(sid: SessionId, conn: Connection, from: nat) returns (r: StreamResult)
      requires Valid() && sid in entries
      modifies entries[sid], entries[sid].stream, entries[sid].stream.consumers
      ensures forall x <- entries :: entries[x].Valid()
      ensures forall x <- entries | x != sid ::
        entries[x].stream.consumers == old(entries[x].stream.consumers) && entries[x].Look() == old(entries[x].Look())
      ensures forall c <- entries[sid].stream.consumers :: c in old(entries[sid].stream.consumers) || fresh(c)
      ensures r.Ok? <==> old(entries[sid].stream.floor) <= from <= entries[sid].stream.head
      ensures !r.Ok? ==> entries[sid].Look() == old(entries[sid].Look())
      ensures r.Ok? ==>
        && entries[sid].consumers.Keys == old(entries[sid].consumers.Keys) + {conn}
        && entries[sid].consumers[conn].origin == from && entries[sid].stream.produced == old(entries[sid].stream.produced)
    {
      hide PtyEntry.Valid, PtyEntry.Look, PtySessionStream.Valid;
      r := entries[sid].ReplayRequest(conn, from);
    }

    /** A dropped connection keeps no consumer anywhere; every stream stays valid, so that its floor is
        again the least ack of those left; and the other connections' consumers are where they were. */
    method DropConnection(conn: Connection)
      requires Valid()
      modifies repr
      ensures Valid() && entries == old(entries)
      ensures forall sid <- entries :: Without(old(LookAt(sid)), LookAt(sid), {conn})
    {
      hide PtyEntry.Valid, PtyEntry.Look;
      ghost var was := map sid | sid in entries :: LookAt(sid);
      var todo := entries.Keys;
      while todo != {}
        invariant todo <= entries.Keys && Valid() && entries == old(entries) && repr == old(repr)
        invariant Progress(was, todo, conn)
        decreases |todo|
      {
        hide PtyRouter.Valid, Progress;
        var sid :| sid in todo;
        DropAt(sid, conn, was, todo);
        todo := todo - {sid};
      }
    }

    method DropAt(sid: SessionId, conn: Connection, ghost was: map<SessionId, View>, ghost todo: set<SessionId>)
      requires Valid() && sid in entries && sid in todo && Progress(was, todo, conn)
      modifies repr
      ensures Valid() && entries == old(entries) && repr == old(repr) && Progress(was, todo - {sid}, conn)
    {
      hide PtyRouter.Valid, PtyEntry.Look, LookAt, Without;
      ghost var now := LookAt(sid);
      DropEntry(sid, conn);
      WithoutThen(was[sid], now, LookAt(sid), conn);
    }

    method DropEntry(sid: SessionId, conn: Connection)
      requires Valid() && sid in entries
      modifies entries[sid], entries[sid].stream, entries[sid].stream.consumers
      ensures Valid() && Apart() && Without(old(LookAt(sid)), LookAt(sid), {conn})
      ensures forall x <- entries | x != sid :: LookAt(x) == old(LookAt(x))
    {
      hide PtyEntry.Valid, PtyEntry.Look, PtySessionStream.Valid, Without;
      entries[sid].Drop(conn);
    }
  }
}
