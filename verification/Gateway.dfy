/** Reconnect replay: the per-channel journal and the gateway's fan-out
(core/src/gateway/journal.ts, core/src/gateway/server.ts).

`history` is every payload ever broadcast on a channel.  A connection's `sent` is what was
written to its socket; `marks` remembers, per channel, the watermark of the last accepted
replay request and how much had been sent when it was accepted.
*/
module Gateway {
  import opened Base

  type Channel = string
  type Payload = string

  datatype Entry = Entry(seqNo: nat, payload: Payload)
  datatype Envelope = Envelope(channel: Channel, seqNo: nat, payload: Payload)
  datatype ReplayResult = Replay(entries: seq<Entry>) | WatermarkOutOfRange
  datatype Mark = Mark(watermark: nat, start: nat)


  // The entries of a history from a watermark on, with their original numbers.
  ghost function EntriesFrom(history: seq<Payload>, from: nat): (r: seq<Entry>)
    requires from <= |history|
    ensures |r| == |history| - from
    ensures forall k | 0 <= k < |r| :: r[k] == Entry(from + k, history[from + k])
  {
    seq(|history| - from, k requires 0 <= k < |history| - from => Entry(from + k, history[from + k]))
  }

  ghost function EnvelopesFrom(channel: Channel, history: seq<Payload>, from: nat): (r: seq<Envelope>)
    requires from <= |history|
    ensures |r| == |history| - from
    ensures forall k | 0 <= k < |r| :: r[k] == Envelope(channel, from + k, history[from + k])
  {
    seq(|history| - from, k requires 0 <= k < |history| - from => Envelope(channel, from + k, history[from + k]))
  }

  // Exactly the last maxEntries broadcasts are retained.
  ghost predicate Retained(entries: seq<Entry>, floor: nat, maxEntries: nat, history: seq<Payload>) {
    floor == Max(0, |history| - maxEntries) && entries == EntriesFrom(history, floor)
  }

  class ChannelJournal {
    const maxEntries: nat
    var entries: seq<Entry>
    var nextSeq: nat
    var floorSeq: nat
    ghost var history: seq<Payload>

    ghost predicate Valid()
      reads this
    {
      && 1 <= maxEntries
      && nextSeq == |history|
      && Retained(entries, floorSeq, maxEntries, history)
    }

    constructor (max: nat)
      requires 1 <= max
      ensures Valid() && maxEntries == max && history == []
    {
      maxEntries, entries, nextSeq, floorSeq := max, [], 0, 0;
      history := [];
    }

    method Append(payload: Payload) returns (seqNo: nat)
      requires Valid()
      modifies this
      ensures Valid() && history == old(history) + [payload] && seqNo == old(nextSeq)
    {
      seqNo := nextSeq;
      nextSeq := nextSeq + 1;
      entries := entries + [Entry(seqNo, payload)];
      history := history + [payload];
      if |entries| > maxEntries {
        entries := entries[1..];
        floorSeq := entries[0].seqNo;  // maxEntries >= 1, so one is left
      }
    }

    method ReplayFrom(fromSeq: nat) returns (r: ReplayResult)
      requires Valid()
      ensures r.Replay? <==> Max(0, |history| - maxEntries) <= fromSeq <= |history|
      ensures r.Replay? ==> r.entries == EntriesFrom(history, fromSeq)
    {
      if fromSeq > nextSeq || fromSeq < floorSeq {
        return WatermarkOutOfRange;
      }
      var kept: seq<Entry> := [];
      var i := 0;
      while i < |entries|
        invariant 0 <= i <= |entries|
        invariant kept == if i <= fromSeq - floorSeq then [] else entries[fromSeq - floorSeq..i]
      {
        if entries[i].seqNo >= fromSeq {
          kept := kept + [entries[i]];
        }
        i := i + 1;
      }
      r := Replay(kept);
    }
  }

  // What a connection was sent on one channel.
  ghost function Only(log: seq<Envelope>, channel: Channel): seq<Envelope> {
    if log == [] then []
    else
      var last := log[|log| - 1];
      Only(log[..|log| - 1], channel) + (if last.channel == channel then [last] else [])
  }

  lemma OnlyMore(log: seq<Envelope>, e: Envelope, channel: Channel)
    ensures Only(log + [e], channel) == Only(log, channel) + (if e.channel == channel then [e] else [])
  {
    assert (log + [e])[..|log|] == log;
  }

  // Every payload ever broadcast, by channel.
  type Past = map<Channel, seq<Payload>>

  ghost function PastOf(past: Past, channel: Channel): seq<Payload> {
    if channel in past then past[channel] else []
  }

  // Since the accepted request, exactly the broadcasts from its watermark on, in order.
  ghost predicate Gapless(sent: seq<Envelope>, mark: Mark, channel: Channel, history: seq<Payload>) {
    && mark.start <= |sent| && mark.watermark <= |history|
    && Only(sent[mark.start..], channel) == EnvelopesFrom(channel, history, mark.watermark)
  }

  ghost predicate AllGapless(sent: seq<Envelope>, marks: map<Channel, Mark>, past: Past) {
    forall channel <- marks :: Gapless(sent, marks[channel], channel, PastOf(past, channel))
  }

  /** A broadcast keeps a connection gapless on every channel it asked to replay. */
  lemma BroadcastStaysGapless(sent: seq<Envelope>, marks: map<Channel, Mark>, past: Past, on: Channel, payload: Payload)
    requires AllGapless(sent, marks, past)
    ensures AllGapless(sent + [Envelope(on, |PastOf(past, on)|, payload)], marks, past[on := PastOf(past, on) + [payload]])
  {
    hide Gapless;
    var e := Envelope(on, |PastOf(past, on)|, payload);
    var past' := past[on := PastOf(past, on) + [payload]];
    forall channel <- marks ensures Gapless(sent + [e], marks[channel], channel, PastOf(past', channel)) {
      assert Gapless(sent, marks[channel], channel, PastOf(past, channel));
      GaplessBroadcast(sent, marks[channel], channel, PastOf(past, channel), on, payload, |PastOf(past, on)|);
    }
  }

  lemma GaplessBroadcast(sent: seq<Envelope>, mark: Mark, channel: Channel, history: seq<Payload>, on: Channel, payload: Payload, seqNo: nat)
    requires Gapless(sent, mark, channel, history) && (on == channel ==> seqNo == |history|)
    ensures Gapless(sent + [Envelope(on, seqNo, payload)], mark, channel, if on == channel then history + [payload] else history)
  {
    var e := Envelope(on, seqNo, payload);
    assert (sent + [e])[mark.start..] == sent[mark.start..] + [e];
    OnlyMore(sent[mark.start..], e, channel);
    if on == channel {
      assert EnvelopesFrom(channel, history + [payload], mark.watermark) == EnvelopesFrom(channel, history, mark.watermark) + [e];
    }
  }

  /** An accepted replay request makes the connection gapless from its watermark, and
      disturbs no other channel. */
  lemma ReplayStaysGapless(sent: seq<Envelope>, marks: map<Channel, Mark>, past: Past, on: Channel, from: nat)
    requires AllGapless(sent, marks, past) && from <= |PastOf(past, on)|
    ensures AllGapless(sent + EnvelopesFrom(on, PastOf(past, on), from), marks[on := Mark(from, |sent|)], past)
  {
    hide Gapless, EnvelopesFrom;
    var more := EnvelopesFrom(on, PastOf(past, on), from);
    var marks' := marks[on := Mark(from, |sent|)];
    forall channel <- marks' ensures Gapless(sent + more, marks'[channel], channel, PastOf(past, channel)) {
      if channel == on {
        GaplessReplay(sent, on, PastOf(past, on), from);
      } else {
        assert Gapless(sent, marks[channel], channel, PastOf(past, channel));
        GaplessElsewhere(sent, more, marks[channel], channel, PastOf(past, channel), on);
      }
    }
  }

  lemma GaplessReplay(sent: seq<Envelope>, on: Channel, history: seq<Payload>, from: nat)
    requires from <= |history|
    ensures Gapless(sent + EnvelopesFrom(on, history, from), Mark(from, |sent|), on, history)
  {
    hide Only, EnvelopesFrom;
    var more := EnvelopesFrom(on, history, from);
    assert (sent + more)[|sent|..] == more;
    OnlyOneChannel(more, on, on);
  }

  lemma GaplessElsewhere(sent: seq<Envelope>, more: seq<Envelope>, mark: Mark, channel: Channel, history: seq<Payload>, on: Channel)
    requires Gapless(sent, mark, channel, history) && channel != on && forall k | 0 <= k < |more| :: more[k].channel == on
    ensures Gapless(sent + more, mark, channel, history)
  {
    hide Only, EnvelopesFrom;
    assert (sent + more)[mark.start..] == sent[mark.start..] + more;
    OnlyAppend(sent[mark.start..], more, channel);
    OnlyOneChannel(more, on, channel);
  }

  class Connection {
    var open: bool
    var sent: seq<Envelope>
    ghost var marks: map<Channel, Mark>

    constructor ()
      ensures open && sent == [] && marks == map[]
    {
      open, sent, marks := true, [], map[];
    }

    ghost predicate InStep(past: Past)
      reads this
    {
      open ==> AllGapless(sent, marks, past)
    }

    // writeEnvelope: a socket that is not open gets nothing.
    method Write(e: Envelope)
      modifies this`sent
      ensures sent == if open then old(sent) + [e] else old(sent)
    {
      if open {
        sent := sent + [e];
      }
    }

    // Re-send retained entries with their original numbers.
    method Resend(channel: Channel, entries: seq<Entry>, ghost past: Past, ghost from: nat)
      requires InStep(past) && from <= |PastOf(past, channel)| && entries == EntriesFrom(PastOf(past, channel), from)
      modifies this`sent, this`marks
      ensures InStep(past) && marks == old(marks)[channel := Mark(from, |old(sent)|)]
      ensures sent == if open then old(sent) + EnvelopesFrom(channel, PastOf(past, channel), from) else old(sent)
    {
      hide AllGapless, Only, EnvelopesFrom, EntriesFrom;
      ghost var all := EnvelopesFrom(channel, PastOf(past, channel), from);
      if open {
        ReplayStaysGapless(sent, marks, past, channel, from);
      }
      var i := 0;
      while i < |entries|
        invariant 0 <= i <= |entries|
        invariant sent == if open then old(sent) + all[..i] else old(sent)
        invariant marks == old(marks)
      {
        assert all[..i + 1] == all[..i] + [all[i]] && all[i] == Envelope(channel, entries[i].seqNo, entries[i].payload);
        Write(Envelope(channel, entries[i].seqNo, entries[i].payload));
        i := i + 1;
      }
      assert all[..i] == all;
      marks := marks[channel := Mark(from, |old(sent)|)];
    }

    method CloseSocket()
      modifies this`open
      ensures !open
    {
      open := false;
    }
  }

  lemma {:induction false} OnlyAppend(a: seq<Envelope>, b: seq<Envelope>, channel: Channel)
    ensures Only(a + b, channel) == Only(a, channel) + Only(b, channel)
    decreases |b|
  {
    if b == [] {
      assert a + b == a;
    } else {
      var last := b[|b| - 1];
      assert a + b == a + b[..|b| - 1] + [last];
      OnlyMore(a + b[..|b| - 1], last, channel);
      OnlyAppend(a, b[..|b| - 1], channel);
    }
  }

  lemma {:induction false} OnlyOneChannel(b: seq<Envelope>, on: Channel, channel: Channel)
    requires forall k | 0 <= k < |b| :: b[k].channel == on
    ensures Only(b, channel) == if channel == on then b else []
    decreases |b|
  {
    if b != [] {
      OnlyOneChannel(b[..|b| - 1], on, channel);
    }
  }

  class Server {
    const maxEntries: nat
    var journals: map<Channel, ChannelJournal>
    var connections: set<Connection>
    var closed: bool
    ghost var past: Past

    ghost predicate Journaled()
      reads this, journals.Values
    {
      && 1 <= maxEntries
      && past.Keys <= journals.Keys
      && (forall ch <- journals :: journals[ch].Valid() && journals[ch].maxEntries == maxEntries && journals[ch].history == PastOf(past, ch))
      && (forall a, b | a in journals && b in journals && a != b :: journals[a] != journals[b])
    }

    ghost predicate Valid()
      reads this, journals.Values, connections
    {
      Journaled() && forall c <- connections :: c.InStep(past)
    }

    constructor (max: nat)
      requires 1 <= max
      ensures Valid() && connections == {} && !closed && past == map[] && maxEntries == max
    {
      maxEntries, journals, connections, closed := max, map[], {}, false;
      past := map[];
    }

    method Connect() returns (c: Connection)
      requires Valid()
      modifies this`connections
      ensures Valid() && fresh(c) && c.open && c.sent == [] && c.marks == map[] && connections == old(connections) + {c}
    {
      c := new Connection();
      connections := connections + {c};
    }

    /** A socket that stops being open before the server drops it: it is sent nothing more, and what the
        server promises the others still holds. */
    method SocketCloses(c: Connection)
      requires Valid() && c in connections
      modifies c`open
      ensures Valid() && !c.open
    {
      hide AllGapless, Retained;
      c.CloseSocket();
    }

    method Close()
      requires Valid()
      modifies this`closed
      ensures Valid() && closed
    {
      closed := true;
    }

    method DropConnection(c: Connection)
      requires Valid()
      modifies this`connections
      ensures Valid() && connections == old(connections) - {c}
    {
      connections := connections - {c};
    }

    // The journal of a channel, created on first use.
    method JournalFor(channel: Channel) returns (j: ChannelJournal)
      requires Journaled()
      modifies this`journals
      ensures Journaled() && channel in journals && journals[channel] == j
      ensures forall ch <- old(journals) :: ch in journals && journals[ch] == old(journals)[ch]
      ensures forall ch <- journals :: ch in old(journals) || fresh(journals[ch])
    {
      hide Retained;
      if channel !in journals {
        j := new ChannelJournal(maxEntries);
        journals := journals[channel := j];
      } else {
        j := journals[channel];
      }
    }

    /** Journal first, then one identical envelope to every open connection. */
    method Broadcast(channel: Channel, payload: Payload)
      requires Valid()
      modifies this`journals, this`past, journals.Values, connections
      ensures Valid()
      ensures past == if closed then old(past) else old(past)[channel := PastOf(old(past), channel) + [payload]]
      ensures forall c <- connections ::
        && c.open == old(c.open) && c.marks == old(c.marks)
        && c.sent == if c.open && !closed then old(c.sent) + [Envelope(channel, |PastOf(old(past), channel)|, payload)] else old(c.sent)
    {
      hide AllGapless, Retained;
      if closed {
        return;
      }
      var seqNo := Record(channel, payload);
      Deliver(Envelope(channel, seqNo, payload));
      forall c <- connections ensures c.InStep(past) {
        if c.open {
          assert old(c.InStep(past));
          BroadcastStaysGapless(old(c.sent), c.marks, old(past), channel, payload);
        }
      }
    }

    method Record(channel: Channel, payload: Payload) returns (seqNo: nat)
      requires Journaled()
      modifies this`journals, this`past, journals.Values
      ensures Journaled() && seqNo == |PastOf(old(past), channel)|
      ensures past == old(past)[channel := PastOf(old(past), channel) + [payload]]
    {
      hide Retained;
      var j := JournalFor(channel);
      assert forall ch <- journals | ch != channel :: journals[ch] != j;
      seqNo := j.Append(payload);
      past := past[channel := j.history];
    }

    method Deliver(e: Envelope)
      modifies connections
      ensures forall c <- connections ::
        c.open == old(c.open) && c.marks == old(c.marks) && c.sent == if c.open then old(c.sent) + [e] else old(c.sent)
    {
      var todo := connections;
      while todo != {}
        invariant todo <= connections
        invariant forall c <- connections :: c.open == old(c.open) && c.marks == old(c.marks)
        invariant forall c <- todo :: c.sent == old(c.sent)
        invariant forall c <- connections - todo :: c.sent == if c.open then old(c.sent) + [e] else old(c.sent)
        modifies connections
        decreases |todo|
      {
        var c :| c in todo;
        c.Write(e);
        todo := todo - {c};
      }
    }

    /** A replay request: re-send the retained envelopes from `fromSeq`, or refuse. */
    method HandleReplayRequest(c: Connection, channel: Channel, fromSeq: nat) returns (accepted: bool)
      requires Valid() && c in connections
      modifies this`journals, c`sent, c`marks
      ensures Valid()
      ensures accepted <==> Max(0, |PastOf(past, channel)| - maxEntries) <= fromSeq <= |PastOf(past, channel)|
      ensures accepted ==> c.marks == old(c.marks)[channel := Mark(fromSeq, |old(c.sent)|)]
      ensures accepted && c.open ==> c.sent == old(c.sent) + EnvelopesFrom(channel, PastOf(past, channel), fromSeq)
      ensures !accepted || !c.open ==> c.sent == old(c.sent)
      ensures !accepted ==> c.marks == old(c.marks)
    {
      hide Retained, AllGapless;
      var j := JournalFor(channel);
      var replay := j.ReplayFrom(fromSeq);
      if replay.WatermarkOutOfRange? {
        return false;
      }
      c.Resend(channel, replay.entries, past, fromSeq);
      accepted := true;
    }
  }
}
