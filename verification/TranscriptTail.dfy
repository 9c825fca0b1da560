/** The transcript-tail validator (core/src/kernel/transcriptTail.ts).

What JSON.parse and the field tests make of one trimmed line is an oracle: blank, unusable, a line
holding a null content block (reading its type throws), or a message with an optional uuid and its
tool blocks in order.
*/
module TranscriptTail {
  import opened Base

  type Id = string

  datatype Block = Use(id: Id) | Answer(id: Id) | Other
  datatype Segment = Blank | Bad | Throws | Line(uuid: Option<string>, blocks: seq<Block>)

  datatype Verdict = Verdict(
    safe: bool,
    anchor: Option<string>,
    unpaired: seq<Id>,
    torn: bool,
    malformed: bool,
    empty: bool,
    parsed: nat)

  // ---- pending tool calls ------------------------------------------------------------------------------

  // A JavaScript Map's keys: setting a key that is present keeps its place.
  function Remove(keys: seq<Id>, id: Id): seq<Id> {
    if keys == [] then [] else (if keys[0] == id then [] else [keys[0]]) + Remove(keys[1..], id)
  }

  function Touch(pending: seq<Id>, b: Block): seq<Id> {
    match b
    case Use(id) => if id in pending then pending else pending + [id]
    case Answer(id) => Remove(pending, id)
    case Other => pending
  }

  function Pending(events: seq<Block>): seq<Id> {
    if events == [] then [] else Touch(Pending(events[..|events| - 1]), events[|events| - 1])
  }

  // The last event naming the id is a tool use.
  predicate LastIsUse(events: seq<Block>, id: Id) {
    events != [] &&
    var b := events[|events| - 1];
    if b == Use(id) then true else if b == Answer(id) then false else LastIsUse(events[..|events| - 1], id)
  }

  // Where the tool use that is still open was first seen (the length when none is).
  function OpenSince(events: seq<Block>, id: Id): (r: nat)
    ensures r <= |events|
    ensures LastIsUse(events, id) ==> r < |events|
  {
    if !LastIsUse(events, id) then |events|
    else
      var before := events[..|events| - 1];
      OpenSince(before, id)
  }

  lemma {:induction false} RemoveIs(keys: seq<Id>, id: Id, x: Id)
    ensures x in Remove(keys, id) <==> x in keys && x != id
  {
    if keys != [] {
      RemoveIs(keys[1..], id, x);
    }
  }

  /** The pending set is the ids whose last event is a tool use. */
  lemma {:induction false} PendingIsLastUse(events: seq<Block>, id: Id)
    ensures id in Pending(events) <==> LastIsUse(events, id)
  {
    if events != [] {
      var before, b := events[..|events| - 1], events[|events| - 1];
      PendingIsLastUse(before, id);
      if b.Answer? {
        RemoveIs(Pending(before), b.id, id);
      }
    }
  }

  // The keys in the order their calls were opened, and so without repetition.
  ghost predicate InOrder(events: seq<Block>, keys: seq<Id>) {
    keys == [] || ((forall x <- keys[1..] :: OpenSince(events, keys[0]) < OpenSince(events, x)) && InOrder(events, keys[1..]))
  }

  lemma {:induction false} OrderRemove(events: seq<Block>, keys: seq<Id>, id: Id)
    requires InOrder(events, keys)
    ensures InOrder(events, Remove(keys, id))
  {
    if keys != [] {
      var rest := Remove(keys[1..], id);
      OrderRemove(events, keys[1..], id);
      if keys[0] == id {
        assert Remove(keys, id) == rest;
      } else {
        assert Remove(keys, id)[1..] == rest;
        forall x | x in rest ensures x in keys[1..] { RemoveIs(keys[1..], id, x); }
      }
    }
  }

  lemma {:induction false} OrderAppend(events: seq<Block>, keys: seq<Id>, id: Id)
    requires InOrder(events, keys) && forall x <- keys :: OpenSince(events, x) < OpenSince(events, id)
    ensures InOrder(events, keys + [id])
  {
    if keys == [] {
      assert (keys + [id])[1..] == [];
    } else {
      OrderAppend(events, keys[1..], id);
      assert (keys + [id])[1..] == keys[1..] + [id];
    }
  }

  lemma {:induction false} OrderStill(events: seq<Block>, more: seq<Block>, keys: seq<Id>)
    requires InOrder(events, keys) && forall x <- keys :: OpenSince(events, x) == OpenSince(more, x)
    ensures InOrder(more, keys)
  {
    if keys != [] {
      assert keys[0] in keys;
      OrderStill(events, more, keys[1..]);
    }
  }

  /** Pending ids are listed in the order in which their open tool uses were first seen. */
  lemma {:induction false} PendingInOrder(events: seq<Block>)
    ensures InOrder(events, Pending(events))
  {
    if events != [] {
      var n := |events| - 1;
      var before, b := events[..n], events[n];
      PendingInOrder(before);
      forall x ensures x in Pending(before) <==> LastIsUse(before, x) { PendingIsLastUse(before, x); }
      var kept := if b.Answer? then Remove(Pending(before), b.id) else Pending(before);
      if b.Answer? {
        OrderRemove(before, Pending(before), b.id);
        forall x | x in kept ensures x in Pending(before) && x != b.id { RemoveIs(Pending(before), b.id, x); }
      }
      OrderStill(before, events, kept);
      if b.Use? && b.id !in kept {
        OrderAppend(events, kept, b.id);
      }
    }
  }

  // ---- the verdict ---------------------------------------------------------------------------------------

  // How many segments come before the first unusable one.
  function Trusted(segs: seq<Segment>): (n: nat)
    ensures n <= |segs| && (forall k | 0 <= k < n :: segs[k].Blank? || segs[k].Line?)
    ensures n < |segs| ==> segs[n].Bad? || segs[n].Throws?
  {
    if segs != [] && (segs[0].Blank? || segs[0].Line?) then 1 + Trusted(segs[1..]) else 0
  }

  function Events(segs: seq<Segment>): seq<Block> {
    if segs == [] then []
    else
      var seg := segs[|segs| - 1];
      Events(segs[..|segs| - 1]) + (if seg.Line? then seg.blocks else [])
  }

  function Lines(segs: seq<Segment>): nat {
    if segs == [] then 0 else Lines(segs[..|segs| - 1]) + if segs[|segs| - 1].Line? then 1 else 0
  }

  // A message with a uuid after which no tool use is pending.
  ghost predicate Coherent(segs: seq<Segment>, k: nat)
    requires k < |segs|
  {
    segs[k].Line? && segs[k].uuid.Some? && Settled(Events(segs[..k + 1]))
  }

  ghost predicate Settled(events: seq<Block>) { forall id :: !LastIsUse(events, id) }

  // The last coherent message among the first n segments.
  ghost function LastCoherent(segs: seq<Segment>, n: nat): (r: Option<nat>)
    requires n <= |segs|
    ensures r.Some? ==> r.value < n && Coherent(segs, r.value)
    ensures forall k | (if r.Some? then r.value else -1) < k < n :: !Coherent(segs, k)
  {
    if n == 0 then None else if Coherent(segs, n - 1) then Some(n - 1) else LastCoherent(segs, n - 1)
  }

  // The verdict, from the meaning of the trusted segments.  None: the validator throws.
  ghost function VerdictOf(segs: seq<Segment>): Option<Verdict> {
    var n := Trusted(segs);
    if n < |segs| && segs[n].Throws? then None
    else
      var unpaired := Pending(Events(segs[..n]));
      var parsed := Lines(segs[..n]);
      var at := LastCoherent(segs, n);
      Some(Verdict(parsed > 0 && n == |segs| && unpaired == [],
                   if at.Some? then segs[at.value].uuid else None,
                   unpaired, n == |segs| - 1, n < |segs| - 1, parsed == 0, parsed))
  }

  // ---- the loop --------------------------------------------------------------------------------------------

  method ApplyBlocks(pending: seq<Id>, blocks: seq<Block>, ghost events: seq<Block>) returns (after: seq<Id>)
    requires pending == Pending(events)
    ensures after == Pending(events + blocks)
  {
    after := pending;
    var i := 0;
    assert events + blocks[..0] == events;
    while i < |blocks|
      invariant 0 <= i <= |blocks|
      invariant after == Pending(events + blocks[..i])
    {
      var more := events + blocks[..i + 1];
      assert more[..|more| - 1] == events + blocks[..i];
      after := Touch(after, blocks[i]);
      i := i + 1;
    }
    assert blocks[..i] == blocks;
  }

  lemma NonePending(events: seq<Block>)
    ensures Pending(events) == [] <==> Settled(events)
  {
    hide LastIsUse, Pending;
    var p := Pending(events);
    forall id ensures id in p <==> LastIsUse(events, id) { PendingIsLastUse(events, id); }
    if p != [] {
      assert p[0] in p;
    }
  }

  lemma {:induction false} TrustedIs(segs: seq<Segment>, n: nat)
    requires n <= |segs| && (forall k | 0 <= k < n :: segs[k].Blank? || segs[k].Line?)
    requires n < |segs| ==> segs[n].Bad? || segs[n].Throws?
    ensures Trusted(segs) == n
  {
    if n > 0 {
      TrustedIs(segs[1..], n - 1);
    }
  }

  /** validateTranscriptTail over the segments. */
  method Validate(segs: seq<Segment>) returns (verdict: Option<Verdict>)
    ensures verdict == VerdictOf(segs)
  {
    hide Pending, Events, Lines, LastIsUse, LastCoherent, Settled, Trusted;
    var pending: seq<Id> := [];
    var anchor: Option<string> := None;
    var torn, malformed := false, false;
    var parsed: nat := 0;
    var index := 0;
    Started(segs);
    while index < |segs|
      invariant 0 <= index <= |segs|
      invariant forall k | 0 <= k < index :: segs[k].Blank? || segs[k].Line?
      invariant Loop(segs, index, pending, parsed, anchor)
      invariant !torn && !malformed
    {
      var isFinal := index == |segs| - 1;
      match segs[index] {
      case Blank =>
        OneMore(segs, index);
      case Throws =>
        TrustedIs(segs, index);
        return None;
      case Bad =>
        if isFinal {
          torn := true;
        } else {
          malformed := true;
        }
        break;
      case Line(uuid, blocks) =>
        OneMore(segs, index);
        parsed := parsed + 1;
        pending := ApplyBlocks(pending, blocks, Events(segs[..index]));
        NonePending(Events(segs[..index + 1]));
        if |pending| == 0 && uuid.Some? {
          anchor := uuid;
        }
      }
      index := index + 1;
    }
    TrustedIs(segs, index);
    var empty := parsed == 0;
    var safe := !empty && !torn && !malformed && |pending| == 0;
    verdict := Some(Verdict(safe, anchor, pending, torn, malformed, empty, parsed));
  }

  // What the loop knows after n trusted segments.
  ghost predicate Loop(segs: seq<Segment>, n: nat, pending: seq<Id>, parsed: nat, anchor: Option<string>)
    requires n <= |segs|
  {
    var at := LastCoherent(segs, n);
    pending == Pending(Events(segs[..n])) && parsed == Lines(segs[..n])
    && anchor == if at.Some? then segs[at.value].uuid else None
  }

  lemma Started(segs: seq<Segment>)
    ensures Loop(segs, 0, [], 0, None)
  {
  }

  lemma OneMore(segs: seq<Segment>, n: nat)
    requires n < |segs|
    ensures Events(segs[..n + 1]) == Events(segs[..n]) + if segs[n].Line? then segs[n].blocks else []
    ensures segs[n].Blank? ==> Events(segs[..n + 1]) == Events(segs[..n])
    ensures Lines(segs[..n + 1]) == Lines(segs[..n]) + if segs[n].Line? then 1 else 0
    ensures LastCoherent(segs, n + 1) == if Coherent(segs, n) then Some(n) else LastCoherent(segs, n)
  {
    assert segs[..n + 1][..n] == segs[..n];
  }

  // ---- the verdict, from the segments alone -------------------------------------------------------------------

  lemma {:induction false} LinesCount(segs: seq<Segment>)
    ensures Lines(segs) > 0 <==> exists seg <- segs :: seg.Line?
    ensures Lines(segs) == |set k: nat | k < |segs| && segs[k].Line?|
  {
    var at := set k: nat | k < |segs| && segs[k].Line?;
    if segs != [] {
      var n := |segs| - 1;
      LinesCount(segs[..n]);
      var before := set k: nat | k < |segs[..n]| && segs[..n][k].Line?;
      assert at == if segs[n].Line? then before + {n} else before;
      assert segs == segs[..n] + [segs[n]];
    }
  }

  // The segment at k is the first that is unusable.
  ghost predicate FirstBad(segs: seq<Segment>, k: nat) {
    k < |segs| && segs[k].Bad? && forall j: nat | j < k :: !segs[j].Bad?
  }

  // Which of the three ways the trusted segments end.
  lemma TrustedEnds(segs: seq<Segment>)
    ensures var n := Trusted(segs);
      if n == |segs| then forall seg <- segs :: !seg.Bad? && !seg.Throws?
      else if segs[n].Bad? then FirstBad(segs, n)
      else segs[n].Throws? && forall j: nat | j < n :: !segs[j].Bad?
  {
  }

  /** The validator throws exactly where a throwing line comes before every unusable one. */
  lemma ThrowsIff(segs: seq<Segment>)
    ensures VerdictOf(segs).None? <==> exists k: nat :: k < |segs| && segs[k].Throws? && forall j: nat | j < k :: !segs[j].Bad?
  {
    hide Events, Lines, LastCoherent, Pending;
    TrustedEnds(segs);
    hide Trusted;
  }

  // The call is used and not answered afterwards.
  ghost predicate OpenCall(events: seq<Block>, id: Id) {
    exists k: nat :: k < |events| && events[k] == Use(id) && forall j: nat | k < j < |events| :: events[j] != Block.Answer(id)
  }

  ghost predicate AllAnswered(events: seq<Block>) { forall id :: !OpenCall(events, id) }

  lemma {:induction false} OpenIsLastUse(events: seq<Block>, id: Id)
    ensures LastIsUse(events, id) <==> OpenCall(events, id)
  {
    if events != [] {
      var n := |events| - 1;
      OpenIsLastUse(events[..n], id);
      if events[n] != Use(id) && events[n] != Block.Answer(id) {
        if k: nat :| k < |events[..n]| && events[..n][k] == Use(id) && forall j: nat | k < j < |events[..n]| :: events[..n][j] != Block.Answer(id) {
          assert forall j: nat | k < j < |events| :: events[j] != Block.Answer(id) by { assert forall j: nat | k < j < n :: events[j] == events[..n][j]; }
        }
        if k: nat :| k < |events| && events[k] == Use(id) && forall j: nat | k < j < |events| :: events[j] != Block.Answer(id) {
          assert events[..n][k] == Use(id);
        }
      }
    }
  }

  lemma NoneOpen(events: seq<Block>)
    ensures Settled(events) <==> AllAnswered(events)
  {
    hide OpenCall, LastIsUse;
    forall id ensures LastIsUse(events, id) <==> OpenCall(events, id) { OpenIsLastUse(events, id); }
  }

  /** Safe, from the segments alone and wherever the validator does not throw: some line is a message, none is
      unusable, and no tool use is without a later answer. */
  lemma SafeIff(segs: seq<Segment>)
    requires VerdictOf(segs).Some?
    ensures VerdictOf(segs).value.safe <==>
      (exists seg <- segs :: seg.Line?) && (forall seg <- segs :: !seg.Bad?) && AllAnswered(Events(segs))
  {
    hide Events, Lines, Settled, AllAnswered, LastCoherent, Pending;
    TrustedEnds(segs);
    hide Trusted;
    var n := Trusted(segs);
    if n == |segs| {
      assert segs[..n] == segs;
      LinesCount(segs);
      NonePending(Events(segs));
      NoneOpen(Events(segs));
    } else {
      assert segs[n] in segs;
    }
  }

  /** Torn if and only if the first unusable line is the final one, malformed if and only if it is an earlier one. */
  lemma TornIff(segs: seq<Segment>)
    requires VerdictOf(segs).Some?
    ensures VerdictOf(segs).value.torn <==> segs != [] && FirstBad(segs, |segs| - 1)
    ensures VerdictOf(segs).value.malformed <==> exists k: nat :: k < |segs| - 1 && FirstBad(segs, k)
  {
    hide Events, Lines, LastIsUse, LastCoherent, Pending;
    TrustedEnds(segs);
    hide Trusted;
    var n := Trusted(segs);
    if n == |segs| {
      assert forall k: nat | k < |segs| :: segs[k] in segs;
    }
  }

  /** What the verdict lists: without a throw, the number of messages before the first unusable line, and the
      ids used before it and not answered after that. */
  lemma VerdictLists(segs: seq<Segment>, n: nat, id: Id)
    requires VerdictOf(segs).Some? && n <= |segs|
    requires (forall k: nat | k < n :: !segs[k].Bad?) && (n < |segs| ==> segs[n].Bad?)
    ensures VerdictOf(segs).value.parsed == |set k: nat | k < n && segs[k].Line?|
    ensures VerdictOf(segs).value.empty <==> forall k: nat | k < n :: !segs[k].Line?
    ensures id in VerdictOf(segs).value.unpaired <==> OpenCall(Events(segs[..n]), id)
  {
    hide Events, Lines, LastIsUse, LastCoherent, Pending;
    var m := Trusted(segs);
    assert m == n;
    LinesCount(segs[..n]);
    assert (set k: nat | k < |segs[..n]| && segs[..n][k].Line?) == set k: nat | k < n && segs[k].Line?;
    PendingIsLastUse(Events(segs[..n]), id);
    OpenIsLastUse(Events(segs[..n]), id);
  }

  // A message with a uuid at which every call so far is answered.
  ghost predicate Settles(segs: seq<Segment>, k: nat) {
    k < |segs| && segs[k].Line? && segs[k].uuid.Some? && AllAnswered(Events(segs[..k + 1]))
  }

  /** The anchor is the uuid of the last settling message before the first unusable line, and absent exactly
      where there is none. */
  lemma AnchorIff(segs: seq<Segment>, n: nat)
    requires VerdictOf(segs).Some? && n <= |segs|
    requires (forall k: nat | k < n :: !segs[k].Bad?) && (n < |segs| ==> segs[n].Bad?)
    ensures VerdictOf(segs).value.anchor.None? <==> forall k: nat | k < n :: !Settles(segs, k)
    ensures forall k: nat | k < n && Settles(segs, k) && (forall j: nat | k < j < n :: !Settles(segs, j)) ::
      VerdictOf(segs).value.anchor == segs[k].uuid
  {
    assert Trusted(segs) == n;
    hide Events, Lines, AllAnswered, Settled, Pending;
    forall k: nat | k < n ensures Coherent(segs, k) <==> Settles(segs, k) { NoneOpen(Events(segs[..k + 1])); }
  }

  // ---- the repair anchor ------------------------------------------------------------------------------------

  lemma {:induction false} CoherentInPrefix(segs: seq<Segment>, cut: seq<Segment>, n: nat)
    requires n <= |segs| && n <= |cut| && segs[..n] == cut[..n]
    ensures LastCoherent(segs, n) == LastCoherent(cut, n)
  {
    hide Events, Settled;
    if n > 0 {
      assert segs[..n][n - 1] == cut[..n][n - 1];
      assert segs[..n - 1] == segs[..n][..n - 1] == cut[..n - 1];
      CoherentInPrefix(segs, cut, n - 1);
    }
  }

  // The verdict on the transcript cut after segment k, which is trusted: as is, or with a final newline.
  lemma CutVerdict(segs: seq<Segment>, k: nat, newline: bool)
    requires k < Trusted(segs)
    ensures var cut := segs[..k + 1] + (if newline then [Blank] else []);
      var at := LastCoherent(segs, k + 1);
      && VerdictOf(cut).Some?
      && VerdictOf(cut).value == Verdict(
          Lines(segs[..k + 1]) > 0 && Pending(Events(segs[..k + 1])) == [],
          if at.Some? then segs[at.value].uuid else None,
          Pending(Events(segs[..k + 1])), false, false, Lines(segs[..k + 1]) == 0, Lines(segs[..k + 1]))
  {
    hide Pending, Events, Lines, LastIsUse, LastCoherent, Trusted;
    var head := segs[..k + 1];
    var cut := head + (if newline then [Blank] else []);
    TrustedIs(cut, |cut|);
    assert cut[..k + 1] == head && cut[..|cut|] == cut;
    CoherentInPrefix(segs, cut, k + 1);
    if newline {
      OneMore(cut, k + 1);
    }
  }

  lemma LineCounted(segs: seq<Segment>, k: nat)
    requires k < |segs| && segs[k].Line?
    ensures Lines(segs[..k + 1]) > 0
  {
    OneMore(segs, k);
  }

  /** Repair: cut after the anchor line, with or without its newline, the transcript is safe to resume
      and keeps its anchor. */
  lemma AnchorIsSafe(segs: seq<Segment>, k: nat, newline: bool)
    requires LastCoherent(segs, Trusted(segs)) == Some(k)
    ensures var cut := VerdictOf(segs[..k + 1] + if newline then [Blank] else []);
      cut.Some? && cut.value.safe && cut.value.anchor == segs[k].uuid
    ensures VerdictOf(segs).Some? ==> VerdictOf(segs).value.anchor == segs[k].uuid
  {
    hide Pending, Events, Lines, Trusted, Settled;
    CutVerdict(segs, k, newline);
    LineCounted(segs, k);
    NonePending(Events(segs[..k + 1]));
  }

  /** The anchor is the best one: a trusted prefix ending in a line with a uuid is safe exactly when
      no tool use is open there, and none longer than the anchor's is.  Without an anchor none is. */
  lemma AnchorIsLongest(segs: seq<Segment>, j: nat)
    requires j < Trusted(segs) && segs[j].Line? && segs[j].uuid.Some?
    ensures VerdictOf(segs[..j + 1]).Some?
    ensures VerdictOf(segs[..j + 1]).value.safe <==> Settled(Events(segs[..j + 1]))
    ensures VerdictOf(segs[..j + 1]).value.safe ==>
      var at := LastCoherent(segs, Trusted(segs)); at.Some? && j <= at.value
  {
    hide Pending, Events, Lines, Trusted, Settled;
    assert segs[..j + 1] + [] == segs[..j + 1];
    CutVerdict(segs, j, false);
    LineCounted(segs, j);
    NonePending(Events(segs[..j + 1]));
  }

  // ---- from the text ------------------------------------------------------------------------------------------

  function Split(text: string): (lines: seq<string>)
    ensures lines != []
  {
    if text == "" then [""]
    else
      var rest := Split(text[1..]);
      if text[0] == '\n' then [""] + rest else [[text[0]] + rest[0]] + rest[1..]
  }

  function Join(lines: seq<string>): string
    requires lines != []
  {
    if |lines| == 1 then lines[0] else lines[0] + "\n" + Join(lines[1..])
  }

  function Segments(parse: string -> Segment, lines: seq<string>): (segs: seq<Segment>)
    ensures |segs| == |lines| && forall k | 0 <= k < |lines| :: segs[k] == parse(lines[k])
  {
    seq(|lines|, k requires 0 <= k < |lines| => parse(lines[k]))
  }

  lemma {:induction false} JoinSplit(text: string)
    ensures Join(Split(text)) == text
  {
    if text != "" {
      JoinSplit(text[1..]);
      var rest := Split(text[1..]);
      var all := Split(text);
      if text[0] == '\n' {
        assert all[1..] == rest;
      } else {
        assert all[1..] == rest[1..];
      }
      assert text == [text[0]] + text[1..];
    }
  }

  lemma {:induction false} SplitJoin(lines: seq<string>)
    requires lines != [] && forall line <- lines :: '\n' !in line
    ensures Split(Join(lines)) == lines
    decreases |lines|, |lines[0]|
  {
    var text := Join(lines);
    var tail := if |lines| == 1 then "" else "\n" + Join(lines[1..]);
    assert text == lines[0] + tail;
    if lines[0] == "" {
      if |lines| > 1 {
        SplitJoin(lines[1..]);
        assert text[1..] == Join(lines[1..]);
        assert lines == [""] + lines[1..];
      }
    } else {
      var line := lines[0];
      var shorter := [line[1..]] + lines[1..];
      assert text[1..] == line[1..] + tail;
      assert shorter[1..] == lines[1..];
      assert Join(shorter) == text[1..];
      assert '\n' !in line[1..] by { assert forall x <- line[1..] :: x in line; }
      SplitJoin(shorter);
      assert text[0] == line[0] && line[0] in line;
      assert line == [line[0]] + line[1..];
    }
  }

  lemma {:induction false} SplitClean(text: string)
    ensures forall line <- Split(text) :: '\n' !in line
  {
    if text != "" {
      SplitClean(text[1..]);
    }
  }

  lemma {:induction false} JoinConcat(a: seq<string>, b: seq<string>)
    requires a != [] && b != []
    ensures Join(a + b) == Join(a) + "\n" + Join(b)
  {
    if |a| > 1 {
      JoinConcat(a[1..], b);
      assert (a + b)[1..] == a[1..] + b;
    } else {
      assert (a + b)[1..] == b;
    }
  }

  method ValidateText(parse: string -> Segment, text: string) returns (verdict: Option<Verdict>)
    ensures verdict == VerdictOf(Segments(parse, Split(text)))
  {
    verdict := Validate(Segments(parse, Split(text)));
  }

  // The text cut after line k.
  function CutText(text: string, k: nat, newline: bool): string
    requires k < |Split(text)|
  {
    Join(Split(text)[..k + 1]) + if newline then "\n" else ""
  }

  lemma CutTextSplits(text: string, k: nat, newline: bool)
    requires k < |Split(text)|
    ensures Split(CutText(text, k, newline)) == Split(text)[..k + 1] + if newline then [""] else []
    ensures CutText(text, k, false) <= text
    ensures newline && k + 1 < |Split(text)| ==> CutText(text, k, true) <= text
  {
    hide Split, Join;
    var lines := Split(text);
    var head := lines[..k + 1];
    SplitClean(text);
    JoinSplit(text);
    if newline {
      assert Join([""]) == "" by { EmptyLine(); }
      JoinConcat(head, [""]);
      SplitJoin(head + [""]);
      assert CutText(text, k, newline) == Join(head + [""]);
    } else {
      SplitJoin(head);
      assert CutText(text, k, newline) == Join(head);
    }
    if k + 1 < |lines| {
      JoinConcat(head, lines[k + 1..]);
      assert head + lines[k + 1..] == lines;
    } else {
      assert head == lines;
    }
  }

  lemma EmptyLine()
    ensures Join([""]) == ""
  {
  }

  /** Repair on the text itself: the prefix of the transcript that ends with the anchor's line. */
  lemma RepairedTextIsSafe(parse: string -> Segment, text: string, k: nat, newline: bool)
    requires parse("") == Blank
    requires var segs := Segments(parse, Split(text)); LastCoherent(segs, Trusted(segs)) == Some(k)
    ensures CutText(text, k, false) <= text
    ensures var cut := VerdictOf(Segments(parse, Split(CutText(text, k, newline))));
      cut.Some? && cut.value.safe && cut.value.anchor == Segments(parse, Split(text))[k].uuid
  {
    hide Split, Join, VerdictOf, LastCoherent, Trusted, Coherent, CutText;
    var segs := Segments(parse, Split(text));
    CutTextSplits(text, k, newline);
    assert Segments(parse, Split(CutText(text, k, newline))) == segs[..k + 1] + if newline then [Blank] else [];
    AnchorIsSafe(segs, k, newline);
  }
}
