/** The memo key's canonical text (core/src/pipelines/inputHash.ts).

Strings are sequences of UTF-16 code units.  A finite number is represented by the text
JSON.stringify gives it; the digest itself is not modelled.
*/
module InputHash {
  import opened Sorting

  type CodeUnit = u: int | 0 <= u < 0x10000
  type Text = seq<CodeUnit>

  const QUOTE: CodeUnit := 34
  const BACKSLASH: CodeUnit := 92
  const COMMA: CodeUnit := 44
  const COLON: CodeUnit := 58
  const OPEN_ARRAY: CodeUnit := 91
  const CLOSE_ARRAY: CodeUnit := 93
  const OPEN_OBJECT: CodeUnit := 123
  const CLOSE_OBJECT: CodeUnit := 125
  const NULL_TEXT: Text := [110, 117, 108, 108]
  const TRUE_TEXT: Text := [116, 114, 117, 101]
  const FALSE_TEXT: Text := [102, 97, 108, 115, 101]

  // The characters of a number literal: digits, '-', '+', '.', 'e'.
  predicate IsNumUnit(u: CodeUnit) {
    48 <= u <= 57 || u == 45 || u == 43 || u == 46 || u == 101
  }

  type NumText = t: Text | t != [] && forall u <- t :: IsNumUnit(u) witness [48]

  datatype Json =
    | Undefined
    | Null
    | NonFinite
    | Bool(b: bool)
    | Num(text: NumText)
    | Str(s: Text)
    | Arr(elems: seq<Json>)
    | Obj(members: seq<Member>)

  datatype Member = Member(key: Text, value: Json)

  // An object has each key once.
  ghost predicate Wf(v: Json) {
    match v
    case Arr(elems) => forall e <- elems :: Wf(e)
    case Obj(members) => DistinctKeys(members) && forall m <- members :: Wf(m.value)
    case _ => true
  }

  ghost predicate DistinctKeys(ms: seq<Member>) {
    forall i, j | 0 <= i < j < |ms| :: ms[i].key != ms[j].key
  }

  // ---- key order ---------------------------------------------------------------------------

  // String comparison by code units.
  predicate Less(a: Text, b: Text) {
    if b == [] then false
    else if a == [] then true
    else if a[0] != b[0] then a[0] < b[0]
    else Less(a[1..], b[1..])
  }

  lemma {:induction false} LessTransitive(a: Text, b: Text, c: Text)
    requires Less(a, b) && Less(b, c)
    ensures Less(a, c)
  {
    if a != [] && a[0] == b[0] == c[0] {
      LessTransitive(a[1..], b[1..], c[1..]);
    }
  }

  lemma {:induction false} LessTotal(a: Text, b: Text)
    ensures !(Less(a, b) && Less(b, a))
    ensures a == b <==> !Less(a, b) && !Less(b, a)
  {
    if a != [] && b != [] && a[0] == b[0] {
      LessTotal(a[1..], b[1..]);
      assert a == [a[0]] + a[1..] && b == [b[0]] + b[1..];
    }
  }

  /** The order is that of the code units: a string comes before another one exactly when it is a proper prefix of
      it, or has the smaller unit where they first differ. */
  lemma {:induction false} LessIff(a: Text, b: Text)
    ensures Less(a, b) <==> exists k: nat :: Parts(a, b, k)
  {
    if a == [] && b != [] {
      assert Parts(a, b, 0);
    } else if a != [] && b != [] {
      if a[0] != b[0] {
        if a[0] < b[0] {
          assert Parts(a, b, 0);
        }
      } else {
        LessIff(a[1..], b[1..]);
        if k: nat :| Parts(a[1..], b[1..], k) {
          assert forall i: nat | 0 < i < k + 1 :: a[i] == a[1..][i - 1] && b[i] == b[1..][i - 1];
          assert Parts(a, b, k + 1);
        }
        if k: nat :| Parts(a, b, k) {
          assert k > 0 && Parts(a[1..], b[1..], k - 1);
        }
      }
    }
  }

  // The strings agree up to k, where the first ends or has the smaller unit.
  ghost predicate Parts(a: Text, b: Text, k: nat) {
    && k <= |a| && k < |b| && (forall i: nat | i < k :: a[i] == b[i])
    && (k < |a| ==> a[k] < b[k])
  }

  ghost predicate Ascending(ms: seq<Member>) {
    forall i, j | 0 <= i < j < |ms| :: Less(ms[i].key, ms[j].key)
  }

  function ByKey(): (Member, Member) -> bool { (a: Member, b: Member) => !Less(b.key, a.key) }

  function Defined(ms: seq<Member>): (r: seq<Member>)
    ensures forall m :: m in r <==> m in ms && !m.value.Undefined?
  {
    if ms == [] then []
    else
      assert ms == [ms[0]] + ms[1..];
      (if ms[0].value.Undefined? then [] else [ms[0]]) + Defined(ms[1..])
  }

  // The members an object contributes, in the order it contributes them.
  function Entries(ms: seq<Member>): (r: seq<Member>)
    ensures forall m :: m in r <==> m in ms && !m.value.Undefined?
  {
    SortBy(Defined(ms), ByKey())
  }

  // ---- canonicalize ----------------------------------------------------------------------------

  predicate IsHigh(u: CodeUnit) { 0xD800 <= u < 0xDC00 }
  predicate IsLow(u: CodeUnit) { 0xDC00 <= u < 0xE000 }

  function Hex(d: int): CodeUnit
    requires 0 <= d < 16
  {
    if d < 10 then 48 + d else 87 + d
  }

  function EscapeUnit(u: CodeUnit): Text {
    if u == 34 then [BACKSLASH, 34]
    else if u == 92 then [BACKSLASH, 92]
    else if u == 8 then [BACKSLASH, 98]
    else if u == 9 then [BACKSLASH, 116]
    else if u == 10 then [BACKSLASH, 110]
    else if u == 12 then [BACKSLASH, 102]
    else if u == 13 then [BACKSLASH, 114]
    else if u < 32 || IsHigh(u) || IsLow(u) then
      [BACKSLASH, 117, Hex(u / 4096), Hex(u / 256 % 16), Hex(u / 16 % 16), Hex(u % 16)]
    else [u]
  }

  // Well-formed JSON.stringify: surrogate pairs stay, lone surrogates are escaped.
  function Escape(s: Text): Text {
    if s == [] then []
    else if |s| >= 2 && IsHigh(s[0]) && IsLow(s[1]) then [s[0], s[1]] + Escape(s[2..])
    else EscapeUnit(s[0]) + Escape(s[1..])
  }

  function Quote(s: Text): Text { [QUOTE] + Escape(s) + [QUOTE] }

  function Canonicalize(v: Json): Text
    decreases v, 0
  {
    match v
    case Undefined => NULL_TEXT
    case Null => NULL_TEXT
    case NonFinite => NULL_TEXT
    case Bool(b) => if b then TRUE_TEXT else FALSE_TEXT
    case Num(text) => text
    case Str(s) => Quote(s)
    case Arr(elems) => [OPEN_ARRAY] + JoinElems(v, elems) + [CLOSE_ARRAY]
    case Obj(members) => [OPEN_OBJECT] + JoinMembers(v, Entries(members)) + [CLOSE_OBJECT]
  }

  function JoinElems(ghost whole: Json, elems: seq<Json>): Text
    requires forall i | 0 <= i < |elems| :: elems[i] < whole
    decreases whole, 0, |elems|
  {
    if elems == [] then []
    else if |elems| == 1 then Canonicalize(elems[0])
    else Canonicalize(elems[0]) + [COMMA] + JoinElems(whole, elems[1..])
  }

  function JoinMembers(ghost whole: Json, ms: seq<Member>): Text
    requires forall m <- ms :: m.value < whole
    decreases whole, 0, |ms|
  {
    if ms == [] then []
    else
      var first := Quote(ms[0].key) + [COLON] + Canonicalize(ms[0].value);
      if |ms| == 1 then first else first + [COMMA] + JoinMembers(whole, ms[1..])
  }

  // ---- the value a canonical text stands for -----------------------------------------------------

  // Undefined members dropped, keys sorted, anything JSON.stringify renders as null nulled.
  ghost function Norm(v: Json): Json
    decreases v, 0
  {
    match v
    case Undefined => Null
    case NonFinite => Null
    case Arr(elems) => Arr(NormElems(v, elems))
    case Obj(members) => Obj(NormMembers(v, Entries(members)))
    case _ => v
  }

  ghost function NormElems(whole: Json, elems: seq<Json>): (r: seq<Json>)
    requires forall i | 0 <= i < |elems| :: elems[i] < whole
    ensures |r| == |elems| && forall i | 0 <= i < |elems| :: r[i] == Norm(elems[i])
    decreases whole, 0, |elems|
  {
    if elems == [] then [] else [Norm(elems[0])] + NormElems(whole, elems[1..])
  }

  ghost function NormMembers(whole: Json, ms: seq<Member>): (r: seq<Member>)
    requires forall m <- ms :: m.value < whole
    ensures |r| == |ms| && forall i | 0 <= i < |ms| :: r[i] == Member(ms[i].key, Norm(ms[i].value))
    decreases whole, 0, |ms|
  {
    if ms == [] then [] else [Member(ms[0].key, Norm(ms[0].value))] + NormMembers(whole, ms[1..])
  }
}
