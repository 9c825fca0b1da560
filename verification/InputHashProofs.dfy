/** The canonical text can be parsed back, so it determines the value it came from. */
module InputHashProofs {
  import opened Base
  import opened Sorting
  import opened InputHash

  datatype Parsed<T> = Fail | Got(value: T, rest: Text)

  // ---- strings --------------------------------------------------------------------------------

  ghost function UnHex(u: CodeUnit): Option<int> {
    if 48 <= u <= 57 then Some(u - 48) else if 97 <= u <= 102 then Some(u - 87) else None
  }

  ghost function UnHex4(t: Text): Option<CodeUnit>
    requires |t| >= 4
  {
    if UnHex(t[0]).Some? && UnHex(t[1]).Some? && UnHex(t[2]).Some? && UnHex(t[3]).Some?
    then Some(UnHex(t[0]).value * 4096 + UnHex(t[1]).value * 256 + UnHex(t[2]).value * 16 + UnHex(t[3]).value)
    else None
  }

  ghost function UnEscape(u: CodeUnit): Option<CodeUnit> {
    if u == 34 then Some(34) else if u == 92 then Some(92) else if u == 98 then Some(8)
    else if u == 116 then Some(9) else if u == 110 then Some(10) else if u == 102 then Some(12)
    else if u == 114 then Some(13) else None
  }

  ghost function Cons(u: CodeUnit, p: Parsed<Text>): Parsed<Text> {
    if p.Fail? then Fail else Got([u] + p.value, p.rest)
  }

  // The rest of a string literal, after its opening quote.
  ghost function ParseString(t: Text): (r: Parsed<Text>)
    ensures r.Got? ==> |r.rest| < |t|
    decreases |t|
  {
    if t == [] then Fail
    else if t[0] == QUOTE then Got([], t[1..])
    else if t[0] != BACKSLASH then Cons(t[0], ParseString(t[1..]))
    else if |t| >= 6 && t[1] == 117 && UnHex4(t[2..]).Some? then Cons(UnHex4(t[2..]).value, ParseString(t[6..]))
    else if |t| >= 2 && UnEscape(t[1]).Some? then Cons(UnEscape(t[1]).value, ParseString(t[2..]))
    else Fail
  }

  lemma Hex4RoundTrip(u: CodeUnit)
    ensures UnHex4([Hex(u / 4096), Hex(u / 256 % 16), Hex(u / 16 % 16), Hex(u % 16)]) == Some(u)
  {
    HexRoundTrip(u / 4096);
    HexRoundTrip(u / 256 % 16);
    HexRoundTrip(u / 16 % 16);
    HexRoundTrip(u % 16);
    FourDigits(u);
  }

  lemma HexRoundTrip(d: int)
    requires 0 <= d < 16
    ensures UnHex(Hex(d)) == Some(d)
  {
  }

  lemma FourDigits(u: nat)
    ensures u == u / 4096 * 4096 + u / 256 % 16 * 256 + u / 16 % 16 * 16 + u % 16
  {
    assert u / 16 / 16 == u / 256 && u / 256 / 16 == u / 4096;
  }

  lemma EscapeUnitRoundTrip(u: CodeUnit, t: Text)
    ensures ParseString(EscapeUnit(u) + t) == Cons(u, ParseString(t))
  {
    var e := EscapeUnit(u);
    var whole := e + t;
    assert whole[|e|..] == t;
    if |e| == 6 {
      Hex4RoundTrip(u);
      assert whole[2..6] == e[2..6];
      assert forall k | 0 <= k < 4 :: whole[2..][k] == e[2..][k];
      assert UnHex4(whole[2..]) == UnHex4(e[2..]);
      assert e[2..] == [Hex(u / 4096), Hex(u / 256 % 16), Hex(u / 16 % 16), Hex(u % 16)];
    }
  }

  lemma {:induction false} QuoteRoundTrip(s: Text, rest: Text)
    ensures ParseString(Escape(s) + [QUOTE] + rest) == Got(s, rest)
    decreases |s|
  {
    hide EscapeUnit, ParseString;
    if s == [] {
      QuoteEnd(rest);
    } else if |s| >= 2 && IsHigh(s[0]) && IsLow(s[1]) {
      PairStep(s[0], s[1], s[2..], rest);
      QuoteRoundTrip(s[2..], rest);
      assert s == [s[0]] + ([s[1]] + s[2..]);
    } else {
      QuoteStep(s[0], s[1..], rest);
      QuoteRoundTrip(s[1..], rest);
      assert s == [s[0]] + s[1..];
    }
  }

  lemma QuoteEnd(rest: Text)
    ensures ParseString([] + [QUOTE] + rest) == Got([], rest)
  {
    assert [] + [QUOTE] + rest == [QUOTE] + rest && ([QUOTE] + rest)[1..] == rest;
  }

  lemma PairStep(a: CodeUnit, b: CodeUnit, s: Text, rest: Text)
    requires IsHigh(a) && IsLow(b)
    ensures ParseString([a, b] + Escape(s) + [QUOTE] + rest) == Cons(a, Cons(b, ParseString(Escape(s) + [QUOTE] + rest)))
  {
    hide Escape, ParseString, Cons;
    var more := Escape(s) + [QUOTE] + rest;
    assert [a, b] + Escape(s) + [QUOTE] + rest == [a, b] + more;
    LiteralPair(a, b, more);
  }

  lemma QuoteStep(u: CodeUnit, s: Text, rest: Text)
    ensures ParseString(EscapeUnit(u) + Escape(s) + [QUOTE] + rest) == Cons(u, ParseString(Escape(s) + [QUOTE] + rest))
  {
    hide EscapeUnit, Escape, ParseString, Cons;
    var more := Escape(s) + [QUOTE] + rest;
    assert EscapeUnit(u) + Escape(s) + [QUOTE] + rest == EscapeUnit(u) + more;
    EscapeUnitRoundTrip(u, more);
  }

  lemma LiteralPair(a: CodeUnit, b: CodeUnit, t: Text)
    requires IsHigh(a) && IsLow(b)
    ensures ParseString([a, b] + t) == Cons(a, Cons(b, ParseString(t)))
  {
    var whole := [a, b] + t;
    assert whole[1..] == [b] + t && ([b] + t)[1..] == t;
  }

  // ---- values ----------------------------------------------------------------------------------

  ghost function NumLen(t: Text): (n: nat)
    ensures n <= |t| && forall k | 0 <= k < n :: IsNumUnit(t[k])
    ensures n < |t| ==> !IsNumUnit(t[n])
  {
    if t == [] || !IsNumUnit(t[0]) then 0 else 1 + NumLen(t[1..])
  }

  ghost function ParseValue(t: Text): (r: Parsed<Json>)
    ensures r.Got? ==> |r.rest| < |t|
    decreases |t|, 0
  {
    if NULL_TEXT <= t then Got(Null, t[4..])
    else if TRUE_TEXT <= t then Got(Bool(true), t[4..])
    else if FALSE_TEXT <= t then Got(Bool(false), t[5..])
    else if t == [] then Fail
    else if IsNumUnit(t[0]) then Got(Num(t[..NumLen(t)]), t[NumLen(t)..])
    else if t[0] == QUOTE then
      var s := ParseString(t[1..]);
      if s.Fail? then Fail else Got(Str(s.value), s.rest)
    else if t[0] == OPEN_ARRAY then
      if |t| > 1 && t[1] == CLOSE_ARRAY then Got(Arr([]), t[2..])
      else
        var es := ParseElems(t[1..]);
        if es.Fail? then Fail else Got(Arr(es.value), es.rest)
    else if t[0] == OPEN_OBJECT then
      if |t| > 1 && t[1] == CLOSE_OBJECT then Got(Obj([]), t[2..])
      else
        var ms := ParseMembers(t[1..]);
        if ms.Fail? then Fail else Got(Obj(ms.value), ms.rest)
    else Fail
  }

  ghost function ParseElems(t: Text): (r: Parsed<seq<Json>>)
    ensures r.Got? ==> |r.rest| < |t|
    decreases |t|, 1
  {
    var v := ParseValue(t);
    if v.Fail? || v.rest == [] then Fail
    else if v.rest[0] == CLOSE_ARRAY then Got([v.value], v.rest[1..])
    else if v.rest[0] == COMMA then
      var es := ParseElems(v.rest[1..]);
      if es.Fail? then Fail else Got([v.value] + es.value, es.rest)
    else Fail
  }

  ghost function ParseMember(t: Text): (r: Parsed<Member>)
    ensures r.Got? ==> |r.rest| < |t|
    decreases |t|, 1
  {
    if t == [] || t[0] != QUOTE then Fail
    else
      var k := ParseString(t[1..]);
      if k.Fail? || k.rest == [] || k.rest[0] != COLON then Fail
      else
        var v := ParseValue(k.rest[1..]);
        if v.Fail? then Fail else Got(Member(k.value, v.value), v.rest)
  }

  ghost function ParseMembers(t: Text): (r: Parsed<seq<Member>>)
    ensures r.Got? ==> |r.rest| < |t|
    decreases |t|, 2
  {
    var m := ParseMember(t);
    if m.Fail? || m.rest == [] then Fail
    else if m.rest[0] == CLOSE_OBJECT then Got([m.value], m.rest[1..])
    else if m.rest[0] == COMMA then
      var ms := ParseMembers(m.rest[1..]);
      if ms.Fail? then Fail else Got([m.value] + ms.value, ms.rest)
    else Fail
  }

  // What can follow a value: the end, a comma, or a closing bracket.
  ghost predicate Delimited(rest: Text) {
    rest == [] || rest[0] == COMMA || rest[0] == CLOSE_ARRAY || rest[0] == CLOSE_OBJECT
  }

  lemma {:induction false} NumRoundTrip(n: Text, rest: Text)
    requires (forall u <- n :: IsNumUnit(u)) && Delimited(rest)
    ensures NumLen(n + rest) == |n|
  {
    if n == [] {
      assert n + rest == rest;
    } else {
      assert (n + rest)[1..] == n[1..] + rest;
      NumRoundTrip(n[1..], rest);
    }
  }

  // A canonical text never starts with a delimiter.
  lemma CanonHead(v: Json)
    ensures Canonicalize(v) != [] && !Delimited(Canonicalize(v))
  {
    match v
    case Num(text) => assert text[0] in text;
    case _ =>
  }

  /** The round trip: parsing a canonical text gives back the normal form of the value. */
  lemma {:induction false} CanonRoundTrip(v: Json, rest: Text)
    requires Delimited(rest)
    ensures ParseValue(Canonicalize(v) + rest) == Got(Norm(v), rest)
    decreases v, 0
  {
    hide ParseValue;
    match v
    case Undefined => NullRoundTrip(rest);
    case Null => NullRoundTrip(rest);
    case NonFinite => NullRoundTrip(rest);
    case Bool(b) => BoolRoundTrip(b, rest);
    case Num(text) => NumberRoundTrip(text, rest);
    case Str(s) => StringRoundTrip(s, rest);
    case Arr(elems) =>
      if elems == [] {
        assert Canonicalize(v) + rest == [OPEN_ARRAY, CLOSE_ARRAY] + rest;
        EmptyRoundTrip(rest);
      } else {
        ElemsRoundTrip(v, elems, rest);
        JoinElemsHead(v, elems);
        ArrayHead(JoinElems(v, elems), rest);
      }
    case Obj(members) =>
      var ms := Entries(members);
      if ms == [] {
        assert Canonicalize(v) + rest == [OPEN_OBJECT, CLOSE_OBJECT] + rest;
        EmptyRoundTrip(rest);
      } else {
        MembersRoundTrip(v, ms, rest);
        JoinMembersHead(v, ms);
        ObjectHead(JoinMembers(v, ms), rest);
      }
  }

  lemma NullRoundTrip(rest: Text)
    ensures ParseValue(NULL_TEXT + rest) == Got(Null, rest)
  {
    var t := NULL_TEXT + rest;
    assert t[..4] == NULL_TEXT && t[4..] == rest;
  }

  lemma BoolRoundTrip(b: bool, rest: Text)
    ensures ParseValue((if b then TRUE_TEXT else FALSE_TEXT) + rest) == Got(Bool(b), rest)
  {
    var t := (if b then TRUE_TEXT else FALSE_TEXT) + rest;
    assert t[0] == if b then 116 else 102;
    assert if b then t[..4] == TRUE_TEXT && t[4..] == rest else t[..5] == FALSE_TEXT && t[5..] == rest;
  }

  lemma NumberRoundTrip(n: NumText, rest: Text)
    requires Delimited(rest)
    ensures ParseValue(n + rest) == Got(Num(n), rest)
  {
    NumRoundTrip(n, rest);
    var t := n + rest;
    assert n[0] in n && t[0] == n[0];
    assert t[..|n|] == n && t[|n|..] == rest;
  }

  lemma EmptyRoundTrip(rest: Text)
    ensures ParseValue([OPEN_ARRAY, CLOSE_ARRAY] + rest) == Got(Arr([]), rest)
    ensures ParseValue([OPEN_OBJECT, CLOSE_OBJECT] + rest) == Got(Obj([]), rest)
  {
    hide ParseString, ParseElems, ParseMembers, NumLen;
    var a, o := [OPEN_ARRAY, CLOSE_ARRAY] + rest, [OPEN_OBJECT, CLOSE_OBJECT] + rest;
    assert a[0] == OPEN_ARRAY && a[1] == CLOSE_ARRAY && a[2..] == rest;
    assert o[0] == OPEN_OBJECT && o[1] == CLOSE_OBJECT && o[2..] == rest;
    NotALiteral(a);
    NotALiteral(o);
  }

  // Only these words begin like a literal.
  lemma NotALiteral(t: Text)
    requires t != [] && t[0] != 110 && t[0] != 116 && t[0] != 102
    ensures !(NULL_TEXT <= t) && !(TRUE_TEXT <= t) && !(FALSE_TEXT <= t)
  {
  }

  lemma StringRoundTrip(s: Text, rest: Text)
    ensures ParseValue(Quote(s) + rest) == Got(Str(s), rest)
  {
    hide ParseString, Escape, ParseElems, ParseMembers, NumLen;
    var u := Escape(s) + [QUOTE] + rest;
    var t := [QUOTE] + u;
    assert Quote(s) + rest == t && t[1..] == u;
    NotALiteral(t);
    QuoteRoundTrip(s, rest);
  }

  lemma ArrayHead(inner: Text, rest: Text)
    requires inner != [] && inner[0] != CLOSE_ARRAY
    ensures var es := ParseElems(inner + [CLOSE_ARRAY] + rest);
      ParseValue([OPEN_ARRAY] + inner + [CLOSE_ARRAY] + rest) == if es.Fail? then Fail else Got(Arr(es.value), es.rest)
  {
    hide ParseString, ParseElems, ParseMembers, NumLen;
    var u := inner + [CLOSE_ARRAY] + rest;
    var t := [OPEN_ARRAY] + u;
    assert [OPEN_ARRAY] + inner + [CLOSE_ARRAY] + rest == t && t[1..] == u && t[1] == inner[0];
    NotALiteral(t);
  }

  lemma ObjectHead(inner: Text, rest: Text)
    requires inner != [] && inner[0] != CLOSE_OBJECT
    ensures var ms := ParseMembers(inner + [CLOSE_OBJECT] + rest);
      ParseValue([OPEN_OBJECT] + inner + [CLOSE_OBJECT] + rest) == if ms.Fail? then Fail else Got(Obj(ms.value), ms.rest)
  {
    hide ParseString, ParseElems, ParseMembers, NumLen;
    var u := inner + [CLOSE_OBJECT] + rest;
    var t := [OPEN_OBJECT] + u;
    assert [OPEN_OBJECT] + inner + [CLOSE_OBJECT] + rest == t && t[1..] == u && t[1] == inner[0];
    NotALiteral(t);
  }

  lemma JoinElemsHead(whole: Json, elems: seq<Json>)
    requires elems != [] && forall i | 0 <= i < |elems| :: elems[i] < whole
    ensures JoinElems(whole, elems) != [] && !Delimited(JoinElems(whole, elems))
  {
    CanonHead(elems[0]);
  }

  lemma {:induction false} ElemsRoundTrip(whole: Json, elems: seq<Json>, rest: Text)
    requires elems != [] && forall i | 0 <= i < |elems| :: elems[i] < whole
    ensures ParseElems(JoinElems(whole, elems) + [CLOSE_ARRAY] + rest) == Got(NormElems(whole, elems), rest)
    decreases whole, 0, |elems|
  {
    hide ParseElems, Canonicalize, Norm;
    var text := Canonicalize(elems[0]);
    if |elems| == 1 {
      CanonRoundTrip(elems[0], [CLOSE_ARRAY] + rest);
      LastElem(text, rest, Norm(elems[0]));
      assert NormElems(whole, elems) == [Norm(elems[0])];
    } else {
      var more := JoinElems(whole, elems[1..]) + [CLOSE_ARRAY] + rest;
      CanonRoundTrip(elems[0], [COMMA] + more);
      ElemsRoundTrip(whole, elems[1..], rest);
      NextElem(text, more, rest, Norm(elems[0]), NormElems(whole, elems[1..]));
      assert JoinElems(whole, elems) + [CLOSE_ARRAY] + rest == text + [COMMA] + more;
    }
  }

  lemma LastElem(text: Text, rest: Text, v: Json)
    requires ParseValue(text + ([CLOSE_ARRAY] + rest)) == Got(v, [CLOSE_ARRAY] + rest)
    ensures ParseElems(text + [CLOSE_ARRAY] + rest) == Got([v], rest)
  {
    hide ParseValue;
    assert text + [CLOSE_ARRAY] + rest == text + ([CLOSE_ARRAY] + rest);
    assert ([CLOSE_ARRAY] + rest)[1..] == rest;
  }

  lemma NextElem(text: Text, more: Text, rest: Text, v: Json, es: seq<Json>)
    requires ParseValue(text + ([COMMA] + more)) == Got(v, [COMMA] + more)
    requires ParseElems(more) == Got(es, rest)
    ensures ParseElems(text + [COMMA] + more) == Got([v] + es, rest)
  {
    hide ParseValue;
    assert text + [COMMA] + more == text + ([COMMA] + more);
    assert ([COMMA] + more)[1..] == more;
  }

  lemma JoinMembersHead(whole: Json, ms: seq<Member>)
    requires ms != [] && forall m <- ms :: m.value < whole
    ensures JoinMembers(whole, ms) != [] && JoinMembers(whole, ms)[0] == QUOTE
  {
    hide Canonicalize, Escape;
  }

  lemma LastMember(text: Text, rest: Text, m: Member)
    requires ParseMember(text + ([CLOSE_OBJECT] + rest)) == Got(m, [CLOSE_OBJECT] + rest)
    ensures ParseMembers(text + [CLOSE_OBJECT] + rest) == Got([m], rest)
  {
    hide ParseMember;
    assert text + [CLOSE_OBJECT] + rest == text + ([CLOSE_OBJECT] + rest);
    assert ([CLOSE_OBJECT] + rest)[1..] == rest;
  }

  lemma NextMember(text: Text, more: Text, rest: Text, m: Member, ms: seq<Member>)
    requires ParseMember(text + ([COMMA] + more)) == Got(m, [COMMA] + more)
    requires ParseMembers(more) == Got(ms, rest)
    ensures ParseMembers(text + [COMMA] + more) == Got([m] + ms, rest)
  {
    hide ParseMember;
    assert text + [COMMA] + more == text + ([COMMA] + more);
    assert ([COMMA] + more)[1..] == more;
  }

  lemma {:induction false} MemberRoundTrip(m: Member, rest: Text)
    requires Delimited(rest)
    ensures ParseMember(Quote(m.key) + [COLON] + Canonicalize(m.value) + rest) == Got(Member(m.key, Norm(m.value)), rest)
    decreases m.value, 1
  {
    hide ParseString, ParseValue, Escape, Canonicalize, Norm;
    var value := Canonicalize(m.value) + rest;
    QuoteRoundTrip(m.key, [COLON] + value);
    CanonRoundTrip(m.value, rest);
    MemberText(m.key, Canonicalize(m.value), rest);
    assert ([COLON] + value)[1..] == value;
  }

  lemma MemberText(key: Text, text: Text, rest: Text)
    ensures var t := Quote(key) + [COLON] + text + rest;
      t != [] && t[0] == QUOTE && t[1..] == Escape(key) + [QUOTE] + ([COLON] + (text + rest))
  {
    hide Escape;
    var u := Escape(key) + [QUOTE] + ([COLON] + (text + rest));
    assert Quote(key) + [COLON] + text + rest == [QUOTE] + u;
    assert ([QUOTE] + u)[1..] == u;
  }

  lemma {:induction false} MembersRoundTrip(whole: Json, ms: seq<Member>, rest: Text)
    requires ms != [] && forall m <- ms :: m.value < whole
    ensures ParseMembers(JoinMembers(whole, ms) + [CLOSE_OBJECT] + rest) == Got(NormMembers(whole, ms), rest)
    decreases whole, 0, |ms|
  {
    hide ParseMembers, Canonicalize, Norm, Escape;
    var first := Quote(ms[0].key) + [COLON] + Canonicalize(ms[0].value);
    if |ms| == 1 {
      MemberRoundTrip(ms[0], [CLOSE_OBJECT] + rest);
      LastMember(first, rest, Member(ms[0].key, Norm(ms[0].value)));
      assert NormMembers(whole, ms) == [Member(ms[0].key, Norm(ms[0].value))];
    } else {
      var more := JoinMembers(whole, ms[1..]) + [CLOSE_OBJECT] + rest;
      MemberRoundTrip(ms[0], [COMMA] + more);
      MembersRoundTrip(whole, ms[1..], rest);
      NextMember(first, more, rest, Member(ms[0].key, Norm(ms[0].value)), NormMembers(whole, ms[1..]));
      assert JoinMembers(whole, ms) + [CLOSE_OBJECT] + rest == first + [COMMA] + more;
    }
  }

  // ---- equal texts, equal values --------------------------------------------------------------

  lemma {:induction false} SameNormSameText(a: Json, b: Json)
    requires Norm(a) == Norm(b)
    ensures Canonicalize(a) == Canonicalize(b)
    decreases a, 0
  {
    match a
    case Arr(xs) => SameElems(a, xs, b, b.elems);
    case Obj(ms) => SameMembers(a, Entries(ms), b, Entries(b.members));
    case _ =>
  }

  lemma {:induction false} SameElems(a: Json, xs: seq<Json>, b: Json, ys: seq<Json>)
    requires (forall i | 0 <= i < |xs| :: xs[i] < a) && (forall i | 0 <= i < |ys| :: ys[i] < b)
    requires NormElems(a, xs) == NormElems(b, ys)
    ensures JoinElems(a, xs) == JoinElems(b, ys)
    decreases a, 0, |xs|
  {
    assert |xs| == |ys|;
    if xs != [] {
      assert Norm(xs[0]) == NormElems(a, xs)[0] == Norm(ys[0]);
      SameNormSameText(xs[0], ys[0]);
      assert NormElems(a, xs)[1..] == NormElems(a, xs[1..]) && NormElems(b, ys)[1..] == NormElems(b, ys[1..]);
      SameElems(a, xs[1..], b, ys[1..]);
    }
  }

  lemma {:induction false} SameMembers(a: Json, xs: seq<Member>, b: Json, ys: seq<Member>)
    requires (forall m <- xs :: m.value < a) && (forall m <- ys :: m.value < b)
    requires NormMembers(a, xs) == NormMembers(b, ys)
    ensures JoinMembers(a, xs) == JoinMembers(b, ys)
    decreases a, 0, |xs|
  {
    assert |xs| == |ys|;
    if xs != [] {
      assert NormMembers(a, xs)[0] == Member(ys[0].key, Norm(ys[0].value));
      SameNormSameText(xs[0].value, ys[0].value);
      assert NormMembers(a, xs)[1..] == NormMembers(a, xs[1..]) && NormMembers(b, ys)[1..] == NormMembers(b, ys[1..]);
      SameMembers(a, xs[1..], b, ys[1..]);
    }
  }

  /** Canonical texts are equal exactly when the normal forms are. */
  lemma CanonicalIffNorm(a: Json, b: Json)
    ensures Canonicalize(a) == Canonicalize(b) <==> Norm(a) == Norm(b)
  {
    if Norm(a) == Norm(b) {
      SameNormSameText(a, b);
    }
    if Canonicalize(a) == Canonicalize(b) {
      CanonRoundTrip(a, []);
      CanonRoundTrip(b, []);
    }
  }

  // ---- equality up to key order and undefined members ---------------------------------------------

  ghost function Lookup(ms: seq<Member>, key: Text): (r: Option<Json>)
    ensures r.Some? ==> Member(key, r.value) in ms && !r.value.Undefined?
    ensures r.None? ==> forall m <- ms :: m.key == key ==> m.value.Undefined?
  {
    if ms == [] then None
    else if ms[0].key == key && !ms[0].value.Undefined? then Some(ms[0].value)
    else
      assert ms == [ms[0]] + ms[1..];
      Lookup(ms[1..], key)
  }

  // What JSON.stringify renders as null inside an array.
  ghost predicate Nullish(v: Json) { v.Null? || v.Undefined? || v.NonFinite? }

  ghost predicate Same(a: Json, b: Json)
    decreases a
  {
    match a
    case Arr(xs) => b.Arr? && |xs| == |b.elems| && forall i | 0 <= i < |xs| :: Same(xs[i], b.elems[i])
    case Obj(ms) =>
      && b.Obj?
      && (forall m <- ms | !m.value.Undefined? :: Lookup(b.members, m.key).Some? && Same(m.value, Lookup(b.members, m.key).value))
      && (forall m <- b.members | !m.value.Undefined? :: Lookup(ms, m.key).Some?)
    case _ => if Nullish(a) then Nullish(b) else a == b
  }

  // Members sorted by key, each key once, are fixed by what they contain.
  lemma {:induction false} AscendingUnique(xs: seq<Member>, ys: seq<Member>)
    requires Ascending(xs) && Ascending(ys) && forall m :: m in xs <==> m in ys
    ensures xs == ys
    decreases |xs|
  {
    assert xs == [] <==> ys == [] by {
      if xs != [] {
        assert xs[0] in xs;
      }
      if ys != [] {
        assert ys[0] in ys;
      }
    }
    if xs != [] {
      AscendingHead(xs, ys);
      AscendingTail(xs, ys);
      AscendingTail(ys, xs);
      AscendingUnique(xs[1..], ys[1..]);
      assert xs == [xs[0]] + xs[1..] && ys == [ys[0]] + ys[1..];
    }
  }

  lemma AscendingHead(xs: seq<Member>, ys: seq<Member>)
    requires Ascending(xs) && Ascending(ys) && xs != [] && ys != [] && forall m :: m in xs <==> m in ys
    ensures xs[0] == ys[0]
  {
    assert xs[0] in ys && ys[0] in xs;
    var i :| 0 <= i < |ys| && ys[i] == xs[0];
    var j :| 0 <= j < |xs| && xs[j] == ys[0];
    LessTotal(xs[0].key, ys[0].key);
  }

  lemma AscendingTail(xs: seq<Member>, ys: seq<Member>)
    requires Ascending(xs) && Ascending(ys) && xs != [] && ys != [] && xs[0] == ys[0] && forall m :: m in xs <==> m in ys
    ensures Ascending(xs[1..]) && forall m :: m in xs[1..] ==> m in ys[1..]
  {
    forall m <- xs[1..] ensures m in ys[1..] {
      assert m in xs && m in ys;
      var i :| 0 <= i < |xs[1..]| && xs[1..][i] == m;
      assert Less(xs[0].key, xs[1 + i].key);
      LessTotal(m.key, m.key);
      var j :| 0 <= j < |ys| && ys[j] == m;
      assert j > 0;
      assert ys[1..][j - 1] == m;
    }
  }

  lemma KeyOrder()
    ensures Preorder(ByKey())
  {
    forall a: Member, b: Member ensures ByKey()(a, b) || ByKey()(b, a) {
      LessTotal(a.key, b.key);
    }
    forall a: Member, b: Member, c: Member | ByKey()(a, b) && ByKey()(b, c) ensures ByKey()(a, c) {
      LessTotal(a.key, b.key);
      LessTotal(b.key, c.key);
      LessTotal(a.key, c.key);
      if Less(c.key, a.key) && a.key != b.key {
        LessTransitive(c.key, a.key, b.key);
      }
    }
  }

  lemma {:induction false} InsertDistinct(m: Member, ms: seq<Member>)
    requires DistinctKeys(ms) && forall x <- ms :: x.key != m.key
    ensures DistinctKeys(Insert(m, ms, ByKey()))
    decreases |ms|
  {
    if ms != [] && !ByKey()(m, ms[0]) {
      InsertDistinct(m, ms[1..]);
      var tail := Insert(m, ms[1..], ByKey());
      forall j | 0 <= j < |tail| ensures tail[j].key != ms[0].key {
        assert tail[j] in tail;
      }
    }
  }

  lemma {:induction false} SortDistinct(ms: seq<Member>)
    requires DistinctKeys(ms)
    ensures DistinctKeys(SortBy(ms, ByKey()))
    decreases |ms|
  {
    if ms != [] {
      SortDistinct(ms[1..]);
      InsertDistinct(ms[0], SortBy(ms[1..], ByKey()));
    }
  }

  lemma SortAscending(ms: seq<Member>)
    requires DistinctKeys(ms)
    ensures Ascending(SortBy(ms, ByKey()))
  {
    hide SortBy;
    KeyOrder();
    SortSorts(ms, ByKey());
    SortDistinct(ms);
    var r := SortBy(ms, ByKey());
    forall i, j | 0 <= i < j < |r| ensures Less(r[i].key, r[j].key) {
      assert ByKey()(r[i], r[j]);
      LessTotal(r[i].key, r[j].key);
    }
  }

  lemma {:induction false} DefinedDistinct(ms: seq<Member>)
    requires DistinctKeys(ms)
    ensures DistinctKeys(Defined(ms))
    decreases |ms|
  {
    if ms != [] {
      DefinedDistinct(ms[1..]);
      var rest := Defined(ms[1..]);
      forall j | 0 <= j < |rest| ensures rest[j].key != ms[0].key {
        assert rest[j] in rest && rest[j] in ms[1..];
      }
    }
  }

  lemma NormAscending(v: Json)
    requires v.Obj? && Wf(v)
    ensures Ascending(NormMembers(v, Entries(v.members)))
  {
    DefinedDistinct(v.members);
    SortAscending(Defined(v.members));
  }

  lemma LookupUnique(ms: seq<Member>, m: Member)
    requires DistinctKeys(ms) && m in ms && !m.value.Undefined?
    ensures Lookup(ms, m.key) == Some(m.value)
  {
  }

  // m is a member of the normal form exactly when it normalises a defined member.
  lemma NormHas(v: Json, m: Member)
    requires v.Obj?
    ensures m in NormMembers(v, Entries(v.members)) <==>
      exists x <- v.members :: !x.value.Undefined? && m == Member(x.key, Norm(x.value))
  {
    var es := Entries(v.members);
    var ns := NormMembers(v, es);
    if m in ns {
      var i :| 0 <= i < |ns| && ns[i] == m;
      assert es[i] in es;
    }
    if x :| x in v.members && !x.value.Undefined? && m == Member(x.key, Norm(x.value)) {
      assert x in es;
      var i :| 0 <= i < |es| && es[i] == x;
      assert ns[i] == m;
    }
  }

  /** Two values have the same normal form exactly when they are equal up to key order,
      undefined members, and the values JSON.stringify renders as null. */
  lemma {:induction false} SameIffNorm(a: Json, b: Json)
    requires Wf(a) && Wf(b)
    ensures Same(a, b) <==> Norm(a) == Norm(b)
    decreases a
  {
    match a
    case Arr(xs) =>
      if b.Arr? && |xs| == |b.elems| {
        forall i | 0 <= i < |xs| ensures Same(xs[i], b.elems[i]) <==> Norm(xs[i]) == Norm(b.elems[i]) {
          SameIffNorm(xs[i], b.elems[i]);
        }
        ElemsEqual(a, b);
      }
    case Obj(ms) =>
      if b.Obj? {
        forall x <- ms, y <- b.members | !x.value.Undefined?
          ensures Same(x.value, y.value) <==> Norm(x.value) == Norm(y.value)
        {
          SameIffNorm(x.value, y.value);
        }
        MembersEqual(a, b);
      }
    case _ =>
  }

  lemma ElemsEqual(a: Json, b: Json)
    requires a.Arr? && b.Arr? && |a.elems| == |b.elems|
    ensures Norm(a) == Norm(b) <==> forall i | 0 <= i < |a.elems| :: Norm(a.elems[i]) == Norm(b.elems[i])
  {
    var xs, ys := NormElems(a, a.elems), NormElems(b, b.elems);
    if xs == ys {
      forall i | 0 <= i < |a.elems| ensures Norm(a.elems[i]) == Norm(b.elems[i]) {
        assert xs[i] == ys[i];
      }
    }
  }

  lemma MembersEqual(a: Json, b: Json)
    requires a.Obj? && b.Obj? && Wf(a) && Wf(b)
    requires forall x <- a.members, y <- b.members | !x.value.Undefined? ::
      Same(x.value, y.value) <==> Norm(x.value) == Norm(y.value)
    ensures Same(a, b) <==> Norm(a) == Norm(b)
  {
    hide Norm, Wf;
    if Same(a, b) {
      SameGivesNorm(a, b);
    }
    if Norm(a) == Norm(b) {
      NormGivesSame(a, b);
    }
  }

  lemma SameGivesNorm(a: Json, b: Json)
    requires a.Obj? && b.Obj? && Wf(a) && Wf(b) && Same(a, b)
    requires forall x <- a.members, y <- b.members | !x.value.Undefined? ::
      Same(x.value, y.value) <==> Norm(x.value) == Norm(y.value)
    ensures Norm(a) == Norm(b)
  {
    var xs, ys := NormMembers(a, Entries(a.members)), NormMembers(b, Entries(b.members));
    NormAscending(a);
    NormAscending(b);
    forall m | m in xs ensures m in ys {
      NormHas(a, m);
      var x :| x in a.members && !x.value.Undefined? && m == Member(x.key, Norm(x.value));
      var y := Member(x.key, Lookup(b.members, x.key).value);
      assert y in b.members && Same(x.value, y.value);
      NormHas(b, m);
    }
    forall m | m in ys ensures m in xs {
      NormHas(b, m);
      var y :| y in b.members && !y.value.Undefined? && m == Member(y.key, Norm(y.value));
      var x := Member(y.key, Lookup(a.members, y.key).value);
      assert x in a.members && Same(x.value, Lookup(b.members, x.key).value);
      LookupUnique(b.members, y);
      NormHas(a, m);
    }
    AscendingUnique(xs, ys);
  }

  lemma NormGivesSame(a: Json, b: Json)
    requires a.Obj? && b.Obj? && Wf(a) && Wf(b) && Norm(a) == Norm(b)
    requires forall x <- a.members, y <- b.members | !x.value.Undefined? ::
      Same(x.value, y.value) <==> Norm(x.value) == Norm(y.value)
    ensures Same(a, b)
  {
    forall x <- a.members | !x.value.Undefined?
      ensures Lookup(b.members, x.key).Some? && Same(x.value, Lookup(b.members, x.key).value)
    {
      NormHas(a, Member(x.key, Norm(x.value)));
      NormHas(b, Member(x.key, Norm(x.value)));
      var y :| y in b.members && !y.value.Undefined? && Member(x.key, Norm(x.value)) == Member(y.key, Norm(y.value));
      LookupUnique(b.members, y);
    }
    forall y <- b.members | !y.value.Undefined? ensures Lookup(a.members, y.key).Some? {
      NormHas(b, Member(y.key, Norm(y.value)));
      NormHas(a, Member(y.key, Norm(y.value)));
    }
  }

  /** Canonical memo key: equal texts exactly for values equal up to key order, undefined members, and
      what JSON.stringify renders as null. */
  lemma CanonicalIffSame(a: Json, b: Json)
    requires Wf(a) && Wf(b)
    ensures Canonicalize(a) == Canonicalize(b) <==> Same(a, b)
  {
    CanonicalIffNorm(a, b);
    SameIffNorm(a, b);
  }

  // No undefined array element and no number that is not finite.
  ghost predicate Plain(v: Json) {
    match v
    case Undefined => false
    case NonFinite => false
    case Arr(elems) => forall e <- elems :: Plain(e)
    case Obj(members) => forall m <- members :: m.value.Undefined? || Plain(m.value)
    case _ => true
  }

  // Equality up to key order and undefined members, and nothing else.
  ghost predicate Equal(a: Json, b: Json)
    decreases a
  {
    match a
    case Arr(xs) => b.Arr? && |xs| == |b.elems| && forall i | 0 <= i < |xs| :: Equal(xs[i], b.elems[i])
    case Obj(ms) =>
      && b.Obj?
      && (forall m <- ms | !m.value.Undefined? :: Lookup(b.members, m.key).Some? && Equal(m.value, Lookup(b.members, m.key).value))
      && (forall m <- b.members | !m.value.Undefined? :: Lookup(ms, m.key).Some?)
    case _ => a == b
  }

  lemma {:induction false} SameIsEqual(a: Json, b: Json)
    requires Plain(a) && Plain(b)
    ensures Same(a, b) <==> Equal(a, b)
    decreases a
  {
    match a
    case Arr(xs) =>
      if b.Arr? && |xs| == |b.elems| {
        forall i | 0 <= i < |xs| ensures Same(xs[i], b.elems[i]) <==> Equal(xs[i], b.elems[i]) {
          SameIsEqual(xs[i], b.elems[i]);
        }
      }
    case Obj(ms) =>
      if b.Obj? {
        forall m <- ms | !m.value.Undefined? && Lookup(b.members, m.key).Some?
          ensures Same(m.value, Lookup(b.members, m.key).value) <==> Equal(m.value, Lookup(b.members, m.key).value)
        {
          SameIsEqual(m.value, Lookup(b.members, m.key).value);
        }
      }
    case _ =>
  }

  /** On the values the memo key is meant for, equal texts mean equal up to key order and undefined
      members. */
  lemma CanonicalIffEqual(a: Json, b: Json)
    requires Wf(a) && Wf(b) && Plain(a) && Plain(b)
    ensures Canonicalize(a) == Canonicalize(b) <==> Equal(a, b)
  {
    CanonicalIffSame(a, b);
    SameIsEqual(a, b);
  }

  // ---- the step identity --------------------------------------------------------------------------

  datatype Identity = Identity(
    kind: Text, account: Text, backend: Text, cwd: Text,
    prompt: Option<Text>, skillName: Option<Text>, agentName: Option<Text>, scriptPath: Option<Text>,
    capabilityContentHash: Option<Text>, item: Option<Json>)

  const KIND: Text := [107, 105, 110, 100]
  const ACCOUNT: Text := [97, 99, 99, 111, 117, 110, 116]
  const BACKEND: Text := [98, 97, 99, 107, 101, 110, 100]
  const CWD: Text := [99, 119, 100]
  const PROMPT: Text := [112, 114, 111, 109, 112, 116]
  const SKILL_NAME: Text := [115, 107, 105, 108, 108, 78, 97, 109, 101]
  const AGENT_NAME: Text := [97, 103, 101, 110, 116, 78, 97, 109, 101]
  const SCRIPT_PATH: Text := [115, 99, 114, 105, 112, 116, 80, 97, 116, 104]
  const CAPABILITY_CONTENT_HASH: Text :=
    [99, 97, 112, 97, 98, 105, 108, 105, 116, 121, 67, 111, 110, 116, 101, 110, 116, 72, 97, 115, 104]
  const ITEM: Text := [105, 116, 101, 109]

  ghost function OptStr(s: Option<Text>): Json { if s.Some? then Str(s.value) else Undefined }

  ghost function IdentityJson(x: Identity): Json {
    Obj([Member(KIND, Str(x.kind)), Member(ACCOUNT, Str(x.account)), Member(BACKEND, Str(x.backend)),
         Member(CWD, Str(x.cwd)), Member(PROMPT, OptStr(x.prompt)), Member(SKILL_NAME, OptStr(x.skillName)),
         Member(AGENT_NAME, OptStr(x.agentName)), Member(SCRIPT_PATH, OptStr(x.scriptPath)),
         Member(CAPABILITY_CONTENT_HASH, OptStr(x.capabilityContentHash)),
         Member(ITEM, x.item.GetOr(Undefined))])
  }

  // The object has the member, or neither has it.
  ghost predicate SameMember(a: Json, b: Json) {
    if a.Undefined? || b.Undefined? then a == b else Same(a, b)
  }

  lemma IdentityWf(x: Identity)
    requires x.item.Some? ==> Wf(x.item.value)
    ensures Wf(IdentityJson(x))
  {
    assert ACCOUNT[0] != BACKEND[0] && KIND[0] != ITEM[0] && SKILL_NAME[0] != AGENT_NAME[0];
  }

  lemma SameAt(a: Json, b: Json, i: nat)
    requires a.Obj? && b.Obj? && Wf(a) && Wf(b) && Same(a, b)
    requires i < |a.members| && i < |b.members| && a.members[i].key == b.members[i].key
    ensures SameMember(a.members[i].value, b.members[i].value)
  {
    if !a.members[i].value.Undefined? {
      assert a.members[i] in a.members;
      if !b.members[i].value.Undefined? {
        LookupUnique(b.members, b.members[i]);
      } else {
        OtherKeys(b, i);
      }
    } else if !b.members[i].value.Undefined? {
      assert b.members[i] in b.members;
      OtherKeys(a, i);
    }
  }

  lemma StringsAgree(a: Option<Text>, b: Option<Text>)
    requires SameMember(OptStr(a), OptStr(b))
    ensures a == b
  {
  }

  lemma OtherKeys(a: Json, i: nat)
    requires a.Obj? && Wf(a) && i < |a.members| && a.members[i].value.Undefined?
    ensures Lookup(a.members, a.members[i].key).None?
  {
  }

  /** Two attempts share a canonical input only if every resolved input agrees, the pinned
      capability hash included. */
  lemma IdentityAgrees(x: Identity, y: Identity)
    requires (x.item.Some? ==> Wf(x.item.value)) && (y.item.Some? ==> Wf(y.item.value))
    requires Canonicalize(IdentityJson(x)) == Canonicalize(IdentityJson(y))
    ensures x.(item := None) == y.(item := None)
    ensures SameMember(x.item.GetOr(Undefined), y.item.GetOr(Undefined))
  {
    hide Canonicalize, Same, Wf, SameMember;
    var a, b := IdentityJson(x), IdentityJson(y);
    IdentityWf(x);
    IdentityWf(y);
    CanonicalIffSame(a, b);
    RequiredAgree(x, y);
    OptionalAgree(x, y);
    SameAt(a, b, 9);
    assert a.members[9].value == x.item.GetOr(Undefined) && b.members[9].value == y.item.GetOr(Undefined);
  }

  lemma RequiredAgree(x: Identity, y: Identity)
    requires Wf(IdentityJson(x)) && Wf(IdentityJson(y)) && Same(IdentityJson(x), IdentityJson(y))
    ensures x.kind == y.kind && x.account == y.account && x.backend == y.backend && x.cwd == y.cwd
  {
    hide Same, Wf;
    var a, b := IdentityJson(x), IdentityJson(y);
    FieldAgrees(a, b, 0, Some(x.kind), Some(y.kind));
    FieldAgrees(a, b, 1, Some(x.account), Some(y.account));
    FieldAgrees(a, b, 2, Some(x.backend), Some(y.backend));
    FieldAgrees(a, b, 3, Some(x.cwd), Some(y.cwd));
  }

  lemma OptionalAgree(x: Identity, y: Identity)
    requires Wf(IdentityJson(x)) && Wf(IdentityJson(y)) && Same(IdentityJson(x), IdentityJson(y))
    ensures x.prompt == y.prompt && x.skillName == y.skillName && x.agentName == y.agentName
    ensures x.scriptPath == y.scriptPath && x.capabilityContentHash == y.capabilityContentHash
  {
    hide Same, Wf;
    var a, b := IdentityJson(x), IdentityJson(y);
    FieldAgrees(a, b, 4, x.prompt, y.prompt);
    FieldAgrees(a, b, 5, x.skillName, y.skillName);
    FieldAgrees(a, b, 6, x.agentName, y.agentName);
    FieldAgrees(a, b, 7, x.scriptPath, y.scriptPath);
    FieldAgrees(a, b, 8, x.capabilityContentHash, y.capabilityContentHash);
  }

  lemma FieldAgrees(a: Json, b: Json, i: nat, x: Option<Text>, y: Option<Text>)
    requires a.Obj? && b.Obj? && Wf(a) && Wf(b) && Same(a, b)
    requires i < |a.members| && i < |b.members| && a.members[i].key == b.members[i].key
    requires a.members[i].value == OptStr(x) && b.members[i].value == OptStr(y)
    ensures x == y
  {
    SameAt(a, b, i);
    StringsAgree(x, y);
  }

  // Without the exclusion of undefined elements the texts collide: [undefined] and [null].
  lemma UndefinedElementCollides()
    ensures Canonicalize(Arr([Undefined])) == Canonicalize(Arr([Null])) && Arr([Undefined]) != Arr([Null])
  {
    CanonicalIffNorm(Arr([Undefined]), Arr([Null]));
    ElemsEqual(Arr([Undefined]), Arr([Null]));
  }
}
