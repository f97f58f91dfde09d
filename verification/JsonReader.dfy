/**
 A reader of JSON texts without insignificant white space (sections 2 to 7 of RFC 8259), written from the
 grammar alone, and what it makes of the printer's texts: the value itself, its members in key order.
 */
module JsonReader {
  import opened Wrappers
  import opened Text
  import opened Canonical

  datatype Reading<T> = Read(value: T, rest: Text) | Malformed

  // ---------------------------------------------------------------- strings

  /** The two-letter escapes, by their second letter. */
  function Escapee(c: CodeUnit): Option<CodeUnit> {
    if c == '"' as CodeUnit then Some('"' as CodeUnit)
    else if c == '\\' as CodeUnit then Some('\\' as CodeUnit)
    else if c == '/' as CodeUnit then Some('/' as CodeUnit)
    else if c == 'b' as CodeUnit then Some(0x08)
    else if c == 'f' as CodeUnit then Some(0x0C)
    else if c == 'n' as CodeUnit then Some('\n' as CodeUnit)
    else if c == 'r' as CodeUnit then Some('\r' as CodeUnit)
    else if c == 't' as CodeUnit then Some('\t' as CodeUnit)
    else None
  }

  function HexValue(c: CodeUnit): (n: Option<int>)
    ensures n.Some? ==> 0 <= n.value < 16
  {
    if '0' as CodeUnit <= c <= '9' as CodeUnit then Some(c as int - '0' as int)
    else if 'a' as CodeUnit <= c <= 'f' as CodeUnit then Some(c as int - 'a' as int + 10)
    else if 'A' as CodeUnit <= c <= 'F' as CodeUnit then Some(c as int - 'A' as int + 10)
    else None
  }

  /** Four hexadecimal digits. */
  function ReadHex(t: Text): Option<CodeUnit>
    requires |t| == 4
  {
    var a, b, c, d := HexValue(t[0]), HexValue(t[1]), HexValue(t[2]), HexValue(t[3]);
    if a.Some? && b.Some? && c.Some? && d.Some?
    then Some((a.value * 4096 + b.value * 256 + c.value * 16 + d.value) as CodeUnit)
    else None
  }

  /** One code unit inside a string: itself, or an escape. */
  function ReadUnit(t: Text): (u: Reading<CodeUnit>)
    ensures u.Read? ==> |u.rest| < |t|
  {
    if t == [] then Malformed
    else if t[0] == '\\' as CodeUnit then
      if |t| >= 2 && Escapee(t[1]).Some? then Read(Escapee(t[1]).value, t[2..])
      else if |t| >= 6 && t[1] == 'u' as CodeUnit && ReadHex(t[2..6]).Some? then Read(ReadHex(t[2..6]).value, t[6..])
      else Malformed
    else if t[0] < 0x20 || t[0] == '"' as CodeUnit then Malformed
    else Read(t[0], t[1..])
  }

  /** The rest of a string, with its closing quote. */
  function ReadUnits(t: Text): (s: Reading<Text>)
    ensures s.Read? ==> |s.rest| < |t|
    decreases |t|
  {
    if t != [] && t[0] == '"' as CodeUnit then Read([], t[1..])
    else
      var unit := ReadUnit(t);
      if unit.Malformed? then Malformed
      else
        var more := ReadUnits(unit.rest);
        if more.Malformed? then Malformed else Read([unit.value] + more.value, more.rest)
  }

  function ReadString(t: Text): (s: Reading<Text>)
    ensures s.Read? ==> |s.rest| < |t|
  {
    if t != [] && t[0] == '"' as CodeUnit then ReadUnits(t[1..]) else Malformed
  }

  // ---------------------------------------------------------------- values

  function Letters(s: string): (t: Text)
    requires forall i :: 0 <= i < |s| ==> s[i] as int < 128
    ensures |t| == |s|
    ensures forall i :: 0 <= i < |s| ==> t[i] == s[i] as CodeUnit
  {
    seq(|s|, i requires 0 <= i < |s| => s[i] as CodeUnit)
  }

  function ReadLiteral(t: Text, letters: string, v: Json): (r: Reading<Json>)
    requires letters != "" && forall i :: 0 <= i < |letters| ==> letters[i] as int < 128
    ensures r.Read? ==> |r.rest| < |t|
  {
    if Letters(letters) <= t then Read(v, t[|letters|..]) else Malformed
  }

  function ReadNumber(t: Text): (r: Reading<Json>)
    ensures r.Read? ==> |r.rest| < |t|
  {
    var n := NumberLength(t);
    var token := t[..n];
    if token == Letters("-0") then Read(NegativeZero, t[n..])
    else if token != [] && (forall i :: 0 <= i < n ==> NumberUnit(token[i])) && NumberLength(token) == n then Read(Number(token), t[n..])
    else Malformed
  }

  function ReadValue(t: Text): (r: Reading<Json>)
    ensures r.Read? ==> |r.rest| < |t|
    decreases |t|, 1
  {
    if t == [] then Malformed
    else if t[0] == 'n' as CodeUnit then ReadLiteral(t, "null", Null)
    else if t[0] == 't' as CodeUnit then ReadLiteral(t, "true", Boolean(true))
    else if t[0] == 'f' as CodeUnit then ReadLiteral(t, "false", Boolean(false))
    else if t[0] == '"' as CodeUnit then
      var s := ReadString(t);
      if s.Malformed? then Malformed else Read(String(s.value), s.rest)
    else if t[0] == '[' as CodeUnit then ReadArray(t)
    else if t[0] == '{' as CodeUnit then ReadObject(t)
    else ReadNumber(t)
  }

  function ReadArray(t: Text): (r: Reading<Json>)
    requires t != []
    ensures r.Read? ==> |r.rest| < |t|
    decreases |t|, 0
  {
    if |t| > 1 && t[1] == ']' as CodeUnit then Read(Array([]), t[2..])
    else
      var items := ReadItems(t[1..]);
      if items.Malformed? then Malformed else Read(Array(items.value), items.rest)
  }

  function ReadObject(t: Text): (r: Reading<Json>)
    requires t != []
    ensures r.Read? ==> |r.rest| < |t|
    decreases |t|, 0
  {
    if |t| > 1 && t[1] == '}' as CodeUnit then Read(Object([]), t[2..])
    else
      var members := ReadMembers(t[1..]);
      if members.Malformed? then Malformed else Read(Object(members.value), members.rest)
  }

  /** One item or more, with the closing bracket. */
  function ReadItems(t: Text): (r: Reading<seq<Json>>)
    ensures r.Read? ==> |r.rest| < |t|
    decreases |t|, 2
  {
    var item := ReadValue(t);
    if item.Malformed? || item.rest == [] then Malformed
    else if item.rest[0] == ']' as CodeUnit then Read([item.value], item.rest[1..])
    else if item.rest[0] != ',' as CodeUnit then Malformed
    else
      var more := ReadItems(item.rest[1..]);
      if more.Malformed? then Malformed else Read([item.value] + more.value, more.rest)
  }

  function ReadMember(t: Text): (r: Reading<Member>)
    ensures r.Read? ==> |r.rest| < |t|
    decreases |t|, 2
  {
    var key := ReadString(t);
    if key.Malformed? || key.rest == [] || key.rest[0] != ':' as CodeUnit then Malformed
    else
      var value := ReadValue(key.rest[1..]);
      if value.Malformed? then Malformed else Read(Member(key.value, value.value), value.rest)
  }

  /** One member or more, with the closing brace. */
  function ReadMembers(t: Text): (r: Reading<seq<Member>>)
    ensures r.Read? ==> |r.rest| < |t|
    decreases |t|, 3
  {
    var member := ReadMember(t);
    if member.Malformed? || member.rest == [] then Malformed
    else if member.rest[0] == '}' as CodeUnit then Read([member.value], member.rest[1..])
    else if member.rest[0] != ',' as CodeUnit then Malformed
    else
      var more := ReadMembers(member.rest[1..]);
      if more.Malformed? then Malformed else Read([member.value] + more.value, more.rest)
  }

  /** A whole text. */
  function ReadText(t: Text): Option<Json> {
    var v := ReadValue(t);
    if v.Read? && v.rest == [] then Some(v.value) else None
  }

  // ---------------------------------------------------------------- strings are read back

  lemma EscapeIsRead(c: CodeUnit, r: Text)
    ensures ReadUnit(Escape(c) + r) == Read(c, r)
  {
    var e := Escape(c);
    var t := e + r;
    assert t[|e|..] == r && t[0] == e[0];
    if e[0] == 92 {
      assert t[1] == e[1];
      if e[1] == 117 {
        assert t[2..6] == e[2..6];
      }
    }
  }

  lemma {:induction false} EscapedIsRead(s: Text, r: Text)
    ensures ReadUnits(Escaped(s) + [QUOTE] + r) == Read(s, r)
  {
    EscapedStart(s, r);
    if s == [] {
      assert (Escaped(s) + [QUOTE] + r)[1..] == r;
    } else {
      EscapeIsRead(s[0], Escaped(s[1..]) + [QUOTE] + r);
      EscapedIsRead(s[1..], r);
      assert s == [s[0]] + s[1..];
    }
  }

  lemma QuotedIsRead(s: Text, r: Text)
    ensures ReadString(Quoted(s) + r) == Read(s, r)
  {
    assert (Quoted(s) + r)[1..] == Escaped(s) + [QUOTE] + r;
    EscapedIsRead(s, r);
  }

  predicate LowerCaseHex(e: Text) {
    |e| == 6 ==> forall i :: 2 <= i < 6 ==> !('A' as CodeUnit <= e[i] <= 'F' as CodeUnit)
  }

  /** Section 3.2.2.2 of RFC 8785: a shortest spelling of the unit, and the only one with lower-case digits. */
  lemma EscapeIsShortest(c: CodeUnit, e: Text)
    requires ReadUnit(e) == Read(c, [])
    ensures |Escape(c)| <= |e|
    ensures |Escape(c)| == |e| && LowerCaseHex(e) ==> e == Escape(c)
  {
    if e[0] != '\\' as CodeUnit {
      assert e == [c];
    } else if Escapee(e[1]).Some? {
      assert e == [e[0], e[1]];
    } else {
      assert e == [e[0], e[1], e[2], e[3], e[4], e[5]];
    }
  }

  /** No JSON spelling of a string is shorter. */
  lemma {:induction false} QuotedIsShortest(s: Text, t: Text)
    requires ReadString(t) == Read(s, [])
    ensures |Quoted(s)| <= |t|
  {
    UnitsAreShortest(s, t[1..], []);
  }

  lemma {:induction false} UnitsAreShortest(s: Text, t: Text, r: Text)
    requires ReadUnits(t) == Read(s, r)
    ensures |Escaped(s)| + 1 + |r| <= |t|
    decreases |t|
  {
    if t[0] != QUOTE {
      var unit := ReadUnit(t);
      UnitsAreShortest(s[1..], unit.rest, r);
      SpellingIsLongEnough(t);
      assert s == [s[0]] + s[1..];
    }
  }

  lemma SpellingIsLongEnough(t: Text)
    requires ReadUnit(t).Read?
    ensures |Escape(ReadUnit(t).value)| + |ReadUnit(t).rest| <= |t|
  {
  }

  // ---------------------------------------------------------------- numbers are read back

  lemma {:induction false} DigitsStop(a: Text, r: Text)
    requires Stops(r)
    ensures DigitRun(a + r) == DigitRun(a)
  {
    if a == [] {
      assert a + r == r;
    } else {
      assert (a + r)[1..] == a[1..] + r;
      DigitsStop(a[1..], r);
    }
  }

  lemma FractionStops(a: Text, r: Text)
    requires Stops(r)
    ensures FractionLength(a + r) == FractionLength(a)
  {
    if a == [] {
      assert a + r == r;
    } else {
      assert (a + r)[1..] == a[1..] + r;
      DigitsStop(a[1..], r);
    }
  }

  lemma ExponentStops(a: Text, r: Text)
    requires Stops(r)
    ensures ExponentLength(a + r) == ExponentLength(a)
  {
    if |a| >= 2 {
      assert (a + r)[2..] == a[2..] + r;
      DigitsStop(a[2..], r);
    } else if a == [] {
      assert a + r == r;
    } else {
      assert r != [] ==> (a + r)[1] == r[0];
    }
  }

  lemma DecimalsStop(a: Text, r: Text)
    requires Stops(r)
    ensures DecimalsLength(a + r) == DecimalsLength(a)
  {
    var n := FractionLength(a);
    FractionStops(a, r);
    assert (a + r)[n..] == a[n..] + r;
    ExponentStops(a[n..], r);
  }

  lemma UnsignedStops(a: Text, r: Text)
    requires Stops(r)
    ensures UnsignedLength(a + r) == UnsignedLength(a)
  {
    DigitsStop(a, r);
    if a == [] {
      assert a + r == r;
    } else {
      var whole := if a[0] == 48 then 1 else DigitRun(a);
      assert (a + r)[whole..] == a[whole..] + r;
      DecimalsStop(a[whole..], r);
    }
  }

  /** A number is read up to its delimiter. */
  lemma NumberStops(a: Text, r: Text)
    requires Stops(r) && a != []
    ensures NumberLength(a + r) == NumberLength(a)
  {
    assert (a + r)[1..] == a[1..] + r;
    UnsignedStops(a, r);
    UnsignedStops(a[1..], r);
  }

  lemma NumberIsRead(token: Token, r: Text)
    requires Stops(r)
    ensures ReadNumber(token + r) == Read(Number(token), r)
  {
    NumberStops(token, r);
    assert (token + r)[..|token|] == token && (token + r)[|token|..] == r;
    assert Letters("-0") == [45, 48];
  }

  // ---------------------------------------------------------------- the number grammar

  predicate Digits(t: Text) {
    t != [] && forall i :: 0 <= i < |t| ==> Digit(t[i])
  }

  predicate IsSign(t: Text) { t == [] || t == Letters("-") }

  predicate IsWhole(t: Text) {
    Digits(t) && (t[0] == '0' as CodeUnit ==> |t| == 1)
  }

  predicate IsFraction(t: Text) {
    t != [] ==> t[0] == '.' as CodeUnit && Digits(t[1..])
  }

  predicate IsExponent(t: Text) {
    t != [] ==> |t| > 2 && t[0] == 'e' as CodeUnit && t[1] in {'+' as CodeUnit, '-' as CodeUnit} && Digits(t[2..])
  }

  /** One spelling of a number, part by part. */
  predicate Spelt(t: Text, sign: Text, whole: Text, fraction: Text, exponent: Text) {
    IsSign(sign) && IsWhole(whole) && IsFraction(fraction) && IsExponent(exponent) && t == sign + (whole + (fraction + exponent))
  }

  lemma {:induction false} DigitsRun(t: Text)
    ensures forall i :: 0 <= i < DigitRun(t) ==> Digit(t[i])
    ensures DigitRun(t) < |t| ==> !Digit(t[DigitRun(t)])
  {
    if t != [] && Digit(t[0]) {
      DigitsRun(t[1..]);
    }
  }

  /** A run of digits ends where a text without a leading digit begins. */
  lemma {:induction false} RunOfDigits(a: Text, r: Text)
    requires forall i :: 0 <= i < |a| ==> Digit(a[i])
    requires r == [] || !Digit(r[0])
    ensures DigitRun(a + r) == |a|
  {
    if a == [] {
      assert a + r == r;
    } else {
      assert (a + r)[1..] == a[1..] + r;
      RunOfDigits(a[1..], r);
    }
  }

  lemma FractionPart(fraction: Text, r: Text)
    requires IsFraction(fraction) && (r == [] || r[0] == 101)
    ensures FractionLength(fraction + r) == |fraction|
  {
    if fraction == [] {
      assert fraction + r == r;
    } else {
      assert (fraction + r)[1..] == fraction[1..] + r;
      RunOfDigits(fraction[1..], r);
    }
  }

  lemma PartOfFraction(t: Text)
    ensures IsFraction(t[..FractionLength(t)])
  {
    var n := FractionLength(t);
    if n > 0 {
      DigitsRun(t[1..]);
      assert t[..n][1..] == t[1..][..n - 1];
    }
  }

  lemma ExponentPart(t: Text)
    ensures IsExponent(t) <==> ExponentLength(t) == |t|
  {
    if |t| > 2 {
      DigitsRun(t[2..]);
      if IsExponent(t) {
        assert t[2..] + [] == t[2..];
        RunOfDigits(t[2..], []);
      }
    }
  }

  lemma DecimalParts(t: Text, fraction: Text, exponent: Text)
    requires IsFraction(fraction) && IsExponent(exponent) && t == fraction + exponent
    ensures DecimalsLength(t) == |t|
  {
    FractionPart(fraction, exponent);
    assert t[|fraction|..] == exponent;
    ExponentPart(exponent);
  }

  lemma WholePart(u: Text, whole: Text, rest: Text)
    requires IsWhole(whole) && u == whole + rest && DecimalsLength(rest) == |rest|
    ensures u != [] && UnsignedLength(u) == |u|
  {
    assert rest != [] ==> rest[0] in {46, 101};
    RunOfDigits(whole, rest);
    assert u[|whole|..] == rest && u[0] == whole[0];
  }

  lemma PartsOfUnsigned(u: Text) returns (whole: Text, fraction: Text, exponent: Text)
    requires u != [] && UnsignedLength(u) == |u|
    ensures IsWhole(whole) && IsFraction(fraction) && IsExponent(exponent) && u == whole + (fraction + exponent)
  {
    var n := if u[0] == 48 then 1 else DigitRun(u);
    var rest := u[n..];
    whole := u[..n];
    assert IsWhole(whole) by { DigitsRun(u); }
    fraction, exponent := PartsOfDecimals(rest);
    assert u == whole + rest;
  }

  lemma PartsOfDecimals(t: Text) returns (fraction: Text, exponent: Text)
    requires DecimalsLength(t) == |t|
    ensures IsFraction(fraction) && IsExponent(exponent) && t == fraction + exponent
  {
    var n := FractionLength(t);
    fraction, exponent := t[..n], t[n..];
    PartOfFraction(t);
    ExponentPart(exponent);
  }

  /** The numbers are the texts made of a sign, whole digits without a spare zero, a fraction and a signed exponent. */
  lemma NumberIsSpelt(t: Text)
    ensures t != [] && NumberLength(t) == |t| <==>
            exists sign, whole, fraction, exponent :: Spelt(t, sign, whole, fraction, exponent)
  {
    if t != [] && NumberLength(t) == |t| {
      SpellingOf(t);
    }
    forall sign, whole, fraction, exponent | Spelt(t, sign, whole, fraction, exponent)
      ensures t != [] && NumberLength(t) == |t|
    {
      SpeltIsNumber(t, sign, whole, fraction, exponent);
    }
  }

  lemma SpellingOf(t: Text)
    requires t != [] && NumberLength(t) == |t|
    ensures exists sign, whole, fraction, exponent :: Spelt(t, sign, whole, fraction, exponent)
  {
    var sign := if t[0] == 45 then t[..1] else [];
    var u := t[|sign|..];
    assert IsSign(sign) && t == sign + u;
    assert u != [] && UnsignedLength(u) == |u| by { assert sign == [] ==> u == t; }
    var whole, fraction, exponent := PartsOfUnsigned(u);
    assert Spelt(t, sign, whole, fraction, exponent);
  }

  lemma SpeltIsNumber(t: Text, sign: Text, whole: Text, fraction: Text, exponent: Text)
    requires Spelt(t, sign, whole, fraction, exponent)
    ensures t != [] && NumberLength(t) == |t|
  {
    var u := t[|sign|..];
    assert u == whole + (fraction + exponent);
    DecimalParts(fraction + exponent, fraction, exponent);
    WholePart(u, whole, fraction + exponent);
    assert sign == [] ==> t == u && t[0] == whole[0];
    assert sign != [] ==> t[0] == sign[0];
  }

  /** No other value begins as a number does. */
  lemma NumberIsTold(t: Text)
    requires t != [] && NumberUnit(t[0])
    ensures ReadValue(t) == ReadNumber(t)
  {
    assert t[0] !in {'n' as CodeUnit, 't' as CodeUnit, 'f' as CodeUnit, '"' as CodeUnit, '[' as CodeUnit, '{' as CodeUnit};
  }

  // ---------------------------------------------------------------- values are read back

  /** Every object's keys are in strictly ascending code-unit order. */
  predicate KeysAscend(v: Json) {
    match v
    case Array(items) => forall x :: x in items ==> KeysAscend(x)
    case Object(members) => Ascending(Keys(members)) && forall m :: m in members ==> KeysAscend(m.value)
    case _ => true
  }

  lemma LiteralIsRead(letters: string, v: Json, r: Text)
    requires letters != "" && forall i :: 0 <= i < |letters| ==> letters[i] as int < 128
    ensures ReadLiteral(Letters(letters) + r, letters, v) == Read(v, r)
  {
    assert (Letters(letters) + r)[|letters|..] == r;
  }

  /** The text of a value up to its delimiter is read as that value. */
  lemma {:induction false} ValueIsRead(v: Json, r: Text) returns (w: Json)
    requires CanonicalJson(v).Some? && Stops(r)
    ensures ReadValue(CanonicalJson(v).value + r) == Read(w, r)
    ensures Equivalent(v, w) && KeysAscend(w)
    decreases v, 1, 0
  {
    var t := CanonicalJson(v).value;
    FirstUnitTellsKind(v, r);
    match v {
      case Null =>
        assert t == Letters("null");
        LiteralIsRead("null", v, r);
        w := v;
      case Boolean(b) =>
        assert t == Letters(if b then "true" else "false");
        LiteralIsRead(if b then "true" else "false", v, r);
        w := v;
      case Number(token) =>
        NumberIsRead(token, r);
        NumberIsTold(token + r);
        w := v;
      case NegativeZero =>
        NumberIsRead(ZERO, r);
        NumberIsTold(ZERO + r);
        w := Number(ZERO);
      case String(s) =>
        QuotedIsRead(s, r);
        w := v;
      case Array(items) =>
        w := ArrayIsRead(v, r);
      case Object(members) =>
        w := ObjectIsRead(v, r);
    }
  }

  lemma {:induction false} ArrayIsRead(v: Json, r: Text) returns (w: Json)
    requires v.Array? && CanonicalJson(v).Some?
    ensures ReadValue(CanonicalJson(v).value + r) == Read(w, r)
    ensures Equivalent(v, w) && KeysAscend(w)
    decreases v, 0, |v.items| + 1
  {
    var texts := ItemTexts(v.items, v).value;
    var t, inner := CanonicalJson(v).value + r, Joined(texts) + [CLOSE_ARRAY] + r;
    Associate([OPEN_ARRAY], Joined(texts), [CLOSE_ARRAY], r);
    assert t[1..] == inner && t[0] == OPEN_ARRAY;
    NotClosedByItem(v.items, v, r);
    assert |t| > 1 && t[1] == inner[0];
    if v.items == [] {
      assert t[2..] == r;
      w := Array([]);
    } else {
      Associate(texts[0], Tail(texts[1..]), [CLOSE_ARRAY], r);
      var ws := ItemsAreRead(v.items, v, r);
      w := Array(ws);
    }
  }

  lemma {:induction false} ItemsAreRead(items: seq<Json>, context: Json, r: Text) returns (ws: seq<Json>)
    requires items != [] && Inside(items, context) && ItemTexts(items, context).Some?
    ensures var texts := ItemTexts(items, context).value;
            ReadItems(texts[0] + (Tail(texts[1..]) + [CLOSE_ARRAY] + r)) == Read(ws, r)
    ensures |ws| == |items| && forall i :: 0 <= i < |items| ==> Equivalent(items[i], ws[i])
    ensures forall x :: x in ws ==> KeysAscend(x)
    decreases context, 0, |items|
  {
    var texts := ItemTexts(items, context).value;
    var rest := Tail(texts[1..]) + [CLOSE_ARRAY] + r;
    InsideTail(items, context);
    TailStart(texts[1..], CLOSE_ARRAY, r);
    var w := ValueIsRead(items[0], rest);
    if |items| == 1 {
      assert rest[1..] == r;
      ws := [w];
    } else {
      assert texts[1..][1..] == texts[2..];
      assert rest[1..] == texts[1] + (Tail(texts[2..]) + [CLOSE_ARRAY] + r);
      var more := ItemsAreRead(items[1..], context, r);
      ws := [w] + more;
      assert forall i :: 1 <= i < |items| ==> items[i] == items[1..][i - 1];
    }
  }

  lemma BracedIsRead(inner: Text, ws: seq<Member>, r: Text)
    requires inner != []
    requires if ws == [] then inner == [CLOSE_OBJECT] + r else inner[0] != CLOSE_OBJECT && ReadMembers(inner) == Read(ws, r)
    ensures ReadValue([OPEN_OBJECT] + inner) == Read(Object(ws), r)
  {
    var t := [OPEN_OBJECT] + inner;
    assert t[1..] == inner && t[1] == inner[0];
    if ws == [] { assert t[2..] == inner[1..] == r; }
  }

  lemma {:induction false} ObjectIsRead(v: Json, r: Text) returns (w: Json)
    requires v.Object? && CanonicalJson(v).Some?
    ensures ReadValue(CanonicalJson(v).value + r) == Read(w, r)
    ensures Equivalent(v, w) && KeysAscend(w)
    decreases v, 0, |v.members| + 1
  {
    var entries := Sorted(v.members);
    var texts := MemberTexts(entries, v).value;
    var inner := Joined(texts) + [CLOSE_OBJECT] + r;
    var ws := [];
    if entries == [] {
      assert inner == [CLOSE_OBJECT] + r;
    } else {
      Associate(texts[0], Tail(texts[1..]), [CLOSE_OBJECT], r);
      ws := MembersAreRead(entries, v, r);
    }
    NotClosedByMember(entries, v, r);
    BracedIsRead(inner, ws, r);
    Associate([OPEN_OBJECT], Joined(texts), [CLOSE_OBJECT], r);
    w := Object(ws);
    SortedIsRead(v.members, ws);
  }

  /** Members read in text order are the sorted members. */
  lemma SortedIsRead(ms: seq<Member>, ws: seq<Member>)
    requires NoNeighboursEqual(Sorted(ms)) && Aligned(Sorted(ms), ws)
    ensures Ascending(Keys(ws)) && Equivalent(Object(ms), Object(ws))
  {
    SortedIsOrdered(ms);
    NeighboursDecideDistinct(Sorted(ms));
    assert Keys(ws) == Keys(Sorted(ms));
    forall i, j | 0 <= i < j < |ws|
      ensures !Less(ws[j].key, ws[i].key)
    {
      assert Less(Keys(ws)[i], Keys(ws)[j]);
      LessIsStrict(ws[i].key, ws[j].key);
    }
    SortedStays(ws, (m: Member) => m.key);
    PairwiseEquivalent(ms, ws);
  }

  lemma {:induction false} MemberIsRead(m: Member, context: Json, r: Text) returns (w: Member)
    requires m.value < context && CanonicalJson(m.value).Some? && Stops(r)
    ensures ReadMember(Quoted(m.key) + [COLON] + CanonicalJson(m.value).value + r) == Read(w, r)
    ensures w.key == m.key && Equivalent(m.value, w.value) && KeysAscend(w.value)
    decreases context, 0, 0
  {
    var text := CanonicalJson(m.value).value;
    Regroup(Quoted(m.key), [COLON], text, r);
    QuotedIsRead(m.key, [COLON] + (text + r));
    assert ([COLON] + (text + r))[1..] == text + r;
    var value := ValueIsRead(m.value, r);
    w := Member(m.key, value);
  }

  lemma {:induction false} MembersAreRead(entries: seq<Member>, context: Json, r: Text) returns (ws: seq<Member>)
    requires entries != [] && (forall m :: m in entries ==> m.value < context) && MemberTexts(entries, context).Some?
    ensures var texts := MemberTexts(entries, context).value;
            ReadMembers(texts[0] + (Tail(texts[1..]) + [CLOSE_OBJECT] + r)) == Read(ws, r)
    ensures Aligned(entries, ws) && forall m :: m in ws ==> KeysAscend(m.value)
    decreases context, 0, |entries|
  {
    MemberTextsCons(entries, context);
    var texts := MemberTexts(entries[1..], context).value;
    assert MemberTexts(entries, context).value[1..] == texts;
    var rest := Tail(texts) + [CLOSE_OBJECT] + r;
    TailStart(texts, CLOSE_OBJECT, r);
    var w := MemberIsRead(entries[0], context, rest);
    if texts == [] {
      assert rest[1..] == r;
      ws := [w];
    } else {
      assert rest[1..] == texts[0] + (Tail(texts[1..]) + [CLOSE_OBJECT] + r);
      var more := MembersAreRead(entries[1..], context, r);
      ws := [w] + more;
      AlignedCons(entries, ws);
    }
  }

  /**
   Reading the canonical text of a value consumes all of it and yields an equal value, whose member keys
   ascend as they stand in the text.
   */
  lemma CanonicalTextIsReadBack(v: Json)
    requires Admissible(v)
    ensures CanonicalJson(v).Some?
    ensures var read := ReadText(CanonicalJson(v).value);
            read.Some? && Equivalent(v, read.value) && KeysAscend(read.value)
  {
    PrintsExactlyAdmissible(v);
    var w := ValueIsRead(v, []);
    assert CanonicalJson(v).value + [] == CanonicalJson(v).value;
  }
}
