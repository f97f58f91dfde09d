/**
 Canonical JSON (src/protocol/canonical.ts): the printer every commitment and equality test rests on.

 Values are printed under the policy that keeps strings exact. An object is a sequence of members in
 insertion order, so a caller's member order is part of the value and must not reach the text.
 */
module Canonical {
  import opened Wrappers
  import opened Text

  predicate NumberUnit(c: CodeUnit) {
    48 <= c <= 57 || c == 43 || c == 45 || c == 46 || c == 101
  }

  predicate Digit(c: CodeUnit) { 48 <= c <= 57 }

  /** How many digits a text begins with. */
  function DigitRun(t: Text): (n: nat)
    ensures n <= |t|
  {
    if t == [] || !Digit(t[0]) then 0 else 1 + DigitRun(t[1..])
  }

  /** The longest number a text begins with, 0 if none: sign, digits without a spare zero, fraction, exponent. */
  function NumberLength(t: Text): (n: nat)
    ensures n <= |t|
  {
    if t != [] && t[0] == 45 then
      var n := UnsignedLength(t[1..]);
      if n == 0 then 0 else 1 + n
    else UnsignedLength(t)
  }

  function UnsignedLength(t: Text): (n: nat)
    ensures n <= |t|
  {
    var whole := if t != [] && t[0] == 48 then 1 else DigitRun(t);
    if whole == 0 then 0 else whole + DecimalsLength(t[whole..])
  }

  function DecimalsLength(t: Text): (n: nat)
    ensures n <= |t|
  {
    FractionLength(t) + ExponentLength(t[FractionLength(t)..])
  }

  function FractionLength(t: Text): (n: nat)
    ensures n <= |t|
  {
    if t != [] && t[0] == 46 && DigitRun(t[1..]) > 0 then 1 + DigitRun(t[1..]) else 0
  }

  /** Number::toString always signs the exponent. */
  function ExponentLength(t: Text): (n: nat)
    ensures n <= |t|
  {
    if |t| >= 2 && t[0] == 101 && t[1] in {43, 45} && DigitRun(t[2..]) > 0 then 2 + DigitRun(t[2..]) else 0
  }

  /** What Number::toString prints of a finite number other than negative zero. */
  type Token = t: Text |
    t != [] && (forall i :: 0 <= i < |t| ==> NumberUnit(t[i])) && NumberLength(t) == |t| && t != [45, 48] witness [48]

  /** A hole is what a sparse array reads as; like a non-finite number it is not a JSON value. */
  datatype Json =
    | Null
    | Boolean(b: bool)
    | Number(token: Token)
    | NegativeZero
    | NonFinite
    | String(s: Text)
    | Array(items: seq<Json>)
    | Hole
    | Object(members: seq<Member>)

  datatype Member = Member(key: Text, value: Json)

  const NULL: Text := [110, 117, 108, 108]
  const TRUE: Text := [116, 114, 117, 101]
  const FALSE: Text := [102, 97, 108, 115, 101]
  const ZERO: Token := [48]
  const QUOTE: CodeUnit := 34
  const COMMA: CodeUnit := 44
  const COLON: CodeUnit := 58
  const OPEN_ARRAY: CodeUnit := 91
  const CLOSE_ARRAY: CodeUnit := 93
  const OPEN_OBJECT: CodeUnit := 123
  const CLOSE_OBJECT: CodeUnit := 125

  // ---------------------------------------------------------------- strings

  predicate High(c: CodeUnit) { 0xD800 <= c <= 0xDBFF }

  predicate Low(c: CodeUnit) { 0xDC00 <= c <= 0xDFFF }

  /** Every surrogate is half of a pair. */
  predicate WellFormed(s: Text) {
    if s == [] then true
    else if High(s[0]) then |s| > 1 && Low(s[1]) && WellFormed(s[2..])
    else !Low(s[0]) && WellFormed(s[1..])
  }

  /** validString scans with an index that skips over the second half of a pair. */
  method ValidString(s: Text) returns (ok: bool)
    ensures ok <==> WellFormed(s)
  {
    var index := 0;
    while index < |s|
      invariant 0 <= index <= |s|
      invariant WellFormed(s) <==> WellFormed(s[index..])
    {
      var code := s[index];
      assert s[index..][1..] == s[index + 1..];
      if High(code) {
        if !(index + 1 < |s| && Low(s[index + 1])) { return false; }
        assert s[index..][2..] == s[index + 2..];
        index := index + 2;
      } else if Low(code) {
        return false;
      } else {
        index := index + 1;
      }
    }
    return true;
  }

  /** The code units of one Unicode scalar value. */
  function Utf16(scalar: int): (s: Text)
    requires Scalar(scalar)
  {
    if scalar < 0x1_0000 then [scalar as CodeUnit]
    else
      [((scalar - 0x1_0000) / 0x400 + 0xD800) as CodeUnit, ((scalar - 0x1_0000) % 0x400 + 0xDC00) as CodeUnit]
  }

  predicate Scalar(n: int) { 0 <= n < 0xD800 || 0xE000 <= n < 0x11_0000 }

  function Encoded(scalars: seq<int>): Text
    requires forall i :: 0 <= i < |scalars| ==> Scalar(scalars[i])
  {
    if scalars == [] then [] else Utf16(scalars[0]) + Encoded(scalars[1..])
  }

  /** The strings the printer accepts are exactly the UTF-16 encodings of Unicode text. */
  lemma {:induction false} WellFormedIffUnicode(s: Text)
    ensures WellFormed(s) <==>
            exists scalars: seq<int> :: (forall i :: 0 <= i < |scalars| ==> Scalar(scalars[i])) && Encoded(scalars) == s
  {
    if WellFormed(s) {
      var scalars := Decoded(s);
    }
    forall scalars: seq<int> | (forall i :: 0 <= i < |scalars| ==> Scalar(scalars[i])) && Encoded(scalars) == s
      ensures WellFormed(s)
    {
      EncodedIsWellFormed(scalars);
    }
  }

  lemma {:induction false} Decoded(s: Text) returns (scalars: seq<int>)
    requires WellFormed(s)
    ensures forall i :: 0 <= i < |scalars| ==> Scalar(scalars[i])
    ensures Encoded(scalars) == s
  {
    if s == [] {
      scalars := [];
    } else if High(s[0]) {
      var rest := Decoded(s[2..]);
      var n := (s[0] as int - 0xD800) * 0x400 + (s[1] as int - 0xDC00) + 0x1_0000;
      scalars := [n] + rest;
      assert scalars[1..] == rest;
      assert Utf16(n) == [s[0], s[1]];
      assert s == [s[0], s[1]] + s[2..];
    } else {
      var rest := Decoded(s[1..]);
      scalars := [s[0] as int] + rest;
      assert scalars[1..] == rest;
      assert s == [s[0]] + s[1..];
    }
  }

  lemma {:induction false} EncodedIsWellFormed(scalars: seq<int>)
    requires forall i :: 0 <= i < |scalars| ==> Scalar(scalars[i])
    ensures WellFormed(Encoded(scalars))
  {
    if scalars != [] {
      EncodedIsWellFormed(scalars[1..]);
      var head, rest := Utf16(scalars[0]), Encoded(scalars[1..]);
      assert (head + rest)[|head|..] == rest;
    }
  }

  function HexDigit(n: int): CodeUnit
    requires 0 <= n < 16
  {
    if n < 10 then (48 + n) as CodeUnit else (87 + n) as CodeUnit
  }

  /** JSON.stringify of one code unit, section 3.2.2.2 of RFC 8785. */
  function Escape(c: CodeUnit): (e: Text)
    ensures e != [] && e[0] != QUOTE
  {
    if c == 8 then [92, 98]
    else if c == 9 then [92, 116]
    else if c == 10 then [92, 110]
    else if c == 12 then [92, 102]
    else if c == 13 then [92, 114]
    else if c == 34 then [92, 34]
    else if c == 92 then [92, 92]
    else if c < 32 then [92, 117, 48, 48, HexDigit(c as int / 16), HexDigit(c as int % 16)]
    else [c]
  }

  function Escaped(s: Text): Text {
    if s == [] then [] else Escape(s[0]) + Escaped(s[1..])
  }

  function Quoted(s: Text): Text {
    [QUOTE] + Escaped(s) + [QUOTE]
  }

  lemma EscapeIsPrefixFree(c: CodeUnit, d: CodeUnit, x: Text, y: Text)
    requires Escape(c) + x == Escape(d) + y
    ensures c == d && x == y
  {
    var a, b := Escape(c), Escape(d);
    assert (a + x)[0] == a[0] && (b + y)[0] == b[0];
    if a[0] == 92 {
      assert (a + x)[1] == a[1] && (b + y)[1] == b[1];
      if a[1] == 117 {
        assert (a + x)[4] == a[4] && (b + y)[4] == b[4];
        assert (a + x)[5] == a[5] && (b + y)[5] == b[5];
      }
    }
    assert c == d;
    assert (a + x)[|a|..] == x && (b + y)[|b|..] == y;
  }

  lemma {:induction false} EscapedIsPrefixFree(s: Text, t: Text, x: Text, y: Text)
    requires Escaped(s) + [QUOTE] + x == Escaped(t) + [QUOTE] + y
    ensures s == t && x == y
  {
    EscapedStart(s, x);
    EscapedStart(t, y);
    if s == [] {
      assert (Escaped(s) + [QUOTE] + x)[1..] == x && (Escaped(t) + [QUOTE] + y)[1..] == y;
    } else {
      EscapeIsPrefixFree(s[0], t[0], Escaped(s[1..]) + [QUOTE] + x, Escaped(t[1..]) + [QUOTE] + y);
      EscapedIsPrefixFree(s[1..], t[1..], x, y);
      assert s == [s[0]] + s[1..] && t == [t[0]] + t[1..];
    }
  }

  /** A closing quote cannot be mistaken for the start of an escaped unit. */
  lemma EscapedStart(s: Text, x: Text)
    ensures s == [] <==> (Escaped(s) + [QUOTE] + x)[0] == QUOTE
    ensures s != [] ==> Escaped(s) + [QUOTE] + x == Escape(s[0]) + (Escaped(s[1..]) + [QUOTE] + x)
  {
    if s != [] {
      Associate(Escape(s[0]), Escaped(s[1..]), [QUOTE], x);
    }
  }

  lemma Associate(a: Text, b: Text, c: Text, d: Text)
    ensures (a + b) + c + d == a + (b + c + d)
    ensures a != [] ==> ((a + b) + c + d)[0] == a[0]
  {
  }

  lemma QuotedIsPrefixFree(s: Text, t: Text, x: Text, y: Text)
    requires Quoted(s) + x == Quoted(t) + y
    ensures s == t && x == y
  {
    assert (Quoted(s) + x)[1..] == Escaped(s) + [QUOTE] + x;
    assert (Quoted(t) + y)[1..] == Escaped(t) + [QUOTE] + y;
    EscapedIsPrefixFree(s, t, x, y);
  }

  // ---------------------------------------------------------------- members in key order

  /** The members sorted by key; entries.sort compares keys by code units. */
  function Sorted(ms: seq<Member>): (out: seq<Member>)
    ensures |out| == |ms|
    ensures forall x :: x in out <==> x in ms
  {
    SortBy(ms, (m: Member) => m.key)
  }

  predicate Ordered(ms: seq<Member>) {
    forall i, j :: 0 <= i < j < |ms| ==> !Less(ms[j].key, ms[i].key)
  }

  function Keys(ms: seq<Member>): (keys: seq<Text>)
    ensures |keys| == |ms|
    ensures forall i :: 0 <= i < |ms| ==> keys[i] == ms[i].key
  {
    seq(|ms|, i requires 0 <= i < |ms| => ms[i].key)
  }

  predicate Distinct(ms: seq<Member>) {
    forall i, j :: 0 <= i < j < |ms| ==> ms[i].key != ms[j].key
  }

  /** The check the source makes on the sorted entries: no two neighbours share a key. */
  predicate NoNeighboursEqual(ms: seq<Member>) {
    forall i :: 1 <= i < |ms| ==> ms[i - 1].key != ms[i].key
  }

  lemma SortedIsOrdered(ms: seq<Member>)
    ensures Ordered(Sorted(ms))
    ensures Distinct(Sorted(ms)) <==> Distinct(ms)
  {
    SortBySorts(ms, (m: Member) => m.key);
  }

  /** On sorted entries the neighbour check finds every duplicate. */
  lemma NeighboursDecideDistinct(ms: seq<Member>)
    requires Ordered(ms)
    ensures NoNeighboursEqual(ms) <==> Distinct(ms)
    ensures Distinct(ms) ==> Ascending(Keys(ms))
  {
    if NoNeighboursEqual(ms) {
      forall i, j | 0 <= i < j < |ms|
        ensures Less(ms[i].key, ms[j].key)
      {
        NeighboursAscend(ms, i, j);
      }
      forall i, j | 0 <= i < j < |ms|
        ensures ms[i].key != ms[j].key
      {
        LessIsStrict(ms[i].key, ms[j].key);
      }
    }
  }

  lemma {:induction false} NeighboursAscend(ms: seq<Member>, i: nat, j: nat)
    requires Ordered(ms) && NoNeighboursEqual(ms) && i < j < |ms|
    ensures Less(ms[i].key, ms[j].key)
    decreases j
  {
    LessIsTotal(ms[j - 1].key, ms[j].key);
    if i < j - 1 {
      NeighboursAscend(ms, i, j - 1);
      LessIsTransitive(ms[i].key, ms[j - 1].key, ms[j].key);
    }
  }

  // ---------------------------------------------------------------- the printer

  function Tail(texts: seq<Text>): Text {
    if texts == [] then [] else [COMMA] + texts[0] + Tail(texts[1..])
  }

  /** texts.join(",") */
  function Joined(texts: seq<Text>): Text {
    if texts == [] then [] else texts[0] + Tail(texts[1..])
  }

  /** canonicalJson; None where the source throws. */
  function CanonicalJson(v: Json): Option<Text>
    decreases v, 1, 0
  {
    match v
    case Null => Some(NULL)
    case Boolean(b) => Some(if b then TRUE else FALSE)
    case Number(token) => Some(token)
    case NegativeZero => Some(ZERO)
    case NonFinite => None
    case String(s) => if WellFormed(s) then Some(Quoted(s)) else None
    case Array(items) =>
      var texts := ItemTexts(items, v);
      if texts.None? then None else Some([OPEN_ARRAY] + Joined(texts.value) + [CLOSE_ARRAY])
    case Hole => None
    case Object(members) =>
      var entries := Sorted(members);
      if (exists m :: m in members && !WellFormed(m.key)) || !NoNeighboursEqual(entries) then None
      else
        var texts := MemberTexts(entries, v);
        if texts.None? then None else Some([OPEN_OBJECT] + Joined(texts.value) + [CLOSE_OBJECT])
  }

  ghost predicate Inside(items: seq<Json>, context: Json) {
    forall i :: 0 <= i < |items| ==> items[i] < context
  }

  lemma InsideTail(items: seq<Json>, context: Json)
    requires items != [] && Inside(items, context)
    ensures items[0] < context && Inside(items[1..], context)
  {
  }

  function ItemTexts(items: seq<Json>, ghost context: Json): (texts: Option<seq<Text>>)
    requires Inside(items, context)
    ensures texts.Some? ==> |texts.value| == |items|
    decreases context, 0, |items|
  {
    if items == [] then Some([])
    else
      InsideTail(items, context);
      var head := CanonicalJson(items[0]);
      var rest := ItemTexts(items[1..], context);
      if head.Some? && rest.Some? then Some([head.value] + rest.value) else None
  }

  function MemberTexts(entries: seq<Member>, ghost context: Json): (texts: Option<seq<Text>>)
    requires forall m :: m in entries ==> m.value < context
    ensures texts.Some? ==> |texts.value| == |entries|
    decreases context, 0, |entries|
  {
    if entries == [] then Some([])
    else
      var head := CanonicalJson(entries[0].value);
      var rest := MemberTexts(entries[1..], context);
      if head.Some? && rest.Some? then Some([Quoted(entries[0].key) + [COLON] + head.value] + rest.value) else None
  }

  // ---------------------------------------------------------------- the reference notions

  /** A JSON value inside the protocol domain. */
  predicate Admissible(v: Json) {
    match v
    case Null => true
    case Boolean(_) => true
    case Number(_) => true
    case NegativeZero => true
    case NonFinite => false
    case String(s) => WellFormed(s)
    case Array(items) => forall x :: x in items ==> Admissible(x)
    case Hole => false
    case Object(members) => Distinct(members) && forall m :: m in members ==> WellFormed(m.key) && Admissible(m.value)
  }

  /** Equality of JSON values: member order does not matter and negative zero equals zero. */
  predicate Equivalent(v: Json, w: Json) {
    match v
    case Null => w.Null?
    case Boolean(b) => w == v
    case Number(token) => w == v || (token == ZERO && w.NegativeZero?)
    case NegativeZero => w.NegativeZero? || (w.Number? && w.token == ZERO)
    case NonFinite => w.NonFinite?
    case String(s) => w == v
    case Array(items) => w.Array? && |w.items| == |items| && forall i :: 0 <= i < |items| ==> Equivalent(items[i], w.items[i])
    case Hole => w.Hole?
    case Object(members) =>
      && w.Object?
      && (forall m :: m in members ==> HasPartner(m, w.members))
      && KeySet(w.members) <= KeySet(members)
  }

  predicate HasPartner(m: Member, ns: seq<Member>) {
    exists n :: n in ns && n.key == m.key && Equivalent(m.value, n.value)
  }

  function KeySet(ms: seq<Member>): set<Text> {
    set m | m in ms :: m.key
  }

  // ---------------------------------------------------------------- what throws

  /** The source throws exactly on the values outside the protocol domain. */
  lemma {:induction false} PrintsExactlyAdmissible(v: Json)
    ensures CanonicalJson(v).Some? <==> Admissible(v)
    decreases v, 1, 0
  {
    match v {
      case Array(items) =>
        ItemsAdmissible(items, v);
      case Object(members) =>
        SortedIsOrdered(members);
        NeighboursDecideDistinct(Sorted(members));
        MembersAdmissible(Sorted(members), v);
      case _ =>
    }
  }

  lemma {:induction false} ItemsAdmissible(items: seq<Json>, context: Json)
    requires Inside(items, context)
    ensures ItemTexts(items, context).Some? <==> forall x :: x in items ==> Admissible(x)
    decreases context, 0, |items|
  {
    if items != [] {
      assert items == [items[0]] + items[1..];
      InsideTail(items, context);
      PrintsExactlyAdmissible(items[0]);
      ItemsAdmissible(items[1..], context);
    }
  }

  lemma {:induction false} MembersAdmissible(entries: seq<Member>, context: Json)
    requires forall m :: m in entries ==> m.value < context
    ensures MemberTexts(entries, context).Some? <==> forall m :: m in entries ==> Admissible(m.value)
    decreases context, 0, |entries|
  {
    if entries != [] {
      assert entries == [entries[0]] + entries[1..];
      PrintsExactlyAdmissible(entries[0].value);
      MembersAdmissible(entries[1..], context);
    }
  }

  // ---------------------------------------------------------------- one text, one value

  predicate Stops(r: Text) {
    r == [] || r[0] in {COMMA, CLOSE_ARRAY, CLOSE_OBJECT}
  }

  function Kind(v: Json): nat {
    match v
    case Null => 0
    case Boolean(_) => 1
    case Number(_) => 2
    case NegativeZero => 2
    case String(_) => 3
    case Array(_) => 4
    case Object(_) => 5
    case _ => 6
  }

  function KindOfUnit(c: CodeUnit): nat {
    if c == 110 then 0
    else if c == 116 || c == 102 then 1
    else if NumberUnit(c) then 2
    else if c == QUOTE then 3
    else if c == OPEN_ARRAY then 4
    else if c == OPEN_OBJECT then 5
    else 6
  }

  lemma FirstUnitTellsKind(v: Json, r: Text)
    requires CanonicalJson(v).Some?
    ensures var t := CanonicalJson(v).value;
            t != [] && (t + r)[0] == t[0] && KindOfUnit(t[0]) == Kind(v) < 6
  {
  }

  function Run(t: Text): nat {
    if t == [] || !NumberUnit(t[0]) then 0 else 1 + Run(t[1..])
  }

  lemma {:induction false} RunOfToken(a: Text, r: Text)
    requires (forall i :: 0 <= i < |a| ==> NumberUnit(a[i])) && Stops(r)
    ensures Run(a + r) == |a|
  {
    if a == [] {
      assert a + r == r;
    } else {
      assert (a + r)[1..] == a[1..] + r;
      RunOfToken(a[1..], r);
    }
  }

  lemma NumberRunsAreMaximal(a: Text, b: Text, r: Text, q: Text)
    requires forall i :: 0 <= i < |a| ==> NumberUnit(a[i])
    requires forall i :: 0 <= i < |b| ==> NumberUnit(b[i])
    requires Stops(r) && Stops(q) && a + r == b + q
    ensures a == b && r == q
  {
    RunOfToken(a, r);
    RunOfToken(b, q);
    SameLengthSplit(a, b, r, q);
  }

  lemma SameLengthSplit(a: Text, b: Text, r: Text, q: Text)
    requires |a| == |b| && a + r == b + q
    ensures a == b && r == q
  {
    assert (a + r)[..|a|] == a && (b + q)[..|b|] == b;
    assert (a + r)[|a|..] == r && (b + q)[|b|..] == q;
  }

  /**
   The text of a value followed by a delimiter can be read in only one way: equal texts come from
   equivalent values, and what follows them is equal too.
   */
  lemma {:induction false} Unambiguous(v: Json, w: Json, r: Text, q: Text)
    requires CanonicalJson(v).Some? && CanonicalJson(w).Some?
    requires CanonicalJson(v).value + r == CanonicalJson(w).value + q
    requires Stops(r) && Stops(q)
    ensures CanonicalJson(v) == CanonicalJson(w) && r == q && Equivalent(v, w)
    decreases v, 1, 0
  {
    var a, b := CanonicalJson(v).value, CanonicalJson(w).value;
    FirstUnitTellsKind(v, r);
    FirstUnitTellsKind(w, q);
    match v {
      case Null =>
        SameLengthSplit(a, b, r, q);
      case Boolean(_) =>
        SameLengthSplit(a, b, r, q);
      case Number(_) =>
        NumberRunsAreMaximal(a, b, r, q);
      case NegativeZero =>
        NumberRunsAreMaximal(a, b, r, q);
      case String(s) =>
        QuotedIsPrefixFree(s, w.s, r, q);
      case Array(items) =>
        ArraysUnambiguous(v, w, r, q);
      case Object(members) =>
        ObjectsUnambiguous(v, w, r, q);
    }
  }

  lemma {:induction false} ArraysUnambiguous(v: Json, w: Json, r: Text, q: Text)
    requires v.Array? && w.Array? && CanonicalJson(v).Some? && CanonicalJson(w).Some?
    requires CanonicalJson(v).value + r == CanonicalJson(w).value + q
    ensures CanonicalJson(v) == CanonicalJson(w) && r == q && Equivalent(v, w)
    decreases v, 0, 2 * |v.items| + 1
  {
    var xs, ys := v.items, w.items;
    var tx, ty := ItemTexts(xs, v).value, ItemTexts(ys, w).value;
    Associate([OPEN_ARRAY], Joined(tx), [CLOSE_ARRAY], r);
    Associate([OPEN_ARRAY], Joined(ty), [CLOSE_ARRAY], q);
    SameLengthSplit([OPEN_ARRAY], [OPEN_ARRAY], Joined(tx) + [CLOSE_ARRAY] + r, Joined(ty) + [CLOSE_ARRAY] + q);
    if xs == [] || ys == [] {
      NotClosedByItem(xs, v, r);
      NotClosedByItem(ys, w, q);
      SameLengthSplit([CLOSE_ARRAY], [CLOSE_ARRAY], r, q);
    } else {
      Associate(tx[0], Tail(tx[1..]), [CLOSE_ARRAY], r);
      Associate(ty[0], Tail(ty[1..]), [CLOSE_ARRAY], q);
      ItemsUnambiguous(xs, ys, v, w, r, q);
    }
  }

  lemma NotClosedByItem(items: seq<Json>, context: Json, r: Text)
    requires Inside(items, context)
    requires ItemTexts(items, context).Some?
    ensures items == [] <==> (Joined(ItemTexts(items, context).value) + [CLOSE_ARRAY] + r)[0] == CLOSE_ARRAY
    ensures items == [] ==> Joined(ItemTexts(items, context).value) + [CLOSE_ARRAY] + r == [CLOSE_ARRAY] + r
  {
    if items != [] {
      var texts := ItemTexts(items, context).value;
      FirstUnitTellsKind(items[0], []);
      Associate(texts[0], Tail(texts[1..]), [CLOSE_ARRAY], r);
    }
  }

  lemma {:induction false} ItemsUnambiguous(xs: seq<Json>, ys: seq<Json>, v: Json, w: Json, r: Text, q: Text)
    requires xs != [] && ys != []
    requires Inside(xs, v) && Inside(ys, w)
    requires ItemTexts(xs, v).Some? && ItemTexts(ys, w).Some?
    requires var tx, ty := ItemTexts(xs, v).value, ItemTexts(ys, w).value;
             tx[0] + (Tail(tx[1..]) + [CLOSE_ARRAY] + r) == ty[0] + (Tail(ty[1..]) + [CLOSE_ARRAY] + q)
    ensures ItemTexts(xs, v) == ItemTexts(ys, w) && r == q
    ensures |xs| == |ys| && forall i :: 0 <= i < |xs| ==> Equivalent(xs[i], ys[i])
    decreases v, 0, 2 * |xs|
  {
    var tx, ty := ItemTexts(xs, v).value, ItemTexts(ys, w).value;
    InsideTail(xs, v);
    InsideTail(ys, w);
    var rx, ry := Tail(tx[1..]) + [CLOSE_ARRAY] + r, Tail(ty[1..]) + [CLOSE_ARRAY] + q;
    TailStart(tx[1..], CLOSE_ARRAY, r);
    TailStart(ty[1..], CLOSE_ARRAY, q);
    Unambiguous(xs[0], ys[0], rx, ry);
    assert xs == [xs[0]] + xs[1..] && ys == [ys[0]] + ys[1..];
    if |xs| == 1 || |ys| == 1 {
      assert |xs| == |ys| == 1;
      SameLengthSplit([CLOSE_ARRAY], [CLOSE_ARRAY], r, q);
    } else {
      SameLengthSplit([COMMA], [COMMA],
                      tx[1] + (Tail(tx[2..]) + [CLOSE_ARRAY] + r), ty[1] + (Tail(ty[2..]) + [CLOSE_ARRAY] + q));
      assert tx[1..][1..] == tx[2..] && ty[1..][1..] == ty[2..];
      ItemsUnambiguous(xs[1..], ys[1..], v, w, r, q);
      assert forall i :: 1 <= i < |xs| ==> xs[i] == xs[1..][i - 1] && ys[i] == ys[1..][i - 1];
    }
  }

  /** After an item comes either a comma and the next text, or the closing bracket. */
  lemma TailStart(texts: seq<Text>, close: CodeUnit, r: Text)
    requires close in {CLOSE_ARRAY, CLOSE_OBJECT}
    ensures var rest := Tail(texts) + [close] + r;
            && Stops(rest)
            && (texts == [] ==> rest == [close] + r)
            && (texts != [] ==> rest == [COMMA] + (texts[0] + (Tail(texts[1..]) + [close] + r)))
  {
    if texts != [] {
      Associate([COMMA], texts[0], Tail(texts[1..]), [close] + r);
      Associate([COMMA] + texts[0], Tail(texts[1..]), [close], r);
      assert Tail(texts) + [close] + r == [COMMA] + (texts[0] + (Tail(texts[1..]) + [close] + r));
    }
  }

  lemma {:induction false} ObjectsUnambiguous(v: Json, w: Json, r: Text, q: Text)
    requires v.Object? && w.Object? && CanonicalJson(v).Some? && CanonicalJson(w).Some?
    requires CanonicalJson(v).value + r == CanonicalJson(w).value + q
    ensures CanonicalJson(v) == CanonicalJson(w) && r == q && Equivalent(v, w)
    decreases v, 0, 2 * |v.members| + 1
  {
    var xs, ys := Sorted(v.members), Sorted(w.members);
    var tx, ty := MemberTexts(xs, v).value, MemberTexts(ys, w).value;
    Associate([OPEN_OBJECT], Joined(tx), [CLOSE_OBJECT], r);
    Associate([OPEN_OBJECT], Joined(ty), [CLOSE_OBJECT], q);
    SameLengthSplit([OPEN_OBJECT], [OPEN_OBJECT], Joined(tx) + [CLOSE_OBJECT] + r, Joined(ty) + [CLOSE_OBJECT] + q);
    if xs == [] || ys == [] {
      NotClosedByMember(xs, v, r);
      NotClosedByMember(ys, w, q);
      SameLengthSplit([CLOSE_OBJECT], [CLOSE_OBJECT], r, q);
    } else {
      Associate(tx[0], Tail(tx[1..]), [CLOSE_OBJECT], r);
      Associate(ty[0], Tail(ty[1..]), [CLOSE_OBJECT], q);
      MembersUnambiguous(xs, ys, v, w, r, q);
    }
    PairwiseEquivalent(v.members, w.members);
  }

  lemma NotClosedByMember(entries: seq<Member>, context: Json, r: Text)
    requires forall m :: m in entries ==> m.value < context
    requires MemberTexts(entries, context).Some?
    ensures entries == [] <==> (Joined(MemberTexts(entries, context).value) + [CLOSE_OBJECT] + r)[0] == CLOSE_OBJECT
    ensures entries == [] ==> Joined(MemberTexts(entries, context).value) + [CLOSE_OBJECT] + r == [CLOSE_OBJECT] + r
  {
    if entries != [] {
      var texts := MemberTexts(entries, context).value;
      assert texts[0][0] == QUOTE;
      Associate(texts[0], Tail(texts[1..]), [CLOSE_OBJECT], r);
    }
  }

  /** Two member lists with equal keys and equivalent values, position by position. */
  predicate Aligned(xs: seq<Member>, ys: seq<Member>) {
    |xs| == |ys| && forall i :: 0 <= i < |xs| ==> xs[i].key == ys[i].key && Equivalent(xs[i].value, ys[i].value)
  }

  lemma AlignedCons(xs: seq<Member>, ys: seq<Member>)
    requires xs != [] && ys != [] && xs[0].key == ys[0].key && Equivalent(xs[0].value, ys[0].value)
    requires Aligned(xs[1..], ys[1..])
    ensures Aligned(xs, ys)
  {
    assert forall i :: 1 <= i < |xs| ==> xs[i] == xs[1..][i - 1] && ys[i] == ys[1..][i - 1];
  }

  /** "key":value up to the delimiter splits after its key in only one way. */
  lemma KeyedSplit(k: Text, l: Text, x: Text, y: Text, rx: Text, ry: Text)
    requires Quoted(k) + [COLON] + x + rx == Quoted(l) + [COLON] + y + ry
    ensures k == l && x + rx == y + ry
  {
    Regroup(Quoted(k), [COLON], x, rx);
    Regroup(Quoted(l), [COLON], y, ry);
    QuotedIsPrefixFree(k, l, [COLON] + (x + rx), [COLON] + (y + ry));
    SameLengthSplit([COLON], [COLON], x + rx, y + ry);
  }

  lemma Regroup(a: Text, b: Text, c: Text, d: Text)
    ensures a + b + c + d == a + (b + (c + d))
  {
  }

  lemma MemberTextsCons(xs: seq<Member>, v: Json)
    requires xs != [] && (forall m :: m in xs ==> m.value < v) && MemberTexts(xs, v).Some?
    ensures (forall m :: m in xs[1..] ==> m.value < v) && MemberTexts(xs[1..], v).Some?
    ensures xs[0].value < v && CanonicalJson(xs[0].value).Some?
    ensures MemberTexts(xs, v).value ==
            [Quoted(xs[0].key) + [COLON] + CanonicalJson(xs[0].value).value] + MemberTexts(xs[1..], v).value
  {
    assert xs[0] in xs;
  }

  lemma {:induction false} FirstMemberUnambiguous(m: Member, n: Member, v: Json, tx: seq<Text>, ty: seq<Text>, r: Text, q: Text)
    requires m.value < v && CanonicalJson(m.value).Some? && CanonicalJson(n.value).Some?
    requires Quoted(m.key) + [COLON] + CanonicalJson(m.value).value + (Tail(tx) + [CLOSE_OBJECT] + r) ==
             Quoted(n.key) + [COLON] + CanonicalJson(n.value).value + (Tail(ty) + [CLOSE_OBJECT] + q)
    ensures m.key == n.key && Equivalent(m.value, n.value) && CanonicalJson(m.value) == CanonicalJson(n.value)
    ensures Tail(tx) + [CLOSE_OBJECT] + r == Tail(ty) + [CLOSE_OBJECT] + q
    decreases v, 0, 0
  {
    var rx, ry := Tail(tx) + [CLOSE_OBJECT] + r, Tail(ty) + [CLOSE_OBJECT] + q;
    TailStart(tx, CLOSE_OBJECT, r);
    TailStart(ty, CLOSE_OBJECT, q);
    KeyedSplit(m.key, n.key, CanonicalJson(m.value).value, CanonicalJson(n.value).value, rx, ry);
    Unambiguous(m.value, n.value, rx, ry);
  }

  lemma {:induction false} MembersUnambiguous(xs: seq<Member>, ys: seq<Member>, v: Json, w: Json, r: Text, q: Text)
    requires xs != [] && ys != []
    requires (forall m :: m in xs ==> m.value < v) && forall m :: m in ys ==> m.value < w
    requires MemberTexts(xs, v).Some? && MemberTexts(ys, w).Some?
    requires var tx, ty := MemberTexts(xs, v).value, MemberTexts(ys, w).value;
             tx[0] + (Tail(tx[1..]) + [CLOSE_OBJECT] + r) == ty[0] + (Tail(ty[1..]) + [CLOSE_OBJECT] + q)
    ensures MemberTexts(xs, v) == MemberTexts(ys, w) && r == q
    ensures Aligned(xs, ys)
    decreases v, 0, |xs|
  {
    MemberTextsCons(xs, v);
    MemberTextsCons(ys, w);
    var tx, ty := MemberTexts(xs[1..], v).value, MemberTexts(ys[1..], w).value;
    assert MemberTexts(xs, v).value[1..] == tx && MemberTexts(ys, w).value[1..] == ty;
    FirstMemberUnambiguous(xs[0], ys[0], v, tx, ty, r, q);
    TailStart(tx, CLOSE_OBJECT, r);
    TailStart(ty, CLOSE_OBJECT, q);
    if tx == [] || ty == [] {
      assert tx == [] && ty == [];
      SameLengthSplit([CLOSE_OBJECT], [CLOSE_OBJECT], r, q);
    } else {
      SameLengthSplit([COMMA], [COMMA],
                      tx[0] + (Tail(tx[1..]) + [CLOSE_OBJECT] + r), ty[0] + (Tail(ty[1..]) + [CLOSE_OBJECT] + q));
      MembersUnambiguous(xs[1..], ys[1..], v, w, r, q);
    }
    AlignedCons(xs, ys);
  }

  /** Pairwise equivalent sorted members make equivalent objects, whatever the insertion orders were. */
  lemma PairwiseEquivalent(ms: seq<Member>, ns: seq<Member>)
    requires Aligned(Sorted(ms), Sorted(ns))
    ensures Equivalent(Object(ms), Object(ns))
  {
    forall m | m in ms
      ensures HasPartner(m, ns)
    {
      var n := Partner(Sorted(ms), Sorted(ns), m);
    }
    forall k | k in KeySet(ns)
      ensures k in KeySet(ms)
    {
      var n :| n in ns && n.key == k;
      var i :| 0 <= i < |Sorted(ns)| && Sorted(ns)[i] == n;
      assert Sorted(ms)[i] in ms;
    }
  }

  lemma Partner(xs: seq<Member>, ys: seq<Member>, m: Member) returns (n: Member)
    requires Aligned(xs, ys) && m in xs
    ensures n in ys && n.key == m.key && Equivalent(m.value, n.value)
  {
    var i :| 0 <= i < |xs| && xs[i] == m;
    n := ys[i];
  }

  // ---------------------------------------------------------------- one value, one text

  lemma {:induction false} EquivalentPrintAlike(v: Json, w: Json)
    requires Admissible(v) && Admissible(w) && Equivalent(v, w)
    ensures CanonicalJson(v) == CanonicalJson(w)
    decreases v, 1, 0
  {
    match v {
      case Array(items) =>
        ItemsPrintAlike(items, w.items, v, w);
      case Object(members) =>
        SortedMembersCorrespond(members, w.members);
        MembersPrintAlike(Sorted(members), Sorted(w.members), v, w);
        SortedIsOrdered(members);
        SortedIsOrdered(w.members);
        NeighboursDecideDistinct(Sorted(members));
        NeighboursDecideDistinct(Sorted(w.members));
      case _ =>
    }
  }

  lemma {:induction false} ItemsPrintAlike(xs: seq<Json>, ys: seq<Json>, v: Json, w: Json)
    requires Inside(xs, v) && Inside(ys, w)
    requires (forall x :: x in xs ==> Admissible(x)) && forall y :: y in ys ==> Admissible(y)
    requires |xs| == |ys| && forall i :: 0 <= i < |xs| ==> Equivalent(xs[i], ys[i])
    ensures ItemTexts(xs, v) == ItemTexts(ys, w)
    decreases v, 0, |xs|
  {
    if xs != [] {
      assert xs == [xs[0]] + xs[1..] && ys == [ys[0]] + ys[1..];
      InsideTail(xs, v);
      InsideTail(ys, w);
      EquivalentPrintAlike(xs[0], ys[0]);
      ItemsPrintAlike(xs[1..], ys[1..], v, w);
    }
  }

  lemma {:induction false} MembersPrintAlike(xs: seq<Member>, ys: seq<Member>, v: Json, w: Json)
    requires (forall m :: m in xs ==> m.value < v && Admissible(m.value))
    requires forall m :: m in ys ==> m.value < w && Admissible(m.value)
    requires Aligned(xs, ys)
    ensures MemberTexts(xs, v) == MemberTexts(ys, w)
    decreases v, 0, |xs|
  {
    if xs != [] {
      assert xs == [xs[0]] + xs[1..] && ys == [ys[0]] + ys[1..];
      EquivalentPrintAlike(xs[0].value, ys[0].value);
      MembersPrintAlike(xs[1..], ys[1..], v, w);
    }
  }

  /** Sorting by key lines the members of equivalent objects up with each other. */
  lemma SortedMembersCorrespond(ms: seq<Member>, ns: seq<Member>)
    requires Distinct(ms) && Distinct(ns) && Equivalent(Object(ms), Object(ns))
    ensures Aligned(Sorted(ms), Sorted(ns))
  {
    var xs, ys := Sorted(ms), Sorted(ns);
    SortedIsOrdered(ms);
    SortedIsOrdered(ns);
    NeighboursDecideDistinct(xs);
    NeighboursDecideDistinct(ys);
    SameKeys(ms, ns);
    forall k
      ensures k in Keys(xs) <==> k in Keys(ys)
    {
      SortedKeys(ms, k);
      SortedKeys(ns, k);
    }
    AscendingIsUnique(Keys(xs), Keys(ys));
    forall i | 0 <= i < |xs|
      ensures xs[i].key == ys[i].key && Equivalent(xs[i].value, ys[i].value)
    {
      assert Keys(xs)[i] == Keys(ys)[i];
      var n := MemberPartner(ms, ns, xs[i]);
      SameKeySameMember(ys, n, i);
    }
  }

  lemma MemberPartner(ms: seq<Member>, ns: seq<Member>, m: Member) returns (n: Member)
    requires Equivalent(Object(ms), Object(ns)) && m in ms
    ensures n in ns && n.key == m.key && Equivalent(m.value, n.value)
  {
    assert HasPartner(m, ns);
    n :| n in ns && n.key == m.key && Equivalent(m.value, n.value);
  }

  lemma SameKeySameMember(ys: seq<Member>, n: Member, i: nat)
    requires Distinct(ys) && n in ys && i < |ys| && ys[i].key == n.key
    ensures ys[i] == n
  {
  }

  lemma SameKeys(ms: seq<Member>, ns: seq<Member>)
    requires Equivalent(Object(ms), Object(ns))
    ensures KeySet(ms) == KeySet(ns)
  {
    forall k | k in KeySet(ms)
      ensures k in KeySet(ns)
    {
      var m :| m in ms && m.key == k;
      assert HasPartner(m, ns);
    }
  }

  lemma SortedKeys(ms: seq<Member>, k: Text)
    ensures k in Keys(Sorted(ms)) <==> k in KeySet(ms)
  {
    var xs := Sorted(ms);
    if k in Keys(xs) {
      var i :| 0 <= i < |Keys(xs)| && Keys(xs)[i] == k;
      assert xs[i] in ms;
    }
    if k in KeySet(ms) {
      var m :| m in ms && m.key == k;
      var i :| 0 <= i < |xs| && xs[i] == m;
      assert Keys(xs)[i] == k;
    }
  }

  /** Sections 3.2.2 and 3.2.3 of RFC 8785: the canonical text decides equality of JSON values. */
  lemma CanonicalTextDecidesEquality(v: Json, w: Json)
    requires Admissible(v) && Admissible(w)
    ensures CanonicalJson(v).Some? && CanonicalJson(w).Some?
    ensures CanonicalJson(v) == CanonicalJson(w) <==> Equivalent(v, w)
  {
    PrintsExactlyAdmissible(v);
    PrintsExactlyAdmissible(w);
    if CanonicalJson(v) == CanonicalJson(w) {
      Unambiguous(v, w, [], []);
    }
    if Equivalent(v, w) {
      EquivalentPrintAlike(v, w);
    }
  }
}
