/** Strings as the source sees them: sequences of UTF-16 code units under code-unit order. */
module Text {
  import opened Collections

  newtype CodeUnit = x: int | 0 <= x < 0x1_0000

  type Text = seq<CodeUnit>

  /** The operator < on strings, the protocol order of compareCodeUnits. */
  predicate Less(a: Text, b: Text) {
    b != [] && (a == [] || a[0] < b[0] || (a[0] == b[0] && Less(a[1..], b[1..])))
  }

  lemma {:induction false} LessIsStrict(a: Text, b: Text)
    ensures !(Less(a, b) && Less(b, a))
    ensures !Less(a, a)
  {
    if a != [] {
      LessIsStrict(a[1..], if b == [] then [] else b[1..]);
    }
  }

  lemma {:induction false} LessIsTotal(a: Text, b: Text)
    ensures Less(a, b) || a == b || Less(b, a)
  {
    if a != [] && b != [] && a[0] == b[0] {
      LessIsTotal(a[1..], b[1..]);
      assert a == [a[0]] + a[1..] && b == [b[0]] + b[1..];
    }
  }

  lemma {:induction false} LessIsTransitive(a: Text, b: Text, c: Text)
    requires Less(a, b) && Less(b, c)
    ensures Less(a, c)
  {
    if a != [] && a[0] == b[0] && b[0] == c[0] {
      LessIsTransitive(a[1..], b[1..], c[1..]);
    }
  }

  /** Strictly ascending, hence free of duplicates. */
  predicate Ascending(ids: seq<Text>) {
    forall i, j :: 0 <= i < j < |ids| ==> Less(ids[i], ids[j])
  }

  /** A set of strings has only one ascending listing. */
  lemma {:induction false} AscendingIsUnique(a: seq<Text>, b: seq<Text>)
    requires Ascending(a) && Ascending(b)
    requires forall x :: x in a <==> x in b
    ensures a == b
  {
    assert b != [] ==> b[0] in b;
    if a != [] {
      assert a[0] in b;
      assert b[0] in a;
      LessIsStrict(a[0], b[0]);
      assert a[0] == b[0];
      forall x
        ensures x in a[1..] <==> x in b[1..]
      {
        TailMembers(a, x);
        TailMembers(b, x);
      }
      AscendingIsUnique(a[1..], b[1..]);
      assert a == [a[0]] + a[1..] && b == [b[0]] + b[1..];
    }
  }

  lemma TailMembers(a: seq<Text>, x: Text)
    requires a != [] && Ascending(a)
    ensures x in a[1..] <==> x in a && x != a[0]
  {
    LessIsStrict(a[0], a[0]);
    if x in a && x != a[0] {
      var i :| 0 <= i < |a| && a[i] == x;
      assert a[1..][i - 1] == x;
    }
  }

  /** The ascending listing of a set: the result of sorting its members with compareCodeUnits. */
  function Listing(ids: set<Text>): (out: seq<Text>)
    ensures Ascending(out)
    ensures forall x :: x in out <==> x in ids
    ensures |out| == |ids|
    decreases |ids|
  {
    if ids == {} then []
    else
      HasLeast(ids);
      LeastIsUnique(ids);
      var least :| IsLeast(least, ids);
      var rest := Listing(ids - {least});
      assert forall j :: 0 <= j < |rest| ==> rest[j] in ids - {least};
      [least] + rest
  }

  predicate IsLeast(l: Text, ids: set<Text>) {
    l in ids && forall x :: x in ids && x != l ==> Less(l, x)
  }

  lemma {:induction false} HasLeast(ids: set<Text>)
    requires ids != {}
    ensures exists l :: IsLeast(l, ids)
    decreases |ids|
  {
    var a :| a in ids;
    if ids == {a} {
      assert IsLeast(a, ids);
    } else {
      assert ids == {a} + (ids - {a});
      HasLeast(ids - {a});
      var l :| IsLeast(l, ids - {a});
      LessIsTotal(a, l);
      if Less(a, l) {
        forall x | x in ids && x != a
          ensures Less(a, x)
        {
          if x != l { LessIsTransitive(a, l, x); }
        }
        assert IsLeast(a, ids);
      } else {
        assert IsLeast(l, ids);
      }
    }
  }

  lemma LeastIsUnique(ids: set<Text>)
    ensures forall k, l :: IsLeast(k, ids) && IsLeast(l, ids) ==> k == l
  {
    forall k, l | k in ids && l in ids && k != l && Less(k, l) && Less(l, k)
      ensures false
    {
      LessIsStrict(k, l);
    }
  }

  // ---------------------------------------------------------------- sorting by a key

  function InsertBy<T(!new)>(x: T, sorted: seq<T>, key: T -> Text): (out: seq<T>)
    ensures |out| == |sorted| + 1
    ensures forall y :: y in out <==> y == x || y in sorted
  {
    if sorted == [] || Less(key(x), key(sorted[0])) then [x] + sorted
    else
      assert sorted == [sorted[0]] + sorted[1..];
      [sorted[0]] + InsertBy(x, sorted[1..], key)
  }

  /** The elements sorted by key under code-unit order. */
  function SortBy<T(!new)>(xs: seq<T>, key: T -> Text): (out: seq<T>)
    ensures |out| == |xs|
    ensures forall y :: y in out <==> y in xs
  {
    if xs == [] then []
    else
      assert xs == [xs[0]] + xs[1..];
      InsertBy(xs[0], SortBy(xs[1..], key), key)
  }

  predicate OrderedBy<T(!new)>(xs: seq<T>, key: T -> Text) {
    forall i, j :: 0 <= i < j < |xs| ==> !Less(key(xs[j]), key(xs[i]))
  }

  predicate DistinctBy<T(!new)>(xs: seq<T>, key: T -> Text) {
    forall i, j :: 0 <= i < j < |xs| ==> key(xs[i]) != key(xs[j])
  }

  lemma {:induction false} InsertByOrders<T(!new)>(x: T, sorted: seq<T>, key: T -> Text)
    requires OrderedBy(sorted, key)
    ensures OrderedBy(InsertBy(x, sorted, key), key)
  {
    var out := InsertBy(x, sorted, key);
    if sorted == [] {
    } else if Less(key(x), key(sorted[0])) {
      forall i, j | 0 <= i < j < |out|
        ensures !Less(key(out[j]), key(out[i]))
      {
        if i == 0 {
          assert out[j] == sorted[j - 1];
          if Less(key(out[j]), key(x)) {
            LessIsTransitive(key(out[j]), key(x), key(sorted[0]));
            LessIsStrict(key(x), key(sorted[0]));
            LessIsStrict(key(sorted[0]), key(sorted[0]));
          }
        }
      }
    } else {
      InsertByOrders(x, sorted[1..], key);
      var rest := InsertBy(x, sorted[1..], key);
      forall i, j | 0 <= i < j < |out|
        ensures !Less(key(out[j]), key(out[i]))
      {
        assert out[j] == rest[j - 1] && rest[j - 1] in rest;
      }
    }
  }

  lemma DistinctByCons<T(!new)>(x: T, xs: seq<T>, key: T -> Text)
    ensures DistinctBy([x] + xs, key) <==> DistinctBy(xs, key) && forall y :: y in xs ==> key(y) != key(x)
  {
    var out := [x] + xs;
    if DistinctBy(out, key) {
      forall i | 0 <= i < |xs|
        ensures key(xs[i]) != key(x)
      {
        assert key(out[0]) != key(out[i + 1]);
      }
      forall i, j | 0 <= i < j < |xs|
        ensures key(xs[i]) != key(xs[j])
      {
        assert key(out[i + 1]) != key(out[j + 1]);
      }
    }
    if DistinctBy(xs, key) && forall y :: y in xs ==> key(y) != key(x) {
      forall i, j | 0 <= i < j < |out|
        ensures key(out[i]) != key(out[j])
      {
        assert out[j] == xs[j - 1] && xs[j - 1] in xs;
        if i > 0 { assert out[i] == xs[i - 1]; }
      }
    }
  }

  lemma {:induction false} InsertByDistinct<T(!new)>(x: T, sorted: seq<T>, key: T -> Text)
    ensures DistinctBy(InsertBy(x, sorted, key), key) <==> DistinctBy([x] + sorted, key)
  {
    DistinctByCons(x, sorted, key);
    if sorted != [] && !Less(key(x), key(sorted[0])) {
      InsertByDistinct(x, sorted[1..], key);
      DistinctByCons(sorted[0], InsertBy(x, sorted[1..], key), key);
      DistinctByCons(sorted[0], sorted[1..], key);
      DistinctByCons(x, sorted[1..], key);
      assert sorted == [sorted[0]] + sorted[1..];
    }
  }

  /** Sorting orders the elements and neither makes nor hides a duplicate key. */
  lemma {:induction false} SortBySorts<T(!new)>(xs: seq<T>, key: T -> Text)
    ensures OrderedBy(SortBy(xs, key), key)
    ensures DistinctBy(SortBy(xs, key), key) <==> DistinctBy(xs, key)
  {
    if xs != [] {
      SortBySorts(xs[1..], key);
      InsertByOrders(xs[0], SortBy(xs[1..], key), key);
      InsertByDistinct(xs[0], SortBy(xs[1..], key), key);
      DistinctByCons(xs[0], SortBy(xs[1..], key), key);
      DistinctByCons(xs[0], xs[1..], key);
      assert xs == [xs[0]] + xs[1..];
    }
  }

  lemma KeysByAscend<T(!new)>(xs: seq<T>, key: T -> Text)
    requires OrderedBy(xs, key) && DistinctBy(xs, key)
    ensures Ascending(Each(xs, key))
  {
    forall i, j | 0 <= i < j < |xs|
      ensures Less(key(xs[i]), key(xs[j]))
    {
      LessIsTotal(key(xs[i]), key(xs[j]));
    }
  }

  lemma {:induction false} SortedStays<T(!new)>(xs: seq<T>, key: T -> Text)
    requires OrderedBy(xs, key) && DistinctBy(xs, key)
    ensures SortBy(xs, key) == xs
  {
    if xs != [] {
      SortedStays(xs[1..], key);
      if |xs| > 1 {
        LessIsTotal(key(xs[0]), key(xs[1]));
      }
      assert xs == [xs[0]] + xs[1..];
    }
  }

  /** Elements with distinct keys have one sorted order: it depends on the set of elements only. */
  lemma SortByIsUnique<T(!new)>(xs: seq<T>, ys: seq<T>, key: T -> Text)
    requires DistinctBy(xs, key) && DistinctBy(ys, key)
    requires forall x :: x in xs <==> x in ys
    ensures SortBy(xs, key) == SortBy(ys, key)
  {
    var a, b := SortBy(xs, key), SortBy(ys, key);
    SortBySorts(xs, key);
    SortBySorts(ys, key);
    KeysByAscend(a, key);
    KeysByAscend(b, key);
    forall k
      ensures k in Each(a, key) <==> k in Each(b, key)
    {
      if k in Each(a, key) {
        var i :| 0 <= i < |a| && Each(a, key)[i] == k;
        assert a[i] in b;
        var j :| 0 <= j < |b| && b[j] == a[i];
        assert Each(b, key)[j] == k;
      }
      if k in Each(b, key) {
        var i :| 0 <= i < |b| && Each(b, key)[i] == k;
        assert b[i] in a;
        var j :| 0 <= j < |a| && a[j] == b[i];
        assert Each(a, key)[j] == k;
      }
    }
    AscendingIsUnique(Each(a, key), Each(b, key));
    forall i | 0 <= i < |a|
      ensures a[i] == b[i]
    {
      assert a[i] in b;
      var j :| 0 <= j < |b| && b[j] == a[i];
      assert Each(b, key)[j] == Each(a, key)[i] == Each(b, key)[i];
    }
  }
}
