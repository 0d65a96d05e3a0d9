/** JavaScript strings as sequences of UTF-16 code units, with the order that
    `<` and `Array.prototype.sort` use on them. */
module JsStrings {

  type CodeUnit = u: nat | u < 0x1_0000

  type JsString = seq<CodeUnit>

  function Unit(c: char): (u: CodeUnit)
    requires c < '\U{80}'
    ensures u == c as int
  {
    c as int
  }

  /** The code units of an ASCII literal. */
  function Units(s: string): (r: JsString)
    requires forall c <- s :: c < '\U{80}'
    ensures |r| == |s| && forall i :: 0 <= i < |s| ==> r[i] == s[i] as int
  {
    seq(|s|, (i: nat) requires i < |s| => assert s[i] in s; Unit(s[i]))
  }

  /** `a < b` on JavaScript strings. */
  predicate Less(a: JsString, b: JsString) {
    if b == [] then false
    else if a == [] then true
    else a[0] < b[0] || (a[0] == b[0] && Less(a[1..], b[1..]))
  }

  lemma {:induction false} LessIrreflexive(a: JsString)
    ensures !Less(a, a)
  {
    if a != [] {
      LessIrreflexive(a[1..]);
    }
  }

  lemma {:induction false} LessTransitive(a: JsString, b: JsString, c: JsString)
    requires Less(a, b) && Less(b, c)
    ensures Less(a, c)
  {
    if a != [] && a[0] == b[0] == c[0] {
      LessTransitive(a[1..], b[1..], c[1..]);
    }
  }

  lemma {:induction false} LessTotal(a: JsString, b: JsString)
    ensures a == b || Less(a, b) || Less(b, a)
  {
    if a != [] && b != [] && a[0] == b[0] {
      LessTotal(a[1..], b[1..]);
      assert a == [a[0]] + a[1..] && b == [b[0]] + b[1..];
    }
  }

  /** A common prefix does not affect the comparison. */
  lemma {:induction false} LessAfterPrefix(p: JsString, a: JsString, b: JsString)
    ensures Less(p + a, p + b) <==> Less(a, b)
  {
    if p == [] {
      assert p + a == a && p + b == b;
    } else {
      assert (p + a)[1..] == p[1..] + a && (p + b)[1..] == p[1..] + b;
      LessAfterPrefix(p[1..], a, b);
    }
  }

  /** Between strings of one length the comparison is settled before any suffix. */
  lemma {:induction false} LessBeforeSuffix(a: JsString, b: JsString, x: JsString, y: JsString)
    requires |a| == |b| && Less(a, b)
    ensures Less(a + x, b + y)
  {
    assert (a + x)[1..] == a[1..] + x && (b + y)[1..] == b[1..] + y;
    if a[0] == b[0] {
      LessBeforeSuffix(a[1..], b[1..], x, y);
    }
  }

  // ---- Sorted name lists ----

  ghost predicate StrictlySorted(s: seq<JsString>) {
    forall i, j :: 0 <= i < j < |s| ==> Less(s[i], s[j])
  }

  /** A strictly sorted list is determined by its elements. */
  lemma {:induction false} SortedUnique(s: seq<JsString>, t: seq<JsString>)
    requires StrictlySorted(s) && StrictlySorted(t)
    requires forall x :: x in s <==> x in t
    ensures s == t
  {
    if s == [] {
      assert forall i :: 0 <= i < |t| ==> t[i] in t;
    } else {
      assert s[0] in t && t != [];
      assert t[0] in s;
      assert s[0] == t[0] by {
        var i :| 0 <= i < |t| && t[i] == s[0];
        var j :| 0 <= j < |s| && s[j] == t[0];
        if i > 0 && j > 0 {
          LessTransitive(s[0], s[j], s[0]);
          LessIrreflexive(s[0]);
        }
      }
      forall x
        ensures x in s[1..] <==> x in t[1..]
      {
        LessIrreflexive(s[0]);
        assert x in s <==> x == s[0] || x in s[1..];
        assert x in t <==> x == t[0] || x in t[1..];
      }
      SortedUnique(s[1..], t[1..]);
      assert s == [s[0]] + s[1..] && t == [t[0]] + t[1..];
    }
  }

  predicate Distinct<T(==)>(s: seq<T>) {
    forall i, j :: 0 <= i < j < |s| ==> s[i] != s[j]
  }

  /** The place of `x` in a sorted list. */
  function Insert(x: JsString, s: seq<JsString>): (r: seq<JsString>)
    requires StrictlySorted(s) && x !in s
    ensures StrictlySorted(r) && |r| == |s| + 1
    ensures forall y :: y in r <==> y == x || y in s
  {
    if s == [] then [x]
    else if Less(x, s[0]) then
      assert forall j :: 0 <= j < |s| ==> Less(x, s[j]) by {
        forall j | 0 < j < |s| ensures Less(x, s[j]) { LessTransitive(x, s[0], s[j]); }
      }
      [x] + s
    else
      assert Less(s[0], x) by { LessTotal(x, s[0]); assert s[0] in s; }
      assert forall y :: y in s <==> y == s[0] || y in s[1..];
      var rest := Insert(x, s[1..]);
      assert forall j :: 0 <= j < |rest| ==> Less(s[0], rest[j]) by {
        forall j | 0 <= j < |rest| ensures Less(s[0], rest[j]) { assert rest[j] in rest; }
      }
      [s[0]] + rest
  }

  /** `names.sort()`, on the pairwise distinct names a directory holds. */
  function Sort(names: seq<JsString>): (r: seq<JsString>)
    requires Distinct(names)
    ensures StrictlySorted(r) && |r| == |names|
    ensures forall y :: y in r <==> y in names
  {
    if names == [] then []
    else
      assert forall y :: y in names <==> y == names[0] || y in names[1..];
      Insert(names[0], Sort(names[1..]))
  }
}
