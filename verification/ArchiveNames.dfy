/** The names `rotateLog` gives to archives, and how they sort. */
module ArchiveNames {
  import opened JsStrings

  datatype Time = Time(year: nat, month: nat, day: nat, hour: nat, minute: nat, second: nat)

  /** A UTC time to the second, in a year of four digits. */
  type Stamp = s: Time |
    1000 <= s.year < 10000 && s.month < 100 && s.day < 100 && s.hour < 100 && s.minute < 100 && s.second < 100
    witness Time(1970, 1, 1, 0, 0, 0)

  predicate Before(s: Stamp, t: Stamp) {
    s.year < t.year || (s.year == t.year &&
    (s.month < t.month || (s.month == t.month &&
    (s.day < t.day || (s.day == t.day &&
    (s.hour < t.hour || (s.hour == t.hour &&
    (s.minute < t.minute || (s.minute == t.minute && s.second < t.second)))))))))
  }

  // ---- Decimal text ----

  /** `String(n)`. */
  function Decimal(n: nat): (r: JsString)
    ensures r != [] && forall u <- r :: 48 <= u < 58
  {
    if n < 10 then [48 + n] else Decimal(n / 10) + [48 + n % 10]
  }

  /** `String(n).padStart(2, "0")`. */
  function Pad2(n: nat): JsString {
    if |Decimal(n)| < 2 then Units("0") + Decimal(n) else Decimal(n)
  }

  function Value(d: seq<int>): int {
    if d == [] then 0 else 10 * Value(d[..|d| - 1]) + (d[|d| - 1] - 48)
  }

  lemma {:induction false} DecimalValue(n: nat)
    ensures Value(Decimal(n)) == n
  {
    if n >= 10 {
      DecimalValue(n / 10);
      assert Decimal(n)[..|Decimal(n)| - 1] == Decimal(n / 10);
    }
  }

  /** Where the leading fields have one length, they decide first. */
  lemma FieldOrder(x: JsString, y: JsString, u: JsString, v: JsString)
    requires |x| == |y|
    ensures Less(x + u, y + v) <==> Less(x, y) || (x == y && Less(u, v))
  {
    if x == y {
      LessAfterPrefix(x, u, v);
      LessIrreflexive(x);
    } else if Less(x, y) {
      LessBeforeSuffix(x, y, u, v);
    } else {
      LessTotal(x, y);
      LessBeforeSuffix(y, x, v, u);
      if Less(x + u, y + v) {
        LessTransitive(x + u, y + v, x + u);
        LessIrreflexive(x + u);
      }
    }
  }

  /** Decimals of one length sort as the numbers they write. */
  lemma {:induction false} DecimalOrder(m: nat, n: nat)
    requires |Decimal(m)| == |Decimal(n)|
    ensures Less(Decimal(m), Decimal(n)) <==> m < n
  {
    if m < 10 {
      assert n < 10;
    } else {
      DecimalOrder(m / 10, n / 10);
      FieldOrder(Decimal(m / 10), Decimal(n / 10), [48 + m % 10], [48 + n % 10]);
      DecimalValue(m / 10);
      DecimalValue(n / 10);
    }
  }

  lemma Pad2Order(m: nat, n: nat)
    requires m < 100 && n < 100
    ensures |Pad2(m)| == |Pad2(n)| == 2
    ensures Less(Pad2(m), Pad2(n)) <==> m < n
    ensures Pad2(m) == Pad2(n) <==> m == n
  {
    assert Units("0") == [48];
    assert m >= 10 ==> Decimal(m / 10) == [48 + m / 10];
    assert n >= 10 ==> Decimal(n / 10) == [48 + n / 10];
    assert Pad2(m) == [48 + m / 10, 48 + m % 10] && Pad2(n) == [48 + n / 10, 48 + n % 10];
    var x, y := Pad2(m), Pad2(n);
    assert x[1..] == [x[1]] && y[1..] == [y[1]];
    assert Less(x[1..], y[1..]) <==> x[1] < y[1];
  }

  lemma YearOrder(m: nat, n: nat)
    requires 1000 <= m < 10000 && 1000 <= n < 10000
    ensures |Decimal(m)| == |Decimal(n)| == 4
    ensures Less(Decimal(m), Decimal(n)) <==> m < n
    ensures Decimal(m) == Decimal(n) <==> m == n
  {
    assert |Decimal(m)| == 1 + |Decimal(m / 10)| == 2 + |Decimal(m / 10 / 10)| == 3 + |Decimal(m / 10 / 10 / 10)|;
    assert |Decimal(n)| == 1 + |Decimal(n / 10)| == 2 + |Decimal(n / 10 / 10)| == 3 + |Decimal(n / 10 / 10 / 10)|;
    DecimalOrder(m, n);
    DecimalValue(m);
    DecimalValue(n);
  }

  // ---- Archive names ----

  /** `YYYY-MM-DD_HH-mm-ss` from its last field outwards. */
  function StampText(s: Stamp): JsString {
    Decimal(s.year) + (Units("-") + (Pad2(s.month) + (Units("-") + (Pad2(s.day) +
    (Units("_") + (Pad2(s.hour) + (Units("-") + (Pad2(s.minute) + (Units("-") + Pad2(s.second))))))))))
  }

  datatype ArchiveId = ArchiveId(stamp: Stamp, suffix: nat)

  function Tail(k: nat): JsString {
    (if k == 0 then [] else Units("_") + Decimal(k)) + Units(".log")
  }

  function Name(id: ArchiveId): JsString {
    Units("debug_") + (StampText(id.stamp) + Tail(id.suffix))
  }

  lemma {:induction false} StampOrder(s: Stamp, t: Stamp)
    ensures |StampText(s)| == |StampText(t)|
    ensures Less(StampText(s), StampText(t)) <==> Before(s, t)
    ensures StampText(s) == StampText(t) <==> s == t
  {
    YearOrder(s.year, t.year);
    Pad2Order(s.month, t.month);
    Pad2Order(s.day, t.day);
    Pad2Order(s.hour, t.hour);
    Pad2Order(s.minute, t.minute);
    Pad2Order(s.second, t.second);
    var dash, under := Units("-"), Units("_");
    var s5, t5 := Pad2(s.second), Pad2(t.second);
    var s4, t4 := Pad2(s.minute) + (dash + s5), Pad2(t.minute) + (dash + t5);
    var s3, t3 := Pad2(s.hour) + (dash + s4), Pad2(t.hour) + (dash + t4);
    var s2, t2 := Pad2(s.day) + (under + s3), Pad2(t.day) + (under + t3);
    var s1, t1 := Pad2(s.month) + (dash + s2), Pad2(t.month) + (dash + t2);
    Field(Pad2(s.minute), Pad2(t.minute), dash, s5, t5);
    Field(Pad2(s.hour), Pad2(t.hour), dash, s4, t4);
    Field(Pad2(s.day), Pad2(t.day), under, s3, t3);
    Field(Pad2(s.month), Pad2(t.month), dash, s2, t2);
    Field(Decimal(s.year), Decimal(t.year), dash, s1, t1);
  }

  lemma Field(x: JsString, y: JsString, sep: JsString, u: JsString, v: JsString)
    requires |x| == |y| && |u| == |v|
    ensures Less(x + (sep + u), y + (sep + v)) <==> Less(x, y) || (x == y && Less(u, v))
    ensures x + (sep + u) == y + (sep + v) <==> x == y && u == v
    ensures |x + (sep + u)| == |y + (sep + v)|
  {
    FieldOrder(x, y, sep + u, sep + v);
    LessAfterPrefix(sep, u, v);
    if x + (sep + u) == y + (sep + v) {
      assert x == (x + (sep + u))[..|x|] == (y + (sep + v))[..|y|] == y;
      assert u == (x + (sep + u))[|x| + |sep|..] == (y + (sep + v))[|y| + |sep|..] == v;
    }
  }

  const LOG_EXTENSION: JsString := [46, 108, 111, 103]

  lemma TailDigits(k: nat)
    requires k <= 9
    ensures Tail(k) == if k == 0 then LOG_EXTENSION else [95, 48 + k] + LOG_EXTENSION
  {
    assert Units("_") == [95] && Units(".log") == LOG_EXTENSION;
  }

  lemma TailOrder(j: nat, k: nat)
    requires j <= 9 && k <= 9
    ensures Less(Tail(j), Tail(k)) <==> j < k
  {
    TailDigits(j);
    TailDigits(k);
    hide Tail;
    if j > 0 && k > 0 {
      FieldOrder([95, 48 + j], [95, 48 + k], LOG_EXTENSION, LOG_EXTENSION);
      LessAfterPrefix([95], [48 + j], [48 + k]);
      assert [95, 48 + j] == [95] + [48 + j] && [95, 48 + k] == [95] + [48 + k];
      LessIrreflexive(LOG_EXTENSION);
    } else if j == 0 && k == 0 {
      LessIrreflexive(LOG_EXTENSION);
    }
  }

  predicate IdBefore(a: ArchiveId, b: ArchiveId) {
    Before(a.stamp, b.stamp) || (a.stamp == b.stamp && a.suffix < b.suffix)
  }

  /** Up to `_9`, archive names sort in the order rotations gave them out. */
  lemma NameOrder(a: ArchiveId, b: ArchiveId)
    requires a.suffix <= 9 && b.suffix <= 9
    ensures Less(Name(a), Name(b)) <==> IdBefore(a, b)
  {
    var prefix := Units("debug_");
    LessAfterPrefix(prefix, StampText(a.stamp) + Tail(a.suffix), StampText(b.stamp) + Tail(b.suffix));
    StampOrder(a.stamp, b.stamp);
    FieldOrder(StampText(a.stamp), StampText(b.stamp), Tail(a.suffix), Tail(b.suffix));
    TailOrder(a.suffix, b.suffix);
  }

  /** `_10` sorts before `_2`: within one second, suffixes keep their order
      exactly as long as they have one digit. */
  lemma SuffixesSortUpToNine(s: Stamp, n: nat)
    ensures (forall j, k :: 0 <= j < k <= n ==> Less(Name(ArchiveId(s, j)), Name(ArchiveId(s, k)))) <==> n <= 9
  {
    if n <= 9 {
      forall j, k | 0 <= j < k <= n ensures Less(Name(ArchiveId(s, j)), Name(ArchiveId(s, k))) {
        NameOrder(ArchiveId(s, j), ArchiveId(s, k));
      }
    } else {
      var x, y := Name(ArchiveId(s, 2)), Name(ArchiveId(s, 10));
      LessAfterPrefix(Units("debug_"), StampText(s) + Tail(2), StampText(s) + Tail(10));
      LessAfterPrefix(StampText(s), Tail(2), Tail(10));
      assert Decimal(10) == Decimal(1) + [48];
      assert Tail(2)[1..][0] == 50 && Tail(10)[1..][0] == 49;
      assert !Less(x, y);
    }
  }

  lemma Cancel(x: JsString, y: JsString, u: JsString, v: JsString)
    requires |x| == |y| && x + u == y + v
    ensures x == y && u == v
  {
    assert x == (x + u)[..|x|] == (y + v)[..|y|] == y;
    assert u == (x + u)[|x|..] == (y + v)[|y|..] == v;
  }

  lemma TailInjective(j: nat, k: nat)
    requires Tail(j) == Tail(k)
    ensures j == k
  {
    var x, y := Tail(j), Tail(k);
    assert Units("_")[0] == 95 && Units(".log")[0] == 46 && |Units(".log")| == 4;
    assert j == 0 <==> x[0] == 46;
    assert k == 0 <==> y[0] == 46;
    if j > 0 {
      assert Decimal(j) == x[1..|x| - 4];
      assert Decimal(k) == y[1..|y| - 4];
      DecimalValue(j);
      DecimalValue(k);
    }
  }

  /** Different rotations never get one name, whatever the suffix. */
  lemma NameInjective(a: ArchiveId, b: ArchiveId)
    requires Name(a) == Name(b)
    ensures a == b
  {
    StampOrder(a.stamp, b.stamp);
    Cancel(Units("debug_"), Units("debug_"),
           StampText(a.stamp) + Tail(a.suffix), StampText(b.stamp) + Tail(b.suffix));
    Cancel(StampText(a.stamp), StampText(b.stamp), Tail(a.suffix), Tail(b.suffix));
    TailInjective(a.suffix, b.suffix);
  }

  // ---- Reading a name back ----

  /** The number that the units from `start` to `end` write. */
  function Read(name: JsString, start: nat, end: nat): int
    requires start <= end <= |name|
  {
    Value(name[start..end])
  }

  lemma PadReads(n: nat)
    requires n < 100
    ensures |Pad2(n)| == 2 && Value(Pad2(n)) == n
  {
    Pad2Order(n, n);
    DecimalValue(n);
    if n < 10 {
      assert Pad2(n) == [48, 48 + n];
      assert Pad2(n)[..1] == [48] && [48][..0] == [];
    }
  }

  /** Six fields and the separators between them. */
  function Joined(y: JsString, mo: JsString, d: JsString, h: JsString, mi: JsString, se: JsString,
                  dash: JsString, under: JsString): JsString
  {
    y + (dash + (mo + (dash + (d + (under + (h + (dash + (mi + (dash + se)))))))))
  }

  lemma JoinedFields(y: JsString, mo: JsString, d: JsString, h: JsString, mi: JsString, se: JsString,
                     dash: JsString, under: JsString)
    requires |y| == 4 && |mo| == |d| == |h| == |mi| == |se| == 2 && |dash| == |under| == 1
    ensures var t := Joined(y, mo, d, h, mi, se, dash, under);
            && |t| == 19 && t[4] == t[7] == t[13] == t[16] == dash[0] && t[10] == under[0]
            && t[0..4] == y && t[5..7] == mo && t[8..10] == d && t[11..13] == h && t[14..16] == mi && t[17..19] == se
  {
    var t := Joined(y, mo, d, h, mi, se, dash, under);
    var minutes := mi + (dash + se);
    var hours := h + (dash + minutes);
    var days := d + (under + hours);
    var months := mo + (dash + days);
    assert t[0..] == y + (dash + months);
    hide Joined;
    FirstField(t, 0, y, dash, months);
    FirstField(t, 5, mo, dash, days);
    FirstField(t, 8, d, under, hours);
    FirstField(t, 11, h, dash, minutes);
    FirstField(t, 14, mi, dash, se);
    assert t[17..19] == t[17..];
  }

  lemma StampReads(s: Stamp)
    ensures var t := StampText(s);
            && |t| == 19 && t[4] == 45 && t[7] == 45 && t[10] == 95 && t[13] == 45 && t[16] == 45
            && Value(t[0..4]) == s.year && Value(t[5..7]) == s.month && Value(t[8..10]) == s.day
            && Value(t[11..13]) == s.hour && Value(t[14..16]) == s.minute && Value(t[17..19]) == s.second
  {
    hide Decimal, Pad2, Value;
    YearOrder(s.year, s.year);
    DecimalValue(s.year);
    PadReads(s.month);
    PadReads(s.day);
    PadReads(s.hour);
    PadReads(s.minute);
    PadReads(s.second);
    var y, mo, d, h, mi, se :=
      Decimal(s.year), Pad2(s.month), Pad2(s.day), Pad2(s.hour), Pad2(s.minute), Pad2(s.second);
    assert Units("-") == [45] && Units("_") == [95];
    assert StampText(s) == Joined(y, mo, d, h, mi, se, Units("-"), Units("_"));
    JoinedFields(y, mo, d, h, mi, se, Units("-"), Units("_"));
    hide StampText, Joined;
  }

  lemma FirstField(t: JsString, start: nat, field: JsString, sep: JsString, rest: JsString)
    requires start <= |t| && t[start..] == field + (sep + rest) && |sep| == 1
    ensures var end := start + |field|;
            && |t| == end + 1 + |rest| && t[start..end] == field && t[end] == sep[0] && t[end + 1..] == rest
  {
    var end := start + |field|;
    assert t[start..end] == t[start..][..|field|];
    assert t[end] == t[start..][|field|];
    assert t[end + 1..] == t[start..][|field| + 1..];
  }

  lemma Inside(before: JsString, t: JsString, tail: JsString, a: nat, b: nat)
    requires a <= b <= |t|
    ensures (before + t + tail)[|before| + a..|before| + b] == t[a..b]
    ensures a < |t| ==> (before + t + tail)[|before| + a] == t[a]
  {}

  lemma Ends(before: JsString, t: JsString, tail: JsString)
    ensures var n := before + t + tail; n[..|before|] == before && n[|before| + |t|..] == tail
  {}

  lemma TailReads(k: nat)
    ensures var tail := Tail(k);
            && |tail| >= 4 && tail[|tail| - 4..] == [46, 108, 111, 103]
            && if k == 0 then |tail| == 4 else |tail| > 5 && tail[0] == 95 && Value(tail[1..|tail| - 4]) == k
  {
    hide Decimal, Value;
    DecimalValue(k);
    assert Units(".log") == [46, 108, 111, 103] && Units("_") == [95];
    if k > 0 {
      assert Tail(k)[1..|Tail(k)| - 4] == Decimal(k);
    }
  }

  /** A name is "debug_", the date and time in fields of fixed width between `-` and
      `_`, then "_" and the suffix where it is not 0, and ".log"; each field reads
      back as the number it was made from. */
  lemma NameReadsBack(id: ArchiveId)
    ensures var n := Name(id);
            && |n| >= 29 && n[..6] == [100, 101, 98, 117, 103, 95]
            && n[10] == 45 && n[13] == 45 && n[16] == 95 && n[19] == 45 && n[22] == 45
            && Read(n, 6, 10) == id.stamp.year && Read(n, 11, 13) == id.stamp.month && Read(n, 14, 16) == id.stamp.day
            && Read(n, 17, 19) == id.stamp.hour && Read(n, 20, 22) == id.stamp.minute
            && Read(n, 23, 25) == id.stamp.second
            && n[25..][|n| - 29..] == [46, 108, 111, 103]
            && (if id.suffix == 0 then |n| == 29
                else |n| > 30 && n[25..][0] == 95 && Value(n[25..][1..|n| - 29]) == id.suffix)
  {
    hide StampText, Tail, Value;
    StampReads(id.stamp);
    TailReads(id.suffix);
    var before, t, tail := Units("debug_"), StampText(id.stamp), Tail(id.suffix);
    assert before == [100, 101, 98, 117, 103, 95];
    assert Name(id) == before + t + tail;
    hide Name;
    Ends(before, t, tail);
    Inside(before, t, tail, 0, 4);
    Inside(before, t, tail, 4, 7);
    Inside(before, t, tail, 5, 7);
    Inside(before, t, tail, 7, 10);
    Inside(before, t, tail, 8, 10);
    Inside(before, t, tail, 10, 13);
    Inside(before, t, tail, 11, 13);
    Inside(before, t, tail, 13, 16);
    Inside(before, t, tail, 14, 16);
    Inside(before, t, tail, 16, 19);
    Inside(before, t, tail, 17, 19);
  }
}
