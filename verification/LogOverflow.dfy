/** The eleventh archive of one second, and what it does to the order in which
    history is kept. */
module LogOverflow {
  import opened JsStrings
  import opened ArchiveNames
  import opened LogRotation
  import opened LogHistory

  /** `_10` comes between `_1` and `_2`. */
  lemma TailTen(k: nat)
    requires k <= 9
    ensures Less(Tail(k), Tail(10)) <==> k <= 1
    ensures Less(Tail(10), Tail(k)) <==> k >= 2
  {
    TailDigits(k);
    assert Units("_") == [95] && Units(".log") == LOG_EXTENSION;
    assert Decimal(10) == Decimal(1) + [48] == [49, 48];
    assert Tail(10) == [95, 49, 48] + LOG_EXTENSION;
    hide Tail;
    if k == 0 {
      assert Less(LOG_EXTENSION, [95, 49, 48] + LOG_EXTENSION) && !Less([95, 49, 48] + LOG_EXTENSION, LOG_EXTENSION);
    } else {
      var x, y := [48 + k] + LOG_EXTENSION, [49] + ([48] + LOG_EXTENSION);
      assert [95, 48 + k] + LOG_EXTENSION == [95] + x;
      assert [95, 49, 48] + LOG_EXTENSION == [95] + y;
      LessAfterPrefix([95], x, y);
      LessAfterPrefix([95], y, x);
      LessAfterPrefix([49], LOG_EXTENSION, [48] + LOG_EXTENSION);
      LessAfterPrefix([49], [48] + LOG_EXTENSION, LOG_EXTENSION);
      assert LOG_EXTENSION[0] == 46;
      FieldOrder([48 + k], [49], LOG_EXTENSION, [48] + LOG_EXTENSION);
      FieldOrder([49], [48 + k], [48] + LOG_EXTENSION, LOG_EXTENSION);
    }
  }

  lemma NameTen(a: ArchiveId, s: Stamp)
    requires a.suffix <= 9
    ensures var ten := Name(ArchiveId(s, 10));
            && (Less(Name(a), ten) <==> Before(a.stamp, s) || (a.stamp == s && a.suffix <= 1))
            && (Less(ten, Name(a)) <==> Before(s, a.stamp) || (a.stamp == s && a.suffix >= 2))
  {
    hide Tail, Before, StampText;
    var x, y := StampText(a.stamp), StampText(s);
    LessAfterPrefix(Units("debug_"), x + Tail(a.suffix), y + Tail(10));
    LessAfterPrefix(Units("debug_"), y + Tail(10), x + Tail(a.suffix));
    StampOrder(a.stamp, s);
    StampOrder(s, a.stamp);
    FieldOrder(x, y, Tail(a.suffix), Tail(10));
    FieldOrder(y, x, Tail(10), Tail(a.suffix));
    TailTen(a.suffix);
  }

  /** From the last archive backwards, the suffixes of its second. */
  lemma {:induction false} FromLast(ids: seq<ArchiveId>, now: Stamp, m: nat)
    requires InOrder(ids) && ids != [] && ids[|ids| - 1] == ArchiveId(now, 9) && m <= 9
    ensures m < |ids| && ids[|ids| - 1 - m] == ArchiveId(now, 9 - m)
  {
    if m > 0 {
      FromLast(ids, now, m - 1);
      var q := |ids| - m;
      var p :| 0 <= p < |ids| && ids[p] == ArchiveId(now, 9 - m);
      ClockStays(now);
      assert p < q;
      if p < q - 1 {
        assert IdBefore(ids[p], ids[q - 1]) && IdBefore(ids[q - 1], ids[q]);
        Between(ids[q - 1], now, 9 - m);
        assert false;
      }
    }
  }

  lemma Between(a: ArchiveId, s: Stamp, k: nat)
    ensures !(IdBefore(ArchiveId(s, k), a) && IdBefore(a, ArchiveId(s, k + 1)))
  {}

  /** The directory just before the eleventh archive of `now`. */
  ghost predicate Full(files: Dir, ids: seq<ArchiveId>, now: Stamp) {
    && InOrder(ids) && Lists(Names(ids), files) && LOG_FILE in files
    && (ids != [] ==> !Before(now, ids[|ids| - 1].stamp))
    && Name(ArchiveId(now, 9)) in files
  }

  lemma LastTen(files: Dir, ids: seq<ArchiveId>, now: Stamp)
    requires Full(files, ids, now)
    ensures |ids| >= 10 && forall j :: 0 <= j <= 9 ==> ids[|ids| - 10 + j] == ArchiveId(now, j)
  {
    hide Name, IsArchive;
    var nine := ArchiveId(now, 9);
    NameIsArchive(nine);
    NameListed(ids, nine);
    var p :| 0 <= p < |ids| && ids[p] == nine;
    assert p < |ids| - 1 ==> IdBefore(nine, ids[|ids| - 1]);
    forall j | 0 <= j <= 9 ensures |ids| >= 10 && ids[|ids| - 10 + j] == ArchiveId(now, j) {
      FromLast(ids, now, 9);
      FromLast(ids, now, 9 - j);
    }
  }

  lemma NewIsTen(files: Dir, ids: seq<ArchiveId>, now: Stamp)
    requires Full(files, ids, now)
    ensures NewId(files, now) == ArchiveId(now, 10) && Name(ArchiveId(now, 10)) !in files
  {
    hide Name, IsArchive, Less, Before, IdBefore;
    LastTen(files, ids, now);
    forall j | 0 <= j <= 9 ensures Name(ArchiveId(now, j)) in files {
      assert ids[|ids| - 10 + j] in ids;
      NameListed(ids, ArchiveId(now, j));
    }
    var ten := ArchiveId(now, 10);
    NameIsArchive(ten);
    NameListed(ids, ten);
    assert ten !in ids;
    var r := FreeSuffix(files, {}, now, 0);
    assert r >= 10;
  }

  /** The archives of `files` and the new one, as they sort. */
  function WithTen(ids: seq<ArchiveId>, now: Stamp): seq<JsString>
    requires |ids| >= 8
  {
    var k := |ids| - 8;
    Names(ids)[..k] + [Name(ArchiveId(now, 10))] + Names(ids)[k..]
  }

  lemma TenInPlace(files: Dir, ids: seq<ArchiveId>, now: Stamp, i: nat)
    requires Full(files, ids, now) && |ids| >= 10 && i < |ids|
    ensures var ten := Name(ArchiveId(now, 10));
            if i < |ids| - 8 then Less(Names(ids)[i], ten) else Less(ten, Names(ids)[i])
  {
    hide Name, IsArchive, Less, Before;
    LastTen(files, ids, now);
    NameTen(ids[i], now);
    var n := |ids|;
    if i < n - 10 {
      assert IdBefore(ids[i], ids[n - 10]);
    } else {
      var j := i - (n - 10);
      assert ids[n - 10 + j] == ArchiveId(now, j);
      ClockStays(now);
    }
  }

  lemma WithTenSorted(files: Dir, ids: seq<ArchiveId>, now: Stamp)
    requires Full(files, ids, now) && |ids| >= 10
    ensures StrictlySorted(WithTen(ids, now))
  {
    hide Name, IsArchive, Less, InOrder, Full;
    var names, k := WithTen(ids, now), |ids| - 8;
    Ordered(files, ids, now);
    NamesSorted(ids);
    forall i, j | 0 <= i < j < |names| ensures Less(names[i], names[j]) {
      var a, b := if i <= k then i else i - 1, if j <= k then j else j - 1;
      if i == k {
        TenInPlace(files, ids, now, b);
      } else if j == k {
        TenInPlace(files, ids, now, a);
      } else {
        assert names[i] == Names(ids)[a] && names[j] == Names(ids)[b];
      }
    }
  }

  lemma Ordered(files: Dir, ids: seq<ArchiveId>, now: Stamp)
    requires Full(files, ids, now)
    ensures InOrder(ids) && LOG_FILE in files
  {}

  /** The tenth suffix puts the lines of the live log, the newest there are, before
      those of the last eight archives. */
  lemma TenReorders(files: Dir, ids: seq<ArchiveId>, now: Stamp)
    requires Full(files, ids, now)
    ensures |ids| >= 10
    ensures var moved, names, k := Moved(files, now, {}), Names(ids), |ids| - 8;
            && StrictlySorted(WithTen(ids, now)) && Lists(WithTen(ids, now), moved)
            && (forall n <- names[..k] :: n in files) && (forall n <- names[k..] :: n in files)
            && Retained(moved, WithTen(ids, now)) == Concat(files, names[..k]) + Live(files) + Concat(files, names[k..])
  {
    hide Name, IsArchive, Less, Before, InOrder;
    LastTen(files, ids, now);
    WithTenSorted(files, ids, now);
    NewIsTen(files, ids, now);
    var names, ten := Names(ids), Name(ArchiveId(now, 10));
    NameIsArchive(ArchiveId(now, 10));
    Inserted(files, names[..|ids| - 8], names[|ids| - 8..], ten);
    assert names == names[..|ids| - 8] + names[|ids| - 8..];
  }

  lemma Inserted(files: Dir, front: seq<JsString>, back: seq<JsString>, name: JsString)
    requires Lists(front + back, files) && LOG_FILE in files && name !in files && IsArchive(name)
    ensures var moved := (files - {LOG_FILE})[name := files[LOG_FILE]];
            && Lists(front + [name] + back, moved)
            && (forall n <- front :: n in files) && (forall n <- back :: n in files)
            && Retained(moved, front + [name] + back) == Concat(files, front) + Live(files) + Concat(files, back)
  {
    hide IsArchive;
    IsNotLog();
    var moved := (files - {LOG_FILE})[name := files[LOG_FILE]];
    assert forall n <- front :: n in front + back;
    assert forall n <- back :: n in front + back;
    assert Lists(front + [name] + back, moved) by {
      assert forall n :: n in front + [name] + back <==> n in front + back || n == name;
    }
    ConcatSplit(moved, front + [name], back);
    ConcatSame(moved, files, back);
    ConcatSame(moved, files, front);
    assert (front + [name])[..|front|] == front;
    assert Live(moved) == [];
  }

  /** A new archive sorts after every other if and only if `_9` of its second is
      still free. */
  lemma NewestSortsLastExactly(files: Dir, ids: seq<ArchiveId>, now: Stamp)
    requires InOrder(ids) && Lists(Names(ids), files) && LOG_FILE in files
    requires ids != [] ==> !Before(now, ids[|ids| - 1].stamp)
    ensures (forall name <- Names(ids) :: Less(name, Name(NewId(files, now)))) <==>
            Name(ArchiveId(now, 9)) !in files
  {
    hide Name, IsArchive, Less, Before, InOrder;
    if Name(ArchiveId(now, 9)) in files {
      LastTen(files, ids, now);
      NewIsTen(files, ids, now);
      var i := |ids| - 1;
      TenInPlace(files, ids, now, i);
      assert Names(ids)[i] in Names(ids);
      Antisymmetric(Names(ids)[i], Name(ArchiveId(now, 10)));
    } else {
      RenameOrder(files, ids, now);
      NamesSorted(ids + [NewId(files, now)]);
      var all := Names(ids + [NewId(files, now)]);
      forall name <- Names(ids) ensures Less(name, Name(NewId(files, now))) {
        var i :| 0 <= i < |ids| && Names(ids)[i] == name;
        assert all[i] == name && all[|ids|] == Name(NewId(files, now));
      }
    }
  }

  lemma Antisymmetric(a: JsString, b: JsString)
    ensures !(Less(a, b) && Less(b, a))
  {
    if Less(a, b) && Less(b, a) {
      LessTransitive(a, b, a);
      LessIrreflexive(a);
    }
  }

  lemma KeptTen(names: seq<JsString>, k: nat, ten: JsString)
    requires 1 <= k <= |names| == k + 8
    ensures var all := names[..k] + [ten] + names[k..]; all[Excess(all)..] == [names[k - 1], ten] + names[k..]
  {}

  lemma TwoAndRest(files: Dir, kept: Dir, a: JsString, b: JsString, back: seq<JsString>)
    requires a in kept && b in kept && forall n <- back :: n in files && n in kept && kept[n] == files[n]
    ensures forall n <- [a, b] + back :: n in kept
    ensures Concat(kept, [a, b] + back) == kept[a] + kept[b] + Concat(files, back)
  {
    ConcatSplit(kept, [a, b], back);
    ConcatSame(kept, files, back);
    assert [a, b][..1] == [a] && [a][..0] == [];
    assert Concat(kept, [a]) == kept[a];
  }

  lemma SortedTail(names: seq<JsString>, n: nat)
    requires StrictlySorted(names) && n <= |names|
    ensures StrictlySorted(names[n..])
  {}

  /** What the prune that follows leaves. */
  function Last(ids: seq<ArchiveId>, now: Stamp): seq<JsString>
    requires |ids| >= 10
  {
    [Name(ArchiveId(now, 1)), Name(ArchiveId(now, 10))] + Names(ids)[|ids| - 8..]
  }

  lemma PrunedToLast(files: Dir, ids: seq<ArchiveId>, now: Stamp)
    requires Full(files, ids, now)
    ensures |ids| >= 10 && Names(ids)[|ids| - 9] == Name(ArchiveId(now, 1))
    ensures var moved := Moved(files, now, {});
            StrictlySorted(Last(ids, now)) && Lists(Last(ids, now), moved - Doomed(moved))
  {
    hide Name, IsArchive, Less, Full, Doomed, Moved, StrictlySorted, Lists, Retained;
    Ordered(files, ids, now);
    TenReorders(files, ids, now);
    LastTen(files, ids, now);
    assert ids[|ids| - 10 + 1] == ArchiveId(now, 1);
    KeptTen(Names(ids), |ids| - 8, Name(ArchiveId(now, 10)));
    PruneContents(Moved(files, now, {}), WithTen(ids, now));
    SortedTail(WithTen(ids, now), Excess(WithTen(ids, now)));
  }

  lemma RotatedAndPruned(files: Dir, now: Stamp, f: Faults)
    requires LOG_FILE in files && f.hidden == {} && f.stuck == {} && !f.renameFails && !f.readdirFails
    ensures var moved := Moved(files, now, {}); Rotated(files, now, f) == moved - Doomed(moved)
  {
    hide Doomed, Name;
    var moved := Moved(files, now, {});
    assert Doomed(moved) - f.stuck == Doomed(moved);
  }

  /** Every archive a rotation keeps has the lines it had, and the new one those of
      the live log. */
  lemma LinesStay(files: Dir, now: Stamp, gone: set<JsString>, n: JsString)
    requires LOG_FILE in files && n in Moved(files, now, {}) - gone
    ensures (Moved(files, now, {}) - gone)[n] ==
            if n == Name(NewId(files, now)) then files[LOG_FILE] else if n in files then files[n] else []
  {
    hide Name;
  }

  /** With the prune that follows, ten archives of that second are left, and the
      newest of them sorts second. */
  lemma OverflowKeeps(files: Dir, ids: seq<ArchiveId>, now: Stamp, f: Faults, listing: seq<JsString>)
    requires Full(files, ids, now) && f.hidden == {} && f.stuck == {} && !f.renameFails && !f.readdirFails
    requires Distinct(listing) && Lists(listing, Rotated(files, now, f))
    ensures |ids| >= 10 && Sort(listing) == Last(ids, now)
    ensures var kept, oldest, back := Rotated(files, now, f), Name(ArchiveId(now, 1)), Names(ids)[|ids| - 8..];
            && oldest in files && (forall n <- back :: n in files) && (forall n <- Sort(listing) :: n in kept)
            && Concat(kept, Sort(listing)) == files[oldest] + Live(files) + Concat(files, back)
            && Live(kept) == []
  {
    hide Name, IsArchive, Less, Before, InOrder, Doomed, Sort, Concat, Moved, Rotated;
    PrunedToLast(files, ids, now);
    RotatedAndPruned(files, now, f);
    SortedUnique(Sort(listing), Last(ids, now));
    KeptLines(files, ids, now, Doomed(Moved(files, now, {})));
  }

  lemma KeptLines(files: Dir, ids: seq<ArchiveId>, now: Stamp, gone: set<JsString>)
    requires Full(files, ids, now) && |ids| >= 10 && Names(ids)[|ids| - 9] == Name(ArchiveId(now, 1))
    requires Lists(Last(ids, now), Moved(files, now, {}) - gone)
    ensures var kept, oldest, back := Moved(files, now, {}) - gone, Name(ArchiveId(now, 1)), Names(ids)[|ids| - 8..];
            && oldest in files && (forall n <- back :: n in files) && (forall n <- Last(ids, now) :: n in kept)
            && Concat(kept, Last(ids, now)) == files[oldest] + Live(files) + Concat(files, back)
            && Live(kept) == []
  {
    hide Name, IsArchive, Less, Before, InOrder, Concat;
    var kept, oldest, ten, back :=
      Moved(files, now, {}) - gone, Name(ArchiveId(now, 1)), Name(ArchiveId(now, 10)), Names(ids)[|ids| - 8..];
    NewIsTen(files, ids, now);
    NameIsArchive(ArchiveId(now, 10));
    assert oldest in Names(ids) && forall n <- back :: n in Names(ids);
    assert oldest in Last(ids, now) && ten in Last(ids, now) && forall n <- back :: n in Last(ids, now);
    LinesStay(files, now, gone, oldest);
    LinesStay(files, now, gone, ten);
    forall n <- back ensures n in kept && kept[n] == files[n] {
      LinesStay(files, now, gone, n);
    }
    TwoAndRest(files, kept, oldest, ten, back);
  }
}
