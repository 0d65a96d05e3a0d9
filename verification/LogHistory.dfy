/** What history survives a run of log writes, and how much disk it takes. */
module LogHistory {
  import opened JsStrings
  import opened ArchiveNames
  import opened LogRotation

  datatype Entry = Entry(line: Line, now: Stamp, faults: Faults)

  /** The directory, the lines appended so far, the last write's time and the
      number of archives made. */
  datatype World = World(files: Dir, history: seq<Line>, clock: Stamp, rotations: nat)

  function Next(w: World, e: Entry): World {
    World(
      Written(w.files, e.line, e.now, e.faults),
      if e.faults.dirMissing || e.faults.appendFails then w.history else w.history + [e.line],
      e.now,
      w.rotations + if Rotates(w.files, e.faults) && !e.faults.renameFails then 1 else 0)
  }

  /** One process, a clock that does not run back, archives that can be stat'ed
      and unlinked, and fewer than ten archives of the second in which a rotation
      happens. Rename, readdir, stat and append may fail. */
  ghost predicate Orderly(w: World, e: Entry) {
    && !Before(e.now, w.clock)
    && e.faults.hidden == {} && e.faults.stuck == {}
    && (Rotates(w.files, e.faults) ==> Name(ArchiveId(e.now, 9)) !in w.files)
  }

  function After(w: World, es: seq<Entry>): World
    decreases |es|
  {
    if es == [] then w else After(Next(w, es[0]), es[1..])
  }

  ghost predicate OrderlyRun(w: World, es: seq<Entry>)
    decreases |es|
  {
    es == [] || (Orderly(w, es[0]) && OrderlyRun(Next(w, es[0]), es[1..]))
  }

  /** The contents of the named files, one after another. */
  function Concat(files: Dir, names: seq<JsString>): seq<Line>
    requires forall n <- names :: n in files
  {
    if names == [] then []
    else
      assert forall n <- names[..|names| - 1] :: n in names;
      Concat(files, names[..|names| - 1]) + files[names[|names| - 1]]
  }

  lemma {:induction false} ConcatSame(a: Dir, b: Dir, names: seq<JsString>)
    requires forall n <- names :: n in a && n in b && a[n] == b[n]
    ensures Concat(a, names) == Concat(b, names)
  {
    if names != [] {
      assert forall n <- names[..|names| - 1] :: n in names;
      ConcatSame(a, b, names[..|names| - 1]);
    }
  }

  lemma {:induction false} ConcatSplit(files: Dir, x: seq<JsString>, y: seq<JsString>)
    requires forall n <- x + y :: n in files
    ensures (forall n <- x :: n in files) && (forall n <- y :: n in files)
    ensures Concat(files, x + y) == Concat(files, x) + Concat(files, y)
  {
    assert forall n <- x :: n in x + y;
    assert forall n <- y :: n in x + y;
    if y == [] {
      assert x + y == x;
    } else {
      var m := |y| - 1;
      assert (x + y)[..|x + y| - 1] == x + y[..m];
      assert forall n <- x + y[..m] :: n in x + y;
      ConcatSplit(files, x, y[..m]);
    }
  }

  // ---- The invariant ----

  function Names(ids: seq<ArchiveId>): (r: seq<JsString>)
    ensures |r| == |ids| && forall i :: 0 <= i < |ids| ==> r[i] == Name(ids[i])
  {
    seq(|ids|, (i: nat) requires i < |ids| => Name(ids[i]))
  }

  /** In the order they were made, and the last second's without a gap. */
  ghost predicate InOrder(ids: seq<ArchiveId>) {
    && (forall i :: 0 <= i < |ids| ==> ids[i].suffix <= 9)
    && (forall i, j :: 0 <= i < j < |ids| ==> IdBefore(ids[i], ids[j]))
    && (ids != [] ==> var last := ids[|ids| - 1];
        forall k :: 0 <= k <= last.suffix ==> ArchiveId(last.stamp, k) in ids)
  }

  /** The archives' lines, then the live log's. */
  function Retained(files: Dir, names: seq<JsString>): seq<Line>
    requires forall n <- names :: n in files
  {
    Concat(files, names) + Live(files)
  }

  predicate IsSuffix(s: seq<Line>, t: seq<Line>) { |s| <= |t| && t[|t| - |s|..] == s }

  /** `ids` are the archives of `w`, oldest first. */
  ghost predicate Inv(w: World, ids: seq<ArchiveId>) {
    && InOrder(ids) && Lists(Names(ids), w.files)
    && (ids != [] ==> !Before(w.clock, ids[|ids| - 1].stamp))
    && |ids| <= w.rotations
    && IsSuffix(Retained(w.files, Names(ids)), w.history)
    && (w.rotations <= MAX_LOG_BACKUPS ==> Retained(w.files, Names(ids)) == w.history)
  }

  lemma NameIsArchive(id: ArchiveId)
    ensures IsArchive(Name(id)) && Name(id) != LOG_FILE
  {
    hide StampText;
    var suffix := if id.suffix == 0 then [] else Units("_") + Decimal(id.suffix);
    var front := StampText(id.stamp) + suffix;
    assert Name(id) == Units("debug_") + front + Units(".log");
    StampGlyphs(id.stamp);
    assert Units("_") == [95];
    Wrapped(front);
    IsNotLog();
  }

  lemma Wrapped(front: JsString)
    requires forall u <- front :: 45 <= u <= 95
    ensures IsArchive(Units("debug_") + front + Units(".log"))
  {
    var before, after := Units("debug_"), Units(".log");
    var n := before + front + after;
    assert |before| == 6 && |after| == 4;
    assert n[..6] == before && n[|n| - 4..] == after && n[6..|n| - 4] == front;
  }

  lemma StampGlyphs(s: Stamp)
    ensures forall u <- StampText(s) :: 45 <= u <= 95
  {
    hide Decimal, Pad2;
    assert Units("-") == [45] && Units("_") == [95];
    PadGlyphs(s.month);
    PadGlyphs(s.day);
    PadGlyphs(s.hour);
    PadGlyphs(s.minute);
    PadGlyphs(s.second);
  }

  lemma PadGlyphs(n: nat)
    ensures forall u <- Pad2(n) :: 48 <= u < 58
  {
    hide Decimal;
    assert Units("0") == [48];
  }

  lemma NamesSorted(ids: seq<ArchiveId>)
    requires InOrder(ids)
    ensures StrictlySorted(Names(ids))
  {
    forall i, j | 0 <= i < j < |ids| ensures Less(Names(ids)[i], Names(ids)[j]) {
      NameOrder(ids[i], ids[j]);
    }
  }

  lemma NameListed(ids: seq<ArchiveId>, id: ArchiveId)
    ensures Name(id) in Names(ids) <==> id in ids
  {
    if Name(id) in Names(ids) {
      var i :| 0 <= i < |ids| && Names(ids)[i] == Name(id);
      NameInjective(id, ids[i]);
    }
    if id in ids {
      var i :| 0 <= i < |ids| && ids[i] == id;
      assert Names(ids)[i] == Name(id);
    }
  }

  // ---- The three parts of a write ----

  function NewId(files: Dir, now: Stamp): ArchiveId { ArchiveId(now, FreeSuffix(files, {}, now, 0)) }

  /** A rotation's archive is newer than every other. */
  lemma RenameOrder(files: Dir, ids: seq<ArchiveId>, now: Stamp)
    requires InOrder(ids) && Lists(Names(ids), files)
    requires ids != [] ==> !Before(now, ids[|ids| - 1].stamp)
    requires Name(ArchiveId(now, 9)) !in files
    ensures InOrder(ids + [NewId(files, now)])
  {
    hide Name, IsArchive, Less;
    var id := NewId(files, now);
    assert id.suffix <= 9;
    NewestComesLast(files, ids, now);
    forall k | 0 <= k < id.suffix ensures ArchiveId(now, k) in ids {
      NameIsArchive(ArchiveId(now, k));
      NameListed(ids, ArchiveId(now, k));
    }
  }

  /** A rename to a fresh name keeps every line and their order. */
  lemma RenameContents(files: Dir, names: seq<JsString>, name: JsString)
    requires Lists(names, files) && LOG_FILE in files
    requires name !in files && IsArchive(name)
    ensures var moved := (files - {LOG_FILE})[name := files[LOG_FILE]];
            Lists(names + [name], moved) && Retained(moved, names + [name]) == Retained(files, names)
  {
    hide IsArchive;
    var moved := (files - {LOG_FILE})[name := files[LOG_FILE]];
    IsNotLog();
    var names' := names + [name];
    forall n
      ensures n in names' <==> n in moved && IsArchive(n)
    {
      assert n in names' <==> n in names || n == name;
    }
    assert names'[..|names'| - 1] == names;
    ConcatSame(files, moved, names);
    assert Live(moved) == [];
  }

  lemma IsNotLog()
    ensures !IsArchive(LOG_FILE)
  {
    assert |LOG_FILE| == 9;
  }

  lemma NewestComesLast(files: Dir, ids: seq<ArchiveId>, now: Stamp)
    requires InOrder(ids) && Lists(Names(ids), files)
    requires ids != [] ==> !Before(now, ids[|ids| - 1].stamp)
    ensures var id := ArchiveId(now, FreeSuffix(files, {}, now, 0));
            forall i :: 0 <= i < |ids| ==> IdBefore(ids[i], id)
  {
    hide Name, IsArchive;
    if ids != [] {
      var k, last := FreeSuffix(files, {}, now, 0), ids[|ids| - 1];
      if last.stamp == now && k <= last.suffix {
        NameListed(ids, ArchiveId(now, k));
        assert false;
      }
      assert IdBefore(last, ArchiveId(now, k));
    }
  }

  /** The last second's archives are all among the last ten. */
  lemma LastSecondSurvives(ids: seq<ArchiveId>, k: nat)
    requires InOrder(ids) && ids != [] && k <= ids[|ids| - 1].suffix
    ensures ArchiveId(ids[|ids| - 1].stamp, k) in ids[Excess(Names(ids))..]
  {
    hide Name, Before, IdBefore;
    var last := ids[|ids| - 1];
    var p :| 0 <= p < |ids| && ids[p] == ArchiveId(last.stamp, k);
    SuffixesClimb(ids, p, |ids| - 1);
    assert p >= Excess(Names(ids));
    assert ids[Excess(Names(ids))..][p - Excess(Names(ids))] == ids[p];
  }

  lemma {:induction false} SuffixesClimb(ids: seq<ArchiveId>, p: nat, q: nat)
    requires InOrder(ids) && p <= q < |ids| && ids[p].stamp == ids[q].stamp
    ensures ids[q].suffix >= ids[p].suffix + (q - p)
    decreases q - p
  {
    if p < q {
      assert IdBefore(ids[p], ids[p + 1]);
      assert p + 1 < q ==> IdBefore(ids[p + 1], ids[q]);
      SuffixesClimb(ids, p + 1, q);
    }
  }

  lemma PruneOrder(ids: seq<ArchiveId>)
    requires InOrder(ids)
    ensures InOrder(ids[Excess(Names(ids))..])
    ensures ids != [] ==> var ids' := ids[Excess(Names(ids))..]; ids' != [] && ids'[|ids'| - 1] == ids[|ids| - 1]
  {
    hide Name, IsArchive, Less;
    var ids' := ids[Excess(Names(ids))..];
    if ids' != [] {
      var last := ids'[|ids'| - 1];
      forall id: ArchiveId | id.stamp == last.stamp && id.suffix <= last.suffix ensures id in ids' {
        LastSecondSurvives(ids, id.suffix);
      }
    }
  }

  lemma FrontAndBack(names: seq<JsString>, n: nat)
    requires StrictlySorted(names) && n <= |names|
    ensures forall x :: x in names[n..] <==> x in names && x !in names[..n]
  {
    hide Less;
    var front, back := names[..n], names[n..];
    assert names == front + back;
    forall x
      ensures x in back <==> x in names && x !in front
    {
      assert x in names <==> x in front || x in back;
      if x in back && x in front {
        var i :| 0 <= i < |back| && back[i] == x;
        var j :| 0 <= j < n && front[j] == x;
        assert Less(names[j], names[n + i]);
        LessIrreflexive(x);
      }
    }
  }

  /** A prune forgets from the front. */
  lemma PruneContents(files: Dir, names: seq<JsString>)
    requires StrictlySorted(names) && Lists(names, files)
    ensures var names', pruned := names[Excess(names)..], files - Doomed(files);
            Lists(names', pruned) && IsSuffix(Retained(pruned, names'), Retained(files, names))
  {
    hide IsArchive, Less, Doomed, StrictlySorted;
    var n := Excess(names);
    var pruned := files - Doomed(files);
    DoomedFront(files, names);
    FrontAndBack(names, n);
    IsNotLog();
    assert names == names[..n] + names[n..];
    ConcatSplit(files, names[..n], names[n..]);
    ConcatSame(files, pruned, names[n..]);
    var dropped, kept := Concat(files, names[..n]), Retained(pruned, names[n..]);
    assert forall x <- names[..n] :: x in names;
    assert Live(pruned) == Live(files);
    assert Retained(files, names) == dropped + kept;
  }

  /** An append extends both the directory and the history. */
  lemma AppendKeeps(files: Dir, names: seq<JsString>, line: Line)
    requires Lists(names, files)
    ensures var files' := files[LOG_FILE := Live(files) + [line]];
            Lists(names, files') && Retained(files', names) == Retained(files, names) + [line]
  {
    hide IsArchive;
    IsNotLog();
    ConcatSame(files, files[LOG_FILE := Live(files) + [line]], names);
  }

  lemma RenameKeeps(files: Dir, ids: seq<ArchiveId>, now: Stamp)
    requires InOrder(ids) && Lists(Names(ids), files) && LOG_FILE in files
    requires ids != [] ==> !Before(now, ids[|ids| - 1].stamp)
    requires Name(ArchiveId(now, 9)) !in files
    ensures var moved, ids' := Moved(files, now, {}), ids + [NewId(files, now)];
            && InOrder(ids') && Lists(Names(ids'), moved)
            && Retained(moved, Names(ids')) == Retained(files, Names(ids))
  {
    hide Name, IsArchive, Less, InOrder, Before, Retained;
    var id := NewId(files, now);
    RenameOrder(files, ids, now);
    NameIsArchive(id);
    RenameContents(files, Names(ids), Name(id));
    assert Names(ids + [id]) == Names(ids) + [Name(id)];
  }

  lemma PruneKeeps(files: Dir, ids: seq<ArchiveId>)
    requires InOrder(ids) && Lists(Names(ids), files) && ids != []
    ensures var pruned, ids' := files - Doomed(files), ids[Excess(Names(ids))..];
            && InOrder(ids') && Lists(Names(ids'), pruned)
            && ids' != [] && ids'[|ids'| - 1] == ids[|ids| - 1]
            && IsSuffix(Retained(pruned, Names(ids')), Retained(files, Names(ids)))
            && (|ids| <= MAX_LOG_BACKUPS ==> Retained(pruned, Names(ids')) == Retained(files, Names(ids)))
  {
    hide Name, IsArchive, Less, InOrder, Doomed, Retained;
    PruneOrder(ids);
    NamesSorted(ids);
    PruneContents(files, Names(ids));
    if |ids| <= MAX_LOG_BACKUPS {
      NoneDoomed(files, ids);
    }
    var n := Excess(Names(ids));
    assert Names(ids[n..]) == Names(ids)[n..];
  }

  /** A rotation renames, then perhaps prunes. */
  lemma RotationKeeps(files: Dir, ids: seq<ArchiveId>, now: Stamp, f: Faults) returns (ids': seq<ArchiveId>)
    requires InOrder(ids) && Lists(Names(ids), files) && LOG_FILE in files
    requires ids != [] ==> !Before(now, ids[|ids| - 1].stamp)
    requires Name(ArchiveId(now, 9)) !in files && f.hidden == {} && f.stuck == {} && !f.renameFails
    ensures InOrder(ids') && Lists(Names(ids'), Rotated(files, now, f))
    ensures ids' != [] && ids'[|ids'| - 1].stamp == now && |ids'| <= |ids| + 1
    ensures IsSuffix(Retained(Rotated(files, now, f), Names(ids')), Retained(files, Names(ids)))
    ensures |ids| < MAX_LOG_BACKUPS ==>
              Retained(Rotated(files, now, f), Names(ids')) == Retained(files, Names(ids))
  {
    hide Name, IsArchive, Less, InOrder, Retained, Before, Doomed, Lists;
    RenameKeeps(files, ids, now);
    ids' := ids + [NewId(files, now)];
    var moved := Moved(files, now, {});
    if !f.readdirFails {
      PruneKeeps(moved, ids');
      assert Doomed(moved) - f.stuck == Doomed(moved);
      ids' := ids'[Excess(Names(ids'))..];
    }
  }

  lemma RenameFailed(files: Dir, now: Stamp, f: Faults)
    requires LOG_FILE in files && f.renameFails
    ensures Rotated(files, now, f) == files
  {}

  lemma ClockStays(now: Stamp)
    ensures !Before(now, now)
  {}

  lemma ClockAdvances(w: World, ids: seq<ArchiveId>, e: Entry)
    requires Inv(w, ids) && Orderly(w, e)
    ensures ids != [] ==> !Before(e.now, ids[|ids| - 1].stamp)
  {}

  lemma NoneDoomed(files: Dir, ids: seq<ArchiveId>)
    requires InOrder(ids) && Lists(Names(ids), files) && |ids| <= MAX_LOG_BACKUPS
    ensures files - Doomed(files) == files && ids[Excess(Names(ids))..] == ids
  {
    NamesSorted(ids);
    DoomedFront(files, Names(ids));
    assert Doomed(files) == {};
  }

  lemma SuffixOfSuffix(a: seq<Line>, b: seq<Line>, c: seq<Line>, x: seq<Line>)
    requires IsSuffix(a, b) && IsSuffix(b, c)
    ensures IsSuffix(a, c) && IsSuffix(a + x, c + x)
  {
    assert c[|c| - |a|..] == c[|c| - |b|..][|b| - |a|..];
    assert (c + x)[|c| - |a|..] == c[|c| - |a|..] + x;
  }

  function Ready(w: World, e: Entry): Dir {
    if Rotates(w.files, e.faults) then Rotated(w.files, e.now, e.faults) else w.files
  }

  function Rotations(w: World, e: Entry): nat {
    if Rotates(w.files, e.faults) && !e.faults.renameFails then 1 else 0
  }

  /** The rotation of a write, if it is due. */
  lemma ReadyKeeps(w: World, ids: seq<ArchiveId>, e: Entry) returns (ids': seq<ArchiveId>)
    requires InOrder(ids) && Lists(Names(ids), w.files) && Orderly(w, e)
    requires ids != [] ==> !Before(e.now, ids[|ids| - 1].stamp)
    ensures InOrder(ids') && Lists(Names(ids'), Ready(w, e))
    ensures ids' != [] ==> !Before(e.now, ids'[|ids'| - 1].stamp)
    ensures |ids'| <= |ids| + Rotations(w, e)
    ensures IsSuffix(Retained(Ready(w, e), Names(ids')), Retained(w.files, Names(ids)))
    ensures |ids| + Rotations(w, e) <= MAX_LOG_BACKUPS ==>
              Retained(Ready(w, e), Names(ids')) == Retained(w.files, Names(ids))
  {
    hide Name, IsArchive, Less, InOrder, Rotated, Before, Retained;
    ids' := ids;
    if Rotates(w.files, e.faults) {
      if e.faults.renameFails {
        RenameFailed(w.files, e.now, e.faults);
      } else {
        ids' := RotationKeeps(w.files, ids, e.now, e.faults);
        ClockStays(e.now);
      }
    }
  }

  lemma NextParts(w: World, e: Entry)
    ensures var v, added := Next(w, e), if e.faults.dirMissing || e.faults.appendFails then [] else [e.line];
            && v.history == w.history + added && v.clock == e.now && v.rotations == w.rotations + Rotations(w, e)
            && v.files == if added == [] then Ready(w, e) else Ready(w, e)[LOG_FILE := Live(Ready(w, e)) + added]
  {
    hide Rotated, Live;
  }

  /** Every write keeps the invariant. */
  lemma StepKeeps(w: World, ids: seq<ArchiveId>, e: Entry) returns (ids': seq<ArchiveId>)
    requires Inv(w, ids) && Orderly(w, e)
    ensures Inv(Next(w, e), ids')
  {
    ClockAdvances(w, ids, e);
    hide Name, IsArchive, InOrder, Next, Ready, Before, Retained, Orderly, Live;
    ids' := ReadyKeeps(w, ids, e);
    NextParts(w, e);
    var added := if e.faults.dirMissing || e.faults.appendFails then [] else [e.line];
    SuffixOfSuffix(Retained(Ready(w, e), Names(ids')), Retained(w.files, Names(ids)), w.history, added);
    if added != [] {
      AppendKeeps(Ready(w, e), Names(ids'), e.line);
    }
  }

  /** What a run leaves, in the sorted order of the archives' names and then the
      live log, is the end of what was appended: all of it while at most ten
      rotations have happened. `listing` is any listing of the archives. */
  lemma {:induction false} RetainedHistory(clock: Stamp, es: seq<Entry>, listing: seq<JsString>)
    requires OrderlyRun(World(map[], [], clock, 0), es)
    requires Distinct(listing) && Lists(listing, After(World(map[], [], clock, 0), es).files)
    ensures var w := After(World(map[], [], clock, 0), es);
            && IsSuffix(Concat(w.files, Sort(listing)) + Live(w.files), w.history)
            && (w.rotations <= MAX_LOG_BACKUPS ==>
                Concat(w.files, Sort(listing)) + Live(w.files) == w.history)
  {
    var start := World(map[], [], clock, 0);
    assert Names([]) == [];
    var ids := RunKeeps(start, [], es);
    NamesSorted(ids);
    SortedUnique(Sort(listing), Names(ids));
  }

  lemma {:induction false} RunKeeps(w: World, ids: seq<ArchiveId>, es: seq<Entry>) returns (ids': seq<ArchiveId>)
    requires Inv(w, ids) && OrderlyRun(w, es)
    ensures Inv(After(w, es), ids')
    decreases |es|
  {
    ids' := ids;
    if es != [] {
      ids' := StepKeeps(w, ids, es[0]);
      ids' := RunKeeps(Next(w, es[0]), ids', es[1..]);
    }
  }
}
