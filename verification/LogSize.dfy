/** How much disk the log takes. */
module LogSize {
  import opened JsStrings
  import opened ArchiveNames
  import opened LogRotation
  import opened LogHistory

  function Archives(files: Dir): set<JsString> { set n | n in files && IsArchive(n) }

  /** No file is larger than the limit and one line; ten archives at most. */
  ghost predicate Bounded(files: Dir, longest: nat) {
    && (forall n <- files :: (IsArchive(n) || n == LOG_FILE) && Size(files[n]) <= MAX_LOG_SIZE + longest)
    && |Archives(files)| <= MAX_LOG_BACKUPS
  }

  /** A rotation that is due succeeds, and the line is no longer than `longest`. */
  predicate Healthy(e: Entry, longest: nat) {
    && !e.faults.statFails && !e.faults.renameFails && !e.faults.readdirFails && e.faults.stuck == {}
    && Bytes(e.line) <= longest
  }

  lemma {:induction false} SortedListing(s: set<JsString>) returns (names: seq<JsString>)
    ensures StrictlySorted(names) && forall n :: n in names <==> n in s
    decreases |s|
  {
    if s == {} {
      return [];
    }
    var n :| n in s;
    names := SortedListing(s - {n});
    names := Insert(n, names);
  }

  /** A prune leaves at most ten archives, however many it finds. */
  lemma PruneBounds(files: Dir)
    ensures |Archives(files - Doomed(files))| <= MAX_LOG_BACKUPS
  {
    hide IsArchive, Less, Doomed;
    var names := SortedListing(Archives(files));
    var kept := names[Excess(names)..];
    PruneContents(files, names);
    Cardinality(kept);
    assert Elements(kept) == Archives(files - Doomed(files));
  }

  lemma RotationBounds(files: Dir, now: Stamp, f: Faults, longest: nat)
    requires Bounded(files, longest) && LOG_FILE in files
    requires !f.renameFails && !f.readdirFails && f.stuck == {}
    ensures Bounded(Rotated(files, now, f), longest) && LOG_FILE !in Rotated(files, now, f)
  {
    hide IsArchive, Less, Doomed, Size, Name;
    var moved := Moved(files, now, f.hidden);
    NameIsArchive(ArchiveId(now, FreeSuffix(files, f.hidden, now, 0)));
    PruneBounds(moved);
    assert Doomed(moved) - f.stuck == Doomed(moved);
  }

  lemma StepBounds(w: World, e: Entry, longest: nat)
    requires Bounded(w.files, longest) && Healthy(e, longest)
    ensures Bounded(Next(w, e).files, longest)
  {
    hide IsArchive, Less, Doomed, Rotated;
    var ready := w.files;
    if Rotates(w.files, e.faults) {
      RotationBounds(w.files, e.now, e.faults, longest);
      ready := Rotated(w.files, e.now, e.faults);
    }
    if !e.faults.dirMissing && !e.faults.appendFails {
      EmptySize();
      assert Size(Live(ready)) <= MAX_LOG_SIZE;
      var lines := Live(ready) + [e.line];
      assert lines[..|lines| - 1] == Live(ready);
      assert Size(lines) == Size(Live(ready)) + Bytes(e.line);
      IsNotLog();
      assert Archives(ready[LOG_FILE := lines]) == Archives(ready);
    }
  }

  lemma {:induction false} RunBounds(w: World, es: seq<Entry>, longest: nat)
    requires Bounded(w.files, longest) && forall e <- es :: Healthy(e, longest)
    ensures Bounded(After(w, es).files, longest)
    decreases |es|
  {
    if es != [] {
      StepBounds(w, es[0], longest);
      assert forall e <- es[1..] :: e in es;
      RunBounds(Next(w, es[0]), es[1..], longest);
    }
  }

  function Total(files: Dir, names: seq<JsString>): nat
    requires forall n <- names :: n in files
  {
    if names == [] then 0
    else
      assert forall n <- names[1..] :: n in names;
      Size(files[names[0]]) + Total(files, names[1..])
  }

  lemma OneMore(n: nat, each: nat)
    requires n > 0
    ensures n * each == (n - 1) * each + each
  {}

  lemma {:induction false} TotalBound(files: Dir, names: seq<JsString>, each: nat)
    requires forall n <- names :: n in files && Size(files[n]) <= each
    ensures Total(files, names) <= |names| * each
  {
    hide Size;
    if names != [] {
      assert names[0] in names;
      assert forall n <- names[1..] :: n in names;
      TotalBound(files, names[1..], each);
      OneMore(|names|, each);
    }
  }

  /** Between writes no file passes the limit by more than one line, and all of
      them together stay within eleven such files. */
  lemma SizeBound(clock: Stamp, es: seq<Entry>, longest: nat, listing: seq<JsString>)
    requires forall e <- es :: Healthy(e, longest)
    requires Distinct(listing)
    requires forall n :: n in listing <==> n in After(World(map[], [], clock, 0), es).files
    ensures var files := After(World(map[], [], clock, 0), es).files;
            && Size(Live(files)) <= MAX_LOG_SIZE + longest
            && |Archives(files)| <= MAX_LOG_BACKUPS
            && Total(files, listing) <= (MAX_LOG_BACKUPS + 1) * (MAX_LOG_SIZE + longest)
  {
    hide IsArchive, Less, Size;
    var w := World(map[], [], clock, 0);
    assert Archives(w.files) == {};
    RunBounds(w, es, longest);
    var files := After(w, es).files;
    TotalBound(files, listing, MAX_LOG_SIZE + longest);
    Cardinality(Sort(listing));
    assert Elements(Sort(listing)) == files.Keys;
    assert files.Keys <= Archives(files) + {LOG_FILE};
    Subset(files.Keys, Archives(files) + {LOG_FILE});
    Product(|listing|, MAX_LOG_BACKUPS + 1, MAX_LOG_SIZE + longest);
    EmptySize();
  }

  lemma EmptySize()
    ensures Size([]) == 0
  {}

  lemma Subset(s: set<JsString>, t: set<JsString>)
    requires s <= t
    ensures |s| <= |t|
  {
    assert t == s + (t - s);
  }

  lemma Product(a: nat, b: nat, c: nat)
    requires a <= b
    ensures a * c <= b * c
  {}
}
