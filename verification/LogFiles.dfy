/** What a write does to the files of the state directory, by their names and
    their bytes. */
module LogFiles {
  import opened JsStrings
  import opened ArchiveNames
  import opened LogRotation
  import opened LogHistory
  import Utf8

  // ---- Names ----

  /** "debug_", ".log" and "debug.log" in code units. */
  const PREFIX: JsString := [100, 101, 98, 117, 103, 95]

  const EXTENSION: JsString := [46, 108, 111, 103]

  const LIVE_NAME: JsString := [100, 101, 98, 117, 103, 46, 108, 111, 103]

  lemma Spelled()
    ensures PREFIX == Units("debug_") && EXTENSION == Units(".log") && LIVE_NAME == LOG_FILE
  {}

  predicate EndsNoLine(u: CodeUnit) { u != 10 && u != 13 && u != 0x2028 && u != 0x2029 }

  /** The pattern, as a prefix, some units that end no line, and an extension. */
  lemma IsArchiveExactly(name: JsString)
    ensures IsArchive(name) <==>
      exists mid: JsString :: name == PREFIX + mid + EXTENSION && forall u <- mid :: EndsNoLine(u)
  {
    Spelled();
    if IsArchive(name) {
      var mid := name[6..|name| - 4];
      assert name == PREFIX + mid + EXTENSION;
      forall u <- mid ensures EndsNoLine(u) {
        assert !BreaksLine(u);
      }
    }
    if mid: JsString :| name == PREFIX + mid + EXTENSION && forall u <- mid :: EndsNoLine(u) {
      assert name[..6] == PREFIX && name[|name| - 4..] == EXTENSION && name[6..|name| - 4] == mid;
    }
  }

  /** Neither the live log nor named like an archive. */
  predicate IsForeign(name: JsString) {
    name != LIVE_NAME && !(PREFIX <= name && |name| >= 4 && name[|name| - 4..] == EXTENSION)
  }

  lemma ForeignIsNoArchive(name: JsString)
    requires IsForeign(name)
    ensures name != LOG_FILE && !IsArchive(name) && forall id :: Name(id) != name
  {
    hide Name;
    Spelled();
    forall id ensures Name(id) != name {
      NameIsArchive(id);
    }
  }

  /** The same lines under `name`, or no such file in either. */
  predicate Alike(a: Dir, b: Dir, name: JsString) {
    (name in a <==> name in b) && (name in a ==> a[name] == b[name])
  }

  /** A write touches no file that is not its own, whatever fails. */
  lemma ForeignFilesStay(files: Dir, line: Line, now: Stamp, f: Faults, name: JsString)
    requires IsForeign(name)
    ensures Alike(files, Written(files, line, now, f), name)
  {
    hide Name, IsArchive;
    ForeignIsNoArchive(name);
    assert LOG_FILE in files ==> name !in Doomed(Moved(files, now, f.hidden));
  }

  /** Nor does any run of writes. */
  lemma {:induction false} ForeignFilesStayOverRuns(w: World, es: seq<Entry>, name: JsString)
    requires IsForeign(name)
    ensures Alike(w.files, After(w, es).files, name)
    decreases |es|
  {
    hide IsForeign, Written;
    if es != [] {
      ForeignFilesStay(w.files, es[0].line, es[0].now, es[0].faults, name);
      ForeignFilesStayOverRuns(Next(w, es[0]), es[1..], name);
    }
  }

  /** A neighbour of the log is such a file. */
  lemma ConfigIsForeign()
    ensures IsForeign(Units("config.json")) && IsForeign(Units("cursors.json"))
  {
    assert Units("config.json")[0] == 99 && Units("cursors.json")[0] == 99;
  }

  // ---- Bytes ----

  /** The file as bytes: each line in UTF-8, and a line feed. */
  function Text(lines: seq<Line>): seq<Utf8.Byte> {
    if lines == [] then [] else Text(lines[..|lines| - 1]) + Utf8.Buffer(lines[|lines| - 1]) + [10]
  }

  lemma {:induction false} SizeIsText(lines: seq<Line>)
    ensures Size(lines) == |Text(lines)|
  {
    if lines != [] {
      SizeIsText(lines[..|lines| - 1]);
    }
  }

  /** Every file but the live log is larger than two megabytes. */
  ghost predicate ArchivesAreFull(files: Dir) {
    forall n <- files :: n == LIVE_NAME || |Text(files[n])| > 2097152
  }

  lemma FullStep(files: Dir, line: Line, now: Stamp, f: Faults)
    requires ArchivesAreFull(files)
    ensures ArchivesAreFull(Written(files, line, now, f))
  {
    hide Name, IsArchive, Doomed, Size, Text;
    Spelled();
    if LOG_FILE in files {
      SizeIsText(files[LOG_FILE]);
    }
  }

  /** No rotation happens before the log has passed two megabytes: every archive of
      a run is larger than that, whatever fails. */
  lemma {:induction false} FullOverRuns(w: World, es: seq<Entry>)
    requires ArchivesAreFull(w.files)
    ensures ArchivesAreFull(After(w, es).files)
    decreases |es|
  {
    hide ArchivesAreFull, Written;
    if es != [] {
      FullStep(w.files, es[0].line, es[0].now, es[0].faults);
      FullOverRuns(Next(w, es[0]), es[1..]);
    }
  }

  /** The live log has gone to `archive` and starts anew with `line`; a prune may
      have taken files, but changed none. */
  ghost predicate Archived(files: Dir, after: Dir, archive: JsString, line: Line)
    requires LIVE_NAME in files
  {
    && archive !in files && LIVE_NAME in after && after[LIVE_NAME] == [line]
    && forall n <- after :: n != LIVE_NAME ==> Alike(files[archive := files[LIVE_NAME]], after, n)
  }

  /** And one does as soon as it has: where nothing else fails, a log of more than
      two megabytes goes to a name that was free, and the line starts a new one; any
      other log just grows by the line. */
  lemma RotatesAtTwoMegabytes(files: Dir, line: Line, now: Stamp, f: Faults)
    requires !f.dirMissing && !f.statFails && !f.renameFails && !f.appendFails && f.hidden == {}
    ensures var after := Written(files, line, now, f);
            if LIVE_NAME in files && |Text(files[LIVE_NAME])| > 2097152
            then exists archive :: Archived(files, after, archive, line)
            else after == files[LIVE_NAME := (if LIVE_NAME in files then files[LIVE_NAME] else []) + [line]]
  {
    hide Name, IsArchive, Size, Text, Doomed;
    Spelled();
    if LOG_FILE in files {
      SizeIsText(files[LOG_FILE]);
      if Size(files[LOG_FILE]) > MAX_LOG_SIZE {
        var id := ArchiveId(now, FreeSuffix(files, {}, now, 0));
        NameIsArchive(id);
        assert Archived(files, Written(files, line, now, f), Name(id), line);
      }
    }
  }

  // ---- Failures ----

  function Appended(files: Dir, line: Line): Dir {
    files[LIVE_NAME := (if LIVE_NAME in files then files[LIVE_NAME] else []) + [line]]
  }

  /** Without its directory a write does nothing; where the log's size is not known or
      it cannot be renamed, the line is appended to it as it is. */
  lemma FailuresLeave(files: Dir, line: Line, now: Stamp, f: Faults)
    ensures f.dirMissing ==> Written(files, line, now, f) == files
    ensures !f.dirMissing && (f.statFails || f.renameFails) ==>
      Written(files, line, now, f) == if f.appendFails then files else Appended(files, line)
  {
    Spelled();
  }

  /** A file that cannot be unlinked stays. */
  lemma StuckFilesStay(files: Dir, line: Line, now: Stamp, f: Faults, name: JsString)
    requires name in files && name in f.stuck && name != LIVE_NAME
    ensures name in Written(files, line, now, f)
  {
    hide Name, IsArchive, Size;
    Spelled();
  }

  /** An archive that is there but cannot be stat'ed is taken for a free name, and a
      rotation in its second overwrites it. */
  lemma UnseenIsOverwritten(files: Dir, line: Line, now: Stamp, f: Faults)
    requires !f.dirMissing && !f.statFails && !f.renameFails && f.readdirFails
    requires LIVE_NAME in files && |Text(files[LIVE_NAME])| > 2097152
    requires Name(ArchiveId(now, 0)) in files && Name(ArchiveId(now, 0)) in f.hidden
    ensures var archive := Name(ArchiveId(now, 0));
            archive in Written(files, line, now, f) && Written(files, line, now, f)[archive] == files[LIVE_NAME]
  {
    hide Name, IsArchive, Size, Text;
    Spelled();
    SizeIsText(files[LIVE_NAME]);
    NameIsArchive(ArchiveId(now, 0));
  }
}
