/** The log writer: append, rotate past two megabytes, keep ten archives. */
module LogRotation {
  import opened JsStrings
  import opened ArchiveNames
  import Utf8

  type Line = JsString

  /** The state directory: every file with the lines in it. */
  type Dir = map<JsString, seq<Line>>

  const MAX_LOG_SIZE := 2 * 1024 * 1024
  const MAX_LOG_BACKUPS := 10
  const LOG_FILE: JsString := Units("debug.log")

  /** A line on disk, with its newline. */
  function Bytes(line: Line): nat { |Utf8.Buffer(line)| + 1 }

  function Size(lines: seq<Line>): nat {
    if lines == [] then 0 else Size(lines[..|lines| - 1]) + Bytes(lines[|lines| - 1])
  }

  predicate BreaksLine(u: CodeUnit) { u in {10, 13, 0x2028, 0x2029} }

  /** `^debug_.*\.log$`; the dot stops at line terminators. */
  predicate IsArchive(name: JsString) {
    && |name| >= 10 && name[..6] == Units("debug_") && name[|name| - 4..] == Units(".log")
    && forall u <- name[6..|name| - 4] :: !BreaksLine(u)
  }

  /** What the file system does to one write. `hidden` files exist but cannot be
      stat'ed, `stuck` files cannot be unlinked. */
  datatype Faults = Faults(
    dirMissing: bool, statFails: bool, renameFails: bool, readdirFails: bool, appendFails: bool,
    hidden: set<JsString>, stuck: set<JsString>)

  predicate PathExists(files: Dir, hidden: set<JsString>, name: JsString) {
    name in files && name !in hidden
  }

  // ---- The suffix search ----

  lemma {:induction false} SuffixBound(files: Dir, s: Stamp, k: nat)
    requires forall i :: 0 <= i < k ==> Name(ArchiveId(s, i)) in files
    ensures k <= |files|
  {
    if k > 0 {
      var last := Name(ArchiveId(s, k - 1));
      forall i | 0 <= i < k - 1 ensures Name(ArchiveId(s, i)) in files - {last} {
        if Name(ArchiveId(s, i)) == last {
          NameInjective(ArchiveId(s, i), ArchiveId(s, k - 1));
        }
      }
      SuffixBound(files - {last}, s, k - 1);
      assert (files - {last}).Keys == files.Keys - {last};
    }
  }

  /** The first suffix from `k` on whose name does not seem to exist. */
  function FreeSuffix(files: Dir, hidden: set<JsString>, s: Stamp, k: nat): (r: nat)
    requires forall i :: 0 <= i < k ==> Name(ArchiveId(s, i)) in files
    ensures k <= r && !PathExists(files, hidden, Name(ArchiveId(s, r)))
    ensures forall i :: k <= i < r ==> PathExists(files, hidden, Name(ArchiveId(s, i)))
    decreases |files| - k
  {
    if PathExists(files, hidden, Name(ArchiveId(s, k))) then
      SuffixBound(files, s, k + 1);
      FreeSuffix(files, hidden, s, k + 1)
    else k
  }

  // ---- One write ----

  /** The archives that sort after `name`. */
  function Newer(files: Dir, name: JsString): set<JsString> {
    set m | m in files && IsArchive(m) && Less(name, m)
  }

  /** The archives with ten or more newer ones. */
  function Doomed(files: Dir): set<JsString> {
    set n | n in files && IsArchive(n) && |Newer(files, n)| >= MAX_LOG_BACKUPS
  }

  function Moved(files: Dir, now: Stamp, hidden: set<JsString>): Dir
    requires LOG_FILE in files
  {
    var name := Name(ArchiveId(now, FreeSuffix(files, hidden, now, 0)));
    (files - {LOG_FILE})[name := files[LOG_FILE]]
  }

  function Rotated(files: Dir, now: Stamp, f: Faults): Dir
    requires LOG_FILE in files
  {
    if f.renameFails then files
    else
      var moved := Moved(files, now, f.hidden);
      if f.readdirFails then moved else moved - (Doomed(moved) - f.stuck)
  }

  predicate Rotates(files: Dir, f: Faults) {
    !f.dirMissing && !f.statFails && LOG_FILE in files && Size(files[LOG_FILE]) > MAX_LOG_SIZE
  }

  function Live(files: Dir): seq<Line> { if LOG_FILE in files then files[LOG_FILE] else [] }

  function Written(files: Dir, line: Line, now: Stamp, f: Faults): Dir {
    var ready := if Rotates(files, f) then Rotated(files, now, f) else files;
    if f.dirMissing || f.appendFails then ready else ready[LOG_FILE := Live(ready) + [line]]
  }

  // ---- Sorted archives ----

  function Elements(s: seq<JsString>): set<JsString> { set x | x in s }

  lemma {:induction false} Cardinality(s: seq<JsString>)
    requires StrictlySorted(s)
    ensures |Elements(s)| == |s|
  {
    if s != [] {
      Cardinality(s[1..]);
      LessIrreflexive(s[0]);
      assert Elements(s) == {s[0]} + Elements(s[1..]);
      assert s[0] !in s[1..];
    }
  }

  ghost predicate Lists(archives: seq<JsString>, files: Dir) {
    forall n :: n in archives <==> n in files && IsArchive(n)
  }

  /** In the sorted list of archives the doomed ones are all but the last ten. */
  lemma DoomedAreFirst(files: Dir, archives: seq<JsString>, i: nat)
    requires StrictlySorted(archives) && Lists(archives, files) && i < |archives|
    ensures archives[i] in Doomed(files) <==> i + MAX_LOG_BACKUPS < |archives|
  {
    var rest := archives[i + 1..];
    assert Newer(files, archives[i]) == Elements(rest) by {
      forall m
        ensures m in Newer(files, archives[i]) <==> m in rest
      {
        if m in rest {
          assert m in archives;
        }
        if m in Newer(files, archives[i]) {
          assert m in archives;
          var j :| 0 <= j < |archives| && archives[j] == m;
          LessIrreflexive(m);
          if j <= i {
            if j < i {
              LessTransitive(m, archives[i], m);
            }
            assert false;
          }
          assert m == rest[j - i - 1];
        }
      }
    }
    Cardinality(rest);
    assert archives[i] in archives;
  }

  function Excess(archives: seq<JsString>): (n: nat)
    ensures n <= |archives|
  {
    if |archives| > MAX_LOG_BACKUPS then |archives| - MAX_LOG_BACKUPS else 0
  }

  lemma DoomedFront(files: Dir, archives: seq<JsString>)
    requires StrictlySorted(archives) && Lists(archives, files)
    ensures Doomed(files) == Elements(archives[..Excess(archives)])
  {
    var n := Excess(archives);
    forall x
      ensures x in Doomed(files) <==> x in archives[..n]
    {
      if x in archives {
        var j :| 0 <= j < |archives| && archives[j] == x;
        DoomedAreFirst(files, archives, j);
        if x in Doomed(files) {
          assert x == archives[..n][j];
        }
        if x in archives[..n] {
          var k :| 0 <= k < n && archives[..n][k] == x;
          DoomedAreFirst(files, archives, k);
        }
      }
    }
  }

  function Filter(names: seq<JsString>): (r: seq<JsString>)
    requires Distinct(names)
    ensures Distinct(r) && forall n :: n in r <==> n in names && IsArchive(n)
  {
    if names == [] then []
    else
      assert forall n :: n in names <==> n == names[0] || n in names[1..];
      (if IsArchive(names[0]) then [names[0]] else []) + Filter(names[1..])
  }

  /** `readdir`, in whatever order the file system has. */
  method Readdir(files: Dir) returns (names: seq<JsString>)
    ensures Distinct(names) && forall n :: n in names <==> n in files
  {
    names := [];
    var left := files.Keys;
    while left != {}
      invariant Distinct(names) && forall n :: n in files <==> n in names || n in left
      invariant forall n <- names :: n !in left
      decreases |left|
    {
      var n :| n in left;
      names := names + [n];
      left := left - {n};
    }
  }

  class LogWriter {
    var files: Dir

    constructor ()
      ensures files == map[]
    {
      files := map[];
    }

    method RotateLog(now: Stamp, f: Faults)
      requires LOG_FILE in files
      modifies this
      ensures files == Rotated(old(files), now, f)
    {
      var archive := Name(ArchiveId(now, 0));
      var suffix := 0;
      while PathExists(files, f.hidden, archive)
        invariant archive == Name(ArchiveId(now, suffix))
        invariant forall i :: 0 <= i < suffix ==> Name(ArchiveId(now, i)) in files
        invariant files == old(files)
        invariant FreeSuffix(files, f.hidden, now, 0) == FreeSuffix(files, f.hidden, now, suffix)
        decreases |files| - suffix
      {
        SuffixBound(files, now, suffix + 1);
        suffix := suffix + 1;
        archive := Name(ArchiveId(now, suffix));
      }
      if f.renameFails {
        return;
      }
      files := (files - {LOG_FILE})[archive := files[LOG_FILE]];
      if f.readdirFails {
        return;
      }
      Prune(f.stuck);
    }

    /** The second half of a rotation: unlink from the front of the sorted list. */
    method Prune(stuck: set<JsString>)
      modifies this
      ensures files == old(files) - (Doomed(old(files)) - stuck)
    {
      hide Doomed, IsArchive, Less, Filter, Sort, StrictlySorted;
      var listing := Readdir(files);
      var archives := Sort(Filter(listing));
      DoomedFront(files, archives);
      ghost var moved := files;
      var i := 0;
      while i < |archives| - MAX_LOG_BACKUPS
        invariant 0 <= i <= Excess(archives)
        invariant files == moved - (Elements(archives[..i]) - stuck)
      {
        if archives[i] !in stuck {
          files := files - {archives[i]};
        }
        assert archives[..i + 1] == archives[..i] + [archives[i]];
        assert Elements(archives[..i + 1]) == Elements(archives[..i]) + {archives[i]};
        i := i + 1;
      }
    }

    method Write(line: Line, now: Stamp, f: Faults)
      modifies this
      ensures files == Written(old(files), line, now, f)
    {
      if f.dirMissing {
        return;
      }
      if !f.statFails && LOG_FILE in files && Size(files[LOG_FILE]) > MAX_LOG_SIZE {
        RotateLog(now, f);
      }
      if f.appendFails {
        return;
      }
      files := files[LOG_FILE := Live(files) + [line]];
    }
  }
}
