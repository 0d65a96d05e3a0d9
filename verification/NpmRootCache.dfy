/** `getNpmRootGlobal`: the answer of `npm root -g`, cached in a file. */
module NpmRootCache {
  import opened Wrappers
  import opened JsWhitespace

  /** `String.prototype.trim`. */
  function Trim(s: string): string
    decreases |s|
  {
    if s != "" && IsSpace(s[0]) then Trim(s[1..])
    else if s != "" && IsSpace(s[|s| - 1]) then Trim(s[..|s| - 1])
    else s
  }

  datatype File = File(content: string, mtime: int)

  /** How `writeFile` can go wrong: before it touches the file, or after it has
      emptied it. */
  datatype WriteOutcome = Written | NotWritten | Emptied

  /** What one call meets: its time, whether the file can be read, npm's answer,
      and when and how the write ends. */
  datatype Call = Call(now: int, readable: bool, npm: Option<string>, written: int, outcome: WriteOutcome)

  predicate Fresh(cache: Option<File>, c: Call, ttl: int) {
    cache.Some? && c.readable && c.now - cache.value.mtime < ttl && Trim(cache.value.content) != ""
  }

  function Answer(cache: Option<File>, c: Call, ttl: int): Option<string> {
    if Fresh(cache, c, ttl) then Some(Trim(cache.value.content)) else c.npm
  }

  /** npm's answer is kept when there is one and it is not empty. */
  predicate Caches(cache: Option<File>, c: Call, ttl: int) {
    !Fresh(cache, c, ttl) && c.npm.Some? && c.npm.value != ""
  }

  function Stored(cache: Option<File>, c: Call, ttl: int): Option<File> {
    if !Caches(cache, c, ttl) then cache
    else
      match c.outcome
      case Written => Some(File(c.npm.value, c.written))
      case NotWritten => cache
      case Emptied => Some(File("", c.written))
  }

  class NpmRoot {
    var cacheFile: Option<File>

    constructor ()
      ensures cacheFile == None
    {
      cacheFile := None;
    }

    method GetNpmRootGlobal(c: Call, ttl: int) returns (root: Option<string>)
      modifies this
      ensures root == Answer(old(cacheFile), c, ttl)
      ensures cacheFile == Stored(old(cacheFile), c, ttl)
    {
      if cacheFile.Some? && c.readable {
        var age := c.now - cacheFile.value.mtime;
        if age < ttl {
          var cached := Trim(cacheFile.value.content);
          if |cached| > 0 {
            return Some(cached);
          }
        }
      }
      root := c.npm;
      if root.Some? && root.value != "" {
        match c.outcome
        case Written => cacheFile := Some(File(root.value, c.written));
        case NotWritten =>
        case Emptied => cacheFile := Some(File("", c.written));
      }
    }
  }

  // ---- Runs ----

  function After(cache: Option<File>, calls: seq<Call>, ttl: int): Option<File>
    decreases |calls|
  {
    if calls == [] then cache else Stored(After(cache, calls[..|calls| - 1], ttl), calls[|calls| - 1], ttl)
  }

  function Answers(calls: seq<Call>, ttl: int, i: nat): Option<string>
    requires i < |calls|
  {
    Answer(After(None, calls[..i], ttl), calls[i], ttl)
  }

  /** Time does not run back, within a call or from one to the next. */
  predicate Clocked(calls: seq<Call>) {
    && (forall i :: 0 <= i < |calls| ==> calls[i].now <= calls[i].written)
    && forall i, j :: 0 <= i < j < |calls| ==> calls[i].written <= calls[j].now
  }

  /** Call `j` is where a cached content came from. */
  ghost predicate Source(calls: seq<Call>, ttl: int, j: nat, file: File) {
    j < |calls| && calls[j].npm == Some(file.content) && calls[j].outcome.Written? && calls[j].written == file.mtime &&
    Answers(calls, ttl, j) == Some(file.content)
  }

  /** The cache holds what an earlier call answered straight from npm, or nothing. */
  lemma {:induction false} CacheHasASource(calls: seq<Call>, ttl: int)
    ensures var cache := After(None, calls, ttl);
            cache.Some? && cache.value.content != "" ==> exists j: nat :: Source(calls, ttl, j, cache.value)
  {
    if calls != [] {
      var n := |calls| - 1;
      var before := calls[..n];
      CacheHasASource(before, ttl);
      var prior, cache := After(None, before, ttl), After(None, calls, ttl);
      if cache.Some? && cache.value.content != "" {
        if cache == prior {
          var j: nat :| Source(before, ttl, j, prior.value);
          assert calls[..j] == before[..j];
          assert Source(calls, ttl, j, cache.value);
        } else {
          assert Source(calls, ttl, n, cache.value);
        }
      }
    }
  }

  /** Every answer is what npm says in that call, or the trimmed text npm gave an
      earlier call that stored it less than `ttl` ago. A failed write and a null
      answer leave no trace in any answer. */
  lemma AnswersAgree(calls: seq<Call>, ttl: int, i: nat)
    requires Clocked(calls) && i < |calls|
    ensures || Answers(calls, ttl, i) == calls[i].npm
            || exists j :: 0 <= j < i && calls[j].npm.Some? && calls[j].outcome.Written?
                 && Answers(calls, ttl, j) == calls[j].npm
                 && Answers(calls, ttl, i) == Some(Trim(calls[j].npm.value))
                 && 0 <= calls[i].now - calls[j].written < ttl
  {
    var before := calls[..i];
    var cache := After(None, before, ttl);
    CacheHasASource(before, ttl);
    if Fresh(cache, calls[i], ttl) {
      var j: nat :| Source(before, ttl, j, cache.value);
      assert calls[..j] == before[..j];
      assert calls[j] == before[j];
    }
  }

  // ---- What the cache is for ----

  /** What is trimmed is white space, and no more of it is at either end. */
  lemma {:induction false} TrimExact(s: string) returns (before: string, after: string)
    ensures s == before + Trim(s) + after
    ensures (forall c <- before :: IsSpace(c)) && (forall c <- after :: IsSpace(c))
    ensures Trim(s) != "" ==> !IsSpace(Trim(s)[0]) && !IsSpace(Trim(s)[|Trim(s)| - 1])
    decreases |s|
  {
    hide IsSpace;
    before, after := "", "";
    if s != "" && IsSpace(s[0]) {
      before, after := TrimExact(s[1..]);
      before := [s[0]] + before;
      assert s == [s[0]] + s[1..];
    } else if s != "" && IsSpace(s[|s| - 1]) {
      before, after := TrimExact(s[..|s| - 1]);
      after := after + [s[|s| - 1]];
      assert s == s[..|s| - 1] + [s[|s| - 1]];
    }
  }

  /** A call that cannot have replaced what is cached: it read a cache still fresh,
      or npm gave it nothing, or nothing was written. */
  predicate LeavesCache(c: Call, stored: int, ttl: int) {
    (c.readable && c.now - stored < ttl) || c.npm.None? || c.npm.value == "" || c.outcome.NotWritten?
  }

  lemma {:induction false} StaysCached(calls: seq<Call>, ttl: int, j: nat, i: nat)
    requires j < i <= |calls| && (j == 0 || !calls[j].readable)
    requires calls[j].npm.Some? && Trim(calls[j].npm.value) != "" && calls[j].outcome.Written?
    requires forall k :: j < k < i ==> LeavesCache(calls[k], calls[j].written, ttl)
    ensures After(None, calls[..i], ttl) == Some(File(calls[j].npm.value, calls[j].written))
  {
    assert calls[..i][..i - 1] == calls[..i - 1];
    if i > j + 1 {
      StaysCached(calls, ttl, j, i - 1);
    } else {
      assert calls[j].npm.value != "";
    }
  }

  /** An answer that was stored is given again, without npm, to every call that can
      read it within its lifetime, whatever npm would say. */
  lemma FreshIsUsed(calls: seq<Call>, ttl: int, j: nat, i: nat)
    requires j < i < |calls| && (j == 0 || !calls[j].readable)
    requires calls[j].npm.Some? && Trim(calls[j].npm.value) != "" && calls[j].outcome.Written?
    requires forall k :: j < k < i ==> LeavesCache(calls[k], calls[j].written, ttl)
    requires calls[i].readable && calls[i].now - calls[j].written < ttl
    ensures Answers(calls, ttl, i) == Some(Trim(calls[j].npm.value))
  {
    StaysCached(calls, ttl, j, i);
  }

  /** And to none after it: npm is asked, and its answer given as it is. */
  lemma StaleIsAsked(cache: Option<File>, c: Call, ttl: int)
    requires cache.None? || !c.readable || c.now - cache.value.mtime >= ttl || Trim(cache.value.content) == ""
    ensures Answer(cache, c, ttl) == c.npm
  {}

  /** A write that only emptied the file leaves nothing to answer with. */
  lemma EmptiedIsAsked(cache: Option<File>, c: Call, next: Call, ttl: int)
    requires cache.None? || !c.readable || c.now - cache.value.mtime >= ttl || Trim(cache.value.content) == ""
    requires c.npm.Some? && c.npm.value != "" && c.outcome.Emptied?
    ensures Answer(Stored(cache, c, ttl), next, ttl) == next.npm
  {}
}
