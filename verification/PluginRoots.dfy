/** `resolveRoots`: the `node_modules` directories plugins are looked for in. */
module PluginRoots {
  import opened Wrappers

  /** A normalized absolute POSIX path, by its segments; `[]` is the root. */
  type Path = seq<string>

  const NODE_MODULES := "node_modules"

  /** The directories that hold a `.git` entry, and every directory that exists. */
  datatype FileSystem = FileSystem(git: set<Path>, existing: set<Path>)

  function Dirname(p: Path): Path { if p == [] then [] else p[..|p| - 1] }

  predicate StartsWithDots(segment: string) { |segment| >= 2 && segment[..2] == ".." }

  /** `relative(boundary, path)` is empty, or neither absolute nor starts with `..`. */
  predicate IsWithin(boundary: Path, path: Path) {
    boundary <= path && (boundary == path || !StartsWithDots(path[|boundary|]))
  }

  /** The nearest ancestor, itself included, in `git`. */
  function GitRoot(git: set<Path>, dir: Path): Option<Path>
    decreases |dir|
  {
    if dir in git then Some(dir) else if dir == [] then None else GitRoot(git, Dirname(dir))
  }

  function Boundary(fs: FileSystem, cwd: Path, home: Path): Path {
    var git := GitRoot(fs.git, cwd);
    if git.Some? then git.value else home
  }

  function Candidate(dir: Path): Path { dir + [NODE_MODULES] }

  function Head(fs: FileSystem, dir: Path): seq<Path> {
    if Candidate(dir) in fs.existing then [Candidate(dir)] else []
  }

  /** The existing `node_modules` of the prefixes of `cwd` no shorter than `low`,
      deepest first. */
  function Upward(fs: FileSystem, cwd: Path, low: nat): (r: seq<Path>)
    requires low <= |cwd|
    decreases |cwd|
  {
    Head(fs, cwd) + if low == |cwd| then [] else Upward(fs, Dirname(cwd), low)
  }

  /** What the local walk is for: every `node_modules` from `cwd` up to a boundary
      above it, and nothing when `cwd` lies elsewhere. */
  function Intended(fs: FileSystem, cwd: Path, boundary: Path): seq<Path> {
    if boundary <= cwd then Upward(fs, cwd, |boundary|) else []
  }

  /** What it finds, given its guard. */
  function Local(fs: FileSystem, cwd: Path, home: Path): seq<Path> {
    var boundary := Boundary(fs, cwd, home);
    if IsWithin(boundary, cwd) then Intended(fs, cwd, boundary) else []
  }

  method FindGitRoot(fs: FileSystem, start: Path) returns (root: Option<Path>)
    ensures root == GitRoot(fs.git, start)
  {
    var dir := start;
    while true
      invariant GitRoot(fs.git, start) == GitRoot(fs.git, dir)
      decreases |dir|
    {
      if dir in fs.git {
        return Some(dir);
      }
      if dir == [] {
        return None;
      }
      dir := Dirname(dir);
    }
  }

  /** Going up one directory stays inside until the boundary itself is left. */
  lemma UpOne(boundary: Path, dir: Path, cwd: Path)
    requires boundary < dir <= cwd && IsWithin(boundary, dir)
    ensures boundary <= Dirname(dir) <= cwd && IsWithin(boundary, Dirname(dir))
  {
    assert Dirname(dir) == cwd[..|dir| - 1];
    assert |Dirname(dir)| > |boundary| ==> Dirname(dir)[|boundary|] == dir[|boundary|];
  }

  /** The walk from `cwd` has come to `dir`, inside the boundary. */
  ghost predicate OnTheWay(fs: FileSystem, cwd: Path, boundary: Path, dir: Path, result: seq<Path>) {
    && boundary <= dir <= cwd && IsWithin(boundary, dir)
    && result + Upward(fs, dir, |boundary|) == Upward(fs, cwd, |boundary|)
    && forall p <- result :: |p| > |dir| + 1
  }

  lemma StepUp(fs: FileSystem, cwd: Path, boundary: Path, dir: Path, result: seq<Path>)
    requires OnTheWay(fs, cwd, boundary, dir, result)
    ensures Candidate(dir) !in result
    ensures dir == boundary ==> result + Head(fs, dir) == Upward(fs, cwd, |boundary|)
    ensures dir != boundary ==> dir != [] && OnTheWay(fs, cwd, boundary, Dirname(dir), result + Head(fs, dir))
  {
    if dir == boundary {
      assert Upward(fs, dir, |boundary|) == Head(fs, dir);
    } else {
      UpOne(boundary, dir, cwd);
      var rest := Upward(fs, Dirname(dir), |boundary|);
      assert Upward(fs, dir, |boundary|) == Head(fs, dir) + rest;
      assert result + (Head(fs, dir) + rest) == result + Head(fs, dir) + rest;
    }
  }

  lemma SetOff(fs: FileSystem, cwd: Path, boundary: Path)
    requires IsWithin(boundary, cwd)
    ensures OnTheWay(fs, cwd, boundary, cwd, [])
  {}

  lemma Inside(fs: FileSystem, cwd: Path, boundary: Path, dir: Path, result: seq<Path>)
    requires OnTheWay(fs, cwd, boundary, dir, result)
    ensures IsWithin(boundary, dir) && boundary <= cwd
  {}

  /** The walk with its guards; `result.includes` never fires. */
  method LocalRoots(fs: FileSystem, cwd: Path, home: Path) returns (result: seq<Path>)
    ensures result == Local(fs, cwd, home) && IsLocal(fs, cwd, home, result)
  {
    LocalIsLocal(fs, cwd, home);
    hide IsLocal;
    hide Upward, IsWithin, OnTheWay, GitRoot, Candidate;
    var git := FindGitRoot(fs, cwd);
    var boundary := if git.Some? then git.value else home;
    result := [];
    var dir := cwd;
    if IsWithin(boundary, cwd) {
      SetOff(fs, cwd, boundary);
    }
    while IsWithin(boundary, dir)
      invariant if IsWithin(boundary, cwd) then OnTheWay(fs, cwd, boundary, dir, result) else dir == cwd && result == []
      decreases |dir|
    {
      Inside(fs, cwd, boundary, dir, result);
      StepUp(fs, cwd, boundary, dir, result);
      assert result + [] == result;
      var candidate := Candidate(dir);
      if candidate in fs.existing && candidate !in result {
        result := result + [candidate];
      }
      if dir == boundary {
        return;
      }
      dir := Dirname(dir);
    }
    if IsWithin(boundary, cwd) {
      Inside(fs, cwd, boundary, dir, result);
    }
  }

  // ---- What there is to find, from the file system alone ----

  /** `roots` is every existing `node_modules` of the prefixes of `cwd` no shorter
      than `low`, deepest first. */
  ghost predicate IsWalk(fs: FileSystem, cwd: Path, low: nat, roots: seq<Path>) {
    && (forall p :: p in roots <==>
          p in fs.existing && exists n :: low <= n <= |cwd| && p == cwd[..n] + ["node_modules"])
    && forall i, j :: 0 <= i < j < |roots| ==> |roots[i]| > |roots[j]|
  }

  /** The segment of `cwd` below its first `low` starts with two dots. */
  predicate Dotted(cwd: Path, low: nat) {
    low < |cwd| && |cwd[low]| >= 2 && cwd[low][0] == '.' && cwd[low][1] == '.'
  }

  /** `roots` is what the local walk should find: from `cwd` up to its nearest `.git`
      ancestor or, without one, to home when that lies above; nothing when it does
      not, or when the segment below the boundary starts with two dots. */
  ghost predicate IsLocal(fs: FileSystem, cwd: Path, home: Path, roots: seq<Path>) {
    && (forall g :: 0 <= g <= |cwd| && cwd[..g] in fs.git && (forall n :: g < n <= |cwd| ==> cwd[..n] !in fs.git) ==>
          if Dotted(cwd, g) then roots == [] else IsWalk(fs, cwd, g, roots))
    && ((forall n :: 0 <= n <= |cwd| ==> cwd[..n] !in fs.git) ==>
          if !(home <= cwd) || Dotted(cwd, |home|) then roots == [] else IsWalk(fs, cwd, |home|, roots))
  }

  lemma BoundedWalk(fs: FileSystem, cwd: Path, boundary: Path)
    ensures var roots := if IsWithin(boundary, cwd) then Intended(fs, cwd, boundary) else [];
            if !(boundary <= cwd) || Dotted(cwd, |boundary|) then roots == []
            else IsWalk(fs, cwd, |boundary|, roots)
  {
    if boundary <= cwd {
      UpwardExact(fs, cwd, |boundary|);
      assert forall n | 0 <= n <= |cwd| :: Candidate(cwd[..n]) == cwd[..n] + ["node_modules"];
      if |boundary| < |cwd| {
        TwoDots(cwd[|boundary|]);
      }
    }
  }

  lemma TwoDots(segment: string)
    ensures StartsWithDots(segment) <==> |segment| >= 2 && segment[0] == '.' && segment[1] == '.'
  {
    if |segment| >= 2 {
      assert segment[..2] == [segment[0], segment[1]];
    }
  }

  /** The local walk finds just that, whatever home is where there is a `.git`. */
  lemma LocalIsLocal(fs: FileSystem, cwd: Path, home: Path)
    ensures IsLocal(fs, cwd, home, Local(fs, cwd, home))
  {
    hide IsWalk, IsWithin, Intended, Dotted;
    GitRootIsNearest(fs.git, cwd);
    BoundedWalk(fs, cwd, Boundary(fs, cwd, home));
    var git := GitRoot(fs.git, cwd);
    assert git.Some? ==> git.value == cwd[..|git.value|];
    forall g | 0 <= g <= |cwd| && cwd[..g] in fs.git && (forall n :: g < n <= |cwd| ==> cwd[..n] !in fs.git)
      ensures Boundary(fs, cwd, home) == cwd[..g]
    {
      NearestIs(fs.git, cwd, g);
    }
  }

  lemma NearestIs(git: set<Path>, cwd: Path, g: nat)
    requires g <= |cwd| && cwd[..g] in git && forall n :: g < n <= |cwd| ==> cwd[..n] !in git
    ensures GitRoot(git, cwd) == Some(cwd[..g])
  {
    GitRootIsNearest(git, cwd);
    var root := GitRoot(git, cwd).value;
    assert root == cwd[..|root|];
  }

  lemma LocalDistinct(fs: FileSystem, cwd: Path, home: Path)
    ensures forall i, j :: 0 <= i < j < |Local(fs, cwd, home)| ==> Local(fs, cwd, home)[i] != Local(fs, cwd, home)[j]
  {
    var boundary := Boundary(fs, cwd, home);
    if boundary <= cwd {
      UpwardExact(fs, cwd, |boundary|);
    }
  }

  /** All roots: local, then the CLI's own, then the global one, each that exists
      and only at its first place. */
  method ResolveRoots(fs: FileSystem, cwd: Path, home: Path, self: Option<Path>, global: Option<Path>)
    returns (result: seq<Path>)
    ensures forall i, j :: 0 <= i < j < |result| ==> result[i] != result[j]
    ensures var local := Local(fs, cwd, home);
            var own := if self.Some? && self.value in fs.existing && self.value !in local then [self.value] else [];
            result == local + own +
              if global.Some? && global.value in fs.existing && global.value !in local + own then [global.value] else []
    ensures exists k :: 0 <= k <= |result| && IsLocal(fs, cwd, home, result[..k]) &&
              forall p :: p in result[k..] ==> (self == Some(p) || global == Some(p)) && p in fs.existing
    ensures forall p :: p in result <==>
      p in Local(fs, cwd, home) || ((self == Some(p) || global == Some(p)) && p in fs.existing)
  {
    hide Local, IsLocal;
    result := LocalRoots(fs, cwd, home);
    ghost var local := result;
    LocalDistinct(fs, cwd, home);
    if self.Some? && self.value in fs.existing && self.value !in result {
      result := result + [self.value];
    }
    if global.Some? && global.value in fs.existing && global.value !in result {
      result := result + [global.value];
    }
    assert result[..|local|] == local;
  }

  /** The walk finds the existing `node_modules` of exactly the ancestors between
      `cwd` and the boundary, deepest first and so without duplicates. */
  lemma {:induction false} UpwardExact(fs: FileSystem, cwd: Path, low: nat)
    requires low <= |cwd|
    ensures forall p :: p in Upward(fs, cwd, low) <==>
      p in fs.existing && exists n | low <= n <= |cwd| :: p == Candidate(cwd[..n])
    ensures forall i, j :: 0 <= i < j < |Upward(fs, cwd, low)| ==> |Upward(fs, cwd, low)[i]| > |Upward(fs, cwd, low)[j]|
    decreases |cwd|
  {
    var head := Head(fs, cwd);
    assert cwd[..|cwd|] == cwd;
    if low < |cwd| {
      var up := Dirname(cwd);
      UpwardExact(fs, up, low);
      assert forall n | low <= n <= |up| :: up[..n] == cwd[..n];
      var rest := Upward(fs, up, low);
      assert Upward(fs, cwd, low) == head + rest;
      forall p
        ensures p in head + rest <==> p in fs.existing && exists n | low <= n <= |cwd| :: p == Candidate(cwd[..n])
      {
        if p in head {
          assert p == Candidate(cwd[..|cwd|]);
        }
        if p in rest {
          var n :| low <= n <= |up| && p == Candidate(up[..n]);
          assert p == Candidate(cwd[..n]);
        }
        if n :| low <= n <= |cwd| && p == Candidate(cwd[..n]) && p in fs.existing {
          assert n < |cwd| ==> p == Candidate(up[..n]);
        }
      }
      forall j | 0 <= j < |rest| ensures |rest[j]| < |Candidate(cwd)| {
        assert rest[j] in rest;
      }
    } else {
      assert Upward(fs, cwd, low) == head;
    }
  }

  /** The nearest one: a `.git` ancestor with none below it. */
  lemma {:induction false} GitRootIsNearest(git: set<Path>, dir: Path)
    ensures match GitRoot(git, dir)
            case None => forall n | 0 <= n <= |dir| :: dir[..n] !in git
            case Some(root) => root <= dir && root in git && forall n | |root| < n <= |dir| :: dir[..n] !in git
    decreases |dir|
  {
    assert dir[..|dir|] == dir;
    if dir !in git && dir != [] {
      GitRootIsNearest(git, Dirname(dir));
      assert forall n | 0 <= n < |dir| :: Dirname(dir)[..n] == dir[..n];
    }
  }

  /** The guard turns away one family it should not: below the boundary, a first
      segment that merely starts with two dots. Only then, and only when there was
      something to find, does the walk miss what it is for. */
  lemma DotsAreTheOnlyMiss(fs: FileSystem, cwd: Path, home: Path)
    ensures var boundary := Boundary(fs, cwd, home);
            Local(fs, cwd, home) == Intended(fs, cwd, boundary) <==>
            !(boundary < cwd && StartsWithDots(cwd[|boundary|]) &&
              exists n | |boundary| <= n <= |cwd| :: Candidate(cwd[..n]) in fs.existing)
  {
    var boundary := Boundary(fs, cwd, home);
    if boundary <= cwd {
      UpwardExact(fs, cwd, |boundary|);
      var found := Upward(fs, cwd, |boundary|);
      if found != [] {
        assert found[0] in found;
      }
      if n :| |boundary| <= n <= |cwd| && Candidate(cwd[..n]) in fs.existing {
        assert Candidate(cwd[..n]) in found;
      }
    }
  }

  /** Such a directory: a project kept in `..work` below its repository. */
  lemma DottedProjectIsMissed()
    ensures var fs := FileSystem({["repo"]}, {["repo", "..work", NODE_MODULES]});
            var cwd := ["repo", "..work"];
            Local(fs, cwd, []) == [] && Intended(fs, cwd, Boundary(fs, cwd, [])) != []
  {
    var fs := FileSystem({["repo"]}, {["repo", "..work", NODE_MODULES]});
    var cwd := ["repo", "..work"];
    assert Dirname(cwd) == ["repo"];
    assert GitRoot(fs.git, cwd) == GitRoot(fs.git, ["repo"]) == Some(["repo"]);
    assert Candidate(cwd) == ["repo", "..work", NODE_MODULES];
    assert Candidate(cwd) in fs.existing;
    assert "..work"[..2] == "..";
  }
}
