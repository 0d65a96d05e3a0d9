/** `discoverPlugins`: the first package, in root, scope and name order, for each
    allow-listed plugin ID. */
module PluginDiscovery {
  import opened Wrappers
  import opened JsStrings

  datatype Kind = Directory | SymbolicLink | OtherEntry

  datatype Main = NoMain | MainNotString | MainPath(path: string)

  datatype Package = Package(pluginId: Option<string>, main: Main, version: Option<string>, peerRange: Option<string>)

  /** `package.json`: missing, unreadable or unparsable, some other JSON value,
      or an object. An ID that is not a string counts as none. */
  datatype Manifest = Missing | Malformed | NotAnObject | Parsed(pkg: Package)

  datatype Entry = Entry(kind: Kind, manifest: Manifest)

  type Names = s: seq<JsString> | Distinct(s)

  /** `readdir` on a scope directory, in the file system's own order. */
  datatype ScopeDir = Absent | Unreadable | Listing(names: Names)

  datatype FileSystem = FileSystem(
    dirs: map<(string, string), ScopeDir>,
    entries: map<(string, string, JsString), Entry>)

  function NamesIn(fs: FileSystem, root: string, scope: string): Names {
    if (root, scope) in fs.dirs && fs.dirs[(root, scope)].Listing? then fs.dirs[(root, scope)].names else []
  }

  function EntryAt(fs: FileSystem, root: string, scope: string, name: JsString): Entry {
    if (root, scope, name) in fs.entries then fs.entries[(root, scope, name)] else Entry(OtherEntry, Missing)
  }

  /** A package that declares an allow-listed ID, with its place in the walk. */
  datatype Candidate = Candidate(root: nat, scope: nat, name: JsString, pluginId: string, pkg: Package)

  datatype Warning = Warning(candidate: Candidate, earlierName: JsString)

  datatype Walk = Walk(fs: FileSystem, roots: seq<string>, scopes: seq<string>, allowlist: seq<string>)

  // ---- What there is to find ----

  function PackageAt(w: Walk, r: nat, s: nat, name: JsString): Option<Package>
    requires r < |w.roots| && s < |w.scopes|
  {
    var entry := EntryAt(w.fs, w.roots[r], w.scopes[s], name);
    if entry.kind.OtherEntry? || !entry.manifest.Parsed? then None
    else Some(entry.manifest.pkg)
  }

  predicate Allowed(w: Walk, id: Option<string>) { id.Some? && id.value != "" && id.value in w.allowlist }

  predicate IsCandidate(w: Walk, c: Candidate) {
    && c.root < |w.roots| && c.scope < |w.scopes|
    && c.name in NamesIn(w.fs, w.roots[c.root], w.scopes[c.scope])
    && PackageAt(w, c.root, c.scope, c.name) == Some(c.pkg)
    && Allowed(w, c.pkg.pluginId) && c.pluginId == c.pkg.pluginId.value
  }

  predicate Precedes(a: Candidate, b: Candidate) {
    a.root < b.root || (a.root == b.root &&
    (a.scope < b.scope || (a.scope == b.scope && Less(a.name, b.name))))
  }

  // ---- The walk as a list ----

  /** The candidates among `names`, in that order. */
  function InScope(w: Walk, r: nat, s: nat, names: seq<JsString>): seq<Candidate>
    requires r < |w.roots| && s < |w.scopes|
  {
    if names == [] then []
    else
      var n := |names| - 1;
      var pkg := PackageAt(w, r, s, names[n]);
      InScope(w, r, s, names[..n]) +
      if pkg.Some? && Allowed(w, pkg.value.pluginId)
      then [Candidate(r, s, names[n], pkg.value.pluginId.value, pkg.value)] else []
  }

  function ScopeList(w: Walk, r: nat, s: nat): seq<Candidate>
    requires r < |w.roots| && s < |w.scopes|
  {
    InScope(w, r, s, Sort(NamesIn(w.fs, w.roots[r], w.scopes[s])))
  }

  /** The candidates of the roots before `r` and of its first `s` scopes. */
  function Visited(w: Walk, r: nat, s: nat): seq<Candidate>
    requires r <= |w.roots| && s <= |w.scopes| && (r == |w.roots| ==> s == 0)
    decreases r, s
  {
    if s > 0 then Visited(w, r, s - 1) + ScopeList(w, r, s - 1)
    else if r > 0 then VisitedRoots(w, r - 1)
    else []
  }

  function VisitedRoots(w: Walk, r: nat): seq<Candidate>
    requires r < |w.roots|
    decreases r, |w.scopes| + 1
  {
    Visited(w, r, |w.scopes|)
  }

  /** The first claimant of `id`. */
  function First(cs: seq<Candidate>, id: string): Option<Candidate> {
    if cs == [] then None
    else
      var first := First(cs[..|cs| - 1], id);
      if first.Some? then first
      else if cs[|cs| - 1].pluginId == id then Some(cs[|cs| - 1]) else None
  }

  function Winners(cs: seq<Candidate>): seq<Candidate> {
    if cs == [] then []
    else
      var n := |cs| - 1;
      Winners(cs[..n]) + if First(cs[..n], cs[n].pluginId).None? then [cs[n]] else []
  }

  /** One warning for each later claimant of an ID in one scope directory. */
  function Duplicates(cs: seq<Candidate>): seq<Warning> {
    if cs == [] then []
    else
      var n := |cs| - 1;
      var first := First(cs[..n], cs[n].pluginId);
      Duplicates(cs[..n]) + if first.Some? then [Warning(cs[n], first.value.name)] else []
  }

  function WarnedIn(w: Walk, r: nat, s: nat): seq<Warning>
    requires r <= |w.roots| && s <= |w.scopes| && (r == |w.roots| ==> s == 0)
    decreases r, s
  {
    if s > 0 then WarnedIn(w, r, s - 1) + Duplicates(ScopeList(w, r, s - 1))
    else if r > 0 then WarnedRoots(w, r - 1)
    else []
  }

  function WarnedRoots(w: Walk, r: nat): seq<Warning>
    requires r < |w.roots|
    decreases r, |w.scopes| + 1
  {
    WarnedIn(w, r, |w.scopes|)
  }

  function Discovered(w: Walk): seq<Candidate> { Winners(Visited(w, |w.roots|, 0)) }

  function Warnings(w: Walk): seq<Warning> { WarnedIn(w, |w.roots|, 0) }

  // ---- The walk as it runs ----

  lemma {:induction false} FirstFound(cs: seq<Candidate>, id: string)
    ensures match First(cs, id)
            case None => forall c <- cs :: c.pluginId != id
            case Some(f) => exists i :: 0 <= i < |cs| && cs[i] == f && f.pluginId == id &&
                                        forall j :: 0 <= j < i ==> cs[j].pluginId != id
  {
    if cs != [] {
      var front := cs[..|cs| - 1];
      FirstFound(front, id);
      assert cs == front + [cs[|cs| - 1]];
      if First(front, id).Some? {
        var i :| 0 <= i < |front| && front[i] == First(front, id).value && front[i].pluginId == id &&
                 forall j :: 0 <= j < i ==> front[j].pluginId != id;
        assert cs[i] == front[i];
        assert forall j :: 0 <= j < i ==> cs[j] == front[j];
      }
    }
  }

  lemma {:induction false} FirstAppend(a: seq<Candidate>, b: seq<Candidate>, id: string)
    ensures First(a + b, id) == if First(a, id).Some? then First(a, id) else First(b, id)
  {
    if b == [] {
      assert a + b == a;
    } else {
      assert (a + b)[..|a + b| - 1] == a + b[..|b| - 1];
      FirstAppend(a, b[..|b| - 1], id);
    }
  }

  method DiscoverPlugins(w: Walk) returns (found: seq<Candidate>, warnings: seq<Warning>)
    ensures found == Discovered(w) && warnings == Warnings(w)
  {
    found, warnings := [], [];
    var seenAcrossRoots: set<string> := {};
    for r := 0 to |w.roots|
      invariant found == Winners(Visited(w, r, 0)) && warnings == WarnedIn(w, r, 0)
      invariant forall id :: id in seenAcrossRoots <==> First(Visited(w, r, 0), id).Some?
    {
      for s := 0 to |w.scopes|
        invariant found == Winners(Visited(w, r, s)) && warnings == WarnedIn(w, r, s)
        invariant forall id :: id in seenAcrossRoots <==> First(Visited(w, r, s), id).Some?
      {
        found, warnings, seenAcrossRoots := ScanScope(w, r, s, found, warnings, seenAcrossRoots);
      }
      assert Visited(w, r + 1, 0) == Visited(w, r, |w.scopes|);
      assert WarnedIn(w, r + 1, 0) == WarnedIn(w, r, |w.scopes|);
    }
  }

  /** The body of the two outer loops. */
  method ScanScope(w: Walk, r: nat, s: nat, found0: seq<Candidate>, warnings0: seq<Warning>, seen0: set<string>)
    returns (found: seq<Candidate>, warnings: seq<Warning>, seenAcrossRoots: set<string>)
    requires r < |w.roots| && s < |w.scopes|
    requires found0 == Winners(Visited(w, r, s)) && warnings0 == WarnedIn(w, r, s)
    requires forall id :: id in seen0 <==> First(Visited(w, r, s), id).Some?
    ensures found == Winners(Visited(w, r, s + 1)) && warnings == WarnedIn(w, r, s + 1)
    ensures forall id :: id in seenAcrossRoots <==> First(Visited(w, r, s + 1), id).Some?
  {
    hide Winners, Duplicates, First, InScope, Visited, WarnedIn, PackageAt, Less;
    found, warnings, seenAcrossRoots := found0, warnings0, seen0;
    var entries := Sort(NamesIn(w.fs, w.roots[r], w.scopes[s]));
    ghost var before := Visited(w, r, s);
    ghost var here: seq<Candidate> := [];
    assert before + here == before;
    NothingYet(w, r, s);
    var seenInThisScope: map<string, JsString> := map[];
    for i := 0 to |entries|
      invariant here == InScope(w, r, s, entries[..i])
      invariant found == Winners(before + here) && warnings == warnings0 + Duplicates(here)
      invariant forall id :: id in seenAcrossRoots <==> First(before + here, id).Some?
      invariant forall id :: id in seenInThisScope <==> First(here, id).Some?
      invariant forall id <- seenInThisScope :: seenInThisScope[id] == First(here, id).value.name
    {
      InScopeStep(w, r, s, entries, i);
      var pkg := PackageAt(w, r, s, entries[i]);
      if pkg.None? || !Allowed(w, pkg.value.pluginId) {
        continue;
      }
      var pluginId := pkg.value.pluginId.value;
      var c := Candidate(r, s, entries[i], pluginId, pkg.value);
      Grow(before, here, c);
      here := here + [c];
      if pluginId in seenInThisScope {
        warnings := warnings + [Warning(c, seenInThisScope[pluginId])];
        continue;
      }
      seenInThisScope := seenInThisScope[pluginId := entries[i]];
      if pluginId in seenAcrossRoots {
        continue;
      }
      seenAcrossRoots := seenAcrossRoots + {pluginId};
      found := found + [c];
    }
    assert entries[..|entries|] == entries;
    ScopeDone(w, r, s);
  }

  lemma NothingYet(w: Walk, r: nat, s: nat)
    requires r < |w.roots| && s < |w.scopes|
    ensures InScope(w, r, s, []) == [] && Duplicates([]) == [] && forall id :: First([], id).None?
  {}

  lemma InScopeStep(w: Walk, r: nat, s: nat, names: seq<JsString>, i: nat)
    requires r < |w.roots| && s < |w.scopes| && i < |names|
    ensures var pkg := PackageAt(w, r, s, names[i]);
            InScope(w, r, s, names[..i + 1]) == InScope(w, r, s, names[..i]) +
            if pkg.Some? && Allowed(w, pkg.value.pluginId)
            then [Candidate(r, s, names[i], pkg.value.pluginId.value, pkg.value)] else []
  {
    assert names[..i + 1][..i] == names[..i];
  }

  lemma ScopeDone(w: Walk, r: nat, s: nat)
    requires r < |w.roots| && s < |w.scopes|
    ensures Visited(w, r, s + 1) == Visited(w, r, s) + ScopeList(w, r, s)
    ensures WarnedIn(w, r, s + 1) == WarnedIn(w, r, s) + Duplicates(ScopeList(w, r, s))
  {}

  /** One more candidate, for each of the tables. */
  lemma Grow(before: seq<Candidate>, here: seq<Candidate>, c: Candidate)
    ensures var cs := here + [c];
            && Winners(before + cs) ==
               Winners(before + here) + (if First(before + here, c.pluginId).None? then [c] else [])
            && Duplicates(cs) == Duplicates(here) +
               (if First(here, c.pluginId).Some? then [Warning(c, First(here, c.pluginId).value.name)] else [])
            && (forall id :: First(before + cs, id) ==
                  if First(before + here, id).Some? then First(before + here, id)
                  else if c.pluginId == id then Some(c) else None)
            && (forall id :: First(cs, id) ==
                  if First(here, id).Some? then First(here, id)
                  else if c.pluginId == id then Some(c) else None)
    ensures First(here, c.pluginId).Some? ==> First(before + here, c.pluginId).Some?
  {
    assert (here + [c])[..|here|] == here;
    assert before + (here + [c]) == (before + here) + [c];
    assert ((before + here) + [c])[..|before + here|] == before + here;
    FirstAppend(before, here, c.pluginId);
  }

  // ---- What the walk finds ----

  ghost predicate InOrder(cs: seq<Candidate>) {
    forall i, j :: 0 <= i < j < |cs| ==> Precedes(cs[i], cs[j])
  }

  lemma PrecedesOrders(a: Candidate, b: Candidate)
    ensures !(Precedes(a, b) && Precedes(b, a)) && !Precedes(a, a)
    ensures Precedes(a, b) || Precedes(b, a) || (a.root == b.root && a.scope == b.scope && a.name == b.name)
  {
    LessTotal(a.name, b.name);
    LessIrreflexive(a.name);
    if Less(a.name, b.name) && Less(b.name, a.name) {
      LessTransitive(a.name, b.name, a.name);
    }
  }

  ghost predicate InScopeOf(w: Walk, r: nat, s: nat, names: seq<JsString>, c: Candidate)
    requires r < |w.roots| && s < |w.scopes|
  {
    c.root == r && c.scope == s && c.name in names && PackageAt(w, r, s, c.name) == Some(c.pkg) &&
    Allowed(w, c.pkg.pluginId) && c.pluginId == c.pkg.pluginId.value
  }

  lemma {:induction false} InScopeExact(w: Walk, r: nat, s: nat, names: seq<JsString>)
    requires r < |w.roots| && s < |w.scopes| && StrictlySorted(names)
    ensures InOrder(InScope(w, r, s, names))
    ensures forall c :: c in InScope(w, r, s, names) <==> InScopeOf(w, r, s, names, c)
  {
    if names != [] {
      var n := |names| - 1;
      InScopeExact(w, r, s, names[..n]);
      var front := InScope(w, r, s, names[..n]);
      assert names == names[..n] + [names[n]];
      assert forall x :: x in names <==> x in names[..n] || x == names[n];
      forall i | 0 <= i < |front| ensures front[i].root == r && front[i].scope == s && Less(front[i].name, names[n]) {
        assert front[i] in front;
      }
    }
  }

  lemma ScopeExact(w: Walk, r: nat, s: nat)
    requires r < |w.roots| && s < |w.scopes|
    ensures InOrder(ScopeList(w, r, s))
    ensures forall c :: c in ScopeList(w, r, s) <==> IsCandidate(w, c) && c.root == r && c.scope == s
  {
    hide Less, InScope;
    var names := Sort(NamesIn(w.fs, w.roots[r], w.scopes[s]));
    InScopeExact(w, r, s, names);
    forall c
      ensures c in ScopeList(w, r, s) <==> IsCandidate(w, c) && c.root == r && c.scope == s
    {
      assert c in ScopeList(w, r, s) <==> InScopeOf(w, r, s, names, c);
    }
  }

  /** The list of the walk is every candidate, in order. */
  lemma {:induction false} VisitedExact(w: Walk, r: nat, s: nat)
    requires r <= |w.roots| && s <= |w.scopes| && (r == |w.roots| ==> s == 0)
    ensures InOrder(Visited(w, r, s))
    ensures forall c :: c in Visited(w, r, s) <==>
      IsCandidate(w, c) && (c.root < r || (c.root == r && c.scope < s))
    decreases r, s
  {
    if s > 0 {
      VisitedExact(w, r, s - 1);
      var front, here := Visited(w, r, s - 1), ScopeList(w, r, s - 1);
      ScopeExact(w, r, s - 1);
      hide IsCandidate, Less;
      forall i, j | 0 <= i < |front| && 0 <= j < |here| ensures Precedes(front[i], here[j]) {
        assert front[i] in front && here[j] in here;
      }
    } else if r > 0 {
      VisitedExact(w, r - 1, |w.scopes|);
    }
  }

  /** `c` is in the list, and first among those with its ID. */
  ghost predicate LeastIn(cs: seq<Candidate>, c: Candidate) {
    c in cs && forall d <- cs :: d.pluginId == c.pluginId ==> d == c || Precedes(c, d)
  }

  lemma NextWinner(front: seq<Candidate>, last: Candidate, c: Candidate)
    requires InOrder(front + [last])
    ensures LeastIn(front + [last], c) <==>
      LeastIn(front, c) || (c == last && First(front, last.pluginId).None?)
  {
    hide Precedes, First;
    var cs := front + [last];
    FirstFound(front, last.pluginId);
    forall d <- front ensures Precedes(d, last) && !Precedes(last, d) && d != last {
      var i :| 0 <= i < |front| && front[i] == d;
      assert cs[i] == d && cs[|front|] == last;
      PrecedesOrders(d, last);
    }
  }

  lemma {:induction false} WinnersExact(cs: seq<Candidate>)
    requires InOrder(cs)
    ensures InOrder(Winners(cs))
    ensures forall c :: c in Winners(cs) <==> LeastIn(cs, c)
  {
    hide Precedes, First, LeastIn;
    if cs == [] {
      NoneLeast();
    } else {
      var n := |cs| - 1;
      var front, last := cs[..n], cs[n];
      assert cs == front + [last];
      WinnersExact(front);
      forall c
        ensures c in Winners(cs) <==> LeastIn(cs, c)
      {
        NextWinner(front, last, c);
      }
      var won := Winners(front);
      forall i | 0 <= i < |won| ensures Precedes(won[i], last) {
        assert won[i] in won;
        LeastOccurs(front, won[i]);
        var k :| 0 <= k < n && front[k] == won[i];
        assert Precedes(cs[k], cs[n]);
      }
    }
  }

  lemma NoneLeast()
    ensures forall c :: !LeastIn([], c)
  {}

  lemma LeastOccurs(cs: seq<Candidate>, c: Candidate)
    requires LeastIn(cs, c)
    ensures c in cs
  {}

  /** No candidate with the same ID comes before `c`. */
  ghost predicate IsLeast(w: Walk, c: Candidate) {
    IsCandidate(w, c) && forall d :: IsCandidate(w, d) && d.pluginId == c.pluginId ==> d == c || Precedes(c, d)
  }

  lemma FoundIsLeast(w: Walk, c: Candidate)
    ensures c in Discovered(w) <==> IsLeast(w, c)
  {
    hide Visited, Winners, IsCandidate, Precedes;
    var all := Visited(w, |w.roots|, 0);
    AllCandidates(w);
    WinnersExact(all);
    assert IsCandidate(w, c) <==> c in all;
    if c in all && c !in Discovered(w) {
      var d :| d in all && d.pluginId == c.pluginId && d != c && !Precedes(c, d);
      assert IsCandidate(w, d);
    }
  }

  lemma FoundForEach(w: Walk, c: Candidate) returns (f: Candidate)
    requires IsCandidate(w, c)
    ensures f in Discovered(w) && f.pluginId == c.pluginId
  {
    hide Visited, Winners, IsCandidate, Precedes, First;
    var all := Visited(w, |w.roots|, 0);
    AllCandidates(w);
    WinnersExact(all);
    assert c in all;
    FirstFound(all, c.pluginId);
    var i :| 0 <= i < |all| && all[i].pluginId == c.pluginId &&
             forall j :: 0 <= j < i ==> all[j].pluginId != c.pluginId;
    f := all[i];
    forall d <- all ensures d.pluginId == f.pluginId ==> d == f || Precedes(f, d) {
      var j :| 0 <= j < |all| && all[j] == d;
    }
  }

  /** One result for each allow-listed ID that occurs anywhere: the candidate that
      is least in root order, then scope order, then name order. */
  lemma DiscoveryIsLeast(w: Walk)
    ensures InOrder(Discovered(w))
    ensures forall c :: c in Discovered(w) <==> IsLeast(w, c)
    ensures forall i, j :: 0 <= i < j < |Discovered(w)| ==> Discovered(w)[i].pluginId != Discovered(w)[j].pluginId
    ensures forall c :: IsCandidate(w, c) ==> exists f <- Discovered(w) :: f.pluginId == c.pluginId
  {
    hide Discovered, IsCandidate, Precedes;
    var found := Discovered(w);
    FoundInOrder(w);
    forall c
      ensures c in found <==> IsLeast(w, c)
      ensures IsCandidate(w, c) ==> exists f <- found :: f.pluginId == c.pluginId
    {
      FoundIsLeast(w, c);
      if IsCandidate(w, c) {
        var f := FoundForEach(w, c);
      }
    }
    forall i, j | 0 <= i < j < |found| ensures found[i].pluginId != found[j].pluginId {
      assert found[i] in found && found[j] in found;
      PrecedesOrders(found[i], found[j]);
    }
  }

  lemma FoundInOrder(w: Walk)
    ensures InOrder(Discovered(w))
  {
    AllCandidates(w);
    WinnersExact(Visited(w, |w.roots|, 0));
  }

  lemma AllCandidates(w: Walk)
    ensures InOrder(Visited(w, |w.roots|, 0))
    ensures forall c :: IsCandidate(w, c) <==> c in Visited(w, |w.roots|, 0)
  {
    VisitedExact(w, |w.roots|, 0);
  }

  /** `c` claims an ID that `d`, before it in the same scope directory, claims. */
  predicate Repeats(c: Candidate, d: Candidate) {
    d.root == c.root && d.scope == c.scope && d.pluginId == c.pluginId && Less(d.name, c.name)
  }

  /** The first package in `c`'s scope directory to claim its ID. */
  ghost predicate Earliest(cs: seq<Candidate>, c: Candidate, d: Candidate) {
    d in cs && Repeats(c, d) && forall e <- cs :: Repeats(c, e) ==> e == d || Less(d.name, e.name)
  }

  ghost predicate OneScope(cs: seq<Candidate>) {
    forall i, j :: 0 <= i < j < |cs| ==>
      cs[i].root == cs[j].root && cs[i].scope == cs[j].scope && Less(cs[i].name, cs[j].name)
  }

  lemma LessAsymmetric(a: JsString, b: JsString)
    ensures !(Less(a, b) && Less(b, a))
  {
    if Less(a, b) && Less(b, a) {
      LessTransitive(a, b, a);
      LessIrreflexive(a);
    }
  }

  lemma EarliestIsFirst(cs: seq<Candidate>, last: Candidate, d: Candidate)
    requires OneScope(cs + [last])
    ensures Earliest(cs + [last], last, d) <==> First(cs, last.pluginId) == Some(d)
  {
    hide Less, First;
    FirstFound(cs, last.pluginId);
    LessIrreflexive(last.name);
    forall i | 0 <= i < |cs| ensures cs[i].pluginId == last.pluginId ==> Repeats(last, cs[i]) {
      assert (cs + [last])[i] == cs[i] && (cs + [last])[|cs|] == last;
    }
    if First(cs, last.pluginId).Some? {
      var f := First(cs, last.pluginId).value;
      var i :| 0 <= i < |cs| && cs[i] == f && forall j :: 0 <= j < i ==> cs[j].pluginId != last.pluginId;
      forall j | i < j < |cs| ensures Less(f.name, cs[j].name) {
        assert (cs + [last])[i] == f && (cs + [last])[j] == cs[j];
      }
      assert Earliest(cs + [last], last, f);
      LessAsymmetric(f.name, d.name);
    }
  }

  lemma EarliestInFront(cs: seq<Candidate>, last: Candidate, c: Candidate, d: Candidate)
    requires OneScope(cs + [last]) && c in cs
    ensures Earliest(cs + [last], c, d) <==> Earliest(cs, c, d)
  {
    var i :| 0 <= i < |cs| && cs[i] == c;
    assert (cs + [last])[i] == c && (cs + [last])[|cs|] == last;
    LessAsymmetric(c.name, last.name);
    assert !Repeats(c, last);
    assert forall e :: e in cs + [last] <==> e in cs || e == last;
  }

  /** No claimant is warned about twice. */
  ghost predicate OneEach(ws: seq<Warning>) {
    forall i, j :: 0 <= i < j < |ws| ==> Precedes(ws[i].candidate, ws[j].candidate)
  }

  /** A later claimant, and the name it is told is there already. */
  ghost predicate IsWarned(cs: seq<Candidate>, x: Warning) {
    x.candidate in cs && exists d :: Earliest(cs, x.candidate, d) && d.name == x.earlierName
  }

  lemma {:induction false} DuplicatesExact(cs: seq<Candidate>)
    requires OneScope(cs)
    ensures forall x :: x in Duplicates(cs) <==> IsWarned(cs, x)
    ensures OneEach(Duplicates(cs))
  {
    if cs != [] {
      var n := |cs| - 1;
      var front, last := cs[..n], cs[n];
      assert cs == front + [last];
      DuplicatesExact(front);
      forall x
        ensures x in Duplicates(cs) <==> IsWarned(cs, x)
      {
        NextWarning(front, last, x);
      }
      forall i | 0 <= i < |Duplicates(front)| ensures Precedes(Duplicates(front)[i].candidate, last) {
        assert Duplicates(front)[i] in Duplicates(front);
        var k :| 0 <= k < |front| && front[k] == Duplicates(front)[i].candidate;
        assert cs[k] == front[k] && cs[n] == last;
      }
    }
  }

  lemma NextWarning(front: seq<Candidate>, last: Candidate, x: Warning)
    requires OneScope(front + [last])
    ensures IsWarned(front + [last], x) <==>
      IsWarned(front, x) ||
      (First(front, last.pluginId).Some? && x == Warning(last, First(front, last.pluginId).value.name))
  {
    hide Less, First;
    var cs := front + [last];
    assert cs[|front|] == last;
    LessIrreflexive(last.name);
    forall i | 0 <= i < |front| ensures front[i] != last {
      assert Less(cs[i].name, cs[|front|].name);
    }
    forall d
      ensures x.candidate in front ==> (Earliest(cs, x.candidate, d) <==> Earliest(front, x.candidate, d))
      ensures x.candidate == last ==> (Earliest(cs, x.candidate, d) <==> First(front, last.pluginId) == Some(d))
    {
      if x.candidate in front {
        EarliestInFront(front, last, x.candidate, d);
      }
      EarliestIsFirst(front, last, d);
    }
  }

  /** `x` names a later claimant of an ID in one root and scope, and the first. */
  ghost predicate ShouldWarn(w: Walk, x: Warning) {
    && IsCandidate(w, x.candidate)
    && exists d :: IsCandidate(w, d) && Repeats(x.candidate, d) && d.name == x.earlierName &&
                   forall e :: IsCandidate(w, e) && Repeats(x.candidate, e) ==> e == d || Less(d.name, e.name)
  }

  lemma ScopeWarnings(w: Walk, r: nat, s: nat, x: Warning)
    requires r < |w.roots| && s < |w.scopes|
    ensures x in Duplicates(ScopeList(w, r, s)) <==>
      ShouldWarn(w, x) && x.candidate.root == r && x.candidate.scope == s
    ensures OneEach(Duplicates(ScopeList(w, r, s)))
  {
    hide Less, Duplicates, InScope, Sort;
    var cs := ScopeList(w, r, s);
    ScopeIsOne(w, r, s);
    DuplicatesExact(cs);
    assert forall c :: c in cs <==> IsCandidate(w, c) && c.root == r && c.scope == s;
    if x.candidate in cs {
      forall d
        ensures Earliest(cs, x.candidate, d) <==>
          IsCandidate(w, d) && Repeats(x.candidate, d) &&
          forall e :: IsCandidate(w, e) && Repeats(x.candidate, e) ==> e == d || Less(d.name, e.name)
      {
        hide IsCandidate;
        if Earliest(cs, x.candidate, d) {
          forall e | IsCandidate(w, e) && Repeats(x.candidate, e) ensures e == d || Less(d.name, e.name) {
            assert e in cs;
          }
        }
      }
    }
  }

  lemma ScopeIsOne(w: Walk, r: nat, s: nat)
    requires r < |w.roots| && s < |w.scopes|
    ensures OneScope(ScopeList(w, r, s))
    ensures forall c :: c in ScopeList(w, r, s) <==> IsCandidate(w, c) && c.root == r && c.scope == s
  {
    hide Less, InScope;
    var cs := ScopeList(w, r, s);
    ScopeExact(w, r, s);
    forall i, j | 0 <= i < j < |cs|
      ensures cs[i].root == cs[j].root && cs[i].scope == cs[j].scope && Less(cs[i].name, cs[j].name)
    {
      assert cs[i] in cs && cs[j] in cs;
    }
  }

  lemma {:induction false} WarnedExact(w: Walk, r: nat, s: nat)
    requires r <= |w.roots| && s <= |w.scopes| && (r == |w.roots| ==> s == 0)
    ensures OneEach(WarnedIn(w, r, s))
    ensures forall x :: x in WarnedIn(w, r, s) <==>
      ShouldWarn(w, x) && (x.candidate.root < r || (x.candidate.root == r && x.candidate.scope < s))
    decreases r, s
  {
    hide IsCandidate, Less, Duplicates, ScopeList;
    if s > 0 {
      WarnedExact(w, r, s - 1);
      var front, here := WarnedIn(w, r, s - 1), Duplicates(ScopeList(w, r, s - 1));
      forall x
        ensures x in here <==> ShouldWarn(w, x) && x.candidate.root == r && x.candidate.scope == s - 1
        ensures OneEach(here)
      {
        ScopeWarnings(w, r, s - 1, x);
      }
      forall i, j | 0 <= i < |front| && 0 <= j < |here| ensures Precedes(front[i].candidate, here[j].candidate) {
        assert front[i] in front && here[j] in here;
      }
    } else if r > 0 {
      WarnedExact(w, r - 1, |w.scopes|);
      forall x | ShouldWarn(w, x) ensures x.candidate.scope < |w.scopes| {
        CandidateInRange(w, x.candidate);
      }
    }
  }

  lemma CandidateInRange(w: Walk, c: Candidate)
    requires IsCandidate(w, c)
    ensures c.root < |w.roots| && c.scope < |w.scopes|
  {}

  /** A warning for exactly each later claimant in the same root and scope. */
  lemma WarningsAreTheDuplicates(w: Walk)
    ensures OneEach(Warnings(w))
    ensures forall x :: x in Warnings(w) <==> ShouldWarn(w, x)
  {
    hide IsCandidate, WarnedIn;
    WarnedExact(w, |w.roots|, 0);
    forall x | ShouldWarn(w, x) ensures x.candidate.root < |w.roots| {
      CandidateInRange(w, x.candidate);
    }
  }

  // ---- The order of readdir ----

  /** The same file system, up to the order in which directories are listed. */
  ghost predicate SameUpToOrder(f: FileSystem, g: FileSystem) {
    f.entries == g.entries &&
    forall root, scope, name :: name in NamesIn(f, root, scope) <==> name in NamesIn(g, root, scope)
  }

  lemma {:induction false} SameInScope(w: Walk, v: Walk, r: nat, s: nat, names: seq<JsString>)
    requires w.fs.entries == v.fs.entries && w == v.(fs := w.fs) && r < |w.roots| && s < |w.scopes|
    ensures InScope(w, r, s, names) == InScope(v, r, s, names)
  {
    if names != [] {
      SameInScope(w, v, r, s, names[..|names| - 1]);
    }
  }

  lemma {:induction false} SameVisited(w: Walk, v: Walk, r: nat, s: nat)
    requires SameUpToOrder(w.fs, v.fs) && w == v.(fs := w.fs)
    requires r <= |w.roots| && s <= |w.scopes| && (r == |w.roots| ==> s == 0)
    ensures Visited(w, r, s) == Visited(v, r, s) && WarnedIn(w, r, s) == WarnedIn(v, r, s)
    decreases r, s
  {
    hide Less, InScope;
    if s > 0 {
      SameVisited(w, v, r, s - 1);
      var a, b := NamesIn(w.fs, w.roots[r], w.scopes[s - 1]), NamesIn(v.fs, w.roots[r], w.scopes[s - 1]);
      SortedUnique(Sort(a), Sort(b));
      SameInScope(w, v, r, s - 1, Sort(a));
    } else if r > 0 {
      SameVisited(w, v, r - 1, |w.scopes|);
    }
  }

  /** Neither results nor warnings depend on the order `readdir` returns. */
  lemma ReaddirOrderIsIrrelevant(w: Walk, v: Walk)
    requires SameUpToOrder(w.fs, v.fs) && w == v.(fs := w.fs)
    ensures Discovered(w) == Discovered(v) && Warnings(w) == Warnings(v)
  {
    SameVisited(w, v, |w.roots|, 0);
  }

  // ---- From the file system alone ----

  /** A directory or link in a listed scope whose `package.json` is an object with a
      string ID that is not empty and allow-listed. */
  predicate Claims(w: Walk, c: Candidate) {
    && c.root < |w.roots| && c.scope < |w.scopes|
    && var root, scope := w.roots[c.root], w.scopes[c.scope];
    && (root, scope) in w.fs.dirs && w.fs.dirs[(root, scope)].Listing?
    && c.name in w.fs.dirs[(root, scope)].names && (root, scope, c.name) in w.fs.entries
    && var entry := w.fs.entries[(root, scope, c.name)];
    && entry.kind in {Directory, SymbolicLink} && entry.manifest == Parsed(c.pkg)
    && c.pkg.pluginId == Some(c.pluginId) && c.pluginId != "" && c.pluginId in w.allowlist
  }

  /** By root, then by scope, then by name. */
  predicate ComesFirst(a: Candidate, b: Candidate) {
    if a.root != b.root then a.root < b.root
    else if a.scope != b.scope then a.scope < b.scope
    else Less(a.name, b.name)
  }

  lemma OnDisk(w: Walk)
    ensures forall c :: IsCandidate(w, c) <==> Claims(w, c)
    ensures forall a, b :: Precedes(a, b) <==> ComesFirst(a, b)
  {}

  /** What `discoverPlugins` returns, read off the directories and manifests: for each
      ID that is claimed the first claim, and the results in that order. */
  lemma DiscoveryOnDisk(w: Walk)
    ensures forall c :: c in Discovered(w) <==>
      Claims(w, c) && forall d :: Claims(w, d) && d.pluginId == c.pluginId ==> d == c || ComesFirst(c, d)
    ensures forall i, j :: 0 <= i < j < |Discovered(w)| ==> ComesFirst(Discovered(w)[i], Discovered(w)[j])
  {
    hide Discovered, IsCandidate, Claims, Precedes, ComesFirst;
    OnDisk(w);
    DiscoveryIsLeast(w);
    forall c
      ensures IsLeast(w, c) <==>
        Claims(w, c) && forall d :: Claims(w, d) && d.pluginId == c.pluginId ==> d == c || ComesFirst(c, d)
    {}
  }

  /** `d` claims the ID of `c` in the same directory, under an earlier name. */
  predicate ClaimsBefore(w: Walk, c: Candidate, d: Candidate) {
    Claims(w, d) && d.root == c.root && d.scope == c.scope && d.pluginId == c.pluginId && Less(d.name, c.name)
  }

  /** And what it warns about: each claim that is not the first in its directory,
      with the name of the first. */
  lemma WarningsOnDisk(w: Walk)
    ensures forall x :: x in Warnings(w) <==>
      && Claims(w, x.candidate)
      && exists d :: ClaimsBefore(w, x.candidate, d) && d.name == x.earlierName &&
                     forall e :: ClaimsBefore(w, x.candidate, e) ==> e == d || Less(d.name, e.name)
  {
    hide Warnings, IsCandidate, Claims, Less;
    OnDisk(w);
    WarningsAreTheDuplicates(w);
    forall x
      ensures ShouldWarn(w, x) <==>
        && Claims(w, x.candidate)
        && exists d :: ClaimsBefore(w, x.candidate, d) && d.name == x.earlierName &&
                       forall e :: ClaimsBefore(w, x.candidate, e) ==> e == d || Less(d.name, e.name)
    {
      forall d ensures ClaimsBefore(w, x.candidate, d) <==> IsCandidate(w, d) && Repeats(x.candidate, d) {}
    }
  }
}
