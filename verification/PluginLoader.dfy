/** `loadPlugins`, `registerMissingStubs` and the diagnostics, over one discovery. */
module PluginLoader {
  import opened Wrappers
  import opened Commander
  import opened PluginPatch
  import opened PluginNamespace
  import opened PluginDiscovery

  datatype KnownPlugin = KnownPlugin(id: string, helpGroup: Option<HelpGroup>, stub: Option<seq<string>>)

  /** What importing an entry file yields: nothing, a module without `register`,
      or one whose `register` makes some calls and then returns or throws; it
      also throws when one of the calls does. */
  datatype Module = ImportFails | NoRegister | Registers(calls: seq<Call>, completes: bool)

  /** What the loader asks of the outside world about a discovered package. */
  datatype Host = Host(
    satisfies: string -> bool,        // the CLI's version is in a peer range
    entryIsInside: Candidate -> bool,
    entryExists: Candidate -> bool,
    imported: Candidate -> Module)

  predicate PeerCompatible(h: Host, range: Option<string>) {
    range.None? || range.value == "" || h.satisfies(range.value)
  }

  // ---- Loading ----

  function GroupOf(registry: seq<KnownPlugin>, id: string): Option<HelpGroup> {
    if registry == [] then None
    else if registry[0].id == id then registry[0].helpGroup
    else GroupOf(registry[1..], id)
  }

  /** Tag the commands from `n` on. */
  function Tagged(p: Program, n: nat, group: Option<HelpGroup>): (r: Program)
    ensures |r| == |p|
  {
    seq(|p|, (i: nat) requires i < |p| => if i < n || group.None? then p[i] else p[i].(group := group))
  }

  predicate Importable(h: Host, c: Candidate) {
    && PeerCompatible(h, c.pkg.peerRange) && !c.pkg.main.MainNotString?
    && h.entryIsInside(c) && h.entryExists(c) && h.imported(c).Registers?
  }

  /** The program after `c`'s turn; a `register` that throws leaves what it added. */
  function Loaded(h: Host, registry: seq<KnownPlugin>, p: Program, c: Candidate): (Program, bool) {
    if !Importable(h, c) then (p, false)
    else
      var (registered, returned) := PatchedRun(StartPatch(p), h.imported(c).calls);
      if !returned || !h.imported(c).completes then (registered.program, false)
      else (Tagged(registered.program, |p|, GroupOf(registry, c.pluginId)), true)
  }

  ghost predicate IsFirstEntry(registry: seq<KnownPlugin>, i: nat, id: string) {
    i < |registry| && registry[i].id == id && forall k :: 0 <= k < i ==> registry[k].id != id
  }

  /** `now` is `run` with every command that is not among those of `was` in
      `group`, where there is one. */
  ghost predicate OnlyTagged(was: Program, run: Program, now: Program, group: Option<HelpGroup>) {
    && |now| == |run| && was <= now
    && forall j :: |was| <= j < |now| ==>
         now[j] == Command(run[j].name, run[j].aliases, run[j].hidden, if group.Some? then group else run[j].group)
  }

  /** One plugin's turn, from `was` to `now`. It loads when the range admits the CLI,
      the entry is a string or absent, lies inside the package and exists, the
      module has a `register`, and that returns. Then exactly the commands it added
      are in the group of the first entry with its ID; otherwise nothing is tagged. */
  ghost predicate TakesTurn(h: Host, registry: seq<KnownPlugin>, was: Program, c: Candidate, now: Program, ok: bool) {
    var range, module_ := c.pkg.peerRange, h.imported(c);
    var open := (range.Some? && range.value != "" ==> h.satisfies(range.value)) && !c.pkg.main.MainNotString? &&
                h.entryIsInside(c) && h.entryExists(c) && module_.Registers?;
    if !open then now == was && !ok
    else
      var (run, returned) := PatchedRun(StartPatch(was), module_.calls);
      && (ok <==> returned && module_.completes)
      && (!ok ==> now == run.program && was <= now)
      && (ok ==> forall i: nat :: IsFirstEntry(registry, i, c.pluginId) ==>
                   OnlyTagged(was, run.program, now, registry[i].helpGroup))
      && (ok && (forall k <- registry :: k.id != c.pluginId) ==> OnlyTagged(was, run.program, now, None))
  }

  lemma {:induction false} GroupOfFirst(registry: seq<KnownPlugin>, id: string)
    ensures forall i: nat :: IsFirstEntry(registry, i, id) ==> GroupOf(registry, id) == registry[i].helpGroup
    ensures (forall k <- registry :: k.id != id) ==> GroupOf(registry, id) == None
  {
    if registry != [] && registry[0].id != id {
      var rest := registry[1..];
      GroupOfFirst(rest, id);
      forall i: nat | IsFirstEntry(registry, i, id) ensures GroupOf(registry, id) == registry[i].helpGroup {
        assert forall k :: 0 <= k < i - 1 ==> rest[k] == registry[k + 1];
        assert IsFirstEntry(rest, i - 1, id);
      }
    }
  }

  lemma LoadedTakesTurn(h: Host, registry: seq<KnownPlugin>, p: Program, c: Candidate)
    ensures var (now, ok) := Loaded(h, registry, p, c); TakesTurn(h, registry, p, c, now, ok)
  {
    hide PatchedRun, GroupOf;
    if h.imported(c).Registers? {
      OldCommandsStay(StartPatch(p), p, h.imported(c).calls);
      GroupOfFirst(registry, c.pluginId);
    }
  }

  function LoadedAll(h: Host, registry: seq<KnownPlugin>, p: Program, found: seq<Candidate>): (Program, set<string>) {
    if found == [] then (p, {})
    else
      var n := |found| - 1;
      var (before, ids) := LoadedAll(h, registry, p, found[..n]);
      var (after, ok) := Loaded(h, registry, before, found[n]);
      (after, if ok then ids + {found[n].pluginId} else ids)
  }

  // ---- Stubs ----

  /** The stubs' commands that are not taken; Commander does not throw on them. */
  function Stubbed(p: Program, names: seq<string>, group: Option<HelpGroup>): Program
    decreases |names|
  {
    if names == [] then p
    else if names[0] in AllNames(p) then Stubbed(p, names[1..], group)
    else Stubbed(p + [Command(names[0], [], false, group)], names[1..], group)
  }

  /** A command from the `n`th on has this name. */
  ghost predicate Has(p: Program, n: nat, name: string) { exists j :: n <= j < |p| && p[j].name == name }

  /** `now` is `was` and then exactly the free ones of `names`, each once, without
      aliases, and all of `names` are in use. */
  ghost predicate AddsFree(names: seq<string>, hidden: bool, group: Option<HelpGroup>, was: Program, now: Program) {
    && was <= now
    && (forall n <- names :: n in AllNames(now))
    && (forall j :: |was| <= j < |now| ==>
          && now[j].name in names && now[j].name !in AllNames(was)
          && now[j] == Command(now[j].name, [], hidden, group))
    && (forall n <- names :: n !in AllNames(was) ==> Has(now, |was|, n))
    && (forall i, j :: |was| <= i < j < |now| ==> now[i].name != now[j].name)
  }

  lemma NoneToAdd(hidden: bool, group: Option<HelpGroup>, p: Program)
    ensures AddsFree([], hidden, group, p, p)
  {}

  lemma FirstInUse(
      first: string, rest: seq<string>, hidden: bool, group: Option<HelpGroup>, p: Program, now: Program)
    requires AddsFree(rest, hidden, group, p, now) && first in AllNames(p) && AllNames(p) <= AllNames(now)
    ensures AddsFree([first] + rest, hidden, group, p, now)
  {
    hide AllNames, Has;
    assert forall n :: n in [first] + rest <==> n == first || n in rest;
  }

  lemma FirstIsAdded(
      first: string, rest: seq<string>, hidden: bool, group: Option<HelpGroup>, p: Program, now: Program)
    requires var q := p + [Command(first, [], hidden, group)];
             && AllNames(q) == AllNames(p) + {first} && AllNames(q) <= AllNames(now)
             && AddsFree(rest, hidden, group, q, now)
    requires first !in AllNames(p)
    ensures AddsFree([first] + rest, hidden, group, p, now)
  {
    hide AllNames;
    var q := p + [Command(first, [], hidden, group)];
    assert forall n :: n in [first] + rest <==> n == first || n in rest;
    assert now[|p|] == q[|p|];
    forall n <- [first] + rest | n !in AllNames(p) ensures Has(now, |p|, n) {
      if n != first {
        assert Has(now, |q|, n);
      }
    }
    assert q <= now && p <= q;
    forall j | |p| <= j < |now|
      ensures now[j].name in [first] + rest && now[j].name !in AllNames(p)
      ensures now[j] == Command(now[j].name, [], hidden, group)
    {
      assert j > |p| ==> now[j].name in rest;
    }
  }

  lemma {:induction false} StubbedAdds(p: Program, names: seq<string>, group: Option<HelpGroup>)
    ensures AddsFree(names, false, group, p, Stubbed(p, names, group))
    ensures AllNames(p) <= AllNames(Stubbed(p, names, group))
    decreases |names|
  {
    hide AllNames, AddsFree;
    if names == [] {
      NoneToAdd(false, group, p);
    } else {
      var c := Command(names[0], [], false, group);
      assert NamesOf(c) == {names[0]} && names == [names[0]] + names[1..];
      RegisterNames(p, c);
      if names[0] in AllNames(p) {
        StubbedAdds(p, names[1..], group);
        FirstInUse(names[0], names[1..], false, group, p, Stubbed(p, names, group));
      } else {
        StubbedAdds(p + [c], names[1..], group);
        FirstIsAdded(names[0], names[1..], false, group, p, Stubbed(p, names, group));
      }
    }
  }

  /** A known plugin whose stub is due. */
  predicate Missing(loaded: set<string>, k: KnownPlugin) { k.id !in loaded && k.stub.Some? }

  /** A visible command without aliases, for a name of that stub and in the group of
      its plugin. */
  predicate IsStubOf(loaded: set<string>, k: KnownPlugin, c: Command) {
    Missing(loaded, k) && c.name in k.stub.value && c == Command(c.name, [], false, k.helpGroup)
  }

  ghost predicate IsAnyStub(registry: seq<KnownPlugin>, loaded: set<string>, c: Command) {
    exists i :: 0 <= i < |registry| && IsStubOf(loaded, registry[i], c)
  }

  lemma AnyStubOf(front: seq<KnownPlugin>, k: KnownPlugin, loaded: set<string>, c: Command)
    ensures IsAnyStub(front, loaded, c) ==> IsAnyStub(front + [k], loaded, c)
    ensures IsStubOf(loaded, k, c) ==> IsAnyStub(front + [k], loaded, c)
    ensures IsAnyStub(front, loaded, c) ==> c.aliases == []
  {
    var all := front + [k];
    assert all[|front|] == k;
    if i :| 0 <= i < |front| && IsStubOf(loaded, front[i], c) {
      assert all[i] == front[i];
    }
  }

  /** `now` is `was` and then exactly the free names of the missing plugins' stubs,
      each once, visible, without aliases and in its own plugin's group; and all of
      their names are in use. */
  ghost predicate AddsMissing(registry: seq<KnownPlugin>, loaded: set<string>, was: Program, now: Program) {
    && was <= now
    && (forall k <- registry :: Missing(loaded, k) ==> forall n <- k.stub.value :: n in AllNames(now))
    && (forall j :: |was| <= j < |now| ==>
          now[j].name !in AllNames(was) && IsAnyStub(registry, loaded, now[j]))
    && (forall k <- registry :: Missing(loaded, k) ==> forall n <- k.stub.value ::
          n !in AllNames(was) ==> Has(now, |was|, n))
    && (forall i, j :: |was| <= i < j < |now| ==> now[i].name != now[j].name)
  }

  /** A stub tags its commands with its own plugin's group. */
  function StubbedAll(registry: seq<KnownPlugin>, loaded: set<string>, p: Program): (Program, seq<string>) {
    if registry == [] then (p, [])
    else
      var n := |registry| - 1;
      var (before, attempts) := StubbedAll(registry[..n], loaded, p);
      var known := registry[n];
      if known.id in loaded || known.stub.None? then (before, attempts)
      else (Stubbed(before, known.stub.value, known.helpGroup), attempts + [known.id])
  }

  lemma {:induction false} StubbedAllAdds(registry: seq<KnownPlugin>, loaded: set<string>, p: Program)
    ensures AddsMissing(registry, loaded, p, StubbedAll(registry, loaded, p).0)
    ensures AllNames(p) <= AllNames(StubbedAll(registry, loaded, p).0)
  {
    hide AddsMissing, AddsFree, AllNames;
    if registry == [] {
      NothingMissing(loaded, p);
    } else {
      var n := |registry| - 1;
      var k := registry[n];
      var mid := StubbedAll(registry[..n], loaded, p).0;
      StubbedAllAdds(registry[..n], loaded, p);
      assert registry == registry[..n] + [k];
      if Missing(loaded, k) {
        StubbedAdds(mid, k.stub.value, k.helpGroup);
        AddsCompose(registry[..n], k, loaded, p, mid, Stubbed(mid, k.stub.value, k.helpGroup));
      } else {
        AddsNothing(registry[..n], k, loaded, p, mid);
      }
    }
  }

  lemma NothingMissing(loaded: set<string>, p: Program)
    ensures AddsMissing([], loaded, p, p)
  {}

  lemma AddsNothing(front: seq<KnownPlugin>, k: KnownPlugin, loaded: set<string>, p: Program, mid: Program)
    requires AddsMissing(front, loaded, p, mid) && !Missing(loaded, k)
    ensures AddsMissing(front + [k], loaded, p, mid)
  {
    hide AllNames, Has, IsAnyStub;
    assert forall x :: x in front + [k] <==> x in front || x == k;
    forall c ensures IsAnyStub(front, loaded, c) ==> IsAnyStub(front + [k], loaded, c) {
      AnyStubOf(front, k, loaded, c);
    }
  }

  lemma OwnNames(p: Program)
    ensures forall c <- p :: c.name in AllNames(p)
  {
    forall c <- p ensures c.name in AllNames(p) {
      assert c.name in NamesOf(c);
    }
  }

  lemma NewNameFound(was: Program, now: Program, n: string)
    requires was <= now && n in AllNames(now) && n !in AllNames(was)
    requires forall j :: |was| <= j < |now| ==> now[j].aliases == []
    ensures Has(now, |was|, n)
  {
    assert forall i :: 0 <= i < |was| ==> was[i] == now[i];
    var j :| 0 <= j < |now| && n in NamesOf(now[j]);
  }

  lemma AddsCompose(
      front: seq<KnownPlugin>, k: KnownPlugin, loaded: set<string>, p: Program, mid: Program, now: Program)
    requires AddsMissing(front, loaded, p, mid) && Missing(loaded, k)
    requires AddsFree(k.stub.value, false, k.helpGroup, mid, now)
    requires AllNames(p) <= AllNames(mid) <= AllNames(now)
    ensures AddsMissing(front + [k], loaded, p, now)
  {
    hide AllNames, IsAnyStub;
    var all := front + [k];
    assert forall x :: x in all <==> x in front || x == k;
    OwnNames(mid);
    assert forall j :: 0 <= j < |mid| ==> now[j] == mid[j] && mid[j] in mid;
    forall j | |p| <= j < |now| ensures now[j].aliases == [] {
      AnyStubOf(front, k, loaded, now[j]);
    }
    forall n | n in AllNames(now) && n !in AllNames(p) ensures Has(now, |p|, n) {
      NewNameFound(p, now, n);
    }
    forall j | |p| <= j < |now| ensures IsAnyStub(all, loaded, now[j]) {
      AnyStubOf(front, k, loaded, now[j]);
      assert j >= |mid| ==> IsStubOf(loaded, k, now[j]);
    }
  }

  // ---- Diagnostics ----

  datatype PluginState = AbsentPlugin | Incompatible | Compatible

  datatype Diagnostic = Diagnostic(
    id: string, state: PluginState, installedVersion: Option<string>, peerRange: Option<string>)

  /** `new Map(found.map(...)).get(id)`: the last one wins. */
  function Hit(found: seq<Candidate>, id: string): Option<Candidate> {
    if found == [] then None
    else if found[|found| - 1].pluginId == id then Some(found[|found| - 1])
    else Hit(found[..|found| - 1], id)
  }

  function Diagnose(h: Host, found: seq<Candidate>, known: KnownPlugin): Diagnostic {
    var hit := Hit(found, known.id);
    if hit.None? then Diagnostic(known.id, AbsentPlugin, None, None)
    else
      var pkg := hit.value.pkg;
      Diagnostic(known.id, if PeerCompatible(h, pkg.peerRange) then Compatible else Incompatible,
                 pkg.version, pkg.peerRange)
  }

  /** `diagnoseFound`: one per known plugin, in registry order. */
  function DiagnoseFound(h: Host, found: seq<Candidate>, registry: seq<KnownPlugin>): (r: seq<Diagnostic>)
    ensures |r| == |registry|
  {
    seq(|registry|, (i: nat) requires i < |registry| => Diagnose(h, found, registry[i]))
  }

  /** The root program as the loader changes it. */
  class RootProgram {
    var commands: Program

    constructor (builtins: Program)
      ensures commands == builtins
    {
      commands := builtins;
    }

    method LoadOnePlugin(h: Host, registry: seq<KnownPlugin>, c: Candidate) returns (ok: bool)
      modifies this
      ensures (commands, ok) == Loaded(h, registry, old(commands), c)
      ensures TakesTurn(h, registry, old(commands), c, commands, ok)
    {
      LoadedTakesTurn(h, registry, commands, c);
      hide TakesTurn, PatchedRun, StartPatch;
      if !PeerCompatible(h, c.pkg.peerRange) {
        return false;
      }
      if c.pkg.main.MainNotString? {
        return false;
      }
      if !h.entryIsInside(c) {
        return false;
      }
      if !h.entryExists(c) {
        return false;
      }
      match h.imported(c)
      case ImportFails => return false;
      case NoRegister => return false;
      case Registers(calls, completes) =>
        var before := |commands|;
        var program := new PatchedProgram(commands);
        var returned := program.Register(calls);
        commands := program.commands;
        if !returned || !completes {
          return false;
        }
        commands := Tagged(commands, before, GroupOf(registry, c.pluginId));
        return true;
    }

    method LoadPlugins(h: Host, registry: seq<KnownPlugin>, found: seq<Candidate>)
      returns (loaded: set<string>, diagnostics: seq<Diagnostic>)
      modifies this
      ensures (commands, loaded) == LoadedAll(h, registry, old(commands), found)
      ensures diagnostics == DiagnoseFound(h, found, registry)
    {
      loaded := {};
      for i := 0 to |found|
        invariant (commands, loaded) == LoadedAll(h, registry, old(commands), found[..i])
      {
        assert found[..i + 1][..i] == found[..i];
        var ok := LoadOnePlugin(h, registry, found[i]);
        if ok {
          loaded := loaded + {found[i].pluginId};
        }
      }
      assert found[..|found|] == found;
      diagnostics := DiagnoseFound(h, found, registry);
    }

    /** The names in use, as each registration of stubs or notices collects them. */
    method Occupied() returns (occupied: set<string>)
      ensures occupied == AllNames(commands)
    {
      occupied := {};
      for i := 0 to |commands|
        invariant occupied == AllNames(commands[..i])
      {
        assert commands[..i + 1] == commands[..i] + [commands[i]];
        RegisterNames(commands[..i], commands[i]);
        occupied := occupied + {commands[i].name} + set a | a in commands[i].aliases;
      }
      assert commands[..|commands|] == commands;
    }

    /** A known plugin's `registerStub`. */
    method RegisterStub(names: seq<string>, group: Option<HelpGroup>)
      modifies this
      ensures commands == Stubbed(old(commands), names, group)
      ensures AddsFree(names, false, group, old(commands), commands)
    {
      StubbedAdds(commands, names, group);
      hide AddsFree;
      var occupied := Occupied();
      for i := 0 to |names|
        invariant occupied == AllNames(commands)
        invariant Stubbed(old(commands), names, group) == Stubbed(commands, names[i..], group)
      {
        assert names[i..][1..] == names[i + 1..];
        if names[i] in occupied {
          continue;
        }
        var stub := Command(names[i], [], false, group);
        assert NamesOf(stub) == {names[i]};
        RegisterNames(commands, stub);
        var next := Register(commands, stub);
        assert next.Done?;
        commands := next.value;
        occupied := occupied + {names[i]};
      }
    }

    method RegisterMissingStubs(registry: seq<KnownPlugin>, loaded: set<string>) returns (ghost attempts: seq<string>)
      modifies this
      ensures (commands, attempts) == StubbedAll(registry, loaded, old(commands))
      ensures AddsMissing(registry, loaded, old(commands), commands)
    {
      StubbedAllAdds(registry, loaded, commands);
      hide AddsMissing, AddsFree;
      attempts := [];
      for i := 0 to |registry|
        invariant (commands, attempts) == StubbedAll(registry[..i], loaded, old(commands))
      {
        assert registry[..i + 1][..i] == registry[..i];
        if registry[i].id in loaded || registry[i].stub.None? {
          continue;
        }
        attempts := attempts + [registry[i].id];
        RegisterStub(registry[i].stub.value, registry[i].helpGroup);
      }
      assert registry[..|registry|] == registry;
    }
  }

  // ---- Agreement ----

  /** The plugins take their turns one after another, and the loaded IDs are those
      of the turns that went well. */
  lemma {:induction false} LoadedOneByOne(h: Host, registry: seq<KnownPlugin>, p: Program, found: seq<Candidate>)
    returns (stages: seq<Program>, oks: seq<bool>)
    ensures |stages| == |found| + 1 && |oks| == |found|
    ensures stages[0] == p && stages[|found|] == LoadedAll(h, registry, p, found).0
    ensures forall i :: 0 <= i < |found| ==> TakesTurn(h, registry, stages[i], found[i], stages[i + 1], oks[i])
    ensures LoadedAll(h, registry, p, found).1 == set i | 0 <= i < |found| && oks[i] :: found[i].pluginId
  {
    hide TakesTurn, Loaded;
    if found == [] {
      return [p], [];
    }
    var n := |found| - 1;
    stages, oks := LoadedOneByOne(h, registry, p, found[..n]);
    var (after, ok) := Loaded(h, registry, stages[n], found[n]);
    LoadedTakesTurn(h, registry, stages[n], found[n]);
    stages, oks := stages + [after], oks + [ok];
  }

  /** The `i`th plugin passes every gate and its `register` returns, on the program
      those before it have left. */
  predicate Completes(h: Host, registry: seq<KnownPlugin>, p: Program, found: seq<Candidate>, i: nat)
    requires i < |found|
  {
    && Importable(h, found[i]) && h.imported(found[i]).completes
    && PatchedRun(StartPatch(LoadedAll(h, registry, p, found[..i]).0), h.imported(found[i]).calls).1
  }

  /** Exactly the discovered plugins that complete are loaded. */
  lemma {:induction false} LoadedExact(h: Host, registry: seq<KnownPlugin>, p: Program, found: seq<Candidate>)
    ensures forall id :: id in LoadedAll(h, registry, p, found).1 <==>
      exists i :: 0 <= i < |found| && found[i].pluginId == id && Completes(h, registry, p, found, i)
  {
    hide PatchedRun, Importable;
    if found != [] {
      var n := |found| - 1;
      var front := found[..n];
      LoadedExact(h, registry, p, front);
      forall i | 0 <= i < n
        ensures front[i] == found[i] && (Completes(h, registry, p, front, i) <==> Completes(h, registry, p, found, i))
      {
        assert front[..i] == found[..i];
      }
    }
  }

  lemma {:induction false} HitExact(found: seq<Candidate>, c: Candidate)
    requires c in found
    requires forall i, j :: 0 <= i < j < |found| ==> found[i].pluginId != found[j].pluginId
    ensures Hit(found, c.pluginId) == Some(c)
  {
    var n := |found| - 1;
    var i :| 0 <= i <= n && found[i] == c;
    if i < n {
      assert found[..n][i] == c;
      HitExact(found[..n], c);
    }
  }

  lemma {:induction false} HitAbsent(found: seq<Candidate>, id: string)
    ensures Hit(found, id).None? <==> forall c <- found :: c.pluginId != id
  {
    if found != [] {
      var n := |found| - 1;
      HitAbsent(found[..n], id);
      assert found == found[..n] + [found[n]];
    }
  }

  lemma {:induction false} AttemptsExact(registry: seq<KnownPlugin>, loaded: set<string>, p: Program)
    requires forall i, j :: 0 <= i < j < |registry| ==> registry[i].id != registry[j].id
    ensures var attempts := StubbedAll(registry, loaded, p).1;
            && (forall id :: id in attempts <==>
                  exists k <- registry :: k.id == id && k.stub.Some? && id !in loaded)
            && (forall i, j :: 0 <= i < j < |attempts| ==> attempts[i] != attempts[j])
  {
    if registry != [] {
      var n := |registry| - 1;
      AttemptsExact(registry[..n], loaded, p);
      assert registry == registry[..n] + [registry[n]];
    }
  }

  /** Loader, stubs and diagnostics tell one story about whatever the walk found:
      loaded plugins were discovered; a known plugin with a stub is loaded or gets
      exactly one stub attempt, never both; there is one diagnostic per known
      plugin, in registry order, absent exactly when it was not discovered, and
      otherwise with the package's own version and range and compatible exactly when
      that range admits the CLI; a loaded plugin is diagnosed compatible, an
      incompatible one is never loaded. */
  lemma LoaderStubsAndDiagnosticsAgree(h: Host, registry: seq<KnownPlugin>, p: Program, w: Walk)
    requires forall i, j :: 0 <= i < j < |registry| ==> registry[i].id != registry[j].id
    ensures var found := Discovered(w);
            var (q, loaded) := LoadedAll(h, registry, p, found);
            var (_, attempts) := StubbedAll(registry, loaded, q);
            var diagnostics := DiagnoseFound(h, found, registry);
            && (forall id <- loaded :: exists c <- found :: c.pluginId == id)
            && (forall i, j :: 0 <= i < j < |attempts| ==> attempts[i] != attempts[j])
            && (forall k <- registry :: k.stub.Some? ==> (k.id in attempts <==> k.id !in loaded))
            && (forall id <- attempts :: exists k <- registry :: k.id == id && k.stub.Some?)
            && |diagnostics| == |registry|
            && forall i :: 0 <= i < |registry| ==>
                 && diagnostics[i].id == registry[i].id
                 && (diagnostics[i].state.AbsentPlugin? <==> forall c <- found :: c.pluginId != registry[i].id)
                 && (registry[i].id in loaded ==> diagnostics[i].state.Compatible?)
                 && (diagnostics[i].state.Incompatible? ==> registry[i].id !in loaded)
                 && forall c <- found :: c.pluginId == registry[i].id ==>
                      && diagnostics[i].installedVersion == c.pkg.version && diagnostics[i].peerRange == c.pkg.peerRange
                      && (diagnostics[i].state.Compatible? <==>
                          c.pkg.peerRange.None? || c.pkg.peerRange.value == "" || h.satisfies(c.pkg.peerRange.value))
  {
    hide Discovered, Loaded, IsLeast;
    var found := Discovered(w);
    DiscoveryIsLeast(w);
    var (q, loaded) := LoadedAll(h, registry, p, found);
    LoadedExact(h, registry, p, found);
    AttemptsExact(registry, loaded, q);
    forall i | 0 <= i < |registry|
      ensures var d := DiagnoseFound(h, found, registry)[i];
              && (d.state.AbsentPlugin? <==> forall c <- found :: c.pluginId != registry[i].id)
              && (registry[i].id in loaded ==> d.state.Compatible?)
              && forall c <- found :: c.pluginId == registry[i].id ==>
                   && d.installedVersion == c.pkg.version && d.peerRange == c.pkg.peerRange
                   && (d.state.Compatible? <==> PeerCompatible(h, c.pkg.peerRange))
    {
      HitAbsent(found, registry[i].id);
      forall c <- found | c.pluginId == registry[i].id ensures Hit(found, registry[i].id) == Some(c) {
        HitExact(found, c);
      }
      if registry[i].id in loaded {
        var k :| 0 <= k < |found| && found[k].pluginId == registry[i].id && Completes(h, registry, p, found, k);
        HitExact(found, found[k]);
      }
    }
  }
}
