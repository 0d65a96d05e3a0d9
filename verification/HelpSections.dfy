/** The root help's sections, and what `main` registers before they are drawn. */
module HelpSections {
  import opened JsStrings
  import opened Wrappers
  import opened CommandNames
  import opened Commander
  import opened PluginPatch
  import opened PluginNamespace
  import opened PluginDiscovery
  import opened PluginLoader

  const MEMORY_COMMAND_NAMES: set<string> := {
    "enable", "disable", "uninstall", "status", "configure", "clean", "doctor", "cutover", "repair-memory", "view",
    "recall", "search", "backfill", "dashboard", "pr-description", "queue-status", "open-url", "compile", "graph",
    "export", "auth", "heal-folder", "sync-memory-bank", "mcp", "telemetry", "push", "spaces", "bind", "push-control"}

  const HIDDEN_COMMANDS: set<string> := {"migrate", "export-prompt"}

  function HiddenOne(name: string): Command { Command(name, [], true, None) }

  /** The names `main` registers before plugins, in its order. */
  const BUILTIN_NAMES: seq<string> := [
    "enable", "disable", "uninstall", "status", "cutover", "repair-memory", "configure", "clean", "doctor", "view",
    "recall", "search", "backfill", "pr-description", "push", "spaces", "bind", "push-control", "queue-status",
    "open-url", "compile", "dashboard", "graph", "migrate", "heal-folder", "export-prompt", "export", "auth",
    "sync-memory-bank", "mcp", "mcp-serve", "global-daemon", "global-daemon-ensure", "telemetry", "generate", "daemon",
    "ide-bridge", "ide-bridge-serve"]

  /** Those registered as hidden. */
  const INTERNAL: set<string> := {
    "mcp-serve", "global-daemon", "global-daemon-ensure", "generate", "daemon", "ide-bridge", "ide-bridge-serve"}

  function Builtin(name: string): Command {
    Command(name, if name == "recall" then ["context"] else [], name in INTERNAL, None)
  }

  function Builtins(names: seq<string>): (p: Program)
    ensures |p| == |names| && forall i :: 0 <= i < |names| ==> p[i] == Builtin(names[i])
  {
    seq(|names|, (i: nat) requires i < |names| => Builtin(names[i]))
  }

  const BUILTINS: Program := Builtins(BUILTIN_NAMES)

  const MOVED: seq<string> := ["local-run-workflows", "workflow-run-status", "workflow-runs"]

  const REFRESH_COMMAND := "__refresh-update-cache"

  const KNOWN_PLUGINS: seq<KnownPlugin> := [
    KnownPlugin("c56530c4-3f2f-467f-a4a4-db4d44c79c1c", Some(Space), Some(["space"])),
    KnownPlugin("290e6c2f-d894-446c-9763-94a863f3a2cd", Some(Site),
                Some(["new", "convert", "dev", "build", "start", "reverse", "theme"])),
    KnownPlugin("5ea2fc8c-a0cb-416f-9276-219f1d51c51f", Some(Workflow), Some(["workflow"]))]

  // ---- The sections ----

  predicate Visible(c: Command) { c.name !in HIDDEN_COMMANDS && !c.hidden }

  datatype Section = Memory | Group(group: HelpGroup) | Other

  /** The filter of each section. */
  predicate Belongs(memory: set<string>, c: Command, s: Section) {
    match s
    case Memory => c.name in memory
    case Group(g) => c.group == Some(g)
    case Other => c.name !in memory && c.group.None?
  }

  function Rows(memory: set<string>, p: Program, s: Section): seq<Command> {
    if p == [] then []
    else
      var n := |p| - 1;
      Rows(memory, p[..n], s) + if Visible(p[n]) && Belongs(memory, p[n], s) then [p[n]] else []
  }

  /** Each visible command is in one section and no other. */
  ghost predicate Partitioned(memory: set<string>, p: Program) {
    forall i :: 0 <= i < |p| && Visible(p[i]) ==>
      exists s :: Belongs(memory, p[i], s) && forall t :: Belongs(memory, p[i], t) ==> t == s
  }

  /** The filters partition the visible commands exactly when no visible command
      with a plugin's tag has a Memory name. */
  lemma PartitionedExactly(memory: set<string>, p: Program)
    ensures Partitioned(memory, p) <==>
      forall i :: 0 <= i < |p| && Visible(p[i]) && p[i].group.Some? ==> p[i].name !in memory
  {
    forall i | 0 <= i < |p|
      ensures (exists s :: Belongs(memory, p[i], s) && forall t :: Belongs(memory, p[i], t) ==> t == s) <==>
        (p[i].group.Some? ==> p[i].name !in memory)
    {
      var c := p[i];
      var home := if c.group.Some? then Group(c.group.value) else if c.name in memory then Memory else Other;
      assert Belongs(memory, c, home);
      if c.group.Some? && c.name in memory {
        assert Belongs(memory, c, Memory) && Belongs(memory, c, home) && home != Memory;
      } else {
        assert forall t :: Belongs(memory, c, t) ==> t == home;
      }
    }
  }

  /** Every row of a section is a visible command of the program and conversely. */
  lemma {:induction false} RowsExact(memory: set<string>, p: Program, s: Section)
    ensures forall c :: c in Rows(memory, p, s) <==> c in p && Visible(c) && Belongs(memory, c, s)
  {
    if p != [] {
      var n := |p| - 1;
      RowsExact(memory, p[..n], s);
      assert p == p[..n] + [p[n]];
    }
  }

  // ---- What the reader sees ----

  /** The commands that are not hidden, by the program or by name, in its order. */
  function Listed(p: Program): seq<Command> {
    if p == [] then []
    else
      var n := |p| - 1;
      Listed(p[..n]) +
      if !p[n].hidden && p[n].name != "migrate" && p[n].name != "export-prompt" then [p[n]] else []
  }

  lemma SectionOf(memory: set<string>, c: Command)
    ensures Visible(c) <==> !c.hidden && c.name != "migrate" && c.name != "export-prompt"
    ensures Belongs(memory, c, Memory) <==> c.name in memory
    ensures forall g :: Belongs(memory, c, Group(g)) <==> c.group == Some(g)
    ensures Belongs(memory, c, Other) <==> c.name !in memory && c.group == None
  {}

  lemma {:induction false} ListedExact(p: Program)
    ensures forall c :: c in Listed(p) <==>
      c in p && !c.hidden && c.name != "migrate" && c.name != "export-prompt"
  {
    if p != [] {
      var n := |p| - 1;
      ListedExact(p[..n]);
      assert p == p[..n] + [p[n]];
    }
  }

  /** A section's rows are those of the listed commands that belong to it. */
  lemma RowsExactly(memory: set<string>, p: Program, c: Command)
    ensures c in Rows(memory, p, Memory) <==> c in Listed(p) && c.name in memory
    ensures forall g :: c in Rows(memory, p, Group(g)) <==> c in Listed(p) && c.group == Some(g)
    ensures c in Rows(memory, p, Other) <==> c in Listed(p) && c.name !in memory && c.group == None
  {
    hide Rows, Listed;
    ListedExact(p);
    SectionOf(memory, c);
    forall s ensures c in Rows(memory, p, s) <==> c in p && Visible(c) && Belongs(memory, c, s) {
      RowsExact(memory, p, s);
    }
  }

  /** Sections keep the program's order. */
  lemma {:induction false} RowsConcat(memory: set<string>, p: Program, q: Program, s: Section)
    ensures Rows(memory, p + q, s) == Rows(memory, p, s) + Rows(memory, q, s)
  {
    if q == [] {
      assert p + q == p;
    } else {
      assert (p + q)[..|p + q| - 1] == p + q[..|q| - 1];
      RowsConcat(memory, p, q[..|q| - 1], s);
    }
  }

  function Times(c: Command, rows: seq<Command>): nat {
    if rows == [] then 0
    else Times(c, rows[..|rows| - 1]) + if rows[|rows| - 1] == c then 1 else 0
  }

  /** How many rows `c` has in all sections. */
  function RowCount(memory: set<string>, p: Program, c: Command): nat {
    Times(c, Rows(memory, p, Memory)) + Times(c, Rows(memory, p, Group(Site))) +
    Times(c, Rows(memory, p, Group(Space))) + Times(c, Rows(memory, p, Group(Workflow))) +
    Times(c, Rows(memory, p, Other))
  }

  lemma LastRow(memory: set<string>, p: Program, c: Command, home: Section)
    requires Visible(c) ==> forall s :: Belongs(memory, c, s) <==> s == home
    ensures forall s :: Rows(memory, p + [c], s) == Rows(memory, p, s) + if Visible(c) && s == home then [c] else []
  {
    assert (p + [c])[..|p|] == p;
  }

  lemma LastRowCounts(memory: set<string>, p: Program, c: Command, home: Section, s: Section, x: Command)
    requires Visible(c) ==> forall s :: Belongs(memory, c, s) <==> s == home
    ensures Times(x, Rows(memory, p + [c], s)) ==
            Times(x, Rows(memory, p, s)) + if Visible(c) && s == home && x == c then 1 else 0
  {
    hide Rows, Visible;
    LastRow(memory, p, c, home);
    var rows := Rows(memory, p, s);
    assert (rows + [c])[..|rows|] == rows && rows + [] == rows;
  }

  lemma OneMoreRow(memory: set<string>, p: Program, c: Command, x: Command)
    requires Visible(c) && c.group.Some? ==> c.name !in memory
    ensures RowCount(memory, p + [c], x) == RowCount(memory, p, x) + if Visible(c) && x == c then 1 else 0
  {
    hide Rows, Times, Visible;
    var home := if c.group.Some? then Group(c.group.value) else if c.name in memory then Memory else Other;
    LastRowCounts(memory, p, c, home, Memory, x);
    LastRowCounts(memory, p, c, home, Group(Site), x);
    LastRowCounts(memory, p, c, home, Group(Space), x);
    LastRowCounts(memory, p, c, home, Group(Workflow), x);
    LastRowCounts(memory, p, c, home, Other, x);
    match c.group
    case None | Some(Site) | Some(Space) | Some(Workflow) =>
  }

  lemma ListedLast(p: Program, c: Command)
    requires p != []
    ensures var front, last := p[..|p| - 1], p[|p| - 1];
            Times(c, Listed(p)) == Times(c, Listed(front)) + if Visible(last) && c == last then 1 else 0
  {
    var n := |p| - 1;
    var listed := Listed(p[..n]);
    SectionOf({}, p[n]);
    hide Visible, Times;
    OneMoreTime(c, listed, p[n]);
    assert Listed(p) == listed + if Visible(p[n]) then [p[n]] else [];
    assert listed + [] == listed;
  }

  /** The help has a row for each listed command, as often as the program has it. */
  lemma {:induction false} EveryRowOnce(memory: set<string>, p: Program, c: Command)
    requires Partitioned(memory, p)
    ensures RowCount(memory, p, c) == Times(c, Listed(p))
  {
    if p != [] {
      var n := |p| - 1;
      hide RowCount, Visible, Belongs, Partitioned, Times, Listed;
      FrontPartitioned(memory, p);
      EveryRowOnce(memory, p[..n], c);
      OneMoreRow(memory, p[..n], p[n], c);
      assert p[..n] + [p[n]] == p;
      ListedLast(p, c);
    }
  }

  lemma FrontPartitioned(memory: set<string>, p: Program)
    requires Partitioned(memory, p) && p != []
    ensures Partitioned(memory, p[..|p| - 1])
    ensures Visible(p[|p| - 1]) && p[|p| - 1].group.Some? ==> p[|p| - 1].name !in memory
  {
    PartitionedExactly(memory, p);
    PartitionedExactly(memory, p[..|p| - 1]);
  }

  lemma OneMoreTime(c: Command, rows: seq<Command>, last: Command)
    ensures Times(c, rows + [last]) == Times(c, rows) + if last == c then 1 else 0
  {
    assert (rows + [last])[..|rows|] == rows;
  }

  // ---- main ----

  function RegisterAll(p: Program, commands: seq<Command>): Outcome<Program>
    decreases |commands|
  {
    if commands == [] then Done(p)
    else
      var next := Register(p, commands[0]);
      if next.Done? then RegisterAll(next.value, commands[1..]) else next
  }

  function Noticed(p: Program, names: seq<string>): Program
    decreases |names|
  {
    if names == [] then p
    else if names[0] in AllNames(p) then Noticed(p, names[1..])
    else Noticed(p + [HiddenOne(names[0])], names[1..])
  }

  lemma {:induction false} NoticedAdds(p: Program, names: seq<string>)
    ensures AddsFree(names, true, None, p, Noticed(p, names))
    ensures AllNames(p) <= AllNames(Noticed(p, names))
    decreases |names|
  {
    hide AllNames, AddsFree;
    if names == [] {
      NoneToAdd(true, None, p);
    } else {
      var c := HiddenOne(names[0]);
      assert NamesOf(c) == {names[0]} && names == [names[0]] + names[1..];
      RegisterNames(p, c);
      if names[0] in AllNames(p) {
        NoticedAdds(p, names[1..]);
        FirstInUse(names[0], names[1..], true, None, p, Noticed(p, names));
      } else {
        NoticedAdds(p + [c], names[1..]);
        FirstIsAdded(names[0], names[1..], true, None, p, Noticed(p, names));
      }
    }
  }

  /** The root program that `main` parses with: builtins, plugins, stubs for the
      missing ones, the moved-command notices and the hidden refresh. */
  function Main(h: Host, found: seq<Candidate>): Outcome<Program> {
    var builtins := RegisterAll([], BUILTINS);
    if !builtins.Done? then builtins
    else
      var (withPlugins, loaded) := LoadedAll(h, KNOWN_PLUGINS, builtins.value, found);
      var withStubs := StubbedAll(KNOWN_PLUGINS, loaded, withPlugins).0;
      NewCommand(Noticed(withStubs, MOVED), REFRESH_COMMAND, true)
  }

  /** `registerMovedCommandNotices`. */
  method RegisterNotices(root: RootProgram, names: seq<string>)
    requires Distinct(names)
    modifies root
    ensures root.commands == Noticed(old(root.commands), names)
    ensures AddsFree(names, true, None, old(root.commands), root.commands)
  {
    NoticedAdds(root.commands, names);
    hide AddsFree;
    var occupied := root.Occupied();
    for i := 0 to |names|
      invariant occupied <= AllNames(root.commands)
      invariant forall x <- AllNames(root.commands) :: x in occupied || x in names[..i]
      invariant Noticed(old(root.commands), names) == Noticed(root.commands, names[i..])
    {
      assert names[i..][1..] == names[i + 1..];
      assert names[..i + 1] == names[..i] + [names[i]];
      if names[i] !in occupied {
        var notice := HiddenOne(names[i]);
        assert NamesOf(notice) == {names[i]};
        RegisterNames(root.commands, notice);
        root.commands := root.commands + [notice];
      }
    }
  }

  /** The registrations of `main`, in order. */
  method BuildProgram(h: Host, w: Walk) returns (outcome: Outcome<Program>)
    ensures outcome == Main(h, Discovered(w))
  {
    hide MEMORY_COMMAND_NAMES, BUILTINS, KNOWN_PLUGINS, MOVED, Register, LoadedAll, StubbedAll, Noticed, NewCommand;
    var root := new RootProgram([]);
    for i := 0 to |BUILTINS|
      invariant RegisterAll([], BUILTINS) == RegisterAll(root.commands, BUILTINS[i..])
    {
      assert BUILTINS[i..][1..] == BUILTINS[i + 1..];
      var next := Register(root.commands, BUILTINS[i]);
      if !next.Done? {
        return next;
      }
      root.commands := next.value;
    }
    var found, warnings := DiscoverPlugins(w);
    var loaded, diagnostics := root.LoadPlugins(h, KNOWN_PLUGINS, found);
    ghost var attempts := root.RegisterMissingStubs(KNOWN_PLUGINS, loaded);
    MovedDiffer();
    RegisterNotices(root, MOVED);
    return NewCommand(root.commands, REFRESH_COMMAND, true);
  }

  lemma MovedDiffer()
    ensures Distinct(MOVED)
  {}

  // ---- What holds after each part ----

  ghost predicate TagsAvoid(p: Program, memory: set<string>) {
    forall i :: 0 <= i < |p| && p[i].group.Some? ==> p[i].name !in memory
  }

  /** Names are disjoint, those of the Memory section are taken, and no command
      with a plugin's tag has one. */
  ghost predicate Inv(p: Program, memory: set<string>) {
    Disjoint(p) && "" !in AllNames(p) && memory <= AllNames(p) && TagsAvoid(p, memory)
  }

  lemma OneMore(p: Program, c: Command, memory: set<string>)
    requires Inv(p, memory) && c.aliases == [] && c.name != "" && c.name !in AllNames(p)
    ensures Inv(p + [c], memory)
  {
    assert NamesOf(c) == {c.name};
    RegisterNames(p, c);
  }

  /** Disjoint commands register without a collision. */
  lemma {:induction false} DisjointRegister(p: Program, commands: seq<Command>)
    requires Disjoint(p + commands)
    ensures RegisterAll(p, commands) == Done(p + commands)
    decreases |commands|
  {
    if commands == [] {
      assert p + commands == p;
    } else {
      var c, q := commands[0], p + commands;
      assert q[|p|] == c;
      forall n <- NamesOf(c) ensures n !in AllNames(p) {
        forall i | 0 <= i < |p| ensures n !in NamesOf(p[i]) {
          assert q[i] == p[i];
        }
      }
      assert q == p + [c] + commands[1..];
      DisjointRegister(p + [c], commands[1..]);
    }
  }

  lemma TaggedNames(p: Program, n: nat, group: Option<HelpGroup>)
    ensures AllNames(Tagged(p, n, group)) == AllNames(p)
    ensures Disjoint(p) ==> Disjoint(Tagged(p, n, group))
  {
    var q := Tagged(p, n, group);
    assert forall i :: 0 <= i < |p| ==> NamesOf(q[i]) == NamesOf(p[i]);
    forall x
      ensures x in AllNames(q) <==> x in AllNames(p)
    {
      if i :| 0 <= i < |p| && x in NamesOf(p[i]) {
        assert x in NamesOf(q[i]);
      }
      if i :| 0 <= i < |q| && x in NamesOf(q[i]) {
        assert x in NamesOf(p[i]);
      }
    }
  }

  /** A later command's name is none of the earlier commands' names. */
  lemma LaterIsNew(p: Program, q: Program, i: nat)
    requires Disjoint(q) && p <= q && |p| <= i < |q|
    ensures q[i].name !in AllNames(p)
  {
    assert q[i].name in NamesOf(q[i]);
    forall j | 0 <= j < |p| ensures q[i].name !in NamesOf(p[j]) {
      assert p[j] == q[j];
    }
  }

  lemma NamesGrow(p: Program, q: Program)
    requires p <= q
    ensures AllNames(p) <= AllNames(q)
  {
    forall n <- AllNames(p) ensures n in AllNames(q) {
      var i :| 0 <= i < |p| && n in NamesOf(p[i]);
      assert n in NamesOf(q[i]);
    }
  }

  /** Every plugin's calls are well formed, also those before a throw. */
  ghost predicate WellBehaved(h: Host) {
    forall c :: h.imported(c).Registers? ==> IsRun(NO_VARIABLES.Keys, h.imported(c).calls)
  }

  /** One plugin's turn, loaded or not: builtins keep their names, and what it
      adds, tagged or not, takes none of them. */
  lemma LoadKeeps(h: Host, registry: seq<KnownPlugin>, p: Program, c: Candidate, memory: set<string>)
    requires WellBehaved(h) && Inv(p, memory)
    ensures Inv(Loaded(h, registry, p, c).0, memory)
    ensures Loaded(h, registry, p, c).1 <==> Importable(h, c) && h.imported(c).completes
  {
    hide AllNames, Disjoint, PatchedRun, IsRun, GroupOf;
    if Importable(h, c) {
      var calls := h.imported(c).calls;
      var q := PatchedRun(StartPatch(p), calls).0.program;
      RegisterSimulates(p, calls);
      NamesGrow(p, q);
      forall i | |p| <= i < |q| ensures q[i].name !in memory {
        LaterIsNew(p, q, i);
      }
      TaggedNames(q, |p|, GroupOf(registry, c.pluginId));
    }
  }

  /** No collision keeps a plugin from loading: loaded are exactly the importable
      ones whose own `register` completes. */
  lemma {:induction false} LoadAllKeeps(h: Host, registry: seq<KnownPlugin>, p: Program, found: seq<Candidate>,
                                        memory: set<string>)
    requires WellBehaved(h) && Inv(p, memory)
    ensures Inv(LoadedAll(h, registry, p, found).0, memory)
    ensures forall id :: id in LoadedAll(h, registry, p, found).1 <==>
      exists c <- found :: c.pluginId == id && Importable(h, c) && h.imported(c).completes
  {
    hide Inv, Loaded, WellBehaved, Importable;
    if found != [] {
      var n := |found| - 1;
      assert found == found[..n] + [found[n]];
      LoadAllKeeps(h, registry, p, found[..n], memory);
      LoadKeeps(h, registry, LoadedAll(h, registry, p, found[..n]).0, found[n], memory);
    }
  }

  lemma {:induction false} StubKeeps(p: Program, names: seq<string>, group: Option<HelpGroup>, memory: set<string>)
    requires Inv(p, memory) && "" !in names
    ensures Inv(Stubbed(p, names, group), memory)
    decreases |names|
  {
    if names != [] {
      if names[0] !in AllNames(p) {
        OneMore(p, Command(names[0], [], false, group), memory);
        StubKeeps(p + [Command(names[0], [], false, group)], names[1..], group, memory);
      } else {
        StubKeeps(p, names[1..], group, memory);
      }
    }
  }

  lemma {:induction false} StubAllKeeps(registry: seq<KnownPlugin>, loaded: set<string>, p: Program,
                                        memory: set<string>)
    requires Inv(p, memory) && forall k <- registry :: k.stub.Some? ==> "" !in k.stub.value
    ensures Inv(StubbedAll(registry, loaded, p).0, memory)
  {
    hide Inv, Stubbed;
    if registry != [] {
      var n := |registry| - 1;
      assert registry[n] in registry && forall k <- registry[..n] :: k in registry;
      StubAllKeeps(registry[..n], loaded, p, memory);
      if registry[n].stub.Some? {
        StubKeeps(StubbedAll(registry[..n], loaded, p).0, registry[n].stub.value, registry[n].helpGroup, memory);
      }
    }
  }

  lemma {:induction false} NoticesKeep(p: Program, names: seq<string>, memory: set<string>)
    requires Inv(p, memory) && "" !in names
    ensures Inv(Noticed(p, names), memory)
    decreases |names|
  {
    if names != [] {
      if names[0] !in AllNames(p) {
        OneMore(p, HiddenOne(names[0]), memory);
        NoticesKeep(p + [HiddenOne(names[0])], names[1..], memory);
      } else {
        NoticesKeep(p, names[1..], memory);
      }
    }
  }

  lemma MemoryIsRegistered()
    ensures forall n <- MEMORY_COMMAND_NAMES :: n in BUILTIN_NAMES
  {}

  lemma OrdinaryName(i: nat)
    requires i < |BUILTIN_NAMES|
    ensures BUILTIN_NAMES[i] !in {"", "context", REFRESH_COMMAND}
  {}

  lemma FirstApart(i: nat, j: nat)
    requires i < 6 && i < j < |BUILTIN_NAMES|
    ensures BUILTIN_NAMES[i] != BUILTIN_NAMES[j]
  {}

  lemma SecondApart(i: nat, j: nat)
    requires 6 <= i < 14 && i < j < |BUILTIN_NAMES|
    ensures BUILTIN_NAMES[i] != BUILTIN_NAMES[j]
  {}

  lemma LastApart(i: nat, j: nat)
    requires 14 <= i && i < j < |BUILTIN_NAMES|
    ensures BUILTIN_NAMES[i] != BUILTIN_NAMES[j]
  {}

  lemma BuiltinsApart(i: nat, j: nat)
    requires i < j < |BUILTINS|
    ensures NamesOf(BUILTINS[i]) !! NamesOf(BUILTINS[j])
  {
    hide BUILTIN_NAMES, INTERNAL, REFRESH_COMMAND;
    OrdinaryName(i);
    OrdinaryName(j);
    if i < 6 {
      FirstApart(i, j);
    } else if i < 14 {
      SecondApart(i, j);
    } else {
      LastApart(i, j);
    }
  }

  lemma MemoryIsTaken()
    ensures MEMORY_COMMAND_NAMES <= AllNames(BUILTINS)
  {
    MemoryIsRegistered();
    hide MEMORY_COMMAND_NAMES, BUILTIN_NAMES, INTERNAL;
    forall n <- MEMORY_COMMAND_NAMES ensures n in AllNames(BUILTINS) {
      var i :| 0 <= i < |BUILTIN_NAMES| && BUILTIN_NAMES[i] == n;
      assert n in NamesOf(BUILTINS[i]);
    }
  }

  /** The builtins register without a collision, and the Memory section's names are
      all among theirs. */
  lemma BuiltinsHold()
    ensures RegisterAll([], BUILTINS) == Done(BUILTINS)
    ensures Inv(BUILTINS, MEMORY_COMMAND_NAMES) && REFRESH_COMMAND !in AllNames(BUILTINS)
  {
    hide MEMORY_COMMAND_NAMES, BUILTIN_NAMES, INTERNAL;
    MemoryIsTaken();
    forall i | 0 <= i < |BUILTINS|
      ensures BUILTINS[i].group.None? && "" !in NamesOf(BUILTINS[i]) && REFRESH_COMMAND !in NamesOf(BUILTINS[i])
    {
      OrdinaryName(i);
      assert REFRESH_COMMAND[0] == '_' && "context"[0] == 'c';
    }
    forall i, j | 0 <= i < j < |BUILTINS| ensures NamesOf(BUILTINS[i]) !! NamesOf(BUILTINS[j]) {
      BuiltinsApart(i, j);
    }
    assert [] + BUILTINS == BUILTINS;
    DisjointRegister([], BUILTINS);
  }

  lemma StubNames()
    ensures forall k <- KNOWN_PLUGINS :: k.stub.Some? ==> "" !in k.stub.value && REFRESH_COMMAND !in k.stub.value
    ensures "" !in MOVED && REFRESH_COMMAND !in MOVED
  {}

  lemma {:induction false} StubTakesNoOther(p: Program, names: seq<string>, group: Option<HelpGroup>, x: string)
    requires x !in names
    ensures x in AllNames(Stubbed(p, names, group)) <==> x in AllNames(p)
    decreases |names|
  {
    if names != [] {
      if names[0] !in AllNames(p) {
        RegisterNames(p, Command(names[0], [], false, group));
        StubTakesNoOther(p + [Command(names[0], [], false, group)], names[1..], group, x);
      } else {
        StubTakesNoOther(p, names[1..], group, x);
      }
    }
  }

  lemma {:induction false} StubsTakeNoOther(registry: seq<KnownPlugin>, loaded: set<string>, p: Program, x: string)
    requires forall k <- registry :: k.stub.Some? ==> x !in k.stub.value
    ensures x in AllNames(StubbedAll(registry, loaded, p).0) <==> x in AllNames(p)
  {
    hide AllNames, Stubbed;
    if registry != [] {
      var n := |registry| - 1;
      assert registry[n] in registry && forall k <- registry[..n] :: k in registry;
      StubsTakeNoOther(registry[..n], loaded, p, x);
      if registry[n].stub.Some? {
        StubTakesNoOther(StubbedAll(registry[..n], loaded, p).0, registry[n].stub.value, registry[n].helpGroup, x);
      }
    }
  }

  lemma {:induction false} NoticesTakeNoOther(p: Program, names: seq<string>, x: string)
    requires x !in names
    ensures x in AllNames(Noticed(p, names)) <==> x in AllNames(p)
    decreases |names|
  {
    if names != [] {
      if names[0] !in AllNames(p) {
        RegisterNames(p, HiddenOne(names[0]));
        NoticesTakeNoOther(p + [HiddenOne(names[0])], names[1..], x);
      } else {
        NoticesTakeNoOther(p, names[1..], x);
      }
    }
  }

  /** What is registered before the last command. */
  function Before(builtins: Program, registry: seq<KnownPlugin>, moved: seq<string>, h: Host,
                  found: seq<Candidate>): Program
  {
    var (withPlugins, loaded) := LoadedAll(h, registry, builtins, found);
    Noticed(StubbedAll(registry, loaded, withPlugins).0, moved)
  }

  /** For any builtins that hold the invariant, any stubs and any notices: after
      any plugins each visible command is in exactly one section, and a name that
      only a plugin could take is taken exactly when one did. */
  lemma {:induction false} RootIsPartitioned(builtins: Program, registry: seq<KnownPlugin>, moved: seq<string>, h: Host,
                                             found: seq<Candidate>, memory: set<string>, last: string)
    requires WellBehaved(h) && Inv(builtins, memory)
    requires forall k <- registry :: k.stub.Some? ==> "" !in k.stub.value && last !in k.stub.value
    requires "" !in moved && last !in moved
    ensures Inv(Before(builtins, registry, moved, h, found), memory)
    ensures Partitioned(memory, Before(builtins, registry, moved, h, found))
    ensures last in AllNames(Before(builtins, registry, moved, h, found)) <==>
      last in AllNames(LoadedAll(h, registry, builtins, found).0)
  {
    hide AllNames, Stubbed, Disjoint, WellBehaved, LoadedAll, StubbedAll, Noticed, Partitioned;
    var (withPlugins, loaded) := LoadedAll(h, registry, builtins, found);
    var withStubs := StubbedAll(registry, loaded, withPlugins).0;
    LoadAllKeeps(h, registry, builtins, found, memory);
    StubAllKeeps(registry, loaded, withPlugins, memory);
    NoticesKeep(withStubs, moved, memory);
    StubsTakeNoOther(registry, loaded, withPlugins, last);
    NoticesTakeNoOther(withStubs, moved, last);
    PartitionedExactly(memory, Noticed(withStubs, moved));
  }

  lemma {:induction false} UntaggedLast(memory: set<string>, p: Program, c: Command)
    requires Partitioned(memory, p) && c.group.None?
    ensures Partitioned(memory, p + [c])
  {
    PartitionedExactly(memory, p);
    PartitionedExactly(memory, p + [c]);
  }

  lemma MainEnds(h: Host, found: seq<Candidate>)
    ensures Main(h, found) == NewCommand(Before(BUILTINS, KNOWN_PLUGINS, MOVED, h, found), REFRESH_COMMAND, true)
  {
    hide MEMORY_COMMAND_NAMES, BUILTINS, KNOWN_PLUGINS, MOVED, LoadedAll, StubbedAll, Noticed, NewCommand;
    BuiltinsHold();
  }

  lemma RefreshIsRead()
    ensures RegisteredName(REFRESH_COMMAND) == Some(REFRESH_COMMAND) && REFRESH_COMMAND != ""
  {
    hide RegisteredName;
    NotBlank(REFRESH_COMMAND);
  }

  lemma RefreshRegisters(p: Program)
    ensures match NewCommand(p, REFRESH_COMMAND, true)
            case Done(q) => q == p + [HiddenOne(REFRESH_COMMAND)] && REFRESH_COMMAND !in AllNames(p)
            case Collision => REFRESH_COMMAND in AllNames(p)
            case OtherError => false
  {
    hide AllNames, RegisteredName, REFRESH_COMMAND;
    RefreshIsRead();
    assert NamesOf(HiddenOne(REFRESH_COMMAND)) == {REFRESH_COMMAND};
  }

  lemma {:induction false} NotBlank(s: string)
    requires s != "" && forall c <- s :: c != ' '
    ensures UntilBlank(s) == s && RegisteredName(s) == Some(s)
  {
    if |s| > 1 {
      assert forall c <- s[1..] :: c in s;
      NotBlank(s[1..]);
    } else {
      assert UntilBlank(s[1..]) == "";
    }
    assert s[0] in s;
  }

  /** Whatever plugins are found and whatever they do, `main` throws only when one
      of them took the name of its last command, and otherwise each visible root
      command is in exactly one section. */
  lemma {:induction false} MainIsPartitioned(h: Host, found: seq<Candidate>)
    requires WellBehaved(h)
    ensures Main(h, found).Done? <==> REFRESH_COMMAND !in AllNames(LoadedAll(h, KNOWN_PLUGINS, BUILTINS, found).0)
    ensures !Main(h, found).Done? ==> Main(h, found).Collision?
    ensures Main(h, found).Done? ==> Partitioned(MEMORY_COMMAND_NAMES, Main(h, found).value)
  {
    hide MEMORY_COMMAND_NAMES, BUILTINS, KNOWN_PLUGINS, MOVED, LoadedAll, Before, Main, Partitioned, AllNames,
         NewCommand, Inv;
    BuiltinsHold();
    StubNames();
    MainEnds(h, found);
    RootIsPartitioned(BUILTINS, KNOWN_PLUGINS, MOVED, h, found, MEMORY_COMMAND_NAMES, REFRESH_COMMAND);
    var p := Before(BUILTINS, KNOWN_PLUGINS, MOVED, h, found);
    RefreshRegisters(p);
    UntaggedLast(MEMORY_COMMAND_NAMES, p, HiddenOne(REFRESH_COMMAND));
  }

  lemma {:induction false} PlainName(s: string)
    requires s != "" && forall c <- s :: !IsSeparator(c)
    ensures IsWellFormed(s)
  {
    assert s[0] in s;
    if |s| > 1 {
      assert forall c <- s[1..] :: c in s;
      PlainName(s[1..]);
    } else {
      assert EndsAtBlank(s[1..]);
    }
  }

  lemma RefreshIsPlain()
    ensures IsWellFormed(REFRESH_COMMAND)
  {
    hide IsWellFormed;
    PlainName(REFRESH_COMMAND);
  }

  /** The last command's name, registered by a plugin on a program that lacks it. */
  lemma RefreshTaken(p: Program)
    requires Disjoint(p) && "" !in AllNames(p) && REFRESH_COMMAND !in AllNames(p)
    ensures var calls := [CallCommand(0, REFRESH_COMMAND, false)];
            && IsRun(NO_VARIABLES.Keys, calls)
            && PatchedRun(StartPatch(p), calls).1
            && REFRESH_COMMAND in AllNames(PatchedRun(StartPatch(p), calls).0.program)
  {
    hide AllNames, IsWellFormed, RegisteredName, BaseName, REFRESH_COMMAND;
    RefreshIsPlain();
    RefreshIsRead();
    ReadingsAgree(REFRESH_COMMAND);
    var call := CallCommand(0, REFRESH_COMMAND, false);
    assert [call][1..] == [] && WellScoped(NO_VARIABLES.Keys + {0}, []);
    assert WellFormed(call);
    assert WellScoped(NO_VARIABLES.Keys, [call]);
    var c := Command(REFRESH_COMMAND, [], false, None);
    assert NamesOf(c) == {REFRESH_COMMAND};
    RegisterMeets(p, c);
    RegisterNames(p, c);
    assert Patched(StartPatch(p), CallCommand(0, REFRESH_COMMAND, false)).Done?;
    assert PatchedRun(Patched(StartPatch(p), CallCommand(0, REFRESH_COMMAND, false)).value, []).1;
  }

  /** Such a plugin, well behaved otherwise, takes the whole CLI down. */
  lemma PluginCanStopMain(c: Candidate) returns (h: Host)
    requires !c.pkg.main.MainNotString?
    ensures WellBehaved(h) && Importable(h, c) && Main(h, [c]) == Collision
  {
    hide MEMORY_COMMAND_NAMES, BUILTINS, KNOWN_PLUGINS, REFRESH_COMMAND, Main, AllNames, IsRun, PatchedRun;
    BuiltinsHold();
    RefreshTaken(BUILTINS);
    var calls := [CallCommand(0, REFRESH_COMMAND, false)];
    h := Host(_ => true, _ => true, _ => true, _ => Registers(calls, true));
    var q := PatchedRun(StartPatch(BUILTINS), calls).0.program;
    TaggedNames(q, |BUILTINS|, GroupOf(KNOWN_PLUGINS, c.pluginId));
    assert [c][..0] == [];
    assert LoadedAll(h, KNOWN_PLUGINS, BUILTINS, [c]).0 == Loaded(h, KNOWN_PLUGINS, BUILTINS, c).0;
    MainIsPartitioned(h, [c]);
  }

  // ---- Nothing of the host's own is left over ----

  ghost predicate Sectioned(p: Program, memory: set<string>) {
    forall i :: 0 <= i < |p| && Visible(p[i]) ==> p[i].name in memory || p[i].group.Some?
  }

  lemma ShownBuiltin(i: nat)
    requires i < |BUILTIN_NAMES|
    ensures BUILTIN_NAMES[i] in INTERNAL + MEMORY_COMMAND_NAMES + HIDDEN_COMMANDS
  {}

  lemma VisibleBuiltins()
    ensures Sectioned(BUILTINS, MEMORY_COMMAND_NAMES)
  {
    hide MEMORY_COMMAND_NAMES, BUILTIN_NAMES, INTERNAL, HIDDEN_COMMANDS;
    forall i | 0 <= i < |BUILTINS|
      ensures Visible(BUILTINS[i]) ==> BUILTINS[i].name in MEMORY_COMMAND_NAMES
    {
      ShownBuiltin(i);
    }
  }

  lemma {:induction false} StubsSectioned(p: Program, names: seq<string>, group: Option<HelpGroup>, memory: set<string>)
    requires Sectioned(p, memory) && group.Some?
    ensures Sectioned(Stubbed(p, names, group), memory)
    decreases |names|
  {
    if names != [] {
      var q := if names[0] in AllNames(p) then p else p + [Command(names[0], [], false, group)];
      StubsSectioned(q, names[1..], group, memory);
    }
  }

  lemma {:induction false} AllStubsSectioned(registry: seq<KnownPlugin>, loaded: set<string>, p: Program,
                                             memory: set<string>)
    requires Sectioned(p, memory) && forall k <- registry :: k.helpGroup.Some?
    ensures Sectioned(StubbedAll(registry, loaded, p).0, memory)
  {
    hide Sectioned, Stubbed;
    if registry != [] {
      var n := |registry| - 1;
      assert registry[n] in registry && forall k <- registry[..n] :: k in registry;
      AllStubsSectioned(registry[..n], loaded, p, memory);
      if registry[n].stub.Some? {
        StubsSectioned(StubbedAll(registry[..n], loaded, p).0, registry[n].stub.value, registry[n].helpGroup, memory);
      }
    }
  }

  lemma {:induction false} NoticesSectioned(p: Program, names: seq<string>, memory: set<string>)
    requires Sectioned(p, memory)
    ensures Sectioned(Noticed(p, names), memory)
    decreases |names|
  {
    if names != [] {
      var q := if names[0] in AllNames(p) then p else p + [HiddenOne(names[0])];
      NoticesSectioned(q, names[1..], memory);
    }
  }

  lemma GroupsKnown()
    ensures forall k <- KNOWN_PLUGINS :: k.helpGroup.Some?
  {}

  lemma HiddenLast(p: Program, c: Command, memory: set<string>)
    requires Sectioned(p, memory) && c.hidden
    ensures Sectioned(p + [c], memory)
  {}

  lemma {:induction false} NoOtherRows(memory: set<string>, p: Program)
    requires Sectioned(p, memory)
    ensures Rows(memory, p, Other) == []
  {
    hide HIDDEN_COMMANDS;
    if p != [] {
      NoOtherRows(memory, p[..|p| - 1]);
    }
  }

  /** With no plugin found, builtins and stubs alone leave "Other" empty. */
  lemma {:induction false} NothingIsOther(h: Host)
    ensures Main(h, []).Done? && Rows(MEMORY_COMMAND_NAMES, Main(h, []).value, Other) == []
  {
    hide MEMORY_COMMAND_NAMES, BUILTINS, KNOWN_PLUGINS, MOVED, StubbedAll, Noticed, HIDDEN_COMMANDS,
         AllNames, Rows, Sectioned, Main, NewCommand;
    BuiltinsHold();
    VisibleBuiltins();
    GroupsKnown();
    StubNames();
    MainEnds(h, []);
    var withStubs := StubbedAll(KNOWN_PLUGINS, {}, BUILTINS).0;
    AllStubsSectioned(KNOWN_PLUGINS, {}, BUILTINS, MEMORY_COMMAND_NAMES);
    NoticesSectioned(withStubs, MOVED, MEMORY_COMMAND_NAMES);
    StubsTakeNoOther(KNOWN_PLUGINS, {}, BUILTINS, REFRESH_COMMAND);
    NoticesTakeNoOther(withStubs, MOVED, REFRESH_COMMAND);
    var p := Noticed(withStubs, MOVED);
    RefreshRegisters(p);
    HiddenLast(p, HiddenOne(REFRESH_COMMAND), MEMORY_COMMAND_NAMES);
    NoOtherRows(MEMORY_COMMAND_NAMES, p + [HiddenOne(REFRESH_COMMAND)]);
  }

  // ---- main, part by part ----

  /** Builtins, then each plugin's turn, then the stubs of those that did not load,
      then the notices, then the last command. */
  lemma {:induction false} MainInOrder(h: Host, found: seq<Candidate>)
    returns (stages: seq<Program>, oks: seq<bool>, withStubs: Program, withNotices: Program)
    ensures |stages| == |found| + 1 && |oks| == |found| && stages[0] == BUILTINS
    ensures forall i :: 0 <= i < |found| ==> TakesTurn(h, KNOWN_PLUGINS, stages[i], found[i], stages[i + 1], oks[i])
    ensures var loaded := set i | 0 <= i < |found| && oks[i] :: found[i].pluginId;
            AddsMissing(KNOWN_PLUGINS, loaded, stages[|found|], withStubs)
    ensures AddsFree(MOVED, true, None, withStubs, withNotices)
    ensures Main(h, found) == NewCommand(withNotices, REFRESH_COMMAND, true)
  {
    hide MEMORY_COMMAND_NAMES, BUILTINS, KNOWN_PLUGINS, MOVED, LoadedAll, StubbedAll, Noticed, NewCommand, TakesTurn,
         AddsMissing, AddsFree, Main;
    stages, oks := LoadedOneByOne(h, KNOWN_PLUGINS, BUILTINS, found);
    var (withPlugins, loaded) := LoadedAll(h, KNOWN_PLUGINS, BUILTINS, found);
    withStubs := StubbedAll(KNOWN_PLUGINS, loaded, withPlugins).0;
    withNotices := Noticed(withStubs, MOVED);
    StubbedAllAdds(KNOWN_PLUGINS, loaded, withPlugins);
    NoticedAdds(withStubs, MOVED);
    MainEnds(h, found);
  }
}
