/** The root program of a host on which no plugin is found, command by command. */
module BareCli {
  import opened JsStrings
  import opened Wrappers
  import opened Commander
  import opened PluginLoader
  import opened HelpSections

  const SITE_NAMES: seq<string> := ["new", "convert", "dev", "build", "start", "reverse", "theme"]

  const NOTICE_NAMES: seq<string> := ["local-run-workflows", "workflow-run-status", "workflow-runs"]

  /** All that `main` adds to the builtins. */
  const ADDED_NAMES: seq<string> :=
    ["space"] + SITE_NAMES + ["workflow"] + NOTICE_NAMES

  function Fresh(names: seq<string>, hidden: bool, group: Option<HelpGroup>): (p: Program)
    ensures |p| == |names|
    ensures forall i :: 0 <= i < |names| ==> p[i] == Command(names[i], [], hidden, group)
  {
    seq(|names|, (i: nat) requires i < |names| => Command(names[i], [], hidden, group))
  }

  /** Free names are registered one after another. */
  lemma {:induction false} AllFree(p: Program, names: seq<string>, group: Option<HelpGroup>)
    requires Distinct(names) && forall n <- names :: n !in AllNames(p)
    ensures Stubbed(p, names, group) == p + Fresh(names, false, group)
    ensures Noticed(p, names) == p + Fresh(names, true, None)
    decreases |names|
  {
    hide AllNames;
    if names == [] {
      assert p + Fresh(names, false, group) == p == p + Fresh(names, true, None);
    } else {
      var c, d, rest := Command(names[0], [], false, group), HiddenOne(names[0]), names[1..];
      assert NamesOf(c) == {names[0]} == NamesOf(d);
      RegisterNames(p, c);
      RegisterNames(p, d);
      assert names[0] in names && forall n <- rest :: n in names && n != names[0];
      AllFree(p + [c], rest, group);
      AllFree(p + [d], rest, group);
      assert p + [c] + Fresh(rest, false, group) == p + Fresh(names, false, group);
      assert p + [d] + Fresh(rest, true, None) == p + Fresh(names, true, None);
    }
  }

  lemma {:induction false} FreshNames(p: Program, names: seq<string>, hidden: bool, group: Option<HelpGroup>)
    ensures AllNames(p + Fresh(names, hidden, group)) == AllNames(p) + set n | n in names
    decreases |names|
  {
    hide AllNames;
    if names == [] {
      assert p + Fresh(names, hidden, group) == p;
    } else {
      var n := |names| - 1;
      var c := Command(names[n], [], hidden, group);
      assert NamesOf(c) == {names[n]};
      FreshNames(p, names[..n], hidden, group);
      RegisterNames(p + Fresh(names[..n], hidden, group), c);
      assert p + Fresh(names[..n], hidden, group) + [c] == p + Fresh(names, hidden, group);
      assert forall x :: x in names <==> x in names[..n] || x == names[n];
    }
  }

  // ---- The names are free ----

  lemma FirstAreNew(k: nat, i: nat)
    requires k < 6 && i < |BUILTIN_NAMES|
    ensures ADDED_NAMES[k] != BUILTIN_NAMES[i]
  {}

  lemma LastAreNew(k: nat, i: nat)
    requires 6 <= k < |ADDED_NAMES| && i < |BUILTIN_NAMES|
    ensures ADDED_NAMES[k] != BUILTIN_NAMES[i]
  {}

  lemma NoneIsContext(k: nat)
    requires k < |ADDED_NAMES|
    ensures ADDED_NAMES[k] != "context" && ADDED_NAMES[k] != REFRESH_COMMAND
  {}

  lemma AddedDiffer(j: nat, k: nat)
    requires j < k < |ADDED_NAMES|
    ensures ADDED_NAMES[j] != ADDED_NAMES[k]
  {}

  lemma AddedIsFree(k: nat)
    requires k < |ADDED_NAMES|
    ensures ADDED_NAMES[k] !in AllNames(BUILTINS)
  {
    hide BUILTIN_NAMES, INTERNAL, ADDED_NAMES;
    NoneIsContext(k);
    if ADDED_NAMES[k] in AllNames(BUILTINS) {
      var i :| 0 <= i < |BUILTINS| && ADDED_NAMES[k] in NamesOf(BUILTINS[i]);
      assert BUILTINS[i] == Builtin(BUILTIN_NAMES[i]);
      if k < 6 {
        FirstAreNew(k, i);
      } else {
        LastAreNew(k, i);
      }
      assert false;
    }
  }

  function Names(s: seq<string>): set<string> { set n | n in s }

  /** A stretch of the added names is free before any of it is added. */
  lemma StretchIsFree(p: Program, a: nat, b: nat)
    requires a <= b <= |ADDED_NAMES| && AllNames(p) == AllNames(BUILTINS) + Names(ADDED_NAMES[..a])
    ensures Distinct(ADDED_NAMES[a..b]) && forall n <- ADDED_NAMES[a..b] :: n !in AllNames(p)
  {
    hide BUILTINS, ADDED_NAMES, AllNames;
    forall i, j | 0 <= i < j < b - a ensures ADDED_NAMES[a..b][i] != ADDED_NAMES[a..b][j] {
      AddedDiffer(a + i, a + j);
    }
    forall n <- ADDED_NAMES[a..b] ensures n !in AllNames(p) {
      var k :| a <= k < b && ADDED_NAMES[k] == n;
      AddedIsFree(k);
      if n in ADDED_NAMES[..a] {
        var j :| 0 <= j < a && ADDED_NAMES[j] == n;
        AddedDiffer(j, k);
      }
    }
  }

  /** So its stubs, or notices, are added just as they are listed. */
  lemma StretchIsAdded(p: Program, a: nat, b: nat, group: Option<HelpGroup>)
    requires a <= b <= |ADDED_NAMES| && AllNames(p) == AllNames(BUILTINS) + Names(ADDED_NAMES[..a])
    ensures var names := ADDED_NAMES[a..b]; var q := p + Fresh(names, false, group);
            Stubbed(p, names, group) == q && AllNames(q) == AllNames(BUILTINS) + Names(ADDED_NAMES[..b])
    ensures var names := ADDED_NAMES[a..b]; var q := p + Fresh(names, true, None);
            Noticed(p, names) == q && AllNames(q) == AllNames(BUILTINS) + Names(ADDED_NAMES[..b])
  {
    hide BUILTINS, ADDED_NAMES, AllNames, Stubbed, Noticed;
    var names := ADDED_NAMES[a..b];
    StretchIsFree(p, a, b);
    AllFree(p, names, group);
    FreshNames(p, names, false, group);
    FreshNames(p, names, true, None);
    assert ADDED_NAMES[..b] == ADDED_NAMES[..a] + names;
    assert Names(ADDED_NAMES[..b]) == Names(ADDED_NAMES[..a]) + Names(names);
  }

  lemma Stretches()
    ensures |ADDED_NAMES| == 12
    ensures ADDED_NAMES[0..1] == ["space"] && ADDED_NAMES[1..8] == SITE_NAMES
    ensures ADDED_NAMES[8..9] == ["workflow"] && ADDED_NAMES[9..12] == NOTICE_NAMES
  {}

  lemma ThreeStubs(a: KnownPlugin, b: KnownPlugin, c: KnownPlugin, p: Program)
    requires a.stub.Some? && b.stub.Some? && c.stub.Some?
    ensures StubbedAll([a, b, c], {}, p).0 ==
      Stubbed(Stubbed(Stubbed(p, a.stub.value, a.helpGroup), b.stub.value, b.helpGroup), c.stub.value, c.helpGroup)
  {
    hide Stubbed;
    assert [a, b, c][..2] == [a, b] && [a, b][..1] == [a] && [a][..0] == [];
    assert StubbedAll([a], {}, p).0 == Stubbed(p, a.stub.value, a.helpGroup);
    assert StubbedAll([a, b], {}, p).0 == Stubbed(StubbedAll([a], {}, p).0, b.stub.value, b.helpGroup);
  }

  lemma KnownStubs(p: Program)
    ensures StubbedAll(KNOWN_PLUGINS, {}, p).0 ==
      Stubbed(Stubbed(Stubbed(p, ["space"], Some(Space)), SITE_NAMES, Some(Site)), ["workflow"], Some(Workflow))
  {
    hide Stubbed, StubbedAll;
    ThreeStubs(KNOWN_PLUGINS[0], KNOWN_PLUGINS[1], KNOWN_PLUGINS[2], p);
    assert KNOWN_PLUGINS == [KNOWN_PLUGINS[0], KNOWN_PLUGINS[1], KNOWN_PLUGINS[2]];
  }

  /** The builtins, the stubs of the three known plugins in registry order, visible
      and each in its own group, the hidden notices and the hidden refresh. */
  lemma NoPluginProgram(h: Host)
    ensures Main(h, []) == Done(
      BUILTINS
      + Fresh(["space"], false, Some(Space))
      + Fresh(SITE_NAMES, false, Some(Site))
      + Fresh(["workflow"], false, Some(Workflow))
      + Fresh(NOTICE_NAMES, true, None)
      + [Command("__refresh-update-cache", [], true, None)])
  {
    Stretches();
    Refresh();
    NoPluginStages(h);
  }

  lemma Refresh()
    ensures REFRESH_COMMAND == "__refresh-update-cache" && MOVED == NOTICE_NAMES
  {}

  lemma NoPluginStages(h: Host)
    ensures Main(h, []) == Done(
      BUILTINS + Fresh(["space"], false, Some(Space)) + Fresh(SITE_NAMES, false, Some(Site))
      + Fresh(["workflow"], false, Some(Workflow)) + Fresh(NOTICE_NAMES, true, None) + [HiddenOne(REFRESH_COMMAND)])
  {
    Stretches();
    Refresh();
    hide BUILTINS, ADDED_NAMES, SITE_NAMES, NOTICE_NAMES, MOVED, REFRESH_COMMAND, KNOWN_PLUGINS,
         AllNames, Stubbed, Noticed, StubbedAll, Main, NewCommand;
    var p1 := BUILTINS + Fresh(["space"], false, Some(Space));
    var p2 := p1 + Fresh(SITE_NAMES, false, Some(Site));
    var p3 := p2 + Fresh(["workflow"], false, Some(Workflow));
    var p4 := p3 + Fresh(NOTICE_NAMES, true, None);
    assert Names(ADDED_NAMES[..0]) == {};
    StretchIsAdded(BUILTINS, 0, 1, Some(Space));
    StretchIsAdded(p1, 1, 8, Some(Site));
    StretchIsAdded(p2, 8, 9, Some(Workflow));
    StretchIsAdded(p3, 9, 12, None);
    KnownStubs(BUILTINS);
    MainEnds(h, []);
    assert Before(BUILTINS, KNOWN_PLUGINS, MOVED, h, []) == p4;
    RefreshRegisters(p4);
    NothingIsOther(h);
  }
}
