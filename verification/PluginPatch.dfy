/** `patchProgramCommand`: while a plugin registers, colliding names are recorded
    and skipped instead of throwing, against a shadow of the namespace. */
module PluginPatch {
  import opened Wrappers
  import opened CommandNames
  import opened Commander

  /** What a plugin does with the program; `v` is the variable it keeps a
      command in. */
  datatype Call =
    | CallCommand(v: nat, nameAndArgs: string, hidden: bool)
    | CallExecutable(nameAndArgs: string, hidden: bool)  // the form that returns the program
    | CallAddCommand(command: Command)
    | CallAlias(v: nat, alias: string)
    | CallAliases(v: nat, aliases: seq<string>)

  /** A command of the program, or a detached throwaway with its own sets. */
  datatype Handle = Attached(index: nat) | Throwaway(aliases: seq<string>, occupied: set<string>)

  datatype Patch = Patch(program: Program, occupied: set<string>, blocked: set<string>, handles: map<nat, Handle>)

  // ---- What each patched method does ----

  function PatchedNew(s: Patch, nameAndArgs: string, hidden: bool): (Outcome<Patch>, bool) {
    var base := BaseName(nameAndArgs);
    if base != "" && base in s.occupied then (Done(s.(blocked := s.blocked + {base})), false)
    else
      match NewCommand(s.program, nameAndArgs, hidden)
      case Done(p) => (Done(s.(program := p, occupied := s.occupied + if base != "" then {base} else {})), true)
      case Collision => (Collision, false)
      case OtherError => (OtherError, false)
  }

  function Elements(s: seq<string>): set<string> { set x | x in s }

  /** The names of `c` that collide. */
  function Conflicts(s: Patch, c: Command): set<string> {
    (if c.name != "" && c.name in s.occupied then {c.name} else {}) + Elements(c.aliases) * s.occupied
  }

  function PatchedAdd(s: Patch, c: Command): Outcome<Patch> {
    if Conflicts(s, c) != {} then Done(s.(blocked := s.blocked + Conflicts(s, c)))
    else
      match AddCommand(s.program, c)
      case Done(p) => Done(s.(program := p, occupied := s.occupied + NamesOf(c)))
      case Collision => Collision
      case OtherError => OtherError
  }

  /** A throwaway has the empty name and no parent to collide in. */
  function PatchedAlias(s: Patch, v: nat, a: string): Outcome<Patch>
    requires v in s.handles && (s.handles[v].Attached? ==> s.handles[v].index < |s.program|)
  {
    match s.handles[v]
    case Throwaway(aliases, occupied) =>
      if a in occupied then Done(s)
      else if a == "" then OtherError
      else Done(s.(handles := s.handles[v := Throwaway(aliases + [a], occupied + {a})]))
    case Attached(i) =>
      if a in s.occupied then Done(s.(blocked := s.blocked + {a}))
      else
        match Alias(s.program, i, a)
        case Done(p) => Done(s.(program := p, occupied := s.occupied + {a}))
        case Collision => Collision
        case OtherError => OtherError
  }

  /** Up to the first alias that throws. */
  function PatchedAliases(s: Patch, v: nat, names: seq<string>): Outcome<Patch>
    requires v in s.handles && (s.handles[v].Attached? ==> s.handles[v].index < |s.program|)
    decreases |names|
  {
    if names == [] then Done(s)
    else
      var first := PatchedAlias(s, v, names[0]);
      if first.Done? then PatchedAliases(first.value, v, names[1..]) else first
  }

  /** The aliases before the first that throws. */
  function PartlyAliased(s: Patch, v: nat, names: seq<string>): Patch
    requires v in s.handles && (s.handles[v].Attached? ==> s.handles[v].index < |s.program|)
    decreases |names|
  {
    if names == [] then s
    else
      var first := PatchedAlias(s, v, names[0]);
      if first.Done? then PartlyAliased(first.value, v, names[1..]) else s
  }

  lemma {:induction false} AllAliased(s: Patch, v: nat, names: seq<string>)
    requires Bound(s, v)
    ensures PatchedAliases(s, v, names).Done? ==> PartlyAliased(s, v, names) == PatchedAliases(s, v, names).value
    decreases |names|
  {
    if names != [] && PatchedAlias(s, v, names[0]).Done? {
      AllAliased(PatchedAlias(s, v, names[0]).value, v, names[1..]);
    }
  }

  predicate Bound(s: Patch, v: nat) {
    v in s.handles && (s.handles[v].Attached? ==> s.handles[v].index < |s.program|)
  }

  function Patched(s: Patch, call: Call): Outcome<Patch>
    requires call.CallAlias? || call.CallAliases? ==> Bound(s, call.v)
  {
    match call
    case CallCommand(v, nameAndArgs, hidden) =>
      var (outcome, created) := PatchedNew(s, nameAndArgs, hidden);
      if !outcome.Done? then outcome
      else
        var handle := if created then Attached(|s.program|) else Throwaway([], {});
        Done(outcome.value.(handles := s.handles[v := handle]))
    case CallExecutable(nameAndArgs, hidden) => PatchedNew(s, nameAndArgs, hidden).0
    case CallAddCommand(c) => PatchedAdd(s, c)
    case CallAlias(v, a) => PatchedAlias(s, v, a)
    case CallAliases(v, names) => PatchedAliases(s, v, names)
  }

  /** Every use of a variable is of one that holds a command. */
  predicate Usable(s: Patch, call: Call) { call.CallAlias? || call.CallAliases? ==> Bound(s, call.v) }

  /** What a call leaves, also when it throws. */
  function Left(s: Patch, call: Call): Patch
    requires Usable(s, call)
  {
    var next := Patched(s, call);
    if next.Done? then next.value
    else if call.CallAliases? then PartlyAliased(s, call.v, call.aliases)
    else s
  }

  /** A plugin's calls up to the first that throws, and whether none does. */
  function PatchedRun(s: Patch, calls: seq<Call>): (Patch, bool)
    decreases |calls|
  {
    if calls == [] then (s, true)
    else if !Usable(s, calls[0]) then (s, false)
    else if !Patched(s, calls[0]).Done? then (Left(s, calls[0]), false)
    else PatchedRun(Patched(s, calls[0]).value, calls[1..])
  }

  function StartPatch(p: Program): Patch { Patch(p, AllNames(p), {}, map[]) }

  // ---- Any calls at all ----

  /** `was` comes first in the program, and no handle reaches into it. */
  ghost predicate Behind(s: Patch, was: Program) {
    was <= s.program && forall v <- s.handles ::
      s.handles[v].Attached? ==> |was| <= s.handles[v].index < |s.program|
  }

  lemma AliasBehind(s: Patch, was: Program, v: nat, a: string)
    requires Behind(s, was) && Bound(s, v)
    ensures var next := PatchedAlias(s, v, a); next.Done? ==> Behind(next.value, was) && Bound(next.value, v)
  {}

  lemma {:induction false} AliasesBehind(s: Patch, was: Program, v: nat, names: seq<string>)
    requires Behind(s, was) && Bound(s, v)
    ensures Behind(PartlyAliased(s, v, names), was)
    decreases |names|
  {
    if names != [] && PatchedAlias(s, v, names[0]).Done? {
      AliasBehind(s, was, v, names[0]);
      AliasesBehind(PatchedAlias(s, v, names[0]).value, was, v, names[1..]);
    }
  }

  lemma CallBehind(s: Patch, was: Program, call: Call)
    requires Behind(s, was) && Usable(s, call)
    ensures Behind(Left(s, call), was)
  {
    match call
    case CallAliases(v, names) =>
      AliasesBehind(s, was, v, names);
      AllAliased(s, v, names);
    case _ =>
  }

  /** Whatever a plugin calls, well formed or not, the commands that were there
      before stay as they are and where they are. */
  lemma {:induction false} OldCommandsStay(s: Patch, was: Program, calls: seq<Call>)
    requires Behind(s, was)
    ensures was <= PatchedRun(s, calls).0.program
    decreases |calls|
  {
    hide Left, Patched;
    if calls != [] && Usable(s, calls[0]) {
      CallBehind(s, was, calls[0]);
      if Patched(s, calls[0]).Done? {
        DoneLeaves(s, calls[0]);
        OldCommandsStay(Patched(s, calls[0]).value, was, calls[1..]);
      }
    }
  }

  lemma DoneLeaves(s: Patch, call: Call)
    requires Usable(s, call) && Patched(s, call).Done?
    ensures Left(s, call) == Patched(s, call).value
  {}

  /** A call that throws ends the run; without one, a run goes on. */
  lemma {:induction false} RunsCompose(s: Patch, a: seq<Call>, b: seq<Call>)
    ensures PatchedRun(s, a + b) == if PatchedRun(s, a).1 then PatchedRun(PatchedRun(s, a).0, b) else PatchedRun(s, a)
    decreases |a|
  {
    if a == [] {
      assert a + b == b;
    } else {
      assert (a + b)[1..] == a[1..] + b;
      if Usable(s, a[0]) && Patched(s, a[0]).Done? {
        RunsCompose(Patched(s, a[0]).value, a[1..], b);
      }
    }
  }

  // ---- The patched program ----

  class PatchedProgram {
    var commands: Program
    var occupiedNames: set<string>
    var blockedNames: set<string>
    var handles: map<nat, Handle>

    function View(): Patch
      reads this
    {
      Patch(commands, occupiedNames, blockedNames, handles)
    }

    /** The snapshot of names and aliases, then the patch. */
    constructor (program: Program)
      ensures View() == StartPatch(program)
    {
      commands := program;
      blockedNames := {};
      handles := map[];
      occupiedNames := {};
      new;
      for i := 0 to |program|
        invariant commands == program && blockedNames == {} && handles == map[]
        invariant occupiedNames == AllNames(program[..i])
      {
        assert program[..i + 1] == program[..i] + [program[i]];
        RegisterNames(program[..i], program[i]);
        occupiedNames := occupiedNames + {program[i].name} + set a | a in program[i].aliases;
      }
      assert program[..|program|] == program;
    }

    /** `program.command`; true when a command was created, not a throwaway. */
    method New(nameAndArgs: string, hidden: bool) returns (outcome: Outcome<bool>)
      modifies this
      ensures var (next, created) := PatchedNew(old(View()), nameAndArgs, hidden);
              match next
              case Done(s) => View() == s && outcome == Done(created)
              case Collision => View() == old(View()) && outcome == Collision
              case OtherError => View() == old(View()) && outcome == OtherError
    {
      var base := BaseName(nameAndArgs);
      if base != "" && base in occupiedNames {
        blockedNames := blockedNames + {base};
        return Done(false);
      }
      match NewCommand(commands, nameAndArgs, hidden)
      case Done(p) =>
        commands := p;
        if base != "" {
          occupiedNames := occupiedNames + {base};
        }
        return Done(true);
      case Collision => return Collision;
      case OtherError => return OtherError;
    }

    /** `v = program.command(...)`, with the alias methods of the result patched. */
    method NewInto(v: nat, nameAndArgs: string, hidden: bool) returns (outcome: Outcome<()>)
      modifies this
      ensures match Patched(old(View()), CallCommand(v, nameAndArgs, hidden))
              case Done(s) => View() == s && outcome == Done(())
              case Collision => View() == old(View()) && outcome == Collision
              case OtherError => View() == old(View()) && outcome == OtherError
    {
      var index := |commands|;
      var created := New(nameAndArgs, hidden);
      match created
      case Done(attached) =>
        handles := handles[v := if attached then Attached(index) else Throwaway([], {})];
        return Done(());
      case Collision => return Collision;
      case OtherError => return OtherError;
    }

    /** The name and the aliases of `c` that are taken. */
    method FindConflicts(c: Command) returns (conflicts: seq<string>)
      ensures Elements(conflicts) == Conflicts(View(), c)
    {
      conflicts := [];
      if c.name != "" && c.name in occupiedNames {
        conflicts := conflicts + [c.name];
      }
      ghost var own := Elements(conflicts);
      for i := 0 to |c.aliases|
        invariant Elements(conflicts) == own + Elements(c.aliases[..i]) * occupiedNames
      {
        var a := c.aliases[i];
        assert c.aliases[..i + 1] == c.aliases[..i] + [a];
        assert Elements(c.aliases[..i + 1]) == Elements(c.aliases[..i]) + {a};
        if a in occupiedNames {
          assert Elements(conflicts + [a]) == Elements(conflicts) + {a};
          conflicts := conflicts + [a];
        }
      }
      assert c.aliases[..|c.aliases|] == c.aliases;
    }

    method Block(conflicts: seq<string>)
      modifies this
      ensures View() == old(View()).(blocked := old(blockedNames) + Elements(conflicts))
    {
      for i := 0 to |conflicts|
        invariant View() == old(View()).(blocked := old(blockedNames) + Elements(conflicts[..i]))
      {
        assert conflicts[..i + 1] == conflicts[..i] + [conflicts[i]];
        assert Elements(conflicts[..i + 1]) == Elements(conflicts[..i]) + {conflicts[i]};
        blockedNames := blockedNames + {conflicts[i]};
      }
      assert conflicts[..|conflicts|] == conflicts;
    }

    /** `program.addCommand`. */
    method Add(c: Command) returns (outcome: Outcome<()>)
      modifies this
      ensures match PatchedAdd(old(View()), c)
              case Done(s) => View() == s && outcome == Done(())
              case Collision => View() == old(View()) && outcome == Collision
              case OtherError => View() == old(View()) && outcome == OtherError
    {
      var conflicts := FindConflicts(c);
      if |conflicts| > 0 {
        assert conflicts[0] in Conflicts(View(), c);
        Block(conflicts);
        return Done(());
      }
      match AddCommand(commands, c)
      case Done(p) =>
        commands := p;
        occupiedNames := occupiedNames + {c.name} + set a | a in c.aliases;
        return Done(());
      case Collision => return Collision;
      case OtherError => return OtherError;
    }

    /** `v.alias(a)`. */
    method AliasOn(v: nat, a: string) returns (outcome: Outcome<()>)
      requires Bound(View(), v)
      modifies this
      ensures match PatchedAlias(old(View()), v, a)
              case Done(s) => View() == s && outcome == Done(())
              case Collision => View() == old(View()) && outcome == Collision
              case OtherError => View() == old(View()) && outcome == OtherError
    {
      match handles[v]
      case Throwaway(aliases, occupied) =>
        if a in occupied {
          return Done(());
        }
        if a == "" {
          return OtherError;
        }
        handles := handles[v := Throwaway(aliases + [a], occupied + {a})];
        return Done(());
      case Attached(i) =>
        if a in occupiedNames {
          blockedNames := blockedNames + {a};
          return Done(());
        }
        match Alias(commands, i, a)
        case Done(p) =>
          commands := p;
          occupiedNames := occupiedNames + {a};
          return Done(());
        case Collision => return Collision;
        case OtherError => return OtherError;
    }

    /** `v.aliases(names)`, each through the patched `alias`. */
    method AliasesOn(v: nat, names: seq<string>) returns (outcome: Outcome<()>)
      requires Bound(View(), v)
      modifies this
      ensures View() == PartlyAliased(old(View()), v, names)
      ensures match PatchedAliases(old(View()), v, names)
              case Done(s) => View() == s && outcome == Done(())
              case Collision => outcome == Collision
              case OtherError => outcome == OtherError
    {
      AllAliased(View(), v, names);
      for i := 0 to |names|
        invariant Bound(View(), v)
        invariant PatchedAliases(old(View()), v, names) == PatchedAliases(View(), v, names[i..])
        invariant PartlyAliased(old(View()), v, names) == PartlyAliased(View(), v, names[i..])
      {
        assert names[i..][1..] == names[i + 1..];
        outcome := AliasOn(v, names[i]);
        if !outcome.Done? {
          return;
        }
      }
      outcome := Done(());
    }

    /** One call of the plugin's. */
    method Make(call: Call) returns (outcome: Outcome<()>)
      requires Usable(View(), call)
      modifies this
      ensures View() == Left(old(View()), call)
      ensures outcome.Done? <==> Patched(old(View()), call).Done?
    {
      match call
      case CallCommand(v, nameAndArgs, hidden) => outcome := NewInto(v, nameAndArgs, hidden);
      case CallExecutable(nameAndArgs, hidden) =>
        var created := New(nameAndArgs, hidden);
        outcome := if created.Done? then Done(()) else OtherError;
      case CallAddCommand(c) => outcome := Add(c);
      case CallAlias(v, a) => outcome := AliasOn(v, a);
      case CallAliases(v, names) => outcome := AliasesOn(v, names);
    }

    /** `plugin.register(ctx)`. */
    method Register(calls: seq<Call>) returns (returned: bool)
      modifies this
      ensures (View(), returned) == PatchedRun(old(View()), calls)
    {
      for i := 0 to |calls|
        invariant PatchedRun(old(View()), calls) == PatchedRun(View(), calls[i..])
      {
        assert calls[i..][1..] == calls[i + 1..];
        if !Usable(View(), calls[i]) {
          return false;
        }
        var outcome := Make(calls[i]);
        if !outcome.Done? {
          return false;
        }
      }
      return true;
    }
  }
}
