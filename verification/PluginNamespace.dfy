/** The patched program against plain Commander: what a plugin's calls leave is
    what Commander itself leaves after the colliding ones are taken out. */
module PluginNamespace {
  import opened Wrappers
  import opened CommandNames
  import opened Commander
  import opened PluginPatch

  // ---- The calls that do not collide ----

  /** Which command a plugin's variable holds; `None` for one that was dropped. */
  type Variables = map<nat, Option<nat>>

  /** The names that are new, each also to those before it. */
  function NewNames(known: set<string>, names: seq<string>): seq<string>
    decreases |names|
  {
    if names == [] then []
    else if names[0] in known then NewNames(known, names[1..])
    else [names[0]] + NewNames(known + {names[0]}, names[1..])
  }

  /** What is left of `call` when Commander's collisions are taken out: the call,
      the call with fewer aliases, or nothing. */
  function Keep(p: Program, vars: Variables, call: Call): Option<Call>
    requires call.CallAlias? || call.CallAliases? ==> call.v in vars
  {
    match call
    case CallCommand(_, s, hidden) => if NewCommand(p, s, hidden).Done? then Some(call) else None
    case CallExecutable(s, hidden) => if NewCommand(p, s, hidden).Done? then Some(call) else None
    case CallAddCommand(c) => if AddCommand(p, c).Done? then Some(call) else None
    case CallAlias(v, a) => if vars[v].Some? && a !in AllNames(p) then Some(call) else None
    case CallAliases(v, names) =>
      if vars[v].Some? then Some(CallAliases(v, NewNames(AllNames(p), names))) else None
  }

  /** The names on which `call` collides in `p`. */
  function CollidesOn(p: Program, vars: Variables, call: Call): set<string>
    requires call.CallAlias? || call.CallAliases? ==> call.v in vars
  {
    match call
    case CallCommand(_, s, _) => if RegisteredName(s).Some? then {RegisteredName(s).value} * AllNames(p) else {}
    case CallExecutable(s, _) => if RegisteredName(s).Some? then {RegisteredName(s).value} * AllNames(p) else {}
    case CallAddCommand(c) => NamesOf(c) * AllNames(p)
    case CallAlias(v, a) => if vars[v].Some? then {a} * AllNames(p) else {}
    case CallAliases(v, names) =>
      if vars[v].Some?
      then set i | 0 <= i < |names| && (names[i] in AllNames(p) || names[i] in names[..i]) :: names[i] else {}
  }

  /** Plain Commander on one call. */
  function Plain(p: Program, vars: Variables, call: Call): Outcome<Program> {
    match call
    case CallCommand(_, s, hidden) => NewCommand(p, s, hidden)
    case CallExecutable(s, hidden) => NewCommand(p, s, hidden)
    case CallAddCommand(c) => AddCommand(p, c)
    case CallAlias(v, a) =>
      if v in vars && vars[v].Some? && vars[v].value < |p| then Alias(p, vars[v].value, a) else OtherError
    case CallAliases(v, names) =>
      if v in vars && vars[v].Some? && vars[v].value < |p| then Aliases(p, vars[v].value, names) else OtherError
  }

  const NO_VARIABLES: Variables := map[]

  function Assigned(p: Program, vars: Variables, call: Call, kept: bool): (r: Variables)
    ensures r.Keys == if call.CallCommand? then vars.Keys + {call.v} else vars.Keys
  {
    if call.CallCommand? then vars[call.v := if kept then Some(|p|) else None] else vars
  }

  // ---- Well-formed runs ----

  /** Names are well formed and not empty. */
  predicate WellFormed(call: Call) {
    match call
    case CallCommand(_, s, _) => IsWellFormed(s)
    case CallExecutable(s, _) => IsWellFormed(s)
    case CallAddCommand(c) => c.name != "" && "" !in c.aliases
    case CallAlias(_, a) => a != ""
    case CallAliases(_, names) => "" !in names
  }

  /** A variable is assigned before it is used. */
  predicate WellScoped(defined: set<nat>, calls: seq<Call>)
    decreases |calls|
  {
    if calls == [] then true
    else
      var call := calls[0];
      (call.CallAlias? || call.CallAliases? ==> call.v in defined) &&
      WellScoped(if call.CallCommand? then defined + {call.v} else defined, calls[1..])
  }

  predicate IsRun(defined: set<nat>, calls: seq<Call>) {
    WellScoped(defined, calls) && forall c <- calls :: WellFormed(c)
  }

  /** The shadow agrees with the program, and the handles with the variables;
      no handle reaches below `base`, where the commands of others are. */
  ghost predicate Sync(s: Patch, vars: Variables, base: nat) {
    && s.occupied == AllNames(s.program) && "" !in s.occupied && Disjoint(s.program)
    && base <= |s.program| && s.handles.Keys == vars.Keys
    && forall v <- vars ::
         match vars[v]
         case Some(i) => s.handles[v] == Attached(i) && base <= i < |s.program|
         case None => s.handles[v].Throwaway?
  }

  lemma RegisterMeets(p: Program, c: Command)
    requires "" !in AllNames(p)
    ensures Register(p, c) == if NamesOf(c) * AllNames(p) == {} then Done(p + [c]) else Collision
  {
    if Register(p, c).Collision? {
      var n :| n in NamesOf(c) && Known(p, n);
      assert n in NamesOf(c) * AllNames(p);
    } else {
      assert forall n <- NamesOf(c) :: !Known(p, n);
      assert NamesOf(c) * AllNames(p) == {};
    }
  }

  lemma NewStep(s: Patch, vars: Variables, base: nat, nameAndArgs: string, hidden: bool)
    requires Sync(s, vars, base) && IsWellFormed(nameAndArgs)
    ensures var (next, created) := PatchedNew(s, nameAndArgs, hidden);
            var plain := NewCommand(s.program, nameAndArgs, hidden);
            var name := RegisteredName(nameAndArgs);
            && name.Some? && next.Done? && (created <==> plain.Done?)
            && next.value.program == (if plain.Done? then plain.value else s.program)
            && next.value.blocked == s.blocked + {name.value} * AllNames(s.program)
            && next.value.handles == s.handles
            && Sync(next.value, vars, base) && s.program <= next.value.program
            && (created ==> |next.value.program| == |s.program| + 1)
  {
    ReadingsAgree(nameAndArgs);
    var c := Command(BaseName(nameAndArgs), [], hidden, None);
    assert NamesOf(c) == {c.name};
    RegisterMeets(s.program, c);
    RegisterNames(s.program, c);
  }

  lemma AddStep(s: Patch, vars: Variables, base: nat, c: Command)
    requires Sync(s, vars, base) && c.name != "" && "" !in c.aliases
    ensures var next := PatchedAdd(s, c);
            var plain := AddCommand(s.program, c);
            && next.Done? && next.value.program == (if plain.Done? then plain.value else s.program)
            && next.value.blocked == s.blocked + NamesOf(c) * AllNames(s.program)
            && next.value.handles == s.handles
            && Sync(next.value, vars, base) && s.program <= next.value.program
  {
    assert Conflicts(s, c) == NamesOf(c) * AllNames(s.program);
    RegisterMeets(s.program, c);
    RegisterNames(s.program, c);
  }

  lemma AliasStep(s: Patch, vars: Variables, base: nat, v: nat, a: string)
    requires Sync(s, vars, base) && v in vars && a != ""
    ensures var next := PatchedAlias(s, v, a);
            && next.Done? && Sync(next.value, vars, base)
            && s.program[..base] <= next.value.program
            && (vars[v].None? ==> next.value.program == s.program && next.value.blocked == s.blocked)
            && (vars[v].Some? && a in AllNames(s.program) ==>
                next.value.program == s.program && next.value.blocked == s.blocked + {a})
            && (vars[v].Some? && a !in AllNames(s.program) ==>
                && Alias(s.program, vars[v].value, a) == Done(next.value.program)
                && next.value.blocked == s.blocked
                && AllNames(next.value.program) == AllNames(s.program) + {a})
  {
    if vars[v].Some? {
      var i := vars[v].value;
      assert s.program[i].name in NamesOf(s.program[i]);
      assert s.program[i].name in AllNames(s.program);
      if a !in AllNames(s.program) {
        AliasNames(s.program, i, a);
      }
    }
  }

  /** What `aliases(names)` collides on, as it goes. */
  function Repeated(known: set<string>, names: seq<string>): set<string>
    decreases |names|
  {
    if names == [] then {}
    else (if names[0] in known then {names[0]} else {}) + Repeated(known + {names[0]}, names[1..])
  }

  lemma {:induction false} RepeatedExact(known: set<string>, names: seq<string>)
    ensures Repeated(known, names) ==
      set i | 0 <= i < |names| && (names[i] in known || names[i] in names[..i]) :: names[i]
    decreases |names|
  {
    if names != [] {
      var rest := names[1..];
      RepeatedExact(known + {names[0]}, rest);
      forall n
        ensures n in Repeated(known, names) <==>
          exists i :: 0 <= i < |names| && (names[i] in known || names[i] in names[..i]) && names[i] == n
      {
        if n in Repeated(known + {names[0]}, rest) {
          var i :| 0 <= i < |rest| && (rest[i] in known + {names[0]} || rest[i] in rest[..i]) && rest[i] == n;
          assert names[..i + 1] == [names[0]] + rest[..i];
          assert names[i + 1] == n;
        }
        if i :| 0 <= i < |names| && (names[i] in known || names[i] in names[..i]) && names[i] == n {
          if i > 0 {
            assert names[..i] == [names[0]] + rest[..i - 1];
            assert rest[i - 1] == n;
          }
        }
      }
    }
  }

  lemma {:induction false} AliasesStep(s: Patch, vars: Variables, base: nat, v: nat, names: seq<string>)
    requires Sync(s, vars, base) && v in vars && "" !in names
    ensures var next := PatchedAliases(s, v, names);
            && next.Done? && Sync(next.value, vars, base) && s.program[..base] <= next.value.program
            && (vars[v].None? ==> next.value.program == s.program && next.value.blocked == s.blocked)
            && (vars[v].Some? ==>
                && Aliases(s.program, vars[v].value, NewNames(AllNames(s.program), names)) == Done(next.value.program)
                && next.value.blocked == s.blocked + Repeated(AllNames(s.program), names))
    decreases |names|
  {
    hide Sync, PatchedAlias, AllNames, Disjoint;
    if names == [] {
      if vars[v].Some? {
        InRange(s, vars, base, v);
      }
      KeepsBase(s, vars, base);
    } else {
      InRange(s, vars, base, v);
      AliasStep(s, vars, base, v, names[0]);
      var t := PatchedAlias(s, v, names[0]).value;
      AliasesStep(t, vars, base, v, names[1..]);
      InRange(t, vars, base, v);
      KeepsBase(s, vars, base);
      KeepsBase(t, vars, base);
      if vars[v].Some? {
        var known, i := AllNames(s.program), vars[v].value;
        if names[0] in known {
          assert known + {names[0]} == known;
        } else {
          var added := NewNames(known, names);
          assert added[1..] == NewNames(known + {names[0]}, names[1..]);
        }
      }
    }
  }

  lemma InRange(s: Patch, vars: Variables, base: nat, v: nat)
    requires Sync(s, vars, base) && v in vars
    ensures Bound(s, v) && (vars[v].Some? ==> vars[v].value < |s.program|)
  {}

  lemma KeepsBase(s: Patch, vars: Variables, base: nat)
    requires Sync(s, vars, base)
    ensures base <= |s.program|
  {}

  predicate InScope(vars: Variables, call: Call) {
    call.CallAlias? || call.CallAliases? ==> call.v in vars
  }

  /** One call of a plugin: it does not throw, the program changes as plain
      Commander changes it on what is kept, and exactly the colliding names are
      recorded. */
  ghost predicate Simulated(s: Patch, vars: Variables, base: nat, call: Call)
    requires InScope(vars, call)
    requires call.CallAlias? || call.CallAliases? ==> Bound(s, call.v)
  {
    var next, kept := Patched(s, call), Keep(s.program, vars, call);
    && next.Done?
    && (kept.None? ==> next.value.program == s.program)
    && (kept.Some? ==> Plain(s.program, vars, kept.value) == Done(next.value.program))
    && next.value.blocked == s.blocked + CollidesOn(s.program, vars, call)
    && Sync(next.value, Assigned(s.program, vars, call, kept.Some?), base)
    && base <= |s.program| && s.program[..base] <= next.value.program
  }

  lemma CommandSimulated(s: Patch, vars: Variables, base: nat, v: nat, nameAndArgs: string, hidden: bool)
    requires Sync(s, vars, base) && IsWellFormed(nameAndArgs)
    ensures Simulated(s, vars, base, CallCommand(v, nameAndArgs, hidden))
  {
    hide AllNames, Disjoint, RegisteredName, NewCommand, PatchedNew;
    NewStep(s, vars, base, nameAndArgs, hidden);
  }

  lemma AliasSimulated(s: Patch, vars: Variables, base: nat, v: nat, a: string)
    requires Sync(s, vars, base) && v in vars && a != ""
    ensures Bound(s, v) && Simulated(s, vars, base, CallAlias(v, a))
  {
    hide AllNames, Disjoint, PatchedAlias, Alias;
    InRange(s, vars, base, v);
    AliasStep(s, vars, base, v, a);
  }

  lemma AliasesSimulated(s: Patch, vars: Variables, base: nat, v: nat, names: seq<string>)
    requires Sync(s, vars, base) && v in vars && "" !in names
    ensures Bound(s, v) && Simulated(s, vars, base, CallAliases(v, names))
  {
    hide AllNames, Sync, PatchedAliases, Aliases, Repeated;
    InRange(s, vars, base, v);
    KeepsBase(s, vars, base);
    AliasesStep(s, vars, base, v, names);
    RepeatedExact(AllNames(s.program), names);
  }

  lemma StepSimulates(s: Patch, vars: Variables, base: nat, call: Call)
    requires Sync(s, vars, base) && WellFormed(call) && InScope(vars, call)
    ensures call.CallAlias? || call.CallAliases? ==> Bound(s, call.v)
    ensures Simulated(s, vars, base, call)
  {
    match call
    case CallCommand(v, nameAndArgs, hidden) => CommandSimulated(s, vars, base, v, nameAndArgs, hidden);
    case CallExecutable(nameAndArgs, hidden) => NewStep(s, vars, base, nameAndArgs, hidden);
    case CallAddCommand(c) => AddStep(s, vars, base, c);
    case CallAlias(v, a) => AliasSimulated(s, vars, base, v, a);
    case CallAliases(v, names) => AliasesSimulated(s, vars, base, v, names);
  }

  // ---- Whole runs ----

  /** The program plain Commander has after the first call's kept part. */
  function Follow(p: Program, vars: Variables, call: Call): Program
    requires InScope(vars, call)
  {
    var kept := Keep(p, vars, call);
    if kept.Some? && Plain(p, vars, kept.value).Done? then Plain(p, vars, kept.value).value else p
  }

  /** The calls that are left when all collisions are taken out, in order. */
  function Filtered(p: Program, vars: Variables, calls: seq<Call>): seq<Call>
    requires WellScoped(vars.Keys, calls)
    decreases |calls|
  {
    if calls == [] then []
    else
      var kept := Keep(p, vars, calls[0]);
      (if kept.Some? then [kept.value] else []) +
      Filtered(Follow(p, vars, calls[0]), Assigned(p, vars, calls[0], kept.Some?), calls[1..])
  }

  /** Every name a call collides on, by Commander's own state at that point. */
  function Collided(p: Program, vars: Variables, calls: seq<Call>): set<string>
    requires WellScoped(vars.Keys, calls)
    decreases |calls|
  {
    if calls == [] then {}
    else
      var kept := Keep(p, vars, calls[0]);
      CollidesOn(p, vars, calls[0]) +
      Collided(Follow(p, vars, calls[0]), Assigned(p, vars, calls[0], kept.Some?), calls[1..])
  }

  /** Plain Commander on a list of calls, up to the first that throws. */
  function PlainRun(p: Program, vars: Variables, calls: seq<Call>): Outcome<Program>
    decreases |calls|
  {
    if calls == [] then Done(p)
    else
      var next := Plain(p, vars, calls[0]);
      if next.Done? then PlainRun(next.value, Assigned(p, vars, calls[0], true), calls[1..]) else next
  }

  /** Plain Commander's variables hold what the kept commands gave them. */
  predicate Agrees(vars: Variables, plain: Variables) {
    forall v <- vars :: vars[v].Some? ==> v in plain && plain[v] == vars[v]
  }

  lemma PlainAgrees(p: Program, vars: Variables, plain: Variables, call: Call)
    requires InScope(vars, call) && Agrees(vars, plain) && Keep(p, vars, call).Some?
    ensures var kept := Keep(p, vars, call).value;
            && Plain(p, plain, kept) == Plain(p, vars, kept)
            && Agrees(Assigned(p, vars, call, true), Assigned(p, plain, kept, true))
  {}

  lemma PlainRunStep(p: Program, plain: Variables, call: Call, rest: seq<Call>)
    requires Plain(p, plain, call).Done?
    ensures PlainRun(p, plain, [call] + rest) ==
      PlainRun(Plain(p, plain, call).value, Assigned(p, plain, call, true), rest)
  {
    assert ([call] + rest)[1..] == rest;
  }

  /** Plain Commander on the first kept call, then on the rest. */
  lemma FilteredStep(p: Program, vars: Variables, plain: Variables, calls: seq<Call>, next: Program)
    returns (plain': Variables)
    requires WellScoped(vars.Keys, calls) && calls != [] && Agrees(vars, plain)
    requires var kept := Keep(p, vars, calls[0]);
             if kept.Some? then Plain(p, vars, kept.value) == Done(next) else next == p
    ensures var vars' := Assigned(p, vars, calls[0], Keep(p, vars, calls[0]).Some?);
            && WellScoped(vars'.Keys, calls[1..]) && Agrees(vars', plain')
            && PlainRun(p, plain, Filtered(p, vars, calls)) == PlainRun(next, plain', Filtered(next, vars', calls[1..]))
            && Collided(p, vars, calls) == CollidesOn(p, vars, calls[0]) + Collided(next, vars', calls[1..])
  {
    hide Keep, Plain, CollidesOn, PlainRun;
    var call, kept := calls[0], Keep(p, vars, calls[0]);
    var vars' := Assigned(p, vars, call, kept.Some?);
    plain' := plain;
    if kept.Some? {
      PlainAgrees(p, vars, plain, call);
      plain' := Assigned(p, plain, kept.value, true);
      PlainRunStep(p, plain, kept.value, Filtered(next, vars', calls[1..]));
    } else {
      assert Filtered(p, vars, calls) == Filtered(next, vars', calls[1..]);
    }
  }

  /** What a run of calls from `s` guarantees; the commands below `base` stay. */
  ghost predicate RunSimulated(s: Patch, vars: Variables, plain: Variables, base: nat, calls: seq<Call>)
    requires WellScoped(vars.Keys, calls)
  {
    var (t, returned) := PatchedRun(s, calls);
    && returned
    && PlainRun(s.program, plain, Filtered(s.program, vars, calls)) == Done(t.program)
    && t.blocked == s.blocked + Collided(s.program, vars, calls)
    && t.occupied == AllNames(t.program) && "" !in t.occupied && Disjoint(t.program)
    && base <= |s.program| && s.program[..base] <= t.program
  }

  lemma RunHead(vars: Variables, calls: seq<Call>)
    requires IsRun(vars.Keys, calls) && calls != []
    ensures WellFormed(calls[0]) && InScope(vars, calls[0]) && forall c <- calls[1..] :: WellFormed(c)
  {
    assert calls[0] in calls && forall c <- calls[1..] :: c in calls;
  }

  lemma PatchedRunStep(s: Patch, calls: seq<Call>)
    requires calls != [] && Usable(s, calls[0]) && Patched(s, calls[0]).Done?
    ensures PatchedRun(s, calls) == PatchedRun(Patched(s, calls[0]).value, calls[1..])
  {}

  lemma PrefixChain(a: Program, b: Program, c: Program, base: nat)
    requires base <= |a| && base <= |b| && a[..base] <= b && b[..base] <= c
    ensures a[..base] <= c
  {
    assert a[..base] == b[..base];
  }

  /** A simulated call followed by a simulated run. */
  lemma Compose(s: Patch, vars: Variables, plain: Variables, base: nat, calls: seq<Call>, next: Patch,
                vars': Variables, plain': Variables)
    requires WellScoped(vars.Keys, calls) && calls != [] && WellScoped(vars'.Keys, calls[1..])
    requires PatchedRun(s, calls) == PatchedRun(next, calls[1..])
    requires PlainRun(s.program, plain, Filtered(s.program, vars, calls)) ==
      PlainRun(next.program, plain', Filtered(next.program, vars', calls[1..]))
    requires next.blocked == s.blocked + CollidesOn(s.program, vars, calls[0])
    requires Collided(s.program, vars, calls) ==
      CollidesOn(s.program, vars, calls[0]) + Collided(next.program, vars', calls[1..])
    requires base <= |s.program| && s.program[..base] <= next.program
    requires RunSimulated(next, vars', plain', base, calls[1..])
    ensures RunSimulated(s, vars, plain, base, calls)
  {
    hide AllNames, Disjoint, CollidesOn, WellScoped, Filtered, Collided, PlainRun, PatchedRun;
    PrefixChain(s.program, next.program, PatchedRun(s, calls).0.program, base);
  }

  lemma {:induction false} RunSimulates(s: Patch, vars: Variables, plain: Variables, base: nat, calls: seq<Call>)
    requires Sync(s, vars, base) && IsRun(vars.Keys, calls) && Agrees(vars, plain)
    ensures RunSimulated(s, vars, plain, base, calls)
    decreases |calls|
  {
    if calls != [] {
      hide AllNames, Disjoint, Patched, CollidesOn, Keep, Plain, WellFormed, WellScoped, Filtered, Collided, PlainRun,
           PatchedRun, Sync, Bound, RunSimulated, Agrees;
      RunHead(vars, calls);
      StepSimulates(s, vars, base, calls[0]);
      var next := Patched(s, calls[0]).value;
      var vars' := Assigned(s.program, vars, calls[0], Keep(s.program, vars, calls[0]).Some?);
      var plain' := FilteredStep(s.program, vars, plain, calls, next.program);
      PatchedRunStep(s, calls);
      RunSimulates(next, vars', plain', base, calls[1..]);
      Compose(s, vars, plain, base, calls, next, vars', plain');
    }
  }

  /** The main result, for every sequence of well-formed calls a plugin makes on a
      program whose names are disjoint. Nothing throws. The program is the one
      plain Commander reaches on the calls that are left when colliding commands
      (with all that is chained on them) and colliding aliases are taken out, and
      there those calls do not throw either. The blocked names are exactly those
      that collide; the shadow is exactly the names in use, still disjoint; and
      the commands that were there are untouched. */
  lemma RegisterSimulates(p: Program, calls: seq<Call>)
    requires Disjoint(p) && "" !in AllNames(p) && IsRun(NO_VARIABLES.Keys, calls)
    ensures var (t, returned) := PatchedRun(StartPatch(p), calls);
            && returned
            && PlainRun(p, NO_VARIABLES, Filtered(p, NO_VARIABLES, calls)) == Done(t.program)
            && t.blocked == Collided(p, NO_VARIABLES, calls)
            && t.occupied == AllNames(t.program) && "" !in t.occupied && Disjoint(t.program)
            && p <= t.program
  {
    RunSimulates(StartPatch(p), NO_VARIABLES, NO_VARIABLES, |p|, calls);
    assert p[..|p|] == p;
  }

  /** A name is safe to register on every program exactly when it is well formed:
      any other can collide unseen, and the throw escapes. */
  lemma OnlyWellFormedNamesAreSafe(nameAndArgs: string)
    requires RegisteredName(nameAndArgs).Some?
    ensures (forall p: Program :: Disjoint(p) && "" !in AllNames(p) ==>
               !PatchedNew(StartPatch(p), nameAndArgs, false).0.Collision?) <==> IsWellFormed(nameAndArgs)
  {
    ReadingsAgree(nameAndArgs);
    if IsWellFormed(nameAndArgs) {
      forall p: Program | Disjoint(p) && "" !in AllNames(p)
        ensures !PatchedNew(StartPatch(p), nameAndArgs, false).0.Collision?
      {
        assert Sync(StartPatch(p), map[], 0);
        NewStep(StartPatch(p), map[], 0, nameAndArgs, false);
      }
    } else {
      RegisteredSkipsBlanks(nameAndArgs);
      var name := RegisteredName(nameAndArgs).value;
      var p := [Command(name, [], false, None)];
      assert NamesOf(p[0]) == {name};
      assert AllNames(p) == {name};
      assert Known(p, name);
      assert name in NamesOf(Command(name, [], false, None));
      assert PatchedNew(StartPatch(p), nameAndArgs, false).0.Collision?;
    }
  }
}
