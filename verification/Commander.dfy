/** Commander's root program, by its collision rule only. */
module Commander {
  import opened Wrappers
  import opened CommandNames

  datatype HelpGroup = Site | Space | Workflow

  datatype Command = Command(name: string, aliases: seq<string>, hidden: bool, group: Option<HelpGroup>)

  type Program = seq<Command>

  /** A call's result, or the two ways it can throw. */
  datatype Outcome<+T> = Done(value: T) | Collision | OtherError

  function NamesOf(c: Command): set<string> { {c.name} + set a | a in c.aliases }

  function AllNames(p: Program): set<string> {
    set i, n | 0 <= i < |p| && n in NamesOf(p[i]) :: n
  }

  /** `_findCommand`: the empty name is never found. */
  predicate Known(p: Program, name: string) { name != "" && name in AllNames(p) }

  /** `_registerCommand`. */
  function Register(p: Program, c: Command): Outcome<Program> {
    if exists n <- NamesOf(c) :: Known(p, n) then Collision else Done(p + [c])
  }

  /** `program.command(nameAndArgs, ...)`. */
  function NewCommand(p: Program, nameAndArgs: string, hidden: bool): Outcome<Program> {
    var name := RegisteredName(nameAndArgs);
    if name.None? then OtherError else Register(p, Command(name.value, [], hidden, None))
  }

  /** `program.addCommand(cmd, ...)`. */
  function AddCommand(p: Program, c: Command): Outcome<Program> {
    if c.name == "" then OtherError else Register(p, c)
  }

  /** `alias(a)` on the `i`th command of the program. */
  function Alias(p: Program, i: nat, a: string): Outcome<Program>
    requires i < |p|
  {
    if a == p[i].name || Known(p, a) then Collision
    else Done(p[i := p[i].(aliases := p[i].aliases + [a])])
  }

  /** `aliases(as)`: one by one, up to the first that throws. */
  function Aliases(p: Program, i: nat, names: seq<string>): Outcome<Program>
    requires i < |p|
    ensures Aliases(p, i, names).Done? ==> |Aliases(p, i, names).value| == |p|
    decreases |names|
  {
    if names == [] then Done(p)
    else
      var first := Alias(p, i, names[0]);
      if first.Done? then Aliases(first.value, i, names[1..]) else first
  }

  /** No name or alias belongs to two commands. */
  ghost predicate Disjoint(p: Program) {
    forall i, j :: 0 <= i < j < |p| ==> NamesOf(p[i]) !! NamesOf(p[j])
  }

  lemma RegisterNames(p: Program, c: Command)
    ensures AllNames(p + [c]) == AllNames(p) + NamesOf(c)
    ensures Register(p, c).Done? && "" !in NamesOf(c) && Disjoint(p) ==> Disjoint(p + [c])
  {
    var q := p + [c];
    forall n
      ensures n in AllNames(q) <==> n in AllNames(p) || n in NamesOf(c)
    {
      if n in AllNames(p) {
        var i :| 0 <= i < |p| && n in NamesOf(p[i]);
        assert q[i] == p[i];
      }
      if n in NamesOf(c) {
        assert q[|p|] == c;
      }
    }
    if Register(p, c).Done? && "" !in NamesOf(c) {
      forall i | 0 <= i < |p| ensures NamesOf(p[i]) !! NamesOf(c) {
        assert forall n <- NamesOf(p[i]) :: n in AllNames(p);
      }
    }
  }

  lemma AliasNames(p: Program, i: nat, a: string)
    requires i < |p| && Alias(p, i, a).Done?
    ensures AllNames(Alias(p, i, a).value) == AllNames(p) + {a}
    ensures a != "" && Disjoint(p) ==> Disjoint(Alias(p, i, a).value)
  {
    var q := Alias(p, i, a).value;
    assert NamesOf(q[i]) == NamesOf(p[i]) + {a};
    forall n
      ensures n in AllNames(q) <==> n in AllNames(p) || n == a
    {
      if n in AllNames(p) {
        var j :| 0 <= j < |p| && n in NamesOf(p[j]);
        assert n in NamesOf(q[j]);
      }
      if n in AllNames(q) {
        var j :| 0 <= j < |q| && n in NamesOf(q[j]);
        assert n in NamesOf(p[j]) || n == a;
      }
      if n == a {
        assert n in NamesOf(q[i]);
      }
    }
    if a != "" {
      forall j | 0 <= j < |p| ensures a !in NamesOf(p[j]) {
        assert forall n <- NamesOf(p[j]) :: n in AllNames(p);
      }
    }
  }

  /** What calls that do not throw leave: a new command at the end, with no alias and
      no group; the given command at the end; one more alias, or several in order, on
      the one command. */
  lemma CallsLeave(p: Program, nameAndArgs: string, hidden: bool, c: Command, i: nat, a: string)
    requires i < |p|
    ensures NewCommand(p, nameAndArgs, hidden).Done? ==>
      && RegisteredName(nameAndArgs).Some?
      && NewCommand(p, nameAndArgs, hidden).value == p + [Command(RegisteredName(nameAndArgs).value, [], hidden, None)]
    ensures AddCommand(p, c).Done? ==> AddCommand(p, c).value == p + [c]
    ensures Alias(p, i, a).Done? ==>
      Alias(p, i, a).value == p[..i] + [p[i].(aliases := p[i].aliases + [a])] + p[i + 1..]
  {}

  lemma {:induction false} AliasesLeave(p: Program, i: nat, names: seq<string>)
    requires i < |p| && Aliases(p, i, names).Done?
    ensures Aliases(p, i, names).value == p[i := p[i].(aliases := p[i].aliases + names)]
    decreases |names|
  {
    if names != [] {
      AliasesLeave(Alias(p, i, names[0]).value, i, names[1..]);
      assert p[i].aliases + names == p[i].aliases + [names[0]] + names[1..];
    } else {
      assert p[i].aliases + names == p[i].aliases;
    }
  }
}
