/** The `compileInFlight` guard: invocations of the compile command interleave
    at their awaits, and any await may fail. */
module CompileGuard {

  /** Where an invocation waits, or how it ended. */
  datatype Point =
    | AtGates    // loading config, asking for a provider and a folder
    | Importing  // past check-and-set, before the `try`
    | Sweeping   // `compileAllRepos` runs
    | Reporting  // the sweep is over, its message is showing
    | Returned   // turned away, or done after the `finally`
    | Leaked     // the import rejected: no `finally` will run

  datatype State = State(inFlight: bool, rebuilding: bool, points: seq<Point>)

  datatype Step =
    | Invoke
    | GateStops(i: nat)               // no provider, no folder, or a rejection
    | CheckAndSet(i: nat)
    | ImportSettles(i: nat, ok: bool)
    | SweepSettles(i: nat, ok: bool)
    | MessageSettles(i: nat, ok: bool)

  predicate At(s: State, i: nat, p: Point) { i < |s.points| && s.points[i] == p }

  predicate Enabled(s: State, step: Step) {
    match step
    case Invoke => true
    case GateStops(i) => At(s, i, AtGates)
    case CheckAndSet(i) => At(s, i, AtGates)
    case ImportSettles(i, _) => At(s, i, Importing)
    case SweepSettles(i, _) => At(s, i, Sweeping)
    case MessageSettles(i, _) => At(s, i, Reporting)
  }

  function Next(s: State, step: Step): State
    requires Enabled(s, step)
  {
    match step
    case Invoke => s.(points := s.points + [AtGates])
    case GateStops(i) => s.(points := s.points[i := Returned])
    case CheckAndSet(i) =>
      if s.inFlight then s.(points := s.points[i := Returned])
      else State(true, true, s.points[i := Importing])
    case ImportSettles(i, ok) => s.(points := s.points[i := if ok then Sweeping else Leaked])
    case SweepSettles(i, _) => s.(points := s.points[i := Reporting])
    case MessageSettles(i, _) => State(false, false, s.points[i := Returned])
  }

  predicate Possible(s: State, steps: seq<Step>)
    decreases |steps|
  {
    steps == [] || (Enabled(s, steps[0]) && Possible(Next(s, steps[0]), steps[1..]))
  }

  function After(s: State, steps: seq<Step>): State
    requires Possible(s, steps)
    decreases |steps|
  {
    if steps == [] then s else After(Next(s, steps[0]), steps[1..])
  }

  function Start(): (s: State)
    ensures Inv(s)
  {
    State(false, false, [])
  }

  /** The module variable, the banner and the command's synchronous segments. */
  class CompileCommand {
    var compileInFlight: bool
    var wikiRebuilding: bool
    var points: seq<Point>

    function View(): State
      reads this
    {
      State(compileInFlight, wikiRebuilding, points)
    }

    constructor ()
      ensures View() == Start()
    {
      compileInFlight, wikiRebuilding, points := false, false, [];
    }

    /** Past the gates; no await between the check and the set. */
    method Enter(i: nat)
      requires At(View(), i, AtGates)
      modifies this
      ensures View() == Next(old(View()), CheckAndSet(i))
    {
      if compileInFlight {
        points := points[i := Returned];
        return;
      }
      compileInFlight := true;
      wikiRebuilding := true;
      points := points[i := Importing];
    }

    /** The `finally`. */
    method Finally(i: nat, ok: bool)
      requires At(View(), i, Reporting)
      modifies this
      ensures View() == Next(old(View()), MessageSettles(i, ok))
    {
      compileInFlight := false;
      wikiRebuilding := false;
      points := points[i := Returned];
    }
  }

  /** From the check-and-set to the matching `finally`, or for ever. */
  predicate Holds(p: Point) { p in {Importing, Sweeping, Reporting, Leaked} }

  ghost predicate Inv(s: State) {
    && s.rebuilding == s.inFlight
    && (s.inFlight <==> exists i :: 0 <= i < |s.points| && Holds(s.points[i]))
    && forall i, j :: 0 <= i < j < |s.points| ==> !(Holds(s.points[i]) && Holds(s.points[j]))
  }

  lemma StepKeeps(s: State, step: Step)
    requires Inv(s) && Enabled(s, step)
    ensures Inv(Next(s, step))
  {
    var t := Next(s, step);
    if !step.Invoke? {
      assert t.points[step.i] == t.points[step.i];
      if s.inFlight {
        var h :| 0 <= h < |s.points| && Holds(s.points[h]);
        assert step.MessageSettles? || Holds(t.points[h]);
      }
    } else if s.inFlight {
      var h :| 0 <= h < |s.points| && Holds(s.points[h]);
      assert Holds(t.points[h]);
    }
  }

  /** In every interleaving at most one invocation sweeps, and the flag and the
      banner are up exactly while one is between check-and-set and `finally`, if
      and only if no import has rejected. */
  lemma {:induction false} SingleFlight(s: State, steps: seq<Step>)
    requires Inv(s) && Possible(s, steps)
    ensures var t := After(s, steps);
            && Inv(t)
            && (forall i, j :: 0 <= i < j < |t.points| ==> !(t.points[i].Sweeping? && t.points[j].Sweeping?))
            && ((t.inFlight <==> Importing in t.points || Sweeping in t.points || Reporting in t.points) <==>
                Leaked !in t.points)
    decreases |steps|
  {
    if steps != [] {
      StepKeeps(s, steps[0]);
      SingleFlight(Next(s, steps[0]), steps[1..]);
    }
  }

  /** A rejected import, which lies before the `try`, leaves the flag and the
      banner up in every later state, and no compile runs again. */
  lemma {:induction false} LeakIsPermanent(s: State, steps: seq<Step>)
    requires Inv(s) && Leaked in s.points && Possible(s, steps)
    ensures var t := After(s, steps);
            && t.inFlight && t.rebuilding && Leaked in t.points
            && Importing !in t.points && Sweeping !in t.points && Reporting !in t.points
    decreases |steps|
  {
    var h :| 0 <= h < |s.points| && s.points[h].Leaked?;
    if steps != [] {
      StepKeeps(s, steps[0]);
      assert Next(s, steps[0]).points[h].Leaked?;
      LeakIsPermanent(Next(s, steps[0]), steps[1..]);
    } else {
      assert Holds(s.points[h]);
    }
  }

  // ---- The course of one invocation ----

  /** The only ways from one await to the next. */
  predicate Follows(p: Point, q: Point) {
    || p == q
    || (p == AtGates && q in {Returned, Importing})
    || (p == Importing && q in {Sweeping, Leaked})
    || (p == Sweeping && q == Reporting)
    || (p == Reporting && q == Returned)
  }

  /** An invocation that was turned away or is over never sweeps again, one whose
      import rejected never leaves that await; no invocation is forgotten. */
  lemma {:induction false} OverIsOver(s: State, steps: seq<Step>, i: nat)
    requires Possible(s, steps) && (At(s, i, Returned) || At(s, i, Leaked))
    ensures At(After(s, steps), i, s.points[i])
    ensures SweepSettles(i, true) !in steps && SweepSettles(i, false) !in steps && CheckAndSet(i) !in steps
    decreases |steps|
  {
    if steps != [] {
      assert forall step :: step in steps <==> step == steps[0] || step in steps[1..];
      OverIsOver(Next(s, steps[0]), steps[1..], i);
    }
  }

  /** An invocation that finds the flag up is turned away for good. */
  lemma TurnedAwayNeverSweeps(s: State, i: nat, steps: seq<Step>)
    requires Enabled(s, CheckAndSet(i)) && s.inFlight && Possible(Next(s, CheckAndSet(i)), steps)
    ensures At(After(Next(s, CheckAndSet(i)), steps), i, Returned)
    ensures Next(s, CheckAndSet(i)).inFlight && forall ok :: SweepSettles(i, ok) !in steps
  {
    OverIsOver(Next(s, CheckAndSet(i)), steps, i);
  }

  /** Every step takes the invocation it names one stage on, and no other; one that
      passes the check with the flag down goes on to import, and then to sweep. */
  lemma StagesFollow(s: State, step: Step, i: nat)
    requires Enabled(s, step) && i < |s.points|
    ensures i < |Next(s, step).points| && Follows(s.points[i], Next(s, step).points[i])
    ensures s.points[i] != Next(s, step).points[i] <==> !step.Invoke? && step.i == i
    ensures step == CheckAndSet(i) && !s.inFlight ==> At(Next(s, step), i, Importing) && Next(s, step).inFlight
    ensures step == ImportSettles(i, true) ==> At(Next(s, step), i, Sweeping)
  {}

  /** Only a sweep that ran reports, and only one whose import succeeded runs. */
  lemma {:induction false} StagesInOrder(s: State, steps: seq<Step>, i: nat)
    requires Possible(s, steps) && At(s, i, AtGates)
    ensures At(After(s, steps), i, Sweeping) ==> CheckAndSet(i) in steps && ImportSettles(i, true) in steps
    ensures At(After(s, steps), i, Importing) ==> CheckAndSet(i) in steps
    ensures At(After(s, steps), i, Reporting) ==>
      ImportSettles(i, true) in steps && exists ok :: SweepSettles(i, ok) in steps
    decreases |steps|
  {
    if steps != [] {
      var n := |steps| - 1;
      FrontPossible(s, steps);
      StagesInOrder(s, steps[..n], i);
      assert steps == steps[..n] + [steps[n]];
    }
  }

  lemma {:induction false} FrontPossible(s: State, steps: seq<Step>)
    requires Possible(s, steps) && steps != []
    ensures var front, last := steps[..|steps| - 1], steps[|steps| - 1];
            Possible(s, front) && Enabled(After(s, front), last) && After(s, steps) == Next(After(s, front), last)
    decreases |steps|
  {
    var front := steps[..|steps| - 1];
    if front != [] {
      assert steps[1..][..|steps| - 2] == front[1..];
      FrontPossible(Next(s, steps[0]), steps[1..]);
    }
  }

  lemma Prepend(s: State, step: Step, rest: seq<Step>) returns (steps: seq<Step>)
    requires Enabled(s, step) && Possible(Next(s, step), rest)
    ensures steps == [step] + rest && Possible(s, steps) && After(s, steps) == After(Next(s, step), rest)
  {
    steps := [step] + rest;
    assert steps[1..] == rest;
  }

  /** Three steps from the start lead there. */
  lemma LeakIsReachable() returns (steps: seq<Step>)
    ensures steps == [Invoke, CheckAndSet(0), ImportSettles(0, false)]
    ensures Possible(Start(), steps) && Leaked in After(Start(), steps).points
  {
    var invoked := Next(Start(), Invoke);
    assert invoked.points == [AtGates] && !invoked.inFlight;
    var importing := Next(invoked, CheckAndSet(0));
    assert importing.points == [Importing];
    var leaked := Next(importing, ImportSettles(0, false));
    assert leaked.points == [Leaked];
    steps := Prepend(importing, ImportSettles(0, false), []);
    steps := Prepend(invoked, CheckAndSet(0), steps);
    steps := Prepend(Start(), Invoke, steps);
  }
}
