/** The manual-disable opt-out: the Disable and Enable commands, window reloads
    and the activation that follows them, interleaved at their awaits, with a
    failure possible at each, and readers of the flag in other processes. */
module OptOut {

  /** What one call of `readManualDisableFlag` meets: whether the profile can be
      read and parsed, whether the lock is taken, and whether under the lock the
      profile can be read, and written. */
  datatype Reading = Reading(first: bool, locked: bool, again: bool, written: bool)

  /** The profile is read at least once. */
  predicate Sees(r: Reading) { r.first || (r.locked && r.again) }

  /** "Not disabled" is written over a profile that was never read. */
  predicate Erases(r: Reading) { !Sees(r) && r.locked && r.written }

  function Answer(disk: bool, r: Reading): bool { disk && Sees(r) }

  function Kept(disk: bool, r: Reading): bool { disk && !Erases(r) }

  const CLEAR := Reading(true, true, true, true)

  const ERASING := Reading(false, true, false, true)

  /** A command in flight, by the await it is at. */
  datatype Task =
    | WritingFlag    // Disable: the opt-out is being persisted
    | FlagWritten    // Disable: persisted, not resumed yet
    | Uninstalling   // Disable: `bridge.disable()`
    | Installing     // Enable: `bridge.enable()`
    | ClearingFlag   // Enable: installed, the opt-out is being cleared
    | Ended

  /** The activation chain, by what it has read of the flag. */
  datatype Activation =
    | Inactive
    | Refreshing                  // `refreshHookPathsIfStale` entered
    | RefreshGate(off: bool)      // ... and has read the flag
    | Chained                     // in the `.then`, flag not read
    | Sampled(off: bool, installable: bool, enabled: bool)

  datatype World = World(
    disk: bool,            // the persisted flag
    memory: bool,          // its mirror in the logger
    hooks: bool,           // hooks installed
    removed: bool,         // by Disable, and not installed since
    tasks: seq<Task>,
    activation: Activation,
    automatic: nat)        // hook installs that activation started

  datatype Step =
    | InvokeDisable
    | DisableWrites(i: nat)
    | DisableWriteFails(i: nat, landed: bool)
    | DisableResumes(i: nat)
    | UninstallRemoves(i: nat)
    | UninstallSettles(i: nat, success: bool)
    | InvokeEnable
    | InstallSettles(i: nat, success: bool, installed: bool)
    | ClearSettles(i: nat, ok: bool)
    | Reload(seedReadable: bool)
    | RefreshReadsFlag(reading: Reading)
    | RefreshEnables(ok: bool)
    | RefreshIsFresh
    | SampleFlag(reading: Reading, installable: bool, enabled: bool)
    | AutoInstalls(ok: bool)
    | AutoEnables(ok: bool)
    | ActivationEnds                   // done, or a rejection caught
    | ReadElsewhere(reading: Reading)  // by a hook or another process

  predicate At(w: World, i: nat, t: Task) { i < |w.tasks| && w.tasks[i] == t }

  predicate Enabled(w: World, step: Step) {
    match step
    case InvokeDisable | InvokeEnable | Reload(_) | ReadElsewhere(_) => true
    case DisableWrites(i) => At(w, i, WritingFlag)
    case DisableWriteFails(i, _) => At(w, i, WritingFlag)
    case DisableResumes(i) => At(w, i, FlagWritten)
    case UninstallRemoves(i) => At(w, i, Uninstalling)
    case UninstallSettles(i, _) => At(w, i, Uninstalling)
    case InstallSettles(i, success, installed) => At(w, i, Installing) && (success ==> installed)
    case ClearSettles(i, _) => At(w, i, ClearingFlag)
    case RefreshReadsFlag(_) => w.activation.Refreshing?
    case RefreshEnables(_) => w.activation == RefreshGate(false)
    case RefreshIsFresh => w.activation.RefreshGate?
    case SampleFlag(_, _, _) => w.activation.Chained?
    case AutoInstalls(_) => w.activation.Sampled? && !w.activation.off && w.activation.installable
    case AutoEnables(_) => w.activation.Sampled? && !w.activation.off && !w.activation.enabled
    case ActivationEnds => !w.activation.Inactive?
  }

  function Installed(w: World, ok: bool): World {
    if ok then w.(hooks := true, removed := false) else w
  }

  function Next(w: World, step: Step): World
    requires Enabled(w, step)
  {
    match step
    case InvokeDisable => w.(tasks := w.tasks + [WritingFlag])
    case DisableWrites(i) => w.(disk := true, tasks := w.tasks[i := FlagWritten])
    case DisableWriteFails(i, landed) => w.(disk := w.disk || landed, tasks := w.tasks[i := Ended])
    case DisableResumes(i) => w.(memory := true, tasks := w.tasks[i := Uninstalling])
    case UninstallRemoves(i) => w.(hooks := false, removed := true)
    case UninstallSettles(i, _) => w.(tasks := w.tasks[i := Ended])
    case InvokeEnable => w.(tasks := w.tasks + [Installing])
    case InstallSettles(i, success, installed) =>
      if success then Installed(w, installed).(memory := false, tasks := w.tasks[i := ClearingFlag])
      else Installed(w, installed).(tasks := w.tasks[i := Ended])
    case ClearSettles(i, ok) => w.(disk := w.disk && !ok, tasks := w.tasks[i := Ended])
    case Reload(seedReadable) =>
      var memory := seedReadable && w.disk;
      w.(memory := memory, tasks := [], activation := if memory then Chained else Refreshing)
    case RefreshReadsFlag(r) => w.(disk := Kept(w.disk, r), activation := RefreshGate(Answer(w.disk, r)))
    case RefreshEnables(ok) => Installed(w, ok).(activation := Chained, automatic := w.automatic + 1)
    case RefreshIsFresh => w.(activation := Chained)
    case SampleFlag(r, installable, enabled) =>
      w.(disk := Kept(w.disk, r), activation := Sampled(Answer(w.disk, r), installable, enabled))
    case AutoInstalls(ok) =>
      Installed(w, ok).(activation := w.activation.(installable := false), automatic := w.automatic + 1)
    case AutoEnables(ok) => Installed(w, ok).(activation := Inactive, automatic := w.automatic + 1)
    case ActivationEnds => w.(activation := Inactive)
    case ReadElsewhere(r) => w.(disk := Kept(w.disk, r))
  }

  predicate Possible(w: World, steps: seq<Step>)
    decreases |steps|
  {
    steps == [] || (Enabled(w, steps[0]) && Possible(Next(w, steps[0]), steps[1..]))
  }

  function After(w: World, steps: seq<Step>): World
    requires Possible(w, steps)
    decreases |steps|
  {
    if steps == [] then w else After(Next(w, steps[0]), steps[1..])
  }

  /** The flag, its mirror and the hooks, as the command handlers change them
      between awaits. */
  class ExtensionHost {
    var manualDisableFlag: bool
    var manuallyDisabled: bool
    var hooksInstalled: bool
    ghost var removed: bool
    var tasks: seq<Task>
    var activation: Activation
    ghost var automatic: nat

    ghost function View(): World
      reads this
    {
      World(manualDisableFlag, manuallyDisabled, hooksInstalled, removed, tasks, activation, automatic)
    }

    /** The rest of Disable's first segment: persisted, or nothing else is done. */
    method AfterFlagWrite(i: nat, written: bool, landed: bool)
      requires At(View(), i, WritingFlag)
      modifies this
      ensures View() == Next(old(View()), if written then DisableWrites(i) else DisableWriteFails(i, landed))
    {
      if !written {
        manualDisableFlag := manualDisableFlag || landed;
        tasks := tasks[i := Ended];
        return;
      }
      manualDisableFlag := true;
      tasks := tasks[i := FlagWritten];
    }

    /** Silence the mirror, then start the uninstall. */
    method ResumeDisable(i: nat)
      requires At(View(), i, FlagWritten)
      modifies this
      ensures View() == Next(old(View()), DisableResumes(i))
    {
      manuallyDisabled := true;
      tasks := tasks[i := Uninstalling];
    }

    /** Enable after `bridge.enable()`: only a success releases the opt-out. */
    method AfterInstall(i: nat, success: bool, installed: bool)
      requires At(View(), i, Installing) && (success ==> installed)
      modifies this
      ensures View() == Next(old(View()), InstallSettles(i, success, installed))
    {
      if installed {
        hooksInstalled := true;
        removed := false;
      }
      if !success {
        tasks := tasks[i := Ended];
        return;
      }
      manuallyDisabled := false;
      tasks := tasks[i := ClearingFlag];
    }

    /** Activation from its first line to its first await. */
    method Activate(seedReadable: bool)
      modifies this
      ensures View() == Next(old(View()), Reload(seedReadable))
    {
      tasks := [];
      manuallyDisabled := seedReadable && manualDisableFlag;
      activation := if manuallyDisabled then Chained else Refreshing;
    }

    /** `readManualDisableFlag`, without a legacy marker to migrate: an unreadable
        profile proposes "not disabled", which stands unless a read under the lock
        finds a decision. */
    method ReadManualDisableFlag(r: Reading) returns (off: bool)
      modifies this
      ensures off == Answer(old(manualDisableFlag), r)
      ensures View() == old(View()).(disk := Kept(old(manualDisableFlag), r))
    {
      if r.first {
        return manualDisableFlag;
      }
      off := false;
      if r.locked {
        if r.again {
          off := manualDisableFlag;
        } else if r.written {
          manualDisableFlag := off;
        }
      }
    }

    /** The gate of `refreshHookPathsIfStale`. */
    method EnterRefresh(r: Reading)
      requires View().activation.Refreshing?
      modifies this
      ensures View() == Next(old(View()), RefreshReadsFlag(r))
    {
      var off := ReadManualDisableFlag(r);
      activation := RefreshGate(off);
    }

    /** The gate of both ways in which activation installs. */
    method Sample(r: Reading, installable: bool, enabled: bool)
      requires View().activation.Chained?
      modifies this
      ensures View() == Next(old(View()), SampleFlag(r, installable, enabled))
    {
      var off := ReadManualDisableFlag(r);
      activation := Sampled(off, installable, enabled);
    }
  }

  // ---- Durability ----

  /** The activation in flight has read the flag as unset and may act on it. */
  predicate Wakeful(a: Activation) {
    a == RefreshGate(false) || (a.Sampled? && !a.off && (a.installable || !a.enabled))
  }

  predicate EnableSucceeds(step: Step) { step.InstallSettles? && step.success }

  /** The flag is on disk, and nothing in flight will act or clear it. */
  predicate Durable(w: World) { w.disk && !Wakeful(w.activation) && ClearingFlag !in w.tasks }

  /** No user Enable succeeds, and no reader takes a profile it could not read for
      one that says "not disabled" and either acts on that or writes it. */
  predicate Safe(step: Step) {
    match step
    case RefreshReadsFlag(r) => Sees(r)
    case SampleFlag(r, installable, enabled) => Sees(r) || (!Erases(r) && !installable && enabled)
    case ReadElsewhere(r) => !Erases(r)
    case _ => !EnableSucceeds(step)
  }

  predicate SafeRun(steps: seq<Step>) { forall step <- steps :: Safe(step) }

  /** Whatever else fails or reloads: a step keeps the opt-out durable if and only
      if it is a safe one, and starts no install. */
  lemma StepDurable(w: World, step: Step)
    requires Durable(w) && Enabled(w, step)
    ensures Durable(Next(w, step)) <==> Safe(step)
    ensures Next(w, step).automatic == w.automatic
  {
    if EnableSucceeds(step) {
      assert Next(w, step).tasks[step.i] == ClearingFlag;
    }
  }

  /** Once the flag is on disk, no run of safe steps makes activation refresh,
      install or enable hooks, and the flag stays. */
  lemma {:induction false} OptOutIsDurable(w: World, steps: seq<Step>)
    requires Durable(w) && Possible(w, steps) && SafeRun(steps)
    ensures Durable(After(w, steps)) && After(w, steps).automatic == w.automatic
    decreases |steps|
  {
    if steps != [] {
      assert steps[0] in steps && forall step <- steps[1..] :: step in steps;
      StepDurable(w, steps[0]);
      OptOutIsDurable(Next(w, steps[0]), steps[1..]);
    }
  }

  lemma Prepend(w: World, step: Step, rest: seq<Step>) returns (steps: seq<Step>)
    requires Enabled(w, step) && Possible(Next(w, step), rest)
    ensures steps == [step] + rest && Possible(w, steps) && After(w, steps) == After(Next(w, step), rest)
  {
    steps := [step] + rest;
    assert steps[1..] == rest;
  }

  /** Safe steps can start an install if and only if the flag is not on disk or an
      activation in flight has already read it as unset. */
  lemma WokenExactly(w: World)
    requires ClearingFlag !in w.tasks
    ensures (exists steps :: Possible(w, steps) && SafeRun(steps) && After(w, steps).automatic > w.automatic)
      <==> !w.disk || Wakeful(w.activation)
  {
    if Wakeful(w.activation) {
      var step :=
        if w.activation.RefreshGate? then RefreshEnables(true)
        else if w.activation.installable then AutoInstalls(true)
        else AutoEnables(true);
      var steps := Prepend(w, step, []);
    } else if !w.disk {
      var v := Next(w, Reload(true));
      var gate := Next(v, RefreshReadsFlag(CLEAR));
      var steps := Prepend(gate, RefreshEnables(true), []);
      steps := Prepend(v, RefreshReadsFlag(CLEAR), steps);
      steps := Prepend(w, Reload(true), steps);
    } else {
      forall steps | Possible(w, steps) && SafeRun(steps) ensures After(w, steps).automatic == w.automatic {
        OptOutIsDurable(w, steps);
      }
    }
  }

  /** An unsafe reading is enough, wherever it comes: with the flag on disk, a
      reload that still sees it, a sample that does not, and hooks are back with the
      flag erased and no Enable. */
  lemma ErasingReadWakes(w: World) returns (steps: seq<Step>)
    requires w.disk
    ensures Possible(w, steps) && CommandFree(steps)
    ensures var v := After(w, steps); v.automatic == w.automatic + 1 && v.hooks && !v.disk
  {
    var sample := SampleFlag(ERASING, false, false);
    var reloaded := Next(w, Reload(true));
    var sampled := Next(reloaded, sample);
    steps := Prepend(sampled, AutoEnables(true), []);
    steps := Prepend(reloaded, sample, steps);
    steps := Prepend(w, Reload(true), steps);
  }

  // ---- No half state ----

  /** Hooks that Disable removed, and no persisted flag to account for them. */
  predicate HalfState(w: World) { w.removed && !w.disk }

  predicate Disabling(t: Task) { t in {WritingFlag, FlagWritten, Uninstalling} }

  predicate Enabling(t: Task) { t in {Installing, ClearingFlag} }

  /** The half state is a matter of the commands in flight: one of each kind, or
      an Enable about to clear the flag of hooks that are gone, or a Disable past
      its write whose flag is gone. */
  ghost predicate AtRisk(w: World) {
    || ((exists t <- w.tasks :: Disabling(t)) && (exists t <- w.tasks :: Enabling(t)))
    || (w.removed && ClearingFlag in w.tasks)
    || (!w.disk && (FlagWritten in w.tasks || Uninstalling in w.tasks))
  }

  ghost predicate Inv(w: World) { !HalfState(w) && !AtRisk(w) }

  /** What Disable removed, and nothing has installed since, is gone. */
  predicate Consistent(w: World) { w.removed ==> !w.hooks }

  predicate IsCommand(step: Step) { step.InvokeDisable? || step.InvokeEnable? }

  predicate ErasesFlag(step: Step) {
    (step.RefreshReadsFlag? || step.SampleFlag? || step.ReadElsewhere?) && Erases(step.reading)
  }

  /** A command is invoked only while none of the other kind is in flight, and the
      flag is erased only while it accounts for nothing removed or about to be. */
  predicate Careful(w: World, step: Step) {
    match step
    case InvokeDisable => forall t <- w.tasks :: !Enabling(t)
    case InvokeEnable => forall t <- w.tasks :: !Disabling(t)
    case _ =>
      ErasesFlag(step) ==> !w.disk || (!w.removed && FlagWritten !in w.tasks && Uninstalling !in w.tasks)
  }

  predicate CarefulRun(w: World, steps: seq<Step>)
    requires Possible(w, steps)
    decreases |steps|
  {
    steps == [] || (Careful(w, steps[0]) && CarefulRun(Next(w, steps[0]), steps[1..]))
  }

  /** An invocation keeps the invariant exactly when nothing of the other kind is
      in flight. */
  lemma InvokeKeeps(w: World, step: Step)
    requires Inv(w) && IsCommand(step)
    ensures Inv(Next(w, step)) <==> Careful(w, step)
  {
    var v := Next(w, step);
    var invoked := v.tasks[|w.tasks|];
    assert v.tasks == w.tasks + [invoked];
    assert forall t :: t in v.tasks <==> t in w.tasks || t == invoked;
    assert invoked in v.tasks && (Disabling(invoked) || Enabling(invoked));
    if !Careful(w, step) {
      var t :| t in w.tasks && if step.InvokeDisable? then Enabling(t) else Disabling(t);
      assert t in v.tasks;
    }
  }

  /** The step moves task `step.i`, to a later stage of the same command. */
  predicate MovesTask(step: Step) {
    step.DisableWrites? || step.DisableWriteFails? || step.DisableResumes? || step.UninstallRemoves? ||
    step.UninstallSettles? || step.InstallSettles? || step.ClearSettles?
  }

  lemma TaskKeeps(w: World, step: Step)
    requires Inv(w) && Enabled(w, step) && MovesTask(step)
    ensures Inv(Next(w, step))
  {
    var v := Next(w, step);
    assert w.tasks[step.i] in w.tasks;
    assert forall t <- v.tasks :: t in w.tasks || t == v.tasks[step.i];
  }

  /** Every step keeps the invariant, except an invocation while a command of the
      other kind is in flight and the erasure of a flag that is needed. */
  lemma StepKeeps(w: World, step: Step)
    requires Inv(w) && Enabled(w, step)
    ensures Inv(Next(w, step)) <==> Careful(w, step)
    ensures Consistent(w) ==> Consistent(Next(w, step))
  {
    if IsCommand(step) {
      InvokeKeeps(w, step);
    } else if MovesTask(step) {
      TaskKeeps(w, step);
    }
  }

  /** As long as Enable and Disable are not invoked into each other, however many
      of one kind overlap, and no reading erases a flag that is needed, Disable never
      leaves hooks removed with the flag unset, whatever else fails or reloads. */
  lemma {:induction false} NoHalfState(w: World, steps: seq<Step>)
    requires Inv(w) && Possible(w, steps) && CarefulRun(w, steps)
    ensures Inv(After(w, steps)) && (Consistent(w) ==> Consistent(After(w, steps)))
    decreases |steps|
  {
    if steps != [] {
      StepKeeps(w, steps[0]);
      NoHalfState(Next(w, steps[0]), steps[1..]);
    }
  }

  // ---- Exactly when a half state can come ----

  predicate CommandFree(steps: seq<Step>) { forall step <- steps :: !IsCommand(step) }

  predicate NothingErased(steps: seq<Step>) { forall step <- steps :: !ErasesFlag(step) }

  lemma {:induction false} CarefulByItself(w: World, steps: seq<Step>)
    requires Possible(w, steps) && CommandFree(steps) && NothingErased(steps)
    ensures CarefulRun(w, steps)
    decreases |steps|
  {
    if steps != [] {
      assert steps[0] in steps && forall step <- steps[1..] :: step in steps;
      CarefulByItself(Next(w, steps[0]), steps[1..]);
    }
  }

  /** A Disable past its write whose flag is gone goes on to remove the hooks. */
  lemma UnflaggedRemoves(w: World, i: nat) returns (steps: seq<Step>)
    requires !w.disk && (At(w, i, FlagWritten) || At(w, i, Uninstalling))
    ensures Possible(w, steps) && CommandFree(steps) && NothingErased(steps) && HalfState(After(w, steps))
  {
    if At(w, i, FlagWritten) {
      var v := Next(w, DisableResumes(i));
      steps := Prepend(v, UninstallRemoves(i), []);
      steps := Prepend(w, DisableResumes(i), steps);
    } else {
      steps := Prepend(w, UninstallRemoves(i), []);
    }
  }

  function StepsLeft(t: Task): nat {
    match t
    case WritingFlag => 3
    case FlagWritten => 2
    case Uninstalling => 1
    case Installing => 1
    case _ => 0
  }

  lemma MixedEnds(w: World, i: nat, j: nat) returns (steps: seq<Step>)
    requires At(w, i, Uninstalling) && At(w, j, ClearingFlag)
    ensures Possible(w, steps) && CommandFree(steps) && NothingErased(steps) && HalfState(After(w, steps))
  {
    steps := Prepend(Next(w, UninstallRemoves(i)), ClearSettles(j, true), []);
    steps := Prepend(w, UninstallRemoves(i), steps);
  }

  /** A Disable `i` and an Enable `j`: install, remove, then clear. */
  lemma {:induction false} MixedReaches(w: World, i: nat, j: nat) returns (steps: seq<Step>)
    requires i < |w.tasks| && j < |w.tasks| && Disabling(w.tasks[i]) && Enabling(w.tasks[j])
    ensures Possible(w, steps) && CommandFree(steps) && NothingErased(steps) && HalfState(After(w, steps))
    decreases StepsLeft(w.tasks[i]) + StepsLeft(w.tasks[j])
  {
    if w.tasks[i] == Uninstalling && w.tasks[j] == ClearingFlag {
      steps := MixedEnds(w, i, j);
    } else {
      var step :=
        if w.tasks[j] == Installing then InstallSettles(j, true, true)
        else if w.tasks[i] == WritingFlag then DisableWrites(i)
        else DisableResumes(i);
      steps := MixedReaches(Next(w, step), i, j);
      steps := Prepend(w, step, steps);
    }
  }

  /** Without any further command or erasure, some run from `w` reaches the half
      state if and only if `w` is at risk. */
  lemma HalfStateExactly(w: World)
    requires !HalfState(w)
    ensures AtRisk(w) <==>
      exists steps :: Possible(w, steps) && CommandFree(steps) && NothingErased(steps) && HalfState(After(w, steps))
  {
    if AtRisk(w) {
      var steps: seq<Step>;
      if (exists t <- w.tasks :: Disabling(t)) && (exists t <- w.tasks :: Enabling(t)) {
        var i :| 0 <= i < |w.tasks| && Disabling(w.tasks[i]);
        var j :| 0 <= j < |w.tasks| && Enabling(w.tasks[j]);
        steps := MixedReaches(w, i, j);
      } else if w.removed && ClearingFlag in w.tasks {
        var j :| 0 <= j < |w.tasks| && w.tasks[j] == ClearingFlag;
        steps := Prepend(w, ClearSettles(j, true), []);
      } else {
        var i :| 0 <= i < |w.tasks| && w.tasks[i] in {FlagWritten, Uninstalling};
        steps := UnflaggedRemoves(w, i);
      }
    } else {
      forall steps | Possible(w, steps) && CommandFree(steps) && NothingErased(steps)
        ensures !HalfState(After(w, steps))
      {
        CarefulByItself(w, steps);
        NoHalfState(w, steps);
      }
    }
  }

  /** Hooks are removed, or a Disable may yet remove them. */
  ghost predicate Removing(w: World) { w.removed || exists t <- w.tasks :: Disabling(t) }

  lemma RemovesNothing(w: World, step: Step)
    requires !Removing(w) && Enabled(w, step) && !IsCommand(step)
    ensures !Removing(Next(w, step))
  {
    var v := Next(w, step);
    if MovesTask(step) {
      assert w.tasks[step.i] in w.tasks;
      assert forall t <- v.tasks :: t in w.tasks || t == v.tasks[step.i];
    }
  }

  lemma {:induction false} NothingRemoved(w: World, steps: seq<Step>)
    requires !Removing(w) && Possible(w, steps) && CommandFree(steps)
    ensures !Removing(After(w, steps))
    decreases |steps|
  {
    if steps != [] {
      assert steps[0] in steps && forall step <- steps[1..] :: step in steps;
      RemovesNothing(w, steps[0]);
      NothingRemoved(Next(w, steps[0]), steps[1..]);
    }
  }

  /** Disable `i` goes on to remove the hooks, and then the flag is erased. */
  lemma {:induction false} RemovedAndErased(w: World, i: nat) returns (steps: seq<Step>)
    requires i < |w.tasks| && Disabling(w.tasks[i])
    ensures Possible(w, steps) && CommandFree(steps) && HalfState(After(w, steps))
    decreases StepsLeft(w.tasks[i])
  {
    if w.tasks[i] == Uninstalling {
      steps := Prepend(Next(w, UninstallRemoves(i)), ReadElsewhere(ERASING), []);
      steps := Prepend(w, UninstallRemoves(i), steps);
    } else {
      var step := if w.tasks[i] == WritingFlag then DisableWrites(i) else DisableResumes(i);
      steps := RemovedAndErased(Next(w, step), i);
      steps := Prepend(w, step, steps);
    }
  }

  /** With readers that may erase the flag, but still without a further command,
      some run reaches the half state if and only if hooks are removed or a Disable
      is in flight. */
  lemma ErasureExactly(w: World)
    requires !HalfState(w)
    ensures (exists steps :: Possible(w, steps) && CommandFree(steps) && HalfState(After(w, steps))) <==> Removing(w)
  {
    if w.removed {
      var steps := Prepend(w, ReadElsewhere(ERASING), []);
    } else if i :| 0 <= i < |w.tasks| && Disabling(w.tasks[i]) {
      var steps := RemovedAndErased(w, i);
    } else {
      forall steps | Possible(w, steps) && CommandFree(steps) ensures !HalfState(After(w, steps)) {
        NothingRemoved(w, steps);
      }
    }
  }

  lemma OverlapEnds(w: World) returns (steps: seq<Step>)
    requires w.tasks == [ClearingFlag, Uninstalling]
    ensures Possible(w, steps) && HalfState(After(w, steps)) && After(w, steps).tasks == [Ended, Ended]
  {
    var cleared := Next(w, ClearSettles(0, true));
    var removed := Next(cleared, UninstallRemoves(1));
    steps := Prepend(removed, UninstallSettles(1, true), []);
    steps := Prepend(cleared, UninstallRemoves(1), steps);
    steps := Prepend(w, ClearSettles(0, true), steps);
  }

  /** An Enable that clears the flag while Disable is uninstalling leaves just
      that half state, with both commands over. */
  lemma OverlapLeavesHalfState(w: World) returns (steps: seq<Step>)
    requires w.tasks == [] && w.hooks
    ensures Possible(w, steps) && HalfState(After(w, steps)) && After(w, steps).tasks == [Ended, Ended]
  {
    var installing := Next(w, InvokeEnable);
    var clearing := Next(installing, InstallSettles(0, true, true));
    var invoked := Next(clearing, InvokeDisable);
    var written := Next(invoked, DisableWrites(1));
    steps := OverlapEnds(Next(written, DisableResumes(1)));
    steps := Prepend(written, DisableResumes(1), steps);
    steps := Prepend(invoked, DisableWrites(1), steps);
    steps := Prepend(clearing, InvokeDisable, steps);
    steps := Prepend(installing, InstallSettles(0, true, true), steps);
    steps := Prepend(w, InvokeEnable, steps);
  }

  // ---- What a state remembers ----

  predicate Resumes(step: Step) { step.DisableResumes? }

  /** Between what changes the mirror of the flag, it stays. */
  lemma {:induction false} MirrorStays(w: World, steps: seq<Step>)
    requires Possible(w, steps)
    requires w.memory ==> forall step <- steps :: !EnableSucceeds(step) && !step.Reload?
    requires !w.memory ==> forall step <- steps :: !Resumes(step) && !step.Reload?
    ensures After(w, steps).memory == w.memory
    decreases |steps|
  {
    if steps != [] {
      assert steps[0] in steps && forall step <- steps[1..] :: step in steps;
      MirrorStays(Next(w, steps[0]), steps[1..]);
    }
  }

  /** A Disable whose flag is persisted silences the mirror before it uninstalls,
      until an Enable's install succeeds or the window reloads. */
  lemma MirrorAfterDisable(w: World, i: nat, steps: seq<Step>)
    requires Enabled(w, DisableResumes(i)) && Possible(Next(w, DisableResumes(i)), steps)
    requires forall step <- steps :: !(step.InstallSettles? && step.success) && !step.Reload?
    ensures After(Next(w, DisableResumes(i)), steps).memory
  {
    MirrorStays(Next(w, DisableResumes(i)), steps);
  }

  /** A successful install releases it, until a Disable resumes or a reload. */
  lemma MirrorAfterEnable(w: World, i: nat, steps: seq<Step>)
    requires Enabled(w, InstallSettles(i, true, true)) && Possible(Next(w, InstallSettles(i, true, true)), steps)
    requires forall step <- steps :: !step.DisableResumes? && !step.Reload?
    ensures !After(Next(w, InstallSettles(i, true, true)), steps).memory
  {
    MirrorStays(Next(w, InstallSettles(i, true, true)), steps);
  }

  /** After a reload it is the flag on disk where the seed could be read, and false
      otherwise, until a command changes it. */
  lemma MirrorAfterReload(w: World, seedReadable: bool, steps: seq<Step>)
    requires Possible(Next(w, Reload(seedReadable)), steps)
    requires forall step <- steps :: !step.DisableResumes? && !(step.InstallSettles? && step.success) && !step.Reload?
    ensures After(Next(w, Reload(seedReadable)), steps).memory == (seedReadable && w.disk)
  {
    MirrorStays(Next(w, Reload(seedReadable)), steps);
  }

  /** An install that worked, by whichever way. */
  predicate Installs(step: Step) {
    (step.InstallSettles? && step.installed) ||
    ((step.RefreshEnables? || step.AutoInstalls? || step.AutoEnables?) && step.ok)
  }

  /** Hooks are there after an install and gone after a removal, until the other. */
  lemma {:induction false} HooksFollowLast(w: World, step: Step, steps: seq<Step>)
    requires Enabled(w, step) && Possible(Next(w, step), steps)
    requires Installs(step) || step.UninstallRemoves?
    requires forall later <- steps :: if Installs(step) then !later.UninstallRemoves? else !Installs(later)
    ensures var v := After(Next(w, step), steps); v.hooks == Installs(step) && v.removed == step.UninstallRemoves?
  {
    HooksStay(Next(w, step), steps);
  }

  lemma {:induction false} HooksStay(w: World, steps: seq<Step>)
    requires Possible(w, steps) && w.removed == !w.hooks
    requires forall step <- steps :: if w.hooks then !step.UninstallRemoves? else !Installs(step)
    ensures After(w, steps).hooks == w.hooks && After(w, steps).removed == w.removed
    decreases |steps|
  {
    if steps != [] {
      assert steps[0] in steps && forall step <- steps[1..] :: step in steps;
      HooksStay(Next(w, steps[0]), steps[1..]);
    }
  }

  /** What can set the flag on disk, and what can clear it. */
  predicate SetsFlag(step: Step) { step.DisableWrites? || (step.DisableWriteFails? && step.landed) }

  predicate ClearsFlag(step: Step) { (step.ClearSettles? && step.ok) || ErasesFlag(step) }

  lemma {:induction false} FlagStays(w: World, steps: seq<Step>)
    requires Possible(w, steps)
    requires forall step <- steps :: if w.disk then !ClearsFlag(step) else !SetsFlag(step)
    ensures After(w, steps).disk == w.disk
    decreases |steps|
  {
    if steps != [] {
      assert steps[0] in steps && forall step <- steps[1..] :: step in steps;
      FlagStays(Next(w, steps[0]), steps[1..]);
    }
  }

  /** The flag on disk is as the last step that sets or clears it left it. */
  lemma FlagFollowsLast(w: World, step: Step, steps: seq<Step>)
    requires Enabled(w, step) && Possible(Next(w, step), steps)
    requires SetsFlag(step) || ClearsFlag(step)
    requires forall later <- steps :: if SetsFlag(step) then !ClearsFlag(later) else !SetsFlag(later)
    ensures After(Next(w, step), steps).disk == SetsFlag(step)
  {
    FlagStays(Next(w, step), steps);
  }

  // ---- What must have come before ----

  predicate NoReload(steps: seq<Step>) { forall step <- steps :: !step.Reload? }

  /** Each stage is entered by one step only. */
  lemma StageEntered(w: World, step: Step, i: nat)
    requires Enabled(w, step) && !step.Reload?
    ensures At(Next(w, step), i, Uninstalling) ==> At(w, i, Uninstalling) || step == DisableResumes(i)
    ensures At(Next(w, step), i, FlagWritten) ==> At(w, i, FlagWritten) || step == DisableWrites(i)
    ensures At(Next(w, step), i, ClearingFlag) ==> At(w, i, ClearingFlag) || step == InstallSettles(i, true, true)
  {}

  lemma StageNeeded(w: World, step: Step, i: nat)
    requires Enabled(w, step)
    ensures step == UninstallRemoves(i) ==> At(w, i, Uninstalling)
    ensures step == DisableResumes(i) ==> At(w, i, FlagWritten)
    ensures step.ClearSettles? && step.i == i ==> At(w, i, ClearingFlag)
  {}

  /** A Disable removes hooks only when its flag was persisted and the mirror
      silenced, in the same window, and an Enable clears the flag only when its
      install succeeded. */
  lemma {:induction false} CommandsInOrder(w: World, steps: seq<Step>, i: nat)
    requires Possible(w, steps) && NoReload(steps)
    ensures UninstallRemoves(i) in steps ==> At(w, i, Uninstalling) || DisableResumes(i) in steps
    ensures DisableResumes(i) in steps ==> At(w, i, FlagWritten) || DisableWrites(i) in steps
    ensures (exists ok :: ClearSettles(i, ok) in steps) ==>
      At(w, i, ClearingFlag) || InstallSettles(i, true, true) in steps
    decreases |steps|
  {
    hide Next, Enabled, At;
    if steps != [] {
      StageEntered(w, steps[0], i);
      StageNeeded(w, steps[0], i);
      assert forall step :: step in steps <==> step == steps[0] || step in steps[1..];
      CommandsInOrder(Next(w, steps[0]), steps[1..], i);
    }
  }

  /** A command that is over stays over. */
  lemma {:induction false} EndedStays(w: World, steps: seq<Step>, i: nat)
    requires Possible(w, steps) && NoReload(steps) && At(w, i, Ended)
    ensures At(After(w, steps), i, Ended)
    decreases |steps|
  {
    if steps != [] {
      assert steps[0] in steps && forall step <- steps[1..] :: step in steps;
      EndedStays(Next(w, steps[0]), steps[1..], i);
    }
  }

  /** A Disable that could not persist its flag, even where the write landed, and an
      Enable whose install failed do nothing more. */
  lemma FailedCommandsEnd(w: World, step: Step, steps: seq<Step>)
    requires Enabled(w, step) && (step.DisableWriteFails? || (step.InstallSettles? && !step.success))
    requires Possible(Next(w, step), steps) && NoReload(steps)
    ensures forall later <- steps :: MovesTask(later) ==> later.i != step.i
  {
    EndedMovesNot(Next(w, step), steps, step.i);
  }

  lemma {:induction false} EndedMovesNot(w: World, steps: seq<Step>, i: nat)
    requires Possible(w, steps) && NoReload(steps) && At(w, i, Ended)
    ensures forall step <- steps :: MovesTask(step) ==> step.i != i
    decreases |steps|
  {
    if steps != [] {
      assert steps == [steps[0]] + steps[1..];
      assert steps[0] in steps && forall step <- steps[1..] :: step in steps;
      EndedMovesNot(Next(w, steps[0]), steps[1..], i);
    }
  }

  // ---- How often activation installs ----

  /** Installs an activation may still start: a refresh, an install for the
      worktree, and an enable. */
  function Chances(a: Activation): nat {
    match a
    case Inactive => 0
    case Refreshing | RefreshGate(_) => 3
    case Chained => 2
    case Sampled(_, installable, enabled) => (if installable then 1 else 0) + if enabled then 0 else 1
  }

  function Reloads(steps: seq<Step>): nat {
    if steps == [] then 0 else (if steps[0].Reload? then 1 else 0) + Reloads(steps[1..])
  }

  /** No activation starts more than three installs: one of each kind. */
  lemma {:induction false} InstallsAreBounded(w: World, steps: seq<Step>)
    requires Possible(w, steps)
    ensures After(w, steps).automatic + Chances(After(w, steps).activation) <=
            w.automatic + Chances(w.activation) + 3 * Reloads(steps)
    decreases |steps|
  {
    if steps != [] {
      InstallsAreBounded(Next(w, steps[0]), steps[1..]);
    }
  }

  /** A reading answers wrongly exactly when the flag is set and the profile can be
      read neither at once nor under the lock, and loses the flag exactly when it is
      then written. */
  lemma ReadingExactly(disk: bool, r: Reading)
    ensures Answer(disk, r) != disk <==> disk && !r.first && (!r.locked || !r.again)
    ensures Kept(disk, r) != disk <==> disk && !r.first && r.locked && !r.again && r.written
    ensures Answer(false, r) == Kept(false, r) == false
  {}

  // ---- Without an opt-out ----

  /** Where no opt-out is recorded, a reload whose refresh finds nothing stale goes on
      to install for a new worktree, or to enable where nothing is. */
  lemma ActivationInstalls(w: World, installable: bool) returns (steps: seq<Step>)
    requires !w.disk
    ensures Possible(w, steps) && SafeRun(steps) && CommandFree(steps)
    ensures var v := After(w, steps); v.hooks && !v.removed && v.automatic == w.automatic + 1
  {
    var reloaded := Next(w, Reload(true));
    var gate := Next(reloaded, RefreshReadsFlag(CLEAR));
    var chained := Next(gate, RefreshIsFresh);
    var sample := SampleFlag(CLEAR, installable, installable);
    var sampled := Next(chained, sample);
    var install := if installable then AutoInstalls(true) else AutoEnables(true);
    steps := Prepend(sampled, install, []);
    steps := Prepend(chained, sample, steps);
    steps := Prepend(gate, RefreshIsFresh, steps);
    steps := Prepend(reloaded, RefreshReadsFlag(CLEAR), steps);
    steps := Prepend(w, Reload(true), steps);
  }
}
