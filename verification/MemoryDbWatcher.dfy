/** The memory-database watcher: a debounce timer, a single-flight refresh, an
    echo guard on the file signature and a missed-event flag.

    `Host` holds the closure variables together with the timers and refreshes
    the event loop keeps for them. `World` adds the database file, the events
    not yet delivered and the writes no refresh has read. */
module MemoryDbWatcher {
  import opened Wrappers

  type Signature = string
  type Id = nat

  datatype Host = Host(
    seen: Signature,
    timer: Option<Id>,
    refreshing: bool,
    missed: bool,
    liveTimers: set<Id>,
    inFlight: set<Id>,
    nextId: Id)

  // ---- What each callback does ----

  function Changed(h: Host): Host {
    if h.refreshing then h.(missed := true)
    else
      var live := if h.timer.Some? then h.liveTimers - {h.timer.value} else h.liveTimers;
      h.(timer := Some(h.nextId), liveTimers := live + {h.nextId}, nextId := h.nextId + 1)
  }

  function Ticked(h: Host, id: Id, signature: Signature): Host {
    var idle := h.(liveTimers := h.liveTimers - {id}, timer := None);
    if signature == h.seen then idle
    else idle.(refreshing := true, missed := false, inFlight := h.inFlight + {h.nextId}, nextId := h.nextId + 1)
  }

  function Settled(h: Host, id: Id, signature: Signature): Host {
    var done := h.(refreshing := false, inFlight := h.inFlight - {id});
    if h.missed then Changed(done.(missed := false)) else done.(seen := signature)
  }

  /** The closure as the extension runs it. */
  class Watcher {
    var memoryDbSeen: Signature
    var memoryDbTimer: Option<Id>
    var memoryDbRefreshing: bool
    var memoryDbMissedEvent: bool
    var liveTimers: set<Id>
    var inFlight: set<Id>
    var nextId: Id

    function View(): Host
      reads this
    {
      Host(memoryDbSeen, memoryDbTimer, memoryDbRefreshing, memoryDbMissedEvent, liveTimers, inFlight, nextId)
    }

    constructor (signature: Signature)
      ensures View() == Host(signature, None, false, false, {}, {}, 0)
    {
      memoryDbSeen := signature;
      memoryDbTimer := None;
      memoryDbRefreshing := false;
      memoryDbMissedEvent := false;
      liveTimers := {};
      inFlight := {};
      nextId := 0;
    }

    method SetTimeout()
      modifies this
      ensures View() == old(View()).(timer := Some(old(nextId)),
                                     liveTimers := old(liveTimers) + {old(nextId)}, nextId := old(nextId) + 1)
    {
      memoryDbTimer := Some(nextId);
      liveTimers := liveTimers + {nextId};
      nextId := nextId + 1;
    }

    method OnMemoryDbChanged()
      modifies this
      ensures View() == Changed(old(View()))
    {
      if memoryDbRefreshing {
        memoryDbMissedEvent := true;
        return;
      }
      if memoryDbTimer.Some? {
        liveTimers := liveTimers - {memoryDbTimer.value};
      }
      SetTimeout();
    }

    /** The timer callback; `signature` is what the two files stat to now. */
    method TimerFired(id: Id, signature: Signature)
      modifies this
      ensures View() == Ticked(old(View()), id, signature)
    {
      liveTimers := liveTimers - {id};
      memoryDbTimer := None;
      if signature == memoryDbSeen {
        return;
      }
      memoryDbRefreshing := true;
      memoryDbMissedEvent := false;
      inFlight := inFlight + {nextId};
      nextId := nextId + 1;
    }

    /** The `finally` of refresh `id`; `signature` is sampled there. */
    method RefreshSettled(id: Id, signature: Signature)
      modifies this
      ensures View() == Settled(old(View()), id, signature)
    {
      inFlight := inFlight - {id};
      var missed := memoryDbMissedEvent;
      if !missed {
        memoryDbSeen := signature;
      }
      memoryDbRefreshing := false;
      if missed {
        memoryDbMissedEvent := false;
        OnMemoryDbChanged();
      }
    }
  }

  // ---- The protocol ----

  datatype World = World(
    host: Host,
    disk: Signature,
    past: set<Signature>,  // every signature the files have had
    writes: nat,           // writes so far; each is named by its number
    external: set<nat>,    // other processes' writes whose event is undelivered
    own: set<nat>,         // the refresh's own churn whose event is undelivered
    unread: set<nat>,      // other processes' writes no refresh has read
    hasRead: set<Id>,      // refreshes that have queried the database
    started: nat)          // refreshes started so far

  datatype Step =
    | ExternalWrite(signature: Signature)
    | OwnChurn(signature: Signature)
    | Deliver(externals: set<nat>, owns: set<nat>)  // one callback, coalescing a batch
    | Tick(timerId: Id)
    | Read(refreshId: Id)
    | Settle(refreshId: Id)
    | SettleFailed(refreshId: Id)  // its errors are only logged

  predicate Enabled(w: World, step: Step) {
    match step
    case ExternalWrite(_) => true
    case OwnChurn(_) => w.host.inFlight != {}
    case Deliver(externals, owns) => externals <= w.external && owns <= w.own && externals + owns != {}
    case Tick(id) => id in w.host.liveTimers
    case Read(id) => id in w.host.inFlight && id !in w.hasRead
    case Settle(id) => id in w.host.inFlight && id in w.hasRead
    case SettleFailed(id) => id in w.host.inFlight && id !in w.hasRead
  }

  function Next(w: World, step: Step): World
    requires Enabled(w, step)
  {
    match step
    case ExternalWrite(signature) =>
      w.(disk := signature, past := w.past + {signature}, writes := w.writes + 1,
         external := w.external + {w.writes}, unread := w.unread + {w.writes})
    case OwnChurn(signature) =>
      w.(disk := signature, past := w.past + {signature}, writes := w.writes + 1, own := w.own + {w.writes})
    case Deliver(externals, owns) =>
      w.(host := Changed(w.host), external := w.external - externals, own := w.own - owns)
    case Tick(id) =>
      w.(host := Ticked(w.host, id, w.disk), started := w.started + if w.disk == w.host.seen then 0 else 1)
    case Read(id) => w.(hasRead := w.hasRead + {id}, unread := {})
    case Settle(id) => w.(host := Settled(w.host, id, w.disk))
    case SettleFailed(id) => w.(host := Settled(w.host, id, w.disk))
  }

  predicate Possible(w: World, steps: seq<Step>)
    decreases |steps|
  {
    steps == [] || (Enabled(w, steps[0]) && Possible(Next(w, steps[0]), steps[1..]))
  }

  function After(w: World, steps: seq<Step>): World
    requires Possible(w, steps)
    decreases |steps|
  {
    if steps == [] then w else After(Next(w, steps[0]), steps[1..])
  }

  function Start(signature: Signature): (w: World)
    ensures Inv(w) && Covered(w)
  {
    World(Host(signature, None, false, false, {}, {}, 0), signature, {signature}, 0, {}, {}, {}, {}, 0)
  }

  // ---- At most one timer and one refresh ----

  ghost predicate SingleFlight(h: Host) {
    && (h.timer.Some? ==> h.timer.value < h.nextId && !h.refreshing)
    && h.liveTimers == (if h.timer.Some? then {h.timer.value} else {})
    && (forall id <- h.inFlight :: id < h.nextId)
    && (h.refreshing ==> exists id :: h.inFlight == {id})
    && (!h.refreshing ==> h.inFlight == {} && !h.missed)
  }

  /** The machine's own shape, and: when idle with something to see it has been or
      will be told. */
  ghost predicate Inv(w: World) {
    && SingleFlight(w.host)
    && w.disk in w.past && w.host.seen in w.past
    && (forall i <- w.external :: i < w.writes)
    && (forall i <- w.own :: i < w.writes)
    && (forall i <- w.unread :: i < w.writes)
    && (forall id <- w.hasRead :: id < w.host.nextId)
    && (!w.host.refreshing ==> w.disk == w.host.seen || w.host.timer.Some? || w.external + w.own != {})
  }

  lemma StepKeepsInv(w: World, step: Step)
    requires Inv(w) && Enabled(w, step)
    ensures Inv(Next(w, step))
  {
    if w.host.refreshing {
      var id :| w.host.inFlight == {id};
      assert w.host.inFlight - {id} == {};
    }
    match step
    case Tick(id) =>
      assert w.host.liveTimers - {id} == {};
      assert w.host.inFlight + {w.host.nextId} == {w.host.nextId};
    case Deliver(_, _) =>
      if w.host.timer.Some? {
        assert w.host.liveTimers - {w.host.timer.value} == {};
      }
    case _ =>
  }

  /** In every reachable world there is at most one live timer and one refresh,
      and never both, whatever the order of writes, events and ticks. */
  lemma {:induction false} OneTimerOneRefresh(w: World, steps: seq<Step>)
    requires Inv(w) && Possible(w, steps)
    ensures Inv(After(w, steps))
    ensures var h := After(w, steps).host; |h.liveTimers| + |h.inFlight| <= 1
    decreases |steps|
  {
    if steps != [] {
      StepKeepsInv(w, steps[0]);
      OneTimerOneRefresh(Next(w, steps[0]), steps[1..]);
    }
  }

  // ---- No lost write ----

  /** Every unread write will still be read: a refresh that has not read yet runs,
      or the write's event is recorded or coming while the file differs from what
      was last seen, or a timer or an event is pending that will find it so. */
  ghost predicate Covered(w: World) {
    w.unread != {} ==>
      if w.host.refreshing then
        w.host.inFlight !! w.hasRead || (w.disk != w.host.seen && (w.host.missed || w.unread <= w.external))
      else
        w.disk != w.host.seen && (w.host.timer.Some? || w.external + w.own != {})
  }

  /** A write or churn may bring back the very signature last seen only while a
      read is to come that needs no difference to start; a refresh that settles
      has read everything or recorded an event, and one that fails must also leave
      a difference to find. */
  predicate Keeps(w: World, step: Step) {
    match step
    case ExternalWrite(signature) =>
      signature != w.host.seen || (w.host.refreshing && w.host.inFlight !! w.hasRead)
    case OwnChurn(signature) =>
      signature != w.host.seen || w.unread == {} || w.host.inFlight !! w.hasRead
    case Settle(_) => w.unread == {} || w.host.missed
    case SettleFailed(_) => w.unread == {} || (w.host.missed && w.disk != w.host.seen)
    case _ => true
  }

  predicate KeepsRun(w: World, steps: seq<Step>)
    requires Possible(w, steps)
    decreases |steps|
  {
    steps == [] || (Keeps(w, steps[0]) && KeepsRun(Next(w, steps[0]), steps[1..]))
  }

  /** Where every write is covered, a step leaves every write covered if and only
      if it is one of those. */
  lemma StepCoversExactly(w: World, step: Step)
    requires Inv(w) && Covered(w) && Enabled(w, step)
    ensures Covered(Next(w, step)) <==> Keeps(w, step)
  {
    if w.host.refreshing {
      var id :| w.host.inFlight == {id};
    }
    match step
    case ExternalWrite(_) =>
      assert w.writes in Next(w, step).external && w.writes in Next(w, step).unread;
    case _ =>
  }

  /** In every state such a run reaches, no write is lost. */
  lemma {:induction false} NoLostWrite(w: World, steps: seq<Step>)
    requires Inv(w) && Covered(w) && Possible(w, steps) && KeepsRun(w, steps)
    ensures Covered(After(w, steps))
    decreases |steps|
  {
    if steps != [] {
      StepCoversExactly(w, steps[0]);
      StepKeepsInv(w, steps[0]);
      NoLostWrite(Next(w, steps[0]), steps[1..]);
    }
  }

  /** Signatures never repeat, an event of a write a refresh did not read arrives
      before that refresh settles, and refreshes do not fail. */
  predicate Fair(w: World, step: Step) {
    match step
    case ExternalWrite(signature) => signature !in w.past
    case OwnChurn(signature) => signature !in w.past
    case Settle(_) => w.unread !! w.external
    case SettleFailed(_) => false
    case _ => true
  }

  predicate FairRun(w: World, steps: seq<Step>)
    requires Possible(w, steps)
    decreases |steps|
  {
    steps == [] || (Fair(w, steps[0]) && FairRun(Next(w, steps[0]), steps[1..]))
  }

  lemma {:induction false} Extend(w: World, steps: seq<Step>, step: Step)
    requires Possible(w, steps) && Enabled(After(w, steps), step)
    ensures Possible(w, steps + [step])
    ensures After(w, steps + [step]) == Next(After(w, steps), step)
    ensures FairRun(w, steps) && Fair(After(w, steps), step) ==> FairRun(w, steps + [step])
    decreases |steps|
  {
    if steps == [] {
      assert (steps + [step])[1..] == [];
    } else {
      Extend(Next(w, steps[0]), steps[1..], step);
      assert (steps + [step])[1..] == steps[1..] + [step];
    }
  }

  /** Fair steps are among those that keep writes covered. */
  lemma FairIsEnough(w: World, step: Step)
    requires Inv(w) && Covered(w) && Enabled(w, step) && Fair(w, step)
    ensures Keeps(w, step)
  {
    if w.host.refreshing {
      var id :| w.host.inFlight == {id};
    }
    if step.Settle? && w.unread != {} {
      var x :| x in w.unread;
    }
  }

  lemma {:induction false} FairRunIsEnough(w: World, steps: seq<Step>)
    requires Inv(w) && Covered(w) && Possible(w, steps) && FairRun(w, steps)
    ensures KeepsRun(w, steps)
    decreases |steps|
  {
    if steps != [] {
      FairIsEnough(w, steps[0]);
      StepCoversExactly(w, steps[0]);
      StepKeepsInv(w, steps[0]);
      FairRunIsEnough(Next(w, steps[0]), steps[1..]);
    }
  }

  /** Nothing is pending, armed or running. */
  predicate AtRest(w: World) {
    w.external == {} && w.own == {} && w.host.timer.None? && !w.host.refreshing
  }

  predicate OnItsOwn(steps: seq<Step>) {
    forall step <- steps :: step.Deliver? || step.Tick? || step.Settle?
  }

  lemma Prepend(w: World, step: Step, rest: seq<Step>) returns (steps: seq<Step>)
    requires Enabled(w, step) && Possible(Next(w, step), rest)
    ensures steps == [step] + rest && Possible(w, steps) && After(w, steps) == After(Next(w, step), rest)
    ensures OwnMissed(w, steps) == (if MissesOwn(w, step) then 1 else 0) + OwnMissed(Next(w, step), rest)
    ensures OnItsOwn(rest) && (step.Deliver? || step.Tick? || step.Settle?) ==> OnItsOwn(steps)
    ensures NoExternalWrite(rest) && !step.ExternalWrite? ==> NoExternalWrite(steps)
    ensures FairRun(Next(w, step), rest) && Fair(w, step) ==> FairRun(w, steps)
  {
    steps := [step] + rest;
    assert steps[1..] == rest;
  }

  /** An idle machine that sees no difference comes to rest as it is. */
  lemma SeesNothing(w: World) returns (steps: seq<Step>)
    requires Inv(w) && !w.host.refreshing && w.disk == w.host.seen
    ensures Possible(w, steps) && OnItsOwn(steps) && AtRest(After(w, steps)) && After(w, steps).unread == w.unread
  {
    if w.external + w.own != {} {
      var v := Next(w, Deliver(w.external, w.own));
      StepKeepsInv(w, Deliver(w.external, w.own));
      steps := Prepend(v, Tick(v.host.timer.value), []);
      steps := Prepend(w, Deliver(w.external, w.own), steps);
    } else if w.host.timer.Some? {
      steps := Prepend(w, Tick(w.host.timer.value), []);
    } else {
      steps := [];
    }
  }

  /** Coverage asks for no more than it must: from any state without it, the
      machine can come to rest with an unread write and no further write, churn or
      failure. */
  lemma UncoveredCanLose(w: World) returns (steps: seq<Step>)
    requires Inv(w) && !Covered(w)
    ensures Possible(w, steps) && OnItsOwn(steps)
    ensures AtRest(After(w, steps)) && After(w, steps).unread != {}
  {
    if w.host.refreshing {
      var id :| w.host.inFlight == {id};
      var v := Next(w, Settle(id));
      StepKeepsInv(w, Settle(id));
      steps := SeesNothing(v);
      steps := Prepend(w, Settle(id), steps);
    } else if w.disk == w.host.seen {
      steps := SeesNothing(w);
    } else {
      steps := [];
    }
  }

  /** An event that comes after its refresh settled is taken for an echo. */
  lemma LateEventLosesAWrite() returns (steps: seq<Step>)
    ensures Possible(Start("a"), steps)
    ensures var w := After(Start("a"), steps); AtRest(w) && w.unread != {}
  {
    var w := Start("a");
    steps := [];
    Extend(w, steps, ExternalWrite("b"));
    steps := steps + [ExternalWrite("b")];
    Extend(w, steps, Deliver({0}, {}));
    steps := steps + [Deliver({0}, {})];
    Extend(w, steps, Tick(0));
    steps := steps + [Tick(0)];
    Extend(w, steps, Read(1));
    steps := steps + [Read(1)];
    Extend(w, steps, ExternalWrite("c"));
    steps := steps + [ExternalWrite("c")];
    Extend(w, steps, Settle(1));
    steps := steps + [Settle(1)];
    Extend(w, steps, Deliver({1}, {}));
    steps := steps + [Deliver({1}, {})];
    Extend(w, steps, Tick(2));
    steps := steps + [Tick(2)];
    assert 1 in After(w, steps).unread;
  }

  /** So is a pair of writes that brings the old signature back. */
  lemma RepeatedSignatureLosesAWrite() returns (steps: seq<Step>)
    ensures Possible(Start("a"), steps)
    ensures var w := After(Start("a"), steps); AtRest(w) && w.unread != {}
  {
    var w := Start("a");
    steps := [];
    Extend(w, steps, ExternalWrite("b"));
    steps := steps + [ExternalWrite("b")];
    Extend(w, steps, ExternalWrite("a"));
    steps := steps + [ExternalWrite("a")];
    Extend(w, steps, Deliver({0, 1}, {}));
    steps := steps + [Deliver({0, 1}, {})];
    Extend(w, steps, Tick(0));
    steps := steps + [Tick(0)];
    assert 1 in After(w, steps).unread;
  }

  /** A refresh that fails still publishes the signature of what it did not read. */
  lemma FailedRefreshLosesAWrite() returns (steps: seq<Step>)
    ensures Possible(Start("a"), steps)
    ensures var w := After(Start("a"), steps); AtRest(w) && w.unread != {}
  {
    var w := Start("a");
    steps := [];
    Extend(w, steps, ExternalWrite("b"));
    steps := steps + [ExternalWrite("b")];
    Extend(w, steps, Deliver({0}, {}));
    steps := steps + [Deliver({0}, {})];
    Extend(w, steps, Tick(0));
    steps := steps + [Tick(0)];
    Extend(w, steps, SettleFailed(1));
    steps := steps + [SettleFailed(1)];
    assert 0 in After(w, steps).unread;
  }

  // ---- Quiescence ----

  predicate NoExternalWrite(steps: seq<Step>) {
    forall step <- steps :: !step.ExternalWrite?
  }

  /** An event of the refresh's own churn, and nothing else, reaches a refresh that
      had missed none. */
  predicate MissesOwn(w: World, step: Step) {
    step.Deliver? && step.externals == {} && w.host.refreshing && !w.host.missed
  }

  function OwnMissed(w: World, steps: seq<Step>): nat
    requires Possible(w, steps)
    decreases |steps|
  {
    if steps == [] then 0
    else (if MissesOwn(w, steps[0]) then 1 else 0) + OwnMissed(Next(w, steps[0]), steps[1..])
  }

  /** Refreshes still to come. */
  function Owed(w: World): nat {
    |w.external| +
    if w.host.refreshing then if w.host.missed then 1 else 0
    else if w.disk != w.host.seen then 1 else 0
  }

  /** Steps still to come, own churn aside. */
  ghost function Work(w: World): nat {
    5 * Owed(w) + 2 * |w.external| + 2 * |w.own| + (if w.host.timer.Some? then 1 else 0) +
    if !w.host.refreshing then 0 else if w.host.inFlight <= w.hasRead then 2 else 3
  }

  function Churns(steps: seq<Step>): nat {
    if steps == [] then 0 else (if steps[0].OwnChurn? then 1 else 0) + Churns(steps[1..])
  }

  lemma Removed(s: set<nat>, batch: set<nat>)
    requires batch <= s
    ensures |s - batch| == |s| - |batch|
    ensures batch != {} ==> |batch| >= 1
  {
    assert (s - batch) + batch == s;
  }

  /** A delivery to a refresh: its miss is owed once, and externals pay for it. */
  lemma MissWorks(w: World, externals: set<nat>, owns: set<nat>)
    requires w.host.refreshing && w.host.timer.None? && Enabled(w, Deliver(externals, owns))
    ensures var step := Deliver(externals, owns);
            var v, missed := Next(w, step), if MissesOwn(w, step) then 1 else 0;
            v.started + Owed(v) <= w.started + Owed(w) + missed && 1 + Work(v) <= Work(w) + 4 * missed
  {
    Removed(w.external, externals);
    Removed(w.own, owns);
  }

  lemma DeliveryWorks(w: World, externals: set<nat>, owns: set<nat>)
    requires Inv(w) && Enabled(w, Deliver(externals, owns))
    ensures var step := Deliver(externals, owns);
            var v, missed := Next(w, step), if MissesOwn(w, step) then 1 else 0;
            v.started + Owed(v) <= w.started + Owed(w) + missed && 1 + Work(v) <= Work(w) + 4 * missed
  {
    if w.host.refreshing {
      hide Next, Owed, Work;
      MissWorks(w, externals, owns);
    } else {
      Removed(w.external, externals);
      Removed(w.own, owns);
    }
  }

  lemma StepWorks(w: World, step: Step)
    requires Inv(w) && Enabled(w, step) && !step.ExternalWrite?
    ensures var v, missed := Next(w, step), if MissesOwn(w, step) then 1 else 0;
            && v.started + Owed(v) <= w.started + Owed(w) + missed
            && 1 + Work(v) <= Work(w) + 4 * missed + if step.OwnChurn? then 3 else 0
  {
    if w.host.refreshing {
      var id :| w.host.inFlight == {id};
    }
    match step
    case Deliver(externals, owns) => DeliveryWorks(w, externals, owns);
    case OwnChurn(_) => assert |w.own + {w.writes}| == |w.own| + 1;
    case Tick(id) => assert !(Ticked(w.host, id, w.disk).inFlight <= w.hasRead) || w.disk == w.host.seen;
    case _ =>
  }

  /** Once external writes stop, at most one refresh more than there are
      undelivered external events starts, and one for each miss of nothing but own
      churn; and the run is no longer than the work at hand, the churn it makes and
      those misses. */
  lemma {:induction false} RefreshesAreBounded(w: World, steps: seq<Step>)
    requires Inv(w) && Possible(w, steps) && NoExternalWrite(steps)
    ensures After(w, steps).started <= w.started + Owed(w) + OwnMissed(w, steps)
    ensures Owed(w) <= 1 + |w.external|
    ensures After(w, steps).started + Owed(After(w, steps)) <= w.started + Owed(w) + OwnMissed(w, steps)
    ensures |steps| + Work(After(w, steps)) <= Work(w) + 3 * Churns(steps) + 4 * OwnMissed(w, steps)
    decreases |steps|
  {
    if steps != [] {
      assert steps[0] in steps && forall step <- steps[1..] :: step in steps;
      StepWorks(w, steps[0]);
      StepKeepsInv(w, steps[0]);
      RefreshesAreBounded(Next(w, steps[0]), steps[1..]);
    }
  }

  /** A machine not at rest always has a step of its own, and a fair one. */
  lemma NeverStuck(w: World) returns (step: Step)
    requires Inv(w) && !AtRest(w)
    ensures step.Read? || OnItsOwn([step])
    ensures Enabled(w, step) && Fair(w, step) && !MissesOwn(w, step)
  {
    if w.host.refreshing {
      var id :| w.host.inFlight == {id};
      if id !in w.hasRead {
        return Read(id);
      } else if w.unread !! w.external {
        return Settle(id);
      } else {
        return Deliver(w.external, {});
      }
    } else if w.host.timer.Some? {
      return Tick(w.host.timer.value);
    } else {
      return Deliver(w.external, w.own);
    }
  }

  /** At rest nothing but an external write can happen, the guard agrees with the
      disk, and a run that lost nothing has read everything. */
  lemma RestIsCurrent(w: World)
    requires Inv(w) && AtRest(w)
    ensures forall step :: Enabled(w, step) ==> step.ExternalWrite?
    ensures w.host.seen == w.disk
    ensures Covered(w) ==> w.unread == {}
  {}

  /** From activation on, a run that keeps writes covered and comes to rest has read
      every one and seen the signature the disk has. */
  lemma EveryWriteIsRead(signature: Signature, steps: seq<Step>)
    requires Possible(Start(signature), steps) && KeepsRun(Start(signature), steps)
    requires AtRest(After(Start(signature), steps))
    ensures var w := After(Start(signature), steps); w.unread == {} && w.host.seen == w.disk
  {
    NoLostWrite(Start(signature), steps);
    OneTimerOneRefresh(Start(signature), steps);
    RestIsCurrent(After(Start(signature), steps));
  }

  /** A world about to refresh whose signatures are all shorter than `k`. */
  ghost predicate Storming(w: World, k: nat) {
    && Inv(w) && w.host.timer.Some? && w.disk != w.host.seen
    && w.own == {} && w.unread !! w.external
    && forall s <- w.past :: |s| < k
  }

  lemma StormRound(w: World, k: nat) returns (steps: seq<Step>)
    requires Storming(w, k)
    ensures Possible(w, steps) && NoExternalWrite(steps) && FairRun(w, steps)
    ensures Storming(After(w, steps), k + 1) && After(w, steps).started == w.started + 1
    ensures OwnMissed(w, steps) == 1
  {
    var refresh := StormStarts(w, k);
    var w1 := Next(w, Tick(w.host.timer.value));
    var w2 := Next(w1, Read(refresh));
    var w3 := Next(w2, OwnChurn(seq(k, _ => 'x')));
    var w4 := Next(w3, Deliver({}, {w.writes}));
    hide Inv, Storming, Next, Enabled, Fair;
    steps := [];
    steps := Prepend(w4, Settle(refresh), steps);
    steps := Prepend(w3, Deliver({}, {w.writes}), steps);
    steps := Prepend(w2, OwnChurn(seq(k, _ => 'x')), steps);
    steps := Prepend(w1, Read(refresh), steps);
    steps := Prepend(w, Tick(w.host.timer.value), steps);
  }

  /** The five steps of a round. */
  lemma StormStarts(w: World, k: nat) returns (refresh: Id)
    requires Storming(w, k)
    ensures var tick, own := Tick(w.host.timer.value), Deliver({}, {w.writes});
            && Enabled(w, tick)
            && var w1 := Next(w, tick);
            && Enabled(w1, Read(refresh))
            && var w2, churn := Next(w1, Read(refresh)), OwnChurn(seq(k, _ => 'x'));
            && Enabled(w2, churn) && Fair(w2, churn)
            && var w3 := Next(w2, churn);
            && Enabled(w3, own) && MissesOwn(w3, own)
            && var w4 := Next(w3, own);
            && Enabled(w4, Settle(refresh)) && Fair(w4, Settle(refresh))
            && var w5 := Next(w4, Settle(refresh));
            && Storming(w5, k + 1) && w5.started == w.started + 1
  {
    refresh := w.host.nextId;
    var w1 := Next(w, Tick(w.host.timer.value));
    StepKeepsInv(w, Tick(w.host.timer.value));
    var w2 := Next(w1, Read(refresh));
    StepKeepsInv(w1, Read(refresh));
    var w3 := Next(w2, OwnChurn(seq(k, _ => 'x')));
    StepKeepsInv(w2, OwnChurn(seq(k, _ => 'x')));
    var w4 := Next(w3, Deliver({}, {w.writes}));
    StepKeepsInv(w3, Deliver({}, {w.writes}));
    StepKeepsInv(w4, Settle(refresh));
    assert w3.disk !in w.past;
  }

  lemma {:induction false} Concat(w: World, a: seq<Step>, b: seq<Step>)
    requires Possible(w, a) && Possible(After(w, a), b)
    ensures Possible(w, a + b) && After(w, a + b) == After(After(w, a), b)
    ensures OwnMissed(w, a + b) == OwnMissed(w, a) + OwnMissed(After(w, a), b)
    ensures FairRun(w, a) && FairRun(After(w, a), b) ==> FairRun(w, a + b)
    decreases |a|
  {
    if a == [] {
      assert a + b == b;
    } else {
      Concat(Next(w, a[0]), a[1..], b);
      assert (a + b)[1..] == a[1..] + b;
    }
  }

  /** `n` rounds, and the refresh that is still due. */
  lemma {:induction false} StormRounds(w: World, k: nat, n: nat) returns (steps: seq<Step>)
    requires Storming(w, k)
    ensures Possible(w, steps) && NoExternalWrite(steps) && FairRun(w, steps) && OwnMissed(w, steps) == n
    ensures After(w, steps).started == w.started + 1 + n
    decreases n
  {
    if n == 0 {
      steps := Prepend(w, Tick(w.host.timer.value), []);
    } else {
      var first := StormRound(w, k);
      var rest := StormRounds(After(w, first), k + 1, n - 1);
      Concat(w, first, rest);
      steps := first + rest;
    }
  }

  /** The bound is met for every number of misses: from activation on, after one
      write and its event, refreshes whose own churn reaches them follow one another
      without any further write, each miss costing just one. */
  lemma OwnEventsCanStorm(n: nat) returns (first: seq<Step>, rest: seq<Step>)
    ensures first == [ExternalWrite("b"), Deliver({0}, {})]
    ensures Possible(Start("a"), first) && Possible(After(Start("a"), first), rest)
    ensures FairRun(Start("a"), first) && FairRun(After(Start("a"), first), rest) && NoExternalWrite(rest)
    ensures var w := After(Start("a"), first);
            OwnMissed(w, rest) == n && After(w, rest).started == w.started + Owed(w) + n == 1 + n
  {
    var start := Start("a");
    var v := Next(start, ExternalWrite("b"));
    StepKeepsInv(start, ExternalWrite("b"));
    var w := Next(v, Deliver({0}, {}));
    StepKeepsInv(v, Deliver({0}, {}));
    first := Prepend(v, Deliver({0}, {}), []);
    first := Prepend(start, ExternalWrite("b"), first);
    assert w.past == {"a", "b"} && w.external == {};
    rest := StormRounds(w, 2, n);
  }

  // ---- Debounce ----

  /** Timers only get younger. */
  lemma {:induction false} TimersAge(w: World, steps: seq<Step>, id: Id)
    requires Inv(w) && Possible(w, steps) && id < w.host.nextId && id !in w.host.liveTimers
    ensures id !in After(w, steps).host.liveTimers
    decreases |steps|
  {
    if steps != [] {
      StepKeepsInv(w, steps[0]);
      TimersAge(Next(w, steps[0]), steps[1..], id);
    }
  }

  /** Every event starts the wait anew: after one, no timer armed before it is left
      to fire, so what fires at last was armed by the last event. */
  lemma BurstsCollapse(w: World, externals: set<nat>, owns: set<nat>, steps: seq<Step>, id: Id)
    requires Inv(w) && Enabled(w, Deliver(externals, owns)) && id < w.host.nextId
    requires Possible(Next(w, Deliver(externals, owns)), steps)
    ensures id !in After(Next(w, Deliver(externals, owns)), steps).host.liveTimers
    ensures Tick(id) !in steps
  {
    StepKeepsInv(w, Deliver(externals, owns));
    TimersAge(Next(w, Deliver(externals, owns)), steps, id);
    GoneNeverFires(Next(w, Deliver(externals, owns)), steps, id);
  }

  lemma {:induction false} GoneNeverFires(w: World, steps: seq<Step>, id: Id)
    requires Inv(w) && Possible(w, steps) && id < w.host.nextId && id !in w.host.liveTimers
    ensures Tick(id) !in steps
    decreases |steps|
  {
    if steps != [] {
      StepKeepsInv(w, steps[0]);
      assert forall step :: step in steps <==> step == steps[0] || step in steps[1..];
      GoneNeverFires(Next(w, steps[0]), steps[1..], id);
    }
  }
}
