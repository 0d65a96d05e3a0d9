/** Two promise chains that run async bodies one after another: `kbInitChain`,
    whose links end in a `.catch`, and the log's `writeQueue`, whose bodies
    catch everything themselves. */
module PromiseChain {

  datatype Promise = Pending | Fulfilled | Rejected(reason: string)

  /** `Promise.resolve()`, the promise a call's `.then` made, or its `.catch`. */
  datatype Ref = Initial | Run(call: nat) | Tail(call: nat)

  /** What call `call` registered: its body on `src`, or its `.catch`. */
  datatype Reaction = Body(src: Ref, call: nat) | Swallow(call: nat)

  datatype Event = Started(call: nat) | Ended(call: nat, outcome: Promise)

  /** `guarded` chains link through `.catch`; the bodies of the others never reject. */
  datatype State = State(
    guarded: bool,
    runs: seq<Promise>,
    tails: seq<Promise>,
    chain: Ref,
    reactions: set<Reaction>,
    running: set<nat>,
    log: seq<Event>)

  datatype Step = Call | Fire(reaction: Reaction) | Finish(call: nat, outcome: Promise)

  function Start(guarded: bool): State { State(guarded, [], [], Initial, {}, {}, []) }

  function Look(s: State, p: Ref): Promise {
    match p
    case Initial => Fulfilled
    case Run(k) => if k < |s.runs| then s.runs[k] else Pending
    case Tail(k) => if k < |s.tails| then s.tails[k] else Pending
  }

  function Called(s: State): State {
    var k := |s.runs|;
    var linked := s.(runs := s.runs + [Pending], reactions := s.reactions + {Body(s.chain, k)}, chain := Run(k));
    if s.guarded then
      linked.(tails := s.tails + [Pending], reactions := linked.reactions + {Swallow(k)}, chain := Tail(|s.tails|))
    else linked
  }

  predicate Enabled(s: State, step: Step) {
    match step
    case Call => true
    case Fire(Body(src, call)) => Body(src, call) in s.reactions && !Look(s, src).Pending? && call < |s.runs|
    case Fire(Swallow(call)) => Swallow(call) in s.reactions && !Look(s, Run(call)).Pending? && call < |s.tails|
    case Finish(call, outcome) =>
      call in s.running && call < |s.runs| && !outcome.Pending? && (s.guarded || outcome.Fulfilled?)
  }

  /** A body runs once its source is fulfilled; a rejected source passes its
      rejection on and the body never runs. */
  function Next(s: State, step: Step): State
    requires Enabled(s, step)
  {
    match step
    case Call => Called(s)
    case Fire(Body(src, call)) =>
      var fired := s.(reactions := s.reactions - {Body(src, call)});
      if Look(s, src).Fulfilled? then fired.(running := s.running + {call}, log := s.log + [Started(call)])
      else fired.(runs := s.runs[call := Look(s, src)])
    case Fire(Swallow(call)) =>
      s.(reactions := s.reactions - {Swallow(call)}, tails := s.tails[call := Fulfilled])
    case Finish(call, outcome) =>
      s.(runs := s.runs[call := outcome], running := s.running - {call}, log := s.log + [Ended(call, outcome)])
  }

  predicate Possible(s: State, steps: seq<Step>)
    decreases |steps|
  {
    steps == [] || (Enabled(s, steps[0]) && Possible(Next(s, steps[0]), steps[1..]))
  }

  function After(s: State, steps: seq<Step>): State
    requires Possible(s, steps)
    decreases |steps|
  {
    if steps == [] then s else After(Next(s, steps[0]), steps[1..])
  }

  class Chain {
    var state: State

    constructor (guarded: bool)
      ensures state == Start(guarded)
    {
      state := Start(guarded);
    }

    /** `src.then(() => body())`. */
    method Then(src: Ref) returns (run: Ref)
      modifies this
      ensures run == Run(|old(state).runs|)
      ensures state == old(state).(runs := old(state).runs + [Pending],
                                   reactions := old(state).reactions + {Body(src, |old(state).runs|)})
    {
      run := Run(|state.runs|);
      state := state.(runs := state.runs + [Pending], reactions := state.reactions + {Body(src, |state.runs|)});
    }

    /** `run.catch(() => {})`. */
    method Catch(run: Ref) returns (tail: Ref)
      requires run.Run?
      modifies this
      ensures tail == Tail(|old(state).tails|)
      ensures state == old(state).(tails := old(state).tails + [Pending],
                                   reactions := old(state).reactions + {Swallow(run.call)})
    {
      tail := Tail(|state.tails|);
      state := state.(tails := state.tails + [Pending], reactions := state.reactions + {Swallow(run.call)});
    }

    method RunInitializeKB() returns (run: Ref)
      requires state.guarded
      modifies this
      ensures state == Called(old(state)) && run == Run(|old(state).runs|)
    {
      run := Then(state.chain);
      var tail := Catch(run);
      state := state.(chain := tail);
    }

    method EnqueueLogWrite()
      requires !state.guarded
      modifies this
      ensures state == Called(old(state))
    {
      var run := Then(state.chain);
      state := state.(chain := run);
    }
  }

  // ---- The shape of every reachable chain ----

  datatype Phase = Queued | Running | Settled

  /** The promise call `k` waits for. */
  function Link(guarded: bool, k: nat): Ref {
    if k == 0 then Initial else if guarded then Tail(k - 1) else Run(k - 1)
  }

  /** The first `n` bodies one by one, each with the outcome its own caller sees. */
  function Serial(runs: seq<Promise>, n: nat): seq<Event>
    requires n <= |runs|
  {
    if n == 0 then [] else Serial(runs, n - 1) + [Started(n - 1), Ended(n - 1, runs[n - 1])]
  }

  lemma {:induction false} SerialSame(a: seq<Promise>, b: seq<Promise>, n: nat)
    requires n <= |a| && n <= |b| && a[..n] == b[..n]
    ensures Serial(a, n) == Serial(b, n)
  {
    if n > 0 {
      assert a[..n - 1] == a[..n][..n - 1] == b[..n][..n - 1] == b[..n - 1];
      assert a[n - 1] == a[..n][n - 1] == b[..n][n - 1] == b[n - 1];
      SerialSame(a, b, n - 1);
    }
  }

  /** `n` calls are over, call `n` is at `phase`, and all later ones are queued. */
  ghost predicate Inv(s: State, n: nat, phase: Phase) {
    var calls := |s.runs|;
    && s.chain == Link(s.guarded, calls) && |s.tails| == (if s.guarded then calls else 0)
    && n <= calls && (n == calls ==> phase.Queued?) && (phase.Settled? ==> s.guarded)
    && (forall k :: 0 <= k < calls ==> (s.runs[k].Pending? <==> k > n || (k == n && !phase.Settled?)))
    && (!s.guarded ==> forall k :: 0 <= k < n ==> s.runs[k].Fulfilled?)
    && (forall k :: 0 <= k < |s.tails| ==> s.tails[k] == if k < n then Fulfilled else Pending)
    && (forall k: nat :: Body(Link(s.guarded, k), k) in s.reactions <==>
                           k < calls && (k > n || (k == n && phase.Queued?)))
    && (forall k: nat :: Swallow(k) in s.reactions <==> s.guarded && n <= k < calls)
    && (forall r <- s.reactions :: r.Body? ==> r.src == Link(s.guarded, r.call))
    && s.running == (if phase.Running? then {n} else {})
    && s.log == Serial(s.runs, n) +
        match phase
        case Queued => []
        case Running => [Started(n)]
        case Settled => [Started(n), Ended(n, s.runs[n])]
  }

  /** Phases gone through so far, three for each call. */
  function Done(n: nat, phase: Phase): nat {
    3 * n + match phase case Queued => 0 case Running => 1 case Settled => 2
  }

  lemma CallKeeps(s: State, n: nat, phase: Phase)
    requires Inv(s, n, phase)
    ensures Inv(Called(s), n, phase)
  {
    var t := Called(s);
    SerialSame(s.runs, t.runs, n);
    forall k: nat
      ensures Body(Link(s.guarded, k), k) in t.reactions <==>
        k < |t.runs| && (k > n || (k == n && phase.Queued?))
      ensures Swallow(k) in t.reactions <==> s.guarded && n <= k < |t.runs|
    {
      assert k < |s.runs| || k == |s.runs| || k > |s.runs|;
    }
  }

  /** Only the first call's body can start, and only when all before are over. */
  lemma BodyKeeps(s: State, n: nat, phase: Phase, src: Ref, call: nat)
    requires Inv(s, n, phase) && Enabled(s, Fire(Body(src, call)))
    ensures phase.Queued? && call == n && Inv(Next(s, Fire(Body(src, call))), n, Running)
  {
    assert src == Link(s.guarded, call);
    assert call == n;
    var t := Next(s, Fire(Body(src, call)));
    assert t.runs == s.runs && t.log == s.log + [Started(n)];
  }

  lemma SwallowKeeps(s: State, n: nat, phase: Phase, call: nat)
    requires Inv(s, n, phase) && Enabled(s, Fire(Swallow(call)))
    ensures phase.Settled? && call == n && Inv(Next(s, Fire(Swallow(call))), n + 1, Queued)
  {
    assert call == n;
  }

  lemma FinishKeeps(s: State, n: nat, phase: Phase, call: nat, outcome: Promise)
    requires Inv(s, n, phase) && Enabled(s, Finish(call, outcome))
    ensures phase.Running? && call == n
    ensures var t := Next(s, Finish(call, outcome));
            if s.guarded then Inv(t, n, Settled) else Inv(t, n + 1, Queued)
  {
    var t := Next(s, Finish(call, outcome));
    SerialSame(s.runs, t.runs, n);
    assert t.log == Serial(t.runs, n) + [Started(n), Ended(n, t.runs[n])];
    if !s.guarded {
      assert t.log == Serial(t.runs, n + 1) + [];
    }
  }

  /** Only the front of the queue can move, and it moves forward. */
  lemma StepKeeps(s: State, n: nat, phase: Phase, step: Step) returns (n': nat, phase': Phase)
    requires Inv(s, n, phase) && Enabled(s, step)
    ensures Inv(Next(s, step), n', phase')
    ensures if step.Call? then n' == n && phase' == phase else Done(n', phase') > Done(n, phase)
  {
    hide Inv, Next, Called, Serial;
    match step
    case Call =>
      CallStep(s);
      CallKeeps(s, n, phase);
      return n, phase;
    case Fire(Body(src, call)) =>
      BodyKeeps(s, n, phase, src, call);
      return n, Running;
    case Fire(Swallow(call)) =>
      SwallowKeeps(s, n, phase, call);
      return n + 1, Queued;
    case Finish(call, outcome) =>
      FinishKeeps(s, n, phase, call, outcome);
      if s.guarded {
        return n, Settled;
      } else {
        return n + 1, Queued;
      }
  }

  lemma CallStep(s: State)
    ensures Next(s, Call) == Called(s)
  {}

  lemma {:induction false} RunKeeps(s: State, n: nat, phase: Phase, steps: seq<Step>) returns (n': nat, phase': Phase)
    requires Inv(s, n, phase) && Possible(s, steps)
    ensures Inv(After(s, steps), n', phase')
    decreases |steps|
  {
    n', phase' := n, phase;
    if steps != [] {
      n', phase' := StepKeeps(s, n, phase, steps[0]);
      n', phase' := RunKeeps(Next(s, steps[0]), n', phase', steps[1..]);
    }
  }

  /** For any callers at any times and any rejections: at most one body runs, the
      bodies have started and ended one by one in call order, every call before
      the running one has settled, and each caller's promise is settled as its
      own body ended and no sooner. */
  lemma Serialized(guarded: bool, steps: seq<Step>) returns (n: nat)
    requires Possible(Start(guarded), steps)
    ensures var s := After(Start(guarded), steps);
            && n <= |s.runs| && |s.running| <= 1
            && s.running <= {n}
            && Serial(s.runs, n) <= s.log
            && (s.log[|Serial(s.runs, n)|..] == [] ||
                (n < |s.runs| && (s.log[|Serial(s.runs, n)|..] == [Started(n)] ||
                 s.log[|Serial(s.runs, n)|..] == [Started(n), Ended(n, s.runs[n])])))
            && forall k :: 0 <= k < |s.runs| && !s.runs[k].Pending? ==> Ended(k, s.runs[k]) in s.log
  {
    var phase;
    n, phase := RunKeeps(Start(guarded), 0, Queued, steps);
    var s := After(Start(guarded), steps);
    forall k | 0 <= k < |s.runs| && !s.runs[k].Pending? ensures Ended(k, s.runs[k]) in s.log {
      if k < n {
        SerialHas(s.runs, n, k);
      }
    }
  }

  lemma {:induction false} SerialHas(runs: seq<Promise>, n: nat, k: nat)
    requires k < n <= |runs|
    ensures Ended(k, runs[k]) in Serial(runs, n)
  {
    if k < n - 1 {
      SerialHas(runs, n - 1, k);
    }
  }

  /** Nothing wedges the chain: while a call is not over some step other than a
      new call is possible, whatever earlier bodies did, and a body whose turn
      has come can start. */
  lemma NeverWedged(s: State, n: nat, phase: Phase) returns (step: Step)
    requires Inv(s, n, phase) && n < |s.runs|
    ensures Enabled(s, step) && !step.Call?
    ensures phase.Queued? ==> step == Fire(Body(Link(s.guarded, n), n)) && n in Next(s, step).running
  {
    match phase
    case Queued => return Fire(Body(Link(s.guarded, n), n));
    case Running => return Finish(n, Fulfilled);
    case Settled => return Fire(Swallow(n));
  }

  lemma SameCalls(s: State, step: Step)
    requires Enabled(s, step) && !step.Call?
    ensures |Next(s, step).runs| == |s.runs|
  {}

  /** Where nothing but a new call is possible every call is over. */
  lemma AllOver(s: State, n: nat, phase: Phase)
    requires Inv(s, n, phase) && forall step :: Enabled(s, step) ==> step.Call?
    ensures n == |s.runs| && forall k :: 0 <= k < |s.runs| ==> !s.runs[k].Pending?
  {
    if n < |s.runs| {
      var step := NeverWedged(s, n, phase);
    }
  }

  lemma PhasesBounded(s: State, n: nat, phase: Phase)
    requires Inv(s, n, phase)
    ensures Done(n, phase) <= 3 * |s.runs|
  {}

  /** Without further calls a run is no longer than the phases left, three for each
      call, and where nothing but a new call is possible every caller has its
      answer. */
  lemma {:induction false} CallsEnd(s: State, n: nat, phase: Phase, steps: seq<Step>) returns (n': nat, phase': Phase)
    requires Inv(s, n, phase) && Possible(s, steps) && forall step <- steps :: !step.Call?
    ensures Inv(After(s, steps), n', phase') && |After(s, steps).runs| == |s.runs|
    ensures |steps| + Done(n, phase) <= Done(n', phase') <= 3 * |s.runs|
    ensures var t := After(s, steps);
            (forall step :: Enabled(t, step) ==> step.Call?) ==>
              n' == |t.runs| && forall k :: 0 <= k < |t.runs| ==> !t.runs[k].Pending?
    decreases |steps|
  {
    hide Inv, Next, Done, Enabled;
    n', phase' := n, phase;
    if steps != [] {
      assert steps[0] in steps && forall step <- steps[1..] :: step in steps;
      SameCalls(s, steps[0]);
      n', phase' := StepKeeps(s, n, phase, steps[0]);
      n', phase' := CallsEnd(Next(s, steps[0]), n', phase', steps[1..]);
    } else {
      PhasesBounded(s, n, phase);
      if forall step :: Enabled(s, step) ==> step.Call? {
        AllOver(s, n, phase);
      }
    }
  }
}
