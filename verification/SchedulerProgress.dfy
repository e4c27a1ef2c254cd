/** Every run of the scheduler is finite, and a well-formed stack always gets deployed. */
module SchedulerProgress {
  import opened Scheduler
  import opened SchedulerInvariants
  import opened SetFacts
  import opened SchedulerTheorems

  /* ---- Termination ---- */

  /** The most statuses that can ever be sent. */
  function Budget(cfg: Config): nat {
    TotalMatches(cfg, |cfg.skips|) + |cfg.apps|
  }

  /** Steps left in the phase the main loop is in, before it next consumes a status. */
  function PhaseSteps(cfg: Config, phase: Phase): int {
    match phase
    case Compiling(i) => (|cfg.skips| - i) * Pass(cfg) + Pass(cfg)
    case Marking(i, todo) => (|cfg.skips| - i - 1) * Pass(cfg) + Pass(cfg) + |todo| + 1
    case Launching(todo) => |todo| + 1
    case Waiting => 0
    case Returned(_) => 0
  }

  function Pass(cfg: Config): nat {
    |cfg.apps| + 2
  }

  /** An upper bound on the steps that can follow `s`. */
  function StepsLeft(cfg: Config, s: State): int {
    Sum(Budget(cfg), Pass(cfg), s.received, |s.queue|, PhaseSteps(cfg, s.phase))
  }

  /** Each status still to be consumed costs a pass, each one still to be sent a step. */
  function Sum(budget: int, pass: int, received: int, queued: int, steps: int): int {
    (budget - received) * pass + (budget - queued - received) + steps
  }

  lemma TrafficWithinBudget(cfg: Config, s: State)
    requires Inv(cfg, s)
    ensures Traffic(s) <= Budget(cfg)
  {
    if s.phase.Compiling? || s.phase.Marking? {
      assert s.inFlight == {} && s.received == 0;
    } else {
      SubsetSize(LaunchedNames(s.log), cfg.apps.Keys);
    }
  }

  lemma {:induction false} StepsLeftNonNegative(cfg: Config, s: State)
    requires s.phase.Compiling? ==> s.phase.pattern <= |cfg.skips|
    requires s.phase.Marking? ==> s.phase.pattern < |cfg.skips|
    requires Traffic(s) <= Budget(cfg)
    ensures StepsLeft(cfg, s) >= 0
  {
    NonNegativeProduct(Budget(cfg) - s.received, Pass(cfg));
    assert PhaseSteps(cfg, s.phase) >= 0 by { PhaseStepsNonNegative(cfg, s.phase); }
  }

  lemma PhaseStepsNonNegative(cfg: Config, phase: Phase)
    requires phase.Compiling? ==> phase.pattern <= |cfg.skips|
    requires phase.Marking? ==> phase.pattern < |cfg.skips|
    ensures PhaseSteps(cfg, phase) >= 0
  {}

  lemma NonNegativeProduct(a: int, b: int)
    requires a >= 0 && b >= 0
    ensures a * b >= 0
  {}

  lemma CompileSteps(cfg: Config, i: nat)
    requires i <= |cfg.skips|
    ensures PhaseSteps(cfg, Compiling(i)) > PhaseSteps(cfg, Launching(cfg.apps.Keys))
    ensures PhaseSteps(cfg, Compiling(i)) > PhaseSteps(cfg, Returned(Failed))
    ensures PhaseSteps(cfg, Compiling(i)) > PhaseSteps(cfg, Marking(i, cfg.apps.Keys))
  {}

  lemma MarkSteps(cfg: Config, i: nat, todo: set<Name>, name: Name)
    requires name in todo
    ensures PhaseSteps(cfg, Marking(i, todo)) > PhaseSteps(cfg, Marking(i, todo - {name}))
    ensures PhaseSteps(cfg, Launching(todo)) > PhaseSteps(cfg, Launching(todo - {name}))
  {}

  lemma MarkDoneSteps(cfg: Config, i: nat)
    ensures PhaseSteps(cfg, Marking(i, {})) > PhaseSteps(cfg, Compiling(i + 1))
  {}

  lemma PhaseStepsDecrease(cfg: Config, s: State, a: Action)
    requires s.phase.Compiling? ==> s.phase.pattern <= |cfg.skips|
    requires Enabled(cfg, s, a) && !a.Finish? && !a.Receive?
    ensures PhaseSteps(cfg, Apply(cfg, s, a).phase) < PhaseSteps(cfg, s.phase)
  {
    var t := Apply(cfg, s, a);
    match a
    case Compile => CompileSteps(cfg, s.phase.pattern);
    case Mark(name) =>
      assert t.phase == Marking(s.phase.pattern, s.phase.todo - {name});
      MarkSteps(cfg, s.phase.pattern, s.phase.todo, name);
    case MarkDone => MarkDoneSteps(cfg, s.phase.pattern);
    case Visit(name) =>
      assert t.phase == Launching(s.phase.todo - {name});
      MarkSteps(cfg, 0, s.phase.todo, name);
    case VisitDone =>
  }

  lemma ReceiveSteps(cfg: Config, s: State, saved: bool)
    requires Enabled(cfg, s, Receive(saved))
    ensures PhaseSteps(cfg, s.phase) == 0
    ensures PhaseSteps(cfg, ApplyReceive(cfg, s, saved).phase) < Pass(cfg)
  {}

  /** The arithmetic of one step: the phase gets shorter, or the channel gets longer, or a
      status is consumed and at most one pass of steps is added. */
  lemma SumShrinks(budget: int, k: int, received: int, received': int, queued: int, queued': int, steps: int, steps': int)
    requires
      || (received' == received && queued' >= queued && steps' < steps)
      || (received' == received && queued' > queued && steps' == steps)
      || (received' == received + 1 && queued' == queued - 1 && steps' < steps + k)
    ensures Sum(budget, k, received', queued', steps') < Sum(budget, k, received, queued, steps)
  {}

  lemma StepsLeftDecreases(cfg: Config, s: State, a: Action)
    requires s.phase.Compiling? ==> s.phase.pattern <= |cfg.skips|
    requires Enabled(cfg, s, a)
    ensures StepsLeft(cfg, Apply(cfg, s, a)) < StepsLeft(cfg, s)
  {
    var t := Apply(cfg, s, a);
    var steps, steps' := PhaseSteps(cfg, s.phase), PhaseSteps(cfg, t.phase);
    if a.Receive? {
      ReceiveSteps(cfg, s, a.saved);
      assert steps' < steps + Pass(cfg);
      assert t.received == s.received + 1 && |t.queue| == |s.queue| - 1;
    } else if a.Finish? {
      assert t.received == s.received && |t.queue| > |s.queue| && steps' == steps;
    } else {
      PhaseStepsDecrease(cfg, s, a);
      assert t.received == s.received && |t.queue| >= |s.queue|;
    }
    SumShrinks(Budget(cfg), Pass(cfg), s.received, t.received, |s.queue|, |t.queue|, steps, steps');
  }

  /** No run of any stack, failing or not, takes more than a fixed number of steps. */
  lemma {:induction false} RunsAreBounded(cfg: Config, acts: seq<Action>, s: State)
    requires Reaches(cfg, acts, s)
    ensures |acts| + StepsLeft(cfg, s) <= StepsLeft(cfg, Init())
    ensures |acts| <= StepsLeft(cfg, Init())
    decreases |acts|
  {
    ReachableInv(cfg, acts, s);
    TrafficWithinBudget(cfg, s);
    StepsLeftNonNegative(cfg, s);
    if acts != [] {
      var last := |acts| - 1;
      var p :| Leads(cfg, acts, p, s);
      RunsAreBounded(cfg, acts[..last], p);
      ReachableInv(cfg, acts[..last], p);
      StepsLeftDecreases(cfg, p, acts[last]);
    }
  }

  /* ---- Progress ---- */

  /** Every dependency names an application of the stack, and ranks grow along dependencies. */
  ghost predicate Ranks(cfg: Config, rank: map<AppId, nat>) {
    forall name, d :: name in cfg.apps && d in cfg.apps[name].dependencies ==>
      && (exists m :: m in cfg.apps && cfg.apps[m].id == d)
      && cfg.apps[name].id in rank && d in rank && rank[d] < rank[cfg.apps[name].id]
  }

  /** The dependencies stay inside the stack and have no cycle. */
  ghost predicate Acyclic(cfg: Config) {
    exists rank :: Ranks(cfg, rank)
  }

  lemma {:induction false} NothingIsLeft(cfg: Config, s: State, rank: map<AppId, nat>, name: Name)
    requires Ranks(cfg, rank) && Visited(cfg, s) && s.phase.Waiting? && name in cfg.apps
    requires forall id :: id in s.running ==> s.running[id] == Running
    ensures IsRunning(s.running, cfg.apps[name].id)
    decreases if cfg.apps[name].id in rank then rank[cfg.apps[name].id] else 0
  {
    forall d | d in cfg.apps[name].dependencies ensures IsRunning(s.running, d) {
      var m :| m in cfg.apps && cfg.apps[m].id == d;
      NothingIsLeft(cfg, s, rank, m);
    }
    assert Ready(cfg, s.running, name);
  }

  lemma NoneStaging(cfg: Config, s: State)
    requires Explained(cfg, s) && Clean(s) && s.queue == [] && s.inFlight == {}
    ensures forall id :: id in s.running ==> s.running[id] == Running
  {}

  lemma StarvedMeansAllRunning(cfg: Config, s: State)
    requires Inv(cfg, s) && Clean(s) && s.phase.Waiting? && s.queue == [] && s.inFlight == {}
    requires Acyclic(cfg)
    ensures AllRunning(cfg, s.running)
  {
    NoneStaging(cfg, s);
    var rank :| Ranks(cfg, rank);
    forall name | name in cfg.apps ensures IsRunning(s.running, cfg.apps[name].id) {
      NothingIsLeft(cfg, s, rank, name);
    }
  }

  /** While `Run` of a non-empty acyclic stack waits, something is in flight or queued. */
  lemma {:induction false} NeverStarves(cfg: Config, acts: seq<Action>, s: State)
    requires Reaches(cfg, acts, s) && FailureFree(cfg, acts)
    requires cfg.apps != map[] && Acyclic(cfg)
    ensures s.phase.Waiting? ==> s.queue != [] || s.inFlight != {}
  {
    FailureFreeClean(cfg, acts, s);
    ReachableInv(cfg, acts, s);
    if s.phase.Waiting? && s.queue == [] && s.inFlight == {} {
      StarvedMeansAllRunning(cfg, s);
      WaitingMeansUnfinished(cfg, s);
      assert false;
    }
  }

  /** Such a stack is always deployed: every run that cannot go on has returned nil, and if no
      application matches two patterns, after consuming at most one status per application. */
  lemma {:induction false} AcyclicStackDeploys(cfg: Config, acts: seq<Action>, s: State)
    requires Completes(cfg, acts, s) && TotalMatches(cfg, |cfg.skips|) <= |cfg.apps|
    requires cfg.apps != map[] && Acyclic(cfg)
    ensures s.phase == Returned(Deployed)
    ensures forall name :: name in cfg.apps ==> IsRunning(s.running, cfg.apps[name].id)
    ensures AtMostOneMatch(cfg) ==> s.received <= |cfg.apps|
  {
    MarkingBlocksIff(cfg, acts, s);
    NeverStarves(cfg, acts, s);
    if AtMostOneMatch(cfg) { ChannelSafety(cfg, acts, s); }
    ReachableInv(cfg, acts, s);
  }

  /** Where any step is possible, one without failure is. */
  lemma BenignStep(cfg: Config, s: State) returns (b: Action)
    requires !Final(cfg, s)
    ensures Enabled(cfg, s, b) && Benign(b)
  {
    var a :| Enabled(cfg, s, a);
    match a
    case Finish(name, _) => b := Finish(name, true);
    case Receive(_) => b := Receive(true);
    case _ => b := a;
  }

  /** From any point of a run without failures, some step is possible until `Run` returns. */
  lemma {:induction false} NeverStuck(cfg: Config, acts: seq<Action>, s: State)
    requires Reaches(cfg, acts, s) && FailureFree(cfg, acts) && TotalMatches(cfg, |cfg.skips|) <= |cfg.apps|
    requires cfg.apps != map[] && Acyclic(cfg)
    ensures s.phase == Returned(Deployed) || exists a :: Enabled(cfg, s, a) && Benign(a)
  {
    if Final(cfg, s) {
      AcyclicStackDeploys(cfg, acts, s);
    } else {
      var b := BenignStep(cfg, s);
    }
  }

  lemma ReachesStep(cfg: Config, acts: seq<Action>, s: State, a: Action)
    requires Reaches(cfg, acts, s) && Enabled(cfg, s, a)
    ensures Reaches(cfg, acts + [a], Apply(cfg, s, a))
  {
    assert (acts + [a])[..|acts|] == acts;
    assert Leads(cfg, acts + [a], s, Apply(cfg, s, a));
  }

  /** Every run without failures can be continued, without failures, until it cannot go on. So
      for every stack with well-formed patterns there are runs that complete. */
  lemma {:induction false} EveryRunCompletes(cfg: Config, acts: seq<Action>, s: State)
    returns (more: seq<Action>, t: State)
    requires Reaches(cfg, acts, s) && FailureFree(cfg, acts)
    ensures Completes(cfg, acts + more, t)
    decreases StepsLeft(cfg, Init()) - |acts|
  {
    if Final(cfg, s) {
      assert acts + [] == acts;
      return [], s;
    }
    var a := BenignStep(cfg, s);
    ReachesStep(cfg, acts, s, a);
    RunsAreBounded(cfg, acts + [a], Apply(cfg, s, a));
    more, t := EveryRunCompletes(cfg, acts + [a], Apply(cfg, s, a));
    assert acts + [a] + more == acts + ([a] + more);
    more := [a] + more;
  }

  /* ---- Exactly when a stack deploys ---- */

  function StackIds(cfg: Config): set<AppId> {
    set name | name in cfg.apps :: cfg.apps[name].id
  }

  /** Applications, none of them skipped, each of which depends on one of them or on
      something that is not in the stack. */
  ghost predicate WaitsForEver(cfg: Config, waiting: set<AppId>) {
    && waiting != {} && waiting <= StackIds(cfg)
    && (forall name :: name in cfg.apps && cfg.apps[name].id in waiting ==>
          !IsSkipped(cfg, name) &&
          exists d :: d in cfg.apps[name].dependencies && (d in waiting || d !in StackIds(cfg)))
  }

  /** What the least deployment leaves out waits for ever. */
  lemma {:induction false} RestWaits(cfg: Config, ids: set<AppId>)
    requires DeployClosed(cfg, ids) && !(StackIds(cfg) <= ids)
    ensures WaitsForEver(cfg, StackIds(cfg) - ids)
  {
    var waiting := StackIds(cfg) - ids;
    forall name | name in cfg.apps && cfg.apps[name].id in waiting
      ensures !IsSkipped(cfg, name)
      ensures exists d :: d in cfg.apps[name].dependencies && (d in waiting || d !in StackIds(cfg))
    {
      var d :| d in cfg.apps[name].dependencies && d !in ids;
      assert d in waiting || d !in StackIds(cfg);
    }
  }

  /** What waits for ever is left out of the least deployment. */
  lemma {:induction false} WaitersStayOut(cfg: Config, ids: set<AppId>, waiting: set<AppId>)
    requires IsLeastDeployment(cfg, ids) && WaitsForEver(cfg, waiting)
    ensures ids <= StackIds(cfg) - waiting
  {
    assert DeployClosed(cfg, StackIds(cfg) - waiting);
  }

  /** A run without failures returns nil exactly when the stack is not empty, the patterns match
      at most as often as there are applications, and no set of applications waits for ever: all
      of it can be seen from the stack and the patterns before the run. */
  lemma {:induction false} DeploysIffNobodyWaits(cfg: Config, acts: seq<Action>, s: State)
    requires Completes(cfg, acts, s)
    ensures s.phase == Returned(Deployed) <==>
      && cfg.apps != map[] && TotalMatches(cfg, |cfg.skips|) <= |cfg.apps|
      && !exists waiting :: WaitsForEver(cfg, waiting)
  {
    if TotalMatches(cfg, |cfg.skips|) > |cfg.apps| {
      MarkingBlocksIff(cfg, acts, s);
    } else {
      DeploysLeastSet(cfg, acts, s);
      ReturnsIffAllRunning(cfg, acts, s);
      LeastIsAllIff(cfg, RunningIds(s));
      assert forall name :: name in cfg.apps ==> cfg.apps[name].id in StackIds(cfg);
    }
  }

  lemma {:induction false} LeastIsAllIff(cfg: Config, ids: set<AppId>)
    requires IsLeastDeployment(cfg, ids)
    ensures StackIds(cfg) <= ids <==> !exists waiting :: WaitsForEver(cfg, waiting)
  {
    if !(StackIds(cfg) <= ids) { RestWaits(cfg, ids); }
    if waiting :| WaitsForEver(cfg, waiting) {
      WaitersStayOut(cfg, ids, waiting);
      var id :| id in waiting;
      assert id !in ids;
    }
  }

  const TWO_CYCLE := Config(map["a" := Application("a", ["b"]), "b" := Application("b", ["a"])], [])

  lemma TwoCycleWaits()
    ensures WaitsForEver(TWO_CYCLE, {"a", "b"}) && DeployClosed(TWO_CYCLE, {})
  {
    var apps := TWO_CYCLE.apps;
    assert apps["a"].id in StackIds(TWO_CYCLE) && apps["b"].id in StackIds(TWO_CYCLE);
    assert "b" in apps["a"].dependencies && "a" in apps["b"].dependencies;
  }

  /** Two applications that depend on each other, which validation accepts, are never deployed:
      a run that completes waits for ever, with nothing launched. */
  lemma {:induction false} TwoCycleHangs() returns (acts: seq<Action>, s: State)
    ensures Completes(TWO_CYCLE, acts, s) && s.phase == Waiting && s.running == map[]
  {
    acts, s := EveryRunCompletes(TWO_CYCLE, [], Init());
    assert [] + acts == acts;
    TwoCycleWaits();
    MarkingBlocksIff(TWO_CYCLE, acts, s);
    DeploysIffNobodyWaits(TWO_CYCLE, acts, s);
    RunsStayWithin(TWO_CYCLE, acts, s, {});
  }
}
