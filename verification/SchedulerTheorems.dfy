/** Guarantees of `Stack.Run` over all runs. */
module SchedulerTheorems {
  import opened Scheduler
  import opened SchedulerInvariants
  import opened SetFacts

  /* ---- Launch safety ---- */

  ghost predicate UniqueIds(cfg: Config) {
    forall n, m :: n in cfg.apps && m in cfg.apps && cfg.apps[n].id == cfg.apps[m].id ==> n == m
  }

  /** In every run an application ID is launched at most once and never when a pattern skips
      it, and at each launch every dependency had been skipped or reported successful. */
  lemma {:induction false} LaunchSafety(cfg: Config, acts: seq<Action>, s: State)
    requires Reaches(cfg, acts, s)
    ensures forall i, j :: 0 <= i < |s.log| && 0 <= j < |s.log| && i != j && s.log[i].Launched? && Claims(s.log[j]) ==>
      Id(cfg, s.log[i].name) != Id(cfg, s.log[j].name)
    ensures forall i :: 0 <= i < |s.log| && s.log[i].Launched? ==>
      && s.log[i].name in cfg.apps && !IsSkipped(cfg, s.log[i].name)
      && forall d :: d in cfg.apps[s.log[i].name].dependencies ==> Settled(cfg, s.log[..i], d)
  {
    ReachableInv(cfg, acts, s);
    forall i, j | 0 <= i < |s.log| && 0 <= j < |s.log| && i != j && s.log[i].Launched? && Claims(s.log[j])
      ensures Id(cfg, s.log[i].name) != Id(cfg, s.log[j].name)
    {
      assert LaunchSafe(cfg, s.log, i);
    }
    forall i | 0 <= i < |s.log| && s.log[i].Launched?
      ensures s.log[i].name in cfg.apps && !IsSkipped(cfg, s.log[i].name)
      ensures forall d :: d in cfg.apps[s.log[i].name].dependencies ==> Settled(cfg, s.log[..i], d)
    {
      assert LaunchSafe(cfg, s.log, i);
      assert s.log[i] in s.log;
      assert s.log[i].name in LaunchedNames(s.log);
    }
  }

  /** With unique IDs, a nil return means that the run of every application that no pattern
      skips has itself succeeded. */
  lemma {:induction false} DeployedMeansAllSucceeded(cfg: Config, acts: seq<Action>, s: State, name: Name)
    requires Reaches(cfg, acts, s) && s.phase == Returned(Deployed)
    requires UniqueIds(cfg) && name in cfg.apps
    ensures IsSkipped(cfg, name) || Reported(name, true) in s.log
  {
    ReachableInv(cfg, acts, s);
    assert IsRunning(s.running, cfg.apps[name].id);
    assert Settled(cfg, s.log, cfg.apps[name].id);
    var e :| e in s.log && Settles(e) && Id(cfg, e.name) == cfg.apps[name].id;
    assert e.name == name;
  }

  /* ---- Channel safety ---- */

  /** When no application matches two skip patterns, at most one status per application is
      ever sent or owed. So a goroutine can always send, also after `Run` has returned with an
      error, marking never blocks, and the channel is closed only when nobody will send. */
  lemma {:induction false} ChannelSafety(cfg: Config, acts: seq<Action>, s: State)
    requires Reaches(cfg, acts, s) && AtMostOneMatch(cfg)
    ensures Traffic(s) <= |cfg.apps|
    ensures forall name, ok :: name in s.inFlight ==> Enabled(cfg, s, Finish(name, ok))
    ensures s.phase.Marking? ==> forall name :: name in s.phase.todo ==> Enabled(cfg, s, Mark(name))
    ensures s.closed ==> s.inFlight == {}
  {
    ReachableInv(cfg, acts, s);
    TrafficBound(cfg, s);
    NobodyLeftToSend(cfg, s);
    if s.phase.Marking? { MarkingNeverBlocks(cfg, s); }
  }

  lemma NobodyLeftToSend(cfg: Config, s: State)
    requires Tracked(cfg, s) && s.inFlight <= cfg.apps.Keys
    ensures s.closed ==> s.inFlight == {}
  {}

  function SkippedBy(cfg: Config, patterns: nat): set<Name> {
    set name, i | 0 <= i < patterns && name in MatchedBy(cfg, i) :: name
  }

  lemma SkippedByOneMore(cfg: Config, patterns: nat)
    requires AtMostOneMatch(cfg)
    ensures SkippedBy(cfg, patterns + 1) == SkippedBy(cfg, patterns) + MatchedBy(cfg, patterns)
    ensures SkippedBy(cfg, patterns) !! MatchedBy(cfg, patterns)
  {}

  lemma {:induction false} SkippedByCounts(cfg: Config, patterns: nat)
    requires AtMostOneMatch(cfg)
    ensures |SkippedBy(cfg, patterns)| == TotalMatches(cfg, patterns)
  {
    if patterns == 0 {
      assert SkippedBy(cfg, patterns) == {};
    } else {
      SkippedByCounts(cfg, patterns - 1);
      SkippedByOneMore(cfg, patterns - 1);
    }
  }

  lemma TrafficBound(cfg: Config, s: State)
    requires Inv(cfg, s) && AtMostOneMatch(cfg)
    ensures Traffic(s) <= |cfg.apps|
  {
    var all := |cfg.skips|;
    match s.phase
    case Compiling(i) => assert s.inFlight == {};
    case Marking(i, _) => assert s.inFlight == {};
    case _ =>
      SkippedByCounts(cfg, all);
      assert SkippedBy(cfg, all) !! LaunchedNames(s.log);
      assert |SkippedBy(cfg, all) + LaunchedNames(s.log)| == |SkippedBy(cfg, all)| + |LaunchedNames(s.log)|;
      SubsetSize(SkippedBy(cfg, all) + LaunchedNames(s.log), cfg.apps.Keys);
  }

  lemma MarkingHasRoom(cfg: Config, s: State, name: Name)
    requires Inv(cfg, s) && AtMostOneMatch(cfg)
    requires s.phase.Marking? && name in s.phase.todo && Matches(cfg, s.phase.pattern, name)
    ensures HasRoom(cfg, s)
  {
    var i := s.phase.pattern;
    SkippedByCounts(cfg, i);
    var sent := SkippedBy(cfg, i) + (MatchedBy(cfg, i) - s.phase.todo);
    assert SkippedBy(cfg, i) !! MatchedBy(cfg, i);
    assert |sent| == TotalMatches(cfg, i) + |MatchedBy(cfg, i) - s.phase.todo|;
    assert name !in sent;
    SubsetSize(sent, cfg.apps.Keys - {name});
  }

  lemma MarkingNeverBlocks(cfg: Config, s: State)
    requires Inv(cfg, s) && AtMostOneMatch(cfg) && s.phase.Marking?
    ensures forall name :: name in s.phase.todo ==> Enabled(cfg, s, Mark(name))
  {
    forall name | name in s.phase.todo ensures Enabled(cfg, s, Mark(name)) {
      if Matches(cfg, s.phase.pattern, name) { MarkingHasRoom(cfg, s, name); }
    }
  }

  lemma AtMostOneMatchFits(cfg: Config)
    requires AtMostOneMatch(cfg)
    ensures TotalMatches(cfg, |cfg.skips|) <= |cfg.apps|
  {
    SkippedByCounts(cfg, |cfg.skips|);
    SubsetSize(SkippedBy(cfg, |cfg.skips|), cfg.apps.Keys);
  }

  /* ---- How a run without failures can end ---- */

  ghost predicate Clean(s: State) {
    && (forall e :: e in s.log && e.Reported? ==> e.ok)
    && (forall r :: r in s.queue ==> r.ok)
    && !(s.phase.Returned? && s.phase.outcome.Failed?)
  }

  lemma {:induction false} FailureFreeClean(cfg: Config, acts: seq<Action>, s: State)
    requires Reaches(cfg, acts, s) && FailureFree(cfg, acts)
    ensures Clean(s)
    decreases |acts|
  {
    if acts != [] {
      var last := |acts| - 1;
      var p :| Leads(cfg, acts, p, s);
      FailureFreeClean(cfg, acts[..last], p);
      CleanStep(cfg, p, acts[last]);
    }
  }

  lemma CleanStep(cfg: Config, s: State, a: Action)
    requires Clean(s) && Enabled(cfg, s, a) && Benign(a)
    requires forall i :: 0 <= i < |cfg.skips| ==> cfg.skips[i].Compiled?
    ensures Clean(Apply(cfg, s, a))
  {
    if a.Receive? {
      assert s.queue[0] in s.queue;
      assert forall r :: r in s.queue[1..] ==> r in s.queue;
    }
  }

  /** A run that cannot go on has returned, waits with nothing under way, or is stuck
      sending to a full channel while it marks skipped applications. */
  lemma FinalStates(cfg: Config, s: State)
    requires Final(cfg, s) && s.inFlight <= cfg.apps.Keys && (s.closed <==> s.phase == Returned(Deployed))
    ensures s.phase.Waiting? || s.phase.Marking? || s.phase.Returned?
    ensures s.phase.Waiting? ==> s.queue == [] && s.inFlight == {}
  {
    assert !Enabled(cfg, s, Compile) && !Enabled(cfg, s, VisitDone) && !Enabled(cfg, s, Receive(true));
    assert s.phase.Launching? ==> forall name :: name in s.phase.todo ==> !Enabled(cfg, s, Visit(name));
    assert forall name :: name in s.inFlight ==> name in cfg.apps.Keys && !Enabled(cfg, s, Finish(name, true));
  }

  lemma FullWhileMarking(cfg: Config, s: State, name: Name)
    requires MarksCounted(cfg, s) && s.phase.Marking? && s.phase.pattern < |cfg.skips|
    requires s.phase.todo <= cfg.apps.Keys && name in s.phase.todo && !Enabled(cfg, s, Mark(name))
    ensures TotalMatches(cfg, |cfg.skips|) > |cfg.apps|
  {
    var i, todo := s.phase.pattern, s.phase.todo;
    assert name in MatchedBy(cfg, i);
    SubsetSize(MatchedBy(cfg, i) - todo, MatchedBy(cfg, i) - {name});
    TotalMatchesMonotone(cfg, i + 1, |cfg.skips|);
  }

  /** A run without failures that cannot go on. */
  ghost predicate Completes(cfg: Config, acts: seq<Action>, s: State) {
    Reaches(cfg, acts, s) && FailureFree(cfg, acts) && Final(cfg, s)
  }

  /** Nothing is under way any more, or `Run` has returned nil. */
  ghost predicate Quiet(s: State) {
    (s.phase.Waiting? && s.queue == [] && s.inFlight == {}) || s.phase == Returned(Deployed)
  }

  /** The skip patterns make `Run` block for ever before it launches anything exactly when
      they match more often than there are applications. */
  lemma {:induction false} MarkingBlocksIff(cfg: Config, acts: seq<Action>, s: State)
    requires Completes(cfg, acts, s)
    ensures s.phase.Marking? <==> TotalMatches(cfg, |cfg.skips|) > |cfg.apps|
    ensures !s.phase.Marking? ==> Quiet(s)
  {
    FailureFreeClean(cfg, acts, s);
    ReachableInv(cfg, acts, s);
    FinalStates(cfg, s);
    if s.phase.Marking? {
      assert !Enabled(cfg, s, MarkDone);
      var name :| name in s.phase.todo;
      assert !Enabled(cfg, s, Mark(name));
      FullWhileMarking(cfg, s, name);
    } else {
      assert s.phase.Waiting? || s.closed;
      assert Bounded(cfg, s);
    }
  }

  /* ---- Order independence ---- */

  lemma {:induction false} RunsStayWithin(cfg: Config, acts: seq<Action>, s: State, ids: set<AppId>)
    requires Reaches(cfg, acts, s) && DeployClosed(cfg, ids)
    ensures s.running.Keys <= ids
    decreases |acts|
  {
    if acts != [] {
      var last := |acts| - 1;
      var p :| Leads(cfg, acts, p, s);
      RunsStayWithin(cfg, acts[..last], p, ids);
      ReachableInv(cfg, acts[..last], p);
      StepStaysWithin(cfg, p, acts[last], ids);
    }
  }

  lemma StepStaysWithin(cfg: Config, s: State, a: Action, ids: set<AppId>)
    requires Known(cfg, s) && Tracked(cfg, s) && Enabled(cfg, s, a)
    requires DeployClosed(cfg, ids) && s.running.Keys <= ids
    ensures Apply(cfg, s, a).running.Keys <= ids
  {}

  /** Every run without failures that cannot go on has the same applications running,
      whatever the iteration and completion order: the least set that holds the skipped ones
      and each application whose dependencies it holds. */
  lemma {:induction false} DeploysLeastSet(cfg: Config, acts: seq<Action>, s: State)
    requires Completes(cfg, acts, s) && TotalMatches(cfg, |cfg.skips|) <= |cfg.apps|
    ensures IsLeastDeployment(cfg, RunningIds(s))
  {
    assert DeployClosed(cfg, RunningIds(s)) by {
      FailureFreeClean(cfg, acts, s);
      ReachableInv(cfg, acts, s);
      MarkingBlocksIff(cfg, acts, s);
      QuietCloses(cfg, s);
    }
    forall other: set<AppId> | DeployClosed(cfg, other) ensures RunningIds(s) <= other {
      RunsStayWithin(cfg, acts, s, other);
    }
  }

  lemma QuietCloses(cfg: Config, s: State)
    requires Inv(cfg, s) && Clean(s) && Quiet(s)
    ensures DeployClosed(cfg, RunningIds(s))
  {
    forall name | name in cfg.apps
      && (IsSkipped(cfg, name) || (forall d :: d in cfg.apps[name].dependencies ==> d in RunningIds(s)))
      ensures cfg.apps[name].id in RunningIds(s)
    {
      if s.phase.Waiting? {
        if IsSkipped(cfg, name) {
          var i :| Matches(cfg, i, name);
          assert Applied(s.phase, i, name);
        } else {
          assert Ready(cfg, s.running, name);
          assert !Owed(cfg, s, cfg.apps[name].id);
        }
      }
    }
  }

  /** Such a run returns nil exactly when the least set is the whole stack; otherwise, and for
      the empty stack, it waits for ever. */
  lemma {:induction false} ReturnsIffAllRunning(cfg: Config, acts: seq<Action>, s: State)
    requires Completes(cfg, acts, s) && TotalMatches(cfg, |cfg.skips|) <= |cfg.apps|
    ensures s.phase == Waiting || s.phase == Returned(Deployed)
    ensures s.phase == Returned(Deployed) <==>
      cfg.apps != map[] && forall name :: name in cfg.apps ==> cfg.apps[name].id in RunningIds(s)
  {
    MarkingBlocksIff(cfg, acts, s);
    ReachableInv(cfg, acts, s);
    if cfg.apps == map[] {
      EmptyStackNeverReturns(cfg, acts, s);
    } else if s.phase.Waiting? {
      WaitingMeansUnfinished(cfg, s);
    }
  }

  lemma WaitingMeansUnfinished(cfg: Config, s: State)
    requires Unfinished(cfg, s) && s.phase.Waiting? && s.queue == [] && cfg.apps != map[]
    ensures !AllRunning(cfg, s.running)
  {}

  lemma {:induction false} EmptyStackNeverReturns(cfg: Config, acts: seq<Action>, s: State)
    requires Reaches(cfg, acts, s) && cfg.apps == map[]
    ensures s.phase != Returned(Deployed)
    decreases |acts|
  {
    if acts != [] {
      var last := |acts| - 1;
      var p :| Leads(cfg, acts, p, s);
      EmptyStackNeverReturns(cfg, acts[..last], p);
      assert |p.queue| <= |cfg.apps| by { ReachableInv(cfg, acts[..last], p); }
      EmptyStackStep(cfg, p, acts[last]);
    }
  }

  lemma EmptyStackStep(cfg: Config, s: State, a: Action)
    requires |s.queue| <= |cfg.apps| && cfg.apps == map[] && s.phase != Returned(Deployed) && Enabled(cfg, s, a)
    ensures Apply(cfg, s, a).phase != Returned(Deployed)
  {}

  lemma {:induction false} OrderIndependence(cfg: Config, acts1: seq<Action>, s1: State, acts2: seq<Action>, s2: State)
    requires Completes(cfg, acts1, s1) && Completes(cfg, acts2, s2)
    requires TotalMatches(cfg, |cfg.skips|) <= |cfg.apps|
    ensures RunningIds(s1) == RunningIds(s2)
    ensures s1.phase == s2.phase
  {
    DeploysLeastSet(cfg, acts1, s1);
    DeploysLeastSet(cfg, acts2, s2);
    assert RunningIds(s1) == RunningIds(s2);
    ReturnsIffAllRunning(cfg, acts1, s1);
    ReturnsIffAllRunning(cfg, acts2, s2);
  }
}
