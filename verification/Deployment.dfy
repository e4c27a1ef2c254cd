/** `Stack.Run` and its helpers as code over mutable state. Every method only takes steps of
    the transition system in `Scheduler`, so that whatever is proved of all runs holds of it. */
module StackDeployment {
  import opened Scheduler
  import opened SchedulerInvariants
  import opened SchedulerTheorems
  import opened SchedulerProgress
  import opened SchedulerOutcomes
  import Variables

  /** `Hangs`: the goroutine that called `Run` waits for ever. */
  datatype RunResult = Nil | Error | Hangs

  /** What Marathon answers when it is asked for its master. */
  datatype MarathonInfo = Master(url: string) | Unavailable


  /** The IDs that a launch pass over `running` puts in the map. */
  function ReadyIds(cfg: Config, running: map<AppId, Status>): set<AppId> {
    set name | name in cfg.apps && Ready(cfg, running, name) :: cfg.apps[name].id
  }

  function AfterPass(cfg: Config, running: map<AppId, Status>): map<AppId, Status> {
    map id | id in running.Keys + ReadyIds(cfg, running) :: if id in running then running[id] else Staging
  }

  /** The pattern is well-formed and matches the ID. */
  ghost predicate Skips(cfg: Config, pattern: nat, id: AppId) {
    pattern < |cfg.skips| && cfg.skips[pattern].Compiled? && id in cfg.skips[pattern].language
  }

  /** The IDs in the stack that one of the first patterns matches. */
  ghost function SkippedIds(cfg: Config, patterns: nat): set<AppId> {
    set name | name in cfg.apps && (exists i: nat :: i < patterns && Skips(cfg, i, cfg.apps[name].id))
      :: cfg.apps[name].id
  }

  ghost function MatchedIds(cfg: Config, pattern: nat, names: set<Name>): set<AppId> {
    set name | name in names && name in cfg.apps && Skips(cfg, pattern, cfg.apps[name].id) :: cfg.apps[name].id
  }

  function AsRunning(ids: set<AppId>): map<AppId, Status> {
    map id | id in ids :: Running
  }

  lemma SkippedIdsOneMore(cfg: Config, pattern: nat)
    ensures AsRunning(SkippedIds(cfg, pattern)) + AsRunning(MatchedIds(cfg, pattern, cfg.apps.Keys))
      == AsRunning(SkippedIds(cfg, pattern + 1))
  {
    assert SkippedIds(cfg, pattern + 1) == SkippedIds(cfg, pattern) + MatchedIds(cfg, pattern, cfg.apps.Keys);
  }

  /** Marking has come to `now`, with `todo` still to be looked at. */
  ghost predicate MarkedSoFar(cfg: Config, pattern: nat, start: map<AppId, Status>, todo: set<Name>,
                              now: map<AppId, Status>)
  {
    now == start + AsRunning(MatchedIds(cfg, pattern, cfg.apps.Keys - todo))
  }

  lemma MarkingBegins(cfg: Config, pattern: nat, start: map<AppId, Status>)
    ensures MarkedSoFar(cfg, pattern, start, cfg.apps.Keys, start)
  {
    assert MatchedIds(cfg, pattern, cfg.apps.Keys - cfg.apps.Keys) == {};
  }

  lemma MarkingGoesOn(cfg: Config, pattern: nat, start: map<AppId, Status>, todo: set<Name>,
                      now: map<AppId, Status>, name: Name)
    requires MarkedSoFar(cfg, pattern, start, todo, now) && name in todo && name in cfg.apps
    ensures MarkedSoFar(cfg, pattern, start, todo - {name},
      if Skips(cfg, pattern, cfg.apps[name].id) then now[cfg.apps[name].id := Running] else now)
  {
    var before, after := MatchedIds(cfg, pattern, cfg.apps.Keys - todo),
                         MatchedIds(cfg, pattern, cfg.apps.Keys - (todo - {name}));
    assert after == before + if Skips(cfg, pattern, cfg.apps[name].id) then {cfg.apps[name].id} else {};
  }

  lemma BlockedFacts(cfg: Config, acts: seq<Action>, s: State, name: Name)
    requires Reaches(cfg, acts, s) && s.phase.Marking? && name in s.phase.todo && !Enabled(cfg, s, Mark(name))
    ensures TotalMatches(cfg, |cfg.skips|) > |cfg.apps| && BlockedMark(cfg, s)
  {
    ReachableInv(cfg, acts, s);
    FullWhileMarking(cfg, s, name);
  }

  /** What consuming a status comes to. */
  lemma ReceiveMeans(cfg: Config, s: State, saved: bool)
    requires s.queue != [] && s.queue[0].name in cfg.apps
    ensures var r, t := s.queue[0], ApplyReceive(cfg, s, saved);
      && t.running == (if r.ok then s.running[cfg.apps[r.name].id := Running] else s.running)
      && (!r.ok || !saved ==> t.phase == Returned(Failed))
      && (r.ok && saved ==>
            if forall name :: name in cfg.apps ==>
              cfg.apps[name].id in t.running && t.running[cfg.apps[name].id] == Running
            then t.phase == Returned(Deployed) else t.phase == Launching(cfg.apps.Keys))
  {}

  lemma KnownNames(cfg: Config, acts: seq<Action>, s: State)
    requires Reaches(cfg, acts, s)
    ensures s.inFlight <= cfg.apps.Keys && forall r :: r in s.queue ==> r.name in cfg.apps
  {
    ReachableInv(cfg, acts, s);
  }

  class Deployment {
    const cfg: Config
    const succeeds: Name -> bool    // what an application's own run comes to
    const saves: nat -> bool        // whether the state can be saved, by the number of the status
    var running: map<AppId, Status>
    var statuses: seq<Report>       // the buffered channel
    var inFlight: set<Name>         // goroutines that have not sent yet
    var received: nat               // statuses consumed, which number the saves
    ghost var phase: Phase
    ghost var closed: bool
    ghost var log: seq<Event>
    ghost var acts: seq<Action>     // the steps taken so far

    ghost function View(): State
      reads this
    {
      State(phase, running, inFlight, statuses, closed, received, log)
    }

    ghost predicate Valid()
      reads this
    {
      Reaches(cfg, acts, View()) && forall a :: a in acts ==> AsGiven(a)
    }

    /** The results of applications and of saving are the given ones. */
    ghost predicate AsGiven(a: Action) {
      && (a.Finish? ==> a.name in cfg.apps && a.ok == succeeds(a.name))
      && (a.Receive? ==> exists n :: a.saved == saves(n))
    }

    constructor (cfg: Config, succeeds: Name -> bool, saves: nat -> bool)
      ensures Valid() && this.cfg == cfg && this.succeeds == succeeds && this.saves == saves
      ensures View() == Init() && acts == []
    {
      this.cfg, this.succeeds, this.saves := cfg, succeeds, saves;
      running, statuses, inFlight := map[], [], {};
      phase, closed, received, log, acts := Compiling(0), false, 0, [], [];
    }

    ghost method Record(before: State, a: Action)
      requires Reaches(cfg, acts, before) && Enabled(cfg, before, a) && View() == Apply(cfg, before, a)
      requires AsGiven(a) && forall b :: b in acts ==> AsGiven(b)
      modifies this`acts
      ensures Valid() && acts == old(acts) + [a]
    {
      ReachesStep(cfg, acts, before, a);
      acts := acts + [a];
    }

    method IsDependencySatisfied(app: Application) returns (r: bool)
      ensures r <==> forall d :: d in app.dependencies ==> IsRunning(running, d)
    {
      for i := 0 to |app.dependencies|
        invariant forall j :: 0 <= j < i ==> IsRunning(running, app.dependencies[j])
      {
        var d := app.dependencies[i];
        if d !in running || running[d] != Running {
          assert d in app.dependencies && !IsRunning(running, d);
          return false;
        }
      }
      return true;
    }

    method AllApplicationsRunning() returns (r: bool)
      ensures r <==> AllRunning(cfg, running)
    {
      var todo := cfg.apps.Keys;
      while todo != {}
        invariant todo <= cfg.apps.Keys
        invariant forall name :: name in cfg.apps && name !in todo ==> IsRunning(running, cfg.apps[name].id)
      {
        var name :| name in todo;
        todo := todo - {name};
        var id := cfg.apps[name].id;
        if id !in running || running[id] != Running {
          return false;
        }
      }
      return true;
    }

    /** The body of the launch loop for one application. */
    method VisitApplication(name: Name)
      requires Valid() && phase.Launching? && name in phase.todo && name in cfg.apps
      modifies this`running, this`inFlight, this`phase, this`log, this`acts
      ensures Valid() && acts == old(acts) + [Visit(name)]
      ensures phase == Launching(old(phase.todo) - {name})
      ensures running ==
        if cfg.apps[name].id !in old(running) && Ready(cfg, old(running), name)
        then old(running)[cfg.apps[name].id := Staging] else old(running)
      ensures inFlight == old(inFlight) +
        if cfg.apps[name].id !in old(running) && Ready(cfg, old(running), name) then {name} else {}
    {
      ghost var before := View();
      var app := cfg.apps[name];
      phase := Launching(phase.todo - {name});
      if app.id !in running {
        var satisfied := IsDependencySatisfied(app);
        if satisfied {
          running := running[app.id := Staging];
          inFlight := inFlight + {name};
          log := log + [Launched(name)];
        }
      }
      Record(before, Visit(name));
    }

    /** Lets one goroutine end its application's run and send its status. */
    method FinishOne() returns (sent: Report)
      requires Valid() && inFlight != {} && |statuses| < |cfg.apps| && !closed
      modifies this`inFlight, this`statuses, this`acts
      ensures Valid() && acts == old(acts) + [Finish(sent.name, sent.ok)]
      ensures sent.ok == succeeds(sent.name) && sent.name in old(inFlight) && inFlight == old(inFlight) - {sent.name}
      ensures statuses == old(statuses) + [sent]
    {
      ghost var before := View();
      var name :| name in inFlight;
      KnownNames(cfg, acts, before);
      var ok := succeeds(name);
      inFlight := inFlight - {name};
      sent := Report(name, ok);
      statuses := statuses + [sent];
      Record(before, Finish(name, ok));
    }

    /** Lets any number of goroutines end. */
    method FinishSome()
      requires Valid() && !closed
      modifies this`inFlight, this`statuses, this`acts
      ensures Valid() && |old(acts)| <= |acts|
      ensures inFlight <= old(inFlight) && old(statuses) <= statuses
    {
      while inFlight != {} && |statuses| < |cfg.apps|
        invariant Valid() && |old(acts)| <= |acts|
        invariant inFlight <= old(inFlight) && old(statuses) <= statuses
        decreases inFlight
      {
        var enough: bool := *;
        if enough { return; }
        var _ := FinishOne();
      }
    }

    /** Consumes the oldest status and saves the state; `over` says that `Run` returns `r`. */
    method ReceiveOne() returns (over: bool, r: RunResult)
      requires Valid() && phase.Waiting? && statuses != []
      modifies this
      ensures Valid() && acts == old(acts) + [Receive(saves(old(received)))]
      ensures View() == ApplyReceive(cfg, old(View()), saves(old(received)))
      ensures statuses == old(statuses)[1..] && received == old(received) + 1 && inFlight == old(inFlight)
      ensures log == old(log) + [Reported(old(statuses)[0].name, old(statuses)[0].ok)]
      ensures old(statuses)[0].name in cfg.apps
      ensures running == if old(statuses)[0].ok
                         then old(running)[cfg.apps[old(statuses)[0].name].id := Running] else old(running)
      ensures !old(statuses)[0].ok || !saves(old(received)) ==> over && r.Error? && phase == Returned(Failed)
      ensures old(statuses)[0].ok && saves(old(received)) ==>
        && (over <==> forall name :: name in cfg.apps ==>
              cfg.apps[name].id in running && running[cfg.apps[name].id] == Running)
        && (if over then r.Nil? && phase == Returned(Deployed) else phase == Launching(cfg.apps.Keys))
    {
      ghost var before := View();
      KnownNames(cfg, acts, before);
      ReceiveMeans(cfg, before, saves(received));
      over, r := TakeStatus();
    }

    /** The body of the loop over the channel. */
    method TakeStatus() returns (over: bool, r: RunResult)
      requires Valid() && phase.Waiting? && statuses != []
      modifies this
      ensures Valid() && acts == old(acts) + [Receive(saves(old(received)))]
      ensures View() == ApplyReceive(cfg, old(View()), saves(old(received)))
      ensures over ==> (r.Nil? && phase == Returned(Deployed)) || (r.Error? && phase == Returned(Failed))
      ensures !over ==> phase == Launching(cfg.apps.Keys)
    {
      ghost var before := View();
      var report := statuses[0];
      var saved := saves(received);
      statuses := statuses[1..];
      received := received + 1;
      log := log + [Reported(report.name, report.ok)];
      over, r := true, Error;
      if !report.ok {
        phase := Returned(Failed);
      } else {
        running := running[Id(cfg, report.name) := Running];
        var all := AllApplicationsRunning();
        if !saved {
          phase := Returned(Failed);
        } else if all {
          phase, closed := Returned(Deployed), true;
          r := Nil;
        } else {
          phase := Launching(cfg.apps.Keys);
          over := false;
        }
      }
      Record(before, Receive(saved));
    }

    /** One pass over the stack's map, in any order, while goroutines end. Which IDs it adds does
        not depend on the order, even when several applications share an ID. */
    method RunApplications()
      requires Valid() && phase == Launching(cfg.apps.Keys) && !closed
      modifies this`running, this`inFlight, this`statuses, this`phase, this`log, this`acts
      ensures Valid() && phase == Waiting && |old(acts)| < |acts|
      ensures running == AfterPass(cfg, old(running))
      ensures inFlight <= old(inFlight) + cfg.apps.Keys && old(statuses) <= statuses
    {
      var todo := cfg.apps.Keys;
      while todo != {}
        invariant Valid() && phase == Launching(todo) && todo <= cfg.apps.Keys && |old(acts)| <= |acts|
        invariant PartWay(cfg, old(running), todo, running)
        invariant inFlight <= old(inFlight) + cfg.apps.Keys && old(statuses) <= statuses
      {
        var name :| name in todo;
        PartWayStep(cfg, old(running), todo, running, name);
        VisitApplication(name);
        FinishSome();
        todo := todo - {name};
      }
      ghost var before := View();
      phase := Waiting;
      Record(before, VisitDone);
      PartWayEnd(cfg, old(running), running);
    }

    /** Applies one compiled skip pattern. `false`: blocked for ever on the full channel. */
    method MarkMatching(pattern: nat) returns (done: bool)
      requires Valid() && phase == Marking(pattern, cfg.apps.Keys)
      modifies this`running, this`statuses, this`phase, this`log, this`acts
      ensures Valid() && |old(acts)| <= |acts|
      ensures done ==> phase == Compiling(pattern + 1) && |old(acts)| < |acts|
      ensures done ==> running == old(running) + AsRunning(MatchedIds(cfg, pattern, cfg.apps.Keys))
      ensures !done ==> phase.Marking? && TotalMatches(cfg, |cfg.skips|) > |cfg.apps| && BlockedMark(cfg, View())
    {
      var todo := cfg.apps.Keys;
      MarkingBegins(cfg, pattern, running);
      while todo != {}
        invariant Valid() && phase == Marking(pattern, todo) && todo <= cfg.apps.Keys && |old(acts)| <= |acts|
        invariant MarkedSoFar(cfg, pattern, old(running), todo, running)
      {
        ghost var before := View();
        var name :| name in todo;
        var matches := Matches(cfg, pattern, name);
        if matches && |statuses| >= |cfg.apps| {
          BlockedFacts(cfg, acts, before, name);
          return false;
        }
        MarkingGoesOn(cfg, pattern, old(running), todo, running, name);
        todo := todo - {name};
        phase := Marking(pattern, todo);
        if matches {
          running := running[cfg.apps[name].id := Running];
          statuses := statuses + [Report(name, true)];
          log := log + [Skipped(name)];
        }
        Record(before, Mark(name));
      }
      assert cfg.apps.Keys - todo == cfg.apps.Keys;
      ghost var before := View();
      phase := Compiling(pattern + 1);
      Record(before, MarkDone);
      return true;
    }

    /** `Nil`: all patterns were applied. `Error`: one is not a regular expression. */
    method MarkSkippedApps() returns (r: RunResult)
      requires Valid() && phase == Compiling(0)
      modifies this`running, this`statuses, this`phase, this`log, this`acts
      ensures Valid()
      ensures r.Nil? ==> phase == Launching(cfg.apps.Keys)
      ensures r.Nil? ==> running == AsRunning(SkippedIds(cfg, |cfg.skips|))
      ensures r.Error? ==> phase == Returned(Failed)
      ensures r.Hangs? ==> phase.Marking? && TotalMatches(cfg, |cfg.skips|) > |cfg.apps| && BlockedMark(cfg, View())
    {
      StartIsInit(cfg, acts, View());
      for i := 0 to |cfg.skips|
        invariant Valid() && phase == Compiling(i)
        invariant running == AsRunning(SkippedIds(cfg, i))
      {
        ghost var before := View();
        if cfg.skips[i].Malformed? {
          phase := Returned(Failed);
          Record(before, Compile);
          return Error;
        }
        phase := Marking(i, cfg.apps.Keys);
        Record(before, Compile);
        SkippedIdsOneMore(cfg, i);
        var done := MarkMatching(i);
        if !done {
          return Hangs;
        }
      }
      ghost var before := View();
      phase := Launching(cfg.apps.Keys);
      Record(before, Compile);
      return Nil;
    }

    /** Waits for a status while goroutines end. `false`: none will ever come. */
    method Await() returns (there: bool)
      requires Valid() && phase == Waiting && !closed
      modifies this`inFlight, this`statuses, this`acts
      ensures Valid() && |old(acts)| <= |acts| && old(statuses) <= statuses
      ensures if there then statuses != [] else statuses == [] && inFlight == {}
    {
      FinishSome();
      if statuses == [] {
        if inFlight == {} {
          return false;
        }
        OpenFacts(cfg, acts, View());
        var _ := FinishOne();
      }
      return true;
    }

    /** Validates the applications one by one, in any order. */
    method Validate(validates: Name -> bool) returns (ok: bool)
      ensures ok <==> forall name :: name in cfg.apps ==> validates(name)
    {
      var todo := cfg.apps.Keys;
      while todo != {}
        invariant todo <= cfg.apps.Keys
        invariant forall name :: name in cfg.apps && name !in todo ==> validates(name)
      {
        var name :| name in todo;
        todo := todo - {name};
        if !validates(name) {
          return false;
        }
      }
      return true;
    }

    /** `Run`: without a valid stack and an answer from Marathon it returns an error and touches
        nothing; otherwise it sets three stack variables and deploys. */
    method Run(validates: Name -> bool, info: MarathonInfo, zone: string, stack: string,
               variables: Variables.VariablesObject) returns (r: RunResult)
      requires Valid() && phase == Compiling(0)
      modifies this, variables
      ensures Valid()
      ensures !(info.Master? && forall name :: name in cfg.apps ==> validates(name)) ==>
        && r.Error? && View() == old(View())
        && variables.stackVariables == old(variables.stackVariables)
        && variables.arbitraryVariables == old(variables.arbitraryVariables)
        && variables.globalVariables == old(variables.globalVariables)
      ensures info.Master? && (forall name :: name in cfg.apps ==> validates(name)) ==>
        && Ended(cfg, acts, View(), r) && (AllGood() ==> (r.Nil? <==> CanDeploy(cfg)))
        && variables.stackVariables == old(variables.stackVariables) +
             map["mesos.master" := info.url, "zone" := zone, "stack" := stack]
        && variables.arbitraryVariables == old(variables.arbitraryVariables)
        && variables.globalVariables == old(variables.globalVariables)
    {
      var ok := Validate(validates);
      if !ok || info.Unavailable? {
        return Error;
      }
      SetRunVariables(info.url, zone, stack, variables);
      r := Deploy();
    }

    method SetRunVariables(master: string, zone: string, stack: string, variables: Variables.VariablesObject)
      modifies variables
      ensures variables.stackVariables == old(variables.stackVariables) +
        map["mesos.master" := master, "zone" := zone, "stack" := stack]
      ensures variables.arbitraryVariables == old(variables.arbitraryVariables)
      ensures variables.globalVariables == old(variables.globalVariables)
    {
      variables.SetStackVariable("mesos.master", master);
      variables.SetStackVariable("zone", zone);
      variables.SetStackVariable("stack", stack);
    }

    /** The whole of `Run` after that. It ends for every stack: with nil or an error, or in a
        state from which it would wait for ever. */
    method Deploy() returns (r: RunResult)
      requires Valid() && phase == Compiling(0)
      modifies this
      ensures Valid() && Ended(cfg, acts, View(), r) && (AllGood() ==> (r.Nil? <==> CanDeploy(cfg)))
    {
      OpenFacts(cfg, acts, View());
      r := MarkSkippedApps();
      if r.Nil? {
        RunApplications();
        r := ConsumeStatuses();
      } else {
        EndFailedIff(cfg, acts, View());
        if r.Error? { OutcomeFacts(cfg, acts, View()); }
      }
      GoodRunDeploys(r);
    }

    lemma GoodRunDeploys(r: RunResult)
      requires Valid() && Ended(cfg, acts, View(), r)
      ensures AllGood() ==> (r.Nil? <==> CanDeploy(cfg))
    {
      if AllGood() {
        forall i | 0 <= i < |acts| ensures Benign(acts[i]) { assert acts[i] in acts && AsGiven(acts[i]); }
        NilIffNobodyWaits(cfg, acts, View(), r);
      }
    }

    /** Nothing is wrong with any pattern, application or save. */
    ghost predicate AllGood() {
      && (forall i :: 0 <= i < |cfg.skips| ==> cfg.skips[i].Compiled?)
      && (forall name :: name in cfg.apps ==> succeeds(name)) && (forall n :: saves(n))
    }

    /** The `range` over the channel. */
    method ConsumeStatuses() returns (r: RunResult)
      requires Valid() && phase == Waiting && !closed
      modifies this
      ensures Valid() && Ended(cfg, acts, View(), r)
    {
      RunsAreBounded(cfg, acts, View());
      while true
        invariant Valid() && phase == Waiting && !closed
        invariant |acts| <= StepsLeft(cfg, Init())
        decreases StepsLeft(cfg, Init()) - |acts|
      {
        var there := Await();
        if !there {
          OutcomeFacts(cfg, acts, View());
          return Hangs;
        }
        var over, outcome := ReceiveOne();
        if over {
          OutcomeFacts(cfg, acts, View());
          return outcome;
        }
        OpenFacts(cfg, acts, View());
        RunApplications();
        RunsAreBounded(cfg, acts, View());
      }
    }
  }

  /** How a run that began has ended. */
  ghost predicate Ended(cfg: Config, acts: seq<Action>, s: State, r: RunResult) {
    && (r.Nil? <==> s.phase == Returned(Deployed))
    && (r.Error? <==> s.phase == Returned(Failed))
    && (r.Hangs? ==> Final(cfg, s) || (s.phase.Marking? && TotalMatches(cfg, |cfg.skips|) > |cfg.apps|))
    && (r.Error? <==> FailureReported(s.log) || Receive(false) in acts || BadPattern(cfg))
    && (FailureFree(cfg, acts) && !s.phase.Marking? ==> IsLeastDeployment(cfg, RunningIds(s)))
  }

  lemma OpenFacts(cfg: Config, acts: seq<Action>, s: State)
    requires Reaches(cfg, acts, s)
    ensures s.closed <==> s.phase == Returned(Deployed)
    ensures s.inFlight != {} ==> |cfg.apps| > 0
  {
    ReachableInv(cfg, acts, s);
    if s.inFlight != {} {
      var name :| name in s.inFlight;
      assert name in cfg.apps.Keys;
    }
  }

  lemma OutcomeFacts(cfg: Config, acts: seq<Action>, s: State)
    requires Reaches(cfg, acts, s)
    requires s.phase.Returned? || (s.phase.Waiting? && s.queue == [] && s.inFlight == {})
    ensures s.phase == Returned(Failed) <==> FailureReported(s.log) || Receive(false) in acts || BadPattern(cfg)
    ensures s.phase.Waiting? || s.phase == Returned(Deployed) ==> Final(cfg, s)
    ensures FailureFree(cfg, acts) ==> IsLeastDeployment(cfg, RunningIds(s))
  {
    EndFailedIff(cfg, acts, s);
    ReachableInv(cfg, acts, s);
    NobodyLeftToSend(cfg, s);
    if FailureFree(cfg, acts) {
      FailureFreeClean(cfg, acts, s);
      DeploysLeastSet(cfg, acts, s);
    }
  }

  ghost predicate CanDeploy(cfg: Config) {
    && cfg.apps != map[] && TotalMatches(cfg, |cfg.skips|) <= |cfg.apps|
    && !exists waiting :: WaitsForEver(cfg, waiting)
  }

  /** Without failures the code returns nil exactly when the stack is not empty, the patterns
      match at most as often as there are applications, and nobody waits for ever. */
  lemma {:induction false} NilIffNobodyWaits(cfg: Config, acts: seq<Action>, s: State, r: RunResult)
    requires Reaches(cfg, acts, s) && FailureFree(cfg, acts) && Ended(cfg, acts, s, r)
    ensures r.Nil? <==> CanDeploy(cfg)
  {
    FailureFreeClean(cfg, acts, s);
    if r.Nil? { OutcomeFacts(cfg, acts, s); }
    if Final(cfg, s) { DeploysIffNobodyWaits(cfg, acts, s); }
  }

  /** A launch pass over `start` that has still to visit `todo` has come to `now`. */
  ghost predicate PartWay(cfg: Config, start: map<AppId, Status>, todo: set<Name>, now: map<AppId, Status>) {
    && (forall id :: id in start ==> id in now && now[id] == start[id])
    && (forall id :: id in now && id !in start ==> now[id] == Staging && id in ReadyIds(cfg, start))
    && (forall name :: name in cfg.apps && name !in todo && Ready(cfg, start, name) ==> cfg.apps[name].id in now)
  }

  lemma PartWayStep(cfg: Config, start: map<AppId, Status>, todo: set<Name>, now: map<AppId, Status>, name: Name)
    requires PartWay(cfg, start, todo, now) && name in todo && name in cfg.apps
    ensures PartWay(cfg, start, todo - {name},
      if cfg.apps[name].id !in now && Ready(cfg, now, name) then now[cfg.apps[name].id := Staging] else now)
  {}

  lemma PartWayEnd(cfg: Config, start: map<AppId, Status>, now: map<AppId, Status>)
    requires PartWay(cfg, start, {}, now)
    ensures now == AfterPass(cfg, start)
  {}
}
