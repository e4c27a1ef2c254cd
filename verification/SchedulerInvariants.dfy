/** What every step of the scheduler keeps. Each invariant is a predicate with one
    preservation lemma; `Inv` collects them. */
module SchedulerInvariants {
  import opened Scheduler

  /** The event that made an application count as running. */
  predicate Settles(e: Event) {
    e.Skipped? || (e.Reported? && e.ok)
  }

  /** Every name in the state is an application of the stack, and the phase is in range. */
  ghost predicate Known(cfg: Config, s: State) {
    && s.inFlight <= cfg.apps.Keys
    && (forall r :: r in s.queue ==> r.name in cfg.apps)
    && (forall e :: e in s.log ==> e.name in cfg.apps)
    && match s.phase
       case Compiling(i) => i <= |cfg.skips|
       case Marking(i, todo) => i < |cfg.skips| && cfg.skips[i].Compiled? && todo <= cfg.apps.Keys
       case Launching(todo) => todo <= cfg.apps.Keys
       case _ => true
  }

  /** An application that was launched and has not been reported back successfully. */
  ghost predicate Owed(cfg: Config, s: State, id: AppId) {
    || (exists n :: n in s.inFlight && Id(cfg, n) == id)
    || (exists r :: r in s.queue && Id(cfg, r.name) == id)
    || (exists e :: e in s.log && e.Reported? && !e.ok && Id(cfg, e.name) == id)
  }

  ghost predicate Settled(cfg: Config, log: seq<Event>, id: AppId) {
    exists e :: e in log && Settles(e) && Id(cfg, e.name) == id
  }

  /** The status map covers what the channel, the goroutines and the history mention. */
  ghost predicate Tracked(cfg: Config, s: State) {
    && (forall n :: n in s.inFlight ==> Id(cfg, n) in s.running && s.running[Id(cfg, n)] == Staging)
    && (forall n, m :: n in s.inFlight && m in s.inFlight && Id(cfg, n) == Id(cfg, m) ==> n == m)
    && (forall r :: r in s.queue ==> Id(cfg, r.name) in s.running)
    && (forall r, n :: r in s.queue && n in s.inFlight ==> Id(cfg, r.name) != Id(cfg, n))
    && (forall e :: e in s.log ==> Id(cfg, e.name) in s.running)
    && (s.phase.Compiling? || s.phase.Marking? ==>
          s.inFlight == {} && s.received == 0 && forall e :: e in s.log ==> e.Skipped?)
    && (s.closed <==> s.phase == Returned(Deployed))
    && (s.closed ==> AllRunning(cfg, s.running))
  }

  /** Each entry of the status map has its reason in the channel, the goroutines or the history. */
  ghost predicate Explained(cfg: Config, s: State) {
    && (forall e :: e in s.log && Settles(e) ==> IsRunning(s.running, Id(cfg, e.name)))
    && (forall id :: id in s.running && s.running[id] == Running ==> Settled(cfg, s.log, id))
    && (forall id :: id in s.running && s.running[id] == Staging ==> Owed(cfg, s, id))
  }

  ghost predicate Statuses(cfg: Config, s: State) {
    Tracked(cfg, s) && Explained(cfg, s)
  }

  lemma StatusesMark(cfg: Config, s: State, name: Name)
    requires Known(cfg, s) && Statuses(cfg, s) && Enabled(cfg, s, Mark(name))
    ensures Known(cfg, ApplyMark(cfg, s, name)) && Statuses(cfg, ApplyMark(cfg, s, name))
  {
    var t := ApplyMark(cfg, s, name);
    if Matches(cfg, s.phase.pattern, name) {
      assert Skipped(name) in t.log;
      forall id | id in t.running && t.running[id] == Running ensures Settled(cfg, t.log, id) {
        if id != Id(cfg, name) { assert Settled(cfg, s.log, id); }
      }
      forall id | id in t.running && t.running[id] == Staging ensures Owed(cfg, t, id) {
        assert Owed(cfg, s, id);
      }
    }
  }

  lemma StatusesVisit(cfg: Config, s: State, name: Name)
    requires Known(cfg, s) && Statuses(cfg, s) && Enabled(cfg, s, Visit(name))
    ensures Known(cfg, ApplyVisit(cfg, s, name)) && Statuses(cfg, ApplyVisit(cfg, s, name))
  {
    var t := ApplyVisit(cfg, s, name);
    if Id(cfg, name) !in s.running && Ready(cfg, s.running, name) {
      forall id | id in t.running && t.running[id] == Running ensures Settled(cfg, t.log, id) {
        assert Settled(cfg, s.log, id);
      }
      forall id | id in t.running && t.running[id] == Staging ensures Owed(cfg, t, id) {
        if id == Id(cfg, name) { assert name in t.inFlight; } else { assert Owed(cfg, s, id); }
      }
    } else {
      assert t.running == s.running;
    }
  }

  lemma StatusesFinish(cfg: Config, s: State, name: Name, ok: bool)
    requires Known(cfg, s) && Statuses(cfg, s) && Enabled(cfg, s, Finish(name, ok))
    ensures Known(cfg, Apply(cfg, s, Finish(name, ok))) && Statuses(cfg, Apply(cfg, s, Finish(name, ok)))
  {
    var t := Apply(cfg, s, Finish(name, ok));
    assert Report(name, ok) in t.queue;
    forall id | id in t.running && t.running[id] == Staging ensures Owed(cfg, t, id) {
      assert Owed(cfg, s, id);
      if n :| n in s.inFlight && Id(cfg, n) == id {
        if n != name { assert n in t.inFlight; }
      } else if r :| r in s.queue && Id(cfg, r.name) == id {
        assert r in t.queue;
      }
    }
  }

  lemma TrackedReceive(cfg: Config, s: State, saved: bool)
    requires Known(cfg, s) && Tracked(cfg, s) && Enabled(cfg, s, Receive(saved))
    ensures Known(cfg, ApplyReceive(cfg, s, saved)) && Tracked(cfg, ApplyReceive(cfg, s, saved))
  {
    var t := ApplyReceive(cfg, s, saved);
    assert s.queue == [s.queue[0]] + t.queue;
    assert forall q :: q in t.queue ==> q in s.queue;
    assert s.queue[0] in s.queue;
  }

  lemma SettledReceive(cfg: Config, s: State, saved: bool, id: AppId)
    requires Explained(cfg, s) && Enabled(cfg, s, Receive(saved))
    requires IsRunning(ApplyReceive(cfg, s, saved).running, id)
    ensures Settled(cfg, ApplyReceive(cfg, s, saved).log, id)
  {}

  lemma OwedReceive(cfg: Config, s: State, saved: bool, id: AppId)
    requires Explained(cfg, s) && Enabled(cfg, s, Receive(saved))
    requires var t := ApplyReceive(cfg, s, saved); id in t.running && t.running[id] == Staging
    ensures Owed(cfg, ApplyReceive(cfg, s, saved), id)
  {}

  lemma SettlerRuns(cfg: Config, s: State, saved: bool, e: Event)
    requires Explained(cfg, s) && Enabled(cfg, s, Receive(saved))
    requires e in ApplyReceive(cfg, s, saved).log && Settles(e)
    ensures IsRunning(ApplyReceive(cfg, s, saved).running, Id(cfg, e.name))
  {
    if e in s.log { assert IsRunning(s.running, Id(cfg, e.name)); }
  }

  lemma ExplainedReceive(cfg: Config, s: State, saved: bool)
    requires Explained(cfg, s) && Enabled(cfg, s, Receive(saved))
    ensures Explained(cfg, ApplyReceive(cfg, s, saved))
  {
    var t := ApplyReceive(cfg, s, saved);
    forall e | e in t.log && Settles(e) ensures IsRunning(t.running, Id(cfg, e.name)) {
      SettlerRuns(cfg, s, saved, e);
    }
    forall id | id in t.running && t.running[id] == Running ensures Settled(cfg, t.log, id) {
      SettledReceive(cfg, s, saved, id);
    }
    forall id | id in t.running && t.running[id] == Staging ensures Owed(cfg, t, id) {
      OwedReceive(cfg, s, saved, id);
    }
  }

  /* ---- Launch safety ---- */

  predicate Claims(e: Event) {
    e.Launched? || e.Skipped?
  }

  /** The launch at position `i` is the only claim of its ID, and each of its dependencies
      was skipped or reported successful earlier. */
  ghost predicate LaunchSafe(cfg: Config, log: seq<Event>, i: nat)
    requires i < |log|
  {
    && (forall j :: 0 <= j < |log| && j != i && Claims(log[j]) ==> Id(cfg, log[j].name) != Id(cfg, log[i].name))
    && log[i].name in cfg.apps
    && (forall d :: d in cfg.apps[log[i].name].dependencies ==> Settled(cfg, log[..i], d))
  }

  ghost predicate LogSafe(cfg: Config, log: seq<Event>) {
    forall i :: 0 <= i < |log| && log[i].Launched? ==> LaunchSafe(cfg, log, i)
  }

  lemma LogSafeAppend(cfg: Config, log: seq<Event>, e: Event)
    requires LogSafe(cfg, log)
    requires Claims(e) ==> forall f :: f in log && f.Launched? ==> Id(cfg, f.name) != Id(cfg, e.name)
    requires e.Launched? ==>
      && e.name in cfg.apps
      && (forall f :: f in log && Claims(f) ==> Id(cfg, f.name) != Id(cfg, e.name))
      && (forall d :: d in cfg.apps[e.name].dependencies ==> Settled(cfg, log, d))
    ensures LogSafe(cfg, log + [e])
  {
    var log' := log + [e];
    forall i | 0 <= i < |log'| && log'[i].Launched? ensures LaunchSafe(cfg, log', i) {
      if i < |log| {
        assert LaunchSafe(cfg, log, i);
        assert log'[..i] == log[..i];
      } else {
        assert log'[..i] == log;
      }
    }
  }

  lemma LogSafeStep(cfg: Config, s: State, a: Action)
    requires Known(cfg, s) && Statuses(cfg, s) && LogSafe(cfg, s.log) && Enabled(cfg, s, a)
    ensures LogSafe(cfg, Apply(cfg, s, a).log)
  {
    var t := Apply(cfg, s, a);
    if t.log != s.log {
      match a
      case Mark(name) => LogSafeAppend(cfg, s.log, Skipped(name));
      case Visit(name) => LogSafeAppend(cfg, s.log, Launched(name));
      case Receive(_) => LogSafeAppend(cfg, s.log, Reported(s.queue[0].name, s.queue[0].ok));
    }
  }

  /* ---- Completeness of marking and of launch passes ---- */

  /** The skip patterns applied so far have marked all that they match. */
  ghost predicate Marked(cfg: Config, s: State) {
    forall name, j :: name in cfg.apps && Matches(cfg, j, name) && Applied(s.phase, j, name) ==>
      IsRunning(s.running, Id(cfg, name))
  }

  predicate Applied(phase: Phase, j: nat, name: Name) {
    match phase
    case Compiling(i) => j < i
    case Marking(i, todo) => j < i || (j == i && name !in todo)
    case Returned(Failed) => false
    case _ => true
  }

  /** What the current or last pass has visited is in the status map unless it is still waiting for a dependency. */
  ghost predicate Visited(cfg: Config, s: State) {
    forall name :: name in cfg.apps && (s.phase.Waiting? || (s.phase.Launching? && name !in s.phase.todo)) ==>
      Id(cfg, name) in s.running || !Ready(cfg, s.running, name)
  }

  /** The main loop goes on only while something is not running; until it has consumed a
      status, whatever runs has its status queued. */
  ghost predicate Unfinished(cfg: Config, s: State) {
    && (s.received > 0 && (s.phase.Launching? || s.phase.Waiting?) ==> !AllRunning(cfg, s.running))
    && (s.received == 0 ==> forall id :: IsRunning(s.running, id) ==> QueuedFor(cfg, s.queue, id))
  }

  ghost predicate QueuedFor(cfg: Config, queue: seq<Report>, id: AppId) {
    exists r :: r in queue && Id(cfg, r.name) == id
  }

  lemma MarkedStep(cfg: Config, s: State, a: Action)
    requires Known(cfg, s) && Statuses(cfg, s) && Marked(cfg, s) && Enabled(cfg, s, a)
    ensures Marked(cfg, Apply(cfg, s, a))
  {
    var t := Apply(cfg, s, a);
    forall name, j | name in cfg.apps && Matches(cfg, j, name) && Applied(t.phase, j, name)
      ensures IsRunning(t.running, Id(cfg, name))
    {
      if Applied(s.phase, j, name) {
        assert IsRunning(s.running, Id(cfg, name));
      }
    }
  }

  lemma VisitedStep(cfg: Config, s: State, a: Action)
    requires Known(cfg, s) && Visited(cfg, s) && Enabled(cfg, s, a)
    ensures Visited(cfg, Apply(cfg, s, a))
  {}

  lemma UnfinishedStep(cfg: Config, s: State, a: Action)
    requires Known(cfg, s) && Statuses(cfg, s) && Unfinished(cfg, s) && Enabled(cfg, s, a)
    ensures Unfinished(cfg, Apply(cfg, s, a))
  {
    var t := Apply(cfg, s, a);
    if t.received == 0 {
      forall id | IsRunning(t.running, id) ensures QueuedFor(cfg, t.queue, id) {
        if IsRunning(s.running, id) {
          assert QueuedFor(cfg, s.queue, id);
        } else {
          assert a.Mark? && Report(a.name, true) in t.queue;
        }
      }
    }
  }

  /* ---- Channel accounting ---- */

  function MatchedBy(cfg: Config, pattern: nat): set<Name> {
    set name | name in cfg.apps && Matches(cfg, pattern, name)
  }

  /** How many statuses the first `patterns` skip patterns send, counting an application
      once for each pattern that matches it. */
  function TotalMatches(cfg: Config, patterns: nat): nat {
    if patterns == 0 then 0 else TotalMatches(cfg, patterns - 1) + |MatchedBy(cfg, patterns - 1)|
  }

  function LaunchedNames(log: seq<Event>): set<Name> {
    set e | e in log && e.Launched? :: e.name
  }

  /** Statuses sent or still owed. */
  function Traffic(s: State): nat {
    |s.queue| + |s.inFlight| + s.received
  }

  /** Only what a pattern matches is marked, and none of that is ever launched. */
  ghost predicate SkippedStayOut(cfg: Config, s: State) {
    && (forall name :: name in LaunchedNames(s.log) ==> name in cfg.apps && !IsSkipped(cfg, name))
    && (forall e :: e in s.log && e.Skipped? ==> IsSkipped(cfg, e.name))
  }

  /** While marking, every status in the channel stands for one match. */
  ghost predicate MarksCounted(cfg: Config, s: State) {
    && (s.phase.Compiling? ==> |s.queue| == TotalMatches(cfg, s.phase.pattern))
    && (s.phase.Marking? ==>
          |s.queue| == TotalMatches(cfg, s.phase.pattern) + |MatchedBy(cfg, s.phase.pattern) - s.phase.todo|)
  }

  /** The channel's bound holds, and later statuses come from one match or one launch each. */
  ghost predicate Bounded(cfg: Config, s: State) {
    && |s.queue| <= |cfg.apps|
    && (!s.phase.Compiling? && !s.phase.Marking? ==>
          Traffic(s) <= TotalMatches(cfg, |cfg.skips|) + |LaunchedNames(s.log)|)
    && (s.phase.Launching? || s.phase.Waiting? || s.closed ==> TotalMatches(cfg, |cfg.skips|) <= |cfg.apps|)
  }

  lemma LaunchedAppend(log: seq<Event>, e: Event)
    ensures LaunchedNames(log + [e]) == if e.Launched? then LaunchedNames(log) + {e.name} else LaunchedNames(log)
  {}

  lemma SkippedStayOutStep(cfg: Config, s: State, a: Action)
    requires Known(cfg, s) && Tracked(cfg, s) && Marked(cfg, s) && SkippedStayOut(cfg, s) && Enabled(cfg, s, a)
    ensures SkippedStayOut(cfg, Apply(cfg, s, a))
  {
    var t := Apply(cfg, s, a);
    if t.log != s.log {
      LaunchedAppend(s.log, t.log[|s.log|]);
    }
  }

  lemma {:induction false} TotalMatchesMonotone(cfg: Config, i: nat, j: nat)
    requires i <= j
    ensures TotalMatches(cfg, i) <= TotalMatches(cfg, j)
  {
    if i < j { TotalMatchesMonotone(cfg, i, j - 1); }
  }

  lemma MarksCountedMark(cfg: Config, s: State, name: Name)
    requires MarksCounted(cfg, s) && Enabled(cfg, s, Mark(name)) && name in cfg.apps
    ensures MarksCounted(cfg, ApplyMark(cfg, s, name))
  {
    var i, todo := s.phase.pattern, s.phase.todo;
    var before, after := MatchedBy(cfg, i) - todo, MatchedBy(cfg, i) - (todo - {name});
    if Matches(cfg, i, name) {
      assert after == before + {name};
      assert |after| == |before| + 1;
    } else {
      assert after == before;
    }
  }

  lemma NoneVisited(cfg: Config, pattern: nat)
    ensures |MatchedBy(cfg, pattern) - cfg.apps.Keys| == 0
  {}

  lemma MarksCountedCompile(cfg: Config, s: State)
    requires MarksCounted(cfg, s) && s.phase.Compiling?
    ensures MarksCounted(cfg, ApplyCompile(cfg, s))
  {
    var i := s.phase.pattern;
    NoneVisited(cfg, i);
    var t := ApplyCompile(cfg, s);
    assert t.queue == s.queue;
    assert !t.phase.Compiling?;
    if t.phase.Marking? {
      assert t.phase.pattern == i && t.phase.todo == cfg.apps.Keys;
    }
  }

  lemma MarksCountedMarkDone(cfg: Config, s: State)
    requires MarksCounted(cfg, s) && Enabled(cfg, s, MarkDone)
    ensures MarksCounted(cfg, s.(phase := Compiling(s.phase.pattern + 1)))
  {}

  lemma {:induction false} MarksCountedStep(cfg: Config, s: State, a: Action)
    requires Known(cfg, s) && Tracked(cfg, s) && MarksCounted(cfg, s) && Enabled(cfg, s, a)
    ensures MarksCounted(cfg, Apply(cfg, s, a))
  {
    match a
    case Compile => MarksCountedCompile(cfg, s);
    case Mark(name) => MarksCountedMark(cfg, s, name);
    case MarkDone => MarksCountedMarkDone(cfg, s);
    case Finish(_, _) => assert !s.phase.Compiling? && !s.phase.Marking?;
    case _ =>
  }

  lemma BoundedCompile(cfg: Config, s: State)
    requires Bounded(cfg, s) && s.phase.Compiling? && s.phase.pattern <= |cfg.skips|
    requires |s.queue| == TotalMatches(cfg, s.phase.pattern)
    requires s.inFlight == {} && s.received == 0 && !s.closed
    ensures Bounded(cfg, ApplyCompile(cfg, s))
  {
    TotalMatchesMonotone(cfg, s.phase.pattern, |cfg.skips|);
  }

  lemma BoundedVisit(cfg: Config, s: State, name: Name)
    requires Tracked(cfg, s) && Bounded(cfg, s) && Enabled(cfg, s, Visit(name))
    ensures Bounded(cfg, ApplyVisit(cfg, s, name))
  {
    if Id(cfg, name) !in s.running && Ready(cfg, s.running, name) {
      LaunchedAppend(s.log, Launched(name));
      assert name !in s.inFlight;
      assert Launched(name) !in s.log;
      assert name !in LaunchedNames(s.log);
    }
  }

  lemma BoundedReport(cfg: Config, s: State, a: Action)
    requires Bounded(cfg, s) && Enabled(cfg, s, a)
    requires s.phase.Compiling? || s.phase.Marking? ==> s.inFlight == {}
    requires !a.Compile? && !a.Visit?
    ensures Bounded(cfg, Apply(cfg, s, a))
  {
    if a.Receive? {
      LaunchedAppend(s.log, Reported(s.queue[0].name, s.queue[0].ok));
    }
  }

  lemma {:induction false} BoundedStep(cfg: Config, s: State, a: Action)
    requires Known(cfg, s) && Tracked(cfg, s) && MarksCounted(cfg, s) && Bounded(cfg, s) && Enabled(cfg, s, a)
    ensures Bounded(cfg, Apply(cfg, s, a))
  {
    match a
    case Compile => BoundedCompile(cfg, s);
    case Visit(name) => BoundedVisit(cfg, s, name);
    case _ => BoundedReport(cfg, s, a);
  }

  /* ---- Together ---- */

  ghost predicate Inv(cfg: Config, s: State) {
    && Known(cfg, s) && Statuses(cfg, s) && LogSafe(cfg, s.log)
    && Marked(cfg, s) && Visited(cfg, s) && Unfinished(cfg, s)
    && SkippedStayOut(cfg, s) && MarksCounted(cfg, s) && Bounded(cfg, s)
  }

  lemma {:induction false} StatusesStep(cfg: Config, s: State, a: Action)
    requires Known(cfg, s) && Statuses(cfg, s) && Enabled(cfg, s, a)
    ensures Known(cfg, Apply(cfg, s, a)) && Statuses(cfg, Apply(cfg, s, a))
  {
    match a
    case Mark(name) => StatusesMark(cfg, s, name);
    case Visit(name) => StatusesVisit(cfg, s, name);
    case Finish(name, ok) => StatusesFinish(cfg, s, name, ok);
    case Receive(saved) => TrackedReceive(cfg, s, saved); ExplainedReceive(cfg, s, saved);
    case _ => StatusesControl(cfg, s, a);
  }

  lemma StatusesControl(cfg: Config, s: State, a: Action)
    requires Known(cfg, s) && Statuses(cfg, s) && Enabled(cfg, s, a)
    requires a.Compile? || a.MarkDone? || a.VisitDone?
    ensures Known(cfg, Apply(cfg, s, a)) && Statuses(cfg, Apply(cfg, s, a))
  {
    var t := Apply(cfg, s, a);
    assert t.running == s.running && t.queue == s.queue && t.inFlight == s.inFlight && t.log == s.log;
    forall id | id in t.running && t.running[id] == Staging ensures Owed(cfg, t, id) {
      assert Owed(cfg, s, id);
    }
  }

  lemma {:induction false} InvStep(cfg: Config, s: State, a: Action)
    requires Inv(cfg, s) && Enabled(cfg, s, a)
    ensures Inv(cfg, Apply(cfg, s, a))
  {
    StatusesStep(cfg, s, a);
    LogSafeStep(cfg, s, a);
    MarkedStep(cfg, s, a);
    VisitedStep(cfg, s, a);
    UnfinishedStep(cfg, s, a);
    SkippedStayOutStep(cfg, s, a);
    MarksCountedStep(cfg, s, a);
    BoundedStep(cfg, s, a);
  }

  lemma InitInv(cfg: Config)
    ensures Inv(cfg, Init())
  {}

  lemma {:induction false} ReachableInv(cfg: Config, acts: seq<Action>, s: State)
    requires Reaches(cfg, acts, s)
    ensures Inv(cfg, s)
    decreases |acts|
  {
    if acts == [] {
      InitInv(cfg);
    } else {
      var p :| Leads(cfg, acts, p, s);
      var last := |acts| - 1;
      ReachableInv(cfg, acts[..last], p);
      InvStep(cfg, p, acts[last]);
    }
  }
}
