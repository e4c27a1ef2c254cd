/** How a run ends when something fails, and that no status is lost, repeated or overtaken. */
module SchedulerOutcomes {
  import opened Scheduler
  import opened SchedulerInvariants
  import opened SetFacts

  /* ---- Failures end the run ---- */

  /** Some application's run was reported as failed. */
  ghost predicate FailureReported(log: seq<Event>) {
    exists name :: Reported(name, false) in log
  }

  /** A malformed pattern whose turn comes before the earlier ones can fill the channel. */
  ghost predicate BadPattern(cfg: Config) {
    exists i :: 0 <= i < |cfg.skips| && cfg.skips[i].Malformed? && TotalMatches(cfg, i) <= |cfg.apps|
  }

  /** The patterns before the one in hand are well-formed; all are once marking is over. */
  ghost predicate Parsed(cfg: Config, phase: Phase) {
    forall i :: 0 <= i < |cfg.skips| && cfg.skips[i].Malformed? ==>
      match phase
      case Compiling(p) => p <= i
      case Marking(p, _) => p < i
      case Returned(Failed) => true
      case _ => false
  }

  /** The run has failed exactly for one of the three reasons. */
  ghost predicate FailsForReason(cfg: Config, acts: seq<Action>, s: State) {
    && (FailureReported(s.log) ==> s.phase == Returned(Failed))
    && (Receive(false) in acts ==> s.phase == Returned(Failed))
    && (s.phase == Returned(Failed) ==> FailureReported(s.log) || Receive(false) in acts || BadPattern(cfg))
    && Parsed(cfg, s.phase)
  }

  lemma ReasonCompile(cfg: Config, s: State)
    requires Enabled(cfg, s, Compile) && Parsed(cfg, s.phase)
    requires s.phase.pattern <= |cfg.skips| && TotalMatches(cfg, s.phase.pattern) <= |cfg.apps|
    ensures Parsed(cfg, ApplyCompile(cfg, s).phase)
    ensures ApplyCompile(cfg, s).phase == Returned(Failed) ==> BadPattern(cfg)
  {}

  lemma ReasonReceive(cfg: Config, s: State, saved: bool)
    requires Enabled(cfg, s, Receive(saved)) && Parsed(cfg, s.phase) && !FailureReported(s.log)
    ensures Parsed(cfg, ApplyReceive(cfg, s, saved).phase)
    ensures var t := ApplyReceive(cfg, s, saved);
      t.phase == Returned(Failed) <==> FailureReported(t.log) || !saved
  {
    var r, t := s.queue[0], ApplyReceive(cfg, s, saved);
    if !r.ok { assert Reported(r.name, false) in t.log; }
  }

  lemma ReasonOther(cfg: Config, s: State, a: Action)
    requires Enabled(cfg, s, a) && !a.Compile? && !a.Receive? && Parsed(cfg, s.phase)
    ensures var t := Apply(cfg, s, a);
      && Parsed(cfg, t.phase) && (FailureReported(t.log) <==> FailureReported(s.log))
      && (t.phase == Returned(Failed) <==> s.phase == Returned(Failed))
  {
    var t := Apply(cfg, s, a);
    assert forall name :: Reported(name, false) in t.log <==> Reported(name, false) in s.log;
  }

  lemma {:induction false} ReasonStep(cfg: Config, acts: seq<Action>, s: State, a: Action)
    requires FailsForReason(cfg, acts, s) && Enabled(cfg, s, a)
    requires s.phase.Compiling? ==> s.phase.pattern <= |cfg.skips| && TotalMatches(cfg, s.phase.pattern) <= |cfg.apps|
    ensures FailsForReason(cfg, acts + [a], Apply(cfg, s, a))
  {
    assert Receive(false) in acts + [a] <==> Receive(false) in acts || a == Receive(false);
    match a
    case Compile => ReasonCompile(cfg, s);
    case Receive(saved) => ReasonReceive(cfg, s, saved);
    case _ => ReasonOther(cfg, s, a);
  }

  /** Over all runs: a failed application, a state that cannot be saved and a malformed pattern
      end the run with an error at once, and nothing else does. */
  lemma {:induction false} FailedIff(cfg: Config, acts: seq<Action>, s: State)
    requires Reaches(cfg, acts, s)
    ensures FailureReported(s.log) ==> s.phase == Returned(Failed)
    ensures Receive(false) in acts ==> s.phase == Returned(Failed)
    ensures s.phase == Returned(Failed) ==> FailureReported(s.log) || Receive(false) in acts || BadPattern(cfg)
    ensures s.phase.Launching? || s.phase.Waiting? || s.phase == Returned(Deployed) ==>
      forall i :: 0 <= i < |cfg.skips| ==> cfg.skips[i].Compiled?
    ensures Parsed(cfg, s.phase)
    decreases |acts|
  {
    if acts != [] {
      var last := |acts| - 1;
      var p :| Leads(cfg, acts, p, s);
      FailedIff(cfg, acts[..last], p);
      assert p.phase.Compiling? ==>
        p.phase.pattern <= |cfg.skips| && TotalMatches(cfg, p.phase.pattern) <= |cfg.apps| by {
        ReachableInv(cfg, acts[..last], p);
      }
      assert acts == acts[..last] + [acts[last]];
      ReasonStep(cfg, acts[..last], p, acts[last]);
    }
  }

  /** Marking waits for room that nobody will make. */
  ghost predicate BlockedMark(cfg: Config, s: State)
    requires s.phase.Marking?
  {
    exists name :: name in s.phase.todo && !Enabled(cfg, s, Mark(name))
  }

  lemma BlockedMeansFull(cfg: Config, s: State)
    requires s.phase.Marking? && MarksCounted(cfg, s) && s.phase.todo <= cfg.apps.Keys && BlockedMark(cfg, s)
    ensures TotalMatches(cfg, s.phase.pattern + 1) > |cfg.apps|
  {
    var p := s.phase.pattern;
    var name :| name in s.phase.todo && !Enabled(cfg, s, Mark(name));
    assert name in MatchedBy(cfg, p);
    SubsetSize(MatchedBy(cfg, p) - s.phase.todo, MatchedBy(cfg, p) - {name});
  }

  lemma FullBeforeBad(cfg: Config, p: nat, todo: set<Name>)
    requires Parsed(cfg, Marking(p, todo)) && TotalMatches(cfg, p + 1) > |cfg.apps|
    ensures !BadPattern(cfg)
  {
    if i :| 0 <= i < |cfg.skips| && cfg.skips[i].Malformed? && TotalMatches(cfg, i) <= |cfg.apps| {
      TotalMatchesMonotone(cfg, p + 1, i);
    }
  }

  lemma {:induction false} BlockedIsNotBad(cfg: Config, acts: seq<Action>, s: State)
    requires Reaches(cfg, acts, s) && s.phase.Marking? && BlockedMark(cfg, s)
    ensures !BadPattern(cfg)
  {
    FailedIff(cfg, acts, s);
    assert MarksCounted(cfg, s) && s.phase.todo <= cfg.apps.Keys by { ReachableInv(cfg, acts, s); }
    BlockedMeansFull(cfg, s);
    FullBeforeBad(cfg, s.phase.pattern, s.phase.todo);
  }

  /** A run that is over, waits or is blocked has failed exactly for one of the three reasons. */
  lemma {:induction false} EndFailedIff(cfg: Config, acts: seq<Action>, s: State)
    requires Reaches(cfg, acts, s)
    requires s.phase.Returned? || s.phase.Waiting? || (s.phase.Marking? && BlockedMark(cfg, s))
    ensures s.phase == Returned(Failed) <==> FailureReported(s.log) || Receive(false) in acts || BadPattern(cfg)
  {
    FailedIff(cfg, acts, s);
    if s.phase.Marking? {
      BlockedIsNotBad(cfg, acts, s);
    } else if s.phase.Waiting? || s.phase.outcome.Deployed? {
      NoneMalformed(cfg, s.phase);
    }
  }

  lemma NoneMalformed(cfg: Config, phase: Phase)
    requires Parsed(cfg, phase) && (phase.Waiting? || (phase.Returned? && phase.outcome.Deployed?))
    ensures !BadPattern(cfg)
  {}

  /** Only a run that has not begun is about to compile the first pattern. */
  lemma {:induction false} StartIsInit(cfg: Config, acts: seq<Action>, s: State)
    requires Reaches(cfg, acts, s) && s.phase == Compiling(0)
    ensures s == Init()
    decreases |acts|
  {
    if acts != [] {
      var last := |acts| - 1;
      var p :| Leads(cfg, acts, p, s);
      if acts[last].Finish? { StartIsInit(cfg, acts[..last], p); }
    }
  }

  /* ---- The channel ---- */

  /** The statuses that the main loop has consumed, oldest first. */
  function Consumed(log: seq<Event>): seq<Report> {
    if log == [] then []
    else
      var e := log[|log| - 1];
      Consumed(log[..|log| - 1]) + if e.Reported? then [Report(e.name, e.ok)] else []
  }

  /** A successful status for each skipped application, once per match. */
  function SkipReports(log: seq<Event>): seq<Report> {
    if log == [] then []
    else
      var e := log[|log| - 1];
      SkipReports(log[..|log| - 1]) + if e.Skipped? then [Report(e.name, true)] else []
  }

  /** A status for each goroutine that has ended, with its result. */
  function RunReports(acts: seq<Action>): seq<Report> {
    if acts == [] then []
    else
      var a := acts[|acts| - 1];
      RunReports(acts[..|acts| - 1]) + if a.Finish? then [Report(a.name, a.ok)] else []
  }

  ghost predicate Ordered(log: seq<Event>, queue: seq<Report>, acts: seq<Action>) {
    Consumed(log) + queue == SkipReports(log) + RunReports(acts)
  }

  ghost predicate InOrder(acts: seq<Action>, s: State) {
    && Ordered(s.log, s.queue, acts)
    && (s.phase.Compiling? || s.phase.Marking? ==> RunReports(acts) == [])
  }

  lemma OneEventMore(log: seq<Event>, e: Event)
    ensures Consumed(log + [e]) == Consumed(log) + if e.Reported? then [Report(e.name, e.ok)] else []
    ensures SkipReports(log + [e]) == SkipReports(log) + if e.Skipped? then [Report(e.name, true)] else []
  {
    assert (log + [e])[..|log|] == log;
  }

  lemma OneActionMore(acts: seq<Action>, a: Action)
    ensures RunReports(acts + [a]) == RunReports(acts) + if a.Finish? then [Report(a.name, a.ok)] else []
  {
    assert (acts + [a])[..|acts|] == acts;
  }

  lemma OrderedSkip(log: seq<Event>, queue: seq<Report>, acts: seq<Action>, name: Name)
    requires Ordered(log, queue, acts) && RunReports(acts) == []
    ensures Ordered(log + [Skipped(name)], queue + [Report(name, true)], acts)
  {
    OneEventMore(log, Skipped(name));
    var r := [Report(name, true)];
    assert Consumed(log) + (queue + r) == (Consumed(log) + queue) + r;
    assert SkipReports(log) + [] == SkipReports(log);
  }

  lemma OrderedLaunch(log: seq<Event>, queue: seq<Report>, acts: seq<Action>, name: Name)
    requires Ordered(log, queue, acts)
    ensures Ordered(log + [Launched(name)], queue, acts)
  {
    OneEventMore(log, Launched(name));
    assert Consumed(log) + [] == Consumed(log) && SkipReports(log) + [] == SkipReports(log);
  }

  lemma OrderedFinish(log: seq<Event>, queue: seq<Report>, acts: seq<Action>, name: Name, ok: bool)
    requires Ordered(log, queue, acts)
    ensures Ordered(log, queue + [Report(name, ok)], acts + [Finish(name, ok)])
  {
    OneActionMore(acts, Finish(name, ok));
    var r := [Report(name, ok)];
    assert Consumed(log) + (queue + r) == (Consumed(log) + queue) + r;
    assert SkipReports(log) + (RunReports(acts) + r) == (SkipReports(log) + RunReports(acts)) + r;
  }

  lemma OrderedReceive(log: seq<Event>, queue: seq<Report>, acts: seq<Action>)
    requires Ordered(log, queue, acts) && queue != []
    ensures Ordered(log + [Reported(queue[0].name, queue[0].ok)], queue[1..], acts)
  {
    OneEventMore(log, Reported(queue[0].name, queue[0].ok));
    assert [Report(queue[0].name, queue[0].ok)] + queue[1..] == queue;
    assert Consumed(log) + [queue[0]] + queue[1..] == Consumed(log) + queue;
    assert SkipReports(log) + [] == SkipReports(log);
  }

  lemma OrderedAct(log: seq<Event>, queue: seq<Report>, acts: seq<Action>, a: Action)
    requires !a.Finish?
    ensures Ordered(log, queue, acts + [a]) <==> Ordered(log, queue, acts)
    ensures RunReports(acts + [a]) == RunReports(acts)
  {
    OneActionMore(acts, a);
    assert RunReports(acts) + [] == RunReports(acts);
  }

  lemma {:induction false} InOrderStep(cfg: Config, acts: seq<Action>, s: State, a: Action)
    requires InOrder(acts, s) && Enabled(cfg, s, a)
    requires s.phase.Compiling? || s.phase.Marking? ==> s.inFlight == {}
    ensures InOrder(acts + [a], Apply(cfg, s, a))
  {
    var t := Apply(cfg, s, a);
    match a
    case Finish(name, ok) => OrderedFinish(s.log, s.queue, acts, name, ok);
    case _ =>
      OrderedAct(t.log, t.queue, acts, a);
      QuietOrdered(cfg, acts, s, a);
  }

  lemma QuietOrdered(cfg: Config, acts: seq<Action>, s: State, a: Action)
    requires Ordered(s.log, s.queue, acts) && Enabled(cfg, s, a) && !a.Finish?
    requires s.phase.Marking? ==> RunReports(acts) == []
    ensures Ordered(Apply(cfg, s, a).log, Apply(cfg, s, a).queue, acts)
  {
    match a
    case Mark(name) => OrderedSkip(s.log, s.queue, acts, name);
    case Visit(name) => OrderedLaunch(s.log, s.queue, acts, name);
    case Receive(_) => OrderedReceive(s.log, s.queue, acts);
    case _ =>
  }

  /** In every run the statuses consumed, followed by those in the channel, are those of the
      skipped applications followed by the results of the goroutines in the order in which they
      ended: nothing is lost, repeated, overtaken or changed. */
  lemma {:induction false} StatusesInOrder(cfg: Config, acts: seq<Action>, s: State)
    requires Reaches(cfg, acts, s)
    ensures InOrder(acts, s)
    ensures Consumed(s.log) + s.queue == SkipReports(s.log) + RunReports(acts)
    decreases |acts|
  {
    if acts != [] {
      var last := |acts| - 1;
      var p :| Leads(cfg, acts, p, s);
      StatusesInOrder(cfg, acts[..last], p);
      assert p.phase.Compiling? || p.phase.Marking? ==> p.inFlight == {} by { ReachableInv(cfg, acts[..last], p); }
      assert acts == acts[..last] + [acts[last]];
      InOrderStep(cfg, acts[..last], p, acts[last]);
    }
  }
}
