/** The protocol of `Stack.Run`: a main loop that launches applications once their
    dependencies are running, goroutines that report back over a buffered channel, and
    skip patterns that mark applications as running before anything is launched.

    The protocol is a transition system. One `Action` is one indivisible step of the main
    loop or of a goroutine; map iteration order, completion order, application failures
    and storage failures are all choices of the action sequence. */
module Scheduler {

  type Name = string    // key of an application in the stack's map
  type AppId = string   // the application's ID, which need not be unique

  datatype Application = Application(id: AppId, dependencies: seq<AppId>)

  /** A skip expression: not a regular expression, or one with the IDs that it matches. */
  datatype SkipPattern = Malformed | Compiled(language: iset<AppId>)

  datatype Status = Staging | Running

  datatype Config = Config(apps: map<Name, Application>, skips: seq<SkipPattern>)

  /** What travels over the `statuses` channel. */
  datatype Report = Report(name: Name, ok: bool)

  datatype Outcome = Deployed | Failed

  /** Where the main loop is. `todo` holds the applications that the current `range`
      over the stack's map has not produced yet. */
  datatype Phase =
    | Compiling(pattern: nat)
    | Marking(pattern: nat, todo: set<Name>)
    | Launching(todo: set<Name>)
    | Waiting
    | Returned(outcome: Outcome)

  datatype Event = Skipped(name: Name) | Launched(name: Name) | Reported(name: Name, ok: bool)

  datatype State = State(
    phase: Phase,
    running: map<AppId, Status>,
    inFlight: set<Name>,      // goroutines that still owe a status
    queue: seq<Report>,       // buffered statuses, oldest first
    closed: bool,
    received: nat,            // statuses the main loop has consumed
    log: seq<Event>)          // history, read by no step

  datatype Action =
    | Compile
    | Mark(name: Name)
    | MarkDone
    | Visit(name: Name)
    | VisitDone
    | Finish(name: Name, ok: bool)
    | Receive(saved: bool)

  /* ---- The code's own tests ---- */

  function Id(cfg: Config, name: Name): AppId {
    if name in cfg.apps then cfg.apps[name].id else ""
  }

  predicate Matches(cfg: Config, pattern: nat, name: Name) {
    && pattern < |cfg.skips|
    && cfg.skips[pattern].Compiled?
    && Id(cfg, name) in cfg.skips[pattern].language
  }

  predicate IsRunning(running: map<AppId, Status>, id: AppId) {
    id in running && running[id] == Running
  }

  predicate DependenciesRunning(app: Application, running: map<AppId, Status>) {
    forall d :: d in app.dependencies ==> IsRunning(running, d)
  }

  predicate Ready(cfg: Config, running: map<AppId, Status>, name: Name) {
    name in cfg.apps && DependenciesRunning(cfg.apps[name], running)
  }

  predicate AllRunning(cfg: Config, running: map<AppId, Status>) {
    forall name :: name in cfg.apps ==> IsRunning(running, cfg.apps[name].id)
  }

  /** A send does not block. */
  predicate HasRoom(cfg: Config, s: State) {
    |s.queue| < |cfg.apps|
  }

  /* ---- Steps ---- */

  function Init(): State {
    State(Compiling(0), map[], {}, [], false, 0, [])
  }

  predicate Enabled(cfg: Config, s: State, a: Action) {
    match a
    case Compile => s.phase.Compiling?
    case Mark(name) =>
      && s.phase.Marking? && name in s.phase.todo
      && (Matches(cfg, s.phase.pattern, name) ==> HasRoom(cfg, s))
    case MarkDone => s.phase.Marking? && s.phase.todo == {}
    case Visit(name) => s.phase.Launching? && name in s.phase.todo
    case VisitDone => s.phase.Launching? && s.phase.todo == {}
    case Finish(name, _) => name in s.inFlight && HasRoom(cfg, s) && !s.closed
    case Receive(_) => s.phase.Waiting? && s.queue != []
  }

  function Apply(cfg: Config, s: State, a: Action): State
    requires Enabled(cfg, s, a)
  {
    match a
    case Compile => ApplyCompile(cfg, s)
    case Mark(name) => ApplyMark(cfg, s, name)
    case MarkDone => s.(phase := Compiling(s.phase.pattern + 1))
    case Visit(name) => ApplyVisit(cfg, s, name)
    case VisitDone => s.(phase := Waiting)
    case Finish(name, ok) => s.(inFlight := s.inFlight - {name}, queue := s.queue + [Report(name, ok)])
    case Receive(saved) => ApplyReceive(cfg, s, saved)
  }

  function ApplyCompile(cfg: Config, s: State): State
    requires s.phase.Compiling?
  {
    var i := s.phase.pattern;
    if i >= |cfg.skips| then s.(phase := Launching(cfg.apps.Keys))
    else if cfg.skips[i].Malformed? then s.(phase := Returned(Failed))
    else s.(phase := Marking(i, cfg.apps.Keys))
  }

  function ApplyMark(cfg: Config, s: State, name: Name): State
    requires s.phase.Marking?
  {
    var t := s.(phase := s.phase.(todo := s.phase.todo - {name}));
    if !Matches(cfg, s.phase.pattern, name) then t
    else
      t.(running := s.running[Id(cfg, name) := Running],
         queue := s.queue + [Report(name, true)],
         log := s.log + [Skipped(name)])
  }

  function ApplyVisit(cfg: Config, s: State, name: Name): State
    requires s.phase.Launching?
  {
    var t := s.(phase := Launching(s.phase.todo - {name}));
    if Id(cfg, name) in s.running || !Ready(cfg, s.running, name) then t
    else
      t.(running := s.running[Id(cfg, name) := Staging],
         inFlight := s.inFlight + {name},
         log := s.log + [Launched(name)])
  }

  function ApplyReceive(cfg: Config, s: State, saved: bool): State
    requires s.queue != []
  {
    var r := s.queue[0];
    var t := s.(queue := s.queue[1..], received := s.received + 1, log := s.log + [Reported(r.name, r.ok)]);
    if !r.ok then t.(phase := Returned(Failed))
    else
      var u := t.(running := s.running[Id(cfg, r.name) := Running]);
      if !saved then u.(phase := Returned(Failed))
      else if AllRunning(cfg, u.running) then u.(phase := Returned(Deployed), closed := true)
      else u.(phase := Launching(cfg.apps.Keys))
  }

  /* ---- Runs ---- */

  /** `acts` can be taken one after the other from the initial state and leads to `s`. */
  ghost predicate Reaches(cfg: Config, acts: seq<Action>, s: State)
    decreases |acts|
  {
    if acts == [] then s == Init()
    else exists p :: Leads(cfg, acts, p, s)
  }

  ghost predicate Leads(cfg: Config, acts: seq<Action>, p: State, s: State)
    requires acts != []
    decreases |acts|, 0
  {
    var last := |acts| - 1;
    Reaches(cfg, acts[..last], p) && Enabled(cfg, p, acts[last]) && s == Apply(cfg, p, acts[last])
  }

  /** No step is possible: `Run` has returned and every goroutine is done, or it is blocked for ever. */
  ghost predicate Final(cfg: Config, s: State) {
    forall a :: !Enabled(cfg, s, a)
  }

  predicate Benign(a: Action) {
    (a.Finish? ==> a.ok) && (a.Receive? ==> a.saved)
  }

  /** Every application run, every state save and every skip expression is fine. */
  predicate FailureFree(cfg: Config, acts: seq<Action>) {
    && (forall i :: 0 <= i < |cfg.skips| ==> cfg.skips[i].Compiled?)
    && (forall i :: 0 <= i < |acts| ==> Benign(acts[i]))
  }

  /** No application is matched by two of the skip patterns. */
  ghost predicate AtMostOneMatch(cfg: Config) {
    forall name, i, j :: name in cfg.apps && Matches(cfg, i, name) && Matches(cfg, j, name) ==> i == j
  }

  ghost predicate IsSkipped(cfg: Config, name: Name) {
    name in cfg.apps && exists i :: Matches(cfg, i, name)
  }

  function RunningIds(s: State): set<AppId> {
    set id | id in s.running && s.running[id] == Running
  }

  /** `ids` holds every skipped application and every application all of whose dependencies it holds. */
  ghost predicate DeployClosed(cfg: Config, ids: set<AppId>) {
    forall name :: name in cfg.apps ==>
      (IsSkipped(cfg, name) || (forall d :: d in cfg.apps[name].dependencies ==> d in ids)) ==>
      cfg.apps[name].id in ids
  }

  ghost predicate IsLeastDeployment(cfg: Config, ids: set<AppId>) {
    && DeployClosed(cfg, ids)
    && (forall other: set<AppId> :: DeployClosed(cfg, other) ==> ids <= other)
  }
}
