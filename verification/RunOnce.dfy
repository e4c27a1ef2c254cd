/** Task IDs of run-once tasks: `application|hostname|uuid`. */
module TaskIds {
  datatype Parsed = Panics | Found(text: string)

  function TaskId(application: string, hostname: string, uuid: string): string {
    application + "|" + hostname + "|" + uuid
  }

  /** The text before the first pipe. */
  function UpToPipe(s: string): Parsed {
    if s == "" then Panics
    else if s[0] == '|' then Found("")
    else match UpToPipe(s[1..])
      case Panics => Panics
      case Found(text) => Found([s[0]] + text)
  }

  function ApplicationOf(taskId: string): Parsed {
    UpToPipe(taskId)
  }

  function HostnameOf(taskId: string): Parsed {
    match UpToPipe(taskId)
    case Panics => Panics
    case Found(text) => if |text| < |taskId| then UpToPipe(taskId[|text| + 1..]) else Panics
  }

  lemma {:induction false} UpToPipeFinds(a: string, rest: string)
    requires '|' !in a
    ensures UpToPipe(a + "|" + rest) == Found(a)
  {
    var s := a + "|" + rest;
    if a != "" {
      UpToPipeFinds(a[1..], rest);
      assert s[1..] == a[1..] + "|" + rest;
    }
  }

  lemma {:induction false} UpToPipeIsPipeFree(s: string)
    ensures UpToPipe(s).Found? ==> '|' !in UpToPipe(s).text && |UpToPipe(s).text| < |s|
  {
    if s != "" && s[0] != '|' { UpToPipeIsPipeFree(s[1..]); }
  }

  lemma {:induction false} UpToPipeIff(s: string, text: string)
    ensures UpToPipe(s) == Found(text) <==> '|' !in text && text + "|" <= s
    ensures UpToPipe(s).Panics? <==> '|' !in s
  {
    if s != "" {
      if s[0] == '|' {
        assert text + "|" <= s ==> (text != "" ==> text[0] == s[0]);
      } else if text == "" {
        assert text + "|" == "|";
        UpToPipeIff(s[1..], text);
      } else {
        UpToPipeIff(s[1..], text[1..]);
        assert text == [text[0]] + text[1..] && text + "|" == [text[0]] + (text[1..] + "|");
        assert s == [s[0]] + s[1..];
        UpToPipeIff(s[1..], text);
      }
    }
  }

  /** Exactly what a task ID parses to: the application up to the first pipe, the host between the
      first and the second. Without them the code panics. */
  lemma {:induction false} ParseIff(id: string, application: string, hostname: string)
    ensures ApplicationOf(id) == Found(application) <==> '|' !in application && application + "|" <= id
    ensures ApplicationOf(id).Panics? <==> '|' !in id
    ensures ApplicationOf(id) == Found(application) ==>
      (HostnameOf(id) == Found(hostname) <==> '|' !in hostname && hostname + "|" <= id[|application| + 1..])
    ensures ApplicationOf(id) == Found(application) ==> (HostnameOf(id).Panics? <==> '|' !in id[|application| + 1..])
    ensures ApplicationOf(id).Panics? ==> HostnameOf(id).Panics?
  {
    UpToPipeIff(id, application);
    UpToPipeIsPipeFree(id);
    if ApplicationOf(id) == Found(application) { UpToPipeIff(id[|application| + 1..], hostname); }
  }

  /** Tasks with different UUIDs have different IDs. */
  lemma {:induction false} UuidsTellApart(application: string, hostname: string, one: string, other: string)
    ensures TaskId(application, hostname, one) == TaskId(application, hostname, other) ==> one == other
  {
    var n := |application| + |hostname| + 2;
    assert TaskId(application, hostname, one)[n..] == one;
    assert TaskId(application, hostname, other)[n..] == other;
  }

  /** A printed task ID parses back to its application and host exactly when neither has a pipe. */
  lemma {:induction false} RoundTrip(application: string, hostname: string, uuid: string)
    ensures ApplicationOf(TaskId(application, hostname, uuid)) == Found(application) <==> '|' !in application
    ensures '|' !in application ==>
      (HostnameOf(TaskId(application, hostname, uuid)) == Found(hostname) <==> '|' !in hostname)
  {
    var id := TaskId(application, hostname, uuid);
    UpToPipeIsPipeFree(id);
    if '|' !in application {
      assert id == application + "|" + (hostname + "|" + uuid);
      UpToPipeFinds(application, hostname + "|" + uuid);
      var rest := id[|application| + 1..];
      assert rest == hostname + "|" + uuid;
      UpToPipeIsPipeFree(rest);
      if '|' !in hostname { UpToPipeFinds(hostname, uuid); }
    }
  }
}

/** One run-once application: how many instances are still to be placed, which tasks were
    launched and what was reported. */
module RunOnceContexts {
  import opened Constraints
  import opened TaskIds

  datatype TaskState = Staging | Starting | Running | Finished | Killed | Failed | Lost | Error

  datatype Application = Application(id: string, cpu: real, mem: real, rules: Rules)

  datatype Task = Task(state: TaskState, attributes: map<string, string>, taskId: string)

  datatype Verdict = Succeeded | FailedOn(hostname: string)

  /** `wanted` is the number of instances at staging; `sent` is what went to the status channel. */
  datatype Context = Context(app: Application, wanted: nat, left: int, tasks: seq<Task>, sent: seq<Verdict>)

  function NewContext(app: Application, instances: nat): Context {
    Context(app, instances, instances, [], [])
  }

  predicate Done(state: TaskState) {
    state.Finished? || state.Killed?
  }

  predicate Broken(state: TaskState) {
    state.Lost? || state.Failed? || state.Error?
  }

  function Value(attributes: map<string, string>, name: string): string {
    if name in attributes then attributes[name] else ""
  }

  /** The values that a new task is compared with: tasks in TASK_STARTING do not count. */
  function OtherValues(tasks: seq<Task>, name: string): seq<string> {
    if tasks == [] then []
    else
      var last := tasks[|tasks| - 1];
      var rest := OtherValues(tasks[..|tasks| - 1], name);
      if !last.state.Starting? && Value(last.attributes, name) != ""
      then rest + [Value(last.attributes, name)] else rest
  }

  predicate MeetsRule(tasks: seq<Task>, values: map<string, string>, name: string, c: Constraint) {
    name in values && Matches(c, values[name], OtherValues(tasks, name))
  }

  predicate MeetsRules(app: Application, tasks: seq<Task>, values: map<string, string>) {
    forall name, rule :: name in app.rules && rule in app.rules[name] ==> MeetsRule(tasks, values, name, rule)
  }

  predicate Accepts(c: Context, offer: Offer) {
    && c.left != 0
    && MeetsRules(c.app, c.tasks, OfferValues(offer.hostname, offer.attributes))
    && c.app.cpu <= offer.cpus
    && c.app.mem <= offer.mem
  }

  function NewTask(app: Application, offer: Offer, uuid: string): Task {
    Task(Staging, OfferValues(offer.hostname, offer.attributes), TaskId(app.id, offer.hostname, uuid))
  }

  function Launch(c: Context, offer: Offer, uuid: string): Context {
    c.(left := c.left - 1, tasks := c.tasks + [NewTask(c.app, offer, uuid)])
  }

  /** The first task with the ID gets the state; an unknown ID changes nothing. */
  function SetState(tasks: seq<Task>, taskId: string, state: TaskState): (r: seq<Task>)
    ensures |r| == |tasks|
    ensures forall i :: 0 <= i < |tasks| ==>
      r[i] == tasks[i] || (tasks[i].taskId == taskId && r[i] == tasks[i].(state := state))
  {
    if tasks == [] then []
    else if tasks[0].taskId == taskId then [tasks[0].(state := state)] + tasks[1..]
    else [tasks[0]] + SetState(tasks[1..], taskId, state)
  }

  lemma {:induction false} SetStateHitsFirst(tasks: seq<Task>, taskId: string, state: TaskState, i: nat)
    requires i <= |tasks| && forall j :: 0 <= j < i ==> tasks[j].taskId != taskId
    ensures i == |tasks| ==> SetState(tasks, taskId, state) == tasks
    ensures i < |tasks| && tasks[i].taskId == taskId ==>
      SetState(tasks, taskId, state) == tasks[i := tasks[i].(state := state)]
  {
    if i > 0 {
      SetStateHitsFirst(tasks[1..], taskId, state, i - 1);
      assert SetState(tasks, taskId, state) == [tasks[0]] + SetState(tasks[1..], taskId, state);
      assert tasks == [tasks[0]] + tasks[1..];
    }
  }

  predicate AllDone(c: Context) {
    c.left == 0 && forall i :: 0 <= i < |c.tasks| ==> Done(c.tasks[i].state)
  }

  /** The context after a status update from a host; `Reports` says that it sent its verdict. */
  function Update(c: Context, taskId: string, hostname: string, state: TaskState): Context {
    var d := c.(tasks := SetState(c.tasks, taskId, state));
    if Broken(state) then d.(sent := c.sent + [FailedOn(hostname)])
    else if Done(state) && AllDone(d) then d.(sent := c.sent + [Succeeded])
    else d
  }

  predicate Reports(c: Context, taskId: string, state: TaskState) {
    Broken(state) || (Done(state) && AllDone(c.(tasks := SetState(c.tasks, taskId, state))))
  }

  /* ---- Invariants of one context ---- */

  /** Instances to place plus launched tasks are the instances asked for, a verdict is sent at
      most once, and success is sent only when all instances are done. */
  ghost predicate Conserved(c: Context) {
    && c.wanted > 0
    && c.left >= 0
    && c.left + |c.tasks| == c.wanted
    && |c.sent| <= 1
    && (Succeeded in c.sent ==> |c.tasks| == c.wanted && forall i :: 0 <= i < |c.tasks| ==> Done(c.tasks[i].state))
    && (forall i :: 0 <= i < |c.tasks| ==> exists host, uuid :: c.tasks[i].taskId == TaskId(c.app.id, host, uuid))
  }

  /** A context that is still registered: it has not reported and has no reason to. */
  ghost predicate Live(c: Context) {
    && c.sent == []
    && !AllDone(c)
    && (forall i :: 0 <= i < |c.tasks| ==> !Broken(c.tasks[i].state))
  }

  lemma {:induction false} LaunchKeeps(c: Context, offer: Offer, uuid: string)
    requires Conserved(c) && Live(c) && Accepts(c, offer)
    ensures Conserved(Launch(c, offer, uuid)) && Live(Launch(c, offer, uuid))
  {
    var d := Launch(c, offer, uuid);
    assert d.tasks[|c.tasks|] == NewTask(c.app, offer, uuid);
    assert !Done(d.tasks[|c.tasks|].state);
  }

  lemma {:induction false} UpdateKeeps(c: Context, taskId: string, hostname: string, state: TaskState)
    requires Conserved(c) && Live(c)
    ensures Conserved(Update(c, taskId, hostname, state))
    ensures !Reports(c, taskId, state) ==> Live(Update(c, taskId, hostname, state))
    ensures Reports(c, taskId, state) <==> Update(c, taskId, hostname, state).sent != []
    ensures FailedOn(hostname) in Update(c, taskId, hostname, state).sent <==> Broken(state)
    ensures Succeeded in Update(c, taskId, hostname, state).sent <==>
      !Broken(state) && AllDone(Update(c, taskId, hostname, state))
  {
    var d := Update(c, taskId, hostname, state);
    forall i | 0 <= i < |d.tasks| ensures exists host, id :: d.tasks[i].taskId == TaskId(c.app.id, host, id) {
      assert d.tasks[i].taskId == c.tasks[i].taskId;
    }
    if !Reports(c, taskId, state) && AllDone(d) {
      NotDoneYet(c, taskId, state);
    }
  }

  /** Exactly when an update sends which verdict, by the states themselves. */
  lemma {:induction false} VerdictsIff(c: Context, taskId: string, hostname: string, state: TaskState)
    requires Live(c)
    ensures var d := Update(c, taskId, hostname, state);
      && (d.sent == [FailedOn(hostname)] <==> state in {Lost, Failed, Error})
      && (d.sent == [Succeeded] <==>
            && state in {Finished, Killed} && c.left == 0
            && forall i :: 0 <= i < |d.tasks| ==> d.tasks[i].state in {Finished, Killed})
      && (d.sent == [] || d.sent == [FailedOn(hostname)] || d.sent == [Succeeded])
      && (Reports(c, taskId, state) <==> d.sent != [])
      && d.left == c.left && d.tasks == SetState(c.tasks, taskId, state)
  {
    var d := Update(c, taskId, hostname, state);
    assert c.sent + [FailedOn(hostname)] == [FailedOn(hostname)] && c.sent + [Succeeded] == [Succeeded];
    assert forall i :: 0 <= i < |d.tasks| ==> (Done(d.tasks[i].state) <==> d.tasks[i].state in {Finished, Killed});
  }

  /** An offer is accepted exactly when an instance is left, all rules are met, and it has the
      processors and the memory that the application asks for. */
  lemma AcceptsIff(c: Context, offer: Offer)
    ensures Accepts(c, offer) <==>
      && c.left != 0 && c.app.cpu <= offer.cpus && c.app.mem <= offer.mem
      && forall name, rule :: name in c.app.rules && rule in c.app.rules[name] ==>
           MeetsRule(c.tasks, OfferValues(offer.hostname, offer.attributes), name, rule)
  {}

  /** A failure is true of the context, in that one of its tasks is lost or failed, exactly when
      the update is for one of its own tasks. */
  lemma {:induction false} FailureIsTrueIff(c: Context, taskId: string, hostname: string, state: TaskState)
    requires Live(c) && Broken(state)
    ensures FailedOn(hostname) in Update(c, taskId, hostname, state).sent
    ensures (exists i :: 0 <= i < |c.tasks| && Broken(Update(c, taskId, hostname, state).tasks[i].state)) <==>
      exists i :: 0 <= i < |c.tasks| && c.tasks[i].taskId == taskId
  {
    if i :| 0 <= i < |c.tasks| && c.tasks[i].taskId == taskId {
      var first := FirstWith(c.tasks, taskId, i);
      SetStateHitsFirst(c.tasks, taskId, state, first);
      assert Broken(Update(c, taskId, hostname, state).tasks[first].state);
    } else {
      SetStateHitsFirst(c.tasks, taskId, state, |c.tasks|);
    }
  }

  lemma {:induction false} FirstWith(tasks: seq<Task>, taskId: string, i: nat) returns (first: nat)
    requires i < |tasks| && tasks[i].taskId == taskId
    ensures first < |tasks| && tasks[first].taskId == taskId
    ensures forall j :: 0 <= j < first ==> tasks[j].taskId != taskId
  {
    if j: nat :| j < i && tasks[j].taskId == taskId { first := FirstWith(tasks, taskId, j); } else { first := i; }
  }

  /** Only an update to FINISHED or KILLED can complete a context. */
  lemma NotDoneYet(c: Context, taskId: string, state: TaskState)
    requires !AllDone(c) && !Done(state)
    ensures !AllDone(c.(tasks := SetState(c.tasks, taskId, state)))
  {}
}

/** What the placement rules guarantee for the tasks of a context over its whole life. */
module RunOncePlacement {
  import opened Constraints
  import TaskIds
  import opened RunOnceContexts

  /** The value of one attribute in every task, in launch order. */
  function Column(tasks: seq<Task>, name: string): seq<string> {
    seq(|tasks|, i requires 0 <= i < |tasks| => Value(tasks[i].attributes, name))
  }

  ghost predicate NoneStarting(tasks: seq<Task>) {
    forall i :: 0 <= i < |tasks| ==> !tasks[i].state.Starting?
  }

  ghost predicate AllValued(tasks: seq<Task>, name: string) {
    forall i :: 0 <= i < |tasks| ==> Value(tasks[i].attributes, name) != ""
  }

  /** Every rule accepted every task, given the tasks launched before it. */
  ghost predicate Placed(c: Context) {
    && NoneStarting(c.tasks)
    && (forall name, rule :: name in c.app.rules && rule in c.app.rules[name] ==> Kept(c.tasks, name, rule))
  }

  ghost predicate Kept(tasks: seq<Task>, name: string, rule: Constraint) {
    AllValued(tasks, name) && Built(rule, Column(tasks, name))
  }

  lemma {:induction false} OtherValuesAreAll(tasks: seq<Task>, name: string)
    requires NoneStarting(tasks) && AllValued(tasks, name)
    ensures OtherValues(tasks, name) == Column(tasks, name)
  {
    if tasks != [] {
      OtherValuesAreAll(tasks[..|tasks| - 1], name);
    }
  }

  lemma LaunchPlaces(c: Context, offer: Offer, uuid: string)
    requires Placed(c) && Accepts(c, offer) && offer.hostname != ""
    ensures Placed(Launch(c, offer, uuid))
  {
    var d := Launch(c, offer, uuid);
    var values := OfferValues(offer.hostname, offer.attributes);
    forall name, rule | name in c.app.rules && rule in c.app.rules[name] ensures Kept(d.tasks, name, rule) {
      assert Kept(c.tasks, name, rule);
      OtherValuesAreAll(c.tasks, name);
      assert MeetsRule(c.tasks, values, name, rule);
      var column := Column(d.tasks, name);
      assert column == Column(c.tasks, name) + [values[name]];
      assert column[..|c.tasks|] == Column(c.tasks, name);
    }
  }

  lemma UpdatePlaces(c: Context, taskId: string, hostname: string, state: TaskState)
    requires Placed(c) && !state.Starting?
    ensures Placed(Update(c, taskId, hostname, state))
  {
    var d := Update(c, taskId, hostname, state);
    assert forall i :: 0 <= i < |c.tasks| ==> d.tasks[i].attributes == c.tasks[i].attributes;
    forall name, rule | name in c.app.rules && rule in c.app.rules[name] ensures Kept(d.tasks, name, rule) {
      assert Kept(c.tasks, name, rule);
      assert Column(d.tasks, name) == Column(c.tasks, name);
    }
  }

  /** What `Placed` means for each kind of rule. */
  lemma {:induction false} PlacementGuarantees(c: Context, name: string, rule: Constraint)
    requires Placed(c) && name in c.app.rules && rule in c.app.rules[name]
    ensures AllValued(c.tasks, name)
    ensures match rule
      case Like(language) => forall v :: v in Column(c.tasks, name) ==> v in language
      case Unlike(language) => forall v :: v in Column(c.tasks, name) ==> v !in language
      case Unique => PairwiseDistinct(Column(c.tasks, name))
      case Cluster(wanted) =>
        forall v :: v in Column(c.tasks, name) ==> v == if wanted != "" then wanted else Column(c.tasks, name)[0]
      case GroupBy(groups) =>
        Balanced(Column(c.tasks, name), GroupCount(groups)) <==> |c.tasks| <= GroupCount(groups) * MAX_INT32
  {
    assert Kept(c.tasks, name, rule);
    var column := Column(c.tasks, name);
    match rule
    case Like(language) => LikeMeansAll(language, column);
    case Unlike(language) => LikeMeansAll(language, column);
    case Unique => UniqueMeansDistinct(column);
    case Cluster(wanted) => ClusterMeansSame(wanted, column);
    case GroupBy(groups) => GroupByBalance(groups, column);
  }

  /* ---- Exactly when a placement rule is broken ---- */

  /** What the rule promises for the values of the tasks, in launch order; GROUP_BY promises a
      balance until each of its groups has 2^31-1 members. */
  ghost predicate Promised(rule: Constraint, column: seq<string>) {
    match rule
    case Like(language) => forall i :: 0 <= i < |column| ==> column[i] in language
    case Unlike(language) => forall i :: 0 <= i < |column| ==> column[i] !in language
    case Unique => PairwiseDistinct(column)
    case Cluster(wanted) => forall i :: 0 <= i < |column| ==> column[i] == if wanted != "" then wanted else column[0]
    case GroupBy(groups) => PrefixesBalanced(column, groups)
  }

  /** The task is left out of the comparison. */
  predicate Overlooked(task: Task, name: string) {
    task.state.Starting? || Value(task.attributes, name) == ""
  }

  /** The guard of the launches that break a rule, which can be checked before the launch. */
  ghost predicate Slips(tasks: seq<Task>, v: string, name: string, rule: Constraint) {
    match rule
    case Like(_) => false
    case Unlike(_) => false
    case Unique => exists i :: 0 <= i < |tasks| && Value(tasks[i].attributes, name) == v && Overlooked(tasks[i], name)
    case Cluster(wanted) =>
      wanted == "" && tasks != [] && Value(tasks[0].attributes, name) != v && Overlooked(tasks[0], name)
    case GroupBy(groups) =>
      && |tasks| < GroupCount(groups) * MAX_INT32 && !GroupByAccepts(groups, v, Column(tasks, name))
      && exists i :: 0 <= i < |tasks| && Overlooked(tasks[i], name)
  }

  lemma {:induction false} OtherValuesHold(tasks: seq<Task>, name: string, v: string)
    ensures v in OtherValues(tasks, name) <==>
      exists i :: 0 <= i < |tasks| && Value(tasks[i].attributes, name) == v && !Overlooked(tasks[i], name)
  {
    if tasks != [] {
      var last := |tasks| - 1;
      OtherValuesHold(tasks[..last], name, v);
      assert forall i :: 0 <= i < last ==> tasks[..last][i] == tasks[i];
    }
  }

  lemma {:induction false} FirstOfOthers(tasks: seq<Task>, name: string)
    requires tasks != [] && !Overlooked(tasks[0], name)
    ensures OtherValues(tasks, name) != [] && OtherValues(tasks, name)[0] == Value(tasks[0].attributes, name)
  {
    if |tasks| == 1 { assert tasks[..0] == []; } else { FirstOfOthers(tasks[..|tasks| - 1], name); }
  }

  /** The rule lets the value in next to the tasks it looks at, but would not next to all of
      them, exactly when the launch slips. */
  lemma {:induction false} SlipsIff(tasks: seq<Task>, v: string, name: string, rule: Constraint)
    requires Matches(rule, v, OtherValues(tasks, name))
    requires rule.GroupBy? ==> |tasks| < GroupCount(rule.groups) * MAX_INT32
    ensures Slips(tasks, v, name, rule) <==> !Matches(rule, v, Column(tasks, name))
  {
    match rule
    case Unique => OtherValuesHold(tasks, name, v); UniqueSlips(tasks, v, name);
    case Cluster(_) => if tasks != [] && !Overlooked(tasks[0], name) { FirstOfOthers(tasks, name); }
    case GroupBy(_) =>
      if forall i :: 0 <= i < |tasks| ==> !Overlooked(tasks[i], name) { OtherValuesAreAll(tasks, name); }
    case _ =>
  }

  lemma UniqueSlips(tasks: seq<Task>, v: string, name: string)
    requires !exists i :: 0 <= i < |tasks| && Value(tasks[i].attributes, name) == v && !Overlooked(tasks[i], name)
    ensures Slips(tasks, v, name, Unique) <==> v in Column(tasks, name)
  {
    var column := Column(tasks, name);
    if v in column {
      var i :| 0 <= i < |column| && column[i] == v;
      assert Value(tasks[i].attributes, name) == v;
    }
    if i :| 0 <= i < |tasks| && Value(tasks[i].attributes, name) == v && Overlooked(tasks[i], name) {
      assert column[i] == v;
    }
  }

  /** What happens to one context. */
  datatype Move = Launched(offer: Offer, uuid: string) | Changed(taskId: string, hostname: string, state: TaskState)

  function AfterMove(c: Context, m: Move): Context {
    match m
    case Launched(offer, uuid) => Launch(c, offer, uuid)
    case Changed(taskId, hostname, state) => Update(c, taskId, hostname, state)
  }

  /** Tasks are launched only on offers that the context accepts at that moment. */
  predicate CanMove(c: Context, m: Move) {
    m.Launched? ==> Accepts(c, m.offer)
  }

  function ContextAfter(app: Application, wanted: nat, moves: seq<Move>): Context {
    if moves == [] then NewContext(app, wanted)
    else AfterMove(ContextAfter(app, wanted, moves[..|moves| - 1]), moves[|moves| - 1])
  }

  predicate Legal(app: Application, wanted: nat, moves: seq<Move>) {
    moves != [] ==>
      var before := moves[..|moves| - 1];
      Legal(app, wanted, before) && CanMove(ContextAfter(app, wanted, before), moves[|moves| - 1])
  }

  /** The move is a launch that slips past the rule. */
  ghost predicate SlipBy(c: Context, m: Move, name: string, rule: Constraint) {
    m.Launched? && Slips(c.tasks, Value(OfferValues(m.offer.hostname, m.offer.attributes), name), name, rule)
  }

  /** No launch slipped past the rule. */
  ghost predicate NoSlip(app: Application, wanted: nat, moves: seq<Move>, name: string, rule: Constraint) {
    moves != [] ==>
      var before := moves[..|moves| - 1];
      && NoSlip(app, wanted, before, name, rule)
      && !SlipBy(ContextAfter(app, wanted, before), moves[|moves| - 1], name, rule)
  }

  /** The part of the column that the rule's promise covers. */
  function Covered(rule: Constraint, column: seq<string>): seq<string> {
    if rule.GroupBy? && |column| > GroupCount(rule.groups) * MAX_INT32
    then column[..GroupCount(rule.groups) * MAX_INT32] else column
  }

  lemma {:induction false} PromisedMeansBuilt(rule: Constraint, column: seq<string>)
    ensures Promised(rule, column) <==> Built(rule, Covered(rule, column))
  {
    match rule
    case Like(language) => LikeMeansAll(language, column);
    case Unlike(language) => LikeMeansAll(language, column);
    case Unique => UniqueMeansDistinct(column);
    case Cluster(wanted) => ClusterMeansSame(wanted, column);
    case GroupBy(groups) =>
      var covered := Covered(rule, column);
      assert forall n :: 0 <= n <= |covered| ==> covered[..n] == column[..n];
      GroupByMeansBalanced(groups, covered);
  }

  lemma LaunchColumn(c: Context, offer: Offer, uuid: string, name: string)
    ensures Column(Launch(c, offer, uuid).tasks, name) ==
      Column(c.tasks, name) + [Value(OfferValues(offer.hostname, offer.attributes), name)]
  {}

  lemma UpdateColumn(c: Context, taskId: string, hostname: string, state: TaskState, name: string)
    ensures Column(Update(c, taskId, hostname, state).tasks, name) == Column(c.tasks, name)
  {}

  lemma {:induction false} MoveBuilds(c: Context, m: Move, name: string, rule: Constraint)
    requires CanMove(c, m) && name in c.app.rules && rule in c.app.rules[name]
    ensures Built(rule, Covered(rule, Column(AfterMove(c, m).tasks, name))) <==>
      Built(rule, Covered(rule, Column(c.tasks, name))) && !SlipBy(c, m, name, rule)
  {
    match m
    case Changed(taskId, hostname, state) => UpdateColumn(c, taskId, hostname, state, name);
    case Launched(offer, uuid) =>
      var values := OfferValues(offer.hostname, offer.attributes);
      var before, after := Column(c.tasks, name), Column(AfterMove(c, m).tasks, name);
      assert MeetsRule(c.tasks, values, name, rule);
      LaunchColumn(c, offer, uuid, name);
      assert after[..|before|] == before;
      if rule.GroupBy? && |before| >= GroupCount(rule.groups) * MAX_INT32 {
        assert Covered(rule, after) == Covered(rule, before);
      } else {
        SlipsIff(c.tasks, values[name], name, rule);
      }
  }

  lemma {:induction false} AfterKeepsApp(app: Application, wanted: nat, moves: seq<Move>)
    ensures ContextAfter(app, wanted, moves).app == app && ContextAfter(app, wanted, moves).wanted == wanted
  {
    if moves != [] { AfterKeepsApp(app, wanted, moves[..|moves| - 1]); }
  }

  lemma {:induction false} BuiltIff(app: Application, wanted: nat, moves: seq<Move>, name: string, rule: Constraint)
    requires Legal(app, wanted, moves) && name in app.rules && rule in app.rules[name]
    ensures Built(rule, Covered(rule, Column(ContextAfter(app, wanted, moves).tasks, name))) <==>
      NoSlip(app, wanted, moves, name, rule)
  {
    if moves != [] {
      var before, m := moves[..|moves| - 1], moves[|moves| - 1];
      BuiltIff(app, wanted, before, name, rule);
      AfterKeepsApp(app, wanted, before);
      MoveBuilds(ContextAfter(app, wanted, before), m, name, rule);
    }
  }

  /** Over the whole life of a context a rule's promise holds exactly when no launch slipped. */
  lemma {:induction false} PlacementIff(app: Application, wanted: nat, moves: seq<Move>, name: string, rule: Constraint)
    requires Legal(app, wanted, moves) && name in app.rules && rule in app.rules[name]
    ensures Promised(rule, Column(ContextAfter(app, wanted, moves).tasks, name)) <==>
      NoSlip(app, wanted, moves, name, rule)
  {
    BuiltIff(app, wanted, moves, name, rule);
    PromisedMeansBuilt(rule, Column(ContextAfter(app, wanted, moves).tasks, name));
  }

  lemma OnlyTask(task: Task, name: string)
    ensures OtherValues([task], name) == if Overlooked(task, name) then [] else [Value(task.attributes, name)]
  {
    assert [task][..0] == [];
  }

  /** Host names must not be empty: otherwise `hostname UNIQUE` takes the same host twice. */
  lemma EmptyHostnamesDefeatUnique() returns (c: Context, offer: Offer)
    ensures c.app.rules == map["hostname" := [Unique]] && c.tasks == [] && offer.hostname == ""
    ensures Accepts(c, offer) && Accepts(Launch(c, offer, "uuid"), offer)
  {
    c := NewContext(Application("a", 0.0, 0.0, map["hostname" := [Unique]]), 2);
    offer := Offer("", [], 1.0, 1.0);
    var d := Launch(c, offer, "uuid");
    assert d.tasks == [NewTask(c.app, offer, "uuid")];
    OnlyTask(d.tasks[0], "hostname");
  }

  /** A task in TASK_STARTING is overlooked: its host can be taken again. */
  lemma StartingDefeatsUnique() returns (c: Context, offer: Offer)
    ensures c.app.rules == map["hostname" := [Unique]] && c.tasks == [] && offer.hostname == "h"
    ensures Accepts(c, offer) && !Accepts(Launch(c, offer, "uuid"), offer)
    ensures Accepts(Update(Launch(c, offer, "uuid"), TaskIds.TaskId(c.app.id, "h", "uuid"), "h", Starting), offer)
  {
    c := NewContext(Application("a", 0.0, 0.0, map["hostname" := [Unique]]), 2);
    offer := Offer("h", [], 1.0, 1.0);
    var task := NewTask(c.app, offer, "uuid");
    OnlyTask(task, "hostname");
    OnlyTask(task.(state := Starting), "hostname");
    var d := Launch(c, offer, "uuid");
    assert d.tasks == [task];
    assert !MeetsRule(d.tasks, OfferValues("h", []), "hostname", Unique) && Unique in d.app.rules["hostname"];
    assert Update(d, task.taskId, "h", Starting).tasks == [task.(state := Starting)];
  }
}

/** The runner: contexts registered under application IDs, driven by staging, resource
    offers and status updates. */
module RunOnceRunners {
  import opened Constraints
  import opened TaskIds
  import opened RunOnceContexts
  import opened RunOncePlacement

  /** `retired` holds contexts that have reported or were replaced by staging the ID again. */
  datatype System = System(registered: map<string, Context>, retired: seq<Context>)

  datatype Event =
    | Stage(app: Application, instances: nat)
    | Offered(offer: Offer, uuid: string)
    | Updated(taskId: string, state: TaskState)

  function AfterStage(s: System, app: Application, instances: nat): System {
    if instances == 0 then s
    else System(s.registered[app.id := NewContext(app, instances)],
                if app.id in s.registered then s.retired + [s.registered[app.id]] else s.retired)
  }

  /** An ID without pipes makes the code panic before it changes anything. */
  function AfterUpdate(s: System, taskId: string, state: TaskState): System {
    var id, host := ApplicationOf(taskId), HostnameOf(taskId);
    if id.Panics? || id.text !in s.registered || host.Panics? then s
    else
      var c := Update(s.registered[id.text], taskId, host.text, state);
      if Reports(s.registered[id.text], taskId, state)
      then System(s.registered - {id.text}, s.retired + [c])
      else s.(registered := s.registered[id.text := c])
  }

  /** One of the contexts that accept the offer gets it. */
  ghost predicate OfferStep(s: System, offer: Offer, uuid: string, t: System) {
    || (t == s && forall id :: id in s.registered ==> !Accepts(s.registered[id], offer))
    || (exists id :: TakesOffer(s, id, offer, uuid, t))
  }

  ghost predicate TakesOffer(s: System, id: string, offer: Offer, uuid: string, t: System) {
    && id in s.registered && Accepts(s.registered[id], offer)
    && t == s.(registered := s.registered[id := Launch(s.registered[id], offer, uuid)])
  }

  ghost predicate Step(s: System, e: Event, t: System) {
    match e
    case Stage(app, instances) => t == AfterStage(s, app, instances)
    case Offered(offer, uuid) => OfferStep(s, offer, uuid, t)
    case Updated(taskId, state) => t == AfterUpdate(s, taskId, state)
  }

  /** `events` can happen in this order and lead from the empty runner to `s`. */
  ghost predicate Reaches(events: seq<Event>, s: System)
    decreases |events|
  {
    if events == [] then s == System(map[], [])
    else exists p :: Leads(events, p, s)
  }

  ghost predicate Leads(events: seq<Event>, p: System, s: System)
    requires events != []
    decreases |events|, 0
  {
    Reaches(events[..|events| - 1], p) && Step(p, events[|events| - 1], s)
  }

  /* ---- Conservation and completion ---- */

  ghost predicate Inv(s: System) {
    && (forall id :: id in s.registered ==>
          Conserved(s.registered[id]) && Live(s.registered[id]) && s.registered[id].app.id == id)
    && (forall i :: 0 <= i < |s.retired| ==> Conserved(s.retired[i]))
  }

  lemma {:induction false} InvStep(s: System, e: Event, t: System)
    requires Inv(s) && Step(s, e, t)
    ensures Inv(t)
  {
    match e
    case Stage(app, instances) => if instances > 0 { EmptyContextKeeps(app, instances); }
    case Offered(offer, uuid) =>
      if id :| TakesOffer(s, id, offer, uuid, t) {
        LaunchKeeps(s.registered[id], offer, uuid);
      }
    case Updated(taskId, state) =>
      var id, host := ApplicationOf(taskId), HostnameOf(taskId);
      if id.Found? && id.text in s.registered && host.Found? {
        UpdateKeeps(s.registered[id.text], taskId, host.text, state);
      }
  }

  lemma EmptyContextKeeps(app: Application, instances: nat)
    requires instances > 0
    ensures Conserved(NewContext(app, instances)) && Live(NewContext(app, instances))
  {}

  /** In every run: no context over-launches or loses an instance, none sends two verdicts,
      success is sent only when all instances ran to the end, and a context that is still
      registered has not reported, is not complete and holds no lost or failed task. */
  lemma {:induction false} RunOnceConservation(events: seq<Event>, s: System)
    requires Reaches(events, s)
    ensures Inv(s)
    decreases |events|
  {
    if events != [] {
      var p :| Leads(events, p, s);
      RunOnceConservation(events[..|events| - 1], p);
      InvStep(p, events[|events| - 1], s);
    }
  }

  /** An offer launches at most one task, and one exactly when some context accepts the offer;
      nothing else changes. */
  lemma {:induction false} OneOfferOneTask(s: System, offer: Offer, uuid: string, t: System)
    requires Step(s, Offered(offer, uuid), t)
    ensures t.retired == s.retired
    ensures (forall id :: id in s.registered ==> !Accepts(s.registered[id], offer)) ==> t == s
    ensures (exists id :: id in s.registered && Accepts(s.registered[id], offer)) ==>
      exists id :: id in s.registered && Accepts(s.registered[id], offer)
        && t.registered == s.registered[id := t.registered[id]]
        && t.registered[id] == s.registered[id].(
             left := s.registered[id].left - 1,
             tasks := s.registered[id].tasks +
               [Task(Staging, OfferValues(offer.hostname, offer.attributes),
                     TaskId(s.registered[id].app.id, offer.hostname, uuid))])
  {
    if id :| TakesOffer(s, id, offer, uuid, t) {
      assert t.registered[id] == Launch(s.registered[id], offer, uuid);
    }
  }

  /** In every run, a registered context has an instance left or a task that is neither finished
      nor killed, and none of its tasks is lost, failed or in error. */
  lemma {:induction false} RegisteredIsUnfinished(events: seq<Event>, s: System, id: string)
    requires Reaches(events, s) && id in s.registered
    ensures var c := s.registered[id];
      && c.sent == [] && c.left >= 0
      && (c.left > 0 || exists i :: 0 <= i < |c.tasks| && c.tasks[i].state !in {Finished, Killed})
      && (forall i :: 0 <= i < |c.tasks| ==> c.tasks[i].state !in {Lost, Failed, Error})
  {
    RunOnceConservation(events, s);
    var c := s.registered[id];
    assert Live(c) && Conserved(c);
    forall i | 0 <= i < |c.tasks| ensures c.tasks[i].state !in {Lost, Failed, Error} {
      assert !Broken(c.tasks[i].state);
    }
    if c.left == 0 {
      var i :| 0 <= i < |c.tasks| && !Done(c.tasks[i].state);
      assert c.tasks[i].state !in {Finished, Killed};
    }
  }

  /** A context that has left the runner never changes and so never reports again: whatever
      happens later, the retired contexts stay as they are. */
  lemma {:induction false} RetiredStayFrozen(events: seq<Event>, later: seq<Event>, t: System) returns (s: System)
    requires Reaches(events + later, t)
    ensures Reaches(events, s) && s.retired <= t.retired
    decreases |later|
  {
    if later == [] {
      assert events + later == events;
      return t;
    }
    var all := events + later;
    var p :| Leads(all, p, t);
    assert all[..|all| - 1] == events + later[..|later| - 1];
    s := RetiredStayFrozen(events, later[..|later| - 1], p);
  }

  function Stagings(events: seq<Event>): nat {
    if events == [] then 0
    else
      var e := events[|events| - 1];
      Stagings(events[..|events| - 1]) + if e.Stage? && e.instances > 0 then 1 else 0
  }

  /** No context gets lost: each staging with instances has one, registered or retired. */
  lemma {:induction false} ContextsAreConserved(events: seq<Event>, s: System)
    requires Reaches(events, s)
    ensures |s.registered| + |s.retired| == Stagings(events)
    decreases |events|
  {
    if events != [] {
      var p :| Leads(events, p, s);
      ContextsAreConserved(events[..|events| - 1], p);
      StepConserves(p, events[|events| - 1], s);
    }
  }

  lemma StepConserves(s: System, e: Event, t: System)
    requires Step(s, e, t)
    ensures |t.registered| + |t.retired| ==
      |s.registered| + |s.retired| + if e.Stage? && e.instances > 0 then 1 else 0
  {
    match e
    case Stage(app, instances) =>
      if instances > 0 { PutSize(s.registered, app.id, NewContext(app, instances)); }
    case Offered(offer, uuid) =>
      if id :| TakesOffer(s, id, offer, uuid, t) {
        PutSize(s.registered, id, Launch(s.registered[id], offer, uuid));
      }
    case Updated(taskId, state) =>
      var id, host := ApplicationOf(taskId), HostnameOf(taskId);
      if id.Found? && id.text in s.registered && host.Found? {
        var c := Update(s.registered[id.text], taskId, host.text, state);
        PutSize(s.registered, id.text, c);
        PutSize(s.registered - {id.text}, id.text, c);
        assert (s.registered - {id.text})[id.text := c] == s.registered[id.text := c];
      }
  }

  lemma PutSize(m: map<string, Context>, id: string, c: Context)
    ensures |m[id := c]| == |m| + if id in m then 0 else 1
  {
    assert m[id := c].Keys == m.Keys + {id};
    assert id in m ==> m.Keys + {id} == m.Keys;
  }

  /* ---- Placement ---- */

  predicate Orderly(e: Event) {
    && (e.Updated? ==> !e.state.Starting?)
    && (e.Offered? ==> e.offer.hostname != "")
  }

  ghost predicate AllPlaced(s: System) {
    && (forall id :: id in s.registered ==> Placed(s.registered[id]))
    && (forall i :: 0 <= i < |s.retired| ==> Placed(s.retired[i]))
  }

  /** In every run with host names and without TASK_STARTING, every context keeps all its
      placement rules. */
  lemma {:induction false} PlacementOverRuns(events: seq<Event>, s: System)
    requires Reaches(events, s) && forall i :: 0 <= i < |events| ==> Orderly(events[i])
    ensures AllPlaced(s)
    decreases |events|
  {
    if events != [] {
      var p :| Leads(events, p, s);
      PlacementOverRuns(events[..|events| - 1], p);
      PlacementStep(p, events[|events| - 1], s);
    }
  }

  lemma {:induction false} PlacementStep(s: System, e: Event, t: System)
    requires AllPlaced(s) && Step(s, e, t) && Orderly(e)
    ensures AllPlaced(t)
  {
    match e
    case Stage(app, instances) =>
      EmptyContextPlaced(app, instances);
    case Offered(offer, uuid) =>
      if id :| TakesOffer(s, id, offer, uuid, t) {
        LaunchPlaces(s.registered[id], offer, uuid);
      }
    case Updated(taskId, state) =>
      var id, host := ApplicationOf(taskId), HostnameOf(taskId);
      if id.Found? && id.text in s.registered && host.Found? {
        UpdatePlaces(s.registered[id.text], taskId, host.text, state);
      }
  }

  lemma EmptyContextPlaced(app: Application, instances: nat)
    ensures Placed(NewContext(app, instances))
  {}

  /* ---- Exactly when a rule is broken in a run ---- */

  ghost predicate Holds(s: System, c: Context) {
    (exists id :: id in s.registered && s.registered[id] == c) || c in s.retired
  }

  /** The move is the context's share in one of the events. */
  predicate Caused(m: Move, events: seq<Event>) {
    match m
    case Launched(offer, uuid) => Offered(offer, uuid) in events
    case Changed(taskId, _, state) => Updated(taskId, state) in events
  }

  /** The moves are what happened to `c` in the run. */
  ghost predicate Life(moves: seq<Move>, c: Context, events: seq<Event>) {
    && Legal(c.app, c.wanted, moves) && ContextAfter(c.app, c.wanted, moves) == c
    && (forall m :: m in moves ==> Caused(m, events))
  }

  ghost predicate HasLife(c: Context, events: seq<Event>) {
    exists moves :: Life(moves, c, events)
  }

  lemma LifeGoesOn(c: Context, events: seq<Event>, e: Event)
    requires HasLife(c, events)
    ensures HasLife(c, events + [e])
  {
    var moves :| Life(moves, c, events);
    assert Life(moves, c, events + [e]);
  }

  lemma FirstMoment(app: Application, wanted: nat, events: seq<Event>)
    ensures HasLife(NewContext(app, wanted), events)
  {
    assert Life([], NewContext(app, wanted), events);
  }

  lemma {:induction false} OneMoreMove(c: Context, m: Move, events: seq<Event>)
    requires HasLife(c, events) && CanMove(c, m) && Caused(m, events)
    ensures HasLife(AfterMove(c, m), events)
  {
    var moves :| Life(moves, c, events);
    LegalOneMore(c.app, c.wanted, moves, m);
    assert AfterMove(c, m).app == c.app && AfterMove(c, m).wanted == c.wanted;
    assert Life(moves + [m], AfterMove(c, m), events);
  }

  lemma LegalOneMore(app: Application, wanted: nat, moves: seq<Move>, m: Move)
    requires Legal(app, wanted, moves) && CanMove(ContextAfter(app, wanted, moves), m)
    ensures Legal(app, wanted, moves + [m])
    ensures ContextAfter(app, wanted, moves + [m]) == AfterMove(ContextAfter(app, wanted, moves), m)
  {
    assert (moves + [m])[..|moves|] == moves;
  }

  lemma {:induction false} LivesStep(s: System, e: Event, t: System, events: seq<Event>)
    requires Step(s, e, t) && e in events && forall c :: Holds(s, c) ==> HasLife(c, events)
    ensures forall c :: Holds(t, c) ==> HasLife(c, events)
  {
    match e
    case Stage(app, instances) =>
      FirstMoment(app, instances, events);
      assert forall c :: Holds(t, c) ==> Holds(s, c) || c == NewContext(app, instances);
    case Offered(offer, uuid) =>
      if id :| TakesOffer(s, id, offer, uuid, t) {
        var m := Launched(offer, uuid);
        assert Holds(s, s.registered[id]);
        OneMoreMove(s.registered[id], m, events);
        assert forall c :: Holds(t, c) ==> Holds(s, c) || c == AfterMove(s.registered[id], m);
      }
    case Updated(taskId, state) =>
      var id, host := ApplicationOf(taskId), HostnameOf(taskId);
      if id.Found? && id.text in s.registered && host.Found? {
        var m := Changed(taskId, host.text, state);
        assert Holds(s, s.registered[id.text]);
        OneMoreMove(s.registered[id.text], m, events);
        assert forall c :: Holds(t, c) ==> Holds(s, c) || c == AfterMove(s.registered[id.text], m);
      }
  }

  /** Every context of a run has a life made of the run's events. */
  lemma {:induction false} ContextsHaveLives(events: seq<Event>, s: System)
    requires Reaches(events, s)
    ensures forall c :: Holds(s, c) ==> HasLife(c, events)
    decreases |events|
  {
    if events != [] {
      var before, e := events[..|events| - 1], events[|events| - 1];
      var p :| Leads(events, p, s);
      ContextsHaveLives(before, p);
      assert events == before + [e];
      forall c | Holds(p, c) ensures HasLife(c, events) { LifeGoesOn(c, before, e); }
      LivesStep(p, e, s, events);
    }
  }

  /** In every run, each placement rule of each context keeps its promise exactly when none of
      the context's launches slipped past it. */
  lemma {:induction false} PlacementIffInRuns(events: seq<Event>, s: System, c: Context) returns (moves: seq<Move>)
    requires Reaches(events, s) && Holds(s, c)
    ensures Life(moves, c, events)
    ensures forall name, rule :: name in c.app.rules && rule in c.app.rules[name] ==>
      (Promised(rule, Column(c.tasks, name)) <==> NoSlip(c.app, c.wanted, moves, name, rule))
  {
    ContextsHaveLives(events, s);
    moves :| Life(moves, c, events);
    forall name, rule | name in c.app.rules && rule in c.app.rules[name]
      ensures Promised(rule, Column(c.tasks, name)) <==> NoSlip(c.app, c.wanted, moves, name, rule)
    {
      PlacementIff(c.app, c.wanted, moves, name, rule);
    }
  }

  /* ---- What was launched where ---- */

  /** The offers on which a context launched, in launch order. */
  function LaunchedOn(moves: seq<Move>): seq<Offer> {
    if moves == [] then []
    else
      var m := moves[|moves| - 1];
      LaunchedOn(moves[..|moves| - 1]) + if m.Launched? then [m.offer] else []
  }

  /** Task `i` runs where offer `i` said, and the offer had room for it. */
  ghost predicate Fits(app: Application, tasks: seq<Task>, offers: seq<Offer>) {
    && |offers| == |tasks|
    && (forall i :: 0 <= i < |tasks| ==>
          && app.cpu <= offers[i].cpus && app.mem <= offers[i].mem
          && tasks[i].attributes == OfferValues(offers[i].hostname, offers[i].attributes))
  }

  lemma {:induction false} LegalFits(app: Application, wanted: nat, moves: seq<Move>)
    requires Legal(app, wanted, moves)
    ensures Fits(app, ContextAfter(app, wanted, moves).tasks, LaunchedOn(moves))
  {
    if moves != [] {
      var before, m := moves[..|moves| - 1], moves[|moves| - 1];
      LegalFits(app, wanted, before);
      AfterKeepsApp(app, wanted, before);
      MoveFits(ContextAfter(app, wanted, before), LaunchedOn(before), m);
    }
  }

  lemma MoveFits(c: Context, offers: seq<Offer>, m: Move)
    requires Fits(c.app, c.tasks, offers) && CanMove(c, m)
    ensures Fits(c.app, AfterMove(c, m).tasks, offers + if m.Launched? then [m.offer] else [])
  {}

  ghost predicate WasOffered(offer: Offer, events: seq<Event>) {
    exists uuid :: Offered(offer, uuid) in events
  }

  lemma {:induction false} OffersAreEvents(moves: seq<Move>, events: seq<Event>, offer: Offer)
    requires (forall m :: m in moves ==> Caused(m, events)) && offer in LaunchedOn(moves)
    ensures WasOffered(offer, events)
  {
    var m := moves[|moves| - 1];
    if m == Launched(offer, if m.Launched? then m.uuid else "") {
      assert Caused(m, events);
    } else {
      OffersAreEvents(moves[..|moves| - 1], events, offer);
    }
  }

  /** In every run, each task of each context was launched on an offer of the run with at least
      the processors and the memory that its application asks for. */
  lemma {:induction false} LaunchesFit(events: seq<Event>, s: System, c: Context) returns (offers: seq<Offer>)
    requires Reaches(events, s) && Holds(s, c)
    ensures |offers| == |c.tasks|
    ensures forall i :: 0 <= i < |c.tasks| ==>
      && c.app.cpu <= offers[i].cpus && c.app.mem <= offers[i].mem
      && c.tasks[i].attributes == OfferValues(offers[i].hostname, offers[i].attributes)
      && WasOffered(offers[i], events)
  {
    ContextsHaveLives(events, s);
    var moves :| Life(moves, c, events);
    LegalFits(c.app, c.wanted, moves);
    offers := LaunchedOn(moves);
    assert Fits(c.app, c.tasks, offers);
    forall i | 0 <= i < |c.tasks| ensures WasOffered(offers[i], events) {
      OffersAreEvents(moves, events, offers[i]);
    }
  }

  /* ---- Routing ---- */

  /** A status update for a launched task never makes the code panic, reaches the context
      registered under its application's ID, if there is one, and touches no other. */
  lemma {:induction false} Routing(events: seq<Event>, s: System, c: Context, i: nat, state: TaskState)
    requires Reaches(events, s) && Holds(s, c) && i < |c.tasks| && '|' !in c.app.id
    ensures ApplicationOf(c.tasks[i].taskId) == Found(c.app.id) && HostnameOf(c.tasks[i].taskId).Found?
    ensures c.app.id !in s.registered ==> AfterUpdate(s, c.tasks[i].taskId, state) == s
    ensures c.app.id in s.registered ==>
      var d := Update(s.registered[c.app.id], c.tasks[i].taskId, HostnameOf(c.tasks[i].taskId).text, state);
      AfterUpdate(s, c.tasks[i].taskId, state) ==
        if d.sent == [] then System(s.registered[c.app.id := d], s.retired)
        else System(s.registered - {c.app.id}, s.retired + [d])
  {
    RunOnceConservation(events, s);
    assert Conserved(c);
    var host, uuid :| c.tasks[i].taskId == TaskId(c.app.id, host, uuid);
    RoundTrip(c.app.id, host, uuid);
    HostnameIsFound(c.app.id, host, uuid);
    if c.app.id in s.registered {
      UpdateKeeps(s.registered[c.app.id], c.tasks[i].taskId, HostnameOf(c.tasks[i].taskId).text, state);
    }
  }

  lemma ReachesStep(events: seq<Event>, s: System, e: Event, t: System)
    requires Reaches(events, s) && Step(s, e, t)
    ensures Reaches(events + [e], t)
  {
    assert (events + [e])[..|events|] == events;
    assert Leads(events + [e], s, t);
  }

  /** Staging an ID again while a task of the first staging is lost: the update fails the second
      context, which has not launched anything. */
  lemma {:induction false} StaleUpdateFails(app: Application, offer: Offer, uuid: string, host: string)
    returns (events: seq<Event>, s: System)
    requires app.rules == map[] && app.cpu <= offer.cpus && app.mem <= offer.mem && '|' !in app.id
    requires offer.hostname == host && '|' !in host
    ensures Reaches(events, s) && s.registered == map[] && |s.retired| == 2
    ensures s.retired[1] == NewContext(app, 1).(sent := [FailedOn(host)])
  {
    var first, taskId := Launch(NewContext(app, 1), offer, uuid), TaskId(app.id, host, uuid);
    var empty, staged := System(map[], []), System(map[app.id := NewContext(app, 1)], []);
    var launched := System(map[app.id := first], []);
    var again := System(map[app.id := NewContext(app, 1)], [first]);
    s := System(map[], [first, NewContext(app, 1).(sent := [FailedOn(host)])]);
    events := [];
    ReachesStep(events, empty, Stage(app, 1), staged);
    events := events + [Stage(app, 1)];
    assert TakesOffer(staged, app.id, offer, uuid, launched);
    ReachesStep(events, staged, Offered(offer, uuid), launched);
    events := events + [Offered(offer, uuid)];
    ReachesStep(events, launched, Stage(app, 1), again);
    events := events + [Stage(app, 1)];
    assert AfterUpdate(again, taskId, Lost) == s by {
      RoundTrip(app.id, host, uuid);
      assert again.registered - {app.id} == map[];
      assert Update(NewContext(app, 1), taskId, host, Lost) == s.retired[1];
    }
    ReachesStep(events, again, Updated(taskId, Lost), s);
    events := events + [Updated(taskId, Lost)];
  }

  lemma HostnameIsFound(application: string, hostname: string, uuid: string)
    requires '|' !in application
    ensures HostnameOf(TaskId(application, hostname, uuid)).Found?
  {
    var id := TaskId(application, hostname, uuid);
    assert id == application + "|" + (hostname + "|" + uuid);
    UpToPipeFinds(application, hostname + "|" + uuid);
    assert id[|application| + 1..] == hostname + "|" + uuid;
    PipeIsFound(hostname + "|" + uuid, |hostname|);
  }

  lemma {:induction false} PipeIsFound(s: string, i: nat)
    requires i < |s| && s[i] == '|'
    ensures UpToPipe(s).Found?
  {
    if s[0] != '|' { PipeIsFound(s[1..], i - 1); }
  }
}
