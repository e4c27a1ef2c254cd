/** Stack inheritance: how `Stack.Merge` lays a child stack over its parent, and what a whole
    chain of merges amounts to. */
module Inheritance {

  /** Fields that merging never touches. */
  datatype Fixed = Fixed(kind: string, instances: string, constraints: seq<seq<string>>, args: seq<string>,
                         env: map<string, string>, docker: seq<string>, startTime: string, timeSchedule: string)

  type TaskList = seq<(string, map<string, string>)>

  datatype App = App(
    id: string, version: string, cpu: real, mem: real, ports: seq<int>, user: string,
    healthcheck: string, launchCommand: string, artifactUrls: seq<string>,
    additionalArtifacts: seq<string>, dependencies: seq<string>, scheduler: map<string, string>,
    tasks: TaskList, beforeScheduler: seq<string>, afterScheduler: seq<string>,
    beforeTask: seq<string>, afterTask: seq<string>, afterTasks: seq<string>, fixed: Fixed)

  type Apps = map<string, App>

  /** The setters of framework/util.go: an empty value of the child leaves the parent's. */
  function Over<T(==)>(child: T, parent: T, empty: T): T {
    if child != empty then child else parent
  }

  /** An empty scheduler value of the child removes the key. */
  function MergeScheduler(parent: map<string, string>, child: map<string, string>): map<string, string> {
    map k | k in parent.Keys + child.Keys && (k in child ==> child[k] != "") ::
      if k in child then child[k] else parent[k]
  }

  function MergeApp(p: App, c: App): App {
    App(Over(c.id, p.id, ""), Over(c.version, p.version, ""), Over(c.cpu, p.cpu, 0.0), Over(c.mem, p.mem, 0.0),
        Over(c.ports, p.ports, []), Over(c.user, p.user, ""), Over(c.healthcheck, p.healthcheck, ""),
        Over(c.launchCommand, p.launchCommand, ""), Over(c.artifactUrls, p.artifactUrls, []),
        Over(c.additionalArtifacts, p.additionalArtifacts, []), Over(c.dependencies, p.dependencies, []),
        MergeScheduler(p.scheduler, c.scheduler), Over(c.tasks, p.tasks, []),
        Over(c.beforeScheduler, p.beforeScheduler, []), Over(c.afterScheduler, p.afterScheduler, []),
        Over(c.beforeTask, p.beforeTask, []), Over(c.afterTask, p.afterTask, []),
        Over(c.afterTasks, p.afterTasks, []), p.fixed)
  }

  function MergeApps(p: Apps, c: Apps): Apps {
    map n | n in p.Keys + c.Keys ::
      if n !in c then p[n] else if n !in p then c[n] else MergeApp(p[n], c[n])
  }

  /* ---- The loops ---- */

  method MergeSchedulerInPlace(parent: map<string, string>, child: map<string, string>)
    returns (merged: map<string, string>)
    ensures merged == MergeScheduler(parent, child)
  {
    merged := parent;
    var todo := child.Keys;
    while todo != {}
      invariant todo <= child.Keys
      invariant forall k :: k in todo || k !in child ==>
        (k in merged <==> k in parent) && (k in merged ==> merged[k] == parent[k])
      invariant forall k :: k in child && k !in todo ==>
        if child[k] == "" then k !in merged else k in merged && merged[k] == child[k]
    {
      var k :| k in todo;
      todo := todo - {k};
      if child[k] == "" {
        merged := merged - {k};
      } else {
        merged := merged[k := child[k]];
      }
    }
  }

  method SetText(from: string, to: string) returns (r: string)
    ensures r == Over(from, to, "")
  {
    r := to;
    if from != "" { r := from; }
  }

  method SetNumber(from: real, to: real) returns (r: real)
    ensures r == Over(from, to, 0.0)
  {
    r := to;
    if from != 0.0 { r := from; }
  }

  method SetList<T(==)>(from: seq<T>, to: seq<T>) returns (r: seq<T>)
    ensures r == Over(from, to, [])
  {
    r := to;
    if |from| > 0 { r := from; }
  }

  /** The body of the merge loop for an application that both stacks define. */
  method MergeApplication(app: App, child: App) returns (r: App)
    ensures r == MergeApp(app, child)
  {
    var id := SetText(child.id, app.id);
    var version := SetText(child.version, app.version);
    var cpu := SetNumber(child.cpu, app.cpu);
    var mem := SetNumber(child.mem, app.mem);
    var ports := SetList(child.ports, app.ports);
    var user := SetText(child.user, app.user);
    var healthcheck := SetText(child.healthcheck, app.healthcheck);
    var launchCommand := SetText(child.launchCommand, app.launchCommand);
    var artifactUrls := SetList(child.artifactUrls, app.artifactUrls);
    var additionalArtifacts := SetList(child.additionalArtifacts, app.additionalArtifacts);
    var dependencies := SetList(child.dependencies, app.dependencies);
    var scheduler := MergeSchedulerInPlace(app.scheduler, child.scheduler);
    var tasks := SetList(child.tasks, app.tasks);
    var beforeScheduler := SetList(child.beforeScheduler, app.beforeScheduler);
    var afterScheduler := SetList(child.afterScheduler, app.afterScheduler);
    var beforeTask := SetList(child.beforeTask, app.beforeTask);
    var afterTask := SetList(child.afterTask, app.afterTask);
    var afterTasks := SetList(child.afterTasks, app.afterTasks);
    r := App(id, version, cpu, mem, ports, user, healthcheck, launchCommand, artifactUrls, additionalArtifacts,
             dependencies, scheduler, tasks, beforeScheduler, afterScheduler, beforeTask, afterTask, afterTasks,
             app.fixed);
  }

  class Stack {
    var name: string
    var applications: Apps

    constructor (name: string, applications: Apps)
      ensures this.name == name && this.applications == applications
    {
      this.name, this.applications := name, applications;
    }

    /** Lays `child` over this stack, application by application in any order. */
    method Merge(child: Stack)
      requires child != this
      modifies this
      ensures name == child.name
      ensures applications == MergeApps(old(applications), child.applications)
    {
      name := child.name;
      var todo := child.applications.Keys;
      while todo != {}
        invariant todo <= child.applications.Keys && name == child.name
        invariant child.applications == old(child.applications)
        invariant PartMerged(old(applications), child.applications, todo, applications)
      {
        var n :| n in todo;
        PartMergedStep(old(applications), child.applications, todo, applications, n);
        todo := todo - {n};
        var childApp := child.applications[n];
        if n !in applications {
          applications := applications[n := childApp];
        } else {
          var app := MergeApplication(applications[n], childApp);
          applications := applications[n := app];
        }
      }
      assert child.applications.Keys - todo == child.applications.Keys;
    }
  }

  ghost predicate PartMerged(parent: Apps, child: Apps, todo: set<string>, now: Apps) {
    && now.Keys == parent.Keys + (child.Keys - todo)
    && (forall n :: n in parent && (n in todo || n !in child) ==> now[n] == parent[n])
    && (forall n :: n in child && n !in todo ==>
          now[n] == if n in parent then MergeApp(parent[n], child[n]) else child[n])
  }

  lemma PartMergedStep(parent: Apps, child: Apps, todo: set<string>, now: Apps, n: string)
    requires PartMerged(parent, child, todo, now) && n in todo && n in child
    ensures PartMerged(parent, child, todo - {n}, now[n := if n in now then MergeApp(now[n], child[n]) else child[n]])
  {}

  /* ---- A chain of merges ---- */

  /** Merges a chain of stacks, oldest first. */
  function MergeChain(chain: seq<Apps>): Apps {
    if chain == [] then map[] else MergeApps(MergeChain(chain[..|chain| - 1]), chain[|chain| - 1])
  }

  /** The definitions of one application along the chain, oldest first. */
  function Definitions(chain: seq<Apps>, n: string): seq<App> {
    if chain == [] then []
    else
      var rest := Definitions(chain[..|chain| - 1], n);
      if n in chain[|chain| - 1] then rest + [chain[|chain| - 1][n]] else rest
  }

  function MergeDefinitions(defs: seq<App>): App
    requires defs != []
  {
    if |defs| == 1 then defs[0] else MergeApp(MergeDefinitions(defs[..|defs| - 1]), defs[|defs| - 1])
  }

  /** The last value that is not empty, if there is one. */
  function Latest<T(==)>(values: seq<T>, empty: T): (r: T)
    ensures r == empty ==> forall i :: 0 <= i < |values| ==> values[i] == empty
    ensures r != empty ==>
      exists i :: 0 <= i < |values| && r == values[i] && forall j :: i < j < |values| ==> values[j] == empty
  {
    if values == [] then empty
    else
      var last := |values| - 1;
      if values[last] != empty then values[last] else Latest(values[..last], empty)
  }

  function Each<T>(defs: seq<App>, field: App -> T): seq<T> {
    seq(|defs|, i requires 0 <= i < |defs| => field(defs[i]))
  }

  lemma {:induction false} ChainByApplication(chain: seq<Apps>, n: string)
    ensures n in MergeChain(chain) <==> Definitions(chain, n) != []
    ensures n in MergeChain(chain) ==> MergeChain(chain)[n] == MergeDefinitions(Definitions(chain, n))
  {
    if chain != [] {
      var rest := Definitions(chain[..|chain| - 1], n);
      ChainByApplication(chain[..|chain| - 1], n);
      if n in chain[|chain| - 1] && rest != [] {
        assert Definitions(chain, n)[..|rest|] == rest;
      }
    }
  }

  /** A field that merging overrides ends up with its most derived non-empty value. */
  lemma {:induction false} FieldClosedForm<T>(defs: seq<App>, field: App -> T, empty: T)
    requires defs != []
    requires forall p, c {:trigger MergeApp(p, c)} :: field(MergeApp(p, c)) == Over(field(c), field(p), empty)
    ensures field(MergeDefinitions(defs)) == Latest(Each(defs, field), empty)
  {
    var last := |defs| - 1;
    var values := Each(defs, field);
    if |defs| > 1 {
      FieldClosedForm(defs[..last], field, empty);
      assert values[..last] == Each(defs[..last], field);
    }
  }

  /** Position `i` is the most derived definition after the oldest that mentions the key. */
  ghost predicate LastMention(defs: seq<App>, k: string, i: nat) {
    && 1 <= i < |defs| && k in defs[i].scheduler
    && (forall j :: i < j < |defs| ==> k !in defs[j].scheduler)
  }

  /** How the chain decides one scheduler key: by that definition, where an empty string
      removes the key, and else by the oldest definition. */
  ghost predicate SchedulerDecided(defs: seq<App>, k: string, merged: map<string, string>)
    requires defs != []
  {
    && (forall i: nat :: LastMention(defs, k, i) ==>
          if defs[i].scheduler[k] == "" then k !in merged
          else k in merged && merged[k] == defs[i].scheduler[k])
    && ((forall i :: 1 <= i < |defs| ==> k !in defs[i].scheduler) ==>
          && (k in merged <==> k in defs[0].scheduler)
          && (k in merged ==> merged[k] == defs[0].scheduler[k]))
  }

  lemma {:induction false} SchedulerClosedForm(defs: seq<App>, k: string)
    requires defs != []
    ensures SchedulerDecided(defs, k, MergeDefinitions(defs).scheduler)
  {
    if |defs| > 1 {
      var last := |defs| - 1;
      var before := MergeDefinitions(defs[..last]).scheduler;
      SchedulerClosedForm(defs[..last], k);
      SchedulerDecidedStep(defs, k, before);
      assert MergeDefinitions(defs).scheduler == MergeScheduler(before, defs[last].scheduler);
    }
  }

  lemma SchedulerDecidedStep(defs: seq<App>, k: string, before: map<string, string>)
    requires |defs| > 1 && SchedulerDecided(defs[..|defs| - 1], k, before)
    ensures SchedulerDecided(defs, k, MergeScheduler(before, defs[|defs| - 1].scheduler))
  {
    var last := |defs| - 1;
    if k in defs[last].scheduler {
      assert forall i: nat :: LastMention(defs, k, i) ==> i == last;
    } else {
      UnmentionedStep(defs, k, before, MergeScheduler(before, defs[last].scheduler));
    }
  }

  /** A definition that does not mention the key leaves its decision. */
  lemma UnmentionedStep(defs: seq<App>, k: string, before: map<string, string>, merged: map<string, string>)
    requires |defs| > 1 && SchedulerDecided(defs[..|defs| - 1], k, before) && k !in defs[|defs| - 1].scheduler
    requires (k in merged <==> k in before) && (k in merged ==> merged[k] == before[k])
    ensures SchedulerDecided(defs, k, merged)
  {
    var rest := defs[..|defs| - 1];
    forall i: nat | LastMention(defs, k, i) ensures i < |rest| && LastMention(rest, k, i) {}
    assert forall i :: 0 <= i < |rest| ==> rest[i] == defs[i];
  }

  lemma {:induction false} FixedClosedForm(defs: seq<App>)
    requires defs != []
    ensures MergeDefinitions(defs).fixed == defs[0].fixed
  {
    if |defs| > 1 { FixedClosedForm(defs[..|defs| - 1]); }
  }

  /** What inheritance gives an application that the chain defines. */
  ghost predicate Inherits(defs: seq<App>, r: App)
    requires defs != []
  {
    && r.id == Latest(Each(defs, (a: App) => a.id), "")
    && r.version == Latest(Each(defs, (a: App) => a.version), "")
    && r.cpu == Latest(Each(defs, (a: App) => a.cpu), 0.0)
    && r.mem == Latest(Each(defs, (a: App) => a.mem), 0.0)
    && r.ports == Latest(Each(defs, (a: App) => a.ports), [])
    && r.user == Latest(Each(defs, (a: App) => a.user), "")
    && r.healthcheck == Latest(Each(defs, (a: App) => a.healthcheck), "")
    && r.launchCommand == Latest(Each(defs, (a: App) => a.launchCommand), "")
    && r.artifactUrls == Latest(Each(defs, (a: App) => a.artifactUrls), [])
    && r.additionalArtifacts == Latest(Each(defs, (a: App) => a.additionalArtifacts), [])
    && r.dependencies == Latest(Each(defs, (a: App) => a.dependencies), [])
    && r.tasks == Latest(Each(defs, (a: App) => a.tasks), [])
    && r.beforeScheduler == Latest(Each(defs, (a: App) => a.beforeScheduler), [])
    && r.afterScheduler == Latest(Each(defs, (a: App) => a.afterScheduler), [])
    && r.beforeTask == Latest(Each(defs, (a: App) => a.beforeTask), [])
    && r.afterTask == Latest(Each(defs, (a: App) => a.afterTask), [])
    && r.afterTasks == Latest(Each(defs, (a: App) => a.afterTasks), [])
    && (forall k :: SchedulerDecided(defs, k, r.scheduler))
    && r.fixed == defs[0].fixed
  }

  lemma {:induction false} InheritsTexts(defs: seq<App>, r: App)
    requires defs != [] && r == MergeDefinitions(defs)
    ensures r.id == Latest(Each(defs, (a: App) => a.id), "")
    ensures r.version == Latest(Each(defs, (a: App) => a.version), "")
    ensures r.cpu == Latest(Each(defs, (a: App) => a.cpu), 0.0)
    ensures r.mem == Latest(Each(defs, (a: App) => a.mem), 0.0)
    ensures r.user == Latest(Each(defs, (a: App) => a.user), "")
    ensures r.healthcheck == Latest(Each(defs, (a: App) => a.healthcheck), "")
    ensures r.launchCommand == Latest(Each(defs, (a: App) => a.launchCommand), "")
  {
    FieldClosedForm(defs, (a: App) => a.id, "");
    FieldClosedForm(defs, (a: App) => a.version, "");
    FieldClosedForm(defs, (a: App) => a.cpu, 0.0);
    FieldClosedForm(defs, (a: App) => a.mem, 0.0);
    FieldClosedForm(defs, (a: App) => a.user, "");
    FieldClosedForm(defs, (a: App) => a.healthcheck, "");
    FieldClosedForm(defs, (a: App) => a.launchCommand, "");
  }

  lemma {:induction false} InheritsLists(defs: seq<App>, r: App)
    requires defs != [] && r == MergeDefinitions(defs)
    ensures r.ports == Latest(Each(defs, (a: App) => a.ports), [])
    ensures r.artifactUrls == Latest(Each(defs, (a: App) => a.artifactUrls), [])
    ensures r.additionalArtifacts == Latest(Each(defs, (a: App) => a.additionalArtifacts), [])
    ensures r.dependencies == Latest(Each(defs, (a: App) => a.dependencies), [])
    ensures r.tasks == Latest(Each(defs, (a: App) => a.tasks), [])
  {
    FieldClosedForm(defs, (a: App) => a.ports, []);
    FieldClosedForm(defs, (a: App) => a.artifactUrls, []);
    FieldClosedForm(defs, (a: App) => a.additionalArtifacts, []);
    FieldClosedForm(defs, (a: App) => a.dependencies, []);
    FieldClosedForm(defs, (a: App) => a.tasks, []);
  }

  lemma {:induction false} InheritsHooks(defs: seq<App>, r: App)
    requires defs != [] && r == MergeDefinitions(defs)
    ensures r.beforeScheduler == Latest(Each(defs, (a: App) => a.beforeScheduler), [])
    ensures r.afterScheduler == Latest(Each(defs, (a: App) => a.afterScheduler), [])
    ensures r.beforeTask == Latest(Each(defs, (a: App) => a.beforeTask), [])
    ensures r.afterTask == Latest(Each(defs, (a: App) => a.afterTask), [])
    ensures r.afterTasks == Latest(Each(defs, (a: App) => a.afterTasks), [])
  {
    FieldClosedForm(defs, (a: App) => a.beforeScheduler, []);
    FieldClosedForm(defs, (a: App) => a.afterScheduler, []);
    FieldClosedForm(defs, (a: App) => a.beforeTask, []);
    FieldClosedForm(defs, (a: App) => a.afterTask, []);
    FieldClosedForm(defs, (a: App) => a.afterTasks, []);
  }

  /** For a chain of any length: an application exists when some stack of the chain defines
      it; every merged field has its most derived non-empty value; scheduler keys are decided
      one by one; the other fields are those of the oldest definition. */
  lemma {:induction false} InheritanceClosedForm(chain: seq<Apps>, n: string)
    ensures n in MergeChain(chain) <==> Definitions(chain, n) != []
    ensures n in MergeChain(chain) ==> Inherits(Definitions(chain, n), MergeChain(chain)[n])
  {
    ChainByApplication(chain, n);
    var defs := Definitions(chain, n);
    if defs != [] {
      var r := MergeDefinitions(defs);
      InheritsTexts(defs, r);
      InheritsLists(defs, r);
      InheritsHooks(defs, r);
      FixedClosedForm(defs);
      forall k ensures SchedulerDecided(defs, k, r.scheduler) {
        SchedulerClosedForm(defs, k);
      }
    }
  }

  /* ---- Re-bracketing ---- */

  /** A later stack removes a scheduler key that an earlier one set. If the removing stack is
      first merged with a stack in between, the removal is lost. */
  predicate ClashesAt(a: map<string, string>, c: map<string, string>, k: string) {
    k in a && k in c && c[k] == ""
  }

  lemma MergeSchedulerAt(p: map<string, string>, c: map<string, string>, k: string)
    ensures k in MergeScheduler(p, c) <==> if k in c then c[k] != "" else k in p
    ensures k in MergeScheduler(p, c) ==> MergeScheduler(p, c)[k] == if k in c then c[k] else p[k]
  {}

  lemma SchedulerAssociativeIff(a: map<string, string>, b: map<string, string>, c: map<string, string>)
    ensures MergeScheduler(MergeScheduler(a, b), c) == MergeScheduler(a, MergeScheduler(b, c)) <==>
      forall k :: !ClashesAt(a, c, k)
  {
    var ab, bc := MergeScheduler(a, b), MergeScheduler(b, c);
    var left, right := MergeScheduler(ab, c), MergeScheduler(a, bc);
    forall k
      ensures ClashesAt(a, c, k) ==> k !in left && k in right
      ensures !ClashesAt(a, c, k) ==> (k in left <==> k in right) && (k in left ==> left[k] == right[k])
    {
      MergeSchedulerAt(a, b, k);
      MergeSchedulerAt(b, c, k);
      MergeSchedulerAt(ab, c, k);
      MergeSchedulerAt(a, bc, k);
    }
    if forall k :: !ClashesAt(a, c, k) {
      assert left.Keys == right.Keys;
    }
  }

  lemma AppAssociativeIff(a: App, b: App, c: App)
    ensures MergeApp(MergeApp(a, b), c) == MergeApp(a, MergeApp(b, c)) <==>
      forall k :: !ClashesAt(a.scheduler, c.scheduler, k)
  {
    SchedulerAssociativeIff(a.scheduler, b.scheduler, c.scheduler);
  }

  ghost predicate ClashesIn(a: Apps, b: Apps, c: Apps, n: string) {
    n in a && n in b && n in c && exists k :: ClashesAt(a[n].scheduler, c[n].scheduler, k)
  }

  lemma AssociativeFor(a: Apps, b: Apps, c: Apps, n: string)
    ensures var left, right := MergeApps(MergeApps(a, b), c), MergeApps(a, MergeApps(b, c));
      && (n in left <==> n in right)
      && (n in left ==> (left[n] == right[n] <==> !ClashesIn(a, b, c, n)))
  {
    if n in a && n in b && n in c {
      AppAssociativeIff(a[n], b[n], c[n]);
    }
  }

  /** Merging is associative exactly when, in applications that all three stacks define, the
      last one removes no scheduler key of the first. */
  lemma {:induction false} MergeAssociativeIff(a: Apps, b: Apps, c: Apps)
    ensures MergeApps(MergeApps(a, b), c) == MergeApps(a, MergeApps(b, c)) <==> forall n :: !ClashesIn(a, b, c, n)
  {
    forall n { AssociativeFor(a, b, c, n); }
    var left, right := MergeApps(MergeApps(a, b), c), MergeApps(a, MergeApps(b, c));
    assert left.Keys == right.Keys;
    if left == right {
      forall n ensures !ClashesIn(a, b, c, n) {
        if n !in left { assert n !in a; }
      }
    }
  }

  /** A way to put brackets in a chain of merges. */
  datatype Bracketing = Leaf(apps: Apps) | Node(left: Bracketing, right: Bracketing)

  function Leaves(t: Bracketing): seq<Apps> {
    match t
    case Leaf(apps) => [apps]
    case Node(l, r) => Leaves(l) + Leaves(r)
  }

  function Evaluate(t: Bracketing): Apps {
    match t
    case Leaf(apps) => apps
    case Node(l, r) => MergeApps(Evaluate(l), Evaluate(r))
  }

  /** No stack removes a scheduler key. */
  ghost predicate KeepsKeys(apps: Apps) {
    forall n, k :: n in apps && k in apps[n].scheduler ==> apps[n].scheduler[k] != ""
  }

  lemma {:induction false} ChainKeepsKeys(chain: seq<Apps>)
    requires forall i :: 0 <= i < |chain| ==> KeepsKeys(chain[i])
    ensures KeepsKeys(MergeChain(chain))
  {
    if chain != [] {
      ChainKeepsKeys(chain[..|chain| - 1]);
      assert KeepsKeys(chain[|chain| - 1]);
    }
  }

  lemma {:induction false} ChainSplits(first: seq<Apps>, second: seq<Apps>)
    requires second != []
    requires forall i :: 0 <= i < |second| ==> KeepsKeys(second[i])
    ensures MergeChain(first + second) == MergeApps(MergeChain(first), MergeChain(second))
  {
    var last := |second| - 1;
    var c := second[last];
    assert (first + second)[..|first| + last] == first + second[..last];
    assert KeepsKeys(c);
    if last == 0 {
      assert second[..0] == [] && first + [] == first;
      assert MergeChain(second) == MergeApps(map[], c) == c;
    } else {
      ChainSplits(first, second[..last]);
      MergeAssociativeIff(MergeChain(first), MergeChain(second[..last]), c);
    }
  }

  /** A chain in which no stack after the first removes a scheduler key can be merged in any
      bracketing. */
  lemma {:induction false} AnyBracketing(t: Bracketing)
    requires forall i :: 1 <= i < |Leaves(t)| ==> KeepsKeys(Leaves(t)[i])
    ensures Evaluate(t) == MergeChain(Leaves(t))
    ensures Leaves(t) != []
  {
    match t
    case Leaf(apps) => assert [apps][..0] == [] && MergeApps(map[], apps) == apps;
    case Node(l, r) =>
      assert forall i :: 0 <= i < |Leaves(l)| ==> Leaves(l)[i] == Leaves(t)[i];
      assert forall i :: 0 <= i < |Leaves(r)| ==> Leaves(r)[i] == Leaves(t)[|Leaves(l)| + i];
      AnyBracketing(l);
      assert forall i :: 0 <= i < |Leaves(r)| ==> KeepsKeys(Leaves(r)[i]);
      AnyBracketing(r);
      ChainSplits(Leaves(l), Leaves(r));
  }
}
