/** The run-once runner as mutable objects. Each method is proved to take the step that
    `RunOnceContexts` and `RunOnceRunners` define. */
module RunOnceObjects {
  import opened Constraints
  import opened TaskIds
  import opened RunOnceContexts
  import opened RunOnceRunners

  datatype Decline = Accepted | AllStaged | NoAttribute(name: string) | Mismatch(name: string) | NoCpus | NoMem

  /** Whether the code panics, ignores an update or takes it. */
  datatype Consumed = Panicked | Ignored | Taken

  class ApplicationContext {
    const app: Application
    ghost const wanted: nat
    var instancesLeftToRun: int
    var tasks: seq<Task>
    var sent: seq<Verdict>

    ghost function View(): Context
      reads this
    {
      Context(app, wanted, instancesLeftToRun, tasks, sent)
    }

    constructor (app: Application, instances: nat)
      ensures View() == NewContext(app, instances)
    {
      this.app, wanted := app, instances;
      instancesLeftToRun, tasks, sent := instances, [], [];
    }

    method OtherTasksAttributes(name: string) returns (attributes: seq<string>)
      ensures attributes == OtherValues(tasks, name)
    {
      attributes := [];
      for i := 0 to |tasks|
        invariant attributes == OtherValues(tasks[..i], name)
      {
        var task := tasks[i];
        assert tasks[..i + 1][..i] == tasks[..i];
        if !task.state.Starting? {
          var value := Value(task.attributes, name);
          if value != "" {
            attributes := attributes + [value];
          }
        }
      }
      assert tasks[..|tasks|] == tasks;
    }

    /** Checks every rule, attribute by attribute in any order, up to the first that fails. */
    method CheckConstraints(offer: Offer) returns (reason: Decline)
      ensures reason.Accepted? || reason.NoAttribute? || reason.Mismatch?
      ensures reason.Accepted? <==> MeetsRules(app, tasks, OfferValues(offer.hostname, offer.attributes))
      ensures reason.NoAttribute? ==>
        reason.name in app.rules && reason.name !in OfferValues(offer.hostname, offer.attributes)
      ensures reason.Mismatch? ==>
        var values := OfferValues(offer.hostname, offer.attributes);
        && reason.name in app.rules && reason.name in values
        && exists rule :: rule in app.rules[reason.name]
             && !Constraints.Matches(rule, values[reason.name], OtherValues(tasks, reason.name))
    {
      var values := OfferAttributes(offer);
      var todo := app.rules.Keys;
      while todo != {}
        invariant todo <= app.rules.Keys
        invariant forall name, rule :: name in app.rules && name !in todo && rule in app.rules[name] ==>
          MeetsRule(tasks, values, name, rule)
      {
        var name :| name in todo;
        todo := todo - {name};
        for i := 0 to |app.rules[name]|
          invariant forall j :: 0 <= j < i ==> MeetsRule(tasks, values, name, app.rules[name][j])
        {
          assert app.rules[name][i] in app.rules[name];
          if name !in values {
            assert !MeetsRule(tasks, values, name, app.rules[name][i]);
            return NoAttribute(name);
          }
          var others := OtherTasksAttributes(name);
          var ok := CheckConstraint(app.rules[name][i], values[name], others);
          if !ok {
            assert !MeetsRule(tasks, values, name, app.rules[name][i]);
            return Mismatch(name);
          }
        }
      }
      return Accepted;
    }

    method Matches(offer: Offer) returns (reason: Decline)
      ensures reason.Accepted? <==> Accepts(View(), offer)
      ensures reason.Accepted? <==>
        && instancesLeftToRun != 0 && MeetsRules(app, tasks, OfferValues(offer.hostname, offer.attributes))
        && app.cpu <= offer.cpus && app.mem <= offer.mem
      ensures reason.AllStaged? <==> instancesLeftToRun == 0
      ensures reason.NoAttribute? || reason.Mismatch? <==>
        instancesLeftToRun != 0 && !MeetsRules(app, tasks, OfferValues(offer.hostname, offer.attributes))
      ensures reason.NoCpus? <==>
        && instancesLeftToRun != 0 && MeetsRules(app, tasks, OfferValues(offer.hostname, offer.attributes))
        && app.cpu > offer.cpus
      ensures reason.NoMem? <==>
        && instancesLeftToRun != 0 && MeetsRules(app, tasks, OfferValues(offer.hostname, offer.attributes))
        && app.cpu <= offer.cpus && app.mem > offer.mem
    {
      if instancesLeftToRun == 0 {
        return AllStaged;
      }
      reason := CheckConstraints(offer);
      if !reason.Accepted? {
        return;
      }
      if app.cpu > offer.cpus {
        return NoCpus;
      }
      if app.mem > offer.mem {
        return NoMem;
      }
    }

    method LaunchTask(offer: Offer, uuid: string)
      modifies this`instancesLeftToRun, this`tasks
      ensures View() == Launch(old(View()), offer, uuid)
      ensures instancesLeftToRun == old(instancesLeftToRun) - 1
      ensures tasks == old(tasks) +
        [Task(Staging, OfferValues(offer.hostname, offer.attributes), TaskId(app.id, offer.hostname, uuid))]
    {
      instancesLeftToRun := instancesLeftToRun - 1;
      var values := OfferAttributes(offer);
      tasks := tasks + [Task(Staging, values, TaskId(app.id, offer.hostname, uuid))];
    }

    method AllTasksFinished() returns (r: bool)
      ensures r <==> AllDone(View())
      ensures r <==>
        instancesLeftToRun == 0 && forall i :: 0 <= i < |tasks| ==> tasks[i].state in {Finished, Killed}
    {
      if instancesLeftToRun != 0 {
        return false;
      }
      for i := 0 to |tasks|
        invariant forall j :: 0 <= j < i ==> Done(tasks[j].state) && tasks[j].state in {Finished, Killed}
      {
        if tasks[i].state != Finished && tasks[i].state != Killed {
          return false;
        }
      }
      return true;
    }

    method UpdateTaskState(taskId: string, state: TaskState)
      modifies this`tasks
      ensures tasks == SetState(old(tasks), taskId, state)
    {
      for i := 0 to |tasks|
        invariant tasks == old(tasks)
        invariant forall j :: 0 <= j < i ==> tasks[j].taskId != taskId
      {
        if tasks[i].taskId == taskId {
          SetStateHitsFirst(tasks, taskId, state, i);
          tasks := tasks[i := tasks[i].(state := state)];
          return;
        }
      }
      SetStateHitsFirst(tasks, taskId, state, |tasks|);
    }

    /** `Taken` with a grown `sent` is the code's `true`: the context is finished with. */
    method StatusUpdate(taskId: string, state: TaskState) returns (reported: bool, r: Consumed)
      modifies this`tasks, this`sent
      ensures HostnameOf(taskId).Panics? ==> r.Panicked? && !reported && View() == old(View())
      ensures HostnameOf(taskId).Found? ==>
        && r.Taken?
        && View() == Update(old(View()), taskId, HostnameOf(taskId).text, state)
        && reported == Reports(old(View()), taskId, state)
      ensures HostnameOf(taskId).Found? ==>
        && tasks == SetState(old(tasks), taskId, state)
        && sent == old(sent) +
             (if state in {Lost, Failed, Error} then [FailedOn(HostnameOf(taskId).text)]
              else if state in {Finished, Killed} && instancesLeftToRun == 0
                && (forall i :: 0 <= i < |tasks| ==> tasks[i].state in {Finished, Killed}) then [Succeeded]
              else [])
        && (reported <==> |sent| > |old(sent)|)
    {
      var hostname := HostnameOf(taskId);
      if hostname.Panics? {
        return false, Panicked;
      }
      UpdateTaskState(taskId, state);
      r := Taken;
      match state
      case Lost | Failed | Error =>
        sent := sent + [FailedOn(hostname.text)];
        reported := true;
      case Finished | Killed =>
        reported := AllTasksFinished();
        if reported {
          sent := sent + [Succeeded];
        }
      case _ =>
        reported := false;
    }
  }

  lemma UpdateResult(s: System, taskId: string, state: TaskState, id: string, c: Context, reported: bool)
    requires ApplicationOf(taskId) == Found(id) && id in s.registered
    requires HostnameOf(taskId).Panics? ==> !reported && c == s.registered[id]
    requires HostnameOf(taskId).Found? ==>
      && c == Update(s.registered[id], taskId, HostnameOf(taskId).text, state)
      && reported == Reports(s.registered[id], taskId, state)
    ensures AfterUpdate(s, taskId, state) ==
      if reported then System(s.registered - {id}, s.retired + [c])
      else System(s.registered[id := c], s.retired)
  {}

  class Runner {
    var applications: map<string, ApplicationContext>
    ghost var retired: seq<Context>

    /** No context is registered under two IDs. */
    ghost predicate Valid()
      reads this
    {
      forall a, b :: a in applications && b in applications && applications[a] == applications[b] ==> a == b
    }

    ghost function View(): System
      reads this, applications.Values
    {
      System(map id | id in applications :: applications[id].View(), retired)
    }

    constructor ()
      ensures Valid() && View() == System(map[], [])
    {
      applications, retired := map[], [];
    }

    method StageApplication(app: Application, instances: nat)
      requires Valid()
      modifies this
      ensures Valid() && Step(old(View()), Stage(app, instances), View())
    {
      if instances == 0 {
        return;
      }
      var ctx := new ApplicationContext(app, instances);
      if app.id in applications {
        retired := retired + [applications[app.id].View()];
      }
      applications := applications[app.id := ctx];
      assert View().registered == old(View()).registered[app.id := NewContext(app, instances)];
    }

    /** Asks the contexts in any order; the first that accepts launches a task. */
    method ResourceOffer(offer: Offer, uuid: string) returns (launched: bool)
      requires Valid()
      modifies applications.Values
      ensures applications == old(applications) && retired == old(retired)
      ensures Step(old(View()), Offered(offer, uuid), View())
      ensures launched <==> exists id :: id in old(View()).registered && Accepts(old(View()).registered[id], offer)
    {
      ghost var before := View();
      var todo := applications.Keys;
      while todo != {}
        invariant todo <= applications.Keys && View() == before
        invariant applications == old(applications)
        invariant forall id :: id in before.registered && id !in todo ==> !Accepts(before.registered[id], offer)
      {
        var id :| id in todo;
        todo := todo - {id};
        var reason := applications[id].Matches(offer);
        assert before.registered[id] == applications[id].View();
        if reason.Accepted? {
          assert applications[id] in applications.Values;
          applications[id].LaunchTask(offer, uuid);
          assert TakesOffer(before, id, offer, uuid, View());
          return true;
        }
      }
      return false;
    }

    method StatusUpdate(taskId: string, state: TaskState) returns (r: Consumed)
      requires Valid()
      modifies this, applications.Values
      ensures Valid() && Step(old(View()), Updated(taskId, state), View())
      ensures r.Ignored? <==> ApplicationOf(taskId).Found? && ApplicationOf(taskId).text !in old(applications)
      ensures r.Panicked? <==>
        (ApplicationOf(taskId).Panics? ||
          (ApplicationOf(taskId).text in old(applications) && HostnameOf(taskId).Panics?))
    {
      var id := ApplicationOf(taskId);
      if id.Panics? {
        return Panicked;
      }
      if id.text !in applications {
        return Ignored;
      }
      r := Deliver(id.text, taskId, state);
    }

    method Unregister(id: string)
      requires Valid() && id in applications
      modifies this
      ensures Valid()
      ensures View() == System(old(View()).registered - {id}, old(View()).retired + [old(View()).registered[id]])
    {
      retired := retired + [applications[id].View()];
      applications := applications - {id};
    }

    /** Hands an update to the context registered under `id` and drops it once it has reported. */
    method Deliver(id: string, taskId: string, state: TaskState) returns (r: Consumed)
      requires Valid() && ApplicationOf(taskId) == Found(id) && id in applications
      modifies this, applications.Values
      ensures Valid() && View() == AfterUpdate(old(View()), taskId, state) && !r.Ignored?
      ensures r.Panicked? <==> HostnameOf(taskId).Panics?
    {
      ghost var before := View();
      var ctx := applications[id];
      assert ctx in applications.Values;
      var reported;
      reported, r := ctx.StatusUpdate(taskId, state);
      UpdateResult(before, taskId, state, id, ctx.View(), reported);
      assert forall x :: x in applications && x != id ==> applications[x].View() == before.registered[x];
      assert View() == System(before.registered[id := ctx.View()], before.retired);
      if reported {
        assert before.registered[id := ctx.View()] - {id} == before.registered - {id};
        Unregister(id);
      }
    }
  }
}
