/** `instances: all`: how many slaves the constraints let an application run on, and why
    resource offers from those slaves place exactly that many tasks. */
module AllInstances {
  import opened TaskIds
  import opened RunOnceRunners
  import opened Constraints
  import opened RunOnceContexts
  import opened RunOncePlacement

  datatype Slave = Slave(hostname: string, attributes: map<string, string>)

  function SlaveValue(slave: Slave, name: string): string {
    if name == "hostname" then slave.hostname else Value(slave.attributes, name)
  }

  function OtherSlavesValues(slaves: seq<Slave>, name: string): seq<string> {
    if slaves == [] then []
    else
      var value := SlaveValue(slaves[|slaves| - 1], name);
      var rest := OtherSlavesValues(slaves[..|slaves| - 1], name);
      if value != "" then rest + [value] else rest
  }

  predicate SlaveMatches(rules: Rules, slave: Slave, others: seq<Slave>) {
    forall name :: name in rules ==>
      && SlaveValue(slave, name) != ""
      && forall rule :: rule in rules[name] ==>
           Matches(rule, SlaveValue(slave, name), OtherSlavesValues(others, name))
  }

  /** The slaves picked one by one, each compared with those picked before it. */
  function Picked(rules: Rules, slaves: seq<Slave>): (picked: seq<Slave>)
    ensures |picked| <= |slaves|
  {
    if slaves == [] then []
    else
      var last := slaves[|slaves| - 1];
      var rest := Picked(rules, slaves[..|slaves| - 1]);
      if SlaveMatches(rules, last, rest) then rest + [last] else rest
  }

  /* ---- The loops ---- */

  method OtherSlavesAttributes(slaves: seq<Slave>, name: string) returns (attributes: seq<string>)
    ensures attributes == OtherSlavesValues(slaves, name)
  {
    attributes := [];
    for i := 0 to |slaves|
      invariant attributes == OtherSlavesValues(slaves[..i], name)
    {
      assert slaves[..i + 1][..i] == slaves[..i];
      var attribute := SlaveValue(slaves[i], name);
      if attribute != "" {
        attributes := attributes + [attribute];
      }
    }
    assert slaves[..|slaves|] == slaves;
  }

  method CheckSlave(rules: Rules, slave: Slave, others: seq<Slave>) returns (r: bool)
    ensures r <==> SlaveMatches(rules, slave, others)
  {
    var todo := rules.Keys;
    while todo != {}
      invariant todo <= rules.Keys
      invariant forall name :: name in rules && name !in todo ==>
        && SlaveValue(slave, name) != ""
        && forall rule :: rule in rules[name] ==>
             Matches(rule, SlaveValue(slave, name), OtherSlavesValues(others, name))
    {
      var name :| name in todo;
      todo := todo - {name};
      var value := SlaveValue(slave, name);
      if value == "" {
        return false;
      }
      for i := 0 to |rules[name]|
        invariant forall j :: 0 <= j < i ==> Matches(rules[name][j], value, OtherSlavesValues(others, name))
      {
        assert rules[name][i] in rules[name];
        var values := OtherSlavesAttributes(others, name);
        var ok := CheckConstraint(rules[name][i], value, values);
        if !ok {
          return false;
        }
      }
    }
    return true;
  }

  method CalculateAllInstances(rules: Rules, slaves: seq<Slave>, activated: nat) returns (n: nat)
    ensures n == if rules == map[] then activated else |Picked(rules, slaves)|
  {
    if |rules| == 0 {
      return activated;
    }
    var matching: seq<Slave> := [];
    for i := 0 to |slaves|
      invariant matching == Picked(rules, slaves[..i])
    {
      assert slaves[..i + 1][..i] == slaves[..i];
      var ok := CheckSlave(rules, slaves[i], matching);
      if ok {
        matching := matching + [slaves[i]];
      }
    }
    assert slaves[..|slaves|] == slaves;
    return |matching|;
  }

  /* ---- Agreement with the offer-side check ---- */

  /** Parsing never leaves an attribute without constraints. */
  ghost predicate Parsed(rules: Rules) {
    rules != map[] && forall name :: name in rules ==> rules[name] != []
  }

  /** An offer that shows the slave as it is and is large enough for the application. */
  ghost predicate Shows(offer: Offer, slave: Slave, app: Application) {
    && offer.hostname == slave.hostname && slave.hostname != ""
    && "hostname" !in slave.attributes
    && (forall i :: 0 <= i < |offer.attributes| ==>
          && offer.attributes[i].name in slave.attributes
          && slave.attributes[offer.attributes[i].name] == offer.attributes[i].text)
    && (forall name :: name in slave.attributes ==> Attribute(name, slave.attributes[name]) in offer.attributes)
    && app.cpu <= offer.cpus && app.mem <= offer.mem
  }

  lemma {:induction false} ListedValues(hostname: string, attributes: seq<Attribute>, slave: Slave, name: string)
    requires forall i :: 0 <= i < |attributes| ==>
      && attributes[i].name in slave.attributes
      && slave.attributes[attributes[i].name] == attributes[i].text
    requires "hostname" !in slave.attributes
    ensures name == "hostname" ==> OfferValues(hostname, attributes)[name] == hostname
    ensures name != "hostname" ==>
      (name in OfferValues(hostname, attributes) <==>
        exists a :: a in attributes && a.name == name && a.text != "")
    ensures name != "hostname" && name in OfferValues(hostname, attributes) ==>
      name in slave.attributes && OfferValues(hostname, attributes)[name] == slave.attributes[name]
  {
    if attributes != [] {
      var last := |attributes| - 1;
      ListedValues(hostname, attributes[..last], slave, name);
      assert attributes == attributes[..last] + [attributes[last]];
    }
  }

  lemma {:induction false} OfferShowsValue(offer: Offer, slave: Slave, app: Application, name: string)
    requires Shows(offer, slave, app)
    ensures var values := OfferValues(offer.hostname, offer.attributes);
      && Value(values, name) == SlaveValue(slave, name)
      && (name in values <==> SlaveValue(slave, name) != "")
  {
    ListedValues(offer.hostname, offer.attributes, slave, name);
    if name in slave.attributes {
      assert Attribute(name, slave.attributes[name]) in offer.attributes;
    }
  }

  /** The tasks launched so far run on the slaves picked so far, in that order. */
  ghost predicate RunsOn(tasks: seq<Task>, slaves: seq<Slave>) {
    && |tasks| == |slaves|
    && (forall i, name :: 0 <= i < |tasks| ==> Value(tasks[i].attributes, name) == SlaveValue(slaves[i], name))
  }

  lemma {:induction false} SameComparisons(tasks: seq<Task>, slaves: seq<Slave>, name: string)
    requires RunsOn(tasks, slaves) && NoneStarting(tasks)
    ensures OtherValues(tasks, name) == OtherSlavesValues(slaves, name)
  {
    if tasks != [] {
      SameComparisons(tasks[..|tasks| - 1], slaves[..|slaves| - 1], name);
    }
  }

  /** The slave-side and the offer-side checks give the same answer. */
  lemma {:induction false} ChecksAgree(app: Application, offer: Offer, slave: Slave, tasks: seq<Task>, slaves: seq<Slave>)
    requires Parsed(app.rules) && Shows(offer, slave, app) && RunsOn(tasks, slaves) && NoneStarting(tasks)
    ensures MeetsRules(app, tasks, OfferValues(offer.hostname, offer.attributes))
      <==> SlaveMatches(app.rules, slave, slaves)
  {
    var values := OfferValues(offer.hostname, offer.attributes);
    forall name, rule | name in app.rules && rule in app.rules[name]
      ensures MeetsRule(tasks, values, name, rule) <==>
        SlaveValue(slave, name) != "" && Matches(rule, SlaveValue(slave, name), OtherSlavesValues(slaves, name))
    {
      OfferShowsValue(offer, slave, app, name);
      SameComparisons(tasks, slaves, name);
    }
    forall name | name in app.rules ensures app.rules[name][0] in app.rules[name] {}
  }

  /* ---- One offer per slave ---- */

  function OffersIn(events: seq<Event>): seq<Offer> {
    if events == [] then []
    else
      var rest := OffersIn(events[..|events| - 1]);
      if events[|events| - 1].Offered? then rest + [events[|events| - 1].offer] else rest
  }

  /** Only offers and updates that do no harm. */
  predicate Quiet(e: Event) {
    !e.Stage? && (e.Updated? ==> !e.state.Starting? && !Broken(e.state))
  }

  /** The offers show the slaves, one after the other. */
  ghost predicate ShowAll(offers: seq<Offer>, slaves: seq<Slave>, app: Application) {
    |offers| == |slaves| && forall i :: 0 <= i < |offers| ==> Shows(offers[i], slaves[i], app)
  }

  /** The context has a task on each slave picked so far, and the other instances are left. */
  ghost predicate OnTrack(app: Application, wanted: nat, c: Context, slaves: seq<Slave>) {
    && c.app == app
    && RunsOn(c.tasks, Picked(app.rules, slaves))
    && NoneStarting(c.tasks)
    && c.left == wanted - |c.tasks|
  }

  /** The runner holds just `c`, which has left only if nothing was left to launch. */
  ghost predicate HoldsOnly(s: System, c: Context) {
    s == System(map[c.app.id := c], []) || (s == System(map[], [c]) && c.left == 0)
  }

  lemma {:induction false} UpdateStaysOnTrack(app: Application, wanted: nat, c: Context, slaves: seq<Slave>,
                                              s: System, e: Event, t: System) returns (d: Context)
    requires OnTrack(app, wanted, c, slaves) && HoldsOnly(s, c)
    requires e.Updated? && Quiet(e) && Step(s, e, t)
    ensures OnTrack(app, wanted, d, slaves) && HoldsOnly(t, d)
  {
    var id, host := ApplicationOf(e.taskId), HostnameOf(e.taskId);
    d := c;
    if id == Found(app.id) && app.id in s.registered && host.Found? {
      d := Update(c, e.taskId, host.text, e.state);
      assert s.registered - {app.id} == map[];
      assert s.registered[app.id := d] == map[app.id := d];
    }
  }

  /** The pick that the launch on an accepted offer stands for. */
  lemma {:induction false} LaunchOnTrack(app: Application, wanted: nat, c: Context, slaves: seq<Slave>,
                                         offer: Offer, uuid: string, slave: Slave)
    requires OnTrack(app, wanted, c, slaves) && Shows(offer, slave, app)
    requires Picked(app.rules, slaves + [slave]) == Picked(app.rules, slaves) + [slave]
    ensures OnTrack(app, wanted, Launch(c, offer, uuid), slaves + [slave])
  {
    forall name ensures Value(NewTask(app, offer, uuid).attributes, name) == SlaveValue(slave, name) {
      OfferShowsValue(offer, slave, app, name);
    }
  }

  lemma PickedOneMore(rules: Rules, slaves: seq<Slave>, slave: Slave)
    ensures Picked(rules, slaves + [slave]) ==
      Picked(rules, slaves) + if SlaveMatches(rules, slave, Picked(rules, slaves)) then [slave] else []
  {
    assert (slaves + [slave])[..|slaves|] == slaves;
  }

  /** On track, the context takes an offer exactly when its slave is picked. */
  lemma {:induction false} TakesExactlyPicked(app: Application, wanted: nat, c: Context, slaves: seq<Slave>,
                                              offer: Offer, slave: Slave)
    requires Parsed(app.rules) && OnTrack(app, wanted, c, slaves) && Shows(offer, slave, app)
    requires |Picked(app.rules, slaves + [slave])| <= wanted
    ensures Accepts(c, offer) <==> SlaveMatches(app.rules, slave, Picked(app.rules, slaves))
  {
    ChecksAgree(app, offer, slave, c.tasks, Picked(app.rules, slaves));
    PickedOneMore(app.rules, slaves, slave);
  }

  lemma {:induction false} OfferStaysOnTrack(app: Application, wanted: nat, c: Context, slaves: seq<Slave>, slave: Slave,
                                             s: System, e: Event, t: System) returns (d: Context)
    requires Parsed(app.rules) && OnTrack(app, wanted, c, slaves) && HoldsOnly(s, c)
    requires e.Offered? && Shows(e.offer, slave, app) && Step(s, e, t)
    requires |Picked(app.rules, slaves + [slave])| <= wanted
    ensures OnTrack(app, wanted, d, slaves + [slave]) && HoldsOnly(t, d)
  {
    TakesExactlyPicked(app, wanted, c, slaves, e.offer, slave);
    PickedOneMore(app.rules, slaves, slave);
    if Accepts(c, e.offer) {
      d := Launch(c, e.offer, e.uuid);
      LaunchOnTrack(app, wanted, c, slaves, e.offer, e.uuid, slave);
      assert app.id in s.registered && Accepts(s.registered[app.id], e.offer);
      assert map[app.id := c][app.id := d] == map[app.id := d];
    } else {
      d := c;
    }
  }

  lemma {:induction false} PickedGrows(rules: Rules, slaves: seq<Slave>, n: nat)
    requires n <= |slaves|
    ensures |Picked(rules, slaves[..n])| <= |Picked(rules, slaves)|
  {
    if n < |slaves| {
      PickedGrows(rules, slaves[..|slaves| - 1], n);
      assert slaves[..|slaves| - 1][..n] == slaves[..n];
    } else {
      assert slaves[..n] == slaves;
    }
  }

  lemma {:induction false} StaysOnTrack(app: Application, wanted: nat, slaves: seq<Slave>,
                                        events: seq<Event>, s: System) returns (c: Context)
    requires Parsed(app.rules) && wanted > 0 && Reaches([Stage(app, wanted)] + events, s)
    requires (forall e :: e in events ==> Quiet(e)) && ShowAll(OffersIn(events), slaves, app)
    requires |Picked(app.rules, slaves)| <= wanted
    ensures OnTrack(app, wanted, c, slaves) && HoldsOnly(s, c)
    decreases |events|
  {
    var all := [Stage(app, wanted)] + events;
    var p :| Leads(all, p, s);
    if events == [] {
      assert all == [Stage(app, wanted)] && all[..|all| - 1] == [];
      assert Reaches([], p);
      c := NewContext(app, wanted);
      assert p.registered[app.id := c] == map[app.id := c];
      assert Picked(app.rules, slaves) == [];
    } else {
      var before, e := events[..|events| - 1], events[|events| - 1];
      assert all[..|all| - 1] == [Stage(app, wanted)] + before && all[|all| - 1] == e;
      assert e in events;
      if e.Offered? {
        var n := |slaves| - 1;
        assert slaves == slaves[..n] + [slaves[n]];
        PickedGrows(app.rules, slaves, n);
        c := StaysOnTrack(app, wanted, slaves[..n], before, p);
        c := OfferStaysOnTrack(app, wanted, c, slaves[..n], slaves[n], p, e, s);
      } else {
        c := StaysOnTrack(app, wanted, slaves, before, p);
        c := UpdateStaysOnTrack(app, wanted, c, slaves, p, e, s);
      }
    }
  }

  /** Stage an application with `instances: all` on a fresh runner and offer every slave once,
      in the order of the slave list, with any harmless status updates in between: tasks are
      launched on exactly the slaves that were counted, and no instance is left over. */
  lemma {:induction false} AllAgreesWithPlacement(app: Application, slaves: seq<Slave>, events: seq<Event>, s: System)
    returns (c: Context)
    requires Parsed(app.rules) && Picked(app.rules, slaves) != []
    requires Reaches([Stage(app, |Picked(app.rules, slaves)|)] + events, s)
    requires (forall e :: e in events ==> Quiet(e)) && ShowAll(OffersIn(events), slaves, app)
    ensures HoldsOnly(s, c) && c.app == app && c.left == 0 && RunsOn(c.tasks, Picked(app.rules, slaves))
  {
    c := StaysOnTrack(app, |Picked(app.rules, slaves)|, slaves, events, s);
  }

  /** If no slave was counted, nothing is ever registered. */
  lemma {:induction false} NoneCountedNoneStaged(app: Application, events: seq<Event>, s: System)
    requires Reaches([Stage(app, 0)] + events, s) && forall e :: e in events ==> !e.Stage?
    ensures s == System(map[], [])
    decreases |events|
  {
    var all := [Stage(app, 0)] + events;
    var p :| Leads(all, p, s);
    if events == [] {
      assert all == [Stage(app, 0)] && all[..|all| - 1] == [];
      assert Reaches([], p);
    } else {
      var before := events[..|events| - 1];
      assert all[..|all| - 1] == [Stage(app, 0)] + before && all[|all| - 1] == events[|events| - 1];
      NoneCountedNoneStaged(app, before, p);
    }
  }

  /* ---- Exact count for UNIQUE ---- */

  /** Rules whose answer does not depend on the slaves picked before. */
  predicate Stateless(rule: Constraint) {
    rule.Like? || rule.Unlike? || (rule.Cluster? && rule.value != "")
  }

  /** UNIQUE on one attribute, and only stateless rules otherwise. */
  ghost predicate UniqueOn(rules: Rules, attribute: string) {
    && attribute in rules && Unique in rules[attribute]
    && (forall name, rule :: name in rules && rule in rules[name] ==>
          Stateless(rule) || (name == attribute && rule == Unique))
  }

  predicate Qualifies(rules: Rules, slave: Slave) {
    forall name :: name in rules ==>
      && SlaveValue(slave, name) != ""
      && forall rule :: rule in rules[name] && Stateless(rule) ==> Matches(rule, SlaveValue(slave, name), [])
  }

  function QualifiedValues(rules: Rules, slaves: seq<Slave>, attribute: string): set<string> {
    set i | 0 <= i < |slaves| && Qualifies(rules, slaves[i]) :: SlaveValue(slaves[i], attribute)
  }

  lemma UniqueDecides(rules: Rules, attribute: string, slave: Slave, others: seq<Slave>)
    requires UniqueOn(rules, attribute)
    ensures SlaveMatches(rules, slave, others) <==>
      Qualifies(rules, slave) && SlaveValue(slave, attribute) !in OtherSlavesValues(others, attribute)
  {
    forall name, rule | name in rules && rule in rules[name]
      ensures Matches(rule, SlaveValue(slave, name), OtherSlavesValues(others, name)) <==>
        if Stateless(rule) then Matches(rule, SlaveValue(slave, name), [])
        else name == attribute && SlaveValue(slave, attribute) !in OtherSlavesValues(others, attribute)
    {
      assert Stateless(rule) || (name == attribute && rule == Unique);
    }
    if SlaveMatches(rules, slave, others) {
      assert Matches(Unique, SlaveValue(slave, attribute), OtherSlavesValues(others, attribute));
    }
  }

  /** The values of the picked slaves are distinct and are those of the qualified slaves. */
  ghost predicate ValuesPicked(rules: Rules, attribute: string, slaves: seq<Slave>) {
    var values := OtherSlavesValues(Picked(rules, slaves), attribute);
    && Distinct(values) == QualifiedValues(rules, slaves, attribute)
    && |values| == |Picked(rules, slaves)| == |Distinct(values)|
  }

  lemma {:induction false} PickedValues(rules: Rules, attribute: string, slaves: seq<Slave>)
    requires UniqueOn(rules, attribute)
    ensures ValuesPicked(rules, attribute, slaves)
  {
    if slaves == [] {
      assert QualifiedValues(rules, slaves, attribute) == {};
    } else {
      PickedValues(rules, attribute, slaves[..|slaves| - 1]);
      ValuesPickedStep(rules, attribute, slaves);
    }
  }

  lemma ValuesPickedStep(rules: Rules, attribute: string, slaves: seq<Slave>)
    requires UniqueOn(rules, attribute) && slaves != []
    requires ValuesPicked(rules, attribute, slaves[..|slaves| - 1])
    ensures ValuesPicked(rules, attribute, slaves)
  {
    var before, slave := slaves[..|slaves| - 1], slaves[|slaves| - 1];
    UniqueDecides(rules, attribute, slave, Picked(rules, before));
    ValuesPickedOneMore(rules, attribute, slaves,
                        SlaveMatches(rules, slave, Picked(rules, before)), Qualifies(rules, slave));
  }

  lemma ValuesPickedOneMore(rules: Rules, attribute: string, slaves: seq<Slave>, matches: bool, qualifies: bool)
    requires slaves != [] && ValuesPicked(rules, attribute, slaves[..|slaves| - 1])
    requires var picked, slave := Picked(rules, slaves[..|slaves| - 1]), slaves[|slaves| - 1];
      && Picked(rules, slaves) == (if matches then picked + [slave] else picked)
      && qualifies == Qualifies(rules, slave)
      && (qualifies ==> SlaveValue(slave, attribute) != "")
      && (matches <==> qualifies && SlaveValue(slave, attribute) !in OtherSlavesValues(picked, attribute))
    ensures ValuesPicked(rules, attribute, slaves)
  {
    QualifiedValuesOneMore(rules, slaves, attribute);
    PickOneMore(Picked(rules, slaves[..|slaves| - 1]), slaves[|slaves| - 1], attribute);
  }

  lemma PickOneMore(picked: seq<Slave>, slave: Slave, attribute: string)
    ensures var value, values := SlaveValue(slave, attribute), OtherSlavesValues(picked, attribute);
      var values' := OtherSlavesValues(picked + [slave], attribute);
      value != "" ==>
        && values' == values + [value]
        && Distinct(values') == Distinct(values) + {value}
        && (value in Distinct(values) <==> value in values)
  {}

  lemma QualifiedValuesOneMore(rules: Rules, slaves: seq<Slave>, attribute: string)
    requires slaves != []
    ensures var before, slave := slaves[..|slaves| - 1], slaves[|slaves| - 1];
      QualifiedValues(rules, slaves, attribute) == QualifiedValues(rules, before, attribute) +
        if Qualifies(rules, slave) then {SlaveValue(slave, attribute)} else {}
  {}

  /** With UNIQUE on one attribute the greedy count is the number of its distinct values
      among the slaves that pass the other rules. */
  lemma {:induction false} UniqueCountIsExact(rules: Rules, attribute: string, slaves: seq<Slave>)
    requires UniqueOn(rules, attribute)
    ensures |Picked(rules, slaves)| == |QualifiedValues(rules, slaves, attribute)|
  {
    PickedValues(rules, attribute, slaves);
  }

  /** So the order of the slave list does not matter. */
  lemma {:induction false} UniqueCountIgnoresOrder(
    rules: Rules, attribute: string, slaves: seq<Slave>, permuted: seq<Slave>)
    requires UniqueOn(rules, attribute) && multiset(slaves) == multiset(permuted)
    ensures |Picked(rules, slaves)| == |Picked(rules, permuted)|
  {
    assert QualifiedValues(rules, slaves, attribute) == QualifiedValues(rules, permuted, attribute) by {
      SameMembersSameValues(rules, attribute, slaves, permuted);
      SameMembersSameValues(rules, attribute, permuted, slaves);
    }
    UniqueCountIsExact(rules, attribute, slaves);
    UniqueCountIsExact(rules, attribute, permuted);
  }

  lemma SameMembersSameValues(rules: Rules, attribute: string, slaves: seq<Slave>, others: seq<Slave>)
    requires multiset(slaves) == multiset(others)
    ensures QualifiedValues(rules, slaves, attribute) <= QualifiedValues(rules, others, attribute)
  {
    forall i | 0 <= i < |slaves| && Qualifies(rules, slaves[i])
      ensures SlaveValue(slaves[i], attribute) in QualifiedValues(rules, others, attribute)
    {
      assert slaves[i] in multiset(others);
      var j :| 0 <= j < |others| && others[j] == slaves[i];
    }
  }
}
