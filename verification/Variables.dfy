/** Deployment variables in three tiers, and what saving and reloading them keeps. */
module Variables {
  import opened Faults

  type Tier = map<string, string>

  datatype Lookup = Present(value: string) | Absent

  /** Stack variables win over arbitrary ones, and those over global ones. */
  datatype Tiers = Tiers(stack: Tier, arbitrary: Tier, global: Tier)

  function Get(v: Tiers, key: string): Lookup {
    if key in v.stack then Present(v.stack[key])
    else if key in v.arbitrary then Present(v.arbitrary[key])
    else if key in v.global then Present(v.global[key])
    else Absent
  }

  /** What the three overwriting loops of `All` build. */
  function All(v: Tiers): Tier {
    v.global + v.arbitrary + v.stack
  }

  function InMap(m: Tier, key: string): Lookup {
    if key in m then Present(m[key]) else Absent
  }

  /** `Get` and `All` agree on every key. */
  lemma AllAgreesWithGet(v: Tiers, key: string)
    ensures InMap(All(v), key) == Get(v, key)
  {}

  /* ---- The stack_variables table ---- */

  datatype Kind = GlobalKind | ArbitraryKind | StackKind

  /** Primary key: stack, zone and variable key, but not the tier. */
  datatype RowKey = RowKey(stack: string, zone: string, key: string)

  datatype Row = Row(value: string, kind: Kind)

  type Table = map<RowKey, Row>

  /** Rows of one tier as an INSERT loop leaves them, whatever its order. */
  function TierRows(stack: string, zone: string, kind: Kind, tier: Tier): Table {
    map r: RowKey | r in RowKeys(stack, zone, tier.Keys) :: Row(tier[r.key], kind)
  }

  function RowKeys(stack: string, zone: string, keys: set<string>): (r: set<RowKey>)
    ensures forall k :: k in r <==> k.stack == stack && k.zone == zone && k.key in keys
  {
    set k | k in keys :: RowKey(stack, zone, k)
  }

  /** Saving goes tier by tier, so the most specific tier of a key is written last. */
  function Save(t: Table, stack: string, zone: string, v: Tiers): Table {
    t + TierRows(stack, zone, GlobalKind, v.global)
      + TierRows(stack, zone, ArbitraryKind, v.arbitrary)
      + TierRows(stack, zone, StackKind, v.stack)
  }

  function KeysOfKind(t: Table, stack: string, zone: string, kind: Kind): set<string> {
    set r | r in t && r.stack == stack && r.zone == zone && t[r].kind == kind :: r.key
  }

  function LoadTier(t: Table, stack: string, zone: string, kind: Kind): Tier {
    map k | k in KeysOfKind(t, stack, zone, kind) :: t[RowKey(stack, zone, k)].value
  }

  function Load(t: Table, stack: string, zone: string): Tiers {
    Tiers(LoadTier(t, stack, zone, StackKind), LoadTier(t, stack, zone, ArbitraryKind),
          LoadTier(t, stack, zone, GlobalKind))
  }

  /** Loading answers each key from its one row. */
  lemma LoadAnswers(t: Table, stack: string, zone: string, key: string)
    ensures var r := RowKey(stack, zone, key);
      Get(Load(t, stack, zone), key) == if r in t then Present(t[r].value) else Absent
  {}

  /** Each key comes back in one tier only. */
  lemma LoadedTiersAreDisjoint(t: Table, stack: string, zone: string)
    ensures var v := Load(t, stack, zone);
      v.stack.Keys !! v.arbitrary.Keys && v.stack.Keys !! v.global.Keys && v.arbitrary.Keys !! v.global.Keys
  {}

  /* ---- Histories ---- */

  /** The table holds no key of this stack and zone that the object does not define. */
  ghost predicate Within(t: Table, stack: string, zone: string, v: Tiers) {
    forall r :: r in t && r.stack == stack && r.zone == zone ==> Get(v, r.key).Present?
  }

  lemma SavedRow(t: Table, stack: string, zone: string, v: Tiers, key: string)
    ensures var r, saved := RowKey(stack, zone, key), Save(t, stack, zone, v);
      match Get(v, key)
      case Present(value) => r in saved && saved[r].value == value
      case Absent => r in saved <==> r in t
  {
    var r := RowKey(stack, zone, key);
    assert r in TierRows(stack, zone, GlobalKind, v.global) <==> key in v.global;
    assert r in TierRows(stack, zone, ArbitraryKind, v.arbitrary) <==> key in v.arbitrary;
    assert r in TierRows(stack, zone, StackKind, v.stack) <==> key in v.stack;
  }

  /** A save that completes makes the table answer like the object, whatever earlier saves of
      fewer keys, complete or not, have left behind. */
  lemma {:induction false} SaveThenLoad(t: Table, stack: string, zone: string, v: Tiers, key: string)
    requires Within(t, stack, zone, v)
    ensures Get(Load(Save(t, stack, zone, v), stack, zone), key) == Get(v, key)
  {
    LoadAnswers(Save(t, stack, zone, v), stack, zone, key);
    SavedRow(t, stack, zone, v, key);
  }

  /** A complete save brings each key back in the most specific tier that had it, and in no other. */
  lemma {:induction false} SaveThenLoadTiers(t: Table, stack: string, zone: string, v: Tiers)
    requires Within(t, stack, zone, v)
    ensures var r := Load(Save(t, stack, zone, v), stack, zone);
      && r.stack == v.stack
      && r.arbitrary == v.arbitrary - v.stack.Keys
      && r.global == v.global - v.stack.Keys - v.arbitrary.Keys
  {
    var saved := Save(t, stack, zone, v);
    forall key
      ensures RowIs(saved, stack, zone, key, StackKind, v.stack)
      ensures RowIs(saved, stack, zone, key, ArbitraryKind, v.arbitrary - v.stack.Keys)
      ensures RowIs(saved, stack, zone, key, GlobalKind, v.global - v.stack.Keys - v.arbitrary.Keys)
    {
      SavedKind(t, stack, zone, v, key);
    }
    TierIs(saved, stack, zone, StackKind, v.stack);
    TierIs(saved, stack, zone, ArbitraryKind, v.arbitrary - v.stack.Keys);
    TierIs(saved, stack, zone, GlobalKind, v.global - v.stack.Keys - v.arbitrary.Keys);
  }

  /** The row of the key names this tier exactly when the tier has the key, and has its value. */
  ghost predicate RowIs(t: Table, stack: string, zone: string, key: string, kind: Kind, tier: Tier) {
    var r := RowKey(stack, zone, key);
    && (key in tier <==> r in t && t[r].kind == kind)
    && (key in tier ==> t[r].value == tier[key])
  }

  lemma TierIs(t: Table, stack: string, zone: string, kind: Kind, tier: Tier)
    requires forall key :: RowIs(t, stack, zone, key, kind, tier)
    ensures LoadTier(t, stack, zone, kind) == tier
  {
    forall key ensures key in LoadTier(t, stack, zone, kind) <==> key in tier {
      assert RowIs(t, stack, zone, key, kind, tier);
    }
    forall key | key in tier ensures LoadTier(t, stack, zone, kind)[key] == tier[key] {
      assert RowIs(t, stack, zone, key, kind, tier);
    }
  }

  /** Which tier the row of a key names. */
  lemma SavedKind(t: Table, stack: string, zone: string, v: Tiers, key: string)
    requires Within(t, stack, zone, v)
    ensures var r, saved := RowKey(stack, zone, key), Save(t, stack, zone, v);
      if key in v.stack then r in saved && saved[r] == Row(v.stack[key], StackKind)
      else if key in v.arbitrary then r in saved && saved[r] == Row(v.arbitrary[key], ArbitraryKind)
      else if key in v.global then r in saved && saved[r] == Row(v.global[key], GlobalKind)
      else r !in saved
  {
    var r := RowKey(stack, zone, key);
    assert r in TierRows(stack, zone, GlobalKind, v.global) <==> key in v.global;
    assert r in TierRows(stack, zone, ArbitraryKind, v.arbitrary) <==> key in v.arbitrary;
    assert r in TierRows(stack, zone, StackKind, v.stack) <==> key in v.stack;
  }

  datatype Operation =
    | SetStack(key: string, value: string)
    | SetArbitrary(key: string, value: string)
    | SetGlobal(key: string, value: string)
    | SaveAll
    | SaveSome(rows: Table)   // a save that the database broke off

  function Define(v: Tiers, op: Operation): Tiers {
    match op
    case SetStack(key, value) => v.(stack := v.stack[key := value])
    case SetArbitrary(key, value) => v.(arbitrary := v.arbitrary[key := value])
    case SetGlobal(key, value) => v.(global := v.global[key := value])
    case _ => v
  }

  /** Rows that a broken-off save of `v` may have written. */
  ghost predicate Fragment(rows: Table, stack: string, zone: string, v: Tiers) {
    forall r :: r in rows ==> r.stack == stack && r.zone == zone && Get(v, r.key).Present?
  }

  datatype World = World(vars: Tiers, table: Table)

  function Step(w: World, stack: string, zone: string, op: Operation): World {
    World(Define(w.vars, op),
          match op
          case SaveAll => Save(w.table, stack, zone, w.vars)
          case SaveSome(rows) => w.table + rows
          case _ => w.table)
  }

  /** Starts with an object without variables and a table of other stacks' rows. */
  function After(start: Table, stack: string, zone: string, ops: seq<Operation>): World {
    if ops == [] then World(Tiers(map[], map[], map[]), start)
    else Step(After(start, stack, zone, ops[..|ops| - 1]), stack, zone, ops[|ops| - 1])
  }

  ghost predicate Possible(start: Table, stack: string, zone: string, ops: seq<Operation>) {
    && (forall r :: r in start ==> r.stack != stack || r.zone != zone)
    && (forall i :: 0 <= i < |ops| && ops[i].SaveSome? ==>
          Fragment(ops[i].rows, stack, zone, After(start, stack, zone, ops[..i]).vars))
  }

  lemma StepStaysWithin(w: World, stack: string, zone: string, op: Operation)
    requires Within(w.table, stack, zone, w.vars)
    requires op.SaveSome? ==> Fragment(op.rows, stack, zone, w.vars)
    ensures var n := Step(w, stack, zone, op); Within(n.table, stack, zone, n.vars)
  {}

  lemma {:induction false} HistoryStaysWithin(start: Table, stack: string, zone: string, ops: seq<Operation>)
    requires Possible(start, stack, zone, ops)
    ensures var w := After(start, stack, zone, ops); Within(w.table, stack, zone, w.vars)
  {
    if ops != [] {
      var last := |ops| - 1;
      assert forall i :: 0 <= i < last ==> ops[..last][..i] == ops[..i];
      HistoryStaysWithin(start, stack, zone, ops[..last]);
      StepStaysWithin(After(start, stack, zone, ops[..last]), stack, zone, ops[last]);
    }
  }

  lemma {:induction false} SetsLeaveTable(
    start: Table, stack: string, zone: string, ops: seq<Operation>, later: seq<Operation>)
    requires forall i :: 0 <= i < |later| ==> !later[i].SaveAll? && !later[i].SaveSome?
    ensures After(start, stack, zone, ops + later).table == After(start, stack, zone, ops).table
  {
    if later == [] {
      assert ops + later == ops;
    } else {
      var last := |later| - 1;
      SetsLeaveTable(start, stack, zone, ops, later[..last]);
      assert (ops + later)[..|ops| + last] == ops + later[..last];
    }
  }

  /** After any interleaving of sets and saves that ends in a complete save, and any sets after
      it, reloading answers every lookup as the object did at that save. */
  lemma {:induction false} LookupSurvivesStorage(start: Table, stack: string, zone: string,
                              ops: seq<Operation>, later: seq<Operation>, key: string)
    requires Possible(start, stack, zone, ops) && ops != [] && ops[|ops| - 1].SaveAll?
    requires forall i :: 0 <= i < |later| ==> !later[i].SaveAll? && !later[i].SaveSome?
    ensures Get(Load(After(start, stack, zone, ops + later).table, stack, zone), key)
      == Get(After(start, stack, zone, ops).vars, key)
  {
    SetsLeaveTable(start, stack, zone, ops, later);
    var before := ops[..|ops| - 1];
    assert forall i :: 0 <= i < |before| ==> before[..i] == ops[..i];
    HistoryStaysWithin(start, stack, zone, before);
    var w := After(start, stack, zone, before);
    SaveThenLoad(w.table, stack, zone, w.vars, key);
  }

  /* ---- Saves that break off ---- */

  /** The keys that a save has written, tier by tier. */
  datatype Progress = Progress(global: set<string>, arbitrary: set<string>, stack: set<string>)

  function Part(tier: Tier, keys: set<string>): Tier {
    map k | k in tier && k in keys :: tier[k]
  }

  function Saved(v: Tiers, p: Progress): Tiers {
    Tiers(Part(v.stack, p.stack), Part(v.arbitrary, p.arbitrary), Part(v.global, p.global))
  }

  /** A save goes on to the next tier only when it has written the whole of one. */
  ghost predicate InTurn(v: Tiers, p: Progress) {
    && p.global <= v.global.Keys && p.arbitrary <= v.arbitrary.Keys && p.stack <= v.stack.Keys
    && (p.arbitrary != {} || p.stack != {} ==> p.global == v.global.Keys)
    && (p.stack != {} ==> p.arbitrary == v.arbitrary.Keys)
  }

  /** The value that the object answers with has been written. */
  predicate AnswerWritten(v: Tiers, p: Progress, key: string) {
    if key in v.stack then key in p.stack
    else if key in v.arbitrary then key in p.arbitrary
    else key in v.global && key in p.global
  }

  /** What a save has written of a key in the tiers below that value. */
  function WrittenBelow(v: Tiers, p: Progress, key: string): Lookup {
    if key in v.stack && key in v.arbitrary && key in p.arbitrary then Present(v.arbitrary[key])
    else if (key in v.stack || key in v.arbitrary) && key in v.global && key in p.global then Present(v.global[key])
    else Absent
  }

  /** The value below the object's answer: of the next tier written, or what the table held before. */
  function Beneath(t: Table, stack: string, zone: string, v: Tiers, p: Progress, key: string): Lookup {
    var below := WrittenBelow(v, p, key);
    if below.Present? then below else Answer(t, t, stack, zone, key)
  }

  lemma SavedAnswers(v: Tiers, p: Progress, key: string)
    ensures Get(Saved(v, p), key) == if AnswerWritten(v, p, key) then Get(v, key) else WrittenBelow(v, p, key)
    ensures AnswerWritten(v, p, key) ==> Get(v, key).Present?
  {}

  /** A save answers for the keys that it writes and leaves the other rows. */
  lemma {:induction false} SaveAnswers(t: Table, stack: string, zone: string, v: Tiers, key: string)
    ensures Get(Load(Save(t, stack, zone, v), stack, zone), key) ==
      if Get(v, key).Present? then Get(v, key) else Answer(t, t, stack, zone, key)
  {
    LoadAnswers(Save(t, stack, zone, v), stack, zone, key);
    SavedRow(t, stack, zone, v, key);
    if Get(v, key).Absent? { UnsavedRow(t, stack, zone, v, key); }
  }

  lemma UnsavedRow(t: Table, stack: string, zone: string, v: Tiers, key: string)
    requires Get(v, key).Absent?
    ensures var r, saved := RowKey(stack, zone, key), Save(t, stack, zone, v); r in saved ==> r in t && saved[r] == t[r]
  {
    var r := RowKey(stack, zone, key);
    assert r !in TierRows(stack, zone, GlobalKind, v.global);
    assert r !in TierRows(stack, zone, ArbitraryKind, v.arbitrary);
    assert r !in TierRows(stack, zone, StackKind, v.stack);
  }

  /** After a save that broke off, a lookup gives the object's answer if that was written, and
      otherwise what lies below it. */
  lemma {:induction false} BrokenLookup(t: Table, stack: string, zone: string, v: Tiers, p: Progress, key: string)
    ensures Get(Load(Save(t, stack, zone, Saved(v, p)), stack, zone), key) ==
      if AnswerWritten(v, p, key) then Get(v, key) else Beneath(t, stack, zone, v, p, key)
  {
    SaveAnswers(t, stack, zone, Saved(v, p), key);
    SavedAnswers(v, p, key);
  }

  /** So a lookup survives a broken-off save exactly when its answer was written or lay below. */
  lemma {:induction false} SurvivesBreakIff(t: Table, stack: string, zone: string, v: Tiers, p: Progress, key: string)
    ensures Get(Load(Save(t, stack, zone, Saved(v, p)), stack, zone), key) == Get(v, key) <==>
      AnswerWritten(v, p, key) || Beneath(t, stack, zone, v, p, key) == Get(v, key)
  {
    BrokenLookup(t, stack, zone, v, p, key);
  }

  /** A save that breaks off after the global tier brings back the global value of a key that
      the stack tier overrides. */
  lemma LessSpecificComesBack(stack: string, zone: string)
    ensures var v, p := Tiers(map["k" := "s"], map[], map["k" := "g"]), Progress({"k"}, {}, {});
      && InTurn(v, p) && Get(v, "k") == Present("s")
      && Get(Load(Save(map[], stack, zone, Saved(v, p)), stack, zone), "k") == Present("g")
  {
    var v, p := Tiers(map["k" := "s"], map[], map["k" := "g"]), Progress({"k"}, {}, {});
    assert v.global.Keys == {"k"} && InTurn(v, p);
    BrokenLookup(map[], stack, zone, v, p, "k");
  }

  /* ---- Reads that stop early ---- */

  /** Some of the rows of one stack and zone. */
  ghost predicate ReadFrom(t: Table, read: Table, stack: string, zone: string) {
    forall r :: r in read ==> r in t && read[r] == t[r] && r.stack == stack && r.zone == zone
  }

  /** All of them have been read. */
  ghost predicate ReadAll(t: Table, read: Table, stack: string, zone: string) {
    ReadFrom(t, read, stack, zone) && forall r :: r in t && r.stack == stack && r.zone == zone ==> r in read
  }

  /** A lookup answers what the table holds, exactly for the keys whose row was read. */
  function Answer(t: Table, read: Table, stack: string, zone: string, key: string): Lookup {
    var r := RowKey(stack, zone, key);
    if r in read && r in t then Present(t[r].value) else Absent
  }

  lemma AnswersAreRead(t: Table, read: Table, stack: string, zone: string)
    requires ReadFrom(t, read, stack, zone)
    ensures forall key :: Get(Load(read, stack, zone), key) == Answer(t, read, stack, zone, key)
  {
    forall key ensures Get(Load(read, stack, zone), key) == Answer(t, read, stack, zone, key) {
      LoadAnswers(read, stack, zone, key);
    }
  }

  /** After a complete save every lookup in what was read gives the saved value or, exactly when
      the row was not read, nothing. */
  lemma {:induction false} TruncatedLookup(start: Table, stack: string, zone: string, ops: seq<Operation>,
                                           later: seq<Operation>, read: Table, key: string)
    requires Possible(start, stack, zone, ops) && ops != [] && ops[|ops| - 1].SaveAll?
    requires forall i :: 0 <= i < |later| ==> !later[i].SaveAll? && !later[i].SaveSome?
    requires ReadFrom(After(start, stack, zone, ops + later).table, read, stack, zone)
    ensures Get(Load(read, stack, zone), key) ==
      if RowKey(stack, zone, key) in read then Get(After(start, stack, zone, ops).vars, key) else Absent
  {
    var t := After(start, stack, zone, ops + later).table;
    AnswersAreRead(t, read, stack, zone);
    LookupSurvivesStorage(start, stack, zone, ops, later, key);
    LoadAnswers(t, stack, zone, key);
  }

  /** So the variables come back whole exactly when the read did not stop early. */
  lemma {:induction false} WholeIffAllRead(start: Table, stack: string, zone: string, ops: seq<Operation>,
                                           later: seq<Operation>, read: Table)
    requires Possible(start, stack, zone, ops) && ops != [] && ops[|ops| - 1].SaveAll?
    requires forall i :: 0 <= i < |later| ==> !later[i].SaveAll? && !later[i].SaveSome?
    requires ReadFrom(After(start, stack, zone, ops + later).table, read, stack, zone)
    ensures (forall key :: Get(Load(read, stack, zone), key) == Get(After(start, stack, zone, ops).vars, key))
      <==> ReadAll(After(start, stack, zone, ops + later).table, read, stack, zone)
  {
    var t, vars := After(start, stack, zone, ops + later).table, After(start, stack, zone, ops).vars;
    forall key ensures Get(vars, key) == Answer(t, t, stack, zone, key) {
      LookupSurvivesStorage(start, stack, zone, ops, later, key);
      LoadAnswers(t, stack, zone, key);
    }
    AnswersAreRead(t, read, stack, zone);
    SameAnswersIff(t, read, stack, zone);
  }

  lemma SameAnswersIff(t: Table, read: Table, stack: string, zone: string)
    requires ReadFrom(t, read, stack, zone)
    ensures (forall key :: Answer(t, read, stack, zone, key) == Answer(t, t, stack, zone, key))
      <==> ReadAll(t, read, stack, zone)
  {
    if r :| r in t && r.stack == stack && r.zone == zone && r !in read {
      assert r == RowKey(stack, zone, r.key);
      assert Answer(t, read, stack, zone, r.key) != Answer(t, t, stack, zone, r.key);
    }
  }

  lemma KeysAllRead(t: Table, read: Table, stack: string, zone: string, kind: Kind)
    requires ReadAll(t, read, stack, zone)
    ensures KeysOfKind(read, stack, zone, kind) == KeysOfKind(t, stack, zone, kind)
  {}

  lemma TierAllRead(t: Table, read: Table, stack: string, zone: string, kind: Kind)
    requires ReadAll(t, read, stack, zone)
    ensures LoadTier(read, stack, zone, kind) == LoadTier(t, stack, zone, kind)
  {
    KeysAllRead(t, read, stack, zone, kind);
    forall k | k in KeysOfKind(t, stack, zone, kind) ensures RowKey(stack, zone, k) in read {}
  }

  lemma LoadAllRead(t: Table, read: Table, stack: string, zone: string)
    requires ReadFrom(t, read, stack, zone)
    ensures ReadAll(t, read, stack, zone) ==> Load(read, stack, zone) == Load(t, stack, zone)
  {
    if ReadAll(t, read, stack, zone) {
      TierAllRead(t, read, stack, zone, StackKind);
      TierAllRead(t, read, stack, zone, ArbitraryKind);
      TierAllRead(t, read, stack, zone, GlobalKind);
    }
  }

  function OwnRows(t: Table, stack: string, zone: string): set<RowKey> {
    set r | r in t && r.stack == stack && r.zone == zone
  }

  lemma AllPendingRead(t: Table, read: Table, stack: string, zone: string)
    requires ReadFrom(t, read, stack, zone) && OwnRows(t, stack, zone) <= read.Keys
    ensures ReadAll(t, read, stack, zone)
  {
    forall r | r in t && r.stack == stack && r.zone == zone ensures r in read { assert r in OwnRows(t, stack, zone); }
  }

  /** Rows that a read of the stack and zone has still to come to. */
  ghost predicate Pending(t: Table, read: Table, todo: set<RowKey>, stack: string, zone: string) {
    && ReadFrom(t, read, stack, zone)
    && (forall r :: r in todo ==> r in t && r !in read && r.stack == stack && r.zone == zone)
  }

  lemma PendingShrinks(t: Table, read: Table, todo: set<RowKey>, stack: string, zone: string, r: RowKey)
    requires Pending(t, read, todo, stack, zone) && r in todo
    ensures r in t && Pending(t, read[r := t[r]], todo - {r}, stack, zone)
  {}

  /* ---- The objects ---- */

  function SetIn(kind: Kind, key: string, value: string): Operation {
    match kind
    case GlobalKind => SetGlobal(key, value)
    case ArbitraryKind => SetArbitrary(key, value)
    case StackKind => SetStack(key, value)
  }

  /** Only rows of these keys have been written. */
  ghost predicate Writes(before: Table, now: Table, stack: string, zone: string, keys: set<string>) {
    && before.Keys <= now.Keys
    && (forall r :: r in now ==>
          (r in before && now[r] == before[r]) || (r.stack == stack && r.zone == zone && r.key in keys))
  }

  function Written(before: Table, now: Table): Table {
    map r | r in now && (r !in before || now[r] != before[r]) :: now[r]
  }

  /** So a broken-off save is a `SaveSome` step. */
  lemma BrokenSaveIsFragment(before: Table, now: Table, stack: string, zone: string, v: Tiers)
    requires Writes(before, now, stack, zone, All(v).Keys)
    ensures now == before + Written(before, now) && Fragment(Written(before, now), stack, zone, v)
  {}

  class VariablesObject {
    var stackVariables: Tier
    var arbitraryVariables: Tier
    var globalVariables: Tier

    ghost function View(): Tiers
      reads this
    {
      Tiers(stackVariables, arbitraryVariables, globalVariables)
    }

    constructor ()
      ensures View() == Tiers(map[], map[], map[])
    {
      stackVariables, arbitraryVariables, globalVariables := map[], map[], map[];
    }

    method SetStackVariable(key: string, value: string)
      modifies this`stackVariables
      ensures stackVariables == old(stackVariables)[key := value]
      ensures View() == Define(old(View()), SetStack(key, value))
    {
      stackVariables := stackVariables[key := value];
    }

    method SetArbitraryVariable(key: string, value: string)
      modifies this`arbitraryVariables
      ensures arbitraryVariables == old(arbitraryVariables)[key := value]
      ensures View() == Define(old(View()), SetArbitrary(key, value))
    {
      arbitraryVariables := arbitraryVariables[key := value];
    }

    method SetGlobalVariable(key: string, value: string)
      modifies this`globalVariables
      ensures globalVariables == old(globalVariables)[key := value]
      ensures View() == Define(old(View()), SetGlobal(key, value))
    {
      globalVariables := globalVariables[key := value];
    }

    /** Sets a variable in the tier that a stored row names. */
    method SetVariable(kind: Kind, key: string, value: string)
      modifies this
      ensures View() == Define(old(View()), SetIn(kind, key, value))
      ensures globalVariables == if kind.GlobalKind? then old(globalVariables)[key := value] else old(globalVariables)
      ensures arbitraryVariables ==
        if kind.ArbitraryKind? then old(arbitraryVariables)[key := value] else old(arbitraryVariables)
      ensures stackVariables == if kind.StackKind? then old(stackVariables)[key := value] else old(stackVariables)
    {
      match kind
      case GlobalKind => SetGlobalVariable(key, value);
      case ArbitraryKind => SetArbitraryVariable(key, value);
      case StackKind => SetStackVariable(key, value);
    }

    /** The most specific tier that has the key answers, as in `All`. */
    method GetVariable(key: string) returns (r: Lookup)
      ensures r == InMap(All(View()), key)
      ensures key in stackVariables ==> r == Present(stackVariables[key])
      ensures key !in stackVariables && key in arbitraryVariables ==> r == Present(arbitraryVariables[key])
      ensures key !in stackVariables && key !in arbitraryVariables ==>
        r == if key in globalVariables then Present(globalVariables[key]) else Absent
    {
      if key in stackVariables {
        return Present(stackVariables[key]);
      }
      if key in arbitraryVariables {
        return Present(arbitraryVariables[key]);
      }
      if key in globalVariables {
        return Present(globalVariables[key]);
      }
      return Absent;
    }

    /** Lays the three tiers over each other; afterwards every lookup gives what `Get` gives. */
    method AllVariables() returns (all: Tier)
      ensures all == All(View())
      ensures forall key :: InMap(all, key) == Get(View(), key)
    {
      all := Overlay(map[], globalVariables);
      all := Overlay(all, arbitraryVariables);
      all := Overlay(all, stackVariables);
      assert map[] + globalVariables == globalVariables;
    }
  }

  /** One overwriting loop over a map, in any order. */
  method Overlay(base: Tier, tier: Tier) returns (r: Tier)
    ensures r == base + tier
  {
    r := base;
    var todo := tier.Keys;
    while todo != {}
      invariant todo <= tier.Keys && r.Keys == base.Keys + (tier.Keys - todo)
      invariant forall k :: k in r ==> r[k] == if k in tier && k !in todo then tier[k] else base[k]
    {
      var k :| k in todo;
      todo := todo - {k};
      r := r[k := tier[k]];
    }
  }

  class StateStorage {
    const db: Database
    var table: Table

    constructor (db: Database)
      ensures this.db == db && table == map[]
    {
      this.db, table := db, map[];
    }

    /** One INSERT per variable of a tier, in any order, until the database fails. */
    method SaveTier(stack: string, zone: string, kind: Kind, tier: Tier)
      returns (fault: bool, ghost written: set<string>)
      modifies this, db
      ensures db.Failures() == old(db.Failures()) + if fault then 1 else 0
      ensures written <= tier.Keys && (!fault <==> written == tier.Keys)
      ensures TierWritten(old(table), table, stack, zone, kind, Part(tier, written))
      ensures !fault ==> table == old(table) + TierRows(stack, zone, kind, tier)
      ensures Writes(old(table), table, stack, zone, tier.Keys)
    {
      var todo := tier.Keys;
      SavingBegins(table, stack, zone, kind, tier);
      while todo != {}
        invariant Saving(old(table), table, stack, zone, kind, tier, todo)
        invariant db.Failures() == old(db.Failures())
      {
        fault := db.Statement();
        if fault {
          SavingWrites(old(table), table, stack, zone, kind, tier, todo);
          return true, tier.Keys - todo;
        }
        var k :| k in todo;
        SavingGoesOn(old(table), table, stack, zone, kind, tier, todo, k);
        table := table[RowKey(stack, zone, k) := Row(tier[k], kind)];
        todo := todo - {k};
      }
      SavingWrites(old(table), table, stack, zone, kind, tier, todo);
      return false, tier.Keys - todo;
    }

    /** Saves global, arbitrary and stack variables, in this order. */
    method SaveStackVariables(stack: string, zone: string, variables: VariablesObject)
      returns (fault: bool, ghost p: Progress)
      modifies this, db
      ensures db.Failures() == old(db.Failures()) + if fault then 1 else 0
      ensures InTurn(variables.View(), p)
      ensures table == Save(old(table), stack, zone, Saved(variables.View(), p))
      ensures !fault ==> table == Save(old(table), stack, zone, variables.View())
      ensures Writes(old(table), table, stack, zone, All(variables.View()).Keys)
    {
      ghost var v := variables.View();
      p := Progress({}, {}, {});
      ghost var written;
      fault, written := SaveTier(stack, zone, GlobalKind, variables.globalVariables);
      p := p.(global := written);
      if !fault {
        fault, written := SaveTier(stack, zone, ArbitraryKind, variables.arbitraryVariables);
        p := p.(arbitrary := written);
        if !fault {
          fault, written := SaveTier(stack, zone, StackKind, variables.stackVariables);
          p := p.(stack := written);
        }
      }
      SaveStops(old(table), stack, zone, v, p);
      SaveWrites(old(table), stack, zone, v, p);
      if !fault { WholeSaved(v, p); }
    }

    /** Reads the rows of one stack and zone, in any order, into a fresh object. A row that cannot
        be decoded is a fault, but the code never looks at the iterator's error: a query that
        fails part-way looks like one with fewer rows. */
    method GetStackVariables(stack: string, zone: string)
      returns (fault: bool, v: VariablesObject, ghost read: Table)
      modifies db
      ensures db.Failures() == old(db.Failures()) ==> !fault && ReadAll(table, read, stack, zone)
      ensures fresh(v) && ReadFrom(table, read, stack, zone)
      ensures !fault ==> v.View() == Load(read, stack, zone)
      ensures !fault ==> forall key :: Get(v.View(), key) == Answer(table, read, stack, zone, key)
      ensures !fault && ReadAll(table, read, stack, zone) ==> v.View() == Load(table, stack, zone)
    {
      v := new VariablesObject();
      LoadNothing(stack, zone);
      fault, read := ReadRows(stack, zone, v);
      AnswersAreRead(table, read, stack, zone);
      LoadAllRead(table, read, stack, zone);
    }

    /** The loop over the iterator. */
    method ReadRows(stack: string, zone: string, v: VariablesObject) returns (fault: bool, ghost read: Table)
      requires v.View() == Load(map[], stack, zone)
      modifies v, db
      ensures db.Failures() == old(db.Failures()) ==> !fault && ReadAll(table, read, stack, zone)
      ensures ReadFrom(table, read, stack, zone)
      ensures !fault ==> v.View() == Load(read, stack, zone)
    {
      var todo := OwnRows(table, stack, zone);
      read := map[];
      while todo != {}
        invariant Pending(table, read, todo, stack, zone)
        invariant v.View() == Load(read, stack, zone) && db.Failures() == old(db.Failures())
        invariant OwnRows(table, stack, zone) <= todo + read.Keys
      {
        var ends := db.Statement();
        if ends {
          return false, read;
        }
        fault := db.Statement();
        if fault {
          return;
        }
        var r :| r in todo;
        PendingShrinks(table, read, todo, stack, zone, r);
        ReadRow(r, v, read);
        todo, read := todo - {r}, read[r := table[r]];
      }
      AllPendingRead(table, read, stack, zone);
      return false, read;
    }

    method ReadRow(r: RowKey, v: VariablesObject, ghost read: Table)
      requires r in table && r !in read && v.View() == Load(read, r.stack, r.zone)
      modifies v
      ensures v.View() == Load(read[r := table[r]], r.stack, r.zone)
    {
      LoadOneMore(read, r.stack, r.zone, r, table[r]);
      v.SetVariable(table[r].kind, r.key, table[r].value);
    }
  }

  /** `now` is `before` with the rows of these keys of a tier. */
  ghost predicate TierWritten(before: Table, now: Table, stack: string, zone: string, kind: Kind, part: Tier) {
    now == before + TierRows(stack, zone, kind, part)
  }

  lemma NothingWritten(t: Table, stack: string, zone: string, kind: Kind, tier: Tier)
    ensures TierWritten(t, t, stack, zone, kind, Part(tier, {}))
  {}

  /** How far the loop over a tier has come. */
  ghost predicate Saving(
    before: Table, now: Table, stack: string, zone: string, kind: Kind, tier: Tier, todo: set<string>)
  {
    todo <= tier.Keys && TierWritten(before, now, stack, zone, kind, Part(tier, tier.Keys - todo))
  }

  lemma SavingBegins(t: Table, stack: string, zone: string, kind: Kind, tier: Tier)
    ensures Saving(t, t, stack, zone, kind, tier, tier.Keys)
  {
    NothingWritten(t, stack, zone, kind, tier);
    assert tier.Keys - tier.Keys == {};
  }

  lemma SavingWrites(before: Table, now: Table, stack: string, zone: string, kind: Kind, tier: Tier, todo: set<string>)
    requires Saving(before, now, stack, zone, kind, tier, todo)
    ensures Writes(before, now, stack, zone, tier.Keys)
    ensures todo == {} ==> now == before + TierRows(stack, zone, kind, tier)
  {
    assert todo == {} ==> Part(tier, tier.Keys - todo) == tier;
  }

  lemma SavingGoesOn(
    before: Table, now: Table, stack: string, zone: string, kind: Kind, tier: Tier, todo: set<string>, k: string)
    requires Saving(before, now, stack, zone, kind, tier, todo) && k in todo
    ensures k in tier
    ensures Saving(before, now[RowKey(stack, zone, k) := Row(tier[k], kind)], stack, zone, kind, tier, todo - {k})
  {
    OneMoreWritten(before, now, stack, zone, kind, Part(tier, tier.Keys - todo), k, tier[k]);
    PartOneMore(tier, todo, k);
  }

  lemma PartOneMore(tier: Tier, todo: set<string>, k: string)
    requires k in todo && todo <= tier.Keys
    ensures Part(tier, tier.Keys - (todo - {k})) == Part(tier, tier.Keys - todo)[k := tier[k]]
  {}

  lemma OneMoreWritten(
    before: Table, now: Table, stack: string, zone: string, kind: Kind, part: Tier, k: string, value: string)
    requires TierWritten(before, now, stack, zone, kind, part)
    ensures TierWritten(before, now[RowKey(stack, zone, k) := Row(value, kind)], stack, zone, kind, part[k := value])
  {
    RowOneMore(stack, zone, kind, part, k, value);
    AddOneMore(before, TierRows(stack, zone, kind, part), RowKey(stack, zone, k), Row(value, kind));
  }

  lemma AddOneMore(t: Table, rows: Table, r: RowKey, row: Row)
    ensures (t + rows)[r := row] == t + rows[r := row]
  {}

  lemma RowOneMore(stack: string, zone: string, kind: Kind, tier: Tier, k: string, value: string)
    ensures TierRows(stack, zone, kind, tier[k := value]) ==
      TierRows(stack, zone, kind, tier)[RowKey(stack, zone, k) := Row(value, kind)]
  {
    var rows, more := TierRows(stack, zone, kind, tier), TierRows(stack, zone, kind, tier[k := value]);
    assert more.Keys == rows.Keys + {RowKey(stack, zone, k)} by {
      assert RowKeys(stack, zone, tier[k := value].Keys) == RowKeys(stack, zone, tier.Keys) + {RowKey(stack, zone, k)};
    }
  }

  /** A save that has not come to a tier has written nothing of it. */
  lemma SaveStops(t: Table, stack: string, zone: string, v: Tiers, p: Progress)
    ensures var global := t + TierRows(stack, zone, GlobalKind, Part(v.global, p.global));
      var both := global + TierRows(stack, zone, ArbitraryKind, Part(v.arbitrary, p.arbitrary));
      && (p.stack == {} ==> Save(t, stack, zone, Saved(v, p)) == both)
      && (p.arbitrary == {} ==> both == global)
  {
    var global := t + TierRows(stack, zone, GlobalKind, Part(v.global, p.global));
    var both := global + TierRows(stack, zone, ArbitraryKind, Part(v.arbitrary, p.arbitrary));
    NothingWritten(global, stack, zone, ArbitraryKind, v.arbitrary);
    NothingWritten(both, stack, zone, StackKind, v.stack);
  }

  lemma SaveWrites(t: Table, stack: string, zone: string, v: Tiers, p: Progress)
    ensures Writes(t, Save(t, stack, zone, Saved(v, p)), stack, zone, All(v).Keys)
  {}

  lemma WholeSaved(v: Tiers, p: Progress)
    requires p == Progress(v.global.Keys, v.arbitrary.Keys, v.stack.Keys)
    ensures Saved(v, p) == v
  {
    assert Part(v.global, p.global) == v.global && Part(v.arbitrary, p.arbitrary) == v.arbitrary;
    assert Part(v.stack, p.stack) == v.stack;
  }

  lemma LoadNothing(stack: string, zone: string)
    ensures Load(map[], stack, zone) == Tiers(map[], map[], map[])
  {}

  lemma {:induction false} LoadOneMore(t: Table, stack: string, zone: string, r: RowKey, row: Row)
    requires r !in t && r.stack == stack && r.zone == zone
    ensures Load(t[r := row], stack, zone) == Define(Load(t, stack, zone), SetIn(row.kind, r.key, row.value))
  {
    LoadTierOneMore(t, stack, zone, GlobalKind, r, row);
    LoadTierOneMore(t, stack, zone, ArbitraryKind, r, row);
    LoadTierOneMore(t, stack, zone, StackKind, r, row);
  }

  lemma KeysOneMore(t: Table, stack: string, zone: string, kind: Kind, r: RowKey, row: Row)
    requires r !in t && r.stack == stack && r.zone == zone
    ensures KeysOfKind(t[r := row], stack, zone, kind) ==
      KeysOfKind(t, stack, zone, kind) + if row.kind == kind then {r.key} else {}
  {}

  lemma LoadTierOneMore(t: Table, stack: string, zone: string, kind: Kind, r: RowKey, row: Row)
    requires r !in t && r.stack == stack && r.zone == zone
    ensures LoadTier(t[r := row], stack, zone, kind) ==
      if row.kind == kind then LoadTier(t, stack, zone, kind)[r.key := row.value] else LoadTier(t, stack, zone, kind)
  {
    KeysOneMore(t, stack, zone, kind, r, row);
    assert r == RowKey(stack, zone, r.key);
    forall k | k in KeysOfKind(t, stack, zone, kind) ensures RowKey(stack, zone, k) in t && RowKey(stack, zone, k) != r {}
  }
}
