/** Placement constraints: LIKE, UNLIKE, UNIQUE, CLUSTER and GROUP_BY. */
module Constraints {
  import opened SetFacts

  /** LIKE and UNLIKE carry the strings that their regular expression matches. */
  datatype Constraint =
    | Like(language: iset<string>)
    | Unlike(language: iset<string>)
    | Unique
    | Cluster(value: string)
    | GroupBy(groups: int)

  const MAX_INT32 := 0x7fff_ffff

  /** Whether `value` may be placed next to the `values` placed before it. */
  predicate Matches(c: Constraint, value: string, values: seq<string>) {
    match c
    case Like(language) => value in language
    case Unlike(language) => value !in language
    case Unique => value !in values
    case Cluster(wanted) => if wanted != "" then wanted == value else values == [] || values[0] == value
    case GroupBy(groups) => GroupByAccepts(groups, value, values)
  }

  function Distinct(values: seq<string>): set<string> {
    set v | v in values
  }

  function Count(values: seq<string>, v: string): nat {
    multiset(values)[v]
  }

  /** With too few groups only a new value is accepted, else a least used one. The code
      starts its minimum at 2^31-1 and reads an unchanged minimum as zero. */
  predicate GroupByAccepts(groups: int, value: string, values: seq<string>) {
    if |Distinct(values)| < groups || forall w :: w in values ==> Count(values, w) >= MAX_INT32 then
      value !in values
    else
      value in values && forall w :: w in values ==> Count(values, value) <= Count(values, w)
  }

  /** While a list is shorter than 2^31-1, GROUP_BY accepts exactly the new values if groups are
      missing and exactly the least used values if none is. */
  lemma {:induction false} LeastUsedAccepted(groups: int, value: string, values: seq<string>)
    ensures |Distinct(values)| < groups ==> (Matches(GroupBy(groups), value, values) <==> value !in values)
    ensures |Distinct(values)| >= groups && values != [] && |values| < 0x7fff_ffff ==>
      (Matches(GroupBy(groups), value, values) <==>
         value in values && forall w :: w in values ==> Count(values, value) <= Count(values, w))
  {
    if values != [] {
      var first := values[0];
      assert Count(values, first) <= |multiset(values)|;
    }
  }

  /* ---- The loops ---- */

  method UniqueMatches(value: string, values: seq<string>) returns (r: bool)
    ensures r <==> Matches(Unique, value, values)
  {
    for i := 0 to |values|
      invariant value !in values[..i]
    {
      if value == values[i] {
        return false;
      }
    }
    return true;
  }

  method CountValues(values: seq<string>) returns (counts: map<string, nat>)
    ensures counts.Keys == Distinct(values)
    ensures forall v :: v in counts ==> counts[v] == Count(values, v)
  {
    counts := map[];
    for i := 0 to |values|
      invariant counts.Keys == Distinct(values[..i])
      invariant forall v :: v in counts ==> counts[v] == Count(values[..i], v)
    {
      var v := values[i];
      assert values[..i + 1] == values[..i] + [v];
      assert v !in counts ==> Count(values[..i], v) == 0;
      counts := counts[v := (if v in counts then counts[v] else 0) + 1];
    }
    assert values[..|values|] == values;
  }

  method MinimumCount(counts: map<string, nat>) returns (least: nat)
    ensures (forall v :: v in counts ==> counts[v] >= 0x7fff_ffff) ==> least == 0
    ensures (exists v :: v in counts && counts[v] < 0x7fff_ffff) ==>
      (exists v :: v in counts && counts[v] == least) && forall v :: v in counts ==> least <= counts[v]
  {
    least := MAX_INT32;
    var todo := counts.Keys;
    while todo != {}
      invariant todo <= counts.Keys && least <= MAX_INT32
      invariant forall v :: v in counts && v !in todo ==> least <= counts[v]
      invariant least == MAX_INT32 || exists v :: v in counts && counts[v] == least
    {
      var v :| v in todo;
      todo := todo - {v};
      if counts[v] < least {
        least := counts[v];
      }
    }
    if least == MAX_INT32 {
      least := 0;
    }
  }

  method GroupByMatches(groups: int, value: string, values: seq<string>) returns (r: bool)
    ensures r <==> Matches(GroupBy(groups), value, values)
    ensures |Distinct(values)| < groups ==> (r <==> value !in values)
    ensures |Distinct(values)| >= groups && values != [] && |values| < 0x7fff_ffff ==>
      (r <==> value in values && forall w :: w in values ==> Count(values, value) <= Count(values, w))
  {
    LeastUsedAccepted(groups, value, values);
    var counts := CountValues(values);
    assert |counts| == |counts.Keys|;
    if |counts| < groups {
      r := value !in counts;
    } else {
      var least := MinimumCount(counts);
      assert forall v :: v in counts ==> counts[v] >= 1;
      r := (if value in counts then counts[value] else 0) == least;
    }
  }

  method CheckConstraint(c: Constraint, value: string, values: seq<string>) returns (r: bool)
    ensures r <==> Matches(c, value, values)
  {
    match c
    case Unique => r := UniqueMatches(value, values);
    case GroupBy(groups) => r := GroupByMatches(groups, value, values);
    case _ => r := Matches(c, value, values);
  }

  /* ---- GROUP_BY balance ---- */

  /** A value list built from nothing by appending values that the constraint accepts. */
  predicate Built(c: Constraint, values: seq<string>) {
    values != [] ==>
      var last := |values| - 1;
      Built(c, values[..last]) && Matches(c, values[last], values[..last])
  }

  function GroupCount(groups: int): nat {
    if groups < 1 then 1 else groups
  }

  /** Values used once more than `rounds` times. */
  function Ahead(values: seq<string>, rounds: nat): set<string> {
    set v | v in Distinct(values) && Count(values, v) == rounds + 1
  }

  /** The exact shape of a balanced list: `rounds` full rounds over `d` values, and `extra`
      values one ahead of the others. */
  ghost predicate Level(values: seq<string>, d: nat, rounds: nat, extra: nat) {
    && extra < d
    && |Distinct(values)| == (if rounds == 0 then extra else d)
    && |Ahead(values, rounds)| == extra
    && (forall v :: v in values && v !in Ahead(values, rounds) ==> Count(values, v) == rounds)
  }

  /** `d` values, or one per place in a shorter list, each used `lo` to `hi` times. */
  ghost predicate SpreadOver(values: seq<string>, d: nat, lo: int, hi: int) {
    && |Distinct(values)| == (if |values| < d then |values| else d)
    && (forall v :: v in values ==> lo <= Count(values, v) <= hi)
  }

  /** As many groups as possible, and every value used floor(k/d) or ceil(k/d) times. */
  ghost predicate Balanced(values: seq<string>, d: nat)
    requires d > 0
  {
    SpreadOver(values, d, |values| / d, (|values| + d - 1) / d)
  }

  lemma Multiples(e: int, d: int)
    requires d > 0
    ensures (e >= 1 ==> e * d >= d) && (e <= -1 ==> e * d <= -d)
  {}

  lemma {:induction false} DivUnique(n: nat, d: nat, q: nat, r: nat)
    requires n == q * d + r && r < d
    ensures n / d == q && n % d == r
  {
    var e := n / d - q;
    assert (q + e) * d == q * d + e * d;
    Multiples(e, d);
  }

  lemma DistinctAppend(values: seq<string>, v: string)
    ensures Distinct(values + [v]) == Distinct(values) + {v}
    ensures forall w :: Count(values + [v], w) == Count(values, w) + (if w == v then 1 else 0)
    ensures forall w :: w in values ==> Count(values, w) >= 1
  {}

  /** The first round: every accepted value is new. */
  lemma LevelFirstRound(values: seq<string>, d: nat, extra: nat, value: string)
    requires Level(values, d, 0, extra) && value !in values
    ensures extra + 1 < d ==> Level(values + [value], d, 0, extra + 1)
    ensures extra + 1 == d ==> Level(values + [value], d, 1, 0)
  {
    var values' := values + [value];
    DistinctAppend(values, value);
    assert forall v :: v in values' ==> Count(values', v) == 1;
    assert Ahead(values', 0) == Distinct(values') && Ahead(values', 1) == {};
  }

  /** Later rounds: a value that is not ahead catches up. */
  lemma LevelLaterRound(values: seq<string>, d: nat, rounds: nat, extra: nat, value: string)
    requires Level(values, d, rounds, extra) && rounds > 0
    requires value in values && value !in Ahead(values, rounds)
    ensures extra + 1 < d ==> Level(values + [value], d, rounds, extra + 1)
    ensures extra + 1 == d ==> Level(values + [value], d, rounds + 1, 0)
  {
    var values' := values + [value];
    assert Distinct(values') == Distinct(values) by { DistinctAppend(values, value); }
    CatchingUp(values, rounds, value);
    assert Count(values', value) == rounds + 1;
    if extra + 1 == d {
      SameSize(Ahead(values', rounds), Distinct(values'));
      assert Ahead(values', rounds + 1) == {};
    }
  }

  lemma CatchingUp(values: seq<string>, rounds: nat, value: string)
    requires value in values && Count(values, value) == rounds
    ensures Ahead(values + [value], rounds) == Ahead(values, rounds) + {value}
    ensures forall w :: w != value ==> Count(values + [value], w) == Count(values, w)
  {}

  lemma SomeoneBehind(values: seq<string>, d: nat, rounds: nat, extra: nat) returns (w: string)
    requires Level(values, d, rounds, extra) && rounds > 0
    ensures w in values && Count(values, w) == rounds
  {
    if Distinct(values) <= Ahead(values, rounds) {
      SubsetSize(Distinct(values), Ahead(values, rounds));
    }
    w :| w in Distinct(values) && w !in Ahead(values, rounds);
  }

  lemma LevelStep(groups: int, values: seq<string>, rounds: nat, extra: nat, value: string)
    requires Level(values, GroupCount(groups), rounds, extra) && rounds < MAX_INT32
    requires Matches(GroupBy(groups), value, values)
    ensures extra + 1 < GroupCount(groups) ==> Level(values + [value], GroupCount(groups), rounds, extra + 1)
    ensures extra + 1 == GroupCount(groups) ==> Level(values + [value], GroupCount(groups), rounds + 1, 0)
  {
    var d := GroupCount(groups);
    if rounds == 0 {
      assert groups < 1 ==> Distinct(values) == {};
      assert forall w :: w in values ==> w in Distinct(values);
      LevelFirstRound(values, d, extra, value);
    } else {
      var w := SomeoneBehind(values, d, rounds, extra);
      assert !(forall w :: w in values ==> Count(values, w) >= MAX_INT32);
      assert Count(values, value) <= rounds;
      LevelLaterRound(values, d, rounds, extra, value);
    }
  }

  lemma {:induction false} DivSucc(k: nat, d: nat)
    requires d > 0
    ensures k % d + 1 < d ==> (k + 1) / d == k / d && (k + 1) % d == k % d + 1
    ensures k % d + 1 == d ==> (k + 1) / d == k / d + 1 && (k + 1) % d == 0
  {
    var q, r := k / d, k % d;
    assert (q + 1) * d == q * d + d;
    if r + 1 < d { DivUnique(k + 1, d, q, r + 1); } else { DivUnique(k + 1, d, q + 1, 0); }
  }

  lemma DivBelow(k: nat, d: nat, m: nat)
    requires d > 0 && k < d * m
    ensures k / d < m
  {}

  lemma DivZero(k: nat, d: nat)
    requires d > 0
    ensures k / d == 0 <==> k < d
    ensures k < d ==> k % d == k
  {}

  lemma {:induction false} Ceiling(k: nat, d: nat)
    requires d > 0
    ensures (k + d - 1) / d == if k % d == 0 then k / d else k / d + 1
  {
    var q, r := k / d, k % d;
    assert (q + 1) * d == q * d + d;
    if r == 0 { DivUnique(k + d - 1, d, q, d - 1); } else { DivUnique(k + d - 1, d, q + 1, r - 1); }
  }

  lemma {:induction false} BuiltIsLevel(groups: int, values: seq<string>, d: nat)
    requires Built(GroupBy(groups), values) && d == GroupCount(groups) && |values| <= d * MAX_INT32
    ensures Level(values, d, |values| / d, |values| % d)
  {
    if values == [] {
      DivZero(0, d);
      assert Ahead(values, 0) == {};
    } else {
      var last := |values| - 1;
      BuiltIsLevel(groups, values[..last], d);
      DivSucc(last, d);
      DivBelow(last, d, MAX_INT32);
      LevelStep(groups, values[..last], last / d, last % d, values[last]);
      assert values == values[..last] + [values[last]];
    }
  }

  lemma LevelIsSpread(values: seq<string>, d: nat, rounds: nat, extra: nat)
    requires Level(values, d, rounds, extra)
    requires rounds == 0 <==> |values| < d
    requires rounds == 0 ==> extra == |values|
    ensures SpreadOver(values, d, rounds, if extra == 0 then rounds else rounds + 1)
  {}

  lemma {:induction false} BuiltPrefix(c: Constraint, values: seq<string>, n: nat)
    requires Built(c, values) && n <= |values|
    ensures Built(c, values[..n])
  {
    if n < |values| {
      var last := |values| - 1;
      BuiltPrefix(c, values[..last], n);
      assert values[..last][..n] == values[..n];
    } else {
      assert values[..n] == values;
    }
  }

  /** Once every count has reached 2^31-1 the minimum is misread: only a new value is accepted. */
  lemma FullRoundsWantNew(groups: int, values: seq<string>, value: string)
    requires Level(values, GroupCount(groups), MAX_INT32, 0) && Matches(GroupBy(groups), value, values)
    ensures value !in values && |Distinct(values)| == GroupCount(groups)
  {}

  lemma {:induction false} OverflowOpensGroup(groups: int, values: seq<string>, d: nat)
    requires d == GroupCount(groups)
    requires Built(GroupBy(groups), values) && |values| > d * MAX_INT32
    ensures |Distinct(values)| > d
  {
    var full := d * MAX_INT32;
    var head := values[..full];
    assert Built(GroupBy(groups), head) && Matches(GroupBy(groups), values[full], head) by {
      BuiltPrefix(GroupBy(groups), values, full + 1);
      assert values[..full + 1][..full] == head;
    }
    assert Level(head, d, MAX_INT32, 0) by {
      BuiltIsLevel(groups, head, d);
      DivUnique(full, d, MAX_INT32, 0);
    }
    FullRoundsWantNew(groups, head, values[full]);
    SubsetSize(Distinct(head) + {values[full]}, Distinct(values));
  }

  /** GROUP_BY keeps a list balanced exactly until every one of its groups has been used
      2^31-1 times, so in particular while the list is shorter. */
  lemma {:induction false} GroupByBalance(groups: int, values: seq<string>)
    requires Built(GroupBy(groups), values)
    ensures Balanced(values, GroupCount(groups)) <==> |values| <= GroupCount(groups) * 0x7fff_ffff
    ensures |values| < 0x7fff_ffff ==> Balanced(values, GroupCount(groups))
  {
    var d := GroupCount(groups);
    if |values| <= d * MAX_INT32 {
      BuiltIsLevel(groups, values, d);
      DivZero(|values|, d);
      Ceiling(|values|, d);
      LevelIsSpread(values, d, |values| / d, |values| % d);
    } else {
      OverflowOpensGroup(groups, values, d);
    }
  }

  /** Every prefix is balanced, as far as the counting goes. */
  ghost predicate PrefixesBalanced(values: seq<string>, groups: int) {
    forall n :: 0 <= n <= |values| && n <= GroupCount(groups) * MAX_INT32 ==> Balanced(values[..n], GroupCount(groups))
  }

  /** A value that keeps a built list balanced is one that GROUP_BY accepts. */
  lemma {:induction false} BalanceAccepts(groups: int, values: seq<string>, v: string, d: nat)
    requires d == GroupCount(groups) && |values| < d * MAX_INT32
    requires Level(values, d, |values| / d, |values| % d) && Balanced(values + [v], d)
    ensures GroupByAccepts(groups, v, values)
  {
    var k := |values|;
    DivZero(k, d);
    NewValueGrows(values, v);
    if k >= d {
      DivBelow(k, d, MAX_INT32);
      DivSucc(k, d);
      Ceiling(k + 1, d);
      var w := SomeoneBehind(values, d, k / d, k % d);
      assert Count(values + [v], v) <= k / d + 1;
    } else {
      assert k == 0 ==> Distinct(values) == {};
    }
  }

  lemma NewValueGrows(values: seq<string>, v: string)
    ensures |Distinct(values + [v])| == |Distinct(values)| + if v in values then 0 else 1
    ensures Count(values + [v], v) == Count(values, v) + 1
  {
    DistinctAppend(values, v);
    assert v in values ==> Distinct(values) + {v} == Distinct(values);
  }

  /** As long as the counting goes, GROUP_BY builds exactly the lists that were balanced all along. */
  lemma {:induction false} GroupByMeansBalanced(groups: int, values: seq<string>)
    requires |values| <= GroupCount(groups) * 0x7fff_ffff
    ensures Built(GroupBy(groups), values) <==> PrefixesBalanced(values, groups)
  {
    if Built(GroupBy(groups), values) {
      forall n | 0 <= n <= |values| ensures Balanced(values[..n], GroupCount(groups)) {
        BuiltPrefix(GroupBy(groups), values, n);
        GroupByBalance(groups, values[..n]);
      }
    }
    if PrefixesBalanced(values, groups) && values != [] { BalancedIsBuilt(groups, values); }
  }

  lemma {:induction false} BalancedIsBuilt(groups: int, values: seq<string>)
    requires |values| <= GroupCount(groups) * MAX_INT32 && PrefixesBalanced(values, groups)
    ensures Built(GroupBy(groups), values)
  {
    if values != [] {
      var last, d := |values| - 1, GroupCount(groups);
      var head := values[..last];
      forall n | 0 <= n <= last ensures Balanced(head[..n], d) { assert head[..n] == values[..n]; }
      BalancedIsBuilt(groups, head);
      BuiltIsLevel(groups, head, d);
      assert values[..|values|] == values == head + [values[last]];
      BalanceAccepts(groups, head, values[last], d);
    }
  }

  /* ---- The other constraints on lists built by appending accepted values ---- */

  ghost predicate PairwiseDistinct(values: seq<string>) {
    forall i, j :: 0 <= i < j < |values| ==> values[i] != values[j]
  }

  lemma {:induction false} UniqueMeansDistinct(values: seq<string>)
    ensures Built(Unique, values) <==> PairwiseDistinct(values)
  {
    if values != [] {
      var last := |values| - 1;
      UniqueMeansDistinct(values[..last]);
      assert forall i :: 0 <= i < last ==> values[..last][i] == values[i];
    }
  }

  lemma {:induction false} ClusterMeansSame(wanted: string, values: seq<string>)
    ensures Built(Cluster(wanted), values) <==>
      forall i :: 0 <= i < |values| ==> values[i] == (if wanted != "" then wanted else values[0])
  {
    if values != [] {
      var last := |values| - 1;
      ClusterMeansSame(wanted, values[..last]);
      assert forall i :: 0 <= i < last ==> values[..last][i] == values[i];
    }
  }

  lemma {:induction false} LikeMeansAll(language: iset<string>, values: seq<string>)
    ensures Built(Like(language), values) <==> forall i :: 0 <= i < |values| ==> values[i] in language
    ensures Built(Unlike(language), values) <==> forall i :: 0 <= i < |values| ==> values[i] !in language
  {
    if values != [] {
      var last := |values| - 1;
      LikeMeansAll(language, values[..last]);
      assert forall i :: 0 <= i < last ==> values[..last][i] == values[i];
    }
  }

  /* ---- Parsing ---- */

  datatype Result<T> = Ok(value: T) | Err

  /** The constraints on each attribute, in the order given. */
  type Rules = map<string, seq<Constraint>>

  /** The regular expression compiler and the number parser that the code calls. */
  datatype Libraries = Libraries(compile: string -> Result<iset<string>>, atoi: string -> Result<int>)

  function ParseConstraint(value: seq<string>, libs: Libraries): Result<Constraint> {
    if value == [] then Err
    else if value[0] == "LIKE" || value[0] == "UNLIKE" then
      if |value| < 2 then Err
      else match libs.compile(value[1])
        case Err => Err
        case Ok(language) => if value[0] == "LIKE" then Ok(Like(language)) else Ok(Unlike(language))
    else if value[0] == "UNIQUE" then Ok(Unique)
    else if value[0] == "CLUSTER" then Ok(Cluster(if |value| < 2 then "" else value[1]))
    else if value[0] == "GROUP_BY" then
      if |value| < 2 then Ok(GroupBy(1))
      else match libs.atoi(value[1])
        case Err => Err
        case Ok(groups) => Ok(GroupBy(groups))
    else Err
  }

  /** Exactly which entries parse. */
  lemma ParsesIff(value: seq<string>, libs: Libraries)
    ensures ParseConstraint(value, libs).Ok? <==>
      value != [] &&
      (  (value[0] in {"LIKE", "UNLIKE"} && |value| > 1 && libs.compile(value[1]).Ok?)
      || value[0] in {"UNIQUE", "CLUSTER"}
      || (value[0] == "GROUP_BY" && (|value| == 1 || libs.atoi(value[1]).Ok?)))
  {}

  /** Which lists a parsed constraint builds, keyword by keyword. */
  lemma {:induction false} ParsedMeaning(value: seq<string>, libs: Libraries, values: seq<string>)
    requires ParseConstraint(value, libs).Ok?
    ensures value != [] && value[0] in {"LIKE", "UNLIKE", "UNIQUE", "CLUSTER", "GROUP_BY"}
    ensures value[0] == "LIKE" || value[0] == "UNLIKE" ==> |value| > 1 && libs.compile(value[1]).Ok?
    ensures value[0] == "GROUP_BY" && |value| > 1 ==> libs.atoi(value[1]).Ok?
    ensures var built := Built(ParseConstraint(value, libs).value, values);
      && (value[0] == "LIKE" ==>
           (built <==> forall i :: 0 <= i < |values| ==> values[i] in libs.compile(value[1]).value))
      && (value[0] == "UNLIKE" ==>
           (built <==> forall i :: 0 <= i < |values| ==> values[i] !in libs.compile(value[1]).value))
      && (value[0] == "UNIQUE" ==> (built <==> PairwiseDistinct(values)))
      && (value[0] == "CLUSTER" && |value| > 1 && value[1] != "" ==>
           (built <==> forall i :: 0 <= i < |values| ==> values[i] == value[1]))
      && (value[0] == "CLUSTER" && (|value| == 1 || value[1] == "") ==>
           (built <==> forall i :: 0 <= i < |values| ==> values[i] == values[0]))
      && (value[0] == "GROUP_BY" ==>
           var groups := if |value| == 1 then 1 else libs.atoi(value[1]).value;
           |values| <= GroupCount(groups) * MAX_INT32 ==> (built <==> PrefixesBalanced(values, groups)))
  {
    match ParseConstraint(value, libs).value
    case Like(language) => LikeMeansAll(language, values);
    case Unlike(language) => LikeMeansAll(language, values);
    case Unique => UniqueMeansDistinct(values);
    case Cluster(wanted) => ClusterMeansSame(wanted, values);
    case GroupBy(groups) =>
      if |values| <= GroupCount(groups) * MAX_INT32 { GroupByMeansBalanced(groups, values); }
  }

  predicate Parses(raw: seq<string>, libs: Libraries) {
    raw != [] && ParseConstraint(raw[1..], libs).Ok?
  }

  /** The constraints of `raw` on one attribute, in order. */
  function RulesFor(raw: seq<seq<string>>, attribute: string, libs: Libraries): seq<Constraint>
    requires forall i :: 0 <= i < |raw| ==> Parses(raw[i], libs)
  {
    if raw == [] then []
    else
      var last := raw[|raw| - 1];
      var rest := RulesFor(raw[..|raw| - 1], attribute, libs);
      assert Parses(last, libs);
      if last[0] == attribute then rest + [ParseConstraint(last[1..], libs).value] else rest
  }

  /** The rules of an attribute come from its entries and keep their order. */
  lemma {:induction false} RulesForJoins(a: seq<seq<string>>, b: seq<seq<string>>, attribute: string, libs: Libraries)
    requires forall i :: 0 <= i < |a + b| ==> Parses((a + b)[i], libs)
    ensures (forall i :: 0 <= i < |a| ==> Parses(a[i], libs)) && (forall i :: 0 <= i < |b| ==> Parses(b[i], libs))
    ensures RulesFor(a + b, attribute, libs) == RulesFor(a, attribute, libs) + RulesFor(b, attribute, libs)
    ensures |a| == 1 ==>
      RulesFor(a, attribute, libs) == (if a[0][0] == attribute then [ParseConstraint(a[0][1..], libs).value] else [])
  {
    assert forall i :: 0 <= i < |a| ==> (a + b)[i] == a[i];
    assert forall i :: 0 <= i < |b| ==> (a + b)[|a| + i] == b[i];
    if b == [] {
      assert a + b == a;
    } else {
      assert (a + b)[..|a + b| - 1] == a + b[..|b| - 1];
      RulesForJoins(a, b[..|b| - 1], attribute, libs);
    }
  }

  /** The rules collected from the entries. */
  ghost predicate Collected(rules: Rules, raw: seq<seq<string>>, libs: Libraries) {
    && (forall i :: 0 <= i < |raw| ==> Parses(raw[i], libs))
    && (forall a :: a in rules ==> rules[a] != [])
    && (forall a :: (if a in rules then rules[a] else []) == RulesFor(raw, a, libs))
  }

  lemma CollectedOneMore(rules: Rules, raw: seq<seq<string>>, entry: seq<string>, libs: Libraries)
    requires Collected(rules, raw, libs) && Parses(entry, libs)
    ensures var before := if entry[0] in rules then rules[entry[0]] else [];
      Collected(rules[entry[0] := before + [ParseConstraint(entry[1..], libs).value]], raw + [entry], libs)
  {
    var longer := raw + [entry];
    assert longer[..|raw|] == raw;
    forall i | 0 <= i < |longer| ensures Parses(longer[i], libs) {}
  }

  method ParseConstraints(raw: seq<seq<string>>, libs: Libraries) returns (r: Result<Rules>)
    ensures r.Ok? <==> forall i :: 0 <= i < |raw| ==> Parses(raw[i], libs)
    ensures r.Ok? ==> forall a :: a in r.value ==> r.value[a] != []
    ensures r.Ok? ==> forall a :: (if a in r.value then r.value[a] else []) == RulesFor(raw, a, libs)
  {
    var rules: Rules := map[];
    for i := 0 to |raw|
      invariant Collected(rules, raw[..i], libs)
    {
      if raw[i] == [] {
        return Err;
      }
      var parsed := ParseConstraint(raw[i][1..], libs);
      if parsed.Err? {
        return Err;
      }
      var attribute := raw[i][0];
      CollectedOneMore(rules, raw[..i], raw[i], libs);
      assert raw[..i + 1] == raw[..i] + [raw[i]];
      rules := rules[attribute := (if attribute in rules then rules[attribute] else []) + [parsed.value]];
    }
    assert raw[..|raw|] == raw;
    return Ok(rules);
  }

  /* ---- Offers ---- */

  datatype Attribute = Attribute(name: string, text: string)

  datatype Offer = Offer(hostname: string, attributes: seq<Attribute>, cpus: real, mem: real)

  /** The last non-empty text of each attribute, on top of the host name. */
  function OfferValues(hostname: string, attributes: seq<Attribute>): (values: map<string, string>)
    ensures "hostname" in values
    ensures forall name :: name in values && name != "hostname" ==> values[name] != ""
    ensures hostname != "" ==> values["hostname"] != ""
  {
    if attributes == [] then map["hostname" := hostname]
    else
      var last := attributes[|attributes| - 1];
      var values := OfferValues(hostname, attributes[..|attributes| - 1]);
      if last.text != "" then values[last.name := last.text] else values
  }

  /** Position `i` holds the last non-empty text of the attribute. */
  ghost predicate LastText(attributes: seq<Attribute>, name: string, i: nat) {
    && i < |attributes| && attributes[i].name == name && attributes[i].text != ""
    && (forall j :: i < j < |attributes| ==> attributes[j].name != name || attributes[j].text == "")
  }

  /** The last non-empty text of an attribute counts. */
  lemma {:induction false} LastTextCounts(hostname: string, attributes: seq<Attribute>, name: string, i: nat)
    requires LastText(attributes, name, i)
    ensures name in OfferValues(hostname, attributes) && OfferValues(hostname, attributes)[name] == attributes[i].text
  {
    var last := |attributes| - 1;
    if i < last {
      assert LastText(attributes[..last], name, i);
      LastTextCounts(hostname, attributes[..last], name, i);
    }
  }

  /** Without one only the host name has a value. */
  lemma {:induction false} NoTextNoValue(hostname: string, attributes: seq<Attribute>, name: string)
    requires forall i :: 0 <= i < |attributes| ==> attributes[i].name != name || attributes[i].text == ""
    ensures name in OfferValues(hostname, attributes) <==> name == "hostname"
    ensures name == "hostname" ==> OfferValues(hostname, attributes)[name] == hostname
  {
    if attributes != [] { NoTextNoValue(hostname, attributes[..|attributes| - 1], name); }
  }

  method OfferAttributes(offer: Offer) returns (values: map<string, string>)
    ensures values == OfferValues(offer.hostname, offer.attributes)
  {
    values := map["hostname" := offer.hostname];
    for i := 0 to |offer.attributes|
      invariant values == OfferValues(offer.hostname, offer.attributes[..i])
    {
      var attribute := offer.attributes[i];
      assert offer.attributes[..i + 1][..i] == offer.attributes[..i];
      if attribute.text != "" {
        values := values[attribute.name := attribute.text];
      }
    }
    assert offer.attributes[..|offer.attributes|] == offer.attributes;
  }
}
