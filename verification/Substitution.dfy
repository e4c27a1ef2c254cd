/** Variable substitution: repeated replacement of `${key}` in any map order, and the check
    that nothing is left unresolved. */
module Substitution {

  type Vars = map<string, string>

  /** Replaces every occurrence, from left to right and without overlaps. */
  function ReplaceAll(s: string, pattern: string, value: string): string
    requires pattern != ""
  {
    if s == "" then ""
    else if pattern <= s then value + ReplaceAll(s[|pattern|..], pattern, value)
    else [s[0]] + ReplaceAll(s[1..], pattern, value)
  }

  function Placeholder(key: string): string {
    "${" + key + "}"
  }

  /** Replacement of one key after the other. */
  function ReplaceInOrder(s: string, order: seq<string>, vars: Vars): string
    requires forall k :: k in order ==> k in vars
  {
    if order == [] then s
    else
      var last := |order| - 1;
      ReplaceAll(ReplaceInOrder(s, order[..last], vars), Placeholder(order[last]), vars[order[last]])
  }

  /* ---- Templates ---- */

  /** Text as its author meant it: literal stretches and placeholders. */
  datatype Part = Lit(text: string) | Hole(key: string)

  function RenderPart(p: Part): string {
    match p
    case Lit(text) => text
    case Hole(key) => Placeholder(key)
  }

  function Render(parts: seq<Part>): string {
    if parts == [] then "" else RenderPart(parts[0]) + Render(parts[1..])
  }

  predicate Plain(s: string) {
    '$' !in s && '{' !in s && '}' !in s
  }

  predicate OpensAt(s: string, i: int) {
    0 <= i < |s| - 1 && s[i] == '$' && s[i + 1] == '{'
  }

  /** A stretch that holds no `${` and cannot complete one with what follows. */
  ghost predicate Inert(s: string) {
    (forall i :: !OpensAt(s, i)) && (s != "" ==> s[|s| - 1] != '$')
  }

  ghost predicate WellFormedPart(p: Part) {
    match p
    case Lit(text) => Inert(text)
    case Hole(key) => Plain(key)
  }

  ghost predicate WellFormed(parts: seq<Part>) {
    forall i :: 0 <= i < |parts| ==> WellFormedPart(parts[i])
  }

  ghost predicate PlainKeys(vars: Vars) {
    forall k :: k in vars ==> Plain(k)
  }

  /** A placeholder of `key` begins at `i`, in full or cut off by the end of the text. */
  predicate OpensKey(s: string, i: nat, key: string)
    requires i < |s|
  {
    Placeholder(key) <= s[i..] || s[i..] <= Placeholder(key)
  }

  predicate CanOpen(s: string, key: string) {
    exists i :: 0 <= i < |s| && OpensKey(s, i, key)
  }

  /** Replacing `key` does something: its value is not its own placeholder. */
  predicate Active(vars: Vars, key: string) {
    key in vars && vars[key] != Placeholder(key)
  }

  /** No value can open the placeholder of a key that is replaced. */
  ghost predicate Harmless(vars: Vars) {
    PlainKeys(vars) && forall k, h :: k in vars && Active(vars, h) ==> !CanOpen(vars[k], h)
  }

  ghost predicate SafePart(p: Part, key: string) {
    match p
    case Lit(text) => !CanOpen(text, key)
    case Hole(k) => Plain(k)
  }

  ghost predicate SafeFor(parts: seq<Part>, key: string) {
    forall i :: 0 <= i < |parts| ==> SafePart(parts[i], key)
  }

  /** No literal can open the placeholder of a key that is replaced. */
  ghost predicate Safe(parts: seq<Part>, vars: Vars) {
    forall key :: Active(vars, key) ==> SafeFor(parts, key)
  }

  function Fill(p: Part, vars: Vars): Part {
    if p.Hole? && p.key in vars then Lit(vars[p.key]) else p
  }

  /** All defined placeholders replaced at once. */
  function Substitute(parts: seq<Part>, vars: Vars): seq<Part> {
    seq(|parts|, i requires 0 <= i < |parts| => Fill(parts[i], vars))
  }

  /* ---- One replacement ---- */

  lemma {:induction false} SkipClosed(text: string, rest: string, key: string, value: string)
    requires !CanOpen(text, key)
    ensures ReplaceAll(text + rest, Placeholder(key), value) == text + ReplaceAll(rest, Placeholder(key), value)
  {
    var pattern, s := Placeholder(key), text + rest;
    if text == "" {
      assert s == rest;
    } else {
      assert text[0..] == text && !OpensKey(text, 0, key);
      assert !(pattern <= s);
      assert !CanOpen(text[1..], key) by { TailCannotOpen(text, key); }
      SkipClosed(text[1..], rest, key, value);
      assert s[1..] == text[1..] + rest;
    }
  }

  lemma TailCannotOpen(text: string, key: string)
    requires text != "" && !CanOpen(text, key)
    ensures !CanOpen(text[1..], key)
  {
    if i :| 0 <= i < |text[1..]| && OpensKey(text[1..], i, key) {
      assert text[1..][i..] == text[i + 1..];
      assert OpensKey(text, i + 1, key);
    }
  }

  lemma InertCannotOpen(text: string, key: string)
    requires Inert(text)
    ensures !CanOpen(text, key)
  {
    if i :| 0 <= i < |text| && OpensKey(text, i, key) {
      var tail, pattern := text[i..], Placeholder(key);
      assert pattern[0] == '$' && pattern[1] == '{' && tail[0] == text[i];
      if |tail| > 1 { assert tail[1] == text[i + 1] && OpensAt(text, i); }
    }
  }

  /** A text without dollar signs opens nothing. */
  lemma NoDollar(text: string, key: string)
    requires '$' !in text
    ensures !CanOpen(text, key)
  {
    assert Inert(text);
    InertCannotOpen(text, key);
  }

  lemma OtherHole(other: string, key: string, rest: string)
    requires Plain(other) && Plain(key) && other != key
    ensures !(Placeholder(key) <= Placeholder(other) + rest)
  {
    var pattern, s := Placeholder(key), Placeholder(other) + rest;
    if |key| < |other| {
      assert other[|key|] in other && s[|key| + 2] == other[|key|] && pattern[|key| + 2] == '}';
    } else if |other| < |key| {
      assert key[|other|] in key && s[|other| + 2] == '}' && pattern[|other| + 2] == key[|other|];
    } else {
      var i :| 0 <= i < |key| && key[i] != other[i];
      assert pattern[i + 2] == key[i] && s[i + 2] == other[i];
    }
  }

  lemma ReplaceHole(hole: string, rest: string, key: string, value: string)
    requires Plain(hole) && Plain(key)
    ensures ReplaceAll(Placeholder(hole) + rest, Placeholder(key), value)
      == (if hole == key then value else Placeholder(hole)) + ReplaceAll(rest, Placeholder(key), value)
  {
    var s := Placeholder(hole) + rest;
    if hole == key {
      assert s[|Placeholder(key)|..] == rest;
    } else {
      OtherHole(hole, key, rest);
      var tail := "{" + hole + "}";
      assert s == "$" + (tail + rest);
      assert s[1..] == tail + rest;
      assert forall c :: c in tail ==> c != '$';
      NoDollar(tail, key);
      SkipClosed(tail, rest, key, value);
      assert Placeholder(hole) == "$" + tail;
    }
  }

  /** Replacing one key in a rendered template fills exactly its holes. */
  lemma {:induction false} ReplaceFills(parts: seq<Part>, key: string, value: string)
    requires SafeFor(parts, key) && Plain(key)
    ensures ReplaceAll(Render(parts), Placeholder(key), value) == Render(Substitute(parts, map[key := value]))
  {
    if parts != [] {
      var p, rest := parts[0], parts[1..];
      assert SafePart(p, key);
      var filled := Substitute(parts, map[key := value]);
      ReplaceFills(rest, key, value);
      assert filled[1..] == Substitute(rest, map[key := value]);
      match p
      case Lit(text) => SkipClosed(text, Render(rest), key, value);
      case Hole(hole) => ReplaceHole(hole, Render(rest), key, value);
    }
  }

  /** A key whose value is its own placeholder changes nothing. */
  lemma {:induction false} ReplaceBySame(s: string, pattern: string)
    requires pattern != ""
    ensures ReplaceAll(s, pattern, pattern) == s
  {
    if s != "" {
      if pattern <= s {
        ReplaceBySame(s[|pattern|..], pattern);
        assert s == pattern + s[|pattern|..];
      } else {
        ReplaceBySame(s[1..], pattern);
      }
    }
  }

  lemma {:induction false} FillBySame(parts: seq<Part>, key: string)
    ensures Render(Substitute(parts, map[key := Placeholder(key)])) == Render(parts)
  {
    if parts != [] {
      FillBySame(parts[1..], key);
      assert Substitute(parts, map[key := Placeholder(key)])[1..] == Substitute(parts[1..], map[key := Placeholder(key)]);
    }
  }

  lemma WellFormedIsSafe(parts: seq<Part>, vars: Vars)
    requires WellFormed(parts)
    ensures Safe(parts, vars)
  {
    forall key | Active(vars, key) ensures SafeFor(parts, key) {
      forall i | 0 <= i < |parts| ensures SafePart(parts[i], key) {
        assert WellFormedPart(parts[i]);
        if parts[i].Lit? { InertCannotOpen(parts[i].text, key); }
      }
    }
  }

  lemma SubstituteSafe(parts: seq<Part>, some: Vars, vars: Vars)
    requires Safe(parts, vars) && Harmless(vars) && forall k :: k in some ==> k in vars && some[k] == vars[k]
    ensures Safe(Substitute(parts, some), vars)
  {
    var filled := Substitute(parts, some);
    forall key | Active(vars, key) ensures SafeFor(filled, key) {
      forall i | 0 <= i < |parts| ensures SafePart(filled[i], key) {
        assert SafePart(parts[i], key);
      }
    }
  }

  /* ---- Any order ---- */

  /** Each key occurs, possibly several times, and nothing else does. */
  ghost predicate Covers(order: seq<string>, vars: Vars) {
    forall k :: k in order <==> k in vars
  }

  function Only(vars: Vars, keys: seq<string>): Vars {
    map k | k in vars && k in keys :: vars[k]
  }

  lemma SubstituteMore(parts: seq<Part>, vars: Vars, done: seq<string>, key: string)
    requires key in vars
    ensures Substitute(Substitute(parts, Only(vars, done)), map[key := vars[key]])
      == Substitute(parts, Only(vars, done + [key]))
  {}

  lemma {:induction false} InOrderFills(parts: seq<Part>, order: seq<string>, vars: Vars)
    requires Safe(parts, vars) && Harmless(vars) && forall k :: k in order ==> k in vars
    ensures ReplaceInOrder(Render(parts), order, vars) == Render(Substitute(parts, Only(vars, order)))
  {
    if order == [] {
      assert Substitute(parts, Only(vars, order)) == parts;
    } else {
      var last := |order| - 1;
      var before, key := order[..last], order[last];
      InOrderFills(parts, before, vars);
      NextKeyFills(parts, before, key, vars);
      assert order == before + [key];
    }
  }

  lemma NextKeyFills(parts: seq<Part>, done: seq<string>, key: string, vars: Vars)
    requires Safe(parts, vars) && Harmless(vars) && key in vars
    ensures ReplaceAll(Render(Substitute(parts, Only(vars, done))), Placeholder(key), vars[key])
      == Render(Substitute(parts, Only(vars, done + [key])))
  {
    SubstituteSafe(parts, Only(vars, done), vars);
    OneKeyFills(Substitute(parts, Only(vars, done)), key, vars);
    SubstituteMore(parts, vars, done, key);
  }

  lemma OneKeyFills(parts: seq<Part>, key: string, vars: Vars)
    requires Safe(parts, vars) && Harmless(vars) && key in vars
    ensures ReplaceAll(Render(parts), Placeholder(key), vars[key]) == Render(Substitute(parts, map[key := vars[key]]))
  {
    if Active(vars, key) {
      ReplaceFills(parts, key, vars[key]);
    } else {
      ReplaceBySame(Render(parts), Placeholder(key));
      FillBySame(parts, key);
    }
  }

  /** Sequential replacement in any order is simultaneous substitution. */
  lemma {:induction false} OrderDoesNotMatter(parts: seq<Part>, order: seq<string>, vars: Vars)
    requires Safe(parts, vars) && Harmless(vars) && Covers(order, vars)
    ensures ReplaceInOrder(Render(parts), order, vars) == Render(Substitute(parts, vars))
  {
    InOrderFills(parts, order, vars);
    assert Only(vars, order) == vars;
  }

  /** Resolving with some variables and later with more equals resolving with all of them. */
  lemma {:induction false} ResolvingIsIncremental(
    parts: seq<Part>, some: Vars, order: seq<string>, all: Vars, later: seq<string>)
    requires Safe(parts, all) && Harmless(all)
    requires Covers(order, some) && Covers(later, all)
    requires forall k :: k in some ==> k in all && all[k] == some[k]
    ensures ReplaceInOrder(ReplaceInOrder(Render(parts), order, some), later, all)
      == Render(Substitute(parts, all))
  {
    assert forall k :: Active(some, k) ==> Active(all, k);
    OrderDoesNotMatter(parts, order, some);
    SubstituteSafe(parts, some, all);
    OrderDoesNotMatter(Substitute(parts, some), later, all);
    assert Substitute(Substitute(parts, some), all) == Substitute(parts, all);
  }

  /* ---- Exactly when the order does not matter ---- */

  ghost predicate NoRepeats(order: seq<string>) {
    forall i, j :: 0 <= i < j < |order| ==> order[i] != order[j]
  }

  /** An order in which a `range` over the map may produce the variables: each of them once. */
  ghost predicate Once(order: seq<string>, vars: Vars) {
    Covers(order, vars) && NoRepeats(order)
  }

  /** The result for a well-formed template does not depend on the map's order. */
  ghost predicate OrderIndependent(vars: Vars) {
    forall parts, one, other | WellFormed(parts) && Once(one, vars) && Once(other, vars) ::
      ReplaceInOrder(Render(parts), one, vars) == ReplaceInOrder(Render(parts), other, vars)
  }

  /** No value can open the placeholder of another variable that is replaced. */
  ghost predicate Separate(vars: Vars) {
    forall k, h :: k in vars && Active(vars, h) && h != k ==> !CanOpen(vars[k], h)
  }

  lemma SubstituteSafeFor(parts: seq<Part>, some: Vars, vars: Vars, key: string)
    requires SafeFor(parts, key) && Separate(vars) && Active(vars, key) && key !in some
    requires forall k :: k in some ==> k in vars && some[k] == vars[k]
    ensures SafeFor(Substitute(parts, some), key)
  {
    var filled := Substitute(parts, some);
    forall i | 0 <= i < |parts| ensures SafePart(filled[i], key) { assert SafePart(parts[i], key); }
  }

  lemma {:induction false} NewKeyFills(parts: seq<Part>, done: seq<string>, key: string, vars: Vars)
    requires Safe(parts, vars) && PlainKeys(vars) && Separate(vars) && key in vars && key !in done
    ensures ReplaceAll(Render(Substitute(parts, Only(vars, done))), Placeholder(key), vars[key])
      == Render(Substitute(parts, Only(vars, done + [key])))
  {
    var filled := Substitute(parts, Only(vars, done));
    if Active(vars, key) {
      SubstituteSafeFor(parts, Only(vars, done), vars, key);
      ReplaceFills(filled, key, vars[key]);
    } else {
      ReplaceBySame(Render(filled), Placeholder(key));
      FillBySame(filled, key);
    }
    SubstituteMore(parts, vars, done, key);
  }

  lemma {:induction false} OnceFills(parts: seq<Part>, order: seq<string>, vars: Vars)
    requires Safe(parts, vars) && PlainKeys(vars) && Separate(vars)
    requires NoRepeats(order) && forall k :: k in order ==> k in vars
    ensures ReplaceInOrder(Render(parts), order, vars) == Render(Substitute(parts, Only(vars, order)))
  {
    if order == [] {
      assert Substitute(parts, Only(vars, order)) == parts;
    } else {
      var last := |order| - 1;
      var before, key := order[..last], order[last];
      OnceFills(parts, before, vars);
      NewKeyFills(parts, before, key, vars);
      assert order == before + [key];
    }
  }

  /** One pass over the variables is simultaneous substitution, even if values open their own
      placeholders. */
  lemma {:induction false} OnePassSubstitutes(parts: seq<Part>, order: seq<string>, vars: Vars)
    requires Safe(parts, vars) && PlainKeys(vars) && Separate(vars) && Once(order, vars)
    ensures ReplaceInOrder(Render(parts), order, vars) == Render(Substitute(parts, vars))
  {
    OnceFills(parts, order, vars);
    assert Only(vars, order) == vars;
  }

  /** Replacing an occurrence by something else is visible. */
  lemma {:induction false} ReplacementGrows(s: string, pattern: string, value: string)
    requires pattern != ""
    ensures |value| >= |pattern| ==> |ReplaceAll(s, pattern, value)| >= |s|
    ensures |value| <= |pattern| ==> |ReplaceAll(s, pattern, value)| <= |s|
  {
    if s != "" {
      ReplacementGrows(if pattern <= s then s[|pattern|..] else s[1..], pattern, value);
    }
  }

  lemma {:induction false} ReplacementShows(s: string, i: nat, pattern: string, value: string)
    requires pattern != "" && value != pattern && i < |s| && pattern <= s[i..]
    ensures ReplaceAll(s, pattern, value) != s
  {
    if pattern <= s {
      ReplacementGrows(s[|pattern|..], pattern, value);
      var r := ReplaceAll(s, pattern, value);
      assert |value| == |pattern| ==> r[..|pattern|] == value && s[..|pattern|] == pattern;
    } else {
      assert s[0..] == s;
      assert s[1..][i - 1..] == s[i..];
      ReplacementShows(s[1..], i - 1, pattern, value);
      assert ReplaceAll(s, pattern, value)[1..] == ReplaceAll(s[1..], pattern, value);
    }
  }

  lemma {:induction false} SomeOrder(keys: set<string>) returns (order: seq<string>)
    ensures (forall k :: k in order <==> k in keys) && NoRepeats(order)
  {
    order := [];
    if keys != {} {
      var k :| k in keys;
      var rest := SomeOrder(keys - {k});
      order := rest + [k];
    }
  }

  /** What completes the placeholder that a value leaves open; it opens nothing itself. */
  lemma {:induction false} Completion(value: string, key: string) returns (i: nat, rest: string)
    requires Plain(key) && CanOpen(value, key)
    ensures '$' !in rest && i < |value + rest| && Placeholder(key) <= (value + rest)[i..]
  {
    i :| 0 <= i < |value| && OpensKey(value, i, key);
    var pattern, tail := Placeholder(key), value[i..];
    if pattern <= tail {
      rest := "";
      assert value + rest == value;
    } else {
      rest := pattern[|tail|..];
      assert (value + rest)[i..] == tail + rest == pattern;
      assert forall j :: 0 < j < |pattern| ==> pattern[j] != '$';
    }
  }

  /** Keys other than `k` leave the placeholder of `k` and a text without dollar signs alone. */
  lemma {:induction false} OthersLeaveHole(k: string, rest: string, order: seq<string>, vars: Vars)
    requires PlainKeys(vars) && Plain(k) && '$' !in rest && (forall m :: m in order ==> m in vars) && k !in order
    ensures ReplaceInOrder(Placeholder(k) + rest, order, vars) == Placeholder(k) + rest
  {
    if order != [] {
      var last := |order| - 1;
      OthersLeaveHole(k, rest, order[..last], vars);
      var m := order[last];
      OneHoleReplaced(k, rest, m, vars[m]);
    }
  }

  lemma OneHoleReplaced(k: string, rest: string, m: string, value: string)
    requires Plain(k) && Plain(m) && '$' !in rest
    ensures ReplaceAll(Placeholder(k) + rest, Placeholder(m), value) == (if k == m then value else Placeholder(k)) + rest
  {
    ReplaceHole(k, rest, m, value);
    NoDollar(rest, m);
    SkipClosed(rest, "", m, value);
    assert rest + "" == rest && ReplaceAll("", Placeholder(m), value) == "";
  }

  lemma OneKeyMore(s: string, order: seq<string>, key: string, vars: Vars)
    requires key in vars && forall m :: m in order ==> m in vars
    ensures ReplaceInOrder(s, order + [key], vars)
      == ReplaceAll(ReplaceInOrder(s, order, vars), Placeholder(key), vars[key])
  {
    assert (order + [key])[..|order|] == order;
  }

  /** A template whose text after the other keys and then `k` is the value of `k` and `rest`. */
  lemma {:induction false} LeavesOpen(vars: Vars, k: string, rest: string, others: seq<string>)
    requires PlainKeys(vars) && k in vars && '$' !in rest && k !in others && forall m :: m in others ==> m in vars
    ensures WellFormed([Hole(k), Lit(rest)])
    ensures ReplaceInOrder(Render([Hole(k), Lit(rest)]), others + [k], vars) == vars[k] + rest
  {
    RenderTwo(Hole(k), Lit(rest));
    assert Inert(rest);
    OneKeyMore(Placeholder(k) + rest, others, k, vars);
    OthersLeaveHole(k, rest, others, vars);
    OneHoleReplaced(k, rest, k, vars[k]);
  }

  /** The two keys in both orders after all others. */
  lemma BothOrders(vars: Vars, k: string, h: string) returns (others: seq<string>)
    requires k in vars && h in vars && k != h
    ensures k !in others && h !in others && forall m :: m in others ==> m in vars
    ensures Once(others + [h] + [k], vars) && Once(others + [k] + [h], vars)
  {
    others := SomeOrder(vars.Keys - {k, h});
  }

  /** A value that can open the placeholder of another variable makes the map's order visible. */
  lemma {:induction false} OpeningShows(vars: Vars, k: string, h: string)
    returns (parts: seq<Part>, one: seq<string>, other: seq<string>)
    requires PlainKeys(vars) && k in vars && Active(vars, h) && k != h && CanOpen(vars[k], h)
    ensures WellFormed(parts) && Once(one, vars) && Once(other, vars)
    ensures ReplaceInOrder(Render(parts), one, vars) != ReplaceInOrder(Render(parts), other, vars)
  {
    var i, rest := Completion(vars[k], h);
    var others := BothOrders(vars, k, h);
    parts := [Hole(k), Lit(rest)];
    one, other := others + [h] + [k], others + [k] + [h];
    LeavesOpen(vars, k, rest, others + [h]);
    LeavesOpen(vars, k, rest, others);
    OneKeyMore(Render(parts), others + [k], h, vars);
    ReplacementShows(vars[k] + rest, i, Placeholder(h), vars[h]);
  }

  lemma RenderTwo(p: Part, q: Part)
    ensures Render([p, q]) == RenderPart(p) + RenderPart(q)
  {
    assert [p, q][1..] == [q] && [q][1..] == [];
    assert Render([q]) == RenderPart(q) + Render([]) == RenderPart(q);
  }

  /** The map's order does not matter exactly when no value can open the placeholder of another
      variable that is replaced. */
  lemma {:induction false} OrderIndependentIff(vars: Vars)
    requires PlainKeys(vars)
    ensures OrderIndependent(vars) <==> Separate(vars)
  {
    if Separate(vars) {
      forall parts, one, other | WellFormed(parts) && Once(one, vars) && Once(other, vars)
        ensures ReplaceInOrder(Render(parts), one, vars) == ReplaceInOrder(Render(parts), other, vars)
      {
        WellFormedIsSafe(parts, vars);
        OnePassSubstitutes(parts, one, vars);
        OnePassSubstitutes(parts, other, vars);
      }
    } else {
      var k, h :| k in vars && Active(vars, h) && h != k && CanOpen(vars[k], h);
      var parts, one, other := OpeningShows(vars, k, h);
    }
  }

  /* ---- Exactly when a second pass changes nothing ---- */

  /** Resolving a resolved text again, in any order, leaves it as it is. */
  ghost predicate Settles(vars: Vars) {
    forall parts, one, other | WellFormed(parts) && Once(one, vars) && Once(other, vars) ::
      var text := ReplaceInOrder(Render(parts), one, vars);
      ReplaceInOrder(text, other, vars) == text
  }

  lemma {:induction false} HarmlessSettles(vars: Vars)
    requires Harmless(vars)
    ensures Settles(vars)
  {
    forall parts, one, other | WellFormed(parts) && Once(one, vars) && Once(other, vars)
      ensures var text := ReplaceInOrder(Render(parts), one, vars); ReplaceInOrder(text, other, vars) == text
    {
      WellFormedIsSafe(parts, vars);
      OrderDoesNotMatter(parts, one, vars);
      ResolvingIsIncremental(parts, vars, one, vars, other);
    }
  }

  /** Keys other than `k` leave the value of `k` and a text without dollar signs alone. */
  lemma {:induction false} OthersLeaveValue(k: string, rest: string, order: seq<string>, vars: Vars)
    requires PlainKeys(vars) && Separate(vars) && k in vars && '$' !in rest && k !in order
    requires forall m :: m in order ==> m in vars
    ensures ReplaceInOrder(vars[k] + rest, order, vars) == vars[k] + rest
  {
    if order != [] {
      var last := |order| - 1;
      OthersLeaveValue(k, rest, order[..last], vars);
      OneKeyLeavesValue(k, rest, order[last], vars);
    }
  }

  lemma OneKeyLeavesValue(k: string, rest: string, m: string, vars: Vars)
    requires Separate(vars) && k in vars && m in vars && m != k && '$' !in rest
    ensures ReplaceAll(vars[k] + rest, Placeholder(m), vars[m]) == vars[k] + rest
  {
    if Active(vars, m) {
      SkipClosed(vars[k], rest, m, vars[m]);
      NoDollar(rest, m);
      SkipClosed(rest, "", m, vars[m]);
      assert rest + "" == rest && ReplaceAll("", Placeholder(m), vars[m]) == "";
    } else {
      ReplaceBySame(vars[k] + rest, Placeholder(m));
    }
  }

  /** A value that can open its own placeholder changes in a second pass. */
  lemma {:induction false} OwnOpeningUnsettles(vars: Vars, k: string)
    requires PlainKeys(vars) && Separate(vars) && Active(vars, k) && CanOpen(vars[k], k)
    ensures !Settles(vars)
  {
    var i, rest := Completion(vars[k], k);
    var others := SomeOrder(vars.Keys - {k});
    var parts, order, text := [Hole(k), Lit(rest)], others + [k], vars[k] + rest;
    assert Once(order, vars);
    LeavesOpen(vars, k, rest, others);
    assert ReplaceInOrder(text, order, vars) != text by {
      OneKeyMore(text, others, k, vars);
      OthersLeaveValue(k, rest, others, vars);
      ReplacementShows(text, i, Placeholder(k), vars[k]);
    }
  }

  /** Passes can be repeated in any orders exactly when no value can open a placeholder of a
      variable that is replaced, its own included. */
  lemma {:induction false} SettlesIff(vars: Vars)
    requires PlainKeys(vars)
    ensures OrderIndependent(vars) && Settles(vars) <==> Harmless(vars)
  {
    OrderIndependentIff(vars);
    if Harmless(vars) {
      HarmlessSettles(vars);
    } else if Separate(vars) {
      var k, h :| k in vars && Active(vars, h) && CanOpen(vars[k], h);
      OwnOpeningUnsettles(vars, k);
    }
  }

  /** Values without `${` that do not end in a dollar sign, JSON among them, do no harm. */
  ghost predicate InertVars(vars: Vars) {
    PlainKeys(vars) && forall k :: k in vars ==> Inert(vars[k])
  }

  lemma InertIsHarmless(vars: Vars)
    requires InertVars(vars)
    ensures Harmless(vars)
  {
    forall k, h | k in vars && Active(vars, h) ensures !CanOpen(vars[k], h) { InertCannotOpen(vars[k], h); }
  }

  /** Values must not hold placeholders: otherwise the order shows. */
  lemma PlaceholderValuesShowTheOrder()
    ensures var vars: Vars := map["a" := Placeholder("b"), "b" := "c"];
      && ReplaceInOrder(Placeholder("a"), ["a", "b"], vars) == "c"
      && ReplaceInOrder(Placeholder("a"), ["b", "a"], vars) == Placeholder("b")
  {
    var vars: Vars := map["a" := Placeholder("b"), "b" := "c"];
    ReplaceHole("a", "", "a", Placeholder("b"));
    ReplaceHole("b", "", "b", "c");
    ReplaceHole("a", "", "b", "c");
    assert Placeholder("a") + "" == Placeholder("a") && Placeholder("b") + "" == Placeholder("b");
    assert Placeholder("b") + ReplaceAll("", Placeholder("a"), Placeholder("b")) == Placeholder("b");
    assert Placeholder("a") + ReplaceAll("", Placeholder("b"), "c") == Placeholder("a");
    assert ["a", "b"][..1] == ["a"] && ["b", "a"][..1] == ["b"];
    assert ["a"][..0] == [] && ["b"][..0] == [];
  }

  /* ---- The check ---- */

  /** The regular expression `\$\{.*\}` matches at `i`, up to the brace at `j`. */
  predicate MatchesAt(s: string, i: int, j: int) {
    OpensAt(s, i) && i + 2 <= j < |s| && s[j] == '}' && '\n' !in s[i + 2..j]
  }

  predicate Unresolved(s: string) {
    exists i, j :: 0 <= i < |s| && 0 <= j < |s| && MatchesAt(s, i, j)
  }

  lemma {:induction false} RenderSplits(parts: seq<Part>, i: nat)
    requires i < |parts|
    ensures Render(parts) == Render(parts[..i]) + RenderPart(parts[i]) + Render(parts[i + 1..])
  {
    if i > 0 {
      RenderSplits(parts[1..], i - 1);
      assert parts[1..][..i - 1] == parts[..i][1..];
      assert parts[1..][i..] == parts[i + 1..];
    }
  }

  /** In a well-formed template only placeholders open, and each where it stands. */
  lemma {:induction false} OpensAtHole(parts: seq<Part>, i: nat) returns (n: nat)
    requires WellFormed(parts) && OpensAt(Render(parts), i)
    ensures n < |parts| && parts[n].Hole? && |Render(parts[..n])| == i
  {
    var p, rest := parts[0], parts[1..];
    var text := RenderPart(p);
    assert WellFormedPart(p);
    if i < |text| {
      assert i == 0 && p.Hole? by { OpensInPart(p, Render(rest), i); }
      assert parts[..0] == [];
      n := 0;
    } else {
      assert OpensAt(Render(rest), i - |text|);
      var m := OpensAtHole(rest, i - |text|);
      n := m + 1;
      assert parts[..n][1..] == rest[..m] && parts[..n][0] == p;
    }
  }

  lemma OpensInPart(p: Part, rest: string, i: nat)
    requires WellFormedPart(p) && i < |RenderPart(p)| && OpensAt(RenderPart(p) + rest, i)
    ensures i == 0 && p.Hole?
  {
    var text := RenderPart(p);
    match p
    case Lit(_) => if i < |text| - 1 { assert OpensAt(text, i); }
    case Hole(_) => assert forall m :: 0 < m < |text| ==> text[m] != '$';
  }

  /** The check passes exactly when every placeholder whose key stands on one line is defined. */
  lemma {:induction false} CheckIsExact(parts: seq<Part>, vars: Vars)
    requires WellFormed(parts) && InertVars(vars)
    ensures Unresolved(Render(Substitute(parts, vars))) <==>
      exists p :: p in parts && p.Hole? && p.key !in vars && '\n' !in p.key
  {
    var filled := Substitute(parts, vars);
    assert WellFormed(filled);
    var s := Render(filled);
    if p :| p in parts && p.Hole? && p.key !in vars && '\n' !in p.key {
      var n :| 0 <= n < |parts| && parts[n] == p;
      RenderSplits(filled, n);
      HoleIsSeen(Render(filled[..n]), p.key, Render(filled[n + 1..]));
    }
    if i, j :| 0 <= i < |s| && 0 <= j < |s| && MatchesAt(s, i, j) {
      var n := OpensAtHole(filled, i);
      RenderSplits(filled, n);
      SeenKeyHasOneLine(Render(filled[..n]), filled[n].key, Render(filled[n + 1..]), j);
      assert parts[n] in parts && parts[n] == filled[n];
    }
  }

  lemma SeenKeyHasOneLine(before: string, key: string, after: string, j: int)
    requires Plain(key) && MatchesAt(before + Placeholder(key) + after, |before|, j)
    ensures '\n' !in key
  {
    var s, start := before + Placeholder(key) + after, |before| + 2;
    assert s[start..start + |key|] == key;
    assert forall m :: 0 <= m < |key| ==> s[start + m] == key[m];
    assert j >= start + |key|;
    assert s[start..j][..|key|] == key;
  }

  lemma HoleIsSeen(before: string, key: string, after: string)
    requires '\n' !in key
    ensures Unresolved(before + Placeholder(key) + after)
  {
    var s, i := before + Placeholder(key) + after, |before|;
    assert s[i] == '$' && s[i + 1] == '{' && s[i + 2 + |key|] == '}';
    assert s[i + 2..i + 2 + |key|] == key;
    assert MatchesAt(s, i, i + 2 + |key|);
  }
}

/** `resolveVariables`, which rewrites the texts of an application in place. */
module VariableResolution {
  import opened Substitution

  /** `after` is `before` with each variable replaced once, in some order. */
  ghost predicate Resolves(before: string, after: string, vars: Vars) {
    exists order :: Once(order, vars) && after == ReplaceInOrder(before, order, vars)
  }

  /** Each variable has been replaced at least once, as several passes do. */
  ghost predicate ResolvesOften(before: string, after: string, vars: Vars) {
    exists order :: Covers(order, vars) && after == ReplaceInOrder(before, order, vars)
  }

  ghost predicate ResolvesAll(before: seq<string>, after: seq<string>, vars: Vars) {
    |after| == |before| && forall i :: 0 <= i < |before| ==> Resolves(before[i], after[i], vars)
  }

  lemma {:induction false} InOrderConcat(s: string, first: seq<string>, second: seq<string>, vars: Vars)
    requires forall k :: k in first || k in second ==> k in vars
    ensures ReplaceInOrder(ReplaceInOrder(s, first, vars), second, vars) == ReplaceInOrder(s, first + second, vars)
  {
    if second == [] {
      assert first + second == first;
    } else {
      var last := |second| - 1;
      InOrderConcat(s, first, second[..last], vars);
      assert (first + second)[..|first| + last] == first + second[..last];
    }
  }

  lemma ResolvesTwice(a: string, b: string, c: string, vars: Vars)
    requires ResolvesOften(a, b, vars) && Resolves(b, c, vars)
    ensures ResolvesOften(a, c, vars)
  {
    var first :| Covers(first, vars) && b == ReplaceInOrder(a, first, vars);
    var second :| Once(second, vars) && c == ReplaceInOrder(b, second, vars);
    InOrderConcat(a, first, second, vars);
    assert Covers(first + second, vars);
  }

  /** What one pass makes of a template, whatever order it took. */
  lemma {:induction false} ResolvesTemplate(parts: seq<Part>, after: string, vars: Vars)
    requires Safe(parts, vars) && PlainKeys(vars) && Separate(vars) && Resolves(Render(parts), after, vars)
    ensures after == Render(Substitute(parts, vars))
  {
    var order :| Once(order, vars) && after == ReplaceInOrder(Render(parts), order, vars);
    OnePassSubstitutes(parts, order, vars);
  }

  /** What several passes make of it. */
  lemma {:induction false} ResolvesTemplateOften(parts: seq<Part>, after: string, vars: Vars)
    requires Safe(parts, vars) && Harmless(vars) && ResolvesOften(Render(parts), after, vars)
    ensures after == Render(Substitute(parts, vars))
  {
    var order :| Covers(order, vars) && after == ReplaceInOrder(Render(parts), order, vars);
    OrderDoesNotMatter(parts, order, vars);
  }

  /** The keys done so far and those still to come, in a `range` over the variables. */
  ghost predicate Ranging(done: seq<string>, todo: set<string>, vars: Vars) {
    && todo <= vars.Keys && NoRepeats(done) && |done| + |todo| == |vars.Keys|
    && (forall k :: k in done <==> k in vars && k !in todo)
  }

  /** `now` is `before` with the keys of `done` replaced in every element. */
  ghost predicate DoneIn(before: seq<string>, now: seq<string>, done: seq<string>, vars: Vars)
    requires forall k :: k in done ==> k in vars
  {
    |now| == |before| && forall i :: 0 <= i < |before| ==> now[i] == ReplaceInOrder(before[i], done, vars)
  }

  ghost predicate DoneInMap(before: Vars, now: Vars, done: seq<string>, vars: Vars)
    requires forall k :: k in done ==> k in vars
  {
    now.Keys == before.Keys && forall i :: i in before ==> now[i] == ReplaceInOrder(before[i], done, vars)
  }

  ghost predicate DoneInLists(before: seq<seq<string>>, now: seq<seq<string>>, done: seq<string>, vars: Vars)
    requires forall k :: k in done ==> k in vars
  {
    && |now| == |before|
    && (forall n :: 0 <= n < |before| ==> |now[n]| == |before[n]|)
    && (forall n, i :: 0 <= n < |before| && 0 <= i < |before[n]| ==>
          now[n][i] == ReplaceInOrder(before[n][i], done, vars))
  }

  datatype PlainTexts = PlainTexts(launchCommand: string, env: Vars, scheduler: Vars, args: seq<string>,
                                   tasks: seq<seq<string>>)

  ghost predicate DoneInTexts(before: PlainTexts, now: PlainTexts, done: seq<string>, vars: Vars)
    requires forall k :: k in done ==> k in vars
  {
    && now.launchCommand == ReplaceInOrder(before.launchCommand, done, vars)
    && DoneInMap(before.env, now.env, done, vars) && DoneInMap(before.scheduler, now.scheduler, done, vars)
    && DoneIn(before.args, now.args, done, vars) && DoneInLists(before.tasks, now.tasks, done, vars)
  }

  method ReplaceInList(texts: seq<string>, pattern: string, value: string) returns (r: seq<string>)
    requires pattern != ""
    ensures |r| == |texts| && forall i :: 0 <= i < |texts| ==> r[i] == ReplaceAll(texts[i], pattern, value)
  {
    r := texts;
    for i := 0 to |texts|
      invariant |r| == |texts|
      invariant forall j :: 0 <= j < i ==> r[j] == ReplaceAll(texts[j], pattern, value)
      invariant forall j :: i <= j < |texts| ==> r[j] == texts[j]
    {
      r := r[i := ReplaceAll(r[i], pattern, value)];
    }
  }

  method ReplaceInLists(lists: seq<seq<string>>, pattern: string, value: string) returns (r: seq<seq<string>>)
    requires pattern != ""
    ensures |r| == |lists|
    ensures forall n :: 0 <= n < |lists| ==> |r[n]| == |lists[n]|
    ensures forall n, i :: 0 <= n < |lists| && 0 <= i < |lists[n]| ==> r[n][i] == ReplaceAll(lists[n][i], pattern, value)
  {
    r := [];
    for n := 0 to |lists|
      invariant |r| == n && forall m :: 0 <= m < n ==> |r[m]| == |lists[m]|
      invariant forall m, i :: 0 <= m < n && 0 <= i < |lists[m]| ==> r[m][i] == ReplaceAll(lists[m][i], pattern, value)
    {
      var list := ReplaceInList(lists[n], pattern, value);
      r := r + [list];
    }
  }

  method ReplaceInMap(texts: Vars, pattern: string, value: string) returns (r: Vars)
    requires pattern != ""
    ensures r.Keys == texts.Keys && forall i :: i in texts ==> r[i] == ReplaceAll(texts[i], pattern, value)
  {
    r := texts;
    var todo := texts.Keys;
    while todo != {}
      invariant todo <= texts.Keys && r.Keys == texts.Keys
      invariant forall i :: i in texts ==> r[i] == if i in todo then texts[i] else ReplaceAll(texts[i], pattern, value)
    {
      var i :| i in todo;
      todo := todo - {i};
      r := r[i := ReplaceAll(r[i], pattern, value)];
    }
  }

  /** `resolveCmdVariables`: every variable, in any order, in every command. */
  method ResolveCommands(commands: seq<string>, vars: Vars) returns (r: seq<string>)
    ensures ResolvesAll(commands, r, vars)
  {
    r := commands;
    var todo := vars.Keys;
    ghost var done: seq<string> := [];
    while todo != {}
      invariant Ranging(done, todo, vars) && DoneIn(commands, r, done, vars)
    {
      var k :| k in todo;
      RangingSteps(done, todo, vars, k);
      r := ReplaceInList(r, Placeholder(k), vars[k]);
      todo, done := todo - {k}, done + [k];
    }
    assert Once(done, vars);
  }

  class ApplicationTexts {
    var launchCommand: string
    var env: Vars
    var scheduler: Vars
    var args: seq<string>
    var tasks: seq<seq<string>>   // the values of each task
    var hooks: seq<seq<string>>   // the five lists of shell commands

    /** Replaces every variable, in any order, in all texts; the command lists are resolved
        afresh for each variable. */
    method ResolveVariables(vars: Vars)
      modifies this
      ensures Resolves(old(launchCommand), launchCommand, vars)
      ensures ResolvesAll(old(args), args, vars)
      ensures env.Keys == old(env).Keys && forall i :: i in env ==> Resolves(old(env)[i], env[i], vars)
      ensures scheduler.Keys == old(scheduler).Keys
        && forall i :: i in scheduler ==> Resolves(old(scheduler)[i], scheduler[i], vars)
      ensures ListsResolved(old(tasks), tasks, vars) && ListsResolvedTimes(old(hooks), hooks, vars, |vars|)
    {
      var todo := vars.Keys;
      ghost var done: seq<string> := [];
      while todo != {}
        invariant Ranging(done, todo, vars)
        invariant DoneInTexts(old(Texts()), Texts(), done, vars)
        invariant ListsResolvedTimes(old(hooks), hooks, vars, |done|)
      {
        var k :| k in todo;
        RangingSteps(done, todo, vars, k);
        ReplaceVariable(k, vars, old(Texts()), done);
        ResolveHooks(vars, old(hooks), |done|);
        todo, done := todo - {k}, done + [k];
      }
      assert Once(done, vars);
    }

    /** The texts in which each variable is replaced once. */
    ghost function Texts(): PlainTexts
      reads this
    {
      PlainTexts(launchCommand, env, scheduler, args, tasks)
    }

    /** Replaces one variable in these texts. */
    method ReplaceVariable(k: string, vars: Vars, ghost start: PlainTexts, ghost done: seq<string>)
      requires k in vars && forall d :: d in done ==> d in vars
      requires DoneInTexts(start, Texts(), done, vars)
      modifies this`launchCommand, this`env, this`scheduler, this`args, this`tasks
      ensures DoneInTexts(start, Texts(), done + [k], vars)
    {
      launchCommand := ReplaceAll(launchCommand, Placeholder(k), vars[k]);
      env := ReplaceInMap(env, Placeholder(k), vars[k]);
      scheduler := ReplaceInMap(scheduler, Placeholder(k), vars[k]);
      args := ReplaceInList(args, Placeholder(k), vars[k]);
      tasks := ReplaceInLists(tasks, Placeholder(k), vars[k]);
      ReplacedOneMore(done, vars, k);
    }

    /** Resolves each command list again. */
    method ResolveHooks(vars: Vars, ghost start: seq<seq<string>>, ghost passes: nat)
      requires ListsResolvedTimes(start, hooks, vars, passes)
      modifies this`hooks
      ensures ListsResolvedTimes(start, hooks, vars, passes + 1)
    {
      ghost var before := hooks;
      var i := 0;
      while i < |hooks|
        invariant 0 <= i <= |hooks| == |before|
        invariant forall j :: 0 <= j < i ==> ResolvesAll(before[j], hooks[j], vars)
        invariant forall j :: i <= j < |before| ==> hooks[j] == before[j]
      {
        var resolved := ResolveCommands(hooks[i], vars);
        hooks := hooks[i := resolved];
        i := i + 1;
      }
      OnePassMore(start, before, hooks, vars, passes);
    }
  }

  ghost predicate ListsResolved(before: seq<seq<string>>, now: seq<seq<string>>, vars: Vars) {
    |now| == |before| && forall i :: 0 <= i < |before| ==> ResolvesAll(before[i], now[i], vars)
  }

  /** As many passes over all lists, one after the other. */
  ghost predicate ListsResolvedTimes(before: seq<seq<string>>, now: seq<seq<string>>, vars: Vars, passes: nat)
    decreases passes
  {
    if passes == 0 then now == before
    else exists mid :: ListsResolvedTimes(before, mid, vars, passes - 1) && ListsResolved(mid, now, vars)
  }

  lemma OnePassMore(a: seq<seq<string>>, b: seq<seq<string>>, c: seq<seq<string>>, vars: Vars, passes: nat)
    requires ListsResolvedTimes(a, b, vars, passes) && ListsResolved(b, c, vars)
    ensures ListsResolvedTimes(a, c, vars, passes + 1)
  {}

  /** The passes over the command lists, of which there are as many as variables, replace each
      variable at least once. */
  lemma {:induction false} TimesIsOften(a: seq<seq<string>>, c: seq<seq<string>>, vars: Vars, passes: nat)
    requires ListsResolvedTimes(a, c, vars, passes) && (passes == 0 ==> vars == map[])
    ensures ListsResolvedOften(a, c, vars)
    decreases passes
  {
    if passes == 0 {
      NothingToResolve(a, vars);
    } else {
      var b :| ListsResolvedTimes(a, b, vars, passes - 1) && ListsResolved(b, c, vars);
      if passes == 1 {
        FirstPass(a, c, vars);
      } else {
        TimesIsOften(a, b, vars, passes - 1);
        NextPass(a, b, c, vars);
      }
    }
  }

  ghost predicate ListsResolvedOften(before: seq<seq<string>>, now: seq<seq<string>>, vars: Vars) {
    && |now| == |before|
    && (forall i :: 0 <= i < |before| ==> |now[i]| == |before[i]|)
    && (forall i, j :: 0 <= i < |before| && 0 <= j < |before[i]| ==> ResolvesOften(before[i][j], now[i][j], vars))
  }

  lemma FirstPass(a: seq<seq<string>>, b: seq<seq<string>>, vars: Vars)
    requires ListsResolved(a, b, vars)
    ensures ListsResolvedOften(a, b, vars)
  {
    forall i, j | 0 <= i < |a| && 0 <= j < |a[i]| ensures ResolvesOften(a[i][j], b[i][j], vars) {
      assert ResolvesAll(a[i], b[i], vars) && Resolves(a[i][j], b[i][j], vars);
    }
  }

  lemma NextPass(a: seq<seq<string>>, b: seq<seq<string>>, c: seq<seq<string>>, vars: Vars)
    requires ListsResolvedOften(a, b, vars) && ListsResolved(b, c, vars)
    ensures ListsResolvedOften(a, c, vars)
  {
    forall i, j | 0 <= i < |a| && 0 <= j < |a[i]| ensures ResolvesOften(a[i][j], c[i][j], vars) {
      assert ResolvesAll(b[i], c[i], vars) && Resolves(b[i][j], c[i][j], vars);
      ResolvesTwice(a[i][j], b[i][j], c[i][j], vars);
    }
  }

  /** `ensureVariablesResolved` on a list of texts. */
  method EnsureResolved(texts: seq<string>) returns (ok: bool)
    ensures ok <==> forall i :: 0 <= i < |texts| ==> !Unresolved(texts[i])
  {
    for i := 0 to |texts|
      invariant forall j :: 0 <= j < i ==> !Unresolved(texts[j])
    {
      if Unresolved(texts[i]) {
        return false;
      }
    }
    return true;
  }

  lemma NothingToResolve(hooks: seq<seq<string>>, vars: Vars)
    ensures vars == map[] ==> ListsResolvedOften(hooks, hooks, vars)
  {
    if vars == map[] {
      forall s: string ensures ResolvesOften(s, s, vars) {
        assert Covers([], vars) && s == ReplaceInOrder(s, [], vars);
      }
    }
  }

  lemma ReplacedOneMore(done: seq<string>, vars: Vars, k: string)
    requires k in vars && forall d :: d in done ==> d in vars
    ensures forall s ::
      ReplaceInOrder(s, done + [k], vars) == ReplaceAll(ReplaceInOrder(s, done, vars), Placeholder(k), vars[k])
  {
    assert (done + [k])[..|done|] == done;
  }

  lemma RangingSteps(done: seq<string>, todo: set<string>, vars: Vars, k: string)
    requires Ranging(done, todo, vars) && k in todo
    ensures Ranging(done + [k], todo - {k}, vars)
    ensures forall s ::
      ReplaceInOrder(s, done + [k], vars) == ReplaceAll(ReplaceInOrder(s, done, vars), Placeholder(k), vars[k])
  {
    ReplacedOneMore(done, vars, k);
  }
}
