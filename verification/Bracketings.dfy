/** Exactly when the bracketing of a chain of merges matters. Only scheduler keys can tell, so
    the proof follows one key of one application through the chain. */
module Bracketings {
  import opened Inheritance

  /** What a stack says of one scheduler key of one application. */
  datatype Mark = NoApp | NoKey | Value(text: string)

  function MarkOf(apps: Apps, n: string, k: string): Mark {
    if n !in apps then NoApp else if k !in apps[n].scheduler then NoKey else Value(apps[n].scheduler[k])
  }

  function Marks(chain: seq<Apps>, n: string, k: string): seq<Mark> {
    seq(|chain|, i requires 0 <= i < |chain| => MarkOf(chain[i], n, k))
  }

  /** Merging, seen by the key. */
  function Lay(p: Mark, c: Mark): Mark {
    if c.NoApp? || (c.NoKey? && !p.NoApp?) then p
    else if c == Value("") && !p.NoApp? then NoKey
    else c
  }

  lemma LayMarks(p: Apps, c: Apps, n: string, k: string)
    ensures MarkOf(MergeApps(p, c), n, k) == Lay(MarkOf(p, n, k), MarkOf(c, n, k))
  {}

  /** Position `i` holds the oldest definition of the application. */
  ghost predicate Oldest(ms: seq<Mark>, i: nat) {
    i < |ms| && !ms[i].NoApp? && forall j :: 0 <= j < i ==> ms[j].NoApp?
  }

  /** Position `l` holds the last mention of the key. */
  ghost predicate LastValue(ms: seq<Mark>, l: nat) {
    l < |ms| && ms[l].Value? && forall j :: l < j < |ms| ==> !ms[j].Value?
  }

  /** A value that nothing but a removal can take away: it is not itself a removal. */
  ghost predicate Stands(ms: seq<Mark>, i: nat) {
    i < |ms| && ms[i].Value? && (ms[i].text != "" || Oldest(ms, i))
  }

  /** The last mention removes the key, an earlier one stands, and another definition of the
      application lies between them: merged with that one first, the removal is lost. */
  ghost predicate ClashAt(ms: seq<Mark>, i: nat, j: nat, l: nat) {
    i < j < l && Stands(ms, i) && LastValue(ms, l) && ms[l] == Value("") && !ms[j].NoApp?
  }

  ghost predicate Clashes(ms: seq<Mark>) {
    exists i: nat, j: nat, l: nat :: ClashAt(ms, i, j, l)
  }

  /* ---- What a bracketing can make of the key ---- */

  ghost predicate Defines(ms: seq<Mark>, r: Mark) {
    r.NoApp? <==> forall i :: 0 <= i < |ms| ==> ms[i].NoApp?
  }

  ghost predicate Comes(ms: seq<Mark>, r: Mark) {
    r.Value? ==> exists i: nat :: Stands(ms, i) && ms[i] == r
  }

  ghost predicate Decides(ms: seq<Mark>, r: Mark) {
    forall l: nat :: LastValue(ms, l) && Stands(ms, l) ==> r == ms[l]
  }

  ghost predicate Outlives(ms: seq<Mark>, r: Mark) {
    forall l: nat :: LastValue(ms, l) && !Stands(ms, l) && r.Value? ==>
      exists i: nat, j: nat :: ClashAt(ms, i, j, l) && ms[i] == r
  }

  ghost predicate Possible(ms: seq<Mark>, r: Mark) {
    Defines(ms, r) && Comes(ms, r) && Decides(ms, r) && Outlives(ms, r)
  }

  lemma LeftStands(a: seq<Mark>, b: seq<Mark>, i: nat)
    requires Stands(a, i)
    ensures Stands(a + b, i)
  {}

  lemma RightStands(a: seq<Mark>, b: seq<Mark>, i: nat)
    requires Stands(b, i) && (b[i].text != "" || forall j :: 0 <= j < |a| ==> a[j].NoApp?)
    ensures Stands(a + b, |a| + i)
  {}

  lemma {:induction false} LayComes(a: seq<Mark>, p: Mark, b: seq<Mark>, c: Mark)
    requires Possible(a, p) && Possible(b, c)
    ensures Comes(a + b, Lay(p, c))
  {
    var r := Lay(p, c);
    if r.Value? {
      if r == p && (c.NoApp? || c.NoKey?) {
        var i: nat :| Stands(a, i) && a[i] == r;
        LeftStands(a, b, i);
      } else {
        var i: nat :| Stands(b, i) && b[i] == r;
        RightStands(a, b, i);
      }
    }
  }

  /** Where the last mention of a joined sequence is. */
  lemma LastInParts(a: seq<Mark>, b: seq<Mark>, l: nat)
    requires LastValue(a + b, l)
    ensures l >= |a| ==> LastValue(b, l - |a|)
    ensures l < |a| ==> LastValue(a, l) && forall j :: 0 <= j < |b| ==> !b[j].Value?
  {
    if l < |a| {
      forall j | 0 <= j < |b| ensures !b[j].Value? { assert (a + b)[|a| + j] == b[j]; }
      forall j | l < j < |a| ensures !a[j].Value? { assert (a + b)[j] == a[j]; }
    } else {
      forall j | l - |a| < j < |b| ensures !b[j].Value? { assert (a + b)[|a| + j] == b[j]; }
    }
  }

  lemma StandsInParts(a: seq<Mark>, b: seq<Mark>, l: nat)
    requires l < |a + b| && (a + b)[l].Value?
    ensures l < |a| ==> (Stands(a + b, l) <==> Stands(a, l))
    ensures l >= |a| ==>
      (Stands(a + b, l) <==> b[l - |a|].text != "" || (Oldest(b, l - |a|) && forall j :: 0 <= j < |a| ==> a[j].NoApp?))
  {
    if l < |a| {
      assert forall j :: 0 <= j < |a| ==> (a + b)[j] == a[j];
    } else {
      assert forall j :: 0 <= j < |a| ==> (a + b)[j] == a[j];
      assert forall j :: 0 <= j < |b| ==> (a + b)[|a| + j] == b[j];
      assert (forall j :: 0 <= j < l ==> (a + b)[j].NoApp?) ==>
        (forall j :: 0 <= j < |a| ==> a[j].NoApp?) && forall j :: 0 <= j < l - |a| ==> b[j].NoApp?;
    }
  }

  lemma {:induction false} NoMention(b: seq<Mark>, c: Mark)
    requires Possible(b, c) && forall j :: 0 <= j < |b| ==> !b[j].Value?
    ensures !c.Value?
  {}

  lemma {:induction false} LayDecides(a: seq<Mark>, p: Mark, b: seq<Mark>, c: Mark, l: nat)
    requires Possible(a, p) && Possible(b, c) && LastValue(a + b, l) && Stands(a + b, l)
    ensures Lay(p, c) == (a + b)[l]
  {
    LastInParts(a, b, l);
    StandsInParts(a, b, l);
    if l < |a| { NoMention(b, c); }
  }

  /** A clash of the right part is one of the whole. */
  lemma RightClash(a: seq<Mark>, b: seq<Mark>, i: nat, j: nat, l: nat)
    requires ClashAt(b, i, j, l) && LastValue(a + b, |a| + l) && Stands(a + b, |a| + i)
    ensures ClashAt(a + b, |a| + i, |a| + j, |a| + l)
  {}

  lemma LeftClash(a: seq<Mark>, b: seq<Mark>, i: nat, j: nat, l: nat)
    requires ClashAt(a, i, j, l) && LastValue(a + b, l)
    ensures ClashAt(a + b, i, j, l)
  {
    LeftStands(a, b, i);
  }

  lemma {:induction false} OutlivesLeft(a: seq<Mark>, p: Mark, b: seq<Mark>, c: Mark, l: nat)
    requires Possible(a, p) && Possible(b, c) && LastValue(a + b, l) && !Stands(a + b, l) && Lay(p, c).Value?
    requires l < |a|
    ensures exists i: nat, j: nat :: ClashAt(a + b, i, j, l) && (a + b)[i] == Lay(p, c)
  {
    LastInParts(a, b, l);
    StandsInParts(a, b, l);
    NoMention(b, c);
    var i: nat, j: nat :| ClashAt(a, i, j, l) && a[i] == p;
    LeftClash(a, b, i, j, l);
  }

  lemma {:induction false} OutlivesRight(a: seq<Mark>, p: Mark, b: seq<Mark>, c: Mark, l: nat)
    requires Possible(a, p) && Possible(b, c) && LastValue(a + b, l) && !Stands(a + b, l) && Lay(p, c).Value?
    requires l >= |a| && c.Value?
    ensures exists i: nat, j: nat :: ClashAt(a + b, i, j, l) && (a + b)[i] == Lay(p, c)
  {
    LastInParts(a, b, l);
    StandsInParts(a, b, l);
    var i: nat, j: nat :| ClashAt(b, i, j, l - |a|) && b[i] == c;
    RightStands(a, b, i);
    RightClash(a, b, i, j, l - |a|);
  }

  /** The removal was merged with a definition before it, and is lost. */
  lemma {:induction false} OutlivesAcross(a: seq<Mark>, p: Mark, b: seq<Mark>, c: Mark, l: nat)
    requires Possible(a, p) && Possible(b, c) && LastValue(a + b, l) && !Stands(a + b, l) && Lay(p, c).Value?
    requires l >= |a| && !c.Value?
    ensures exists i: nat, j: nat :: ClashAt(a + b, i, j, l) && (a + b)[i] == Lay(p, c)
  {
    LastInParts(a, b, l);
    StandsInParts(a, b, l);
    assert !Stands(b, l - |a|) && !Oldest(b, l - |a|);
    var j: nat :| j < l - |a| && !b[j].NoApp?;
    var i: nat :| Stands(a, i) && a[i] == p;
    LeftStands(a, b, i);
    assert ClashAt(a + b, i, |a| + j, l);
  }

  lemma {:induction false} LayPossible(a: seq<Mark>, p: Mark, b: seq<Mark>, c: Mark)
    requires Possible(a, p) && Possible(b, c)
    ensures Possible(a + b, Lay(p, c))
  {
    LayDefines(a, p, b, c);
    LayComes(a, p, b, c);
    forall l: nat | LastValue(a + b, l) && Stands(a + b, l) ensures Lay(p, c) == (a + b)[l] {
      LayDecides(a, p, b, c, l);
    }
    forall l: nat | LastValue(a + b, l) && !Stands(a + b, l) && Lay(p, c).Value?
      ensures exists i: nat, j: nat :: ClashAt(a + b, i, j, l) && (a + b)[i] == Lay(p, c)
    {
      if l < |a| {
        OutlivesLeft(a, p, b, c, l);
      } else if c.Value? {
        OutlivesRight(a, p, b, c, l);
      } else {
        OutlivesAcross(a, p, b, c, l);
      }
    }
  }

  lemma LayDefines(a: seq<Mark>, p: Mark, b: seq<Mark>, c: Mark)
    requires Defines(a, p) && Defines(b, c)
    ensures Defines(a + b, Lay(p, c))
  {
    assert forall i :: 0 <= i < |a| ==> (a + b)[i] == a[i];
    assert forall i :: 0 <= i < |b| ==> (a + b)[|a| + i] == b[i];
  }

  /** So whatever the bracketing, the key ends as its marks allow. */
  lemma {:induction false} TreePossible(t: Bracketing, n: string, k: string)
    ensures Possible(Marks(Leaves(t), n, k), MarkOf(Evaluate(t), n, k))
  {
    match t
    case Leaf(apps) => OneMark(MarkOf(apps, n, k)); assert Marks([apps], n, k) == [MarkOf(apps, n, k)];
    case Node(l, r) =>
      TreePossible(l, n, k);
      TreePossible(r, n, k);
      LayMarks(Evaluate(l), Evaluate(r), n, k);
      LayPossible(Marks(Leaves(l), n, k), MarkOf(Evaluate(l), n, k), Marks(Leaves(r), n, k), MarkOf(Evaluate(r), n, k));
      MarksJoin(Leaves(l), Leaves(r), n, k);
  }

  lemma MarksJoin(a: seq<Apps>, b: seq<Apps>, n: string, k: string)
    ensures Marks(a + b, n, k) == Marks(a, n, k) + Marks(b, n, k)
  {}

  lemma OneMark(m: Mark)
    ensures Possible([m], m)
  {
    var ms := [m];
    assert ms[0] == m;
    if m.Value? { assert Stands(ms, 0); }
  }

  lemma {:induction false} SomeLast(ms: seq<Mark>, i: nat) returns (l: nat)
    requires i < |ms| && ms[i].Value?
    ensures LastValue(ms, l)
    decreases |ms| - i
  {
    if j :| i < j < |ms| && ms[j].Value? { l := SomeLast(ms, j); } else { l := i; }
  }

  /** Without a clash the marks decide the key. */
  lemma {:induction false} NoClashDecides(ms: seq<Mark>, r: Mark, q: Mark)
    requires Possible(ms, r) && Possible(ms, q) && !Clashes(ms)
    ensures r == q
  {
    if i: nat :| i < |ms| && ms[i].Value? {
      var l := SomeLast(ms, i);
      if !Stands(ms, l) { NeverOutlives(ms, r, l); NeverOutlives(ms, q, l); }
    }
  }

  lemma NeverOutlives(ms: seq<Mark>, r: Mark, l: nat)
    requires Outlives(ms, r) && !Clashes(ms) && LastValue(ms, l) && !Stands(ms, l)
    ensures !r.Value?
  {}

  /* ---- A bracketing that loses a removal ---- */

  function Comb(chain: seq<Apps>): Bracketing
    requires chain != []
  {
    if |chain| == 1 then Leaf(chain[0]) else Node(Comb(chain[..|chain| - 1]), Leaf(chain[|chain| - 1]))
  }

  lemma {:induction false} CombIsChain(chain: seq<Apps>)
    requires chain != []
    ensures Leaves(Comb(chain)) == chain && Evaluate(Comb(chain)) == MergeChain(chain)
  {
    var last := |chain| - 1;
    if last == 0 {
      assert chain[..0] == [] && MergeApps(map[], chain[0]) == chain[0];
    } else {
      CombIsChain(chain[..last]);
      assert chain == chain[..last] + [chain[last]];
    }
  }

  lemma {:induction false} ChainDefines(chain: seq<Apps>, n: string, k: string)
    ensures Defines(Marks(chain, n, k), MarkOf(MergeChain(chain), n, k))
  {
    if chain != [] {
      CombIsChain(chain);
      TreePossible(Comb(chain), n, k);
    }
  }

  lemma LayAtLast(before: seq<Mark>, p: Mark, c: Mark, l: nat)
    requires Defines(before, p)
    requires LastValue(before + [c], l) && (before + [c])[l] == Value("") && !Oldest(before + [c], l)
    ensures l == |before| ==> Lay(p, c) == NoKey
    ensures l < |before| ==> LastValue(before, l) && before[l] == Value("") && !Oldest(before, l) && Lay(p, c) == p
  {
    var all := before + [c];
    assert all[|before|] == c && forall i :: 0 <= i < |before| ==> all[i] == before[i];
  }

  /** One after the other, a removal that comes last takes effect. */
  lemma {:induction false} ChainRemoves(chain: seq<Apps>, n: string, k: string, l: nat)
    requires var ms := Marks(chain, n, k); LastValue(ms, l) && ms[l] == Value("") && !Oldest(ms, l)
    ensures MarkOf(MergeChain(chain), n, k) == NoKey
  {
    var last := |chain| - 1;
    var before, c := chain[..last], MarkOf(chain[last], n, k);
    assert Marks(chain, n, k) == Marks(before, n, k) + [c];
    LayMarks(MergeChain(before), chain[last], n, k);
    ChainDefines(before, n, k);
    LayAtLast(Marks(before, n, k), MarkOf(MergeChain(before), n, k), c, l);
    if l < last { ChainRemoves(before, n, k, l); }
  }

  lemma {:induction false} ClashShows(chain: seq<Apps>, n: string, k: string, i: nat, j: nat, l: nat)
    returns (t: Bracketing)
    requires ClashAt(Marks(chain, n, k), i, j, l)
    ensures Leaves(t) == chain && Evaluate(t) != MergeChain(chain)
  {
    var head, tail := chain[..i + 1], chain[i + 1..];
    var ms := Marks(chain, n, k);
    t := Node(Comb(head), Comb(tail));
    CombIsChain(head);
    CombIsChain(tail);
    assert chain == head + tail;
    LayMarks(MergeChain(head), MergeChain(tail), n, k);
    assert MarkOf(MergeChain(head), n, k) == ms[i] by { HeadStands(chain, n, k, i); }
    assert MarkOf(MergeChain(tail), n, k) == NoKey by { TailRemoves(chain, n, k, i, j, l); }
    ChainRemoves(chain, n, k, l);
  }

  lemma {:induction false} HeadStands(chain: seq<Apps>, n: string, k: string, i: nat)
    requires i < |chain| && Stands(Marks(chain, n, k), i)
    ensures MarkOf(MergeChain(chain[..i + 1]), n, k) == Marks(chain, n, k)[i]
  {
    var head := chain[..i + 1];
    CombIsChain(head);
    TreePossible(Comb(head), n, k);
    assert forall j :: 0 <= j <= i ==> Marks(head, n, k)[j] == Marks(chain, n, k)[j];
    assert LastValue(Marks(head, n, k), i) && Stands(Marks(head, n, k), i);
  }

  lemma {:induction false} TailRemoves(chain: seq<Apps>, n: string, k: string, i: nat, j: nat, l: nat)
    requires ClashAt(Marks(chain, n, k), i, j, l)
    ensures MarkOf(MergeChain(chain[i + 1..]), n, k) == NoKey
  {
    var tail, ms := chain[i + 1..], Marks(chain, n, k);
    var rest := Marks(tail, n, k);
    assert forall m :: 0 <= m < |tail| ==> rest[m] == ms[i + 1 + m];
    assert LastValue(rest, l - i - 1);
    assert !rest[j - i - 1].NoApp?;
    ChainRemoves(tail, n, k, l - i - 1);
  }

  /* ---- The other fields ---- */

  function Bare(apps: Apps): Apps {
    map n | n in apps :: apps[n].(scheduler := map[])
  }

  lemma BareMerge(p: Apps, c: Apps)
    ensures Bare(MergeApps(p, c)) == MergeApps(Bare(p), Bare(c))
  {
    assert MergeScheduler(map[], map[]) == map[];
  }

  function BareChain(chain: seq<Apps>): seq<Apps> {
    seq(|chain|, i requires 0 <= i < |chain| => Bare(chain[i]))
  }

  function BareTree(t: Bracketing): Bracketing {
    match t
    case Leaf(apps) => Leaf(Bare(apps))
    case Node(l, r) => Node(BareTree(l), BareTree(r))
  }

  lemma {:induction false} BareTreeFacts(t: Bracketing)
    ensures Leaves(BareTree(t)) == BareChain(Leaves(t)) && Evaluate(BareTree(t)) == Bare(Evaluate(t))
  {
    match t
    case Leaf(apps) =>
    case Node(l, r) =>
      BareTreeFacts(l);
      BareTreeFacts(r);
      BareMerge(Evaluate(l), Evaluate(r));
      BareJoin(Leaves(l), Leaves(r));
  }

  lemma BareJoin(a: seq<Apps>, b: seq<Apps>)
    ensures BareChain(a + b) == BareChain(a) + BareChain(b)
  {}

  /** Apart from scheduler keys the bracketing never matters. */
  lemma {:induction false} BareAgree(t: Bracketing, u: Bracketing)
    requires Leaves(t) == Leaves(u)
    ensures Bare(Evaluate(t)) == Bare(Evaluate(u))
  {
    BareTreeFacts(t);
    BareTreeFacts(u);
    assert forall i :: 0 <= i < |Leaves(t)| ==> KeepsKeys(BareChain(Leaves(t))[i]);
    AnyBracketing(BareTree(t));
    AnyBracketing(BareTree(u));
  }

  lemma {:induction false} SameMarksSame(a: Apps, b: Apps)
    requires Bare(a) == Bare(b) && forall n, k :: MarkOf(a, n, k) == MarkOf(b, n, k)
    ensures a == b
  {
    assert a.Keys == Bare(a).Keys == b.Keys;
    forall n | n in a ensures a[n] == b[n] {
      assert Bare(a)[n] == Bare(b)[n];
      forall k ensures k in a[n].scheduler <==> k in b[n].scheduler { assert MarkOf(a, n, k) == MarkOf(b, n, k); }
      forall k | k in a[n].scheduler ensures a[n].scheduler[k] == b[n].scheduler[k] {
        assert MarkOf(a, n, k) == MarkOf(b, n, k);
      }
      assert a[n].scheduler == b[n].scheduler;
    }
  }

  /** All bracketings of a chain agree exactly when no scheduler key clashes in it. */
  lemma {:induction false} BracketingsAgreeIff(chain: seq<Apps>)
    requires chain != []
    ensures (forall t :: Leaves(t) == chain ==> Evaluate(t) == MergeChain(chain)) <==>
      forall n, k :: !Clashes(Marks(chain, n, k))
  {
    if n, k :| Clashes(Marks(chain, n, k)) {
      var i: nat, j: nat, l: nat :| ClashAt(Marks(chain, n, k), i, j, l);
      var t := ClashShows(chain, n, k, i, j, l);
    } else {
      CombIsChain(chain);
      forall t | Leaves(t) == chain ensures Evaluate(t) == MergeChain(chain) {
        forall n, k ensures MarkOf(Evaluate(t), n, k) == MarkOf(MergeChain(chain), n, k) {
          TreePossible(t, n, k);
          TreePossible(Comb(chain), n, k);
          NoClashDecides(Marks(chain, n, k), MarkOf(Evaluate(t), n, k), MarkOf(MergeChain(chain), n, k));
        }
        BareAgree(t, Comb(chain));
        SameMarksSame(Evaluate(t), MergeChain(chain));
      }
    }
  }
}
