/** Parent links of stored stacks: chains, descendants, cycles, and what makes a forest. */
module Forests {
  import opened Inheritance
  import opened SetFacts

  /** A row of the stacks table; an empty parent means none. */
  datatype Row = Row(parent: string, apps: Apps)

  type Rows = map<string, Row>

  /** A name met on the way up, or nothing because the way has left the table. */
  datatype Place = At(name: string) | Off

  /** Where `k` parent links lead from `n`. */
  function Up(rows: Rows, n: string, k: nat): Place {
    if k == 0 then At(n)
    else match Up(rows, n, k - 1)
      case Off => Off
      case At(p) => if p in rows then At(rows[p].parent) else Off
  }

  /** Following links from `n` leaves the table. */
  ghost predicate Ends(rows: Rows, n: string) {
    exists k: nat :: Up(rows, n, k) == Off
  }

  ghost predicate OnCycle(rows: Rows, n: string) {
    exists k: nat :: k > 0 && Up(rows, n, k) == At(n)
  }

  /** `n` is `a` or one of its descendants. */
  ghost predicate Under(rows: Rows, n: string, a: string) {
    exists k: nat :: Up(rows, n, k) == At(a)
  }

  ghost predicate ParentClosed(rows: Rows) {
    forall n :: n in rows && rows[n].parent != "" ==> rows[n].parent in rows
  }

  /** Every parent link names a stored stack, and following links always ends. */
  ghost predicate Forest(rows: Rows) {
    "" !in rows && ParentClosed(rows) && forall n :: n in rows ==> Ends(rows, n)
  }

  /** The table without `a` and all its descendants. */
  ghost function Pruned(rows: Rows, a: string): Rows {
    map n | n in rows && !Under(rows, n, a) :: rows[n]
  }

  function ChildrenOf(rows: Rows, a: string): set<string> {
    set n | n in rows && rows[n].parent == a
  }

  ghost predicate HasChild(rows: Rows, a: string) {
    exists n :: n in rows && rows[n].parent == a
  }

  ghost function Subtree(rows: Rows, a: string): set<string> {
    set n | n in rows && Under(rows, n, a)
  }

  ghost predicate SubTable(sub: Rows, rows: Rows) {
    forall n :: n in sub ==> n in rows && sub[n] == rows[n]
  }

  lemma {:induction false} UpAdds(rows: Rows, n: string, i: nat, m: string, j: nat)
    requires Up(rows, n, i) == At(m)
    ensures Up(rows, n, i + j) == Up(rows, m, j)
  {
    if j > 0 { UpAdds(rows, n, i, m, j - 1); }
  }

  lemma {:induction false} OffStays(rows: Rows, n: string, i: nat, j: nat)
    requires Up(rows, n, i).Off? && i <= j
    ensures Up(rows, n, j).Off?
  {
    if i < j { OffStays(rows, n, i, j - 1); }
  }

  /** Deleting rows can only cut a chain short. */
  lemma {:induction false} UpInSubTable(rows: Rows, sub: Rows, n: string, k: nat)
    requires SubTable(sub, rows)
    ensures Up(sub, n, k).Off? || Up(sub, n, k) == Up(rows, n, k)
  {
    if k > 0 { UpInSubTable(rows, sub, n, k - 1); }
  }

  lemma SubTableFacts(rows: Rows, sub: Rows, n: string, a: string)
    requires SubTable(sub, rows)
    ensures Under(sub, n, a) ==> Under(rows, n, a)
    ensures OnCycle(sub, n) ==> OnCycle(rows, n)
    ensures Ends(rows, n) ==> Ends(sub, n)
  {
    if k: nat :| Up(sub, n, k) == At(a) { UpInSubTable(rows, sub, n, k); }
    if k: nat :| k > 0 && Up(sub, n, k) == At(n) { UpInSubTable(rows, sub, n, k); }
    if k: nat :| Up(rows, n, k) == Off { UpInSubTable(rows, sub, n, k); }
  }

  lemma SubForest(rows: Rows, sub: Rows)
    requires Forest(rows) && SubTable(sub, rows) && ParentClosed(sub)
    ensures Forest(sub)
  {
    forall n | n in sub ensures Ends(sub, n) {
      assert Ends(rows, n);
      SubTableFacts(rows, sub, n, "");
    }
  }

  lemma {:induction false} CycleNeverEnds(rows: Rows, n: string, k: nat, d: nat)
    requires k > 0 && Up(rows, n, k) == At(n)
    ensures Up(rows, n, d) != Off
    decreases d
  {
    if d >= k {
      UpAdds(rows, n, k, n, d - k);
      CycleNeverEnds(rows, n, k, d - k);
    } else if Up(rows, n, d) == Off {
      OffStays(rows, n, d, k);
    }
  }

  /** A chain of links that ends never returns to its start. */
  lemma {:induction false} NoCycle(rows: Rows, n: string)
    requires Ends(rows, n)
    ensures !OnCycle(rows, n)
  {
    var d: nat :| Up(rows, n, d) == Off;
    if k: nat :| k > 0 && Up(rows, n, k) == At(n) { CycleNeverEnds(rows, n, k, d); }
  }

  /** The names met on the first `k` links. */
  ghost function Met(rows: Rows, n: string, k: nat): set<string> {
    if k == 0 then {}
    else Met(rows, n, k - 1) + match Up(rows, n, k - 1) case At(m) => {m} case Off => {}
  }

  lemma {:induction false} MetEarlier(rows: Rows, n: string, k: nat, m: string)
    requires m in Met(rows, n, k)
    ensures exists i: nat :: i < k && Up(rows, n, i) == At(m)
  {
    if m in Met(rows, n, k - 1) { MetEarlier(rows, n, k - 1, m); } else { assert Up(rows, n, k - 1) == At(m); }
  }

  /** Off all cycles, each link meets a new row. */
  lemma {:induction false} MeetsNewRows(rows: Rows, n: string, k: nat)
    requires Up(rows, n, k).At? && forall m :: Under(rows, n, m) ==> !OnCycle(rows, m)
    ensures Met(rows, n, k) <= rows.Keys && |Met(rows, n, k)| == k
  {
    if k > 0 {
      MeetsNewRows(rows, n, k - 1);
      var m := Up(rows, n, k - 1).name;
      if m in Met(rows, n, k - 1) {
        MetEarlier(rows, n, k - 1, m);
        var i: nat :| i < k - 1 && Up(rows, n, i) == At(m);
        UpAdds(rows, n, i, m, k - 1 - i);
        assert Under(rows, n, m) && OnCycle(rows, m);
      }
    }
  }

  /** The links from a name end exactly when none of the names they meet is on a cycle. */
  lemma {:induction false} EndsIff(rows: Rows, n: string)
    ensures Ends(rows, n) <==> forall m :: Under(rows, n, m) ==> !OnCycle(rows, m)
  {
    if k: nat :| Up(rows, n, k) == Off {
      forall m | Under(rows, n, m) ensures !OnCycle(rows, m) {
        var i: nat :| Up(rows, n, i) == At(m);
        OffStays(rows, n, k, i + k);
        UpAdds(rows, n, i, m, k);
        NoCycle(rows, m);
      }
    } else if forall m :: Under(rows, n, m) ==> !OnCycle(rows, m) {
      var k := |rows.Keys| + 1;
      MeetsNewRows(rows, n, k);
      SubsetSize(Met(rows, n, k), rows.Keys);
    }
  }

  lemma UnderParent(rows: Rows, n: string, a: string)
    requires n in rows
    ensures Under(rows, rows[n].parent, a) ==> Under(rows, n, a)
    ensures Under(rows, n, a) ==> n == a || Under(rows, rows[n].parent, a)
  {
    assert Up(rows, n, 0) == At(n);
    var p := rows[n].parent;
    assert Up(rows, n, 1) == At(p);
    if k: nat :| Up(rows, p, k) == At(a) {
      UpAdds(rows, n, 1, p, k);
      assert Up(rows, n, k + 1) == At(a);
    }
    if Under(rows, n, a) && n != a {
      var k: nat :| Up(rows, n, k) == At(a);
      UpAdds(rows, n, 1, p, k - 1);
      assert Up(rows, p, k - 1) == At(a);
    }
  }

  lemma UnderChild(rows: Rows, n: string, a: string, c: string)
    requires c in ChildrenOf(rows, a) && Under(rows, n, c)
    ensures Under(rows, n, a)
  {
    var k: nat :| Up(rows, n, k) == At(c);
    assert Up(rows, n, k + 1) == At(a);
  }

  /** What is under `a` is `a` or under one of its children. */
  lemma UnderSomeChild(rows: Rows, n: string, a: string)
    requires n in rows
    ensures Under(rows, n, a) <==> n == a || exists c :: c in ChildrenOf(rows, a) && Under(rows, n, c)
  {
    assert Up(rows, n, 0) == At(n);
    if Under(rows, n, a) && n != a {
      var k: nat :| Up(rows, n, k) == At(a);
      var c := Up(rows, n, k - 1).name;
      assert c in ChildrenOf(rows, a) && Under(rows, n, c);
    }
    if c :| c in ChildrenOf(rows, a) && Under(rows, n, c) { UnderChild(rows, n, a, c); }
  }

  lemma {:induction false} CycleThroughChild(rows: Rows, a: string, c: string)
    requires c in ChildrenOf(rows, a) && (Under(rows, a, c) || OnCycle(rows, c))
    ensures OnCycle(rows, a)
  {
    assert Up(rows, c, 0) == At(c);
    assert Up(rows, c, 1) == At(a);
    if k: nat :| k > 0 && Up(rows, c, k) == At(c) { UpAdds(rows, c, 1, a, k - 1); }
    var k: nat :| Up(rows, a, k) == At(c);
    assert Up(rows, a, k + 1) == At(a);
  }

  /** Off a cycle, a child's subtree holds neither its parent nor its siblings, and the
      child is off a cycle too. */
  lemma {:induction false} ChildSubtree(rows: Rows, a: string, c: string)
    requires !OnCycle(rows, a) && c in ChildrenOf(rows, a)
    ensures !Under(rows, a, c) && c != a && !OnCycle(rows, c)
    ensures forall b :: b in ChildrenOf(rows, a) && b != c ==> !Under(rows, b, c)
  {
    assert Up(rows, a, 0) == At(a);
    if Under(rows, a, c) || OnCycle(rows, c) { CycleThroughChild(rows, a, c); }
    forall b | b in ChildrenOf(rows, a) && b != c ensures !Under(rows, b, c) { UnderParent(rows, b, c); }
  }

  lemma PrunedForest(rows: Rows, a: string)
    requires Forest(rows)
    ensures Forest(Pruned(rows, a)) && SubTable(Pruned(rows, a), rows)
  {
    var sub := Pruned(rows, a);
    forall n | n in sub && sub[n].parent != "" ensures sub[n].parent in sub {
      UnderParent(rows, n, a);
    }
    SubForest(rows, sub);
  }

  /** Deleting one row keeps the forest exactly when the row has no child. */
  lemma {:induction false} DeleteForestIff(rows: Rows, name: string)
    requires Forest(rows) && name in rows
    ensures Forest(rows - {name}) <==> !HasChild(rows, name)
  {
    if n :| n in rows && rows[n].parent == name {
      assert Ends(rows, name);
      NoCycle(rows, name);
      ChildSubtree(rows, name, n);
      assert n in rows - {name} && (rows - {name})[n].parent !in rows - {name};
    } else {
      SubForest(rows, rows - {name});
    }
  }

  /* ---- When the recursion of a forced removal ends ---- */

  /** The calls that a forced removal of `name` makes nest at most `depth` deep. A call handles
      every child before it deletes its own row, so these are the children in the table as it
      was when the removal began. */
  ghost predicate Finishes(rows: Rows, name: string, depth: nat)
    decreases depth
  {
    depth > 0 && forall c :: c in ChildrenOf(rows, name) ==> Finishes(rows, c, depth - 1)
  }

  lemma {:induction false} SubtreeOfChild(rows: Rows, a: string, c: string)
    requires !OnCycle(rows, a) && c in ChildrenOf(rows, a) && a in rows
    ensures Subtree(rows, c) < Subtree(rows, a)
  {
    ChildSubtree(rows, a, c);
    assert Up(rows, a, 0) == At(a);
    assert a in Subtree(rows, a);
    forall n | n in Subtree(rows, c) ensures n in Subtree(rows, a) { UnderChild(rows, n, a, c); }
  }

  lemma {:induction false} OffCycleFinishes(rows: Rows, name: string, depth: nat)
    requires name in rows && !OnCycle(rows, name) && depth >= |Subtree(rows, name)|
    ensures Finishes(rows, name, depth)
    decreases depth
  {
    assert Up(rows, name, 0) == At(name);
    assert name in Subtree(rows, name);
    forall c | c in ChildrenOf(rows, name) ensures Finishes(rows, c, depth - 1) {
      ChildSubtree(rows, name, c);
      SubtreeOfChild(rows, name, c);
      SubsetSize(Subtree(rows, c), Subtree(rows, name) - {name});
      OffCycleFinishes(rows, c, depth - 1);
    }
  }

  lemma {:induction false} CycleNeverFinishes(rows: Rows, name: string, depth: nat)
    requires OnCycle(rows, name)
    ensures !Finishes(rows, name, depth)
    decreases depth
  {
    if depth > 0 {
      var k: nat :| k > 0 && Up(rows, name, k) == At(name);
      var c := Up(rows, name, k - 1).name;
      UpAdds(rows, name, k - 1, c, 1);
      UpAdds(rows, c, 1, name, k - 1);
      assert c in ChildrenOf(rows, name) && Up(rows, c, k) == At(c);
      CycleNeverFinishes(rows, c, depth - 1);
    }
  }

  /** A forced removal ends exactly when the stack is on no cycle of parent links. */
  lemma {:induction false} RemovalEndsIff(rows: Rows, name: string)
    requires name in rows
    ensures (exists depth: nat :: Finishes(rows, name, depth)) <==> !OnCycle(rows, name)
  {
    if OnCycle(rows, name) {
      forall depth: nat ensures !Finishes(rows, name, depth) { CycleNeverFinishes(rows, name, depth); }
    } else {
      var depth: nat := |Subtree(rows, name)|;
      OffCycleFinishes(rows, name, depth);
      assert Finishes(rows, name, depth);
    }
  }

  /** On a cycle the nested calls come back to the same stack before any stack of the cycle is
      deleted: each call deletes its own row last. */
  lemma {:induction false} CycleComesBack(rows: Rows, name: string) returns (calls: seq<string>)
    requires OnCycle(rows, name)
    ensures |calls| > 1 && calls[0] == name && calls[|calls| - 1] == name
    ensures forall i :: 0 < i < |calls| ==> calls[i] in ChildrenOf(rows, calls[i - 1])
  {
    var k: nat :| k > 0 && Up(rows, name, k) == At(name);
    forall i: nat | i <= k ensures Up(rows, name, i).At? {
      if Up(rows, name, i).Off? { OffStays(rows, name, i, k); }
    }
    calls := seq(k + 1, i requires 0 <= i <= k => Up(rows, name, k - i).name);
    forall i | 0 < i < |calls| ensures calls[i] in ChildrenOf(rows, calls[i - 1]) {
      assert Up(rows, name, k - i + 1).At?;
    }
  }

  /** The smallest such table, which the in-memory storage accepts: a stack that is its own parent. */
  lemma SelfParentNeverFinishes(apps: Apps, depth: nat)
    ensures !Finishes(map["a" := Row("a", apps)], "a", depth)
  {
    var rows := map["a" := Row("a", apps)];
    assert Up(rows, "a", 0) == At("a");
    assert Up(rows, "a", 1) == At("a");
    CycleNeverFinishes(rows, "a", depth);
  }

  /* ---- Storing ---- */

  lemma {:induction false} UpAfterStore(rows: Rows, name: string, row: Row, n: string, k: nat)
    requires Forest(rows) && name !in rows && name != "" && n in rows
    ensures Up(rows[name := row], n, k) == Up(rows, n, k)
    ensures Up(rows, n, k).Off? || Up(rows, n, k).name in rows || Up(rows, n, k).name == ""
  {
    if k > 0 { UpAfterStore(rows, name, row, n, k - 1); }
  }

  lemma {:induction false} StoreKeepsForest(rows: Rows, name: string, row: Row)
    requires Forest(rows) && name !in rows && name != "" && (row.parent == "" || row.parent in rows)
    ensures Forest(rows[name := row])
  {
    var rows' := rows[name := row];
    forall n | n in rows ensures Ends(rows', n) {
      assert Ends(rows, n);
      var k: nat :| Up(rows, n, k) == Off;
      UpAfterStore(rows, name, row, n, k);
    }
    var p := row.parent;
    assert Up(rows', name, 0) == At(name);
    assert Up(rows', name, 1) == At(p);
    assert Ends(rows', p) by {
      if p == "" { assert Up(rows', p, 0) == At(""); assert Up(rows', p, 1) == Off; }
    }
    var k: nat :| Up(rows', p, k) == Off;
    UpAdds(rows', name, 1, p, k);
    assert Up(rows', name, k + 1) == Off;
  }

  /** Storing a new stack keeps the forest exactly when its name is not empty and its parent,
      if any, is stored already. Only the Cassandra storage checks the latter. */
  lemma {:induction false} StoreForestIff(rows: Rows, name: string, row: Row)
    requires Forest(rows) && name !in rows
    ensures Forest(rows[name := row]) <==> name != "" && (row.parent == "" || row.parent in rows)
  {
    var rows' := rows[name := row];
    if name == "" {
      assert name in rows';
    } else if row.parent == "" || row.parent in rows {
      StoreKeepsForest(rows, name, row);
    } else if row.parent == name {
      assert Up(rows', name, 0) == At(name);
      assert Up(rows', name, 1) == At(name);
      assert name in rows' && OnCycle(rows', name);
      if Ends(rows', name) { NoCycle(rows', name); }
    } else {
      assert name in rows' && rows'[name].parent !in rows';
    }
  }
}

/** What a forced removal leaves, subtree by subtree, when the query for the children of a row
    may leave some of them out. */
module Removals {
  import opened Inheritance
  import opened Forests

  /** The table without the subtrees of `gone`. */
  ghost function Without(rows: Rows, gone: set<string>): Rows {
    map n | n in rows && (forall c :: c in gone ==> !Under(rows, n, c)) :: rows[n]
  }

  lemma WithoutNothing(rows: Rows)
    ensures Without(rows, {}) == rows
  {}

  /** Where a removal of `a` may stop: only rows of its subtree are gone. */
  ghost predicate PartlyRemoved(before: Rows, now: Rows, a: string) {
    SubTable(now, before) && forall n :: n in before && !Under(before, n, a) ==> n in now
  }

  /** No row has lost its parent. */
  ghost predicate KeepsParents(before: Rows, now: Rows) {
    forall n :: n in now && now[n].parent in before ==> now[n].parent in now
  }

  /** A row below `a` that has lost its parent. */
  ghost predicate Orphan(before: Rows, now: Rows, a: string, g: string) {
    g in now && g != a && Under(before, g, a) && now[g].parent in before && now[g].parent !in now
  }

  lemma WithoutKeeps(rows: Rows, gone: set<string>, a: string)
    requires gone <= ChildrenOf(rows, a)
    ensures PartlyRemoved(rows, Without(rows, gone), a) && KeepsParents(rows, Without(rows, gone))
  {
    var sub := Without(rows, gone);
    forall n, c | n in rows && c in gone && Under(rows, n, c) ensures Under(rows, n, a) {
      UnderChild(rows, n, a, c);
    }
    forall n | n in sub && sub[n].parent in rows ensures sub[n].parent in sub {
      forall c | c in gone ensures !Under(rows, sub[n].parent, c) { UnderParent(rows, n, c); }
    }
  }

  /** Cutting away whole subtrees does not change who is under whom in the rest. */
  lemma {:induction false} UpInWithout(rows: Rows, gone: set<string>, n: string, j: nat, k: nat)
    requires n in Without(rows, gone) && j <= k && Up(rows, n, k).At?
    ensures Up(Without(rows, gone), n, j) == Up(rows, n, j)
  {
    var sub := Without(rows, gone);
    if j > 0 {
      UpInWithout(rows, gone, n, j - 1, k);
      if Up(rows, n, j - 1).Off? { OffStays(rows, n, j - 1, k); }
      var m := Up(rows, n, j - 1).name;
      if m !in rows { OffStays(rows, n, j, k); }
      forall c | c in gone ensures !Under(rows, m, c) {
        if i: nat :| Up(rows, m, i) == At(c) { UpAdds(rows, n, j - 1, m, i); }
      }
    }
  }

  lemma {:induction false} PrunedStep(rows: Rows, gone: set<string>, c: string)
    ensures Pruned(Without(rows, gone), c) == Without(rows, gone + {c})
  {
    var sub := Without(rows, gone);
    forall n | n in sub ensures Under(sub, n, c) <==> Under(rows, n, c) {
      SubTableFacts(rows, sub, n, c);
      if k: nat :| Up(rows, n, k) == At(c) { UpInWithout(rows, gone, n, k, k); }
    }
  }

  lemma PrunedIsChildrenAndSelf(rows: Rows, a: string)
    ensures Without(rows, ChildrenOf(rows, a)) - {a} == Pruned(rows, a)
  {
    forall n | n in rows
      ensures Under(rows, n, a) <==> n == a || exists c :: c in ChildrenOf(rows, a) && Under(rows, n, c)
    {
      UnderSomeChild(rows, n, a);
    }
  }

  lemma PrunedKeeps(rows: Rows, a: string)
    ensures PartlyRemoved(rows, Pruned(rows, a), a) && KeepsParents(rows, Pruned(rows, a))
  {
    var sub := Pruned(rows, a);
    forall n | n in sub && sub[n].parent in rows ensures sub[n].parent in sub { UnderParent(rows, n, a); }
  }

  /** On a forest, a removal keeps the forest exactly when it leaves no orphan. */
  lemma {:induction false} ForestKeptIff(before: Rows, now: Rows)
    requires Forest(before) && SubTable(now, before)
    ensures Forest(now) <==> KeepsParents(before, now)
  {
    if KeepsParents(before, now) {
      SubForest(before, now);
    } else {
      var n :| n in now && now[n].parent in before && now[n].parent !in now;
      assert now[n].parent != "";
    }
  }

  /** If just the query for the removed stack itself leaves children out, the forest survives
      exactly when it left out none. */
  lemma {:induction false} ForcedForestIff(rows: Rows, name: string, answer: set<string>)
    requires Forest(rows) && name in rows && answer <= ChildrenOf(rows, name)
    ensures Forest(Without(rows, answer) - {name}) <==> answer == ChildrenOf(rows, name)
  {
    var now := Without(rows, answer) - {name};
    ForestKeptIff(rows, now);
    assert Ends(rows, name);
    NoCycle(rows, name);
    if answer == ChildrenOf(rows, name) {
      PrunedIsChildrenAndSelf(rows, name);
      PrunedKeeps(rows, name);
    } else {
      var g :| g in ChildrenOf(rows, name) && g !in answer;
      ChildSubtree(rows, name, g);
      forall c | c in answer ensures !Under(rows, g, c) { ChildSubtree(rows, name, c); }
      assert g in now && now[g].parent == name && name !in now;
    }
  }

  /** Two rows and an answer that leaves out the child: forced removal of the parent leaves the
      child with a parent that is gone. */
  lemma CutQueryLeavesOrphan(apps: Apps)
    ensures var rows := map["p" := Row("", apps), "c" := Row("p", apps)];
      var now := Without(rows, {}) - {"p"};
      && Forest(rows) && ChildrenOf(rows, "p") == {"c"}
      && "c" in now && now["c"].parent == "p" && "p" !in now && !Forest(now)
  {
    var root: Rows := map["p" := Row("", apps)];
    StoreKeepsForest(map[], "p", Row("", apps));
    assert map[]["p" := Row("", apps)] == root;
    StoreKeepsForest(root, "c", Row("p", apps));
    var rows := map["p" := Row("", apps), "c" := Row("p", apps)];
    assert root["c" := Row("p", apps)] == rows;
    assert "c" in ChildrenOf(rows, "p");
    WithoutNothing(rows);
    ForcedForestIff(rows, "p", {});
  }

  /* ---- Histories ---- */

  datatype Call = Store(name: string, parent: string, apps: Apps) | Remove(name: string)

  /** What a call of the Cassandra storage may do to the table, wherever the database fails: a
      store puts the new row or changes nothing; a removal deletes some rows of the subtree, and
      if no query was cut it never leaves a row without its parent. */
  ghost predicate Effect(before: Rows, call: Call, now: Rows) {
    match call
    case Store(name, parent, apps) =>
      || now == before
      || (name !in before && (parent == "" || parent in before) && now == before[name := Row(parent, apps)])
    case Remove(name) => PartlyRemoved(before, now, name) && KeepsParents(before, now)
  }

  ghost predicate History(calls: seq<Call>, tables: seq<Rows>) {
    && |tables| == |calls| + 1 && tables[0] == map[]
    && (forall i :: 0 <= i < |calls| ==> Effect(tables[i], calls[i], tables[i + 1]))
  }

  lemma {:induction false} EffectKeepsForest(before: Rows, call: Call, now: Rows)
    requires Forest(before) && Effect(before, call, now) && (call.Store? ==> call.name != "")
    ensures Forest(now)
  {
    match call
    case Store(name, parent, apps) => if now != before { StoreKeepsForest(before, name, Row(parent, apps)); }
    case Remove(_) => ForestKeptIff(before, now);
  }

  /** Whatever non-empty names are stored and removed, and wherever the database fails, every
      table of the history is a forest, as long as no deletion follows a cut query. */
  lemma {:induction false} HistoriesKeepForest(calls: seq<Call>, tables: seq<Rows>, n: nat)
    requires History(calls, tables) && n <= |calls|
    requires forall i :: 0 <= i < |calls| && calls[i].Store? ==> calls[i].name != ""
    ensures Forest(tables[n])
  {
    if n > 0 {
      HistoriesKeepForest(calls, tables, n - 1);
      EffectKeepsForest(tables[n - 1], calls[n - 1], tables[n]);
    }
  }

  /* ---- One child after the other ---- */

  /** How far a forced removal of `name` has come after the subtrees of `done`. */
  ghost predicate Underway(start: Rows, name: string, done: set<string>, cut: bool, now: Rows) {
    && done <= ChildrenOf(start, name)
    && PartlyRemoved(start, now, name)
    && name in now
    && (forall c :: c in ChildrenOf(start, name) && c !in done ==> c in now)
    && (!cut ==> now == Without(start, done))
    && (cut ==> exists g :: Orphan(start, now, name, g))
  }

  lemma UnderwayAtFirst(start: Rows, name: string)
    requires name in start
    ensures Underway(start, name, {}, false, start)
  {
    WithoutNothing(start);
  }

  /** What the recursion over a child works on is smaller. */
  lemma {:induction false} RecursionShrinks(start: Rows, name: string, now: Rows, c: string)
    requires SubTable(now, start) && name in start && !OnCycle(start, name) && c in ChildrenOf(start, name)
    ensures Subtree(now, c) < Subtree(start, name) && !OnCycle(now, c) && !Under(now, name, c)
  {
    ChildSubtree(start, name, c);
    SubTableFacts(start, now, c, c);
    SubTableFacts(start, now, name, c);
    SubtreeOfChild(start, name, c);
    forall n | n in Subtree(now, c) ensures n in Subtree(start, c) { SubTableFacts(start, now, n, c); }
  }

  /** Removing some children's subtrees leaves the other children. */
  lemma {:induction false} SiblingStays(start: Rows, name: string, gone: set<string>, c: string)
    requires !OnCycle(start, name) && gone <= ChildrenOf(start, name) && c in ChildrenOf(start, name) && c !in gone
    ensures c in Without(start, gone)
  {
    forall b | b in gone ensures !Under(start, c, b) { ChildSubtree(start, name, b); }
  }

  /** What a child's removal leaves is part of what its parent's removal leaves. */
  lemma {:induction false} PartOfParent(start: Rows, name: string, now: Rows, c: string, later: Rows)
    requires PartlyRemoved(start, now, name) && c in ChildrenOf(start, name) && PartlyRemoved(now, later, c)
    ensures PartlyRemoved(start, later, name)
  {
    forall n | n in start && !Under(start, n, name) ensures n in later {
      if Under(now, n, c) {
        SubTableFacts(start, now, n, c);
        UnderChild(start, n, name, c);
      }
    }
  }

  /** A row that has lost its parent is not reached by later calls. */
  lemma OrphanStays(start: Rows, name: string, now: Rows, c: string, later: Rows, g: string)
    requires Orphan(start, now, name, g) && SubTable(now, start) && c in now && now[c].parent in now
    requires PartlyRemoved(now, later, c)
    ensures Orphan(start, later, name, g)
  {
    if Under(now, g, c) {
      UnderParent(now, g, c);
      var p := now[g].parent;
      var k: nat :| Up(now, p, k) == At(c);
      assert Up(now, p, 0) == At(p);
      if k > 0 { OffStays(now, p, 1, k); }
    }
  }

  /** A child's orphan is its parent's orphan. */
  lemma OrphanOfParent(start: Rows, name: string, now: Rows, c: string, later: Rows, g: string)
    requires SubTable(now, start) && c in ChildrenOf(start, name) && !Under(now, name, c)
    requires Orphan(now, later, c, g) && SubTable(later, now)
    ensures Orphan(start, later, name, g)
  {
    SubTableFacts(start, now, g, c);
    UnderChild(start, g, name, c);
  }

  lemma KeepsParentsThrough(a: Rows, b: Rows, c: Rows)
    requires KeepsParents(a, b) && KeepsParents(b, c) && SubTable(c, b)
    ensures KeepsParents(a, c)
  {}

  /** What is known of a removal, finished or not: only rows of the subtree are gone, and a row
      has lost its parent exactly when `cut` says so. */
  ghost predicate Accounted(before: Rows, now: Rows, a: string, cut: bool) {
    && PartlyRemoved(before, now, a)
    && (!cut ==> KeepsParents(before, now))
    && (cut ==> exists g :: Orphan(before, now, a, g))
  }

  lemma {:induction false} AccountedForParent(start: Rows, name: string, done: set<string>, cut: bool, now: Rows,
                                              c: string, later: Rows, childCut: bool)
    requires Underway(start, name, done, cut, now) && !OnCycle(start, name)
    requires c in ChildrenOf(start, name) && c !in done && Accounted(now, later, c, childCut)
    ensures Accounted(start, later, name, cut || childCut)
  {
    PartOfParent(start, name, now, c, later);
    RecursionShrinks(start, name, now, c);
    if cut {
      var g :| Orphan(start, now, name, g);
      OrphanStays(start, name, now, c, later, g);
    } else if childCut {
      var g :| Orphan(now, later, c, g);
      OrphanOfParent(start, name, now, c, later, g);
    } else {
      WithoutKeeps(start, done, name);
      KeepsParentsThrough(start, now, later);
    }
  }

  lemma {:induction false} UnderwayStep(start: Rows, name: string, done: set<string>, cut: bool, now: Rows,
                                        c: string, later: Rows, childCut: bool)
    requires Underway(start, name, done, cut, now) && !OnCycle(start, name)
    requires c in ChildrenOf(start, name) && c !in done
    requires Accounted(now, later, c, childCut) && (!childCut ==> later == Pruned(now, c))
    ensures Underway(start, name, done + {c}, cut || childCut, later)
  {
    AccountedForParent(start, name, done, cut, now, c, later, childCut);
    RecursionShrinks(start, name, now, c);
    PrunedStep(start, done, c);
    ChildSubtree(start, name, c);
    forall b | b in ChildrenOf(start, name) && b !in done + {c} ensures b in later {
      SubTableFacts(start, now, b, c);
    }
  }

  /** The last deletion, after the subtrees of the children that the query named. */
  lemma {:induction false} LastDeletion(start: Rows, name: string, answer: set<string>, cut: bool, now: Rows)
    requires Underway(start, name, answer, cut, now) && !OnCycle(start, name)
    ensures Accounted(start, now - {name}, name, cut || answer != ChildrenOf(start, name))
  {
    assert Up(start, name, 0) == At(name);
    if cut {
      var g :| Orphan(start, now, name, g);
      assert Orphan(start, now - {name}, name, g);
    } else if answer == ChildrenOf(start, name) {
      PrunedIsChildrenAndSelf(start, name);
      PrunedKeeps(start, name);
    } else {
      var g :| g in ChildrenOf(start, name) && g !in answer;
      ChildSubtree(start, name, g);
      UnderSomeChild(start, g, name);
      assert Up(start, g, 0) == At(g);
      assert Orphan(start, now - {name}, name, g);
    }
  }

  lemma {:induction false} LastDeletionLeaves(start: Rows, name: string, answer: set<string>, cut: bool, now: Rows)
    requires Underway(start, name, answer, cut, now)
    ensures PartlyRemoved(start, now - {name}, name)
    ensures !cut && answer == ChildrenOf(start, name) ==>
      now - {name} == Pruned(start, name) && KeepsParents(start, now - {name})
  {
    assert Up(start, name, 0) == At(name);
    PrunedIsChildrenAndSelf(start, name);
    PrunedKeeps(start, name);
  }

  lemma UnderwayAccounted(start: Rows, name: string, done: set<string>, cut: bool, now: Rows)
    requires Underway(start, name, done, cut, now)
    ensures Accounted(start, now, name, cut)
  {
    WithoutKeeps(start, done, name);
  }

  /** Tables seen after each single deletion of a removal. */
  ghost predicate Grown(before: seq<Rows>, now: seq<Rows>, start: Rows, a: string, cut: bool) {
    && before <= now
    && (forall i :: |before| <= i < |now| ==>
          PartlyRemoved(start, now[i], a) && (!cut ==> KeepsParents(start, now[i])))
  }

  /** Each of them is a table that a history may go on from. */
  ghost predicate EffectsSeen(before: seq<Rows>, now: seq<Rows>, start: Rows, a: string) {
    forall i :: |before| <= i < |now| ==> Effect(start, Remove(a), now[i])
  }

  /** One deleted row: its children when they were queried, and the answer that the code got. */
  datatype Deletion = Deletion(name: string, children: set<string>, answer: set<string>)

  /** `cut` says that among the new deletions is one whose query had left out a child. */
  ghost predicate Recorded(before: seq<Deletion>, now: seq<Deletion>, cut: bool) {
    && before <= now
    && (cut <==> exists i :: |before| <= i < |now| && now[i].answer != now[i].children)
  }

  lemma RecordedInTurn(a: seq<Deletion>, b: seq<Deletion>, c: seq<Deletion>, cut: bool, later: bool)
    requires Recorded(a, b, cut) && Recorded(b, c, later)
    ensures Recorded(a, c, cut || later)
  {
    if i :| |a| <= i < |b| && b[i].answer != b[i].children { assert c[i] == b[i]; }
    if i :| |a| <= i < |c| && c[i].answer != c[i].children { assert i < |b| ==> c[i] == b[i]; }
  }

  lemma RecordedOnce(a: seq<Deletion>, b: seq<Deletion>, d: Deletion, cut: bool)
    requires Recorded(a, b, cut)
    ensures Recorded(a, b + [d], cut || d.answer != d.children)
  {
    var c := b + [d];
    assert c[|b|] == d;
    assert Recorded(b, c, d.answer != d.children);
    RecordedInTurn(a, b, c, cut, d.answer != d.children);
  }

  lemma {:induction false} GrownForParent(before: seq<Rows>, mid: seq<Rows>, now: seq<Rows>, start: Rows, name: string,
                                          done: set<string>, cut: bool, table: Rows, c: string, childCut: bool)
    requires Underway(start, name, done, cut, table) && c in ChildrenOf(start, name)
    requires Grown(before, mid, start, name, cut) && Grown(mid, now, table, c, childCut)
    ensures Grown(before, now, start, name, cut || childCut)
  {
    forall i | |before| <= i < |now|
      ensures PartlyRemoved(start, now[i], name) && (!(cut || childCut) ==> KeepsParents(start, now[i]))
    {
      if i < |mid| {
        assert now[i] == mid[i];
      } else {
        PartOfParent(start, name, table, c, now[i]);
        if !cut && !childCut {
          WithoutKeeps(start, done, name);
          KeepsParentsThrough(start, table, now[i]);
        }
      }
    }
  }
}

/** The stack repository: storing, removing and fetching stacks, over Cassandra rows where any
    statement may fail and over a map in memory. */
module Repository {
  import opened Faults
  import opened Inheritance
  import opened Forests
  import opened Removals

  datatype StoreResult = Stored | AlreadyExists | NoParent | StoreFault

  datatype RemoveResult = Removed | Missing | HasChildren(names: set<string>) | RemoveFault

  datatype Fetched = Found(stack: Stack) | NotFound | FetchFault

  class CassandraStorage {
    const db: Database
    var rows: Rows
    ghost var snapshots: seq<Rows>       // the table after each single deletion
    ghost var deletions: seq<Deletion>   // and what the code knew when it made it

    constructor (db: Database)
      ensures this.db == db && rows == map[] && snapshots == [] && deletions == []
    {
      this.db := db;
      rows, snapshots, deletions := map[], [], [];
    }

    /** The COUNT query, which can fail; the code then reads the count as zero. */
    method Exists(name: string) returns (found: bool, fault: bool)
      modifies db
      ensures found <==> !fault && name in rows
      ensures db.Failures() == old(db.Failures()) + if fault then 1 else 0
    {
      fault := db.Statement();
      found := !fault && name in rows;
    }

    /** Stores a new stack; it keeps a forest exactly when the name is not empty. */
    method StoreStack(name: string, parent: string, apps: Apps) returns (r: StoreResult)
      modifies this`rows, db
      ensures db.Failures() == old(db.Failures()) ==>
        && (r.Stored? <==> name !in old(rows) && (parent == "" || parent in old(rows)))
        && (r.AlreadyExists? <==> name in old(rows))
        && (r.NoParent? <==> name !in old(rows) && parent != "" && parent !in old(rows))
      ensures db.Failures() != old(db.Failures()) ==> r.StoreFault? || (r.NoParent? && parent != "" && name !in old(rows))
      ensures r.Stored? ==> rows == old(rows)[name := Row(parent, apps)]
      ensures !r.Stored? ==> rows == old(rows)
      ensures Effect(old(rows), Store(name, parent, apps), rows)
      ensures r.Stored? && Forest(old(rows)) ==> (Forest(rows) <==> name != "")
    {
      var found, fault := Exists(name);
      if fault {
        return StoreFault;
      }
      if found {
        return AlreadyExists;
      }
      if parent != "" {
        found, fault := Exists(parent);
        if !found {
          return NoParent;
        }
      }
      fault := db.Statement();
      if fault {
        return StoreFault;
      }
      if Forest(rows) { StoreForestIff(rows, name, Row(parent, apps)); }
      rows := rows[name := Row(parent, apps)];
      return Stored;
    }

    /** The query for children. The code never looks at the iterator's error, so a query that
        fails part-way looks like one with fewer rows. */
    method QueryChildren(name: string) returns (answer: set<string>)
      modifies db
      ensures answer <= ChildrenOf(rows, name) && db.Failures() >= old(db.Failures())
      ensures db.Failures() == old(db.Failures()) ==> answer == ChildrenOf(rows, name)
    {
      answer := {};
      var todo := ChildrenOf(rows, name);
      while todo != {}
        invariant answer + todo == ChildrenOf(rows, name) && db.Failures() == old(db.Failures())
      {
        var broken := db.Statement();
        if broken {
          return;
        }
        var n :| n in todo;
        todo, answer := todo - {n}, answer + {n};
      }
    }

    /** Deletes one row, unless the database fails. */
    method DeleteRow(name: string, ghost children: set<string>, ghost answer: set<string>) returns (fault: bool)
      modifies this, db
      ensures db.Failures() == old(db.Failures()) + if fault then 1 else 0
      ensures deletions == (if fault then old(deletions) else old(deletions) + [Deletion(name, children, answer)])
      ensures rows == (if fault then old(rows) else old(rows) - {name})
      ensures snapshots == (if fault then old(snapshots) else old(snapshots) + [rows])
    {
      fault := db.Statement();
      if !fault {
        rows := rows - {name};
        snapshots := snapshots + [rows];
        deletions := deletions + [Deletion(name, children, answer)];
      }
    }

    /** `cut` says that some row was deleted although the query for its children had left one
        out. Exactly then a forest is no longer one. */
    method RemoveStack(name: string, force: bool) returns (r: RemoveResult, ghost cut: bool)
      requires force ==> !OnCycle(rows, name)
      modifies this, db
      ensures db.Failures() == old(db.Failures()) ==>
        && !cut && !r.RemoveFault?
        && (r.Missing? <==> name !in old(rows))
        && (r.HasChildren? <==> name in old(rows) && !force && HasChild(old(rows), name))
        && (r.HasChildren? ==> r.names == ChildrenOf(old(rows), name))
      ensures r.Missing? ==> name !in old(rows) && rows == old(rows)
      ensures r.HasChildren? ==> !force && HasChild(old(rows), name) && rows == old(rows)
      ensures r.Removed? ==> name in old(rows) && name !in rows
      ensures r.Removed? && !cut ==> rows == Pruned(old(rows), name) && (!force ==> !HasChild(old(rows), name))
      ensures PartlyRemoved(old(rows), rows, name)
      ensures !cut ==> Effect(old(rows), Remove(name), rows) && EffectsSeen(old(snapshots), snapshots, old(rows), name)
      ensures Forest(old(rows)) ==> (Forest(rows) <==> !cut)
      ensures Grown(old(snapshots), snapshots, old(rows), name, cut) && Recorded(old(deletions), deletions, cut)
    {
      cut := false;
      var found, fault := Exists(name);
      if fault {
        if Forest(rows) { ForestKeptIff(rows, rows); }
        return RemoveFault, false;
      }
      if !found {
        if Forest(rows) { ForestKeptIff(rows, rows); }
        return Missing, false;
      }
      r, cut := RemoveRow(name, force);
      if Forest(old(rows)) {
        assert Ends(old(rows), name);
        NoCycle(old(rows), name);
        ForestKeptIff(old(rows), rows);
      }
    }

    /** Removes the subtrees of the children that the query names, in any order. */
    method RemoveChildren(name: string) returns (fault: bool, answer: set<string>, ghost cut: bool)
      requires name in rows && !OnCycle(rows, name)
      modifies this, db
      ensures db.Failures() >= old(db.Failures())
      ensures db.Failures() == old(db.Failures()) ==> !fault && !cut && answer == ChildrenOf(old(rows), name)
      ensures answer <= ChildrenOf(old(rows), name)
      ensures !fault ==> Underway(old(rows), name, answer, cut, rows)
      ensures Accounted(old(rows), rows, name, cut)
      ensures Grown(old(snapshots), snapshots, old(rows), name, cut) && Recorded(old(deletions), deletions, cut)
      decreases Subtree(rows, name), 1
    {
      ghost var start := rows;
      answer := QueryChildren(name);
      var todo := answer;
      ghost var done: set<string> := {};
      cut := false;
      UnderwayAtFirst(start, name);
      while todo != {}
        invariant todo <= answer && done == answer - todo && db.Failures() >= old(db.Failures())
        invariant db.Failures() == old(db.Failures()) ==> !cut && answer == ChildrenOf(start, name)
        invariant Underway(start, name, done, cut, rows)
        invariant Grown(old(snapshots), snapshots, start, name, cut) && Recorded(old(deletions), deletions, cut)
      {
        var child :| child in todo;
        fault, cut := RemoveChild(name, child, start, done, cut, old(snapshots), old(deletions));
        if fault {
          return true, answer, cut;
        }
        todo, done := todo - {child}, done + {child};
      }
      UnderwayAccounted(start, name, done, cut, rows);
      return false, answer, cut;
    }

    /** One child's subtree, after those of `done`. */
    method RemoveChild(name: string, child: string, ghost start: Rows, ghost done: set<string>, ghost cut: bool,
                       ghost seen: seq<Rows>, ghost log: seq<Deletion>) returns (fault: bool, ghost cut': bool)
      requires name in start && !OnCycle(start, name) && child in ChildrenOf(start, name) && child !in done
      requires Underway(start, name, done, cut, rows)
      requires Grown(seen, snapshots, start, name, cut) && Recorded(log, deletions, cut)
      modifies this, db
      ensures db.Failures() >= old(db.Failures())
      ensures db.Failures() == old(db.Failures()) ==> !fault && cut' == cut
      ensures Accounted(start, rows, name, cut')
      ensures !fault ==> Underway(start, name, done + {child}, cut', rows)
      ensures Grown(seen, snapshots, start, name, cut') && Recorded(log, deletions, cut')
      decreases Subtree(start, name), 0
    {
      ghost var before, now, logged := rows, snapshots, deletions;
      RecursionShrinks(start, name, rows, child);
      var r, childCut := RemoveRow(child, true);
      cut', fault := cut || childCut, !r.Removed?;
      GrownForParent(seen, now, snapshots, start, name, done, cut, before, child, childCut);
      RecordedInTurn(log, logged, deletions, cut, childCut);
      AccountedForParent(start, name, done, cut, before, child, rows, childCut);
      if !fault { UnderwayStep(start, name, done, cut, before, child, rows, childCut); }
    }

    /** The last deletion of a removal, after the subtrees of the children in `answer`. */
    method DeleteAfter(name: string, ghost start: Rows, ghost answer: set<string>, ghost cut: bool,
                       ghost seen: seq<Rows>, ghost log: seq<Deletion>) returns (fault: bool, ghost cut': bool)
      requires Underway(start, name, answer, cut, rows)
      requires Grown(seen, snapshots, start, name, cut) && Recorded(log, deletions, cut)
      modifies this, db
      ensures db.Failures() == old(db.Failures()) + if fault then 1 else 0
      ensures !fault ==> name !in rows && (cut' <==> cut || answer != ChildrenOf(start, name))
      ensures !fault && !cut' ==> rows == Pruned(start, name)
      ensures !OnCycle(start, name) ==> Accounted(start, rows, name, cut')
      ensures PartlyRemoved(start, rows, name) && (!cut' ==> KeepsParents(start, rows))
      ensures Grown(seen, snapshots, start, name, cut') && Recorded(log, deletions, cut')
    {
      UnderwayAccounted(start, name, answer, cut, rows);
      LastDeletionLeaves(start, name, answer, cut, rows);
      if !OnCycle(start, name) { LastDeletion(start, name, answer, cut, rows); }
      RecordedOnce(log, deletions, Deletion(name, ChildrenOf(start, name), answer), cut);
      fault := DeleteRow(name, ChildrenOf(start, name), answer);
      cut' := cut || (!fault && answer != ChildrenOf(start, name));
    }

    /** Removes a stack after its children, or refuses because it has some. */
    method RemoveRow(name: string, force: bool) returns (r: RemoveResult, ghost cut: bool)
      requires name in rows && (force ==> !OnCycle(rows, name))
      modifies this, db
      ensures db.Failures() >= old(db.Failures())
      ensures db.Failures() == old(db.Failures()) ==> !r.RemoveFault? && !cut
      ensures db.Failures() == old(db.Failures()) ==> (r.HasChildren? <==> !force && HasChild(old(rows), name))
      ensures db.Failures() == old(db.Failures()) && r.HasChildren? ==> r.names == ChildrenOf(old(rows), name)
      ensures !r.Missing?
      ensures r.HasChildren? ==> !force && r.names != {} && r.names <= ChildrenOf(old(rows), name) && rows == old(rows)
      ensures r.HasChildren? ==> !cut
      ensures r.Removed? ==> name !in rows
      ensures r.Removed? && !cut ==> rows == Pruned(old(rows), name) && (!force ==> !HasChild(old(rows), name))
      ensures !OnCycle(old(rows), name) ==> Accounted(old(rows), rows, name, cut)
      ensures PartlyRemoved(old(rows), rows, name) && (!cut ==> KeepsParents(old(rows), rows))
      ensures Grown(old(snapshots), snapshots, old(rows), name, cut) && Recorded(old(deletions), deletions, cut)
      decreases Subtree(rows, name), 2
    {
      if force {
        var fault, answer, childrenCut := RemoveChildren(name);
        cut := childrenCut;
        if !fault {
          fault, cut := DeleteAfter(name, old(rows), answer, cut, old(snapshots), old(deletions));
        }
        r := if fault then RemoveFault else Removed;
      } else {
        r, cut := RemoveLeaf(name);
      }
    }

    /** The unforced case. */
    method RemoveLeaf(name: string) returns (r: RemoveResult, ghost cut: bool)
      requires name in rows
      modifies this, db
      ensures db.Failures() >= old(db.Failures())
      ensures db.Failures() == old(db.Failures()) ==> !r.RemoveFault? && !cut
      ensures db.Failures() == old(db.Failures()) ==> (r.HasChildren? <==> HasChild(old(rows), name))
      ensures db.Failures() == old(db.Failures()) && r.HasChildren? ==> r.names == ChildrenOf(old(rows), name)
      ensures !r.Missing?
      ensures r.HasChildren? ==> r.names != {} && r.names <= ChildrenOf(old(rows), name) && rows == old(rows) && !cut
      ensures r.Removed? ==> name !in rows
      ensures r.Removed? && !cut ==> rows == Pruned(old(rows), name) && !HasChild(old(rows), name)
      ensures !OnCycle(old(rows), name) ==> Accounted(old(rows), rows, name, cut)
      ensures PartlyRemoved(old(rows), rows, name) && (!cut ==> KeepsParents(old(rows), rows))
      ensures Grown(old(snapshots), snapshots, old(rows), name, cut) && Recorded(old(deletions), deletions, cut)
    {
      var answer := QueryChildren(name);
      UnderwayAtFirst(rows, name);
      if answer != {} {
        UnderwayAccounted(rows, name, {}, false, rows);
        return HasChildren(answer), false;
      }
      if n :| n in rows && rows[n].parent == name { assert n in ChildrenOf(rows, name); }
      var fault;
      fault, cut := DeleteAfter(name, rows, {}, false, snapshots, deletions);
      r := if fault then RemoveFault else Removed;
    }

    /** Fetches a stack: its parent first, recursively, and then itself merged over it. */
    method GetStack(name: string) returns (r: Fetched, ghost names: seq<string>)
      requires FetchEnds(rows, name)
      modifies db
      ensures r.FetchFault? <==> db.Failures() > old(db.Failures())
      ensures !r.FetchFault? ==> (r.NotFound? <==> exists m :: Misses(rows, name, m))
      ensures r.Found? ==> fresh(r.stack) && r.stack.name == name && Lineage(rows, names, name)
      ensures r.Found? ==> r.stack.applications == MergeChain(ChainOf(rows, names))
      ensures !r.FetchFault? && Forest(rows) ==> (r.NotFound? <==> name !in rows)
    {
      ghost var k: nat :| k > 0 && Stops(Up(rows, name, k));
      r, names := Fetch(name, k);
      if r.Found? { LineageMissesNothing(rows, names, name); }
      if r.NotFound? && Forest(rows) {
        ghost var m :| Misses(rows, name, m);
        ForestMissesNothing(rows, name, m);
      }
    }

    method Fetch(name: string, ghost k: nat) returns (r: Fetched, ghost names: seq<string>)
      requires k > 0 && Stops(Up(rows, name, k))
      modifies db
      ensures db.Failures() >= old(db.Failures())
      ensures r.FetchFault? <==> db.Failures() > old(db.Failures())
      ensures r.Found? ==> fresh(r.stack) && r.stack.name == name && Lineage(rows, names, name)
      ensures r.Found? ==> r.stack.applications == MergeChain(ChainOf(rows, names))
      ensures r.NotFound? ==> exists m :: Misses(rows, name, m)
      decreases k
    {
      var fault := db.Statement();
      if fault {
        return FetchFault, [];
      }
      assert Up(rows, name, 0) == At(name);
      if name !in rows {
        assert MetAt(rows, name, name, 0) && Misses(rows, name, name);
        return NotFound, [];
      }
      var row := rows[name];
      var stack := new Stack(name, row.apps);
      if row.parent == "" {
        names := [name];
        assert ChainOf(rows, names)[..0] == [] && MergeApps(map[], row.apps) == row.apps;
        return Found(stack), names;
      }
      assert Up(rows, name, 1) == At(row.parent);
      UpAdds(rows, name, 1, row.parent, k - 1);
      r, names := Fetch(row.parent, k - 1);
      match r
      case Found(whole) =>
        whole.Merge(stack);
        LineageExtends(rows, names, name);
        names := names + [name];
      case NotFound =>
        ghost var m :| Misses(rows, row.parent, m);
        MissesThroughParent(rows, name, m);
      case FetchFault =>
    }
  }

  /** A place where fetching does not look any further. */
  ghost predicate Stops(place: Place) {
    place == Off || place == At("")
  }

  /** The recursion of a fetch ends: the links from `name` leave the table or reach "no parent". */
  ghost predicate FetchEnds(rows: Rows, name: string) {
    exists k: nat :: k > 0 && Stops(Up(rows, name, k))
  }

  /** `m` is `name` or a named ancestor of it, and it is not stored. */
  ghost predicate Misses(rows: Rows, name: string, m: string) {
    m !in rows && exists i: nat :: MetAt(rows, name, m, i)
  }

  /** A fetch comes to `m` after `i` links, none of which says "no parent". */
  ghost predicate MetAt(rows: Rows, name: string, m: string, i: nat) {
    Up(rows, name, i) == At(m) && (i == 0 || m != "") && forall j :: 0 < j < i ==> Up(rows, name, j) != At("")
  }

  /** Where a lineage lies on the links. */
  lemma {:induction false} LineageOnLinks(rows: Rows, names: seq<string>, name: string, i: nat)
    requires Lineage(rows, names, name) && i < |names|
    ensures Up(rows, name, i) == At(names[|names| - 1 - i])
  {
    if i > 0 { LineageOnLinks(rows, names, name, i - 1); }
  }

  /** A stack with a lineage lacks no ancestor. */
  lemma {:induction false} LineageMissesNothing(rows: Rows, names: seq<string>, name: string)
    requires Lineage(rows, names, name)
    ensures forall m :: !Misses(rows, name, m)
  {
    LineageOnLinks(rows, names, name, |names| - 1);
    assert Up(rows, name, |names|) == At("");
    forall m | m !in rows ensures !Misses(rows, name, m) {
      if i: nat :| MetAt(rows, name, m, i) {
        if i < |names| { LineageOnLinks(rows, names, name, i); }
      }
    }
  }

  lemma MissesThroughParent(rows: Rows, name: string, m: string)
    requires name in rows && rows[name].parent != "" && Misses(rows, rows[name].parent, m)
    ensures Misses(rows, name, m)
  {
    var p := rows[name].parent;
    var i: nat :| MetAt(rows, p, m, i);
    assert Up(rows, p, 0) == At(p);
    assert Up(rows, name, 0) == At(name);
    assert Up(rows, name, 1) == At(p);
    UpAdds(rows, name, 1, p, i);
    forall j | 0 < j < i + 1 ensures Up(rows, name, j) != At("") { UpAdds(rows, name, 1, p, j - 1); }
    assert MetAt(rows, name, m, i + 1);
  }

  lemma {:induction false} ForestMissesNothing(rows: Rows, name: string, m: string)
    requires Forest(rows) && Misses(rows, name, m)
    ensures name !in rows
  {
    var i: nat :| MetAt(rows, name, m, i);
    assert Up(rows, name, 0) == At(name);
  }

  /** In a forest every fetch ends. */
  lemma ForestFetchEnds(rows: Rows, name: string)
    requires Forest(rows)
    ensures FetchEnds(rows, name)
  {
    assert Up(rows, name, 0) == At(name);
    if name in rows {
      assert Ends(rows, name);
      var k: nat :| Up(rows, name, k) == Off;
      assert Stops(Up(rows, name, k));
    } else {
      assert Stops(Up(rows, name, 1));
    }
  }

  /** Without a row for the empty name a fetch ends where the links do. */
  lemma {:induction false} FetchStopsIff(rows: Rows, name: string)
    requires name != ""
    ensures FetchEnds(rows, name) <==> Ends(rows - {""}, name)
  {
    var named := rows - {""};
    if k: nat :| k > 0 && Stops(Up(rows, name, k)) {
      UpInSubTable(rows, named, name, k);
      if Up(named, name, k) == At("") { assert Up(named, name, k + 1) == Off; }
    }
    if k: nat :| Up(named, name, k) == Off { StopsBefore(rows, name, k); }
  }

  lemma {:induction false} StopsBefore(rows: Rows, name: string, k: nat)
    requires name != "" && Up(rows - {""}, name, k) == Off
    ensures FetchEnds(rows, name)
  {
    var named := rows - {""};
    if Up(named, name, k - 1) == Off {
      StopsBefore(rows, name, k - 1);
    } else {
      UpInSubTable(rows, named, name, k - 1);
      assert Up(rows, name, 0) == At(name);
      assert Stops(Up(rows, name, k - 1)) || Stops(Up(rows, name, k));
    }
  }

  /** A fetch ends exactly when neither the stack nor an ancestor is on a cycle of parent links.
      A row for the empty name, which every other row reads as no parent, takes no part. */
  lemma {:induction false} FetchEndsIff(rows: Rows, name: string)
    requires name != ""
    ensures FetchEnds(rows, name) <==>
      forall m :: Under(rows - {""}, name, m) ==> !OnCycle(rows - {""}, m)
  {
    FetchStopsIff(rows, name);
    EndsIff(rows - {""}, name);
  }

  /** Fetching the empty name looks at its own row once and then at its parent. */
  lemma {:induction false} EmptyNameFetchEndsIff(rows: Rows)
    ensures FetchEnds(rows, "") <==> "" !in rows || rows[""].parent == "" || FetchEnds(rows, rows[""].parent)
  {
    assert Up(rows, "", 0) == At("");
    if "" !in rows {
      assert Stops(Up(rows, "", 1));
    } else {
      var p := rows[""].parent;
      assert Up(rows, "", 1) == At(p);
      if k: nat :| k > 0 && Stops(Up(rows, "", k)) {
        UpAdds(rows, "", 1, p, k - 1);
        assert Up(rows, p, 0) == At(p);
      }
      if k: nat :| k > 0 && Stops(Up(rows, p, k)) {
        UpAdds(rows, "", 1, p, k);
        assert Stops(Up(rows, "", k + 1));
      }
    }
  }

  /** The orphan that a cut query leaves lets a cycle in: its lost parent can be stored again as
      its child, which passes both of the Cassandra storage's checks, and then no fetch of either
      ends. */
  lemma {:induction false} OrphanLetsCycleIn(apps: Apps)
    ensures var orphaned := map["c" := Row("p", apps)];
      var rows := orphaned["p" := Row("c", apps)];
      && Effect(orphaned, Store("p", "c", apps), rows)
      && orphaned == Without(map["p" := Row("", apps), "c" := Row("p", apps)], {}) - {"p"}
      && "p" in rows && OnCycle(rows, "p") && !FetchEnds(rows, "p")
  {
    var orphaned := map["c" := Row("p", apps)];
    var rows := orphaned["p" := Row("c", apps)];
    WithoutNothing(map["p" := Row("", apps), "c" := Row("p", apps)]);
    assert Up(rows, "p", 0) == At("p");
    assert Up(rows, "p", 1) == At("c");
    assert Up(rows, "p", 2) == At("p");
    forall k: nat ensures !Stops(Up(rows, "p", k)) { BackAndForth(rows, k); }
  }

  lemma {:induction false} BackAndForth(rows: Rows, k: nat)
    requires "p" in rows && rows["p"].parent == "c" && "c" in rows && rows["c"].parent == "p"
    ensures Up(rows, "p", k) == At(if k % 2 == 0 then "p" else "c")
  {
    if k > 0 { BackAndForth(rows, k - 1); }
  }

  /** The names from the oldest ancestor down to `name`. */
  ghost predicate Lineage(rows: Rows, names: seq<string>, name: string) {
    && names != [] && names[|names| - 1] == name
    && (forall i :: 0 <= i < |names| ==> names[i] in rows)
    && rows[names[0]].parent == ""
    && (forall i :: 0 < i < |names| ==> rows[names[i]].parent == names[i - 1])
    && (forall i :: 0 <= i < |names| - 1 ==> names[i] != "")
  }

  ghost function ChainOf(rows: Rows, names: seq<string>): seq<Apps>
    requires forall i :: 0 <= i < |names| ==> names[i] in rows
  {
    seq(|names|, i requires 0 <= i < |names| => rows[names[i]].apps)
  }

  lemma LineageExtends(rows: Rows, names: seq<string>, name: string)
    requires name in rows && rows[name].parent != "" && Lineage(rows, names, rows[name].parent)
    ensures Lineage(rows, names + [name], name)
    ensures MergeChain(ChainOf(rows, names + [name])) == MergeApps(MergeChain(ChainOf(rows, names)), rows[name].apps)
  {
    assert ChainOf(rows, names + [name])[..|names|] == ChainOf(rows, names);
  }

  /** A stack has only one lineage, so what `GetStack` returns is determined. */
  lemma {:induction false} LineageIsUnique(rows: Rows, a: seq<string>, b: seq<string>, name: string)
    requires Lineage(rows, a, name) && Lineage(rows, b, name)
    ensures a == b
  {
    var i, j := |a| - 1, |b| - 1;
    assert a == a[..i] + [name] && b == b[..j] + [name];
    assert i > 0 ==> rows[a[i]].parent == a[i - 1] && a[i - 1] in rows;
    assert j > 0 ==> rows[b[j]].parent == b[j - 1] && b[j - 1] in rows;
    if i > 0 && j > 0 {
      LineageIsUnique(rows, a[..i], b[..j], rows[name].parent);
    }
  }

  class InMemoryStorage {
    var stacks: Rows

    constructor ()
      ensures stacks == map[]
    {
      stacks := map[];
    }

    /** Unlike the Cassandra storage this does not look for the parent. */
    method StoreStack(name: string, parent: string, apps: Apps) returns (r: StoreResult)
      modifies this
      ensures r.AlreadyExists? <==> name in old(stacks)
      ensures r.AlreadyExists? ==> stacks == old(stacks)
      ensures !r.AlreadyExists? ==> r.Stored? && stacks == old(stacks)[name := Row(parent, apps)]
      ensures r.Stored? && Forest(old(stacks)) ==>
        (Forest(stacks) <==> name != "" && (parent == "" || parent in old(stacks)))
    {
      if name in stacks {
        return AlreadyExists;
      }
      if Forest(stacks) { StoreForestIff(stacks, name, Row(parent, apps)); }
      stacks := stacks[name := Row(parent, apps)];
      return Stored;
    }

    /** `RemovalEndsIff` says why a forced removal must not begin on a cycle; parents that are
        not stored do no harm. */
    method RemoveStack(name: string, force: bool) returns (r: RemoveResult)
      requires force ==> !OnCycle(stacks, name)
      modifies this
      ensures r.Missing? <==> name !in old(stacks)
      ensures r.HasChildren? <==> name in old(stacks) && !force && HasChild(old(stacks), name)
      ensures r.Missing? || r.HasChildren? ==> stacks == old(stacks)
      ensures r.Removed? ==> stacks == Pruned(old(stacks), name) && name !in stacks
      ensures !r.RemoveFault?
    {
      if name !in stacks {
        return Missing;
      }
      r := RemoveEntry(name, force);
    }

    /** Ranges over the map in any order while the recursion deletes from it: entries deleted
        before they are reached are not produced. */
    method RemoveChildren(name: string)
      requires name in stacks && !OnCycle(stacks, name)
      modifies this
      ensures stacks == Without(old(stacks), ChildrenOf(old(stacks), name))
      decreases Subtree(stacks, name), 0
    {
      ghost var start := stacks;
      var todo := stacks.Keys;
      ghost var gone := {};
      WithoutNothing(start);
      while todo * stacks.Keys != {}
        invariant stacks == Without(start, gone) && gone <= ChildrenOf(start, name)
        invariant ChildrenOf(start, name) - gone <= todo && todo !! gone
        decreases todo
      {
        var n :| n in todo * stacks.Keys;
        todo := todo - {n};
        if stacks[n].parent == name {
          RecursionShrinks(start, name, stacks, n);
          PrunedStep(start, gone, n);
          var _ := RemoveEntry(n, true);
          gone := gone + {n};
        }
      }
      forall c | c in ChildrenOf(start, name) ensures c in gone {
        if c !in gone { SiblingStays(start, name, gone, c); }
      }
    }

    method RemoveEntry(name: string, force: bool) returns (r: RemoveResult)
      requires name in stacks && (force ==> !OnCycle(stacks, name))
      modifies this
      ensures r.HasChildren? <==> !force && HasChild(old(stacks), name)
      ensures r.HasChildren? ==> stacks == old(stacks) && r.names == ChildrenOf(stacks, name)
      ensures !r.HasChildren? ==> r.Removed? && stacks == Pruned(old(stacks), name) && name !in stacks
      decreases Subtree(stacks, name), 1
    {
      PrunedIsChildrenAndSelf(stacks, name);
      if n :| n in stacks && stacks[n].parent == name { assert n in ChildrenOf(stacks, name); }
      assert Up(stacks, name, 0) == At(name);
      if force {
        RemoveChildren(name);
      } else {
        var children := ChildrenOf(stacks, name);
        if children != {} {
          return HasChildren(children);
        }
        WithoutNothing(stacks);
      }
      stacks := stacks - {name};
      return Removed;
    }
  }
}
