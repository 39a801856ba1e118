/** What plan distillation promises: the allow-list copy is sparse and exact,
    the flattening is a preorder walk with one item per object node, depths
    start at 0 and grow by one per nesting level, and every item is the
    projection of a node of the tree. */
module PlanLaws {
  import opened Py
  import opened Plan

  // ---------------------------------------------------------------------------
  // The allow-list copy

  /** Each allow-listed output key is present exactly when its source field is,
      and holds that field's value; no other key appears. */
  lemma {:induction false} CopyPresentSpec<V>(fields: map<string, V>, pairs: seq<(string, string)>)
    requires DistinctOuts(pairs)
    ensures var r := CopyPresent(fields, pairs);
      && (forall i :: 0 <= i < |pairs| ==> Lookup(r, pairs[i].1) == Get(fields, pairs[i].0))
      && (forall k :: k in Keys(r) ==> IsOut(pairs, k))
    decreases |pairs|
  {
    if pairs != [] {
      var rest := pairs[1..];
      CopyPresentSpec(fields, rest);
      var r := CopyPresent(fields, pairs);
      var tail := CopyPresent(fields, rest);
      var key, outKey := pairs[0].0, pairs[0].1;
      forall i | 0 <= i < |pairs|
        ensures Lookup(r, pairs[i].1) == Get(fields, pairs[i].0)
      {
        if i > 0 {
          assert pairs[i] == rest[i - 1];
          assert Lookup(tail, rest[i - 1].1) == Get(fields, rest[i - 1].0);
          if key in fields {
            assert pairs[0].1 != pairs[i].1;
            assert r == [(outKey, fields[key])] + tail;
            assert r[0].0 != pairs[i].1 && r[1..] == tail;
          } else {
            assert r == tail;
          }
        } else if key in fields {
          assert r == [(outKey, fields[key])] + tail;
          assert r[0] == (outKey, fields[key]);
        } else {
          assert r == tail;
          assert outKey !in Keys(tail);
        }
      }
      forall k | k in Keys(r)
        ensures IsOut(pairs, k)
      {
        if key in fields && k == outKey {
          assert pairs[0].1 == k;
        } else {
          if key in fields {
            assert Keys(r) == [outKey] + Keys(tail);
          } else {
            assert r == tail;
          }
          var m :| 0 <= m < |rest| && rest[m].1 == k;
          assert pairs[m + 1].1 == k;
        }
      }
    }
  }

  /** The output names of the allow-list are pairwise different. */
  lemma AllowedDistinct()
    ensures DistinctOuts(Allowed)
  {
    forall i, j | 0 <= i < j < |Allowed|
      ensures Allowed[i].1 != Allowed[j].1
    {
      if j < 11 {
        AllowedDistinctIn(0, 11);
      } else if 11 <= i {
        AllowedDistinctIn(11, 22);
      } else if j < 16 {
        AllowedDistinctAcross(11, 16);
      } else {
        AllowedDistinctAcross(16, 22);
      }
    }
  }

  /** The output names at `lo..hi` are pairwise different. */
  lemma AllowedDistinctIn(lo: nat, hi: nat)
    requires (lo, hi) == (0, 11) || (lo, hi) == (11, 22)
    ensures forall i, j :: lo <= i < j < hi ==> Allowed[i].1 != Allowed[j].1
  {
  }

  /** The output names at `lo..hi` differ from those of the first eleven pairs. */
  lemma AllowedDistinctAcross(lo: nat, hi: nat)
    requires (lo, hi) == (11, 16) || (lo, hi) == (16, 22)
    ensures forall i, j :: 0 <= i < 11 && lo <= j < hi ==> Allowed[i].1 != Allowed[j].1
  {
  }

  /** One node's item: its type, the given depth, every allow-listed field
      that is present under its output name, and nothing else. */
  lemma ProjectSpec<V>(n: PlanNode<V>, depth: nat)
    ensures var item := Project(n, depth);
      && item.nodeType == Get(n.fields, "Node Type")
      && item.depth == depth
      && (forall i :: 0 <= i < |Allowed| ==> Lookup(item.present, Allowed[i].1) == Get(n.fields, Allowed[i].0))
      && (forall k :: k in Keys(item.present) ==> IsOut(Allowed, k))
  {
    AllowedDistinct();
    CopyPresentSpec(n.fields, Allowed);
  }

  /** Sparse fields: a node without a `"Filter"` yields an item without a
      `"filter"`. */
  lemma NoFilterNoFilterKey<V>(n: PlanNode<V>, depth: nat)
    requires "Filter" !in n.fields
    ensures "filter" !in Keys(Project(n, depth).present)
  {
    ProjectSpec(n, depth);
    assert Allowed[8] == ("Filter", "filter");
  }

  // ---------------------------------------------------------------------------
  // Shape of the flattened list

  /** The number of object nodes in a tree, counting through `"Plans"` only. */
  function Size<V>(n: PlanNode<V>): nat
    decreases n, 1, 0
  {
    1 + Between(n, 0, |n.plans|)
  }

  /** The number of object nodes in the subtrees of the children
      `n.plans[j..i]`. */
  function Between<V>(n: PlanNode<V>, j: nat, i: nat): nat
    requires j <= i <= |n.plans|
    decreases n, 0, i - j
  {
    if j == i then 0
    else
      (match n.plans[j] case Node(c) => Size(c) case NonDict(_) => 0) + Between(n, j + 1, i)
  }

  /** Consecutive items never descend more than one level at a time. */
  predicate Steps<V>(r: seq<FlatNode<V>>) {
    forall k :: 0 < k < |r| ==> r[k].depth <= r[k - 1].depth + 1
  }

  predicate AtLeast<V>(r: seq<FlatNode<V>>, d: nat) {
    forall k :: 0 <= k < |r| ==> r[k].depth >= d
  }

  /** A preorder listing of a tree rooted at depth `d`: the root first at
      depth `d`, everything after it deeper, one level at a time. */
  predicate Nested<V>(r: seq<FlatNode<V>>, d: nat) {
    && r != [] && r[0].depth == d
    && (forall k :: 0 < k < |r| ==> r[k].depth > d)
    && Steps(r)
  }

  lemma StepsAppend<V>(a: seq<FlatNode<V>>, b: seq<FlatNode<V>>)
    requires Steps(a) && Steps(b)
    requires a != [] && b != [] ==> b[0].depth <= a[|a| - 1].depth + 1
    ensures Steps(a + b)
  {
    var s := a + b;
    forall k | 0 < k < |s|
      ensures s[k].depth <= s[k - 1].depth + 1
    {
      if k < |a| {
        assert s[k] == a[k] && s[k - 1] == a[k - 1];
      } else if k == |a| {
        assert s[k] == b[0] && s[k - 1] == a[|a| - 1];
      } else {
        assert s[k] == b[k - |a|] && s[k - 1] == b[k - 1 - |a|];
      }
    }
  }

  /** The flattening of a tree has one item per object node and is a
      preorder listing rooted at the given depth. */
  lemma {:induction false} FlattenShape<V>(n: PlanNode<V>, d: nat)
    ensures |Flatten(n, d)| == Size(n)
    ensures Nested(Flatten(n, d), d)
    decreases n, 1, 0
  {
    FlattenFromShape(n, 0, d + 1);
    var rest := FlattenFrom(n, 0, d + 1);
    StepsAppend([Project(n, d)], rest);
    var r := Flatten(n, d);
    forall k | 0 < k < |r|
      ensures r[k].depth > d
    {
      assert r[k] == rest[k - 1];
    }
  }

  lemma {:induction false} FlattenFromShape<V>(n: PlanNode<V>, i: nat, d: nat)
    requires i <= |n.plans|
    ensures var r := FlattenFrom(n, i, d);
      && |r| == Between(n, i, |n.plans|)
      && AtLeast(r, d)
      && Steps(r)
      && (r != [] ==> r[0].depth == d)
    decreases n, 0, |n.plans| - i
  {
    if i < |n.plans| {
      FlattenFromShape(n, i + 1, d);
      var rest := FlattenFrom(n, i + 1, d);
      if n.plans[i].Node? {
        var c := n.plans[i].node;
        FlattenShape(c, d);
        var first := Flatten(c, d);
        assert first[|first| - 1].depth >= d;
        StepsAppend(first, rest);
        var r := first + rest;
        forall k | 0 <= k < |r|
          ensures r[k].depth >= d
        {
          if k >= |first| {
            assert r[k] == rest[k - |first|];
          }
        }
      } else {
        assert FlattenFrom(n, i, d) == [] + rest;
      }
    }
  }

  /** Every item after the first has an earlier item at each shallower depth
      down to the root's; in particular its parent, one level up, precedes it. */
  lemma {:induction false} Ancestor<V>(r: seq<FlatNode<V>>, d: nat, k: nat, t: nat)
    requires Nested(r, d)
    requires k < |r| && d <= t < r[k].depth
    ensures exists j :: 0 <= j < k && r[j].depth == t
    decreases k
  {
    if r[k - 1].depth == t {
    } else if r[k - 1].depth > t {
      Ancestor(r, d, k - 1, t);
    }
  }

  /** Every non-root item has an item exactly one level shallower before
      it. */
  lemma FlattenParents<V>(n: PlanNode<V>, d: nat, k: nat)
    requires 0 < k < |Flatten(n, d)|
    ensures var r := Flatten(n, d);
      exists j :: 0 <= j < k && r[j].depth + 1 == r[k].depth
  {
    FlattenShape(n, d);
    Ancestor(Flatten(n, d), d, k, Flatten(n, d)[k].depth - 1);
  }

  // ---------------------------------------------------------------------------
  // Children as consecutive blocks

  /** The children's counts add up over adjacent ranges. */
  lemma {:induction false} BetweenSplit<V>(n: PlanNode<V>, j: nat, k: nat, i: nat)
    requires j <= k <= i <= |n.plans|
    ensures Between(n, j, i) == Between(n, j, k) + Between(n, k, i)
    decreases k - j
  {
    if j < k {
      BetweenSplit(n, j + 1, k, i);
    }
  }

  /** Dropping the items of the children `n.plans[j..i]` from their
      flattening leaves the flattening of the children from `i` on. */
  lemma {:induction false} FlattenFromDrop<V>(n: PlanNode<V>, j: nat, i: nat, d: nat)
    requires j <= i <= |n.plans|
    ensures Between(n, j, i) <= |FlattenFrom(n, j, d)|
    ensures FlattenFrom(n, j, d)[Between(n, j, i)..] == FlattenFrom(n, i, d)
    decreases i - j
  {
    if j < i {
      FlattenFromDrop(n, j + 1, i, d);
      var rest := FlattenFrom(n, j + 1, d);
      var b := Between(n, j + 1, i);
      if n.plans[j].Node? {
        var first := Flatten(n.plans[j].node, d);
        FlattenShape(n.plans[j].node, d);
        assert FlattenFrom(n, j, d) == first + rest;
        assert (first + rest)[|first| + b..] == rest[b..];
      } else {
        assert FlattenFrom(n, j, d) == [] + rest;
      }
    }
  }

  /** Preorder, block by block: the object child at position `i` of
      `"Plans"` contributes its own flattening, one level deeper than its
      parent, as the block that starts after the parent's item and the
      blocks of the object children before it. */
  lemma ChildBlock<V>(n: PlanNode<V>, d: nat, i: nat)
    requires i < |n.plans| && n.plans[i].Node?
    ensures var r := Flatten(n, d);
      var c := n.plans[i].node;
      var start := 1 + Between(n, 0, i);
      && start + Size(c) <= |r|
      && r[start..start + Size(c)] == Flatten(c, d + 1)
      && r[0] == Project(n, d)
      && r[start] == Project(c, d + 1)
  {
    var c := n.plans[i].node;
    var b := Between(n, 0, i);
    var all := FlattenFrom(n, 0, d + 1);
    FlattenFromDrop(n, 0, i, d + 1);
    FlattenShape(c, d + 1);
    var block := Flatten(c, d + 1);
    var after := FlattenFrom(n, i + 1, d + 1);
    assert all[b..] == block + after;
    assert all[b..b + Size(c)] == (block + after)[..|block|] == block;
    assert Flatten(n, d) == [Project(n, d)] + all;
  }

  /** Siblings keep their order: the block of an earlier object child ends
      before the block of a later one starts. */
  lemma SiblingOrder<V>(n: PlanNode<V>, i: nat, j: nat)
    requires i < j < |n.plans| && n.plans[i].Node? && n.plans[j].Node?
    ensures 1 + Between(n, 0, i) + Size(n.plans[i].node) <= 1 + Between(n, 0, j)
  {
    BetweenSplit(n, 0, i, j);
    BetweenSplit(n, i, i + 1, j);
  }

  /** A chain of three nested object nodes flattens to depths 0, 1 and 2. */
  lemma ChainDepths<V>(root: PlanNode<V>, c: PlanNode<V>, g: PlanNode<V>)
    requires root.plans == [Node(c)] && c.plans == [Node(g)] && g.plans == []
    ensures Flatten(root, 0) == [Project(root, 0), Project(c, 1), Project(g, 2)]
  {
    assert Flatten(g, 2) == [Project(g, 2)] by {
      assert FlattenFrom(g, 0, 3) == [];
    }
    assert Flatten(c, 1) == [Project(c, 1), Project(g, 2)] by {
      assert FlattenFrom(c, 1, 2) == [];
      assert FlattenFrom(c, 0, 2) == Flatten(g, 2);
    }
    assert FlattenFrom(root, 1, 1) == [];
    assert FlattenFrom(root, 0, 1) == Flatten(c, 1);
  }

  // ---------------------------------------------------------------------------
  // Items come from the tree

  /** `m` is `n` or an object reachable from it through `"Plans"` lists. */
  ghost predicate Reaches<V>(n: PlanNode<V>, m: PlanNode<V>)
    decreases n
  {
    n == m || exists i :: 0 <= i < |n.plans| && n.plans[i].Node? && Reaches(n.plans[i].node, m)
  }

  /** With `n` at depth `d`, `m` sits at depth `t`: it is `n` when `t == d`,
      or it is reached through `t - d` nested `"Plans"` lists. */
  ghost predicate ReachesAt<V>(n: PlanNode<V>, m: PlanNode<V>, d: nat, t: nat)
    decreases n
  {
    if t <= d then t == d && n == m
    else exists i :: 0 <= i < |n.plans| && n.plans[i].Node? && ReachesAt(n.plans[i].node, m, d + 1, t)
  }

  lemma {:induction false} AtReaches<V>(n: PlanNode<V>, m: PlanNode<V>, d: nat, t: nat)
    requires ReachesAt(n, m, d, t)
    ensures Reaches(n, m)
    decreases n
  {
    if t > d {
      var i :| 0 <= i < |n.plans| && n.plans[i].Node? && ReachesAt(n.plans[i].node, m, d + 1, t);
      AtReaches(n.plans[i].node, m, d + 1, t);
    }
  }

  /** Every item is the projection of an object node of the tree, and its
      depth is the node's nesting level below the root plus the root's
      depth. */
  lemma {:induction false} FlattenFromTree<V>(n: PlanNode<V>, d: nat, k: nat)
    requires k < |Flatten(n, d)|
    ensures exists m :: ReachesAt(n, m, d, Flatten(n, d)[k].depth)
                     && Flatten(n, d)[k] == Project(m, Flatten(n, d)[k].depth)
    decreases n, 1, 0
  {
    if k > 0 {
      var rest := FlattenFrom(n, 0, d + 1);
      assert Flatten(n, d)[k] == rest[k - 1];
      var t := rest[k - 1].depth;
      var m, j := FlattenFromFromTree(n, 0, d + 1, k - 1);
      assert ReachesAt(n.plans[j].node, m, d + 1, t);
      assert t > d;
      assert ReachesAt(n, m, d, t);
    } else {
      assert ReachesAt(n, n, d, d);
    }
  }

  lemma {:induction false} FlattenFromFromTree<V>(n: PlanNode<V>, i: nat, d: nat, k: nat)
    returns (m: PlanNode<V>, j: nat)
    requires i <= |n.plans| && k < |FlattenFrom(n, i, d)|
    ensures i <= j < |n.plans| && n.plans[j].Node?
    ensures ReachesAt(n.plans[j].node, m, d, FlattenFrom(n, i, d)[k].depth)
    ensures FlattenFrom(n, i, d)[k] == Project(m, FlattenFrom(n, i, d)[k].depth)
    decreases n, 0, |n.plans| - i
  {
    var rest := FlattenFrom(n, i + 1, d);
    if n.plans[i].Node? {
      var c := n.plans[i].node;
      var first := Flatten(c, d);
      if k < |first| {
        FlattenFromTree(c, d, k);
        var m' :| ReachesAt(c, m', d, first[k].depth) && first[k] == Project(m', first[k].depth);
        assert FlattenFrom(n, i, d)[k] == first[k];
        m, j := m', i;
      } else {
        assert FlattenFrom(n, i, d)[k] == rest[k - |first|];
        m, j := FlattenFromFromTree(n, i + 1, d, k - |first|);
      }
    } else {
      assert FlattenFrom(n, i, d) == [] + rest;
      m, j := FlattenFromFromTree(n, i + 1, d, k);
    }
  }

  /** Sparse fields across the whole plan: if no object node of the tree has
      a `"Filter"`, no item has a `"filter"`. */
  lemma NoFilterAnywhere<V>(n: PlanNode<V>, d: nat)
    requires forall m :: Reaches(n, m) ==> "Filter" !in m.fields
    ensures forall k :: 0 <= k < |Flatten(n, d)| ==> "filter" !in Keys(Flatten(n, d)[k].present)
  {
    forall k | 0 <= k < |Flatten(n, d)|
      ensures "filter" !in Keys(Flatten(n, d)[k].present)
    {
      var t := Flatten(n, d)[k].depth;
      FlattenFromTree(n, d, k);
      var m :| ReachesAt(n, m, d, t) && Flatten(n, d)[k] == Project(m, t);
      AtReaches(n, m, d, t);
      NoFilterNoFilterKey(m, t);
    }
  }

  // ---------------------------------------------------------------------------
  // The distilled record

  /** The distilled record: timings read from the top level, one item per
      object node starting with the root at depth 0, and a top row count that
      agrees with the root item's `actual_rows`. */
  lemma DistillSpec<V>(e: Explain<V>)
    ensures var r := Distill(e);
      && r.planningTime == Get(e.fields, "Planning Time")
      && r.executionTime == Get(e.fields, "Execution Time")
      && (e.plan.None? ==> r.nodes == [] && r.topActualRows == None)
      && (e.plan.Some? ==>
            |r.nodes| == Size(e.plan.value)
            && Nested(r.nodes, 0)
            && r.topActualRows == Get(e.plan.value.fields, "Actual Rows")
            && r.topActualRows == Lookup(r.nodes[0].present, "actual_rows"))
  {
    if e.plan.Some? {
      var p := e.plan.value;
      FlattenShape(p, 0);
      ProjectSpec(p, 0);
      assert Allowed[2] == ("Actual Rows", "actual_rows");
    }
  }
}
