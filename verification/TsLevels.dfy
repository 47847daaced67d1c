/** Trees stay trees: parents without cycles, and the level of a node below its root. */
module TsLevels {
  import opened TsForest
  import opened TsLinks

  type Levels = map<TsNode, nat>

  ghost predicate OneBelow(parent: Pointers, u: set<TsNode>, lv: Levels, n: TsNode)
    requires parent.Keys == lv.Keys == u && n in u
  {
    if parent[n] == null then lv[n] == 0 else parent[n] in u && lv[n] == lv[parent[n]] + 1
  }

  /** Every node is one level below its parent, and a node without a parent is on level zero. */
  ghost predicate Levelled(parent: Pointers, u: set<TsNode>, older lv: Levels) {
    && parent.Keys == lv.Keys == u
    && forall n | n in u :: OneBelow(parent, u, lv, n)
  }

  ghost predicate Acyclic(parent: Pointers, u: set<TsNode>) {
    exists lv: Levels :: Levelled(parent, u, lv)
  }

  /** `k` steps upwards lead from `n` to `a`. */
  ghost predicate StepsUp(parent: Pointers, n: TsNode, a: TsNode, k: nat) {
    if k == 0 then n == a else n in parent && parent[n] != null && StepsUp(parent, parent[n], a, k - 1)
  }

  /** `n` is `a` or a descendant of it. */
  ghost predicate IsBelow(parent: Pointers, n: TsNode, a: TsNode) {
    exists k: nat :: StepsUp(parent, n, a, k)
  }

  lemma BelowParent(parent: Pointers, n: TsNode, a: TsNode)
    requires n in parent && n != a
    ensures IsBelow(parent, n, a) <==> parent[n] != null && IsBelow(parent, parent[n], a)
  {
    if IsBelow(parent, n, a) {
      var k: nat :| StepsUp(parent, n, a, k);
      assert StepsUp(parent, parent[n], a, k - 1);
    }
    if parent[n] != null && IsBelow(parent, parent[n], a) {
      var k: nat :| StepsUp(parent, parent[n], a, k);
      assert StepsUp(parent, n, a, k + 1);
    }
  }

  lemma {:induction false} BelowIsDeeper(parent: Pointers, u: set<TsNode>, lv: Levels, n: TsNode, a: TsNode, k: nat)
    requires Levelled(parent, u, lv) && n in u && StepsUp(parent, n, a, k)
    ensures a in u && lv[n] == lv[a] + k
    decreases k
  {
    if k > 0 {
      BelowIsDeeper(parent, u, lv, parent[n], a, k - 1);
    }
  }

  lemma BelowDepth(parent: Pointers, u: set<TsNode>, lv: Levels, n: TsNode, a: TsNode)
    requires Levelled(parent, u, lv) && n in u && IsBelow(parent, n, a)
    ensures a in u && lv[n] >= lv[a]
  {
    var k: nat :| StepsUp(parent, n, a, k);
    BelowIsDeeper(parent, u, lv, n, a, k);
  }

  /** The level of a node after `child` and all below it moved to level `base`. */
  ghost function ShiftedLevel(parent: Pointers, lv: Levels, child: TsNode, base: nat, n: TsNode): nat
    requires n in lv && child in lv
  {
    if IsBelow(parent, n, child) && lv[n] >= lv[child] then lv[n] - lv[child] + base else lv[n]
  }

  lemma ShiftedStep(parent: Pointers, u: set<TsNode>, lv: Levels, child: TsNode, base: nat, n: TsNode)
    requires Levelled(parent, u, lv) && child in u && n in u && n != child && parent[n] != null
    ensures parent[n] in u
    ensures ShiftedLevel(parent, lv, child, base, n) == ShiftedLevel(parent, lv, child, base, parent[n]) + 1
  {
    BelowParent(parent, n, child);
    if IsBelow(parent, parent[n], child) {
      BelowDepth(parent, u, lv, parent[n], child);
    }
    hide IsBelow;
  }

  lemma ShiftedRoot(parent: Pointers, u: set<TsNode>, lv: Levels, child: TsNode, base: nat, n: TsNode)
    requires Levelled(parent, u, lv) && child in u && n in u && n != child && parent[n] == null
    ensures ShiftedLevel(parent, lv, child, base, n) == 0
  {
    BelowParent(parent, n, child);
  }

  lemma MoveOutside(parent: Pointers, u: set<TsNode>, child: TsNode, p: TsNode?)
    requires Acyclic(parent, u) && child in u && (p != null ==> p in u && !IsBelow(parent, p, child))
    ensures Acyclic(parent[child := p], u)
  {
    var lv: Levels :| Levelled(parent, u, lv);
    var base := if p == null then 0 else lv[p] + 1;
    ShiftedEnds(parent, u, lv, child, base, p);
    var lv2 := map n | n in u :: ShiftedLevel(parent, lv, child, base, n);
    hide IsBelow, ShiftedLevel;
    forall n | n in u && n != child
      ensures OneBelow(parent, u, lv2, n)
    {
      if parent[n] == null {
        ShiftedRoot(parent, u, lv, child, base, n);
      } else {
        ShiftedStep(parent, u, lv, child, base, n);
      }
    }
    LevelledAfter(parent, u, lv2, child, p);
  }

  /** On the way up to `a` the pointer of `a` itself is not used. */
  lemma {:induction false} FirstPath(parent: Pointers, n: TsNode, a: TsNode, k: nat, v: TsNode?) returns (j: nat)
    requires StepsUp(parent, n, a, k)
    ensures StepsUp(parent[a := v], n, a, j)
    decreases k
  {
    if n == a {
      j := 0;
    } else {
      var i := FirstPath(parent, parent[n], a, k - 1, v);
      j := i + 1;
    }
  }

  lemma MoveBelow(parent: Pointers, u: set<TsNode>, child: TsNode, p: TsNode)
    requires parent.Keys == u && child in u && p in u && IsBelow(parent, p, child)
    ensures !Acyclic(parent[child := p], u)
  {
    var k: nat :| StepsUp(parent, p, child, k);
    var j := FirstPath(parent, p, child, k, p);
    var q := parent[child := p];
    forall lv: Levels ensures !Levelled(q, u, lv) {
      RoundTrip(q, u, lv, child, p, j);
    }
  }

  /** No levels suit a node that is below its own parent's child, itself. */
  lemma RoundTrip(parent: Pointers, u: set<TsNode>, lv: Levels, child: TsNode, p: TsNode, k: nat)
    requires child in parent && parent[child] == p && StepsUp(parent, p, child, k) && child in u && p in u
    ensures !Levelled(parent, u, lv)
  {
    if Levelled(parent, u, lv) {
      ParentAbove(parent, u, lv, child);
      BelowIsDeeper(parent, u, lv, p, child, k);
    }
  }

  lemma ParentAbove(parent: Pointers, u: set<TsNode>, lv: Levels, n: TsNode)
    requires Levelled(parent, u, lv) && n in u && parent[n] != null
    ensures parent[n] in u && lv[n] == lv[parent[n]] + 1
  {
    assert OneBelow(parent, u, lv, n);
  }

  /** Moving a node makes a cycle if and only if its new parent is the node itself or below it. */
  lemma MoveKeepsAcyclic(parent: Pointers, u: set<TsNode>, child: TsNode, p: TsNode?)
    requires Acyclic(parent, u) && child in u && (p != null ==> p in u)
    ensures Acyclic(parent[child := p], u) <==> p == null || !IsBelow(parent, p, child)
  {
    assert parent.Keys == u;
    if p != null && IsBelow(parent, p, child) {
      MoveBelow(parent, u, child, p);
    } else {
      MoveOutside(parent, u, child, p);
    }
  }

  lemma ShiftedEnds(parent: Pointers, u: set<TsNode>, lv: Levels, child: TsNode, base: nat, p: TsNode?)
    requires Levelled(parent, u, lv) && child in u && (p != null ==> p in u && !IsBelow(parent, p, child))
    ensures ShiftedLevel(parent, lv, child, base, child) == base
    ensures p != null ==> ShiftedLevel(parent, lv, child, base, p) == lv[p]
  {
    assert StepsUp(parent, child, child, 0);
  }

  lemma LevelledAfter(parent: Pointers, u: set<TsNode>, lv: Levels, child: TsNode, p: TsNode?)
    requires parent.Keys == lv.Keys == u && child in u && (p != null ==> p in u)
    requires forall n | n in u && n != child :: OneBelow(parent, u, lv, n)
    requires lv[child] == if p == null then 0 else lv[p] + 1
    ensures Acyclic(parent[child := p], u)
  {
    var q := parent[child := p];
    assert q.Keys == u;
    assert forall n | n in u && n != child :: q[n] == parent[n] && OneBelow(parent, u, lv, n);
    assert Levelled(q, u, lv);
  }

  // ---- runs ----

  /** Nothing is put under itself or a descendant. */
  ghost predicate Allowed(parent: Pointers, c: Change)
    requires c.node in parent && c.child in parent
  {
    c.Add? && parent[c.child] != c.node ==> !IsBelow(parent, c.node, c.child)
  }

  ghost predicate AllowedRun(parent: Pointers, changes: seq<Change>)
    decreases |changes|
  {
    changes == [] ||
    (changes[0].node in parent && changes[0].child in parent && Allowed(parent, changes[0])
     && AllowedRun(ParentsAfter(parent, changes[0]), changes[1..]))
  }

  /** There is no cycle after any of the changes. */
  ghost predicate AcyclicThroughout(parent: Pointers, u: set<TsNode>, changes: seq<Change>)
    requires parent.Keys == u && Among(changes, u)
    decreases |changes|
  {
    changes == [] ||
    (Acyclic(ParentsAfter(parent, changes[0]), u)
     && AcyclicThroughout(ParentsAfter(parent, changes[0]), u, changes[1..]))
  }

  ghost predicate Among(changes: seq<Change>, u: set<TsNode>) {
    forall i | 0 <= i < |changes| :: changes[i].node in u && changes[i].child in u
  }

  /** A change keeps the tree free of cycles if and only if it puts nothing under itself or a descendant. */
  lemma StepKeepsAcyclic(parent: Pointers, u: set<TsNode>, c: Change)
    requires Acyclic(parent, u) && c.node in u && c.child in u
    ensures parent.Keys == u
    ensures Acyclic(ParentsAfter(parent, c), u) <==> Allowed(parent, c)
  {
    if c.Add? && parent[c.child] != c.node {
      MoveKeepsAcyclic(parent, u, c.child, c.node);
    } else if c.Remove? && parent[c.child] == c.node {
      MoveKeepsAcyclic(parent, u, c.child, null);
    } else {
      assert ParentsAfter(parent, c) == parent;
    }
  }

  /** A run is free of cycles throughout if and only if it never puts a node under itself or a descendant. */
  lemma {:induction false} RunAcyclicExact(parent: Pointers, u: set<TsNode>, changes: seq<Change>)
    requires Acyclic(parent, u) && Among(changes, u)
    ensures parent.Keys == u
    ensures AcyclicThroughout(parent, u, changes) <==> AllowedRun(parent, changes)
    decreases |changes|
  {
    assert parent.Keys == u;
    if changes != [] {
      StepKeepsAcyclic(parent, u, changes[0]);
      if Allowed(parent, changes[0]) {
        RunAcyclicExact(ParentsAfter(parent, changes[0]), u, changes[1..]);
      }
    }
  }

  /** The parents after all changes. */
  ghost function ParentsAfterAll(parent: Pointers, changes: seq<Change>): (r: Pointers)
    requires Among(changes, parent.Keys)
    ensures r.Keys == parent.Keys
    decreases |changes|
  {
    if changes == [] then parent else ParentsAfterAll(ParentsAfter(parent, changes[0]), changes[1..])
  }

  lemma {:induction false} AcyclicAtEnd(parent: Pointers, u: set<TsNode>, changes: seq<Change>)
    requires parent.Keys == u && Among(changes, u) && Acyclic(parent, u)
    requires AcyclicThroughout(parent, u, changes)
    ensures Acyclic(ParentsAfterAll(parent, changes), u)
    decreases |changes|
  {
    if changes != [] {
      AcyclicAtEnd(ParentsAfter(parent, changes[0]), u, changes[1..]);
    }
  }

  /** Any run from a tree: the lists stay sound, and the tree is one throughout exactly if the run was allowed. */
  method RunTree(changes: seq<Change>, ghost u: set<TsNode>)
    requires WellLinked(u) && Acyclic(Parents(u), u) && Among(changes, u)
    modifies u
    ensures WellLinked(u) && forall n | n in u :: Placed(n, u)
    ensures Parents(u) == ParentsAfterAll(old(Parents(u)), changes)
    ensures AcyclicThroughout(old(Parents(u)), u, changes) <==> AllowedRun(old(Parents(u)), changes)
    ensures AllowedRun(old(Parents(u)), changes) ==> Acyclic(Parents(u), u)
  {
    ghost var start := Parents(u);
    RunAcyclicExact(start, u, changes);
    if AllowedRun(start, changes) {
      AcyclicAtEnd(start, u, changes);
    }
    hide WellLinked, Acyclic, AllowedRun, AcyclicThroughout, ParentsAfterAll, Parents, Placed;
    PerformAll(changes, u);
    ReadForest(u);
  }

  method PerformAll(changes: seq<Change>, ghost u: set<TsNode>)
    requires WellLinked(u) && Among(changes, u)
    modifies u
    ensures WellLinked(u) && Parents(u) == ParentsAfterAll(old(Parents(u)), changes)
  {
    ghost var start := Parents(u);
    for i := 0 to |changes|
      invariant WellLinked(u) && Among(changes[i..], u)
      invariant ParentsAfterAll(start, changes) == ParentsAfterAll(Parents(u), changes[i..])
    {
      hide WellLinked, ParentsAfter, ParentsAfterAll;
      AllStep(Parents(u), changes, i);
      Perform(changes[i], u);
    }
  }

  lemma AllStep(parent: Pointers, changes: seq<Change>, i: nat)
    requires Among(changes, parent.Keys) && i < |changes|
    ensures Among(changes[i..], parent.Keys) && Among(changes[i + 1..], parent.Keys)
    ensures ParentsAfter(parent, changes[i]).Keys == parent.Keys
    ensures ParentsAfterAll(parent, changes[i..]) == ParentsAfterAll(ParentsAfter(parent, changes[i]), changes[i + 1..])
  {
    assert changes[i..][1..] == changes[i + 1..];
  }

  /** Any run from newly allocated nodes. */
  method RunFromLoose(changes: seq<Change>, ghost u: set<TsNode>)
    requires forall n | n in u :: n.childList == null && n.parent == null && n.kids == []
    requires Among(changes, u)
    modifies u
    ensures WellLinked(u) && forall n | n in u :: Placed(n, u)
    ensures AllowedRun(NoParents(u), changes) ==> Acyclic(Parents(u), u)
    ensures AcyclicThroughout(NoParents(u), u, changes) <==> AllowedRun(NoParents(u), changes)
  {
    LooseNodes(u);
    LooseAcyclic(u);
    assert Parents(u) == NoParents(u);
    hide WellLinked, Acyclic, AllowedRun, AcyclicThroughout, Parents;
    RunTree(changes, u);
  }

  ghost function NoParents(u: set<TsNode>): (r: Pointers)
    ensures r.Keys == u
  {
    map n | n in u :: null
  }

  method Adopt(node: TsNode, child: TsNode, ghost u: set<TsNode>)
    requires WellLinked(u) && node in u && child in u && child.parent == null
    modifies u
    ensures WellLinked(u) && child.parent == node
    ensures forall n | n in u && n != child :: n.parent == old(n.parent)
  {
    hide WellLinked, Snapshot, RemovedFrom;
    AddChild(node, child, u);
  }

  /** Two nodes, each put under the other: the lists stay sound, and the parents go round. */
  method TwoNodeCycle() returns (a: TsNode, b: TsNode)
    ensures fresh(a) && fresh(b) && a.parent == b && b.parent == a
    ensures WellLinked({a, b}) && !Acyclic(Parents({a, b}), {a, b})
  {
    a := new TsNode();
    b := new TsNode();
    LooseNodes({a, b});
    hide WellLinked, Acyclic, Parents;
    CloseCycle(a, b, {a, b});
  }

  method CloseCycle(a: TsNode, b: TsNode, ghost u: set<TsNode>)
    requires u == {a, b} && a != b && a.parent == null && b.parent == null && WellLinked(u)
    modifies u
    ensures WellLinked(u) && a.parent == b && b.parent == a && !Acyclic(Parents(u), u)
  {
    hide WellLinked, Acyclic, Parents;
    Adopt(a, b, u);
    Adopt(b, a, u);
    NoLevels(a, b);
  }

  lemma NoLevels(a: TsNode, b: TsNode)
    requires a.parent == b && b.parent == a
    ensures !Acyclic(Parents({a, b}), {a, b})
  {
    var u := {a, b};
    var q := Parents(u);
    assert q[a] == b && q[b] == a;
    assert StepsUp(q, b, a, 1) by {
      assert StepsUp(q, a, a, 0);
    }
    forall lv: Levels ensures !Levelled(q, u, lv) {
      RoundTrip(q, u, lv, a, b, 1);
    }
  }

  /** Nodes as they are allocated are all on level zero. */
  lemma LooseAcyclic(u: set<TsNode>)
    requires forall n | n in u :: n.parent == null
    ensures Acyclic(Parents(u), u)
  {
    var lv: Levels := map n | n in u :: 0;
    assert forall n | n in u :: OneBelow(Parents(u), u, lv, n);
    assert Levelled(Parents(u), u, lv);
  }

  // ---- levels ----

  /** `tree_level`: the recursion ends because levels go down towards the root. */
  function TreeLevel(n: TsNode, ghost u: set<TsNode>, ghost lv: Levels): (r: nat)
    reads u
    requires n in u && Levelled(Parents(u), u, lv)
    ensures r == lv[n]
    decreases lv[n]
  {
    assert Parents(u)[n] == n.parent;
    if n.parent == null then 0 else TreeLevel(n.parent, u, lv) + 1
  }

  /** A listed child is one level below its node, which is how the printer counts. */
  lemma ChildOneDeeper(n: TsNode, k: TsNode, u: set<TsNode>, lv: Levels)
    requires WellLinked(u) && Levelled(Parents(u), u, lv) && n in u && k in n.kids
    ensures k in u && TreeLevel(k, u, lv) == TreeLevel(n, u, lv) + 1
  {
    NodeFacts(u, n);
    assert Parents(u)[k] == n;
  }
}
