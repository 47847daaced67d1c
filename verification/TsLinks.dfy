/** Adding and removing children of treestore nodes in place. */
module TsLinks {
  import opened Seqs
  import opened TsForest

  ghost function Firsts(u: set<TsNode>): Pointers
    reads u`childList
  {
    map n | n in u :: n.childList
  }

  ghost function Lasts(u: set<TsNode>): Pointers
    reads u`childTail
  {
    map n | n in u :: n.childTail
  }

  ghost function Nexts(u: set<TsNode>): Pointers
    reads u`next
  {
    map n | n in u :: n.next
  }

  ghost function Parents(u: set<TsNode>): Pointers
    reads u`parent
  {
    map n | n in u :: n.parent
  }

  ghost function Kids(u: set<TsNode>): Children
    reads u`kids
  {
    map n | n in u :: n.kids
  }

  /** The pointers of a set of nodes as a value. */
  ghost function Snapshot(u: set<TsNode>): (l: Links)
    reads u
    ensures Covers(l, u)
  {
    Links(Firsts(u), Lasts(u), Nexts(u), Parents(u), Kids(u))
  }

  ghost predicate WellLinked(u: set<TsNode>)
    reads u
  {
    Forest(Snapshot(u), u)
  }

  /** The maps hold the fields. */
  lemma ReadFields(u: set<TsNode>)
    ensures var l := Snapshot(u);
            forall n | n in u :: n.childList == l.first[n] && n.childTail == l.last[n] && n.next == l.next[n]
                                 && n.parent == l.parent[n] && n.kids == l.kids[n]
  {
  }

  /** What the structure guarantees to readers of the fields. */
  lemma NodeFacts(u: set<TsNode>, n: TsNode)
    requires WellLinked(u) && n in u
    ensures forall k | k in n.kids :: k in u && k.parent == n
    ensures n.parent != null ==> n.parent in u && n in n.parent.kids
    ensures Distinct(n.kids)
    ensures forall i | 0 <= i < |n.kids| - 1 :: n.kids[i].next == n.kids[i + 1]
    ensures if n.kids == [] then n.childList == null
            else n.childList == n.kids[0] && n.childTail == n.kids[|n.kids| - 1] && n.childTail.next == null
  {
    var l := Snapshot(u);
    assert ListOk(l, n);
    ReadFields(u);
    hide Snapshot, Firsts, Lasts, Nexts, Parents, Kids, Covers;
    assert forall i | 0 <= i < |n.kids| :: n.kids[i] in l.next && l.next[n.kids[i]] == n.kids[i].next;
  }

  /** Nodes as they are allocated, without any links, are well linked. */
  lemma LooseNodes(u: set<TsNode>)
    requires forall n | n in u :: n.childList == null && n.parent == null && n.kids == []
    ensures WellLinked(u)
  {
  }

  // ---- single assignments, and the pointer map they change ----

  method SetFirst(n: TsNode, v: TsNode?, ghost u: set<TsNode>)
    modifies n`childList
    ensures n.childList == v && Firsts(u) == if n in u then old(Firsts(u))[n := v] else old(Firsts(u))
  {
    n.childList := v;
  }

  method SetLast(n: TsNode, v: TsNode?, ghost u: set<TsNode>)
    modifies n`childTail
    ensures n.childTail == v && Lasts(u) == if n in u then old(Lasts(u))[n := v] else old(Lasts(u))
  {
    n.childTail := v;
  }

  method SetNext(n: TsNode, v: TsNode?, ghost u: set<TsNode>)
    modifies n`next
    ensures n.next == v && Nexts(u) == if n in u then old(Nexts(u))[n := v] else old(Nexts(u))
  {
    n.next := v;
  }

  method SetParent(n: TsNode, v: TsNode?, ghost u: set<TsNode>)
    modifies n`parent
    ensures n.parent == v && Parents(u) == if n in u then old(Parents(u))[n := v] else old(Parents(u))
  {
    n.parent := v;
  }

  ghost method SetKids(n: TsNode, v: seq<TsNode>, u: set<TsNode>)
    modifies n`kids
    ensures n.kids == v && Kids(u) == if n in u then old(Kids(u))[n := v] else old(Kids(u))
  {
    n.kids := v;
  }

  // ---- removal and addition ----

  /** The pointer surgery of `ts_remove_child` once the predecessor of the child is found. */
  method Splice(node: TsNode, child: TsNode, pred: TsNode, dummy: TsNode, ghost i: nat, ghost u: set<TsNode>)
    requires node in u && child in u && i < |node.kids| && node.kids[i] == child && dummy !in u
    requires i > 0 ==> node.kids[i - 1] in u
    requires dummy.next == node.childList && pred == if i == 0 then dummy else node.kids[i - 1]
    modifies u, dummy
    ensures Parents(u) == old(Parents(u))[child := null]
    ensures Nexts(u) == if i == 0 then old(Nexts(u)) else old(Nexts(u))[pred := old(child.next)]
    ensures Lasts(u) == if old(child.next) == null then old(Lasts(u))[node := pred] else old(Lasts(u))
    ensures Firsts(u) == old(Firsts(u))[node := if i == 0 then old(child.next) else old(node.childList)]
    ensures Kids(u) == old(Kids(u))[node := RemoveAt(old(node.kids), i)]
  {
    hide Firsts, Lasts, Nexts, Parents, Kids;
    SetParent(child, null, u);
    SetNext(pred, child.next, u);
    if pred.next == null {
      SetLast(node, pred, u);
    }
    SetFirst(node, dummy.next, u);
    SetKids(node, RemoveAt(node.kids, i), u);
  }

  lemma AsUnlinked(l: Links, u: set<TsNode>, node: TsNode, child: TsNode, i: nat, pred: TsNode, r: Links)
    requires At(l, u, node, child, i) && (i > 0 ==> pred == l.kids[node][i - 1])
    requires r.first == l.first[node := if i == 0 then l.next[child] else l.first[node]]
    requires r.last == if l.next[child] == null then l.last[node := pred] else l.last
    requires r.next == if i == 0 then l.next else l.next[pred := l.next[child]]
    requires r.parent == l.parent[child := null]
    requires r.kids == l.kids[node := RemoveAt(l.kids[node], i)]
    ensures r == Unlinked(l, u, node, child, i, pred)
  {
    SameUpdate(l.first, node);
  }

  lemma SameUpdate(m: Pointers, n: TsNode)
    requires n in m
    ensures m[n := m[n]] == m
  {
  }

  /** The search of `ts_remove_child`: from a scratch node on, up to the child or the end of the list. */
  method FindBefore(node: TsNode, child: TsNode, ghost u: set<TsNode>)
      returns (iter: TsNode, dummy: TsNode, ghost i: nat)
    requires WellLinked(u) && node in u
    ensures fresh(dummy) && dummy.next == node.childList
    ensures i <= |node.kids| && iter == if i == 0 then dummy else node.kids[i - 1]
    ensures if i < |node.kids| then iter.next == child == node.kids[i] else iter.next == null && child !in node.kids
  {
    hide *;
    dummy := new TsNode();
    dummy.next := node.childList;
    NodeFacts(u, node);
    iter := dummy;
    i := 0;
    while iter.next != null && iter.next != child
      invariant 0 <= i <= |node.kids|
      invariant iter == if i == 0 then dummy else node.kids[i - 1]
      invariant iter.next == if i < |node.kids| then node.kids[i] else null
      invariant forall j | 0 <= j < i :: node.kids[j] != child
      decreases |node.kids| - i
      modifies {}
    {
      iter := iter.next;
      i := i + 1;
    }
  }

  /** `ts_remove_child` */
  method RemoveChild(node: TsNode, child: TsNode, ghost u: set<TsNode>) returns (res: int)
    requires WellLinked(u) && node in u && child in u
    modifies u
    ensures WellLinked(u)
    ensures res == if old(child.parent) == node then 0 else -1
    ensures res == -1 ==> Snapshot(u) == old(Snapshot(u))
    ensures res == 0 ==> child.parent == null && RemovedFrom(old(node.kids), child, node.kids)
    ensures forall n | n in u && n != child :: n.parent == old(n.parent)
    ensures forall n | n in u && n != node :: n.kids == old(n.kids)
  {
    NodeFacts(u, node);
    NodeFacts(u, child);
    var iter, dummy, i := FindBefore(node, child, u);
    if iter.next == null {
      return -1;
    }
    assert i > 0 ==> node.kids[i - 1] in node.kids;
    assert child in node.kids;
    hide Forest, ListOk, Owned, Listed;
    UnlinkAt(node, child, iter, dummy, i, u);
    res := 0;
  }

  /** The part of `ts_remove_child` after the search. */
  method UnlinkAt(node: TsNode, child: TsNode, pred: TsNode, dummy: TsNode, ghost i: nat, ghost u: set<TsNode>)
    requires WellLinked(u) && node in u && child in u && i < |node.kids| && node.kids[i] == child && dummy !in u
    requires i > 0 ==> node.kids[i - 1] in u
    requires dummy.next == node.childList && pred == if i == 0 then dummy else node.kids[i - 1]
    modifies u, dummy
    ensures WellLinked(u)
    ensures child.parent == null && RemovedFrom(old(node.kids), child, node.kids)
    ensures forall n | n in u && n != child :: n.parent == old(n.parent)
    ensures forall n | n in u && n != node :: n.kids == old(n.kids)
  {
    ghost var l := Snapshot(u);
    assert At(l, u, node, child, i);
    UnlinkKeepsForest(l, u, node, child, i, pred);
    hide Forest, Unlinked;
    Splice(node, child, pred, dummy, i, u);
    AsUnlinked(l, u, node, child, i, pred, Snapshot(u));
    ReadUnlinked(l, u, node, child, i, pred);
  }

  /** The first occurrence of `child` is gone and the others keep their order. */
  ghost predicate RemovedFrom(before: seq<TsNode>, child: TsNode, after: seq<TsNode>) {
    exists i | 0 <= i < |before| :: before[i] == child && after == RemoveAt(before, i)
  }

  /** What unlinking means for the fields callers look at. */
  lemma ReadUnlinked(l: Links, u: set<TsNode>, node: TsNode, child: TsNode, i: nat, pred: TsNode)
    requires At(l, u, node, child, i) && Snapshot(u) == Unlinked(l, u, node, child, i, pred)
    ensures child.parent == null && RemovedFrom(l.kids[node], child, node.kids)
    ensures forall n | n in u && n != child :: n.parent == l.parent[n]
    ensures forall n | n in u && n != node :: n.kids == l.kids[n]
  {
    var s := Snapshot(u);
    assert forall n | n in u :: n.parent == s.parent[n] && n.kids == s.kids[n];
  }

  /** The pointer surgery of `ts_add_child` on a node without a parent. */
  method Attach(node: TsNode, child: TsNode, ghost u: set<TsNode>)
    requires node in u && child in u
    requires if node.kids == [] then node.childList == null
             else node.childList != null && node.childTail == node.kids[|node.kids| - 1] && node.childTail in u
    modifies u
    ensures Parents(u) == old(Parents(u))[child := node]
    ensures Firsts(u) == if old(node.kids) == [] then old(Firsts(u))[node := child] else old(Firsts(u))
    ensures Lasts(u) == old(Lasts(u))[node := child]
    ensures Nexts(u) == var next := old(Nexts(u))[child := null];
                        if old(node.kids) == [] then next else next[old(node.childTail) := child]
    ensures Kids(u) == old(Kids(u))[node := old(node.kids) + [child]]
  {
    hide Firsts, Lasts, Nexts, Parents, Kids;
    SetParent(child, node, u);
    SetNext(child, null, u);
    if node.childList != null {
      SetNext(node.childTail, child, u);
      SetLast(node, child, u);
    } else {
      SetFirst(node, child, u);
      SetLast(node, child, u);
    }
    SetKids(node, node.kids + [child], u);
  }

  lemma AsLinked(l: Links, u: set<TsNode>, node: TsNode, child: TsNode, r: Links)
    requires Covers(l, u) && node in u && child in u
    requires r.first == if l.kids[node] == [] then l.first[node := child] else l.first
    requires r.last == l.last[node := child]
    requires r.next == var ks, next := l.kids[node], l.next[child := null];
                       if ks == [] then next else next[ks[|ks| - 1] := child]
    requires r.parent == l.parent[child := node]
    requires r.kids == l.kids[node := l.kids[node] + [child]]
    ensures r == Linked(l, u, node, child)
  {
  }

  /** The part of `ts_add_child` that links a node without a parent. */
  method LinkLast(node: TsNode, child: TsNode, ghost u: set<TsNode>)
    requires WellLinked(u) && node in u && child in u && child.parent == null
    modifies u
    ensures WellLinked(u)
    ensures child.parent == node && node.kids == old(node.kids) + [child]
    ensures forall n | n in u && n != child :: n.parent == old(n.parent)
    ensures forall n | n in u && n != node :: n.kids == old(n.kids)
  {
    ghost var l := Snapshot(u);
    NodeFacts(u, node);
    assert node.kids != [] ==> node.kids[|node.kids| - 1] in node.kids;
    LinkKeepsForest(l, u, node, child);
    hide Forest, Linked, ListOk, Owned, Listed;
    Attach(node, child, u);
    AsLinked(l, u, node, child, Snapshot(u));
    ReadLinked(l, u, node, child);
  }

  /** What linking means for the fields callers look at. */
  lemma ReadLinked(l: Links, u: set<TsNode>, node: TsNode, child: TsNode)
    requires Covers(l, u) && node in u && child in u && Snapshot(u) == Linked(l, u, node, child)
    ensures child.parent == node && node.kids == l.kids[node] + [child]
    ensures forall n | n in u && n != child :: n.parent == l.parent[n]
    ensures forall n | n in u && n != node :: n.kids == l.kids[n]
  {
    var s := Snapshot(u);
    assert forall n | n in u :: n.parent == s.parent[n] && n.kids == s.kids[n];
  }

  /** `ts_add_child`: under a new parent the node becomes the last child, under its own nothing moves. */
  method AddChild(node: TsNode, child: TsNode, ghost u: set<TsNode>)
    requires WellLinked(u) && node in u && child in u
    modifies u
    ensures WellLinked(u) && child.parent == node
    ensures old(child.parent) == node ==> Snapshot(u) == old(Snapshot(u))
    ensures old(child.parent) != node ==> node.kids == old(node.kids) + [child]
    ensures old(child.parent) != null && old(child.parent) != node ==>
              old(child.parent) in u && RemovedFrom(old(child.parent.kids), child, old(child.parent).kids)
    ensures forall n | n in u && n != child :: n.parent == old(n.parent)
    ensures forall n | n in u && n != node && n != old(child.parent) :: n.kids == old(n.kids)
  {
    NodeFacts(u, child);
    hide Forest, Snapshot;
    if child.parent != null {
      if child.parent == node {
        return;
      }
      var res := RemoveChild(child.parent, child, u);
    }
    LinkLast(node, child, u);
  }

  // ---- runs ----

  datatype Change = Add(node: TsNode, child: TsNode) | Remove(node: TsNode, child: TsNode)

  /** A node with a parent is once in that parent's list, and the tail of a non-empty list is its last child. */
  ghost predicate Placed(n: TsNode, u: set<TsNode>)
    reads u, n
  {
    && (n.parent != null ==> n.parent in u && multiset(n.parent.kids)[n] == 1)
    && (n.kids != [] ==> n.childTail == n.kids[|n.kids| - 1] && n.childTail in u && n.childTail.next == null)
  }

  /** Any run of additions and removals among the nodes of a set, in any order, keeps all their lists. */
  method Run(changes: seq<Change>, ghost u: set<TsNode>)
    requires WellLinked(u) && forall i | 0 <= i < |changes| :: changes[i].node in u && changes[i].child in u
    modifies u
    ensures WellLinked(u)
    ensures forall n | n in u :: Placed(n, u)
  {
    for i := 0 to |changes|
      invariant WellLinked(u)
    {
      hide WellLinked;
      Perform(changes[i], u);
    }
    ReadForest(u);
  }

  /** The parents after a change. */
  ghost function ParentsAfter(parent: Pointers, c: Change): Pointers
    requires c.node in parent && c.child in parent
  {
    match c
    case Add(node, child) => parent[child := node]
    case Remove(node, child) => if parent[child] == node then parent[child := null] else parent
  }

  method Perform(change: Change, ghost u: set<TsNode>)
    requires WellLinked(u) && change.node in u && change.child in u
    modifies u
    ensures WellLinked(u) && Parents(u) == ParentsAfter(old(Parents(u)), change)
  {
    hide WellLinked;
    match change {
      case Add(node, child) =>
        AddChild(node, child, u);
      case Remove(node, child) =>
        var res := RemoveChild(node, child, u);
    }
  }

  lemma ReadForest(u: set<TsNode>)
    requires WellLinked(u)
    ensures forall n | n in u :: Placed(n, u)
  {
    forall n | n in u
      ensures Placed(n, u)
    {
      hide *;
      ReadNode(n, u);
    }
  }

  lemma ReadNode(n: TsNode, u: set<TsNode>)
    requires WellLinked(u) && n in u
    ensures Placed(n, u)
  {
    NodeFacts(u, n);
    OnceInOneList(Snapshot(u), u, n);
    hide Forest;
  }
}
