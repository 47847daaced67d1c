/** Child lists of treestore nodes: the pointers of a set of nodes, and what linking and unlinking do to them. */
module TsForest {
  import opened Seqs

  /** `struct ts_node`, as far as the tree structure goes */
  class TsNode {
    var childList: TsNode?
    var childTail: TsNode?
    var parent: TsNode?
    var next: TsNode?
    /** The children that the pointers should spell out, first to last. */
    ghost var kids: seq<TsNode>

    /** `ts_alloc_node` */
    constructor ()
      ensures childList == null && parent == null && next == null && kids == []
    {
      childList, childTail, parent, next := null, null, null, null;
      kids := [];
    }
  }

  type Pointers = map<TsNode, TsNode?>

  type Children = map<TsNode, seq<TsNode>>

  /** All pointers of a set of nodes, and the children they should spell out. */
  datatype Links = Links(first: Pointers, last: Pointers, next: Pointers, parent: Pointers, kids: Children)

  ghost predicate Covers(l: Links, u: set<TsNode>) {
    l.first.Keys == u && l.last.Keys == u && l.next.Keys == u && l.parent.Keys == u && l.kids.Keys == u
  }

  ghost predicate Distinct(ns: seq<TsNode>) {
    forall i, j | 0 <= i < j < |ns| :: ns[i] != ns[j]
  }

  /** Following `next` from each of the nodes leads to the one behind it, and from the last one nowhere. */
  ghost predicate Chain(next: Pointers, ns: seq<TsNode>) {
    && (forall i | 0 <= i < |ns| :: ns[i] in next)
    && (forall i | 0 <= i < |ns| - 1 :: next[ns[i]] == ns[i + 1])
    && (ns != [] ==> next[ns[|ns| - 1]] == null)
  }

  /** Head, tail and siblings spell out the children; of an empty list only the head is known. */
  ghost predicate ListOk(l: Links, n: TsNode) {
    && n in l.kids && n in l.first && n in l.last
    && Distinct(l.kids[n]) && Chain(l.next, l.kids[n])
    && (if l.kids[n] == [] then l.first[n] == null
        else l.first[n] == l.kids[n][0] && l.last[n] == l.kids[n][|l.kids[n]| - 1])
  }

  /** Whoever is in a list has the list's owner as its parent. */
  ghost predicate Owned(kids: Children, parent: Pointers, u: set<TsNode>) {
    && kids.Keys == parent.Keys == u
    && forall n, k | n in u && k in kids[n] :: k in u && parent[k] == n
  }

  /** Whoever has a parent is in its list. */
  ghost predicate Listed(kids: Children, parent: Pointers, u: set<TsNode>) {
    && kids.Keys == parent.Keys == u
    && forall n | n in u && parent[n] != null :: parent[n] in u && n in kids[parent[n]]
  }

  ghost predicate Forest(l: Links, u: set<TsNode>) {
    Covers(l, u) && Owned(l.kids, l.parent, u) && Listed(l.kids, l.parent, u) && forall n | n in u :: ListOk(l, n)
  }

  /** In a forest a node with a parent is in that parent's list, once, and in no other. */
  lemma OnceInOneList(l: Links, u: set<TsNode>, n: TsNode)
    requires Forest(l, u) && n in u
    ensures forall p | p in u && n in l.kids[p] :: l.parent[n] == p
    ensures l.parent[n] != null ==> l.parent[n] in u && multiset(l.kids[l.parent[n]])[n] == 1
  {
    if l.parent[n] != null {
      assert ListOk(l, l.parent[n]);
      DistinctOnce(l.kids[l.parent[n]], n);
    }
  }

  lemma {:induction false} DistinctOnce(ns: seq<TsNode>, n: TsNode)
    requires Distinct(ns)
    ensures multiset(ns)[n] == if n in ns then 1 else 0
  {
    if ns != [] {
      DistinctOnce(ns[1..], n);
      assert ns == [ns[0]] + ns[1..];
    }
  }

  // ---- unlinking ----

  /** The list of `node` holds `child` at place `i`. */
  ghost predicate At(l: Links, u: set<TsNode>, node: TsNode, child: TsNode, i: nat) {
    && Covers(l, u) && node in u && child in u && i < |l.kids[node]| && l.kids[node][i] == child
    && (i > 0 ==> l.kids[node][i - 1] in u)
  }

  /** The pointers after the child at place `i` was unlinked; for the first child the predecessor is `scratch`. */
  ghost function Unlinked(l: Links, u: set<TsNode>, node: TsNode, child: TsNode, i: nat, scratch: TsNode): Links
    requires At(l, u, node, child, i)
  {
    var after := l.next[child];
    var ks := l.kids[node];
    Links(
      if i == 0 then l.first[node := after] else l.first,
      if after == null then l.last[node := if i == 0 then scratch else ks[i - 1]] else l.last,
      if i == 0 then l.next else l.next[ks[i - 1] := after],
      l.parent[child := null],
      l.kids[node := RemoveAt(ks, i)])
  }

  lemma ChainAround(next: Pointers, ks: seq<TsNode>, i: nat)
    requires Distinct(ks) && Chain(next, ks) && i < |ks|
    ensures var next2 := if i == 0 then next else next[ks[i - 1] := next[ks[i]]];
            Chain(next2, RemoveAt(ks, i)) && Distinct(RemoveAt(ks, i))
  {
    assert next[ks[i]] == if i + 1 < |ks| then ks[i + 1] else null;
  }

  lemma ChainElsewhere(next: Pointers, ks: seq<TsNode>, k: TsNode, v: TsNode?)
    requires Chain(next, ks) && k !in ks
    ensures Chain(next[k := v], ks)
  {
  }

  lemma UnlinkedList(l: Links, u: set<TsNode>, node: TsNode, child: TsNode, i: nat, scratch: TsNode)
    requires ListOk(l, node) && At(l, u, node, child, i)
    ensures ListOk(Unlinked(l, u, node, child, i, scratch), node)
  {
    hide Chain, Distinct;
    ChainAround(l.next, l.kids[node], i);
    ChainHead(l.next, l.kids[node], i);
  }

  lemma ChainHead(next: Pointers, ks: seq<TsNode>, i: nat)
    requires Chain(next, ks) && i < |ks|
    ensures ks[i] in next && next[ks[i]] == if i + 1 < |ks| then ks[i + 1] else null
  {
  }

  lemma UnlinkedOther(l: Links, u: set<TsNode>, node: TsNode, child: TsNode, i: nat, scratch: TsNode, n: TsNode)
    requires Forest(l, u) && At(l, u, node, child, i) && n in u && n != node
    ensures ListOk(Unlinked(l, u, node, child, i, scratch), n)
  {
    assert ListOk(l, n);
    var ks := l.kids[node];
    UnlinkedFields(l, u, node, child, i, scratch, n);
    hide Chain, Distinct, Owned, Listed, Unlinked, Forest;
    if i > 0 {
      PredElsewhere(l.kids, l.parent, u, node, i, n);
      ChainElsewhere(l.next, l.kids[n], ks[i - 1], l.next[child]);
    }
  }

  lemma UnlinkedFields(l: Links, u: set<TsNode>, node: TsNode, child: TsNode, i: nat, scratch: TsNode, n: TsNode)
    requires At(l, u, node, child, i) && n in u && n != node
    ensures var r := Unlinked(l, u, node, child, i, scratch);
            && n in r.kids && n in r.first && n in r.last
            && r.kids[n] == l.kids[n] && r.first[n] == l.first[n] && r.last[n] == l.last[n]
            && r.next == if i == 0 then l.next else l.next[l.kids[node][i - 1] := l.next[child]]
  {
  }

  lemma PredElsewhere(kids: Children, parent: Pointers, u: set<TsNode>, node: TsNode, i: nat, n: TsNode)
    requires Owned(kids, parent, u) && node in u && n in u && n != node && 0 < i < |kids[node]|
    ensures kids[node][i - 1] !in kids[n]
  {
    assert kids[node][i - 1] in kids[node] && parent[kids[node][i - 1]] == node;
  }

  lemma UnlinkedOwned(kids: Children, parent: Pointers, u: set<TsNode>, node: TsNode, i: nat)
    requires Owned(kids, parent, u) && node in u && i < |kids[node]| && Distinct(kids[node])
    ensures Owned(kids[node := RemoveAt(kids[node], i)], parent[kids[node][i] := null], u)
  {
    var ks := kids[node];
    var child := ks[i];
    var kids2, parent2 := kids[node := RemoveAt(ks, i)], parent[child := null];
    assert child in ks && child !in kids2[node];
    forall n, k | n in u && k in kids2[n]
      ensures k in u && parent2[k] == n
    {
      assert k in kids[n];
    }
  }

  lemma UnlinkedListed(kids: Children, parent: Pointers, u: set<TsNode>, node: TsNode, i: nat)
    requires Listed(kids, parent, u) && node in u && i < |kids[node]| && kids[node][i] in u
    ensures Listed(kids[node := RemoveAt(kids[node], i)], parent[kids[node][i] := null], u)
  {
    var ks := kids[node];
    var kids2, parent2 := kids[node := RemoveAt(ks, i)], parent[ks[i] := null];
    forall n | n in u && parent2[n] != null
      ensures parent2[n] in u && n in kids2[parent2[n]]
    {
      if parent2[n] == node {
        var j :| 0 <= j < |ks| && ks[j] == n;
        assert kids2[node][if j < i then j else j - 1] == n;
      }
    }
  }

  lemma UnlinkedOwners(l: Links, u: set<TsNode>, node: TsNode, child: TsNode, i: nat, scratch: TsNode)
    requires Forest(l, u) && At(l, u, node, child, i)
    ensures var r := Unlinked(l, u, node, child, i, scratch);
            Owned(r.kids, r.parent, u) && Listed(r.kids, r.parent, u)
  {
    assert ListOk(l, node);
    hide Owned, Listed, ListOk, Chain;
    UnlinkedOwned(l.kids, l.parent, u, node, i);
    UnlinkedListed(l.kids, l.parent, u, node, i);
  }

  lemma UnlinkedCovers(l: Links, u: set<TsNode>, node: TsNode, child: TsNode, i: nat, scratch: TsNode)
    requires At(l, u, node, child, i)
    ensures Covers(Unlinked(l, u, node, child, i, scratch), u)
  {
  }

  /** Unlinking a child keeps the forest. */
  lemma UnlinkKeepsForest(l: Links, u: set<TsNode>, node: TsNode, child: TsNode, i: nat, scratch: TsNode)
    requires Forest(l, u) && At(l, u, node, child, i)
    ensures Forest(Unlinked(l, u, node, child, i, scratch), u)
  {
    hide ListOk, Owned, Listed, Unlinked, Covers;
    UnlinkedCovers(l, u, node, child, i, scratch);
    UnlinkedOwners(l, u, node, child, i, scratch);
    UnlinkedList(l, u, node, child, i, scratch);
    forall n | n in u && n != node
      ensures ListOk(Unlinked(l, u, node, child, i, scratch), n)
    {
      UnlinkedOther(l, u, node, child, i, scratch, n);
    }
  }

  // ---- linking ----

  /** The pointers after a node without a parent was linked in as the last child. */
  ghost function Linked(l: Links, u: set<TsNode>, node: TsNode, child: TsNode): Links
    requires Covers(l, u) && node in u && child in u
  {
    var ks := l.kids[node];
    var next := l.next[child := null];
    Links(
      if ks == [] then l.first[node := child] else l.first,
      l.last[node := child],
      if ks == [] then next else next[ks[|ks| - 1] := child],
      l.parent[child := node],
      l.kids[node := ks + [child]])
  }

  lemma ChainLonger(next: Pointers, ks: seq<TsNode>, k: TsNode)
    requires Distinct(ks) && Chain(next, ks) && k !in ks
    ensures var next2 := next[k := null];
            var next3 := if ks == [] then next2 else next2[ks[|ks| - 1] := k];
            Chain(next3, ks + [k]) && Distinct(ks + [k])
  {
  }

  lemma FreeNode(l: Links, u: set<TsNode>, child: TsNode, n: TsNode)
    requires Forest(l, u) && child in u && l.parent[child] == null && n in u
    ensures child !in l.kids[n]
  {
  }

  lemma LinkedList(l: Links, u: set<TsNode>, node: TsNode, child: TsNode)
    requires Forest(l, u) && node in u && child in u && l.parent[child] == null
    ensures ListOk(Linked(l, u, node, child), node)
  {
    hide Chain, Distinct, Listed;
    assert ListOk(l, node);
    FreeNode(l, u, child, node);
    ChainLonger(l.next, l.kids[node], child);
  }

  lemma LinkedFields(l: Links, u: set<TsNode>, node: TsNode, child: TsNode, n: TsNode)
    requires Covers(l, u) && node in u && child in u && n in u && n != node
    ensures var r := Linked(l, u, node, child);
            && n in r.kids && n in r.first && n in r.last
            && r.kids[n] == l.kids[n] && r.first[n] == l.first[n] && r.last[n] == l.last[n]
            && r.next == var ks, next := l.kids[node], l.next[child := null];
                         if ks == [] then next else next[ks[|ks| - 1] := child]
  {
  }

  lemma LinkedOther(l: Links, u: set<TsNode>, node: TsNode, child: TsNode, n: TsNode)
    requires Covers(l, u) && Owned(l.kids, l.parent, u) && node in u && child in u && l.parent[child] == null
    requires n in u && n != node && ListOk(l, n)
    ensures ListOk(Linked(l, u, node, child), n)
  {
    NotAmong(l.kids, l.parent, u, node, child, n);
    LinkedFields(l, u, node, child, n);
    LinkedChain(l.next, l.kids[n], child, l.kids[node]);
    var r := Linked(l, u, node, child);
    hide Chain, Distinct, Owned, Linked, Covers;
    SameList(l, r, n);
  }

  /** A list is sound if its fields are those of a sound one and its nodes are still chained. */
  lemma SameList(l: Links, r: Links, n: TsNode)
    requires ListOk(l, n) && n in r.kids && n in r.first && n in r.last
    requires r.kids[n] == l.kids[n] && r.first[n] == l.first[n] && r.last[n] == l.last[n] && Chain(r.next, l.kids[n])
    ensures ListOk(r, n)
  {
    hide Chain, Distinct;
  }

  lemma LinkedChain(next: Pointers, ns: seq<TsNode>, child: TsNode, ks: seq<TsNode>)
    requires Chain(next, ns) && child !in ns && (ks != [] ==> ks[|ks| - 1] !in ns)
    ensures Chain(if ks == [] then next[child := null] else next[child := null][ks[|ks| - 1] := child], ns)
  {
    hide Chain;
    ChainElsewhere(next, ns, child, null);
    if ks != [] {
      ChainElsewhere(next[child := null], ns, ks[|ks| - 1], child);
    }
  }

  /** Neither a free node nor the last child of another is in the list of `n`. */
  lemma NotAmong(kids: Children, parent: Pointers, u: set<TsNode>, node: TsNode, child: TsNode, n: TsNode)
    requires Owned(kids, parent, u) && node in u && child in u && parent[child] == null && n in u && n != node
    ensures child !in kids[n]
    ensures var ks := kids[node]; ks != [] ==> ks[|ks| - 1] in u && ks[|ks| - 1] !in kids[n]
  {
    var ks := kids[node];
    assert ks != [] ==> ks[|ks| - 1] in ks;
  }

  lemma LinkedOwned(kids: Children, parent: Pointers, u: set<TsNode>, node: TsNode, child: TsNode)
    requires Owned(kids, parent, u) && node in u && child in u && parent[child] == null
    ensures Owned(kids[node := kids[node] + [child]], parent[child := node], u)
  {
    var kids2, parent2 := kids[node := kids[node] + [child]], parent[child := node];
    forall n, k | n in u && k in kids2[n]
      ensures k in u && parent2[k] == n
    {
      assert (n == node && k == child) || k in kids[n];
    }
  }

  lemma LinkedListed(kids: Children, parent: Pointers, u: set<TsNode>, node: TsNode, child: TsNode)
    requires Listed(kids, parent, u) && node in u && child in u && parent[child] == null
    ensures Listed(kids[node := kids[node] + [child]], parent[child := node], u)
  {
    var kids2, parent2 := kids[node := kids[node] + [child]], parent[child := node];
    assert kids2[node][|kids[node]|] == child;
  }

  lemma LinkedOwners(l: Links, u: set<TsNode>, node: TsNode, child: TsNode)
    requires Forest(l, u) && node in u && child in u && l.parent[child] == null
    ensures var r := Linked(l, u, node, child);
            Owned(r.kids, r.parent, u) && Listed(r.kids, r.parent, u)
  {
    hide Owned, Listed, ListOk;
    LinkedOwned(l.kids, l.parent, u, node, child);
    LinkedListed(l.kids, l.parent, u, node, child);
  }

  lemma LinkedCovers(l: Links, u: set<TsNode>, node: TsNode, child: TsNode)
    requires Covers(l, u) && node in u && child in u
    requires var ks := l.kids[node]; ks != [] ==> ks[|ks| - 1] in u
    ensures Covers(Linked(l, u, node, child), u)
  {
    var ks, next := l.kids[node], l.next[child := null];
    KeysKept(l.next, child, null);
    if ks != [] {
      KeysKept(l.first, node, child);
      KeysKept(next, ks[|ks| - 1], child);
    }
    KeysKept(l.last, node, child);
    KeysKept(l.parent, child, node);
    KeysKept(l.kids, node, ks + [child]);
  }

  lemma KeysKept<V>(m: map<TsNode, V>, k: TsNode, v: V)
    requires k in m
    ensures m[k := v].Keys == m.Keys
  {
  }

  /** The last child, if there is one, is in the set. */
  lemma TailInside(kids: Children, parent: Pointers, u: set<TsNode>, node: TsNode)
    requires Owned(kids, parent, u) && node in u
    ensures var ks := kids[node]; ks != [] ==> ks[|ks| - 1] in u
  {
    var ks := kids[node];
    assert ks != [] ==> ks[|ks| - 1] in ks;
  }

  /** Linking a free node in keeps the forest. */
  lemma LinkKeepsForest(l: Links, u: set<TsNode>, node: TsNode, child: TsNode)
    requires Forest(l, u) && node in u && child in u && l.parent[child] == null
    ensures Forest(Linked(l, u, node, child), u)
  {
    hide ListOk, Owned, Listed, Linked;
    TailInside(l.kids, l.parent, u, node);
    LinkedCovers(l, u, node, child);
    LinkedOwners(l, u, node, child);
    LinkedList(l, u, node, child);
    forall n | n in u && n != node
      ensures ListOk(Linked(l, u, node, child), n)
    {
      LinkedOther(l, u, node, child, n);
    }
  }
}
