/** Dotted-path lookup: the pointer-walking procedures and what they find. */
module TsLookup {
  import opened Options
  import opened Seqs
  import opened TsTree
  import opened TsView
  import opened TsParser
  import opened TsPrinter
  import opened TsRoundTrip
  import opened TsExact

  // ---- paths ----

  /** Number of characters before the first dot. */
  function DotSpan(path: string): (n: nat)
    ensures n <= |path| && '.' !in path[..n]
    ensures n < |path| ==> path[n] == '.'
  {
    if path == "" || path[0] == '.' then 0
    else
      var m := DotSpan(path[1..]);
      assert path[..m + 1] == [path[0]] + path[1..][..m];
      m + 1
  }

  /** The components of a dotted path; a path without a dot has one. */
  function Split(path: string): (parts: seq<string>)
    ensures parts != [] && forall i | 0 <= i < |parts| :: '.' !in parts[i]
    decreases |path|
  {
    var n := DotSpan(path);
    if n == |path| then
      assert path[..n] == path;
      [path]
    else [path[..n]] + Split(path[n + 1..])
  }

  function Join(parts: seq<string>): string
    requires parts != []
  {
    if |parts| == 1 then parts[0] else parts[0] + "." + Join(parts[1..])
  }

  lemma {:induction false} JoinOfSplit(path: string)
    ensures Join(Split(path)) == path
    decreases |path|
  {
    var n := DotSpan(path);
    SplitOnce(path);
    hide Split, DotSpan, Join;
    if n < |path| {
      JoinOfSplit(path[n + 1..]);
      JoinMore(path[..n], Split(path[n + 1..]));
      CutAtDot(path, n);
    } else {
      JoinOne(path);
    }
  }

  lemma SplitOnce(path: string)
    ensures var n := DotSpan(path);
            Split(path) == if n < |path| then [path[..n]] + Split(path[n + 1..]) else [path]
  {
    hide DotSpan;
  }

  lemma JoinMore(part: string, parts: seq<string>)
    requires parts != []
    ensures Join([part] + parts) == part + "." + Join(parts)
  {
    DropFirst([part], parts);
    NilAppend(parts);
  }

  lemma JoinOne(part: string)
    ensures Join([part]) == part
  {
  }

  lemma CutAtDot(path: string, n: nat)
    requires n < |path| && path[n] == '.'
    ensures path[..n] + "." + path[n + 1..] == path
  {
  }

  // ---- what a lookup finds ----

  function FirstChild(ts: seq<Node>, name: string): (r: Option<Node>)
    ensures r == None ==> forall i | 0 <= i < |ts| :: ts[i].name != name
    ensures r.Some? ==> r.value in ts && r.value.name == name
  {
    if ts == [] then None
    else if ts[0].name == name then Some(ts[0])
    else FirstChild(ts[1..], name)
  }

  function FirstAttr(attrs: seq<Attr>, name: string): (r: Option<Attr>)
    ensures r == None ==> forall i | 0 <= i < |attrs| :: attrs[i].name != name
    ensures r.Some? ==> r.value in attrs && r.value.name == name
  {
    if attrs == [] then None
    else if attrs[0].name == name then Some(attrs[0])
    else FirstAttr(attrs[1..], name)
  }

  /** Follows first-named children by all components but the last, which names an attribute. */
  function Descend(t: Node, parts: seq<string>): Option<Attr>
    requires parts != []
    decreases |parts|
  {
    if |parts| == 1 then FirstAttr(t.attrs, parts[0])
    else match FirstChild(t.children, parts[0])
      case None => None
      case Some(c) => Descend(c, parts[1..])
  }

  function Lookup(t: Node, path: string): Option<Attr> {
    var parts := Split(path);
    if |parts| == 1 || parts[0] != t.name then None else Descend(t, parts[1..])
  }

  // ---- what a path leads to, step by step ----

  predicate FirstChildAt(ts: seq<Node>, i: nat, name: string) {
    i < |ts| && ts[i].name == name && forall j | 0 <= j < i :: ts[j].name != name
  }

  predicate FirstAttrAt(attrs: seq<Attr>, i: nat, name: string) {
    i < |attrs| && attrs[i].name == name && forall j | 0 <= j < i :: attrs[j].name != name
  }

  /** `c` is the first child of `t` with this name. */
  predicate ChildStep(t: Node, c: Node, name: string) {
    exists i | 0 <= i < |t.children| :: FirstChildAt(t.children, i, name) && t.children[i] == c
  }

  /** `a` is the first attribute of `t` with this name. */
  predicate AttrStep(t: Node, a: Attr, name: string) {
    exists i | 0 <= i < |t.attrs| :: FirstAttrAt(t.attrs, i, name) && t.attrs[i] == a
  }

  /** The nodes lead from `t` down, each the first child of its name under the one before. */
  predicate Chain(t: Node, nodes: seq<Node>, names: seq<string>) {
    && |nodes| == |names| + 1 && nodes[0] == t
    && forall i | 0 <= i < |names| :: ChildStep(nodes[i], nodes[i + 1], names[i])
  }

  /** The path names the root, leads along such nodes, and ends in the attribute. */
  predicate LeadsTo(t: Node, parts: seq<string>, nodes: seq<Node>, a: Attr) {
    && |parts| >= 2 && parts[0] == t.name
    && Chain(t, nodes, parts[1..|parts| - 1])
    && AttrStep(nodes[|nodes| - 1], a, parts[|parts| - 1])
  }

  ghost predicate Leads(t: Node, parts: seq<string>, a: Attr) {
    exists nodes :: LeadsTo(t, parts, nodes, a)
  }

  lemma {:induction false} FirstChildIs(ts: seq<Node>, i: nat, name: string)
    requires FirstChildAt(ts, i, name)
    ensures FirstChild(ts, name) == Some(ts[i])
    decreases i
  {
    if i > 0 {
      assert ts[0].name != name;
      FirstChildIs(ts[1..], i - 1, name);
    }
  }

  lemma {:induction false} FirstChildPlace(ts: seq<Node>, name: string) returns (i: nat)
    requires FirstChild(ts, name).Some?
    ensures FirstChildAt(ts, i, name) && FirstChild(ts, name) == Some(ts[i])
  {
    if ts[0].name == name {
      i := 0;
    } else {
      var k := FirstChildPlace(ts[1..], name);
      i := k + 1;
      assert forall j | 0 < j < i :: ts[j] == ts[1..][j - 1];
    }
  }

  lemma {:induction false} FirstAttrIs(attrs: seq<Attr>, i: nat, name: string)
    requires FirstAttrAt(attrs, i, name)
    ensures FirstAttr(attrs, name) == Some(attrs[i])
    decreases i
  {
    if i > 0 {
      assert attrs[0].name != name;
      FirstAttrIs(attrs[1..], i - 1, name);
    }
  }

  lemma {:induction false} FirstAttrPlace(attrs: seq<Attr>, name: string) returns (i: nat)
    requires FirstAttr(attrs, name).Some?
    ensures FirstAttrAt(attrs, i, name) && FirstAttr(attrs, name) == Some(attrs[i])
  {
    if attrs[0].name == name {
      i := 0;
    } else {
      var k := FirstAttrPlace(attrs[1..], name);
      i := k + 1;
      assert forall j | 0 < j < i :: attrs[j] == attrs[1..][j - 1];
    }
  }

  lemma ChildStepExact(t: Node, c: Node, name: string)
    ensures FirstChild(t.children, name) == Some(c) <==> ChildStep(t, c, name)
  {
    if FirstChild(t.children, name) == Some(c) {
      var i := FirstChildPlace(t.children, name);
    }
    forall i: nat | FirstChildAt(t.children, i, name) ensures FirstChild(t.children, name) == Some(t.children[i]) {
      FirstChildIs(t.children, i, name);
    }
  }

  lemma AttrStepExact(t: Node, a: Attr, name: string)
    ensures FirstAttr(t.attrs, name) == Some(a) <==> AttrStep(t, a, name)
  {
    if FirstAttr(t.attrs, name) == Some(a) {
      var i := FirstAttrPlace(t.attrs, name);
    }
    forall i: nat | FirstAttrAt(t.attrs, i, name) ensures FirstAttr(t.attrs, name) == Some(t.attrs[i]) {
      FirstAttrIs(t.attrs, i, name);
    }
  }

  /** What a descent finds is at the end of a chain of first-named children. */
  lemma {:induction false} DescentHasChain(t: Node, parts: seq<string>, a: Attr) returns (nodes: seq<Node>)
    requires parts != [] && Descend(t, parts) == Some(a)
    ensures Chain(t, nodes, parts[..|parts| - 1]) && AttrStep(nodes[|nodes| - 1], a, parts[|parts| - 1])
    decreases |parts|
  {
    if |parts| == 1 {
      AttrStepExact(t, a, parts[0]);
      nodes := [t];
    } else {
      var c := FirstChild(t.children, parts[0]).value;
      ChildStepExact(t, c, parts[0]);
      var more := DescentHasChain(c, parts[1..], a);
      nodes := [t] + more;
      ChainGrows(t, c, more, parts[..|parts| - 1]);
    }
  }

  lemma ChainGrows(t: Node, c: Node, more: seq<Node>, names: seq<string>)
    requires names != [] && ChildStep(t, c, names[0]) && Chain(c, more, names[1..])
    ensures Chain(t, [t] + more, names)
  {
    var nodes := [t] + more;
    forall i | 0 <= i < |names| ensures ChildStep(nodes[i], nodes[i + 1], names[i]) {
      assert i > 0 ==> nodes[i] == more[i - 1] && nodes[i + 1] == more[i] && names[i] == names[1..][i - 1];
    }
  }

  lemma {:induction false} ChainIsDescent(t: Node, parts: seq<string>, nodes: seq<Node>, a: Attr)
    requires parts != [] && Chain(t, nodes, parts[..|parts| - 1])
    requires AttrStep(nodes[|nodes| - 1], a, parts[|parts| - 1])
    ensures Descend(t, parts) == Some(a)
    decreases |parts|
  {
    if |parts| == 1 {
      AttrStepExact(t, a, parts[0]);
    } else {
      var names, more := parts[..|parts| - 1], nodes[1..];
      assert ChildStep(nodes[0], nodes[1], names[0]);
      ChildStepExact(t, nodes[1], parts[0]);
      assert parts[1..][..|parts| - 2] == names[1..];
      forall i | 0 <= i < |names| - 1 ensures ChildStep(more[i], more[i + 1], names[1..][i]) {
        assert ChildStep(nodes[i + 1], nodes[i + 2], names[i + 1]);
      }
      ChainIsDescent(nodes[1], parts[1..], more, a);
    }
  }

  lemma LookupLeads(t: Node, path: string, a: Attr) returns (nodes: seq<Node>)
    requires Lookup(t, path) == Some(a)
    ensures LeadsTo(t, Split(path), nodes, a)
  {
    var parts := Split(path);
    var rest := parts[1..];
    assert rest[..|rest| - 1] == parts[1..|parts| - 1] && rest[|rest| - 1] == parts[|parts| - 1];
    nodes := DescentHasChain(t, rest, a);
  }

  lemma LeadsIsLookup(t: Node, path: string, nodes: seq<Node>, a: Attr)
    requires LeadsTo(t, Split(path), nodes, a)
    ensures Lookup(t, path) == Some(a)
  {
    var parts := Split(path);
    var rest := parts[1..];
    assert rest[..|rest| - 1] == parts[1..|parts| - 1] && rest[|rest| - 1] == parts[|parts| - 1];
    ChainIsDescent(t, rest, nodes, a);
  }

  /** A lookup finds exactly what its path leads to. */
  lemma LookupExact(t: Node, path: string, a: Attr)
    ensures Lookup(t, path) == Some(a) <==> Leads(t, Split(path), a)
  {
    hide Lookup, LeadsTo;
    if Lookup(t, path) == Some(a) {
      var nodes := LookupLeads(t, path, a);
    }
    forall nodes | LeadsTo(t, Split(path), nodes, a) ensures Lookup(t, path) == Some(a) {
      LeadsIsLookup(t, path, nodes, a);
    }
  }

  // ---- the procedures ----

  /** `ts_get_child` */
  method GetChild(t: Node, name: string) returns (r: Option<Node>)
    ensures r == FirstChild(t.children, name)
    ensures r == None <==> forall i | 0 <= i < |t.children| :: t.children[i].name != name
    ensures r.Some? ==> exists i | 0 <= i < |t.children| ::
              t.children[i] == r.value && t.children[i].name == name
              && forall j | 0 <= j < i :: t.children[j].name != name
  {
    var i := 0;
    while i < |t.children|
      invariant 0 <= i <= |t.children|
      invariant FirstChild(t.children, name) == FirstChild(t.children[i..], name)
      invariant forall j | 0 <= j < i :: t.children[j].name != name
    {
      assert t.children[i..][1..] == t.children[i + 1..];
      if t.children[i].name == name {
        return Some(t.children[i]);
      }
      i := i + 1;
    }
    r := None;
  }

  /** `ts_get_attr` */
  method GetAttr(t: Node, name: string) returns (r: Option<Attr>)
    ensures r == FirstAttr(t.attrs, name)
    ensures r == None <==> forall i | 0 <= i < |t.attrs| :: t.attrs[i].name != name
    ensures r.Some? ==> exists i | 0 <= i < |t.attrs| ::
              t.attrs[i] == r.value && t.attrs[i].name == name && forall j | 0 <= j < i :: t.attrs[j].name != name
  {
    var i := 0;
    while i < |t.attrs|
      invariant 0 <= i <= |t.attrs|
      invariant FirstAttr(t.attrs, name) == FirstAttr(t.attrs[i..], name)
      invariant forall j | 0 <= j < i :: t.attrs[j].name != name
    {
      assert t.attrs[i..][1..] == t.attrs[i + 1..];
      if t.attrs[i].name == name {
        return Some(t.attrs[i]);
      }
      i := i + 1;
    }
    r := None;
  }

  /** `pathtok`: the first component, and the path after its dot if there is one. */
  method PathTok(path: string) returns (tok: string, next: Option<string>)
    ensures tok == Split(path)[0]
    ensures next == None <==> |Split(path)| == 1
    ensures next.Some? ==> |next.value| < |path| && Split(path)[1..] == Split(next.value)
  {
    var dot := DotSpan(path);
    tok := path[..dot];
    if dot == |path| {
      assert tok == path;
      next := None;
    } else {
      next := Some(path[dot + 1..]);
    }
  }

  /** `ts_lookup` */
  method TsLookup(node: Option<Node>, path: string) returns (r: Option<Attr>)
    ensures r == if node.Some? then Lookup(node.value, path) else None
    ensures forall a :: r == Some(a) <==>
              node.Some? && Leads(node.value, Split(path), a)
  {
    if node == None {
      return None;
    }
    forall a ensures Lookup(node.value, path) == Some(a) <==> Leads(node.value, Split(path), a) {
      LookupExact(node.value, path, a);
    }
    var name, next := PathTok(path);
    if next == None || name != node.value.name {
      return None;
    }
    var cur := node;
    var rest := next.value;
    name, next := PathTok(rest);
    while next.Some?
      invariant cur.Some?
      invariant name == Split(rest)[0] && (next == None <==> |Split(rest)| == 1)
      invariant next.Some? ==> |next.value| < |rest| && Split(rest)[1..] == Split(next.value)
      invariant Lookup(node.value, path) == Descend(cur.value, Split(rest))
      decreases |rest|
    {
      cur := GetChild(cur.value, name);
      if cur == None {
        break;
      }
      rest := next.value;
      name, next := PathTok(rest);
    }
    if next.Some? || cur == None {
      return None;
    }
    r := GetAttr(cur.value, name);
  }

  // ---- lookups see the tree only through its view ----

  function ViewFound(r: Option<Attr>): Option<AAttr> {
    match r
    case None => None
    case Some(a) => Some(AAttr(a.name, View(a.val)))
  }

  lemma {:induction false} FirstAttrByView(xs: seq<Attr>, ys: seq<Attr>, name: string)
    requires ViewAttrs(xs) == ViewAttrs(ys)
    ensures ViewFound(FirstAttr(xs, name)) == ViewFound(FirstAttr(ys, name))
  {
    assert |ViewAttrs(xs)| == |ViewAttrs(ys)|;
    if xs != [] {
      assert ViewAttrs(xs)[0] == ViewAttrs(ys)[0];
      assert ViewAttrs(xs[1..]) == ViewAttrs(xs)[1..];
      assert ViewAttrs(ys[1..]) == ViewAttrs(ys)[1..];
      FirstAttrByView(xs[1..], ys[1..], name);
    }
  }

  lemma {:induction false} FirstChildByView(xs: seq<Node>, ys: seq<Node>, name: string)
    requires ViewNodes(xs) == ViewNodes(ys)
    ensures FirstChild(xs, name).Some? == FirstChild(ys, name).Some?
    ensures FirstChild(xs, name).Some? ==>
              ViewNode(FirstChild(xs, name).value) == ViewNode(FirstChild(ys, name).value)
  {
    assert |ViewNodes(xs)| == |ViewNodes(ys)|;
    if xs != [] {
      assert ViewNodes(xs)[0] == ViewNodes(ys)[0];
      assert ViewNodes(xs[1..]) == ViewNodes(xs)[1..];
      assert ViewNodes(ys[1..]) == ViewNodes(ys)[1..];
      FirstChildByView(xs[1..], ys[1..], name);
    }
  }

  lemma {:induction false} DescendByView(t: Node, u: Node, parts: seq<string>)
    requires ViewNode(t) == ViewNode(u) && parts != []
    ensures ViewFound(Descend(t, parts)) == ViewFound(Descend(u, parts))
    decreases |parts|
  {
    if |parts| == 1 {
      FirstAttrByView(t.attrs, u.attrs, parts[0]);
    } else {
      FirstChildByView(t.children, u.children, parts[0]);
      var c, d := FirstChild(t.children, parts[0]), FirstChild(u.children, parts[0]);
      if c.Some? {
        DescendByView(c.value, d.value, parts[1..]);
      }
    }
  }

  /** Every lookup gives the same answer before saving and after loading again. */
  lemma LookupAfterReload(t: Node, level: nat, rest: string, path: string)
    requires Savable(t) && NodeVectorsAgree(t) && LoadableNode(t)
    ensures var r := Load(NodeText(t, level) + rest);
            r.Parsed? && ViewFound(Lookup(r.value, path)) == ViewFound(Lookup(t, path))
  {
    LoadAfterSave(t, level, rest);
    var r := Load(NodeText(t, level) + rest);
    var parts := Split(path);
    if |parts| > 1 && parts[0] == t.name {
      DescendByView(r.value, t, parts[1..]);
    }
  }
}
