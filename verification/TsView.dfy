/** What a tree says: names, order, and values with vectors seen through their array. */
module TsView {
  import opened Ctype
  import opened Options
  import opened TsTree
  import opened TsLexer

  datatype AValue = ANull | AStr(s: string) | ANum(x: real) | AArr(vector: bool, elems: seq<AValue>)

  datatype AAttr = AAttr(name: string, val: AValue)

  datatype ANode = ANode(name: string, attrs: seq<AAttr>, children: seq<ANode>)

  function View(v: Value): AValue {
    match v.kind
    case TsString => if v.str.Some? then AStr(v.str.value) else ANull
    case TsNumber => ANum(v.num)
    case TsVector => AArr(true, Views(v.elems))
    case TsArray => AArr(false, Views(v.elems))
  }

  function Views(vs: seq<Value>): (r: seq<AValue>)
    ensures |r| == |vs|
    ensures forall i | 0 <= i < |vs| :: r[i] == View(vs[i])
  {
    if vs == [] then [] else [View(vs[0])] + Views(vs[1..])
  }

  function ViewAttrs(attrs: seq<Attr>): (r: seq<AAttr>)
    ensures |r| == |attrs|
    ensures forall i | 0 <= i < |attrs| :: r[i] == AAttr(attrs[i].name, View(attrs[i].val))
  {
    seq(|attrs|, i requires 0 <= i < |attrs| => AAttr(attrs[i].name, View(attrs[i].val)))
  }

  function ViewNode(t: Node): ANode {
    ANode(t.name, ViewAttrs(t.attrs), ViewNodes(t.children))
  }

  function ViewNodes(ts: seq<Node>): (r: seq<ANode>)
    ensures |r| == |ts|
    ensures forall i | 0 <= i < |ts| :: r[i] == ViewNode(ts[i])
  {
    if ts == [] then [] else [ViewNode(ts[0])] + ViewNodes(ts[1..])
  }

  /** An identifier token: a letter, then letters, digits and underscores. */
  predicate IsIdent(s: string) {
    s != "" && IsAlpha(s[0]) && forall i | 1 <= i < |s| :: IsIdChar(s[i])
  }

  /** Text that can stand between double quotes: there are no escapes. */
  predicate QuoteFree(s: string) {
    '"' !in s && NUL !in s
  }

  /** Values that the text format can express. */
  predicate Loadable(v: Value) {
    match v.kind
    case TsString => v.str.Some? ==> QuoteFree(v.str.value)
    case TsNumber => true
    case _ =>
      && 2 <= |v.elems| <= 31
      && (v.kind == TsVector <==> AllNumbers(v.elems))
      && forall i | 0 <= i < |v.elems| :: Loadable(v.elems[i])
  }

  predicate LoadableAttr(a: Attr) {
    IsIdent(a.name) && Loadable(a.val)
  }

  /** Trees that the text format can express. */
  predicate LoadableNode(t: Node) {
    && IsIdent(t.name)
    && (forall i | 0 <= i < |t.attrs| :: LoadableAttr(t.attrs[i]))
    && (forall i | 0 <= i < |t.children| :: LoadableNode(t.children[i]))
  }

  lemma {:induction false} LoadableByView(v: Value, w: Value)
    requires View(v) == View(w) && Loadable(v)
    ensures Loadable(w)
  {
    if v.kind == TsVector || v.kind == TsArray {
      var vs, ws := Views(v.elems), Views(w.elems);
      assert vs == ws;
      forall i | 0 <= i < |w.elems|
        ensures Loadable(w.elems[i]) && v.elems[i].kind == w.elems[i].kind
      {
        assert vs[i] == ws[i];
        LoadableByView(v.elems[i], w.elems[i]);
      }
    }
  }

  lemma {:induction false} LoadableNodeByView(t: Node, u: Node)
    requires ViewNode(t) == ViewNode(u) && LoadableNode(t)
    ensures LoadableNode(u)
  {
    var tas, uas := ViewAttrs(t.attrs), ViewAttrs(u.attrs);
    forall i | 0 <= i < |u.attrs|
      ensures LoadableAttr(u.attrs[i])
    {
      assert tas[i] == uas[i] && LoadableAttr(t.attrs[i]);
      LoadableByView(t.attrs[i].val, u.attrs[i].val);
    }
    var tcs, ucs := ViewNodes(t.children), ViewNodes(u.children);
    forall i | 0 <= i < |u.children|
      ensures LoadableNode(u.children[i])
    {
      assert tcs[i] == ucs[i];
      LoadableNodeByView(t.children[i], u.children[i]);
    }
  }

  lemma {:induction false} CopyKeepsView(v: Value)
    ensures View(CopyValue(v)) == View(v)
    ensures Loadable(CopyValue(v)) == Loadable(v)
  {
    var c := CopyValue(v);
    forall i | 0 <= i < |v.elems|
      ensures View(c.elems[i]) == View(v.elems[i]) && Loadable(c.elems[i]) == Loadable(v.elems[i])
    {
      CopyKeepsView(v.elems[i]);
    }
    assert Views(c.elems) == Views(v.elems);
  }

  /** An array value made from loadable elements, seen from outside. */
  lemma ArrValueView(vs: seq<Value>)
    requires 2 <= |vs| <= 31 && forall i | 0 <= i < |vs| :: Loadable(vs[i])
    ensures View(ArrValue(vs)) == AArr(AllNumbers(vs), Views(vs))
    ensures Loadable(ArrValue(vs))
  {
    var a := ArrValue(vs);
    hide Loadable, View;
    forall i | 0 <= i < |vs|
      ensures View(a.elems[i]) == View(vs[i]) && Loadable(a.elems[i]) && a.elems[i].kind == vs[i].kind
    {
      CopyKeepsView(vs[i]);
    }
    assert Views(a.elems) == Views(vs);
    assert AllNumbers(a.elems) == AllNumbers(vs);
    ArrViewed(a);
  }

  lemma ArrViewed(a: Value)
    requires a.kind == (if AllNumbers(a.elems) then TsVector else TsArray)
    requires 2 <= |a.elems| <= 31 && forall i | 0 <= i < |a.elems| :: Loadable(a.elems[i])
    ensures View(a) == AArr(AllNumbers(a.elems), Views(a.elems)) && Loadable(a)
  {
  }
}
