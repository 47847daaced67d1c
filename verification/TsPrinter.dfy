/** The treestore printer: the text of a tree, and the methods that write it. */
module TsPrinter {
  import opened Options
  import opened Seqs
  import opened TsTree
  import opened TsNumber

  /** A value whose text is defined: strings are not null, numbers are printed exactly. */
  predicate SavableValue(v: Value) {
    match v.kind
    case TsString => v.str.Some?
    case TsNumber => GExact(v.num)
    case TsVector => v.vecSize <= |v.vec| && forall i | 0 <= i < v.vecSize :: GExact(v.vec[i])
    case TsArray => forall i | 0 <= i < |v.elems| :: SavableValue(v.elems[i])
  }

  predicate Savable(t: Node) {
    && (forall i | 0 <= i < |t.attrs| :: SavableValue(t.attrs[i].val))
    && (forall i | 0 <= i < |t.children| :: Savable(t.children[i]))
  }

  predicate AllSavable(vs: seq<Value>) {
    forall i | 0 <= i < |vs| :: SavableValue(vs[i])
  }

  /** Numbers separated by a comma and a space; `first` says that none was printed before. */
  function NumsText(ns: seq<real>, first: bool): string
    requires forall i | 0 <= i < |ns| :: GExact(ns[i])
  {
    if ns == [] then ""
    else (if first then "" else ", ") + FormatG(ns[0]) + NumsText(ns[1..], false)
  }

  function ElemsText(vs: seq<Value>, first: bool): string
    requires AllSavable(vs)
    decreases vs, 0
  {
    if vs == [] then ""
    else (if first then "" else ", ") + ValueText(vs[0]) + ElemsText(vs[1..], false)
  }

  function ValueText(v: Value): string
    requires SavableValue(v)
    decreases v, 1
  {
    match v.kind
    case TsNumber => FormatG(v.num)
    case TsVector => "[" + NumsText(v.vec[..v.vecSize], true) + "]"
    case TsArray => "[" + ElemsText(v.elems, true) + "]"
    case TsString => "\"" + v.str.value + "\""
  }

  const MAX_INDENT: nat := 16

  function Indent(x: nat): string {
    seq(if x > MAX_INDENT then MAX_INDENT else x, _ => '\t')
  }

  function AttrText(a: Attr, level: nat): string
    requires SavableValue(a.val)
  {
    Indent(level + 1) + a.name + " = " + ValueText(a.val) + "\n"
  }

  function AttrsText(attrs: seq<Attr>, level: nat): string
    requires forall i | 0 <= i < |attrs| :: SavableValue(attrs[i].val)
  {
    if attrs == [] then "" else AttrText(attrs[0], level) + AttrsText(attrs[1..], level)
  }

  function ChildrenText(ts: seq<Node>, level: nat): string
    requires forall i | 0 <= i < |ts| :: Savable(ts[i])
    decreases ts, 0
  {
    if ts == [] then "" else NodeText(ts[0], level) + ChildrenText(ts[1..], level)
  }

  /** The text of a node that stands `level` levels below the root. */
  function NodeText(t: Node, level: nat): string
    requires Savable(t)
    decreases t, 1
  {
    NodeHead(t, level) + AttrsText(t.attrs, level) + ChildrenText(t.children, level + 1) + NodeFoot(level)
  }

  function NodeHead(t: Node, level: nat): string {
    Indent(level) + t.name + " {\n"
  }

  function NodeFoot(level: nat): string {
    Indent(level) + "}\n"
  }

  lemma Assoc4(o: string, a: string, b: string, c: string)
    ensures o + a + b + c == o + (a + b + c)
  {
  }

  lemma Assoc5(o: string, a: string, b: string, c: string, d: string)
    ensures o + a + b + c + d == o + (a + b + c + d)
  {
  }

  /** An open output stream. */
  class Writer {
    var out: string

    constructor ()
      ensures out == ""
    {
      out := "";
    }

    /** `fprintf` and `fputc` of finished text */
    method Put(s: string)
      modifies this
      ensures out == old(out) + s
    {
      out := out + s;
    }

    /** `print_value` */
    method PrintValue(v: Value)
      requires SavableValue(v)
      modifies this
      ensures out == old(out) + ValueText(v)
      decreases v, 1
    {
      match v.kind {
        case TsNumber =>
          Put(FormatG(v.num));
        case TsVector =>
          Put("[");
          PrintVector(v.vec, v.vecSize);
          Put("]");
          Assoc4(old(out), "[", NumsText(v.vec[..v.vecSize], true), "]");
        case TsArray =>
          Put("[");
          PrintElems(v);
          Put("]");
          Assoc4(old(out), "[", ElemsText(v.elems, true), "]");
        case TsString =>
          Put("\"" + v.str.value + "\"");
      }
    }

    /** The loop of `print_value` over the numbers of a vector. */
    method PrintVector(vec: seq<real>, vecSize: nat)
      requires vecSize <= |vec| && forall i | 0 <= i < vecSize :: GExact(vec[i])
      modifies this
      ensures out == old(out) + NumsText(vec[..vecSize], true)
    {
      ghost var nums := vec[..vecSize];
      for i := 0 to vecSize
        invariant out + NumsText(nums[i..], i == 0) == old(out) + NumsText(nums, true)
      {
        ghost var sep, text := if i == 0 then "" else ", ", FormatG(vec[i]);
        assert nums[i..][1..] == nums[i + 1..];
        Assoc(out, sep + text, NumsText(nums[i + 1..], false));
        if i == 0 {
          assert sep + text == text;
          Put(FormatG(vec[i]));
        } else {
          Put(", " + FormatG(vec[i]));
        }
      }
    }

    /** The loop of `print_value` over the elements of an array. */
    method PrintElems(v: Value)
      requires SavableValue(v) && v.kind == TsArray
      modifies this
      ensures out == old(out) + ElemsText(v.elems, true)
      decreases v, 0
    {
      for i := 0 to |v.elems|
        invariant out + ElemsText(v.elems[i..], i == 0) == old(out) + ElemsText(v.elems, true)
      {
        ghost var sep, text := if i == 0 then "" else ", ", ValueText(v.elems[i]);
        assert v.elems[i..][1..] == v.elems[i + 1..];
        Assoc(out, sep + text, ElemsText(v.elems[i + 1..], false));
        Assoc(out, sep, text);
        if i > 0 {
          Put(", ");
        }
        PrintValue(v.elems[i]);
      }
    }

    /** `print_attr` */
    method PrintAttr(a: Attr, level: nat)
      requires SavableValue(a.val)
      modifies this
      ensures out == old(out) + AttrText(a, level)
    {
      ghost var lead, text := Indent(level + 1) + a.name + " = ", ValueText(a.val);
      Assoc4(old(out), lead, text, "\n");
      Put(Indent(level + 1) + a.name + " = ");
      PrintValue(a.val);
      Put("\n");
    }

    /** `ts_text_save`; `level` is what `tree_level` computes for the node. */
    method TextSave(t: Node, level: nat)
      requires Savable(t)
      modifies this
      ensures out == old(out) + NodeText(t, level)
      decreases t
    {
      hide ValueText, AttrText, SavableValue, Indent;
      ghost var attrs, children := AttrsText(t.attrs, level), ChildrenText(t.children, level + 1);
      Assoc5(old(out), NodeHead(t, level), attrs, children, NodeFoot(level));
      Put(Indent(level) + t.name + " {\n");
      for i := 0 to |t.attrs|
        invariant out + AttrsText(t.attrs[i..], level) == old(out) + NodeHead(t, level) + attrs
      {
        assert t.attrs[i..][1..] == t.attrs[i + 1..];
        Assoc(out, AttrText(t.attrs[i], level), AttrsText(t.attrs[i + 1..], level));
        PrintAttr(t.attrs[i], level);
      }
      assert t.attrs[|t.attrs|..] == [] && out == old(out) + NodeHead(t, level) + attrs;
      for i := 0 to |t.children|
        invariant out + ChildrenText(t.children[i..], level + 1) == old(out) + NodeHead(t, level) + attrs + children
      {
        assert t.children[i..][1..] == t.children[i + 1..];
        Assoc(out, NodeText(t.children[i], level + 1), ChildrenText(t.children[i + 1..], level + 1));
        TextSave(t.children[i], level + 1);
      }
      assert t.children[|t.children|..] == [] && out == old(out) + NodeHead(t, level) + attrs + children;
      Put(Indent(level) + "}\n");
    }
  }
}
