/** Loading what was saved gives the tree back, and exactly for which trees. */
module TsRoundTrip {
  import opened Ctype
  import opened Options
  import opened Seqs
  import opened TsTree
  import opened TsNumber
  import opened TsLexer
  import opened TsParser
  import opened TsPrinter
  import opened TsView

  // ---- tokens at the front of printed text ----

  /** A token that ended just before `rest` is not continued by it. */
  predicate EndsNumber(rest: string) {
    rest != "" ==> !IsDigit(rest[0]) && rest[0] != '.'
  }

  predicate EndsId(rest: string) {
    rest != "" ==> !IsIdChar(rest[0])
  }

  lemma LexSpace(c: char, s: string)
    requires IsSpace(c)
    ensures Lex([c] + s) == Lex(s)
  {
    assert ([c] + s)[1..] == s;
  }

  lemma {:induction false} LexIndent(level: nat, s: string)
    ensures Lex(Indent(level) + s) == Lex(s)
    decreases level
  {
    if level == 0 {
      assert Indent(level) + s == s;
    } else if level > MAX_INDENT {
      assert Indent(level) == Indent(level - 1);
      LexIndent(level - 1, s);
    } else {
      assert Indent(level) + s == ['\t'] + (Indent(level - 1) + s);
      LexSpace('\t', Indent(level - 1) + s);
      LexIndent(level - 1, s);
    }
  }

  lemma LexSym(c: char, rest: string)
    requires c in "{}[]=,"
    ensures Lex([c] + rest) == Lexed(Sym(c), rest)
  {
    assert ([c] + rest)[1..] == rest;
  }

  lemma {:induction false} IdSpanAll(s: string, rest: string)
    requires (forall i | 0 <= i < |s| :: IsIdChar(s[i])) && EndsId(rest)
    ensures IdSpan(s + rest) == |s|
  {
    if s == "" {
      assert s + rest == rest;
    } else {
      assert (s + rest)[1..] == s[1..] + rest;
      IdSpanAll(s[1..], rest);
    }
  }

  lemma LexIdent(name: string, rest: string)
    requires IsIdent(name) && EndsId(rest)
    ensures Lex(name + rest) == Lexed(Id(name), rest)
  {
    var t := name + rest;
    assert t[1..] == name[1..] + rest;
    IdSpanAll(name[1..], rest);
    var n := |name| - 1;
    assert t[1..][..n] == name[1..] && t[1..][n..] == rest && [t[0]] + name[1..] == name;
  }

  predicate HasDot(s: string) {
    exists i | 0 <= i < |s| :: s[i] == '.'
  }

  lemma {:induction false} NumSpanAll(s: string, dot: bool, rest: string)
    requires NumberTail(s) && (dot ==> !HasDot(s)) && EndsNumber(rest)
    ensures NumSpan(s + rest, dot) == |s|
  {
    if s == "" {
      assert s + rest == rest;
    } else {
      assert (s + rest)[1..] == s[1..] + rest;
      assert forall i | 1 <= i < |s| :: s[1..][i - 1] == s[i];
      assert !IsDigit(s[0]) ==> !HasDot(s[1..]);
      NumSpanAll(s[1..], dot || s[0] == '.', rest);
    }
  }

  lemma LexNumber(text: string, rest: string)
    requires NumberToken(text) && EndsNumber(rest)
    ensures Lex(text + rest) == Lexed(Num(text), rest)
  {
    var t := text + rest;
    assert t[1..] == text[1..] + rest;
    NumSpanAll(text[1..], false, rest);
    var n := |text| - 1;
    assert t[1..][..n] == text[1..] && t[1..][n..] == rest && [t[0]] + text[1..] == text;
  }

  lemma {:induction false} QuoteSpanAll(s: string, rest: string)
    requires '"' !in s && rest != "" && rest[0] == '"'
    ensures QuoteSpan(s + rest) == |s|
  {
    if s == "" {
      assert s + rest == rest;
    } else {
      assert (s + rest)[1..] == s[1..] + rest;
      QuoteSpanAll(s[1..], rest);
    }
  }

  lemma LexString(s: string, rest: string)
    requires '"' !in s
    ensures Lex("\"" + s + "\"" + rest) == Lexed(Str(s), rest)
  {
    var tail := "\"" + rest;
    var t := "\"" + s + "\"" + rest;
    assert t[1..] == s + tail;
    QuoteSpanAll(s, tail);
    assert t[1..][..|s|] == s && t[1..][|s| + 1..] == rest;
  }

  // ---- values ----

  /** The structure that loading the printed form of a value builds. */
  function Reloaded(v: Value): Value {
    match v.kind
    case TsString => if v.str.Some? then StrValue(v.str.value) else INIT_VALUE
    case TsNumber => NumValue(v.num)
    case _ => ArrValue(ReloadedAll(v.elems))
  }

  function ReloadedAll(vs: seq<Value>): (r: seq<Value>)
    ensures |r| == |vs|
    ensures forall i | 0 <= i < |vs| :: r[i] == Reloaded(vs[i])
  {
    if vs == [] then [] else [Reloaded(vs[0])] + ReloadedAll(vs[1..])
  }

  lemma {:induction false} ReloadedView(v: Value)
    requires Loadable(v)
    ensures View(Reloaded(v)) == View(v) && Loadable(Reloaded(v))
  {
    if v.kind == TsVector || v.kind == TsArray {
      var rs := ReloadedAll(v.elems);
      forall i | 0 <= i < |rs|
        ensures View(rs[i]) == View(v.elems[i]) && Loadable(rs[i])
        ensures rs[i].kind == TsNumber <==> v.elems[i].kind == TsNumber
      {
        ReloadedView(v.elems[i]);
      }
      ArrValueView(rs);
      assert Views(rs) == Views(v.elems);
      assert AllNumbers(rs) <==> AllNumbers(v.elems);
    }
  }

  /** A vector is printed as the array beside it would be. */
  lemma {:induction false} VectorText(vs: seq<Value>, first: bool)
    requires AllNumbers(vs) && AllSavable(vs)
    ensures NumsText(Nums(vs), first) == ElemsText(vs, first)
  {
    if vs != [] {
      assert Nums(vs)[1..] == Nums(vs[1..]);
      VectorText(vs[1..], false);
    }
  }

  lemma ParseArraySkips(s: string, t: string, endSym: char, acc: seq<Value>)
    requires Lex(s) == Lex(t)
    ensures ParseArray(s, endSym, acc) == ParseArray(t, endSym, acc)
  {
  }

  lemma {:induction false} ValueReadBack(v: Value, rest: string)
    requires SavableValue(v) && VectorsAgree(v) && Loadable(v) && EndsNumber(rest)
    ensures var l := Lex(ValueText(v) + rest);
            l.tok != Eof && ParseValue(l.tok, l.rest) == Parsed(Reloaded(v), rest)
    decreases v, 1
  {
    match v.kind
    case TsString =>
      assert ValueText(v) + rest == "\"" + v.str.value + "\"" + rest;
      LexString(v.str.value, rest);
    case TsNumber =>
      AtofOfFormatG(v.num);
      LexNumber(FormatG(v.num), rest);
    case TsVector =>
      VectorSavable(v);
      VectorText(v.elems, true);
      ListReadBack(v, rest);
    case TsArray =>
      ListReadBack(v, rest);
  }

  lemma VectorSavable(v: Value)
    requires SavableValue(v) && v.kind == TsVector && VectorsAgree(v)
    ensures AllSavable(v.elems) && v.vec[..v.vecSize] == Nums(v.elems)
  {
    assert forall i | 0 <= i < |v.elems| :: v.vec[i] == v.elems[i].num;
  }

  lemma ListReadBack(v: Value, rest: string)
    requires Loadable(v) && VectorsAgree(v) && (v.kind == TsVector || v.kind == TsArray) && AllSavable(v.elems)
    ensures ParseValue(Sym('['), ElemsText(v.elems, true) + "]" + rest) == Parsed(Reloaded(v), rest)
    ensures Lex("[" + ElemsText(v.elems, true) + "]" + rest) == Lexed(Sym('['), ElemsText(v.elems, true) + "]" + rest)
    decreases v, 0
  {
    var inner := ElemsText(v.elems, true) + "]" + rest;
    assert "[" + ElemsText(v.elems, true) + "]" + rest == ['['] + inner;
    LexSym('[', inner);
    ElemsReadBack(v.elems, [], rest);
    NilAppend(ReloadedAll(v.elems));
  }

  lemma CatFirst(v: string, e: string, rest: string)
    ensures "" + v + e + "]" + rest == v + (e + "]" + rest)
  {
  }

  lemma CatNext(v: string, e: string, rest: string)
    ensures ", " + v + e + "]" + rest == [','] + ([' '] + ("" + v + e + "]" + rest))
  {
  }

  lemma CloseText(rest: string)
    ensures EndsNumber("" + "]" + rest) && Lex("" + "]" + rest) == Lexed(Sym(']'), rest)
  {
    assert "" + "]" + rest == [']'] + rest;
    LexSym(']', rest);
  }

  lemma CommaText(v: string, e: string, rest: string)
    ensures var tail := ", " + v + e + "]" + rest;
            EndsNumber(tail) && Lex(tail) == Lexed(Sym(','), [' '] + ("" + v + e + "]" + rest))
  {
    CatNext(v, e, rest);
    LexSym(',', [' '] + ("" + v + e + "]" + rest));
  }

  /** The text of an array from its first element on, cut after that element. */
  lemma ElemsTextCut(vs: seq<Value>, rest: string)
    requires vs != [] && AllSavable(vs)
    ensures ElemsText(vs, true) + "]" + rest == ValueText(vs[0]) + (ElemsText(vs[1..], false) + "]" + rest)
  {
    CatFirst(ValueText(vs[0]), ElemsText(vs[1..], false), rest);
  }

  /** What follows an element: the closing bracket, or a comma, a space and the other elements. */
  lemma ElemsTail(ws: seq<Value>, rest: string)
    requires AllSavable(ws)
    ensures var tail := ElemsText(ws, false) + "]" + rest;
            && EndsNumber(tail)
            && Lex(tail) == if ws == [] then Lexed(Sym(']'), rest)
                            else Lexed(Sym(','), [' '] + (ElemsText(ws, true) + "]" + rest))
  {
    if ws == [] {
      CloseText(rest);
    } else {
      CommaText(ValueText(ws[0]), ElemsText(ws[1..], false), rest);
    }
  }

  /** One round of the array loop. */
  lemma ArrayRound(s: string, acc: seq<Value>, v: Value, s2: string)
    requires Lex(s).tok != Eof && ParseValue(Lex(s).tok, Lex(s).rest) == Parsed(v, s2) && |acc| < MAX_ELEMS
    ensures Lex(s2).tok == Sym(']') ==> ParseArray(s, ']', acc) == FinishArray(acc + [v], Lex(s2).rest)
    ensures forall next | Lex(s2).tok == Sym(',') && Lex(Lex(s2).rest) == Lex(next) ::
              ParseArray(s, ']', acc) == ParseArray(next, ']', acc + [v])
  {
    forall next | Lex(s2).tok == Sym(',') && Lex(Lex(s2).rest) == Lex(next)
      ensures ParseArray(s, ']', acc) == ParseArray(next, ']', acc + [v])
    {
      ParseArraySkips(Lex(s2).rest, next, ']', acc + [v]);
    }
  }

  lemma {:induction false} ElemsReadBack(vs: seq<Value>, acc: seq<Value>, rest: string)
    requires vs != [] && AllSavable(vs) && |acc| + |vs| <= MAX_ELEMS
    requires forall i | 0 <= i < |vs| :: Loadable(vs[i]) && VectorsAgree(vs[i])
    ensures ParseArray(ElemsText(vs, true) + "]" + rest, ']', acc) == FinishArray(acc + ReloadedAll(vs), rest)
    decreases vs, 0
  {
    hide Lex, ValueText, Reloaded, Loadable, SavableValue, VectorsAgree, ParseValue;
    var acc2 := acc + [Reloaded(vs[0])];
    assert ParseArray(ElemsText(vs, true) + "]" + rest, ']', acc)
        == if |vs| == 1 then FinishArray(acc2, rest)
           else ParseArray(ElemsText(vs[1..], true) + "]" + rest, ']', acc2) by {
      var tail := ElemsText(vs[1..], false) + "]" + rest;
      ElemsTextCut(vs, rest);
      ElemsTail(vs[1..], rest);
      ValueReadBack(vs[0], tail);
      ArrayRound(ElemsText(vs, true) + "]" + rest, acc, Reloaded(vs[0]), tail);
      LexSpace(' ', ElemsText(vs[1..], true) + "]" + rest);
    }
    AppendReloaded(vs, acc);
    if |vs| > 1 {
      ElemsReadBack(vs[1..], acc2, rest);
    }
  }

  lemma AppendReloaded(vs: seq<Value>, acc: seq<Value>)
    requires vs != []
    ensures acc + ReloadedAll(vs) == acc + [Reloaded(vs[0])] + ReloadedAll(vs[1..])
    ensures |vs| == 1 ==> acc + ReloadedAll(vs) == acc + [Reloaded(vs[0])]
  {
    Assoc(acc, [Reloaded(vs[0])], ReloadedAll(vs[1..]));
    AppendNil(acc + [Reloaded(vs[0])]);
  }

  // ---- nodes ----

  function ReloadedAttrs(attrs: seq<Attr>): (r: seq<Attr>)
    ensures |r| == |attrs|
    ensures forall i | 0 <= i < |attrs| :: r[i] == Attr(attrs[i].name, Reloaded(attrs[i].val))
  {
    if attrs == [] then [] else [Attr(attrs[0].name, Reloaded(attrs[0].val))] + ReloadedAttrs(attrs[1..])
  }

  /** The tree that loading the saved form of a tree builds. */
  function ReloadedNode(t: Node): Node {
    Node(t.name, ReloadedAttrs(t.attrs), ReloadedNodes(t.children))
  }

  function ReloadedNodes(ts: seq<Node>): (r: seq<Node>)
    ensures |r| == |ts|
    ensures forall i | 0 <= i < |ts| :: r[i] == ReloadedNode(ts[i])
  {
    if ts == [] then [] else [ReloadedNode(ts[0])] + ReloadedNodes(ts[1..])
  }

  lemma {:induction false} ReloadedNodeView(t: Node)
    requires LoadableNode(t)
    ensures ViewNode(ReloadedNode(t)) == ViewNode(t)
  {
    var r := ReloadedNode(t);
    forall i | 0 <= i < |t.attrs|
      ensures ViewAttrs(r.attrs)[i] == ViewAttrs(t.attrs)[i]
    {
      assert LoadableAttr(t.attrs[i]);
      ReloadedView(t.attrs[i].val);
    }
    assert ViewAttrs(r.attrs) == ViewAttrs(t.attrs);
    forall i | 0 <= i < |t.children|
      ensures ViewNodes(r.children)[i] == ViewNodes(t.children)[i]
    {
      ReloadedNodeView(t.children[i]);
    }
    assert ViewNodes(r.children) == ViewNodes(t.children);
  }

  ghost predicate SoundAttrs(attrs: seq<Attr>) {
    forall i | 0 <= i < |attrs| :: SavableValue(attrs[i].val) && VectorsAgree(attrs[i].val) && LoadableAttr(attrs[i])
  }

  ghost predicate SoundNodes(ts: seq<Node>) {
    forall i | 0 <= i < |ts| :: Savable(ts[i]) && NodeVectorsAgree(ts[i]) && LoadableNode(ts[i])
  }

  lemma ParseBodySkips(s: string, t: string, attrs: seq<Attr>, children: seq<Node>)
    requires Lex(s) == Lex(t)
    ensures ParseBody(s, attrs, children) == ParseBody(t, attrs, children)
  {
  }

  /** The name and the equals sign of a printed attribute. */
  lemma AttrHeadReadBack(a: Attr, level: nat, tail: string)
    requires SavableValue(a.val) && IsIdent(a.name)
    ensures var l := Lex(AttrText(a, level) + tail);
            && l.tok == Id(a.name) && Lex(l.rest).tok == Sym('=')
            && Lex(Lex(l.rest).rest) == Lex(ValueText(a.val) + (['\n'] + tail))
  {
    hide Lex;
    var s3 := ValueText(a.val) + (['\n'] + tail);
    var s2 := [' '] + s3;
    var s1 := [' '] + (['='] + s2);
    assert AttrText(a, level) + tail == Indent(level + 1) + (a.name + s1);
    LexIndent(level + 1, a.name + s1);
    LexIdent(a.name, s1);
    LexSpace(' ', ['='] + s2);
    LexSym('=', s2);
    LexSpace(' ', s3);
  }

  lemma AttrReadBack(a: Attr, level: nat, tail: string, attrs: seq<Attr>, children: seq<Node>)
    requires SavableValue(a.val) && VectorsAgree(a.val) && LoadableAttr(a)
    ensures ParseBody(AttrText(a, level) + tail, attrs, children)
         == ParseBody(tail, attrs + [Attr(a.name, Reloaded(a.val))], children)
  {
    hide Lex, ParseValue, Reloaded, AttrText, ValueText;
    var afterVal := ['\n'] + tail;
    AttrHeadReadBack(a, level, tail);
    ValueReadBack(a.val, afterVal);
    LexSpace('\n', tail);
    ParseBodySkips(afterVal, tail, attrs + [Attr(a.name, Reloaded(a.val))], children);
  }

  lemma {:induction false} AttrsReadBack(
      as0: seq<Attr>, level: nat, tail: string, attrs: seq<Attr>, children: seq<Node>)
    requires SoundAttrs(as0)
    ensures ParseBody(AttrsText(as0, level) + tail, attrs, children)
         == ParseBody(tail, attrs + ReloadedAttrs(as0), children)
  {
    if as0 == [] {
      NilAppend(tail);
      AppendNil(attrs);
    } else {
      var tail2 := AttrsText(as0[1..], level) + tail;
      var attrs2 := attrs + [Attr(as0[0].name, Reloaded(as0[0].val))];
      Assoc(AttrText(as0[0], level), AttrsText(as0[1..], level), tail);
      Assoc(attrs, [Attr(as0[0].name, Reloaded(as0[0].val))], ReloadedAttrs(as0[1..]));
      AttrReadBack(as0[0], level, tail2, attrs, children);
      AttrsReadBack(as0[1..], level, tail, attrs2, children);
    }
  }

  /** The body of a printed node, from its first attribute to its closing brace. */
  function BodyText(t: Node, level: nat): string
    requires Savable(t)
  {
    AttrsText(t.attrs, level) + ChildrenText(t.children, level + 1) + NodeFoot(level)
  }

  lemma {:induction false} BodyReadBack(t: Node, level: nat, rest: string)
    requires Savable(t) && NodeVectorsAgree(t) && LoadableNode(t)
    ensures ParseBody(BodyText(t, level) + rest, [], [])
         == Parsed(Node("", ReloadedAttrs(t.attrs), ReloadedNodes(t.children)), "\n" + rest)
    decreases t, 1
  {
    SoundParts(t);
    hide *;
    var foot := NodeFoot(level) + rest;
    var tail := ChildrenText(t.children, level + 1) + foot;
    var attrs, children := ReloadedAttrs(t.attrs), ReloadedNodes(t.children);
    BodyAttrsReadBack(t, level, rest);
    NilAppend(children);
    ChildrenReadBack(t.children, level + 1, foot, attrs, []);
    FootReadBack(level, rest, attrs, children);
  }

  lemma SoundParts(t: Node)
    requires Savable(t) && NodeVectorsAgree(t) && LoadableNode(t)
    ensures SoundAttrs(t.attrs) && SoundNodes(t.children)
  {
  }

  lemma BodyAttrsReadBack(t: Node, level: nat, rest: string)
    requires Savable(t) && NodeVectorsAgree(t) && LoadableNode(t)
    ensures ParseBody(BodyText(t, level) + rest, [], [])
         == ParseBody(ChildrenText(t.children, level + 1) + (NodeFoot(level) + rest), ReloadedAttrs(t.attrs), [])
  {
    SoundParts(t);
    BodyTextParts(t, level, rest);
    hide *;
    AttrsReadBack(t.attrs, level, ChildrenText(t.children, level + 1) + (NodeFoot(level) + rest), [], []);
    NilAppend(ReloadedAttrs(t.attrs));
  }

  lemma BodyTextParts(t: Node, level: nat, rest: string)
    requires Savable(t)
    ensures BodyText(t, level) + rest
         == AttrsText(t.attrs, level) + (ChildrenText(t.children, level + 1) + (NodeFoot(level) + rest))
  {
  }

  lemma FootReadBack(level: nat, rest: string, attrs: seq<Attr>, children: seq<Node>)
    ensures ParseBody(NodeFoot(level) + rest, attrs, children) == Parsed(Node("", attrs, children), "\n" + rest)
  {
    var after := ['}'] + ("\n" + rest);
    assert NodeFoot(level) + rest == Indent(level) + after;
    LexIndent(level, after);
    LexSym('}', "\n" + rest);
  }

  /** The name and the opening brace of a printed node. */
  lemma HeadReadBack(t: Node, level: nat, tail: string)
    requires IsIdent(t.name)
    ensures var l := Lex(NodeHead(t, level) + tail);
            l.tok == Id(t.name) && Lex(l.rest) == Lexed(Sym('{'), "\n" + tail)
  {
    var s2 := ['{'] + ("\n" + tail);
    var s1 := [' '] + s2;
    assert NodeHead(t, level) + tail == Indent(level) + (t.name + s1);
    LexIndent(level, t.name + s1);
    LexIdent(t.name, s1);
    LexSpace(' ', s2);
    LexSym('{', "\n" + tail);
  }

  lemma NodeTextParts(t: Node, level: nat, rest: string)
    requires Savable(t)
    ensures NodeText(t, level) + rest == NodeHead(t, level) + (BodyText(t, level) + rest)
  {
  }

  lemma {:induction false} ChildReadBack(t: Node, level: nat, tail: string, attrs: seq<Attr>, children: seq<Node>)
    requires Savable(t) && NodeVectorsAgree(t) && LoadableNode(t)
    ensures ParseBody(NodeText(t, level) + tail, attrs, children)
         == ParseBody(tail, attrs, children + [ReloadedNode(t)])
    decreases t, 2
  {
    hide Lex;
    var body := BodyText(t, level) + tail;
    NodeTextParts(t, level, tail);
    HeadReadBack(t, level, body);
    LexSpace('\n', body);
    ParseBodySkips("\n" + body, body, [], []);
    BodyReadBack(t, level, tail);
    LexSpace('\n', tail);
    ParseBodySkips("\n" + tail, tail, attrs, children + [ReloadedNode(t)]);
  }

  lemma {:induction false} ChildrenReadBack(
      ts: seq<Node>, level: nat, tail: string, attrs: seq<Attr>, children: seq<Node>)
    requires SoundNodes(ts)
    ensures ParseBody(ChildrenText(ts, level) + tail, attrs, children)
         == ParseBody(tail, attrs, children + ReloadedNodes(ts))
    decreases ts, 0
  {
    hide ParseBody, NodeText, ReloadedNode, Savable, LoadableNode, NodeVectorsAgree;
    if ts == [] {
      NilAppend(tail);
      AppendNil(children);
    } else {
      var tail2 := ChildrenText(ts[1..], level) + tail;
      Assoc(NodeText(ts[0], level), ChildrenText(ts[1..], level), tail);
      ChildReadBack(ts[0], level, tail2, attrs, children);
      Assoc(children, [ReloadedNode(ts[0])], ReloadedNodes(ts[1..]));
      ChildrenReadBack(ts[1..], level, tail, attrs, children + [ReloadedNode(ts[0])]);
    }
  }

  /** The printed text of an expressible tree, followed by anything, loads as that tree and no more is read. */
  lemma LoadOfSaved(t: Node, level: nat, rest: string)
    requires Savable(t) && NodeVectorsAgree(t) && LoadableNode(t)
    ensures Load(NodeText(t, level) + rest) == Parsed(ReloadedNode(t), "\n" + rest)
    ensures ViewNode(ReloadedNode(t)) == ViewNode(t)
  {
    var body := BodyText(t, level) + rest;
    NodeTextParts(t, level, rest);
    HeadReadBack(t, level, body);
    LexSpace('\n', body);
    ParseBodySkips("\n" + body, body, [], []);
    BodyReadBack(t, level, rest);
    ReloadedNodeView(t);
  }
}
