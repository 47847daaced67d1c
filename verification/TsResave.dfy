/**
 Saving a loaded tree again. Loading leaves `vec_size` at zero, so a loaded vector is
 printed as `[]`; the parser takes the bracket that closes it for a value and then
 runs out of brackets.
 */
module TsResave {
  import opened Options
  import opened Seqs
  import opened TsTree
  import opened TsNumber
  import opened TsLexer
  import opened TsParser
  import opened TsPrinter
  import opened TsView
  import opened TsLayout
  import opened TsRoundTrip
  import opened TsExact

  // ---- brackets that can close something ----

  /** A closing bracket right after an opening one is read as a value and closes nothing. */
  function Weight(afterOpen: bool, tok: Token): int {
    if tok == Sym('[') then -1 else if tok == Sym(']') && !afterOpen then 1 else 0
  }

  function Balance(afterOpen: bool, ts: seq<Token>): int
    decreases |ts|
  {
    if ts == [] then 0 else Weight(afterOpen, ts[0]) + Balance(ts[0] == Sym('['), ts[1..])
  }

  function EndsOpen(afterOpen: bool, ts: seq<Token>): bool {
    if ts == [] then afterOpen else ts[|ts| - 1] == Sym('[')
  }

  lemma {:induction false} BalanceAppend(p: bool, a: seq<Token>, b: seq<Token>)
    ensures Balance(p, a + b) == Balance(p, a) + Balance(EndsOpen(p, a), b)
    decreases |a|
  {
    if a == [] {
      NilAppend(b);
    } else {
      DropFirst(a, b);
      assert (a + b)[0] == a[0];
      BalanceAppend(a[0] == Sym('['), a[1..], b);
    }
  }

  // ---- how far an array reaches ----

  /** Tokens of a value that ends with a bracket, or of its rest. */
  predicate Closing(x: seq<Token>) {
    x != [] && x[|x| - 1] == Sym(']') && Sym('{') !in x
  }

  /** Tokens that cannot follow a value in an array. */
  predicate Stops(z: seq<Token>) {
    z != [] && z[0] != Sym(',') && z[0] != Sym(']')
  }

  lemma TokensStep(s: string, x: seq<Token>, z: seq<Token>)
    requires Tokens(s) == x + z && x != []
    ensures Lex(s).tok == x[0] && x[0] != Eof && Tokens(Lex(s).rest) == x[1..] + z
  {
    assert Tokens(s)[0] == x[0];
    DropFirst(x, z);
    assert Tokens(s)[1..] == Tokens(Lex(s).rest);
  }

  lemma ClosingRest(c: seq<Token>, y: seq<Token>)
    requires Closing(c + y)
    ensures y == [] || Closing(y)
    ensures c != [] ==> c[0] == (c + y)[0] && c[0] != Sym('{')
  {
    if y != [] {
      assert (c + y)[|c + y| - 1] == y[|y| - 1];
      assert forall t | t in y :: t in c + y;
    }
    if c != [] {
      assert (c + y)[0] in c + y;
    }
  }

  /** What a successful array loop has read first. */
  lemma ArrayCases(s: string, acc: seq<Value>)
    requires Lex(s).tok != Eof && ParseArray(s, ']', acc).Parsed?
    ensures var v := ParseValue(Lex(s).tok, Lex(s).rest);
            v.Parsed? && var sep := Lex(v.rest);
            if sep.tok == Sym(']') then ParseArray(s, ']', acc).rest == sep.rest
            else sep.tok == Sym(',') && exists acc2 :: ParseArray(sep.rest, ']', acc2) == ParseArray(s, ']', acc)
  {
  }

  /** A value that is read ends inside the bracketed tokens, once as many brackets were closed as opened. */
  lemma {:induction false} ValueReach(tok: Token, s: string, x: seq<Token>, z: seq<Token>, p: bool)
      returns (c: seq<Token>, y: seq<Token>)
    requires tok != Eof && Tokens(s) == x + z && Stops(z) && Closing([tok] + x)
    requires ParseValue(tok, s).Parsed?
    ensures x == c + y && Tokens(ParseValue(tok, s).rest) == y + z
    ensures Balance(p, [tok] + c) >= 0 && !EndsOpen(p, [tok] + c)
    decreases |s|, 1
  {
    ClosingRest([tok], x);
    if tok == Sym('[') {
      c, y := ArrayReach(s, x, z, true, []);
      HeadBalance(p, tok, c);
    } else {
      c, y := [], x;
      HeadBalance(p, tok, c);
    }
  }

  lemma {:induction false} ArrayReach(s: string, x: seq<Token>, z: seq<Token>, p: bool, acc: seq<Value>)
      returns (c: seq<Token>, y: seq<Token>)
    requires Tokens(s) == x + z && Stops(z) && Closing(x)
    requires ParseArray(s, ']', acc).Parsed?
    ensures x == c + y && Tokens(ParseArray(s, ']', acc).rest) == y + z
    ensures c != [] && Balance(p, c) >= 1 && !EndsOpen(p, c)
    decreases |s|, 0
  {
    TokensStep(s, x, z);
    var tok := x[0];
    assert x == [tok] + x[1..];
    ArrayCases(s, acc);
    var c1, y1 := ValueReach(tok, Lex(s).rest, x[1..], z, p);
    var head := [tok] + c1;
    Assoc([tok], c1, y1);
    ClosingRest(head, y1);
    var t := ParseValue(tok, Lex(s).rest).rest;
    hide ParseArray, ParseValue, Lex, Closing, Balance, EndsOpen;
    if y1 == [] {
      NilAppend(z);
      AppendNil(z);
      TokensStep(t, z, []);
      assert false;
    } else {
      TokensStep(t, y1, z);
      var sep, y2 := y1[0], y1[1..];
      assert y1 == [sep] + y2;
      Assoc(head, [sep], y2);
      HeadThenSep(p, head, sep);
      c, y := head + [sep], y2;
      if sep == Sym(',') {
        CommaNotLast(y2);
        ClosingRest([sep], y2);
        var acc2 :| ParseArray(Lex(t).rest, ']', acc2) == ParseArray(s, ']', acc);
        var c2;
        c2, y := ArrayReach(Lex(t).rest, y2, z, false, acc2);
        Assoc(head + [sep], c2, y);
        AfterSep(p, head, sep, c2);
        c := head + [sep] + c2;
      }
    }
  }

  lemma HeadBalance(p: bool, tok: Token, x: seq<Token>)
    ensures Balance(p, [tok] + x) == Weight(p, tok) + Balance(tok == Sym('['), x)
    ensures EndsOpen(p, [tok] + x) == EndsOpen(tok == Sym('['), x)
  {
    DropFirst([tok], x);
  }

  lemma HeadThenSep(p: bool, head: seq<Token>, sep: Token)
    requires Balance(p, head) >= 0 && !EndsOpen(p, head)
    ensures sep == Sym(']') ==> Balance(p, head + [sep]) >= 1 && !EndsOpen(p, head + [sep])
    ensures sep == Sym(',') ==> Balance(p, head + [sep]) >= 0 && !EndsOpen(p, head + [sep])
  {
    BalanceAppend(p, head, [sep]);
  }

  lemma AfterSep(p: bool, head: seq<Token>, sep: Token, c: seq<Token>)
    requires Balance(p, head + [sep]) >= 0 && !EndsOpen(p, head + [sep])
    requires c != [] && Balance(false, c) >= 1 && !EndsOpen(false, c)
    ensures Balance(p, head + [sep] + c) >= 1 && !EndsOpen(p, head + [sep] + c)
  {
    BalanceAppend(p, head + [sep], c);
  }

  lemma CommaNotLast(y: seq<Token>)
    requires Closing([Sym(',')] + y)
    ensures y != []
  {
  }

  // ---- tokens of printed values ----

  /** No vector in the value has its size recorded. */
  predicate Unrecorded(v: Value) {
    v.vecSize == 0 && forall i | 0 <= i < |v.elems| :: Unrecorded(v.elems[i])
  }

  /** A value as loading makes it, with a text. */
  predicate Printable(v: Value) {
    SavableValue(v) && Loadable(v) && Unrecorded(v)
  }

  predicate AllPrintable(vs: seq<Value>) {
    forall i | 0 <= i < |vs| :: Printable(vs[i])
  }

  function ValueTokens(v: Value): (ts: seq<Token>)
    requires Printable(v)
    ensures ts != []
    decreases v, 1
  {
    match v.kind
    case TsNumber => [Num(FormatG(v.num))]
    case TsString => [Str(v.str.value)]
    case TsVector => [Sym('['), Sym(']')]
    case TsArray => [Sym('[')] + (ElemsTokens(v.elems) + [Sym(']')])
  }

  function ElemsTokens(vs: seq<Value>): seq<Token>
    requires AllPrintable(vs)
    decreases vs, 0
  {
    if vs == [] then []
    else if |vs| == 1 then ValueTokens(vs[0])
    else ValueTokens(vs[0]) + ([Sym(',')] + ElemsTokens(vs[1..]))
  }

  lemma SameLex(s: string, t: string)
    requires Lex(s) == Lex(t)
    ensures Tokens(s) == Tokens(t)
  {
  }

  lemma LexTokens(s: string, tok: Token, rest: string)
    requires Lex(s) == Lexed(tok, rest) && tok != Eof
    ensures Tokens(s) == [tok] + Tokens(rest)
  {
  }

  lemma {:induction false} TokensOfValue(v: Value, rest: string)
    requires Printable(v) && EndsNumber(rest)
    ensures Tokens(ValueText(v) + rest) == ValueTokens(v) + Tokens(rest)
    decreases v, 1
  {
    hide Lex, Tokens;
    var s := ValueText(v) + rest;
    match v.kind
    case TsNumber =>
      AtofOfFormatG(v.num);
      LexNumber(FormatG(v.num), rest);
      LexTokens(s, Num(FormatG(v.num)), rest);
    case TsString =>
      LexString(v.str.value, rest);
      LexTokens(s, Str(v.str.value), rest);
    case TsVector =>
      CloseText(rest);
      LexTokens("" + "]" + rest, Sym(']'), rest);
      NilAppend([Sym(']')] + Tokens(rest));
      BracketTokens("", [], rest);
      assert [Sym('[')] + ([] + [Sym(']')]) == [Sym('['), Sym(']')];
    case TsArray =>
      TokensOfElems(v.elems, rest);
      BracketTokens(ElemsText(v.elems, true), ElemsTokens(v.elems), rest);
  }

  lemma BracketTokens(e: string, es: seq<Token>, rest: string)
    requires Tokens(e + "]" + rest) == es + ([Sym(']')] + Tokens(rest))
    ensures Tokens("[" + e + "]" + rest) == [Sym('[')] + (es + [Sym(']')]) + Tokens(rest)
  {
    hide Lex, Tokens;
    var inner := e + "]" + rest;
    assert "[" + e + "]" + rest == ['['] + inner;
    LexSym('[', inner);
    LexTokens(['['] + inner, Sym('['), inner);
    Assoc(es, [Sym(']')], Tokens(rest));
    Assoc([Sym('[')], es + [Sym(']')], Tokens(rest));
  }

  lemma {:induction false} TokensOfElems(vs: seq<Value>, rest: string)
    requires vs != [] && AllPrintable(vs)
    ensures Tokens(ElemsText(vs, true) + "]" + rest) == ElemsTokens(vs) + ([Sym(']')] + Tokens(rest))
    decreases vs, 0
  {
    var tail := ElemsText(vs[1..], false) + "]" + rest;
    ElemsTextCut(vs, rest);
    ElemsTail(vs[1..], rest);
    TokensOfValue(vs[0], tail);
    hide Lex, Tokens, ValueText, ElemsText, Printable, ValueTokens;
    if |vs| == 1 {
      LexTokens(tail, Sym(']'), rest);
    } else {
      var more := ElemsText(vs[1..], true) + "]" + rest;
      LexTokens(tail, Sym(','), [' '] + more);
      LexSpace(' ', more);
      SameLex([' '] + more, more);
      TokensOfElems(vs[1..], rest);
      var close := [Sym(']')] + Tokens(rest);
      Assoc(ValueTokens(vs[0]), [Sym(',')] + ElemsTokens(vs[1..]), close);
      Assoc([Sym(',')], ElemsTokens(vs[1..]), close);
    }
  }

  // ---- balance of printed values ----

  /** No part read from the front closes more than it opens; the whole comes to `total` at most. */
  predicate Falls(ts: seq<Token>, total: int) {
    && (forall k, p | 0 <= k <= |ts| :: Balance(p, ts[..k]) <= 0)
    && (forall p :: Balance(p, ts) <= total)
    && ts != [] && ts[0] != Sym(']') && ts[|ts| - 1] != Sym('[') && Sym('{') !in ts
  }

  lemma PrefixOfCat(a: seq<Token>, b: seq<Token>, k: nat)
    requires k <= |a + b|
    ensures (a + b)[..k] == if k <= |a| then a[..k] else a + b[..k - |a|]
  {
  }

  lemma FallsOne(tok: Token)
    requires tok.Num? || tok.Str?
    ensures Falls([tok], 0)
  {
    forall k, p | 0 <= k <= 1 ensures Balance(p, [tok][..k]) <= 0 {
      if k == 1 {
        assert [tok][..1] == [tok];
      }
    }
  }

  lemma FallsCat(a: seq<Token>, m: int, b: seq<Token>, n: int)
    requires Falls(a, m) && Falls(b, n) && m <= 0
    ensures Falls(a + ([Sym(',')] + b), m + n)
  {
    var c := [Sym(',')] + b;
    forall k, p | 0 <= k <= |a + c| ensures Balance(p, (a + c)[..k]) <= 0 {
      PrefixOfCat(a, c, k);
      if k > |a| {
        CommaBalance(b, k - |a|);
        BalanceAppend(p, a, c[..k - |a|]);
        assert a[..|a|] == a;
      }
    }
    forall p ensures Balance(p, a + c) <= m + n {
      BalanceAppend(p, a, c);
      HeadBalance(EndsOpen(p, a), Sym(','), b);
    }
  }

  lemma CommaBalance(b: seq<Token>, k: nat)
    requires 0 < k <= |b| + 1
    ensures forall p :: Balance(p, ([Sym(',')] + b)[..k]) == Balance(false, b[..k - 1])
  {
    PrefixOfCat([Sym(',')], b, k);
    forall p ensures Balance(p, ([Sym(',')] + b)[..k]) == Balance(false, b[..k - 1]) {
      HeadBalance(p, Sym(','), b[..k - 1]);
    }
  }

  /** Bracketed tokens: every part read from the front stays below zero, except perhaps the whole. */
  predicate Sinks(ts: seq<Token>, total: int) {
    Falls(ts, total) && forall k, p | 0 < k < |ts| :: Balance(p, ts[..k]) <= -1
  }

  lemma SinksBracketed(b: seq<Token>, n: int)
    requires Falls(b, n) && n <= 0
    ensures Sinks([Sym('[')] + (b + [Sym(']')]), n)
  {
    var o, e := [Sym('[')], b + [Sym(']')];
    var ts := o + e;
    forall k, p | 0 < k < |ts| ensures Balance(p, ts[..k]) <= -1 {
      PrefixOfCat(o, e, k);
      PrefixOfCat(b, [Sym(']')], k - 1);
      HeadBalance(p, Sym('['), b[..k - 1]);
      assert ts[..k] == o + b[..k - 1];
    }
    forall p ensures Balance(p, ts) <= n {
      HeadBalance(p, Sym('['), e);
      BalanceAppend(true, b, [Sym(']')]);
    }
    forall k, p | 0 <= k <= |ts| ensures Balance(p, ts[..k]) <= 0 {
      assert ts[..|ts|] == ts && ts[..0] == [];
    }
  }

  lemma SinksEmpty()
    ensures Sinks([Sym('['), Sym(']')], -1)
  {
    var ts := [Sym('['), Sym(']')];
    assert ts[1..] == [Sym(']')];
    forall k, p | 0 <= k <= |ts| ensures Balance(p, ts[..k]) <= if k == 0 then 0 else -1 {
      assert ts[..0] == [] && ts[..1] == [Sym('[')] && ts[..2] == ts;
    }
  }

  function Total(clean: bool): int {
    if clean then 0 else -1
  }

  /** A printed value never closes more than it opens, and a vector inside leaves it short of one bracket. */
  lemma {:induction false} ValueFalls(v: Value)
    requires Printable(v)
    ensures Falls(ValueTokens(v), Total(NoVector(v)))
    ensures v.kind == TsVector || v.kind == TsArray ==> Sinks(ValueTokens(v), Total(NoVector(v)))
    decreases v, 1
  {
    match v.kind
    case TsNumber =>
      FallsOne(Num(FormatG(v.num)));
    case TsString =>
      FallsOne(Str(v.str.value));
    case TsVector =>
      SinksEmpty();
    case TsArray =>
      ElemsFall(v.elems);
      SinksBracketed(ElemsTokens(v.elems), Total(NoVector(v)));
  }

  predicate NoVectors(vs: seq<Value>) {
    forall i | 0 <= i < |vs| :: NoVector(vs[i])
  }

  lemma {:induction false} ElemsFall(vs: seq<Value>)
    requires vs != [] && AllPrintable(vs)
    ensures Falls(ElemsTokens(vs), Total(NoVectors(vs)))
    decreases vs, 0
  {
    ValueFalls(vs[0]);
    if |vs| > 1 {
      ElemsFall(vs[1..]);
      var a, b := Total(NoVector(vs[0])), Total(NoVectors(vs[1..]));
      FallsCat(ValueTokens(vs[0]), a, ElemsTokens(vs[1..]), b);
      FallsAtMost(ElemsTokens(vs), a + b, Total(NoVectors(vs)));
    }
  }

  lemma FallsAtMost(ts: seq<Token>, m: int, n: int)
    requires Falls(ts, m) && m <= n
    ensures Falls(ts, n)
  {
  }

  // ---- trees ----

  predicate PrintableNode(t: Node) {
    && IsIdent(t.name)
    && PrintableAttrs(t.attrs)
    && (forall i | 0 <= i < |t.children| :: PrintableNode(t.children[i]))
  }

  predicate PrintableAttrs(attrs: seq<Attr>) {
    forall i | 0 <= i < |attrs| :: IsIdent(attrs[i].name) && Printable(attrs[i].val)
  }

  predicate PrintableNodes(ts: seq<Node>) {
    forall i | 0 <= i < |ts| :: PrintableNode(ts[i])
  }

  predicate CleanAttrs(attrs: seq<Attr>) {
    forall i | 0 <= i < |attrs| :: NoVector(attrs[i].val)
  }

  /** No vector anywhere in the tree. */
  predicate NoVectorNode(t: Node) {
    CleanAttrs(t.attrs) && forall i | 0 <= i < |t.children| :: NoVectorNode(t.children[i])
  }

  predicate CleanNodes(ts: seq<Node>) {
    forall i | 0 <= i < |ts| :: NoVectorNode(ts[i])
  }

  lemma {:induction false} PrintableIsSavable(t: Node)
    requires PrintableNode(t)
    ensures Savable(t) && LoadableNode(t)
    ensures NoVectorNode(t) ==> NodeVectorsAgree(t)
  {
    forall i | 0 <= i < |t.attrs| ensures NoVector(t.attrs[i].val) ==> VectorsAgree(t.attrs[i].val) {
      NoVectorAgrees(t.attrs[i].val);
    }
    forall i | 0 <= i < |t.children|
      ensures Savable(t.children[i]) && LoadableNode(t.children[i])
      ensures NoVectorNode(t.children[i]) ==> NodeVectorsAgree(t.children[i])
    {
      PrintableIsSavable(t.children[i]);
    }
  }

  lemma {:induction false} NoVectorAgrees(v: Value)
    ensures NoVector(v) ==> VectorsAgree(v)
  {
    if v.kind == TsArray {
      forall i | 0 <= i < |v.elems| ensures NoVector(v.elems[i]) ==> VectorsAgree(v.elems[i]) {
        NoVectorAgrees(v.elems[i]);
      }
    }
  }

  /** A name or a closing brace comes next. */
  predicate NameOrBrace(s: string) {
    Lex(s).tok.Id? || Lex(s).tok == Sym('}')
  }

  /** The text of an attribute with a vector in it cannot be read. */
  lemma AttrFails(a: Attr, level: nat, tail: string, attrs: seq<Attr>, children: seq<Node>)
    requires IsIdent(a.name) && Printable(a.val) && !NoVector(a.val) && NameOrBrace(tail)
    ensures ParseBody(AttrText(a, level) + tail, attrs, children) == Failed
  {
    AttrHeadReadBack(a, level, tail);
    ValueFails(a.val, tail);
    hide Printable, NoVector, ParseValue, AttrText, ValueText;
  }

  lemma ValueFails(v: Value, tail: string)
    requires Printable(v) && !NoVector(v) && NameOrBrace(tail)
    ensures var l := Lex(ValueText(v) + (['\n'] + tail)); l.tok != Eof && ParseValue(l.tok, l.rest) == Failed
  {
    var after := ['\n'] + tail;
    var s := ValueText(v) + after;
    TokensOfValue(v, after);
    LexSpace('\n', tail);
    SameLex(after, tail);
    ValueFalls(v);
    BracketedEnds(v);
    var x, z := ValueTokens(v), Tokens(tail);
    hide ParseValue, Balance, Printable, ValueTokens, ValueText;
    TokensStep(s, x, z);
    assert x == [x[0]] + x[1..];
    if ParseValue(x[0], Lex(s).rest).Parsed? {
      var c, y := ValueReach(x[0], Lex(s).rest, x[1..], z, false);
      Assoc([x[0]], c, y);
      StaysBelow([x[0]] + c, y);
      assert false;
    }
  }

  lemma StaysBelow(c: seq<Token>, y: seq<Token>)
    requires Sinks(c + y, -1) && c != []
    ensures Balance(false, c) <= -1
  {
    var x := c + y;
    assert x[..|c|] == c;
    if y == [] {
      AppendNil(c);
    }
  }

  lemma BracketedEnds(v: Value)
    requires Printable(v) && (v.kind == TsVector || v.kind == TsArray)
    requires Falls(ValueTokens(v), Total(NoVector(v)))
    ensures Closing(ValueTokens(v))
  {
  }

  lemma {:induction false} AttrsFail(as0: seq<Attr>, level: nat, tail: string, attrs: seq<Attr>, children: seq<Node>)
    requires PrintableAttrs(as0) && !CleanAttrs(as0) && NameOrBrace(tail)
    ensures ParseBody(AttrsText(as0, level) + tail, attrs, children) == Failed
  {
    var tail2 := AttrsText(as0[1..], level) + tail;
    Assoc(AttrText(as0[0], level), AttrsText(as0[1..], level), tail);
    AttrsNext(as0[1..], level, tail);
    if NoVector(as0[0].val) {
      NoVectorAgrees(as0[0].val);
      AttrReadBack(as0[0], level, tail2, attrs, children);
      AttrsFail(as0[1..], level, tail, attrs + [Attr(as0[0].name, Reloaded(as0[0].val))], children);
    } else {
      AttrFails(as0[0], level, tail2, attrs, children);
    }
  }

  lemma AttrsNext(attrs: seq<Attr>, level: nat, tail: string)
    requires PrintableAttrs(attrs) && NameOrBrace(tail)
    ensures NameOrBrace(AttrsText(attrs, level) + tail)
  {
    if attrs == [] {
      NilAppend(tail);
    } else {
      Assoc(AttrText(attrs[0], level), AttrsText(attrs[1..], level), tail);
      AttrHeadReadBack(attrs[0], level, AttrsText(attrs[1..], level) + tail);
    }
  }

  lemma ChildrenNext(ts: seq<Node>, level: nat, tail: string)
    requires PrintableNodes(ts) && (forall i | 0 <= i < |ts| :: Savable(ts[i])) && NameOrBrace(tail)
    ensures NameOrBrace(ChildrenText(ts, level) + tail)
  {
    if ts == [] {
      NilAppend(tail);
    } else {
      var tail2 := ChildrenText(ts[1..], level) + tail;
      Assoc(NodeText(ts[0], level), ChildrenText(ts[1..], level), tail);
      NodeTextParts(ts[0], level, tail2);
      HeadReadBack(ts[0], level, BodyText(ts[0], level) + tail2);
    }
  }

  lemma FootNext(level: nat, rest: string)
    ensures NameOrBrace(NodeFoot(level) + rest)
  {
    var after := ['}'] + ("\n" + rest);
    assert NodeFoot(level) + rest == Indent(level) + after;
    LexIndent(level, after);
    LexSym('}', "\n" + rest);
  }

  lemma {:induction false} BodyFails(t: Node, level: nat, rest: string)
    requires PrintableNode(t) && Savable(t) && !NoVectorNode(t)
    ensures ParseBody(BodyText(t, level) + rest, [], []) == Failed
    decreases t, 1
  {
    var foot := NodeFoot(level) + rest;
    var tail := ChildrenText(t.children, level + 1) + foot;
    BodyTextParts(t, level, rest);
    FootNext(level, rest);
    ChildrenNext(t.children, level + 1, foot);
    if CleanAttrs(t.attrs) {
      SoundClean(t);
      AttrsReadBack(t.attrs, level, tail, [], []);
      ChildrenFail(t.children, level + 1, foot, [] + ReloadedAttrs(t.attrs), []);
    } else {
      AttrsFail(t.attrs, level, tail, [], []);
    }
  }

  lemma SoundClean(t: Node)
    requires PrintableNode(t) && CleanAttrs(t.attrs)
    ensures SoundAttrs(t.attrs)
  {
    forall i | 0 <= i < |t.attrs| ensures VectorsAgree(t.attrs[i].val) {
      NoVectorAgrees(t.attrs[i].val);
    }
  }

  lemma {:induction false} ChildFails(t: Node, level: nat, tail: string, attrs: seq<Attr>, children: seq<Node>)
    requires PrintableNode(t) && Savable(t) && !NoVectorNode(t)
    ensures ParseBody(NodeText(t, level) + tail, attrs, children) == Failed
    decreases t, 2
  {
    hide Lex;
    var body := BodyText(t, level) + tail;
    NodeTextParts(t, level, tail);
    HeadReadBack(t, level, body);
    LexSpace('\n', body);
    ParseBodySkips("\n" + body, body, [], []);
    BodyFails(t, level, tail);
  }

  lemma {:induction false} ChildrenFail(ts: seq<Node>, level: nat, tail: string, attrs: seq<Attr>, children: seq<Node>)
    requires PrintableNodes(ts) && (forall i | 0 <= i < |ts| :: Savable(ts[i])) && !CleanNodes(ts)
    ensures ParseBody(ChildrenText(ts, level) + tail, attrs, children) == Failed
    decreases ts, 0
  {
    hide ParseBody, NodeText, Savable, LoadableNode, NodeVectorsAgree, PrintableNode, NoVectorNode;
    var tail2 := ChildrenText(ts[1..], level) + tail;
    Assoc(NodeText(ts[0], level), ChildrenText(ts[1..], level), tail);
    if NoVectorNode(ts[0]) {
      PrintableIsSavable(ts[0]);
      ChildReadBack(ts[0], level, tail2, attrs, children);
      ChildrenFail(ts[1..], level, tail, attrs, children + [ReloadedNode(ts[0])]);
    } else {
      ChildFails(ts[0], level, tail2, attrs, children);
    }
  }

  // ---- what loading leaves behind ----

  lemma {:induction false} CopyUnrecorded(v: Value)
    requires Unrecorded(v)
    ensures Unrecorded(CopyValue(v))
  {
    var c := CopyValue(v);
    forall i | 0 <= i < |c.elems| ensures Unrecorded(c.elems[i]) {
      CopyUnrecorded(v.elems[i]);
    }
  }

  predicate AllUnrecorded(vs: seq<Value>) {
    forall i | 0 <= i < |vs| :: Unrecorded(vs[i])
  }

  lemma ArrUnrecorded(vs: seq<Value>)
    requires AllUnrecorded(vs)
    ensures Unrecorded(ArrValue(vs))
  {
    forall i | 0 <= i < |vs| ensures Unrecorded(CopyValues(vs)[i]) {
      CopyUnrecorded(vs[i]);
    }
  }

  lemma {:induction false} ParsedValueUnrecorded(tok: Token, s: string)
    requires tok != Eof
    ensures var r := ParseValue(tok, s); r.Parsed? ==> Unrecorded(r.value)
    decreases |s|, 1
  {
    if tok == Sym('[') {
      ParsedArrayUnrecorded(s, ']', []);
    } else if tok == Sym('{') {
      ParsedArrayUnrecorded(s, '}', []);
    }
  }

  lemma {:induction false} ParsedArrayUnrecorded(s: string, endSym: char, acc: seq<Value>)
    requires AllUnrecorded(acc)
    ensures var r := ParseArray(s, endSym, acc); r.Parsed? ==> Unrecorded(r.value)
    decreases |s|, 0
  {
    hide Lex, Unrecorded, ParseValue;
    var l := Lex(s);
    ArrUnrecorded(acc);
    if l.tok != Eof {
      ParsedValueUnrecorded(l.tok, l.rest);
      var v := ParseValue(l.tok, l.rest);
      if v.Parsed? {
        var acc2 := if |acc| < MAX_ELEMS then acc + [v.value] else acc;
        var sep := Lex(v.rest);
        ArrUnrecorded(acc2);
        if sep.tok == Sym(',') {
          ParsedArrayUnrecorded(sep.rest, endSym, acc2);
        }
      }
    }
  }

  predicate UnrecordedAttrs(attrs: seq<Attr>) {
    forall i | 0 <= i < |attrs| :: Unrecorded(attrs[i].val)
  }

  predicate UnrecordedNode(t: Node) {
    UnrecordedAttrs(t.attrs) && forall i | 0 <= i < |t.children| :: UnrecordedNode(t.children[i])
  }

  predicate UnrecordedNodes(ts: seq<Node>) {
    forall i | 0 <= i < |ts| :: UnrecordedNode(ts[i])
  }

  lemma {:induction false} ParsedBodyUnrecorded(s: string, attrs: seq<Attr>, children: seq<Node>)
    requires UnrecordedAttrs(attrs) && UnrecordedNodes(children)
    ensures var r := ParseBody(s, attrs, children); r.Parsed? ==> UnrecordedNode(r.value)
    decreases |s|
  {
    var l := Lex(s);
    var m := Lex(l.rest);
    if l.tok.Id? && m.tok == Sym('=') {
      var n := Lex(m.rest);
      if n.tok != Eof {
        ParsedValueUnrecorded(n.tok, n.rest);
        var v := ParseValue(n.tok, n.rest);
        if v.Parsed? {
          ParsedBodyUnrecorded(v.rest, attrs + [Attr(l.tok.text, v.value)], children);
        }
      }
    } else if l.tok.Id? && m.tok == Sym('{') {
      ParsedBodyUnrecorded(m.rest, [], []);
      var c := ParseBody(m.rest, [], []);
      if c.Parsed? {
        ParsedBodyUnrecorded(c.rest, attrs, children + [c.value.(name := l.tok.text)]);
      }
    }
  }

  lemma {:induction false} LoadedIsPrintable(t: Node)
    requires Savable(t) && LoadableNode(t) && UnrecordedNode(t)
    ensures PrintableNode(t)
  {
    assert forall i | 0 <= i < |t.attrs| :: LoadableAttr(t.attrs[i]) ==> IsIdent(t.attrs[i].name);
    forall i | 0 <= i < |t.children| ensures PrintableNode(t.children[i]) {
      LoadedIsPrintable(t.children[i]);
    }
  }

  /**
   Whatever text a tree was loaded from, if it can be printed then saving it and
   loading again gives the same tree when it contains no vector, and fails when it does.
   */
  lemma ResaveExact(s: string, level: nat, rest: string)
    requires Load(s).Parsed? && Savable(Load(s).value)
    ensures var t := Load(s).value;
            var r := Load(NodeText(t, level) + rest);
            && (r.Parsed? <==> NoVectorNode(t))
            && (r.Parsed? ==> ViewNode(r.value) == ViewNode(t) && r.rest == "\n" + rest)
  {
    var t := Load(s).value;
    LoadedIsLoadable(s);
    ParsedBodyUnrecorded(Lex(Lex(s).rest).rest, [], []);
    LoadedIsPrintable(t);
    PrintableIsSavable(t);
    if NoVectorNode(t) {
      LoadAfterSave(t, level, rest);
    } else {
      ResaveFails(t, level, rest);
    }
  }

  lemma ResaveFails(t: Node, level: nat, rest: string)
    requires PrintableNode(t) && Savable(t) && !NoVectorNode(t)
    ensures Load(NodeText(t, level) + rest) == Failed
  {
    var body := BodyText(t, level) + rest;
    NodeTextParts(t, level, rest);
    HeadReadBack(t, level, body);
    LexSpace('\n', body);
    ParseBodySkips("\n" + body, body, [], []);
    BodyFails(t, level, rest);
  }

  // ---- two rounds ----

  lemma {:induction false} CopySavable(v: Value)
    requires SavableValue(v) && Loadable(v) && Unrecorded(v)
    ensures SavableValue(CopyValue(v))
  {
    if v.kind == TsArray {
      forall i | 0 <= i < |v.elems| ensures SavableValue(CopyValue(v).elems[i]) {
        CopySavable(v.elems[i]);
      }
    }
  }

  lemma {:induction false} ReloadedPrintable(v: Value)
    requires SavableValue(v) && VectorsAgree(v) && Loadable(v)
    ensures Printable(Reloaded(v)) && NoVector(Reloaded(v)) == NoVector(v)
  {
    if v.kind == TsVector || v.kind == TsArray {
      var rs := ReloadedAll(v.elems);
      forall i | 0 <= i < |rs| ensures Printable(rs[i]) && NoVector(rs[i]) == NoVector(v.elems[i]) {
        ElemAgrees(v, i);
        ReloadedPrintable(v.elems[i]);
      }
      ReloadedKinds(v.elems);
      hide SavableValue, Printable, VectorsAgree;
      ArrPrintable(rs);
    }
  }

  lemma ElemAgrees(v: Value, i: nat)
    requires SavableValue(v) && VectorsAgree(v) && (v.kind == TsVector || v.kind == TsArray) && i < |v.elems|
    ensures SavableValue(v.elems[i]) && VectorsAgree(v.elems[i])
  {
    if v.kind == TsVector {
      VectorSavable(v);
    }
  }

  lemma ArrPrintable(vs: seq<Value>)
    requires AllPrintable(vs) && 2 <= |vs| <= MAX_ELEMS
    ensures Printable(ArrValue(vs))
    ensures NoVector(ArrValue(vs)) <==> !AllNumbers(vs) && NoVectors(vs)
  {
    var a := ArrValue(vs);
    ArrValueView(vs);
    ArrUnrecorded(vs);
    forall i | 0 <= i < |vs| ensures SavableValue(a.elems[i]) && NoVector(a.elems[i]) == NoVector(vs[i]) {
      CopySavable(vs[i]);
      CopyNoVector(vs[i]);
    }
  }

  lemma {:induction false} CopyNoVector(v: Value)
    ensures NoVector(CopyValue(v)) == NoVector(v)
  {
    forall i | 0 <= i < |v.elems| ensures NoVector(CopyValue(v).elems[i]) == NoVector(v.elems[i]) {
      CopyNoVector(v.elems[i]);
    }
  }

  lemma {:induction false} ReloadedNodePrintable(t: Node)
    requires Savable(t) && NodeVectorsAgree(t) && LoadableNode(t)
    ensures PrintableNode(ReloadedNode(t)) && NoVectorNode(ReloadedNode(t)) == NoVectorNode(t)
  {
    var r := ReloadedNode(t);
    forall i | 0 <= i < |t.attrs|
      ensures Printable(r.attrs[i].val) && IsIdent(r.attrs[i].name)
      ensures NoVector(r.attrs[i].val) == NoVector(t.attrs[i].val)
    {
      assert LoadableAttr(t.attrs[i]);
      ReloadedPrintable(t.attrs[i].val);
    }
    forall i | 0 <= i < |t.children|
      ensures PrintableNode(r.children[i]) && NoVectorNode(r.children[i]) == NoVectorNode(t.children[i])
    {
      ReloadedNodePrintable(t.children[i]);
    }
  }

  /** An expressible tree survives saving and loading twice if and only if it contains no vector. */
  lemma TwoRounds(t: Node, level: nat, rest: string)
    requires Savable(t) && NodeVectorsAgree(t) && LoadableNode(t)
    ensures var r := Load(NodeText(t, level) + rest);
            && r.Parsed? && Savable(r.value)
            && (Load(NodeText(r.value, level) + rest).Parsed? <==> NoVectorNode(t))
  {
    LoadOfSaved(t, level, rest);
    ReloadedNodePrintable(t);
    PrintableIsSavable(ReloadedNode(t));
    ResaveExact(NodeText(t, level) + rest, level, rest);
  }

  /** One attribute with the vector `[1, 2]`. */
  const ONE_PAIR :=
    Node("a", [Attr("v", Value(TsVector, None, 0.0, [1.0, 2.0], 2, [NumValue(1.0), NumValue(2.0)]))], [])

  lemma PairIsGood()
    ensures Savable(ONE_PAIR) && NodeVectorsAgree(ONE_PAIR) && LoadableNode(ONE_PAIR) && !NoVectorNode(ONE_PAIR)
  {
    assert Fits(1.0, 0) && Fits(2.0, 0);
    assert GExact(1.0) && GExact(2.0);
    assert !NoVector(ONE_PAIR.attrs[0].val);
  }

  /** A tree that is lost in the second round. */
  lemma PairIsLost()
    ensures Savable(ONE_PAIR) && NodeVectorsAgree(ONE_PAIR) && LoadableNode(ONE_PAIR)
    ensures var r := Load(NodeText(ONE_PAIR, 0) + "");
            && r.Parsed? && ViewNode(r.value) == ViewNode(ONE_PAIR) && Savable(r.value)
            && Load(NodeText(r.value, 0) + "") == Failed
  {
    PairIsGood();
    hide *;
    TwoRounds(ONE_PAIR, 0, "");
    LoadAfterSave(ONE_PAIR, 0, "");
  }
}
