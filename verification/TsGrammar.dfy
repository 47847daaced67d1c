/**
 The language of the loader: what a text must look like to be loaded, and what it means.
 A grammar of its own, with no parsing in it, and the proof that the loader accepts exactly
 its sentences.
 */
module TsGrammar {
  import opened Ctype
  import opened Seqs
  import opened TsTree
  import opened TsNumber
  import opened TsLexer
  import opened TsParser
  import opened TsView
  import opened TsRoundTrip

  // ---- tokens ----

  predicate ContinuesNumber(text: string, rest: string) {
    rest != "" && (IsDigit(rest[0]) || (rest[0] == '.' && '.' !in text))
  }

  /** The token is the longest one of its kind at the front of the text. */
  predicate TokenOf(t: string, tok: Token, rest: string) {
    match tok
    case Eof => (t == "" || (t[0] == '"' && '"' !in t[1..])) && rest == ""
    case Num(text) => t == text + rest && NumberToken(text) && !ContinuesNumber(text, rest)
    case Id(text) => t == text + rest && IsIdent(text) && EndsId(rest)
    case Str(text) => t == "\"" + text + "\"" + rest && '"' !in text
    case Sym(c) => t == [c] + rest && c != '"' && !IsAlpha(c) && !IsNumberStart(c)
  }

  lemma {:induction false} NumSpanExact(s: string, dot: bool)
    ensures var n := NumSpan(s, dot);
            && NumberTail(s[..n]) && (dot ==> '.' !in s[..n])
            && (n < |s| ==> !IsDigit(s[n]) && (s[n] == '.' ==> dot || '.' in s[..n]))
  {
    if s != "" && (IsDigit(s[0]) || (s[0] == '.' && !dot)) {
      var n, m := NumSpan(s, dot), NumSpan(s[1..], dot || s[0] == '.');
      NumSpanExact(s[1..], dot || s[0] == '.');
      assert n == m + 1 && s[..n] == [s[0]] + s[1..][..m];
      assert forall i | 1 <= i < n :: s[..n][i] == s[1..][..m][i - 1];
      assert n < |s| ==> s[n] == s[1..][m];
    }
  }

  lemma {:induction false} IdSpanExact(s: string)
    ensures IdSpan(s) < |s| ==> !IsIdChar(s[IdSpan(s)])
  {
    if s != "" && IsIdChar(s[0]) {
      IdSpanExact(s[1..]);
    }
  }

  /** Every text has its first token, and what it leaves, by that rule. */
  lemma LexExact(s: string)
    ensures TokenOf(SkipBlanks(s), Lex(s).tok, Lex(s).rest)
  {
    var t := SkipBlanks(s);
    if t != "" {
      if IsNumberStart(t[0]) {
        NumberFirst(t);
      } else if IsAlpha(t[0]) {
        WordFirst(t);
      } else if t[0] == '"' {
        QuoteFirst(t);
      } else {
        assert t == [t[0]] + t[1..];
      }
    }
    hide TokenOf;
  }

  lemma NumberFirst(t: string)
    requires t != "" && IsNumberStart(t[0])
    ensures TokenOf(t, LexAt(t).tok, LexAt(t).rest)
  {
    var u, n := t[1..], NumSpan(t[1..], false);
    var text := [t[0]] + u[..n];
    NumSpanExact(u, false);
    hide NumSpan;
    assert text[1..] == u[..n] && t == text + u[n..];
  }

  lemma WordFirst(t: string)
    requires t != "" && IsAlpha(t[0])
    ensures TokenOf(t, LexAt(t).tok, LexAt(t).rest)
  {
    var u, n := t[1..], IdSpan(t[1..]);
    var text := [t[0]] + u[..n];
    IdSpanExact(u);
    hide IdSpan;
    assert t == text + u[n..];
    assert forall i | 1 <= i < |text| :: text[i] == u[i - 1];
  }

  lemma QuoteFirst(t: string)
    requires t != "" && t[0] == '"'
    ensures TokenOf(t, LexAt(t).tok, LexAt(t).rest)
  {
    var u, n := t[1..], QuoteSpan(t[1..]);
    hide QuoteSpan;
    if n < |u| {
      assert t == "\"" + u[..n] + "\"" + u[n + 1..];
    } else {
      assert u[..n] == u;
    }
  }

  /** A comment goes up to the end of its line. */
  lemma {:induction false} CommentEnds(c: string, rest: string)
    requires '\n' !in c
    ensures AfterLine(c + ("\n" + rest)) == rest && AfterLine(c) == ""
  {
    if c == "" {
      NilAppend("\n" + rest);
    } else {
      DropFirst(c, "\n" + rest);
      CommentEnds(c[1..], rest);
    }
  }

  /** Behind a comment comes the token that would be there without it; one without an end is the end of the text. */
  lemma CommentSkipped(c: string, rest: string)
    requires '\n' !in c
    ensures Lex("#" + (c + ("\n" + rest))) == Lex(rest)
    ensures Lex("#" + c) == Lexed(Eof, "")
  {
    CommentEnds(c, rest);
    assert ("#" + (c + ("\n" + rest)))[1..] == c + ("\n" + rest);
    assert ("#" + c)[1..] == c;
  }

  /** Letters, digits and underscores behind a letter are one word. */
  lemma WordWithUnderscore(a: string, b: string, rest: string)
    requires a != "" && IsAlpha(a[0]) && (forall i | 0 <= i < |a| :: IsAlnum(a[i]))
    requires (forall i | 0 <= i < |b| :: IsAlnum(b[i])) && (rest == "" || (!IsAlnum(rest[0]) && rest[0] != '_'))
    ensures Lex(a + "_" + b + rest) == Lexed(Id(a + "_" + b), rest)
  {
    var w := a + "_" + b;
    assert forall i | 0 <= i < |w| :: w[i] == if i < |a| then a[i] else if i == |a| then '_' else b[i - |a| - 1];
    assert IsIdent(w) && EndsId(rest);
    LexIdent(w, rest);
  }

  /** The tokens stand at the front of the text, in order, and `rest` is what is behind them. */
  predicate Reads(s: string, toks: seq<Token>, rest: string)
    decreases |toks|
  {
    if toks == [] then rest == s
    else toks[0] != Eof && Lex(s).tok == toks[0] && Reads(Lex(s).rest, toks[1..], rest)
  }

  /** What is behind the first `n` tokens. */
  function Behind(s: string, n: nat): string
    decreases n
  {
    if n == 0 then s else Behind(Lex(s).rest, n - 1)
  }

  lemma {:induction false} ReadsSplit(s: string, a: seq<Token>, b: seq<Token>, rest: string)
    requires Reads(s, a + b, rest)
    ensures Reads(s, a, Behind(s, |a|)) && Reads(Behind(s, |a|), b, rest)
    decreases |a|
  {
    if a == [] {
      NilAppend(b);
    } else {
      DropFirst(a, b);
      ReadsSplit(Lex(s).rest, a[1..], b, rest);
    }
  }

  lemma {:induction false} ReadsJoin(s: string, a: seq<Token>, mid: string, b: seq<Token>, rest: string)
    requires Reads(s, a, mid) && Reads(mid, b, rest)
    ensures Reads(s, a + b, rest)
    decreases |a|
  {
    if a == [] {
      NilAppend(b);
    } else {
      DropFirst(a, b);
      ReadsJoin(Lex(s).rest, a[1..], mid, b, rest);
    }
  }

  lemma ReadsOne(s: string, tok: Token, rest: string)
    ensures Reads(s, [tok], rest) <==> tok != Eof && Lex(s) == Lexed(tok, rest)
  {
    assert [tok][1..] == [];
  }

  // ---- the grammar ----

  /** A value is one token, or values between brackets with commas between them. */
  datatype Syntax = Word(tok: Token) | List(open: char, elems: seq<Syntax>)

  /** What can stand in the body of a node. */
  datatype Item = AttrItem(name: string, val: Syntax) | ChildItem(name: string, items: seq<Item>)

  /** Any token but an opening bracket is a value by itself; a list has two elements or more. */
  predicate WellFormed(d: Syntax) {
    match d
    case Word(tok) => tok != Eof && tok != Sym('[') && tok != Sym('{')
    case List(open, elems) => (open == '[' || open == '{') && |elems| >= 2 && AllWellFormed(elems)
  }

  predicate AllWellFormed(ds: seq<Syntax>) {
    forall i | 0 <= i < |ds| :: WellFormed(ds[i])
  }

  predicate ItemOk(it: Item) {
    match it
    case AttrItem(_, val) => WellFormed(val)
    case ChildItem(_, items) => forall i | 0 <= i < |items| :: ItemOk(items[i])
  }

  predicate ItemsOk(items: seq<Item>) {
    forall i | 0 <= i < |items| :: ItemOk(items[i])
  }

  function Close(open: char): char {
    if open == '[' then ']' else '}'
  }

  function Spell(d: Syntax): (toks: seq<Token>)
    ensures toks != []
    decreases d, 0
  {
    match d
    case Word(tok) => [tok]
    case List(open, elems) => [Sym(open)] + (SpellElems(elems) + [Sym(Close(open))])
  }

  function SpellElems(ds: seq<Syntax>): seq<Token>
    decreases ds, 1
  {
    if ds == [] then []
    else if |ds| == 1 then Spell(ds[0])
    else Spell(ds[0]) + ([Sym(',')] + SpellElems(ds[1..]))
  }

  function SpellItem(it: Item): (toks: seq<Token>)
    decreases it, 0
  {
    match it
    case AttrItem(name, val) => [Id(name), Sym('=')] + Spell(val)
    case ChildItem(name, items) => [Id(name), Sym('{')] + (SpellItems(items) + [Sym('}')])
  }

  function SpellItems(items: seq<Item>): seq<Token>
    decreases items, 1
  {
    if items == [] then [] else SpellItem(items[0]) + SpellItems(items[1..])
  }

  // ---- what it means ----

  /** A list keeps its first 31 elements; a symbol alone is the null string. */
  function Meaning(d: Syntax): Value
    decreases d, 0
  {
    match d
    case Word(tok) =>
      (match tok
       case Num(text) => NumValue(Atof(text))
       case Id(text) => StrValue(CString(text))
       case Str(text) => StrValue(CString(text))
       case _ => INIT_VALUE)
    case List(_, elems) => ArrValue(Kept(Meanings(elems)))
  }

  function Meanings(ds: seq<Syntax>): (vs: seq<Value>)
    ensures |vs| == |ds| && forall i | 0 <= i < |ds| :: vs[i] == Meaning(ds[i])
    decreases ds, 1
  {
    if ds == [] then [] else [Meaning(ds[0])] + Meanings(ds[1..])
  }

  function Kept(vs: seq<Value>): seq<Value> {
    if |vs| <= MAX_ELEMS then vs else vs[..MAX_ELEMS]
  }

  /** The attributes among the items, in order. */
  function AttrsOf(items: seq<Item>): seq<Attr> {
    if items == [] then []
    else (if items[0].AttrItem? then [Attr(items[0].name, Meaning(items[0].val))] else []) + AttrsOf(items[1..])
  }

  /** The children among the items, in order. */
  function ChildrenOf(items: seq<Item>): seq<Node>
    decreases items, 1
  {
    if items == [] then []
    else (if items[0].ChildItem? then [NodeOf(items[0].name, items[0].items)] else []) + ChildrenOf(items[1..])
  }

  function NodeOf(name: string, items: seq<Item>): Node
    decreases items, 2
  {
    Node(name, AttrsOf(items), ChildrenOf(items))
  }

  // ---- sentences are read as what they mean ----

  /** A value that is spelled at the front of a text is read up to its end. */
  lemma {:induction false} SyntaxParses(d: Syntax, s: string, rest: string)
    requires WellFormed(d) && Reads(s, Spell(d), rest)
    ensures Lex(s).tok == Spell(d)[0] != Eof && ParseValue(Lex(s).tok, Lex(s).rest) == Parsed(Meaning(d), rest)
    decreases d, 0
  {
    match d
    case Word(tok) =>
      ReadsOne(s, tok, rest);
    case List(open, elems) =>
      var body := SpellElems(elems) + [Sym(Close(open))];
      DropFirst([Sym(open)], body);
      NilAppend(body);
      assert ([Sym(open)] + body)[0] == Sym(open);
      var s2 := Lex(s).rest;
      ReadsSplit(s2, SpellElems(elems), [Sym(Close(open))], rest);
      var mid := Behind(s2, |SpellElems(elems)|);
      ReadsOne(mid, Sym(Close(open)), rest);
      ElemsParse(elems, s2, mid, Close(open), []);
      NilAppend(Meanings(elems));
  }

  /** One turn of the array loop, after its element was read. */
  lemma ElemParsed(s: string, close: char, acc: seq<Value>, v: Value, mid: string)
    requires Lex(s).tok != Eof && ParseValue(Lex(s).tok, Lex(s).rest) == Parsed(v, mid) && |acc| <= MAX_ELEMS
    ensures var all, sep := Kept(acc + [v]), Lex(mid);
            ParseArray(s, close, acc) ==
              if sep.tok == Sym(close) then FinishArray(all, sep.rest)
              else if sep.tok == Sym(',') then ParseArray(sep.rest, close, all)
              else Failed
  {
    KeptOne(acc, v);
    hide Lex, FinishArray, Kept, ParseValue;
  }

  /** The elements of a list are added to those already there, and the symbol behind them decides. */
  lemma {:induction false} ElemsParse(ds: seq<Syntax>, s: string, mid: string, close: char, acc: seq<Value>)
    requires ds != [] && AllWellFormed(ds) && Reads(s, SpellElems(ds), mid) && |acc| <= MAX_ELEMS && close != ','
    ensures var all, sep := Kept(acc + Meanings(ds)), Lex(mid);
            ParseArray(s, close, acc) ==
              if sep.tok == Sym(close) then FinishArray(all, sep.rest)
              else if sep.tok == Sym(',') then ParseArray(sep.rest, close, all)
              else Failed
    decreases ds, 1
  {
    hide WellFormed, ParseValue, Lex, FinishArray, Kept;
    var v := Meaning(ds[0]);
    if |ds| == 1 {
      SyntaxParses(ds[0], s, mid);
      ElemParsed(s, close, acc, v, mid);
      assert Meanings(ds) == [v];
      hide ParseArray;
    } else {
      var comma := [Sym(',')] + SpellElems(ds[1..]);
      ReadsSplit(s, Spell(ds[0]), comma, mid);
      var m := Behind(s, |Spell(ds[0])|);
      SyntaxParses(ds[0], s, m);
      ElemParsed(s, close, acc, v, m);
      CommaRead(m, SpellElems(ds[1..]), mid);
      KeptMore(acc, v, Meanings(ds[1..]));
      KeptBound(acc + [v]);
      ElemsParse(ds[1..], Lex(m).rest, mid, close, Kept(acc + [v]));
      assert Meanings(ds) == [v] + Meanings(ds[1..]);
      hide ParseArray, Reads, Spell, SpellElems;
    }
  }

  lemma KeptBound(vs: seq<Value>)
    ensures |Kept(vs)| <= MAX_ELEMS
  {
  }

  lemma CommaRead(m: string, toks: seq<Token>, rest: string)
    requires Reads(m, [Sym(',')] + toks, rest)
    ensures Lex(m).tok == Sym(',') && Reads(Lex(m).rest, toks, rest)
  {
    DropFirst([Sym(',')], toks);
    NilAppend(toks);
    assert ([Sym(',')] + toks)[0] == Sym(',');
  }

  lemma KeptOne(acc: seq<Value>, v: Value)
    requires |acc| <= MAX_ELEMS
    ensures Kept(acc + [v]) == if |acc| < MAX_ELEMS then acc + [v] else acc
  {
  }

  lemma KeptMore(acc: seq<Value>, v: Value, vs: seq<Value>)
    requires |acc| <= MAX_ELEMS
    ensures Kept(Kept(acc + [v]) + vs) == Kept(acc + ([v] + vs))
  {
    Assoc(acc, [v], vs);
  }

  /** A list that the end of the text cuts off behind a comma counts as closed there. */
  lemma UnfinishedList(ds: seq<Syntax>, s: string, mid: string, close: char)
    requires ds != [] && AllWellFormed(ds) && Reads(s, SpellElems(ds), mid) && close != ','
    requires Lex(mid).tok == Sym(',') && Lex(Lex(mid).rest).tok == Eof
    ensures ParseArray(s, close, []) == FinishArray(Kept(Meanings(ds)), "")
  {
    hide ParseArray, Kept, FinishArray;
    ElemsParse(ds, s, mid, close, []);
    NilAppend(Meanings(ds));
    TextEnds(Lex(mid).rest, close, Kept(Meanings(ds)));
  }

  lemma TextEnds(s: string, close: char, acc: seq<Value>)
    requires Lex(s).tok == Eof
    ensures ParseArray(s, close, acc) == FinishArray(acc, "")
  {
    LexExact(s);
    hide Lex, FinishArray;
  }

  /** The items of a body are added to the attributes and children already there, in order. */
  lemma {:induction false} ItemsParse(items: seq<Item>, s: string, rest: string, attrs: seq<Attr>, children: seq<Node>)
    requires ItemsOk(items) && Reads(s, SpellItems(items) + [Sym('}')], rest)
    ensures ParseBody(s, attrs, children)
         == Parsed(Node("", attrs + AttrsOf(items), children + ChildrenOf(items)), rest)
    decreases items, 0
  {
    if items == [] {
      NilAppend([Sym('}')]);
      ReadsOne(s, Sym('}'), rest);
      AppendNil(attrs);
      AppendNil(children);
    } else {
      hide ItemOk;
      var it, more := items[0], SpellItems(items[1..]) + [Sym('}')];
      Assoc(SpellItem(it), SpellItems(items[1..]), [Sym('}')]);
      ReadsSplit(s, SpellItem(it), more, rest);
      var m := Behind(s, |SpellItem(it)|);
      match it {
        case AttrItem(name, val) =>
          AttrParses(name, val, s, m, attrs, children);
          ItemsParse(items[1..], m, rest, attrs + [Attr(name, Meaning(val))], children);
          Assoc(attrs, [Attr(name, Meaning(val))], AttrsOf(items[1..]));
          NilAppend(ChildrenOf(items[1..]));
        case ChildItem(name, inner) =>
          ChildParses(name, inner, s, m, attrs, children);
          ItemsParse(items[1..], m, rest, attrs, children + [NodeOf(name, inner)]);
          Assoc(children, [NodeOf(name, inner)], ChildrenOf(items[1..]));
          NilAppend(AttrsOf(items[1..]));
      }
      hide ParseBody, Reads, SpellItem, SpellItems, Meaning, NodeOf;
    }
  }

  lemma AttrParses(name: string, val: Syntax, s: string, m: string, attrs: seq<Attr>, children: seq<Node>)
    requires ItemOk(AttrItem(name, val)) && Reads(s, SpellItem(AttrItem(name, val)), m)
    ensures ParseBody(s, attrs, children) == ParseBody(m, attrs + [Attr(name, Meaning(val))], children)
  {
    var v := HeadRead(s, name, '=', Spell(val), m);
    SyntaxParses(val, v, m);
    hide Lex, ParseValue, Spell, Meaning, Reads;
  }

  lemma {:induction false} ChildParses(
      name: string, items: seq<Item>, s: string, m: string, attrs: seq<Attr>, children: seq<Node>)
    requires ItemOk(ChildItem(name, items)) && Reads(s, SpellItem(ChildItem(name, items)), m)
    ensures ParseBody(s, attrs, children) == ParseBody(m, attrs, children + [NodeOf(name, items)])
    decreases ChildItem(name, items), 1
  {
    var v := HeadRead(s, name, '{', SpellItems(items) + [Sym('}')], m);
    ItemsParse(items, v, m, [], []);
    NilAppend(AttrsOf(items));
    NilAppend(ChildrenOf(items));
    hide Lex, SpellItems, Reads, AttrsOf, ChildrenOf;
  }

  /** A name and the symbol behind it. */
  lemma HeadRead(s: string, name: string, c: char, toks: seq<Token>, rest: string) returns (m: string)
    requires Reads(s, [Id(name), Sym(c)] + toks, rest)
    ensures Lex(s).tok == Id(name) && Lex(Lex(s).rest) == Lexed(Sym(c), m) && Reads(m, toks, rest)
  {
    m := Behind(s, 2);
    ReadsSplit(s, [Id(name), Sym(c)], toks, rest);
    assert [Id(name), Sym(c)][1..] == [Sym(c)];
    ReadsOne(Lex(s).rest, Sym(c), m);
  }

  // ---- what is read is a sentence ----

  /** A value that was read, with more text behind it, is spelled there. */
  lemma {:induction false} ValueHasSyntax(tok: Token, s: string, r: string, rest: string) returns (d: Syntax)
    requires Lex(r) == Lexed(tok, s) && tok != Eof
    requires ParseValue(tok, s).Parsed? && ParseValue(tok, s).rest == rest && Lex(rest).tok != Eof
    ensures WellFormed(d) && Reads(r, Spell(d), rest) && Meaning(d) == ParseValue(tok, s).value
    decreases |s|, 1
  {
    if tok == Sym('[') || tok == Sym('{') {
      var elems := ArrayHasSyntax(s, Close(tok.c), [], rest);
      d := List(tok.c, elems);
      NilAppend(Meanings(elems));
      ReadsOne(r, tok, s);
      ReadsJoin(r, [tok], s, SpellElems(elems) + [Sym(Close(tok.c))], rest);
    } else {
      d := Word(tok);
      ReadsOne(r, tok, rest);
    }
  }

  lemma {:induction false} ArrayHasSyntax(s: string, close: char, acc: seq<Value>, rest: string)
      returns (ds: seq<Syntax>)
    requires |acc| <= MAX_ELEMS
    requires ParseArray(s, close, acc).Parsed? && ParseArray(s, close, acc).rest == rest && Lex(rest).tok != Eof
    ensures ds != [] && AllWellFormed(ds) && Reads(s, SpellElems(ds) + [Sym(close)], rest)
    ensures |acc + Meanings(ds)| >= 2 && ParseArray(s, close, acc).value == ArrValue(Kept(acc + Meanings(ds)))
    decreases |s|, 0
  {
    NothingLeft(s, close, acc);
    var l := Lex(s);
    var v := ParseValue(l.tok, l.rest);
    var sep := Lex(v.rest);
    var d := ValueHasSyntax(l.tok, l.rest, s, v.rest);
    KeptOne(acc, v.value);
    if sep.tok == Sym(close) {
      ds := [d];
      assert Meanings(ds) == [v.value];
      ReadsOne(v.rest, sep.tok, rest);
      ReadsJoin(s, Spell(d), v.rest, [Sym(close)], rest);
    } else {
      KeptBound(acc + [v.value]);
      var more := ArrayHasSyntax(sep.rest, close, Kept(acc + [v.value]), rest);
      ds := [d] + more;
      MoreElems(d, more, s, v.rest, sep.rest, close, rest);
      assert Meanings(ds) == [v.value] + Meanings(more);
      KeptMore(acc, v.value, Meanings(more));
    }
  }

  /** An array loop that succeeds with text left behind it has read an element and a separator. */
  lemma NothingLeft(s: string, close: char, acc: seq<Value>)
    requires ParseArray(s, close, acc).Parsed? && Lex(ParseArray(s, close, acc).rest).tok != Eof
    ensures Lex(s).tok != Eof && ParseValue(Lex(s).tok, Lex(s).rest).Parsed?
    ensures var sep := Lex(ParseValue(Lex(s).tok, Lex(s).rest).rest); sep.tok == Sym(close) || sep.tok == Sym(',')
  {
    LexExact(s);
    assert Lex("").tok == Eof;
  }

  lemma MoreElems(d: Syntax, ds: seq<Syntax>, s: string, m: string, n: string, close: char, rest: string)
    requires ds != [] && Reads(s, Spell(d), m) && Lex(m) == Lexed(Sym(','), n)
    requires Reads(n, SpellElems(ds) + [Sym(close)], rest)
    ensures Reads(s, SpellElems([d] + ds) + [Sym(close)], rest)
  {
    var tail := SpellElems(ds) + [Sym(close)];
    ReadsOne(m, Sym(','), n);
    ReadsJoin(m, [Sym(',')], n, tail, rest);
    ReadsJoin(s, Spell(d), m, [Sym(',')] + tail, rest);
    assert ([d] + ds)[1..] == ds;
    Assoc([Sym(',')], SpellElems(ds), [Sym(close)]);
    Assoc(Spell(d), [Sym(',')] + SpellElems(ds), [Sym(close)]);
  }

  /** What a successful body loop has read first. */
  lemma BodyCases(s: string, attrs: seq<Attr>, children: seq<Node>)
    requires ParseBody(s, attrs, children).Parsed?
    ensures var r, l := ParseBody(s, attrs, children), Lex(s);
            if l.tok == Sym('}') then r == Parsed(Node("", attrs, children), l.rest)
            else
              var m := Lex(l.rest);
              && l.tok.Id?
              && (if m.tok == Sym('=') then
                    var n := Lex(m.rest);
                    n.tok != Eof && var v := ParseValue(n.tok, n.rest);
                    v.Parsed? && r == ParseBody(v.rest, attrs + [Attr(l.tok.text, v.value)], children)
                  else
                    m.tok == Sym('{') && var c := ParseBody(m.rest, [], []);
                    c.Parsed? && r == ParseBody(c.rest, attrs, children + [c.value.(name := l.tok.text)]))
  {
    hide ParseValue;
  }

  /** A body that was read is spelled there, item by item. */
  lemma {:induction false} BodyHasSyntax(s: string, attrs: seq<Attr>, children: seq<Node>) returns (items: seq<Item>)
    requires ParseBody(s, attrs, children).Parsed?
    ensures var r := ParseBody(s, attrs, children);
            && ItemsOk(items) && Reads(s, SpellItems(items) + [Sym('}')], r.rest)
            && r.value == Node("", attrs + AttrsOf(items), children + ChildrenOf(items))
    decreases |s|
  {
    hide ItemOk, Reads, SpellItem, ParseBody, ParseValue, Lex, NodeOf;
    BodyCases(s, attrs, children);
    var r, l := ParseBody(s, attrs, children), Lex(s);
    if l.tok == Sym('}') {
      items := [];
      NoItems(s, l.rest, attrs, children);
    } else {
      var name, m := l.tok.text, Lex(l.rest);
      if m.tok == Sym('=') {
        var n := Lex(m.rest);
        var v := ParseValue(n.tok, n.rest);
        var a := attrs + [Attr(name, v.value)];
        BodyStarts(v.rest, a, children);
        var d := ValueHasSyntax(n.tok, n.rest, m.rest, v.rest);
        var more := BodyHasSyntax(v.rest, a, children);
        AttrRead(s, name, m.rest, d, v.rest);
        items := [AttrItem(name, d)] + more;
        MoreItems(AttrItem(name, d), more, s, v.rest, r.rest);
        Assoc(attrs, [Attr(name, v.value)], AttrsOf(more));
        NilAppend(ChildrenOf(more));
      } else {
        var c := ParseBody(m.rest, [], []);
        var inner := BodyHasSyntax(m.rest, [], []);
        var child := NodeOf(name, inner);
        NodeIs(name, inner, c.value);
        var more := BodyHasSyntax(c.rest, attrs, children + [child]);
        ChildRead(s, name, m.rest, inner, c.rest);
        items := [ChildItem(name, inner)] + more;
        MoreItems(ChildItem(name, inner), more, s, c.rest, r.rest);
        Assoc(children, [child], ChildrenOf(more));
        NilAppend(AttrsOf(more));
      }
    }
  }

  lemma NodeIs(name: string, items: seq<Item>, t: Node)
    requires t == Node("", [] + AttrsOf(items), [] + ChildrenOf(items))
    ensures t.(name := name) == NodeOf(name, items)
  {
    NilAppend(AttrsOf(items));
    NilAppend(ChildrenOf(items));
  }

  lemma NoItems(s: string, rest: string, attrs: seq<Attr>, children: seq<Node>)
    requires Lex(s) == Lexed(Sym('}'), rest)
    ensures Reads(s, SpellItems([]) + [Sym('}')], rest)
    ensures attrs + AttrsOf([]) == attrs && children + ChildrenOf([]) == children
  {
    NilAppend([Sym('}')]);
    ReadsOne(s, Sym('}'), rest);
  }

  lemma BodyStarts(s: string, attrs: seq<Attr>, children: seq<Node>)
    requires ParseBody(s, attrs, children).Parsed?
    ensures Lex(s).tok != Eof
  {
  }

  lemma AttrRead(s: string, name: string, m: string, d: Syntax, rest: string)
    requires Lex(s).tok == Id(name) && Lex(Lex(s).rest) == Lexed(Sym('='), m)
    requires WellFormed(d) && Reads(m, Spell(d), rest)
    ensures ItemOk(AttrItem(name, d)) && Reads(s, SpellItem(AttrItem(name, d)), rest)
  {
    HeadSpelled(s, name, '=', m, Spell(d), rest);
  }

  lemma ChildRead(s: string, name: string, m: string, items: seq<Item>, rest: string)
    requires Lex(s).tok == Id(name) && Lex(Lex(s).rest) == Lexed(Sym('{'), m)
    requires ItemsOk(items) && Reads(m, SpellItems(items) + [Sym('}')], rest)
    ensures ItemOk(ChildItem(name, items)) && Reads(s, SpellItem(ChildItem(name, items)), rest)
  {
    HeadSpelled(s, name, '{', m, SpellItems(items) + [Sym('}')], rest);
  }

  lemma HeadSpelled(s: string, name: string, c: char, m: string, toks: seq<Token>, rest: string)
    requires Lex(s).tok == Id(name) && Lex(Lex(s).rest) == Lexed(Sym(c), m) && Reads(m, toks, rest)
    ensures Reads(s, [Id(name), Sym(c)] + toks, rest)
  {
    ReadsOne(Lex(s).rest, Sym(c), m);
    assert [Id(name), Sym(c)][1..] == [Sym(c)];
    ReadsJoin(s, [Id(name), Sym(c)], m, toks, rest);
  }

  lemma MoreItems(it: Item, items: seq<Item>, s: string, m: string, rest: string)
    requires ItemOk(it) && ItemsOk(items)
    requires Reads(s, SpellItem(it), m) && Reads(m, SpellItems(items) + [Sym('}')], rest)
    ensures ItemsOk([it] + items) && Reads(s, SpellItems([it] + items) + [Sym('}')], rest)
    ensures AttrsOf([it] + items)
         == (if it.AttrItem? then [Attr(it.name, Meaning(it.val))] else []) + AttrsOf(items)
    ensures ChildrenOf([it] + items)
         == (if it.ChildItem? then [NodeOf(it.name, it.items)] else []) + ChildrenOf(items)
  {
    assert ([it] + items)[1..] == items;
    ReadsJoin(s, SpellItem(it), m, SpellItems(items) + [Sym('}')], rest);
    Assoc(SpellItem(it), SpellItems(items), [Sym('}')]);
  }

  // ---- the loader ----

  /** The text starts with a named node that has these items, and means `t`. */
  predicate Sentence(s: string, items: seq<Item>, t: Node, rest: string) {
    && ItemsOk(items) && t == NodeOf(t.name, items)
    && Reads(s, SpellItem(ChildItem(t.name, items)), rest)
  }

  /** A text is loaded as a tree exactly if it starts with a sentence that means it. */
  lemma LoadExact(s: string, t: Node, rest: string)
    ensures Load(s) == Parsed(t, rest) <==> exists items :: Sentence(s, items, t, rest)
  {
    if Load(s) == Parsed(t, rest) {
      var items := LoadHasSentence(s, t, rest);
    }
    forall items | Sentence(s, items, t, rest) ensures Load(s) == Parsed(t, rest) {
      SentenceLoads(s, items, t, rest);
    }
  }

  lemma LoadHasSentence(s: string, t: Node, rest: string) returns (items: seq<Item>)
    requires Load(s) == Parsed(t, rest)
    ensures Sentence(s, items, t, rest)
  {
    var m := Lex(Lex(s).rest);
    items := BodyHasSyntax(m.rest, [], []);
    ChildRead(s, t.name, m.rest, items, rest);
    NilAppend(AttrsOf(items));
    NilAppend(ChildrenOf(items));
  }

  lemma SentenceLoads(s: string, items: seq<Item>, t: Node, rest: string)
    requires Sentence(s, items, t, rest)
    ensures Load(s) == Parsed(t, rest)
  {
    var m := HeadRead(s, t.name, '{', SpellItems(items) + [Sym('}')], rest);
    ItemsParse(items, m, rest, [], []);
    NilAppend(AttrsOf(items));
    NilAppend(ChildrenOf(items));
  }

  // ---- ways to write the same ----

  /** The usual form: words in quotes and lists in square brackets. */
  function Usual(d: Syntax): (r: Syntax)
    decreases d, 0
  {
    match d
    case Word(tok) => if tok.Id? then Word(Str(tok.text)) else d
    case List(_, elems) => List('[', UsualAll(elems))
  }

  function UsualAll(ds: seq<Syntax>): (rs: seq<Syntax>)
    ensures |rs| == |ds| && forall i | 0 <= i < |ds| :: rs[i] == Usual(ds[i])
    decreases ds, 1
  {
    if ds == [] then [] else [Usual(ds[0])] + UsualAll(ds[1..])
  }

  function UsualItem(it: Item): Item
    decreases it, 0
  {
    match it
    case AttrItem(name, val) => AttrItem(name, Usual(val))
    case ChildItem(name, items) => ChildItem(name, UsualItems(items))
  }

  function UsualItems(items: seq<Item>): (r: seq<Item>)
    ensures |r| == |items| && forall i | 0 <= i < |items| :: r[i] == UsualItem(items[i])
    decreases items, 1
  {
    if items == [] then [] else [UsualItem(items[0])] + UsualItems(items[1..])
  }

  /** An unquoted word means what it means in quotes, and a list in braces what it means in brackets. */
  lemma {:induction false} UsualMeansSame(d: Syntax)
    ensures Meaning(Usual(d)) == Meaning(d)
  {
    if d.List? {
      forall i | 0 <= i < |d.elems| ensures Meaning(UsualAll(d.elems)[i]) == Meaning(d.elems[i]) {
        UsualMeansSame(d.elems[i]);
      }
      assert Meanings(UsualAll(d.elems)) == Meanings(d.elems);
    }
  }

  lemma {:induction false} UsualIsWellFormed(d: Syntax)
    requires WellFormed(d)
    ensures WellFormed(Usual(d))
  {
    if d.List? {
      assert AllWellFormed(d.elems);
      forall i | 0 <= i < |d.elems| ensures WellFormed(UsualAll(d.elems)[i]) {
        UsualIsWellFormed(d.elems[i]);
      }
    }
  }

  lemma {:induction false} UsualItemsMeanSame(items: seq<Item>)
    ensures AttrsOf(UsualItems(items)) == AttrsOf(items) && ChildrenOf(UsualItems(items)) == ChildrenOf(items)
    ensures ItemsOk(items) ==> ItemsOk(UsualItems(items))
    decreases items
  {
    if items != [] {
      UsualItemsMeanSame(items[1..]);
      match items[0] {
        case AttrItem(_, val) =>
          UsualMeansSame(val);
          if WellFormed(val) {
            UsualIsWellFormed(val);
          }
        case ChildItem(_, inner) =>
          UsualItemsMeanSame(inner);
      }
      assert UsualItems(items)[1..] == UsualItems(items[1..]);
      assert ItemsOk(items) ==> ItemsOk(items[1..]) && ItemOk(items[0]);
    }
  }

  /** A text in any form loads as the same node in the usual form does. */
  lemma FormsLoadAlike(s: string, items: seq<Item>, t: Node, rest: string, usual: string, more: string)
    requires Sentence(s, items, t, rest)
    requires Reads(usual, SpellItem(ChildItem(t.name, UsualItems(items))), more)
    ensures Load(s) == Parsed(t, rest) && Load(usual) == Parsed(t, more)
  {
    UsualItemsMeanSame(items);
    SentenceLoads(s, items, t, rest);
    SentenceLoads(usual, UsualItems(items), t, more);
  }

  /** A word without quotes and the same word with quotes, whatever follows. */
  lemma UnquotedWord(w: string, rest: string)
    requires IsIdent(w) && EndsId(rest)
    ensures var l, q := Lex(w + rest), Lex("\"" + w + "\"" + rest);
            && l.tok != Eof && q.tok != Eof
            && ParseValue(l.tok, l.rest) == ParseValue(q.tok, q.rest) == Parsed(StrValue(w), rest)
            && View(StrValue(w)) == AStr(w)
  {
    assert '"' !in w && NUL !in w;
    LexIdent(w, rest);
    LexString(w, rest);
  }

  /** A node whose only attribute is an unquoted word. */
  lemma UnquotedAttr(node: string, attr: string, w: string, rest: string)
    requires IsIdent(node) && IsIdent(attr) && IsIdent(w)
    ensures Load(node + (" {" + (attr + (" =" + (w + (" }" + rest))))))
         == Parsed(Node(node, [Attr(attr, StrValue(w))], []), rest)
  {
    var tail := w + (" }" + rest);
    var body := attr + (" =" + tail);
    hide Lex, ParseBody;
    LexIdent(node, " {" + body);
    SpaceSym('{', body);
    UnquotedBody(attr, w, rest);
  }

  lemma UnquotedBody(attr: string, w: string, rest: string)
    requires IsIdent(attr) && IsIdent(w)
    ensures ParseBody(attr + (" =" + (w + (" }" + rest))), [], [])
         == Parsed(Node("", [Attr(attr, StrValue(w))], []), rest)
  {
    var tail := w + (" }" + rest);
    LexIdent(attr, " =" + tail);
    SpaceSym('=', tail);
    UnquotedWord(w, " }" + rest);
    SpaceSym('}', rest);
    NilAppend([Attr(attr, StrValue(w))]);
    hide Lex, ParseValue;
    assert ParseBody(" }" + rest, [Attr(attr, StrValue(w))], [])
        == Parsed(Node("", [Attr(attr, StrValue(w))], []), rest);
  }

  lemma SpaceSym(c: char, s: string)
    requires c in "{}[]=,"
    ensures Lex([' ', c] + s) == Lexed(Sym(c), s)
  {
    hide Lex;
    LexSpace(' ', [c] + s);
    LexSym(c, s);
    assert [' ', c] + s == [' '] + ([c] + s);
  }
}
