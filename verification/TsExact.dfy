/** Which trees survive saving and loading: exactly the expressible ones. */
module TsExact {
  import opened Ctype
  import opened TsTree
  import opened TsLexer
  import opened TsParser
  import opened TsPrinter
  import opened TsView
  import opened TsRoundTrip

  /** Identifier and string tokens are what the format allows between and around quotes. */
  predicate TokenOk(tok: Token) {
    && (tok.Id? ==> IsIdent(tok.text) && '"' !in tok.text)
    && (tok.Str? ==> '"' !in tok.text)
  }

  lemma LexOk(s: string)
    ensures TokenOk(Lex(s).tok)
  {
    var t := SkipBlanks(s);
    if t != "" && IsAlpha(t[0]) {
      var n := IdSpan(t[1..]);
      var text := [t[0]] + t[1..][..n];
      assert forall i | 1 <= i < |text| :: text[i] == t[1..][i - 1];
      assert forall i | 0 <= i < |text| :: IsIdChar(text[i]);
    }
  }

  predicate AllLoadable(vs: seq<Value>) {
    forall i | 0 <= i < |vs| :: Loadable(vs[i])
  }

  /** Every value the parser can build is expressible. */
  lemma {:induction false} ParsedValueLoadable(tok: Token, s: string)
    requires tok != Eof && TokenOk(tok)
    ensures var r := ParseValue(tok, s); r.Parsed? ==> Loadable(r.value)
    decreases |s|, 1
  {
    match tok
    case Sym(c) =>
      if c == '[' {
        ParsedArrayLoadable(s, ']', []);
      } else if c == '{' {
        ParsedArrayLoadable(s, '}', []);
      }
    case Id(t) =>
      assert CString(t) <= t;
    case Str(t) =>
      assert CString(t) <= t;
    case Num(_) =>
  }

  lemma {:induction false} ParsedArrayLoadable(s: string, endSym: char, acc: seq<Value>)
    requires AllLoadable(acc) && |acc| <= MAX_ELEMS
    ensures var r := ParseArray(s, endSym, acc); r.Parsed? ==> Loadable(r.value)
    decreases |s|, 0
  {
    hide Lex, Loadable, ParseValue, FinishArray, TokenOk;
    var l := Lex(s);
    if l.tok == Eof {
      FinishLoadable(acc, l.rest);
    } else {
      LexOk(s);
      ParsedValueLoadable(l.tok, l.rest);
      var v := ParseValue(l.tok, l.rest);
      if v.Parsed? {
        var acc2 := if |acc| < MAX_ELEMS then acc + [v.value] else acc;
        var sep := Lex(v.rest);
        FinishLoadable(acc2, sep.rest);
        if sep.tok == Sym(',') {
          ParsedArrayLoadable(sep.rest, endSym, acc2);
        }
      }
    }
  }

  lemma FinishLoadable(acc: seq<Value>, rest: string)
    requires AllLoadable(acc) && |acc| <= MAX_ELEMS
    ensures var r := FinishArray(acc, rest); r.Parsed? ==> Loadable(r.value)
  {
    if |acc| > 1 {
      ArrValueView(acc);
    }
  }

  predicate LoadableParts(attrs: seq<Attr>, children: seq<Node>) {
    && (forall i | 0 <= i < |attrs| :: LoadableAttr(attrs[i]))
    && (forall i | 0 <= i < |children| :: LoadableNode(children[i]))
  }

  lemma {:induction false} ParsedBodyLoadable(s: string, attrs: seq<Attr>, children: seq<Node>)
    requires LoadableParts(attrs, children)
    ensures var r := ParseBody(s, attrs, children); r.Parsed? ==> LoadableParts(r.value.attrs, r.value.children)
    decreases |s|
  {
    var l := Lex(s);
    var m := Lex(l.rest);
    LexOk(s);
    if l.tok.Id? && m.tok == Sym('=') {
      var n := Lex(m.rest);
      if n.tok != Eof {
        LexOk(m.rest);
        ParsedValueLoadable(n.tok, n.rest);
        var v := ParseValue(n.tok, n.rest);
        if v.Parsed? {
          ParsedBodyLoadable(v.rest, attrs + [Attr(l.tok.text, v.value)], children);
        }
      }
    } else if l.tok.Id? && m.tok == Sym('{') {
      ParsedBodyLoadable(m.rest, [], []);
      var c := ParseBody(m.rest, [], []);
      if c.Parsed? {
        ParsedBodyLoadable(c.rest, attrs, children + [c.value.(name := l.tok.text)]);
      }
    }
  }

  /** Whatever text is loaded, the tree that comes out is expressible. */
  lemma LoadedIsLoadable(s: string)
    ensures Load(s).Parsed? ==> LoadableNode(Load(s).value)
  {
    LexOk(s);
    ParsedBodyLoadable(Lex(Lex(s).rest).rest, [], []);
  }

  /**
   The round trip. A tree comes back from its saved text, at any indentation and
   with anything after it, if and only if names are identifiers, strings hold no
   quote, arrays have 2 to 31 elements and all-number arrays are vectors; and then
   reading stops right after the closing brace.
   */
  lemma LoadAfterSave(t: Node, level: nat, rest: string)
    requires Savable(t) && NodeVectorsAgree(t)
    ensures var r := Load(NodeText(t, level) + rest);
            && (r.Parsed? && ViewNode(r.value) == ViewNode(t) <==> LoadableNode(t))
            && (LoadableNode(t) ==> r.rest == "\n" + rest)
  {
    var r := Load(NodeText(t, level) + rest);
    if LoadableNode(t) {
      LoadOfSaved(t, level, rest);
    } else if r.Parsed? {
      LoadedIsLoadable(NodeText(t, level) + rest);
      if ViewNode(r.value) == ViewNode(t) {
        LoadableNodeByView(r.value, t);
      }
    }
  }

  /** What the printer writes, the parser reads: the two procedures put together. */
  method SaveThenLoad(t: Node, level: nat, further: string) returns (ok: bool, loaded: Node, left: string)
    requires Savable(t) && NodeVectorsAgree(t)
    ensures ok && ViewNode(loaded) == ViewNode(t) <==> LoadableNode(t)
    ensures LoadableNode(t) ==> left == "\n" + further
  {
    var w := new Writer();
    w.TextSave(t, level);
    assert w.out == NodeText(t, level);
    var p := new Reader(w.out + further);
    ok, loaded := TextLoad(p);
    left := p.text[p.pos..];
    LoadAfterSave(t, level, further);
  }

  // ---- vector sizes after a load ----

  /**
   Loading breaks the header's promise about `vec_size` exactly on the values
   that contain a vector.
   */
  lemma {:induction false} ReloadedVectorsAgree(v: Value)
    requires Loadable(v)
    ensures VectorsAgree(Reloaded(v)) == NoVector(v)
    ensures VectorsAgree(CopyValue(Reloaded(v))) == NoVector(v)
  {
    if v.kind == TsVector || v.kind == TsArray {
      var rs := ReloadedAll(v.elems);
      var a := Reloaded(v);
      CopiedElems(rs);
      ReloadedKinds(v.elems);
      assert CopyValue(a).elems == a.elems;
      if v.kind == TsArray {
        forall i | 0 <= i < |rs|
          ensures VectorsAgree(a.elems[i]) == NoVector(v.elems[i])
        {
          ReloadedVectorsAgree(v.elems[i]);
        }
      }
    }
  }

  lemma CopiedElems(rs: seq<Value>)
    ensures CopyValues(CopyValues(rs)) == CopyValues(rs)
  {
    forall i | 0 <= i < |rs| ensures CopyValue(CopyValues(rs)[i]) == CopyValues(rs)[i] {
      CopyTwice(rs[i]);
    }
  }

  lemma ReloadedKinds(vs: seq<Value>)
    requires AllLoadable(vs)
    ensures AllNumbers(ReloadedAll(vs)) == AllNumbers(vs)
  {
    var rs := ReloadedAll(vs);
    forall i | 0 <= i < |vs| ensures rs[i].kind == TsNumber <==> vs[i].kind == TsNumber {
      ReloadedView(vs[i]);
    }
  }
}
