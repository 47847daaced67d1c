/** Layout does not matter: loading depends on the tokens only, and blanks between tokens make none. */
module TsLayout {
  import opened Ctype
  import opened TsTree
  import opened TsLexer
  import opened TsParser

  /** All tokens up to the end of the text (or to a string or comment that is cut off). */
  function Tokens(s: string): seq<Token>
    decreases |s|
  {
    var l := Lex(s);
    if l.tok == Eof then [] else [l.tok] + Tokens(l.rest)
  }

  // ---- loading is a function of the tokens ----

  /** Both fail, or both give the same value and leave the same tokens. */
  predicate Alike<T(==)>(r: Parsed<T>, q: Parsed<T>) {
    match (r, q)
    case (Failed, Failed) => true
    case (Parsed(v, s), Parsed(w, t)) => v == w && Tokens(s) == Tokens(t)
    case _ => false
  }

  lemma FirstToken(s: string, t: string)
    requires Tokens(s) == Tokens(t)
    ensures Lex(s).tok == Lex(t).tok
    ensures Tokens(Lex(s).rest) == Tokens(Lex(t).rest)
  {
    if Lex(s).tok != Eof {
      assert Tokens(s)[0] == Lex(s).tok && Tokens(s)[1..] == Tokens(Lex(s).rest);
      assert Tokens(t)[0] == Lex(t).tok && Tokens(t)[1..] == Tokens(Lex(t).rest);
    } else {
      assert Tokens(s) == [];
    }
  }

  lemma {:induction false} SameValue(tok: Token, s: string, t: string)
    requires tok != Eof && Tokens(s) == Tokens(t)
    ensures Alike(ParseValue(tok, s), ParseValue(tok, t))
    decreases |s|, 1
  {
    if tok == Sym('[') {
      SameArray(s, t, ']', []);
    } else if tok == Sym('{') {
      SameArray(s, t, '}', []);
    }
  }

  lemma {:induction false} SameArray(s: string, t: string, endSym: char, acc: seq<Value>)
    requires Tokens(s) == Tokens(t)
    ensures Alike(ParseArray(s, endSym, acc), ParseArray(t, endSym, acc))
    decreases |s|, 0
  {
    FirstToken(s, t);
    var l, m := Lex(s), Lex(t);
    if l.tok != Eof {
      SameValue(l.tok, l.rest, m.rest);
      var v, w := ParseValue(l.tok, l.rest), ParseValue(m.tok, m.rest);
      if v.Parsed? {
        FirstToken(v.rest, w.rest);
        if Lex(v.rest).tok == Sym(',') {
          var acc2 := if |acc| < MAX_ELEMS then acc + [v.value] else acc;
          SameArray(Lex(v.rest).rest, Lex(w.rest).rest, endSym, acc2);
        }
      }
    }
  }

  lemma {:induction false} SameBody(s: string, t: string, attrs: seq<Attr>, children: seq<Node>)
    requires Tokens(s) == Tokens(t)
    ensures Alike(ParseBody(s, attrs, children), ParseBody(t, attrs, children))
    decreases |s|
  {
    FirstToken(s, t);
    var l, l2 := Lex(s), Lex(t);
    if l.tok.Id? {
      FirstToken(l.rest, l2.rest);
      var m, m2 := Lex(l.rest), Lex(l2.rest);
      if m.tok == Sym('=') {
        FirstToken(m.rest, m2.rest);
        var n, n2 := Lex(m.rest), Lex(m2.rest);
        if n.tok != Eof {
          SameValue(n.tok, n.rest, n2.rest);
          var v, w := ParseValue(n.tok, n.rest), ParseValue(n2.tok, n2.rest);
          if v.Parsed? {
            SameBody(v.rest, w.rest, attrs + [Attr(l.tok.text, v.value)], children);
          }
        }
      } else if m.tok == Sym('{') {
        SameBody(m.rest, m2.rest, [], []);
        var c, d := ParseBody(m.rest, [], []), ParseBody(m2.rest, [], []);
        if c.Parsed? {
          SameBody(c.rest, d.rest, attrs, children + [c.value.(name := l.tok.text)]);
        }
      }
    }
  }

  /** Texts with the same tokens load alike. */
  lemma SameTokensLoadAlike(s: string, t: string)
    requires Tokens(s) == Tokens(t)
    ensures Alike(Load(s), Load(t))
  {
    FirstToken(s, t);
    FirstToken(Lex(s).rest, Lex(t).rest);
    SameBody(Lex(Lex(s).rest).rest, Lex(Lex(t).rest).rest, [], []);
  }

  // ---- blanks between tokens ----

  /** White space and comments that are ended by a line feed. */
  predicate Blank(b: string)
    decreases |b|
  {
    if b == "" then true
    else if b[0] == '#' then '\n' in b[1..] && Blank(AfterLine(b[1..]))
    else IsSpace(b[0]) && Blank(b[1..])
  }

  /** The blanks at the front of a text do not end inside a comment. */
  predicate ClosedBlanks(s: string)
    decreases |s|
  {
    if s == "" then true
    else if s[0] == '#' then '\n' in s[1..] && ClosedBlanks(AfterLine(s[1..]))
    else if IsSpace(s[0]) then ClosedBlanks(s[1..])
    else true
  }

  /** A piece of text that ends neither inside a string nor inside a comment. */
  predicate Complete(s: string)
    decreases |s|
  {
    ClosedBlanks(s) && (SkipBlanks(s) == "" || (Lex(s).tok != Eof && Complete(Lex(s).rest)))
  }

  lemma {:induction false} AfterLineExtends(s: string, x: string)
    requires '\n' in s
    ensures AfterLine(s + x) == AfterLine(s) + x
  {
    assert (s + x)[1..] == s[1..] + x;
    if s[0] != '\n' {
      AfterLineExtends(s[1..], x);
    }
  }

  lemma {:induction false} SkipBlanksExtends(s: string, x: string)
    requires ClosedBlanks(s)
    ensures SkipBlanks(s + x) == if SkipBlanks(s) == "" then SkipBlanks(x) else SkipBlanks(s) + x
    decreases |s|
  {
    if s == "" {
      assert s + x == x;
    } else {
      assert (s + x)[1..] == s[1..] + x;
      if s[0] == '#' {
        AfterLineExtends(s[1..], x);
        SkipBlanksExtends(AfterLine(s[1..]), x);
      } else if IsSpace(s[0]) {
        SkipBlanksExtends(s[1..], x);
      }
    }
  }

  lemma {:induction false} BlankIsClosed(b: string)
    requires Blank(b)
    ensures ClosedBlanks(b) && SkipBlanks(b) == ""
    decreases |b|
  {
    if b != "" {
      if b[0] == '#' {
        BlankIsClosed(AfterLine(b[1..]));
      } else {
        BlankIsClosed(b[1..]);
      }
    }
  }

  lemma BlankMakesNoToken(b: string, s: string)
    requires Blank(b)
    ensures Tokens(b + s) == Tokens(s)
  {
    BlankIsClosed(b);
    SkipBlanksExtends(b, s);
  }

  /** A text that no token can run on into. */
  predicate Separates(x: string) {
    x != "" ==> IsSpace(x[0]) || x[0] == '#'
  }

  lemma {:induction false} NumSpanExtends(s: string, dot: bool, x: string)
    requires Separates(x)
    ensures NumSpan(s + x, dot) == NumSpan(s, dot)
  {
    if s == "" {
      assert s + x == x;
    } else {
      assert (s + x)[1..] == s[1..] + x;
      assert (s + x)[0] == s[0];
      if IsDigit(s[0]) {
        NumSpanExtends(s[1..], dot, x);
      } else if s[0] == '.' && !dot {
        NumSpanExtends(s[1..], true, x);
      }
    }
  }

  lemma {:induction false} IdSpanExtends(s: string, x: string)
    requires Separates(x)
    ensures IdSpan(s + x) == IdSpan(s)
  {
    if s == "" {
      assert s + x == x;
    } else {
      assert (s + x)[1..] == s[1..] + x;
      assert (s + x)[0] == s[0];
      IdSpanExtends(s[1..], x);
    }
  }

  lemma {:induction false} QuoteSpanExtends(s: string, x: string)
    requires QuoteSpan(s) < |s|
    ensures QuoteSpan(s + x) == QuoteSpan(s)
  {
    assert (s + x)[1..] == s[1..] + x;
    if s[0] != '"' {
      QuoteSpanExtends(s[1..], x);
    }
  }

  lemma SliceExtends(u: string, x: string, n: nat)
    requires n <= |u|
    ensures (u + x)[..n] == u[..n] && (u + x)[n..] == u[n..] + x
  {
  }

  lemma LexAtExtends(t: string, x: string)
    requires LexAt(t).tok != Eof && Separates(x)
    ensures LexAt(t + x) == Lexed(LexAt(t).tok, LexAt(t).rest + x)
  {
    var u := t[1..];
    assert (t + x)[1..] == u + x;
    if IsNumberStart(t[0]) {
      NumSpanExtends(u, false, x);
      SliceExtends(u, x, NumSpan(u, false));
    } else if IsAlpha(t[0]) {
      IdSpanExtends(u, x);
      SliceExtends(u, x, IdSpan(u));
    } else if t[0] == '"' {
      QuoteSpanExtends(u, x);
      SliceExtends(u, x, QuoteSpan(u));
      SliceExtends(u, x, QuoteSpan(u) + 1);
    }
  }

  /** The tokens of two pieces with a separator between them are the tokens of each. */
  lemma {:induction false} TokensOfPieces(pre: string, x: string)
    requires Complete(pre) && Separates(x)
    ensures Tokens(pre + x) == Tokens(pre) + Tokens(x)
    decreases |pre|
  {
    SkipBlanksExtends(pre, x);
    if SkipBlanks(pre) == "" {
      assert [] + Tokens(x) == Tokens(x);
    } else {
      LexAtExtends(SkipBlanks(pre), x);
      TokensOfPieces(Lex(pre).rest, x);
      assert [Lex(pre).tok] + Tokens(Lex(pre).rest) + Tokens(x) == [Lex(pre).tok] + (Tokens(Lex(pre).rest) + Tokens(x));
    }
  }

  // ---- whole texts ----

  /** Pieces of text, each followed by its gap. */
  function Weave(pieces: seq<string>, gaps: seq<string>): string
    requires |pieces| == |gaps|
  {
    if pieces == [] then "" else pieces[0] + (gaps[0] + Weave(pieces[1..], gaps[1..]))
  }

  function PieceTokens(pieces: seq<string>): seq<Token> {
    if pieces == [] then [] else Tokens(pieces[0]) + PieceTokens(pieces[1..])
  }

  predicate AllGaps(gaps: seq<string>) {
    forall i | 0 <= i < |gaps| :: gaps[i] != "" && Blank(gaps[i])
  }

  lemma {:induction false} WeaveTokens(pieces: seq<string>, gaps: seq<string>)
    requires |pieces| == |gaps| && AllGaps(gaps)
    requires forall i | 0 <= i < |pieces| :: Complete(pieces[i])
    ensures Tokens(Weave(pieces, gaps)) == PieceTokens(pieces)
  {
    if pieces != [] {
      var rest := Weave(pieces[1..], gaps[1..]);
      assert (gaps[0] + rest)[0] == gaps[0][0];
      TokensOfPieces(pieces[0], gaps[0] + rest);
      BlankMakesNoToken(gaps[0], rest);
      WeaveTokens(pieces[1..], gaps[1..]);
    }
  }

  /** Any two layouts of the same pieces have the same tokens and load alike. */
  lemma LayoutIndependent(pieces: seq<string>, gaps: seq<string>, others: seq<string>)
    requires |pieces| == |gaps| == |others| && AllGaps(gaps) && AllGaps(others)
    requires forall i | 0 <= i < |pieces| :: Complete(pieces[i])
    ensures Tokens(Weave(pieces, gaps)) == Tokens(Weave(pieces, others))
    ensures Alike(Load(Weave(pieces, gaps)), Load(Weave(pieces, others)))
  {
    WeaveTokens(pieces, gaps);
    WeaveTokens(pieces, others);
    SameTokensLoadAlike(Weave(pieces, gaps), Weave(pieces, others));
  }
}
