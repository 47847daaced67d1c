/** Tokens of the treestore text format: the meaning of a text, and `next_token` itself. */
module TsLexer {
  import opened Ctype
  import opened Options
  import opened Seqs
  import opened TsTree

  datatype Token = Eof | Sym(c: char) | Id(text: string) | Num(text: string) | Str(text: string)

  datatype Lexed = Lexed(tok: Token, rest: string)

  predicate IsNumberStart(c: char) {
    IsDigit(c) || c == '-' || c == '+'
  }

  predicate IsIdChar(c: char) {
    IsAlnum(c) || c == '_'
  }

  /** What follows the first line feed. */
  function AfterLine(s: string): (r: string)
    ensures |r| <= |s| && (s != "" ==> |r| < |s|)
  {
    if s == "" then "" else if s[0] == '\n' then s[1..] else AfterLine(s[1..])
  }

  /** Drops white space and `#` comments. */
  function SkipBlanks(s: string): (r: string)
    ensures |r| <= |s|
    ensures r != "" ==> !IsSpace(r[0]) && r[0] != '#'
    decreases |s|
  {
    if s == "" then ""
    else if s[0] == '#' then SkipBlanks(AfterLine(s[1..]))
    else if IsSpace(s[0]) then SkipBlanks(s[1..])
    else s
  }

  lemma BlankStep(s: string)
    ensures SkipBlanks("") == ""
    ensures s != "" && s[0] == '#' ==> SkipBlanks(s) == SkipBlanks(AfterLine(s[1..]))
    ensures s != "" && s[0] != '#' && IsSpace(s[0]) ==> SkipBlanks(s) == SkipBlanks(s[1..])
    ensures s != "" && s[0] != '#' && !IsSpace(s[0]) ==> SkipBlanks(s) == s
  {
  }

  /** Length of the longest run of digits with at most one dot, none if `dot` was seen before. */
  function NumSpan(s: string, dot: bool): (n: nat)
    ensures n <= |s|
  {
    if s == "" then 0
    else if IsDigit(s[0]) then 1 + NumSpan(s[1..], dot)
    else if s[0] == '.' && !dot then 1 + NumSpan(s[1..], true)
    else 0
  }

  lemma NumStep(s: string, n: nat, dot: bool)
    requires n < |s| && (IsDigit(s[n]) || (s[n] == '.' && !dot))
    ensures NumSpan(s[n..], dot) == 1 + NumSpan(s[n + 1..], dot || s[n] == '.')
  {
    assert s[n..][1..] == s[n + 1..];
  }

  lemma NumStop(s: string, n: nat, dot: bool)
    requires n <= |s| && (n < |s| ==> !IsDigit(s[n]) && (s[n] == '.' ==> dot))
    ensures NumSpan(s[n..], dot) == 0
  {
  }

  function IdSpan(s: string): (n: nat)
    ensures n <= |s|
    ensures forall i | 0 <= i < n :: IsIdChar(s[i])
  {
    if s == "" || !IsIdChar(s[0]) then 0 else 1 + IdSpan(s[1..])
  }

  /** Number of characters before the first double quote. */
  function QuoteSpan(s: string): (n: nat)
    ensures n <= |s| && '"' !in s[..n]
    ensures n < |s| ==> s[n] == '"'
  {
    if s == "" || s[0] == '"' then 0
    else
      var m := QuoteSpan(s[1..]);
      assert s[..m + 1] == [s[0]] + s[1..][..m];
      m + 1
  }

  /** The token that starts at the first character of a text. */
  function LexAt(t: string): (r: Lexed)
    ensures |r.rest| <= |t|
    ensures r.tok != Eof ==> |r.rest| < |t|
  {
    if t == "" then Lexed(Eof, "")
    else if IsNumberStart(t[0]) then
      var n := NumSpan(t[1..], false);
      Lexed(Num([t[0]] + t[1..][..n]), t[1..][n..])
    else if IsAlpha(t[0]) then
      var n := IdSpan(t[1..]);
      Lexed(Id([t[0]] + t[1..][..n]), t[1..][n..])
    else if t[0] == '"' then
      var n := QuoteSpan(t[1..]);
      if n == |t[1..]| then Lexed(Eof, "") else Lexed(Str(t[1..][..n]), t[1..][n + 1..])
    else Lexed(Sym(t[0]), t[1..])
  }

  /** The first token of a text and the text left after it. */
  function Lex(s: string): (r: Lexed)
    ensures |r.rest| <= |s|
    ensures r.tok != Eof ==> |r.rest| < |s|
  {
    LexAt(SkipBlanks(s))
  }

  datatype TokType = TOK_EOF | TOK_SYM | TOK_ID | TOK_NUM | TOK_STR

  /** The token that a returned type and the token buffer stand for. */
  ghost function AsToken(kind: TokType, token: string): Token {
    match kind
    case TOK_EOF => Eof
    case TOK_SYM => if token == "" then Eof else Sym(token[0])
    case TOK_ID => Id(token)
    case TOK_NUM => Num(token)
    case TOK_STR => Str(token)
  }

  /** `struct parser`: an input stream with one character of pushback, and the token buffer. */
  class Reader {
    const text: string
    var pos: nat
    var token: string

    ghost predicate Valid()
      reads this
    {
      pos <= |text|
    }

    ghost function Rest(): string
      reads this
      requires Valid()
    {
      text[pos..]
    }

    constructor (text: string)
      ensures Valid() && this.text == text && Rest() == text
    {
      this.text := text;
      pos := 0;
      token := "";
    }

    /** `fgetc` */
    method GetC() returns (c: Option<char>)
      requires Valid()
      modifies `pos
      ensures Valid()
      ensures old(pos) == |text| ==> c == None && pos == old(pos)
      ensures old(pos) < |text| ==> c == Some(text[old(pos)]) && pos == old(pos) + 1
    {
      if pos < |text| {
        c := Some(text[pos]);
        pos := pos + 1;
      } else {
        c := None;
      }
    }

    /** `ungetc` of the character read last */
    method UngetC()
      requires Valid() && pos > 0
      modifies `pos
      ensures Valid() && pos == old(pos) - 1
    {
      pos := pos - 1;
    }

    /** Reads to the end of a comment line; returns its line feed, or `None` at the end. */
    method SkipComment() returns (c: Option<char>)
      requires Valid()
      modifies `pos
      ensures Valid() && old(pos) <= pos
      ensures c == None ==> AfterLine(old(Rest())) == "" && pos == |text|
      ensures c.Some? ==> old(pos) < pos && c.value == '\n' && AfterLine(old(Rest())) == text[pos..]
    {
      c := GetC();
      while c.Some? && c.value != '\n'
        invariant Valid() && old(pos) <= pos
        invariant c == None ==> pos == |text| && AfterLine(text[old(pos)..]) == ""
        invariant c.Some? ==> old(pos) < pos && c.value == text[pos - 1]
        invariant c.Some? ==> AfterLine(text[old(pos)..]) == AfterLine(text[pos - 1..])
        decreases |text| - pos, c.Some?
      {
        assert text[pos - 1..][1..] == text[pos..];
        c := GetC();
      }
      if c.Some? {
        assert text[pos - 1..][1..] == text[pos..];
      }
    }

    /** Reads past white space and comments; returns the first other character, or `None` at the end. */
    method SkipSpace() returns (c: Option<char>)
      requires Valid()
      modifies `pos
      ensures Valid() && old(pos) <= pos
      ensures c == None ==> SkipBlanks(old(Rest())) == "" && Rest() == ""
      ensures c.Some? ==> 0 < pos && c.value == text[pos - 1] && SkipBlanks(old(Rest())) == text[pos - 1..]
    {
      hide AfterLine, SkipBlanks;
      c := GetC();
      while c.Some?
        invariant Valid() && old(pos) <= pos
        invariant c == None ==> SkipBlanks(old(Rest())) == "" && pos == |text|
        invariant c.Some? ==> 0 < pos && c.value == text[pos - 1]
        invariant c.Some? ==> SkipBlanks(old(Rest())) == SkipBlanks(text[pos - 1..])
        decreases |text| - pos, c.Some?
      {
        BlankStep(text[pos - 1..]);
        assert text[pos - 1..][1..] == text[pos..];
        if c.value == '#' {
          c := SkipComment();
          if c == None {
            return;
          }
        } else if !IsSpace(c.value) {
          break;
        }
        c := GetC();
      }
    }

    /** Appends characters of a number to the token. */
    method ScanNumber()
      requires Valid() && pos > 0
      modifies `pos, `token
      ensures Valid()
      ensures var n := NumSpan(old(Rest()), false);
              token == old(token) + old(Rest())[..n] && Rest() == old(Rest())[n..]
    {
      hide NumSpan;
      ghost var rest := Rest();
      var foundDot := false;
      var c := GetC();
      ghost var n := 0;
      while c.Some? && (IsDigit(c.value) || (c.value == '.' && !foundDot))
        invariant Valid() && n <= |rest| && rest == old(text[pos..])
        invariant c.Some? ==> n < |rest| && c.value == rest[n] && pos == old(pos) + n + 1
        invariant c == None ==> n == |rest| && pos == old(pos) + n
        invariant token == old(token) + rest[..n]
        invariant NumSpan(rest, false) == n + NumSpan(rest[n..], foundDot)
        decreases |text| - pos, c.Some?
      {
        NumStep(rest, n, foundDot);
        SliceStep(rest, n);
        Assoc(old(token), rest[..n], [c.value]);
        token := token + [c.value];
        if c.value == '.' {
          foundDot := true;
        }
        n := n + 1;
        c := GetC();
      }
      NumStop(rest, n, foundDot);
      if c.Some? {
        UngetC();
      }
    }

    /** Appends characters of an identifier to the token. */
    method ScanId()
      requires Valid()
      modifies `pos, `token
      ensures Valid()
      ensures var n := IdSpan(old(Rest()));
              token == old(token) + old(Rest())[..n] && Rest() == old(Rest())[n..]
    {
      ghost var rest := Rest();
      var c := GetC();
      ghost var n := 0;
      while c.Some? && (IsAlnum(c.value) || c.value == '_')
        invariant Valid() && n <= |rest| && rest == old(text[pos..])
        invariant c.Some? ==> n < |rest| && c.value == rest[n] && pos == old(pos) + n + 1
        invariant c == None ==> n == |rest| && pos == old(pos) + n
        invariant token == old(token) + rest[..n]
        invariant IdSpan(rest) == n + IdSpan(rest[n..])
        decreases |text| - pos, c.Some?
      {
        assert rest[n..][1..] == rest[n + 1..];
        SliceStep(rest, n);
        Assoc(old(token), rest[..n], [c.value]);
        token := token + [c.value];
        n := n + 1;
        c := GetC();
      }
      if c.Some? {
        UngetC();
      }
    }

    /** Appends the characters up to a closing quote, which is consumed and reported. */
    method ScanString() returns (closed: bool)
      requires Valid()
      modifies `pos, `token
      ensures Valid()
      ensures var n := QuoteSpan(old(Rest()));
              && closed == (n < |old(Rest())|)
              && token == old(token) + old(Rest())[..n]
              && Rest() == if closed then old(Rest())[n + 1..] else ""
    {
      ghost var rest := Rest();
      var c := GetC();
      ghost var n := 0;
      while c.Some? && c.value != '"'
        invariant Valid() && n <= |rest| && rest == old(text[pos..])
        invariant c.Some? ==> n < |rest| && c.value == rest[n] && pos == old(pos) + n + 1
        invariant c == None ==> n == |rest| && pos == old(pos) + n
        invariant token == old(token) + rest[..n]
        invariant QuoteSpan(rest) == n + QuoteSpan(rest[n..])
        decreases |text| - pos, c.Some?
      {
        assert rest[n..][1..] == rest[n + 1..];
        SliceStep(rest, n);
        Assoc(old(token), rest[..n], [c.value]);
        token := token + [c.value];
        n := n + 1;
        c := GetC();
      }
      closed := c.Some?;
    }

    /** `next_token` */
    method NextToken() returns (kind: TokType)
      requires Valid()
      modifies this
      ensures Valid()
      ensures AsToken(kind, token) == Lex(old(Rest())).tok
      ensures Rest() == Lex(old(Rest())).rest
      ensures kind == TOK_SYM ==> |token| == 1
    {
      token := "";
      var c := SkipSpace();
      if c == None {
        return TOK_EOF;
      }
      assert text[pos - 1..] == [c.value] + Rest();
      kind := TokenFrom(c.value);
    }

    /** The part of `next_token` after the first character of the token is read. */
    method TokenFrom(c: char) returns (kind: TokType)
      requires Valid() && pos > 0
      modifies `pos, `token
      ensures Valid()
      ensures AsToken(kind, token) == LexAt([c] + old(Rest())).tok
      ensures Rest() == LexAt([c] + old(Rest())).rest
      ensures kind == TOK_SYM ==> |token| == 1
    {
      ghost var t := [c] + Rest();
      assert t[1..] == Rest();
      token := [c];
      if IsDigit(c) || c == '-' || c == '+' {
        ScanNumber();
        return TOK_NUM;
      }
      if IsAlpha(c) {
        ScanId();
        return TOK_ID;
      }
      if c == '"' {
        token := "";
        var closed := ScanString();
        if !closed {
          return TOK_EOF;
        }
        return TOK_STR;
      }
      return TOK_SYM;
    }
  }
}
