/** What a response line says: its code, and the quoted path of a PWD reply. */
module FtpReply {
  import opened Ctype
  import opened Decimal
  import opened Options
  import opened Seqs

  /** `respcode`: negative for a line that others follow, zero for a line without a code. */
  function RespCode(resp: string): int {
    if |resp| < 3 || !AllDigits(resp[..3]) then 0
    else
      var c := if |resp| == 3 then NUL else resp[3];
      var code: int := Value(resp[..3]);
      if IsSpace(c) then code else if c == '-' then -code else 0
  }

  lemma {:induction false} PadOfValue(d: string)
    requires AllDigits(d)
    ensures PadDigits(Value(d), |d|) == d
  {
    if d != "" {
      var init, last := d[..|d| - 1], d[|d| - 1];
      PadOfValue(init);
      SameDigit(Value(init), last);
      assert d == init + [last];
    }
  }

  lemma SameDigit(n: nat, c: char)
    requires IsDigit(c)
    ensures var m := 10 * n + (c as int - '0' as int); m / 10 == n && DigitChar(m % 10) == c
  {
  }

  lemma PadStep(n: nat, k: nat)
    requires k > 0
    ensures Value(PadDigits(n, k)) == 10 * Value(PadDigits(n / 10, k - 1)) + n % 10
  {
    DropLast(PadDigits(n / 10, k - 1), DigitChar(n % 10));
  }

  lemma ValueOfPad(n: nat)
    requires n < 1000
    ensures Value(PadDigits(n, 3)) == n
  {
    hide PadDigits, Value;
    PadStep(n, 3);
    PadStep(n / 10, 2);
    PadStep(n / 100, 1);
    EmptyPad(n / 1000);
    assert n / 10 / 10 == n / 100 && n / 100 / 10 == n / 1000 == 0;
  }

  lemma EmptyPad(n: nat)
    ensures Value(PadDigits(n, 0)) == 0
  {
  }

  /** A line has a code exactly if it shows its three digits and then white space, or a dash if more lines follow. */
  lemma RespCodeExact(resp: string, n: int)
    requires 1 <= n <= 999
    ensures RespCode(resp) == n <==> |resp| > 3 && resp[..3] == PadDigits(n, 3) && IsSpace(resp[3])
    ensures RespCode(resp) == -n <==> |resp| > 3 && resp[..3] == PadDigits(n, 3) && resp[3] == '-'
  {
    ValueOfPad(n);
    if |resp| > 3 && AllDigits(resp[..3]) {
      PadOfValue(resp[..3]);
    }
  }

  /** The code that `proc_control` sees: blanks in front of the line do not matter. */
  function LineCode(line: string): int {
    RespCode(SkipSpaces(line))
  }

  lemma LineCodeBehindBlanks(blanks: string, resp: string)
    requires (forall i | 0 <= i < |blanks| :: IsSpace(blanks[i])) && (resp == "" || !IsSpace(resp[0]))
    ensures LineCode(blanks + resp) == RespCode(resp)
  {
    BlanksSkipped(blanks, resp);
  }

  /** A line that shows a code behind its blanks has that code. */
  lemma CodeOfLine(n: nat, more: string)
    requires 1 <= n <= 999
    ensures LineCode(PadDigits(n, 3) + " " + more) == n
  {
    var line := PadDigits(n, 3) + " " + more;
    assert line[..3] == PadDigits(n, 3) && line[0] == PadDigits(n, 3)[0] && line[3] == ' ';
    RespCodeExact(line, n);
  }

  // ---- quoted text ----

  /** Number of characters before the first double quote. */
  function UpToQuote(s: string): (n: nat)
    ensures n <= |s| && '"' !in s[..n]
    ensures n < |s| ==> s[n] == '"'
  {
    if s == "" || s[0] == '"' then 0
    else
      var m := UpToQuote(s[1..]);
      assert s[..m + 1] == [s[0]] + s[1..][..m];
      m + 1
  }

  /** `get_quoted_text` */
  function QuotedText(s: string): Option<string> {
    var n := UpToQuote(s);
    if n == |s| then None
    else
      var t := s[n + 1..];
      var m := UpToQuote(t);
      if m == |t| then None else Some(t[..m])
  }

  lemma {:induction false} UpToQuoteBefore(a: string, x: string)
    requires '"' !in a && x != "" && x[0] == '"'
    ensures UpToQuote(a + x) == |a|
  {
    if a == "" {
      NilAppend(x);
    } else {
      DropFirst(a, x);
      UpToQuoteBefore(a[1..], x);
    }
  }

  /** The quoted text is what stands between the first two quotes. */
  lemma QuotedIsFound(pre: string, text: string, post: string)
    requires '"' !in pre && '"' !in text
    ensures QuotedText(pre + (['"'] + (text + (['"'] + post)))) == Some(text)
  {
    var y := text + (['"'] + post);
    var x := ['"'] + y;
    UpToQuoteBefore(pre, x);
    assert (pre + x)[|pre| + 1..] == y;
    UpToQuoteBefore(text, ['"'] + post);
    assert y[..|text|] == text;
  }

  function Quotes(s: string): nat {
    if s == "" then 0 else (if s[0] == '"' then 1 else 0) + Quotes(s[1..])
  }

  /** Behind the first quote there is one less. */
  lemma {:induction false} QuotesBehind(s: string)
    ensures var n := UpToQuote(s);
            if n == |s| then Quotes(s) == 0 else Quotes(s) == 1 + Quotes(s[n + 1..])
  {
    if s != "" && s[0] != '"' {
      QuotesBehind(s[1..]);
      if UpToQuote(s) < |s| {
        assert s[UpToQuote(s) + 1..] == s[1..][UpToQuote(s[1..]) + 1..];
      }
    }
  }

  /** A line is refused if and only if it holds fewer than two quotes. */
  lemma QuotedExact(s: string)
    ensures QuotedText(s) == None <==> Quotes(s) < 2
  {
    QuotesBehind(s);
    var n := UpToQuote(s);
    if n < |s| {
      QuotesBehind(s[n + 1..]);
    }
  }
}
