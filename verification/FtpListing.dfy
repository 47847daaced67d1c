/** Directory listings: accumulating the transfer, parsing the lines, ordering the entries. */
module FtpListing {
  import opened Options
  import opened Seqs
  import opened Ctype
  import opened Decimal
  import opened TextLines

  /** A directory entry; the code stores a size for files only. */
  datatype Dirent = Dir(name: string) | File(name: string, size: int)

  // ---- one line ----

  /** `SKIP_FIELD`: non-blanks, then blanks, never past a line feed or a zero. */
  function SkipWord(s: string): (r: string)
    ensures |r| <= |s|
  {
    if s != "" && s[0] != NUL && s[0] != '\n' && !IsSpace(s[0]) then SkipWord(s[1..]) else s
  }

  function SkipGap(s: string): (r: string)
    ensures |r| <= |s|
    ensures r != "" ==> r[0] == '\n' || !IsSpace(r[0])
  {
    if s != "" && s[0] != '\n' && IsSpace(s[0]) then SkipGap(s[1..]) else s
  }

  function SkipFields(s: string, n: nat): (r: string)
    ensures |r| <= |s|
    decreases n
  {
    if n == 0 then s else SkipFields(SkipGap(SkipWord(s)), n - 1)
  }

  /** Characters before the end of the line: the first CR, or else the first LF, before any zero. */
  function IndexOf(s: string, c: char): Option<nat> {
    if s == "" || s[0] == NUL then None
    else if s[0] == c then Some(0)
    else match IndexOf(s[1..], c)
      case None => None
      case Some(i) => Some(i + 1)
  }

  function LineEnd(s: string): Option<nat> {
    if IndexOf(s, '\r').Some? then IndexOf(s, '\r') else IndexOf(s, '\n')
  }

  /** `atoi` */
  function Atoi(s: string): int {
    var t := SkipSpaces(s);
    var signed := t != "" && (t[0] == '-' || t[0] == '+');
    var d := if signed then t[1..] else t;
    var v: int := Value(d[..DigitSpan(d)]);
    if signed && t[0] == '-' then -v else v
  }

  /** Where `->` starts, or the length. */
  function ArrowAt(s: string): (n: nat)
    ensures n <= |s|
    ensures n < |s| ==> n + 1 < |s| && s[n] == '-' && s[n + 1] == '>'
  {
    if |s| < 2 then |s|
    else if s[0] == '-' && s[1] == '>' then 0
    else 1 + ArrowAt(s[1..])
  }

  /** Drops trailing blanks, but never the first character. */
  function TrimEnd(s: string): (r: string)
    ensures r <= s && (s != "" ==> r != "")
    ensures |r| > 1 ==> !IsSpace(r[|r| - 1])
  {
    if |s| > 1 && IsSpace(s[|s| - 1]) then TrimEnd(s[..|s| - 1]) else s
  }

  /** The name field: cut before `->` with the blanks before it removed. */
  function NameOf(field: string): string {
    var n := ArrowAt(field);
    if n == |field| then field else TrimEnd(field[..n])
  }

  function MakeEntry(isDir: bool, name: string, size: int): Dirent {
    if isDir then Dir(name) else File(name, size)
  }

  /** What a line says, looked at by itself: an entry if it has a ninth field with a name in it. */
  function LineEntry(line: string): Option<Dirent> {
    var name := NameOf(SkipFields(line, 8));
    if name == "" then None
    else Some(MakeEntry(line != "" && line[0] == 'd', name, Atoi(SkipFields(line, 4))))
  }

  // ---- a line inside the transfer ----

  /** What `parse_dirent` finds in the bytes from a line's start to the end of the transfer. */
  function ParseEntry(s: string): Option<Dirent> {
    match LineEnd(s)
    case None => None
    case Some(end) =>
      var p := |s| - |SkipFields(s, 8)|;
      if p >= end || end > |s| then None
      else
        var name := NameOf(s[p..end]);
        if name == "" then None
        else Some(MakeEntry(s[0] == 'd', name, Atoi(SkipFields(s, 4))))
  }

  /** A line ends here, by CRLF or by a line feed alone. */
  predicate Break(x: string) {
    CRLF <= x || LF <= x
  }

  /** The text from the line feed on. */
  function AtLf(x: string): string
    requires Break(x)
  {
    if LF <= x then x else x[1..]
  }

  lemma {:induction false} IndexBefore(l: string, c: char, x: string)
    requires NUL !in l && c !in l && c != NUL && x != "" && x[0] == c
    ensures IndexOf(l + x, c) == Some(|l|)
  {
    if l == "" {
      assert l + x == x;
    } else {
      assert (l + x)[1..] == l[1..] + x;
      IndexBefore(l[1..], c, x);
    }
  }

  /** A zero hides everything behind it. */
  lemma {:induction false} IndexStops(l: string, c: char, x: string)
    requires NUL !in l && c !in l
    ensures IndexOf(l + ([NUL] + x), c) == None
  {
    if l == "" {
      NilAppend([NUL] + x);
    } else {
      DropFirst(l, [NUL] + x);
      IndexStops(l[1..], c, x);
    }
  }

  /** Bytes with a zero before the end of the line give no entry. */
  lemma ZeroInLine(l: string, x: string)
    requires Line(l)
    ensures ParseEntry(l + ([NUL] + x)) == None
  {
    IndexStops(l, '\r', x);
    IndexStops(l, '\n', x);
  }

  lemma {:induction false} SkipWordBefore(y: string, x: string)
    requires x != "" && IsSpace(x[0])
    ensures SkipWord(y + x) == SkipWord(y) + x
  {
    if y == "" {
      assert y + x == x;
    } else {
      assert (y + x)[1..] == y[1..] + x;
      SkipWordBefore(y[1..], x);
    }
  }

  lemma {:induction false} SkipGapBefore(y: string, x: string)
    requires '\n' !in y
    ensures SkipGap(y + x) == if SkipGap(y) == "" then SkipGap(x) else SkipGap(y) + x
  {
    if y == "" {
      assert y + x == x;
    } else {
      assert (y + x)[1..] == y[1..] + x;
      SkipGapBefore(y[1..], x);
    }
  }

  predicate IsSuffix(r: string, s: string) {
    |r| <= |s| && s[|s| - |r|..] == r
  }

  lemma SuffixTrans(a: string, b: string, c: string)
    requires IsSuffix(a, b) && IsSuffix(b, c)
    ensures IsSuffix(a, c)
  {
    var i, j := |b| - |a|, |c| - |b|;
    assert c[j..][i..] == c[i + j..];
  }

  lemma SuffixOfLine(r: string, l: string)
    requires IsSuffix(r, l) && Line(l)
    ensures Line(r)
  {
    assert forall c | c in r :: c in l;
  }

  lemma {:induction false} SkipsAreSuffixes(s: string)
    ensures IsSuffix(SkipWord(s), s) && IsSuffix(SkipGap(s), s)
  {
    assert IsSuffix(s, s);
    assert s[0..] == s;
    if s != "" {
      var t := s[1..];
      SkipsAreSuffixes(t);
      assert IsSuffix(t, s);
      SuffixTrans(SkipWord(t), t, s);
      SuffixTrans(SkipGap(t), t, s);
      hide IsSuffix;
      assert SkipWord(s) == s || SkipWord(s) == SkipWord(t);
      assert SkipGap(s) == s || SkipGap(s) == SkipGap(t);
    }
  }

  lemma FieldIsSuffix(s: string)
    ensures IsSuffix(SkipGap(SkipWord(s)), s)
  {
    SkipsAreSuffixes(s);
    SkipsAreSuffixes(SkipWord(s));
    SuffixTrans(SkipGap(SkipWord(s)), SkipWord(s), s);
  }

  /** Skipping fields of a line inside the transfer is skipping fields of the line, up to its end. */
  lemma {:induction false} FieldsBefore(l: string, x: string, n: nat)
    requires Line(l) && Break(x)
    ensures var r := SkipFields(l + x, n);
            if SkipFields(l, n) == "" then |r| <= |x| && (LF <= x ==> r == x) else r == SkipFields(l, n) + x
    decreases n
  {
    if n == 0 {
      NilAppend(x);
    } else {
      var z := SkipGap(SkipWord(l));
      OneFieldBefore(l, x);
      if z == "" {
        AtLineFeed(AtLf(x), n - 1);
        NoFields(n - 1);
      } else {
        FieldIsSuffix(l);
        SuffixOfLine(z, l);
        FieldsBefore(z, x, n - 1);
      }
    }
  }

  lemma OneFieldBefore(l: string, x: string)
    requires Line(l) && Break(x)
    ensures AtLf(x) != "" && AtLf(x)[0] == '\n'
    ensures var z := SkipGap(SkipWord(l));
            SkipGap(SkipWord(l + x)) == if z == "" then AtLf(x) else z + x
  {
    BreakGap(x);
    SkipWordBefore(l, x);
    SkipsAreSuffixes(l);
    SuffixOfLine(SkipWord(l), l);
    hide SkipWord, SkipGap, IsSuffix;
    SkipGapBefore(SkipWord(l), x);
  }

  lemma BreakGap(x: string)
    requires Break(x)
    ensures IsSpace(x[0]) && AtLf(x) != "" && AtLf(x)[0] == '\n' && SkipGap(x) == AtLf(x)
  {
    if CRLF <= x {
      assert x[0] == CRLF[0] && x[1] == CRLF[1];
      assert SkipGap(x) == SkipGap(x[1..]) == x[1..];
    } else {
      assert x[0] == LF[0];
    }
  }

  lemma {:induction false} AtLineFeed(s: string, n: nat)
    requires s != "" && s[0] == '\n'
    ensures SkipFields(s, n) == s
    decreases n
  {
    if n > 0 {
      AtLineFeed(s, n - 1);
    }
  }

  lemma {:induction false} NoFields(n: nat)
    ensures SkipFields("", n) == ""
    decreases n
  {
    if n > 0 {
      NoFields(n - 1);
    }
  }

  lemma {:induction false} SkipFieldsSuffix(s: string, n: nat)
    ensures IsSuffix(SkipFields(s, n), s)
    decreases n
  {
    if n > 0 {
      FieldIsSuffix(s);
      var z := SkipGap(SkipWord(s));
      SkipFieldsSuffix(z, n - 1);
      SuffixTrans(SkipFields(z, n - 1), z, s);
    }
  }

  lemma AtoiBefore(y: string, x: string)
    requires y != "" && !IsSpace(y[0]) && x != "" && IsSpace(x[0])
    ensures Atoi(y + x) == Atoi(y)
  {
    DropFirst(y, x);
    var d := if y[0] == '-' || y[0] == '+' then y[1..] else y;
    DigitSpanBefore(d, x);
    assert (d + x)[..DigitSpan(d)] == d[..DigitSpan(d)];
    hide DigitSpan, Value;
  }

  lemma {:induction false} FewerFields(s: string, m: nat, n: nat)
    requires m <= n && SkipFields(s, m) == ""
    ensures SkipFields(s, n) == ""
    decreases m
  {
    if m == 0 {
      NoFields(n);
    } else {
      FewerFields(SkipGap(SkipWord(s)), m - 1, n - 1);
    }
  }

  lemma {:induction false} FieldStartsDark(s: string, n: nat)
    requires Line(s) && n > 0
    ensures var r := SkipFields(s, n); r != "" ==> !IsSpace(r[0])
    decreases n
  {
    var z := SkipGap(SkipWord(s));
    FieldIsSuffix(s);
    SuffixOfLine(z, s);
    if n > 1 {
      FieldStartsDark(z, n - 1);
    }
  }

  /** A line is found to end where it ends, unless it ends by a line feed and a return comes later. */
  lemma EndOfLine(l: string, eol: string, more: string)
    requires Line(l) && (eol == CRLF || (eol == LF && '\r' !in more))
    ensures Break(eol + more) && LineEnd(l + (eol + more)) == Some(|l|)
  {
    var x := eol + more;
    if eol == CRLF {
      assert x[0] == '\r' && x[..2] == CRLF;
      IndexBefore(l, '\r', x);
    } else {
      assert x[0] == '\n' && x[..1] == LF;
      IndexBefore(l, '\n', x);
      assert '\r' !in l + x;
      NoIndex(l + x, '\r');
    }
  }

  lemma {:induction false} NoIndex(s: string, c: char)
    requires c !in s
    ensures IndexOf(s, c) == None
  {
    if s != "" {
      NoIndex(s[1..], c);
    }
  }

  /** Inside the transfer a line parses as it does by itself. */
  lemma LineParses(l: string, eol: string, more: string)
    requires Line(l) && (eol == CRLF || (eol == LF && '\r' !in more))
    ensures ParseEntry(l + (eol + more)) == LineEntry(l)
  {
    hide SkipFields, Atoi, NameOf, IndexOf;
    var x := eol + more;
    var s := l + x;
    EndOfLine(l, eol, more);
    FieldsBefore(l, x, 8);
    var f := SkipFields(l, 8);
    SkipFieldsSuffix(l, 8);
    if f == "" {
      EmptyName();
    } else {
      assert s[|l| - |f|..|l|] == f;
      SizeField(l, x);
    }
  }

  lemma EmptyName()
    ensures NameOf("") == ""
  {
  }

  /** The size field of a line that has a name field reads the same inside the transfer. */
  lemma SizeField(l: string, x: string)
    requires Line(l) && Break(x) && SkipFields(l, 8) != ""
    ensures l != "" && Atoi(SkipFields(l + x, 4)) == Atoi(SkipFields(l, 4))
  {
    if SkipFields(l, 4) == "" || l == "" {
      NoFields(4);
      FewerFields(l, 4, 8);
    }
    FieldsBefore(l, x, 4);
    FieldStartsDark(l, 4);
    BreakGap(x);
    AtoiBefore(SkipFields(l, 4), x);
  }

  // ---- all lines ----

  predicate IsBreak(c: char) { c == '\r' || c == '\n' }

  function ToBreak(s: string): (r: string)
    ensures |r| <= |s|
    ensures r != "" ==> IsBreak(r[0])
  {
    if s == "" || IsBreak(s[0]) then s else ToBreak(s[1..])
  }

  function SkipBreaks(s: string): (r: string)
    ensures |r| <= |s|
    ensures s != "" && IsBreak(s[0]) ==> |r| < |s|
  {
    if s == "" || !IsBreak(s[0]) then s else SkipBreaks(s[1..])
  }

  function OptSeq<T>(o: Option<T>): seq<T> {
    match o
    case None => []
    case Some(v) => [v]
  }

  /** The entries that the end-of-transfer loop collects. */
  function Entries(s: string): seq<Dirent>
    decreases |s|
  {
    if s == "" then []
    else OptSeq(ParseEntry(s)) + Entries(SkipBreaks(ToBreak(s)))
  }

  /** One entry for each line with a ninth field. */
  function LineEntries(lines: seq<string>): seq<Dirent> {
    if lines == [] then [] else OptSeq(LineEntry(lines[0])) + LineEntries(lines[1..])
  }

  lemma {:induction false} ToBreakBefore(l: string, x: string)
    requires Line(l) && x != "" && IsBreak(x[0])
    ensures ToBreak(l + x) == x
  {
    if l == "" {
      assert l + x == x;
    } else {
      assert (l + x)[1..] == l[1..] + x;
      ToBreakBefore(l[1..], x);
    }
  }

  lemma SkipBreak(eol: string, x: string)
    requires eol == CRLF || eol == LF
    ensures SkipBreaks(eol + x) == SkipBreaks(x)
  {
    assert (LF + x)[0] == '\n' && (LF + x)[1..] == x;
    assert (CRLF + x)[0] == '\r' && (CRLF + x)[1..] == LF + x;
  }

  lemma {:induction false} NoReturns(lines: seq<string>)
    requires forall i | 0 <= i < |lines| :: Line(lines[i])
    ensures '\r' !in AllEnded(lines, LF)
  {
    if lines != [] {
      NoReturns(lines[1..]);
    }
  }

  lemma BlankLine()
    ensures LineEntry("") == None
  {
    NoFields(8);
  }

  /** The collected entries are those of the lines, blank lines or not, with or without returns. */
  lemma {:induction false} EntriesOfListing(lines: seq<string>, eol: string)
    requires (forall i | 0 <= i < |lines| :: Line(lines[i])) && (eol == CRLF || eol == LF)
    ensures Entries(AllEnded(lines, eol)) == LineEntries(lines)
    ensures Entries(SkipBreaks(AllEnded(lines, eol))) == LineEntries(lines)
  {
    if lines != [] {
      var l, rest := lines[0], AllEnded(lines[1..], eol);
      EntriesOfListing(lines[1..], eol);
      NoReturns(lines[1..]);
      LineParses(l, eol, rest);
      EndOfLine(l, eol, rest);
      BreakGap(eol + rest);
      ToBreakBefore(l, eol + rest);
      SkipBreak(eol, rest);
      if l == "" {
        BlankLine();
        NilAppend(eol + rest);
        NilAppend(LineEntries(lines[1..]));
      } else {
        assert AllEnded(lines, eol)[0] == l[0];
      }
    }
  }
}
