/** Listing lines made of columns: what an entry shows is what its columns say. */
module FtpColumns {
  import opened Options
  import opened Seqs
  import opened Ctype
  import opened Decimal
  import opened TextLines
  import opened FtpListing
  import opened FtpDirectory

  predicate Word(w: string) {
    w != "" && forall i | 0 <= i < |w| :: !IsSpace(w[i]) && w[i] != NUL
  }

  predicate Gap(g: string) {
    g != "" && forall i | 0 <= i < |g| :: IsSpace(g[i]) && g[i] != '\n'
  }

  /** Columns with a gap after each, and the rest of the line. */
  function Row(ws: seq<string>, gs: seq<string>, last: string): string
    requires |ws| == |gs|
  {
    if ws == [] then last else ws[0] + (gs[0] + Row(ws[1..], gs[1..], last))
  }

  predicate Columns(ws: seq<string>, gs: seq<string>) {
    |ws| == |gs| && forall i | 0 <= i < |ws| :: Word(ws[i]) && Gap(gs[i])
  }

  predicate Dark(s: string) {
    s != "" && !IsSpace(s[0])
  }

  lemma {:induction false} WordSkipped(w: string, x: string)
    requires (forall i | 0 <= i < |w| :: !IsSpace(w[i]) && w[i] != NUL) && (x != "" ==> IsSpace(x[0]))
    ensures SkipWord(w + x) == x
  {
    if w == "" {
      NilAppend(x);
    } else {
      DropFirst(w, x);
      WordSkipped(w[1..], x);
    }
  }

  lemma {:induction false} GapSkipped(g: string, x: string)
    requires (forall i | 0 <= i < |g| :: IsSpace(g[i]) && g[i] != '\n') && Dark(x)
    ensures SkipGap(g + x) == x
  {
    if g == "" {
      NilAppend(x);
    } else {
      DropFirst(g, x);
      GapSkipped(g[1..], x);
    }
  }

  lemma RowStartsDark(ws: seq<string>, gs: seq<string>, last: string)
    requires Columns(ws, gs) && Dark(last)
    ensures Dark(Row(ws, gs, last))
  {
  }

  /** Skipping fields of a row drops its columns. */
  lemma {:induction false} FieldsOfRow(ws: seq<string>, gs: seq<string>, last: string, n: nat)
    requires Columns(ws, gs) && Dark(last) && n <= |ws|
    ensures SkipFields(Row(ws, gs, last), n) == Row(ws[n..], gs[n..], last)
    decreases n
  {
    if n == 0 {
      assert ws[0..] == ws && gs[0..] == gs;
    } else {
      var more := Row(ws[1..], gs[1..], last);
      RowStartsDark(ws[1..], gs[1..], last);
      WordSkipped(ws[0], gs[0] + more);
      GapSkipped(gs[0], more);
      FieldsOfRow(ws[1..], gs[1..], last, n - 1);
      assert ws[1..][n - 1..] == ws[n..] && gs[1..][n - 1..] == gs[n..];
    }
  }

  /** Fields of a line that may start with blanks: the first word may be empty. */
  predicate Fields(ws: seq<string>, gs: seq<string>) {
    && |ws| == |gs| > 0 && Gap(gs[0]) && (ws[0] == "" || Word(ws[0]))
    && Columns(ws[1..], gs[1..])
  }

  lemma FieldsOfLine(ws: seq<string>, gs: seq<string>, last: string, n: nat)
    requires Fields(ws, gs) && Dark(last) && 0 < n <= |ws|
    ensures SkipFields(Row(ws, gs, last), n) == Row(ws[n..], gs[n..], last)
  {
    var more := Row(ws[1..], gs[1..], last);
    RowStartsDark(ws[1..], gs[1..], last);
    WordSkipped(ws[0], gs[0] + more);
    GapSkipped(gs[0], more);
    FieldsOfRow(ws[1..], gs[1..], last, n - 1);
    assert ws[1..][n - 1..] == ws[n..] && gs[1..][n - 1..] == gs[n..];
  }

  lemma LineTail(s: string)
    requires Line(s) && s != ""
    ensures Line(s[1..]) && s[0] != NUL && s[0] != '\n' && s == [s[0]] + s[1..]
  {
    assert s[0] in s && forall c | c in s[1..] :: c in s;
  }

  /** The word and the gap in front of the next field. */
  lemma {:induction false} WordSplit(s: string) returns (w: string)
    requires Line(s)
    ensures s == w + SkipWord(s) && forall i | 0 <= i < |w| :: !IsSpace(w[i]) && w[i] != NUL
    ensures SkipWord(s) != "" ==> IsSpace(SkipWord(s)[0])
    ensures s != "" && !IsSpace(s[0]) ==> w != ""
  {
    if s == "" || IsSpace(s[0]) {
      w := "";
      NilAppend(s);
    } else {
      LineTail(s);
      var v := WordSplit(s[1..]);
      w := [s[0]] + v;
      assert SkipWord(s) == SkipWord(s[1..]);
      hide SkipWord;
      Assoc([s[0]], v, SkipWord(s));
    }
  }

  lemma {:induction false} GapSplit(s: string) returns (g: string)
    requires Line(s)
    ensures s == g + SkipGap(s) && forall i | 0 <= i < |g| :: IsSpace(g[i]) && g[i] != '\n'
    ensures s != "" && IsSpace(s[0]) ==> g != ""
  {
    if s == "" || !IsSpace(s[0]) {
      g := "";
      NilAppend(s);
    } else {
      LineTail(s);
      var h := GapSplit(s[1..]);
      g := [s[0]] + h;
      assert SkipGap(s) == SkipGap(s[1..]);
      hide SkipGap;
      Assoc([s[0]], h, SkipGap(s));
    }
  }

  /** A line with something behind `n` fields is made of such fields and that rest. */
  lemma {:induction false} LineIsRow(l: string, n: nat) returns (ws: seq<string>, gs: seq<string>)
    requires Line(l) && n > 0 && SkipFields(l, n) != ""
    ensures |ws| == n && Fields(ws, gs) && l == Row(ws, gs, SkipFields(l, n))
    ensures Dark(SkipFields(l, n))
    ensures l != "" && !IsSpace(l[0]) ==> ws[0] != ""
    decreases n
  {
    var w, g := FirstField(l);
    var z := SkipGap(SkipWord(l));
    NoFields(n - 1);
    assert SkipFields(l, n) == SkipFields(z, n - 1) && z != "";
    hide SkipFields, SkipWord, SkipGap, Line, Row;
    if n == 1 {
      ws, gs := [w], [g];
      NoMoreFields(z);
      OneRow(w, g, z);
    } else {
      ws, gs := LineIsRow(z, n - 1);
      var last := SkipFields(l, n);
      ColumnsOfDark(ws, gs);
      RowMore(w, g, ws, gs, last);
      ws, gs := [w] + ws, [g] + gs;
    }
  }

  lemma NoMoreFields(z: string)
    ensures SkipFields(z, 0) == z
  {
  }

  lemma OneRow(w: string, g: string, z: string)
    requires Gap(g) && (w == "" || Word(w))
    ensures Fields([w], [g]) && Row([w], [g], z) == w + (g + z)
  {
    assert [w][1..] == [] && [g][1..] == [];
  }

  lemma RowMore(w: string, g: string, ws: seq<string>, gs: seq<string>, last: string)
    requires Columns(ws, gs) && Gap(g) && (w == "" || Word(w))
    ensures Fields([w] + ws, [g] + gs) && Row([w] + ws, [g] + gs, last) == w + (g + Row(ws, gs, last))
  {
    assert ([w] + ws)[1..] == ws && ([g] + gs)[1..] == gs;
  }

  /** What stands in front of the second field. */
  lemma FirstField(l: string) returns (w: string, g: string)
    requires Line(l)
    ensures var z := SkipGap(SkipWord(l));
            && l == w + (g + z) && (w == "" || Word(w)) && Line(z)
            && (z != "" ==> Gap(g) && !IsSpace(z[0]))
            && (l != "" && !IsSpace(l[0]) ==> w != "")
  {
    hide SkipWord, SkipGap, IsSuffix, Line;
    w := WordSplit(l);
    var t := SkipWord(l);
    SkipsAreSuffixes(l);
    SuffixOfLine(t, l);
    g := GapSplit(t);
    var z := SkipGap(t);
    SkipsAreSuffixes(t);
    SuffixOfLine(z, t);
    assert |z| <= |t|;
    DarkStart(z);
  }

  lemma DarkStart(z: string)
    requires Line(z) && (z != "" ==> z[0] == '\n' || !IsSpace(z[0]))
    ensures z != "" ==> !IsSpace(z[0])
  {
    assert z != "" ==> z[0] in z;
  }

  lemma ColumnsOfDark(ws: seq<string>, gs: seq<string>)
    requires Fields(ws, gs) && ws[0] != ""
    ensures Columns(ws, gs)
  {
    forall i | 0 <= i < |ws| ensures Word(ws[i]) && Gap(gs[i]) {
      assert i > 0 ==> ws[1..][i - 1] == ws[i] && gs[1..][i - 1] == gs[i];
    }
  }

  /** No link arrow in a name. */
  predicate NoArrow(s: string) {
    forall i | 0 <= i < |s| - 1 :: !(s[i] == '-' && s[i + 1] == '>')
  }

  lemma NoArrowRest(s: string)
    requires s != "" && NoArrow(s)
    ensures NoArrow(s[1..])
  {
    var t := s[1..];
    forall i | 0 <= i < |t| - 1 ensures !(t[i] == '-' && t[i + 1] == '>') {
      assert t[i] == s[i + 1] && t[i + 1] == s[i + 2];
    }
  }

  lemma {:induction false} ArrowBehind(s: string, target: string)
    requires NoArrow(s)
    ensures ArrowAt(s) == |s|
    ensures ArrowAt(s + ("->" + target)) == |s|
  {
    var x := "->" + target;
    if s == "" {
      NilAppend(x);
    } else {
      DropFirst(s, x);
      assert (s + x)[0] == s[0] && (s + x)[1] == if |s| == 1 then '-' else s[1];
      NoArrowRest(s);
      ArrowBehind(s[1..], target);
    }
  }

  lemma {:induction false} TrimBlanks(name: string, g: string)
    requires name != "" && !IsSpace(name[|name| - 1]) && forall i | 0 <= i < |g| :: IsSpace(g[i])
    ensures TrimEnd(name + g) == name
    decreases |g|
  {
    if g == "" {
      AppendNil(name);
    } else {
      var init := g[..|g| - 1];
      assert (name + g)[..|name + g| - 1] == name + init;
      TrimBlanks(name, init);
    }
  }

  lemma PlainName(name: string)
    requires NoArrow(name)
    ensures NameOf(name) == name
  {
    ArrowBehind(name, "");
  }

  lemma LinkName(name: string, g: string, target: string)
    requires name != "" && !IsSpace(name[|name| - 1]) && NoArrow(name + g) && forall i | 0 <= i < |g| :: IsSpace(g[i])
    ensures NameOf(name + g + ("->" + target)) == name
  {
    ArrowBehind(name + g, target);
    TrimBlanks(name, g);
    assert (name + g + ("->" + target))[..|name + g|] == name + g;
  }

  lemma NameOrNone(field: string)
    requires field != ""
    ensures NameOf(field) == "" <==> "->" <= field
  {
    assert |field| >= 2 ==> field[..2] == [field[0], field[1]];
  }

  /** The line has eight fields and, behind them, a ninth one that does not start with an arrow. */
  predicate NineFields(l: string, ws: seq<string>, gs: seq<string>, last: string) {
    |ws| == 8 && Fields(ws, gs) && Dark(last) && !("->" <= last) && l == Row(ws, gs, last)
  }

  lemma EntryOfFields(l: string, ws: seq<string>, gs: seq<string>, last: string)
    requires NineFields(l, ws, gs, last)
    ensures LineEntry(l) == Some(MakeEntry(l[0] == 'd', NameOf(last), Atoi(ws[4]))) && l != ""
  {
    FieldsOfLine(ws, gs, last, 8);
    FieldsOfLine(ws, gs, last, 4);
    NameOrNone(last);
    assert ws[8..] == [] && ws[4..][0] == ws[4] && gs[4..][0] == gs[4];
    assert ws[1..][3] == ws[4] && gs[1..][3] == gs[4];
    AtoiBefore(ws[4], gs[4] + Row(ws[4..][1..], gs[4..][1..], last));
    hide SkipFields, NameOf, Atoi;
  }

  /**
   A line gives an entry if and only if it has a ninth field with a name in it. Its kind is
   in the first character, its name is the ninth field up to a link arrow, and its size is
   the number in the fifth.
   */
  lemma NinthField(l: string)
    requires Line(l)
    ensures LineEntry(l).Some? <==> exists ws, gs, last :: NineFields(l, ws, gs, last)
    ensures forall ws, gs, last | NineFields(l, ws, gs, last) ::
              l != "" && LineEntry(l) == Some(MakeEntry(l[0] == 'd', NameOf(last), Atoi(ws[4])))
  {
    forall ws, gs, last | NineFields(l, ws, gs, last)
      ensures l != "" && LineEntry(l) == Some(MakeEntry(l[0] == 'd', NameOf(last), Atoi(ws[4])))
    {
      EntryOfFields(l, ws, gs, last);
    }
    if LineEntry(l).Some? {
      var last := SkipFields(l, 8);
      EmptyName();
      NameOrNone(last);
      var ws, gs := LineIsRow(l, 8);
      assert NineFields(l, ws, gs, last);
    }
  }

  lemma RowEntry(ws: seq<string>, gs: seq<string>, field: string)
    requires Columns(ws, gs) && |ws| == 8 && Dark(field) && NameOf(field) != ""
    ensures LineEntry(Row(ws, gs, field)) == Some(MakeEntry(ws[0][0] == 'd', NameOf(field), Atoi(ws[4])))
  {
    NameOrNone(field);
    assert Columns(ws[1..], gs[1..]);
    EntryOfFields(Row(ws, gs, field), ws, gs, field);
  }

  lemma SizeOfNumeral(n: nat)
    ensures Atoi(Digits(n)) == n
  {
    var d := Digits(n);
    AppendNil(d);
    DigitSpanPrefix(d, "");
    ValueOfDigits(n);
  }

  /** A sign in front of the size counts. */
  lemma SizeOfSigned(neg: bool, n: nat)
    ensures Atoi([if neg then '-' else '+'] + Digits(n)) == (if neg then -1 else 1) * n
  {
    var d := Digits(n);
    var s := [if neg then '-' else '+'] + d;
    assert s[1..] == d && SkipSpaces(s) == s;
    AppendNil(d);
    DigitSpanPrefix(d, "");
    ValueOfDigits(n);
  }

  /** A line of eight columns and a name becomes the entry they describe. */
  lemma EntryOfRow(ws: seq<string>, gs: seq<string>, name: string)
    requires Columns(ws, gs) && |ws| == 8 && Dark(name) && NoArrow(name)
    ensures LineEntry(Row(ws, gs, name))
         == Some(if ws[0][0] == 'd' then Dir(name) else File(name, Atoi(ws[4])))
    ensures forall size: nat | ws[4] == Digits(size) :: Atoi(ws[4]) == size
  {
    PlainName(name);
    RowEntry(ws, gs, name);
    forall size: nat | ws[4] == Digits(size) ensures Atoi(ws[4]) == size {
      SizeOfNumeral(size);
    }
  }

  /** The target of a link, its arrow and the blanks before it are not part of the name. */
  lemma EntryOfLink(ws: seq<string>, gs: seq<string>, name: string, g: string, target: string)
    requires Columns(ws, gs) && |ws| == 8
    requires Dark(name) && !IsSpace(name[|name| - 1])
    requires NoArrow(name + g) && forall i | 0 <= i < |g| :: IsSpace(g[i])
    ensures LineEntry(Row(ws, gs, name + g + ("->" + target)))
         == Some(if ws[0][0] == 'd' then Dir(name) else File(name, Atoi(ws[4])))
  {
    LinkName(name, g, target);
    RowEntry(ws, gs, name + g + ("->" + target));
  }

  lemma {:induction false} OnlyBlanks(b: string)
    requires forall i | 0 <= i < |b| :: IsSpace(b[i]) && b[i] != '\n'
    ensures SkipGap(b) == ""
  {
    if b != "" {
      OnlyBlanks(b[1..]);
    }
  }

  /** A line of at most eight fields has no entry, with blanks in front and behind or without. */
  lemma TooFewColumns(ws: seq<string>, gs: seq<string>, w: string, b: string)
    requires |ws| == |gs| < 8 && (ws != [] ==> Fields(ws, gs))
    requires Word(w) && (b != "" ==> Gap(b))
    ensures LineEntry(Row(ws, gs, w + b)) == None
  {
    var n, last := |ws|, w + b;
    if n > 0 {
      FieldsOfLine(ws, gs, last, n);
      assert ws[n..] == [];
    }
    FieldsAdd(Row(ws, gs, last), n, 8 - n);
    WordSkipped(w, b);
    OnlyBlanks(b);
    NoFields(7 - n);
    EmptyName();
  }

  // ---- a line feed alone, and a return later ----

  lemma {:induction false} ArrowInFront(s: string, y: string)
    ensures ArrowAt(s) < |s| ==> ArrowAt(s + y) == ArrowAt(s) && (s + y)[..ArrowAt(s)] == s[..ArrowAt(s)]
    decreases |s|
  {
    if |s| >= 2 && !(s[0] == '-' && s[1] == '>') {
      DropFirst(s, y);
      assert (s + y)[0] == s[0] && (s + y)[1] == s[1];
      ArrowInFront(s[1..], y);
    }
  }

  lemma NoArrowJoined(s: string, y: string)
    requires NoArrow(s) && NoArrow(y) && y != "" && y[0] == '\n'
    ensures NoArrow(s + y)
  {
    var t := s + y;
    forall i | 0 <= i < |t| - 1 ensures !(t[i] == '-' && t[i + 1] == '>') {
      assert i >= |s| ==> t[i] == y[i - |s|] && t[i + 1] == y[i + 1 - |s|];
    }
  }

  lemma {:induction false} NoArrowIfNone(s: string)
    requires ArrowAt(s) == |s|
    ensures NoArrow(s)
  {
    if |s| >= 2 {
      NoArrowIfNone(s[1..]);
      forall i | 0 <= i < |s| - 1 ensures !(s[i] == '-' && s[i + 1] == '>') {
        assert i > 0 ==> s[i] == s[1..][i - 1] && s[i + 1] == s[1..][i];
      }
    }
  }

  /** The name of a field that is taken to go on behind its line. */
  lemma NameRunsOn(f: string, y: string)
    requires y != "" && y[0] == '\n' && NoArrow(y)
    ensures NameOf(f + y) == NameOf(f) <==> ArrowAt(f) < |f|
    ensures f == "" ==> NameOf(f + y) != ""
  {
    ArrowInFront(f, y);
    if ArrowAt(f) == |f| {
      NoArrowIfNone(f);
      NoArrowJoined(f, y);
      PlainName(f + y);
      PlainName(f);
    }
  }

  /**
   A line that ends by a line feed alone, with a carriage return in a later line, is taken
   to end at that return; its entry is right if and only if its ninth field has a link arrow.
   */
  lemma ReturnBehindLine(l: string, mid: string, rest: string)
    requires Line(l) && '\r' !in mid && NUL !in mid && NoArrow(mid)
    ensures ParseEntry(l + (LF + mid + ("\r" + rest))) == LineEntry(l)
       <==> ArrowAt(SkipFields(l, 8)) < |SkipFields(l, 8)|
  {
    var y, z := LF + mid, "\r" + rest;
    var s, f := l + (y + z), SkipFields(l, 8);
    assert y[0] == '\n';
    NoArrowLine(mid);
    NameRunsOn(f, y);
    RunOnParses(l, y, z);
    if f != "" {
      EndsAtReturn(l, y, z);
      SizeField(l, y + z);
      assert s[0] == l[0];
    }
    EmptyName();
    hide SkipFields, NameOf, ArrowAt, Atoi, ParseEntry;
  }

  /** What is parsed is the field up to the return. */
  lemma RunOnParses(l: string, y: string, z: string)
    requires Line(l) && y != "" && y[0] == '\n' && '\r' !in y && NUL !in y && z != "" && z[0] == '\r'
    ensures var s, name := l + (y + z), NameOf(SkipFields(l, 8) + y);
            s != "" && ParseEntry(s)
              == if name == "" then None else Some(MakeEntry(s[0] == 'd', name, Atoi(SkipFields(s, 4))))
  {
    hide *;
    var s, f := l + (y + z), SkipFields(l, 8);
    EndsAtReturn(l, y, z);
    FieldsBefore(l, y + z, 8);
    SkipFieldsSuffix(l, 8);
    SuffixAndMore(f, l, y, z);
    FieldStart(l, y, z, f, SkipFields(s, 8));
    ParsedAt(s, |l| - |f|, |l| + |y|, f + y);
  }

  /** The ninth field starts as far from the end as it is long. */
  lemma FieldStart(l: string, y: string, z: string, f: string, r: string)
    requires IsSuffix(f, l) && LF <= y + z && y != "" && (if f == "" then r == y + z else r == f + (y + z))
    ensures var s := l + (y + z);
            |s| - |r| == |l| - |f| && |l| + |y| <= |s| && 0 <= |l| - |f| < |l| + |y|
  {
  }

  lemma ParsedAt(s: string, p: nat, end: nat, field: string)
    requires p < end <= |s| && |SkipFields(s, 8)| == |s| - p && LineEnd(s) == Some(end) && s[p..end] == field
    ensures ParseEntry(s)
         == if NameOf(field) == "" then None else Some(MakeEntry(s[0] == 'd', NameOf(field), Atoi(SkipFields(s, 4))))
  {
    hide SkipFields, NameOf, Atoi, LineEnd;
  }

  lemma EndsAtReturn(l: string, y: string, z: string)
    requires Line(l) && y != "" && y[0] == '\n' && '\r' !in y && NUL !in y && z != "" && z[0] == '\r'
    ensures LF <= y + z && Break(y + z) && LineEnd(l + (y + z)) == Some(|l| + |y|)
  {
    Assoc(l, y, z);
    assert (y + z)[..1] == LF;
    IndexBefore(l + y, '\r', z);
  }

  lemma SuffixAndMore(f: string, l: string, y: string, z: string)
    requires IsSuffix(f, l)
    ensures (l + (y + z))[|l| - |f|..|l| + |y|] == f + y
  {
    Assoc(l, y, z);
    assert (l + y + z)[..|l| + |y|] == l + y;
    assert (l + y)[|l| - |f|..] == f + y;
  }

  lemma NoArrowLine(mid: string)
    requires NoArrow(mid)
    ensures NoArrow(LF + mid)
  {
    var y := LF + mid;
    forall i | 0 <= i < |y| - 1 ensures !(y[i] == '-' && y[i + 1] == '>') {
      assert i > 0 ==> y[i] == mid[i - 1] && y[i + 1] == mid[i];
    }
  }
}
