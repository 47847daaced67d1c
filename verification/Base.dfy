module Options {
  datatype Option<+T> = None | Some(value: T)
}

/** Sequence facts that the solver is best told one at a time. */
module Seqs {

  lemma Assoc<T>(a: seq<T>, b: seq<T>, c: seq<T>)
    ensures a + (b + c) == a + b + c
  {
  }

  lemma NilAppend<T>(s: seq<T>)
    ensures [] + s == s
  {
  }

  lemma AppendNil<T>(s: seq<T>)
    ensures s + [] == s
  {
  }

  lemma SliceStep<T>(s: seq<T>, n: nat)
    requires n < |s|
    ensures s[..n + 1] == s[..n] + [s[n]]
  {
  }

  lemma DropFirst<T>(a: seq<T>, b: seq<T>)
    requires a != []
    ensures (a + b)[1..] == a[1..] + b
  {
  }

  lemma DropLast<T>(s: seq<T>, x: T)
    ensures (s + [x])[..|s|] == s
  {
  }

  /** The sequence without its element at place `i`. */
  function RemoveAt<T>(s: seq<T>, i: nat): (r: seq<T>)
    requires i < |s|
    ensures |r| == |s| - 1
    ensures forall j | 0 <= j < |r| :: r[j] == if j < i then s[j] else s[j + 1]
    ensures forall x | x in r :: x in s
  {
    s[..i] + s[i + 1..]
  }

  /** All chunks put together. */
  function Concat(chunks: seq<string>): string {
    if chunks == [] then "" else Concat(chunks[..|chunks| - 1]) + chunks[|chunks| - 1]
  }
}

/** Character classes of the C locale, C strings and decimal numerals. */
module Ctype {

  const NUL: char := '\0'

  predicate IsSpace(c: char) {
    c == ' ' || '\t' <= c <= '\r'
  }

  predicate IsDigit(c: char) {
    '0' <= c <= '9'
  }

  predicate IsAlpha(c: char) {
    'a' <= c <= 'z' || 'A' <= c <= 'Z'
  }

  predicate IsAlnum(c: char) {
    IsAlpha(c) || IsDigit(c)
  }

  /** The classes character by character. */
  lemma ClassesAre(c: char)
    ensures IsSpace(c) <==> c as int in {9, 10, 11, 12, 13, 32}
    ensures IsDigit(c) <==> 48 <= c as int <= 57
    ensures IsAlpha(c) <==> 65 <= c as int <= 90 || 97 <= c as int <= 122
    ensures IsAlnum(c) <==> IsAlpha(c) || IsDigit(c)
  {
  }

  function SkipSpaces(s: string): (r: string)
    ensures |r| <= |s|
    ensures r != "" ==> !IsSpace(r[0])
  {
    if s != "" && IsSpace(s[0]) then SkipSpaces(s[1..]) else s
  }

  lemma {:induction false} BlanksSkipped(blanks: string, x: string)
    requires (forall i | 0 <= i < |blanks| :: IsSpace(blanks[i])) && (x == "" || !IsSpace(x[0]))
    ensures SkipSpaces(blanks + x) == x
  {
    if blanks == "" {
      assert blanks + x == x;
    } else {
      assert (blanks + x)[1..] == blanks[1..] + x;
      BlanksSkipped(blanks[1..], x);
    }
  }

  /** What `strlen`, `strcpy` and `strcmp` see of a buffer: the bytes before its first zero. */
  function CString(s: string): (r: string)
    ensures NUL !in r && r <= s
    ensures NUL !in s ==> r == s
  {
    if s == "" || s[0] == NUL then ""
    else [s[0]] + CString(s[1..])
  }

  lemma {:induction false} CStringStops(s: string)
    ensures CString(s + [NUL]) == CString(s)
  {
    if s != "" && s[0] != NUL {
      assert (s + [NUL])[1..] == s[1..] + [NUL];
      CStringStops(s[1..]);
    }
  }

  /** A C string ends at the first zero. */
  lemma {:induction false} CStringEnds(s: string, n: nat)
    requires n <= |s| && NUL !in s[..n] && (n < |s| ==> s[n] == NUL)
    ensures CString(s) == s[..n]
    decreases n
  {
    if n > 0 {
      assert s[..n][0] == s[0] && s[..n][1..] == s[1..][..n - 1];
      CStringEnds(s[1..], n - 1);
    }
  }
}

/** Lines of text, ended by CRLF or by a line feed alone. */
module TextLines {
  import opened Ctype

  /** A line: no line ends and no zero in it. */
  predicate Line(l: string) {
    '\r' !in l && '\n' !in l && NUL !in l
  }

  const CRLF: string := "\r\n"
  const LF: string := "\n"

  /** Lines that all end alike. */
  function AllEnded(lines: seq<string>, eol: string): string {
    if lines == [] then "" else lines[0] + (eol + AllEnded(lines[1..], eol))
  }
}

/** Decimal numerals: `%d`/`%u` printing and digit-run reading. */
module Decimal {
  import opened Ctype

  predicate AllDigits(s: string) {
    forall i | 0 <= i < |s| :: IsDigit(s[i])
  }

  function DigitChar(d: nat): (c: char)
    requires d < 10
    ensures IsDigit(c) && c as int - '0' as int == d
  {
    ['0', '1', '2', '3', '4', '5', '6', '7', '8', '9'][d]
  }

  function Digits(n: nat): (s: string)
    ensures s != "" && AllDigits(s)
  {
    if n < 10 then [DigitChar(n)] else Digits(n / 10) + [DigitChar(n % 10)]
  }

  /** Exactly `k` digits of `n`, most significant first, padded with zeros. */
  function PadDigits(n: nat, k: nat): (s: string)
    ensures |s| == k && AllDigits(s)
  {
    if k == 0 then "" else PadDigits(n / 10, k - 1) + [DigitChar(n % 10)]
  }

  function Value(s: string): nat
    requires AllDigits(s)
  {
    if s == "" then 0
    else 10 * Value(s[..|s| - 1]) + (s[|s| - 1] as int - '0' as int)
  }

  /** Length of the longest digit prefix. */
  function DigitSpan(s: string): (n: nat)
    ensures n <= |s| && AllDigits(s[..n])
    ensures n < |s| ==> !IsDigit(s[n])
  {
    if s == "" || !IsDigit(s[0]) then 0
    else
      var m := DigitSpan(s[1..]);
      assert forall i | 0 < i < m + 1 :: s[i] == s[1..][..m][i - 1];
      m + 1
  }

  lemma DigitSpanPrefix(d: string, rest: string)
    requires AllDigits(d)
    requires rest != "" ==> !IsDigit(rest[0])
    ensures DigitSpan(d + rest) == |d|
    ensures (d + rest)[..|d|] == d
  {
    if d == "" {
      assert d + rest == rest;
    } else {
      assert (d + rest)[1..] == d[1..] + rest;
      DigitSpanPrefix(d[1..], rest);
    }
  }

  /** Text behind a digit run that does not go on into it leaves it as long as it is. */
  lemma {:induction false} DigitSpanBefore(d: string, x: string)
    requires DigitSpan(d) < |d| || x == "" || !IsDigit(x[0])
    ensures DigitSpan(d + x) == DigitSpan(d)
  {
    if d == "" {
      assert d + x == x;
    } else {
      assert (d + x)[1..] == d[1..] + x;
      if IsDigit(d[0]) {
        DigitSpanBefore(d[1..], x);
      }
    }
  }

  lemma {:induction false} ValueOfDigits(n: nat)
    ensures Value(Digits(n)) == n
  {
    if n >= 10 {
      ValueOfDigits(n / 10);
      var s := Digits(n);
      assert s[..|s| - 1] == Digits(n / 10);
    }
  }
}
