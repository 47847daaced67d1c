/**
 Numbers of the treestore text format: what `atof` makes of a number token and
 what `%g` prints, over the reals. Printing is modelled where `%g` is exact and
 uses no exponent: at most six significant digits, zero or at least 1e-4 in size.
 */
module TsNumber {
  import opened Ctype
  import opened Decimal

  /** Characters that may follow the first one in a number token; at most one dot. */
  predicate NumberTail(s: string) {
    && (forall i | 0 <= i < |s| :: IsDigit(s[i]) || s[i] == '.')
    && (forall i, j | 0 <= i < j < |s| :: !(s[i] == '.' && s[j] == '.'))
  }

  predicate NumberToken(t: string) {
    t != "" && (IsDigit(t[0]) || t[0] == '-' || t[0] == '+') && NumberTail(t[1..])
  }

  /** `x` times ten to the `k`. */
  function Up(x: real, k: nat): (y: real)
    ensures x >= 0.0 ==> y >= 0.0
    decreases k
  {
    if k == 0 then x else Up(10.0 * x, k - 1)
  }

  /** `x` divided by ten to the `k`. */
  function Down(x: real, k: nat): real
    decreases k
  {
    if k == 0 then x else Down(x / 10.0, k - 1)
  }

  function UnsignedAtof(s: string): real {
    var i := DigitSpan(s);
    var whole := Value(s[..i]) as real;
    if i < |s| && s[i] == '.' then
      var f := s[i + 1..];
      var n := DigitSpan(f);
      whole + Down(Value(f[..n]) as real, n)
    else whole
  }

  function Atof(t: string): real {
    if t != "" && t[0] == '-' then -UnsignedAtof(t[1..])
    else if t != "" && t[0] == '+' then UnsignedAtof(t[1..])
    else UnsignedAtof(t)
  }

  function Abs(x: real): real { if x < 0.0 then -x else x }

  /** `x` is an integer below one million once its decimal point moves `k` places. */
  predicate Fits(x: real, k: nat) {
    var y := Up(Abs(x), k);
    y == y.Floor as real && y.Floor < 1_000_000
  }

  /** `%g` prints `x` exactly and without an exponent. */
  predicate GExact(x: real) {
    && (x == 0.0 || Abs(x) >= 0.0001)
    && exists k | 0 <= k <= 9 :: Fits(x, k)
  }

  /** The least number of decimals, at least `from`, that shows `x` exactly. */
  function Decimals(x: real, from: nat): (k: nat)
    requires exists j | from <= j <= 9 :: Fits(x, j)
    ensures from <= k <= 9 && Fits(x, k)
    decreases 10 - from
  {
    if Fits(x, from) then from else Decimals(x, from + 1)
  }

  /** `m` without its last `k` digits. */
  function Whole(m: nat, k: nat): nat {
    if k == 0 then m else Whole(m / 10, k - 1)
  }

  function FixedText(m: nat, k: nat): string {
    if k == 0 then Digits(m) else Digits(Whole(m, k)) + "." + PadDigits(m, k)
  }

  function FormatG(x: real): string
    requires GExact(x)
  {
    var k := Decimals(x, 0);
    var m := Up(Abs(x), k).Floor;
    (if x < 0.0 then "-" else "") + FixedText(m, k)
  }

  lemma FixedTextToken(m: nat, k: nat)
    ensures var t := FixedText(m, k); t != "" && IsDigit(t[0]) && NumberTail(t) && NumberTail(t[1..])
  {
    var t := FixedText(m, k);
    if k > 0 {
      var d, p := Digits(Whole(m, k)), PadDigits(m, k);
      assert t == d + "." + p;
      assert forall i | 0 <= i < |t| :: t[i] == if i < |d| then d[i] else if i == |d| then '.' else p[i - |d| - 1];
    }
  }

  lemma {:induction false} DownAdds(x: real, y: real, k: nat)
    ensures Down(x + y, k) == Down(x, k) + Down(y, k)
    decreases k
  {
    if k > 0 {
      DownAdds(x / 10.0, y / 10.0, k - 1);
      assert (x + y) / 10.0 == x / 10.0 + y / 10.0;
    }
  }

  lemma {:induction false} DownUndoesUp(x: real, k: nat)
    ensures Down(Up(x, k), k) == x
    decreases k
  {
    if k > 0 {
      DownUndoesUp(10.0 * x, k - 1);
      DownOnce(Up(10.0 * x, k - 1), k - 1);
    }
  }

  lemma {:induction false} DownOnce(x: real, k: nat)
    ensures Down(x / 10.0, k) == Down(x, k) / 10.0
    decreases k
  {
    if k > 0 {
      DownOnce(x / 10.0, k - 1);
    }
  }

  lemma {:induction false} WholeAndLastDigits(m: nat, k: nat)
    ensures Whole(m, k) as real + Down(Value(PadDigits(m, k)) as real, k) == Down(m as real, k)
    decreases k
  {
    if k > 0 {
      WholeAndLastDigits(m / 10, k - 1);
      DigitsOfTenth(m, k);
    }
  }

  lemma DigitsOfTenth(m: nat, k: nat)
    requires k > 0
    requires Whole(m / 10, k - 1) as real + Down(Value(PadDigits(m / 10, k - 1)) as real, k - 1)
          == Down((m / 10) as real, k - 1)
    ensures Whole(m, k) as real + Down(Value(PadDigits(m, k)) as real, k) == Down(m as real, k)
  {
    LastDigit(m, k);
    DigitsStep(m, k);
    hide *;
    OneMoreDigit(m, Whole(m / 10, k - 1), Value(PadDigits(m / 10, k - 1)), Value(PadDigits(m, k)), k - 1);
  }

  lemma OneMoreDigit(m: nat, w: nat, v: nat, x: nat, k: nat)
    requires w as real + Down(v as real, k) == Down((m / 10) as real, k) && x == 10 * v + m % 10
    ensures w as real + Down(x as real / 10.0, k) == Down(m as real / 10.0, k)
  {
    hide Down;
    var q, d := m / 10, m % 10;
    assert m == 10 * q + d;
    var r := d as real / 10.0;
    Tenth(v, d);
    Tenth(q, d);
    DownAdds(v as real, r, k);
    DownAdds(q as real, r, k);
  }

  lemma DigitsStep(m: nat, k: nat)
    requires k > 0
    ensures Whole(m, k) == Whole(m / 10, k - 1) && Down(m as real, k) == Down(m as real / 10.0, k - 1)
    ensures var x := Value(PadDigits(m, k)) as real; Down(x, k) == Down(x / 10.0, k - 1)
  {
  }

  lemma Tenth(q: nat, d: nat)
    ensures (10 * q + d) as real / 10.0 == q as real + d as real / 10.0
  {
  }

  lemma LastDigit(m: nat, k: nat)
    requires k > 0
    ensures Value(PadDigits(m, k)) == 10 * Value(PadDigits(m / 10, k - 1)) + m % 10
  {
    var s := PadDigits(m, k);
    assert s[..|s| - 1] == PadDigits(m / 10, k - 1);
  }

  lemma ReadWhole(d: string)
    requires AllDigits(d)
    ensures UnsignedAtof(d) == Value(d) as real
  {
    DigitSpanPrefix(d, "");
    assert d + "" == d && d[..|d|] == d;
  }

  lemma ReadFixed(d: string, f: string)
    requires AllDigits(d) && AllDigits(f)
    ensures UnsignedAtof(d + "." + f) == Value(d) as real + Down(Value(f) as real, |f|)
  {
    var t := d + "." + f;
    FixedParts(d, f);
    DigitSpanPrefix(d, "." + f);
    DigitSpanPrefix(f, "");
    hide Value, Down, DigitSpan, AllDigits;
    assert f + "" == f && f[..|f|] == f;
  }

  lemma FixedParts(d: string, f: string)
    ensures var t := d + "." + f;
            t == d + ("." + f) && |d| < |t| && t[|d|] == '.' && t[|d| + 1..] == f
  {
  }

  lemma FixedTextValue(m: nat, k: nat)
    ensures UnsignedAtof(FixedText(m, k)) == Down(m as real, k)
  {
    if k == 0 {
      ReadWhole(Digits(m));
      ValueOfDigits(m);
    } else {
      ReadFixed(Digits(Whole(m, k)), PadDigits(m, k));
      ValueOfDigits(Whole(m, k));
      WholeAndLastDigits(m, k);
    }
  }

  /** A sign counts, digits behind a dot count, and either of the two may be missing. */
  lemma AtofOfDecimal(sign: string, d: string, f: string)
    requires sign in {"", "-", "+"} && AllDigits(d) && AllDigits(f)
    ensures var x := Value(d) as real + Down(Value(f) as real, |f|);
            Atof(sign + (d + "." + f)) == if sign == "-" then -x else x
    ensures var y := Value(d) as real; Atof(sign + d) == if sign == "-" then -y else y
  {
    ReadFixed(d, f);
    ReadWhole(d);
    SignOf(sign, d + "." + f);
    SignOf(sign, d);
    hide Value, Down, UnsignedAtof;
  }

  lemma SignOf(sign: string, t: string)
    requires sign in {"", "-", "+"} && (t == "" || (t[0] != '-' && t[0] != '+'))
    ensures Atof(sign + t) == if sign == "-" then -UnsignedAtof(t) else UnsignedAtof(t)
  {
    hide UnsignedAtof;
    if sign == "" {
      assert sign + t == t;
    } else {
      assert (sign + t)[0] == sign[0] && (sign + t)[1..] == t;
    }
  }

  /** `atof` undoes `%g` on every exactly printable number, and the text is one number token. */
  lemma AtofOfFormatG(x: real)
    requires GExact(x)
    ensures NumberToken(FormatG(x)) && Atof(FormatG(x)) == x
  {
    var k := Decimals(x, 0);
    var m := Up(Abs(x), k).Floor;
    FixedTextToken(m, k);
    FixedTextValue(m, k);
    DownUndoesUp(Abs(x), k);
    SignedText(x, FixedText(m, k));
  }

  lemma SignedText(x: real, t: string)
    requires t != "" && IsDigit(t[0]) && NumberTail(t) && NumberTail(t[1..])
    requires UnsignedAtof(t) == Abs(x)
    ensures var s := (if x < 0.0 then "-" else "") + t; NumberToken(s) && Atof(s) == x
  {
    assert "" + t == t;
    assert ("-" + t)[1..] == t;
  }
}
