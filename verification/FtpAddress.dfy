/** Host-port tuples of PORT and PASV (section 4.1.2 of RFC 959): rendering, scanning and the range test. */
module FtpAddress {
  import opened Ctype
  import opened Seqs
  import opened Decimal
  import opened Options

  // ---- bits ----

  /** Bitwise or of two unsigned numbers. */
  function BitOr(a: nat, b: nat): nat {
    if a == 0 && b == 0 then 0
    else 2 * BitOr(a / 2, b / 2) + (if a % 2 == 1 || b % 2 == 1 then 1 else 0)
  }

  function Pow2(k: nat): (p: nat)
    ensures p > 0
  {
    if k == 0 then 1 else 2 * Pow2(k - 1)
  }

  lemma {:induction false} OrBelow(a: nat, b: nat, k: nat)
    ensures BitOr(a, b) < Pow2(k) <==> a < Pow2(k) && b < Pow2(k)
    decreases k
  {
    if k > 0 {
      OrBelow(a / 2, b / 2, k - 1);
    } else {
      OrZero(a, b);
    }
  }

  lemma {:induction false} OrZero(a: nat, b: nat)
    ensures BitOr(a, b) == 0 <==> a == 0 && b == 0
    decreases a + b
  {
    if a != 0 || b != 0 {
      OrZero(a / 2, b / 2);
    }
  }

  lemma {:induction false} OrSelf(b: nat)
    ensures BitOr(0, b) == b
  {
    if b > 0 {
      OrSelf(b / 2);
    }
  }

  /** Joining a shifted high part with a low part is addition. */
  lemma {:induction false} OrShifted(hi: nat, lo: nat, k: nat)
    requires lo < Pow2(k)
    ensures BitOr(hi * Pow2(k), lo) == hi * Pow2(k) + lo
    decreases k
  {
    var a := hi * Pow2(k);
    if k == 0 {
      OrSelf(hi);
      OrComm(a, lo);
    } else {
      var half := hi * Pow2(k - 1);
      OrShifted(hi, lo / 2, k - 1);
      ShiftHalf(hi, k);
      hide Pow2;
      OrDoubled(half, lo);
    }
  }

  lemma ShiftHalf(hi: nat, k: nat)
    requires k > 0
    ensures hi * Pow2(k) == 2 * (hi * Pow2(k - 1))
  {
  }

  lemma OrDoubled(half: nat, lo: nat)
    requires BitOr(half, lo / 2) == half + lo / 2
    ensures BitOr(2 * half, lo) == 2 * half + lo
  {
    assert 2 * half / 2 == half && 2 * half % 2 == 0;
  }

  lemma {:induction false} OrComm(a: nat, b: nat)
    ensures BitOr(a, b) == BitOr(b, a)
    decreases a + b
  {
    if a != 0 || b != 0 {
      OrComm(a / 2, b / 2);
    }
  }

  // ---- tuples ----

  datatype Endpoint = Endpoint(addr: nat, port: nat)

  const UINT_MAX: nat := 0xffff_ffff

  predicate IsTuple(t: seq<nat>) {
    |t| == 6 && forall i | 0 <= i < 6 :: t[i] <= UINT_MAX
  }

  predicate AllBytes(t: seq<nat>) {
    forall i | 0 <= i < |t| :: t[i] < 256
  }

  /** The six numbers of the PORT command. */
  function Encode(e: Endpoint): (t: seq<nat>)
    ensures |t| == 6
  {
    [e.addr / 0x1000000, e.addr / 0x10000 % 256, e.addr / 0x100 % 256, e.addr % 256, e.port / 256, e.port % 256]
  }

  /** The test that guards decoding: all six numbers or-ed together stay below 256. */
  function OrAll(t: seq<nat>): nat
    requires |t| == 6
  {
    BitOr(BitOr(BitOr(BitOr(BitOr(t[0], t[1]), t[2]), t[3]), t[4]), t[5])
  }

  function Decode(t: seq<nat>): Option<Endpoint>
    requires |t| == 6
  {
    if OrAll(t) >= 256 then None
    else
      var ip := BitOr(BitOr(BitOr(t[0] * 0x1000000, t[1] * 0x10000), t[2] * 0x100), t[3]);
      Some(Endpoint(ip, BitOr(t[4] * 0x100, t[5])))
  }

  lemma OrTestExact(t: seq<nat>)
    requires |t| == 6
    ensures OrAll(t) < 256 <==> AllBytes(t)
  {
    assert Pow2(8) == 256;
    var a := BitOr(t[0], t[1]);
    var b := BitOr(a, t[2]);
    var c := BitOr(b, t[3]);
    var d := BitOr(c, t[4]);
    OrBelow(t[0], t[1], 8);
    OrBelow(a, t[2], 8);
    OrBelow(b, t[3], 8);
    OrBelow(c, t[4], 8);
    OrBelow(d, t[5], 8);
  }

  lemma Powers()
    ensures Pow2(8) == 0x100 && Pow2(16) == 0x10000 && Pow2(24) == 0x1000000
  {
    assert Pow2(8) == 0x100;
    assert Pow2(16) == 0x10000 by { assert Pow2(12) == 0x1000; }
    assert Pow2(24) == 0x1000000 by { assert Pow2(20) == 0x100000; }
  }

  lemma DecodeSum(t: seq<nat>)
    requires |t| == 6 && AllBytes(t)
    ensures Decode(t) == Some(Endpoint(
      t[0] * 0x1000000 + t[1] * 0x10000 + t[2] * 0x100 + t[3], t[4] * 0x100 + t[5]))
  {
    OrTestExact(t);
    Powers();
    hide Pow2, BitOr, OrAll;
    OrShifted(t[0], t[1] * 0x10000, 24);
    OrShifted(t[0] * 256 + t[1], t[2] * 0x100, 16);
    OrShifted(t[0] * 0x10000 + t[1] * 0x100 + t[2], t[3], 8);
    OrShifted(t[4], t[5], 8);
  }

  lemma WordParts(n: nat)
    requires n < 0x1_0000_0000
    ensures n / 0x1000000 < 256
    ensures n == n / 0x1000000 * 0x1000000 + n / 0x10000 % 256 * 0x10000 + n / 0x100 % 256 * 0x100 + n % 256
  {
    var a, b := n / 0x100, n / 0x10000;
    assert b == a / 256 && n / 0x1000000 == b / 256;
  }

  /** Decoding undoes encoding for every 32-bit address and 16-bit port. */
  lemma DecodeOfEncode(e: Endpoint)
    requires e.addr < 0x1_0000_0000 && e.port < 0x10000
    ensures AllBytes(Encode(e)) && Decode(Encode(e)) == Some(e)
  {
    var t := Encode(e);
    assert t[4] < 256 && t[4] * 0x100 + t[5] == e.port;
    WordParts(e.addr);
    DecodeSum(t);
  }

  /** Decoding accepts exactly the byte tuples, and encoding undoes it. */
  lemma EncodeOfDecode(t: seq<nat>)
    requires |t| == 6
    ensures Decode(t).Some? <==> AllBytes(t)
    ensures Decode(t).Some? ==> Encode(Decode(t).value) == t
  {
    OrTestExact(t);
    if AllBytes(t) {
      DecodeSum(t);
      hide Decode, Encode;
      EncodeBytes(t[0], t[1], t[2], t[3], t[4], t[5]);
      assert t == [t[0], t[1], t[2], t[3], t[4], t[5]];
    }
  }

  lemma EncodeBytes(a: nat, b: nat, c: nat, d: nat, p: nat, q: nat)
    requires a < 256 && b < 256 && c < 256 && d < 256 && p < 256 && q < 256
    ensures Encode(Endpoint(a * 0x1000000 + b * 0x10000 + c * 0x100 + d, p * 0x100 + q)) == [a, b, c, d, p, q]
  {
    BytesOf(a, b, c, d);
  }

  lemma BytesOf(a: nat, b: nat, c: nat, d: nat)
    requires a < 256 && b < 256 && c < 256 && d < 256
    ensures var n := a * 0x1000000 + b * 0x10000 + c * 0x100 + d;
            n / 0x1000000 == a && n / 0x10000 % 256 == b && n / 0x100 % 256 == c && n % 256 == d
  {
    var x := a * 0x100 + b;
    var y := x * 0x100 + c;
    var n := y * 0x100 + d;
    ByteStep(a, b);
    ByteStep(x, c);
    ByteStep(y, d);
    assert n / 0x10000 == y / 0x100 && n / 0x1000000 == x / 0x100;
  }

  lemma ByteStep(x: nat, d: nat)
    requires d < 256
    ensures (x * 0x100 + d) / 0x100 == x && (x * 0x100 + d) % 0x100 == d
  {
  }

  // ---- scanning, as sscanf("%u,%u,%u,%u,%u,%u") does ----

  datatype Scan = NoScan | Scan(value: nat, rest: string)

  predicate IsSign(c: char) { c == '-' || c == '+' }

  /** `%u`: white space, a sign that may be negative, digits; out of range saturates. */
  function ScanUnsigned(s: string): Scan {
    var t := SkipSpaces(s);
    var signed := t != "" && IsSign(t[0]);
    var d := if signed then t[1..] else t;
    var n := DigitSpan(d);
    if n == 0 then NoScan
    else
      var v := Value(d[..n]);
      var u := if v > UINT_MAX then UINT_MAX else if signed && t[0] == '-' && v > 0 then UINT_MAX + 1 - v else v;
      Scan(u, d[n..])
  }

  /** `n` numbers with commas between them. */
  function ScanNumbers(s: string, n: nat): Option<seq<nat>>
    requires n > 0
    decreases n
  {
    match ScanUnsigned(s)
    case NoScan => None
    case Scan(v, rest) =>
      if n == 1 then Some([v])
      else if rest == "" || rest[0] != ',' then None
      else match ScanNumbers(rest[1..], n - 1)
        case None => None
        case Some(vs) => Some([v] + vs)
  }

  /** The first place in a reply where six numbers can be read. */
  function FindTuple(s: string): (r: Option<seq<nat>>)
    decreases s
  {
    if s == "" then None
    else if ScanNumbers(s, 6).Some? then ScanNumbers(s, 6)
    else FindTuple(s[1..])
  }

  lemma {:induction false} ScanLength(s: string, n: nat)
    requires n > 0
    ensures ScanNumbers(s, n).Some? ==> |ScanNumbers(s, n).value| == n
    decreases n
  {
    var u := ScanUnsigned(s);
    if n > 1 && u.Scan? && u.rest != "" {
      ScanLength(u.rest[1..], n - 1);
    }
  }

  /** Where a passive reply tells the client to connect, if it can be understood. */
  function PasvEndpoint(buf: string): Option<Endpoint> {
    match FindTuple(buf)
    case None => None
    case Some(t) => if |t| == 6 then Decode(t) else None
  }

  /** The parsing part of `cproc_pasv`. */
  method ParsePasv(buf: string) returns (r: Option<Endpoint>)
    ensures r == PasvEndpoint(buf)
  {
    var i := 0;
    var addr: Option<seq<nat>> := None;
    while i < |buf|
      invariant 0 <= i <= |buf| && addr == None
      invariant FindTuple(buf) == FindTuple(buf[i..])
      decreases |buf| - i
    {
      assert buf[i..][1..] == buf[i + 1..];
      ScanLength(buf[i..], 6);
      addr := ScanNumbers(buf[i..], 6);
      if addr.Some? {
        break;
      }
      i := i + 1;
    }
    if i == |buf| || OrAll(addr.value) >= 256 {
      return None;
    }
    var a := addr.value;
    var port := BitOr(a[4] * 0x100, a[5]);
    var ipaddr := BitOr(BitOr(BitOr(a[0] * 0x1000000, a[1] * 0x10000), a[2] * 0x100), a[3]);
    r := Some(Endpoint(ipaddr, port));
  }

  // ---- rendered tuples are found ----

  function Render(t: seq<nat>): string
    requires t != []
  {
    if |t| == 1 then Digits(t[0]) else Digits(t[0]) + "," + Render(t[1..])
  }

  /** The PORT command line. */
  function PortCommand(e: Endpoint): string {
    "PORT " + Render(Encode(e))
  }

  predicate NoDigitFirst(s: string) {
    s != "" ==> !IsDigit(s[0])
  }

  lemma ScanDigits(v: nat, rest: string)
    requires v <= UINT_MAX && NoDigitFirst(rest)
    ensures ScanUnsigned(Digits(v) + rest) == Scan(v, rest)
  {
    var s := Digits(v) + rest;
    assert s[0] == Digits(v)[0];
    assert SkipSpaces(s) == s;
    DigitSpanPrefix(Digits(v), rest);
    ValueOfDigits(v);
    assert s[|Digits(v)|..] == rest;
  }

  /** What `%u` makes of a signed numeral: too wide ones saturate, negative ones wrap around. */
  function Wrapped(neg: bool, v: nat): nat {
    if v > UINT_MAX then UINT_MAX else if neg && v > 0 then 0x1_0000_0000 - v else v
  }

  lemma ScanSigned(neg: bool, v: nat, rest: string)
    requires NoDigitFirst(rest)
    ensures ScanUnsigned([if neg then '-' else '+'] + (Digits(v) + rest)) == Scan(Wrapped(neg, v), rest)
  {
    var d := Digits(v) + rest;
    var s := [if neg then '-' else '+'] + d;
    assert s[1..] == d && SkipSpaces(s) == s;
    DigitSpanPrefix(Digits(v), rest);
    ValueOfDigits(v);
    assert d[|Digits(v)|..] == rest;
  }

  /** A numeral without a sign, behind any blanks, is read as far as it fits. */
  lemma ScanBehindBlanks(blanks: string, v: nat, rest: string)
    requires (forall i | 0 <= i < |blanks| :: IsSpace(blanks[i])) && NoDigitFirst(rest)
    ensures ScanUnsigned(blanks + (Digits(v) + rest)) == Scan(Wrapped(false, v), rest)
  {
    var d := Digits(v) + rest;
    assert d[0] == Digits(v)[0];
    BlanksSkipped(blanks, d);
    DigitSpanPrefix(Digits(v), rest);
    ValueOfDigits(v);
    assert d[|Digits(v)|..] == rest;
  }

  /** A number and a comma are read, and the scan goes on after them. */
  lemma ScanFirst(v: nat, next: string, vs: seq<nat>)
    requires v <= UINT_MAX && vs != [] && ScanNumbers(next, |vs|) == Some(vs)
    ensures ScanNumbers(Digits(v) + ("," + next), 1 + |vs|) == Some([v] + vs)
  {
    ScanDigits(v, "," + next);
    assert ("," + next)[1..] == next;
  }

  lemma CommaCut(d: string, r: string, p: string)
    ensures d + "," + r + p == d + ("," + (r + p))
  {
  }

  lemma {:induction false} ScanRendered(t: seq<nat>, post: string)
    requires t != [] && (forall i | 0 <= i < |t| :: t[i] <= UINT_MAX) && NoDigitFirst(post)
    ensures ScanNumbers(Render(t) + post, |t|) == Some(t)
    decreases |t|
  {
    if |t| == 1 {
      assert t == [t[0]];
      ScanDigits(t[0], post);
    } else {
      var vs := t[1..];
      assert t == [t[0]] + vs;
      ScanRendered(vs, post);
      CommaCut(Digits(t[0]), Render(vs), post);
      ScanFirst(t[0], Render(vs) + post, vs);
    }
  }

  /** Reply text before the tuple: no number runs up to a comma, and it does not end in a digit or a sign. */
  predicate Preamble(pre: string) {
    && (forall i | 1 <= i < |pre| :: pre[i] == ',' ==> !IsDigit(pre[i - 1]))
    && (pre != "" ==> !IsDigit(pre[|pre| - 1]) && !IsSign(pre[|pre| - 1]))
  }

  lemma {:induction false} SkipSpacesBefore(p: string, x: string)
    ensures SkipSpaces(p + x) == if SkipSpaces(p) == "" then SkipSpaces(x) else SkipSpaces(p) + x
    ensures Preamble(p) ==> Preamble(SkipSpaces(p))
  {
    if p == "" {
      assert p + x == x;
    } else {
      assert (p + x)[1..] == p[1..] + x;
      if IsSpace(p[0]) {
        SkipSpacesBefore(p[1..], x);
      }
    }
  }

  /** Starting inside the preamble, a scan either fails or slides over blanks to the tuple itself. */
  lemma ScanFromPreamble(p: string, x: string, n: nat)
    requires Preamble(p) && n >= 2
    ensures ScanNumbers(p + x, n) == None || ScanNumbers(p + x, n) == ScanNumbers(x, n)
  {
    SkipSpacesBefore(p, x);
    var q := SkipSpaces(p);
    if q == "" {
      SameScan(p + x, x, n);
    } else {
      ScanMeetsPreamble(q, x);
      SameScan(p + x, q + x, n);
      hide ScanUnsigned, SkipSpaces;
    }
  }

  lemma SameScan(s: string, t: string, n: nat)
    requires SkipSpaces(s) == SkipSpaces(t) && n > 0
    ensures ScanNumbers(s, n) == ScanNumbers(t, n) && ScanUnsigned(s) == ScanUnsigned(t)
  {
    hide SkipSpaces, DigitSpan, Value;
  }

  /** A number that starts in the preamble ends there, before something that is no comma. */
  lemma ScanMeetsPreamble(q: string, x: string)
    requires Preamble(q) && q != "" && !IsSpace(q[0])
    ensures SkipSpaces(q + x) == q + x
    ensures var u := ScanUnsigned(q + x); u.Scan? ==> u.rest != "" && u.rest[0] != ','
  {
    assert (q + x)[0] == q[0];
    DropFirst(q, x);
    hide Value, DigitSpan, SkipSpaces;
    if IsSign(q[0]) {
      ShorterPreamble(q);
      DigitsMeetPreamble(q[1..], x);
    } else {
      DigitsMeetPreamble(q, x);
    }
  }

  lemma DigitsMeetPreamble(d: string, x: string)
    requires Preamble(d) && d != ""
    ensures var k := DigitSpan(d + x); k < |d + x| && (k > 0 ==> (d + x)[k] != ',')
  {
    var k := DigitSpan(d);
    assert k > 0 ==> d[..k][k - 1] == d[k - 1];
    DigitSpanBefore(d, x);
  }

  /** Nothing, or text behind which no number, blank or comma goes on. */
  predicate Blocked(lead: string) {
    lead != "" ==>
      var c := lead[|lead| - 1]; !IsDigit(c) && !IsSign(c) && !IsSpace(c) && c != ','
  }

  /** A scan that starts before a block sees nothing of what is behind it. */
  lemma {:induction false} ScanStaysInside(lead: string, x: string, n: nat)
    requires Blocked(lead) && lead != "" && n > 0
    ensures ScanNumbers(lead + x, n) == ScanNumbers(lead, n)
    decreases n
  {
    NumberStaysInside(lead, x);
    var u := ScanUnsigned(lead);
    hide ScanUnsigned;
    if n > 1 && u.Scan? && u.rest[0] == ',' {
      DropFirst(u.rest, x);
      ScanStaysInside(u.rest[1..], x, n - 1);
    }
  }

  lemma NumberStaysInside(lead: string, x: string)
    requires Blocked(lead) && lead != ""
    ensures var u := ScanUnsigned(lead);
            && ScanUnsigned(lead + x) == (if u.Scan? then Scan(u.value, u.rest + x) else NoScan)
            && (u.Scan? ==> u.rest != "" && Blocked(u.rest))
  {
    SkipSpacesBefore(lead, x);
    SkipKeepsBlock(lead);
    var t := SkipSpaces(lead);
    assert (t + x)[0] == t[0];
    DropFirst(t, x);
    var d := if IsSign(t[0]) then t[1..] else t;
    DigitsStayInside(d, x);
    hide SkipSpaces, DigitSpan, Value;
  }

  lemma {:induction false} SkipKeepsBlock(lead: string)
    requires Blocked(lead) && lead != ""
    ensures SkipSpaces(lead) != "" && Blocked(SkipSpaces(lead))
  {
    if IsSpace(lead[0]) {
      SkipKeepsBlock(lead[1..]);
    }
  }

  lemma DigitsStayInside(d: string, x: string)
    requires Blocked(d) && d != ""
    ensures var k := DigitSpan(d);
            && k < |d| && DigitSpan(d + x) == k && (d + x)[..k] == d[..k] && (d + x)[k..] == d[k..] + x
            && Blocked(d[k..])
  {
    var k := DigitSpan(d);
    assert k > 0 ==> d[..k][k - 1] == d[k - 1];
    DigitSpanBefore(d, x);
  }

  lemma ShorterBlocked(lead: string)
    requires Blocked(lead) && lead != ""
    ensures Blocked(lead[1..])
  {
  }

  /** The search ends in the text before a block or goes on behind it. */
  lemma {:induction false} FindBehindBlock(lead: string, x: string)
    requires Blocked(lead)
    ensures FindTuple(lead + x) == if FindTuple(lead).Some? then FindTuple(lead) else FindTuple(x)
    decreases |lead|
  {
    hide ScanNumbers;
    if lead == "" {
      NilAppend(x);
    } else {
      ScanStaysInside(lead, x, 6);
      DropFirst(lead, x);
      hide Blocked;
      ShorterBlocked(lead);
      FindBehindBlock(lead[1..], x);
    }
  }

  /** Whatever the text in front says, the search finds a tuple in it or the rendered one. */
  lemma FindRendered(lead: string, pre: string, t: seq<nat>, post: string)
    requires Blocked(lead) && Preamble(pre) && IsTuple(t) && NoDigitFirst(post)
    ensures FindTuple(lead + (pre + (Render(t) + post))) == if FindTuple(lead).Some? then FindTuple(lead) else Some(t)
  {
    ScanRendered(t, post);
    FindBehind(pre, Render(t) + post);
    FindBehindBlock(lead, pre + (Render(t) + post));
  }

  /** The search passes over a preamble. */
  lemma {:induction false} FindBehind(pre: string, x: string)
    requires Preamble(pre) && x != "" && ScanNumbers(x, 6).Some?
    ensures FindTuple(pre + x) == ScanNumbers(x, 6)
    decreases |pre|
  {
    if pre == "" {
      NilAppend(x);
    } else {
      ScanFromPreamble(pre, x, 6);
      DropFirst(pre, x);
      ShorterPreamble(pre);
      FindBehind(pre[1..], x);
    }
  }

  lemma ShorterPreamble(pre: string)
    requires Preamble(pre) && pre != ""
    ensures Preamble(pre[1..])
  {
    var r := pre[1..];
    assert forall i | 1 <= i < |r| :: r[i] == pre[i + 1] && r[i - 1] == pre[i];
  }

  /**
   A reply that shows a tuple is accepted if and only if every number is below 256, and then
   names exactly that tuple's endpoint, unless another tuple comes before it and counts.
   */
  lemma ReplyDecodes(lead: string, pre: string, t: seq<nat>, post: string)
    requires Blocked(lead) && Preamble(pre) && IsTuple(t) && NoDigitFirst(post)
    ensures var r := PasvEndpoint(lead + (pre + (Render(t) + post)));
            if FindTuple(lead).Some? then r == PasvEndpoint(lead)
            else (r.Some? <==> AllBytes(t)) && (r.Some? ==> Encode(r.value) == t)
  {
    FindRendered(lead, pre, t, post);
    EncodeOfDecode(t);
  }

  /** The endpoint a PORT-style rendering shows is the one read back from a reply that shows none before it. */
  lemma EndpointRoundTrip(e: Endpoint, lead: string, pre: string, post: string)
    requires e.addr < 0x1_0000_0000 && e.port < 0x10000
    requires Blocked(lead) && FindTuple(lead) == None && Preamble(pre) && NoDigitFirst(post)
    ensures PasvEndpoint(lead + (pre + (Render(Encode(e)) + post))) == Some(e)
  {
    DecodeOfEncode(e);
    FindRendered(lead, pre, Encode(e), post);
  }

  /** The PORT command carries the endpoint: its address part reads back as it. */
  lemma PortReadsBack(e: Endpoint)
    requires e.addr < 0x1_0000_0000 && e.port < 0x10000
    ensures PasvEndpoint(PortCommand(e)) == Some(e)
  {
    EndpointRoundTrip(e, "", "PORT ", "");
    AppendNil(Render(Encode(e)));
    NilAppend("PORT " + (Render(Encode(e)) + ""));
  }
}
