/** How saved text is laid out: its lines, and the tabs in front of each. */
module TsOutline {
  import opened Seqs
  import opened Decimal
  import opened TsTree
  import opened TsNumber
  import opened TsPrinter

  /** One line of saved text, without the tabs in front. */
  datatype Row = Opens(name: string) | Shows(text: string) | Closes

  function Tabs(depth: int): string {
    if depth <= 0 then "" else if depth > 16 then Tabs(16) else "\t" + Tabs(depth - 1)
  }

  /** The rows one below the other, each behind as many tabs as there are braces open around it. */
  function Laid(rows: seq<Row>, depth: int): string {
    if rows == [] then ""
    else match rows[0]
      case Opens(name) => Tabs(depth) + name + " {\n" + Laid(rows[1..], depth + 1)
      case Shows(text) => Tabs(depth) + text + "\n" + Laid(rows[1..], depth)
      case Closes => Tabs(depth - 1) + "}\n" + Laid(rows[1..], depth - 1)
  }

  /** Braces opened and not closed again. */
  function Open(rows: seq<Row>): int {
    if rows == [] then 0
    else (match rows[0] case Opens(_) => 1 case Shows(_) => 0 case Closes => -1) + Open(rows[1..])
  }

  function AttrRow(a: Attr): Row
    requires SavableValue(a.val)
  {
    Shows(a.name + (" = " + ValueText(a.val)))
  }

  function AttrRows(attrs: seq<Attr>): (rows: seq<Row>)
    requires forall i | 0 <= i < |attrs| :: SavableValue(attrs[i].val)
    ensures |rows| == |attrs| && forall i | 0 <= i < |attrs| :: rows[i] == AttrRow(attrs[i])
  {
    seq(|attrs|, i requires 0 <= i < |attrs| => AttrRow(attrs[i]))
  }

  /** A tree as rows: its name, its attributes, its children, and the brace that closes it. */
  function Rows(t: Node): seq<Row>
    requires Savable(t)
    decreases t, 1
  {
    [Opens(t.name)] + (AttrRows(t.attrs) + (AllRows(t.children) + [Closes]))
  }

  function AllRows(ts: seq<Node>): seq<Row>
    requires forall i | 0 <= i < |ts| :: Savable(ts[i])
    decreases ts, 0
  {
    if ts == [] then [] else Rows(ts[0]) + AllRows(ts[1..])
  }

  lemma {:induction false} LaidAppend(a: seq<Row>, b: seq<Row>, depth: int)
    ensures Laid(a + b, depth) == Laid(a, depth) + Laid(b, depth + Open(a))
    ensures Open(a + b) == Open(a) + Open(b)
    decreases |a|
  {
    if a == [] {
      NilAppend(b);
      NilAppend(Laid(b, depth));
    } else {
      DropFirst(a, b);
      var inner := depth + (match a[0] case Opens(_) => 1 case Shows(_) => 0 case Closes => -1);
      LaidAppend(a[1..], b, inner);
      var front := match a[0]
        case Opens(name) => Tabs(depth) + name + " {\n"
        case Shows(text) => Tabs(depth) + text + "\n"
        case Closes => Tabs(depth - 1) + "}\n";
      assert (a + b)[0] == a[0];
      Assoc(front, Laid(a[1..], inner), Laid(b, inner + Open(a[1..])));
    }
  }

  lemma {:induction false} TabsAreIndent(depth: nat)
    ensures Tabs(depth) == Indent(depth)
  {
    if 0 < depth <= 16 {
      TabsAreIndent(depth - 1);
      assert Indent(depth) == "\t" + Indent(depth - 1);
    } else if depth > 16 {
      TabsAreIndent(16);
    }
  }

  lemma LaidOne(row: Row, depth: int)
    ensures Laid([row], depth) ==
      match row
      case Opens(name) => Tabs(depth) + name + " {\n"
      case Shows(text) => Tabs(depth) + text + "\n"
      case Closes => Tabs(depth - 1) + "}\n"
    ensures Open([row]) == (match row case Opens(_) => 1 case Shows(_) => 0 case Closes => -1)
  {
    assert [row][1..] == [];
  }

  lemma {:induction false} AttrsLaid(attrs: seq<Attr>, level: nat)
    requires forall i | 0 <= i < |attrs| :: SavableValue(attrs[i].val)
    ensures AttrsText(attrs, level) == Laid(AttrRows(attrs), level + 1) && Open(AttrRows(attrs)) == 0
  {
    if attrs != [] {
      AttrsLaid(attrs[1..], level);
      assert AttrRows(attrs)[1..] == AttrRows(attrs[1..]);
      TabsAreIndent(level + 1);
      AttrLaid(attrs[0], level);
    }
  }

  lemma AttrLaid(a: Attr, level: nat)
    requires SavableValue(a.val)
    ensures AttrText(a, level) == Indent(level + 1) + (a.name + (" = " + ValueText(a.val))) + "\n"
  {
    Assoc(Indent(level + 1), a.name, " = " + ValueText(a.val));
    Assoc(Indent(level + 1) + a.name, " = ", ValueText(a.val));
  }

  /** Saved text is the rows of the tree, each indented by its depth, at most sixteen tabs. */
  lemma {:induction false} TextIsLaid(t: Node, level: nat)
    requires Savable(t)
    ensures NodeText(t, level) == Laid(Rows(t), level) && Open(Rows(t)) == 0
    decreases t, 1
  {
    AttrsLaid(t.attrs, level);
    ChildrenLaid(t.children, level + 1);
    NodeLaid(t.name, AttrRows(t.attrs), AllRows(t.children), level);
    hide Laid, Open, AttrsText, AttrRows, NodeHead, NodeFoot, SavableValue;
  }

  lemma NodeLaid(name: string, attrs: seq<Row>, children: seq<Row>, level: nat)
    requires Open(attrs) == 0 && Open(children) == 0
    ensures var rows := [Opens(name)] + (attrs + (children + [Closes]));
            && Laid(rows, level) == Indent(level) + name + " {\n" + Laid(attrs, level + 1) + Laid(children, level + 1)
                                    + (Indent(level) + "}\n")
            && Open(rows) == 0
  {
    hide Laid, Open, Indent, Tabs;
    TabsAreIndent(level);
    LaidOne(Opens(name), level);
    LaidOne(Closes, level + 1);
    LaidAppend(children, [Closes], level + 1);
    LaidAppend(attrs, children + [Closes], level + 1);
    LaidAppend([Opens(name)], attrs + (children + [Closes]), level);
    FourParts(Indent(level) + name + " {\n", Laid(attrs, level + 1), Laid(children, level + 1), Indent(level) + "}\n");
  }

  lemma FourParts(a: string, b: string, c: string, d: string)
    ensures a + b + c + d == a + (b + (c + d))
  {
  }

  lemma NothingLaid(depth: int)
    ensures Laid([], depth) == "" && Open([]) == 0
  {
  }

  lemma {:induction false} ChildrenLaid(ts: seq<Node>, level: nat)
    requires forall i | 0 <= i < |ts| :: Savable(ts[i])
    ensures ChildrenText(ts, level) == Laid(AllRows(ts), level) && Open(AllRows(ts)) == 0
    decreases ts, 0
  {
    hide Laid, Open, Savable, NodeText, Rows;
    if ts == [] {
      NothingLaid(level);
    } else {
      TextIsLaid(ts[0], level);
      ChildrenLaid(ts[1..], level);
      LaidAppend(Rows(ts[0]), AllRows(ts[1..]), level);
    }
  }

  // ---- values ----

  /** Texts with a comma and a space between them. */
  function Joined(texts: seq<string>): string {
    if texts == [] then ""
    else if |texts| == 1 then texts[0]
    else Joined(texts[..|texts| - 1]) + ", " + texts[|texts| - 1]
  }

  lemma {:induction false} JoinedFront(text: string, texts: seq<string>)
    requires texts != []
    ensures Joined([text] + texts) == text + ", " + Joined(texts)
    decreases |texts|
  {
    var all, n := [text] + texts, |texts|;
    assert all[..n] == [text] + texts[..n - 1] && all[n] == texts[n - 1];
    if n == 1 {
      assert texts[..0] == [] && all[..1] == [text];
    } else {
      JoinedFront(text, texts[..n - 1]);
      var last := ", " + texts[n - 1];
      Assoc(text + ", ", Joined(texts[..n - 1]), last);
      Assoc(Joined(texts[..n - 1]), ", ", texts[n - 1]);
      Assoc(text + ", " + Joined(texts[..n - 1]), ", ", texts[n - 1]);
    }
  }

  function ElemTexts(vs: seq<Value>): (texts: seq<string>)
    requires AllSavable(vs)
    ensures |texts| == |vs| && forall i | 0 <= i < |vs| :: texts[i] == ValueText(vs[i])
  {
    seq(|vs|, i requires 0 <= i < |vs| => ValueText(vs[i]))
  }

  lemma {:induction false} ElemsJoined(vs: seq<Value>)
    requires AllSavable(vs)
    ensures ElemsText(vs, true) == Joined(ElemTexts(vs))
    ensures vs != [] ==> ElemsText(vs, false) == ", " + Joined(ElemTexts(vs))
  {
    if vs != [] {
      ElemsJoined(vs[1..]);
      assert ElemTexts(vs) == [ValueText(vs[0])] + ElemTexts(vs[1..]);
      AppendNil(ValueText(vs[0]));
      NilAppend(ValueText(vs[0]));
      if |vs| == 1 {
        AppendNil(", " + ValueText(vs[0]));
      } else {
        JoinedFront(ValueText(vs[0]), ElemTexts(vs[1..]));
        Assoc(ValueText(vs[0]), ", ", Joined(ElemTexts(vs[1..])));
        Assoc(", ", ValueText(vs[0]), ", " + Joined(ElemTexts(vs[1..])));
      }
    }
  }

  function NumTexts(ns: seq<real>): (texts: seq<string>)
    requires forall i | 0 <= i < |ns| :: GExact(ns[i])
    ensures |texts| == |ns| && forall i | 0 <= i < |ns| :: texts[i] == FormatG(ns[i])
  {
    seq(|ns|, i requires 0 <= i < |ns| => FormatG(ns[i]))
  }

  lemma {:induction false} NumsJoined(ns: seq<real>)
    requires forall i | 0 <= i < |ns| :: GExact(ns[i])
    ensures NumsText(ns, true) == Joined(NumTexts(ns))
    ensures ns != [] ==> NumsText(ns, false) == ", " + Joined(NumTexts(ns))
  {
    hide GExact, FormatG;
    if ns != [] {
      var text := FormatG(ns[0]);
      NumsJoined(ns[1..]);
      assert NumTexts(ns) == [text] + NumTexts(ns[1..]);
      AppendNil(text);
      NilAppend(text);
      if |ns| == 1 {
        AppendNil(", " + text);
      } else {
        JoinedFront(text, NumTexts(ns[1..]));
        Assoc(text, ", ", Joined(NumTexts(ns[1..])));
        Assoc(", ", text, ", " + Joined(NumTexts(ns[1..])));
      }
    }
  }

  // ---- numbers ----

  lemma {:induction false} UpMore(x: real, k: nat)
    ensures Up(x, k + 1) == 10.0 * Up(x, k)
    decreases k
  {
    if k > 0 {
      UpMore(10.0 * x, k - 1);
    }
  }

  lemma {:induction false} DecimalsLeast(x: real, from: nat)
    requires exists j | from <= j <= 9 :: Fits(x, j)
    ensures forall j | from <= j < Decimals(x, from) :: !Fits(x, j)
    decreases 10 - from
  {
    if !Fits(x, from) {
      DecimalsLeast(x, from + 1);
    }
  }

  lemma LastPadDigit(n: nat, k: nat)
    requires k > 0
    ensures PadDigits(n, k)[k - 1] == DigitChar(n % 10)
  {
  }

  /** A last decimal of zero can be left out. */
  lemma ZeroFits(x: real, k: nat)
    requires k > 0 && Fits(x, k) && Up(Abs(x), k).Floor % 10 == 0
    ensures Fits(x, k - 1)
  {
    UpMore(Abs(x), k - 1);
    var y, m := Up(Abs(x), k - 1), Up(Abs(x), k).Floor;
    hide Up;
    assert m == 10 * (m / 10);
    assert y == (m / 10) as real;
  }

  /** No zeros are printed behind the last decimal that counts. */
  lemma NoZerosBehind(x: real)
    requires GExact(x)
    ensures var t := FormatG(x); '.' in t ==> t[|t| - 1] != '0'
  {
    var k := Decimals(x, 0);
    var m: nat := Up(Abs(x), k).Floor;
    DecimalsLeast(x, 0);
    if k > 0 {
      if m % 10 == 0 {
        ZeroFits(x, k);
      }
      LastPadDigit(m, k);
      assert DigitChar(m % 10) != '0';
    }
    hide Digits, PadDigits, Up, Fits, GExact;
  }

  /** No zeros are printed in front of a whole number. */
  lemma {:induction false} NoZerosInFront(n: nat)
    ensures n > 0 ==> Digits(n)[0] != '0'
  {
    if n >= 10 {
      NoZerosInFront(n / 10);
    }
  }
}
