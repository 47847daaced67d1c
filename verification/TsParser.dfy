/** The treestore parser: what a text means as a tree, and the reader methods that compute it. */
module TsParser {
  import opened Ctype
  import opened TsTree
  import opened TsNumber
  import opened TsLexer

  datatype Parsed<T> = Failed | Parsed(value: T, rest: string)

  const MAX_ELEMS: nat := 31

  function FinishArray(acc: seq<Value>, rest: string): Parsed<Value> {
    if |acc| <= 1 then Failed else Parsed(ArrValue(acc), rest)
  }

  /** The value that starts with the already read token `tok` and goes on in `s`. */
  function ParseValue(tok: Token, s: string): (r: Parsed<Value>)
    requires tok != Eof
    ensures r.Parsed? ==> |r.rest| <= |s|
    decreases |s|, 1
  {
    match tok
    case Num(t) => Parsed(NumValue(Atof(t)), s)
    case Sym('[') => ParseArray(s, ']', [])
    case Sym('{') => ParseArray(s, '}', [])
    case Sym(_) => Parsed(INIT_VALUE, s)
    case Id(t) => Parsed(StrValue(CString(t)), s)
    case Str(t) => Parsed(StrValue(CString(t)), s)
  }

  /** The rest of an array after the elements `acc`. */
  function ParseArray(s: string, endSym: char, acc: seq<Value>): (r: Parsed<Value>)
    ensures r.Parsed? ==> |r.rest| <= |s|
    decreases |s|, 0
  {
    var l := Lex(s);
    if l.tok == Eof then FinishArray(acc, l.rest)
    else match ParseValue(l.tok, l.rest)
      case Failed => Failed
      case Parsed(v, s2) =>
        var acc2 := if |acc| < MAX_ELEMS then acc + [v] else acc;
        var sep := Lex(s2);
        if sep.tok == Sym(endSym) then FinishArray(acc2, sep.rest)
        else if sep.tok == Sym(',') then ParseArray(sep.rest, endSym, acc2)
        else Failed
  }

  /** The rest of a node body after the attributes and children read so far. */
  function ParseBody(s: string, attrs: seq<Attr>, children: seq<Node>): (r: Parsed<Node>)
    ensures r.Parsed? ==> |r.rest| <= |s|
    decreases |s|
  {
    var l := Lex(s);
    if l.tok == Sym('}') then Parsed(Node("", attrs, children), l.rest)
    else if !l.tok.Id? then Failed
    else
      var m := Lex(l.rest);
      if m.tok == Sym('=') then
        var n := Lex(m.rest);
        if n.tok == Eof then Failed
        else match ParseValue(n.tok, n.rest)
          case Failed => Failed
          case Parsed(v, s2) => ParseBody(s2, attrs + [Attr(l.tok.text, v)], children)
      else if m.tok == Sym('{') then
        match ParseBody(m.rest, [], [])
        case Failed => Failed
        case Parsed(child, s2) => ParseBody(s2, attrs, children + [child.(name := l.tok.text)])
      else Failed
  }

  /** A body with the name of the node put in. */
  function Named(r: Parsed<Node>, name: string): Parsed<Node> {
    match r
    case Failed => Failed
    case Parsed(node, rest) => Parsed(node.(name := name), rest)
  }

  /** `ts_text_load`: one named node. */
  function Load(s: string): (r: Parsed<Node>)
    ensures r.Parsed? ==> |r.rest| < |s|
  {
    var l := Lex(s);
    var m := Lex(l.rest);
    if l.tok.Id? && m.tok == Sym('{') then Named(ParseBody(m.rest, [], []), l.tok.text) else Failed
  }

  /** A reader method's outcome is the one the specification gives. */
  ghost predicate Agrees<T(!new)>(ok: bool, value: T, rest: string, r: Parsed<T>) {
    match r
    case Failed => !ok
    case Parsed(v, s) => ok && value == v && rest == s
  }

  /** The copying loop of `ts_set_value_arr` */
  method CopyAll(arr: seq<Value>) returns (elems: seq<Value>, allNum: bool)
    ensures elems == CopyValues(arr) && allNum == AllNumbers(arr)
  {
    hide CopyValue, CopyValues;
    elems, allNum := [], true;
    for i := 0 to |arr|
      invariant allNum <==> forall j | 0 <= j < i :: arr[j].kind == TsNumber
      invariant |elems| == i && forall j | 0 <= j < i :: elems[j] == CopyValue(arr[j])
    {
      if arr[i].kind != TsNumber {
        allNum := false;
      }
      elems := elems + [CopyValue(arr[i])];
    }
  }

  /** The loop of `ts_set_value_arr` that fills in the vector */
  method VectorOf(elems: seq<Value>) returns (vec: seq<real>)
    ensures vec == Nums(elems)
  {
    vec := [];
    for i := 0 to |elems|
      invariant |vec| == i && forall j | 0 <= j < i :: vec[j] == elems[j].num
    {
      vec := vec + [elems[i].num];
    }
  }

  /** `ts_set_value_arr` */
  method SetValueArr(arr: seq<Value>) returns (ok: bool, v: Value)
    ensures ok == (|arr| > 1)
    ensures ok ==> v == ArrValue(arr)
  {
    v := INIT_VALUE;
    if |arr| <= 1 {
      return false, v;
    }
    var elems, allNum := CopyAll(arr);
    v := v.(elems := elems);
    if allNum {
      var vec := VectorOf(elems);
      assert Nums(elems) == Nums(arr);
      v := v.(kind := TsVector, vec := vec);
    } else {
      v := v.(kind := TsArray);
    }
    ok := true;
  }

  /** `read_value` */
  method ReadValue(p: Reader, kind: TokType) returns (ok: bool, v: Value)
    requires p.Valid() && kind != TOK_EOF && (kind == TOK_SYM ==> |p.token| == 1)
    modifies p
    ensures p.Valid() && |p.Rest()| <= |old(p.Rest())|
    ensures Agrees(ok, v, p.Rest(), ParseValue(AsToken(kind, old(p.token)), old(p.Rest())))
    decreases |p.Rest()|, 1
  {
    ok, v := true, INIT_VALUE;
    if kind == TOK_NUM {
      v := NumValue(Atof(p.token));
    } else if kind == TOK_SYM {
      if p.token[0] == '[' || p.token[0] == '{' {
        var endSym := p.token[0] + 2 as char;
        ok, v := ReadArray(p, endSym);
      }
    } else {
      v := StrValue(CString(p.token));
    }
  }

  /** `read_array` */
  method ReadArray(p: Reader, endSym: char) returns (ok: bool, v: Value)
    requires p.Valid()
    modifies p
    ensures p.Valid() && |p.Rest()| <= |old(p.Rest())|
    ensures Agrees(ok, v, p.Rest(), ParseArray(old(p.Rest()), endSym, []))
    decreases |p.Rest()|, 0
  {
    hide ParseValue, Lex, FinishArray;
    v := INIT_VALUE;
    var values: seq<Value> := [];
    ghost var s := p.Rest();
    var kind := p.NextToken();
    while kind != TOK_EOF
      invariant p.Valid() && |s| <= |old(p.Rest())|
      invariant kind == TOK_SYM ==> |p.token| == 1
      invariant AsToken(kind, p.token) == Lex(s).tok && p.Rest() == Lex(s).rest
      invariant ParseArray(old(p.Rest()), endSym, []) == ParseArray(s, endSym, values)
      decreases |p.Rest()|, kind != TOK_EOF
    {
      var val;
      ok, val := ReadValue(p, kind);
      if !ok {
        return;
      }
      if |values| < MAX_ELEMS {
        values := values + [val];
      }
      kind := p.NextToken();
      if !(kind == TOK_SYM && (p.token[0] == ',' || p.token[0] == endSym)) {
        return false, v;
      }
      if p.token[0] == endSym {
        break;
      }
      s := p.Rest();
      kind := p.NextToken();
    }
    ok, v := SetValueArr(values);
    Finished(values, p.Rest());
  }

  lemma Finished(values: seq<Value>, rest: string)
    ensures FinishArray(values, rest) == if |values| > 1 then Parsed(ArrValue(values), rest) else Failed
  {
  }

  /** `read_node` */
  method ReadNode(p: Reader) returns (ok: bool, node: Node)
    requires p.Valid()
    modifies p
    ensures p.Valid() && |p.Rest()| <= |old(p.Rest())|
    ensures Agrees(ok, node, p.Rest(), ParseBody(old(p.Rest()), [], []))
    decreases |p.Rest()|
  {
    hide ParseValue, Lex;
    node := Node("", [], []);
    ok := false;
    ghost var s := p.Rest();
    var kind := p.NextToken();
    while kind == TOK_ID
      invariant p.Valid() && |s| <= |old(p.Rest())|
      invariant kind == TOK_SYM ==> |p.token| == 1
      invariant AsToken(kind, p.token) == Lex(s).tok && p.Rest() == Lex(s).rest
      invariant node.name == ""
      invariant ParseBody(old(p.Rest()), [], []) == ParseBody(s, node.attrs, node.children)
      decreases |p.Rest()|, kind != TOK_EOF
    {
      var id := p.token;
      kind := p.NextToken();
      if kind != TOK_SYM {
        return;
      }
      if p.token[0] == '=' {
        kind := p.NextToken();
        if kind == TOK_EOF {
          return;
        }
        var read, val := ReadValue(p, kind);
        if !read {
          return;
        }
        node := node.(attrs := node.attrs + [Attr(id, val)]);
      } else if p.token[0] == '{' {
        var read, child := ReadNode(p);
        if !read {
          return;
        }
        node := node.(children := node.children + [child.(name := id)]);
      } else {
        return;
      }
      s := p.Rest();
      kind := p.NextToken();
    }
    ok := kind == TOK_SYM && p.token[0] == '}';
  }

  /** `ts_text_load`, on a stream that is open */
  method TextLoad(p: Reader) returns (ok: bool, node: Node)
    requires p.Valid()
    modifies p
    ensures p.Valid()
    ensures Agrees(ok, node, p.Rest(), Load(old(p.Rest())))
  {
    node := Node("", [], []);
    var kind := p.NextToken();
    if kind != TOK_ID {
      return false, node;
    }
    var rootName := p.token;
    kind := p.NextToken();
    if kind != TOK_SYM || p.token[0] != '{' {
      return false, node;
    }
    ok, node := ReadNode(p);
    node := node.(name := rootName);
  }
}
