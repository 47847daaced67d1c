/** Values, attributes and nodes of the treestore, as the C structures hold them. */
module TsTree {
  import opened Options

  datatype Kind = TsString | TsNumber | TsVector | TsArray

  /**
   One `struct ts_value`. A null `vec` or `array` (here `elems`) is the empty sequence; `vec`
   holds the allocated vector, `vecSize` the field of that name, which the
   header promises to equal the array size.
   */
  datatype Value = Value(
    kind: Kind,
    str: Option<string>,
    num: real,
    vec: seq<real>,
    vecSize: nat,
    elems: seq<Value>)

  datatype Attr = Attr(name: string, val: Value)

  datatype Node = Node(name: string, attrs: seq<Attr>, children: seq<Node>)

  const INIT_VALUE := Value(TsString, None, 0.0, [], 0, [])

  function NumValue(x: real): Value {
    INIT_VALUE.(kind := TsNumber, num := x)
  }

  function StrValue(s: string): Value {
    INIT_VALUE.(str := Some(s))
  }

  /** What `ts_copy_value` leaves in the destination. */
  function CopyValue(v: Value): (c: Value)
    ensures c.kind == v.kind && c.num == v.num && |c.elems| == |v.elems|
  {
    v.(vec := if 0 < v.vecSize <= |v.vec| then v.vec[..v.vecSize] else [],
       elems := CopyValues(v.elems))
  }

  function CopyValues(vs: seq<Value>): (cs: seq<Value>)
    ensures |cs| == |vs|
    ensures forall i | 0 <= i < |vs| :: cs[i] == CopyValue(vs[i])
  {
    if vs == [] then [] else [CopyValue(vs[0])] + CopyValues(vs[1..])
  }

  predicate AllNumbers(vs: seq<Value>) {
    forall i | 0 <= i < |vs| :: vs[i].kind == TsNumber
  }

  function Nums(vs: seq<Value>): (ns: seq<real>)
    ensures |ns| == |vs|
    ensures forall i | 0 <= i < |vs| :: ns[i] == vs[i].num
  {
    seq(|vs|, i requires 0 <= i < |vs| => vs[i].num)
  }

  /** What `ts_set_value_arr` makes of two or more elements: `vecSize` stays zero. */
  function ArrValue(vs: seq<Value>): Value {
    INIT_VALUE.(
      kind := if AllNumbers(vs) then TsVector else TsArray,
      vec := if AllNumbers(vs) then Nums(vs) else [],
      elems := CopyValues(vs))
  }

  /** Every vector of the value is recorded at its full size. */
  predicate VecSizesMatch(v: Value) {
    (v.vec == [] || v.vecSize == |v.vec|) && forall i | 0 <= i < |v.elems| :: VecSizesMatch(v.elems[i])
  }

  /** The header's promise: a vector holds the numbers of the array beside it, and `vec_size` says how many. */
  predicate VectorsAgree(v: Value) {
    match v.kind
    case TsVector => v.vecSize == |v.vec| && AllNumbers(v.elems) && v.vec == Nums(v.elems)
    case TsArray => forall i | 0 <= i < |v.elems| :: VectorsAgree(v.elems[i])
    case _ => true
  }

  /** No vector anywhere in the value. */
  predicate NoVector(v: Value) {
    match v.kind
    case TsVector => false
    case TsArray => forall i | 0 <= i < |v.elems| :: NoVector(v.elems[i])
    case _ => true
  }

  predicate NodeVectorsAgree(t: Node) {
    && (forall i | 0 <= i < |t.attrs| :: VectorsAgree(t.attrs[i].val))
    && (forall i | 0 <= i < |t.children| :: NodeVectorsAgree(t.children[i]))
  }

  /** A copy equals its source exactly when every vector size in it is right. */
  lemma {:induction false} CopyIsExact(v: Value)
    ensures CopyValue(v) == v <==> VecSizesMatch(v)
  {
    var c := CopyValue(v);
    forall i | 0 <= i < |v.elems|
      ensures c.elems[i] == v.elems[i] <==> VecSizesMatch(v.elems[i])
    {
      CopyIsExact(v.elems[i]);
    }
    assert c.elems == v.elems <==> forall i | 0 <= i < |v.elems| :: c.elems[i] == v.elems[i];
    assert v.vec[..|v.vec|] == v.vec;
    assert c.vec == v.vec <==> v.vecSize == |v.vec| || v.vec == [];
  }

  /** A copy has as many numbers as the recorded size says, the first ones, if there are so many; else none. */
  lemma CopiedNumbers(v: Value)
    ensures var c := CopyValue(v);
            && |c.vec| == (if v.vecSize <= |v.vec| then v.vecSize else 0)
            && (forall i | 0 <= i < |c.vec| :: c.vec[i] == v.vec[i])
            && c.vecSize == v.vecSize && c.str == v.str
  {
  }

  /** Copying a copy changes nothing more. */
  lemma {:induction false} CopyTwice(v: Value)
    ensures CopyValue(CopyValue(v)) == CopyValue(v)
  {
    var c := CopyValue(v);
    forall i | 0 <= i < |v.elems|
      ensures CopyValue(c.elems[i]) == c.elems[i]
    {
      CopyTwice(v.elems[i]);
    }
    assert CopyValues(c.elems) == c.elems;
    assert c.vec[..|c.vec|] == c.vec;
  }
}
