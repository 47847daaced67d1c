/** The deep copy of a value, in memory. */
module TsCopy {
  import opened Ctype
  import opened Options
  import opened TsTree

  ghost function TextIn(s: array?<char>): Option<string>
    reads s
  {
    if s == null then None else Some(CString(s[..]))
  }

  ghost function NumbersIn(v: array?<real>): seq<real>
    reads v
  {
    if v == null then [] else v[..]
  }

  /** `struct ts_value`: the strings and vectors are separate storage, the elements are structures of their own. */
  class TsValue {
    var kind: Kind
    var str: array?<char>
    var num: real
    var vec: array?<real>
    var vecSize: nat
    var elems: seq<TsValue>
    /** All storage of the value. */
    ghost var repr: set<object>

    /** `ts_init_value` */
    constructor ()
      ensures Valid() && fresh(repr) && Model() == INIT_VALUE
    {
      kind, str, num := TsString, null, 0.0;
      vec, vecSize, elems := null, 0, [];
      repr := {this};
    }

    ghost predicate Valid()
      reads this, repr
      decreases repr
    {
      && this in repr
      && (str != null ==> str in repr)
      && (vec != null ==> vec in repr && vecSize <= vec.Length)
      && (forall e | e in elems :: e in repr && e.repr <= repr - {this} && e.Valid())
    }

    /** The value that the storage holds. */
    ghost function Model(): Value
      reads this, repr
      requires Valid()
      decreases repr
    {
      Value(
        kind,
        TextIn(str),
        num,
        NumbersIn(vec),
        vecSize,
        seq(|elems|, i requires 0 <= i < |elems| reads this, repr requires Valid() => elems[i].Model()))
    }

    /** `ts_copy_value` into this structure: a copy in new storage. */
    method CopyFrom(src: TsValue)
      requires src.Valid() && (this == src || this !in src.repr)
      modifies this
      ensures this == src ==> Valid() && Model() == old(src.Model())
      ensures this != src ==> Valid() && fresh(repr - {this}) && Model() == CopyValue(src.Model())
      ensures this != src ==> src.Valid() && src.Model() == old(src.Model())
      decreases src.repr, 2
    {
      if this == src {
        return;
      }
      hide *;
      ghost var m := src.Model();
      var text, numbers, copies, storage := CopyParts(src);
      Fill(src.kind, text, src.num, numbers, src.vecSize, copies, {this} + storage);
      Assembled(m, storage);
    }

    /** Sets all fields. */
    method Fill(kind: Kind, str: array?<char>, num: real, vec: array?<real>, vecSize: nat, elems: seq<TsValue>,
                ghost repr: set<object>)
      modifies this
      ensures this.kind == kind && this.str == str && this.num == num && this.vec == vec
      ensures this.vecSize == vecSize && this.elems == elems && this.repr == repr
    {
      this.kind, this.str, this.num, this.vec, this.vecSize, this.elems := kind, str, num, vec, vecSize, elems;
      this.repr := repr;
    }

    /** New storage for everything that a value points to. */
    static method CopyParts(src: TsValue)
      returns (text: array?<char>, numbers: array?<real>, copies: seq<TsValue>, ghost storage: set<object>)
      requires src.Valid()
      ensures src.Valid() && src.Model() == old(src.Model()) && fresh(storage)
      ensures text != null ==> text in storage
      ensures numbers != null ==> numbers in storage && src.vecSize <= numbers.Length
      ensures var m := src.Model();
              && m.kind == src.kind && m.num == src.num && m.vecSize == src.vecSize
              && TextIn(text) == m.str
              && NumbersIn(numbers) == (if 0 < m.vecSize <= |m.vec| then m.vec[..m.vecSize] else [])
              && Copied(copies, m.elems, storage)
      decreases src.repr, 1
    {
      src.Fields();
      ghost var own: set<object>, own2: set<object>, inner: set<object>;
      text, own := CopyText(src.str);
      numbers, own2 := CopyVector(src.vec, src.vecSize);
      copies, inner := CopyElems(src);
      storage := own + own2 + inner;
    }

    /** How the fields and the value of a structure correspond. */
    lemma Fields()
      requires Valid()
      ensures this in repr && (str != null ==> str in repr) && (vec != null ==> vec in repr && vecSize <= vec.Length)
      ensures var m := Model();
              && m.kind == kind && m.num == num && m.vecSize == vecSize
              && m.str == TextIn(str) && m.vec == NumbersIn(vec)
    {
    }

    /** A structure whose parts are copies of the parts of a value holds a copy of the value. */
    lemma Assembled(m: Value, inner: set<object>)
      requires this in repr && (str != null ==> str in repr) && (vec != null ==> vec in repr && vecSize <= vec.Length)
      requires inner <= repr - {this} && Copied(elems, m.elems, inner)
      requires kind == m.kind && num == m.num && vecSize == m.vecSize
      requires TextIn(str) == m.str
      requires NumbersIn(vec) == if 0 < m.vecSize <= |m.vec| then m.vec[..m.vecSize] else []
      ensures Valid() && Model() == CopyValue(m)
    {
      assert Valid();
      assert Model().elems == CopyValues(m.elems);
    }

    /** The loop of `ts_copy_value` over the elements of an array. */
    static method CopyElems(src: TsValue) returns (copies: seq<TsValue>, ghost storage: set<object>)
      requires src.Valid()
      ensures fresh(storage) && src.Valid() && Copied(copies, src.Model().elems, storage)
      decreases src.repr, 0
    {
      hide Copied, TextIn, NumbersIn;
      copies, storage := [], {};
      ghost var models := src.Model().elems;
      CopiedNone();
      for i := 0 to |src.elems|
        invariant fresh(storage) && Copied(copies, models[..i], storage)
      {
        var e := new TsValue();
        e.CopyFrom(src.elems[i]);
        assert models[..i + 1] == models[..i] + [src.elems[i].Model()];
        CopiedMore(copies, models[..i], storage, e, src.elems[i].Model());
        copies := copies + [e];
        storage := storage + e.repr;
      }
      assert models[..|models|] == models;
    }
  }

  /** The structures hold copies of the values, all of it inside the given storage. */
  ghost predicate Copied(copies: seq<TsValue>, models: seq<Value>, storage: set<object>)
    reads storage
  {
    && |copies| == |models|
    && forall i | 0 <= i < |copies| ::
         copies[i] in storage && copies[i].repr <= storage && copies[i].Valid()
         && copies[i].Model() == CopyValue(models[i])
  }

  lemma CopiedNone()
    ensures Copied([], [], {})
  {
  }

  lemma CopiedMore(copies: seq<TsValue>, models: seq<Value>, storage: set<object>, e: TsValue, m: Value)
    requires Copied(copies, models, storage) && e.Valid() && e.Model() == CopyValue(m)
    ensures Copied(copies + [e], models + [m], storage + e.repr)
  {
  }

  /** `strlen`, `malloc` and `strcpy`, for a string that is there */
  method CopyText(s: array?<char>) returns (t: array?<char>, ghost storage: set<object>)
    ensures fresh(storage) && (t != null ==> t in storage) && TextIn(t) == TextIn(s)
  {
    t, storage := null, {};
    if s != null {
      var n := 0;
      while n < s.Length && s[n] != NUL
        invariant 0 <= n <= s.Length && NUL !in s[..n]
      {
        n := n + 1;
      }
      t := new char[n + 1];
      forall i | 0 <= i < n {
        t[i] := s[i];
      }
      t[n] := NUL;
      storage := {t};
      CStringEnds(s[..], n);
      CStringEnds(t[..], n);
      assert s[..][..n] == s[..n] == t[..][..n];
    }
  }

  /** `malloc` and `memcpy`, for a vector that is there and not recorded as empty */
  method CopyVector(v: array?<real>, n: nat) returns (w: array?<real>, ghost storage: set<object>)
    requires v != null ==> n <= v.Length
    ensures fresh(storage) && (w != null ==> w in storage && w.Length == n)
    ensures var all := NumbersIn(v); NumbersIn(w) == if 0 < n <= |all| then all[..n] else []
  {
    w, storage := null, {};
    if v != null && n > 0 {
      w := new real[n];
      forall i | 0 <= i < n {
        w[i] := v[i];
      }
      storage := {w};
      assert w[..] == v[..n];
    }
  }

  /** A deep copy equals its source if every vector in it is recorded at its full size. */
  method DeepCopy(src: TsValue) returns (c: TsValue)
    requires src.Valid()
    ensures fresh(c.repr) && c.Valid() && src.Valid()
    ensures c.Model() == src.Model() <==> VecSizesMatch(src.Model())
  {
    c := new TsValue();
    c.CopyFrom(src);
    CopyIsExact(src.Model());
  }
}
