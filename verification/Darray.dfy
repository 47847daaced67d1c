/** The dynamic array: a growing and shrinking buffer, its string macros and its amortised cost. */
module Darray {
  import opened Ctype
  import opened Options

  // ---- growth policy ----

  /** What decides reallocation: live elements and capacity. */
  datatype Shape = Shape(nelem: nat, maxElem: nat)

  datatype Op = Push | Pop

  function GrownCapacity(maxElem: nat): nat {
    if maxElem > 0 then maxElem * 2 else 1
  }

  function Min(a: nat, b: nat): nat {
    if a < b then a else b
  }

  function StepShape(s: Shape, op: Op): Shape {
    match op
    case Push =>
      if s.nelem >= s.maxElem then Shape(s.nelem + 1, GrownCapacity(s.maxElem))
      else s.(nelem := s.nelem + 1)
    case Pop =>
      if s.nelem == 0 then s
      else if s.nelem <= s.maxElem / 3 then Shape(s.nelem - 1, s.maxElem / 2)
      else s.(nelem := s.nelem - 1)
  }

  /** Elements copied by a reallocation (the smaller capacity) or written by a push. */
  function StepCost(s: Shape, op: Op): nat {
    match op
    case Push => (if s.nelem >= s.maxElem then Min(s.maxElem, GrownCapacity(s.maxElem)) else 0) + 1
    case Pop => if 0 < s.nelem <= s.maxElem / 3 then Min(s.maxElem, s.maxElem / 2) else 0
  }

  function RunShape(s: Shape, ops: seq<Op>): Shape
    decreases ops
  {
    if ops == [] then s else RunShape(StepShape(s, ops[0]), ops[1..])
  }

  function RunCost(s: Shape, ops: seq<Op>): nat
    decreases ops
  {
    if ops == [] then 0 else StepCost(s, ops[0]) + RunCost(StepShape(s, ops[0]), ops[1..])
  }

  /** Twice the potential: zero between half and two thirds full, steep towards both ends. */
  function Potential(s: Shape): nat {
    var high := 6 * s.nelem - 4 * s.maxElem;
    var low := 3 * s.maxElem - 6 * s.nelem;
    if high > 0 then high else if low > 0 then low else 0
  }

  lemma StepAmortised(s: Shape, op: Op)
    requires s.nelem <= s.maxElem
    ensures StepShape(s, op).nelem <= StepShape(s, op).maxElem
    ensures 2 * StepCost(s, op) + Potential(StepShape(s, op)) <= Potential(s) + 8
  {
  }

  /** Any run of `k` pushes and pops copies or writes at most `4k` elements beyond the initial potential. */
  lemma {:induction false} RunAmortised(s: Shape, ops: seq<Op>)
    requires s.nelem <= s.maxElem
    ensures 2 * RunCost(s, ops) <= Potential(s) + 8 * |ops|
    decreases ops
  {
    if ops != [] {
      StepAmortised(s, ops[0]);
      RunAmortised(StepShape(s, ops[0]), ops[1..]);
    }
  }

  lemma AmortisedFromEmpty(ops: seq<Op>)
    ensures RunCost(Shape(0, 0), ops) <= 4 * |ops|
  {
    RunAmortised(Shape(0, 0), ops);
  }

  /** Never more than three times as much room as elements, and two. */
  predicate Tight(s: Shape) {
    s.nelem <= s.maxElem <= 3 * s.nelem + 2
  }

  lemma {:induction false} RunStaysTight(s: Shape, ops: seq<Op>)
    requires Tight(s)
    ensures Tight(RunShape(s, ops))
    decreases ops
  {
    if ops != [] {
      RunStaysTight(StepShape(s, ops[0]), ops[1..]);
    }
  }

  /** In every run of a new array the room is bounded by the elements it holds. */
  lemma TightFromEmpty(ops: seq<Op>)
    ensures Tight(RunShape(Shape(0, 0), ops))
  {
    RunStaysTight(Shape(0, 0), ops);
  }

  function Pushes(k: nat): (ops: seq<Op>)
    ensures |ops| == k && forall i | 0 <= i < k :: ops[i] == Push
  {
    seq(k, _ => Push)
  }

  /** The least power of two that is not below `n`, and nothing for nothing. */
  predicate LeastPower(p: nat, n: nat) {
    if n == 0 then p == 0 else IsPower(p) && n <= p < 2 * n
  }

  predicate IsPower(p: nat) {
    p == 1 || (p > 1 && p % 2 == 0 && IsPower(p / 2))
  }

  /** Pushing onto a new array doubles its room: it is always the least power of two that is enough. */
  lemma {:induction false} PushesDouble(k: nat, s: Shape)
    requires LeastPower(s.maxElem, s.nelem)
    ensures var t := RunShape(s, Pushes(k)); t.nelem == s.nelem + k && LeastPower(t.maxElem, t.nelem)
    decreases k
  {
    if k > 0 {
      assert Pushes(k)[1..] == Pushes(k - 1);
      PushesDouble(k - 1, StepShape(s, Push));
    }
  }

  // ---- the array ----

  class DArray<T(0)> {
    var nelem: nat
    var maxElem: nat
    const szelem: nat
    var bufsz: nat
    var buf: array<T>
    /** Elements copied by reallocations or written by pushes so far. */
    ghost var work: nat

    ghost predicate Valid()
      reads this
    {
      nelem <= maxElem && buf.Length == maxElem && bufsz == maxElem * szelem
    }

    ghost function Contents(): seq<T>
      reads this, buf
      requires Valid()
    {
      buf[..nelem]
    }

    ghost function CurrentShape(): Shape
      reads this
    {
      Shape(nelem, maxElem)
    }

    /** `darr_alloc`: elements start uninitialised */
    constructor (elem: nat, szelem: nat)
      ensures Valid() && fresh(buf)
      ensures this.szelem == szelem && work == 0
      ensures CurrentShape() == Shape(elem, elem) && |Contents()| == elem
    {
      this.szelem := szelem;
      nelem, maxElem := elem, elem;
      bufsz := elem * szelem;
      buf := new T[elem];
      work := 0;
    }

    /** `realloc`: keeps what fits in both sizes */
    method Reallocate(elem: nat)
      requires Valid()
      modifies this
      ensures buf.Length == elem && fresh(buf)
      ensures nelem == old(nelem) && maxElem == old(maxElem) && bufsz == old(bufsz)
      ensures var kept := Min(old(maxElem), elem);
              buf[..kept] == old(buf[..kept]) && work == old(work) + kept
    {
      var bigger := new T[elem];
      var kept := Min(maxElem, elem);
      forall i | 0 <= i < kept {
        bigger[i] := buf[i];
      }
      buf := bigger;
      work := work + kept;
    }

    /** `darr_resize_impl` */
    method Resize(elem: nat)
      requires Valid()
      modifies this
      ensures Valid() && fresh(buf)
      ensures CurrentShape() == Shape(elem, elem)
      ensures var kept := Min(old(maxElem), elem);
              buf[..kept] == old(buf[..kept]) && work == old(work) + kept
    {
      var newsz := szelem * elem;
      Reallocate(elem);
      nelem, maxElem := elem, elem;
      bufsz := newsz;
    }

    /** `darr_empty` */
    method Empty() returns (r: bool)
      requires Valid()
      ensures r <==> Contents() == []
    {
      r := nelem == 0;
    }

    /** `darr_size` */
    method Size() returns (n: nat)
      requires Valid()
      ensures n == |Contents()|
    {
      n := nelem;
    }

    /** `darr_clear_impl` */
    method Clear()
      requires Valid()
      modifies this
      ensures Valid() && fresh(buf)
      ensures Contents() == [] && maxElem == 0
    {
      Resize(0);
    }

    /** `darr_push_impl`; without an item the new element is whatever the buffer holds there. */
    method Push(item: Option<T>)
      requires Valid()
      modifies this, buf
      ensures Valid() && (buf == old(buf) || fresh(buf))
      ensures |Contents()| == old(nelem) + 1 && Contents()[..old(nelem)] == old(Contents())
      ensures item.Some? ==> Contents() == old(Contents()) + [item.value]
      ensures CurrentShape() == StepShape(old(CurrentShape()), Op.Push)
      ensures work == old(work) + StepCost(old(CurrentShape()), Op.Push) - if item.Some? then 0 else 1
    {
      var n := nelem;
      if n >= maxElem {
        var newsz := if maxElem > 0 then maxElem * 2 else 1;
        Resize(newsz);
        assert buf[..n] == old(buf[..n]);
        nelem := n;
      }
      if item.Some? {
        buf[nelem] := item.value;
        work := work + 1;
      }
      nelem := nelem + 1;
    }

    /** `darr_pop_impl` */
    method Pop()
      requires Valid()
      modifies this
      ensures Valid() && (buf == old(buf) || fresh(buf))
      ensures var c := old(Contents()); Contents() == if c == [] then [] else c[..|c| - 1]
      ensures CurrentShape() == StepShape(old(CurrentShape()), Op.Pop)
      ensures work == old(work) + StepCost(old(CurrentShape()), Op.Pop)
    {
      var n := nelem;
      if n == 0 {
        return;
      }
      if n <= maxElem / 3 {
        var newsz := maxElem / 2;
        Resize(newsz);
        assert buf[..newsz][..n] == old(buf[..newsz])[..n];
        nelem := n;
      }
      nelem := nelem - 1;
    }
  }

  // ---- runs ----

  datatype Action<T> = DoPush(item: Option<T>) | DoPop | DoResize(elem: nat) | DoClear

  function OpsOf<T>(actions: seq<Action<T>>): seq<Op>
    requires forall i | 0 <= i < |actions| :: actions[i].DoPush? || actions[i].DoPop?
  {
    if actions == [] then []
    else [if actions[0].DoPush? then Push else Pop] + OpsOf(actions[1..])
  }

  /** `after` is a state of the plain sequence model that an action may lead to from `before`. */
  ghost predicate ModelStep<T>(before: seq<T>, a: Action<T>, after: seq<T>) {
    match a
    case DoPush(x) =>
      |after| == |before| + 1 && after[..|before|] == before && (x.Some? ==> after == before + [x.value])
    case DoPop => after == if before == [] then [] else before[..|before| - 1]
    case DoResize(n) => |after| == n && forall i | 0 <= i < |before| && i < n :: after[i] == before[i]
    case DoClear => after == []
  }

  /** A run of the array is a run of the plain sequence model. */
  method Run<T(0)>(d: DArray<T>, actions: seq<Action<T>>) returns (ghost trace: seq<seq<T>>)
    requires d.Valid()
    modifies d, d.buf
    ensures d.Valid()
    ensures |trace| == |actions| + 1 && trace[0] == old(d.Contents()) && trace[|actions|] == d.Contents()
    ensures forall i | 0 <= i < |actions| :: ModelStep(trace[i], actions[i], trace[i + 1])
  {
    trace := [d.Contents()];
    for i := 0 to |actions|
      invariant d.Valid() && (d.buf == old(d.buf) || fresh(d.buf))
      invariant |trace| == i + 1 && trace[0] == old(d.Contents()) && trace[i] == d.Contents()
      invariant forall j | 0 <= j < i :: ModelStep(trace[j], actions[j], trace[j + 1])
    {
      match actions[i] {
        case DoPush(x) =>
          d.Push(x);
        case DoPop =>
          d.Pop();
        case DoResize(n) =>
          ghost var kept := Min(d.maxElem, n);
          ghost var before := d.buf[..kept];
          ghost var contents := d.Contents();
          d.Resize(n);
          assert forall j | 0 <= j < |contents| && j < n ::
              contents[j] == before[j] && d.Contents()[j] == d.buf[..kept][j];
        case DoClear =>
          d.Clear();
      }
      trace := trace + [d.Contents()];
    }
  }

  /** Pushes and pops on a new empty array do at most four units of work each. */
  method RunFromEmpty<T(0)>(szelem: nat, actions: seq<Action<T>>) returns (d: DArray<T>)
    requires forall i | 0 <= i < |actions| :: actions[i].DoPush? || actions[i].DoPop?
    ensures fresh(d) && d.Valid()
    ensures d.CurrentShape() == RunShape(Shape(0, 0), OpsOf(actions))
    ensures d.work <= 4 * |actions|
    ensures d.maxElem <= 3 * |d.Contents()| + 2
  {
    d := new DArray<T>(0, szelem);
    for i := 0 to |actions|
      invariant fresh(d) && fresh(d.buf) && d.Valid()
      invariant RunShape(d.CurrentShape(), OpsOf(actions[i..])) == RunShape(Shape(0, 0), OpsOf(actions))
      invariant d.work + RunCost(d.CurrentShape(), OpsOf(actions[i..])) <= RunCost(Shape(0, 0), OpsOf(actions))
    {
      assert actions[i..][1..] == actions[i + 1..];
      if actions[i].DoPush? {
        d.Push(actions[i].item);
      } else {
        d.Pop();
      }
    }
    OpsLength(actions);
    TightFromEmpty(OpsOf(actions));
    AmortisedFromEmpty(OpsOf(actions));
  }

  lemma {:induction false} OpsLength<T>(actions: seq<Action<T>>)
    requires forall i | 0 <= i < |actions| :: actions[i].DoPush? || actions[i].DoPop?
    ensures |OpsOf(actions)| == |actions|
  {
    if actions != [] {
      OpsLength(actions[1..]);
    }
  }

  // ---- string macros ----

  /** The invariant of the string macros: nothing, or text and one final zero. */
  predicate ZeroEnded(s: string) {
    s == [] || s[|s| - 1] == NUL
  }

  function TextOf(s: string): string {
    if s == [] then [] else s[..|s| - 1]
  }

  /** `darr_strpush` */
  method StrPush(d: DArray<char>, c: char)
    requires d.Valid() && ZeroEnded(d.Contents())
    modifies d, d.buf
    ensures d.Valid() && (d.buf == old(d.buf) || fresh(d.buf))
    ensures d.Contents() == TextOf(old(d.Contents())) + [c, NUL]
    ensures ZeroEnded(d.Contents())
  {
    d.Pop();
    d.Push(Some(c));
    d.Push(Some(NUL));
  }

  /** `darr_strpop` */
  method StrPop(d: DArray<char>)
    requires d.Valid() && ZeroEnded(d.Contents())
    modifies d, d.buf
    ensures d.Valid() && (d.buf == old(d.buf) || fresh(d.buf))
    ensures var t := TextOf(old(d.Contents())); d.Contents() == (if t == [] then [] else t[..|t| - 1]) + [NUL]
    ensures ZeroEnded(d.Contents())
  {
    d.Pop();
    d.Pop();
    d.Push(Some(NUL));
  }
}
