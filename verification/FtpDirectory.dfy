/** The listing receiver: the growing buffer, the end-of-transfer loop and the sorted directory. */
module FtpDirectory {
  import opened Options
  import opened Seqs
  import opened Ctype
  import opened TextLines
  import opened FtpListing

  // ---- order ----

  /** `strcmp` */
  function NameCmp(a: string, b: string): int
    decreases a
  {
    if a == "" then (if b == "" then 0 else -1)
    else if b == "" then 1
    else if a[0] == b[0] then NameCmp(a[1..], b[1..])
    else if a[0] < b[0] then -1 else 1
  }

  /** `ftp_direntcmp` */
  function DirentCmp(a: Dirent, b: Dirent): int {
    if a.Dir? == b.Dir? then NameCmp(a.name, b.name)
    else if a.Dir? then -1 else 1
  }

  lemma {:induction false} NameCmpFacts(a: string, b: string)
    ensures NameCmp(a, b) == -NameCmp(b, a)
    ensures NameCmp(a, b) == 0 <==> a == b
    decreases a
  {
    if a != "" && b != "" {
      NameCmpFacts(a[1..], b[1..]);
      assert a == [a[0]] + a[1..] && b == [b[0]] + b[1..];
    }
  }

  lemma {:induction false} NameCmpTransitive(a: string, b: string, c: string)
    requires NameCmp(a, b) <= 0 && NameCmp(b, c) <= 0
    ensures NameCmp(a, c) <= 0
    decreases a
  {
    if a != "" && b != "" && c != "" && a[0] == b[0] == c[0] {
      NameCmpTransitive(a[1..], b[1..], c[1..]);
    }
  }

  /** What the order looks at. */
  datatype Key = Key(isDir: bool, name: string)

  function KeyOf(d: Dirent): Key {
    Key(d.Dir?, d.name)
  }

  function Keys(ds: seq<Dirent>): (ks: seq<Key>)
    ensures |ks| == |ds|
    ensures forall i | 0 <= i < |ds| :: ks[i] == KeyOf(ds[i])
  {
    seq(|ds|, i requires 0 <= i < |ds| => KeyOf(ds[i]))
  }

  /** The comparison is a total order on keys. */
  lemma CmpIsOrder(a: Dirent, b: Dirent, c: Dirent)
    ensures DirentCmp(a, b) == -DirentCmp(b, a)
    ensures DirentCmp(a, b) == 0 <==> KeyOf(a) == KeyOf(b)
    ensures DirentCmp(a, b) <= 0 && DirentCmp(b, c) <= 0 ==> DirentCmp(a, c) <= 0
  {
    NameCmpFacts(a.name, b.name);
    if NameCmp(a.name, b.name) <= 0 && NameCmp(b.name, c.name) <= 0 {
      NameCmpTransitive(a.name, b.name, c.name);
    }
  }

  predicate Sorted(ds: seq<Dirent>) {
    forall i, j | 0 <= i < j < |ds| :: DirentCmp(ds[i], ds[j]) <= 0
  }

  /** `a` is a front part of `b`, or smaller at the first place where they differ. */
  predicate NameLeq(a: string, b: string) {
    a <= b || exists k | 0 <= k < |a| && k < |b| :: a[..k] == b[..k] && a[k] < b[k]
  }

  lemma {:induction false} NameCmpMeaning(a: string, b: string)
    ensures NameCmp(a, b) <= 0 <==> NameLeq(a, b)
    decreases a
  {
    if a != "" && b != "" {
      if a[0] == b[0] {
        NameCmpMeaning(a[1..], b[1..]);
        NameLeqTails(a, b);
      } else {
        assert a[0] < b[0] ==> a[..0] == b[..0];
        assert forall k | 0 < k < |a| && k < |b| :: a[..k][0] == a[0] && b[..k][0] == b[0];
      }
    }
  }

  lemma NameLeqTails(a: string, b: string)
    requires a != "" && b != "" && a[0] == b[0]
    ensures NameLeq(a, b) <==> NameLeq(a[1..], b[1..])
  {
    var s, t := a[1..], b[1..];
    forall k | 0 <= k < |s| && k < |t| && s[..k] == t[..k] && s[k] < t[k] ensures NameLeq(a, b) {
      FrontOfTail(a, k + 1);
      FrontOfTail(b, k + 1);
      assert a[k + 1] < b[k + 1];
    }
    forall k | 0 <= k < |a| && k < |b| && a[..k] == b[..k] && a[k] < b[k] ensures NameLeq(s, t) {
      assert k > 0;
      FrontOfTail(a, k);
      FrontOfTail(b, k);
      assert s[k - 1] < t[k - 1];
    }
    PrefixOfTails(a, b);
  }

  lemma FrontOfTail(a: string, k: nat)
    requires 0 < k <= |a|
    ensures a[..k] == [a[0]] + a[1..][..k - 1] && a[..k][1..] == a[1..][..k - 1]
  {
  }

  lemma PrefixOfTails(a: string, b: string)
    requires a != "" && b != "" && a[0] == b[0]
    ensures a <= b <==> a[1..] <= b[1..]
  {
    if |a| <= |b| {
      FrontOfTail(b, |a|);
      assert a == [a[0]] + a[1..];
    }
  }

  /** Sorted means directories first, and names in order among directories and among files. */
  lemma SortedMeaning(ds: seq<Dirent>)
    ensures Sorted(ds) <==> forall i, j | 0 <= i < j < |ds| ::
              (ds[j].Dir? ==> ds[i].Dir?) && (ds[i].Dir? == ds[j].Dir? ==> NameLeq(ds[i].name, ds[j].name))
  {
    hide NameLeq;
    forall i, j | 0 <= i < j < |ds|
      ensures DirentCmp(ds[i], ds[j]) <= 0 <==>
              (ds[j].Dir? ==> ds[i].Dir?) && (ds[i].Dir? == ds[j].Dir? ==> NameLeq(ds[i].name, ds[j].name))
    {
      NameCmpMeaning(ds[i].name, ds[j].name);
    }
  }

  /** What `qsort` promises: a sorted rearrangement. */
  predicate SortOf(r: seq<Dirent>, ds: seq<Dirent>) {
    Sorted(r) && multiset(r) == multiset(ds)
  }

  /** Stands in for `qsort`, which may order equal keys as it likes. */
  method Qsort(ds: seq<Dirent>) returns (r: seq<Dirent>)
    ensures SortOf(r, ds)
  {
    r := [];
    for n := 0 to |ds|
      invariant SortOf(r, ds[..n])
    {
      SliceStep(ds, n);
      r := Insert(r, ds[n]);
    }
    assert ds[..|ds|] == ds;
  }

  method Insert(s: seq<Dirent>, d: Dirent) returns (r: seq<Dirent>)
    requires Sorted(s)
    ensures SortOf(r, s + [d])
  {
    hide DirentCmp;
    var i := 0;
    while i < |s| && DirentCmp(s[i], d) <= 0
      invariant 0 <= i <= |s|
      invariant forall j | 0 <= j < i :: DirentCmp(s[j], d) <= 0
    {
      i := i + 1;
    }
    r := PutAt(s, d, i);
    PutSorted(s, d, i);
    PutMembers(s, d, i);
  }

  function PutAt(s: seq<Dirent>, d: Dirent, i: nat): (r: seq<Dirent>)
    requires i <= |s|
    ensures |r| == |s| + 1
    ensures forall j | 0 <= j < |r| :: r[j] == if j < i then s[j] else if j == i then d else s[j - 1]
  {
    s[..i] + [d] + s[i..]
  }

  lemma PutMembers(s: seq<Dirent>, d: Dirent, i: nat)
    requires i <= |s|
    ensures multiset(PutAt(s, d, i)) == multiset(s + [d])
  {
    assert s == s[..i] + s[i..];
  }

  lemma PutSorted(s: seq<Dirent>, d: Dirent, i: nat)
    requires Sorted(s) && i <= |s| && (i < |s| ==> DirentCmp(s[i], d) > 0)
    requires forall j | 0 <= j < i :: DirentCmp(s[j], d) <= 0
    ensures Sorted(PutAt(s, d, i))
  {
    hide DirentCmp;
    forall j | i <= j < |s| ensures DirentCmp(d, s[j]) <= 0 {
      CmpIsOrder(s[i], d, d);
      if j > i {
        CmpIsOrder(d, s[i], s[j]);
      }
    }
    var r := PutAt(s, d, i);
    forall a, b | 0 <= a < b < |r| ensures DirentCmp(r[a], r[b]) <= 0 {
      if a < i {
        assert r[a] == s[a];
      } else if a > i {
        assert r[a] == s[a - 1] && r[b] == s[b - 1];
      }
    }
  }

  /** Any two sorted rearrangements of the same entries show the same keys in the same order. */
  lemma {:induction false} SortUnique(r: seq<Dirent>, q: seq<Dirent>)
    requires Sorted(r) && Sorted(q) && multiset(Keys(r)) == multiset(Keys(q))
    ensures Keys(r) == Keys(q)
  {
    SameSize(Keys(r), Keys(q));
    if r != [] {
      FirstKeys(r, q);
      var rs, qs := r[1..], q[1..];
      CutKeys(r);
      CutKeys(q);
      SortUnique(rs, qs);
    }
  }

  lemma SameSize<T>(a: seq<T>, b: seq<T>)
    requires multiset(a) == multiset(b)
    ensures |a| == |b|
  {
    assert |multiset(a)| == |a| && |multiset(b)| == |b|;
  }

  lemma CutKeys(r: seq<Dirent>)
    requires r != []
    ensures Keys(r) == [KeyOf(r[0])] + Keys(r[1..])
    ensures multiset(Keys(r[1..])) == multiset(Keys(r)) - multiset{KeyOf(r[0])}
  {
    assert Keys(r) == [KeyOf(r[0])] + Keys(r[1..]);
  }

  lemma FirstKeys(r: seq<Dirent>, q: seq<Dirent>)
    requires Sorted(r) && Sorted(q) && r != [] && q != [] && multiset(Keys(r)) == multiset(Keys(q))
    ensures KeyOf(r[0]) == KeyOf(q[0])
  {
    var i := KeyIndex(q, r, 0);
    var j := KeyIndex(r, q, 0);
    CmpIsOrder(q[0], q[i], q[i]);
    CmpIsOrder(r[0], r[j], r[j]);
    SameKeyCmp(q[0], r[0], q[0], q[i]);
    SameKeyCmp(r[0], q[0], r[0], r[j]);
    CmpIsOrder(r[0], q[0], q[0]);
  }

  /** A place in `q` that shows the key at place `n` of `r`. */
  lemma KeyIndex(q: seq<Dirent>, r: seq<Dirent>, n: nat) returns (i: nat)
    requires n < |r| && multiset(Keys(r)) == multiset(Keys(q))
    ensures i < |q| && KeyOf(q[i]) == KeyOf(r[n])
  {
    assert Keys(r)[n] in multiset(Keys(r));
    assert Keys(r)[n] in Keys(q);
    i :| 0 <= i < |q| && Keys(q)[i] == Keys(r)[n];
  }

  lemma SameKeyCmp(a: Dirent, b: Dirent, c: Dirent, d: Dirent)
    requires KeyOf(a) == KeyOf(c) && KeyOf(b) == KeyOf(d)
    ensures DirentCmp(a, b) == DirentCmp(c, d)
  {
  }

  lemma RemoveCounts<T>(q: seq<T>, i: nat)
    requires i < |q|
    ensures multiset(q) == multiset(RemoveAt(q, i)) + multiset{q[i]}
    ensures multiset(RemoveAt(q, i)) == multiset(q) - multiset{q[i]}
  {
    assert q == q[..i] + [q[i]] + q[i + 1..];
  }

  lemma FindFirst(r: seq<Dirent>, q: seq<Dirent>) returns (i: nat)
    requires multiset(r) == multiset(q) && r != []
    ensures i < |q| && q[i] == r[0] && multiset(r[1..]) == multiset(RemoveAt(q, i))
  {
    assert r[0] in multiset(r);
    assert r[0] in q;
    i :| 0 <= i < |q| && q[i] == r[0];
    RemoveCounts(q, i);
    RemoveCounts(r, 0);
    NilAppend(r[1..]);
    assert RemoveAt(r, 0) == r[1..];
  }

  lemma KeysWithout(q: seq<Dirent>, i: nat)
    requires i < |q|
    ensures multiset(Keys(q)) == multiset(Keys(RemoveAt(q, i))) + multiset{KeyOf(q[i])}
  {
    RemoveCounts(Keys(q), i);
    assert Keys(RemoveAt(q, i)) == RemoveAt(Keys(q), i);
  }

  lemma {:induction false} KeysOfRearranged(r: seq<Dirent>, q: seq<Dirent>)
    requires multiset(r) == multiset(q)
    ensures multiset(Keys(r)) == multiset(Keys(q))
  {
    SameSize(r, q);
    if r != [] {
      var i := FindFirst(r, q);
      KeysOfRearranged(r[1..], RemoveAt(q, i));
      KeysWithout(r, 0);
      NilAppend(r[1..]);
      KeysWithout(q, i);
    }
  }

  // ---- one line, in loops ----

  /** `SKIP_FIELD` from position `p` */
  method SkipField(s: string, p: nat) returns (q: nat)
    requires p <= |s|
    ensures p <= q <= |s| && s[q..] == SkipGap(SkipWord(s[p..]))
  {
    q := p;
    while q < |s| && s[q] != NUL && s[q] != '\n' && !IsSpace(s[q])
      invariant p <= q <= |s| && SkipWord(s[p..]) == SkipWord(s[q..])
    {
      assert s[q..][1..] == s[q + 1..];
      q := q + 1;
    }
    while q < |s| && s[q] != '\n' && IsSpace(s[q])
      invariant p <= q <= |s| && SkipGap(SkipWord(s[p..])) == SkipGap(s[q..])
    {
      assert s[q..][1..] == s[q + 1..];
      q := q + 1;
    }
  }

  method SkipSome(s: string, p: nat, n: nat) returns (q: nat)
    requires p <= |s|
    ensures p <= q <= |s| && s[q..] == SkipFields(s[p..], n)
  {
    q := p;
    for i := 0 to n
      invariant p <= q <= |s| && SkipFields(s[p..], n) == SkipFields(s[q..], n - i)
    {
      q := SkipField(s, q);
    }
  }

  /** Moves the end of a name back over blanks, never past its first character. */
  method TrimName(s: string, name: nat, ptr: nat) returns (end: nat)
    requires name <= ptr <= |s|
    ensures name <= end <= ptr && s[name..end] == TrimEnd(s[name..ptr])
  {
    end := ptr;
    while end > name + 1 && IsSpace(s[end - 1])
      invariant name <= end <= ptr && TrimEnd(s[name..ptr]) == TrimEnd(s[name..end])
    {
      assert s[name..end][..end - name - 1] == s[name..end - 1];
      end := end - 1;
    }
  }

  /** The part of `parse_dirent` that finds the end of the name in `s[name..lineEnd]`. */
  method CutName(s: string, name: nat, lineEnd: nat) returns (end: nat)
    requires name < lineEnd <= |s|
    requires lineEnd < |s| ==> s[lineEnd] != '>'
    ensures name <= end <= lineEnd && s[name..end] == NameOf(s[name..lineEnd])
  {
    hide ArrowAt, NameOf, TrimEnd;
    ghost var field := s[name..lineEnd];
    end := lineEnd;
    var ptr := name;
    while ptr < end
      invariant name <= ptr <= end == lineEnd
      invariant ArrowAt(field) == ptr - name + ArrowAt(s[ptr..lineEnd])
    {
      ghost var here := s[ptr..lineEnd];
      ArrowStep(here);
      assert here[0] == s[ptr] && here[1..] == s[ptr + 1..lineEnd];
      assert ptr + 1 < lineEnd ==> here[1] == s[ptr + 1];
      if s[ptr] == '-' && ptr + 1 < |s| && s[ptr + 1] == '>' {
        assert field[..ptr - name] == s[name..ptr];
        NameCut(field);
        end := TrimName(s, name, ptr);
        return;
      }
      ptr := ptr + 1;
    }
    ArrowStep(s[ptr..lineEnd]);
    NameCut(field);
  }

  lemma ArrowStep(t: string)
    ensures t == "" ==> ArrowAt(t) == 0
    ensures t != "" ==> ArrowAt(t) == if |t| > 1 && t[0] == '-' && t[1] == '>' then 0 else 1 + ArrowAt(t[1..])
  {
  }

  lemma NameCut(field: string)
    ensures NameOf(field) == var n := ArrowAt(field); if n == |field| then field else TrimEnd(field[..n])
  {
  }

  /** `parse_dirent` on the bytes from a line's start to the end of the transfer */
  method ParseDirent(line: string) returns (r: Option<Dirent>)
    ensures r == ParseEntry(line)
  {
    hide SkipFields, Atoi, NameOf, IndexOf, LineEnd, SkipGap, SkipWord;
    var lineEnd := LineEnd(line);
    if lineEnd == None {
      return None;
    }
    var end := lineEnd.value;
    EndIsBreak(line);
    FourAndFour(line);
    assert line[0..] == line;
    var ptr := SkipSome(line, 0, 4);
    var size := Atoi(line[ptr..]);
    ptr := SkipSome(line, ptr, 4);
    if ptr >= end {
      return None;
    }
    var nameEnd := CutName(line, ptr, end);
    if nameEnd <= ptr {
      return None;
    }
    r := Some(MakeEntry(line[0] == 'd', line[ptr..nameEnd], size));
  }

  lemma FourAndFour(s: string)
    ensures SkipFields(SkipFields(s, 4), 4) == SkipFields(s, 8)
  {
    FieldsAdd(s, 4, 4);
  }

  lemma {:induction false} FieldsAdd(s: string, m: nat, n: nat)
    ensures SkipFields(SkipFields(s, m), n) == SkipFields(s, m + n)
    decreases m
  {
    if m > 0 {
      FieldsAdd(SkipGap(SkipWord(s)), m - 1, n);
    }
  }

  lemma {:induction false} IndexFinds(s: string, c: char)
    ensures IndexOf(s, c).Some? ==> IndexOf(s, c).value < |s| && s[IndexOf(s, c).value] == c
  {
    if s != "" && s[0] != NUL && s[0] != c {
      IndexFinds(s[1..], c);
    }
  }

  lemma EndIsBreak(s: string)
    ensures LineEnd(s).Some? ==> LineEnd(s).value < |s| && IsBreak(s[LineEnd(s).value])
  {
    IndexFinds(s, '\r');
    IndexFinds(s, '\n');
  }

  // ---- the receiver ----

  const CHUNK_MAX: nat := 256

  /** The buffer of a running listing transfer and the directory it will replace. */
  class ListReceiver {
    var buf: array<char>
    var size: nat
    var bufsz: nat
    var dirent: seq<Dirent>

    ghost predicate Valid()
      reads this
    {
      buf.Length == bufsz && size <= bufsz && 1024 <= bufsz
    }

    ghost function Received(): string
      reads this, buf
      requires Valid()
    {
      buf[..size]
    }

    /** The set-up in `ftp_list` */
    constructor ()
      ensures Valid() && fresh(buf) && Received() == ""
    {
      size := 0;
      bufsz := 1024;
      buf := new char[1024];
      dirent := [];
    }

    /** `dproc_list` with data: one doubling always makes room. */
    method Data(chunk: string)
      requires Valid() && 0 < |chunk| <= CHUNK_MAX
      modifies this, buf
      ensures Valid() && (buf == old(buf) || fresh(buf)) && dirent == old(dirent)
      ensures Received() == old(Received()) + chunk
    {
      if size + |chunk| > bufsz {
        var newsz := bufsz * 2;
        var tmp := new char[newsz];
        forall i | 0 <= i < bufsz {
          tmp[i] := buf[i];
        }
        buf := tmp;
        bufsz := newsz;
      }
      ghost var before := buf[..size];
      forall i | 0 <= i < |chunk| {
        buf[size + i] := chunk[i];
      }
      size := size + |chunk|;
      assert buf[..size] == before + chunk;
    }

    /** `dproc_list` at the end of the transfer */
    method Finish()
      requires Valid()
      modifies this
      ensures SortOf(dirent, Entries(old(Received())))
    {
      var s := buf[..size];
      var collected := Collect(s);
      dirent := Qsort(collected);
    }
  }

  /** The end-of-transfer loop over the received bytes. */
  method Collect(s: string) returns (entries: seq<Dirent>)
    ensures entries == Entries(s)
  {
    entries := [];
    var ptr := 0;
    assert s[0..] == s;
    while ptr < |s|
      invariant 0 <= ptr <= |s|
      invariant entries + Entries(s[ptr..]) == Entries(s)
      decreases |s| - ptr
    {
      ghost var here := s[ptr..];
      var ent := ParseDirent(s[ptr..]);
      Assoc(entries, OptSeq(ent), Entries(SkipBreaks(ToBreak(here))));
      if ent.Some? {
        entries := entries + [ent.value];
      } else {
        AppendNil(entries);
      }
      ptr := NextLine(s, ptr);
    }
    AppendNil(entries);
  }

  method NextLine(s: string, p: nat) returns (q: nat)
    requires p < |s|
    ensures p < q <= |s| && s[q..] == SkipBreaks(ToBreak(s[p..]))
  {
    q := p;
    while q < |s| && s[q] != '\n' && s[q] != '\r'
      invariant p <= q <= |s| && ToBreak(s[p..]) == ToBreak(s[q..])
    {
      assert s[q..][1..] == s[q + 1..];
      q := q + 1;
    }
    while q < |s| && (s[q] == '\r' || s[q] == '\n')
      invariant p <= q <= |s| && SkipBreaks(ToBreak(s[p..])) == SkipBreaks(s[q..])
      invariant q == p ==> q < |s| && IsBreak(s[q])
    {
      assert s[q..][1..] == s[q + 1..];
      q := q + 1;
    }
  }

  // ---- whole transfers ----

  /** A listing received in any chunks of at most 256 bytes becomes the sorted entries of all its bytes. */
  method ReceiveListing(chunks: seq<string>) returns (dirent: seq<Dirent>)
    requires forall i | 0 <= i < |chunks| :: 0 < |chunks[i]| <= CHUNK_MAX
    ensures SortOf(dirent, Entries(Concat(chunks)))
  {
    var r := new ListReceiver();
    for i := 0 to |chunks|
      invariant r.Valid() && fresh(r) && fresh(r.buf)
      invariant r.Received() == Concat(chunks[..i])
    {
      assert chunks[..i + 1][..i] == chunks[..i];
      r.Data(chunks[i]);
    }
    assert chunks[..|chunks|] == chunks;
    r.Finish();
    dirent := r.dirent;
  }

  /**
   However a listing is cut, its lines ended by CRLF or by line feeds alone, and however `qsort` orders equal keys, the
   directory shows the same keys: those of the lines with a ninth field, directories
   first and then by name.
   */
  lemma DirectoryDependsOnLinesOnly(
      lines: seq<string>, eol: string, chunks: seq<string>, dirent: seq<Dirent>, other: seq<Dirent>)
    requires (forall i | 0 <= i < |lines| :: Line(lines[i])) && (eol == CRLF || eol == LF)
    requires Concat(chunks) == AllEnded(lines, eol)
    requires SortOf(dirent, Entries(Concat(chunks))) && SortOf(other, LineEntries(lines))
    ensures Keys(dirent) == Keys(other) && multiset(dirent) == multiset(LineEntries(lines))
  {
    EntriesOfListing(lines, eol);
    KeysOfRearranged(dirent, other);
    SortUnique(dirent, other);
  }
}
