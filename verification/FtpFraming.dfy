/** Control-connection framing: cutting received chunks into response lines, in the receive buffer. */
module FtpFraming {
  import opened Ctype
  import opened Seqs
  import opened TextLines

  // ---- lines of a stream ----

  /** The unfinished line at the end. */
  function TailOf(s: string): (r: string)
    ensures '\n' !in r && |r| <= |s|
    ensures '\n' in s ==> |r| < |s|
  {
    if s == "" then ""
    else
      var init, last := s[..|s| - 1], s[|s| - 1];
      assert s == init + [last];
      if last == '\n' then "" else TailOf(init) + [last]
  }

  /** The finished lines, without their line feeds. */
  function LinesOf(s: string): (r: seq<string>)
    ensures forall i | 0 <= i < |r| :: '\n' !in r[i]
  {
    if s == "" then []
    else
      var init := s[..|s| - 1];
      if s[|s| - 1] == '\n' then LinesOf(init) + [TailOf(init)] else LinesOf(init)
  }

  function Unlines(lines: seq<string>): string {
    if lines == [] then "" else Unlines(lines[..|lines| - 1]) + lines[|lines| - 1] + "\n"
  }

  /** Lines and tail put back together are the stream. */
  lemma {:induction false} LinesPartition(s: string)
    ensures Unlines(LinesOf(s)) + TailOf(s) == s
  {
    if s != "" {
      var init, c := s[..|s| - 1], s[|s| - 1];
      SliceStep(s, |s| - 1);
      assert s[..|s|] == s;
      LinesPartition(init);
      var lines, tail := LinesOf(init), TailOf(init);
      if c == '\n' {
        DropLast(lines, tail);
        AppendNil(Unlines(LinesOf(s)));
      } else {
        Assoc(Unlines(lines), tail, [c]);
      }
    }
  }

  lemma {:induction false} SplitLater(s: string, c: string)
    ensures LinesOf(s + c) == LinesOf(s) + LinesOf(TailOf(s) + c)
    ensures TailOf(s + c) == TailOf(TailOf(s) + c)
    decreases |c|
  {
    if c == "" {
      assert s + c == s && TailOf(s) + c == TailOf(s);
      NoLines(TailOf(s));
    } else {
      var init := c[..|c| - 1];
      assert (s + c)[..|s + c| - 1] == s + init;
      assert (TailOf(s) + c)[..|TailOf(s) + c| - 1] == TailOf(s) + init;
      SplitLater(s, init);
    }
  }

  lemma {:induction false} NoLines(s: string)
    ensures '\n' !in s <==> LinesOf(s) == []
    ensures '\n' !in s ==> TailOf(s) == s
  {
    if s != "" {
      var init := s[..|s| - 1];
      assert s == init + [s[|s| - 1]];
      NoLines(init);
    }
  }

  function CleanChar(c: char): char {
    if c == '\r' then NUL else c
  }

  /** Carriage returns become zeros in the buffer. */
  function Clean(s: string): (r: string)
    ensures |r| == |s|
    ensures forall i | 0 <= i < |s| :: r[i] == CleanChar(s[i])
  {
    seq(|s|, i requires 0 <= i < |s| => CleanChar(s[i]))
  }

  lemma CleanKeepsLines(s: string)
    ensures '\n' in Clean(s) <==> '\n' in s
  {
    var r := Clean(s);
    assert forall i | 0 <= i < |s| :: s[i] == '\n' <==> r[i] == '\n';
  }

  /** One more byte at the end of a stream. */
  lemma OneMore(s: string, c: char)
    ensures TailOf(s + [c]) == if c == '\n' then "" else TailOf(s) + [c]
    ensures LinesOf(s + [c]) == if c == '\n' then LinesOf(s) + [TailOf(s)] else LinesOf(s)
  {
    assert (s + [c])[..|s|] == s;
  }

  function CStrings(lines: seq<string>): (r: seq<string>)
    ensures |r| == |lines|
    ensures forall i | 0 <= i < |lines| :: r[i] == CString(lines[i])
  {
    seq(|lines|, i requires 0 <= i < |lines| => CString(lines[i]))
  }

  // ---- the effect of one chunk, and of many ----

  /** Lines handed to `proc_control` so far, and the bytes kept for the next read. */
  datatype Framing = Framing(lines: seq<string>, kept: string)

  /** What is due after a stream: each finished line as a C string, and the unfinished tail. */
  function Due(stream: string): Framing {
    Framing(CStrings(LinesOf(Clean(stream))), TailOf(Clean(stream)))
  }

  /** What one received chunk does: a chunk without a line feed is thrown away with what was kept. */
  function AfterChunk(f: Framing, chunk: string): Framing {
    var data := f.kept + Clean(chunk);
    if '\n' in chunk then Framing(f.lines + CStrings(LinesOf(data)), TailOf(data))
    else f.(kept := "")
  }

  function AfterChunks(f: Framing, chunks: seq<string>): Framing
    decreases |chunks|
  {
    if chunks == [] then f
    else AfterChunk(AfterChunks(f, chunks[..|chunks| - 1]), chunks[|chunks| - 1])
  }

  lemma CStringsAppend(a: seq<string>, b: seq<string>)
    ensures CStrings(a + b) == CStrings(a) + CStrings(b)
  {
  }

  lemma CleanAppend(a: string, b: string)
    ensures Clean(a + b) == Clean(a) + Clean(b)
  {
  }

  /** One more chunk keeps the framing right if and only if the chunk contains a line feed. */
  lemma ChunkExact(stream: string, chunk: string)
    requires chunk != ""
    ensures AfterChunk(Due(stream), chunk) == Due(stream + chunk) <==> '\n' in chunk
  {
    var s, c := Clean(stream), Clean(chunk);
    CleanKeepsLines(chunk);
    CleanAppend(stream, chunk);
    SplitLater(s, c);
    CStringsAppend(LinesOf(s), LinesOf(TailOf(s) + c));
    if '\n' !in chunk {
      NoLines(TailOf(s) + c);
    }
  }

  /** The line as it stands in the buffer. */
  function Buffered(l: string, eol: string): string {
    if eol == CRLF then l + [NUL] else l
  }

  lemma BufferedLine(l: string, eol: string)
    requires Line(l) && (eol == CRLF || eol == LF)
    ensures Clean(l + eol) == Buffered(l, eol) + ['\n'] && '\n' !in Buffered(l, eol)
  {
  }

  lemma BufferedText(l: string, eol: string)
    requires Line(l)
    ensures CString(Buffered(l, eol)) == l
  {
    var b := Buffered(l, eol);
    assert b[..|l|] == l;
    CStringEnds(b, |l|);
  }

  lemma OneCString(s: string)
    ensures CStrings([s]) == [CString(s)]
  {
  }

  /** A line is handed over without its end, a carriage return included. */
  lemma OneLineDue(l: string, eol: string)
    requires Line(l) && (eol == CRLF || eol == LF)
    ensures Due(l + eol) == Framing([l], "")
  {
    hide Clean, Buffered, CString, Line, LinesOf, TailOf;
    var b := Buffered(l, eol);
    BufferedLine(l, eol);
    BufferedText(l, eol);
    OneMore(b, '\n');
    NoLines(b);
    NilAppend([b]);
    OneCString(b);
  }

  /** What comes behind a finished line is due by itself. */
  lemma DueBehind(s: string, x: string)
    requires Due(s).kept == ""
    ensures Due(s + x) == Framing(Due(s).lines + Due(x).lines, Due(x).kept)
  {
    CleanAppend(s, x);
    SplitLater(Clean(s), Clean(x));
    NilAppend(Clean(x));
    CStringsAppend(LinesOf(Clean(s)), LinesOf(Clean(x)));
    hide Clean, LinesOf, TailOf, CStrings;
  }

  /** Of a stream of lines that all end alike, exactly the lines are handed over, and nothing is kept. */
  lemma {:induction false} LinesAreDue(lines: seq<string>, eol: string)
    requires (forall i | 0 <= i < |lines| :: Line(lines[i])) && (eol == CRLF || eol == LF)
    ensures Due(AllEnded(lines, eol)) == Framing(lines, "")
  {
    if lines == [] {
      assert Clean("") == "" && CStrings([]) == [];
    } else {
      hide Due;
      var l, rest := lines[0], AllEnded(lines[1..], eol);
      OneLineDue(l, eol);
      LinesAreDue(lines[1..], eol);
      Assoc(l, eol, rest);
      DueBehind(l + eol, rest);
      assert lines == [l] + lines[1..];
    }
  }

  /** After each of the chunks, lines and kept bytes were what was due. */
  predicate RightThroughout(chunks: seq<string>)
    decreases |chunks|
  {
    && AfterChunks(Framing([], ""), chunks) == Due(Concat(chunks))
    && (chunks == [] || RightThroughout(chunks[..|chunks| - 1]))
  }

  predicate AllHaveLineFeed(chunks: seq<string>) {
    forall i | 0 <= i < |chunks| :: '\n' in chunks[i]
  }

  lemma LastHasLineFeed(chunks: seq<string>)
    requires chunks != []
    ensures AllHaveLineFeed(chunks) <==> AllHaveLineFeed(chunks[..|chunks| - 1]) && '\n' in chunks[|chunks| - 1]
  {
    var init := chunks[..|chunks| - 1];
    assert forall i | 0 <= i < |init| :: init[i] == chunks[i];
  }

  /**
   For every cutting of a stream into received chunks, the framing is right
   throughout if and only if every chunk contains a line feed.
   */
  lemma {:induction false} FramingExact(chunks: seq<string>)
    requires forall i | 0 <= i < |chunks| :: chunks[i] != ""
    ensures RightThroughout(chunks) <==> AllHaveLineFeed(chunks)
    decreases |chunks|
  {
    if chunks == [] {
      assert Due("") == Framing([], "");
    } else {
      var init := chunks[..|chunks| - 1];
      FramingExact(init);
      LastHasLineFeed(chunks);
      ChunkExact(Concat(init), chunks[|chunks| - 1]);
    }
  }

  // ---- the receive buffer ----

  const BUF_SIZE: nat := 256

  class Control {
    const crecv: array<char>
    var numCrecv: nat
    /** Lines passed to `proc_control`, in order. */
    var lines: seq<string>

    ghost predicate Valid()
      reads this
    {
      crecv.Length == BUF_SIZE && numCrecv <= BUF_SIZE
    }

    ghost function Kept(): string
      reads this, crecv
      requires Valid()
    {
      crecv[..numCrecv]
    }

    ghost function Now(): Framing
      reads this, crecv
      requires Valid()
    {
      Framing(lines, Kept())
    }

    constructor ()
      ensures Valid() && fresh(crecv) && Now() == Framing([], "")
    {
      crecv := new char[BUF_SIZE];
      numCrecv := 0;
      lines := [];
    }

    /** Largest chunk the next `recv` may deliver; a full buffer is discarded first. */
    function Room(): nat
      reads this
      requires Valid()
    {
      if numCrecv == BUF_SIZE then BUF_SIZE else BUF_SIZE - numCrecv
    }

    /** One byte of the scan: it ends the line that starts at `buf`, or joins it. */
    method ScanByte(at: nat, buf: nat, ghost tail: string) returns (next: nat)
      requires crecv.Length == BUF_SIZE && buf <= at < BUF_SIZE && crecv[buf..at] == tail
      modifies `lines, crecv
      ensures forall j | 0 <= j < BUF_SIZE && j != at :: crecv[j] == old(crecv[j])
      ensures old(crecv[at]) == '\n' ==>
                next == at + 1 && lines == old(lines) + [CString(tail)] && crecv[next..at + 1] == ""
      ensures old(crecv[at]) != '\n' ==>
                next == buf && lines == old(lines) && crecv[next..at + 1] == tail + [CleanChar(old(crecv[at]))]
    {
      next := buf;
      if crecv[at] == '\r' {
        crecv[at] := NUL;
      } else if crecv[at] == '\n' {
        crecv[at] := NUL;
        assert crecv[buf..at + 1] == tail + [NUL];
        CStringStops(tail);
        lines := lines + [CString(crecv[buf..at + 1])];
        next := at + 1;
      }
    }

    /** The scanning loop of `handle_control`: the bytes before `start` were kept from an earlier read. */
    method ScanChunk(start: nat, end: nat, ghost raw: string) returns (buf: nat)
      requires crecv.Length == BUF_SIZE && start <= end <= BUF_SIZE && crecv[..end] == raw
      requires '\n' !in raw[..start] && Clean(raw[..start]) == raw[..start]
      modifies `lines, crecv
      ensures buf <= end && Scanned(Clean(raw), old(lines), lines, crecv[buf..end])
      ensures buf == 0 <==> '\n' !in raw
    {
      hide TailOf, LinesOf, CStrings, Clean, Scanned;
      ghost var done := raw[..start];
      ghost var tail := done;
      buf := 0;
      ScannedStart(done, lines);
      assert crecv[..start] == crecv[..end][..start];
      var at := start;
      while at < end
        invariant start <= at <= end && buf <= at
        invariant |done| == at && forall j | 0 <= j < at :: done[j] == CleanChar(raw[j])
        invariant crecv[buf..at] == tail && Scanned(done, old(lines), lines, tail)
        invariant forall j | at <= j < end :: crecv[j] == raw[j]
        invariant |lines| >= |old(lines)| && (buf == 0 <==> |lines| == |old(lines)|)
      {
        ghost var c := CleanChar(raw[at]);
        ScannedStep(done, c, old(lines), lines, tail);
        buf := ScanByte(at, buf, tail);
        tail := if c == '\n' then "" else tail + [c];
        done := done + [c];
        at := at + 1;
      }
      ScannedEnd(raw, done, old(lines), lines, tail);
    }

    /** One round of the loop in `handle_control`: a chunk arrives behind the kept bytes. */
    method Receive(chunk: string)
      requires Valid() && numCrecv < BUF_SIZE && 0 < |chunk| <= Room()
      requires '\n' !in Kept() && Clean(Kept()) == Kept()
      modifies this, crecv
      ensures Valid() && numCrecv < BUF_SIZE
      ensures '\n' !in Kept() && Clean(Kept()) == Kept()
      ensures Now() == AfterChunk(old(Now()), chunk)
    {
      hide TailOf, LinesOf, CStrings, Clean, Scanned, AfterChunk;
      ghost var kept := Kept();
      ghost var raw := kept + chunk;
      var start := numCrecv;
      var end := start + |chunk|;
      Store(start, chunk);
      assert crecv[..end] == raw && raw[..start] == kept;
      var buf := ScanChunk(start, end, raw);
      ChunkEffect(kept, chunk, old(lines), lines, crecv[buf..end]);
      if buf != 0 && buf < end {
        numCrecv := end - buf;
        Move(buf, numCrecv);
      } else {
        numCrecv := 0;
      }
    }

    /** `recv` into the buffer */
    method Store(start: nat, chunk: string)
      requires start + |chunk| <= crecv.Length
      modifies crecv
      ensures crecv[..start] == old(crecv[..start]) && crecv[start..start + |chunk|] == chunk
    {
      forall i | 0 <= i < |chunk| {
        crecv[start + i] := chunk[i];
      }
    }

    /** `memmove` to the front of the buffer */
    method Move(from: nat, count: nat)
      requires from + count <= crecv.Length
      modifies crecv
      ensures crecv[..count] == old(crecv[from..from + count])
    {
      var i := 0;
      while i < count
        invariant 0 <= i <= count
        invariant forall j | 0 <= j < i :: crecv[j] == old(crecv[from + j])
        invariant forall j | from + i <= j < from + count :: crecv[j] == old(crecv[j])
      {
        crecv[i] := crecv[from + i];
        i := i + 1;
      }
    }

    /** All the reads of a `handle_control` call, until the socket has no more. */
    method HandleControl(chunks: seq<string>)
      requires Valid() && numCrecv < BUF_SIZE
      requires '\n' !in Kept() && Clean(Kept()) == Kept()
      modifies this, crecv
      ensures Valid() && numCrecv < BUF_SIZE
      ensures '\n' !in Kept() && Clean(Kept()) == Kept()
      ensures exists n | 0 <= n <= |chunks| ::
                Now() == AfterChunks(old(Now()), chunks[..n])
                && (n < |chunks| ==> !(0 < |chunks[n]| <= Room()))
    {
      var k := 0;
      assert chunks[..0] == [];
      while k < |chunks| && 0 < |chunks[k]| <= Room()
        invariant 0 <= k <= |chunks|
        invariant Valid() && numCrecv < BUF_SIZE
        invariant '\n' !in Kept() && Clean(Kept()) == Kept()
        invariant Now() == AfterChunks(old(Now()), chunks[..k])
      {
        assert chunks[..k + 1][..k] == chunks[..k];
        Receive(chunks[k]);
        k := k + 1;
      }
    }
  }

  /** After the bytes `done` the lines `lines` are out and `tail` is unfinished. */
  ghost predicate Scanned(done: string, before: seq<string>, lines: seq<string>, tail: string) {
    tail == TailOf(done) && lines == before + CStrings(LinesOf(done))
  }

  /** What a scanned buffer amounts to: with a line feed in the chunk the tail is kept, without one nothing is. */
  lemma ChunkEffect(kept: string, chunk: string, before: seq<string>, lines: seq<string>, tail: string)
    requires '\n' !in kept && Clean(kept) == kept
    requires Scanned(Clean(kept + chunk), before, lines, tail)
    ensures '\n' in kept + chunk <==> '\n' in chunk
    ensures AfterChunk(Framing(before, kept), chunk) == Framing(lines, if '\n' in chunk then tail else "")
    ensures '\n' !in tail && Clean(tail) == tail && '\n' !in "" && Clean("") == ""
  {
    CleanAppend(kept, chunk);
    assert Clean(Clean(kept + chunk)) == Clean(kept + chunk);
    CleanTail(Clean(kept + chunk));
    CleanKeepsLines(kept + chunk);
    NoLines(Clean(kept + chunk));
    AppendNil(before);
  }

  lemma ScannedStart(done: string, lines: seq<string>)
    requires '\n' !in done
    ensures Scanned(done, lines, lines, done)
  {
    NoLines(done);
  }

  lemma ScannedEnd(raw: string, done: string, before: seq<string>, lines: seq<string>, tail: string)
    requires Scanned(done, before, lines, tail) && |lines| >= |before|
    requires |done| == |raw| && forall j | 0 <= j < |raw| :: done[j] == CleanChar(raw[j])
    ensures Scanned(Clean(raw), before, lines, tail)
    ensures |lines| == |before| <==> '\n' !in raw
  {
    assert done == Clean(raw);
    CleanKeepsLines(raw);
    NoLines(done);
  }

  lemma ScannedStep(done: string, c: char, before: seq<string>, lines: seq<string>, tail: string)
    requires Scanned(done, before, lines, tail)
    ensures c == '\n' ==> Scanned(done + [c], before, lines + [CString(tail)], "")
    ensures c != '\n' ==> Scanned(done + [c], before, lines, tail + [c])
  {
    OneMore(done, c);
    CStringsAppend(LinesOf(done), [TailOf(done)]);
  }

  lemma {:induction false} CleanTail(s: string)
    requires Clean(s) == s
    ensures Clean(TailOf(s)) == TailOf(s)
  {
    if s != "" && s[|s| - 1] != '\n' {
      var init := s[..|s| - 1];
      assert Clean(init) == init by {
        assert forall i | 0 <= i < |init| :: init[i] == s[i] && Clean(s)[i] == s[i];
      }
      CleanTail(init);
      CleanAppend(TailOf(init), [s[|s| - 1]]);
      assert Clean(s)[|s| - 1] == s[|s| - 1];
    }
  }
}
