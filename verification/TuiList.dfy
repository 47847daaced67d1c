/** The list widget: cursor, viewport and selection. */
module TuiList {

  datatype Entry = Entry(text: string, sel: bool)

  /** Everything about the widget that moves. */
  datatype State = State(entries: seq<Entry>, cur: int, viewOffs: int, numSel: int)

  function VisLines(height: int): int {
    height - 2
  }

  // ---- what must hold between clears ----

  /** The cursor, if there is one, is on a row of the window; without one the window is at the top. */
  predicate CursorVisible(s: State, height: int) {
    if s.cur == -1 then s.viewOffs == 0
    else 0 <= s.cur < |s.entries| && s.viewOffs <= s.cur < s.viewOffs + VisLines(height)
  }

  /** Number of rows the draw loop visits. */
  function DrawnRows(s: State, height: int): int {
    if |s.entries| > height - 2 then height - 2 else |s.entries|
  }

  /** The entry drawn on row `i` exists. */
  predicate RowValid(s: State, i: int) {
    0 <= i + s.viewOffs < |s.entries|
  }

  /** Every row the draw loop touches is a valid index. */
  predicate DrawSafe(s: State, height: int) {
    forall i | 0 <= i < DrawnRows(s, height) :: RowValid(s, i)
  }

  predicate WindowOk(s: State, height: int) {
    CursorVisible(s, height) && DrawSafe(s, height) && 0 <= s.viewOffs
  }

  /** The selected rows in order. */
  function Selected(entries: seq<Entry>): (r: seq<int>)
    ensures |r| <= |entries|
  {
    if entries == [] then []
    else
      var n := |entries| - 1;
      var init := Selected(entries[..n]);
      if entries[n].sel then init + [n] else init
  }

  /** The rows are exactly the selected ones, each once, in increasing order. */
  predicate ExactRows(entries: seq<Entry>, r: seq<int>) {
    && (forall i | 0 <= i < |entries| :: i in r <==> entries[i].sel)
    && (forall k | 0 <= k < |r| :: 0 <= r[k] < |entries|)
    && (forall j, k | 0 <= j < k < |r| :: r[j] < r[k])
  }

  lemma {:induction false} SelectedExact(entries: seq<Entry>)
    ensures ExactRows(entries, Selected(entries))
  {
    if entries != [] {
      var n := |entries| - 1;
      SelectedExact(entries[..n]);
      OneRowMore(entries, Selected(entries[..n]));
    }
  }

  lemma OneRowMore(entries: seq<Entry>, r: seq<int>)
    requires entries != [] && ExactRows(entries[..|entries| - 1], r)
    ensures ExactRows(entries, if entries[|entries| - 1].sel then r + [|entries| - 1] else r)
  {
    var n := |entries| - 1;
    var init := entries[..n];
    var q := if entries[n].sel then r + [n] else r;
    assert n !in r;
    forall i | 0 <= i < |entries| ensures i in q <==> entries[i].sel {
      assert i < n ==> init[i] == entries[i];
      assert i in q <==> i in r || (i == n && entries[n].sel);
    }
  }

  predicate CountOk(s: State) {
    s.numSel == |Selected(s.entries)|
  }

  // ---- moves ----

  datatype Move = Add(text: string) | SetCur(idx: int) | Next | Prev | Start | End | Toggle(row: nat) | Clear

  /** Moves a caller may make: rows exist, targets are not negative, and `Start` needs an entry. */
  predicate Allowed(s: State, m: Move) {
    match m
    case SetCur(idx) => idx >= 0
    case Start => s.entries != []
    case Toggle(row) => row < |s.entries|
    case Clear => false
    case _ => true
  }

  /** Division by two as C does it, towards zero. */
  function Half(n: int): int {
    if n >= 0 then n / 2 else -(-n / 2)
  }

  /** Where `tui_list_setcur` puts the window when the row lies outside it. */
  function Centred(idx: int, numvis: int, nelem: int): int {
    var offs := idx - Half(numvis);
    var offs2 := if offs + numvis >= nelem then nelem - numvis else offs;
    if offs2 < 0 then 0 else offs2
  }

  /** The widget after a move, for the given height. */
  function Moved(s: State, m: Move, height: int): State
    requires m.Toggle? ==> m.row < |s.entries|
  {
    var nelem, numvis := |s.entries|, VisLines(height);
    match m
    case Add(text) => s.(entries := s.entries + [Entry(text, false)])
    case SetCur(idx) =>
      if idx == s.cur || idx >= nelem then s
      else if idx < 0 then s.(cur := -1)
      else
        var offs := if idx < s.viewOffs || idx >= s.viewOffs + numvis then Centred(idx, numvis, nelem) else s.viewOffs;
        s.(cur := idx, viewOffs := offs)
    case Next =>
      if s.cur + 1 >= nelem then s
      else
        var cur := s.cur + 1;
        s.(cur := cur, viewOffs := if cur - s.viewOffs >= numvis then cur - numvis + 1 else s.viewOffs)
    case Prev =>
      if s.cur <= 0 then s
      else
        var cur := s.cur - 1;
        s.(cur := cur, viewOffs := if cur < s.viewOffs then cur else s.viewOffs)
    case Start => s.(cur := 0, viewOffs := 0)
    case End => s.(cur := nelem - 1, viewOffs := if nelem - numvis < 0 then 0 else nelem - numvis)
    case Toggle(row) =>
      var e := s.entries[row];
      s.(entries := s.entries[row := e.(sel := !e.sel)],
         numSel := if !e.sel then s.numSel + 1 else if s.numSel > 0 then s.numSel - 1 else s.numSel)
    case Clear => s.(entries := [])
  }

  const FRESH := State([], -1, 0, 0)

  // ---- the window over whole runs ----

  lemma MoveKeepsWindow(s: State, m: Move, height: int)
    requires height >= 3 && WindowOk(s, height) && Allowed(s, m)
    ensures WindowOk(Moved(s, m, height), height)
  {
    var t := Moved(s, m, height);
    RowsFit(s, height);
    if m.SetCur? && 0 <= m.idx < |s.entries| {
      CentredFits(m.idx, VisLines(height), |s.entries|);
    }
    RowsFit(t, height);
  }

  /** The draw loop is safe exactly when the window does not start past the last full page. */
  lemma RowsFit(s: State, height: int)
    requires height >= 3 && 0 <= s.viewOffs
    ensures DrawSafe(s, height) <==> s.entries == [] || s.viewOffs + DrawnRows(s, height) <= |s.entries|
  {
    var n := DrawnRows(s, height);
    if s.entries != [] && DrawSafe(s, height) {
      assert RowValid(s, n - 1);
    }
  }

  lemma CentredFits(idx: int, numvis: int, nelem: int)
    requires 0 <= idx < nelem && numvis >= 1
    ensures var o := Centred(idx, numvis, nelem);
            0 <= o <= idx < o + numvis && o + (if nelem > numvis then numvis else nelem) <= nelem
  {
  }

  /** Rows that are toggled exist. */
  predicate AllMade(s: State, moves: seq<Move>, height: int)
    decreases moves
  {
    moves == [] ||
    ((moves[0].Toggle? ==> moves[0].row < |s.entries|) && AllMade(Moved(s, moves[0], height), moves[1..], height))
  }

  predicate AllAllowed(s: State, moves: seq<Move>, height: int)
    ensures AllAllowed(s, moves, height) ==> AllMade(s, moves, height)
    decreases moves
  {
    moves == [] || (Allowed(s, moves[0]) && AllAllowed(Moved(s, moves[0], height), moves[1..], height))
  }

  function Run(s: State, moves: seq<Move>, height: int): State
    requires AllMade(s, moves, height)
    decreases moves
  {
    if moves == [] then s else Run(Moved(s, moves[0], height), moves[1..], height)
  }

  /** Window and selection count hold after any run of allowed moves. */
  lemma {:induction false} RunKeeps(s: State, moves: seq<Move>, height: int)
    requires height >= 3 && WindowOk(s, height) && CountOk(s) && AllAllowed(s, moves, height)
    ensures WindowOk(Run(s, moves, height), height) && CountOk(Run(s, moves, height))
    decreases moves
  {
    if moves != [] {
      MoveKeepsWindow(s, moves[0], height);
      MoveKeepsCount(s, moves[0], height);
      RunKeeps(Moved(s, moves[0], height), moves[1..], height);
    }
  }

  lemma FreshIsOk(height: int)
    ensures WindowOk(FRESH, height) && CountOk(FRESH)
  {
  }

  /** Every run of allowed moves on a new list. */
  lemma RunFromFresh(moves: seq<Move>, height: int)
    requires height >= 3 && AllAllowed(FRESH, moves, height)
    ensures WindowOk(Run(FRESH, moves, height), height) && CountOk(Run(FRESH, moves, height))
  {
    FreshIsOk(height);
    RunKeeps(FRESH, moves, height);
  }

  // ---- drawing over all runs ----

  /** Drawing is safe, and stays so when entries are added. */
  predicate Drawable(s: State, height: int) {
    0 <= s.viewOffs && DrawSafe(s, height) && (s.entries == [] ==> s.viewOffs == 0)
  }

  lemma DrawableExact(s: State, height: int)
    requires height >= 3 && 0 <= s.viewOffs
    ensures Drawable(s, height) <==> DrawSafe(s, height) && DrawSafe(Moved(s, Add(""), height), height)
  {
    RowsFit(s, height);
    RowsFit(Moved(s, Add(""), height), height);
  }

  /** Negative targets and `Start` on an empty list included, only a clear can make drawing unsafe. */
  lemma MoveAndDraw(s: State, m: Move, height: int)
    requires height >= 3 && Drawable(s, height) && (m.Toggle? ==> m.row < |s.entries|)
    ensures Drawable(Moved(s, m, height), height) <==> (m.Clear? ==> s.viewOffs == 0)
  {
    var t := Moved(s, m, height);
    RowsFit(s, height);
    if m.SetCur? && 0 <= m.idx < |s.entries| {
      CentredFits(m.idx, VisLines(height), |s.entries|);
    }
    RowsFit(t, height);
  }

  /** Drawable at the start and after every move. */
  predicate DrawableThroughout(s: State, moves: seq<Move>, height: int)
    requires AllMade(s, moves, height)
    decreases moves
  {
    Drawable(s, height) && (moves == [] || DrawableThroughout(Moved(s, moves[0], height), moves[1..], height))
  }

  /** Wherever the list is cleared its window is at the top. */
  predicate ClearsAtTop(s: State, moves: seq<Move>, height: int)
    requires AllMade(s, moves, height)
    decreases moves
  {
    moves == [] ||
    ((moves[0].Clear? ==> s.viewOffs == 0) && ClearsAtTop(Moved(s, moves[0], height), moves[1..], height))
  }

  /** In any run of any moves the list stays drawable if and only if it is cleared with the window at the top only. */
  lemma {:induction false} RunDraws(s: State, moves: seq<Move>, height: int)
    requires height >= 3 && Drawable(s, height) && AllMade(s, moves, height)
    ensures DrawableThroughout(s, moves, height) <==> ClearsAtTop(s, moves, height)
    ensures ClearsAtTop(s, moves, height) ==> Drawable(Run(s, moves, height), height)
    decreases moves
  {
    if moves != [] {
      MoveAndDraw(s, moves[0], height);
      if Drawable(Moved(s, moves[0], height), height) {
        RunDraws(Moved(s, moves[0], height), moves[1..], height);
      } else {
        assert !DrawableThroughout(Moved(s, moves[0], height), moves[1..], height);
      }
    }
  }

  predicate NoClear(moves: seq<Move>) {
    forall i | 0 <= i < |moves| :: !moves[i].Clear?
  }

  lemma {:induction false} NoClearAtTop(s: State, moves: seq<Move>, height: int)
    requires AllMade(s, moves, height) && NoClear(moves)
    ensures ClearsAtTop(s, moves, height)
    decreases moves
  {
    if moves != [] {
      assert !moves[0].Clear?;
      NoClearAtTop(Moved(s, moves[0], height), moves[1..], height);
    }
  }

  /** A new list that is never cleared always draws safely. */
  lemma FreshDraws(moves: seq<Move>, height: int)
    requires height >= 3 && AllMade(FRESH, moves, height) && NoClear(moves)
    ensures DrawableThroughout(FRESH, moves, height)
  {
    NoClearAtTop(FRESH, moves, height);
    RunDraws(FRESH, moves, height);
  }

  predicate AllAdds(moves: seq<Move>) {
    forall i | 0 <= i < |moves| :: moves[i].Add?
  }

  lemma {:induction false} AddsKeepCursor(s: State, adds: seq<Move>, height: int)
    requires AllAdds(adds)
    ensures AllAllowed(s, adds, height)
    ensures var t := Run(s, adds, height);
            t.cur == s.cur && t.viewOffs == s.viewOffs && |t.entries| == |s.entries| + |adds|
    decreases adds
  {
    if adds != [] {
      AddsKeepCursor(Moved(s, adds[0], height), adds[1..], height);
    }
  }

  /** Clearing leaves a stale cursor; at least one entry and a move to row 0 repair the window. */
  lemma RefillRestores(s: State, adds: seq<Move>, height: int)
    requires height >= 3 && WindowOk(s, height) && AllAdds(adds) && adds != []
    ensures AllAllowed(Moved(s, Clear, height), adds, height)
    ensures var t := Moved(Run(Moved(s, Clear, height), adds, height), SetCur(0), height);
            t.cur == 0 && WindowOk(t, height)
  {
    var c := Moved(s, Clear, height);
    AddsKeepCursor(c, adds, height);
    var r := Run(c, adds, height);
    var t := Moved(r, SetCur(0), height);
    CentredFits(0, VisLines(height), |r.entries|);
    RowsFit(t, height);
  }

  // ---- where the cursor goes ----

  /** The row is shown by a window of `numvis` rows that starts at `offs`. */
  predicate Shown(row: int, offs: int, numvis: int) {
    offs <= row < offs + numvis
  }

  /** Of all windows that show the row, this is the one nearest to where the window was. */
  predicate NearestWindow(row: int, before: int, offs: int, numvis: int) {
    && Shown(row, offs, numvis)
    && forall o | row - numvis < o <= row :: Distance(before, offs) <= Distance(before, o)
  }

  function Distance(a: int, b: int): int {
    if a < b then b - a else a - b
  }

  function Min(a: int, b: int): int {
    if a < b then a else b
  }

  function Max(a: int, b: int): int {
    if a < b then b else a
  }

  /** Only cursor and window differ. */
  predicate SameEntries(s: State, t: State) {
    t.entries == s.entries && t.numSel == s.numSel
  }

  /** Down: to the next row, if there is one, with as little scrolling as possible. */
  lemma NextGoesDown(s: State, height: int)
    requires height >= 3 && s.viewOffs <= s.cur + 1
    ensures var t := Moved(s, Next, height);
            && SameEntries(s, t)
            && (if s.cur + 1 < |s.entries|
                then t.cur == s.cur + 1 && NearestWindow(t.cur, s.viewOffs, t.viewOffs, VisLines(height))
                else t == s)
  {
  }

  /** Up: to the row before, if there is one, with as little scrolling as possible. */
  lemma PrevGoesUp(s: State, height: int)
    requires height >= 3 && s.cur - 1 < s.viewOffs + VisLines(height)
    ensures var t := Moved(s, Prev, height);
            && SameEntries(s, t)
            && (if s.cur > 0
                then t.cur == s.cur - 1 && NearestWindow(t.cur, s.viewOffs, t.viewOffs, VisLines(height))
                else t == s)
  {
  }

  /**
   To a given row, if there is one: a window that shows it stays; otherwise half a window
   of rows is put above it, or as many as the ends of the list allow.
   */
  lemma SetCurGoesTo(s: State, idx: int, height: int)
    requires height >= 2 && 0 <= idx < |s.entries| && idx != s.cur
    ensures var t, numvis := Moved(s, SetCur(idx), height), VisLines(height);
            && SameEntries(s, t) && t.cur == idx
            && t.viewOffs == if Shown(idx, s.viewOffs, numvis) then s.viewOffs
                             else Max(0, Min(idx - numvis / 2, |s.entries| - numvis))
  {
  }

  lemma SetCurElsewhere(s: State, idx: int, height: int)
    requires idx < 0 || idx >= |s.entries| || idx == s.cur
    ensures Moved(s, SetCur(idx), height) == if idx < 0 then s.(cur := if idx == s.cur then idx else -1) else s
  {
  }

  /** To the last row, with a window that shows no more than the list and ends with it. */
  lemma EndGoesLast(s: State, height: int)
    requires height >= 3 && s.entries != []
    ensures var t := Moved(s, End, height);
            && SameEntries(s, t) && t.cur == |s.entries| - 1 && Shown(t.cur, t.viewOffs, VisLines(height))
            && 0 <= t.viewOffs && (t.viewOffs > 0 ==> t.viewOffs + VisLines(height) == |s.entries|)
  {
  }

  function Times(m: Move, k: nat): (moves: seq<Move>)
    ensures |moves| == k && forall i | 0 <= i < k :: moves[i] == m
  {
    seq(k, _ => m)
  }

  /** `k` times down ends `k` rows further down or on the last row. */
  lemma {:induction false} DownTimes(s: State, k: nat, height: int)
    requires 0 <= s.cur < |s.entries|
    ensures AllMade(s, Times(Next, k), height)
    ensures var t := Run(s, Times(Next, k), height);
            SameEntries(s, t) && t.cur == Min(s.cur + k, |s.entries| - 1)
    decreases k
  {
    if k > 0 {
      DownTimes(Moved(s, Next, height), k - 1, height);
      assert Times(Next, k)[1..] == Times(Next, k - 1);
    }
  }

  /** `k` times up ends `k` rows further up or on the first row. */
  lemma {:induction false} UpTimes(s: State, k: nat, height: int)
    requires 0 <= s.cur < |s.entries|
    ensures AllMade(s, Times(Prev, k), height)
    ensures var t := Run(s, Times(Prev, k), height);
            SameEntries(s, t) && t.cur == Max(s.cur - k, 0)
    decreases k
  {
    if k > 0 {
      UpTimes(Moved(s, Prev, height), k - 1, height);
      assert Times(Prev, k)[1..] == Times(Prev, k - 1);
    }
  }

  /** Up undoes down for the cursor; the window comes back as well unless it had to scroll and shows several rows. */
  lemma UpAfterDown(s: State, height: int)
    requires height >= 3 && WindowOk(s, height) && 0 <= s.cur < |s.entries| - 1
    ensures var t := Moved(Moved(s, Next, height), Prev, height);
            && SameEntries(s, t) && t.cur == s.cur
            && (t == s <==> Shown(s.cur + 1, s.viewOffs, VisLines(height)) || height == 3)
  {
  }

  lemma DownAfterUp(s: State, height: int)
    requires height >= 3 && WindowOk(s, height) && s.cur > 0
    ensures var t := Moved(Moved(s, Prev, height), Next, height);
            && SameEntries(s, t) && t.cur == s.cur
            && (t == s <==> Shown(s.cur - 1, s.viewOffs, VisLines(height)) || height == 3)
  {
  }

  /** Added texts are the last rows of the list, in order and not selected. */
  lemma {:induction false} AddsAppend(s: State, texts: seq<string>, height: int)
    ensures AllMade(s, Adds(texts), height)
    ensures var t := Run(s, Adds(texts), height);
            && |t.entries| == |s.entries| + |texts| && t.entries[..|s.entries|] == s.entries
            && (forall i | 0 <= i < |texts| :: t.entries[|s.entries| + i] == Entry(texts[i], false))
            && t.cur == s.cur && t.viewOffs == s.viewOffs && t.numSel == s.numSel
    decreases |texts|
  {
    if texts != [] {
      var u := Moved(s, Add(texts[0]), height);
      AddsAppend(u, texts[1..], height);
      assert Adds(texts)[1..] == Adds(texts[1..]) && Adds(texts)[0] == Add(texts[0]);
      var t := Run(u, Adds(texts[1..]), height);
      assert u.entries[..|s.entries|] == s.entries;
      assert t.entries[..|s.entries|] == t.entries[..|u.entries|][..|s.entries|];
      forall i | 0 <= i < |texts| ensures t.entries[|s.entries| + i] == Entry(texts[i], false) {
        if i == 0 {
          assert t.entries[..|u.entries|][|s.entries|] == u.entries[|s.entries|];
        } else {
          assert t.entries[|u.entries| + (i - 1)] == Entry(texts[1..][i - 1], false);
        }
      }
    }
  }

  function Adds(texts: seq<string>): (moves: seq<Move>)
    ensures |moves| == |texts| && AllAdds(moves)
  {
    seq(|texts|, i requires 0 <= i < |texts| => Add(texts[i]))
  }

  // ---- selection ----

  lemma {:induction false} ToggleCounts(entries: seq<Entry>, row: nat)
    requires row < |entries|
    ensures var e := entries[row];
            |Selected(entries[row := e.(sel := !e.sel)])| == |Selected(entries)| + (if e.sel then -1 else 1)
    decreases |entries|
  {
    var e := entries[row];
    var toggled := entries[row := e.(sel := !e.sel)];
    var n := |entries| - 1;
    if row == n {
      assert toggled[..n] == entries[..n];
    } else {
      ToggleCounts(entries[..n], row);
      assert toggled[..n] == entries[..n][row := e.(sel := !e.sel)];
    }
  }

  lemma MoveKeepsCount(s: State, m: Move, height: int)
    requires CountOk(s) && Allowed(s, m)
    ensures CountOk(Moved(s, m, height))
  {
    match m
    case Toggle(row) =>
      ToggleCounts(s.entries, row);
    case Add(text) =>
      var more := s.entries + [Entry(text, false)];
      assert more[..|more| - 1] == s.entries;
    case _ =>
  }

  /** The count is never below the number of selected rows, whatever moves are made. */
  predicate CountCovers(s: State) {
    s.numSel >= |Selected(s.entries)|
  }

  lemma {:induction false} RunCovers(s: State, moves: seq<Move>, height: int)
    requires CountCovers(s) && AllMade(s, moves, height)
    ensures CountCovers(Run(s, moves, height))
    decreases moves
  {
    if moves != [] {
      match moves[0] {
        case Toggle(row) =>
          ToggleCounts(s.entries, row);
        case Add(text) =>
          var more := s.entries + [Entry(text, false)];
          assert more[..|more| - 1] == s.entries;
        case _ =>
      }
      RunCovers(Moved(s, moves[0], height), moves[1..], height);
    }
  }

  /** Nor is it ever taken below zero, whatever it was. */
  lemma CountNotNegative(s: State, m: Move, height: int)
    requires s.numSel >= 0 && (m.Toggle? ==> m.row < |s.entries|)
    ensures Moved(s, m, height).numSel >= 0
    ensures m.Toggle? && s.entries[m.row].sel && s.numSel == 0 ==> Moved(s, m, height).numSel == 0
  {
  }

  // ---- exact conditions where a move breaks the window ----

  /** Clearing keeps the window if and only if there was no cursor. */
  lemma ClearAndWindow(s: State, height: int)
    requires height >= 3 && WindowOk(s, height)
    ensures WindowOk(Moved(s, Clear, height), height) <==> s.cur == -1
  {
    RowsFit(Moved(s, Clear, height), height);
  }

  /**
   After clearing and adding, the draw loop reads valid rows if and only if the stale window
   still fits, and the whole window is right if and only if the stale cursor fits as well.
   */
  lemma ClearThenAdds(s: State, adds: seq<Move>, height: int)
    requires height >= 3 && WindowOk(s, height) && AllAdds(adds)
    ensures AllAllowed(Moved(s, Clear, height), adds, height)
    ensures var t := Run(Moved(s, Clear, height), adds, height);
            && (DrawSafe(t, height) <==> adds == [] || s.viewOffs + DrawnRows(t, height) <= |adds|)
            && (WindowOk(t, height) <==> s.cur < |adds| && DrawSafe(t, height))
  {
    AddsKeepCursor(Moved(s, Clear, height), adds, height);
    RowsFit(Run(Moved(s, Clear, height), adds, height), height);
  }

  /** Five entries with the cursor on the last one, in a list that shows two. */
  const LAST_OF_FIVE := State(seq(5, _ => Entry("", false)), 4, 3, 0)

  /** Cleared and given one entry, the list draws its fourth. */
  lemma DrawsPastEnd()
    ensures WindowOk(LAST_OF_FIVE, 4)
    ensures var t := Moved(Moved(LAST_OF_FIVE, Clear, 4), Add(""), 4);
            DrawnRows(t, 4) == 1 && |t.entries| == 1 && !RowValid(t, 0)
  {
    RowsFit(LAST_OF_FIVE, 4);
  }

  /** Dropping the cursor and moving down keeps the window if and only if it was at the top. */
  lemma NegativeTargetThenNext(s: State, height: int)
    requires height >= 3 && WindowOk(s, height)
    ensures var t := Moved(Moved(s, SetCur(-1), height), Next, height);
            WindowOk(t, height) <==> s.viewOffs == 0
  {
    var t := Moved(Moved(s, SetCur(-1), height), Next, height);
    RowsFit(s, height);
    RowsFit(t, height);
  }

  /** `Start` keeps the window if and only if there is an entry to stand on. */
  lemma StartNeedsEntry(s: State, height: int)
    requires height >= 3 && WindowOk(s, height)
    ensures WindowOk(Moved(s, Start, height), height) <==> s.entries != []
  {
    RowsFit(Moved(s, Start, height), height);
  }

  /** The selection count survives a clear if and only if nothing was selected. */
  lemma ClearAndCount(s: State, height: int)
    requires CountOk(s)
    ensures CountOk(Moved(s, Clear, height)) <==> Selected(s.entries) == []
  {
  }

  // ---- the widget ----

  class ListWidget {
    const height: int
    var entries: seq<Entry>
    var cur: int
    var viewOffs: int
    var numSel: int
    var dirty: bool

    ghost function Now(): State
      reads this
    {
      State(entries, cur, viewOffs, numSel)
    }

    /** `tui_list` */
    constructor (height: int)
      ensures this.height == height && Now() == FRESH && dirty
    {
      this.height := height;
      entries := [];
      cur := -1;
      viewOffs := 0;
      numSel := 0;
      dirty := true;
    }

    /** `tui_clear_list` */
    method ClearList()
      modifies this
      ensures Now() == Moved(old(Now()), Clear, height) && dirty
      ensures entries == [] && cur == old(cur) && viewOffs == old(viewOffs) && numSel == old(numSel)
    {
      entries := [];
      dirty := true;
    }

    /** `tui_add_list_item` */
    method AddItem(text: string)
      modifies this
      ensures Now() == Moved(old(Now()), Add(text), height) && dirty
      ensures entries == old(entries) + [Entry(text, false)]
      ensures cur == old(cur) && viewOffs == old(viewOffs) && numSel == old(numSel)
    {
      entries := entries + [Entry(text, false)];
      dirty := true;
    }

    /** `tui_list_setcur` */
    method SetCurrent(idx: int) returns (res: int)
      modifies this
      ensures Now() == Moved(old(Now()), SetCur(idx), height)
      ensures res == if idx != old(cur) && idx >= |old(entries)| then -1 else 0
      ensures entries == old(entries) && numSel == old(numSel)
      ensures res == 0 && idx >= 0 ==> cur == idx
      ensures 0 <= idx < |entries| && idx != old(cur) && height >= 2 ==>
                viewOffs == if Shown(idx, old(viewOffs), VisLines(height)) then old(viewOffs)
                            else Max(0, Min(idx - VisLines(height) / 2, |entries| - VisLines(height)))
      ensures res == -1 ==> Now() == old(Now())
      ensures idx < 0 && idx != old(cur) ==> cur == -1 && viewOffs == old(viewOffs)
    {
      if idx == cur {
        return 0;
      }
      var numvis := height - 2;
      if idx < 0 {
        cur := -1;
        return 0;
      }
      var nelem := |entries|;
      if idx >= nelem {
        return -1;
      }
      cur := idx;
      if idx < viewOffs || idx >= viewOffs + numvis {
        var offs := idx - Half(numvis);
        if offs + numvis >= nelem {
          offs := nelem - numvis;
        }
        if offs < 0 {
          offs := 0;
        }
        viewOffs := offs;
      }
      dirty := true;
      return 0;
    }

    /** `tui_list_cur_next` */
    method CursorNext() returns (res: int)
      modifies this
      ensures Now() == Moved(old(Now()), Next, height)
      ensures res == if old(cur) + 1 >= |old(entries)| then -1 else 0
      ensures entries == old(entries) && numSel == old(numSel)
      ensures if res == 0 then cur == old(cur) + 1 else Now() == old(Now())
      ensures res == 0 && height >= 3 && old(viewOffs) <= cur ==>
                NearestWindow(cur, old(viewOffs), viewOffs, VisLines(height))
    {
      var nelem, numvis := |entries|, height - 2;
      if cur + 1 >= nelem {
        return -1;
      }
      cur := cur + 1;
      if cur - viewOffs >= numvis {
        viewOffs := cur - numvis + 1;
      }
      dirty := true;
      return 0;
    }

    /** `tui_list_cur_prev` */
    method CursorPrev() returns (res: int)
      modifies this
      ensures Now() == Moved(old(Now()), Prev, height)
      ensures res == if old(cur) <= 0 then -1 else 0
      ensures entries == old(entries) && numSel == old(numSel)
      ensures if res == 0 then cur == old(cur) - 1 else Now() == old(Now())
      ensures res == 0 && height >= 3 && cur < old(viewOffs) + VisLines(height) ==>
                NearestWindow(cur, old(viewOffs), viewOffs, VisLines(height))
    {
      if cur <= 0 {
        return -1;
      }
      cur := cur - 1;
      if cur < viewOffs {
        viewOffs := cur;
      }
      dirty := true;
      return 0;
    }

    /** `tui_list_cur_start` */
    method CursorStart()
      modifies this
      ensures Now() == Moved(old(Now()), Start, height) && dirty
      ensures entries == old(entries) && numSel == old(numSel) && cur == 0 && viewOffs == 0
    {
      cur := 0;
      viewOffs := 0;
      dirty := true;
    }

    /** `tui_list_cur_end` */
    method CursorEnd()
      modifies this
      ensures Now() == Moved(old(Now()), End, height) && dirty
      ensures entries == old(entries) && numSel == old(numSel) && cur == |entries| - 1
      ensures 0 <= viewOffs && |entries| <= viewOffs + VisLines(height)
    {
      var nelem, numvis := |entries|, height - 2;
      cur := nelem - 1;
      viewOffs := nelem - numvis;
      if viewOffs < 0 {
        viewOffs := 0;
      }
      dirty := true;
    }

    /** `tui_list_toggle_sel` */
    method ToggleSel(idx: nat) returns (sel: bool)
      requires idx < |entries|
      modifies this
      ensures Now() == Moved(old(Now()), Toggle(idx), height) && dirty
      ensures sel == entries[idx].sel == !old(entries[idx].sel)
      ensures |entries| == |old(entries)| && entries[idx].text == old(entries[idx]).text
      ensures forall i | 0 <= i < |entries| && i != idx :: entries[i] == old(entries[i])
      ensures cur == old(cur) && viewOffs == old(viewOffs)
    {
      var e := entries[idx];
      entries := entries[idx := e.(sel := !e.sel)];
      if !e.sel {
        numSel := numSel + 1;
      } else if numSel > 0 {
        numSel := numSel - 1;
      }
      dirty := true;
      sel := entries[idx].sel;
    }

    /** `tui_list_get_sel`: the first selected rows, as many as there is room for */
    method GetSel(selv: array<int>, maxsel: int) returns (count: int)
      requires maxsel <= selv.Length
      modifies selv
      ensures var n := Written(entries, maxsel);
              && selv[..n] == Selected(entries)[..n]
              && forall k | n <= k < selv.Length :: selv[k] == old(selv[k])
      ensures CountOk(Now()) ==> count == |Selected(entries)|
    {
      var nitems := |entries|;
      var room := maxsel;
      var n := 0;
      var i := 0;
      while i < nitems
        invariant 0 <= i <= nitems && 0 <= n <= selv.Length
        invariant room == maxsel - n && (n == 0 || 0 <= room)
        invariant n == |Selected(entries[..i])| && selv[..n] == Selected(entries[..i])
        invariant forall k | n <= k < selv.Length :: selv[k] == old(selv[k])
        decreases nitems - i
      {
        if room <= 0 {
          break;
        }
        assert entries[..i + 1][..i] == entries[..i];
        if entries[i].sel {
          selv[n] := i;
          n := n + 1;
          room := room - 1;
        }
        i := i + 1;
      }
      SelectedPrefix(entries, i);
      WrittenCount(entries, i, maxsel);
      count := numSel;
    }

    /** The rows the draw loop of the widget reads, in order. */
    method DrawnIndices() returns (rows: seq<int>)
      ensures |rows| == if DrawnRows(Now(), height) < 0 then 0 else DrawnRows(Now(), height)
      ensures forall i | 0 <= i < |rows| :: rows[i] == viewOffs + i
      ensures DrawSafe(Now(), height) <==> forall i | 0 <= i < |rows| :: 0 <= rows[i] < |entries|
      ensures height >= 3 && WindowOk(Now(), height) && cur != -1 ==> cur in rows
    {
      rows := [];
      var num := |entries|;
      if num > height - 2 {
        num := height - 2;
      }
      var i := 0;
      while i < num
        invariant 0 <= i && (i <= num || i == 0) && |rows| == i
        invariant forall j | 0 <= j < i :: rows[j] == viewOffs + j
      {
        var idx := i + viewOffs;
        rows := rows + [idx];
        i := i + 1;
      }
      DrawnAre(Now(), height, rows);
    }

    /** One move, by the procedure that makes it. */
    method Move(m: Move)
      requires m.Toggle? ==> m.row < |entries|
      modifies this
      ensures Now() == Moved(old(Now()), m, height)
    {
      match m {
        case Add(text) =>
          AddItem(text);
        case SetCur(idx) =>
          var res := SetCurrent(idx);
        case Next =>
          var res := CursorNext();
        case Prev =>
          var res := CursorPrev();
        case Start =>
          CursorStart();
        case End =>
          CursorEnd();
        case Toggle(row) =>
          var sel := ToggleSel(row);
        case Clear =>
          ClearList();
      }
    }

    /**
     Any run of moves: it stays drawable if cleared with the window at the top only, and allowed
     moves keep the window and the count as well.
     */
    method Perform(moves: seq<Move>)
      requires AllMade(Now(), moves, height)
      modifies this
      ensures Now() == Run(old(Now()), moves, height)
      ensures height >= 3 && old(Drawable(Now(), height) && ClearsAtTop(Now(), moves, height)) ==>
                Drawable(Now(), height)
      ensures height >= 3 && old(WindowOk(Now(), height) && CountOk(Now()) && AllAllowed(Now(), moves, height)) ==>
                WindowOk(Now(), height) && CountOk(Now())
    {
      ghost var start := Now();
      for i := 0 to |moves|
        invariant AllMade(Now(), moves[i..], height)
        invariant Run(start, moves, height) == Run(Now(), moves[i..], height)
      {
        assert moves[i..][1..] == moves[i + 1..];
        Move(moves[i]);
      }
      if height >= 3 && Drawable(start, height) {
        RunDraws(start, moves, height);
      }
      if height >= 3 && WindowOk(start, height) && CountOk(start) && AllAllowed(start, moves, height) {
        RunKeeps(start, moves, height);
      }
    }
  }

  lemma DrawnAre(s: State, height: int, rows: seq<int>)
    requires |rows| == if DrawnRows(s, height) < 0 then 0 else DrawnRows(s, height)
    requires forall i | 0 <= i < |rows| :: rows[i] == s.viewOffs + i
    ensures DrawSafe(s, height) <==> forall i | 0 <= i < |rows| :: 0 <= rows[i] < |s.entries|
    ensures height >= 3 && WindowOk(s, height) && s.cur != -1 ==> s.cur in rows
  {
    if DrawSafe(s, height) {
      assert forall i | 0 <= i < |rows| :: RowValid(s, i) && rows[i] == s.viewOffs + i;
    }
    if forall i | 0 <= i < |rows| :: 0 <= rows[i] < |s.entries| {
      forall i | 0 <= i < DrawnRows(s, height) ensures RowValid(s, i) {
        assert 0 <= rows[i] < |s.entries|;
      }
    }
    if height >= 3 && WindowOk(s, height) && s.cur != -1 {
      RowsFit(s, height);
      assert rows[s.cur - s.viewOffs] == s.cur;
    }
  }

  /** How many rows `tui_list_get_sel` stores in a buffer of the given size. */
  function Written(entries: seq<Entry>, maxsel: int): (n: nat)
    ensures n <= |Selected(entries)|
  {
    var all := |Selected(entries)|;
    if maxsel < 0 then 0 else if maxsel < all then maxsel else all
  }

  lemma WrittenCount(entries: seq<Entry>, i: nat, maxsel: int)
    requires i <= |entries|
    requires var n := |Selected(entries[..i])|;
             (n == 0 || n <= maxsel) && (i == |entries| || maxsel <= n)
    ensures Written(entries, maxsel) == |Selected(entries[..i])|
  {
    SelectedPrefix(entries, i);
    assert entries[..|entries|] == entries;
  }

  lemma {:induction false} SelectedPrefix(entries: seq<Entry>, i: nat)
    requires i <= |entries|
    ensures Selected(entries[..i]) <= Selected(entries)
    decreases |entries| - i
  {
    if i == |entries| {
      assert entries[..i] == entries;
    } else {
      assert entries[..i + 1][..i] == entries[..i];
      SelectedPrefix(entries, i + 1);
    }
  }
}
