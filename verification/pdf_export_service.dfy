/**
 * The "last 7 days" PDF report: the reading window anchored at the newest
 * reading, its summary statistics, the row layout with its running
 * y-cursor and page breaks, the "Page i of N" footers and the file name.
 * The PDF document itself is modelled as a log of what is placed where.
 */
module PdfExportService {
  import opened BPTypes
  import opened Constants
  import opened LogOrder

  /** Seven days in milliseconds (the report steps the calendar back 7 days). */
  const SevenDaysMs: int := 7 * 24 * 60 * 60 * 1000

  // ---------------------------------------------------------------------
  // The window
  // ---------------------------------------------------------------------

  /** The readings whose timestamps lie in [lo, hi], in their input order. */
  function InRange(s: seq<Reading>, lo: int, hi: int): seq<Reading>
  {
    if s == [] then []
    else if lo <= s[0].timestamp <= hi then [s[0]] + InRange(s[1..], lo, hi)
    else InRange(s[1..], lo, hi)
  }

  /** The filter keeps every in-range reading as often as it occurs, and nothing else. */
  lemma {:induction false} InRangeCounts(s: seq<Reading>, lo: int, hi: int)
    ensures forall r ::
      multiset(InRange(s, lo, hi))[r] == (if lo <= r.timestamp <= hi then multiset(s)[r] else 0)
  {
    if s != [] {
      InRangeCounts(s[1..], lo, hi);
      assert s == [s[0]] + s[1..];
    }
  }

  lemma InRangeMembers(s: seq<Reading>, lo: int, hi: int)
    ensures forall r :: r in InRange(s, lo, hi) <==> r in s && lo <= r.timestamp <= hi
  {
    InRangeCounts(s, lo, hi);
    forall r
      ensures r in InRange(s, lo, hi) <==> r in s && lo <= r.timestamp <= hi
    {
      assert r in InRange(s, lo, hi) <==> r in multiset(InRange(s, lo, hi));
      assert r in s <==> r in multiset(s);
    }
  }

  lemma {:induction false} InRangeSorted(s: seq<Reading>, lo: int, hi: int)
    requires SortedNewestFirst(s)
    ensures SortedNewestFirst(InRange(s, lo, hi))
  {
    if s != [] {
      InRangeSorted(s[1..], lo, hi);
      var rest := InRange(s[1..], lo, hi);
      InRangeMembers(s[1..], lo, hi);
      forall j | 0 <= j < |rest|
        ensures rest[j].timestamp <= s[0].timestamp
      {
        assert rest[j] in rest;
        var k :| 0 <= k < |s[1..]| && s[1..][k] == rest[j];
      }
    }
  }

  lemma InRangeCons(x: Reading, t: seq<Reading>, lo: int, hi: int)
    ensures InRange([x] + t, lo, hi) ==
      if lo <= x.timestamp <= hi then [x] + InRange(t, lo, hi) else InRange(t, lo, hi)
  {
    assert ([x] + t)[0] == x;
    assert ([x] + t)[1..] == t;
  }

  lemma {:induction false} InRangeAppend(a: seq<Reading>, b: seq<Reading>, lo: int, hi: int)
    ensures InRange(a + b, lo, hi) == InRange(a, lo, hi) + InRange(b, lo, hi)
  {
    if a == [] {
      assert a + b == b;
    } else {
      var x, a' := a[0], a[1..];
      assert a == [x] + a';
      assert a + b == [x] + (a' + b);
      InRangeAppend(a', b, lo, hi);
      InRangeCons(x, a' + b, lo, hi);
      InRangeCons(x, a', lo, hi);
    }
  }

  /** Filtering an insertion is inserting into the filtered list. */
  lemma {:induction false} InRangeInsert(x: Reading, t: seq<Reading>, lo: int, hi: int)
    requires SortedNewestFirst(t)
    ensures InRange(Insert(x, t), lo, hi) ==
      if lo <= x.timestamp <= hi then Insert(x, InRange(t, lo, hi)) else InRange(t, lo, hi)
  {
    var ft := InRange(t, lo, hi);
    if t == [] {
      assert Insert(x, t) == [x] + [];
      InRangeCons(x, [], lo, hi);
    } else if x.timestamp >= t[0].timestamp {
      assert Insert(x, t) == [x] + t;
      InRangeCons(x, t, lo, hi);
      if ft != [] {
        InRangeMembers(t, lo, hi);
        assert ft[0] in ft;
        var k :| 0 <= k < |t| && t[k] == ft[0];
        assert Insert(x, ft) == [x] + ft;
      }
    } else {
      var t' := t[1..];
      var ft' := InRange(t', lo, hi);
      InRangeInsert(x, t', lo, hi);
      assert Insert(x, t) == [t[0]] + Insert(x, t');
      InRangeCons(t[0], Insert(x, t'), lo, hi);
      assert t == [t[0]] + t';
      InRangeCons(t[0], t', lo, hi);
      if lo <= t[0].timestamp <= hi {
        assert ft == [t[0]] + ft';
        if lo <= x.timestamp <= hi {
          assert Insert(x, ft) == [t[0]] + Insert(x, ft');
        }
      } else {
        assert ft == ft';
      }
    }
  }

  /** Filtering and the stable newest-first sort commute. */
  lemma {:induction false} InRangeOfSort(s: seq<Reading>, lo: int, hi: int)
    ensures InRange(SortNewestFirst(s), lo, hi) == SortNewestFirst(InRange(s, lo, hi))
  {
    if s != [] {
      var x, s' := s[0], s[1..];
      var f' := InRange(s', lo, hi);
      var st := SortNewestFirst(s');
      InRangeOfSort(s', lo, hi);
      assert s == [x] + s';
      SortCons(x, s');
      assert SortNewestFirst(s) == Insert(x, st);
      InRangeInsert(x, st, lo, hi);
      InRangeCons(x, s', lo, hi);
      if lo <= x.timestamp <= hi {
        assert InRange(s, lo, hi) == [x] + f';
        SortCons(x, f');
        assert SortNewestFirst([x] + f') == Insert(x, SortNewestFirst(f'));
        assert InRange(Insert(x, st), lo, hi) == Insert(x, InRange(st, lo, hi));
      } else {
        assert InRange(s, lo, hi) == f';
      }
    }
  }

  /** The timestamp of the newest reading: the anchor of the window. */
  function Latest(logs: seq<Reading>): (m: int)
    requires logs != []
    ensures exists r :: r in logs && r.timestamp == m
    ensures forall r :: r in logs ==> r.timestamp <= m
  {
    NewestFirstIsMax(logs);
    SortNewestFirst(logs)[0].timestamp
  }

  function WindowStart(logs: seq<Reading>): int
    requires logs != []
  {
    Latest(logs) - SevenDaysMs
  }

  /** The report's window: the sorted readings from 7 days before the newest one to it. */
  function Window(logs: seq<Reading>): seq<Reading>
    requires logs != []
  {
    InRange(SortNewestFirst(logs), WindowStart(logs), Latest(logs))
  }

  /**
   * The window holds exactly the readings (with their multiplicities) from
   * 7 days before the newest one up to the newest one, both ends included,
   * newest first.
   */
  lemma WindowContents(logs: seq<Reading>)
    requires logs != []
    ensures SortedNewestFirst(Window(logs))
    ensures forall r ::
      multiset(Window(logs))[r] == (if WindowStart(logs) <= r.timestamp <= Latest(logs) then multiset(logs)[r] else 0)
    ensures forall r :: r in Window(logs) <==>
      r in logs && WindowStart(logs) <= r.timestamp <= Latest(logs)
  {
    var sorted := SortNewestFirst(logs);
    var lo, hi := WindowStart(logs), Latest(logs);
    InRangeSorted(sorted, lo, hi);
    InRangeCounts(sorted, lo, hi);
    InRangeMembers(sorted, lo, hi);
    SortKeepsAllMembers(logs);
  }

  /**
   * The window starts with the newest reading, so it is never empty and
   * the report's "no readings in the last 7 days" branch cannot be taken.
   */
  lemma WindowStartsWithNewest(logs: seq<Reading>)
    requires logs != []
    ensures Window(logs) != [] && Window(logs)[0] == SortNewestFirst(logs)[0]
    ensures Window(logs)[0].timestamp == Latest(logs)
  {
    var sorted := SortNewestFirst(logs);
    assert sorted == [sorted[0]] + sorted[1..];
    InRangeCons(sorted[0], sorted[1..], WindowStart(logs), Latest(logs));
  }

  /** Readings older than the window's start do not change the window. */
  lemma WindowIgnoresOlder(logs: seq<Reading>, older: seq<Reading>)
    requires logs != []
    requires forall r :: r in older ==> r.timestamp < WindowStart(logs)
    ensures Latest(logs + older) == Latest(logs)
    ensures Window(logs + older) == Window(logs)
  {
    var lo, hi := WindowStart(logs), Latest(logs);
    LatestIgnoresOlder(logs, older);
    assert WindowStart(logs + older) == lo;
    InRangeIgnoresOlder(logs, older, lo, hi);
  }

  lemma InRangeIgnoresOlder(logs: seq<Reading>, older: seq<Reading>, lo: int, hi: int)
    requires forall r :: r in older ==> r.timestamp < lo
    ensures InRange(SortNewestFirst(logs + older), lo, hi) == InRange(SortNewestFirst(logs), lo, hi)
  {
    InRangeOfSort(logs + older, lo, hi);
    InRangeOfSort(logs, lo, hi);
    InRangeAppend(logs, older, lo, hi);
    InRangeEmpty(older, lo, hi);
    assert InRange(logs, lo, hi) + [] == InRange(logs, lo, hi);
  }

  lemma LatestIgnoresOlder(logs: seq<Reading>, older: seq<Reading>)
    requires logs != []
    requires forall r :: r in older ==> r.timestamp < Latest(logs)
    ensures Latest(logs + older) == Latest(logs)
  {
    var all := logs + older;
    var m := Latest(all);
    var r :| r in all && r.timestamp == m;
    var top :| top in logs && top.timestamp == Latest(logs);
    assert top in all;
    if r in older {
      assert false;
    }
  }

  lemma {:induction false} InRangeEmpty(s: seq<Reading>, lo: int, hi: int)
    requires forall r :: r in s ==> r.timestamp < lo
    ensures InRange(s, lo, hi) == []
  {
    if s != [] {
      assert s[0] in s;
      InRangeEmpty(s[1..], lo, hi);
    }
  }

  // ---------------------------------------------------------------------
  // Summary statistics
  // ---------------------------------------------------------------------

  function Sum(xs: seq<int>): int
  {
    if xs == [] then 0 else xs[0] + Sum(xs[1..])
  }

  /**
   * `Math.round(num / den)`: the integer nearest to num/den, halves
   * rounded up, i.e. q - 1/2 <= num/den < q + 1/2.
   */
  function RoundHalfUp(num: int, den: int): (q: int)
    requires den > 0
    ensures 2 * den * q - den <= 2 * num < 2 * den * q + den
  {
    (2 * num + den) / (2 * den)
  }

  /** `Math.max(...xs)` */
  function MaxOf(xs: seq<int>): (m: int)
    requires xs != []
    ensures m in xs
    ensures forall x :: x in xs ==> x <= m
  {
    if |xs| == 1 then xs[0]
    else
      var rest := MaxOf(xs[1..]);
      assert xs == [xs[0]] + xs[1..];
      if xs[0] >= rest then xs[0] else rest
  }

  /** `Math.min(...xs)` */
  function MinOf(xs: seq<int>): (m: int)
    requires xs != []
    ensures m in xs
    ensures forall x :: x in xs ==> m <= x
  {
    if |xs| == 1 then xs[0]
    else
      var rest := MinOf(xs[1..]);
      assert xs == [xs[0]] + xs[1..];
      if xs[0] <= rest then xs[0] else rest
  }

  lemma {:induction false} SumBounds(xs: seq<int>, lo: int, hi: int)
    requires forall x :: x in xs ==> lo <= x <= hi
    ensures lo * |xs| <= Sum(xs) <= hi * |xs|
  {
    if xs != [] {
      var n' := |xs| - 1;
      assert xs[0] in xs;
      assert forall x :: x in xs[1..] ==> x in xs;
      SumBounds(xs[1..], lo, hi);
      MulSucc(lo, n');
      MulSucc(hi, n');
    }
  }

  lemma MulSucc(a: int, n: nat)
    ensures a * (n + 1) == a + a * n
  {
  }

  /** The rounded mean lies between the minimum and the maximum. */
  lemma MeanWithinRange(xs: seq<int>)
    requires xs != []
    ensures MinOf(xs) <= RoundHalfUp(Sum(xs), |xs|) <= MaxOf(xs)
  {
    SumBounds(xs, MinOf(xs), MaxOf(xs));
    RoundedBetween(Sum(xs), |xs|, RoundHalfUp(Sum(xs), |xs|), MinOf(xs), MaxOf(xs));
  }

  /** A value within half a unit of num/den lies between lo and hi when num/den does. */
  lemma RoundedBetween(num: int, den: int, q: int, lo: int, hi: int)
    requires den > 0
    requires 2 * den * q - den <= 2 * num < 2 * den * q + den
    requires lo * den <= num <= hi * den
    ensures lo <= q <= hi
  {
    if q < lo {
      MulMono(2 * den, q + 1, lo);
    }
    if q > hi {
      MulMono(2 * den, hi + 1, q);
    }
  }

  lemma MulMono(k: nat, a: int, b: int)
    requires a <= b
    ensures k * a <= k * b
  {
    assert k * b - k * a == k * (b - a);
  }

  /** The systolic column of the window. */
  function Systolics(w: seq<Reading>): seq<int>
  {
    seq(|w|, i requires 0 <= i < |w| => w[i].systolic)
  }

  /** The diastolic column of the window. */
  function Diastolics(w: seq<Reading>): seq<int>
  {
    seq(|w|, i requires 0 <= i < |w| => w[i].diastolic)
  }

  /** The pulse column of the window. */
  function Pulses(w: seq<Reading>): seq<int>
  {
    seq(|w|, i requires 0 <= i < |w| => w[i].pulse)
  }

  datatype Summary = Summary(
    count: nat,
    avgSystolic: int,
    avgDiastolic: int,
    avgPulse: int,
    maxSystolic: int,
    minSystolic: int,
    maxDiastolic: int,
    minDiastolic: int)

  /**
   * The summary block: count, rounded means, and the systolic and
   * diastolic ranges, each attained by a reading of the window.
   */
  function Summarize(w: seq<Reading>): (s: Summary)
    requires w != []
    ensures s.count == |w|
    ensures 2 * |w| * s.avgSystolic - |w| <= 2 * Sum(Systolics(w)) < 2 * |w| * s.avgSystolic + |w|
    ensures 2 * |w| * s.avgDiastolic - |w| <= 2 * Sum(Diastolics(w)) < 2 * |w| * s.avgDiastolic + |w|
    ensures 2 * |w| * s.avgPulse - |w| <= 2 * Sum(Pulses(w)) < 2 * |w| * s.avgPulse + |w|
    ensures s.minSystolic <= s.avgSystolic <= s.maxSystolic
    ensures s.minDiastolic <= s.avgDiastolic <= s.maxDiastolic
    ensures exists i :: 0 <= i < |w| && w[i].systolic == s.maxSystolic
    ensures exists i :: 0 <= i < |w| && w[i].systolic == s.minSystolic
    ensures exists i :: 0 <= i < |w| && w[i].diastolic == s.maxDiastolic
    ensures exists i :: 0 <= i < |w| && w[i].diastolic == s.minDiastolic
    ensures forall i :: 0 <= i < |w| ==>
      s.minSystolic <= w[i].systolic <= s.maxSystolic &&
      s.minDiastolic <= w[i].diastolic <= s.maxDiastolic
  {
    var sys, dia := Systolics(w), Diastolics(w);
    assert |sys| == |dia| == |w|;
    assert forall i :: 0 <= i < |w| ==> sys[i] == w[i].systolic && dia[i] == w[i].diastolic;
    MeanWithinRange(sys);
    MeanWithinRange(dia);
    assert forall i :: 0 <= i < |w| ==> sys[i] in sys && dia[i] in dia;
    Summary(
      |w|,
      RoundHalfUp(Sum(sys), |w|),
      RoundHalfUp(Sum(dia), |w|),
      RoundHalfUp(Sum(Pulses(w)), |w|),
      MaxOf(sys), MinOf(sys), MaxOf(dia), MinOf(dia))
  }

  // ---------------------------------------------------------------------
  // Row layout
  // ---------------------------------------------------------------------

  /** Title at y 100, column headers at 110, first row at 118. */
  const FirstHeaderY: int := 110
  const FirstRowY: int := 118
  /** A row whose cursor has passed this line goes on a new page. */
  const PageBreakY: int := 270
  /** On a new page the headers are redrawn at 20 and rows resume at 28. */
  const ContinuedHeaderY: int := 20
  const ContinuedRowY: int := 28
  const RowStep: int := 7
  /** The note line sits 5 below its row and pushes the cursor down 8 in all. */
  const NoteOffset: int := 5
  const NoteStep: int := 8
  const FooterY: int := 285
  const Disclaimer: string :=
    "This report is for informational purposes only. Consult your healthcare provider for medical advice."

  /** `if (log.note)`: a note that is present and not the empty string. */
  predicate HasNote(r: Reading)
  {
    r.note.Some? && r.note.value != ""
  }

  /** How far the cursor moves for one row. */
  function Advance(r: Reading): int
  {
    if HasNote(r) then RowStep + NoteStep else RowStep
  }

  datatype Cursor = Cursor(page: nat, y: int)

  /** One drawn table row: where it is, what it shows and where its note goes. */
  datatype RowMark = RowMark(
    page: nat,
    y: int,
    reading: Reading,
    category: Category,
    noteY: Option<int>)

  /** A drawing of the column headers. */
  datatype HeaderMark = HeaderMark(page: nat, y: int)

  /** The footer stamped on one page. */
  datatype FooterMark = FooterMark(page: nat, total: nat, disclaimer: string)

  datatype Layout = Layout(rows: seq<RowMark>, cursor: Cursor)

  /** Where the next row goes: the same place, or the top of a new page. */
  function BreakIfFull(c: Cursor): Cursor
  {
    if c.y > PageBreakY then Cursor(c.page + 1, ContinuedRowY) else c
  }

  function PlaceRow(c: Cursor, r: Reading): RowMark
  {
    var at := BreakIfFull(c);
    RowMark(at.page, at.y, r, GetBPCategory(r.systolic, r.diastolic),
            if HasNote(r) then Some(at.y + NoteOffset) else None)
  }

  function CursorAfter(c: Cursor, r: Reading): Cursor
  {
    var at := BreakIfFull(c);
    Cursor(at.page, at.y + Advance(r))
  }

  /** The layout of the rows of `s`, one after another from the first row position. */
  function LayOut(s: seq<Reading>): Layout
    decreases |s|
  {
    if s == [] then Layout([], Cursor(1, FirstRowY))
    else
      var prev := LayOut(s[..|s| - 1]);
      var r := s[|s| - 1];
      Layout(prev.rows + [PlaceRow(prev.cursor, r)], CursorAfter(prev.cursor, r))
  }

  /** Each row shows its reading, that reading's category and its note line. */
  lemma {:induction false} LayOutContents(s: seq<Reading>)
    ensures |LayOut(s).rows| == |s|
    ensures forall i :: 0 <= i < |s| ==>
      && LayOut(s).rows[i].reading == s[i]
      && LayOut(s).rows[i].category == GetBPCategory(s[i].systolic, s[i].diastolic)
      && LayOut(s).rows[i].noteY ==
           (if HasNote(s[i]) then Some(LayOut(s).rows[i].y + NoteOffset) else None)
  {
    if s != [] {
      var s' := s[..|s| - 1];
      LayOutContents(s');
      assert forall i :: 0 <= i < |s'| ==> s'[i] == s[i];
    }
  }

  /**
   * The cursor after the rows: on the last row's page, just below that row,
   * and on no later page than there are rows.
   */
  lemma {:induction false} LayOutCursor(s: seq<Reading>)
    ensures |LayOut(s).rows| == |s|
    ensures LayOut(s).cursor.y >= ContinuedRowY && LayOut(s).cursor.page >= 1
    ensures s == [] ==> LayOut(s).cursor == Cursor(1, FirstRowY)
    ensures s != [] ==>
      && LayOut(s).rows[0] == PlaceRow(Cursor(1, FirstRowY), s[0])
      && LayOut(s).cursor.page == LayOut(s).rows[|s| - 1].page
      && LayOut(s).cursor.y == LayOut(s).rows[|s| - 1].y + Advance(s[|s| - 1])
      && LayOut(s).cursor.page <= |s|
  {
    if s != [] {
      var s' := s[..|s| - 1];
      LayOutCursor(s');
      if s' != [] {
        assert s'[0] == s[0];
      }
    }
  }

  /** Every row lies in the printable band, on a page between 1 and the last. */
  lemma {:induction false} LayOutBounds(s: seq<Reading>)
    ensures |LayOut(s).rows| == |s|
    ensures forall i :: 0 <= i < |s| ==>
      && ContinuedRowY <= LayOut(s).rows[i].y <= PageBreakY
      && 1 <= LayOut(s).rows[i].page <= LayOut(s).cursor.page
  {
    LayOutCursor(s);
    if s != [] {
      var s' := s[..|s| - 1];
      LayOutBounds(s');
      LayOutCursor(s');
    }
  }

  /**
   * Consecutive rows: the cursor moves down by the row's advance (7, or 15
   * with a note), unless it passed the break line, in which case the next
   * row starts a new page at the continued-row position.
   */
  lemma {:induction false} LayOutSteps(s: seq<Reading>)
    ensures |LayOut(s).rows| == |s|
    ensures forall i :: 0 < i < |s| ==>
      var rows := LayOut(s).rows;
      var next := rows[i - 1].y + Advance(s[i - 1]);
      if next > PageBreakY then rows[i].page == rows[i - 1].page + 1 && rows[i].y == ContinuedRowY
      else rows[i].page == rows[i - 1].page && rows[i].y == next
  {
    LayOutCursor(s);
    if s != [] {
      var s' := s[..|s| - 1];
      LayOutSteps(s');
      LayOutCursor(s');
      assert forall i :: 0 <= i < |s'| ==> s'[i] == s[i];
    }
  }

  /** Some row of `rows` is drawn on page `p`. */
  predicate HoldsRowOn(rows: seq<RowMark>, p: nat)
  {
    exists i :: 0 <= i < |rows| && rows[i].page == p
  }

  /** Every page of a non-empty layout holds at least one row. */
  lemma {:induction false} EveryPageHoldsARow(s: seq<Reading>)
    requires s != []
    ensures forall p :: 1 <= p <= LayOut(s).cursor.page ==> HoldsRowOn(LayOut(s).rows, p)
  {
    LayOutCursor(s);
    var s' := s[..|s| - 1];
    var l, l' := LayOut(s), LayOut(s');
    assert HoldsRowOn(l.rows, l.cursor.page) by {
      assert l.rows[|s| - 1].page == l.cursor.page;
    }
    if s' != [] {
      EveryPageHoldsARow(s');
      LayOutCursor(s');
      forall p | 1 <= p <= l.cursor.page
        ensures HoldsRowOn(l.rows, p)
      {
        if p <= l'.cursor.page {
          assert HoldsRowOn(l'.rows, p);
          var i :| 0 <= i < |l'.rows| && l'.rows[i].page == p;
          assert l.rows[i] == l'.rows[i];
        }
      }
    }
  }

  /**
   * The table loop: draws each row at the cursor, breaking to a new page
   * (and redrawing the column headers) when the cursor has passed the
   * break line. Returns the rows, the header drawings and the page count.
   */
  method PaginateRows(window: seq<Reading>) returns (placed: seq<RowMark>, headerMarks: seq<HeaderMark>, pages: nat)
    ensures placed == LayOut(window).rows
    ensures pages == LayOut(window).cursor.page
    ensures pages >= 1
    ensures window != [] ==> pages <= |window|
    ensures |placed| == |window|
    ensures forall i :: 0 <= i < |placed| ==> placed[i].y <= PageBreakY && placed[i].page <= pages
    ensures |headerMarks| == pages
    ensures forall k :: 0 <= k < |headerMarks| ==>
      headerMarks[k] == HeaderMark(k + 1, if k == 0 then FirstHeaderY else ContinuedHeaderY)
  {
    var page: nat := 1;
    var y := 100;
    y := y + 10;
    headerMarks := [HeaderMark(page, y)];
    y := y + 8;
    placed := [];
    for i := 0 to |window|
      invariant LayOut(window[..i]) == Layout(placed, Cursor(page, y))
      invariant |headerMarks| == page
      invariant forall k :: 0 <= k < page ==>
        headerMarks[k] == HeaderMark(k + 1, if k == 0 then FirstHeaderY else ContinuedHeaderY)
    {
      assert window[..i + 1][..i] == window[..i];
      var r := window[i];
      if y > PageBreakY {
        page := page + 1;
        y := 20;
        headerMarks := headerMarks + [HeaderMark(page, y)];
        y := y + 8;
      }
      var rowY := y;
      var noteY := None;
      if HasNote(r) {
        y := y + 5;
        noteY := Some(y);
        y := y + 3;
      }
      placed := placed + [RowMark(page, rowY, r, GetBPCategory(r.systolic, r.diastolic), noteY)];
      y := y + 7;
    }
    assert window[..|window|] == window;
    LayOutCursor(window);
    LayOutBounds(window);
    pages := page;
  }

  /** The closing pass: "Page i of N" and the disclaimer on every page. */
  method StampFooters(pageCount: nat) returns (footers: seq<FooterMark>)
    ensures |footers| == pageCount
    ensures forall k :: 0 <= k < |footers| ==> footers[k] == FooterMark(k + 1, pageCount, Disclaimer)
  {
    footers := [];
    var i := 1;
    while i <= pageCount
      invariant 1 <= i <= pageCount + 1
      invariant |footers| == i - 1
      invariant forall k :: 0 <= k < i - 1 ==> footers[k] == FooterMark(k + 1, pageCount, Disclaimer)
    {
      footers := footers + [FooterMark(i, pageCount, Disclaimer)];
      i := i + 1;
    }
  }

  // ---------------------------------------------------------------------
  // File name and the whole export
  // ---------------------------------------------------------------------

  /** `replace(/\//g, '-')`: every slash becomes a dash, nothing else changes. */
  function DashesForSlashes(s: string): (t: string)
    ensures |t| == |s|
    ensures forall i :: 0 <= i < |s| ==> t[i] == if s[i] == '/' then '-' else s[i]
    ensures '/' !in t
  {
    if s == [] then []
    else [if s[0] == '/' then '-' else s[0]] + DashesForSlashes(s[1..])
  }

  /** Date texts without slashes go into the file name unchanged. */
  lemma {:induction false} DashesForSlashesKeepsSlashFree(s: string)
    requires '/' !in s
    ensures DashesForSlashes(s) == s
  {
    if s != [] {
      assert s[0] in s;
      assert forall c :: c in s[1..] ==> c in s;
      DashesForSlashesKeepsSlashFree(s[1..]);
      assert s == [s[0]] + s[1..];
    }
  }

  function ReportFileName(startText: string, endText: string): (name: string)
    ensures '/' !in name
  {
    "BP_Report_" + DashesForSlashes(startText) + "_to_" + DashesForSlashes(endText) + ".pdf"
  }

  datatype Report = Report(
    periodStart: string,
    periodEnd: string,
    summary: Summary,
    rows: seq<RowMark>,
    headers: seq<HeaderMark>,
    pageCount: nat,
    footers: seq<FooterMark>,
    fileName: string)

  /** The two "no readings" alerts, or the finished document. */
  datatype ExportOutcome = NoReadings | NoReadingsInWindow | Exported(report: Report)

  /**
   * `exportLast7DaysReadingsToPDF`. `dateText` is the locale's short date
   * format for a timestamp. Empty input is the only way to get no
   * document: the "no readings in the window" alert is unreachable.
   */
  method ExportLast7Days(logs: seq<Reading>, dateText: int -> string) returns (outcome: ExportOutcome)
    ensures logs == [] <==> outcome == NoReadings
    ensures !outcome.NoReadingsInWindow?
    ensures outcome.Exported? ==>
      var rep := outcome.report;
      && rep.periodStart == dateText(WindowStart(logs))
      && rep.periodEnd == dateText(Latest(logs))
      && rep.summary == Summarize(Window(logs))
      && rep.rows == LayOut(Window(logs)).rows
      && rep.pageCount == LayOut(Window(logs)).cursor.page
      && 1 <= rep.pageCount <= rep.summary.count
      && |rep.headers| == |rep.footers| == rep.pageCount
      && (forall k :: 0 <= k < rep.pageCount ==>
            rep.headers[k] == HeaderMark(k + 1, if k == 0 then FirstHeaderY else ContinuedHeaderY))
      && (forall k :: 0 <= k < rep.pageCount ==> rep.footers[k] == FooterMark(k + 1, rep.pageCount, Disclaimer))
      && rep.fileName == ReportFileName(rep.periodStart, rep.periodEnd)
      && '/' !in rep.fileName
  {
    if |logs| == 0 {
      return NoReadings;
    }
    var sorted := SortNewestFirst(logs);
    var lastReading := sorted[0].timestamp;
    var windowStart := lastReading - SevenDaysMs;
    assert lastReading == Latest(logs) && windowStart == WindowStart(logs);
    var window := Window(logs);
    WindowStartsWithNewest(logs);
    if |window| == 0 {
      assert false;
    }
    var startText, endText := dateText(windowStart), dateText(lastReading);
    var summary := Summarize(window);
    var rows, headers, pageCount := PaginateRows(window);
    var footers := StampFooters(pageCount);
    var fileName := ReportFileName(startText, endText);
    outcome := Exported(Report(startText, endText, summary, rows, headers, pageCount, footers, fileName));
  }
}
