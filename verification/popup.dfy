/**
  The detail popup (`PopUp`): a framed box centred on the screen that lists
  the property lists of one Signal, filled row by row without wrapping at
  word boundaries and clipped at the bottom.
*/
module Popup {
  import opened Wrappers
  import opened Props
  import opened Keys

  /** `data` holds the property lists shown; `(x0, y0)` and `(x1, y1)` are
      the frame's corners. */
  datatype PopUp = PopUp(data: seq<PropsContainer>, x0: int, y0: int, x1: int, y1: int, visible: bool)

  // ---------------------------------------------------------------------------
  // Geometry
  // ---------------------------------------------------------------------------

  /** The margin `center` leaves on both sides of a screen dimension `n`:
      5% of it rounded down, at least 2, and none when 2 would not fit. The
      source computes the 5% in floating point; for a whole `n` that is
      exactly `n / 20` rounded down. */
  function Margin(n: int): (m: int)
    ensures m >= 0
    ensures n < 2 ==> m == 0
    ensures 2 <= n < 40 ==> m == 2
    ensures n >= 40 ==> 20 * m <= n < 20 * m + 20
  {
    var m := n / 20;
    var m := if m < 2 then 2 else m;
    if n - m < 0 then 0 else m
  }

  /** `center` on a `w` by `h` screen: the frame sits `Margin` cells in from
      every edge. */
  function Center(p: PopUp, w: int, h: int): (r: PopUp)
    ensures r.x0 == Margin(w) && r.y0 == Margin(h)
    ensures r.x0 + r.x1 == w && r.y0 + r.y1 == h
    ensures w >= 2 ==> 2 <= r.x0 && r.x1 <= w - 2
    ensures h >= 2 ==> 2 <= r.y0 && r.y1 <= h - 2
    ensures r.data == p.data && r.visible == p.visible
  {
    var wm := Margin(w);
    var hm := Margin(h);
    p.(x0 := wm, y0 := hm, x1 := w - wm, y1 := h - hm)
  }

  /** `newPopUp`: hidden, empty and centred. */
  function NewPopUp(w: int, h: int): (r: PopUp)
    ensures !r.visible && r.data == []
    ensures r.x0 == Margin(w) && r.x1 == w - Margin(w)
    ensures r.y0 == Margin(h) && r.y1 == h - Margin(h)
  {
    Center(PopUp([], 0, 0, 0, 0, false), w, h)
  }

  /** `show`: the lists are stored and the popup becomes visible. */
  function Show(p: PopUp, data: seq<PropsContainer>): (r: PopUp)
    ensures r.visible && r.data == data
    ensures r.x0 == p.x0 && r.y0 == p.y0 && r.x1 == p.x1 && r.y1 == p.y1
  {
    p.(data := data, visible := true)
  }

  /** `resize` as written: the guard compares the new size with `x1 - 5`
      but stores `w - 5`, so a frame whose corner is exactly five cells past
      the new size is left where it was. */
  function ResizeAsWritten(p: PopUp, w: int, h: int): (r: PopUp)
    ensures r.x0 == p.x0 && r.y0 == p.y0 && r.data == p.data && r.visible == p.visible
    ensures (w != p.x1 - 5 || h != p.y1 - 5) <==> (r.x1 == w - 5 && r.y1 == h - 5)
  {
    if w != p.x1 - 5 || h != p.y1 - 5 then p.(x1 := w - 5, y1 := h - 5) else p
  }

  /** `resize` as intended: the far corner always moves to five cells in
      from the new size; the near corner never moves. */
  function Resize(p: PopUp, w: int, h: int): (r: PopUp)
    ensures r.x0 == p.x0 && r.y0 == p.y0 && r.data == p.data && r.visible == p.visible
    ensures r.x1 == w - 5 && r.y1 == h - 5
  {
    p.(x1 := w - 5, y1 := h - 5)
  }

  /** The two agree except when the old corner is five cells past the new size. */
  lemma ResizeAgrees(p: PopUp, w: int, h: int)
    requires p.x1 != w + 5 || p.y1 != h + 5
    ensures ResizeAsWritten(p, w, h) == Resize(p, w, h)
  {
  }

  /** A popup centred on a 100 by 50 screen, after the screen shrinks to 90
      by 43, keeps its corner at column 95, outside the screen. */
  lemma ResizeAsWrittenStale()
    ensures var p := Center(NewPopUp(100, 50), 100, 50);
            && p.x1 == 95 && p.y1 == 48
            && ResizeAsWritten(p, 90, 43).x1 == 95
            && Resize(p, 90, 43).x1 == 85
  {
    var p := Center(NewPopUp(100, 50), 100, 50);
    assert Margin(100) == 5 && Margin(50) == 2;
  }

  /** `eventKey`: Escape hides the popup and is consumed; any other key is
      passed on and changes nothing. */
  function EventKey(p: PopUp, k: Key): (r: (PopUp, bool))
    ensures r.1 <==> k == Escape
    ensures r.1 ==> r.0 == p.(visible := false)
    ensures !r.1 ==> r.0 == p
  {
    if k == Escape then (p.(visible := false), true) else (p, false)
  }

  // ---------------------------------------------------------------------------
  // The line list
  // ---------------------------------------------------------------------------

  /** Each list with its pairs in the order `get` returns them. */
  function Ordered(data: seq<PropsContainer>): (r: seq<PropsContainer>)
    ensures |r| == |data|
    ensures forall i :: 0 <= i < |data| ==> r[i] == PropsContainer(data[i].name, Get(data[i]))
  {
    seq(|data|, i requires 0 <= i < |data| => PropsContainer(data[i].name, Get(data[i])))
  }

  /** The lines of one property list: its name, one `k: v` line per pair in
      the order given, and a blank line. */
  function Section(c: PropsContainer): (r: seq<string>)
    ensures |r| == |c.props| + 2
  {
    [" + " + c.name] + seq(|c.props|, j requires 0 <= j < |c.props| => PairLine(c.props[j])) + [""]
  }

  function PairLine(p: Pair): string {
    " | " + p.key + ": " + p.value
  }

  lemma SectionLines(c: PropsContainer, j: int)
    requires 0 <= j < |c.props|
    ensures Section(c)[0] == " + " + c.name
    ensures Section(c)[1 + j] == PairLine(c.props[j])
    ensures Section(c)[|c.props| + 1] == ""
  {
  }

  /** The sections of the lists, in order. */
  function Sections(data: seq<PropsContainer>): (r: seq<string>)
    ensures |r| == LineCount(data)
  {
    if |data| == 0 then [] else Section(data[0]) + Sections(data[1..])
  }

  /** The number of lines the lists take: two per list plus one per pair. */
  function LineCount(data: seq<PropsContainer>): nat {
    if |data| == 0 then 0 else |data[0].props| + 2 + LineCount(data[1..])
  }

  /** The line list `refresh` builds: an empty first line, then the
      section of every list, sorted. */
  function Lines(data: seq<PropsContainer>): (r: seq<string>)
    ensures |r| == 1 + LineCount(Ordered(data))
    ensures r[0] == ""
  {
    [""] + Sections(Ordered(data))
  }

  /** The number of lines the lists before list `i` take. */
  function Offset(data: seq<PropsContainer>, i: nat): nat
    requires i <= |data|
  {
    if i == 0 then 0 else |data[0].props| + 2 + Offset(data[1..], i - 1)
  }

  /** The section of list `i` follows the sections of the lists before it. */
  lemma {:induction false} SectionsAt(data: seq<PropsContainer>, i: nat)
    requires i < |data|
    ensures Offset(data, i) + |data[i].props| + 2 <= LineCount(data)
    ensures Sections(data)[Offset(data, i)..Offset(data, i) + |data[i].props| + 2] == Section(data[i])
  {
    var head, tail := Section(data[0]), Sections(data[1..]);
    assert Sections(data) == head + tail;
    if i == 0 {
      PrefixSlice(head, tail);
    } else {
      assert data[1..][i - 1] == data[i];
      assert Offset(data, i) == |head| + Offset(data[1..], i - 1);
      SectionsAt(data[1..], i - 1);
      ShiftedSlice(head, tail, Offset(data[1..], i - 1), |data[i].props| + 2, Section(data[i]));
    }
  }

  lemma PrefixSlice<T>(x: seq<T>, y: seq<T>)
    ensures (x + y)[0..|x|] == x
  {
  }

  lemma ShiftedSlice<T>(x: seq<T>, y: seq<T>, a: nat, n: nat, z: seq<T>)
    requires a + n <= |y| && y[a..a + n] == z
    ensures (x + y)[|x| + a..|x| + a + n] == z
  {
    assert (x + y)[|x| + a..|x| + a + n] == y[a..a + n];
  }

  /** `Offset` depends only on the lengths of the lists. */
  lemma {:induction false} OffsetSameSizes(a: seq<PropsContainer>, b: seq<PropsContainer>, i: nat)
    requires i <= |a| == |b|
    requires forall k :: 0 <= k < |a| ==> |a[k].props| == |b[k].props|
    ensures Offset(a, i) == Offset(b, i)
  {
    if i > 0 {
      assert |a[0].props| == |b[0].props|;
      OffsetSameSizes(a[1..], b[1..], i - 1);
    }
  }

  /** Sorting keeps every list's length, so the sections keep their places. */
  lemma OffsetOrdered(data: seq<PropsContainer>, i: nat)
    requires i <= |data|
    ensures Offset(Ordered(data), i) == Offset(data, i)
  {
    var od := Ordered(data);
    forall k | 0 <= k < |data| ensures |od[k].props| == |data[k].props| {
      assert od[k].props == Get(data[k]);
    }
    OffsetSameSizes(od, data, i);
  }

  /** Within the sections, list `i` is named at its offset and its `j`-th
      pair follows `j` lines later. */
  lemma SectionsLine(d: seq<PropsContainer>, i: nat, j: int)
    requires i < |d| && 0 <= j < |d[i].props|
    ensures Offset(d, i) + 1 + j < LineCount(d)
    ensures Sections(d)[Offset(d, i)] == " + " + d[i].name
    ensures Sections(d)[Offset(d, i) + 1 + j] == PairLine(d[i].props[j])
  {
    SectionsAt(d, i);
    SectionLines(d[i], j);
    var o := Offset(d, i);
    assert Sections(d)[o] == Section(d[i])[0];
    assert Sections(d)[o + 1 + j] == Section(d[i])[1 + j];
  }

  /** The lines of list `i` within the whole line list, before the pairs
      are named by `get`. */
  lemma LinesAtOrdered(data: seq<PropsContainer>, i: nat, j: int)
    requires i < |data| && 0 <= j < |data[i].props|
    ensures |Ordered(data)[i].props| == |data[i].props|
    ensures var o := 1 + Offset(data, i);
            && o + 1 + j < |Lines(data)|
            && Lines(data)[o] == " + " + data[i].name
            && Lines(data)[o + 1 + j] == PairLine(Ordered(data)[i].props[j])
  {
    var od := Ordered(data);
    SectionsLine(od, i, j);
    OffsetOrdered(data, i);
  }

  /** Where the lines of list `i` are: its name, then its pairs in sorted
      order, after the first line and the lines of the lists before it. */
  lemma LinesAt(data: seq<PropsContainer>, i: nat, j: int)
    requires i < |data| && 0 <= j < |data[i].props|
    ensures var o := 1 + Offset(data, i);
            && o + 1 + j < |Lines(data)|
            && Lines(data)[o] == " + " + data[i].name
            && Lines(data)[o + 1 + j] == " | " + Get(data[i])[j].key + ": " + Get(data[i])[j].value
  {
    LinesAtOrdered(data, i, j);
  }

  // ---------------------------------------------------------------------------
  // Filling the text area
  // ---------------------------------------------------------------------------

  /** The number of cells strictly between two frame coordinates. */
  function Inner(lo: int, hi: int): (n: nat)
    ensures n == 0 <==> hi <= lo + 1
    ensures n > 0 ==> lo + 1 + n == hi
  {
    if hi - lo - 1 > 0 then hi - lo - 1 else 0
  }

  function Blank(w: nat): (r: string)
    ensures |r| == w
  {
    seq(w, c => ' ')
  }

  /** `w` bytes of `line` from byte `from`, padded with spaces. */
  function Piece(line: string, from: nat, w: nat): (r: string)
    ensures |r| == w
    ensures forall c :: 0 <= c < w && from + c < |line| ==> r[c] == line[from + c]
    ensures forall c :: 0 <= c < w && from + c >= |line| ==> r[c] == ' '
  {
    seq(w, c requires 0 <= c < w => if from + c < |line| then line[from + c] else ' ')
  }

  /** The row the fill writes when it starts at line `tl`, byte `tc`. */
  function Row(lines: seq<string>, tl: nat, tc: nat, w: nat): (r: string)
    ensures |r| == w
  {
    if tl < |lines| then Piece(lines[tl], tc, w) else Blank(w)
  }

  /** The row ended on a cell the line did not reach, so the next row
      starts the next line. */
  predicate RanOut(lines: seq<string>, tl: nat, tc: nat, w: nat) {
    w > 0 && (tl >= |lines| || tc + w > |lines[tl]|)
  }

  /** The `n` rows the fill loop writes from line `tl`, byte `tc`, in a text
      area `w` cells wide. */
  function FillRows(lines: seq<string>, tl: nat, tc: nat, w: nat, n: nat): (r: seq<string>)
    ensures |r| == n
    ensures forall y :: 0 <= y < n ==> |r[y]| == w
    decreases n
  {
    if n == 0 then []
    else
      [Row(lines, tl, tc, w)]
      + if RanOut(lines, tl, tc, w) then FillRows(lines, tl + 1, 0, w, n - 1)
        else FillRows(lines, tl, tc + w, w, n - 1)
  }

  /** One row of the fill loop of `refresh`, cell by cell: each cell takes
      the next byte of the current line or, once the line has run out, a
      space, and `lf` records that it ran out. */
  method FillRow(lines: seq<string>, tl: nat, tc0: nat, x0: int, x1: int) returns (cells: string, tc: nat, lf: bool)
    ensures cells == Row(lines, tl, tc0, Inner(x0, x1))
    ensures lf == RanOut(lines, tl, tc0, Inner(x0, x1))
    ensures !lf ==> tc == tc0 + Inner(x0, x1)
  {
    var w := Inner(x0, x1);
    cells, tc, lf := "", tc0, false;
    var col := x0 + 1;
    while col < x1
      invariant x0 + 1 <= col && |cells| == col - x0 - 1 && |cells| <= w
      invariant col <= x1 || |cells| == 0
      invariant tc0 <= tc <= tc0 + |cells|
      invariant !lf ==> tc == tc0 + |cells|
      invariant lf ==> tl >= |lines| || tc >= |lines[tl]|
      invariant lf == (|cells| > 0 && (tl >= |lines| || tc0 + |cells| > |lines[tl]|))
      invariant cells == Row(lines, tl, tc0, w)[..|cells|]
    {
      var r := ' ';
      if tl < |lines| && tc < |lines[tl]| {
        r := lines[tl][tc];
        tc := tc + 1;
      } else {
        lf := true;
      }
      cells := cells + [r];
      col := col + 1;
    }
    assert cells == Row(lines, tl, tc0, w)[..w];
  }

  /** The first of `k` rows, and where the fill goes on from. */
  lemma FillRowsFront(lines: seq<string>, tl: nat, tc: nat, w: nat, k: nat, ntl: nat, ntc: nat)
    requires k >= 1
    requires ntl == (if RanOut(lines, tl, tc, w) then tl + 1 else tl)
    requires ntc == (if RanOut(lines, tl, tc, w) then 0 else tc + w)
    ensures FillRows(lines, tl, tc, w, k) == [Row(lines, tl, tc, w)] + FillRows(lines, ntl, ntc, w, k - 1)
  {
  }

  /** One turn of the row loop keeps the rows written so far, followed by
      the rows still to come, equal to the whole fill. */
  lemma FillAdvance(lines: seq<string>, grid: seq<string>, tl: nat, tc: nat, w: nat, h: nat, cells: string, ntl: nat, ntc: nat)
    requires |grid| < h
    requires grid + FillRows(lines, tl, tc, w, h - |grid|) == FillRows(lines, 0, 0, w, h)
    requires cells == Row(lines, tl, tc, w)
    requires ntl == (if RanOut(lines, tl, tc, w) then tl + 1 else tl)
    requires ntc == (if RanOut(lines, tl, tc, w) then 0 else tc + w)
    ensures (grid + [cells]) + FillRows(lines, ntl, ntc, w, h - |grid + [cells]|) == FillRows(lines, 0, 0, w, h)
  {
    var k := h - |grid|;
    FillRowsFront(lines, tl, tc, w, k, ntl, ntc);
    SnocFront(grid, cells, FillRows(lines, ntl, ntc, w, k - 1), FillRows(lines, 0, 0, w, h));
  }

  /** Moving one element from the front of the tail to the end of the head. */
  lemma SnocFront<T>(head: seq<T>, x: T, tail: seq<T>, whole: seq<T>)
    requires head + ([x] + tail) == whole
    ensures (head + [x]) + tail == whole && |head + [x]| == |head| + 1
  {
    assert (head + [x]) + tail == head + ([x] + tail);
  }

  /** The fill loop of `refresh`: rows from the top of the text area down;
      a row that met the end of its line moves on to the next line. */
  method Fill(lines: seq<string>, x0: int, y0: int, x1: int, y1: int) returns (grid: seq<string>)
    ensures grid == FillRows(lines, 0, 0, Inner(x0, x1), Inner(y0, y1))
  {
    var w := Inner(x0, x1);
    var h := Inner(y0, y1);
    ghost var whole := FillRows(lines, 0, 0, w, h);
    grid := [];
    var tl: nat, tc: nat, row := 0, 0, y0 + 1;
    while row < y1
      invariant y0 + 1 <= row && |grid| == row - y0 - 1 && |grid| <= h
      invariant row <= y1 || |grid| == 0
      invariant grid + FillRows(lines, tl, tc, w, h - |grid|) == whole
    {
      var cells, tc', lf := FillRow(lines, tl, tc, x0, x1);
      var ntl: nat, ntc: nat := if lf then tl + 1 else tl, if lf then 0 else tc';
      FillAdvance(lines, grid, tl, tc, w, h, cells, ntl, ntc);
      grid := grid + [cells];
      tl, tc := ntl, ntc;
      row := row + 1;
    }
  }

  /** The reference layout of one line in a text area `w` cells wide: its
      consecutive `w`-byte pieces, ending with a piece shorter than `w`
      (possibly empty), padded with spaces. */
  function LineRows(line: string, w: nat): (r: seq<string>)
    requires w >= 1
    ensures |r| >= 1
    decreases |line|
  {
    if |line| < w then [Piece(line, 0, w)] else [line[..w]] + LineRows(line[w..], w)
  }

  /** A line exactly as long as the text area is wide still ends with a
      blank row: the row after the full one is where the fill notices that
      the line has run out. */
  lemma FullLineTakesTwoRows(line: string, w: nat)
    requires w >= 1 && |line| == w
    ensures LineRows(line, w) == [line, Blank(w)]
  {
    assert line[..w] == line;
    assert LineRows(line[w..], w) == [Piece(line[w..], 0, w)];
    assert Piece(line[w..], 0, w) == Blank(w);
  }

  /** The rows of every line, one line after another. */
  function Layout(lines: seq<string>, w: nat): seq<string>
    requires w >= 1
  {
    if |lines| == 0 then [] else LineRows(lines[0], w) + Layout(lines[1..], w)
  }

  /** The first `n` rows of `rows`, continued with blank rows. */
  function Window(rows: seq<string>, w: nat, n: nat): (r: seq<string>)
    ensures |r| == n
    ensures forall y :: 0 <= y < n && y < |rows| ==> r[y] == rows[y]
    ensures forall y :: |rows| <= y < n ==> r[y] == Blank(w)
  {
    if n <= |rows| then rows[..n] else rows + seq(n - |rows|, y => Blank(w))
  }

  lemma WindowCons(x: string, rows: seq<string>, w: nat, n: nat)
    requires n >= 1
    ensures Window([x] + rows, w, n) == [x] + Window(rows, w, n - 1)
  {
    var a := Window([x] + rows, w, n);
    var b := [x] + Window(rows, w, n - 1);
    assert |a| == |b|;
    forall y | 0 <= y < n ensures a[y] == b[y] {
      if y > 0 {
        assert b[y] == Window(rows, w, n - 1)[y - 1];
      }
    }
  }

  /** Past the last line, the fill writes blank rows. */
  lemma {:induction false} FillPastEnd(lines: seq<string>, tl: nat, tc: nat, w: nat, n: nat)
    requires w >= 1 && tl >= |lines|
    ensures FillRows(lines, tl, tc, w, n) == Window([], w, n)
    decreases n
  {
    if n > 0 {
      FillPastEnd(lines, tl + 1, 0, w, n - 1);
      WindowCons(Blank(w), [], w, n);
      assert Window([Blank(w)] + [], w, n) == Window([], w, n);
    }
  }

  /** The first row of the layout of a line's rest from byte `tc` is the
      `w`-byte piece of the line from `tc`. */
  lemma FirstPiece(line: string, tc: nat, w: nat)
    requires w >= 1 && tc <= |line|
    ensures LineRows(line[tc..], w)[0] == Piece(line, tc, w)
  {
    var rest := line[tc..];
    var p := Piece(line, tc, w);
    if |rest| >= w {
      assert LineRows(rest, w)[0] == rest[..w];
      forall c | 0 <= c < w ensures rest[..w][c] == p[c] {
        assert rest[c] == line[tc + c];
      }
    } else {
      assert LineRows(rest, w)[0] == Piece(rest, 0, w);
      forall c | 0 <= c < w ensures Piece(rest, 0, w)[c] == p[c] {
        if c < |rest| {
          assert rest[c] == line[tc + c];
        }
      }
    }
  }

  lemma WindowFront(pieces: seq<string>, rest: seq<string>, w: nat, n: nat)
    requires |pieces| >= 1 && n >= 1
    ensures Window(pieces + rest, w, n) == [pieces[0]] + Window(pieces[1..] + rest, w, n - 1)
  {
    assert pieces + rest == [pieces[0]] + (pieces[1..] + rest);
    WindowCons(pieces[0], pieces[1..] + rest, w, n);
  }

  /** One step of the fill against the layout: the row written from byte
      `tc` of line `tl` is the first piece of the rest of that line. */
  lemma FillStep(lines: seq<string>, tl: nat, tc: nat, w: nat, n: nat)
    requires w >= 1 && n >= 1 && tl < |lines| && tc <= |lines[tl]|
    requires var ran := tc + w > |lines[tl]|;
             FillRows(lines, if ran then tl + 1 else tl, if ran then 0 else tc + w, w, n - 1)
               == Window(LineRows(lines[tl][tc..], w)[1..] + Layout(lines[tl + 1..], w), w, n - 1)
    ensures FillRows(lines, tl, tc, w, n) == Window(LineRows(lines[tl][tc..], w) + Layout(lines[tl + 1..], w), w, n)
  {
    var ran := tc + w > |lines[tl]|;
    assert RanOut(lines, tl, tc, w) == ran;
    var next := FillRows(lines, if ran then tl + 1 else tl, if ran then 0 else tc + w, w, n - 1);
    assert FillRows(lines, tl, tc, w, n) == [Row(lines, tl, tc, w)] + next;
    FirstPiece(lines[tl], tc, w);
    WindowFront(LineRows(lines[tl][tc..], w), Layout(lines[tl + 1..], w), w, n);
  }

  /** A rest shorter than the area is laid out as one row. */
  lemma ShortRest(line: string, tc: nat, w: nat)
    requires w >= 1 && tc <= |line| && tc + w > |line|
    ensures LineRows(line[tc..], w)[1..] == []
  {
  }

  /** A rest of at least `w` bytes is laid out as its first `w` bytes, then
      the layout of what follows them. */
  lemma LongRest(line: string, tc: nat, w: nat)
    requires w >= 1 && tc + w <= |line|
    ensures LineRows(line[tc..], w)[1..] == LineRows(line[tc + w..], w)
  {
    assert line[tc..][w..] == line[tc + w..];
  }

  /** The layout of the lines from `k` on starts with the rows of line `k`. */
  lemma LayoutFront(lines: seq<string>, k: nat, w: nat)
    requires w >= 1 && k < |lines|
    ensures Layout(lines[k..], w) == LineRows(lines[k][0..], w) + Layout(lines[k + 1..], w)
  {
    assert lines[k..][1..] == lines[k + 1..];
    assert lines[k][0..] == lines[k];
  }

  /** From byte `tc` of line `tl`, the fill writes the layout of the rest
      of that line and then the layout of the lines after it. */
  lemma {:induction false} FillFrom(lines: seq<string>, tl: nat, tc: nat, w: nat, n: nat)
    requires w >= 1 && tl < |lines| && tc <= |lines[tl]|
    ensures FillRows(lines, tl, tc, w, n) == Window(LineRows(lines[tl][tc..], w) + Layout(lines[tl + 1..], w), w, n)
    decreases n, 1
  {
    if n > 0 {
      if tc + w > |lines[tl]| {
        FillFromShort(lines, tl, tc, w, n);
      } else {
        FillFromLong(lines, tl, tc, w, n);
      }
    }
  }

  /** The row that meets the end of line `tl`: the fill goes on with the
      next line, or with blank rows after the last. */
  lemma {:induction false} FillFromShort(lines: seq<string>, tl: nat, tc: nat, w: nat, n: nat)
    requires w >= 1 && n >= 1 && tl < |lines| && tc <= |lines[tl]| && tc + w > |lines[tl]|
    ensures FillRows(lines, tl, tc, w, n) == Window(LineRows(lines[tl][tc..], w) + Layout(lines[tl + 1..], w), w, n)
    decreases n, 0
  {
    var rest := Layout(lines[tl + 1..], w);
    ShortRest(lines[tl], tc, w);
    assert LineRows(lines[tl][tc..], w)[1..] + rest == rest;
    FillNextLine(lines, tl, w, n - 1);
    FillStep(lines, tl, tc, w, n);
  }

  /** After line `tl` the fill lays out the lines that follow it. */
  lemma {:induction false} FillNextLine(lines: seq<string>, tl: nat, w: nat, m: nat)
    requires w >= 1 && tl < |lines|
    ensures FillRows(lines, tl + 1, 0, w, m) == Window(Layout(lines[tl + 1..], w), w, m)
    decreases m, 2
  {
    if tl + 1 < |lines| {
      FillFrom(lines, tl + 1, 0, w, m);
      LayoutFront(lines, tl + 1, w);
    } else {
      FillPastEnd(lines, tl + 1, 0, w, m);
      assert lines[tl + 1..] == [];
    }
  }

  /** A row that stays within line `tl`: the fill goes on `w` bytes further. */
  lemma {:induction false} FillFromLong(lines: seq<string>, tl: nat, tc: nat, w: nat, n: nat)
    requires w >= 1 && n >= 1 && tl < |lines| && tc + w <= |lines[tl]|
    ensures FillRows(lines, tl, tc, w, n) == Window(LineRows(lines[tl][tc..], w) + Layout(lines[tl + 1..], w), w, n)
    decreases n, 0
  {
    FillFrom(lines, tl, tc + w, w, n - 1);
    LongRest(lines[tl], tc, w);
    FillStepLong(lines, tl, tc, w, n);
  }

  /** `FillStep` for a row that stays within its line. */
  lemma FillStepLong(lines: seq<string>, tl: nat, tc: nat, w: nat, n: nat)
    requires w >= 1 && n >= 1 && tl < |lines| && tc + w <= |lines[tl]|
    requires FillRows(lines, tl, tc + w, w, n - 1)
               == Window(LineRows(lines[tl][tc..], w)[1..] + Layout(lines[tl + 1..], w), w, n - 1)
    ensures FillRows(lines, tl, tc, w, n) == Window(LineRows(lines[tl][tc..], w) + Layout(lines[tl + 1..], w), w, n)
  {
    FillStep(lines, tl, tc, w, n);
  }

  /** The fill loop lays the lines out as the reference layout says, clipped
      or padded to the height of the text area. */
  lemma FillLayout(lines: seq<string>, w: nat, n: nat)
    requires w >= 1
    ensures FillRows(lines, 0, 0, w, n) == Window(Layout(lines, w), w, n)
  {
    if |lines| == 0 {
      FillPastEnd(lines, 0, 0, w, n);
    } else {
      FillFrom(lines, 0, 0, w, n);
      assert lines[0][0..] == lines[0];
    }
  }

  /** `refresh`, for the text area: nothing at all while hidden, otherwise
      the filled rows of the line list. The frame is left out. */
  function Refresh(p: PopUp): (r: Option<seq<string>>)
    ensures r.None? <==> !p.visible
    ensures r.Some? ==> |r.value| == Inner(p.y0, p.y1)
    ensures r.Some? && Inner(p.x0, p.x1) >= 1 ==>
              r.value == Window(Layout(Lines(p.data), Inner(p.x0, p.x1)), Inner(p.x0, p.x1), Inner(p.y0, p.y1))
  {
    if !p.visible then None
    else
      var w := Inner(p.x0, p.x1);
      if w >= 1 then FillLayout(Lines(p.data), w, Inner(p.y0, p.y1)); Some(FillRows(Lines(p.data), 0, 0, w, Inner(p.y0, p.y1)))
      else Some(FillRows(Lines(p.data), 0, 0, w, Inner(p.y0, p.y1)))
  }
}
