/**
  The highlight mask of `drawRow`: which of the `width` cells of a row are
  drawn in the highlight style, given the row's text and the filter. Every
  occurrence the left-to-right search finds is marked; an occurrence that
  runs past the right edge marks the last visible cell instead of being
  dropped. Texts are taken one byte per cell.
*/
module Highlight {
  import opened Wrappers
  import opened Text

  // ---------------------------------------------------------------------------
  // Reference definition
  // ---------------------------------------------------------------------------

  /** The occurrences of `f` in `text` from index `from` on that a search
      finds when it resumes after the end of each match: left to right,
      never overlapping, none skipped. */
  function Occurrences(text: string, f: string, from: nat): (r: seq<nat>)
    requires |f| >= 1 && from <= |text|
    ensures forall j :: 0 <= j < |r| ==> from <= r[j] && OccursAt(text, f, r[j])
    ensures forall j :: 0 <= j < |r| - 1 ==> r[j] + |f| <= r[j + 1]
    decreases |text| - from
  {
    var i := Index(text[from..], f);
    if i < 0 then []
    else
      ShiftOccurs(text, f, from, i);
      [from + i] + Occurrences(text, f, from + i + |f|)
  }

  /** The search skips nothing: no occurrence starts between `from` and the
      first one found, and none at all from `from` on when nothing is found. */
  lemma OccurrencesSkipNone(text: string, f: string, from: nat)
    requires |f| >= 1 && from <= |text|
    ensures var r := Occurrences(text, f, from);
      (|r| == 0 ==> forall q :: from <= q ==> !OccursAt(text, f, q)) &&
      (|r| > 0 ==> forall q :: from <= q < r[0] ==> !OccursAt(text, f, q))
  {
    var i := Index(text[from..], f);
    if i < 0 {
      NoneFrom(text, f, from);
    } else {
      FirstFrom(text, f, from, i);
      OccurrencesStep(text, f, from, i);
    }
  }

  /** A failed search from `from` means no occurrence starts there or later. */
  lemma NoneFrom(text: string, f: string, from: nat)
    requires from <= |text| && Index(text[from..], f) < 0
    ensures forall q :: from <= q ==> !OccursAt(text, f, q)
  {
    forall q | from <= q ensures !OccursAt(text, f, q) {
      ShiftOccurs(text, f, from, q - from);
    }
  }

  /** A search from `from` that answers `i` found the first occurrence at
      or after `from`. */
  lemma FirstFrom(text: string, f: string, from: nat, i: int)
    requires from <= |text| && i >= 0 && Index(text[from..], f) == i
    ensures OccursAt(text, f, from + i)
    ensures forall q :: from <= q < from + i ==> !OccursAt(text, f, q)
  {
    ShiftOccurs(text, f, from, i);
    forall q | from <= q < from + i ensures !OccursAt(text, f, q) {
      ShiftOccurs(text, f, from, q - from);
    }
  }

  lemma ShiftOccurs(text: string, f: string, from: nat, i: int)
    requires from <= |text| && i >= 0
    ensures OccursAt(text[from..], f, i) <==> OccursAt(text, f, from + i)
  {
    if i + |f| <= |text| - from {
      assert text[from..][i..i + |f|] == text[from + i..from + i + |f|];
    }
  }

  /** Cell `c` lies inside one of the occurrences. */
  predicate Covered(occ: seq<nat>, n: nat, c: int) {
    |occ| > 0 && ((occ[0] <= c < occ[0] + n) || Covered(occ[1..], n, c))
  }

  /** One of the occurrences ends past the last of `width` cells. */
  predicate Crosses(occ: seq<nat>, n: nat, width: int) {
    |occ| > 0 && (occ[0] + n > width || Crosses(occ[1..], n, width))
  }

  /** The mask as specified: an empty filter marks nothing; otherwise a cell
      is marked when an occurrence covers it, and the last cell also when an
      occurrence runs past it. */
  function MaskSpec(text: string, f: string, width: nat): (r: seq<bool>)
    ensures |r| == width
  {
    if f == "" then seq(width, c => false)
    else
      var occ := Occurrences(text, f, 0);
      seq(width, c => Covered(occ, |f|, c) || (c == width - 1 && Crosses(occ, |f|, width)))
  }

  lemma {:induction false} NotCoveredBefore(occ: seq<nat>, n: nat, c: int)
    requires forall j :: 0 <= j < |occ| ==> occ[j] > c
    ensures !Covered(occ, n, c)
    decreases |occ|
  {
    if |occ| > 0 {
      NotCoveredBefore(occ[1..], n, c);
    }
  }

  // ---------------------------------------------------------------------------
  // The loop of drawRow, as intended
  // ---------------------------------------------------------------------------

  /** The inner loop: marks `k` cells from `p`; on reaching the right edge
      it marks the last cell and makes the search resume at the end of the
      text. Returns the mask and where the search resumes. */
  function MarkRun(hl: seq<bool>, p: nat, k: nat, width: nat, textLen: nat): (r: (seq<bool>, nat))
    requires |hl| == width && (k > 0 || p <= width)
    ensures |r.0| == width
    ensures r.1 == if p + k <= width then p + k else textLen
    ensures forall c :: 0 <= c < width ==> r.0[c] == (hl[c] || (p <= c < p + k) || (c == width - 1 && p + k > width))
    decreases k
  {
    if k == 0 then (hl, p)
    else if p >= width then ((if width > 0 then hl[width - 1 := true] else hl), textLen)
    else MarkRun(hl[p := true], p + 1, k - 1, width, textLen)
  }

  /** The outer loop: find the next occurrence from `p`, mark it, resume. */
  function Scan(text: string, f: string, width: nat, hl: seq<bool>, p: nat): (r: seq<bool>)
    requires |f| >= 1 && p <= |text| && |hl| == width
    ensures |r| == width
    decreases |text| - p
  {
    var i := Index(text[p..], f);
    if i < 0 then hl
    else
      var run := MarkRun(hl, p + i, |f|, width, |text|);
      Scan(text, f, width, run.0, run.1)
  }

  /** `drawRow`'s highlight mask with the edge test corrected to `p >= width`
      (and nothing to mark on a row of no cells). */
  function Mask(text: string, f: string, width: nat): (r: seq<bool>)
    ensures r == MaskSpec(text, f, width)
  {
    if f == "" then seq(width, c => false)
    else
      var none := seq(width, c => false);
      ScanMeetsSpec(text, f, width, none, 0);
      assert Marked(none, Occurrences(text, f, 0), |f|, width) == MaskSpec(text, f, width);
      Scan(text, f, width, none, 0)
  }

  /** What the scan from `p` should add to `hl`. */
  function Marked(hl: seq<bool>, occ: seq<nat>, n: nat, width: nat): (r: seq<bool>)
    requires |hl| == width
    ensures |r| == width
  {
    seq(width, c requires 0 <= c < width => hl[c] || Covered(occ, n, c) || (c == width - 1 && Crosses(occ, n, width)))
  }

  /** A match that fits inside the row: marking it, then the rest, is
      marking all. */
  lemma MarkedFits(hl: seq<bool>, m: nat, rest: seq<nat>, n: nat, width: nat, textLen: nat)
    requires |hl| == width && n >= 1 && m + n <= width
    ensures Marked(MarkRun(hl, m, n, width, textLen).0, rest, n, width) == Marked(hl, [m] + rest, n, width)
  {
    assert ([m] + rest)[1..] == rest;
  }

  /** A match that runs past the row: marking it is marking all, since
      every later match starts past the row too. */
  lemma MarkedCrosses(hl: seq<bool>, m: nat, tail: seq<nat>, n: nat, width: nat, textLen: nat)
    requires |hl| == width && n >= 1 && m + n > width
    requires forall j :: 0 <= j < |tail| ==> tail[j] >= m + n
    ensures Marked(MarkRun(hl, m, n, width, textLen).0, [], n, width) == Marked(hl, [m] + tail, n, width)
  {
    assert ([m] + tail)[1..] == tail;
    var a := Marked(MarkRun(hl, m, n, width, textLen).0, [], n, width);
    var b := Marked(hl, [m] + tail, n, width);
    forall c | 0 <= c < width ensures a[c] == b[c] {
      NotCoveredBefore(tail, n, c);
    }
  }

  /** The scan from `p` adds to `hl` exactly what the occurrences from `p`
      call for. */
  lemma {:induction false} ScanMeetsSpec(text: string, f: string, width: nat, hl: seq<bool>, p: nat)
    requires |f| >= 1 && p <= |text| && |hl| == width
    ensures Scan(text, f, width, hl, p) == Marked(hl, Occurrences(text, f, p), |f|, width)
    decreases |text| - p
  {
    var i := Index(text[p..], f);
    if i < 0 {
      assert Occurrences(text, f, p) == [];
      assert Marked(hl, [], |f|, width) == hl;
    } else {
      var m := p + i;
      var run := MarkRun(hl, m, |f|, width, |text|);
      var tail := Occurrences(text, f, m + |f|);
      assert Occurrences(text, f, p) == [m] + tail;
      ScanMeetsSpec(text, f, width, run.0, run.1);
      if m + |f| <= width {
        MarkedFits(hl, m, tail, |f|, width, |text|);
      } else {
        assert text[|text|..] == [];
        assert Occurrences(text, f, |text|) == [];
        MarkedCrosses(hl, m, tail, |f|, width, |text|);
      }
    }
  }

  // ---------------------------------------------------------------------------
  // The loop of drawRow, as written
  // ---------------------------------------------------------------------------

  /** The inner loop as written: the edge test is `p > width`, so a match
      cell at index `width` is written one past the end of the mask (`None`
      stands for that index-out-of-range failure, and for a row of no cells,
      where the last cell does not exist). */
  function MarkRunAsWritten(hl: seq<bool>, p: nat, k: nat, width: nat, textLen: nat): (r: Option<(seq<bool>, nat)>)
    requires |hl| == width
    ensures r.Some? ==> |r.value.0| == width && (r.value.1 == p + k || r.value.1 == textLen)
    ensures r.None? <==> k > 0 && ((p <= width < p + k) || (width < p && width == 0))
    ensures r.Some? && (k > 0 || p <= width) ==> r.value == MarkRun(hl, p, k, width, textLen)
    decreases k
  {
    if k == 0 then Some((hl, p))
    else if p > width then (if width > 0 then Some((hl[width - 1 := true], textLen)) else None)
    else if p < width then MarkRunAsWritten(hl[p := true], p + 1, k - 1, width, textLen)
    else None
  }

  /** A match at `m` of `n` cells on which the inner loop as written
      fails: it holds cell `width`, or the row has no cells at all. */
  predicate Straddles(m: nat, n: nat, width: nat) {
    width == 0 || m <= width < m + n
  }

  predicate AnyStraddles(occ: seq<nat>, n: nat, width: nat) {
    exists j :: 0 <= j < |occ| && Straddles(occ[j], n, width)
  }

  lemma AnyStraddlesCons(m: nat, tail: seq<nat>, n: nat, width: nat)
    ensures AnyStraddles([m] + tail, n, width) <==> Straddles(m, n, width) || AnyStraddles(tail, n, width)
  {
    var occ := [m] + tail;
    assert occ[0] == m;
    if AnyStraddles(tail, n, width) {
      var j :| 0 <= j < |tail| && Straddles(tail[j], n, width);
      assert occ[j + 1] == tail[j];
    }
    if AnyStraddles(occ, n, width) && !Straddles(m, n, width) {
      var j :| 0 <= j < |occ| && Straddles(occ[j], n, width);
      assert j > 0 && occ[j] == tail[j - 1];
      assert Straddles(tail[j - 1], n, width);
    }
  }

  /** Matches that all start past a row of at least one cell never fail. */
  lemma NoneStraddles(occ: seq<nat>, m: nat, n: nat, width: nat)
    requires 0 < width < m
    requires forall j :: 0 <= j < |occ| ==> occ[j] >= m
    ensures !AnyStraddles(occ, n, width)
  {
  }

  /** Nothing is found from the end of the text. */
  lemma EndOfText(text: string, f: string)
    requires |f| >= 1
    ensures Occurrences(text, f, |text|) == []
  {
    assert text[|text|..] == [];
  }

  /** The outer loop as written: `None` once a run fails. */
  function ScanAsWritten(text: string, f: string, width: nat, hl: seq<bool>, p: nat): (r: Option<seq<bool>>)
    requires |f| >= 1 && p <= |text| && |hl| == width
    ensures r.Some? ==> |r.value| == width
    decreases |text| - p
  {
    var i := Index(text[p..], f);
    if i < 0 then Some(hl)
    else
      match MarkRunAsWritten(hl, p + i, |f|, width, |text|)
      case None => None
      case Some(run) => ScanAsWritten(text, f, width, run.0, run.1)
  }

  /** `drawRow`'s highlight mask as written; `None` when it indexes past the
      end of the mask. */
  function MaskAsWritten(text: string, f: string, width: nat): (r: Option<seq<bool>>)
    ensures r.Some? ==> |r.value| == width
    ensures r.None? <==> f != "" && AnyStraddles(Occurrences(text, f, 0), |f|, width)
    ensures r.Some? ==> r.value == Mask(text, f, width)
  {
    if f == "" then Some(seq(width, c => false))
    else
      ScanAsWrittenMeetsSpec(text, f, width, seq(width, c => false), 0);
      ScanAsWritten(text, f, width, seq(width, c => false), 0)
  }

  /** The search loop as written fails exactly when one of the occurrences
      still to be found holds cell `width` (or the row has no cells), and
      otherwise computes what the corrected loop computes. */
  lemma {:induction false} ScanAsWrittenMeetsSpec(text: string, f: string, width: nat, hl: seq<bool>, p: nat)
    requires |f| >= 1 && p <= |text| && |hl| == width
    ensures ScanAsWritten(text, f, width, hl, p).None? <==> AnyStraddles(Occurrences(text, f, p), |f|, width)
    ensures ScanAsWritten(text, f, width, hl, p).Some? ==> ScanAsWritten(text, f, width, hl, p).value == Scan(text, f, width, hl, p)
    decreases |text| - p
  {
    var i := Index(text[p..], f);
    var occ := Occurrences(text, f, p);
    if i < 0 {
      assert occ == [];
    } else {
      var m := p + i;
      var tail := Occurrences(text, f, m + |f|);
      assert occ == [m] + tail;
      AnyStraddlesCons(m, tail, |f|, width);
      match MarkRunAsWritten(hl, m, |f|, width, |text|)
      case None =>
      case Some(run) =>
        ScanAsWrittenMeetsSpec(text, f, width, run.0, run.1);
        if m + |f| > width {
          EndOfText(text, f);
          NoneStraddles(tail, m, |f|, width);
        }
    }
  }

  lemma {:induction false} MarkRunAgrees(hl: seq<bool>, p: nat, k: nat, width: nat, textLen: nat)
    requires |hl| == width && p + k <= width
    ensures MarkRunAsWritten(hl, p, k, width, textLen) == Some(MarkRun(hl, p, k, width, textLen))
    decreases k
  {
    if k > 0 {
      MarkRunAgrees(hl[p := true], p + 1, k - 1, width, textLen);
    }
  }

  lemma {:induction false} ScanAgrees(text: string, f: string, width: nat, hl: seq<bool>, p: nat)
    requires |f| >= 1 && p <= |text| <= width && |hl| == width
    ensures ScanAsWritten(text, f, width, hl, p) == Some(Scan(text, f, width, hl, p))
    decreases |text| - p
  {
    var i := Index(text[p..], f);
    if i >= 0 {
      MarkRunAgrees(hl, p + i, |f|, width, |text|);
      var run := MarkRun(hl, p + i, |f|, width, |text|);
      ScanAgrees(text, f, width, run.0, run.1);
    }
  }

  /** When the whole text fits in the row, the mask as written is the
      intended one. */
  lemma MaskAgreesWhenTextFits(text: string, f: string, width: nat)
    requires |text| <= width
    ensures MaskAsWritten(text, f, width) == Some(Mask(text, f, width))
  {
    if f != "" {
      ScanAgrees(text, f, width, seq(width, c => false), 0);
    }
  }

  // ---------------------------------------------------------------------------
  // Examples
  // ---------------------------------------------------------------------------

  lemma IndexIs(s: string, t: string, i: nat)
    requires OccursAt(s, t, i)
    requires forall j :: 0 <= j < i ==> !OccursAt(s, t, j)
    ensures Index(s, t) == i
  {
  }

  /** A position whose byte differs from the filter's first byte starts no
      occurrence. */
  lemma FirstByteDiffers(s: string, t: string, j: nat)
    requires |t| >= 1 && j < |s| && s[j] != t[0]
    ensures !OccursAt(s, t, j)
  {
    if j + |t| <= |s| {
      assert s[j..j + |t|][0] == s[j];
    }
  }

  /** One step of the search: a match `i` bytes on from `from`. */
  lemma OccurrencesStep(text: string, f: string, from: nat, i: nat)
    requires |f| >= 1 && from <= |text| && Index(text[from..], f) == i
    ensures from + i + |f| <= |text|
    ensures Occurrences(text, f, from) == [from + i] + Occurrences(text, f, from + i + |f|)
  {
  }

  /** Nothing is found from the end of the text. */
  lemma OccurrencesAtEnd(text: string, f: string)
    requires |f| >= 1
    ensures Occurrences(text, f, |text|) == []
  {
    assert text[|text|..] == [];
  }

  /** The mask of a non-empty filter in terms of the occurrences found. */
  lemma MaskOf(text: string, f: string, width: nat, occ: seq<nat>)
    requires f != "" && Occurrences(text, f, 0) == occ
    ensures Mask(text, f, width) == seq(width, c => Covered(occ, |f|, c) || (c == width - 1 && Crosses(occ, |f|, width)))
  {
  }

  /** A match ending exactly at the right edge of a five-cell row: as
      written, the match's last cell is written at index 5, past the end of
      the mask; as intended, the last visible cell is marked. */
  lemma EdgeMatch()
    ensures MaskAsWritten("abcdef", "f", 5) == None
    ensures Mask("abcdef", "f", 5) == [false, false, false, false, true]
  {
    EdgeOccurrences();
    EdgeAsWritten();
    MaskOf("abcdef", "f", 5, [5]);
    EdgeCells();
  }

  /** The cells a single one-byte match at 5 marks in a row of five. */
  lemma EdgeCells()
    ensures seq(5, c => Covered([5], 1, c) || (c == 4 && Crosses([5], 1, 5)))
      == [false, false, false, false, true]
  {
    SingleMatch(5, 1, 5);
    var m := seq(5, c => Covered([5], 1, c) || (c == 4 && Crosses([5], 1, 5)));
    assert forall c :: 0 <= c < 4 ==> !m[c];
    assert m[4];
  }

  /** In `abcdef` the only `f` is at 5. */
  lemma EdgeOccurrences()
    ensures Occurrences("abcdef", "f", 0) == [5]
    ensures Index("abcdef"[0..], "f") == 5
  {
    var text := "abcdef";
    EdgeFirst();
    assert text[0..] == text;
    IndexIs(text, "f", 5);
    OccurrencesStep(text, "f", 0, 5);
    OccurrencesAtEnd(text, "f");
  }

  lemma EdgeFirst()
    ensures OccursAt("abcdef", "f", 5)
    ensures forall j :: 0 <= j < 5 ==> !OccursAt("abcdef", "f", j)
  {
    var text := "abcdef";
    forall j | 0 <= j < 5 ensures !OccursAt(text, "f", j) {
      FirstByteDiffers(text, "f", j);
    }
    assert text[5..6] == "f";
  }

  /** As written, the search finds the `f` at 5 and writes its cell at
      index 5 of a five-cell mask. */
  lemma EdgeAsWritten()
    requires Index("abcdef"[0..], "f") == 5
    ensures MaskAsWritten("abcdef", "f", 5) == None
  {
    var hl := seq(5, c => false);
    assert MarkRunAsWritten(hl, 5, 1, 5, 6) == None;
  }

  lemma AlphaBetaOccurrences()
    ensures Occurrences("alpha-beta", "beta", 0) == [6]
  {
    var text := "alpha-beta";
    AlphaBetaFirst();
    assert text[0..] == text;
    IndexIs(text, "beta", 6);
    OccurrencesStep(text, "beta", 0, 6);
    OccurrencesAtEnd(text, "beta");
  }

  lemma AlphaBetaFirst()
    ensures OccursAt("alpha-beta", "beta", 6)
    ensures forall j :: 0 <= j < 6 ==> !OccursAt("alpha-beta", "beta", j)
  {
    var text := "alpha-beta";
    forall j | 0 <= j < 6 ensures !OccursAt(text, "beta", j) {
      FirstByteDiffers(text, "beta", j);
    }
    assert text[6..10] == "beta";
  }

  /** `alpha-beta` filtered by `beta` on a row of ten cells: cells 6 to 9
      are highlighted, and the code as written agrees. */
  lemma AlphaBeta()
    ensures Mask("alpha-beta", "beta", 10) == [false, false, false, false, false, false, true, true, true, true]
    ensures MaskAsWritten("alpha-beta", "beta", 10) == Some(Mask("alpha-beta", "beta", 10))
  {
    AlphaBetaOccurrences();
    MaskOf("alpha-beta", "beta", 10, [6]);
    AlphaBetaCells();
    MaskAgreesWhenTextFits("alpha-beta", "beta", 10);
  }

  /** The cells a single four-byte match at 6 covers in a row of ten. */
  lemma AlphaBetaCells()
    ensures seq(10, c => Covered([6], 4, c) || (c == 9 && Crosses([6], 4, 10)))
      == [false, false, false, false, false, false, true, true, true, true]
  {
    SingleMatch(6, 4, 10);
    var m := seq(10, c => Covered([6], 4, c) || (c == 9 && Crosses([6], 4, 10)));
    assert forall c :: 0 <= c < 6 ==> !m[c];
    assert forall c :: 6 <= c < 10 ==> m[c];
  }

  /** With a single match, a cell is covered when it lies inside it. */
  lemma SingleMatch(m: nat, n: nat, width: int)
    ensures forall c :: Covered([m], n, c) <==> m <= c < m + n
    ensures Crosses([m], n, width) <==> m + n > width
  {
    assert [m][1..] == [];
  }
}
