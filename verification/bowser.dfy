/**
  The dashboard controller (`Browser`): the cursor over the newest-first
  view of the history buffer, follow mode, the filter and its editing mode,
  and the popup. Key events and arriving Signals are transitions from one
  state to the next; drawing is left out.
*/
module Dashboard {
  import opened Wrappers
  import opened Text
  import opened Bucket
  import opened Keys
  import Popup

  datatype Browser = Browser(
    bucket: BucketFixedSize,
    cursor: int,
    width: int,
    height: int,
    follow: bool,
    inputFilter: bool,
    filter: string,
    popup: Popup.PopUp)

  /** What every reachable state satisfies. The cursor is -1 (no selection)
      or a row of the view, and following always means no selection. A
      screen of height 0 would let the cursor reach -2 and make Enter read
      the buffer at a negative index. */
  predicate Valid(b: Browser) {
    && Bucket.Valid(b.bucket)
    && b.width >= 0 && b.height >= 1
    && b.cursor >= -1
    && (b.follow ==> b.cursor == -1)
  }

  /** `newBrowser` on a `w` by `h` screen: following, nothing selected, not
      editing, popup hidden. */
  function NewBrowser(bucket: BucketFixedSize, w: int, h: int, filter: string): (b: Browser)
    requires Bucket.Valid(bucket) && w >= 0 && h >= 1
    ensures Valid(b)
    ensures b.follow && b.cursor == -1 && !b.inputFilter && !b.popup.visible
    ensures b.filter == filter && b.bucket == bucket
  {
    Browser(bucket, -1, w, h, true, false, filter, Popup.NewPopUp(w, h))
  }

  // ---------------------------------------------------------------------------
  // Arriving Signals
  // ---------------------------------------------------------------------------

  /** The filter test shared by the dashboard and the non-interactive mode:
      the filter occurs in the description or in the summary. */
  predicate Matches(s: Signal, filter: string) {
    Contains(s.description, filter) || Contains(s.summary, filter)
  }

  /** The consumer's admission test: only while following, and only Signals
      the filter matches. */
  predicate Admits(b: Browser, s: Signal) {
    b.follow && Matches(s, b.filter)
  }

  /** The consumer's step for one arriving Signal. */
  function Receive(b: Browser, s: Signal): (r: Browser)
    requires Valid(b)
    ensures Valid(r)
    ensures Admits(b, s) ==> Bucket.Get(r.bucket, 0) == Some(s) && Counter(r.bucket) == Counter(b.bucket) + 1
    ensures !Admits(b, s) ==> r == b
    ensures r.(bucket := b.bucket) == b
  {
    if Admits(b, s) then b.(bucket := Append(b.bucket, s)) else b
  }

  /** No Signal the normaliser builds has a description, so admission comes
      down to: following, and the filter is empty or occurs in the summary. */
  lemma AdmitsWithoutDescription(b: Browser, s: Signal)
    requires s.description == ""
    ensures Admits(b, s) <==> b.follow && (b.filter == "" || Contains(s.summary, b.filter))
  {
    ContainsEmpty(s.summary, b.filter);
    ContainsEmpty(b.filter, b.filter);
  }

  /** A Signal summarised `X` while following: admitted under the filters
      `` and `X`, refused under `Y`. */
  lemma AdmissionExample(b: Browser, s: Signal)
    requires b.follow && s.description == "" && s.summary == "X"
    ensures b.filter == "" ==> Admits(b, s)
    ensures b.filter == "X" ==> Admits(b, s)
    ensures b.filter == "Y" ==> !Admits(b, s)
  {
    AdmitsWithoutDescription(b, s);
    if b.filter == "X" {
      assert OccursAt(s.summary, b.filter, 0);
    }
    if b.filter == "Y" {
      forall i | 0 <= i <= 1 ensures !OccursAt(s.summary, b.filter, i) {
        if i == 0 { assert s.summary[0..1] == "X"; }
      }
    }
  }

  // ---------------------------------------------------------------------------
  // Keys
  // ---------------------------------------------------------------------------

  /** The new state and whether the key was consumed. */
  datatype Outcome = Outcome(state: Browser, handled: bool)

  /** The highest row the cursor may reach: the oldest Signal held, or the
      top row of the view above the status bar, whichever is lower. */
  function Range(b: Browser): int {
    if b.height - 2 < Len(b.bucket) - 1 then b.height - 2 else Len(b.bucket) - 1
  }

  function Min(a: int, b: int): int { if a < b then a else b }

  function Max(a: int, b: int): int { if a < b then b else a }

  /** `eventKey`. A visible popup gets the key first; otherwise the branches
      are tried in this order: Down, Up, `F` when not following, Escape,
      `/` when not editing, Enter, Backspace while editing, and a printable
      character while editing. The result is the new state and whether the
      key was consumed. */
  function EventKey(b: Browser, k: Key): (o: Outcome)
    requires Valid(b)
    ensures Valid(o.state)
    ensures o.state.bucket == b.bucket && o.state.width == b.width && o.state.height == b.height
    // A visible popup takes every key: Escape closes it and is consumed,
    // anything else is passed on with nothing changed.
    ensures b.popup.visible ==> (o.handled <==> k == Escape)
    ensures b.popup.visible && k == Escape ==> o.state == b.(popup := b.popup.(visible := false))
    ensures b.popup.visible && k != Escape ==> o.state == b
    // Down moves the selection one row toward the newest Signal, stopping at
    // the newest; Up moves it toward older ones, never past the oldest held
    // nor above the view. Both stop following.
    ensures !b.popup.visible && k == Down ==>
              o == Outcome(b.(cursor := Max(b.cursor - 1, 0), follow := false), true)
    ensures !b.popup.visible && k == Up ==>
              && o == Outcome(b.(cursor := Min(b.cursor + 1, Range(b)), follow := false), true)
              && -1 <= o.state.cursor <= Range(b)
    // `F` when not following resumes following with nothing selected; it is
    // not typed into the filter, even while editing.
    ensures !b.popup.visible && k == Rune('F') && !b.follow ==>
              o == Outcome(b.(follow := true, cursor := -1), true)
    // Escape: editing ends first; otherwise following stops and the
    // selection is cleared; otherwise the key is not consumed.
    ensures !b.popup.visible && k == Escape && b.inputFilter ==> o == Outcome(b.(inputFilter := false), true)
    ensures !b.popup.visible && k == Escape && !b.inputFilter && b.follow ==>
              o == Outcome(b.(follow := false, cursor := -1), true)
    ensures !b.popup.visible && k == Escape && !b.inputFilter && !b.follow ==> o == Outcome(b, false)
    // `/` starts editing when not editing.
    ensures !b.popup.visible && k == Rune('/') && !b.inputFilter ==> o == Outcome(b.(inputFilter := true), true)
    // Enter ends editing; otherwise, with a held Signal selected, it opens
    // the popup on that Signal's property lists (and reports the key as not
    // consumed); otherwise nothing happens.
    ensures !b.popup.visible && k == Enter && b.inputFilter ==> o == Outcome(b.(inputFilter := false), true)
    ensures !b.popup.visible && k == Enter && !b.inputFilter && 0 <= b.cursor < Len(b.bucket) ==>
              && !o.handled && o.state.popup.visible
              && o.state.popup.data == Bucket.Get(b.bucket, b.cursor).value.properties
              && o.state.(popup := b.popup) == b
    ensures !b.popup.visible && k == Enter && !b.inputFilter && !(0 <= b.cursor < Len(b.bucket)) ==>
              o == Outcome(b, false)
    // While editing, Backspace drops the last character of the filter and a
    // printable character is appended to it, unless it is an `F` that
    // resumes following. Outside editing no key changes the filter.
    ensures !b.popup.visible && k == Backspace2 && b.inputFilter ==>
              o == Outcome(b.(filter := if |b.filter| > 0 then b.filter[..|b.filter| - 1] else b.filter), false)
    ensures !b.popup.visible && k.Rune? && !IsControl(k.ch) && b.inputFilter && !(k.ch == 'F' && !b.follow) ==>
              o == Outcome(b.(filter := b.filter + [k.ch]), true)
    ensures !b.inputFilter ==> o.state.filter == b.filter
  {
    if b.popup.visible then
      var (p, h) := Popup.EventKey(b.popup, k);
      Outcome(b.(popup := p), h)
    else if k == Down then
      Outcome(b.(cursor := if b.cursor > 0 then b.cursor - 1 else 0, follow := false), true)
    else if k == Up then
      var rng := Range(b);
      Outcome(b.(cursor := if b.cursor < rng then b.cursor + 1 else rng, follow := false), true)
    else if RuneOf(k) == 'F' && !b.follow then
      Outcome(b.(follow := true, cursor := -1), true)
    else if k == Escape then
      if b.inputFilter then Outcome(b.(inputFilter := false), true)
      else if b.follow then Outcome(b.(follow := false, cursor := -1), true)
      else Outcome(b, false)
    else if RuneOf(k) == '/' && !b.inputFilter then
      Outcome(b.(inputFilter := true), true)
    else if k == Enter then
      if b.inputFilter then Outcome(b.(inputFilter := false), true)
      else if b.cursor != -1 then
        match Bucket.Get(b.bucket, b.cursor)
        case Some(s) => Outcome(b.(popup := Popup.Show(b.popup, s.properties)), false)
        case None => Outcome(b, false)
      else Outcome(b, false)
    else if k == Backspace2 && b.inputFilter then
      if |b.filter| > 0 then Outcome(b.(filter := b.filter[..|b.filter| - 1]), false)
      else Outcome(b, false)
    else if !IsControl(RuneOf(k)) && b.inputFilter then
      Outcome(b.(filter := b.filter + [RuneOf(k)]), true)
    else Outcome(b, false)
  }

  /** The state after pressing `k` `n` times. */
  function Press(b: Browser, k: Key, n: nat): (r: Browser)
    requires Valid(b)
    ensures Valid(r) && r.bucket == b.bucket && r.height == b.height
  {
    if n == 0 then b else EventKey(Press(b, k, n - 1), k).state
  }

  /** Pressing Up `n` times from a row within range moves `n` rows, up to
      the range and no further. */
  lemma {:induction false} UpRepeatedly(b: Browser, n: nat)
    requires Valid(b) && !b.popup.visible && b.cursor <= Range(b)
    ensures !Press(b, Up, n).popup.visible
    ensures Press(b, Up, n).cursor == Min(b.cursor + n, Range(b))
  {
    if n > 0 {
      UpRepeatedly(b, n - 1);
    }
  }

  /** With three Signals held, a view of ten rows lets Up reach the third
      Signal and no further; a view of two rows stops at the second. */
  lemma CursorClamp(b: Browser, n: nat)
    requires Valid(b) && !b.popup.visible && b.cursor == -1 && Len(b.bucket) == 3
    ensures b.height == 11 ==> Press(b, Up, n).cursor == Min(n - 1, 2)
    ensures b.height == 3 ==> Press(b, Up, n).cursor == Min(n - 1, 1)
  {
    UpRepeatedly(b, n);
  }

  /** `resize`: the new screen size, and the popup's `resize` as the code
      has it, whose far corner stays put when it lies exactly five cells
      past the new size. */
  function Resize(b: Browser, w: int, h: int): (r: Browser)
    requires Valid(b) && w >= 0 && h >= 1
    ensures Valid(r)
    ensures r.width == w && r.height == h
    ensures r.popup == Popup.ResizeAsWritten(b.popup, w, h)
    ensures r.(width := b.width, height := b.height, popup := b.popup) == b
  {
    b.(width := w, height := h, popup := Popup.ResizeAsWritten(b.popup, w, h))
  }

  /** Except for a popup whose far corner lies exactly five cells past the
      new size, the resized dashboard's popup ends five cells in from the
      new edges, as the corrected `resize` puts it. */
  lemma ResizeMovesPopup(b: Browser, w: int, h: int)
    requires Valid(b) && w >= 0 && h >= 1
    ensures (b.popup.x1 != w + 5 || b.popup.y1 != h + 5) <==> Resize(b, w, h).popup == Popup.Resize(b.popup, w, h)
  {
    if b.popup.x1 != w + 5 || b.popup.y1 != h + 5 {
      Popup.ResizeAgrees(b.popup, w, h);
    }
  }
}
