/**
  Property lists (`PropsContainer`): a label plus (key, value) string pairs,
  filled by typed `add*` helpers and read back through `get`, which sorts the
  pairs with a case-insensitive, dot-segment-wise key comparator.
*/
module Props {
  import opened Text
  import opened Sorting

  /** `pcommon.Timestamp`: nanoseconds since the Unix epoch; 0 means unknown. */
  type Timestamp = nat

  /** Go's `uint32`. */
  type UInt32 = x: int | 0 <= x < 0x1_0000_0000

  /** An attribute value (`pcommon.Value`). Doubles, byte strings, maps and
      slices are carried as the text the pdata library renders for them. */
  datatype AttrValue = EmptyValue | Str(s: string) | Int(i: int) | Bool(b: bool) | Rendered(text: string)

  /** One entry of an attribute map (`pcommon.Map`), which keeps insertion order. */
  datatype Attr = Attr(key: string, value: AttrValue)

  /** `pcommon.Value.AsString`. */
  function AsString(v: AttrValue): string {
    match v
    case EmptyValue => ""
    case Str(s) => s
    case Int(i) => IntToDecimal(i)
    case Bool(b) => if b then "true" else "false"
    case Rendered(t) => t
  }

  /** One row of a property list. */
  datatype Pair = Pair(key: string, value: string)

  /** A labelled property list; `props` is kept in insertion order. */
  datatype PropsContainer = PropsContainer(name: string, props: seq<Pair>)

  /** `newPropsContainer`: an empty list with the given label. */
  function NewProps(name: string): (c: PropsContainer)
    ensures c.name == name && c.props == []
  {
    PropsContainer(name, [])
  }

  /** Appends one pair at the end; the label and every earlier pair are untouched. */
  function Add(c: PropsContainer, key: string, value: string): (r: PropsContainer)
    ensures r.name == c.name
    ensures |r.props| == |c.props| + 1
    ensures r.props[..|c.props|] == c.props
    ensures r.props[|c.props|] == Pair(key, value)
  {
    c.(props := c.props + [Pair(key, value)])
  }

  /** `addString`. */
  function AddString(c: PropsContainer, name: string, value: string): PropsContainer {
    Add(c, name, value)
  }

  /** The text `addBool` stores. */
  function BoolText(b: bool): string {
    if b then "True" else "False"
  }

  /** `addBool`. */
  function AddBool(c: PropsContainer, name: string, value: bool): PropsContainer {
    Add(c, name, BoolText(value))
  }

  /** `addUInt32`: `%d` of the value. */
  function AddUInt32(c: PropsContainer, name: string, value: UInt32): PropsContainer {
    Add(c, name, NatToDecimal(value))
  }

  /** `addTimestamp`: "N/A" for the zero timestamp, otherwise the library's
      rendering of the time, passed in as `timeText`. */
  function AddTimestamp(c: PropsContainer, name: string, value: Timestamp, timeText: Timestamp -> string): PropsContainer {
    Add(c, name, if value > 0 then timeText(value) else "N/A")
  }

  /** The key `addMap` stores for attribute `k` under `prefix`. */
  function QualifiedKey(prefix: string, k: string): string {
    if |prefix| > 0 then prefix + "." + k else k
  }

  /** `addMap`: one pair per attribute, in the map's order, keyed by the
      prefixed attribute name and valued by the attribute's text. */
  function AddMap(c: PropsContainer, attrs: seq<Attr>, prefix: string): (r: PropsContainer)
    ensures r.name == c.name
    ensures |r.props| == |c.props| + |attrs|
    ensures r.props[..|c.props|] == c.props
    ensures forall i :: 0 <= i < |attrs| ==>
              r.props[|c.props| + i] == Pair(QualifiedKey(prefix, attrs[i].key), AsString(attrs[i].value))
  {
    c.(props := c.props + seq(|attrs|, i requires 0 <= i < |attrs| =>
                                 Pair(QualifiedKey(prefix, attrs[i].key), AsString(attrs[i].value))))
  }

  /** The pairs `addMap` appends do not depend on what the list held before. */
  lemma AddMapAppends(c: PropsContainer, attrs: seq<Attr>, prefix: string)
    ensures AddMap(c, attrs, prefix).props == c.props + AddMap(NewProps(""), attrs, prefix).props
  {
    var tail := seq(|attrs|, i requires 0 <= i < |attrs| =>
                      Pair(QualifiedKey(prefix, attrs[i].key), AsString(attrs[i].value)));
    assert [] + tail == tail;
  }

  /** Reads a stored boolean text back. */
  function ParseBoolText(s: string): bool {
    s == "True"
  }

  /** The typed helpers store text from which the typed value can be read back. */
  lemma RenderedValuesRoundTrip(c: PropsContainer, name: string, b: bool, u: UInt32, ts: Timestamp, timeText: Timestamp -> string)
    ensures ParseBoolText(AddBool(c, name, b).props[|c.props|].value) == b
    ensures BoolText(b) == "True" || BoolText(b) == "False"
    ensures ParseDecimal(AddUInt32(c, name, u).props[|c.props|].value) == u
    ensures var v := AddTimestamp(c, name, ts, timeText).props[|c.props|].value;
            && (timeText(ts) != "N/A" ==> (v == "N/A" <==> ts == 0))
            && (v != "N/A" ==> v == timeText(ts))
  {
    DecimalRoundTrip(u);
  }

  // ---------------------------------------------------------------------------
  // The comparator of `get`
  // ---------------------------------------------------------------------------

  /** The lower-cased dot-separated segments of a key. */
  function Segments(key: string): seq<string> {
    Split(ToLower(key), '.')
  }

  /** The comparator's loop over segment lists: the first differing segment
      decides; when one list runs out first the keys compare equal. */
  predicate SegLess(a: seq<string>, b: seq<string>) {
    if |a| == 0 || |b| == 0 then false
    else if a[0] != b[0] then StrLess(a[0], b[0])
    else SegLess(a[1..], b[1..])
  }

  /** The `less` function `get` hands to `sort.Slice`. */
  predicate KeyLess(p: Pair, q: Pair) {
    SegLess(Segments(p.key), Segments(q.key))
  }

  lemma {:induction false} SegLessIrreflexive(a: seq<string>)
    ensures !SegLess(a, a)
  {
    if |a| > 0 {
      SegLessIrreflexive(a[1..]);
    }
  }

  lemma {:induction false} SegLessAsymmetric(a: seq<string>, b: seq<string>)
    ensures SegLess(a, b) ==> !SegLess(b, a)
  {
    if |a| > 0 && |b| > 0 {
      if a[0] == b[0] {
        SegLessAsymmetric(a[1..], b[1..]);
      } else {
        StrLessAsymmetric(a[0], b[0]);
      }
    }
  }

  lemma {:induction false} SegLessTransitive(a: seq<string>, b: seq<string>, c: seq<string>)
    requires SegLess(a, b) && SegLess(b, c)
    ensures SegLess(a, c)
  {
    if a[0] == b[0] && b[0] == c[0] {
      SegLessTransitive(a[1..], b[1..], c[1..]);
    } else if a[0] != b[0] && b[0] != c[0] {
      StrLessTransitive(a[0], b[0], c[0]);
      StrLessIrreflexive(a[0]);
    } else if a[0] == b[0] {
      assert StrLess(a[0], c[0]);
    } else {
      assert StrLess(a[0], c[0]);
    }
  }

  /** Keys one of whose segment lists is a prefix of the other's compare equal. */
  lemma {:induction false} SegPrefixIncomparable(a: seq<string>, b: seq<string>)
    requires a <= b
    ensures !SegLess(a, b) && !SegLess(b, a)
  {
    if |a| > 0 {
      SegPrefixIncomparable(a[1..], b[1..]);
    }
  }

  /** Segment lists neither of which is a prefix of the other are ordered. */
  lemma {:induction false} SegLessTotal(a: seq<string>, b: seq<string>)
    requires !(a <= b) && !(b <= a)
    ensures SegLess(a, b) || SegLess(b, a)
  {
    if a[0] == b[0] {
      assert !(a[1..] <= b[1..]) && !(b[1..] <= a[1..]);
      SegLessTotal(a[1..], b[1..]);
    } else {
      StrLessTotal(a[0], b[0]);
    }
  }

  /** The comparator is a strict partial order: irreflexive, asymmetric and
      transitive; keys related by segment prefix compare equal both ways. */
  lemma KeyLessStrictPartialOrder(p: Pair, q: Pair, s: Pair)
    ensures !KeyLess(p, p)
    ensures KeyLess(p, q) ==> !KeyLess(q, p)
    ensures KeyLess(p, q) && KeyLess(q, s) ==> KeyLess(p, s)
    ensures Segments(p.key) <= Segments(q.key) ==> !KeyLess(p, q) && !KeyLess(q, p)
  {
    SegLessIrreflexive(Segments(p.key));
    SegLessAsymmetric(Segments(p.key), Segments(q.key));
    if KeyLess(p, q) && KeyLess(q, s) {
      SegLessTransitive(Segments(p.key), Segments(q.key), Segments(s.key));
    }
    if Segments(p.key) <= Segments(q.key) {
      SegPrefixIncomparable(Segments(p.key), Segments(q.key));
    }
  }

  /** Two keys the comparator can tell apart reliably: their segment lists are
      equal, or neither is a prefix of the other. */
  predicate Distinguishable(a: string, b: string) {
    Segments(a) == Segments(b) || (!(Segments(a) <= Segments(b)) && !(Segments(b) <= Segments(a)))
  }

  /** On mutually distinguishable keys, comparing equal is transitive (the
      comparator is a strict weak order there). */
  lemma NegativelyTransitive(a: Pair, b: Pair, c: Pair)
    requires Distinguishable(a.key, b.key) && Distinguishable(b.key, c.key)
    requires KeyLess(a, c)
    ensures KeyLess(a, b) || KeyLess(b, c)
  {
    var sa, sb, sc := Segments(a.key), Segments(b.key), Segments(c.key);
    if sb == sa || sb == sc {
    } else {
      SegLessTotal(sa, sb);
      SegLessTotal(sb, sc);
      if !SegLess(sa, sb) && !SegLess(sb, sc) {
        SegLessTransitive(sa, sc, sb);
        SegLessAsymmetric(sa, sb);
      }
    }
  }

  // ---------------------------------------------------------------------------
  // `get`: Go's insertion sort with that comparator
  // ---------------------------------------------------------------------------

  /** `get`: the stored pairs, sorted by the comparator. */
  function Get(c: PropsContainer): (r: seq<Pair>)
    ensures |r| == |c.props|
  {
    var r := SortBy(c.props, KeyLess);
    SortByPermutes(c.props, KeyLess);
    assert |r| == |multiset(r)|;
    r
  }

  /** `get` returns exactly the stored pairs, reordered. */
  lemma GetPermutes(c: PropsContainer)
    ensures multiset(Get(c)) == multiset(c.props)
  {
    SortByPermutes(c.props, KeyLess);
  }

  /** A pair added to a list shows up in `get`, alongside everything that was there. */
  lemma AddThenGet(c: PropsContainer, key: string, value: string)
    ensures multiset(Get(Add(c, key, value))) == multiset(Get(c)) + multiset{Pair(key, value)}
  {
    GetPermutes(c);
    GetPermutes(Add(c, key, value));
    assert Add(c, key, value).props == c.props + [Pair(key, value)];
  }

  /** The comparator never holds both ways, on any list of pairs. */
  lemma KeyLessAsymmetricOn(s: seq<Pair>)
    ensures AsymmetricOn(s, KeyLess)
  {
    forall p, q | p in s && q in s && KeyLess(p, q) ensures !KeyLess(q, p) {
      SegLessAsymmetric(Segments(p.key), Segments(q.key));
    }
  }

  /** Every key of `s` is distinguishable from every other. */
  predicate PrefixFree(s: seq<Pair>) {
    forall p, q :: p in s && q in s ==> Distinguishable(p.key, q.key)
  }

  /** On prefix-free keys the comparator is a strict weak order. */
  lemma PrefixFreeWeakOrder(s: seq<Pair>)
    requires PrefixFree(s)
    ensures WeakOrderOn(s, KeyLess)
  {
    KeyLessAsymmetricOn(s);
    forall a, b, c | a in s && b in s && c in s && KeyLess(a, c)
      ensures KeyLess(a, b) || KeyLess(b, c)
    {
      NegativelyTransitive(a, b, c);
    }
  }

  /** Whatever the keys, `get` leaves no two neighbours out of order. */
  lemma GetLocallySorted(c: PropsContainer)
    ensures LocallySorted(Get(c), KeyLess)
  {
    KeyLessAsymmetricOn(c.props);
    SortLocallySorted(c.props, KeyLess);
  }

  /** `get` sorts in place; calling it again returns the same order. */
  lemma GetIdempotent(c: PropsContainer)
    ensures Get(c.(props := Get(c))) == Get(c)
  {
    GetLocallySorted(c);
    SortKeepsLocallySorted(Get(c), KeyLess);
  }

  /** When no key is a segment prefix of another (keys with equal segments
      aside), `get` returns the pairs in ascending order. */
  lemma GetSortedWhenPrefixFree(c: PropsContainer)
    requires PrefixFree(c.props)
    ensures Sorted(Get(c), KeyLess)
  {
    PrefixFreeWeakOrder(c.props);
    SortSorted(c.props, KeyLess);
  }
}
