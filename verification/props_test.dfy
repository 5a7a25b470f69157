/**
  The orders `get` produces for the two property lists of the repository's
  property-list test, and the examples that pin down the comparator.
*/
module PropsTest {
  import opened Text
  import opened Props
  import opened Sorting

  lemma LowerNoUpper(s: string)
    requires forall i :: 0 <= i < |s| ==> !('A' <= s[i] <= 'Z')
    ensures ToLower(s) == s
  {
  }

  lemma {:induction false} LowerJoin(parts: seq<string>)
    requires |parts| >= 1
    requires forall i, j :: 0 <= i < |parts| && 0 <= j < |parts[i]| ==> !('A' <= parts[i][j] <= 'Z')
    ensures ToLower(Join(parts, '.')) == Join(parts, '.')
  {
    if |parts| > 1 {
      LowerJoin(parts[1..]);
    }
  }

  /** A key made of lower-case, dot-free parts has exactly those segments. */
  lemma SegmentsOfLowerParts(parts: seq<string>)
    requires |parts| >= 1
    requires forall i :: 0 <= i < |parts| ==> '.' !in parts[i]
    requires forall i, j :: 0 <= i < |parts| && 0 <= j < |parts[i]| ==> !('A' <= parts[i][j] <= 'Z')
    ensures Segments(Join(parts, '.')) == parts
  {
    LowerJoin(parts);
    SplitJoin(parts, '.');
  }

  lemma SegmentsOfSortTest(x: string, y: string)
    requires x in ["a", "b"] && y in ["a", "c", "d", "e"]
    ensures Segments("sort.test." + x + "." + y) == ["sort", "test", x, y]
  {
    var p := ["sort", "test", x, y];
    assert Join(p, '.') == "sort.test." + x + "." + y by {
      assert p[1..][1..][1..] == [y];
      assert Join(p[2..], '.') == x + "." + y;
      assert Join(p[1..], '.') == "test." + x + "." + y;
    }
    SegmentsOfLowerParts(p);
  }

  lemma SegmentsOfSortTestACA()
    ensures Segments("sort.test.a.c.a") == ["sort", "test", "a", "c", "a"]
  {
    var p := ["sort", "test", "a", "c", "a"];
    assert Join(p, '.') == "sort.test.a.c.a" by {
      assert p[1..][1..][1..][1..] == ["a"];
    }
    SegmentsOfLowerParts(p);
  }

  lemma SegmentsOfSingle(k: string)
    requires k in ["props1", "props2", "props3", "props4", "rattr1", "rattr2"]
    ensures Segments(k) == [k]
  {
    LowerNoUpper(k);
    SplitNoSep(k, '.');
  }

  lemma SegmentsOfAttributes(k: string)
    requires k in ["lattr1", "lattr2"]
    ensures Segments("Attributes." + k) == ["attributes", k]
  {
    assert ToLower("Attributes." + k) == "attributes." + k;
    var p := ["attributes", k];
    assert Join(p, '.') == "attributes." + k;
    SplitJoin(p, '.');
  }

  /** Keys without dots or capitals compare as Go strings. */
  lemma SingleSegmentOrder(p: Pair, q: Pair)
    requires Segments(p.key) == [p.key] && Segments(q.key) == [q.key]
    ensures KeyLess(p, q) == StrLess(p.key, q.key)
  {
    if p.key == q.key {
      StrLessIrreflexive(p.key);
      SegLessIrreflexive([p.key]);
    }
  }

  // ---------------------------------------------------------------------------
  // The insertion steps, for any comparator with the orderings the keys have
  // ---------------------------------------------------------------------------

  /** One insertion step whose result is written out. */
  lemma Step<T>(s: seq<T>, x: T, less: (T, T) -> bool, sorted: seq<T>, k: nat, s': seq<T>, sorted': seq<T>)
    requires SortBy(s, less) == sorted
    requires k <= |sorted|
    requires forall j :: k <= j < |sorted| ==> less(x, sorted[j])
    requires k > 0 ==> !less(x, sorted[k - 1])
    requires s' == s + [x] && sorted' == sorted[..k] + [x] + sorted[k..]
    ensures SortBy(s', less) == sorted'
  {
    SortSnoc(s, x, less, sorted, k);
  }

  lemma ResourceStepsHead<T>(r1: T, r2: T, p1: T, p4: T, less: (T, T) -> bool)
    requires !less(r2, r1)
    requires less(p1, r1) && less(p1, r2)
    requires less(p4, r1) && less(p4, r2) && !less(p4, p1)
    ensures SortBy([r1, r2, p1, p4], less) == [p1, p4, r1, r2]
  {
    assert SortBy([r1], less) == [r1] by {
      Step([], r1, less, [], 0, [r1], [r1]);
    }
    assert SortBy([r1, r2], less) == [r1, r2] by {
      Step([r1], r2, less, [r1], 1, [r1, r2], [r1, r2]);
    }
    assert SortBy([r1, r2, p1], less) == [p1, r1, r2] by {
      Step([r1, r2], p1, less, [r1, r2], 0, [r1, r2, p1], [p1, r1, r2]);
    }
    Step([r1, r2, p1], p4, less, [p1, r1, r2], 1, [r1, r2, p1, p4], [p1, p4, r1, r2]);
  }

  /** The insertion steps `get` takes on the "resource" list of the test. */
  lemma ResourceSteps<T>(r1: T, r2: T, p1: T, p4: T, p3: T, p2: T, less: (T, T) -> bool)
    requires !less(r2, r1)
    requires less(p1, r1) && less(p1, r2)
    requires less(p4, r1) && less(p4, r2) && !less(p4, p1)
    requires less(p3, r1) && less(p3, r2) && less(p3, p4) && !less(p3, p1)
    requires less(p2, r1) && less(p2, r2) && less(p2, p4) && less(p2, p3) && !less(p2, p1)
    ensures SortBy([r1, r2, p1, p4, p3, p2], less) == [p1, p2, p3, p4, r1, r2]
  {
    assert SortBy([r1, r2, p1, p4, p3], less) == [p1, p3, p4, r1, r2] by {
      ResourceStepsHead(r1, r2, p1, p4, less);
      Step([r1, r2, p1, p4], p3, less, [p1, p4, r1, r2], 1, [r1, r2, p1, p4, p3], [p1, p3, p4, r1, r2]);
    }
    Step([r1, r2, p1, p4, p3], p2, less, [p1, p3, p4, r1, r2], 1, [r1, r2, p1, p4, p3, p2], [p1, p2, p3, p4, r1, r2]);
  }

  // ---------------------------------------------------------------------------
  // The "resource" list of the test
  // ---------------------------------------------------------------------------

  /** The "resource" list: map attributes first, then the typed helpers;
      `get` returns them in key order. */
  lemma ResourceListOrder(timeText: Timestamp -> string)
    ensures
      var res := AddTimestamp(AddUInt32(AddBool(AddString(
                   AddMap(NewProps("resource"), [Attr("rattr1", Str("1")), Attr("rattr2", Int(2))], ""),
                   "props1", "1"), "props4", true), "props3", 200), "props2", 0, timeText);
      Get(res) == [Pair("props1", "1"), Pair("props2", "N/A"), Pair("props3", "200"),
                   Pair("props4", "True"), Pair("rattr1", "1"), Pair("rattr2", "2")]
  {
    ResourceListContents(timeText);
    var r1, r2 := Pair("rattr1", "1"), Pair("rattr2", "2");
    var p1, p4, p3, p2 := Pair("props1", "1"), Pair("props4", "True"), Pair("props3", "200"), Pair("props2", "N/A");
    ResourceKeyOrder(r1, r2, p1, p4, p3, p2);
    ResourceSteps(r1, r2, p1, p4, p3, p2, KeyLess);
  }

  lemma ResourceListContents(timeText: Timestamp -> string)
    ensures
      var res := AddTimestamp(AddUInt32(AddBool(AddString(
                   AddMap(NewProps("resource"), [Attr("rattr1", Str("1")), Attr("rattr2", Int(2))], ""),
                   "props1", "1"), "props4", true), "props3", 200), "props2", 0, timeText);
      res.props == [Pair("rattr1", "1"), Pair("rattr2", "2"), Pair("props1", "1"),
                    Pair("props4", "True"), Pair("props3", "200"), Pair("props2", "N/A")]
  {
    var m := AddMap(NewProps("resource"), [Attr("rattr1", Str("1")), Attr("rattr2", Int(2))], "");
    assert AsString(Int(2)) == "2";
    assert m.props == [Pair("rattr1", "1"), Pair("rattr2", "2")];
    assert NatToDecimal(200) == "200" by {
      assert NatToDecimal(2) == "2";
      assert NatToDecimal(20) == "20";
    }
  }

  lemma ResourceKeyOrder(r1: Pair, r2: Pair, p1: Pair, p4: Pair, p3: Pair, p2: Pair)
    requires r1.key == "rattr1" && r2.key == "rattr2"
    requires p1.key == "props1" && p2.key == "props2" && p3.key == "props3" && p4.key == "props4"
    ensures !KeyLess(r2, r1)
    ensures KeyLess(p1, r1) && KeyLess(p1, r2)
    ensures KeyLess(p4, r1) && KeyLess(p4, r2) && !KeyLess(p4, p1)
    ensures KeyLess(p3, r1) && KeyLess(p3, r2) && KeyLess(p3, p4) && !KeyLess(p3, p1)
    ensures KeyLess(p2, r1) && KeyLess(p2, r2) && KeyLess(p2, p4) && KeyLess(p2, p3) && !KeyLess(p2, p1)
  {
    SegmentsOfSingle("props1");
    SegmentsOfSingle("props2");
    SegmentsOfSingle("props3");
    SegmentsOfSingle("props4");
    SegmentsOfSingle("rattr1");
    SegmentsOfSingle("rattr2");
    SingleSegmentOrder(r2, r1);
    SingleSegmentOrder(p1, r1);
    SingleSegmentOrder(p1, r2);
    SingleSegmentOrder(p4, r1);
    SingleSegmentOrder(p4, r2);
    SingleSegmentOrder(p4, p1);
    SingleSegmentOrder(p3, r1);
    SingleSegmentOrder(p3, r2);
    SingleSegmentOrder(p3, p4);
    SingleSegmentOrder(p3, p1);
    SingleSegmentOrder(p2, r1);
    SingleSegmentOrder(p2, r2);
    SingleSegmentOrder(p2, p4);
    SingleSegmentOrder(p2, p3);
    SingleSegmentOrder(p2, p1);
  }

  // ---------------------------------------------------------------------------
  // The "signal" list of the test
  // ---------------------------------------------------------------------------

  /** The time 2000-01-02 03:04:05.000000006 UTC in nanoseconds since the epoch. */
  const TestTime: Timestamp := 946782245000000006

  /** The "signal" list: two prefixed map attributes, then keys of several
      depths, some of which are segment prefixes of others. */
  function LocList(timeText: Timestamp -> string): PropsContainer {
    AddTimestamp(AddUInt32(AddBool(AddString(AddString(AddString(AddString(
      AddMap(NewProps("signal"), [Attr("lattr1", Str("1")), Attr("lattr2", Int(2))], "Attributes"),
      "props1", "1"), "sort.test.a.c.a", "0"), "sort.test.a.a", "3"), "sort.test.b.a", "1"),
      "sort.test.a.c", false), "sort.test.a.d", 100), "sort.test.a.e", TestTime, timeText)
  }

  lemma LocListContents(timeText: Timestamp -> string)
    ensures LocList(timeText).props ==
      [Pair("Attributes.lattr1", "1"), Pair("Attributes.lattr2", "2"), Pair("props1", "1"),
       Pair("sort.test.a.c.a", "0"), Pair("sort.test.a.a", "3"), Pair("sort.test.b.a", "1"),
       Pair("sort.test.a.c", "False"), Pair("sort.test.a.d", "100"), Pair("sort.test.a.e", timeText(TestTime))]
  {
    var m := AddMap(NewProps("signal"), [Attr("lattr1", Str("1")), Attr("lattr2", Int(2))], "Attributes");
    assert AsString(Int(2)) == "2";
    assert QualifiedKey("Attributes", "lattr1") == "Attributes.lattr1";
    assert QualifiedKey("Attributes", "lattr2") == "Attributes.lattr2";
    assert m.props == [Pair("Attributes.lattr1", "1"), Pair("Attributes.lattr2", "2")];
    assert NatToDecimal(100) == "100" by {
      assert NatToDecimal(1) == "1";
      assert NatToDecimal(10) == "10";
    }
  }

  lemma LocStepsHead<T>(a1: T, a2: T, p: T, aca: T, aa: T, less: (T, T) -> bool)
    requires !less(a2, a1) && !less(p, a2) && !less(aca, p)
    requires less(aa, aca) && !less(aa, p)
    ensures SortBy([a1, a2, p, aca, aa], less) == [a1, a2, p, aa, aca]
  {
    assert SortBy([a1], less) == [a1] by {
      Step([], a1, less, [], 0, [a1], [a1]);
    }
    assert SortBy([a1, a2], less) == [a1, a2] by {
      Step([a1], a2, less, [a1], 1, [a1, a2], [a1, a2]);
    }
    assert SortBy([a1, a2, p], less) == [a1, a2, p] by {
      Step([a1, a2], p, less, [a1, a2], 2, [a1, a2, p], [a1, a2, p]);
    }
    assert SortBy([a1, a2, p, aca], less) == [a1, a2, p, aca] by {
      Step([a1, a2, p], aca, less, [a1, a2, p], 3, [a1, a2, p, aca], [a1, a2, p, aca]);
    }
    Step([a1, a2, p, aca], aa, less, [a1, a2, p, aca], 3, [a1, a2, p, aca, aa], [a1, a2, p, aa, aca]);
  }

  /** The insertion steps `get` takes on the "signal" list of the test. */
  lemma LocSteps<T>(a1: T, a2: T, p: T, aca: T, aa: T, ba: T, ac: T, ad: T, ae: T, less: (T, T) -> bool)
    requires !less(a2, a1) && !less(p, a2) && !less(aca, p)
    requires less(aa, aca) && !less(aa, p)
    requires !less(ba, aca)
    requires less(ac, ba) && !less(ac, aca)
    requires less(ad, ba) && !less(ad, ac)
    requires less(ae, ba) && !less(ae, ad)
    ensures SortBy([a1, a2, p, aca, aa, ba, ac, ad, ae], less) == [a1, a2, p, aa, aca, ac, ad, ae, ba]
  {
    assert SortBy([a1, a2, p, aca, aa, ba], less) == [a1, a2, p, aa, aca, ba] by {
      LocStepsHead(a1, a2, p, aca, aa, less);
      Step([a1, a2, p, aca, aa], ba, less, [a1, a2, p, aa, aca], 5,
           [a1, a2, p, aca, aa, ba], [a1, a2, p, aa, aca, ba]);
    }
    assert SortBy([a1, a2, p, aca, aa, ba, ac], less) == [a1, a2, p, aa, aca, ac, ba] by {
      Step([a1, a2, p, aca, aa, ba], ac, less, [a1, a2, p, aa, aca, ba], 5,
           [a1, a2, p, aca, aa, ba, ac], [a1, a2, p, aa, aca, ac, ba]);
    }
    assert SortBy([a1, a2, p, aca, aa, ba, ac, ad], less) == [a1, a2, p, aa, aca, ac, ad, ba] by {
      Step([a1, a2, p, aca, aa, ba, ac], ad, less, [a1, a2, p, aa, aca, ac, ba], 6,
           [a1, a2, p, aca, aa, ba, ac, ad], [a1, a2, p, aa, aca, ac, ad, ba]);
    }
    Step([a1, a2, p, aca, aa, ba, ac, ad], ae, less, [a1, a2, p, aa, aca, ac, ad, ba], 7,
         [a1, a2, p, aca, aa, ba, ac, ad, ae], [a1, a2, p, aa, aca, ac, ad, ae, ba]);
  }

  /** A shared leading run of segments does not decide the comparison. */
  lemma {:induction false} SegLessAfterCommonPrefix(pre: seq<string>, a: seq<string>, b: seq<string>)
    ensures SegLess(pre + a, pre + b) == SegLess(a, b)
  {
    if |pre| > 0 {
      assert (pre + a)[1..] == pre[1..] + a;
      assert (pre + b)[1..] == pre[1..] + b;
      SegLessAfterCommonPrefix(pre[1..], a, b);
    } else {
      assert pre + a == a && pre + b == b;
    }
  }

  /** The first differing segment decides the comparison. */
  lemma SegLessFirstDiffers(x: string, y: string, a: seq<string>, b: seq<string>)
    requires x != y
    ensures SegLess([x] + a, [y] + b) == StrLess(x, y)
  {
  }

  /** The first segment at which two lists differ decides the comparison. */
  lemma {:induction false} SegLessIndex(a: seq<string>, b: seq<string>, k: nat)
    requires k < |a| && k < |b| && a[k] != b[k]
    requires forall i :: 0 <= i < k ==> a[i] == b[i]
    ensures SegLess(a, b) == StrLess(a[k], b[k])
    decreases k
  {
    if k > 0 {
      assert a[0] == b[0];
      SegLessIndex(a[1..], b[1..], k - 1);
    }
  }

  /** Keys whose segments agree before position `k` and differ at it
      compare as their `k`-th segments do. */
  lemma KeyLessIndex(p: Pair, q: Pair, k: nat)
    requires k < |Segments(p.key)| && k < |Segments(q.key)| && Segments(p.key)[k] != Segments(q.key)[k]
    requires forall i :: 0 <= i < k ==> Segments(p.key)[i] == Segments(q.key)[i]
    ensures KeyLess(p, q) == StrLess(Segments(p.key)[k], Segments(q.key)[k])
  {
    SegLessIndex(Segments(p.key), Segments(q.key), k);
  }

  /** Keys whose segments share `pre` and then differ in `x` and `y`
      compare as `x` and `y` do. */
  lemma KeyLessAt(p: Pair, q: Pair, pre: seq<string>, x: string, a: seq<string>, y: string, b: seq<string>)
    requires Segments(p.key) == pre + [x] + a && Segments(q.key) == pre + [y] + b
    requires x != y
    ensures KeyLess(p, q) == StrLess(x, y)
  {
    SegLessAt(pre, x, a, y, b);
  }

  lemma SegLessAt(pre: seq<string>, x: string, a: seq<string>, y: string, b: seq<string>)
    requires x != y
    ensures SegLess(pre + [x] + a, pre + [y] + b) == StrLess(x, y)
  {
    assert pre + [x] + a == pre + ([x] + a);
    assert pre + [y] + b == pre + ([y] + b);
    SegLessAfterCommonPrefix(pre, [x] + a, [y] + b);
    SegLessFirstDiffers(x, y, a, b);
  }

  lemma LocKeyOrderHead(a1: Pair, a2: Pair, p: Pair, aca: Pair)
    requires Segments(a1.key) == ["attributes", "lattr1"] && Segments(a2.key) == ["attributes", "lattr2"]
    requires Segments(p.key) == ["props1"] && Segments(aca.key) == ["sort", "test", "a", "c", "a"]
    ensures !KeyLess(a2, a1) && !KeyLess(p, a2) && !KeyLess(aca, p)
  {
    Lattr2NotBefore1(a1, a2);
    PropsNotBeforeAttributes(a2, p);
    SortNotBeforeProps(p, aca);
  }

  lemma Lattr2NotBefore1(a1: Pair, a2: Pair)
    requires Segments(a1.key) == ["attributes", "lattr1"] && Segments(a2.key) == ["attributes", "lattr2"]
    ensures !KeyLess(a2, a1)
  {
    KeyLessAt(a2, a1, ["attributes"], "lattr2", [], "lattr1", []);
    assert !StrLess("lattr2", "lattr1");
  }

  lemma PropsNotBeforeAttributes(a2: Pair, p: Pair)
    requires Segments(a2.key) == ["attributes", "lattr2"] && Segments(p.key) == ["props1"]
    ensures !KeyLess(p, a2)
  {
    KeyLessAt(p, a2, [], "props1", [], "attributes", ["lattr2"]);
    assert !StrLess("props1", "attributes");
  }

  lemma SortNotBeforeProps(p: Pair, s: Pair)
    requires Segments(p.key) == ["props1"] && |Segments(s.key)| >= 1 && Segments(s.key)[0] == "sort"
    ensures !KeyLess(s, p)
  {
    KeyLessIndex(s, p, 0);
    assert !StrLess("sort", "props1");
  }

  lemma LocKeyOrderMiddle(p: Pair, aca: Pair, aa: Pair, ba: Pair)
    requires Segments(p.key) == ["props1"] && Segments(aca.key) == ["sort", "test", "a", "c", "a"]
    requires Segments(aa.key) == ["sort", "test", "a", "a"] && Segments(ba.key) == ["sort", "test", "b", "a"]
    ensures KeyLess(aa, aca) && !KeyLess(aa, p)
    ensures !KeyLess(ba, aca)
  {
    AaBeforeAca(aa, aca);
    SortNotBeforeProps(p, aa);
    BaNotBeforeAca(ba, aca);
  }

  lemma AaBeforeAca(aa: Pair, aca: Pair)
    requires Segments(aa.key) == ["sort", "test", "a", "a"] && Segments(aca.key) == ["sort", "test", "a", "c", "a"]
    ensures KeyLess(aa, aca)
  {
    KeyLessIndex(aa, aca, 3);
  }

  lemma BaNotBeforeAca(ba: Pair, aca: Pair)
    requires Segments(ba.key) == ["sort", "test", "b", "a"] && Segments(aca.key) == ["sort", "test", "a", "c", "a"]
    ensures !KeyLess(ba, aca)
  {
    KeyLessIndex(ba, aca, 2);
  }

  lemma LocKeyOrderTail(aca: Pair, ba: Pair, ac: Pair, ad: Pair, ae: Pair)
    requires Segments(aca.key) == ["sort", "test", "a", "c", "a"] && Segments(ba.key) == ["sort", "test", "b", "a"]
    requires Segments(ac.key) == ["sort", "test", "a", "c"] && Segments(ad.key) == ["sort", "test", "a", "d"]
    requires Segments(ae.key) == ["sort", "test", "a", "e"]
    ensures KeyLess(ac, ba) && !KeyLess(ac, aca)
    ensures KeyLess(ad, ba) && !KeyLess(ad, ac)
    ensures KeyLess(ae, ba) && !KeyLess(ae, ad)
  {
    KeyLessAt(ac, ba, ["sort", "test"], "a", ["c"], "b", ["a"]);
    SegPrefixIncomparable(Segments(ac.key), Segments(aca.key));
    KeyLessAt(ad, ba, ["sort", "test"], "a", ["d"], "b", ["a"]);
    KeyLessAt(ad, ac, ["sort", "test", "a"], "d", [], "c", []);
    KeyLessAt(ae, ba, ["sort", "test"], "a", ["e"], "b", ["a"]);
    KeyLessAt(ae, ad, ["sort", "test", "a"], "e", [], "d", []);
  }

  lemma LocSegmentsHead(a1: Pair, a2: Pair, p: Pair, aca: Pair)
    requires a1.key == "Attributes.lattr1" && a2.key == "Attributes.lattr2" && p.key == "props1"
    requires aca.key == "sort.test.a.c.a"
    ensures Segments(a1.key) == ["attributes", "lattr1"] && Segments(a2.key) == ["attributes", "lattr2"]
    ensures Segments(p.key) == ["props1"] && Segments(aca.key) == ["sort", "test", "a", "c", "a"]
  {
    assert a1.key == "Attributes." + "lattr1";
    assert a2.key == "Attributes." + "lattr2";
    SegmentsOfAttributes("lattr1");
    SegmentsOfAttributes("lattr2");
    SegmentsOfSingle("props1");
    SegmentsOfSortTestACA();
  }

  lemma LocSegmentsTail(aa: Pair, ba: Pair, ac: Pair, ad: Pair, ae: Pair)
    requires aa.key == "sort.test.a.a" && ba.key == "sort.test.b.a"
    requires ac.key == "sort.test.a.c" && ad.key == "sort.test.a.d" && ae.key == "sort.test.a.e"
    ensures Segments(aa.key) == ["sort", "test", "a", "a"] && Segments(ba.key) == ["sort", "test", "b", "a"]
    ensures Segments(ac.key) == ["sort", "test", "a", "c"] && Segments(ad.key) == ["sort", "test", "a", "d"]
    ensures Segments(ae.key) == ["sort", "test", "a", "e"]
  {
    assert aa.key == "sort.test." + "a" + "." + "a";
    assert ba.key == "sort.test." + "b" + "." + "a";
    assert ac.key == "sort.test." + "a" + "." + "c";
    assert ad.key == "sort.test." + "a" + "." + "d";
    assert ae.key == "sort.test." + "a" + "." + "e";
    SegmentsOfSortTest("a", "a");
    SegmentsOfSortTest("b", "a");
    SegmentsOfSortTest("a", "c");
    SegmentsOfSortTest("a", "d");
    SegmentsOfSortTest("a", "e");
  }

  /** How the comparator orders the keys of the "signal" list, as far as the
      insertion steps consult it. */
  lemma LocKeyOrder(a1: Pair, a2: Pair, p: Pair, aca: Pair, aa: Pair, ba: Pair, ac: Pair, ad: Pair, ae: Pair)
    requires a1.key == "Attributes.lattr1" && a2.key == "Attributes.lattr2" && p.key == "props1"
    requires aca.key == "sort.test.a.c.a" && aa.key == "sort.test.a.a" && ba.key == "sort.test.b.a"
    requires ac.key == "sort.test.a.c" && ad.key == "sort.test.a.d" && ae.key == "sort.test.a.e"
    ensures !KeyLess(a2, a1) && !KeyLess(p, a2) && !KeyLess(aca, p)
    ensures KeyLess(aa, aca) && !KeyLess(aa, p)
    ensures !KeyLess(ba, aca)
    ensures KeyLess(ac, ba) && !KeyLess(ac, aca)
    ensures KeyLess(ad, ba) && !KeyLess(ad, ac)
    ensures KeyLess(ae, ba) && !KeyLess(ae, ad)
  {
    LocSegmentsHead(a1, a2, p, aca);
    LocSegmentsTail(aa, ba, ac, ad, ae);
    LocKeyOrderHead(a1, a2, p, aca);
    LocKeyOrderMiddle(p, aca, aa, ba);
    LocKeyOrderTail(aca, ba, ac, ad, ae);
  }

  /** The "signal" list comes back in the order the test expects; the two
      keys `sort.test.a.c.a` and `sort.test.a.c` compare equal, and the
      longer one, added first, stays first. */
  lemma LocListOrder(timeText: Timestamp -> string)
    ensures Get(LocList(timeText)) ==
      [Pair("Attributes.lattr1", "1"), Pair("Attributes.lattr2", "2"), Pair("props1", "1"),
       Pair("sort.test.a.a", "3"), Pair("sort.test.a.c.a", "0"), Pair("sort.test.a.c", "False"),
       Pair("sort.test.a.d", "100"), Pair("sort.test.a.e", timeText(TestTime)), Pair("sort.test.b.a", "1")]
  {
    LocListContents(timeText);
    var a1, a2, p := Pair("Attributes.lattr1", "1"), Pair("Attributes.lattr2", "2"), Pair("props1", "1");
    var aca, aa, ba := Pair("sort.test.a.c.a", "0"), Pair("sort.test.a.a", "3"), Pair("sort.test.b.a", "1");
    var ac, ad, ae := Pair("sort.test.a.c", "False"), Pair("sort.test.a.d", "100"), Pair("sort.test.a.e", timeText(TestTime));
    LocKeyOrder(a1, a2, p, aca, aa, ba, ac, ad, ae);
    LocSteps(a1, a2, p, aca, aa, ba, ac, ad, ae, KeyLess);
  }

  // ---------------------------------------------------------------------------
  // Small examples of the comparator
  // ---------------------------------------------------------------------------

  lemma SegmentsOfTwo(k: string, x: string, y: string)
    requires x in ["a", "b"] && y in ["a", "b", "c"]
    requires ToLower(k) == x + "." + y
    ensures Segments(k) == [x, y]
  {
    var p := [x, y];
    assert Join(p, '.') == x + "." + y;
    SplitJoin(p, '.');
  }

  lemma SortThree<T>(x: T, y: T, z: T, less: (T, T) -> bool)
    requires !less(y, x) && less(z, x) && less(z, y)
    ensures SortBy([x, y, z], less) == [z, x, y]
  {
    assert SortBy([x], less) == [x] by {
      Step([], x, less, [], 0, [x], [x]);
    }
    assert SortBy([x, y], less) == [x, y] by {
      Step([x], y, less, [x], 1, [x, y], [x, y]);
    }
    Step([x, y], z, less, [x, y], 0, [x, y, z], [z, x, y]);
  }

  /** Case is ignored segment by segment: keys "b.a", "B.c", "a" come back
      as "a", "b.a", "B.c". */
  lemma MixedCaseExample(c: PropsContainer, v1: string, v2: string, v3: string)
    requires c.props == [Pair("b.a", v1), Pair("B.c", v2), Pair("a", v3)]
    ensures Get(c) == [Pair("a", v3), Pair("b.a", v1), Pair("B.c", v2)]
  {
    var ba, bc, a := Pair("b.a", v1), Pair("B.c", v2), Pair("a", v3);
    MixedCaseSegments();
    MixedCaseOrder(ba, bc, a);
    SortThree(ba, bc, a, KeyLess);
  }

  lemma MixedCaseSegments()
    ensures Segments("b.a") == ["b", "a"] && Segments("B.c") == ["b", "c"] && Segments("a") == ["a"]
  {
    assert "b.a" == "b" + "." + "a" && ToLower("b.a") == "b.a";
    SegmentsOfTwo("b.a", "b", "a");
    assert ToLower("B.c") == "b" + "." + "c";
    SegmentsOfTwo("B.c", "b", "c");
    LowerNoUpper("a");
    SplitNoSep("a", '.');
  }

  lemma MixedCaseOrder(ba: Pair, bc: Pair, a: Pair)
    requires Segments(ba.key) == ["b", "a"] && Segments(bc.key) == ["b", "c"] && Segments(a.key) == ["a"]
    ensures !KeyLess(bc, ba) && KeyLess(a, ba) && KeyLess(a, bc)
  {
    KeyLessIndex(bc, ba, 1);
    KeyLessIndex(a, ba, 0);
    KeyLessIndex(a, bc, 0);
  }

  lemma PrefixTrioSegments(ab: Pair, a: Pair, ac: Pair)
    requires ab.key == "a.b" && a.key == "a" && ac.key == "a.c"
    ensures Segments(ab.key) == ["a", "b"] && Segments(a.key) == ["a"] && Segments(ac.key) == ["a", "c"]
  {
    assert "a.b" == "a" + "." + "b" && ToLower("a.b") == "a.b";
    SegmentsOfTwo("a.b", "a", "b");
    assert "a.c" == "a" + "." + "c" && ToLower("a.c") == "a.c";
    SegmentsOfTwo("a.c", "a", "c");
    LowerNoUpper("a");
    SplitNoSep("a", '.');
  }

  /** With "a" between "a.b" and "a.c", comparing equal is not transitive, so
      the comparator is not a strict weak order on such keys. */
  lemma IncomparabilityNotTransitive(ab: Pair, a: Pair, ac: Pair)
    requires ab.key == "a.b" && a.key == "a" && ac.key == "a.c"
    ensures !KeyLess(ab, a) && !KeyLess(a, ab)
    ensures !KeyLess(a, ac) && !KeyLess(ac, a)
    ensures KeyLess(ab, ac)
    ensures !WeakOrderOn([ab, a, ac], KeyLess)
  {
    PrefixTrioSegments(ab, a, ac);
    SegPrefixIncomparable(Segments(a.key), Segments(ab.key));
    SegPrefixIncomparable(Segments(a.key), Segments(ac.key));
    KeyLessAt(ab, ac, ["a"], "b", [], "c", []);
  }

  /** With such keys `get` may return pairs out of order: "a.c", "a", "a.b"
      has no neighbour out of order, so insertion sort leaves it as it is,
      although "a.b" sorts before "a.c". */
  lemma PrefixKeysMayStayUnsorted(c: PropsContainer, ab: Pair, a: Pair, ac: Pair)
    requires ab.key == "a.b" && a.key == "a" && ac.key == "a.c"
    requires c.props == [ac, a, ab]
    ensures Get(c) == [ac, a, ab]
    ensures !Sorted(Get(c), KeyLess)
  {
    IncomparabilityNotTransitive(ab, a, ac);
    assert LocallySorted([ac, a, ab], KeyLess);
    SortKeepsLocallySorted([ac, a, ab], KeyLess);
    assert KeyLess([ac, a, ab][2], [ac, a, ab][0]);
  }
}
