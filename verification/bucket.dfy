/**
  The history buffer of received Signals (`BucketFixedSize`): a fixed
  capacity list that drops its oldest entry when a new one arrives while it
  is full, is read newest-first, and counts every append ever made.
*/
module Bucket {
  import opened Wrappers
  import opened Props

  /** `KindSignal`. */
  datatype Kind = Log | Metric | Trace

  /** One normalised telemetry item, ready for display. The property lists
      run from the most specific (the record itself) to the least (the
      resource). */
  datatype Signal = Signal(
    kind: Kind,
    time: Timestamp,
    summary: string,
    description: string,
    properties: seq<PropsContainer>)

  /** `data` is kept oldest first; `cnt` counts appends since creation. */
  datatype BucketFixedSize = BucketFixedSize(size: int, data: seq<Signal>, cnt: int)

  /** What every reachable buffer satisfies: a positive capacity that the
      contents never exceed. */
  predicate Valid(b: BucketFixedSize) {
    1 <= b.size && |b.data| <= b.size
  }

  /** `newBucketFixedSize`. A capacity of 0 would make the first append
      write below index 0, and a negative one fails at creation. */
  function New(size: int): (b: BucketFixedSize)
    requires size >= 1
    ensures Valid(b)
    ensures b.size == size && Len(b) == 0 && Counter(b) == 0
  {
    BucketFixedSize(size, [], 0)
  }

  function Len(b: BucketFixedSize): (n: nat)
    ensures n == |b.data|
  {
    |b.data|
  }

  function Counter(b: BucketFixedSize): int {
    b.cnt
  }

  /** `get(i)`: the `i`-th most recent Signal, or nothing past the oldest. A
      negative `i` would index past the end of the contents. */
  function Get(b: BucketFixedSize, i: int): (r: Option<Signal>)
    requires i >= 0
    ensures r.Some? <==> i < Len(b)
  {
    if |b.data| - i - 1 >= 0 then Some(b.data[|b.data| - i - 1]) else None
  }

  /** `append`. The new Signal becomes the most recent; every other one
      moves one place further back, and at capacity the oldest falls off. */
  function Append(b: BucketFixedSize, s: Signal): (r: BucketFixedSize)
    requires Valid(b)
    ensures Valid(r) && r.size == b.size
    ensures Len(r) == if Len(b) < b.size then Len(b) + 1 else b.size
    ensures Get(r, 0) == Some(s)
    ensures Counter(r) == Counter(b) + 1
  {
    if Len(b) >= b.size then
      b.(data := b.data[1..] + [s], cnt := b.cnt + 1)
    else
      b.(data := b.data + [s], cnt := b.cnt + 1)
  }

  /** Every Signal already held moves one place further back, except the
      oldest when the buffer was full. */
  lemma AppendShifts(b: BucketFixedSize, s: Signal, i: int)
    requires Valid(b)
    requires 0 <= i < Len(Append(b, s)) - 1
    ensures Get(Append(b, s), i + 1) == Get(b, i)
  {
  }

  /** `clear`: drops the contents; the capacity and the counter stay. */
  function Clear(b: BucketFixedSize): (r: BucketFixedSize)
    requires Valid(b)
    ensures Valid(r) && Len(r) == 0
    ensures r.size == b.size && Counter(r) == Counter(b)
  {
    b.(data := [])
  }

  // ---------------------------------------------------------------------------
  // The buffer against the history of appends
  // ---------------------------------------------------------------------------

  /** Appending the Signals of `h` in order. */
  function AppendAll(b: BucketFixedSize, h: seq<Signal>): (r: BucketFixedSize)
    requires Valid(b)
    ensures Valid(r) && r.size == b.size
  {
    if |h| == 0 then b else Append(AppendAll(b, h[..|h| - 1]), h[|h| - 1])
  }

  /** The last `n` elements of `s`, or all of it when it is shorter. */
  function Newest(s: seq<Signal>, n: nat): (r: seq<Signal>)
    ensures |r| == if |s| <= n then |s| else n
    ensures r == s[|s| - |r|..]
  {
    if |s| <= n then s else s[|s| - n..]
  }

  /** Counting back from the newest end, `Newest` agrees with `s`. */
  lemma NewestAt(s: seq<Signal>, n: nat, i: nat)
    requires i < |s| && i < n
    ensures |Newest(s, n)| > i
    ensures Newest(s, n)[|Newest(s, n)| - 1 - i] == s[|s| - 1 - i]
  {
  }

  /** A buffer holding the newest items of `h` reads them back newest first. */
  lemma GetNewest(b: BucketFixedSize, h: seq<Signal>, i: int)
    requires b.size >= 1 && b.data == Newest(h, b.size)
    requires i >= 0
    ensures Get(b, i) == if i < |h| && i < b.size then Some(h[|h| - 1 - i]) else None
  {
    if i < |h| && i < b.size {
      NewestAt(h, b.size, i);
    }
  }

  /** One more append keeps the contents equal to the newest `size` items. */
  lemma AppendNewest(s: seq<Signal>, x: Signal, b: BucketFixedSize)
    requires Valid(b) && b.data == Newest(s, b.size)
    ensures Append(b, x).data == Newest(s + [x], b.size)
  {
    var t := s + [x];
    if |s| >= b.size {
      assert Append(b, x).data == b.data[1..] + [x];
      assert b.data[1..] == s[|s| - b.size + 1..];
      assert t[|t| - b.size..] == s[|s| - b.size + 1..] + [x];
    } else {
      assert Append(b, x).data == t;
    }
  }

  /** The buffer holds the newest `size` of everything it held and
      everything appended since, and the counter grows by one per append. */
  lemma {:induction false} AppendAllNewest(b: BucketFixedSize, h: seq<Signal>)
    requires Valid(b)
    ensures AppendAll(b, h).data == Newest(b.data + h, b.size)
    ensures Counter(AppendAll(b, h)) == Counter(b) + |h|
  {
    if |h| == 0 {
      assert b.data + h == b.data;
    } else {
      var init := h[..|h| - 1];
      AppendAllNewest(b, init);
      assert b.data + h == (b.data + init) + [h[|h| - 1]];
      AppendNewest(b.data + init, h[|h| - 1], AppendAll(b, init));
    }
  }

  /** The length grows with each append until it reaches the capacity. */
  lemma {:induction false} LenAfterAppends(b: BucketFixedSize, h: seq<Signal>)
    requires Valid(b)
    ensures Len(AppendAll(b, h)) == if Len(b) + |h| <= b.size then Len(b) + |h| else b.size
  {
    if |h| > 0 {
      LenAfterAppends(b, h[..|h| - 1]);
    }
  }

  /** After appending `h` to an empty buffer, `get(i)` is the `i`-th most
      recent append while `i` is within both `h` and the capacity, and
      nothing beyond. */
  lemma GetRecent(b: BucketFixedSize, h: seq<Signal>, i: int)
    requires Valid(b) && Len(b) == 0
    requires i >= 0
    ensures Get(AppendAll(b, h), i) == if i < |h| && i < b.size then Some(h[|h| - 1 - i]) else None
  {
    AppendAllNewest(b, h);
    assert b.data + h == h;
    GetNewest(AppendAll(b, h), h, i);
  }

  /** A cleared buffer behaves like a new one of the same capacity, except
      that it remembers how many appends it has seen. */
  lemma ClearActsNew(b: BucketFixedSize, h: seq<Signal>)
    requires Valid(b)
    ensures AppendAll(Clear(b), h).data == AppendAll(New(b.size), h).data
    ensures Counter(AppendAll(Clear(b), h)) == Counter(b) + |h|
  {
    AppendAllNewest(Clear(b), h);
    AppendAllNewest(New(b.size), h);
  }

  /** A full buffer drops exactly its oldest entry; the rest keep their order. */
  lemma FullAppendDropsOldest(b: BucketFixedSize, s: Signal)
    requires Valid(b) && Len(b) == b.size
    ensures Append(b, s).data == b.data[1..] + [s]
    ensures multiset(Append(b, s).data) + multiset{b.data[0]} == multiset(b.data) + multiset{s}
  {
    assert b.data == [b.data[0]] + b.data[1..];
  }
}
