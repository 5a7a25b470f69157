/** The scenario of the repository's history-buffer test. */
module BucketTest {
  import opened Wrappers
  import opened Bucket

  /** One append into an empty buffer of five: one entry, readable at 0 and
      not at 1; clearing empties it. */
  lemma FirstAppendThenClear(s: Signal)
    ensures Len(Append(New(5), s)) == 1
    ensures Get(Append(New(5), s), 0) == Some(s)
    ensures Get(Append(New(5), s), 1) == None
    ensures Len(Clear(Append(New(5), s))) == 0
  {
  }

  /** Ten appends into the cleared buffer of five: five entries, the tenth
      Signal at 0 and the sixth at 4. */
  lemma TenIntoFive(s: Signal, h: seq<Signal>)
    requires |h| == 10
    ensures Len(AppendAll(Clear(Append(New(5), s)), h)) == 5
    ensures Get(AppendAll(Clear(Append(New(5), s)), h), 0) == Some(h[9])
    ensures Get(AppendAll(Clear(Append(New(5), s)), h), 4) == Some(h[5])
    ensures Counter(AppendAll(Clear(Append(New(5), s)), h)) == 11
  {
    var b := Clear(Append(New(5), s));
    LenAfterAppends(b, h);
    GetRecent(b, h, 0);
    GetRecent(b, h, 4);
    AppendAllNewest(b, h);
  }
}
