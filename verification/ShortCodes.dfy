/** A code cut off after its last used symbol: the table built for the shorter list of lengths is one for the whole list. */
module ShortCodes {
  import opened WeightedSums
  import opened CanonicalCode
  import opened TableFilling
  import opened DecodeTable
  import opened BuildDecodeTable
  import opened BlockDecoder

  ghost predicate UnusedFrom(lens: seq<nat>, n: nat) { n <= |lens| && forall s :: n <= s < |lens| ==> lens[s] == 0 }

  lemma SameCount(lens: seq<nat>, n: nat, len: nat)
    requires UnusedFrom(lens, n) && len >= 1
    ensures Count(lens[..n], len) == Count(lens, len)
  {
    assert lens == lens[..n] + lens[n..];
    CountAppend(lens[..n], lens[n..], len);
    CountZero(lens[n..], len);
  }

  lemma {:induction false} SameEnd(lens: seq<nat>, n: nat, len: nat)
    requires UnusedFrom(lens, n)
    ensures End(lens[..n], len) == End(lens, len) && First(lens[..n], len) == First(lens, len)
    decreases len
  {
    if len > 0 {
      SameEnd(lens, n, len - 1);
      SameCount(lens, n, len);
    }
  }

  lemma SameCode(lens: seq<nat>, n: nat, s: nat)
    requires UnusedFrom(lens, n) && s < n
    ensures Code(lens[..n], s) == Code(lens, s)
  {
    SameEnd(lens, n, lens[s]);
    assert lens[..n][..s] == lens[..s];
  }

  lemma SameLongest(lens: seq<nat>, n: nat)
    requires UnusedFrom(lens, n)
    ensures Longest(lens[..n]) == Longest(lens)
  {
    var a, b := Longest(lens[..n]), Longest(lens);
    if a > 0 {
      var s :| 0 <= s < n && lens[..n][s] == a;
      assert lens[s] <= b;
    }
    if b > 0 {
      var s :| 0 <= s < |lens| && lens[s] == b;
      assert s < n && lens[..n][s] <= a;
    }
  }

  /** Complete, empty or of a single one-bit codeword as a whole and cut off alike. */
  lemma SameKind(lens: seq<nat>, n: nat, max: nat)
    requires UnusedFrom(lens, n)
    ensures CompleteCode(lens, max) ==> CompleteCode(lens[..n], max)
    ensures EmptyCode(lens) ==> EmptyCode(lens[..n])
    ensures FittingCode(lens, max) ==> FittingCode(lens[..n], max)
    ensures OneBitCode(lens) ==> OneBitCode(lens[..n])
  {
    SameEnd(lens, n, max);
    if OneBitCode(lens) {
      var s :| 0 <= s < |lens| && lens[s] == 1 && forall t :: 0 <= t < |lens| && t != s ==> lens[t] == 0;
      assert s < n && lens[..n][s] == 1;
    }
  }

  lemma SameDecoding(table: seq<nat>, lens: seq<nat>, results: seq<nat>, tableBits: nat, n: nat)
    requires UnusedFrom(lens, n) && |results| == |lens| && DecodesAll(table, lens[..n], results[..n], tableBits)
    ensures DecodesAll(table, lens, results, tableBits)
  {
    hide LooksUp, Code, Longest;
    SameLongest(lens, n);
    forall s, x | 0 <= s < |lens| && lens[s] > 0 && StartsWith(lens, s, x)
      ensures LooksUp(table, tableBits, x, results[s], lens[s], Longest(lens))
    {
      SameCode(lens, n, s);
      assert StartsWith(lens[..n], s, x);
      assert lens[..n][s] > 0 && results[..n][s] == results[s];
    }
  }

  /** A table that always gives one of the first results gives one of all. */
  lemma TotalMore(table: seq<nat>, tableBits: nat, results: seq<nat>, n: nat)
    requires n <= |results| && Total(table, tableBits, results[..n])
    ensures Total(table, tableBits, results)
  {
    hide LooksUp;
    forall x: nat
      ensures SomeResult(table, tableBits, results, x)
    {
      assert SomeResult(table, tableBits, results[..n], x);
      var s: nat, len: nat :| s < n && 0 < len <= MAX_CODEWORD_LEN && LooksUp(table, tableBits, x, results[..n][s], len, MAX_CODEWORD_LEN);
      assert LooksUp(table, tableBits, x, results[s], len, MAX_CODEWORD_LEN);
    }
  }
}
