/** Sorting the used symbols by frequency: a counting sort whose last bucket is heap sorted. */
module SortSymbols {
  import opened HuffmanTree
  import opened HeapSort

  /** Number of counters. The operand order makes 3 / 4 vanish, so this rounds numSyms itself up
      to a multiple of four. */
  function NumCounters(numSyms: nat): (n: nat)
    ensures numSyms >= 2 ==> numSyms <= n && 4 <= n
  {
    ((numSyms + 3 / 4) + 3) / 4 * 4
  }

  function Bucket(freq: nat, counters: nat): nat
    requires counters >= 1
  {
    if freq < counters - 1 then freq else counters - 1
  }

  /** Number of the first k symbols that fall in bucket b. */
  ghost function Size(freqs: seq<nat>, c: nat, b: nat, k: nat): nat
    requires k <= |freqs| && c >= 2
  {
    if k == 0 then 0 else Size(freqs, c, b, k - 1) + if Bucket(freqs[k - 1], c) == b then 1 else 0
  }

  /** Where bucket b starts, bucket 0 being left out. */
  ghost function StartOf(freqs: seq<nat>, c: nat, b: nat): nat
    requires c >= 2
  {
    if b <= 1 then 0 else StartOf(freqs, c, b - 1) + Size(freqs, c, b - 1, |freqs|)
  }

  ghost function Position(freqs: seq<nat>, c: nat, s: nat): nat
    requires s < |freqs| && c >= 2
  {
    StartOf(freqs, c, Bucket(freqs[s], c)) + Size(freqs, c, Bucket(freqs[s], c), s)
  }

  lemma {:induction false} SizeMonotone(freqs: seq<nat>, c: nat, b: nat, j: nat, k: nat)
    requires j <= k <= |freqs| && c >= 2
    ensures Size(freqs, c, b, j) <= Size(freqs, c, b, k)
    ensures j < k && Bucket(freqs[j], c) == b ==> Size(freqs, c, b, j) < Size(freqs, c, b, k)
  {
    if j < k {
      SizeMonotone(freqs, c, b, j, k - 1);
    }
  }

  lemma {:induction false} StartMonotone(freqs: seq<nat>, c: nat, a: nat, b: nat)
    requires c >= 2 && a <= b
    ensures StartOf(freqs, c, a) <= StartOf(freqs, c, b)
  {
    if a < b {
      StartMonotone(freqs, c, a, b - 1);
    }
  }

  /** Symbols take positions in order of bucket, then of symbol. */
  lemma PositionsOrdered(freqs: seq<nat>, c: nat, s: nat, t: nat)
    requires c >= 2 && s < |freqs| && t < |freqs| && freqs[s] > 0 && freqs[t] > 0
    requires Bucket(freqs[s], c) < Bucket(freqs[t], c) || (Bucket(freqs[s], c) == Bucket(freqs[t], c) && s < t)
    ensures Position(freqs, c, s) < Position(freqs, c, t)
  {
    var a, b := Bucket(freqs[s], c), Bucket(freqs[t], c);
    if a < b {
      StartMonotone(freqs, c, a + 1, b);
      SizeMonotone(freqs, c, a, s, |freqs|);
    } else {
      SizeMonotone(freqs, c, a, s, t);
    }
  }

  lemma PositionInBucket(freqs: seq<nat>, c: nat, s: nat)
    requires c >= 2 && s < |freqs| && freqs[s] > 0
    ensures var b := Bucket(freqs[s], c);
      1 <= b < c && StartOf(freqs, c, b) <= Position(freqs, c, s) < StartOf(freqs, c, b + 1) <= StartOf(freqs, c, c)
  {
    var b := Bucket(freqs[s], c);
    SizeMonotone(freqs, c, b, s, |freqs|);
    StartMonotone(freqs, c, b + 1, c);
  }

  lemma {:induction false} FindBucket(freqs: seq<nat>, c: nat, b: nat, p: nat) returns (r: nat)
    requires c >= 2 && p < StartOf(freqs, c, b)
    ensures 1 <= r < b && StartOf(freqs, c, r) <= p < StartOf(freqs, c, r + 1)
  {
    if p < StartOf(freqs, c, b - 1) {
      r := FindBucket(freqs, c, b - 1, p);
    } else {
      r := b - 1;
    }
  }

  lemma {:induction false} FindInBucket(freqs: seq<nat>, c: nat, b: nat, k: nat, rank: nat) returns (s: nat)
    requires c >= 2 && k <= |freqs| && rank < Size(freqs, c, b, k)
    ensures s < k && Bucket(freqs[s], c) == b && Size(freqs, c, b, s) == rank
  {
    if rank < Size(freqs, c, b, k - 1) {
      s := FindInBucket(freqs, c, b, k - 1, rank);
    } else {
      s := k - 1;
    }
  }

  /** Every position up to the end of the last bucket belongs to a used symbol. */
  lemma FindSymbol(freqs: seq<nat>, c: nat, p: nat) returns (s: nat)
    requires c >= 2 && p < StartOf(freqs, c, c)
    ensures s < |freqs| && freqs[s] > 0 && Position(freqs, c, s) == p
  {
    var b := FindBucket(freqs, c, c, p);
    s := FindInBucket(freqs, c, b, |freqs|, p - StartOf(freqs, c, b));
  }

  /** There are no more used symbols than symbols. */
  lemma {:induction false} UsedAtMost(freqs: seq<nat>, c: nat)
    requires c >= 2
    ensures StartOf(freqs, c, c) <= |freqs|
  {
    UsedAmongFirst(freqs, c, c, |freqs|);
  }

  ghost function SizeBelow(freqs: seq<nat>, c: nat, b: nat, k: nat): nat
    requires k <= |freqs| && c >= 2
  {
    if b <= 1 then 0 else SizeBelow(freqs, c, b - 1, k) + Size(freqs, c, b - 1, k)
  }

  lemma {:induction false} UsedAmongFirst(freqs: seq<nat>, c: nat, b: nat, k: nat)
    requires c >= 2 && k <= |freqs|
    ensures SizeBelow(freqs, c, b, k) <= k
    ensures k == |freqs| ==> SizeBelow(freqs, c, b, k) == StartOf(freqs, c, b)
    decreases k, b
  {
    SizeBelowIsStart(freqs, c, b);
    if k == 0 {
      EmptyBelow(freqs, c, b);
    } else {
      UsedAmongFirst(freqs, c, b, k - 1);
      OneMoreBelow(freqs, c, b, k);
    }
  }

  lemma {:induction false} SizeBelowIsStart(freqs: seq<nat>, c: nat, b: nat)
    requires c >= 2
    ensures SizeBelow(freqs, c, b, |freqs|) == StartOf(freqs, c, b)
  {
    if b > 1 { SizeBelowIsStart(freqs, c, b - 1); }
  }

  lemma {:induction false} EmptyBelow(freqs: seq<nat>, c: nat, b: nat)
    requires c >= 2
    ensures SizeBelow(freqs, c, b, 0) == 0
  {
    if b > 1 { EmptyBelow(freqs, c, b - 1); }
  }

  lemma {:induction false} OneMoreBelow(freqs: seq<nat>, c: nat, b: nat, k: nat)
    requires c >= 2 && 0 < k <= |freqs|
    ensures SizeBelow(freqs, c, b, k) ==
      SizeBelow(freqs, c, b, k - 1) + if 1 <= Bucket(freqs[k - 1], c) < b then 1 else 0
  {
    if b > 1 { OneMoreBelow(freqs, c, b - 1, k); }
  }

  /** words lists the used symbols, each packed under its frequency, in strictly ascending order. */
  ghost predicate SortedSymbols(words: seq<nat>, freqs: seq<nat>) {
    && (forall i, j :: 0 <= i < j < |words| ==> words[i] < words[j])
    && (forall i :: 0 <= i < |words| ==> IsSymbolWord(words[i], freqs))
    && (forall s :: 0 <= s < |freqs| && s < SYMBOL_RANGE && freqs[s] > 0 ==> Pack(freqs[s], s) in words)
  }

  ghost predicate IsSymbolWord(word: nat, freqs: seq<nat>) {
    Low(word) < |freqs| && freqs[Low(word)] == High(word) > 0
  }

  /** Each used symbol among the first k sits at its position. */
  ghost predicate Placed(words: seq<nat>, freqs: seq<nat>, c: nat, k: nat)
    requires c >= 2 && k <= |freqs| <= SYMBOL_RANGE
  {
    forall s :: 0 <= s < k && freqs[s] > 0 ==>
      Position(freqs, c, s) < |words| && words[Position(freqs, c, s)] == Pack(freqs[s], s)
  }

  lemma PlaceNext(words: seq<nat>, freqs: seq<nat>, c: nat, k: nat)
    requires c >= 2 && k < |freqs| <= SYMBOL_RANGE && freqs[k] > 0
    requires Placed(words, freqs, c, k) && Position(freqs, c, k) < |words|
    ensures Placed(words[Position(freqs, c, k) := Pack(freqs[k], k)], freqs, c, k + 1)
  {
    forall s | 0 <= s < k && freqs[s] > 0
      ensures Position(freqs, c, s) != Position(freqs, c, k)
    {
      if Bucket(freqs[s], c) <= Bucket(freqs[k], c) {
        PositionsOrdered(freqs, c, s, k);
      } else {
        PositionsOrdered(freqs, c, k, s);
      }
    }
  }

  /** Position p, once all symbols are placed, holds some used symbol of its bucket. */
  lemma HeldAt(words: seq<nat>, freqs: seq<nat>, c: nat, p: nat) returns (s: nat)
    requires c >= 2 && |freqs| <= SYMBOL_RANGE && Placed(words, freqs, c, |freqs|)
    requires p < StartOf(freqs, c, c)
    ensures s < |freqs| && freqs[s] > 0 && Position(freqs, c, s) == p < |words| && words[p] == Pack(freqs[s], s)
  {
    s := FindSymbol(freqs, c, p);
  }

  lemma PlacedAscending(words: seq<nat>, freqs: seq<nat>, c: nat, p: nat, q: nat)
    requires c >= 2 && |freqs| <= SYMBOL_RANGE && Placed(words, freqs, c, |freqs|)
    requires p < q < StartOf(freqs, c, c)
    ensures q < |words| && words[p] != words[q]
    ensures p < StartOf(freqs, c, c - 1) ==> words[p] < words[q]
  {
    var s := HeldAt(words, freqs, c, p);
    var t := HeldAt(words, freqs, c, q);
    PositionInBucket(freqs, c, s);
    if !(Bucket(freqs[s], c) < Bucket(freqs[t], c) || (Bucket(freqs[s], c) == Bucket(freqs[t], c) && s < t)) {
      if s != t {
        PositionsOrdered(freqs, c, t, s);
      }
    }
    if Bucket(freqs[s], c) == c - 1 {
      assert High(words[p]) == freqs[s] && Low(words[p]) == s && Low(words[q]) == t;
    }
  }

  lemma {:induction false} DistinctOnce(s: seq<nat>, x: nat)
    requires forall i, j :: 0 <= i < j < |s| ==> s[i] != s[j]
    ensures multiset(s)[x] <= 1
  {
    if s != [] {
      var r := s[..|s| - 1];
      DistinctOnce(r, x);
      assert s == r + [s[|s| - 1]];
      if s[|s| - 1] == x {
        assert x !in r;
      }
    }
  }

  lemma TwiceCountsTwo(t: seq<nat>, i: nat, j: nat)
    requires i < j < |t| && t[i] == t[j]
    ensures multiset(t)[t[i]] >= 2
  {
    assert t == t[..j] + [t[j]] + t[j + 1..];
    assert t[..j][i] in multiset(t[..j]);
    assert multiset(t)[t[i]] == multiset(t[..j] + [t[j]] + t[j + 1..])[t[i]];
  }

  /** A sorted rearrangement of distinct elements ascends strictly. */
  lemma SortedDistinct(s: seq<nat>, t: seq<nat>)
    requires multiset(s) == multiset(t)
    requires forall i, j :: 0 <= i < j < |s| ==> s[i] != s[j]
    requires forall i, j :: 0 <= i < j < |t| ==> t[i] <= t[j]
    ensures forall i, j :: 0 <= i < j < |t| ==> t[i] < t[j]
  {
    forall i, j | 0 <= i < j < |t|
      ensures t[i] != t[j]
    {
      if t[i] == t[j] {
        TwiceCountsTwo(t, i, j);
        DistinctOnce(s, t[i]);
      }
    }
  }

  lemma SharedElement(s: seq<nat>, t: seq<nat>, i: nat) returns (k: nat)
    requires multiset(s) == multiset(t) && i < |t|
    ensures k < |s| && s[k] == t[i]
  {
    assert t[i] in multiset(s);
    k :| 0 <= k < |s| && s[k] == t[i];
  }

  /** The position before sorting of what sorting put at i. */
  ghost predicate Origin(words: seq<nat>, out: seq<nat>, lo: nat, hi: nat, i: nat, p: nat) {
    i < hi <= |words| == |out| && p < hi && out[i] == words[p] && (if i < lo then p == i else p >= lo)
  }

  lemma FindOrigin(words: seq<nat>, out: seq<nat>, lo: nat, hi: nat, i: nat) returns (p: nat)
    requires lo <= hi && Rearranged(words, out, lo, hi - lo) && i < hi
    ensures Origin(words, out, lo, hi, i, p)
  {
    if i < lo {
      assert out[..lo][i] == words[..lo][i];
      p := i;
    } else {
      StretchMultiset(words, out, lo, hi - lo);
      var k := SharedElement(words[lo..lo + (hi - lo)], out[lo..lo + (hi - lo)], i - lo);
      p := lo + k;
    }
  }

  lemma FindImage(words: seq<nat>, out: seq<nat>, lo: nat, hi: nat, p: nat) returns (i: nat)
    requires lo <= hi && Rearranged(words, out, lo, hi - lo) && p < hi
    ensures i < hi && out[i] == words[p]
  {
    if p < lo {
      assert out[..lo][p] == words[..lo][p];
      i := p;
    } else {
      StretchMultiset(words, out, lo, hi - lo);
      var k := SharedElement(out[lo..lo + (hi - lo)], words[lo..lo + (hi - lo)], p - lo);
      i := lo + k;
    }
  }

  lemma LastBucketAscends(words: seq<nat>, out: seq<nat>, freqs: seq<nat>, c: nat)
    requires c >= 2 && |freqs| <= SYMBOL_RANGE && Placed(words, freqs, c, |freqs|)
    requires StartOf(freqs, c, c - 1) <= StartOf(freqs, c, c) <= |words|
    requires Rearranged(words, out, StartOf(freqs, c, c - 1), StartOf(freqs, c, c) - StartOf(freqs, c, c - 1))
    requires SortedStretch(out, StartOf(freqs, c, c - 1), StartOf(freqs, c, c))
    ensures forall i, j :: StartOf(freqs, c, c - 1) <= i < j < StartOf(freqs, c, c) ==> out[i] < out[j]
  {
    var lo, hi := StartOf(freqs, c, c - 1), StartOf(freqs, c, c);
    StretchMultiset(words, out, lo, hi - lo);
    var ws, os := words[lo..lo + (hi - lo)], out[lo..lo + (hi - lo)];
    forall i, j | 0 <= i < j < |ws|
      ensures ws[i] != ws[j]
    {
      PlacedAscending(words, freqs, c, lo + i, lo + j);
    }
    SortedDistinct(ws, os);
    forall i, j | lo <= i < j < hi
      ensures out[i] < out[j]
    {
      assert os[i - lo] < os[j - lo];
    }
  }

  /** Sorting the last bucket sorts everything. */
  lemma LastBucketSorted(words: seq<nat>, out: seq<nat>, freqs: seq<nat>, c: nat)
    requires c >= 2 && |freqs| <= SYMBOL_RANGE && Placed(words, freqs, c, |freqs|)
    requires StartOf(freqs, c, c - 1) <= StartOf(freqs, c, c) <= |words|
    requires Rearranged(words, out, StartOf(freqs, c, c - 1), StartOf(freqs, c, c) - StartOf(freqs, c, c - 1))
    requires SortedStretch(out, StartOf(freqs, c, c - 1), StartOf(freqs, c, c))
    ensures SortedSymbols(out[..StartOf(freqs, c, c)], freqs)
  {
    assert |words| == |out|;
    hide StartOf, Position, Placed, Rearranged, SortedStretch;
    var lo, hi := StartOf(freqs, c, c - 1), StartOf(freqs, c, c);
    LastBucketAscends(words, out, freqs, c);
    hide IsSymbolWord, Origin, Size, Bucket;
    forall i, j | 0 <= i < j < hi
      ensures out[i] < out[j]
    {
      if i < lo {
        var o := FindOrigin(words, out, lo, hi, i);
        var p := FindOrigin(words, out, lo, hi, j);
        PlacedAscending(words, freqs, c, i, p);
      }
    }
    forall i | 0 <= i < hi
      ensures IsSymbolWord(out[i], freqs)
    {
      var p := FindOrigin(words, out, lo, hi, i);
      var s := HeldAt(words, freqs, c, p);
    }
    forall s | 0 <= s < |freqs| && freqs[s] > 0
      ensures Pack(freqs[s], s) in out[..hi]
    {
      PositionInBucket(freqs, c, s);
      PlacedAt(words, freqs, c, s);
      var i := FindImage(words, out, lo, hi, Position(freqs, c, s));
      assert out[..hi][i] == Pack(freqs[s], s);
    }
  }

  lemma PlacedAt(words: seq<nat>, freqs: seq<nat>, c: nat, s: nat)
    requires c >= 2 && |freqs| <= SYMBOL_RANGE && Placed(words, freqs, c, |freqs|)
    requires s < |freqs| && freqs[s] > 0
    ensures Position(freqs, c, s) < |words| && words[Position(freqs, c, s)] == Pack(freqs[s], s)
  {
  }

  /** The first i counters have become starting positions. */
  ghost predicate HalfSummed(counters: seq<nat>, f: seq<nat>, i: nat) {
    && 4 <= |counters|
    && (forall b :: 1 <= b < i && b < |counters| ==> counters[b] == StartOf(f, |counters|, b))
    && (forall b :: i <= b < |counters| ==> counters[b] == Size(f, |counters|, b, |f|))
  }

  /** Counts the symbols in each bucket. */
  method TallyBuckets(freqs: array<nat>, counters: array<nat>)
    requires counters.Length >= 4 && freqs != counters
    modifies counters
    ensures HalfSummed(counters[..], freqs[..], 1)
  {
    var c := counters.Length;
    ghost var f := freqs[..];
    for i := 0 to c
      invariant forall j :: 0 <= j < i ==> counters[j] == 0
    {
      counters[i] := 0;
    }
    for sym := 0 to freqs.Length
      invariant forall b :: 0 <= b < c ==> counters[b] == Size(f, c, b, sym)
    {
      var b := Bucket(freqs[sym], c);
      counters[b] := counters[b] + 1;
    }
  }

  lemma SumNext(counters: seq<nat>, f: seq<nat>, i: nat)
    requires HalfSummed(counters, f, i) && 1 <= i < |counters|
    ensures HalfSummed(counters[i := StartOf(f, |counters|, i)], f, i + 1)
    ensures StartOf(f, |counters|, i + 1) == StartOf(f, |counters|, i) + counters[i]
  {
  }

  /** Turns the counts into starting positions, leaving bucket 0 out. */
  method Accumulate(counters: array<nat>, ghost f: seq<nat>) returns (numUsed: nat)
    requires HalfSummed(counters[..], f, 1)
    modifies counters
    ensures numUsed == StartOf(f, counters.Length, counters.Length) <= |f|
    ensures HalfSummed(counters[..], f, counters.Length)
  {
    var c := counters.Length;
    numUsed := 0;
    for i := 1 to c
      invariant numUsed == StartOf(f, c, i) && HalfSummed(counters[..], f, i)
    {
      SumNext(counters[..], f, i);
      hide HalfSummed, StartOf;
      var count := counters[i];
      ghost var before := counters[..];
      counters[i] := numUsed;
      assert counters[..] == before[i := StartOf(f, c, i)];
      numUsed := numUsed + count;
    }
    UsedAtMost(f, c);
  }

  /** Each counter points after the symbols of its bucket among the first k. */
  ghost predicate Advanced(counters: seq<nat>, f: seq<nat>, k: nat) {
    && 4 <= |counters| && k <= |f|
    && forall b :: 1 <= b < |counters| ==> counters[b] == StartOf(f, |counters|, b) + Size(f, |counters|, b, k)
  }

  lemma SummedIsAdvanced(counters: seq<nat>, f: seq<nat>)
    requires HalfSummed(counters, f, |counters|)
    ensures Advanced(counters, f, 0)
  {
  }

  lemma AdvanceNext(counters: seq<nat>, f: seq<nat>, k: nat)
    requires Advanced(counters, f, k) && k < |f|
    ensures var b := Bucket(f[k], |counters|);
      if f[k] == 0 then Advanced(counters, f, k + 1)
      else 1 <= b && counters[b] == Position(f, |counters|, k) && Advanced(counters[b := counters[b] + 1], f, k + 1)
  {
  }

  lemma AdvancedAll(counters: seq<nat>, f: seq<nat>, b: nat)
    requires Advanced(counters, f, |f|) && 1 <= b < |counters|
    ensures counters[b] == StartOf(f, |counters|, b + 1)
  {
  }

  /** Moves each used symbol to its position and clears the lengths of the others. */
  method PlaceSymbols(freqs: array<nat>, lens: array<nat>, symout: array<nat>, counters: array<nat>)
    requires 2 <= freqs.Length == lens.Length == symout.Length <= SYMBOL_RANGE
    requires freqs != lens && freqs != symout && lens != symout
    requires counters != freqs && counters != lens && counters != symout
    requires Advanced(counters[..], freqs[..], 0)
    requires StartOf(freqs[..], counters.Length, counters.Length) <= symout.Length
    modifies lens, symout, counters
    ensures Placed(symout[..], freqs[..], counters.Length, freqs.Length)
    ensures Advanced(counters[..], freqs[..], freqs.Length)
    ensures forall s :: 0 <= s < lens.Length ==> lens[s] == if freqs[s] == 0 then 0 else old(lens[s])
  {
    var c := counters.Length;
    ghost var f := freqs[..];
    for sym := 0 to freqs.Length
      invariant f == freqs[..]
      invariant Advanced(counters[..], f, sym) && Placed(symout[..], f, c, sym)
      invariant forall s :: 0 <= s < lens.Length ==> lens[s] == if freqs[s] == 0 && s < sym then 0 else old(lens[s])
    {
      AdvanceNext(counters[..], f, sym);
      var freq := freqs[sym];
      if freq != 0 {
        var b := Bucket(freq, c);
        PositionInBucket(f, c, sym);
        PlaceNext(symout[..], f, c, sym);
        hide Placed, StartOf, Size, Advanced, Position;
        ghost var words, cs := symout[..], counters[..];
        symout[counters[b]] := Pack(freq, sym);
        counters[b] := counters[b] + 1;
        assert symout[..] == words[Position(f, c, sym) := Pack(freq, sym)];
        assert counters[..] == cs[b := cs[b] + 1];
      } else {
        PlaceNone(symout[..], f, c, sym);
        hide Placed, Advanced;
        lens[sym] := 0;
      }
    }
  }

  lemma PlaceNone(words: seq<nat>, freqs: seq<nat>, c: nat, k: nat)
    requires c >= 2 && k < |freqs| <= SYMBOL_RANGE && freqs[k] == 0 && Placed(words, freqs, c, k)
    ensures Placed(words, freqs, c, k + 1)
  {
  }

  method Sort(freqs: array<nat>, lens: array<nat>, symout: array<nat>) returns (numUsed: nat)
    requires 2 <= freqs.Length == lens.Length == symout.Length <= SYMBOL_RANGE
    requires freqs != lens && freqs != symout && lens != symout
    modifies lens, symout
    ensures numUsed <= symout.Length && SortedSymbols(symout[..numUsed], freqs[..])
    ensures forall s :: 0 <= s < lens.Length ==> lens[s] == if freqs[s] == 0 then 0 else old(lens[s])
  {
    hide Placed, StartOf, SortedSymbols, Size, Advanced, HalfSummed, Rearranged, SortedStretch;
    var counters := new nat[NumCounters(freqs.Length)];
    var c := counters.Length;
    TallyBuckets(freqs, counters);
    numUsed := Accumulate(counters, freqs[..]);
    SummedIsAdvanced(counters[..], freqs[..]);
    PlaceSymbols(freqs, lens, symout, counters);
    AdvancedAll(counters[..], freqs[..], c - 2);
    AdvancedAll(counters[..], freqs[..], c - 1);
    StartMonotone(freqs[..], c, c - 1, c);
    ghost var words := symout[..];
    HeapSort.Sort(symout, counters[c - 2], counters[c - 1] - counters[c - 2]);
    LastBucketSorted(words, symout[..], freqs[..], c);
  }
}
