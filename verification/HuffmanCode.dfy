/** The whole pipeline from symbol frequencies to a length-limited canonical Huffman code. */
module HuffmanCode {
  import opened Powers
  import opened WeightedSums
  import opened HuffmanTree
  import opened HuffmanOptimality
  import opened LengthCounts
  import opened CanonicalCode
  import opened GenCodewords
  import SortSymbols

  /** The value of g at each listed symbol. */
  ghost function Picked(words: seq<nat>, used: nat, g: seq<nat>): (r: seq<nat>)
    requires DistinctSymbols(words, used, |g|)
    ensures |r| == used
  {
    seq(used, i requires 0 <= i < used => g[Low(words[i])])
  }

  /** Summing over the list is summing over the symbols, when the others contribute nothing. */
  lemma {:induction false} SumBySymbol(words: seq<nat>, used: nat, g: seq<nat>)
    requires DistinctSymbols(words, used, |g|)
    requires forall s :: 0 <= s < |g| && !Listed(words, used, s) ==> g[s] == 0
    ensures Sum(Picked(words, used, g), 0, used) == Sum(g, 0, |g|)
    decreases used
  {
    if used == 0 {
      AllZero(g, 0);
    } else {
      var s := Low(words[used - 1]);
      var h := g[s := 0];
      forall t | 0 <= t < |h| && !Listed(words, used - 1, t)
        ensures h[t] == 0
      {
        if t != s { assert !Listed(words, used, t); }
      }
      SumBySymbol(words, used - 1, h);
      SumUpdate(g, 0, s, 0);
      SumSplit(Picked(words, used, g), 0, used - 1, used);
      SumSame(Picked(words, used, g), Picked(words, used - 1, h), 0, used - 1);
      SumShort(Picked(words, used, g), used - 1);
    }
  }

  ghost function Products(a: seq<nat>, b: seq<nat>): (r: seq<nat>)
    requires |a| == |b|
    ensures |r| == |a| && forall i :: 0 <= i < |a| ==> r[i] == a[i] * b[i]
  {
    seq(|a|, i requires 0 <= i < |a| => a[i] * b[i])
  }

  lemma {:induction false} CostIsSum(a: seq<nat>, b: seq<nat>)
    requires |a| == |b|
    ensures Cost(a, b) == Sum(Products(a, b), 0, |a|)
  {
    if a != [] {
      CostIsSum(a[1..], b[1..]);
      SumShift(Products(a, b), Products(a[1..], b[1..]), 1);
    }
  }

  /** Dropping the first element shifts the sum. */
  lemma {:induction false} SumShift(s: seq<nat>, t: seq<nat>, from: nat)
    requires 1 <= from <= |s| == |t| + 1 && forall i :: from <= i < |s| ==> s[i] == t[i - 1]
    ensures Sum(s, from, |s|) == Sum(t, from - 1, |t|)
    decreases |s| - from
  {
    if from < |s| { SumShift(s, t, from + 1); }
  }

  ghost function Shares(lens: seq<nat>, max: nat): (r: seq<nat>)
    ensures |r| == |lens| && forall i :: 0 <= i < |lens| ==> r[i] == Share(lens[i], max)
  {
    seq(|lens|, i requires 0 <= i < |lens| => Share(lens[i], max))
  }

  lemma {:induction false} KraftIsSum(lens: seq<nat>, max: nat)
    ensures Kraft(lens, max) == Sum(Shares(lens, max), 0, |lens|)
  {
    if lens != [] {
      KraftIsSum(lens[1..], max);
      SumShift(Shares(lens, max), Shares(lens[1..], max), 1);
    }
  }

  /** The share of each used symbol, nothing for the others. */
  ghost function UsedShares(freqs: seq<nat>, lens: seq<nat>, max: nat): (r: seq<nat>)
    requires |freqs| == |lens|
    ensures |r| == |freqs|
    ensures forall s :: 0 <= s < |freqs| ==> r[s] == if freqs[s] == 0 then 0 else Share(lens[s], max)
  {
    seq(|freqs|, s requires 0 <= s < |freqs| => if freqs[s] == 0 then 0 else Share(lens[s], max))
  }

  /** Some prefix code gives the used symbols these lengths (none above max): their shares fit. */
  ghost predicate Feasible(freqs: seq<nat>, lens: seq<nat>, max: nat) {
    && |lens| == |freqs|
    && (forall s :: 0 <= s < |freqs| && freqs[s] > 0 ==> lens[s] <= max)
    && Sum(UsedShares(freqs, lens, max), 0, |freqs|) <= Pow2(max)
  }

  /** No prefix code, of any lengths whatever, encodes symbols of these frequencies in fewer bits. */
  ghost predicate Optimal(freqs: seq<nat>, lens: seq<nat>) {
    && |lens| == |freqs|
    && forall other, max :: Feasible(freqs, other, max) ==> Cost(freqs, lens) <= Cost(freqs, other)
  }

  /** No optimal code has a codeword of more than max bits. */
  ghost predicate OptimalFits(freqs: seq<nat>, max: nat) {
    forall best: seq<nat>, m: nat :: Optimal(freqs, best) && Feasible(freqs, best, m) ==> FitsFor(freqs, best, max)
  }

  ghost predicate FitsFor(freqs: seq<nat>, lens: seq<nat>, max: nat) {
    |lens| == |freqs| && forall s :: 0 <= s < |freqs| && freqs[s] > 0 ==> lens[s] <= max
  }

  /** Number of symbols with nonzero frequency. */
  function Used(freqs: seq<nat>, k: nat): nat
    requires k <= |freqs|
  {
    if k == 0 then 0 else Used(freqs, k - 1) + if freqs[k - 1] > 0 then 1 else 0
  }

  /** words lists exactly the used symbols, in ascending order of frequency. */
  ghost predicate Listing(words: seq<nat>, used: nat, freqs: seq<nat>) {
    && used <= |words| && DistinctSymbols(words, used, |freqs|)
    && (forall s :: 0 <= s < |freqs| ==> (freqs[s] > 0 <==> Listed(words, used, s)))
    && (forall i :: 0 <= i < used ==> freqs[Low(words[i])] == High(words[i]))
    && Ascending(Freqs(words, used), 0)
  }

  lemma SortedIsListing(words: seq<nat>, used: nat, freqs: seq<nat>)
    requires |freqs| <= SYMBOL_RANGE && used <= |words|
    requires SortSymbols.SortedSymbols(words[..used], freqs)
    ensures Listing(words, used, freqs)
  {
    var sorted := words[..used];
    forall i | 0 <= i < used
      ensures Low(words[i]) < |freqs| && freqs[Low(words[i])] == High(words[i]) > 0
    {
      assert SortSymbols.IsSymbolWord(sorted[i], freqs);
    }
    forall i, j | 0 <= i < j < used
      ensures Low(words[i]) != Low(words[j])
    {
      assert sorted[i] < sorted[j];
    }
    forall s | 0 <= s < |freqs| && freqs[s] > 0
      ensures Listed(words, used, s)
    {
      assert Pack(freqs[s], s) in sorted;
      var i :| 0 <= i < used && sorted[i] == Pack(freqs[s], s);
      assert Low(words[i]) == s;
    }
    forall i, j | 0 <= i < j < used
      ensures High(words[i]) <= High(words[j])
    {
      assert sorted[i] < sorted[j];
    }
  }

  ghost function Ones(freqs: seq<nat>): (r: seq<nat>)
    ensures |r| == |freqs| && forall s :: 0 <= s < |freqs| ==> r[s] == if freqs[s] > 0 then 1 else 0
  {
    seq(|freqs|, s requires 0 <= s < |freqs| => if freqs[s] > 0 then 1 else 0)
  }

  lemma {:induction false} SumOfOnes(freqs: seq<nat>, k: nat)
    requires k <= |freqs|
    ensures Sum(Ones(freqs), 0, k) == Used(freqs, k)
  {
    if k > 0 {
      SumOfOnes(freqs, k - 1);
      SumSplit(Ones(freqs), 0, k - 1, k);
      SumShort(Ones(freqs), k - 1);
    }
  }

  lemma {:induction false} SumAllOne(s: seq<nat>, lo: nat)
    requires lo <= |s| && forall i :: lo <= i < |s| ==> s[i] == 1
    ensures Sum(s, lo, |s|) == |s| - lo
    decreases |s| - lo
  {
    if lo < |s| { SumAllOne(s, lo + 1); }
  }

  /** The list is as long as there are used symbols, and holds all their weight. */
  lemma ListingTotals(words: seq<nat>, used: nat, freqs: seq<nat>)
    requires Listing(words, used, freqs)
    ensures used == Used(freqs, |freqs|)
    ensures Sum(Freqs(words, used), 0, used) == Sum(freqs, 0, |freqs|)
  {
    SumBySymbol(words, used, Ones(freqs));
    SumOfOnes(freqs, |freqs|);
    forall i | 0 <= i < used
      ensures Picked(words, used, Ones(freqs))[i] == 1
    {
      assert Listed(words, used, Low(words[i]));
    }
    SumAllOne(Picked(words, used, Ones(freqs)), 0);
    SumBySymbol(words, used, freqs);
    assert Freqs(words, used) == Picked(words, used, freqs);
  }

  lemma ListingProducts(words: seq<nat>, used: nat, freqs: seq<nat>, lens: seq<nat>)
    requires Listing(words, used, freqs) && |lens| == |freqs|
    ensures DistinctSymbols(words, used, |freqs|)
    ensures forall s :: 0 <= s < |freqs| && !Listed(words, used, s) ==> Products(freqs, lens)[s] == 0
    ensures Picked(words, used, Products(freqs, lens)) == Products(Freqs(words, used), Picked(words, used, lens))
  {
  }

  lemma ListingCost(words: seq<nat>, used: nat, freqs: seq<nat>, lens: seq<nat>)
    requires Listing(words, used, freqs) && |lens| == |freqs|
    ensures Cost(Freqs(words, used), Picked(words, used, lens)) == Cost(freqs, lens)
  {
    hide Cost, Sum, Listed, Ascending;
    CostIsSum(freqs, lens);
    CostIsSum(Freqs(words, used), Picked(words, used, lens));
    var g := Products(freqs, lens);
    ListingProducts(words, used, freqs, lens);
    SumBySymbol(words, used, g);
  }

  lemma ListingKraft(words: seq<nat>, used: nat, freqs: seq<nat>, lens: seq<nat>, max: nat)
    requires Listing(words, used, freqs) && |lens| == |freqs|
    ensures Kraft(Picked(words, used, lens), max) == Sum(UsedShares(freqs, lens, max), 0, |freqs|)
  {
    KraftIsSum(Picked(words, used, lens), max);
    var g := UsedShares(freqs, lens, max);
    SumBySymbol(words, used, g);
    forall i | 0 <= i < used
      ensures Picked(words, used, g)[i] == Shares(Picked(words, used, lens), max)[i]
    {
      assert Listed(words, used, Low(words[i]));
    }
    assert Picked(words, used, g) == Shares(Picked(words, used, lens), max);
  }

  /** Leaf depths for the listed symbols are optimal lengths. */
  lemma LeafDepthsOptimal(words: seq<nat>, freqs: seq<nat>, t: Merges, used: nat, lens: seq<nat>)
    requires Listing(words, used, freqs) && used >= 2 && |lens| == |freqs|
    requires HuffmanOf(Freqs(words, used), t)
    requires Picked(words, used, lens) == LeafDepths(t, used)
    ensures Optimal(freqs, lens)
  {
    forall other, max | Feasible(freqs, other, max)
      ensures Cost(freqs, lens) <= Cost(freqs, other)
    {
      ListingCost(words, used, freqs, lens);
      ListingCost(words, used, freqs, other);
      ListingKraft(words, used, freqs, other, max);
      forall i | 0 <= i < used
        ensures Picked(words, used, other)[i] <= max
      {
        assert Listed(words, used, Low(words[i]));
      }
      HuffmanIsOptimal(Freqs(words, used), t, Picked(words, used, other), max);
    }
  }

  /** Sequences that never increase and have the same counts are the same. */
  lemma {:induction false} DescendingUnique(a: seq<nat>, b: seq<nat>)
    requires forall i, j :: 0 <= i < j < |a| ==> a[i] >= a[j]
    requires forall i, j :: 0 <= i < j < |b| ==> b[i] >= b[j]
    requires |a| == |b| && forall x: nat :: Count(a, x) == Count(b, x)
    ensures a == b
  {
    if a != [] {
      assert Count(a, a[0]) > 0;
      var i := Occurrence(b, a[0]);
      assert Count(b, b[0]) > 0;
      var j := Occurrence(a, b[0]);
      assert a[0] == b[0];
      forall x: nat
        ensures Count(a[1..], x) == Count(b[1..], x)
      {
        assert Count(a, x) == Count(b, x);
      }
      DescendingUnique(a[1..], b[1..]);
    }
  }

  lemma {:induction false} Occurrence(s: seq<nat>, x: nat) returns (i: nat)
    requires Count(s, x) > 0
    ensures i < |s| && s[i] == x
  {
    if s[0] == x {
      i := 0;
    } else {
      i := Occurrence(s[1..], x);
      i := i + 1;
    }
  }

  lemma LeafParentsAscend(t: Merges, n: nat, i: nat)
    requires Complete(t, n) && i + 1 < n
    ensures |t.leafParent| == n && t.leafParent[i] <= t.leafParent[i + 1]
  {
    HeadsAdvance(t, n, n - 1, n - 1);
    var s := FindTaker(t.leafHead, n - 1, i);
    var r := FindTaker(t.leafHead, n - 1, i + 1);
    assert TakesTwo(t, n, s) && TakesTwo(t, n, r);
    if r < s {
      HeadsMonotone(t, n, r + 1, s);
    }
  }

  lemma {:induction false} LeafDepthsDescend(t: Merges, n: nat, i: nat, j: nat)
    requires Complete(t, n) && i <= j < n
    ensures LeafDepths(t, n)[i] >= LeafDepths(t, n)[j]
    decreases j
  {
    if i < j {
      LeafDepthsDescend(t, n, i, j - 1);
      LeafParentInRange(t, n, j - 1);
      LeafParentInRange(t, n, j);
      LeafParentsAscend(t, n, j - 1);
      DepthsDescend(t, n, t.leafParent[j - 1], t.leafParent[j]);
    }
  }

  lemma {:induction false} DepthAtMost(t: Merges, n: nat, k: nat)
    requires Complete(t, n) && k <= n - 2
    ensures Depth(t, n, k) <= n - 2 - k
    decreases n - k
  {
    if k < n - 2 {
      ParentAbove(t, n, k);
      DepthAtMost(t, n, t.nodeParent[k]);
    }
  }

  lemma LeafDepthAtMost(t: Merges, n: nat)
    requires Complete(t, n)
    ensures LeafDepths(t, n)[0] <= n - 1
  {
    LeafParentInRange(t, n, 0);
    DepthAtMost(t, n, t.leafParent[0]);
  }

  /** The leaves fill the codespace. */
  lemma {:induction false} TreeFills(t: Merges, n: nat, e: nat, m: nat)
    requires Complete(t, n) && e < n && m >= n
    ensures Kraft(LiveDepths(t, n, e), m) == Pow2(m)
    decreases n - e
  {
    hide Merged, LiveDepths, TakenAt, Depth, DropTwo;
    if e == n - 1 {
      RootLeft(t, n);
      KraftOfOne(0, m);
    } else {
      var (p, q) := TakenAt(t, n, e);
      TakenDepths(t, n, e);
      DepthAtMost(t, n, e);
      var d := Depth(t, n, e);
      TreeFills(t, n, e + 1, m);
      KraftDropTwo(LiveDepths(t, n, e), p, q, m);
      KraftAppend(DropTwo(LiveDepths(t, n, e), p, q), [d], m);
      KraftOfOne(d, m);
      assert Share(d, m) == 2 * Share(d + 1, m);
    }
  }

  lemma KraftOfOne(len: nat, m: nat)
    ensures Kraft([len], m) == Share(len, m)
  {
    assert [len][1..] == [];
  }

  /** Lengths for all symbols with those of the listed ones in list order. */
  ghost function Spread(words: seq<nat>, used: nat, given: seq<nat>, n: nat): (r: seq<nat>)
    requires DistinctSymbols(words, used, n) && |given| == used
    ensures |r| == n && forall i :: 0 <= i < used ==> r[Low(words[i])] == given[i]
  {
    if used == 0 then seq(n, i => 0)
    else Spread(words, used - 1, given[..used - 1], n)[Low(words[used - 1]) := given[used - 1]]
  }

  /** Leaves deeper than the limit are an optimal code beyond it. */
  lemma DeepLeaves(words: seq<nat>, freqs: seq<nat>, t: Merges, used: nat, max: nat)
    requires Listing(words, used, freqs) && used >= 2 && HuffmanOf(Freqs(words, used), t)
    requires LeafDepths(t, used)[0] > max
    ensures !OptimalFits(freqs, max)
  {
    hide Merged, Optimal, Sum, Ascending, Kraft, LiveDepths, Greedy;
    var depths := LeafDepths(t, used);
    var best := Spread(words, used, depths, |freqs|);
    assert Picked(words, used, best) == depths;
    LeafDepthsOptimal(words, freqs, t, used, best);
    ListingKraft(words, used, freqs, best, used);
    TreeFills(t, used, 0, used);
    LeavesAreLive(t, used);
    LeafDepthAtMost(t, used);
    forall s | 0 <= s < |freqs| && freqs[s] > 0
      ensures best[s] <= used
    {
      assert Listed(words, used, s);
      var i :| 0 <= i < used && Low(words[i]) == s;
      LeafDepthsDescend(t, used, 0, i);
    }
    assert Feasible(freqs, best, used);
    assert Listed(words, used, Low(words[0]));
    assert !FitsFor(freqs, best, max);
  }

  lemma LeavesAreLive(t: Merges, n: nat)
    requires Complete(t, n)
    ensures LiveDepths(t, n, 0) == LeafDepths(t, n)
  {
    hide LeafDepths;
  }

  /** When no leaf is deeper than the limit, the lengths given are the leaf depths. */
  lemma GivenAreDepths(t: Merges, n: nat, counts: seq<nat>, given: seq<nat>)
    requires Complete(t, n) && |counts| >= 2 && |given| == n && Descending(given, |counts| - 1)
    requires forall l :: 1 <= l < |counts| ==> Count(given, l) == counts[l]
    requires LeafDepths(t, n)[0] < |counts| && CountsDepths(t, n, 0, counts)
    ensures given == LeafDepths(t, n)
  {
    var depths := LeafDepths(t, n);
    assert LiveDepths(t, n, 0) == depths;
    forall i, j | 0 <= i < j < n
      ensures depths[i] >= depths[j]
    {
      LeafDepthsDescend(t, n, i, j);
    }
    forall i | 0 <= i < n
      ensures 1 <= depths[i] < |counts|
    {
      LeafDepthsDescend(t, n, 0, i);
    }
    forall x: nat
      ensures Count(given, x) == Count(depths, x)
    {
      if x == 0 || x >= |counts| {
        CountAbsent(given, x);
        CountAbsent(depths, x);
      }
    }
    DescendingUnique(given, depths);
  }

  /** The lengths are those of a canonical code for these frequencies. */
  ghost predicate LengthsFor(freqs: seq<nat>, lens: seq<nat>, max: nat) {
    && |lens| == |freqs| && CompleteCode(lens, max)
    && (forall s :: 0 <= s < |freqs| ==> (lens[s] > 0 <==> freqs[s] > 0))
    && (forall s, r :: 0 <= s < |freqs| && 0 <= r < |freqs| && 0 < freqs[s] < freqs[r] ==> lens[s] >= lens[r])
  }

  /** What was given, in list order, gives every symbol a fit length. */
  lemma GivenLengthsFor(words: seq<nat>, used: nat, freqs: seq<nat>, lens: seq<nat>, given: seq<nat>, counts: seq<nat>)
    requires Listing(words, used, freqs) && |lens| == |freqs| && |given| == used
    requires Given(words, lens, given) && |counts| >= 2 && Descending(given, |counts| - 1) && FullCounts(counts, used)
    requires forall l :: 1 <= l < |counts| ==> Count(given, l) == counts[l]
    ensures LengthsFor(freqs, lens, |counts| - 1) && Picked(words, used, lens) == given
  {
    GivenLengthsFit(words, used, freqs, lens, given, |counts| - 1);
    FullCountsComplete(lens, counts, used);
    RarerNoShorter(words, used, freqs, lens, given, |counts| - 1);
  }

  lemma GivenLengthsFit(words: seq<nat>, used: nat, freqs: seq<nat>, lens: seq<nat>, given: seq<nat>, max: nat)
    requires Listing(words, used, freqs) && |lens| == |freqs| && |given| == used
    requires Given(words, lens, given) && Descending(given, max)
    ensures forall s :: 0 <= s < |freqs| ==> lens[s] <= max && (lens[s] > 0 <==> freqs[s] > 0)
  {
    forall s | 0 <= s < |freqs|
      ensures lens[s] <= max && (lens[s] > 0 <==> freqs[s] > 0)
    {
      if Listed(words, used, s) {
        var i :| 0 <= i < used && Low(words[i]) == s;
        assert lens[s] == given[i];
      }
    }
  }

  lemma RarerNoShorter(words: seq<nat>, used: nat, freqs: seq<nat>, lens: seq<nat>, given: seq<nat>, max: nat)
    requires Listing(words, used, freqs) && |lens| == |freqs| && |given| == used
    requires Given(words, lens, given) && Descending(given, max)
    ensures forall s, r :: 0 <= s < |freqs| && 0 <= r < |freqs| && 0 < freqs[s] < freqs[r] ==> lens[s] >= lens[r]
  {
    hide Count;
    forall s, r | 0 <= s < |freqs| && 0 <= r < |freqs| && 0 < freqs[s] < freqs[r]
      ensures lens[s] >= lens[r]
    {
      assert Listed(words, used, s) && Listed(words, used, r);
      var i :| 0 <= i < used && Low(words[i]) == s;
      var j :| 0 <= j < used && Low(words[j]) == r;
      assert Freqs(words, used)[i] < Freqs(words, used)[j];
      assert i < j;
    }
  }

  lemma ListingFacts(words: seq<nat>, used: nat, freqs: seq<nat>)
    requires Listing(words, used, freqs)
    ensures used <= |words| && DistinctSymbols(words, used, |freqs|) && Ascending(Freqs(words, used), 0)
    ensures forall s :: 0 <= s < |freqs| && !Listed(words, used, s) ==> freqs[s] == 0
  {
  }

  /** As many lengths of each kind as counted from the tree of the symbols in this order, the longest first; the order is by
      frequency and then by symbol. */
  ghost predicate CountedFrom(freqs: seq<nat>, lens: seq<nat>, max: nat, words: seq<nat>, used: nat, t: Merges) {
    && used >= 2 && max >= 1 && Listing(words, used, freqs) && HuffmanOf(Freqs(words, used), t) && Complete(t, used)
    && (forall l :: 1 <= l <= max ==> Count(lens, l) == CountsFrom(t, used, 0, max)[l])
    && |lens| == |freqs| && forall i, j :: 0 <= i < j < used ==> words[i] < words[j] && lens[Low(words[i])] >= lens[Low(words[j])]
  }

  ghost predicate FromTree(freqs: seq<nat>, lens: seq<nat>, max: nat) {
    exists words: seq<nat>, used: nat, t: Merges :: CountedFrom(freqs, lens, max, words, used, t)
  }

  lemma KeepsListing(before: seq<nat>, after: seq<nat>, n: nat, used: nat, numSyms: nat)
    requires SameSymbols(before, after, n) && used <= |before| && DistinctSymbols(before, used, numSyms)
    ensures DistinctSymbols(after, used, numSyms)
    ensures forall i :: 0 <= i < used ==> Low(after[i]) == Low(before[i])
    ensures forall s :: Listed(before, used, s) <==> Listed(after, used, s)
  {
    assert forall i :: 0 <= i < used ==> Low(after[i]) == Low(before[i]) by {
      forall i | 0 <= i < used
        ensures Low(after[i]) == Low(before[i])
      {
        if i >= n { assert after[n..][i - n] == before[n..][i - n]; }
      }
    }
    forall s
      ensures Listed(before, used, s) <==> Listed(after, used, s)
    {
      if Listed(before, used, s) {
        var i :| 0 <= i < used && Low(before[i]) == s;
        assert Low(after[i]) == s;
      }
      if Listed(after, used, s) {
        var i :| 0 <= i < used && Low(after[i]) == s;
        assert Low(before[i]) == s;
      }
    }
  }
}
