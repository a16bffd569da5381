/** make_canonical_huffman_code: sort, build the tree, count lengths, assign codewords. */
module MakeCode {
  import opened Powers
  import opened WeightedSums
  import opened HuffmanTree
  import opened HuffmanOptimality
  import opened LengthCounts
  import opened CanonicalCode
  import opened GenCodewords
  import opened HuffmanCode
  import SortSymbols

  /** Every symbol that has a length has the canonical codeword of the lengths. */
  ghost predicate CanonicalCodewords(codewords: seq<nat>, lens: seq<nat>) {
    |codewords| == |lens| && forall s :: 0 <= s < |lens| && lens[s] > 0 ==> codewords[s] == Code(lens, s)
  }

  /** The two-symbol code used when only one symbol occurs: it needs a companion to be complete. */
  ghost predicate SingleCode(freqs: seq<nat>, lens: seq<nat>, max: nat) {
    && |lens| == |freqs| && CompleteCode(lens, max)
    && (forall s :: 0 <= s < |freqs| && freqs[s] > 0 ==> lens[s] == 1)
    && Count(lens, 1) == 2 && 2 <= |lens| && lens[0] == 1 && (freqs[0] > 0 ==> lens[1] == 1)
  }

  /** What the caller gets, for any number of used symbols. */
  ghost predicate CodeFor(freqs: seq<nat>, lens: seq<nat>, max: nat) {
    |lens| == |freqs| &&
    match Used(freqs, |freqs|)
    case 0 => forall s :: 0 <= s < |lens| ==> lens[s] == 0
    case 1 => SingleCode(freqs, lens, max)
    case _ =>
      && LengthsFor(freqs, lens, max) && FromTree(freqs, lens, max)
      // Short of the limit the code is optimal, and when all optimal codes are within it.
      && ((forall s :: 0 <= s < |lens| ==> lens[s] < max) || Used(freqs, |freqs|) <= max + 1 || OptimalFits(freqs, max)
          ==> Optimal(freqs, lens))
  }

  lemma {:induction false} OneOfLengthOne(lens: seq<nat>, len: nat)
    requires len >= 1 && Count(lens, 1) == 2 && forall l :: l >= 2 ==> Count(lens, l) == 0
    ensures End(lens, len) == Pow2(len)
  {
    if len > 1 {
      OneOfLengthOne(lens, len - 1);
    }
  }

  /** Symbol 0 and one other, with codewords 0 and 1. */
  lemma TwoSymbolCode(lens: seq<nat>, codewords: seq<nat>, other: nat, max: nat)
    requires 1 <= other < |lens| == |codewords| && max >= 1
    requires lens[0] == 1 && lens[other] == 1 && forall s :: 0 <= s < |lens| && s != 0 && s != other ==> lens[s] == 0
    requires codewords[0] == 0 && codewords[other] == 1
    ensures CompleteCode(lens, max) && CanonicalCodewords(codewords, lens) && Count(lens, 1) == 2
  {
    forall l: nat | l >= 1
      ensures Count(lens, l) == if l == 1 then 2 else 0
      ensures Count(lens[..0], l) == 0 && Count(lens[..other], l) == if l == 1 then 1 else 0
    {
      var rest := lens[other + 1..];
      CountAbsent(rest, l);
      assert lens == lens[..other] + ([1] + rest);
      CountAppend(lens[..other], [1] + rest, l);
      CountAppend([1], rest, l);
      var mid := lens[1..other];
      CountAbsent(mid, l);
      assert lens[..other] == [1] + mid;
      CountAppend([1], mid, l);
    }
    OneOfLengthOne(lens, max);
  }

  /** Trees, lengths and codewords for at least two used symbols. */
  method BuildCode(a: array<nat>, lens: array<nat>, max: nat, used: nat, ghost freqs: seq<nat>)
    requires a != lens && a.Length == lens.Length == |freqs| <= SYMBOL_RANGE
    requires 2 <= used <= a.Length && used <= Pow2(max) && max >= 1
    requires forall i, j :: 0 <= i < j < used ==> a[i] < a[j]
    requires Listing(a[..], used, freqs) && Sum(freqs, 0, |freqs|) < 0x40_0000
    requires forall s :: 0 <= s < |freqs| && freqs[s] == 0 ==> lens[s] == 0
    modifies a, lens
    ensures LengthsFor(freqs, lens[..], max) && FromTree(freqs, lens[..], max) && CanonicalCodewords(a[..], lens[..])
    ensures (forall s :: 0 <= s < lens.Length ==> lens[s] < max) || used <= max + 1 || OptimalFits(freqs, max) ==> Optimal(freqs, lens[..])
  {
    hide Listing, DistinctSymbols, Greedy, FullCounts, Given, Descending, Optimal, OptimalFits, FromTree, CountsFrom, LengthsFor, CountsDepths, LeafDepths, Sum, Ascending;
    hide Freqs, Listed, Used, Count, Merged, Pow2, CompleteCode;
    ghost var words := a[..];
    ListingFacts(words, used, freqs);
    ListingTotals(words, used, freqs);
    ghost var t := BuildTree(a, used);
    KeepsListing(words, a[..], used, used, |freqs|);
    ghost var tree := a[..];
    var counts := new nat[max + 1];
    ComputeLengthCounts(a, used - 2, counts, max, t);
    KeepsListing(tree, a[..], used - 1, used, |freqs|);
    ghost var given := AssignLengths(a, lens, counts, max, used);
    Conclude(words, a[..], used, freqs, lens[..], given, counts[..], t);
    CountedIs(freqs, lens[..], max, words, used, t, counts[..], a[..], given);
    AssignCodewords(a, lens, counts, max);
  }

  lemma Conclude(words: seq<nat>, after: seq<nat>, used: nat, freqs: seq<nat>, lens: seq<nat>, given: seq<nat>,
                 counts: seq<nat>, t: Merges)
    requires Listing(words, used, freqs) && used >= 2 && |lens| == |freqs| && |given| == used
    requires |after| == |words| && forall i :: 0 <= i < used ==> Low(after[i]) == Low(words[i])
    requires HuffmanOf(Freqs(words, used), t)
    requires Given(after, lens, given) && |counts| >= 2 && Descending(given, |counts| - 1) && FullCounts(counts, used)
    requires forall l :: 1 <= l < |counts| ==> Count(given, l) == counts[l]
    requires if LeafDepths(t, used)[0] < |counts| then CountsDepths(t, used, 0, counts) else counts[|counts| - 1] > 0
    ensures LengthsFor(freqs, lens, |counts| - 1) && Bounded(lens, |counts| - 1)
    ensures forall l :: 1 <= l < |counts| ==> Count(lens, l) == counts[l]
    ensures (forall s :: 0 <= s < |lens| ==> lens[s] < |counts| - 1) || used <= |counts| || OptimalFits(freqs, |counts| - 1) ==> Optimal(freqs, lens)
  {
    hide *;
    ListingFacts(words, used, freqs);
    HuffmanIsComplete(Freqs(words, used), t);
    ConcludeLengths(words, after, used, freqs, lens, given, counts);
    if LeafDepths(t, used)[0] < |counts| {
      ConcludeShort(words, after, used, freqs, lens, given, counts, t);
    } else {
      ConcludeLimited(after, used, freqs, lens, given, counts, t);
      DeepLeaves(words, freqs, t, used, |counts| - 1);
    }
  }

  lemma CountedIs(freqs: seq<nat>, lens: seq<nat>, max: nat, words: seq<nat>, used: nat, t: Merges, counts: seq<nat>,
                  after: seq<nat>, given: seq<nat>)
    requires |lens| == |freqs| && |given| == used <= |words| == |after| && forall i :: 0 <= i < used ==> Low(after[i]) == Low(words[i])
    requires Given(after, lens, given) && Descending(given, max) && forall i, j :: 0 <= i < j < used ==> words[i] < words[j]
    requires used >= 2 && max >= 1 && Listing(words, used, freqs) && HuffmanOf(Freqs(words, used), t) && Complete(t, used)
    requires counts == CountsFrom(t, used, 0, max) && forall l :: 1 <= l < |counts| ==> Count(lens, l) == counts[l]
    ensures FromTree(freqs, lens, max)
  {
    hide Listing, Count, CountsFrom, Freqs, Merged, Greedy, Listed;
    ListingFacts(words, used, freqs);
    assert CountedFrom(freqs, lens, max, words, used, t);
  }

  lemma HuffmanIsComplete(f: seq<nat>, t: Merges)
    requires HuffmanOf(f, t)
    ensures Complete(t, |f|)
  {
  }

  /** Whatever the depths were, the lengths are as many of each as were counted. */
  lemma ConcludeLengths(words: seq<nat>, after: seq<nat>, used: nat, freqs: seq<nat>, lens: seq<nat>, given: seq<nat>, counts: seq<nat>)
    requires Listing(words, used, freqs) && used >= 2 && |lens| == |freqs| && |given| == used
    requires |after| == |words| && forall i :: 0 <= i < used ==> Low(after[i]) == Low(words[i])
    requires Given(after, lens, given) && |counts| >= 2 && Descending(given, |counts| - 1) && FullCounts(counts, used)
    requires forall l :: 1 <= l < |counts| ==> Count(given, l) == counts[l]
    ensures LengthsFor(freqs, lens, |counts| - 1) && Bounded(lens, |counts| - 1)
    ensures forall l :: 1 <= l < |counts| ==> Count(lens, l) == counts[l]
  {
    hide FullCounts, Descending, Listing, Listed, Count;
    ListingFacts(words, used, freqs);
    GivenUnder(after, words, lens, given);
    GivenLengthsFor(words, used, freqs, lens, given, counts);
  }

  /** Depths within the limit are the lengths, so the code is optimal. */
  lemma ConcludeShort(words: seq<nat>, after: seq<nat>, used: nat, freqs: seq<nat>, lens: seq<nat>, given: seq<nat>,
                      counts: seq<nat>, t: Merges)
    requires Listing(words, used, freqs) && used >= 2 && |lens| == |freqs| && |given| == used
    requires |after| == |words| && forall i :: 0 <= i < used ==> Low(after[i]) == Low(words[i])
    requires HuffmanOf(Freqs(words, used), t)
    requires Given(after, lens, given) && |counts| >= 2 && Descending(given, |counts| - 1) && FullCounts(counts, used)
    requires forall l :: 1 <= l < |counts| ==> Count(given, l) == counts[l]
    requires Complete(t, used) && LeafDepths(t, used)[0] < |counts| && CountsDepths(t, used, 0, counts)
    ensures Optimal(freqs, lens)
  {
    hide FullCounts, Descending, Listing, Optimal, CountsDepths, Merged, Greedy, Listed, LeafDepths, Picked, Count;
    ListingFacts(words, used, freqs);
    GivenUnder(after, words, lens, given);
    GivenLengthsFor(words, used, freqs, lens, given, counts);
    GivenAreDepths(t, used, counts, given);
    LeafDepthsOptimal(words, freqs, t, used, lens);
  }

  /** Depths beyond the limit take more symbols than the limit has room for, and some length is the limit. */
  lemma ConcludeLimited(after: seq<nat>, used: nat, freqs: seq<nat>, lens: seq<nat>, given: seq<nat>, counts: seq<nat>, t: Merges)
    requires used >= 2 && |lens| == |freqs| && |given| == used <= |after| && Complete(t, used)
    requires Given(after, lens, given) && |counts| >= 2 && LeafDepths(t, used)[0] >= |counts|
    requires forall l :: 1 <= l < |counts| ==> Count(given, l) == counts[l]
    requires counts[|counts| - 1] > 0
    ensures (forall s :: 0 <= s < |lens| ==> lens[s] < |counts| - 1) || used <= |counts| ==> Optimal(freqs, lens)
  {
    hide LeafDepths, Optimal, Count, Listed;
    assert Count(given, |counts| - 1) > 0;
    LeafDepthAtMost(t, used);
    var i := Occurrence(given, |counts| - 1);
    assert lens[Low(after[i])] == |counts| - 1;
  }

  lemma GivenUnder(after: seq<nat>, words: seq<nat>, lens: seq<nat>, given: seq<nat>)
    requires |given| <= |words| == |after| && forall i :: 0 <= i < |given| ==> Low(after[i]) == Low(words[i])
    requires Given(after, lens, given)
    ensures Given(words, lens, given)
  {
    forall s | 0 <= s < |lens| && !Listed(words, |given|, s)
      ensures lens[s] == 0
    {
      assert !Listed(after, |given|, s);
    }
  }

  lemma {:induction false} NothingUsed(freqs: seq<nat>, k: nat)
    requires k <= |freqs| && Used(freqs, k) == 0
    ensures forall s :: 0 <= s < k ==> freqs[s] == 0
  {
    if k > 0 { NothingUsed(freqs, k - 1); }
  }

  lemma OnlyListed(words: seq<nat>, freqs: seq<nat>)
    requires Listing(words, 1, freqs)
    ensures |words| > 0 && Low(words[0]) < |freqs|
    ensures forall s :: 0 <= s < |freqs| ==> (freqs[s] > 0 <==> s == Low(words[0]))
  {
    forall s | 0 <= s < |freqs|
      ensures freqs[s] > 0 <==> s == Low(words[0])
    {
      assert freqs[s] > 0 <==> Listed(words, 1, s);
    }
  }

  lemma SortedWords(words: seq<nat>, used: nat, freqs: seq<nat>)
    requires used <= |words| && |freqs| <= SYMBOL_RANGE && SortSymbols.SortedSymbols(words[..used], freqs)
    ensures forall i, j :: 0 <= i < j < used ==> words[i] < words[j]
  {
    forall i, j | 0 <= i < j < used
      ensures words[i] < words[j]
    {
      assert words[..used][i] < words[..used][j];
    }
  }

  method MakeCanonicalHuffmanCode(freqs: array<nat>, lens: array<nat>, codewords: array<nat>, max: nat)
    requires 2 <= freqs.Length == lens.Length == codewords.Length <= SYMBOL_RANGE && max >= 1
    requires freqs != lens && freqs != codewords && lens != codewords
    requires Used(freqs[..], freqs.Length) <= Pow2(max) && Sum(freqs[..], 0, freqs.Length) < 0x40_0000
    modifies lens, codewords
    ensures CodeFor(freqs[..], lens[..], max) && CanonicalCodewords(codewords[..], lens[..])
  {
    hide Listing, DistinctSymbols, Optimal, OptimalFits, FromTree, LengthsFor, Sum, Ascending, Used, Count, CompleteCode;
    hide SortSymbols.SortedSymbols, Pow2;
    ghost var f := freqs[..];
    var used := SortSymbols.Sort(freqs, lens, codewords);
    SortedIsListing(codewords[..], used, f);
    ListingTotals(codewords[..], used, f);
    if used == 0 {
      NothingUsed(f, |f|);
      return;
    }
    if used == 1 {
      var sym := Low(codewords[0]);
      OnlyListed(codewords[..], f);
      var other := if sym != 0 then sym else 1;
      codewords[0] := 0;
      lens[0] := 1;
      codewords[other] := 1;
      lens[other] := 1;
      TwoSymbolCode(lens[..], codewords[..], other, max);
      return;
    }
    SortedWords(codewords[..], used, f);
    BuildCode(codewords, lens, max, used, f);
  }
}
