/** Preparing the header of a dynamic block from the codeword lengths of its codes. */
module PrecomputeHeader {
  import opened Powers
  import opened BitReversal
  import opened CanonicalCode
  import opened DeflateSymbols
  import opened PrecodeItems
  import opened CodeLengths
  import opened DynamicHeader
  import opened BlockCost
  import BlockItems
  import BlockWriter
  import HuffmanCode
  import HuffmanTree
  import MakeCode
  import WeightedSums

  const NUM_LENS: nat := 320

  /** Symbols from n on have no codeword, unless the least number of symbols forces n. */
  method UsedSymbols(lens: array<nat>, from: nat, size: nat, least: nat) returns (n: nat)
    requires 0 < least <= size && from + size <= lens.Length
    ensures least <= n <= size && forall k :: from + n <= k < from + size ==> lens[k] == 0
    ensures n > least ==> lens[from + n - 1] != 0
  {
    n := size;
    while n > least && lens[from + n - 1] == 0
      invariant least <= n <= size && forall k :: from + n <= k < from + size ==> lens[k] == 0
    {
      n := n - 1;
    }
  }

  /** memmove within the array. */
  method Move(lens: array<nat>, from: nat, to: nat, n: nat)
    requires from + n <= lens.Length && to + n <= lens.Length
    modifies lens
    ensures lens[..] == Moved(old(lens[..]), from, to, n)
  {
    var moved := lens[from..from + n];
    for i := 0 to n
      invariant forall k :: to <= k < to + i ==> lens[k] == moved[k - to]
      invariant forall k :: 0 <= k < lens.Length && !(to <= k < to + i) ==> lens[k] == old(lens[k])
    {
      lens[to + i] := moved[i];
    }
  }

  function Moved(s: seq<nat>, from: nat, to: nat, n: nat): (r: seq<nat>)
    requires from + n <= |s| && to + n <= |s|
    ensures |r| == |s|
  {
    s[..to] + s[from..from + n] + s[to + n..]
  }

  /** Moving the offset lengths up against the literal/length ones and back leaves them, and the used
      literal/length ones, as they were; in between stale lengths stay behind. */
  lemma MovedBack(s: seq<nat>, numLitlen: nat, numOffset: nat)
    requires |s| == NUM_LENS && numLitlen <= NUM_LITLEN_SYMS && numOffset <= NUM_OFFSET_SYMS
    ensures var m := Moved(s, NUM_LITLEN_SYMS, numLitlen, numOffset);
            var r := Moved(m, numLitlen, NUM_LITLEN_SYMS, numOffset);
            && m[..numLitlen + numOffset] == s[..numLitlen] + s[NUM_LITLEN_SYMS..NUM_LITLEN_SYMS + numOffset]
            && r[..numLitlen] == s[..numLitlen]
            && r[NUM_LITLEN_SYMS..] == s[NUM_LITLEN_SYMS..]
  {
  }

  /** Stale lengths of symbols that do not occur do not change the cost. */
  lemma {:induction false} StaleIsHarmless(freqs: seq<nat>, lens: seq<nat>, stale: seq<nat>, n: nat)
    requires |freqs| == |lens| == |stale| == NUM_LITLEN_SYMS && n <= NUM_LITLEN_SYMS
    requires forall s :: 0 <= s < n && freqs[s] > 0 ==> stale[s] == lens[s]
    ensures Dot(freqs, LitlenWeights(stale), n) == Dot(freqs, LitlenWeights(lens), n)
  {
    if n > 0 {
      StaleIsHarmless(freqs, lens, stale, n - 1);
      SameProduct(freqs[n - 1], LitlenWeights(stale)[n - 1], LitlenWeights(lens)[n - 1]);
    }
  }

  lemma SameProduct(f: nat, x: nat, y: nat)
    requires f > 0 ==> x == y
    ensures f * x == f * y
  {
  }

  // ---- The precode -------------------------------------------------------------------------

  lemma {:induction false} SumOfCounts(items: seq<Item>, freqs: seq<nat>)
    requires Tallied(freqs, items) && forall k :: 0 <= k < |items| ==> items[k].sym < NUM_PRECODE_SYMS
    ensures WeightedSums.Sum(freqs, 0, NUM_PRECODE_SYMS) == |items|
  {
    if items == [] {
      AllZero(freqs, 0);
    } else {
      var front, s := items[..|items| - 1], items[|items| - 1].sym;
      var less := OneLess(items, freqs);
      SumOfCounts(front, less);
      SumBump(less, 0, s);
      assert freqs == less[s := less[s] + 1];
    }
  }

  lemma OneLess(items: seq<Item>, freqs: seq<nat>) returns (less: seq<nat>)
    requires items != [] && Tallied(freqs, items) && items[|items| - 1].sym < NUM_PRECODE_SYMS
    ensures freqs[items[|items| - 1].sym] > 0 && less == freqs[items[|items| - 1].sym := freqs[items[|items| - 1].sym] - 1]
    ensures Tallied(less, items[..|items| - 1])
  {
    var s := items[|items| - 1].sym;
    assert freqs[s] == SymCount(items, s);
    less := freqs[s := freqs[s] - 1];
  }

  lemma {:induction false} AllZero(freqs: seq<nat>, lo: nat)
    requires lo <= |freqs| && forall s :: 0 <= s < |freqs| ==> freqs[s] == 0
    ensures WeightedSums.Sum(freqs, lo, |freqs|) == 0
    decreases |freqs| - lo
  {
    if lo < |freqs| { AllZero(freqs, lo + 1); }
  }

  lemma {:induction false} SumBump(f: seq<nat>, lo: nat, s: nat)
    requires lo <= s < |f|
    ensures WeightedSums.Sum(f[s := f[s] + 1], lo, |f|) == WeightedSums.Sum(f, lo, |f|) + 1
    decreases |f| - lo
  {
    if lo < s {
      SumBump(f, lo + 1, s);
    } else {
      SumTail(f, f[s := f[s] + 1], lo + 1);
    }
  }

  lemma {:induction false} SumTail(f: seq<nat>, g: seq<nat>, lo: nat)
    requires |f| == |g| && lo <= |f| && f[lo..] == g[lo..]
    ensures WeightedSums.Sum(f, lo, |f|) == WeightedSums.Sum(g, lo, |f|)
    decreases |f| - lo
  {
    if lo < |f| {
      assert f[lo] == f[lo..][0] && g[lo] == g[lo..][0];
      assert f[lo + 1..] == f[lo..][1..] && g[lo + 1..] == g[lo..][1..];
      SumTail(f, g, lo + 1);
    }
  }

  /** There are no more items than lengths. */
  lemma {:induction false} NoMoreItems(items: seq<Item>)
    requires Runnable(items)
    ensures |items| <= |Run(items)| && forall k :: 0 <= k < |items| ==> ValidItem(items[k]) && items[k].sym < NUM_PRECODE_SYMS
  {
    if items != [] {
      NoMoreItems(items[..|items| - 1]);
      ApplySize(Run(items[..|items| - 1]), items[|items| - 1]);
    }
  }

  lemma {:induction false} SymOccurs(items: seq<Item>, k: nat)
    requires k < |items|
    ensures SymCount(items, items[k].sym) > 0
  {
    if k < |items| - 1 { SymOccurs(items[..|items| - 1], k); }
  }

  lemma {:induction false} UsedAtMostAll(freqs: seq<nat>, n: nat)
    requires n <= |freqs|
    ensures HuffmanCode.Used(freqs, n) <= n
  {
    if n > 0 { UsedAtMostAll(freqs, n - 1); }
  }

  /** Reverses the codewords for writing, lowest bit first. */
  method ReverseCodewords(codewords: array<nat>, lens: seq<nat>)
    requires codewords.Length == |lens|
    modifies codewords
    ensures forall s :: 0 <= s < |lens| ==> codewords[s] == Reversed(old(codewords[s]), lens[s])
  {
    for s := 0 to |lens|
      invariant forall r :: 0 <= r < s ==> codewords[r] == Reversed(old(codewords[r]), lens[r])
      invariant forall r :: s <= r < |lens| ==> codewords[r] == old(codewords[r])
    {
      codewords[s] := Reversed(codewords[s], lens[s]);
    }
  }

  /** deflate_make_huffman_code: canonical codewords, reversed for writing. */
  method MakeHuffmanCode(freqs: array<nat>, lens: array<nat>, codewords: array<nat>, max: nat)
    requires 2 <= freqs.Length == lens.Length == codewords.Length <= HuffmanTree.SYMBOL_RANGE && max >= 1
    requires freqs != lens && freqs != codewords && lens != codewords
    requires HuffmanCode.Used(freqs[..], freqs.Length) <= Pow2(max) && WeightedSums.Sum(freqs[..], 0, freqs.Length) < 0x40_0000
    modifies lens, codewords
    ensures MakeCode.CodeFor(freqs[..], lens[..], max) && BlockWriter.Reverses(lens[..], codewords[..])
  {
    hide MakeCode.CodeFor, Pow2, Reversed, Code, HuffmanCode.Used, WeightedSums.Sum;
    MakeCode.MakeCanonicalHuffmanCode(freqs, lens, codewords, max);
    ReverseCodewords(codewords, lens[..]);
  }

  /** The precode made from the items' own tally: complete, and with a codeword for every item. */
  method MakePrecode(items: seq<Item>, freqs: array<nat>) returns (preLens: seq<nat>, codewords: seq<nat>)
    requires freqs.Length == NUM_PRECODE_SYMS && Tallied(freqs[..], items) && 0 < |items| <= NUM_LENS
    requires forall k :: 0 <= k < |items| ==> ValidItem(items[k]) && items[k].sym < NUM_PRECODE_SYMS
    ensures |preLens| == NUM_PRECODE_SYMS && CompleteCode(preLens, MAX_PRE_CODEWORD_LEN) && AllEncodable(preLens, items)
    ensures BlockWriter.Reverses(preLens, codewords) && MakeCode.CodeFor(freqs[..], preLens, MAX_PRE_CODEWORD_LEN)
  {
    hide CompleteCode, Pow2, Reversed, Code, SymCount, Tallied;
    SumOfCounts(items, freqs[..]);
    UsedAtMostAll(freqs[..], NUM_PRECODE_SYMS);
    SevenBits();
    var lens, words := new nat[NUM_PRECODE_SYMS], new nat[NUM_PRECODE_SYMS];
    ghost var f := freqs[..];
    MakeHuffmanCode(freqs, lens, words, MAX_PRE_CODEWORD_LEN);
    preLens, codewords := lens[..], words[..];
    CodesCover(items, f, preLens);
  }

  lemma CodesCover(items: seq<Item>, freqs: seq<nat>, preLens: seq<nat>)
    requires Tallied(freqs, items) && |items| > 0 && MakeCode.CodeFor(freqs, preLens, MAX_PRE_CODEWORD_LEN)
    requires forall k :: 0 <= k < |items| ==> ValidItem(items[k]) && items[k].sym < NUM_PRECODE_SYMS
    ensures |preLens| == NUM_PRECODE_SYMS && CompleteCode(preLens, MAX_PRE_CODEWORD_LEN) && AllEncodable(preLens, items)
  {
    hide CompleteCode, SymCount, HuffmanCode.Optimal;
    BlockItems.CodeSize(freqs, preLens, MAX_PRE_CODEWORD_LEN);
    forall k | 0 <= k < |items|
      ensures preLens[items[k].sym] > 0
    {
      SymOccurs(items, k);
      BlockItems.CodeCovers(freqs, preLens, MAX_PRE_CODEWORD_LEN, items[k].sym);
    }
    SymOccurs(items, 0);
    UsedPositive(freqs, |freqs|, items[0].sym);
  }

  lemma {:induction false} UsedPositive(freqs: seq<nat>, n: nat, s: nat)
    requires s < n <= |freqs| && freqs[s] > 0
    ensures HuffmanCode.Used(freqs, n) > 0
  {
    if s < n - 1 { UsedPositive(freqs, n - 1, s); }
  }

  lemma SevenBits()
    ensures Pow2(7) == 128
  {
    assert Pow2(4) == 16;
    assert Pow2(7) == 8 * Pow2(4);
  }

  /** How many precode lengths need to be sent: up to the last that is not zero, at least four. */
  method ExplicitLens(preLens: seq<nat>) returns (n: nat)
    requires |preLens| == NUM_PRECODE_SYMS
    ensures 4 <= n <= NUM_PRECODE_SYMS && forall s: nat :: s < NUM_PRECODE_SYMS && Rank(s) >= n ==> preLens[s] == 0
    ensures n > 4 ==> preLens[Permutation[n - 1]] != 0
  {
    PermutationFacts();
    n := NUM_PRECODE_SYMS;
    while n > 4 && preLens[Permutation[n - 1]] == 0
      invariant 4 <= n <= NUM_PRECODE_SYMS && forall i :: n <= i < NUM_PRECODE_SYMS ==> preLens[Permutation[i]] == 0
    {
      n := n - 1;
    }
    forall s: nat | s < NUM_PRECODE_SYMS && Rank(s) >= n
      ensures preLens[s] == 0
    {
      assert preLens[Permutation[Rank(s)]] == 0;
    }
  }

  /** The header leaves out what can be left out: lengths of zero at the end of both codes and of the precode; and it has the
      items of the lengths' runs. */
  ghost predicate Smallest(h: Header, litlen: seq<nat>, offset: seq<nat>) {
    && 257 <= h.numLitlen <= |litlen| && 1 <= h.numOffset <= |offset| && 4 <= h.numExplicit <= |h.preLens| == 19
    && (h.numLitlen > 257 ==> litlen[h.numLitlen - 1] != 0) && (h.numOffset > 1 ==> offset[h.numOffset - 1] != 0)
    && (h.numExplicit > 4 ==> h.preLens[Permutation[h.numExplicit - 1]] != 0)
    && h.items == ItemsFor(litlen[..h.numLitlen] + offset[..h.numOffset])
  }

  lemma SmallestIs(h: Header, lens: seq<nat>)
    requires |lens| == NUM_LENS && 257 <= h.numLitlen <= NUM_LITLEN_SYMS && 1 <= h.numOffset <= NUM_OFFSET_SYMS && 4 <= h.numExplicit <= |h.preLens| == 19
    requires (h.numLitlen > 257 ==> lens[h.numLitlen - 1] != 0) && (h.numOffset > 1 ==> lens[NUM_LITLEN_SYMS + h.numOffset - 1] != 0)
    requires h.numExplicit > 4 ==> h.preLens[Permutation[h.numExplicit - 1]] != 0
    requires h.items == ItemsFor(lens[..h.numLitlen] + lens[NUM_LITLEN_SYMS..NUM_LITLEN_SYMS + h.numOffset])
    ensures Smallest(h, lens[..NUM_LITLEN_SYMS], lens[NUM_LITLEN_SYMS..])
  {
    assert lens[..NUM_LITLEN_SYMS][..h.numLitlen] == lens[..h.numLitlen];
    assert lens[NUM_LITLEN_SYMS..][..h.numOffset] == lens[NUM_LITLEN_SYMS..NUM_LITLEN_SYMS + h.numOffset];
  }

  /** deflate_precompute_huffman_header: lens holds the literal/length lengths and then the offset lengths. The header
      stands for the used part of both; afterwards lens is as before but for stale lengths of unused literal/length
      symbols. */
  method Precompute(lens: array<nat>) returns (h: Header, freqs: seq<nat>, codewords: seq<nat>)
    requires lens.Length == NUM_LENS && forall s :: 0 <= s < NUM_LENS ==> lens[s] < 16
    modifies lens
    ensures GoodHeader(h) && Tallied(freqs, h.items) && BlockWriter.Reverses(h.preLens, codewords)
    ensures Run(h.items) == old(lens[..])[..h.numLitlen] + old(lens[..])[NUM_LITLEN_SYMS..NUM_LITLEN_SYMS + h.numOffset]
    ensures forall s :: h.numLitlen <= s < NUM_LITLEN_SYMS ==> old(lens[..])[s] == 0
    ensures forall s :: NUM_LITLEN_SYMS + h.numOffset <= s < NUM_LENS ==> old(lens[..])[s] == 0
    ensures lens[..h.numLitlen] == old(lens[..])[..h.numLitlen]
    ensures lens[NUM_LITLEN_SYMS..] == old(lens[..])[NUM_LITLEN_SYMS..]
    ensures Smallest(h, old(lens[..])[..NUM_LITLEN_SYMS], old(lens[..])[NUM_LITLEN_SYMS..]) && MakeCode.CodeFor(freqs, h.preLens, 7)
  {
    hide Smallest, MakeCode.CodeFor, ItemsFor, CompleteCode, AllEncodable, Tallied, BlockWriter.Reverses, Moved;
    var numLitlen := UsedSymbols(lens, 0, NUM_LITLEN_SYMS, 257);
    var numOffset := UsedSymbols(lens, NUM_LITLEN_SYMS, NUM_OFFSET_SYMS, 1);
    ghost var before := lens[..];
    MovedBack(before, numLitlen, numOffset);
    if numLitlen != NUM_LITLEN_SYMS {
      Move(lens, NUM_LITLEN_SYMS, numLitlen, numOffset);
    } else {
      NotMoved(before, numOffset);
    }
    var all := lens[..numLitlen + numOffset];
    SmallLens(before, numLitlen, numOffset, all);
    var f := new nat[NUM_PRECODE_SYMS];
    var items := ComputePrecodeItems(all, f);
    NoMoreItems(items);
    SomeItem(items);
    freqs := f[..];
    var preLens;
    preLens, codewords := MakePrecode(items, f);
    var numExplicit := ExplicitLens(preLens);
    if numLitlen != NUM_LITLEN_SYMS {
      Move(lens, numLitlen, NUM_LITLEN_SYMS, numOffset);
    }
    h := Header(numLitlen, numOffset, numExplicit, preLens, items);
    SmallestIs(h, before);
  }

  lemma NotMoved(s: seq<nat>, numOffset: nat)
    requires |s| == NUM_LENS && numOffset <= NUM_OFFSET_SYMS
    ensures Moved(s, NUM_LITLEN_SYMS, NUM_LITLEN_SYMS, numOffset) == s
  {
  }

  lemma SmallLens(s: seq<nat>, numLitlen: nat, numOffset: nat, all: seq<nat>)
    requires |s| == NUM_LENS && numLitlen <= NUM_LITLEN_SYMS && numOffset <= NUM_OFFSET_SYMS && forall k :: 0 <= k < NUM_LENS ==> s[k] < 16
    requires all == s[..numLitlen] + s[NUM_LITLEN_SYMS..NUM_LITLEN_SYMS + numOffset]
    ensures forall k :: 0 <= k < |all| ==> all[k] < 16
  {
  }

  lemma SomeItem(items: seq<Item>)
    requires Runnable(items) && |Run(items)| > 0
    ensures |items| > 0
  {
  }
}
