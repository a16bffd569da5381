/** Choosing the cheapest kind of block and writing it. */
module FlushBlock {
  import opened Powers
  import opened BitFields
  import opened BitWriter
  import opened CanonicalCode
  import opened DecodeTable
  import opened DeflateSymbols
  import opened BlockItems
  import opened BlockWriter
  import opened BlockCost
  import opened DeflateStream
  import opened PrecomputeHeader
  import opened BlockChoices
  import BuildDecodeTable
  import DynamicHeader
  import HuffmanCode
  import MakeCode
  import ItemList
  import PrecodeItems
  import CodeLengths
  import WeightedSums

  // ---- The codes of a block ------------------------------------------------------------------

  /** The codes of a block, their arrays as preparing the header leaves them, and the header. */
  datatype Prepared = Prepared(t: Tables, h: DynamicHeader.Header, preFreqs: seq<nat>, preCodewords: seq<nat>)

  ghost predicate GoodPrepared(p: Prepared, litlen: seq<nat>, offset: seq<nat>) {
    && GoodTables(p.t) && p.t.lens.offset == p.t.codes.offset
    && MakeCode.CodeFor(litlen, p.t.codes.litlen, MAX_LITLEN_CODEWORD_LEN) && MakeCode.CodeFor(offset, p.t.codes.offset, MAX_CODEWORD_LEN)
    && Smallest(p.h, p.t.codes.litlen, p.t.codes.offset) && MakeCode.CodeFor(p.preFreqs, p.h.preLens, DynamicHeader.MAX_PRE_CODEWORD_LEN)
    && HeaderOf(p.h, p.t.codes) && PrecodeItems.Tallied(p.preFreqs, p.h.items) && Reverses(p.h.preLens, p.preCodewords)
  }

  /** A code made from frequencies is complete or empty, and its lengths are within the limit. */
  lemma CodeKind(freqs: seq<nat>, lens: seq<nat>, max: nat)
    requires MakeCode.CodeFor(freqs, lens, max) && max >= 1
    ensures |lens| == |freqs| && forall s :: 0 <= s < |lens| ==> lens[s] <= max
    ensures CompleteCode(lens, max) || (HuffmanCode.Used(freqs, |freqs|) == 0 && EmptyCode(lens))
  {
    hide HuffmanCode.Optimal, End;
  }

  /** Completeness does not depend on how long codewords could be. */
  lemma {:induction false} CompleteLonger(lens: seq<nat>, max: nat, more: nat)
    requires CompleteCode(lens, max) && 1 <= max <= more
    ensures CompleteCode(lens, more)
    decreases more
  {
    if more > max {
      CompleteLonger(lens, max, more - 1);
      DynamicHeader.NoneLonger(lens, more - 1, more);
    }
  }

  lemma EmptyFits(lens: seq<nat>, max: nat)
    requires EmptyCode(lens) && max >= 1
    ensures FittingCode(lens, max)
  {
    BuildDecodeTable.EmptyIsZero(lens, max);
  }

  // ---- The tally -----------------------------------------------------------------------------

  lemma {:induction false} ExpandSize(out: seq<Byte>, items: seq<Item>)
    requires ValidItems(items, |out|)
    ensures |Expand(out, items)| == |out| + TotalSize(items) && |items| <= TotalSize(items)
    decreases |items|
  {
    hide Appended;
    if items != [] { ExpandSize(Appended(out, items[0]), items[1..]); }
  }

  /** As many literal/length symbols are tallied as there are items, and no more offset symbols. */
  lemma {:induction false} TallySums(items: seq<Item>, before: nat)
    requires ValidItems(items, before)
    ensures WeightedSums.Sum(LitlenTally(items), 0, NUM_LITLEN_SYMS) == |items|
    ensures WeightedSums.Sum(OffsetTally(items), 0, NUM_OFFSET_SYMS) <= |items|
    decreases |items|
  {
    hide LitlenSymbol, OffsetSymbolOf, LitlenTally, OffsetTally, WeightedSums.Sum, ValidItem, Size;
    if items == [] {
      AllZero(LitlenTally(items), 0);
      AllZero(OffsetTally(items), 0);
    } else {
      var rest, s, o := items[1..], LitlenSymbol(items[0]), OffsetSymbolOf(items[0]);
      SymbolRange(items[0], before);
      TallySums(rest, before + Size(items[0]));
      TallyStep(items);
      SumBump(LitlenTally(rest), 0, s);
      if o >= 0 { SumBump(OffsetTally(rest), 0, o); }
    }
  }

  lemma TallyStep(items: seq<Item>)
    requires items != [] && LitlenSymbol(items[0]) < NUM_LITLEN_SYMS && OffsetSymbolOf(items[0]) < NUM_OFFSET_SYMS
    ensures var rest, s, o := items[1..], LitlenSymbol(items[0]), OffsetSymbolOf(items[0]);
      && LitlenTally(items) == LitlenTally(rest)[s := LitlenTally(rest)[s] + 1]
      && OffsetTally(items) == if o >= 0 then OffsetTally(rest)[o := OffsetTally(rest)[o] + 1] else OffsetTally(rest)
  {
    hide LitlenSymbol, OffsetSymbolOf;
  }

  /** The last two symbols of either alphabet do not occur. */
  lemma SymbolRange(item: Item, before: nat)
    requires ValidItem(item, before)
    ensures LitlenSymbol(item) < 286 && LitlenSymbol(item) != END_OF_BLOCK && -1 <= OffsetSymbolOf(item) < 30
  {
  }

  /** The tally of a block: its end once, and none of the symbols that the format does not use. */
  ghost predicate BlockTally(litlen: seq<nat>, offset: seq<nat>) {
    && |litlen| == NUM_LITLEN_SYMS && |offset| == NUM_OFFSET_SYMS
    && litlen[END_OF_BLOCK] == 1 && litlen[286] == 0 && litlen[287] == 0 && offset[30] == 0 && offset[31] == 0
  }

  lemma {:induction false} NotCounted(items: seq<Item>, before: nat)
    requires ValidItems(items, before)
    ensures forall s: nat :: s >= 286 || s == END_OF_BLOCK ==> LitlenCount(items, s) == 0
    ensures forall s: nat :: s >= 30 ==> OffsetCount(items, s) == 0
    decreases |items|
  {
    hide LitlenSymbol, OffsetSymbolOf;
    if items != [] {
      SymbolRange(items[0], before);
      NotCounted(items[1..], before + Size(items[0]));
    }
  }

  /** Frequencies of a block are what making codes asks for. */
  lemma TallyFits(items: seq<Item>, before: nat, litlen: seq<nat>, offset: seq<nat>)
    requires ValidItems(items, before) && TallyOf(items, litlen, offset) && |items| + 1 < 0x40_0000
    ensures BlockTally(litlen, offset)
    ensures WeightedSums.Sum(litlen, 0, |litlen|) < 0x40_0000 && WeightedSums.Sum(offset, 0, |offset|) < 0x40_0000
    ensures HuffmanCode.Used(litlen, |litlen|) <= Pow2(MAX_LITLEN_CODEWORD_LEN) && HuffmanCode.Used(offset, |offset|) <= Pow2(MAX_CODEWORD_LEN)
    ensures HuffmanCode.Used(litlen, |litlen|) > 0
  {
    hide Pow2, LitlenCount, OffsetCount, WeightedSums.Sum, HuffmanCode.Used, ValidItems, LitlenTally, OffsetTally;
    NotCounted(items, before);
    TallySums(items, before);
    SumBump(LitlenTally(items), 0, END_OF_BLOCK);
    assert litlen == LitlenTally(items)[END_OF_BLOCK := LitlenTally(items)[END_OF_BLOCK] + 1];
    assert offset == OffsetTally(items);
    UsedAtMostAll(litlen, |litlen|);
    UsedAtMostAll(offset, |offset|);
    UsedPositive(litlen, |litlen|, END_OF_BLOCK);
    Pow2Mono(9, MAX_LITLEN_CODEWORD_LEN);
    Pow2Mono(9, MAX_CODEWORD_LEN);
    SmallPowers();
  }

  // ---- Making codes and header ---------------------------------------------------------------

  /** deflate_make_huffman_codes and deflate_precompute_huffman_header. The length array is read again afterwards, with
      stale lengths of unused literal/length symbols in it. */
  method Prepare(litlenFreqs: array<nat>, offsetFreqs: array<nat>) returns (p: Prepared)
    requires litlenFreqs.Length == NUM_LITLEN_SYMS && offsetFreqs.Length == NUM_OFFSET_SYMS
    requires WeightedSums.Sum(litlenFreqs[..], 0, NUM_LITLEN_SYMS) < 0x40_0000 && WeightedSums.Sum(offsetFreqs[..], 0, NUM_OFFSET_SYMS) < 0x40_0000
    requires HuffmanCode.Used(litlenFreqs[..], NUM_LITLEN_SYMS) <= Pow2(MAX_LITLEN_CODEWORD_LEN)
    requires HuffmanCode.Used(offsetFreqs[..], NUM_OFFSET_SYMS) <= Pow2(MAX_CODEWORD_LEN)
    ensures GoodPrepared(p, litlenFreqs[..], offsetFreqs[..])
  {
    hide MakeCode.CodeFor, Pow2, WeightedSums.Sum, HuffmanCode.Used, Reverses, DynamicHeader.GoodHeader, PrecodeItems.Tallied, PrecodeItems.Run, HeaderOf, Agrees, Smallest,
      GoodTables;
    var codes, litlenWords, offsetWords := MakeHuffmanCodes(litlenFreqs, offsetFreqs);
    var lens := Joined(codes.litlen, codes.offset);
    ghost var clean := lens[..];
    Parts(clean, codes);
    var h, preFreqs, preCodewords := Precompute(lens);
    Kept(clean, lens[..], codes, h);
    p := Prepared(Tables(codes, Codes(lens[..NUM_LITLEN_SYMS], lens[NUM_LITLEN_SYMS..]), litlenWords, offsetWords), h, preFreqs, preCodewords);
    TablesAreGood(p.t);
  }

  /** deflate_make_huffman_codes */
  method MakeHuffmanCodes(litlenFreqs: array<nat>, offsetFreqs: array<nat>) returns (codes: Codes, litlenWords: seq<nat>, offsetWords: seq<nat>)
    requires litlenFreqs.Length == NUM_LITLEN_SYMS && offsetFreqs.Length == NUM_OFFSET_SYMS
    requires WeightedSums.Sum(litlenFreqs[..], 0, NUM_LITLEN_SYMS) < 0x40_0000 && WeightedSums.Sum(offsetFreqs[..], 0, NUM_OFFSET_SYMS) < 0x40_0000
    requires HuffmanCode.Used(litlenFreqs[..], NUM_LITLEN_SYMS) <= Pow2(MAX_LITLEN_CODEWORD_LEN)
    requires HuffmanCode.Used(offsetFreqs[..], NUM_OFFSET_SYMS) <= Pow2(MAX_CODEWORD_LEN)
    ensures MakeCode.CodeFor(litlenFreqs[..], codes.litlen, MAX_LITLEN_CODEWORD_LEN) && Reverses(codes.litlen, litlenWords)
    ensures MakeCode.CodeFor(offsetFreqs[..], codes.offset, MAX_CODEWORD_LEN) && Reverses(codes.offset, offsetWords)
    ensures |codes.litlen| == NUM_LITLEN_SYMS && forall s :: 0 <= s < NUM_LITLEN_SYMS ==> codes.litlen[s] <= MAX_LITLEN_CODEWORD_LEN
    ensures |codes.offset| == NUM_OFFSET_SYMS && forall s :: 0 <= s < NUM_OFFSET_SYMS ==> codes.offset[s] <= MAX_CODEWORD_LEN
  {
    hide MakeCode.CodeFor, Pow2, WeightedSums.Sum, HuffmanCode.Used, Reverses;
    var litlen, words := new nat[NUM_LITLEN_SYMS], new nat[NUM_LITLEN_SYMS];
    MakeHuffmanCode(litlenFreqs, litlen, words, MAX_LITLEN_CODEWORD_LEN);
    litlenWords := words[..];
    var offset, more := new nat[NUM_OFFSET_SYMS], new nat[NUM_OFFSET_SYMS];
    MakeHuffmanCode(offsetFreqs, offset, more, MAX_CODEWORD_LEN);
    offsetWords := more[..];
    codes := Codes(litlen[..], offset[..]);
    CodeKind(litlenFreqs[..], codes.litlen, MAX_LITLEN_CODEWORD_LEN);
    CodeKind(offsetFreqs[..], codes.offset, MAX_CODEWORD_LEN);
  }

  lemma TablesAreGood(t: Tables)
    requires Agrees(t.codes.litlen, t.lens.litlen) && Agrees(t.codes.offset, t.lens.offset)
    requires Reverses(t.codes.litlen, t.litlen) && Reverses(t.codes.offset, t.offset)
    requires |t.codes.litlen| == NUM_LITLEN_SYMS && |t.codes.offset| == NUM_OFFSET_SYMS
    requires forall s :: 0 <= s < NUM_LITLEN_SYMS ==> t.codes.litlen[s] <= MAX_LITLEN_CODEWORD_LEN
    requires forall s :: 0 <= s < NUM_OFFSET_SYMS ==> t.codes.offset[s] <= MAX_OFFSET_CODEWORD_LEN
    ensures GoodTables(t)
  {
  }

  /** struct deflate_lens: the two arrays are one. */
  method Joined(litlen: seq<nat>, offset: seq<nat>) returns (lens: array<nat>)
    ensures fresh(lens) && lens[..] == litlen + offset
  {
    lens := new nat[|litlen| + |offset|](i requires 0 <= i < |litlen| + |offset| => if i < |litlen| then litlen[i] else offset[i - |litlen|]);
  }

  lemma Parts(clean: seq<nat>, codes: Codes)
    requires |codes.litlen| == NUM_LITLEN_SYMS && |codes.offset| == NUM_OFFSET_SYMS && clean == codes.litlen + codes.offset
    requires forall s :: 0 <= s < NUM_LITLEN_SYMS ==> codes.litlen[s] <= MAX_CODEWORD_LEN
    requires forall s :: 0 <= s < NUM_OFFSET_SYMS ==> codes.offset[s] <= MAX_CODEWORD_LEN
    ensures |clean| == NUM_LENS && forall s :: 0 <= s < NUM_LENS ==> clean[s] < 16
  {
  }

  /** After the header has been prepared the lengths that are not zero are still in place. */
  lemma Kept(clean: seq<nat>, after: seq<nat>, codes: Codes, h: DynamicHeader.Header)
    requires |codes.litlen| == NUM_LITLEN_SYMS && |codes.offset| == NUM_OFFSET_SYMS && clean == codes.litlen + codes.offset && |after| == NUM_LENS
    requires DynamicHeader.GoodHeader(h)
    requires PrecodeItems.Run(h.items) == clean[..h.numLitlen] + clean[NUM_LITLEN_SYMS..NUM_LITLEN_SYMS + h.numOffset]
    requires forall s :: h.numLitlen <= s < NUM_LITLEN_SYMS ==> clean[s] == 0
    requires forall s :: NUM_LITLEN_SYMS + h.numOffset <= s < NUM_LENS ==> clean[s] == 0
    requires after[..h.numLitlen] == clean[..h.numLitlen] && after[NUM_LITLEN_SYMS..] == clean[NUM_LITLEN_SYMS..]
    ensures HeaderOf(h, codes) && Agrees(codes.litlen, after[..NUM_LITLEN_SYMS])
    ensures after[NUM_LITLEN_SYMS..] == codes.offset && Agrees(codes.offset, codes.offset)
  {
    hide PrecodeItems.Run, PrecodeItems.Runnable, DynamicHeader.AllEncodable, CompleteCode;
    assert clean[..h.numLitlen] == codes.litlen[..h.numLitlen];
    assert clean[NUM_LITLEN_SYMS..NUM_LITLEN_SYMS + h.numOffset] == codes.offset[..h.numOffset];
    forall s | 0 <= s < NUM_LITLEN_SYMS && codes.litlen[s] > 0
      ensures after[s] == codes.litlen[s]
    {
      assert clean[s] == codes.litlen[s];
      assert after[..h.numLitlen][s] == after[s];
    }
    forall s | h.numOffset <= s < NUM_OFFSET_SYMS
      ensures codes.offset[s] == 0
    {
      assert clean[NUM_LITLEN_SYMS + s] == codes.offset[s];
    }
  }

  // ---- Costs ---------------------------------------------------------------------------------

  /** Bits of a block's body, by its tally. */
  function Body(codes: Codes, litlen: seq<nat>, offset: seq<nat>): nat
    requires |codes.litlen| == |litlen| == NUM_LITLEN_SYMS && |codes.offset| == |offset| == NUM_OFFSET_SYMS
  {
    Dot(litlen, LitlenWeights(codes.litlen), NUM_LITLEN_SYMS) + Dot(offset, OffsetWeights(codes.offset), NUM_OFFSET_SYMS)
  }

  lemma WeightOf(lens: seq<nat>, s: nat)
    requires |lens| == NUM_LITLEN_SYMS && s < NUM_LITLEN_SYMS
    ensures |LengthExtra| == 29
    ensures LitlenWeights(lens)[s] == lens[s] + if 257 <= s < 286 then LengthExtra[s - 257] else 0
  {
  }

  /** The cost of a body under a code, as it is summed up: literals, the end, lengths, offsets. */
  method BodyCostOf(lens: Codes, litlen: seq<nat>, offset: seq<nat>) returns (cost: nat)
    requires BlockTally(litlen, offset) && |lens.litlen| == NUM_LITLEN_SYMS && |lens.offset| == NUM_OFFSET_SYMS
    ensures cost == Body(lens, litlen, offset)
  {
    hide LitlenWeights, OffsetWeights, LengthExtra, OffsetExtra;
    ghost var w, v := LitlenWeights(lens.litlen), OffsetWeights(lens.offset);
    cost := 0;
    for sym := 0 to 256
      invariant cost == Dot(litlen, w, sym)
    {
      WeightOf(lens.litlen, sym);
      cost := cost + litlen[sym] * lens.litlen[sym];
    }
    WeightOf(lens.litlen, 256);
    cost := cost + lens.litlen[256];
    assert cost == Dot(litlen, w, 257);
    for sym := 257 to 286
      invariant cost == Dot(litlen, w, sym)
    {
      WeightOf(lens.litlen, sym);
      cost := cost + litlen[sym] * (LengthExtra[sym - 257] + lens.litlen[sym]);
    }
    LastTwo(litlen, w, 286);
    ghost var lits := cost;
    OffsetExtraSize();
    for sym := 0 to 30
      invariant cost == lits + Dot(offset, v, sym)
    {
      OffsetWeightOf(lens.offset, sym);
      cost := cost + offset[sym] * (OffsetExtra[sym] + lens.offset[sym]);
    }
    LastTwo(offset, v, 30);
  }

  /** The cost under the static codes, with their lengths of literals and offsets written out. */
  method StaticCostOf(staticLitlen: seq<nat>, litlen: seq<nat>, offset: seq<nat>) returns (cost: nat)
    requires BlockTally(litlen, offset) && staticLitlen == StaticCodes().litlen
    ensures cost == Body(StaticCodes(), litlen, offset)
  {
    hide LitlenWeights, OffsetWeights, LengthExtra, OffsetExtra;
    ghost var w, v := LitlenWeights(staticLitlen), OffsetWeights(StaticCodes().offset);
    cost := 0;
    for sym := 0 to 144
      invariant cost == Dot(litlen, w, sym)
    {
      WeightOf(staticLitlen, sym);
      cost := cost + litlen[sym] * 8;
    }
    for sym := 144 to 256
      invariant cost == Dot(litlen, w, sym)
    {
      WeightOf(staticLitlen, sym);
      cost := cost + litlen[sym] * 9;
    }
    WeightOf(staticLitlen, 256);
    cost := cost + 7;
    assert cost == Dot(litlen, w, 257);
    for sym := 257 to 286
      invariant cost == Dot(litlen, w, sym)
    {
      WeightOf(staticLitlen, sym);
      cost := cost + litlen[sym] * (LengthExtra[sym - 257] + staticLitlen[sym]);
    }
    LastTwo(litlen, w, 286);
    ghost var lits := cost;
    OffsetExtraSize();
    for sym := 0 to 30
      invariant cost == lits + Dot(offset, v, sym)
    {
      OffsetWeightOf(StaticCodes().offset, sym);
      cost := cost + offset[sym] * (OffsetExtra[sym] + 5);
    }
    LastTwo(offset, v, 30);
  }

  lemma OffsetExtraSize()
    ensures |OffsetExtra| == 30
  {
  }

  lemma OffsetWeightOf(lens: seq<nat>, s: nat)
    requires |lens| == NUM_OFFSET_SYMS && s < 30
    ensures |OffsetExtra| == 30 && OffsetWeights(lens)[s] == lens[s] + OffsetExtra[s]
  {
  }

  lemma LastTwo(f: seq<nat>, w: seq<nat>, n: nat)
    requires n + 2 <= |f| && n + 2 <= |w| && f[n] == 0 && f[n + 1] == 0
    ensures Dot(f, w, n + 2) == Dot(f, w, n)
  {
    assert Dot(f, w, n + 1) == Dot(f, w, n);
  }

  /** The cost of sending the codes. */
  method HeaderCostOf(numExplicit: nat, freqs: seq<nat>, preLens: seq<nat>) returns (cost: nat)
    requires |freqs| == |preLens| == PrecodeItems.NUM_PRECODE_SYMS
    ensures cost == 5 + 5 + 4 + 3 * numExplicit + Dot(freqs, PrecodeWeights(preLens), PrecodeItems.NUM_PRECODE_SYMS)
  {
    ghost var w := PrecodeWeights(preLens);
    cost := 5 + 5 + 4 + 3 * numExplicit;
    for sym := 0 to PrecodeItems.NUM_PRECODE_SYMS
      invariant cost == 5 + 5 + 4 + 3 * numExplicit + Dot(freqs, w, sym)
    {
      cost := cost + freqs[sym] * (CodeLengths.ExtraBits(sym) + preLens[sym]);
    }
  }

  function DivRoundUp(n: nat, d: nat): nat
    requires d > 0
  {
    (n + d - 1) / d
  }

  /** What is predicted for uncompressed blocks from this bit position on. For an empty block the count of further blocks would be -1. */
  function UncompressedCost(pos: nat, length: nat): int {
    Padding(pos) + 32 + 40 * (DivRoundUp(length, UINT16_MAX) - 1) + 8 * length
  }

  // ---- Uncompressed blocks -------------------------------------------------------------------

  function Min(a: int, b: int): int { if a < b then a else b }

  /** Data longer than one block can hold takes several. */
  function StoredBlocks(data: seq<Byte>, last: bool): (bs: seq<Block>)
    ensures |bs| > 0
    decreases |data|
  {
    if |data| <= UINT16_MAX then [Stored(last, data)] else [Stored(false, data[..UINT16_MAX])] + StoredBlocks(data[UINT16_MAX..], last)
  }

  lemma {:induction false} StoredFlags(data: seq<Byte>, last: bool)
    ensures Flagged(StoredBlocks(data, last), last)
    decreases |data|
  {
    if |data| > UINT16_MAX { StoredFlags(data[UINT16_MAX..], last); }
  }

  lemma {:induction false} StoredUnpack(data: seq<Byte>, last: bool, out: seq<Byte>)
    ensures GoodBlocks(StoredBlocks(data, last), out) && Unpacked(StoredBlocks(data, last), out) == out + data
    ensures Flagged(StoredBlocks(data, last), last)
    decreases |data|
  {
    hide BitsOf, Stream, Flagged, Good, Output, GoodBlocks, Unpacked;
    StoredFlags(data, last);
    if |data| <= UINT16_MAX {
      StoredOutput(last, data, out);
      OneBlock(Stored(last, data), 0, out);
    } else {
      var first, rest := data[..UINT16_MAX], data[UINT16_MAX..];
      StoredOutput(false, first, out);
      StoredUnpack(rest, last, out + first);
      OneMoreBlock(Stored(false, first), StoredBlocks(rest, last), out);
      assert out + first + rest == out + data;
    }
  }

  lemma StoredOutput(last: bool, data: seq<Byte>, out: seq<Byte>)
    requires |data| <= UINT16_MAX
    ensures Good(Stored(last, data), |out|) && Output(Stored(last, data), out) == out + data
  {
  }

  lemma OneMoreBlock(b: Block, rest: seq<Block>, out: seq<Byte>)
    requires Good(b, |out|) && GoodBlocks(rest, Output(b, out))
    ensures GoodBlocks([b] + rest, out) && Unpacked([b] + rest, out) == Unpacked(rest, Output(b, out))
  {
    hide Good, Output;
    assert ([b] + rest)[1..] == rest;
  }

  /** Bits of the blocks that start on a whole byte. */
  function LaterBlocks(length: nat): nat {
    if length == 0 then 0 else 40 + 8 * Min(length, UINT16_MAX) + LaterBlocks(length - Min(length, UINT16_MAX))
  }

  lemma {:induction false} LaterBlocksCost(length: nat)
    ensures LaterBlocks(length) == 40 * DivRoundUp(length, UINT16_MAX) + 8 * length
  {
    if length > UINT16_MAX {
      LaterBlocksCost(length - UINT16_MAX);
      assert (length + UINT16_MAX - 1) / UINT16_MAX == 1 + (length - 1) / UINT16_MAX;
    } else if length > 0 {
      assert (length + UINT16_MAX - 1) / UINT16_MAX == 1;
    }
  }

  lemma StoredSize(b: Block, pos: nat, before: nat)
    requires b.Stored? && Good(b, before)
    ensures |BitsOf(b, pos, before)| == 3 + Padding(pos) + 32 + 8 * |b.data| && (pos + |BitsOf(b, pos, before)|) % 8 == 0
  {
    hide Padding, ToBits, Window;
    var n := 4 + |b.data|;
    assert |BitsOf(b, pos, before)| == 3 + Padding(pos) + 8 * n;
    WholeBytes(pos + 3 + Padding(pos), n);
  }

  lemma WholeBytes(pos: nat, n: nat)
    requires pos % 8 == 0
    ensures (pos + 8 * n) % 8 == 0
  {
  }

  lemma {:induction false} StoredStreamSize(data: seq<Byte>, last: bool, pos: nat, out: seq<Byte>)
    requires GoodBlocks(StoredBlocks(data, last), out)
    ensures |Stream(StoredBlocks(data, last), pos, out)| == 3 + Padding(pos) + 32 + 8 * Min(|data|, UINT16_MAX) + LaterBlocks(|data| - Min(|data|, UINT16_MAX))
    decreases |data|
  {
    hide BitsOf, Padding;
    var bs := StoredBlocks(data, last);
    StoredSize(bs[0], pos, |out|);
    if |data| <= UINT16_MAX {
      OneBlock(bs[0], pos, out);
    } else {
      var rest, next := data[UINT16_MAX..], pos + |BitsOf(bs[0], pos, |out|)|;
      assert bs[1..] == StoredBlocks(rest, last);
      var more := StoredBlocks(rest, last);
      StoredStreamSize(rest, last, next, Output(bs[0], out));
      AlignedPadding(next);
    }
  }

  lemma AlignedPadding(pos: nat)
    requires pos % 8 == 0
    ensures Padding(pos) == 5
  {
  }

  /** The predicted cost of uncompressed blocks is exact exactly when there is something to store; for an empty block forty
      bits more are written, and in 32 bits the prediction wraps around. */
  lemma StoredCost(data: seq<Byte>, last: bool, pos: nat, out: seq<Byte>)
    requires GoodBlocks(StoredBlocks(data, last), out)
    ensures |Stream(StoredBlocks(data, last), pos, out)| == 3 + UncompressedCost(pos, |data|) <==> |data| > 0
    ensures |data| == 0 ==> |Stream(StoredBlocks(data, last), pos, out)| == 3 + UncompressedCost(pos, 0) + 40 && UncompressedCost(pos, 0) < 0
  {
    hide Stream, StoredBlocks, Padding;
    StoredStreamSize(data, last, pos, out);
    LaterBlocksCost(|data| - Min(|data|, UINT16_MAX));
    if |data| > UINT16_MAX {
      assert (|data| + UINT16_MAX - 1) / UINT16_MAX == 1 + (|data| - 1) / UINT16_MAX;
    } else if |data| > 0 {
      assert (|data| + UINT16_MAX - 1) / UINT16_MAX == 1;
    }
  }

  /** At the start of a stream an empty block is predicted to take -3 bits; with its start it takes 40. */
  lemma EmptyBlockCost(last: bool)
    ensures GoodBlocks(StoredBlocks([], last), []) && UncompressedCost(0, 0) == -3 && |Stream(StoredBlocks([], last), 0, [])| == 40
  {
    hide Stream, StoredBlocks, GoodBlocks, Unpacked;
    StoredUnpack([], last, []);
    StoredCost([], last, 0, []);
    AlignedPadding(0);
    assert (UINT16_MAX - 1) / UINT16_MAX == 0;
  }

  method WriteBlockHeader(os: OutputBitstream, last: bool, kind: nat, wordwise: bool)
    requires os.Valid() && os.bitcount < 8 && kind < 4
    modifies os`bitbuf, os`bitcount, os`all, os`next, os.buffer
    ensures os.Valid() && os.bitcount < 8 && os.bitcount == (old(os.bitcount) + 3) % 8
    ensures os.all == old(os.all) + (ToBits(One(last), 1) + ToBits(kind, 2))
  {
    hide OutputBitstream.Valid, ToBits;
    assert Pow2(1) == 2 && Pow2(2) == 4;
    ghost var before := os.all;
    os.AddBits(One(last), 1);
    os.AddBits(kind, 2);
    os.FlushBits(wordwise);
    Regroup(before, ToBits(One(last), 1), ToBits(kind, 2));
  }

  lemma Regroup(s: Bits, a: Bits, b: Bits)
    ensures s + a + b == s + (a + b)
  {
  }

  lemma PaddingIsPad(pos: nat, waiting: nat)
    requires pos % 8 == waiting % 8
    ensures Pad((waiting + 3) % 8) == Padding(pos)
  {
    var m := pos % 8;
    assert (waiting + 3) % 8 == (m + 3) % 8 && (pos + 3) % 8 == (m + 3) % 8;
  }

  method WriteUncompressedBlock(os: OutputBitstream, data: seq<Byte>, last: bool, wordwise: bool, ghost before: nat)
    requires os.Valid() && os.bitcount < 8 && |data| <= UINT16_MAX
    modifies os`bitbuf, os`bitcount, os`all, os`next, os.buffer
    ensures os.Valid() && os.bitcount == 0 && os.all == old(os.all) + BitsOf(Stored(last, data), |old(os.all)|, before)
  {
    hide OutputBitstream.Valid, ToBits, Window, Padding, Pad;
    ghost var all, bytes := os.all, LengthFields(|data|) + data;
    os.InStep();
    PaddingIsPad(|all|, os.bitcount);
    WriteBlockHeader(os, last, UNCOMPRESSED, wordwise);
    ghost var start := os.all;
    os.AlignBitstream(wordwise);
    ghost var padded := os.all;
    os.PutBytes(LengthFields(|data|) + data);
    Regroup(start, ToBits(0, Padding(|all|)), Window(bytes, 0, 8 * |bytes|));
    Regroup(all, StartBits(Stored(last, data)), ToBits(0, Padding(|all|)) + Window(bytes, 0, 8 * |bytes|));
  }

  method WriteUncompressedBlocks(os: OutputBitstream, data: seq<Byte>, last: bool, wordwise: bool, ghost out: seq<Byte>)
    requires os.Valid() && os.bitcount < 8
    modifies os`bitbuf, os`bitcount, os`all, os`next, os.buffer
    ensures os.Valid() && os.bitcount == 0 && GoodBlocks(StoredBlocks(data, last), out)
    ensures os.all == old(os.all) + Stream(StoredBlocks(data, last), |old(os.all)|, out)
  {
    hide OutputBitstream.Valid, BitsOf, Stream, GoodBlocks, Unpacked, Output, Good;
    StoredUnpack(data, last, out);
    ghost var start, bits, o := os.all, Stream(StoredBlocks(data, last), |os.all|, out), out;
    var rest := data;
    while true
      invariant os.Valid() && os.bitcount < 8 && GoodBlocks(StoredBlocks(rest, last), o)
      invariant os.all + Stream(StoredBlocks(rest, last), |os.all|, o) == start + bits
      decreases |rest|
    {
      var len := Min(|rest|, UINT16_MAX);
      ghost var all, b := os.all, Stored(last && len == |rest|, rest[..len]);
      FirstStored(rest, last, |all|, o);
      WriteUncompressedBlock(os, rest[..len], last && len == |rest|, wordwise, |o|);
      Regroup(all, BitsOf(b, |all|, |o|), Stream(StoredBlocks(rest[len..], last), |os.all|, o + b.data));
      if len == |rest| { return; }
      o := o + b.data;
      rest := rest[len..];
    }
  }

  /** The first of several blocks, and the others. */
  lemma FirstStored(rest: seq<Byte>, last: bool, pos: nat, out: seq<Byte>)
    requires GoodBlocks(StoredBlocks(rest, last), out)
    ensures var len := Min(|rest|, UINT16_MAX); var b := Stored(last && len == |rest|, rest[..len]);
      && Good(b, |out|) && GoodBlocks(StoredBlocks(rest[len..], last), out + b.data)
      && (len == |rest| ==> Stream(StoredBlocks(rest, last), pos, out) == BitsOf(b, pos, |out|))
      && var first := BitsOf(b, pos, |out|); var more := Stream(StoredBlocks(rest[len..], last), pos + |first|, out + b.data);
      len < |rest| ==> Stream(StoredBlocks(rest, last), pos, out) == first + more
  {
    hide BitsOf;
    var len := Min(|rest|, UINT16_MAX);
    StoredUnpack(rest[len..], last, out + rest[..len]);
    if len == |rest| {
      assert rest[..len] == rest;
      OneBlock(Stored(last, rest), pos, out);
    } else {
      assert StoredBlocks(rest, last)[1..] == StoredBlocks(rest[len..], last);
    }
  }

  // ---- Items and sequences -------------------------------------------------------------------

  lemma {:induction false} EncodableParts(codes: Codes, a: seq<Item>, b: seq<Item>, before: nat)
    requires |codes.litlen| == NUM_LITLEN_SYMS && |codes.offset| == NUM_OFFSET_SYMS
    requires ValidItems(a + b, before) && AllEncodable(codes, a + b, before)
    ensures ValidItems(a, before) && AllEncodable(codes, a, before)
    ensures ValidItems(b, before + TotalSize(a)) && AllEncodable(codes, b, before + TotalSize(a))
    decreases |a|
  {
    hide Encodable, ValidItem;
    if a == [] {
      assert a + b == b;
    } else {
      assert (a + b)[1..] == a[1..] + b && (a + b)[0] == a[0];
      EncodableParts(codes, a[1..], b, before + Size(a[0]));
    }
  }

  lemma {:induction false} EncodableRun(codes: Codes, input: seq<Byte>, pos: nat, n: nat, before: nat)
    requires pos + n <= |input| && |codes.litlen| == NUM_LITLEN_SYMS && |codes.offset| == NUM_OFFSET_SYMS
    requires ValidItems(Literals(input, pos, n), before) && AllEncodable(codes, Literals(input, pos, n), before)
    ensures RunEncodable(codes.litlen, input, pos, n)
    decreases n
  {
    if n > 0 { EncodableRun(codes, input, pos + 1, n - 1, before + 1); }
  }

  /** Codes for all items are codes for all sequences. */
  lemma {:induction false} EncodableSequences(codes: Codes, seqs: seq<Sequence>, input: seq<Byte>, pos: nat, before: nat)
    requires GoodSequences(seqs, input, pos) && |codes.litlen| == NUM_LITLEN_SYMS && |codes.offset| == NUM_OFFSET_SYMS
    requires ValidItems(SequenceItems(seqs, input, pos), before) && AllEncodable(codes, SequenceItems(seqs, input, pos), before)
    ensures SequencesEncodable(codes, seqs, input, pos)
    decreases |seqs|
  {
    hide RunEncodable, Literals, LengthSlot, OffsetSlot, AllEncodable, ValidItems, ValidItem, TotalSize, ItemsBits, LiteralBits, Contiguous,
      LengthBase, OffsetBase;
    var run, n := Literals(input, pos, seqs[0].litrunlen), seqs[0].litrunlen;
    if seqs[0].length == 0 {
      EncodableRun(codes, input, pos, n, before);
    } else {
      var m, rest := Match(seqs[0].length, seqs[0].offset), SequenceItems(seqs[1..], input, pos + n + seqs[0].length);
      LiteralsBits(codes, input, pos, n, before);
      EncodableParts(codes, run, [m] + rest, before);
      EncodableRun(codes, input, pos, n, before);
      EncodableMatch(codes, m, rest, before + n);
      EncodableSequences(codes, seqs[1..], input, pos + n + seqs[0].length, before + n + seqs[0].length);
    }
  }

  lemma EncodableMatch(codes: Codes, m: Item, rest: seq<Item>, before: nat)
    requires |codes.litlen| == NUM_LITLEN_SYMS && |codes.offset| == NUM_OFFSET_SYMS && m.Match?
    requires ValidItems([m] + rest, before) && AllEncodable(codes, [m] + rest, before)
    ensures ValidItem(m, before) && Encodable(codes, m, before)
    ensures ValidItems(rest, before + m.length) && AllEncodable(codes, rest, before + m.length)
  {
    assert ([m] + rest)[1..] == rest;
  }

  /** The static codes have a codeword for everything. */
  lemma StaticEncodes(items: seq<Item>, before: nat)
    requires ValidItems(items, before)
    ensures GoodBody(StaticCodes(), items, before)
  {
    hide LitlenSymbol, OffsetSymbolOf;
    forall k | 0 <= k < |items|
      ensures Occurs(items[k], StaticCodes().litlen, StaticCodes().offset)
    {
      ItemInRange(items, before, k);
    }
    EachIsEnough(StaticCodes(), items, before);
  }

  lemma {:induction false} ItemInRange(items: seq<Item>, before: nat, k: nat)
    requires ValidItems(items, before) && k < |items|
    ensures LitlenSymbol(items[k]) < 286 && -1 <= OffsetSymbolOf(items[k]) < 30
    decreases k
  {
    hide LitlenSymbol, OffsetSymbolOf, ValidItem;
    if k == 0 { SymbolRange(items[0], before); } else { ItemInRange(items[1..], before + Size(items[0]), k - 1); }
  }

  // ---- The choice ----------------------------------------------------------------------------

  /** The three ways to write the block. */
  datatype Choices = Choices(dynamic: Block, fixed: Block, stored: seq<Block>)

  ghost predicate GoodChoices(c: Choices, out: seq<Byte>, result: seq<Byte>, last: bool) {
    && c.dynamic.Dynamic? && c.dynamic.last == last && Good(c.dynamic, |out|) && Output(c.dynamic, out) == result
    && c.fixed.Fixed? && c.fixed.last == last && Good(c.fixed, |out|) && Output(c.fixed, out) == result
    && GoodBlocks(c.stored, out) && Flagged(c.stored, last) && Unpacked(c.stored, out) == result
  }

  /** The bits of each. */
  ghost function DynamicSize(c: Choices, pos: nat, before: nat): nat
    requires Good(c.dynamic, before)
  {
    |BitsOf(c.dynamic, pos, before)|
  }

  ghost function FixedSize(c: Choices, pos: nat, before: nat): nat
    requires Good(c.fixed, before)
  {
    |BitsOf(c.fixed, pos, before)|
  }

  ghost function StoredTotal(c: Choices, pos: nat, out: seq<Byte>): nat
    requires GoodBlocks(c.stored, out)
  {
    |Stream(c.stored, pos, out)|
  }

  /** What has been chosen for a block: sequences, or the choices along a path. */
  datatype Source = FromSequences(seqs: seq<Sequence>) | FromChoices(choices: seq<nat>)

  predicate GoodSource(src: Source, input: seq<Byte>, start: nat, length: nat) {
    match src
    case FromSequences(seqs) => GoodSequences(seqs, input, start)
    case FromChoices(choices) => length > 0 && ItemList.GoodList(choices, 0, length)
  }

  function SourceItems(src: Source, input: seq<Byte>, start: nat, length: nat): seq<Item>
    requires GoodSource(src, input, start, length)
  {
    match src
    case FromSequences(seqs) => SequenceItems(seqs, input, start)
    case FromChoices(choices) => ItemList.ListItems(choices, 0, length)
  }

  /** The block is finished: its items are tallied and expand to its bytes. */
  ghost predicate Ready(src: Source, litlen: seq<nat>, offset: seq<nat>, input: seq<Byte>, start: nat, length: nat) {
    && GoodSource(src, input, start, length)
    && FinishedItems(SourceItems(src, input, start, length), litlen, offset, input, start, start + length)
  }

  /** All three ways unpack to the block's bytes. */
  ghost function ChoicesFor(p: Prepared, src: Source, input: seq<Byte>, start: nat, length: nat, last: bool): Choices
    requires GoodSource(src, input, start, length) && start + length <= |input|
  {
    var items := SourceItems(src, input, start, length);
    Choices(Dynamic(last, p.h, p.t.codes, items), Fixed(last, items), StoredBlocks(input[start..start + length], last))
  }

  lemma ChoicesAreGood(p: Prepared, src: Source, litlen: seq<nat>, offset: seq<nat>, input: seq<Byte>, start: nat, length: nat, last: bool)
    requires Ready(src, litlen, offset, input, start, length) && GoodPrepared(p, litlen, offset)
    requires |litlen| == NUM_LITLEN_SYMS && HuffmanCode.Used(litlen, |litlen|) > 0
    ensures GoodChoices(ChoicesFor(p, src, input, start, length, last), input[..start], input[..start + length], last)
  {
    hide Smallest, GoodSource, SourceItems, Expand, ValidItems, AllEncodable, TallyOf, HuffmanCode.Used, MakeCode.CodeFor, End,
      GoodTables, Reverses, PrecodeItems.Tallied, HeaderOf, StoredBlocks;
    var items := SourceItems(src, input, start, length);
    OwnTallyEncodes(p.t.codes, items, start, litlen, offset, MAX_LITLEN_CODEWORD_LEN);
    StaticEncodes(items, start);
    CodeKind(litlen, p.t.codes.litlen, MAX_LITLEN_CODEWORD_LEN);
    CodeKind(offset, p.t.codes.offset, MAX_CODEWORD_LEN);
    CompleteLonger(p.t.codes.litlen, MAX_LITLEN_CODEWORD_LEN, MAX_CODEWORD_LEN);
    if EmptyCode(p.t.codes.offset) { EmptyFits(p.t.codes.offset, MAX_CODEWORD_LEN); }
    StoredUnpack(input[start..start + length], last, input[..start]);
    assert input[..start] + input[start..start + length] == input[..start + length];
  }

  /** What was computed for the three ways, in bits, without the three of the block's start. */
  datatype Costs = Costs(dynamic: nat, fixed: nat, stored: int)

  ghost predicate Exact(k: Costs, c: Choices, pos: nat, out: seq<Byte>)
    requires Good(c.dynamic, |out|) && Good(c.fixed, |out|) && GoodBlocks(c.stored, out)
  {
    && DynamicSize(c, pos, |out|) == 3 + k.dynamic && FixedSize(c, pos, |out|) == 3 + k.fixed && StoredTotal(c, pos, out) == 3 + k.stored
  }

  /** The dynamic cost, summed up from the length array with its stale entries, is that of the clean codes. */
  lemma StaleBody(t: Tables, litlen: seq<nat>, offset: seq<nat>)
    requires GoodTables(t) && t.lens.offset == t.codes.offset && |litlen| == NUM_LITLEN_SYMS && |offset| == NUM_OFFSET_SYMS
    requires forall s :: 0 <= s < NUM_LITLEN_SYMS && litlen[s] > 0 ==> t.codes.litlen[s] > 0
    ensures |t.lens.litlen| == NUM_LITLEN_SYMS && |t.lens.offset| == NUM_OFFSET_SYMS
    ensures |t.codes.litlen| == NUM_LITLEN_SYMS && |t.codes.offset| == NUM_OFFSET_SYMS
    ensures Body(t.lens, litlen, offset) == Body(t.codes, litlen, offset)
  {
    hide Dot, LitlenWeights, OffsetWeights, Reverses;
    StaleIsHarmless(litlen, t.codes.litlen, t.lens.litlen, NUM_LITLEN_SYMS);
  }

  lemma UsedHaveLengths(freqs: seq<nat>, lens: seq<nat>, max: nat)
    requires MakeCode.CodeFor(freqs, lens, max)
    ensures |lens| == |freqs| && forall s :: 0 <= s < |freqs| && freqs[s] > 0 ==> lens[s] > 0
  {
    hide MakeCode.CodeFor;
    CodeSize(freqs, lens, max);
    forall s | 0 <= s < |freqs| && freqs[s] > 0 ensures lens[s] > 0 { CodeCovers(freqs, lens, max, s); }
  }

  /** Sizes of the bodies and of the header, as they are summed up. */
  lemma CostsAreExact(p: Prepared, src: Source, litlen: seq<nat>, offset: seq<nat>, input: seq<Byte>, start: nat, length: nat, last: bool,
                      pos: nat, k: Costs)
    requires Ready(src, litlen, offset, input, start, length) && GoodPrepared(p, litlen, offset) && length > 0
    requires |litlen| == NUM_LITLEN_SYMS && |offset| == NUM_OFFSET_SYMS && HuffmanCode.Used(litlen, |litlen|) > 0
    requires |p.t.lens.litlen| == NUM_LITLEN_SYMS && |p.t.lens.offset| == NUM_OFFSET_SYMS
    requires |p.h.preLens| == |p.preFreqs| == PrecodeItems.NUM_PRECODE_SYMS
    requires k.dynamic == 5 + 5 + 4 + 3 * p.h.numExplicit + Dot(p.preFreqs, PrecodeWeights(p.h.preLens), PrecodeItems.NUM_PRECODE_SYMS)
                          + Body(p.t.lens, litlen, offset)
    requires k.fixed == Body(StaticCodes(), litlen, offset) && k.stored == UncompressedCost(pos, length)
    ensures GoodChoices(ChoicesFor(p, src, input, start, length, last), input[..start], input[..start + length], last)
    ensures Exact(k, ChoicesFor(p, src, input, start, length, last), pos, input[..start])
  {
    hide Smallest, GoodSource, SourceItems, Expand, ValidItems, AllEncodable, TallyOf, HuffmanCode.Used, MakeCode.CodeFor, End,
      GoodTables, Reverses, PrecodeItems.Tallied, StoredBlocks, Dot, DynamicHeader.GoodHeader, BlockBits, DynamicHeader.HeaderBits, UncompressedCost, Stream,
      LitlenWeights, OffsetWeights, PrecodeWeights, Sendable, CompleteCode, PrecodeItems.Run, Agrees, ToBits, GoodBlocks, Unpacked;
    var items := SourceItems(src, input, start, length);
    ChoicesAreGood(p, src, litlen, offset, input, start, length, last);
    UsedHaveLengths(litlen, p.t.codes.litlen, MAX_LITLEN_CODEWORD_LEN);
    StaleBody(p.t, litlen, offset);
    HeaderCost(p.h, p.preFreqs);
    BodyCost(p.t.codes, items, start, litlen, offset);
    BodyCost(StaticCodes(), items, start, litlen, offset);
    StoredCost(input[start..start + length], last, pos, input[..start]);
  }

  method Predict(p: Prepared, staticLitlen: seq<nat>, litlen: seq<nat>, offset: seq<nat>, pos: nat, length: nat) returns (k: Costs)
    requires BlockTally(litlen, offset) && staticLitlen == StaticCodes().litlen
    requires |p.t.lens.litlen| == NUM_LITLEN_SYMS && |p.t.lens.offset| == NUM_OFFSET_SYMS
    requires |p.h.preLens| == |p.preFreqs| == PrecodeItems.NUM_PRECODE_SYMS
    ensures k.dynamic == 5 + 5 + 4 + 3 * p.h.numExplicit + Dot(p.preFreqs, PrecodeWeights(p.h.preLens), PrecodeItems.NUM_PRECODE_SYMS)
                         + Body(p.t.lens, litlen, offset)
    ensures k.fixed == Body(StaticCodes(), litlen, offset) && k.stored == UncompressedCost(pos, length)
  {
    hide Dot, Body, BlockTally;
    var header := HeaderCostOf(p.h.numExplicit, p.preFreqs, p.h.preLens);
    var body := BodyCostOf(p.t.lens, litlen, offset);
    var fixed := StaticCostOf(staticLitlen, litlen, offset);
    k := Costs(header + body, fixed, UncompressedCost(pos, length));
  }

  // ---- Flushing ------------------------------------------------------------------------------

  /** Everything about a block that the three ways to write it need. */
  datatype Job = Job(p: Prepared, staticTables: Tables, src: Source, input: seq<Byte>, start: nat, length: nat, last: bool)

  ghost predicate GoodJob(j: Job) {
    && GoodTables(j.p.t) && GoodTables(j.staticTables) && j.staticTables.codes == StaticCodes()
    && j.start + j.length <= |j.input| && GoodSource(j.src, j.input, j.start, j.length)
    && Reverses(j.p.h.preLens, j.p.preCodewords)
    && GoodChoices(ChoicesFor(j.p, j.src, j.input, j.start, j.length, j.last), j.input[..j.start], j.input[..j.start + j.length], j.last)
  }

  ghost function Ways(j: Job): Choices
    requires GoodJob(j)
  {
    ChoicesFor(j.p, j.src, j.input, j.start, j.length, j.last)
  }

  /** The block type is the cheapest by what was computed. */
  function Cheapest(k: Costs): nat {
    if k.dynamic < Min(k.fixed, k.stored) then DYNAMIC_HUFFMAN else if k.fixed < k.stored then STATIC_HUFFMAN else UNCOMPRESSED
  }

  ghost function ChosenBlocks(c: Choices, kind: nat): seq<Block> {
    if kind == DYNAMIC_HUFFMAN then [c.dynamic] else if kind == STATIC_HUFFMAN then [c.fixed] else c.stored
  }

  lemma ChosenIsGood(c: Choices, kind: nat, out: seq<Byte>, result: seq<Byte>, last: bool, pos: nat)
    requires GoodChoices(c, out, result, last)
    ensures GoodBlocks(ChosenBlocks(c, kind), out) && Unpacked(ChosenBlocks(c, kind), out) == result && Flagged(ChosenBlocks(c, kind), last)
    ensures kind == DYNAMIC_HUFFMAN ==> Stream(ChosenBlocks(c, kind), pos, out) == BitsOf(c.dynamic, pos, |out|)
    ensures kind == STATIC_HUFFMAN ==> Stream(ChosenBlocks(c, kind), pos, out) == BitsOf(c.fixed, pos, |out|)
  {
    hide Good, BitsOf, Output, Stream, GoodBlocks, Unpacked;
    OneBlock(c.dynamic, pos, out);
    OneBlock(c.fixed, pos, out);
  }

  /** Of exact costs the cheapest way has the least bits. */
  lemma ChosenIsCheapest(k: Costs, c: Choices, out: seq<Byte>, result: seq<Byte>, last: bool, pos: nat)
    requires GoodChoices(c, out, result, last) && Exact(k, c, pos, out)
    ensures GoodBlocks(ChosenBlocks(c, Cheapest(k)), out)
    ensures |Stream(ChosenBlocks(c, Cheapest(k)), pos, out)| == 3 + Min(k.dynamic, Min(k.fixed, k.stored))
  {
    hide Good, BitsOf, Output, Stream, GoodBlocks, Unpacked;
    ChosenIsGood(c, Cheapest(k), out, result, last, pos);
  }

  /** The body of the block with some codes: its sequences or its list of items, and the end. */
  method WriteBody(os: OutputBitstream, t: Tables, j: Job, wordwise: bool)
    requires os.Valid() && os.bitcount < 8 && GoodTables(t) && GoodSource(j.src, j.input, j.start, j.length)
    requires GoodBody(t.codes, SourceItems(j.src, j.input, j.start, j.length), j.start)
    modifies os`bitbuf, os`bitcount, os`all, os`next, os.buffer
    ensures os.Valid() && os.bitcount < 8
    ensures os.all == old(os.all) + BlockBits(t.codes, SourceItems(j.src, j.input, j.start, j.length), j.start)
  {
    hide OutputBitstream.Valid, GoodTables, GoodSequences, SequencesEncodable, SequenceItems, ItemList.ListItems, ItemList.GoodList, AllEncodable, ValidItems, CodeBits,
      ItemsBits;
    match j.src
    case FromSequences(seqs) =>
      EncodableSequences(t.codes, seqs, j.input, j.start, j.start);
      WriteBlock(os, t, seqs, j.input, j.start, wordwise, j.start);
    case FromChoices(choices) =>
      ghost var all, bits := os.all, ItemsBits(t.codes, ItemList.ListItems(choices, 0, j.length), j.start);
      ItemList.WriteItemList(os, t, choices, j.length, wordwise, j.start);
      WriteEndOfBlock(os, t, wordwise);
      Regroup(all, bits, CodeBits(t.codes.litlen, END_OF_BLOCK));
  }

  method WriteDynamic(os: OutputBitstream, j: Job, wordwise: bool)
    requires os.Valid() && os.bitcount < 8 && GoodJob(j)
    modifies os`bitbuf, os`bitcount, os`all, os`next, os.buffer
    ensures os.Valid() && os.bitcount < 8 && os.all == old(os.all) + BitsOf(Ways(j).dynamic, |old(os.all)|, j.start)
  {
    hide OutputBitstream.Valid, GoodTables, GoodSource, SourceItems, ValidItems, Reverses, DynamicHeader.HeaderBits, BlockBits,
      DynamicHeader.GoodHeader, Output, GoodBlocks, AllEncodable, CompleteCode, Sendable, Unpacked, StoredBlocks;
    ghost var all, b := os.all, Ways(j).dynamic;
    DynamicHeader.HeaderShape(j.p.h);
    WriteBlockHeader(os, j.last, DYNAMIC_HUFFMAN, wordwise);
    ghost var started := os.all;
    DynamicHeader.WriteHeader(os, j.p.h, j.p.preCodewords, wordwise);
    WriteBody(os, j.p.t, j, wordwise);
    Regroup(started, DynamicHeader.HeaderBits(j.p.h), BlockBits(j.p.t.codes, b.items, j.start));
    Regroup(all, StartBits(b), Rest(b, |all|, j.start));
  }

  method WriteStatic(os: OutputBitstream, j: Job, wordwise: bool)
    requires os.Valid() && os.bitcount < 8 && GoodJob(j)
    modifies os`bitbuf, os`bitcount, os`all, os`next, os.buffer
    ensures os.Valid() && os.bitcount < 8 && os.all == old(os.all) + BitsOf(Ways(j).fixed, |old(os.all)|, j.start)
  {
    hide OutputBitstream.Valid, GoodTables, GoodSource, SourceItems, ValidItems, Reverses, DynamicHeader.HeaderBits, BlockBits,
      DynamicHeader.GoodHeader, Output, GoodBlocks, AllEncodable, CompleteCode, Sendable, Unpacked, StoredBlocks;
    ghost var all, b := os.all, Ways(j).fixed;
    WriteBlockHeader(os, j.last, STATIC_HUFFMAN, wordwise);
    WriteBody(os, j.staticTables, j, wordwise);
    Regroup(all, StartBits(b), Rest(b, |all|, j.start));
  }

  method WriteChosen(os: OutputBitstream, j: Job, kind: nat, wordwise: bool)
    requires os.Valid() && os.bitcount < 8 && GoodJob(j) && kind < 3
    modifies os`bitbuf, os`bitcount, os`all, os`next, os.buffer
    ensures os.Valid() && os.bitcount < 8
    ensures GoodBlocks(ChosenBlocks(Ways(j), kind), j.input[..j.start])
    ensures os.all == old(os.all) + Stream(ChosenBlocks(Ways(j), kind), |old(os.all)|, j.input[..j.start])
  {
    hide OutputBitstream.Valid, GoodTables, GoodSource, SourceItems, Reverses, BitsOf, Stream, GoodBlocks, Good, Output, Unpacked, StoredBlocks;
    JobParts(j);
    ChosenIsGood(Ways(j), kind, j.input[..j.start], j.input[..j.start + j.length], j.last, |os.all|);
    if kind == DYNAMIC_HUFFMAN {
      WriteDynamic(os, j, wordwise);
    } else if kind == STATIC_HUFFMAN {
      WriteStatic(os, j, wordwise);
    } else {
      WriteUncompressedBlocks(os, j.input[j.start..j.start + j.length], j.last, wordwise, j.input[..j.start]);
    }
  }

  lemma JobParts(j: Job)
    requires GoodJob(j)
    ensures GoodChoices(Ways(j), j.input[..j.start], j.input[..j.start + j.length], j.last) && j.start + j.length <= |j.input|
    ensures Ways(j).stored == StoredBlocks(j.input[j.start..j.start + j.length], j.last)
  {
  }

  /** deflate_flush_block, for a finished list of sequences or items with its tally: makes the codes, predicts the three costs and
      writes the block in the cheapest way. The predictions are exact for all three ways; whichever is written unpacks,
      after the bytes before the block, to the bytes up to its end. */
  method Flush(os: OutputBitstream, staticTables: Tables, litlenFreqs: array<nat>, offsetFreqs: array<nat>, src: Source,
               input: seq<Byte>, start: nat, length: nat, last: bool, wordwise: bool)
    returns (k: Costs, ghost c: Choices)
    requires os.Valid() && os.bitcount < 8 && GoodTables(staticTables) && staticTables.codes == staticTables.lens == StaticCodes()
    requires litlenFreqs.Length == NUM_LITLEN_SYMS && offsetFreqs.Length == NUM_OFFSET_SYMS
    requires Ready(src, litlenFreqs[..], offsetFreqs[..], input, start, length) && 0 < length && length + 1 < 0x40_0000
    modifies os`bitbuf, os`bitcount, os`all, os`next, os.buffer
    ensures os.Valid() && os.bitcount < 8
    ensures GoodChoices(c, input[..start], input[..start + length], last) && Exact(k, c, |old(os.all)|, input[..start])
    ensures GoodBlocks(ChosenBlocks(c, Cheapest(k)), input[..start])
    ensures os.all == old(os.all) + Stream(ChosenBlocks(c, Cheapest(k)), |old(os.all)|, input[..start])
    ensures |os.all| == |old(os.all)| + 3 + Min(k.dynamic, Min(k.fixed, k.stored))
    ensures WaysAre(c, src, input, start, length, litlenFreqs[..], offsetFreqs[..])
  {
    hide OutputBitstream.Valid, GoodTables, Ready, WaysAre, BlockTally, WeightedSums.Sum, HuffmanCode.Used, Pow2, GoodPrepared, Exact, GoodChoices, ChosenBlocks,
      Cheapest, Stream, GoodBlocks, UncompressedCost, Padding, Dot, Body, GoodJob;
    ghost var litlen, offset, pos := litlenFreqs[..], offsetFreqs[..], |os.all|;
    FinishedFits(src, litlen, offset, input, start, length);
    var p := Prepare(litlenFreqs, offsetFreqs);
    PreparedSizes(p, litlen, offset);
    k := Predict(p, staticTables.lens.litlen, litlenFreqs[..], offsetFreqs[..], os.bitcount, length);
    os.InStep();
    SameStored(pos, os.bitcount, length);
    CostsAreExact(p, src, litlen, offset, input, start, length, last, pos, k);
    var j := Job(p, staticTables, src, input, start, length, last);
    JobIsGood(j, litlen, offset);
    c := Ways(j);
    WaysOf(j, litlen, offset);
    CheapestIsKind(k);
    ChosenIsCheapest(k, c, input[..start], input[..start + length], last, pos);
    WriteChosen(os, j, Cheapest(k), wordwise);
  }

  /** All three ways are for the source's items; the dynamic codes are made from the tally, and the stored blocks hold the
      bytes. */
  ghost predicate WaysAre(c: Choices, src: Source, input: seq<Byte>, start: nat, length: nat, litlen: seq<nat>, offset: seq<nat>) {
    && start + length <= |input| && GoodSource(src, input, start, length)
    && c.dynamic.Dynamic? && c.dynamic.items == SourceItems(src, input, start, length)
    && c.fixed.Fixed? && c.fixed.items == SourceItems(src, input, start, length)
    && MakeCode.CodeFor(litlen, c.dynamic.codes.litlen, 14) && MakeCode.CodeFor(offset, c.dynamic.codes.offset, 15)
    && Smallest(c.dynamic.h, c.dynamic.codes.litlen, c.dynamic.codes.offset)
    && (forall i :: 0 <= i < |c.stored| ==> c.stored[i].Stored?)
  }

  lemma WaysOf(j: Job, litlen: seq<nat>, offset: seq<nat>)
    requires GoodJob(j) && GoodPrepared(j.p, litlen, offset)
    ensures WaysAre(Ways(j), j.src, j.input, j.start, j.length, litlen, offset)
  {
    hide GoodTables, MakeCode.CodeFor, GoodChoices, HeaderOf, Reverses, PrecodeItems.Tallied, SourceItems, GoodSource, Smallest;
    AllStored(j.input[j.start..j.start + j.length], j.last);
  }

  lemma {:induction false} AllStored(data: seq<Byte>, last: bool)
    ensures forall i :: 0 <= i < |StoredBlocks(data, last)| ==> StoredBlocks(data, last)[i].Stored?
    decreases |data|
  {
    if |data| > UINT16_MAX { AllStored(data[UINT16_MAX..], last); }
  }

  lemma CheapestIsKind(k: Costs)
    ensures Cheapest(k) < 3
  {
  }

  lemma SameStored(pos: nat, waiting: nat, length: nat)
    requires pos % 8 == waiting % 8
    ensures UncompressedCost(pos, length) == UncompressedCost(waiting, length)
  {
    PaddingIsPad(pos, waiting);
    PaddingIsPad(waiting, waiting);
  }

  lemma PreparedSizes(p: Prepared, litlen: seq<nat>, offset: seq<nat>)
    requires GoodPrepared(p, litlen, offset)
    ensures |p.t.lens.litlen| == NUM_LITLEN_SYMS && |p.t.lens.offset| == NUM_OFFSET_SYMS
    ensures |p.h.preLens| == |p.preFreqs| == PrecodeItems.NUM_PRECODE_SYMS
  {
    hide Reverses, MakeCode.CodeFor;
  }

  lemma FinishedFits(src: Source, litlen: seq<nat>, offset: seq<nat>, input: seq<Byte>, start: nat, length: nat)
    requires Ready(src, litlen, offset, input, start, length) && length + 1 < 0x40_0000
    ensures BlockTally(litlen, offset) && start + length <= |input| && GoodSource(src, input, start, length)
    ensures WeightedSums.Sum(litlen, 0, |litlen|) < 0x40_0000 && WeightedSums.Sum(offset, 0, |offset|) < 0x40_0000
    ensures HuffmanCode.Used(litlen, |litlen|) <= Pow2(MAX_LITLEN_CODEWORD_LEN) && HuffmanCode.Used(offset, |offset|) <= Pow2(MAX_CODEWORD_LEN)
    ensures HuffmanCode.Used(litlen, |litlen|) > 0
  {
    hide GoodSource, SourceItems, TallyOf, ValidItems, Expand, Pow2, WeightedSums.Sum, HuffmanCode.Used;
    var items := SourceItems(src, input, start, length);
    ExpandSize(input[..start], items);
    TallyFits(items, start, litlen, offset);
  }

  lemma JobIsGood(j: Job, litlen: seq<nat>, offset: seq<nat>)
    requires Ready(j.src, litlen, offset, j.input, j.start, j.length) && GoodPrepared(j.p, litlen, offset)
    requires |litlen| == NUM_LITLEN_SYMS && HuffmanCode.Used(litlen, |litlen|) > 0
    requires GoodTables(j.staticTables) && j.staticTables.codes == StaticCodes()
    ensures GoodJob(j)
    ensures GoodSource(j.src, j.input, j.start, j.length) && Ways(j) == ChoicesFor(j.p, j.src, j.input, j.start, j.length, j.last)
  {
    hide GoodSource, SourceItems, TallyOf, ValidItems, Expand, MakeCode.CodeFor, GoodChoices, Reverses, HeaderOf, PrecodeItems.Tallied,
      HuffmanCode.Used;
    ChoicesAreGood(j.p, j.src, litlen, offset, j.input, j.start, j.length, j.last);
  }
}
