/** The header of a dynamic Huffman block: writing the codeword lengths and reading them back. */
module DynamicHeader {
  import opened Powers
  import opened BitFields
  import opened BitReader
  import opened BitWriter
  import opened CanonicalCode
  import opened TableFilling
  import opened DecodeTable
  import opened BuildDecodeTable
  import opened BlockDecoder
  import opened PrecodeItems
  import opened CodeLengths
  import BlockItems
  import BlockRoundTrip
  import BlockWriter
  import WeightedSums

  const MAX_PRE_CODEWORD_LEN: nat := 7

  /** A complete precode gives a table that decodes any bits. */
  lemma BuiltIsShort(table: seq<nat>, lens: seq<nat>)
    requires |lens| == NUM_PRECODE_SYMS && WeightedSums.Bounded(lens, MAX_PRE_CODEWORD_LEN)
    requires DecodesAll(table, lens, PrecodeResults(), PRECODE_TABLEBITS)
    requires CompleteCode(lens, MAX_PRE_CODEWORD_LEN) || DefaultsElsewhere(table, lens, PrecodeResults(), PRECODE_TABLEBITS)
    ensures Short(table)
  {
    hide StartsWith, Longest, Lookup, CompleteCode;
    forall x: nat
      ensures SomeSymbol(table, x)
    {
      LongestBounded(lens, MAX_PRE_CODEWORD_LEN);
      if CompleteCode(lens, MAX_PRE_CODEWORD_LEN) {
        var s := TableIsTotal(table, lens, PrecodeResults(), PRECODE_TABLEBITS, MAX_PRE_CODEWORD_LEN, x);
        assert LooksUp(table, PRECODE_TABLEBITS, x, s, lens[s], MAX_CODEWORD_LEN);
      } else if s: nat :| s < |lens| && lens[s] > 0 && StartsWith(lens, s, x) {
        assert LooksUp(table, PRECODE_TABLEBITS, x, PrecodeResults()[s], lens[s], Longest(lens));
        assert LooksUp(table, PRECODE_TABLEBITS, x, s, lens[s], MAX_CODEWORD_LEN);
      } else {
        assert LooksUp(table, PRECODE_TABLEBITS, x, PrecodeResults()[0], 1, Longest(lens));
        assert LooksUp(table, PRECODE_TABLEBITS, x, 0, 1, MAX_CODEWORD_LEN);
      }
    }
  }

  // ---- Items -------------------------------------------------------------------------------

  ghost predicate UsablePrecode(lens: seq<nat>) { |lens| == NUM_PRECODE_SYMS && FittingCode(lens, MAX_PRE_CODEWORD_LEN) }

  /** The bits of an item: the codeword of its symbol, then the extra bits. */
  function ItemBits(lens: seq<nat>, item: Item): Bits
    requires |lens| == NUM_PRECODE_SYMS && ValidItem(item)
  {
    BlockItems.CodeBits(lens, item.sym) + ToBits(item.extra, ExtraBits(item.sym))
  }

  ghost predicate AllEncodable(lens: seq<nat>, items: seq<Item>)
    requires |lens| == NUM_PRECODE_SYMS
  {
    forall k :: 0 <= k < |items| ==> ValidItem(items[k]) && lens[items[k].sym] > 0
  }

  function ItemsBits(lens: seq<nat>, items: seq<Item>): Bits
    requires |lens| == NUM_PRECODE_SYMS && forall k :: 0 <= k < |items| ==> ValidItem(items[k])
  {
    if items == [] then [] else ItemBits(lens, items[0]) + ItemsBits(lens, items[1..])
  }

  lemma ExtraFits(item: Item)
    requires ValidItem(item)
    ensures item.extra < Pow2(ExtraBits(item.sym))
  {
    assert Pow2(0) == 1 && Pow2(2) == 4 && Pow2(3) == 8;
    assert Pow2(7) == 8 * Pow2(4) && Pow2(4) == 16;
  }

  lemma FittingIsFitting(lens: seq<nat>)
    requires FittingCode(lens, MAX_PRE_CODEWORD_LEN)
    ensures FittingCode(lens, MAX_CODEWORD_LEN) && forall s :: 0 <= s < |lens| ==> lens[s] <= MAX_PRE_CODEWORD_LEN
  {
    FittingLonger(lens, MAX_PRE_CODEWORD_LEN, MAX_CODEWORD_LEN);
  }

  /** Lengths that fit the codespace of short codewords fit that of longer ones. */
  lemma {:induction false} FittingLonger(lens: seq<nat>, max: nat, more: nat)
    requires FittingCode(lens, max) && max <= more && max >= 1
    ensures FittingCode(lens, more)
    decreases more
  {
    if more > max {
      FittingLonger(lens, max, more - 1);
      NoneLonger(lens, more - 1, more);
      assert End(lens, more) == 2 * End(lens, more - 1) + WeightedSums.Count(lens, more);
    }
  }

  lemma {:induction false} NoneLonger(lens: seq<nat>, max: nat, len: nat)
    requires WeightedSums.Bounded(lens, max) && len > max
    ensures WeightedSums.Count(lens, len) == 0
  {
    CountZero(lens, len);
  }

  lemma ItemIsRead(lens: seq<nat>, table: seq<nat>, item: Item, data: seq<Byte>, pos: nat)
    requires UsablePrecode(lens) && DecodesAll(table, lens, PrecodeResults(), PRECODE_TABLEBITS)
    requires ValidItem(item) && lens[item.sym] > 0 && Window(data, pos, |ItemBits(lens, item)|) == ItemBits(lens, item)
    ensures LengthItem(table, data, pos) == item && AfterItem(table, data, pos) == pos + |ItemBits(lens, item)|
  {
    hide SymbolAt, DecodesAll, BlockItems.CodeBits, FittingCode, Window, ToBits, Field, Pow2;
    ExtraFits(item);
    FittingIsFitting(lens);
    BlockRoundTrip.TwoParts(data, pos, BlockItems.CodeBits(lens, item.sym), ToBits(item.extra, ExtraBits(item.sym)));
    BlockRoundTrip.SymbolIsRead(table, PRECODE_TABLEBITS, lens, PrecodeResults(), item.sym, data, pos);
    BlockRoundTrip.FieldIsRead(data, pos + lens[item.sym], item.extra, ExtraBits(item.sym));
  }

  /** The items of a list, read one after the other, give the lengths that they stand for. */
  lemma {:induction false} ItemsAreRead(lens: seq<nat>, table: seq<nat>, items: seq<Item>, k: nat, data: seq<Byte>, pos: nat, total: nat)
    requires UsablePrecode(lens) && DecodesAll(table, lens, PrecodeResults(), PRECODE_TABLEBITS) && AllEncodable(lens, items)
    requires Runnable(items) && k <= |items| && |Run(items)| == total
    requires Window(data, pos, |ItemsBits(lens, items[k..])|) == ItemsBits(lens, items[k..])
    ensures Runnable(items[..k])
    ensures LensFrom(table, data, pos, Run(items[..k]), total) == Lens(Run(items), pos + |ItemsBits(lens, items[k..])|)
    decreases |items| - k
  {
    hide DecodesAll, ItemBits, FittingCode, Window, LengthItem, AfterItem, Apply;
    RunPrefix(items, k);
    if k == |items| {
      assert items[..k] == items;
    } else {
      var a, b := ItemBits(lens, items[k]), ItemsBits(lens, items[k + 1..]);
      assert items[k..][0] == items[k] && items[k..][1..] == items[k + 1..];
      assert ItemsBits(lens, items[k..]) == a + b;
      BlockRoundTrip.TwoParts(data, pos, a, b);
      ItemIsRead(lens, table, items[k], data, pos);
      ItemsAreRead(lens, table, items, k + 1, data, pos + |a|, total);
    }
  }

  /** A prefix of the items can be run, and falls short of all of them. */
  lemma {:induction false} RunPrefix(items: seq<Item>, k: nat)
    requires Runnable(items) && k <= |items|
    ensures Runnable(items[..k]) && |Run(items[..k])| <= |Run(items)|
    ensures k < |items| ==> |Run(items[..k])| < |Run(items)|
    ensures k < |items| ==>
      Runnable(items[..k + 1]) && Applicable(Run(items[..k]), items[k]) && Run(items[..k + 1]) == Apply(Run(items[..k]), items[k])
    decreases |items|
  {
    if k == |items| {
      assert items[..k] == items;
    } else {
      var front := items[..|items| - 1];
      ApplySize(Run(front), items[|items| - 1]);
      if k == |items| - 1 {
        assert items[..k + 1] == items;
      } else {
        RunPrefix(front, k);
        assert front[..k] == items[..k] && front[..k + 1] == items[..k + 1];
      }
    }
  }

  /** The code lengths read back are those that were encoded. */
  lemma LensRoundTrip(preLens: seq<nat>, table: seq<nat>, items: seq<Item>, lens: seq<nat>, data: seq<Byte>, pos: nat)
    requires UsablePrecode(preLens) && DecodesAll(table, preLens, PrecodeResults(), PRECODE_TABLEBITS) && AllEncodable(preLens, items)
    requires Runnable(items) && Run(items) == lens && Window(data, pos, |ItemsBits(preLens, items)|) == ItemsBits(preLens, items)
    ensures LensFrom(table, data, pos, [], |lens|) == Lens(lens, pos + |ItemsBits(preLens, items)|)
  {
    assert items[0..] == items && items[..0] == [];
    ItemsAreRead(preLens, table, items, 0, data, pos, |lens|);
  }

  // ---- The whole header --------------------------------------------------------------------

  /** The order in which precode lengths are stored. */
  const Permutation: seq<nat> := [16, 17, 18, 0, 8, 7, 9, 6, 10, 5, 11, 4, 12, 3, 13, 2, 14, 1, 15]

  lemma PermutationFacts()
    ensures |Permutation| == NUM_PRECODE_SYMS && forall i :: 0 <= i < NUM_PRECODE_SYMS ==> Permutation[i] < NUM_PRECODE_SYMS
    ensures forall i, j :: 0 <= i < j < NUM_PRECODE_SYMS ==> Permutation[i] != Permutation[j]
  {
  }

  /** Every symbol is somewhere in the order. */
  function Rank(sym: nat): (i: nat)
    requires sym < NUM_PRECODE_SYMS
    ensures i < |Permutation| && Permutation[i] == sym
  {
    match sym
    case 0 => 3  case 1 => 17  case 2 => 15  case 3 => 13  case 4 => 11  case 5 => 9  case 6 => 7  case 7 => 5  case 8 => 4
    case 9 => 6  case 10 => 8  case 11 => 10  case 12 => 12  case 13 => 14  case 14 => 16  case 15 => 18  case 16 => 0  case 17 => 1
    case _ => 2
  }

  datatype Header = Header(numLitlen: nat, numOffset: nat, numExplicit: nat, preLens: seq<nat>, items: seq<Item>)

  ghost predicate GoodHeader(h: Header) {
    && 257 <= h.numLitlen <= 288 && 1 <= h.numOffset <= 32 && 4 <= h.numExplicit <= NUM_PRECODE_SYMS
    && |h.preLens| == NUM_PRECODE_SYMS && CompleteCode(h.preLens, MAX_PRE_CODEWORD_LEN)
    && (forall s: nat :: s < NUM_PRECODE_SYMS && Rank(s) >= h.numExplicit ==> h.preLens[s] == 0)
    && AllEncodable(h.preLens, h.items) && Runnable(h.items) && |Run(h.items)| == h.numLitlen + h.numOffset
  }

  lemma HeaderShape(h: Header)
    requires GoodHeader(h)
    ensures 257 <= h.numLitlen && 1 <= h.numOffset && 4 <= h.numExplicit <= |h.preLens| == NUM_PRECODE_SYMS
    ensures forall k :: 0 <= k < |h.items| ==> ValidItem(h.items[k])
  {
  }

  function CountBits(h: Header): Bits
    requires 257 <= h.numLitlen && 1 <= h.numOffset && 4 <= h.numExplicit
  {
    ToBits(h.numLitlen - 257, 5) + ToBits(h.numOffset - 1, 5) + ToBits(h.numExplicit - 4, 4)
  }

  /** The first n precode lengths, three bits each. */
  function PreLensBits(preLens: seq<nat>, n: nat): (r: Bits)
    requires |preLens| == NUM_PRECODE_SYMS && n <= NUM_PRECODE_SYMS
    ensures |r| == 3 * n
  {
    PermutationFacts();
    if n == 0 then [] else PreLensBits(preLens, n - 1) + ToBits(preLens[Permutation[n - 1]], 3)
  }

  function HeaderBits(h: Header): Bits
    requires 257 <= h.numLitlen && 1 <= h.numOffset && 4 <= h.numExplicit <= NUM_PRECODE_SYMS && |h.preLens| == NUM_PRECODE_SYMS
    requires forall k :: 0 <= k < |h.items| ==> ValidItem(h.items[k])
  {
    CountBits(h) + PreLensBits(h.preLens, h.numExplicit) + ItemsBits(h.preLens, h.items)
  }

  /** deflate_write_huffman_header */
  method WriteHeader(os: OutputBitstream, h: Header, codewords: seq<nat>, wordwise: bool)
    requires os.Valid() && os.bitcount < 8 && GoodHeader(h) && BlockWriter.Reverses(h.preLens, codewords)
    modifies os`bitbuf, os`bitcount, os`all, os`next, os.buffer
    ensures os.Valid() && os.bitcount < 8
    ensures forall k :: 0 <= k < |h.items| ==> ValidItem(h.items[k])
    ensures os.all == old(os.all) + HeaderBits(h)
  {
    hide OutputBitstream.Valid, ItemsBits, CountBits, PreLensBits, Pow2, FittingCode, BlockWriter.Reverses;
    HeaderSizes(h);
    ghost var before := os.all;
    WriteCounts(os, h, wordwise);
    WritePreLens(os, h, wordwise);
    WriteItems(os, h.preLens, h.items, codewords, wordwise);
    Regroup(before, CountBits(h), PreLensBits(h.preLens, h.numExplicit), ItemsBits(h.preLens, h.items));
  }

  lemma Regroup(s: Bits, a: Bits, b: Bits, c: Bits)
    ensures s + a + b + c == s + (a + b + c)
  {
  }

  method WriteCounts(os: OutputBitstream, h: Header, wordwise: bool)
    requires os.Valid() && os.bitcount < 8 && GoodHeader(h)
    modifies os`bitbuf, os`bitcount, os`all, os`next, os.buffer
    ensures os.Valid() && os.bitcount < 8 && os.all == old(os.all) + CountBits(h)
  {
    hide OutputBitstream.Valid, ToBits, Pow2, FittingCode, Run, Runnable;
    HeaderSizes(h);
    os.AddBits(h.numLitlen - 257, 5);
    os.AddBits(h.numOffset - 1, 5);
    os.AddBits(h.numExplicit - 4, 4);
    os.FlushBits(wordwise);
  }

  method WritePreLens(os: OutputBitstream, h: Header, wordwise: bool)
    requires os.Valid() && os.bitcount < 8 && GoodHeader(h)
    modifies os`bitbuf, os`bitcount, os`all, os`next, os.buffer
    ensures os.Valid() && os.bitcount < 8 && os.all == old(os.all) + PreLensBits(h.preLens, h.numExplicit)
  {
    hide OutputBitstream.Valid, ToBits, Pow2, FittingCode, Run, Runnable, Permutation;
    ghost var before := os.all;
    HeaderSizes(h);
    PermutationFacts();
    for i := 0 to h.numExplicit
      invariant os.Valid() && os.bitcount < 8 && os.all == before + PreLensBits(h.preLens, i)
    {
      os.AddBits(h.preLens[Permutation[i]], 3);
      os.FlushBits(wordwise);
    }
  }

  lemma HeaderSizes(h: Header)
    requires GoodHeader(h)
    ensures h.numLitlen - 257 < Pow2(5) && h.numOffset - 1 < Pow2(5) && h.numExplicit - 4 < Pow2(4)
    ensures forall s :: 0 <= s < NUM_PRECODE_SYMS ==> h.preLens[s] < Pow2(3)
    ensures FittingCode(h.preLens, MAX_PRE_CODEWORD_LEN)
  {
    assert Pow2(3) == 8 && Pow2(4) == 16;
    assert Pow2(5) == 2 * Pow2(4);
  }

  method WriteItems(os: OutputBitstream, preLens: seq<nat>, items: seq<Item>, codewords: seq<nat>, wordwise: bool)
    requires os.Valid() && os.bitcount < 8 && UsablePrecode(preLens) && AllEncodable(preLens, items) && BlockWriter.Reverses(preLens, codewords)
    modifies os`bitbuf, os`bitcount, os`all, os`next, os.buffer
    ensures os.Valid() && os.bitcount < 8 && os.all == old(os.all) + ItemsBits(preLens, items)
  {
    hide OutputBitstream.Valid, ItemBits, FittingCode, ToBits, BlockItems.CodeBits, Pow2, BlockWriter.Reverses;
    FittingIsFitting(preLens);
    ghost var before := os.all;
    for i := 0 to |items|
      invariant os.Valid() && os.bitcount < 8 && os.all + ItemsBits(preLens, items[i..]) == before + ItemsBits(preLens, items)
    {
      var item := items[i];
      assert items[i..][0] == item && items[i..][1..] == items[i + 1..];
      WriteItem(os, preLens, item, codewords, wordwise);
    }
    assert items[|items|..] == [];
  }

  method WriteItem(os: OutputBitstream, preLens: seq<nat>, item: Item, codewords: seq<nat>, wordwise: bool)
    requires os.Valid() && os.bitcount < 8 && |preLens| == NUM_PRECODE_SYMS && ValidItem(item) && 0 < preLens[item.sym] <= MAX_PRE_CODEWORD_LEN
    requires BlockWriter.Reverses(preLens, codewords)
    modifies os`bitbuf, os`bitcount, os`all, os`next, os.buffer
    ensures os.Valid() && os.bitcount < 8 && os.all == old(os.all) + ItemBits(preLens, item)
  {
    hide OutputBitstream.Valid, ToBits, BlockItems.CodeBits, Pow2, BlockWriter.Reverses;
    ExtraFits(item);
    NoBits(item.extra);
    BlockWriter.AddSymbol(os, preLens, preLens, codewords, item.sym);
    if item.sym >= 16 {
      os.AddBits(item.extra, ExtraBits(item.sym));
    }
    os.FlushBits(wordwise);
  }

  lemma NoBits(x: nat)
    ensures ToBits(x, 0) == []
  {
  }

  /** Bits of a stream at a position. */
  ghost predicate Holds(data: seq<Byte>, pos: nat, bits: Bits) { Window(data, pos, |bits|) == bits }

  lemma HoldsBoth(data: seq<Byte>, pos: nat, a: Bits, b: Bits)
    requires Holds(data, pos, a + b)
    ensures Holds(data, pos, a) && Holds(data, pos + |a|, b)
  {
    BlockRoundTrip.TwoParts(data, pos, a, b);
  }

  lemma HoldsField(data: seq<Byte>, pos: nat, x: nat, n: nat)
    requires Holds(data, pos, ToBits(x, n)) && x < Pow2(n)
    ensures Field(data, pos, n) == x
  {
    BlockRoundTrip.FieldIsRead(data, pos, x, n);
  }

  lemma HoldsPreLens(data: seq<Byte>, pos: nat, preLens: seq<nat>, n: nat)
    requires |preLens| == NUM_PRECODE_SYMS && 0 < n <= NUM_PRECODE_SYMS && Holds(data, pos, PreLensBits(preLens, n))
    ensures |Permutation| == NUM_PRECODE_SYMS && Permutation[n - 1] < NUM_PRECODE_SYMS
    ensures Holds(data, pos, PreLensBits(preLens, n - 1)) && Holds(data, pos + 3 * (n - 1), ToBits(preLens[Permutation[n - 1]], 3))
  {
    hide Holds, ToBits;
    PermutationFacts();
    HoldsBoth(data, pos, PreLensBits(preLens, n - 1), ToBits(preLens[Permutation[n - 1]], 3));
  }

  lemma {:induction false} HoldsOnePreLen(data: seq<Byte>, pos: nat, preLens: seq<nat>, n: nat, i: nat)
    requires |preLens| == NUM_PRECODE_SYMS && i < n <= NUM_PRECODE_SYMS && Holds(data, pos, PreLensBits(preLens, n))
    ensures |Permutation| == NUM_PRECODE_SYMS && Permutation[i] < NUM_PRECODE_SYMS
    ensures Holds(data, pos + 3 * i, ToBits(preLens[Permutation[i]], 3))
  {
    hide Holds, PreLensBits, ToBits, Permutation;
    HoldsPreLens(data, pos, preLens, n);
    if i < n - 1 { HoldsOnePreLen(data, pos, preLens, n - 1, i); }
  }

  /** The three counts. */
  method ReadCounts(input: InputBitstream) returns (numLitlen: nat, numOffset: nat, numExplicit: nat)
    requires input.Valid() && input.bitsleft >= 14
    modifies input`bitbuf, input`bitsleft, input`pos
    ensures input.Valid() && input.pos == old(input.pos) + 14
    ensures 257 <= numLitlen <= 288 && 1 <= numOffset <= 32 && 4 <= numExplicit <= 19
    ensures numLitlen == Field(input.data, old(input.pos), 5) + 257 && numOffset == Field(input.data, old(input.pos) + 5, 5) + 1
    ensures numExplicit == Field(input.data, old(input.pos) + 10, 4) + 4
  {
    hide Pow2, Field;
    CountSizes();
    var a := PopField(input, 5);
    var b := PopField(input, 5);
    var c := PopField(input, 4);
    numLitlen, numOffset, numExplicit := a + 257, b + 1, c + 4;
  }

  lemma CountSizes()
    ensures Pow2(5) == 32 && Pow2(4) == 16 && Pow2(3) == 8
  {
    assert Pow2(3) == 8 && Pow2(4) == 16;
    assert Pow2(5) == 2 * Pow2(4);
  }

  /** The precode lengths: those given, in the stored order, and zero for the rest. */
  method ReadPreLens(input: InputBitstream, numExplicit: nat, wordwise: bool) returns (preLens: seq<nat>)
    requires input.Valid() && numExplicit <= NUM_PRECODE_SYMS
    modifies input`bitbuf, input`inNext, input`bitsleft, input`pos, input`overrunCount, input`overruns
    ensures input.Valid() && input.Stale() == old(input.Stale()) && input.pos == old(input.pos) + 3 * numExplicit
    ensures |preLens| == NUM_PRECODE_SYMS && forall s :: 0 <= s < NUM_PRECODE_SYMS ==> preLens[s] < 8
    ensures forall s: nat :: s < NUM_PRECODE_SYMS ==>
      preLens[s] == if Rank(s) < numExplicit then Field(input.data, old(input.pos) + 3 * Rank(s), 3) else 0
  {
    hide Pow2, Field, InputBitstream.Valid;
    ghost var start := input.pos;
    input.EnsureBits(3 * NUM_PRECODE_SYMS, wordwise);
    var lens := new nat[NUM_PRECODE_SYMS](_ => 0);
    ReadExplicit(input, lens, numExplicit);
    ClearRest(lens, numExplicit);
    preLens := lens[..];
    forall s: nat | s < NUM_PRECODE_SYMS
      ensures preLens[s] < 8 && preLens[s] == if Rank(s) < numExplicit then Field(input.data, start + 3 * Rank(s), 3) else 0
    {
      assert Permutation[Rank(s)] == s;
    }
  }

  method ReadExplicit(input: InputBitstream, lens: array<nat>, numExplicit: nat)
    requires input.Valid() && lens.Length == NUM_PRECODE_SYMS && numExplicit <= NUM_PRECODE_SYMS && input.bitsleft >= 3 * numExplicit
    requires |Permutation| == NUM_PRECODE_SYMS
    modifies input`bitbuf, input`bitsleft, input`pos, lens
    ensures input.Valid() && input.Stale() == old(input.Stale()) && input.pos == old(input.pos) + 3 * numExplicit
    ensures forall j: nat :: j < numExplicit ==>
      Permutation[j] < lens.Length && lens[Permutation[j]] == Field(input.data, old(input.pos) + 3 * j, 3) && lens[Permutation[j]] < 8
  {
    hide Pow2, Field, InputBitstream.Valid;
    CountSizes();
    PermutationFacts();
    ghost var start := input.pos;
    for i := 0 to numExplicit
      invariant input.Valid() && input.Stale() == old(input.Stale()) && input.pos == start + 3 * i
      invariant input.bitsleft >= 3 * (numExplicit - i)
      invariant forall j: nat :: j < i ==> lens[Permutation[j]] == Field(input.data, start + 3 * j, 3) && lens[Permutation[j]] < 8
    {
      lens[Permutation[i]] := PopField(input, 3);
    }
  }

  method ClearRest(lens: array<nat>, numExplicit: nat)
    requires lens.Length == NUM_PRECODE_SYMS && numExplicit <= NUM_PRECODE_SYMS && |Permutation| == NUM_PRECODE_SYMS
    modifies lens
    ensures forall j: nat :: j < NUM_PRECODE_SYMS ==>
      Permutation[j] < lens.Length && lens[Permutation[j]] == if j < numExplicit then old(lens[Permutation[j]]) else 0
  {
    PermutationFacts();
    for i := numExplicit to NUM_PRECODE_SYMS
      invariant forall j: nat :: j < numExplicit ==> lens[Permutation[j]] == old(lens[Permutation[j]])
      invariant forall j: nat :: numExplicit <= j < i ==> lens[Permutation[j]] == 0
    {
      lens[Permutation[i]] := 0;
    }
  }

  /** A code whose codewords all fit the main table needs no subtables. */
  lemma NoSubtables(lens: seq<nat>, tableBits: nat)
    requires forall s :: 0 <= s < |lens| ==> lens[s] <= tableBits
    ensures TableSize(lens, tableBits) == Pow2(tableBits)
  {
    SizeBelowSkip(lens, tableBits, 0, Pow2(tableBits));
  }

  lemma Sizes(preLens: seq<nat>)
    requires |preLens| == NUM_PRECODE_SYMS && forall s :: 0 <= s < NUM_PRECODE_SYMS ==> preLens[s] < 8
    ensures WeightedSums.Bounded(preLens, MAX_PRE_CODEWORD_LEN) && Pow2(PRECODE_TABLEBITS) == 128
    ensures Roomy(128, preLens, PRECODE_TABLEBITS, MAX_PRE_CODEWORD_LEN)
  {
    NoSubtables(preLens, PRECODE_TABLEBITS);
    assert Pow2(4) == 16;
    assert Pow2(7) == 8 * Pow2(4);
  }

  /** The bits of a good header are found at this position. */
  ghost predicate AtHeader(data: seq<Byte>, pos: nat, h: Header) { GoodHeader(h) && Holds(data, pos, HeaderBits(h)) }

  /** Where the parts of the header are. */
  lemma HeaderParts(data: seq<Byte>, start: nat, h: Header)
    requires AtHeader(data, start, h)
    ensures Holds(data, start, ToBits(h.numLitlen - 257, 5)) && Holds(data, start + 5, ToBits(h.numOffset - 1, 5))
    ensures Holds(data, start + 10, ToBits(h.numExplicit - 4, 4)) && Holds(data, start + 14, PreLensBits(h.preLens, h.numExplicit))
    ensures forall k :: 0 <= k < |h.items| ==> ValidItem(h.items[k])
    ensures Holds(data, start + 14 + 3 * h.numExplicit, ItemsBits(h.preLens, h.items))
    ensures |HeaderBits(h)| == 14 + 3 * h.numExplicit + |ItemsBits(h.preLens, h.items)|
  {
    hide Holds, ToBits, ItemsBits, PreLensBits, CompleteCode, Run, Runnable;
    var a, b, c := ToBits(h.numLitlen - 257, 5), ToBits(h.numOffset - 1, 5), ToBits(h.numExplicit - 4, 4);
    HoldsBoth(data, start, CountBits(h) + PreLensBits(h.preLens, h.numExplicit), ItemsBits(h.preLens, h.items));
    HoldsBoth(data, start, CountBits(h), PreLensBits(h.preLens, h.numExplicit));
    HoldsBoth(data, start, a + b, c);
    HoldsBoth(data, start, a, b);
  }

  /** The counts and the precode lengths read are those written. */
  lemma HeaderIsRead(data: seq<Byte>, start: nat, h: Header, numLitlen: nat, numOffset: nat, numExplicit: nat, preLens: seq<nat>)
    requires AtHeader(data, start, h) && |preLens| == NUM_PRECODE_SYMS
    requires numLitlen == Field(data, start, 5) + 257 && numOffset == Field(data, start + 5, 5) + 1
    requires numExplicit == Field(data, start + 10, 4) + 4
    requires forall s: nat :: s < NUM_PRECODE_SYMS ==> preLens[s] == if Rank(s) < numExplicit then Field(data, start + 14 + 3 * Rank(s), 3) else 0
    ensures numLitlen == h.numLitlen && numOffset == h.numOffset && numExplicit == h.numExplicit && preLens == h.preLens
  {
    hide Holds, ToBits, ItemsBits, PreLensBits, CompleteCode, Run, Runnable, Field, HeaderBits, Pow2, Permutation;
    HeaderParts(data, start, h);
    HeaderSizes(h);
    HoldsField(data, start, h.numLitlen - 257, 5);
    HoldsField(data, start + 5, h.numOffset - 1, 5);
    HoldsField(data, start + 10, h.numExplicit - 4, 4);
    forall s: nat | s < NUM_PRECODE_SYMS
      ensures preLens[s] == h.preLens[s]
    {
      if Rank(s) < numExplicit {
        HoldsOnePreLen(data, start + 14, h.preLens, h.numExplicit, Rank(s));
        HoldsField(data, start + 14 + 3 * Rank(s), h.preLens[s], 3);
      }
    }
  }

  lemma LensAreRead(table: seq<nat>, data: seq<Byte>, start: nat, h: Header, ok: bool, lens: seq<nat>, n: nat, pos: nat)
    requires AtHeader(data, start, h) && DecodesAll(table, h.preLens, PrecodeResults(), PRECODE_TABLEBITS)
    requires Matches(LensFrom(table, data, start + 14 + 3 * h.numExplicit, [], h.numLitlen + h.numOffset), ok, lens, n, pos)
    ensures ok && |lens| >= h.numLitlen + h.numOffset && lens[..h.numLitlen + h.numOffset] == Run(h.items)
    ensures pos == start + |HeaderBits(h)|
  {
    hide ToBits, ItemsBits, PreLensBits, CompleteCode, Run, Runnable, Field, HeaderBits, Pow2, DecodesAll, LensFrom;
    HeaderParts(data, start, h);
    HeaderSizes(h);
    LensRoundTrip(h.preLens, table, h.items, Run(h.items), data, start + 14 + 3 * h.numExplicit);
  }

  lemma HeaderBounds(data: seq<Byte>, pos: nat, h: Header)
    requires AtHeader(data, pos, h)
    ensures h.numLitlen >= 257 && h.numOffset >= 1 && 4 <= h.numExplicit <= NUM_PRECODE_SYMS && Runnable(h.items)
    ensures h.numLitlen + h.numOffset <= 320 && |h.preLens| == NUM_PRECODE_SYMS && CompleteCode(h.preLens, MAX_PRE_CODEWORD_LEN)
    ensures forall k :: 0 <= k < |h.items| ==> ValidItem(h.items[k])
  {
  }

  /** Whatever is read, no length is above fifteen. */
  lemma {:induction false} LensSmall(table: seq<nat>, data: seq<Byte>, pos: nat, out: seq<nat>, total: nat)
    requires Short(table) && forall k :: 0 <= k < |out| ==> out[k] < 16
    ensures var r := LensFrom(table, data, pos, out, total); r.Lens? ==> |r.lens| >= total && forall k :: 0 <= k < |r.lens| ==> r.lens[k] < 16
    decreases total - |out|
  {
    hide Short, LengthItem, AfterItem;
    if |out| < total {
      ItemIsValid(table, data, pos);
      var item := LengthItem(table, data, pos);
      if Applicable(out, item) {
        LensSmall(table, data, AfterItem(table, data, pos), Apply(out, item), total);
      }
    }
  }

  lemma ReadSmall(table: seq<nat>, data: seq<Byte>, pos: nat, total: nat, ok: bool, lens: seq<nat>, n: nat, end: nat)
    requires Matches(LensFrom(table, data, pos, [], total), ok, lens, n, end) && ok
    requires var r := LensFrom(table, data, pos, [], total); r.Lens? ==> |r.lens| >= total && forall k :: 0 <= k < |r.lens| ==> r.lens[k] < 16
    ensures total <= |lens| && forall k :: 0 <= k < total ==> lens[k] < 16
  {
    hide LensFrom;
    var r := LensFrom(table, data, pos, [], total);
    forall k | 0 <= k < total ensures lens[k] < 16 { assert lens[..n][k] == lens[k]; }
  }

  /** Reads the header after the block type; the code lengths of both alphabets end up one after the other in lens. */
  method ReadHeader(input: InputBitstream, table: array<nat>, lens: array<nat>, wordwise: bool, ghost h: Header)
    returns (ok: bool, numLitlen: nat, numOffset: nat)
    requires input.Valid() && input.bitsleft >= 14 && table.Length == 128 && lens.Length == 320 + MAX_LENS_OVERRUN && table != lens
    modifies input`bitbuf, input`inNext, input`bitsleft, input`pos, input`overrunCount, input`overruns, table, lens
    ensures input.Valid() && input.Stale() == old(input.Stale()) && input.pos >= old(input.pos)
    ensures 257 <= numLitlen <= 288 && 1 <= numOffset <= 32 && (ok ==> forall k :: 0 <= k < numLitlen + numOffset ==> lens[k] < 16)
    ensures AtHeader(input.data, old(input.pos), h) ==>
      && ok && numLitlen == h.numLitlen && numOffset == h.numOffset && numLitlen + numOffset <= 320
      && lens[..numLitlen + numOffset] == Run(h.items) && input.pos == old(input.pos) + |HeaderBits(h)|
  {
    hide Pow2, Field, Short, LensFrom, CompleteCode, EmptyCode, OneBitCode, DecodesAll, DefaultsElsewhere, KeepsBeyond, InputBitstream.Valid,
      HeaderBits, Holds, GoodHeader, AtHeader, Matches, Roomy, WeightedSums.Bounded;
    ghost var start := input.pos;
    var numExplicit;
    numLitlen, numOffset, numExplicit := ReadCounts(input);
    var preLens := ReadPreLens(input, numExplicit, wordwise);
    ghost var items := input.pos;
    if AtHeader(input.data, start, h) {
      HeaderBounds(input.data, start, h);
      HeaderIsRead(input.data, start, h, numLitlen, numOffset, numExplicit, preLens);
    }
    Sizes(preLens);
    ok := BuildTable(table, preLens, PrecodeResults(), PRECODE_TABLEBITS, MAX_PRE_CODEWORD_LEN);
    if !ok {
      return;
    }
    BuiltIsShort(table[..], preLens);
    var n;
    ok, n := ExpandLens(input, table[..], lens, numLitlen + numOffset, wordwise);
    LensSmall(table[..], input.data, items, [], numLitlen + numOffset);
    if ok { ReadSmall(table[..], input.data, items, numLitlen + numOffset, ok, lens[..], n, input.pos); }
    if AtHeader(input.data, start, h) {
      LensAreRead(table[..], input.data, start, h, ok, lens[..], n, input.pos);
      HeaderBounds(input.data, start, h);
    }
  }
}
