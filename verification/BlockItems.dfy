/** The items of a Huffman block: what they expand to, and the bits that encode them. */
module BlockItems {
  import opened BitFields
  import opened BitReversal
  import opened CanonicalCode
  import opened DeflateSymbols
  import opened MatchCopy
  import MakeCode
  import HuffmanCode

  datatype Item = Literal(b: Byte) | Match(length: nat, offset: nat)

  /** Codeword lengths of the literal/length and offset alphabets. */
  datatype Codes = Codes(litlen: seq<nat>, offset: seq<nat>)

  function Size(item: Item): nat { if item.Literal? then 1 else item.length }

  predicate ValidItem(item: Item, before: nat) {
    item.Match? ==> MIN_MATCH_LEN <= item.length <= MAX_MATCH_LEN && 1 <= item.offset <= MAX_MATCH_OFFSET && item.offset <= before
  }

  /** Every match lies within the format's limits and refers to bytes that precede it. */
  predicate ValidItems(items: seq<Item>, before: nat) {
    items == [] || (ValidItem(items[0], before) && ValidItems(items[1..], before + Size(items[0])))
  }

  function Appended(out: seq<Byte>, item: Item): (r: seq<Byte>)
    requires ValidItem(item, |out|)
    ensures |r| == |out| + Size(item)
  {
    if item.Literal? then out + [item.b] else Extended(out, item.length, item.offset)
  }

  /** The output after the items, byte by byte. */
  function Expand(out: seq<Byte>, items: seq<Item>): (r: seq<Byte>)
    requires ValidItems(items, |out|)
    ensures |r| >= |out|
    decreases |items|
  {
    if items == [] then out else Expand(Appended(out, items[0]), items[1..])
  }

  // ---- Encoding ----------------------------------------------------------------------------

  /** The codeword of s, its most significant bit first in the stream. */
  function CodeBits(lens: seq<nat>, s: nat): (r: Bits)
    requires s < |lens|
    ensures |r| == lens[s]
  {
    ToBits(Reversed(Code(lens, s), lens[s]), lens[s])
  }

  ghost predicate UsableCodes(codes: Codes) {
    |codes.litlen| == NUM_LITLEN_SYMS && |codes.offset| == NUM_OFFSET_SYMS
    && FittingCode(codes.litlen, 15) && FittingCode(codes.offset, 15)
  }

  /** The symbols of the item have codewords. */
  predicate Encodable(codes: Codes, item: Item, before: nat)
    requires |codes.litlen| == NUM_LITLEN_SYMS && |codes.offset| == NUM_OFFSET_SYMS && ValidItem(item, before)
  {
    match item
    case Literal(b) => codes.litlen[b] > 0
    case Match(length, offset) => codes.litlen[END_OF_BLOCK + 1 + LengthSlot(length)] > 0 && codes.offset[OffsetSlot(offset)] > 0
  }

  predicate AllEncodable(codes: Codes, items: seq<Item>, before: nat)
    requires |codes.litlen| == NUM_LITLEN_SYMS && |codes.offset| == NUM_OFFSET_SYMS && ValidItems(items, before)
  {
    items == [] || (Encodable(codes, items[0], before) && AllEncodable(codes, items[1..], before + Size(items[0])))
  }

  function MatchBits(codes: Codes, length: nat, offset: nat): Bits
    requires |codes.litlen| == NUM_LITLEN_SYMS && |codes.offset| == NUM_OFFSET_SYMS
    requires MIN_MATCH_LEN <= length <= MAX_MATCH_LEN && 1 <= offset <= MAX_MATCH_OFFSET
  {
    LengthFits(length);
    OffsetFits(offset);
    var l, o := LengthSlot(length), OffsetSlot(offset);
    CodeBits(codes.litlen, END_OF_BLOCK + 1 + l) + ToBits(length - LengthBase[l], LengthExtra[l])
      + CodeBits(codes.offset, o) + ToBits(offset - OffsetBase[o], OffsetExtra[o])
  }

  function ItemBits(codes: Codes, item: Item, before: nat): Bits
    requires |codes.litlen| == NUM_LITLEN_SYMS && |codes.offset| == NUM_OFFSET_SYMS && ValidItem(item, before)
  {
    match item
    case Literal(b) => CodeBits(codes.litlen, b)
    case Match(length, offset) => MatchBits(codes, length, offset)
  }

  function ItemsBits(codes: Codes, items: seq<Item>, before: nat): Bits
    requires |codes.litlen| == NUM_LITLEN_SYMS && |codes.offset| == NUM_OFFSET_SYMS && ValidItems(items, before)
    decreases |items|
  {
    if items == [] then [] else ItemBits(codes, items[0], before) + ItemsBits(codes, items[1..], before + Size(items[0]))
  }

  function TotalSize(items: seq<Item>): nat {
    if items == [] then 0 else Size(items[0]) + TotalSize(items[1..])
  }

  /** Items one after the other. */
  lemma {:induction false} ItemsAppend(codes: Codes, a: seq<Item>, b: seq<Item>, before: nat)
    requires |codes.litlen| == NUM_LITLEN_SYMS && |codes.offset| == NUM_OFFSET_SYMS
    requires ValidItems(a, before) && ValidItems(b, before + TotalSize(a))
    ensures ValidItems(a + b, before) && TotalSize(a + b) == TotalSize(a) + TotalSize(b)
    ensures ItemsBits(codes, a + b, before) == ItemsBits(codes, a, before) + ItemsBits(codes, b, before + TotalSize(a))
    decreases |a|
  {
    hide ItemBits, Encodable;
    if a == [] {
      assert a + b == b;
    } else {
      assert (a + b)[1..] == a[1..] + b && (a + b)[0] == a[0];
      ItemsAppend(codes, a[1..], b, before + Size(a[0]));
    }
  }

  /** The whole body of the block, ended by its symbol. */
  function BlockBits(codes: Codes, items: seq<Item>, before: nat): Bits
    requires |codes.litlen| == NUM_LITLEN_SYMS && |codes.offset| == NUM_OFFSET_SYMS && ValidItems(items, before)
  {
    ItemsBits(codes, items, before) + CodeBits(codes.litlen, END_OF_BLOCK)
  }

  // ---- The block's own tally ---------------------------------------------------------------

  /** How often a literal/length or an offset symbol occurs in the items. */
  function LitlenCount(items: seq<Item>, s: nat): nat {
    if items == [] then 0
    else LitlenCount(items[1..], s) + (if LitlenSymbol(items[0]) == s then 1 else 0)
  }

  function OffsetCount(items: seq<Item>, s: nat): nat {
    if items == [] then 0
    else OffsetCount(items[1..], s) + (if OffsetSymbolOf(items[0]) == s then 1 else 0)
  }

  function LitlenSymbol(item: Item): nat {
    match item
    case Literal(b) => b
    case Match(length, _) => if MIN_MATCH_LEN <= length <= MAX_MATCH_LEN then END_OF_BLOCK + 1 + LengthSlot(length) else 0
  }

  /** The offset symbol of a match; none for a literal. */
  function OffsetSymbolOf(item: Item): int {
    match item
    case Literal(_) => -1
    case Match(_, offset) => if 1 <= offset <= MAX_MATCH_OFFSET then OffsetSlot(offset) else -1
  }

  ghost predicate TallyOf(items: seq<Item>, litlen: seq<nat>, offset: seq<nat>) {
    && |litlen| == NUM_LITLEN_SYMS && |offset| == NUM_OFFSET_SYMS
    && (forall s: nat :: s < |litlen| ==> litlen[s] == LitlenCount(items, s) + if s == END_OF_BLOCK then 1 else 0)
    && forall s: nat :: s < |offset| ==> offset[s] == OffsetCount(items, s)
  }

  /** Codes made from frequencies give a codeword to every symbol that occurs. */
  lemma CodeCovers(freqs: seq<nat>, lens: seq<nat>, max: nat, s: nat)
    requires MakeCode.CodeFor(freqs, lens, max) && s < |freqs| && freqs[s] > 0
    ensures s < |lens| && lens[s] > 0
  {
    hide HuffmanCode.Optimal, CompleteCode;
    if HuffmanCode.Used(freqs, |freqs|) == 0 {
      MakeCode.NothingUsed(freqs, |freqs|);
    }
  }

  /** The item's symbols occur in the tally. */
  ghost predicate Occurs(item: Item, litlen: seq<nat>, offset: seq<nat>) {
    && LitlenSymbol(item) < |litlen| && litlen[LitlenSymbol(item)] > 0
    && OffsetSymbolOf(item) < |offset| && (OffsetSymbolOf(item) >= 0 ==> offset[OffsetSymbolOf(item)] > 0)
  }

  lemma {:induction false} CountedPositive(items: seq<Item>, k: nat)
    requires k < |items|
    ensures LitlenCount(items, LitlenSymbol(items[k])) > 0
    ensures OffsetSymbolOf(items[k]) >= 0 ==> OffsetCount(items, OffsetSymbolOf(items[k])) > 0
  {
    if k > 0 { CountedPositive(items[1..], k - 1); }
  }

  lemma {:induction false} EachIsEnough(codes: Codes, items: seq<Item>, before: nat)
    requires |codes.litlen| == NUM_LITLEN_SYMS && |codes.offset| == NUM_OFFSET_SYMS && ValidItems(items, before)
    requires forall k :: 0 <= k < |items| ==> Occurs(items[k], codes.litlen, codes.offset)
    ensures AllEncodable(codes, items, before)
    decreases |items|
  {
    if items != [] {
      assert Occurs(items[0], codes.litlen, codes.offset);
      forall k | 0 <= k < |items[1..]|
        ensures Occurs(items[1..][k], codes.litlen, codes.offset)
      {
        assert items[1..][k] == items[k + 1];
      }
      EachIsEnough(codes, items[1..], before + Size(items[0]));
    }
  }

  /** The codes made from a block's own tally encode every item of the block, and its end. */
  lemma OwnTallyEncodes(codes: Codes, items: seq<Item>, before: nat, litlen: seq<nat>, offset: seq<nat>, max: nat)
    requires ValidItems(items, before) && TallyOf(items, litlen, offset)
    requires MakeCode.CodeFor(litlen, codes.litlen, max) && MakeCode.CodeFor(offset, codes.offset, 15)
    ensures |codes.litlen| == NUM_LITLEN_SYMS && |codes.offset| == NUM_OFFSET_SYMS
    ensures AllEncodable(codes, items, before) && codes.litlen[END_OF_BLOCK] > 0
  {
    hide MakeCode.CodeFor, LitlenCount, OffsetCount, LengthSlot, OffsetSlot;
    CodeSize(litlen, codes.litlen, max);
    CodeSize(offset, codes.offset, 15);
    CodeCovers(litlen, codes.litlen, max, END_OF_BLOCK);
    forall k | 0 <= k < |items|
      ensures Occurs(items[k], codes.litlen, codes.offset)
    {
      CountedPositive(items, k);
      CodeCovers(litlen, codes.litlen, max, LitlenSymbol(items[k]));
      if OffsetSymbolOf(items[k]) >= 0 { CodeCovers(offset, codes.offset, 15, OffsetSymbolOf(items[k])); }
    }
    EachIsEnough(codes, items, before);
  }

  lemma CodeSize(freqs: seq<nat>, lens: seq<nat>, max: nat)
    requires MakeCode.CodeFor(freqs, lens, max)
    ensures |lens| == |freqs|
  {
    hide HuffmanCode.Optimal, CompleteCode;
  }
}
