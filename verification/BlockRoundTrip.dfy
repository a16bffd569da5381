/** Decoding undoes encoding on the body of a Huffman block. */
module BlockRoundTrip {
  import opened Powers
  import opened Shifts
  import opened BitFields
  import opened BitReversal
  import opened CanonicalCode
  import opened TableFilling
  import opened DecodeTable
  import opened BuildDecodeTable
  import opened DeflateSymbols
  import opened MatchCopy
  import opened BlockDecoder
  import opened BlockItems
  import BlockWriter
  import MakeCode

  /** A codeword in the stream is the start of the bits that are looked up. */
  lemma CodewordIsRead(lens: seq<nat>, s: nat, data: seq<Byte>, pos: nat)
    requires FittingCode(lens, MAX_CODEWORD_LEN) && s < |lens| && 0 < lens[s] <= MAX_CODEWORD_LEN
    requires Window(data, pos, lens[s]) == CodeBits(lens, s)
    ensures StartsWith(lens, s, Field(data, pos, MAX_CODEWORD_LEN))
  {
    hide Window, ToBits, FromBits, Code, Reversed, Mask;
    var len, c, x := lens[s], Code(lens, s), Field(data, pos, MAX_CODEWORD_LEN);
    CodeFits(lens, s, MAX_CODEWORD_LEN);
    FieldParts(data, pos, MAX_CODEWORD_LEN, len);
    FieldRoundTrip(Reversed(c, len), len);
    ReversedBound(c, len);
    BelowMask(Reversed(c, len), len);
    ReversedMask(x, len, len);
    ReversedTwice(c, len);
    BelowMask(c, len);
  }

  lemma SymbolIsRead(table: seq<nat>, tableBits: nat, lens: seq<nat>, results: seq<nat>, s: nat, data: seq<Byte>, pos: nat)
    requires FittingCode(lens, MAX_CODEWORD_LEN) && |results| == |lens| && DecodesAll(table, lens, results, tableBits)
    requires s < |lens| && 0 < lens[s] <= MAX_CODEWORD_LEN && Window(data, pos, lens[s]) == CodeBits(lens, s)
    ensures SymbolAt(table, tableBits, data, pos) == Decoded(results[s], lens[s])
  {
    hide Field, StartsWith, CodeBits, Lookup;
    CodewordIsRead(lens, s, data, pos);
    var x := Field(data, pos, MAX_CODEWORD_LEN);
    assert LooksUp(table, tableBits, x, results[s], lens[s], Longest(lens));
    assert Inside(table, tableBits, x);
  }

  /** The tables were built from the lengths of the codes. */
  ghost predicate TablesFor(codes: Codes, lit: seq<nat>, off: seq<nat>) {
    && UsableCodes(codes)
    && DecodesAll(lit, codes.litlen, LitlenResults(), LITLEN_TABLEBITS)
    && DecodesAll(off, codes.offset, OffsetResults(), OFFSET_TABLEBITS)
  }

  lemma FieldIsRead(data: seq<Byte>, pos: nat, x: nat, n: nat)
    requires x < Pow2(n) && Window(data, pos, n) == ToBits(x, n)
    ensures Field(data, pos, n) == x
  {
    FieldRoundTrip(x, n);
    BelowMask(x, n);
  }

  /** A window that holds two strings of bits. */
  lemma TwoParts(data: seq<Byte>, pos: nat, a: Bits, b: Bits)
    requires Window(data, pos, |a + b|) == a + b
    ensures Window(data, pos, |a|) == a && Window(data, pos + |a|, |b|) == b
  {
    WindowSplit(data, pos, |a|, |b|);
    var w := Window(data, pos, |a + b|);
    assert w[..|a|] == a && w[|a|..] == b;
    assert w[..|a|] == Window(data, pos, |a|) && w[|a|..] == Window(data, pos + |a|, |b|);
  }

  lemma FourParts(data: seq<Byte>, pos: nat, a: Bits, b: Bits, c: Bits, d: Bits)
    requires Window(data, pos, |a + b + c + d|) == a + b + c + d
    ensures Window(data, pos, |a|) == a && Window(data, pos + |a|, |b|) == b
    ensures Window(data, pos + |a| + |b|, |c|) == c && Window(data, pos + |a| + |b| + |c|, |d|) == d
  {
    TwoParts(data, pos, a + b + c, d);
    TwoParts(data, pos, a + b, c);
    TwoParts(data, pos, a, b);
  }

  lemma LengthBounds(codes: Codes, s: nat)
    requires UsableCodes(codes)
    ensures s < NUM_LITLEN_SYMS ==> codes.litlen[s] <= MAX_CODEWORD_LEN
    ensures s < NUM_OFFSET_SYMS ==> codes.offset[s] <= MAX_CODEWORD_LEN
  {
    hide End;
  }

  lemma LiteralIsRead(codes: Codes, lit: seq<nat>, off: seq<nat>, data: seq<Byte>, pos: nat, b: Byte, out: seq<Byte>, limit: nat)
    requires TablesFor(codes, lit, off) && codes.litlen[b] > 0 && |out| < limit
    requires Window(data, pos, codes.litlen[b]) == CodeBits(codes.litlen, b)
    ensures ItemAt(lit, off, data, pos, out, limit) == More(out + [b], pos + codes.litlen[b])
  {
    hide SymbolAt, DecodesAll, CodeBits, End;
    LengthBounds(codes, b);
    SymbolIsRead(lit, LITLEN_TABLEBITS, codes.litlen, LitlenResults(), b, data, pos);
    assert LitlenResult(b) == LITERAL + b && (LITERAL + b) % 256 == b;
  }

  lemma EndIsRead(codes: Codes, lit: seq<nat>, off: seq<nat>, data: seq<Byte>, pos: nat, out: seq<Byte>, limit: nat)
    requires TablesFor(codes, lit, off) && codes.litlen[END_OF_BLOCK] > 0 && |out| <= limit
    requires Window(data, pos, codes.litlen[END_OF_BLOCK]) == CodeBits(codes.litlen, END_OF_BLOCK)
    ensures ItemAt(lit, off, data, pos, out, limit) == Stop(Done(out, pos + codes.litlen[END_OF_BLOCK]))
  {
    hide SymbolAt, DecodesAll, CodeBits, End;
    LengthBounds(codes, END_OF_BLOCK);
    SymbolIsRead(lit, LITLEN_TABLEBITS, codes.litlen, LitlenResults(), END_OF_BLOCK, data, pos);
    assert LitlenResult(END_OF_BLOCK) == 0;
  }

  /** The results of the symbols of a match give back its length and offset. */
  lemma MatchResults(length: nat, offset: nat)
    requires MIN_MATCH_LEN <= length <= MAX_MATCH_LEN && 1 <= offset <= MAX_MATCH_OFFSET
    ensures |LengthBase| == |LengthExtra| == 29 && |OffsetBase| == |OffsetExtra| == 30
    ensures var l, r := LengthSlot(length), LitlenResult(END_OF_BLOCK + 1 + LengthSlot(length));
      r < LITERAL && r / 256 == LengthBase[l] && r % 256 == LengthExtra[l]
    ensures var o, r := OffsetSlot(offset), OffsetResult(OffsetSlot(offset));
      r % 0x1_0000 == OffsetBase[o] && r / 0x1_0000 == OffsetExtra[o]
  {
    hide LengthSlot, OffsetSlot, Contiguous, Pow2, LengthBase, LengthExtra, OffsetBase, OffsetExtra;
    LengthFits(length);
    OffsetFits(offset);
    LastLengthSlot();
  }

  lemma LastLengthSlot()
    ensures |LengthBase| == |LengthExtra| == 29 && LengthBase[28] == 258 && LengthExtra[28] == 0
  {
  }

  /** A match from the symbols and fields read one after the other. */
  lemma MatchOf(lit: seq<nat>, off: seq<nat>, data: seq<Byte>, pos: nat, out: seq<Byte>, limit: nat, d: Decoded, x: nat, e: Decoded, y: nat)
    requires |out| <= limit && SymbolAt(lit, LITLEN_TABLEBITS, data, pos) == d && d.result < LITERAL
    requires Field(data, pos + d.len, d.result % 256) == x && 0 < d.result / 256 + x <= limit - |out|
    requires SymbolAt(off, OFFSET_TABLEBITS, data, pos + d.len + d.result % 256) == e
    requires Field(data, pos + d.len + d.result % 256 + e.len, e.result / 0x1_0000) == y && 1 <= e.result % 0x1_0000 + y <= |out|
    ensures ItemAt(lit, off, data, pos, out, limit)
         == More(Extended(out, d.result / 256 + x, e.result % 0x1_0000 + y), pos + d.len + d.result % 256 + e.len + e.result / 0x1_0000)
  {
    hide SymbolAt, Field, Extended;
  }

  lemma LitlenIsRead(codes: Codes, lit: seq<nat>, off: seq<nat>, s: nat, data: seq<Byte>, pos: nat)
    requires TablesFor(codes, lit, off) && s < |codes.litlen| == NUM_LITLEN_SYMS && codes.litlen[s] > 0
    requires Window(data, pos, codes.litlen[s]) == CodeBits(codes.litlen, s)
    ensures SymbolAt(lit, LITLEN_TABLEBITS, data, pos) == Decoded(LitlenResult(s), codes.litlen[s])
  {
    hide SymbolAt, DecodesAll, CodeBits, End, LitlenResult;
    LengthBounds(codes, s);
    SymbolIsRead(lit, LITLEN_TABLEBITS, codes.litlen, LitlenResults(), s, data, pos);
  }

  lemma OffsetIsRead(codes: Codes, lit: seq<nat>, off: seq<nat>, s: nat, data: seq<Byte>, pos: nat)
    requires TablesFor(codes, lit, off) && s < |codes.offset| == NUM_OFFSET_SYMS && codes.offset[s] > 0
    requires Window(data, pos, codes.offset[s]) == CodeBits(codes.offset, s)
    ensures SymbolAt(off, OFFSET_TABLEBITS, data, pos) == Decoded(OffsetResult(s), codes.offset[s])
  {
    hide SymbolAt, DecodesAll, CodeBits, End, OffsetResult;
    LengthBounds(codes, s);
    SymbolIsRead(off, OFFSET_TABLEBITS, codes.offset, OffsetResults(), s, data, pos);
  }

  lemma MatchIsRead(codes: Codes, lit: seq<nat>, off: seq<nat>, data: seq<Byte>, pos: nat, length: nat, offset: nat, out: seq<Byte>, limit: nat)
    requires MIN_MATCH_LEN <= length <= MAX_MATCH_LEN && 1 <= offset <= MAX_MATCH_OFFSET && offset <= |out| && |out| + length <= limit
    requires TablesFor(codes, lit, off) && |codes.litlen| == NUM_LITLEN_SYMS && |codes.offset| == NUM_OFFSET_SYMS
    requires codes.litlen[END_OF_BLOCK + 1 + LengthSlot(length)] > 0 && codes.offset[OffsetSlot(offset)] > 0
    requires Window(data, pos, |MatchBits(codes, length, offset)|) == MatchBits(codes, length, offset)
    ensures ItemAt(lit, off, data, pos, out, limit) == More(Extended(out, length, offset), pos + |MatchBits(codes, length, offset)|)
  {
    hide SymbolAt, TablesFor, LengthSlot, OffsetSlot, LitlenResult, OffsetResult, Field, Extended, ItemAt, MatchBits, LengthBase, LengthExtra, OffsetBase,
      OffsetExtra;
    MatchSymbolsRead(codes, lit, off, data, pos, length, offset);
    MatchResults(length, offset);
    var l, o := LengthSlot(length), OffsetSlot(offset);
    var ls := END_OF_BLOCK + 1 + l;
    MatchOf(lit, off, data, pos, out, limit, Decoded(LitlenResult(ls), codes.litlen[ls]), length - LengthBase[l],
            Decoded(OffsetResult(o), codes.offset[o]), offset - OffsetBase[o]);
  }

  /** The two symbols of a match and its two fields, one after the other. */
  lemma MatchSymbolsRead(codes: Codes, lit: seq<nat>, off: seq<nat>, data: seq<Byte>, pos: nat, length: nat, offset: nat)
    requires MIN_MATCH_LEN <= length <= MAX_MATCH_LEN && 1 <= offset <= MAX_MATCH_OFFSET
    requires TablesFor(codes, lit, off) && |codes.litlen| == NUM_LITLEN_SYMS && |codes.offset| == NUM_OFFSET_SYMS
    requires codes.litlen[END_OF_BLOCK + 1 + LengthSlot(length)] > 0 && codes.offset[OffsetSlot(offset)] > 0
    requires Window(data, pos, |MatchBits(codes, length, offset)|) == MatchBits(codes, length, offset)
    ensures |LengthBase| == |LengthExtra| == 29 && |OffsetBase| == |OffsetExtra| == 30
    ensures LengthBase[LengthSlot(length)] <= length && OffsetBase[OffsetSlot(offset)] <= offset
    ensures var l, o := LengthSlot(length), OffsetSlot(offset);
      var ls := END_OF_BLOCK + 1 + l;
      var pos1 := pos + codes.litlen[ls] + LengthExtra[l];
      && SymbolAt(lit, LITLEN_TABLEBITS, data, pos) == Decoded(LitlenResult(ls), codes.litlen[ls])
      && Field(data, pos + codes.litlen[ls], LengthExtra[l]) == length - LengthBase[l]
      && SymbolAt(off, OFFSET_TABLEBITS, data, pos1) == Decoded(OffsetResult(o), codes.offset[o])
      && Field(data, pos1 + codes.offset[o], OffsetExtra[o]) == offset - OffsetBase[o]
      && |MatchBits(codes, length, offset)| == codes.litlen[ls] + LengthExtra[l] + codes.offset[o] + OffsetExtra[o]
  {
    hide SymbolAt, TablesFor, CodeBits, LengthSlot, OffsetSlot, LitlenResult, OffsetResult, Window, Field, ToBits, Pow2, LengthBase, LengthExtra,
      OffsetBase, OffsetExtra;
    LengthFits(length);
    OffsetFits(offset);
    var l, o := LengthSlot(length), OffsetSlot(offset);
    var ls := END_OF_BLOCK + 1 + l;
    var a, b := CodeBits(codes.litlen, ls), ToBits(length - LengthBase[l], LengthExtra[l]);
    var c, d := CodeBits(codes.offset, o), ToBits(offset - OffsetBase[o], OffsetExtra[o]);
    assert MatchBits(codes, length, offset) == a + b + c + d;
    FourParts(data, pos, a, b, c, d);
    LitlenIsRead(codes, lit, off, ls, data, pos);
    FieldIsRead(data, pos + |a|, length - LengthBase[l], LengthExtra[l]);
    OffsetIsRead(codes, lit, off, o, data, pos + |a| + |b|);
    FieldIsRead(data, pos + |a| + |b| + |c|, offset - OffsetBase[o], OffsetExtra[o]);
  }

  lemma ItemIsRead(codes: Codes, lit: seq<nat>, off: seq<nat>, data: seq<Byte>, pos: nat, item: Item, out: seq<Byte>, limit: nat)
    requires TablesFor(codes, lit, off) && ValidItem(item, |out|) && Encodable(codes, item, |out|) && |out| + Size(item) <= limit
    requires Window(data, pos, |ItemBits(codes, item, |out|)|) == ItemBits(codes, item, |out|)
    ensures ItemAt(lit, off, data, pos, out, limit) == More(Appended(out, item), pos + |ItemBits(codes, item, |out|)|)
  {
    hide MatchBits, ItemAt, TablesFor, CodeBits;
    TablesSize(codes, lit, off);
    match item
    case Literal(b) => LiteralIsRead(codes, lit, off, data, pos, b, out, limit);
    case Match(length, offset) => MatchIsRead(codes, lit, off, data, pos, length, offset, out, limit);
  }

  /** An item for which there is no room. */
  lemma ItemHasNoRoom(codes: Codes, lit: seq<nat>, off: seq<nat>, data: seq<Byte>, pos: nat, item: Item, out: seq<Byte>, limit: nat)
    requires TablesFor(codes, lit, off) && ValidItem(item, |out|) && Encodable(codes, item, |out|) && |out| <= limit < |out| + Size(item)
    requires Window(data, pos, |ItemBits(codes, item, |out|)|) == ItemBits(codes, item, |out|)
    ensures ItemAt(lit, off, data, pos, out, limit) == Stop(NoSpace)
  {
    hide MatchBits, TablesFor, CodeBits, SymbolAt, LengthSlot, OffsetSlot, LitlenResult, OffsetResult, Field, LengthBase, LengthExtra, OffsetBase, OffsetExtra;
    TablesSize(codes, lit, off);
    match item
    case Literal(b) =>
      LitlenIsRead(codes, lit, off, b, data, pos);
      LiteralResult(b);
    case Match(length, offset) =>
      MatchSymbolsRead(codes, lit, off, data, pos, length, offset);
      MatchResults(length, offset);
  }

  lemma LiteralResult(b: Byte)
    ensures LitlenResult(b) == LITERAL + b
  {
  }

  lemma TablesSize(codes: Codes, lit: seq<nat>, off: seq<nat>)
    requires TablesFor(codes, lit, off)
    ensures |codes.litlen| == NUM_LITLEN_SYMS && |codes.offset| == NUM_OFFSET_SYMS
  {
  }

  /** Inflate undoes deflate on the body of a block: any valid items, encoded and followed by the end-of-block
      symbol, decode to exactly what they expand to, and decoding stops right after that symbol. */
  lemma {:induction false} DecodeUndoesEncode(codes: Codes, lit: seq<nat>, off: seq<nat>, data: seq<Byte>, pos: nat, items: seq<Item>, out: seq<Byte>, limit: nat)
    requires TablesFor(codes, lit, off) && |codes.litlen| == NUM_LITLEN_SYMS && |codes.offset| == NUM_OFFSET_SYMS
    requires ValidItems(items, |out|) && AllEncodable(codes, items, |out|) && codes.litlen[END_OF_BLOCK] > 0 && |out| <= limit
    requires Window(data, pos, |BlockBits(codes, items, |out|)|) == BlockBits(codes, items, |out|)
    ensures DecodeFrom(lit, off, data, pos, out, limit) ==
      if |Expand(out, items)| <= limit then Done(Expand(out, items), pos + |BlockBits(codes, items, |out|)|) else NoSpace
    decreases |items|
  {
    hide TablesFor, ItemAt, ItemBits, CodeBits, Encodable, Appended;
    if items == [] {
      assert BlockBits(codes, items, |out|) == CodeBits(codes.litlen, END_OF_BLOCK);
      EndIsRead(codes, lit, off, data, pos, out, limit);
    } else {
      var item, rest := items[0], items[1..];
      var a, more := ItemBits(codes, item, |out|), Appended(out, item);
      var b := BlockBits(codes, rest, |more|);
      assert BlockBits(codes, items, |out|) == a + b;
      TwoParts(data, pos, a, b);
      if |more| <= limit {
        ItemIsRead(codes, lit, off, data, pos, item, out, limit);
        DecodeUndoesEncode(codes, lit, off, data, pos + |a|, rest, more, limit);
      } else {
        ItemHasNoRoom(codes, lit, off, data, pos, item, out, limit);
      }
    }
  }

  /** A block whose bits stand anywhere in the compressed stream is decoded from there to the bytes of its items. */
  lemma WrittenBlockInflates(codes: Codes, lit: seq<nat>, off: seq<nat>, data: seq<Byte>, all: Bits, header: Bits, rest: Bits,
                             items: seq<Item>, out: seq<Byte>, limit: nat)
    requires TablesFor(codes, lit, off) && |codes.litlen| == NUM_LITLEN_SYMS && |codes.offset| == NUM_OFFSET_SYMS
    requires ValidItems(items, |out|) && AllEncodable(codes, items, |out|) && codes.litlen[END_OF_BLOCK] > 0
    requires |Expand(out, items)| <= limit
    requires all == header + BlockBits(codes, items, |out|) + rest
    requires forall j: nat :: j < |all| ==> all[j] == StreamBit(data, j)
    ensures DecodeFrom(lit, off, data, |header|, out, limit) == Done(Expand(out, items), |all| - |rest|)
  {
    hide TablesFor, BlockBits, DecodeFrom, AllEncodable;
    BlockWriter.WindowOf(data, all, header, BlockBits(codes, items, |out|), rest);
    DecodeUndoesEncode(codes, lit, off, data, |header|, items, out, limit);
  }

  /** The same with codes made from the block's own tally. */
  lemma OwnCodesInflate(codes: Codes, litlen: seq<nat>, offset: seq<nat>, lit: seq<nat>, off: seq<nat>, data: seq<Byte>, all: Bits, header: Bits,
                        rest: Bits, items: seq<Item>, out: seq<Byte>, limit: nat)
    requires ValidItems(items, |out|) && TallyOf(items, litlen, offset)
    requires MakeCode.CodeFor(litlen, codes.litlen, BlockWriter.MAX_LITLEN_CODEWORD_LEN) && MakeCode.CodeFor(offset, codes.offset, MAX_CODEWORD_LEN)
    requires TablesFor(codes, lit, off) && |codes.litlen| == NUM_LITLEN_SYMS && |codes.offset| == NUM_OFFSET_SYMS
    requires |Expand(out, items)| <= limit
    requires all == header + BlockBits(codes, items, |out|) + rest
    requires forall j: nat :: j < |all| ==> all[j] == StreamBit(data, j)
    ensures DecodeFrom(lit, off, data, |header|, out, limit) == Done(Expand(out, items), |all| - |rest|)
  {
    hide TablesFor, BlockBits, DecodeFrom, AllEncodable, TallyOf, MakeCode.CodeFor;
    OwnTallyEncodes(codes, items, |out|, litlen, offset, BlockWriter.MAX_LITLEN_CODEWORD_LEN);
    WrittenBlockInflates(codes, lit, off, data, all, header, rest, items, out, limit);
  }
}
