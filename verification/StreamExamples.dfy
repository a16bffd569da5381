/** Streams given byte by byte, and what they decompress to. */
module StreamExamples {
  import opened Powers
  import opened BitFields
  import opened BitReversal
  import opened CanonicalCode
  import opened DeflateSymbols
  import opened BlockItems
  import opened DeflateStream
  import opened StreamFields
  import FlushBlock
  import FormatNumbers
  import MatchCopy

  lemma FewPowers()
    ensures Pow2(0) == 1 && Pow2(1) == 2 && Pow2(2) == 4 && Pow2(3) == 8 && Pow2(4) == 16 && Pow2(5) == 32 && Pow2(7) == 128 && Pow2(8) == 256
  {
    SmallPowers();
  }

  lemma ShortReversals()
    ensures Reversed(0, 1) == 0 && Reversed(0, 2) == 0 && Reversed(1, 1) == 1 && Reversed(1, 2) == 2 && Reversed(1, 5) == 16 && Reversed(2, 2) == 1 && Reversed(4, 3) == 1 && Reversed(5, 3) == 5 && Reversed(6, 3) == 3 && Reversed(7, 3) == 7 && Reversed(14, 4) == 7 && Reversed(15, 4) == 15
  {
  }

  lemma Reversal0()
    ensures Reversed(0, 7) == 0
  {
  }

  lemma Reversal9()
    ensures Reversed(9, 7) == 72
  {
  }

  lemma Reversal145()
    ensures Reversed(145, 8) == 137
  {
  }

  lemma Reversal146()
    ensures Reversed(146, 8) == 73
  {
  }

  lemma Reversals()
    ensures Reversed(0, 1) == 0 && Reversed(0, 2) == 0 && Reversed(0, 7) == 0 && Reversed(1, 1) == 1 && Reversed(1, 2) == 2 && Reversed(1, 5) == 16 && Reversed(2, 2) == 1 && Reversed(4, 3) == 1 && Reversed(5, 3) == 5 && Reversed(6, 3) == 3 && Reversed(7, 3) == 7 && Reversed(9, 7) == 72 && Reversed(14, 4) == 7 && Reversed(15, 4) == 15 && Reversed(145, 8) == 137 && Reversed(146, 8) == 73
  {
    hide Reversed;
    ShortReversals();
    Reversal0();
    Reversal9();
    Reversal145();
    Reversal146();
  }

  // ---- Static codes --------------------------------------------------------------------------

  function LetterA(): Fields {
    Field(1, 1, Field(1, 2, Codeword(145, 8, Codeword(0, 7, NoMore))))
  }

  function LetterAOctets(): Fields {
    Field(75, 8, Field(4, 8, Field(0, 8, NoMore)))
  }

  lemma LetterANumbers()
    ensures Fit(LetterA()) && Fit(LetterAOctets()) && Whole(LetterAOctets()) && Number(LetterA()) == Number(LetterAOctets()) && Width(LetterA()) <= Width(LetterAOctets())
    ensures Octets(LetterAOctets()) == [75, 4, 0]
  {
    hide Pow2, Reversed, Number, Width, Fit, Whole, Octets;
    FewPowers();
    NoFields();
    Reversals();
    NextField(0, 7, 128, NoMore);
    var f1 := Codeword(0, 7, NoMore);
    NextField(137, 8, 256, f1);
    var f2 := Codeword(145, 8, f1);
    NextField(1, 2, 4, f2);
    var f3 := Field(1, 2, f2);
    NextField(1, 1, 2, f3);
    var f4 := Field(1, 1, f3);
    NextOctet(0, NoMore);
    var o1 := Field(0, 8, NoMore);
    NextOctet(4, o1);
    var o2 := Field(4, 8, o1);
    NextOctet(75, o2);
    var o3 := Field(75, 8, o2);
  }

  lemma LetterABits()
    ensures var b := Fixed(true, [Literal(97)]); Good(b, 0) && BitsOf(b, 0, 0) == Concat(LetterA()) && Output(b, []) == [97]
  {
    hide Code, Reversed, StaticCodes, Pow2, CodeBits, ToBits, MatchBits, ItemBits;
    var codes := StaticCodes();
    FormatNumbers.StaticCodewords(97);
    FormatNumbers.StaticCodewords(256);
    EndThen(codes, 1, 0);
    LiteralThen(codes, 97, [], 0, 0x91, Codeword(0, 7, NoMore));
    assert [Literal(97)] + [] == [Literal(97)];
    FlushBlock.StaticEncodes([Literal(97)], 0);
    StaticStart(Fixed(true, [Literal(97)]), Codeword(0x91, 8, Codeword(0, 7, NoMore)));
  }

  /** The start of a static block that is the last. */
  lemma StaticStart(b: Block, f: Fields)
    requires Good(b, 0) && b.Fixed? && b.last && BlockBits(StaticCodes(), b.items, 0) == Concat(f)
    ensures BitsOf(b, 0, 0) == Concat(Field(1, 1, Field(1, 2, f)))
  {
    hide Good, StaticCodes, BlockBits, ToBits;
  }

  /** 4B 04 00 is one static block with the letter a. */
  lemma LetterAStream()
    ensures IsStream([0x4B, 0x04, 0x00], [97])
  {
    hide Concat, Number, Fit, Whole, Width, Octets, Good, BitsOf, Output, LetterA, LetterAOctets;
    LetterANumbers();
    LetterABits();
    OneBlockStream(Fixed(true, [Literal(97)]), LetterA(), LetterAOctets(), [97]);
  }

  function Letters(): Fields {
    Field(1, 1, Field(1, 2, Codeword(145, 8, Codeword(146, 8, Codeword(9, 7, Field(1, 1, Codeword(1, 5, Field(0, 0, Codeword(0, 7, NoMore)))))))))
  }

  function LettersOctets(): Fields {
    Field(75, 8, Field(76, 8, Field(66, 8, Field(134, 8, Field(0, 8, NoMore)))))
  }

  lemma LettersNumbers()
    ensures Fit(Letters()) && Fit(LettersOctets()) && Whole(LettersOctets()) && Number(Letters()) == Number(LettersOctets()) && Width(Letters()) <= Width(LettersOctets())
    ensures Octets(LettersOctets()) == [75, 76, 66, 134, 0]
  {
    hide Pow2, Reversed, Number, Width, Fit, Whole, Octets;
    FewPowers();
    NoFields();
    Reversals();
    NextField(0, 7, 128, NoMore);
    var f1 := Codeword(0, 7, NoMore);
    NextField(0, 0, 1, f1);
    var f2 := Field(0, 0, f1);
    NextField(16, 5, 32, f2);
    var f3 := Codeword(1, 5, f2);
    NextField(1, 1, 2, f3);
    var f4 := Field(1, 1, f3);
    NextField(72, 7, 128, f4);
    var f5 := Codeword(9, 7, f4);
    NextField(73, 8, 256, f5);
    var f6 := Codeword(146, 8, f5);
    NextField(137, 8, 256, f6);
    var f7 := Codeword(145, 8, f6);
    NextField(1, 2, 4, f7);
    var f8 := Field(1, 2, f7);
    NextField(1, 1, 2, f8);
    var f9 := Field(1, 1, f8);
    NextOctet(0, NoMore);
    var o1 := Field(0, 8, NoMore);
    NextOctet(134, o1);
    var o2 := Field(134, 8, o1);
    NextOctet(66, o2);
    var o3 := Field(66, 8, o2);
    NextOctet(76, o3);
    var o4 := Field(76, 8, o3);
    NextOctet(75, o4);
    var o5 := Field(75, 8, o4);
  }

  function LettersItems(): seq<BlockItems.Item> { [Literal(97), Literal(98), Match(12, 2)] }

  lemma LettersBits()
    ensures var b := Fixed(true, LettersItems()); Good(b, 0) && BitsOf(b, 0, 0) == Concat(Letters())
  {
    hide Code, Reversed, StaticCodes, Pow2, CodeBits, ToBits, MatchBits, ItemBits, LengthSlot, OffsetSlot;
    var codes := StaticCodes();
    FormatNumbers.StaticCodewords(97);
    FormatNumbers.StaticCodewords(98);
    FormatNumbers.StaticCodewords(256);
    FormatNumbers.StaticCodewords(265);
    FormatNumbers.StaticOffsets(1);
    SlotsOf12And2();
    var end := Codeword(0, 7, NoMore);
    EndThen(codes, 14, 0);
    MatchThen(codes, 12, 2, [], 2, 8, 1, 9, 1, end);
    var m := Codeword(9, 7, Field(1, 1, Codeword(1, 5, Field(0, 0, end))));
    LiteralThen(codes, 98, [Match(12, 2)] + [], 1, 0x92, m);
    LiteralThen(codes, 97, [Literal(98)] + ([Match(12, 2)] + []), 0, 0x91, Codeword(0x92, 8, m));
    assert [Literal(97)] + ([Literal(98)] + ([Match(12, 2)] + [])) == LettersItems();
    FlushBlock.StaticEncodes(LettersItems(), 0);
    StaticStart(Fixed(true, LettersItems()), Codeword(0x91, 8, Codeword(0x92, 8, m)));
  }

  lemma SlotsOf12And2()
    ensures LengthSlot(12) == 8 && OffsetSlot(2) == 1 && |LengthBase| == |LengthExtra| == 29 && |OffsetBase| == |OffsetExtra| == 30
    ensures LengthBase[8] == 11 && LengthExtra[8] == 1 && OffsetBase[1] == 2 && OffsetExtra[1] == 0
  {
    hide Pow2, SlotUpTo, Contiguous;
    SlotTables();
    OneSlot(LengthBase, LengthExtra, 12, 28, 8);
    OneSlot(OffsetBase, OffsetExtra, 2, 29, 1);
  }

  lemma {:induction false} Bases(base: seq<nat>, extra: seq<nat>, i: nat, j: nat)
    requires Contiguous(base, extra) && i <= j < |base|
    ensures base[i] <= base[j]
    decreases j
  {
    if i < j { Bases(base, extra, i, j - 1); }
  }

  /** The slot is the one whose base is the last not above the value. */
  lemma OneSlot(base: seq<nat>, extra: seq<nat>, v: nat, s: nat, r: nat)
    requires Contiguous(base, extra) && r < s < |base| && base[0] <= v && base[r] <= v < base[r + 1]
    ensures SlotUpTo(base, v, s) == r
  {
    hide SlotUpTo, Contiguous;
    var q := SlotUpTo(base, v, s);
    if q < r { Bases(base, extra, q + 1, r); }
    if r < q { Bases(base, extra, r + 1, q); }
  }

  /** The letters a and b, seven times. */
  const SevenTimes: seq<Byte> := [97, 98, 97, 98, 97, 98, 97, 98, 97, 98, 97, 98, 97, 98]

  lemma LettersOutput()
    ensures ValidItems(LettersItems(), 0) && Expand([], LettersItems()) == SevenTimes
  {
    var items := LettersItems();
    assert items[1..] == [Literal(98), Match(12, 2)] && items[1..][1..] == [Match(12, 2)] && items[1..][1..][1..] == [];
    assert Appended([], Literal(97)) == [97] && Appended([97], Literal(98)) == [97, 98];
    assert MatchCopy.Extended([97, 98], 12, 2) == SevenTimes by { Extend12(); }
  }

  lemma Extend12()
    ensures MatchCopy.Extended([97, 98], 12, 2) == SevenTimes
  {
    hide MatchCopy.Extended;
    MatchCopy.RepeatsIsExtended(SevenTimes, 2, 12, 2);
    assert SevenTimes[..2] == [97, 98] && SevenTimes[..14] == SevenTimes;
  }

  /** 4B 4C 42 86 00: a literal each, and a match of twelve bytes two back. */
  lemma LettersStream()
    ensures IsStream([75, 76, 66, 134, 0], SevenTimes)
  {
    hide Concat, Number, Fit, Whole, Width, Octets, Good, BitsOf, Letters, LettersOctets, Expand, LettersItems;
    LettersNumbers();
    LettersBits();
    LettersOutput();
    OneBlockStream(Fixed(true, LettersItems()), Letters(), LettersOctets(), SevenTimes);
  }
}
