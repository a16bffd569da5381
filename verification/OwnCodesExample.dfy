/** A stream with codes of its own, given byte by byte, and what it decompresses to. */
module OwnCodesExample {
  import opened Powers
  import opened BitFields
  import opened BitReversal
  import opened CanonicalCode
  import opened DeflateSymbols
  import opened BlockItems
  import opened DeflateStream
  import opened StreamFields
  import opened StreamExamples
  import CodeLengths
  import DynamicHeader
  import Inflate
  import MatchCopy
  import PrecodeItems
  import WeightedSums

  // ---- The codes -----------------------------------------------------------------------------

  /** Two letters in two bits, the end of the block and three lengths in three; two offsets in one bit; six precode symbols. */
  function Litlen(): (r: seq<nat>)
    ensures |r| == 288 && forall s :: 0 <= s < 288 ==> r[s] == if s == 97 || s == 98 then 2 else if 256 <= s < 260 then 3 else 0
  {
    seq(288, s => if s == 97 || s == 98 then 2 else if 256 <= s < 260 then 3 else 0)
  }

  function Offset(): (r: seq<nat>)
    ensures |r| == 32 && forall s :: 0 <= s < 32 ==> r[s] == if s == 0 || s == 4 then 1 else 0
  {
    seq(32, s => if s == 0 || s == 4 then 1 else 0)
  }

  function Pre(): (r: seq<nat>)
    ensures |r| == 19 && forall s :: 0 <= s < 19 ==>
      r[s] == if s == 1 || s == 2 || s == 18 then 2 else if s == 3 then 3 else if s == 16 || s == 17 then 4 else 0
  {
    seq(19, s => if s == 1 || s == 2 || s == 18 then 2 else if s == 3 then 3 else if s == 16 || s == 17 then 4 else 0)
  }

  function Own(): Codes { Codes(Litlen(), Offset()) }

  function Inside(s: nat, lo: nat, hi: nat): nat { if s <= lo then 0 else if s < hi then s - lo else if lo <= hi then hi - lo else 0 }

  /** Equal lengths in a row among others. */
  lemma {:induction false} CountPart(lens: seq<nat>, lo: nat, hi: nat, v: nat, len: nat)
    requires lo <= hi <= |lens| && forall i :: lo <= i < hi ==> lens[i] == v
    ensures WeightedSums.Count(lens[..hi], len) == WeightedSums.Count(lens[..lo], len) + if v == len then hi - lo else 0
    decreases hi
  {
    if lo < hi {
      CountPart(lens, lo, hi - 1, v, len);
      CountPrefix(lens, hi - 1, len);
    }
  }

  lemma NoneBefore(lens: seq<nat>, len: nat)
    ensures WeightedSums.Count(lens[..0], len) == 0
  {
  }

  lemma LitlenCounts(len: nat)
    requires len > 0
    ensures WeightedSums.Count(Litlen()[..97], len) == 0 && WeightedSums.Count(Litlen()[..98], len) == (if len == 2 then 1 else 0)
    ensures WeightedSums.Count(Litlen()[..256], len) == (if len == 2 then 2 else 0)
    ensures WeightedSums.Count(Litlen()[..257], len) == (if len == 2 then 2 else if len == 3 then 1 else 0)
    ensures WeightedSums.Count(Litlen()[..259], len) == (if len == 2 then 2 else if len == 3 then 3 else 0)
    ensures WeightedSums.Count(Litlen(), len) == if len == 2 then 2 else if len == 3 then 4 else 0
  {
    hide WeightedSums.Count;
    var l := Litlen();
    assert l[..288] == l;
    NoneBefore(l, len);
    CountPart(l, 0, 97, 0, len);
    CountPart(l, 97, 98, 2, len);
    CountPart(l, 98, 99, 2, len);
    CountPart(l, 99, 256, 0, len);
    CountPart(l, 256, 257, 3, len);
    CountPart(l, 257, 259, 3, len);
    CountPart(l, 259, 260, 3, len);
    CountPart(l, 260, 288, 0, len);
  }

  lemma LitlenBound()
    ensures WeightedSums.Bounded(Litlen(), 15) && Litlen()[97] == 2 && Litlen()[98] == 2 && Litlen()[256] == 3 && Litlen()[257] == 3 && Litlen()[259] == 3
  {
  }

  lemma OffsetBound()
    ensures WeightedSums.Bounded(Offset(), 15) && Offset()[0] == 1 && Offset()[4] == 1
  {
  }

  lemma PreBound()
    ensures WeightedSums.Bounded(Pre(), 7) && Pre()[1] == 2 && Pre()[2] == 2 && Pre()[18] == 2 && Pre()[3] == 3 && Pre()[16] == 4 && Pre()[17] == 4
  {
  }

  lemma LitlenCodes()
    ensures CompleteCode(Litlen(), MAX_CODEWORD_LEN)
    ensures Code(Litlen(), 97) == 0 && Code(Litlen(), 98) == 1 && Code(Litlen(), 256) == 4 && Code(Litlen(), 257) == 5 && Code(Litlen(), 259) == 7
  {
    hide WeightedSums.Count, Litlen, Pow2;
    FewPowers();
    LitlenBound();
    var l := Litlen();
    forall len: nat | len > 0 ensures WeightedSums.Count(l, len) == if len == 2 then 2 else if len == 3 then 4 else 0 { LitlenCounts(len); }
    assert End(l, 1) == 0 && First(l, 2) == 0 && End(l, 2) == 2 && First(l, 3) == 4 && End(l, 3) == 8;
    LitlenCounts(2);
    LitlenCounts(3);
    Inflate.StaysComplete(l, 3, 15);
  }

  lemma OffsetCounts(len: nat)
    requires len > 0
    ensures WeightedSums.Count(Offset()[..0], len) == 0 && WeightedSums.Count(Offset()[..4], len) == (if len == 1 then 1 else 0)
    ensures WeightedSums.Count(Offset(), len) == if len == 1 then 2 else 0
  {
    hide WeightedSums.Count;
    var l := Offset();
    assert l[..32] == l;
    NoneBefore(l, len);
    CountPart(l, 0, 1, 1, len);
    CountPart(l, 1, 4, 0, len);
    CountPart(l, 4, 5, 1, len);
    CountPart(l, 5, 32, 0, len);
  }

  lemma OffsetCodes()
    ensures CompleteCode(Offset(), MAX_CODEWORD_LEN) && Code(Offset(), 0) == 0 && Code(Offset(), 4) == 1
  {
    hide WeightedSums.Count, Offset, Pow2;
    FewPowers();
    OffsetBound();
    var l := Offset();
    forall len: nat | len > 0 ensures WeightedSums.Count(l, len) == if len == 1 then 2 else 0 { OffsetCounts(len); }
    assert End(l, 1) == 2;
    OffsetCounts(1);
    Inflate.StaysComplete(l, 1, 15);
  }

  lemma PreCounts(len: nat)
    requires len > 0
    ensures WeightedSums.Count(Pre()[..1], len) == 0 && WeightedSums.Count(Pre()[..2], len) == (if len == 2 then 1 else 0)
    ensures WeightedSums.Count(Pre()[..3], len) == (if len == 2 then 2 else 0)
    ensures WeightedSums.Count(Pre()[..16], len) == (if len == 2 then 2 else if len == 3 then 1 else 0)
    ensures WeightedSums.Count(Pre()[..17], len) == (if len == 2 then 2 else if len == 3 then 1 else if len == 4 then 1 else 0)
    ensures WeightedSums.Count(Pre()[..18], len) == (if len == 2 then 2 else if len == 3 then 1 else if len == 4 then 2 else 0)
    ensures WeightedSums.Count(Pre(), len) == if len == 2 then 3 else if len == 3 then 1 else if len == 4 then 2 else 0
  {
    hide WeightedSums.Count;
    var l := Pre();
    assert l[..19] == l;
    NoneBefore(l, len);
    CountPart(l, 0, 1, 0, len);
    CountPart(l, 1, 2, 2, len);
    CountPart(l, 2, 3, 2, len);
    CountPart(l, 3, 4, 3, len);
    CountPart(l, 4, 16, 0, len);
    CountPart(l, 16, 17, 4, len);
    CountPart(l, 17, 18, 4, len);
    CountPart(l, 18, 19, 2, len);
  }

  lemma PreCodes()
    ensures CompleteCode(Pre(), DynamicHeader.MAX_PRE_CODEWORD_LEN)
    ensures Code(Pre(), 1) == 0 && Code(Pre(), 2) == 1 && Code(Pre(), 18) == 2 && Code(Pre(), 3) == 6 && Code(Pre(), 16) == 14 && Code(Pre(), 17) == 15
  {
    hide WeightedSums.Count, Pre, Pow2;
    FewPowers();
    PreBound();
    var l := Pre();
    forall len: nat | len > 0 ensures WeightedSums.Count(l, len) == if len == 2 then 3 else if len == 3 then 1 else if len == 4 then 2 else 0 { PreCounts(len); }
    assert End(l, 1) == 0 && First(l, 2) == 0 && End(l, 2) == 3 && First(l, 3) == 6 && End(l, 3) == 7 && First(l, 4) == 14 && End(l, 4) == 16;
    PreCounts(2);
    PreCounts(3);
    PreCounts(4);
    Inflate.StaysComplete(l, 4, 7);
  }

  // ---- The header ----------------------------------------------------------------------------

  /** 97 zeroes, 2 twice, 157 zeroes, 3 four times, 1, three zeroes, 1. */
  function Runs(): seq<PrecodeItems.Item> {
    [PrecodeItems.Item(18, 86), PrecodeItems.Item(2, 0), PrecodeItems.Item(2, 0), PrecodeItems.Item(18, 127), PrecodeItems.Item(18, 8),
     PrecodeItems.Item(3, 0), PrecodeItems.Item(16, 0), PrecodeItems.Item(1, 0), PrecodeItems.Item(17, 0), PrecodeItems.Item(1, 0)]
  }

  function OwnHeader(): DynamicHeader.Header { DynamicHeader.Header(260, 5, 18, Pre(), Runs()) }

  lemma RunNext(items: seq<PrecodeItems.Item>, item: PrecodeItems.Item, v: nat)
    requires PrecodeItems.Runnable(items) && PrecodeItems.ValidItem(item)
    requires if item.sym == 16 then PrecodeItems.Run(items) != [] && PrecodeItems.Run(items)[|PrecodeItems.Run(items)| - 1] == v
             else if item.sym > 16 then v == 0 else v == item.sym
    ensures PrecodeItems.Runnable(items + [item]) && PrecodeItems.Run(items + [item]) == PrecodeItems.Run(items) + PrecodeItems.Repeated(v, PrecodeItems.Count(item))
  {
    PrecodeItems.RunMore(items, item);
  }

  /** The items stand for the lengths of both codes. */
  lemma RunsStand()
    ensures PrecodeItems.Runnable(Runs()) && PrecodeItems.Run(Runs()) == Litlen()[..260] + Offset()[..5]
  {
    hide PrecodeItems.Run, PrecodeItems.Runnable, PrecodeItems.Repeated;
    var r := Runs();
    NothingRun();
    RunNext(r[..0], r[0], 0);
    assert r[..0] + [r[0]] == r[..1];
    RunNext(r[..1], r[1], 2);
    assert r[..1] + [r[1]] == r[..2];
    RunNext(r[..2], r[2], 2);
    assert r[..2] + [r[2]] == r[..3];
    RunNext(r[..3], r[3], 0);
    assert r[..3] + [r[3]] == r[..4];
    RunNext(r[..4], r[4], 0);
    assert r[..4] + [r[4]] == r[..5];
    RunNext(r[..5], r[5], 3);
    assert r[..5] + [r[5]] == r[..6];
    RunNext(r[..6], r[6], 3);
    assert r[..6] + [r[6]] == r[..7];
    RunNext(r[..7], r[7], 1);
    assert r[..7] + [r[7]] == r[..8];
    RunNext(r[..8], r[8], 0);
    assert r[..8] + [r[8]] == r[..9];
    RunNext(r[..9], r[9], 1);
    assert r[..9] + [r[9]] == r[..10];
    assert r[..10] == r;
  }

  lemma NothingRun()
    ensures PrecodeItems.Runnable([]) && PrecodeItems.Run([]) == []
  {
  }

  lemma RunsEncodable()
    ensures DynamicHeader.AllEncodable(Pre(), Runs())
  {
  }

  lemma LastRank()
    ensures forall s: nat :: s < 19 && DynamicHeader.Rank(s) >= 18 ==> Pre()[s] == 0
  {
  }

  lemma GoodOwnHeader()
    ensures DynamicHeader.GoodHeader(OwnHeader()) && HeaderOf(OwnHeader(), Own())
  {
    hide CompleteCode, PrecodeItems.Run, PrecodeItems.Runnable, Runs, DynamicHeader.Rank, PrecodeItems.ValidItem;
    PreCodes();
    RunsStand();
    RunsEncodable();
    LastRank();
  }

  /** The precode lengths, from the last one sent on. */
  function PreFields(n: nat, rest: Fields): Fields
    requires n <= 19
  {
    if n == 0 then rest else PreFields(n - 1, Field(Pre()[DynamicHeader.Permutation[n - 1]], 3, rest))
  }

  lemma {:induction false} PreFieldsAre(n: nat, rest: Fields)
    requires n <= 19
    ensures DynamicHeader.PreLensBits(Pre(), n) + Concat(rest) == Concat(PreFields(n, rest))
  {
    hide ToBits, Pre;
    if n > 0 {
      var v := ToBits(Pre()[DynamicHeader.Permutation[n - 1]], 3);
      PreFieldsAre(n - 1, Field(Pre()[DynamicHeader.Permutation[n - 1]], 3, rest));
      assert DynamicHeader.PreLensBits(Pre(), n - 1) + v + Concat(rest) == DynamicHeader.PreLensBits(Pre(), n - 1) + (v + Concat(rest));
    }
  }

  lemma ItemFirst(item: PrecodeItems.Item, items: seq<PrecodeItems.Item>, c: nat, f: Fields, after: Bits)
    requires PrecodeItems.ValidItem(item) && forall k :: 0 <= k < |items| ==> PrecodeItems.ValidItem(items[k])
    requires DynamicHeader.ItemsBits(Pre(), items) + after == Concat(f) && Code(Pre(), item.sym) == c
    ensures forall k :: 0 <= k < |[item] + items| ==> PrecodeItems.ValidItem(([item] + items)[k])
    ensures DynamicHeader.ItemsBits(Pre(), [item] + items) + after
      == Concat(Codeword(c, Pre()[item.sym], Field(item.extra, CodeLengths.ExtraBits(item.sym), f)))
  {
    hide ToBits, Pre, Code, Reversed, CodeBits;
    var all := [item] + items;
    assert all[0] == item && all[1..] == items;
    var x, c1, rest := ToBits(item.extra, CodeLengths.ExtraBits(item.sym)), CodeBits(Pre(), item.sym), DynamicHeader.ItemsBits(Pre(), items);
    assert c1 + x + rest + after == c1 + (x + (rest + after));
    CodewordIs(Pre(), item.sym, c, Field(item.extra, CodeLengths.ExtraBits(item.sym), f));
  }

  // ---- The stream ----------------------------------------------------------------------------

  function BodyFields(): Fields {
    Codeword(0, 2, Codeword(1, 2, Codeword(5, 3, Field(0, 0, Codeword(0, 1, Field(0, 0, Codeword(7, 3, Field(0, 0, Codeword(1, 1, Field(0, 1,
      Codeword(4, 3, NoMore)))))))))))
  }

  function ItemFields(): Fields {
    Codeword(2, 2, Field(86, 7, Codeword(1, 2, Field(0, 0, Codeword(1, 2, Field(0, 0, Codeword(2, 2, Field(127, 7, Codeword(2, 2, Field(8, 7,
      Codeword(6, 3, Field(0, 0, Codeword(14, 4, Field(0, 2, Codeword(0, 2, Field(0, 0, Codeword(15, 4, Field(0, 3, Codeword(0, 2, Field(0, 0,
      BodyFields()))))))))))))))))))))
  }

  function LensFields(): Fields {
    Field(4, 3, Field(4, 3, Field(2, 3, Field(0, 3, Field(0, 3, Field(0, 3, Field(0, 3, Field(0, 3, Field(0, 3, Field(0, 3, Field(0, 3,
      Field(0, 3, Field(0, 3, Field(3, 3, Field(0, 3, Field(2, 3, Field(0, 3, Field(2, 3, ItemFields()))))))))))))))))))
  }

  function OwnFields(): Fields {
    Field(1, 1, Field(2, 2, Field(3, 5, Field(4, 5, Field(14, 4, LensFields())))))
  }

  lemma BodyFieldsNumber()
    ensures Fit(BodyFields()) && Number(BodyFields()) == 12120 && Width(BodyFields()) == 16
  {
    hide Pow2, Reversed, Number, Width, Fit;
    FewPowers();
    Reversals();
    NoFields();
    NextField(1, 3, 8, NoMore);
    var f1 := Codeword(4, 3, NoMore);
    NextField(0, 1, 2, f1);
    var f2 := Field(0, 1, f1);
    NextField(1, 1, 2, f2);
    var f3 := Codeword(1, 1, f2);
    NextField(0, 0, 1, f3);
    var f4 := Field(0, 0, f3);
    NextField(7, 3, 8, f4);
    var f5 := Codeword(7, 3, f4);
    NextField(0, 0, 1, f5);
    var f6 := Field(0, 0, f5);
    NextField(0, 1, 2, f6);
    var f7 := Codeword(0, 1, f6);
    NextField(0, 0, 1, f7);
    var f8 := Field(0, 0, f7);
    NextField(5, 3, 8, f8);
    var f9 := Codeword(5, 3, f8);
    NextField(2, 2, 4, f9);
    var f10 := Codeword(1, 2, f9);
    NextField(0, 2, 4, f10);
  }

  lemma ItemFieldsNumber()
    ensures Fit(ItemFields()) && Number(ItemFields()) == 27291879839406994777 && Width(ItemFields()) == 67
  {
    hide Pow2, Reversed, Number, Width, Fit;
    FewPowers();
    Reversals();
    BodyFieldsNumber();
    NextField(0, 0, 1, BodyFields());
    var f1 := Field(0, 0, BodyFields());
    NextField(0, 2, 4, f1);
    var f2 := Codeword(0, 2, f1);
    NextField(0, 3, 8, f2);
    var f3 := Field(0, 3, f2);
    NextField(15, 4, 16, f3);
    var f4 := Codeword(15, 4, f3);
    NextField(0, 0, 1, f4);
    var f5 := Field(0, 0, f4);
    NextField(0, 2, 4, f5);
    var f6 := Codeword(0, 2, f5);
    NextField(0, 2, 4, f6);
    var f7 := Field(0, 2, f6);
    NextField(7, 4, 16, f7);
    var f8 := Codeword(14, 4, f7);
    NextField(0, 0, 1, f8);
    var f9 := Field(0, 0, f8);
    NextField(3, 3, 8, f9);
    var f10 := Codeword(6, 3, f9);
    NextField(8, 7, 128, f10);
    var f11 := Field(8, 7, f10);
    NextField(1, 2, 4, f11);
    var f12 := Codeword(2, 2, f11);
    NextField(127, 7, 128, f12);
    var f13 := Field(127, 7, f12);
    NextField(1, 2, 4, f13);
    var f14 := Codeword(2, 2, f13);
    NextField(0, 0, 1, f14);
    var f15 := Field(0, 0, f14);
    NextField(2, 2, 4, f15);
    var f16 := Codeword(1, 2, f15);
    NextField(0, 0, 1, f16);
    var f17 := Field(0, 0, f16);
    NextField(2, 2, 4, f17);
    var f18 := Codeword(1, 2, f17);
    NextField(86, 7, 128, f18);
    var f19 := Field(86, 7, f18);
    NextField(1, 2, 4, f19);
  }

  lemma LensFieldsNumber()
    ensures Fit(LensFields()) && Number(LensFields()) == 491646799499974775572051946102587556 && Width(LensFields()) == 121
  {
    hide Pow2, Reversed, Number, Width, Fit;
    FewPowers();
    Reversals();
    ItemFieldsNumber();
    NextField(2, 3, 8, ItemFields());
    var f1 := Field(2, 3, ItemFields());
    NextField(0, 3, 8, f1);
    var f2 := Field(0, 3, f1);
    NextField(2, 3, 8, f2);
    var f3 := Field(2, 3, f2);
    NextField(0, 3, 8, f3);
    var f4 := Field(0, 3, f3);
    NextField(3, 3, 8, f4);
    var f5 := Field(3, 3, f4);
    NextField(0, 3, 8, f5);
    var f6 := Field(0, 3, f5);
    NextField(0, 3, 8, f6);
    var f7 := Field(0, 3, f6);
    NextField(0, 3, 8, f7);
    var f8 := Field(0, 3, f7);
    NextField(0, 3, 8, f8);
    var f9 := Field(0, 3, f8);
    NextField(0, 3, 8, f9);
    var f10 := Field(0, 3, f9);
    NextField(0, 3, 8, f10);
    var f11 := Field(0, 3, f10);
    NextField(0, 3, 8, f11);
    var f12 := Field(0, 3, f11);
    NextField(0, 3, 8, f12);
    var f13 := Field(0, 3, f12);
    NextField(0, 3, 8, f13);
    var f14 := Field(0, 3, f13);
    NextField(0, 3, 8, f14);
    var f15 := Field(0, 3, f14);
    NextField(2, 3, 8, f15);
    var f16 := Field(2, 3, f15);
    NextField(4, 3, 8, f16);
    var f17 := Field(4, 3, f16);
    NextField(4, 3, 8, f17);
  }

  lemma OwnFieldsNumber()
    ensures Fit(OwnFields()) && Number(OwnFields()) == 64441129304060693783779992679558356255773 && Width(OwnFields()) == 138
  {
    hide Pow2, Reversed, Number, Width, Fit;
    FewPowers();
    Reversals();
    LensFieldsNumber();
    NextField(14, 4, 16, LensFields());
    var f1 := Field(14, 4, LensFields());
    NextField(4, 5, 32, f1);
    var f2 := Field(4, 5, f1);
    NextField(3, 5, 32, f2);
    var f3 := Field(3, 5, f2);
    NextField(2, 2, 4, f3);
    var f4 := Field(2, 2, f3);
    NextField(1, 1, 2, f4);
  }

  function OwnOctets(): Fields {
    Field(29, 8, Field(196, 8, Field(73, 8, Field(1, 8, Field(0, 8, Field(0, 8, Field(0, 8, Field(131, 8, Field(160, 8, Field(172, 8,
      Field(218, 8, Field(63, 8, Field(196, 8, Field(14, 8, Field(30, 8, Field(96, 8, Field(189, 8, Field(0, 8, NoMore))))))))))))))))))
  }

  lemma OwnOctetsNumber()
    ensures Fit(OwnOctets()) && Whole(OwnOctets()) && Number(OwnOctets()) == 64441129304060693783779992679558356255773 && Width(OwnOctets()) == 144
    ensures Octets(OwnOctets()) == [29, 196, 73, 1, 0, 0, 0, 131, 160, 172, 218, 63, 196, 14, 30, 96, 189, 0]
  {
    hide Number, Width, Fit, Whole, Octets;
    NoFields();
    NextOctet(0, NoMore);
    var o1 := Field(0, 8, NoMore);
    NextOctet(189, o1);
    var o2 := Field(189, 8, o1);
    NextOctet(96, o2);
    var o3 := Field(96, 8, o2);
    NextOctet(30, o3);
    var o4 := Field(30, 8, o3);
    NextOctet(14, o4);
    var o5 := Field(14, 8, o4);
    NextOctet(196, o5);
    var o6 := Field(196, 8, o5);
    NextOctet(63, o6);
    var o7 := Field(63, 8, o6);
    NextOctet(218, o7);
    var o8 := Field(218, 8, o7);
    NextOctet(172, o8);
    var o9 := Field(172, 8, o8);
    NextOctet(160, o9);
    var o10 := Field(160, 8, o9);
    NextOctet(131, o10);
    var o11 := Field(131, 8, o10);
    NextOctet(0, o11);
    var o12 := Field(0, 8, o11);
    NextOctet(0, o12);
    var o13 := Field(0, 8, o12);
    NextOctet(0, o13);
    var o14 := Field(0, 8, o13);
    NextOctet(1, o14);
    var o15 := Field(1, 8, o14);
    NextOctet(73, o15);
    var o16 := Field(73, 8, o15);
    NextOctet(196, o16);
    var o17 := Field(196, 8, o16);
    NextOctet(29, o17);
  }

  function OwnItems(): seq<Item> { [Literal(97), Literal(98), Match(3, 1), Match(5, 5)] }

  function OwnBlock(): Block { Dynamic(true, OwnHeader(), Own(), OwnItems()) }

  lemma SlotsOfBoth()
    ensures LengthSlot(3) == 0 && LengthSlot(5) == 2 && OffsetSlot(1) == 0 && OffsetSlot(5) == 4
    ensures |LengthBase| == |LengthExtra| == 29 && |OffsetBase| == |OffsetExtra| == 30
    ensures LengthBase[0] == 3 && LengthExtra[0] == 0 && LengthBase[2] == 5 && LengthExtra[2] == 0
    ensures OffsetBase[0] == 1 && OffsetExtra[0] == 0 && OffsetBase[4] == 5 && OffsetExtra[4] == 1
  {
    hide Pow2, SlotUpTo, Contiguous;
    SlotTables();
    OneSlot(LengthBase, LengthExtra, 3, 28, 0);
    OneSlot(LengthBase, LengthExtra, 5, 28, 2);
    OneSlot(OffsetBase, OffsetExtra, 1, 29, 0);
    OneSlot(OffsetBase, OffsetExtra, 5, 29, 4);
  }

  function TwoMatches(): seq<Item> { [Match(3, 1)] + ([Match(5, 5)] + []) }

  function SecondFields(): Fields { Codeword(7, 3, Field(0, 0, Codeword(1, 1, Field(0, 1, Codeword(4, 3, NoMore))))) }
  function MatchFields(): Fields { Codeword(5, 3, Field(0, 0, Codeword(0, 1, Field(0, 0, SecondFields())))) }

  lemma SecondIs()
    ensures ValidItems([Match(5, 5)] + [], 5) && BlockBits(Own(), [Match(5, 5)] + [], 5) == Concat(SecondFields())
  {
    hide Code, Reversed, Pow2, CodeBits, ToBits, MatchBits, ItemBits, LengthSlot, OffsetSlot, Litlen, Offset, ItemsBits, BlockBits, Concat, ValidItems;
    SlotsOfBoth();
    LitlenCodes();
    OffsetCodes();
    Lens();
    NoneValid();
    EndThen(Own(), 10, 4);
    MatchThen(Own(), 5, 5, [], 5, 2, 4, 7, 1, Codeword(4, 3, NoMore));
  }

  lemma NoneValid()
    ensures ValidItems([], 10)
  {
  }

  lemma MatchesAre()
    ensures ValidItems(TwoMatches(), 2) && BlockBits(Own(), TwoMatches(), 2) == Concat(MatchFields())
  {
    hide Code, Reversed, Pow2, CodeBits, ToBits, MatchBits, ItemBits, LengthSlot, OffsetSlot, Litlen, Offset, ItemsBits, BlockBits, Concat, ValidItems, SecondFields;
    SlotsOfBoth();
    LitlenCodes();
    OffsetCodes();
    Lens();
    SecondIs();
    MatchThen(Own(), 3, 1, [Match(5, 5)] + [], 2, 0, 0, 5, 0, SecondFields());
  }

  lemma LetterBIs()
    ensures ValidItems([Literal(98)] + TwoMatches(), 1) && BlockBits(Own(), [Literal(98)] + TwoMatches(), 1) == Concat(Codeword(1, 2, MatchFields()))
  {
    hide Code, Reversed, Pow2, CodeBits, ToBits, MatchBits, ItemBits, Litlen, Offset, ItemsBits, BlockBits, Concat, ValidItems, TwoMatches, MatchFields;
    LitlenCodes();
    Lens();
    MatchesAre();
    LiteralThen(Own(), 98, TwoMatches(), 1, 1, MatchFields());
  }

  lemma BodyIs()
    ensures ValidItems(OwnItems(), 0) && BlockBits(Own(), OwnItems(), 0) == Concat(BodyFields())
  {
    hide Code, Reversed, Pow2, CodeBits, ToBits, MatchBits, ItemBits, Litlen, Offset, ItemsBits, BlockBits, Concat, ValidItems;
    LitlenCodes();
    Lens();
    LetterBIs();
    LiteralThen(Own(), 97, [Literal(98)] + TwoMatches(), 0, 0, Codeword(1, 2, MatchFields()));
    assert [Literal(97)] + ([Literal(98)] + TwoMatches()) == OwnItems();
  }

  lemma Lens()
    ensures |Litlen()| == 288 && |Offset()| == 32 && Litlen()[97] == 2 && Litlen()[98] == 2 && Litlen()[256] == 3 && Litlen()[257] == 3 && Litlen()[259] == 3
    ensures Offset()[0] == 1 && Offset()[4] == 1
  {
  }

  function LaterFields(): Fields { Codeword(6, 3, Field(0, 0, Codeword(14, 4, Field(0, 2, Codeword(0, 2, Field(0, 0, Codeword(15, 4, Field(0, 3, Codeword(0, 2, Field(0, 0, BodyFields())))))))))) }

  lemma LaterItems(body: Bits)
    requires body == Concat(BodyFields())
    ensures (forall k :: 0 <= k < |Tail(5)| ==> PrecodeItems.ValidItem(Tail(5)[k])) && DynamicHeader.ItemsBits(Pre(), Tail(5)) + body == Concat(LaterFields())
  {
    hide Code, Reversed, Concat, BodyFields, DynamicHeader.ItemsBits;
    PreCodes();
    PreBound();
    assert DynamicHeader.ItemsBits(Pre(), []) + body == body by { NoItems(); }
    var f10 := BodyFields();
    ItemFirst(PrecodeItems.Item(1, 0), Tail(10), 0, f10, body);
    assert [PrecodeItems.Item(1, 0)] + Tail(10) == Tail(9);
    var f9 := Codeword(0, 2, Field(0, 0, f10));
    ItemFirst(PrecodeItems.Item(17, 0), Tail(9), 15, f9, body);
    assert [PrecodeItems.Item(17, 0)] + Tail(9) == Tail(8);
    var f8 := Codeword(15, 4, Field(0, 3, f9));
    ItemFirst(PrecodeItems.Item(1, 0), Tail(8), 0, f8, body);
    assert [PrecodeItems.Item(1, 0)] + Tail(8) == Tail(7);
    var f7 := Codeword(0, 2, Field(0, 0, f8));
    ItemFirst(PrecodeItems.Item(16, 0), Tail(7), 14, f7, body);
    assert [PrecodeItems.Item(16, 0)] + Tail(7) == Tail(6);
    var f6 := Codeword(14, 4, Field(0, 2, f7));
    ItemFirst(PrecodeItems.Item(3, 0), Tail(6), 6, f6, body);
    assert [PrecodeItems.Item(3, 0)] + Tail(6) == Tail(5);
  }

  lemma ItemsAre(body: Bits)
    requires body == Concat(BodyFields())
    ensures (forall k :: 0 <= k < |Runs()| ==> PrecodeItems.ValidItem(Runs()[k]))
    ensures DynamicHeader.ItemsBits(Pre(), Runs()) + body == Concat(ItemFields())
  {
    hide Code, Reversed, Concat, BodyFields, DynamicHeader.ItemsBits;
    PreCodes();
    PreBound();
    LaterItems(body);
    var f5 := LaterFields();
    ItemFirst(PrecodeItems.Item(18, 8), Tail(5), 2, f5, body);
    assert [PrecodeItems.Item(18, 8)] + Tail(5) == Tail(4);
    var f4 := Codeword(2, 2, Field(8, 7, f5));
    ItemFirst(PrecodeItems.Item(18, 127), Tail(4), 2, f4, body);
    assert [PrecodeItems.Item(18, 127)] + Tail(4) == Tail(3);
    var f3 := Codeword(2, 2, Field(127, 7, f4));
    ItemFirst(PrecodeItems.Item(2, 0), Tail(3), 1, f3, body);
    assert [PrecodeItems.Item(2, 0)] + Tail(3) == Tail(2);
    var f2 := Codeword(1, 2, Field(0, 0, f3));
    ItemFirst(PrecodeItems.Item(2, 0), Tail(2), 1, f2, body);
    assert [PrecodeItems.Item(2, 0)] + Tail(2) == Tail(1);
    var f1 := Codeword(1, 2, Field(0, 0, f2));
    ItemFirst(PrecodeItems.Item(18, 86), Tail(1), 2, f1, body);
    assert [PrecodeItems.Item(18, 86)] + Tail(1) == Tail(0);
    assert Tail(0) == Runs();
  }

  lemma NoItems()
    ensures DynamicHeader.ItemsBits(Pre(), []) == []
  {
  }

  function Tail(k: nat): seq<PrecodeItems.Item>
    requires k <= 10
  {
    Runs()[k..]
  }

  lemma PreStep(n: nat, v: nat, rest: Fields)
    requires 0 < n <= 19 && Pre()[DynamicHeader.Permutation[n - 1]] == v
    ensures PreFields(n, rest) == PreFields(n - 1, Field(v, 3, rest))
  {
  }

  lemma LensAre()
    ensures PreFields(18, ItemFields()) == LensFields()
  {
    hide ItemFields, PreFields, Pre;
    PreBound();
    PreZeroes();
    PreStep(18, 2, ItemFields());
    var f17 := Field(2, 3, ItemFields());
    PreStep(17, 0, f17);
    var f16 := Field(0, 3, f17);
    PreStep(16, 2, f16);
    var f15 := Field(2, 3, f16);
    PreStep(15, 0, f15);
    var f14 := Field(0, 3, f15);
    PreStep(14, 3, f14);
    var f13 := Field(3, 3, f14);
    PreStep(13, 0, f13);
    var f12 := Field(0, 3, f13);
    PreStep(12, 0, f12);
    var f11 := Field(0, 3, f12);
    PreStep(11, 0, f11);
    var f10 := Field(0, 3, f11);
    PreStep(10, 0, f10);
    var f9 := Field(0, 3, f10);
    PreStep(9, 0, f9);
    var f8 := Field(0, 3, f9);
    PreStep(8, 0, f8);
    var f7 := Field(0, 3, f8);
    PreStep(7, 0, f7);
    var f6 := Field(0, 3, f7);
    PreStep(6, 0, f6);
    var f5 := Field(0, 3, f6);
    PreStep(5, 0, f5);
    var f4 := Field(0, 3, f5);
    PreStep(4, 0, f4);
    var f3 := Field(0, 3, f4);
    PreStep(3, 2, f3);
    var f2 := Field(2, 3, f3);
    PreStep(2, 4, f2);
    var f1 := Field(4, 3, f2);
    PreStep(1, 4, f1);
    var f0 := Field(4, 3, f1);
    NoPreFields(f0);
  }

  lemma NoPreFields(rest: Fields)
    ensures PreFields(0, rest) == rest
  {
  }

  lemma PreZeroes()
    ensures forall s :: 4 <= s < 16 ==> Pre()[s] == 0
    ensures Pre()[0] == 0
  {
  }

  lemma GoodOwnBlock()
    ensures Good(OwnBlock(), 0)
  {
    hide HeaderOf, CompleteCode, Code, LengthSlot, OffsetSlot, Litlen, Offset, OwnHeader;
    GoodOwnHeader();
    LitlenCodes();
    OffsetCodes();
    SlotsOfBoth();
    Lens();
    var i := OwnItems();
    assert i[1..] == [Literal(98), Match(3, 1), Match(5, 5)] && i[1..][1..] == [Match(3, 1), Match(5, 5)] && i[1..][1..][1..] == [Match(5, 5)];
    assert i[1..][1..][1..][1..] == [];
  }

  lemma OwnBits()
    ensures Good(OwnBlock(), 0) && BitsOf(OwnBlock(), 0, 0) == Concat(OwnFields())
  {
    hide Good, ToBits, DynamicHeader.ItemsBits, BlockBits, DynamicHeader.PreLensBits, Pre, LensFields, ItemFields, BodyFields, PreFields, Runs, OwnItems;
    GoodOwnBlock();
    BodyIs();
    ItemsAre(BlockBits(Own(), OwnItems(), 0));
    PreFieldsAre(18, ItemFields());
    LensAre();
    var h, l, i, b := DynamicHeader.CountBits(OwnHeader()), DynamicHeader.PreLensBits(Pre(), 18), DynamicHeader.ItemsBits(Pre(), Runs()), BlockBits(Own(), OwnItems(), 0);
    assert h + l + i + b == h + (l + (i + b));
    CountFields(LensFields());
    StartFields(DynamicHeader.HeaderBits(OwnHeader()) + b);
  }

  lemma CountFields(f: Fields)
    ensures DynamicHeader.CountBits(OwnHeader()) + Concat(f) == Concat(Field(3, 5, Field(4, 5, Field(14, 4, f))))
  {
    hide ToBits;
    var a, b, c, r := ToBits(3, 5), ToBits(4, 5), ToBits(14, 4), Concat(f);
    assert a + b + c + r == a + (b + (c + r));
    assert Concat(Field(14, 4, f)) == c + r;
    assert Concat(Field(4, 5, Field(14, 4, f))) == b + (c + r);
  }

  lemma StartFields(rest: Bits)
    ensures StartBits(OwnBlock()) + rest == ToBits(1, 1) + (ToBits(2, 2) + rest)
  {
    hide ToBits;
  }

  /** abbbb twice. */
  const AbbbbTwice: seq<Byte> := [97, 98, 98, 98, 98, 97, 98, 98, 98, 98]

  lemma OwnOutput()
    ensures ValidItems(OwnItems(), 0) && Expand([], OwnItems()) == AbbbbTwice
  {
    hide MatchCopy.Extended;
    var i := OwnItems();
    assert i[1..] == [Literal(98), Match(3, 1), Match(5, 5)] && i[1..][1..] == [Match(3, 1), Match(5, 5)] && i[1..][1..][1..] == [Match(5, 5)];
    assert i[1..][1..][1..][1..] == [];
    assert Appended([], Literal(97)) == [97] && Appended([97], Literal(98)) == [97, 98];
    MatchCopy.RepeatsIsExtended(AbbbbTwice, 2, 3, 1);
    MatchCopy.RepeatsIsExtended(AbbbbTwice, 5, 5, 5);
    assert AbbbbTwice[..2] == [97, 98] && AbbbbTwice[..5] == [97, 98, 98, 98, 98] && AbbbbTwice[..10] == AbbbbTwice;
  }

  /** A block with codes of its own: two literals, a match of three bytes one back and one of five bytes five back. Its header
      has all three kinds of runs. */
  lemma OwnCodesStream()
    ensures IsStream([29, 196, 73, 1, 0, 0, 0, 131, 160, 172, 218, 63, 196, 14, 30, 96, 189, 0], AbbbbTwice)
  {
    hide Concat, Number, Fit, Whole, Width, Octets, Good, BitsOf, OwnFields, OwnOctets, Expand, OwnItems;
    OwnFieldsNumber();
    OwnOctetsNumber();
    OwnBits();
    OwnOutput();
    OneBlockStream(OwnBlock(), OwnFields(), OwnOctets(), AbbbbTwice);
  }
}
