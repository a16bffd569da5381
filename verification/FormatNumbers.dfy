/** The numbers of the format (RFC 1951 sections 3.2.3 to 3.2.7), told by their rules. */
module FormatNumbers {
  import opened Powers
  import opened BitFields
  import opened CanonicalCode
  import opened DeflateSymbols
  import opened DeflateStream
  import DynamicHeader
  import PrecodeItems
  import CodeLengths
  import WeightedSums

  // ---- Lengths and offsets -------------------------------------------------------------------

  /** Eight slots of one length each, then four slots for each number of extra bits from one to five; the last slot is the
      greatest length alone. */
  lemma LengthSlots(s: nat)
    requires s < 29
    ensures |LengthBase| == |LengthExtra| == 29
    ensures s < 8 ==> LengthExtra[s] == 0 && LengthBase[s] == 3 + s
    ensures 8 <= s < 28 ==> LengthExtra[s] == (s - 4) / 4 && LengthBase[s] == 3 + (4 + s % 4) * Pow2((s - 4) / 4)
    ensures s == 28 ==> LengthExtra[s] == 0 && LengthBase[s] == 258
  {
    hide Pow2;
    SmallPowers();
  }

  /** Two slots of one offset each, then two slots for each number of extra bits from none to thirteen. */
  lemma OffsetSlots(s: nat)
    requires s < 30
    ensures |OffsetBase| == |OffsetExtra| == 30
    ensures s < 2 ==> OffsetExtra[s] == 0 && OffsetBase[s] == 1 + s
    ensures s >= 2 ==> OffsetExtra[s] == (s - 2) / 2 && OffsetBase[s] == 1 + (2 + s % 2) * Pow2((s - 2) / 2)
  {
    hide Pow2;
    SmallPowers();
  }

  // ---- Code lengths --------------------------------------------------------------------------

  /** Precode lengths come in this order: the three runs, 0, and then from the middle outwards, the greater first. */
  lemma PermutationIs(i: nat)
    requires i < 19
    ensures |DynamicHeader.Permutation| == 19
    ensures DynamicHeader.Permutation[i] ==
      if i < 3 then 16 + i else if i == 3 then 0 else if i % 2 == 0 then 8 + (i - 4) / 2 else 8 - (i - 3) / 2
  {
  }

  /** How many lengths each symbol stands for: three to six of the one before, three to ten zeroes, 11 to 138 zeroes. */
  lemma RunLengths(item: PrecodeItems.Item)
    requires PrecodeItems.ValidItem(item)
    ensures item.extra < Pow2(CodeLengths.ExtraBits(item.sym))
    ensures CodeLengths.ExtraBits(item.sym) == if item.sym == 16 then 2 else if item.sym == 17 then 3 else if item.sym == 18 then 7 else 0
    ensures PrecodeItems.Count(item) == if item.sym == 16 || item.sym == 17 then 3 + item.extra else if item.sym == 18 then 11 + item.extra else 1
  {
    DynamicHeader.ExtraFits(item);
  }

  // ---- The static codes ----------------------------------------------------------------------

  lemma {:induction false} CountEqual(lens: seq<nat>, v: nat, len: nat)
    requires forall s :: 0 <= s < |lens| ==> lens[s] == v
    ensures WeightedSums.Count(lens, len) == if len == v then |lens| else 0
  {
    if lens != [] { CountEqual(lens[1..], v, len); }
  }

  function Upto(n: nat, limit: nat): nat { if n < limit then n else limit }

  /** How many of the first s static lengths are len. */
  lemma StaticPrefix(s: nat, len: nat)
    requires s <= 288
    ensures WeightedSums.Count(StaticCodes().litlen[..s], len) ==
      (if len == 8 then Upto(s, 144) + (if s > 280 then s - 280 else 0) else 0)
      + (if len == 9 && s > 144 then Upto(s, 256) - 144 else 0) + (if len == 7 && s > 256 then Upto(s, 280) - 256 else 0)
  {
    hide WeightedSums.Count;
    var a, b, c, d := Upto(s, 144), if s > 144 then Upto(s, 256) - 144 else 0, if s > 256 then Upto(s, 280) - 256 else 0, if s > 280 then s - 280 else 0;
    var w, x, y, z := seq(a, i => 8), seq(b, i => 9), seq(c, i => 7), seq(d, i => 8);
    assert StaticCodes().litlen[..s] == w + (x + (y + z));
    WeightedSums.CountAppend(w, x + (y + z), len);
    WeightedSums.CountAppend(x, y + z, len);
    WeightedSums.CountAppend(y, z, len);
    CountEqual(w, 8, len);
    CountEqual(x, 9, len);
    CountEqual(y, 7, len);
    CountEqual(z, 8, len);
  }

  lemma StaticCount(len: nat)
    ensures WeightedSums.Count(StaticCodes().litlen, len) == if len == 7 then 24 else if len == 8 then 152 else if len == 9 then 112 else 0
  {
    hide WeightedSums.Count;
    StaticPrefix(288, len);
    assert StaticCodes().litlen[..288] == StaticCodes().litlen;
  }

  /** The codewords of the static literal/length code, as the format tabulates them. */
  lemma StaticCodewords(s: nat)
    requires s < 288
    ensures Code(StaticCodes().litlen, s) ==
      if s < 144 then 0x30 + s else if s < 256 then 0x190 + (s - 144) else if s < 280 then s - 256 else 0xC0 + (s - 280)
  {
    hide WeightedSums.Count, StaticCodes;
    var l := StaticCodes().litlen;
    forall len ensures WeightedSums.Count(l, len) == if len == 7 then 24 else if len == 8 then 152 else if len == 9 then 112 else 0 { StaticCount(len); }
    assert End(l, 1) == 0 && End(l, 2) == 0 && End(l, 3) == 0 && End(l, 4) == 0 && End(l, 5) == 0 && End(l, 6) == 0;
    assert First(l, 7) == 0 && First(l, 8) == 48 && First(l, 9) == 400;
    StaticPrefix(s, l[s]);
  }

  /** Static offset codewords are the symbols, in five bits. */
  lemma StaticOffsets(s: nat)
    requires s < 32
    ensures Code(StaticCodes().offset, s) == s && StaticCodes().offset[s] == 5
  {
    hide WeightedSums.Count, StaticCodes;
    var l := StaticCodes().offset;
    forall len ensures WeightedSums.Count(l, len) == if len == 5 then 32 else 0 { CountEqual(l, 5, len); }
    CountEqual(l[..s], 5, 5);
    assert End(l, 1) == 0 && End(l, 2) == 0 && End(l, 3) == 0 && End(l, 4) == 0 && First(l, 5) == 0;
  }

  // ---- Block types ---------------------------------------------------------------------------

  /** A block starts with the flag of the last one and then, the lower bit first, 0 when it is stored, 1 with the static codes
      and 2 with codes of its own. */
  lemma BlockTypes(b: Block, pos: nat, before: nat)
    requires Good(b, before)
    ensures BitsOf(b, pos, before)[..3] == [b.last] + (if b.Stored? then [false, false] else if b.Fixed? then [true, false] else [false, true])
  {
    hide Good, Rest;
    assert ToBits(0, 2) == [false, false] && ToBits(1, 2) == [true, false] && ToBits(2, 2) == [false, true];
    assert ToBits(One(b.last), 1) == [b.last];
    assert BitsOf(b, pos, before)[..3] == StartBits(b);
  }
}
