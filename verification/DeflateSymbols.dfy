/** The symbols of DEFLATE's literal/length and offset alphabets, and the items they stand for. */
module DeflateSymbols {
  import opened Powers

  const MIN_MATCH_LEN: nat := 3
  const MAX_MATCH_LEN: nat := 258
  const MAX_MATCH_OFFSET: nat := 32768
  const NUM_LITLEN_SYMS: nat := 288
  const NUM_OFFSET_SYMS: nat := 32
  const END_OF_BLOCK: nat := 256

  /** Base value and number of extra bits of each length slot and offset slot. */
  const LengthBase: seq<nat> :=
    [3, 4, 5, 6, 7, 8, 9, 10, 11, 13, 15, 17, 19, 23, 27, 31, 35, 43, 51, 59, 67, 83, 99, 115, 131, 163, 195, 227, 258]
  const LengthExtra: seq<nat> :=
    [0, 0, 0, 0, 0, 0, 0, 0, 1, 1, 1, 1, 2, 2, 2, 2, 3, 3, 3, 3, 4, 4, 4, 4, 5, 5, 5, 5, 0]
  const OffsetBase: seq<nat> :=
    [1, 2, 3, 4, 5, 7, 9, 13, 17, 25, 33, 49, 65, 97, 129, 193, 257, 385, 513, 769, 1025, 1537, 2049, 3073,
     4097, 6145, 8193, 12289, 16385, 24577]
  const OffsetExtra: seq<nat> :=
    [0, 0, 0, 0, 1, 1, 2, 2, 3, 3, 4, 4, 5, 5, 6, 6, 7, 7, 8, 8, 9, 9, 10, 10, 11, 11, 12, 12, 13, 13]

  /** Each slot reaches the next one's base. */
  ghost predicate Contiguous(base: seq<nat>, extra: seq<nat>) {
    |base| == |extra| && forall s :: 0 <= s < |base| - 1 ==> base[s] < base[s + 1] <= base[s] + Pow2(extra[s])
  }

  lemma SlotTables()
    ensures |LengthBase| == |LengthExtra| == 29 && Contiguous(LengthBase, LengthExtra)
    ensures |OffsetBase| == |OffsetExtra| == 30 && Contiguous(OffsetBase, OffsetExtra)
  {
    LengthTables();
    OffsetTables();
  }

  lemma LengthTables()
    ensures |LengthBase| == |LengthExtra| == 29 && Contiguous(LengthBase, LengthExtra)
  {
    hide Pow2;
    SmallPowers();
  }

  lemma OffsetTables()
    ensures |OffsetBase| == |OffsetExtra| == 30 && Contiguous(OffsetBase, OffsetExtra)
  {
    hide Pow2;
    SmallPowers();
  }

  lemma SmallPowers()
    ensures Pow2(0) == 1 && Pow2(1) == 2 && Pow2(2) == 4 && Pow2(3) == 8 && Pow2(4) == 16 && Pow2(5) == 32 && Pow2(6) == 64
    ensures Pow2(7) == 128 && Pow2(8) == 256 && Pow2(9) == 512 && Pow2(10) == 1024 && Pow2(11) == 2048 && Pow2(12) == 4096
    ensures Pow2(13) == 8192
  {
    Pow2Values();
    assert Pow2(5) == 2 * Pow2(4) && Pow2(6) == 2 * Pow2(5) && Pow2(7) == 2 * Pow2(6);
    assert Pow2(9) == 2 * Pow2(8) && Pow2(10) == 2 * Pow2(9) && Pow2(11) == 2 * Pow2(10) && Pow2(13) == 2 * Pow2(12);
  }

  /** The last of the slots up to s whose base does not exceed v. */
  function SlotUpTo(base: seq<nat>, v: nat, s: nat): (r: nat)
    requires s < |base| && base[0] <= v
    ensures r <= s && base[r] <= v && (r < s ==> v < base[r + 1])
  {
    if base[s] <= v then s else SlotUpTo(base, v, s - 1)
  }

  function LengthSlot(length: nat): (r: nat)
    requires MIN_MATCH_LEN <= length <= MAX_MATCH_LEN
    ensures r < 29
  {
    SlotTables();
    SlotUpTo(LengthBase, length, 28)
  }

  function OffsetSlot(offset: nat): (r: nat)
    requires 1 <= offset <= MAX_MATCH_OFFSET
    ensures r < 30
  {
    SlotTables();
    SlotUpTo(OffsetBase, offset, 29)
  }

  /** What is left above the slot's base fits its extra bits. */
  lemma LengthFits(length: nat)
    requires MIN_MATCH_LEN <= length <= MAX_MATCH_LEN
    ensures |LengthBase| == |LengthExtra| == 29
    ensures LengthBase[LengthSlot(length)] <= length < LengthBase[LengthSlot(length)] + Pow2(LengthExtra[LengthSlot(length)])
    ensures LengthExtra[LengthSlot(length)] <= 5 && 3 <= LengthBase[LengthSlot(length)] <= 258
  {
    hide Pow2;
    SmallPowers();
    SlotTables();
  }

  lemma OffsetFits(offset: nat)
    requires 1 <= offset <= MAX_MATCH_OFFSET
    ensures |OffsetBase| == |OffsetExtra| == 30
    ensures OffsetBase[OffsetSlot(offset)] <= offset < OffsetBase[OffsetSlot(offset)] + Pow2(OffsetExtra[OffsetSlot(offset)])
    ensures OffsetExtra[OffsetSlot(offset)] <= 13 && 1 <= OffsetBase[OffsetSlot(offset)] < 0x1_0000
  {
    hide Pow2;
    SmallPowers();
    SlotTables();
  }

  // ---- Decode results ----------------------------------------------------------------------

  /** Set in the results of literals. */
  const LITERAL: nat := 0x40_0000

  /** For a literal its value; otherwise the length base and the number of extra bits. The end of the block has
      length 0; the three symbols the format does not use stand for the greatest length. */
  function LitlenResult(s: nat): (r: nat)
    requires s < NUM_LITLEN_SYMS
    ensures r < 0x80_0000
  {
    SlotTables();
    if s < END_OF_BLOCK then LITERAL + s
    else if s == END_OF_BLOCK then 0
    else if s < END_OF_BLOCK + 1 + 28 then
      assert LengthBase[s - END_OF_BLOCK - 1] <= 258 && LengthExtra[s - END_OF_BLOCK - 1] <= 5;
      256 * LengthBase[s - END_OF_BLOCK - 1] + LengthExtra[s - END_OF_BLOCK - 1]
    else 256 * 258
  }

  /** The offset base and the number of extra bits; the two symbols the format does not use have a base too. */
  function OffsetResult(s: nat): (r: nat)
    requires s < NUM_OFFSET_SYMS
    ensures r < 0x80_0000
  {
    SlotTables();
    if s < 30 then
      assert OffsetBase[s] < 0x1_0000 && OffsetExtra[s] <= 13;
      OffsetBase[s] + 0x1_0000 * OffsetExtra[s]
    else if s == 30 then 32769 + 0x1_0000 * 14
    else 49153 + 0x1_0000 * 14
  }

  function LitlenResults(): (r: seq<nat>)
    ensures |r| == NUM_LITLEN_SYMS && forall s :: 0 <= s < NUM_LITLEN_SYMS ==> r[s] == LitlenResult(s)
  {
    seq(NUM_LITLEN_SYMS, s requires 0 <= s < NUM_LITLEN_SYMS => LitlenResult(s))
  }

  function OffsetResults(): (r: seq<nat>)
    ensures |r| == NUM_OFFSET_SYMS && forall s :: 0 <= s < NUM_OFFSET_SYMS ==> r[s] == OffsetResult(s)
  {
    seq(NUM_OFFSET_SYMS, s requires 0 <= s < NUM_OFFSET_SYMS => OffsetResult(s))
  }

  /** Any length symbol stands for a length of at least three with at most five extra bits. */
  lemma LengthSymbol(s: nat)
    requires s < NUM_LITLEN_SYMS && LitlenResult(s) < LITERAL
    ensures LitlenResult(s) % 256 <= 5 && (LitlenResult(s) / 256 == 0 || LitlenResult(s) / 256 >= 3)
    ensures LitlenResult(s) / 256 == 0 ==> LitlenResult(s) == 0
  {
    SlotTables();
    if END_OF_BLOCK < s < END_OF_BLOCK + 29 {
      assert LengthBase[s - END_OF_BLOCK - 1] >= 3 && LengthExtra[s - END_OF_BLOCK - 1] <= 5;
    }
  }

  lemma OffsetSymbol(s: nat)
    requires s < NUM_OFFSET_SYMS
    ensures OffsetResult(s) % 0x1_0000 >= 1 && OffsetResult(s) / 0x1_0000 <= 14
  {
    hide Pow2, Contiguous;
    SlotTables();
    if s < 30 { assert 1 <= OffsetBase[s] < 0x1_0000 && OffsetExtra[s] <= 13; }
  }
}
