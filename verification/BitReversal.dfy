/** Reading the low bits of a word in the order DEFLATE packs Huffman codewords: first bit lowest. */
module BitReversal {
  import opened Powers
  import opened Shifts

  /** The low len bits of x, the lowest bit read as the most significant. */
  function Reversed(x: nat, len: nat): nat {
    if len == 0 then 0 else 2 * Reversed(x, len - 1) + Bit(x, len - 1)
  }

  lemma {:induction false} ReversedBound(x: nat, len: nat)
    ensures Reversed(x, len) < Pow2(len)
  {
    if len > 0 { ReversedBound(x, len - 1); }
  }

  /** Reading more bits appends them below. */
  lemma {:induction false} ReversedSplit(x: nat, len: nat, more: nat)
    ensures Reversed(x, len + more) == Shl(Reversed(x, len), more) + Reversed(Shr(x, len), more)
  {
    if more > 0 {
      ReversedSplit(x, len, more - 1);
      ShrShr(x, len, more - 1);
    }
  }

  /** The first bits read are the top of everything read, the others its bottom. */
  lemma ReversedParts(x: nat, len: nat, more: nat)
    ensures Shr(Reversed(x, len + more), more) == Reversed(x, len)
    ensures Mask(Reversed(x, len + more), more) == Reversed(Shr(x, len), more)
  {
    ReversedSplit(x, len, more);
    ReversedBound(Shr(x, len), more);
    PartsUnique(Reversed(x, len + more), more, Reversed(x, len), Reversed(Shr(x, len), more));
  }

  lemma LowBitsOnly(x: nat, k: nat)
    requires x < Pow2(k)
    ensures Bit(x, k) == 0 && Mask(x, k) == x
  {
    BelowMask(x, k);
  }

  lemma TopBitSet(low: nat, k: nat)
    requires low < Pow2(k)
    ensures Bit(low + Pow2(k), k) == 1 && Mask(low + Pow2(k), k) == low
  {
    ShlOne(k);
    PartsUnique(low + Pow2(k), k, 1, low);
  }

  /** Bits above those read do not matter. */
  lemma {:induction false} ReversedMask(x: nat, len: nat, width: nat)
    requires len <= width
    ensures Reversed(Mask(x, width), len) == Reversed(x, len)
  {
    if len > 0 {
      ReversedMask(x, len - 1, width);
      ShrOfMask(x, len - 1, width - len + 1);
    }
  }

  /** What is read determines the bits. */
  lemma {:induction false} ReversedInjective(x: nat, y: nat, len: nat)
    ensures Mask(x, len) == Mask(y, len) <==> Reversed(x, len) == Reversed(y, len)
  {
    if len > 0 {
      hide Mask, Shl, Shr;
      ReversedInjective(x, y, len - 1);
      MaskStep(x, len - 1);
      MaskStep(y, len - 1);
      ShlOne(len - 1);
    }
  }

  /** Zero bits above x read as zeroes below. */
  lemma ReversedPad(x: nat, len: nat, more: nat)
    requires x < Pow2(len)
    ensures Reversed(x, len + more) == Shl(Reversed(x, len), more)
  {
    ReversedSplit(x, len, more);
    BelowMask(x, len);
    ReversedZero(more);
  }

  lemma {:induction false} ReversedZero(len: nat)
    ensures Reversed(0, len) == 0
  {
    if len > 0 {
      ReversedZero(len - 1);
      BelowMask(0, len - 1);
    }
  }

  /** The word whose low len bits read as one more than those of x: clear the ones at the top,
      set the zero below them. */
  ghost function Next(x: nat, len: nat): nat
    decreases len
  {
    if len == 0 then x
    else if Bit(x, len - 1) == 0 then Mask(x, len - 1) + Pow2(len - 1)
    else Next(Mask(x, len - 1), len - 1)
  }

  lemma {:induction false} NextReads(x: nat, len: nat)
    requires Reversed(x, len) + 1 < Pow2(len)
    ensures Next(x, len) < Pow2(len) && Reversed(Next(x, len), len) == Reversed(x, len) + 1
    decreases len
  {
    hide Mask, Shl, Shr;
    var low := Mask(x, len - 1);
    ReversedMask(x, len - 1, len - 1);
    if Bit(x, len - 1) == 0 {
      var y := low + Pow2(len - 1);
      TopBitSet(low, len - 1);
      ReversedMask(y, len - 1, len - 1);
    } else {
      NextReads(low, len - 1);
      LowBitsOnly(Next(low, len - 1), len - 1);
    }
  }

  /** Reading backwards twice gives the bits back. */
  lemma {:induction false} ReversedTwice(x: nat, len: nat)
    ensures Reversed(Reversed(x, len), len) == Mask(x, len)
  {
    if len > 0 {
      hide Mask, Shl;
      var y := Reversed(x, len);
      assert y / 2 == Reversed(x, len - 1) && y % 2 == Bit(x, len - 1);
      ReversedSplit(y, 1, len - 1);
      assert Reversed(y, 1) == y % 2 && Shr(y, 1) == y / 2;
      ReversedTwice(x, len - 1);
      MaskStep(x, len - 1);
    } else {
      assert Mask(x, 0) == 0;
    }
  }
}
