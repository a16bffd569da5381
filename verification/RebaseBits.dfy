/** Moving a 16-bit signed position back by 32768 with saturation, by bit operations and without branching. */
module RebaseBits {

  function Rebase(v: bv16): bv16 {
    var sign := v & 0x8000;
    (v & (sign - ((sign >> 15) ^ 1))) | 0x8000
  }

  /** The two's complement reading of a pattern. */
  function Signed(v: bv16): int { if v < 0x8000 then v as int else v as int - 0x1_0000 }

  /** What the operation is for: the position relative to a base 32768 further on, or the oldest one. */
  function Rebased(v: int): int { if v >= 0 then v - 0x8000 else -0x8000 }

  lemma Low(v: bv16)
    requires v < 0x8000
    ensures v & 0x8000 == 0 && v | 0x8000 == v + 0x8000 && v & 0xFFFF == v
  {
  }

  lemma High(v: bv16)
    requires v >= 0x8000
    ensures v & 0x8000 == 0x8000
  {
  }

  lemma Pattern(v: bv16)
    ensures Rebase(v) == if v < 0x8000 then v + 0x8000 else 0x8000
  {
    var sign := v & 0x8000;
    if v < 0x8000 {
      Low(v);
      assert sign == 0 && (sign >> 15) ^ 1 == 1 && sign - 1 == 0xFFFF;
    } else {
      High(v);
      assert sign == 0x8000 && (sign >> 15) ^ 1 == 0;
    }
  }

  lemma SignBitAdds(v: bv16)
    requires v < 0x8000
    ensures (v + 0x8000) as int == v as int + 0x8000
  {
  }

  /** A position in the current window moves back by its size; an older one becomes the oldest value. */
  lemma RebaseSaturates(v: bv16)
    ensures Signed(Rebase(v)) == Rebased(Signed(v))
  {
    Pattern(v);
    if v < 0x8000 { SignBitAdds(v); }
  }
}
