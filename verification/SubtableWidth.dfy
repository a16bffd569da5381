/** How wide a subtable must be: wide enough for every codeword with its prefix, and no wider. */
module SubtableWidth {
  import opened Powers
  import opened Shifts
  import opened WeightedSums
  import opened CanonicalCode
  import opened LengthOrder
  import opened DecodeTable

  lemma TopBound(lens: seq<nat>, max: nat, tableBits: nat, s: nat)
    requires FittingCode(lens, max) && s < |lens| && lens[s] > tableBits
    ensures Top(lens, tableBits, s) < Pow2(tableBits)
    ensures Shl(Top(lens, tableBits, s), lens[s] - tableBits) <= Code(lens, s) < Shl(Top(lens, tableBits, s) + 1, lens[s] - tableBits)
  {
    var more := lens[s] - tableBits;
    CodeFits(lens, s, max);
    ShlPow2(tableBits, more);
    ShrAtLeast(Code(lens, s), Top(lens, tableBits, s), more);
    ShrAtLeast(Code(lens, s), Top(lens, tableBits, s) + 1, more);
    ShrAtLeast(Code(lens, s), Pow2(tableBits), more);
  }

  /** Codewords come in the order of their prefixes. */
  lemma TopMonotone(lens: seq<nat>, tableBits: nat, s: nat, t: nat)
    requires s < |lens| && t < |lens| && lens[s] > tableBits && Done(lens, t, s)
    ensures Top(lens, tableBits, s) <= Top(lens, tableBits, t)
  {
    var a, b := lens[s] - tableBits, lens[t] - tableBits;
    if lens[s] == lens[t] {
      SameLengthDiffer(lens, s, t);
    } else {
      ShorterIsBelow(lens, s, t);
      ShrShr(Code(lens, t), b - a, a);
    }
    ShrMono(Code(lens, s), Shr(Code(lens, t), b - a), a);
    ShrShr(Code(lens, t), b - a, a);
  }

  lemma {:induction false} ShrMono(x: nat, y: nat, k: nat)
    requires x <= y
    ensures Shr(x, k) <= Shr(y, k)
  {
    if k > 0 { ShrMono(x / 2, y / 2, k - 1); }
  }

  /** Codewords of at most len bits, from symbol q on, fill the codespace from q's codeword to here. */
  ghost function Gap(lens: seq<nat>, q: nat, len: nat): int
    requires q < |lens| && lens[q] <= len
  {
    End(lens, len) - Shl(Code(lens, q), len - lens[q])
  }

  lemma GapStep(lens: seq<nat>, q: nat, len: nat)
    requires q < |lens| && 0 < lens[q] <= len
    ensures Gap(lens, q, len + 1) == 2 * Gap(lens, q, len) + Count(lens, len + 1)
  {
    assert First(lens, len + 1) == 2 * End(lens, len);
    assert Shl(Code(lens, q), len + 1 - lens[q]) == 2 * Shl(Code(lens, q), len - lens[q]);
  }

  /** The codewords of length at most len reach past the prefix top. */
  ghost predicate ReachesPast(lens: seq<nat>, tableBits: nat, top: nat, bits: nat) {
    End(lens, tableBits + bits) >= Shl(top + 1, bits)
  }

  lemma GapReaches(lens: seq<nat>, max: nat, tableBits: nat, q: nat, bits: nat)
    requires FittingCode(lens, max) && q < |lens| && tableBits < lens[q] <= tableBits + bits
    requires Mask(Code(lens, q), lens[q] - tableBits) == 0
    ensures Gap(lens, q, tableBits + bits) >= Pow2(bits) <==> ReachesPast(lens, tableBits, Top(lens, tableBits, q), bits)
  {
    var more, top := lens[q] - tableBits, Top(lens, tableBits, q);
    Parts(Code(lens, q), more);
    ShlShl(top, more, tableBits + bits - lens[q]);
    ShlSum(top, 1, bits);
    ShlOne(bits);
  }

  /** In a complete code the reach is found by the longest length at the latest. */
  lemma AllReachesPast(lens: seq<nat>, max: nat, tableBits: nat, q: nat)
    requires CompleteCode(lens, max) && q < |lens| && lens[q] > tableBits
    ensures ReachesPast(lens, tableBits, Top(lens, tableBits, q), max - tableBits)
  {
    TopBound(lens, max, tableBits, q);
    ShlPow2(tableBits, max - tableBits);
    ShlMono(Top(lens, tableBits, q) + 1, Pow2(tableBits), max - tableBits);
  }

  /** Once the reach is found, no codeword with the prefix is longer. */
  lemma NoLonger(lens: seq<nat>, tableBits: nat, top: nat, bits: nat, s: nat)
    requires ReachesPast(lens, tableBits, top, bits) && bits > 0
    requires s < |lens| && lens[s] > tableBits + bits
    ensures Top(lens, tableBits, s) > top
  {
    var d := lens[s] - (tableBits + bits);
    EndsGrow(lens, tableBits + bits, d);
    CodeInRange(lens, s);
    ShlMono(Shl(top + 1, bits), End(lens, tableBits + bits), d);
    ShlShl(top + 1, bits, d);
    ShrAtLeast(Code(lens, s), top + 1, lens[s] - tableBits);
  }

  /** Until the reach is found, some codeword with the prefix is longer. */
  lemma SomeLonger(lens: seq<nat>, max: nat, tableBits: nat, q: nat, bits: nat) returns (s: nat)
    requires CompleteCode(lens, max) && q < |lens| && tableBits < lens[q] <= tableBits + bits < max
    requires !ReachesPast(lens, tableBits, Top(lens, tableBits, q), bits)
    ensures s < |lens| && lens[s] > tableBits + bits && Top(lens, tableBits, s) == Top(lens, tableBits, q)
  {
    hide Shl, Shr, End, Code, Bounded, First, Pow2;
    var top, len := Top(lens, tableBits, q), tableBits + bits;
    var e := End(lens, len);
    TopBound(lens, max, tableBits, q);
    ShlPow2(tableBits, bits);
    ShlMono(top + 1, Pow2(tableBits), bits);
    ShlPow2(len, max - len);
    ShlMono(e, Pow2(len), max - len);
    var x := Shl(e, max - len);
    s := EveryStringDecodes(lens, x, max);
    ShrOfShl(e, max - len);
    if lens[s] <= len {
      ShrShr(x, max - len, len - lens[s]);
      CodeInRange(lens, s);
      EndsGrow(lens, lens[s], len - lens[s]);
      ShrAtLeast(e, End(lens, lens[s]), len - lens[s]);
      assert false;
    }
    ShrShr(x, max - lens[s], lens[s] - tableBits);
    ShrShr(x, max - len, bits);
    PrefixReached(lens, max, tableBits, q, bits);
    ShrAtLeast(e, top, bits);
    ShrAtLeast(e, top + 1, bits);
  }

  lemma PrefixReached(lens: seq<nat>, max: nat, tableBits: nat, q: nat, bits: nat)
    requires FittingCode(lens, max) && q < |lens| && tableBits < lens[q] <= tableBits + bits
    ensures Shl(Top(lens, tableBits, q), bits) <= End(lens, tableBits + bits)
  {
    var more := tableBits + bits - lens[q];
    TopBound(lens, max, tableBits, q);
    CodeInRange(lens, q);
    EndsGrow(lens, lens[q], more);
    ShlMono(Code(lens, q), End(lens, lens[q]), more);
    ShlMono(Shl(Top(lens, tableBits, q), lens[q] - tableBits), Code(lens, q), more);
    ShlShl(Top(lens, tableBits, q), lens[q] - tableBits, more);
  }

  /** The first width that reaches past the prefix is the subtable's. */
  lemma WidthExact(lens: seq<nat>, max: nat, tableBits: nat, q: nat, bits: nat)
    requires CompleteCode(lens, max) && q < |lens| && tableBits < lens[q] <= tableBits + bits <= max
    requires ReachesPast(lens, tableBits, Top(lens, tableBits, q), bits)
    requires lens[q] < tableBits + bits ==> !ReachesPast(lens, tableBits, Top(lens, tableBits, q), bits - 1)
    ensures SubtableBits(lens, tableBits, Top(lens, tableBits, q), |lens|) == bits
    ensures forall s :: 0 <= s < |lens| && lens[s] > tableBits && Top(lens, tableBits, s) == Top(lens, tableBits, q) ==>
      lens[s] - tableBits <= bits
  {
    var top := Top(lens, tableBits, q);
    forall s | 0 <= s < |lens| && lens[s] > tableBits && Top(lens, tableBits, s) == top
      ensures lens[s] - tableBits <= bits
    {
      if lens[s] > tableBits + bits {
        NoLonger(lens, tableBits, top, bits, s);
      }
    }
    var s := q;
    if lens[q] < tableBits + bits {
      s := SomeLonger(lens, max, tableBits, q, bits - 1);
    }
    SubtableBitsAtLeast(lens, tableBits, top, |lens|, s);
    var r := SubtableBitsReached(lens, tableBits, top, |lens|);
  }

  /** Widens the subtable that starts at symbol sym until its codewords fill it. */
  method WidthFrom(counts: array<nat>, tableBits: nat, len: nat, ghost lens: seq<nat>, ghost sorted: seq<nat>, ghost k: nat, ghost sym: nat)
    returns (bits: nat)
    requires counts.Length >= 1 && CompleteCode(lens, counts.Length - 1) && Standing(lens, sorted, counts[..], k, len, sym)
    requires len > tableBits && Mask(Code(lens, sym), len - tableBits) == 0
    ensures len <= tableBits + bits < counts.Length
    ensures SubtableBits(lens, tableBits, Top(lens, tableBits, sym), |lens|) == bits
    ensures forall s :: 0 <= s < |lens| && lens[s] > tableBits && Top(lens, tableBits, s) == Top(lens, tableBits, sym) ==>
      lens[s] - tableBits <= bits
  {
    ghost var max := counts.Length - 1;
    ghost var top := Top(lens, tableBits, sym);
    bits := len - tableBits;
    var remainder: int := Pow2(bits);
    AllReachesPast(lens, max, tableBits, sym);
    while true
      invariant len <= tableBits + bits <= max
      invariant remainder - counts[tableBits + bits] == Pow2(bits) - Gap(lens, sym, tableBits + bits)
      invariant len < tableBits + bits ==> !ReachesPast(lens, tableBits, top, bits - 1)
      decreases max - bits
    {
      GapReaches(lens, max, tableBits, sym, bits);
      remainder := remainder - counts[tableBits + bits];
      if remainder <= 0 { break; }
      GapStep(lens, sym, tableBits + bits);
      bits := bits + 1;
      remainder := remainder * 2;
    }
    WidthExact(lens, max, tableBits, sym, bits);
  }
}
