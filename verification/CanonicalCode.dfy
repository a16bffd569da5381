/** Canonical Huffman codes, as RFC 1951 section 3.2.2 defines them from codeword lengths alone. */
module CanonicalCode {
  import opened Powers
  import opened WeightedSums
  import opened Shifts

  /** The first codeword of each length. */
  function First(lens: seq<nat>, len: nat): nat
    decreases len, 0
  {
    if len <= 1 then 0 else 2 * End(lens, len - 1)
  }

  /** One past the last codeword of each length; it exceeds 2^len when the lengths do not fit. */
  function End(lens: seq<nat>, len: nat): nat
    decreases len, 1
  {
    if len == 0 then 0 else First(lens, len) + Count(lens, len)
  }

  /** The codeword of symbol s: among those of its length, in order of symbol. */
  function Code(lens: seq<nat>, s: nat): nat
    requires s < |lens|
  {
    First(lens, lens[s]) + Count(lens[..s], lens[s])
  }

  /** The lengths leave no codespace over when codewords have at most max bits. */
  ghost predicate CompleteCode(lens: seq<nat>, max: nat) {
    Bounded(lens, max) && End(lens, max) == Pow2(max)
  }

  /** The lengths fit the codespace. */
  ghost predicate FittingCode(lens: seq<nat>, max: nat) {
    Bounded(lens, max) && End(lens, max) <= Pow2(max)
  }

  /** Among the first s symbols there are fewer of length len than altogether, if s has it too. */
  lemma CountPrefix(lens: seq<nat>, s: nat, len: nat)
    requires s < |lens|
    ensures Count(lens[..s + 1], len) == Count(lens[..s], len) + if lens[s] == len then 1 else 0
    ensures Count(lens[..s + 1], len) <= Count(lens, len)
  {
    assert lens[..s + 1] == lens[..s] + [lens[s]];
    CountAppend(lens[..s], [lens[s]], len);
    assert lens == lens[..s + 1] + lens[s + 1..];
    CountAppend(lens[..s + 1], lens[s + 1..], len);
  }

  lemma {:induction false} CountPrefixMonotone(lens: seq<nat>, s: nat, t: nat, len: nat)
    requires s <= t <= |lens|
    ensures Count(lens[..s], len) <= Count(lens[..t], len)
    decreases t
  {
    if s < t {
      CountPrefixMonotone(lens, s, t - 1, len);
      CountPrefix(lens, t - 1, len);
    }
  }

  lemma CodeInRange(lens: seq<nat>, s: nat)
    requires s < |lens| && lens[s] > 0
    ensures First(lens, lens[s]) <= Code(lens, s) < End(lens, lens[s])
  {
    CountPrefix(lens, s, lens[s]);
  }

  /** Longer codewords come after all shorter ones. */
  lemma {:induction false} EndsGrow(lens: seq<nat>, len: nat, more: nat)
    requires len >= 1
    ensures Shl(End(lens, len), more) <= End(lens, len + more)
    ensures more >= 1 ==> Shl(End(lens, len), more) <= First(lens, len + more)
  {
    if more > 0 {
      EndsGrow(lens, len, more - 1);
    }
  }

  lemma {:induction false} ShlPow2(a: nat, b: nat)
    ensures Shl(Pow2(a), b) == Pow2(a + b)
  {
    if b > 0 { ShlPow2(a, b - 1); }
  }

  /** If all codewords fit, those of each length do. */
  lemma EndFits(lens: seq<nat>, len: nat, max: nat)
    requires End(lens, max) <= Pow2(max) && len <= max
    ensures End(lens, len) <= Pow2(len)
  {
    if len > 0 {
      EndsGrow(lens, len, max - len);
      ShlPow2(len, max - len);
      ShlMono(Pow2(len), End(lens, len), max - len);
    }
  }

  /** In a fitting code every codeword of length len is below 2^len. */
  lemma CodeFits(lens: seq<nat>, s: nat, max: nat)
    requires FittingCode(lens, max) && s < |lens| && lens[s] > 0
    ensures Code(lens, s) < Pow2(lens[s])
  {
    CodeInRange(lens, s);
    EndFits(lens, lens[s], max);
  }

  /** Codewords of one length are distinct. */
  lemma SameLengthDiffer(lens: seq<nat>, s: nat, t: nat)
    requires s < t < |lens| && lens[s] == lens[t] > 0
    ensures Code(lens, s) < Code(lens, t)
  {
    CountPrefix(lens, s, lens[s]);
    CountPrefixMonotone(lens, s + 1, t, lens[s]);
  }

  /** A shorter codeword is below every longer one cut to its length. */
  lemma ShorterIsBelow(lens: seq<nat>, s: nat, t: nat)
    requires s < |lens| && t < |lens| && 0 < lens[s] < lens[t]
    ensures Code(lens, s) < Shr(Code(lens, t), lens[t] - lens[s])
  {
    var more := lens[t] - lens[s];
    CodeInRange(lens, s);
    CodeInRange(lens, t);
    EndsGrow(lens, lens[s], more);
    ShlMono(Code(lens, s) + 1, End(lens, lens[s]), more);
    ShrAtLeast(Code(lens, t), Code(lens, s) + 1, more);
  }

  /** No codeword starts another: cutting the longer to the length of the shorter tells them apart. */
  lemma PrefixFree(lens: seq<nat>, s: nat, t: nat)
    requires s < |lens| && t < |lens| && s != t && 0 < lens[s] <= lens[t]
    ensures Shr(Code(lens, t), lens[t] - lens[s]) != Code(lens, s)
  {
    if lens[s] == lens[t] {
      if s < t {
        SameLengthDiffer(lens, s, t);
      } else {
        SameLengthDiffer(lens, t, s);
      }
    } else {
      ShorterIsBelow(lens, s, t);
    }
  }

  /** The symbol of the given rank among those of a length. */
  lemma {:induction false} SymbolOfRank(lens: seq<nat>, n: nat, len: nat, rank: nat) returns (s: nat)
    requires n <= |lens| && rank < Count(lens[..n], len)
    ensures s < n && lens[s] == len && Count(lens[..s], len) == rank
  {
    if n == 0 {
      assert false;
    } else {
      CountPrefix(lens, n - 1, len);
      if rank < Count(lens[..n - 1], len) {
        s := SymbolOfRank(lens, n - 1, len, rank);
      } else {
        s := n - 1;
      }
    }
  }

  /** If x, a bit string of length max, cut to len bits lies below the end of the codewords of
      length len, some codeword of at most len bits starts it. */
  lemma {:induction false} CodewordBelow(lens: seq<nat>, x: nat, max: nat, len: nat) returns (s: nat)
    requires len <= max && Shr(x, max - len) < End(lens, len)
    ensures s < |lens| && 0 < lens[s] <= len && Shr(x, max - lens[s]) == Code(lens, s)
  {
    if len > 1 && Shr(x, max - (len - 1)) < End(lens, len - 1) {
      s := CodewordBelow(lens, x, max, len - 1);
    } else {
      if len > 1 {
        ShrStep(x, max - len);
      }
      assert lens[..|lens|] == lens;
      s := SymbolOfRank(lens, |lens|, len, Shr(x, max - len) - First(lens, len));
    }
  }

  /** In a complete code every bit string starts with a codeword. */
  lemma EveryStringDecodes(lens: seq<nat>, x: nat, max: nat) returns (s: nat)
    requires CompleteCode(lens, max) && x < Pow2(max)
    ensures s < |lens| && 0 < lens[s] <= max && Shr(x, max - lens[s]) == Code(lens, s)
  {
    s := CodewordBelow(lens, x, max, max);
  }
}
