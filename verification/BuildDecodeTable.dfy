/** build_decode_table: checks the codeword lengths and fills the main table and its subtables. */
module BuildDecodeTable {
  import opened Powers
  import opened Shifts
  import opened WeightedSums
  import opened BitReversal
  import opened CanonicalCode
  import opened LengthOrder
  import opened DecodeTable
  import opened SubtableWidth
  import opened TableFilling

  /** Stores value at every index of the (sub)table whose low step bits are offset. */
  method FillStride(table: array<nat>, start: nat, width: nat, step: nat, offset: nat, value: nat)
    requires start + Pow2(width) <= table.Length && step <= width && offset < Pow2(step)
    modifies table
    ensures Strided(old(table[..]), table[..], start, width, step, Reversed(offset, step), value)
  {
    hide Shl, Shr, Mask, Reversed;
    ghost var before := table[..];
    ghost var j := 0;
    var i := start + offset;
    Pow2Mono(step, width);
    ShlOne(step);
    while true
      invariant i == start + offset + Shl(j, step) < start + Pow2(width)
      invariant table.Length == |before|
      invariant forall k :: 0 <= k < table.Length && !(start <= k < start + Pow2(width)) ==> table[k] == before[k]
      invariant forall y :: 0 <= y < Pow2(width) ==>
        table[start + y] == if Mask(y, step) == offset && Shr(y, step) < j then value else before[start + y]
      decreases start + Pow2(width) - i
    {
      StrideIndex(step, offset, j);
      table[i] := value;
      ShlSum(j, 1, step);
      ShlOne(step);
      i := i + Pow2(step);
      j := j + 1;
      if i >= start + Pow2(width) { break; }
    }
    forall y | 0 <= y < Pow2(width)
      ensures table[start + y] == if Reversed(y, step) == Reversed(offset, step) then value else before[start + y]
    {
      StrideReaches(step, offset, j, y, width);
    }
  }

  /** The j-th index with the offset in its low bits. */
  lemma StrideIndex(step: nat, offset: nat, j: nat)
    requires offset < Pow2(step)
    ensures forall y :: Mask(y, step) == offset && Shr(y, step) == j <==> y == offset + Shl(j, step)
  {
    PartsUnique(offset + Shl(j, step), step, j, offset);
    forall y | Mask(y, step) == offset && Shr(y, step) == j
      ensures y == offset + Shl(j, step)
    {
      Parts(y, step);
    }
  }

  lemma StrideReaches(step: nat, offset: nat, j: nat, y: nat, width: nat)
    requires offset < Pow2(step) && y < Pow2(width) <= offset + Shl(j, step)
    ensures Mask(y, step) == offset <==> Reversed(y, step) == Reversed(offset, step)
    ensures Mask(y, step) == offset ==> Shr(y, step) < j
  {
    ReversedInjective(y, offset, step);
    BelowMask(offset, step);
    Parts(y, step);
    ShlMono(j, Shr(y, step), step);
  }

  lemma MaskedBit(x: nat, k: nat)
    requires k > 0
    ensures Bit(Mask(x, k), k - 1) == Bit(x, k - 1)
  {
    ShrOfMask(x, k - 1, 1);
    var y := Shr(x, k - 1);
    assert Mask(y, 1) == y % 2 + 2 * Mask(y / 2, 0) == y % 2;
  }

  /** Looking at one bit of a codeword not all ones from there down. */
  lemma NextStep(x: nat, k: nat)
    requires k > 0
    ensures Bit(x, k - 1) == 1 ==> Next(Mask(x, k), k) == Next(Mask(x, k - 1), k - 1)
    ensures Bit(x, k - 1) == 0 ==> Next(Mask(x, k), k) == Mask(x, k - 1) + Pow2(k - 1)
    ensures Bit(x, k - 1) == 1 && Reversed(x, k) + 1 < Pow2(k) ==> Reversed(x, k - 1) + 1 < Pow2(k - 1)
  {
    MaskedBit(x, k);
    MaskOfMask(x, k - 1, k);
  }

  /** Adds one to a bit-reversed codeword; an all-ones codeword stays. */
  method NextCodeword(codeword: nat, len: nat) returns (next: nat)
    requires len > 0 && codeword < Pow2(len)
    ensures if Reversed(codeword, len) + 1 < Pow2(len) then next == Next(codeword, len) else next == codeword
  {
    hide Mask, Shr, Bit, Next;
    var bit := len;  // one past the bit being looked at
    BelowMask(codeword, len);
    ghost var isLast := Reversed(codeword, len) + 1 >= Pow2(len);
    if isLast { AllOnes(codeword, len); }
    while bit > 0 && Bit(codeword, bit - 1) == 1
      invariant bit <= len
      invariant Next(codeword, len) == Next(Mask(codeword, bit), bit)
      invariant if isLast then OnesBelow(codeword, bit) else Reversed(codeword, bit) + 1 < Pow2(bit)
    {
      NextStep(codeword, bit);
      bit := bit - 1;
    }
    if bit == 0 {
      next := codeword;
    } else {
      NextStep(codeword, bit);
      next := Mask(codeword, bit - 1) + Pow2(bit - 1);
    }
  }

  ghost predicate OnesBelow(x: nat, k: nat) {
    forall i :: 0 <= i < k ==> Bit(x, i) == 1
  }

  lemma {:induction false} AllOnes(x: nat, len: nat)
    requires Reversed(x, len) + 1 >= Pow2(len)
    ensures OnesBelow(x, len)
  {
    if len > 0 {
      ReversedBound(x, len - 1);
      AllOnes(x, len - 1);
    }
  }

  /** What is known before symbol q is entered, its bit-reversed codeword being codeword. */
  ghost predicate Before(table: seq<nat>, lens: seq<nat>, results: seq<nat>, tableBits: nat, c: Current, q: nat, codeword: nat)
    requires q < |lens| == |results|
  {
    && CurrentOk(table, lens, tableBits, c) && PrefixesUpTo(lens, tableBits, c, q)
    && AllEntered(table, lens, results, tableBits, c, q) && Aligned(lens, tableBits, c, q)
    && codeword < Pow2(lens[q]) && Reversed(codeword, lens[q]) == Code(lens, q)
  }

  /** What is known once it has been entered. */
  ghost predicate After(table: seq<nat>, lens: seq<nat>, results: seq<nat>, tableBits: nat, c: Current, q: nat)
    requires q < |lens| == |results| && lens[q] > 0
  {
    && CurrentOk(table, lens, tableBits, c) && PrefixesUpTo(lens, tableBits, c, q)
    && AllEntered(table, lens, results, tableBits, c, q) && Entered(table, lens, results, tableBits, c, q)
    && (if lens[q] > tableBits then c.prefix >= 0 && Top(lens, tableBits, q) == CurrentTop(c, tableBits) else c.prefix < 0)
  }

  /** The table covers what the code needs, and its positions fit the pointer entries. */
  ghost predicate Roomy(size: nat, lens: seq<nat>, tableBits: nat, max: nat) {
    TableSize(lens, tableBits) <= size && TableSize(lens, tableBits) <= 0x1_0000 && max < 256
  }

  /** Entries past the size the code needs keep their old contents. */
  ghost predicate KeepsBeyond(before: seq<nat>, after: seq<nat>, size: nat) {
    |before| == |after| && forall i :: size <= i < |before| ==> after[i] == before[i]
  }

  /** The low bits of a bit-reversed codeword read as its prefix, the rest as its bottom. */
  lemma SplitCodeword(lens: seq<nat>, tableBits: nat, q: nat, codeword: nat)
    requires q < |lens| && lens[q] > tableBits && codeword < Pow2(lens[q]) && Reversed(codeword, lens[q]) == Code(lens, q)
    ensures Reversed(Mask(codeword, tableBits), tableBits) == Top(lens, tableBits, q)
    ensures Reversed(Shr(codeword, tableBits), lens[q] - tableBits) == Bottom(lens, tableBits, q)
    ensures Shr(codeword, tableBits) < Pow2(lens[q] - tableBits)
  {
    var more := lens[q] - tableBits;
    ReversedMask(codeword, tableBits, tableBits);
    ReversedParts(codeword, tableBits, more);
    ShlPow2(more, tableBits);
    ShrAtLeast(codeword, Pow2(more), tableBits);
  }

  /** A long codeword whose prefix is not the current one needs a new subtable; otherwise the
      current one is its own. */
  lemma PrefixDecides(lens: seq<nat>, tableBits: nat, c: Current, q: nat, codeword: nat)
    requires q < |lens| && lens[q] > tableBits && codeword < Pow2(lens[q]) && Reversed(codeword, lens[q]) == Code(lens, q)
    requires Aligned(lens, tableBits, c, q) && c.prefix < Pow2(tableBits)
    ensures Mask(codeword, tableBits) != c.prefix ==>
      Mask(Code(lens, q), lens[q] - tableBits) == 0 && Top(lens, tableBits, q) > CurrentTop(c, tableBits)
    ensures Mask(codeword, tableBits) == c.prefix ==> Top(lens, tableBits, q) == CurrentTop(c, tableBits)
  {
    SplitCodeword(lens, tableBits, q, codeword);
    if Mask(codeword, tableBits) != c.prefix {
      if c.prefix >= 0 && Top(lens, tableBits, q) == CurrentTop(c, tableBits) {
        SameIndex(Mask(codeword, tableBits), c.prefix, tableBits);
      }
      NewPrefixAligned(lens, tableBits, c, q);
    }
  }

  /** Starts a new subtable when the symbol needs one. */
  method OpenIfNeeded(table: array<nat>, counts: array<nat>, tableBits: nat, len: nat, codeword: nat, c: Current,
                      ghost lens: seq<nat>, ghost results: seq<nat>, ghost sorted: seq<nat>, ghost k: nat, ghost sym: nat)
    returns (d: Current)
    requires table != counts && counts.Length >= 1 && |results| == |lens| && (CompleteCode(lens, counts.Length - 1) || len <= tableBits)
    requires FittingCode(lens, counts.Length - 1)
    requires Standing(lens, sorted, counts[..], k, len, sym) && Roomy(table.Length, lens, tableBits, counts.Length - 1)
    requires Before(table[..], lens, results, tableBits, c, sym, codeword)
    modifies table
    ensures Before(table[..], lens, results, tableBits, d, sym, codeword)
    ensures if len > tableBits then d.prefix >= 0 && Top(lens, tableBits, sym) == CurrentTop(d, tableBits) else d == c && c.prefix < 0
    ensures len <= tableBits ==> table[..] == old(table[..])
    ensures KeepsBeyond(old(table[..]), table[..], TableSize(lens, tableBits))
  {
    d := c;
    if len > tableBits {
      PrefixDecides(lens, tableBits, c, sym, codeword);
      if Mask(codeword, tableBits) != c.prefix {
        var bits := WidthFrom(counts, tableBits, len, lens, sorted, k, sym);
        SplitCodeword(lens, tableBits, sym, codeword);
        d := Current(Mask(codeword, tableBits), c.start + Pow2(c.bits), bits);
        OpenSubtable(table[..], lens, results, counts.Length - 1, tableBits, c, sym, d.prefix, d);
        OpenAligned(lens, counts.Length - 1, tableBits, d, sym);
        SizeBelowMono(lens, tableBits, 0, Pow2(tableBits));
        ghost var before := table[..];
        table[d.prefix] := Pointer(d.start, d.bits);
        assert table[..] == before[d.prefix := Pointer(d.start, d.bits)];
      }
    }
  }

  lemma OpenAligned(lens: seq<nat>, max: nat, tableBits: nat, d: Current, q: nat)
    requires FittingCode(lens, max) && q < |lens| && lens[q] > tableBits
    requires d.prefix >= 0 && CurrentTop(d, tableBits) == Top(lens, tableBits, q)
    ensures Aligned(lens, tableBits, d, q)
  {
    TopBound(lens, max, tableBits, q);
  }

  /** Main table entries that no bits starting with the codeword reach are kept. */
  ghost predicate KeepsOthers(before: seq<nat>, after: seq<nat>, lens: seq<nat>, tableBits: nat, q: nat)
    requires q < |lens|
  {
    && Pow2(tableBits) <= |before| == |after|
    && forall i :: 0 <= i < Pow2(tableBits) && !StartsWith(lens, q, i) ==> after[i] == before[i]
  }

  lemma ShortKeepsOthers(before: seq<nat>, after: seq<nat>, lens: seq<nat>, tableBits: nat, q: nat, value: nat)
    requires q < |lens| && Strided(before, after, 0, tableBits, lens[q], Code(lens, q), value)
    ensures KeepsOthers(before, after, lens, tableBits, q)
  {
    forall i | 0 <= i < Pow2(tableBits) && !StartsWith(lens, q, i)
      ensures after[i] == before[i]
    {
      StridedAt(before, after, 0, tableBits, lens[q], Code(lens, q), value, i);
    }
  }

  /** Fills in the entries of one symbol. */
  method EnterSymbol(table: array<nat>, counts: array<nat>, tableBits: nat, len: nat, codeword: nat, c: Current, result: nat,
                     ghost lens: seq<nat>, ghost results: seq<nat>, ghost sorted: seq<nat>, ghost k: nat, ghost sym: nat)
    returns (d: Current)
    requires table != counts && counts.Length >= 1 && |results| == |lens| && (CompleteCode(lens, counts.Length - 1) || len <= tableBits)
    requires FittingCode(lens, counts.Length - 1)
    requires Standing(lens, sorted, counts[..], k, len, sym) && Roomy(table.Length, lens, tableBits, counts.Length - 1)
    requires Before(table[..], lens, results, tableBits, c, sym, codeword) && result == results[sym]
    modifies table
    ensures After(table[..], lens, results, tableBits, d, sym)
    ensures len <= tableBits ==> KeepsOthers(old(table[..]), table[..], lens, tableBits, sym)
    ensures KeepsBeyond(old(table[..]), table[..], TableSize(lens, tableBits))
  {
    d := OpenIfNeeded(table, counts, tableBits, len, codeword, c, lens, results, sorted, k, sym);
    var dropped := if len > tableBits then tableBits else 0;
    var entry := Entry(result, len - dropped);
    ghost var before := table[..];
    EntryFits(lens, tableBits, d, sym, codeword, before);
    FillStride(table, d.start, d.bits, len - dropped, Shr(codeword, dropped), entry);
    if len > tableBits {
      EnterLong(before, table[..], lens, results, tableBits, d, sym);
    } else {
      EnterShort(before, table[..], lens, results, tableBits, d, sym);
      ShortKeepsOthers(before, table[..], lens, tableBits, sym, entry);
    }
    FillKeepsBeyond(lens, tableBits, before, table[..], d);
  }

  lemma EntryFits(lens: seq<nat>, tableBits: nat, d: Current, q: nat, codeword: nat, table: seq<nat>)
    requires q < |lens| && codeword < Pow2(lens[q]) && Reversed(codeword, lens[q]) == Code(lens, q)
    requires CurrentOk(table, lens, tableBits, d)
    requires if lens[q] > tableBits then d.prefix >= 0 && Top(lens, tableBits, q) == CurrentTop(d, tableBits) else d.prefix < 0
    ensures d.start + Pow2(d.bits) <= |table|
    ensures lens[q] <= tableBits ==> d == Current(-1, 0, tableBits) && Shr(codeword, 0) == codeword
    ensures lens[q] > tableBits ==> lens[q] - tableBits <= d.bits
    ensures lens[q] > tableBits ==> Shr(codeword, tableBits) < Pow2(lens[q] - tableBits)
    ensures lens[q] > tableBits ==> Reversed(Shr(codeword, tableBits), lens[q] - tableBits) == Bottom(lens, tableBits, q)
  {
    if lens[q] > tableBits {
      SplitCodeword(lens, tableBits, q, codeword);
    }
  }

  lemma FillKeepsBeyond(lens: seq<nat>, tableBits: nat, before: seq<nat>, after: seq<nat>, d: Current)
    requires |before| == |after| && d.start + Pow2(d.bits) <= |before|
    requires forall i :: 0 <= i < |before| && !(d.start <= i < d.start + Pow2(d.bits)) ==> after[i] == before[i]
    requires CurrentOk(before, lens, tableBits, d)
    ensures KeepsBeyond(before, after, TableSize(lens, tableBits))
  {
    SizeBelowMono(lens, tableBits, CurrentTop(d, tableBits) + 1, Pow2(tableBits));
  }

  /** The state carries over to the next symbol in the order. */
  lemma ToNext(table: seq<nat>, lens: seq<nat>, results: seq<nat>, max: nat, tableBits: nat, c: Current, q: nat, next: nat,
               codeword: nat, stepped: nat)
    requires FittingCode(lens, max) && q < |lens| == |results| && next < |lens| && 0 < lens[q] <= lens[next]
    requires After(table, lens, results, tableBits, c, q)
    requires Code(lens, next) == Shl(Code(lens, q) + 1, lens[next] - lens[q])
    requires forall s :: 0 <= s < |lens| ==> (Done(lens, next, s) <==> Done(lens, q, s) || s == q)
    requires codeword < Pow2(lens[q]) && Reversed(codeword, lens[q]) == Code(lens, q)
    requires Reversed(codeword, lens[q]) + 1 < Pow2(lens[q]) ==> stepped == Next(codeword, lens[q])
    ensures Before(table, lens, results, tableBits, c, next, stepped)
  {
    hide Code, Pow2;
    StepReads(lens, max, q, next, codeword, stepped);
    assert Done(lens, next, q);
    NextAligned(lens, max, tableBits, c, q, next);
  }

  /** Stepping the codeword and reading it longer gives the next codeword. */
  lemma StepReads(lens: seq<nat>, max: nat, q: nat, next: nat, codeword: nat, stepped: nat)
    requires FittingCode(lens, max) && q < |lens| && next < |lens| && 0 < lens[q] <= lens[next]
    requires Code(lens, next) == Shl(Code(lens, q) + 1, lens[next] - lens[q])
    requires codeword < Pow2(lens[q]) && Reversed(codeword, lens[q]) == Code(lens, q)
    requires Reversed(codeword, lens[q]) + 1 < Pow2(lens[q]) ==> stepped == Next(codeword, lens[q])
    ensures stepped < Pow2(lens[next]) && Reversed(stepped, lens[next]) == Code(lens, next)
  {
    hide Code;
    var d := lens[next] - lens[q];
    CodeFits(lens, next, max);
    ShlPow2(lens[q], d);
    ShlMono(Pow2(lens[q]), Code(lens, q) + 1, d);
    NextReads(codeword, lens[q]);
    ReversedPad(stepped, lens[q], d);
    Pow2Mono(lens[q], lens[next]);
  }

  /** The table gives this result and length for the bits of x, looking at no more than the first most bits. */
  ghost predicate LooksUp(table: seq<nat>, tableBits: nat, x: nat, result: nat, len: nat, most: nat) {
    && Pow2(tableBits) <= |table|
    && (var e := table[Mask(x, tableBits)];
        IsPointer(e) ==>
          PointerStart(e) + Mask(Shr(x, tableBits), EntryLen(e)) < |table| && tableBits + EntryLen(e) <= most && len > tableBits)
    && Lookup(table, tableBits, x) == Decoded(result, len)
  }

  /** Every codeword is decoded, whatever bits follow it. */
  ghost predicate DecodesAll(table: seq<nat>, lens: seq<nat>, results: seq<nat>, tableBits: nat)
    requires |results| == |lens|
  {
    forall s, x :: 0 <= s < |lens| && lens[s] > 0 && StartsWith(lens, s, x) ==> LooksUp(table, tableBits, x, results[s], lens[s], Longest(lens))
  }

  /** Bits that start with no codeword give the result of symbol 0 and a length of one. */
  ghost predicate DefaultsElsewhere(table: seq<nat>, lens: seq<nat>, results: seq<nat>, tableBits: nat)
    requires 0 < |results| == |lens|
  {
    forall x :: (forall s :: 0 <= s < |lens| && lens[s] > 0 ==> !StartsWith(lens, s, x)) ==> LooksUp(table, tableBits, x, results[0], 1, Longest(lens))
  }

  ghost predicate AllDefault(table: seq<nat>, tableBits: nat, value: nat) {
    Pow2(tableBits) <= |table| && forall i :: 0 <= i < Pow2(tableBits) ==> table[i] == value
  }

  lemma {:induction false} NoCodewords(lens: seq<nat>, len: nat)
    requires forall l :: 1 <= l <= len ==> Count(lens, l) == 0
    ensures End(lens, len) == 0
  {
    if len > 0 { NoCodewords(lens, len - 1); }
  }

  lemma {:induction false} EndZero(lens: seq<nat>, len: nat)
    requires End(lens, len) == 0
    ensures forall l :: 1 <= l <= len ==> Count(lens, l) == 0
  {
    if len > 0 { EndZero(lens, len - 1); }
  }

  lemma {:induction false} CountPositive(lens: seq<nat>, s: nat)
    requires s < |lens|
    ensures Count(lens, lens[s]) > 0
  {
    if s > 0 { CountPositive(lens[1..], s - 1); }
  }

  lemma {:induction false} CountZero(lens: seq<nat>, x: nat)
    requires forall s :: 0 <= s < |lens| ==> lens[s] != x
    ensures Count(lens, x) == 0
  {
    if lens != [] { CountZero(lens[1..], x); }
  }

  /** Nothing is taken from the codespace exactly when no symbol is used. */
  lemma EmptyIsZero(lens: seq<nat>, max: nat)
    requires Bounded(lens, max)
    ensures EmptyCode(lens) <==> End(lens, max) == 0
  {
    if EmptyCode(lens) {
      forall l | 1 <= l <= max
        ensures Count(lens, l) == 0
      {
        CountZero(lens, l);
      }
      NoCodewords(lens, max);
    }
    if End(lens, max) == 0 {
      EndZero(lens, max);
      forall s | 0 <= s < |lens|
        ensures lens[s] == 0
      {
        CountPositive(lens, s);
      }
    }
  }

  /** A single codeword of length one takes half the codespace. */
  lemma {:induction false} OneBitEnd(lens: seq<nat>, len: nat)
    requires len >= 1 && Count(lens, 1) == 1
    ensures End(lens, len) >= Pow2(len - 1)
    ensures End(lens, len) == Pow2(len - 1) <==> forall l :: 2 <= l <= len ==> Count(lens, l) == 0
  {
    if len > 1 {
      OneBitEnd(lens, len - 1);
      assert End(lens, len) == 2 * End(lens, len - 1) + Count(lens, len);
      assert Pow2(len - 1) == 2 * Pow2(len - 2);
      assert (forall l :: 2 <= l <= len ==> Count(lens, l) == 0) <==>
             (forall l :: 2 <= l <= len - 1 ==> Count(lens, l) == 0) && Count(lens, len) == 0;
    }
  }

  lemma {:induction false} OnlyOne(lens: seq<nat>, s: nat)
    requires s < |lens| && lens[s] == 1 && Count(lens, 1) == 1
    ensures forall t :: 0 <= t < |lens| && t != s ==> lens[t] != 1
  {
    forall t | 0 <= t < |lens| && t != s
      ensures lens[t] != 1
    {
      if lens[t] == 1 {
        var a, b := if s < t then s else t, if s < t then t else s;
        CountPrefix(lens, a, 1);
        CountPrefixMonotone(lens, a + 1, b, 1);
        CountPrefix(lens, b, 1);
      }
    }
  }

  lemma {:induction false} FindOne(lens: seq<nat>) returns (s: nat)
    requires Count(lens, 1) > 0
    ensures s < |lens| && lens[s] == 1
  {
    if lens[0] == 1 {
      s := 0;
    } else {
      s := FindOne(lens[1..]);
      s := s + 1;
    }
  }

  lemma CountOnlyAt(lens: seq<nat>, s: nat)
    requires s < |lens| && lens[s] == 1 && forall t :: 0 <= t < |lens| && t != s ==> lens[t] == 0
    ensures Count(lens, 1) == 1
  {
    CountRemove(lens, s, 1);
    CountZero(RemoveAt(lens, s), 1);
  }

  lemma OneBitIsHalf(lens: seq<nat>, max: nat)
    requires Bounded(lens, max) && max >= 1
    ensures OneBitCode(lens) <==> End(lens, max) == Pow2(max - 1) && Count(lens, 1) == 1
  {
    if OneBitCode(lens) {
      var s :| 0 <= s < |lens| && lens[s] == 1 && forall t :: 0 <= t < |lens| && t != s ==> lens[t] == 0;
      CountOnlyAt(lens, s);
      forall l | 2 <= l <= max
        ensures Count(lens, l) == 0
      {
        CountZero(lens, l);
      }
      OneBitEnd(lens, max);
    }
    if End(lens, max) == Pow2(max - 1) && Count(lens, 1) == 1 {
      OneBitEnd(lens, max);
      var s := FindOne(lens);
      OnlyOne(lens, s);
      forall t | 0 <= t < |lens| && t != s
        ensures lens[t] == 0
      {
        CountPositive(lens, t);
      }
    }
  }

  /** What is left of the codespace, in units of the longest codeword. */
  method CheckCodespace(counts: array<nat>, ghost lens: seq<nat>) returns (fits: bool, remainder: int)
    requires counts.Length >= 2
    requires forall l :: 0 <= l < counts.Length ==> counts[l] == Count(lens, l)
    ensures fits <==> End(lens, counts.Length - 1) <= Pow2(counts.Length - 1)
    ensures fits ==> remainder == Pow2(counts.Length - 1) - End(lens, counts.Length - 1)
  {
    remainder := 1;
    var len := 1;
    while len < counts.Length
      invariant 1 <= len <= counts.Length
      invariant remainder == Pow2(len - 1) - End(lens, len - 1) >= 0
    {
      remainder := remainder * 2;
      remainder := remainder - counts[len];
      if remainder < 0 {
        if End(lens, counts.Length - 1) <= Pow2(counts.Length - 1) {
          EndFits(lens, len, counts.Length - 1);
        }
        return false, remainder;
      }
      len := len + 1;
    }
    fits := true;
  }

  /** The first used symbol in the order has the all-zero codeword. */
  lemma FirstStanding(lens: seq<nat>, sorted: seq<nat>, counts: seq<nat>) returns (sym: nat)
    requires |counts| >= 1 && Bounded(lens, |counts| - 1) && Placed(sorted, lens, |lens|) && |sorted| == |lens|
    requires (forall l :: 0 <= l < |counts| ==> counts[l] == Count(lens, l)) && !EmptyCode(lens)
    ensures sym < |lens| && Standing(lens, sorted, counts, Offset(lens, 1), lens[sym], sym)
    ensures Code(lens, sym) == 0 && ZeroBetween(counts, 1, lens[sym]) && counts[lens[sym]] > 0
    ensures forall s :: 0 <= s < |lens| ==> !Done(lens, sym, s)
  {
    var used :| 0 <= used < |lens| && lens[used] > 0;
    PlaceInRange(lens, used);
    OffsetMonotone(lens, 1, lens[used]);
    OffsetAll(lens, |counts|);
    OffsetMonotone(lens, lens[used] + 1, |counts|);
    sym := FindSymbol(lens, |counts| - 1, Offset(lens, 1));
    PlaceInRange(lens, sym);
    assert lens[sym] > 0;
    OffsetMonotone(lens, 1, lens[sym]);
    if lens[sym] > 1 {
      OffsetAfterGap(lens, 0, lens[sym]);
    }
    NoCodewords(lens, lens[sym] - 1);
    CountPositive(lens, sym);
    forall s | 0 <= s < |lens|
      ensures !Done(lens, sym, s)
    {
      if Done(lens, sym, s) {
        PlaceOrdered(lens, s, sym);
        PlaceInRange(lens, s);
        OffsetMonotone(lens, 1, lens[s]);
      }
    }
  }

  lemma StartBefore(table: seq<nat>, lens: seq<nat>, results: seq<nat>, tableBits: nat, q: nat)
    requires q < |lens| == |results| && lens[q] > 0 && Code(lens, q) == 0 && Pow2(tableBits) <= |table|
    requires forall s :: 0 <= s < |lens| ==> !Done(lens, q, s)
    ensures Before(table, lens, results, tableBits, Current(-1, 0, tableBits), q, 0)
  {
    ReversedZero(lens[q]);
    BelowMask(0, if lens[q] > tableBits then lens[q] - tableBits else 0);
  }

  /** Every symbol entered is decoded. */
  lemma EnteredDecodes(table: seq<nat>, lens: seq<nat>, results: seq<nat>, max: nat, tableBits: nat, c: Current)
    requires |results| == |lens| && Bounded(lens, max) && max < 256 && Pow2(tableBits) <= |table| && c.start + Pow2(c.bits) <= |table|
    requires forall s :: 0 <= s < |lens| ==> results[s] < 0x80_0000
    requires forall s :: 0 <= s < |lens| && lens[s] > 0 ==> Entered(table, lens, results, tableBits, c, s)
    ensures DecodesAll(table, lens, results, tableBits)
  {
    forall s, x | 0 <= s < |lens| && lens[s] > 0 && StartsWith(lens, s, x)
      ensures LooksUp(table, tableBits, x, results[s], lens[s], Longest(lens))
    {
      assert Entered(table, lens, results, tableBits, c, s);
      var end := if lens[s] > tableBits && Top(lens, tableBits, s) == CurrentTop(c, tableBits) then c.start + Pow2(c.bits) else c.start;
      LookupSymbol(table, lens, results, tableBits, s, end, x);
    }
  }

  /** Entries nothing reaches still hold the default. */
  lemma DefaultsStay(before: seq<nat>, after: seq<nat>, lens: seq<nat>, results: seq<nat>, tableBits: nat, q: nat)
    requires 0 < |lens| == |results| && q < |lens| && lens[q] == 1 <= tableBits && results[0] < 0x80_0000
    requires AllDefault(before, tableBits, Entry(results[0], 1)) && KeepsOthers(before, after, lens, tableBits, q)
    ensures DefaultsElsewhere(after, lens, results, tableBits)
  {
    forall x | forall s :: 0 <= s < |lens| && lens[s] > 0 ==> !StartsWith(lens, s, x)
      ensures LooksUp(after, tableBits, x, results[0], 1, Longest(lens))
    {
      ReversedMask(x, 1, tableBits);
      assert !StartsWith(lens, q, x);
      EntryParts(results[0], 1);
    }
  }

  lemma DefaultsOnly(table: seq<nat>, lens: seq<nat>, results: seq<nat>, tableBits: nat)
    requires 0 < |lens| == |results| && results[0] < 0x80_0000 && AllDefault(table, tableBits, Entry(results[0], 1))
    ensures DefaultsElsewhere(table, lens, results, tableBits)
  {
    EntryParts(results[0], 1);
  }

  /** A one-bit code needs no subtables. */
  lemma OneBitRoomy(lens: seq<nat>, tableBits: nat)
    requires OneBitCode(lens) && tableBits >= 1
    ensures TableSize(lens, tableBits) == Pow2(tableBits)
  {
    SizeBelowSkip(lens, tableBits, 0, Pow2(tableBits));
  }

  /** The next length that still has symbols. */
  method SkipEmpty(counts: array<nat>, from: nat, ghost to: nat) returns (len: nat)
    requires from <= to < counts.Length && ZeroBetween(counts[..], from, to) && counts[to] > 0
    ensures len == to
  {
    len := from;
    while counts[len] == 0
      invariant from <= len <= to
      decreases counts.Length - len
    {
      len := len + 1;
    }
  }

  /** Enters all symbols, in order. */
  method EnterAll(table: array<nat>, lens: seq<nat>, results: seq<nat>, tableBits: nat, max: nat,
                  counts: array<nat>, sorted: array<nat>, first: nat)
    requires table != counts && table != sorted && counts != sorted
    requires counts.Length == max + 1 && sorted.Length == |lens| == |results| && 1 <= tableBits
    requires forall s :: 0 <= s < |lens| ==> results[s] < 0x80_0000
    requires CompleteCode(lens, max) || (FittingCode(lens, max) && OneBitCode(lens) && AllDefault(table[..], tableBits, Entry(results[0], 1)))
    requires Roomy(table.Length, lens, tableBits, max) && !EmptyCode(lens)
    requires Placed(sorted[..], lens, |lens|) && first == Offset(lens, 1)
    requires forall l :: 0 <= l < counts.Length ==> counts[l] == Count(lens, l)
    modifies table, counts
    ensures DecodesAll(table[..], lens, results, tableBits)
    ensures !CompleteCode(lens, max) ==> DefaultsElsewhere(table[..], lens, results, tableBits)
    ensures KeepsBeyond(old(table[..]), table[..], TableSize(lens, tableBits))
  {
    hide Standing, Before, After, DecodesAll, DefaultsElsewhere, KeepsBeyond, KeepsOthers, AllDefault, Placed, Count, Offset;
    hide OneBitCode, EmptyCode, Code, Reversed, Shl, Entered, SizeBelow;
    ghost var ls, original := lens, table[..];
    ghost var sym := FirstStanding(lens, sorted[..], counts[..]);
    SizeBelowMono(lens, tableBits, 0, Pow2(tableBits));
    StartBefore(table[..], lens, results, tableBits, sym);
    SameKeeps(original, TableSize(lens, tableBits));
    var k := first;
    var len := SkipEmpty(counts, 1, lens[sym]);
    if !CompleteCode(lens, max) { OneBitLength(lens, sym); }
    var codeword := 0;
    var c := Current(-1, 0, tableBits);
    while true
      invariant sym < |lens| && lens[sym] == len && Standing(lens, sorted[..], counts[..], k, len, sym)
      invariant Before(table[..], lens, results, tableBits, c, sym, codeword)
      invariant KeepsBeyond(original, table[..], TableSize(lens, tableBits))
      invariant CompleteCode(lens, max) || (len <= tableBits && table[..] == original && k == first)
      decreases |lens| - k
    {
      StandingFacts(lens, sorted[..], counts[..], k, len, sym);
      BeforeFacts(table[..], lens, results, tableBits, c, sym, codeword);
      ghost var before := table[..];
      c := EnterSymbol(table, counts, tableBits, len, codeword, c, results[sorted[k]], lens, results, sorted[..], k, sym);
      KeepsTwice(original, before, table[..], TableSize(lens, tableBits));
      var stepped := NextCodeword(codeword, len);
      if k + 1 == |lens| {
        Finished(before, table[..], lens, results, max, tableBits, c, sym, k);
        break;
      }
      if !CompleteCode(lens, max) { OneBitLast(lens); }
      ghost var next := NextStanding(lens, sorted[..], counts[..], k, len, sym);
      ToNext(table[..], lens, results, max, tableBits, c, sym, next, codeword, stepped);
      ghost var cs := counts[..];
      counts[len] := counts[len] - 1;
      assert counts[..] == cs[len := cs[len] - 1];
      len := SkipEmpty(counts, len, lens[next]);
      k := k + 1;
      sym := next;
      codeword := stepped;
    }
  }

  lemma SameKeeps(table: seq<nat>, size: nat)
    ensures KeepsBeyond(table, table, size)
  {
  }

  lemma KeepsTwice(a: seq<nat>, b: seq<nat>, c: seq<nat>, size: nat)
    requires KeepsBeyond(a, b, size) && KeepsBeyond(b, c, size)
    ensures KeepsBeyond(a, c, size)
  {
  }

  lemma StandingFacts(lens: seq<nat>, sorted: seq<nat>, counts: seq<nat>, k: nat, len: nat, sym: nat)
    requires Standing(lens, sorted, counts, k, len, sym)
    ensures sym < |lens| && 0 < len < |counts| && lens[sym] == len && k == Place(lens, sym) && k < |sorted| == |lens| && sorted[k] == sym
  {
  }

  lemma BeforeFacts(table: seq<nat>, lens: seq<nat>, results: seq<nat>, tableBits: nat, c: Current, q: nat, codeword: nat)
    requires q < |lens| == |results| && Before(table, lens, results, tableBits, c, q, codeword)
    ensures codeword < Pow2(lens[q]) && Reversed(codeword, lens[q]) == Code(lens, q)
  {
  }

  lemma OneBitLength(lens: seq<nat>, s: nat)
    requires OneBitCode(lens) && s < |lens| && lens[s] > 0
    ensures lens[s] == 1
  {
  }

  lemma OneBitLast(lens: seq<nat>)
    requires OneBitCode(lens)
    ensures Offset(lens, 1) + 1 == |lens|
  {
    var s :| 0 <= s < |lens| && lens[s] == 1 && forall t :: 0 <= t < |lens| && t != s ==> lens[t] == 0;
    CountOnlyAt(lens, s);
    OffsetAll(lens, 2);
    assert Offset(lens, 2) == Offset(lens, 1) + Count(lens, 1);
  }

  /** After the last symbol of the order everything is entered. */
  lemma Finished(before: seq<nat>, table: seq<nat>, lens: seq<nat>, results: seq<nat>, max: nat, tableBits: nat, c: Current, q: nat, k: nat)
    requires q < |lens| == |results| && lens[q] > 0 && Bounded(lens, max) && max < 256 && k == Place(lens, q) && k + 1 == |lens|
    requires forall s :: 0 <= s < |lens| ==> results[s] < 0x80_0000
    requires After(table, lens, results, tableBits, c, q) && 1 <= tableBits
    requires CompleteCode(lens, max) ||
      (OneBitCode(lens) && AllDefault(before, tableBits, Entry(results[0], 1)) && KeepsOthers(before, table, lens, tableBits, q))
    ensures DecodesAll(table, lens, results, tableBits)
    ensures !CompleteCode(lens, max) ==> DefaultsElsewhere(table, lens, results, tableBits)
  {
    LastStanding(lens, max, q);
    EnteredDecodes(table, lens, results, max, tableBits, c);
    if !CompleteCode(lens, max) {
      DefaultsStay(before, table, lens, results, tableBits, q);
    }
  }

  /** Sets every main table entry. */
  method FillDefault(table: array<nat>, tableBits: nat, entry: nat)
    requires Pow2(tableBits) <= table.Length
    modifies table
    ensures AllDefault(table[..], tableBits, entry)
  {
    for sym := 0 to Pow2(tableBits)
      invariant forall i :: 0 <= i < sym ==> table[i] == entry
    {
      table[sym] := entry;
    }
  }

  /** build_decode_table */
  method BuildTable(table: array<nat>, lens: seq<nat>, results: seq<nat>, tableBits: nat, max: nat) returns (ok: bool)
    requires 0 < |lens| == |results| && 1 <= tableBits <= 16 && 1 <= max < 256
    requires Bounded(lens, max) && forall s :: 0 <= s < |lens| ==> results[s] < 0x80_0000
    requires Pow2(tableBits) <= table.Length
    requires CompleteCode(lens, max) ==> Roomy(table.Length, lens, tableBits, max)
    modifies table
    ensures ok <==> CompleteCode(lens, max) || EmptyCode(lens) || OneBitCode(lens)
    ensures ok ==> DecodesAll(table[..], lens, results, tableBits)
    ensures ok && !CompleteCode(lens, max) ==> DefaultsElsewhere(table[..], lens, results, tableBits)
    ensures CompleteCode(lens, max) ==> KeepsBeyond(old(table[..]), table[..], TableSize(lens, tableBits))
  {
    hide DecodesAll, DefaultsElsewhere, KeepsBeyond, Placed, Count, Offset, Advanced, OneBitCode, EmptyCode, TableSize, End, AllDefault;
    var counts := new nat[max + 1];
    var offsets := new nat[max + 1];
    var sorted := new nat[|lens|];
    CountLengths(lens, counts);
    AccumulateOffsets(lens, counts, offsets);
    SortByLength(lens, offsets, sorted);
    var fits, remainder := CheckCodespace(counts, lens);
    EmptyIsZero(lens, max);
    OneBitIsHalf(lens, max);
    assert Pow2(max) == 2 * Pow2(max - 1);
    if !fits {
      return false;
    }
    if remainder != 0 {
      FillDefault(table, tableBits, Entry(results[0], 1));
      if remainder == Pow2(max) {
        DefaultsOnly(table[..], lens, results, tableBits);
        EmptyDecodes(table[..], lens, results, tableBits);
        return true;
      }
      if remainder != Pow2(max - 1) || counts[1] != 1 {
        return false;
      }
      OneBitRoomy(lens, tableBits);
      Pow2Mono(tableBits, 16);
      Pow2Values();
    }
    EnterAll(table, lens, results, tableBits, max, counts, sorted, offsets[0]);
    ok := true;
  }

  lemma EmptyDecodes(table: seq<nat>, lens: seq<nat>, results: seq<nat>, tableBits: nat)
    requires |results| == |lens| && EmptyCode(lens)
    ensures DecodesAll(table, lens, results, tableBits)
  {
  }

  /** With a complete code, any bits at all decode to a symbol whose codeword they start with. */
  lemma TableIsTotal(table: seq<nat>, lens: seq<nat>, results: seq<nat>, tableBits: nat, max: nat, x: nat) returns (s: nat)
    requires |results| == |lens| && CompleteCode(lens, max) && DecodesAll(table, lens, results, tableBits)
    ensures s < |lens| && lens[s] > 0 && StartsWith(lens, s, x) && LooksUp(table, tableBits, x, results[s], lens[s], Longest(lens))
  {
    ReversedBound(x, max);
    s := EveryStringDecodes(lens, Reversed(x, max), max);
    ReversedParts(x, lens[s], max - lens[s]);
  }
}
