/** What one step of building a decode table keeps: every symbol already entered still decodes. */
module TableFilling {
  import opened Powers
  import opened Shifts
  import opened BitReversal
  import opened CanonicalCode
  import opened LengthOrder
  import opened DecodeTable
  import opened SubtableWidth

  /** The word x, read from its lowest bit, starts with the codeword of s. */
  ghost predicate StartsWith(lens: seq<nat>, s: nat, x: nat)
    requires s < |lens|
  {
    Reversed(x, lens[s]) == Code(lens, s)
  }

  /** No word starts with two codewords. */
  lemma OneCodeword(lens: seq<nat>, s: nat, q: nat, x: nat)
    requires s < |lens| && q < |lens| && s != q && 0 < lens[s] <= lens[q]
    ensures !(StartsWith(lens, s, x) && StartsWith(lens, q, x))
  {
    ReversedParts(x, lens[s], lens[q] - lens[s]);
    PrefixFree(lens, s, q);
  }

  /** A main table index that reads as the prefix of a long codeword starts with no short one. */
  lemma PrefixHasNoShort(lens: seq<nat>, tableBits: nat, s: nat, q: nat, i: nat)
    requires s < |lens| && q < |lens| && 0 < lens[s] <= tableBits < lens[q]
    requires Reversed(i, tableBits) == Top(lens, tableBits, q)
    ensures !StartsWith(lens, s, i)
  {
    ReversedParts(i, lens[s], tableBits - lens[s]);
    ShrShr(Code(lens, q), lens[q] - tableBits, tableBits - lens[s]);
    PrefixFree(lens, s, q);
  }

  /** Codewords with the same prefix stay apart in the subtable. */
  lemma BottomsApart(lens: seq<nat>, tableBits: nat, s: nat, q: nat, y: nat)
    requires s < |lens| && q < |lens| && s != q && tableBits < lens[s] <= lens[q]
    requires Top(lens, tableBits, s) == Top(lens, tableBits, q)
    requires Reversed(y, lens[q] - tableBits) == Bottom(lens, tableBits, q)
    ensures Reversed(y, lens[s] - tableBits) != Bottom(lens, tableBits, s)
  {
    var a, d := lens[s] - tableBits, lens[q] - lens[s];
    if Reversed(y, a) == Bottom(lens, tableBits, s) {
      ReversedParts(y, a, d);
      Parts(Code(lens, s), a);
      Parts(Code(lens, q), a + d);
      var top := Top(lens, tableBits, q);
      ShlShl(top, a, d);
      Parts(Bottom(lens, tableBits, q), d);
      ShlSum(Shl(top, a), Bottom(lens, tableBits, s), d);
      PartsUnique(Code(lens, q), d, Code(lens, s), Mask(Bottom(lens, tableBits, q), d));
      PrefixFree(lens, s, q);
    }
  }

  /** The subtable being filled: the prefix it belongs to (-1 for the main table), start and width. */
  datatype Current = Current(prefix: int, start: nat, bits: nat)

  /** Main table indices read as this prefix, most significant bit first. */
  ghost function CurrentTop(c: Current, tableBits: nat): int {
    if c.prefix < 0 then -1 else Reversed(c.prefix, tableBits)
  }

  /** Symbol s decodes through what has been built so far. Subtables before the current one end
      where it starts. */
  ghost predicate Entered(table: seq<nat>, lens: seq<nat>, results: seq<nat>, tableBits: nat, c: Current, s: nat)
    requires s < |lens| == |results| && lens[s] > 0 && Pow2(tableBits) <= |table| && c.start + Pow2(c.bits) <= |table|
  {
    if lens[s] > tableBits && Top(lens, tableBits, s) == CurrentTop(c, tableBits)
    then Decodes(table, lens, results, tableBits, s, c.start + Pow2(c.bits))
    else Decodes(table, lens, results, tableBits, s, c.start)
  }

  /** The current subtable is consistent with the table and wide enough for its prefix. */
  ghost predicate CurrentOk(table: seq<nat>, lens: seq<nat>, tableBits: nat, c: Current) {
    && Pow2(tableBits) <= |table| && c.start + Pow2(c.bits) <= |table|
    && -1 <= CurrentTop(c, tableBits) && CurrentTop(c, tableBits) + 1 <= Pow2(tableBits)
    && c.start + Pow2(c.bits) == SizeBelow(lens, tableBits, CurrentTop(c, tableBits) + 1)
    && (if c.prefix < 0 then c.prefix == -1 && c.start == 0 && c.bits == tableBits
        else
          && c.prefix < Pow2(tableBits) && Pow2(tableBits) <= c.start < 0x1_0000 && c.bits < 256 && tableBits + c.bits <= Longest(lens)
          && table[c.prefix] == Pointer(c.start, c.bits)
          && forall s :: 0 <= s < |lens| && lens[s] > tableBits && Top(lens, tableBits, s) == CurrentTop(c, tableBits) ==>
               lens[s] - tableBits <= c.bits)
  }

  /** Prefixes entered so far do not pass the current one. */
  ghost predicate PrefixesUpTo(lens: seq<nat>, tableBits: nat, c: Current, q: nat)
    requires q < |lens|
  {
    forall s :: 0 <= s < |lens| && Done(lens, q, s) && lens[s] > tableBits ==>
      c.prefix >= 0 && Top(lens, tableBits, s) <= CurrentTop(c, tableBits)
  }

  ghost predicate AllEntered(table: seq<nat>, lens: seq<nat>, results: seq<nat>, tableBits: nat, c: Current, q: nat)
    requires q < |lens| == |results| && Pow2(tableBits) <= |table| && c.start + Pow2(c.bits) <= |table|
  {
    forall s :: 0 <= s < |lens| && Done(lens, q, s) ==> Entered(table, lens, results, tableBits, c, s)
  }

  /** Words of the given width that read as the codeword's bits below the dropped ones get value. */
  ghost predicate Strided(before: seq<nat>, after: seq<nat>, start: nat, width: nat, step: nat, bits: nat, value: nat) {
    && |before| == |after| && start + Pow2(width) <= |before|
    && (forall i :: 0 <= i < |before| && !(start <= i < start + Pow2(width)) ==> after[i] == before[i])
    && (forall y :: 0 <= y < Pow2(width) ==>
          after[start + y] == if Reversed(y, step) == bits then value else before[start + y])
  }

  lemma StridedAt(before: seq<nat>, after: seq<nat>, start: nat, width: nat, step: nat, bits: nat, value: nat, i: nat)
    requires Strided(before, after, start, width, step, bits, value) && start <= i < start + Pow2(width)
    ensures i < |after| && after[i] == if Reversed(i - start, step) == bits then value else before[i]
  {
    var y := i - start;
    assert after[start + y] == if Reversed(y, step) == bits then value else before[start + y];
  }

  /** Entering a short codeword. */
  lemma EnterShort(before: seq<nat>, after: seq<nat>, lens: seq<nat>, results: seq<nat>, tableBits: nat, c: Current, q: nat)
    requires q < |lens| == |results| && 0 < lens[q] <= tableBits && c == Current(-1, 0, tableBits)
    requires CurrentOk(before, lens, tableBits, c) && AllEntered(before, lens, results, tableBits, c, q)
    requires Strided(before, after, 0, tableBits, lens[q], Code(lens, q), Entry(results[q], lens[q]))
    ensures CurrentOk(after, lens, tableBits, c) && AllEntered(after, lens, results, tableBits, c, q)
    ensures Entered(after, lens, results, tableBits, c, q)
  {
    forall i | 0 <= i < Pow2(tableBits)
      ensures after[i] == if Reversed(i, lens[q]) == Code(lens, q) then Entry(results[q], lens[q]) else before[i]
    {
      StridedAt(before, after, 0, tableBits, lens[q], Code(lens, q), Entry(results[q], lens[q]), i);
    }
    forall s | 0 <= s < |lens| && Done(lens, q, s)
      ensures Entered(after, lens, results, tableBits, c, s)
    {
      assert Entered(before, lens, results, tableBits, c, s);
      forall i | 0 <= i < Pow2(tableBits) && Reversed(i, lens[s]) == Code(lens, s)
        ensures after[i] == before[i]
      {
        OneCodeword(lens, s, q, i);
      }
    }
  }

  /** Entering a long codeword into the current subtable. */
  lemma EnterLong(before: seq<nat>, after: seq<nat>, lens: seq<nat>, results: seq<nat>, tableBits: nat, c: Current, q: nat)
    requires q < |lens| == |results| && lens[q] > tableBits && c.prefix >= 0 && Top(lens, tableBits, q) == CurrentTop(c, tableBits)
    requires CurrentOk(before, lens, tableBits, c) && AllEntered(before, lens, results, tableBits, c, q)
    requires Strided(before, after, c.start, c.bits, lens[q] - tableBits, Bottom(lens, tableBits, q), Entry(results[q], lens[q] - tableBits))
    ensures CurrentOk(after, lens, tableBits, c) && AllEntered(after, lens, results, tableBits, c, q)
    ensures Entered(after, lens, results, tableBits, c, q)
  {
    forall s | 0 <= s < |lens| && Done(lens, q, s)
      ensures Entered(after, lens, results, tableBits, c, s)
    {
      assert Entered(before, lens, results, tableBits, c, s);
      EnterLongKeeps(before, after, lens, results, tableBits, c, q, s);
    }
    forall i | 0 <= i < Pow2(tableBits) && Reversed(i, tableBits) == CurrentTop(c, tableBits)
      ensures i == c.prefix
    {
      SameIndex(i, c.prefix, tableBits);
    }
    PointerParts(c.start, c.bits);
    var more := lens[q] - tableBits;
    forall y | 0 <= y < Pow2(c.bits) && Reversed(y, more) == Bottom(lens, tableBits, q)
      ensures after[c.start + y] == Entry(results[q], more)
    {
      StridedAt(before, after, c.start, c.bits, more, Bottom(lens, tableBits, q), Entry(results[q], more), c.start + y);
    }
  }

  lemma SameIndex(i: nat, j: nat, bits: nat)
    requires i < Pow2(bits) && j < Pow2(bits) && Reversed(i, bits) == Reversed(j, bits)
    ensures i == j
  {
    ReversedInjective(i, j, bits);
    BelowMask(i, bits);
    BelowMask(j, bits);
  }

  lemma EnterLongKeeps(before: seq<nat>, after: seq<nat>, lens: seq<nat>, results: seq<nat>, tableBits: nat, c: Current, q: nat, s: nat)
    requires q < |lens| == |results| && lens[q] > tableBits && c.prefix >= 0 && Top(lens, tableBits, q) == CurrentTop(c, tableBits)
    requires CurrentOk(before, lens, tableBits, c) && s < |lens| && Done(lens, q, s)
    requires Entered(before, lens, results, tableBits, c, s)
    requires Strided(before, after, c.start, c.bits, lens[q] - tableBits, Bottom(lens, tableBits, q), Entry(results[q], lens[q] - tableBits))
    ensures Entered(after, lens, results, tableBits, c, s)
  {
    hide Reversed, Top, Bottom, SizeBelow, Entry, Pointer, PointerStart, IsPointer, EntryLen;
    if lens[s] > tableBits {
      var more, bottom := lens[s] - tableBits, Bottom(lens, tableBits, s);
      var value := Entry(results[s], more);
      var end := if Top(lens, tableBits, s) == CurrentTop(c, tableBits) then c.start + Pow2(c.bits) else c.start;
      forall i | 0 <= i < Pow2(tableBits) && Reversed(i, tableBits) == Top(lens, tableBits, s)
        ensures InSubtable(after, after[i], tableBits, more, bottom, value, end, Longest(lens))
      {
        var e := before[i];
        assert after[i] == e && InSubtable(before, e, tableBits, more, bottom, value, end, Longest(lens));
        forall y | 0 <= y < Pow2(EntryLen(e)) && Reversed(y, more) == bottom
          ensures after[PointerStart(e) + y] == value
        {
          if PointerStart(e) + y >= c.start {
            SameIndex(i, c.prefix, tableBits);
            PointerParts(c.start, c.bits);
            StridedAt(before, after, c.start, c.bits, lens[q] - tableBits, Bottom(lens, tableBits, q),
                      Entry(results[q], lens[q] - tableBits), c.start + y);
            if Reversed(y, lens[q] - tableBits) == Bottom(lens, tableBits, q) {
              BottomsApart(lens, tableBits, s, q, y);
            }
          }
        }
      }
    }
  }

  /** The subtable for a new prefix starts right after the last one, and fits. */
  lemma OpenSize(lens: seq<nat>, max: nat, tableBits: nat, above: int, q: nat, any: bool)
    requires FittingCode(lens, max) && q < |lens| && lens[q] > tableBits && -1 <= above < Top(lens, tableBits, q)
    requires forall s :: 0 <= s < |lens| && Done(lens, q, s) && lens[s] > tableBits ==> any && Top(lens, tableBits, s) <= above
    ensures var bits := SubtableBits(lens, tableBits, Top(lens, tableBits, q), |lens|);
      && bits > 0
      && Pow2(tableBits) <= SizeBelow(lens, tableBits, above + 1)
      && SizeBelow(lens, tableBits, above + 1) + Pow2(bits) == SizeBelow(lens, tableBits, Top(lens, tableBits, q) + 1)
      && SizeBelow(lens, tableBits, Top(lens, tableBits, q) + 1) <= TableSize(lens, tableBits)
      && Top(lens, tableBits, q) + 1 <= Pow2(tableBits)
  {
    var top := Top(lens, tableBits, q);
    TopBound(lens, max, tableBits, q);
    forall s | 0 <= s < |lens| && lens[s] > tableBits
      ensures !(above + 1 <= Top(lens, tableBits, s) < top)
    {
      if !Done(lens, q, s) && s != q {
        TopMonotone(lens, tableBits, q, s);
      }
    }
    SizeBelowSkip(lens, tableBits, above + 1, top);
    SubtableBitsAtLeast(lens, tableBits, top, |lens|, q);
    SizeBelowMono(lens, tableBits, top + 1, Pow2(tableBits));
    SizeBelowMono(lens, tableBits, top, top);
  }

  /** Opening a subtable for the prefix of symbol q. */
  lemma OpenSubtable(before: seq<nat>, lens: seq<nat>, results: seq<nat>, max: nat, tableBits: nat, c: Current, q: nat, p: nat, d: Current)
    requires FittingCode(lens, max) && q < |lens| == |results| && lens[q] > tableBits
    requires CurrentOk(before, lens, tableBits, c) && PrefixesUpTo(lens, tableBits, c, q)
    requires AllEntered(before, lens, results, tableBits, c, q)
    requires p < Pow2(tableBits) && Reversed(p, tableBits) == Top(lens, tableBits, q) > CurrentTop(c, tableBits)
    requires d == Current(p, c.start + Pow2(c.bits), SubtableBits(lens, tableBits, Top(lens, tableBits, q), |lens|))
    requires TableSize(lens, tableBits) <= |before| && TableSize(lens, tableBits) <= 0x1_0000 && d.bits < 256
    requires forall s :: 0 <= s < |lens| && lens[s] > tableBits && Top(lens, tableBits, s) == Top(lens, tableBits, q) ==>
      lens[s] - tableBits <= d.bits
    ensures d.start < 0x1_0000
    ensures var after := before[p := Pointer(d.start, d.bits)];
      && CurrentOk(after, lens, tableBits, d) && PrefixesUpTo(lens, tableBits, d, q)
      && AllEntered(after, lens, results, tableBits, d, q)
  {
    OpenSize(lens, max, tableBits, CurrentTop(c, tableBits), q, c.prefix >= 0);
    var longest := SubtableBitsReached(lens, tableBits, Top(lens, tableBits, q), |lens|);
    assert lens[longest] <= Longest(lens);
    hide Reversed, Top, SizeBelow, Entry, Pointer, PointerStart, IsPointer, EntryLen, Decodes, SubtableBits, Entered;
    var after := before[p := Pointer(d.start, d.bits)];
    forall s | 0 <= s < |lens| && Done(lens, q, s)
      ensures Entered(after, lens, results, tableBits, d, s)
    {
      assert Entered(before, lens, results, tableBits, c, s);
      OpenKeeps(before, lens, results, tableBits, c, q, p, d, s);
    }
  }

  lemma OpenKeeps(before: seq<nat>, lens: seq<nat>, results: seq<nat>, tableBits: nat, c: Current, q: nat, p: nat, d: Current, s: nat)
    requires q < |lens| == |results| && lens[q] > tableBits
    requires CurrentOk(before, lens, tableBits, c) && PrefixesUpTo(lens, tableBits, c, q)
    requires s < |lens| && Done(lens, q, s) && Entered(before, lens, results, tableBits, c, s)
    requires p < Pow2(tableBits) && Reversed(p, tableBits) == Top(lens, tableBits, q) > CurrentTop(c, tableBits)
    requires d.prefix == p && d.start == c.start + Pow2(c.bits) && d.start + Pow2(d.bits) <= |before|
    ensures Entered(before[p := Pointer(d.start, d.bits)], lens, results, tableBits, d, s)
  {
    hide Reversed, Top, Bottom, SizeBelow, Entry, Pointer, PointerStart, IsPointer, EntryLen;
    var after := before[p := Pointer(d.start, d.bits)];
    if lens[s] <= tableBits {
      PrefixHasNoShort(lens, tableBits, s, q, p);
    } else {
      assert Top(lens, tableBits, s) <= CurrentTop(c, tableBits);
      var more, bottom := lens[s] - tableBits, Bottom(lens, tableBits, s);
      forall i | 0 <= i < Pow2(tableBits) && Reversed(i, tableBits) == Top(lens, tableBits, s)
        ensures InSubtable(after, after[i], tableBits, more, bottom, Entry(results[s], more), d.start, Longest(lens))
      {
        var end := if Top(lens, tableBits, s) == CurrentTop(c, tableBits) then c.start + Pow2(c.bits) else c.start;
        assert InSubtable(before, before[i], tableBits, more, bottom, Entry(results[s], more), end, Longest(lens));
      }
    }
  }

  /** Codewords entered from the same prefix on leave room only up to its end; where nothing long
      has been entered yet, a long codeword is aligned on its prefix. */
  ghost predicate Aligned(lens: seq<nat>, tableBits: nat, c: Current, q: nat)
    requires q < |lens|
  {
    && (c.prefix >= 0 ==>
          && lens[q] > tableBits && 0 <= CurrentTop(c, tableBits) <= Top(lens, tableBits, q)
          && Code(lens, q) <= Shl(CurrentTop(c, tableBits) + 1, lens[q] - tableBits))
    && (c.prefix < 0 && lens[q] > tableBits ==> Mask(Code(lens, q), lens[q] - tableBits) == 0)
  }

  /** The first codeword with a new prefix ends in zeroes. */
  lemma NewPrefixAligned(lens: seq<nat>, tableBits: nat, c: Current, q: nat)
    requires q < |lens| && lens[q] > tableBits && Aligned(lens, tableBits, c, q)
    requires c.prefix >= 0 ==> Top(lens, tableBits, q) != CurrentTop(c, tableBits)
    ensures Mask(Code(lens, q), lens[q] - tableBits) == 0
    ensures Top(lens, tableBits, q) > CurrentTop(c, tableBits)
  {
    if c.prefix >= 0 {
      var more, t := lens[q] - tableBits, CurrentTop(c, tableBits) + 1;
      ShrAtLeast(Code(lens, q), t, more);
      ShrOfShl(t, more);
    }
  }

  lemma MaskOfShl(x: nat, k: nat, m: nat)
    requires m <= k
    ensures Mask(Shl(x, k), m) == 0
  {
    ShlShl(x, k - m, m);
    ShrOfShl(Shl(x, k - m), m);
  }

  /** Alignment carries over to the next symbol. */
  lemma NextAligned(lens: seq<nat>, max: nat, tableBits: nat, c: Current, q: nat, next: nat)
    requires FittingCode(lens, max) && q < |lens| && next < |lens| && 0 < lens[q] <= lens[next] && Done(lens, next, q)
    requires Code(lens, next) == Shl(Code(lens, q) + 1, lens[next] - lens[q])
    requires if lens[q] > tableBits then c.prefix >= 0 && Top(lens, tableBits, q) == CurrentTop(c, tableBits) else c.prefix < 0
    ensures Aligned(lens, tableBits, c, next)
  {
    var d := lens[next] - lens[q];
    if lens[q] > tableBits {
      TopBound(lens, max, tableBits, q);
      TopMonotone(lens, tableBits, q, next);
      ShlMono(Code(lens, q) + 1, Shl(Top(lens, tableBits, q) + 1, lens[q] - tableBits), d);
      ShlShl(Top(lens, tableBits, q) + 1, lens[q] - tableBits, d);
    } else if lens[next] > tableBits {
      MaskOfShl(Code(lens, q) + 1, d, lens[next] - tableBits);
    }
  }
}
