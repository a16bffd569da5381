/** Two-level lookup tables for canonical Huffman codes: their meaning, and the size they need. */
module DecodeTable {
  import opened Powers
  import opened Shifts
  import opened CanonicalCode
  import opened BitReversal

  /** Set in main table entries that point to a subtable. */
  const SUBTABLE_POINTER: nat := 0x8000_0000

  /** A table entry: bits 8 and up hold the result, or a subtable's start; the low 8 bits hold the
      codeword length, or the subtable's index width. */
  function Entry(result: nat, len: nat): nat { result * 256 + len }
  function IsPointer(entry: nat): bool { entry >= SUBTABLE_POINTER }
  function EntryResult(entry: nat): nat { entry / 256 }
  function EntryLen(entry: nat): nat { entry % 256 }
  function Pointer(start: nat, bits: nat): nat { SUBTABLE_POINTER + Entry(start, bits) }
  function PointerStart(entry: nat): nat { entry / 256 % 0x1_0000 }

  lemma EntryParts(result: nat, len: nat)
    requires result < 0x80_0000 && len < 256
    ensures !IsPointer(Entry(result, len)) && EntryResult(Entry(result, len)) == result && EntryLen(Entry(result, len)) == len
  {
  }

  lemma PointerParts(start: nat, bits: nat)
    requires start < 0x1_0000 && bits < 256
    ensures IsPointer(Pointer(start, bits)) && PointerStart(Pointer(start, bits)) == start && EntryLen(Pointer(start, bits)) == bits
  {
  }

  datatype Decoded = Decoded(result: nat, len: nat)

  /** Decodes the symbol that starts at the lowest bit of x. */
  function Lookup(table: seq<nat>, tableBits: nat, x: nat): Decoded
    requires Pow2(tableBits) <= |table|
    requires var e := table[Mask(x, tableBits)];
      IsPointer(e) ==> PointerStart(e) + Mask(Shr(x, tableBits), EntryLen(e)) < |table|
  {
    var e := table[Mask(x, tableBits)];
    if IsPointer(e) then
      var sub := table[PointerStart(e) + Mask(Shr(x, tableBits), EntryLen(e))];
      Decoded(EntryResult(sub), tableBits + EntryLen(sub))
    else
      Decoded(EntryResult(e), EntryLen(e))
  }

  /** The part of a long codeword that indexes the main table, and the rest of it. */
  ghost function Top(lens: seq<nat>, tableBits: nat, s: nat): nat
    requires s < |lens| && lens[s] >= tableBits
  {
    Shr(Code(lens, s), lens[s] - tableBits)
  }

  ghost function Bottom(lens: seq<nat>, tableBits: nat, s: nat): nat
    requires s < |lens| && lens[s] >= tableBits
  {
    Mask(Code(lens, s), lens[s] - tableBits)
  }

  /** Length of the longest codeword. */
  ghost function Longest(lens: seq<nat>): (r: nat)
    ensures forall s :: 0 <= s < |lens| ==> lens[s] <= r
    ensures r > 0 ==> exists s :: 0 <= s < |lens| && lens[s] == r
  {
    if lens == [] then 0
    else
      var last, r := lens[|lens| - 1], Longest(lens[..|lens| - 1]);
      if last > r then last else r
  }

  /** The subtable e points to, which ends by end and needs no more bits than the longest codeword has,
      holds the entry value wherever the bottom bits, more in number, of a codeword lead. */
  ghost predicate InSubtable(table: seq<nat>, e: nat, tableBits: nat, more: nat, bottom: nat, value: nat, end: nat, longest: nat)
    requires end <= |table|
  {
    && tableBits + EntryLen(e) <= longest
    && IsPointer(e) && Pow2(tableBits) <= PointerStart(e) && PointerStart(e) + Pow2(EntryLen(e)) <= end
    && more <= EntryLen(e)
    && forall y :: 0 <= y < Pow2(EntryLen(e)) && Reversed(y, more) == bottom ==> table[PointerStart(e) + y] == value
  }

  /** Looking up any bits that start with the codeword of s gives its result. */
  ghost predicate Decodes(table: seq<nat>, lens: seq<nat>, results: seq<nat>, tableBits: nat, s: nat, end: nat)
    requires s < |lens| == |results| && lens[s] > 0 && Pow2(tableBits) <= |table| && end <= |table|
  {
    if lens[s] <= tableBits then
      forall i :: 0 <= i < Pow2(tableBits) && Reversed(i, lens[s]) == Code(lens, s) ==> table[i] == Entry(results[s], lens[s])
    else
      forall i :: 0 <= i < Pow2(tableBits) && Reversed(i, tableBits) == Top(lens, tableBits, s) ==>
        InSubtable(table, table[i], tableBits, lens[s] - tableBits, Bottom(lens, tableBits, s),
                   Entry(results[s], lens[s] - tableBits), end, Longest(lens))
  }

  /** The table decodes symbol s from any bits that start with its codeword. */
  lemma LookupSymbol(table: seq<nat>, lens: seq<nat>, results: seq<nat>, tableBits: nat, s: nat, end: nat, x: nat)
    requires s < |lens| == |results| && 0 < lens[s] < 256 && results[s] < 0x80_0000
    requires Pow2(tableBits) <= |table| && end <= |table| && Decodes(table, lens, results, tableBits, s, end)
    requires Reversed(x, lens[s]) == Code(lens, s)
    ensures var e := table[Mask(x, tableBits)];
      IsPointer(e) ==> PointerStart(e) + Mask(Shr(x, tableBits), EntryLen(e)) < |table| && tableBits + EntryLen(e) <= Longest(lens)
    ensures lens[s] <= tableBits ==> !IsPointer(table[Mask(x, tableBits)])
    ensures Lookup(table, tableBits, x) == Decoded(results[s], lens[s])
  {
    hide Entry, EntryLen, EntryResult, PointerStart, IsPointer, Reversed, Shr, Mask, Code;
    var i := Mask(x, tableBits);
    if lens[s] <= tableBits {
      ReversedMask(x, lens[s], tableBits);
      EntryParts(results[s], lens[s]);
    } else {
      var more := lens[s] - tableBits;
      ReversedMask(x, tableBits, tableBits);
      ReversedParts(x, tableBits, more);
      assert Reversed(i, tableBits) == Top(lens, tableBits, s);
      assert InSubtable(table, table[i], tableBits, more, Bottom(lens, tableBits, s), Entry(results[s], more), end, Longest(lens));
      ReversedMask(Shr(x, tableBits), more, EntryLen(table[i]));
      EntryParts(results[s], more);
    }
  }

  /** The code is empty: no symbol has a codeword. */
  ghost predicate EmptyCode(lens: seq<nat>) {
    forall s :: 0 <= s < |lens| ==> lens[s] == 0
  }

  /** The only codeword is a single bit. */
  ghost predicate OneBitCode(lens: seq<nat>) {
    exists s :: 0 <= s < |lens| && lens[s] == 1 && forall t :: 0 <= t < |lens| && t != s ==> lens[t] == 0
  }

  /** Index width of the subtable for main table prefix top among the first n symbols; 0 for none. */
  ghost function SubtableBits(lens: seq<nat>, tableBits: nat, top: nat, n: nat): nat
    requires n <= |lens|
  {
    if n == 0 then 0
    else
      var rest := SubtableBits(lens, tableBits, top, n - 1);
      if lens[n - 1] > tableBits && Top(lens, tableBits, n - 1) == top && lens[n - 1] - tableBits > rest
      then lens[n - 1] - tableBits else rest
  }

  ghost function SubtableSize(lens: seq<nat>, tableBits: nat, top: nat): nat {
    var bits := SubtableBits(lens, tableBits, top, |lens|);
    if bits == 0 then 0 else Pow2(bits)
  }

  /** Size of the main table and the subtables for prefixes below top. */
  ghost function SizeBelow(lens: seq<nat>, tableBits: nat, top: nat): nat {
    if top == 0 then Pow2(tableBits) else SizeBelow(lens, tableBits, top - 1) + SubtableSize(lens, tableBits, top - 1)
  }

  /** Size of the whole table: each prefix of long codewords has a subtable just wide enough for
      the longest of them. */
  ghost function TableSize(lens: seq<nat>, tableBits: nat): nat {
    SizeBelow(lens, tableBits, Pow2(tableBits))
  }

  lemma {:induction false} SubtableBitsAtLeast(lens: seq<nat>, tableBits: nat, top: nat, n: nat, s: nat)
    requires s < n <= |lens| && lens[s] > tableBits && Top(lens, tableBits, s) == top
    ensures SubtableBits(lens, tableBits, top, n) >= lens[s] - tableBits
  {
    if s < n - 1 { SubtableBitsAtLeast(lens, tableBits, top, n - 1, s); }
  }

  lemma {:induction false} SubtableBitsReached(lens: seq<nat>, tableBits: nat, top: nat, n: nat)
    returns (s: nat)
    requires n <= |lens| && SubtableBits(lens, tableBits, top, n) > 0
    ensures s < n && lens[s] > tableBits && Top(lens, tableBits, s) == top
    ensures SubtableBits(lens, tableBits, top, n) == lens[s] - tableBits
  {
    if lens[n - 1] > tableBits && Top(lens, tableBits, n - 1) == top &&
       lens[n - 1] - tableBits > SubtableBits(lens, tableBits, top, n - 1) {
      s := n - 1;
    } else {
      s := SubtableBitsReached(lens, tableBits, top, n - 1);
    }
  }

  lemma {:induction false} SizeBelowMono(lens: seq<nat>, tableBits: nat, a: nat, b: nat)
    requires a <= b
    ensures Pow2(tableBits) <= SizeBelow(lens, tableBits, a) <= SizeBelow(lens, tableBits, b)
    decreases b
  {
    if a < b {
      SizeBelowMono(lens, tableBits, a, b - 1);
    } else if a > 0 {
      SizeBelowMono(lens, tableBits, a - 1, a - 1);
    }
  }

  /** Prefixes without long codewords take no room. */
  lemma {:induction false} SizeBelowSkip(lens: seq<nat>, tableBits: nat, a: nat, b: nat)
    requires a <= b
    requires forall s :: 0 <= s < |lens| && lens[s] > tableBits ==> !(a <= Top(lens, tableBits, s) < b)
    ensures SizeBelow(lens, tableBits, a) == SizeBelow(lens, tableBits, b)
    decreases b
  {
    if a < b {
      SizeBelowSkip(lens, tableBits, a, b - 1);
      if SubtableBits(lens, tableBits, b - 1, |lens|) > 0 {
        var s := SubtableBitsReached(lens, tableBits, b - 1, |lens|);
      }
    }
  }
}
