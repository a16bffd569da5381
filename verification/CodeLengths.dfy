/** The codeword lengths of a dynamic block: reading them through the precode, and writing them. */
module CodeLengths {
  import opened Powers
  import opened Shifts
  import opened BitFields
  import opened BitReader
  import opened DecodeTable
  import opened BuildDecodeTable
  import opened BlockDecoder
  import opened PrecodeItems

  const PRECODE_TABLEBITS: nat := 7

  /** The decode result of a precode symbol is the symbol. */
  function PrecodeResults(): (r: seq<nat>)
    ensures |r| == NUM_PRECODE_SYMS && forall s :: 0 <= s < NUM_PRECODE_SYMS ==> r[s] == s
  {
    [0, 1, 2, 3, 4, 5, 6, 7, 8, 9, 10, 11, 12, 13, 14, 15, 16, 17, 18]
  }

  function ExtraBits(sym: nat): (n: nat)
    ensures n <= 7
  {
    match sym
    case 16 => 2
    case 17 => 3
    case 18 => 7
    case _ => 0
  }

  /** The precode item at pos, and where the next one starts. */
  function LengthItem(table: seq<nat>, data: seq<Byte>, pos: nat): Item {
    var d := SymbolAt(table, PRECODE_TABLEBITS, data, pos);
    Item(d.result, Field(data, pos + d.len, ExtraBits(d.result)))
  }

  function AfterItem(table: seq<nat>, data: seq<Byte>, pos: nat): nat {
    var d := SymbolAt(table, PRECODE_TABLEBITS, data, pos);
    pos + d.len + ExtraBits(d.result)
  }

  datatype LensOutcome = BadLens | Lens(lens: seq<nat>, pos: nat)

  /** Expands items until there are at least total lengths; the last run may go beyond. */
  function LensFrom(table: seq<nat>, data: seq<Byte>, pos: nat, out: seq<nat>, total: nat): LensOutcome
    decreases total - |out|
  {
    if |out| >= total then Lens(out, pos)
    else
      var item := LengthItem(table, data, pos);
      if !Applicable(out, item) then BadLens else LensFrom(table, data, AfterItem(table, data, pos), Apply(out, item), total)
  }

  /** Any bits at all decode to a symbol of the precode, whose codewords have at most seven bits. */
  ghost predicate Short(table: seq<nat>) { forall x: nat :: SomeSymbol(table, x) }

  ghost predicate SomeSymbol(table: seq<nat>, x: nat) {
    exists s: nat, len: nat :: s < NUM_PRECODE_SYMS && 0 < len <= PRECODE_TABLEBITS && LooksUp(table, PRECODE_TABLEBITS, x, s, len, MAX_CODEWORD_LEN)
  }

  lemma ShortIsTotal(table: seq<nat>)
    requires Short(table)
    ensures Total(table, PRECODE_TABLEBITS, PrecodeResults())
  {
    hide LooksUp;
    forall x: nat
      ensures SomeResult(table, PRECODE_TABLEBITS, PrecodeResults(), x)
    {
      assert SomeSymbol(table, x);
      var s: nat, len: nat :| s < NUM_PRECODE_SYMS && 0 < len <= PRECODE_TABLEBITS && LooksUp(table, PRECODE_TABLEBITS, x, s, len, MAX_CODEWORD_LEN);
      assert LooksUp(table, PRECODE_TABLEBITS, x, PrecodeResults()[s], len, MAX_CODEWORD_LEN);
    }
  }

  /** One lookup is enough. */
  lemma OneLookup(table: seq<nat>, data: seq<Byte>, pos: nat)
    requires Short(table)
    ensures Field(data, pos, PRECODE_TABLEBITS) < |table|
    ensures var e := table[Field(data, pos, PRECODE_TABLEBITS)];
      SymbolAt(table, PRECODE_TABLEBITS, data, pos) == Decoded(EntryResult(e), EntryLen(e)) && 0 < EntryLen(e) <= PRECODE_TABLEBITS
  {
    hide Field, EntryLen, EntryResult, PointerStart, IsPointer, Mask, Shr;
    var x := Field(data, pos, MAX_CODEWORD_LEN);
    FieldParts(data, pos, MAX_CODEWORD_LEN, PRECODE_TABLEBITS);
    assert SomeSymbol(table, x);
  }

  /** Any bits give a valid item. */
  lemma ItemIsValid(table: seq<nat>, data: seq<Byte>, pos: nat)
    requires Short(table)
    ensures ValidItem(LengthItem(table, data, pos))
  {
    hide Total, Short, SymbolAt, Field;
    ShortIsTotal(table);
    var s := SymbolResult(table, PRECODE_TABLEBITS, PrecodeResults(), data, pos);
    assert Pow2(0) == 1 && Pow2(2) == 4 && Pow2(3) == 8;
    assert Pow2(7) == 8 * Pow2(4) && Pow2(4) == 16;
  }

  /** Stores n cells. */
  method Store(lens: array<nat>, i: nat, n: nat, v: nat)
    requires i + n <= lens.Length
    modifies lens
    ensures lens[..i] == old(lens[..i]) && forall k :: i <= k < i + n ==> lens[k] == v
  {
    for j := 0 to n
      invariant lens[..i] == old(lens[..i]) && forall k :: i <= k < i + j ==> lens[k] == v
    {
      lens[i + j] := v;
    }
  }

  lemma StoredRun(lens: seq<nat>, out: seq<nat>, i: nat, n: nat, count: nat, v: nat)
    requires i + n <= |lens| && count <= n && |out| == i && lens[..i] == out && forall k :: i <= k < i + n ==> lens[k] == v
    ensures lens[..i + count] == out + Repeated(v, count)
  {
    var r := Repeated(v, count);
    forall k | 0 <= k < i + count
      ensures lens[k] == (out + r)[k]
    {
      if k < i { assert lens[..i][k] == lens[k]; }
    }
  }

  /** Looks up and removes the next precode symbol, with one lookup. */
  method ReadPresym(input: InputBitstream, table: seq<nat>) returns (presym: nat)
    requires input.Valid() && input.bitsleft >= PRECODE_TABLEBITS && Short(table)
    modifies input`bitbuf, input`bitsleft, input`pos
    ensures input.Valid() && presym == SymbolAt(table, PRECODE_TABLEBITS, input.data, old(input.pos)).result
    ensures var len := SymbolAt(table, PRECODE_TABLEBITS, input.data, old(input.pos)).len;
      && len <= PRECODE_TABLEBITS && input.pos == old(input.pos) + len && input.bitsleft == old(input.bitsleft) - len
  {
    hide Short, SymbolAt, EntryLen, EntryResult;
    OneLookup(table, input.data, input.pos);
    var entry := table[input.GetBits(PRECODE_TABLEBITS)];
    input.RemoveBits(EntryLen(entry));
    presym := EntryResult(entry);
  }

  ghost predicate Matches(o: LensOutcome, ok: bool, lens: seq<nat>, i: nat, pos: nat) {
    match o
    case BadLens => !ok
    case Lens(out, end) => ok && i == |out| <= |lens| && lens[..i] == out && pos == end
  }

  /** Stores the lengths of one item from i on. Short runs are stored at their greatest length, whatever their
      count: what lies beyond is overwritten later or never read. */
  method StoreItem(lens: array<nat>, i: nat, item: Item, ghost out: seq<nat>) returns (count: nat)
    requires Applicable(out, item) && |out| == i && i + MAX_LENS_OVERRUN < lens.Length && lens[..i] == out
    modifies lens
    ensures count == Count(item) && i + count <= lens.Length && lens[..i + count] == Apply(out, item)
  {
    count := Count(item);
    if item.sym < 16 {
      lens[i] := item.sym;
      StoredRun(lens[..], out, i, 1, 1, item.sym);
    } else if item.sym == 16 {
      var v := lens[i - 1];
      Store(lens, i, 6, v);
      StoredRun(lens[..], out, i, 6, count, v);
    } else if item.sym == 17 {
      Store(lens, i, 10, 0);
      StoredRun(lens[..], out, i, 10, count, 0);
    } else {
      Store(lens, i, count, 0);
      StoredRun(lens[..], out, i, count, count, 0);
    }
  }

  /** Expands the codeword lengths into the array; at most 137 cells past the wanted ones are stored. */
  method ExpandLens(input: InputBitstream, table: seq<nat>, lens: array<nat>, total: nat, wordwise: bool) returns (ok: bool, i: nat)
    requires input.Valid() && Short(table) && total + MAX_LENS_OVERRUN <= lens.Length
    modifies input`bitbuf, input`inNext, input`bitsleft, input`pos, input`overrunCount, input`overruns, lens
    ensures input.Valid() && input.Stale() == old(input.Stale()) && input.pos >= old(input.pos) && i <= total + MAX_LENS_OVERRUN
    ensures Matches(LensFrom(table, input.data, old(input.pos), [], total), ok, lens[..], i, input.pos)
  {
    hide Short, SymbolAt, Field, Apply, Applicable;
    i := 0;
    ghost var out: seq<nat> := [];
    ghost var whole := LensFrom(table, input.data, input.pos, [], total);
    while i < total
      invariant input.Valid() && input.Stale() == old(input.Stale()) && input.pos >= old(input.pos)
      invariant i == |out| <= total + MAX_LENS_OVERRUN && lens[..i] == out
      invariant LensFrom(table, input.data, input.pos, out, total) == whole
      decreases total - i
    {
      ghost var pos := input.pos;
      input.EnsureBits(PRECODE_TABLEBITS + 7, wordwise);
      ItemIsValid(table, input.data, pos);
      var presym := ReadPresym(input, table);
      var extra := PopField(input, ExtraBits(presym));
      var item := Item(presym, extra);
      if presym == 16 && i == 0 {
        NotApplicable(out, item);
        return false, i;
      }
      IsApplicable(out, item);
      var count := StoreItem(lens, i, item, out);
      ApplySize(out, item);
      out := Apply(out, item);
      i := i + count;
    }
    ok := true;
  }

  lemma NotApplicable(out: seq<nat>, item: Item)
    requires item.sym == 16 && out == []
    ensures !Applicable(out, item)
  {
  }

  lemma IsApplicable(out: seq<nat>, item: Item)
    requires ValidItem(item) && (item.sym != 16 || |out| > 0)
    ensures Applicable(out, item)
  {
  }

  lemma ApplySize(out: seq<nat>, item: Item)
    requires Applicable(out, item)
    ensures |Apply(out, item)| == |out| + Count(item) && 1 <= Count(item) <= 1 + MAX_LENS_OVERRUN
  {
  }
}
