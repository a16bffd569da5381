/** Decoding the body of a Huffman block: the specification, and the loop that refines it. */
module BlockDecoder {
  import opened Powers
  import WeightedSums
  import opened Shifts
  import opened BitFields
  import opened BitReader
  import opened CanonicalCode
  import opened TableFilling
  import opened DecodeTable
  import opened BuildDecodeTable
  import opened DeflateSymbols
  import opened MatchCopy

  const LITLEN_TABLEBITS: nat := 10
  const OFFSET_TABLEBITS: nat := 8
  /** No codeword of the format is longer. */
  const MAX_CODEWORD_LEN: nat := 15

  /** The number in the n bits at pos. */
  function Field(data: seq<Byte>, pos: nat, n: nat): (r: nat)
    ensures r < Pow2(n)
  {
    FromBits(Window(data, pos, n))
  }

  /** The lookup of these bits stays inside the table. */
  predicate Inside(table: seq<nat>, tableBits: nat, x: nat) {
    && Pow2(tableBits) <= |table|
    && (var e := table[Mask(x, tableBits)];
        IsPointer(e) ==> PointerStart(e) + Mask(Shr(x, tableBits), EntryLen(e)) < |table|)
  }

  /** The symbol that starts at pos. */
  function SymbolAt(table: seq<nat>, tableBits: nat, data: seq<Byte>, pos: nat): Decoded {
    var x := Field(data, pos, MAX_CODEWORD_LEN);
    if Inside(table, tableBits, x) then Lookup(table, tableBits, x) else Decoded(0, 1)
  }

  datatype Outcome = Done(out: seq<Byte>, pos: nat) | NoSpace | BadData

  /** After one item: the output and position to go on with, or how decoding ended. */
  datatype Next = More(out: seq<Byte>, pos: nat) | Stop(outcome: Outcome)

  /** The match whose length symbol has this result and ends at pos, or the end of the block. */
  function MatchAt(off: seq<nat>, data: seq<Byte>, pos: nat, result: nat, out: seq<Byte>, limit: nat): (r: Next)
    requires |out| <= limit
    ensures r.More? ==> |out| < |r.out| <= limit
  {
    var length := result / 256 + Field(data, pos, result % 256);
    var pos1 := pos + result % 256;
    if length == 0 then Stop(Done(out, pos1))
    else if length > limit - |out| then Stop(NoSpace)
    else
      var o := SymbolAt(off, OFFSET_TABLEBITS, data, pos1);
      var offset := o.result % 0x1_0000 + Field(data, pos1 + o.len, o.result / 0x1_0000);
      if offset == 0 || offset > |out| then Stop(BadData)
      else More(Extended(out, length, offset), pos1 + o.len + o.result / 0x1_0000)
  }

  /** The item at pos, to follow the output so far. */
  function ItemAt(lit: seq<nat>, off: seq<nat>, data: seq<Byte>, pos: nat, out: seq<Byte>, limit: nat): (r: Next)
    requires |out| <= limit
    ensures r.More? ==> |out| < |r.out| <= limit
  {
    var d := SymbolAt(lit, LITLEN_TABLEBITS, data, pos);
    if d.result < LITERAL then MatchAt(off, data, pos + d.len, d.result, out, limit)
    else if |out| == limit then Stop(NoSpace)
    else More(out + [d.result % 256], pos + d.len)
  }

  /** Decodes items from bit position pos on, to follow the output so far, until the end-of-block symbol. */
  function DecodeFrom(lit: seq<nat>, off: seq<nat>, data: seq<Byte>, pos: nat, out: seq<Byte>, limit: nat): Outcome
    requires |out| <= limit
    decreases limit - |out|
  {
    match ItemAt(lit, off, data, pos, out, limit)
    case Stop(o) => o
    case More(more, next) => DecodeFrom(lit, off, data, next, more, limit)
  }

  /** Any bits at all decode to one of the results, from at most fifteen bits. */
  ghost predicate Total(table: seq<nat>, tableBits: nat, results: seq<nat>) {
    forall x: nat :: SomeResult(table, tableBits, results, x)
  }

  ghost predicate SomeResult(table: seq<nat>, tableBits: nat, results: seq<nat>, x: nat) {
    exists s: nat, len: nat :: s < |results| && 0 < len <= MAX_CODEWORD_LEN && LooksUp(table, tableBits, x, results[s], len, MAX_CODEWORD_LEN)
  }

  /** Every table that is built is total, whatever kind of code it is for. */
  lemma BuiltIsTotal(table: seq<nat>, lens: seq<nat>, results: seq<nat>, tableBits: nat)
    requires 0 < |lens| == |results| && WeightedSums.Bounded(lens, MAX_CODEWORD_LEN)
    requires DecodesAll(table, lens, results, tableBits)
    requires CompleteCode(lens, MAX_CODEWORD_LEN) || DefaultsElsewhere(table, lens, results, tableBits)
    ensures Total(table, tableBits, results)
  {
    hide StartsWith, Longest, Lookup;
    forall x: nat
      ensures SomeResult(table, tableBits, results, x)
    {
      LongestBounded(lens, MAX_CODEWORD_LEN);
      if CompleteCode(lens, MAX_CODEWORD_LEN) {
        var s := TableIsTotal(table, lens, results, tableBits, MAX_CODEWORD_LEN, x);
        assert LooksUp(table, tableBits, x, results[s], lens[s], MAX_CODEWORD_LEN);
      } else if s: nat :| s < |lens| && lens[s] > 0 && StartsWith(lens, s, x) {
        assert LooksUp(table, tableBits, x, results[s], lens[s], MAX_CODEWORD_LEN);
      } else {
        assert LooksUp(table, tableBits, x, results[0], 1, Longest(lens));
        assert LooksUp(table, tableBits, x, results[0], 1, MAX_CODEWORD_LEN);
      }
    }
  }

  lemma LongestBounded(lens: seq<nat>, max: nat)
    requires WeightedSums.Bounded(lens, max)
    ensures Longest(lens) <= max && forall s :: 0 <= s < |lens| ==> lens[s] <= max
  {
  }

  lemma FieldParts(data: seq<Byte>, pos: nat, n: nat, k: nat)
    requires k <= n
    ensures Mask(Field(data, pos, n), k) == Field(data, pos, k) && Shr(Field(data, pos, n), k) == Field(data, pos + k, n - k)
  {
    WindowSplit(data, pos, k, n - k);
    FromBitsParts(Window(data, pos, n), k);
    assert Window(data, pos, n)[..k] == Window(data, pos, k) && Window(data, pos, n)[k..] == Window(data, pos + k, n - k);
  }

  /** What a lookup at this position reads: the main entry, and when it is a pointer the entry it leads to. */
  lemma LookupSteps(table: seq<nat>, tableBits: nat, results: seq<nat>, data: seq<Byte>, pos: nat)
    requires Total(table, tableBits, results) && tableBits <= MAX_CODEWORD_LEN
    ensures Pow2(tableBits) <= |table| && Field(data, pos, tableBits) < |table|
    ensures var e := table[Field(data, pos, tableBits)]; var d := SymbolAt(table, tableBits, data, pos);
      && 0 < d.len <= MAX_CODEWORD_LEN
      && (if IsPointer(e) then
            && tableBits + EntryLen(e) <= MAX_CODEWORD_LEN
            && PointerStart(e) + Field(data, pos + tableBits, EntryLen(e)) < |table|
            && (var sub := table[PointerStart(e) + Field(data, pos + tableBits, EntryLen(e))];
                d == Decoded(EntryResult(sub), tableBits + EntryLen(sub)))
          else d == Decoded(EntryResult(e), EntryLen(e)))
  {
    hide Field, EntryLen, EntryResult, PointerStart, IsPointer, Mask, Shr;
    var x := Field(data, pos, MAX_CODEWORD_LEN);
    FieldParts(data, pos, MAX_CODEWORD_LEN, tableBits);
    assert SomeResult(table, tableBits, results, x);
    var e := table[Mask(x, tableBits)];
    if IsPointer(e) {
      FieldParts(data, pos + tableBits, MAX_CODEWORD_LEN - tableBits, EntryLen(e));
    }
  }

  /** The result is one of the alphabet's. */
  lemma SymbolResult(table: seq<nat>, tableBits: nat, results: seq<nat>, data: seq<Byte>, pos: nat) returns (s: nat)
    requires Total(table, tableBits, results)
    ensures s < |results| && SymbolAt(table, tableBits, data, pos).result == results[s]
  {
    hide Field;
    var x := Field(data, pos, MAX_CODEWORD_LEN);
    assert SomeResult(table, tableBits, results, x);
    var r: nat, len: nat :| r < |results| && 0 < len <= MAX_CODEWORD_LEN && LooksUp(table, tableBits, x, results[r], len, MAX_CODEWORD_LEN);
    assert Inside(table, tableBits, x) && Lookup(table, tableBits, x).result == results[r];
    s := r;
  }

  /** Looks up and removes the next symbol; a long codeword takes a second lookup. */
  method ReadSymbol(input: InputBitstream, table: seq<nat>, tableBits: nat, ghost results: seq<nat>) returns (result: nat)
    requires input.Valid() && input.bitsleft >= MAX_CODEWORD_LEN && 0 < tableBits <= MAX_CODEWORD_LEN && Total(table, tableBits, results)
    modifies input`bitbuf, input`bitsleft, input`pos
    ensures input.Valid() && result == SymbolAt(table, tableBits, input.data, old(input.pos)).result
    ensures var len := SymbolAt(table, tableBits, input.data, old(input.pos)).len;
      && 0 < len <= MAX_CODEWORD_LEN && input.pos == old(input.pos) + len && input.bitsleft == old(input.bitsleft) - len
  {
    hide Total, SymbolAt, EntryLen, EntryResult, PointerStart, IsPointer;
    ghost var pos := input.pos;
    LookupSteps(table, tableBits, results, input.data, pos);
    var entry := table[input.GetBits(tableBits)];
    if IsPointer(entry) {
      input.RemoveBits(tableBits);
      entry := table[PointerStart(entry) + input.GetBits(EntryLen(entry))];
    }
    input.RemoveBits(EntryLen(entry));
    result := EntryResult(entry);
  }

  datatype Status = Success | InsufficientSpace | BadDataFound

  ghost predicate Agrees(o: Outcome, status: Status, out: seq<Byte>, pos: nat) {
    match o
    case Done(bytes, end) => status == Success && out == bytes && pos == end
    case NoSpace => status == InsufficientSpace
    case BadData => status == BadDataFound
  }

  /** A length symbol at pos: its extra bits, and the length from three on, or the end of the block. */
  lemma LengthAt(lit: seq<nat>, data: seq<Byte>, pos: nat)
    requires Total(lit, LITLEN_TABLEBITS, LitlenResults()) && SymbolAt(lit, LITLEN_TABLEBITS, data, pos).result < LITERAL
    ensures var result := SymbolAt(lit, LITLEN_TABLEBITS, data, pos).result;
      result % 256 <= 5 && (result / 256 >= 3 || (result == 0 && forall at :: Field(data, at, result % 256) == 0))
  {
    hide Total, SymbolAt, LitlenResult;
    var s := SymbolResult(lit, LITLEN_TABLEBITS, LitlenResults(), data, pos);
    LengthSymbol(s);
  }

  lemma OffsetAt(off: seq<nat>, data: seq<Byte>, pos: nat)
    requires Total(off, OFFSET_TABLEBITS, OffsetResults())
    ensures var result := SymbolAt(off, OFFSET_TABLEBITS, data, pos).result; result % 0x1_0000 >= 1 && result / 0x1_0000 <= 14
  {
    hide Total, SymbolAt, OffsetResult;
    var s := SymbolResult(off, OFFSET_TABLEBITS, OffsetResults(), data, pos);
    OffsetSymbol(s);
  }

  /** What one item does to the output and the position, or how it ends the block. */
  ghost predicate Follows(n: Next, done: bool, status: Status, out: seq<Byte>, pos: nat, before: seq<Byte>) {
    match n
    case More(more, next) => !done && out == more && pos == next
    case Stop(o) => done && Agrees(o, status, out, pos) && out == before
  }

  /** The three ways a match can go. */
  lemma MatchEnds(off: seq<nat>, data: seq<Byte>, pos: nat, result: nat, out: seq<Byte>, limit: nat)
    requires |out| <= limit
    requires var length := result / 256 + Field(data, pos, result % 256); length == 0 || length > limit - |out|
    ensures Follows(MatchAt(off, data, pos, result, out, limit), true,
                    if result / 256 + Field(data, pos, result % 256) != 0 then InsufficientSpace else Success, out, pos + result % 256, out)
  {
  }

  lemma MatchGoesOn(off: seq<nat>, data: seq<Byte>, pos: nat, result: nat, out: seq<Byte>, limit: nat, length: nat, offset: nat, end: nat)
    requires |out| <= limit && length == result / 256 + Field(data, pos, result % 256) && 0 < length <= limit - |out|
    requires var o := SymbolAt(off, OFFSET_TABLEBITS, data, pos + result % 256);
      var pos2 := pos + result % 256 + o.len;
      && end == pos2 + o.result / 0x1_0000
      && offset == o.result % 0x1_0000 + Field(data, pos2, o.result / 0x1_0000)
    requires offset >= 1
    ensures offset > |out| ==> Follows(MatchAt(off, data, pos, result, out, limit), true, BadDataFound, out, end, out)
    ensures offset <= |out| ==>
      forall before :: Follows(MatchAt(off, data, pos, result, out, limit), false, Success, Extended(out, length, offset), end, before)
  {
    hide SymbolAt, Extended, Field;
  }

  /** The bits just taken, as a field of the stream. */
  method PopField(input: InputBitstream, n: nat) returns (r: nat)
    requires input.Valid() && n <= input.bitsleft && n < WORDBITS
    modifies input`bitbuf, input`bitsleft, input`pos
    ensures input.Valid() && input.pos == old(input.pos) + n && input.bitsleft == old(input.bitsleft) - n
    ensures r == Field(input.data, old(input.pos), n)
  {
    r := input.PopBits(n);
  }

  /** A match or the end of the block, its symbol already read. */
  method DecodeMatch(input: InputBitstream, result: nat, off: seq<nat>, out: array<Byte>, outNext0: nat,
                     wordwise: bool, unalignedIsFast: bool)
    returns (done: bool, status: Status, outNext: nat)
    requires input.Valid() && outNext0 <= out.Length && Total(off, OFFSET_TABLEBITS, OffsetResults())
    requires result % 256 <= 5 && (result / 256 >= 3 || (result == 0 && forall at :: Field(input.data, at, result % 256) == 0))
    modifies input`bitbuf, input`inNext, input`bitsleft, input`pos, input`overrunCount, input`overruns, out
    ensures input.Valid() && outNext0 <= outNext <= out.Length && input.Stale() == old(input.Stale()) && input.pos >= old(input.pos)
    ensures Follows(MatchAt(off, input.data, old(input.pos), result, old(out[..outNext0]), out.Length),
                    done, status, out[..outNext], input.pos, old(out[..outNext0]))
  {
    hide Total, SymbolAt, Extended, OffsetResults, MatchAt, Follows, Field, Agrees;
    outNext, status := outNext0, Success;
    ghost var pos, before := input.pos, out[..outNext];
    input.EnsureBits(MAX_ENSURE, wordwise);
    var extra := PopField(input, result % 256);
    var length := result / 256 + extra;
    if length == 0 || length > out.Length - outNext {
      MatchEnds(off, input.data, pos, result, before, out.Length);
      return true, if length != 0 then InsufficientSpace else Success, outNext;
    }
    OffsetAt(off, input.data, input.pos);
    var entry := ReadSymbol(input, off, OFFSET_TABLEBITS, OffsetResults());
    extra := PopField(input, entry / 0x1_0000);
    var offset := entry % 0x1_0000 + extra;
    MatchGoesOn(off, input.data, pos, result, before, out.Length, length, offset, input.pos);
    if offset > outNext {
      return true, BadDataFound, outNext;
    }
    Copy(out, outNext, length, offset, unalignedIsFast);
    return false, Success, outNext + length;
  }

  method DecodeItem(input: InputBitstream, lit: seq<nat>, off: seq<nat>, out: array<Byte>, outNext0: nat,
                    wordwise: bool, unalignedIsFast: bool)
    returns (done: bool, status: Status, outNext: nat)
    requires input.Valid() && outNext0 <= out.Length
    requires Total(lit, LITLEN_TABLEBITS, LitlenResults()) && Total(off, OFFSET_TABLEBITS, OffsetResults())
    modifies input`bitbuf, input`inNext, input`bitsleft, input`pos, input`overrunCount, input`overruns, out
    ensures input.Valid() && outNext0 <= outNext <= out.Length && input.Stale() == old(input.Stale()) && input.pos >= old(input.pos)
    ensures Follows(ItemAt(lit, off, input.data, old(input.pos), old(out[..outNext0]), out.Length),
                    done, status, out[..outNext], input.pos, old(out[..outNext0]))
  {
    hide Total, SymbolAt, Field, MatchAt, OffsetResults, LitlenResults;
    ghost var pos, before := input.pos, out[..outNext0];
    input.EnsureBits(MAX_CODEWORD_LEN, wordwise);
    var entry := ReadSymbol(input, lit, LITLEN_TABLEBITS, LitlenResults());
    if entry < LITERAL {
      LengthAt(lit, input.data, pos);
      done, status, outNext := DecodeMatch(input, entry, off, out, outNext0, wordwise, unalignedIsFast);
    } else if outNext0 == out.Length {
      return true, InsufficientSpace, outNext0;
    } else {
      out[outNext0] := entry % 256;
      done, status, outNext := false, Success, outNext0 + 1;
      assert out[..outNext] == before + [entry % 256];
    }
  }

  /** Decodes the items of a block to out from outNext0 on. */
  method DecodeBlock(input: InputBitstream, lit: seq<nat>, off: seq<nat>, out: array<Byte>, outNext0: nat,
                     wordwise: bool, unalignedIsFast: bool)
    returns (status: Status, outNext: nat)
    requires input.Valid() && outNext0 <= out.Length
    requires Total(lit, LITLEN_TABLEBITS, LitlenResults()) && Total(off, OFFSET_TABLEBITS, OffsetResults())
    modifies input`bitbuf, input`inNext, input`bitsleft, input`pos, input`overrunCount, input`overruns, out
    ensures input.Valid() && outNext0 <= outNext <= out.Length && input.Stale() == old(input.Stale()) && input.pos >= old(input.pos)
    ensures Agrees(DecodeFrom(lit, off, input.data, old(input.pos), old(out[..outNext0]), out.Length), status, out[..outNext], input.pos)
  {
    hide Total, ItemAt, OffsetResults, LitlenResults;
    outNext, status := outNext0, Success;
    ghost var whole := DecodeFrom(lit, off, input.data, input.pos, out[..outNext], out.Length);
    var done := false;
    while !done
      invariant input.Valid() && outNext0 <= outNext <= out.Length && input.Stale() == old(input.Stale()) && input.pos >= old(input.pos)
      invariant if done then Agrees(whole, status, out[..outNext], input.pos)
                else DecodeFrom(lit, off, input.data, input.pos, out[..outNext], out.Length) == whole
      decreases !done, out.Length - outNext
    {
      ghost var before := outNext;
      done, status, outNext := DecodeItem(input, lit, off, out, outNext, wordwise, unalignedIsFast);
    }
  }
}
