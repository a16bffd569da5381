/** libdeflate_deflate_decompress: block after block until the flagged one. */
module Inflate {
  import opened Powers
  import Shifts
  import opened BitFields
  import opened BitReader
  import opened CanonicalCode
  import opened DecodeTable
  import opened BuildDecodeTable
  import opened DeflateSymbols
  import opened BlockItems
  import opened BlockDecoder
  import opened DeflateStream
  import opened ShortCodes
  import BlockRoundTrip
  import DynamicHeader
  import FormatNumbers
  import PrecodeItems
  import WeightedSums

  const NUM_LENS: nat := 320 + PrecodeItems.MAX_LENS_OVERRUN

  /** A table of this size is large enough for every complete code over so many symbols. */
  ghost predicate Enough(size: nat, tableBits: nat, syms: nat) {
    && Pow2(tableBits) <= size
    && forall lens: seq<nat> :: |lens| <= syms && CompleteCode(lens, DeflateStream.MAX_CODEWORD_LEN) ==> Roomy(size, lens, tableBits, DeflateStream.MAX_CODEWORD_LEN)
  }

  /** Subtables have at most as many entries as the longest codewords leave bits. */
  lemma {:induction false} SizeAtMost(lens: seq<nat>, tableBits: nat, top: nat)
    requires tableBits <= DeflateStream.MAX_CODEWORD_LEN && WeightedSums.Bounded(lens, DeflateStream.MAX_CODEWORD_LEN)
    ensures SizeBelow(lens, tableBits, top) <= Pow2(tableBits) + top * Pow2(DeflateStream.MAX_CODEWORD_LEN - tableBits)
    decreases top
  {
    if top > 0 {
      SizeAtMost(lens, tableBits, top - 1);
      BitsAtMost(lens, tableBits, top - 1, |lens|);
      Pow2Mono(SubtableBits(lens, tableBits, top - 1, |lens|), DeflateStream.MAX_CODEWORD_LEN - tableBits);
      assert top * Pow2(DeflateStream.MAX_CODEWORD_LEN - tableBits)
             == (top - 1) * Pow2(DeflateStream.MAX_CODEWORD_LEN - tableBits) + Pow2(DeflateStream.MAX_CODEWORD_LEN - tableBits);
    }
  }

  lemma {:induction false} BitsAtMost(lens: seq<nat>, tableBits: nat, top: nat, n: nat)
    requires n <= |lens| && tableBits <= DeflateStream.MAX_CODEWORD_LEN && WeightedSums.Bounded(lens, DeflateStream.MAX_CODEWORD_LEN)
    ensures SubtableBits(lens, tableBits, top, n) <= DeflateStream.MAX_CODEWORD_LEN - tableBits
  {
    hide Top;
    if n > 0 { BitsAtMost(lens, tableBits, top, n - 1); }
  }

  /** These sizes, cruder than the source's, are enough for any alphabet. */
  lemma CrudelyEnough(syms: nat)
    ensures Enough(33792, LITLEN_TABLEBITS, syms) && Enough(33024, OFFSET_TABLEBITS, syms)
  {
    hide SizeBelow, End;
    SmallPowers();
    forall lens: seq<nat> | CompleteCode(lens, DeflateStream.MAX_CODEWORD_LEN)
      ensures Roomy(33792, lens, LITLEN_TABLEBITS, DeflateStream.MAX_CODEWORD_LEN) && Roomy(33024, lens, OFFSET_TABLEBITS, DeflateStream.MAX_CODEWORD_LEN)
    {
      SizeAtMost(lens, LITLEN_TABLEBITS, Pow2(LITLEN_TABLEBITS));
      SizeAtMost(lens, OFFSET_TABLEBITS, Pow2(OFFSET_TABLEBITS));
    }
  }

  /** The decompressor's arrays. */
  datatype Work = Work(preTable: array<nat>, litTable: array<nat>, offTable: array<nat>, lens: array<nat>)

  ghost predicate GoodWork(w: Work) {
    && w.preTable.Length == 128 && w.lens.Length == NUM_LENS
    && Enough(w.litTable.Length, LITLEN_TABLEBITS, NUM_LITLEN_SYMS) && Enough(w.offTable.Length, OFFSET_TABLEBITS, NUM_OFFSET_SYMS)
    && w.preTable != w.lens && w.preTable != w.litTable && w.preTable != w.offTable && w.lens != w.litTable && w.lens != w.offTable && w.litTable != w.offTable
  }

  // ---- Tables --------------------------------------------------------------------------------

  /** Builds a table and tells whether the lengths form a usable code. */
  method BuildFor(table: array<nat>, lens: seq<nat>, results: seq<nat>, tableBits: nat) returns (ok: bool)
    requires 0 < |lens| <= |results| && 1 <= tableBits <= 16 && Enough(table.Length, tableBits, |results|)
    requires (forall s :: 0 <= s < |lens| ==> lens[s] < 16) && forall s :: 0 <= s < |results| ==> results[s] < 0x80_0000
    modifies table
    ensures ok <==> CompleteCode(lens, DeflateStream.MAX_CODEWORD_LEN) || EmptyCode(lens) || OneBitCode(lens)
    ensures ok ==> DecodesAll(table[..], lens, results[..|lens|], tableBits) && Total(table[..], tableBits, results)
  {
    hide DecodesAll, DefaultsElsewhere, Total, CompleteCode, EmptyCode, OneBitCode, Roomy, KeepsBeyond;
    Bound(lens);
    ok := BuildTable(table, lens, results[..|lens|], tableBits, DeflateStream.MAX_CODEWORD_LEN);
    if ok {
      BuiltIsTotal(table[..], lens, results[..|lens|], tableBits);
      TotalMore(table[..], tableBits, results, |lens|);
    }
  }

  lemma Bound(lens: seq<nat>)
    requires forall s :: 0 <= s < |lens| ==> lens[s] < 16
    ensures WeightedSums.Bounded(lens, DeflateStream.MAX_CODEWORD_LEN)
  {
  }

  /** What the tables of a block must be good for: its codes. */
  ghost predicate TablesOf(lens: seq<nat>, numLitlen: nat, numOffset: nat, codes: Codes) {
    && |codes.litlen| == NUM_LITLEN_SYMS && |codes.offset| == NUM_OFFSET_SYMS && numLitlen + numOffset <= |lens|
    && UnusedFrom(codes.litlen, numLitlen) && UnusedFrom(codes.offset, numOffset)
    && lens[..numLitlen] == codes.litlen[..numLitlen] && lens[numLitlen..numLitlen + numOffset] == codes.offset[..numOffset]
    && Sendable(codes.litlen) && Sendable(codes.offset)
  }

  lemma SendableFits(lens: seq<nat>)
    requires Sendable(lens)
    ensures FittingCode(lens, DeflateStream.MAX_CODEWORD_LEN)
  {
  }

  /** What the decoder accepts. */
  ghost predicate Accepted(lens: seq<nat>) { CompleteCode(lens, DeflateStream.MAX_CODEWORD_LEN) || EmptyCode(lens) || OneBitCode(lens) }

  /** Builds both tables. */
  method BuildTables(w: Work, numLitlen: nat, numOffset: nat, ghost codes: Codes) returns (ok: bool)
    requires GoodWork(w) && 257 <= numLitlen <= NUM_LITLEN_SYMS && 1 <= numOffset <= NUM_OFFSET_SYMS
    requires forall s :: 0 <= s < numLitlen + numOffset ==> w.lens[s] < 16
    modifies w.litTable, w.offTable
    ensures ok ==> Total(w.litTable[..], LITLEN_TABLEBITS, LitlenResults()) && Total(w.offTable[..], OFFSET_TABLEBITS, OffsetResults())
    ensures ok <==> Accepted(w.lens[..numLitlen]) && Accepted(w.lens[numLitlen..numLitlen + numOffset])
    ensures TablesOf(old(w.lens[..]), numLitlen, numOffset, codes) ==> ok && BlockRoundTrip.TablesFor(codes, w.litTable[..], w.offTable[..])
  {
    hide DecodesAll, Total, CompleteCode, EmptyCode, OneBitCode, Enough, LitlenResults, OffsetResults, FittingCode;
    var litLens, offLens := w.lens[..numLitlen], w.lens[numLitlen..numLitlen + numOffset];
    SmallResults();
    ok := BuildFor(w.offTable, offLens, OffsetResults(), OFFSET_TABLEBITS);
    if ok { ok := BuildFor(w.litTable, litLens, LitlenResults(), LITLEN_TABLEBITS); }
    if TablesOf(old(w.lens[..]), numLitlen, numOffset, codes) {
      SameKind(codes.litlen, numLitlen, DeflateStream.MAX_CODEWORD_LEN);
      SameKind(codes.offset, numOffset, DeflateStream.MAX_CODEWORD_LEN);
      SameDecoding(w.litTable[..], codes.litlen, LitlenResults(), LITLEN_TABLEBITS, numLitlen);
      SameDecoding(w.offTable[..], codes.offset, OffsetResults(), OFFSET_TABLEBITS, numOffset);
      SendableFits(codes.offset);
      SendableFits(codes.litlen);
    }
  }

  lemma SmallResults()
    ensures |LitlenResults()| == NUM_LITLEN_SYMS && forall s :: 0 <= s < NUM_LITLEN_SYMS ==> LitlenResults()[s] < 0x80_0000
    ensures |OffsetResults()| == NUM_OFFSET_SYMS && forall s :: 0 <= s < NUM_OFFSET_SYMS ==> OffsetResults()[s] < 0x80_0000
  {
    hide LitlenResult, OffsetResult;
  }

  // ---- The static codes ----------------------------------------------------------------------

  /** A stretch of equal lengths. */
  /** Lengths with no codeword beyond len leave a complete code complete. */
  lemma {:induction false} StaysComplete(lens: seq<nat>, len: nat, more: nat)
    requires 1 <= len <= more && End(lens, len) == Pow2(len) && forall l :: l > len ==> WeightedSums.Count(lens, l) == 0
    ensures End(lens, more) == Pow2(more)
    decreases more
  {
    if more > len { StaysComplete(lens, len, more - 1); }
  }

  lemma StaticIsComplete()
    ensures CompleteCode(StaticCodes().litlen, DeflateStream.MAX_CODEWORD_LEN) && CompleteCode(StaticCodes().offset, DeflateStream.MAX_CODEWORD_LEN)
  {
    hide WeightedSums.Count, StaticLitlen, End, Pow2;
    StaticLitlenEnds();
    StaticOffsetEnds();
    StaticBounds();
  }

  lemma StaticBounds()
    ensures WeightedSums.Bounded(StaticCodes().litlen, DeflateStream.MAX_CODEWORD_LEN) && WeightedSums.Bounded(StaticCodes().offset, DeflateStream.MAX_CODEWORD_LEN)
  {
  }

  lemma StaticLitlenEnds()
    ensures End(StaticCodes().litlen, 15) == Pow2(15)
  {
    hide WeightedSums.Count, StaticCodes, Pow2;
    var l := StaticCodes().litlen;
    forall len ensures WeightedSums.Count(l, len) == if len == 7 then 24 else if len == 8 then 152 else if len == 9 then 112 else 0 { FormatNumbers.StaticCount(len); }
    assert End(l, 1) == 0 && End(l, 2) == 0 && End(l, 3) == 0 && End(l, 4) == 0 && End(l, 5) == 0 && End(l, 6) == 0;
    assert End(l, 7) == 24 && End(l, 8) == 200 && End(l, 9) == 512;
    SmallPowers();
    StaysComplete(l, 9, 15);
  }

  lemma StaticOffsetEnds()
    ensures End(StaticCodes().offset, 15) == Pow2(15)
  {
    hide WeightedSums.Count, StaticCodes, Pow2;
    var l := StaticCodes().offset;
    forall len ensures WeightedSums.Count(l, len) == if len == 5 then 32 else 0 { FormatNumbers.CountEqual(l, 5, len); }
    assert End(l, 1) == 0 && End(l, 2) == 0 && End(l, 3) == 0 && End(l, 4) == 0 && End(l, 5) == 32;
    SmallPowers();
    StaysComplete(l, 5, 15);
  }

  /** The static lengths, stored as those of a dynamic block are. */
  method StaticLens(w: Work)
    requires GoodWork(w)
    modifies w.lens
    ensures TablesOf(w.lens[..], NUM_LITLEN_SYMS, NUM_OFFSET_SYMS, StaticCodes())
    ensures forall s :: 0 <= s < NUM_LITLEN_SYMS + NUM_OFFSET_SYMS ==> w.lens[s] < 16
  {
    hide Enough, CompleteCode;
    for i := 0 to 288
      invariant forall s :: 0 <= s < i ==> w.lens[s] == StaticLitlen(s)
    {
      w.lens[i] := if i < 144 then 8 else if i < 256 then 9 else if i < 280 then 7 else 8;
    }
    for i := 288 to 320
      invariant forall s :: 0 <= s < 288 ==> w.lens[s] == StaticLitlen(s)
      invariant forall s :: 288 <= s < i ==> w.lens[s] == 5
    {
      w.lens[i] := 5;
    }
    StaticIsComplete();
    var c := StaticCodes();
    assert w.lens[..288] == c.litlen[..288] && w.lens[288..288 + 32] == c.offset[..32];
  }

  // ---- Blocks in a stream --------------------------------------------------------------------

  /** The bits of the block stand at this position of the input, and there is room for its output. */
  ghost predicate AtBlock(b: DeflateStream.Block, data: seq<Byte>, pos: nat, out: seq<Byte>, limit: nat) {
    && Good(b, |out|) && |out| <= limit && pos + |BitsOf(b, pos, |out|)| <= 8 * |data|
    && DynamicHeader.Holds(data, pos, BitsOf(b, pos, |out|))
  }

  /** The flag and the kind of the block, and where the rest of it stands. */
  lemma StartIsRead(b: DeflateStream.Block, data: seq<Byte>, pos: nat, out: seq<Byte>, limit: nat)
    requires AtBlock(b, data, pos, out, limit)
    ensures Field(data, pos, 1) == One(b.last) && Field(data, pos + 1, 2) == Kind(b)
    ensures Good(b, |out|) && DynamicHeader.Holds(data, pos + 3, Rest(b, pos, |out|))
  {
    hide DynamicHeader.Holds, ToBits, Good, Rest, Output;
    DynamicHeader.HoldsBoth(data, pos, StartBits(b), Rest(b, pos, |out|));
    DynamicHeader.HoldsBoth(data, pos, ToBits(One(b.last), 1), ToBits(Kind(b), 2));
    SmallPowers();
    DynamicHeader.HoldsField(data, pos, One(b.last), 1);
    DynamicHeader.HoldsField(data, pos + 1, Kind(b), 2);
  }

  /** Past the end of the input there are only zeros. */
  lemma NothingAfterEnd(data: seq<Byte>, pos: nat, n: nat)
    requires pos >= 8 * |data|
    ensures Field(data, pos, n) == 0
  {
    var w := Window(data, pos, n);
    forall i | 0 <= i < n ensures !w[i] {}
    AllFalse(w);
  }

  lemma {:induction false} AllFalse(w: Bits)
    requires forall i :: 0 <= i < |w| ==> !w[i]
    ensures FromBits(w) == 0
  {
    if w != [] { AllFalse(w[1..]); }
  }

  // ---- Stored blocks -------------------------------------------------------------------------

  /** Whole bytes at a whole byte. */
  lemma BytesAt(data: seq<Byte>, at: nat, bytes: seq<Byte>)
    requires DynamicHeader.Holds(data, 8 * at, Window(bytes, 0, 8 * |bytes|)) && at + |bytes| <= |data|
    ensures data[at..at + |bytes|] == bytes
  {
    forall i | 0 <= i < |bytes|
      ensures data[at + i] == bytes[i]
    {
      var v, w := Window(data, 8 * (at + i), 8), Window(bytes, 8 * i, 8);
      forall j | 0 <= j < 8
        ensures v[j] == w[j]
      {
        assert Window(data, 8 * at, 8 * |bytes|)[8 * i + j] == Window(bytes, 0, 8 * |bytes|)[8 * i + j];
      }
      SameByte(data, at + i, bytes, i);
    }
  }

  lemma SameByte(a: seq<Byte>, i: nat, b: seq<Byte>, k: nat)
    requires i < |a| && k < |b| && Window(a, 8 * i, 8) == Window(b, 8 * k, 8)
    ensures a[i] == b[k]
  {
    var x, y := ToBits(a[i], 8), ToBits(b[k], 8);
    forall j | 0 <= j < 8
      ensures x[j] == y[j]
    {
      ToBitsAt(a[i], 8, j);
      ToBitsAt(b[k], 8, j);
      assert Window(a, 8 * i, 8)[j] == Window(b, 8 * k, 8)[j];
    }
    assert x == y;
    FieldRoundTrip(a[i], 8);
    FieldRoundTrip(b[k], 8);
    Shifts.BelowMask(a[i], 8);
    Shifts.BelowMask(b[k], 8);
    SmallPowers();
  }

  /** The stored block's fields and bytes, after the padding. */
  lemma StoredIsRead(b: DeflateStream.Block, data: seq<Byte>, pos: nat, out: seq<Byte>, limit: nat)
    requires AtBlock(b, data, pos, out, limit) && b.Stored?
    ensures Good(b, |out|)
    ensures var at := (pos + 3 + 7) / 8;
      && 8 * at == pos + 3 + Padding(pos) && at + 4 + |b.data| <= |data| && StoredHeader(data, at) == |b.data|
      && data[at + 4..at + 4 + |b.data|] == b.data && pos + |BitsOf(b, pos, |out|)| == 8 * (at + 4 + |b.data|)
  {
    hide DynamicHeader.Holds, ToBits, Window;
    StartIsRead(b, data, pos, out, limit);
    var bytes, pad := LengthFields(|b.data|) + b.data, Padding(pos);
    var at := (pos + 3 + 7) / 8;
    PaddedTo(pos);
    DynamicHeader.HoldsBoth(data, pos + 3, ToBits(0, pad), Window(bytes, 0, 8 * |bytes|));
    BytesAt(data, at, bytes);
    var got := data[at..at + |bytes|];
    assert data[at] == got[0] && data[at + 1] == got[1] && data[at + 2] == got[2] && data[at + 3] == got[3];
    assert data[at + 4..at + |bytes|] == got[4..];
    FieldsRead(data, at, |b.data|);
  }

  lemma PaddedTo(pos: nat)
    ensures 8 * ((pos + 3 + 7) / 8) == pos + 3 + Padding(pos)
  {
  }

  lemma FieldsRead(data: seq<Byte>, at: nat, len: nat)
    requires at + 4 <= |data| && len <= UINT16_MAX
    requires data[at] == len % 256 && data[at + 1] == len / 256 && data[at + 2] == (UINT16_MAX - len) % 256 && data[at + 3] == (UINT16_MAX - len) / 256
    ensures StoredHeader(data, at) == len
  {
  }

  /** memcpy from the input. */
  method CopyStored(data: seq<Byte>, at: nat, len: nat, out: array<Byte>, outNext: nat)
    requires at + len <= |data| && outNext + len <= out.Length
    modifies out
    ensures out[..outNext + len] == old(out[..outNext]) + data[at..at + len]
  {
    for i := 0 to len
      invariant out[..outNext + i] == old(out[..outNext]) + data[at..at + i]
    {
      out[outNext + i] := data[at + i];
      assert out[..outNext + i + 1] == out[..outNext + i] + [out[outNext + i]] && data[at..at + i + 1] == data[at..at + i] + [data[at + i]];
    }
  }

  /** A stored block, after its start. */
  method ReadStored(input: InputBitstream, out: array<Byte>, outNext0: nat, ghost b: DeflateStream.Block, ghost start: nat)
    returns (status: Status, outNext: nat)
    requires input.BetweenBlocks() && outNext0 <= out.Length && input.pos == start + 3
    modifies input`bitbuf, input`bitsleft, input`pos, input`overruns, input`inNext, out
    ensures outNext0 <= outNext <= out.Length
    ensures status == Success ==> input.BetweenBlocks() && input.pos > start && start < 8 * |input.data|
    ensures StoredHeader(input.data, old(input.NextByte())) < 0 ==> status == BadDataFound
    ensures StoredHeader(input.data, old(input.NextByte())) > out.Length - outNext0 ==> status == InsufficientSpace
    ensures b.Stored? && AtBlock(b, input.data, start, old(out[..outNext0]), out.Length) ==>
      && Good(b, outNext0)
      && if |Output(b, old(out[..outNext0]))| > out.Length then status == InsufficientSpace
         else status == Success && out[..outNext] == Output(b, old(out[..outNext0])) && input.pos == start + |BitsOf(b, start, outNext0)|
  {
    hide AtBlock, BitsOf, Good, InputBitstream.Valid, StoredHeader;
    ghost var at := input.NextByte();
    if b.Stored? && AtBlock(b, input.data, start, old(out[..outNext0]), out.Length) {
      StoredIsRead(b, input.data, start, old(out[..outNext0]), out.Length);
    }
    NoHeaderAtEnd(input.data, start, at);
    var ok, len := input.ReadStoredHeader();
    if !ok { return BadDataFound, outNext0; }
    if len > out.Length - outNext0 { return InsufficientSpace, outNext0; }
    if len > |input.data| - input.inNext { return BadDataFound, outNext0; }
    CopyStored(input.data, input.inNext, len, out, outNext0);
    SkipBytes(input, len);
    return Success, outNext0 + len;
  }

  lemma NoHeaderAtEnd(data: seq<Byte>, start: nat, at: nat)
    requires at == if (start + 3 + 7) / 8 <= |data| then (start + 3 + 7) / 8 else |data|
    ensures StoredHeader(data, at) >= 0 ==> start < 8 * |data|
  {
  }

  /** in_next += len */
  method SkipBytes(input: InputBitstream, len: nat)
    requires input.BetweenBlocks() && input.Aligned() && input.inNext + len <= |input.data|
    modifies input`inNext, input`pos
    ensures input.BetweenBlocks() && input.Aligned() && input.inNext == old(input.inNext) + len && input.pos == old(input.pos) + 8 * len
  {
    input.inNext, input.pos := input.inNext + len, input.pos + 8 * len;
  }

  // ---- Huffman blocks ------------------------------------------------------------------------

  /** The body of a block stands at this position, for codes whose lengths are stored in lens. */
  ghost predicate AtBody(lens: seq<nat>, numLitlen: nat, numOffset: nat, codes: Codes, items: seq<Item>, data: seq<Byte>, pos: nat, out: seq<Byte>, limit: nat) {
    && TablesOf(lens, numLitlen, numOffset, codes) && GoodBody(codes, items, |out|) && |out| <= limit
    && DynamicHeader.Holds(data, pos, BlockBits(codes, items, |out|))
  }

  lemma BodyInflates(w: Work, lens: seq<nat>, numLitlen: nat, numOffset: nat, codes: Codes, items: seq<Item>, data: seq<Byte>, pos: nat, out: seq<Byte>, limit: nat,
                     lit: seq<nat>, off: seq<nat>)
    requires AtBody(lens, numLitlen, numOffset, codes, items, data, pos, out, limit) && BlockRoundTrip.TablesFor(codes, lit, off)
    ensures |codes.litlen| == NUM_LITLEN_SYMS && |codes.offset| == NUM_OFFSET_SYMS && ValidItems(items, |out|) && |out| <= limit
    ensures DecodeFrom(lit, off, data, pos, out, limit) ==
      if |Expand(out, items)| <= limit then Done(Expand(out, items), pos + |BlockBits(codes, items, |out|)|) else NoSpace
  {
    hide TablesOf, BlockRoundTrip.TablesFor, BlockBits, DecodeFrom, AllEncodable, Window;
    BlockRoundTrip.DecodeUndoesEncode(codes, lit, off, data, pos, items, out, limit);
  }

  /** The body of a block whose lengths have been read or stored. */
  method ReadBody(input: InputBitstream, w: Work, numLitlen: nat, numOffset: nat, out: array<Byte>, outNext0: nat, wordwise: bool, unalignedIsFast: bool,
                  ghost codes: Codes, ghost items: seq<Item>)
    returns (status: Status, outNext: nat)
    requires input.Valid() && GoodWork(w) && 257 <= numLitlen <= NUM_LITLEN_SYMS && 1 <= numOffset <= NUM_OFFSET_SYMS && outNext0 <= out.Length
    requires forall s :: 0 <= s < numLitlen + numOffset ==> w.lens[s] < 16
    requires out as object != w.litTable && out as object != w.offTable && out as object != w.lens
    modifies input`bitbuf, input`inNext, input`bitsleft, input`pos, input`overrunCount, input`overruns, out, w.litTable, w.offTable
    ensures input.Valid() && input.Stale() == old(input.Stale()) && input.pos >= old(input.pos) && outNext0 <= outNext <= out.Length
    ensures !(Accepted(old(w.lens[..numLitlen])) && Accepted(old(w.lens[numLitlen..numLitlen + numOffset]))) ==> status == BadDataFound
    ensures AtBody(old(w.lens[..]), numLitlen, numOffset, codes, items, input.data, old(input.pos), old(out[..outNext0]), out.Length) ==>
      && |codes.litlen| == NUM_LITLEN_SYMS && |codes.offset| == NUM_OFFSET_SYMS && ValidItems(items, outNext0)
      && if |Expand(old(out[..outNext0]), items)| > out.Length then status == InsufficientSpace
         else status == Success && out[..outNext] == Expand(old(out[..outNext0]), items) && input.pos == old(input.pos) + |BlockBits(codes, items, outNext0)|
  {
    hide Accepted, AtBody, InputBitstream.Valid, Total, Enough, BlockRoundTrip.TablesFor, TablesOf, DecodeFrom, BlockBits, LitlenResults, OffsetResults;
    ghost var lens, before, pos := w.lens[..], out[..outNext0], input.pos;
    if AtBody(lens, numLitlen, numOffset, codes, items, input.data, pos, before, out.Length) {
      BodyTables(lens, numLitlen, numOffset, codes, items, input.data, pos, before, out.Length);
    }
    var ok := BuildTables(w, numLitlen, numOffset, codes);
    if !ok { return BadDataFound, outNext0; }
    assert out[..outNext0] == before;
    if AtBody(lens, numLitlen, numOffset, codes, items, input.data, pos, before, out.Length) {
      BodyInflates(w, lens, numLitlen, numOffset, codes, items, input.data, pos, before, out.Length, w.litTable[..], w.offTable[..]);
    }
    status, outNext := DecodeBlock(input, w.litTable[..], w.offTable[..], out, outNext0, wordwise, unalignedIsFast);
  }

  lemma BodyTables(lens: seq<nat>, numLitlen: nat, numOffset: nat, codes: Codes, items: seq<Item>, data: seq<Byte>, pos: nat, out: seq<Byte>, limit: nat)
    requires AtBody(lens, numLitlen, numOffset, codes, items, data, pos, out, limit)
    ensures TablesOf(lens, numLitlen, numOffset, codes) && |codes.litlen| == NUM_LITLEN_SYMS && |codes.offset| == NUM_OFFSET_SYMS && ValidItems(items, |out|)
  {
  }

  /** The header and the body of a dynamic block. */
  lemma DynamicIsRead(b: DeflateStream.Block, data: seq<Byte>, pos: nat, out: seq<Byte>, limit: nat)
    requires AtBlock(b, data, pos, out, limit) && b.Dynamic?
    ensures DynamicHeader.AtHeader(data, pos + 3, b.h) && Good(b, |out|) && HeaderOf(b.h, b.codes)
    ensures 257 <= b.h.numLitlen && 1 <= b.h.numOffset && 4 <= b.h.numExplicit <= |b.h.preLens| == PrecodeItems.NUM_PRECODE_SYMS
    ensures forall k :: 0 <= k < |b.h.items| ==> PrecodeItems.ValidItem(b.h.items[k])
    ensures |b.codes.litlen| == NUM_LITLEN_SYMS && |b.codes.offset| == NUM_OFFSET_SYMS && ValidItems(b.items, |out|)
    ensures |BitsOf(b, pos, |out|)| == 3 + |DynamicHeader.HeaderBits(b.h)| + |BlockBits(b.codes, b.items, |out|)|
    ensures DynamicHeader.Holds(data, pos + 3 + |DynamicHeader.HeaderBits(b.h)|, BlockBits(b.codes, b.items, |out|))
  {
    hide DynamicHeader.Holds, ToBits, DynamicHeader.HeaderBits, BlockBits, PrecodeItems.Run, CompleteCode, AllEncodable, ValidItems, DynamicHeader.AllEncodable;
    StartIsRead(b, data, pos, out, limit);
    DynamicHeader.HeaderShape(b.h);
    DynamicHeader.HoldsBoth(data, pos + 3, DynamicHeader.HeaderBits(b.h), BlockBits(b.codes, b.items, |out|));
  }

  lemma DynamicBody(b: DeflateStream.Block, data: seq<Byte>, pos: nat, out: seq<Byte>, limit: nat, lens: seq<nat>)
    requires AtBlock(b, data, pos, out, limit) && b.Dynamic? && |lens| >= b.h.numLitlen + b.h.numOffset
    requires DynamicHeader.GoodHeader(b.h) && lens[..b.h.numLitlen + b.h.numOffset] == PrecodeItems.Run(b.h.items)
    ensures 257 <= b.h.numLitlen && 1 <= b.h.numOffset && 4 <= b.h.numExplicit <= |b.h.preLens| == PrecodeItems.NUM_PRECODE_SYMS
    ensures forall k :: 0 <= k < |b.h.items| ==> PrecodeItems.ValidItem(b.h.items[k])
    ensures AtBody(lens, b.h.numLitlen, b.h.numOffset, b.codes, b.items, data, pos + 3 + |DynamicHeader.HeaderBits(b.h)|, out, limit)
  {
    hide DynamicHeader.Holds, ToBits, DynamicHeader.HeaderBits, BlockBits, PrecodeItems.Run, CompleteCode, AllEncodable, ValidItems, BitsOf, Expand;
    DynamicIsRead(b, data, pos, out, limit);
    var n, m := b.h.numLitlen, b.h.numOffset;
    var both := b.codes.litlen[..n] + b.codes.offset[..m];
    assert lens[..n] == lens[..n + m][..n] && both[..n] == b.codes.litlen[..n];
    assert lens[n..n + m] == lens[..n + m][n..] && both[n..] == b.codes.offset[..m];
  }

  /** The body of a block with the static codes. */
  lemma FixedBody(b: DeflateStream.Block, data: seq<Byte>, pos: nat, out: seq<Byte>, limit: nat, lens: seq<nat>)
    requires AtBlock(b, data, pos, out, limit) && b.Fixed? && TablesOf(lens, NUM_LITLEN_SYMS, NUM_OFFSET_SYMS, StaticCodes())
    ensures Good(b, |out|) && |BitsOf(b, pos, |out|)| == 3 + |BlockBits(StaticCodes(), b.items, |out|)|
    ensures AtBody(lens, NUM_LITLEN_SYMS, NUM_OFFSET_SYMS, StaticCodes(), b.items, data, pos + 3, out, limit)
  {
    hide DynamicHeader.Holds, ToBits, BlockBits, AllEncodable, ValidItems, TablesOf, Expand;
    StartIsRead(b, data, pos, out, limit);
  }

  lemma HeaderEnds(h: DynamicHeader.Header, codes: Codes)
    requires HeaderOf(h, codes)
    ensures DynamicHeader.GoodHeader(h)
  {
  }

  function NoHeader(): DynamicHeader.Header { DynamicHeader.Header(0, 0, 0, [], []) }

  /** A block with codes of its own, after its start. */
  method ReadDynamic(input: InputBitstream, w: Work, out: array<Byte>, outNext0: nat, wordwise: bool, unalignedIsFast: bool,
                     ghost b: DeflateStream.Block, ghost start: nat)
    returns (status: Status, outNext: nat)
    requires input.Valid() && input.bitsleft >= 14 && input.pos == start + 3 && GoodWork(w) && outNext0 <= out.Length
    requires out as object != w.litTable && out as object != w.offTable && out as object != w.lens && out as object != w.preTable
    modifies input`bitbuf, input`inNext, input`bitsleft, input`pos, input`overrunCount, input`overruns, out, w.litTable, w.offTable, w.preTable, w.lens
    ensures input.Valid() && input.Stale() == old(input.Stale()) && input.pos >= old(input.pos) && outNext0 <= outNext <= out.Length
    ensures b.Dynamic? && AtBlock(b, input.data, start, old(out[..outNext0]), out.Length) ==>
      && Good(b, outNext0)
      && if |Output(b, old(out[..outNext0]))| > out.Length then status == InsufficientSpace
         else status == Success && out[..outNext] == Output(b, old(out[..outNext0])) && input.pos == start + |BitsOf(b, start, outNext0)|
  {
    hide Accepted, Expand, DynamicHeader.GoodHeader, HeaderOf, AtBlock, AtBody, InputBitstream.Valid, Enough, BitsOf, BlockBits, DynamicHeader.HeaderBits, DynamicHeader.AtHeader, PrecodeItems.Run, Good;
    ghost var before, at := out[..outNext0], b.Dynamic? && AtBlock(b, input.data, start, out[..outNext0], out.Length);
    ghost var h := if b.Dynamic? then b.h else NoHeader();
    ghost var codes, items := if b.Dynamic? then b.codes else StaticCodes(), if b.Dynamic? then b.items else [];
    if at {
      DynamicIsRead(b, input.data, start, before, out.Length);
      HeaderEnds(b.h, b.codes);
    }
    var ok, numLitlen, numOffset := DynamicHeader.ReadHeader(input, w.preTable, w.lens, wordwise, h);
    if !ok { return BadDataFound, outNext0; }
    assert out[..outNext0] == before;
    if at { DynamicBody(b, input.data, start, before, out.Length, w.lens[..]); }
    status, outNext := ReadBody(input, w, numLitlen, numOffset, out, outNext0, wordwise, unalignedIsFast, codes, items);
  }

  /** A block with the static codes, after its start. */
  method ReadFixed(input: InputBitstream, w: Work, out: array<Byte>, outNext0: nat, wordwise: bool, unalignedIsFast: bool,
                   ghost b: DeflateStream.Block, ghost start: nat)
    returns (status: Status, outNext: nat)
    requires input.Valid() && input.pos == start + 3 && GoodWork(w) && outNext0 <= out.Length
    requires out as object != w.litTable && out as object != w.offTable && out as object != w.lens && out as object != w.preTable
    modifies input`bitbuf, input`inNext, input`bitsleft, input`pos, input`overrunCount, input`overruns, out, w.litTable, w.offTable, w.preTable, w.lens
    ensures input.Valid() && input.Stale() == old(input.Stale()) && input.pos >= old(input.pos) && outNext0 <= outNext <= out.Length
    ensures b.Fixed? && AtBlock(b, input.data, start, old(out[..outNext0]), out.Length) ==>
      && Good(b, outNext0)
      && if |Output(b, old(out[..outNext0]))| > out.Length then status == InsufficientSpace
         else status == Success && out[..outNext] == Output(b, old(out[..outNext0])) && input.pos == start + |BitsOf(b, start, outNext0)|
  {
    hide Accepted, Expand, AtBlock, AtBody, InputBitstream.Valid, Enough, BitsOf, BlockBits, Good, TablesOf, StaticCodes;
    ghost var before, at := out[..outNext0], b.Fixed? && AtBlock(b, input.data, start, out[..outNext0], out.Length);
    ghost var items := if b.Fixed? then b.items else [];
    StaticLens(w);
    assert out[..outNext0] == before;
    if at { FixedBody(b, input.data, start, before, out.Length, w.lens[..]); }
    status, outNext := ReadBody(input, w, NUM_LITLEN_SYMS, NUM_OFFSET_SYMS, out, outNext0, wordwise, unalignedIsFast, StaticCodes(), items);
  }

  // ---- All blocks ----------------------------------------------------------------------------

  /** The flag and the kind of a block; past the end of the input the kind is that of a stored one. */
  method ReadStart(input: InputBitstream, wordwise: bool) returns (last: bool, kind: nat)
    requires input.BetweenBlocks()
    modifies input`bitbuf, input`inNext, input`bitsleft, input`pos, input`overrunCount, input`overruns
    ensures input.BetweenBlocks() && input.pos == old(input.pos) + 3 && input.bitsleft >= 14
    ensures last == (Field(input.data, old(input.pos), 1) == 1) && kind == Field(input.data, old(input.pos) + 1, 2)
    ensures old(input.pos) >= 8 * |input.data| ==> kind == UNCOMPRESSED
  {
    hide InputBitstream.Valid, Field, Pow2;
    if input.pos >= 8 * |input.data| { NothingAfterEnd(input.data, input.pos + 1, 2); }
    input.EnsureBits(17, wordwise);
    var flag := PopField(input, 1);
    kind := PopField(input, 2);
    last := flag == 1;
  }

  lemma KindIsRead(b: DeflateStream.Block, data: seq<Byte>, pos: nat, out: seq<Byte>, limit: nat)
    requires AtBlock(b, data, pos, out, limit)
    ensures Good(b, |out|) && b.last == (Field(data, pos, 1) == 1)
    ensures Field(data, pos + 1, 2) == if b.Stored? then UNCOMPRESSED else if b.Fixed? then STATIC_HUFFMAN else DYNAMIC_HUFFMAN
  {
    hide AtBlock, Good, Field;
    StartIsRead(b, data, pos, out, limit);
  }

  /** One block. Whatever the input, a block that is read starts before the end of the input and takes some of its bits. */
  method ReadBlock(input: InputBitstream, w: Work, out: array<Byte>, outNext0: nat, wordwise: bool, unalignedIsFast: bool, ghost b: DeflateStream.Block)
    returns (status: Status, last: bool, outNext: nat)
    requires input.BetweenBlocks() && GoodWork(w) && outNext0 <= out.Length
    requires out as object != w.litTable && out as object != w.offTable && out as object != w.lens && out as object != w.preTable
    modifies input`bitbuf, input`inNext, input`bitsleft, input`pos, input`overrunCount, input`overruns, out, w.litTable, w.offTable, w.preTable, w.lens
    ensures outNext0 <= outNext <= out.Length
    ensures status == Success ==> input.BetweenBlocks() && input.pos > old(input.pos) && old(input.pos) < 8 * |input.data|
    ensures AtBlock(b, input.data, old(input.pos), old(out[..outNext0]), out.Length) ==>
      && Good(b, outNext0) && last == b.last
      && if |Output(b, old(out[..outNext0]))| > out.Length then status == InsufficientSpace
         else status == Success && out[..outNext] == Output(b, old(out[..outNext0])) && input.pos == old(input.pos) + |BitsOf(b, old(input.pos), outNext0)|
    ensures AtBlock(b, input.data, old(input.pos), old(out[..outNext0]), out.Length) ==>
      Field(input.data, old(input.pos) + 1, 2) == if b.Stored? then 0 else if b.Fixed? then 1 else 2
    ensures Field(input.data, old(input.pos) + 1, 2) == 3 ==> status == BadDataFound
  {
    hide AtBlock, InputBitstream.Valid, GoodWork, BitsOf, Good, Output, Field, Pow2, Kind;
    ghost var start, at := input.pos, AtBlock(b, input.data, input.pos, out[..outNext0], out.Length);
    if at { KindIsRead(b, input.data, start, out[..outNext0], out.Length); }
    var kind;
    last, kind := ReadStart(input, wordwise);
    if kind == UNCOMPRESSED {
      status, outNext := ReadStored(input, out, outNext0, b, start);
    } else if kind == DYNAMIC_HUFFMAN {
      status, outNext := ReadDynamic(input, w, out, outNext0, wordwise, unalignedIsFast, b, start);
    } else if kind == STATIC_HUFFMAN {
      status, outNext := ReadFixed(input, w, out, outNext0, wordwise, unalignedIsFast, b, start);
    } else {
      return BadDataFound, last, outNext0;
    }
  }

  datatype Result = Decompressed(size: nat) | ShortOutput | Failed(status: Status)

  /** The blocks that are left stand at this position. */
  ghost predicate AtBlocks(bs: seq<DeflateStream.Block>, data: seq<Byte>, pos: nat, out: seq<Byte>, limit: nat, expected: seq<Byte>) {
    && bs != [] && GoodBlocks(bs, out) && Flagged(bs, true) && Unpacked(bs, out) == expected && |out| <= limit
    && pos + |Stream(bs, pos, out)| <= 8 * |data| && DynamicHeader.Holds(data, pos, Stream(bs, pos, out))
  }

  /** The first of them, and the others. */
  lemma FirstOfBlocks(bs: seq<DeflateStream.Block>, data: seq<Byte>, pos: nat, out: seq<Byte>, limit: nat, expected: seq<Byte>)
    requires AtBlocks(bs, data, pos, out, limit, expected)
    ensures bs != [] && Good(bs[0], |out|) && AtBlock(bs[0], data, pos, out, limit) && |Output(bs[0], out)| <= |expected|
    ensures bs[0].last ==> Output(bs[0], out) == expected
    ensures !bs[0].last && |Output(bs[0], out)| <= limit ==> AtBlocks(bs[1..], data, pos + |BitsOf(bs[0], pos, |out|)|, Output(bs[0], out), limit, expected)
  {
    hide DynamicHeader.Holds, Good, BitsOf, Output;
    var first, next := BitsOf(bs[0], pos, |out|), Output(bs[0], out);
    var rest := Stream(bs[1..], pos + |first|, next);
    assert Unpacked(bs[1..], next) == expected;
    DynamicHeader.HoldsBoth(data, pos, first, rest);
    if bs[0].last {
      assert |bs| == 1;
      assert bs[1..] == [];
    } else {
      assert |bs| > 1;
      forall i | 0 <= i < |bs| - 1 ensures bs[1..][i].last <==> i == |bs| - 2 { assert bs[1..][i] == bs[i + 1]; }
    }
  }

  lemma BlocksOfStream(data: seq<Byte>, bs: seq<DeflateStream.Block>, expected: seq<Byte>, limit: nat)
    requires DeflateStream.Holds(data, bs, expected)
    ensures AtBlocks(bs, data, 0, [], limit, expected)
  {
    hide GoodBlocks, Stream, Unpacked;
    var bits := Stream(bs, 0, []);
    var w := Window(data, 0, |bits|);
    forall i | 0 <= i < |bits| ensures w[i] == bits[i] {}
    assert w == bits;
  }

  /** libdeflate_deflate_decompress: a stream is unpacked to exactly its data, when there is room; if the exact size is
      asked for, output space may not be left over. Any other input ends with an error or with some output. */
  method Decompress(data: seq<Byte>, out: array<Byte>, exact: bool, w: Work, wordwise: bool, unalignedIsFast: bool, ghost expected: seq<Byte>)
    returns (r: Result)
    requires GoodWork(w)
    requires out as object != w.litTable && out as object != w.offTable && out as object != w.lens && out as object != w.preTable
    modifies out, w.litTable, w.offTable, w.preTable, w.lens
    ensures r.Decompressed? ==> r.size <= out.Length && (exact ==> r.size == out.Length)
    ensures IsStream(data, expected) ==>
      if |expected| > out.Length then r == Failed(InsufficientSpace)
      else if exact && |expected| < out.Length then r == ShortOutput
      else r == Decompressed(|expected|) && out[..|expected|] == expected
  {
    hide AtBlock, AtBlocks, InputBitstream.Valid, GoodWork, BitsOf, Good, Output, DeflateStream.Holds, IsStream;
    var input := new InputBitstream(data);
    var outNext := 0;
    ghost var at, bs: seq<DeflateStream.Block> := IsStream(data, expected), [];
    if at { bs := SomeBlocks(data, expected, out.Length); }
    assert out[..0] == [];
    var last := false;
    while !last
      invariant input.BetweenBlocks() && input.data == data && outNext <= out.Length
      invariant at ==> if last then out[..outNext] == expected else AtBlocks(bs, data, input.pos, out[..outNext], out.Length, expected)
      decreases !last, if input.pos < 8 * |data| then 8 * |data| - input.pos else 0
    {
      ghost var b := if at then FirstBlock(bs) else Stored(true, []);
      if at { FirstOfBlocks(bs, data, input.pos, out[..outNext], out.Length, expected); BlocksExist(bs, data, input.pos, out[..outNext], out.Length, expected); }
      var status;
      status, last, outNext := ReadBlock(input, w, out, outNext, wordwise, unalignedIsFast, b);
      if status != Success { return Failed(status); }
      if at { bs := bs[1..]; }
    }
    if exact && outNext != out.Length { return ShortOutput; }
    return Decompressed(outNext);
  }

  ghost function FirstBlock(bs: seq<DeflateStream.Block>): DeflateStream.Block { if bs == [] then Stored(true, []) else bs[0] }

  lemma BlocksExist(bs: seq<DeflateStream.Block>, data: seq<Byte>, pos: nat, out: seq<Byte>, limit: nat, expected: seq<Byte>)
    requires AtBlocks(bs, data, pos, out, limit, expected)
    ensures bs != []
  {
  }

  lemma SomeBlocks(data: seq<Byte>, expected: seq<Byte>, limit: nat) returns (bs: seq<DeflateStream.Block>)
    requires IsStream(data, expected)
    ensures AtBlocks(bs, data, 0, [], limit, expected)
  {
    hide DeflateStream.Holds, AtBlocks;
    bs :| DeflateStream.Holds(data, bs, expected);
    BlocksOfStream(data, bs, expected, limit);
  }
}
