/** Writing the body of a Huffman block: runs of literals and matches, or a list of items, then the end. */
module BlockWriter {
  import opened Powers
  import opened BitFields
  import opened BitReversal
  import opened BitWriter
  import opened CanonicalCode
  import opened DeflateSymbols
  import opened BlockItems

  const MAX_LITLEN_CODEWORD_LEN: nat := 14
  const MAX_OFFSET_CODEWORD_LEN: nat := 15

  /** A run of literals and the match that follows it; length 0 ends the block. */
  datatype Sequence = Sequence(litrunlen: nat, length: nat, offset: nat, lengthSlot: nat, offsetSymbol: nat)

  /** The lengths of the codes; the length arrays as they are read, and the bit-reversed codewords, as the compressor
      keeps them. */
  datatype Tables = Tables(codes: Codes, lens: Codes, litlen: seq<nat>, offset: seq<nat>)

  ghost predicate Reverses(lens: seq<nat>, codewords: seq<nat>) {
    |codewords| == |lens| && forall s :: 0 <= s < |lens| && lens[s] > 0 ==> codewords[s] == Reversed(Code(lens, s), lens[s])
  }

  /** The array holds the lengths of all symbols that have a codeword; others may have stale ones. */
  predicate Agrees(lens: seq<nat>, stored: seq<nat>) {
    |stored| == |lens| && forall s :: 0 <= s < |lens| && lens[s] > 0 ==> stored[s] == lens[s]
  }

  ghost predicate GoodTables(t: Tables) {
    && Agrees(t.codes.litlen, t.lens.litlen) && Agrees(t.codes.offset, t.lens.offset)
    && |t.codes.litlen| == NUM_LITLEN_SYMS && |t.codes.offset| == NUM_OFFSET_SYMS
    && Reverses(t.codes.litlen, t.litlen) && Reverses(t.codes.offset, t.offset)
    && (forall s :: 0 <= s < NUM_LITLEN_SYMS ==> t.codes.litlen[s] <= MAX_LITLEN_CODEWORD_LEN)
    && (forall s :: 0 <= s < NUM_OFFSET_SYMS ==> t.codes.offset[s] <= MAX_OFFSET_CODEWORD_LEN)
  }

  function Literals(input: seq<Byte>, pos: nat, n: nat): (r: seq<Item>)
    requires pos + n <= |input|
    ensures |r| == n
    decreases n
  {
    if n == 0 then [] else [Literal(input[pos])] + Literals(input, pos + 1, n - 1)
  }

  /** The runs and matches lie in the input, the last run ends the block, and the slots are those of the lengths and offsets. */
  predicate GoodSequences(seqs: seq<Sequence>, input: seq<Byte>, pos: nat)
    decreases |seqs|
  {
    |seqs| > 0 && pos + seqs[0].litrunlen <= |input| &&
    if seqs[0].length == 0 then true
    else
      && MIN_MATCH_LEN <= seqs[0].length <= MAX_MATCH_LEN && 1 <= seqs[0].offset <= MAX_MATCH_OFFSET
      && seqs[0].lengthSlot == LengthSlot(seqs[0].length) && seqs[0].offsetSymbol == OffsetSlot(seqs[0].offset)
      && GoodSequences(seqs[1..], input, pos + seqs[0].litrunlen + seqs[0].length)
  }

  /** The items they stand for. */
  function SequenceItems(seqs: seq<Sequence>, input: seq<Byte>, pos: nat): seq<Item>
    requires GoodSequences(seqs, input, pos)
    decreases |seqs|
  {
    var run := Literals(input, pos, seqs[0].litrunlen);
    if seqs[0].length == 0 then run
    else run + ([Match(seqs[0].length, seqs[0].offset)] + SequenceItems(seqs[1..], input, pos + seqs[0].litrunlen + seqs[0].length))
  }

  /** The bits of a run of literals. */
  function LiteralBits(lens: seq<nat>, input: seq<Byte>, pos: nat, n: nat): Bits
    requires pos + n <= |input| && |lens| == NUM_LITLEN_SYMS
    decreases n
  {
    if n == 0 then [] else CodeBits(lens, input[pos]) + LiteralBits(lens, input, pos + 1, n - 1)
  }

  ghost predicate RunEncodable(lens: seq<nat>, input: seq<Byte>, pos: nat, n: nat)
    requires pos + n <= |input| && |lens| == NUM_LITLEN_SYMS
  {
    forall k :: pos <= k < pos + n ==> lens[input[k]] > 0
  }

  lemma {:induction false} LiteralBitsAppend(lens: seq<nat>, input: seq<Byte>, pos: nat, n: nat, m: nat)
    requires pos + n + m <= |input| && |lens| == NUM_LITLEN_SYMS
    ensures LiteralBits(lens, input, pos, n + m) == LiteralBits(lens, input, pos, n) + LiteralBits(lens, input, pos + n, m)
    decreases n
  {
    hide CodeBits;
    if n > 0 { LiteralBitsAppend(lens, input, pos + 1, n - 1, m); }
  }

  lemma {:induction false} LiteralsBits(codes: Codes, input: seq<Byte>, pos: nat, n: nat, before: nat)
    requires pos + n <= |input| && |codes.litlen| == NUM_LITLEN_SYMS && |codes.offset| == NUM_OFFSET_SYMS
    ensures ValidItems(Literals(input, pos, n), before) && TotalSize(Literals(input, pos, n)) == n
    ensures ItemsBits(codes, Literals(input, pos, n), before) == LiteralBits(codes.litlen, input, pos, n)
    decreases n
  {
    hide CodeBits;
    if n > 0 { LiteralsBits(codes, input, pos + 1, n - 1, before + 1); }
  }

  /** Adds the codeword of a symbol. */
  method AddSymbol(os: OutputBitstream, ghost lens: seq<nat>, stored: seq<nat>, codewords: seq<nat>, s: nat)
    requires os.Valid() && s < |lens| && lens[s] > 0 && Reverses(lens, codewords) && os.bitcount + lens[s] < WORDBITS
    requires Agrees(lens, stored)
    modifies os`bitbuf, os`bitcount, os`all
    ensures os.Valid() && os.all == old(os.all) + CodeBits(lens, s) && os.bitcount == old(os.bitcount) + lens[s]
  {
    hide Code, Reversed, ToBits;
    ReversedBound(Code(lens, s), lens[s]);
    os.AddBits(codewords[s], stored[s]);
  }

  /** One literal more of the run, and what has been added of it so far. */
  method AddLiteral(os: OutputBitstream, t: Tables, input: seq<Byte>, start: nat, pos: nat, ghost before: Bits)
    requires os.Valid() && GoodTables(t) && start <= pos < |input| && t.codes.litlen[input[pos]] > 0
    requires os.bitcount + MAX_LITLEN_CODEWORD_LEN < WORDBITS
    requires os.all == before + LiteralBits(t.codes.litlen, input, start, pos - start)
    modifies os`bitbuf, os`bitcount, os`all
    ensures os.Valid() && os.bitcount <= old(os.bitcount) + MAX_LITLEN_CODEWORD_LEN
    ensures os.all == before + LiteralBits(t.codes.litlen, input, start, pos + 1 - start)
  {
    hide CodeBits, Reverses;
    AddSymbol(os, t.codes.litlen, t.lens.litlen, t.litlen, input[pos]);
    LiteralBitsAppend(t.codes.litlen, input, start, pos - start, 1);
    assert LiteralBits(t.codes.litlen, input, pos, 1) == CodeBits(t.codes.litlen, input[pos]) + LiteralBits(t.codes.litlen, input, pos + 1, 0);
  }

  /** Four literals are added between flushes, then the one to three left over. */
  method WriteLiterals(os: OutputBitstream, t: Tables, input: seq<Byte>, start: nat, run: nat, wordwise: bool)
    requires os.Valid() && os.bitcount < 8 && GoodTables(t) && start + run <= |input| && RunEncodable(t.codes.litlen, input, start, run)
    modifies os`bitbuf, os`bitcount, os`all, os`next, os.buffer
    ensures os.Valid() && os.bitcount < 8
    ensures os.all == old(os.all) + LiteralBits(t.codes.litlen, input, start, run)
  {
    hide GoodTables, LiteralBits, OutputBitstream.Valid;
    ghost var before := os.all;
    TablesSize(t);
    NoLiterals(t.codes.litlen, input, start);
    var litrunlen: nat, pos: nat := run, start;
    while litrunlen >= 4
      invariant os.Valid() && os.bitcount < 8 && pos + litrunlen == start + run && start <= pos
      invariant os.all == before + LiteralBits(t.codes.litlen, input, start, pos - start)
    {
      AddLiteral(os, t, input, start, pos, before);
      AddLiteral(os, t, input, start, pos + 1, before);
      AddLiteral(os, t, input, start, pos + 2, before);
      AddLiteral(os, t, input, start, pos + 3, before);
      os.FlushBits(wordwise);
      pos, litrunlen := pos + 4, litrunlen - 4;
    }
    if litrunlen != 0 {
      AddLiteral(os, t, input, start, pos, before);
      if litrunlen != 1 {
        AddLiteral(os, t, input, start, pos + 1, before);
        if litrunlen != 2 {
          AddLiteral(os, t, input, start, pos + 2, before);
        }
      }
      os.FlushBits(wordwise);
    }
  }

  lemma TablesSize(t: Tables)
    requires GoodTables(t)
    ensures |t.codes.litlen| == NUM_LITLEN_SYMS && |t.codes.offset| == NUM_OFFSET_SYMS
  {
  }

  lemma NoLiterals(lens: seq<nat>, input: seq<Byte>, pos: nat)
    requires pos <= |input| && |lens| == NUM_LITLEN_SYMS
    ensures LiteralBits(lens, input, pos, 0) == []
  {
  }

  /** Length symbol, extra length bits, offset symbol, extra offset bits. */
  method WriteMatch(os: OutputBitstream, t: Tables, length: nat, offset: nat, lengthSlot: nat, offsetSymbol: nat, wordwise: bool)
    requires os.Valid() && os.bitcount < 8 && GoodTables(t)
    requires MIN_MATCH_LEN <= length <= MAX_MATCH_LEN && 1 <= offset <= MAX_MATCH_OFFSET
    requires lengthSlot == LengthSlot(length) && offsetSymbol == OffsetSlot(offset)
    requires t.codes.litlen[END_OF_BLOCK + 1 + lengthSlot] > 0 && t.codes.offset[offsetSymbol] > 0
    modifies os`bitbuf, os`bitcount, os`all, os`next, os.buffer
    ensures os.Valid() && os.bitcount < 8 && os.all == old(os.all) + MatchBits(t.codes, length, offset)
  {
    hide CodeBits, Reverses, LengthSlot, OffsetSlot, ToBits, LengthBase, LengthExtra, OffsetBase, OffsetExtra, Pow2, Contiguous;
    LengthFits(length);
    OffsetFits(offset);
    ghost var before := os.all;
    AddSymbol(os, t.codes.litlen, t.lens.litlen, t.litlen, END_OF_BLOCK + 1 + lengthSlot);
    os.AddBits(length - LengthBase[lengthSlot], LengthExtra[lengthSlot]);
    AddSymbol(os, t.codes.offset, t.lens.offset, t.offset, offsetSymbol);
    os.AddBits(offset - OffsetBase[offsetSymbol], OffsetExtra[offsetSymbol]);
    os.FlushBits(wordwise);
    Regroup(before, CodeBits(t.codes.litlen, END_OF_BLOCK + 1 + lengthSlot), ToBits(length - LengthBase[lengthSlot], LengthExtra[lengthSlot]),
            CodeBits(t.codes.offset, offsetSymbol), ToBits(offset - OffsetBase[offsetSymbol], OffsetExtra[offsetSymbol]));
  }

  lemma Regroup(s: Bits, a: Bits, b: Bits, c: Bits, d: Bits)
    ensures s + a + b + c + d == s + (a + b + c + d)
  {
  }

  method WriteEndOfBlock(os: OutputBitstream, t: Tables, wordwise: bool)
    requires os.Valid() && os.bitcount < 8 && GoodTables(t) && t.codes.litlen[END_OF_BLOCK] > 0
    modifies os`bitbuf, os`bitcount, os`all, os`next, os.buffer
    ensures os.Valid() && os.bitcount < 8 && os.all == old(os.all) + CodeBits(t.codes.litlen, END_OF_BLOCK)
  {
    hide CodeBits, Reverses;
    AddSymbol(os, t.codes.litlen, t.lens.litlen, t.litlen, END_OF_BLOCK);
    os.FlushBits(wordwise);
  }

  // ---- Sequences ---------------------------------------------------------------------------

  /** Every symbol the sequences need has a codeword. */
  ghost predicate SequencesEncodable(codes: Codes, seqs: seq<Sequence>, input: seq<Byte>, pos: nat)
    requires |codes.litlen| == NUM_LITLEN_SYMS && |codes.offset| == NUM_OFFSET_SYMS && GoodSequences(seqs, input, pos)
    decreases |seqs|
  {
    RunEncodable(codes.litlen, input, pos, seqs[0].litrunlen) &&
    (seqs[0].length > 0 ==>
       && codes.litlen[END_OF_BLOCK + 1 + seqs[0].lengthSlot] > 0 && codes.offset[seqs[0].offsetSymbol] > 0
       && SequencesEncodable(codes, seqs[1..], input, pos + seqs[0].litrunlen + seqs[0].length))
  }

  function SequenceBits(codes: Codes, seqs: seq<Sequence>, input: seq<Byte>, pos: nat): Bits
    requires |codes.litlen| == NUM_LITLEN_SYMS && |codes.offset| == NUM_OFFSET_SYMS && GoodSequences(seqs, input, pos)
    decreases |seqs|
  {
    var run := LiteralBits(codes.litlen, input, pos, seqs[0].litrunlen);
    if seqs[0].length == 0 then run
    else
      run + (MatchBits(codes, seqs[0].length, seqs[0].offset)
             + SequenceBits(codes, seqs[1..], input, pos + seqs[0].litrunlen + seqs[0].length))
  }

  /** deflate_write_sequences writes exactly the bits of the items, in order. */
  method WriteSequences(os: OutputBitstream, t: Tables, seqs: seq<Sequence>, input: seq<Byte>, start: nat, wordwise: bool)
    requires os.Valid() && os.bitcount < 8 && GoodTables(t) && GoodSequences(seqs, input, start)
    requires SequencesEncodable(t.codes, seqs, input, start)
    modifies os`bitbuf, os`bitcount, os`all, os`next, os.buffer
    ensures os.Valid() && os.bitcount < 8 && os.all == old(os.all) + SequenceBits(t.codes, seqs, input, start)
  {
    hide GoodTables, LiteralBits, MatchBits, RunEncodable, LengthSlot, OffsetSlot;
    TablesSize(t);
    ghost var before := os.all;
    var i, pos: nat := 0, start;
    while true
      invariant i < |seqs| && GoodSequences(seqs[i..], input, pos) && SequencesEncodable(t.codes, seqs[i..], input, pos)
      invariant os.Valid() && os.bitcount < 8
      invariant before + SequenceBits(t.codes, seqs, input, start) == os.all + SequenceBits(t.codes, seqs[i..], input, pos)
      decreases |seqs| - i
    {
      var s := seqs[i];
      ghost var rest := seqs[i + 1..];
      assert seqs[i..][0] == s && seqs[i..][1..] == rest;
      WriteLiterals(os, t, input, pos, s.litrunlen, wordwise);
      if s.length == 0 {
        return;
      }
      WriteMatch(os, t, s.length, s.offset, s.lengthSlot, s.offsetSymbol, wordwise);
      pos := pos + s.litrunlen + s.length;
      i := i + 1;
    }
  }

  /** The items of sequences, if valid, have the bits that are written for the sequences. */
  lemma {:induction false} SequencesAreItems(codes: Codes, seqs: seq<Sequence>, input: seq<Byte>, pos: nat, before: nat)
    requires |codes.litlen| == NUM_LITLEN_SYMS && |codes.offset| == NUM_OFFSET_SYMS && GoodSequences(seqs, input, pos)
    requires ValidItems(SequenceItems(seqs, input, pos), before)
    ensures ItemsBits(codes, SequenceItems(seqs, input, pos), before) == SequenceBits(codes, seqs, input, pos)
    decreases |seqs|
  {
    hide LiteralBits, MatchBits, LengthSlot, OffsetSlot, ItemsBits, ItemBits, ValidItems, TotalSize, Literals, Contiguous, LengthBase, OffsetBase;
    var run, n := Literals(input, pos, seqs[0].litrunlen), seqs[0].litrunlen;
    LiteralsBits(codes, input, pos, n, before);
    if seqs[0].length > 0 {
      var m := Match(seqs[0].length, seqs[0].offset);
      var rest := SequenceItems(seqs[1..], input, pos + n + seqs[0].length);
      ValidSplit(run, [m] + rest, before);
      ItemsAppend(codes, run, [m] + rest, before);
      MatchThenRest(codes, m, rest, before + n);
      SequencesAreItems(codes, seqs[1..], input, pos + n + seqs[0].length, before + n + seqs[0].length);
    }
  }

  lemma MatchThenRest(codes: Codes, m: Item, rest: seq<Item>, before: nat)
    requires |codes.litlen| == NUM_LITLEN_SYMS && |codes.offset| == NUM_OFFSET_SYMS && m.Match? && ValidItems([m] + rest, before)
    ensures ValidItems(rest, before + m.length)
    ensures ItemsBits(codes, [m] + rest, before) == MatchBits(codes, m.length, m.offset) + ItemsBits(codes, rest, before + m.length)
  {
    hide MatchBits;
    assert ([m] + rest)[1..] == rest;
  }

  lemma {:induction false} ValidSplit(a: seq<Item>, b: seq<Item>, before: nat)
    requires ValidItems(a + b, before)
    ensures ValidItems(a, before) && ValidItems(b, before + TotalSize(a))
    decreases |a|
  {
    if a == [] {
      assert a + b == b;
    } else {
      assert (a + b)[1..] == a[1..] + b && (a + b)[0] == a[0];
      ValidSplit(a[1..], b, before + Size(a[0]));
    }
  }

  /** The bits between others of a stream are seen through a window. */
  lemma WindowOf(data: seq<Byte>, all: Bits, a: Bits, b: Bits, c: Bits)
    requires all == a + b + c && forall j: nat :: j < |all| ==> all[j] == StreamBit(data, j)
    ensures Window(data, |a|, |b|) == b
  {
    var w := Window(data, |a|, |b|);
    forall i | 0 <= i < |w|
      ensures w[i] == b[i]
    {
      assert all[|a| + i] == b[i];
    }
  }

  /** The whole body of a block. */
  method WriteBlock(os: OutputBitstream, t: Tables, seqs: seq<Sequence>, input: seq<Byte>, start: nat, wordwise: bool, ghost before: nat)
    requires os.Valid() && os.bitcount < 8 && GoodTables(t) && GoodSequences(seqs, input, start)
    requires SequencesEncodable(t.codes, seqs, input, start) && t.codes.litlen[END_OF_BLOCK] > 0
    requires ValidItems(SequenceItems(seqs, input, start), before)
    modifies os`bitbuf, os`bitcount, os`all, os`next, os.buffer
    ensures os.Valid() && os.bitcount < 8
    ensures os.all == old(os.all) + BlockBits(t.codes, SequenceItems(seqs, input, start), before)
  {
    hide GoodTables, GoodSequences, SequenceItems, SequenceBits, SequencesEncodable, CodeBits, ItemsBits, ValidItems, OutputBitstream.Valid;
    TablesSize(t);
    WriteSequences(os, t, seqs, input, start, wordwise);
    WriteEndOfBlock(os, t, wordwise);
    SequencesAreItems(t.codes, seqs, input, start, before);
  }
}
