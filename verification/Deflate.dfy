/** libdeflate_deflate_compress: block after block is parsed, in the way of the level, and flushed. */
module Deflate {
  import opened BitFields
  import opened BitWriter
  import opened BlockWriter
  import opened BlockChoices
  import opened DeflateSymbols
  import opened HashChains
  import opened Parsers
  import opened DeflateStream
  import opened FlushBlock
  import Finder = HcMatchfinder
  import Bt = BtMatchfinder
  import MinCostPath
  import ItemList
  import BlockItems
  import Optimal = NearOptimal
  import TreeMemory
  import SearchTree
  import OptimalCache
  import ParserChoices

  /** Inputs below this size are stored. */
  const MIN_COMPRESSED: nat := 16

  /** The levels differ in how they parse, and in their limits. Near-optimal parsing takes several passes, with costs of
      symbols for each block and pass. */
  datatype Strategy = Greedy | Lazy | NearOptimal(passes: nat, model: (nat, nat) -> MinCostPath.Costs)
  datatype Level = Level(niceMatchLength: nat, depth: nat, strategy: Strategy)

  /** The limits of near-optimal parsing: the source's least are 20 and 12, and one pass. */
  ghost predicate GoodLevel(level: Level) {
    level.strategy.NearOptimal? ==>
      && level.niceMatchLength > 3 && level.depth >= 1 && level.strategy.passes >= 1
      && forall start: nat, i: nat :: MinCostPath.GoodCosts(level.strategy.model(start, i))
  }

  /** What has been written so far unpacks to the input before a position; the last block is flagged at its end. */
  ghost predicate Written(bs: seq<DeflateStream.Block>, all: Bits, data: seq<Byte>, next: nat) {
    && next <= |data| && GoodBlocks(bs, []) && Unpacked(bs, []) == data[..next] && all == Stream(bs, 0, [])
    && Flagged(bs, next == |data|) && (next == |data| ==> bs != [])
  }

  lemma NothingParsed(data: seq<Byte>, level: Level, split: (nat, nat) -> bool)
    ensures Parsed([], data, 0, level, split)
  {
  }

  lemma NothingWritten(data: seq<Byte>)
    requires |data| > 0
    ensures Written([], [], data, 0)
  {
  }

  /** More blocks, for the input from one position to a later one. */
  lemma MoreWritten(bs: seq<DeflateStream.Block>, all: Bits, data: seq<Byte>, next: nat, more: seq<DeflateStream.Block>, to: nat)
    requires Written(bs, all, data, next) && next < to <= |data| && GoodBlocks(more, data[..next]) && Unpacked(more, data[..next]) == data[..to]
    requires Flagged(more, to == |data|)
    ensures Written(bs + more, all + Stream(more, |all|, data[..next]), data, to)
  {
    hide GoodBlocks, Unpacked, Stream, Flagged;
    var out: seq<Byte> := [];
    assert Unpacked(bs, out) == data[..next] && all == Stream(bs, 0, out);
    StreamAppend(bs, more, 0, out);
    NotNothing(more, data[..next]);
    assert data[..next] != data[..to] by { assert |data[..next]| < |data[..to]|; }
    FlagsAppend(bs, more, to == |data|);
  }

  lemma FlagsAppend(a: seq<DeflateStream.Block>, b: seq<DeflateStream.Block>, last: bool)
    requires Flagged(a, false) && Flagged(b, last) && (b != [] || !last)
    ensures Flagged(a + b, last)
  {
    forall i | 0 <= i < |a + b| ensures (a + b)[i].last <==> last && i == |a + b| - 1 {
      if i >= |a| { assert (a + b)[i] == b[i - |a|]; }
    }
  }

  lemma NotNothing(more: seq<DeflateStream.Block>, out: seq<Byte>)
    requires GoodBlocks(more, out)
    ensures more == [] ==> Unpacked(more, out) == out
  {
  }

  /** Parses and flushes one block. */
  method NextBlock(mf: Finder.HcMatchfinder, z: Compressor, os: OutputBitstream, data: seq<Byte>, s: State, level: Level, split: (nat, nat) -> bool,
                   staticTables: Tables, wordwise: bool, ghost bs: seq<DeflateStream.Block>)
    returns (t: State, ghost more: seq<DeflateStream.Block>)
    requires Parsers.Apart(mf, z) && s.next < |data| && !level.strategy.NearOptimal? && mf.Valid(data, s.c, s.next) && Limited(s.k, |data| - s.next, level.niceMatchLength)
    requires os.Valid() && os.bitcount < 8 && GoodTables(staticTables) && staticTables.codes == staticTables.lens == StaticCodes()
    requires os.buffer as object != mf.mem && os.buffer as object != z.litlenFreqs && os.buffer as object != z.offsetFreqs && os.buffer as object != z.sequences
    requires Written(bs, os.all, data, s.next)
    modifies mf.mem, z.litlenFreqs, z.offsetFreqs, z.sequences, os`bitbuf, os`bitcount, os`all, os`next, os.buffer
    ensures mf.Valid(data, t.c, t.next) && Limited(t.k, |data| - t.next, level.niceMatchLength) && s.next < t.next <= |data|
    ensures os.Valid() && os.bitcount < 8 && Written(more, os.all, data, t.next)
    ensures |bs| <= |more| && more[..|bs|] == bs
    ensures PieceOf(more[|bs|..], data, s.next, t.next, level, split)
  {
    hide ParserChoices.ParsedFrom, PieceOf, WaysAre, BlockWriter.SequenceItems, BlockWriter.GoodSequences, Compressed;
    hide OutputBitstream.Valid, Finder.HcMatchfinder.Valid, GoodTables, Parsers.GoodBlock, Written, Ready, Limited, GoodChoices, Exact, ChosenBlocks, Stream;
    var b;
    t, b := ParseBlock(mf, z, data, s, level.depth, level.strategy.Lazy?, split, level.niceMatchLength);
    Flushable(b, data);
    ghost var all := os.all;
    var k, c := Flush(os, staticTables, z.litlenFreqs, z.offsetFreqs, FromSequences(b.seqs), data, b.start, b.length, b.last, wordwise);
    ChosenIsGood(c, Cheapest(k), data[..b.start], data[..b.start + b.length], b.last, |all|);
    MoreWritten(bs, all, data, s.next, ChosenBlocks(c, Cheapest(k)), t.next);
    more := bs + ChosenBlocks(c, Cheapest(k));
    ItemsWritten(c, Cheapest(k), FromSequences(b.seqs), data, b.start, b.length, b.litlen, b.offset);
    assert more[|bs|..] == ChosenBlocks(c, Cheapest(k));
    BlockItemsFinished(b, data);
    GreedyPiece(more[|bs|..], data, s.next, t.next, level, split, SequenceItems(b.seqs, data, b.start), b.litlen, b.offset);
  }

  lemma BlockItemsFinished(b: Parsers.Block, data: seq<Byte>)
    requires Parsers.GoodBlock(b, data)
    ensures GoodSequences(b.seqs, data, b.start)
    ensures FinishedItems(SequenceItems(b.seqs, data, b.start), b.litlen, b.offset, data, b.start, b.start + b.length)
  {
  }

  /** Blocks that hold these items, in whatever codes, or else the bytes as they are. */
  ghost predicate Compressed(bs: seq<DeflateStream.Block>, items: seq<BlockItems.Item>) {
    forall i :: 0 <= i < |bs| && !bs[i].Stored? ==> bs[i].items == items
  }

  /** The blocks written for one parsed block, from one position to another: they hold the choices of the level's parser. For
      near-optimal parsing these are a cheapest path, under the costs of the last pass, through the positions as cached. */
  ghost predicate PieceOf(bs: seq<DeflateStream.Block>, data: seq<Byte>, from: nat, to: nat, level: Level, split: (nat, nat) -> bool)
    requires from < |data|
  {
    match level.strategy
    case NearOptimal(passes, model) => exists item: seq<nat>, settled: seq<nat> :: OptimalPiece(bs, data, from, to, level, split, item, settled)
    case _ =>
      var items := ParserChoices.ParsedFrom(data, from, from, level.niceMatchLength, level.depth, level.strategy.Lazy?, split);
      BlockItems.TotalSize(items) == to - from && Compressed(bs, items)
  }

  ghost predicate OptimalPiece(bs: seq<DeflateStream.Block>, data: seq<Byte>, from: nat, to: nat, level: Level, split: (nat, nat) -> bool,
                               item: seq<nat>, settled: seq<nat>)
    requires from < |data| && level.strategy.NearOptimal?
  {
    var ps := OptimalCache.CachedFrom(data, from, [], level.niceMatchLength, level.depth, split);
    && level.strategy.passes >= 1 && |ps| == to - from && ItemList.GoodList(item, 0, |ps|)
    && MinCostPath.AllSettled(level.strategy.model(from, level.strategy.passes - 1), ps, settled, item)
    && Compressed(bs, ItemList.ListItems(item, 0, |ps|))
  }

  ghost predicate LastPiece(bs: seq<DeflateStream.Block>, data: seq<Byte>, to: nat, level: Level, split: (nat, nat) -> bool, k: nat, from: nat)
  {
    k <= |bs| && from < to <= |data| && PieceOf(bs[k..], data, from, to, level, split)
  }

  /** The blocks for the input before a position, piece after piece. */
  ghost predicate Parsed(bs: seq<DeflateStream.Block>, data: seq<Byte>, to: nat, level: Level, split: (nat, nat) -> bool)
    decreases to
  {
    if to == 0 then bs == []
    else exists k: nat, from: nat :: LastPiece(bs, data, to, level, split, k, from) && Parsed(bs[..k], data, from, level, split)
  }

  lemma ParsedMore(bs: seq<DeflateStream.Block>, more: seq<DeflateStream.Block>, data: seq<Byte>, from: nat, to: nat, level: Level, split: (nat, nat) -> bool)
    requires from < to <= |data| && Parsed(bs, data, from, level, split)
    requires |bs| <= |more| && more[..|bs|] == bs && PieceOf(more[|bs|..], data, from, to, level, split)
    ensures Parsed(more, data, to, level, split)
  {
    hide PieceOf;
    assert LastPiece(more, data, to, level, split, |bs|, from);
  }

  lemma MakesPiece(bs: seq<DeflateStream.Block>, data: seq<Byte>, from: nat, to: nat, level: Level, split: (nat, nat) -> bool, item: seq<nat>, settled: seq<nat>)
    requires from < to <= |data| && level.strategy.NearOptimal? && level.strategy.passes >= 1
    requires var ps := OptimalCache.CachedFrom(data, from, [], level.niceMatchLength, level.depth, split);
      |ps| == to - from && MinCostPath.AllSettled(level.strategy.model(from, level.strategy.passes - 1), ps, settled, item)
    requires ItemList.GoodList(item, 0, to - from) && Compressed(bs, ItemList.ListItems(item, 0, to - from))
    ensures PieceOf(bs, data, from, to, level, split)
  {
    hide OptimalCache.CachedFrom, MinCostPath.AllSettled, ItemList.GoodList, ItemList.ListItems, Compressed;
    assert OptimalPiece(bs, data, from, to, level, split, item, settled);
  }

  lemma GreedyPiece(bs: seq<DeflateStream.Block>, data: seq<Byte>, from: nat, to: nat, level: Level, split: (nat, nat) -> bool, items: seq<BlockItems.Item>,
                    litlen: seq<nat>, offset: seq<nat>)
    requires !level.strategy.NearOptimal? && from < |data| && Compressed(bs, items)
    requires items == ParserChoices.ParsedFrom(data, from, from, level.niceMatchLength, level.depth, level.strategy.Lazy?, split)
    requires FinishedItems(items, litlen, offset, data, from, to)
    ensures PieceOf(bs, data, from, to, level, split)
  {
    hide Compressed, ParserChoices.ParsedFrom, BlockItems.ValidItems, BlockItems.Expand;
    ExpandSize(data[..from], items);
  }

  lemma ItemsWritten(c: Choices, kind: nat, src: Source, input: seq<Byte>, start: nat, length: nat, litlen: seq<nat>, offset: seq<nat>)
    requires WaysAre(c, src, input, start, length, litlen, offset)
    ensures GoodSource(src, input, start, length) && start + length <= |input|
    ensures Compressed(ChosenBlocks(c, kind), SourceItems(src, input, start, length))
  {
    hide SourceItems, GoodSource;
  }

  lemma Flushable(b: Parsers.Block, data: seq<Byte>)
    requires Parsers.GoodBlock(b, data)
    ensures Ready(FromSequences(b.seqs), b.litlen, b.offset, data, b.start, b.length) && 0 < b.length && b.length + 1 < 0x40_0000
    ensures |b.litlen| == NUM_LITLEN_SYMS && |b.offset| == NUM_OFFSET_SYMS && (b.last <==> b.start + b.length == |data|)
  {
  }

  /** deflate_compress_greedy and deflate_compress_lazy */
  method CompressBlocks(os: OutputBitstream, data: seq<Byte>, level: Level, split: (nat, nat) -> bool, staticTables: Tables, wordwise: bool)
    returns (ghost bs: seq<DeflateStream.Block>)
    requires |data| > 0 && os.Valid() && os.bitcount < 8 && os.all == [] && !level.strategy.NearOptimal?
    requires GoodTables(staticTables) && staticTables.codes == staticTables.lens == StaticCodes()
    modifies os`bitbuf, os`bitcount, os`all, os`next, os.buffer
    ensures os.Valid() && os.bitcount < 8 && Written(bs, os.all, data, |data|) && Parsed(bs, data, |data|, level, split)
  {
    hide Parsed, PieceOf, GoodLevel, OutputBitstream.Valid, Finder.HcMatchfinder.Valid, GoodTables, Written;
    var mf := new Finder.HcMatchfinder();
    var z := new Compressor();
    mf.Init(data);
    var s := State(Cursor(0, 0, 0), Limits(MAX_MATCH_LEN, Parsers.Min(level.niceMatchLength, MAX_MATCH_LEN)), 0, 0, 0);
    bs := [];
    NothingWritten(data);
    NothingParsed(data, level, split);
    while s.next != |data|
      invariant Parsers.Apart(mf, z) && fresh(mf.mem) && fresh(z.litlenFreqs) && fresh(z.offsetFreqs) && fresh(z.sequences)
      invariant s.next <= |data| && mf.Valid(data, s.c, s.next) && Limited(s.k, |data| - s.next, level.niceMatchLength)
      invariant os.Valid() && os.bitcount < 8 && Written(bs, os.all, data, s.next) && Parsed(bs, data, s.next, level, split)
      decreases |data| - s.next
    {
      ghost var from, was := s.next, bs;
      s, bs := NextBlock(mf, z, os, data, s, level, split, staticTables, wordwise, bs);
      ParsedMore(was, bs, data, from, s.next, level, split);
    }
  }

  // ---- Near-optimal parsing ------------------------------------------------------------------

  /** The tally of a block's items, its end counted too, makes the block ready to be flushed. */
  lemma ItemsReady(choices: seq<nat>, litlen: seq<nat>, offset: seq<nat>, data: seq<Byte>, start: nat, length: nat)
    requires 0 < length && start + length <= |data| && ItemList.GoodList(choices, 0, length)
    requires Counts(ItemList.ListItems(choices, 0, length), litlen, offset) && BlockItems.ValidItems(ItemList.ListItems(choices, 0, length), start)
    requires BlockItems.Expand(data[..start], ItemList.ListItems(choices, 0, length)) == data[..start + length]
    ensures |litlen| == NUM_LITLEN_SYMS
    ensures Ready(FromChoices(choices), litlen[END_OF_BLOCK := litlen[END_OF_BLOCK] + 1], offset, data, start, length)
  {
    hide ItemList.ListItems, ItemList.GoodList, BlockItems.ValidItems, BlockItems.Expand, BlockItems.LitlenCount, BlockItems.OffsetCount;
  }

  /** The arrays of near-optimal parsing. */
  datatype Nodes = Nodes(cost: array<nat>, item: array<nat>, litlen: array<nat>, offset: array<nat>)

  predicate GoodNodes(n: Nodes) {
    && n.cost.Length == n.item.Length == Optimal.NUM_NODES && n.litlen.Length == NUM_LITLEN_SYMS && n.offset.Length == NUM_OFFSET_SYMS
    && n.cost != n.item && n.litlen != n.offset && n.cost != n.litlen && n.cost != n.offset && n.item != n.litlen && n.item != n.offset
  }

  ghost predicate AllApart(mf: Bt.BtMatchfinder, n: Nodes, os: OutputBitstream) {
    && GoodNodes(n) && mf.mem as object != n.cost && mf.mem as object != n.item && mf.mem as object != n.litlen && mf.mem as object != n.offset
    && os.buffer as object != mf.mem && os.buffer as object != n.cost && os.buffer as object != n.item && os.buffer as object != n.litlen
    && os.buffer as object != n.offset
  }

  /** Counts the end of the block and flushes the choices made. */
  method FlushOptimal(n: Nodes, os: OutputBitstream, data: seq<Byte>, start: nat, length: nat, staticTables: Tables, wordwise: bool, ghost bs: seq<DeflateStream.Block>)
    returns (ghost more: seq<DeflateStream.Block>)
    requires GoodNodes(n) && os.buffer as object != n.litlen && os.buffer as object != n.offset && os.buffer as object != n.item
    requires n.item as object != n.litlen && os.Valid() && os.bitcount < 8 && GoodTables(staticTables) && staticTables.codes == staticTables.lens == StaticCodes()
    requires Written(bs, os.all, data, start) && 0 < length < Optimal.NUM_NODES && start + length <= |data| && ItemList.GoodList(n.item[..], 0, length)
    requires Counts(ItemList.ListItems(n.item[..], 0, length), n.litlen[..], n.offset[..])
    requires BlockItems.ValidItems(ItemList.ListItems(n.item[..], 0, length), start)
    requires BlockItems.Expand(data[..start], ItemList.ListItems(n.item[..], 0, length)) == data[..start + length]
    modifies n.litlen, os`bitbuf, os`bitcount, os`all, os`next, os.buffer
    ensures os.Valid() && os.bitcount < 8 && Written(more, os.all, data, start + length) && n.item[..] == old(n.item[..])
    ensures |bs| <= |more| && more[..|bs|] == bs && Compressed(more[|bs|..], ItemList.ListItems(n.item[..], 0, length))
  {
    hide OutputBitstream.Valid, GoodTables, Written, Ready, GoodChoices, Exact, ChosenBlocks, Stream, Counts, ItemList.GoodList, ItemList.ListItems,
      BlockItems.ValidItems, BlockItems.Expand, WaysAre, Compressed;
    ItemsReady(n.item[..], n.litlen[..], n.offset[..], data, start, length);
    ghost var tally := n.litlen[..];
    n.litlen[END_OF_BLOCK] := n.litlen[END_OF_BLOCK] + 1;
    assert n.litlen[..] == tally[END_OF_BLOCK := tally[END_OF_BLOCK] + 1];
    ghost var all := os.all;
    var last := start + length == |data|;
    var k, c := Flush(os, staticTables, n.litlen, n.offset, FromChoices(n.item[..]), data, start, length, last, wordwise);
    ChosenIsGood(c, Cheapest(k), data[..start], data[..start + length], last, |all|);
    MoreWritten(bs, all, data, start, ChosenBlocks(c, Cheapest(k)), start + length);
    more := bs + ChosenBlocks(c, Cheapest(k));
    ItemsWritten(c, Cheapest(k), FromChoices(n.item[..]), data, start, length, n.litlen[..], n.offset[..]);
    assert more[|bs|..] == ChosenBlocks(c, Cheapest(k));
  }

  method NextOptimalBlock(mf: Bt.BtMatchfinder, n: Nodes, os: OutputBitstream, data: seq<Byte>, s: Optimal.State, level: Level, split: (nat, nat) -> bool,
                          staticTables: Tables, wordwise: bool, ghost bs: seq<DeflateStream.Block>)
    returns (t: Optimal.State, ghost more: seq<DeflateStream.Block>)
    requires AllApart(mf, n, os) && level.strategy.NearOptimal? && GoodLevel(level)
    requires Optimal.Follows(mf, data, s, level.niceMatchLength, level.depth) && s.next < |data| && Optimal.Limited(s, |data| - s.next, level.niceMatchLength)
    requires os.Valid() && os.bitcount < 8 && GoodTables(staticTables) && staticTables.codes == staticTables.lens == StaticCodes()
    requires Written(bs, os.all, data, s.next)
    modifies mf, mf.mem, n.cost, n.item, n.litlen, n.offset, os`bitbuf, os`bitcount, os`all, os`next, os.buffer
    ensures Optimal.Follows(mf, data, t, level.niceMatchLength, level.depth) && Optimal.Limited(t, |data| - t.next, level.niceMatchLength) && s.next < t.next <= |data|
    ensures os.Valid() && os.bitcount < 8 && Written(more, os.all, data, t.next)
    ensures |bs| <= |more| && more[..|bs|] == bs
    ensures PieceOf(more[|bs|..], data, s.next, t.next, level, split)
  {
    hide WaysAre, Compressed, PieceOf, OptimalPiece;
    hide OutputBitstream.Valid, Optimal.Follows, GoodTables, Written, Ready, Optimal.Limited, GoodChoices, Exact, ChosenBlocks, Stream, Optimal.Cached, Counts,
      ItemList.GoodList, ItemList.ListItems, BlockItems.ValidItems, BlockItems.Expand, MinCostPath.GoodCosts, MinCostPath.AllSettled, OptimalCache.CachedFrom;
    var cache;
    ghost var ps;
    t, cache, ps := Optimal.CacheBlock(mf, data, s, level.depth, level.niceMatchLength, split);
    var start, length := s.next, t.next - s.next;
    ghost var settled := Optimal.OptimizeBlock(n.cost, n.item, n.litlen, n.offset, cache, level.strategy.passes, (i: nat) => level.strategy.model(start, i), data, start, length, ps);
    more := FlushOptimal(n, os, data, start, length, staticTables, wordwise, bs);
    MakesPiece(more[|bs|..], data, start, t.next, level, split, n.item[..], settled);
  }

  lemma StartFollows(mf: Bt.BtMatchfinder, data: seq<Byte>, nice: nat, level: Level)
    requires mf.Valid(data, 0, 0, nice) && mf.trees == seq(TreeMemory.BUCKETS, i => SearchTree.Nil)
    ensures Optimal.Follows(mf, data, Optimal.State(0, 0, 0, MAX_MATCH_LEN, nice, 0), level.niceMatchLength, level.depth)
  {
    hide Bt.BtMatchfinder.Valid;
    StartSize(mf, data, nice);
  }

  lemma StartSize(mf: Bt.BtMatchfinder, data: seq<Byte>, nice: nat)
    requires mf.Valid(data, 0, 0, nice)
    ensures mf.mem.Length == TreeMemory.SIZE
  {
  }

  /** deflate_compress_near_optimal */
  method CompressOptimally(os: OutputBitstream, data: seq<Byte>, level: Level, split: (nat, nat) -> bool, staticTables: Tables, wordwise: bool)
    returns (ghost bs: seq<DeflateStream.Block>)
    requires |data| > 0 && os.Valid() && os.bitcount < 8 && os.all == [] && level.strategy.NearOptimal? && GoodLevel(level)
    requires GoodTables(staticTables) && staticTables.codes == staticTables.lens == StaticCodes()
    modifies os`bitbuf, os`bitcount, os`all, os`next, os.buffer
    ensures os.Valid() && os.bitcount < 8 && Written(bs, os.all, data, |data|) && Parsed(bs, data, |data|, level, split)
  {
    hide Parsed, PieceOf, OutputBitstream.Valid, Bt.BtMatchfinder.Valid, Optimal.Follows, GoodTables, Written, GoodLevel;
    var mf := new Bt.BtMatchfinder();
    var cost, item := new nat[Optimal.NUM_NODES], new nat[Optimal.NUM_NODES];
    var litlen, offset := new nat[NUM_LITLEN_SYMS], new nat[NUM_OFFSET_SYMS];
    var n := Nodes(cost, item, litlen, offset);
    var nice := Optimal.Min(level.niceMatchLength, MAX_MATCH_LEN);
    mf.Init(data, nice);
    StartFollows(mf, data, nice, level);
    var s := Optimal.State(0, 0, 0, MAX_MATCH_LEN, nice, 0);
    bs := [];
    NothingWritten(data);
    NothingParsed(data, level, split);
    while s.next != |data|
      invariant AllApart(mf, n, os) && fresh(mf) && fresh(mf.mem) && fresh(n.cost) && fresh(n.item) && fresh(n.litlen) && fresh(n.offset)
      invariant s.next <= |data| && Optimal.Follows(mf, data, s, level.niceMatchLength, level.depth) && Optimal.Limited(s, |data| - s.next, level.niceMatchLength)
      invariant os.Valid() && os.bitcount < 8 && Written(bs, os.all, data, s.next) && Parsed(bs, data, s.next, level, split)
      decreases |data| - s.next
    {
      ghost var from, was := s.next, bs;
      s, bs := NextOptimalBlock(mf, n, os, data, s, level, split, staticTables, wordwise, bs);
      ParsedMore(was, bs, data, from, s.next, level, split);
    }
  }

  /** An input too small to compress, as one stored block. */
  method StoreSmall(os: OutputBitstream, data: seq<Byte>, wordwise: bool) returns (ghost bs: seq<DeflateStream.Block>)
    requires |data| < MIN_COMPRESSED && os.Valid() && os.bitcount < 8 && os.all == []
    modifies os`bitbuf, os`bitcount, os`all, os`next, os.buffer
    ensures os.Valid() && os.bitcount < 8 && Written(bs, os.all, data, |data|) && bs == [Stored(true, data)]
  {
    hide OutputBitstream.Valid, BitsOf, Stream, Unpacked, GoodBlocks;
    bs := [Stored(true, data)];
    OneBlock(bs[0], 0, []);
    assert [] + data == data && data[..|data|] == data;
    WriteUncompressedBlock(os, data, true, wordwise, 0);
    assert os.all == [] + BitsOf(bs[0], 0, 0);
  }

  lemma WrittenHolds(bs: seq<DeflateStream.Block>, all: Bits, data: seq<Byte>, bytes: seq<Byte>)
    requires Written(bs, all, data, |data|) && |bytes| == (|all| + 7) / 8 && forall j: nat :: j < |all| ==> all[j] == StreamBit(bytes, j)
    ensures DeflateStream.Holds(bytes, bs, data)
  {
    hide GoodBlocks, Unpacked, Stream;
    assert data[..|data|] == data;
  }

  /** The whole output reaches the end of the buffer exactly when it has as many bytes as there are before the padding. */
  lemma FitsWhen(os: OutputBitstream)
    requires os.Valid() && os.bitcount < 8
    ensures os.next <= os.end && (os.next == os.end <==> |os.all| / 8 >= os.end)
  {
    hide BitWriter.Holds, ZeroFrom;
    os.InStep();
  }

  /** Compresses data of any size, the empty one included, into a buffer of the given size; nothing when it does not fit. */
  method Compress(data: seq<Byte>, outAvail: nat, level: Level, split: (nat, nat) -> bool, staticTables: Tables, wordwise: bool)
    returns (bytes: seq<Byte>, ghost bs: seq<DeflateStream.Block>)
    requires GoodTables(staticTables) && staticTables.codes == staticTables.lens == StaticCodes() && GoodLevel(level)
    ensures outAvail < 8 ==> bytes == []
    ensures outAvail >= 8 ==> GoodBlocks(bs, []) && (bytes != [] <==> |Stream(bs, 0, [])| / 8 < outAvail - 8)
    ensures bytes != [] ==> |bytes| <= outAvail && DeflateStream.Holds(bytes, bs, data)
    ensures outAvail >= 8 ==> if |data| < 16 then bs == [Stored(true, data)] else Parsed(bs, data, |data|, level, split)
  {
    hide Parsed, OutputBitstream.Valid, GoodTables, Written, GoodBlocks, Stream, DeflateStream.Holds, GoodLevel;
    bs := [];
    if outAvail < OUTPUT_END_PADDING {
      return [], bs;
    }
    var buffer := new Byte[outAvail];
    var os := new OutputBitstream(buffer);
    if |data| < MIN_COMPRESSED {
      bs := StoreSmall(os, data, wordwise);
    } else if level.strategy.NearOptimal? {
      bs := CompressOptimally(os, data, level, split, staticTables, wordwise);
    } else {
      bs := CompressBlocks(os, data, level, split, staticTables, wordwise);
    }
    FitsWhen(os);
    WrittenBits(bs, os.all, data);
    ghost var all := os.all;
    var size := os.FlushOutput();
    bytes := buffer[..size];
    if size > 0 { WrittenHolds(bs, all, data, bytes); }
  }

  lemma WrittenBits(bs: seq<DeflateStream.Block>, all: Bits, data: seq<Byte>)
    requires Written(bs, all, data, |data|)
    ensures GoodBlocks(bs, []) && all == Stream(bs, 0, []) && |all| > 0
  {
    if bs != [] { assert |BitsOf(bs[0], 0, 0)| >= 3; }
  }
}
