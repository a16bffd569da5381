/** The DEFLATE format as a whole: a stream of blocks of three kinds, the bits of each, and what they unpack to. */
module DeflateStream {
  import opened BitFields
  import opened CanonicalCode
  import opened DecodeTable
  import opened DeflateSymbols
  import opened BlockItems
  import DynamicHeader
  import PrecodeItems

  const UNCOMPRESSED: nat := 0
  const STATIC_HUFFMAN: nat := 1
  const DYNAMIC_HUFFMAN: nat := 2
  const UINT16_MAX: nat := 65535
  const MAX_CODEWORD_LEN: nat := 15

  /** The lengths of the static codes (RFC 1951 section 3.2.6). */
  function StaticLitlen(s: nat): nat { if s < 144 then 8 else if s < 256 then 9 else if s < 280 then 7 else 8 }

  function StaticCodes(): (c: Codes)
    ensures |c.litlen| == NUM_LITLEN_SYMS && forall s :: 0 <= s < NUM_LITLEN_SYMS ==> c.litlen[s] == StaticLitlen(s)
    ensures |c.offset| == NUM_OFFSET_SYMS && forall s :: 0 <= s < NUM_OFFSET_SYMS ==> c.offset[s] == 5
  {
    Codes(seq(NUM_LITLEN_SYMS, s requires 0 <= s < NUM_LITLEN_SYMS => StaticLitlen(s)), seq(NUM_OFFSET_SYMS, s requires 0 <= s < NUM_OFFSET_SYMS => 5))
  }

  /** One block, with the flag of the last one. */
  datatype Block =
    | Stored(last: bool, data: seq<Byte>)
    | Fixed(last: bool, items: seq<Item>)
    | Dynamic(last: bool, h: DynamicHeader.Header, codes: Codes, items: seq<Item>)

  /** A code that can be sent: complete, without any codeword, or of a single codeword of one bit. */
  ghost predicate Sendable(lens: seq<nat>) {
    CompleteCode(lens, MAX_CODEWORD_LEN) || ((EmptyCode(lens) || OneBitCode(lens)) && FittingCode(lens, MAX_CODEWORD_LEN))
  }

  /** The header's items stand for the used part of both codes. */
  ghost predicate HeaderOf(h: DynamicHeader.Header, codes: Codes) {
    && |codes.litlen| == NUM_LITLEN_SYMS && |codes.offset| == NUM_OFFSET_SYMS
    && DynamicHeader.GoodHeader(h) && PrecodeItems.Run(h.items) == codes.litlen[..h.numLitlen] + codes.offset[..h.numOffset]
    && (forall s :: h.numLitlen <= s < NUM_LITLEN_SYMS ==> codes.litlen[s] == 0)
    && (forall s :: h.numOffset <= s < NUM_OFFSET_SYMS ==> codes.offset[s] == 0)
  }

  /** Items that can be written with the codes after so many bytes, and then the end of the block. */
  ghost predicate GoodBody(codes: Codes, items: seq<Item>, before: nat) {
    && |codes.litlen| == NUM_LITLEN_SYMS && |codes.offset| == NUM_OFFSET_SYMS
    && ValidItems(items, before) && AllEncodable(codes, items, before) && codes.litlen[END_OF_BLOCK] > 0
  }

  ghost predicate Good(b: Block, before: nat) {
    match b
    case Stored(_, data) => |data| <= UINT16_MAX
    case Fixed(_, items) => GoodBody(StaticCodes(), items, before)
    case Dynamic(_, h, codes, items) =>
      HeaderOf(h, codes) && Sendable(codes.litlen) && Sendable(codes.offset) && GoodBody(codes, items, before)
  }

  // ---- Bits ----------------------------------------------------------------------------------

  function Kind(b: Block): (k: nat)
    ensures k < 3
  {
    if b.Stored? then UNCOMPRESSED else if b.Fixed? then STATIC_HUFFMAN else DYNAMIC_HUFFMAN
  }

  /** The three bits that every block starts with. */
  function StartBits(b: Block): (r: Bits)
    ensures |r| == 3
  {
    ToBits(One(b.last), 1) + ToBits(Kind(b), 2)
  }

  /** Zeros from the end of the start of a block up to a whole byte. */
  function Padding(pos: nat): (n: nat)
    ensures n < 8 && (pos + 3 + n) % 8 == 0
  {
    (8 - (pos + 3) % 8) % 8
  }

  function LengthFields(len: nat): (r: seq<Byte>)
    requires len <= UINT16_MAX
    ensures |r| == 4
  {
    [len % 256, len / 256, (UINT16_MAX - len) % 256, (UINT16_MAX - len) / 256]
  }

  /** What follows the start of a block at this bit position, after so many bytes of output. */
  ghost function Rest(b: Block, pos: nat, before: nat): Bits
    requires Good(b, before)
  {
    match b
    case Stored(_, data) => ToBits(0, Padding(pos)) + Window(LengthFields(|data|) + data, 0, 8 * (4 + |data|))
    case Fixed(_, items) => BlockBits(StaticCodes(), items, before)
    case Dynamic(_, h, codes, items) => DynamicHeader.HeaderBits(h) + BlockBits(codes, items, before)
  }

  ghost function BitsOf(b: Block, pos: nat, before: nat): (r: Bits)
    requires Good(b, before)
    ensures |r| >= 3
  {
    StartBits(b) + Rest(b, pos, before)
  }

  /** The output after the block. */
  ghost function Output(b: Block, out: seq<Byte>): (r: seq<Byte>)
    requires Good(b, |out|)
    ensures |r| >= |out|
  {
    if b.Stored? then out + b.data else Expand(out, b.items)
  }

  // ---- Streams -------------------------------------------------------------------------------

  ghost predicate GoodBlocks(bs: seq<Block>, out: seq<Byte>)
    decreases |bs|
  {
    bs == [] || (Good(bs[0], |out|) && GoodBlocks(bs[1..], Output(bs[0], out)))
  }

  /** The bits of blocks that start at a position, one after the other. */
  ghost function Stream(bs: seq<Block>, pos: nat, out: seq<Byte>): Bits
    requires GoodBlocks(bs, out)
    decreases |bs|
  {
    if bs == [] then []
    else
      var first := BitsOf(bs[0], pos, |out|);
      first + Stream(bs[1..], pos + |first|, Output(bs[0], out))
  }

  ghost function Unpacked(bs: seq<Block>, out: seq<Byte>): (r: seq<Byte>)
    requires GoodBlocks(bs, out)
    ensures |r| >= |out|
    decreases |bs|
  {
    if bs == [] then out else Unpacked(bs[1..], Output(bs[0], out))
  }

  /** Blocks after blocks. */
  lemma {:induction false} StreamAppend(a: seq<Block>, b: seq<Block>, pos: nat, out: seq<Byte>)
    requires GoodBlocks(a, out) && GoodBlocks(b, Unpacked(a, out))
    ensures GoodBlocks(a + b, out) && Unpacked(a + b, out) == Unpacked(b, Unpacked(a, out))
    ensures Stream(a + b, pos, out) == Stream(a, pos, out) + Stream(b, pos + |Stream(a, pos, out)|, Unpacked(a, out))
    decreases |a|
  {
    hide Good, BitsOf, Output;
    if a == [] {
      assert a + b == b;
    } else {
      assert (a + b)[0] == a[0] && (a + b)[1..] == a[1..] + b;
      var first := BitsOf(a[0], pos, |out|);
      StreamAppend(a[1..], b, pos + |first|, Output(a[0], out));
    }
  }

  lemma OneBlock(b: Block, pos: nat, out: seq<Byte>)
    requires Good(b, |out|)
    ensures GoodBlocks([b], out) && Unpacked([b], out) == Output(b, out) && Stream([b], pos, out) == BitsOf(b, pos, |out|)
  {
    hide Good, BitsOf, Output;
    var none: seq<Block> := [b][1..];
    assert none == [];
    assert GoodBlocks(none, Output(b, out));
  }

  /** Only the last block has the flag. */
  ghost predicate Flagged(bs: seq<Block>, last: bool) { forall i :: 0 <= i < |bs| ==> (bs[i].last <==> last && i == |bs| - 1) }

  /** The bytes hold, from their first bit on, blocks that unpack to the data and of which the last is flagged. */
  ghost predicate Holds(bytes: seq<Byte>, bs: seq<Block>, data: seq<Byte>) {
    && bs != [] && GoodBlocks(bs, []) && Flagged(bs, true) && Unpacked(bs, []) == data
    && |Stream(bs, 0, [])| <= 8 * |bytes|
    && forall j: nat :: j < |Stream(bs, 0, [])| ==> Stream(bs, 0, [])[j] == StreamBit(bytes, j)
  }

  ghost predicate IsStream(bytes: seq<Byte>, data: seq<Byte>) { exists bs :: Holds(bytes, bs, data) }
}
