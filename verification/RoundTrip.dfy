/** Decompressing what was compressed. */
module RoundTrip {
  import opened BitFields
  import opened BlockWriter
  import opened Deflate
  import opened DeflateStream
  import opened Inflate
  import opened StaticTables
  import StreamExamples
  import OwnCodesExample

  /** Whatever the data, the level and the splitting into blocks, compressed output that fits is decompressed to the data. */
  method CompressThenDecompress(data: seq<Byte>, outAvail: nat, level: Level, split: (nat, nat) -> bool, w: Work, wordwise: bool,
                                unalignedIsFast: bool)
    returns (compressed: seq<Byte>, r: Inflate.Result, back: seq<Byte>)
    requires GoodWork(w) && GoodLevel(level)
    modifies w.preTable, w.litTable, w.offTable, w.lens
    ensures compressed != [] ==> |compressed| <= outAvail && r == Decompressed(|data|) && back == data
  {
    hide GoodTables, GoodWork, GoodLevel, DeflateStream.Holds, GoodBlocks, Stream;
    r, back := ShortOutput, [];
    var staticTables := InitStaticCodes();
    ghost var bs;
    compressed, bs := Compress(data, outAvail, level, split, staticTables, wordwise);
    if compressed != [] {
      var out := new Byte[|data|];
      assert IsStream(compressed, data);
      r := Decompress(compressed, out, true, w, wordwise, unalignedIsFast, data);
      back := out[..];
      assert out[..|data|] == out[..];
    }
  }

  /** Streams given byte by byte are decompressed to the data that the format says: a static block with a letter, one with a
      match, and one with codes of its own. */
  method DecompressExamples(w: Work, wordwise: bool, unalignedIsFast: bool) returns (a: seq<Byte>, b: seq<Byte>, c: seq<Byte>)
    requires GoodWork(w)
    modifies w.preTable, w.litTable, w.offTable, w.lens
    ensures a == [97]
    ensures b == [97, 98, 97, 98, 97, 98, 97, 98, 97, 98, 97, 98, 97, 98]
    ensures c == [97, 98, 98, 98, 98, 97, 98, 98, 98, 98]
  {
    hide GoodWork, IsStream;
    StreamExamples.LetterAStream();
    StreamExamples.LettersStream();
    OwnCodesExample.OwnCodesStream();
    a := DecompressExactly([0x4B, 0x04, 0x00], [97], w, wordwise, unalignedIsFast);
    b := DecompressExactly([0x4B, 0x4C, 0x42, 0x86, 0x00], StreamExamples.SevenTimes, w, wordwise, unalignedIsFast);
    c := DecompressExactly([29, 196, 73, 1, 0, 0, 0, 131, 160, 172, 218, 63, 196, 14, 30, 96, 189, 0], OwnCodesExample.AbbbbTwice, w, wordwise, unalignedIsFast);
  }

  method DecompressExactly(bytes: seq<Byte>, ghost data: seq<Byte>, w: Work, wordwise: bool, unalignedIsFast: bool) returns (back: seq<Byte>)
    requires GoodWork(w) && IsStream(bytes, data) && |data| <= 100
    modifies w.preTable, w.litTable, w.offTable, w.lens
    ensures back == data
  {
    hide GoodWork, IsStream;
    var out := new Byte[100];
    var r := Decompress(bytes, out, false, w, wordwise, unalignedIsFast, data);
    back := if r.Decompressed? then out[..r.size] else [];
  }
}
