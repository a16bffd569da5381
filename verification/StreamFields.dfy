/** Bit strings made of fields, and the one number that holds them all. */
module StreamFields {
  import opened Powers
  import opened Shifts
  import opened BitFields
  import opened BitReversal
  import opened CanonicalCode
  import opened BlockItems
  import opened DeflateSymbols
  import opened DeflateStream

  /** Fields of a value and a number of bits each, the first one lowest. */
  datatype Fields = NoMore | Field(value: nat, bits: nat, rest: Fields)

  function Concat(f: Fields): Bits {
    match f
    case NoMore => []
    case Field(v, n, rest) => ToBits(v, n) + Concat(rest)
  }

  function Width(f: Fields): nat {
    match f
    case NoMore => 0
    case Field(v, n, rest) => n + Width(rest)
  }

  function Number(f: Fields): nat {
    match f
    case NoMore => 0
    case Field(v, n, rest) => v + Pow2(n) * Number(rest)
  }

  predicate Fit(f: Fields) {
    match f
    case NoMore => true
    case Field(v, n, rest) => v < Pow2(n) && Fit(rest)
  }

  function Then(f: Fields, g: Fields): Fields {
    match f
    case NoMore => g
    case Field(v, n, rest) => Field(v, n, Then(rest, g))
  }

  lemma {:induction false} ConcatThen(f: Fields, g: Fields)
    ensures Concat(Then(f, g)) == Concat(f) + Concat(g)
  {
    if f.Field? { ConcatThen(f.rest, g); }
  }

  /** One more field in front, of a width that is p values. */
  lemma NextField(v: nat, n: nat, p: nat, f: Fields)
    requires Fit(f) && Pow2(n) == p && v < p
    ensures Fit(Field(v, n, f)) && Number(Field(v, n, f)) == v + p * Number(f) && Width(Field(v, n, f)) == n + Width(f)
  {
  }

  lemma NextOctet(v: nat, f: Fields)
    requires Fit(f) && Whole(f) && v < 256
    ensures Fit(Field(v, 8, f)) && Whole(Field(v, 8, f)) && Octets(Field(v, 8, f)) == [v] + Octets(f)
    ensures Number(Field(v, 8, f)) == v + 256 * Number(f) && Width(Field(v, 8, f)) == 8 + Width(f)
  {
    assert Pow2(8) == 256 by { Pow2Values(); }
  }

  lemma NoFields()
    ensures Fit(NoMore) && Whole(NoMore) && Number(NoMore) == 0 && Width(NoMore) == 0 && Octets(NoMore) == [] && Concat(NoMore) == []
  {
  }

  lemma {:induction false} Join(v: nat, n: nat, x: nat, m: nat)
    requires v < Pow2(n)
    ensures ToBits(v + Pow2(n) * x, n + m) == ToBits(v, n) + ToBits(x, m)
    decreases n
  {
    if n > 0 {
      var y := v + Pow2(n) * x;
      assert Pow2(n) * x == 2 * (Pow2(n - 1) * x);
      assert y % 2 == v % 2 && y / 2 == v / 2 + Pow2(n - 1) * x;
      Join(v / 2, n - 1, x, m);
      assert ToBits(y, n + m) == [y % 2 == 1] + ToBits(y / 2, n - 1 + m);
    } else {
      assert v == 0 && Pow2(0) * x == x;
    }
  }

  /** The fields are the bits of the one number. */
  lemma {:induction false} FieldsAreNumber(f: Fields)
    requires Fit(f)
    ensures Concat(f) == ToBits(Number(f), Width(f)) && |Concat(f)| == Width(f) && Number(f) < Pow2(Width(f))
  {
    match f
    case NoMore =>
    case Field(v, n, rest) =>
      FieldsAreNumber(rest);
      Join(v, n, Number(rest), Width(rest));
      Pow2Add(n, Width(rest));
      Below(v, Pow2(n), Number(rest), Pow2(Width(rest)));
  }

  lemma Below(v: nat, a: nat, x: nat, b: nat)
    requires v < a && x < b
    ensures v + a * x < a * b
  {
    assert a * x + a == a * (x + 1);
    assert a * (x + 1) <= a * b;
  }

  // ---- Bytes ---------------------------------------------------------------------------------

  /** Fields of eight bits, as bytes. */
  function Octets(f: Fields): seq<Byte> {
    match f
    case NoMore => []
    case Field(v, n, rest) => [v % 256] + Octets(rest)
  }

  predicate Whole(f: Fields) { f.NoMore? || (f.value < 256 && f.bits == 8 && Whole(f.rest)) }

  lemma {:induction false} OctetBits(f: Fields, j: nat)
    requires Whole(f) && j < 8 * |Octets(f)|
    ensures |Concat(f)| == 8 * |Octets(f)| && StreamBit(Octets(f), j) == Concat(f)[j]
  {
    hide ToBits, StreamBit, Bit, Width;
    OctetSize(f);
    var v, rest := f.value, Octets(f.rest);
    FirstOctet(f);
    StreamBitOf(v, rest, j);
    if j < 8 {
      ToBitsAt(v, 8, j);
    } else {
      OctetBits(f.rest, j - 8);
    }
  }

  lemma FirstOctet(f: Fields)
    requires f.Field? && Whole(f)
    ensures f.value < 256 && Whole(f.rest) && Octets(f) == [f.value] + Octets(f.rest) && Concat(f) == ToBits(f.value, 8) + Concat(f.rest)
  {
    hide ToBits;
  }

  lemma StreamBitOf(x: Byte, rest: seq<Byte>, j: nat)
    ensures StreamBit([x] + rest, j) == if j < 8 then Bit(x, j) == 1 else StreamBit(rest, j - 8)
  {
    hide Bit;
    var k := if j < 8 then 0 else j - 8;
    if j >= 8 { assert j / 8 == k / 8 + 1 && j % 8 == k % 8; }
  }

  lemma {:induction false} OctetSize(f: Fields)
    requires Whole(f)
    ensures |Concat(f)| == 8 * |Octets(f)| && Width(f) == 8 * |Octets(f)|
  {
    if f.Field? { OctetSize(f.rest); }
  }

  /** Bytes whose number is that of the fields hold them, with zeros behind. */
  lemma BytesHold(f: Fields, o: Fields)
    requires Fit(f) && Fit(o) && Whole(o) && Number(f) == Number(o) && Width(f) <= Width(o)
    ensures |Concat(f)| <= 8 * |Octets(o)| && forall j: nat :: j < |Concat(f)| ==> Concat(f)[j] == StreamBit(Octets(o), j)
  {
    hide ToBits, Concat, Octets, Number, Fit, Whole, Width;
    FieldsAreNumber(f);
    FieldsAreNumber(o);
    OctetSize(o);
    ToBitsPadded(Number(f), Width(f), Width(o));
    forall j: nat | j < |Concat(f)|
      ensures Concat(f)[j] == StreamBit(Octets(o), j)
    {
      OctetBits(o, j);
      assert ToBits(Number(f), Width(o))[..Width(f)][j] == ToBits(Number(f), Width(f))[j];
    }
  }

  // ---- Blocks --------------------------------------------------------------------------------

  /** A codeword as a field. */
  function Codeword(c: nat, len: nat, rest: Fields): Fields { Field(Reversed(c, len), len, rest) }

  lemma CodewordIs(lens: seq<nat>, s: nat, c: nat, rest: Fields)
    requires s < |lens| && Code(lens, s) == c
    ensures CodeBits(lens, s) + Concat(rest) == Concat(Codeword(c, lens[s], rest))
  {
  }

  /** One block, flagged as the last, whose bits are these fields. */
  lemma OneBlockStream(b: Block, f: Fields, o: Fields, data: seq<Byte>)
    requires b.last && Good(b, 0) && BitsOf(b, 0, 0) == Concat(f) && Output(b, []) == data
    requires Fit(f) && Fit(o) && Whole(o) && Number(f) == Number(o) && Width(f) <= Width(o)
    ensures IsStream(Octets(o), data)
  {
    hide Good, BitsOf, Output, Concat, Number, Fit, Whole, Width, Octets;
    OneBlock(b, 0, []);
    BytesHold(f, o);
    assert Holds(Octets(o), [b], data);
  }

  // ---- Items as fields -----------------------------------------------------------------------

  ghost predicate Sized(codes: Codes) { |codes.litlen| == NUM_LITLEN_SYMS && |codes.offset| == NUM_OFFSET_SYMS }

  /** The end of a block. */
  lemma EndThen(codes: Codes, before: nat, c: nat)
    requires Sized(codes) && Code(codes.litlen, END_OF_BLOCK) == c
    ensures BlockBits(codes, [], before) == Concat(Codeword(c, codes.litlen[END_OF_BLOCK], NoMore))
  {
  }

  /** A literal before the rest of a block. */
  lemma LiteralThen(codes: Codes, b: Byte, items: seq<Item>, before: nat, c: nat, f: Fields)
    requires Sized(codes) && ValidItems(items, before + 1) && BlockBits(codes, items, before + 1) == Concat(f) && Code(codes.litlen, b) == c
    ensures ValidItems([Literal(b)] + items, before)
    ensures BlockBits(codes, [Literal(b)] + items, before) == Concat(Codeword(c, codes.litlen[b], f))
  {
    hide Code, Reversed, ToBits;
    var all := [Literal(b)] + items;
    assert all[0] == Literal(b) && all[1..] == items;
    CodewordIs(codes.litlen, b, c, f);
  }

  lemma Rightwards(a: Bits, b: Bits, c: Bits, d: Bits, r: Bits)
    ensures a + b + c + d + r == a + (b + (c + (d + r)))
  {
    assert a + b + c + d + r == a + b + c + (d + r);
    assert a + b + c + (d + r) == a + b + (c + (d + r));
  }

  lemma MatchFirst(codes: Codes, length: nat, offset: nat, items: seq<Item>, before: nat, l: nat, o: nat)
    requires Sized(codes) && 3 <= length <= 258 && 1 <= offset <= before && offset <= 32768 && ValidItems(items, before + length)
    requires LengthSlot(length) == l && OffsetSlot(offset) == o
    requires l < |LengthBase| == |LengthExtra| && LengthBase[l] <= length && o < |OffsetBase| == |OffsetExtra| && OffsetBase[o] <= offset
    requires 257 + l < NUM_LITLEN_SYMS && o < NUM_OFFSET_SYMS
    ensures ValidItems([Match(length, offset)] + items, before)
    ensures BlockBits(codes, [Match(length, offset)] + items, before) ==
      CodeBits(codes.litlen, 257 + l) + ToBits(length - LengthBase[l], LengthExtra[l]) + CodeBits(codes.offset, o) + ToBits(offset - OffsetBase[o], OffsetExtra[o])
        + BlockBits(codes, items, before + length)
  {
    hide Code, ToBits, LengthSlot, OffsetSlot, CodeBits, SlotUpTo, Pow2;
    var all := [Match(length, offset)] + items;
    assert all[0] == Match(length, offset) && all[1..] == items;
  }

  /** A match before the rest of a block. */
  lemma MatchThen(codes: Codes, length: nat, offset: nat, items: seq<Item>, before: nat, l: nat, o: nat, cl: nat, co: nat, f: Fields)
    requires Sized(codes) && 3 <= length <= 258 && 1 <= offset <= before && offset <= 32768 && ValidItems(items, before + length)
    requires LengthSlot(length) == l && OffsetSlot(offset) == o && BlockBits(codes, items, before + length) == Concat(f)
    requires l < |LengthBase| == |LengthExtra| && LengthBase[l] <= length && o < |OffsetBase| == |OffsetExtra| && OffsetBase[o] <= offset
    requires 257 + l < NUM_LITLEN_SYMS && o < NUM_OFFSET_SYMS && Code(codes.litlen, 257 + l) == cl && Code(codes.offset, o) == co
    ensures ValidItems([Match(length, offset)] + items, before)
    ensures BlockBits(codes, [Match(length, offset)] + items, before) ==
      Concat(Codeword(cl, codes.litlen[257 + l], Field(length - LengthBase[l], LengthExtra[l],
        Codeword(co, codes.offset[o], Field(offset - OffsetBase[o], OffsetExtra[o], f)))))
  {
    hide Code, Reversed, ToBits, LengthSlot, OffsetSlot, CodeBits, SlotUpTo, Pow2, ItemsBits;
    MatchFirst(codes, length, offset, items, before, l, o);
    Rightwards(CodeBits(codes.litlen, 257 + l), ToBits(length - LengthBase[l], LengthExtra[l]), CodeBits(codes.offset, o),
      ToBits(offset - OffsetBase[o], OffsetExtra[o]), BlockBits(codes, items, before + length));
    var back := Field(offset - OffsetBase[o], OffsetExtra[o], f);
    CodewordIs(codes.offset, o, co, back);
    CodewordIs(codes.litlen, 257 + l, cl, Field(length - LengthBase[l], LengthExtra[l], Codeword(co, codes.offset[o], back)));
  }
}
