/** The CRC-32 table and the loops that take one, four or eight bytes at a time, against the bit-wise definition. */
module Crc32Slices {
  import opened Powers
  import opened BitFields
  import opened Crc32

  // ---- The table -----------------------------------------------------------------------------

  /** The register after byte v and k zero bytes, from an empty start. */
  function Entry(v: Byte, k: nat): Word32 { Steps(ZERO, ToBits(v, 8) + Zeros(8 * k)) }

  type Table = t: seq<Word32> | |t| == 0x800 witness Blank()

  function Blank(): (t: seq<Word32>)
    ensures |t| == 0x800
  {
    seq(0x800, i => ZERO)
  }

  predicate IsTable(t: Table) {
    forall i: nat | i < 0x800 :: t[i] == Entry(i % 0x100, i / 0x100)
  }

  /** crc32_update_byte of the generator: one bit after the other, the byte shifted down. */
  method UpdateByBits(r0: Word32, byte: Byte) returns (r: Word32)
    ensures r == Steps(r0, ToBits(byte, 8))
  {
    hide Steps, Step;
    r := r0;
    ghost var done: Bits := [];
    var next, j: nat := byte, 0;
    Empty(r0);
    while j < 8
      invariant j <= 8 && r == Steps(r0, done) && |done| == j && ToBits(byte, 8) == done + ToBits(next, 8 - j)
    {
      StepsAppend(r0, done, [next % 2 == 1]);
      StepsOne(r, next % 2 == 1);
      assert ToBits(byte, 8) == (done + [next % 2 == 1]) + ToBits(next / 2, 7 - j);
      r := Step(r, next % 2 == 1);
      done := done + [next % 2 == 1];
      next := next / 2;
      j := j + 1;
    }
    assert ToBits(next, 0) == [] && done + [] == done;
  }

  lemma StepsOne(r: Word32, bit: bool)
    ensures Steps(r, [bit]) == Step(r, bit)
  {
    assert [bit][..0] == [];
    Empty(r);
  }

  /** The generator's two loops fill the whole table. */
  method FillTable(t: array<Word32>)
    requires t.Length == 0x800
    modifies t
    ensures IsTable(t[..])
  {
    hide Steps, Entry;
    var i: nat := 0;
    while i < 0x100
      invariant i <= 0x100 && forall j: nat | j < i :: t[j] == Entry(j, 0)
    {
      t[i] := UpdateByBits(ZERO, i);
      FirstEntry(i);
      i := i + 1;
    }
    while i < 0x800
      invariant 0x100 <= i <= 0x800 && forall j: nat | j < i :: t[j] == Entry(j % 0x100, j / 0x100)
    {
      t[i] := UpdateByBits(t[i - 0x100], 0);
      assert (i - 0x100) % 0x100 == i % 0x100 && (i - 0x100) / 0x100 == i / 0x100 - 1;
      NextEntry(i % 0x100, i / 0x100);
      i := i + 1;
    }
  }

  lemma FirstEntry(v: Byte)
    ensures Entry(v, 0) == Steps(ZERO, ToBits(v, 8))
  {
    assert ToBits(v, 8) + Zeros(0) == ToBits(v, 8);
  }

  lemma NextEntry(v: Byte, k: nat)
    requires k > 0
    ensures Entry(v, k) == Steps(Entry(v, k - 1), ToBits(0, 8))
  {
    ZeroByte();
    assert ToBits(v, 8) + Zeros(8 * k) == (ToBits(v, 8) + Zeros(8 * (k - 1))) + Zeros(8);
    StepsAppend(ZERO, ToBits(v, 8) + Zeros(8 * (k - 1)), Zeros(8));
  }

  lemma ZeroByte()
    ensures ToBits(0, 8) == Zeros(8)
  {
    forall i: nat | i < 8 ensures !ToBits(0, 8)[i] { ToBitsZero(8, i); }
  }

  /** A table look-up by eight bits of a register. */
  function At(t: Table, k: nat, b: Bits): Word32
    requires k < 8 && |b| == 8
  {
    IndexFits(b);
    t[0x100 * k + FromBits(b)]
  }

  lemma IndexFits(b: Bits)
    requires |b| == 8
    ensures FromBits(b) < 0x100
  {
    assert Pow2(8) == 256;
  }

  lemma AtIs(t: Table, k: nat, b: Bits)
    requires IsTable(t) && k < 8 && |b| == 8
    ensures At(t, k, b) == Steps(ZERO, b + Zeros(8 * k))
  {
    hide Steps;
    IndexFits(b);
    BitsRoundTrip(b);
    var i := 0x100 * k + FromBits(b);
    assert i % 0x100 == FromBits(b) && i / 0x100 == k;
  }

  // ---- One byte ------------------------------------------------------------------------------

  function Bits8(v: Byte): (r: Bits) ensures |r| == 8 { ToBits(v, 8) }

  /** crc32_update_byte */
  function UpdateByte(t: Table, r: Word32, v: Byte): Word32
  {
    Xor(Shr(r, 8), At(t, 0, Xor(r[..8], Bits8(v))))
  }

  lemma UpdateByteIs(t: Table, r: Word32, v: Byte)
    requires IsTable(t)
    ensures UpdateByte(t, r, v) == Run(r, [v])
  {
    hide Steps, Xor, IsTable, At;
    var b := Bits8(v);
    OneByte(v);
    Absorbs(r, b);
    var x: Word32 := Xor(r, Pad(b));
    Peel(x, 8);
    PaddedParts(r, b);
    AtIs(t, 0, x[..8]);
    Empty(Shr(x, 8));
    assert Zeros(0) == [];
    XorSwaps(Shr(r, 8), At(t, 0, x[..8]));
  }

  lemma OneByte(v: Byte)
    ensures BitsOf([v]) == Bits8(v)
  {
    assert [v][..0] == [] && BitsOf([]) == [];
  }

  lemma XorSwaps(a: Bits, b: Bits)
    requires |a| == |b|
    ensures Xor(a, b) == Xor(b, a)
  {
  }

  lemma PaddedParts(r: Word32, b: Bits)
    requires |b| == 8
    ensures Xor(r, Pad(b))[..8] == Xor(r[..8], b) && Shr(Xor(r, Pad(b)), 8) == Shr(r, 8)
  {
  }

  // ---- Words ---------------------------------------------------------------------------------

  /** A little-endian 32-bit load. */
  function Load(data: seq<Byte>, p: nat): Word32
    requires p + 4 <= |data|
  {
    Bits8(data[p]) + Bits8(data[p + 1]) + Bits8(data[p + 2]) + Bits8(data[p + 3])
  }

  lemma LoadIs(data: seq<Byte>, p: nat)
    requires p + 4 <= |data|
    ensures BitsOf(data[p..p + 4]) == Load(data, p)
  {
    hide ToBits, BitsOf;
    var w := data[p..p + 4];
    assert w == [w[0]] + [w[1]] + [w[2]] + [w[3]];
    OneByte(w[0]); OneByte(w[1]); OneByte(w[2]); OneByte(w[3]);
    BitsOfAppend([w[0]], [w[1]]);
    BitsOfAppend([w[0]] + [w[1]], [w[2]]);
    BitsOfAppend([w[0]] + [w[1]] + [w[2]], [w[3]]);
  }

  /** Byte k of a register. */
  function Octet(x: Word32, k: nat): (r: Bits)
    requires k < 4
    ensures |r| == 8
  {
    x[8 * k..8 * k + 8]
  }

  /** Four look-ups: the bytes of x, with k zero bytes still to follow the last. */
  function Four(t: Table, x: Word32, k: nat): Word32
    requires k + 3 < 8
  {
    Xor(Xor(Xor(At(t, k + 3, Octet(x, 0)), At(t, k + 2, Octet(x, 1))), At(t, k + 1, Octet(x, 2))), At(t, k, Octet(x, 3)))
  }

  lemma FourIs(t: Table, x: Word32, k: nat)
    requires IsTable(t) && k + 3 < 8
    ensures Four(t, x, k) == Steps(x, Zeros(32 + 8 * k))
  {
    hide Steps, Xor, IsTable, At, Shr;
    Peel(x, 32 + 8 * k);
    Peel(Shr(x, 8), 24 + 8 * k);
    Peel(Shr(x, 16), 16 + 8 * k);
    Peel(Shr(x, 24), 8 + 8 * k);
    ShrParts(x);
    AtIs(t, k + 3, Octet(x, 0)); AtIs(t, k + 2, Octet(x, 1)); AtIs(t, k + 1, Octet(x, 2)); AtIs(t, k, Octet(x, 3));
    ZerosStay(8 * k);
    RightNested(At(t, k + 3, Octet(x, 0)), At(t, k + 2, Octet(x, 1)), At(t, k + 1, Octet(x, 2)), At(t, k, Octet(x, 3)));
  }

  lemma ShrParts(x: Word32)
    ensures Shr(Shr(x, 8), 8) == Shr(x, 16) && Shr(Shr(x, 16), 8) == Shr(x, 24) && Shr(Shr(x, 24), 8) == ZERO
    ensures x[..8] == Octet(x, 0) && Shr(x, 8)[..8] == Octet(x, 1) && Shr(x, 16)[..8] == Octet(x, 2) && Shr(x, 24)[..8] == Octet(x, 3)
  {
  }

  lemma {:induction false} ZerosStay(n: nat)
    ensures Steps(ZERO, Zeros(n)) == ZERO
  {
    if n > 0 {
      ZerosStay(n - 1);
      assert Zeros(n)[..n - 1] == Zeros(n - 1);
      assert Step(ZERO, false) == ZERO;
    }
  }

  lemma RightNested(a: Word32, b: Word32, c: Word32, d: Word32)
    ensures Xor(Xor(Xor(a, b), c), d) == Xor(a, Xor(b, Xor(c, Xor(d, ZERO))))
  {
  }

  /** Four bytes at once. */
  lemma FourBytes(t: Table, r: Word32, data: seq<Byte>, p: nat)
    requires IsTable(t) && p + 4 <= |data|
    ensures Four(t, Xor(r, Load(data, p)), 0) == Run(r, data[p..p + 4])
  {
    hide Steps, Xor, IsTable, Four, BitsOf;
    var v := Load(data, p);
    LoadIs(data, p);
    Absorbs(r, v);
    assert Pad(v) == v;
    FourIs(t, Xor(r, v), 0);
  }

  /** Eight bytes at once: the register meets the first four only. */
  lemma EightBytes(t: Table, r: Word32, data: seq<Byte>, p: nat)
    requires IsTable(t) && p + 8 <= |data|
    ensures Xor(Four(t, Xor(r, Load(data, p)), 4), Four(t, Load(data, p + 4), 0)) == Run(r, data[p..p + 8])
  {
    hide Steps, Xor, IsTable, Four, BitsOf, Load, Pad;
    var u, v := Load(data, p), Load(data, p + 4);
    LoadIs(data, p); LoadIs(data, p + 4);
    assert data[p..p + 8] == data[p..p + 4] + data[p + 4..p + 8];
    RunAppend(r, data[p..p + 4], data[p + 4..p + 8]);
    Absorbs(r, u);
    FullPad(u); FullPad(v);
    var y := Steps(Xor(r, u), Zeros(32));
    SplitRun(y, v);
    assert Zeros(32) + Zeros(32) == Zeros(64);
    StepsAppend(Xor(r, u), Zeros(32), Zeros(32));
    FourIs(t, Xor(r, u), 4);
    FourIs(t, v, 0);
  }

  lemma FullPad(v: Word32)
    ensures Pad(v) == v && Xor(ZERO, v) == v
  {
  }

  /** A register and a word go their own ways. */
  lemma SplitRun(y: Word32, v: Word32)
    ensures Steps(y, v) == Xor(Steps(y, Zeros(32)), Steps(v, Zeros(32)))
  {
    hide Steps;
    assert Xor(y, ZERO) == y && Xor(Zeros(32), v) == v && Pad(v) == v && Xor(ZERO, v) == v;
    Linear(y, Zeros(32), ZERO, v);
    Absorbs(ZERO, v);
  }

  // ---- The loops -----------------------------------------------------------------------------

  lemma Further(r0: Word32, data: seq<Byte>, p: nat, n: nat)
    requires p + n <= |data|
    ensures Run(r0, data[..p + n]) == Run(Run(r0, data[..p]), data[p..p + n])
  {
    assert data[..p] + data[p..p + n] == data[..p + n];
    RunAppend(r0, data[..p], data[p..p + n]);
  }

  lemma NothingRun(r: Word32)
    ensures Run(r, []) == r
  {
    assert BitsOf([]) == [];
  }

  /** crc32_slice1 */
  method Slice1(t: Table, r0: Word32, data: seq<Byte>) returns (r: Word32)
    requires IsTable(t)
    ensures r == Run(r0, data)
  {
    hide IsTable, Run, UpdateByte;
    r := r0;
    NothingRun(r0);
    assert data[..0] == [] && data[..|data|] == data;
    for i := 0 to |data|
      invariant r == Run(r0, data[..i])
    {
      UpdateByteIs(t, r, data[i]);
      Further(r0, data, i, 1);
      assert data[i..i + 1] == [data[i]];
      r := UpdateByte(t, r, data[i]);
    }
  }

  /** Bytes one at a time until `stop`, or until the address is a multiple of `align` when that is not zero. */
  method Bytewise(t: Table, r0: Word32, data: seq<Byte>, start: nat, stop: nat, addr: nat, align: nat, ghost first: Word32)
    returns (r: Word32, p: nat)
    requires IsTable(t) && start <= stop <= |data| && r0 == Run(first, data[..start])
    ensures start <= p <= stop && r == Run(first, data[..p])
    ensures p == stop || (align > 0 && (addr + p) % align == 0)
  {
    hide IsTable, Run, UpdateByte;
    r, p := r0, start;
    while !(align > 0 && (addr + p) % align == 0) && p != stop
      invariant start <= p <= stop && r == Run(first, data[..p])
      decreases stop - p
    {
      UpdateByteIs(t, r, data[p]);
      Further(first, data, p, 1);
      assert data[p..p + 1] == [data[p]];
      r := UpdateByte(t, r, data[p]);
      p := p + 1;
    }
  }

  /** crc32_slice4, of a buffer at any address. */
  method Slice4(t: Table, r0: Word32, data: seq<Byte>, addr: nat) returns (r: Word32)
    requires IsTable(t)
    ensures r == Run(r0, data)
  {
    hide IsTable, Run, Four, Load, Xor;
    NothingRun(r0);
    assert data[..0] == [] && data[..|data|] == data;
    var p: nat;
    r, p := Bytewise(t, r0, data, 0, |data|, addr, 4, r0);
    var end32 := p + (|data| - p) / 4 * 4;
    while p != end32
      invariant p <= end32 <= |data| && (end32 - p) % 4 == 0 && r == Run(r0, data[..p])
      decreases end32 - p
    {
      FourBytes(t, r, data, p);
      Further(r0, data, p, 4);
      r := Four(t, Xor(r, Load(data, p)), 0);
      p := p + 4;
    }
    r, p := Bytewise(t, r, data, p, |data|, addr, 0, r0);
  }

  /** crc32_slice8, of a buffer at any address. */
  method Slice8(t: Table, r0: Word32, data: seq<Byte>, addr: nat) returns (r: Word32)
    requires IsTable(t)
    ensures r == Run(r0, data)
  {
    hide IsTable, Run, Four, Load, Xor;
    NothingRun(r0);
    assert data[..0] == [] && data[..|data|] == data;
    var p: nat;
    r, p := Bytewise(t, r0, data, 0, |data|, addr, 8, r0);
    var end64 := p + (|data| - p) / 8 * 8;
    while p != end64
      invariant p <= end64 <= |data| && (end64 - p) % 8 == 0 && r == Run(r0, data[..p])
      decreases end64 - p
    {
      EightBytes(t, r, data, p);
      Further(r0, data, p, 8);
      r := Xor(Four(t, Xor(r, Load(data, p)), 4), Four(t, Load(data, p + 4), 0));
      p := p + 8;
    }
    r, p := Bytewise(t, r, data, p, |data|, addr, 0, r0);
  }

  /** libdeflate_crc32 */
  method Crc(t: Table, r0: Word32, data: seq<Byte>, addr: nat) returns (r: Word32)
    requires IsTable(t)
    ensures r == Checksum(r0, data)
  {
    r := Slice8(t, Xor(r0, ONES), data, addr);
    r := Xor(r, ONES);
  }
}
