/**
 * CRC-32 (RFC 1952 section 8): the long division bit by bit, its form that takes a message bit only when the bit
 * is about to leave, and the algebra over exclusive or that lets tables take one, four or eight bytes at a time.
 */
module Crc32 {
  import opened BitFields

  type Word32 = s: Bits | |s| == 32 witness seq(32, i => false)

  function Zeros(n: nat): (r: Bits)
    ensures |r| == n && forall i | 0 <= i < n :: !r[i]
  {
    seq(n, i => false)
  }

  const ZERO: Word32 := Zeros(32)
  const DIVISOR: Word32 := ToBits(0xEDB88320, 32)
  const ONES: Word32 := Ones()

  function Ones(): (r: Word32)
    ensures forall i | 0 <= i < 32 :: r[i]
  {
    seq(32, i => true)
  }

  function Xor(a: Bits, b: Bits): (r: Bits)
    requires |a| == |b|
    ensures |r| == |a| && forall i | 0 <= i < |a| :: r[i] == (a[i] != b[i])
  {
    seq(|a|, i requires 0 <= i < |a| => a[i] != b[i])
  }

  function Shr(r: Word32, n: nat): Word32
    requires n <= 32
  {
    r[n..] + Zeros(n)
  }

  /** A short bit string as a word. */
  function Pad(b: Bits): Word32
    requires |b| <= 32
  {
    b + Zeros(32 - |b|)
  }

  function Multiple(odd: bool): Word32 { if odd then DIVISOR else ZERO }

  // ---- Long division -------------------------------------------------------------------------

  /** One step of long division: the new bit comes in at the far end. */
  function DivisionStep(r: Word32, bit: bool): Word32 { Xor(r[1..] + [bit], Multiple(r[0])) }

  function Division(r: Word32, bits: Bits): Word32 {
    if bits == [] then r else DivisionStep(Division(r, bits[..|bits| - 1]), bits[|bits| - 1])
  }

  /** The first 32 bits inverted. */
  function Inverted(bits: Bits): (r: Bits)
    ensures |r| == |bits|
  {
    seq(|bits|, i requires 0 <= i < |bits| => bits[i] != (i < 32))
  }

  /** The checksum of a message, as the remainder of a division: 32 zero bits appended, the first 32 bits and the remainder inverted. */
  function LongDivision(bits: Bits): Word32 { Xor(Division(ZERO, Inverted(bits + Zeros(32))), ONES) }

  // ---- Message bits taken late ---------------------------------------------------------------

  /** crc32_update_bit */
  function Step(r: Word32, bit: bool): Word32 { Xor(Shr(r, 1), Multiple(r[0] != bit)) }

  function Steps(r: Word32, bits: Bits): Word32 {
    if bits == [] then r else Step(Steps(r, bits[..|bits| - 1]), bits[|bits| - 1])
  }

  lemma DivisionOne(s: Word32, w: Word32, bit: bool)
    ensures DivisionStep(Xor(s, w), bit) == Xor(Step(s, w[0]), w[1..] + [bit])
  {
  }

  lemma StepOne(s: Word32, w: Word32, bit: bool)
    ensures Step(Xor(s, w), bit != w[0]) == Xor(Step(s, bit), w[1..] + [false])
  {
  }

  /** What the division holds is what the late form holds, combined with the 32 bits it has not taken yet. */
  lemma {:induction false} DivisionIsAhead(q: Bits)
    requires |q| >= 32 && q[..32] == Zeros(32)
    ensures Division(ZERO, q[32..]) == Xor(Steps(ZERO, q[..|q| - 32]), q[|q| - 32..])
    decreases |q|
  {
    hide Steps, Division, Step, DivisionStep, Xor;
    var n := |q| - 32;
    if n == 0 {
      Empty(ZERO);
      assert q[32..] == [] && q[..0] == [] && Xor(ZERO, q) == ZERO;
    } else {
      var p := q[..|q| - 1];
      assert p[..32] == q[..32];
      DivisionIsAhead(p);
      assert p[..n - 1] == q[..n - 1] && p[32..] == q[32..][..n - 1];
      var s, d := Steps(ZERO, q[..n - 1]), Division(ZERO, p[32..]);
      var w := q[n - 1..n + 31];
      assert p[n - 1..] == w;
      Last(ZERO, q[..n]); Last(ZERO, q[32..]);
      assert q[..n][..n - 1] == q[..n - 1];
      assert d == Xor(s, w);
      assert q[n..] == w[1..] + [q[n + 31]];
      DivisionOne(s, w, q[n + 31]);
    }
  }

  lemma Empty(r: Word32)
    ensures Steps(r, []) == r && Division(r, []) == r
  {
  }

  lemma Last(r: Word32, bits: Bits)
    requires bits != []
    ensures Steps(r, bits) == Step(Steps(r, bits[..|bits| - 1]), bits[|bits| - 1])
    ensures Division(r, bits) == DivisionStep(Division(r, bits[..|bits| - 1]), bits[|bits| - 1])
  {
  }

  /** Inverting the first 32 bits comes to the same as starting from their mask. */
  lemma {:induction false} StartAbsorbs(p: Bits, m: Bits, n: nat)
    requires n + 32 <= |p| == |m| && forall i | 32 <= i < |m| :: !m[i]
    ensures Steps(ZERO, Xor(p, m)[..n]) == Xor(Steps(m[..32], p[..n]), m[n..n + 32])
    decreases n
  {
    hide Steps, Step, Xor, Multiple, Shr;
    if n == 0 {
      Empty(ZERO); Empty(m[..32]);
      assert p[..0] == [] && Xor(p, m)[..0] == [] && m[0..32] == m[..32];
      assert Xor(m[..32], m[..32]) == ZERO;
    } else {
      StartAbsorbs(p, m, n - 1);
      var x := Xor(p, m);
      Last(ZERO, x[..n]); Last(m[..32], p[..n]);
      assert x[..n][..n - 1] == x[..n - 1] && p[..n][..n - 1] == p[..n - 1];
      var s, w := Steps(m[..32], p[..n - 1]), m[n - 1..n + 31];
      StepOne(s, w, p[n - 1]);
      assert m[n..n + 32] == w[1..] + [false];
    }
  }

  /** The late form from all ones, inverted at the end, is the remainder of the division. */
  lemma LateFormDivides(bits: Bits)
    ensures LongDivision(bits) == Xor(Steps(ONES, bits), ONES)
  {
    hide Steps, Division;
    var n, p := |bits|, bits + Zeros(32);
    var m := Inverted(Zeros(n + 32));
    var q := Zeros(32) + Inverted(p);
    assert Inverted(p) == Xor(p, m) && q[32..] == Inverted(p) && q[..32] == Zeros(32);
    DivisionIsAhead(q);
    assert q[..|q| - 32] == Zeros(32) + Xor(p, m)[..n];
    StepsAppend(ZERO, Zeros(32), Xor(p, m)[..n]);
    ShiftsOut(ZERO, 32);
    assert Shr(ZERO, 32) == ZERO;
    StartAbsorbs(p, m, n);
    assert m[..32] == ONES && p[..n] == bits;
    assert q[|q| - 32..] == m[n..n + 32];
    assert Xor(Xor(Steps(ONES, bits), m[n..n + 32]), m[n..n + 32]) == Steps(ONES, bits);
  }

  // ---- The algebra ---------------------------------------------------------------------------

  lemma {:induction false} StepsAppend(r: Word32, a: Bits, b: Bits)
    ensures Steps(r, a + b) == Steps(Steps(r, a), b)
    decreases |b|
  {
    if b == [] {
      assert a + b == a;
    } else {
      assert (a + b)[..|a + b| - 1] == a + b[..|b| - 1];
      StepsAppend(r, a, b[..|b| - 1]);
    }
  }

  /** The register after the exclusive or of two starts and two messages is that of the two registers. */
  lemma {:induction false} Linear(r: Word32, a: Bits, s: Word32, b: Bits)
    requires |a| == |b|
    ensures Steps(Xor(r, s), Xor(a, b)) == Xor(Steps(r, a), Steps(s, b))
    decreases |a|
  {
    hide Steps;
    if a == [] {
      Empty(r); Empty(s); Empty(Xor(r, s));
      assert Xor(a, b) == [] && b == [];
    } else {
      var n := |a| - 1;
      Linear(r, a[..n], s, b[..n]);
      Last(r, a); Last(s, b); Last(Xor(r, s), Xor(a, b));
      assert Xor(a, b)[..n] == Xor(a[..n], b[..n]);
      StepLinear(Steps(r, a[..n]), a[n], Steps(s, b[..n]), b[n]);
    }
  }

  lemma StepLinear(r: Word32, a: bool, s: Word32, b: bool)
    ensures Step(Xor(r, s), a != b) == Xor(Step(r, a), Step(s, b))
  {
  }

  /** Zero bits whose partners in the register are zero only shift it. */
  lemma {:induction false} ShiftsOut(x: Word32, n: nat)
    requires n <= 32 && forall i | 0 <= i < n :: !x[i]
    ensures Steps(x, Zeros(n)) == Shr(x, n)
    decreases n
  {
    if n == 0 {
      assert Shr(x, 0) == x;
    } else {
      assert Zeros(n)[..n - 1] == Zeros(n - 1);
      ShiftsOut(x, n - 1);
      assert Shr(x, n - 1)[0] == x[n - 1];
      assert Xor(Shr(Shr(x, n - 1), 1), ZERO) == Shr(x, n);
    }
  }

  /** The next message bits may as well be combined into the register at once. */
  lemma {:induction false} Absorbs(r: Word32, b: Bits)
    requires |b| <= 32
    ensures Steps(r, b) == Steps(Xor(r, Pad(b)), Zeros(|b|))
    decreases |b|
  {
    hide Steps, Step, Xor, Shr, Pad, Multiple, Zeros;
    var n := |b|;
    if n == 0 {
      assert Pad(b) == ZERO by { PadEmpty(b); }
      XorZero(r);
      assert b == Zeros(0);
    } else {
      var c := b[..n - 1];
      Absorbs(r, c);
      assert Zeros(n)[..n - 1] == Zeros(n - 1);
      Last(r, b); Last(Xor(r, Pad(b)), Zeros(n));
      var top := Zeros(n - 1) + [b[n - 1]] + Zeros(32 - n);
      SplitTop(r, b);
      XorZero(Zeros(n - 1));
      Linear(Xor(r, Pad(c)), Zeros(n - 1), top, Zeros(n - 1));
      ShiftsOut(top, n - 1);
      TopBit(b[n - 1], n);
      XorZero(Step(Steps(r, c), b[n - 1]));
      StepOne(Steps(r, c), [b[n - 1]] + Zeros(31), b[n - 1]);
    }
  }

  lemma PadEmpty(b: Bits)
    requires b == []
    ensures Pad(b) == ZERO
  {
  }

  lemma XorZero(a: Bits)
    ensures Xor(a, Zeros(|a|)) == a && Xor(Zeros(|a|), a) == a
  {
  }

  lemma SplitTop(r: Word32, b: Bits)
    requires 1 <= |b| <= 32
    ensures Xor(r, Pad(b)) == Xor(Xor(r, Pad(b[..|b| - 1])), Zeros(|b| - 1) + [b[|b| - 1]] + Zeros(32 - |b|))
  {
  }

  lemma TopBit(bit: bool, n: nat)
    requires 1 <= n <= 32
    ensures Shr(Zeros(n - 1) + [bit] + Zeros(32 - n), n - 1) == [bit] + Zeros(31) && ([bit] + Zeros(31))[1..] + [false] == ZERO
  {
  }

  /** The low byte of the register leaves as if it were a message of its own, and the rest moves down. */
  lemma Peel(x: Word32, n: nat)
    requires n >= 8
    ensures Steps(x, Zeros(n)) == Xor(Steps(ZERO, x[..8] + Zeros(n - 8)), Steps(Shr(x, 8), Zeros(n - 8)))
  {
    hide Steps;
    var low, high := Pad(x[..8]), Zeros(8) + x[8..];
    assert x == Xor(low, high) && Xor(Zeros(n), Zeros(n)) == Zeros(n) && Zeros(n) == Zeros(8) + Zeros(n - 8);
    Linear(low, Zeros(n), high, Zeros(n));
    StepsAppend(low, Zeros(8), Zeros(n - 8));
    StepsAppend(high, Zeros(8), Zeros(n - 8));
    ShiftsOut(high, 8);
    assert Shr(high, 8) == Shr(x, 8);
    assert Xor(ZERO, low) == low;
    Absorbs(ZERO, x[..8]);
    StepsAppend(ZERO, x[..8], Zeros(n - 8));
  }

  // ---- Bytes ---------------------------------------------------------------------------------

  function BitsOf(data: seq<Byte>): (r: Bits)
    ensures |r| == 8 * |data|
  {
    if data == [] then [] else BitsOf(data[..|data| - 1]) + ToBits(data[|data| - 1], 8)
  }

  lemma {:induction false} BitsOfAppend(a: seq<Byte>, b: seq<Byte>)
    ensures BitsOf(a + b) == BitsOf(a) + BitsOf(b)
    decreases |b|
  {
    hide ToBits;
    if b == [] {
      assert a + b == a;
    } else {
      assert (a + b)[..|a + b| - 1] == a + b[..|b| - 1];
      BitsOfAppend(a, b[..|b| - 1]);
    }
  }

  /** The register after the bytes of data: the bit-wise definition all fast forms are held to. */
  function Run(r: Word32, data: seq<Byte>): Word32 { Steps(r, BitsOf(data)) }

  lemma RunAppend(r: Word32, a: seq<Byte>, b: seq<Byte>)
    ensures Run(r, a + b) == Run(Run(r, a), b)
  {
    hide Steps, BitsOf;
    BitsOfAppend(a, b);
    StepsAppend(r, BitsOf(a), BitsOf(b));
  }

  function Checksum(r: Word32, data: seq<Byte>): Word32 { Xor(Run(Xor(r, ONES), data), ONES) }

  /** A buffer may be taken in pieces. */
  lemma ChecksumContinues(r: Word32, a: seq<Byte>, b: seq<Byte>)
    ensures Checksum(Checksum(r, a), b) == Checksum(r, a + b)
  {
    hide Run;
    RunAppend(Xor(r, ONES), a, b);
    assert Xor(Checksum(r, a), ONES) == Run(Xor(r, ONES), a);
  }

  /** From the initial value 0 the checksum is the remainder of the long division. */
  lemma ChecksumDivides(data: seq<Byte>)
    ensures Checksum(ZERO, data) == LongDivision(BitsOf(data))
  {
    LateFormDivides(BitsOf(data));
    assert Xor(ZERO, ONES) == ONES;
  }

  // ---- In plain numbers ----------------------------------------------------------------------

  /** The word with these bits set. */
  function Marks(a: set<nat>): (r: Word32)
    ensures forall i | 0 <= i < 32 :: r[i] <==> i in a
  {
    seq(32, i requires 0 <= i < 32 => i in a)
  }

  function Below(n: nat): (r: set<nat>)
    ensures forall i: nat :: i in r <==> i < n
  {
    if n == 0 then {} else Below(n - 1) + {n - 1}
  }

  /** A number by its hexadecimal digits, the lowest first. */
  function Hex(ds: seq<nat>): nat { if ds == [] then 0 else ds[0] + 16 * Hex(ds[1..]) }

  predicate Digits(ds: seq<nat>) { forall k :: 0 <= k < |ds| ==> ds[k] < 16 }

  predicate DigitBit(d: nat, j: nat) { (if j == 0 then d else if j == 1 then d / 2 else if j == 2 then d / 4 else d / 8) % 2 == 1 }

  lemma FourBits(d: nat, x: nat, n: nat)
    requires d < 16
    ensures ToBits(d + 16 * x, n + 4) == [DigitBit(d, 0), DigitBit(d, 1), DigitBit(d, 2), DigitBit(d, 3)] + ToBits(x, n)
  {
    hide ToBits, DigitBit;
    Halvings(d, x);
    FourUnrolled(d + 16 * x, n);
  }

  lemma TwoUnrolled(y: nat, n: nat)
    ensures ToBits(y, n + 2) == [y % 2 == 1, y / 2 % 2 == 1] + ToBits(y / 2 / 2, n)
  {
    assert ToBits(y, n + 2) == [y % 2 == 1] + ToBits(y / 2, n + 1);
    assert ToBits(y / 2, n + 1) == [y / 2 % 2 == 1] + ToBits(y / 2 / 2, n);
  }

  lemma FourUnrolled(y: nat, n: nat)
    ensures ToBits(y, n + 4) == [y % 2 == 1, y / 2 % 2 == 1, y / 2 / 2 % 2 == 1, y / 2 / 2 / 2 % 2 == 1] + ToBits(y / 2 / 2 / 2 / 2, n)
  {
    hide ToBits;
    TwoUnrolled(y, n + 2);
    TwoUnrolled(y / 2 / 2, n);
  }

  lemma Halvings(d: nat, x: nat)
    requires d < 16
    ensures var y := d + 16 * x;
      && y / 2 / 2 / 2 / 2 == x && (y % 2 == 1 <==> DigitBit(d, 0)) && (y / 2 % 2 == 1 <==> DigitBit(d, 1))
      && (y / 2 / 2 % 2 == 1 <==> DigitBit(d, 2)) && (y / 2 / 2 / 2 % 2 == 1 <==> DigitBit(d, 3))
  {
    var y := d + 16 * x;
    assert y / 2 == d / 2 + 8 * x;
    assert y / 2 / 2 == d / 4 + 4 * x;
    assert y / 2 / 2 / 2 == d / 8 + 2 * x;
  }

  lemma {:induction false} HexBits(ds: seq<nat>, i: nat)
    requires Digits(ds) && i < 4 * |ds|
    ensures ToBits(Hex(ds), 4 * |ds|)[i] <==> DigitBit(ds[i / 4], i % 4)
  {
    hide ToBits, DigitBit;
    FourBits(ds[0], Hex(ds[1..]), 4 * |ds| - 4);
    if i >= 4 { HexBits(ds[1..], i - 4); }
  }

  /** The divisor's coefficients, the highest first: x^26, x^23, x^22, x^16, x^12, x^11, x^10, x^8, x^7, x^5, x^4, x^2, x, 1. */
  lemma DivisorIs()
    ensures DIVISOR == Marks({5, 8, 9, 15, 19, 20, 21, 23, 24, 26, 27, 29, 30, 31})
    ensures forall i: nat | i < 32 :: DIVISOR[i] <==> 31 - i in {26, 23, 22, 16, 12, 11, 10, 8, 7, 5, 4, 2, 1, 0}
  {
    hide ToBits;
    forall i: nat | i < 32
      ensures DIVISOR[i] <==> i in {5, 8, 9, 15, 19, 20, 21, 23, 24, 26, 27, 29, 30, 31}
    {
      DivisorBit(i);
    }
  }

  lemma DivisorBit(i: nat)
    requires i < 32
    ensures DIVISOR[i] <==> i in {5, 8, 9, 15, 19, 20, 21, 23, 24, 26, 27, 29, 30, 31}
  {
    hide ToBits;
    var ds: seq<nat> := [0, 2, 3, 8, 8, 11, 13, 14];
    assert Hex(ds) == 0xEDB88320;
    HexBits(ds, i);
  }

  lemma StepMarks(a: set<nat>, b: set<nat>, bit: bool)
    requires forall i: nat | i < 32 :: i in b <==> ((i < 31 && i + 1 in a) != (i in {5, 8, 9, 15, 19, 20, 21, 23, 24, 26, 27, 29, 30, 31} && (0 in a) != bit))
    ensures Step(Marks(a), bit) == Marks(b)
  {
    hide ToBits;
    DivisorIs();
  }

  lemma MoreSteps(r: Word32, bits: Bits, bit: bool)
    ensures Steps(r, bits + [bit]) == Step(Steps(r, bits), bit)
  {
    Last(r, bits + [bit]);
    assert (bits + [bit])[..|bits|] == bits;
  }

  lemma FirstBits()
    ensures Steps(Marks(Below(32)), [true]) == Marks(Below(31))
  {
    hide Step, Marks, Steps, Below, ToBits;
    var r := Marks(Below(32));
    Empty(r);
    StepMarks(Below(32), Below(31), true);
    MoreSteps(r, [], true);
    assert [] + [true] == [true];
  }

  lemma NextBit()
    ensures Steps(Marks(Below(31)), [false]) == Marks({0, 1, 2, 3, 4, 6, 7, 10, 11, 12, 13, 14, 16, 17, 18, 22, 25, 28, 30, 31})
  {
    hide Step, Marks, Steps, Below, ToBits;
    var r := Marks(Below(31));
    Empty(r);
    StepMarks(Below(31), {0, 1, 2, 3, 4, 6, 7, 10, 11, 12, 13, 14, 16, 17, 18, 22, 25, 28, 30, 31}, false);
    MoreSteps(r, [], false);
    assert [] + [false] == [false];
  }

  lemma SecondBits()
    ensures Steps(Marks({0, 1, 2, 3, 4, 6, 7, 10, 11, 12, 13, 14, 16, 17, 18, 22, 25, 28, 30, 31}), [false, false]) == Marks({0, 1, 2, 7, 8, 10, 11, 12, 16, 18, 20, 21, 22, 23, 24, 25, 26, 27, 29, 31})
  {
    hide Step, Marks, Steps, Below, ToBits;
    var r := Marks({0, 1, 2, 3, 4, 6, 7, 10, 11, 12, 13, 14, 16, 17, 18, 22, 25, 28, 30, 31});
    Empty(r);
    StepMarks({0, 1, 2, 3, 4, 6, 7, 10, 11, 12, 13, 14, 16, 17, 18, 22, 25, 28, 30, 31}, {0, 1, 2, 3, 6, 8, 10, 11, 12, 13, 16, 17, 19, 20, 23, 26, 31}, false);
    MoreSteps(r, [], false);
    StepMarks({0, 1, 2, 3, 6, 8, 10, 11, 12, 13, 16, 17, 19, 20, 23, 26, 31}, {0, 1, 2, 7, 8, 10, 11, 12, 16, 18, 20, 21, 22, 23, 24, 25, 26, 27, 29, 31}, false);
    MoreSteps(r, [false], false);
    assert [] + [false] == [false];
    assert [false] + [false] == [false, false];
  }

  lemma ThirdBits()
    ensures Steps(Marks({0, 1, 2, 7, 8, 10, 11, 12, 16, 18, 20, 21, 22, 23, 24, 25, 26, 27, 29, 31}), [false, true]) == Marks({0, 4, 5, 6, 7, 9, 10, 16, 21, 24, 26, 27, 28, 30})
  {
    hide Step, Marks, Steps, Below, ToBits;
    var r := Marks({0, 1, 2, 7, 8, 10, 11, 12, 16, 18, 20, 21, 22, 23, 24, 25, 26, 27, 29, 31});
    Empty(r);
    StepMarks({0, 1, 2, 7, 8, 10, 11, 12, 16, 18, 20, 21, 22, 23, 24, 25, 26, 27, 29, 31}, {0, 1, 5, 6, 7, 8, 10, 11, 17, 22, 25, 27, 28, 29, 31}, false);
    MoreSteps(r, [], false);
    StepMarks({0, 1, 5, 6, 7, 8, 10, 11, 17, 22, 25, 27, 28, 29, 31}, {0, 4, 5, 6, 7, 9, 10, 16, 21, 24, 26, 27, 28, 30}, true);
    MoreSteps(r, [false], true);
    assert [] + [false] == [false];
    assert [false] + [true] == [false, true];
  }

  lemma LastBits()
    ensures Steps(Marks({0, 4, 5, 6, 7, 9, 10, 16, 21, 24, 26, 27, 28, 30}), [true, false]) == Marks({2, 3, 4, 5, 7, 8, 14, 19, 22, 24, 25, 26, 28})
  {
    hide Step, Marks, Steps, Below, ToBits;
    var r := Marks({0, 4, 5, 6, 7, 9, 10, 16, 21, 24, 26, 27, 28, 30});
    Empty(r);
    StepMarks({0, 4, 5, 6, 7, 9, 10, 16, 21, 24, 26, 27, 28, 30}, {3, 4, 5, 6, 8, 9, 15, 20, 23, 25, 26, 27, 29}, true);
    MoreSteps(r, [], true);
    StepMarks({3, 4, 5, 6, 8, 9, 15, 20, 23, 25, 26, 27, 29}, {2, 3, 4, 5, 7, 8, 14, 19, 22, 24, 25, 26, 28}, false);
    MoreSteps(r, [true], false);
    assert [] + [true] == [true];
    assert [true] + [false] == [true, false];
  }

  lemma ByteA()
    ensures ToBits(97, 8) == [true] + ([false] + ([false, false] + ([false, true] + [true, false])))
  {
    hide ToBits;
    FourBits(1, 6, 4);
    FourBits(6, 0, 0);
    assert ToBits(0, 0) == [];
  }

  /** The checksum of the byte 97 is E8B7BE43. */
  lemma ChecksumOfA()
    ensures Checksum(ZERO, [97]) == ToBits(0xE8B7BE43, 32)
  {
    hide ToBits, Steps, Marks;
    ByteA();
    BitsOfOne(97);
    FirstBits();
    NextBit();
    SecondBits();
    ThirdBits();
    LastBits();
    StepsAppend(Marks(Below(32)), [true], [false] + ([false, false] + ([false, true] + [true, false])));
    StepsAppend(Marks(Below(31)), [false], [false, false] + ([false, true] + [true, false]));
    StepsAppend(Marks({0, 1, 2, 3, 4, 6, 7, 10, 11, 12, 13, 14, 16, 17, 18, 22, 25, 28, 30, 31}), [false, false], [false, true] + [true, false]);
    StepsAppend(Marks({0, 1, 2, 7, 8, 10, 11, 12, 16, 18, 20, 21, 22, 23, 24, 25, 26, 27, 29, 31}), [false, true], [true, false]);
    AllMarks();
    InvertedResult();
  }

  lemma AllMarks()
    ensures Xor(ZERO, ONES) == Marks(Below(32))
  {
  }

  lemma InvertedResult()
    ensures Xor(Marks({2, 3, 4, 5, 7, 8, 14, 19, 22, 24, 25, 26, 28}), ONES) == ToBits(0xE8B7BE43, 32)
  {
    hide ToBits;
    forall i: nat | i < 32
      ensures ToBits(0xE8B7BE43, 32)[i] <==> i !in {2, 3, 4, 5, 7, 8, 14, 19, 22, 24, 25, 26, 28}
    {
      ResultBit(i);
    }
  }

  lemma ResultBit(i: nat)
    requires i < 32
    ensures ToBits(0xE8B7BE43, 32)[i] <==> i !in {2, 3, 4, 5, 7, 8, 14, 19, 22, 24, 25, 26, 28}
  {
    hide ToBits;
    var ds: seq<nat> := [3, 4, 14, 11, 7, 11, 8, 14];
    assert Hex(ds) == 0xE8B7BE43;
    HexBits(ds, i);
  }

  lemma BitsOfOne(x: Byte)
    ensures BitsOf([x]) == ToBits(x, 8)
  {
    assert [x][..0] == [];
  }
}
