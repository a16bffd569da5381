/** Bit strings, the numbers they hold, and the bytes they are packed in: the lowest bit comes first. */
module BitFields {
  import opened Powers
  import opened Shifts

  type Byte = x: nat | x < 256
  type Bits = seq<bool>

  function One(b: bool): (r: nat)
    ensures r <= 1
  {
    if b then 1 else 0
  }

  /** The low n bits of x. */
  function ToBits(x: nat, n: nat): (r: Bits)
    ensures |r| == n
  {
    if n == 0 then [] else [x % 2 == 1] + ToBits(x / 2, n - 1)
  }

  /** The number held in a bit string. */
  function FromBits(s: Bits): (r: nat)
    ensures r < Pow2(|s|)
  {
    if s == [] then 0 else One(s[0]) + 2 * FromBits(s[1..])
  }

  lemma {:induction false} FieldRoundTrip(x: nat, n: nat)
    ensures FromBits(ToBits(x, n)) == Mask(x, n)
  {
    if n > 0 {
      FieldRoundTrip(x / 2, n - 1);
      assert ToBits(x, n)[1..] == ToBits(x / 2, n - 1);
    }
  }

  lemma {:induction false} BitsRoundTrip(s: Bits)
    ensures ToBits(FromBits(s), |s|) == s
  {
    if s != [] {
      BitsRoundTrip(s[1..]);
      assert FromBits(s) / 2 == FromBits(s[1..]);
      assert s == [s[0]] + s[1..];
    }
  }

  lemma {:induction false} ToBitsAt(x: nat, n: nat, i: nat)
    requires i < n
    ensures ToBits(x, n)[i] <==> Bit(x, i) == 1
  {
    if i > 0 {
      ToBitsAt(x / 2, n - 1, i - 1);
    }
  }

  lemma {:induction false} ToBitsZero(n: nat, i: nat)
    requires i < n
    ensures !ToBits(0, n)[i]
  {
    if i > 0 { ToBitsZero(n - 1, i - 1); }
  }

  /** A number of fewer than n bits has zeros from there on. */
  lemma {:induction false} ToBitsPadded(x: nat, n: nat, w: nat)
    requires x < Pow2(n) && n <= w
    ensures ToBits(x, w)[..n] == ToBits(x, n) && forall i :: n <= i < w ==> !ToBits(x, w)[i]
  {
    if n > 0 {
      ToBitsPadded(x / 2, n - 1, w - 1);
      forall i | n <= i < w
        ensures !ToBits(x, w)[i]
      {
        assert ToBits(x, w)[i] == ToBits(x / 2, w - 1)[i - 1];
      }
      assert ToBits(x, w)[..n] == [x % 2 == 1] + ToBits(x / 2, w - 1)[..n - 1];
    } else {
      forall i | 0 <= i < w
        ensures !ToBits(x, w)[i]
      {
        ToBitsZero(w, i);
      }
    }
  }

  /** The first k bits are the number's low bits, the others what is left after shifting. */
  lemma {:induction false} FromBitsParts(s: Bits, k: nat)
    requires k <= |s|
    ensures Mask(FromBits(s), k) == FromBits(s[..k]) && Shr(FromBits(s), k) == FromBits(s[k..])
  {
    if k == 0 {
      assert s[0..] == s;
    } else {
      FromBitsParts(s[1..], k - 1);
      assert FromBits(s) / 2 == FromBits(s[1..]) && FromBits(s) % 2 == One(s[0]);
      assert s[1..][..k - 1] == s[..k][1..] && s[1..][k - 1..] == s[k..];
    }
  }

  // ---- Machine words -----------------------------------------------------------------------

  const WORDBITS: nat := 64

  type Word = s: Bits | |s| == WORDBITS witness seq(64, i => false)

  /** x | y */
  function Or(x: Word, y: Word): (r: Word)
    ensures forall i :: 0 <= i < WORDBITS ==> r[i] == (x[i] || y[i])
  {
    seq(WORDBITS, i requires 0 <= i < WORDBITS => x[i] || y[i])
  }

  /** x << n, for n less than the word size as the language demands */
  function ShiftLeft(x: Word, n: nat): (r: Word)
    requires n < WORDBITS
    ensures forall i :: 0 <= i < WORDBITS ==> r[i] == (i >= n && x[i - n])
  {
    seq(WORDBITS, i requires 0 <= i < WORDBITS => i >= n && x[i - n])
  }

  /** x >> n */
  function ShiftRight(x: Word, n: nat): (r: Word)
    requires n < WORDBITS
    ensures forall i :: 0 <= i < WORDBITS ==> r[i] == (i + n < WORDBITS && x[i + n])
  {
    seq(WORDBITS, i requires 0 <= i < WORDBITS => i + n < WORDBITS && x[i + n])
  }

  // ---- Packed bytes ------------------------------------------------------------------------

  /** Bit j of a stream of bytes; past the end the stream reads as zeros. */
  predicate StreamBit(data: seq<Byte>, j: nat) {
    j / 8 < |data| && Bit(data[j / 8], j % 8) == 1
  }

  /** The n bits from bit position pos on. */
  function Window(data: seq<Byte>, pos: nat, n: nat): (r: Bits)
    ensures |r| == n && forall i :: 0 <= i < n ==> r[i] == StreamBit(data, pos + i)
  {
    seq(n, i requires 0 <= i < n => StreamBit(data, pos + i))
  }

  lemma WindowSplit(data: seq<Byte>, pos: nat, a: nat, b: nat)
    ensures Window(data, pos, a + b) == Window(data, pos, a) + Window(data, pos + a, b)
  {
    var whole, parts := Window(data, pos, a + b), Window(data, pos, a) + Window(data, pos + a, b);
    forall i | 0 <= i < |whole|
      ensures whole[i] == parts[i]
    {
      if i >= a { assert pos + a + (i - a) == pos + i; }
    }
  }

  /** The byte made of eight bits. */
  function ByteOf(s: Bits): (b: Byte)
    requires |s| == 8
  {
    assert Pow2(8) == 256 by { Pow2Values(); }
    FromBits(s)
  }

  lemma ByteBit(s: Bits, i: nat)
    requires |s| == 8 && i < 8
    ensures (Bit(ByteOf(s), i) == 1) <==> s[i]
  {
    BitsRoundTrip(s);
    ToBitsAt(FromBits(s), 8, i);
  }

  /** The bytes packed from whole groups of eight bits hold those bits. */
  ghost predicate Packs(data: seq<Byte>, bits: Bits) {
    8 * |data| == |bits| && forall j: nat :: j < |bits| ==> bits[j] == StreamBit(data, j)
  }

  lemma PacksAppend(data: seq<Byte>, bits: Bits, s: Bits)
    requires Packs(data, bits) && |s| == 8
    ensures Packs(data + [ByteOf(s)], bits + s)
  {
    var more := data + [ByteOf(s)];
    forall j: nat | j < |bits + s|
      ensures (bits + s)[j] == StreamBit(more, j)
    {
      if j < |bits| {
        assert bits[j] == StreamBit(data, j) && more[j / 8] == data[j / 8];
      } else {
        ByteBit(s, j - |bits|);
        assert j / 8 == |data| && j % 8 == j - |bits|;
      }
    }
  }
}
