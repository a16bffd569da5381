/** The input bitstream: a word is filled from the input by words or by bytes, and bits are taken from it. */
module BitReader {
  import opened Powers
  import opened Shifts
  import opened BitFields

  /** The most bits that can be asked for, since a fill adds whole bytes. */
  const MAX_ENSURE: nat := WORDBITS - 7

  /** Bit i of what comes after the first pos bits of the stream. */
  predicate After(data: seq<Byte>, pos: nat, i: nat) { StreamBit(data, pos + i) }

  /** The bits of the word below n are those of the stream at pos; above, a set bit is a set bit of the stream. */
  ghost predicate Buffers(w: Word, n: nat, data: seq<Byte>, pos: nat) {
    && n <= WORDBITS
    && (forall i: nat :: i < n ==> w[i] == After(data, pos, i))
    && forall i: nat :: n <= i < WORDBITS && w[i] ==> After(data, pos, i)
  }

  /** A little-endian load of eight bytes. */
  function Load(data: seq<Byte>, at: nat): (w: Word)
    requires at + 8 <= |data|
    ensures forall i: nat :: i < WORDBITS ==> w[i] == After(data, 8 * at, i)
  {
    Window(data, 8 * at, WORDBITS)
  }

  function LoadByte(b: Byte): (w: Word)
    ensures forall i: nat :: i < WORDBITS ==> w[i] == (i < 8 && Bit(b, i) == 1)
  {
    ByteWord(b);
    ToBits(b, WORDBITS)
  }

  lemma ByteWord(b: Byte)
    ensures forall i: nat :: i < WORDBITS ==> ToBits(b, WORDBITS)[i] == (i < 8 && Bit(b, i) == 1)
  {
    Pow2Values();
    ToBitsPadded(b, 8, WORDBITS);
    forall i: nat | i < WORDBITS
      ensures ToBits(b, WORDBITS)[i] == (i < 8 && Bit(b, i) == 1)
    {
      ToBitsAt(b, WORDBITS, i);
    }
  }

  /** After a word is loaded above n valid bits, every bit of the word is a bit of the stream. */
  lemma BuffersWord(w: Word, n: nat, data: seq<Byte>, pos: nat, at: nat, more: nat)
    requires Buffers(w, n, data, pos) && n < WORDBITS && pos + n == 8 * at && at + 8 <= |data| && n + more <= WORDBITS
    ensures Buffers(Or(w, ShiftLeft(Load(data, at), n)), n + more, data, pos)
  {
    var r := Or(w, ShiftLeft(Load(data, at), n));
    forall i: nat | i < WORDBITS
      ensures r[i] == After(data, pos, i)
    {
      if i >= n { assert After(data, 8 * at, i - n) == After(data, pos, i); }
    }
  }

  lemma BuffersByte(w: Word, n: nat, data: seq<Byte>, pos: nat, at: nat)
    requires Buffers(w, n, data, pos) && n + 8 <= WORDBITS && pos + n == 8 * at && at < |data|
    ensures Buffers(Or(w, ShiftLeft(LoadByte(data[at]), n)), n + 8, data, pos)
  {
    var b := LoadByte(data[at]);
    var r := Or(w, ShiftLeft(b, n));
    forall i: nat | i < WORDBITS
      ensures i < n + 8 ==> r[i] == After(data, pos, i)
      ensures i >= n + 8 && r[i] ==> After(data, pos, i)
    {
      if n <= i < n + 8 { assert (pos + i) / 8 == at && (pos + i) % 8 == i - n; }
    }
  }

  /** Past the end of the input the bits are zeros. */
  lemma BuffersOverrun(w: Word, n: nat, data: seq<Byte>, pos: nat)
    requires Buffers(w, n, data, pos) && n + 8 <= WORDBITS && pos + n >= 8 * |data|
    ensures Buffers(w, n + 8, data, pos)
  {
    forall i: nat | n <= i
      ensures !After(data, pos, i)
    {
      assert pos + i >= 8 * |data|;
    }
  }

  lemma BuffersShifted(w: Word, n: nat, data: seq<Byte>, pos: nat, k: nat)
    requires Buffers(w, n, data, pos) && k <= n && k < WORDBITS
    ensures Buffers(ShiftRight(w, k), n - k, data, pos + k)
  {
    var r := ShiftRight(w, k);
    forall i: nat | i < WORDBITS
      ensures i < n - k ==> r[i] == After(data, pos + k, i)
      ensures i >= n - k && r[i] ==> After(data, pos + k, i)
    {
      assert After(data, pos + k, i) == After(data, pos, i + k);
    }
  }

  lemma BuffersWindow(w: Word, n: nat, data: seq<Byte>, pos: nat, k: nat)
    requires Buffers(w, n, data, pos) && k <= n
    ensures w[..k] == Window(data, pos, k)
  {
    forall i | 0 <= i < k
      ensures w[i] == Window(data, pos, k)[i]
    {
      assert w[i] == After(data, pos, i);
    }
  }

  /** A little-endian 16-bit value. */
  function U16(data: seq<Byte>, at: nat): nat
    requires at + 2 <= |data|
  {
    var low: nat, high: nat := data[at], data[at + 1];
    low + 256 * high
  }

  /** The length in an uncompressed block's header at this byte, or -1 if the input ends before or the fields disagree. */
  function StoredHeader(data: seq<Byte>, at: nat): int {
    if at + 4 > |data| || U16(data, at) != 0xFFFF - U16(data, at + 2) then -1 else U16(data, at)
  }

  class InputBitstream {
    const data: seq<Byte>
    var inNext: nat
    var bitbuf: Word
    var bitsleft: nat
    var overrunCount: nat
    /** Bits of the stream taken so far, and bytes past the end put into the word since the last alignment. */
    ghost var pos: nat
    ghost var overruns: nat

    constructor (data: seq<Byte>)
      ensures Valid() && pos == 0 && this.data == data && overrunCount == overruns == 0
    {
      this.data, inNext, bitbuf, bitsleft, overrunCount, pos, overruns := data, 0, ToBits(0, WORDBITS), 0, 0, 0, 0;
      new;
      forall i | 0 <= i < WORDBITS
        ensures !bitbuf[i]
      {
        ToBitsZero(WORDBITS, i);
      }
    }

    ghost predicate Valid()
      reads this
    {
      && inNext <= |data| && Buffers(bitbuf, bitsleft, data, pos)
      && pos + bitsleft == 8 * (inNext + overruns) && (overruns > 0 ==> inNext == |data|) && overruns <= overrunCount
    }

    /** Loads a word; the bits that do not fit stay in the word above bitsleft and are loaded again later. */
    method FillBitsWordwise()
      requires Valid() && bitsleft < WORDBITS && |data| - inNext >= 8
      modifies this`bitbuf, this`inNext, this`bitsleft
      ensures Valid() && bitsleft > WORDBITS - 8
    {
      hide Buffers, Or, ShiftLeft;
      BuffersWord(bitbuf, bitsleft, data, pos, inNext, (WORDBITS - bitsleft) / 8 * 8);
      bitbuf := Or(bitbuf, ShiftLeft(Load(data, inNext), bitsleft));
      inNext := inNext + (WORDBITS - bitsleft) / 8;
      bitsleft := bitsleft + (WORDBITS - bitsleft) / 8 * 8;
    }

    /** Loads bytes until no other fits; past the end of the input it only counts them. */
    method FillBitsBytewise()
      requires Valid() && bitsleft <= WORDBITS - 8
      modifies this`bitbuf, this`inNext, this`bitsleft, this`overrunCount, this`overruns
      ensures Valid() && bitsleft > WORDBITS - 8 && overrunCount - overruns == old(overrunCount - overruns)
    {
      var again := true;
      while again
        invariant Valid() && overrunCount - overruns == old(overrunCount - overruns)
        invariant again <==> bitsleft <= WORDBITS - 8
        decreases WORDBITS - bitsleft
      {
        FillByte();
        again := bitsleft <= WORDBITS - 8;
      }
    }

    method FillByte()
      requires Valid() && bitsleft <= WORDBITS - 8
      modifies this`bitbuf, this`inNext, this`bitsleft, this`overrunCount, this`overruns
      ensures Valid() && bitsleft == old(bitsleft) + 8 && overrunCount - overruns == old(overrunCount - overruns)
    {
      hide Buffers, Or, ShiftLeft, LoadByte;
      if inNext != |data| {
        BuffersByte(bitbuf, bitsleft, data, pos, inNext);
        bitbuf := Or(bitbuf, ShiftLeft(LoadByte(data[inNext]), bitsleft));
        inNext := inNext + 1;
      } else {
        BuffersOverrun(bitbuf, bitsleft, data, pos);
        overrunCount, overruns := overrunCount + 1, overruns + 1;
      }
      bitsleft := bitsleft + 8;
    }

    /** Makes n bits available, by words where the machine and the input allow it. */
    method EnsureBits(n: nat, wordwise: bool)
      requires Valid() && n <= MAX_ENSURE
      modifies this`bitbuf, this`inNext, this`bitsleft, this`overrunCount, this`overruns
      ensures Valid() && bitsleft >= n && overrunCount - overruns == old(overrunCount - overruns)
    {
      if bitsleft < n {
        if wordwise && |data| - inNext >= 8 {
          FillBitsWordwise();
        } else {
          FillBitsBytewise();
        }
      }
    }

    /** The next n bits, not removed. */
    function GetBits(n: nat): (r: nat)
      requires Valid() && n <= bitsleft
      reads this
      ensures r == FromBits(Window(data, pos, n)) && r < Pow2(n)
    {
      BuffersWindow(bitbuf, bitsleft, data, pos, n);
      FromBits(bitbuf[..n])
    }

    method RemoveBits(n: nat)
      requires Valid() && n <= bitsleft && n < WORDBITS
      modifies this`bitbuf, this`bitsleft, this`pos
      ensures Valid() && pos == old(pos) + n && bitsleft == old(bitsleft) - n
    {
      hide Buffers, ShiftRight;
      BuffersShifted(bitbuf, bitsleft, data, pos, n);
      bitbuf := ShiftRight(bitbuf, n);
      bitsleft := bitsleft - n;
      pos := pos + n;
    }

    method PopBits(n: nat) returns (r: nat)
      requires Valid() && n <= bitsleft && n < WORDBITS
      modifies this`bitbuf, this`bitsleft, this`pos
      ensures Valid() && pos == old(pos) + n && bitsleft == old(bitsleft) - n
      ensures r == FromBits(Window(data, old(pos), n)) && r < Pow2(n)
    {
      r := GetBits(n);
      RemoveBits(n);
    }

    /** Bytes put into the word past the end before the last alignment, and still counted: the overrun count as it was
        when the input was last aligned, 0 if it never was. */
    ghost function Stale(): nat
      requires Valid()
      reads this
    {
      overrunCount - overruns
    }

    /** Where the next whole byte of the stream starts, but not past the end. */
    ghost function NextByte(): nat
      reads this
    {
      if (pos + 7) / 8 <= |data| then (pos + 7) / 8 else |data|
    }

    /** Drops the rest of the current byte and puts whole bytes back. The overrun count also covers bytes from
        before the last alignment, and then can be too large: bytes that should be put back are not. */
    method AlignInput()
      requires Valid()
      modifies this`bitbuf, this`inNext, this`bitsleft, this`pos, this`overruns
      ensures Aligned()
      ensures inNext >= old(NextByte())
      ensures inNext == old(NextByte()) <==> old(Stale()) == 0 || old(overrunCount - Stale()) >= old(bitsleft) / 8
      ensures Stale() == overrunCount == old(overrunCount)
      ensures inNext == old(inNext - (bitsleft / 8 - if overrunCount < bitsleft / 8 then overrunCount else bitsleft / 8))
      ensures Stale() > 0 ==> old(Stale()) > 0 || |data| - inNext < 8
    {
      var whole := bitsleft / 8;
      inNext := inNext - (whole - if overrunCount < whole then overrunCount else whole);
      bitbuf := ToBits(0, WORDBITS);
      forall i: nat | i < WORDBITS
        ensures !bitbuf[i]
      {
        ToBitsZero(WORDBITS, i);
      }
      bitsleft := 0;
      pos, overruns := 8 * inNext, 0;
    }

    /** No bits are buffered: the stream goes on with the byte at inNext. */
    ghost predicate Aligned()
      reads this
    {
      Valid() && bitsleft == 0 && pos == 8 * inNext && overruns == 0 && forall i: nat :: i < WORDBITS ==> !bitbuf[i]
    }

    /** A 16-bit value from the byte position. */
    method ReadU16() returns (v: nat)
      requires Aligned() && inNext + 2 <= |data|
      modifies this`inNext, this`pos
      ensures Aligned() && inNext == old(inNext) + 2
      ensures v == U16(data, old(inNext))
    {
      v := U16(data, inNext);
      inNext, pos := inNext + 2, pos + 16;
    }

    /** What holds whenever a block is being decoded: only near the end is the overrun count too large. */
    ghost predicate BetweenBlocks()
      reads this
    {
      Valid() && (Stale() > 0 ==> 8 * |data| < pos + 32)
    }

    /** The header of an uncompressed block: the position of its data and its length, if the two length fields
        agree. It is read from the next byte of the stream even when the overrun count is too large: both the
        right position and the one then taken have fewer than four bytes left. */
    method ReadStoredHeader() returns (ok: bool, len: nat)
      requires BetweenBlocks()
      modifies this`bitbuf, this`inNext, this`bitsleft, this`pos, this`overruns
      ensures ok <==> StoredHeader(data, old(NextByte())) >= 0
      ensures ok ==> BetweenBlocks() && Aligned() && len == StoredHeader(data, old(NextByte())) && inNext == old(NextByte()) + 4
    {
      AlignInput();
      if |data| - inNext < 4 {
        return false, 0;
      }
      var len0 := ReadU16();
      var nlen := ReadU16();
      return len0 == 0xFFFF - nlen, len0;
    }
  }

  /** Near the end of seven bytes the input is aligned twice with nothing taken in between: the second time it goes on
      with byte 1 although byte 0 is next. */
  method AlignTwice(data: seq<Byte>) returns (input: InputBitstream)
    requires |data| == 7
    ensures fresh(input) && input.Aligned() && input.inNext == 1
  {
    hide Buffers;
    input := new InputBitstream(data);
    input.FillBitsBytewise();
    FirstFill(input);
    input.AlignInput();
    assert input.inNext == 0 && input.overrunCount == 1;
    input.FillBitsBytewise();
    FirstFill(input);
    assert input.bitsleft / 8 == 8 && input.overrunCount == 2;
    input.AlignInput();
  }

  /** From an empty register at the start of seven bytes, filling takes all of them and one past the end. */
  lemma FirstFill(input: InputBitstream)
    requires input.Valid() && |input.data| == 7 && input.pos == 0 && input.bitsleft > WORDBITS - 8
    ensures input.bitsleft == 64 && input.inNext == 7 && input.overruns == 1
  {
  }
}
