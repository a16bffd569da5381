/** The output bitstream: bits collect in a word and are flushed to the buffer by words or by bytes. */
module BitWriter {
  import opened Powers
  import opened BitFields

  /** Room kept free at the end of the buffer so that a whole word can always be stored. */
  const OUTPUT_END_PADDING: nat := 8

  /** The bytes and the pending bits together are all the bits, in order. */
  ghost predicate Holds(bytes: seq<Byte>, pending: Bits, all: Bits) {
    |pending| <= |all| && Packs(bytes, all[..|all| - |pending|]) && pending == all[|all| - |pending|..]
  }

  /** The i-th group of eight bits of a word. */
  function Group(w: Bits, i: nat): (s: Bits)
    requires 8 * i + 8 <= |w|
    ensures |s| == 8
  {
    w[8 * i..8 * i + 8]
  }

  /** The first k bytes of a word in little-endian order. */
  function LowBytes(w: Bits, k: nat): (s: seq<Byte>)
    requires 8 * k <= |w|
    ensures |s| == k
  {
    if k == 0 then [] else LowBytes(w, k - 1) + [ByteOf(Group(w, k - 1))]
  }

  /** Moving the first k bytes out of the pending bits. */
  lemma {:induction false} HoldsMoved(bytes: seq<Byte>, pending: Bits, all: Bits, k: nat)
    requires Holds(bytes, pending, all) && 8 * k <= |pending|
    ensures Holds(bytes + LowBytes(pending, k), pending[8 * k..], all)
  {
    if k == 0 {
      assert bytes + LowBytes(pending, 0) == bytes && pending[0..] == pending;
    } else {
      HoldsMoved(bytes, pending, all, k - 1);
      var rest, more := pending[8 * (k - 1)..], bytes + LowBytes(pending, k - 1);
      var done := all[..|all| - |rest|];
      assert rest[..8] == Group(pending, k - 1);
      PacksAppend(more, done, rest[..8]);
      assert done + rest[..8] == all[..|all| - |rest| + 8];
      assert rest[8..] == pending[8 * k..];
      assert more + [ByteOf(rest[..8])] == bytes + LowBytes(pending, k);
    }
  }

  lemma HoldsAppend(bytes: seq<Byte>, pending: Bits, all: Bits, more: Bits)
    requires Holds(bytes, pending, all)
    ensures Holds(bytes, pending + more, all + more)
  {
    assert (all + more)[..|all + more| - |pending + more|] == all[..|all| - |pending|];
  }

  /** The first full bytes depend on the first bits only. */
  lemma {:induction false} LowBytesOfPrefix(w: Bits, n: nat, k: nat)
    requires 8 * k <= n <= |w|
    ensures LowBytes(w, k) == LowBytes(w[..n], k)
  {
    if k > 0 {
      LowBytesOfPrefix(w, n, k - 1);
      assert Group(w, k - 1) == Group(w[..n], k - 1);
    }
  }

  lemma {:induction false} LowBytesFirst(w: Bits, k: nat, m: nat)
    requires k <= m && 8 * m <= |w|
    ensures LowBytes(w, k) == LowBytes(w, m)[..k]
  {
    if k < m { LowBytesFirst(w, k, m - 1); }
  }

  /** Zeros beyond the pending bits serve as padding. */
  lemma ZerosPad(w: Word, n: nat, pad: nat)
    requires ZeroFrom(w, n) && n + pad <= WORDBITS
    ensures w[..n + pad] == w[..n] + ToBits(0, pad)
  {
    forall i: nat | i < pad
      ensures !ToBits(0, pad)[i]
    {
      ToBitsZero(pad, i);
    }
    assert forall i :: n <= i < n + pad ==> !w[i];
  }

  /** Bits held without a remainder can be read back from the bytes. */
  lemma HoldsAll(bytes: seq<Byte>, all: Bits, pad: Bits)
    requires Holds(bytes, [], all + pad)
    ensures 8 * |bytes| == |all| + |pad| && forall j: nat :: j < |all| ==> all[j] == StreamBit(bytes, j)
  {
    assert (all + pad)[..|all + pad|] == all + pad;
    forall j: nat | j < |all|
      ensures all[j] == StreamBit(bytes, j)
    {
      assert (all + pad)[j] == StreamBit(bytes, j);
    }
  }

  /** Whole bytes after whole bytes. */
  lemma HoldsBytes(bytes: seq<Byte>, all: Bits, more: seq<Byte>)
    requires Holds(bytes, [], all)
    ensures Holds(bytes + more, [], all + Window(more, 0, 8 * |more|))
  {
    var w := Window(more, 0, 8 * |more|);
    assert (all + w)[..|all + w|] == all + w && all[..|all|] == all;
    forall j: nat | j < |all + w|
      ensures (all + w)[j] == StreamBit(bytes + more, j)
    {
      if j < |all| {
        assert all[j] == StreamBit(bytes, j);
      } else {
        assert w[j - |all|] == StreamBit(more, 0 + (j - |all|));
        assert j / 8 - |bytes| == (j - |all|) / 8 && j % 8 == (j - |all|) % 8;
      }
    }
  }

  /** The bits waiting are those past the last whole byte, whole bytes aside. */
  predicate InPhase(all: nat, waiting: nat) { all % 8 == waiting % 8 }

  lemma PhaseAdd(all: nat, waiting: nat, n: nat)
    requires InPhase(all, waiting)
    ensures InPhase(all + n, waiting + n)
  {
  }

  lemma PhaseMod(all: nat, waiting: nat)
    requires InPhase(all, waiting)
    ensures InPhase(all, waiting % 8) && (waiting >= 8 ==> InPhase(all, waiting - 8))
  {
  }

  lemma PhaseBytes(all: nat, n: nat)
    requires InPhase(all, 0)
    ensures InPhase(all + 8 * n, 0)
  {
  }

  /** Where so many flushed bits reach, at most to the end. */
  function Reached(bits: nat, end: nat): nat { if bits < 8 * end then bits / 8 else end }

  lemma ReachedFurther(all: nat, waiting: nat, end: nat)
    requires waiting <= all
    ensures var next := Reached(all - waiting, end);
      && next <= end && next + (if end - next < waiting / 8 then end - next else waiting / 8) == Reached(all - waiting % 8, end)
      && (next < end ==> next == (all - waiting) / 8)
  {
  }

  /** What is missing to a whole byte. */
  function Pad(waiting: nat): (n: nat)
    ensures n < 8 && (waiting + n) % 8 == 0
  {
    (8 - waiting % 8) % 8
  }

  lemma FlushedSize(all: nat, waiting: nat, next: nat, end: nat, pad: nat)
    requires waiting <= all && InPhase(all, waiting) && next == Reached(all - waiting, end) < end && pad == Pad(waiting) && waiting <= WORDBITS
    ensures 8 * next + waiting + pad == all + pad && (waiting + pad) % 8 == 0 && waiting + pad <= WORDBITS
    ensures all + pad <= 8 * (end + WORDBITS / 8)
  {
  }

  lemma RoundedUp(bits: nat, pad: nat, bytes: nat)
    requires 8 * bytes == bits + pad && pad < 8
    ensures bytes == (bits + 7) / 8
  {
  }

  lemma PhaseOf(all: nat, waiting: nat)
    requires InPhase(all, waiting)
    ensures all % 8 == waiting % 8
  {
  }

  ghost predicate ZeroFrom(w: Word, n: nat) { forall i :: n <= i < WORDBITS ==> !w[i] }

  class OutputBitstream {
    var bitbuf: Word
    var bitcount: nat
    const buffer: array<Byte>
    var next: nat
    const end: nat
    /** Every bit added so far, padding included. */
    ghost var all: Bits

    constructor (buffer: array<Byte>)
      requires buffer.Length >= OUTPUT_END_PADDING
      ensures Valid() && this.buffer == buffer && all == [] && end == buffer.Length - OUTPUT_END_PADDING
    {
      bitbuf, bitcount, next, all := ToBits(0, WORDBITS), 0, 0, [];
      this.buffer, end := buffer, buffer.Length - OUTPUT_END_PADDING;
      new;
      forall i | 0 <= i < WORDBITS
        ensures !bitbuf[i]
      {
        ToBitsZero(WORDBITS, i);
      }
    }

    /** Short of the end the buffer holds every flushed byte; reaching the end means that something was lost. */
    ghost predicate Valid()
      reads this, buffer
    {
      && bitcount <= WORDBITS && ZeroFrom(bitbuf, bitcount)
      && end + OUTPUT_END_PADDING <= buffer.Length && next <= end
      && bitcount <= |all| && InPhase(|all|, bitcount) && next == Reached(|all| - bitcount, end)
      && (next < end ==> Holds(buffer[..next], bitbuf[..bitcount], all))
    }

    lemma InStep()
      requires Valid()
      ensures |all| % 8 == bitcount % 8
    {
      PhaseOf(|all|, bitcount);
    }

    method AddBits(bits: nat, n: nat)
      requires Valid() && bits < Pow2(n) && bitcount + n <= WORDBITS && bitcount < WORDBITS
      modifies this`bitbuf, this`bitcount, this`all
      ensures Valid() && all == old(all) + ToBits(bits, n) && bitcount == old(bitcount) + n
    {
      hide InPhase;
      PhaseAdd(|all|, bitcount, n);
      ghost var w, pending := ToBits(bits, WORDBITS), bitbuf[..bitcount];
      bitbuf := Or(bitbuf, ShiftLeft(ToBits(bits, WORDBITS), bitcount));
      bitcount := bitcount + n;
      ToBitsPadded(bits, n, WORDBITS);
      forall i | 0 <= i < bitcount
        ensures bitbuf[i] == (pending + ToBits(bits, n))[i]
      {
        if i >= |pending| { assert w[i - |pending|] == w[..n][i - |pending|]; }
      }
      assert bitbuf[..bitcount] == pending + ToBits(bits, n);
      if next < end { HoldsAppend(buffer[..next], pending, all, ToBits(bits, n)); }
      all := all + ToBits(bits, n);
    }

    /** Stores the whole word little-endian, and counts only the full bytes as flushed. */
    method FlushWord()
      requires Valid() && bitcount < WORDBITS
      modifies this`bitbuf, this`bitcount, this`next, buffer
      ensures Valid() && all == old(all) && bitcount == old(bitcount) % 8
    {
      hide InPhase, Holds, LowBytes, Group, Reached;
      PhaseMod(|all|, bitcount);
      ReachedFurther(|all|, bitcount, end);
      ghost var bytes, pending, k := buffer[..next], bitbuf[..bitcount], bitcount / 8;
      StoreWord();
      if next < end { HoldsMoved(bytes, pending, all, k); }
      LowBytesOfPrefix(bitbuf, bitcount, k);
      LowBytesFirst(bitbuf, k, 8);
      bitbuf := ShiftRight(bitbuf, bitcount - bitcount % 8);
      next := next + if end - next < bitcount / 8 then end - next else bitcount / 8;
      bitcount := bitcount % 8;
      assert bitbuf[..bitcount] == pending[8 * k..];
      if next < end { assert buffer[..next] == bytes + LowBytes(pending, k); }
    }

    method StoreWord()
      requires next + 8 <= buffer.Length
      modifies buffer
      ensures buffer[..next] == old(buffer[..next])
      ensures buffer[next..next + 8] == LowBytes(bitbuf, 8)
    {
      var i := 0;
      while i < 8
        invariant 0 <= i <= 8
        invariant buffer[..next] == old(buffer[..next]) && buffer[next..next + i] == LowBytes(bitbuf, i)
      {
        buffer[next + i] := ByteOf(Group(bitbuf, i));
        i := i + 1;
        assert buffer[next..next + i] == buffer[next..next + i - 1] + [buffer[next + i - 1]];
      }
    }

    /** Moves the lowest byte out of the word, and into the buffer if it is not full. */
    method FlushByte()
      requires Valid() && bitcount >= 8
      modifies this`bitbuf, this`bitcount, this`next, buffer
      ensures Valid() && all == old(all) && bitcount == old(bitcount) - 8
    {
      hide InPhase, Holds, ByteOf, Packs, StreamBit;
      PhaseMod(|all|, bitcount);
      ghost var bytes, pending := buffer[..next], bitbuf[..bitcount];
      buffer[next] := ByteOf(Group(bitbuf, 0));
      if next < end { HoldsMoved(bytes, pending, all, 1); }
      if next != end {
        next := next + 1;
        assert LowBytes(pending, 1) == LowBytes(pending, 0) + [ByteOf(Group(pending, 0))];
        assert Group(pending, 0) == Group(bitbuf, 0);
        assert buffer[..next] == bytes + LowBytes(pending, 1);
      }
      bitcount := bitcount - 8;
      bitbuf := ShiftRight(bitbuf, 8);
      assert bitbuf[..bitcount] == pending[8..];
    }

    /** Stores a full byte at a time. */
    method FlushBytes()
      requires Valid()
      modifies this`bitbuf, this`bitcount, this`next, buffer
      ensures Valid() && all == old(all) && bitcount == old(bitcount) % 8
    {
      hide InPhase;
      while bitcount >= 8
        invariant Valid() && all == old(all) && bitcount % 8 == old(bitcount) % 8
        decreases bitcount
      {
        FlushByte();
      }
    }

    /** Flushes in either way, as the machine prefers. */
    method FlushBits(wordwise: bool)
      requires Valid() && bitcount < WORDBITS
      modifies this`bitbuf, this`bitcount, this`next, buffer
      ensures Valid() && all == old(all) && bitcount == old(bitcount) % 8
    {
      hide InPhase;
      if wordwise { FlushWord(); } else { FlushBytes(); }
    }

    /** Pads with zeros to a whole byte, and flushes. */
    method AlignBitstream(wordwise: bool)
      requires Valid() && bitcount <= WORDBITS - 8
      modifies this`bitbuf, this`bitcount, this`next, this`all, buffer
      ensures Valid() && bitcount == 0 && all == old(all) + ToBits(0, Pad(old(bitcount)))
    {
      hide InPhase, Holds, ToBits, Pad;
      var pad := Pad(bitcount);
      PhaseAdd(|all|, bitcount, pad);
      ZerosPad(bitbuf, bitcount, pad);
      if next < end { HoldsAppend(buffer[..next], bitbuf[..bitcount], all, ToBits(0, pad)); }
      bitcount := bitcount + pad;
      all := all + ToBits(0, pad);
      FlushBits(wordwise);
    }

    /** Stores what is left, the last byte padded; the size of the output, or 0 if it did not fit. */
    method FlushOutput() returns (size: nat)
      requires Valid()
      modifies this`bitbuf, this`bitcount, this`next, buffer
      ensures old(next) == end ==> size == 0
      ensures old(next) < end ==>
        size == (|all| + 7) / 8 && size <= buffer.Length && forall j: nat :: j < |all| ==> all[j] == StreamBit(buffer[..size], j)
      ensures all == old(all)
    {
      if next == end {
        return 0;
      }
      hide Holds, ToBits, StreamBit, Packs, ZeroFrom, InPhase, Pad, Reached;
      var pad := Pad(bitcount);
      ZerosPad(bitbuf, bitcount, pad);
      HoldsAppend(buffer[..next], bitbuf[..bitcount], all, ToBits(0, pad));
      FlushedSize(|all|, bitcount, next, end, pad);
      Drain(pad, all + ToBits(0, pad));
      HoldsAll(buffer[..next], all, ToBits(0, pad));
      RoundedUp(|all|, pad, next);
      size := next;
    }

    /** Stores byte after byte until no bit is left. */
    method Drain(ghost pad: nat, ghost padded: Bits)
      requires bitcount + pad <= WORDBITS && pad < 8 && (bitcount + pad) % 8 == 0
      requires 8 * next + bitcount + pad == |padded| <= 8 * buffer.Length && Holds(buffer[..next], bitbuf[..bitcount + pad], padded)
      modifies this`bitbuf, this`next, buffer
      ensures next <= buffer.Length && Holds(buffer[..next], [], padded)
    {
      hide Holds;
      var left: int := bitcount;
      while left > 0
        invariant 0 <= left + pad <= WORDBITS && (left + pad) % 8 == 0
        invariant 8 * next + left + pad == |padded| && next <= buffer.Length
        invariant Holds(buffer[..next], bitbuf[..left + pad], padded)
        decreases left
      {
        MoveByte(left + pad, padded);
        left := left - 8;
      }
      assert bitbuf[..left + pad] == [];
    }

    /** The lowest byte goes to the buffer. */
    method MoveByte(ghost n: nat, ghost padded: Bits)
      requires 8 <= n <= WORDBITS && next < buffer.Length && Holds(buffer[..next], bitbuf[..n], padded)
      modifies this`bitbuf, this`next, buffer
      ensures next == old(next) + 1 && Holds(buffer[..next], bitbuf[..n - 8], padded)
    {
      hide Holds, ByteOf;
      ghost var bytes, pending := buffer[..next], bitbuf[..n];
      assert Group(pending, 0) == Group(bitbuf, 0);
      buffer[next] := ByteOf(Group(bitbuf, 0));
      next := next + 1;
      bitbuf := ShiftRight(bitbuf, 8);
      HoldsMoved(bytes, pending, padded, 1);
      assert LowBytes(pending, 1) == LowBytes(pending, 0) + [ByteOf(Group(pending, 0))];
      assert buffer[..next] == bytes + LowBytes(pending, 1);
      assert bitbuf[..n - 8] == pending[8..];
    }

    /** Copies whole bytes to an aligned stream. Without room for them and one more the stream counts as full. */
    method PutBytes(data: seq<Byte>)
      requires Valid() && bitcount == 0
      modifies this`next, this`all, buffer
      ensures Valid() && bitcount == 0 && all == old(all) + Window(data, 0, 8 * |data|)
    {
      hide InPhase, Holds, Window;
      PhaseBytes(|all|, |data|);
      ghost var bytes, bits := buffer[..next], all;
      assert bitbuf[..0] == [];
      all := all + Window(data, 0, 8 * |data|);
      if |data| >= end - next {
        next := end;
        return;
      }
      HoldsBytes(bytes, bits, data);
      for i := 0 to |data|
        invariant next == old(next) && all == bits + Window(data, 0, 8 * |data|) && buffer[..next + i] == bytes + data[..i]
      {
        buffer[next + i] := data[i];
        assert buffer[..next + i + 1] == buffer[..next + i] + [data[i]];
        assert data[..i + 1] == data[..i] + [data[i]];
      }
      assert data[..|data|] == data;
      next := next + |data|;
    }
  }
}
