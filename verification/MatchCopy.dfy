/** Copying a match to the end of the output: by three words, by words, by a repeated byte, or by bytes. */
module MatchCopy {
  import opened BitFields
  import opened BitWriter
  import Powers
  import Shifts

  const WORDBYTES: nat := 8

  /** The output with length more bytes, each equal to the one offset places before it. */
  function Extended(s: seq<Byte>, length: nat, offset: nat): (r: seq<Byte>)
    requires 1 <= offset <= |s|
    ensures |r| == |s| + length
  {
    if length == 0 then s
    else
      var t := Extended(s, length - 1, offset);
      t + [t[|t| - offset]]
  }

  /** Bytes d up to p repeat those offset places before. */
  ghost predicate Repeats(t: seq<Byte>, d: nat, p: nat, offset: nat) {
    p <= |t| && offset <= d && forall k :: d <= k < p ==> t[k] == t[k - offset]
  }

  /** That makes it the extension of its first d bytes. */
  lemma {:induction false} RepeatsIsExtended(t: seq<Byte>, d: nat, length: nat, offset: nat)
    requires 1 <= offset <= d && Repeats(t, d, d + length, offset)
    ensures t[..d + length] == Extended(t[..d], length, offset)
  {
    if length > 0 {
      RepeatsIsExtended(t, d, length - 1, offset);
      var r := t[..d + length - 1];
      assert t[..d + length] == r + [t[d + length - 1]] && r[|r| - offset] == t[d + length - 1 - offset];
    }
  }

  /** Storing a word that was loaded offset bytes earlier. */
  lemma WordStored(before: seq<Byte>, after: seq<Byte>, d: nat, p: nat, offset: nat)
    requires Repeats(before, d, p, offset) && d <= p && p + WORDBYTES <= |before| == |after| && offset >= WORDBYTES
    requires forall k :: 0 <= k < p || p + WORDBYTES <= k < |after| ==> after[k] == before[k]
    requires forall i :: p <= i < p + WORDBYTES ==> after[i] == before[i - offset]
    ensures Repeats(after, d, p + WORDBYTES, offset)
  {
  }

  /** load_word_unaligned then store_word_unaligned: all eight bytes are read before any is written. */
  method CopyWord(out: array<Byte>, src: nat, dst: nat)
    requires src + WORDBYTES <= out.Length && dst + WORDBYTES <= out.Length
    modifies out
    ensures forall k :: 0 <= k < dst || dst + WORDBYTES <= k < out.Length ==> out[k] == old(out[k])
    ensures forall i :: dst <= i < dst + WORDBYTES ==> out[i] == old(out[i - dst + src])
  {
    var word := out[src..src + WORDBYTES];
    var i := 0;
    while i < WORDBYTES
      invariant 0 <= i <= WORDBYTES
      invariant forall k :: 0 <= k < dst || dst + i <= k < out.Length ==> out[k] == old(out[k])
      invariant forall k :: dst <= k < dst + i ==> out[k] == word[k - dst]
    {
      out[dst + i] := word[i];
      i := i + 1;
    }
  }

  /** A word of eight equal bytes. */
  function RepeatByte(b: Byte): (v: Word) {
    var v := ToBits(b, WORDBITS);
    var v2 := Or(v, ShiftLeft(v, 8));
    var v4 := Or(v2, ShiftLeft(v2, 16));
    Or(v4, ShiftLeft(v4, 32))
  }

  /** The first n bits repeat those of the byte, and the others are zero. */
  ghost predicate Periodic(w: Word, b: Word, n: nat) {
    forall j :: 0 <= j < WORDBITS ==> w[j] == (j < n && b[j % 8])
  }

  lemma Doubled(w: Word, b: Word, n: nat)
    requires Periodic(w, b, n) && n % 8 == 0 && 0 < n < WORDBITS
    ensures Periodic(Or(w, ShiftLeft(w, n)), b, 2 * n)
  {
    forall j | 0 <= j < WORDBITS
      ensures Or(w, ShiftLeft(w, n))[j] == (j < 2 * n && b[j % 8])
    {
      if j >= n {
        assert (j - n) % 8 == j % 8;
        assert w[j - n] == (j - n < n && b[(j - n) % 8]);
      }
    }
  }

  lemma RepeatByteGroups(b: Byte, i: nat)
    requires i < WORDBYTES
    ensures ByteOf(Group(RepeatByte(b), i)) == b
  {
    hide Periodic, Or, ShiftLeft;
    var v := ToBits(b, WORDBITS);
    var v2 := Or(v, ShiftLeft(v, 8));
    var v4 := Or(v2, ShiftLeft(v2, 16));
    ByteIsPeriodic(b);
    Doubled(v, v, 8);
    Doubled(v2, v, 16);
    Doubled(v4, v, 32);
    GroupOf(RepeatByte(b), b, i);
  }

  lemma ByteIsPeriodic(b: Byte)
    ensures Periodic(ToBits(b, WORDBITS), ToBits(b, WORDBITS), 8)
  {
    hide ToBits, Powers.Pow2;
    Powers.Pow2Values();
    ToBitsPadded(b, 8, WORDBITS);
  }

  lemma GroupOf(w: Word, b: Byte, i: nat)
    requires Periodic(w, ToBits(b, WORDBITS), WORDBITS) && i < WORDBYTES
    ensures ByteOf(Group(w, i)) == b
  {
    hide ToBits, Powers.Pow2, FromBits, Shifts.Mask;
    Powers.Pow2Values();
    ToBitsPadded(b, 8, WORDBITS);
    var v := ToBits(b, WORDBITS);
    forall j | 0 <= j < 8
      ensures Group(w, i)[j] == v[..8][j]
    {
      assert w[8 * i + j] == v[(8 * i + j) % 8];
    }
    assert Group(w, i) == ToBits(b, 8);
    FieldRoundTrip(b, 8);
    Shifts.BelowMask(b, 8);
  }

  /** store_word_unaligned of the repeated byte. */
  method StoreRepeated(out: array<Byte>, v: Word, dst: nat, ghost b: Byte)
    requires dst + WORDBYTES <= out.Length && v == RepeatByte(b)
    modifies out
    ensures forall k :: 0 <= k < dst || dst + WORDBYTES <= k < out.Length ==> out[k] == old(out[k])
    ensures forall i :: dst <= i < dst + WORDBYTES ==> out[i] == b
  {
    hide RepeatByte, ByteOf;
    var i := 0;
    while i < WORDBYTES
      invariant 0 <= i <= WORDBYTES
      invariant forall k :: 0 <= k < dst || dst + i <= k < out.Length ==> out[k] == old(out[k])
      invariant forall k :: dst <= k < dst + i ==> out[k] == b
    {
      RepeatByteGroups(b, i);
      out[dst + i] := ByteOf(Group(v, i));
      i := i + 1;
    }
  }

  /** Words from a source at least a word behind: do-while, so the last word may pass the end by seven bytes. */
  method CopyWords(out: array<Byte>, d: nat, length: nat, offset: nat)
    requires length > 0 && WORDBYTES <= offset <= d && d + length + WORDBYTES - 1 <= out.Length
    modifies out
    ensures Repeats(out[..], d, d + length, offset) && out[..d] == old(out[..d])
    ensures forall k :: d + length + WORDBYTES - 1 <= k < out.Length ==> out[k] == old(out[k])
  {
    var src, dst, end := d - offset, d, d + length;
    var more := true;
    while more
      invariant d <= dst < end + WORDBYTES && src == dst - offset && (more <==> dst < end)
      invariant Repeats(out[..], d, dst, offset) && out[..d] == old(out[..d])
      invariant forall k :: d + length + WORDBYTES - 1 <= k < out.Length ==> out[k] == old(out[k])
      decreases end + WORDBYTES - dst
    {
      ghost var before := out[..];
      CopyWord(out, src, dst);
      WordStored(before, out[..], d, dst, offset);
      src, dst := src + WORDBYTES, dst + WORDBYTES;
      more := dst < end;
    }
  }

  /** A run of the last byte. */
  method FillWords(out: array<Byte>, d: nat, length: nat)
    requires length > 0 && 1 <= d && d + length + WORDBYTES - 1 <= out.Length
    modifies out
    ensures Repeats(out[..], d, d + length, 1) && out[..d] == old(out[..d])
    ensures forall k :: d + length + WORDBYTES - 1 <= k < out.Length ==> out[k] == old(out[k])
  {
    var dst, end, b := d, d + length, out[d - 1];
    var v := RepeatByte(b);
    var more := true;
    while more
      invariant d <= dst < end + WORDBYTES && (more <==> dst < end)
      invariant (forall k :: d - 1 <= k < dst ==> out[k] == b) && out[..d] == old(out[..d])
      invariant forall k :: d + length + WORDBYTES - 1 <= k < out.Length ==> out[k] == old(out[k])
      decreases end + WORDBYTES - dst
    {
      StoreRepeated(out, v, dst, b);
      dst := dst + WORDBYTES;
      more := dst < end;
    }
  }

  /** Bytes one by one; the first two need no test, since no match is shorter than three. */
  method CopyBytes(out: array<Byte>, d: nat, length: nat, offset: nat)
    requires length >= 3 && 1 <= offset <= d && d + length <= out.Length
    modifies out
    ensures Repeats(out[..], d, d + length, offset) && out[..d] == old(out[..d])
    ensures forall k :: d + length <= k < out.Length ==> out[k] == old(out[k])
  {
    var src, dst, end := d - offset, d, d + length;
    out[dst] := out[src];
    src, dst := src + 1, dst + 1;
    out[dst] := out[src];
    src, dst := src + 1, dst + 1;
    var more := true;
    while more
      invariant d + 2 <= dst <= end && src == dst - offset && (more <==> dst < end)
      invariant Repeats(out[..], d, dst, offset) && out[..d] == old(out[..d])
      invariant forall k :: d + length <= k < out.Length ==> out[k] == old(out[k])
      decreases end - dst
    {
      out[dst] := out[src];
      src, dst := src + 1, dst + 1;
      more := dst < end;
    }
  }

  /** Three words at once for a short match that is not near. */
  method CopyThreeWords(out: array<Byte>, d: nat, length: nat, offset: nat)
    requires length <= 3 * WORDBYTES && WORDBYTES <= offset <= d && d + length + 3 * WORDBYTES <= out.Length
    modifies out
    ensures Repeats(out[..], d, d + length, offset) && out[..d] == old(out[..d])
  {
    var i := 0;
    while i < 3
      invariant 0 <= i <= 3 && Repeats(out[..], d, d + i * WORDBYTES, offset) && out[..d] == old(out[..d])
    {
      ghost var before := out[..];
      CopyWord(out, d - offset + i * WORDBYTES, d + i * WORDBYTES);
      WordStored(before, out[..], d, d + i * WORDBYTES, offset);
      i := i + 1;
    }
  }

  /** Copies a match to d, choosing the way the machine allows and the room suggests. The bytes after the match may
      be overwritten; what comes before is kept, and nothing is stored past the end of the buffer. */
  method Copy(out: array<Byte>, d: nat, length: nat, offset: nat, unalignedIsFast: bool)
    requires length >= 3 && 1 <= offset <= d && d + length <= out.Length
    modifies out
    ensures out[..d + length] == Extended(old(out[..d]), length, offset)
  {
    hide Extended;
    if unalignedIsFast && length <= 3 * WORDBYTES && offset >= WORDBYTES && length + 3 * WORDBYTES <= out.Length - d {
      CopyThreeWords(out, d, length, offset);
    } else if unalignedIsFast && out.Length - (d + length) >= WORDBYTES - 1 {
      if offset >= WORDBYTES {
        CopyWords(out, d, length, offset);
      } else if offset == 1 {
        FillWords(out, d, length);
      } else {
        CopyBytes(out, d, length, offset);
      }
    } else {
      CopyBytes(out, d, length, offset);
    }
    RepeatsIsExtended(out[..], d, length, offset);
    assert out[..][..d] == out[..d] && out[..][..d + length] == out[..d + length];
  }
}
