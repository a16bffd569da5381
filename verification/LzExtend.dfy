/** Extending a match a machine word at a time, and the hash of a short string. */
module LzExtend {
  import opened LexOrder

  const WORDBYTES: nat := 8

  /** The k bytes at p as a little-endian number. */
  function Word(data: Bytes, p: nat, k: nat): nat
    decreases k
  {
    if k == 0 then 0 else At(data, p, 0) + 256 * Word(data, p + 1, k - 1)
  }

  /** Index of the lowest bit in which the numbers differ: the lowest bit set in their exclusive or. */
  function LowestDifference(x: nat, y: nat): nat
    requires x != y
  {
    if x % 2 != y % 2 then 0 else 1 + LowestDifference(x / 2, y / 2)
  }

  lemma TwoBits(x: nat, y: nat)
    requires x != y
    ensures x % 4 == y % 4 ==> x / 4 != y / 4 && LowestDifference(x, y) == 2 + LowestDifference(x / 4, y / 4)
    ensures x % 4 != y % 4 ==> LowestDifference(x, y) < 2
  {
    assert x / 2 / 2 == x / 4 && y / 2 / 2 == y / 4;
    if x % 2 == y % 2 && x / 2 % 2 == y / 2 % 2 {
      assert LowestDifference(x / 2, y / 2) == 1 + LowestDifference(x / 4, y / 4);
    }
  }

  lemma FourBits(x: nat, y: nat)
    requires x != y
    ensures x % 16 == y % 16 ==> x / 16 != y / 16 && LowestDifference(x, y) == 4 + LowestDifference(x / 16, y / 16)
    ensures x % 16 != y % 16 ==> LowestDifference(x, y) < 4
  {
    TwoBits(x, y);
    assert x / 4 / 4 == x / 16 && y / 4 / 4 == y / 16;
    if x % 4 == y % 4 { TwoBits(x / 4, y / 4); }
  }

  lemma EightBits(x: nat, y: nat)
    requires x != y
    ensures x % 256 == y % 256 ==> x / 256 != y / 256 && LowestDifference(x, y) == 8 + LowestDifference(x / 256, y / 256)
    ensures x % 256 != y % 256 ==> LowestDifference(x, y) < 8
  {
    FourBits(x, y);
    assert x / 16 / 16 == x / 256 && y / 16 / 16 == y / 256;
    if x % 16 == y % 16 { FourBits(x / 16, y / 16); }
  }

  /** Equal words are equal bytes; otherwise the lowest differing bit lies in the first differing byte. */
  lemma {:induction false} WordsDiffer(data: Bytes, a: nat, b: nat, k: nat)
    ensures Word(data, a, k) == Word(data, b, k) <==> Common(data, a, b, k) == k
    ensures Word(data, a, k) != Word(data, b, k) ==>
      LowestDifference(Word(data, a, k), Word(data, b, k)) / 8 == Common(data, a, b, k)
    decreases k
  {
    if k > 0 {
      var x, y, u, v := Word(data, a, k), Word(data, b, k), Word(data, a + 1, k - 1), Word(data, b + 1, k - 1);
      assert x / 256 == u && x % 256 == At(data, a, 0) && y / 256 == v && y % 256 == At(data, b, 0);
      WordsDiffer(data, a + 1, b + 1, k - 1);
      if x != y { EightBits(x, y); }
      if At(data, a, 0) == At(data, b, 0) { CommonTail(data, a, b, k); }
    }
  }

  lemma CommonTail(data: Bytes, a: nat, b: nat, n: nat)
    requires n > 0 && At(data, a, 0) == At(data, b, 0)
    ensures Common(data, a, b, n) == 1 + Common(data, a + 1, b + 1, n - 1)
  {
    var c := Common(data, a + 1, b + 1, n - 1);
    CommonMeans(data, a + 1, b + 1, n - 1);
    forall i | 0 <= i < 1 + c
      ensures At(data, a, i) == At(data, b, i)
    {
      if i > 0 { assert At(data, a + 1, i - 1) == At(data, b + 1, i - 1); }
    }
    assert c < n - 1 ==> At(data, a + 1, c) == At(data, a, c + 1) && At(data, b + 1, c) == At(data, b, c + 1);
    CommonIs(data, a, b, n, 1 + c);
  }

  /** Equal so far, then equal on the next k bytes up to c. */
  lemma Further(data: Bytes, a: nat, b: nat, len: nat, k: nat, max: nat)
    requires len + k <= max && Agree(data, a, b, len)
    ensures var c := Common(data, a + len, b + len, k);
            && Agree(data, a, b, len + c) && (c < k ==> Common(data, a, b, max) == len + c)
  {
    var c := Common(data, a + len, b + len, k);
    CommonMeans(data, a + len, b + len, k);
    forall i | 0 <= i < len + c
      ensures At(data, a, i) == At(data, b, i)
    {
      if i >= len { assert At(data, a + len, i - len) == At(data, b + len, i - len); }
    }
    if c < k {
      assert At(data, a + len, c) == At(data, a, len + c) && At(data, b + len, c) == At(data, b, len + c);
      CommonIs(data, a, b, max, len + c);
    }
  }

  /** Compares one word; on a difference, end is the whole length of the match. */
  method CompareWord(data: Bytes, str: nat, match_: nat, len: nat, max: nat) returns (differs: bool, end: nat)
    requires len + WORDBYTES <= max && Agree(data, match_, str, len)
    ensures differs ==> end == Common(data, match_, str, max)
    ensures !differs ==> end == len + WORDBYTES && Agree(data, match_, str, end)
  {
    hide Agree, Common;
    Further(data, match_, str, len, WORDBYTES, max);
    WordsDiffer(data, match_ + len, str + len, WORDBYTES);
    var x, y := Word(data, match_ + len, WORDBYTES), Word(data, str + len, WORDBYTES);
    differs := x != y;
    end := if differs then len + LowestDifference(x, y) / 8 else len + WORDBYTES;
  }

  /** The length up to max of the match between two places known to agree on start bytes: four words at
      once, then words, then bytes. */
  method Extend(data: Bytes, str: nat, match_: nat, start: nat, max: nat) returns (len: nat)
    requires str + max <= |data| && match_ + max <= |data|
    requires start <= max && Agree(data, match_, str, start)
    ensures len == Common(data, match_, str, max)
  {
    len := start;
    if max - len >= 4 * WORDBYTES {
      var step := 0;
      while step < 4
        invariant 0 <= step <= 4 && len == start + step * WORDBYTES
        invariant Agree(data, match_, str, len)
      {
        var differs, end := CompareWord(data, str, match_, len, max);
        if differs { return end; }
        len := end;
        step := step + 1;
      }
    }
    while len + WORDBYTES <= max
      invariant start <= len <= max && Agree(data, match_, str, len)
    {
      var differs, end := CompareWord(data, str, match_, len, max);
      if differs { return end; }
      len := end;
    }
    while len < max && data[match_ + len] == data[str + len]
      invariant start <= len <= max && Agree(data, match_, str, len)
    {
      len := len + 1;
    }
    CommonIs(data, match_, str, max, len);
  }

  // ---- Hashes ------------------------------------------------------------------------------

  /** Multiplication modulo 2^32, keeping the high 16 bits. */
  function Hash(s: nat): (h: nat)
    ensures h < 65536
  {
    s * 0x1E35A7BD % 0x1_0000_0000 / 65536
  }

  function Hash3(data: Bytes, p: nat): (h: nat)
    ensures h < 65536
  {
    Hash(Word(data, p, 3))
  }

  function Hash4(data: Bytes, p: nat): (h: nat)
    ensures h < 65536
  {
    Hash(Word(data, p, 4))
  }

  lemma LowThreeBytes(data: Bytes, p: nat)
    ensures Word(data, p, 4) % 0x100_0000 == Word(data, p, 3)
  {
    var a: nat, b: nat, c: nat, d: nat := At(data, p, 0), At(data, p + 1, 0), At(data, p + 2, 0), At(data, p + 3, 0);
    assert Word(data, p + 3, 1) == d && Word(data, p + 3, 0) == 0;
    assert Word(data, p + 2, 2) == c + 256 * d && Word(data, p + 2, 1) == c;
    assert Word(data, p + 1, 3) == b + 256 * (c + 256 * d) && Word(data, p + 1, 2) == b + 256 * c;
    assert Word(data, p, 4) == a + 256 * (b + 256 * (c + 256 * d)) && Word(data, p, 3) == a + 256 * (b + 256 * c);
  }

  /** Strings that agree on enough bytes fall into the same bucket. */
  lemma SameHash3(data: Bytes, a: nat, b: nat, k: nat)
    requires k >= 3 && Agree(data, a, b, k)
    ensures Hash3(data, a) == Hash3(data, b)
  {
    WordsDiffer(data, a, b, 3);
    CommonIs(data, a, b, 3, 3);
  }
}
