/** Adler-32 (RFC 1950 section 2.2): by chunks, and 32 bytes at a time in lanes, against its definition byte by byte. */
module Adler32 {

  type Byte = x: nat | x < 256

  const DIVISOR: nat := 65521
  const MAX_BYTES_PER_CHUNK: nat := 5552
  const U32: nat := 0x1_0000_0000

  datatype Sums = Sums(s1: nat, s2: nat)

  function One(s: Sums, b: Byte): Sums { Sums((s.s1 + b) % DIVISOR, (s.s2 + (s.s1 + b) % DIVISOR) % DIVISOR) }

  /** The definition: both sums are reduced after every byte. */
  function Definition(s: Sums, data: seq<Byte>): Sums {
    if data == [] then s else One(Definition(s, data[..|data| - 1]), data[|data| - 1])
  }

  predicate Reduced(s: Sums) { s.s1 < DIVISOR && s.s2 < DIVISOR }

  function Reduce(s: Sums): Sums { Sums(s.s1 % DIVISOR, s.s2 % DIVISOR) }

  // ---- Sums without reduction --------------------------------------------------------------

  /** Sum of n bytes from p on, and the sum of all their partial sums. */
  function Bytes(data: seq<Byte>, p: nat, n: nat): (r: nat)
    requires p + n <= |data|
    ensures r <= 255 * n
  {
    if n == 0 then 0 else Bytes(data, p, n - 1) + data[p + n - 1]
  }

  function Partials(data: seq<Byte>, p: nat, n: nat): nat
    requires p + n <= |data|
  {
    if n == 0 then 0 else Partials(data, p, n - 1) + Bytes(data, p, n)
  }

  /** The sums after n more bytes, not reduced. */
  function Raw(s: Sums, data: seq<Byte>, p: nat, n: nat): Sums
    requires p + n <= |data|
  {
    Sums(s.s1 + Bytes(data, p, n), s.s2 + n * s.s1 + Partials(data, p, n))
  }

  lemma RawOne(s: Sums, data: seq<Byte>, p: nat, n: nat)
    requires p + n < |data|
    ensures Raw(s, data, p, n + 1).s1 == Raw(s, data, p, n).s1 + data[p + n]
    ensures Raw(s, data, p, n + 1).s2 == Raw(s, data, p, n).s2 + Raw(s, data, p, n + 1).s1
    ensures Raw(s, data, p, 0) == s
  {
    assert (n + 1) * s.s1 == n * s.s1 + s.s1;
  }

  lemma ModSum(a: nat, b: nat)
    ensures (a % DIVISOR + b) % DIVISOR == (a + b) % DIVISOR && (a % DIVISOR + b % DIVISOR) % DIVISOR == (a + b) % DIVISOR
  {
  }

  lemma OneReduced(r: Sums, b: Byte)
    ensures One(Reduce(r), b) == Reduce(Sums(r.s1 + b, r.s2 + (r.s1 + b)))
  {
    ModSum(r.s1, b);
    ModSum(r.s2, r.s1 + b);
  }

  /** Reducing once at the end comes to the same as reducing after every byte. */
  lemma {:induction false} ReducedAtTheEnd(s: Sums, data: seq<Byte>, p: nat, n: nat)
    requires Reduced(s) && p + n <= |data|
    ensures Definition(s, data[p..p + n]) == Reduce(Raw(s, data, p, n))
    decreases n
  {
    hide Raw, One, Reduce, Reduced;
    if n > 0 {
      ReducedAtTheEnd(s, data, p, n - 1);
      RawOne(s, data, p, n - 1);
      assert data[p..p + n][..n - 1] == data[p..p + n - 1];
      OneReduced(Raw(s, data, p, n - 1), data[p + n - 1]);
    } else {
      RawNone(s, data, p);
      ReducedStays(s);
      assert data[p..p] == [];
    }
  }

  lemma ReducedStays(s: Sums)
    requires Reduced(s)
    ensures Reduce(s) == s
  {
  }

  lemma {:induction false} DefinitionAppend(s: Sums, a: seq<Byte>, b: seq<Byte>)
    ensures Definition(s, a + b) == Definition(Definition(s, a), b)
    decreases |b|
  {
    if b == [] {
      assert a + b == a;
    } else {
      assert (a + b)[..|a + b| - 1] == a + b[..|b| - 1];
      DefinitionAppend(s, a, b[..|b| - 1]);
    }
  }

  lemma {:induction false} DefinitionReduced(s: Sums, data: seq<Byte>)
    requires Reduced(s)
    ensures Reduced(Definition(s, data))
  {
  }

  lemma {:induction false} PartialsBound(data: seq<Byte>, p: nat, n: nat)
    requires p + n <= |data|
    ensures 2 * Partials(data, p, n) <= 255 * (n * n + n)
  {
    if n > 0 {
      PartialsBound(data, p, n - 1);
      assert n * n == (n - 1) * (n - 1) + 2 * (n - 1) + 1;
    }
  }

  /** In a chunk neither sum leaves 32 bits, for whatever bytes and from whatever reduced sums. */
  lemma ChunkFits(s: Sums, data: seq<Byte>, p: nat, n: nat)
    requires Reduced(s) && p + n <= |data| && n <= MAX_BYTES_PER_CHUNK
    ensures Raw(s, data, p, n).s1 < U32 && Raw(s, data, p, n).s2 < U32
  {
    PartialsBound(data, p, n);
    Product(n, s.s1, MAX_BYTES_PER_CHUNK, DIVISOR - 1);
    Product(n, n, MAX_BYTES_PER_CHUNK, MAX_BYTES_PER_CHUNK);
  }

  lemma Product(a: nat, b: nat, x: nat, y: nat)
    requires a <= x && b <= y
    ensures a * b <= x * y
  {
    assert x * y == a * b + (x - a) * b + x * (y - b);
  }

  /** The sums after part of a chunk are no greater. */
  lemma {:induction false} RawGrows(s: Sums, data: seq<Byte>, p: nat, m: nat, n: nat)
    requires m <= n && p + n <= |data|
    ensures Raw(s, data, p, m).s1 <= Raw(s, data, p, n).s1 && Raw(s, data, p, m).s2 <= Raw(s, data, p, n).s2
    decreases n
  {
    if m < n {
      RawGrows(s, data, p, m, n - 1);
      RawOne(s, data, p, n - 1);
    }
  }

  // ---- Byte by byte in chunks --------------------------------------------------------------

  function Min(a: nat, b: nat): nat { if a < b then a else b }

  /** s1 += *p++; s2 += s1; in 32-bit arithmetic that does not wrap. */
  method AddByte(s: Sums, data: seq<Byte>, p: nat, n: nat, ghost start: Sums, ghost size: nat) returns (r: Sums)
    requires Reduced(start) && n < size <= MAX_BYTES_PER_CHUNK && p + size <= |data| && s == Raw(start, data, p, n)
    ensures r == Raw(start, data, p, n + 1)
  {
    hide Raw, Reduced;
    RawOne(start, data, p, n);
    RawGrows(start, data, p, n + 1, size);
    ChunkFits(start, data, p, size);
    var s1 := (s.s1 + data[p + n]) % U32;
    r := Sums(s1, (s.s2 + s1) % U32);
  }

  /** One chunk, four bytes at a time while they last. */
  method Chunk(s0: Sums, data: seq<Byte>, p: nat, size: nat) returns (s: Sums)
    requires Reduced(s0) && p + size <= |data| && size <= MAX_BYTES_PER_CHUNK
    ensures s == Raw(s0, data, p, size)
  {
    hide Raw;
    if size > 0 { RawOne(s0, data, p, 0); } else { RawNone(s0, data, p); }
    s := s0;
    var n, left := 0, size / 4;
    while left != 0
      invariant 0 <= left && n + 4 * left <= size < n + 4 * left + 4 && s == Raw(s0, data, p, n)
      decreases left
    {
      left := left - 1;
      s := AddByte(s, data, p, n, s0, size);
      s := AddByte(s, data, p, n + 1, s0, size);
      s := AddByte(s, data, p, n + 2, s0, size);
      s := AddByte(s, data, p, n + 3, s0, size);
      n := n + 4;
    }
    while n != size
      invariant n <= size && s == Raw(s0, data, p, n)
      decreases size - n
    {
      s := AddByte(s, data, p, n, s0, size);
      n := n + 1;
    }
  }

  lemma RawNone(s: Sums, data: seq<Byte>, p: nat)
    requires p <= |data|
    ensures Raw(s, data, p, 0) == s
  {
  }

  function Packed(s: Sums): nat { s.s2 * 0x1_0000 + s.s1 }
  function Unpacked(adler: nat): Sums { Sums(adler % 0x1_0000, adler / 0x1_0000) }

  // ---- In plain numbers ----------------------------------------------------------------------

  function SumOf(data: seq<Byte>): nat { if data == [] then 0 else data[0] + SumOf(data[1..]) }

  /** Each byte as often as there are bytes from it on. */
  function Weighted(data: seq<Byte>): nat { if data == [] then 0 else |data| * data[0] + Weighted(data[1..]) }

  /** The checksum that follows adler after the bytes: their sum in the low half, and in the high half the sum of all sums
      up to each of them. */
  predicate IsAdler(adler: nat, data: seq<Byte>, r: nat) {
    && r % 65536 == (adler % 65536 + SumOf(data)) % 65521
    && r / 65536 == (adler / 65536 + |data| * (adler % 65536) + Weighted(data)) % 65521
  }

  lemma {:induction false} OneMoreByte(data: seq<Byte>, x: Byte)
    ensures SumOf(data + [x]) == SumOf(data) + x && Weighted(data + [x]) == Weighted(data) + SumOf(data + [x])
  {
    if data == [] {
      assert [x][1..] == [] && data + [x] == [x];
    } else {
      OneMoreByte(data[1..], x);
      assert (data + [x])[1..] == data[1..] + [x];
      assert (|data| + 1) * data[0] == |data| * data[0] + data[0];
    }
  }

  lemma {:induction false} PlainSums(data: seq<Byte>, n: nat)
    requires n <= |data|
    ensures Bytes(data, 0, n) == SumOf(data[..n]) && Partials(data, 0, n) == Weighted(data[..n])
  {
    if n > 0 {
      PlainSums(data, n - 1);
      OneMoreByte(data[..n - 1], data[n - 1]);
      assert data[..n - 1] + [data[n - 1]] == data[..n];
    }
  }

  lemma Halves(s: Sums)
    requires Reduced(s)
    ensures Packed(s) % 65536 == s.s1 && Packed(s) / 65536 == s.s2
  {
  }

  /** The definition gives this checksum. */
  lemma DefinitionIsAdler(adler: nat, data: seq<Byte>)
    requires Reduced(Unpacked(adler))
    ensures IsAdler(adler, data, Packed(Definition(Unpacked(adler), data)))
  {
    hide SumOf, Weighted, Packed, Definition, Bytes, Partials;
    ReducedAtTheEnd(Unpacked(adler), data, 0, |data|);
    assert data[0..|data|] == data && data[..|data|] == data;
    PlainSums(data, |data|);
    Halves(Definition(Unpacked(adler), data));
  }

  /** From the initial value 1. */
  lemma SomeChecksums()
    ensures IsAdler(1, [], 1) && IsAdler(1, [97], 0x0062_0062)
    ensures IsAdler(1, [87, 105, 107, 105, 112, 101, 100, 105, 97], 0x11E6_0398)
    ensures Packed(Definition(Unpacked(1), [97])) == 0x0062_0062
  {
    assert SumOf([97]) == 97 && Weighted([97]) == 97;
    NineBytes();
    assert Definition(Unpacked(1), []) == Sums(1, 0) && [97][..0] == [];
  }

  lemma NineBytes()
    ensures SumOf([87, 105, 107, 105, 112, 101, 100, 105, 97]) == 919 && Weighted([87, 105, 107, 105, 112, 101, 100, 105, 97]) == 4573
  {
    assert SumOf([97]) == 97 && Weighted([97]) == 97;
    assert SumOf([105, 97]) == 202 && Weighted([105, 97]) == 307;
    assert SumOf([100, 105, 97]) == 302 && Weighted([100, 105, 97]) == 607;
    assert SumOf([101, 100, 105, 97]) == 403 && Weighted([101, 100, 105, 97]) == 1011;
    assert SumOf([112, 101, 100, 105, 97]) == 515 && Weighted([112, 101, 100, 105, 97]) == 1571;
    assert SumOf([105, 112, 101, 100, 105, 97]) == 620 && Weighted([105, 112, 101, 100, 105, 97]) == 2201;
    assert SumOf([107, 105, 112, 101, 100, 105, 97]) == 727;
  }

  /** adler32_generic */
  method Generic(adler: nat, data: seq<Byte>) returns (r: nat)
    requires adler < U32 && Reduced(Unpacked(adler))
    ensures r == Packed(Definition(Unpacked(adler), data)) && IsAdler(adler, data, r)
  {
    hide Reduced, Raw, Unpacked, IsAdler;
    ghost var start := Unpacked(adler);
    var s := Unpacked(adler);
    var p := 0;
    while p != |data|
      invariant p <= |data| && Reduced(s) && s == Definition(start, data[..p])
      decreases |data| - p
    {
      var size := Min(|data| - p, MAX_BYTES_PER_CHUNK);
      var raw := Chunk(s, data, p, size);
      ReducedAtTheEnd(s, data, p, size);
      DefinitionReduced(s, data[p..p + size]);
      DefinitionAppend(start, data[..p], data[p..p + size]);
      assert data[..p] + data[p..p + size] == data[..p + size];
      s := Sums(raw.s1 % DIVISOR, raw.s2 % DIVISOR);
      p := p + size;
    }
    assert data[..|data|] == data;
    DefinitionIsAdler(adler, data);
    r := Packed(s);
  }
}
