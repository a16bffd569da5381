/** Adler-32 with 128-bit registers, 32 bytes an iteration, against the same definition. */
module AdlerLanes {
  import opened Adler32

  const BYTES_PER_ITERATION: nat := 32
  const ALIGNMENT_REQUIRED: nat := 16
  const U16: nat := 0x1_0000

  // ---- Registers ---------------------------------------------------------------------------

  /** Four lanes of 32 bits; eight lanes of 16 bits. */
  type Word4 = v: seq<nat> | |v| == 4 witness [0, 0, 0, 0]
  type Half8 = v: seq<nat> | |v| == 8 witness [0, 0, 0, 0, 0, 0, 0, 0]
  type Byte16 = v: seq<Byte> | |v| == 16 witness [0, 0, 0, 0, 0, 0, 0, 0, 0, 0, 0, 0, 0, 0, 0, 0]

  function Add4(v: Word4, w: Word4): Word4 {
    [(v[0] + w[0]) % U32, (v[1] + w[1]) % U32, (v[2] + w[2]) % U32, (v[3] + w[3]) % U32]
  }

  function Shift5(v: Word4): Word4 { [v[0] * 32 % U32, v[1] * 32 % U32, v[2] * 32 % U32, v[3] * 32 % U32] }

  function Add8(v: Half8, w: seq<Byte>): Half8
    requires |w| == 8
  {
    [(v[0] + w[0]) % U16, (v[1] + w[1]) % U16, (v[2] + w[2]) % U16, (v[3] + w[3]) % U16,
     (v[4] + w[4]) % U16, (v[5] + w[5]) % U16, (v[6] + w[6]) % U16, (v[7] + w[7]) % U16]
  }

  function Sum8(w: seq<nat>): nat
    requires |w| == 8
  {
    w[0] + w[1] + w[2] + w[3] + w[4] + w[5] + w[6] + w[7]
  }

  /** _mm_sad_epu8 with zeroes: two sums of eight bytes, each in a 64-bit lane. */
  function Sad(w: Byte16): Word4 { [Sum8(w[..8]), 0, Sum8(w[8..]), 0] }

  /** A 16-bit lane as the signed number that the multiplication takes it for. */
  function Signed(x: nat): int { if x < 0x8000 then x else x - U16 }

  /** _mm_madd_epi16 by the multipliers top, top - 1, ..., top - 7. */
  function Madd(v: Half8, top: nat): Word4
    requires top >= 8
  {
    [(Signed(v[0]) * top + Signed(v[1]) * (top - 1)) % U32, (Signed(v[2]) * (top - 2) + Signed(v[3]) * (top - 3)) % U32,
     (Signed(v[4]) * (top - 4) + Signed(v[5]) * (top - 5)) % U32, (Signed(v[6]) * (top - 6) + Signed(v[7]) * (top - 7)) % U32]
  }

  /** _mm_shuffle_epi32 */
  function Shuffle(v: Word4, sel: nat): Word4 { [v[sel % 4], v[sel / 4 % 4], v[sel / 16 % 4], v[sel / 64 % 4]] }

  /** The two shuffles that leave the sum of all lanes in the lowest. */
  function LowSum(v: Word4): nat {
    var w: Word4 := Add4(v, Shuffle(v, 0x31));
    Add4(w, Shuffle(w, 0x02))[0]
  }

  function Total(v: Word4): nat { v[0] + v[1] + v[2] + v[3] }

  lemma LowSumIsTotal(v: Word4)
    requires Total(v) < U32
    ensures LowSum(v) == Total(v)
  {
    var x: Word4, w: Word4 := [v[1], v[0], v[3], v[0]], Add4(v, Shuffle(v, 0x31));
    assert Shuffle(v, 0x31) == x;
    assert w[0] == v[0] + v[1] && w[2] == v[2] + v[3];
    var y: Word4 := [w[2], w[0], w[0], w[0]];
    assert Shuffle(w, 0x02) == y;
  }

  // ---- Bytes and partial sums over eight bytes ------------------------------------------------

  /** Eight numbers times top, top - 1, ..., top - 7. */
  function Dot(w: seq<nat>, top: nat): nat
    requires |w| == 8 && top >= 8
  {
    w[0] * top + w[1] * (top - 1) + w[2] * (top - 2) + w[3] * (top - 3)
    + w[4] * (top - 4) + w[5] * (top - 5) + w[6] * (top - 6) + w[7] * (top - 7)
  }

  lemma {:induction false} BytesAppend(data: seq<Byte>, p: nat, m: nat, n: nat)
    requires p + m + n <= |data|
    ensures Bytes(data, p, m + n) == Bytes(data, p, m) + Bytes(data, p + m, n)
    decreases n
  {
    if n > 0 { BytesAppend(data, p, m, n - 1); }
  }

  lemma {:induction false} PartialsAppend(data: seq<Byte>, p: nat, m: nat, n: nat)
    requires p + m + n <= |data|
    ensures Partials(data, p, m + n) == Partials(data, p, m) + n * Bytes(data, p, m) + Partials(data, p + m, n)
    decreases n
  {
    if n > 0 {
      PartialsAppend(data, p, m, n - 1);
      BytesAppend(data, p, m, n);
      assert n * Bytes(data, p, m) == (n - 1) * Bytes(data, p, m) + Bytes(data, p, m);
    }
  }

  lemma BytesOfEight(data: seq<Byte>, q: nat)
    requires q + 8 <= |data|
    ensures Bytes(data, q, 8) == Sum8(data[q..q + 8])
    ensures Partials(data, q, 8) == Dot(data[q..q + 8], 8)
  {
    var w: seq<nat> := data[q..q + 8];
    var b1, b2, b3, b4 := Bytes(data, q, 1), Bytes(data, q, 2), Bytes(data, q, 3), Bytes(data, q, 4);
    assert b1 == w[0] && b2 == b1 + w[1] && b3 == b2 + w[2] && b4 == b3 + w[3];
    var b5, b6, b7, b8 := Bytes(data, q, 5), Bytes(data, q, 6), Bytes(data, q, 7), Bytes(data, q, 8);
    assert b5 == b4 + w[4] && b6 == b5 + w[5] && b7 == b6 + w[6] && b8 == b7 + w[7];
    assert Partials(data, q, 1) == b1 && Partials(data, q, 2) == b1 + b2 && Partials(data, q, 3) == b1 + b2 + b3;
    assert Partials(data, q, 4) == b1 + b2 + b3 + b4 && Partials(data, q, 5) == b1 + b2 + b3 + b4 + b5;
    assert Partials(data, q, 6) == Partials(data, q, 5) + b6 && Partials(data, q, 7) == Partials(data, q, 6) + b7;
  }

  lemma DotFrom(w: seq<nat>, extra: nat)
    requires |w| == 8
    ensures Dot(w, 8 + extra) == Dot(w, 8) + extra * Sum8(w)
  {
    var x := w[0] + w[1] + w[2] + w[3];
    assert extra * Sum8(w) == extra * x + extra * w[4] + extra * w[5] + extra * w[6] + extra * w[7];
    assert extra * x == extra * w[0] + extra * w[1] + extra * w[2] + extra * w[3];
  }

  /** Each byte of 32 enters s2 once for itself and once for every byte after it. */
  lemma PartialsOfIteration(data: seq<Byte>, q: nat)
    requires q + 32 <= |data|
    ensures Bytes(data, q, 32) == Sum8(data[q..q + 8]) + Sum8(data[q + 8..q + 16]) + Sum8(data[q + 16..q + 24]) + Sum8(data[q + 24..q + 32])
    ensures Partials(data, q, 32) == Dot(data[q..q + 8], 32) + Dot(data[q + 8..q + 16], 24) + Dot(data[q + 16..q + 24], 16) + Dot(data[q + 24..q + 32], 8)
  {
    hide Sum8, Dot, Bytes, Partials;
    BytesOfEight(data, q); BytesOfEight(data, q + 8); BytesOfEight(data, q + 16); BytesOfEight(data, q + 24);
    BytesAppend(data, q, 8, 8); BytesAppend(data, q, 16, 8); BytesAppend(data, q, 24, 8);
    PartialsAppend(data, q, 8, 8); PartialsAppend(data, q, 16, 8); PartialsAppend(data, q, 24, 8);
    DotFrom(data[q..q + 8], 24); DotFrom(data[q + 8..q + 16], 16); DotFrom(data[q + 16..q + 24], 8);
  }

  // ---- The vector loop -----------------------------------------------------------------------

  datatype Lanes = Lanes(s1: Word4, s2: Word4, a: Half8, b: Half8, c: Half8, d: Half8)

  /** The four counters multiplied out. */
  function Products(v: Lanes): nat { Dot(v.a, 32) + Dot(v.b, 24) + Dot(v.c, 16) + Dot(v.d, 8) }

  predicate Below4(v: Word4, m: nat) { v[0] <= m && v[1] <= m && v[2] <= m && v[3] <= m }
  predicate Below8(v: Half8, m: nat) { forall i | 0 <= i < 8 :: v[i] <= m }

  /** No lane has left its width after k iterations. */
  predicate Fits(v: Lanes, k: nat) {
    && Below4(v.s1, 255 * 32 * k) && Below4(v.s2, 255 * 32 * 128 * k)
    && Below8(v.a, 255 * k) && Below8(v.b, 255 * k) && Below8(v.c, 255 * k) && Below8(v.d, 255 * k)
  }

  /** What the lanes say of the first k iterations from p on. */
  predicate Holds(v: Lanes, data: seq<Byte>, p: nat, k: nat)
    requires p + 32 * k <= |data|
  {
    && Fits(v, k)
    && Total(v.s1) == Bytes(data, p, 32 * k)
    && 32 * Total(v.s2) + Products(v) == Partials(data, p, 32 * k)
  }

  lemma AddSad(v: Word4, w: Byte16, m: nat)
    requires Below4(v, m) && m + 255 * 8 < U32
    ensures Below4(Add4(v, Sad(w)), m + 255 * 8)
    ensures Total(Add4(v, Sad(w))) == Total(v) + Sum8(w[..8]) + Sum8(w[8..])
  {
    hide Add4, Total;
    SadTotal(w);
    AddTotals(v, Sad(w), m, 255 * 8);
  }

  lemma SadTotal(w: Byte16)
    ensures Below4(Sad(w), 255 * 8) && Total(Sad(w)) == Sum8(w[..8]) + Sum8(w[8..])
  {
  }

  lemma AddTotals(v: Word4, w: Word4, m: nat, n: nat)
    requires Below4(v, m) && Below4(w, n) && m + n < U32
    ensures Below4(Add4(v, w), m + n) && Total(Add4(v, w)) == Total(v) + Total(w)
  {
    var r: Word4 := [v[0] + w[0], v[1] + w[1], v[2] + w[2], v[3] + w[3]];
    assert Add4(v, w) == r;
  }

  lemma AddCounters(v: Half8, w: seq<Byte>, m: nat, extra: nat)
    requires |w| == 8 && Below8(v, m) && m + 255 < U16
    ensures Below8(Add8(v, w), m + 255) && Dot(Add8(v, w), 8 + extra) == Dot(v, 8 + extra) + Dot(w, 8 + extra)
  {
    hide Dot, Sum8, Add8;
    var r := Add8(v, w);
    AddedCounters(v, w);
    DotAdds(r, v, w);
    DotFrom(r, extra); DotFrom(v, extra); DotFrom(w, extra);
    assert extra * (Sum8(v) + Sum8(w)) == extra * Sum8(v) + extra * Sum8(w);
  }

  lemma AddedCounters(v: Half8, w: seq<Byte>)
    requires |w| == 8 && Below8(v, U16 - 256)
    ensures forall i | 0 <= i < 8 :: Add8(v, w)[i] == v[i] + w[i]
  {
    forall i | 0 <= i < 8 ensures Add8(v, w)[i] == v[i] + w[i] { SmallMod(v[i] + w[i], U16); }
  }

  lemma DotAdds(r: seq<nat>, v: seq<nat>, w: seq<nat>)
    requires |r| == |v| == |w| == 8 && forall i | 0 <= i < 8 :: r[i] == v[i] + w[i]
    ensures Dot(r, 8) == Dot(v, 8) + Dot(w, 8) && Sum8(r) == Sum8(v) + Sum8(w)
  {
  }

  /** One iteration: 32 bytes into all lanes. */
  method Iterate(v: Lanes, data: seq<Byte>, q: nat, ghost p: nat, ghost k: nat) returns (r: Lanes)
    requires k < 128 && q == p + 32 * k && q + 32 <= |data| && Holds(v, data, p, k)
    ensures Holds(r, data, p, k + 1)
  {
    hide Add4, Add8, Sad, Sum8, Dot, Total, Bytes, Partials, Below4, Below8;
    var low, high := data[q..q + 16], data[q + 16..q + 32];
    var s2 := Add4(v.s2, v.s1);
    var half := Add4(v.s1, Sad(low));
    var s1 := Add4(half, Sad(high));
    r := Lanes(s1, s2, Add8(v.a, low[..8]), Add8(v.b, low[8..]), Add8(v.c, high[..8]), Add8(v.d, high[8..]));
    Widen4(v.s1, 255 * 32 * k, 255 * 32 * 128);
    AddTotals(v.s2, v.s1, 255 * 32 * 128 * k, 255 * 32 * 128);
    AddSad(v.s1, low, 255 * 32 * k);
    AddSad(half, high, 255 * 32 * k + 255 * 8);
    Widen4(s1, 255 * 32 * k + 255 * 16, 255 * 32 * (k + 1));
    AddCounters(v.a, low[..8], 255 * k, 24); AddCounters(v.b, low[8..], 255 * k, 16);
    AddCounters(v.c, high[..8], 255 * k, 8); AddCounters(v.d, high[8..], 255 * k, 0);
    assert low[..8] == data[q..q + 8] && low[8..] == data[q + 8..q + 16] && high[..8] == data[q + 16..q + 24] && high[8..] == data[q + 24..q + 32];
    PartialsOfIteration(data, q);
    BytesAppend(data, p, 32 * k, 32);
    PartialsAppend(data, p, 32 * k, 32);
  }

  lemma Widen4(v: Word4, m: nat, n: nat)
    requires Below4(v, m) && m <= n
    ensures Below4(v, n)
  {
  }

  lemma MaddTotal(v: Half8, top: nat)
    requires 8 <= top <= 32 && Below8(v, 255 * 128)
    ensures Below4(Madd(v, top), 255 * 128 * 64) && Total(Madd(v, top)) == Dot(v, top)
  {
    hide Signed;
    MaddLane(v[0], v[1], top); MaddLane(v[2], v[3], top - 2); MaddLane(v[4], v[5], top - 4); MaddLane(v[6], v[7], top - 6);
  }

  lemma MaddLane(x: nat, y: nat, t: nat)
    requires x <= 255 * 128 && y <= 255 * 128 && 1 <= t <= 32
    ensures (Signed(x) * t + Signed(y) * (t - 1)) % U32 == x * t + y * (t - 1) <= 255 * 128 * 64
  {
    hide *;
    SignedTimes(x, t);
    SignedTimes(y, t - 1);
    TwoFit(x * t, y * (t - 1));
  }

  lemma SignedTimes(x: nat, t: nat)
    requires x <= 255 * 128 && t <= 32
    ensures Signed(x) * t == x * t <= 255 * 128 * 32
  {
    Product(x, t, 255 * 128, 32);
  }

  lemma TwoFit(a: nat, b: nat)
    requires a <= 255 * 128 * 32 && b <= 255 * 128 * 32
    ensures (a + b) % U32 == a + b <= 255 * 128 * 64
  {
  }

  lemma SmallMod(n: nat, m: nat)
    requires n < m
    ensures n % m == n
  {
  }

  lemma Shifted(v: Word4)
    requires Below4(v, 255 * 32 * 128 * 128)
    ensures Below4(Shift5(v), 255 * 32 * 128 * 128 * 32) && Total(Shift5(v)) == 32 * Total(v)
  {
  }

  /** The shift and the multiplications after the loop bring everything into the s2 lanes. */
  method Finish(v: Lanes, ghost data: seq<Byte>, ghost p: nat, ghost k: nat) returns (s2: Word4)
    requires k <= 128 && p + 32 * k <= |data| && Holds(v, data, p, k)
    ensures Total(s2) == Partials(data, p, 32 * k)
  {
    hide Add4, Shift5, Madd, Dot, Total, Bytes, Partials, Below4;
    var m := 255 * 128 * 64;
    var n := 255 * 32 * 128 * 128 * 32;
    Widen4(v.s2, 255 * 32 * 128 * k, 255 * 32 * 128 * 128);
    Shifted(v.s2);
    MaddTotal(v.a, 32); MaddTotal(v.b, 24); MaddTotal(v.c, 16); MaddTotal(v.d, 8);
    s2 := Shift5(v.s2);
    AddTotals(s2, Madd(v.a, 32), n, m);
    s2 := Add4(s2, Madd(v.a, 32));
    AddTotals(s2, Madd(v.b, 24), n + m, m);
    s2 := Add4(s2, Madd(v.b, 24));
    AddTotals(s2, Madd(v.c, 16), n + 2 * m, m);
    s2 := Add4(s2, Madd(v.c, 16));
    AddTotals(s2, Madd(v.d, 8), n + 3 * m, m);
    s2 := Add4(s2, Madd(v.d, 8));
  }

  /** One chunk of at most 128 iterations. */
  method VectorChunk(s0: Sums, data: seq<Byte>, p: nat, size: nat) returns (s: Sums)
    requires Reduced(s0) && p + size <= |data| && 0 < size <= 128 * BYTES_PER_ITERATION && size % BYTES_PER_ITERATION == 0
    ensures s == Raw(s0, data, p, size)
  {
    hide LowSum, Total, Bytes, Partials, Reduced, Fits, Products, Raw;
    var zero: Word4, none: Half8 := [0, 0, 0, 0], [0, 0, 0, 0, 0, 0, 0, 0];
    var v := Lanes(zero, zero, none, none, none, none);
    Zeroes(v, data, p);
    var q := p;
    ghost var k: nat := 0;
    RawParts(s0, data, p, size);
    var s2 := (s0.s2 + s0.s1 * size % U32) % U32;
    assert s2 == s0.s2 + s0.s1 * size;
    while q != p + size
      invariant q == p + 32 * k && q <= p + size && Holds(v, data, p, k)
      decreases p + size - q
    {
      v := Iterate(v, data, q, p, k);
      q := q + BYTES_PER_ITERATION;
      k := k + 1;
    }
    var w := Finish(v, data, p, k);
    ChunkDone(s0, data, p, size, v, w);
    s := Sums((s0.s1 + LowSum(v.s1)) % U32, (s2 + LowSum(w)) % U32);
  }

  lemma ChunkDone(s: Sums, data: seq<Byte>, p: nat, n: nat, v: Lanes, w: Word4)
    requires Reduced(s) && p + n <= |data| && n <= MAX_BYTES_PER_CHUNK
    requires Total(v.s1) == Bytes(data, p, n) && Total(w) == Partials(data, p, n)
    ensures Sums((s.s1 + LowSum(v.s1)) % U32, (s.s2 + s.s1 * n + LowSum(w)) % U32) == Raw(s, data, p, n)
  {
    hide Raw, LowSum, Total, Bytes, Partials, Reduced;
    RawParts(s, data, p, n);
    LowSumIsTotal(v.s1);
    LowSumIsTotal(w);
  }

  lemma RawParts(s: Sums, data: seq<Byte>, p: nat, n: nat)
    requires Reduced(s) && p + n <= |data| && n <= MAX_BYTES_PER_CHUNK
    ensures Raw(s, data, p, n) == Sums(s.s1 + Bytes(data, p, n), (s.s2 + s.s1 * n) + Partials(data, p, n))
    ensures s.s1 + Bytes(data, p, n) < U32 && (s.s2 + s.s1 * n) + Partials(data, p, n) < U32
    ensures (s.s2 + s.s1 * n % U32) % U32 == s.s2 + s.s1 * n
  {
    ChunkFits(s, data, p, n);
    SmallMod(s.s1 * n, U32);
  }

  lemma Zeroes(v: Lanes, data: seq<Byte>, p: nat)
    requires p <= |data| && v.s1 == v.s2 == [0, 0, 0, 0] && v.a == v.b == v.c == v.d == [0, 0, 0, 0, 0, 0, 0, 0]
    ensures Holds(v, data, p, 0)
  {
  }

  // ---- The whole function --------------------------------------------------------------------

  /** Up to `size` bytes one at a time, reduced once at the end. */
  method Bytewise(s0: Sums, data: seq<Byte>, p: nat, size: nat) returns (s: Sums)
    requires Reduced(s0) && p + size <= |data| && size <= MAX_BYTES_PER_CHUNK
    ensures s == Definition(s0, data[p..p + size]) && Reduced(s)
  {
    hide Raw, Reduced;
    var n := 0;
    s := s0;
    RawNone(s0, data, p);
    while n != size
      invariant n <= size && s == Raw(s0, data, p, n)
      decreases size - n
    {
      s := AddByte(s, data, p, n, s0, size);
      n := n + 1;
    }
    ReducedAtTheEnd(s0, data, p, size);
    DefinitionReduced(s0, data[p..p + size]);
    s := Sums(s.s1 % DIVISOR, s.s2 % DIVISOR);
  }

  /** How many bytes come before the next aligned address, at most n. */
  method ToAlignment(addr: nat, n: nat) returns (k: nat)
    ensures k <= n && k < ALIGNMENT_REQUIRED && (k == n || (addr + k) % ALIGNMENT_REQUIRED == 0)
  {
    ghost var gap := (ALIGNMENT_REQUIRED - addr % ALIGNMENT_REQUIRED) % ALIGNMENT_REQUIRED;
    k := 0;
    while k != n && (addr + k) % ALIGNMENT_REQUIRED != 0
      invariant k <= n && k <= gap
    {
      k := k + 1;
    }
  }

  lemma Extended(start: Sums, s: Sums, data: seq<Byte>, p: nat, n: nat)
    requires p + n <= |data| && s == Definition(start, data[..p])
    ensures Definition(s, data[p..p + n]) == Definition(start, data[..p + n])
  {
    DefinitionAppend(start, data[..p], data[p..p + n]);
    assert data[..p] + data[p..p + n] == data[..p + n];
  }

  /** adler32_sse2, of a buffer at any address. */
  method Sse2(addr: nat, adler: nat, data: seq<Byte>) returns (r: nat)
    requires adler < U32 && Reduced(Unpacked(adler))
    ensures r == Packed(Definition(Unpacked(adler), data)) && IsAdler(adler, data, r)
  {
    hide Reduced, Raw, Unpacked, Definition, Reduce, Packed, IsAdler;
    ghost var start := Unpacked(adler);
    var s := Unpacked(adler);
    var p := ToAlignment(addr, |data|);
    s := Bytewise(s, data, 0, p);
    assert data[0..p] == data[..p];
    var vend := |data| - (|data| - p) % BYTES_PER_ITERATION;
    while p != vend
      invariant p <= vend && (vend - p) % BYTES_PER_ITERATION == 0 && Reduced(s) && s == Definition(start, data[..p])
      decreases vend - p
    {
      var size := Min(Min(vend - p, MAX_BYTES_PER_CHUNK), BYTES_PER_ITERATION * (0x7FFF / 0xFF));
      size := size - size % BYTES_PER_ITERATION;
      var raw := VectorChunk(s, data, p, size);
      ReducedAtTheEnd(s, data, p, size);
      DefinitionReduced(s, data[p..p + size]);
      Extended(start, s, data, p, size);
      ReduceOf(raw);
      s := Sums(raw.s1 % DIVISOR, raw.s2 % DIVISOR);
      p := p + size;
    }
    Extended(start, s, data, p, |data| - p);
    assert data[..|data|] == data;
    s := Bytewise(s, data, p, |data| - p);
    DefinitionIsAdler(adler, data);
    r := Packed(s);
  }

  lemma ReduceOf(s: Sums)
    ensures Reduce(s) == Sums(s.s1 % DIVISOR, s.s2 % DIVISOR)
  {
  }
}
