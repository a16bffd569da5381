/**
 * Hash chains: for each hash of four bytes the positions that have it, newest first, and for each hash of three bytes
 * the newest position. What the tables hold is a function of the buffer alone, and so is what a search finds.
 */
module HashChains {
  import opened LexOrder
  import LzExtend
  import RebaseBits

  const WINDOW: int := 32768
  const BUCKETS3: nat := 32768
  const BUCKETS4: nat := 65536
  /** hash3_tab, hash4_tab and next_tab, one after the other. */
  const NEXT: nat := 98304
  const SIZE: nat := 131072

  type Memory = s: seq<int> | |s| == SIZE witness Blank()

  function Blank(): (s: seq<int>)
    ensures |s| == SIZE
  {
    seq(SIZE, i => 0)
  }

  // ---- Hashes and the newest position of a bucket ---------------------------------------------

  /** lz_hash to 15 bits. */
  function Hash15(s: nat): (h: nat)
    ensures h < BUCKETS3
  {
    s * 0x1E35A7BD % 0x1_0000_0000 / 0x2_0000
  }

  /** The bucket a position is entered in. The very first one is entered with both hashes 0. */
  function Bucket3(data: Bytes, p: nat): (b: nat)
    ensures b < BUCKETS3
  {
    if p == 0 then 0 else Hash15(LzExtend.Word(data, p, 3))
  }

  function Bucket4(data: Bytes, p: nat): (b: nat)
    ensures b < BUCKETS4
  {
    if p == 0 then 0 else LzExtend.Hash4(data, p)
  }

  /** The newest position before e in the bucket; a whole window before the start when there is none. */
  function Newest3(data: Bytes, b: nat, e: nat): (q: int)
    ensures -WINDOW <= q < e && (q < 0 ==> q == -WINDOW) && (q >= 0 ==> Bucket3(data, q) == b)
    ensures forall p: nat | q < p < e :: Bucket3(data, p) != b
  {
    if e == 0 then -WINDOW else if Bucket3(data, e - 1) == b then e - 1 else Newest3(data, b, e - 1)
  }

  function Newest4(data: Bytes, b: nat, e: nat): (q: int)
    ensures -WINDOW <= q < e && (q < 0 ==> q == -WINDOW) && (q >= 0 ==> Bucket4(data, q) == b)
    ensures forall p: nat | q < p < e :: Bucket4(data, p) != b
  {
    if e == 0 then -WINDOW else if Bucket4(data, e - 1) == b then e - 1 else Newest4(data, b, e - 1)
  }

  /** The next position of q's chain. */
  function Older(data: Bytes, q: nat): (r: int)
    ensures -WINDOW <= r < q && (r < 0 ==> r == -WINDOW)
  {
    Newest4(data, Bucket4(data, q), q)
  }

  /** A position as a table holds it: relative to the base, no less than a window back. */
  function Relative(base: nat, q: int): int { if q - base < -WINDOW then -WINDOW else q - base }

  lemma RelativeRebased(base: nat, q: int)
    ensures RebaseBits.Rebased(Relative(base, q)) == Relative(base + WINDOW, q)
  {
  }

  /** The test against the cutoff is the test whether the position has left the window. */
  lemma CutoffIsWindow(base: nat, cur: nat, q: int)
    requires base <= cur < base + WINDOW
    ensures Relative(base, q) <= cur - base - WINDOW <==> q <= cur - WINDOW
    ensures q > cur - WINDOW ==> base + Relative(base, q) == q
  {
  }

  // ---- What the tables hold ------------------------------------------------------------------

  /** The base of relative positions and the hashes of the next position. */
  datatype Cursor = Cursor(base: nat, hash3: nat, hash4: nat)

  ghost predicate Heads3(data: Bytes, mem: Memory, base: nat, next: nat) {
    forall b: nat | b < BUCKETS3 :: mem[b] == Relative(base, Newest3(data, b, next))
  }

  ghost predicate Heads4(data: Bytes, mem: Memory, base: nat, next: nat) {
    forall b: nat | b < BUCKETS4 :: mem[BUCKETS3 + b] == Relative(base, Newest4(data, b, next))
  }

  function Slot(p: nat): (s: nat)
    ensures NEXT <= s < SIZE
  {
    NEXT + p % WINDOW
  }

  ghost predicate Links(data: Bytes, mem: Memory, base: nat, next: nat) {
    forall p: nat | next - WINDOW <= p < next :: mem[Slot(p)] == Relative(base, Older(data, p))
  }

  /** The links of the positions that a search at cur can meet. */
  ghost predicate Linked(data: Bytes, mem: Memory, base: nat, cur: nat) {
    forall p: nat | cur - WINDOW < p < cur :: mem[Slot(p)] == Relative(base, Older(data, p))
  }

  /** All positions before next have been entered, and the hashes of next are at hand. */
  ghost predicate Entered(data: Bytes, mem: Memory, c: Cursor, next: nat) {
    && c.base % WINDOW == 0 && c.base <= next <= c.base + WINDOW
    && c.hash3 == Bucket3(data, next) && c.hash4 == Bucket4(data, next)
    && Heads3(data, mem, c.base, next) && Heads4(data, mem, c.base, next) && Links(data, mem, c.base, next)
  }

  /** Nothing is asked of the tables any more once fewer than five bytes are left. */
  ghost predicate Tracks(data: Bytes, mem: Memory, c: Cursor, next: nat) {
    next + 5 <= |data| ==> Entered(data, mem, c, next)
  }

  lemma StartIsEntered(data: Bytes, mem: Memory)
    requires forall i: nat | i < NEXT :: mem[i] == -WINDOW
    ensures Entered(data, mem, Cursor(0, 0, 0), 0)
  {
  }

  /** The tables after position cur has been entered. */
  function After(mem: Memory, c: Cursor, cur: nat): Memory
    requires c.hash3 < BUCKETS3 && c.hash4 < BUCKETS4
  {
    mem[c.hash3 := cur - c.base][Slot(cur) := mem[BUCKETS3 + c.hash4]][BUCKETS3 + c.hash4 := cur - c.base]
  }

  lemma EnteredNext(data: Bytes, mem: Memory, c: Cursor, cur: nat, d: Cursor)
    requires Entered(data, mem, c, cur) && cur < c.base + WINDOW
    requires d == Cursor(c.base, Bucket3(data, cur + 1), Bucket4(data, cur + 1))
    ensures c.hash3 < BUCKETS3 && c.hash4 < BUCKETS4 && Entered(data, After(mem, c, cur), d, cur + 1)
  {
    hide Bucket3, Bucket4;
    var m := After(mem, c, cur);
    forall b: nat {:trigger Newest4(data, b, cur + 1)} | b < BUCKETS4
      ensures m[BUCKETS3 + b] == Relative(c.base, Newest4(data, b, cur + 1))
    {
      assert b != c.hash4 ==> m[BUCKETS3 + b] == mem[BUCKETS3 + b];
    }
    forall p: nat | cur + 1 - WINDOW <= p < cur + 1 ensures m[Slot(p)] == Relative(c.base, Older(data, p)) {
      if p < cur {
        SlotsDiffer(p, cur);
        assert m[Slot(p)] == mem[Slot(p)];
      } else {
        assert m[Slot(p)] == mem[BUCKETS3 + c.hash4];
      }
    }
  }

  lemma SlotsDiffer(p: nat, q: nat)
    requires p < q < p + WINDOW
    ensures Slot(p) != Slot(q)
  {
  }

  lemma EnteredRebased(data: Bytes, mem: Memory, after: Memory, c: Cursor, next: nat)
    requires Entered(data, mem, c, next) && next == c.base + WINDOW
    requires forall i: nat | i < SIZE :: after[i] == RebaseBits.Rebased(mem[i])
    ensures Entered(data, after, c.(base := c.base + WINDOW), next)
  {
    hide Bucket3, Bucket4, Newest3, Newest4, Older, RebaseBits.Rebased, Relative;
    var base := c.base;
    forall b: nat | b < BUCKETS3 ensures after[b] == Relative(base + WINDOW, Newest3(data, b, next)) {
      RelativeRebased(base, Newest3(data, b, next));
    }
    forall b: nat | b < BUCKETS4 ensures after[BUCKETS3 + b] == Relative(base + WINDOW, Newest4(data, b, next)) {
      RelativeRebased(base, Newest4(data, b, next));
    }
    forall p: nat | next - WINDOW <= p < next ensures after[Slot(p)] == Relative(base + WINDOW, Older(data, p)) {
      RelativeRebased(base, Older(data, p));
    }
  }

  // ---- What a search finds -------------------------------------------------------------------

  /** A match of len bytes with the string at pos; pos is the current position itself when there is none. */
  datatype Hit = Hit(len: nat, pos: nat)

  /** The limits of one search. */
  datatype Limits = Limits(max: nat, nice: nat)

  /** --depth in 32 bits. */
  function Less(depth: nat): nat { if depth == 0 then 0xFFFF_FFFF else depth - 1 }

  /** Four bytes at least, and more than so far. */
  predicate Better(c: nat, best: nat) { c > best && c >= 4 }

  /** Along the chain from q on: the first longest of the matches, until one is long enough or the depth is used up. */
  function Walk(data: Bytes, cur: nat, q: int, best: Hit, k: Limits, depth: nat): Hit
    requires q < cur
    decreases q + WINDOW
  {
    if q <= cur - WINDOW || q < 0 then best
    else
      var c := Common(data, q, cur, k.max);
      var h := if Better(c, best.len) then Hit(c, q) else best;
      if (Better(c, best.len) && c >= k.nice) || Less(depth) == 0 then h else Walk(data, cur, Older(data, q), h, k, Less(depth))
  }

  /** The newest position with the same three bytes, when nothing as long is known. */
  function Short(data: Bytes, cur: nat, q: int, best: nat): Hit {
    if best < 3 && 0 <= q && Common(data, q, cur, 3) == 3 then Hit(3, q) else Hit(best, cur)
  }

  function Search(data: Bytes, cur: nat, best: nat, k: Limits, depth: nat): Hit {
    if k.max < 5 then Hit(best, cur)
    else if best >= 4 then
      if best >= k.nice then Hit(best, cur) else Walk(data, cur, Newest4(data, Bucket4(data, cur), cur), Hit(best, cur), k, depth)
    else
      var q := Newest3(data, Bucket3(data, cur), cur);
      if q <= cur - WINDOW then Hit(best, cur)
      else Walk(data, cur, Newest4(data, Bucket4(data, cur), cur), Short(data, cur, q, best), k, depth)
  }

  /** The strings agree on the whole of the match, which lies in the window. */
  predicate True(data: Bytes, cur: nat, h: Hit, max: nat) {
    h.pos < cur < h.pos + WINDOW && 3 <= h.len <= max && Agree(data, h.pos, cur, h.len)
  }

  lemma {:induction false} WalkIsTrue(data: Bytes, cur: nat, q: int, best: Hit, k: Limits, depth: nat)
    requires q < cur
    ensures var r := Walk(data, cur, q, best, k, depth);
            r == best || (r.len > best.len && True(data, cur, r, k.max) && r.len == Common(data, r.pos, cur, k.max))
    decreases q + WINDOW
  {
    hide Common, Older;
    if q > cur - WINDOW && q >= 0 {
      var c := Common(data, q, cur, k.max);
      CommonMeans(data, q, cur, k.max);
      if !((Better(c, best.len) && c >= k.nice) || Less(depth) == 0) {
        WalkIsTrue(data, cur, Older(data, q), if Better(c, best.len) then Hit(c, q) else best, k, Less(depth));
      }
    }
  }

  /** Whatever is found is a true match in the window, longer than what was asked to be exceeded. One of more than three
      bytes goes as far as it can. */
  lemma SearchIsTrue(data: Bytes, cur: nat, best: nat, k: Limits, depth: nat)
    ensures var r := Search(data, cur, best, k, depth);
            r == Hit(best, cur) || (r.len > best && True(data, cur, r, k.max) && (r.len == 3 || r.len == Common(data, r.pos, cur, k.max)))
  {
    hide Common, Walk, Bucket3, Bucket4, Newest3, Newest4;
    var q3, q4 := Newest3(data, Bucket3(data, cur), cur), Newest4(data, Bucket4(data, cur), cur);
    WalkIsTrue(data, cur, q4, Hit(best, cur), k, depth);
    WalkIsTrue(data, cur, q4, Short(data, cur, q3, best), k, depth);
    if q3 >= 0 { CommonMeans(data, q3, cur, 3); }
  }

  /** How many nodes of the chain from q on lead down to p, both included. */
  function Rank(data: Bytes, q: int, p: nat): (r: nat)
    requires q >= 0 ==> Bucket4(data, q) == Bucket4(data, p)
    ensures r >= 1
    decreases q + WINDOW
  {
    if q <= p || q < 0 then 1 else 1 + Rank(data, Older(data, q), p)
  }

  lemma {:induction false} WalkIsLongest(data: Bytes, cur: nat, q: int, best: Hit, k: Limits, depth: nat, p: nat)
    requires cur - WINDOW < p <= q < cur && Bucket4(data, q) == Bucket4(data, p) && Rank(data, q, p) <= depth
    ensures var r := Walk(data, cur, q, best, k, depth);
            r.len >= best.len && (r.len < k.nice || r.len == best.len ==> !Better(Common(data, p, cur, k.max), r.len))
    decreases q
  {
    hide Common, Bucket4;
    var c := Common(data, q, cur, k.max);
    var h := if Better(c, best.len) then Hit(c, q) else best;
    if !((Better(c, best.len) && c >= k.nice) || Less(depth) == 0) && p < q {
      WalkIsLongest(data, cur, Older(data, q), h, k, Less(depth), p);
    } else if p == q {
      WalkIsTrue(data, cur, Older(data, q), h, k, Less(depth));
    }
  }

  lemma SameBuckets(data: Bytes, p: nat, cur: nat, n: nat)
    requires 0 < p && 0 < cur && Agree(data, p, cur, n)
    ensures n >= 3 ==> Bucket3(data, p) == Bucket3(data, cur)
    ensures n >= 4 ==> Bucket4(data, p) == Bucket4(data, cur)
  {
    hide LzExtend.Word;
    if n >= 3 {
      LzExtend.WordsDiffer(data, p, cur, 3);
      CommonIs(data, p, cur, 3, 3);
    }
    if n >= 4 {
      LzExtend.WordsDiffer(data, p, cur, 4);
      CommonIs(data, p, cur, 4, 4);
    }
  }

  /** A search for more than best bytes looks into the chain of the 4-byte hash, rather than give up because no position
      of the window has the 3-byte hash. */
  predicate LooksInto(data: Bytes, cur: nat, best: nat) {
    best >= 4 || Newest3(data, Bucket3(data, cur), cur) > cur - WINDOW
  }

  lemma AgreeingIsLookedInto(data: Bytes, cur: nat, best: nat, p: nat)
    requires 0 < p < cur < p + WINDOW && Agree(data, p, cur, 3)
    ensures LooksInto(data, cur, best)
  {
    hide Bucket3, Bucket4, Newest3;
    SameBuckets(data, p, cur, 3);
    assert Newest3(data, Bucket3(data, cur), cur) >= p;
  }

  /** Nothing longer was passed over: a search that stops below the nice length has found the longest match of four
      bytes or more with any position in the window that its depth reaches. Position 0 is no exception, but that it
      agrees on bytes does not mean that its hash is the same, or that the chain is looked into. */
  lemma SearchIsLongest(data: Bytes, cur: nat, best: nat, k: Limits, depth: nat, p: nat)
    requires p < cur < p + WINDOW && 5 <= k.max && Bucket4(data, p) == Bucket4(data, cur)
    requires 0 < p || LooksInto(data, cur, best)
    requires Rank(data, Newest4(data, Bucket4(data, cur), cur), p) <= depth
    ensures var r := Search(data, cur, best, k, depth);
            r.len < k.nice ==> Common(data, p, cur, k.max) <= r.len || Common(data, p, cur, k.max) < 4
  {
    hide Common, Bucket3, Bucket4, Walk, Newest3;
    var c := Common(data, p, cur, k.max);
    CommonMeans(data, p, cur, k.max);
    if c >= 4 && 0 < p { AgreeingIsLookedInto(data, cur, best, p); }
    var q3, q4 := Newest3(data, Bucket3(data, cur), cur), Newest4(data, Bucket4(data, cur), cur);
    WalkIsLongest(data, cur, q4, Hit(best, cur), k, depth, p);
    WalkIsLongest(data, cur, q4, Short(data, cur, q3, best), k, depth, p);
  }

  /** What is taken lies within the depth, no later position of the chain is as long, and none is as long as it takes to stop. */
  lemma {:induction false} WalkIsFirst(data: Bytes, cur: nat, q: int, best: Hit, k: Limits, depth: nat, p: nat)
    requires q < cur && depth > 0 && Walk(data, cur, q, best, k, depth) != best
    ensures var r := Walk(data, cur, q, best, k, depth);
      && 0 <= r.pos <= q && r.len >= 4 && Bucket4(data, r.pos) == Bucket4(data, q) && Rank(data, q, r.pos) <= depth
      && (r.pos < p <= q && Bucket4(data, p) == Bucket4(data, q) ==>
            Common(data, p, cur, k.max) < r.len && (Common(data, p, cur, k.max) < k.nice || !Better(Common(data, p, cur, k.max), best.len)))
    decreases q + WINDOW
  {
    hide Common, Bucket4;
    if q > cur - WINDOW && q >= 0 {
      var c := Common(data, q, cur, k.max);
      var h := if Better(c, best.len) then Hit(c, q) else best;
      if !((Better(c, best.len) && c >= k.nice) || Less(depth) == 0) && Walk(data, cur, Older(data, q), h, k, Less(depth)) != h {
        WalkIsFirst(data, cur, Older(data, q), h, k, Less(depth), p);
        WalkIsTrue(data, cur, Older(data, q), h, k, Less(depth));
      }
    }
  }

  /** A search takes the nearest of the longest matches within its depth, but stops at the first of the nice length. */
  lemma SearchIsFirst(data: Bytes, cur: nat, best: nat, k: Limits, depth: nat, p: nat)
    requires depth > 0 && Search(data, cur, best, k, depth) != Hit(best, cur) && Search(data, cur, best, k, depth).len > 3
    ensures var r := Search(data, cur, best, k, depth);
      && r.pos < cur && Bucket4(data, r.pos) == Bucket4(data, cur) && Rank(data, Newest4(data, Bucket4(data, cur), cur), r.pos) <= depth
      && (r.pos < p < cur && Bucket4(data, p) == Bucket4(data, cur) ==>
            Common(data, p, cur, k.max) < r.len && (Common(data, p, cur, k.max) < k.nice || Common(data, p, cur, k.max) <= best || Common(data, p, cur, k.max) < 4))
  {
    hide Common, Bucket3, Bucket4, Walk, Newest3;
    var q3, q4 := Newest3(data, Bucket3(data, cur), cur), Newest4(data, Bucket4(data, cur), cur);
    if Search(data, cur, best, k, depth) == Walk(data, cur, q4, Hit(best, cur), k, depth) {
      WalkIsFirst(data, cur, q4, Hit(best, cur), k, depth, p);
    } else {
      WalkIsFirst(data, cur, q4, Short(data, cur, q3, best), k, depth, p);
    }
  }

  // ---- The very first position ---------------------------------------------------------------

  /** A chain of any other 4-byte hash than 0 does not lead to position 0. */
  lemma {:induction false} WalkMisses(data: Bytes, cur: nat, q: int, best: Hit, k: Limits, depth: nat)
    requires q < cur && (q >= 0 ==> Bucket4(data, q) != 0)
    ensures var r := Walk(data, cur, q, best, k, depth); r == best || r.pos != 0
    decreases q + WINDOW
  {
    hide Common;
    if q > cur - WINDOW && q >= 0 {
      var c := Common(data, q, cur, k.max);
      WalkMisses(data, cur, Older(data, q), if Better(c, best.len) then Hit(c, q) else best, k, Less(depth));
    }
  }

  /** Position 0 is entered under hash 0. From a position whose 4-byte hash is another it is found, if at all, for three
      bytes alone, and not even so unless the 3-byte hash is 0 and no later position has it. */
  lemma FirstIsMissed(data: Bytes, cur: nat, best: nat, k: Limits, depth: nat)
    requires 0 < cur && Bucket4(data, cur) != 0
    ensures var r := Search(data, cur, best, k, depth);
            r.pos == 0 ==> r == Hit(3, 0) && best < 3 && Bucket3(data, cur) == 0 && Newest3(data, 0, cur) == 0
  {
    hide Common, Bucket4, Newest3, Newest4, Walk;
    var q3, q4 := Newest3(data, Bucket3(data, cur), cur), Newest4(data, Bucket4(data, cur), cur);
    WalkMisses(data, cur, q4, Hit(best, cur), k, depth);
    WalkMisses(data, cur, q4, Short(data, cur, q3, best), k, depth);
  }

  lemma GivesUp(data: Bytes, cur: nat, best: nat, k: Limits, depth: nat)
    requires 0 < cur
    ensures !LooksInto(data, cur, best) ==> Search(data, cur, best, k, depth) == Hit(best, cur)
    ensures Bucket3(data, cur) == 0 ==> LooksInto(data, cur, best) || cur >= WINDOW
  {
    hide Common, Bucket4, Newest4, Walk;
    assert Bucket3(data, 0) == 0;
  }

  /** A search finds the longest match, when only position 0 has it, exactly if the current 4-byte hash is 0 and the
      chain is looked into. The latter follows when the 3-byte hash is 0 as well. */
  lemma FirstFoundIff(data: Bytes, cur: nat, best: nat, k: Limits, depth: nat)
    requires 0 < cur < WINDOW && 5 <= k.max && best < k.nice && 3 < k.nice
    requires var c := Common(data, 0, cur, k.max); 4 <= c && best < c
    requires forall p: nat | 0 < p < cur :: Common(data, p, cur, k.max) < Common(data, 0, cur, k.max) && Common(data, p, cur, k.max) < k.nice
    requires Bucket4(data, cur) == 0 ==> Rank(data, Newest4(data, 0, cur), 0) <= depth
    ensures Search(data, cur, best, k, depth).len == Common(data, 0, cur, k.max)
            <==> Bucket4(data, cur) == 0 && LooksInto(data, cur, best)
    ensures Bucket3(data, cur) == 0 ==> LooksInto(data, cur, best)
  {
    hide Common, Search, LooksInto, Bucket3, Newest4, Rank, Agree;
    SearchIsTrue(data, cur, best, k, depth);
    GivesUp(data, cur, best, k, depth);
    if Bucket4(data, cur) != 0 {
      FirstIsMissed(data, cur, best, k, depth);
    } else if LooksInto(data, cur, best) {
      SearchIsLongest(data, cur, best, k, depth, 0);
    }
  }

  /** Position 0 has the same four bytes as position 4, and nothing is found: there no position has the 3-byte hash. */
  lemma FirstMissed(best: nat, depth: nat)
    requires best < 4
    ensures var data: Bytes := [1, 2, 3, 4, 1, 2, 3, 4, 5, 6];
            Agree(data, 0, 4, 4) && Search(data, 4, best, Limits(6, 6), depth) == Hit(best, 4)
  {
    hide Search, Hash15, LzExtend.Hash4;
    var data: Bytes := [1, 2, 3, 4, 1, 2, 3, 4, 5, 6];
    FirstHashes();
    assert Bucket3(data, 0) == 0;
    assert Newest3(data, 16478, 4) < 0;
    GivesUp(data, 4, best, Limits(6, 6), depth);
  }

  lemma FirstHashes()
    ensures var data: Bytes := [1, 2, 3, 4, 1, 2, 3, 4, 5, 6];
            Bucket3(data, 1) == 15915 && Bucket3(data, 2) == 27774 && Bucket3(data, 3) == 32508 && Bucket3(data, 4) == 16478
  {
    hide Bucket3;
    var data: Bytes := [1, 2, 3, 4, 1, 2, 3, 4, 5, 6];
    BucketOf(data, 1, 262914, 15915);
    BucketOf(data, 2, 66563, 27774);
    BucketOf(data, 3, 131332, 32508);
    BucketOf(data, 4, 197121, 16478);
  }

  lemma BucketOf(data: Bytes, p: nat, s: nat, h: nat)
    requires 0 < p && s == At(data, p, 0) + 256 * At(data, p + 1, 0) + 65536 * At(data, p + 2, 0) && Hash15(s) == h
    ensures Bucket3(data, p) == h
  {
    WordOf3(data, p);
  }

  lemma WordOf3(data: Bytes, p: nat)
    ensures LzExtend.Word(data, p, 3) == At(data, p, 0) + 256 * At(data, p + 1, 0) + 65536 * At(data, p + 2, 0)
  {
    assert LzExtend.Word(data, p + 2, 1) == At(data, p + 2, 0) + 256 * LzExtend.Word(data, p + 3, 0);
  }

  /** Three equal bytes are never overlooked, unless the newest position with their hash has other bytes. */
  lemma ShortIsFound(data: Bytes, cur: nat, best: nat, k: Limits, depth: nat, p: nat)
    requires 0 < p < cur < p + WINDOW && 5 <= k.max && Agree(data, p, cur, 3)
    requires p == Newest3(data, Bucket3(data, cur), cur)
    ensures Search(data, cur, best, k, depth).len >= 3
  {
    hide Common, Bucket3, Bucket4, Walk, Newest3, Newest4;
    CommonIs(data, p, cur, 3, 3);
    var q4 := Newest4(data, Bucket4(data, cur), cur);
    WalkIsTrue(data, cur, q4, Hit(best, cur), k, depth);
    WalkIsTrue(data, cur, q4, Short(data, cur, p, best), k, depth);
  }
}
