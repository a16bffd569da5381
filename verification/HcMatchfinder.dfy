/** The hash-chain matchfinder: finds the longest earlier match at a position, and enters positions without searching. */
module HcMatchfinder {
  import opened LexOrder
  import opened HashChains
  import LzExtend
  import RebaseBits

  /** A 16-bit signed relative position. */
  type Link = v: int | -WINDOW <= v < WINDOW

  /** The hashes of the next position, from one 32-bit load. */
  method NextHashes(data: Bytes, next: nat) returns (hash3: nat, hash4: nat)
    requires 0 < next && next + 4 <= |data|
    ensures hash3 == Bucket3(data, next) && hash4 == Bucket4(data, next)
  {
    var nextHashseq := LzExtend.Word(data, next, 4);
    LzExtend.LowThreeBytes(data, next);
    hash3 := Hash15(nextHashseq % 0x100_0000);
    hash4 := LzExtend.Hash(nextHashseq);
  }

  /** The bytes behind the end of a candidate decide first: it can be longer only if they agree. */
  lemma FilterIsSound(data: Bytes, q: nat, cur: nat, best: nat, max: nat)
    requires 4 <= best < max
    ensures Better(Common(data, q, cur, max), best) ==> Common(data, q + best - 3, cur + best - 3, 4) == 4 && Common(data, q, cur, 4) == 4
    ensures Common(data, q, cur, 4) == 4 ==> Agree(data, q, cur, 4)
  {
    CommonMeans(data, q, cur, max);
    CommonMeans(data, q, cur, 4);
    if Better(Common(data, q, cur, max), best) {
      forall i {:trigger At(data, q + best - 3, i)} | 0 <= i < 4 ensures At(data, q + best - 3, i) == At(data, cur + best - 3, i) {
        assert At(data, q, best - 3 + i) == At(data, cur, best - 3 + i);
      }
      CommonIs(data, q + best - 3, cur + best - 3, 4, 4);
      CommonIs(data, q, cur, 4, 4);
    }
  }

  lemma FirstFour(data: Bytes, q: nat, cur: nat, max: nat)
    requires 4 <= max
    ensures Common(data, q, cur, 4) == 4 <==> Common(data, q, cur, max) >= 4
    ensures Common(data, q, cur, 4) == 4 ==> Agree(data, q, cur, 4)
  {
    CommonShorter(data, q, cur, max, 4);
    CommonMeans(data, q, cur, 4);
  }

  /** One node of a walk: what becomes of the best match, and whether the walk ends here. */
  lemma WalkStep(data: Bytes, cur: nat, q: nat, best: Hit, k: Limits, depth: nat)
    requires cur - WINDOW < q < cur
    ensures var c := Common(data, q, cur, k.max);
            var h := if Better(c, best.len) then Hit(c, q) else best;
            Walk(data, cur, q, best, k, depth) ==
            if (Better(c, best.len) && c >= k.nice) || Less(depth) == 0 then h else Walk(data, cur, Older(data, q), h, k, Less(depth))
  {
  }

  lemma WalkEnds(data: Bytes, cur: nat, q: int, best: Hit, k: Limits, depth: nat)
    requires q <= cur - WINDOW && q < cur
    ensures Walk(data, cur, q, best, k, depth) == best
  {
  }

  lemma SameSlot(base: nat, node: int, q: nat)
    requires base % WINDOW == 0 && node == q - base
    ensures node % WINDOW == q % WINDOW
  {
  }

  class HcMatchfinder {
    /** The whole structure as the one array of 16-bit positions that rebasing treats it as. */
    const mem: array<Link>

    constructor ()
      ensures fresh(mem) && mem.Length == SIZE
    {
      mem := new Link[SIZE];
    }

    ghost predicate Valid(data: Bytes, c: Cursor, next: nat)
      reads mem
    {
      mem.Length == SIZE && c.hash3 < BUCKETS3 && c.hash4 < BUCKETS4 && Tracks(data, mem[..], c, next)
    }

    /** Empties the hash tables; the links need no initial value. */
    method Init(ghost data: Bytes)
      requires mem.Length == SIZE
      modifies mem
      ensures Valid(data, Cursor(0, 0, 0), 0)
    {
      var i := 0;
      while i < NEXT
        invariant 0 <= i <= NEXT && forall j :: 0 <= j < i ==> mem[j] == -WINDOW
      {
        mem[i] := -WINDOW;
        i := i + 1;
      }
      StartIsEntered(data, mem[..]);
    }

    /** Moves relative position 0 one window ahead. */
    method SlideWindow()
      requires mem.Length == SIZE
      modifies mem
      ensures forall i: nat | i < SIZE :: mem[i] == RebaseBits.Rebased(old(mem[i]))
    {
      var i := 0;
      while i < SIZE
        invariant 0 <= i <= SIZE
        invariant forall j :: 0 <= j < i ==> mem[j] == RebaseBits.Rebased(old(mem[j]))
        invariant forall j :: i <= j < SIZE ==> mem[j] == old(mem[j])
      {
        mem[i] := RebaseBits.Rebased(mem[i]);
        i := i + 1;
      }
    }

    /** Slides when a whole window has been entered. */
    method SlideIfFull(ghost data: Bytes, c: Cursor, next: nat) returns (d: Cursor)
      requires Valid(data, c, next)
      modifies mem
      ensures Valid(data, d, next) && (next + 5 <= |data| ==> next < d.base + WINDOW) && d.hash3 == c.hash3 && d.hash4 == c.hash4
    {
      hide Entered;
      d := c;
      ghost var was := mem[..];
      if next - c.base == WINDOW {
        SlideWindow();
        d := c.(base := c.base + WINDOW);
        if next + 5 <= |data| { EnteredRebased(data, was, mem[..], c, next); }
      }
      if next + 5 <= |data| { InBase(data, was, c, next); }
    }

    /** The three stores that enter a position. */
    method Enter(c: Cursor, ghost cur: nat, curPos: nat)
      requires mem.Length == SIZE && c.hash3 < BUCKETS3 && c.hash4 < BUCKETS4
      requires c.base % WINDOW == 0 && cur == c.base + curPos && curPos < WINDOW
      modifies mem
      ensures mem[..] == After(old(mem[..]), c, cur)
    {
      assert Slot(cur) == NEXT + curPos;
      mem[c.hash3] := curPos;
      mem[NEXT + curPos] := mem[BUCKETS3 + c.hash4];
      mem[BUCKETS3 + c.hash4] := curPos;
    }

    /** Enters the position and hashes the next. */
    method EnterAndHash(data: Bytes, c: Cursor, cur: nat) returns (d: Cursor)
      requires Valid(data, c, cur) && cur + 5 <= |data| && cur < c.base + WINDOW
      modifies mem
      ensures Valid(data, d, cur + 1) && d.base == c.base && mem[..] == After(old(mem[..]), c, cur)
      ensures Entered(data, mem[..], d, cur + 1)
    {
      hide Bucket3, Bucket4, Heads3, Heads4, Links, After;
      InBase(data, mem[..], c, cur);
      ghost var was := mem[..];
      Enter(c, cur, cur - c.base);
      var hash3, hash4 := NextHashes(data, cur + 1);
      d := Cursor(c.base, hash3, hash4);
      EnteredNext(data, was, c, cur, d);
    }

    /** The next node of the chain, as a relative position. */
    method NextNode(ghost data: Bytes, ghost c: Cursor, ghost cur: nat, node: int, ghost q: nat) returns (r: int)
      requires mem.Length == SIZE && c.base % WINDOW == 0 && cur - WINDOW < q < cur && node == q - c.base
      requires Linked(data, mem[..], c.base, cur)
      ensures r == Relative(c.base, Older(data, q))
    {
      hide Older, Relative;
      SameSlot(c.base, node, q);
      assert mem[..][Slot(q)] == Relative(c.base, Older(data, q));
      r := mem[NEXT + node % WINDOW];
    }

    /** Checks for matches of four bytes, then for longer ones, along the chain from the node on. */
    method WalkChain(data: Bytes, ghost c: Cursor, base: nat, cur: nat, node0: int, ghost q0: int, best0: Hit, k: Limits, depth0: nat) returns (best: Hit)
      requires mem.Length == SIZE && c.base == base && base % WINDOW == 0 && base <= cur < base + WINDOW && Linked(data, mem[..], base, cur)
      requires -WINDOW <= q0 < cur && (q0 < 0 ==> q0 == -WINDOW) && node0 == Relative(base, q0) && 5 <= k.max && k.nice <= k.max && cur + k.max <= |data|
      requires best0.len >= 4 ==> best0.len < k.nice
      ensures best == Walk(data, cur, q0, best0, k, depth0)
    {
      hide Common, Walk, Older, Linked, Better, Agree, Relative;
      best := best0;
      var node, depth := node0, depth0;
      ghost var q := q0;
      CutoffIsWindow(base, cur, q);
      if node <= cur - base - WINDOW {
        WalkEnds(data, cur, q, best, k, depth);
        return;
      }
      while true
        invariant base <= cur && cur - WINDOW < q < cur && q >= 0 && node == Relative(base, q) && base + node == q
        invariant best.len >= 4 ==> best.len < k.nice
        invariant Walk(data, cur, q0, best0, k, depth0) == Walk(data, cur, q, best, k, depth)
        decreases q
      {
        WalkStep(data, cur, q, best, k, depth);
        var h := Candidate(data, cur, base + node, best, k);
        var longEnough := h != best && h.len >= k.nice;
        best := h;
        if longEnough { return; }
        node := NextNode(data, c, cur, node, q);
        q := Older(data, q);
        CutoffIsWindow(base, cur, q);
        if node <= cur - base - WINDOW {
          if Less(depth) != 0 { WalkEnds(data, cur, q, best, k, Less(depth)); }
          return;
        }
        depth := Less(depth);
        if depth == 0 { return; }
      }
    }

    /** One candidate: its first four bytes, or also the four up to the one that would make it longer, then its length. */
    method Candidate(data: Bytes, cur: nat, q: nat, best: Hit, k: Limits) returns (h: Hit)
      requires q < cur && cur + k.max <= |data| && 5 <= k.max && k.nice <= k.max && (best.len >= 4 ==> best.len < k.nice)
      ensures var c := Common(data, q, cur, k.max); h == if Better(c, best.len) then Hit(c, q) else best
      ensures Better(Common(data, q, cur, k.max), best.len) <==> h != best
    {
      hide Common, Agree, LzExtend.Word;
      h := best;
      if best.len < 4 {
        LzExtend.WordsDiffer(data, q, cur, 4);
        FirstFour(data, q, cur, k.max);
        if LzExtend.Word(data, q, 4) == LzExtend.Word(data, cur, 4) {
          var len := LzExtend.Extend(data, cur, q, 4, k.max);
          h := Hit(len, q);
        }
      } else {
        LzExtend.WordsDiffer(data, q, cur, 4);
        LzExtend.WordsDiffer(data, q + best.len - 3, cur + best.len - 3, 4);
        FilterIsSound(data, q, cur, best.len, k.max);
        if LzExtend.Word(data, q + best.len - 3, 4) == LzExtend.Word(data, cur + best.len - 3, 4)
           && LzExtend.Word(data, q, 4) == LzExtend.Word(data, cur, 4)
        {
          var len := LzExtend.Extend(data, cur, q, 4, k.max);
          if len > best.len { h := Hit(len, q); }
        }
      }
    }

    /** Finds the longest match longer than best0 that the depth allows, and enters the position; the offset is 0 without a match. */
    method LongestMatch(data: Bytes, c: Cursor, cur: nat, best0: nat, k: Limits, depth: nat) returns (d: Cursor, len: nat, offset: nat)
      requires Valid(data, c, cur) && cur + k.max <= |data| && k.nice <= k.max && (cur + 5 <= |data| ==> 5 <= k.max)
      modifies mem
      ensures Valid(data, d, cur + 1)
      ensures Search(data, cur, best0, k, depth).pos <= cur
      ensures len == Search(data, cur, best0, k, depth).len && offset == cur - Search(data, cur, best0, k, depth).pos
    {
      hide Entered, Common, Walk, Bucket3, Bucket4, Newest3, Newest4, After, Linked, Links, Heads3, Heads4, LzExtend.Word, Relative;
      SearchIsTrue(data, cur, best0, k, depth);
      d := SlideIfFull(data, c, cur);
      if k.max < 5 { return d, best0, 0; }
      InBase(data, mem[..], d, cur);
      ghost var q3, q4 := Newest3(data, Bucket3(data, cur), cur), Newest4(data, Bucket4(data, cur), cur);
      HeadNodes(data, mem[..], d, cur);
      var node3, node4, base := mem[d.hash3], mem[BUCKETS3 + d.hash4], d.base;
      d := EnterAndHash(data, d, cur);
      LinksStay(data, mem[..], d, cur);
      CutoffIsWindow(base, cur, q3);
      var best := Hit(best0, cur);
      if best0 < 4 {
        if node3 <= cur - base - WINDOW { return d, best0, 0; }
        if best0 < 3 {
          LzExtend.WordsDiffer(data, base + node3, cur, 3);
          if LzExtend.Word(data, base + node3, 3) == LzExtend.Word(data, cur, 3) { best := Hit(3, base + node3); }
        }
      } else if best0 >= k.nice {
        return d, best0, 0;
      }
      best := WalkChain(data, d, base, cur, node4, q4, best, k, depth);
      return d, best.len, cur - best.pos;
    }

    /** Enters count positions without searching; near the end of the input nothing is done. */
    method SkipPositions(data: Bytes, c: Cursor, cur: nat, count: nat) returns (d: Cursor)
      requires Valid(data, c, cur) && count > 0 && cur + count <= |data|
      modifies mem
      ensures Valid(data, d, cur + count)
    {
      hide Entered, Bucket3, Bucket4, After;
      d := c;
      if count + 5 > |data| - cur { return; }
      var next, remaining := cur, count;
      while remaining != 0
        invariant next + remaining == cur + count && Valid(data, d, next)
        decreases remaining
      {
        d := SlideIfFull(data, d, next);
        d := EnterAndHash(data, d, next);
        next, remaining := next + 1, remaining - 1;
      }
    }
  }

  lemma InBase(data: Bytes, mem: Memory, c: Cursor, next: nat)
    requires Tracks(data, mem, c, next) && next + 5 <= |data|
    ensures Entered(data, mem, c, next) && c.base % WINDOW == 0 && c.base <= next <= c.base + WINDOW
  {
  }

  /** The first nodes of the two buckets, before the position itself is entered. */
  lemma HeadNodes(data: Bytes, mem: Memory, c: Cursor, cur: nat)
    requires Entered(data, mem, c, cur)
    ensures c.hash3 < BUCKETS3 && c.hash4 < BUCKETS4
    ensures mem[c.hash3] == Relative(c.base, Newest3(data, Bucket3(data, cur), cur))
    ensures mem[BUCKETS3 + c.hash4] == Relative(c.base, Newest4(data, Bucket4(data, cur), cur))
  {
  }

  /** The links of the positions before are still there once the current one has been entered. */
  lemma LinksStay(data: Bytes, mem: Memory, d: Cursor, cur: nat)
    requires Entered(data, mem, d, cur + 1)
    ensures Linked(data, mem, d.base, cur) && d.base % WINDOW == 0
  {
  }
}
