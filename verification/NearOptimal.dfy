/** The near-optimal parser: matches at every position of a block are cached, then a cheapest path through them is chosen. */
module NearOptimal {
  import opened BitFields
  import opened DeflateSymbols
  import opened BlockItems
  import opened BlockChoices
  import opened MinCostPath
  import opened ItemList
  import LexOrder
  import SearchTree
  import BtForest
  import TreeMemory
  import Bt = BtMatchfinder
  import BtHeads
  import ParserChoices
  import opened OptimalCache

  const WINDOW: nat := 32768
  const MAX_MATCHES_PER_POS: nat := 256
  /** match_cache and optimum_nodes have this many entries. */
  const CACHE_SIZE: nat := CACHE_LENGTH + MAX_MATCHES_PER_POS + MAX_MATCH_LEN - 1
  const NUM_NODES: nat := SOFT_MAX_BLOCK_LENGTH - 1 + MAX_MATCH_LEN + 1

  /** The parser's variables: window base, hashes of the next position, length limits, position. */
  datatype State = State(base: nat, hash3: nat, hash4: nat, max: nat, nice: nat, next: nat)

  function Min(a: int, b: int): int { if a < b then a else b }

  /** The limits are never below what the rest of the input allows; the nice length is the level's unless cut off. */
  predicate Limited(s: State, left: int, nice: nat) { Min(MAX_MATCH_LEN, left) <= s.max <= MAX_MATCH_LEN && s.nice == Min(nice, s.max) }

  /** The matchfinder has followed up to the next position; nothing is asked of it near the end of the input. */
  ghost predicate Follows(mf: Bt.BtMatchfinder, data: seq<Byte>, s: State, nice: nat, depth: nat)
    reads mf, mf.mem
  {
    && mf.mem.Length == TreeMemory.SIZE && s.base <= s.next <= |data|
    && (s.next + REQUIRED_NBYTES <= |data| ==> mf.Valid(data, s.base, s.next, s.nice) && Bt.HashesFor(data, s.next, s.hash3, s.hash4) && mf.trees == TreesAt(data, s.next, nice, depth))
  }

  /** Slides the window when a whole one has been entered. */
  method SlideIfFull(mf: Bt.BtMatchfinder, data: seq<Byte>, s: State, ghost nice: nat, ghost depth: nat) returns (t: State)
    requires Follows(mf, data, s, nice, depth) && s.next < |data|
    modifies mf.mem
    ensures Follows(mf, data, t, nice, depth) && (s.next + REQUIRED_NBYTES <= |data| ==> s.next < t.base + WINDOW) && t == s.(base := t.base)
  {
    hide BtForest.Forest, Bt.HashesFor, TreesAt;
    t := s;
    if s.next == s.base + Min(|data| - s.base, WINDOW) {
      mf.SlideWindow(data, s.base, s.nice);
      t := s.(base := s.next);
    }
  }

  /** The limits near the end of the input. */
  method Limit(mf: Bt.BtMatchfinder, data: seq<Byte>, s: State, ghost nice: nat, ghost depth: nat) returns (t: State)
    requires Follows(mf, data, s, nice, depth) && s.next < |data| && Limited(s, |data| - s.next, nice)
    ensures Follows(mf, data, t, nice, depth) && Limited(t, |data| - s.next, nice) && t == s.(max := t.max, nice := t.nice)
    ensures t.max == MaxAt(|data| - s.next) && t.nice == NiceAt(nice, |data| - s.next)
  {
    hide BtForest.Forest, Bt.HashesFor, TreesAt;
    t := s;
    if s.max > |data| - s.next {
      t := s.(max := |data| - s.next, nice := Min(s.nice, |data| - s.next));
      if s.next + REQUIRED_NBYTES <= |data| { BtForest.ForestShorter(data, mf.mem[..], s.base, s.next, s.nice, t.nice, mf.trees); }
    }
  }

  // ---- Matches -------------------------------------------------------------------------------

  /** A position as cached: true matches in order, of which there are not too many. */
  ghost predicate GoodPosition(p: Position, data: seq<Byte>, at: nat) {
    MinCostPath.GoodMatches(p.matches) && TruePosition(p, data, at) && |p.matches| <= MAX_MATCHES_PER_POS
  }

  lemma ReportedPosition(data: seq<Byte>, at: nat, ms: seq<SearchTree.Match>, max: nat, nice: nat)
    requires at < |data| && BtForest.GoodReport(data, at, ms, max, nice) && at + max <= |data| && max <= MAX_MATCH_LEN && nice <= MAX_MATCH_LEN
    ensures GoodPosition(Position(EntriesOf(ms), data[at]), data, at) && |ms| <= MAX_MATCHES_PER_POS
    ensures ms != [] ==> MIN_MATCH_LEN <= Bt.BestLength(ms) <= max && LongestOf(EntriesOf(ms)) == Bt.BestLength(ms)
  {
    hide LexOrder.Agree;
    forall k | 0 <= k < |ms| ensures SearchTree.TrueMatch(data, at, ms[k], max) {}
  }

  lemma NoMatches(data: seq<Byte>, at: nat)
    requires at < |data|
    ensures GoodPosition(Position([], data[at]), data, at)
  {
  }

  /** Enters one position, with or without caching its matches; near the end of the input nothing is looked for. */
  method CachePosition(mf: Bt.BtMatchfinder, data: seq<Byte>, s: State, depth: nat, nice: nat, record: bool)
    returns (t: State, p: Position, bestLen: nat)
    requires Follows(mf, data, s, nice, depth) && s.next < |data| && Limited(s, |data| - s.next, nice) && nice > 3 && depth >= 1
    modifies mf, mf.mem
    ensures Follows(mf, data, t, nice, depth) && Limited(t, |data| - t.next, nice) && t.next == s.next + 1
    ensures t.nice == NiceAt(nice, |data| - s.next) == Min(nice, Min(258, |data| - s.next))
    ensures p == Position(if record then EntriesOf(ReportAt(data, s.next, nice, depth)) else [], data[s.next])
    ensures GoodPosition(p, data, s.next)
    ensures record && |data| - s.next >= 5 ==> Reported(data, s.next, ReportAt(data, s.next, nice, depth), nice, depth)
    ensures record ==> bestLen == (if ReportAt(data, s.next, nice, depth) == [] then if MaxAt(|data| - s.next) < 5 then 0 else 3
                                   else OptimalCache.Longest(ReportAt(data, s.next, nice, depth)))
    ensures bestLen <= MAX_MATCH_LEN && s.next + bestLen <= |data| && bestLen >= LongestOf(p.matches)
  {
    hide Bt.BtMatchfinder.Valid, Bt.HashesFor, BtForest.GoodReport, GoodPosition, BtHeads.ThreeByteMatch, SearchTree.Found, BtForest.Advanced, SearchTree.Covered,
      Bt.BestLength, LongestOf, EntriesOf, TreesAt, BtHeads.ReportsThree, BtHeads.Filed4, ReportAt, OptimalCache.Longest;
    t := SlideIfFull(mf, data, s, nice, depth);
    t := Limit(mf, data, t, nice, depth);
    NoMatches(data, s.next);
    NoneLongest();
    p, bestLen := Position([], data[s.next]), 0;
    ReportIs(data, s.next, nice, depth);
    if t.max >= REQUIRED_NBYTES {
      InWindow(mf, data, t, nice, depth);
      NextTrees(data, s.next, nice, depth);
      if record {
        var hash3, hash4, ms, best := mf.AdvanceOneByte(data, t.base, t.next - t.base, t.max, t.nice, depth, t.hash3, t.hash4, true);
        ReportedPosition(data, s.next, ms, t.max, t.nice);
        BestOfNone(ms);
        assert Reported(data, s.next, ms, nice, depth);
        p, bestLen := Position(EntriesOf(ms), data[s.next]), best;
        t := t.(hash3 := hash3, hash4 := hash4);
      } else {
        var hash3, hash4, ms, best := mf.AdvanceOneByte(data, t.base, t.next - t.base, t.nice, t.nice, depth, t.hash3, t.hash4, false);
        t := t.(hash3 := hash3, hash4 := hash4);
      }
    }
    t := t.(next := t.next + 1);
  }

  /** A report has the match of the 3-byte bucket, and unless the search ran out of depth covers every position of the tree. */
  ghost predicate Reported(data: seq<Byte>, at: nat, ms: seq<SearchTree.Match>, nice: nat, depth: nat)
    requires at <= |data|
  {
    var t, n := TreesAt(data, at, nice, depth)[BtHeads.Filed4(data, at)], NiceAt(nice, |data| - at);
    && BtHeads.ReportsThree(data, at, ms)
    && (!SearchTree.EndingOf(data, t, at, n, depth).OutOfDepth? ==>
          forall z: nat :: z in SearchTree.Positions(t) ==> SearchTree.Covered(data, z, at, n, 3, ms))
  }

  lemma ReportIs(data: seq<Byte>, at: nat, nice: nat, depth: nat)
    requires at < |data|
    ensures BtHeads.Filed4(data, at) < TreeMemory.BUCKETS && EntriesOf([]) == []
    ensures MaxAt(|data| - at) < 5 ==> ReportAt(data, at, nice, depth) == []
    ensures var left := |data| - at;
      MaxAt(left) >= 5 ==>
        ReportAt(data, at, nice, depth) == BtHeads.ThreeByteMatch(data, at) +
          SearchTree.Found(data, TreesAt(data, at, nice, depth)[BtHeads.Filed4(data, at)], at, NiceAt(nice, left), MaxAt(left), depth, 3)
  {
    hide TreesAt;
  }

  lemma NextTrees(data: seq<Byte>, at: nat, nice: nat, depth: nat)
    requires at < |data|
    ensures BtHeads.Filed4(data, at) < TreeMemory.BUCKETS
    ensures TreesAt(data, at + 1, nice, depth) == BtForest.Advanced(data, TreesAt(data, at, nice, depth), BtHeads.Filed4(data, at), at, NiceAt(nice, |data| - at), depth)
  {
    hide BtForest.Advanced;
  }

  lemma NoneLongest()
    ensures LongestOf([]) == 0
  {
  }

  lemma BestOfNone(ms: seq<SearchTree.Match>)
    ensures ms == [] ==> Bt.BestLength(ms) == 3 && LongestOf(EntriesOf(ms)) == 0
    ensures ms != [] ==> Bt.BestLength(ms) == OptimalCache.Longest(ms)
  {
  }

  lemma InWindow(mf: Bt.BtMatchfinder, data: seq<Byte>, s: State, nice: nat, depth: nat)
    requires Follows(mf, data, s, nice, depth) && s.next + REQUIRED_NBYTES <= |data|
    ensures s.base <= s.next && mf.Valid(data, s.base, s.next, s.nice) && Bt.HashesFor(data, s.next, s.hash3, s.hash4)
    ensures mf.trees == TreesAt(data, s.next, nice, depth) && (s.hash3 == BtHeads.Filed3(data, s.next) && s.hash4 == BtHeads.Filed4(data, s.next))
  {
  }

  // ---- The cache of a block ------------------------------------------------------------------

  /** The cache holds good positions of the block from its start on; matches were looked for only below the soft limit. */
  ghost predicate Cached(ps: seq<Position>, cache: seq<Entry>, data: seq<Byte>, start: nat) {
    && cache == Flat(ps) && (forall i :: 0 <= i < |ps| ==> GoodPosition(ps[i], data, start + i))
    && forall i :: 0 <= i < |ps| && ps[i].matches != [] ==> i < SOFT_MAX_BLOCK_LENGTH
  }

  lemma NothingCached(data: seq<Byte>, start: nat)
    ensures Cached([], [], data, start)
  {
  }

  lemma CachedMore(ps: seq<Position>, cache: seq<Entry>, data: seq<Byte>, start: nat, p: Position)
    requires Cached(ps, cache, data, start) && GoodPosition(p, data, start + |ps|) && (p.matches != [] ==> |ps| < SOFT_MAX_BLOCK_LENGTH)
    ensures Cached(ps + [p], cache + p.matches + [Entry(|p.matches|, p.literal)], data, start)
  {
    hide GoodPosition;
    assert (ps + [p])[..|ps|] == ps;
  }

  lemma FewMatches(p: Position, data: seq<Byte>, at: nat)
    requires GoodPosition(p, data, at)
    ensures |p.matches| <= MAX_MATCHES_PER_POS
  {
  }

  /** The positions that a very long match covers are entered, and cached without matches. */
  method PassOver(mf: Bt.BtMatchfinder, data: seq<Byte>, ghost start: nat, s: State, depth: nat, nice: nat, count: nat, cache: seq<Entry>, ghost ps: seq<Position>)
    returns (t: State, more: seq<Entry>, ghost qs: seq<Position>)
    requires Follows(mf, data, s, nice, depth) && s.next + count <= |data| && Limited(s, |data| - s.next, nice) && nice > 3 && depth >= 1
    requires start <= s.next && |ps| == s.next - start && Cached(ps, cache, data, start)
    modifies mf, mf.mem
    ensures Follows(mf, data, t, nice, depth) && Limited(t, |data| - t.next, nice) && t.next == s.next + count
    ensures |qs| == t.next - start && Cached(qs, more, data, start) && |more| == |cache| + count && qs == ps + Skipped(data, s.next, count)
  {
    hide Bt.BtMatchfinder.Valid, Bt.HashesFor, GoodPosition, Cached, Follows, Limited, ReportAt, EntriesOf, Skipped, LongestOf;
    SkipNone(data, s.next);
    t, more, qs := s, cache, ps;
    var left: nat := count;
    while left != 0
      invariant 0 <= left <= count && Follows(mf, data, t, nice, depth) && Limited(t, |data| - t.next, nice) && t.next + left == s.next + count
      invariant |qs| == t.next - start && Cached(qs, more, data, start) && |more| + left == |cache| + count
      invariant qs == ps + Skipped(data, s.next, count - left)
      decreases left
    {
      var q, none;
      ghost var at := t.next;
      t, q, none := CachePosition(mf, data, t, depth, nice, false);
      CachedMore(qs, more, data, start, q);
      assert more + [] + [Entry(0, q.literal)] == more + [Entry(0, q.literal)];
      SkipMore(data, s.next, count - left);
      assert ps + Skipped(data, s.next, count - left) + [q] == ps + (Skipped(data, s.next, count - left) + [q]);
      more, qs := more + [Entry(0, q.literal)], qs + [q];
      left := left - 1;
    }
  }

  /** One position with its matches, and after a very long match the positions it covers, without. */
  method CacheStep(mf: Bt.BtMatchfinder, data: seq<Byte>, ghost start: nat, s: State, depth: nat, nice: nat, cache: seq<Entry>, ghost ps: seq<Position>)
    returns (t: State, more: seq<Entry>, ghost qs: seq<Position>)
    requires Follows(mf, data, s, nice, depth) && s.next < |data| && Limited(s, |data| - s.next, nice) && nice > 3 && depth >= 1
    requires start <= s.next < start + SOFT_MAX_BLOCK_LENGTH && |ps| == s.next - start && |cache| < CACHE_LENGTH && Cached(ps, cache, data, start)
    modifies mf, mf.mem
    ensures Follows(mf, data, t, nice, depth) && Limited(t, |data| - t.next, nice) && s.next < t.next <= |data| && t.next <= s.next + MAX_MATCH_LEN
    ensures |qs| == t.next - start && Cached(qs, more, data, start) && |more| <= CACHE_SIZE
    ensures qs == ps + StepPositions(data, s.next, nice, depth)
    ensures var ms := ReportAt(data, s.next, nice, depth);
      && |ps| < |qs| && qs[..|ps|] == ps && qs[|ps|] == Position(EntriesOf(ms), data[s.next])
      && |qs| - |ps| == (if ms != [] && ms[|ms| - 1].length >= NiceAt(nice, |data| - s.next) then ms[|ms| - 1].length else 1)
      && forall i :: |ps| < i < |qs| ==> qs[i].matches == []
  {
    hide Bt.BtMatchfinder.Valid, Bt.HashesFor, GoodPosition, Cached, Follows, Limited, ReportAt, EntriesOf, OptimalCache.Longest, NiceAt, MaxAt, StepPositions, Skipped, LongestOf;
    var p, bestLen;
    SkipNone(data, s.next + 1);
    t, p, bestLen := CachePosition(mf, data, s, depth, nice, true);
    FewMatches(p, data, s.next);
    CachedMore(ps, cache, data, start, p);
    more, qs := cache + p.matches + [Entry(|p.matches|, p.literal)], ps + [p];
    StepIs(data, s.next, nice, depth, p, bestLen);
    if bestLen >= MIN_MATCH_LEN && bestLen >= t.nice {
      t, more, qs := PassOver(mf, data, start, t, depth, nice, bestLen - 1, more, qs);
    }
    StepShape(data, s.next, nice, depth);
    assert ps + [p] + Skipped(data, s.next + 1, |qs| - |ps| - 1) == ps + ([p] + Skipped(data, s.next + 1, |qs| - |ps| - 1));
  }

  lemma StepShape(data: seq<Byte>, at: nat, nice: nat, depth: nat)
    requires at < |data| && GoodPosition(Position(EntriesOf(ReportAt(data, at, nice, depth)), data[at]), data, at)
    ensures var ms, step := ReportAt(data, at, nice, depth), StepPositions(data, at, nice, depth);
      && step[0] == Position(EntriesOf(ms), data[at])
      && |step| == (if ms != [] && ms[|ms| - 1].length >= NiceAt(nice, |data| - at) then ms[|ms| - 1].length else 1)
      && forall i :: 0 < i < |step| ==> step[i].matches == []
  {
    hide ReportAt;
    var ms := ReportAt(data, at, nice, depth);
    if ms != [] { assert EntriesOf(ms)[|ms| - 1].length >= 3; }
  }

  lemma SkipNone(data: seq<Byte>, at: nat)
    ensures Skipped(data, at, 0) == []
  {
  }

  lemma SkipMore(data: seq<Byte>, at: nat, n: nat)
    requires at + n < |data|
    ensures Skipped(data, at, n + 1) == Skipped(data, at, n) + [Position([], data[at + n])]
  {
  }

  /** How many positions a step takes. */
  lemma StepIs(data: seq<Byte>, at: nat, nice: nat, depth: nat, p: Position, bestLen: nat)
    requires at < |data| && nice > 3 && p == Position(EntriesOf(ReportAt(data, at, nice, depth)), data[at])
    requires bestLen == (if ReportAt(data, at, nice, depth) == [] then if MaxAt(|data| - at) < 5 then 0 else 3
                         else OptimalCache.Longest(ReportAt(data, at, nice, depth)))
    requires bestLen >= LongestOf(p.matches) && GoodPosition(p, data, at)
    ensures StepPositions(data, at, nice, depth) ==
      [p] + Skipped(data, at + 1, if bestLen >= MIN_MATCH_LEN && bestLen >= NiceAt(nice, |data| - at) then bestLen - 1 else 0)
  {
    hide ReportAt;
    var ms := ReportAt(data, at, nice, depth);
    if ms != [] {
      assert p.matches[|ms| - 1].length == OptimalCache.Longest(ms);
    }
    assert Skipped(data, at + 1, 0) == [];
  }

  /** All positions of a block. */
  method CacheBlock(mf: Bt.BtMatchfinder, data: seq<Byte>, s: State, depth: nat, nice: nat, split: (nat, nat) -> bool)
    returns (t: State, cache: seq<Entry>, ghost ps: seq<Position>)
    requires Follows(mf, data, s, nice, depth) && s.next < |data| && Limited(s, |data| - s.next, nice) && nice > 3 && depth >= 1
    modifies mf, mf.mem
    ensures Follows(mf, data, t, nice, depth) && Limited(t, |data| - t.next, nice) && s.next < t.next <= |data|
    ensures |ps| == t.next - s.next < NUM_NODES && Cached(ps, cache, data, s.next) && |cache| <= CACHE_SIZE
    ensures ps == CachedFrom(data, s.next, [], nice, depth, split)
    ensures t.next == |data| || |ps| >= 300_000 || |cache| >= 1_500_000 || (|ps| >= 10_000 && |data| - t.next >= 10_000 && split(s.next, t.next))
  {
    hide Bt.BtMatchfinder.Valid, Bt.HashesFor, GoodPosition, Cached, Follows, Limited, StepPositions, CachedFrom, CachesOn, ReportAt, EntriesOf, NiceAt, MaxAt,
      ParserChoices.EndsHere;
    var start := s.next;
    var maxBlockEnd := start + Min(|data| - start, SOFT_MAX_BLOCK_LENGTH);
    t, cache, ps := s, [], [];
    NothingCached(data, start);
    var more := true;
    ghost var all := CachedFrom(data, start, [], nice, depth, split);
    while more
      invariant more ==> start + |ps| < |data| && CachedFrom(data, start, ps, nice, depth, split) == all
      invariant !more ==> ps == all
      invariant !more ==> t.next == |data| || |ps| >= 300_000 || |cache| >= 1_500_000 || (|ps| >= 10_000 && |data| - t.next >= 10_000 && split(start, t.next))
      invariant Follows(mf, data, t, nice, depth) && Limited(t, |data| - t.next, nice) && start <= t.next <= |data|
      invariant |ps| == t.next - start && Cached(ps, cache, data, start) && |cache| <= CACHE_SIZE
      invariant (more ==> t.next < maxBlockEnd && |cache| < CACHE_LENGTH) && (!more ==> start < t.next)
      invariant t.next - start < NUM_NODES
      decreases more, |data| - t.next
    {
      NextCached(data, start, ps, nice, depth, split);
      t, cache, ps := CacheStep(mf, data, start, t, depth, nice, cache, ps);
      SameEnd(data, start, ps, split, cache, maxBlockEnd);
      more := t.next < maxBlockEnd && |cache| < CACHE_LENGTH && !ParserChoices.EndsHere(split, start, t.next, |data|);
      WhyEnded(split, start, t.next, |data|);
    }
  }

  lemma WhyEnded(split: (nat, nat) -> bool, start: nat, next: nat, end: nat)
    ensures ParserChoices.EndsHere(split, start, next, end) ==> next - start >= 10_000 && end - next >= 10_000 && split(start, next)
  {
  }

  lemma NextCached(data: seq<Byte>, start: nat, ps: seq<Position>, nice: nat, depth: nat, split: (nat, nat) -> bool)
    requires start + |ps| < |data|
    ensures var qs := ps + StepPositions(data, start + |ps|, nice, depth);
      && (CachesOn(data, start, qs, split) ==> start + |qs| < |data|)
      && CachedFrom(data, start, ps, nice, depth, split) == if CachesOn(data, start, qs, split) then CachedFrom(data, start, qs, nice, depth, split) else qs
  {
    hide StepPositions;
  }

  lemma SameEnd(data: seq<Byte>, start: nat, ps: seq<Position>, split: (nat, nat) -> bool, cache: seq<Entry>, maxBlockEnd: nat)
    requires start <= |data| && maxBlockEnd == start + Min(|data| - start, SOFT_MAX_BLOCK_LENGTH) && Cached(ps, cache, data, start)
    ensures CachesOn(data, start, ps, split) <==>
      start + |ps| < maxBlockEnd && |cache| < CACHE_LENGTH && !ParserChoices.EndsHere(split, start, start + |ps|, |data|)
  {
  }

  // ---- The choice ----------------------------------------------------------------------------

  lemma CacheIsGood(ps: seq<Position>, cache: seq<Entry>, data: seq<Byte>, start: nat)
    requires Cached(ps, cache, data, start) && 0 < |ps| < NUM_NODES
    ensures GoodBlock(ps) && CacheAt(cache, ps, |ps|, |cache|) && TruePositions(ps, data, start)
    ensures forall k :: 0 <= k < |ps| ==> k + LongestOf(ps[k].matches) < NUM_NODES
  {
    assert ps[..|ps|] == ps && cache[..|cache|] == cache;
    forall k | 0 <= k < |ps|
      ensures k + LongestOf(ps[k].matches) < NUM_NODES && MinCostPath.GoodMatches(ps[k].matches) && TruePosition(ps[k], data, start + k)
    {
      assert GoodPosition(ps[k], data, start + k);
      if ps[k].matches != [] { assert k < SOFT_MAX_BLOCK_LENGTH; }
    }
  }

  /** deflate_optimize_block: in each pass the cheapest path under the costs of that pass is found and tallied. What the
      costs are is a heuristic; whatever they are, the items that are chosen expand to the block. */
  method OptimizeBlock(cost: array<nat>, item: array<nat>, litlen: array<nat>, offset: array<nat>, cache: seq<Entry>, passes: nat, model: nat -> Costs,
                       data: seq<Byte>, start: nat, blockLength: nat, ghost ps: seq<Position>)
    returns (ghost settled: seq<nat>)
    requires cost.Length == item.Length == NUM_NODES && cost != item && litlen.Length == NUM_LITLEN_SYMS && offset.Length == NUM_OFFSET_SYMS && litlen != offset
    requires cost != litlen && cost != offset && item != litlen && item != offset
    requires 0 < |ps| == blockLength < NUM_NODES && Cached(ps, cache, data, start) && start + blockLength <= |data|
    requires passes >= 1 && forall i :: GoodCosts(model(i))
    modifies cost, item, litlen, offset
    ensures GoodList(item[..], 0, blockLength) && Counts(ListItems(item[..], 0, blockLength), litlen[..], offset[..])
    ensures ValidItems(ListItems(item[..], 0, blockLength), start) && Expand(data[..start], ListItems(item[..], 0, blockLength)) == data[..start + blockLength]
    ensures AllSettled(model(passes - 1), ps, settled, item[..])
  {
    hide GoodCosts, GoodBlock, CacheAt, TruePositions, AllSettled, GoodList, ListItems, Counts, ValidItems, Expand, Cached;
    CacheIsGood(ps, cache, data, start);
    SetAside(cost, blockLength);
    var pass := 0;
    while true
      invariant pass < passes
      invariant forall k :: blockLength < k < cost.Length && k < blockLength + MAX_MATCH_LEN ==> cost[k] == BEYOND
      decreases passes - pass
    {
      FindMinCostPath(model(pass), cost, item, cache, blockLength, ps);
      PathExpands(model(pass), ps, cost[..], item[..], 0, data, start);
      settled := cost[..];
      ResetFrequencies(litlen, offset);
      TallyItemList(item[..], blockLength, litlen, offset);
      pass := pass + 1;
      if pass == passes { return; }
    }
  }
}
