/** The greedy and the lazy parser: from the input to blocks of literals and matches that expand to it. */
module Parsers {
  import opened BitFields
  import opened DeflateSymbols
  import opened BlockWriter
  import opened BlockChoices
  import opened BlockItems
  import opened HashChains
  import opened ParserChoices
  import LexOrder
  import Finder = HcMatchfinder

  function Min(a: int, b: int): int { if a < b then a else b }

  /** The parser's variables: matchfinder cursor, length limits, literal run, number of sequences, position. */
  datatype State = State(c: Cursor, k: Limits, run: nat, count: nat, next: nat)

  /** The limits are never below what the rest of the input allows; the nice length is the level's unless cut off. */
  predicate Limited(k: Limits, left: int, nice: nat) { Min(MAX_MATCH_LEN, left) <= k.max <= MAX_MATCH_LEN && k.nice == Min(nice, k.max) }

  /** The matchfinder's and the compressor's arrays are different ones. */
  predicate Apart(mf: Finder.HcMatchfinder, z: Compressor) {
    && z.Sized() && mf.mem as object != z.litlenFreqs && mf.mem as object != z.offsetFreqs && mf.mem as object != z.sequences
    && z.sequences as object != z.litlenFreqs && z.sequences as object != z.offsetFreqs
  }

  /** The block from start on is chosen up to the current position, and the matchfinder follows. */
  ghost predicate Going(mf: Finder.HcMatchfinder, z: Compressor, data: seq<Byte>, start: nat, s: State, nice: nat)
    reads mf.mem, z.litlenFreqs, z.offsetFreqs, z.sequences
  {
    && Apart(mf, z) && s.count < z.sequences.Length && start <= s.next <= |data|
    && mf.Valid(data, s.c, s.next) && Limited(s.k, |data| - s.next, nice) && Covers(z.Choices(s.count, s.run), data, start, s.next)
  }

  /** The items chosen so far. */
  ghost function ItemsNow(z: Compressor, data: seq<Byte>, start: nat, s: State): seq<Item>
    requires z.Sized() && s.count <= z.sequences.Length
    reads z.litlenFreqs, z.offsetFreqs, z.sequences
  {
    ItemsOf(z.Choices(s.count, s.run), data, start)
  }

  /** A match for the string at m. */
  predicate Usable(data: seq<Byte>, m: nat, len: nat, offset: nat) {
    MIN_MATCH_LEN <= len <= MAX_MATCH_LEN && 1 <= offset <= MAX_MATCH_OFFSET && offset <= m && m + len <= |data|
    && LexOrder.Agree(data, m - offset, m, len)
  }

  /** What a search reports is usable, if it is longer than asked and not shorter than the format's least length. */
  lemma FoundIsUsable(data: seq<Byte>, cur: nat, best: nat, k: Limits, depth: nat)
    requires cur + k.max <= |data| && k.max <= MAX_MATCH_LEN
    ensures var h := Search(data, cur, best, k, depth);
            h.pos <= cur && (h.len > best ==> Usable(data, cur, h.len, cur - h.pos)) && h.len >= best
  {
    hide Search, LexOrder.Agree;
    SearchIsTrue(data, cur, best, k, depth);
  }

  /** Searches at a position; reports only what is longer than best. */
  method Find(mf: Finder.HcMatchfinder, data: seq<Byte>, c: Cursor, cur: nat, best: nat, k: Limits, depth: nat) returns (d: Cursor, len: nat, offset: nat)
    requires mf.Valid(data, c, cur) && cur <= |data| && k.max == Min(MAX_MATCH_LEN, |data| - cur) && k.nice <= k.max
    modifies mf.mem
    ensures mf.Valid(data, d, cur + 1)
    ensures len >= best && (len > best ==> Usable(data, cur, len, offset) && len <= k.max)
    ensures Search(data, cur, best, k, depth).pos <= cur
    ensures len == Search(data, cur, best, k, depth).len && offset == cur - Search(data, cur, best, k, depth).pos
  {
    hide Finder.HcMatchfinder.Valid, Search, Usable;
    FoundIsUsable(data, cur, best, k, depth);
    FoundFits(data, cur, best, k, depth);
    d, len, offset := mf.LongestMatch(data, c, cur, best, k, depth);
  }

  lemma FoundFits(data: seq<Byte>, cur: nat, best: nat, k: Limits, depth: nat)
    ensures var h := Search(data, cur, best, k, depth); h.len > best ==> h.len <= k.max
  {
    hide Search;
    SearchIsTrue(data, cur, best, k, depth);
  }

  // ---- Steps ---------------------------------------------------------------------------------

  method TakeLiteral(mf: Finder.HcMatchfinder, z: Compressor, data: seq<Byte>, ghost start: nat, s: State, c: Cursor, ghost nice: nat) returns (t: State)
    requires Apart(mf, z) && s.count < z.sequences.Length && start <= s.next < |data|
    requires Limited(s.k, |data| - s.next, nice) && Covers(z.Choices(s.count, s.run), data, start, s.next) && mf.Valid(data, c, s.next + 1)
    modifies z.litlenFreqs
    ensures Going(mf, z, data, start, t, nice) && t == State(c, s.k, t.run, s.count, s.next + 1)
    ensures ItemsNow(z, data, start, t) == old(ItemsNow(z, data, start, s)) + [Literal(data[s.next])]
  {
    hide Covers, ItemsOf, Finder.HcMatchfinder.Valid;
    var run := z.ChooseLiteral(data[s.next], s.run, s.count, data, start, s.next);
    t := State(c, s.k, run, s.count, s.next + 1);
  }

  /** Chooses the match at m and enters its positions from `entered` on. */
  method TakeMatch(mf: Finder.HcMatchfinder, z: Compressor, data: seq<Byte>, ghost start: nat, s: State, c: Cursor, m: nat, entered: nat,
                   len: nat, offset: nat, ghost nice: nat) returns (t: State)
    requires Apart(mf, z) && s.count + 1 < z.sequences.Length && start <= m && m < entered < m + len
    requires Limited(s.k, |data| - entered, nice) && Covers(z.Choices(s.count, s.run), data, start, m) && mf.Valid(data, c, entered)
    requires Usable(data, m, len, offset)
    modifies mf.mem, z.litlenFreqs, z.offsetFreqs, z.sequences
    ensures Going(mf, z, data, start, t, nice) && t.k == s.k && t.count == s.count + 1 && t.next == m + len
    ensures ItemsNow(z, data, start, t) == old(ItemsNow(z, data, start, s)) + [Match(len, offset)]
  {
    hide Covers, ItemsOf, Finder.HcMatchfinder.Valid, LexOrder.Agree;
    var run, count := z.ChooseMatch(len, offset, s.run, s.count, data, start, m);
    var d := mf.SkipPositions(data, c, entered, m + len - entered);
    t := State(d, s.k, run, count, m + len);
  }

  /** The limits near the end of the input. */
  function GreedyLimits(k: Limits, left: nat): Limits { if k.max > left then Limits(left, Least(k.nice, left)) else k }

  function LazyLimits(k: Limits, left: nat): Limits { if left < MAX_MATCH_LEN then Limits(left, Least(k.nice, left)) else k }

  lemma LimitsAre(k: Limits, left: nat, nice: nat)
    requires Limited(k, left, nice)
    ensures GreedyLimits(k, left) == LazyLimits(k, left) == LimitsAt(nice, left) && Limited(LimitsAt(nice, left), left, nice)
    ensures LimitsAt(nice, left).max == Min(MAX_MATCH_LEN, left) && LimitsAt(nice, left).nice <= LimitsAt(nice, left).max
    ensures left > 0 ==> Limited(LimitsAt(nice, left), left - 1, nice)
    ensures left > 1 ==> Limited(LimitsAt(nice, left), left - 2, nice)
  {
  }

  /** One step of the greedy parser: the longest match if there is one, else a literal. */
  method GreedyStep(mf: Finder.HcMatchfinder, z: Compressor, data: seq<Byte>, ghost start: nat, s: State, depth: nat, ghost nice: nat) returns (t: State)
    requires Going(mf, z, data, start, s, nice) && s.next < |data| && s.count + 1 < z.sequences.Length
    modifies mf.mem, z.litlenFreqs, z.offsetFreqs, z.sequences
    ensures Going(mf, z, data, start, t, nice) && s.next < t.next <= s.next + MAX_MATCH_LEN
    ensures ItemsNow(z, data, start, t) == old(ItemsNow(z, data, start, s)) + GreedyItems(data, s.next, nice, depth)
    ensures t.next == s.next + TotalSize(GreedyItems(data, s.next, nice, depth))
    ensures var longest := Least(258, |data| - s.next);
      var h := Search(data, s.next, 2, Limits(longest, Least(nice, longest)), depth);
      if h.len >= 3 then
        && h.pos < s.next && t.next == s.next + h.len
        && ItemsNow(z, data, start, t) == old(ItemsNow(z, data, start, s)) + [Match(h.len, s.next - h.pos)]
      else t.next == s.next + 1 && ItemsNow(z, data, start, t) == old(ItemsNow(z, data, start, s)) + [Literal(data[s.next])]
  {
    hide Covers, Finder.HcMatchfinder.Valid, LexOrder.Agree, Search, ItemsOf;
    var k := GreedyLimits(s.k, |data| - s.next);
    LimitsAre(s.k, |data| - s.next, nice);
    var c, length, offset := Find(mf, data, s.c, s.next, MIN_MATCH_LEN - 1, k, depth);
    if length >= MIN_MATCH_LEN {
      t := TakeMatch(mf, z, data, start, s.(k := k), c, s.next, s.next + 1, length, offset, nice);
    } else {
      t := TakeLiteral(mf, z, data, start, s.(k := k), c, nice);
    }
    OneItem(data, s.next, nice, depth);
  }

  lemma OneItem(data: seq<Byte>, pos: nat, nice: nat, depth: nat)
    requires pos < |data|
    ensures TotalSize(GreedyItems(data, pos, nice, depth)) == Size(GreedyItems(data, pos, nice, depth)[0])
  {
    hide Search;
    var items := GreedyItems(data, pos, nice, depth);
    assert items[1..] == [];
  }

  /** One step of the lazy parser: literals while the next position has a longer match, then the match. */
  method LazyStep(mf: Finder.HcMatchfinder, z: Compressor, data: seq<Byte>, ghost start: nat, s: State, depth: nat, ghost nice: nat) returns (t: State)
    requires Going(mf, z, data, start, s, nice) && s.next < |data| && s.count + 1 < z.sequences.Length
    modifies mf.mem, z.litlenFreqs, z.offsetFreqs, z.sequences
    ensures Going(mf, z, data, start, t, nice) && s.next < t.next <= s.next + 2 * MAX_MATCH_LEN
    ensures ItemsNow(z, data, start, t) == old(ItemsNow(z, data, start, s)) + LazyItems(data, s.next, nice, depth)
    ensures t.next == s.next + TotalSize(LazyItems(data, s.next, nice, depth))
  {
    hide Covers, Finder.HcMatchfinder.Valid, LexOrder.Agree, Search, ItemsOf, Usable, TotalSize, LazyFrom, Limited, LimitsAt, LazyLimits;
    ghost var all := LazyItems(data, s.next, nice, depth);
    ghost var before := ItemsNow(z, data, start, s);
    LimitsAre(s.k, |data| - s.next, nice);
    t := s.(k := LazyLimits(s.k, |data| - s.next));
    var c, curLen, curOffset := Find(mf, data, s.c, s.next, MIN_MATCH_LEN - 1, t.k, depth);
    if curLen < MIN_MATCH_LEN {
      t := TakeLiteral(mf, z, data, start, t, c, nice);
      NothingYet();
      OneMore([], Literal(data[s.next]));
      return;
    }
    ghost var done: seq<Item>, h := [], Search(data, s.next, MIN_MATCH_LEN - 1, t.k, depth);
    NothingYet();
    while true
      invariant s.next <= t.next < |data| && s.next + curLen >= t.next + MIN_MATCH_LEN && t.count == s.count
      invariant curLen >= MIN_MATCH_LEN && Usable(data, t.next, curLen, curOffset) && mf.Valid(data, c, t.next + 1)
      invariant Limited(t.k, |data| - t.next, nice) && t.k == LimitsAt(nice, |data| - t.next) && Covers(z.Choices(t.count, t.run), data, start, t.next)
      invariant MatchAt(t.next, h) == Match(curLen, curOffset) && h.len == curLen
      invariant ItemsNow(z, data, start, t) == before + done && all == done + LazyFrom(data, t.next, h, nice, depth)
      invariant s.next + TotalSize(done) == t.next
      decreases |data| - t.next
    {
      UsableEnds(data, t.next, curLen, curOffset);
      LimitsAre(t.k, |data| - t.next, nice);
      LimitsAre(t.k, |data| - t.next - 1, nice);
      if curLen >= t.k.nice {
        t := TakeMatch(mf, z, data, start, t, c, t.next, t.next + 1, curLen, curOffset, nice);
        MatchTaken(data, t.next - curLen, h, nice, depth, before, done);
        return;
      }
      t := t.(k := LazyLimits(t.k, |data| - t.next - 1));
      var d, nextLen, nextOffset := Find(mf, data, c, t.next + 1, curLen, t.k, depth / 2);
      if nextLen > curLen {
        c := d;
        ghost var item, g := Literal(data[t.next]), Search(data, t.next + 1, curLen, t.k, depth / 2);
        LiteralInstead(data, t.next, h, g, nice, depth, before, done);
        t := TakeLiteralBehind(mf, z, data, start, t, c);
        curLen, curOffset, h, done := nextLen, nextOffset, g, done + [item];
      } else {
        t := TakeMatch(mf, z, data, start, t, d, t.next, t.next + 2, curLen, curOffset, nice);
        MatchTaken(data, t.next - curLen, h, nice, depth, before, done);
        return;
      }
    }
  }

  /** A longer match at the next position: a literal, and on from there. */
  lemma LiteralInstead(data: seq<Byte>, pos: nat, h: Hit, g: Hit, nice: nat, depth: nat, before: seq<Item>, done: seq<Item>)
    requires pos + 1 < |data| && h.len < LimitsAt(nice, |data| - pos).nice
    requires g == Search(data, pos + 1, h.len, LimitsAt(nice, |data| - pos - 1), depth / 2) && g.len > h.len
    ensures done + LazyFrom(data, pos, h, nice, depth) == done + [Literal(data[pos])] + LazyFrom(data, pos + 1, g, nice, depth)
    ensures before + done + [Literal(data[pos])] == before + (done + [Literal(data[pos])])
    ensures TotalSize(done + [Literal(data[pos])]) == TotalSize(done) + 1
  {
    hide Search;
    OneMore(done, Literal(data[pos]));
  }

  /** The match at hand is long enough, or not bettered. */
  lemma MatchTaken(data: seq<Byte>, pos: nat, h: Hit, nice: nat, depth: nat, before: seq<Item>, done: seq<Item>)
    requires pos + 1 < |data|
    requires h.len >= LimitsAt(nice, |data| - pos).nice || Search(data, pos + 1, h.len, LimitsAt(nice, |data| - pos - 1), depth / 2).len <= h.len
    ensures LazyFrom(data, pos, h, nice, depth) == [MatchAt(pos, h)]
    ensures before + done + [MatchAt(pos, h)] == before + (done + [MatchAt(pos, h)])
    ensures TotalSize(done + [MatchAt(pos, h)]) == TotalSize(done) + h.len
  {
    hide Search;
    OneMore(done, MatchAt(pos, h));
  }

  lemma NothingYet()
    ensures TotalSize([]) == 0
  {
  }

  lemma {:induction false} OneMore(items: seq<Item>, item: Item)
    ensures TotalSize(items + [item]) == TotalSize(items) + Size(item)
    ensures [] + [item] == [item]
  {
    if items == [] {
      assert [] + [item] == [item] && [item][1..] == [];
    } else {
      OneMore(items[1..], item);
      assert (items + [item])[1..] == items[1..] + [item];
    }
  }

  lemma UsableEnds(data: seq<Byte>, m: nat, len: nat, offset: nat)
    requires Usable(data, m, len, offset)
    ensures MIN_MATCH_LEN <= len <= MAX_MATCH_LEN && m + len <= |data|
  {
  }

  /** A literal chosen when the matchfinder is already one position further. */
  method TakeLiteralBehind(mf: Finder.HcMatchfinder, z: Compressor, data: seq<Byte>, ghost start: nat, s: State, ghost c: Cursor) returns (t: State)
    requires Apart(mf, z) && s.count < z.sequences.Length && start <= s.next < |data| && mf.Valid(data, c, s.next + 2)
    requires Covers(z.Choices(s.count, s.run), data, start, s.next)
    modifies z.litlenFreqs
    ensures t == State(s.c, s.k, t.run, s.count, s.next + 1)
    ensures Covers(z.Choices(t.count, t.run), data, start, t.next) && mf.Valid(data, c, t.next + 1)
    ensures ItemsNow(z, data, start, t) == old(ItemsNow(z, data, start, s)) + [Literal(data[s.next])]
  {
    hide Covers, ItemsOf, Finder.HcMatchfinder.Valid;
    var run := z.ChooseLiteral(data[s.next], s.run, s.count, data, start, s.next);
    t := State(s.c, s.k, run, s.count, s.next + 1);
  }

  // ---- Blocks --------------------------------------------------------------------------------

  /** A block as it is handed over to be written. */
  datatype Block = Block(start: nat, length: nat, seqs: seq<Sequence>, litlen: seq<nat>, offset: seq<nat>, last: bool)

  /** The longest a block can get: one step may run over the soft limit. */
  const MAX_BLOCK_LENGTH: nat := SOFT_MAX_BLOCK_LENGTH - 1 + 2 * MAX_MATCH_LEN

  ghost predicate GoodBlock(b: Block, data: seq<Byte>) {
    && Finished(b.seqs, b.litlen, b.offset, data, b.start, b.start + b.length)
    && 0 < b.length <= MAX_BLOCK_LENGTH && (b.last <==> b.start + b.length == |data|) && (!b.last ==> b.length >= MIN_BLOCK_LENGTH)
  }

  /** There is room for one more match as long as the block is below its soft limit. */
  lemma RoomForMatch(c: Chosen, data: seq<Byte>, start: nat, next: nat)
    requires Covers(c, data, start, next) && next < start + SOFT_MAX_BLOCK_LENGTH
    ensures |c.seqs| + 1 < NUM_SEQUENCES
  {
    EnoughRoom(c.seqs, data, start);
  }

  lemma OneStep(data: seq<Byte>, start: nat, pos: nat, nice: nat, depth: nat, lazy: bool, split: (nat, nat) -> bool, before: seq<Item>)
    requires start <= pos < |data|
    ensures var step := StepItems(data, pos, nice, depth, lazy);
      var next := pos + TotalSize(step);
      before + ParsedFrom(data, start, pos, nice, depth, lazy, split) ==
        if pos < next && GoesOn(data, start, next, split) then before + step + ParsedFrom(data, start, next, nice, depth, lazy, split) else before + step
  {
    hide StepItems, GoesOn;
  }

  lemma WhyEnded(split: (nat, nat) -> bool, start: nat, next: nat, end: nat)
    ensures EndsHere(split, start, next, end) ==> next - start >= 10_000 && end - next >= 10_000 && split(start, next)
  {
  }

  lemma ItemsThen(z: Compressor, data: seq<Byte>, start: nat, s: State)
    requires z.Sized() && s.count <= z.sequences.Length
    ensures ItemsNow(z, data, start, s) == ItemsOf(z.Choices(s.count, s.run), data, start)
  {
  }

  lemma EndOfBlock(data: seq<Byte>, start: nat, next: nat, split: (nat, nat) -> bool)
    requires start <= |data|
    ensures GoesOn(data, start, next, split) <==>
      next < start + Min(|data| - start, SOFT_MAX_BLOCK_LENGTH) && !EndsHere(split, start, next, |data|)
  {
  }

  lemma FinishedSequences(seqs: seq<Sequence>, litlen: seq<nat>, offset: seq<nat>, data: seq<Byte>, start: nat, next: nat)
    requires Finished(seqs, litlen, offset, data, start, next)
    ensures GoodSequences(seqs, data, start)
  {
  }

  /** A greedy or a lazy step. */
  method ParseStep(mf: Finder.HcMatchfinder, z: Compressor, data: seq<Byte>, ghost start: nat, s: State, depth: nat, lazy: bool, ghost nice: nat) returns (t: State)
    requires Going(mf, z, data, start, s, nice) && s.next < |data| && s.count + 1 < z.sequences.Length
    modifies mf.mem, z.litlenFreqs, z.offsetFreqs, z.sequences
    ensures Going(mf, z, data, start, t, nice) && s.next < t.next <= s.next + 2 * MAX_MATCH_LEN
    ensures ItemsNow(z, data, start, t) == old(ItemsNow(z, data, start, s)) + StepItems(data, s.next, nice, depth, lazy)
    ensures t.next == s.next + TotalSize(StepItems(data, s.next, nice, depth, lazy))
  {
    hide Covers, Finder.HcMatchfinder.Valid, ItemsOf, GreedyItems, LazyItems, Search, TotalSize, Limited;
    if lazy {
      t := LazyStep(mf, z, data, start, s, depth, nice);
    } else {
      t := GreedyStep(mf, z, data, start, s, depth, nice);
    }
  }

  /** One block, by greedy or lazy steps. */
  method ParseBlock(mf: Finder.HcMatchfinder, z: Compressor, data: seq<Byte>, s: State, depth: nat, lazy: bool, split: (nat, nat) -> bool, ghost nice: nat)
    returns (t: State, b: Block)
    requires Apart(mf, z) && s.next < |data| && mf.Valid(data, s.c, s.next) && Limited(s.k, |data| - s.next, nice)
    modifies mf.mem, z.litlenFreqs, z.offsetFreqs, z.sequences
    ensures mf.Valid(data, t.c, t.next) && Limited(t.k, |data| - t.next, nice) && t.next <= |data|
    ensures b.start == s.next && b.start + b.length == t.next && GoodBlock(b, data)
    ensures 0 < b.length <= 300_515 && (b.last || b.length >= 10_000)
    ensures b.litlen == z.litlenFreqs[..] && b.offset == z.offsetFreqs[..]
    ensures GoodSequences(b.seqs, data, b.start) && SequenceItems(b.seqs, data, b.start) == ParsedFrom(data, s.next, s.next, nice, depth, lazy, split)
    ensures (if lazy then LazyItems(data, s.next, nice, depth) else GreedyItems(data, s.next, nice, depth)) <= SequenceItems(b.seqs, data, b.start)
    ensures b.last || b.length >= 300_000 || (|data| - t.next >= 10_000 && split(b.start, t.next))
  {
    hide Covers, Finder.HcMatchfinder.Valid, ItemsOf, StepItems, ParsedFrom, Search, FinishedItems, GoodSequences, SequenceItems, TotalSize, GoesOn, Limited,
      Finished, LazyItems, GreedyItems, EndsHere, ItemsNow;
    var start := s.next;
    var maxBlockEnd := start + Min(|data| - start, SOFT_MAX_BLOCK_LENGTH);
    z.Reset(data, start);
    t := s.(run := 0, count := 0);
    var more := true;
    ghost var all := ParsedFrom(data, start, start, nice, depth, lazy, split);
    ItemsThen(z, data, start, t);
    while more
      invariant Going(mf, z, data, start, t, nice) && (more ==> t.next < maxBlockEnd) && t.next <= start + MAX_BLOCK_LENGTH
      invariant more ==> ItemsNow(z, data, start, t) + ParsedFrom(data, start, t.next, nice, depth, lazy, split) == all
      invariant !more ==> ItemsNow(z, data, start, t) == all
      invariant !more ==> start < t.next && (t.next == |data| || t.next - start >= MIN_BLOCK_LENGTH)
      invariant !more ==> t.next == |data| || t.next - start >= 300_000 || (|data| - t.next >= 10_000 && split(start, t.next))
      decreases more, |data| - t.next
    {
      RoomForMatch(z.Choices(t.count, t.run), data, start, t.next);
      ghost var at, step := t.next, StepItems(data, t.next, nice, depth, lazy);
      ghost var before := ItemsNow(z, data, start, t);
      t := ParseStep(mf, z, data, start, t, depth, lazy, nice);
      OneStep(data, start, at, nice, depth, lazy, split, before);
      EndOfBlock(data, start, t.next, split);
      more := t.next < maxBlockEnd && !EndsHere(split, start, t.next, |data|);
      WhyEnded(split, start, t.next, |data|);
    }
    BeginsWithStep(data, start, nice, depth, lazy, split);
    ItemsThen(z, data, start, t);
    z.Finish(t.run, t.count, data, start, t.next);
    FinishedSequences(z.sequences[..t.count + 1], z.litlenFreqs[..], z.offsetFreqs[..], data, start, t.next);
    b := Block(start, t.next - start, z.sequences[..t.count + 1], z.litlenFreqs[..], z.offsetFreqs[..], t.next == |data|);
  }
}
