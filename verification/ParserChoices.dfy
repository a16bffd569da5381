/** What the greedy and the lazy parser choose: the items of a block as a function of the buffer, the level and where blocks
    are split. */
module ParserChoices {
  import opened BitFields
  import opened DeflateSymbols
  import opened BlockItems
  import opened HashChains
  import BlockChoices

  const MIN_BLOCK_LENGTH: nat := 10000


  function Least(a: nat, b: nat): nat { if a < b then a else b }

  /** The limits of a search with so many bytes left: matches end with the input, and none is longer than the format's longest. */
  function LimitsAt(nice: nat, left: nat): Limits { Limits(Least(MAX_MATCH_LEN, left), Least(nice, Least(MAX_MATCH_LEN, left))) }

  /** The match found for the string at pos. */
  function MatchAt(pos: nat, h: Hit): Item { Match(h.len, if h.pos <= pos then pos - h.pos else 0) }

  /** The longest match found, if any, else a literal. */
  function GreedyItems(data: seq<Byte>, pos: nat, nice: nat, depth: nat): seq<Item>
    requires pos < |data|
  {
    var h := Search(data, pos, MIN_MATCH_LEN - 1, LimitsAt(nice, |data| - pos), depth);
    if h.len >= MIN_MATCH_LEN then [MatchAt(pos, h)] else [Literal(data[pos])]
  }

  /** A literal if nothing is found; otherwise a match, perhaps after some literals. */
  function LazyItems(data: seq<Byte>, pos: nat, nice: nat, depth: nat): seq<Item>
    requires pos < |data|
  {
    var h := Search(data, pos, MIN_MATCH_LEN - 1, LimitsAt(nice, |data| - pos), depth);
    if h.len >= MIN_MATCH_LEN then LazyFrom(data, pos, h, nice, depth) else [Literal(data[pos])]
  }

  /** With a match at hand: a literal instead, as long as the next position has a longer one at half the depth and the match
      is shorter than the nice length. */
  function LazyFrom(data: seq<Byte>, pos: nat, h: Hit, nice: nat, depth: nat): seq<Item>
    requires pos < |data|
    decreases |data| - pos
  {
    if h.len >= LimitsAt(nice, |data| - pos).nice || pos + 1 == |data| then [MatchAt(pos, h)]
    else
      var g := Search(data, pos + 1, h.len, LimitsAt(nice, |data| - pos - 1), depth / 2);
      if g.len > h.len then [Literal(data[pos])] + LazyFrom(data, pos + 1, g, nice, depth) else [MatchAt(pos, h)]
  }

  function StepItems(data: seq<Byte>, pos: nat, nice: nat, depth: nat, lazy: bool): seq<Item>
    requires pos < |data|
  {
    if lazy then LazyItems(data, pos, nice, depth) else GreedyItems(data, pos, nice, depth)
  }

  /** should_end_block; its statistics are a parameter: any answer for any block and position. */
  function EndsHere(split: (nat, nat) -> bool, start: nat, next: nat, end: nat): bool {
    next - start >= MIN_BLOCK_LENGTH && end - next >= MIN_BLOCK_LENGTH && split(start, next)
  }

  /** Whether the block from start on goes on after a step. */
  predicate GoesOn(data: seq<Byte>, start: nat, next: nat, split: (nat, nat) -> bool) {
    next < start + BlockChoices.SOFT_MAX_BLOCK_LENGTH && next < |data| && !EndsHere(split, start, next, |data|)
  }

  /** The items of the block from start on, from position pos on. */
  function ParsedFrom(data: seq<Byte>, start: nat, pos: nat, nice: nat, depth: nat, lazy: bool, split: (nat, nat) -> bool): seq<Item>
    requires pos < |data|
    decreases |data| - pos
  {
    var step := StepItems(data, pos, nice, depth, lazy);
    var next := pos + TotalSize(step);
    if pos < next && GoesOn(data, start, next, split) then step + ParsedFrom(data, start, next, nice, depth, lazy, split) else step
  }

  /** Found at m when a match longer than before was asked for, at half the depth; what had been found one position before was
      short of the nice length there. */
  predicate Betters(data: seq<Byte>, m: nat, before: nat, h: Hit, nice: nat, depth: nat)
    requires 0 < m <= |data|
  {
    MIN_MATCH_LEN <= before < h.len && before < LimitsAt(nice, |data| - m + 1).nice && h == Search(data, m, before, LimitsAt(nice, |data| - m), depth / 2)
  }

  /** The match of a lazy step, with literals from pos up to it. */
  ghost predicate TakenLazily(data: seq<Byte>, pos: nat, m: nat, h: Hit, nice: nat, depth: nat) {
    && pos <= m < |data|
    // It was found at once, or was longer than what was found one position before.
    && (m == pos ==> h == Search(data, pos, MIN_MATCH_LEN - 1, LimitsAt(nice, |data| - pos), depth) && h.len >= MIN_MATCH_LEN)
    && (m > pos ==> exists before: nat :: Betters(data, m, before, h, nice, depth))
    // It is long enough, or the next position has none longer.
    && (h.len >= LimitsAt(nice, |data| - m).nice || m + 1 == |data|
        || Search(data, m + 1, h.len, LimitsAt(nice, |data| - m - 1), depth / 2).len <= h.len)
  }

  lemma {:induction false} LazyTakesLast(data: seq<Byte>, start: nat, pos: nat, h: Hit, nice: nat, depth: nat) returns (m: nat, g: Hit)
    requires start <= pos < |data| && h.len >= MIN_MATCH_LEN
    requires pos == start ==> h == Search(data, pos, MIN_MATCH_LEN - 1, LimitsAt(nice, |data| - pos), depth)
    requires pos > start ==> exists before: nat :: Betters(data, pos, before, h, nice, depth)
    ensures TakenLazily(data, start, m, g, nice, depth) && pos <= m
    ensures LazyFrom(data, pos, h, nice, depth) == LiteralsOf(data, pos, m) + [MatchAt(m, g)]
    decreases |data| - pos
  {
    hide Search;
    m, g := pos, h;
    if h.len < LimitsAt(nice, |data| - pos).nice && pos + 1 < |data| {
      var f := Search(data, pos + 1, h.len, LimitsAt(nice, |data| - pos - 1), depth / 2);
      if f.len > h.len {
        assert Betters(data, pos + 1, h.len, f, nice, depth);
        m, g := LazyTakesLast(data, start, pos + 1, f, nice, depth);
      }
    }
  }

  function LiteralsOf(data: seq<Byte>, pos: nat, m: nat): seq<Item>
    requires m <= |data|
    decreases m - pos
  {
    if pos >= m then [] else [Literal(data[pos])] + LiteralsOf(data, pos + 1, m)
  }

  /** A lazy step is a literal where nothing is found; otherwise it is a match, after literals up to where it is found, that
      is longer than any found on the way there and that the next position does not better. */
  lemma LazyStepIs(data: seq<Byte>, pos: nat, nice: nat, depth: nat)
    requires pos < |data|
    ensures var h := Search(data, pos, MIN_MATCH_LEN - 1, LimitsAt(nice, |data| - pos), depth);
      if h.len < MIN_MATCH_LEN then LazyItems(data, pos, nice, depth) == [Literal(data[pos])]
      else exists m: nat, g: Hit :: TakenLazily(data, pos, m, g, nice, depth) && LazyItems(data, pos, nice, depth) == LiteralsOf(data, pos, m) + [MatchAt(m, g)]
  {
    hide Search;
    var h := Search(data, pos, MIN_MATCH_LEN - 1, LimitsAt(nice, |data| - pos), depth);
    if h.len >= MIN_MATCH_LEN {
      var m, g := LazyTakesLast(data, pos, pos, h, nice, depth);
    }
  }

  // ---- Where a block ends --------------------------------------------------------------------

  /** Some number of steps leads from one position to the other. */
  predicate Reaches(data: seq<Byte>, pos: nat, n: nat, nice: nat, depth: nat, lazy: bool)
    decreases n - pos
  {
    pos == n ||
    (pos < n && pos < |data| && TotalSize(StepItems(data, pos, nice, depth, lazy)) > 0
      && Reaches(data, pos + TotalSize(StepItems(data, pos, nice, depth, lazy)), n, nice, depth, lazy))
  }

  lemma StepAdvances(data: seq<Byte>, pos: nat, nice: nat, depth: nat, lazy: bool)
    requires pos < |data|
    ensures TotalSize(StepItems(data, pos, nice, depth, lazy)) > 0
  {
    hide Search;
  }

  lemma {:induction false} SizeAppend(a: seq<Item>, b: seq<Item>)
    ensures TotalSize(a + b) == TotalSize(a) + TotalSize(b)
  {
    if a == [] {
      assert a + b == b;
    } else {
      SizeAppend(a[1..], b);
      assert (a + b)[1..] == a[1..] + b;
    }
  }

  /** A block ends where a step ends: at the end of the input, from 300000 bytes on, or where its statistics say so and both it
      and the rest of the input have 10000 bytes. */
  lemma {:induction false} EndsForAReason(data: seq<Byte>, start: nat, pos: nat, nice: nat, depth: nat, lazy: bool, split: (nat, nat) -> bool)
    requires start <= pos < |data|
    ensures var end := pos + TotalSize(ParsedFrom(data, start, pos, nice, depth, lazy, split));
      && Reaches(data, pos, end, nice, depth, lazy)
      && (end >= |data| || end >= start + 300_000 || (end - start >= 10_000 && |data| - end >= 10_000 && split(start, end)))
    decreases |data| - pos
  {
    hide StepItems, TotalSize;
    StepAdvances(data, pos, nice, depth, lazy);
    var step := StepItems(data, pos, nice, depth, lazy);
    var next := pos + TotalSize(step);
    if GoesOn(data, start, next, split) {
      EndsForAReason(data, start, next, nice, depth, lazy, split);
      SizeAppend(step, ParsedFrom(data, start, next, nice, depth, lazy, split));
    }
  }

  /** It does not go on past a step after which any of these is so. */
  lemma {:induction false} NoEarlierEnd(data: seq<Byte>, start: nat, pos: nat, nice: nat, depth: nat, lazy: bool, split: (nat, nat) -> bool, n: nat)
    requires start <= pos < |data| && pos < n < pos + TotalSize(ParsedFrom(data, start, pos, nice, depth, lazy, split)) && Reaches(data, pos, n, nice, depth, lazy)
    ensures n < |data| && n < start + 300_000 && !(n - start >= 10_000 && |data| - n >= 10_000 && split(start, n))
    decreases |data| - pos
  {
    hide StepItems, TotalSize;
    var step := StepItems(data, pos, nice, depth, lazy);
    var next := pos + TotalSize(step);
    if GoesOn(data, start, next, split) {
      SizeAppend(step, ParsedFrom(data, start, next, nice, depth, lazy, split));
      if next < n { NoEarlierEnd(data, start, next, nice, depth, lazy, split, n); }
    }
  }

  /** It begins with a step of its parser. */
  lemma BeginsWithStep(data: seq<Byte>, start: nat, nice: nat, depth: nat, lazy: bool, split: (nat, nat) -> bool)
    requires start < |data|
    ensures (if lazy then LazyItems(data, start, nice, depth) else GreedyItems(data, start, nice, depth)) <= ParsedFrom(data, start, start, nice, depth, lazy, split)
  {
    hide LazyItems, GreedyItems;
  }
}
