/** What the near-optimal parser caches: the trees of the matchfinder, the matches reported and the positions of a block as
    functions of the buffer, the level and where blocks are split. */
module OptimalCache {
  import opened BitFields
  import opened DeflateSymbols
  import opened MinCostPath
  import LexOrder
  import SearchTree
  import BtHeads
  import TreeMemory
  import BtForest
  import ParserChoices

  const REQUIRED_NBYTES: nat := 5
  const CACHE_LENGTH: nat := 1_500_000

  /** The longest match with so many bytes left, and the length that is long enough. */
  function MaxAt(left: nat): nat { ParserChoices.Least(MAX_MATCH_LEN, left) }
  function NiceAt(nice: nat, left: nat): nat { ParserChoices.Least(nice, MaxAt(left)) }

  /** The trees after all positions before next have been entered. */
  function TreesAt(data: seq<Byte>, next: nat, nice: nat, depth: nat): BtForest.Trees
    requires next <= |data|
  {
    if next == 0 then seq(TreeMemory.BUCKETS, i => SearchTree.Nil)
    else
      BtForest.Advanced(data, TreesAt(data, next - 1, nice, depth), BtHeads.Filed4(data, next - 1), next - 1, NiceAt(nice, |data| - (next - 1)), depth)
  }

  /** The matches reported at a position: that of the 3-byte bucket, then those of the tree; none near the end of the input. */
  function ReportAt(data: seq<Byte>, at: nat, nice: nat, depth: nat): seq<SearchTree.Match>
    requires at < |data|
  {
    var max := MaxAt(|data| - at);
    if max < REQUIRED_NBYTES then []
    else
      BtHeads.ThreeByteMatch(data, at) +
      SearchTree.Found(data, TreesAt(data, at, nice, depth)[BtHeads.Filed4(data, at)], at, NiceAt(nice, |data| - at), max, depth, 3)
  }

  /** The matches as the cache holds them. */
  function EntriesOf(ms: seq<SearchTree.Match>): (r: seq<Entry>)
    ensures |r| == |ms| && forall k :: 0 <= k < |ms| && ms[k].offset >= 0 ==> r[k] == Entry(ms[k].length, ms[k].offset)
  {
    seq(|ms|, k requires 0 <= k < |ms| => Entry(ms[k].length, if ms[k].offset >= 0 then ms[k].offset else 0))
  }

  function Longest(ms: seq<SearchTree.Match>): nat { if ms == [] then 0 else ms[|ms| - 1].length }

  /** Positions without matches. */
  function Skipped(data: seq<Byte>, at: nat, n: nat): (r: seq<Position>)
    ensures |r| == n && forall i :: 0 <= i < n ==> r[i] == Position([], LexOrder.At(data, at, i))
  {
    seq(n, i requires 0 <= i < n => Position([], LexOrder.At(data, at, i)))
  }

  /** A position with its matches; when the longest is long enough, the positions it covers are passed over. */
  function StepPositions(data: seq<Byte>, at: nat, nice: nat, depth: nat): (r: seq<Position>)
    requires at < |data|
    ensures |r| > 0
  {
    var ms := ReportAt(data, at, nice, depth);
    var first := [Position(EntriesOf(ms), data[at])];
    if ms != [] && Longest(ms) >= NiceAt(nice, |data| - at) then first + Skipped(data, at + 1, Longest(ms) - 1) else first
  }

  /** Whether the block goes on after these positions. */
  predicate CachesOn(data: seq<Byte>, start: nat, ps: seq<Position>, split: (nat, nat) -> bool) {
    ParserChoices.GoesOn(data, start, start + |ps|, split) && |Flat(ps)| < CACHE_LENGTH
  }

  /** All positions of the block from start on, when those of ps have been cached. */
  function CachedFrom(data: seq<Byte>, start: nat, ps: seq<Position>, nice: nat, depth: nat, split: (nat, nat) -> bool): seq<Position>
    requires start + |ps| < |data|
    decreases |data| - |ps|
  {
    var qs := ps + StepPositions(data, start + |ps|, nice, depth);
    if CachesOn(data, start, qs, split) then CachedFrom(data, start, qs, nice, depth, split) else qs
  }
}
