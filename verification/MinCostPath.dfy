/** Choosing literals and matches by a shortest path, backwards from the end of the block. */
module MinCostPath {
  import opened BitFields
  import opened DeflateSymbols

  /** An entry of the match cache: a match, or after the matches of a position their number and its literal. */
  datatype Entry = Entry(length: nat, offset: nat)

  /** A position of the block: the matches found there and its byte. */
  datatype Position = Position(matches: seq<Entry>, literal: Byte)

  datatype Costs = Costs(literal: seq<nat>, length: seq<nat>, offsetSlot: seq<nat>)

  /** The cost of nodes past the end of the block, which no path within it can reach. */
  const BEYOND: nat := 0x8000_0000
  const MAX_COST: nat := 0x1000
  const MAX_NODES: nat := 0x8_0000

  ghost predicate GoodCosts(c: Costs) {
    && |c.literal| == 256 && |c.length| == MAX_MATCH_LEN + 1 && |c.offsetSlot| >= 30
    && (forall i :: 0 <= i < 256 ==> c.literal[i] <= MAX_COST)
    && (forall i :: 0 <= i < |c.length| ==> c.length[i] < MAX_COST)
    && (forall i :: 0 <= i < |c.offsetSlot| ==> c.offsetSlot[i] < MAX_COST)
  }

  /** Matches come in order of strictly increasing length. */
  ghost predicate GoodMatches(ms: seq<Entry>) {
    && (forall k :: 0 <= k < |ms| ==> MIN_MATCH_LEN <= ms[k].length <= MAX_MATCH_LEN && 1 <= ms[k].offset <= MAX_MATCH_OFFSET)
    && forall j, k :: 0 <= j < k < |ms| ==> ms[j].length < ms[k].length
  }

  /** The offset used for a length: that of the first match which reaches it. */
  function OffsetFor(ms: seq<Entry>, len: nat): nat {
    if ms == [] then 0 else if ms[0].length >= len then ms[0].offset else OffsetFor(ms[1..], len)
  }

  function LongestOf(ms: seq<Entry>): nat { if ms == [] then 0 else ms[|ms| - 1].length }

  lemma {:induction false} OffsetForIs(ms: seq<Entry>, m: nat, len: nat)
    requires GoodMatches(ms) && m < |ms| && len <= ms[m].length && (m > 0 ==> ms[m - 1].length < len)
    ensures OffsetFor(ms, len) == ms[m].offset
  {
    if m > 0 {
      assert ms[0].length <= ms[m - 1].length;
      forall k | 0 <= k < |ms[1..]|
        ensures MIN_MATCH_LEN <= ms[1..][k].length <= MAX_MATCH_LEN && 1 <= ms[1..][k].offset <= MAX_MATCH_OFFSET
      {
        assert ms[1..][k] == ms[k + 1];
      }
      OffsetForIs(ms[1..], m - 1, len);
    }
  }

  function MatchCost(c: Costs, ms: seq<Entry>, len: nat): nat
    requires |c.length| == MAX_MATCH_LEN + 1 && |c.offsetSlot| >= 30 && len <= MAX_MATCH_LEN
  {
    var offset := OffsetFor(ms, len);
    (if 1 <= offset <= MAX_MATCH_OFFSET then c.offsetSlot[OffsetSlot(offset)] else 0) + c.length[len]
  }

  // ---- Items -------------------------------------------------------------------------------

  const OPTIMUM_LEN_RANGE: nat := 512

  /** A node's choice: the length in the low bits, 1 for a literal; above them the offset, or the literal. */
  function Packed(offset: nat, len: nat): nat { offset * OPTIMUM_LEN_RANGE + len }
  function ItemLength(item: nat): nat { item % OPTIMUM_LEN_RANGE }
  function ItemOffset(item: nat): nat { item / OPTIMUM_LEN_RANGE }

  /** The choices at position i of a block of n: its literal, or a length that some match reaches and that stays inside. */
  predicate Choice(ps: seq<Position>, i: nat, len: nat) {
    i < |ps| && i + len <= |ps| && (len == 1 || MIN_MATCH_LEN <= len <= LongestOf(ps[i].matches))
  }

  function ChoiceCost(c: Costs, ps: seq<Position>, i: nat, len: nat): nat
    requires |c.literal| == 256 && |c.length| == MAX_MATCH_LEN + 1 && |c.offsetSlot| >= 30 && Choice(ps, i, len) && len <= MAX_MATCH_LEN
  {
    if len == 1 then c.literal[ps[i].literal] else MatchCost(c, ps[i].matches, len)
  }

  ghost predicate GoodBlock(ps: seq<Position>) {
    0 < |ps| < MAX_NODES && forall i :: 0 <= i < |ps| ==> GoodMatches(ps[i].matches)
  }

  /** The item stands for this choice. */
  predicate StandsFor(ps: seq<Position>, i: nat, item: nat)
    requires i < |ps|
  {
    var len := ItemLength(item);
    Choice(ps, i, len) && ItemOffset(item) == if len == 1 then ps[i].literal else OffsetFor(ps[i].matches, len)
  }

  /** No choice at i does better than cost[i], and the item at i does as well. */
  ghost predicate Settled(c: Costs, ps: seq<Position>, cost: seq<nat>, item: seq<nat>, i: nat)
    requires GoodCosts(c) && GoodBlock(ps) && i < |ps| < |cost| && |ps| <= |item|
  {
    && (forall len: nat :: Choice(ps, i, len) && len <= MAX_MATCH_LEN ==> cost[i] <= ChoiceCost(c, ps, i, len) + cost[i + len])
    && StandsFor(ps, i, item[i]) && ItemLength(item[i]) <= MAX_MATCH_LEN
    && cost[i] == ChoiceCost(c, ps, i, ItemLength(item[i])) + cost[i + ItemLength(item[i])]
    && cost[i] <= (|ps| - i) * MAX_COST
  }

  // ---- Paths -------------------------------------------------------------------------------

  /** A path through the block: the lengths chosen, one after the other, ending exactly at its end. */
  predicate Path(ps: seq<Position>, i: nat, lens: seq<nat>)
    decreases |lens|
  {
    if lens == [] then i == |ps| else Choice(ps, i, lens[0]) && lens[0] <= MAX_MATCH_LEN && Path(ps, i + lens[0], lens[1..])
  }

  function PathCost(c: Costs, ps: seq<Position>, i: nat, lens: seq<nat>): nat
    requires |c.literal| == 256 && |c.length| == MAX_MATCH_LEN + 1 && |c.offsetSlot| >= 30 && Path(ps, i, lens)
    decreases |lens|
  {
    if lens == [] then 0 else ChoiceCost(c, ps, i, lens[0]) + PathCost(c, ps, i + lens[0], lens[1..])
  }

  ghost predicate AllSettled(c: Costs, ps: seq<Position>, cost: seq<nat>, item: seq<nat>) {
    && GoodCosts(c) && GoodBlock(ps) && |ps| < |cost| && |ps| <= |item| && cost[|ps|] == 0
    && forall i :: 0 <= i < |ps| ==> Settled(c, ps, cost, item, i)
  }

  /** No path is cheaper than the cost computed for its start. */
  lemma {:induction false} NoPathCheaper(c: Costs, ps: seq<Position>, cost: seq<nat>, item: seq<nat>, i: nat, lens: seq<nat>)
    requires AllSettled(c, ps, cost, item) && i <= |ps| && Path(ps, i, lens)
    ensures cost[i] <= PathCost(c, ps, i, lens)
    decreases |lens|
  {
    hide GoodCosts, GoodBlock, ChoiceCost;
    if lens != [] {
      SettledAt(c, ps, cost, item, i, lens[0]);
      NoPathCheaper(c, ps, cost, item, i + lens[0], lens[1..]);
    }
  }

  lemma SettledAt(c: Costs, ps: seq<Position>, cost: seq<nat>, item: seq<nat>, i: nat, len: nat)
    requires AllSettled(c, ps, cost, item) && Choice(ps, i, len) && len <= MAX_MATCH_LEN
    ensures GoodCosts(c) && cost[i] <= ChoiceCost(c, ps, i, len) + cost[i + len]
  {
    assert Settled(c, ps, cost, item, i);
  }

  /** The lengths met when the items are followed from i. */
  function Followed(item: seq<nat>, i: nat, n: nat): seq<nat>
    decreases n - i
  {
    if i >= n || i >= |item| || ItemLength(item[i]) == 0 then [] else [ItemLength(item[i])] + Followed(item, i + ItemLength(item[i]), n)
  }

  /** Following the items leads exactly to the end of the block, at the computed cost. */
  lemma {:induction false} ItemsLeadToEnd(c: Costs, ps: seq<Position>, cost: seq<nat>, item: seq<nat>, i: nat)
    requires AllSettled(c, ps, cost, item) && i <= |ps|
    ensures GoodCosts(c) && Path(ps, i, Followed(item, i, |ps|)) && PathCost(c, ps, i, Followed(item, i, |ps|)) == cost[i]
    decreases |ps| - i
  {
    if i < |ps| {
      assert Settled(c, ps, cost, item, i);
      var len := ItemLength(item[i]);
      ItemsLeadToEnd(c, ps, cost, item, i + len);
      assert Followed(item, i, |ps|)[1..] == Followed(item, i + len, |ps|);
    }
  }

  /** The path that is followed from the start is a cheapest one. */
  lemma FollowedIsCheapest(c: Costs, ps: seq<Position>, cost: seq<nat>, item: seq<nat>, lens: seq<nat>)
    requires AllSettled(c, ps, cost, item) && Path(ps, 0, lens)
    ensures GoodCosts(c) && Path(ps, 0, Followed(item, 0, |ps|))
    ensures PathCost(c, ps, 0, Followed(item, 0, |ps|)) <= PathCost(c, ps, 0, lens)
  {
    hide AllSettled, Path, Followed;
    ItemsLeadToEnd(c, ps, cost, item, 0);
    NoPathCheaper(c, ps, cost, item, 0, lens);
  }

  // ---- The backwards pass ------------------------------------------------------------------

  /** The cache: for each position its matches, then their number and the literal. */
  function Flat(ps: seq<Position>): seq<Entry> {
    if ps == [] then []
    else
      var last := ps[|ps| - 1];
      Flat(ps[..|ps| - 1]) + last.matches + [Entry(|last.matches|, last.literal)]
  }

  /** The nodes after i up to the end have the costs of this pass, and the matches of the block reach no node past
      the end but those set aside. */
  ghost predicate Sealed(ps: seq<Position>, cost: seq<nat>, i: int) {
    && |ps| < |cost| && (forall k: nat :: i < k <= |ps| ==> cost[k] <= BEYOND)
    && (forall k :: |ps| < k < |cost| && k < |ps| + MAX_MATCH_LEN ==> cost[k] == BEYOND)
    && forall k :: 0 <= k < |ps| ==> k + LongestOf(ps[k].matches) < |cost|
  }

  /** What considering the literal and the lengths below len at position i has led to. */
  ghost predicate Considered(c: Costs, ps: seq<Position>, cost: seq<nat>, i: nat, len: nat, best: nat, item: nat)
    requires GoodCosts(c) && GoodBlock(ps) && i < |ps| < |cost|
  {
    && (forall l: nat :: Choice(ps, i, l) && l < len && l <= MAX_MATCH_LEN ==> best <= ChoiceCost(c, ps, i, l) + cost[i + l])
    && StandsFor(ps, i, item) && ItemLength(item) <= MAX_MATCH_LEN
    && best == ChoiceCost(c, ps, i, ItemLength(item)) + cost[i + ItemLength(item)]
    && best <= (|ps| - i) * MAX_COST
  }

  lemma PackedParts(offset: nat, len: nat)
    requires len < OPTIMUM_LEN_RANGE
    ensures ItemLength(Packed(offset, len)) == len && ItemOffset(Packed(offset, len)) == offset
  {
  }

  /** One more node adds no more than the greatest literal cost. */
  lemma RoomForOne(n: nat, i: nat)
    requires i < n < MAX_NODES
    ensures (n - i - 1) * MAX_COST + MAX_COST == (n - i) * MAX_COST < BEYOND
  {
  }

  /** The literal is always possible. */
  lemma LiteralConsidered(c: Costs, ps: seq<Position>, cost: seq<nat>, i: nat)
    requires GoodCosts(c) && GoodBlock(ps) && i < |ps| && Sealed(ps, cost, i) && cost[i + 1] <= (|ps| - i - 1) * MAX_COST
    ensures Considered(c, ps, cost, i, MIN_MATCH_LEN, c.literal[ps[i].literal] + cost[i + 1], Packed(ps[i].literal, 1))
  {
    hide GoodMatches, Contiguous;
    PackedParts(ps[i].literal, 1);
    RoomForOne(|ps|, i);
  }

  /** A length past the end of the block costs too much to be chosen; another is chosen if it is better. */
  lemma LengthConsidered(c: Costs, ps: seq<Position>, cost: seq<nat>, i: nat, m: nat, len: nat, best: nat, item: nat)
    requires GoodCosts(c) && GoodBlock(ps) && i < |ps| && Sealed(ps, cost, i) && Considered(c, ps, cost, i, len, best, item)
    requires m < |ps[i].matches| && MIN_MATCH_LEN <= len <= ps[i].matches[m].length <= MAX_MATCH_LEN
    requires m > 0 ==> ps[i].matches[m - 1].length < len
    ensures OffsetFor(ps[i].matches, len) == ps[i].matches[m].offset && 1 <= ps[i].matches[m].offset <= MAX_MATCH_OFFSET && i + len < |cost|
    ensures var total := MatchCost(c, ps[i].matches, len) + cost[i + len];
      && total < 0x1_0000_0000
      && (total < best ==> Considered(c, ps, cost, i, len + 1, total, Packed(ps[i].matches[m].offset, len)))
      && (total >= best ==> Considered(c, ps, cost, i, len + 1, best, item))
  {
    hide Contiguous, OffsetSlot;
    var ms := ps[i].matches;
    OffsetForIs(ms, m, len);
    PackedParts(ms[m].offset, len);
    RoomForOne(|ps|, i);
    LongestIsLast(ms, m);
    var total := MatchCost(c, ms, len) + cost[i + len];
    if total < best { assert Choice(ps, i, len); }
  }

  lemma LongestIsLast(ms: seq<Entry>, m: nat)
    requires GoodMatches(ms) && m < |ms|
    ensures ms[m].length <= LongestOf(ms)
  {
  }

  /** Considers the matches of a position, each for the lengths that no shorter match reaches. */
  method BestChoice(c: Costs, cost: array<nat>, i: nat, cache: seq<Entry>, from: nat, num: nat, literal: Byte, ghost ps: seq<Position>)
    returns (best: nat, item: nat)
    requires GoodCosts(c) && GoodBlock(ps) && i < |ps| && Sealed(ps, cost[..], i) && cost[i + 1] <= (|ps| - i - 1) * MAX_COST
    requires from + num <= |cache| && cache[from..from + num] == ps[i].matches && literal == ps[i].literal
    ensures Considered(c, ps, cost[..], i, MAX_MATCH_LEN + 1, best, item)
  {
    hide Considered, Contiguous, OffsetSlot, GoodMatches, OffsetFor;
    best := c.literal[literal] + cost[i + 1];
    item := Packed(literal, 1);
    LiteralConsidered(c, ps, cost[..], i);
    if num != 0 {
      var m, len := 0, MIN_MATCH_LEN;
      MatchLengths(ps[i].matches, 0);
      while m < num
        invariant 0 <= m <= num && MIN_MATCH_LEN <= len && (m > 0 ==> len == ps[i].matches[m - 1].length + 1) && (m == 0 ==> len == MIN_MATCH_LEN)
        invariant Considered(c, ps, cost[..], i, len, best, item)
      {
        MatchLengths(ps[i].matches, m);
        assert cache[from + m] == ps[i].matches[m];
        var offset := cache[from + m].offset;
        var again := true;
        while again
          invariant MIN_MATCH_LEN <= len <= cache[from + m].length + 1 && (again <==> len <= cache[from + m].length)
          invariant m > 0 ==> ps[i].matches[m - 1].length < len
          invariant Considered(c, ps, cost[..], i, len, best, item)
          decreases cache[from + m].length + 1 - len
        {
          LengthConsidered(c, ps, cost[..], i, m, len, best, item);
          var costToEnd := (c.offsetSlot[OffsetSlot(offset)] + c.length[len] + cost[i + len]) % 0x1_0000_0000;
          if costToEnd < best {
            best, item := costToEnd, Packed(offset, len);
          }
          len := len + 1;
          again := len <= cache[from + m].length;
        }
        m := m + 1;
      }
    }
    AllConsidered(c, ps, cost[..], i, if num == 0 then MIN_MATCH_LEN else ps[i].matches[num - 1].length + 1, best, item);
  }

  lemma MatchLengths(ms: seq<Entry>, m: nat)
    requires GoodMatches(ms) && m < |ms|
    ensures MIN_MATCH_LEN <= ms[m].length <= MAX_MATCH_LEN && (m > 0 ==> ms[m - 1].length < ms[m].length)
  {
  }

  /** Past the longest match there is nothing left to consider. */
  lemma AllConsidered(c: Costs, ps: seq<Position>, cost: seq<nat>, i: nat, len: nat, best: nat, item: nat)
    requires GoodCosts(c) && GoodBlock(ps) && i < |ps| < |cost| && Considered(c, ps, cost, i, len, best, item)
    requires len == if ps[i].matches == [] then MIN_MATCH_LEN else LongestOf(ps[i].matches) + 1
    ensures Considered(c, ps, cost, i, MAX_MATCH_LEN + 1, best, item)
  {
    hide MatchCost, GoodMatches;
  }

  lemma FlatSize(ps: seq<Position>, i: nat)
    requires i < |ps|
    ensures |Flat(ps[..i + 1])| == |Flat(ps[..i])| + |ps[i].matches| + 1
    ensures Flat(ps[..i + 1])[|Flat(ps[..i + 1])| - 1] == Entry(|ps[i].matches|, ps[i].literal)
    ensures Flat(ps[..i + 1])[|Flat(ps[..i])|..|Flat(ps[..i])| + |ps[i].matches|] == ps[i].matches
    ensures Flat(ps[..i + 1])[..|Flat(ps[..i])|] == Flat(ps[..i])
  {
    assert ps[..i + 1][..i] == ps[..i];
    assert Flat(ps[..i + 1]) == Flat(ps[..i]) + ps[i].matches + [Entry(|ps[i].matches|, ps[i].literal)];
  }

  /** The cache up to the pointer holds the first i positions. */
  ghost predicate CacheAt(cache: seq<Entry>, ps: seq<Position>, i: nat, ptr: nat) {
    i <= |ps| && ptr <= |cache| && cache[..ptr] == Flat(ps[..i])
  }

  lemma CacheBack(cache: seq<Entry>, ps: seq<Position>, i: nat, ptr: nat)
    requires i > 0 && CacheAt(cache, ps, i, ptr)
    ensures |cache| >= ptr > |ps[i - 1].matches| && cache[ptr - 1] == Entry(|ps[i - 1].matches|, ps[i - 1].literal)
    ensures var from := ptr - 1 - |ps[i - 1].matches|;
      cache[from..from + |ps[i - 1].matches|] == ps[i - 1].matches && CacheAt(cache, ps, i - 1, from)
  {
    FlatSize(ps, i - 1);
    var flat, from := cache[..ptr], ptr - 1 - |ps[i - 1].matches|;
    assert flat[from..from + |ps[i - 1].matches|] == cache[from..from + |ps[i - 1].matches|];
    assert flat[..from] == cache[..from];
  }

  /** Everything after node i is settled. */
  ghost predicate SettledAfter(c: Costs, ps: seq<Position>, cost: seq<nat>, item: seq<nat>, i: nat) {
    && GoodCosts(c) && GoodBlock(ps) && |ps| <= |item| && Sealed(ps, cost, i - 1) && cost[|ps|] == 0
    && forall k :: i <= k < |ps| ==> Settled(c, ps, cost, item, k)
  }

  lemma NodeSettled(c: Costs, ps: seq<Position>, cost: seq<nat>, item: seq<nat>, i: nat, best: nat, choice: nat)
    requires SettledAfter(c, ps, cost, item, i + 1) && i < |ps| && Considered(c, ps, cost, i, MAX_MATCH_LEN + 1, best, choice)
    ensures SettledAfter(c, ps, cost[i := best], item[i := choice], i)
  {
    hide ChoiceCost, GoodMatches;
    var cost', item' := cost[i := best], item[i := choice];
    RoomForOne(|ps|, i);
    forall k | i <= k < |ps|
      ensures Settled(c, ps, cost', item', k)
    {
      if k > i { assert Settled(c, ps, cost, item, k); }
    }
  }

  lemma CostAfter(c: Costs, ps: seq<Position>, cost: seq<nat>, item: seq<nat>, i: nat)
    requires SettledAfter(c, ps, cost, item, i) && 0 < i <= |ps|
    ensures cost[i] <= (|ps| - i) * MAX_COST && Sealed(ps, cost, i - 1)
  {
    if i < |ps| { assert Settled(c, ps, cost, item, i); }
  }

  /** One pass: settles every node, from the end of the block back to its start. */
  method FindMinCostPath(c: Costs, cost: array<nat>, item: array<nat>, cache: seq<Entry>, blockLength: nat, ghost ps: seq<Position>)
    requires GoodCosts(c) && GoodBlock(ps) && |ps| == blockLength < cost.Length && blockLength <= item.Length && cost != item
    requires CacheAt(cache, ps, blockLength, |cache|)
    requires forall k :: blockLength < k < cost.Length && k < blockLength + MAX_MATCH_LEN ==> cost[k] == BEYOND
    requires forall k :: 0 <= k < blockLength ==> k + LongestOf(ps[k].matches) < cost.Length
    modifies cost, item
    ensures AllSettled(c, ps, cost[..], item[..])
    ensures forall k :: blockLength < k < cost.Length ==> cost[k] == old(cost[k])
  {
    hide Considered, GoodCosts, GoodBlock, Settled, CacheAt, Flat, LongestOf;
    cost[blockLength] := 0;
    var i: nat, ptr: nat := blockLength, |cache|;
    while i > 0
      invariant 0 <= i <= blockLength && CacheAt(cache, ps, i, ptr) && SettledAfter(c, ps, cost[..], item[..], i)
      invariant forall k :: blockLength < k < cost.Length ==> cost[k] == old(cost[k])
    {
      CostAfter(c, ps, cost[..], item[..], i);
      CacheBack(cache, ps, i, ptr);
      i, ptr := i - 1, ptr - 1;
      var num, literal := cache[ptr].length, cache[ptr].offset;
      var best, choice := BestChoice(c, cost, i, cache, ptr - num, num, literal, ps);
      NodeSettled(c, ps, cost[..], item[..], i, best, choice);
      ghost var cost0, item0 := cost[..], item[..];
      cost[i], item[i] := best, choice;
      assert cost[..] == cost0[i := best] && item[..] == item0[i := choice];
      ptr := ptr - num;
    }
  }

  /** Sets the nodes aside that a match may reach past the end of the block. */
  method SetAside(cost: array<nat>, blockLength: nat)
    requires 0 < blockLength < cost.Length
    modifies cost
    ensures forall k :: blockLength <= k < cost.Length && k < blockLength + MAX_MATCH_LEN ==> cost[k] == BEYOND
    ensures forall k :: 0 <= k < blockLength ==> cost[k] == old(cost[k])
  {
    var last := if blockLength - 1 + MAX_MATCH_LEN < cost.Length - 1 then blockLength - 1 + MAX_MATCH_LEN else cost.Length - 1;
    for i := blockLength to last + 1
      invariant forall k :: blockLength <= k < i ==> cost[k] == BEYOND
      invariant forall k :: 0 <= k < blockLength ==> cost[k] == old(cost[k])
    {
      cost[i] := BEYOND;
    }
  }
}
