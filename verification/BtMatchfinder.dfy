/** The binary-tree matchfinder: finds earlier occurrences of the string at each position of a buffer. */
module BtMatchfinder {
  import opened LexOrder
  import opened SearchTree
  import opened TreeMemory
  import opened BtSearch
  import opened BtForest
  import opened BtHeads
  import LzExtend
  import RebaseBits

  /** The hashes handed from one position to the next: those of cur, but 0 at the start of the stream. */
  ghost predicate HashesFor(data: Bytes, cur: nat, hash3: nat, hash4: nat) {
    hash3 == Filed3(data, cur) && hash4 == Filed4(data, cur)
  }

  /** The hashes of the next position, from one 32-bit load. */
  method NextHashes(data: Bytes, cur: nat) returns (hash3: nat, hash4: nat)
    requires cur + 5 <= |data|
    ensures HashesFor(data, cur + 1, hash3, hash4)
  {
    var nextHashseq := LzExtend.Word(data, cur + 1, 4);
    LzExtend.LowThreeBytes(data, cur + 1);
    hash3 := LzExtend.Hash(nextHashseq % 0x100_0000);
    hash4 := LzExtend.Hash(nextHashseq);
  }

  /** What is known of the table before an advance. */
  lemma Known(data: Bytes, mem: Memory, base: int, cur: nat, n: nat, trees: Trees, hash3: nat, hash4: nat)
    requires Forest(data, mem, base, cur, n, trees) && HashesFor(data, cur, hash3, hash4)
    ensures Short(mem) && EntriesEarlier(mem, base, cur) && hash3 < BUCKETS && hash4 < BUCKETS
    ensures Bucket(data, mem, base, cur, n, hash4, trees[hash4]) && hash3 == Filed3(data, cur)
    ensures base <= cur < base + WINDOW ==> HashMatch(data, mem, base, cur, hash3) == ThreeByteMatch(data, cur)
  {
    hide HashMatch, ThreeByteMatch;
    if base <= cur < base + WINDOW { HashMatchIs(data, mem, base, cur, hash3); }
  }

  lemma Reported(mem: Memory, k: Task, h: nat, b: nat, trees: Trees, ms: seq<Match>, best: nat)
    requires h < BUCKETS && b < BUCKETS && k.tree == trees[h] && 3 < k.n <= k.max
    requires Forest(k.data, mem, k.base, k.cur, k.n, trees) && b == Filed3(k.data, k.cur) && k.base <= k.cur < k.base + WINDOW
    requires k.first == if k.record then HashMatch(k.data, mem, k.base, k.cur, b) else []
    requires Delivers(k, ms, best)
    ensures ms == if k.record then ThreeByteMatch(k.data, k.cur) + Found(k.data, trees[h], k.cur, k.n, k.max, k.depth, 3) else []
    ensures k.record ==> ReportsThree(k.data, k.cur, ms)
    ensures k.record ==> GoodReport(k.data, k.cur, ms, k.max, k.n) && best == BestLength(ms)
    ensures k.record && !EndingOf(k.data, trees[h], k.cur, k.n, k.depth).OutOfDepth? ==>
      forall z: nat :: z in Positions(trees[h]) ==> Covered(k.data, z, k.cur, k.n, 3, ms)
  {
    hide Bucket, Found, GoodReport, EndingOf, Covered, Positions, HashMatch, ThreeByteMatch, ReportsThree;
    if k.record {
      HashMatchIs(k.data, mem, k.base, k.cur, b);
      TreeMatches(mem, k, h, trees);
      ReportIsGood(mem, k, h, b, trees);
      HashMatchIsTrue(k.data, mem, k.base, k.cur, b, k.max);
      HashMatchIsOne(k.data, mem, k.base, k.cur, b);
      if !EndingOf(k.data, trees[h], k.cur, k.n, k.depth).OutOfDepth? {
        forall z: nat | z in Positions(trees[h])
          ensures Covered(k.data, z, k.cur, k.n, 3, ms)
        {
          ReportIsBest(k.data, mem, k.base, k.cur, k.n, trees, h, k.max, k.depth, k.first, z);
        }
      }
    }
  }

  /** What the tree gives is longer than what the 3-byte bucket gives. */
  lemma TreeMatches(mem: Memory, k: Task, h: nat, trees: Trees)
    requires h < BUCKETS && k.tree == trees[h] && 3 < k.n <= k.max && Forest(k.data, mem, k.base, k.cur, k.n, trees)
    ensures ReportsThree(k.data, k.cur, ThreeByteMatch(k.data, k.cur) + Found(k.data, k.tree, k.cur, k.n, k.max, k.depth, 3))
  {
    hide Found, ReportsThree, ThreeByteMatch, Holds, Ordered, Proper, TrueMatches;
    assert Bucket(k.data, mem, k.base, k.cur, k.n, h, k.tree);
    InWindowBefore(k.tree, k.cur);
    FoundAreMatches(k.data, k.tree, k.cur, k.n, k.max, k.depth, 3);
    ReportedThree(k.data, k.cur, Found(k.data, k.tree, k.cur, k.n, k.max, k.depth, 3));
  }

  /** Length of the longest match reported, or 3. */
  function BestLength(ms: seq<Match>): nat { if ms == [] then 3 else ms[|ms| - 1].length }

  lemma NothingFound(k: Task)
    requires k.tree.Nil?
    ensures Delivers(k, k.first, 3)
  {
  }

  class BtMatchfinder {
    /** The whole structure as the one array of 16-bit positions that init and rebase treat it as. */
    const mem: array<Link>
    /** The tree of each 4-byte bucket, by absolute positions. */
    ghost var trees: Trees

    constructor ()
      ensures fresh(mem) && mem.Length == SIZE
    {
      mem := new Link[SIZE];
    }

    /** Positions below next have been entered; trees are sorted by n bytes; base is where relative position 0 lies. */
    ghost predicate Valid(data: Bytes, base: nat, next: nat, n: nat)
      reads this, mem
    {
      && mem.Length == SIZE && base % WINDOW == 0 && base <= next <= base + WINDOW
      && Forest(data, mem[..], base, next, n, trees)
    }

    /** Empties the hash tables; the child links need no initial value. */
    method Init(ghost data: Bytes, ghost n: nat)
      requires mem.Length == SIZE
      modifies this, mem
      ensures Valid(data, 0, 0, n) && trees == seq(BUCKETS, i => Nil)
    {
      var i := 0;
      while i < CHILDREN
        invariant 0 <= i <= CHILDREN && forall j :: 0 <= j < i ==> mem[j] == -WINDOW
      {
        mem[i] := -WINDOW;
        i := i + 1;
      }
      trees := seq(BUCKETS, i => Nil);
    }

    /** Moves relative position 0 one window ahead; meant for when a whole window has been entered. */
    method SlideWindow(ghost data: Bytes, ghost base: nat, ghost n: nat)
      requires mem.Length == SIZE
      modifies mem
      ensures old(Valid(data, base, base + WINDOW, n)) ==> Valid(data, base + WINDOW, base + WINDOW, n)
      ensures trees == old(trees)
    {
      var i := 0;
      while i < SIZE
        invariant 0 <= i <= SIZE
        invariant forall j :: 0 <= j < i ==> mem[j] == RebaseBits.Rebased(old(mem[j]))
        invariant forall j :: i <= j < SIZE ==> mem[j] == old(mem[j])
      {
        mem[i] := RebaseBits.Rebased(mem[i]);
        i := i + 1;
      }
      if old(Valid(data, base, base + WINDOW, n)) { ForestRebased(data, old(mem[..]), mem[..], base, n, trees); }
    }

    /** Enters curPos into its 3-byte bucket; a match of length 3 with one of the two positions kept there is reported. */
    method EnterHash3(data: Bytes, base: nat, curPos: nat, hash3: nat, record: bool) returns (matches: seq<Match>)
      requires mem.Length == SIZE && hash3 < BUCKETS && curPos < WINDOW && base + curPos + 3 <= |data|
      requires EntriesEarlier(mem[..], base, base + curPos)
      modifies mem
      ensures mem[..] == old(mem[..])[2 * hash3 := curPos][2 * hash3 + 1 := old(mem[2 * hash3])]
      ensures matches == if record then HashMatch(data, old(mem[..]), base, base + curPos, hash3) else []
    {
      hide Short, LzExtend.Word;
      ghost var was := mem[..];
      assert EarlierOrOld(base + curPos, base + was[2 * hash3]) && EarlierOrOld(base + curPos, base + was[2 * hash3 + 1]);
      var cur, cutoff := base + curPos, curPos - WINDOW;
      var curNode := mem[2 * hash3];
      mem[2 * hash3] := curPos;
      var curNode2 := mem[2 * hash3 + 1];
      mem[2 * hash3 + 1] := curNode;
      matches := [];
      if record && curNode > cutoff {
        var seq3 := LzExtend.Word(data, cur, 3);
        if seq3 == LzExtend.Word(data, base + curNode, 3) {
          matches := [Match(3, curPos - curNode)];
        } else if curNode2 > cutoff && seq3 == LzExtend.Word(data, base + curNode2, 3) {
          matches := [Match(3, curPos - curNode2)];
        }
      }
    }

    /** Enters the position at curPos, and when recording reports matches with earlier ones: from its 3-byte bucket,
        then from the tree of its 4-byte bucket, which is re-rooted at it. */
    method AdvanceOneByte(data: Bytes, base: nat, curPos: nat, max: nat, n: nat, depth: nat, hash3: nat, hash4: nat, record: bool)
      returns (nextHash3: nat, nextHash4: nat, matches: seq<Match>, bestLen: nat)
      requires Valid(data, base, base + curPos, n) && curPos < WINDOW
      requires 3 < n <= max && base + curPos + max <= |data| && base + curPos + 5 <= |data| && depth >= 1 && (!record ==> max == n)
      requires HashesFor(data, base + curPos, hash3, hash4)
      modifies this, mem
      ensures Valid(data, base, base + curPos + 1, n)
      ensures trees == Advanced(data, old(trees), hash4, base + curPos, n, depth)
      ensures HashesFor(data, base + curPos + 1, nextHash3, nextHash4)
      ensures matches ==
        if record then ThreeByteMatch(data, base + curPos) + Found(data, old(trees)[hash4], base + curPos, n, max, depth, 3) else []
      ensures record ==> ReportsThree(data, base + curPos, matches)
      ensures record ==> GoodReport(data, base + curPos, matches, max, n) && bestLen == BestLength(matches)
      ensures record && !EndingOf(data, old(trees)[hash4], base + curPos, n, depth).OutOfDepth? ==>
        forall z: nat :: z in Positions(old(trees)[hash4]) ==> Covered(data, z, base + curPos, n, 3, matches)
    {
      hide Forest, Bucket, Holds, Ordered, Proper, Short, EntriesEarlier, HashMatch, Found, Covered, GoodReport, EndingOf, Split, Advanced, Linking,
        Looking, Delivers, Rerooted, Elsewhere, NewSlots, HashesFor, Left, Right, LtEnd, GtEnd, Written, Positions, BestLength, LzExtend.Hash3, Filed3, Filed4, ThreeByteMatch, ReportsThree;
      var cur := base + curPos;
      ghost var was, grown := mem[..], trees;
      Known(data, was, base, cur, n, grown, hash3, hash4);
      nextHash3, nextHash4 := NextHashes(data, cur);
      var first := EnterHash3(data, base, curPos, hash3, record);
      var curNode := mem[Root(hash4)];
      Write(mem, Root(hash4), curPos);
      ghost var k := Task(data, base, grown[hash4], cur, n, max, depth, record, first);
      assert mem[..] == Hashed(was, base, cur, hash4, hash3);
      TreeAfterHashed(was, k, hash4, hash3);
      SameSlots(base, curPos);
      if curNode <= curPos - WINDOW {
        Write(mem, Left(curPos), -WINDOW);
        Write(mem, Right(curPos), -WINDOW);
        EmptyEnds(was, mem[..], k, hash4, hash3);
        matches, bestLen := first, 3;
        NothingFound(k);
      } else {
        SearchStarts(was, k, hash4, hash3);
        matches, bestLen := Search(mem, data, base, curPos, curNode, max, n, depth, record, first, k);
        SearchEnds(was, mem[..], k, hash4, hash3);
      }
      ForestAdvanced(was, mem[..], k, hash4, hash3, grown);
      trees := Advanced(data, grown, hash4, cur, n, depth);
      Reported(was, k, hash4, hash3, grown, matches, bestLen);
    }
  }
}
