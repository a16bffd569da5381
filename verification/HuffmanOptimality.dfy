/** The tree recorded by the merges has the least weighted path length possible: no codeword
    lengths that fit the codespace cost less. */
module HuffmanOptimality {
  import opened Powers
  import opened WeightedSums
  import opened HuffmanTree

  /** All n - 1 merges of n leaves are done. */
  ghost predicate Complete(t: Merges, n: nat) {
    n >= 2 && Merged(t, n, n - 1)
  }

  /** Values of the items waiting before merge e: leaves first, then nodes. */
  ghost function Live(t: Merges, n: nat, e: nat, leafVals: seq<nat>, nodeVals: seq<nat>): (r: seq<nat>)
    requires Complete(t, n) && e < n && |leafVals| == n && |nodeVals| == n - 1
    ensures t.leafHead[e] <= n && t.nodeHead[e] <= e
    ensures |r| == n - e
  {
    HeadsAdvance(t, n, n - 1, e);
    leafVals[t.leafHead[e]..] + nodeVals[t.nodeHead[e]..e]
  }

  /** Positions, among the waiting items, of the two that merge e takes. */
  ghost function TakenAt(t: Merges, n: nat, e: nat): (r: (nat, nat))
    requires Complete(t, n) && e < n - 1
    ensures r.0 < r.1 < n - e
  {
    HeadsAdvance(t, n, n - 1, e);
    HeadsAdvance(t, n, n - 1, e + 1);
    assert TakesTwo(t, n, e);
    TakenPositions(n - t.leafHead[e], t.leafHead[e + 1] - t.leafHead[e])
  }

  ghost function DropTwo(s: seq<nat>, p: nat, q: nat): seq<nat>
    requires p < q < |s|
  {
    RemoveAt(RemoveAt(s, q), p)
  }

  ghost function TakenPositions(leaves: nat, di: nat): (nat, nat) {
    if di == 0 then (leaves, leaves + 1) else if di == 1 then (0, leaves) else (0, 1)
  }

  lemma DropFronts(leaves: seq<nat>, nodes: seq<nat>, di: nat)
    requires di <= 2 && di <= |leaves| && 2 - di <= |nodes|
    ensures leaves[di..] + nodes[2 - di..] ==
      DropTwo(leaves + nodes, TakenPositions(|leaves|, di).0, TakenPositions(|leaves|, di).1)
  {
  }

  lemma QueuesAdvance(leafVals: seq<nat>, nodeVals: seq<nat>, i: nat, b: nat, e: nat, di: nat)
    requires di <= 2 && i + di <= |leafVals| && b + 2 - di <= e < |nodeVals|
    ensures leafVals[i + di..] + nodeVals[b + 2 - di..e + 1] ==
      DropTwo(leafVals[i..] + nodeVals[b..e],
              TakenPositions(|leafVals| - i, di).0, TakenPositions(|leafVals| - i, di).1) + [nodeVals[e]]
  {
    var leaves, nodes, x := leafVals[i..], nodeVals[b..e], nodeVals[e];
    DropFronts(leaves, nodes, di);
    assert leafVals[i + di..] == leaves[di..];
    assert nodeVals[b + 2 - di..e + 1] == nodes[2 - di..] + [x];
    hide DropTwo;
    Associate(leaves[di..], nodes[2 - di..], [x]);
  }

  lemma Associate(a: seq<nat>, b: seq<nat>, c: seq<nat>)
    ensures a + (b + c) == (a + b) + c
  {
  }

  lemma LiveStep(t: Merges, n: nat, e: nat, leafVals: seq<nat>, nodeVals: seq<nat>)
    requires Complete(t, n) && e < n - 1 && |leafVals| == n && |nodeVals| == n - 1
    ensures var (p, q) := TakenAt(t, n, e);
      Live(t, n, e + 1, leafVals, nodeVals) == DropTwo(Live(t, n, e, leafVals, nodeVals), p, q) + [nodeVals[e]]
  {
    HeadsAdvance(t, n, n - 1, e);
    HeadsAdvance(t, n, n - 1, e + 1);
    assert TakesTwo(t, n, e);
    QueuesAdvance(leafVals, nodeVals, t.leafHead[e], t.nodeHead[e], e, t.leafHead[e + 1] - t.leafHead[e]);
  }

  /** The two items of merge e, as values. */
  lemma TakenValues(t: Merges, n: nat, e: nat, leafVals: seq<nat>, nodeVals: seq<nat>)
    requires Complete(t, n) && e < n - 1 && |leafVals| == n && |nodeVals| == n - 1
    ensures var (p, q) := TakenAt(t, n, e);
      var live, i, b := Live(t, n, e, leafVals, nodeVals), t.leafHead[e], t.nodeHead[e];
      && TakesTwo(t, n, e)
      && (t.leafHead[e + 1] == i ==> live[p] == nodeVals[b] && live[q] == nodeVals[b + 1])
      && (t.leafHead[e + 1] == i + 1 ==> live[p] == leafVals[i] && live[q] == nodeVals[b])
      && (t.leafHead[e + 1] == i + 2 ==> live[p] == leafVals[i] && live[q] == leafVals[i + 1])
  {
    HeadsAdvance(t, n, n - 1, e);
    HeadsAdvance(t, n, n - 1, e + 1);
    assert TakesTwo(t, n, e);
  }

  lemma {:induction false} FindTaker(heads: seq<nat>, e: nat, k: nat) returns (s: nat)
    requires e < |heads| && heads[0] <= k < heads[e]
    ensures s < e && heads[s] <= k < heads[s + 1]
  {
    if heads[e - 1] <= k {
      s := e - 1;
    } else {
      s := FindTaker(heads, e - 1, k);
    }
  }

  /** Every node but the root has a parent above it. */
  lemma ParentAbove(t: Merges, n: nat, k: nat)
    requires Complete(t, n) && k < n - 2
    ensures |t.nodeParent| == n - 2 && k < t.nodeParent[k] <= n - 2
  {
    HeadsAdvance(t, n, n - 1, n - 1);
    var s := FindTaker(t.nodeHead, n - 1, k);
    assert TakesTwo(t, n, s);
  }

  lemma LeafParentInRange(t: Merges, n: nat, i: nat)
    requires Complete(t, n) && i < n
    ensures |t.leafParent| == n && t.leafParent[i] <= n - 2
  {
    HeadsAdvance(t, n, n - 1, n - 1);
    var s := FindTaker(t.leafHead, n - 1, i);
    assert TakesTwo(t, n, s);
  }

  ghost function Depth(t: Merges, n: nat, k: nat): nat
    requires Complete(t, n) && k <= n - 2
    decreases n - k
  {
    if k == n - 2 then 0 else (ParentAbove(t, n, k); Depth(t, n, t.nodeParent[k]) + 1)
  }

  /** Depths of the nodes, by index. */
  ghost function NodeDepths(t: Merges, n: nat): (d: seq<nat>)
    requires Complete(t, n)
    ensures |d| == n - 1
  {
    seq(n - 1, k requires 0 <= k < n - 1 => Depth(t, n, k))
  }

  /** Depths of the leaves, by index: the codeword lengths of an unlimited Huffman code. */
  ghost function LeafDepths(t: Merges, n: nat): (d: seq<nat>)
    requires Complete(t, n)
    ensures |d| == n
  {
    seq(n, i requires 0 <= i < n => (LeafParentInRange(t, n, i); Depth(t, n, t.leafParent[i]) + 1))
  }

  ghost function LiveDepths(t: Merges, n: nat, e: nat): (r: seq<nat>)
    requires Complete(t, n) && e < n
    ensures |r| == n - e
  {
    Live(t, n, e, LeafDepths(t, n), NodeDepths(t, n))
  }

  /** What merge e takes lies one level below node e. */
  lemma TakenDepths(t: Merges, n: nat, e: nat)
    requires Complete(t, n) && e < n - 1
    ensures var (p, q) := TakenAt(t, n, e);
      LiveDepths(t, n, e)[p] == LiveDepths(t, n, e)[q] == Depth(t, n, e) + 1
    ensures LiveDepths(t, n, e + 1) == DropTwo(LiveDepths(t, n, e), TakenAt(t, n, e).0, TakenAt(t, n, e).1) + [Depth(t, n, e)]
  {
    HeadsAdvance(t, n, n - 1, e);
    HeadsAdvance(t, n, n - 1, e + 1);
    HeadsAdvance(t, n, n - 1, n - 1);
    assert TakesTwo(t, n, e);
    TakenValues(t, n, e, LeafDepths(t, n), NodeDepths(t, n));
    LiveStep(t, n, e, LeafDepths(t, n), NodeDepths(t, n));
    var i, b := t.leafHead[e], t.nodeHead[e];
    if b < t.nodeHead[e + 1] { ParentAbove(t, n, b); }
    if b + 1 < t.nodeHead[e + 1] { ParentAbove(t, n, b + 1); }
  }

  lemma CostDropTwo(ws: seq<nat>, lens: seq<nat>, p: nat, q: nat)
    requires |ws| == |lens| && p < q < |ws|
    ensures Cost(ws, lens) == Cost(DropTwo(ws, p, q), DropTwo(lens, p, q)) + ws[p] * lens[p] + ws[q] * lens[q]
  {
    CostRemove(ws, lens, q);
    CostRemove(RemoveAt(ws, q), RemoveAt(lens, q), p);
  }

  lemma KraftDropTwo(lens: seq<nat>, p: nat, q: nat, max: nat)
    requires p < q < |lens|
    ensures Kraft(lens, max) == Kraft(DropTwo(lens, p, q), max) + Share(lens[p], max) + Share(lens[q], max)
  {
    KraftRemove(lens, q, max);
    KraftRemove(RemoveAt(lens, q), p, max);
  }

  lemma CountDropTwo(s: seq<nat>, p: nat, q: nat, x: nat)
    requires p < q < |s|
    ensures Count(s, x) == Count(DropTwo(s, p, q), x) + (if s[p] == x then 1 else 0) + (if s[q] == x then 1 else 0)
  {
    CountRemove(s, q, x);
    CountRemove(RemoveAt(s, q), p, x);
  }

  lemma OneLevelDown(a: nat, b: nat, up: nat)
    ensures a * (up + 1) + b * (up + 1) == (a + b) * up + a + b
  {
  }

  /** Replacing the items at p and q by their parent saves their joint weight, if it sits one level up. */
  lemma CostOfMerge(ws: seq<nat>, lens: seq<nat>, p: nat, q: nat, up: nat)
    requires |ws| == |lens| && p < q < |ws| && lens[p] == lens[q] == up + 1
    ensures Cost(ws, lens) == Cost(DropTwo(ws, p, q) + [ws[p] + ws[q]], DropTwo(lens, p, q) + [up]) + ws[p] + ws[q]
  {
    CostDropTwo(ws, lens, p, q);
    CostAppend(DropTwo(ws, p, q), DropTwo(lens, p, q), [ws[p] + ws[q]], [up]);
    assert Cost([ws[p] + ws[q]], [up]) == (ws[p] + ws[q]) * up;
    OneLevelDown(ws[p], ws[q], up);
  }

  ghost function LiveWeights(f: seq<nat>, t: Merges, e: nat): (r: seq<nat>)
    requires HuffmanOf(f, t) && e < |f|
    ensures |r| == |f| - e
  {
    Live(t, |f|, e, f, t.weight)
  }

  /** The items merge e takes are the lightest waiting, and it weighs as much as both. */
  lemma TakenWeights(f: seq<nat>, t: Merges, e: nat)
    requires HuffmanOf(f, t) && e < |f| - 1
    ensures var (p, q) := TakenAt(t, |f|, e); var ws := LiveWeights(f, t, e);
      && t.weight[e] == ws[p] + ws[q]
      && (forall j :: 0 <= j < |ws| && j != p && j != q ==> ws[p] <= ws[j] && ws[q] <= ws[j])
      && LiveWeights(f, t, e + 1) == DropTwo(ws, p, q) + [ws[p] + ws[q]]
  {
    hide Merged, DropTwo;
    TakenValues(t, |f|, e, f, t.weight);
    LiveStep(t, |f|, e, f, t.weight);
    assert TakesLightest(f, t, e);
    SumShort(f, t.leafHead[e]);
    SumShort(t.weight, t.nodeHead[e]);
  }

  lemma SumStep(s: seq<nat>, lo: nat, hi: nat)
    requires lo < hi <= |s|
    ensures Sum(s, lo, hi) == s[lo] + Sum(s, lo + 1, hi)
  {
  }

  /** After the last merge only the root is left, at depth 0. */
  lemma RootLeft(t: Merges, n: nat)
    requires Complete(t, n)
    ensures LiveDepths(t, n, n - 1) == [0]
  {
    hide Merged, LeafDepths;
    HeadsAdvance(t, n, n - 1, n - 1);
    assert NodeDepths(t, n)[n - 2] == 0;
  }

  lemma CostOfRoot(w: seq<nat>, d: seq<nat>)
    requires |w| == 1 && d == [0]
    ensures Cost(w, d) == 0
  {
    assert w[1..] == [] && d[1..] == [];
  }

  lemma TreeCostEnd(f: seq<nat>, t: Merges)
    requires HuffmanOf(f, t)
    ensures Cost(LiveWeights(f, t, |f| - 1), LiveDepths(t, |f|, |f| - 1)) == Sum(t.weight, |f| - 1, |f| - 1)
  {
    hide Cost, LiveWeights, LiveDepths, Merged, Greedy;
    RootLeft(t, |f|);
    CostOfRoot(LiveWeights(f, t, |f| - 1), LiveDepths(t, |f|, |f| - 1));
  }

  /** The weighted path length of the tree is the total weight of its nodes. */
  lemma {:induction false} TreeCost(f: seq<nat>, t: Merges, e: nat)
    requires HuffmanOf(f, t) && e < |f|
    ensures Cost(LiveWeights(f, t, e), LiveDepths(t, |f|, e)) == Sum(t.weight, e, |f| - 1)
    decreases |f| - e
  {
    hide Cost, LiveWeights, LiveDepths, TakenAt, Merged, Greedy, Sum;
    var n := |f|;
    if e == n - 1 {
      TreeCostEnd(f, t);
    } else {
      SumStep(t.weight, e, n - 1);
      var (p, q) := TakenAt(t, n, e);
      TakenDepths(t, n, e);
      TakenWeights(f, t, e);
      CostOfMerge(LiveWeights(f, t, e), LiveDepths(t, n, e), p, q, Depth(t, n, e));
      TreeCost(f, t, e + 1);
    }
  }

  lemma Rearrange(lighter: nat, heavier: nat, shorter: nat, longer: nat)
    requires lighter <= heavier && shorter <= longer
    ensures lighter * longer + heavier * shorter <= lighter * shorter + heavier * longer
  {
    assert (heavier - lighter) * (longer - shorter) >= 0;
  }

  /** Giving the longer codeword to the lighter item never costs more. */
  lemma Exchange(ws: seq<nat>, lens: seq<nat>, x: nat, j: nat, max: nat) returns (swapped: seq<nat>)
    requires |ws| == |lens| && x < |ws| && j < |ws| && x != j
    requires ws[x] <= ws[j] && lens[x] <= lens[j] && Bounded(lens, max)
    ensures swapped == lens[x := lens[j]][j := lens[x]]
    ensures Cost(ws, swapped) <= Cost(ws, lens)
    ensures Bounded(swapped, max) && Kraft(swapped, max) == Kraft(lens, max)
  {
    swapped := lens[x := lens[j]][j := lens[x]];
    CostUpdate(ws, lens, x, lens[j]);
    CostUpdate(ws, lens[x := lens[j]], j, lens[x]);
    KraftUpdate(lens, x, lens[j], max);
    KraftUpdate(lens[x := lens[j]], j, lens[x], max);
    Rearrange(ws[x], ws[j], lens[x], lens[j]);
  }

  /** If two items have the greatest length, the two lightest may have it. */
  lemma LongestToLightest(ws: seq<nat>, lens: seq<nat>, p: nat, q: nat, j1: nat, j2: nat, max: nat) returns (best: seq<nat>)
    requires |ws| == |lens| && p < q < |ws| && j1 < |ws| && j2 < |ws| && j1 != j2
    requires lens[j1] == max && lens[j2] == max && Bounded(lens, max)
    requires forall j :: 0 <= j < |ws| && j != p && j != q ==> ws[p] <= ws[j] && ws[q] <= ws[j]
    ensures |best| == |ws| && Bounded(best, max) && Kraft(best, max) == Kraft(lens, max)
    ensures best[p] == best[q] == max && Cost(ws, best) <= Cost(ws, lens)
  {
    best := lens;
    if best[p] != max {
      best := Exchange(ws, best, p, if j1 == q then j2 else j1, max);
    }
    if best[q] != max {
      var j := if j1 != p && best[j1] == max then j1 else j2;
      best := Exchange(ws, best, q, j, max);
    }
  }

  /** A single longest codeword can be shortened: the codespace left over is at least as large. */
  lemma ShortenLongest(lens: seq<nat>, j: nat, max: nat)
    requires j < |lens| && lens[j] == max > 0 && Kraft(lens, max) <= Pow2(max)
    requires forall k :: 0 <= k < |lens| && k != j ==> lens[k] < max
    ensures Bounded(lens[j := max - 1], max - 1) && Kraft(lens[j := max - 1], max - 1) <= Pow2(max - 1)
  {
    KraftRemove(lens, j, max);
    assert Bounded(RemoveAt(lens, j), max - 1);
    KraftDouble(RemoveAt(lens, j), max - 1);
    KraftRemove(lens[j := max - 1], j, max - 1);
    assert RemoveAt(lens[j := max - 1], j) == RemoveAt(lens, j);
  }

  /** No assignment of lengths to the waiting items that fits the codespace costs less than the
      weight of the merges still to come. */
  lemma {:induction false} LowerBound(f: seq<nat>, t: Merges, e: nat, lens: seq<nat>, max: nat)
    requires HuffmanOf(f, t) && e < |f| && |lens| == |f| - e
    requires Bounded(lens, max) && Kraft(lens, max) <= Pow2(max)
    ensures Sum(t.weight, e, |f| - 1) <= Cost(LiveWeights(f, t, e), lens)
    decreases |f| - e, max
  {
    var n := |f|;
    var ws := LiveWeights(f, t, e);
    if e < n - 1 {
      if j1 :| 0 <= j1 < |lens| && lens[j1] == max {
        if j2 :| 0 <= j2 < |lens| && j2 != j1 && lens[j2] == max {
          LowerBoundMerge(f, t, e, lens, max, j1, j2);
        } else {
          assert lens[if j1 == 0 then 1 else 0] < max;
          ShortenLongest(lens, j1, max);
          CostUpdate(ws, lens, j1, max - 1);
          assert ws[j1] * (max - 1) <= ws[j1] * max;
          LowerBound(f, t, e, lens[j1 := max - 1], max - 1);
        }
      } else {
        assert lens[0] < max;
        KraftDouble(lens, max - 1);
        LowerBound(f, t, e, lens, max - 1);
      }
    }
  }

  lemma {:induction false} LowerBoundMerge(f: seq<nat>, t: Merges, e: nat, lens: seq<nat>, max: nat, j1: nat, j2: nat)
    requires HuffmanOf(f, t) && e < |f| - 1 && |lens| == |f| - e
    requires Bounded(lens, max) && Kraft(lens, max) <= Pow2(max)
    requires j1 < |lens| && j2 < |lens| && j1 != j2 && lens[j1] == lens[j2] == max
    ensures Sum(t.weight, e, |f| - 1) <= Cost(LiveWeights(f, t, e), lens)
    decreases |f| - e, max, 0
  {
    hide Cost, LiveWeights, TakenAt, Merged, Greedy, Sum;
    var ws := LiveWeights(f, t, e);
    var (p, q) := TakenAt(t, |f|, e);
    TakenWeights(f, t, e);
    var best := LongestToLightest(ws, lens, p, q, j1, j2, max);
    KraftDropTwo(best, p, q, max);
    assert max > 0;
    var rest := DropTwo(best, p, q);
    KraftAppend(rest, [max - 1], max);
    assert Kraft([max - 1], max) == 2;
    CostOfMerge(ws, best, p, q, max - 1);
    LowerBound(f, t, e + 1, rest + [max - 1], max);
    SumStep(t.weight, e, |f| - 1);
  }

  /** The depths of the leaves are optimal codeword lengths for the leaf weights. */
  lemma HuffmanIsOptimal(f: seq<nat>, t: Merges, lens: seq<nat>, max: nat)
    requires HuffmanOf(f, t) && |lens| == |f|
    requires Bounded(lens, max) && Kraft(lens, max) <= Pow2(max)
    ensures Cost(f, LeafDepths(t, |f|)) <= Cost(f, lens)
  {
    hide Cost, Sum, Kraft;
    TreeCost(f, t, 0);
    LowerBound(f, t, 0, lens, max);
    assert LiveWeights(f, t, 0) == f;
    assert LiveDepths(t, |f|, 0) == LeafDepths(t, |f|);
  }
}
