/** How many codewords get each length: depths computed in place over the parent indices, with
    lengths above the limit replaced by splitting a shorter codeword. */
module LengthCounts {
  import opened Powers
  import opened WeightedSums
  import opened HuffmanTree
  import opened HuffmanOptimality

  /** Codespace used by counts[len] codewords of each length len >= lo, in units of the longest. */
  ghost function CountsKraft(counts: seq<nat>, lo: nat): nat
    decreases |counts| - lo
  {
    if lo >= |counts| then 0 else counts[lo] * Pow2(|counts| - 1 - lo) + CountsKraft(counts, lo + 1)
  }

  lemma {:induction false} CountsKraftBump(c: seq<nat>, lo: nat, i: nat, delta: int)
    requires i < |c| && c[i] + delta >= 0
    ensures lo <= i ==> CountsKraft(c[i := c[i] + delta], lo) == CountsKraft(c, lo) + delta * Pow2(|c| - 1 - i)
    ensures i < lo ==> CountsKraft(c[i := c[i] + delta], lo) == CountsKraft(c, lo)
    decreases |c| - lo
  {
    if lo < |c| {
      CountsKraftBump(c, lo + 1, i, delta);
    }
  }

  lemma {:induction false} SumUpdate(c: seq<nat>, lo: nat, i: nat, v: nat)
    requires i < |c| && lo <= |c|
    ensures lo <= i ==> Sum(c[i := v], lo, |c|) + c[i] == Sum(c, lo, |c|) + v
    ensures i < lo ==> Sum(c[i := v], lo, |c|) == Sum(c, lo, |c|)
    decreases |c| - lo
  {
    if lo < |c| {
      SumUpdate(c, lo + 1, i, v);
    }
  }

  /** One codeword of length len traded for two of length len + 1. */
  function Split(counts: seq<nat>, len: nat): (r: seq<nat>)
    requires len + 1 < |counts| && counts[len] > 0
    ensures |r| == |counts|
  {
    counts[len := counts[len] - 1][len + 1 := counts[len + 1] + 2]
  }

  lemma SplitConserves(c: seq<nat>, len: nat)
    requires len + 1 < |c| && c[len] > 0
    ensures CountsKraft(Split(c, len), 0) == CountsKraft(c, 0)
    ensures Sum(Split(c, len), 0, |c|) == Sum(c, 0, |c|) + 1
  {
    var d := c[len := c[len] - 1];
    assert Pow2(|c| - 1 - len) == 2 * Pow2(|c| - 2 - len);
    hide CountsKraft, Sum, Pow2;
    CountsKraftBump(c, 0, len, -1);
    CountsKraftBump(d, 0, len + 1, 2);
    SumUpdate(c, 0, len, c[len] - 1);
    SumUpdate(d, 0, len + 1, c[len + 1] + 2);
  }

  lemma {:induction false} OnlyLongest(c: seq<nat>, lo: nat)
    requires lo < |c| && forall l :: lo <= l < |c| - 1 ==> c[l] == 0
    ensures CountsKraft(c, lo) == c[|c| - 1] && Sum(c, lo, |c|) == c[|c| - 1]
    decreases |c| - lo
  {
    if lo < |c| - 1 {
      OnlyLongest(c, lo + 1);
    }
  }

  /** A code that fills its codespace with fewer than 2^max codewords has one shorter than max. */
  lemma SomeShorter(c: seq<nat>)
    requires |c| >= 1 && CountsKraft(c, 0) == Pow2(|c| - 1) && Sum(c, 0, |c|) < Pow2(|c| - 1)
    ensures !(forall l :: 0 <= l < |c| - 1 ==> c[l] == 0)
  {
    if forall l :: 0 <= l < |c| - 1 ==> c[l] == 0 {
      OnlyLongest(c, 0);
    }
  }

  lemma {:induction false} AllZero(c: seq<nat>, lo: nat)
    requires lo <= |c| && forall l :: lo <= l < |c| ==> c[l] == 0
    ensures CountsKraft(c, lo) == 0 && Sum(c, lo, |c|) == 0
    decreases |c| - lo
  {
    if lo < |c| {
      AllZero(c, lo + 1);
    }
  }

  /** Two codewords of length one fill the codespace. */
  lemma TwoOfLengthOne(c: seq<nat>)
    requires |c| >= 2 && c[1] == 2 && forall l :: 0 <= l < |c| && l != 1 ==> c[l] == 0
    ensures CountsKraft(c, 0) == Pow2(|c| - 1) && Sum(c, 0, |c|) == 2
  {
    AllZero(c, 2);
    assert CountsKraft(c, 1) == 2 * Pow2(|c| - 2);
    assert Sum(c, 1, |c|) == 2;
  }

  /** Later nodes are no deeper: parents come in index order. */
  lemma {:induction false} ParentsAscend(t: Merges, n: nat, k: nat)
    requires Complete(t, n) && k + 1 < n - 2
    ensures |t.nodeParent| == n - 2 && t.nodeParent[k] <= t.nodeParent[k + 1]
  {
    HeadsAdvance(t, n, n - 1, n - 1);
    var s := FindTaker(t.nodeHead, n - 1, k);
    var r := FindTaker(t.nodeHead, n - 1, k + 1);
    assert TakesTwo(t, n, s) && TakesTwo(t, n, r);
    if r < s {
      HeadsMonotone(t, n, r + 1, s);
    }
  }

  lemma {:induction false} HeadsMonotone(t: Merges, n: nat, a: nat, b: nat)
    requires Complete(t, n) && a <= b <= n - 1
    ensures t.nodeHead[a] <= t.nodeHead[b] && t.leafHead[a] <= t.leafHead[b]
    decreases b
  {
    if a < b {
      assert TakesTwo(t, n, b - 1);
      HeadsMonotone(t, n, a, b - 1);
    }
  }

  lemma {:induction false} DepthsDescend(t: Merges, n: nat, k: nat, l: nat)
    requires Complete(t, n) && k <= l <= n - 2
    ensures Depth(t, n, l) <= Depth(t, n, k)
    decreases n - k, l
  {
    if k < l {
      if l - 1 > k {
        DepthsDescend(t, n, k, l - 1);
        DepthsDescend(t, n, l - 1, l);
      } else if l < n - 2 {
        ParentAbove(t, n, k);
        ParentAbove(t, n, l);
        ParentsAscend(t, n, k);
        DepthsDescend(t, n, t.nodeParent[k], t.nodeParent[l]);
      }
    }
  }

  /** The counts agree with the depths of the items waiting before merge e. */
  ghost predicate CountsDepths(t: Merges, n: nat, e: nat, counts: seq<nat>)
    requires Complete(t, n) && e < n
  {
    forall d :: 0 <= d < |counts| ==> counts[d] == Count(LiveDepths(t, n, e), d)
  }

  /** Replacing node e by what it took splits a codeword of its depth. */
  lemma CountStep(t: Merges, n: nat, e: nat, counts: seq<nat>)
    requires Complete(t, n) && e < n - 1 && CountsDepths(t, n, e + 1, counts)
    requires Depth(t, n, e) + 1 < |counts|
    ensures counts[Depth(t, n, e)] > 0
    ensures CountsDepths(t, n, e, Split(counts, Depth(t, n, e)))
  {
    hide Depth, Live, TakenAt, Merged, DropTwo;
    var d := Depth(t, n, e);
    var (p, q) := TakenAt(t, n, e);
    TakenDepths(t, n, e);
    var here, next := LiveDepths(t, n, e), LiveDepths(t, n, e + 1);
    forall x
      ensures Count(next, x) == Count(DropTwo(here, p, q), x) + if x == d then 1 else 0
      ensures Count(here, x) == Count(DropTwo(here, p, q), x) + if x == d + 1 then 2 else 0
    {
      CountAppend(DropTwo(here, p, q), [d], x);
      CountDropTwo(here, p, q, x);
    }
  }

  lemma CountAtRoot(t: Merges, n: nat, counts: seq<nat>)
    requires Complete(t, n) && |counts| >= 2
    requires counts[1] == 2 && forall l :: 0 <= l < |counts| && l != 1 ==> counts[l] == 0
    ensures CountsDepths(t, n, n - 2, counts)
  {
    var (p, q) := TakenAt(t, n, n - 2);
    TakenDepths(t, n, n - 2);
    assert LiveDepths(t, n, n - 2) == [1, 1];
    forall d
      ensures Count([1, 1], d) == if d == 1 then 2 else 0
    {
      CountAppend([1], [1], d);
      assert [1, 1] == [1] + [1];
    }
  }

  /** Depths are in place from e on, parents below e. */
  ghost predicate DepthsFrom(words: seq<nat>, t: Merges, n: nat, e: nat)
    requires Complete(t, n) && |words| >= n && |t.nodeParent| == n - 2 && e < n
  {
    && (forall k :: e <= k <= n - 2 ==> High(words[k]) == Depth(t, n, k))
    && (forall k :: 0 <= k < e && k < n - 2 ==> High(words[k]) == t.nodeParent[k])
  }

  /** The lengths are counted, none of them zero, and fill the codespace exactly. */
  ghost predicate FullCounts(counts: seq<nat>, total: nat) {
    |counts| >= 2 && counts[0] == 0 && Sum(counts, 0, |counts|) == total && CountsKraft(counts, 0) == Pow2(|counts| - 1)
  }

  /** The longest nonempty length below len, or 0. */
  function LongestBelow(counts: seq<nat>, len: nat): (r: nat)
    requires len <= |counts|
    ensures r <= len && (r > 0 ==> r < len && counts[r] > 0) && forall l :: r < l < len ==> counts[l] == 0
  {
    if len <= 1 then 0 else if counts[len - 1] > 0 then len - 1 else LongestBelow(counts, len - 1)
  }

  /** The counts when the nodes from e on have been visited: a node as deep as the limit splits the longest codeword that is
      shorter. */
  ghost function CountsFrom(t: Merges, n: nat, e: nat, max: nat): (r: seq<nat>)
    requires Complete(t, n) && e <= n - 2 && max >= 1
    ensures |r| == max + 1
    decreases n - e
  {
    if e == n - 2 then seq(max + 1, l => if l == 1 then 2 else 0)
    else
      var c, d := CountsFrom(t, n, e + 1, max), Depth(t, n, e);
      var len := if d >= max then LongestBelow(c, max) else d;
      if len > 0 && len < max && c[len] > 0 then Split(c, len) else c
  }

  lemma NextCounts(t: Merges, n: nat, e: nat, max: nat, len: nat)
    requires Complete(t, n) && e < n - 2 && 1 <= len < max
    requires var c := CountsFrom(t, n, e + 1, max);
      c[len] > 0 && if Depth(t, n, e) >= max then forall l :: len < l < max ==> c[l] == 0 else len == Depth(t, n, e)
    ensures CountsFrom(t, n, e, max) == Split(CountsFrom(t, n, e + 1, max), len)
  {
    hide Depth, Split;
  }

  /** The longest nonempty length below the limit. */
  method ShorterLength(counts: array<nat>, max: nat, ghost total: nat) returns (len: nat)
    requires counts.Length == max + 1 && max >= 1
    requires total < Pow2(max) && FullCounts(counts[..], total)
    ensures 1 <= len < max && counts[len] > 0
    ensures forall l :: len < l < max ==> counts[l] == 0
  {
    SomeShorter(counts[..]);
    len := max;
    while true
      invariant 1 <= len <= max
      invariant forall l :: len <= l < max ==> counts[l] == 0
      decreases len
    {
      len := len - 1;
      if counts[len] != 0 { break; }
    }
  }

  /** What is known once the nodes from e on have been visited. */
  ghost predicate Visited(words: seq<nat>, counts: seq<nat>, t: Merges, n: nat, e: nat)
    requires Complete(t, n) && |t.nodeParent| == n - 2
  {
    && e <= n - 2 && |words| >= n
    && DepthsFrom(words, t, n, e) && FullCounts(counts, n - e)
    && (if Depth(t, n, e) < |counts| - 1 then CountsDepths(t, n, e, counts) else counts[|counts| - 1] > 0)
  }

  lemma VisitRoot(words: seq<nat>, counts: seq<nat>, t: Merges, n: nat)
    requires Complete(t, n) && |t.nodeParent| == n - 2 && n <= |words| && |counts| >= 2
    requires forall k :: 0 <= k < n - 2 ==> High(words[k]) == t.nodeParent[k]
    requires High(words[n - 2]) == 0
    requires counts[1] == 2 && forall l :: 0 <= l < |counts| && l != 1 ==> counts[l] == 0
    ensures Visited(words, counts, t, n, n - 2)
  {
    TwoOfLengthOne(counts);
    CountAtRoot(t, n, counts);
  }

  lemma VisitDepth(words: seq<nat>, counts: seq<nat>, t: Merges, n: nat, e: nat)
    requires Complete(t, n) && |t.nodeParent| == n - 2
    requires e < n - 2 && Visited(words, counts, t, n, e + 1)
    ensures e < High(words[e]) <= n - 2 && High(words[High(words[e])]) + 1 == Depth(t, n, e)
    ensures FullCounts(counts, n - (e + 1))
    ensures Depth(t, n, e) < |counts| - 1 ==> counts[Depth(t, n, e)] > 0
  {
    hide Merged, Count, CountsKraft, Sum, LiveDepths, Split, CountsDepths, FullCounts;
    ParentAbove(t, n, e);
    DepthsDescend(t, n, e, e + 1);
    if Depth(t, n, e) < |counts| - 1 {
      CountStep(t, n, e, counts);
    }
  }

  /** The first node as deep as the limit finds a codeword of the limit's length to split. */
  lemma LimitReached(t: Merges, n: nat, e: nat, counts: seq<nat>)
    requires Complete(t, n) && e < n - 2 && |counts| >= 2
    requires Depth(t, n, e + 1) < |counts| - 1 <= Depth(t, n, e) && CountsDepths(t, n, e + 1, counts)
    ensures counts[|counts| - 1] > 0
  {
    ParentAbove(t, n, e);
    DepthsDescend(t, n, e + 1, t.nodeParent[e]);
    var d := Depth(t, n, e);
    TakenDepths(t, n, e);
    var (p, q) := TakenAt(t, n, e);
    CountAppend(DropTwo(LiveDepths(t, n, e), p, q), [d], d);
  }

  lemma VisitNode(words: seq<nat>, counts: seq<nat>, t: Merges, n: nat, e: nat, len: nat)
    requires Complete(t, n) && |t.nodeParent| == n - 2
    requires e < n - 2 && Visited(words, counts, t, n, e + 1)
    requires len + 1 < |counts| && counts[len] > 0 && (Depth(t, n, e) < |counts| - 1 ==> len == Depth(t, n, e)) && len > 0
    ensures Visited(words[e := Pack(Depth(t, n, e), Low(words[e]))], Split(counts, len), t, n, e)
  {
    hide Merged, Count, CountsKraft, Sum, LiveDepths, Depth;
    DepthsDescend(t, n, e, e + 1);
    SplitConserves(counts, len);
    if Depth(t, n, e) < |counts| - 1 {
      CountStep(t, n, e, counts);
    } else if Depth(t, n, e + 1) < |counts| - 1 {
      LimitReached(t, n, e, counts);
    }
  }

  lemma VisitedAll(words: seq<nat>, counts: seq<nat>, t: Merges, n: nat)
    requires Complete(t, n) && |t.nodeParent| == n - 2 && Visited(words, counts, t, n, 0)
    ensures FullCounts(counts, n)
    ensures if LeafDepths(t, n)[0] < |counts| then CountsDepths(t, n, 0, counts) else counts[|counts| - 1] > 0
  {
    assert TakesTwo(t, n, 0);
  }

  lemma RootCounts(counts: seq<nat>, t: Merges, n: nat, max: nat)
    requires Complete(t, n) && max >= 1 && |counts| == max + 1
    requires counts[1] == 2 && forall l :: 0 <= l < |counts| && l != 1 ==> counts[l] == 0
    ensures CountsFrom(t, n, n - 2, max) == counts
  {
  }

  lemma SplitIs(counts: seq<nat>, len: nat)
    requires len + 1 < |counts| && counts[len] > 0
    ensures Split(counts, len) == counts[len := counts[len] - 1][len + 1 := counts[len + 1] + 2]
  {
  }

  method ComputeLengthCounts(a: array<nat>, root: nat, counts: array<nat>, max: nat, ghost t: Merges)
    requires Complete(t, root + 2) && |t.nodeParent| == root
    requires a != counts && root + 2 <= a.Length && root + 2 <= SYMBOL_RANGE
    requires max >= 1 && counts.Length == max + 1 && root + 2 <= Pow2(max)
    requires forall k :: 0 <= k < root ==> High(a[k]) == t.nodeParent[k]
    modifies a, counts
    ensures SameSymbols(old(a[..]), a[..], root + 1)
    ensures FullCounts(counts[..], root + 2)
    ensures if LeafDepths(t, root + 2)[0] <= max then CountsDepths(t, root + 2, 0, counts[..]) else counts[max] > 0
    ensures counts[..] == CountsFrom(t, root + 2, 0, max)
  {
    hide CountsFrom, Split, Merged, CountsDepths, FullCounts, DepthsFrom, Visited, Depth, LeafDepths, HuffmanTree.Linked;
    ghost var n := root + 2;
    for len := 0 to max + 1
      invariant forall l :: 0 <= l < len ==> counts[l] == 0
      invariant a[..] == old(a[..])
    {
      counts[len] := 0;
    }
    counts[1] := 2;

    a[root] := Low(a[root]);
    VisitRoot(a[..], counts[..], t, n);
    RootCounts(counts[..], t, n, max);
    var node: int := root - 1;
    while node >= 0
      invariant -1 <= node < root
      invariant SameSymbols(old(a[..]), a[..], root + 1) && Visited(a[..], counts[..], t, n, node + 1)
      invariant counts[..] == CountsFrom(t, n, node + 1, max)
    {
      VisitDepth(a[..], counts[..], t, n, node);
      var parent := High(a[node]);
      var parentDepth := High(a[parent]);
      var depth := parentDepth + 1;
      var len := depth;
      if len >= max {
        len := ShorterLength(counts, max, n - (node + 1));
      }
      VisitNode(a[..], counts[..], t, n, node, len);
      NextCounts(t, n, node, max, len);
      SplitIs(counts[..], len);
      ghost var words, before := a[..], counts[..];
      a[node] := Pack(depth, Low(a[node]));
      counts[len] := counts[len] - 1;
      counts[len + 1] := counts[len + 1] + 2;
      assert a[..] == words[node := Pack(Depth(t, n, node), Low(words[node]))];
      assert counts[..] == Split(before, len);
      node := node - 1;
    }
    VisitedAll(a[..], counts[..], t, n);
  }
}
