/** Collecting the chunks of a dataset from its B-tree: each goes to the bucket of its page, and the page counts
    its chunks and the largest mapping that any of them needs. */
module ChunkTree {
  import PagePool

  /** A chunk of compressed data in the file. */
  datatype Leaf = Leaf(address: nat, size: nat)

  /** What is found at an address: nothing, a symbol table, raw data, a node of the chunk tree, or one of a group tree. */
  datatype Node = Undefined | Symbols | RawData(leaf: Leaf) | ChunkNode(children: seq<Node>) | GroupNode

  function PageOf(leaf: Leaf, gran: nat): nat
    requires gran > 0
  {
    leaf.address / gran
  }

  /** How much of the page from its start the chunk needs mapped. */
  function Need(leaf: Leaf, gran: nat): nat
    requires gran > 0
  {
    leaf.address % gran + leaf.size
  }

  /** The chunks below a node, in the order of the tree. */
  function Leaves(node: Node): seq<Leaf> {
    match node
    case ChunkNode(children) => LeavesOf(children)
    case _ => []
  }

  function LeavesOf(children: seq<Node>): seq<Leaf> {
    if children == [] then []
    else (match children[0] case RawData(leaf) => [leaf] case _ => Leaves(children[0])) + LeavesOf(children[1..])
  }

  /** The node that a path of child numbers leads to. */
  function NodeAt(node: Node, path: seq<nat>): Node
    decreases |path|
  {
    if path == [] then node
    else if node.ChunkNode? && path[0] < |node.children| then NodeAt(node.children[path[0]], path[1..])
    else Undefined
  }

  /** A chunk is among those below a node exactly when some path leads to it. */
  lemma {:induction false} LeafByPath(node: Node, path: seq<nat>)
    requires path != [] && NodeAt(node, path).RawData?
    ensures NodeAt(node, path).leaf in Leaves(node)
    decreases |path|
  {
    ChildLeaves(node.children, path[0]);
    if |path| > 1 {
      LeafByPath(node.children[path[0]], path[1..]);
    }
  }

  lemma {:induction false} ChildLeaves(children: seq<Node>, i: nat)
    requires i < |children|
    ensures children[i].RawData? ==> children[i].leaf in LeavesOf(children)
    ensures forall x :: x in Leaves(children[i]) ==> x in LeavesOf(children)
  {
    if i > 0 { ChildLeaves(children[1..], i - 1); }
  }

  lemma {:induction false} PathToLeaf(node: Node, leaf: Leaf) returns (path: seq<nat>)
    requires leaf in Leaves(node)
    ensures path != [] && NodeAt(node, path) == RawData(leaf)
    decreases node, 1
  {
    var i, rest := ChildOfLeaf(node, node.children, leaf);
    path := [i] + rest;
  }

  lemma {:induction false} ChildOfLeaf(node: Node, children: seq<Node>, leaf: Leaf) returns (i: nat, rest: seq<nat>)
    requires leaf in LeavesOf(children) && node.ChunkNode? && forall c :: c in children ==> c in node.children
    ensures i < |children| && NodeAt(children[i], rest) == RawData(leaf)
    decreases node, 0, |children|
  {
    if children[0] == RawData(leaf) {
      i, rest := 0, [];
    } else if leaf in Leaves(children[0]) {
      i := 0;
      assert children[0] in children;
      var k :| 0 <= k < |node.children| && node.children[k] == children[0];
      rest := PathToLeaf(node.children[k], leaf);
    } else {
      i, rest := ChildOfLeaf(node, children[1..], leaf);
      i := i + 1;
    }
  }

  /** No node of a group tree is in the way. */
  predicate OnlyChunks(node: Node) {
    match node
    case GroupNode => false
    case ChunkNode(children) => AllOnlyChunks(children)
    case _ => true
  }

  predicate AllOnlyChunks(children: seq<Node>) {
    children == [] || (OnlyChunks(children[0]) && AllOnlyChunks(children[1..]))
  }

  ghost predicate InFile(leaves: seq<Leaf>, gran: nat, pages: nat)
    requires gran > 0
  {
    forall i :: 0 <= i < |leaves| ==> PageOf(leaves[i], gran) < pages
  }

  /** The chunks on page p, in order, and the largest mapping they need. */
  function OnPage(leaves: seq<Leaf>, gran: nat, p: nat): seq<Leaf>
    requires gran > 0
  {
    if leaves == [] then []
    else OnPage(leaves[..|leaves| - 1], gran, p) + (if PageOf(leaves[|leaves| - 1], gran) == p then [leaves[|leaves| - 1]] else [])
  }

  function Largest(leaves: seq<Leaf>, gran: nat, p: nat, least: nat): (r: nat)
    requires gran > 0
    ensures r >= least
    ensures forall i :: 0 <= i < |leaves| && PageOf(leaves[i], gran) == p ==> Need(leaves[i], gran) <= r
  {
    if leaves == [] then least
    else
      var last, r := leaves[|leaves| - 1], Largest(leaves[..|leaves| - 1], gran, p, least);
      if PageOf(last, gran) == p && Need(last, gran) > r then Need(last, gran) else r
  }

  /** The pages' books after these chunks, from what they held before. */
  ghost predicate Booked(totals: seq<nat>, maxes: seq<nat>, buckets: seq<seq<Leaf>>, leaves: seq<Leaf>, gran: nat,
                         totals0: seq<nat>, maxes0: seq<nat>, buckets0: seq<seq<Leaf>>)
    requires gran > 0
  {
    && |totals| == |maxes| == |buckets| == |totals0| == |maxes0| == |buckets0|
    && forall p: nat :: p < |totals| ==>
         && totals[p] == totals0[p] + |OnPage(leaves, gran, p)|
         && maxes[p] == Largest(leaves, gran, p, maxes0[p])
         && buckets[p] == buckets0[p] + OnPage(leaves, gran, p)
  }

  lemma {:induction false} OnPageAppend(a: seq<Leaf>, b: seq<Leaf>, gran: nat, p: nat, least: nat)
    requires gran > 0
    ensures OnPage(a + b, gran, p) == OnPage(a, gran, p) + OnPage(b, gran, p)
    ensures Largest(a + b, gran, p, least) == Largest(b, gran, p, Largest(a, gran, p, least))
    decreases |b|
  {
    hide PageOf, Need;
    if b == [] {
      assert a + b == a;
    } else {
      assert (a + b)[..|a + b| - 1] == a + b[..|b| - 1];
      OnPageAppend(a, b[..|b| - 1], gran, p, least);
    }
  }

  lemma BookedMore(t0: seq<nat>, m0: seq<nat>, b0: seq<seq<Leaf>>, t1: seq<nat>, m1: seq<nat>, b1: seq<seq<Leaf>>,
                   t2: seq<nat>, m2: seq<nat>, b2: seq<seq<Leaf>>, x: seq<Leaf>, y: seq<Leaf>, gran: nat)
    requires gran > 0 && Booked(t1, m1, b1, x, gran, t0, m0, b0) && Booked(t2, m2, b2, y, gran, t1, m1, b1)
    ensures Booked(t2, m2, b2, x + y, gran, t0, m0, b0)
  {
    hide PageOf, Need, OnPage, Largest;
    forall p: nat | p < |t2|
      ensures t2[p] == t0[p] + |OnPage(x + y, gran, p)| && m2[p] == Largest(x + y, gran, p, m0[p])
      ensures b2[p] == b0[p] + OnPage(x + y, gran, p)
    {
      OnPageAppend(x, y, gran, p, m0[p]);
    }
  }

  lemma BookedOne(t0: seq<nat>, m0: seq<nat>, b0: seq<seq<Leaf>>, leaf: Leaf, gran: nat, p: nat)
    requires gran > 0 && p == PageOf(leaf, gran) < |t0| == |m0| == |b0|
    ensures Booked(t0[p := t0[p] + 1], m0[p := if Need(leaf, gran) > m0[p] then Need(leaf, gran) else m0[p]], b0[p := b0[p] + [leaf]],
                   [leaf], gran, t0, m0, b0)
  {
    assert [leaf][..|[leaf]| - 1] == [];
    forall q: nat
      ensures OnPage([leaf], gran, q) == if q == p then [leaf] else []
      ensures q < |m0| ==> Largest([leaf], gran, q, m0[q]) == if q == p && Need(leaf, gran) > m0[q] then Need(leaf, gran) else m0[q]
    {
      assert OnPage([], gran, q) == [];
    }
  }

  // ---- The books in addresses ----------------------------------------------------------------

  /** The chunk starts in the page that begins at p times the granularity. */
  predicate StartsIn(leaf: Leaf, gran: nat, p: nat) { p * gran <= leaf.address < (p + 1) * gran }

  function CountIn(leaves: seq<Leaf>, gran: nat, p: nat): nat {
    if leaves == [] then 0 else CountIn(leaves[..|leaves| - 1], gran, p) + if StartsIn(leaves[|leaves| - 1], gran, p) then 1 else 0
  }

  /** Mapping sizes from the start of each page reach the last byte of every chunk that starts there, are no less than
      before, and are no greater than needed for one or the other. */
  ghost predicate PagesCovered(leaves: seq<Leaf>, gran: nat, maxes: seq<nat>, before: seq<nat>) {
    && |maxes| == |before|
    && (forall p: nat, i :: p < |maxes| && 0 <= i < |leaves| && StartsIn(leaves[i], gran, p) ==>
          leaves[i].address + leaves[i].size <= p * gran + maxes[p])
    && forall p: nat :: p < |maxes| ==> before[p] <= maxes[p] && (maxes[p] == before[p] || Attained(leaves, gran, p, maxes[p]))
  }

  ghost predicate Attained(leaves: seq<Leaf>, gran: nat, p: nat, max: nat) {
    exists i :: 0 <= i < |leaves| && StartsIn(leaves[i], gran, p) && leaves[i].address + leaves[i].size == p * gran + max
  }

  lemma PageByAddress(leaf: Leaf, gran: nat, p: nat)
    requires gran > 0
    ensures StartsIn(leaf, gran, p) <==> PageOf(leaf, gran) == p
    ensures PageOf(leaf, gran) == p ==> leaf.address + leaf.size == p * gran + Need(leaf, gran)
  {
    var q := leaf.address / gran;
    assert leaf.address == q * gran + leaf.address % gran;
    if q < p { Multiples(gran, q + 1, p); }
    if p < q { Multiples(gran, p + 1, q); }
    assert (q + 1) * gran == q * gran + gran;
  }

  lemma Multiples(gran: nat, a: nat, b: nat)
    requires a <= b
    ensures a * gran <= b * gran
  {
  }

  lemma {:induction false} CountedByAddress(leaves: seq<Leaf>, gran: nat, p: nat)
    requires gran > 0
    ensures CountIn(leaves, gran, p) == |OnPage(leaves, gran, p)|
  {
    hide PageOf, StartsIn;
    if leaves != [] {
      CountedByAddress(leaves[..|leaves| - 1], gran, p);
      PageByAddress(leaves[|leaves| - 1], gran, p);
    }
  }

  lemma {:induction false} LargestByAddress(leaves: seq<Leaf>, gran: nat, p: nat, least: nat)
    requires gran > 0
    ensures Largest(leaves, gran, p, least) == least || Attained(leaves, gran, p, Largest(leaves, gran, p, least))
  {
    hide PageOf, StartsIn, Need;
    if leaves != [] {
      var front, last := leaves[..|leaves| - 1], leaves[|leaves| - 1];
      LargestByAddress(front, gran, p, least);
      PageByAddress(last, gran, p);
      var r := Largest(front, gran, p, least);
      if Attained(front, gran, p, r) {
        var i :| 0 <= i < |front| && StartsIn(front[i], gran, p) && front[i].address + front[i].size == p * gran + r;
        assert leaves[i] == front[i];
      }
    }
  }

  ghost predicate InSomePage(leaf: Leaf, gran: nat, pages: nat) { exists p: nat :: p < pages && StartsIn(leaf, gran, p) }

  lemma LeafInPage(leaf: Leaf, gran: nat, pages: nat)
    requires gran > 0 && PageOf(leaf, gran) < pages
    ensures InSomePage(leaf, gran, pages)
  {
    hide StartsIn;
    PageByAddress(leaf, gran, PageOf(leaf, gran));
  }

  lemma CoveredByAddress(leaves: seq<Leaf>, gran: nat, maxes: seq<nat>, before: seq<nat>)
    requires gran > 0 && |maxes| == |before| && forall p: nat :: p < |maxes| ==> maxes[p] == Largest(leaves, gran, p, before[p])
    ensures PagesCovered(leaves, gran, maxes, before)
  {
    hide PageOf, Need, StartsIn, Attained, Largest;
    forall p: nat | p < |maxes|
      ensures before[p] <= maxes[p] && (maxes[p] == before[p] || Attained(leaves, gran, p, maxes[p]))
    {
      LargestByAddress(leaves, gran, p, before[p]);
    }
    forall p: nat, i | p < |maxes| && 0 <= i < |leaves| && StartsIn(leaves[i], gran, p)
      ensures leaves[i].address + leaves[i].size <= p * gran + maxes[p]
    {
      PageByAddress(leaves[i], gran, p);
    }
  }

  /** Each page has counted those of the chunks that start in it. */
  ghost predicate CountedMore(leaves: seq<Leaf>, gran: nat, totals: seq<nat>, before: seq<nat>) {
    |totals| == |before| && forall p: nat :: p < |totals| ==> totals[p] == before[p] + CountIn(leaves, gran, p)
  }

  lemma BookedByAddress(t: seq<nat>, m: seq<nat>, b: seq<seq<Leaf>>, leaves: seq<Leaf>, gran: nat, t0: seq<nat>, m0: seq<nat>, b0: seq<seq<Leaf>>)
    requires gran > 0 && Booked(t, m, b, leaves, gran, t0, m0, b0)
    ensures PagesCovered(leaves, gran, m, m0) && CountedMore(leaves, gran, t, t0)
  {
    hide PagesCovered, OnPage, CountIn, Largest;
    CoveredByAddress(leaves, gran, m, m0);
    forall p: nat | p < |t|
      ensures t[p] == t0[p] + CountIn(leaves, gran, p)
    {
      CountedByAddress(leaves, gran, p);
    }
  }

  // ---- Walking the tree ----------------------------------------------------------------------

  /** The page objects' counts and sizes, and the buckets. */
  class PageBooks {
    const gran: nat
    const totals: array<nat>
    const maxes: array<nat>
    const buckets: array<seq<Leaf>>

    constructor (gran: nat, pages: nat)
      requires gran > 0
      ensures Valid() && this.gran == gran && totals.Length == pages && fresh(totals) && fresh(maxes) && fresh(buckets)
      ensures forall p :: 0 <= p < pages ==> totals[p] == 0 && maxes[p] == 0 && buckets[p] == []
    {
      this.gran := gran;
      totals, maxes, buckets := new nat[pages](_ => 0), new nat[pages](_ => 0), new seq<Leaf>[pages](_ => []);
    }

    ghost predicate Valid() {
      gran > 0 && totals != maxes && totals.Length == maxes.Length == buckets.Length && totals as object != buckets && maxes as object != buckets
    }

    /** Enters one chunk. */
    method Enter(leaf: Leaf)
      requires Valid() && PageOf(leaf, gran) < totals.Length
      modifies totals, maxes, buckets
      ensures Booked(totals[..], maxes[..], buckets[..], [leaf], gran, old(totals[..]), old(maxes[..]), old(buckets[..]))
    {
      var p := PageOf(leaf, gran);
      ghost var t0, m0, b0 := totals[..], maxes[..], buckets[..];
      totals[p] := totals[p] + 1;
      maxes[p] := if Need(leaf, gran) > maxes[p] then Need(leaf, gran) else maxes[p];
      buckets[p] := buckets[p] + [leaf];
      BookedOne(t0, m0, b0, leaf, gran, p);
      assert totals[..] == t0[p := t0[p] + 1];
      assert maxes[..] == m0[p := if Need(leaf, gran) > m0[p] then Need(leaf, gran) else m0[p]];
      assert buckets[..] == b0[p := b0[p] + [leaf]];
    }

    /** fillNode: descends through the tree and enters every chunk; fails on a node of a group tree. */
    method FillNode(node: Node) returns (ok: bool)
      requires Valid() && InFile(Leaves(node), gran, totals.Length)
      modifies totals, maxes, buckets
      ensures ok <==> OnlyChunks(node)
      ensures ok ==> Booked(totals[..], maxes[..], buckets[..], Leaves(node), gran, old(totals[..]), old(maxes[..]), old(buckets[..]))
      ensures ok ==> PagesCovered(Leaves(node), gran, maxes[..], old(maxes[..])) && CountedMore(Leaves(node), gran, totals[..], old(totals[..]))
      decreases node, 0
    {
      hide PagesCovered, CountedMore, InFile;
      ghost var t0, m0, b0 := totals[..], maxes[..], buckets[..];
      match node {
        case GroupNode => ok := false;
        case ChunkNode(children) => ok := FillChildren(node, children);
        case _ => ok := true;
      }
      if ok { BookedByAddress(totals[..], maxes[..], buckets[..], Leaves(node), gran, t0, m0, b0); }
    }

    method FillChildren(ghost node: Node, children: seq<Node>) returns (ok: bool)
      requires Valid() && InFile(LeavesOf(children), gran, totals.Length) && node == ChunkNode(children)
      modifies totals, maxes, buckets
      ensures ok <==> AllOnlyChunks(children)
      ensures ok ==> Booked(totals[..], maxes[..], buckets[..], LeavesOf(children), gran, old(totals[..]), old(maxes[..]), old(buckets[..]))
      decreases node, 0, 1
    {
      hide Booked, InFile, LeavesOf, AllOnlyChunks, PagesCovered, CountedMore;
      ghost var t0, m0, b0 := totals[..], maxes[..], buckets[..];
      ghost var done: seq<Leaf> := [];
      BookedNone(t0, m0, b0, gran);
      assert children[0..] == children;
      var i := 0;
      while i < |children|
        invariant 0 <= i <= |children| && done + LeavesOf(children[i..]) == LeavesOf(children)
        invariant AllOnlyChunks(children) <==> AllOnlyChunks(children[i..])
        invariant Booked(totals[..], maxes[..], buckets[..], done, gran, t0, m0, b0)
      {
        ghost var t1, m1, b1 := totals[..], maxes[..], buckets[..];
        ghost var x := match children[i] case RawData(leaf) => [leaf] case _ => Leaves(children[i]);
        NextChild(children, i, done, x, gran, totals.Length);
        var sub := true;
        if children[i].RawData? {
          assert x == [children[i].leaf];
          Enter(children[i].leaf);
        } else {
          sub := FillNode(children[i]);
        }
        if !sub {
          return false;
        }
        BookedMore(t0, m0, b0, t1, m1, b1, totals[..], maxes[..], buckets[..], done, x, gran);
        done := done + x;
        i := i + 1;
      }
      NoChildLeft(children[i..], done);
      ok := true;
    }
  }

  lemma BookedNone(t0: seq<nat>, m0: seq<nat>, b0: seq<seq<Leaf>>, gran: nat)
    requires gran > 0 && |t0| == |m0| == |b0|
    ensures Booked(t0, m0, b0, [], gran, t0, m0, b0)
  {
  }

  /** The chunks of child i, x, come after those done, and lie in the file. */
  lemma NextChild(children: seq<Node>, i: nat, done: seq<Leaf>, x: seq<Leaf>, gran: nat, pages: nat)
    requires gran > 0 && i < |children| && InFile(LeavesOf(children), gran, pages)
    requires done + LeavesOf(children[i..]) == LeavesOf(children)
    requires x == match children[i] case RawData(leaf) => [leaf] case _ => Leaves(children[i])
    ensures (done + x) + LeavesOf(children[i + 1..]) == LeavesOf(children)
    ensures InFile(x, gran, pages) && (children[i].RawData? ==> PageOf(children[i].leaf, gran) < pages)
    ensures AllOnlyChunks(children[i..]) <==> OnlyChunks(children[i]) && AllOnlyChunks(children[i + 1..])
  {
    hide InFile, PageOf, Leaves;
    assert children[i..][0] == children[i] && children[i..][1..] == children[i + 1..];
    assert LeavesOf(children[i..]) == x + LeavesOf(children[i + 1..]);
    Inside(done, x, LeavesOf(children[i + 1..]), gran, pages);
    if children[i].RawData? { OneInFile(children[i].leaf, gran, pages); }
  }

  lemma OneInFile(leaf: Leaf, gran: nat, pages: nat)
    requires gran > 0
    ensures InFile([leaf], gran, pages) <==> PageOf(leaf, gran) < pages
  {
    assert [leaf][0] == leaf;
  }

  lemma NoChildLeft(rest: seq<Node>, done: seq<Leaf>)
    requires rest == []
    ensures done + LeavesOf(rest) == done && AllOnlyChunks(rest)
  {
  }

  lemma Inside(a: seq<Leaf>, x: seq<Leaf>, b: seq<Leaf>, gran: nat, pages: nat)
    requires gran > 0 && InFile(a + (x + b), gran, pages)
    ensures InFile(x, gran, pages)
  {
    forall i | 0 <= i < |x|
      ensures PageOf(x[i], gran) < pages
    {
      assert (a + (x + b))[|a| + i] == x[i];
    }
  }

  // ---- The shared queue --------------------------------------------------------------------

  /** mt_mergeQueue: the buckets one after the other. */
  function Merged(buckets: seq<seq<Leaf>>): seq<Leaf> {
    if buckets == [] then [] else Merged(buckets[..|buckets| - 1]) + buckets[|buckets| - 1]
  }

  method MergeQueue(buckets: array<seq<Leaf>>) returns (queue: seq<Leaf>)
    ensures queue == Merged(buckets[..])
  {
    queue := [];
    for i := 0 to buckets.Length
      invariant queue == Merged(buckets[..i])
    {
      assert buckets[..i + 1][..i] == buckets[..i];
      queue := queue + buckets[i];
    }
    assert buckets[..buckets.Length] == buckets[..];
  }

  /** The buckets of these chunks for the first n pages. */
  function Buckets(leaves: seq<Leaf>, gran: nat, n: nat): (r: seq<seq<Leaf>>)
    requires gran > 0
    ensures |r| == n && forall p :: 0 <= p < n ==> r[p] == OnPage(leaves, gran, p)
  {
    if n == 0 then [] else Buckets(leaves, gran, n - 1) + [OnPage(leaves, gran, n - 1)]
  }

  /** The chunks on pages below n. */
  function Below(leaves: seq<Leaf>, gran: nat, n: nat): seq<Leaf>
    requires gran > 0
  {
    if leaves == [] then []
    else Below(leaves[..|leaves| - 1], gran, n) + (if PageOf(leaves[|leaves| - 1], gran) < n then [leaves[|leaves| - 1]] else [])
  }

  lemma {:induction false} BelowNext(leaves: seq<Leaf>, gran: nat, n: nat)
    requires gran > 0
    ensures multiset(Below(leaves, gran, n + 1)) == multiset(Below(leaves, gran, n)) + multiset(OnPage(leaves, gran, n))
  {
    hide PageOf, Need;
    if leaves != [] { BelowNext(leaves[..|leaves| - 1], gran, n); }
  }

  lemma {:induction false} BelowNone(leaves: seq<Leaf>, gran: nat)
    requires gran > 0
    ensures Below(leaves, gran, 0) == []
  {
    if leaves != [] { BelowNone(leaves[..|leaves| - 1], gran); }
  }

  lemma {:induction false} BelowAll(leaves: seq<Leaf>, gran: nat, n: nat)
    requires gran > 0 && InFile(leaves, gran, n)
    ensures Below(leaves, gran, n) == leaves
  {
    hide PageOf;
    if leaves != [] {
      var front := leaves[..|leaves| - 1];
      BelowAll(front, gran, n);
      assert leaves == front + [leaves[|leaves| - 1]];
    }
  }

  lemma {:induction false} MergedBelow(leaves: seq<Leaf>, gran: nat, n: nat)
    requires gran > 0
    ensures multiset(Merged(Buckets(leaves, gran, n))) == multiset(Below(leaves, gran, n))
  {
    hide PageOf, Need;
    if n == 0 {
      BelowNone(leaves, gran);
    } else {
      var b := Buckets(leaves, gran, n);
      assert b[..n - 1] == Buckets(leaves, gran, n - 1);
      MergedBelow(leaves, gran, n - 1);
      BelowNext(leaves, gran, n - 1);
    }
  }

  /** Every chunk of the tree is queued exactly once. */
  lemma EachChunkQueued(leaves: seq<Leaf>, gran: nat, pages: nat)
    requires gran > 0 && InFile(leaves, gran, pages)
    ensures multiset(Merged(Buckets(leaves, gran, pages))) == multiset(leaves)
  {
    MergedBelow(leaves, gran, pages);
    BelowAll(leaves, gran, pages);
  }

  // ---- The state the workers start from ----------------------------------------------------

  lemma {:induction false} OnlyPage(leaves: seq<Leaf>, gran: nat, q: nat, p: nat)
    requires gran > 0
    ensures OnPage(OnPage(leaves, gran, q), gran, p) == if p == q then OnPage(leaves, gran, p) else []
  {
    hide PageOf, Need;
    if leaves != [] {
      var front, last := leaves[..|leaves| - 1], leaves[|leaves| - 1];
      OnlyPage(front, gran, q, p);
      var x := OnPage(front, gran, q);
      if PageOf(last, gran) == q { assert (x + [last])[..|x|] == x; } else { assert x + [] == x; }
    }
  }

  /** The queue holds as many chunks of a page as the page has counted. */
  lemma {:induction false} QueuedOnPage(leaves: seq<Leaf>, gran: nat, n: nat, p: nat)
    requires gran > 0
    ensures OnPage(Merged(Buckets(leaves, gran, n)), gran, p) == if p < n then OnPage(leaves, gran, p) else []
  {
    hide PageOf, Need;
    if n > 0 {
      var b := Buckets(leaves, gran, n);
      assert b[..n - 1] == Buckets(leaves, gran, n - 1);
      QueuedOnPage(leaves, gran, n - 1, p);
      OnPageAppend(Merged(b[..n - 1]), b[n - 1], gran, p, 0);
      OnlyPage(leaves, gran, n - 1, p);
    }
  }

  /** The pool's chunks are those of the queue. */
  ghost predicate FromQueue<T>(cfg: PagePool.Config<T>, queue: seq<Leaf>, gran: nat)
    requires gran > 0
  {
    |cfg.chunks| == |queue| &&
    forall c: nat :: c < |queue| ==> cfg.chunks[c].page == PageOf(queue[c], gran) && cfg.chunks[c].need == Need(queue[c], gran)
  }

  lemma {:induction false} AllUnreleased<T>(cfg: PagePool.Config<T>, queue: seq<Leaf>, gran: nat, released: seq<bool>, p: nat, n: nat)
    requires gran > 0 && FromQueue(cfg, queue, gran) && n <= |released| == |cfg.chunks| && forall c :: 0 <= c < n ==> !released[c]
    ensures PagePool.Unreleased(cfg, released, p, n) == |OnPage(queue[..n], gran, p)|
  {
    hide PageOf, Need;
    if n > 0 {
      AllUnreleased(cfg, queue, gran, released, p, n - 1);
      assert queue[..n][..n - 1] == queue[..n - 1];
    }
  }

  /** The books and the queue are what the workers' protocol starts from: each page counts its queued chunks, and
      its mapping covers every one of them. */
  lemma BooksMatchQueue<T>(cfg: PagePool.Config<T>, leaves: seq<Leaf>, gran: nat, pages: nat, released: seq<bool>, p: nat, least: nat)
    requires gran > 0 && InFile(leaves, gran, pages) && FromQueue(cfg, Merged(Buckets(leaves, gran, pages)), gran)
    requires |released| == |cfg.chunks| && (forall c :: 0 <= c < |released| ==> !released[c]) && p < pages
    ensures PagePool.Unreleased(cfg, released, p, |released|) == |OnPage(leaves, gran, p)|
    ensures forall c: nat :: c < |cfg.chunks| && cfg.chunks[c].page == p ==> cfg.chunks[c].need <= Largest(leaves, gran, p, least)
  {
    hide PageOf, Need;
    var queue := Merged(Buckets(leaves, gran, pages));
    AllUnreleased(cfg, queue, gran, released, p, |released|);
    assert queue[..|released|] == queue;
    QueuedOnPage(leaves, gran, pages, p);
    EachChunkQueued(leaves, gran, pages);
    forall c: nat | c < |cfg.chunks| && cfg.chunks[c].page == p
      ensures cfg.chunks[c].need <= Largest(leaves, gran, p, least)
    {
      assert queue[c] in multiset(queue);
      assert queue[c] in multiset(leaves);
      var i :| 0 <= i < |leaves| && leaves[i] == queue[c];
    }
  }
}
