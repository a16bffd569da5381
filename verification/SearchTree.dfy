/** Binary search trees over earlier positions of a buffer, re-rooted at each new position. */
module SearchTree {
  import opened LexOrder

  datatype Tree = Nil | Node(pos: nat, left: Tree, right: Tree)

  datatype Match = Match(length: nat, offset: int)

  function Positions(t: Tree): set<nat> {
    match t
    case Nil => {}
    case Node(p, l, r) => {p} + Positions(l) + Positions(r)
  }

  ghost predicate AllBelow(data: Bytes, s: set<nat>, p: nat, n: nat) {
    forall z: nat :: z in s ==> AtMost(data, z, p, n)
  }

  ghost predicate AllAbove(data: Bytes, s: set<nat>, p: nat, n: nat) {
    forall z: nat :: z in s ==> AtMost(data, p, z, n)
  }

  /** Sorted by the first n bytes of the string at each position. */
  ghost predicate Ordered(data: Bytes, t: Tree, n: nat) {
    match t
    case Nil => true
    case Node(p, l, r) =>
      && AllBelow(data, Positions(l), p, n) && AllAbove(data, Positions(r), p, n)
      && Ordered(data, l, n) && Ordered(data, r, n)
  }

  ghost predicate Before(s: set<nat>, p: nat) { forall z: nat :: z in s ==> z < p }

  /** No position twice, and every parent is a later position than its children. */
  ghost predicate Proper(t: Tree) {
    match t
    case Nil => true
    case Node(p, l, r) =>
      && Before(Positions(l), p) && Before(Positions(r), p) && Positions(l) !! Positions(r)
      && Proper(l) && Proper(r)
  }

  lemma {:induction false} OrderedShorter(data: Bytes, t: Tree, n: nat, m: nat)
    requires Ordered(data, t, n) && m <= n
    ensures Ordered(data, t, m)
  {
    match t
    case Nil =>
    case Node(p, l, r) =>
      OrderedShorter(data, l, n, m);
      OrderedShorter(data, r, n, m);
      forall z: nat | z in Positions(l)
        ensures AtMost(data, z, p, m)
      {
        AtMostShorter(data, z, p, n, m);
      }
      forall z: nat | z in Positions(r)
        ensures AtMost(data, p, z, m)
      {
        AtMostShorter(data, p, z, n, m);
      }
  }

  // ---- Positions that left the window ------------------------------------------------------

  /** The tree without positions up to cut. */
  function Prune(t: Tree, cut: int): Tree {
    match t
    case Nil => Nil
    case Node(p, l, r) => if p <= cut then Nil else Node(p, Prune(l, cut), Prune(r, cut))
  }

  /** A parent is later than its children, so pruning drops exactly the old positions. */
  lemma {:induction false} PruneKeeps(data: Bytes, t: Tree, cut: int, n: nat)
    requires Ordered(data, t, n) && Proper(t)
    ensures forall z: nat :: z in Positions(Prune(t, cut)) <==> z in Positions(t) && z > cut
    ensures Ordered(data, Prune(t, cut), n) && Proper(Prune(t, cut))
  {
    match t
    case Nil =>
    case Node(p, l, r) =>
      PruneKeeps(data, l, cut, n);
      PruneKeeps(data, r, cut, n);
  }

  // ---- Re-rooting --------------------------------------------------------------------------

  datatype Pair = Pair(lt: Tree, gt: Tree)

  /** How a search ends: below a leaf, at a string equal to the new one on n bytes, or out of depth. */
  datatype Ending = Fell | Equal(pos: nat) | OutOfDepth

  /** Bytes on which the string at p agrees with the new one; the search goes right when p is less. */
  predicate GoesRight(data: Bytes, p: nat, cur: nat, n: nat) {
    var d := Common(data, p, cur, n);
    At(data, p, d) < At(data, cur, d)
  }

  /** The subtree in which the search goes on. */
  function Next(data: Bytes, t: Tree, cur: nat, n: nat): Tree
    requires t.Node?
  {
    if GoesRight(data, t.pos, cur, n) then t.right else t.left
  }

  /** The nodes less than and greater than the string at cur, visiting at most depth nodes. */
  function Split(data: Bytes, t: Tree, cur: nat, n: nat, depth: nat): Pair
    decreases depth
  {
    if t.Nil? || depth == 0 then Pair(Nil, Nil)
    else if Common(data, t.pos, cur, n) == n then Pair(t.left, t.right)
    else if GoesRight(data, t.pos, cur, n) then
      var s := Split(data, t.right, cur, n, depth - 1);
      Pair(Node(t.pos, t.left, s.lt), s.gt)
    else
      var s := Split(data, t.left, cur, n, depth - 1);
      Pair(s.lt, Node(t.pos, s.gt, t.right))
  }

  function EndingOf(data: Bytes, t: Tree, cur: nat, n: nat, depth: nat): Ending
    decreases depth
  {
    if t.Nil? then Fell
    else if depth == 0 then OutOfDepth
    else if Common(data, t.pos, cur, n) == n then Equal(t.pos)
    else EndingOf(data, Next(data, t, cur, n), cur, n, depth - 1)
  }

  /** The tree with the new position on top. */
  function Reroot(data: Bytes, t: Tree, cur: nat, n: nat, depth: nat): Tree {
    var s := Split(data, t, cur, n, depth);
    Node(cur, s.lt, s.gt)
  }

  /** A split yields two sorted trees on the right sides of the new string, sharing no position. */
  lemma {:induction false} SplitOrdered(data: Bytes, t: Tree, cur: nat, n: nat, depth: nat)
    requires Ordered(data, t, n) && Proper(t)
    ensures var s := Split(data, t, cur, n, depth);
            && Ordered(data, s.lt, n) && Ordered(data, s.gt, n) && Proper(s.lt) && Proper(s.gt)
            && AllBelow(data, Positions(s.lt), cur, n) && AllAbove(data, Positions(s.gt), cur, n)
            && Positions(s.lt) !! Positions(s.gt) && Positions(s.lt) + Positions(s.gt) <= Positions(t)
    decreases depth
  {
    if t.Node? && depth > 0 {
      var p, d := t.pos, Common(data, t.pos, cur, n);
      CommonMeans(data, p, cur, n);
      if d == n {
        AgreeAtMost(data, p, cur, n);
        AgreeAtMost(data, cur, p, n);
        SidesOf(data, t, cur, n);
      } else if GoesRight(data, p, cur, n) {
        SplitOrdered(data, t.right, cur, n, depth - 1);
        AgreeAtMostStrict(data, p, cur, n, d);
        AllBelowThrough(data, Positions(t.left), p, cur, n);
      } else {
        SplitOrdered(data, t.left, cur, n, depth - 1);
        AgreeAtMostStrict(data, cur, p, n, d);
        AllAboveThrough(data, Positions(t.right), p, cur, n);
      }
    }
  }

  lemma SidesOf(data: Bytes, t: Tree, cur: nat, n: nat)
    requires Ordered(data, t, n) && t.Node? && AtMost(data, t.pos, cur, n) && AtMost(data, cur, t.pos, n)
    ensures AllBelow(data, Positions(t.left), cur, n) && AllAbove(data, Positions(t.right), cur, n)
  {
    AllBelowThrough(data, Positions(t.left), t.pos, cur, n);
    AllAboveThrough(data, Positions(t.right), t.pos, cur, n);
  }

  lemma AllBelowThrough(data: Bytes, s: set<nat>, p: nat, cur: nat, n: nat)
    requires AllBelow(data, s, p, n) && AtMost(data, p, cur, n)
    ensures AllBelow(data, s, cur, n)
  {
    forall z: nat | z in s
      ensures AtMost(data, z, cur, n)
    {
      AtMostTrans(data, z, p, cur, n);
    }
  }

  lemma AllAboveThrough(data: Bytes, s: set<nat>, p: nat, cur: nat, n: nat)
    requires AllAbove(data, s, p, n) && AtMost(data, cur, p, n)
    ensures AllAbove(data, s, cur, n)
  {
    forall z: nat | z in s
      ensures AtMost(data, cur, z, n)
    {
      AtMostTrans(data, cur, p, z, n);
    }
  }

  /** The re-rooted tree is again sorted, with later positions above earlier ones. */
  lemma RerootOrdered(data: Bytes, t: Tree, cur: nat, n: nat, depth: nat)
    requires Ordered(data, t, n) && Proper(t) && Before(Positions(t), cur)
    ensures Ordered(data, Reroot(data, t, cur, n, depth), n) && Proper(Reroot(data, t, cur, n, depth))
    ensures Positions(Reroot(data, t, cur, n, depth)) <= Positions(t) + {cur}
  {
    SplitOrdered(data, t, cur, n, depth);
  }

  /** Unless the depth limit stops the search, at most the one position that equals the new string is dropped. */
  lemma {:induction false} SplitKeeps(data: Bytes, t: Tree, cur: nat, n: nat, depth: nat)
    requires Proper(t) && !EndingOf(data, t, cur, n, depth).OutOfDepth?
    ensures var s, e := Split(data, t, cur, n, depth), EndingOf(data, t, cur, n, depth);
            && (e.Equal? ==> e.pos in Positions(t) && Common(data, e.pos, cur, n) == n)
            && Positions(s.lt) + Positions(s.gt) == Positions(t) - (if e.Equal? then {e.pos} else {})
    decreases depth
  {
    if t.Node? && Common(data, t.pos, cur, n) == n {
      assert t.pos !in Positions(t.left) && t.pos !in Positions(t.right);
    } else if t.Node? {
      var next := Next(data, t, cur, n);
      SplitKeeps(data, next, cur, n, depth - 1);
      var s, e := Split(data, next, cur, n, depth - 1), EndingOf(data, next, cur, n, depth - 1);
      var gone := if e.Equal? then {e.pos} else {};
      assert gone <= Positions(next) && t.pos !in gone;
      var side := if GoesRight(data, t.pos, cur, n) then t.left else t.right;
      assert Positions(t) == Positions(next) + ({t.pos} + Positions(side)) && gone !! Positions(side);
      WithoutOne(Positions(next), {t.pos} + Positions(side), gone);
      assert Positions(Split(data, t, cur, n, depth).lt) + Positions(Split(data, t, cur, n, depth).gt)
          == Positions(s.lt) + Positions(s.gt) + ({t.pos} + Positions(side));
    }
  }

  lemma WithoutOne(s: set<nat>, others: set<nat>, gone: set<nat>)
    requires others !! gone
    ensures s - gone + others == s + others - gone
  {
  }

  // ---- The matches found on the way --------------------------------------------------------

  /** The matches longer than every earlier one on the search path, stopping at one of length n. */
  function Found(data: Bytes, t: Tree, cur: nat, n: nat, max: nat, depth: nat, best: nat): seq<Match>
    decreases depth
  {
    if t.Nil? || depth == 0 then []
    else
      var len := Common(data, t.pos, cur, max);
      var here := if len > best then [Match(len, cur - t.pos)] else [];
      if len >= n then here
      else here + Found(data, Next(data, t, cur, n), cur, n, max, depth - 1, Longer(len, best))
  }

  /** An earlier place where the bytes are the same. */
  ghost predicate TrueMatch(data: Bytes, cur: nat, m: Match, max: nat) {
    0 < m.offset <= cur && m.length <= max && Agree(data, cur - m.offset, cur, m.length)
  }

  ghost predicate TrueMatches(data: Bytes, cur: nat, ms: seq<Match>, max: nat) {
    forall k :: 0 <= k < |ms| ==> TrueMatch(data, cur, ms[k], max)
  }

  /** Longer matches come later and are further back. */
  ghost predicate Increasing(ms: seq<Match>) {
    forall j, k :: 0 <= j < k < |ms| ==> ms[j].length < ms[k].length && ms[j].offset < ms[k].offset
  }

  function Longer(a: nat, b: nat): (r: nat) { if a > b then a else b }

  /** A match longer than best, at a position of s. */
  ghost predicate FromTree(s: set<nat>, cur: nat, m: Match, best: nat) {
    m.length > best && m.offset <= cur && cur - m.offset in s
  }

  ghost predicate AllFromTree(s: set<nat>, cur: nat, ms: seq<Match>, best: nat) {
    forall k :: 0 <= k < |ms| ==> FromTree(s, cur, ms[k], best)
  }

  lemma NextInside(data: Bytes, t: Tree, cur: nat, n: nat)
    requires t.Node? && Proper(t)
    ensures Proper(Next(data, t, cur, n)) && Before(Positions(Next(data, t, cur, n)), t.pos)
    ensures Positions(Next(data, t, cur, n)) <= Positions(t)
  {
  }

  /** Every recorded match is real, longer than best, and in the tree; lengths and offsets increase. */
  lemma {:induction false} FoundAreMatches(data: Bytes, t: Tree, cur: nat, n: nat, max: nat, depth: nat, best: nat)
    requires Proper(t) && Before(Positions(t), cur)
    ensures TrueMatches(data, cur, Found(data, t, cur, n, max, depth, best), max)
    ensures Increasing(Found(data, t, cur, n, max, depth, best))
    ensures AllFromTree(Positions(t), cur, Found(data, t, cur, n, max, depth, best), best)
    decreases depth
  {
    if t.Node? && depth > 0 {
      var len, next := Common(data, t.pos, cur, max), Next(data, t, cur, n);
      CommonMeans(data, t.pos, cur, max);
      NextInside(data, t, cur, n);
      FoundAreMatches(data, next, cur, n, max, depth - 1, Longer(len, best));
      var m, g := Match(len, cur - t.pos), Found(data, next, cur, n, max, depth - 1, Longer(len, best));
      assert TrueMatch(data, cur, m, max);
      assert t.pos in Positions(t);
      FromTreeLarger(Positions(next), Positions(t), cur, g, Longer(len, best), best);
      if len > best && len < n {
        FirstIncreases(Positions(next), cur, m, g, len);
      }
    }
  }

  lemma FromTreeLarger(s: set<nat>, larger: set<nat>, cur: nat, ms: seq<Match>, best: nat, lower: nat)
    requires AllFromTree(s, cur, ms, best) && s <= larger && lower <= best
    ensures AllFromTree(larger, cur, ms, lower)
  {
    forall k | 0 <= k < |ms|
      ensures FromTree(larger, cur, ms[k], lower)
    {
      assert FromTree(s, cur, ms[k], best);
    }
  }

  lemma FirstIncreases(s: set<nat>, cur: nat, m: Match, ms: seq<Match>, len: nat)
    requires AllFromTree(s, cur, ms, len) && Increasing(ms) && m.length == len
    requires m.offset <= cur && Before(s, cur - m.offset)
    ensures Increasing([m] + ms)
  {
    var all := [m] + ms;
    forall j, k | 0 <= j < k < |all|
      ensures all[j].length < all[k].length && all[j].offset < all[k].offset
    {
      assert FromTree(s, cur, ms[k - 1], len);
    }
  }

  /** There is room for a match of every length above best that is less than n, and for one more. */
  lemma {:induction false} FoundCount(data: Bytes, t: Tree, cur: nat, n: nat, max: nat, depth: nat, best: nat)
    requires best < n
    ensures |Found(data, t, cur, n, max, depth, best)| <= n - best
    decreases depth
  {
    if t.Node? && depth > 0 && Common(data, t.pos, cur, max) < n {
      FoundCount(data, Next(data, t, cur, n), cur, n, max, depth - 1, Longer(Common(data, t.pos, cur, max), best));
    }
  }

  /** A recorded match at least as long as what z offers, and no further back. */
  ghost predicate Covered(data: Bytes, z: nat, cur: nat, n: nat, best: nat, ms: seq<Match>) {
    Common(data, z, cur, n) <= best || exists k :: 0 <= k < |ms| && Covers(data, z, cur, n, ms[k])
  }

  ghost predicate Covers(data: Bytes, z: nat, cur: nat, n: nat, m: Match) {
    m.length >= Common(data, z, cur, n) && m.offset <= cur - z
  }

  /** Unless the depth limit stops the search, no position of the tree offers a longer or a nearer match
      of more than best bytes than the ones recorded. */
  lemma {:induction false} FoundCoversAll(data: Bytes, t: Tree, cur: nat, n: nat, max: nat, depth: nat, best: nat, z: nat)
    requires Ordered(data, t, n) && Proper(t) && n <= max
    requires !EndingOf(data, t, cur, n, depth).OutOfDepth? && z in Positions(t)
    ensures Covered(data, z, cur, n, best, Found(data, t, cur, n, max, depth, best))
    decreases depth
  {
    hide Found, Covered, Ordered, Proper, Positions, GoesRight;
    OrderedNext(data, t, cur, n);
    if EndsHere(data, t, cur, n, max, z) {
      HeadCovers(data, t, cur, n, max, depth, best, z);
    } else {
      CommonShorter(data, t.pos, cur, max, n);
      FoundCoversAll(data, Next(data, t, cur, n), cur, n, max, depth - 1, Longer(Common(data, t.pos, cur, max), best), z);
      TailCovers(data, t, cur, n, max, depth, best, z);
    }
  }

  lemma OrderedNext(data: Bytes, t: Tree, cur: nat, n: nat)
    requires Ordered(data, t, n) && Proper(t)
    ensures t.Node? ==> Ordered(data, Next(data, t, cur, n), n) && Proper(Next(data, t, cur, n))
    ensures t.Nil? ==> Positions(t) == {}
  {
  }

  /** The search stops at this node, or turns away from z. */
  predicate EndsHere(data: Bytes, t: Tree, cur: nat, n: nat, max: nat, z: nat)
    requires t.Node?
  {
    Common(data, t.pos, cur, max) >= n || z !in Positions(Next(data, t, cur, n))
  }

  lemma HeadCovers(data: Bytes, t: Tree, cur: nat, n: nat, max: nat, depth: nat, best: nat, z: nat)
    requires t.Node? && Ordered(data, t, n) && Proper(t) && n <= max && z in Positions(t) && depth > 0
    requires EndsHere(data, t, cur, n, max, z)
    ensures Covered(data, z, cur, n, best, Found(data, t, cur, n, max, depth, best))
  {
    hide Ordered, Proper, Positions, GoesRight;
    var len, f := Common(data, t.pos, cur, max), Found(data, t, cur, n, max, depth, best);
    CommonShorter(data, t.pos, cur, max, n);
    NotFurther(data, t, cur, n, z);
    if len > best { assert f[0] == Match(len, cur - t.pos) && Covers(data, z, cur, n, f[0]); }
  }

  lemma TailCovers(data: Bytes, t: Tree, cur: nat, n: nat, max: nat, depth: nat, best: nat, z: nat)
    requires t.Node? && depth > 0 && Common(data, t.pos, cur, max) < n && Proper(t)
    requires z in Positions(Next(data, t, cur, n))
    requires var longer := Longer(Common(data, t.pos, cur, max), best);
             Covered(data, z, cur, n, longer, Found(data, Next(data, t, cur, n), cur, n, max, depth - 1, longer))
    ensures Covered(data, z, cur, n, best, Found(data, t, cur, n, max, depth, best))
  {
    NextInside(data, t, cur, n);
    hide Ordered, Proper, Positions, GoesRight;
    var len, next := Common(data, t.pos, cur, max), Next(data, t, cur, n);
    var f, g := Found(data, t, cur, n, max, depth, best), Found(data, next, cur, n, max, depth - 1, Longer(len, best));
    if Common(data, z, cur, n) <= Longer(len, best) {
      if len > best { assert f[0] == Match(len, cur - t.pos) && Covers(data, z, cur, n, f[0]); }
    } else {
      var k :| 0 <= k < |g| && Covers(data, z, cur, n, g[k]);
      assert f[|f| - |g| + k] == g[k];
    }
  }

  /** Off the search path nothing agrees with the new string longer than the node where the path turned. */
  lemma NotFurther(data: Bytes, t: Tree, cur: nat, n: nat, z: nat)
    requires t.Node? && Ordered(data, t, n) && Proper(t) && z in Positions(t)
    requires var d := Common(data, t.pos, cur, n);
             d < n ==> z !in Positions(Next(data, t, cur, n))
    ensures Common(data, z, cur, n) <= Common(data, t.pos, cur, n) && z <= t.pos
  {
    var p, d := t.pos, Common(data, t.pos, cur, n);
    CommonMeans(data, p, cur, n);
    if d < n && z != p {
      if GoesRight(data, p, cur, n) {
        BelowAgreesLess(data, z, p, cur, n, d);
      } else {
        AboveAgreesLess(data, z, p, cur, n, d);
      }
    }
  }

  // ---- The depth limit ---------------------------------------------------------------------

  /** The positions that a search without limit meets. */
  function Path(data: Bytes, t: Tree, cur: nat, n: nat): seq<nat> {
    if t.Nil? then []
    else if Common(data, t.pos, cur, n) == n then [t.pos]
    else [t.pos] + Path(data, Next(data, t, cur, n), cur, n)
  }

  /** The limit stops a search exactly when the path has more positions than that, and no tree has a longer path than it has
      positions. */
  lemma {:induction false} OutOfDepthIff(data: Bytes, t: Tree, cur: nat, n: nat, depth: nat)
    requires Proper(t)
    ensures EndingOf(data, t, cur, n, depth).OutOfDepth? <==> |Path(data, t, cur, n)| > depth
    ensures |Path(data, t, cur, n)| <= |Positions(t)|
    decreases t
  {
    if t.Node? {
      var next := Next(data, t, cur, n);
      NextInside(data, t, cur, n);
      OutOfDepthIff(data, next, cur, n, if depth > 0 then depth - 1 else 0);
      FewerBelow(data, t, cur, n);
    }
  }

  lemma FewerBelow(data: Bytes, t: Tree, cur: nat, n: nat)
    requires t.Node? && Proper(t)
    ensures 1 + |Positions(Next(data, t, cur, n))| <= |Positions(t)|
  {
    var s := Positions(Next(data, t, cur, n));
    assert t.pos !in s && s + {t.pos} <= Positions(t);
    Smaller(s + {t.pos}, Positions(t));
  }

  lemma {:induction false} Smaller(a: set<nat>, b: set<nat>)
    requires a <= b
    ensures |a| <= |b|
  {
    if x :| x in a {
      Smaller(a - {x}, b - {x});
    }
  }

  /** Whatever the limit, each position that is met offers no longer and no nearer match than the ones recorded. */
  lemma {:induction false} MetAreCovered(data: Bytes, t: Tree, cur: nat, n: nat, max: nat, depth: nat, best: nat, i: nat)
    requires Proper(t) && n <= max && i < |Path(data, t, cur, n)| && i < depth
    ensures Covered(data, Path(data, t, cur, n)[i], cur, n, best, Found(data, t, cur, n, max, depth, best))
    ensures Path(data, t, cur, n)[i] in Positions(t)
    decreases depth
  {
    hide Covered, GoesRight;
    CommonShorter(data, t.pos, cur, max, n);
    if i == 0 {
      RootCovered(data, t, cur, n, max, depth, best);
    } else {
      NextInside(data, t, cur, n);
      MetAreCovered(data, Next(data, t, cur, n), cur, n, max, depth - 1, Longer(Common(data, t.pos, cur, max), best), i - 1);
      TailCovers(data, t, cur, n, max, depth, best, Path(data, t, cur, n)[i]);
    }
  }

  lemma RootCovered(data: Bytes, t: Tree, cur: nat, n: nat, max: nat, depth: nat, best: nat)
    requires t.Node? && n <= max && depth > 0
    ensures Covered(data, t.pos, cur, n, best, Found(data, t, cur, n, max, depth, best))
  {
    CommonShorter(data, t.pos, cur, max, n);
    var len, f := Common(data, t.pos, cur, max), Found(data, t, cur, n, max, depth, best);
    if len > best { assert f[0] == Match(len, cur - t.pos) && Covers(data, t.pos, cur, n, f[0]); }
  }

  /** What a search out of depth has not come to. */
  function Rest(data: Bytes, t: Tree, cur: nat, n: nat, depth: nat): Tree
    decreases depth
  {
    if t.Nil? || depth == 0 then t else if Common(data, t.pos, cur, n) == n then Nil else Rest(data, Next(data, t, cur, n), cur, n, depth - 1)
  }

  /** Re-rooting drops just that, and the position equal to the new string. */
  lemma {:induction false} SplitDrops(data: Bytes, t: Tree, cur: nat, n: nat, depth: nat, z: nat)
    requires Proper(t)
    ensures var s, e := Split(data, t, cur, n, depth), EndingOf(data, t, cur, n, depth);
      z in Positions(s.lt) || z in Positions(s.gt) <==> z in Positions(t) && z !in Positions(Rest(data, t, cur, n, depth)) && e != Equal(z)
    ensures z in Positions(Rest(data, t, cur, n, depth)) || EndingOf(data, t, cur, n, depth) == Equal(z) ==> z in Positions(t)
    decreases depth
  {
    if t.Node? && depth > 0 && Common(data, t.pos, cur, n) != n {
      SplitDrops(data, Next(data, t, cur, n), cur, n, depth - 1, z);
    }
  }
}
