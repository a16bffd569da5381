/** The invariant of the binary-tree matchfinder's table, and what one advance does to it. */
module BtForest {
  import opened LexOrder
  import opened SearchTree
  import opened TreeMemory
  import opened BtSearch
  import opened BtHeads
  import LzExtend

  type Trees = s: seq<Tree> | |s| == BUCKETS witness seq(BUCKETS, i => Nil)

  /** The root link of bucket h holds the tree t, sorted by n bytes, of positions in the window before next. */
  ghost predicate Bucket(data: Bytes, mem: Memory, base: int, next: nat, n: nat, h: nat, t: Tree)
    requires h < BUCKETS
  {
    Holds(mem, base, next - WINDOW, Root(h), t) && Ordered(data, t, n) && Proper(t) && InWindow(t, next)
  }

  ghost predicate AllBuckets(data: Bytes, mem: Memory, base: int, next: nat, n: nat, trees: Trees) {
    forall h: nat :: h < BUCKETS ==> Bucket(data, mem, base, next, n, h, trees[h])
  }

  /** No position is in two trees. */
  ghost predicate Unshared(trees: Trees) {
    forall g: nat, h: nat :: g < h < BUCKETS ==> Positions(trees[g]) !! Positions(trees[h])
  }

  /** The later (way 0) or earlier (way 1) position kept for a 3-byte hash. */
  function Entry(mem: Memory, base: int, b: nat, way: nat): int
    requires b < BUCKETS && way < 2
  {
    base + mem[2 * b + way]
  }

  ghost predicate EarlierOrOld(next: nat, p: int) { p <= next - WINDOW || 0 <= p < next }

  /** The 3-byte buckets hold earlier positions or ones outside the window. */
  ghost predicate EntriesEarlier(mem: Memory, base: int, next: nat) {
    forall s: Slot :: s < ROOTS ==> EarlierOrOld(next, base + mem[s])
  }

  /** Position z is still in its 3-byte bucket, or later ones are. */
  ghost predicate Fresh(data: Bytes, mem: Memory, base: int, z: nat) {
    var b := LzExtend.Hash3(data, z);
    Entry(mem, base, b, 0) == z || (Entry(mem, base, b, 1) >= z && Entry(mem, base, b, 0) >= Entry(mem, base, b, 1))
  }

  /** Position 0 is filed under hash 0, whatever its bytes: the stream starts with zero hashes. */
  ghost predicate AllFresh(data: Bytes, mem: Memory, base: int, trees: Trees) {
    forall h: nat, z: nat :: h < BUCKETS && z in Positions(trees[h]) && z > 0 ==> Fresh(data, mem, base, z)
  }

  ghost predicate Forest(data: Bytes, mem: Memory, base: int, next: nat, n: nat, trees: Trees) {
    && Short(mem) && AllBuckets(data, mem, base, next, n, trees) && Unshared(trees)
    && EntriesEarlier(mem, base, next) && AllFresh(data, mem, base, trees) && Heads(data, mem, base, next)
  }

  // ---- One advance -------------------------------------------------------------------------

  /** Position cur entered into bucket h, and the position that leaves the window dropped everywhere. */
  function Advanced(data: Bytes, trees: Trees, h: nat, cur: nat, n: nat, depth: nat): (r: Trees)
    requires h < BUCKETS
    ensures forall g: nat :: g < BUCKETS ==>
      r[g] == Prune(if g == h then Reroot(data, trees[h], cur, n, depth) else trees[g], cur + 1 - WINDOW)
  {
    seq(BUCKETS, g requires 0 <= g < BUCKETS =>
      Prune(if g == h then Reroot(data, trees[h], cur, n, depth) else trees[g], cur + 1 - WINDOW))
  }

  /** The links after the advance: the new root, its two subtrees and the 3-byte bucket b are written. */
  ghost predicate Written(mem: Memory, now: Memory, k: Task, h: nat, b: nat)
    requires h < BUCKETS && b < BUCKETS
  {
    && Short(now) && k.base + now[Root(h)] == k.cur && Rerooted(now, k)
    && Entry(now, k.base, b, 0) == k.cur && Entry(now, k.base, b, 1) == Entry(mem, k.base, b, 0)
    && forall s: Slot :: s !in NewSlots(k.tree, k.cur) + {Root(h), 2 * b, 2 * b + 1} ==> now[s] == mem[s]
  }

  /** The three hash table writes that come before the search. */
  function Hashed(mem: Memory, base: int, cur: nat, h: nat, b: nat): (r: Memory)
    requires h < BUCKETS && b < BUCKETS
  {
    mem[2 * b := cur - base][2 * b + 1 := mem[2 * b]][Root(h) := cur - base]
  }

  /** They leave the tree's links alone. */
  lemma TreeAfterHashed(mem: Memory, k: Task, h: nat, b: nat)
    requires h < BUCKETS && b < BUCKETS && Bucket(k.data, mem, k.base, k.cur, k.n, h, k.tree)
    ensures k.tree.Nil? ==> k.base + mem[Root(h)] <= Cut(k)
    ensures k.tree.Node? ==> k.base + mem[Root(h)] == k.tree.pos && Cut(k) < k.tree.pos
    ensures k.tree.Node? ==>
      && Holds(Hashed(mem, k.base, k.cur, h, b), k.base, Cut(k), Left(k.tree.pos), k.tree.left)
      && Holds(Hashed(mem, k.base, k.cur, h, b), k.base, Cut(k), Right(k.tree.pos), k.tree.right)
  {
    SlotsAreChildren(k.tree);
    if k.tree.Node? {
      assert Slots(k.tree.left) <= Slots(k.tree) && Slots(k.tree.right) <= Slots(k.tree);
      HoldsSame(mem, Hashed(mem, k.base, k.cur, h, b), k.base, Cut(k), Left(k.tree.pos), k.tree.left);
      HoldsSame(mem, Hashed(mem, k.base, k.cur, h, b), k.base, Cut(k), Right(k.tree.pos), k.tree.right);
    }
  }

  lemma SearchStarts(mem: Memory, k: Task, h: nat, b: nat)
    requires h < BUCKETS && b < BUCKETS && Bucket(k.data, mem, k.base, k.cur, k.n, h, k.tree) && k.tree.Node?
    requires Short(mem) && 3 < k.n && k.depth > 0 && k.base <= k.cur < k.base + WINDOW
    ensures var m := Hashed(mem, k.base, k.cur, h, b);
            && Linking(m, m, k, Begin(k)) && Looking(k, Begin(k))
            && LtEnd(k, Begin(k)) == Left(k.cur) && GtEnd(k, Begin(k)) == Right(k.cur)
  {
    hide Holds, Looking, Linking, Slots;
    TreeAfterHashed(mem, k, h, b);
    Start(Hashed(mem, k.base, k.cur, h, b), k);
  }

  lemma SearchEnds(mem: Memory, now: Memory, k: Task, h: nat, b: nat)
    requires h < BUCKETS && b < BUCKETS && Rerooted(now, k) && Short(now)
    requires Elsewhere(now, Hashed(mem, k.base, k.cur, h, b), NewSlots(k.tree, k.cur))
    ensures Written(mem, now, k, h, b)
  {
    SlotsAreChildren(k.tree);
  }

  /** A bucket with nothing in the window: the new root gets two empty links. */
  lemma EmptyEnds(mem: Memory, now: Memory, k: Task, h: nat, b: nat)
    requires h < BUCKETS && b < BUCKETS && k.tree.Nil? && Short(now) && k.base <= k.cur
    requires now == Hashed(mem, k.base, k.cur, h, b)[Left(k.cur) := -WINDOW][Right(k.cur) := -WINDOW]
    ensures Written(mem, now, k, h, b)
  {
    SearchEnds(mem, now, k, h, b);
  }

  lemma {:induction false} SlotsAreChildren(t: Tree)
    ensures forall s :: s in Slots(t) ==> s >= CHILDREN
  {
    if t.Node? {
      SlotsAreChildren(t.left);
      SlotsAreChildren(t.right);
    }
  }

  /** The slots of another tree are not the ones that are written. */
  lemma OtherSlots(k: Task, t: Tree)
    requires InWindow(t, k.cur) && InWindow(k.tree, k.cur) && Positions(t) !! Positions(k.tree)
    ensures forall s :: s in Slots(t) ==> s >= CHILDREN && s !in NewSlots(k.tree, k.cur)
  {
    Apart(t, k.tree, k.cur);
    NotOwned(t, k.cur, k.cur);
    SlotsAreChildren(t);
  }

  /** Another bucket keeps its tree, up to the position that leaves the window. */
  lemma OtherBucket(mem: Memory, now: Memory, k: Task, h: nat, b: nat, n: nat, g: nat, t: Tree)
    requires h < BUCKETS && b < BUCKETS && g < BUCKETS && g != h && Written(mem, now, k, h, b)
    requires Bucket(k.data, mem, k.base, k.cur, n, g, t)
    requires InWindow(k.tree, k.cur) && Positions(t) !! Positions(k.tree)
    ensures Bucket(k.data, now, k.base, k.cur + 1, n, g, Prune(t, k.cur + 1 - WINDOW))
  {
    hide Holds, Slots, Ordered, Proper, Prune, Rerooted, Short, Entry;
    var later := k.cur + 1 - WINDOW;
    OtherSlots(k, t);
    SlotsAreChildren(k.tree);
    HoldsSame(mem, now, k.base, Cut(k), Root(g), t);
    HoldsPruned(now, k.base, Cut(k), Root(g), t, later);
    PruneKeeps(k.data, t, later, n);
  }

  lemma NewBucket(mem: Memory, now: Memory, k: Task, h: nat, b: nat)
    requires h < BUCKETS && b < BUCKETS && Written(mem, now, k, h, b)
    requires Ordered(k.data, k.tree, k.n) && Proper(k.tree) && InWindow(k.tree, k.cur)
    ensures Bucket(k.data, now, k.base, k.cur + 1, k.n, h, Prune(Reroot(k.data, k.tree, k.cur, k.n, k.depth), k.cur + 1 - WINDOW))
  {
    var later, t := k.cur + 1 - WINDOW, Reroot(k.data, k.tree, k.cur, k.n, k.depth);
    RerootOrdered(k.data, k.tree, k.cur, k.n, k.depth);
    HoldsPruned(now, k.base, Cut(k), Root(h), t, later);
    PruneKeeps(k.data, t, later, k.n);
  }

  /** The positions after the advance: old ones and the new one, in its bucket. */
  lemma AdvancedPositions(data: Bytes, mem: Memory, base: int, cur: nat, n: nat, trees: Trees, h: nat, depth: nat, g: nat)
    requires h < BUCKETS && g < BUCKETS && AllBuckets(data, mem, base, cur, n, trees)
    ensures Positions(Advanced(data, trees, h, cur, n, depth)[g]) <= Positions(trees[g]) + (if g == h then {cur} else {})
  {
    assert Bucket(data, mem, base, cur, n, g, trees[g]);
    var t := if g == h then Reroot(data, trees[h], cur, n, depth) else trees[g];
    if g == h { RerootOrdered(data, trees[h], cur, n, depth); }
    PruneKeeps(data, t, cur + 1 - WINDOW, n);
  }

  lemma UnsharedAdvanced(data: Bytes, mem: Memory, base: int, cur: nat, n: nat, trees: Trees, h: nat, depth: nat)
    requires h < BUCKETS && AllBuckets(data, mem, base, cur, n, trees) && Unshared(trees)
    ensures Unshared(Advanced(data, trees, h, cur, n, depth))
  {
    hide Advanced;
    var r := Advanced(data, trees, h, cur, n, depth);
    forall f: nat, g: nat | f < g < BUCKETS
      ensures Positions(r[f]) !! Positions(r[g])
    {
      AdvancedPositions(data, mem, base, cur, n, trees, h, depth, f);
      AdvancedPositions(data, mem, base, cur, n, trees, h, depth, g);
      assert Bucket(data, mem, base, cur, n, f, trees[f]) && Bucket(data, mem, base, cur, n, g, trees[g]);
      assert Positions(trees[f]) !! Positions(trees[g]);
    }
  }

  lemma EntryKept(mem: Memory, now: Memory, k: Task, h: nat, b: nat, c: nat, way: nat)
    requires h < BUCKETS && b < BUCKETS && c < BUCKETS && way < 2 && c != b && Written(mem, now, k, h, b)
    ensures Entry(now, k.base, c, way) == Entry(mem, k.base, c, way)
  {
    SlotsAreChildren(k.tree);
  }

  lemma EntriesAdvanced(mem: Memory, now: Memory, k: Task, h: nat, b: nat)
    requires h < BUCKETS && b < BUCKETS && Written(mem, now, k, h, b) && EntriesEarlier(mem, k.base, k.cur)
    ensures EntriesEarlier(now, k.base, k.cur + 1)
  {
    SlotsAreChildren(k.tree);
    forall s: Slot | s < ROOTS
      ensures EarlierOrOld(k.cur + 1, k.base + now[s])
    {
      assert EarlierOrOld(k.cur, k.base + mem[s]) && EarlierOrOld(k.cur, Entry(mem, k.base, b, 0));
    }
  }

  lemma FreshKept(mem: Memory, now: Memory, k: Task, h: nat, b: nat, z: nat)
    requires h < BUCKETS && b < BUCKETS && Written(mem, now, k, h, b) && EntriesEarlier(mem, k.base, k.cur)
    requires Fresh(k.data, mem, k.base, z) && k.cur - WINDOW < z < k.cur
    ensures Fresh(k.data, now, k.base, z)
  {
    var c := LzExtend.Hash3(k.data, z);
    if c != b {
      EntryKept(mem, now, k, h, b, c, 0);
      EntryKept(mem, now, k, h, b, c, 1);
    } else {
      assert EarlierOrOld(k.cur, Entry(mem, k.base, b, 0));
    }
  }

  lemma FreshAdvanced(mem: Memory, now: Memory, k: Task, h: nat, b: nat, trees: Trees)
    requires h < BUCKETS && b < BUCKETS && Written(mem, now, k, h, b) && EntriesEarlier(mem, k.base, k.cur)
    requires k.tree == trees[h] && AllBuckets(k.data, mem, k.base, k.cur, k.n, trees)
    requires AllFresh(k.data, mem, k.base, trees) && (k.cur > 0 ==> b == LzExtend.Hash3(k.data, k.cur))
    ensures AllFresh(k.data, now, k.base, Advanced(k.data, trees, h, k.cur, k.n, k.depth))
  {
    hide Advanced, Written, Fresh, EntriesEarlier;
    var r := Advanced(k.data, trees, h, k.cur, k.n, k.depth);
    forall g: nat, z: nat | g < BUCKETS && z in Positions(r[g]) && z > 0
      ensures Fresh(k.data, now, k.base, z)
    {
      AdvancedPositions(k.data, mem, k.base, k.cur, k.n, trees, h, k.depth, g);
      assert Bucket(k.data, mem, k.base, k.cur, k.n, g, trees[g]);
      if z in Positions(trees[g]) {
        FreshKept(mem, now, k, h, b, z);
      } else {
        NewestFresh(mem, now, k, h, b);
      }
    }
  }

  lemma NewestFresh(mem: Memory, now: Memory, k: Task, h: nat, b: nat)
    requires h < BUCKETS && b < BUCKETS && Written(mem, now, k, h, b) && b == LzExtend.Hash3(k.data, k.cur)
    ensures Fresh(k.data, now, k.base, k.cur)
  {
  }

  /** The advance keeps the whole invariant, for the next position. */
  lemma ForestAdvanced(mem: Memory, now: Memory, k: Task, h: nat, b: nat, trees: Trees)
    requires h < BUCKETS && b < BUCKETS && Written(mem, now, k, h, b) && k.tree == trees[h]
    requires Forest(k.data, mem, k.base, k.cur, k.n, trees) && b == Filed3(k.data, k.cur) && k.base <= k.cur < k.base + WINDOW
    ensures Forest(k.data, now, k.base, k.cur + 1, k.n, Advanced(k.data, trees, h, k.cur, k.n, k.depth))
  {
    hide Advanced, Unshared, AllFresh, EntriesEarlier, Heads;
    var r := Advanced(k.data, trees, h, k.cur, k.n, k.depth);
    HeadsAdvanced(mem, now, k, h, b);
    EntriesAdvanced(mem, now, k, h, b);
    FreshAdvanced(mem, now, k, h, b, trees);
    UnsharedAdvanced(k.data, mem, k.base, k.cur, k.n, trees, h, k.depth);
    forall g: nat | g < BUCKETS
      ensures Bucket(k.data, now, k.base, k.cur + 1, k.n, g, r[g])
    {
      BucketAdvanced(mem, now, k, h, b, trees, g);
    }
  }

  lemma HeadsAdvanced(mem: Memory, now: Memory, k: Task, h: nat, b: nat)
    requires h < BUCKETS && b < BUCKETS && Written(mem, now, k, h, b) && Heads(k.data, mem, k.base, k.cur)
    requires b == Filed3(k.data, k.cur) && k.base <= k.cur < k.base + WINDOW
    ensures Heads(k.data, now, k.base, k.cur + 1)
  {
    hide Heads, Filed3;
    SlotsAreChildren(k.tree);
    HeadsNext(k.data, mem, now, k.base, k.cur, b);
  }

  lemma BucketAdvanced(mem: Memory, now: Memory, k: Task, h: nat, b: nat, trees: Trees, g: nat)
    requires h < BUCKETS && b < BUCKETS && g < BUCKETS && Written(mem, now, k, h, b) && k.tree == trees[h]
    requires AllBuckets(k.data, mem, k.base, k.cur, k.n, trees) && Unshared(trees)
    ensures Bucket(k.data, now, k.base, k.cur + 1, k.n, g, Advanced(k.data, trees, h, k.cur, k.n, k.depth)[g])
  {
    hide Advanced, Written;
    assert Bucket(k.data, mem, k.base, k.cur, k.n, g, trees[g]) && Bucket(k.data, mem, k.base, k.cur, k.n, h, trees[h]);
    if g == h {
      NewBucket(mem, now, k, h, b);
    } else {
      assert Positions(trees[g]) !! Positions(trees[h]);
      OtherBucket(mem, now, k, h, b, k.n, g, trees[g]);
    }
  }

  /** A shorter sort length and a base one window further on keep the invariant. */
  lemma ForestShorter(data: Bytes, mem: Memory, base: int, next: nat, n: nat, m: nat, trees: Trees)
    requires Forest(data, mem, base, next, n, trees) && m <= n
    ensures Forest(data, mem, base, next, m, trees)
  {
    hide Unshared, AllFresh, EntriesEarlier, Heads;
    forall h: nat | h < BUCKETS
      ensures Bucket(data, mem, base, next, m, h, trees[h])
    {
      assert Bucket(data, mem, base, next, n, h, trees[h]);
      OrderedShorter(data, trees[h], n, m);
    }
  }

  lemma ForestRebased(data: Bytes, mem: Memory, now: Memory, base: nat, n: nat, trees: Trees)
    requires Forest(data, mem, base, base + WINDOW, n, trees) && IsRebased(mem, now)
    ensures Forest(data, now, base + WINDOW, base + WINDOW, n, trees)
  {
    forall h: nat | h < BUCKETS
      ensures Bucket(data, now, base + WINDOW, base + WINDOW, n, h, trees[h])
    {
      assert Bucket(data, mem, base, base + WINDOW, n, h, trees[h]);
      HoldsRebased(mem, now, base, base, Root(h), trees[h]);
    }
    EntriesRebased(mem, now, base);
    HeadsRebased(data, mem, now, base, base + WINDOW);
    forall h: nat, z: nat | h < BUCKETS && z in Positions(trees[h]) && z > 0
      ensures Fresh(data, now, base + WINDOW, z)
    {
      assert Bucket(data, mem, base, base + WINDOW, n, h, trees[h]);
      assert Fresh(data, mem, base, z);
    }
  }

  lemma EntriesRebased(mem: Memory, now: Memory, base: nat)
    requires EntriesEarlier(mem, base, base + WINDOW) && IsRebased(mem, now)
    ensures EntriesEarlier(now, base + WINDOW, base + WINDOW)
  {
    forall s: Slot | s < ROOTS
      ensures EarlierOrOld(base + WINDOW, base + WINDOW + now[s])
    {
      assert EarlierOrOld(base + WINDOW, base + mem[s]);
    }
  }

  // ---- What is reported --------------------------------------------------------------------

  /** The match of length 3 offered by the 3-byte bucket: its later position first, then its earlier one. */
  function HashMatch(data: Bytes, mem: Memory, base: int, cur: nat, b: nat): seq<Match>
    requires b < BUCKETS
  {
    var e0, e1 := Entry(mem, base, b, 0), Entry(mem, base, b, 1);
    if e0 <= cur - WINDOW || e0 < 0 then []
    else if LzExtend.Word(data, e0, 3) == LzExtend.Word(data, cur, 3) then [Match(3, cur - e0)]
    else if e1 > cur - WINDOW && e1 >= 0 && LzExtend.Word(data, e1, 3) == LzExtend.Word(data, cur, 3) then [Match(3, cur - e1)]
    else []
  }

  /** It is the one that the buffer alone determines. */
  lemma HashMatchIs(data: Bytes, mem: Memory, base: int, cur: nat, b: nat)
    requires b < BUCKETS && Heads(data, mem, base, cur) && b == Filed3(data, cur) && base <= cur < base + WINDOW
    ensures HashMatch(data, mem, base, cur, b) == ThreeByteMatch(data, cur)
  {
    hide Filed3;
    var z, y := Newest(data, b, cur), Second(data, b, cur);
    assert mem[2 * b] == Kept(base, z) && mem[2 * b + 1] == Kept(base, y);
    if Near(cur, z) { SameThree(data, z, cur); }
    if Near(cur, y) { SameThree(data, y, cur); }
  }

  lemma SameThree(data: Bytes, a: nat, b: nat)
    ensures LzExtend.Word(data, a, 3) == LzExtend.Word(data, b, 3) <==> Agree(data, a, b, 3)
  {
    LzExtend.WordsDiffer(data, a, b, 3);
    CommonMeans(data, a, b, 3);
    if Agree(data, a, b, 3) { CommonIs(data, a, b, 3, 3); }
  }

  lemma HashMatchIsTrue(data: Bytes, mem: Memory, base: int, cur: nat, b: nat, max: nat)
    requires b < BUCKETS && max >= 3 && EntriesEarlier(mem, base, cur)
    ensures TrueMatches(data, cur, HashMatch(data, mem, base, cur, b), max)
    ensures forall k :: 0 <= k < |HashMatch(data, mem, base, cur, b)| ==>
      HashMatch(data, mem, base, cur, b)[k].length == 3 && HashMatch(data, mem, base, cur, b)[k].offset < WINDOW
  {
    assert EarlierOrOld(cur, Entry(mem, base, b, 0)) && EarlierOrOld(cur, Entry(mem, base, b, 1));
    var f := HashMatch(data, mem, base, cur, b);
    if f != [] {
      var z := cur - f[0].offset;
      LzExtend.WordsDiffer(data, z, cur, 3);
      CommonMeans(data, z, cur, 3);
    }
  }

  /** No string of the tree with the same 3 bytes is nearer than the one the 3-byte bucket offers. */
  lemma HashMatchIsNearest(data: Bytes, mem: Memory, base: int, cur: nat, b: nat, z: nat)
    requires b < BUCKETS && EntriesEarlier(mem, base, cur)
    requires z < cur && (z > 0 ==> Fresh(data, mem, base, z) && b == LzExtend.Hash3(data, cur)) && Agree(data, z, cur, 3)
    ensures HashMatch(data, mem, base, cur, b) != [] ==> HashMatch(data, mem, base, cur, b)[0].offset <= cur - z
  {
    assert EarlierOrOld(cur, Entry(mem, base, b, 0)) && EarlierOrOld(cur, Entry(mem, base, b, 1));
    LzExtend.SameHash3(data, z, cur, 3);
    LzExtend.WordsDiffer(data, z, cur, 3);
    CommonIs(data, z, cur, 3, 3);
  }

  /** Longer matches come later and are at least as far back. */
  ghost predicate Sorted(ms: seq<Match>) {
    forall j, k :: 0 <= j < k < |ms| ==> ms[j].length < ms[k].length && ms[j].offset <= ms[k].offset
  }

  ghost predicate InReach(ms: seq<Match>) { forall k :: 0 <= k < |ms| ==> 1 <= ms[k].offset < WINDOW && ms[k].length >= 3 }

  /** The report as its callers may rely on it. */
  ghost predicate GoodReport(data: Bytes, cur: nat, ms: seq<Match>, max: nat, n: nat) {
    TrueMatches(data, cur, ms, max) && Sorted(ms) && InReach(ms) && |ms| <= n - 2
  }

  lemma ReportIsGood(mem: Memory, k: Task, h: nat, b: nat, trees: Trees)
    requires h < BUCKETS && b < BUCKETS && k.tree == trees[h] && 3 < k.n <= k.max
    requires Forest(k.data, mem, k.base, k.cur, k.n, trees) && (k.cur > 0 ==> b == LzExtend.Hash3(k.data, k.cur))
    requires k.first == HashMatch(k.data, mem, k.base, k.cur, b)
    ensures GoodReport(k.data, k.cur, Result(k), k.max, k.n)
  {
    hide Holds, Slots, Found, HashMatch, Ordered, Fresh, TrueMatch, TrueMatches, GoodReport, Unshared, AllFresh, EntriesEarlier, Proper, Positions;
    assert Bucket(k.data, mem, k.base, k.cur, k.n, h, k.tree);
    var f := Found(k.data, k.tree, k.cur, k.n, k.max, k.depth, 3);
    InWindowBefore(k.tree, k.cur);
    FoundAreMatches(k.data, k.tree, k.cur, k.n, k.max, k.depth, 3);
    FoundCount(k.data, k.tree, k.cur, k.n, k.max, k.depth, 3);
    HashMatchIsTrue(k.data, mem, k.base, k.cur, b, k.max);
    forall i | 0 <= i < |f|
      ensures FollowsFirst(k.first, f[i])
    {
      assert FromTree(Positions(k.tree), k.cur, f[i], 3);
      TrueOne(k.data, k.cur, f, k.max, i);
      FoundOneIsGood(mem, k, h, b, trees, f[i]);
    }
    HashMatchIsOne(k.data, mem, k.base, k.cur, b);
    OneAndMore(k, k.first, f);
  }

  lemma InWindowBefore(t: Tree, next: nat)
    requires InWindow(t, next)
    ensures Before(Positions(t), next)
  {
  }

  lemma TrueOne(data: Bytes, cur: nat, ms: seq<Match>, max: nat, i: nat)
    requires TrueMatches(data, cur, ms, max) && i < |ms|
    ensures TrueMatch(data, cur, ms[i], max)
  {
  }

  ghost predicate FollowsFirst(first: seq<Match>, m: Match) {
    1 <= m.offset < WINDOW && m.length > 3 && (first != [] ==> first[0].offset <= m.offset)
  }

  lemma OneAndMore(k: Task, first: seq<Match>, f: seq<Match>)
    requires TrueMatches(k.data, k.cur, first, k.max) && TrueMatches(k.data, k.cur, f, k.max) && Increasing(f)
    requires |first| <= 1 && (first != [] ==> first[0].length == 3 && first[0].offset < WINDOW)
    requires (forall i :: 0 <= i < |f| ==> FollowsFirst(first, f[i])) && |f| <= k.n - 3
    ensures GoodReport(k.data, k.cur, first + f, k.max, k.n)
  {
    hide Agree;
    if first != [] { TrueOne(k.data, k.cur, first, k.max, 0); }
  }

  lemma HashMatchIsOne(data: Bytes, mem: Memory, base: int, cur: nat, b: nat)
    requires b < BUCKETS
    ensures |HashMatch(data, mem, base, cur, b)| <= 1
  {
  }

  lemma FoundOneIsGood(mem: Memory, k: Task, h: nat, b: nat, trees: Trees, m: Match)
    requires h < BUCKETS && b < BUCKETS && k.tree == trees[h]
    requires Forest(k.data, mem, k.base, k.cur, k.n, trees) && (k.cur > 0 ==> b == LzExtend.Hash3(k.data, k.cur))
    requires FromTree(Positions(k.tree), k.cur, m, 3) && TrueMatch(k.data, k.cur, m, k.max)
    ensures FollowsFirst(HashMatch(k.data, mem, k.base, k.cur, b), m)
  {
    assert Bucket(k.data, mem, k.base, k.cur, k.n, h, k.tree);
    var z := k.cur - m.offset;
    assert Agree(k.data, z, k.cur, 3);
    HashMatchIsNearest(k.data, mem, k.base, k.cur, b, z);
  }

  /** Unless the depth limit stops the search, no position of the bucket offers a match of four or more bytes
      that is longer, or as long and nearer, than what is reported. */
  lemma ReportIsBest(data: Bytes, mem: Memory, base: int, cur: nat, n: nat, trees: Trees, h: nat, max: nat, depth: nat, first: seq<Match>, z: nat)
    requires h < BUCKETS && Forest(data, mem, base, cur, n, trees) && 3 < n <= max
    requires !EndingOf(data, trees[h], cur, n, depth).OutOfDepth? && z in Positions(trees[h])
    ensures Covered(data, z, cur, n, 3, first + Found(data, trees[h], cur, n, max, depth, 3))
  {
    hide Holds, Slots, Found, Covers;
    assert Bucket(data, mem, base, cur, n, h, trees[h]);
    FoundCoversAll(data, trees[h], cur, n, max, depth, 3, z);
    var f := Found(data, trees[h], cur, n, max, depth, 3);
    if Common(data, z, cur, n) > 3 {
      var k :| 0 <= k < |f| && Covers(data, z, cur, n, f[k]);
      assert (first + f)[|first| + k] == f[k];
    }
  }
}
