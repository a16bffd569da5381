/** One search of a binary tree for the string at the current position, re-rooting the tree on the way. */
module BtSearch {
  import opened LexOrder
  import opened SearchTree
  import opened TreeMemory
  import LzExtend

  /** A search: split tree at the string at cur, whose order looks at n bytes; match up to max bytes; visit at
      most depth nodes; when recording, list the matches after the first ones. */
  datatype Task = Task(data: Bytes, base: nat, tree: Tree, cur: nat, n: nat, max: nat, depth: nat, record: bool, first: seq<Match>)

  /** How far it has come: the nodes linked on either side, the subtree and depth left, the nodes nearest below
      and above with their match lengths, the matches and the best length. */
  datatype Point = Point(lt: seq<Turn>, gt: seq<Turn>, rest: Tree, left: nat, lo: nat, loLen: nat, hi: nat, hiLen: nat,
                         ms: seq<Match>, best: nat)

  function Begin(k: Task): Point { Point([], [], k.tree, k.depth, 0, 0, 0, 0, k.first, 3) }

  function Cut(k: Task): int { k.cur - WINDOW }

  function Recorded(k: Task, p: Point, len: nat): seq<Match>
    requires p.rest.Node?
  {
    if k.record && len > p.best then p.ms + [Match(len, k.cur - p.rest.pos)] else p.ms
  }

  function BetterOf(k: Task, p: Point, len: nat): nat { if k.record then Longer(len, p.best) else p.best }

  /** Past a node that matches on len bytes. */
  function Past(k: Task, p: Point, len: nat): Point
    requires p.rest.Node? && p.left > 0
  {
    if GoesRight(k.data, p.rest.pos, k.cur, k.n) then
      Point(p.lt + [Turn(p.rest.pos, p.rest.left)], p.gt, p.rest.right, p.left - 1, p.rest.pos, len, p.hi, p.hiLen,
            Recorded(k, p, len), BetterOf(k, p, len))
    else
      Point(p.lt, p.gt + [Turn(p.rest.pos, p.rest.right)], p.rest.left, p.left - 1, p.lo, p.loLen, p.rest.pos, len,
            Recorded(k, p, len), BetterOf(k, p, len))
  }

  lemma PastFields(k: Task, p: Point, len: nat)
    requires p.rest.Node? && p.left > 0
    ensures Past(k, p, len).left == p.left - 1
    ensures Past(k, p, len).ms == Recorded(k, p, len) && Past(k, p, len).best == BetterOf(k, p, len)
    ensures Past(k, p, len).loLen == if GoesRight(k.data, p.rest.pos, k.cur, k.n) then len else p.loLen
    ensures Past(k, p, len).hiLen == if GoesRight(k.data, p.rest.pos, k.cur, k.n) then p.hiLen else len
  {
  }

  // ---- The strings still ahead -------------------------------------------------------------

  /** All strings in rest lie between one that shares loLen bytes with the new string and one that shares hiLen. */
  ghost predicate Fenced(k: Task, p: Point) {
    && p.loLen < k.n && p.hiLen < k.n
    && (p.loLen > 0 ==> Agree(k.data, p.lo, k.cur, p.loLen) && AllAbove(k.data, Positions(p.rest), p.lo, k.n))
    && (p.hiLen > 0 ==> Agree(k.data, p.hi, k.cur, p.hiLen) && AllBelow(k.data, Positions(p.rest), p.hi, k.n))
  }

  /** Skipping the bytes common to both fences is sound. */
  lemma FencedAgree(k: Task, p: Point, z: nat, len: nat)
    requires Fenced(k, p) && z in Positions(p.rest) && len <= p.loLen && len <= p.hiLen
    ensures Agree(k.data, z, k.cur, len)
  {
    if len > 0 {
      Between(k.data, p.lo, z, p.hi, k.cur, k.n, len);
    }
  }

  ghost predicate Ahead(k: Task, p: Point) {
    && Ordered(k.data, p.rest, k.n) && Proper(p.rest) && Before(Positions(p.rest), k.cur)
    && Fenced(k, p)
  }

  lemma AheadPast(k: Task, p: Point, len: nat)
    requires p.rest.Node? && p.left > 0 && Ahead(k, p) && len == Common(k.data, p.rest.pos, k.cur, k.n) < k.n
    ensures Ahead(k, Past(k, p, len))
  {
    CommonMeans(k.data, p.rest.pos, k.cur, k.n);
  }

  /** The two halves still to be linked complete what has been linked so far. */
  ghost predicate Completes(k: Task, p: Point) {
    && Fill(p.lt, true, Split(k.data, p.rest, k.cur, k.n, p.left).lt) == Split(k.data, k.tree, k.cur, k.n, k.depth).lt
    && Fill(p.gt, false, Split(k.data, p.rest, k.cur, k.n, p.left).gt) == Split(k.data, k.tree, k.cur, k.n, k.depth).gt
  }

  function Result(k: Task): seq<Match> { k.first + Found(k.data, k.tree, k.cur, k.n, k.max, k.depth, 3) }

  /** The list is the tree's matches as far as the search has come. */
  ghost predicate FoundSoFar(k: Task, p: Point) {
    Result(k) == p.ms + Found(k.data, p.rest, k.cur, k.n, k.max, p.left, p.best)
  }

  /** Length of the last match recorded beyond the first ones, or 3. */
  function BestOf(first: seq<Match>, ms: seq<Match>): nat {
    if |ms| <= |first| then 3 else ms[|ms| - 1].length
  }

  ghost predicate Recording(k: Task, p: Point) {
    if k.record then
      && FoundSoFar(k, p)
      && p.best == BestOf(k.first, p.ms) && |p.ms| >= |k.first| && p.loLen <= p.best && p.hiLen <= p.best
    else p.ms == k.first && p.best == 3
  }

  /** The matches the search owes. */
  ghost predicate Delivers(k: Task, ms: seq<Match>, best: nat) {
    if k.record then ms == Result(k) && best == BestOf(k.first, ms) else ms == k.first && best == 3
  }

  lemma RecordingPast(k: Task, p: Point, len: nat)
    requires Recording(k, p) && p.rest.Node? && p.left > 0 && len == Common(k.data, p.rest.pos, k.cur, k.max)
    ensures len >= k.n ==> Delivers(k, Recorded(k, p, len), BetterOf(k, p, len))
    ensures len < k.n ==> Recording(k, Past(k, p, len))
  {
    hide Common, Result, GoesRight;
    if len < k.n && k.record {
      FoundUnfold(k, p, len);
    }
  }

  lemma FoundUnfold(k: Task, p: Point, len: nat)
    requires p.rest.Node? && p.left > 0 && len == Common(k.data, p.rest.pos, k.cur, k.max) < k.n && k.record
    ensures p.ms + Found(k.data, p.rest, k.cur, k.n, k.max, p.left, p.best)
         == Recorded(k, p, len) + Found(k.data, Past(k, p, len).rest, k.cur, k.n, k.max, p.left - 1, BetterOf(k, p, len))
  {
    hide Common, GoesRight;
  }

  ghost predicate Looking(k: Task, p: Point) {
    Ahead(k, p) && Recording(k, p) && Completes(k, p) && p.best < k.n
  }

  lemma LookAt(k: Task, p: Point, len: nat)
    requires Looking(k, p) && p.rest.Node? && len <= p.loLen && len <= p.hiLen
    ensures Agree(k.data, p.rest.pos, k.cur, len) && p.rest.pos < k.cur && len < k.n && (k.record ==> len <= p.best)
  {
    assert p.rest.pos in Positions(p.rest);
    FencedAgree(k, p, p.rest.pos, len);
  }

  lemma LookPast(k: Task, p: Point, len: nat)
    requires Looking(k, p) && p.rest.Node? && p.left > 0 && k.n <= k.max
    requires len == Common(k.data, p.rest.pos, k.cur, k.max)
    ensures len >= k.n ==>
      Delivers(k, Recorded(k, p, len), BetterOf(k, p, len)) && Common(k.data, p.rest.pos, k.cur, k.n) == k.n
    ensures len < k.n ==> Common(k.data, p.rest.pos, k.cur, k.n) == len && Ahead(k, Past(k, p, len))
    ensures len < k.n ==> Recording(k, Past(k, p, len)) && Past(k, p, len).best < k.n && Completes(k, p)
  {
    hide Ahead, Recording, Completes, GoesRight, Common;
    CommonShorter(k.data, p.rest.pos, k.cur, k.max, k.n);
    RecordingPast(k, p, len);
    if len < k.n { AheadPast(k, p, len); }
  }

  lemma LookOn(k: Task, p: Point, curNode: int)
    requires Ahead(k, p) && Recording(k, p) && Completes(k, p) && p.best < k.n && LeadsTo(k, curNode, p.rest)
    ensures Looking(k, p)
    ensures if p.rest.Nil? then k.base + curNode <= k.cur - WINDOW else k.base + curNode == p.rest.pos && k.cur - WINDOW < p.rest.pos
  {
  }

  lemma LookedAll(k: Task, p: Point)
    requires Looking(k, p) && (p.rest.Nil? || p.left == 0)
    ensures Delivers(k, p.ms, p.best)
  {
  }

  // ---- The links ---------------------------------------------------------------------------

  ghost predicate Short(mem: Memory) { forall s: Slot :: -WINDOW <= mem[s] < WINDOW }

  /** Both halves of the split hang under the new root. */
  ghost predicate Rerooted(mem: Memory, k: Task) {
    && Holds(mem, k.base, Cut(k), Left(k.cur), Split(k.data, k.tree, k.cur, k.n, k.depth).lt)
    && Holds(mem, k.base, Cut(k), Right(k.cur), Split(k.data, k.tree, k.cur, k.n, k.depth).gt)
  }

  function NewSlots(t: Tree, cur: nat): set<Slot> { Slots(t) + {Left(cur), Right(cur)} }

  ghost predicate Elsewhere(mem: Memory, other: Memory, s: set<Slot>) { forall x: Slot :: x !in s ==> mem[x] == other[x] }

  function LtEnd(k: Task, p: Point): Slot { LtOpen(k.cur, p.lt) }
  function GtEnd(k: Task, p: Point): Slot { GtOpen(k.cur, p.gt) }

  /** What the loop keeps about the links. */
  ghost predicate Linking(mem: Memory, before: Memory, k: Task, p: Point) {
    && Short(mem) && Searching(mem, k.base, Cut(k), k.cur, p.lt, p.gt, p.rest)
    && AllSlots(k.cur, p.lt, p.gt, p.rest) <= NewSlots(k.tree, k.cur) && Elsewhere(mem, before, NewSlots(k.tree, k.cur))
  }

  /** The search begins with the whole tree ahead and nothing linked yet. */
  lemma Start(mem: Memory, k: Task)
    requires Short(mem) && k.tree.Node? && 3 < k.n && k.depth > 0
    requires Ordered(k.data, k.tree, k.n) && Proper(k.tree) && InWindow(k.tree, k.cur)
    requires Holds(mem, k.base, Cut(k), Left(k.tree.pos), k.tree.left) && Holds(mem, k.base, Cut(k), Right(k.tree.pos), k.tree.right)
    ensures Linking(mem, mem, k, Begin(k)) && Looking(k, Begin(k))
    ensures LtEnd(k, Begin(k)) == Left(k.cur) && GtEnd(k, Begin(k)) == Right(k.cur)
  {
    hide Holds, Separate, Found;
    StartSlots(k);
    assert k.tree.pos in Positions(k.tree);
  }

  lemma StartSlots(k: Task)
    requires Proper(k.tree) && InWindow(k.tree, k.cur)
    ensures Separate(k.tree) && Left(k.cur) != Right(k.cur) && Left(k.cur) !in Slots(k.tree) && Right(k.cur) !in Slots(k.tree)
  {
    ProperSeparate(k.tree, k.cur);
    NotOwned(k.tree, k.cur, k.cur);
    assert Right(k.cur) == Left(k.cur) + 1;
  }

  /** At a node: its links are not the open ones. */
  lemma LinkAt(mem: Memory, before: Memory, k: Task, p: Point)
    requires Linking(mem, before, k, p) && p.rest.Node?
    ensures -WINDOW <= mem[Left(p.rest.pos)] < WINDOW && -WINDOW <= mem[Right(p.rest.pos)] < WINDOW && k.cur - WINDOW < p.rest.pos
    ensures LtEnd(k, p) !in {Left(p.rest.pos), Right(p.rest.pos), GtEnd(k, p)}
    ensures GtEnd(k, p) !in {Left(p.rest.pos), Right(p.rest.pos)}
  {
    assert {Left(p.rest.pos), Right(p.rest.pos)} <= Slots(p.rest);
  }

  /** A link with this value is empty exactly when the tree is, and else leads to its root. */
  ghost predicate LeadsTo(k: Task, v: int, t: Tree) {
    if t.Nil? then k.base + v <= Cut(k) else k.base + v == t.pos && Cut(k) < t.pos
  }

  lemma LinkRight(mem: Memory, before: Memory, other: Memory, k: Task, p: Point, len: nat)
    requires Linking(mem, before, k, p) && p.rest.Node? && p.left > 0 && Completes(k, p) && -WINDOW <= p.rest.pos - k.base < WINDOW
    requires other == mem[LtEnd(k, p) := p.rest.pos - k.base]
    requires GoesRight(k.data, p.rest.pos, k.cur, k.n) && Common(k.data, p.rest.pos, k.cur, k.n) < k.n
    ensures Linking(other, before, k, Past(k, p, len)) && Completes(k, Past(k, p, len))
    ensures LtEnd(k, Past(k, p, len)) == Right(p.rest.pos) && GtEnd(k, Past(k, p, len)) == GtEnd(k, p)
    ensures LeadsTo(k, other[Right(p.rest.pos)], Past(k, p, len).rest)
  {
    hide Searching, Holds, NewSlots, Fill;
    TurnRight(mem, other, k.base, Cut(k), k.cur, p.lt, p.gt, p.rest);
    SubtreeHeld(other, k.base, Cut(k), Right(p.rest.pos), p.rest.right);
    assert LtEnd(k, p) in AllSlots(k.cur, p.lt, p.gt, p.rest);
  }

  lemma LinkLeft(mem: Memory, before: Memory, other: Memory, k: Task, p: Point, len: nat)
    requires Linking(mem, before, k, p) && p.rest.Node? && p.left > 0 && Completes(k, p) && -WINDOW <= p.rest.pos - k.base < WINDOW
    requires other == mem[GtEnd(k, p) := p.rest.pos - k.base]
    requires !GoesRight(k.data, p.rest.pos, k.cur, k.n) && Common(k.data, p.rest.pos, k.cur, k.n) < k.n
    ensures Linking(other, before, k, Past(k, p, len)) && Completes(k, Past(k, p, len))
    ensures GtEnd(k, Past(k, p, len)) == Left(p.rest.pos) && LtEnd(k, Past(k, p, len)) == LtEnd(k, p)
    ensures LeadsTo(k, other[Left(p.rest.pos)], Past(k, p, len).rest)
  {
    hide Searching, Holds, NewSlots, Fill;
    TurnLeft(mem, other, k.base, Cut(k), k.cur, p.lt, p.gt, p.rest);
    SubtreeHeld(other, k.base, Cut(k), Left(p.rest.pos), p.rest.left);
    assert GtEnd(k, p) in AllSlots(k.cur, p.lt, p.gt, p.rest);
  }

  /** The values of the last two links: both empty, or those of a node that equals the new string. */
  ghost predicate LastLinks(mem: Memory, k: Task, p: Point, a: int, b: int) {
    || ((p.rest.Nil? || p.left == 0) && a == b && k.base + a <= Cut(k))
    || (p.rest.Node? && p.left > 0 && Common(k.data, p.rest.pos, k.cur, k.n) == k.n && a == mem[Left(p.rest.pos)] && b == mem[Right(p.rest.pos)])
  }

  lemma LinkBoth(mem: Memory, before: Memory, other: Memory, k: Task, p: Point, a: int, b: int)
    requires Linking(mem, before, k, p) && Completes(k, p) && LastLinks(mem, k, p, a, b)
    requires other == mem[LtEnd(k, p) := a][GtEnd(k, p) := b] && -WINDOW <= a < WINDOW && -WINDOW <= b < WINDOW
    ensures Rerooted(other, k) && Short(other) && Elsewhere(other, before, NewSlots(k.tree, k.cur))
  {
    hide Searching, Holds, Fill;
    assert {LtEnd(k, p), GtEnd(k, p)} <= AllSlots(k.cur, p.lt, p.gt, p.rest);
    if p.rest.Nil? || p.left == 0 {
      LinkedEmpty(mem, other, k.base, Cut(k), k.cur, p.lt, p.gt, p.rest, a);
    } else {
      LinkedChildren(mem, other, k.base, Cut(k), k.cur, p.lt, p.gt, p.rest);
    }
  }

  // ---- The search --------------------------------------------------------------------------

  /** The byte after a common prefix: equal, or the first that differs. */
  lemma CompareByte(data: Bytes, z: nat, cur: nat, k: nat, max: nat)
    requires z + k < |data| && cur + k < |data| && k < max && Agree(data, z, cur, k)
    ensures data[z + k] == data[cur + k] ==> Agree(data, z, cur, k + 1)
    ensures data[z + k] != data[cur + k] ==> Common(data, z, cur, max) == k
  {
    if data[z + k] != data[cur + k] { CommonIs(data, z, cur, max, k); }
  }

  /** The byte after the whole match decides the way. */
  lemma DecidingByte(k: Task, z: nat, len: nat)
    requires z + len < |k.data| && k.cur + len < |k.data| && len == Common(k.data, z, k.cur, k.n) < k.n
    ensures GoesRight(k.data, z, k.cur, k.n) <==> k.data[z + len] < k.data[k.cur + len]
  {
  }

  /** The match with the node at matchAt, known to be at least start; recorded if it is longer than all before. */
  method Visit(data: Bytes, cur: nat, matchAt: nat, start: nat, max: nat, record: bool, ms: seq<Match>, best: nat,
               ghost k: Task, ghost p: Point)
    returns (len: nat, matches: seq<Match>, bestLen: nat)
    requires k.cur == cur && k.record == record && p.rest.Node? && p.rest.pos == matchAt && p.ms == ms && p.best == best
    requires matchAt < cur && cur + max <= |data| && start < max && Agree(data, matchAt, cur, start)
    requires record ==> start <= best
    ensures len == Common(data, matchAt, cur, max)
    ensures matches == Recorded(k, p, len) && bestLen == BetterOf(k, p, len)
  {
    len, matches, bestLen := start, ms, best;
    CompareByte(data, matchAt, cur, len, max);
    if data[matchAt + len] == data[cur + len] {
      len := LzExtend.Extend(data, cur, matchAt, len + 1, max);
      if record && len > bestLen {
        bestLen := len;
        matches := matches + [Match(len, cur - matchAt)];
      }
    }
  }

  method Write(mem: array<Link>, slot: Slot, v: Link)
    requires mem.Length == SIZE
    modifies mem
    ensures mem[..] == old(mem[..])[slot := v]
  {
    mem[slot] := v;
  }

  /** A node less than the new string is linked on the left; the search goes on with its right child. */
  method LinkLesser(mem: array<Link>, pendingLt0: Slot, curNode0: int, ghost before: Memory, ghost k: Task, ghost p: Point, ghost len: nat)
    returns (pendingLt: Slot, curNode: int)
    requires mem.Length == SIZE && k.base % WINDOW == 0 && p.rest.Node? && p.rest.pos == k.base + curNode0 && -WINDOW <= curNode0 < WINDOW
    requires Linking(mem[..], before, k, p) && pendingLt0 == LtEnd(k, p) && Completes(k, p) && p.left > 0
    requires Common(k.data, p.rest.pos, k.cur, k.n) < k.n && GoesRight(k.data, p.rest.pos, k.cur, k.n)
    modifies mem
    ensures Linking(mem[..], before, k, Past(k, p, len)) && Completes(k, Past(k, p, len))
    ensures pendingLt == LtEnd(k, Past(k, p, len)) && GtEnd(k, p) == GtEnd(k, Past(k, p, len))
    ensures LeadsTo(k, curNode, Past(k, p, len).rest)
  {
    hide *;
    ghost var was := mem[..];
    SameSlots(k.base, curNode0);
    Write(mem, pendingLt0, curNode0);
    LinkRight(was, before, mem[..], k, p, len);
    pendingLt := Right(curNode0);
    curNode := mem[pendingLt];
  }

  /** Another node is linked on the right; the search goes on with its left child. */
  method LinkGreater(mem: array<Link>, pendingGt0: Slot, curNode0: int, ghost before: Memory, ghost k: Task, ghost p: Point, ghost len: nat)
    returns (pendingGt: Slot, curNode: int)
    requires mem.Length == SIZE && k.base % WINDOW == 0 && p.rest.Node? && p.rest.pos == k.base + curNode0 && -WINDOW <= curNode0 < WINDOW
    requires Linking(mem[..], before, k, p) && pendingGt0 == GtEnd(k, p) && Completes(k, p) && p.left > 0
    requires Common(k.data, p.rest.pos, k.cur, k.n) < k.n && !GoesRight(k.data, p.rest.pos, k.cur, k.n)
    modifies mem
    ensures Linking(mem[..], before, k, Past(k, p, len)) && Completes(k, Past(k, p, len))
    ensures pendingGt == GtEnd(k, Past(k, p, len)) && LtEnd(k, p) == LtEnd(k, Past(k, p, len))
    ensures LeadsTo(k, curNode, Past(k, p, len).rest)
  {
    hide *;
    ghost var was := mem[..];
    SameSlots(k.base, curNode0);
    Write(mem, pendingGt0, curNode0);
    LinkLeft(was, before, mem[..], k, p, len);
    pendingGt := Left(curNode0);
    curNode := mem[pendingGt];
  }

  /** The search ends: the two open slots get these links. */
  method LinkEnds(mem: array<Link>, pendingLt: Slot, pendingGt: Slot, a: int, b: int, ghost before: Memory, ghost k: Task, ghost p: Point)
    requires mem.Length == SIZE && pendingLt == LtEnd(k, p) && pendingGt == GtEnd(k, p)
    requires Linking(mem[..], before, k, p) && Completes(k, p) && LastLinks(mem[..], k, p, a, b)
    requires -WINDOW <= a < WINDOW && -WINDOW <= b < WINDOW
    modifies mem
    ensures Rerooted(mem[..], k) && Short(mem[..]) && Elsewhere(mem[..], before, NewSlots(k.tree, k.cur))
  {
    hide *;
    ghost var was := mem[..];
    Write(mem, pendingLt, a);
    Write(mem, pendingGt, b);
    LinkBoth(was, before, mem[..], k, p, a, b);
  }

  /** The search can end here. */
  lemma EndEmpty(mem: Memory, k: Task, p: Point)
    requires Looking(k, p) && (p.rest.Nil? || p.left == 0) && k.base <= k.cur
    ensures LastLinks(mem, k, p, -WINDOW, -WINDOW) && Completes(k, p) && Delivers(k, p.ms, p.best)
  {
    LookedAll(k, p);
  }

  lemma EndEqual(mem: Memory, k: Task, p: Point)
    requires Looking(k, p) && p.rest.Node? && p.left > 0 && Common(k.data, p.rest.pos, k.cur, k.n) == k.n
    ensures LastLinks(mem, k, p, mem[Left(p.rest.pos)], mem[Right(p.rest.pos)]) && Completes(k, p)
  {
  }

  /** Links the node just visited and updates the lengths known to be shared with the strings ahead. */
  method Descend(mem: array<Link>, data: Bytes, base: nat, cur: nat, pendingLt0: Slot, pendingGt0: Slot, curNode0: int,
                 bestLt0: nat, bestGt0: nat, len0: nat, ghost before: Memory, ghost k: Task, ghost p: Point)
    returns (pendingLt: Slot, pendingGt: Slot, curNode: int, bestLt: nat, bestGt: nat, len: nat)
    requires mem.Length == SIZE && k.data == data && k.cur == cur && k.base == base && base % WINDOW == 0 && p.left > 0
    requires p.rest.Node? && p.rest.pos == base + curNode0 && -WINDOW <= curNode0 < WINDOW && p.rest.pos < cur
    requires Linking(mem[..], before, k, p) && pendingLt0 == LtEnd(k, p) && pendingGt0 == GtEnd(k, p)
    requires bestLt0 == p.loLen && bestGt0 == p.hiLen && cur + len0 < |data|
    requires len0 == Common(data, p.rest.pos, cur, k.n) < k.n && Completes(k, p)
    requires Ahead(k, Past(k, p, len0)) && Recording(k, Past(k, p, len0)) && Past(k, p, len0).best < k.n
    modifies mem
    ensures Linking(mem[..], before, k, Past(k, p, len0)) && Looking(k, Past(k, p, len0))
    ensures pendingLt == LtEnd(k, Past(k, p, len0)) && pendingGt == GtEnd(k, Past(k, p, len0))
    ensures bestLt == Past(k, p, len0).loLen && bestGt == Past(k, p, len0).hiLen && len <= bestLt && len <= bestGt
    ensures Past(k, p, len0).rest.Node? ==> base + curNode == Past(k, p, len0).rest.pos && cur - WINDOW < base + curNode
    ensures Past(k, p, len0).rest.Nil? ==> base + curNode <= cur - WINDOW
  {
    hide *;
    DecidingByte(k, p.rest.pos, len0);
    PastFields(k, p, len0);
    var less := data[base + curNode0 + len0] < data[cur + len0];
    pendingLt, pendingGt, bestLt, bestGt, len := pendingLt0, pendingGt0, bestLt0, bestGt0, len0;
    if less {
      pendingLt, curNode := LinkLesser(mem, pendingLt, curNode0, before, k, p, len0);
      bestLt := len;
      if bestGt < len { len := bestGt; }
    } else {
      pendingGt, curNode := LinkGreater(mem, pendingGt, curNode0, before, k, p, len0);
      bestGt := len;
      if bestLt < len { len := bestLt; }
    }
    LookOn(k, Past(k, p, len0), curNode);
  }

  lemma BeginFields(k: Task)
    ensures Begin(k).rest == k.tree && Begin(k).left == k.depth && Begin(k).ms == k.first && Begin(k).best == 3
    ensures Begin(k).loLen == 0 && Begin(k).hiLen == 0
  {
  }

  /** Walks down the tree, to which curNode0 is the link, and splits it into the subtrees of the new root. */
  method Search(mem: array<Link>, data: Bytes, base: nat, curPos: nat, curNode0: int, max: nat, n: nat, depth: nat,
                record: bool, first: seq<Match>, ghost k: Task)
    returns (matches: seq<Match>, bestLen: nat)
    requires mem.Length == SIZE && k == Task(data, base, k.tree, base + curPos, n, max, depth, record, first)
    requires base % WINDOW == 0 && curPos < WINDOW && 3 < n <= max && base + curPos + max <= |data| && depth >= 1
    requires Linking(mem[..], mem[..], k, Begin(k)) && Looking(k, Begin(k)) && k.tree.Node? && base + curNode0 == k.tree.pos
    requires Left(curPos) == LtEnd(k, Begin(k)) && Right(curPos) == GtEnd(k, Begin(k))
    modifies mem
    ensures Rerooted(mem[..], k) && Short(mem[..]) && Elsewhere(mem[..], old(mem[..]), NewSlots(k.tree, k.cur))
    ensures Delivers(k, matches, bestLen)
  {
    hide *;
    ghost var before := mem[..];
    var cur := base + curPos;
    var curNode, left: nat := curNode0, depth;
    var pendingLt, pendingGt := Left(curPos), Right(curPos);
    var bestLtLen: nat, bestGtLen: nat, len: nat := 0, 0, 0;
    matches, bestLen := first, 3;
    ghost var p := Begin(k);
    BeginFields(k);
    while true
      invariant Linking(mem[..], before, k, p) && Looking(k, p)
      invariant p.rest.Node? && base + curNode == p.rest.pos && p.left == left > 0
      invariant pendingLt == LtEnd(k, p) && pendingGt == GtEnd(k, p)
      invariant p.loLen == bestLtLen && p.hiLen == bestGtLen && p.ms == matches && p.best == bestLen
      invariant len <= bestLtLen && len <= bestGtLen
      decreases left
    {
      LookAt(k, p, len);
      LinkAt(mem[..], before, k, p);
      len, matches, bestLen := Visit(data, cur, base + curNode, len, max, record, matches, bestLen, k, p);
      LookPast(k, p, len);
      if len >= n {
        SameSlots(base, curNode);
        EndEqual(mem[..], k, p);
        LinkEnds(mem, pendingLt, pendingGt, mem[Left(curNode)], mem[Right(curNode)], before, k, p);
        return;
      }
      PastFields(k, p, len);
      ghost var q := Past(k, p, len);
      pendingLt, pendingGt, curNode, bestLtLen, bestGtLen, len :=
        Descend(mem, data, base, cur, pendingLt, pendingGt, curNode, bestLtLen, bestGtLen, len, before, k, p);
      p := q;
      left := left - 1;
      if curNode <= curPos - WINDOW || left == 0 {
        EndEmpty(mem[..], k, p);
        LinkEnds(mem, pendingLt, pendingGt, -WINDOW, -WINDOW, before, k, p);
        return;
      }
    }
  }
}
