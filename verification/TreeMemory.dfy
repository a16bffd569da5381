/** Binary trees kept as links in one table of positions relative to a base: two ways of 3-byte hash
    buckets, one root per 4-byte hash bucket, and two child links per window slot. A link at or before
    the cutoff is empty. */
module TreeMemory {
  import opened SearchTree
  import opened RebaseBits

  const WINDOW: int := 32768
  const BUCKETS: nat := 65536
  const ROOTS: nat := 131072
  const CHILDREN: nat := 196608
  const SIZE: nat := 262144

  type Memory = s: seq<int> | |s| == SIZE witness seq(SIZE, i => 0)
  /** A 16-bit signed relative position. */
  type Link = v: int | -WINDOW <= v < WINDOW
  type Slot = s: nat | s < SIZE

  function Root(h: nat): (s: Slot)
    requires h < BUCKETS
    ensures ROOTS <= s < CHILDREN
  {
    ROOTS + h
  }

  function Left(p: int): (s: Slot)
    ensures s >= CHILDREN
  {
    CHILDREN + 2 * (p % WINDOW)
  }

  function Right(p: int): (s: Slot)
    ensures s >= CHILDREN
  {
    CHILDREN + 2 * (p % WINDOW) + 1
  }

  /** The base is a whole number of windows, so a relative position has the slots of the absolute one. */
  lemma SameSlots(base: int, p: int)
    requires base % WINDOW == 0
    ensures Left(base + p) == Left(p) && Right(base + p) == Right(p)
  {
  }

  /** Both positions lie in one window, so their nodes share no slot unless they are the same. */
  lemma OwnSlots(p: nat, q: nat)
    requires p < q < p + WINDOW
    ensures Left(p) != Left(q) && Right(p) != Right(q) && Left(p) != Right(q) && Right(p) != Left(q)
  {
  }

  /** The slots that hold the links inside the tree. */
  function Slots(t: Tree): set<Slot> {
    match t
    case Nil => {}
    case Node(p, l, r) => {Left(p), Right(p)} + Slots(l) + Slots(r)
  }

  /** The link in this slot leads to the tree. */
  predicate Holds(mem: Memory, base: int, cut: int, slot: Slot, t: Tree)
    decreases t
  {
    match t
    case Nil => base + mem[slot] <= cut
    case Node(p, l, r) =>
      && base + mem[slot] == p && cut < p
      && Holds(mem, base, cut, Left(p), l) && Holds(mem, base, cut, Right(p), r)
  }

  /** No slot is used twice. */
  predicate Separate(t: Tree) {
    match t
    case Nil => true
    case Node(p, l, r) =>
      && Left(p) !in Slots(l) + Slots(r) && Right(p) !in Slots(l) + Slots(r) && Slots(l) !! Slots(r)
      && Separate(l) && Separate(r)
  }

  ghost predicate Same(mem: Memory, other: Memory, s: set<Slot>) { forall x :: x in s ==> mem[x] == other[x] }

  /** Copying a link, with the slots inside the tree unchanged. */
  lemma {:induction false} HoldsCopied(mem: Memory, other: Memory, base: int, cut: int, from: Slot, to: Slot, t: Tree)
    requires Holds(mem, base, cut, from, t) && Same(mem, other, Slots(t)) && mem[from] == other[to]
    ensures Holds(other, base, cut, to, t)
    decreases t
  {
    match t
    case Nil =>
    case Node(p, l, r) =>
      assert Left(p) in Slots(t) && Right(p) in Slots(t);
      HoldsCopied(mem, other, base, cut, Left(p), Left(p), l);
      HoldsCopied(mem, other, base, cut, Right(p), Right(p), r);
  }

  lemma HoldsSame(mem: Memory, other: Memory, base: int, cut: int, slot: Slot, t: Tree)
    requires Holds(mem, base, cut, slot, t) && Same(mem, other, Slots(t)) && mem[slot] == other[slot]
    ensures Holds(other, base, cut, slot, t)
  {
    HoldsCopied(mem, other, base, cut, slot, slot, t);
  }

  /** All positions of the tree are in the window that ends before next. */
  ghost predicate InWindow(t: Tree, next: nat) { forall z: nat :: z in Positions(t) ==> next - WINDOW < z < next }

  predicate OwnedBy(slot: Slot, p: nat) { slot == Left(p) || slot == Right(p) }

  lemma {:induction false} Owner(t: Tree, slot: Slot) returns (p: nat)
    requires slot in Slots(t)
    ensures p in Positions(t) && OwnedBy(slot, p)
  {
    if OwnedBy(slot, t.pos) {
      p := t.pos;
    } else if slot in Slots(t.left) {
      p := Owner(t.left, slot);
    } else {
      p := Owner(t.right, slot);
    }
  }

  lemma NotOwned(t: Tree, p: nat, next: nat)
    requires InWindow(t, next) && p !in Positions(t) && next - WINDOW < p <= next
    ensures Left(p) !in Slots(t) && Right(p) !in Slots(t)
  {
    forall slot: Slot | slot in Slots(t)
      ensures !OwnedBy(slot, p)
    {
      var q := Owner(t, slot);
      if p < q { OwnSlots(p, q); } else { OwnSlots(q, p); }
    }
  }

  /** Trees without a common position share no slot. */
  lemma Apart(t: Tree, u: Tree, next: nat)
    requires InWindow(t, next) && InWindow(u, next) && Positions(t) !! Positions(u)
    ensures Slots(t) !! Slots(u)
  {
    forall slot: Slot | slot in Slots(t)
      ensures slot !in Slots(u)
    {
      var p := Owner(t, slot);
      NotOwned(u, p, next);
    }
  }

  lemma {:induction false} ProperSeparate(t: Tree, next: nat)
    requires Proper(t) && InWindow(t, next)
    ensures Separate(t)
  {
    match t
    case Nil =>
    case Node(p, l, r) =>
      assert p in Positions(t) && p !in Positions(l) && p !in Positions(r);
      assert forall z: nat :: z in Positions(l) ==> z in Positions(t);
      assert forall z: nat :: z in Positions(r) ==> z in Positions(t);
      ProperSeparate(l, next);
      ProperSeparate(r, next);
      NotOwned(l, p, next);
      NotOwned(r, p, next);
      Apart(l, r, next);
  }

  /** Moving the cutoff ahead prunes the tree. */
  lemma {:induction false} HoldsPruned(mem: Memory, base: int, cut: int, slot: Slot, t: Tree, later: int)
    requires Holds(mem, base, cut, slot, t) && cut <= later
    ensures Holds(mem, base, later, slot, Prune(t, later))
    decreases t
  {
    if t.Node? {
      HoldsPruned(mem, base, cut, Left(t.pos), t.left, later);
      HoldsPruned(mem, base, cut, Right(t.pos), t.right, later);
    }
  }

  // ---- Sliding the window ------------------------------------------------------------------

  ghost predicate IsRebased(mem: Memory, other: Memory) { forall s: Slot :: other[s] == Rebased(mem[s]) }

  /** Moving the base ahead by a window changes no tree, once the cutoff has reached the old base. */
  lemma {:induction false} HoldsRebased(mem: Memory, other: Memory, base: int, cut: int, slot: Slot, t: Tree)
    requires Holds(mem, base, cut, slot, t) && IsRebased(mem, other) && base <= cut
    ensures Holds(other, base + WINDOW, cut, slot, t)
    decreases t
  {
    if t.Node? {
      HoldsRebased(mem, other, base, cut, Left(t.pos), t.left);
      HoldsRebased(mem, other, base, cut, Right(t.pos), t.right);
    }
  }

  // ---- Chains that end in an open slot -----------------------------------------------------

  /** A node of the search path and the subtree on the side the search turned away from. */
  datatype Turn = Turn(pos: nat, side: Tree)

  /** The slot that the rest of the tree will be linked from. */
  function Open(start: Slot, rightward: bool, path: seq<Turn>): Slot {
    if path == [] then start else Onward(path[|path| - 1].pos, rightward)
  }

  function Onward(p: nat, rightward: bool): Slot { if rightward then Right(p) else Left(p) }

  function SideNode(k: Turn, rightward: bool, x: Tree): Tree {
    if rightward then Node(k.pos, k.side, x) else Node(k.pos, x, k.side)
  }

  /** The tree that results from linking x at the open end. */
  function Fill(path: seq<Turn>, rightward: bool, x: Tree): Tree {
    if path == [] then x
    else Fill(path[..|path| - 1], rightward, SideNode(path[|path| - 1], rightward, x))
  }

  predicate Chain(mem: Memory, base: int, cut: int, start: Slot, rightward: bool, path: seq<Turn>) {
    path == [] ||
    var k, up := path[|path| - 1], path[..|path| - 1];
    && Chain(mem, base, cut, start, rightward, up)
    && base + mem[Open(start, rightward, up)] == k.pos && cut < k.pos
    && Holds(mem, base, cut, Onward(k.pos, !rightward), k.side)
  }

  /** The slots with the links of the chain, not the open one. */
  function ChainSlots(start: Slot, rightward: bool, path: seq<Turn>): set<Slot> {
    if path == [] then {}
    else
      var k, up := path[|path| - 1], path[..|path| - 1];
      ChainSlots(start, rightward, up) + {Open(start, rightward, up), Onward(k.pos, !rightward)} + Slots(k.side)
  }

  lemma {:induction false} ChainSame(mem: Memory, other: Memory, base: int, cut: int, start: Slot, rightward: bool, path: seq<Turn>)
    requires Chain(mem, base, cut, start, rightward, path) && Same(mem, other, ChainSlots(start, rightward, path))
    ensures Chain(other, base, cut, start, rightward, path)
  {
    if path != [] {
      var k, up := path[|path| - 1], path[..|path| - 1];
      var s := ChainSlots(start, rightward, path);
      assert ChainSlots(start, rightward, up) <= s && Slots(k.side) <= s;
      assert Open(start, rightward, up) in s && Onward(k.pos, !rightward) in s;
      ChainSame(mem, other, base, cut, start, rightward, up);
      HoldsSame(mem, other, base, cut, Onward(k.pos, !rightward), k.side);
    }
  }

  /** Linking a tree at the open end completes the chain. */
  lemma {:induction false} ChainFilled(mem: Memory, base: int, cut: int, start: Slot, rightward: bool, path: seq<Turn>, x: Tree)
    requires Chain(mem, base, cut, start, rightward, path) && Holds(mem, base, cut, Open(start, rightward, path), x)
    ensures Holds(mem, base, cut, start, Fill(path, rightward, x))
  {
    if path != [] {
      var k, up := path[|path| - 1], path[..|path| - 1];
      ChainFilled(mem, base, cut, start, rightward, up, SideNode(k, rightward, x));
    }
  }

  /** Turning at one more node: the open slot now leads to it. */
  lemma ChainLonger(mem: Memory, other: Memory, base: int, cut: int, start: Slot, rightward: bool, path: seq<Turn>, k: Turn)
    requires Chain(mem, base, cut, start, rightward, path) && cut < k.pos
    requires Holds(mem, base, cut, Onward(k.pos, !rightward), k.side)
    requires other == mem[Open(start, rightward, path) := k.pos - base]
    requires Open(start, rightward, path) !in ChainSlots(start, rightward, path) + Slots(k.side)
    requires Open(start, rightward, path) != Onward(k.pos, !rightward)
    ensures Chain(other, base, cut, start, rightward, path + [k])
    ensures ChainSlots(start, rightward, path + [k])
         == ChainSlots(start, rightward, path) + {Open(start, rightward, path), Onward(k.pos, !rightward)} + Slots(k.side)
    ensures Open(start, rightward, path + [k]) == Onward(k.pos, rightward)
    ensures forall x :: Fill(path + [k], rightward, x) == Fill(path, rightward, SideNode(k, rightward, x))
  {
    var longer := path + [k];
    assert longer[..|longer| - 1] == path && longer[|longer| - 1] == k;
    ChainSame(mem, other, base, cut, start, rightward, path);
    HoldsSame(mem, other, base, cut, Onward(k.pos, !rightward), k.side);
  }

  // ---- A search under way ------------------------------------------------------------------

  function LtSlots(cur: nat, lt: seq<Turn>): set<Slot> { ChainSlots(Left(cur), true, lt) }
  function GtSlots(cur: nat, gt: seq<Turn>): set<Slot> { ChainSlots(Right(cur), false, gt) }
  function LtOpen(cur: nat, lt: seq<Turn>): Slot { Open(Left(cur), true, lt) }
  function GtOpen(cur: nat, gt: seq<Turn>): Slot { Open(Right(cur), false, gt) }

  /** The two chains under the new root, their open slots and the rest of the tree use different slots. */
  ghost predicate Disjoint(lt: set<Slot>, gt: set<Slot>, ltOpen: Slot, gtOpen: Slot, rest: set<Slot>) {
    && ltOpen != gtOpen && ltOpen !in lt + gt + rest && gtOpen !in lt + gt + rest
    && lt !! gt && lt !! rest && gt !! rest
  }

  lemma DisjointTurn(lt: set<Slot>, gt: set<Slot>, ltOpen: Slot, gtOpen: Slot, p: Slot, q: Slot, side: set<Slot>, rest: set<Slot>)
    requires Disjoint(lt, gt, ltOpen, gtOpen, {p, q} + side + rest)
    requires p != q && p !in side + rest && q !in side + rest && side !! rest
    ensures Disjoint(lt + {ltOpen, p} + side, gt, q, gtOpen, rest)
    ensures ltOpen !in lt + side && ltOpen !in gt && ltOpen !in rest && ltOpen != p && ltOpen != q
  {
  }

  lemma DisjointSwapped(lt: set<Slot>, gt: set<Slot>, ltOpen: Slot, gtOpen: Slot, rest: set<Slot>)
    requires Disjoint(lt, gt, ltOpen, gtOpen, rest)
    ensures Disjoint(gt, lt, gtOpen, ltOpen, rest)
  {
  }

  function AllSlots(cur: nat, lt: seq<Turn>, gt: seq<Turn>, rest: Tree): set<Slot> {
    LtSlots(cur, lt) + GtSlots(cur, gt) + {LtOpen(cur, lt), GtOpen(cur, gt)} + Slots(rest)
  }

  ghost predicate Searching(mem: Memory, base: int, cut: int, cur: nat, lt: seq<Turn>, gt: seq<Turn>, rest: Tree) {
    && Chain(mem, base, cut, Left(cur), true, lt) && Chain(mem, base, cut, Right(cur), false, gt)
    && Separate(rest) && Disjoint(LtSlots(cur, lt), GtSlots(cur, gt), LtOpen(cur, lt), GtOpen(cur, gt), Slots(rest))
    && (rest.Node? ==>
          && cut < rest.pos
          && Holds(mem, base, cut, Left(rest.pos), rest.left) && Holds(mem, base, cut, Right(rest.pos), rest.right))
  }

  lemma TurnRight(mem: Memory, other: Memory, base: int, cut: int, cur: nat, lt: seq<Turn>, gt: seq<Turn>, rest: Tree)
    requires Searching(mem, base, cut, cur, lt, gt, rest) && rest.Node?
    requires other == mem[LtOpen(cur, lt) := rest.pos - base]
    ensures var longer := lt + [Turn(rest.pos, rest.left)];
            && Searching(other, base, cut, cur, longer, gt, rest.right)
            && Holds(other, base, cut, Right(rest.pos), rest.right)
            && LtOpen(cur, longer) == Right(rest.pos)
            && AllSlots(cur, longer, gt, rest.right) <= AllSlots(cur, lt, gt, rest)
            && (forall x :: Fill(longer, true, x) == Fill(lt, true, Node(rest.pos, rest.left, x)))
  {
    hide Holds, Chain, Separate, ChainSlots, Open, Fill, Slots, Left, Right, Disjoint;
    var k, p := Turn(rest.pos, rest.left), rest.pos;
    SeparateParts(rest);
    assert Slots(rest) == {Left(p), Right(p)} + Slots(rest.left) + Slots(rest.right);
    DisjointTurn(LtSlots(cur, lt), GtSlots(cur, gt), LtOpen(cur, lt), GtOpen(cur, gt), Left(p), Right(p), Slots(rest.left), Slots(rest.right));
    HoldsSame(mem, other, base, cut, Right(p), rest.right);
    ChainLonger(mem, other, base, cut, Left(cur), true, lt, k);
    ChainSame(mem, other, base, cut, Right(cur), false, gt);
    SubtreeHeld(other, base, cut, Right(p), rest.right);
  }

  lemma TurnLeft(mem: Memory, other: Memory, base: int, cut: int, cur: nat, lt: seq<Turn>, gt: seq<Turn>, rest: Tree)
    requires Searching(mem, base, cut, cur, lt, gt, rest) && rest.Node?
    requires other == mem[GtOpen(cur, gt) := rest.pos - base]
    ensures var longer := gt + [Turn(rest.pos, rest.right)];
            && Searching(other, base, cut, cur, lt, longer, rest.left)
            && Holds(other, base, cut, Left(rest.pos), rest.left)
            && GtOpen(cur, longer) == Left(rest.pos)
            && AllSlots(cur, lt, longer, rest.left) <= AllSlots(cur, lt, gt, rest)
            && (forall x :: Fill(longer, false, x) == Fill(gt, false, Node(rest.pos, x, rest.right)))
  {
    hide Holds, Chain, Separate, ChainSlots, Open, Fill, Slots, Left, Right, Disjoint;
    var k, p := Turn(rest.pos, rest.right), rest.pos;
    SeparateParts(rest);
    assert Slots(rest) == {Right(p), Left(p)} + Slots(rest.right) + Slots(rest.left);
    DisjointSwapped(LtSlots(cur, lt), GtSlots(cur, gt), LtOpen(cur, lt), GtOpen(cur, gt), Slots(rest));
    DisjointTurn(GtSlots(cur, gt), LtSlots(cur, lt), GtOpen(cur, gt), LtOpen(cur, lt), Right(p), Left(p), Slots(rest.right), Slots(rest.left));
    HoldsSame(mem, other, base, cut, Left(p), rest.left);
    ChainLonger(mem, other, base, cut, Right(cur), false, gt, k);
    ChainSame(mem, other, base, cut, Left(cur), true, lt);
    SubtreeHeld(other, base, cut, Left(p), rest.left);
    DisjointSwapped(GtSlots(cur, gt + [k]), LtSlots(cur, lt), GtOpen(cur, gt + [k]), LtOpen(cur, lt), Slots(rest.left));
  }

  lemma SeparateParts(t: Tree)
    requires Separate(t) && t.Node?
    ensures Left(t.pos) !in Slots(t.left) + Slots(t.right) && Right(t.pos) !in Slots(t.left) + Slots(t.right)
    ensures Slots(t.left) !! Slots(t.right) && Separate(t.left) && Separate(t.right)
    ensures Left(t.pos) != Right(t.pos)
    ensures Slots(t) == {Left(t.pos), Right(t.pos)} + Slots(t.left) + Slots(t.right)
  {
    assert Right(t.pos) == Left(t.pos) + 1;
  }

  lemma SubtreeHeld(mem: Memory, base: int, cut: int, slot: Slot, t: Tree)
    requires Holds(mem, base, cut, slot, t)
    ensures t.Nil? ==> base + mem[slot] <= cut
    ensures t.Node? ==> base + mem[slot] == t.pos && cut < t.pos
    ensures t.Node? ==> Holds(mem, base, cut, Left(t.pos), t.left) && Holds(mem, base, cut, Right(t.pos), t.right)
  {
  }

  /** Linking trees at both open slots yields the whole re-rooted tree. */
  lemma Linked(mem: Memory, other: Memory, base: int, cut: int, cur: nat, lt: seq<Turn>, gt: seq<Turn>, rest: Tree, l: Tree, r: Tree)
    requires Searching(mem, base, cut, cur, lt, gt, rest)
    requires other == mem[LtOpen(cur, lt) := other[LtOpen(cur, lt)]][GtOpen(cur, gt) := other[GtOpen(cur, gt)]]
    requires Holds(other, base, cut, LtOpen(cur, lt), l) && Holds(other, base, cut, GtOpen(cur, gt), r)
    ensures Holds(other, base, cut, Left(cur), Fill(lt, true, l)) && Holds(other, base, cut, Right(cur), Fill(gt, false, r))
  {
    hide Holds, Chain;
    ChainSame(mem, other, base, cut, Left(cur), true, lt);
    ChainSame(mem, other, base, cut, Right(cur), false, gt);
    ChainFilled(other, base, cut, Left(cur), true, lt, l);
    ChainFilled(other, base, cut, Right(cur), false, gt, r);
  }

  /** Both open slots made empty. */
  lemma LinkedEmpty(mem: Memory, other: Memory, base: int, cut: int, cur: nat, lt: seq<Turn>, gt: seq<Turn>, rest: Tree, v: int)
    requires Searching(mem, base, cut, cur, lt, gt, rest) && base + v <= cut
    requires other == mem[LtOpen(cur, lt) := v][GtOpen(cur, gt) := v]
    ensures Holds(other, base, cut, Left(cur), Fill(lt, true, Nil)) && Holds(other, base, cut, Right(cur), Fill(gt, false, Nil))
  {
    Linked(mem, other, base, cut, cur, lt, gt, rest, Nil, Nil);
  }

  /** The open slots take over the children of a node that equals the new string. */
  lemma LinkedChildren(mem: Memory, other: Memory, base: int, cut: int, cur: nat, lt: seq<Turn>, gt: seq<Turn>, rest: Tree)
    requires Searching(mem, base, cut, cur, lt, gt, rest) && rest.Node?
    requires other == mem[LtOpen(cur, lt) := mem[Left(rest.pos)]][GtOpen(cur, gt) := mem[Right(rest.pos)]]
    ensures Holds(other, base, cut, Left(cur), Fill(lt, true, rest.left))
    ensures Holds(other, base, cut, Right(cur), Fill(gt, false, rest.right))
  {
    hide Holds, Chain, Separate;
    assert Slots(rest.left) <= Slots(rest) && Slots(rest.right) <= Slots(rest);
    HoldsCopied(mem, other, base, cut, Left(rest.pos), LtOpen(cur, lt), rest.left);
    HoldsCopied(mem, other, base, cut, Right(rest.pos), GtOpen(cur, gt), rest.right);
    Linked(mem, other, base, cut, cur, lt, gt, rest, rest.left, rest.right);
  }
}
