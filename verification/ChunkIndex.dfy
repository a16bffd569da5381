/** Column-major positions in arrays of any rank, and the order in which a chunk's elements are visited. */
module ChunkIndex {

  type Coords = seq<nat>

  function Product(dims: Coords): nat {
    if dims == [] then 1 else dims[0] * Product(dims[1..])
  }

  /** Column-major position: the first coordinate varies fastest. */
  function Position(c: Coords, dims: Coords): nat
    requires |c| == |dims|
  {
    if c == [] then 0 else c[0] + dims[0] * Position(c[1..], dims[1..])
  }

  lemma PositionOfThree(x: nat, y: nat, z: nat, a: nat, b: nat, c: nat)
    ensures Position([x, y, z], [a, b, c]) == x + a * y + a * b * z
  {
    assert [x, y, z][1..] == [y, z] && [a, b, c][1..] == [b, c] && [y, z][1..] == [z] && [b, c][1..] == [c] && [z][1..] == [] && [c][1..] == [];
    assert Position([z], [c]) == z;
    assert a * (y + b * z) == a * y + a * b * z;
  }

  predicate Within(c: Coords, dims: Coords) {
    |c| == |dims| && forall k :: 0 <= k < |c| ==> c[k] < dims[k]
  }

  /** No larger in any dimension, and not empty. */
  predicate Fits(cd: Coords, dims: Coords) {
    |cd| == |dims| && forall k :: 0 <= k < |cd| ==> 0 < cd[k] <= dims[k]
  }

  lemma TailWithin(c: Coords, dims: Coords)
    requires c != [] && Within(c, dims)
    ensures c[0] < dims[0] && Within(c[1..], dims[1..])
  {
  }

  lemma TailFits(cd: Coords, dims: Coords)
    requires cd != [] && Fits(cd, dims)
    ensures 0 < cd[0] <= dims[0] && Fits(cd[1..], dims[1..])
  {
  }

  lemma Times(a: nat, x: nat, y: nat)
    ensures x <= y ==> a * x <= a * y
    ensures x < y ==> a * x + a <= a * y
  {
    if x < y {
      assert a * y == a * (x + 1) + a * (y - x - 1);
    }
  }

  lemma {:induction false} PositionInside(c: Coords, dims: Coords)
    requires Within(c, dims)
    ensures Position(c, dims) < Product(dims)
  {
    if c != [] {
      TailWithin(c, dims);
      PositionInside(c[1..], dims[1..]);
      Times(dims[0], Position(c[1..], dims[1..]), Product(dims[1..]));
    }
  }

  function Plus(a: Coords, b: Coords): (r: Coords)
    requires |a| == |b|
    ensures |r| == |a| && forall k :: 0 <= k < |a| ==> r[k] == a[k] + b[k]
  {
    seq(|a|, k requires 0 <= k < |a| => a[k] + b[k])
  }

  lemma {:induction false} PositionPlus(a: Coords, b: Coords, dims: Coords)
    requires |a| == |b| == |dims|
    ensures Position(Plus(a, b), dims) == Position(a, dims) + Position(b, dims)
    decreases |a|
  {
    if a != [] {
      assert Plus(a, b)[1..] == Plus(a[1..], b[1..]);
      PositionPlus(a[1..], b[1..], dims[1..]);
    }
  }

  lemma {:induction false} PositionsDiffer(c: Coords, d: Coords, dims: Coords)
    requires Within(c, dims) && Within(d, dims) && Position(c, dims) == Position(d, dims)
    ensures c == d
    decreases |c|
  {
    if c != [] {
      TailWithin(c, dims);
      TailWithin(d, dims);
      var x, y := Position(c[1..], dims[1..]), Position(d[1..], dims[1..]);
      Times(dims[0], x, y);
      Times(dims[0], y, x);
      PositionsDiffer(c[1..], d[1..], dims[1..]);
      assert c == [c[0]] + c[1..] && d == [d[0]] + d[1..];
    }
  }

  // ---- The odometer ------------------------------------------------------------------------

  /** The next coordinates of a block of size cd; all zeros after the last. */
  function Next(d: Coords, cd: Coords): (r: Coords)
    requires |d| == |cd|
    ensures |r| == |d|
  {
    if d == [] then [] else if d[0] + 1 < cd[0] then [d[0] + 1] + d[1..] else [0] + Next(d[1..], cd[1..])
  }

  /** Number of leading coordinates that wrap around. */
  function Carries(d: Coords, cd: Coords): (r: nat)
    requires |d| == |cd|
    ensures r <= |d|
  {
    if d == [] || d[0] + 1 < cd[0] then 0 else 1 + Carries(d[1..], cd[1..])
  }

  lemma {:induction false} NextWithin(d: Coords, cd: Coords)
    requires Within(d, cd)
    ensures Within(Next(d, cd), cd)
  {
    if d != [] {
      TailWithin(d, cd);
      NextWithin(d[1..], cd[1..]);
    }
  }

  /** How far the position in an array moves when v coordinates wrap and the one after them advances. */
  function Jump(cd: Coords, dims: Coords, v: nat): int
    requires |cd| == |dims| && v <= |cd|
  {
    if v == 0 then 1 else dims[0] * Jump(cd[1..], dims[1..], v - 1) - cd[0] + 1
  }

  lemma {:induction false} NextJumps(d: Coords, cd: Coords, dims: Coords)
    requires Within(d, cd) && |dims| == |cd| && Carries(d, cd) < |cd|
    ensures Position(Next(d, cd), dims) == Position(d, dims) + Jump(cd, dims, Carries(d, cd))
  {
    if d[0] + 1 >= cd[0] {
      TailWithin(d, cd);
      NextJumps(d[1..], cd[1..], dims[1..]);
      var p, j := Position(d[1..], dims[1..]), Jump(cd[1..], dims[1..], Carries(d[1..], cd[1..]));
      assert dims[0] * (p + j) == dims[0] * p + dims[0] * j;
      assert Next(d, cd)[1..] == Next(d[1..], cd[1..]);
    } else {
      assert Next(d, cd)[1..] == d[1..];
    }
  }

  /** From the last coordinates, a jump over all dimensions moves by the size of the whole array. */
  lemma {:induction false} LastJump(d: Coords, cd: Coords, dims: Coords)
    requires Within(d, cd) && |dims| == |cd| && Carries(d, cd) == |cd|
    ensures Position(d, dims) + Jump(cd, dims, |cd|) == Product(dims)
  {
    if d != [] {
      TailWithin(d, cd);
      LastJump(d[1..], cd[1..], dims[1..]);
      var p, j := Position(d[1..], dims[1..]), Jump(cd[1..], dims[1..], |cd| - 1);
      assert dims[0] * (p + j) == dims[0] * p + dims[0] * j;
    }
  }

  /** No coordinates of the block come between two consecutive ones; after the last there are none. */
  lemma {:induction false} NextIsLeast(c: Coords, d: Coords, cd: Coords, dims: Coords)
    requires Within(c, cd) && Within(d, cd) && Fits(cd, dims) && Position(c, dims) > Position(d, dims)
    ensures Carries(d, cd) < |cd| && Position(c, dims) >= Position(Next(d, cd), dims)
    decreases |c|
  {
    if c != [] {
      TailWithin(c, cd);
      TailWithin(d, cd);
      TailFits(cd, dims);
      var x, y := Position(c[1..], dims[1..]), Position(d[1..], dims[1..]);
      Times(dims[0], x, y);
      if x > y {
        NextIsLeast(c[1..], d[1..], cd[1..], dims[1..]);
        Times(dims[0], y, x);
        Times(dims[0], Position(Next(d[1..], cd[1..]), dims[1..]), x);
      }
      if d[0] + 1 < cd[0] {
        assert Next(d, cd)[1..] == d[1..];
      } else {
        assert Next(d, cd)[1..] == Next(d[1..], cd[1..]);
      }
    }
  }

  /** Digit by digit: those that wrap, the one that advances, and the rest. */
  lemma {:induction false} NextAt(d: Coords, cd: Coords, k: nat)
    requires |d| == |cd| && k < |d|
    ensures Next(d, cd)[k] == if k < Carries(d, cd) then 0 else if k == Carries(d, cd) then d[k] + 1 else d[k]
  {
    if d[0] + 1 >= cd[0] && k > 0 { NextAt(d[1..], cd[1..], k - 1); }
  }

  /** The number of carries is where the first coordinate that does not wrap is. */
  lemma {:induction false} CarriesIs(d: Coords, cd: Coords, u: nat)
    requires |d| == |cd| && u <= |d| && (forall k :: 0 <= k < u ==> d[k] + 1 >= cd[k]) && (u < |d| ==> d[u] + 1 < cd[u])
    ensures Carries(d, cd) == u
  {
    if u > 0 { CarriesIs(d[1..], cd[1..], u - 1); }
  }

  // ---- Jumps as they are computed ----------------------------------------------------------

  /** Product of the first v dimensions, and the distance covered by the first v coordinates from first to last. */
  function Stride(dims: Coords, v: nat): nat
    requires v <= |dims|
  {
    if v == 0 then 1 else Stride(dims, v - 1) * dims[v - 1]
  }

  /** Sum of the first v coordinates, each times the stride of its dimension. */
  function Weighted(c: seq<int>, dims: Coords, v: nat): int
    requires |c| == |dims| && v <= |c|
  {
    if v == 0 then 0 else Weighted(c, dims, v - 1) + c[v - 1] * Stride(dims, v - 1)
  }

  function Less(x: int): int { x - 1 }

  function LessOne(cd: Coords): (r: seq<int>)
    ensures |r| == |cd| && forall k :: 0 <= k < |cd| ==> r[k] == Less(cd[k])
  {
    seq(|cd|, k requires 0 <= k < |cd| => Less(cd[k]))
  }

  function Extent(cd: Coords, dims: Coords, v: nat): int
    requires |cd| == |dims| && v <= |cd|
  {
    Weighted(LessOne(cd), dims, v)
  }

  lemma {:induction false} StrideFront(dims: Coords, v: nat)
    requires 0 < v <= |dims|
    ensures Stride(dims, v) == dims[0] * Stride(dims[1..], v - 1)
  {
    if v > 1 {
      StrideFront(dims, v - 1);
      assert dims[0] * Stride(dims[1..], v - 2) * dims[v - 1] == dims[0] * (Stride(dims[1..], v - 2) * dims[v - 1]);
    }
  }

  lemma {:induction false} WeightedFront(c: seq<int>, dims: Coords, v: nat)
    requires |c| == |dims| && 0 < v <= |c|
    ensures Weighted(c, dims, v) == c[0] + dims[0] * Weighted(c[1..], dims[1..], v - 1)
  {
    if v > 1 {
      WeightedFront(c, dims, v - 1);
      StrideFront(dims, v - 1);
      var s := Stride(dims[1..], v - 2);
      assert c[v - 1] * (dims[0] * s) == dims[0] * (c[v - 1] * s);
      Distribute(dims[0], Weighted(c[1..], dims[1..], v - 2), c[v - 1] * s);
    } else {
      assert Weighted(c, dims, 0) == 0 && Stride(dims, 0) == 1;
    }
  }

  lemma ExtentFront(cd: Coords, dims: Coords, v: nat)
    requires |cd| == |dims| && 0 < v <= |cd|
    ensures Extent(cd, dims, v) == cd[0] - 1 + dims[0] * Extent(cd[1..], dims[1..], v - 1)
  {
    WeightedFront(LessOne(cd), dims, v);
    assert LessOne(cd)[1..] == LessOne(cd[1..]);
  }

  lemma {:induction false} PositionIsWeighted(c: Coords, dims: Coords)
    requires |c| == |dims|
    ensures Position(c, dims) == Weighted(c, dims, |c|)
  {
    if c != [] {
      WeightedFront(c, dims, |c|);
      PositionIsWeighted(c[1..], dims[1..]);
    }
  }

  lemma Distribute(a: int, x: int, y: int)
    ensures a * (x + y) == a * x + a * y && a * -y == -(a * y)
  {
  }

  lemma Nothing(cd: Coords, dims: Coords)
    requires |cd| == |dims|
    ensures Stride(dims, 0) == 1 && Extent(cd, dims, 0) == 0
  {
  }

  lemma {:induction false} JumpIs(cd: Coords, dims: Coords, v: nat)
    requires |cd| == |dims| && v <= |cd|
    ensures Jump(cd, dims, v) == Stride(dims, v) - Extent(cd, dims, v)
  {
    hide Stride, Extent;
    if v == 0 {
      Nothing(cd, dims);
    } else {
      JumpIs(cd[1..], dims[1..], v - 1);
      StrideFront(dims, v);
      ExtentFront(cd, dims, v);
      Distribute(dims[0], Stride(dims[1..], v - 1), -Extent(cd[1..], dims[1..], v - 1));
    }
  }

  /** A jump never goes back. */
  lemma {:induction false} JumpForward(cd: Coords, dims: Coords, v: nat)
    requires Fits(cd, dims) && v <= |cd|
    ensures Jump(cd, dims, v) >= 1
    decreases v
  {
    if v > 0 {
      TailFits(cd, dims);
      JumpForward(cd[1..], dims[1..], v - 1);
      Times(dims[0], 1, Jump(cd[1..], dims[1..], v - 1));
    }
  }

  /** In a block as large as its array there is no distance to jump. */
  lemma {:induction false} NoJump(dims: Coords, v: nat)
    requires v <= |dims|
    ensures Jump(dims, dims, v) == 1
  {
    if v > 0 { NoJump(dims[1..], v - 1); }
  }
}
