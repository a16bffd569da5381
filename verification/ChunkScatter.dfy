/** Scattering a decompressed chunk into a column-major array of any rank. */
module ChunkScatter {
  import opened ChunkIndex

  const HDF5_MAX_DIMS: nat := 32

  /** Multiplies by the dimensions below i, from the highest down. */
  method Scale(v: nat, dims: Coords, i: nat) returns (temp: nat)
    requires i <= |dims|
    ensures temp == v * Stride(dims, i)
  {
    temp := v;
    var j := i;
    while j > 0
      invariant 0 <= j <= i && temp * Stride(dims, j) == v * Stride(dims, i)
    {
      ScaleStep(temp, dims, j);
      j := j - 1;
      temp := temp * dims[j];
    }
  }

  lemma ScaleStep(temp: nat, dims: Coords, j: nat)
    requires 0 < j <= |dims|
    ensures temp * Stride(dims, j) == temp * dims[j - 1] * Stride(dims, j - 1)
  {
    var s, d := Stride(dims, j - 1), dims[j - 1];
    assert temp * (s * d) == temp * d * s;
  }

  /** The position in the array of the element with these coordinates. */
  method FindArrayPosition(coordinates: Coords, dims: Coords) returns (pos: nat)
    requires |coordinates| == |dims|
    ensures pos == Position(coordinates, dims)
  {
    hide Stride;
    pos := 0;
    for i := 0 to |dims|
      invariant pos == Weighted(coordinates, dims, i)
    {
      var temp := Scale(coordinates[i], dims, i);
      pos := pos + temp;
    }
    PositionIsWeighted(coordinates, dims);
  }

  /** The distances by which the position moves on at the end of a row, for each number of carries. */
  ghost predicate UpdatesFor(update: seq<int>, cd: Coords, dims: Coords) {
    |cd| == |dims| <= |update| && forall i :: 0 <= i < |cd| ==> update[i] == Jump(cd, dims, i + 1) - 1
  }

  method MakeChunkedUpdates(update: array<int>, cd: Coords, dims: Coords)
    requires |cd| == |dims| <= update.Length
    modifies update
    ensures UpdatesFor(update[..], cd, dims)
    ensures forall i :: |dims| <= i < update.Length ==> update[i] == old(update[i])
  {
    for i := 0 to |dims|
      invariant forall k :: 0 <= k < i ==> update[k] == Jump(cd, dims, k + 1) - 1
      invariant forall k :: |dims| <= k < update.Length ==> update[k] == old(update[k])
    {
      var cu: int, du: int := 0, 1;
      for k := 0 to i + 1
        invariant cu == Extent(cd, dims, k) && du == Stride(dims, k)
      {
        cu := cu + (cd[k] - 1) * du;
        du := du * dims[k];
      }
      JumpIs(cd, dims, i + 1);
      update[i] := du - cu - 1;
    }
  }

  /** The part of a chunk that lies inside the array. */
  function Clipped(start: Coords, chunkDims: Coords, dims: Coords): (r: Coords)
    requires Within(start, dims) && |chunkDims| == |dims|
    ensures |r| == |dims|
    ensures forall k :: 0 <= k < |dims| ==> r[k] == if start[k] + chunkDims[k] > dims[k] then dims[k] - start[k] else chunkDims[k]
  {
    seq(|dims|, k requires 0 <= k < |dims| => if start[k] + chunkDims[k] > dims[k] then dims[k] - start[k] else chunkDims[k])
  }

  /** Coordinates of the rows: all dimensions but the first. */
  ghost predicate Rows(chunkPos: seq<nat>, n: nat, d: Coords) {
    1 <= n < |chunkPos| && chunkPos[1..n] == d
  }

  /** Positions above the highest dimension in use are zero, and no higher dimension has been used than there is. */
  ghost predicate ZeroAbove(chunkPos: seq<nat>, n: nat, currMaxDim: nat) {
    && 1 <= n < |chunkPos| && chunkPos[n] == 0 && 2 <= currMaxDim && (currMaxDim <= n || currMaxDim == 2)
    && forall k :: currMaxDim <= k < n ==> chunkPos[k] == 0
  }

  /** The carry has run through the first j - 1 rows' dimensions, u of which wrapped. */
  ghost predicate Carrying(pos: seq<nat>, d: Coords, cd: Coords, n: nat, j: nat, u: nat) {
    && 1 <= n < |pos| && |d| == |cd| == n - 1 && u < n && u < j
    && (forall k :: 1 <= k <= u ==> pos[k] == 0) && (forall k :: 0 <= k < u ==> d[k] + 1 >= cd[k])
    && (if u < n - 1 then pos[u + 1] == d[u] + 1 && pos[n] == 0 else pos[n] == 1)
    && (forall k :: u < k < n - 1 ==> pos[k + 1] == d[k])
    && (u < j - 1 && u < n - 1 ==> d[u] + 1 < cd[u])
  }

  lemma CarryEnds(pos: seq<nat>, d: Coords, cd: Coords, n: nat, j: nat, u: nat)
    requires Carrying(pos, d, cd, n, j, u) && u < j - 1
    ensures u == Carries(d, cd) && Rows(pos, n, Next(d, cd)) && (u < n - 1 ==> pos[n] == 0)
  {
    CarriesIs(d, cd, u);
    var next := Next(d, cd);
    forall k | 0 <= k < n - 1
      ensures pos[1..n][k] == next[k]
    {
      NextAt(d, cd, k);
      assert pos[1..n][k] == pos[k + 1] && d[k] >= 0;
    }
  }

  lemma CarryStarts(pos: seq<nat>, d: Coords, cd: Coords, n: nat)
    requires Rows(pos, n, d) && |d| == |cd| && pos[n] == 0
    ensures Carrying(pos[1 := pos[1] + 1], d, cd, n, 1, 0)
  {
    forall k | 0 <= k < n - 1
      ensures pos[k + 1] == d[k]
    {
      assert pos[1..n][k] == pos[k + 1];
    }
  }

  /** The dimension at hand wraps, and the next one advances. */
  lemma CarryOn(pos: seq<nat>, d: Coords, cd: Coords, n: nat, j: nat)
    requires 1 <= j < n && Carrying(pos, d, cd, n, j, j - 1) && pos[j] == cd[j - 1]
    ensures Carrying(pos[j := 0][j + 1 := pos[j + 1] + 1], d, cd, n, j + 1, j)
  {
    var after := pos[j := 0][j + 1 := pos[j + 1] + 1];
    if j < n - 1 { assert pos[j + 1] == d[j]; }
    forall k | j < k < n - 1
      ensures after[k + 1] == d[k]
    {
      assert pos[k + 1] == d[k];
    }
  }

  /** It does not, or the carry had already stopped. */
  lemma CarryStops(pos: seq<nat>, d: Coords, cd: Coords, n: nat, j: nat, u: nat)
    requires 1 <= j <= n && Carrying(pos, d, cd, n, j, u) && Within(d, cd)
    ensures u < j - 1 && j < n ==> pos[j] != cd[j - 1]
    ensures (u < j - 1 || j == n || pos[j] != cd[j - 1]) ==> Carrying(pos, d, cd, n, j + 1, u)
  {
    if u < j - 1 && j < n { assert pos[j - 1 + 1] == d[j - 1]; }
    if u == j - 1 && j < n { assert pos[u + 1] == d[u] + 1 && d[u] < cd[u]; }
  }

  /** Moves the row coordinates on, as far as carries reach; the highest dimension in use rises with them. */
  method NextRow(chunkPos: array<nat>, cd: array<nat>, n: nat, currMaxDim0: nat, ghost d: Coords) returns (useUpdate: nat, currMaxDim: nat)
    requires 1 <= n <= HDF5_MAX_DIMS && chunkPos.Length == cd.Length == HDF5_MAX_DIMS + 1 && chunkPos != cd && cd[n] == 0
    requires Rows(chunkPos[..], n, d) && Within(d, cd[1..n]) && ZeroAbove(chunkPos[..], n, currMaxDim0)
    modifies chunkPos
    ensures useUpdate == Carries(d, cd[1..n]) && Rows(chunkPos[..], n, Next(d, cd[1..n]))
    ensures useUpdate < n - 1 ==> ZeroAbove(chunkPos[..], n, currMaxDim)
  {
    ghost var sizes := cd[1..n];
    ghost var before := chunkPos[..];
    currMaxDim := currMaxDim0;
    chunkPos[1] := chunkPos[1] + 1;
    useUpdate := 0;
    assert chunkPos[..] == before[1 := before[1] + 1];
    CarryStarts(before, d, sizes, n);
    hide Carrying;
    var j := 1;
    while j < currMaxDim
      invariant 1 <= j <= n + 1 && Carrying(chunkPos[..], d, sizes, n, j, useUpdate)
      invariant useUpdate == j - 1 ==> currMaxDim >= j + 1
      invariant useUpdate < currMaxDim - 1 && 2 <= currMaxDim <= n + 1
      invariant (forall k :: currMaxDim <= k < n ==> chunkPos[k] == 0) && (currMaxDim <= n || currMaxDim == 2 || useUpdate == n - 1)
      decreases HDF5_MAX_DIMS + 2 - j
    {
      ghost var was := chunkPos[..];
      CarryStops(was, d, sizes, n, j, useUpdate);
      assert j < n ==> sizes[j - 1] == cd[j];
      if chunkPos[j] == cd[j] {
        CarryOn(was, d, sizes, n, j);
        chunkPos[j] := 0;
        chunkPos[j + 1] := chunkPos[j + 1] + 1;
        assert chunkPos[..] == was[j := 0][j + 1 := was[j + 1] + 1];
        currMaxDim := if currMaxDim <= j + 1 then currMaxDim + 1 else currMaxDim;
        useUpdate := useUpdate + 1;
      }
      j := j + 1;
    }
    CarryEnds(chunkPos[..], d, sizes, n, j, useUpdate);
  }

  // ---- Copying a chunk ---------------------------------------------------------------------

  /** The chunk's elements, where the chunk starts in the array, the size of the part inside the array, and the
      dimensions of the chunk and of the array. */
  datatype Job<T> = Job(buf: seq<T>, base: nat, cd: Coords, chunkDims: Coords, dims: Coords)

  /** Where an element of the chunk belongs in the array. */
  function Target<T>(job: Job<T>, c: Coords): nat
    requires |c| == |job.dims|
  {
    job.base + Position(c, job.dims)
  }

  ghost predicate GoodJob<T>(job: Job<T>) {
    && 1 <= |job.dims| <= HDF5_MAX_DIMS && Fits(job.cd, job.dims) && Fits(job.cd, job.chunkDims)
    && (forall c: Coords :: Within(c, job.cd) ==> Target(job, c) < Product(job.dims))
    && |job.buf| >= Product(job.chunkDims)
  }

  ghost predicate Placed<T>(job: Job<T>, out: seq<T>, c: Coords)
    requires |c| == |job.dims| == |job.chunkDims|
  {
    && Target(job, c) < |out| && Position(c, job.chunkDims) < |job.buf|
    && out[Target(job, c)] == job.buf[Position(c, job.chunkDims)]
  }

  /** No element of the chunk belongs at p. */
  ghost predicate Outside<T>(job: Job<T>, p: nat)
    requires |job.cd| == |job.dims|
  {
    forall c: Coords :: Within(c, job.cd) ==> p != Target(job, c)
  }

  /** Below index every element of the chunk is in its place; nothing else differs from before. */
  ghost predicate PlacedBelow<T>(job: Job<T>, before: seq<T>, out: seq<T>, index: nat)
    requires |job.cd| == |job.dims| == |job.chunkDims|
  {
    && |out| == |before|
    && (forall c: Coords :: Within(c, job.cd) && Target(job, c) < index ==> Placed(job, out, c))
    && forall p: nat :: p < |out| && (p >= index || Outside(job, p)) ==> out[p] == before[p]
  }

  /** Every element of the chunk that lies in the array is at its column-major place, and nothing else has changed. */
  ghost predicate Scattered<T>(job: Job<T>, before: seq<T>, out: seq<T>)
    requires |job.cd| == |job.dims| == |job.chunkDims|
  {
    && |out| == |before|
    && (forall c: Coords :: Within(c, job.cd) ==> Placed(job, out, c))
    && forall p: nat :: p < |out| && Outside(job, p) ==> out[p] == before[p]
  }

  lemma WithinRow(x: nat, d: Coords, cd: Coords)
    requires cd != [] && x < cd[0] && Within(d, cd[1..])
    ensures Within([x] + d, cd)
  {
    forall k | 0 <= k < |cd|
      ensures ([x] + d)[k] < cd[k]
    {
      if k > 0 { assert d[k - 1] < cd[1..][k - 1]; }
    }
  }

  lemma RowPosition(x: nat, d: Coords, dims: Coords)
    requires |dims| == |d| + 1
    ensures Position([x] + d, dims) == Position([0] + d, dims) + x
  {
    assert ([x] + d)[1..] == d && ([0] + d)[1..] == d;
  }

  /** The last element of a row, and what comes after it. */
  lemma RowEnd(d: Coords, cd: Coords)
    requires cd != [] && cd[0] > 0 && |d| == |cd| - 1
    ensures Next([cd[0] - 1] + d, cd) == [0] + Next(d, cd[1..]) && Carries([cd[0] - 1] + d, cd) == 1 + Carries(d, cd[1..])
  {
    assert ([cd[0] - 1] + d)[1..] == d;
  }

  /** An element of the chunk before the next row is not past the end of row d. */
  lemma NotPastRow<T>(job: Job<T>, d: Coords, c: Coords, next: nat)
    requires GoodJob(job) && Within(c, job.cd) && Within(d, job.cd[1..]) && Target(job, c) < next
    requires Carries(d, job.cd[1..]) < |d| ==> next == Target(job, [0] + Next(d, job.cd[1..]))
    ensures Target(job, c) < Target(job, [0] + d) + job.cd[0]
  {
    hide Product;
    var last := [job.cd[0] - 1] + d;
    WithinRow(job.cd[0] - 1, d, job.cd);
    RowEnd(d, job.cd);
    RowPosition(job.cd[0] - 1, d, job.dims);
    if Position(c, job.dims) > Position(last, job.dims) {
      NextIsLeast(c, last, job.cd, job.dims);
    }
  }

  /** An element of the chunk at or after the start of row d and before the next row is in row d. */
  lemma InRow<T>(job: Job<T>, d: Coords, c: Coords, next: nat)
    requires GoodJob(job) && Within(c, job.cd) && Within(d, job.cd[1..])
    requires Target(job, [0] + d) <= Target(job, c) < next
    requires Carries(d, job.cd[1..]) < |d| ==> next == Target(job, [0] + Next(d, job.cd[1..]))
    ensures var x := Target(job, c) - Target(job, [0] + d); x < job.cd[0] && c == [x] + d
  {
    hide Product, Position;
    NotPastRow(job, d, c, next);
    var x := Target(job, c) - Target(job, [0] + d);
    WithinRow(x, d, job.cd);
    RowPosition(x, d, job.dims);
    FitsWithin([x] + d, job.cd, job.dims);
    FitsWithin(c, job.cd, job.dims);
    PositionsDiffer(c, [x] + d, job.dims);
  }

  lemma FitsWithin(c: Coords, cd: Coords, dims: Coords)
    requires Within(c, cd) && Fits(cd, dims)
    ensures Within(c, dims)
  {
  }

  lemma RowNotOutside<T>(job: Job<T>, d: Coords, index: nat, p: nat)
    requires GoodJob(job) && Within(d, job.cd[1..]) && index == Target(job, [0] + d)
    ensures index <= p < index + job.cd[0] ==> !Outside(job, p)
  {
    hide Product;
    if index <= p < index + job.cd[0] {
      WithinRow(p - index, d, job.cd);
      RowPosition(p - index, d, job.dims);
      assert Target(job, [p - index] + d) == p;
    }
  }

  /** Copying row d and moving on. */
  lemma RowPlaced<T>(job: Job<T>, before: seq<T>, out: seq<T>, after: seq<T>, d: Coords, index: nat, source: nat, next: nat)
    requires GoodJob(job) && Within(d, job.cd[1..]) && |before| == Product(job.dims)
    requires PlacedBelow(job, before, out, index) && index == Target(job, [0] + d) && source == Position([0] + d, job.chunkDims)
    requires |after| == |out| && index + job.cd[0] <= |out| && source + job.cd[0] <= |job.buf|
    requires forall p: nat :: p < |out| ==>
      after[p] == if index <= p < index + job.cd[0] then job.buf[source + (p - index)] else out[p]
    requires next >= index + job.cd[0]
    requires Carries(d, job.cd[1..]) < |d| ==> next == Target(job, [0] + Next(d, job.cd[1..]))
    ensures PlacedBelow(job, before, after, next)
  {
    hide Product, Position, Next, Carries;
    forall c: Coords | Within(c, job.cd) && Target(job, c) < next
      ensures Placed(job, after, c)
    {
      if Target(job, c) < index {
        assert Placed(job, out, c);
      } else {
        InRow(job, d, c, next);
        RowPosition(Target(job, c) - index, d, job.chunkDims);
      }
    }
    forall p: nat | p < |after| && (p >= next || Outside(job, p))
      ensures after[p] == before[p]
    {
      RowNotOutside(job, d, index, p);
    }
  }

  /** The state of the copy loop: at the start of row d, or past the end of the array. */
  ghost predicate AtRow<T>(job: Job<T>, d: Coords, index: nat, source: nat) {
    GoodJob(job) && Within(d, job.cd[1..]) && index == Target(job, [0] + d) && source == Position([0] + d, job.chunkDims)
  }

  /** The next row of array and chunk, from the number of carries. */
  lemma RowMoves<T>(job: Job<T>, d: Coords, index: nat, source: nat, u: nat)
    requires AtRow(job, d, index, source) && u == Carries(d, job.cd[1..])
    ensures Jump(job.cd, job.dims, u + 1) >= 1 && Jump(job.cd, job.chunkDims, u + 1) >= 1
    ensures u < |d| ==>
      AtRow(job, Next(d, job.cd[1..]), index + job.cd[0] + Jump(job.cd, job.dims, u + 1) - 1,
            source + job.cd[0] + Jump(job.cd, job.chunkDims, u + 1) - 1)
    ensures u == |d| ==> index + job.cd[0] + Jump(job.cd, job.dims, u + 1) - 1 == job.base + Product(job.dims)
  {
    hide Product, Jump, Position;
    var last := [job.cd[0] - 1] + d;
    WithinRow(job.cd[0] - 1, d, job.cd);
    RowEnd(d, job.cd);
    RowPosition(job.cd[0] - 1, d, job.dims);
    RowPosition(job.cd[0] - 1, d, job.chunkDims);
    JumpForward(job.cd, job.dims, u + 1);
    JumpForward(job.cd, job.chunkDims, u + 1);
    NextWithin(d, job.cd[1..]);
    if u < |d| {
      NextJumps(last, job.cd, job.dims);
      NextJumps(last, job.cd, job.chunkDims);
    } else {
      LastJump(last, job.cd, job.dims);
    }
  }

  /** The rows are inside the array and inside the chunk. */
  lemma RowInside<T>(job: Job<T>, d: Coords)
    requires GoodJob(job) && Within(d, job.cd[1..])
    ensures Target(job, [0] + d) + job.cd[0] <= Product(job.dims)
    ensures Position([0] + d, job.chunkDims) + job.cd[0] <= |job.buf|
  {
    hide Product, Position;
    var last := [job.cd[0] - 1] + d;
    WithinRow(job.cd[0] - 1, d, job.cd);
    RowPosition(job.cd[0] - 1, d, job.dims);
    RowPosition(job.cd[0] - 1, d, job.chunkDims);
    FitsWithin(last, job.cd, job.chunkDims);
    PositionInside(last, job.chunkDims);
    assert Target(job, last) < Product(job.dims);
  }

  /** The first row starts at the chunk's own start. */
  lemma {:induction false} ZerosPosition(d: Coords, dims: Coords)
    requires |d| == |dims| && forall k :: 0 <= k < |d| ==> d[k] == 0
    ensures Position(d, dims) == 0
  {
    if d != [] { ZerosPosition(d[1..], dims[1..]); }
  }

  /** placeData for elements in native byte order. */
  method PlaceData<T>(out: array<T>, buf: seq<T>, dst: nat, src: nat, count: nat)
    requires dst + count <= out.Length && src + count <= |buf|
    modifies out
    ensures forall p: nat :: p < out.Length ==> out[p] == if dst <= p < dst + count then buf[src + (p - dst)] else old(out[p])
  {
    for i := 0 to count
      invariant forall p: nat :: p < out.Length ==> out[p] == if dst <= p < dst + i then buf[src + (p - dst)] else old(out[p])
    {
      out[dst + i] := buf[src + i];
    }
  }

  lemma FirstRow<T>(job: Job<T>, d: Coords, out: seq<T>)
    requires GoodJob(job) && |d| == |job.dims| - 1 && forall k :: 0 <= k < |d| ==> d[k] == 0
    ensures AtRow(job, d, job.base, 0) && PlacedBelow(job, out, out, job.base)
  {
    hide Product;
    ZerosPosition([0] + d, job.dims);
    ZerosPosition([0] + d, job.chunkDims);
  }

  lemma AllPlaced<T>(job: Job<T>, before: seq<T>, out: seq<T>, index: nat)
    requires GoodJob(job) && |before| == Product(job.dims) && PlacedBelow(job, before, out, index) && index >= Product(job.dims)
    ensures Scattered(job, before, out)
  {
    hide Product;
    forall c: Coords | Within(c, job.cd)
      ensures Placed(job, out, c)
    {
      assert Target(job, c) < Product(job.dims);
    }
  }

  /** The copy loop. Nothing but the position in the array ends it: the count of elements used is never advanced. */
  method CopyRows<T>(out: array<T>, job: Job<T>, cd: array<nat>, chunkPos: array<nat>, indexUpdates: seq<int>, chunkedUpdates: seq<int>, count: nat)
    requires GoodJob(job) && out.Length == Product(job.dims) && count > 0
    requires cd != chunkPos && cd.Length == chunkPos.Length == HDF5_MAX_DIMS + 1
    requires out as object != cd && out as object != chunkPos
    requires cd[..|job.dims|] == job.cd && cd[|job.dims|] == 0 && forall k :: 0 <= k < chunkPos.Length ==> chunkPos[k] == 0
    requires UpdatesFor(indexUpdates, job.cd, job.dims) && UpdatesFor(chunkedUpdates, job.cd, job.chunkDims)
    modifies out, chunkPos
    ensures Scattered(job, old(out[..]), out[..])
  {
    var n := |job.dims|;
    ghost var before := out[..];
    var currMaxDim: nat, source: nat, numUsed: nat := 2, 0, 0;
    var index: nat := job.base;
    ghost var d: Coords := chunkPos[1..n];
    FirstRow(job, d, before);
    assert cd[1..n] == job.cd[1..];
    while index < out.Length && numUsed < count
      invariant numUsed == 0 && cd[..n] == job.cd && cd[n] == 0 && cd[1..n] == job.cd[1..]
      invariant PlacedBelow(job, before, out[..], index)
      invariant index < out.Length ==> AtRow(job, d, index, source) && Rows(chunkPos[..], n, d) && ZeroAbove(chunkPos[..], n, currMaxDim)
      decreases out.Length - index
    {
      ghost var placed, row, from := out[..], index, source;
      RowInside(job, d);
      PlaceData(out, job.buf, index, source, cd[0]);
      index, source := index + cd[0], source + cd[0];
      var useUpdate, max := NextRow(chunkPos, cd, n, currMaxDim, d);
      currMaxDim := max;
      RowMoves(job, d, row, from, useUpdate);
      index, source := index + indexUpdates[useUpdate], source + chunkedUpdates[useUpdate];
      RowPlaced(job, before, placed, out[..], d, row, from, index);
      d := Next(d, job.cd[1..]);
    }
    AllPlaced(job, before, out[..], index);
  }

  /** The job for the chunk that starts at these coordinates. */
  function ChunkJob<T>(buf: seq<T>, start: Coords, chunkDims: Coords, dims: Coords): Job<T>
    requires Within(start, dims) && |chunkDims| == |dims|
  {
    Job(buf, Position(start, dims), Clipped(start, chunkDims, dims), chunkDims, dims)
  }

  ghost predicate GoodChunk<T>(buf: seq<T>, start: Coords, chunkDims: Coords, dims: Coords) {
    && 1 <= |dims| <= HDF5_MAX_DIMS && |chunkDims| == |dims| && Within(start, dims)
    && (forall k :: 0 <= k < |chunkDims| ==> chunkDims[k] > 0) && |buf| >= Product(chunkDims)
  }

  /** Element c of the chunk goes to the place of the array coordinates start + c. */
  lemma TargetIs<T>(buf: seq<T>, start: Coords, chunkDims: Coords, dims: Coords, c: Coords)
    requires GoodChunk(buf, start, chunkDims, dims) && Within(c, Clipped(start, chunkDims, dims))
    ensures Within(Plus(start, c), dims) && Target(ChunkJob(buf, start, chunkDims, dims), c) == Position(Plus(start, c), dims) < Product(dims)
  {
    hide Product, Position;
    PositionPlus(start, c, dims);
    forall k | 0 <= k < |c|
      ensures start[k] + c[k] < dims[k]
    {
      assert c[k] < Clipped(start, chunkDims, dims)[k];
    }
    PositionInside(Plus(start, c), dims);
  }

  lemma ChunkJobIsGood<T>(buf: seq<T>, start: Coords, chunkDims: Coords, dims: Coords)
    requires GoodChunk(buf, start, chunkDims, dims)
    ensures GoodJob(ChunkJob(buf, start, chunkDims, dims))
  {
    hide Product, Position;
    var job := ChunkJob(buf, start, chunkDims, dims);
    forall c: Coords | Within(c, job.cd)
      ensures Target(job, c) < Product(job.dims)
    {
      TargetIs(buf, start, chunkDims, dims, c);
    }
    assert forall k :: 0 <= k < |dims| ==> start[k] < dims[k];
  }

  /** An unclipped chunk has no jumps inside itself. */
  lemma NoInnerJumps(zeros: seq<int>, cd: Coords)
    requires |cd| <= |zeros| && forall k :: 0 <= k < |cd| ==> zeros[k] == 0
    ensures UpdatesFor(zeros, cd, cd)
  {
    forall i | 0 <= i < |cd|
      ensures zeros[i] == Jump(cd, cd, i + 1) - 1
    {
      NoJump(cd, i + 1);
    }
  }

  /** Number of elements of the part inside the array. */
  method CountElements(cd: Coords) returns (count: nat)
    requires forall k :: 0 <= k < |cd| ==> cd[k] > 0
    ensures count > 0
  {
    count := 1;
    for k := 0 to |cd|
      invariant count > 0
    {
      count := count * cd[k];
    }
  }

  /** The extents of the part inside the array, and whether it is less than the chunk. */
  method ClipChunk(cd: array<nat>, start: Coords, chunkDims: Coords, dims: Coords) returns (clipped: bool)
    requires |start| == |chunkDims| == |dims| < cd.Length && Within(start, dims)
    requires forall k :: 0 <= k < cd.Length ==> cd[k] == 0
    modifies cd
    ensures cd[..|dims|] == Clipped(start, chunkDims, dims) && cd[|dims|] == 0
    ensures !clipped ==> Clipped(start, chunkDims, dims) == chunkDims
  {
    ghost var inside := Clipped(start, chunkDims, dims);
    clipped := false;
    for j := 0 to |dims|
      invariant forall k :: 0 <= k < j ==> cd[k] == inside[k]
      invariant forall k :: j <= k < cd.Length ==> cd[k] == 0
      invariant !clipped ==> forall k :: 0 <= k < j ==> inside[k] == chunkDims[k]
    {
      cd[j] := chunkDims[j] - (if start[j] + chunkDims[j] > dims[j] then start[j] + chunkDims[j] - dims[j] else 0);
      clipped := clipped || cd[j] != chunkDims[j];
    }
    assert !clipped ==> inside == chunkDims;
  }

  /** Copies a decompressed chunk into the array, whatever edges of the array it collides with. */
  method CopyChunk<T>(out: array<T>, buf: seq<T>, start: Coords, chunkDims: Coords, dims: Coords, chunkUpdate: seq<int>)
    requires GoodChunk(buf, start, chunkDims, dims) && out.Length == Product(dims)
    requires UpdatesFor(chunkUpdate, chunkDims, dims)
    modifies out
    ensures Scattered(ChunkJob(buf, start, chunkDims, dims), old(out[..]), out[..])
  {
    hide Product, Position, Scattered, Jump, Clipped;
    var n := |dims|;
    ghost var job := ChunkJob(buf, start, chunkDims, dims);
    ChunkJobIsGood(buf, start, chunkDims, dims);
    var base := FindArrayPosition(start, dims);
    var cd := new nat[HDF5_MAX_DIMS + 1](_ => 0);
    var chunkPos := new nat[HDF5_MAX_DIMS + 1](_ => 0);
    var clipped := ClipChunk(cd, start, chunkDims, dims);
    var indexUpdates, chunkedUpdates := ChooseUpdates(clipped, cd[..n], chunkDims, dims, chunkUpdate);
    var count := CountElements(cd[..n]);
    CopyRows(out, Job(buf, base, cd[..n], chunkDims, dims), cd, chunkPos, indexUpdates, chunkedUpdates, count);
  }

  /** The distances between rows: those of a whole chunk unless this one is clipped. */
  method ChooseUpdates(clipped: bool, cd: Coords, chunkDims: Coords, dims: Coords, chunkUpdate: seq<int>)
    returns (indexUpdates: seq<int>, chunkedUpdates: seq<int>)
    requires 1 <= |dims| <= HDF5_MAX_DIMS && |cd| == |chunkDims| == |dims| && UpdatesFor(chunkUpdate, chunkDims, dims)
    requires !clipped ==> cd == chunkDims
    ensures UpdatesFor(indexUpdates, cd, dims) && UpdatesFor(chunkedUpdates, cd, chunkDims)
  {
    hide Jump;
    var updates := new int[HDF5_MAX_DIMS](_ => 0);
    var chunked := new int[HDF5_MAX_DIMS](_ => 0);
    for j := 0 to |dims|
      invariant forall k :: 0 <= k < j ==> updates[k] == chunkUpdate[k]
      invariant forall k :: 0 <= k < HDF5_MAX_DIMS ==> chunked[k] == 0
    {
      updates[j] := chunkUpdate[j];
    }
    if clipped {
      MakeChunkedUpdates(updates, cd, dims);
      MakeChunkedUpdates(chunked, cd, chunkDims);
    } else {
      NoInnerJumps(chunked[..], chunkDims);
    }
    indexUpdates, chunkedUpdates := updates[..], chunked[..];
  }
}
