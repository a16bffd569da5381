/** A grid of chunks over an array: the chunks share no element, and together they are the whole array. */
module ChunkGrid {
  import opened ChunkIndex
  import opened ChunkScatter
  import opened PagePool
  import opened PageSafety
  import opened PoolRuns
  import opened PoolArray

  /** The coordinates of element number e of a block, in column-major order. */
  function CoordsOf(e: nat, cd: Coords): (c: Coords)
    requires forall k :: 0 <= k < |cd| ==> cd[k] > 0
    ensures |c| == |cd|
    decreases |cd|
  {
    if cd == [] then [] else [e % cd[0]] + CoordsOf(e / cd[0], cd[1..])
  }

  lemma {:induction false} CoordsWithin(e: nat, cd: Coords)
    requires forall k :: 0 <= k < |cd| ==> cd[k] > 0
    ensures Within(CoordsOf(e, cd), cd)
    decreases |cd|
  {
    if cd != [] {
      CoordsWithin(e / cd[0], cd[1..]);
      var c, rest := CoordsOf(e, cd), CoordsOf(e / cd[0], cd[1..]);
      forall k | 0 <= k < |cd|
        ensures c[k] < cd[k]
      {
        if k > 0 { assert rest[k - 1] < cd[1..][k - 1]; }
      }
    }
  }

  lemma Divide(x: nat, q: nat, d: nat)
    requires x < d
    ensures (x + d * q) / d == q && (x + d * q) % d == x
  {
    var v := x + d * q;
    assert v == d * (v / d) + v % d;
    Times(d, v / d, q);
    Times(d, q, v / d);
  }

  /** Every element has a number. */
  lemma {:induction false} CoordsOfPosition(c: Coords, cd: Coords)
    requires Within(c, cd)
    ensures forall k :: 0 <= k < |cd| ==> cd[k] > 0
    ensures CoordsOf(Position(c, cd), cd) == c
  {
    assert forall k :: 0 <= k < |cd| ==> c[k] < cd[k];
    if c != [] {
      TailWithin(c, cd);
      CoordsOfPosition(c[1..], cd[1..]);
      Divide(c[0], Position(c[1..], cd[1..]), cd[0]);
    }
  }

  lemma {:induction false} PositionOfCoords(e: nat, cd: Coords)
    requires (forall k :: 0 <= k < |cd| ==> cd[k] > 0) && e < Product(cd)
    ensures Position(CoordsOf(e, cd), cd) == e
    decreases |cd|
  {
    if cd != [] {
      var q := e / cd[0];
      assert e == cd[0] * q + e % cd[0];
      Times(cd[0], Product(cd[1..]), q);
      PositionOfCoords(q, cd[1..]);
      assert CoordsOf(e, cd)[1..] == CoordsOf(q, cd[1..]);
    }
  }

  // ---- Cells -------------------------------------------------------------------------------

  /** The chunks of an array: where each starts and its decompressed elements, with the page it is read from. */
  datatype Cell<T> = Cell(start: Coords, data: seq<T>, page: nat, need: nat)

  predicate OnGrid(start: Coords, chunkDims: Coords, dims: Coords) {
    && |chunkDims| == |dims| && Within(start, dims)
    && forall k :: 0 <= k < |start| ==> chunkDims[k] > 0 && start[k] % chunkDims[k] == 0
  }

  ghost predicate GoodCells<T>(cells: seq<Cell<T>>, chunkDims: Coords, dims: Coords) {
    && 1 <= |dims| <= HDF5_MAX_DIMS
    && (forall c :: 0 <= c < |cells| ==> OnGrid(cells[c].start, chunkDims, dims) && |cells[c].data| >= Product(chunkDims))
    && forall c, d :: 0 <= c < d < |cells| ==> cells[c].start != cells[d].start
  }

  lemma CellIsChunk<T>(cells: seq<Cell<T>>, chunkDims: Coords, dims: Coords, c: nat)
    requires GoodCells(cells, chunkDims, dims) && c < |cells|
    ensures ChunkScatter.GoodChunk(cells[c].data, cells[c].start, chunkDims, dims)
    ensures GoodJob(ChunkJob(cells[c].data, cells[c].start, chunkDims, dims))
  {
    assert OnGrid(cells[c].start, chunkDims, dims);
    ChunkJobIsGood(cells[c].data, cells[c].start, chunkDims, dims);
  }

  lemma ClippedPositive(start: Coords, chunkDims: Coords, dims: Coords)
    requires OnGrid(start, chunkDims, dims)
    ensures forall k :: 0 <= k < |dims| ==> 0 < Clipped(start, chunkDims, dims)[k] <= chunkDims[k]
  {
  }

  /** The start of the cell that array coordinates a lie in, and a's coordinates inside it. */
  function StartOf(a: Coords, chunkDims: Coords): (r: Coords)
    requires |a| == |chunkDims| && forall k :: 0 <= k < |chunkDims| ==> chunkDims[k] > 0
    ensures |r| == |a| && forall k :: 0 <= k < |a| ==> r[k] == a[k] - a[k] % chunkDims[k]
  {
    seq(|a|, k requires 0 <= k < |a| => a[k] - a[k] % chunkDims[k])
  }

  function InsideOf(a: Coords, chunkDims: Coords): (r: Coords)
    requires |a| == |chunkDims| && forall k :: 0 <= k < |chunkDims| ==> chunkDims[k] > 0
    ensures |r| == |a| && forall k :: 0 <= k < |a| ==> r[k] == a[k] % chunkDims[k]
  {
    seq(|a|, k requires 0 <= k < |a| => a[k] % chunkDims[k])
  }

  lemma OneDimension(start: nat, c: nat, size: nat)
    requires size > 0 && start % size == 0 && c < size
    ensures (start + c) % size == c && start + c - (start + c) % size == start
  {
    assert start == size * (start / size);
    Divide(c, start / size, size);
  }

  /** An element of a cell determines the cell and its coordinates there. */
  lemma CellOf(start: Coords, chunkDims: Coords, dims: Coords, c: Coords)
    requires OnGrid(start, chunkDims, dims) && Within(c, Clipped(start, chunkDims, dims))
    ensures StartOf(Plus(start, c), chunkDims) == start && InsideOf(Plus(start, c), chunkDims) == c
  {
    ClippedPositive(start, chunkDims, dims);
    var a := Plus(start, c);
    forall k | 0 <= k < |a|
      ensures a[k] % chunkDims[k] == c[k] && a[k] - a[k] % chunkDims[k] == start[k]
    {
      assert c[k] < Clipped(start, chunkDims, dims)[k];
      OneDimension(start[k], c[k], chunkDims[k]);
    }
    assert StartOf(a, chunkDims) == start;
    assert InsideOf(a, chunkDims) == c;
  }

  /** And any array coordinates lie in the cell that they determine. */
  lemma InItsCell(a: Coords, chunkDims: Coords, dims: Coords)
    requires Within(a, dims) && |chunkDims| == |dims| && forall k :: 0 <= k < |chunkDims| ==> chunkDims[k] > 0
    ensures OnGrid(StartOf(a, chunkDims), chunkDims, dims)
    ensures Within(InsideOf(a, chunkDims), Clipped(StartOf(a, chunkDims), chunkDims, dims))
    ensures Plus(StartOf(a, chunkDims), InsideOf(a, chunkDims)) == a
  {
    var s, c := StartOf(a, chunkDims), InsideOf(a, chunkDims);
    forall k | 0 <= k < |a|
      ensures s[k] < dims[k] && s[k] % chunkDims[k] == 0 && s[k] + c[k] == a[k]
    {
      assert a[k] < dims[k];
      assert a[k] == chunkDims[k] * (a[k] / chunkDims[k]) + a[k] % chunkDims[k];
      Divide(0, a[k] / chunkDims[k], chunkDims[k]);
    }
    assert Plus(s, c) == a;
  }

  // ---- The chunks of the pool --------------------------------------------------------------

  /** The stores that copying a cell makes. */
  function CellWrites<T>(cell: Cell<T>, chunkDims: Coords, dims: Coords): (r: seq<Write<T>>)
    requires OnGrid(cell.start, chunkDims, dims) && 1 <= |dims| <= HDF5_MAX_DIMS && |cell.data| >= Product(chunkDims)
    ensures |r| == Product(Clipped(cell.start, chunkDims, dims))
    ensures forall e :: 0 <= e < |r| ==> r[e] == CellWrite(cell, chunkDims, dims, e)
  {
    seq(Product(Clipped(cell.start, chunkDims, dims)), e requires 0 <= e => CellWrite(cell, chunkDims, dims, e))
  }

  function CellWrite<T>(cell: Cell<T>, chunkDims: Coords, dims: Coords, e: nat): Write<T>
    requires OnGrid(cell.start, chunkDims, dims) && 1 <= |dims| <= HDF5_MAX_DIMS && |cell.data| >= Product(chunkDims)
  {
    var cd := Clipped(cell.start, chunkDims, dims);
    var c := CoordsOf(e, cd);
    CoordsWithin(e, cd);
    ClippedPositive(cell.start, chunkDims, dims);
    InsideChunk(c, cd, chunkDims);
    Write(Target(ChunkJob(cell.data, cell.start, chunkDims, dims), c), cell.data[Position(c, chunkDims)])
  }

  lemma InsideChunk(c: Coords, cd: Coords, chunkDims: Coords)
    requires Within(c, cd) && |cd| == |chunkDims| && forall k :: 0 <= k < |cd| ==> cd[k] <= chunkDims[k]
    ensures Position(c, chunkDims) < Product(chunkDims)
  {
    assert forall k :: 0 <= k < |c| ==> c[k] < cd[k];
    PositionInside(c, chunkDims);
  }

  ghost predicate GridConfig<T>(cfg: Config<T>, cells: seq<Cell<T>>, chunkDims: Coords, dims: Coords) {
    && GoodCells(cells, chunkDims, dims) && |cfg.chunks| == |cells| && cfg.size == Product(dims)
    && forall c :: 0 <= c < |cells| ==>
         OnGrid(cells[c].start, chunkDims, dims) && cfg.chunks[c] == Chunk(cells[c].page, cells[c].need, CellWrites(cells[c], chunkDims, dims))
  }

  /** Where element e of cell c goes: to array coordinates that determine both c and e. */
  lemma WriteOf<T>(cfg: Config<T>, cells: seq<Cell<T>>, chunkDims: Coords, dims: Coords, c: nat, e: nat) returns (a: Coords)
    requires GridConfig(cfg, cells, chunkDims, dims) && c < |cells| && e < |cfg.chunks[c].writes|
    ensures Within(a, dims) && cfg.chunks[c].writes[e].pos == Position(a, dims) < Product(dims)
    ensures |chunkDims| == |dims| && (forall k :: 0 <= k < |chunkDims| ==> chunkDims[k] > 0)
    ensures StartOf(a, chunkDims) == cells[c].start
    ensures e == Position(InsideOf(a, chunkDims), Clipped(cells[c].start, chunkDims, dims))
  {
    hide Product, Position;
    var cell := cells[c];
    var cd := Clipped(cell.start, chunkDims, dims);
    CellIsChunk(cells, chunkDims, dims, c);
    ClippedPositive(cell.start, chunkDims, dims);
    CoordsWithin(e, cd);
    PositionOfCoords(e, cd);
    TargetIs(cell.data, cell.start, chunkDims, dims, CoordsOf(e, cd));
    CellOf(cell.start, chunkDims, dims, CoordsOf(e, cd));
    a := Plus(cell.start, CoordsOf(e, cd));
    assert cfg.chunks[c].writes[e] == CellWrite(cell, chunkDims, dims, e);
  }

  /** The chunks of a grid share no element. */
  lemma GridIsDisjoint<T>(cfg: Config<T>, cells: seq<Cell<T>>, chunkDims: Coords, dims: Coords)
    requires GridConfig(cfg, cells, chunkDims, dims)
    ensures Disjoint(cfg)
  {
    hide Product, Position, GoodCells, CellWrites, StartOf, InsideOf;
    forall c: nat, j: nat, d: nat, k: nat |
      c < |cfg.chunks| && d < |cfg.chunks| && j < |cfg.chunks[c].writes| && k < |cfg.chunks[d].writes| && (c != d || j != k)
      ensures cfg.chunks[c].writes[j].pos != cfg.chunks[d].writes[k].pos
    {
      var a := WriteOf(cfg, cells, chunkDims, dims, c, j);
      var b := WriteOf(cfg, cells, chunkDims, dims, d, k);
      SameCell(cells, chunkDims, dims, c, d);
      if Position(a, dims) == Position(b, dims) { PositionsDiffer(a, b, dims); }
    }
  }

  lemma SameCell<T>(cells: seq<Cell<T>>, chunkDims: Coords, dims: Coords, c: nat, d: nat)
    requires GoodCells(cells, chunkDims, dims) && c < |cells| && d < |cells|
    ensures c == d || cells[c].start != cells[d].start
  {
  }

  /** The element of the logical array at coordinates a of cell c. */
  function Logical<T>(cells: seq<Cell<T>>, chunkDims: Coords, dims: Coords, c: nat, a: Coords): T
    requires c < |cells| && |a| == |chunkDims| && (forall k :: 0 <= k < |chunkDims| ==> chunkDims[k] > 0)
    requires |cells[c].data| >= Product(chunkDims)
  {
    InsideChunkDims(a, chunkDims);
    cells[c].data[Position(InsideOf(a, chunkDims), chunkDims)]
  }

  lemma InsideChunkDims(a: Coords, chunkDims: Coords)
    requires |a| == |chunkDims| && forall k :: 0 <= k < |chunkDims| ==> chunkDims[k] > 0
    ensures Position(InsideOf(a, chunkDims), chunkDims) < Product(chunkDims)
  {
    PositionInside(InsideOf(a, chunkDims), chunkDims);
  }

  /** The store for array coordinates a is among those of its cell. */
  lemma WriteFor<T>(cfg: Config<T>, cells: seq<Cell<T>>, chunkDims: Coords, dims: Coords, c: nat, a: Coords) returns (e: nat)
    requires GridConfig(cfg, cells, chunkDims, dims) && c < |cells| && Within(a, dims)
    requires |chunkDims| == |dims| && (forall k :: 0 <= k < |chunkDims| ==> chunkDims[k] > 0) && StartOf(a, chunkDims) == cells[c].start
    ensures |cells[c].data| >= Product(chunkDims)
    ensures e < |cfg.chunks[c].writes| && cfg.chunks[c].writes[e] == Write(Position(a, dims), Logical(cells, chunkDims, dims, c, a))
  {
    hide Product, Position;
    var cell, inner := cells[c], InsideOf(a, chunkDims);
    var cd := Clipped(cell.start, chunkDims, dims);
    CellIsChunk(cells, chunkDims, dims, c);
    InItsCell(a, chunkDims, dims);
    CoordsOfPosition(inner, cd);
    PositionInside(inner, cd);
    e := Position(inner, cd);
    TargetIs(cell.data, cell.start, chunkDims, dims, inner);
    assert cfg.chunks[c].writes[e] == CellWrite(cell, chunkDims, dims, e);
  }

  /** In every interleaving the finished array is the logical array of the grid: each element is its cell's. */
  lemma FinalArrayIsGrid<T>(cfg: Config<T>, s: State<T>, run: seq<nat>, cells: seq<Cell<T>>, chunkDims: Coords, dims: Coords, c: nat, a: Coords)
    requires Initial(cfg, s) && Schedule(cfg, run) && cfg.workers > 0 && GridConfig(cfg, cells, chunkDims, dims)
    requires Within(a, dims) && c < |cells| && |chunkDims| == |dims| && (forall k :: 0 <= k < |chunkDims| ==> chunkDims[k] > 0)
    requires StartOf(a, chunkDims) == cells[c].start
    ensures Inv(cfg, s) && |cells[c].data| >= Product(chunkDims)
    ensures (forall w :: 0 <= w < cfg.workers ==> Exec(cfg, s, run).at[w].Finished?) ==>
      Position(a, dims) < |Exec(cfg, s, run).out| && Exec(cfg, s, run).out[Position(a, dims)] == Logical(cells, chunkDims, dims, c, a)
  {
    hide GridConfig, Disjoint, Exec, Inv, Product, Position, StartOf, Logical, Initial;
    GridIsDisjoint(cfg, cells, chunkDims, dims);
    FinalArray(cfg, s, run);
    var e := WriteFor(cfg, cells, chunkDims, dims, c, a);
    GridSize(cfg, cells, chunkDims, dims);
  }

  lemma GridSize<T>(cfg: Config<T>, cells: seq<Cell<T>>, chunkDims: Coords, dims: Coords)
    requires GridConfig(cfg, cells, chunkDims, dims)
    ensures |cfg.chunks| == |cells|
  {
  }

  // ---- Storing one after the other is copying ------------------------------------------------

  /** The array after the first n stores. */
  function StoreAll<T>(out: seq<T>, writes: seq<Write<T>>, n: nat): (r: seq<T>)
    requires n <= |writes| && forall e :: 0 <= e < |writes| ==> writes[e].pos < |out|
    ensures |r| == |out|
  {
    if n == 0 then out else StoreAll(out, writes, n - 1)[writes[n - 1].pos := writes[n - 1].value]
  }

  ghost predicate Hit<T>(writes: seq<Write<T>>, n: nat, p: nat) { exists e :: 0 <= e < n <= |writes| && writes[e].pos == p }

  /** Stores of what an array holds make the array they hit equal to it there. */
  lemma {:induction false} StoresOf<T>(before: seq<T>, out: seq<T>, writes: seq<Write<T>>, n: nat, p: nat)
    requires n <= |writes| && |out| == |before| && p < |out|
    requires forall e :: 0 <= e < |writes| ==> writes[e].pos < |before| && writes[e].value == out[writes[e].pos]
    ensures StoreAll(before, writes, n)[p] == if Hit(writes, n, p) then out[p] else before[p]
  {
    if n > 0 {
      StoresOf(before, out, writes, n - 1, p);
      if writes[n - 1].pos == p { assert Hit(writes, n, p); }
      if Hit(writes, n - 1, p) {
        var e :| 0 <= e < n - 1 && writes[e].pos == p;
        assert Hit(writes, n, p);
      }
    }
  }

  /** The stores of a cell, one after the other, leave what copying the chunk leaves. */
  lemma StoresAreCopy<T>(cell: Cell<T>, chunkDims: Coords, dims: Coords, before: seq<T>, out: seq<T>)
    requires OnGrid(cell.start, chunkDims, dims) && 1 <= |dims| <= HDF5_MAX_DIMS && |cell.data| >= Product(chunkDims) && |before| == Product(dims)
    requires Scattered(ChunkJob(cell.data, cell.start, chunkDims, dims), before, out)
    ensures forall e :: 0 <= e < |CellWrites(cell, chunkDims, dims)| ==> CellWrites(cell, chunkDims, dims)[e].pos < |before|
    ensures StoreAll(before, CellWrites(cell, chunkDims, dims), |CellWrites(cell, chunkDims, dims)|) == out
  {
    hide Product, Position, CellWrites;
    var job, writes := ChunkJob(cell.data, cell.start, chunkDims, dims), CellWrites(cell, chunkDims, dims);
    var cd := Clipped(cell.start, chunkDims, dims);
    forall e | 0 <= e < |writes|
      ensures writes[e].pos < |before| && writes[e].value == out[writes[e].pos]
    {
      assert writes[e] == CellWrite(cell, chunkDims, dims, e);
      CoordsWithin(e, cd);
      TargetIs(cell.data, cell.start, chunkDims, dims, CoordsOf(e, cd));
      assert Placed(job, out, CoordsOf(e, cd));
    }
    var all := StoreAll(before, writes, |writes|);
    forall p: nat | p < |out|
      ensures all[p] == out[p]
    {
      StoresOf(before, out, writes, |writes|, p);
      if !Hit(writes, |writes|, p) { NotHit(cell, chunkDims, dims, p); }
    }
  }

  lemma NotHit<T>(cell: Cell<T>, chunkDims: Coords, dims: Coords, p: nat)
    requires OnGrid(cell.start, chunkDims, dims) && 1 <= |dims| <= HDF5_MAX_DIMS && |cell.data| >= Product(chunkDims)
    requires !Hit(CellWrites(cell, chunkDims, dims), |CellWrites(cell, chunkDims, dims)|, p)
    ensures Outside(ChunkJob(cell.data, cell.start, chunkDims, dims), p)
  {
    hide Product, Position, CellWrites;
    var job, writes := ChunkJob(cell.data, cell.start, chunkDims, dims), CellWrites(cell, chunkDims, dims);
    var cd := Clipped(cell.start, chunkDims, dims);
    forall c: Coords | Within(c, cd)
      ensures Target(job, c) != p
    {
      PositionInside(c, cd);
      CoordsOfPosition(c, cd);
      var e := Position(c, cd);
      assert writes[e] == CellWrite(cell, chunkDims, dims, e);
    }
  }
}
