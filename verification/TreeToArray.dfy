/** From the tree of chunks to the finished array: the books that walking the tree fills, the queue merged from them,
    the workers' run in any interleaving, and the elements it leaves. */
module TreeToArray {
  import opened ChunkIndex
  import opened PagePool
  import opened PageSafety
  import opened PoolRuns
  import opened ChunkTree
  import opened ChunkGrid

  /** What a chunk of the file holds: its place in the logical array, and its decompressed elements. */
  datatype Loaded<T> = Loaded(start: Coords, data: seq<T>)

  /** The pages' counts and mapping sizes, and the queue, for these chunks. Mapping sizes go on from what they were for
      earlier datasets. */
  ghost predicate Collected(totals: seq<nat>, maxes: seq<nat>, queue: seq<Leaf>, leaves: seq<Leaf>, gran: nat, before: seq<nat>)
    requires gran > 0
  {
    && |totals| == |maxes| == |before| && InFile(leaves, gran, |maxes|)
    && queue == Merged(Buckets(leaves, gran, |maxes|))
    && forall p: nat :: p < |maxes| ==> totals[p] == |ChunkTree.OnPage(leaves, gran, p)| && maxes[p] == Largest(leaves, gran, p, before[p])
  }

  /** Walks the tree from its root and merges the pages' buckets. */
  method Collect(books: PageBooks, root: Node) returns (ok: bool, queue: seq<Leaf>)
    requires books.Valid() && InFile(Leaves(root), books.gran, books.totals.Length)
    requires forall p :: 0 <= p < books.totals.Length ==> books.totals[p] == 0 && books.buckets[p] == []
    modifies books.totals, books.maxes, books.buckets
    ensures ok <==> OnlyChunks(root)
    ensures ok ==> Collected(books.totals[..], books.maxes[..], queue, Leaves(root), books.gran, old(books.maxes[..]))
    ensures ok ==> PagesCounted(Leaves(root), books.gran, books.totals[..]) && multiset(queue) == multiset(Leaves(root))
    ensures ok ==> PagesCovered(Leaves(root), books.gran, books.maxes[..], old(books.maxes[..]))
  {
    hide ChunkTree.OnPage, Largest, Merged, Leaves, OnlyChunks, ChunkTree.PageOf, InFile, PagesCounted, PagesCovered;
    ghost var t0, m0, b0 := books.totals[..], books.maxes[..], books.buckets[..];
    ok := books.FillNode(root);
    queue := [];
    if ok {
      BookedFromNothing(books.totals[..], books.maxes[..], books.buckets[..], Leaves(root), books.gran, t0, m0, b0);
      queue := ChunkTree.MergeQueue(books.buckets);
      InAddresses(books.totals[..], books.maxes[..], queue, Leaves(root), books.gran, m0);
    }
  }

  /** Each page has counted the chunks that start in it. */
  ghost predicate PagesCounted(leaves: seq<Leaf>, gran: nat, totals: seq<nat>) {
    && (forall p: nat :: p < |totals| ==> totals[p] == CountIn(leaves, gran, p))
    && forall i :: 0 <= i < |leaves| ==> InSomePage(leaves[i], gran, |totals|)
  }

  lemma InAddresses(totals: seq<nat>, maxes: seq<nat>, queue: seq<Leaf>, leaves: seq<Leaf>, gran: nat, before: seq<nat>)
    requires gran > 0 && Collected(totals, maxes, queue, leaves, gran, before)
    ensures PagesCounted(leaves, gran, totals) && multiset(queue) == multiset(leaves) && PagesCovered(leaves, gran, maxes, before)
  {
    hide ChunkTree.OnPage, Merged, ChunkTree.PageOf, Largest, PagesCovered, InSomePage, CountIn;
    EachChunkQueued(leaves, gran, |maxes|);
    CoveredByAddress(leaves, gran, maxes, before);
    forall p: nat | p < |maxes|
      ensures totals[p] == CountIn(leaves, gran, p)
    {
      CountedByAddress(leaves, gran, p);
    }
    forall i | 0 <= i < |leaves|
      ensures InSomePage(leaves[i], gran, |totals|)
    {
      LeafInPage(leaves[i], gran, |totals|);
    }
  }

  lemma BookedFromNothing(totals: seq<nat>, maxes: seq<nat>, buckets: seq<seq<Leaf>>, leaves: seq<Leaf>, gran: nat,
                          t0: seq<nat>, m0: seq<nat>, b0: seq<seq<Leaf>>)
    requires gran > 0 && Booked(totals, maxes, buckets, leaves, gran, t0, m0, b0)
    requires forall p: nat :: p < |t0| ==> t0[p] == 0 && b0[p] == []
    ensures |totals| == |maxes| == |m0| && buckets == Buckets(leaves, gran, |maxes|)
    ensures forall p: nat :: p < |maxes| ==> totals[p] == |ChunkTree.OnPage(leaves, gran, p)| && maxes[p] == Largest(leaves, gran, p, m0[p])
  {
    hide ChunkTree.OnPage, Largest;
    var want := Buckets(leaves, gran, |maxes|);
    forall p: nat | p < |maxes|
      ensures buckets[p] == want[p]
    {
      assert [] + ChunkTree.OnPage(leaves, gran, p) == ChunkTree.OnPage(leaves, gran, p);
    }
    assert buckets == want;
  }

  /** The chunks are those of a grid over the array: no two at one place, and none empty in the file. */
  ghost predicate OfGrid<T>(leaves: seq<Leaf>, load: Leaf -> Loaded<T>, chunkDims: Coords, dims: Coords) {
    && 1 <= |dims| <= ChunkScatter.HDF5_MAX_DIMS
    && (forall i :: 0 <= i < |leaves| ==> leaves[i].size > 0 && CanLoad(load(leaves[i]), chunkDims, dims))
    && forall i, j :: 0 <= i < j < |leaves| ==> load(leaves[i]).start != load(leaves[j]).start
  }

  ghost predicate CanLoad<T>(x: Loaded<T>, chunkDims: Coords, dims: Coords) {
    OnGrid(x.start, chunkDims, dims) && |x.data| >= Product(chunkDims)
  }

  ghost predicate NoRepeats(s: seq<Leaf>) { forall i, j :: 0 <= i < j < |s| ==> s[i] != s[j] }

  lemma {:induction false} NoRepeatsOnce(s: seq<Leaf>)
    ensures NoRepeats(s) <==> forall x :: multiset(s)[x] <= 1
  {
    if s != [] {
      var front, last := s[..|s| - 1], s[|s| - 1];
      assert s == front + [last];
      NoRepeatsOnce(front);
      assert multiset(s)[last] == multiset(front)[last] + 1;
      if NoRepeats(s) {
        assert last !in multiset(front);
      } else if NoRepeats(front) {
        assert last in multiset(front);
      } else {
        var x :| multiset(front)[x] > 1;
        assert multiset(s)[x] > 1;
      }
    }
  }

  /** What is said of all chunks is true of the queue, in whatever order it has them. */
  lemma QueueOfGrid<T>(leaves: seq<Leaf>, queue: seq<Leaf>, load: Leaf -> Loaded<T>, chunkDims: Coords, dims: Coords)
    requires multiset(queue) == multiset(leaves) && OfGrid(leaves, load, chunkDims, dims)
    ensures OfGrid(queue, load, chunkDims, dims)
  {
    hide CanLoad;
    NoRepeatsOnce(leaves);
    NoRepeatsOnce(queue);
    forall i | 0 <= i < |queue|
      ensures exists k :: 0 <= k < |leaves| && leaves[k] == queue[i]
    {
      assert queue[i] in multiset(leaves);
    }
    forall i, j | 0 <= i < j < |queue|
      ensures load(queue[i]).start != load(queue[j]).start
    {
      var k :| 0 <= k < |leaves| && leaves[k] == queue[i];
      var l :| 0 <= l < |leaves| && leaves[l] == queue[j];
      assert k < l || l < k;
    }
  }

  // ---- The pool that reads the queue ---------------------------------------------------------

  function CellOfLeaf<T>(leaf: Leaf, load: Leaf -> Loaded<T>, gran: nat): Cell<T>
    requires gran > 0
  {
    Cell(load(leaf).start, load(leaf).data, ChunkTree.PageOf(leaf, gran), Need(leaf, gran))
  }

  function CellsOf<T>(queue: seq<Leaf>, load: Leaf -> Loaded<T>, gran: nat): (r: seq<Cell<T>>)
    requires gran > 0
    ensures |r| == |queue| && forall c :: 0 <= c < |queue| ==> r[c] == CellOfLeaf(queue[c], load, gran)
  {
    seq(|queue|, c requires 0 <= c < |queue| => CellOfLeaf(queue[c], load, gran))
  }

  /** The pool's chunks are those of the queue, and its pages' sizes those collected. */
  ghost predicate PoolOf<T>(cfg: Config<T>, queue: seq<Leaf>, maxes: seq<nat>, load: Leaf -> Loaded<T>, gran: nat, chunkDims: Coords, dims: Coords)
    requires gran > 0
  {
    cfg.maxMapSize == maxes && GridConfig(cfg, CellsOf(queue, load, gran), chunkDims, dims)
  }

  /** The workers are at their start, nothing is mapped, and each page has counted its chunks. */
  ghost predicate StartOfRun<T>(cfg: Config<T>, s: State<T>, totals: seq<nat>) {
    && s.next == 0 && |s.pages| == |totals| && |s.at| == cfg.workers && |s.out| == cfg.size
    && |s.released| == |s.done| == |cfg.chunks|
    && (forall w :: 0 <= w < |s.at| ==> s.at[w] == AtLoop)
    && (forall c :: 0 <= c < |s.done| ==> !s.done[c] && !s.released[c])
    && forall p: nat :: p < |totals| ==> s.pages[p] == Page(Free, false, 0, 0, totals[p], 0)
  }

  /** What was collected is a sound start for the workers. */
  lemma StartIsInitial<T>(cfg: Config<T>, s: State<T>, totals: seq<nat>, maxes: seq<nat>, queue: seq<Leaf>, leaves: seq<Leaf>,
                          load: Leaf -> Loaded<T>, gran: nat, before: seq<nat>, chunkDims: Coords, dims: Coords)
    requires gran > 0 && Collected(totals, maxes, queue, leaves, gran, before) && OfGrid(leaves, load, chunkDims, dims)
    requires PoolOf(cfg, queue, maxes, load, gran, chunkDims, dims) && UseCountFits(cfg) && StartOfRun(cfg, s, totals)
    ensures Initial(cfg, s)
  {
    hide ChunkTree.OnPage, Largest, Merged, ChunkTree.PageOf, Need, OfGrid, Unreleased, Product, GridConfig, InFile;
    PoolFromQueue(cfg, queue, maxes, load, gran, chunkDims, dims);
    forall p: nat | p < |maxes|
      ensures totals[p] == Unreleased(cfg, s.released, p, |s.released|)
    {
      BooksMatchQueue(cfg, leaves, gran, |maxes|, s.released, p, before[p]);
    }
    EachChunkQueued(leaves, gran, |maxes|);
    QueueOfGrid(leaves, queue, load, chunkDims, dims);
    forall c: nat | c < |cfg.chunks|
      ensures PagePool.GoodChunk(cfg, cfg.chunks[c])
    {
      QueuedInFile(leaves, queue, gran, |maxes|, c);
      BooksMatchQueue(cfg, leaves, gran, |maxes|, s.released, cfg.chunks[c].page, before[cfg.chunks[c].page]);
      NeedSome(queue, load, gran, chunkDims, dims, c);
      WritesInside(cfg, CellsOf(queue, load, gran), chunkDims, dims, c);
    }
  }

  lemma PoolFromQueue<T>(cfg: Config<T>, queue: seq<Leaf>, maxes: seq<nat>, load: Leaf -> Loaded<T>, gran: nat, chunkDims: Coords, dims: Coords)
    requires gran > 0 && PoolOf(cfg, queue, maxes, load, gran, chunkDims, dims)
    ensures FromQueue(cfg, queue, gran)
  {
    hide ChunkTree.PageOf, Need, Product, OnGrid, GoodCells;
    var cells := CellsOf(queue, load, gran);
    forall c: nat | c < |queue|
      ensures cfg.chunks[c].page == ChunkTree.PageOf(queue[c], gran) && cfg.chunks[c].need == Need(queue[c], gran)
    {
      assert cells[c] == CellOfLeaf(queue[c], load, gran);
    }
  }

  lemma QueuedInFile(leaves: seq<Leaf>, queue: seq<Leaf>, gran: nat, pages: nat, c: nat)
    requires gran > 0 && InFile(leaves, gran, pages) && multiset(queue) == multiset(leaves) && c < |queue|
    ensures ChunkTree.PageOf(queue[c], gran) < pages
  {
    hide ChunkTree.PageOf;
    assert queue[c] in multiset(leaves);
  }

  lemma NeedSome<T>(queue: seq<Leaf>, load: Leaf -> Loaded<T>, gran: nat, chunkDims: Coords, dims: Coords, c: nat)
    requires gran > 0 && OfGrid(queue, load, chunkDims, dims) && c < |queue|
    ensures Need(queue[c], gran) > 0
  {
  }

  lemma WritesInside<T>(cfg: Config<T>, cells: seq<Cell<T>>, chunkDims: Coords, dims: Coords, c: nat)
    requires GridConfig(cfg, cells, chunkDims, dims) && c < |cells|
    ensures forall k :: 0 <= k < |cfg.chunks[c].writes| ==> cfg.chunks[c].writes[k].pos < cfg.size
  {
    hide Product, OnGrid, GoodCells, CellWrites;
    forall k | 0 <= k < |cfg.chunks[c].writes|
      ensures cfg.chunks[c].writes[k].pos < cfg.size
    {
      var a := WriteOf(cfg, cells, chunkDims, dims, c, k);
    }
  }

  /** Whatever tree was walked, and however the workers interleave: when they have finished, every element of
      every chunk of the tree is at its place in the array, and no page is mapped. */
  lemma TreeFillsArray<T>(cfg: Config<T>, s: State<T>, run: seq<nat>, totals: seq<nat>, maxes: seq<nat>, queue: seq<Leaf>, leaves: seq<Leaf>,
                          load: Leaf -> Loaded<T>, gran: nat, before: seq<nat>, chunkDims: Coords, dims: Coords, i: nat, a: Coords)
    requires gran > 0 && Collected(totals, maxes, queue, leaves, gran, before) && OfGrid(leaves, load, chunkDims, dims)
    requires PoolOf(cfg, queue, maxes, load, gran, chunkDims, dims) && cfg.workers > 0 && UseCountFits(cfg) && StartOfRun(cfg, s, totals)
    requires Schedule(cfg, run) && i < |leaves| && Within(a, dims)
    ensures Inv(cfg, s)
    ensures |chunkDims| == |dims| && (forall k :: 0 <= k < |chunkDims| ==> chunkDims[k] > 0)
    ensures Position(InsideOf(a, chunkDims), chunkDims) < |load(leaves[i]).data|
    ensures (forall w :: 0 <= w < cfg.workers ==> Exec(cfg, s, run).at[w].Finished?) ==>
      && (StartOf(a, chunkDims) == load(leaves[i]).start ==>
           && Position(a, dims) < |Exec(cfg, s, run).out|
           && Exec(cfg, s, run).out[Position(a, dims)] == load(leaves[i]).data[Position(InsideOf(a, chunkDims), chunkDims)])
      && forall p: nat :: p < |maxes| ==> !Exec(cfg, s, run).pages[p].mapped
  {
    hide ChunkTree.OnPage, Largest, Merged, ChunkTree.PageOf, Need, Product, Position, GridConfig, InFile, Exec, Inv, Initial, StartOf, InsideOf;
    StartIsInitial(cfg, s, totals, maxes, queue, leaves, load, gran, before, chunkDims, dims);
    InitialInv(cfg, s);
    CompleteRun(cfg, s, run);
    EachChunkQueued(leaves, gran, |maxes|);
    InsideChunkDims(a, chunkDims);
    assert leaves[i] in multiset(queue);
    var c :| 0 <= c < |queue| && queue[c] == leaves[i];
    var cells := CellsOf(queue, load, gran);
    assert cells[c] == CellOfLeaf(queue[c], load, gran);
    if StartOf(a, chunkDims) == load(leaves[i]).start {
      FinalArrayIsGrid(cfg, s, run, cells, chunkDims, dims, c, a);
    }
  }

  /** In every run a worker between navigating and releasing has all bytes of its chunk mapped: the mapping from the start
      of the page that the chunk starts in, the one there is now, reaches the chunk's last byte. */
  lemma BytesAreMapped<T>(cfg: Config<T>, s: State<T>, run: seq<nat>, totals: seq<nat>, maxes: seq<nat>, queue: seq<Leaf>, leaves: seq<Leaf>,
                          load: Leaf -> Loaded<T>, gran: nat, before: seq<nat>, chunkDims: Coords, dims: Coords, w: nat)
    requires gran > 0 && Collected(totals, maxes, queue, leaves, gran, before) && OfGrid(leaves, load, chunkDims, dims)
    requires PoolOf(cfg, queue, maxes, load, gran, chunkDims, dims) && UseCountFits(cfg) && StartOfRun(cfg, s, totals)
    requires Schedule(cfg, run) && w < cfg.workers
    ensures Inv(cfg, s)
    ensures var t := Exec(cfg, s, run);
      HasPointer(t.at[w]) ==>
        && t.at[w].c < |queue| && exists p: nat :: p < |t.pages| && MappedThrough(queue[t.at[w].c], gran, p, t.pages[p], t.at[w].m)
  {
    hide ChunkTree.OnPage, Largest, Merged, ChunkTree.PageOf, Need, Product, GridConfig, InFile, Exec, Initial, OfGrid, StartsIn, Inv;
    StartIsInitial(cfg, s, totals, maxes, queue, leaves, load, gran, before, chunkDims, dims);
    PoolFromQueue(cfg, queue, maxes, load, gran, chunkDims, dims);
    PointerIsGood(cfg, s, run, w);
    var t := Exec(cfg, s, run);
    InSize(cfg, t);
    if HasPointer(t.at[w]) {
      var c := t.at[w].c;
      var p := cfg.chunks[c].page;
      PageByAddress(queue[c], gran, p);
      assert MappedThrough(queue[c], gran, p, t.pages[p], t.at[w].m);
    }
  }

  /** Mapping number m of the page is there, from before the chunk's first byte to behind its last. */
  predicate MappedThrough(leaf: Leaf, gran: nat, p: nat, page: Page, m: nat) {
    page.mapped && page.maps == m && StartsIn(leaf, gran, p) && leaf.address + leaf.size <= p * gran + page.mapSize
  }

  /** A chunk of 2000 bytes 3000 bytes into its page needs a mapping of 5000. */
  lemma BehindPageStart()
    ensures var leaf := Leaf(23480, 2000);
      StartsIn(leaf, 4096, 5) && Largest([leaf], 4096, 5, 0) == 5000
  {
    var leaf := Leaf(23480, 2000);
    PageByAddress(leaf, 4096, 5);
    assert [leaf][..0] == [];
    assert Largest([], 4096, 5, 0) == 0;
  }
}
