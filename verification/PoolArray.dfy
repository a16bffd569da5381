/** The array that the workers fill, whatever the interleaving of their stores. */
module PoolArray {
  import opened PagePool
  import opened PageSafety
  import opened PoolRuns

  /** No place is written twice: not by two chunks, and not twice by one. */
  ghost predicate Disjoint<T>(cfg: Config<T>) {
    forall c: nat, j: nat, d: nat, k: nat ::
      c < |cfg.chunks| && d < |cfg.chunks| && j < |cfg.chunks[c].writes| && k < |cfg.chunks[d].writes| && (c != d || j != k) ==>
        cfg.chunks[c].writes[j].pos != cfg.chunks[d].writes[k].pos
  }

  /** How many elements of chunk c have been stored. */
  ghost predicate Stored<T>(cfg: Config<T>, s: State<T>, c: nat, n: nat)
    requires Sized(cfg, s) && c < |cfg.chunks| && n <= |cfg.chunks[c].writes|
  {
    forall j: nat :: j < n ==> InPlace(cfg, s, c, j)
  }

  ghost predicate InPlace<T>(cfg: Config<T>, s: State<T>, c: nat, j: nat)
    requires Sized(cfg, s) && c < |cfg.chunks| && j < |cfg.chunks[c].writes|
  {
    var w := cfg.chunks[c].writes[j];
    GoodChunk(cfg, cfg.chunks[c]) && s.out[w.pos] == w.value
  }

  /** Nobody's place. */
  ghost predicate Unwritten<T>(cfg: Config<T>, p: nat) {
    forall c: nat, j: nat :: c < |cfg.chunks| && j < |cfg.chunks[c].writes| ==> cfg.chunks[c].writes[j].pos != p
  }

  /** What has been copied is in the array; what belongs to no chunk is as it was. */
  ghost predicate Filled<T>(cfg: Config<T>, s: State<T>, before: seq<T>)
    requires Sized(cfg, s)
  {
    && |before| == cfg.size
    && (forall c: nat :: c < |cfg.chunks| && s.done[c] ==> Stored(cfg, s, c, |cfg.chunks[c].writes|))
    && (forall w: nat :: w < |s.at| && s.at[w].ToCopy? && s.at[w].k <= |cfg.chunks[s.at[w].c].writes| ==> Stored(cfg, s, s.at[w].c, s.at[w].k))
    && forall p: nat :: p < cfg.size && Unwritten(cfg, p) ==> s.out[p] == before[p]
  }

  /** A store leaves every other element in place. */
  lemma StoreKeeps<T>(cfg: Config<T>, s: State<T>, t: State<T>, c: nat, k: nat, d: nat, n: nat)
    requires Sized(cfg, s) && Sized(cfg, t) && Disjoint(cfg) && c < |cfg.chunks| && k < |cfg.chunks[c].writes|
    requires GoodChunk(cfg, cfg.chunks[c])
    requires t.out == s.out[cfg.chunks[c].writes[k].pos := cfg.chunks[c].writes[k].value]
    requires d < |cfg.chunks| && n <= |cfg.chunks[d].writes| && Stored(cfg, s, d, n)
    ensures Stored(cfg, t, d, n) && (c == d && n == k ==> Stored(cfg, t, d, n + 1))
  {
    forall j: nat | j < n || (c == d && j == k)
      ensures j < |cfg.chunks[d].writes| && InPlace(cfg, t, d, j)
    {
      if j < n { assert InPlace(cfg, s, d, j); }
    }
  }

  lemma StepFills<T>(cfg: Config<T>, s: State<T>, w: nat, before: seq<T>)
    requires Inv(cfg, s) && w < cfg.workers && Disjoint(cfg) && Filled(cfg, s, before)
    ensures Sized(cfg, Step(cfg, s, w)) && Filled(cfg, Step(cfg, s, w), before)
  {
    hide PageOk, ChunkOk, Apart, Stored, Disjoint, Unwritten;
    StepKeeps(cfg, s, w);
    var t := Step(cfg, s, w);
    assert WorkerOk(cfg, s, w);
    if s.at[w].ToCopy? && s.at[w].k < |cfg.chunks[s.at[w].c].writes| {
      CopyFills(cfg, s, t, w, before);
    } else {
      OutStays(cfg, s, w);
      forall c: nat | c < |cfg.chunks| && t.done[c]
        ensures Stored(cfg, t, c, |cfg.chunks[c].writes|)
      {
        StoredSame(cfg, s, t, c, |cfg.chunks[c].writes|);
      }
      forall v: nat | v < |t.at| && t.at[v].ToCopy? && t.at[v].k <= |cfg.chunks[t.at[v].c].writes|
        ensures Stored(cfg, t, t.at[v].c, t.at[v].k)
      {
        if t.at[v].k == 0 { NothingStored(cfg, t, t.at[v].c); } else { StoredSame(cfg, s, t, t.at[v].c, t.at[v].k); }
      }
    }
  }

  lemma NothingStored<T>(cfg: Config<T>, s: State<T>, c: nat)
    requires Sized(cfg, s) && c < |cfg.chunks|
    ensures Stored(cfg, s, c, 0)
  {
  }

  lemma StoredSame<T>(cfg: Config<T>, s: State<T>, t: State<T>, c: nat, n: nat)
    requires Sized(cfg, s) && Sized(cfg, t) && t.out == s.out && c < |cfg.chunks| && n <= |cfg.chunks[c].writes|
    ensures Stored(cfg, s, c, n) ==> Stored(cfg, t, c, n)
  {
    if Stored(cfg, s, c, n) {
      forall j: nat | j < n
        ensures InPlace(cfg, t, c, j)
      {
        assert InPlace(cfg, s, c, j);
      }
    }
  }

  /** Any other step leaves the array alone, and completes a chunk only when all of it is stored. */
  lemma OutStays<T>(cfg: Config<T>, s: State<T>, w: nat)
    requires Sized(cfg, s) && w < cfg.workers && !(s.at[w].ToCopy? && s.at[w].k < |cfg.chunks[s.at[w].c].writes|)
    ensures var t := Step(cfg, s, w);
      && t.out == s.out && t.at == s.at[w := t.at[w]]
      && (t.at[w].ToCopy? ==> t.at[w].k == 0 || t.at[w] == s.at[w])
      && |t.done| == |s.done|
      && forall c: nat :: c < |s.done| ==> t.done[c] == (s.done[c] || (s.at[w].ToCopy? && c == s.at[w].c))
  {
  }

  lemma CopyFills<T>(cfg: Config<T>, s: State<T>, t: State<T>, w: nat, before: seq<T>)
    requires Sized(cfg, s) && Sized(cfg, t) && w < cfg.workers && Disjoint(cfg) && Filled(cfg, s, before)
    requires s.at[w].ToCopy? && s.at[w].k < |cfg.chunks[s.at[w].c].writes| && t == Step(cfg, s, w)
    ensures Filled(cfg, t, before)
  {
    hide Stored, Disjoint, Unwritten;
    var c, k := s.at[w].c, s.at[w].k;
    assert GoodChunk(cfg, cfg.chunks[c]);
    assert t.out == s.out[cfg.chunks[c].writes[k].pos := cfg.chunks[c].writes[k].value];
    forall d: nat | d < |cfg.chunks| && t.done[d]
      ensures Stored(cfg, t, d, |cfg.chunks[d].writes|)
    {
      StoreKeeps(cfg, s, t, c, k, d, |cfg.chunks[d].writes|);
    }
    forall v: nat | v < |t.at| && t.at[v].ToCopy? && t.at[v].k <= |cfg.chunks[t.at[v].c].writes|
      ensures Stored(cfg, t, t.at[v].c, t.at[v].k)
    {
      StoreKeeps(cfg, s, t, c, k, s.at[v].c, s.at[v].k);
    }
    forall p: nat | p < cfg.size && Unwritten(cfg, p)
      ensures t.out[p] == before[p]
    {
      WrittenPlace(cfg, c, k, p);
    }
  }

  lemma WrittenPlace<T>(cfg: Config<T>, c: nat, k: nat, p: nat)
    requires c < |cfg.chunks| && k < |cfg.chunks[c].writes| && Unwritten(cfg, p)
    ensures cfg.chunks[c].writes[k].pos != p
  {
  }

  lemma {:induction false} RunFills<T>(cfg: Config<T>, s: State<T>, run: seq<nat>, before: seq<T>)
    requires Inv(cfg, s) && Schedule(cfg, run) && Disjoint(cfg) && Filled(cfg, s, before)
    ensures Filled(cfg, Exec(cfg, s, run), before)
    decreases |run|
  {
    hide Filled, Disjoint, Step;
    if run != [] {
      InSize(cfg, s);
      StepKeeps(cfg, s, run[0]);
      StepFills(cfg, s, run[0], before);
      RunFills(cfg, Step(cfg, s, run[0]), run[1..], before);
    }
  }

  /** In every interleaving, once all workers have finished, every element of every chunk is at its place in the
      array and everything else is as it was before. */
  lemma FinalArray<T>(cfg: Config<T>, s: State<T>, run: seq<nat>)
    requires Initial(cfg, s) && Schedule(cfg, run) && Disjoint(cfg) && cfg.workers > 0
    ensures Inv(cfg, s)
    ensures (forall w :: 0 <= w < cfg.workers ==> Exec(cfg, s, run).at[w].Finished?) ==>
      var out := Exec(cfg, s, run).out;
      && |out| == cfg.size
      && (forall c: nat, j: nat :: c < |cfg.chunks| && j < |cfg.chunks[c].writes| ==>
            cfg.chunks[c].writes[j].pos < |out| && out[cfg.chunks[c].writes[j].pos] == cfg.chunks[c].writes[j].value)
      && forall p: nat :: p < |out| && Unwritten(cfg, p) ==> out[p] == s.out[p]
  {
    hide Exec, Inv, Disjoint, Unwritten, Step;
    InitialInv(cfg, s);
    InSize(cfg, s);
    assert Filled(cfg, s, s.out);
    RunFills(cfg, s, run, s.out);
    var t := Exec(cfg, s, run);
    InSize(cfg, t);
    FinishedMeansEmpty(cfg, s, run);
    if forall w :: 0 <= w < cfg.workers ==> t.at[w].Finished? {
      assert t.at[0].Finished?;
      WhenFinished(cfg, t);
      forall c: nat, j: nat | c < |cfg.chunks| && j < |cfg.chunks[c].writes|
        ensures cfg.chunks[c].writes[j].pos < |t.out| && t.out[cfg.chunks[c].writes[j].pos] == cfg.chunks[c].writes[j].value
      {
        assert Stored(cfg, t, c, |cfg.chunks[c].writes|);
        assert InPlace(cfg, t, c, j);
      }
    }
  }
}
