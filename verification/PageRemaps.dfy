/** How often a page is mapped. The second look at the use count, inside the lock, does not look at the mapping
    again: a worker that saw the page unmapped maps it anew after another has mapped it and gone. */
module PageRemaps {
  import opened PagePool
  import opened PageSafety
  import opened PoolRuns

  /** No two chunks lie on the same page. */
  ghost predicate NoneShared<T>(cfg: Config<T>) {
    forall c: nat, d: nat :: c < d < |cfg.chunks| ==> PageOf(cfg, c) != PageOf(cfg, d)
  }

  /** In every run every page is mapped at most once. */
  ghost predicate MapsOnce<T(!new)>(cfg: Config<T>) {
    forall s: State<T>, run: seq<nat> :: AtStart(cfg, s) && Schedule(cfg, run) ==> MappedOnce(cfg, s, run)
  }

  ghost predicate MappedOnce<T>(cfg: Config<T>, s: State<T>, run: seq<nat>)
    requires AtStart(cfg, s) && Schedule(cfg, run)
  {
    forall p: nat :: p < |cfg.maxMapSize| ==> Exec(cfg, s, run).pages[p].maps <= 1
  }

  // ---- When it is mapped once --------------------------------------------------------------

  predicate FoundUnmapped(at: Place) { at.UseCheck? || at.ToLock? || at.ToFree? || at.ToMap? }

  ghost predicate PageOnce(page: Page) {
    page.maps <= 1 && (page.mapped ==> page.maps == 1) && (!page.mapped && page.total > 0 ==> page.maps == 0)
  }

  ghost predicate Once<T>(cfg: Config<T>, s: State<T>)
    requires Sized(cfg, s)
  {
    && (forall p: nat :: p < |s.pages| ==> PageOnce(s.pages[p]))
    && forall w: nat :: w < |s.at| && FoundUnmapped(s.at[w]) ==> !s.pages[PageOf(cfg, s.at[w].c)].mapped
  }

  /** A single worker, or chunks on different pages: nobody else is at a worker's page. */
  lemma NobodyElse<T>(cfg: Config<T>, s: State<T>, v: nat, w: nat)
    requires Inv(cfg, s) && (cfg.workers <= 1 || NoneShared(cfg)) && v < |s.at| && w < |s.at| && v != w
    requires HasChunk(s.at[v]) && HasChunk(s.at[w])
    ensures PageOf(cfg, s.at[v].c) != PageOf(cfg, s.at[w].c)
  {
    assert s.at[v].c != s.at[w].c;
    var a, b := s.at[v].c, s.at[w].c;
    if a < b { assert cfg.workers > 1; } else { assert cfg.workers > 1; }
  }

  lemma StepOnce<T>(cfg: Config<T>, s: State<T>, w: nat)
    requires Inv(cfg, s) && w < cfg.workers && (cfg.workers <= 1 || NoneShared(cfg)) && Once(cfg, s)
    ensures Sized(cfg, Step(cfg, s, w)) && Once(cfg, Step(cfg, s, w))
  {
    hide Unreleased, Users, ChunkOk, NoneShared, Apart;
    StepKeeps(cfg, s, w);
    var t := Step(cfg, s, w);
    assert WorkerOk(cfg, s, w);
    if HasChunk(s.at[w]) {
      var c := s.at[w].c;
      var p := PageOf(cfg, c);
      assert PageOk(cfg, s, p) && GoodChunk(cfg, cfg.chunks[c]);
      SomeUnreleased'(cfg, s, c);
      forall v: nat | v < |t.at| && FoundUnmapped(t.at[v])
        ensures !t.pages[PageOf(cfg, t.at[v].c)].mapped
      {
        if v != w { NobodyElse(cfg, s, v, w); }
      }
    }
  }

  lemma SomeUnreleased'<T>(cfg: Config<T>, s: State<T>, c: nat)
    requires Inv(cfg, s) && c < |cfg.chunks|
    ensures !s.released[c] ==> s.pages[PageOf(cfg, c)].total > 0
  {
    hide Unreleased, Users;
    assert GoodChunk(cfg, cfg.chunks[c]) && PageOk(cfg, s, PageOf(cfg, c));
    if !s.released[c] { SomeUnreleased(cfg, s.released, PageOf(cfg, c), |s.released|, c); }
  }

  lemma {:induction false} RunOnce<T>(cfg: Config<T>, s: State<T>, run: seq<nat>)
    requires Inv(cfg, s) && Schedule(cfg, run) && (cfg.workers <= 1 || NoneShared(cfg)) && Once(cfg, s)
    ensures Once(cfg, Exec(cfg, s, run))
    decreases |run|
  {
    hide Once, NoneShared, Step, Inv;
    if run != [] {
      InSize(cfg, s);
      StepKeeps(cfg, s, run[0]);
      StepOnce(cfg, s, run[0]);
      RunOnce(cfg, Step(cfg, s, run[0]), run[1..]);
    }
  }

  /** Then a page has a single chunk. */
  lemma {:induction false} SingleChunk<T>(cfg: Config<T>, p: nat, n: nat)
    requires NoneShared(cfg) && n <= |cfg.chunks|
    ensures ChunksOn(cfg, p, n) <= 1 && (ChunksOn(cfg, p, n) == 1 ==> exists c: nat :: c < n && PageOf(cfg, c) == p)
  {
    if n > 0 { SingleChunk(cfg, p, n - 1); }
  }

  lemma AloneFits<T>(cfg: Config<T>)
    requires cfg.workers <= 1 || NoneShared(cfg)
    ensures UseCountFits(cfg)
  {
    hide NoneShared;
    if cfg.workers > 1 {
      forall p: nat
        ensures ChunksOn(cfg, p, |cfg.chunks|) <= 1
      {
        SingleChunk(cfg, p, |cfg.chunks|);
      }
    }
  }

  lemma AloneMapsOnce<T(!new)>(cfg: Config<T>)
    requires cfg.workers <= 1 || NoneShared(cfg)
    ensures MapsOnce(cfg)
  {
    hide NoneShared, Exec;
    AloneFits(cfg);
    forall s: State<T>, run: seq<nat> | AtStart(cfg, s) && Schedule(cfg, run)
      ensures MappedOnce(cfg, s, run)
    {
      InitialInv(cfg, s);
      assert Once(cfg, s);
      RunOnce(cfg, s, run);
    }
  }

  // ---- When it is not ----------------------------------------------------------------------

  function Repeat(w: nat, n: nat): (r: seq<nat>)
    ensures |r| == n && forall i :: 0 <= i < n ==> r[i] == w
  {
    if n == 0 then [] else [w] + Repeat(w, n - 1)
  }

  /** n steps of w. */
  ghost function Steps<T>(cfg: Config<T>, s: State<T>, w: nat, n: nat): (t: State<T>)
    requires Sized(cfg, s) && w < cfg.workers
    ensures Sized(cfg, t)
    decreases n
  {
    if n == 0 then s
    else
      StepSized(cfg, s, w);
      Steps(cfg, Step(cfg, s, w), w, n - 1)
  }

  lemma {:induction false} StepsAreRun<T>(cfg: Config<T>, s: State<T>, w: nat, n: nat)
    requires Sized(cfg, s) && w < cfg.workers
    ensures Schedule(cfg, Repeat(w, n)) && Exec(cfg, s, Repeat(w, n)) == Steps(cfg, s, w, n)
    decreases n
  {
    hide Inv, Step;
    if n > 0 {
      StepSized(cfg, s, w);
      StepsAreRun(cfg, Step(cfg, s, w), w, n - 1);
      assert Repeat(w, n)[1..] == Repeat(w, n - 1);
    }
  }

  lemma {:induction false} StepsAdd<T>(cfg: Config<T>, s: State<T>, w: nat, a: nat, b: nat)
    requires Sized(cfg, s) && w < cfg.workers
    ensures Steps(cfg, s, w, a + b) == Steps(cfg, Steps(cfg, s, w, a), w, b)
    decreases a
  {
    hide Inv, Step;
    if a > 0 {
      StepSized(cfg, s, w);
      StepsAdd(cfg, Step(cfg, s, w), w, a - 1, b);
    }
  }

  lemma StepsOne<T>(cfg: Config<T>, s: State<T>, w: nat)
    requires Sized(cfg, s) && w < cfg.workers
    ensures Steps(cfg, s, w, 1) == Step(cfg, s, w)
  {
    hide Inv, Step;
    StepSized(cfg, s, w);
    assert Steps(cfg, Step(cfg, s, w), w, 0) == Step(cfg, s, w);
  }

  /** Copying goes on to the end of the chunk. */
  lemma CopyAll<T>(cfg: Config<T>, s: State<T>, w: nat) returns (n: nat)
    requires Sized(cfg, s) && w < cfg.workers && s.at[w].ToCopy? && s.at[w].k <= |cfg.chunks[s.at[w].c].writes|
    ensures var t := Steps(cfg, s, w, n); t.at == s.at[w := AtLoop] && t.pages == s.pages && t.next == s.next
    decreases |cfg.chunks[s.at[w].c].writes| - s.at[w].k
  {
    hide Inv;
    StepSized(cfg, s, w);
    StepsOne(cfg, s, w);
    if s.at[w].k < |cfg.chunks[s.at[w].c].writes| {
      var m := CopyAll(cfg, Step(cfg, s, w), w);
      n := 1 + m;
      StepsAdd(cfg, s, w, 1, m);
    } else {
      n := 1;
    }
  }

  /** Using the mapping, releasing the page, copying. */
  lemma FinishChunk<T>(cfg: Config<T>, s: State<T>, w: nat, p: nat) returns (n: nat)
    requires Sized(cfg, s) && w < cfg.workers && s.at[w].Inside? && p == PageOf(cfg, s.at[w].c) && p < |s.pages| && s.pages[p].lock.Free?
    ensures var t := Steps(cfg, s, w, n);
      t.at == s.at[w := AtLoop] && t.pages == s.pages[p := ReleasedPage(s.pages[p])] && t.next == s.next
  {
    hide Inv, Steps;
    StepSized(cfg, s, w);
    StepsOne(cfg, s, w);
    var a := Step(cfg, s, w);
    StepSized(cfg, a, w);
    StepsOne(cfg, a, w);
    StepsAdd(cfg, s, w, 1, 1);
    var b := Step(cfg, a, w);
    var m := CopyAll(cfg, b, w);
    StepsAdd(cfg, s, w, 2, m);
    n := 2 + m;
  }

  /** A mapped page has its whole size mapped. */
  predicate Whole(page: Page, max: nat) { page.mapSize == if page.mapped then max else 0 }

  /** Taking a chunk and looking at its page. */
  lemma TakeChunk<T>(cfg: Config<T>, s: State<T>, w: nat, p: nat)
    requires Sized(cfg, s) && w < cfg.workers && s.at[w] == AtLoop && s.next < |cfg.chunks| && p == PageOf(cfg, s.next)
    requires p < |s.pages| && Whole(s.pages[p], cfg.maxMapSize[p])
    ensures var t := Steps(cfg, s, w, 3);
      && t.at == s.at[w := if s.pages[p].mapped then Confirm(s.next) else UseCheck(s.next)]
      && t.pages == s.pages && t.next == s.next + 1
  {
    hide Inv, Steps;
    assert GoodChunk(cfg, cfg.chunks[s.next]);
    StepSized(cfg, s, w);
    StepsOne(cfg, s, w);
    var a := Step(cfg, s, w);
    StepSized(cfg, a, w);
    StepsOne(cfg, a, w);
    StepsAdd(cfg, s, w, 1, 1);
    var b := Step(cfg, a, w);
    StepsOne(cfg, b, w);
    StepsAdd(cfg, s, w, 2, 1);
  }

  /** Found unmapped, and nobody uses it: three steps to where an old mapping has been dropped. */
  lemma LockAndFree<T>(cfg: Config<T>, s: State<T>, w: nat, p: nat)
    requires Sized(cfg, s) && w < cfg.workers && s.at[w].UseCheck? && p == PageOf(cfg, s.at[w].c) && p < |s.pages|
    requires s.pages[p].lock.Free? && s.pages[p].numUsing == 0
    ensures var t := Steps(cfg, s, w, 3);
      && t.at == s.at[w := ToMap(s.at[w].c)] && t.next == s.next
      && t.pages == s.pages[p := Freed(s.pages[p].(numUsing := 1, lock := Held(w)))]
  {
    hide Inv, Steps;
    StepSized(cfg, s, w);
    StepsOne(cfg, s, w);
    var a := Step(cfg, s, w);
    StepSized(cfg, a, w);
    StepsOne(cfg, a, w);
    StepsAdd(cfg, s, w, 1, 1);
    var b := Step(cfg, a, w);
    StepSized(cfg, b, w);
    StepsOne(cfg, b, w);
    StepsAdd(cfg, s, w, 2, 1);
  }

  /** Then the page is mapped. */
  lemma MapPage<T>(cfg: Config<T>, s: State<T>, w: nat, p: nat)
    requires Sized(cfg, s) && w < cfg.workers && s.at[w].UseCheck? && p == PageOf(cfg, s.at[w].c) && p < |s.pages|
    requires s.pages[p].lock.Free? && s.pages[p].numUsing == 0
    ensures var t := Steps(cfg, s, w, 5);
      && t.at == s.at[w := Inside(s.at[w].c, s.pages[p].maps + 1)] && t.next == s.next
      && t.pages == s.pages[p := Page(Free, true, cfg.maxMapSize[p], 1, s.pages[p].total, s.pages[p].maps + 1)]
  {
    hide Inv, Steps;
    LockAndFree(cfg, s, w, p);
    var c := Steps(cfg, s, w, 3);
    StepSized(cfg, c, w);
    StepsOne(cfg, c, w);
    StepsAdd(cfg, s, w, 3, 1);
    var d := Step(cfg, c, w);
    StepsOne(cfg, d, w);
    StepsAdd(cfg, s, w, 4, 1);
  }

  /** A quiet page: unlocked, in use by nobody. */
  predicate QuietPage(page: Page) { page.lock.Free? && page.numUsing == 0 }

  /** The page in use by one worker, mapped if it was not. */
  function InUse(page: Page, max: nat): Page {
    if page.mapped then page.(numUsing := 1) else Page(Free, true, max, 1, page.total, page.maps + 1)
  }

  /** Released by its only user, the page is quiet; it stays mapped while chunks are left. */
  lemma ReleasedQuiet(page: Page, max: nat)
    requires QuietPage(page) && Whole(page, max)
    ensures InUse(page, max).lock.Free?
    ensures var q := ReleasedPage(InUse(page, max));
      QuietPage(q) && Whole(q, max) && q.maps == page.maps + (if page.mapped then 0 else 1) && (q.total > 0 ==> q.mapped)
  {
  }

  /** A worker alone gets at the page of the next chunk. */
  lemma GetPage<T>(cfg: Config<T>, s: State<T>, w: nat, p: nat) returns (n: nat)
    requires Sized(cfg, s) && w < cfg.workers && s.at[w] == AtLoop && s.next < |cfg.chunks| && p == PageOf(cfg, s.next)
    requires p < |s.pages| && QuietPage(s.pages[p]) && Whole(s.pages[p], cfg.maxMapSize[p])
    ensures var t := Steps(cfg, s, w, n);
      && t.at == s.at[w := Inside(s.next, InUse(s.pages[p], cfg.maxMapSize[p]).maps)] && t.next == s.next + 1
      && t.pages == s.pages[p := InUse(s.pages[p], cfg.maxMapSize[p])]
  {
    hide Inv, Step, Steps;
    TakeChunk(cfg, s, w, p);
    var a := Steps(cfg, s, w, 3);
    if s.pages[p].mapped {
      Confirmed(cfg, a, w, p);
      n := 4;
      StepsAdd(cfg, s, w, 3, 1);
    } else {
      MapPage(cfg, a, w, p);
      n := 8;
      StepsAdd(cfg, s, w, 3, 5);
    }
  }

  /** A worker alone processes the next chunk; if its page is not the last one's, it stays mapped. */
  lemma ProcessOne<T>(cfg: Config<T>, s: State<T>, w: nat, p: nat) returns (n: nat)
    requires Sized(cfg, s) && w < cfg.workers && s.at[w] == AtLoop && s.next < |cfg.chunks| && p == PageOf(cfg, s.next)
    requires p < |s.pages| && QuietPage(s.pages[p]) && Whole(s.pages[p], cfg.maxMapSize[p])
    ensures var t := Steps(cfg, s, w, n);
      && t.at == s.at && t.next == s.next + 1 && |t.pages| == |s.pages| && t.pages == s.pages[p := t.pages[p]]
      && QuietPage(t.pages[p]) && Whole(t.pages[p], cfg.maxMapSize[p])
      && t.pages[p].maps == s.pages[p].maps + (if s.pages[p].mapped then 0 else 1)
      && (t.pages[p].total > 0 ==> t.pages[p].mapped)
  {
    hide Inv, Step, Steps, InUse, ReleasedPage, QuietPage, Whole;
    ReleasedQuiet(s.pages[p], cfg.maxMapSize[p]);
    var k := GetPage(cfg, s, w, p);
    var a := Steps(cfg, s, w, k);
    var m := FinishChunk(cfg, a, w, p);
    StepsAdd(cfg, s, w, k, m);
    n := k + m;
  }

  /** The mapping is there: one more user. */
  lemma Confirmed<T>(cfg: Config<T>, s: State<T>, w: nat, p: nat)
    requires Sized(cfg, s) && w < cfg.workers && s.at[w].Confirm? && p == PageOf(cfg, s.at[w].c) && p < |s.pages|
    requires s.pages[p].lock.Free? && s.pages[p].mapped && s.pages[p].mapSize == cfg.maxMapSize[p]
    ensures var t := Steps(cfg, s, w, 1);
      && t.at == s.at[w := Inside(s.at[w].c, s.pages[p].maps)] && t.next == s.next
      && t.pages == s.pages[p := s.pages[p].(numUsing := (s.pages[p].numUsing + 1) % USE_COUNT_RANGE)]
  {
    hide Inv;
    StepsOne(cfg, s, w);
  }

  /** Every page but p is quiet. */
  ghost predicate CalmBut<T>(cfg: Config<T>, s: State<T>, p: nat) {
    |s.pages| == |cfg.maxMapSize| && forall q: nat :: q < |s.pages| && q != p ==> QuietPage(s.pages[q]) && Whole(s.pages[q], cfg.maxMapSize[q])
  }

  /** A worker alone processes the chunks up to number i; a page that none of them lies on is left as it was. */
  lemma ProcessUpTo<T>(cfg: Config<T>, s: State<T>, w: nat, i: nat, p: nat) returns (n: nat)
    requires Sized(cfg, s) && w < cfg.workers && s.at[w] == AtLoop && s.next <= i <= |cfg.chunks| && CalmBut(cfg, s, p) && p < |s.pages|
    requires forall c: nat :: s.next <= c < i ==> PageOf(cfg, c) != p
    ensures var t := Steps(cfg, s, w, n);
      t.at == s.at && t.next == i && CalmBut(cfg, t, p) && |t.pages| == |s.pages| && t.pages[p] == s.pages[p]
    decreases i - s.next
  {
    if s.next == i {
      n := 0;
    } else {
      hide Inv, Step, Steps;
      var q := PageOf(cfg, s.next);
      assert GoodChunk(cfg, cfg.chunks[s.next]);
      var k := ProcessOne(cfg, s, w, q);
      var a := Steps(cfg, s, w, k);
      var m := ProcessUpTo(cfg, a, w, i, p);
      StepsAdd(cfg, s, w, k, m);
      n := k + m;
    }
  }

  /** The first two chunks on one page. */
  lemma FirstShared<T>(cfg: Config<T>) returns (c: nat, d: nat)
    requires !NoneShared(cfg)
    ensures c < d < |cfg.chunks| && PageOf(cfg, c) == PageOf(cfg, d)
    ensures forall b: nat :: b < d && b != c ==> PageOf(cfg, b) != PageOf(cfg, d)
  {
    var x: nat, y: nat :| x < y < |cfg.chunks| && PageOf(cfg, x) == PageOf(cfg, y);
    c, d := Lowest(cfg, PageOf(cfg, x), x, y);
  }

  lemma Lowest<T>(cfg: Config<T>, p: nat, x: nat, y: nat) returns (c: nat, d: nat)
    requires x < y < |cfg.chunks| && PageOf(cfg, x) == PageOf(cfg, y) == p
    ensures c < d < |cfg.chunks| && PageOf(cfg, c) == PageOf(cfg, d) == p
    ensures forall b: nat :: b < d && b != c ==> PageOf(cfg, b) != p
    decreases x + y
  {
    if b: nat :| b < y && b != x && PageOf(cfg, b) == p {
      if b < x {
        c, d := Lowest(cfg, p, b, x);
      } else {
        c, d := Lowest(cfg, p, x, b);
      }
    } else {
      c, d := x, y;
    }
  }

  /** A run made longer by n steps of w. */
  lemma Extend<T>(cfg: Config<T>, s: State<T>, run: seq<nat>, w: nat, n: nat) returns (longer: seq<nat>)
    requires Sized(cfg, s) && Schedule(cfg, run) && w < cfg.workers
    ensures Schedule(cfg, longer) && Exec(cfg, s, longer) == Steps(cfg, Exec(cfg, s, run), w, n)
  {
    hide Inv, Exec, Steps;
    StepsAreRun(cfg, Exec(cfg, s, run), w, n);
    ExecAppend(cfg, s, run, Repeat(w, n));
    longer := run + Repeat(w, n);
  }

  /** One worker has seen page p of its chunk c unmapped, and it still is; the others are before their start. */
  ghost predicate Parked<T>(cfg: Config<T>, s: State<T>, c: nat, p: nat) {
    && Sized(cfg, s) && cfg.workers >= 2 && p < |s.pages| && CalmBut(cfg, s, p) && c < |cfg.chunks| && PageOf(cfg, c) == p
    && s.at[0] == UseCheck(c) && (forall w :: 1 <= w < cfg.workers ==> s.at[w] == AtLoop) && s.next == c + 1
    && QuietPage(s.pages[p]) && s.pages[p] == Page(Free, false, 0, 0, s.pages[p].total, 0)
  }

  lemma StartIsCalm<T>(cfg: Config<T>, s: State<T>, p: nat)
    requires AtStart(cfg, s)
    ensures Sized(cfg, s) && CalmBut(cfg, s, p) && (forall w :: 0 <= w < cfg.workers ==> s.at[w] == AtLoop) && s.next == 0
    ensures p < |s.pages| ==> s.pages[p] == Page(Free, false, 0, 0, s.pages[p].total, 0)
  {
  }

  /** A worker processes the chunks before the first one on the page, and parks. */
  lemma Park<T>(cfg: Config<T>, s: State<T>, c: nat) returns (run: seq<nat>)
    requires AtStart(cfg, s) && cfg.workers >= 2 && c < |cfg.chunks|
    requires forall b: nat :: b < c ==> PageOf(cfg, b) != PageOf(cfg, c)
    ensures Sized(cfg, s) && Schedule(cfg, run) && Parked(cfg, Exec(cfg, s, run), c, PageOf(cfg, c))
  {
    var p := PageOf(cfg, c);
    assert GoodChunk(cfg, cfg.chunks[c]);
    hide Inv, Steps, Exec, Step, AtStart;
    StartIsCalm(cfg, s, p);
    assert Exec(cfg, s, []) == s by { ExecNone(cfg, s); }
    var n := ProcessUpTo(cfg, s, 0, c, p);
    var first := Extend(cfg, s, [], 0, n);
    TakeChunk(cfg, Exec(cfg, s, first), 0, p);
    run := Extend(cfg, s, first, 0, 3);
  }

  lemma ExecNone<T>(cfg: Config<T>, s: State<T>)
    requires Sized(cfg, s)
    ensures Schedule(cfg, []) && Exec(cfg, s, []) == s
  {
  }

  /** Another worker maps the page and leaves; the parked one then maps it again. */
  lemma Overtake<T>(cfg: Config<T>, s: State<T>, run: seq<nat>, c: nat, d: nat) returns (longer: seq<nat>)
    requires Sized(cfg, s) && Schedule(cfg, run) && c < d < |cfg.chunks| && PageOf(cfg, d) == PageOf(cfg, c)
    requires forall b: nat :: b < d && b != c ==> PageOf(cfg, b) != PageOf(cfg, c)
    requires Parked(cfg, Exec(cfg, s, run), c, PageOf(cfg, c))
    ensures Schedule(cfg, longer) && PageOf(cfg, c) < |Exec(cfg, s, longer).pages|
    ensures Exec(cfg, s, longer).pages[PageOf(cfg, c)].maps == 2
  {
    hide Inv, Steps, Exec, Step;
    var p, t := PageOf(cfg, c), Exec(cfg, s, run);
    var n := ProcessUpTo(cfg, t, 1, d, p);
    var second := Extend(cfg, s, run, 1, n);
    var m := ProcessOne(cfg, Exec(cfg, s, second), 1, p);
    var third := Extend(cfg, s, second, 1, m);
    MapPage(cfg, Exec(cfg, s, third), 0, p);
    longer := Extend(cfg, s, third, 0, 5);
  }

  /** With two workers and two chunks on one page, some run maps that page twice. */
  lemma RaceMapsTwice<T>(cfg: Config<T>, s: State<T>) returns (run: seq<nat>, p: nat)
    requires AtStart(cfg, s) && cfg.workers >= 2 && !NoneShared(cfg)
    ensures Sized(cfg, s) && Schedule(cfg, run) && p < |Exec(cfg, s, run).pages| && Exec(cfg, s, run).pages[p].maps == 2
  {
    hide NoneShared, Exec, Parked;
    var c, d := FirstShared(cfg);
    var first := Park(cfg, s, c);
    run := Overtake(cfg, s, first, c, d);
    p := PageOf(cfg, c);
  }

  /** Each page is mapped at most once in every run exactly when there is a single worker or no page has two chunks. */
  lemma MappedOnceIff<T(!new)>(cfg: Config<T>, s: State<T>)
    requires AtStart(cfg, s)
    ensures MapsOnce(cfg) <==> cfg.workers <= 1 || NoneShared(cfg)
  {
    hide NoneShared, Exec, AtStart;
    if cfg.workers <= 1 || NoneShared(cfg) {
      AloneMapsOnce(cfg);
    } else {
      var run, p := RaceMapsTwice(cfg, s);
      assert !MappedOnce(cfg, s, run);
    }
  }

  /** Two chunks on one page, and two workers before their start. */
  function OnePage(): Config<int> { Config([Chunk(0, 1, []), Chunk(0, 1, [])], [1], 2, 0) }

  function OnePageStart(): State<int> {
    State(0, [Page(Free, false, 0, 0, 2, 0)], [AtLoop, AtLoop], [], [false, false], [false, false])
  }

  /** In some run of them the page is mapped twice. */
  lemma OnePageTwice() returns (run: seq<nat>)
    ensures Initial(OnePage(), OnePageStart()) && Inv(OnePage(), OnePageStart()) && Schedule(OnePage(), run)
    ensures var end := Exec(OnePage(), OnePageStart(), run); |end.pages| == 1 && end.pages[0].maps == 2
  {
    hide Exec, Step;
    var cfg, s := OnePage(), OnePageStart();
    assert Unreleased(cfg, s.released, 0, 1) == 1 && Unreleased(cfg, s.released, 0, 2) == 2;
    assert PageOf(cfg, 0) == PageOf(cfg, 1);
    var p;
    run, p := RaceMapsTwice(cfg, s);
    InSize(cfg, Exec(cfg, s, run));
  }
}
