/** The eight bits of a page's use count. With 257 workers on 257 chunks of one page the count comes back to 0 while
    256 of them use the mapping, and the last one, which had seen the page unmapped, drops it. */
module UseCountWraps {
  import opened PagePool
  import opened PoolRuns
  import opened PageRemaps

  /** In every run no worker's pointer is bad. */
  ghost predicate Safe<T(!new)>(cfg: Config<T>) {
    forall s: State<T>, run: seq<nat> :: AtStart(cfg, s) && Schedule(cfg, run) ==> SafeRun(cfg, s, run)
  }

  ghost predicate SafeRun<T>(cfg: Config<T>, s: State<T>, run: seq<nat>)
    requires AtStart(cfg, s) && Schedule(cfg, run)
  {
    forall w: nat :: w < cfg.workers ==> PointerGood(cfg, Exec(cfg, s, run), w)
  }

  /** The next chunk on page p, from number n on. */
  lemma NextOn<T>(cfg: Config<T>, p: nat, n: nat) returns (c: nat)
    requires n <= |cfg.chunks| && ChunksOn(cfg, p, n) < ChunksOn(cfg, p, |cfg.chunks|)
    ensures n <= c < |cfg.chunks| && PageOf(cfg, c) == p && ChunksOn(cfg, p, c + 1) == ChunksOn(cfg, p, n) + 1
    ensures forall b: nat :: n <= b < c ==> PageOf(cfg, b) != p
    decreases |cfg.chunks| - n
  {
    assert ChunksOn(cfg, p, n + 1) == ChunksOn(cfg, p, n) + (if PageOf(cfg, n) == p then 1 else 0);
    if PageOf(cfg, n) == p {
      c := n;
    } else {
      c := NextOn(cfg, p, n + 1);
    }
  }

  /** The first worker has seen page p unmapped, k others use it, and the rest are before their start. */
  ghost predicate Crowd<T>(cfg: Config<T>, s: State<T>, c: nat, p: nat, k: nat) {
    && Sized(cfg, s) && k < cfg.workers && p < |s.pages| && CalmBut(cfg, s, p) && c < |cfg.chunks| && PageOf(cfg, c) == p
    && s.at[0] == UseCheck(c) && ChunksOn(cfg, p, s.next) == k + 1
    && (forall w :: 1 <= w <= k ==> s.at[w].Inside? && PageOf(cfg, s.at[w].c) == p)
    && (forall w :: k < w < cfg.workers ==> s.at[w] == AtLoop)
    && s.pages[p].lock.Free? && s.pages[p].numUsing == k % USE_COUNT_RANGE && Whole(s.pages[p], cfg.maxMapSize[p])
    && s.pages[p].mapped == (k > 0)
  }

  lemma ParkedAlone<T>(cfg: Config<T>, s: State<T>, c: nat)
    requires c < |cfg.chunks| && Parked(cfg, s, c, PageOf(cfg, c)) && ChunksOn(cfg, PageOf(cfg, c), c + 1) == 1
    ensures Crowd(cfg, s, c, PageOf(cfg, c), 0)
  {
    hide CalmBut, ChunksOn;
  }

  /** One more worker comes to the page of its chunk and stays. */
  lemma OneJoins<T>(cfg: Config<T>, s: State<T>, run: seq<nat>, c: nat, p: nat, k: nat) returns (longer: seq<nat>)
    requires Sized(cfg, s) && Schedule(cfg, run) && Crowd(cfg, Exec(cfg, s, run), c, p, k)
    requires k + 1 < cfg.workers && k + 1 < ChunksOn(cfg, p, |cfg.chunks|) && k < USE_COUNT_RANGE
    ensures Schedule(cfg, longer) && Crowd(cfg, Exec(cfg, s, longer), c, p, k + 1)
  {
    hide Exec, Steps, Step, CalmBut, ChunksOn;
    var t, w := Exec(cfg, s, run), k + 1;
    var d := NextOn(cfg, p, t.next);
    var n := ProcessUpTo(cfg, t, w, d, p);
    var second := Extend(cfg, s, run, w, n);
    var a := Exec(cfg, s, second);
    TakeChunk(cfg, a, w, p);
    var third := Extend(cfg, s, second, w, 3);
    var b := Exec(cfg, s, third);
    SameCalm(cfg, a, b, p);
    if k == 0 {
      MapPage(cfg, b, w, p);
      longer := Extend(cfg, s, third, w, 5);
    } else {
      Confirmed(cfg, b, w, p);
      longer := Extend(cfg, s, third, w, 1);
    }
    SameCalm(cfg, b, Exec(cfg, s, longer), p);
  }

  lemma SameCalm<T>(cfg: Config<T>, s: State<T>, t: State<T>, p: nat)
    requires CalmBut(cfg, s, p) && p < |s.pages| == |t.pages| && t.pages == s.pages[p := t.pages[p]]
    ensures CalmBut(cfg, t, p)
  {
  }

  lemma {:induction false} ManyJoin<T>(cfg: Config<T>, s: State<T>, run: seq<nat>, c: nat, p: nat, k: nat) returns (longer: seq<nat>)
    requires Sized(cfg, s) && Schedule(cfg, run) && Crowd(cfg, Exec(cfg, s, run), c, p, k) && k <= USE_COUNT_RANGE
    requires cfg.workers > USE_COUNT_RANGE && ChunksOn(cfg, p, |cfg.chunks|) > USE_COUNT_RANGE
    ensures Schedule(cfg, longer) && Crowd(cfg, Exec(cfg, s, longer), c, p, USE_COUNT_RANGE)
    decreases USE_COUNT_RANGE - k
  {
    hide Exec, Crowd, ChunksOn;
    if k == USE_COUNT_RANGE {
      longer := run;
    } else {
      var more := OneJoins(cfg, s, run, c, p, k);
      longer := ManyJoin(cfg, s, more, c, p, k + 1);
    }
  }

  /** With 257 workers, and 257 chunks on one page, some run unmaps the page while a worker has a pointer into it. */
  lemma CountWraps<T>(cfg: Config<T>, s: State<T>, p: nat) returns (run: seq<nat>)
    requires AtStart(cfg, s) && cfg.workers > USE_COUNT_RANGE && ChunksOn(cfg, p, |cfg.chunks|) > USE_COUNT_RANGE
    ensures Sized(cfg, s) && Schedule(cfg, run) && p < |s.pages|
    ensures var t := Exec(cfg, s, run); t.at[1].Inside? && PageOf(cfg, t.at[1].c) == p && !t.pages[p].mapped
  {
    hide Exec, Steps, Step, ChunksOn, AtStart, Parked;
    StartIsCalm(cfg, s, p);
    assert ChunksOn(cfg, p, 0) == 0 by { NoneYet(cfg, p); }
    var c := NextOn(cfg, p, 0);
    var parked := Park(cfg, s, c);
    ParkedAlone(cfg, Exec(cfg, s, parked), c);
    var full := ManyJoin(cfg, s, parked, c, p, 0);
    var t := Exec(cfg, s, full);
    assert t.at[1].Inside?;
    LockAndFree(cfg, t, 0, p);
    run := Extend(cfg, s, full, 0, 3);
  }

  lemma NoneYet<T>(cfg: Config<T>, p: nat)
    ensures ChunksOn(cfg, p, 0) == 0
  {
  }

  /** Pointers are good in every run exactly when there are at most 256 workers, or at most 256 chunks on each page. */
  lemma SafeIff<T(!new)>(cfg: Config<T>, s: State<T>)
    requires AtStart(cfg, s)
    ensures Safe(cfg) <==> cfg.workers <= USE_COUNT_RANGE || forall p: nat :: ChunksOn(cfg, p, |cfg.chunks|) <= USE_COUNT_RANGE
  {
    hide Exec, ChunksOn, AtStart, PointerGood;
    if UseCountFits(cfg) {
      forall r: State<T>, run: seq<nat> | AtStart(cfg, r) && Schedule(cfg, run)
        ensures SafeRun(cfg, r, run)
      {
        StartIsCalm(cfg, r, 0);
        forall w: nat | w < cfg.workers
          ensures PointerGood(cfg, Exec(cfg, r, run), w)
        {
          PointerIsGood(cfg, r, run, w);
        }
      }
    } else {
      var p: nat :| ChunksOn(cfg, p, |cfg.chunks|) > USE_COUNT_RANGE;
      var run := CountWraps(cfg, s, p);
      BadPointer(cfg, Exec(cfg, s, run), 1);
      assert !SafeRun(cfg, s, run);
    }
  }

  lemma BadPointer<T>(cfg: Config<T>, s: State<T>, w: nat)
    requires Sized(cfg, s) && w < cfg.workers && s.at[w].Inside? && PageOf(cfg, s.at[w].c) < |s.pages|
    requires !s.pages[PageOf(cfg, s.at[w].c)].mapped
    ensures !PointerGood(cfg, s, w)
  {
  }

  /** As many workers as chunks, all on one page. */
  function OnOnePage(n: nat): Config<int> { Config(seq(n, i => Chunk(0, 1, [])), [1], n, 0) }

  function BeforeStart(n: nat): State<int> {
    State(0, [Page(Free, false, 0, 0, n, 0)], seq(n, i => AtLoop), [], seq(n, i => false), seq(n, i => false))
  }

  lemma {:induction false} AllOnPage(n: nat, k: nat)
    requires k <= n
    ensures ChunksOn(OnOnePage(n), 0, k) == k && Unreleased(OnOnePage(n), BeforeStart(n).released, 0, k) == k
  {
    if k > 0 { AllOnPage(n, k - 1); }
  }

  /** They are safe up to 256 workers, and not with 257. */
  lemma OnOnePageSafe(n: nat)
    ensures AtStart(OnOnePage(n), BeforeStart(n))
    ensures Safe(OnOnePage(n)) <==> n <= 256
  {
    hide Safe;
    AllOnPage(n, n);
    SafeIff(OnOnePage(n), BeforeStart(n));
  }
}
