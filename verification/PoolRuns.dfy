/** Whole runs of the worker pool under every schedule. */
module PoolRuns {
  import opened PagePool
  import opened PageSafety

  /** Every step of every worker keeps the invariant. */
  lemma StepKeeps<T>(cfg: Config<T>, s: State<T>, w: nat)
    requires Inv(cfg, s) && w < cfg.workers
    ensures Inv(cfg, Step(cfg, s, w))
  {
    hide PageOk, ChunkOk, Apart;
    var at := s.at[w];
    assert WorkerOk(cfg, s, w);
    if !HasChunk(at) {
      if at.ToDequeue? && s.next < |cfg.chunks| {
        DequeueStep(cfg, s, w);
      } else if !at.Finished? {
        IdleStep(cfg, s, w, if at.AtLoop? && s.next < |cfg.chunks| then ToDequeue else Finished);
      }
    } else {
      ChunkStepKeeps(cfg, s, w);
    }
  }

  lemma ChunkStepKeeps<T>(cfg: Config<T>, s: State<T>, w: nat)
    requires Inv(cfg, s) && w < cfg.workers && HasChunk(s.at[w])
    ensures Inv(cfg, Step(cfg, s, w))
  {
    hide PageOk, ChunkOk, Apart, Inv, WorkerOk;
    InSize(cfg, s);
    var at := s.at[w];
    var c := at.c;
    var p := PageOf(cfg, c);
    var page := s.pages[p];
    match at
    case SizeCheck(_) => LookStep(cfg, s, w, if cfg.maxMapSize[p] <= page.mapSize then Confirm(c) else UseCheck(c));
    case Confirm(_) =>
      if page.lock.Free? {
        if cfg.maxMapSize[p] <= page.mapSize { EnterStep(cfg, s, w, p); } else { LookStep(cfg, s, w, SizeCheck(c)); }
      }
    case UseCheck(_) => LookStep(cfg, s, w, if page.numUsing == 0 then ToLock(c) else SizeCheck(c));
    case ToLock(_) =>
      if page.lock.Free? {
        if page.numUsing == 0 { LockStep(cfg, s, w, p); } else { LookStep(cfg, s, w, SizeCheck(c)); }
      }
    case ToFree(_) => FreeStep(cfg, s, w, p);
    case ToMap(_) => MapStep(cfg, s, w, p);
    case ToUnlock(_) => UnlockStep(cfg, s, w, p);
    case Inside(_, _) => UseStep(cfg, s, w);
    case ToRelease(_, _) => if page.lock.Free? { ReleaseStep(cfg, s, w, p); }
    case ToCopy(_, k) =>
      if k < |cfg.chunks[c].writes| {
        CopyStep(cfg, s, w, s.out[cfg.chunks[c].writes[k].pos := cfg.chunks[c].writes[k].value]);
      } else {
        DoneStep(cfg, s, w);
      }
  }

  lemma InSize<T>(cfg: Config<T>, s: State<T>)
    requires Inv(cfg, s)
    ensures Sized(cfg, s) && forall c :: 0 <= c < |cfg.chunks| ==> GoodChunk(cfg, cfg.chunks[c])
  {
  }

  // ---- Runs --------------------------------------------------------------------------------

  /** A schedule names the worker that takes each step. */
  ghost predicate Schedule<T>(cfg: Config<T>, run: seq<nat>) { forall i :: 0 <= i < |run| ==> run[i] < cfg.workers }

  lemma StepSized<T>(cfg: Config<T>, s: State<T>, w: nat)
    requires Sized(cfg, s) && w < cfg.workers
    ensures Sized(cfg, Step(cfg, s, w)) && (Inv(cfg, s) ==> Inv(cfg, Step(cfg, s, w)))
  {
    hide Inv;
    if Inv(cfg, s) { StepKeeps(cfg, s, w); }
  }

  /** The state at the end of a run. */
  ghost function Exec<T>(cfg: Config<T>, s: State<T>, run: seq<nat>): (t: State<T>)
    requires Sized(cfg, s) && Schedule(cfg, run)
    ensures Sized(cfg, t) && (Inv(cfg, s) ==> Inv(cfg, t))
    decreases |run|
  {
    if run == [] then s
    else
      StepSized(cfg, s, run[0]);
      Exec(cfg, Step(cfg, s, run[0]), run[1..])
  }

  lemma {:induction false} ExecAppend<T>(cfg: Config<T>, s: State<T>, a: seq<nat>, b: seq<nat>)
    requires Sized(cfg, s) && Schedule(cfg, a) && Schedule(cfg, b)
    ensures Schedule(cfg, a + b) && Exec(cfg, s, a + b) == Exec(cfg, Exec(cfg, s, a), b)
    decreases |a|
  {
    hide Inv, Step;
    if a == [] {
      assert a + b == b;
    } else {
      StepSized(cfg, s, a[0]);
      assert (a + b)[1..] == a[1..] + b && (a + b)[0] == a[0];
      ExecAppend(cfg, Step(cfg, s, a[0]), a[1..], b);
    }
  }

  ghost predicate GoodConfig<T>(cfg: Config<T>) { forall c :: 0 <= c < |cfg.chunks| ==> GoodChunk(cfg, cfg.chunks[c]) }

  /** Before the workers start: all chunks queued, no page mapped, each page's count that of its chunks. */
  ghost predicate AtStart<T>(cfg: Config<T>, s: State<T>) {
    && GoodConfig(cfg)
    && s.next == 0 && |s.pages| == |cfg.maxMapSize| && |s.at| == cfg.workers && |s.out| == cfg.size
    && |s.released| == |s.done| == |cfg.chunks|
    && (forall w :: 0 <= w < |s.at| ==> s.at[w] == AtLoop)
    && (forall c :: 0 <= c < |s.done| ==> !s.done[c] && !s.released[c])
    && forall p: nat :: p < |s.pages| ==> s.pages[p] == Page(Free, false, 0, 0, Unreleased(cfg, s.released, p, |s.released|), 0)
  }

  /** Such a start when no use count can wrap. */
  ghost predicate Initial<T>(cfg: Config<T>, s: State<T>) { AtStart(cfg, s) && UseCountFits(cfg) }

  lemma {:induction false} NoUsers<T>(cfg: Config<T>, at: seq<Place>, p: nat, n: nat)
    requires n <= |at| && forall w :: 0 <= w < n ==> !HasChunk(at[w])
    ensures Users(cfg, at, p, n) == 0
  {
    if n > 0 { NoUsers(cfg, at, p, n - 1); }
  }

  lemma InitialInv<T>(cfg: Config<T>, s: State<T>)
    requires Initial(cfg, s)
    ensures Inv(cfg, s)
  {
    hide Users, Unreleased;
    forall p: nat | p < |s.pages|
      ensures PageOk(cfg, s, p)
    {
      NoUsers(cfg, s.at, p, |s.at|);
    }
  }

  // ---- Safety ------------------------------------------------------------------------------

  /** A worker between navigating and releasing has a pointer into the mapping that is there now, and it covers its
      chunk. */
  ghost predicate PointerGood<T>(cfg: Config<T>, s: State<T>, w: nat)
    requires Sized(cfg, s) && w < cfg.workers
  {
    HasPointer(s.at[w]) ==>
      PageOf(cfg, s.at[w].c) < |s.pages| &&
      var page := s.pages[PageOf(cfg, s.at[w].c)];
      page.mapped && page.maps == s.at[w].m && cfg.chunks[s.at[w].c].need <= page.mapSize
  }

  /** It is so in every run in which no use count can wrap. */
  lemma PointerIsGood<T>(cfg: Config<T>, s: State<T>, run: seq<nat>, w: nat)
    requires Initial(cfg, s) && Schedule(cfg, run) && w < cfg.workers
    ensures Inv(cfg, s) && PointerGood(cfg, Exec(cfg, s, run), w)
  {
    InitialInv(cfg, s);
    var t := Exec(cfg, s, run);
    assert WorkerOk(cfg, t, w);
    if HasPointer(t.at[w]) {
      assert GoodChunk(cfg, cfg.chunks[t.at[w].c]) && PageOk(cfg, t, PageOf(cfg, t.at[w].c));
    }
  }

  /** No step of any worker unmaps or replaces a mapping that another worker has a pointer into. */
  lemma PointerStays<T>(cfg: Config<T>, s: State<T>, v: nat, w: nat)
    requires Inv(cfg, s) && v < cfg.workers && w < cfg.workers && v != w && HasPointer(s.at[w])
    ensures var p := PageOf(cfg, s.at[w].c); var t := Step(cfg, s, v);
      t.at[w] == s.at[w] && t.pages[p].mapped && s.pages[p].mapped && t.pages[p].maps == s.pages[p].maps
      && t.pages[p].mapSize == s.pages[p].mapSize
  {
    StepKeeps(cfg, s, v);
    var t, p := Step(cfg, s, v), PageOf(cfg, s.at[w].c);
    OthersStay(cfg, s, v, w);
    assert WorkerOk(cfg, s, w) && WorkerOk(cfg, t, w) && PageOk(cfg, s, p) && PageOk(cfg, t, p);
  }

  lemma OthersStay<T>(cfg: Config<T>, s: State<T>, v: nat, w: nat)
    requires Inv(cfg, s) && v < cfg.workers && w < cfg.workers && v != w
    ensures Step(cfg, s, v).at[w] == s.at[w]
  {
  }

  /** At the end every chunk is done, every page is released and unmapped. */
  lemma WhenFinished<T>(cfg: Config<T>, s: State<T>)
    requires Inv(cfg, s) && cfg.workers > 0 && s.next == |cfg.chunks| && forall w :: 0 <= w < |s.at| ==> s.at[w].Finished?
    ensures forall c: nat :: c < |cfg.chunks| ==> s.done[c]
    ensures forall p: nat :: p < |s.pages| ==> !s.pages[p].mapped && s.pages[p].numUsing == 0 && s.pages[p].total == 0
  {
    hide Users, Unreleased;
    forall c: nat | c < |cfg.chunks|
      ensures s.done[c] && s.released[c]
    {
      assert ChunkOk(s, c);
    }
    forall p: nat | p < |s.pages|
      ensures !s.pages[p].mapped && s.pages[p].numUsing == 0 && s.pages[p].total == 0
    {
      assert PageOk(cfg, s, p);
      NoUsers(cfg, s.at, p, |s.at|);
      NoneUnreleased(cfg, s.released, p, |s.released|);
    }
  }

  lemma {:induction false} NoneUnreleased<T>(cfg: Config<T>, released: seq<bool>, p: nat, n: nat)
    requires n <= |released| == |cfg.chunks| && forall c :: 0 <= c < n ==> released[c]
    ensures Unreleased(cfg, released, p, n) == 0
  {
    if n > 0 { NoneUnreleased(cfg, released, p, n - 1); }
  }

  /** A worker finishes only when the queue is empty. */
  ghost predicate FinishedWhenEmpty<T>(cfg: Config<T>, s: State<T>) {
    forall w :: 0 <= w < |s.at| && s.at[w].Finished? ==> s.next == |cfg.chunks|
  }

  lemma {:induction false} FinishedMeansEmpty<T>(cfg: Config<T>, s: State<T>, run: seq<nat>)
    requires Inv(cfg, s) && Schedule(cfg, run) && FinishedWhenEmpty(cfg, s)
    ensures FinishedWhenEmpty(cfg, Exec(cfg, s, run))
    decreases |run|
  {
    if run != [] {
      StepKeeps(cfg, s, run[0]);
      StepFinishes(cfg, s, run[0]);
      FinishedMeansEmpty(cfg, Step(cfg, s, run[0]), run[1..]);
    }
  }

  lemma StepFinishes<T>(cfg: Config<T>, s: State<T>, w: nat)
    requires Inv(cfg, s) && w < cfg.workers && FinishedWhenEmpty(cfg, s)
    ensures FinishedWhenEmpty(cfg, Step(cfg, s, w))
  {
    hide Inv;
    InSize(cfg, s);
  }

  /** Steps of the run that complete chunk c. */
  ghost function Completions<T>(cfg: Config<T>, s: State<T>, run: seq<nat>, c: nat): nat
    requires Inv(cfg, s) && Schedule(cfg, run)
    decreases |run|
  {
    if run == [] then 0
    else
      StepKeeps(cfg, s, run[0]);
      Completions(cfg, Step(cfg, s, run[0]), run[1..], c) + One(Completes(s, run[0], c, cfg))
  }

  ghost predicate Completes<T>(s: State<T>, w: nat, c: nat, cfg: Config<T>)
    requires w < |s.at|
  {
    s.at[w].ToCopy? && s.at[w].c == c && c < |cfg.chunks| && s.at[w].k >= |cfg.chunks[c].writes|
  }

  /** No chunk is completed twice, in any run. */
  lemma {:induction false} CompletedOnce<T>(cfg: Config<T>, s: State<T>, run: seq<nat>, c: nat)
    requires Inv(cfg, s) && Schedule(cfg, run) && c < |cfg.chunks|
    ensures Completions(cfg, s, run, c) + One(s.done[c]) == One(Exec(cfg, s, run).done[c])
    decreases |run|
  {
    if run != [] {
      var w := run[0];
      StepKeeps(cfg, s, w);
      assert WorkerOk(cfg, s, w);
      StepDone(cfg, s, w, c);
      CompletedOnce(cfg, Step(cfg, s, w), run[1..], c);
    }
  }

  lemma StepDone<T>(cfg: Config<T>, s: State<T>, w: nat, c: nat)
    requires Inv(cfg, s) && w < cfg.workers && c < |cfg.chunks| && WorkerOk(cfg, s, w)
    ensures One(Step(cfg, s, w).done[c]) == One(s.done[c]) + One(Completes(s, w, c, cfg))
  {
    hide Inv;
    InSize(cfg, s);
  }

  /** In every complete run each queued chunk is processed exactly once, and every page ends up unmapped. */
  lemma CompleteRun<T>(cfg: Config<T>, s: State<T>, run: seq<nat>)
    requires Initial(cfg, s) && Schedule(cfg, run) && cfg.workers > 0
    ensures Inv(cfg, s)
    ensures (forall w :: 0 <= w < cfg.workers ==> Exec(cfg, s, run).at[w].Finished?) ==>
      && (forall c: nat :: c < |cfg.chunks| ==> Completions(cfg, s, run, c) == 1)
      && forall p: nat :: p < |cfg.maxMapSize| ==> !Exec(cfg, s, run).pages[p].mapped
  {
    hide Exec, Inv, Step, Completions;
    InitialInv(cfg, s);
    InSize(cfg, s);
    var t := Exec(cfg, s, run);
    InSize(cfg, t);
    FinishedMeansEmpty(cfg, s, run);
    if forall w :: 0 <= w < cfg.workers ==> t.at[w].Finished? {
      assert t.at[0].Finished?;
      WhenFinished(cfg, t);
      forall c: nat | c < |cfg.chunks|
        ensures Completions(cfg, s, run, c) == 1
      {
        CompletedOnce(cfg, s, run, c);
      }
    }
  }
}
