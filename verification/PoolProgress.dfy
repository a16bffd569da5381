/** Every fair schedule of the workers finishes: looking again and again at a page in use does not go on for ever. */
module PoolProgress {
  import opened PagePool
  import opened PageSafety
  import opened PoolRuns

  // ---- Work left -----------------------------------------------------------------------------

  /** Looking at the page, and going back to look again. */
  predicate Looking(p: Place) { p.SizeCheck? || p.Confirm? || p.UseCheck? || p.ToLock? }

  function Elements<T>(cfg: Config<T>, c: nat): nat { if c < |cfg.chunks| then |cfg.chunks[c].writes| else 0 }

  /** Steps a worker has before it, looking aside. */
  function Left<T>(cfg: Config<T>, p: Place): nat {
    match p
    case Finished => 0
    case ToDequeue => 1
    case AtLoop => 2
    case ToCopy(c, k) => if k < Elements(cfg, c) then Elements(cfg, c) - k + 3 else 3
    case ToRelease(c, _) => Elements(cfg, c) + 4
    case Inside(c, _) => Elements(cfg, c) + 5
    case ToUnlock(c) => Elements(cfg, c) + 6
    case ToMap(c) => Elements(cfg, c) + 7
    case ToFree(c) => Elements(cfg, c) + 8
    case _ => Elements(cfg, p.c) + 9
  }

  /** Steps that the chunks not yet taken will need. */
  function Waiting<T>(cfg: Config<T>, next: nat): nat
    decreases |cfg.chunks| - next
  {
    if next >= |cfg.chunks| then 0 else Elements(cfg, next) + 9 + Waiting(cfg, next + 1)
  }

  function LeftOf<T>(cfg: Config<T>, at: seq<Place>, n: nat): nat
    requires n <= |at|
  {
    if n == 0 then 0 else LeftOf(cfg, at, n - 1) + Left(cfg, at[n - 1])
  }

  function Work<T>(cfg: Config<T>, s: State<T>): nat { Waiting(cfg, s.next) + LeftOf(cfg, s.at, |s.at|) }

  lemma {:induction false} LeftMoved<T>(cfg: Config<T>, at: seq<Place>, n: nat, w: nat, to: Place)
    requires n <= |at| && w < |at|
    ensures LeftOf(cfg, at[w := to], n) + (if w < n then Left(cfg, at[w]) else 0) == LeftOf(cfg, at, n) + if w < n then Left(cfg, to) else 0
  {
    if n > 0 { LeftMoved(cfg, at, n - 1, w, to); }
  }

  /** The step leaves everything as it was, but for the place of a worker that goes on looking. */
  ghost predicate Idle<T>(s: State<T>, t: State<T>, w: nat)
    requires w < |s.at|
  {
    t == s || (|t.at| == |s.at| && Looking(s.at[w]) && Looking(t.at[w]) && t.at[w].c == s.at[w].c && t == Moved(s, w, t.at[w]))
  }

  /** Every step takes from the work left, or is idle. */
  lemma StepWork<T>(cfg: Config<T>, s: State<T>, w: nat)
    requires Inv(cfg, s) && w < cfg.workers
    ensures Sized(cfg, s) && var t := Step(cfg, s, w); Work(cfg, t) < Work(cfg, s) || (Idle(s, t, w) && Work(cfg, t) == Work(cfg, s))
  {
    hide Inv, LeftOf;
    InSize(cfg, s);
    var t := Step(cfg, s, w);
    assert |t.at| == |s.at| && t.at == s.at[w := t.at[w]];
    LeftMoved(cfg, s.at, |s.at|, w, t.at[w]);
  }

  // ---- Who can go on -------------------------------------------------------------------------

  ghost predicate AllFinished<T>(s: State<T>) { forall w: nat :: w < |s.at| ==> s.at[w].Finished? }

  predicate Unlocked<T>(s: State<T>) { forall p: nat :: p < |s.pages| ==> s.pages[p].lock.Free? }

  /** The worker holds a lock, or no lock is held and it waits for nobody. */
  ghost predicate CanGo<T>(cfg: Config<T>, s: State<T>, v: nat) {
    && Sized(cfg, s) && v < |s.at| && !s.at[v].Finished?
    && (HoldsLock(s.at[v]) || (Unlocked(s) && (Looking(s.at[v]) ==> s.pages[PageOf(cfg, s.at[v].c)].numUsing == 0)))
  }

  /** How many looks it still takes. */
  ghost function Looks<T>(cfg: Config<T>, s: State<T>, v: nat): nat
    requires CanGo(cfg, s, v)
  {
    if !Looking(s.at[v]) then 0
    else
      var p := PageOf(cfg, s.at[v].c);
      var mapped := cfg.maxMapSize[p] <= s.pages[p].mapSize;
      match s.at[v]
      case Confirm(_) => if mapped then 0 else 3
      case SizeCheck(_) => if mapped then 1 else 2
      case UseCheck(_) => 1
      case _ => 0
  }

  /** A step of that worker takes from the work or from its looks; an idle step of another changes neither. */
  lemma GoesOn<T>(cfg: Config<T>, s: State<T>, v: nat, w: nat)
    requires Inv(cfg, s) && CanGo(cfg, s, v) && w < cfg.workers
    ensures var t := Step(cfg, s, w);
      Work(cfg, t) < Work(cfg, s)
      || (Work(cfg, t) == Work(cfg, s) && CanGo(cfg, t, v) && (if w == v then Looks(cfg, t, v) < Looks(cfg, s, v) else Looks(cfg, t, v) == Looks(cfg, s, v)))
  {
    hide Inv, Work;
    StepWork(cfg, s, w);
    StepKeeps(cfg, s, w);
    InSize(cfg, Step(cfg, s, w));
  }

  lemma PageLock<T>(cfg: Config<T>, s: State<T>, p: nat)
    requires Inv(cfg, s) && p < |s.pages|
    ensures Sized(cfg, s) && (s.pages[p].lock.Held? ==> s.pages[p].lock.owner < |s.at| && HoldsLock(s.at[s.pages[p].lock.owner]))
    ensures s.pages[p].numUsing == Users(cfg, s.at, p, |s.at|) % USE_COUNT_RANGE
  {
    assert PageOk(cfg, s, p);
  }

  lemma {:induction false} NobodyUses<T>(cfg: Config<T>, at: seq<Place>, p: nat, n: nat)
    requires n <= |at| && forall w :: 0 <= w < n ==> !Uses(at[w])
    ensures Users(cfg, at, p, n) == 0
  {
    if n > 0 { NobodyUses(cfg, at, p, n - 1); }
  }

  /** As long as some worker is not finished, some worker can go on. */
  lemma SomebodyCan<T>(cfg: Config<T>, s: State<T>) returns (v: nat)
    requires Inv(cfg, s) && !AllFinished(s)
    ensures CanGo(cfg, s, v)
  {
    hide Inv, Users;
    InSize(cfg, s);
    if p: nat :| p < |s.pages| && s.pages[p].lock.Held? {
      PageLock(cfg, s, p);
      v := s.pages[p].lock.owner;
    } else if u: nat :| u < |s.at| && !s.at[u].Finished? && !Looking(s.at[u]) {
      v := u;
    } else {
      v :| v < |s.at| && !s.at[v].Finished?;
      assert Looking(s.at[v]);
      var p := PageOf(cfg, s.at[v].c);
      PageLock(cfg, s, p);
      NobodyUses(cfg, s.at, p, |s.at|);
    }
  }

  // ---- Fair schedules ------------------------------------------------------------------------

  ghost predicate Again(f: nat -> nat, w: nat, n: nat) { exists m: nat :: m >= n && f(m) == w }

  /** A schedule without end in which every worker gets a turn again and again. */
  ghost predicate Fair(f: nat -> nat, workers: nat) {
    && (forall i: nat :: f(i) < workers)
    && forall w: nat, n: nat :: w < workers ==> Again(f, w, n)
  }

  /** The first n turns. */
  function Turns(f: nat -> nat, n: nat): (r: seq<nat>)
    ensures |r| == n && forall i: nat :: i < n ==> r[i] == f(i)
  {
    if n == 0 then [] else Turns(f, n - 1) + [f(n - 1)]
  }

  ghost function After<T>(cfg: Config<T>, s: State<T>, f: nat -> nat, n: nat): (t: State<T>)
    requires Inv(cfg, s) && forall i: nat :: f(i) < cfg.workers
    ensures Inv(cfg, t) && t == Exec(cfg, s, Turns(f, n))
  {
    assert Schedule(cfg, Turns(f, n));
    Exec(cfg, s, Turns(f, n))
  }

  lemma OneMoreTurn<T>(cfg: Config<T>, s: State<T>, f: nat -> nat, n: nat)
    requires Inv(cfg, s) && forall i: nat :: f(i) < cfg.workers
    ensures Sized(cfg, After(cfg, s, f, n)) && After(cfg, s, f, n + 1) == Step(cfg, After(cfg, s, f, n), f(n))
  {
    hide Inv, Step;
    var t := After(cfg, s, f, n);
    InSize(cfg, s);
    InSize(cfg, t);
    ExecAppend(cfg, s, Turns(f, n), [f(n)]);
    StepKeeps(cfg, t, f(n));
    var u := Step(cfg, t, f(n));
    assert [f(n)][1..] == [];
    assert Exec(cfg, u, []) == u;
  }

  /** A worker that can go on does so when its turn has come often enough. */
  lemma {:induction false} WorkGetsDone<T>(cfg: Config<T>, s: State<T>, f: nat -> nat, n: nat, v: nat, turn: nat) returns (m: nat)
    requires Inv(cfg, s) && Fair(f, cfg.workers) && CanGo(cfg, After(cfg, s, f, n), v) && v < cfg.workers && turn >= n && f(turn) == v
    ensures m > n && Work(cfg, After(cfg, s, f, m)) < Work(cfg, After(cfg, s, f, n))
    decreases Looks(cfg, After(cfg, s, f, n), v), turn - n
  {
    hide Inv, Step, CanGo, Work, Looks, After;
    OneMoreTurn(cfg, s, f, n);
    GoesOn(cfg, After(cfg, s, f, n), v, f(n));
    m := n + 1;
    if Work(cfg, After(cfg, s, f, m)) >= Work(cfg, After(cfg, s, f, n)) {
      var next := turn;
      if f(n) == v {
        assert Again(f, v, n + 1);
        next :| next >= n + 1 && f(next) == v;
      }
      m := WorkGetsDone(cfg, s, f, n + 1, v, next);
    }
  }

  /** From any point on all workers finish. */
  lemma {:induction false} AllFinish<T>(cfg: Config<T>, s: State<T>, f: nat -> nat, n: nat) returns (m: nat)
    requires Inv(cfg, s) && Fair(f, cfg.workers)
    ensures AllFinished(After(cfg, s, f, m))
    decreases Work(cfg, After(cfg, s, f, n))
  {
    hide Inv, Work, After, AllFinished;
    var t := After(cfg, s, f, n);
    if AllFinished(t) {
      m := n;
    } else {
      var v := SomebodyCan(cfg, t);
      WorkersOnly(cfg, t, v);
      assert Again(f, v, n);
      var turn :| turn >= n && f(turn) == v;
      var k := WorkGetsDone(cfg, s, f, n, v, turn);
      m := AllFinish(cfg, s, f, k);
    }
  }

  lemma WorkersOnly<T>(cfg: Config<T>, s: State<T>, v: nat)
    requires CanGo(cfg, s, v)
    ensures v < cfg.workers
  {
  }

  /** In every fair schedule, after finitely many turns all workers have finished, every chunk has been processed exactly
      once and no page is mapped. */
  lemma FairRunCompletes<T>(cfg: Config<T>, s: State<T>, f: nat -> nat) returns (n: nat)
    requires Initial(cfg, s) && cfg.workers > 0 && Fair(f, cfg.workers)
    ensures Inv(cfg, s) && Schedule(cfg, Turns(f, n)) && AllFinished(Exec(cfg, s, Turns(f, n)))
    ensures forall c: nat :: c < |cfg.chunks| ==> Completions(cfg, s, Turns(f, n), c) == 1
    ensures |Exec(cfg, s, Turns(f, n)).pages| == |cfg.maxMapSize|
    ensures forall p: nat :: p < |cfg.maxMapSize| ==> !Exec(cfg, s, Turns(f, n)).pages[p].mapped
  {
    hide Inv, Exec, Completions, Initial;
    InitialInv(cfg, s);
    InSize(cfg, s);
    n := AllFinish(cfg, s, f, 0);
    var run := Turns(f, n);
    InSize(cfg, Exec(cfg, s, run));
    assert After(cfg, s, f, n) == Exec(cfg, s, run);
    CompleteRun(cfg, s, run);
  }
}
