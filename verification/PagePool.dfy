/** Workers that take chunks from a shared queue, share mappings of file pages, and fill one array: a state machine
    whose steps are the accesses to shared memory and the critical sections. */
module PagePool {

  /** A chunk lies on one page and needs the page mapped up to some size; its elements have their places. */
  datatype Chunk<T> = Chunk(page: nat, need: nat, writes: seq<Write<T>>)
  datatype Write<T> = Write(pos: nat, value: T)

  /** The chunks in queue order, and for each page the size to map and the number of chunks on it. */
  datatype Config<T> = Config(chunks: seq<Chunk<T>>, maxMapSize: seq<nat>, workers: nat, size: nat)

  datatype Lock = Free | Held(owner: nat)

  /** maps counts the mappings made of the page; the use count has eight bits. */
  datatype Page = Page(lock: Lock, mapped: bool, mapSize: nat, numUsing: nat, total: nat, maps: nat)

  /** Where a worker is. Between Inside and ToRelease it uses the pointer into mapping number m. */
  datatype Place =
    | AtLoop | ToDequeue
    | SizeCheck(c: nat) | Confirm(c: nat) | UseCheck(c: nat) | ToLock(c: nat)
    | ToFree(c: nat) | ToMap(c: nat) | ToUnlock(c: nat)
    | Inside(c: nat, m: nat) | ToRelease(c: nat, m: nat)
    | ToCopy(c: nat, k: nat)
    | Finished

  datatype State<T> = State(next: nat, pages: seq<Page>, at: seq<Place>, out: seq<T>, released: seq<bool>, done: seq<bool>)

  const USE_COUNT_RANGE: nat := 256

  predicate HasChunk(p: Place) { !p.AtLoop? && !p.ToDequeue? && !p.Finished? }

  /** Past taking part in the use count and not yet released. */
  predicate Uses(p: Place) { p.ToFree? || p.ToMap? || p.ToUnlock? || p.Inside? || p.ToRelease? }

  predicate HoldsLock(p: Place) { p.ToFree? || p.ToMap? || p.ToUnlock? }

  predicate HasPointer(p: Place) { p.Inside? || p.ToRelease? }

  /** Everything in range. */
  predicate Sized<T>(cfg: Config<T>, s: State<T>) {
    && |s.pages| == |cfg.maxMapSize| && |s.at| == cfg.workers && |s.out| == cfg.size
    && |s.released| == |s.done| == |cfg.chunks| && s.next <= |cfg.chunks|
    && (forall c :: 0 <= c < |cfg.chunks| ==> GoodChunk(cfg, cfg.chunks[c]))
    && forall w :: 0 <= w < |s.at| && HasChunk(s.at[w]) ==> s.at[w].c < s.next
  }

  predicate GoodChunk<T>(cfg: Config<T>, chunk: Chunk<T>) {
    && chunk.page < |cfg.maxMapSize| && 0 < chunk.need <= cfg.maxMapSize[chunk.page]
    && forall k :: 0 <= k < |chunk.writes| ==> chunk.writes[k].pos < cfg.size
  }

  function PageOf<T>(cfg: Config<T>, c: nat): (p: nat)
    requires c < |cfg.chunks|
  {
    cfg.chunks[c].page
  }

  /** freePageObject */
  function Freed(p: Page): Page {
    if p.mapped then p.(mapped := false, mapSize := 0) else p
  }

  function Moved<T>(s: State<T>, w: nat, to: Place): State<T>
    requires w < |s.at|
  {
    s.(at := s.at[w := to])
  }

  function WithPage<T>(s: State<T>, p: nat, page: Page): State<T>
    requires p < |s.pages|
  {
    s.(pages := s.pages[p := page])
  }

  /** mt_releasePages, inside the lock: the last chunk of the page unmaps it. */
  function ReleasedPage(p: Page): Page {
    var q := p.(numUsing := (p.numUsing + USE_COUNT_RANGE - 1) % USE_COUNT_RANGE, total := if p.total > 0 then p.total - 1 else 0);
    if q.total == 0 then Freed(q) else q
  }

  /** One step of worker w; a worker that waits for a lock stays where it is. */
  function Step<T>(cfg: Config<T>, s: State<T>, w: nat): State<T>
    requires Sized(cfg, s) && w < cfg.workers
  {
    var at := s.at[w];
    if !HasChunk(at) then
      (match at
       case AtLoop => Moved(s, w, if s.next < |cfg.chunks| then ToDequeue else Finished)
       case ToDequeue => if s.next < |cfg.chunks| then Moved(s, w, SizeCheck(s.next)).(next := s.next + 1) else Moved(s, w, Finished)
       case _ => s)
    else
      var c := at.c;
      var p := PageOf(cfg, c);
      var page, max := s.pages[p], cfg.maxMapSize[p];
      match at
      case SizeCheck(_) => Moved(s, w, if max <= page.mapSize then Confirm(c) else UseCheck(c))
      case Confirm(_) =>
        if page.lock.Held? then s
        else if max <= page.mapSize then
          WithPage(Moved(s, w, Inside(c, page.maps)), p, page.(numUsing := (page.numUsing + 1) % USE_COUNT_RANGE))
        else Moved(s, w, SizeCheck(c))
      case UseCheck(_) => Moved(s, w, if page.numUsing == 0 then ToLock(c) else SizeCheck(c))
      case ToLock(_) =>
        if page.lock.Held? then s
        else if page.numUsing == 0 then WithPage(Moved(s, w, ToFree(c)), p, page.(numUsing := 1, lock := Held(w)))
        else Moved(s, w, SizeCheck(c))
      case ToFree(_) => WithPage(Moved(s, w, ToMap(c)), p, Freed(page))
      case ToMap(_) => WithPage(Moved(s, w, ToUnlock(c)), p, page.(mapped := true, mapSize := max, maps := page.maps + 1))
      case ToUnlock(_) => WithPage(Moved(s, w, Inside(c, page.maps)), p, page.(lock := Free))
      case Inside(_, m) => Moved(s, w, ToRelease(c, m))
      case ToRelease(_, _) =>
        if page.lock.Held? then s
        else WithPage(Moved(s, w, ToCopy(c, 0)), p, ReleasedPage(page)).(released := s.released[c := true])
      case ToCopy(_, k) =>
        if k < |cfg.chunks[c].writes| then
          Moved(s, w, ToCopy(c, k + 1)).(out := s.out[cfg.chunks[c].writes[k].pos := cfg.chunks[c].writes[k].value])
        else Moved(s, w, AtLoop).(done := s.done[c := true])
  }

  // ---- Counts ------------------------------------------------------------------------------

  /** Workers among the first n that use page p. */
  function Users<T>(cfg: Config<T>, at: seq<Place>, p: nat, n: nat): (r: nat)
    requires n <= |at|
    ensures r <= n
  {
    if n == 0 then 0 else Users(cfg, at, p, n - 1) + (if UsesPage(cfg, at[n - 1], p) then 1 else 0)
  }

  predicate UsesPage<T>(cfg: Config<T>, at: Place, p: nat) {
    Uses(at) && at.c < |cfg.chunks| && PageOf(cfg, at.c) == p
  }

  /** Chunks among the first n on page p that have not been released. */
  function Unreleased<T>(cfg: Config<T>, released: seq<bool>, p: nat, n: nat): nat
    requires n <= |released| == |cfg.chunks|
  {
    if n == 0 then 0 else Unreleased(cfg, released, p, n - 1) + (if !released[n - 1] && PageOf(cfg, n - 1) == p then 1 else 0)
  }

  /** Chunks among the first n on page p. */
  function ChunksOn<T>(cfg: Config<T>, p: nat, n: nat): nat
    requires n <= |cfg.chunks|
  {
    if n == 0 then 0 else ChunksOn(cfg, p, n - 1) + (if PageOf(cfg, n - 1) == p then 1 else 0)
  }

  /** No page can have more users at a time than its use count can tell from none. */
  ghost predicate UseCountFits<T>(cfg: Config<T>) {
    cfg.workers <= USE_COUNT_RANGE || forall p: nat :: ChunksOn(cfg, p, |cfg.chunks|) <= USE_COUNT_RANGE
  }

  function One(b: bool): nat { if b then 1 else 0 }

  lemma {:induction false} UsersMoved<T>(cfg: Config<T>, at: seq<Place>, p: nat, n: nat, w: nat, to: Place)
    requires n <= |at| && w < |at|
    ensures Users(cfg, at[w := to], p, n) + One(w < n && UsesPage(cfg, at[w], p)) == Users(cfg, at, p, n) + One(w < n && UsesPage(cfg, to, p))
  {
    if n > 0 { UsersMoved(cfg, at, p, n - 1, w, to); }
  }

  lemma {:induction false} UnreleasedLess<T>(cfg: Config<T>, released: seq<bool>, p: nat, n: nat, c: nat)
    requires n <= |released| == |cfg.chunks| && c < |released| && !released[c]
    ensures Unreleased(cfg, released[c := true], p, n) + One(c < n && PageOf(cfg, c) == p) == Unreleased(cfg, released, p, n)
  {
    if n > 0 { UnreleasedLess(cfg, released, p, n - 1, c); }
  }

  lemma {:induction false} SomeUnreleased<T>(cfg: Config<T>, released: seq<bool>, p: nat, n: nat, c: nat)
    requires n <= |released| == |cfg.chunks| && c < n && !released[c] && PageOf(cfg, c) == p
    ensures Unreleased(cfg, released, p, n) > 0
  {
    if c < n - 1 { SomeUnreleased(cfg, released, p, n - 1, c); }
  }

  lemma {:induction false} UnreleasedOn<T>(cfg: Config<T>, released: seq<bool>, p: nat, n: nat)
    requires n <= |released| == |cfg.chunks|
    ensures Unreleased(cfg, released, p, n) <= ChunksOn(cfg, p, n)
  {
    if n > 0 { UnreleasedOn(cfg, released, p, n - 1); }
  }

  /** Each user of a page has a chunk of its own there that has not been released. */
  lemma {:induction false} UsersUnreleased<T>(cfg: Config<T>, at: seq<Place>, released: seq<bool>, p: nat, n: nat)
    requires n <= |at| && |released| == |cfg.chunks|
    requires forall v :: 0 <= v < n && UsesPage(cfg, at[v], p) ==> !released[at[v].c]
    requires forall u, v :: 0 <= u < v < n && UsesPage(cfg, at[u], p) && UsesPage(cfg, at[v], p) ==> at[u].c != at[v].c
    ensures Users(cfg, at, p, n) <= Unreleased(cfg, released, p, |released|)
    decreases n
  {
    hide Unreleased;
    if n > 0 {
      if UsesPage(cfg, at[n - 1], p) {
        UnreleasedLess(cfg, released, p, |released|, at[n - 1].c);
        UsersUnreleased(cfg, at, released[at[n - 1].c := true], p, n - 1);
      } else {
        UsersUnreleased(cfg, at, released, p, n - 1);
      }
    }
  }

  /** A user of the page is counted; two are counted twice; a worker that is no user leaves room. */
  lemma {:induction false} UsersAtLeast<T>(cfg: Config<T>, at: seq<Place>, p: nat, n: nat, w: nat)
    requires n <= |at| && w < n
    ensures UsesPage(cfg, at[w], p) ==> Users(cfg, at, p, n) >= 1
    ensures !UsesPage(cfg, at[w], p) ==> Users(cfg, at, p, n) <= n - 1
  {
    if w < n - 1 { UsersAtLeast(cfg, at, p, n - 1, w); }
  }

  lemma {:induction false} UsersTwo<T>(cfg: Config<T>, at: seq<Place>, p: nat, n: nat, v: nat, w: nat)
    requires n <= |at| && v < w < n && UsesPage(cfg, at[v], p) && UsesPage(cfg, at[w], p)
    ensures Users(cfg, at, p, n) >= 2
  {
    if w < n - 1 {
      UsersTwo(cfg, at, p, n - 1, v, w);
    } else {
      UsersAtLeast(cfg, at, p, n - 1, v);
    }
  }
}
