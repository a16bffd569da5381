/** What every step of the worker pool keeps, in any interleaving of workers that the use counts have room for. */
module PageSafety {
  import opened PagePool

  ghost predicate PageOk<T>(cfg: Config<T>, s: State<T>, p: nat)
    requires Sized(cfg, s) && p < |s.pages|
  {
    var page := s.pages[p];
    && page.numUsing == Users(cfg, s.at, p, |s.at|) % USE_COUNT_RANGE
    && page.total == Unreleased(cfg, s.released, p, |s.released|)
    && (page.mapped ==> page.mapSize == cfg.maxMapSize[p]) && (!page.mapped ==> page.mapSize == 0)
    && (page.lock.Held? ==>
          page.lock.owner < |s.at| && HoldsLock(s.at[page.lock.owner]) && PageOf(cfg, s.at[page.lock.owner].c) == p)
    && (page.total == 0 ==> !page.mapped)
  }

  ghost predicate WorkerOk<T>(cfg: Config<T>, s: State<T>, w: nat)
    requires Sized(cfg, s) && w < |s.at|
  {
    HasChunk(s.at[w]) ==>
      var at := s.at[w];
      var p := PageOf(cfg, at.c);
      var page := s.pages[p];
      && !s.done[at.c] && (s.released[at.c] <==> at.ToCopy?)
      && (at.ToCopy? ==> at.k <= |cfg.chunks[at.c].writes|)
      && (HoldsLock(at) ==> page.lock == Held(w))
      && (at.ToFree? || at.ToMap? ==> Users(cfg, s.at, p, |s.at|) == 1)
      && (at.ToMap? ==> !page.mapped) && (at.ToUnlock? ==> page.mapped)
      // The pointer leads into the mapping there is now.
      && (HasPointer(at) ==> page.mapped && page.maps == at.m)
  }

  /** No chunk is held twice. */
  ghost predicate Apart<T>(s: State<T>) {
    forall v, w :: 0 <= v < w < |s.at| && HasChunk(s.at[v]) && HasChunk(s.at[w]) ==> s.at[v].c != s.at[w].c
  }

  ghost predicate HeldBy<T>(s: State<T>, c: nat, w: nat) { w < |s.at| && HasChunk(s.at[w]) && s.at[w].c == c }

  /** Every chunk is waiting, or held by a worker, or done. */
  ghost predicate ChunkOk<T>(s: State<T>, c: nat)
    requires c < |s.released| == |s.done|
  {
    && (c >= s.next ==> !s.done[c] && !s.released[c])
    && (s.done[c] ==> s.released[c])
    && (c < s.next && !s.done[c] ==> exists w: nat :: HeldBy(s, c, w))
  }

  ghost predicate Inv<T>(cfg: Config<T>, s: State<T>) {
    && Sized(cfg, s) && UseCountFits(cfg)
    && (forall p: nat :: p < |s.pages| ==> PageOk(cfg, s, p))
    && (forall w: nat :: w < |s.at| ==> WorkerOk(cfg, s, w))
    && Apart(s)
    && forall c: nat :: c < |s.done| ==> ChunkOk(s, c)
  }

  /** The pages are untouched and the worker neither starts nor stops using one. */
  ghost predicate Quiet<T>(cfg: Config<T>, s: State<T>, t: State<T>, w: nat)
    requires Sized(cfg, s) && w < |s.at|
  {
    && |t.at| == |s.at| && t.at == s.at[w := t.at[w]] && t.pages == s.pages && t.released == s.released
    && !Uses(s.at[w]) && !Uses(t.at[w])
  }

  /** Moving one worker between places where it uses no page changes no count. */
  lemma QuietPages<T>(cfg: Config<T>, s: State<T>, t: State<T>, w: nat, p: nat)
    requires Sized(cfg, s) && Sized(cfg, t) && w < |s.at| && p < |s.pages| && Quiet(cfg, s, t, w) && PageOk(cfg, s, p)
    ensures PageOk(cfg, t, p) && Users(cfg, t.at, p, |t.at|) == Users(cfg, s.at, p, |s.at|)
  {
    hide Users, Unreleased;
    UsersMoved(cfg, s.at, p, |s.at|, w, t.at[w]);
  }

  lemma QuietWorkers<T>(cfg: Config<T>, s: State<T>, t: State<T>, w: nat, v: nat)
    requires Inv(cfg, s) && Sized(cfg, t) && w < |s.at| && v < |s.at| && v != w && Quiet(cfg, s, t, w) && t.done == s.done
    ensures WorkerOk(cfg, t, v)
  {
    hide Users, Unreleased;
    assert WorkerOk(cfg, s, v);
    if HasChunk(s.at[v]) {
      var p := PageOf(cfg, s.at[v].c);
      assert PageOk(cfg, s, p);
      QuietPages(cfg, s, t, w, p);
    }
  }

  /** Looking: the checks made without the lock, and the ones inside it that fail. */
  lemma LookStep<T>(cfg: Config<T>, s: State<T>, w: nat, to: Place)
    requires Inv(cfg, s) && w < |s.at| && HasChunk(s.at[w]) && HasChunk(to) && to.c == s.at[w].c
    requires !Uses(s.at[w]) && !Uses(to) && !s.at[w].ToCopy? && !to.ToCopy?
    ensures Inv(cfg, Moved(s, w, to))
  {
    hide Users, Unreleased;
    var t := Moved(s, w, to);
    assert WorkerOk(cfg, s, w);
    forall p: nat | p < |t.pages|
      ensures PageOk(cfg, t, p)
    {
      assert PageOk(cfg, s, p);
      QuietPages(cfg, s, t, w, p);
    }
    forall v: nat | v < |t.at|
      ensures WorkerOk(cfg, t, v)
    {
      if v != w { QuietWorkers(cfg, s, t, w, v); }
    }
    SameChunks(s, t, w);
  }

  /** The same chunks are held, waiting and done. */
  lemma SameChunks<T>(s: State<T>, t: State<T>, w: nat)
    requires w < |s.at| == |t.at| && t.at == s.at[w := t.at[w]] && HasChunk(s.at[w]) && HasChunk(t.at[w]) && t.at[w].c == s.at[w].c
    requires t.next == s.next && t.done == s.done && |s.released| == |t.released| == |s.done|
    requires forall c :: 0 <= c < |s.released| ==> t.released[c] == s.released[c] || (c == s.at[w].c && t.released[c])
    requires s.at[w].c < s.next
    requires Apart(s) && forall c: nat :: c < |s.done| ==> ChunkOk(s, c)
    ensures Apart(t) && forall c: nat :: c < |t.done| ==> ChunkOk(t, c)
  {
    forall c: nat | c < |t.done|
      ensures ChunkOk(t, c)
    {
      assert ChunkOk(s, c);
      if c < s.next && !s.done[c] {
        var v: nat :| HeldBy(s, c, v);
        assert HeldBy(t, c, v);
      }
    }
  }

  /** At the loop head, or at the end: no chunk is involved. */
  lemma IdleStep<T>(cfg: Config<T>, s: State<T>, w: nat, to: Place)
    requires Inv(cfg, s) && w < |s.at| && !HasChunk(s.at[w]) && !HasChunk(to)
    ensures Inv(cfg, Moved(s, w, to))
  {
    hide Users, Unreleased;
    var t := Moved(s, w, to);
    forall p: nat | p < |t.pages|
      ensures PageOk(cfg, t, p)
    {
      assert PageOk(cfg, s, p);
      QuietPages(cfg, s, t, w, p);
    }
    forall v: nat | v < |t.at|
      ensures WorkerOk(cfg, t, v)
    {
      if v != w { QuietWorkers(cfg, s, t, w, v); }
    }
    forall c: nat | c < |t.done|
      ensures ChunkOk(t, c)
    {
      assert ChunkOk(s, c);
      if c < s.next && !s.done[c] {
        var v: nat :| HeldBy(s, c, v);
        assert HeldBy(t, c, v);
      }
    }
  }

  /** Taking the chunk at the front of the queue. */
  lemma DequeueStep<T>(cfg: Config<T>, s: State<T>, w: nat)
    requires Inv(cfg, s) && w < |s.at| && !HasChunk(s.at[w]) && s.next < |cfg.chunks|
    ensures Inv(cfg, Moved(s, w, SizeCheck(s.next)).(next := s.next + 1))
  {
    hide Users, Unreleased;
    var t := Moved(s, w, SizeCheck(s.next)).(next := s.next + 1);
    forall p: nat | p < |t.pages|
      ensures PageOk(cfg, t, p)
    {
      assert PageOk(cfg, s, p);
      QuietPages(cfg, s, t, w, p);
    }
    assert ChunkOk(s, s.next);
    forall v: nat | v < |t.at|
      ensures WorkerOk(cfg, t, v)
    {
      if v != w { QuietWorkers(cfg, s, t, w, v); }
    }
    forall c: nat | c < |t.done|
      ensures ChunkOk(t, c)
    {
      assert ChunkOk(s, c);
      if c < s.next && !s.done[c] {
        var v: nat :| HeldBy(s, c, v);
        assert HeldBy(t, c, v);
      } else if c == s.next {
        assert HeldBy(t, c, w);
      }
    }
  }

  /** Copying an element: only the array and the worker's place in the chunk change. */
  lemma CopyStep<T>(cfg: Config<T>, s: State<T>, w: nat, out: seq<T>)
    requires Inv(cfg, s) && w < |s.at| && s.at[w].ToCopy? && s.at[w].k < |cfg.chunks[s.at[w].c].writes| && |out| == |s.out|
    ensures Inv(cfg, Moved(s, w, ToCopy(s.at[w].c, s.at[w].k + 1)).(out := out))
  {
    hide Users, Unreleased;
    var t := Moved(s, w, ToCopy(s.at[w].c, s.at[w].k + 1)).(out := out);
    assert WorkerOk(cfg, s, w);
    forall p: nat | p < |t.pages|
      ensures PageOk(cfg, t, p)
    {
      assert PageOk(cfg, s, p);
      QuietPages(cfg, s, t, w, p);
    }
    forall v: nat | v < |t.at|
      ensures WorkerOk(cfg, t, v)
    {
      if v != w { QuietWorkers(cfg, s, t, w, v); }
    }
    SameChunks(s, t, w);
  }

  /** The chunk is done: it is marked once, and its worker goes back for another. */
  lemma DoneStep<T>(cfg: Config<T>, s: State<T>, w: nat)
    requires Inv(cfg, s) && w < |s.at| && s.at[w].ToCopy?
    ensures Inv(cfg, Moved(s, w, AtLoop).(done := s.done[s.at[w].c := true]))
    ensures !s.done[s.at[w].c]
  {
    hide Users, Unreleased;
    var c := s.at[w].c;
    var t := Moved(s, w, AtLoop).(done := s.done[c := true]);
    assert WorkerOk(cfg, s, w);
    forall p: nat | p < |t.pages|
      ensures PageOk(cfg, t, p)
    {
      assert PageOk(cfg, s, p);
      QuietPages(cfg, s, t, w, p);
    }
    forall v: nat | v < |t.at|
      ensures WorkerOk(cfg, t, v)
    {
      if v != w {
        QuietWorkers(cfg, s, t.(done := s.done), w, v);
        assert HasChunk(s.at[v]) ==> s.at[v].c != c;
      }
    }
    forall d: nat | d < |t.done|
      ensures ChunkOk(t, d)
    {
      assert ChunkOk(s, d);
      if d < s.next && !t.done[d] {
        var v: nat :| HeldBy(s, d, v);
        assert HeldBy(t, d, v);
      }
    }
  }

  // ---- Steps that change a page ------------------------------------------------------------

  /** Worker w acts on the page p of its chunk; every other page and worker count stays. */
  ghost predicate OnPage<T>(cfg: Config<T>, s: State<T>, t: State<T>, w: nat, p: nat)
    requires Sized(cfg, s) && Sized(cfg, t)
  {
    && w < |s.at| && HasChunk(s.at[w]) && PageOf(cfg, s.at[w].c) == p
    && HasChunk(t.at[w]) && t.at[w].c == s.at[w].c
    && t.at == s.at[w := t.at[w]] && t.pages == s.pages[p := t.pages[p]] && t.next == s.next && t.done == s.done
    && (t.released == s.released || (!s.released[s.at[w].c] && t.released == s.released[s.at[w].c := true]))
  }

  lemma OtherPages<T>(cfg: Config<T>, s: State<T>, t: State<T>, w: nat, p: nat, q: nat)
    requires Sized(cfg, s) && Sized(cfg, t) && OnPage(cfg, s, t, w, p) && q < |s.pages| && q != p && PageOk(cfg, s, q)
    ensures PageOk(cfg, t, q) && Users(cfg, t.at, q, |t.at|) == Users(cfg, s.at, q, |s.at|)
  {
    hide Users, Unreleased;
    UsersMoved(cfg, s.at, q, |s.at|, w, t.at[w]);
    if t.released != s.released { UnreleasedLess(cfg, s.released, q, |s.released|, s.at[w].c); }
  }

  lemma OtherPagesWorkers<T>(cfg: Config<T>, s: State<T>, t: State<T>, w: nat, p: nat, v: nat)
    requires Inv(cfg, s) && Sized(cfg, t) && OnPage(cfg, s, t, w, p) && v < |s.at| && v != w
    requires HasChunk(s.at[v]) ==> PageOf(cfg, s.at[v].c) != p
    ensures WorkerOk(cfg, t, v)
  {
    hide Users, Unreleased;
    assert WorkerOk(cfg, s, v);
    assert HasChunk(s.at[v]) ==> s.at[v].c != s.at[w].c;
    if HasChunk(s.at[v]) {
      var q := PageOf(cfg, s.at[v].c);
      assert PageOk(cfg, s, q);
      OtherPages(cfg, s, t, w, p, q);
    }
  }

  /** To keep the invariant it is enough to look at the page and at the workers with chunks on it. */
  lemma OnPageKeeps<T>(cfg: Config<T>, s: State<T>, t: State<T>, w: nat, p: nat)
    requires Inv(cfg, s) && Sized(cfg, t) && OnPage(cfg, s, t, w, p) && PageOk(cfg, t, p) && WorkerOk(cfg, t, w)
    requires forall v: nat :: v < |t.at| && v != w && HasChunk(t.at[v]) && PageOf(cfg, t.at[v].c) == p ==> WorkerOk(cfg, t, v)
    ensures Inv(cfg, t)
  {
    hide Users, Unreleased;
    forall q: nat | q < |t.pages|
      ensures PageOk(cfg, t, q)
    {
      assert PageOk(cfg, s, q);
      if q != p { OtherPages(cfg, s, t, w, p, q); }
    }
    forall v: nat | v < |t.at|
      ensures WorkerOk(cfg, t, v)
    {
      if v != w && (HasChunk(s.at[v]) ==> PageOf(cfg, s.at[v].c) != p) { OtherPagesWorkers(cfg, s, t, w, p, v); }
    }
    assert forall c: nat :: c < |s.done| ==> ChunkOk(s, c);
    SameChunks(s, t, w);
  }

  /** A worker that has yet to use the page of its chunk leaves room: there are fewer users than workers, and fewer
      than chunks on the page. */
  lemma UsersInRange<T>(cfg: Config<T>, s: State<T>, w: nat, p: nat)
    requires Inv(cfg, s) && w < |s.at| && HasChunk(s.at[w]) && !Uses(s.at[w]) && !s.at[w].ToCopy? && p == PageOf(cfg, s.at[w].c)
    ensures Users(cfg, s.at, p, |s.at|) < USE_COUNT_RANGE && s.pages[p].numUsing == Users(cfg, s.at, p, |s.at|)
  {
    hide Users, Unreleased, ChunksOn;
    assert WorkerOk(cfg, s, w) && GoodChunk(cfg, cfg.chunks[s.at[w].c]) && PageOk(cfg, s, p);
    UsersAtLeast(cfg, s.at, p, |s.at|, w);
    var released := s.released[s.at[w].c := true];
    forall v | 0 <= v < |s.at| && UsesPage(cfg, s.at[v], p)
      ensures !released[s.at[v].c]
    {
      assert WorkerOk(cfg, s, v);
    }
    UsersUnreleased(cfg, s.at, released, p, |s.at|);
    UnreleasedLess(cfg, s.released, p, |s.released|, s.at[w].c);
    UnreleasedOn(cfg, s.released, p, |s.released|);
  }

  /** A worker counted among the users is at least one, and two are two. */
  lemma OnlyUser<T>(cfg: Config<T>, s: State<T>, w: nat, v: nat, p: nat)
    requires Inv(cfg, s) && w < |s.at| && v < |s.at| && v != w && UsesPage(cfg, s.at[w], p) && Users(cfg, s.at, p, |s.at|) == 1
    ensures !UsesPage(cfg, s.at[v], p)
  {
    hide Users, Unreleased;
    if UsesPage(cfg, s.at[v], p) {
      if v < w { UsersTwo(cfg, s.at, p, |s.at|, v, w); } else { UsersTwo(cfg, s.at, p, |s.at|, w, v); }
    }
  }

  /** Confirmed inside the lock: the mapping is there and the worker starts to use it. */
  lemma EnterStep<T>(cfg: Config<T>, s: State<T>, w: nat, p: nat)
    requires Inv(cfg, s) && w < |s.at| && s.at[w].Confirm? && p == PageOf(cfg, s.at[w].c)
    requires s.pages[p].lock.Free? && cfg.maxMapSize[p] <= s.pages[p].mapSize
    ensures var page := s.pages[p];
      Inv(cfg, WithPage(Moved(s, w, Inside(s.at[w].c, page.maps)), p, page.(numUsing := (page.numUsing + 1) % USE_COUNT_RANGE)))
  {
    hide Users, Unreleased;
    var page := s.pages[p];
    var to := Inside(s.at[w].c, page.maps);
    var t := WithPage(Moved(s, w, to), p, page.(numUsing := (page.numUsing + 1) % USE_COUNT_RANGE));
    assert WorkerOk(cfg, s, w) && PageOk(cfg, s, p);
    assert GoodChunk(cfg, cfg.chunks[s.at[w].c]);
    UsersMoved(cfg, s.at, p, |s.at|, w, to);
    UsersInRange(cfg, s, w, p);
    forall v: nat | v < |t.at| && v != w && HasChunk(t.at[v]) && PageOf(cfg, t.at[v].c) == p
      ensures WorkerOk(cfg, t, v)
    {
      assert WorkerOk(cfg, s, v);
    }
    OnPageKeeps(cfg, s, t, w, p);
  }

  /** No worker uses the page: this one takes the lock and keeps it to map the page. */
  lemma LockStep<T>(cfg: Config<T>, s: State<T>, w: nat, p: nat)
    requires Inv(cfg, s) && w < |s.at| && s.at[w].ToLock? && p == PageOf(cfg, s.at[w].c)
    requires s.pages[p].lock.Free? && s.pages[p].numUsing == 0
    ensures Inv(cfg, WithPage(Moved(s, w, ToFree(s.at[w].c)), p, s.pages[p].(numUsing := 1, lock := Held(w))))
  {
    hide Users, Unreleased;
    var page := s.pages[p];
    var to := ToFree(s.at[w].c);
    var t := WithPage(Moved(s, w, to), p, page.(numUsing := 1, lock := Held(w)));
    assert WorkerOk(cfg, s, w) && PageOk(cfg, s, p);
    UsersMoved(cfg, s.at, p, |s.at|, w, to);
    UsersInRange(cfg, s, w, p);
    forall v: nat | v < |t.at| && v != w && HasChunk(t.at[v]) && PageOf(cfg, t.at[v].c) == p
      ensures WorkerOk(cfg, t, v)
    {
      assert WorkerOk(cfg, s, v);
    }
    OnPageKeeps(cfg, s, t, w, p);
  }

  /** An old mapping is dropped: nobody has a pointer into it. */
  lemma FreeStep<T>(cfg: Config<T>, s: State<T>, w: nat, p: nat)
    requires Inv(cfg, s) && w < |s.at| && s.at[w].ToFree? && p == PageOf(cfg, s.at[w].c)
    ensures Inv(cfg, WithPage(Moved(s, w, ToMap(s.at[w].c)), p, Freed(s.pages[p])))
  {
    hide Users, Unreleased;
    var to := ToMap(s.at[w].c);
    var t := WithPage(Moved(s, w, to), p, Freed(s.pages[p]));
    assert WorkerOk(cfg, s, w) && PageOk(cfg, s, p);
    UsersMoved(cfg, s.at, p, |s.at|, w, to);
    forall v: nat | v < |t.at| && v != w && HasChunk(t.at[v]) && PageOf(cfg, t.at[v].c) == p
      ensures WorkerOk(cfg, t, v)
    {
      assert WorkerOk(cfg, s, v);
      OnlyUser(cfg, s, w, v, p);
    }
    OnPageKeeps(cfg, s, t, w, p);
  }

  lemma MapStep<T>(cfg: Config<T>, s: State<T>, w: nat, p: nat)
    requires Inv(cfg, s) && w < |s.at| && s.at[w].ToMap? && p == PageOf(cfg, s.at[w].c)
    ensures var page := s.pages[p];
      Inv(cfg, WithPage(Moved(s, w, ToUnlock(s.at[w].c)), p, page.(mapped := true, mapSize := cfg.maxMapSize[p], maps := page.maps + 1)))
  {
    hide Users, Unreleased;
    var page, to := s.pages[p], ToUnlock(s.at[w].c);
    var t := WithPage(Moved(s, w, to), p, page.(mapped := true, mapSize := cfg.maxMapSize[p], maps := page.maps + 1));
    assert WorkerOk(cfg, s, w) && PageOk(cfg, s, p);
    UsersMoved(cfg, s.at, p, |s.at|, w, to);
    SomeUnreleased(cfg, s.released, p, |s.released|, s.at[w].c);
    forall v: nat | v < |t.at| && v != w && HasChunk(t.at[v]) && PageOf(cfg, t.at[v].c) == p
      ensures WorkerOk(cfg, t, v)
    {
      assert WorkerOk(cfg, s, v);
      OnlyUser(cfg, s, w, v, p);
    }
    OnPageKeeps(cfg, s, t, w, p);
  }

  lemma UnlockStep<T>(cfg: Config<T>, s: State<T>, w: nat, p: nat)
    requires Inv(cfg, s) && w < |s.at| && s.at[w].ToUnlock? && p == PageOf(cfg, s.at[w].c)
    ensures Inv(cfg, WithPage(Moved(s, w, Inside(s.at[w].c, s.pages[p].maps)), p, s.pages[p].(lock := Free)))
  {
    hide Users, Unreleased;
    var to := Inside(s.at[w].c, s.pages[p].maps);
    var t := WithPage(Moved(s, w, to), p, s.pages[p].(lock := Free));
    assert WorkerOk(cfg, s, w) && PageOk(cfg, s, p);
    UsersMoved(cfg, s.at, p, |s.at|, w, to);
    forall v: nat | v < |t.at| && v != w && HasChunk(t.at[v]) && PageOf(cfg, t.at[v].c) == p
      ensures WorkerOk(cfg, t, v)
    {
      assert WorkerOk(cfg, s, v);
    }
    OnPageKeeps(cfg, s, t, w, p);
  }

  /** Decompressing with the pointer. */
  lemma UseStep<T>(cfg: Config<T>, s: State<T>, w: nat)
    requires Inv(cfg, s) && w < |s.at| && s.at[w].Inside?
    ensures Inv(cfg, Moved(s, w, ToRelease(s.at[w].c, s.at[w].m)))
  {
    hide Users, Unreleased;
    var to, p := ToRelease(s.at[w].c, s.at[w].m), PageOf(cfg, s.at[w].c);
    var t := Moved(s, w, to);
    assert WorkerOk(cfg, s, w) && PageOk(cfg, s, p);
    UsersMoved(cfg, s.at, p, |s.at|, w, to);
    forall v: nat | v < |t.at| && v != w && HasChunk(t.at[v]) && PageOf(cfg, t.at[v].c) == p
      ensures WorkerOk(cfg, t, v)
    {
      assert WorkerOk(cfg, s, v);
    }
    assert t.pages == s.pages[p := t.pages[p]];
    OnPageKeeps(cfg, s, t, w, p);
  }

  /** Releasing: the page is unmapped with its last chunk only, when nobody else can have a pointer into it. */
  lemma ReleaseStep<T>(cfg: Config<T>, s: State<T>, w: nat, p: nat)
    requires Inv(cfg, s) && w < |s.at| && s.at[w].ToRelease? && p == PageOf(cfg, s.at[w].c) && s.pages[p].lock.Free?
    ensures Inv(cfg, WithPage(Moved(s, w, ToCopy(s.at[w].c, 0)), p, ReleasedPage(s.pages[p])).(released := s.released[s.at[w].c := true]))
  {
    hide Users, Unreleased;
    var c := s.at[w].c;
    var to := ToCopy(c, 0);
    var t := WithPage(Moved(s, w, to), p, ReleasedPage(s.pages[p])).(released := s.released[c := true]);
    assert WorkerOk(cfg, s, w) && PageOk(cfg, s, p);
    UsersMoved(cfg, s.at, p, |s.at|, w, to);
    UsersAtLeast(cfg, s.at, p, |s.at|, w);
    UnreleasedLess(cfg, s.released, p, |s.released|, c);
    ModularLess(Users(cfg, s.at, p, |s.at|));
    forall v: nat | v < |t.at| && v != w && HasChunk(t.at[v]) && PageOf(cfg, t.at[v].c) == p
      ensures WorkerOk(cfg, t, v)
    {
      assert WorkerOk(cfg, s, v) && s.at[v].c != c;
      if HasPointer(s.at[v]) { SomeUnreleased(cfg, t.released, p, |t.released|, s.at[v].c); }
    }
    OnPageKeeps(cfg, s, t, w, p);
  }

  lemma ModularLess(n: nat)
    requires n >= 1
    ensures (n % USE_COUNT_RANGE + USE_COUNT_RANGE - 1) % USE_COUNT_RANGE == (n - 1) % USE_COUNT_RANGE
  {
  }
}
