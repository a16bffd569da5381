/** Symbols in order of codeword length, then of symbol: the order of canonical codewords. */
module LengthOrder {
  import opened Shifts
  import opened WeightedSums
  import opened CanonicalCode

  /** Number of symbols with a shorter length, unused symbols included. */
  ghost function Offset(lens: seq<nat>, len: nat): nat {
    if len == 0 then 0 else Offset(lens, len - 1) + Count(lens, len - 1)
  }

  /** Where symbol s comes in the order. */
  ghost function Place(lens: seq<nat>, s: nat): nat
    requires s < |lens|
  {
    Offset(lens, lens[s]) + Count(lens[..s], lens[s])
  }

  lemma {:induction false} OffsetMonotone(lens: seq<nat>, a: nat, b: nat)
    requires a <= b
    ensures Offset(lens, a) <= Offset(lens, b)
    decreases b
  {
    if a < b { OffsetMonotone(lens, a, b - 1); }
  }

  lemma {:induction false} OffsetAppend(a: seq<nat>, b: seq<nat>, len: nat)
    ensures Offset(a + b, len) == Offset(a, len) + Offset(b, len)
  {
    if len > 0 {
      OffsetAppend(a, b, len - 1);
      CountAppend(a, b, len - 1);
    }
  }

  lemma {:induction false} OffsetOne(x: nat, len: nat)
    ensures Offset([x], len) == if x < len then 1 else 0
  {
    if len > 0 {
      OffsetOne(x, len - 1);
      CountOne(x, len - 1);
    }
  }

  lemma CountOne(x: nat, y: nat)
    ensures Count([x], y) == if x == y then 1 else 0
  {
    var s := [x];
    assert s[1..] == [] && s[0] == x;
  }

  /** Every symbol has some length. */
  lemma {:induction false} OffsetAll(lens: seq<nat>, len: nat)
    requires forall s :: 0 <= s < |lens| ==> lens[s] < len
    ensures Offset(lens, len) == |lens|
  {
    if lens == [] {
      OffsetNone(len);
    } else {
      OffsetAll(lens[1..], len);
      assert lens == [lens[0]] + lens[1..];
      OffsetAppend([lens[0]], lens[1..], len);
      OffsetOne(lens[0], len);
    }
  }

  lemma {:induction false} OffsetNone(len: nat)
    ensures Offset([], len) == 0
  {
    if len > 0 { OffsetNone(len - 1); }
  }

  lemma PlaceInRange(lens: seq<nat>, s: nat)
    requires s < |lens|
    ensures Offset(lens, lens[s]) <= Place(lens, s) < Offset(lens, lens[s] + 1)
  {
    CountPrefix(lens, s, lens[s]);
  }

  lemma PlaceOrdered(lens: seq<nat>, s: nat, t: nat)
    requires s < |lens| && t < |lens|
    requires lens[s] < lens[t] || (lens[s] == lens[t] && s < t)
    ensures Place(lens, s) < Place(lens, t)
  {
    if lens[s] < lens[t] {
      PlaceInRange(lens, s);
      OffsetMonotone(lens, lens[s] + 1, lens[t]);
    } else {
      CountPrefix(lens, s, lens[s]);
      CountPrefixMonotone(lens, s + 1, t, lens[s]);
    }
  }

  lemma {:induction false} FindLength(lens: seq<nat>, len: nat, p: nat) returns (l: nat)
    requires p < Offset(lens, len)
    ensures l < len && Offset(lens, l) <= p < Offset(lens, l + 1)
  {
    if p < Offset(lens, len - 1) {
      l := FindLength(lens, len - 1, p);
    } else {
      l := len - 1;
    }
  }

  lemma FindSymbol(lens: seq<nat>, max: nat, p: nat) returns (s: nat)
    requires Bounded(lens, max) && p < |lens|
    ensures s < |lens| && Place(lens, s) == p
  {
    OffsetAll(lens, max + 1);
    var l := FindLength(lens, max + 1, p);
    assert lens[..|lens|] == lens;
    s := SymbolOfRank(lens, |lens|, l, p - Offset(lens, l));
  }

  /** Each of the first k symbols is at its place. */
  ghost predicate Placed(sorted: seq<nat>, lens: seq<nat>, k: nat) {
    k <= |lens| && forall s :: 0 <= s < k ==> Place(lens, s) < |sorted| && sorted[Place(lens, s)] == s
  }

  lemma PlaceNext(sorted: seq<nat>, lens: seq<nat>, k: nat)
    requires Placed(sorted, lens, k) && k < |lens| && Place(lens, k) < |sorted|
    ensures Placed(sorted[Place(lens, k) := k], lens, k + 1)
  {
    forall s | 0 <= s < k
      ensures Place(lens, s) != Place(lens, k)
    {
      if lens[s] <= lens[k] { PlaceOrdered(lens, s, k); } else { PlaceOrdered(lens, k, s); }
    }
  }

  /** The offsets of all lengths have moved past the first k symbols. */
  ghost predicate Advanced(offsets: seq<nat>, lens: seq<nat>, k: nat) {
    k <= |lens| && forall l :: 0 <= l < |offsets| ==> offsets[l] == Offset(lens, l) + Count(lens[..k], l)
  }

  lemma AdvanceNext(offsets: seq<nat>, lens: seq<nat>, k: nat)
    requires Advanced(offsets, lens, k) && k < |lens| && lens[k] < |offsets|
    ensures offsets[lens[k]] == Place(lens, k)
    ensures Advanced(offsets[lens[k] := offsets[lens[k]] + 1], lens, k + 1)
  {
    forall l | 0 <= l < |offsets|
      ensures Count(lens[..k + 1], l) == Count(lens[..k], l) + if lens[k] == l then 1 else 0
    {
      CountPrefix(lens, k, l);
    }
  }

  lemma AdvancedStart(offsets: seq<nat>, lens: seq<nat>)
    requires forall l :: 0 <= l < |offsets| ==> offsets[l] == Offset(lens, l)
    ensures Advanced(offsets, lens, 0)
  {
  }

  lemma AdvancedEnd(offsets: seq<nat>, lens: seq<nat>, l: nat)
    requires Advanced(offsets, lens, |lens|) && l < |offsets|
    ensures offsets[l] == Offset(lens, l + 1)
  {
    assert lens[..|lens|] == lens;
  }

  ghost predicate Counted(counts: seq<nat>, lens: seq<nat>, k: nat) {
    k <= |lens| && forall l :: 0 <= l < |counts| ==> counts[l] == Count(lens[..k], l)
  }

  lemma CountNext(counts: seq<nat>, lens: seq<nat>, k: nat)
    requires Counted(counts, lens, k) && k < |lens| && lens[k] < |counts|
    ensures Counted(counts[lens[k] := counts[lens[k]] + 1], lens, k + 1)
  {
    forall l | 0 <= l < |counts|
      ensures Count(lens[..k + 1], l) == Count(lens[..k], l) + if lens[k] == l then 1 else 0
    {
      CountPrefix(lens, k, l);
    }
  }

  lemma CountedEnd(counts: seq<nat>, lens: seq<nat>)
    requires Counted(counts, lens, |lens|)
    ensures forall l :: 0 <= l < |counts| ==> counts[l] == Count(lens, l)
  {
    assert lens[..|lens|] == lens;
  }

  /** Counts how many symbols have each codeword length, including 0. */
  method CountLengths(lens: seq<nat>, counts: array<nat>)
    requires counts.Length >= 1 && Bounded(lens, counts.Length - 1)
    modifies counts
    ensures forall l :: 0 <= l < counts.Length ==> counts[l] == Count(lens, l)
  {
    for len := 0 to counts.Length
      invariant forall l :: 0 <= l < len ==> counts[l] == 0
    {
      counts[len] := 0;
    }
    for sym := 0 to |lens|
      invariant Counted(counts[..], lens, sym)
    {
      CountNext(counts[..], lens, sym);
      ghost var before := counts[..];
      counts[lens[sym]] := counts[lens[sym]] + 1;
      assert counts[..] == before[lens[sym] := before[lens[sym]] + 1];
    }
    CountedEnd(counts[..], lens);
  }

  /** Makes offsets[len] the number of symbols with a shorter length. */
  method AccumulateOffsets(lens: seq<nat>, counts: array<nat>, offsets: array<nat>)
    requires 1 <= counts.Length == offsets.Length && counts != offsets
    requires forall l :: 0 <= l < counts.Length ==> counts[l] == Count(lens, l)
    modifies offsets
    ensures Advanced(offsets[..], lens, 0)
  {
    offsets[0] := 0;
    for len := 0 to counts.Length - 1
      invariant forall l :: 0 <= l <= len ==> offsets[l] == Offset(lens, l)
    {
      assert Offset(lens, len + 1) == Offset(lens, len) + Count(lens, len);
      hide Offset, Count;
      offsets[len + 1] := offsets[len] + counts[len];
    }
    AdvancedStart(offsets[..], lens);
  }

  /** Sorts the symbols by codeword length, then by symbol. */
  method SortByLength(lens: seq<nat>, offsets: array<nat>, sorted: array<nat>)
    requires 1 <= offsets.Length && Bounded(lens, offsets.Length - 1)
    requires sorted.Length == |lens| && offsets != sorted && Advanced(offsets[..], lens, 0)
    modifies offsets, sorted
    ensures Placed(sorted[..], lens, |lens|)
    ensures offsets[0] == Offset(lens, 1)
  {
    hide Advanced, Placed, Place, Offset;
    OffsetAll(lens, offsets.Length);
    assert Placed(sorted[..], lens, 0) by { NothingPlaced(sorted[..], lens); }
    for sym := 0 to |lens|
      invariant Advanced(offsets[..], lens, sym) && Placed(sorted[..], lens, sym)
    {
      AdvanceNext(offsets[..], lens, sym);
      PlaceInRange(lens, sym);
      OffsetMonotone(lens, lens[sym] + 1, offsets.Length);
      PlaceNext(sorted[..], lens, sym);
      ghost var os, ss := offsets[..], sorted[..];
      sorted[offsets[lens[sym]]] := sym;
      offsets[lens[sym]] := offsets[lens[sym]] + 1;
      assert sorted[..] == ss[Place(lens, sym) := sym];
      assert offsets[..] == os[lens[sym] := os[lens[sym]] + 1];
    }
    AdvancedEnd(offsets[..], lens, 0);
  }

  lemma NothingPlaced(sorted: seq<nat>, lens: seq<nat>)
    ensures Placed(sorted, lens, 0)
  {
  }

  /** Symbol s comes before symbol q among the used symbols. */
  ghost predicate Done(lens: seq<nat>, q: nat, s: nat)
    requires q < |lens| && s < |lens|
  {
    0 < lens[s] && (lens[s] < lens[q] || (lens[s] == lens[q] && s < q))
  }

  /** The loop stands at symbol sym, k-th in the order; counts holds what is left of each length. */
  ghost predicate Standing(lens: seq<nat>, sorted: seq<nat>, counts: seq<nat>, k: nat, len: nat, sym: nat) {
    && sym < |lens| && 0 < len < |counts| && lens[sym] == len && k == Place(lens, sym)
    && Placed(sorted, lens, |lens|) && k < |sorted| == |lens| && sorted[k] == sym
    && counts[len] + Count(lens[..sym], len) == Count(lens, len)
    && forall l :: len < l < |counts| ==> counts[l] == Count(lens, l)
  }

  /** No length from a to b (exclusive) occurs, so the first codeword only gains zeroes. */
  lemma {:induction false} FirstAfterGap(lens: seq<nat>, a: nat, b: nat)
    requires 0 < a < b && forall l :: a < l < b ==> Count(lens, l) == 0
    ensures First(lens, b) == Shl(End(lens, a), b - a)
    decreases b
  {
    if a < b - 1 { FirstAfterGap(lens, a, b - 1); }
  }

  lemma {:induction false} OffsetAfterGap(lens: seq<nat>, a: nat, b: nat)
    requires a < b && Offset(lens, a + 1) == Offset(lens, b)
    ensures forall l :: a < l < b ==> Count(lens, l) == 0
    decreases b
  {
    if a + 1 < b {
      OffsetMonotone(lens, a + 1, b - 1);
      OffsetAfterGap(lens, a, b - 1);
    }
  }

  /** The last symbol in the order: every other used symbol is done. */
  lemma LastStanding(lens: seq<nat>, max: nat, sym: nat)
    requires Bounded(lens, max) && sym < |lens| && Place(lens, sym) + 1 == |lens|
    ensures forall s :: 0 <= s < |lens| && lens[s] > 0 && s != sym ==> Done(lens, sym, s)
  {
    OffsetAll(lens, max + 1);
    forall s | 0 <= s < |lens| && lens[s] > 0 && s != sym
      ensures Done(lens, sym, s)
    {
      if !Done(lens, sym, s) {
        PlaceOrdered(lens, sym, s);
        PlaceInRange(lens, s);
        OffsetMonotone(lens, lens[s] + 1, max + 1);
      }
    }
  }

  ghost predicate ZeroBetween(counts: seq<nat>, a: nat, b: nat) {
    b <= |counts| && forall l :: a <= l < b ==> counts[l] == 0
  }

  /** The next symbol in the order, its length, codeword and predecessors. */
  lemma NextStanding(lens: seq<nat>, sorted: seq<nat>, counts: seq<nat>, k: nat, len: nat, sym: nat)
    returns (next: nat)
    requires |counts| >= 1 && Bounded(lens, |counts| - 1) && Standing(lens, sorted, counts, k, len, sym) && k + 1 < |lens|
    ensures next < |lens| && counts[len] > 0 && sorted[k + 1] == next && len <= lens[next] < |counts|
    ensures counts[len := counts[len] - 1][lens[next]] > 0
    ensures ZeroBetween(counts[len := counts[len] - 1], len, lens[next])
    ensures Standing(lens, sorted, counts[len := counts[len] - 1], k + 1, lens[next], next)
    ensures Code(lens, next) == Shl(Code(lens, sym) + 1, lens[next] - len)
    ensures forall s :: 0 <= s < |lens| ==> (Done(lens, next, s) <==> Done(lens, sym, s) || s == sym)
  {
    next := FindSymbol(lens, |counts| - 1, k + 1);
    NextIsNext(lens, sym, next);
    NextCount(lens, sym, next);
  }

  /** Nothing comes between consecutive places. */
  lemma NextIsNext(lens: seq<nat>, sym: nat, next: nat)
    requires sym < |lens| && next < |lens| && lens[sym] > 0 && Place(lens, next) == Place(lens, sym) + 1
    ensures lens[sym] < lens[next] || (lens[sym] == lens[next] && sym < next)
    ensures forall s :: 0 <= s < |lens| ==> (Done(lens, next, s) <==> Done(lens, sym, s) || s == sym)
  {
    if lens[next] < lens[sym] || (lens[sym] == lens[next] && next < sym) {
      PlaceOrdered(lens, next, sym);
    }
    forall s | 0 <= s < |lens| && s != sym && Done(lens, next, s)
      ensures Done(lens, sym, s)
    {
      if !Done(lens, sym, s) {
        PlaceOrdered(lens, sym, s);
        PlaceOrdered(lens, s, next);
      }
    }
  }

  lemma NextCount(lens: seq<nat>, sym: nat, next: nat)
    requires sym < |lens| && next < |lens| && lens[sym] > 0 && Place(lens, next) == Place(lens, sym) + 1
    requires lens[sym] < lens[next] || (lens[sym] == lens[next] && sym < next)
    ensures lens[next] == lens[sym] ==> Count(lens[..next], lens[sym]) == Count(lens[..sym], lens[sym]) + 1 < Count(lens, lens[sym])
    ensures lens[next] > lens[sym] ==>
      Count(lens[..sym], lens[sym]) + 1 == Count(lens, lens[sym]) && Count(lens[..next], lens[next]) == 0 < Count(lens, lens[next])
    ensures forall l :: lens[sym] < l < lens[next] ==> Count(lens, l) == 0
    ensures Code(lens, next) == Shl(Code(lens, sym) + 1, lens[next] - lens[sym])
  {
    PlaceInRange(lens, sym);
    PlaceInRange(lens, next);
    CountPrefix(lens, next, lens[next]);
    if lens[sym] < lens[next] {
      OffsetMonotone(lens, lens[sym] + 1, lens[next]);
      OffsetAfterGap(lens, lens[sym], lens[next]);
      FirstAfterGap(lens, lens[sym], lens[next]);
    }
  }
}
