/** Sums, weighted sums, Kraft sums and counts over sequences, each with the way it
    changes when one element is removed, updated or appended. */
module WeightedSums {
  import opened Powers

  /** Sum of s[lo..hi]. */
  function Sum(s: seq<nat>, lo: nat, hi: nat): nat
    requires hi <= |s|
    decreases hi - lo
  {
    if lo >= hi then 0 else s[lo] + Sum(s, lo + 1, hi)
  }

  /** Total weight times length: the cost in bits of giving weights[i] a codeword of lens[i] bits. */
  function Cost(weights: seq<nat>, lens: seq<nat>): nat
    requires |weights| == |lens|
  {
    if weights == [] then 0 else weights[0] * lens[0] + Cost(weights[1..], lens[1..])
  }

  /** All lengths are at most max. */
  ghost predicate Bounded(lens: seq<nat>, max: nat) {
    forall i :: 0 <= i < |lens| ==> lens[i] <= max
  }

  /** Codespace used by one codeword of length len, in units of 2^-max. */
  function Share(len: nat, max: nat): nat {
    if len <= max then Pow2(max - len) else 0
  }

  /** Codespace used by codewords of the given lengths, in units of 2^-max. */
  function Kraft(lens: seq<nat>, max: nat): nat {
    if lens == [] then 0 else Share(lens[0], max) + Kraft(lens[1..], max)
  }

  /** Number of occurrences of x. */
  function Count(s: seq<nat>, x: nat): nat {
    if s == [] then 0 else (if s[0] == x then 1 else 0) + Count(s[1..], x)
  }

  function RemoveAt<T>(s: seq<T>, i: nat): (r: seq<T>)
    requires i < |s|
  {
    s[..i] + s[i + 1..]
  }

  lemma {:induction false} SumSplit(s: seq<nat>, lo: nat, mid: nat, hi: nat)
    requires lo <= mid <= hi <= |s|
    ensures Sum(s, lo, hi) == Sum(s, lo, mid) + Sum(s, mid, hi)
    decreases mid - lo
  {
    if lo < mid {
      SumSplit(s, lo + 1, mid, hi);
    }
  }

  /** The sum looks only at its range. */
  lemma {:induction false} SumSame(s: seq<nat>, t: seq<nat>, lo: nat, hi: nat)
    requires hi <= |s| && hi <= |t| && forall k :: lo <= k < hi ==> s[k] == t[k]
    ensures Sum(s, lo, hi) == Sum(t, lo, hi)
    decreases hi - lo
  {
    if lo < hi {
      SumSame(s, t, lo + 1, hi);
    }
  }

  lemma SumShort(s: seq<nat>, lo: nat)
    requires lo <= |s|
    ensures Sum(s, lo, lo) == 0
    ensures lo + 1 <= |s| ==> Sum(s, lo, lo + 1) == s[lo]
    ensures lo + 2 <= |s| ==> Sum(s, lo, lo + 2) == s[lo] + s[lo + 1]
  {
    if lo + 2 <= |s| {
      assert Sum(s, lo + 1, lo + 2) == s[lo + 1];
    }
  }

  lemma {:induction false} CostAppend(wa: seq<nat>, la: seq<nat>, wb: seq<nat>, lb: seq<nat>)
    requires |wa| == |la| && |wb| == |lb|
    ensures Cost(wa + wb, la + lb) == Cost(wa, la) + Cost(wb, lb)
  {
    if wa == [] {
      assert wa + wb == wb && la + lb == lb;
    } else {
      CostAppend(wa[1..], la[1..], wb, lb);
      assert (wa + wb)[1..] == wa[1..] + wb;
      assert (la + lb)[1..] == la[1..] + lb;
    }
  }

  lemma {:induction false} KraftAppend(a: seq<nat>, b: seq<nat>, max: nat)
    ensures Kraft(a + b, max) == Kraft(a, max) + Kraft(b, max)
  {
    if a == [] {
      assert a + b == b;
    } else {
      KraftAppend(a[1..], b, max);
      assert (a + b)[1..] == a[1..] + b;
    }
  }

  lemma {:induction false} CountAppend(a: seq<nat>, b: seq<nat>, x: nat)
    ensures Count(a + b, x) == Count(a, x) + Count(b, x)
  {
    if a == [] {
      assert a + b == b;
    } else {
      CountAppend(a[1..], b, x);
      assert (a + b)[1..] == a[1..] + b;
    }
  }

  lemma SplitAt<T>(s: seq<T>, i: nat)
    requires i < |s|
    ensures s == s[..i] + ([s[i]] + s[i + 1..])
  {
  }

  lemma CountRemove(s: seq<nat>, i: nat, x: nat)
    requires i < |s|
    ensures Count(s, x) == Count(RemoveAt(s, i), x) + (if s[i] == x then 1 else 0)
  {
    SplitAt(s, i);
    CountAppend(s[..i], [s[i]] + s[i + 1..], x);
    CountAppend([s[i]], s[i + 1..], x);
    CountAppend(s[..i], s[i + 1..], x);
  }

  lemma CostRemove(ws: seq<nat>, lens: seq<nat>, i: nat)
    requires |ws| == |lens| && i < |ws|
    ensures Cost(ws, lens) == Cost(RemoveAt(ws, i), RemoveAt(lens, i)) + ws[i] * lens[i]
  {
    SplitAt(ws, i);
    SplitAt(lens, i);
    CostAppend(ws[..i], lens[..i], [ws[i]] + ws[i + 1..], [lens[i]] + lens[i + 1..]);
    CostAppend([ws[i]], [lens[i]], ws[i + 1..], lens[i + 1..]);
    CostAppend(ws[..i], lens[..i], ws[i + 1..], lens[i + 1..]);
  }

  lemma KraftRemove(lens: seq<nat>, i: nat, max: nat)
    requires i < |lens|
    ensures Kraft(lens, max) == Kraft(RemoveAt(lens, i), max) + Share(lens[i], max)
  {
    SplitAt(lens, i);
    KraftAppend(lens[..i], [lens[i]] + lens[i + 1..], max);
    KraftAppend([lens[i]], lens[i + 1..], max);
    KraftAppend(lens[..i], lens[i + 1..], max);
  }

  lemma CostUpdate(ws: seq<nat>, lens: seq<nat>, i: nat, v: nat)
    requires |ws| == |lens| && i < |ws|
    ensures Cost(ws, lens[i := v]) + ws[i] * lens[i] == Cost(ws, lens) + ws[i] * v
  {
    CostRemove(ws, lens, i);
    CostRemove(ws, lens[i := v], i);
    assert RemoveAt(lens[i := v], i) == RemoveAt(lens, i);
  }

  lemma KraftUpdate(lens: seq<nat>, i: nat, v: nat, max: nat)
    requires i < |lens|
    ensures Kraft(lens[i := v], max) + Share(lens[i], max) == Kraft(lens, max) + Share(v, max)
  {
    KraftRemove(lens, i, max);
    KraftRemove(lens[i := v], i, max);
    assert RemoveAt(lens[i := v], i) == RemoveAt(lens, i);
  }

  lemma CountUpdate(s: seq<nat>, i: nat, v: nat, x: nat)
    requires i < |s|
    ensures Count(s[i := v], x) + (if s[i] == x then 1 else 0) == Count(s, x) + (if v == x then 1 else 0)
  {
    CountRemove(s, i, x);
    CountRemove(s[i := v], i, x);
    assert RemoveAt(s[i := v], i) == RemoveAt(s, i);
  }

  /** A larger unit doubles the sum. */
  lemma {:induction false} KraftDouble(lens: seq<nat>, max: nat)
    requires Bounded(lens, max)
    ensures Kraft(lens, max + 1) == 2 * Kraft(lens, max)
  {
    if lens != [] {
      KraftDouble(lens[1..], max);
      assert Pow2(max + 1 - lens[0]) == 2 * Pow2(max - lens[0]);
    }
  }
}
