/** In-place heap sort of a stretch of an array, with one-based heap indices. */
module HeapSort {

  /** The element with one-based index i of the stretch that starts at lo. */
  function At(s: seq<nat>, lo: nat, i: nat): nat
    requires 1 <= i && lo + i - 1 < |s|
  {
    s[lo + i - 1]
  }

  /** Every element of the stretch whose parent is at least from is no greater than its parent. */
  ghost predicate Heap(s: seq<nat>, lo: nat, length: nat, from: nat)
    requires lo + length <= |s|
  {
    forall i :: 2 <= i <= length && from <= i / 2 ==> At(s, lo, i / 2) >= At(s, lo, i)
  }

  /** s and t hold the same elements, in the same places outside the stretch. */
  ghost predicate Rearranged(s: seq<nat>, t: seq<nat>, lo: nat, length: nat) {
    && lo + length <= |s| == |t|
    && multiset(s) == multiset(t)
    && s[..lo] == t[..lo] && s[lo + length..] == t[lo + length..]
  }

  ghost predicate SortedStretch(s: seq<nat>, lo: nat, hi: nat) {
    hi <= |s| && forall i, j :: lo <= i < j < hi ==> s[i] <= s[j]
  }

  /** The heap with v put back in the hole at parent: only the hole's children may exceed it,
      and they do not exceed the hole's parent. */
  ghost predicate HeapWithHole(s: seq<nat>, lo: nat, length: nat, from: nat, parent: nat)
    requires lo + length <= |s| && 1 <= from <= parent <= length
  {
    && (forall i :: 2 <= i <= length && from <= i / 2 && i / 2 != parent ==> At(s, lo, i / 2) >= At(s, lo, i))
    && (parent / 2 >= from && parent * 2 <= length ==> At(s, lo, parent / 2) >= At(s, lo, parent * 2))
    && (parent / 2 >= from && parent * 2 + 1 <= length ==> At(s, lo, parent / 2) >= At(s, lo, parent * 2 + 1))
  }

  /** The elements with one-based indices p and c exchanged. */
  function Swapped(s: seq<nat>, lo: nat, p: nat, c: nat): (t: seq<nat>)
    requires 1 <= p && lo + p - 1 < |s| && 1 <= c && lo + c - 1 < |s|
  {
    s[lo + p - 1 := At(s, lo, c)][lo + c - 1 := At(s, lo, p)]
  }

  /** Moving the greater child up into the hole moves the hole down. */
  lemma HoleMoves(s: seq<nat>, lo: nat, length: nat, from: nat, parent: nat, child: nat)
    requires lo + length <= |s| && 1 <= from <= parent && child / 2 == parent && 2 <= child <= length
    requires HeapWithHole(s, lo, length, from, parent)
    requires At(s, lo, child) >= At(s, lo, parent)
    requires forall i :: 2 <= i <= length && i / 2 == parent ==> At(s, lo, i) <= At(s, lo, child)
    ensures HeapWithHole(Swapped(s, lo, parent, child), lo, length, from, child)
  {
    var t := Swapped(s, lo, parent, child);
    forall i | 2 <= i <= length && from <= i / 2 && i / 2 != child
      ensures At(t, lo, i / 2) >= At(t, lo, i)
    {
      if i != child && i / 2 != parent && i != parent {
        assert At(t, lo, i) == At(s, lo, i) && At(t, lo, i / 2) == At(s, lo, i / 2);
      } else if i == parent {
        assert At(s, lo, parent / 2) >= At(s, lo, child);
      }
    }
    assert child * 2 / 2 == child && (child * 2 + 1) / 2 == child;
    assert child * 2 <= length ==> At(s, lo, child) >= At(s, lo, child * 2);
    assert child * 2 + 1 <= length ==> At(s, lo, child) >= At(s, lo, child * 2 + 1);
  }

  lemma SwapRearranges(r: seq<nat>, s: seq<nat>, lo: nat, length: nat, p: nat, c: nat)
    requires Rearranged(r, s, lo, length) && 1 <= p <= length && 1 <= c <= length
    ensures Rearranged(r, Swapped(s, lo, p, c), lo, length)
  {
  }

  lemma OpenHole(s: seq<nat>, lo: nat, length: nat, from: nat)
    requires lo + length <= |s| && 1 <= from <= length && Heap(s, lo, length, from + 1)
    ensures HeapWithHole(s, lo, length, from, from)
  {
  }

  lemma CloseHole(s: seq<nat>, lo: nat, length: nat, from: nat, parent: nat)
    requires lo + length <= |s| && 1 <= from <= parent <= length && HeapWithHole(s, lo, length, from, parent)
    requires forall i :: 2 <= i <= length && i / 2 == parent ==> At(s, lo, i) <= At(s, lo, parent)
    ensures Heap(s, lo, length, from)
  {
  }

  lemma GreaterChild(words: seq<nat>, s: seq<nat>, lo: nat, length: nat, parent: nat, child: nat, v: nat)
    requires 1 <= parent && lo + length <= |words| && parent * 2 <= child <= length && child <= parent * 2 + 1
    requires s == words[lo + parent - 1 := v]
    requires child == parent * 2 && child < length ==> words[lo + child] <= words[lo + child - 1]
    requires child == parent * 2 + 1 ==> words[lo + child - 1] > words[lo + child - 2]
    ensures forall i :: 2 <= i <= length && i / 2 == parent ==> At(s, lo, i) <= At(s, lo, child)
    ensures At(s, lo, child) == words[lo + child - 1] && child / 2 == parent
  {
  }

  lemma MoveIsSwap(words: seq<nat>, s: seq<nat>, lo: nat, parent: nat, child: nat, v: nat)
    requires 1 <= parent < child && lo + child - 1 < |words| && s == words[lo + parent - 1 := v]
    ensures Swapped(s, lo, parent, child) == words[lo + parent - 1 := words[lo + child - 1]][lo + child - 1 := v]
  {
  }

  /** Restores the heap order at index sub. */
  method HeapifySubtree(a: array<nat>, lo: nat, length: nat, sub: nat)
    requires lo + length <= a.Length && 1 <= sub <= length
    requires Heap(a[..], lo, length, sub + 1)
    modifies a
    ensures Heap(a[..], lo, length, sub)
    ensures Rearranged(old(a[..]), a[..], lo, length)
  {
    hide Heap, HeapWithHole, Rearranged;
    var v := a[lo + sub - 1];
    var parent := sub;
    var child := parent * 2;
    ghost var s := a[..];
    OpenHole(s, lo, length, sub);
    assert Rearranged(a[..], s, lo, length) by { SameIsRearranged(s, lo, length); }
    while child <= length
      invariant sub <= parent <= length && child == parent * 2
      invariant s == a[..][lo + parent - 1 := v]
      invariant HeapWithHole(s, lo, length, sub, parent)
      invariant Rearranged(old(a[..]), s, lo, length)
      decreases length - parent
    {
      if child < length && a[lo + child] > a[lo + child - 1] {
        child := child + 1;
      }
      GreaterChild(a[..], s, lo, length, parent, child, v);
      if v >= a[lo + child - 1] { break; }
      HoleMoves(s, lo, length, sub, parent, child);
      SwapRearranges(old(a[..]), s, lo, length, parent, child);
      MoveIsSwap(a[..], s, lo, parent, child, v);
      s := Swapped(s, lo, parent, child);
      a[lo + parent - 1] := a[lo + child - 1];
      parent := child;
      child := parent * 2;
    }
    CloseHole(s, lo, length, sub, parent);
    a[lo + parent - 1] := v;
    assert a[..] == s;
  }

  lemma SameIsRearranged(s: seq<nat>, lo: nat, length: nat)
    requires lo + length <= |s|
    ensures Rearranged(s, s, lo, length)
  {
  }

  method HeapifyArray(a: array<nat>, lo: nat, length: nat)
    requires lo + length <= a.Length
    modifies a
    ensures Heap(a[..], lo, length, 1)
    ensures Rearranged(old(a[..]), a[..], lo, length)
  {
    var sub: int := length / 2;
    while sub >= 1
      invariant 0 <= sub <= length / 2 && Heap(a[..], lo, length, sub + 1)
      invariant Rearranged(old(a[..]), a[..], lo, length)
    {
      HeapifySubtree(a, lo, length, sub);
      sub := sub - 1;
    }
  }

  lemma {:induction false} RootIsGreatest(s: seq<nat>, lo: nat, length: nat, i: nat)
    requires lo + length <= |s| && Heap(s, lo, length, 1) && 1 <= i <= length
    ensures At(s, lo, 1) >= At(s, lo, i)
  {
    if i > 1 {
      RootIsGreatest(s, lo, length, i / 2);
    }
  }

  lemma {:induction false} SameStretch(s: seq<nat>, t: seq<nat>, lo: nat, length: nat, bound: nat)
    requires Rearranged(s, t, lo, length)
    requires forall k :: lo <= k < lo + length ==> s[k] <= bound
    ensures forall k :: lo <= k < lo + length ==> t[k] <= bound
  {
    StretchMultiset(s, t, lo, length);
    forall k | lo <= k < lo + length
      ensures t[k] <= bound
    {
      assert t[lo..lo + length][k - lo] in multiset(t[lo..lo + length]);
      assert t[k] in multiset(s[lo..lo + length]);
    }
  }

  lemma CommonEndsCancel(a: seq<nat>, m: seq<nat>, n: seq<nat>, b: seq<nat>)
    requires multiset(a + m + b) == multiset(a + n + b)
    ensures multiset(m) == multiset(n)
  {
    forall x
      ensures multiset(m)[x] == multiset(n)[x]
    {
      assert multiset(a + m + b)[x] == multiset(a)[x] + multiset(m)[x] + multiset(b)[x];
      assert multiset(a + n + b)[x] == multiset(a)[x] + multiset(n)[x] + multiset(b)[x];
    }
  }

  /** The stretch itself keeps its elements. */
  lemma StretchMultiset(s: seq<nat>, t: seq<nat>, lo: nat, length: nat)
    requires Rearranged(s, t, lo, length)
    ensures multiset(s[lo..lo + length]) == multiset(t[lo..lo + length])
  {
    assert s == s[..lo] + s[lo..lo + length] + s[lo + length..];
    assert t == s[..lo] + t[lo..lo + length] + s[lo + length..];
    CommonEndsCancel(s[..lo], s[lo..lo + length], t[lo..lo + length], s[lo + length..]);
  }

  lemma RearrangedTrans(s: seq<nat>, t: seq<nat>, u: seq<nat>, lo: nat, inner: nat, length: nat)
    requires Rearranged(s, t, lo, length) && inner <= length && Rearranged(t, u, lo, inner)
    ensures Rearranged(s, u, lo, length)
  {
    assert t[lo + length..] == t[lo + inner..][length - inner..];
    assert u[lo + length..] == u[lo + inner..][length - inner..];
  }

  /** The heap, and above it the sorted greatest elements. */
  ghost predicate PartlySorted(s: seq<nat>, lo: nat, left: nat, length: nat) {
    && left <= length && lo + length <= |s|
    && SortedStretch(s, lo + left, lo + length)
    && forall i, j :: lo <= i < lo + left <= j < lo + length ==> s[i] <= s[j]
  }

  lemma MaxGoesLast(s: seq<nat>, lo: nat, left: nat, length: nat)
    requires PartlySorted(s, lo, left, length) && left >= 2 && Heap(s, lo, left, 1)
    ensures var t := s[lo + left - 1 := s[lo]][lo := s[lo + left - 1]];
      && PartlySorted(t, lo, left - 1, length) && Heap(t, lo, left - 1, 2)
      && Rearranged(s, t, lo, length)
  {
    var t := s[lo + left - 1 := s[lo]][lo := s[lo + left - 1]];
    forall i | lo <= i < lo + left
      ensures s[i] <= s[lo]
    {
      RootIsGreatest(s, lo, left, i - lo + 1);
    }
    forall i | 2 <= i <= left - 1 && 2 <= i / 2
      ensures At(t, lo, i / 2) >= At(t, lo, i)
    {
      assert At(s, lo, i / 2) >= At(s, lo, i);
    }
  }

  lemma HeapifiedPartlySorted(s: seq<nat>, t: seq<nat>, lo: nat, left: nat, length: nat)
    requires PartlySorted(s, lo, left, length) && Rearranged(s, t, lo, left)
    ensures PartlySorted(t, lo, left, length)
  {
    assert forall j :: lo + left <= j < |s| ==> t[j] == t[lo + left..][j - lo - left] == s[j];
    if lo + left < lo + length {
      SameStretch(s, t, lo, left, s[lo + left]);
    }
  }

  method Sort(a: array<nat>, lo: nat, length: nat)
    requires lo + length <= a.Length
    modifies a
    ensures SortedStretch(a[..], lo, lo + length)
    ensures Rearranged(old(a[..]), a[..], lo, length)
  {
    HeapifyArray(a, lo, length);
    var left := length;
    while left >= 2
      invariant PartlySorted(a[..], lo, left, length) && Heap(a[..], lo, left, 1)
      invariant Rearranged(old(a[..]), a[..], lo, length)
    {
      hide PartlySorted, Heap, Rearranged;
      MaxGoesLast(a[..], lo, left, length);
      ghost var s0 := a[..];
      var tmp := a[lo + left - 1];
      a[lo + left - 1] := a[lo];
      a[lo] := tmp;
      left := left - 1;
      ghost var s1 := a[..];
      assert s1 == s0[lo + left := s0[lo]][lo := s0[lo + left]];
      RearrangedTrans(old(a[..]), s0, s1, lo, length, length);
      HeapifySubtree(a, lo, left, 1);
      HeapifiedPartlySorted(s1, a[..], lo, left, length);
      RearrangedTrans(old(a[..]), s1, a[..], lo, left, length);
    }
  }
}
