/** From length counts and sorted symbols to codeword lengths and canonical codewords. */
module GenCodewords {
  import opened Powers
  import opened WeightedSums
  import opened HuffmanTree
  import opened LengthCounts
  import opened CanonicalCode

  /** Counting codespace length by length is counting it all at once. */
  lemma {:induction false} EndFromCounts(lens: seq<nat>, counts: seq<nat>, len: nat)
    requires len < |counts| && forall l :: 1 <= l < |counts| ==> counts[l] == Count(lens, l)
    ensures End(lens, len) * Pow2(|counts| - 1 - len) + CountsKraft(counts, len + 1) == CountsKraft(counts, 1)
  {
    if len > 0 {
      EndFromCounts(lens, counts, len - 1);
      assert End(lens, len) == 2 * End(lens, len - 1) + counts[len];
      assert Pow2(|counts| - len) == 2 * Pow2(|counts| - 1 - len);
      assert CountsKraft(counts, len) == counts[len] * Pow2(|counts| - 1 - len) + CountsKraft(counts, len + 1);
      OneLengthMore(End(lens, len - 1), counts[len], Pow2(|counts| - 1 - len));
    }
  }

  lemma OneLengthMore(end: nat, count: nat, unit: nat)
    ensures (2 * end + count) * unit == end * (2 * unit) + count * unit
  {
  }

  lemma FullCountsComplete(lens: seq<nat>, counts: seq<nat>, total: nat)
    requires FullCounts(counts, total) && Bounded(lens, |counts| - 1)
    requires forall l :: 1 <= l < |counts| ==> counts[l] == Count(lens, l)
    ensures CompleteCode(lens, |counts| - 1)
  {
    EndFromCounts(lens, counts, |counts| - 1);
    assert Pow2(0) == 1;
  }

  /** The symbols in the low bits of the first words are distinct symbols. */
  ghost predicate DistinctSymbols(words: seq<nat>, used: nat, numSyms: nat) {
    && used <= |words|
    && (forall i :: 0 <= i < used ==> Low(words[i]) < numSyms)
    && (forall i, j :: 0 <= i < j < used ==> Low(words[i]) != Low(words[j]))
  }

  /** s is the symbol of one of the first words. */
  ghost predicate Listed(words: seq<nat>, used: nat, s: nat)
    requires used <= |words|
  {
    exists i :: 0 <= i < used && Low(words[i]) == s
  }

  /** The first |given| words have received the lengths given; nothing else has. */
  ghost predicate Given(words: seq<nat>, lens: seq<nat>, given: seq<nat>)
    requires |given| <= |words|
  {
    && (forall i :: 0 <= i < |given| ==> Low(words[i]) < |lens| && lens[Low(words[i])] == given[i])
    && (forall s :: 0 <= s < |lens| && !Listed(words, |given|, s) ==> lens[s] == 0)
    && (forall l :: l >= 1 ==> Count(lens, l) == Count(given, l))
  }

  lemma GiveNext(words: seq<nat>, lens: seq<nat>, given: seq<nat>, len: nat)
    requires |given| < |words| && DistinctSymbols(words, |given| + 1, |lens|)
    requires Given(words, lens, given)
    ensures Given(words, lens[Low(words[|given|]) := len], given + [len])
  {
    var i := |given|;
    var s := Low(words[i]);
    var after := lens[s := len];
    assert !Listed(words, i, s);
    forall t | 0 <= t < |lens| && !Listed(words, i + 1, t)
      ensures after[t] == 0
    {
      assert Low(words[i]) != t && !Listed(words, i, t);
    }
    forall l | l >= 1
      ensures Count(after, l) == Count(given + [len], l)
    {
      CountUpdate(lens, s, len, l);
      CountAppend(given, [len], l);
    }
  }

  /** Lengths never grow along the list, and are between 1 and max. */
  ghost predicate Descending(given: seq<nat>, max: nat) {
    && (forall i :: 0 <= i < |given| ==> 1 <= given[i] <= max)
    && (forall i, j :: 0 <= i < j < |given| ==> given[i] >= given[j])
  }

  /** Lengths above len are used up, done of length len have been given, none shorter. */
  ghost predicate GivenDownTo(given: seq<nat>, counts: seq<nat>, len: nat, done: nat) {
    && len < |counts| && Descending(given, |counts| - 1)
    && (forall i :: 0 <= i < |given| ==> given[i] >= len)
    && (forall l :: 1 <= l < |counts| ==> Count(given, l) == if l > len then counts[l] else if l == len then done else 0)
    && |given| == Sum(counts, len + 1, |counts|) + done
  }

  lemma GivenMore(given: seq<nat>, counts: seq<nat>, len: nat, done: nat)
    requires 1 <= len && GivenDownTo(given, counts, len, done)
    ensures GivenDownTo(given + [len], counts, len, done + 1)
  {
    forall l
      ensures Count(given + [len], l) == Count(given, l) + if l == len then 1 else 0
    {
      CountAppend(given, [len], l);
    }
  }

  lemma GivenShorter(given: seq<nat>, counts: seq<nat>, len: nat)
    requires 1 <= len < |counts| && GivenDownTo(given, counts, len, counts[len])
    ensures GivenDownTo(given, counts, len - 1, 0)
  {
    CountAbsent(given, len - 1);
  }

  lemma {:induction false} CountAbsent(s: seq<nat>, x: nat)
    requires forall i :: 0 <= i < |s| ==> s[i] != x
    ensures Count(s, x) == 0
  {
    if s != [] { CountAbsent(s[1..], x); }
  }

  lemma {:induction false} SumPart(s: seq<nat>, lo: nat, hi: nat)
    requires lo <= hi <= |s|
    ensures Sum(s, lo, |s|) >= Sum(s, hi, |s|)
  {
    SumSplit(s, lo, hi, |s|);
  }

  /** Gives the lengths in decreasing order to the symbols in order of increasing frequency. */
  method AssignLengths(a: array<nat>, lens: array<nat>, counts: array<nat>, max: nat, ghost used: nat)
    returns (ghost given: seq<nat>)
    requires a != lens && counts != lens && max >= 1 && counts.Length == max + 1
    requires FullCounts(counts[..], used) && DistinctSymbols(a[..], used, lens.Length)
    requires forall s :: 0 <= s < lens.Length && !Listed(a[..], used, s) ==> lens[s] == 0
    modifies lens
    ensures |given| == used && Given(a[..], lens[..], given) && Descending(given, max)
    ensures forall l :: 1 <= l <= max ==> Count(given, l) == counts[l]
  {
    given := [];
    ghost var clean: seq<nat> := Repeat(0, lens.Length);
    ghost var words, cs := a[..], counts[..];
    NothingGiven(words, clean, cs);
    var i: nat := 0;
    var len: nat := max;
    while len >= 1
      invariant len <= max && i == |given| <= used
      invariant GivenDownTo(given, cs, len, 0) && Given(words, clean, given)
      invariant Follows(words, lens[..], clean, given)
      invariant |clean| == lens.Length
      invariant forall s :: 0 <= s < lens.Length && !Listed(words, used, s) ==> lens[s] == 0
    {
      var count: nat := counts[len];
      ghost var done: nat := 0;
      while count > 0
        invariant done + count == cs[len] && i == |given| <= used
        invariant GivenDownTo(given, cs, len, done) && Given(words, clean, given)
        invariant Follows(words, lens[..], clean, given)
        invariant |clean| == lens.Length
        invariant forall s :: 0 <= s < lens.Length && !Listed(words, used, s) ==> lens[s] == 0
      {
        RoomLeft(given, cs, len, done, used);
        GiveNext(words, clean, given, len);
        GivenMore(given, cs, len, done);
        FollowNext(words, lens[..], clean, given, len);
        ghost var before := lens[..];
        lens[Low(a[i])] := len;
        assert lens[..] == before[Low(words[i]) := len];
        clean := clean[Low(words[i]) := len];
        given := given + [len];
        i := i + 1;
        count := count - 1;
        done := done + 1;
      }
      GivenShorter(given, cs, len);
      len := len - 1;
    }
    AllGiven(words, lens[..], clean, given, cs, used);
  }

  /** The real lengths agree with the clean ones wherever a length has been given. */
  ghost predicate Follows(words: seq<nat>, lens: seq<nat>, clean: seq<nat>, given: seq<nat>) {
    && |given| <= |words| && |lens| == |clean|
    && forall i :: 0 <= i < |given| ==> Low(words[i]) < |lens| && lens[Low(words[i])] == clean[Low(words[i])]
  }

  lemma FollowNext(words: seq<nat>, lens: seq<nat>, clean: seq<nat>, given: seq<nat>, len: nat)
    requires Follows(words, lens, clean, given) && |given| < |words| && Low(words[|given|]) < |lens|
    ensures Follows(words, lens[Low(words[|given|]) := len], clean[Low(words[|given|]) := len], given + [len])
  {
  }

  lemma NothingGiven(words: seq<nat>, clean: seq<nat>, counts: seq<nat>)
    requires |counts| >= 2 && forall s :: 0 <= s < |clean| ==> clean[s] == 0
    ensures Given(words, clean, []) && GivenDownTo([], counts, |counts| - 1, 0)
  {
    forall l | l >= 1
      ensures Count(clean, l) == 0
    {
      CountAbsent(clean, l);
    }
  }

  lemma RoomLeft(given: seq<nat>, counts: seq<nat>, len: nat, done: nat, used: nat)
    requires GivenDownTo(given, counts, len, done) && FullCounts(counts, used) && done < counts[len]
    ensures |given| < used
  {
    SumPart(counts, 0, len);
  }

  lemma AllGiven(words: seq<nat>, lens: seq<nat>, clean: seq<nat>, given: seq<nat>, counts: seq<nat>, used: nat)
    requires GivenDownTo(given, counts, 0, 0) && FullCounts(counts, used) && used <= |words|
    requires Follows(words, lens, clean, given) && Given(words, clean, given)
    requires forall s :: 0 <= s < |lens| && !Listed(words, used, s) ==> lens[s] == 0
    ensures |given| == used && lens == clean
  {
    assert |given| == used;
    forall s | 0 <= s < |lens|
      ensures lens[s] == clean[s]
    {
      if Listed(words, used, s) {
        var i :| 0 <= i < used && Low(words[i]) == s;
      }
    }
  }

  /** Writes the canonical codeword of every symbol that has one. */
  method AssignCodewords(a: array<nat>, lens: array<nat>, counts: array<nat>, max: nat)
    requires a != lens && a != counts && max >= 1 && counts.Length == max + 1 && a.Length == lens.Length
    requires Bounded(lens[..], max)
    requires forall l :: 1 <= l <= max ==> counts[l] == Count(lens[..], l)
    modifies a
    ensures forall s :: 0 <= s < a.Length && lens[s] > 0 ==> a[s] == Code(lens[..], s)
  {
    ghost var ls := lens[..];
    var next := new nat[max + 1];
    next[0] := 0;
    next[1] := 0;
    var len := 2;
    while len <= max
      invariant 2 <= len <= max + 1
      invariant forall l :: 1 <= l < len ==> next[l] == First(ls, l)
    {
      next[len] := (next[len - 1] + counts[len - 1]) * 2;
      len := len + 1;
    }
    for sym := 0 to a.Length
      invariant NextCodes(next[..], ls, sym)
      invariant forall s :: 0 <= s < sym && ls[s] > 0 ==> a[s] == Code(ls, s)
    {
      hide First, End;
      NextCode(next[..], ls, sym);
      ghost var before := next[..];
      a[sym] := next[lens[sym]];
      next[lens[sym]] := next[lens[sym]] + 1;
      assert next[..] == before[ls[sym] := before[ls[sym]] + 1];
    }
  }

  ghost predicate NextCodes(next: seq<nat>, lens: seq<nat>, k: nat) {
    k <= |lens| && forall l :: 1 <= l < |next| ==> next[l] == First(lens, l) + Count(lens[..k], l)
  }

  lemma NextCode(next: seq<nat>, lens: seq<nat>, k: nat)
    requires k < |lens| && |next| >= 1 && Bounded(lens, |next| - 1) && NextCodes(next, lens, k)
    ensures lens[k] > 0 ==> next[lens[k]] == Code(lens, k)
    ensures NextCodes(next[lens[k] := next[lens[k]] + 1], lens, k + 1)
  {
    forall l | 1 <= l < |next|
      ensures Count(lens[..k + 1], l) == Count(lens[..k], l) + if lens[k] == l then 1 else 0
    {
      CountPrefix(lens, k, l);
    }
  }
}
