/** The codes of static blocks. The compressor makes them as it makes any others, from frequencies that are powers of two;
    such frequencies have only one optimal code. */
module StaticTables {
  import opened Powers
  import opened WeightedSums
  import opened CanonicalCode
  import opened HuffmanCode
  import opened DeflateSymbols
  import opened DeflateStream
  import opened BlockWriter
  import MakeCode
  import FlushBlock
  import Inflate

  // ---- One optimal code ----------------------------------------------------------------------

  /** A symbol with a codeword of len bits occurs 2^(top - len) times. */
  ghost predicate Dyadic(freqs: seq<nat>, lens: seq<nat>, top: nat) {
    |freqs| == |lens| && forall s :: 0 <= s < |lens| ==> 0 < lens[s] <= top && freqs[s] == Pow2(top - lens[s])
  }

  lemma {:induction false} KraftNext(lens: seq<nat>, len: nat)
    ensures Kraft(lens, len + 1) == 2 * Kraft(lens, len) + Count(lens, len + 1)
  {
    if lens != [] {
      KraftNext(lens[1..], len);
      if lens[0] <= len { assert Pow2(len + 1 - lens[0]) == 2 * Pow2(len - lens[0]); }
    }
  }

  lemma {:induction false} KraftOfNone(lens: seq<nat>)
    requires forall s :: 0 <= s < |lens| ==> lens[s] > 0
    ensures Kraft(lens, 0) == 0
  {
    if lens != [] { KraftOfNone(lens[1..]); }
  }

  /** The codespace used, as canonical codewords count it. */
  lemma {:induction false} KraftIsEnd(lens: seq<nat>, len: nat)
    requires forall s :: 0 <= s < |lens| ==> lens[s] > 0
    ensures Kraft(lens, len) == End(lens, len)
  {
    if len == 0 {
      KraftOfNone(lens);
    } else {
      KraftIsEnd(lens, len - 1);
      KraftNext(lens, len - 1);
    }
  }

  lemma {:induction false} KraftLonger(lens: seq<nat>, m: nat, more: nat)
    requires Bounded(lens, m) && m <= more
    ensures Bounded(lens, more)
    ensures Kraft(lens, m) <= Pow2(m) ==> Kraft(lens, more) <= Pow2(more)
    ensures Kraft(lens, m) == Pow2(m) ==> Kraft(lens, more) == Pow2(more)
    decreases more
  {
    if m < more {
      KraftLonger(lens, m, more - 1);
      KraftDouble(lens, more - 1);
    }
  }

  lemma {:induction false} Doublings(n: nat, d: nat)
    ensures Pow2(n + d) >= (1 + d) * Pow2(n)
  {
    if d > 0 { Doublings(n, d - 1); }
  }

  /** The codespace 2^-x lies above its tangent at l, of a slope between those on either side, except at l. */
  lemma Tangent(b: nat, l: nat, m: nat)
    requires b <= m && l <= m
    ensures 4 * Pow2(m - b) + 3 * (Pow2(m - l) * b) >= 4 * Pow2(m - l) + 3 * (Pow2(m - l) * l)
    ensures b != l ==> 4 * Pow2(m - b) + 3 * (Pow2(m - l) * b) > 4 * Pow2(m - l) + 3 * (Pow2(m - l) * l)
  {
    hide Pow2;
    if b < l {
      Doublings(m - l, l - b);
      ShorterBeats(Pow2(m - l), Pow2(m - b), b, l - b);
    } else if b > l {
      Halved(m, l);
      LongerBeats(Pow2(m - l), if b == l + 1 then Pow2(m - b) else 0, l, b - l);
    }
  }

  lemma Halved(m: nat, l: nat)
    requires l < m
    ensures Pow2(m - l) == 2 * Pow2(m - (l + 1))
  {
  }

  lemma ShorterBeats(w: nat, v: nat, b: nat, d: nat)
    requires w > 0 && v >= (1 + d) * w && d > 0
    ensures 4 * v + 3 * (w * b) > 4 * w + 3 * (w * (b + d))
  {
    assert w * (b + d) == w * b + w * d;
    assert (1 + d) * w == w + w * d && w * d > 0;
  }

  lemma LongerBeats(w: nat, v: nat, l: nat, d: nat)
    requires w > 0 && d > 0 && (d == 1 ==> 2 * v == w)
    ensures 4 * v + 3 * (w * (l + d)) > 4 * w + 3 * (w * l)
  {
    assert w * (l + d) == w * l + w * d;
    if d > 1 { assert w * d >= w * 2; }
  }

  lemma {:induction false} TangentSum(ws: seq<nat>, lens: seq<nat>, best: seq<nat>, m: nat)
    requires |ws| == |lens| == |best| && Bounded(lens, m) && Bounded(best, m)
    requires forall s :: 0 <= s < |lens| ==> ws[s] == Pow2(m - lens[s])
    ensures 4 * Kraft(best, m) + 3 * Cost(ws, best) >= 4 * Kraft(lens, m) + 3 * Cost(ws, lens)
    ensures best != lens ==> 4 * Kraft(best, m) + 3 * Cost(ws, best) > 4 * Kraft(lens, m) + 3 * Cost(ws, lens)
  {
    hide Pow2;
    if lens != [] {
      TangentSum(ws[1..], lens[1..], best[1..], m);
      Tangent(best[0], lens[0], m);
      if best[0] == lens[0] && best[1..] == lens[1..] { assert best == [best[0]] + best[1..] && lens == [lens[0]] + lens[1..]; }
    }
  }

  lemma Distribute(k: nat, a: nat, b: nat, c: nat)
    ensures k * (a * b + c) == (k * a) * b + k * c
  {
  }

  lemma {:induction false} CostScaled(freqs: seq<nat>, ws: seq<nat>, k: nat, lens: seq<nat>)
    requires |freqs| == |ws| == |lens| && forall s :: 0 <= s < |freqs| ==> ws[s] == k * freqs[s]
    ensures Cost(ws, lens) == k * Cost(freqs, lens)
  {
    if freqs != [] {
      CostScaled(freqs[1..], ws[1..], k, lens[1..]);
      Distribute(k, freqs[0], lens[0], Cost(freqs[1..], lens[1..]));
    }
  }

  lemma ScaledWeights(freqs: seq<nat>, lens: seq<nat>, top: nat, m: nat) returns (ws: seq<nat>)
    requires Dyadic(freqs, lens, top) && top <= m
    ensures |ws| == |lens| && forall s :: 0 <= s < |lens| ==> ws[s] == Pow2(m - lens[s]) == Pow2(m - top) * freqs[s]
  {
    hide Pow2;
    ws := seq(|lens|, s requires 0 <= s < |lens| => Pow2(m - lens[s]));
    forall s | 0 <= s < |lens|
      ensures Pow2(m - lens[s]) == Pow2(m - top) * freqs[s]
    {
      Pow2Add(m - top, top - lens[s]);
    }
  }

  lemma ScaledOrder(k: nat, a: nat, b: nat)
    requires a <= b
    ensures k * a <= k * b
  {
  }

  /** No other lengths that fit cost as little. */
  lemma DyadicUnique(freqs: seq<nat>, lens: seq<nat>, best: seq<nat>, top: nat, full: nat, m: nat)
    requires Dyadic(freqs, lens, top) && top <= full && Bounded(lens, full) && Kraft(lens, full) == Pow2(full)
    requires |best| == |lens| && Bounded(best, m) && Kraft(best, m) <= Pow2(m)
    requires Cost(freqs, best) <= Cost(freqs, lens)
    ensures best == lens
  {
    hide Pow2, Kraft, Cost;
    var n := if m < full then full else m;
    KraftLonger(lens, full, n);
    KraftLonger(best, m, n);
    var ws := ScaledWeights(freqs, lens, top, n);
    CostScaled(freqs, ws, Pow2(n - top), lens);
    CostScaled(freqs, ws, Pow2(n - top), best);
    ScaledOrder(Pow2(n - top), Cost(freqs, best), Cost(freqs, lens));
    TangentSum(ws, lens, best, n);
  }

  /** When every symbol occurs, lengths are feasible when they fit. */
  lemma FeasibleIfFits(freqs: seq<nat>, lens: seq<nat>, m: nat)
    requires |lens| == |freqs| && forall s :: 0 <= s < |freqs| ==> freqs[s] > 0
    ensures Feasible(freqs, lens, m) <==> Bounded(lens, m) && Kraft(lens, m) <= Pow2(m)
  {
    KraftIsSum(lens, m);
    assert UsedShares(freqs, lens, m) == Shares(lens, m);
  }

  lemma {:induction false} AllUsed(freqs: seq<nat>, k: nat)
    requires k <= |freqs| && forall s :: 0 <= s < |freqs| ==> freqs[s] > 0
    ensures Used(freqs, k) == k
  {
    if k > 0 { AllUsed(freqs, k - 1); }
  }

  lemma DyadicUsed(freqs: seq<nat>, lens: seq<nat>, top: nat)
    requires Dyadic(freqs, lens, top)
    ensures |lens| == |freqs| && forall s :: 0 <= s < |freqs| ==> freqs[s] > 0 && 0 < lens[s] <= top
  {
    forall s | 0 <= s < |freqs|
      ensures freqs[s] > 0
    {
      Doublings(0, top - lens[s]);
    }
  }

  lemma DyadicOptimal(freqs: seq<nat>, lens: seq<nat>, best: seq<nat>, top: nat, full: nat, m: nat)
    requires Dyadic(freqs, lens, top) && top <= full && Kraft(lens, full) == Pow2(full)
    requires Optimal(freqs, best) && Feasible(freqs, best, m)
    ensures best == lens
  {
    hide Pow2, Kraft, Cost, Dyadic;
    DyadicUsed(freqs, lens, top);
    FeasibleIfFits(freqs, lens, full);
    FeasibleIfFits(freqs, best, m);
    DyadicUnique(freqs, lens, best, top, full, m);
  }

  /** Making a code from such frequencies gives just these lengths, under any limit that admits them. */
  lemma MadeIsDyadic(freqs: seq<nat>, lens: seq<nat>, made: seq<nat>, top: nat, full: nat, max: nat)
    requires Dyadic(freqs, lens, top) && top <= full && CompleteCode(lens, full) && top <= max && |freqs| >= 2
    requires MakeCode.CodeFor(freqs, made, max)
    ensures made == lens
  {
    hide Pow2, Kraft, Cost, Dyadic, Optimal, Feasible, End;
    DyadicUsed(freqs, lens, top);
    AllUsed(freqs, |freqs|);
    KraftIsEnd(lens, full);
    forall best: seq<nat>, m: nat | Optimal(freqs, best) && Feasible(freqs, best, m)
      ensures FitsFor(freqs, best, max)
    {
      DyadicOptimal(freqs, lens, best, top, full, m);
    }
    KraftIsEnd(made, max);
    FeasibleIfFits(freqs, made, max);
    DyadicOptimal(freqs, lens, made, top, full, max);
  }

  // ---- The static codes ----------------------------------------------------------------------

  lemma {:induction false} SumAtMost(s: seq<nat>, lo: nat, most: nat)
    requires lo <= |s| && forall i :: 0 <= i < |s| ==> s[i] <= most
    ensures Sum(s, lo, |s|) <= (|s| - lo) * most
    decreases |s| - lo
  {
    if lo < |s| {
      SumAtMost(s, lo + 1, most);
      assert (|s| - lo) * most == (|s| - lo - 1) * most + most;
    }
  }

  lemma SmallPowers()
    ensures Pow2(0) == 1 && Pow2(1) == 2 && Pow2(2) == 4 && Pow2(14) == 16384 && Pow2(15) == 32768
  {
  }

  /** Frequencies within what making codes asks for. */
  lemma FewAndSmall(freqs: seq<nat>)
    requires |freqs| <= 288 && forall s :: 0 <= s < |freqs| ==> 0 < freqs[s] <= 4
    ensures Sum(freqs, 0, |freqs|) < 0x40_0000 && Used(freqs, |freqs|) <= Pow2(14) && Used(freqs, |freqs|) <= Pow2(15)
  {
    SumAtMost(freqs, 0, 4);
    AllUsed(freqs, |freqs|);
    SmallPowers();
  }

  /** The frequencies that deflate_init_static_codes sets up. */
  function LitlenFreq(s: nat): nat { if s < 144 then 2 else if s < 256 then 1 else if s < 280 then 4 else 2 }

  lemma StaticIsDyadic(litlen: seq<nat>, offset: seq<nat>)
    requires |litlen| == NUM_LITLEN_SYMS && |offset| == NUM_OFFSET_SYMS
    requires forall s: nat :: s < |litlen| ==> litlen[s] == LitlenFreq(s)
    requires forall s :: 0 <= s < |offset| ==> offset[s] == 1
    ensures Dyadic(litlen, StaticCodes().litlen, 9) && Dyadic(offset, StaticCodes().offset, 5)
  {
    hide Pow2, StaticCodes;
    SmallPowers();
  }

  method SetFreqs(freqs: array<nat>, from: nat, to: nat, v: nat)
    requires from <= to <= freqs.Length
    modifies freqs
    ensures forall s :: 0 <= s < freqs.Length ==> freqs[s] == if from <= s < to then v else old(freqs[s])
  {
    for i := from to to
      invariant forall s :: 0 <= s < freqs.Length ==> freqs[s] == if from <= s < i then v else old(freqs[s])
    {
      freqs[i] := v;
    }
  }

  /** deflate_init_static_codes: the codes made are those of the format, and the tables are what static blocks are
      written with. */
  method InitStaticCodes() returns (t: Tables)
    ensures GoodTables(t) && t.codes == t.lens == StaticCodes()
  {
    hide Pow2, MakeCode.CodeFor, Sum, Used, StaticCodes, Dyadic, Reverses, CompleteCode, GoodTables;
    var litlen, offset := new nat[NUM_LITLEN_SYMS], new nat[NUM_OFFSET_SYMS];
    SetFreqs(litlen, 0, 144, 2);
    SetFreqs(litlen, 144, 256, 1);
    SetFreqs(litlen, 256, 280, 4);
    SetFreqs(litlen, 280, 288, 2);
    SetFreqs(offset, 0, 32, 1);
    FewAndSmall(litlen[..]);
    FewAndSmall(offset[..]);
    var codes, litlenWords, offsetWords := FlushBlock.MakeHuffmanCodes(litlen, offset);
    StaticIsDyadic(litlen[..], offset[..]);
    Inflate.StaticIsComplete();
    MadeIsDyadic(litlen[..], StaticCodes().litlen, codes.litlen, 9, 15, MAX_LITLEN_CODEWORD_LEN);
    MadeIsDyadic(offset[..], StaticCodes().offset, codes.offset, 5, 15, DeflateStream.MAX_CODEWORD_LEN);
    t := Tables(codes, codes, litlenWords, offsetWords);
    FlushBlock.TablesAreGood(t);
  }
}
