/** The predicted cost of a block is the number of bits it takes. */
module BlockCost {
  import opened BitFields
  import opened DeflateSymbols
  import opened BlockItems
  import PrecodeItems
  import CodeLengths
  import DynamicHeader

  /** Sum of the products of the first n entries. */
  function Dot(f: seq<nat>, w: seq<nat>, n: nat): nat
    requires n <= |f| && n <= |w|
  {
    if n == 0 then 0 else Dot(f, w, n - 1) + f[n - 1] * w[n - 1]
  }

  lemma {:induction false} DotBump(f: seq<nat>, w: seq<nat>, n: nat, s: nat)
    requires n <= |f| && n <= |w| && s < |f|
    ensures Dot(f[s := f[s] + 1], w, n) == Dot(f, w, n) + if s < n then w[s] else 0
  {
    if n > 0 {
      DotBump(f, w, n - 1, s);
      if s == n - 1 { assert (f[s] + 1) * w[s] == f[s] * w[s] + w[s]; }
    }
  }

  lemma {:induction false} DotZero(f: seq<nat>, w: seq<nat>, n: nat)
    requires n <= |f| && n <= |w| && forall s :: 0 <= s < n ==> f[s] == 0
    ensures Dot(f, w, n) == 0
  {
    if n > 0 { DotZero(f, w, n - 1); }
  }

  // ---- What each symbol costs --------------------------------------------------------------

  /** Codeword length and extra bits of each literal/length symbol, and of each offset symbol. */
  function LitlenWeights(lens: seq<nat>): (w: seq<nat>)
    requires |lens| == NUM_LITLEN_SYMS
    ensures |w| == NUM_LITLEN_SYMS && forall s :: 0 <= s < NUM_LITLEN_SYMS ==> w[s] == lens[s] + LengthExtraOf(s)
  {
    seq(NUM_LITLEN_SYMS, s requires 0 <= s < NUM_LITLEN_SYMS => lens[s] + LengthExtraOf(s))
  }

  function OffsetWeights(lens: seq<nat>): (w: seq<nat>)
    requires |lens| == NUM_OFFSET_SYMS
    ensures |w| == NUM_OFFSET_SYMS && forall s :: 0 <= s < NUM_OFFSET_SYMS ==> w[s] == lens[s] + OffsetExtraOf(s)
  {
    seq(NUM_OFFSET_SYMS, s requires 0 <= s < NUM_OFFSET_SYMS => lens[s] + OffsetExtraOf(s))
  }

  function LengthExtraOf(s: nat): nat {
    if END_OF_BLOCK < s && s - END_OF_BLOCK - 1 < |LengthExtra| then LengthExtra[s - END_OF_BLOCK - 1] else 0
  }

  function OffsetExtraOf(s: nat): nat { if s < |OffsetExtra| then OffsetExtra[s] else 0 }

  /** How often each symbol occurs in the items. */
  function LitlenTally(items: seq<Item>): (f: seq<nat>)
    ensures |f| == NUM_LITLEN_SYMS && forall s :: 0 <= s < NUM_LITLEN_SYMS ==> f[s] == LitlenCount(items, s)
  {
    seq(NUM_LITLEN_SYMS, s requires 0 <= s < NUM_LITLEN_SYMS => LitlenCount(items, s))
  }

  function OffsetTally(items: seq<Item>): (f: seq<nat>)
    ensures |f| == NUM_OFFSET_SYMS && forall s :: 0 <= s < NUM_OFFSET_SYMS ==> f[s] == OffsetCount(items, s)
  {
    seq(NUM_OFFSET_SYMS, s requires 0 <= s < NUM_OFFSET_SYMS => OffsetCount(items, s))
  }

  /** The bits of one item are the weights of its symbols. */
  lemma ItemWeight(codes: Codes, item: Item, before: nat)
    requires |codes.litlen| == NUM_LITLEN_SYMS && |codes.offset| == NUM_OFFSET_SYMS && ValidItem(item, before)
    ensures LitlenSymbol(item) < NUM_LITLEN_SYMS && -1 <= OffsetSymbolOf(item) < NUM_OFFSET_SYMS
    ensures |ItemBits(codes, item, before)| == LitlenWeights(codes.litlen)[LitlenSymbol(item)]
      + if OffsetSymbolOf(item) >= 0 then OffsetWeights(codes.offset)[OffsetSymbolOf(item)] else 0
  {
    hide CodeBits, ToBits, LengthSlot, OffsetSlot, LengthBase, OffsetBase, Contiguous, LengthExtra, OffsetExtra;
    if item.Match? {
      LengthFits(item.length);
      OffsetFits(item.offset);
    }
  }

  /** Summing over the items or over the symbols comes to the same. */
  lemma {:induction false} ItemsWeight(codes: Codes, items: seq<Item>, before: nat)
    requires |codes.litlen| == NUM_LITLEN_SYMS && |codes.offset| == NUM_OFFSET_SYMS && ValidItems(items, before)
    ensures |ItemsBits(codes, items, before)|
         == Dot(LitlenTally(items), LitlenWeights(codes.litlen), NUM_LITLEN_SYMS) + Dot(OffsetTally(items), OffsetWeights(codes.offset), NUM_OFFSET_SYMS)
    decreases |items|
  {
    hide ItemBits, LitlenSymbol, OffsetSymbolOf, LitlenWeights, OffsetWeights;
    var w, v := LitlenWeights(codes.litlen), OffsetWeights(codes.offset);
    if items == [] {
      DotZero(LitlenTally(items), w, NUM_LITLEN_SYMS);
      DotZero(OffsetTally(items), v, NUM_OFFSET_SYMS);
    } else {
      var item, rest := items[0], items[1..];
      ItemWeight(codes, item, before);
      ItemsWeight(codes, rest, before + Size(item));
      var s, o := LitlenSymbol(item), OffsetSymbolOf(item);
      DotBump(LitlenTally(rest), w, NUM_LITLEN_SYMS, s);
      assert LitlenTally(items) == LitlenTally(rest)[s := LitlenTally(rest)[s] + 1];
      if o >= 0 {
        DotBump(OffsetTally(rest), v, NUM_OFFSET_SYMS, o);
        assert OffsetTally(items) == OffsetTally(rest)[o := OffsetTally(rest)[o] + 1];
      } else {
        assert OffsetTally(items) == OffsetTally(rest);
      }
    }
  }

  /** The body of a block takes as many bits as its tally, the end of the block included, says. */
  lemma BodyCost(codes: Codes, items: seq<Item>, before: nat, litlen: seq<nat>, offset: seq<nat>)
    requires |codes.litlen| == NUM_LITLEN_SYMS && |codes.offset| == NUM_OFFSET_SYMS && ValidItems(items, before)
    requires TallyOf(items, litlen, offset)
    ensures |BlockBits(codes, items, before)|
         == Dot(litlen, LitlenWeights(codes.litlen), NUM_LITLEN_SYMS) + Dot(offset, OffsetWeights(codes.offset), NUM_OFFSET_SYMS)
  {
    hide ItemsBits, LitlenCount, OffsetCount;
    ItemsWeight(codes, items, before);
    DotBump(LitlenTally(items), LitlenWeights(codes.litlen), NUM_LITLEN_SYMS, END_OF_BLOCK);
    assert litlen == LitlenTally(items)[END_OF_BLOCK := LitlenTally(items)[END_OF_BLOCK] + 1];
    assert offset == OffsetTally(items);
  }

  // ---- The header --------------------------------------------------------------------------

  function PrecodeWeights(lens: seq<nat>): (w: seq<nat>)
    requires |lens| == PrecodeItems.NUM_PRECODE_SYMS
    ensures |w| == PrecodeItems.NUM_PRECODE_SYMS && forall s :: 0 <= s < |w| ==> w[s] == lens[s] + CodeLengths.ExtraBits(s)
  {
    seq(PrecodeItems.NUM_PRECODE_SYMS, s requires 0 <= s < PrecodeItems.NUM_PRECODE_SYMS => lens[s] + CodeLengths.ExtraBits(s))
  }

  function PrecodeTally(items: seq<PrecodeItems.Item>): (f: seq<nat>)
    ensures |f| == PrecodeItems.NUM_PRECODE_SYMS && forall s :: 0 <= s < |f| ==> f[s] == PrecodeItems.SymCount(items, s)
  {
    seq(PrecodeItems.NUM_PRECODE_SYMS, s requires 0 <= s < PrecodeItems.NUM_PRECODE_SYMS => PrecodeItems.SymCount(items, s))
  }

  lemma {:induction false} SymCountFront(item: PrecodeItems.Item, rest: seq<PrecodeItems.Item>, s: nat)
    ensures PrecodeItems.SymCount([item] + rest, s) == PrecodeItems.SymCount(rest, s) + if item.sym == s then 1 else 0
  {
    if rest == [] {
      PrecodeItems.SymCountMore([], item, s);
      assert [] + [item] == [item] + rest;
    } else {
      var front, last := rest[..|rest| - 1], rest[|rest| - 1];
      SymCountFront(item, front, s);
      PrecodeItems.SymCountMore([item] + front, last, s);
      PrecodeItems.SymCountMore(front, last, s);
      assert [item] + front + [last] == [item] + rest && front + [last] == rest;
    }
  }

  lemma {:induction false} PrecodeWeight(lens: seq<nat>, items: seq<PrecodeItems.Item>)
    requires |lens| == PrecodeItems.NUM_PRECODE_SYMS && forall k :: 0 <= k < |items| ==> PrecodeItems.ValidItem(items[k])
    ensures |DynamicHeader.ItemsBits(lens, items)| == Dot(PrecodeTally(items), PrecodeWeights(lens), PrecodeItems.NUM_PRECODE_SYMS)
  {
    var w := PrecodeWeights(lens);
    if items == [] {
      DotZero(PrecodeTally(items), w, PrecodeItems.NUM_PRECODE_SYMS);
    } else {
      var item, rest := items[0], items[1..];
      assert items == [item] + rest;
      PrecodeWeight(lens, rest);
      DotBump(PrecodeTally(rest), w, PrecodeItems.NUM_PRECODE_SYMS, item.sym);
      forall s | 0 <= s < PrecodeItems.NUM_PRECODE_SYMS
        ensures PrecodeTally(items)[s] == PrecodeTally(rest)[item.sym := PrecodeTally(rest)[item.sym] + 1][s]
      {
        SymCountFront(item, rest, s);
      }
      assert PrecodeTally(items) == PrecodeTally(rest)[item.sym := PrecodeTally(rest)[item.sym] + 1];
    }
  }

  /** The header takes fourteen bits, three for each explicit length, and those of its items. */
  lemma HeaderCost(h: DynamicHeader.Header, freqs: seq<nat>)
    requires DynamicHeader.GoodHeader(h) && PrecodeItems.Tallied(freqs, h.items)
    ensures |h.preLens| == PrecodeItems.NUM_PRECODE_SYMS && forall k :: 0 <= k < |h.items| ==> PrecodeItems.ValidItem(h.items[k])
    ensures |DynamicHeader.HeaderBits(h)| == 5 + 5 + 4 + 3 * h.numExplicit + Dot(freqs, PrecodeWeights(h.preLens), PrecodeItems.NUM_PRECODE_SYMS)
  {
    hide PrecodeItems.SymCount, ToBits;
    PrecodeWeight(h.preLens, h.items);
    assert freqs == PrecodeTally(h.items);
  }
}
