/** Run-length coding of codeword lengths (RFC 1951 section 3.2.7): the compressor's items, and their expansion. */
module PrecodeItems {

  const NUM_PRECODE_SYMS: nat := 19
  const MAX_LENS_OVERRUN: nat := 137

  /** A length below 16, or a run: 16 repeats the previous length, 17 and 18 repeat zero; extra is added to the
      least count of the run. */
  datatype Item = Item(sym: nat, extra: nat)

  predicate ValidItem(item: Item) {
    match item.sym
    case 16 => item.extra < 4
    case 17 => item.extra < 8
    case 18 => item.extra < 128
    case _ => item.sym < 16 && item.extra == 0
  }

  function Repeated(v: nat, n: nat): (r: seq<nat>)
    ensures |r| == n && forall i :: 0 <= i < n ==> r[i] == v
  {
    if n == 0 then [] else Repeated(v, n - 1) + [v]
  }

  /** Number of lengths an item stands for. */
  function Count(item: Item): nat {
    match item.sym
    case 16 => 3 + item.extra
    case 17 => 3 + item.extra
    case 18 => 11 + item.extra
    case _ => 1
  }

  predicate Applicable(out: seq<nat>, item: Item) { ValidItem(item) && (item.sym == 16 ==> out != []) }

  function Value(out: seq<nat>, item: Item): nat
    requires Applicable(out, item)
  {
    match item.sym
    case 16 => out[|out| - 1]
    case 17 => 0
    case 18 => 0
    case _ => item.sym
  }

  /** The lengths after one more item. */
  function Apply(out: seq<nat>, item: Item): seq<nat>
    requires Applicable(out, item)
  {
    out + Repeated(Value(out, item), Count(item))
  }

  predicate Runnable(items: seq<Item>)
    decreases |items|, 0
  {
    items == [] || (Runnable(items[..|items| - 1]) && Applicable(Run(items[..|items| - 1]), items[|items| - 1]))
  }

  /** The lengths that the items stand for. */
  function Run(items: seq<Item>): seq<nat>
    requires Runnable(items)
    decreases |items|, 1
  {
    if items == [] then [] else Apply(Run(items[..|items| - 1]), items[|items| - 1])
  }

  lemma RunMore(items: seq<Item>, item: Item)
    requires Runnable(items) && Applicable(Run(items), item)
    ensures Runnable(items + [item]) && Run(items + [item]) == Apply(Run(items), item)
  {
    assert (items + [item])[..|items|] == items;
  }

  function SymCount(items: seq<Item>, s: nat): nat {
    if items == [] then 0 else SymCount(items[..|items| - 1], s) + (if items[|items| - 1].sym == s then 1 else 0)
  }

  lemma SymCountMore(items: seq<Item>, item: Item, s: nat)
    ensures SymCount(items + [item], s) == SymCount(items, s) + if item.sym == s then 1 else 0
  {
    assert (items + [item])[..|items|] == items;
  }

  ghost predicate Tallied(freqs: seq<nat>, items: seq<Item>) {
    |freqs| == NUM_PRECODE_SYMS && forall s: nat :: s < NUM_PRECODE_SYMS ==> freqs[s] == SymCount(items, s)
  }

  // ---- Which items -------------------------------------------------------------------------

  /** The length once for each of n symbols. */
  function Singles(len: nat, n: nat): (r: seq<Item>)
    ensures |r| == n
  {
    if n == 0 then [] else [Item(len, 0)] + Singles(len, n - 1)
  }

  /** n zeroes: by up to 138 while there are eleven or more, then by up to ten if there are three or more. */
  function ZeroItems(n: nat): seq<Item> {
    if n >= 11 then [Item(18, Min(n - 11, 127))] + ZeroItems(n - 11 - Min(n - 11, 127))
    else if n >= 3 then [Item(17, n - 3)]
    else Singles(0, n)
  }

  /** n repetitions of a length that has been given: by up to six while there are three or more. */
  function RepeatItems(len: nat, n: nat): seq<Item> {
    if n >= 3 then [Item(16, Min(n - 3, 3))] + RepeatItems(len, n - 3 - Min(n - 3, 3)) else Singles(len, n)
  }

  /** A run of n equal lengths. */
  function RunItems(len: nat, n: nat): seq<Item> {
    if len == 0 then ZeroItems(n) else if n >= 4 then [Item(len, 0)] + RepeatItems(len, n - 1) else Singles(len, n)
  }

  /** How many of the first lengths are equal. */
  function FirstRun(lens: seq<nat>): (n: nat)
    requires lens != []
    ensures 1 <= n <= |lens| && (forall i :: 0 <= i < n ==> lens[i] == lens[0]) && (n < |lens| ==> lens[n] != lens[0])
  {
    if |lens| == 1 || lens[1] != lens[0] then 1 else 1 + FirstRun(lens[1..])
  }

  /** Run after run. */
  function ItemsFor(lens: seq<nat>): seq<Item> {
    if lens == [] then [] else RunItems(lens[0], FirstRun(lens)) + ItemsFor(lens[FirstRun(lens)..])
  }

  /** How few items a run takes. */
  lemma {:induction false} ZeroItemsSize(n: nat)
    ensures |ZeroItems(n)| == n / 138 + (if n % 138 >= 3 then 1 else n % 138)
  {
    if n >= 138 { ZeroItemsSize(n - 138); }
  }

  lemma {:induction false} RepeatItemsSize(len: nat, n: nat)
    ensures |RepeatItems(len, n)| == n / 6 + (if n % 6 >= 3 then 1 else n % 6)
  {
    if n >= 6 { RepeatItemsSize(len, n - 6); }
  }

  /** A run of zeroes takes one item for each 138 and one for the rest, or one for each of one or two; a run of another length
      takes one item, one for each further six and one for the rest, or one for each of one or two; up to three lengths are
      not worth a repetition. */
  lemma RunItemsSize(len: nat, n: nat)
    ensures len == 0 ==> |RunItems(len, n)| == n / 138 + (if n % 138 >= 3 then 1 else n % 138)
    ensures len > 0 && n >= 4 ==> |RunItems(len, n)| == 1 + (n - 1) / 6 + (if (n - 1) % 6 >= 3 then 1 else (n - 1) % 6)
    ensures len > 0 && n < 4 ==> |RunItems(len, n)| == n
  {
    ZeroItemsSize(n);
    if n >= 4 { RepeatItemsSize(len, n - 1); }
  }

  lemma SinglesFirst(items: seq<Item>, len: nat, n: nat)
    requires n > 0
    ensures items + [Item(len, 0)] + Singles(len, n - 1) == items + Singles(len, n)
  {
  }

  lemma FirstRunIs(lens: seq<nat>, a: nat, b: nat)
    requires a < b <= |lens| && Constant(lens, a, b, lens[a]) && (b < |lens| ==> lens[b] != lens[a])
    ensures ItemsFor(lens[a..]) == RunItems(lens[a], b - a) + ItemsFor(lens[b..])
  {
    var rest := lens[a..];
    var n := FirstRun(rest);
    assert n < |rest| ==> rest[n] == lens[a + n];
    assert b < |lens| ==> rest[b - a] == lens[b];
    assert rest[n..] == lens[b..];
  }

  lemma Regrouped(items: seq<Item>, run: seq<Item>, rest: seq<Item>)
    ensures items + (run + rest) == items + run + rest
  {
  }

  function Min(a: nat, b: nat): nat { if a < b then a else b }

  // ---- The compressor ----------------------------------------------------------------------

  /** Cells from a up to b hold v. */
  predicate Constant(lens: seq<nat>, a: nat, b: nat, v: nat) { b <= |lens| && forall i :: a <= i < b ==> lens[i] == v }

  /** The items so far stand for the first n lengths. */
  ghost predicate Encodes(items: seq<Item>, freqs: seq<nat>, lens: seq<nat>, n: nat) {
    n <= |lens| && Runnable(items) && Run(items) == lens[..n] && Tallied(freqs, items)
  }

  /** One more item, for the cells from n on. */
  lemma EncodesMore(items: seq<Item>, freqs: seq<nat>, lens: seq<nat>, n: nat, item: Item, v: nat)
    requires Encodes(items, freqs, lens, n) && ValidItem(item) && Constant(lens, n, n + Count(item), v)
    requires if item.sym < 16 then v == item.sym else if item.sym == 16 then n > 0 && lens[n - 1] == v else v == 0
    requires n + Count(item) <= |lens|
    ensures item.sym < |freqs| && Encodes(items + [item], freqs[item.sym := freqs[item.sym] + 1], lens, n + Count(item))
  {
    hide SymCount;
    RunMore(items, item);
    assert lens[..n + Count(item)] == lens[..n] + Repeated(v, Count(item));
    forall s: nat | s < NUM_PRECODE_SYMS
      ensures freqs[item.sym := freqs[item.sym] + 1][s] == SymCount(items + [item], s)
    {
      SymCountMore(items, item, s);
    }
  }

  /** Adds an item and counts its symbol. */
  method Emit(items: seq<Item>, freqs: array<nat>, sym: nat, extra: nat, ghost lens: seq<nat>, ghost n: nat, ghost v: nat)
    returns (more: seq<Item>)
    requires Encodes(items, freqs[..], lens, n) && ValidItem(Item(sym, extra)) && Constant(lens, n, n + Count(Item(sym, extra)), v)
    requires if sym < 16 then v == sym else if sym == 16 then n > 0 && lens[n - 1] == v else v == 0
    modifies freqs
    ensures more == items + [Item(sym, extra)] && Encodes(more, freqs[..], lens, n + Count(Item(sym, extra)))
  {
    EncodesMore(items, freqs[..], lens, n, Item(sym, extra), v);
    ghost var before := freqs[..];
    freqs[sym] := freqs[sym] + 1;
    assert freqs[..] == before[sym := before[sym] + 1];
    more := items + [Item(sym, extra)];
  }

  /** A run of zeroes, as far as runs of at least three go. */
  method EmitZeroes(items0: seq<Item>, freqs: array<nat>, runStart0: nat, runEnd: nat, ghost lens: seq<nat>)
    returns (items: seq<Item>, runStart: nat)
    requires runStart0 <= runEnd && Encodes(items0, freqs[..], lens, runStart0) && Constant(lens, runStart0, runEnd, 0)
    modifies freqs
    ensures runStart0 <= runStart <= runEnd && Encodes(items, freqs[..], lens, runStart)
    ensures items + Singles(0, runEnd - runStart) == items0 + ZeroItems(runEnd - runStart0)
  {
    hide Encodes;
    items, runStart := items0, runStart0;
    while runEnd - runStart >= 11
      invariant runStart0 <= runStart <= runEnd && Encodes(items, freqs[..], lens, runStart)
      invariant items + ZeroItems(runEnd - runStart) == items0 + ZeroItems(runEnd - runStart0)
    {
      var extra := Min(runEnd - runStart - 11, 0x7F);
      Regrouped(items, [Item(18, extra)], ZeroItems(runEnd - runStart - 11 - extra));
      items := Emit(items, freqs, 18, extra, lens, runStart, 0);
      runStart := runStart + 11 + extra;
    }
    if runEnd - runStart >= 3 {
      var extra := Min(runEnd - runStart - 3, 0x7);
      items := Emit(items, freqs, 17, extra, lens, runStart, 0);
      runStart := runStart + 3 + extra;
    }
  }

  /** A run of a nonzero length: the length itself once, then repetitions of it. */
  method EmitRepeats(items0: seq<Item>, freqs: array<nat>, len: nat, runStart0: nat, runEnd: nat, ghost lens: seq<nat>)
    returns (items: seq<Item>, runStart: nat)
    requires runStart0 <= runEnd && len < 16 && Encodes(items0, freqs[..], lens, runStart0) && Constant(lens, runStart0, runEnd, len)
    modifies freqs
    ensures runStart0 <= runStart <= runEnd && Encodes(items, freqs[..], lens, runStart)
    ensures len > 0 ==> items + Singles(len, runEnd - runStart) == items0 + RunItems(len, runEnd - runStart0)
  {
    hide Encodes, RepeatItems, RunItems, Singles;
    items, runStart := items0, runStart0;
    RunFirst(len, runEnd - runStart);
    if runEnd - runStart >= 4 {
      Regrouped(items, [Item(len, 0)], RepeatItems(len, runEnd - runStart - 1));
      items := Emit(items, freqs, len, 0, lens, runStart, len);
      runStart := runStart + 1;
      var again := true;
      while again
        invariant runStart0 < runStart <= runEnd && Encodes(items, freqs[..], lens, runStart)
        invariant again <==> runEnd - runStart >= 3
        invariant len > 0 ==> items + RepeatItems(len, runEnd - runStart) == items0 + RunItems(len, runEnd - runStart0)
        decreases runEnd - runStart
      {
        var extra := Min(runEnd - runStart - 3, 0x3);
        RepeatFirst(len, runEnd - runStart);
        Regrouped(items, [Item(16, extra)], RepeatItems(len, runEnd - runStart - 3 - extra));
        items := Emit(items, freqs, 16, extra, lens, runStart, len);
        runStart := runStart + 3 + extra;
        again := runEnd - runStart >= 3;
      }
      RepeatFirst(len, runEnd - runStart);
    }
  }

  lemma RepeatFirst(len: nat, n: nat)
    ensures n >= 3 ==> RepeatItems(len, n) == [Item(16, Min(n - 3, 3))] + RepeatItems(len, n - 3 - Min(n - 3, 3))
    ensures n < 3 ==> RepeatItems(len, n) == Singles(len, n)
  {
  }

  lemma RunFirst(len: nat, n: nat)
    ensures len > 0 && n >= 4 ==> RunItems(len, n) == [Item(len, 0)] + RepeatItems(len, n - 1)
    ensures len > 0 && n < 4 ==> RunItems(len, n) == Singles(len, n)
  {
  }

  /** The end of the run that starts here. */
  method RunEnd(lens: seq<nat>, runStart: nat) returns (runEnd: nat)
    requires runStart < |lens|
    ensures runStart < runEnd <= |lens| && Constant(lens, runStart, runEnd, lens[runStart])
    ensures runEnd < |lens| ==> lens[runEnd] != lens[runStart]
  {
    runEnd := runStart + 1;
    while runEnd != |lens| && lens[runStart] == lens[runEnd]
      invariant runStart < runEnd <= |lens| && Constant(lens, runStart, runEnd, lens[runStart])
    {
      runEnd := runEnd + 1;
    }
  }

  /** One run: repetitions first, then what they leave. */
  method NextRun(items0: seq<Item>, lens: seq<nat>, freqs: array<nat>, runStart0: nat) returns (items: seq<Item>, runEnd: nat)
    requires runStart0 < |lens| && lens[runStart0] < 16 && Encodes(items0, freqs[..], lens, runStart0)
    modifies freqs
    ensures runStart0 < runEnd <= |lens| && Constant(lens, runStart0, runEnd, lens[runStart0]) && (runEnd < |lens| ==> lens[runEnd] != lens[runStart0])
    ensures Encodes(items, freqs[..], lens, runEnd) && items == items0 + RunItems(lens[runStart0], runEnd - runStart0)
  {
    hide Encodes, RunItems, Singles;
    var len := lens[runStart0];
    runEnd := RunEnd(lens, runStart0);
    ghost var until := items0 + RunItems(len, runEnd - runStart0);
    ZeroRun(runEnd - runStart0);
    var runStart;
    if len == 0 {
      items, runStart := EmitZeroes(items0, freqs, runStart0, runEnd, lens);
    } else {
      items, runStart := EmitRepeats(items0, freqs, len, runStart0, runEnd, lens);
    }
    while runStart != runEnd
      invariant runStart0 <= runStart <= runEnd && Encodes(items, freqs[..], lens, runStart)
      invariant items + Singles(len, runEnd - runStart) == until
      decreases runEnd - runStart
    {
      SinglesFirst(items, len, runEnd - runStart);
      items := Emit(items, freqs, len, 0, lens, runStart, len);
      runStart := runStart + 1;
    }
    NoSingle(items, len);
  }

  /** deflate_compute_precode_items: the items stand for exactly the given lengths, and each is counted once. */
  method ComputePrecodeItems(lens: seq<nat>, freqs: array<nat>) returns (items: seq<Item>)
    requires |lens| > 0 && freqs.Length == NUM_PRECODE_SYMS && forall i :: 0 <= i < |lens| ==> lens[i] < 16
    modifies freqs
    ensures Runnable(items) && Run(items) == lens && Tallied(freqs[..], items) && items == ItemsFor(lens)
  {
    for s := 0 to NUM_PRECODE_SYMS
      invariant forall r :: 0 <= r < s ==> freqs[r] == 0
    {
      freqs[s] := 0;
    }
    items := [];
    var runStart := 0;
    assert lens[0..] == lens;
    while runStart != |lens|
      invariant 0 <= runStart <= |lens| && Encodes(items, freqs[..], lens, runStart)
      invariant items + ItemsFor(lens[runStart..]) == ItemsFor(lens)
    {
      hide Encodes, ItemsFor, RunItems;
      var more, runEnd := NextRun(items, lens, freqs, runStart);
      FirstRunIs(lens, runStart, runEnd);
      Regrouped(items, RunItems(lens[runStart], runEnd - runStart), ItemsFor(lens[runEnd..]));
      items, runStart := more, runEnd;
    }
    Finished(items, freqs[..], lens);
    assert lens[|lens|..] == [];
  }

  lemma ZeroRun(n: nat)
    ensures RunItems(0, n) == ZeroItems(n)
  {
  }

  lemma NoSingle(items: seq<Item>, len: nat)
    ensures items + Singles(len, 0) == items
  {
  }

  lemma Finished(items: seq<Item>, freqs: seq<nat>, lens: seq<nat>)
    requires Encodes(items, freqs, lens, |lens|)
    ensures Runnable(items) && Run(items) == lens && Tallied(freqs, items)
  {
    assert lens[..|lens|] == lens;
  }
}
