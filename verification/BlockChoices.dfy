/** The literals and matches chosen for a block: the list of runs and matches, and the tally of symbols. */
module BlockChoices {
  import opened BitFields
  import opened DeflateSymbols
  import opened MatchCopy
  import opened BlockItems
  import opened BlockWriter
  import LexOrder

  /** Runs that each end in a match. */
  predicate GoodMatches(seqs: seq<Sequence>, input: seq<Byte>, pos: nat)
    decreases |seqs|
  {
    seqs == [] ||
    (&& pos + seqs[0].litrunlen <= |input|
     && MIN_MATCH_LEN <= seqs[0].length <= MAX_MATCH_LEN && 1 <= seqs[0].offset <= MAX_MATCH_OFFSET
     && seqs[0].lengthSlot == LengthSlot(seqs[0].length) && seqs[0].offsetSymbol == OffsetSlot(seqs[0].offset)
     && GoodMatches(seqs[1..], input, pos + seqs[0].litrunlen + seqs[0].length))
  }

  function Spanned(seqs: seq<Sequence>): (n: nat) {
    if seqs == [] then 0 else seqs[0].litrunlen + seqs[0].length + Spanned(seqs[1..])
  }

  function MatchedItems(seqs: seq<Sequence>, input: seq<Byte>, pos: nat): seq<Item>
    requires GoodMatches(seqs, input, pos)
    decreases |seqs|
  {
    if seqs == [] then []
    else Literals(input, pos, seqs[0].litrunlen) + ([Match(seqs[0].length, seqs[0].offset)]
           + MatchedItems(seqs[1..], input, pos + seqs[0].litrunlen + seqs[0].length))
  }

  /** Each match takes three bytes or more. */
  lemma {:induction false} EnoughRoom(seqs: seq<Sequence>, input: seq<Byte>, pos: nat)
    requires GoodMatches(seqs, input, pos)
    ensures 3 * |seqs| <= Spanned(seqs)
    decreases |seqs|
  {
    if seqs != [] { EnoughRoom(seqs[1..], input, pos + seqs[0].litrunlen + seqs[0].length); }
  }

  /** The last run ends the list. */
  lemma {:induction false} Closed(seqs: seq<Sequence>, last: Sequence, input: seq<Byte>, pos: nat)
    requires GoodMatches(seqs, input, pos) && last.length == 0 && pos + Spanned(seqs) + last.litrunlen <= |input|
    ensures GoodSequences(seqs + [last], input, pos)
    ensures SequenceItems(seqs + [last], input, pos) == MatchedItems(seqs, input, pos) + Literals(input, pos + Spanned(seqs), last.litrunlen)
    decreases |seqs|
  {
    hide Literals, LengthSlot, OffsetSlot;
    if seqs != [] {
      var mid := pos + seqs[0].litrunlen + seqs[0].length;
      Closed(seqs[1..], last, input, mid);
      assert (seqs + [last])[0] == seqs[0] && (seqs + [last])[1..] == seqs[1..] + [last];
      Regroup(Literals(input, pos, seqs[0].litrunlen), Match(seqs[0].length, seqs[0].offset), MatchedItems(seqs[1..], input, mid),
        Literals(input, pos + Spanned(seqs), last.litrunlen));
    } else {
      assert seqs + [last] == [last];
    }
  }

  /** One more run with its match. */
  lemma {:induction false} Longer(seqs: seq<Sequence>, s: Sequence, input: seq<Byte>, pos: nat)
    requires GoodMatches(seqs, input, pos) && GoodMatches([s], input, pos + Spanned(seqs))
    ensures GoodMatches(seqs + [s], input, pos) && Spanned(seqs + [s]) == Spanned(seqs) + s.litrunlen + s.length
    ensures MatchedItems(seqs + [s], input, pos)
            == MatchedItems(seqs, input, pos) + Literals(input, pos + Spanned(seqs), s.litrunlen) + [Match(s.length, s.offset)]
    decreases |seqs|
  {
    hide Literals, LengthSlot, OffsetSlot;
    if seqs != [] {
      var mid := pos + seqs[0].litrunlen + seqs[0].length;
      Longer(seqs[1..], s, input, mid);
      assert (seqs + [s])[0] == seqs[0] && (seqs + [s])[1..] == seqs[1..] + [s];
      var last := Literals(input, pos + Spanned(seqs), s.litrunlen) + [Match(s.length, s.offset)];
      Grouped(MatchedItems(seqs[1..], input, mid), Literals(input, pos + Spanned(seqs), s.litrunlen), [Match(s.length, s.offset)]);
      Regroup(Literals(input, pos, seqs[0].litrunlen), Match(seqs[0].length, seqs[0].offset), MatchedItems(seqs[1..], input, mid), last);
      Grouped(MatchedItems(seqs, input, pos), Literals(input, pos + Spanned(seqs), s.litrunlen), [Match(s.length, s.offset)]);
    } else {
      assert seqs + [s] == [s] && [s][1..] == [];
      assert MatchedItems([s], input, pos) == Literals(input, pos, s.litrunlen) + [Match(s.length, s.offset)];
    }
  }

  lemma Grouped(a: seq<Item>, b: seq<Item>, c: seq<Item>)
    ensures a + b + c == a + (b + c)
  {
  }

  lemma Regroup(a: seq<Item>, m: Item, b: seq<Item>, c: seq<Item>)
    ensures a + ([m] + (b + c)) == (a + ([m] + b)) + c
  {
  }

  lemma {:induction false} OneMoreLiteral(input: seq<Byte>, pos: nat, n: nat)
    requires pos + n < |input|
    ensures Literals(input, pos, n + 1) == Literals(input, pos, n) + [Literal(input[pos + n])]
    decreases n
  {
    if n > 0 { OneMoreLiteral(input, pos + 1, n - 1); }
  }

  // ---- Items at the end of a list ------------------------------------------------------------

  lemma {:induction false} ValidAppend(items: seq<Item>, item: Item, out: seq<Byte>)
    requires ValidItems(items, |out|) && ValidItem(item, |Expand(out, items)|)
    ensures ValidItems(items + [item], |out|) && Expand(out, items + [item]) == Appended(Expand(out, items), item)
    decreases |items|
  {
    hide Appended;
    if items == [] {
      assert items + [item] == [item];
    } else {
      assert (items + [item])[0] == items[0] && (items + [item])[1..] == items[1..] + [item];
      ValidAppend(items[1..], item, Appended(out, items[0]));
    }
  }

  lemma {:induction false} CountAppend(items: seq<Item>, item: Item, s: nat)
    ensures LitlenCount(items + [item], s) == LitlenCount(items, s) + if LitlenSymbol(item) == s then 1 else 0
    ensures OffsetCount(items + [item], s) == OffsetCount(items, s) + if OffsetSymbolOf(item) == s then 1 else 0
    decreases |items|
  {
    hide LitlenSymbol, OffsetSymbolOf;
    if items == [] {
      assert items + [item] == [item];
    } else {
      assert (items + [item])[0] == items[0] && (items + [item])[1..] == items[1..] + [item];
      CountAppend(items[1..], item, s);
    }
  }

  // ---- A block in progress -------------------------------------------------------------------

  /** What the tables of a block hold so far, and the literals since the last match. */
  datatype Chosen = Chosen(seqs: seq<Sequence>, run: nat, litlen: seq<nat>, offset: seq<nat>)

  function Items(c: Chosen, input: seq<Byte>, start: nat): seq<Item>
    requires GoodMatches(c.seqs, input, start) && start + Spanned(c.seqs) + c.run <= |input|
  {
    MatchedItems(c.seqs, input, start) + Literals(input, start + Spanned(c.seqs), c.run)
  }

  /** The items chosen so far. */
  ghost function ItemsOf(c: Chosen, input: seq<Byte>, start: nat): seq<Item> {
    if GoodMatches(c.seqs, input, start) && start + Spanned(c.seqs) + c.run <= |input| then Items(c, input, start) else []
  }

  ghost predicate Counts(items: seq<Item>, litlen: seq<nat>, offset: seq<nat>) {
    && |litlen| == NUM_LITLEN_SYMS && |offset| == NUM_OFFSET_SYMS
    && (forall s: nat | s < NUM_LITLEN_SYMS :: litlen[s] == LitlenCount(items, s))
    && forall s: nat | s < NUM_OFFSET_SYMS :: offset[s] == OffsetCount(items, s)
  }

  /** The choices so far expand to the input from start to next. */
  ghost predicate Covers(c: Chosen, input: seq<Byte>, start: nat, next: nat) {
    && GoodMatches(c.seqs, input, start) && start + Spanned(c.seqs) + c.run == next <= |input|
    && Counts(Items(c, input, start), c.litlen, c.offset)
    && ValidItems(Items(c, input, start), start)
    && Expand(input[..start], Items(c, input, start)) == input[..next]
  }

  lemma NothingChosen(input: seq<Byte>, start: nat, c: Chosen)
    requires start <= |input| && c.seqs == [] && c.run == 0 && |c.litlen| == NUM_LITLEN_SYMS && |c.offset| == NUM_OFFSET_SYMS
    requires (forall s: nat | s < NUM_LITLEN_SYMS :: c.litlen[s] == 0) && forall s: nat | s < NUM_OFFSET_SYMS :: c.offset[s] == 0
    ensures Covers(c, input, start, start) && ItemsOf(c, input, start) == []
  {
  }

  lemma LiteralChosen(c: Chosen, input: seq<Byte>, start: nat, next: nat)
    requires Covers(c, input, start, next) && next < |input|
    ensures Covers(c.(run := c.run + 1, litlen := c.litlen[input[next] := c.litlen[input[next]] + 1]), input, start, next + 1)
    ensures ItemsOf(c.(run := c.run + 1, litlen := c.litlen[input[next] := c.litlen[input[next]] + 1]), input, start) == ItemsOf(c, input, start) + [Literal(input[next])]
  {
    hide Expand, ValidItems, LitlenCount, OffsetCount, Literals;
    var item, items := Literal(input[next]), Items(c, input, start);
    var d := c.(run := c.run + 1, litlen := c.litlen[input[next] := c.litlen[input[next]] + 1]);
    OneMoreLiteral(input, start + Spanned(c.seqs), c.run);
    assert Items(d, input, start) == items + [item];
    ValidAppend(items, item, input[..start]);
    assert Appended(input[..next], item) == input[..next + 1];
    forall s: nat ensures LitlenCount(items + [item], s) == LitlenCount(items, s) + if LitlenSymbol(item) == s then 1 else 0
      ensures OffsetCount(items + [item], s) == OffsetCount(items, s)
    { CountAppend(items, item, s); }
  }

  function MatchSequence(run: nat, length: nat, offset: nat): Sequence {
    if MIN_MATCH_LEN <= length <= MAX_MATCH_LEN && 1 <= offset <= MAX_MATCH_OFFSET then
      Sequence(run, length, offset, LengthSlot(length), OffsetSlot(offset))
    else Sequence(run, length, offset, 0, 0)
  }

  /** The tables after a match has been chosen. */
  function WithMatch(c: Chosen, length: nat, offset: nat): Chosen
    requires MIN_MATCH_LEN <= length <= MAX_MATCH_LEN && 1 <= offset <= MAX_MATCH_OFFSET
    requires |c.litlen| == NUM_LITLEN_SYMS && |c.offset| == NUM_OFFSET_SYMS
  {
    LengthFits(length);
    OffsetFits(offset);
    var l, o := END_OF_BLOCK + 1 + LengthSlot(length), OffsetSlot(offset);
    Chosen(c.seqs + [MatchSequence(c.run, length, offset)], 0, c.litlen[l := c.litlen[l] + 1], c.offset[o := c.offset[o] + 1])
  }

  /** A match with equal bytes earlier in the input goes on expanding to the input. */
  lemma MatchExpands(input: seq<Byte>, next: nat, length: nat, offset: nat)
    requires 1 <= offset <= next && next + length <= |input| && LexOrder.Agree(input, next - offset, next, length)
    ensures Extended(input[..next], length, offset) == input[..next + length]
  {
    forall k | next <= k < next + length ensures input[k] == input[k - offset] {
      assert LexOrder.At(input, next - offset, k - next) == LexOrder.At(input, next, k - next);
    }
    RepeatsIsExtended(input, next, length, offset);
  }

  lemma MatchChosen(c: Chosen, input: seq<Byte>, start: nat, next: nat, length: nat, offset: nat)
    requires Covers(c, input, start, next) && next + length <= |input|
    requires MIN_MATCH_LEN <= length <= MAX_MATCH_LEN && 1 <= offset <= MAX_MATCH_OFFSET && offset <= next
    requires LexOrder.Agree(input, next - offset, next, length)
    ensures Covers(WithMatch(c, length, offset), input, start, next + length)
    ensures ItemsOf(WithMatch(c, length, offset), input, start) == ItemsOf(c, input, start) + [Match(length, offset)]
  {
    hide Expand, ValidItems, LitlenCount, OffsetCount, Literals, GoodMatches, MatchedItems, Spanned, LexOrder.Agree, Extended, LengthSlot, OffsetSlot;
    var item, items := Match(length, offset), Items(c, input, start);
    var s, d := MatchSequence(c.run, length, offset), WithMatch(c, length, offset);
    MatchParts(c.seqs, s, input, start, c.run);
    assert Items(d, input, start) == items + [item];
    MatchExpands(input, next, length, offset);
    ValidAppend(items, item, input[..start]);
    assert Appended(input[..next], item) == input[..next + length];
    forall x: nat ensures LitlenCount(items + [item], x) == LitlenCount(items, x) + if LitlenSymbol(item) == x then 1 else 0
      ensures OffsetCount(items + [item], x) == OffsetCount(items, x) + if OffsetSymbolOf(item) == x then 1 else 0
    { CountAppend(items, item, x); }
  }

  lemma MatchParts(seqs: seq<Sequence>, s: Sequence, input: seq<Byte>, start: nat, run: nat)
    requires GoodMatches(seqs, input, start) && start + Spanned(seqs) + run <= |input| && s == MatchSequence(run, s.length, s.offset)
    requires MIN_MATCH_LEN <= s.length <= MAX_MATCH_LEN && 1 <= s.offset <= MAX_MATCH_OFFSET
    ensures GoodMatches(seqs + [s], input, start) && Spanned(seqs + [s]) == Spanned(seqs) + run + s.length
    ensures MatchedItems(seqs + [s], input, start) == MatchedItems(seqs, input, start) + Literals(input, start + Spanned(seqs), run) + [Match(s.length, s.offset)]
    ensures start + Spanned(seqs + [s]) <= |input| ==> Literals(input, start + Spanned(seqs + [s]), 0) == []
  {
    hide Literals, LengthSlot, OffsetSlot;
    Longer(seqs, s, input, start);
    NoLiteral(input, start + Spanned(seqs + [s]));
  }

  lemma NoLiteral(input: seq<Byte>, pos: nat)
    ensures pos <= |input| ==> Literals(input, pos, 0) == []
  {
  }

  // ---- The compressor's tables ---------------------------------------------------------------

  /** Longest list of matches for a block, and the entry that ends it. */
  const SOFT_MAX_BLOCK_LENGTH: nat := 300000
  const NUM_SEQUENCES: nat := 100001

  /** deflate_reset_symbol_frequencies */
  method ResetFrequencies(litlen: array<nat>, offset: array<nat>)
    requires litlen.Length == NUM_LITLEN_SYMS && offset.Length == NUM_OFFSET_SYMS && litlen != offset
    modifies litlen, offset
    ensures (forall s: nat | s < NUM_LITLEN_SYMS :: litlen[s] == 0) && forall s: nat | s < NUM_OFFSET_SYMS :: offset[s] == 0
  {
    for i := 0 to NUM_LITLEN_SYMS
      invariant forall s: nat | s < i :: litlen[s] == 0
    {
      litlen[i] := 0;
    }
    for i := 0 to NUM_OFFSET_SYMS
      invariant forall s: nat | s < NUM_LITLEN_SYMS :: litlen[s] == 0
      invariant forall s: nat | s < i :: offset[s] == 0
    {
      offset[i] := 0;
    }
  }

  class Compressor {
    const litlenFreqs: array<nat>
    const offsetFreqs: array<nat>
    const sequences: array<Sequence>

    constructor ()
      ensures fresh(litlenFreqs) && fresh(offsetFreqs) && fresh(sequences) && Sized()
    {
      litlenFreqs := new nat[NUM_LITLEN_SYMS];
      offsetFreqs := new nat[NUM_OFFSET_SYMS];
      sequences := new Sequence[NUM_SEQUENCES](_ => Sequence(0, 0, 0, 0, 0));
    }

    predicate Sized() {
      && litlenFreqs.Length == NUM_LITLEN_SYMS && offsetFreqs.Length == NUM_OFFSET_SYMS && sequences.Length == NUM_SEQUENCES
      && litlenFreqs != offsetFreqs
    }

    /** What has been chosen when count sequences are complete. */
    ghost function Choices(count: nat, run: nat): Chosen
      requires Sized() && count <= sequences.Length
      reads litlenFreqs, offsetFreqs, sequences
    {
      Chosen(sequences[..count], run, litlenFreqs[..], offsetFreqs[..])
    }

    /** Nothing is chosen yet. */
    method Reset(ghost input: seq<Byte>, ghost start: nat)
      requires Sized() && start <= |input|
      modifies litlenFreqs, offsetFreqs
      ensures Covers(Choices(0, 0), input, start, start) && ItemsOf(Choices(0, 0), input, start) == []
    {
      hide Covers, ItemsOf;
      ResetFrequencies(litlenFreqs, offsetFreqs);
      NothingChosen(input, start, Choices(0, 0));
    }

    /** deflate_choose_literal */
    method ChooseLiteral(literal: Byte, run: nat, ghost count: nat, ghost input: seq<Byte>, ghost start: nat, ghost next: nat) returns (run': nat)
      requires Sized() && count <= sequences.Length && Covers(Choices(count, run), input, start, next) && next < |input| && literal == input[next]
      modifies litlenFreqs
      ensures Covers(Choices(count, run'), input, start, next + 1)
      ensures ItemsOf(Choices(count, run'), input, start) == old(ItemsOf(Choices(count, run), input, start)) + [Literal(literal)]
    {
      hide Covers, ItemsOf;
      LiteralChosen(Choices(count, run), input, start, next);
      ghost var c := Choices(count, run);
      litlenFreqs[literal] := litlenFreqs[literal] + 1;
      run' := run + 1;
      assert Choices(count, run') == c.(run := run + 1, litlen := c.litlen[literal := c.litlen[literal] + 1]);
    }

    /** deflate_choose_match */
    method ChooseMatch(length: nat, offset: nat, run: nat, count: nat, ghost input: seq<Byte>, ghost start: nat, ghost next: nat)
      returns (run': nat, count': nat)
      requires Sized() && count < sequences.Length && Covers(Choices(count, run), input, start, next) && next + length <= |input|
      requires MIN_MATCH_LEN <= length <= MAX_MATCH_LEN && 1 <= offset <= MAX_MATCH_OFFSET && offset <= next
      requires LexOrder.Agree(input, next - offset, next, length)
      modifies litlenFreqs, offsetFreqs, sequences
      ensures run' == 0 && count' == count + 1 && Covers(Choices(count', run'), input, start, next + length)
      ensures ItemsOf(Choices(count', run'), input, start) == old(ItemsOf(Choices(count, run), input, start)) + [Match(length, offset)]
    {
      hide Covers, ItemsOf, LexOrder.Agree, LengthSlot, OffsetSlot;
      ghost var c := Choices(count, run);
      MatchChosen(c, input, start, next, length, offset);
      LengthFits(length);
      OffsetFits(offset);
      var l, o := END_OF_BLOCK + 1 + LengthSlot(length), OffsetSlot(offset);
      litlenFreqs[l] := litlenFreqs[l] + 1;
      offsetFreqs[o] := offsetFreqs[o] + 1;
      sequences[count] := Sequence(run, length, offset, LengthSlot(length), o);
      run', count' := 0, count + 1;
      assert sequences[..count'] == c.seqs + [MatchSequence(run, length, offset)];
      assert Choices(count', run') == WithMatch(c, length, offset);
    }

    /** deflate_finish_sequence, and the count of the end of the block when the block is flushed. */
    method Finish(run: nat, count: nat, ghost input: seq<Byte>, ghost start: nat, ghost next: nat)
      requires Sized() && count < sequences.Length && Covers(Choices(count, run), input, start, next)
      modifies litlenFreqs, sequences
      ensures Finished(sequences[..count + 1], litlenFreqs[..], offsetFreqs[..], input, start, next)
      ensures SequenceItems(sequences[..count + 1], input, start) == old(ItemsOf(Choices(count, run), input, start))
    {
      hide Covers, ItemsOf;
      ghost var c := Choices(count, run);
      sequences[count] := sequences[count].(litrunlen := run, length := 0);
      litlenFreqs[END_OF_BLOCK] := litlenFreqs[END_OF_BLOCK] + 1;
      assert sequences[..count + 1] == c.seqs + [sequences[count]];
      BlockFinished(c, sequences[count], input, start, next);
      assert litlenFreqs[..] == c.litlen[END_OF_BLOCK := c.litlen[END_OF_BLOCK] + 1];
    }
  }

  /** The items of a block are tallied and expand to the bytes from start to next. */
  ghost predicate FinishedItems(items: seq<Item>, litlen: seq<nat>, offset: seq<nat>, input: seq<Byte>, start: nat, next: nat) {
    && start <= next <= |input| && TallyOf(items, litlen, offset) && ValidItems(items, start) && Expand(input[..start], items) == input[..next]
  }

  /** A finished block: a good list of sequences with such items. */
  ghost predicate Finished(seqs: seq<Sequence>, litlen: seq<nat>, offset: seq<nat>, input: seq<Byte>, start: nat, next: nat) {
    GoodSequences(seqs, input, start) && FinishedItems(SequenceItems(seqs, input, start), litlen, offset, input, start, next)
  }

  lemma BlockFinished(c: Chosen, last: Sequence, input: seq<Byte>, start: nat, next: nat)
    requires Covers(c, input, start, next) && last.length == 0 && last.litrunlen == c.run
    ensures |c.litlen| == NUM_LITLEN_SYMS
    ensures Finished(c.seqs + [last], c.litlen[END_OF_BLOCK := c.litlen[END_OF_BLOCK] + 1], c.offset, input, start, next)
    ensures SequenceItems(c.seqs + [last], input, start) == ItemsOf(c, input, start)
  {
    hide Expand, ValidItems, LitlenCount, OffsetCount, Literals, GoodMatches, MatchedItems, GoodSequences, SequenceItems;
    Closed(c.seqs, last, input, start);
  }
}
