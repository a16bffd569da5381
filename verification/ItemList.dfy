/** The literals and matches of a block as the choices along its cheapest path: what they are, their tally, and writing them. */
module ItemList {
  import opened BitFields
  import opened BitWriter
  import opened DeflateSymbols
  import opened MatchCopy
  import opened BlockItems
  import opened BlockWriter
  import opened BlockChoices
  import MinCostPath
  import LexOrder

  /** A choice: its length, 1 for a literal, and its offset or literal. */
  function ItemOf(choice: nat): Item {
    var length, offset := MinCostPath.ItemLength(choice), MinCostPath.ItemOffset(choice);
    if length == 1 then Literal(offset % 256) else Match(length, offset)
  }

  predicate GoodChoice(choice: nat) {
    var length, offset := MinCostPath.ItemLength(choice), MinCostPath.ItemOffset(choice);
    if length == 1 then offset < 256 else MIN_MATCH_LEN <= length <= MAX_MATCH_LEN && 1 <= offset <= MAX_MATCH_OFFSET
  }

  /** The choices met from i on are good and lead exactly to n. */
  predicate GoodList(choices: seq<nat>, i: nat, n: nat)
    decreases n - i
  {
    i == n || (i < n && i < |choices| && GoodChoice(choices[i]) && GoodList(choices, i + MinCostPath.ItemLength(choices[i]), n))
  }

  function ListItems(choices: seq<nat>, i: nat, n: nat): (r: seq<Item>)
    requires GoodList(choices, i, n)
    decreases n - i
  {
    if i == n then [] else [ItemOf(choices[i])] + ListItems(choices, i + MinCostPath.ItemLength(choices[i]), n)
  }

  lemma ListStep(choices: seq<nat>, i: nat, n: nat)
    requires GoodList(choices, i, n) && i != n
    ensures i < |choices| && ListItems(choices, i, n) != []
    ensures var next := i + MinCostPath.ItemLength(choices[i]);
      && i < next <= n && GoodChoice(choices[i]) && GoodList(choices, next, n)
      && ListItems(choices, i, n)[0] == ItemOf(choices[i]) && ListItems(choices, i, n)[1..] == ListItems(choices, next, n)
  {
  }

  // ---- Tally ---------------------------------------------------------------------------------

  /** deflate_tally_item_list, after the frequencies have been reset. */
  method TallyItemList(choices: seq<nat>, blockLength: nat, litlen: array<nat>, offset: array<nat>)
    requires litlen.Length == NUM_LITLEN_SYMS && offset.Length == NUM_OFFSET_SYMS && litlen != offset
    requires blockLength > 0 && GoodList(choices, 0, blockLength)
    requires (forall s: nat | s < NUM_LITLEN_SYMS :: litlen[s] == 0) && forall s: nat | s < NUM_OFFSET_SYMS :: offset[s] == 0
    modifies litlen, offset
    ensures Counts(ListItems(choices, 0, blockLength), litlen[..], offset[..])
  {
    hide Counts, ListItems, GoodList, GoodChoice, LengthSlot, OffsetSlot;
    ghost var done: seq<Item> := [];
    NothingCounted(litlen[..], offset[..]);
    var i := 0;
    while i != blockLength
      invariant i <= blockLength && GoodList(choices, i, blockLength) && Counts(done, litlen[..], offset[..])
      invariant done + ListItems(choices, i, blockLength) == ListItems(choices, 0, blockLength)
      decreases blockLength - i
    {
      ListStep(choices, i, blockLength);
      var length, value := MinCostPath.ItemLength(choices[i]), MinCostPath.ItemOffset(choices[i]);
      ghost var l0, o0, rest := litlen[..], offset[..], ListItems(choices, i, blockLength);
      ChoiceSymbols(choices[i]);
      CountMore(done, ItemOf(choices[i]), l0, o0);
      if length == 1 {
        litlen[value] := litlen[value] + 1;
      } else {
        litlen[257 + LengthSlot(length)] := litlen[257 + LengthSlot(length)] + 1;
        offset[OffsetSlot(value)] := offset[OffsetSlot(value)] + 1;
      }
      assert rest == [rest[0]] + rest[1..];
      done := done + [ItemOf(choices[i])];
      i := i + length;
    }
    ListEnd(choices, blockLength);
    assert done + [] == done;
  }

  lemma ListEnd(choices: seq<nat>, n: nat)
    ensures GoodList(choices, n, n) && ListItems(choices, n, n) == []
  {
  }

  lemma NothingCounted(litlen: seq<nat>, offset: seq<nat>)
    requires |litlen| == NUM_LITLEN_SYMS && |offset| == NUM_OFFSET_SYMS
    requires (forall s: nat | s < NUM_LITLEN_SYMS :: litlen[s] == 0) && forall s: nat | s < NUM_OFFSET_SYMS :: offset[s] == 0
    ensures Counts([], litlen, offset)
  {
  }

  lemma ChoiceSymbols(choice: nat)
    requires GoodChoice(choice)
    ensures var length, value, item := MinCostPath.ItemLength(choice), MinCostPath.ItemOffset(choice), ItemOf(choice);
      && length >= 1 && LitlenSymbol(item) < NUM_LITLEN_SYMS && -1 <= OffsetSymbolOf(item) < NUM_OFFSET_SYMS
      && (if length == 1 then value < 256 && LitlenSymbol(item) == value && OffsetSymbolOf(item) == -1
          else
            && MIN_MATCH_LEN <= length <= MAX_MATCH_LEN && 1 <= value <= MAX_MATCH_OFFSET
            && LitlenSymbol(item) == 257 + LengthSlot(length) && OffsetSymbolOf(item) == OffsetSlot(value))
  {
    hide LengthSlot, OffsetSlot;
  }

  lemma CountMore(items: seq<Item>, item: Item, litlen: seq<nat>, offset: seq<nat>)
    requires Counts(items, litlen, offset) && LitlenSymbol(item) < NUM_LITLEN_SYMS && -1 <= OffsetSymbolOf(item) < NUM_OFFSET_SYMS
    ensures |litlen| == NUM_LITLEN_SYMS && |offset| == NUM_OFFSET_SYMS
    ensures var l, o := LitlenSymbol(item), OffsetSymbolOf(item);
      Counts(items + [item], litlen[l := litlen[l] + 1], if o >= 0 then offset[o := offset[o] + 1] else offset)
  {
    hide LitlenSymbol, OffsetSymbolOf, LitlenCount, OffsetCount;
    forall s: nat ensures LitlenCount(items + [item], s) == LitlenCount(items, s) + if LitlenSymbol(item) == s then 1 else 0
      ensures OffsetCount(items + [item], s) == OffsetCount(items, s) + if OffsetSymbolOf(item) == s then 1 else 0
    { CountAppend(items, item, s); }
  }

  // ---- Writing -------------------------------------------------------------------------------

  /** deflate_write_item_list: exactly the bits of the items, in order. */
  method WriteItemList(os: OutputBitstream, t: Tables, choices: seq<nat>, blockLength: nat, wordwise: bool, ghost before: nat)
    requires os.Valid() && os.bitcount < 8 && GoodTables(t) && blockLength > 0 && GoodList(choices, 0, blockLength)
    requires |t.codes.litlen| == NUM_LITLEN_SYMS && |t.codes.offset| == NUM_OFFSET_SYMS
    requires ValidItems(ListItems(choices, 0, blockLength), before) && AllEncodable(t.codes, ListItems(choices, 0, blockLength), before)
    modifies os`bitbuf, os`bitcount, os`all, os`next, os.buffer
    ensures os.Valid() && os.bitcount < 8 && os.all == old(os.all) + ItemsBits(t.codes, ListItems(choices, 0, blockLength), before)
  {
    hide OutputBitstream.Valid, GoodTables, GoodList, GoodChoice, ListItems, ValidItems, AllEncodable, ItemBits, LengthSlot, OffsetSlot, ItemsBits;
    ghost var start, whole := os.all, ItemsBits(t.codes, ListItems(choices, 0, blockLength), before);
    ghost var out: nat := before;
    var i := 0;
    while i != blockLength
      invariant i <= blockLength && os.Valid() && os.bitcount < 8 && GoodList(choices, i, blockLength)
      invariant ValidItems(ListItems(choices, i, blockLength), out) && AllEncodable(t.codes, ListItems(choices, i, blockLength), out)
      invariant os.all + ItemsBits(t.codes, ListItems(choices, i, blockLength), out) == start + whole
      decreases blockLength - i
    {
      ListStep(choices, i, blockLength);
      FirstItem(t.codes, ListItems(choices, i, blockLength), out);
      WriteChoice(os, t, choices[i], wordwise, out);
      out := out + Size(ItemOf(choices[i]));
      i := i + MinCostPath.ItemLength(choices[i]);
    }
    ListEnd(choices, blockLength);
    NoBits(t.codes, out);
  }

  lemma NoBits(codes: Codes, before: nat)
    requires |codes.litlen| == NUM_LITLEN_SYMS && |codes.offset| == NUM_OFFSET_SYMS
    ensures ValidItems([], before) && ItemsBits(codes, [], before) == []
  {
  }

  lemma FirstItem(codes: Codes, items: seq<Item>, before: nat)
    requires |codes.litlen| == NUM_LITLEN_SYMS && |codes.offset| == NUM_OFFSET_SYMS && items != []
    requires ValidItems(items, before) && AllEncodable(codes, items, before)
    ensures ValidItem(items[0], before) && Encodable(codes, items[0], before)
    ensures ValidItems(items[1..], before + Size(items[0])) && AllEncodable(codes, items[1..], before + Size(items[0]))
    ensures ItemsBits(codes, items, before) == ItemBits(codes, items[0], before) + ItemsBits(codes, items[1..], before + Size(items[0]))
  {
  }

  method WriteChoice(os: OutputBitstream, t: Tables, choice: nat, wordwise: bool, ghost before: nat)
    requires os.Valid() && os.bitcount < 8 && GoodTables(t) && GoodChoice(choice)
    requires |t.codes.litlen| == NUM_LITLEN_SYMS && |t.codes.offset| == NUM_OFFSET_SYMS
    requires ValidItem(ItemOf(choice), before) && Encodable(t.codes, ItemOf(choice), before)
    modifies os`bitbuf, os`bitcount, os`all, os`next, os.buffer
    ensures os.Valid() && os.bitcount < 8 && os.all == old(os.all) + ItemBits(t.codes, ItemOf(choice), before)
  {
    hide OutputBitstream.Valid, LengthSlot, OffsetSlot, MatchBits, CodeBits;
    var length, value := MinCostPath.ItemLength(choice), MinCostPath.ItemOffset(choice);
    if length == 1 {
      ShortCode(t, value);
      AddSymbol(os, t.codes.litlen, t.lens.litlen, t.litlen, value);
      os.FlushBits(wordwise);
    } else {
      WriteMatch(os, t, length, value, LengthSlot(length), OffsetSlot(value), wordwise);
    }
  }

  lemma ShortCode(t: Tables, s: nat)
    requires GoodTables(t) && s < NUM_LITLEN_SYMS
    ensures s < |t.codes.litlen| && t.codes.litlen[s] <= MAX_LITLEN_CODEWORD_LEN
    ensures Reverses(t.codes.litlen, t.litlen) && Agrees(t.codes.litlen, t.lens.litlen)
  {
  }

  // ---- A path with true matches --------------------------------------------------------------

  /** The position's byte is that of the input, and its matches are matches with earlier bytes. */
  ghost predicate TruePosition(p: MinCostPath.Position, input: seq<Byte>, at: nat) {
    && at < |input| && p.literal == input[at]
    && forall k :: 0 <= k < |p.matches| ==>
         p.matches[k].offset <= at && at + p.matches[k].length <= |input| && LexOrder.Agree(input, at - p.matches[k].offset, at, p.matches[k].length)
  }

  ghost predicate TruePositions(ps: seq<MinCostPath.Position>, input: seq<Byte>, start: nat) {
    forall i :: 0 <= i < |ps| ==> TruePosition(ps[i], input, start + i)
  }

  /** A match that reaches a length is as good as one of that length. */
  lemma {:induction false} OffsetIsTrue(ms: seq<MinCostPath.Entry>, len: nat, input: seq<Byte>, at: nat)
    requires MinCostPath.GoodMatches(ms) && MIN_MATCH_LEN <= len <= MinCostPath.LongestOf(ms)
    requires forall k :: 0 <= k < |ms| ==> ms[k].offset <= at && at + ms[k].length <= |input| && LexOrder.Agree(input, at - ms[k].offset, at, ms[k].length)
    ensures var o := MinCostPath.OffsetFor(ms, len);
      1 <= o <= MAX_MATCH_OFFSET && o <= at && at + len <= |input| && LexOrder.Agree(input, at - o, at, len)
    decreases |ms|
  {
    hide LexOrder.At;
    if ms[0].length < len {
      var rest := ms[1..];
      forall k | 0 <= k < |rest| ensures rest[k] == ms[k + 1] {}
      OffsetIsTrue(rest, len, input, at);
    }
  }

  /** One choice goes on expanding to the input. */
  lemma ChoiceExpands(ps: seq<MinCostPath.Position>, i: nat, choice: nat, input: seq<Byte>, start: nat)
    requires i < |ps| && MinCostPath.StandsFor(ps, i, choice) && MinCostPath.ItemLength(choice) <= MAX_MATCH_LEN
    requires MinCostPath.GoodMatches(ps[i].matches) && TruePosition(ps[i], input, start + i)
    ensures var len := MinCostPath.ItemLength(choice);
      && GoodChoice(choice) && 1 <= len && i + len <= |ps| && start + i + len <= |input|
      && ValidItem(ItemOf(choice), start + i) && Size(ItemOf(choice)) == len
      && Appended(input[..start + i], ItemOf(choice)) == input[..start + i + len]
  {
    hide Extended, LexOrder.Agree, MinCostPath.GoodMatches, MinCostPath.OffsetFor;
    var len := MinCostPath.ItemLength(choice);
    if len != 1 {
      OffsetIsTrue(ps[i].matches, len, input, start + i);
      MatchExpands(input, start + i, len, MinCostPath.ItemOffset(choice));
    }
  }

  lemma SettledChoice(c: MinCostPath.Costs, ps: seq<MinCostPath.Position>, cost: seq<nat>, choices: seq<nat>, i: nat)
    requires MinCostPath.AllSettled(c, ps, cost, choices) && i < |ps|
    ensures |ps| <= |choices| && MinCostPath.StandsFor(ps, i, choices[i]) && MinCostPath.ItemLength(choices[i]) <= MAX_MATCH_LEN
    ensures MinCostPath.GoodMatches(ps[i].matches)
  {
    assert MinCostPath.Settled(c, ps, cost, choices, i);
  }

  /** The items on the path from i on expand to the rest of the block. */
  lemma {:induction false} PathExpands(c: MinCostPath.Costs, ps: seq<MinCostPath.Position>, cost: seq<nat>, choices: seq<nat>, i: nat, input: seq<Byte>, start: nat)
    requires MinCostPath.AllSettled(c, ps, cost, choices) && TruePositions(ps, input, start) && i <= |ps| && start + |ps| <= |input|
    ensures GoodList(choices, i, |ps|) && ValidItems(ListItems(choices, i, |ps|), start + i)
    ensures Expand(input[..start + i], ListItems(choices, i, |ps|)) == input[..start + |ps|]
    decreases |ps| - i
  {
    hide MinCostPath.AllSettled, MinCostPath.GoodMatches, MinCostPath.StandsFor, TruePosition, GoodChoice, ItemOf, Appended, ValidItem, Size;
    if i < |ps| {
      SettledChoice(c, ps, cost, choices, i);
      assert TruePosition(ps[i], input, start + i);
      ChoiceExpands(ps, i, choices[i], input, start);
      var len := MinCostPath.ItemLength(choices[i]);
      PathExpands(c, ps, cost, choices, i + len, input, start);
      var items := ListItems(choices, i, |ps|);
      assert items[0] == ItemOf(choices[i]) && items[1..] == ListItems(choices, i + len, |ps|);
    }
  }
}
