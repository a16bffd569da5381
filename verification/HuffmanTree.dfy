/** The two-queue Huffman tree construction done in place in an array of packed words, and its
    optimality among all assignments of codeword lengths that fit the codespace. */
module HuffmanTree {
  import opened WeightedSums

  /** Packed words: the low 10 bits hold a symbol, the rest a frequency, parent index or depth. */
  const SYMBOL_RANGE: nat := 1024

  function Low(word: nat): nat { word % SYMBOL_RANGE }
  function High(word: nat): nat { word / SYMBOL_RANGE }
  function Pack(high: nat, low: nat): (word: nat)
    requires low < SYMBOL_RANGE
    ensures High(word) == high && Low(word) == low
  {
    high * SYMBOL_RANGE + low
  }

  /** What the loop did. Merge number e took two items off the two queues, leaves
      leafHead[e]..leafHead[e+1] and nodes nodeHead[e]..nodeHead[e+1], the heavier of weight
      heavier[e], and made node e of weight weight[e] their parent. */
  datatype Merges = Merges(leafHead: seq<nat>, nodeHead: seq<nat>, leafParent: seq<nat>, nodeParent: seq<nat>,
                           weight: seq<nat>, heavier: seq<nat>)

  /** Merge e takes exactly two queued items, from the fronts of the queues, and becomes their parent. */
  ghost predicate TakesTwo(t: Merges, n: nat, e: nat) {
    && e + 1 < |t.leafHead| && e + 1 < |t.nodeHead|
    && t.leafHead[e] <= t.leafHead[e + 1] <= n && t.leafHead[e + 1] <= |t.leafParent|
    && t.nodeHead[e] <= t.nodeHead[e + 1] <= e && t.nodeHead[e + 1] <= |t.nodeParent|
    && t.leafHead[e + 1] + t.nodeHead[e + 1] == t.leafHead[e] + t.nodeHead[e] + 2
    && (forall i :: t.leafHead[e] <= i < t.leafHead[e + 1] ==> t.leafParent[i] == e)
    && (forall k :: t.nodeHead[e] <= k < t.nodeHead[e + 1] ==> t.nodeParent[k] == e)
  }

  /** The first e merges are done. */
  ghost predicate Merged(t: Merges, n: nat, e: nat) {
    && |t.leafHead| == |t.nodeHead| == e + 1 && t.leafHead[0] == 0 && t.nodeHead[0] == 0
    && |t.leafParent| == t.leafHead[e] && |t.nodeParent| == t.nodeHead[e]
    && forall s :: 0 <= s < e ==> TakesTwo(t, n, s)
  }

  /** Of leaves f from i and nodes w from b, the ones before j and c are the lightest: none is
      above top, none of the others is below it. A node goes first only if lighter than every leaf. */
  ghost predicate Lightest(f: seq<nat>, w: seq<nat>, i: nat, b: nat, j: nat, c: nat, top: nat)
    requires i <= j <= |f| && b <= c <= |w|
  {
    && (forall x :: i <= x < j ==> f[x] <= top) && (forall x :: j <= x < |f| ==> top <= f[x])
    && (forall y :: b <= y < c ==> w[y] <= top) && (forall y :: c <= y < |w| ==> top <= w[y])
    && (b < c && j < |f| ==> w[c - 1] < f[j])
  }

  /** Merge e takes the two lightest items and adds them up. */
  ghost predicate TakesLightest(f: seq<nat>, t: Merges, e: nat)
    requires TakesTwo(t, |f|, e)
  {
    && e < |t.weight| && e < |t.heavier|
    && Lightest(f, t.weight[..e], t.leafHead[e], t.nodeHead[e], t.leafHead[e + 1], t.nodeHead[e + 1], t.heavier[e])
    && t.weight[e] == Sum(f, t.leafHead[e], t.leafHead[e + 1]) + Sum(t.weight, t.nodeHead[e], t.nodeHead[e + 1])
  }

  ghost predicate Greedy(f: seq<nat>, t: Merges, e: nat)
    requires Merged(t, |f|, e)
  {
    && |t.weight| == |t.heavier| == e
    && forall s :: 0 <= s < e ==> TakesLightest(f, t, s)
  }

  /** A complete Huffman tree over the leaf weights f: node |f| - 2 is the root. */
  ghost predicate HuffmanOf(f: seq<nat>, t: Merges) {
    |f| >= 2 && |t.weight| == |f| - 1 && Merged(t, |f|, |f| - 1) && Greedy(f, t, |f| - 1)
  }

  function Repeat(v: nat, count: nat): seq<nat> {
    seq(count, _ => v)
  }

  /** One more merge, taking di leaves and db nodes of total weight sum. */
  ghost function Extend(t: Merges, di: nat, db: nat, sum: nat, top: nat): (u: Merges)
    requires |t.leafHead| == |t.nodeHead| > 0
  {
    var e := |t.leafHead| - 1;
    Merges(t.leafHead + [t.leafHead[e] + di], t.nodeHead + [t.nodeHead[e] + db],
           t.leafParent + Repeat(e, di), t.nodeParent + Repeat(e, db), t.weight + [sum], t.heavier + [top])
  }

  lemma ExtendMerged(t: Merges, n: nat, e: nat, di: nat, db: nat, sum: nat, top: nat)
    requires Merged(t, n, e)
    requires t.leafHead[e] + di <= n && t.nodeHead[e] + db <= e && di + db == 2
    ensures Merged(Extend(t, di, db, sum, top), n, e + 1)
  {
    var u := Extend(t, di, db, sum, top);
    assert forall s :: 0 <= s < e ==> TakesTwo(t, n, s) ==> TakesTwo(u, n, s);
    assert TakesTwo(u, n, e);
  }

  lemma TakesLightestExtends(f: seq<nat>, t: Merges, u: Merges, s: nat)
    requires TakesTwo(t, |f|, s) && TakesTwo(u, |f|, s) && TakesLightest(f, t, s)
    requires t.leafHead <= u.leafHead && t.nodeHead <= u.nodeHead && t.weight <= u.weight && t.heavier <= u.heavier
    ensures TakesLightest(f, u, s)
  {
    assert u.weight[..s] == t.weight[..s];
    SumSame(u.weight, t.weight, t.nodeHead[s], t.nodeHead[s + 1]);
  }

  lemma NewTakesLightest(f: seq<nat>, t: Merges, e: nat, di: nat, db: nat, sum: nat, top: nat)
    requires |t.leafHead| == |t.nodeHead| == e + 1 && |t.weight| == |t.heavier| == e
    requires TakesTwo(Extend(t, di, db, sum, top), |f|, e)
    requires Lightest(f, t.weight, t.leafHead[e], t.nodeHead[e], t.leafHead[e] + di, t.nodeHead[e] + db, top)
    requires sum == Sum(f, t.leafHead[e], t.leafHead[e] + di) + Sum(t.weight, t.nodeHead[e], t.nodeHead[e] + db)
    ensures TakesLightest(f, Extend(t, di, db, sum, top), e)
  {
    var u := Extend(t, di, db, sum, top);
    assert u.weight[..e] == t.weight;
    SumSame(u.weight, t.weight, t.nodeHead[e], t.nodeHead[e] + db);
  }

  lemma ExtendGreedy(f: seq<nat>, t: Merges, e: nat, di: nat, db: nat, sum: nat, top: nat)
    requires Merged(t, |f|, e) && Greedy(f, t, e)
    requires Merged(Extend(t, di, db, sum, top), |f|, e + 1)
    requires TakesLightest(f, Extend(t, di, db, sum, top), e)
    ensures Greedy(f, Extend(t, di, db, sum, top), e + 1)
  {
    var u := Extend(t, di, db, sum, top);
    forall s | 0 <= s < e
      ensures TakesLightest(f, u, s)
    {
      TakesLightestExtends(f, t, u, s);
    }
  }

  ghost predicate Ascending(s: seq<nat>, from: nat) {
    forall i, j :: from <= i < j < |s| ==> s[i] <= s[j]
  }

  /** Comparing queue fronts suffices: both queues are sorted. */
  lemma FrontsAreLightest(f: seq<nat>, w: seq<nat>, i: nat, b: nat, di: nat, db: nat)
    requires Ascending(f, 0) && Ascending(w, b)
    requires i + di <= |f| && b + db <= |w| && di + db == 2
    requires di > 0 && b + db < |w| ==> f[i + di - 1] <= w[b + db]
    requires db > 0 && i + di < |f| ==> w[b + db - 1] < f[i + di]
    ensures Lightest(f, w, i, b, i + di, b + db, Pair(f, w, i, b, di).1)
  {
  }

  lemma {:induction false} HeadsAdvance(t: Merges, n: nat, e: nat, s: nat)
    requires Merged(t, n, e) && s <= e
    ensures t.leafHead[s] + t.nodeHead[s] == 2 * s
    ensures t.nodeHead[s] <= s && t.leafHead[s] <= n
    ensures s > 0 ==> t.nodeHead[s] < s
  {
    if s > 0 {
      assert TakesTwo(t, n, s - 1);
      HeadsAdvance(t, n, e, s - 1);
    }
  }

  /** A merge of di leaves and db nodes keeps the total weight waiting in the queues. */
  lemma WeightStep(f: seq<nat>, w: seq<nat>, i: nat, b: nat, di: nat, db: nat, sum: nat)
    requires i + di <= |f| && b + db <= |w| && di + db == 2
    requires sum == Sum(f, i, i + di) + Sum(w, b, b + db)
    ensures Waiting(f, w + [sum], i + di, b + db) == Waiting(f, w, i, b)
    ensures sum == Pair(f, w, i, b, di).0 + Pair(f, w, i, b, di).1 <= Waiting(f, w, i, b)
  {
    hide Sum;
    SumSplit(f, i, i + di, |f|);
    SumSplit(w, b, b + db, |w|);
    SumSplit(w + [sum], b + db, |w|, |w| + 1);
    SumSame(w + [sum], w, b + db, |w|);
    SumShort(w + [sum], |w|);
    SumShort(f, i);
    SumShort(w, b);
  }

  /** Takes the lowest-frequency entry: a leaf, unless a lighter node is waiting. */
  predicate TakeLeaf(a: array<nat>, n: nat, i: nat, b: nat, e: nat)
    requires i <= n <= a.Length && b <= e <= n
    reads a
  {
    i != n && (b == e || High(a[i]) <= High(a[b]))
  }

  /** The frequencies held in the first n words. */
  function Freqs(words: seq<nat>, n: nat): (f: seq<nat>)
    requires n <= |words|
    ensures |f| == n
  {
    seq(n, i requires 0 <= i < n => High(words[i]))
  }

  /** Words m and l linked to the new node e, whose word receives the sum of their frequencies.
      Any of the three may share a word with another; the sum is written last. */
  function Linked(words: seq<nat>, m: nat, l: nat, e: nat): (after: seq<nat>)
    requires m < |words| && l < |words| && e < |words|
    ensures |after| == |words|
  {
    var freqShifted := ((words[m] - Low(words[m])) + (words[l] - Low(words[l]))) % 0x1_0000_0000;
    var s1 := words[m := Pack(e, Low(words[m]))];
    var s2 := s1[l := Pack(e, Low(s1[l]))];
    s2[e := Low(s2[e]) + freqShifted]
  }

  method Link(a: array<nat>, m: nat, l: nat, e: nat)
    requires m < a.Length && l < a.Length && e < a.Length
    modifies a
    ensures a[..] == Linked(old(a[..]), m, l, e)
  {
    var freqShifted := ((a[m] - Low(a[m])) + (a[l] - Low(a[l]))) % 0x1_0000_0000;
    a[m] := Pack(e, Low(a[m]));
    a[l] := Pack(e, Low(a[l]));
    a[e] := Low(a[e]) + freqShifted;
  }

  /** The symbols, and every word from n on, are as before. */
  ghost predicate SameSymbols(before: seq<nat>, after: seq<nat>, n: nat) {
    && n <= |before| == |after|
    && (forall k :: 0 <= k < n ==> Low(after[k]) == Low(before[k]))
    && after[n..] == before[n..]
  }

  lemma LinkedWords(words: seq<nat>, m: nat, l: nat, e: nat, n: nat)
    requires m != l && m < n <= |words| && l < n && e < n
    requires High(words[m]) + High(words[l]) < 0x40_0000
    ensures var after := Linked(words, m, l, e);
      && High(after[e]) == High(words[m]) + High(words[l])
      && (m != e ==> High(after[m]) == e) && (l != e ==> High(after[l]) == e)
      && (forall k :: 0 <= k < |words| && k != m && k != l && k != e ==> after[k] == words[k])
      && SameSymbols(words, after, n)
  {
    var freqShifted := (words[m] - Low(words[m])) + (words[l] - Low(words[l]));
    assert freqShifted == (High(words[m]) + High(words[l])) * SYMBOL_RANGE;
  }

  /** The two queues before a merge: leaves from i, nodes from b of those made so far, both
      sorted, nothing lighter than floor, and the newest node at most twice floor. */
  ghost predicate Ordered(f: seq<nat>, w: seq<nat>, i: nat, b: nat, floor: nat) {
    && b <= |w| < |f| && i + b == 2 * |w| && i <= |f| && (|w| > 0 ==> b < |w|)
    && Ascending(w, b)
    && (i < |f| ==> floor <= f[i]) && (b < |w| ==> floor <= w[b])
    && (|w| > 0 ==> w[|w| - 1] <= 2 * floor)
  }

  /** The total weight waiting in the queues. */
  ghost function Waiting(f: seq<nat>, w: seq<nat>, i: nat, b: nat): nat {
    Sum(f, i, |f|) + Sum(w, b, |w|)
  }

  /** The words hold the waiting leaf and node weights and the parents of finished nodes. */
  ghost predicate Holds(words: seq<nat>, f: seq<nat>, w: seq<nat>, parents: seq<nat>, i: nat)
    requires |f| <= |words| && |parents| <= |w| <= |f|
  {
    && (forall k :: i <= k < |f| ==> High(words[k]) == f[k])
    && (forall k :: |parents| <= k < |w| ==> High(words[k]) == w[k])
    && (forall k :: 0 <= k < |parents| ==> High(words[k]) == parents[k])
  }

  /** The weight, and the heavier half, of what the next merge takes. */
  ghost function Pair(f: seq<nat>, w: seq<nat>, i: nat, b: nat, di: nat): (r: (nat, nat))
    requires di <= 2 && i + di <= |f| && b + 2 - di <= |w|
  {
    match di
    case 0 => (w[b], w[b + 1])
    case 1 => if f[i] <= w[b] then (f[i], w[b]) else (w[b], f[i])
    case _ => (f[i], f[i + 1])
  }

  /** Choosing by comparing fronts keeps both queues sorted. */
  lemma OrderedStep(f: seq<nat>, w: seq<nat>, i: nat, b: nat, floor: nat, di: nat, db: nat)
    requires Ascending(f, 0) && Ordered(f, w, i, b, floor) && |w| < |f| - 1
    requires i + di <= |f| && b + db <= |w| && di + db == 2
    requires di > 0 && b + db < |w| ==> f[i + di - 1] <= w[b + db]
    requires db > 0 && i + di < |f| ==> w[b + db - 1] < f[i + di]
    ensures Ordered(f, w + [Pair(f, w, i, b, di).0 + Pair(f, w, i, b, di).1], i + di, b + db, Pair(f, w, i, b, di).1)
  {
    var (x, y) := Pair(f, w, i, b, di);
    var u := w + [x + y];
    assert floor <= x <= y;
    forall k, l | b + db <= k < l < |u|
      ensures u[k] <= u[l]
    {
      if l == |w| {
        assert u[k] == w[k] <= w[|w| - 1] <= 2 * floor;
      }
    }
  }

  /** What comparing queue fronts establishes: m and l are taken, in order of weight. */
  ghost predicate Taken(words: seq<nat>, f: seq<nat>, w: seq<nat>, i0: nat, b0: nat, i: nat, b: nat, m: nat, l: nat) {
    && i0 <= i <= |f| <= |words| && b0 <= b <= |w| < |f| && i + b == i0 + b0 + 2
    && (i0 < i && b < |w| ==> f[i - 1] <= w[b]) && (b0 < b && i < |f| ==> w[b - 1] < f[i])
    && m < |f| && l < |f| && m != l
    && (i0 <= m < i || b0 <= m < b) && (i0 <= l < i || b0 <= l < b)
    && (High(words[m]), High(words[l])) == Pair(f, w, i0, b0, i - i0)
    && (b == b0 + 1 ==> m == b0 || l == b0) && (b == b0 + 2 ==> m == b0 && l == b0 + 1)
  }

  /** Takes the two lightest entries off the fronts of the queues. */
  method TakeTwo(a: array<nat>, n: nat, i0: nat, b0: nat, e: nat, ghost f: seq<nat>, ghost w: seq<nat>, ghost parents: seq<nat>)
    returns (i: nat, b: nat, m: nat, l: nat)
    requires |f| == n <= a.Length && |w| == e < n - 1 && |parents| == b0 <= e && i0 + b0 == 2 * e && i0 <= n
    requires Holds(a[..], f, w, parents, i0) && Ascending(f, 0) && Ascending(w, b0)
    ensures Taken(a[..], f, w, i0, b0, i, b, m, l)
  {
    i, b := i0, b0;
    if TakeLeaf(a, n, i, b, e) { m := i; i := i + 1; } else { m := b; b := b + 1; }
    if TakeLeaf(a, n, i, b, e) { l := i; i := i + 1; } else { l := b; b := b + 1; }
  }

  /** Taking the two lightest entries keeps everything known about the queues. */
  lemma QueueStep(f: seq<nat>, w: seq<nat>, i: nat, b: nat, floor: nat, di: nat, db: nat) returns (sum: nat)
    requires Ascending(f, 0) && |w| < |f| - 1
    requires Ordered(f, w, i, b, floor) && Waiting(f, w, i, b) == Sum(f, 0, |f|)
    requires i + di <= |f| && b + db <= |w| && di + db == 2
    requires di > 0 && b + db < |w| ==> f[i + di - 1] <= w[b + db]
    requires db > 0 && i + di < |f| ==> w[b + db - 1] < f[i + di]
    ensures sum == Sum(f, i, i + di) + Sum(w, b, b + db) <= Sum(f, 0, |f|)
    ensures sum == Pair(f, w, i, b, di).0 + Pair(f, w, i, b, di).1
    ensures Lightest(f, w, i, b, i + di, b + db, Pair(f, w, i, b, di).1)
    ensures Ordered(f, w + [sum], i + di, b + db, Pair(f, w, i, b, di).1)
    ensures Waiting(f, w + [sum], i + di, b + db) == Sum(f, 0, |f|)
  {
    sum := Sum(f, i, i + di) + Sum(w, b, b + db);
    WeightStep(f, w, i, b, di, db, sum);
    OrderedStep(f, w, i, b, floor, di, db);
    FrontsAreLightest(f, w, i, b, di, db);
  }

  /** After linking, node e's weight is in place and what was taken holds its parent. */
  lemma LinkedHolds(words: seq<nat>, f: seq<nat>, w: seq<nat>, parents: seq<nat>, i0: nat, i: nat, b: nat, m: nat, l: nat, sum: nat)
    requires |f| <= |words| && |parents| <= |w| < |f| && i0 + |parents| == 2 * |w|
    requires Holds(words, f, w, parents, i0) && Taken(words, f, w, i0, |parents|, i, b, m, l)
    requires sum == High(words[m]) + High(words[l]) < 0x40_0000
    ensures Holds(Linked(words, m, l, |w|), f, w + [sum], parents + Repeat(|w|, b - |parents|), i)
    ensures SameSymbols(words, Linked(words, m, l, |w|), |f|)
  {
    LinkedWords(words, m, l, |w|, |f|);
  }

  /** The record of the merge of the two lightest entries. */
  lemma Record(f: seq<nat>, t: Merges, e: nat, di: nat, db: nat, sum: nat, top: nat) returns (u: Merges)
    requires Merged(t, |f|, e) && Greedy(f, t, e)
    requires t.leafHead[e] + di <= |f| && t.nodeHead[e] + db <= e && di + db == 2
    requires Lightest(f, t.weight, t.leafHead[e], t.nodeHead[e], t.leafHead[e] + di, t.nodeHead[e] + db, top)
    requires sum == Sum(f, t.leafHead[e], t.leafHead[e] + di) + Sum(t.weight, t.nodeHead[e], t.nodeHead[e] + db)
    ensures Merged(u, |f|, e + 1) && Greedy(f, u, e + 1)
    ensures u.leafHead[e + 1] == t.leafHead[e] + di && u.nodeHead[e + 1] == t.nodeHead[e] + db
    ensures u.weight == t.weight + [sum] && u.nodeParent == t.nodeParent + Repeat(e, db)
  {
    u := Extend(t, di, db, sum, top);
    ExtendMerged(t, |f|, e, di, db, sum, top);
    NewTakesLightest(f, t, e, di, db, sum, top);
    ExtendGreedy(f, t, e, di, db, sum, top);
  }

  /** What is known before merge e, when the queues start at i and b. */
  ghost predicate Before(f: seq<nat>, t: Merges, e: nat, i: nat, b: nat, floor: nat) {
    match t case Merges(_, _, _, _, _, _) =>
    && |t.weight| == e < |f| && Merged(t, |f|, e) && Greedy(f, t, e) && t.leafHead[e] == i && t.nodeHead[e] == b
    && Ordered(f, t.weight, i, b, floor) && Waiting(f, t.weight, i, b) == Sum(f, 0, |f|)
  }

  lemma NextMerge(f: seq<nat>, t: Merges, e: nat, i: nat, b: nat, floor: nat, di: nat, db: nat) returns (u: Merges, sum: nat)
    requires Ascending(f, 0) && e < |f| - 1 && Before(f, t, e, i, b, floor)
    requires i + di <= |f| && b + db <= e && di + db == 2
    requires di > 0 && b + db < e ==> f[i + di - 1] <= t.weight[b + db]
    requires db > 0 && i + di < |f| ==> t.weight[b + db - 1] < f[i + di]
    ensures sum == Pair(f, t.weight, i, b, di).0 + Pair(f, t.weight, i, b, di).1 <= Sum(f, 0, |f|)
    ensures Before(f, u, e + 1, i + di, b + db, Pair(f, t.weight, i, b, di).1)
    ensures u.weight == t.weight + [sum] && u.nodeParent == t.nodeParent + Repeat(e, db)
  {
    sum := QueueStep(f, t.weight, i, b, floor, di, db);
    u := Record(f, t, e, di, db, sum, Pair(f, t.weight, i, b, di).1);
  }

  /** Linking the two lightest entries makes the next merge. */
  lemma LinkMerge(words: seq<nat>, f: seq<nat>, t: Merges, e: nat, i0: nat, b0: nat, floor: nat,
                  i: nat, b: nat, m: nat, l: nat) returns (u: Merges)
    requires |f| <= |words| && e < |f| - 1 && Ascending(f, 0) && Sum(f, 0, |f|) < 0x40_0000
    requires Before(f, t, e, i0, b0, floor) && Holds(words, f, t.weight, t.nodeParent, i0)
    requires Taken(words, f, t.weight, i0, b0, i, b, m, l)
    ensures Before(f, u, e + 1, i, b, High(words[l])) && Holds(Linked(words, m, l, e), f, u.weight, u.nodeParent, i)
    ensures SameSymbols(words, Linked(words, m, l, e), |f|)
  {
    hide Greedy, Waiting, Linked, SameSymbols, Holds, Lightest;
    var sum;
    u, sum := NextMerge(f, t, e, i0, b0, floor, i - i0, b - b0);
    LinkedHolds(words, f, t.weight, t.nodeParent, i0, i, b, m, l, sum);
  }

  /** One round of the loop: links the two lightest entries to node e. */
  method MergeLightest(a: array<nat>, n: nat, i0: nat, b0: nat, e: nat, ghost f: seq<nat>, ghost t0: Merges, ghost floor0: nat)
    returns (i: nat, b: nat, ghost t: Merges, ghost floor: nat)
    requires |f| == n <= a.Length && e < n - 1 && Ascending(f, 0) && Sum(f, 0, n) < 0x40_0000
    requires Before(f, t0, e, i0, b0, floor0) && Holds(a[..], f, t0.weight, t0.nodeParent, i0)
    modifies a
    ensures Before(f, t, e + 1, i, b, floor) && Holds(a[..], f, t.weight, t.nodeParent, i)
    ensures SameSymbols(old(a[..]), a[..], n)
  {
    var m, l;
    i, b, m, l := TakeTwo(a, n, i0, b0, e, f, t0.weight, t0.nodeParent);
    floor := High(a[l]);
    t := LinkMerge(a[..], f, t0, e, i0, b0, floor0, i, b, m, l);
    Link(a, m, l, e);
  }

  lemma Start(f: seq<nat>, words: seq<nat>)
    requires 2 <= |f| <= |words| && f == Freqs(words, |f|)
    ensures Before(f, Merges([0], [0], [], [], [], []), 0, 0, 0, 0) && Holds(words, f, [], [], 0)
  {
  }

  lemma Finish(f: seq<nat>, t: Merges, words: seq<nat>, i: nat, b: nat, floor: nat)
    requires 2 <= |f| <= |words|
    requires Before(f, t, |f| - 1, i, b, floor) && Holds(words, f, t.weight, t.nodeParent, i)
    ensures HuffmanOf(f, t) && |t.nodeParent| == |f| - 2
    ensures forall k :: 0 <= k < |f| - 2 ==> High(words[k]) == t.nodeParent[k]
  {
    HeadsAdvance(t, |f|, |f| - 1, |f| - 1);
  }

  /** Builds the non-leaf nodes of the Huffman tree in the first n - 1 words. */
  method BuildTree(a: array<nat>, n: nat) returns (ghost t: Merges)
    requires 2 <= n <= a.Length && n <= SYMBOL_RANGE
    requires Ascending(Freqs(a[..], n), 0) && Sum(Freqs(a[..], n), 0, n) < 0x40_0000
    modifies a
    ensures HuffmanOf(old(Freqs(a[..], n)), t) && |t.nodeParent| == n - 2
    ensures forall k :: 0 <= k < n - 2 ==> High(a[k]) == t.nodeParent[k]
    ensures SameSymbols(old(a[..]), a[..], n)
  {
    ghost var f := Freqs(a[..], n);
    ghost var floor := 0;
    t := Merges([0], [0], [], [], [], []);
    Start(f, a[..]);
    var i, b, e := 0, 0, 0;
    while true
      invariant e < n - 1 && Before(f, t, e, i, b, floor)
      invariant Holds(a[..], f, t.weight, t.nodeParent, i)
      invariant SameSymbols(old(a[..]), a[..], n)
      decreases n - e
    {
      i, b, t, floor := MergeLightest(a, n, i, b, e, f, t, floor);
      e := e + 1;
      if !(n - e > 1) { break; }
    }
    Finish(f, t, a[..], i, b, floor);
  }
}
