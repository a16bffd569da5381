/** The 3-byte buckets of the binary-tree matchfinder: each holds the two newest positions of its hash, which is a function of
    the buffer alone, and so is the match of length 3 that they offer. */
module BtHeads {
  import opened LexOrder
  import opened SearchTree
  import opened TreeMemory
  import LzExtend

  /** The hashes a position is entered under. The very first one is entered with both hashes 0. */
  function Filed3(data: Bytes, p: nat): (b: nat)
    ensures b < BUCKETS
  {
    if p == 0 then 0 else LzExtend.Hash3(data, p)
  }

  function Filed4(data: Bytes, p: nat): (b: nat)
    ensures b < BUCKETS
  {
    if p == 0 then 0 else LzExtend.Hash4(data, p)
  }

  /** The newest position before e filed under the hash; a whole window before the start when there is none. */
  function Newest(data: Bytes, b: nat, e: nat): (q: int)
    ensures -WINDOW <= q < e && (q < 0 ==> q == -WINDOW) && (q >= 0 ==> Filed3(data, q) == b)
    ensures forall p: nat | q < p < e :: Filed3(data, p) != b
  {
    if e == 0 then -WINDOW else if Filed3(data, e - 1) == b then e - 1 else Newest(data, b, e - 1)
  }

  /** The one before it. */
  function Second(data: Bytes, b: nat, e: nat): (q: int)
    ensures -WINDOW <= q < e && (q < 0 ==> q == -WINDOW)
  {
    var z := Newest(data, b, e);
    if z < 0 then -WINDOW else Newest(data, b, z)
  }

  /** A position relative to the base, no less than a window back. */
  function Kept(base: int, q: int): int { if q - base < -WINDOW then -WINDOW else q - base }

  ghost predicate Heads(data: Bytes, mem: Memory, base: int, next: nat) {
    forall b: nat :: b < BUCKETS ==> mem[2 * b] == Kept(base, Newest(data, b, next)) && mem[2 * b + 1] == Kept(base, Second(data, b, next))
  }

  lemma HeadsAtStart(data: Bytes, mem: Memory)
    requires forall s: Slot :: s < ROOTS ==> mem[s] == -WINDOW
    ensures Heads(data, mem, 0, 0)
  {
  }

  /** A position goes first in its bucket, and what was first goes second. */
  lemma HeadsNext(data: Bytes, mem: Memory, now: Memory, base: int, cur: nat, b: nat)
    requires Heads(data, mem, base, cur) && b == Filed3(data, cur) && base <= cur < base + WINDOW
    requires now[2 * b] == cur - base && now[2 * b + 1] == mem[2 * b]
    requires forall s: Slot :: s < ROOTS && s != 2 * b && s != 2 * b + 1 ==> now[s] == mem[s]
    ensures Heads(data, now, base, cur + 1)
  {
    hide Filed3;
    forall c: nat | c < BUCKETS
      ensures now[2 * c] == Kept(base, Newest(data, c, cur + 1)) && now[2 * c + 1] == Kept(base, Second(data, c, cur + 1))
    {
      if c == b {
        assert Newest(data, c, cur + 1) == cur;
      } else {
        assert Newest(data, c, cur + 1) == Newest(data, c, cur);
        assert now[2 * c] == mem[2 * c] && now[2 * c + 1] == mem[2 * c + 1];
      }
    }
  }

  lemma HeadsRebased(data: Bytes, mem: Memory, now: Memory, base: int, next: nat)
    requires Heads(data, mem, base, next) && IsRebased(mem, now)
    ensures Heads(data, now, base + WINDOW, next)
  {
    hide Newest, Second;
    forall b: nat | b < BUCKETS
      ensures now[2 * b] == Kept(base + WINDOW, Newest(data, b, next)) && now[2 * b + 1] == Kept(base + WINDOW, Second(data, b, next))
    {
      assert mem[2 * b] == Kept(base, Newest(data, b, next));
    }
  }

  /** Not yet out of the window. */
  predicate Near(cur: nat, q: int) { 0 <= q && cur - WINDOW < q }

  /** The match of length 3 with the newest position of the current hash, or with the one before it. */
  function ThreeByteMatch(data: Bytes, cur: nat): seq<Match> {
    var z, y := Newest(data, Filed3(data, cur), cur), Second(data, Filed3(data, cur), cur);
    if Near(cur, z) && Agree(data, z, cur, 3) then [Match(3, cur - z)]
    else if Near(cur, y) && Agree(data, y, cur, 3) then [Match(3, cur - y)]
    else []
  }

  /** With the newest position of the current hash a match of length 3 is reported when it is in the window and agrees;
      when it does not agree, with the one before it on the same terms; and otherwise none. */
  ghost predicate ReportsThree(data: Bytes, cur: nat, ms: seq<Match>) {
    && (forall z: nat :: z < cur < z + WINDOW && Filed3(data, z) == Filed3(data, cur) && Agree(data, z, cur, 3)
          && (forall p: nat :: z < p < cur ==> Filed3(data, p) != Filed3(data, cur))
          ==> ms != [] && ms[0] == Match(3, cur - z))
    && (forall z: nat, y: nat :: y < z < cur < y + WINDOW && Filed3(data, z) == Filed3(data, y) == Filed3(data, cur)
          && !Agree(data, z, cur, 3) && Agree(data, y, cur, 3)
          && (forall p: nat :: y < p < cur && p != z ==> Filed3(data, p) != Filed3(data, cur))
          ==> ms != [] && ms[0] == Match(3, cur - y))
    && (forall k :: 0 <= k < |ms| && ms[k].length == 3 ==>
          k == 0 && 1 <= ms[0].offset <= cur && Filed3(data, cur - ms[0].offset) == Filed3(data, cur) && Agree(data, cur - ms[0].offset, cur, 3))
  }

  lemma ReportedThree(data: Bytes, cur: nat, more: seq<Match>)
    requires forall k :: 0 <= k < |more| ==> more[k].length > 3
    ensures ReportsThree(data, cur, ThreeByteMatch(data, cur) + more)
  {
    hide Agree, Filed3, Newest;
    var b := Filed3(data, cur);
    var z, ms := Newest(data, b, cur), ThreeByteMatch(data, cur) + more;
    forall x: nat | x < cur && Filed3(data, x) == b && (forall p: nat :: x < p < cur ==> Filed3(data, p) != b)
      ensures x == z
    {
      NewestIs(data, b, cur, x);
    }
    forall x: nat, y: nat | y < x < cur && Filed3(data, x) == b && Filed3(data, y) == b && (forall p: nat :: y < p < cur && p != x ==> Filed3(data, p) != b)
      ensures x == z && y == Second(data, b, cur)
    {
      NewestIs(data, b, cur, x);
      NewestIs(data, b, x, y);
    }
  }

  lemma NewestIs(data: Bytes, b: nat, e: nat, x: nat)
    requires x < e && Filed3(data, x) == b && forall p: nat :: x < p < e ==> Filed3(data, p) != b
    ensures Newest(data, b, e) == x
  {
  }

  /** The hash of the letters abc, and where they come again. */
  const Abc: Bytes := [120, 97, 98, 99, 100, 97, 98, 99, 101, 102, 103, 104]

  lemma HashOfAbc()
    ensures Filed3(Abc, 1) == 55969 && Filed3(Abc, 5) == 55969
  {
    Three(1);
    Three(5);
  }

  lemma Three(p: nat)
    ensures LzExtend.Word(Abc, p, 3) == At(Abc, p, 0) + 256 * At(Abc, p + 1, 0) + 65536 * At(Abc, p + 2, 0)
  {
    assert LzExtend.Word(Abc, p + 2, 1) == At(Abc, p + 2, 0) + 256 * LzExtend.Word(Abc, p + 3, 0);
  }

  /** The first repetition of three bytes is reported, although its bucket has held a single position. */
  lemma AbcIsReported(more: seq<Match>)
    requires forall k :: 0 <= k < |more| ==> more[k].length > 3
    ensures ThreeByteMatch(Abc, 5) + more == [Match(3, 4)] + more
  {
    hide Filed3, Newest;
    HashOfAbc();
    HashesBetween();
    NewestIs(Abc, 55969, 5, 1);
  }

  lemma HashesBetween()
    ensures Filed3(Abc, 2) != 55969 && Filed3(Abc, 3) != 55969 && Filed3(Abc, 4) != 55969
  {
    Three(2);
    Three(3);
    Three(4);
  }
}
