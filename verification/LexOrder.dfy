/** Lexicographic order of the strings that start at positions of a buffer, up to a length. */
module LexOrder {

  type Byte = x: nat | x < 256
  type Bytes = seq<Byte>

  /** Byte i of the string at a. The callers compare only inside the buffer; past its end a byte reads as 0. */
  function At(data: Bytes, a: nat, i: nat): Byte { if a + i < |data| then data[a + i] else 0 }

  /** Number of equal bytes from index k on, stopping at n. */
  function CommonFrom(data: Bytes, a: nat, b: nat, k: nat, n: nat): (r: nat)
    requires k <= n
    ensures k <= r <= n
    ensures forall i :: k <= i < r ==> At(data, a, i) == At(data, b, i)
    ensures r < n ==> At(data, a, r) != At(data, b, r)
    decreases n - k
  {
    if k == n || At(data, a, k) != At(data, b, k) then k else CommonFrom(data, a, b, k + 1, n)
  }

  function Common(data: Bytes, a: nat, b: nat, n: nat): (r: nat)
    ensures r <= n
  {
    CommonFrom(data, a, b, 0, n)
  }

  /** The strings agree on their first k bytes. */
  predicate Agree(data: Bytes, a: nat, b: nat, k: nat) {
    forall i :: 0 <= i < k ==> At(data, a, i) == At(data, b, i)
  }

  lemma CommonMeans(data: Bytes, a: nat, b: nat, n: nat)
    ensures Agree(data, a, b, Common(data, a, b, n))
    ensures Common(data, a, b, n) < n ==>
      At(data, a, Common(data, a, b, n)) != At(data, b, Common(data, a, b, n))
  {
  }

  /** The number of equal bytes is determined by agreeing before and differing there. */
  lemma CommonIs(data: Bytes, a: nat, b: nat, n: nat, k: nat)
    requires k <= n && Agree(data, a, b, k)
    requires k < n ==> At(data, a, k) != At(data, b, k)
    ensures Common(data, a, b, n) == k
  {
    CommonMeans(data, a, b, n);
  }

  /** Counting up to less. */
  lemma CommonShorter(data: Bytes, a: nat, b: nat, n: nat, m: nat)
    requires m <= n
    ensures Common(data, a, b, m) == if Common(data, a, b, n) < m then Common(data, a, b, n) else m
  {
    CommonMeans(data, a, b, n);
    var d := Common(data, a, b, n);
    CommonIs(data, a, b, m, if d < m then d else m);
  }

  /** The string at a is at most the string at b, looking at the first n bytes only. */
  predicate AtMost(data: Bytes, a: nat, b: nat, n: nat) {
    var d := Common(data, a, b, n);
    d == n || At(data, a, d) < At(data, b, d)
  }

  /** The first difference, if any before n, is at k and decides. */
  lemma AtMostAt(data: Bytes, a: nat, b: nat, n: nat, k: nat)
    requires k < n && Agree(data, a, b, k) && At(data, a, k) != At(data, b, k)
    ensures AtMost(data, a, b, n) <==> At(data, a, k) < At(data, b, k)
  {
    CommonIs(data, a, b, n, k);
  }

  lemma AgreeAtMost(data: Bytes, a: nat, b: nat, n: nat)
    requires Agree(data, a, b, n)
    ensures AtMost(data, a, b, n)
  {
    CommonIs(data, a, b, n, n);
  }

  lemma AtMostTrans(data: Bytes, a: nat, b: nat, c: nat, n: nat)
    requires AtMost(data, a, b, n) && AtMost(data, b, c, n)
    ensures AtMost(data, a, c, n)
  {
    CommonMeans(data, a, b, n);
    CommonMeans(data, b, c, n);
    var d, e := Common(data, a, b, n), Common(data, b, c, n);
    var m := if d < e then d else e;
    assert Agree(data, a, c, m);
    if m == n { AgreeAtMost(data, a, c, n); } else { AtMostAt(data, a, c, n, m); }
  }

  /** Looking at fewer bytes keeps the order. */
  lemma AtMostShorter(data: Bytes, a: nat, b: nat, n: nat, m: nat)
    requires m <= n && AtMost(data, a, b, n)
    ensures AtMost(data, a, b, m)
  {
    CommonShorter(data, a, b, n, m);
  }

  /** What lies between two strings that agree with c on k bytes agrees with c on k bytes. */
  lemma Between(data: Bytes, a: nat, z: nat, b: nat, c: nat, n: nat, k: nat)
    requires k <= n && AtMost(data, a, z, n) && AtMost(data, z, b, n)
    requires Agree(data, a, c, k) && Agree(data, b, c, k)
    ensures Agree(data, z, c, k)
  {
    AtMostShorter(data, a, z, n, k);
    AtMostShorter(data, z, b, n, k);
    CommonMeans(data, a, z, k);
    CommonMeans(data, z, b, k);
    var d := Common(data, a, z, k);
    if d < k {
      // z exceeds a, hence c and b, at d
      assert Agree(data, z, b, d) && At(data, z, d) != At(data, b, d);
      AtMostAt(data, z, b, k, d);
      assert false;
    }
  }

  /** Nothing at most p agrees with c further than p does, when p is less than c. */
  lemma BelowAgreesLess(data: Bytes, z: nat, p: nat, c: nat, n: nat, d: nat)
    requires d < n && AtMost(data, z, p, n)
    requires Agree(data, p, c, d) && At(data, p, d) < At(data, c, d)
    ensures Common(data, z, c, n) <= d
    ensures AtMost(data, z, c, n)
  {
    AgreeAtMostStrict(data, p, c, n, d);
    AtMostTrans(data, z, p, c, n);
    CommonMeans(data, z, c, n);
    if Common(data, z, c, n) > d {
      assert Agree(data, z, p, d) && At(data, z, d) != At(data, p, d);
      AtMostAt(data, z, p, n, d);
      assert false;
    }
  }

  lemma AgreeAtMostStrict(data: Bytes, p: nat, c: nat, n: nat, d: nat)
    requires d < n && Agree(data, p, c, d) && At(data, p, d) < At(data, c, d)
    ensures AtMost(data, p, c, n)
  {
    AtMostAt(data, p, c, n, d);
  }

  /** Likewise upwards from a string that is greater than c. */
  lemma AboveAgreesLess(data: Bytes, z: nat, p: nat, c: nat, n: nat, d: nat)
    requires d < n && AtMost(data, p, z, n)
    requires Agree(data, p, c, d) && At(data, c, d) < At(data, p, d)
    ensures Common(data, z, c, n) <= d
    ensures AtMost(data, c, z, n)
  {
    AgreeAtMostStrict(data, c, p, n, d);
    AtMostTrans(data, c, p, z, n);
    CommonMeans(data, z, c, n);
    if Common(data, z, c, n) > d {
      assert Agree(data, p, z, d) && At(data, z, d) != At(data, p, d);
      AtMostAt(data, p, z, n, d);
      assert false;
    }
  }
}
