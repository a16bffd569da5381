/** Shifts and masks of unsigned words, one bit at a time. */
module Shifts {
  import opened Powers

  /** x << k */
  function Shl(x: nat, k: nat): nat {
    if k == 0 then x else 2 * Shl(x, k - 1)
  }

  /** x >> k */
  function Shr(x: nat, k: nat): nat {
    if k == 0 then x else Shr(x / 2, k - 1)
  }

  /** x & ((1 << k) - 1) */
  function Mask(x: nat, k: nat): (r: nat)
    ensures r < Pow2(k)
  {
    if k == 0 then 0 else x % 2 + 2 * Mask(x / 2, k - 1)
  }

  /** Bit k of x. */
  function Bit(x: nat, k: nat): (b: nat)
    ensures b <= 1
  {
    Shr(x, k) % 2
  }

  lemma {:induction false} Parts(x: nat, k: nat)
    ensures x == Shl(Shr(x, k), k) + Mask(x, k)
  {
    if k > 0 {
      Parts(x / 2, k - 1);
    }
  }

  lemma {:induction false} PartsUnique(x: nat, k: nat, q: nat, r: nat)
    requires x == Shl(q, k) + r && r < Pow2(k)
    ensures Shr(x, k) == q && Mask(x, k) == r
  {
    if k > 0 {
      PartsUnique(x / 2, k - 1, q, r / 2);
    }
  }

  lemma {:induction false} ShrShr(x: nat, a: nat, b: nat)
    ensures Shr(Shr(x, a), b) == Shr(x, a + b)
  {
    if a > 0 {
      ShrShr(x / 2, a - 1, b);
    }
  }

  lemma ShrStep(x: nat, k: nat)
    ensures Shr(x, k + 1) == Shr(x, k) / 2
  {
    ShrShr(x, k, 1);
    assert Shr(Shr(x, k), 1) == Shr(Shr(x, k) / 2, 0);
  }

  lemma {:induction false} ShlShl(x: nat, a: nat, b: nat)
    ensures Shl(Shl(x, a), b) == Shl(x, a + b)
  {
    if b > 0 {
      ShlShl(x, a, b - 1);
    }
  }

  lemma {:induction false} ShlSum(x: nat, y: nat, k: nat)
    ensures Shl(x + y, k) == Shl(x, k) + Shl(y, k)
  {
    if k > 0 {
      ShlSum(x, y, k - 1);
    }
  }

  lemma {:induction false} ShlOne(k: nat)
    ensures Shl(1, k) == Pow2(k) && Shl(0, k) == 0
  {
    if k > 0 {
      ShlOne(k - 1);
    }
  }

  lemma ShlMono(x: nat, y: nat, k: nat)
    ensures x <= y ==> Shl(x, k) <= Shl(y, k)
    ensures x < y ==> Shl(x, k) + Pow2(k) <= Shl(y, k)
  {
    if x <= y {
      ShlSum(x, y - x, k);
    }
    if x < y {
      ShlSum(1, y - x - 1, k);
      ShlOne(k);
    }
  }

  lemma ShrAtLeast(x: nat, q: nat, k: nat)
    ensures Shl(q, k) <= x <==> q <= Shr(x, k)
  {
    Parts(x, k);
    ShlMono(q, Shr(x, k), k);
    ShlMono(Shr(x, k), q, k);
  }

  lemma ShrOfShl(x: nat, k: nat)
    ensures Shr(Shl(x, k), k) == x && Mask(Shl(x, k), k) == 0
  {
    PartsUnique(Shl(x, k), k, x, 0);
  }

  lemma {:induction false} MaskOfMask(x: nat, k: nat, w: nat)
    requires k <= w
    ensures Mask(Mask(x, w), k) == Mask(x, k)
  {
    if k > 0 {
      MaskOfMask(x / 2, k - 1, w - 1);
    }
  }

  lemma {:induction false} ShrOfMask(x: nat, k: nat, w: nat)
    ensures Shr(Mask(x, k + w), k) == Mask(Shr(x, k), w)
  {
    if k > 0 {
      ShrOfMask(x / 2, k - 1, w);
    }
  }

  lemma {:induction false} MaskStep(x: nat, k: nat)
    ensures Mask(x, k + 1) == Mask(x, k) + Shl(Bit(x, k), k)
  {
    if k > 0 {
      MaskStep(x / 2, k - 1);
    }
  }

  lemma BelowMask(x: nat, k: nat)
    ensures x < Pow2(k) <==> Mask(x, k) == x
    ensures x < Pow2(k) <==> Shr(x, k) == 0
  {
    Parts(x, k);
    ShlOne(k);
    ShlMono(1, Shr(x, k), k);
    if x < Pow2(k) {
      PartsUnique(x, k, 0, x);
    }
  }
}
