/** Powers of two and the bitwise operators of C on unsigned integers.

    Machine words are modelled as naturals. `&` and `|` are defined bit by bit, and the
    lemmas give the arithmetic meaning of the masks the kernel uses. A left shift by `k`
    is a multiplication by `Pow2(k)`, a right shift a division. */
module Bits {

  function Pow2(k: nat): (r: nat)
    ensures r >= 1
  {
    if k == 0 then 1 else 2 * Pow2(k - 1)
  }

  function BitAnd(x: nat, y: nat): nat {
    if x == 0 || y == 0 then 0
    else (if x % 2 == 1 && y % 2 == 1 then 1 else 0) + 2 * BitAnd(x / 2, y / 2)
  }

  function BitOr(x: nat, y: nat): nat
    decreases x + y
  {
    if x == 0 then y else if y == 0 then x
    else (if x % 2 == 1 || y % 2 == 1 then 1 else 0) + 2 * BitOr(x / 2, y / 2)
  }

  /** The quotient and remainder are unique. */
  lemma DivModUnique(x: int, m: int, q: int, r: int)
    requires m > 0 && x == q * m + r && 0 <= r < m
    ensures x / m == q && x % m == r
  {
    var q', r' := x / m, x % m;
    assert x == q' * m + r';
    assert (q - q') * m == r' - r;
    if q > q' {
      Mono(1, q - q', m);
    } else if q < q' {
      Mono(q - q', -1, m);
    }
  }

  lemma Mono(a: int, b: int, m: int)
    requires a <= b && m >= 0
    ensures a * m <= b * m
  {}

  /** One step down: the bits of `x` above the lowest are the bits of `x / 2`. */
  lemma HalfStep(x: nat, m: int)
    requires m > 0
    ensures x / (2 * m) == (x / 2) / m
    ensures x % (2 * m) == 2 * ((x / 2) % m) + x % 2
  {
    var h := x / 2;
    var q, r := h / m, h % m;
    assert x == 2 * h + x % 2;
    assert h == q * m + r;
    assert x == q * (2 * m) + (2 * r + x % 2);
    DivModUnique(x, 2 * m, q, 2 * r + x % 2);
  }

  // ----- Single bits and low bits, one bit at a time -----

  predicate BitSet(x: nat, k: nat)
    decreases k
  {
    if k == 0 then x % 2 == 1 else BitSet(x / 2, k - 1)
  }

  function Low(x: nat, k: nat): nat
    decreases k
  {
    if k == 0 then 0 else x % 2 + 2 * Low(x / 2, k - 1)
  }

  lemma {:induction false} BitSetIsDiv(x: nat, k: nat)
    ensures BitSet(x, k) <==> (x / Pow2(k)) % 2 == 1
    decreases k
  {
    if k > 0 {
      BitSetIsDiv(x / 2, k - 1);
      HalfStep(x, Pow2(k - 1));
    }
  }

  lemma {:induction false} LowIsMod(x: nat, k: nat)
    ensures Low(x, k) == x % Pow2(k)
    decreases k
  {
    if k > 0 {
      LowIsMod(x / 2, k - 1);
      HalfStep(x, Pow2(k - 1));
    }
  }

  /** `x >> k`. */
  function Shr(x: nat, k: nat): nat
    decreases k
  {
    if k == 0 then x else Shr(x / 2, k - 1)
  }

  lemma {:induction false} ShrIsDiv(x: nat, k: nat)
    ensures Shr(x, k) == x / Pow2(k)
    decreases k
  {
    if k > 0 {
      ShrIsDiv(x / 2, k - 1);
      HalfStep(x, Pow2(k - 1));
    }
  }

  // ----- The masks of the kernel -----

  /** `x & ((1 << k) - 1)` keeps the low `k` bits. */
  lemma {:induction false} AndLowMask(x: nat, k: nat)
    ensures BitAnd(x, Pow2(k) - 1) == Low(x, k)
    decreases k
  {
    if k > 0 {
      AndLowMask(x / 2, k - 1);
      AndStep(x, Pow2(k) - 1, Pow2(k - 1) - 1, true);
    }
  }

  /** `x & (1 << k)` is nonzero exactly when bit `k` of `x` is set. */
  lemma {:induction false} AndSingleBit(x: nat, k: nat)
    ensures BitAnd(x, Pow2(k)) == if BitSet(x, k) then Pow2(k) else 0
    decreases k
  {
    if k == 0 {
      AndStep(x, 1, 0, true);
    } else {
      AndStep(x, Pow2(k), Pow2(k - 1), false);
      AndSingleBit(x / 2, k - 1);
    }
  }

  /** `x & ~((1 << k) - 1)` on `w`-bit words clears the low `k` bits. */
  lemma {:induction false} AndHighMask(x: nat, k: nat, w: nat)
    requires k <= w && x < Pow2(w)
    ensures Pow2(k) <= Pow2(w)
    ensures BitAnd(x, Pow2(w) - Pow2(k)) == x - Low(x, k)
    decreases w
  {
    Pow2Monotone(k, w);
    if k == 0 {
      AndAll(x, w);
    } else {
      AndHighMask(x / 2, k - 1, w - 1);
      HighStep(x, k, w);
    }
  }

  lemma HighStep(x: nat, k: nat, w: nat)
    requires 0 < k <= w && Pow2(k) <= Pow2(w)
    requires BitAnd(x / 2, Pow2(w - 1) - Pow2(k - 1)) == x / 2 - Low(x / 2, k - 1)
    ensures BitAnd(x, Pow2(w) - Pow2(k)) == x - Low(x, k)
  {}

  lemma {:induction false} AndAll(x: nat, w: nat)
    requires x < Pow2(w)
    ensures BitAnd(x, Pow2(w) - 1) == x
    decreases w
  {
    if w > 0 {
      AndAll(x / 2, w - 1);
      AndStep(x, Pow2(w) - 1, Pow2(w - 1) - 1, true);
    }
  }

  /** `x & ~(1 << k)` on `w`-bit words clears bit `k` and nothing else. */
  lemma {:induction false} AndClearBit(x: nat, k: nat, w: nat)
    requires k < w && x < Pow2(w)
    ensures Pow2(k) < Pow2(w)
    ensures BitAnd(x, Pow2(w) - 1 - Pow2(k)) == if BitSet(x, k) then x - Pow2(k) else x
    decreases w
  {
    Pow2Monotone(k + 1, w);
    if k == 0 {
      ClearLowest(x, w);
    } else {
      AndClearBit(x / 2, k - 1, w - 1);
      ClearHigher(x, k, w);
    }
  }

  lemma ClearLowest(x: nat, w: nat)
    requires 0 < w && x < Pow2(w)
    ensures BitAnd(x, Pow2(w) - 2) == x - x % 2
  {
    AndStep(x, Pow2(w) - 2, Pow2(w - 1) - 1, false);
    AndAll(x / 2, w - 1);
  }

  lemma ClearHigher(x: nat, k: nat, w: nat)
    requires 0 < k < w && Pow2(k) < Pow2(w)
    requires BitAnd(x / 2, Pow2(w - 1) - 1 - Pow2(k - 1)) == x / 2 - if BitSet(x, k) then Pow2(k - 1) else 0
    ensures BitAnd(x, Pow2(w) - 1 - Pow2(k)) == x - if BitSet(x, k) then Pow2(k) else 0
  {}

  /** `&`, lowest bit first. */
  lemma AndStep(x: nat, y: nat, half: nat, odd: bool)
    requires y == 2 * half + if odd then 1 else 0
    ensures BitAnd(x, y) == (if x % 2 == 1 && odd then 1 else 0) + 2 * BitAnd(x / 2, half)
  {}

  /** `|` of two words that share no bit position is their sum. */
  lemma {:induction false} OrDisjoint(a: nat, p: nat, k: nat)
    requires p < Pow2(k)
    ensures BitOr(a * Pow2(k), p) == a * Pow2(k) + p
    decreases k
  {
    if k == 0 {
    } else {
      var h := Pow2(k - 1);
      assert a * Pow2(k) == 2 * (a * h);
      if a * Pow2(k) != 0 && p != 0 {
        OrDisjoint(a, p / 2, k - 1);
        assert (a * Pow2(k)) / 2 == a * h;
      }
    }
  }

  lemma {:induction false} Pow2Monotone(j: nat, k: nat)
    requires j <= k
    ensures Pow2(j) <= Pow2(k)
    ensures j < k ==> 2 * Pow2(j) <= Pow2(k)
    decreases k - j
  {
    if j < k {
      Pow2Monotone(j + 1, k);
    }
  }

  lemma {:induction false} Pow2Add(j: nat, k: nat)
    ensures Pow2(j + k) == Pow2(j) * Pow2(k)
    decreases k
  {
    if k == 0 {
    } else {
      Pow2Add(j, k - 1);
      calc {
        Pow2(j + k);
        2 * Pow2(j + k - 1);
        2 * (Pow2(j) * Pow2(k - 1));
        Pow2(j) * (2 * Pow2(k - 1));
      }
    }
  }
}
