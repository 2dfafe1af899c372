/** Bit operations on 64-bit words, as arithmetic on the numbers they stand for. */
module Bits {
  function Pow2(k: nat): nat {
    if k == 0 then 1 else 2 * Pow2(k - 1)
  }

  const WORD := 0x1_0000_0000_0000_0000
  const HALF := 0x8000_0000_0000_0000

  /** A number as a signed 64-bit word holds it. */
  function Wrap(x: int): (w: int)
    ensures -HALF <= w < HALF
  {
    (x + HALF) % WORD - HALF
  }

  /** The word as an unsigned number. */
  function Unsigned(w: int): (u: nat)
    ensures u < WORD
  {
    w % WORD
  }

  /** Bit by bit, of the lowest `bits` bits. */
  function OrBits(a: nat, b: nat, bits: nat): nat {
    if bits == 0 then 0
    else 2 * OrBits(a / 2, b / 2, bits - 1) + if a % 2 == 1 || b % 2 == 1 then 1 else 0
  }

  function AndBits(a: nat, b: nat, bits: nat): nat {
    if bits == 0 then 0
    else 2 * AndBits(a / 2, b / 2, bits - 1) + if a % 2 == 1 && b % 2 == 1 then 1 else 0
  }

  function Or(v: int, w: int): int {
    Wrap(OrBits(Unsigned(v), Unsigned(w), 64))
  }

  function And(v: int, w: int): int {
    Wrap(AndBits(Unsigned(v), Unsigned(w), 64))
  }

  function Doubled(w: int, k: nat): int {
    if k == 0 then w else 2 * Doubled(w, k - 1)
  }

  function ShiftLeft(w: int, k: nat): int {
    Wrap(Doubled(w, k))
  }

  // ---- What they compute ----

  lemma {:induction false} OrOfZero(a: nat, bits: nat)
    requires a < Pow2(bits)
    ensures OrBits(a, 0, bits) == a
  {
    if bits > 0 {
      OrOfZero(a / 2, bits - 1);
    }
  }

  /** Bits that do not meet are added. */
  lemma {:induction false} OrIsSum(q: nat, b: nat, k: nat, bits: nat)
    requires b < Pow2(k) && k <= bits && q * Pow2(k) < Pow2(bits)
    ensures OrBits(q * Pow2(k), b, bits) == q * Pow2(k) + b
    decreases k
  {
    var a := q * Pow2(k);
    if k == 0 {
      OrOfZero(a, bits);
    } else {
      HalfOfMultiple(q, Pow2(k - 1));
      assert a == 2 * (q * Pow2(k - 1));
      OrIsSum(q, b / 2, k - 1, bits - 1);
    }
  }

  lemma HalfOfMultiple(q: nat, p: nat)
    ensures q * (2 * p) == 2 * (q * p)
  {
  }

  lemma {:induction false} AndOfZero(a: nat, bits: nat)
    ensures AndBits(a, 0, bits) == 0
  {
    if bits > 0 {
      AndOfZero(a / 2, bits - 1);
    }
  }

  /** A mask of low bits takes the remainder. */
  lemma {:induction false} MaskIsRemainder(a: nat, k: nat, bits: nat)
    requires k <= bits
    ensures Pow2(k) > 0
    ensures AndBits(a, Pow2(k) - 1, bits) == a % Pow2(k)
    decreases k
  {
    if k == 0 {
      AndOfZero(a, bits);
    } else {
      MaskIsRemainder(a / 2, k - 1, bits - 1);
      RemainderByHalves(a, Pow2(k - 1));
      assert (Pow2(k) - 1) % 2 == 1 && (Pow2(k) - 1) / 2 == Pow2(k - 1) - 1;
    }
  }

  lemma RemainderByHalves(a: nat, p: nat)
    requires p > 0
    ensures a % (2 * p) == 2 * ((a / 2) % p) + a % 2
  {
    var h := a / 2;
    var q, r := h / p, h % p;
    assert h == q * p + r;
    assert a == q * (2 * p) + (2 * r + a % 2) by {
      HalfOfMultiple(q, p);
    }
    RemainderIs(a, 2 * p, q, 2 * r + a % 2);
  }

  lemma RemainderIs(a: int, m: int, q: int, r: int)
    requires 0 <= r < m && a == q * m + r
    ensures a % m == r && a / m == q
  {
    var d := a / m - q;
    assert a == (a / m) * m + a % m;
    assert d * m == r - a % m;
    ProductGrows(d, m);
  }

  lemma ProductGrows(d: int, m: int)
    requires m > 0
    ensures d >= 1 ==> d * m >= m
    ensures d <= -1 ==> d * m <= -m
  {
    if d >= 1 {
      assert d * m == m + (d - 1) * m;
    } else {
      assert d * m == -m - (-d - 1) * m;
    }
  }

  lemma {:induction false} DoubledIsProduct(w: int, k: nat)
    ensures Doubled(w, k) == w * Pow2(k)
  {
    if k > 0 {
      DoubledIsProduct(w, k - 1);
    }
  }

  lemma SmallWord(w: int)
    requires 0 <= w < HALF
    ensures Unsigned(w) == w && Wrap(w) == w
  {
    RemainderIs(w, WORD, 0, w);
    RemainderIs(w + HALF, WORD, 0, w + HALF);
  }

  /** A mask of low bits, on a word that is not negative. */
  lemma MaskWord(w: int, mask: int, k: nat)
    requires 0 <= w < HALF && k <= 63 && mask == Pow2(k) - 1 && mask < HALF
    ensures Pow2(k) > 0 && And(w, mask) == w % Pow2(k)
  {
    MaskIsRemainder(w, k, 64);
    SmallWord(w);
    SmallWord(mask);
    SmallWord(w % Pow2(k));
  }
}
