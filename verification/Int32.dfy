/** The bit operators of JavaScript, which work on 32-bit signed integers. */
module Int32 {
  type Byte = x: int | 0 <= x < 256

  const TWO_32 := 0x1_0000_0000
  const TWO_31 := 0x8000_0000

  /** What `ToInt32` makes of an integer. */
  function Wrap32(x: int): (r: int)
    ensures -TWO_31 <= r < TWO_31 && (x - r) % TWO_32 == 0
  {
    (x + TWO_31) % TWO_32 - TWO_31
  }

  function Pow2(n: nat): (r: nat)
    ensures r > 0
  {
    if n == 0 then 1 else 2 * Pow2(n - 1)
  }

  /** `x << n`. */
  function ShiftLeft(x: int, n: nat): int {
    Wrap32(x * Pow2(n))
  }

  /** `x >> n`, which keeps the sign. */
  function ShiftRight(x: int, n: nat): int {
    x / Pow2(n)
  }

  /** `x & (2 ** n - 1)`, for a negative `x` too. */
  function LowBits(x: int, n: nat): (r: int)
    ensures 0 <= r < Pow2(n)
  {
    x % Pow2(n)
  }

  lemma WrapBy(x: int) returns (q: int)
    ensures Wrap32(x) == x - TWO_32 * q
  {
    q := (x + TWO_31) / TWO_32;
  }

  // ----- Bitwise or -----

  /** The bits that are set in `x` or in `y`. */
  function BitOr(x: nat, y: nat): nat
    decreases x + y
  {
    if x == 0 then y
    else if y == 0 then x
    else (if x % 2 == 1 || y % 2 == 1 then 1 else 0) + 2 * BitOr(x / 2, y / 2)
  }

  /** `x | y`, on the 32 bits of each. */
  function Or(x: int, y: int): int {
    Wrap32(BitOr(x % TWO_32, y % TWO_32))
  }

  lemma {:induction false} BitOrCommutes(x: nat, y: nat)
    ensures BitOr(x, y) == BitOr(y, x)
    decreases x + y
  {
    if x != 0 && y != 0 {
      BitOrCommutes(x / 2, y / 2);
    }
  }

  /** Where `x` has no bits, `or` puts those of `y`: it adds them. */
  lemma {:induction false} BitOrAdds(k: nat, n: nat, y: nat)
    requires y < Pow2(n)
    ensures BitOr(k * Pow2(n), y) == k * Pow2(n) + y
    decreases n
  {
    var x := k * Pow2(n);
    if x != 0 && y != 0 {
      assert x == 2 * (k * Pow2(n - 1));
      assert y / 2 < Pow2(n - 1);
      BitOrAdds(k, n - 1, y / 2);
    }
  }

  lemma {:induction false} PowersAdd(a: nat, b: nat)
    ensures Pow2(a + b) == Pow2(a) * Pow2(b)
    decreases a
  {
    if a > 0 {
      PowersAdd(a - 1, b);
      assert 2 * (Pow2(a - 1) * Pow2(b)) == (2 * Pow2(a - 1)) * Pow2(b);
    }
  }

  lemma WordPowers()
    ensures Pow2(31) == TWO_31 && Pow2(32) == TWO_32
  {
    assert Pow2(8) == 256;
    PowersAdd(8, 8);
    PowersAdd(16, 8);
    PowersAdd(24, 7);
  }

  lemma NextMultiple(k: int, m: int, p: nat)
    requires p > 0 && k < m
    ensures k * p <= m * p - p
  {
    assert (m - 1 - k) * p >= 0;
  }

  lemma Quotient(x: int, k: int, p: nat, m: int)
    requires p > 0 && x == k * p && x < m * p
    ensures k < m
  {
    ProductOrder(m, k, p);
  }

  lemma ProductOrder(m: int, k: int, p: nat)
    ensures m <= k ==> m * p <= k * p
  {
    if m <= k {
      assert (k - m) * p >= 0;
    }
  }

  /** A multiple below a larger one leaves room for one step more. */
  lemma RoomBelow(x: int, k: int, p: nat, m: int)
    requires p > 0 && x == k * p && x < m * p
    ensures x + p <= m * p
  {
    Quotient(x, k, p, m);
    NextMultiple(k, m, p);
  }

  /** The 32 bits of a multiple of `2 ** n` are one too. */
  lemma UnsignedMultiple(x: int, n: nat, k: int) returns (u: nat)
    requires -TWO_31 <= x < TWO_31 && n <= 31 && x == k * Pow2(n)
    ensures u * Pow2(n) == x % TWO_32 == if x >= 0 then x else x + TWO_32
    ensures x + Pow2(n) <= TWO_31
  {
    hide Pow2;
    var p: int, q: int := Pow2(n), Pow2(32 - n);
    WordPowers();
    PowersAdd(31 - n, n);
    PowersAdd(32 - n, n);
    RoomBelow(x, k, p, Pow2(31 - n));
    var w := if x >= 0 then k else k + q;
    assert (k + q) * p == k * p + q * p;
    assert (w + 1) * p == w * p + p && 0 - p == -1 * p;
    Quotient(0 - p, -1, p, w + 1);
    u := w;
  }

  /** An integer in range is known by its 32 bits. */
  lemma WrapUnsigned(x: int)
    requires -TWO_31 <= x < TWO_31
    ensures Wrap32(if x >= 0 then x else x + TWO_32) == x
  {
  }

  /** `x | y` is `x + y` when `x` has none of the `n` low bits and `y` no others. */
  lemma OrAdds(x: int, y: nat, n: nat, k: int)
    requires -TWO_31 <= x < TWO_31 && n <= 31 && x == k * Pow2(n) && y < Pow2(n)
    ensures Or(x, y) == x + y && Or(y, x) == x + y && -TWO_31 <= x + y < TWO_31
  {
    hide Pow2, BitOr, Wrap32;
    var p := Pow2(n);
    var u := UnsignedMultiple(x, n, k);
    assert y % TWO_32 == y && (x >= 0 <==> x + y >= 0) by {
      SameSign(x, y, k, p);
    }
    BitOrAdds(u, n, y);
    BitOrCommutes(u * p, y);
    WrapUnsigned(x + y);
  }

  lemma SameSign(x: int, y: nat, k: int, p: nat)
    requires x == k * p && y < p && x + p <= TWO_31 && -TWO_31 <= x
    ensures x >= 0 <==> x + y >= 0
    ensures y < TWO_32
  {
    if x < 0 {
      ProductOrder(0, k, p);
      NextMultiple(k, 0, p);
    }
  }
}
