/** Two's complement words as integers, the frame arithmetic, and the byte memory. */
module Bits {

  // ---------- words ----------

  const TWO_31: int := 0x8000_0000
  const TWO_32: int := 0x1_0000_0000
  const TWO_52: int := 0x10_0000_0000_0000
  const TWO_63: int := 0x8000_0000_0000_0000
  const TWO_64: int := 0x1_0000_0000_0000_0000

  predicate IsInt32(x: int) { -TWO_31 <= x < TWO_31 }
  predicate IsInt64(x: int) { -TWO_63 <= x < TWO_63 }

  /** The signed value of the low bits of x. */
  function Signed32(x: int): (r: int)
    ensures IsInt32(r) && (r - x) % TWO_32 == 0
    ensures IsInt32(x) ==> r == x
  {
    (x + TWO_31) % TWO_32 - TWO_31
  }

  function Signed64(x: int): (r: int)
    ensures IsInt64(r) && (r - x) % TWO_64 == 0
    ensures IsInt64(x) ==> r == x
  {
    (x + TWO_63) % TWO_64 - TWO_63
  }

  /** Division that rounds toward zero, as in C. */
  function Quotient(x: int, y: int): int
    requires y != 0
  {
    var q := (if x < 0 then -x else x) / (if y < 0 then -y else y);
    if (x < 0) == (y < 0) then q else -q
  }

  /** The bitwise or of two n-bit two's complement numbers. */
  function OrBits(x: int, y: int, n: nat): int
    decreases n
  {
    if n == 0 then if x < 0 || y < 0 then -1 else 0
    else 2 * OrBits(x / 2, y / 2, n - 1) + (if x % 2 == 1 || y % 2 == 1 then 1 else 0)
  }

  function Pow2(n: nat): (r: int)
    ensures r > 0
  {
    if n == 0 then 1 else 2 * Pow2(n - 1)
  }

  lemma {:induction false} OrZero(x: int, n: nat)
    requires -Pow2(n) <= x < Pow2(n)
    ensures OrBits(x, 0, n) == x
    decreases n
  {
    if n > 0 { OrZero(x / 2, n - 1); }
  }

  /** Bits that do not overlap are added: h above k bits, u below. */
  lemma {:induction false} OrDisjoint(h: int, x: int, u: int, k: nat, n: nat)
    requires k <= n && x == h * Pow2(k) && 0 <= u < Pow2(k) && -Pow2(n) <= x < Pow2(n)
    ensures OrBits(x, u, n) == x + u
    decreases n
  {
    if k == 0 {
      OrZero(x, n);
    } else {
      var y := h * Pow2(k - 1);
      assert x == 2 * y;
      OrDisjoint(h, y, u / 2, k - 1, n - 1);
      assert x / 2 == y && x % 2 == 0;
    }
  }

  lemma {:induction false} MulGrows(p: int, z: int)
    requires p > 0 && z > 0
    ensures p * z >= p
    decreases z
  {
    if z > 1 {
      MulGrows(p, z - 1);
      assert p * z == p * (z - 1) + p;
    }
  }

  lemma DivMod(x: int, p: int)
    requires p > 0
    ensures x == (x / p) * p + x % p && 0 <= x % p < p && (x >= 0 ==> x / p >= 0)
  {
  }

  /** Quotient and remainder are the only such numbers. */
  lemma ModUnique(x: int, p: int, q: int, r: int)
    requires p > 0 && x == p * q + r && 0 <= r < p
    ensures x % p == r && x / p == q
  {
    var d := x / p;
    assert x == p * d + x % p;
    assert p * (q - d) == x % p - r && p * (d - q) == r - x % p;
    if q > d {
      MulGrows(p, q - d);
      assert false;
    } else if d > q {
      MulGrows(p, d - q);
      assert false;
    }
  }

  lemma Pow2At12()
    ensures Pow2(12) == 4096
  {
    assert Pow2(4) == 16;
    assert Pow2(8) == 256;
  }

  // ---------- the frame arithmetic ----------

  predicate IsImm12(x: int) { -0x800 <= x <= 0x7FF }

  /** The least multiple of a at or above x. */
  function AlignUp(x: nat, a: nat): (r: nat)
    requires a > 0
    ensures x <= r < x + a && r % a == 0
  {
    var q := (x + a - 1) / a;
    assert (x + a - 1) == a * q + (x + a - 1) % a;
    ModUnique(a * q, a, q, 0);
    a * q
  }

  /** The bitwise and of two n-bit numbers. */
  function AndBits(x: nat, y: nat, n: nat): nat
    decreases n
  {
    if n == 0 then 0
    else 2 * AndBits(x / 2, y / 2, n - 1) + (if x % 2 == 1 && y % 2 == 1 then 1 else 0)
  }

  /** The formula of the source on 32-bit words, ~ and + taken modulo 2^32. */
  function AlignBits(x: nat, alignment: nat): nat
    requires 0 < alignment <= TWO_32
  {
    AndBits((x + (alignment - 1)) % TWO_32, TWO_32 - 1 - (alignment - 1), 32)
  }

  lemma {:induction false} AndOnes(x: nat, n: nat)
    requires x < Pow2(n)
    ensures AndBits(x, Pow2(n) - 1, n) == x
    decreases n
  {
    if n > 0 {
      AndOnes(x / 2, n - 1);
      assert (Pow2(n) - 1) / 2 == Pow2(n - 1) - 1;
    }
  }

  lemma {:induction false} Pow2Grows(k: nat, n: nat)
    requires k <= n
    ensures Pow2(k) <= Pow2(n)
  {
    if k < n { Pow2Grows(k, n - 1); }
  }

  /** Masking off the low k bits: x is q times 2^k plus r. */
  lemma {:induction false} AndMask(x: nat, q: nat, r: nat, k: nat, n: nat)
    requires k <= n && x == q * Pow2(k) + r && r < Pow2(k) && x < Pow2(n)
    ensures Pow2(k) <= Pow2(n) && AndBits(x, Pow2(n) - Pow2(k), n) == q * Pow2(k)
    decreases n
  {
    Pow2Grows(k, n);
    if k == 0 {
      AndOnes(x, n);
    } else {
      var y := q * Pow2(k - 1);
      assert q * Pow2(k) == 2 * y;
      assert x / 2 == y + r / 2;
      AndMask(x / 2, q, r / 2, k - 1, n - 1);
      var mask := Pow2(n) - Pow2(k);
      assert mask / 2 == Pow2(n - 1) - Pow2(k - 1) && mask % 2 == 0;
    }
  }

  lemma Pow2At32()
    ensures Pow2(32) == TWO_32
  {
    assert Pow2(8) == 256;
    assert Pow2(16) == 0x1_0000;
    assert Pow2(24) == 0x100_0000;
  }

  /** For a power of two, and no overflow, the formula is the least multiple at
      or above x. */
  lemma AlignIsAlignUp(x: nat, k: nat)
    requires k < 32 && x + Pow2(k) - 1 < TWO_32
    ensures Pow2(k) <= TWO_32 && AlignBits(x, Pow2(k)) == AlignUp(x, Pow2(k))
  {
    hide AndBits, Pow2;
    Pow2At32();
    Pow2Grows(k, 32);
    var a := Pow2(k);
    var y := x + (a - 1);
    var q, r := y / a, y % a;
    DivMod(y, a);
    AndMask(y, q, r, k, 32);
    assert y % TWO_32 == y;
    assert AlignUp(x, a) == a * q;
  }
}
