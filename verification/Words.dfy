/** Machine words as bounded integers, and the C operators the sources use on them. */
module Words {

  type u8 = x: int | 0 <= x < 0x100
  type u16 = x: int | 0 <= x < 0x1_0000
  type u32 = x: int | 0 <= x < 0x1_0000_0000

  /** What a `uint32_t` keeps of an integer. */
  function Wrap(x: int): u32 {
    x % 0x1_0000_0000
  }

  /** `x += d` on a `uint32_t`. */
  function Plus(x: u32, d: int): u32 {
    Wrap(x + d)
  }

  /** `x - y` on `uint32_t`. */
  function Minus(x: u32, y: u32): (d: u32)
    ensures d == 0 <==> x == y
  {
    Wrap(x - y)
  }

  /** Wrapping early changes nothing. */
  lemma WrapWrap(x: int, d: int)
    ensures Wrap(Wrap(x) + d) == Wrap(x + d)
  {
    var m := 0x1_0000_0000;
    var z := x % m + d;
    FromQuotient(x + d, m, x / m + z / m, z % m);
  }

  lemma PlusPlus(x: u32, a: int, b: int)
    ensures Plus(Plus(x, a), b) == Plus(x, a + b)
  {
    WrapWrap(x + a, b);
  }

  /** `addr & ~(k-1)` for a power of two `k`. */
  function AlignDown(addr: u32, k: int): (r: u32)
    requires k > 0
    ensures r % k == 0 && r <= addr < r + k
  {
    assert addr == k * (addr / k) + addr % k;
    AlignedMultiple(addr / k, k);
    addr - addr % k
  }

  lemma AlignedMultiple(q: int, k: int)
    requires k > 0
    ensures (k * q) % k == 0
  {
    assert k * q == q * k + 0;
    FromQuotient(k * q, k, q, 0);
  }

  lemma FromQuotient(x: int, k: int, q: int, r: int)
    requires k > 0 && 0 <= r < k && x == q * k + r
    ensures x / k == q && x % k == r
  {
    var d := x / k - q;
    assert d * k == (x / k) * k - q * k;
    MulSize(d, k);
  }

  lemma MulSize(d: int, k: int)
    requires k > 0
    ensures d > 0 ==> d * k >= k
    ensures d < 0 ==> d * k <= -k
  {
  }

  lemma HalvedQuotient(x: nat, p: nat)
    requires p > 0
    ensures x / (2 * p) == (x / 2) / p
    ensures x % (2 * p) == 2 * ((x / 2) % p) + x % 2
  {
    var q, r := (x / 2) / p, (x / 2) % p;
    assert x / 2 == q * p + r;
    assert q * (2 * p) == 2 * (q * p);
    FromQuotient(x, 2 * p, q, 2 * r + x % 2);
  }

  function Pow2(n: nat): (p: nat)
    ensures p > 0
  {
    if n == 0 then 1 else 2 * Pow2(n - 1)
  }

  lemma Pow2Values()
    ensures Pow2(1) == 2 && Pow2(2) == 4 && Pow2(3) == 8 && Pow2(6) == 64 && Pow2(8) == 0x100
    ensures Pow2(32) == 0x1_0000_0000
  {
    assert Pow2(4) == 16;
    assert Pow2(12) == 0x1000 by { assert Pow2(10) == 0x400; }
    assert Pow2(16) == 0x1_0000 by { assert Pow2(14) == 0x4000; }
    assert Pow2(20) == 0x10_0000 by { assert Pow2(18) == 0x4_0000; }
    assert Pow2(24) == 0x100_0000 by { assert Pow2(22) == 0x40_0000; }
    assert Pow2(28) == 0x1000_0000 by { assert Pow2(26) == 0x400_0000; }
    assert Pow2(32) == 0x1_0000_0000 by { assert Pow2(30) == 0x4000_0000; }
  }

  // ---------- `&`, `|`, `^`, bit by bit ----------

  datatype Logic = And | Or | Xor

  function OnBit(op: Logic, a: bool, b: bool): bool {
    match op
    case And => a && b
    case Or => a || b
    case Xor => a != b
  }

  /** Applies `op` to the low `n` bits of `x` and `y`. */
  function Bits(op: Logic, x: nat, y: nat, n: nat): (r: nat)
    ensures r < Pow2(n)
  {
    if n == 0 then 0
    else 2 * Bits(op, x / 2, y / 2, n - 1) + if OnBit(op, x % 2 == 1, y % 2 == 1) then 1 else 0
  }

  function Logic32(op: Logic, x: u32, y: u32): u32 {
    Pow2Values();
    Bits(op, x, y, 32)
  }

  /** `x ^ x` is zero. */
  lemma {:induction false} XorSelf(x: nat, n: nat)
    ensures Bits(Xor, x, x, n) == 0
  {
    if n > 0 { XorSelf(x / 2, n - 1); }
  }

  /** `(x ^ y) ^ y` is `x`, and `y ^ (x ^ y)` is `x`. */
  lemma {:induction false} XorCancels(x: nat, y: nat, n: nat)
    requires x < Pow2(n)
    ensures Bits(Xor, Bits(Xor, x, y, n), y, n) == x
    ensures Bits(Xor, y, Bits(Xor, x, y, n), n) == x
  {
    if n > 0 { XorCancels(x / 2, y / 2, n - 1); }
  }

  lemma Pow2Step(k: nat)
    requires k > 0
    ensures Pow2(k) == 2 * Pow2(k - 1)
  {
  }

  lemma AndOddStep(x: nat, m: nat, n: nat)
    requires n > 0
    ensures Bits(And, x, 2 * m + 1, n) == 2 * Bits(And, x / 2, m, n - 1) + x % 2
    ensures Bits(And, x, 2 * m, n) == 2 * Bits(And, x / 2, m, n - 1)
  {
    FromQuotient(2 * m + 1, 2, m, 1);
    FromQuotient(2 * m, 2, m, 0);
  }

  /** Masking with `k` low ones takes a remainder. */
  lemma MaskLow(x: nat, k: nat, n: nat)
    requires k <= n
    ensures Bits(And, x, Pow2(k) - 1, n) == x % Pow2(k)
  {
    hide Bits, Pow2;
    MaskIsRest(x, k, n);
  }

  function LowPart(x: nat, m: nat): nat
    requires m > 0
  {
    x % m
  }

  lemma {:induction false} MaskIsRest(x: nat, k: nat, n: nat)
    requires k <= n
    ensures Bits(And, x, Pow2(k) - 1, n) == LowPart(x, Pow2(k))
  {
    hide Pow2, Bits, LowPart;
    if k == 0 {
      Pow2Zero();
      AndZero(x, n);
      LowPartOfOne(x);
    } else {
      var p := Pow2(k - 1);
      Pow2Step(k);
      MaskIsRest(x / 2, k - 1, n - 1);
      AndOddStep(x, p - 1, n);
      HalvedRest(x, p, Pow2(k));
    }
  }

  lemma Pow2Zero()
    ensures Pow2(0) == 1
  {
  }

  lemma LowPartOfOne(x: nat)
    ensures LowPart(x, 1) == 0
  {
  }

  lemma HalvedRest(x: nat, p: nat, m: nat)
    requires p > 0 && m == 2 * p
    ensures LowPart(x, m) == 2 * LowPart(x / 2, p) + x % 2
  {
    HalvedQuotient(x, p);
  }

  lemma {:induction false} AndZero(x: nat, n: nat)
    ensures Bits(And, x, 0, n) == 0
  {
    if n > 0 { AndZero(x / 2, n - 1); }
  }

  /** The three masks of a ModRM byte cut it into its two, three and three bits. */
  lemma ModField(b: u8, mask: nat, n: nat)
    requires mask == 0xc0 && n == 8
    ensures Bits(And, b, mask, n) == 64 * (b / 64)
  {
    hide Bits;
    var m3 := 3;
    AndShift3(b, 8 * m3, n);
    AndShift3(b / 8, m3, n - 3);
    assert b / 8 / 8 == b / 64;
    MaskTwo(b / 64, m3, n - 6);
  }

  lemma RField(b: u8, mask: nat, n: nat)
    requires mask == 0x38 && n == 8
    ensures Bits(And, b, mask, n) == 8 * ((b / 8) % 8)
  {
    var m7 := 7;
    AndShift3(b, m7, n);
    MaskThree(b / 8, m7, n - 3);
  }

  lemma MaskTwo(x: nat, m: nat, n: nat)
    requires m == 3 && n >= 2
    ensures Bits(And, x, m, n) == x % 4
  {
    Pow2Values();
    MaskLow(x, 2, n);
  }

  lemma MaskThree(x: nat, m: nat, n: nat)
    requires m == 7 && n >= 3
    ensures Bits(And, x, m, n) == x % 8
  {
    Pow2Values();
    MaskLow(x, 3, n);
  }

  lemma AndShift3(x: nat, m: nat, n: nat)
    requires n >= 3
    ensures Bits(And, x, 8 * m, n) == 8 * Bits(And, x / 8, m, n - 3)
  {
    hide Bits;
    AndOddStep(x, 4 * m, n);
    AndOddStep(x / 2, 2 * m, n - 1);
    AndOddStep(x / 4, m, n - 2);
    assert x / 2 / 2 == x / 4 && x / 4 / 2 == x / 8;
  }
}
