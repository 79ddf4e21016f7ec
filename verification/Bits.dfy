/** Bit operations of fixed-width words as functions on natural numbers. */
module Bits {

  const U64: nat := 0x1_0000_0000_0000_0000

  type byte = x: int | 0 <= x < 256

  function BigEndian(s: seq<byte>): nat {
    if s == [] then 0 else 256 * BigEndian(s[..|s| - 1]) + s[|s| - 1]
  }

  function Pow2(k: nat): (p: nat)
    ensures p > 0
  {
    if k == 0 then 1 else 2 * Pow2(k - 1)
  }

  function Shr(x: nat, s: nat): nat {
    if s == 0 then x else Shr(x / 2, s - 1)
  }

  predicate Bit(x: nat, k: nat) {
    Shr(x, k) % 2 == 1
  }

  function And(x: nat, y: nat): nat {
    if x == 0 || y == 0 then 0 else 2 * And(x / 2, y / 2) + if x % 2 == 1 && y % 2 == 1 then 1 else 0
  }

  function Or(x: nat, y: nat): nat
    decreases x + y
  {
    if x == 0 then y else if y == 0 then x
    else 2 * Or(x / 2, y / 2) + if x % 2 == 1 || y % 2 == 1 then 1 else 0
  }

  // ---------------------------------------------------------------- division

  lemma MultipleGap(d: int, m: int)
    requires m > 0 && d != 0
    ensures d > 0 ==> d * m >= m
    ensures d < 0 ==> d * m <= -m
  {
    if d > 0 { ProductAtLeast(d, m); } else { ProductAtLeast(-d, m); assert (-d) * m == -(d * m); }
  }

  lemma {:induction false} ProductAtLeast(d: int, m: int)
    requires m > 0 && d > 0
    ensures d * m >= m
  {
    if d > 1 { ProductAtLeast(d - 1, m); }
  }

  lemma DivUnique(a: int, m: int, q: int, r: int)
    requires m > 0 && a == q * m + r && 0 <= r < m
    ensures a / m == q && a % m == r
  {
    var q', r' := a / m, a % m;
    assert a == q' * m + r';
    assert (q - q') * m == q * m - q' * m;
    if q != q' { MultipleGap(q - q', m); }
  }

  lemma ModAdd(n: nat, m: nat)
    requires m > 0
    ensures (m + n) % m == n % m
  {
    DivUnique(m + n, m, n / m + 1, n % m);
  }

  /** Reducing modulo a multiple first changes nothing. */
  lemma ModOfMod(n: nat, c: nat, m: nat)
    requires m > 0 && c > 0
    ensures c * m > 0 && (n % (c * m)) % m == n % m
  {
    assert c * m > 0;
    var q, r := n / (c * m), n % (c * m);
    var q', r' := r / m, r % m;
    assert q * (c * m) == q * c * m;
    assert n == (q * c + q') * m + r';
    DivUnique(n, m, q * c + q', r');
  }

  /** Fewer than `m` consecutive numbers have distinct remainders. */
  lemma ModDistinct(i: nat, j: nat, m: nat)
    requires m > 0 && i < j < i + m
    ensures i % m != j % m
  {
    var q, d := i / m, j - i;
    if i % m + d < m {
      DivUnique(j, m, q, i % m + d);
    } else {
      assert j == (q + 1) * m + (i % m + d - m);
      DivUnique(j, m, q + 1, i % m + d - m);
    }
  }

  /** The difference of two wrapped counters is the true distance while that is below the wrap. */
  lemma WrappedDistance(n: nat, m: nat, w: nat)
    requires w > 0 && m <= n < m + w
    ensures (n % w - m % w) % w == n - m
  {
    DivUnique(n % w - m % w, w, m / w - n / w, n - m);
  }

  lemma WrappedSuccessor(n: nat, w: nat)
    requires w > 0
    ensures (n % w + 1) % w == (n + 1) % w
  {
    var q, r := (n % w + 1) / w, (n % w + 1) % w;
    assert n + 1 == (n / w + q) * w + r;
    DivUnique(n + 1, w, n / w + q, r);
  }

  // ---------------------------------------------------------------- powers of two

  lemma {:induction false} Pow2Add(a: nat, b: nat)
    ensures Pow2(a + b) == Pow2(a) * Pow2(b)
  {
    if a > 0 {
      Pow2Add(a - 1, b);
      assert Pow2(a) * Pow2(b) == 2 * (Pow2(a - 1) * Pow2(b));
    }
  }

  lemma {:induction false} Pow2Mono(a: nat, b: nat)
    requires a <= b
    ensures Pow2(a) <= Pow2(b)
  {
    if a < b { Pow2Mono(a, b - 1); }
  }

  lemma Pow2Values()
    ensures Pow2(3) == 8 && Pow2(7) == 128 && Pow2(8) == 256
    ensures Pow2(32) == 0x1_0000_0000 && Pow2(63) == 0x8000_0000_0000_0000 && Pow2(64) == U64
  {
    assert Pow2(4) == 16;
    Pow2Add(4, 3);
    Pow2Add(4, 4);
    Pow2Add(8, 8);
    Pow2Add(16, 16);
    Pow2Add(32, 32);
    assert Pow2(64) == 2 * Pow2(63);
  }

  // ---------------------------------------------------------------- 64-bit counters

  type u64 = x: nat | x < U64

  function Wrap(n: nat): u64 {
    n % U64
  }

  /** 64-bit unsigned addition of one, and subtraction. */
  function Inc(x: u64): u64 {
    (x + 1) % U64
  }

  function Minus(x: u64, y: u64): u64 {
    (x - y) % U64
  }

  lemma Succeeds(n: nat)
    ensures Inc(Wrap(n)) == Wrap(n + 1)
  {
    WrappedSuccessor(n, U64);
  }

  lemma WrapSmall(x: u64)
    ensures Wrap(x) == x
  {
  }

  ghost function One(b: bool): nat {
    if b then 1 else 0
  }

  /** A 64-bit counter that began at `initial` has counted `total` events but for one that is `pending`. */
  ghost predicate Tally(initial: u64, count: u64, total: nat, pending: bool) {
    One(pending) <= total && count == Wrap(initial + total - One(pending))
  }

  lemma TallyStep(initial: u64, count: u64, total: nat, pending: bool, event: bool, counted: bool)
    requires Tally(initial, count, total, pending)
    requires counted ==> pending && !event
    requires event ==> !pending
    ensures Tally(initial, if counted then Inc(count) else count, total + One(event), event || (pending && !counted))
  {
    Succeeds(initial + total - One(pending));
    hide Inc, Wrap;
  }

  // ---------------------------------------------------------------- masks

  lemma DivDouble(x: nat, m: nat)
    requires m > 0
    ensures x % (2 * m) == 2 * ((x / 2) % m) + x % 2
    ensures x / (2 * m) == (x / 2) / m
  {
    var q, r := (x / 2) / m, (x / 2) % m;
    assert x / 2 == q * m + r;
    assert q * (2 * m) == 2 * (q * m);
    DivUnique(x, 2 * m, q, 2 * r + x % 2);
  }

  /** `x & (2^k - 1)` is the remainder modulo 2^k. */
  lemma {:induction false} AndMask(x: nat, k: nat)
    ensures And(x, Pow2(k) - 1) == x % Pow2(k)
  {
    hide And;
    if k > 0 {
      AndMask(x / 2, k - 1);
      DivDouble(x, Pow2(k - 1));
      AndOdd(x, k);
    } else {
      AndZero(x);
    }
  }

  lemma AndZero(x: nat)
    ensures And(x, 0) == 0
  {
  }

  lemma AndOdd(x: nat, k: nat)
    requires k > 0
    ensures And(x, Pow2(k) - 1) == 2 * And(x / 2, Pow2(k - 1) - 1) + x % 2
  {
    assert (Pow2(k) - 1) / 2 == Pow2(k - 1) - 1;
  }

  /** A wrapped 64-bit counter, masked, is the unwrapped counter modulo the capacity. */
  lemma MaskedCounter(n: nat, k: nat)
    requires k <= 64
    ensures And(n % U64, Pow2(k) - 1) == n % Pow2(k)
  {
    Pow2Values();
    AndMask(n % U64, k);
    Pow2Add(64 - k, k);
    ModOfMod(n, Pow2(64 - k), Pow2(k));
  }

  // ---------------------------------------------------------------- single bits

  lemma {:induction false} ShrShr(x: nat, s: nat, k: nat)
    ensures Shr(Shr(x, s), k) == Shr(x, s + k)
  {
    if s > 0 { ShrShr(x / 2, s - 1, k); }
  }

  lemma {:induction false} BitOr(x: nat, y: nat, k: nat)
    ensures Bit(Or(x, y), k) <==> Bit(x, k) || Bit(y, k)
  {
    ShrZero(k);
    if k > 0 && x > 0 && y > 0 {
      BitOr(x / 2, y / 2, k - 1);
      assert Or(x, y) / 2 == Or(x / 2, y / 2);
    }
  }

  lemma {:induction false} ShrZero(k: nat)
    ensures Shr(0, k) == 0
  {
    if k > 0 { ShrZero(k - 1); }
  }

  /** A number whose `n` lowest bits are set and that has no others. */
  lemma {:induction false} AllOnes(x: nat, n: nat)
    requires forall k: nat | k < n :: Bit(x, k)
    requires Shr(x, n) == 0
    ensures x == Pow2(n) - 1
  {
    if n > 0 {
      assert Bit(x, 0);
      forall k: nat | k < n - 1 ensures Bit(x / 2, k) { assert Bit(x, k + 1); }
      AllOnes(x / 2, n - 1);
    }
  }

  lemma {:induction false} ShrSmall(x: nat, n: nat)
    ensures Shr(x, n) == 0 <==> x < Pow2(n)
  {
    if n > 0 { ShrSmall(x / 2, n - 1); }
  }

  lemma {:induction false} ShrIsDiv(x: nat, s: nat)
    ensures Shr(x, s) == x / Pow2(s)
  {
    if s > 0 {
      ShrIsDiv(x / 2, s - 1);
      DivDouble(x, Pow2(s - 1));
    }
  }

  /** Bit `k` of 2^b is set exactly for `k == b`. */
  lemma {:induction false} BitOfPow2(b: nat, k: nat)
    ensures Bit(Pow2(b), k) <==> k == b
  {
    if b > 0 && k > 0 {
      BitOfPow2(b - 1, k - 1);
      assert Pow2(b) / 2 == Pow2(b - 1);
    } else if k > 0 {
      ShrZero(k - 1);
    }
  }

  /** `w & (1 << b)` is non-zero exactly when bit `b` of `w` is set. */
  lemma {:induction false} AndPow2(w: nat, b: nat)
    ensures And(w, Pow2(b)) != 0 <==> Bit(w, b)
  {
    if w == 0 {
      ShrZero(b);
    } else if b > 0 {
      AndPow2(w / 2, b - 1);
      assert Pow2(b) / 2 == Pow2(b - 1);
    } else {
      AndZero(w / 2);
      assert And(w, 1) == 2 * And(w / 2, 0) + if w % 2 == 1 then 1 else 0;
    }
  }

  lemma AndTwice(x: nat, y: nat)
    ensures And(x, 2 * y) == 2 * And(x / 2, y)
  {
    if x > 0 && y > 0 {
      assert (2 * y) / 2 == y && (2 * y) % 2 == 0;
      assert And(x, 2 * y) == 2 * And(x / 2, (2 * y) / 2);
    }
  }

  lemma AndOne(x: nat)
    ensures And(x, 1) == x % 2
  {
    AndZero(x / 2);
  }

  lemma OrTwice(x: nat, y: nat)
    ensures Or(2 * x, y) == 2 * Or(x, y / 2) + y % 2
  {
    OrZero(x);
  }

  lemma OrZero(x: nat)
    ensures Or(x, 0) == x && Or(0, x) == x
  {
  }

  /** Or of a number shifted left by seven, or eight, with a smaller one is their sum. */
  lemma OrShifted3(x: nat, y: nat)
    requires y < 8
    ensures Or(8 * x, y) == 8 * x + y
  {
    hide Or;
    OrTwice(4 * x, y);
    OrTwice(2 * x, y / 2);
    OrTwice(x, y / 4);
    OrZero(x);
  }

  lemma OrShifted7(x: nat, y: nat)
    requires y < 128
    ensures Or(128 * x, y) == 128 * x + y
  {
    hide Or;
    OrTwice(64 * x, y);
    OrTwice(32 * x, y / 2);
    OrTwice(16 * x, y / 4);
    OrTwice(8 * x, y / 8);
    OrShifted3(x, y / 16);
  }

  lemma OrShifted8(x: nat, y: byte)
    ensures Or(256 * x, y) == 256 * x + y
  {
    hide Or;
    OrTwice(128 * x, y);
    OrShifted7(x, y / 2);
  }

  /** `b & 0x80`. */
  lemma AndTopBit(b: byte)
    ensures And(b, 0x80) == b / 128 * 128
  {
    hide And;
    AndTwice(b, 64);
    AndTwice(b / 2, 32);
    AndTwice(b / 4, 16);
    AndTwice(b / 8, 8);
    AndTwice(b / 16, 4);
    AndTwice(b / 32, 2);
    AndTwice(b / 64, 1);
    AndOne(b / 128);
  }

  /** `b & 0x20`. */
  lemma AndBit5(b: byte)
    ensures And(b, 0x20) == b / 32 % 2 * 32
  {
    hide And;
    AndTwice(b, 16);
    AndTwice(b / 2, 8);
    AndTwice(b / 4, 4);
    AndTwice(b / 8, 2);
    AndTwice(b / 16, 1);
    AndOne(b / 32);
  }

  lemma AndThree(x: nat)
    ensures And(x, 3) == x % 4
  {
    assert Pow2(2) == 4;
    AndMask(x, 2);
  }

  /** `b & 0xC0`. */
  lemma AndTopTwo(b: byte)
    ensures And(b, 0xC0) == b / 64 * 64
  {
    hide And;
    AndTwice(b, 96);
    AndTwice(b / 2, 48);
    AndTwice(b / 4, 24);
    AndTwice(b / 8, 12);
    AndTwice(b / 16, 6);
    AndTwice(b / 32, 3);
    AndThree(b / 64);
  }

  lemma AndLow(x: nat)
    ensures And(x, 0x7F) == x % 128 && And(x, 0x1F) == x % 32
  {
    assert Pow2(7) == 128 && Pow2(5) == 32;
    hide And, Pow2;
    AndMask(x, 7);
    AndMask(x, 5);
  }

  /** The masks that header octets are taken apart with. */
  lemma ByteMasks(b: byte)
    ensures And(b, 0x80) == 0 <==> b < 128
    ensures And(b, 0x7F) == b % 128 && And(b, 0x1F) == b % 32
    ensures And(b, 0x20) == b / 32 % 2 * 32 && And(b, 0xC0) == b / 64 * 64
  {
    hide And;
    AndLow(b);
    AndTopBit(b);
    AndBit5(b);
    AndTopTwo(b);
  }
}
