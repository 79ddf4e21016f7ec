/** `nextPow2Uint64`: smearing the top bit downwards gives the least power of two that is large enough. */
module NextPow2 {
  import opened Bits

  /** The top bit of `x` is bit `t`, and the `w` bits from there down are all set. */
  ghost predicate Smeared(x: nat, t: nat, w: nat) {
    x < Pow2(t + 1) && forall k: nat | t < k + w && k <= t :: Bit(x, k)
  }

  lemma {:induction false} TopBit(x: nat) returns (t: nat)
    requires x > 0
    ensures Pow2(t) <= x < Pow2(t + 1) && Smeared(x, t, 1)
  {
    if x == 1 {
      t := 0;
    } else {
      var u := TopBit(x / 2);
      t := u + 1;
      assert Bit(x / 2, u);
    }
  }

  lemma {:induction false} OrSmall(x: nat, y: nat, n: nat)
    requires x < Pow2(n) && y < Pow2(n)
    ensures Or(x, y) < Pow2(n)
  {
    if n > 0 && x > 0 && y > 0 { OrSmall(x / 2, y / 2, n - 1); }
  }

  lemma {:induction false} ShrShrinks(x: nat, s: nat)
    ensures Shr(x, s) <= x
  {
    if s > 0 { ShrShrinks(x / 2, s - 1); }
  }

  /** One line of the routine doubles the width of the run of ones. */
  lemma SmearOnce(x: nat, t: nat, w: nat)
    requires Smeared(x, t, w)
    ensures Smeared(Or(x, Shr(x, w)), t, 2 * w)
  {
    var y := Or(x, Shr(x, w));
    ShrShrinks(x, w);
    OrSmall(x, Shr(x, w), t + 1);
    forall k: nat | t < k + 2 * w && k <= t ensures Bit(y, k) {
      BitOr(x, Shr(x, w), k);
      ShrShr(x, w, k);
      if k + w <= t { assert Bit(x, k + w); }
    }
  }

  lemma SmearedFull(x: nat, t: nat, w: nat)
    requires Smeared(x, t, w) && t < w
    ensures x == Pow2(t + 1) - 1
  {
    ShrSmall(x, t + 1);
    AllOnes(x, t + 1);
  }

  /** One line `v |= v >> s`. */
  function Line(v: nat, s: nat): nat {
    Or(v, Shr(v, s))
  }

  function Smear(x: nat): nat {
    Line(Line(Line(Line(Line(Line(x, 1), 2), 4), 8), 16), 32)
  }

  /** The six lines fill every bit below the top bit of a 64-bit word. */
  lemma SmearFills(x: nat, t: nat)
    requires Smeared(x, t, 1) && t < 64
    ensures Smear(x) == Pow2(t + 1) - 1
  {
    hide Smeared, Or, Shr;
    SmearOnce(x, t, 1);
    var x1 := Line(x, 1);
    SmearOnce(x1, t, 2);
    var x2 := Line(x1, 2);
    SmearOnce(x2, t, 4);
    var x3 := Line(x2, 4);
    SmearOnce(x3, t, 8);
    var x4 := Line(x3, 8);
    SmearOnce(x4, t, 16);
    var x5 := Line(x4, 16);
    SmearOnce(x5, t, 32);
    SmearedFull(Line(x5, 32), t, 64);
  }

  ghost predicate LeastPowerOfTwo(p: nat, v: nat) {
    && (exists k: nat :: p == Pow2(k))
    && p >= v
    && forall j: nat :: Pow2(j) >= v ==> p <= Pow2(j)
  }

  lemma SmearedSuccessor(v: nat, t: nat)
    requires v > 0 && Pow2(t) <= v - 1 < Pow2(t + 1)
    ensures LeastPowerOfTwo(Pow2(t + 1), v)
  {
    forall j: nat | Pow2(j) >= v ensures Pow2(t + 1) <= Pow2(j) {
      if j <= t { Pow2Mono(j, t); } else { Pow2Mono(t + 1, j); }
    }
  }

  lemma SmearZero()
    ensures Smear(0) == 0 && LeastPowerOfTwo(1, 1)
  {
    ShrZero(1);
    ShrZero(2);
    ShrZero(4);
    ShrZero(8);
    ShrZero(16);
    ShrZero(32);
    assert Pow2(0) == 1;
  }

  lemma TopBelow(x: nat, t: nat, n: nat)
    requires Pow2(t) <= x < Pow2(n)
    ensures t < n
  {
    if n <= t { Pow2Mono(n, t); }
  }

  /** What the routine returns, for every 64-bit argument. */
  lemma SmearPlusOne(v0: nat)
    requires v0 < U64
    ensures var v := (Smear((v0 - 1) % U64) + 1) % U64;
            && (1 <= v0 <= 0x8000_0000_0000_0000 ==> LeastPowerOfTwo(v, v0))
            && (v0 == 0 || v0 > 0x8000_0000_0000_0000 ==> v == 0)
  {
    hide Smear, LeastPowerOfTwo, Smeared, Pow2;
    SmearZero();
    Pow2Values();
    var x := (v0 - 1) % U64;
    if x > 0 {
      var t := TopBit(x);
      TopBelow(x, t, 64);
      SmearFills(x, t);
      if x < 0x8000_0000_0000_0000 {
        TopBelow(x, t, 63);
        Pow2Mono(t + 1, 63);
        SmearedSuccessor(v0, t);
      } else {
        if t < 63 { Pow2Mono(t + 1, 63); }
      }
    }
  }

  /** Up to 2^63 the result is the least power of two not below `v0`; for 0 and above 2^63 the 64-bit word wraps to 0. */
  method NextPow2Uint64(v0: nat) returns (v: nat)
    requires v0 < U64
    ensures 1 <= v0 <= 0x8000_0000_0000_0000 ==> LeastPowerOfTwo(v, v0)
    ensures v0 == 0 || v0 > 0x8000_0000_0000_0000 ==> v == 0
  {
    hide Or, Shr, LeastPowerOfTwo;
    v := (v0 - 1) % U64;
    v := Or(v, Shr(v, 1));
    v := Or(v, Shr(v, 2));
    v := Or(v, Shr(v, 4));
    v := Or(v, Shr(v, 8));
    v := Or(v, Shr(v, 16));
    v := Or(v, Shr(v, 32));
    v := (v + 1) % U64;
    SmearPlusOne(v0);
  }
}
