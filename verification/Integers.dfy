/** Integer contents octets (X.690, section 8.3) as `DecodeInteger` reads them, and the other primitive decoders. */
module Integers {
  import opened Bits
  import opened Ber
  import opened BerRoundTrip

  const I63: int := 0x8000_0000_0000_0000

  /** The value of two's-complement big-endian octets. */
  function TwosComplement(s: seq<byte>): int
    requires s != []
  {
    BigEndian(s) - if s[0] >= 128 then Pow256(|s|) else 0
  }

  function DecodeIntegerValue(data: seq<byte>): Result<int> {
    var ber :- Parse(data);
    if ber.tagNum != 2 then Err(TagMismatch)
    else if ber.data == [] || |ber.data| > 8 then Err(LengthMismatch)
    else Ok(TwosComplement(ber.data))
  }

  lemma {:induction false} BigEndianBound(s: seq<byte>)
    ensures BigEndian(s) < Pow256(|s|)
  {
    if s != [] { BigEndianBound(s[..|s| - 1]); }
  }

  lemma Pow256Values()
    ensures Pow256(1) == 0x100 && Pow256(2) == 0x1_0000 && Pow256(3) == 0x100_0000 && Pow256(4) == 0x1_0000_0000
    ensures Pow256(5) == 0x100_0000_0000 && Pow256(6) == 0x1_0000_0000_0000
    ensures Pow256(7) == 0x100_0000_0000_0000 && Pow256(8) == U64
  {
    assert Pow256(2) == 0x1_0000;
    assert Pow256(4) == 0x1_0000_0000;
    assert Pow256(6) == 0x1_0000_0000_0000;
  }

  lemma {:induction false} Pow256Bound(i: nat)
    requires i <= 8
    ensures Pow256(i) <= U64
    ensures i < 8 ==> 256 * Pow256(i) == Pow256(i + 1) <= U64
  {
    Pow256Values();
    if i == 0 { assert Pow256(0) == 1; }
  }

  /** The 64-bit pattern after reading `s`: sign fill above, the octets below. */
  ghost function Pattern(negative: bool, s: seq<byte>): int {
    BigEndian(s) + if negative then U64 - Pow256(|s|) else 0
  }

  /** One turn of the shift loop, `result << 8 | b` in 64 bits, loses nothing but sign fill. */
  lemma ShiftIn(negative: bool, s: seq<byte>, b: byte)
    requires |s| < 8
    ensures 0 <= Pattern(negative, s) < U64
    ensures Or(Pattern(negative, s) * 256 % U64, b) == Pattern(negative, s + [b])
  {
    hide Or;
    var x, p := BigEndian(s), Pow256(|s|);
    assert (s + [b])[..|s|] == s;
    assert BigEndian(s + [b]) == 256 * x + b;
    BigEndianBound(s);
    Pow256Bound(|s|);
    hide Pow256, BigEndian;
    if negative {
      var z := U64 / 256 - p + x;
      DivUnique((x + U64 - p) * 256, U64, 255, 256 * z);
      OrShifted8(z, b);
    } else {
      DivUnique(x * 256, U64, 0, 256 * x);
      OrShifted8(x, b);
    }
  }

  /** A 64-bit pattern read as int64. */
  function Signed(pattern: nat): int {
    if pattern < I63 then pattern else pattern - U64
  }

  lemma SignedPattern(s: seq<byte>)
    requires 1 <= |s| <= 8
    ensures 0 <= Pattern(s[0] >= 128, s) < U64
    ensures Signed(Pattern(s[0] >= 128, s)) == TwosComplement(s)
    ensures -I63 <= TwosComplement(s) < I63
  {
    BigEndianBound(s);
    TopOctet(s);
    Pow256Bound(|s|);
    Pow256Bound(|s| - 1);
  }

  /** The first octet decides the upper half. */
  lemma {:induction false} TopOctet(s: seq<byte>)
    requires s != []
    ensures s[0] * Pow256(|s| - 1) <= BigEndian(s) < (s[0] + 1) * Pow256(|s| - 1)
  {
    var n := |s| - 1;
    if n > 0 {
      TopOctet(s[..n]);
      var t: int, p := s[0], Pow256(n - 1);
      Times256(t, p);
      Times256(t + 1, p);
      assert Pow256(n) == 256 * p && BigEndian(s) == 256 * BigEndian(s[..n]) + s[n];
      hide Pow256, BigEndian;
    } else {
      assert s[..0] == [] && Pow256(0) == 1;
    }
  }

  lemma Times256(t: int, p: int)
    ensures t * (256 * p) == 256 * (t * p)
  {
  }

  /** `DecodeInteger` with its shift loop on an int64, held here as its 64-bit pattern. */
  method DecodeInteger(data: seq<byte>) returns (r: Result<int>)
    ensures r == DecodeIntegerValue(data)
    ensures r.Ok? ==> -I63 <= r.value < I63
  {
    hide And, Or, Parse;
    var p := ParseBER(data);
    if p.Err? {
      return Err(p.error);
    }
    var ber := p.value;
    if ber.tagNum != 2 {
      return Err(TagMismatch);
    }
    DataLength(data);
    if ber.length == 0 || ber.length > 8 {
      return Err(LengthMismatch);
    }
    ByteMasks(ber.data[0]);
    ghost var negative := ber.data[0] >= 128;
    var result := 0;
    if And(ber.data[0], 0x80) != 0 {
      result := U64 - 1;
    }
    for i := 0 to |ber.data|
      invariant result == Pattern(negative, ber.data[..i])
    {
      ShiftIn(negative, ber.data[..i], ber.data[i]);
      assert ber.data[..i + 1] == ber.data[..i] + [ber.data[i]];
      result := Or(result * 256 % U64, ber.data[i]);
    }
    assert ber.data[..|ber.data|] == ber.data;
    SignedPattern(ber.data);
    return Ok(Signed(result));
  }

  lemma DataLength(data: seq<byte>)
    requires Parse(data).Ok?
    ensures Parse(data).value.length == |Parse(data).value.data|
  {
  }

  // ---------------------------------------------------------------- both ways

  /** Two's-complement octets of `v`, `n` of them, minimal or not. */
  function IntOctets(v: int, n: nat): (s: seq<byte>)
    ensures |s| == n
  {
    BigEndianBytes(v % Pow256(n), n)
  }

  predicate Fits(v: int, n: nat) {
    1 <= n <= 8 && -128 * Pow256(n - 1) <= v < 128 * Pow256(n - 1)
  }

  lemma IntOctetsInverse(v: int, n: nat)
    requires Fits(v, n)
    ensures TwosComplement(IntOctets(v, n)) == v
  {
    var p, s := Pow256(n - 1), IntOctets(v, n);
    assert Pow256(n) == 256 * p;
    if v >= 0 { DivUnique(v, 256 * p, 0, v); } else { DivUnique(v, 256 * p, -1, v + 256 * p); }
    BigEndianInverse(v % Pow256(n), n);
    TopOctet(s);
    hide Pow256, BigEndian, IntOctets;
    var u := v % (256 * p);
    if s[0] >= 128 { ProductMono(128, s[0], p); } else { ProductMono(s[0] + 1, 128, p); }
  }

  lemma ProductMono(a: int, b: int, p: nat)
    requires a <= b
    ensures a * p <= b * p
  {
    assert (b - a) * p >= 0;
  }

  /** `DecodeInteger` returns the encoded value for every int64, every content length from 1 to 8 that can hold it,
      minimal or not, every length form, and whatever bytes follow. */
  lemma IntegerRoundTrip(v: int, n: nat, form: nat, rest: seq<byte>)
    requires Fits(v, n) && form <= 4
    ensures Encodable(Element(0, false, 2, IntOctets(v, n)), form)
    ensures DecodeIntegerValue(Encode(Element(0, false, 2, IntOctets(v, n)), form) + rest) == Ok(v)
  {
    Pow256Values();
    IntOctetsInverse(v, n);
    hide Pow256, Parse, Encode, IntOctets;
    ParseEncoded(Element(0, false, 2, IntOctets(v, n)), form, rest);
  }

  lemma {:induction false} BigEndianBytesInverse(s: seq<byte>)
    ensures BigEndianBytes(BigEndian(s), |s|) == s
  {
    if s != [] {
      var n := |s| - 1;
      BigEndianBytesInverse(s[..n]);
      assert s == s[..n] + [s[n]];
    }
  }

  /** Conversely, octets of a given length are determined by the value decoded from them. */
  lemma OctetsOfValue(s: seq<byte>)
    requires 1 <= |s| <= 8
    ensures Fits(TwosComplement(s), |s|) && IntOctets(TwosComplement(s), |s|) == s
  {
    var n, p := |s|, Pow256(|s| - 1);
    assert Pow256(n) == 256 * p;
    TopOctet(s);
    BigEndianBound(s);
    BigEndianBytesInverse(s);
    var b: int := BigEndian(s);
    if s[0] >= 128 {
      ProductMono(128, s[0], p);
      DivUnique(b - 256 * p, 256 * p, -1, b);
    } else {
      ProductMono(s[0] + 1, 128, p);
      DivUnique(b, 256 * p, 0, b);
    }
  }
}
