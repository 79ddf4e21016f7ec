/** The MAC filter of the capture path: a Bloom filter in front of an exact set, with the hash left arbitrary. */
module MacFilter {
  import opened Bits
  import opened Fifo

  type Mac = seq<byte>

  // ---------------------------------------------------------------- bit sets in 64-bit words

  /** Whether bit `p` of the bit vector is set. */
  ghost predicate Has(words: seq<nat>, p: nat) {
    p / 64 < |words| && Bit(words[p / 64], p % 64)
  }

  /** `words[p>>6] |= 1 << (p & 63)`. */
  function SetBit(words: seq<nat>, p: nat): (r: seq<nat>)
    requires Shr(p, 6) < |words|
    ensures |r| == |words|
  {
    words[Shr(p, 6) := Or(words[Shr(p, 6)], Pow2(And(p, 63)))]
  }

  /** `words[p>>6] & (1 << (p & 63)) != 0`. */
  predicate TestBit(words: seq<nat>, p: nat)
    requires Shr(p, 6) < |words|
  {
    And(words[Shr(p, 6)], Pow2(And(p, 63))) != 0
  }

  lemma Indices(p: nat)
    ensures Shr(p, 6) == p / 64 && And(p, 63) == p % 64
  {
    assert Pow2(6) == 64;
    ShrIsDiv(p, 6);
    AndMask(p, 6);
  }

  lemma SetBitSets(words: seq<nat>, p: nat, q: nat)
    requires p < 64 * |words|
    ensures Shr(p, 6) < |words|
    ensures Has(SetBit(words, p), q) <==> Has(words, q) || q == p
  {
    Indices(p);
    if q / 64 == p / 64 {
      BitOr(words[p / 64], Pow2(p % 64), q % 64);
      BitOfPow2(p % 64, q % 64);
    }
  }

  lemma TestBitTests(words: seq<nat>, p: nat)
    requires p < 64 * |words|
    ensures Shr(p, 6) < |words|
    ensures TestBit(words, p) <==> Has(words, p)
  {
    Indices(p);
    AndPow2(words[p / 64], p % 64);
  }

  // ---------------------------------------------------------------- probes

  /** The two hash values of a MAC: any functions of its bytes. */
  datatype Hash = Hash(h1: Mac -> u64, h2: Mac -> u64)

  /** Position `i` of a MAC: `(h1 + i*h2) mod 2^64 mod m`. */
  function Probe(h: Hash, m: nat, mac: Mac, i: nat): (p: nat)
    requires m > 0
    ensures p < m
  {
    (h.h1(mac) + i * h.h2(mac)) % U64 % m
  }

  ghost predicate Probes(h: Hash, m: nat, k: nat, mac: Mac, p: nat)
    requires m > 0
  {
    exists i: nat :: i < k && p == Probe(h, m, mac, i)
  }

  /** Every probe of `mac` is set: what both `Test` and `TestFast` decide. */
  ghost predicate Covered(h: Hash, m: nat, k: nat, words: seq<nat>, mac: Mac)
    requires m > 0
  {
    forall i: nat | i < k :: Has(words, Probe(h, m, mac, i))
  }

  /** The bit vector holds exactly the probes of the MACs in `added`. */
  ghost predicate Represents(h: Hash, m: nat, k: nat, words: seq<nat>, added: set<Mac>)
    requires m > 0
  {
    forall p: nat :: Has(words, p) <==> ProbeOfSome(h, m, k, added, p)
  }

  ghost predicate ProbeOfSome(h: Hash, m: nat, k: nat, added: set<Mac>, p: nat)
    requires m > 0
  {
    exists mac :: mac in added && Probes(h, m, k, mac, p)
  }

  class MACBloomFilter {
    const bits: array<nat>
    const m: nat
    const k: nat
    const hash: Hash
    var size: nat

    constructor (words: nat, k: nat, hash: Hash)
      requires words > 0
      ensures Valid() && bits.Length == words && this.k == k && this.hash == hash && fresh(bits)
      ensures forall p: nat :: !Has(bits[..], p)
    {
      bits := new nat[words](_ => 0);
      m, this.k, this.hash, size := 64 * words, k, hash, 0;
      new;
      forall p: nat ensures !Has(bits[..], p) { ShrZero(p % 64); }
    }

    predicate Valid() {
      m == 64 * bits.Length > 0
    }

    method Add(mac: Mac)
      requires Valid()
      modifies this`size, bits
      ensures size == old(size) + 1
      ensures forall p: nat :: Has(bits[..], p) <==> Has(old(bits[..]), p) || Probes(hash, m, k, mac, p)
    {
      for i := 0 to k
        invariant size == old(size)
        invariant forall p: nat :: Has(bits[..], p) <==> Has(old(bits[..]), p) || Probes(hash, m, i, mac, p)
      {
        var h := (hash.h1(mac) + i * hash.h2(mac)) % U64;
        var pos := h % m;
        assert pos == Probe(hash, m, mac, i);
        ghost var before := bits[..];
        SetBitSets(before, pos, 0);
        forall q: nat ensures (Has(SetBit(before, pos), q) <==> Has(before, q) || q == pos) {
          SetBitSets(before, pos, q);
        }
        bits[Shr(pos, 6)] := Or(bits[Shr(pos, 6)], Pow2(And(pos, 63)));
        assert bits[..] == SetBit(before, pos);
        forall p: nat ensures Probes(hash, m, i + 1, mac, p) <==> Probes(hash, m, i, mac, p) || p == pos {
          ProbesStep(hash, m, i, mac, p);
        }
      }
      size := size + 1;
    }

    method Test(mac: Mac) returns (b: bool)
      requires Valid()
      ensures b <==> Covered(hash, m, k, bits[..], mac)
    {
      b := TestFast(mac, bits[..]);
    }

    method TestFast(mac: Mac, bitsCopy: seq<nat>) returns (b: bool)
      requires Valid() && |bitsCopy| == bits.Length
      ensures b <==> Covered(hash, m, k, bitsCopy, mac)
    {
      for i := 0 to k
        invariant forall j: nat | j < i :: Has(bitsCopy, Probe(hash, m, mac, j))
      {
        var h := (hash.h1(mac) + i * hash.h2(mac)) % U64;
        var pos := h % m;
        assert pos == Probe(hash, m, mac, i);
        TestBitTests(bitsCopy, pos);
        if And(bitsCopy[Shr(pos, 6)], Pow2(And(pos, 63))) == 0 {
          return false;
        }
      }
      return true;
    }

    method BitsSnapshot() returns (snapshot: seq<nat>)
      ensures snapshot == bits[..]
    {
      return bits[..];
    }

    method Clear()
      requires Valid()
      modifies this`size, bits
      ensures size == 0 && forall p: nat :: !Has(bits[..], p)
    {
      for i := 0 to bits.Length
        invariant forall j | 0 <= j < i :: bits[j] == 0
      {
        bits[i] := 0;
      }
      size := 0;
      forall p: nat ensures !Has(bits[..], p) { ShrZero(p % 64); }
    }
  }

  lemma ProbesStep(h: Hash, m: nat, i: nat, mac: Mac, p: nat)
    requires m > 0
    ensures Probes(h, m, i + 1, mac, p) <==> Probes(h, m, i, mac, p) || p == Probe(h, m, mac, i)
  {
    if Probes(h, m, i + 1, mac, p) {
      var j: nat :| j < i + 1 && p == Probe(h, m, mac, j);
    }
    if Probes(h, m, i, mac, p) {
      var j: nat :| j < i && p == Probe(h, m, mac, j);
    }
  }

  // ---------------------------------------------------------------- the exact filter

  /** The first six bytes as a number; shorter slices all give 0. */
  function MACToUint64(mac: Mac): nat {
    if |mac| < 6 then 0 else BigEndian([0, 0] + mac[..6])
  }

  lemma {:induction false} BigEndianInjective(a: seq<byte>, b: seq<byte>)
    requires |a| == |b| && BigEndian(a) == BigEndian(b)
    ensures a == b
  {
    if a != [] {
      var n := |a| - 1;
      BigEndianInjective(a[..n], b[..n]);
      assert a == a[..n] + [a[n]] && b == b[..n] + [b[n]];
    }
  }

  lemma KeyInjective(a: Mac, b: Mac)
    requires |a| == |b| == 6 && MACToUint64(a) == MACToUint64(b)
    ensures a == b
  {
    assert a[..6] == a && b[..6] == b;
    BigEndianInjective([0, 0] + a, [0, 0] + b);
    assert a == ([0, 0] + a)[2..] && b == ([0, 0] + b)[2..];
  }

  ghost function Keys(added: set<Mac>): set<nat> {
    set mac | mac in added :: MACToUint64(mac)
  }

  /** Adding one MAC's probes keeps the bit vector exact. */
  lemma RepresentsAdd(h: Hash, m: nat, k: nat, before: seq<nat>, after: seq<nat>, added: set<Mac>, mac: Mac)
    requires m > 0 && Represents(h, m, k, before, added)
    requires forall p: nat :: Has(after, p) <==> Has(before, p) || Probes(h, m, k, mac, p)
    ensures Represents(h, m, k, after, added + {mac})
  {
    forall p: nat
      ensures Has(after, p) <==> ProbeOfSome(h, m, k, added + {mac}, p)
    {
      if ProbeOfSome(h, m, k, added, p) {
        var x :| x in added && Probes(h, m, k, x, p);
        assert x in added + {mac};
      }
      if Probes(h, m, k, mac, p) { assert mac in added + {mac}; }
    }
  }

  /** No false negative: the bits of an added MAC are all set. */
  lemma AddedIsCovered(h: Hash, m: nat, k: nat, words: seq<nat>, added: set<Mac>, mac: Mac)
    requires m > 0 && Represents(h, m, k, words, added) && mac in added
    ensures Covered(h, m, k, words, mac)
  {
    forall i: nat | i < k ensures Has(words, Probe(h, m, mac, i)) {
      assert Probes(h, m, k, mac, Probe(h, m, mac, i));
      assert ProbeOfSome(h, m, k, added, Probe(h, m, mac, i));
    }
  }

  class MACExactFilter {
    const bloom: MACBloomFilter
    var macs: set<nat>
    ghost var added: set<Mac>   // the MACs given to Add since the last Clear

    constructor (words: nat, k: nat, hash: Hash)
      requires words > 0
      ensures Valid() && added == {} && fresh(bloom) && fresh(bloom.bits)
    {
      bloom := new MACBloomFilter(words, k, hash);
      macs, added := {}, {};
    }

    ghost predicate Valid()
      reads this, bloom, bloom.bits
    {
      && bloom.Valid()
      && macs == Keys(added)
      && Represents(bloom.hash, bloom.m, bloom.k, bloom.bits[..], added)
    }

    method Add(mac: Mac)
      requires Valid()
      modifies this, bloom`size, bloom.bits
      ensures Valid() && added == old(added) + {mac}
    {
      var key := MACToUint64(mac);
      macs := macs + {key};
      bloom.Add(mac);
      added := added + {mac};
      RepresentsAdd(bloom.hash, bloom.m, bloom.k, old(bloom.bits[..]), bloom.bits[..], old(added), mac);
    }

    /** For 6-byte MACs this is membership in the set of added ones; for any bytes it never misses an added one. */
    method Contains(mac: Mac) returns (b: bool)
      requires Valid()
      ensures b <==> Covered(bloom.hash, bloom.m, bloom.k, bloom.bits[..], mac) && MACToUint64(mac) in Keys(added)
      ensures mac in added ==> b
      ensures |mac| == 6 && (forall a | a in added :: |a| == 6) ==> (b <==> mac in added)
    {
      if mac in added { AddedIsCovered(bloom.hash, bloom.m, bloom.k, bloom.bits[..], added, mac); }
      if |mac| == 6 && (forall a | a in added :: |a| == 6) && MACToUint64(mac) in Keys(added) {
        var a :| a in added && MACToUint64(a) == MACToUint64(mac);
        KeyInjective(a, mac);
      }
      var hit := bloom.Test(mac);
      if !hit {
        return false;
      }
      var key := MACToUint64(mac);
      return key in macs;
    }

    method Clear()
      requires Valid()
      modifies this, bloom`size, bloom.bits
      ensures Valid() && added == {}
    {
      macs := {};
      bloom.Clear();
      added := {};
    }
  }
}
