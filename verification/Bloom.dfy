/** `filter/bloom.go`: what was added is always found again. */
module Bloom {
  import opened Keys

  const U32: nat := 0x1_0000_0000

  /** `bloomHash`, whatever it computes. */
  type KeyHash = Bytes -> nat

  /** The hash rotated right by 17 bits. */
  function Delta(kh: nat): nat
    requires kh < U32
  {
    kh / 0x2_0000 + kh % 0x2_0000 * 0x8000
  }

  /** The `j`-th hash of the double hashing. */
  function Probe(kh: nat, j: nat): (p: nat)
    requires kh < U32
    ensures p < U32
  {
    if j == 0 then kh else (Probe(kh, j - 1) + Delta(kh)) % U32
  }

  /** `b & (1 << i) != 0`. */
  predicate Bit(b: nat, i: nat)
    decreases i
  {
    if i == 0 then b % 2 == 1 else Bit(b / 2, i - 1)
  }

  function Pow2(n: nat): (p: nat)
    ensures p >= 1
  {
    if n == 0 then 1 else 2 * Pow2(n - 1)
  }

  /** In binary. */
  lemma {:induction false} BitIs(b: nat, i: nat)
    ensures Bit(b, i) <==> b / Pow2(i) % 2 == 1
    decreases i
  {
    if i > 0 {
      BitIs(b / 2, i - 1);
      HalfThen(b, Pow2(i - 1));
    }
  }

  /** Dividing in two steps. */
  lemma HalfThen(b: nat, m: nat)
    requires m > 0
    ensures b / 2 / m == b / (2 * m)
  {
    var q := b / (2 * m);
    var r := b % (2 * m);
    assert b == 2 * m * q + r;
    assert b / 2 == m * q + r / 2;
    assert r / 2 < m;
    QuotientIs(b / 2, m, q, r / 2);
  }

  lemma QuotientIs(a: nat, m: nat, q: nat, r: nat)
    requires m > 0 && a == m * q + r && r < m
    ensures a / m == q
  {
    var d := a / m - q;
    assert m * (a / m) + a % m == m * q + r;
    assert m * d == r - a % m;
    assert d >= 1 ==> m * d >= m;
    assert d <= -1 ==> m * d + m <= 0;
  }

  /** A number put together from `s` low bits and the rest. */
  lemma {:induction false} BitOfSum(a: nat, c: nat, s: nat, i: nat)
    requires a < Pow2(s)
    ensures Bit(a + c * Pow2(s), i) <==> if i < s then Bit(a, i) else Bit(c, i - s)
    decreases s
  {
    if s > 0 {
      var rest := c * Pow2(s - 1);
      assert a + c * Pow2(s) == a + 2 * rest;
      if i > 0 {
        HalfBelow(a, s);
        BitOfSum(a / 2, c, s - 1, i - 1);
        assert (a + 2 * rest) / 2 == a / 2 + rest;
      }
    }
  }

  /** `Delta` rotates a 32-bit number right by 17 bits. */
  lemma DeltaRotates(kh: nat, i: nat)
    requires kh < U32 && i < 32
    ensures Bit(Delta(kh), i) <==> Bit(kh, if i < 15 then i + 17 else i - 15)
  {
    var hi, lo := kh / 0x2_0000, kh % 0x2_0000;
    assert Pow2(15) == 0x8000 && Pow2(17) == 0x2_0000 by { EightBits(); assert Pow2(15) == 0x80 * Pow2(8) && Pow2(17) == 0x200 * Pow2(8); }
    BitOfSum(hi, lo, 15, i);
    BitOfSum(lo, hi, 17, if i < 15 then i + 17 else i - 15);
  }

  /** The `j`-th probe in one step. */
  lemma {:induction false} ProbeIs(kh: nat, j: nat)
    requires kh < U32
    ensures Probe(kh, j) == (kh + j * Delta(kh)) % U32
  {
    hide Delta;
    if j > 0 {
      ProbeIs(kh, j - 1);
      AddedModulo(kh + (j - 1) * Delta(kh), Delta(kh));
      OneMoreTime(kh, j, Delta(kh));
    }
  }

  lemma AddedModulo(a: nat, d: nat)
    ensures (a % U32 + d) % U32 == (a + d) % U32
  {
  }

  lemma OneMoreTime(a: nat, j: nat, d: nat)
    requires j > 0
    ensures a + (j - 1) * d + d == a + j * d
  {
  }

  /** `b | (1 << i)`, for numbers of `n` bits. */
  function SetBit(b: nat, i: nat, n: nat): (r: nat)
    requires i < n && b < Pow2(n)
    ensures r < Pow2(n) && Bit(r, i)
    decreases i
  {
    if i == 0 then
      AboveEven(b, n);
      if b % 2 == 1 then b else b + 1
    else
      HalfBelow(b, n);
      var h := SetBit(b / 2, i - 1, n - 1);
      Doubled(b % 2, h, n);
      b % 2 + 2 * h
  }

  lemma AboveEven(b: nat, n: nat)
    requires n > 0 && b < Pow2(n)
    ensures b % 2 == 0 ==> b + 1 < Pow2(n) && (b + 1) % 2 == 1
  {
  }

  lemma HalfBelow(b: nat, n: nat)
    requires n > 0 && b < Pow2(n)
    ensures b / 2 < Pow2(n - 1)
  {
  }

  lemma Doubled(bit: nat, h: nat, n: nat)
    requires n > 0 && bit < 2 && h < Pow2(n - 1)
    ensures bit + 2 * h < Pow2(n) && (bit + 2 * h) / 2 == h
  {
  }

  lemma {:induction false} SetKeepsBits(b: nat, i: nat, n: nat, j: nat)
    requires i < n && b < Pow2(n)
    ensures Bit(SetBit(b, i, n), j) <==> Bit(b, j) || i == j
    decreases i
  {
    if i > 0 && j > 0 {
      SetKeepsBits(b / 2, i - 1, n - 1, j - 1);
    } else if i == 0 && j > 0 {
      assert SetBit(b, i, n) / 2 == b / 2;
    }
  }

  lemma EightBits()
    ensures Pow2(8) == 0x100
  {
    assert Pow2(4) == 16;
  }

  /** The bit at position `pos` of a filter's bytes. */
  predicate BitAt(bits: Bytes, pos: nat)
    requires pos < 8 * |bits|
  {
    Bit(bits[pos / 8], pos % 8)
  }

  /** All `k` probes of a hash hit set bits. */
  ghost predicate AllSet(bits: Bytes, kh: nat, k: nat) {
    kh < U32 && |bits| > 0 && forall j: nat :: j < k ==> BitAt(bits, Probe(kh, j) % (8 * |bits|))
  }

  /** Position `pos` is probed for a hash. */
  ghost predicate Probed(kh: nat, k: nat, nBits: nat, pos: nat)
    requires kh < U32 && nBits > 0
  {
    exists j: nat :: j < k && Probe(kh, j) % nBits == pos
  }

  ghost predicate AllWords(hashes: seq<nat>) {
    forall i :: 0 <= i < |hashes| ==> hashes[i] < U32
  }

  /** Position `pos` is probed for one of some hashes. */
  ghost predicate ProbedForSome(hashes: seq<nat>, k: nat, nBits: nat, pos: nat)
    requires AllWords(hashes) && nBits > 0
  {
    exists i :: 0 <= i < |hashes| && Probed(hashes[i], k, nBits, pos)
  }

  /** The bits set are the ones probed for the hashes, and no others. */
  ghost predicate BitsAre(bits: Bytes, hashes: seq<nat>, k: nat) {
    |bits| > 0 && AllWords(hashes)
    && forall pos :: 0 <= pos < 8 * |bits| ==> (BitAt(bits, pos) <==> ProbedForSome(hashes, k, 8 * |bits|, pos))
  }

  /** How many bytes of bits a filter has: at least 64 bits, rounded up to whole bytes. */
  function BitBytes(count: nat, n: nat): nat {
    ((if Product32(count, n) < 64 then 64 else Product32(count, n)) + 7) / 8
  }

  /** The filter of some hashes at `n` bits a key. */
  ghost predicate IsFilter(filter: Bytes, n: nat, hashes: seq<nat>) {
    var size := BitBytes(|hashes|, n);
    |filter| == size + 1 && filter[size] == Probes(n) && BitsAre(filter[..size], hashes, Probes(n))
  }

  /** What such a filter answers for a hash: whether every position probed for it is probed for one of the hashes added. */
  ghost predicate Covers(n: nat, hashes: seq<nat>, kh: nat) {
    kh < U32 && AllWords(hashes)
    && var k, nBits := Probes(n), 8 * BitBytes(|hashes|, n);
       nBits > 0 && forall pos :: Probed(kh, k, nBits, pos) ==> ProbedForSome(hashes, k, nBits, pos)
  }

  lemma FilterAnswers(filter: Bytes, n: nat, hashes: seq<nat>, kh: nat)
    requires IsFilter(filter, n, hashes) && kh < U32
    ensures Matches(filter, kh) <==> Covers(n, hashes, kh)
  {
    hide Probe, BitAt, Product32;
    var k, bits := Probes(n), filter[..BitBytes(|hashes|, n)];
    var nBits := 8 * |bits|;
    if AllSet(bits, kh, k) {
      forall pos | Probed(kh, k, nBits, pos) ensures ProbedForSome(hashes, k, nBits, pos) {
        var j: nat :| j < k && Probe(kh, j) % nBits == pos;
        assert BitAt(bits, Probe(kh, j) % nBits);
      }
    }
    if Covers(n, hashes, kh) {
      forall j: nat | j < k ensures BitAt(bits, Probe(kh, j) % nBits) {
        assert Probed(kh, k, nBits, Probe(kh, j) % nBits);
      }
    }
  }

  /** So a hash that was added is always found, */
  lemma AddedIsCovered(n: nat, hashes: seq<nat>, i: nat)
    requires AllWords(hashes) && i < |hashes|
    ensures Covers(n, hashes, hashes[i])
  {
    hide Probe, Probed;
  }

  /** and one with a probe of its own never is. */
  lemma OwnProbeRulesOut(filter: Bytes, n: nat, hashes: seq<nat>, kh: nat, j: nat)
    requires IsFilter(filter, n, hashes) && kh < U32 && j < Probes(n)
    requires forall i, l: nat :: 0 <= i < |hashes| && l < Probes(n) ==>
               Probe(hashes[i], l) % (8 * BitBytes(|hashes|, n)) != Probe(kh, j) % (8 * BitBytes(|hashes|, n))
    ensures !Matches(filter, kh)
  {
    hide Probe, BitAt, Product32;
    FilterAnswers(filter, n, hashes, kh);
    assert Probed(kh, Probes(n), 8 * BitBytes(|hashes|, n), Probe(kh, j) % (8 * BitBytes(|hashes|, n)));
  }

  /** What `Contains` answers. */
  ghost predicate Matches(filter: Bytes, kh: nat) {
    |filter| >= 2 && (filter[|filter| - 1] > 30 || AllSet(filter[..|filter| - 1], kh, filter[|filter| - 1]))
  }

  method Contains(hash: KeyHash, filter: Bytes, key: Bytes) returns (r: bool)
    requires 8 * |filter| < U32 && hash(key) < U32
    ensures r <==> Matches(filter, hash(key))
  {
    if |filter| < 2 {
      return false;
    }
    var nBytes := |filter| - 1;
    var nBits := nBytes * 8;
    var k := filter[nBytes];
    if k > 30 {
      return true;
    }
    ghost var bits := filter[..nBytes];
    var kh := hash(key);
    var h, delta := kh, Delta(kh);
    for j := 0 to k
      invariant h == Probe(kh, j) && forall l: nat :: l < j ==> BitAt(bits, Probe(kh, l) % (8 * |bits|))
    {
      var bitpos := h % nBits;
      if !Bit(filter[bitpos / 8], bitpos % 8) {
        assert !BitAt(bits, Probe(kh, j) % (8 * |bits|));
        return false;
      }
      h := (h + delta) % U32;
    }
    return true;
  }

  /** The number of probes for `f` bits a key: about `f * ln 2`, from 1 to 30. */
  function Probes(f: nat): (k: Byte)
    ensures 1 <= k <= 30
  {
    var k := f * 69 / 100 % 0x100;
    if k < 1 then 1 else if k > 30 then 30 else k
  }

  /** The number of bits for `count` keys, a 32-bit product. */
  function Product32(count: nat, n: nat): (bits: nat)
    ensures bits < U32
  {
    count * n % U32
  }

  /** It leaves room to round up to whole bytes. */
  predicate Sized(count: nat, n: nat) {
    Product32(count, n) <= U32 - 8
  }

  lemma NoWrap(count: nat, n: nat)
    requires count * n <= U32 - 8
    ensures Sized(count, n)
  {
  }

  lemma NotRoundedAway(count: nat, n: nat, nBytes: nat)
    requires var bits := Product32(count, n); nBytes == ((if bits < 64 then 64 else bits) + 7) % U32 / 8
    ensures nBytes == 0 <==> !Sized(count, n)
    ensures nBytes == 0 ==> count > 0
    ensures nBytes > 0 ==> nBytes == BitBytes(count, n)
    ensures nBytes < U32 / 8 && 8 * nBytes <= count * n + 72
  {
    AtMostProduct(count, n);
    hide Product32;
    RoundedUp(if Product32(count, n) < 64 then 64 else Product32(count, n), nBytes);
  }

  lemma AtMostProduct(count: nat, n: nat)
    ensures Product32(count, n) <= count * n && (count == 0 ==> Product32(count, n) == 0)
  {
  }

  lemma RoundedUp(bits: nat, nBytes: nat)
    requires 64 <= bits < U32 && nBytes == (bits + 7) % U32 / 8
    ensures nBytes == 0 <==> bits > U32 - 8
    ensures nBytes > 0 ==> nBytes == (bits + 7) / 8
    ensures nBytes < U32 / 8 && 8 * nBytes <= bits + 7
  {
  }

  class Generator {
    const n: nat
    const k: Byte
    var keyHashes: seq<nat>

    ghost predicate Valid()
      reads this
    {
      k == Probes(n) && AllWords(keyHashes)
    }

    constructor (bitsPerKey: nat)
      ensures Valid() && keyHashes == [] && n == bitsPerKey
    {
      n, k, keyHashes := bitsPerKey, Probes(bitsPerKey), [];
    }

    method Add(hash: KeyHash, key: Bytes)
      requires Valid() && hash(key) < U32
      modifies this
      ensures Valid() && keyHashes == old(keyHashes) + [hash(key)]
    {
      keyHashes := keyHashes + [hash(key)];
    }

    /** `Generate`: the filter of the keys added since the last one. The number of bits is a 32-bit product; where it comes
        out above 2^32 - 8, rounding up to bytes wraps round to none and the first probe panics dividing by zero. */
    method Generate() returns (r: Option<Bytes>)
      requires Valid()
      modifies this
      ensures r.Some? <==> Sized(|old(keyHashes)|, n)
      ensures r.Some? ==> Valid() && keyHashes == [] && IsFilter(r.value, n, old(keyHashes)) && 2 <= |r.value| <= U32 / 8
      ensures r.Some? ==> 8 * |r.value| <= |old(keyHashes)| * n + 80
    {
      hide Product32, Sized, Probes, Probe, BitAt, ProbedForSome, Probed;
      var nBits: nat := Product32(|keyHashes|, n);
      if nBits < 64 {
        nBits := 64;
      }
      var nBytes: nat := (nBits + 7) % U32 / 8;
      NotRoundedAway(|keyHashes|, n, nBytes);
      nBits := nBytes * 8;
      if nBits == 0 && |keyHashes| > 0 {
        return None;
      }
      var dest := new Byte[nBytes](_ => 0);
      NoneSet(dest[..], k);
      for i := 0 to |keyHashes|
        invariant Valid() && keyHashes == old(keyHashes) && BitsAre(dest[..], keyHashes[..i], k)
      {
        ghost var was := dest[..];
        AddProbes(dest, keyHashes[i], k);
        OneMoreHash(was, dest[..], keyHashes[..i], keyHashes[i], k);
        assert keyHashes[..i + 1] == keyHashes[..i] + [keyHashes[i]];
      }
      assert keyHashes[..|keyHashes|] == keyHashes;
      var filter := dest[..] + [k];
      assert filter[..nBytes] == dest[..];
      keyHashes := [];
      r := Some(filter);
    }

    /** `dest[bitpos/8] |= 1 << (bitpos % 8)`. */
    method SetAt(dest: array<Byte>, bitpos: nat)
      requires bitpos < 8 * dest.Length && Pow2(8) == 0x100
      modifies dest
      ensures dest[..] == old(dest[..])[bitpos / 8 := SetBit(old(dest[bitpos / 8]), bitpos % 8, 8)]
    {
      dest[bitpos / 8] := SetBit(dest[bitpos / 8], bitpos % 8, 8);
    }

    /** Sets the bits of one hash, and no others. */
    method AddProbes(dest: array<Byte>, kh: nat, k: nat)
      requires kh < U32 && dest.Length > 0
      modifies dest
      ensures forall pos :: 0 <= pos < 8 * dest.Length ==>
                (BitAt(dest[..], pos) <==> BitAt(old(dest[..]), pos) || Probed(kh, k, 8 * dest.Length, pos))
    {
      hide BitAt, SetBit, Delta, Bit;
      EightBits();
      var h, delta := kh, Delta(kh);
      ghost var before := dest[..];
      for j := 0 to k
        invariant h == Probe(kh, j)
        invariant forall pos :: 0 <= pos < 8 * dest.Length ==>
                    (BitAt(dest[..], pos) <==> BitAt(before, pos) || Probed(kh, j, 8 * dest.Length, pos))
      {
        var bitpos := h % (dest.Length * 8);
        ghost var was := dest[..];
        SetAt(dest, bitpos);
        forall pos | 0 <= pos < 8 * dest.Length
          ensures BitAt(dest[..], pos) <==> BitAt(before, pos) || Probed(kh, j + 1, 8 * dest.Length, pos)
        {
          OneBitSet(was, dest[..], bitpos, pos);
          OneMoreProbe(kh, j, 8 * dest.Length, pos);
        }
        h := (h + delta) % U32;
      }
    }
  }

  lemma NoneSet(bits: Bytes, k: nat)
    requires |bits| > 0 && forall i :: 0 <= i < |bits| ==> bits[i] == 0
    ensures BitsAre(bits, [], k)
  {
    forall pos | 0 <= pos < 8 * |bits| ensures !BitAt(bits, pos) {
      ZeroBit(pos % 8);
    }
  }

  lemma {:induction false} ZeroBit(i: nat)
    ensures !Bit(0, i)
  {
    if i > 0 {
      ZeroBit(i - 1);
    }
  }

  lemma OneBitSet(was: Bytes, bits: Bytes, bitpos: nat, pos: nat)
    requires bitpos < 8 * |was| && pos < 8 * |was| && |bits| == |was| && Pow2(8) == 0x100
    requires bits == was[bitpos / 8 := SetBit(was[bitpos / 8], bitpos % 8, 8)]
    ensures BitAt(bits, pos) <==> BitAt(was, pos) || pos == bitpos
  {
    SetKeepsBits(was[bitpos / 8], bitpos % 8, 8, pos % 8);
  }

  lemma OneMoreProbe(kh: nat, j: nat, nBits: nat, pos: nat)
    requires kh < U32 && nBits > 0
    ensures !Probed(kh, 0, nBits, pos)
    ensures Probed(kh, j + 1, nBits, pos) <==> Probed(kh, j, nBits, pos) || Probe(kh, j) % nBits == pos
  {
    hide Probe;
    if l: nat :| l < j && Probe(kh, l) % nBits == pos {
      assert l < j + 1;
    }
  }

  lemma OneMoreHash(was: Bytes, bits: Bytes, hashes: seq<nat>, kh: nat, k: nat)
    requires BitsAre(was, hashes, k) && kh < U32 && |bits| == |was|
    requires forall pos :: 0 <= pos < 8 * |bits| ==> (BitAt(bits, pos) <==> BitAt(was, pos) || Probed(kh, k, 8 * |bits|, pos))
    ensures BitsAre(bits, hashes + [kh], k)
  {
    hide BitAt, Probed;
    var more, nBits := hashes + [kh], 8 * |bits|;
    forall pos | 0 <= pos < nBits
      ensures ProbedForSome(more, k, nBits, pos) <==> ProbedForSome(hashes, k, nBits, pos) || Probed(kh, k, nBits, pos)
    {
      if i :| 0 <= i < |hashes| && Probed(hashes[i], k, nBits, pos) {
        assert Probed(more[i], k, nBits, pos);
      }
      if Probed(kh, k, nBits, pos) {
        assert Probed(more[|hashes|], k, nBits, pos);
      }
    }
  }

  /** From 2 to 43 bits a key the number of probes is `f * 0.69` rounded down; beyond, it is 30 at most. */
  lemma ProbesAre(f: nat)
    ensures f <= 1 ==> Probes(f) == 1
    ensures 2 <= f <= 43 ==> 100 * Probes(f) <= 69 * f < 100 * (Probes(f) + 1)
    ensures 44 <= f <= 371 ==> Probes(f) == 30
  {
    ProbesOf(f, f * 69 / 100);
  }

  lemma ProbesOf(f: nat, q: nat)
    requires q == f * 69 / 100
    ensures 100 * q <= 69 * f < 100 * (q + 1)
    ensures q < 0x100 ==> Probes(f) == if q < 1 then 1 else if q > 30 then 30 else q
  {
  }
}
