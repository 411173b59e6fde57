/** The table block format: prefix-compressed entries with restart points. */
module BlockFormat {
  import opened Keys
  import opened Varint
  import opened InternalKeys
  import opened MemDb

  /** `sharedPrefixLen`. */
  function SharedPrefixLen(a: Bytes, b: Bytes): (n: nat)
    ensures n <= |a| && n <= |b| && a[..n] == b[..n]
    ensures n < |a| && n < |b| ==> a[n] != b[n]
  {
    if a == [] || b == [] || a[0] != b[0] then 0
    else
      var n := SharedPrefixLen(a[1..], b[1..]);
      assert a[..n + 1] == [a[0]] + a[1..][..n] && b[..n + 1] == [b[0]] + b[1..][..n];
      n + 1
  }

  /** An entry that shares `shared` bytes with the key before it. */
  function EntryBytes(shared: nat, e: KV): (b: Bytes)
    requires shared <= |e.key|
    ensures |b| >= 3
  {
    PutUvarint(shared) + (PutUvarint(|e.key| - shared) + (PutUvarint(|e.value|) + (e.key[shared..] + e.value)))
  }

  /** How much entry `i` shares: nothing at restart points, one every `interval` entries. */
  function SharedAt(interval: nat, es: seq<KV>, i: nat): (n: nat)
    requires interval > 0 && i < |es|
    ensures n <= |es[i].key| && (i % interval == 0 ==> n == 0)
    ensures i % interval != 0 ==> i > 0 && n == SharedPrefixLen(es[i - 1].key, es[i].key)
  {
    if i % interval == 0 then 0 else assert i > 0; SharedPrefixLen(es[i - 1].key, es[i].key)
  }

  function Body(interval: nat, es: seq<KV>): Bytes
    requires interval > 0
  {
    if es == [] then []
    else Body(interval, es[..|es| - 1]) + EntryBytes(SharedAt(interval, es, |es| - 1), es[|es| - 1])
  }

  /** Where entry `i` starts. */
  function Offset(interval: nat, es: seq<KV>, i: nat): nat
    requires interval > 0 && i <= |es|
  {
    |Body(interval, es[..i])|
  }

  /** The entries that are restart points: 0, `interval`, twice that, and so on. */
  function Points(interval: nat, n: nat): (p: seq<nat>)
    requires interval > 0
    ensures n > 0 ==> p != [] && p[0] == 0
    ensures forall k :: 0 <= k < |p| ==> p[k] < n && p[k] % interval == 0
    ensures forall k, l :: 0 <= k < l < |p| ==> p[k] < p[l]
  {
    if n == 0 then []
    else
      var p := Points(interval, n - 1);
      if (n - 1) % interval == 0 then p + [n - 1] else assert n > 1; p
  }

  /** Their offsets. */
  function Restarts(interval: nat, es: seq<KV>): (r: seq<nat>)
    requires interval > 0
    ensures |r| == |Points(interval, |es|)|
  {
    var p := Points(interval, |es|);
    seq(|p|, k requires 0 <= k < |p| => Offset(interval, es, p[k]))
  }

  lemma RestartsNext(interval: nat, es: seq<KV>, e: KV)
    requires interval > 0
    ensures Restarts(interval, es + [e]) == Restarts(interval, es) + if |es| % interval == 0 then [|Body(interval, es)|] else []
  {
    var es' := es + [e];
    forall i | 0 <= i <= |es| ensures Offset(interval, es', i) == Offset(interval, es, i) {
      assert es'[..i] == es[..i];
    }
    assert es[..|es|] == es;
  }

  function PutAll(xs: seq<nat>): (b: Bytes)
    ensures |b| == 4 * |xs|
  {
    if xs == [] then [] else PutAll(xs[..|xs| - 1]) + PutFixed(xs[|xs| - 1], 4)
  }

  /** A finished block. */
  function BlockBytes(interval: nat, es: seq<KV>): Bytes
    requires interval > 0
  {
    var r := if es == [] then [0] else Restarts(interval, es);
    Body(interval, es) + PutAll(r + [|r|])
  }

  /** How much one more entry can add to a block. */
  lemma BlockGrows(interval: nat, es: seq<KV>, e: KV)
    requires interval > 0 && |e.key| < U64 && |e.value| < U64
    ensures |BlockBytes(interval, es + [e])| <= |BlockBytes(interval, es)| + |e.key| + |e.value| + 34
  {
    hide Body, Restarts, EntryBytes, PutAll;
    RestartsNext(interval, es, e);
    BodyNext(interval, es, e);
    EntryLen(SharedAt(interval, es + [e], |es|), e);
  }

  lemma EntryLen(shared: nat, e: KV)
    requires shared <= |e.key| < U64 && |e.value| < U64
    ensures |EntryBytes(shared, e)| <= |e.key| + |e.value| + 30
  {
    UvarintTen(shared);
    UvarintTen(|e.key| - shared);
    UvarintTen(|e.value|);
    hide PutUvarint;
  }

  lemma EmptyBlockLen(interval: nat)
    requires interval > 0
    ensures |BlockBytes(interval, [])| == 8
  {
  }

  lemma OffsetNext(interval: nat, es: seq<KV>, i: nat)
    requires interval > 0 && i < |es|
    ensures Body(interval, es[..i + 1]) == Body(interval, es[..i]) + EntryBytes(SharedAt(interval, es, i), es[i])
    ensures Offset(interval, es, i + 1) == Offset(interval, es, i) + |EntryBytes(SharedAt(interval, es, i), es[i])|
  {
    assert es[..i + 1][..i] == es[..i];
    assert SharedAt(interval, es[..i + 1], i) == SharedAt(interval, es, i);
  }

  lemma BodyNext(interval: nat, es: seq<KV>, e: KV)
    requires interval > 0
    ensures Body(interval, es + [e]) == Body(interval, es) + EntryBytes(SharedAt(interval, es + [e], |es|), e)
  {
    assert (es + [e])[..|es|] == es;
  }

  lemma {:induction false} BodyPrefix(interval: nat, es: seq<KV>, i: nat, j: nat)
    requires interval > 0 && i <= j <= |es|
    ensures Body(interval, es[..i]) <= Body(interval, es[..j])
    ensures i < j ==> Offset(interval, es, i) < Offset(interval, es, j)
    decreases j
  {
    hide Body, EntryBytes, SharedAt;
    if i < j {
      BodyPrefix(interval, es, i, j - 1);
      OffsetNext(interval, es, j - 1);
    }
  }

  /** Entry `i` lies in the body at its offset. */
  lemma EntryPlace(interval: nat, es: seq<KV>, i: nat)
    requires interval > 0 && i < |es|
    ensures var o, b := Offset(interval, es, i), EntryBytes(SharedAt(interval, es, i), es[i]);
            o + |b| == Offset(interval, es, i + 1) <= |Body(interval, es)| && Body(interval, es)[o..o + |b|] == b
  {
    hide Body, EntryBytes, SharedAt;
    OffsetNext(interval, es, i);
    BodyPrefix(interval, es, i + 1, |es|);
    assert es[..|es|] == es;
    Piece(Body(interval, es), Body(interval, es[..i]), EntryBytes(SharedAt(interval, es, i), es[i]));
  }

  lemma Piece(f: Bytes, a: Bytes, b: Bytes)
    requires a + b <= f
    ensures |a| + |b| <= |f| && f[|a|..|a| + |b|] == b
  {
    assert f[..|a + b|] == a + b;
    assert f[|a|..|a| + |b|] == f[..|a + b|][|a|..];
  }

  // ----- reading

  datatype RawEntry = RawEntry(suffix: Bytes, value: Bytes, shared: nat, n: nat)

  /** `block.entry` at `offset`; `None` where it reports corruption or an end not aligned. */
  function ReadEntry(data: Bytes, limit: nat, offset: nat): (r: Option<RawEntry>)
    requires offset < limit <= |data|
    ensures r.Some? ==> 3 <= r.value.n <= limit - offset
  {
    var u0 := Uvarint(data[offset..]);
    if u0.None? then None
    else
      var u1 := Uvarint(data[offset + u0.value.1..]);
      if u1.None? then None
      else
        var u2 := Uvarint(data[offset + u0.value.1 + u1.value.1..]);
        if u2.None? then None
        else
          var m := u0.value.1 + u1.value.1 + u2.value.1;
          var n := m + u1.value.0 + u2.value.0;
          if offset + n > limit then None
          else Some(RawEntry(data[offset + m..offset + m + u1.value.0], data[offset + m + u1.value.0..offset + n], u0.value.0, n))
  }

  /** An entry of the format is read back. */
  lemma ReadEntryOf(data: Bytes, limit: nat, offset: nat, shared: nat, e: KV)
    requires shared <= |e.key| < U64 && |e.value| < U64
    requires var b := EntryBytes(shared, e); offset + |b| <= limit <= |data| && data[offset..offset + |b|] == b
    ensures ReadEntry(data, limit, offset) == Some(RawEntry(e.key[shared..], e.value, shared, |EntryBytes(shared, e)|))
  {
    hide *;
    var b := EntryBytes(shared, e);
    var p1, p2 := PutUvarint(|e.key| - shared), PutUvarint(|e.value|);
    var suffix, tail := e.key[shared..], data[offset + |b|..];
    EntryIs(shared, e);
    var t2 := suffix + (e.value + tail);
    var t1 := p2 + t2;
    var t0 := p1 + t1;
    Front(data, offset, b, PutUvarint(shared), p1, p2, suffix, e.value, tail);
    ReadNum(data, offset, shared, t0);
    var o1 := offset + |PutUvarint(shared)|;
    ReadNum(data, o1, |e.key| - shared, t1);
    var o2 := o1 + |p1|;
    ReadNum(data, o2, |e.value|, t2);
    var o3 := o2 + |p2|;
    Peel(data, o3, suffix, e.value + tail);
    Peel(data, o3 + |suffix|, e.value, tail);
    Assemble(data, limit, offset, shared, |suffix|, |e.value|, |PutUvarint(shared)|, |p1|, |p2|);
  }

  lemma ReadNum(data: Bytes, o: nat, x: nat, rest: Bytes)
    requires o <= |data| && x < U64 && data[o..] == PutUvarint(x) + rest
    ensures Uvarint(data[o..]) == Some((x, |PutUvarint(x)|)) && o + |PutUvarint(x)| <= |data| && data[o + |PutUvarint(x)|..] == rest
  {
    hide PutUvarint, Uvarint;
    UvarintRoundTrip(x, rest);
    Peel(data, o, PutUvarint(x), rest);
  }

  lemma Peel(data: Bytes, o: nat, p: Bytes, rest: Bytes)
    requires o <= |data| && data[o..] == p + rest
    ensures o + |p| <= |data| && data[o + |p|..] == rest && data[o..o + |p|] == p
  {
    assert data[o + |p|..] == data[o..][|p|..];
    assert data[o..o + |p|] == data[o..][..|p|];
  }

  lemma Front(data: Bytes, o: nat, b: Bytes, p0: Bytes, p1: Bytes, p2: Bytes, x: Bytes, y: Bytes, tail: Bytes)
    requires b == p0 + (p1 + (p2 + (x + y))) && o + |b| <= |data| && data[o..o + |b|] == b && tail == data[o + |b|..]
    ensures data[o..] == p0 + (p1 + (p2 + (x + (y + tail))))
  {
    assert data[o..] == b + tail;
  }

  lemma Assemble(data: Bytes, limit: nat, offset: nat, shared: nat, v1: nat, v2: nat, n0: nat, n1: nat, n2: nat)
    requires offset < limit <= |data| && n0 >= 1 && n1 >= 1 && n2 >= 1 && offset + n0 + n1 + n2 + v1 + v2 <= limit
    requires Uvarint(data[offset..]) == Some((shared, n0)) && Uvarint(data[offset + n0..]) == Some((v1, n1))
    requires Uvarint(data[offset + n0 + n1..]) == Some((v2, n2))
    ensures var m := offset + n0 + n1 + n2;
            ReadEntry(data, limit, offset) == Some(RawEntry(data[m..m + v1], data[m + v1..m + v1 + v2], shared, n0 + n1 + n2 + v1 + v2))
  {
    hide Uvarint;
  }

  lemma EntryIs(shared: nat, e: KV)
    requires shared <= |e.key|
    ensures EntryBytes(shared, e) == PutUvarint(shared) + (PutUvarint(|e.key| - shared) + (PutUvarint(|e.value|) + (e.key[shared..] + e.value)))
  {
  }
}
