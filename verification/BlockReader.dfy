/** `block.seek` and the forward half of `blockIter`: seeking through restart points and shared prefixes
    lands where a linear scan of the entries would. */
module BlockReader {
  import opened Keys
  import opened Varint
  import opened InternalKeys
  import opened MemDb
  import opened BlockFormat

  datatype Dir = Soi | Eoi | Forward

  /** Keys and values are short enough for the format's integers. */
  ghost predicate WfEntries(es: seq<KV>) {
    forall i :: 0 <= i < |es| ==> |es[i].key| < U64 && |es[i].value| < U64
  }

  function RestartsLen(data: Bytes): nat
    requires |data| >= 4
  {
    Fixed(data[|data| - 4..])
  }

  lemma {:induction false} PutAllAt(xs: seq<nat>, k: nat)
    requires k < |xs|
    ensures PutAll(xs)[4 * k..4 * k + 4] == PutFixed(xs[k], 4)
  {
    hide PutFixed;
    var n := |xs| - 1;
    if k < n {
      PutAllAt(xs[..n], k);
      InFront(PutAll(xs[..n]), PutFixed(xs[n], 4), 4 * k);
    }
  }

  lemma InFront(a: Bytes, b: Bytes, i: nat)
    requires i + 4 <= |a|
    ensures (a + b)[i..i + 4] == a[i..i + 4]
  {
  }

  /** The trailer of a finished block: the restart offsets and their number. */
  lemma Trailer(interval: nat, es: seq<KV>, data: Bytes)
    requires interval > 0 && es != [] && data == BlockBytes(interval, es) && |data| < 0x1_0000_0000
    ensures var n, r := |Body(interval, es)|, Restarts(interval, es);
            |data| == n + 4 * |r| + 4 && RestartsLen(data) == |r|
            && forall k :: 0 <= k < |r| ==> Fixed(data[n + 4 * k..n + 4 * k + 4]) == r[k]
  {
    hide Body, Restarts, PutAll, PutFixed, Fixed;
    var b, r := Body(interval, es), Restarts(interval, es);
    var all := r + [|r|];
    assert data == b + PutAll(all);
    hide BlockBytes;
    forall k | 0 <= k < |r| ensures Fixed(data[|b| + 4 * k..|b| + 4 * k + 4]) == r[k] {
      SmallRestart(interval, es, k);
      TrailerAt(b, all, k);
    }
    TrailerAt(b, all, |r|);
    assert data[|data| - 4..] == data[|b| + 4 * |r|..|b| + 4 * |r| + 4];
  }

  /** The restart count of any finished block, one of an empty one included. */
  lemma TrailerLen(interval: nat, es: seq<KV>, data: Bytes)
    requires interval > 0 && data == BlockBytes(interval, es) && |data| < 0x1_0000_0000
    ensures var n, r := |Body(interval, es)|, if es == [] then 1 else |Restarts(interval, es)|;
            |data| == n + 4 * r + 4 && RestartsLen(data) == r
  {
    if es == [] {
      assert [0, 1][..1] == [0] && [0][..0] == [];
      var b := PutAll([0]);
      assert data == b + PutFixed(1, 4);
      Word(1);
      hide PutFixed, Fixed, PutAll;
      assert |PutFixed(1, 4)| == 4 && data[4..] == PutFixed(1, 4);
    } else {
      Trailer(interval, es, data);
    }
  }

  lemma TrailerAt(b: Bytes, all: seq<nat>, k: nat)
    requires k < |all| && all[k] < 0x1_0000_0000
    ensures Fixed((b + PutAll(all))[|b| + 4 * k..|b| + 4 * k + 4]) == all[k]
  {
    hide PutAll, PutFixed, Fixed;
    PutAllAt(all, k);
    assert (b + PutAll(all))[|b| + 4 * k..|b| + 4 * k + 4] == PutAll(all)[4 * k..4 * k + 4];
    Word(all[k]);
  }

  lemma Word(x: nat)
    requires x < 0x1_0000_0000
    ensures Fixed(PutFixed(x, 4)) == x
  {
    assert Pow256(4) == 0x1_0000_0000;
    FixedRoundTrip(x, 4);
  }

  lemma SmallRestart(interval: nat, es: seq<KV>, k: nat)
    requires interval > 0 && k < |Restarts(interval, es)|
    ensures Restarts(interval, es)[k] <= |Body(interval, es)|
  {
    BodyPrefix(interval, es, Points(interval, |es|)[k], |es|);
    assert es[..|es|] == es;
  }

  class BlockIter {
    const cmp: Cmp
    const data: Bytes
    const restartsLen: nat
    const restartsOffset: nat
    var key: Bytes
    var value: Bytes
    var offset: nat
    var dir: Dir

    /** The block's entries; `next` is the one at `offset`. */
    ghost const interval: nat
    ghost const es: seq<KV>
    ghost var next: nat

    /** The block is one of the format. */
    ghost predicate BlockOk() {
      TotalOrder(cmp) && Ascending(cmp, es) && WfEntries(es) && interval > 0
      && data == BlockBytes(interval, es) && |data| < 0x1_0000_0000
      && (es != [] ==> restartsLen == |Points(interval, |es|)|) && restartsOffset == |Body(interval, es)|
    }

    /** `offset` is where `next` starts, and `key` is the key before it where that may be shared. */
    ghost predicate Valid()
      reads this
    {
      BlockOk() && next <= |es| && offset == Offset(interval, es, next)
      && (next % interval != 0 ==> key == es[next - 1].key)
    }

    /** The iterator stands on entry `next - 1`. */
    ghost predicate On()
      reads this
    {
      Valid() && next > 0 && dir == Forward && key == es[next - 1].key && value == es[next - 1].value
    }

    constructor (cmp: Cmp, data: Bytes, ghost interval: nat, ghost es: seq<KV>)
      requires TotalOrder(cmp) && Ascending(cmp, es) && WfEntries(es) && interval > 0
      requires data == BlockBytes(interval, es) && |data| < 0x1_0000_0000
      ensures Valid() && dir == Soi && next == 0 && this.es == es && this.cmp == cmp
    {
      hide Body, Fixed, PutFixed;
      TrailerLen(interval, es, data);
      this.cmp, this.data, this.interval, this.es := cmp, data, interval, es;
      var n := RestartsLen(data);
      restartsLen, restartsOffset := n, |data| - (n + 1) * 4;
      key, value, offset, dir, next := [], [], 0, Soi, 0;
      NoOffset(interval, es);
    }

    /** `restartOffset`. */
    method RestartOffset(index: nat) returns (o: nat)
      requires BlockOk() && es != [] && index < restartsLen
      ensures o == Offset(interval, es, Points(interval, |es|)[index])
    {
      hide BlockBytes, Body, Fixed, Points, Ascending, TotalOrder, WfEntries, Offset;
      Trailer(interval, es, data);
      RestartAt(interval, es, index);
      o := Fixed(data[restartsOffset + 4 * index..restartsOffset + 4 * index + 4]);
    }

    /** The key at a restart point, read without its (empty) shared part. */
    method RestartKey(index: nat) returns (k: Bytes)
      requires BlockOk() && es != [] && index < restartsLen
      ensures Points(interval, |es|)[index] < |es| && k == es[Points(interval, |es|)[index]].key
    {
      hide BlockBytes, Body, Fixed, Points, Ascending, TotalOrder, WfEntries, Offset, ReadEntry;
      var o := RestartOffset(index);
      ghost var p := Points(interval, |es|)[index];
      EntryAt(p);
      var e := ReadEntry(data, restartsOffset, o);
      k := e.value.suffix;
    }

    /** Any entry is read back from its offset. */
    lemma EntryAt(i: nat)
      requires BlockOk() && i < |es|
      ensures Offset(interval, es, i) < restartsOffset <= |data|
      ensures ReadEntry(data, restartsOffset, Offset(interval, es, i)) == Some(RawAt(interval, es, i))
      ensures Offset(interval, es, i + 1) == Offset(interval, es, i) + RawAt(interval, es, i).n
    {
      BodyStarts(interval, es, data);
      EntryIn(interval, es, data, i);
    }

    /** `block.seek`: the last restart point at or before the key, or the first one. */
    method SeekRestart(target: Bytes) returns (index: nat)
      requires BlockOk() && es != []
      ensures index < restartsLen
      ensures var p := Points(interval, |es|)[index]; forall i :: 0 <= i < p ==> cmp(es[i].key, target) < 0
    {
      hide BlockBytes, Body, Fixed, Ascending, WfEntries, TotalOrder, Offset, Restarts;
      ghost var points := Points(interval, |es|);
      // sort.Search: the least restart point whose key is greater
      var i, j := 0, restartsLen;
      while i < j
        invariant 0 <= i <= j <= restartsLen
        invariant i > 0 ==> cmp(es[points[i - 1]].key, target) <= 0
      {
        var h := (i + j) / 2;
        var k := RestartKey(h);
        if cmp(k, target) > 0 {
          j := h;
        } else {
          i := h + 1;
        }
      }
      index := if i == 0 then 0 else i - 1;
      if i > 0 {
        AllBelow(cmp, es, points[i - 1], target);
      }
    }

    /** `Next`. */
    method Next() returns (ok: bool)
      requires Valid()
      modifies this
      ensures Valid() && next <= |es| && (ok ==> On())
      ensures if old(dir) == Eoi then !ok && dir == Eoi && next == old(next)
              else var at := if old(dir) == Soi then 0 else old(next);
                   (ok <==> at < |es|) && (ok ==> next == at + 1) && (!ok ==> dir == Eoi)
    {
      hide BlockBytes, Body, Fixed, Points, Ascending, TotalOrder, WfEntries, Offset, ReadEntry;
      if dir == Eoi {
        return false;
      }
      if dir == Soi {
        offset := 0;
        next := 0;
        NoOffset(interval, es);
        ZeroMod(interval);
      }
      EndOffset(interval, es, next);
      if offset >= restartsOffset {
        dir := Eoi;
        return false;
      }
      EntryAt(next);
      var e := ReadEntry(data, restartsOffset, offset).value;
      SharedKey(interval, es, next, key);
      key := key[..e.shared] + e.suffix;
      value := e.value;
      offset := offset + e.n;
      dir := Forward;
      next := next + 1;
      return true;
    }

    /** `Seek`: on the first entry at or after the key, or past the end; what a linear scan finds. */
    method Seek(target: Bytes) returns (ok: bool)
      requires Valid() && es != []
      modifies this
      ensures Valid() && (ok <==> Rank(cmp, es, target) < |es|)
      ensures ok ==> On() && next == Rank(cmp, es, target) + 1
      ensures !ok ==> dir == Eoi
    {
      hide BlockBytes, Body, Fixed, Points, Ascending, TotalOrder, WfEntries, Offset, Rank;
      var ri := SeekRestart(target);
      offset := RestartOffset(ri);
      next := Points(interval, |es|)[ri];
      PointMod(interval, |es|, ri);
      if dir == Soi || dir == Eoi {
        dir := Forward;
      }
      ghost var from := next;
      while true
        invariant Valid() && dir == Forward && next <= |es|
        invariant forall i :: 0 <= i < next ==> cmp(es[i].key, target) < 0
        decreases |es| - next
      {
        var more := Next();
        if !more {
          AllRanked(cmp, es, target, |es|);
          return false;
        }
        if cmp(key, target) >= 0 {
          AllRanked(cmp, es, target, next - 1);
          return true;
        }
      }
    }
  }

  /** Entry `i` as it is stored. */
  function RawAt(interval: nat, es: seq<KV>, i: nat): RawEntry
    requires interval > 0 && i < |es|
  {
    var s := SharedAt(interval, es, i);
    RawEntry(es[i].key[s..], es[i].value, s, |EntryBytes(s, es[i])|)
  }

  lemma EntryIn(interval: nat, es: seq<KV>, data: Bytes, i: nat)
    requires interval > 0 && i < |es| && WfEntries(es) && |Body(interval, es)| <= |data| && data[..|Body(interval, es)|] == Body(interval, es)
    ensures Offset(interval, es, i) < |Body(interval, es)|
    ensures ReadEntry(data, |Body(interval, es)|, Offset(interval, es, i)) == Some(RawAt(interval, es, i))
    ensures Offset(interval, es, i + 1) == Offset(interval, es, i) + RawAt(interval, es, i).n
  {
    hide Body, EntryBytes, SharedAt, Offset, ReadEntry;
    var body, o, s := Body(interval, es), Offset(interval, es, i), SharedAt(interval, es, i);
    var b := EntryBytes(s, es[i]);
    EntryPlace(interval, es, i);
    assert data[o..o + |b|] == data[..|body|][o..o + |b|];
    ReadEntryOf(data, |body|, o, s, es[i]);
  }

  lemma RestartAt(interval: nat, es: seq<KV>, k: nat)
    requires interval > 0 && k < |Points(interval, |es|)|
    ensures Restarts(interval, es)[k] == Offset(interval, es, Points(interval, |es|)[k])
  {
  }

  lemma PointMod(interval: nat, n: nat, k: nat)
    requires interval > 0 && k < |Points(interval, n)|
    ensures Points(interval, n)[k] < n && Points(interval, n)[k] % interval == 0
  {
  }

  lemma ZeroMod(interval: nat)
    requires interval > 0
    ensures 0 % interval == 0
  {
  }

  lemma BodyStarts(interval: nat, es: seq<KV>, data: Bytes)
    requires interval > 0 && data == BlockBytes(interval, es)
    ensures |Body(interval, es)| <= |data| && data[..|Body(interval, es)|] == Body(interval, es)
  {
    hide Body, Restarts;
  }

  /** Keys up to one at or before the target are before it. */
  lemma AllBelow(cmp: Cmp, es: seq<KV>, p: nat, target: Bytes)
    requires TotalOrder(cmp) && Ascending(cmp, es) && p < |es| && cmp(es[p].key, target) <= 0
    ensures forall i :: 0 <= i < p ==> cmp(es[i].key, target) < 0
  {
    forall i | 0 <= i < p ensures cmp(es[i].key, target) < 0 {
      assert cmp(es[i].key, es[p].key) < 0;
    }
  }

  /** The rank of a key is the end of the entries before it. */
  lemma AllRanked(cmp: Cmp, es: seq<KV>, target: Bytes, g: nat)
    requires TotalOrder(cmp) && Ascending(cmp, es) && g <= |es|
    requires forall i :: 0 <= i < g ==> cmp(es[i].key, target) < 0
    requires g < |es| ==> cmp(es[g].key, target) >= 0
    ensures Rank(cmp, es, target) == g
  {
    if g < |es| { RankSide(cmp, es, target, g); }
    if g > 0 { RankSide(cmp, es, target, g - 1); }
  }

  lemma EndOffset(interval: nat, es: seq<KV>, i: nat)
    requires interval > 0 && i <= |es|
    ensures Offset(interval, es, i) >= |Body(interval, es)| <==> i == |es|
  {
    BodyPrefix(interval, es, i, |es|);
    assert es[..|es|] == es;
  }

  /** Putting the shared part of the key before back in front. */
  lemma SharedKey(interval: nat, es: seq<KV>, i: nat, prev: Bytes)
    requires interval > 0 && i < |es| && (i % interval != 0 ==> i > 0 && prev == es[i - 1].key)
    ensures var s := SharedAt(interval, es, i); s <= |prev| && prev[..s] + es[i].key[s..] == es[i].key
  {
  }

  lemma NoOffset(interval: nat, es: seq<KV>)
    requires interval > 0
    ensures Offset(interval, es, 0) == 0
  {
  }
}
