/** The filter block: one filter per 2 KiB of data blocks, found again by a block's offset. */
module FilterBlock {
  import opened Keys
  import opened InternalKeys
  import opened BlockFormat
  import opened BlockReader
  import opened Bloom

  const FILTER_BASE_LG: Byte := 11
  const FILTER_BASE: nat := 2048

  /** One filter at `n` bits a key and the hashes of the keys it was generated from; empty when there were none. */
  ghost predicate Filters(filter: Bytes, n: nat, hashes: seq<nat>) {
    if hashes == [] then filter == [] else IsFilter(filter, n, hashes)
  }

  /** Filter `i` of a buffer: up to the next offset, or to the end. */
  function Piece(buf: Bytes, offsets: seq<nat>, i: nat): Bytes
    requires i < |offsets| && Bounded(offsets, |buf|)
  {
    buf[offsets[i]..if i + 1 < |offsets| then offsets[i + 1] else |buf|]
  }

  /** Offsets ascend within the buffer. */
  ghost predicate Bounded(offsets: seq<nat>, size: nat) {
    forall i, j :: 0 <= i <= j < |offsets| ==> offsets[i] <= offsets[j] <= size
  }

  /** Every filter of the buffer is made from its group. */
  ghost predicate Filtered(buf: Bytes, offsets: seq<nat>, n: nat, groups: seq<seq<nat>>) {
    |offsets| == |groups| && Bounded(offsets, |buf|) && forall i :: 0 <= i < |groups| ==> Filters(Piece(buf, offsets, i), n, groups[i])
  }

  lemma FilteredMore(buf: Bytes, offsets: seq<nat>, n: nat, groups: seq<seq<nat>>, filter: Bytes, hashes: seq<nat>)
    requires Filtered(buf, offsets, n, groups) && Filters(filter, n, hashes)
    ensures Filtered(buf + filter, offsets + [|buf|], n, groups + [hashes])
  {
    var offsets' := offsets + [|buf|];
    assert Bounded(offsets', |buf + filter|);
    forall i | 0 <= i <= |groups| ensures Filters(Piece(buf + filter, offsets', i), n, (groups + [hashes])[i]) {
      if i < |groups| {
        var end := if i + 1 < |offsets| then offsets[i + 1] else |buf|;
        assert (buf + filter)[offsets[i]..end] == buf[offsets[i]..end];
      } else {
        assert (buf + filter)[|buf|..|buf + filter|] == filter;
      }
    }
  }

  /** Behind some groups the pending keys make one, and any further ones are empty. */
  ghost predicate Flushed(groups: seq<seq<nat>>, pending: seq<nat>, groups': seq<seq<nat>>) {
    groups + [pending] <= groups' && forall i :: |groups| < i < |groups'| ==> groups'[i] == []
  }

  class FilterWriter {
    const generator: Generator
    var buf: Bytes
    var nKeys: nat
    var offsets: seq<nat>
    /** The hashes behind each filter generated so far. */
    ghost var groups: seq<seq<nat>>
    /** How many hashes that is. */
    ghost var hashed: nat

    ghost predicate Valid()
      reads this, generator
    {
      generator.Valid() && nKeys == |generator.keyHashes| && Filtered(buf, offsets, generator.n, groups)
      && 8 * |buf| <= hashed * generator.n + 80 * |groups|
    }

    constructor (bitsPerKey: nat)
      ensures Valid() && groups == [] && generator.keyHashes == [] && hashed == 0 && buf == [] && fresh(generator) && generator.n == bitsPerKey
    {
      generator := new Generator(bitsPerKey);
      buf, nKeys, offsets, groups, hashed := [], 0, [], [], 0;
    }

    method Add(hash: KeyHash, key: Bytes)
      requires Valid() && hash(key) < U32
      modifies this, generator
      ensures Valid() && groups == old(groups) && hashed == old(hashed) && buf == old(buf) && generator.keyHashes == old(generator.keyHashes) + [hash(key)]
    {
      generator.Add(hash, key);
      nKeys := nKeys + 1;
    }

    /** `generate`; it fails where making the filter panics. */
    method Generate() returns (ok: bool)
      requires Valid()
      modifies this, generator
      ensures ok <==> Sized(|old(generator.keyHashes)|, generator.n)
      ensures ok ==> Valid() && groups == old(groups) + [old(generator.keyHashes)] && generator.keyHashes == []
      ensures ok ==> hashed == old(hashed) + |old(generator.keyHashes)|
    {
      hide IsFilter, Bounded, Sized;
      NoWrap(0, generator.n);
      ghost var hashes := generator.keyHashes;
      ghost var filter: Bytes := [];
      offsets := offsets + [|buf|];
      if nKeys > 0 {
        var f := generator.Generate();
        if f.None? {
          return false;
        }
        filter := f.value;
        buf := buf + f.value;
        nKeys := 0;
      }
      FilteredMore(old(buf), old(offsets), generator.n, groups, filter, hashes);
      assert buf == old(buf) + filter;
      groups := groups + [hashes];
      Grown(hashed, |hashes|, generator.n);
      hashed := hashed + |hashes|;
      ok := true;
    }

    lemma OffsetCount()
      requires Valid()
      ensures |offsets| == |groups|
    {
    }

    static lemma Grown(a: nat, b: nat, n: nat)
      ensures (a + b) * n == a * n + b * n
    {
    }

    /** `flush`: the next data block starts at `offset`. Keys added so far go to the first filter it generates. */
    method Flush(offset: nat) returns (ok: bool)
      requires Valid()
      modifies this, generator
      ensures ok <==> offset / FILTER_BASE <= |old(groups)| || Sized(|old(generator.keyHashes)|, generator.n)
      ensures ok ==> Valid() && hashed + |generator.keyHashes| == old(hashed + |generator.keyHashes|)
      ensures ok ==>
              if offset / FILTER_BASE > |old(groups)|
              then |groups| == offset / FILTER_BASE && generator.keyHashes == [] && Flushed(old(groups), old(generator.keyHashes), groups)
              else groups == old(groups) && generator.keyHashes == old(generator.keyHashes)
    {
      var x := offset / FILTER_BASE;
      ghost var g0, h0 := groups, generator.keyHashes;
      hide Sized;
      OffsetCount();
      ok := true;
      while x > |offsets|
        invariant ok && Valid() && hashed + |generator.keyHashes| == old(hashed + |generator.keyHashes|)
        invariant x > |g0| ==> |groups| <= x
        invariant (groups == g0 && generator.keyHashes == h0)
                  || (x > |g0| && Sized(|h0|, generator.n) && generator.keyHashes == [] && Flushed(g0, h0, groups))
        decreases x - |offsets|
      {
        NoWrap(0, generator.n);
        OffsetCount();
        ok := Generate();
        if !ok {
          return;
        }
      }
    }

    /** `finish`: the whole filter block. */
    method Finish() returns (ok: bool)
      requires Valid()
      modifies this, generator
      ensures ok <==> Sized(|old(generator.keyHashes)|, generator.n)
      ensures ok ==> groups == (if old(generator.keyHashes) == [] then old(groups) else old(groups) + [old(generator.keyHashes)])
      ensures ok ==> |buf| >= 5 && FilterBytes(buf, generator.n, groups)
      ensures ok ==> 8 * |buf| <= old(hashed + |generator.keyHashes|) * generator.n + 112 * |groups| + 40
    {
      hide IsFilter, Bounded, Filtered, PutFixed, Sized;
      NoWrap(0, generator.n);
      ok := true;
      ghost var total := hashed + |generator.keyHashes|;
      if nKeys > 0 {
        ok := Generate();
        if !ok {
          return;
        }
      }
      OffsetCount();
      ghost var filters, starts := buf, offsets;
      offsets := offsets + [|buf|];
      var all := offsets;
      assert all[..0] == [];
      for i := 0 to |all|
        invariant 8 * |filters| <= total * generator.n + 80 * |groups| && |all| == |groups| + 1
        invariant buf == filters + PutAll(all[..i]) && groups == old(groups) + if old(generator.keyHashes) == [] then [] else [old(generator.keyHashes)]
      {
        assert all[..i + 1][..i] == all[..i];
        buf := buf + PutFixed(all[i], 4);
      }
      assert all[..|all|] == all;
      buf := buf + [FILTER_BASE_LG];
      assert IsFilterBytes(buf, generator.n, groups, filters, starts);
    }
  }

  /** A finished filter block. */
  ghost predicate IsFilterBytes(data: Bytes, n: nat, groups: seq<seq<nat>>, filters: Bytes, starts: seq<nat>) {
    Filtered(filters, starts, n, groups) && data == filters + PutAll(starts + [|filters|]) + [FILTER_BASE_LG]
  }

  ghost predicate FilterBytes(data: Bytes, n: nat, groups: seq<seq<nat>>) {
    exists filters, starts :: IsFilterBytes(data, n, groups, filters, starts)
  }

  /** Where the offset words of a finished block start, and the words. */
  lemma FilterTrailer(data: Bytes, n: nat, groups: seq<seq<nat>>, filters: Bytes, starts: seq<nat>)
    requires IsFilterBytes(data, n, groups, filters, starts) && |data| < U32
    ensures |starts| == |groups| && |data| == |filters| + 4 * |groups| + 5 && Fixed(data[|data| - 5..|data| - 1]) == |filters|
    ensures data[|data| - 1] == FILTER_BASE_LG
    ensures forall i :: 0 <= i <= |groups| ==> Fixed(data[|filters| + 4 * i..|filters| + 4 * i + 4]) == if i < |groups| then starts[i] else |filters|
  {
    hide PutFixed, Fixed, Filters;
    var all := starts + [|filters|];
    forall i | 0 <= i <= |groups| ensures Fixed(data[|filters| + 4 * i..|filters| + 4 * i + 4]) == all[i] {
      PutAllAt(all, i);
      Middle(data, filters, PutAll(all), 4 * i);
      Word(all[i]);
    }
    assert data[|data| - 5..|data| - 1] == data[|filters| + 4 * |groups|..|filters| + 4 * |groups| + 4];
  }

  lemma Middle(data: Bytes, a: Bytes, b: Bytes, i: nat)
    requires i + 4 <= |b| && data == a + b + [FILTER_BASE_LG]
    ensures data[|a| + i..|a| + i + 4] == b[i..i + 4]
  {
  }

  /** `offset >> lg`. */
  function Shift(offset: nat, lg: nat): nat
    decreases lg
  {
    if lg == 0 then offset else Shift(offset / 2, lg - 1)
  }

  lemma ShiftBase(offset: nat)
    ensures Shift(offset, FILTER_BASE_LG) == offset / FILTER_BASE
  {
    var a := offset / 2 / 2 / 2;
    var b := a / 2 / 2 / 2;
    var c := b / 2 / 2 / 2;
    assert Shift(offset, 11) == Shift(a, 8);
    assert Shift(a, 8) == Shift(b, 5);
    assert Shift(b, 5) == Shift(c, 2);
    assert Shift(c, 2) == c / 2 / 2;
  }

  /** `readFilterBlock` and the offset words of the filter for a data block at `offset`, if there is one. */
  method FilterRange(data: Bytes, offset: nat, ghost n: nat, ghost groups: seq<seq<nat>>, ghost filters: Bytes, ghost starts: seq<nat>)
    returns (found: bool, from: nat, to: nat, oOffset: nat)
    requires IsFilterBytes(data, n, groups, filters, starts) && |data| < U32
    ensures oOffset == |filters| <= |data| && |starts| == |groups| && (found <==> offset / FILTER_BASE < |groups|)
    ensures found ==> from == starts[offset / FILTER_BASE]
                      && to == if offset / FILTER_BASE + 1 < |groups| then starts[offset / FILTER_BASE + 1] else |filters|
  {
    hide PutFixed, Fixed, IsFilterBytes, Shift;
    FilterTrailer(data, n, groups, filters, starts);
    ShiftBase(offset);
    Words(|groups|);
    var m := |data| - 5;
    oOffset := Fixed(data[m..m + 4]);
    var filtersNum, i := (m - oOffset) / 4, Shift(offset, data[|data| - 1]);
    from, to := 0, 0;
    found := i < filtersNum;
    if found {
      NextWord(data, n, groups, filters, starts, i);
      var o := oOffset + i * 4;
      from, to := Fixed(data[o..o + 4]), Fixed(data[o + 4..o + 8]);
    }
  }

  /** The answer for a block at `offset`: behind the last filter anything may be there, a stretch without keys has none, and
      otherwise its filter tells. */
  ghost predicate MayHold(n: nat, groups: seq<seq<nat>>, offset: nat, kh: nat) {
    var i := offset / FILTER_BASE;
    i >= |groups| || (groups[i] != [] && Covers(n, groups[i], kh))
  }

  /** A key noted for a stretch is never denied. */
  lemma NotedMayBeThere(n: nat, groups: seq<seq<nat>>, offset: nat, kh: nat)
    requires offset / FILTER_BASE < |groups| && kh in groups[offset / FILTER_BASE]
    requires AllWords(groups[offset / FILTER_BASE])
    ensures MayHold(n, groups, offset, kh)
  {
    var hashes := groups[offset / FILTER_BASE];
    var i :| 0 <= i < |hashes| && hashes[i] == kh;
    hide Covers;
    AddedIsCovered(n, hashes, i);
  }

  /** `filterBlock.contains` for the data block at `offset`. */
  method Contains(hash: KeyHash, data: Bytes, offset: nat, key: Bytes, ghost n: nat, ghost groups: seq<seq<nat>>) returns (r: bool)
    requires FilterBytes(data, n, groups) && 8 * |data| < U32 && hash(key) < U32
    ensures r <==> MayHold(n, groups, offset, hash(key))
    ensures offset / FILTER_BASE < |groups| && hash(key) in groups[offset / FILTER_BASE] ==> r
  {
    hide IsFilterBytes, IsFilter, Covers, Matches, Piece;
    ghost var filters, starts :| IsFilterBytes(data, n, groups, filters, starts);
    var found, from, to, oOffset := FilterRange(data, offset, n, groups, filters, starts);
    if found {
      ghost var hashes := groups[offset / FILTER_BASE];
      PieceOf(data, n, groups, filters, starts, offset / FILTER_BASE, from, to);
      if hashes != [] {
        PieceAnswers(data[from..to], n, hashes, hash(key));
      }
      if from < to && to <= oOffset {
        r := Bloom.Contains(hash, data[from..to], key);
        return;
      } else if from == to {
        return false;
      }
    }
    return true;
  }

  lemma PieceOf(data: Bytes, n: nat, groups: seq<seq<nat>>, filters: Bytes, starts: seq<nat>, i: nat, from: nat, to: nat)
    requires IsFilterBytes(data, n, groups, filters, starts) && i < |groups| && |starts| == |groups|
    requires from == starts[i] && to == if i + 1 < |groups| then starts[i + 1] else |filters|
    ensures from <= to <= |filters| <= |data| && Filters(data[from..to], n, groups[i])
  {
    hide Filters;
    assert Filters(Piece(filters, starts, i), n, groups[i]);
    assert data[..|filters|] == filters;
    assert data[from..to] == Piece(filters, starts, i);
  }

  /** What one filter answers. */
  lemma PieceAnswers(filter: Bytes, n: nat, hashes: seq<nat>, kh: nat)
    requires Filters(filter, n, hashes) && hashes != [] && kh < U32
    ensures |filter| >= 2 && (Matches(filter, kh) <==> Covers(n, hashes, kh)) && (kh in hashes ==> Covers(n, hashes, kh))
  {
    FilterAnswers(filter, n, hashes, kh);
    if i :| 0 <= i < |hashes| && hashes[i] == kh {
      AddedIsCovered(n, hashes, i);
    }
  }

  lemma NextWord(data: Bytes, n: nat, groups: seq<seq<nat>>, filters: Bytes, starts: seq<nat>, i: nat)
    requires IsFilterBytes(data, n, groups, filters, starts) && |data| < U32 && i < |groups|
    ensures |starts| == |groups| && |filters| + 4 * i + 8 <= |data|
    ensures Fixed(data[|filters| + 4 * i + 4..|filters| + 4 * i + 8]) == if i + 1 < |groups| then starts[i + 1] else |filters|
  {
    hide Fixed, IsFilterBytes;
    FilterTrailer(data, n, groups, filters, starts);
    var k := i + 1;
    assert Fixed(data[|filters| + 4 * k..|filters| + 4 * k + 4]) == if k < |groups| then starts[k] else |filters|;
  }

  lemma Words(n: nat)
    ensures 4 * n / 4 == n
  {
  }
}
