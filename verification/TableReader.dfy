/** `table.Reader.find` on the bytes of a table file. */
module TableReader {
  import opened Keys
  import opened Varint
  import opened InternalKeys
  import opened MemDb
  import opened JournalFormat
  import opened BlockFormat
  import opened BlockReader
  import opened RawBlock
  import opened Bloom
  import opened FilterBlock
  import opened TableIndex

  /** A data block: its entries and where it is. */
  datatype Blk = Blk(es: seq<KV>, bh: BlockHandle)

  function EsOf(blks: seq<Blk>): (bs: seq<seq<KV>>)
    ensures |bs| == |blks|
  {
    seq(|blks|, i requires 0 <= i < |blks| => blks[i].es)
  }

  function IndexEntries(blks: seq<Blk>, seps: seq<Bytes>): (es: seq<KV>)
    requires |seps| == |blks|
    ensures |es| == |blks|
  {
    seq(|blks|, i requires 0 <= i < |blks| => KV(seps[i], EncodeHandle(blks[i].bh)))
  }

  /** The file holds the block of the entries `es` behind the handle. */
  ghost predicate BlockAt(crc: Crc, file: Bytes, interval: nat, es: seq<KV>, bh: BlockHandle) {
    interval > 0 && es != [] && WfEntries(es) && |BlockBytes(interval, es)| < U32 && bh.offset < U64 && bh.length < U64
    && forall verify :: ReadRaw(crc, file, bh, verify) == Some(BlockBytes(interval, es))
  }

  /** A table file: data blocks, and an index block of separators and handles. */
  ghost predicate TableOk(crc: Crc, file: Bytes, interval: nat, blks: seq<Blk>, seps: seq<Bytes>, indexBH: BlockHandle) {
    blks != [] && Separated(EsOf(blks), seps) && BlockAt(crc, file, 1, IndexEntries(blks, seps), indexBH)
    && forall k :: 0 <= k < |blks| ==> BlockAt(crc, file, interval, blks[k].es, blks[k].bh)
  }

  /** The hash that the filter is given for an entry: that of its user key. */
  function HashOf(hash: KeyHash, e: KV): nat {
    if |e.key| >= 8 then hash(UserKey(e.key)) else 0
  }

  function HashesOf(hash: KeyHash, es: seq<KV>): (hs: seq<nat>)
    ensures |hs| == |es| && forall j :: 0 <= j < |es| ==> hs[j] == HashOf(hash, es[j])
  {
    seq(|es|, j requires 0 <= j < |es| => HashOf(hash, es[j]))
  }

  /** The hashes for the entries of all blocks that start in stretch `g` of the file. */
  ghost function StretchHashes(hash: KeyHash, blks: seq<Blk>, g: nat): seq<nat> {
    if blks == [] then []
    else
      var last := blks[|blks| - 1];
      StretchHashes(hash, blks[..|blks| - 1], g) + if last.bh.offset / FILTER_BASE == g then HashesOf(hash, last.es) else []
  }

  ghost predicate LongKeys(es: seq<KV>) {
    forall j :: 0 <= j < |es| ==> |es[j].key| >= 8
  }

  /** The filters are those of the stretches up to the last that a block starts in, each made of the user keys of the
      entries of its blocks and of nothing else. */
  ghost predicate Stretched(hash: KeyHash, groups: seq<seq<nat>>, blks: seq<Blk>) {
    (forall g :: 0 <= g < |groups| ==> groups[g] == StretchHashes(hash, blks, g))
    && forall k :: 0 <= k < |blks| ==> blks[k].bh.offset / FILTER_BASE < |groups| && LongKeys(blks[k].es)
  }

  /** The filter block of a table, at `n` bits a key. */
  ghost predicate FilterOk(crc: Crc, file: Bytes, hash: KeyHash, n: nat, groups: seq<seq<nat>>, blks: seq<Blk>, filterBH: BlockHandle) {
    (exists data :: (forall verify :: ReadRaw(crc, file, filterBH, verify) == Some(data)) && FilterBytes(data, n, groups) && 8 * |data| < U32)
    && Stretched(hash, groups, blks)
  }

  /** The filter of a block's stretch has the hash of each of its entries. */
  lemma {:induction false} StretchHas(hash: KeyHash, blks: seq<Blk>, k: nat, j: nat)
    requires k < |blks| && j < |blks[k].es|
    ensures HashOf(hash, blks[k].es[j]) in StretchHashes(hash, blks, blks[k].bh.offset / FILTER_BASE)
  {
    var n := |blks| - 1;
    if k < n {
      StretchHas(hash, blks[..n], k, j);
    } else {
      assert HashesOf(hash, blks[k].es)[j] == HashOf(hash, blks[k].es[j]);
    }
  }

  /** All entries of a table, in order. */
  function AllEntries(blks: seq<Blk>): seq<KV> {
    Flat(EsOf(blks))
  }

  /** Separators ascend as the blocks do. */
  lemma IndexAscends(blks: seq<Blk>, seps: seq<Bytes>)
    requires Separated(EsOf(blks), seps)
    ensures Ascending(ICmp(), IndexEntries(blks, seps))
  {
    hide Separated, ICmp;
    SameCount(EsOf(blks), seps);
    forall i, j | 0 <= i < j < |blks| ensures ICmp()(seps[i], seps[j]) < 0 {
      SepsAscend(EsOf(blks), seps, i, j);
    }
  }

  lemma {:induction false} SepsAscend(bs: seq<seq<KV>>, seps: seq<Bytes>, i: nat, j: nat)
    requires Separated(bs, seps) && i < j < |bs|
    ensures |seps| == |bs| && ICmp()(seps[i], seps[j]) < 0
    decreases j
  {
    hide *;
    ICmpIsTotal();
    NextSep(bs, seps, j - 1);
    if i < j - 1 {
      SepsAscend(bs, seps, i, j - 1);
      Chained(ICmp(), seps[i], seps[j - 1], seps[j]);
    }
  }

  lemma SameCount(bs: seq<seq<KV>>, seps: seq<Bytes>)
    requires Separated(bs, seps)
    ensures |seps| == |bs|
  {
  }

  lemma Chained(cmp: Cmp, a: Bytes, b: Bytes, c: Bytes)
    requires TotalOrder(cmp) && cmp(a, b) < 0 && cmp(b, c) < 0
    ensures cmp(a, c) < 0
  {
  }

  lemma NextSep(bs: seq<seq<KV>>, seps: seq<Bytes>, i: nat)
    requires Separated(bs, seps) && i + 1 < |bs|
    ensures |seps| == |bs| && ICmp()(seps[i], seps[i + 1]) < 0
  {
    ICmpIsTotal();
    NonEmpty(bs, seps, i + 1);
    EntryBeforeSep(bs, seps, i + 1, 0);
    BeforeNext(bs, seps, i);
    hide Separated, ICmp;
  }

  lemma BeforeNext(bs: seq<seq<KV>>, seps: seq<Bytes>, i: nat)
    requires Separated(bs, seps) && i + 1 < |bs|
    ensures bs[i + 1] != [] && |seps| == |bs| && ICmp()(seps[i], bs[i + 1][0].key) < 0
  {
    assert SepOk(LastKey(bs[i]), seps[i], bs[i + 1][0].key);
  }

  /** An iterator over a block of the file. */
  method OpenBlock(crc: Crc, file: Bytes, bh: BlockHandle, verify: bool, ghost interval: nat, ghost es: seq<KV>) returns (it: BlockIter)
    requires BlockAt(crc, file, interval, es, bh) && Ascending(ICmp(), es)
    ensures fresh(it) && it.Valid() && it.dir == Soi && it.es == es && it.cmp == ICmp() && es != []
  {
    hide BlockBytes, ReadRaw, Ascending, WfEntries;
    ICmpIsTotal();
    var data := ReadRawBlock(crc, file, bh, verify);
    it := new BlockIter(ICmp(), data.value, interval, es);
  }

  /** The filter says that the block which the index leads to for `key` does not have its user key. */
  ghost predicate Denied(hash: KeyHash, n: nat, groups: seq<seq<nat>>, blks: seq<Blk>, seps: seq<Bytes>, key: Bytes)
    requires |seps| == |blks| && |key| >= 8
  {
    var i := Rank(ICmp(), IndexEntries(blks, seps), key);
    i < |blks| && !MayHold(n, groups, blks[i].bh.offset, hash(UserKey(key)))
  }

  /** `find`. Unless the filter rules the block out it returns the first entry at or after the key, as a linear scan of all
      entries would; the filter never rules out the block when that entry has the user key sought. */
  method Find(crc: Crc, file: Bytes, indexBH: BlockHandle, filterBH: Option<BlockHandle>, hash: KeyHash, key: Bytes, filtered: bool, verify: bool,
              ghost interval: nat, ghost blks: seq<Blk>, ghost seps: seq<Bytes>, ghost n: nat, ghost groups: seq<seq<nat>>) returns (r: Option<KV>)
    requires TableOk(crc, file, interval, blks, seps, indexBH) && |key| >= 8 && (forall k :: hash(k) < U32)
    requires filterBH.Some? ==> FilterOk(crc, file, hash, n, groups, blks, filterBH.value)
    ensures |seps| == |blks|
    ensures var all := AllEntries(blks); var g := Rank(ICmp(), all, key);
            r == if g == |all| || (filtered && filterBH.Some? && Denied(hash, n, groups, blks, seps, key)) then None else Some(all[g])
    ensures var all := AllEntries(blks); var g := Rank(ICmp(), all, key);
            && (r.Some? ==> g < |all| && r.value == all[g])
            && (r.None? && !(filtered && filterBH.Some?) ==> g == |all|)
            && (r.None? && g < |all| ==> |all[g].key| >= 8 && UserKey(all[g].key) != UserKey(key))
  {
    hide *;
    IndexOpen(crc, file, interval, blks, seps, indexBH);
    ghost var i := Rank(ICmp(), IndexEntries(blks, seps), key);
    var index := OpenBlock(crc, file, indexBH, true, 1, IndexEntries(blks, seps));
    var found := index.Seek(key);
    if !found {
      NoBlock(crc, file, interval, blks, seps, indexBH, key);
      return None;
    }
    AtBlock(crc, file, interval, blks, seps, indexBH, i);
    var value := OnValue(index);
    var dataBH := DecodeHandle(value).value.0;
    if filtered && filterBH.Some? {
      var maybe := MayContain(crc, file, filterBH.value, hash, dataBH.offset, key, n, groups, blks);
      DeniedAt(hash, n, groups, blks, seps, key, i);
      if !maybe {
        FilterMiss(crc, file, hash, n, groups, filterBH.value, interval, blks, seps, indexBH, i, key);
        return None;
      }
    }
    r := SeekIn(crc, file, dataBH, key, verify, interval, blks[i].es);
    InThisBlock(crc, file, interval, blks, seps, indexBH, i, key);
    if r.Some? {
      return;
    }
    // the nearest greater key is the first key of the next block
    var more := index.Next();
    if !more {
      return None;
    }
    AtBlock(crc, file, interval, blks, seps, indexBH, i + 1);
    value := OnValue(index);
    var e := FirstOf(crc, file, DecodeHandle(value).value.0, verify, interval, blks[i + 1].es);
    return Some(e);
  }

  /** Seeking in one data block. */
  method SeekIn(crc: Crc, file: Bytes, bh: BlockHandle, key: Bytes, verify: bool, ghost interval: nat, ghost es: seq<KV>) returns (r: Option<KV>)
    requires BlockAt(crc, file, interval, es, bh) && Ascending(ICmp(), es)
    ensures var g := Rank(ICmp(), es, key); r == if g < |es| then Some(es[g]) else None
  {
    hide *;
    var data := OpenBlock(crc, file, bh, verify, interval, es);
    var found := data.Seek(key);
    if found {
      r := OnEntry(data);
    } else {
      return None;
    }
  }

  method FirstOf(crc: Crc, file: Bytes, bh: BlockHandle, verify: bool, ghost interval: nat, ghost es: seq<KV>) returns (e: KV)
    requires BlockAt(crc, file, interval, es, bh) && Ascending(ICmp(), es) && es != []
    ensures e == es[0]
  {
    hide *;
    var data := OpenBlock(crc, file, bh, verify, interval, es);
    var ok := data.Next();
    var r := OnEntry(data);
    e := r.value;
  }

  method OnValue(it: BlockIter) returns (v: Bytes)
    requires it.On()
    ensures 1 <= it.next <= |it.es| && v == it.es[it.next - 1].value && it.dir == Forward
  {
    return it.value;
  }

  method OnEntry(it: BlockIter) returns (r: Option<KV>)
    requires it.On()
    ensures 1 <= it.next <= |it.es| && r == Some(it.es[it.next - 1])
  {
    return Some(KV(it.key, it.value));
  }

  /** The filter's answer for the block at `offset`. */
  method MayContain(crc: Crc, file: Bytes, filterBH: BlockHandle, hash: KeyHash, offset: nat, key: Bytes, ghost n: nat, ghost groups: seq<seq<nat>>, ghost blks: seq<Blk>)
    returns (maybe: bool)
    requires FilterOk(crc, file, hash, n, groups, blks, filterBH) && |key| >= 8 && forall k :: hash(k) < U32
    ensures maybe <==> MayHold(n, groups, offset, hash(UserKey(key)))
    ensures offset / FILTER_BASE < |groups| && hash(UserKey(key)) in groups[offset / FILTER_BASE] ==> maybe
  {
    hide ReadRaw, FilterBytes, Stretched, MayHold;
    ghost var data :| (forall verify :: ReadRaw(crc, file, filterBH, verify) == Some(data)) && FilterBytes(data, n, groups) && 8 * |data| < U32;
    var raw := ReadRawBlock(crc, file, filterBH, true);
    maybe := FilterBlock.Contains(hash, raw.value, offset, UserKey(key), n, groups);
  }

  lemma DeniedAt(hash: KeyHash, n: nat, groups: seq<seq<nat>>, blks: seq<Blk>, seps: seq<Bytes>, key: Bytes, i: nat)
    requires |seps| == |blks| && |key| >= 8 && i == Rank(ICmp(), IndexEntries(blks, seps), key) && i < |blks|
    ensures Denied(hash, n, groups, blks, seps, key) <==> !MayHold(n, groups, blks[i].bh.offset, hash(UserKey(key)))
  {
    hide MayHold, Rank, ICmp;
  }

  lemma IndexOpen(crc: Crc, file: Bytes, interval: nat, blks: seq<Blk>, seps: seq<Bytes>, indexBH: BlockHandle)
    requires TableOk(crc, file, interval, blks, seps, indexBH)
    ensures |seps| == |blks| && BlockAt(crc, file, 1, IndexEntries(blks, seps), indexBH) && Ascending(ICmp(), IndexEntries(blks, seps))
  {
    IndexAscends(blks, seps);
    hide BlockAt, Ascending;
  }

  /** What block `i` needs to be opened from its index entry. */
  lemma AtBlock(crc: Crc, file: Bytes, interval: nat, blks: seq<Blk>, seps: seq<Bytes>, indexBH: BlockHandle, i: nat)
    requires TableOk(crc, file, interval, blks, seps, indexBH) && i < |blks|
    ensures |seps| == |blks| && DecodeHandle(IndexEntries(blks, seps)[i].value).Some? && DecodeHandle(IndexEntries(blks, seps)[i].value).value.0 == blks[i].bh
    ensures BlockAt(crc, file, interval, blks[i].es, blks[i].bh) && Ascending(ICmp(), blks[i].es) && blks[i].es != []
  {
    hide Ascending, DecodeHandle, EncodeHandle, Separated, ReadRaw, BlockBytes, WfEntries;
    assert BlockAt(crc, file, interval, blks[i].es, blks[i].bh);
    SameCount(EsOf(blks), seps);
    AscendingWhole(EsOf(blks), seps);
    BlockAscends(EsOf(blks), i);
    HandleRoundTrip(blks[i].bh, []);
    assert EncodeHandle(blks[i].bh) + [] == EncodeHandle(blks[i].bh);
  }

  lemma SepRank(blks: seq<Blk>, seps: seq<Bytes>, i: nat, key: Bytes)
    requires |seps| == |blks| && i == Rank(ICmp(), IndexEntries(blks, seps), key)
    ensures i <= |blks| && (forall k :: 0 <= k < i ==> ICmp()(seps[k], key) < 0) && (i < |blks| ==> ICmp()(seps[i], key) >= 0)
  {
    hide Rank, ICmp;
    forall k | 0 <= k < i ensures ICmp()(seps[k], key) < 0 {
      assert IndexEntries(blks, seps)[k].key == seps[k];
    }
  }

  lemma NoBlock(crc: Crc, file: Bytes, interval: nat, blks: seq<Blk>, seps: seq<Bytes>, indexBH: BlockHandle, key: Bytes)
    requires TableOk(crc, file, interval, blks, seps, indexBH) && |seps| == |blks| && Rank(ICmp(), IndexEntries(blks, seps), key) >= |blks|
    ensures Rank(ICmp(), AllEntries(blks), key) == |AllEntries(blks)|
  {
    SepRank(blks, seps, |blks|, key);
    hide Separated, BlockAt, Rank, Flat, ICmp;
    FirstBlock(EsOf(blks), seps, |blks|, 0, key);
  }

  /** Where the first entry at or after the key is, once its block or the one before is found. */
  lemma InThisBlock(crc: Crc, file: Bytes, interval: nat, blks: seq<Blk>, seps: seq<Bytes>, indexBH: BlockHandle, i: nat, key: Bytes)
    requires TableOk(crc, file, interval, blks, seps, indexBH) && |seps| == |blks| && i == Rank(ICmp(), IndexEntries(blks, seps), key) && i < |blks|
    ensures var all, r := AllEntries(blks), Rank(ICmp(), blks[i].es, key);
            var g := Rank(ICmp(), all, key);
            && (r < |blks[i].es| ==> g < |all| && all[g] == blks[i].es[r])
            && (r == |blks[i].es| && i + 1 < |blks| ==> blks[i + 1].es != [] && g < |all| && all[g] == blks[i + 1].es[0])
            && (r == |blks[i].es| && i + 1 == |blks| ==> g == |all|)
  {
    hide *;
    SepRank(blks, seps, i, key);
    ICmpIsTotal();
    var bs, r := EsOf(blks), Rank(ICmp(), blks[i].es, key);
    BlocksOf(crc, file, interval, blks, seps, indexBH, i);
    FirstBlock(bs, seps, i, r, key);
    FlatPlace(bs, i);
    AllIs(blks);
    if r < |bs[i]| {
      SliceAt(Flat(bs), |Flat(bs[..i])|, bs[i], r);
    } else if i + 1 < |bs| {
      BlocksOf(crc, file, interval, blks, seps, indexBH, i + 1);
      NonEmpty(bs, seps, i + 1);
      NextFirst(bs, seps, i, key);
    }
    assert i + 1 == |bs| ==> bs[..i + 1] == bs;
  }

  lemma AllIs(blks: seq<Blk>)
    ensures AllEntries(blks) == Flat(EsOf(blks))
  {
  }

  lemma BlocksOf(crc: Crc, file: Bytes, interval: nat, blks: seq<Blk>, seps: seq<Bytes>, indexBH: BlockHandle, i: nat)
    requires TableOk(crc, file, interval, blks, seps, indexBH) && i < |blks|
    ensures Separated(EsOf(blks), seps) && EsOf(blks)[i] == blks[i].es
  {
    hide Separated, BlockAt;
  }

  /** When the filter rules a block out, the first entry at or after the key has another user key. */
  lemma FilterMiss(crc: Crc, file: Bytes, hash: KeyHash, n: nat, groups: seq<seq<nat>>, filterBH: BlockHandle, interval: nat, blks: seq<Blk>, seps: seq<Bytes>,
                   indexBH: BlockHandle, i: nat, key: Bytes)
    requires TableOk(crc, file, interval, blks, seps, indexBH) && |seps| == |blks| && i == Rank(ICmp(), IndexEntries(blks, seps), key) && i < |blks|
    requires FilterOk(crc, file, hash, n, groups, blks, filterBH) && |key| >= 8
    requires !(blks[i].bh.offset / FILTER_BASE < |groups| && hash(UserKey(key)) in groups[blks[i].bh.offset / FILTER_BASE])
    ensures var all, g := AllEntries(blks), Rank(ICmp(), AllEntries(blks), key);
            g < |all| ==> |all[g].key| >= 8 && UserKey(all[g].key) != UserKey(key)
  {
    hide *;
    var bs, all, g, r := EsOf(blks), AllEntries(blks), Rank(ICmp(), AllEntries(blks), key), Rank(ICmp(), blks[i].es, key);
    BlocksOf(crc, file, interval, blks, seps, indexBH, i);
    AllIs(blks);
    InThisBlock(crc, file, interval, blks, seps, indexBH, i, key);
    SepRank(blks, seps, i, key);
    FirstBlock(bs, seps, i, r, key);
    if g < |all| {
      LongKey(bs, seps, g);
      if UserKey(all[g].key) == UserKey(key) {
        ExactInBlock(bs, seps, i, key);
        KnownAt(crc, file, hash, n, groups, blks, filterBH, i, r);
      }
    }
  }

  lemma KnownAt(crc: Crc, file: Bytes, hash: KeyHash, n: nat, groups: seq<seq<nat>>, blks: seq<Blk>, filterBH: BlockHandle, i: nat, r: nat)
    requires FilterOk(crc, file, hash, n, groups, blks, filterBH) && i < |blks| && r < |blks[i].es|
    ensures var b := blks[i];
            |b.es[r].key| >= 8 && b.bh.offset / FILTER_BASE < |groups| && hash(UserKey(b.es[r].key)) in groups[b.bh.offset / FILTER_BASE]
  {
    hide ReadRaw, FilterBytes;
    StretchHas(hash, blks, i, r);
  }

  lemma LongKey(bs: seq<seq<KV>>, seps: seq<Bytes>, x: nat)
    requires Separated(bs, seps) && x < |Flat(bs)|
    ensures |Flat(bs)[x].key| >= 8
  {
    var k, j := FlatMember(bs, x);
  }
}
