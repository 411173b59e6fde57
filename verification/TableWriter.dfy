/** `table.Writer`: what it leaves in the file is a table that `find` reads as the sequence of entries appended. */
module TableWriter {
  import opened Keys
  import opened Varint
  import opened InternalKeys
  import opened MemDb
  import opened JournalFormat
  import SnappyEncode
  import opened BlockFormat
  import opened BlockWriter
  import opened BlockReader
  import opened RawBlock
  import opened Bloom
  import opened FilterBlock
  import opened TableFooter
  import opened TableIndex
  import opened TableReader

  /** Largest block for which 32-bit offsets, compression and checks work out. */
  const MAX_BLOCK: nat := 0x8000_0000
  const MAX_FILE: nat := 0x4000_0000_0000_0000

  /** Blocks in ascending order with a separator between each two. */
  ghost predicate Good(bs: seq<seq<KV>>, seps: seq<Bytes>) {
    |seps| == (if bs == [] then 0 else |bs| - 1) && Ascending(ICmp(), Flat(bs))
    && (forall k :: 0 <= k < |bs| ==> bs[k] != [])
    && (forall k, j :: 0 <= k < |bs| && 0 <= j < |bs[k]| ==> |bs[k][j].key| >= 8)
    && forall k :: 0 <= k < |seps| ==> SepOk(LastKey(bs[k]), seps[k], bs[k + 1][0].key)
  }

  lemma NothingGood()
    ensures Good([], []) && Flat([]) == []
  {
  }

  lemma FlatLast(bs: seq<seq<KV>>)
    requires bs != [] && bs[|bs| - 1] != []
    ensures Flat(bs) != [] && LastKey(Flat(bs)) == LastKey(bs[|bs| - 1])
  {
  }

  lemma AscendingSnoc(cmp: Cmp, es: seq<KV>, e: KV)
    requires TotalOrder(cmp) && Ascending(cmp, es) && (es != [] ==> cmp(LastKey(es), e.key) < 0)
    ensures Ascending(cmp, es + [e])
  {
    forall i | 0 <= i < |es| ensures cmp(es[i].key, e.key) < 0 {
      if i < |es| - 1 {
        assert cmp(es[i].key, es[|es| - 1].key) < 0;
      }
    }
  }

  /** The first entry of a new block, behind a separator unless it is the very first. */
  lemma GoodNewBlock(bs: seq<seq<KV>>, seps: seq<Bytes>, s: Bytes, e: KV)
    requires Good(bs, seps) && |e.key| >= 8
    requires bs != [] ==> bs[|bs| - 1] != [] && SepOk(LastKey(bs[|bs| - 1]), s, e.key) && ICmp()(LastKey(bs[|bs| - 1]), e.key) < 0
    ensures Good(bs + [[e]], if bs == [] then [] else seps + [s]) && Flat(bs + [[e]]) == Flat(bs) + [e]
  {
    hide *;
    ICmpIsTotal();
    if bs != [] { FlatLast(bs); }
    FlatSnoc(bs, e);
    GoodAscends(bs, seps);
    AscendingSnoc(ICmp(), Flat(bs), e);
    NewParts(bs, bs + [[e]], seps, s, e);
  }

  lemma FlatSnoc(bs: seq<seq<KV>>, e: KV)
    ensures Flat(bs + [[e]]) == Flat(bs) + [e] && (bs == [] ==> Flat(bs) == [])
  {
    assert (bs + [[e]])[..|bs|] == bs;
  }

  lemma NewParts(bs: seq<seq<KV>>, bs': seq<seq<KV>>, seps: seq<Bytes>, s: Bytes, e: KV)
    requires Good(bs, seps) && |e.key| >= 8 && bs' == bs + [[e]] && Ascending(ICmp(), Flat(bs'))
    requires bs != [] ==> bs[|bs| - 1] != [] && SepOk(LastKey(bs[|bs| - 1]), s, e.key)
    ensures Good(bs', if bs == [] then [] else seps + [s])
  {
    hide ICmp, SepOk, Flat, Ascending;
    var seps' := if bs == [] then [] else seps + [s];
    forall k | 0 <= k < |seps'| ensures SepOk(LastKey(bs'[k]), seps'[k], bs'[k + 1][0].key) {
      if k < |seps| {
        assert SepOk(LastKey(bs[k]), seps[k], bs[k + 1][0].key);
      }
    }
  }

  /** One more entry in the last block. */
  lemma GoodSameBlock(bs: seq<seq<KV>>, seps: seq<Bytes>, e: KV)
    requires Good(bs, seps) && |e.key| >= 8 && bs != [] && bs[|bs| - 1] != [] && ICmp()(LastKey(bs[|bs| - 1]), e.key) < 0
    ensures var bs' := bs[|bs| - 1 := bs[|bs| - 1] + [e]]; Good(bs', seps) && Flat(bs') == Flat(bs) + [e]
  {
    hide *;
    ICmpIsTotal();
    FlatLast(bs);
    FlatGrows(bs, e);
    GoodAscends(bs, seps);
    AscendingSnoc(ICmp(), Flat(bs), e);
    GoodParts(bs, bs[|bs| - 1 := bs[|bs| - 1] + [e]], seps, e);
  }

  lemma FlatGrows(bs: seq<seq<KV>>, e: KV)
    requires bs != []
    ensures Flat(bs[|bs| - 1 := bs[|bs| - 1] + [e]]) == Flat(bs) + [e]
  {
    var n := |bs| - 1;
    assert bs[n := bs[n] + [e]][..n] == bs[..n];
  }

  lemma GoodAscends(bs: seq<seq<KV>>, seps: seq<Bytes>)
    requires Good(bs, seps)
    ensures Ascending(ICmp(), Flat(bs))
  {
    hide ICmp, SepOk, Flat, Ascending;
  }

  lemma GoodParts(bs: seq<seq<KV>>, bs': seq<seq<KV>>, seps: seq<Bytes>, e: KV)
    requires Good(bs, seps) && |e.key| >= 8 && bs != [] && bs[|bs| - 1] != [] && bs' == bs[|bs| - 1 := bs[|bs| - 1] + [e]]
    requires Ascending(ICmp(), Flat(bs'))
    ensures Good(bs', seps)
  {
    hide ICmp, SepOk, Flat, Ascending;
    forall k | 0 <= k < |seps| ensures SepOk(LastKey(bs'[k]), seps[k], bs'[k + 1][0].key) {
      assert SepOk(LastKey(bs[k]), seps[k], bs[k + 1][0].key);
      assert bs'[k] == bs[k] && bs'[k + 1][0] == bs[k + 1][0];
    }
  }

  /** With a last separator the list is ready for `find`. */
  lemma GoodSeparated(bs: seq<seq<KV>>, seps: seq<Bytes>, s: Bytes)
    requires Good(bs, seps) && bs != [] && bs[|bs| - 1] != [] && LastSepOk(LastKey(bs[|bs| - 1]), s)
    ensures Separated(bs, seps + [s])
  {
    hide ICmp, SepOk, Flat, Ascending;
    forall k | 0 <= k < |bs| - 1 ensures SepOk(LastKey(bs[k]), (seps + [s])[k], bs[k + 1][0].key) {
      assert SepOk(LastKey(bs[k]), seps[k], bs[k + 1][0].key);
    }
  }

  // ----- what the filter will know

  /** The hashes of all keys so far: those of a stretch passed make its filter, those of the stretch at hand are pending,
      the current block's at the end. */
  ghost predicate Noted(hash: KeyHash, groups: seq<seq<nat>>, pending: seq<nat>, blks: seq<Blk>, cur: seq<KV>) {
    (forall g :: 0 <= g < |groups| ==> groups[g] == StretchHashes(hash, blks, g))
    && pending == StretchHashes(hash, blks, |groups|) + HashesOf(hash, cur) && LongKeys(cur)
    && forall k :: 0 <= k < |blks| ==> blks[k].bh.offset / FILTER_BASE <= |groups| && blks[k].es != [] && LongKeys(blks[k].es)
  }

  lemma NoneNoted(hash: KeyHash)
    ensures Noted(hash, [], [], [], [])
  {
  }

  lemma EntryNoted(hash: KeyHash, groups: seq<seq<nat>>, pending: seq<nat>, blks: seq<Blk>, cur: seq<KV>, e: KV)
    requires Noted(hash, groups, pending, blks, cur) && |e.key| >= 8
    ensures Noted(hash, groups, pending + [hash(UserKey(e.key))], blks, cur + [e])
  {
    hide StretchHashes;
    assert HashesOf(hash, cur + [e]) == HashesOf(hash, cur) + [hash(UserKey(e.key))];
  }

  /** The current block has been written where the stretch at hand is. */
  lemma BlockNoted(hash: KeyHash, groups: seq<seq<nat>>, pending: seq<nat>, blks: seq<Blk>, cur: seq<KV>, bh: BlockHandle)
    requires Noted(hash, groups, pending, blks, cur) && cur != [] && bh.offset / FILTER_BASE == |groups|
    ensures Noted(hash, groups, pending, blks + [Blk(cur, bh)], [])
  {
    var more := blks + [Blk(cur, bh)];
    assert more[..|blks|] == blks;
    assert HashesOf(hash, []) == [];
  }

  lemma {:induction false} NothingBeyond(hash: KeyHash, blks: seq<Blk>, g: nat)
    requires forall k :: 0 <= k < |blks| ==> blks[k].bh.offset / FILTER_BASE != g
    ensures StretchHashes(hash, blks, g) == []
  {
    if blks != [] {
      NothingBeyond(hash, blks[..|blks| - 1], g);
    }
  }

  /** Flushing makes a filter of what is pending. */
  lemma FlushNoted(hash: KeyHash, groups: seq<seq<nat>>, pending: seq<nat>, blks: seq<Blk>, groups': seq<seq<nat>>, pending': seq<nat>)
    requires Noted(hash, groups, pending, blks, [])
    requires (groups' == groups && pending' == pending) || (Flushed(groups, pending, groups') && pending' == [])
    ensures Noted(hash, groups', pending', blks, [])
  {
    hide StretchHashes;
    if groups' != groups {
      assert StretchHashes(hash, blks, |groups|) + HashesOf(hash, []) == StretchHashes(hash, blks, |groups|);
      forall g | |groups| < g <= |groups'| ensures StretchHashes(hash, blks, g) == [] {
        NothingBeyond(hash, blks, g);
      }
      forall g | 0 <= g < |groups'| ensures groups'[g] == StretchHashes(hash, blks, g) {
        assert g <= |groups| ==> groups'[g] == (groups + [pending])[g];
      }
      assert pending' == StretchHashes(hash, blks, |groups'|) + HashesOf(hash, []);
    }
  }

  /** When the last pending keys have their filter, every stretch that a block starts in has its own. */
  lemma AllStretched(hash: KeyHash, groups: seq<seq<nat>>, pending: seq<nat>, blks: seq<Blk>, groups': seq<seq<nat>>)
    requires Noted(hash, groups, pending, blks, []) && groups' == if pending == [] then groups else groups + [pending]
    ensures Stretched(hash, groups', blks)
  {
    hide StretchHashes;
    assert StretchHashes(hash, blks, |groups|) + HashesOf(hash, []) == StretchHashes(hash, blks, |groups|);
    forall k | 0 <= k < |blks| ensures blks[k].bh.offset / FILTER_BASE < |groups'| {
      StretchHas(hash, blks, k, 0);
    }
  }

  /** How `Close` ends: with the handles in the footer and the metaindex, where 32-bit offsets do not do,
      or in the panic of the internal key comparer. */
  datatype CloseResult = Closed(metaBH: BlockHandle, indexBH: BlockHandle, filterBH: Option<BlockHandle>) | TooLarge | Panicked

  // ----- how large a table can get

  /** At most what an index block takes for blocks of these entries. */
  ghost function IndexMax(es: seq<KV>): nat {
    if es == [] then 0 else IndexMax(es[..|es| - 1]) + |es[|es| - 1].key| + 54
  }

  /** At most what their data blocks take in the file, compressed or not. */
  ghost function FileMax(es: seq<KV>): nat {
    if es == [] then 0 else FileMax(es[..|es| - 1]) + 2 * (|es[|es| - 1].key| + |es[|es| - 1].value|) + 121
  }

  /** Entries whose index block and filter block stay within 32-bit offsets. */
  ghost predicate Modest(es: seq<KV>, filtered: bool, bitsPerKey: nat) {
    IndexMax(es) + 8 <= MAX_BLOCK && (filtered ==> |es| * bitsPerKey + 112 * (FileMax(es) / FILTER_BASE) + 152 < U32)
  }

  lemma {:induction false} MaxConcat(a: seq<KV>, b: seq<KV>)
    ensures IndexMax(a + b) == IndexMax(a) + IndexMax(b) && FileMax(a + b) == FileMax(a) + FileMax(b)
  {
    if b == [] {
      assert a + b == a;
    } else {
      MaxConcat(a, b[..|b| - 1]);
      assert (a + b)[..|a + b| - 1] == a + b[..|b| - 1];
    }
  }

  /** The last key alone is no more than all of a block. */
  lemma LastMax(es: seq<KV>)
    requires es != []
    ensures |LastKey(es)| + 54 <= IndexMax(es)
  {
  }

  /** A block, however compressed, takes no more of the file than its entries' share. */
  lemma {:induction false} BlockMax(interval: nat, es: seq<KV>)
    requires interval > 0 && WfEntries(es)
    ensures 2 * |BlockBytes(interval, es)| + 53 * |es| <= FileMax(es) + 16
  {
    hide BlockBytes;
    if es == [] {
      EmptyBlockLen(interval);
    } else {
      var n := |es| - 1;
      BlockMax(interval, es[..n]);
      BlockGrows(interval, es[..n], es[n]);
      assert es == es[..n] + [es[n]];
    }
  }

  /** Separators are no longer than the last keys they stand for. */
  ghost predicate ShortSeps(blks: seq<Blk>, seps: seq<Bytes>) {
    |seps| <= |blks| && forall k :: 0 <= k < |seps| ==> blks[k].es != [] && |seps[k]| <= |LastKey(blks[k].es)|
  }

  /** The index block over blocks of a file. */
  lemma {:induction false} IndexBlockMax(blks: seq<Blk>, seps: seq<Bytes>)
    requires |seps| == |blks| && ShortSeps(blks, seps)
    requires forall k :: 0 <= k < |blks| ==> blks[k].bh.offset < U64 && blks[k].bh.length < U64 && WfEntries(blks[k].es)
    ensures |BlockBytes(1, IndexEntries(blks, seps))| <= 8 + IndexMax(AllEntries(blks))
  {
    hide BlockBytes, EncodeHandle;
    if blks == [] {
      assert IndexEntries(blks, seps) == [];
      EmptyBlockLen(1);
    } else {
      var n := |blks| - 1;
      IndexBlockMax(blks[..n], seps[..n]);
      var e := KV(seps[n], EncodeHandle(blks[n].bh));
      assert IndexEntries(blks, seps) == IndexEntries(blks[..n], seps[..n]) + [e];
      HandleLen(blks[n].bh);
      BlockGrows(1, IndexEntries(blks[..n], seps[..n]), e);
      AllSnoc(blks, n);
      MaxConcat(AllEntries(blks[..n]), blks[n].es);
      LastMax(blks[n].es);
    }
  }

  lemma MoreBlocks(blks: seq<Blk>, es: seq<KV>, bh: BlockHandle)
    ensures FileMax(AllEntries(blks + [Blk(es, bh)])) == FileMax(AllEntries(blks)) + FileMax(es)
  {
    AllSnoc(blks + [Blk(es, bh)], |blks|);
    assert (blks + [Blk(es, bh)])[..|blks|] == blks;
    MaxConcat(AllEntries(blks), es);
  }

  lemma AllSnoc(blks: seq<Blk>, n: nat)
    requires |blks| == n + 1
    ensures AllEntries(blks) == AllEntries(blks[..n]) + blks[n].es
  {
    assert EsOf(blks)[..n] == EsOf(blks[..n]);
  }

  class Writer {
    const crc: Crc
    const compress: bool
    const blockSize: nat
    const hash: KeyHash
    const filtered: bool
    const filterName: Bytes
    const dataBlock: BlockWriter
    const indexBlock: BlockWriter
    const filterBlock: FilterWriter
    /** The bytes written so far; their number is the source's `offset`. */
    var file: Bytes
    var pendingBH: BlockHandle
    var nEntries: nat

    ghost var blks: seq<Blk>
    ghost var seps: seq<Bytes>

    /** The finished blocks and the one being built. */
    ghost function Blocks(): seq<seq<KV>>
      reads this`blks, dataBlock`entries
    {
      EsOf(blks) + if dataBlock.entries == [] then [] else [dataBlock.entries]
    }

    /** All entries appended. */
    ghost function Entries(): seq<KV>
      reads this`blks, dataBlock`entries
    {
      Flat(Blocks())
    }

    ghost predicate Separate() {
      dataBlock != indexBlock && dataBlock.interval > 0 && indexBlock.interval == 1 && |filterName| < 0x4000_0000
    }

    /** Finished blocks are in the file. */
    ghost predicate Written()
      reads this`file, this`blks
    {
      |file| <= MAX_FILE && dataBlock.interval > 0
      && forall k :: 0 <= k < |blks| ==> BlockAt(crc, file, dataBlock.interval, blks[k].es, blks[k].bh) && blks[k].bh.length > 0
    }

    /** The index has the entries of all blocks but a pending one. */
    ghost predicate Indexed()
      reads this`blks, this`seps, this`pendingBH, dataBlock`entries, indexBlock`entries
    {
      ShortSeps(blks, seps) && indexBlock.entries == IndexEntries(blks[..|seps|], seps)
      && (if pendingBH.length == 0 then |seps| == |blks| && (blks != [] ==> dataBlock.entries != [])
          else |seps| + 1 == |blks| && dataBlock.entries == [] && pendingBH == blks[|blks| - 1].bh)
    }

    ghost predicate FilterReady()
      reads this`file, this`blks, this`nEntries, dataBlock`entries, filterBlock, filterBlock.generator
    {
      filtered ==>
        filterBlock.Valid() && |filterBlock.groups| == |file| / FILTER_BASE && filterBlock.hashed + |filterBlock.generator.keyHashes| <= nEntries
        && Noted(hash, filterBlock.groups, filterBlock.generator.keyHashes, blks, dataBlock.entries)
    }

    /** The finished blocks have grown the file by no more than their share. */
    ghost predicate Lean()
      reads this`file, this`blks
    {
      |file| <= FileMax(AllEntries(blks))
    }

    ghost predicate Valid()
      reads this, dataBlock, indexBlock, filterBlock, filterBlock.generator
    {
      Separate() && dataBlock.Valid() && indexBlock.Valid() && Written() && Lean() && Indexed() && FilterReady()
      && Good(Blocks(), seps) && WfEntries(dataBlock.entries) && nEntries == |Entries()|
      && (if nEntries > 0 then Entries() != [] && dataBlock.prevKey == LastKey(Entries()) else dataBlock.prevKey == [])
    }

    constructor (crc: Crc, compress: bool, blockSize: nat, interval: nat, filtered: bool, filterName: Bytes, bitsPerKey: nat, hash: KeyHash)
      requires interval > 0 && |filterName| < 0x4000_0000
      ensures Valid() && Entries() == [] && Small() && file == [] && blks == [] && dataBlock.entries == [] && fresh(dataBlock) && fresh(indexBlock) && fresh(filterBlock) && fresh(filterBlock.generator)
      ensures this.crc == crc && this.filtered == filtered && this.filterName == filterName && this.hash == hash
      ensures this.blockSize == blockSize && dataBlock.interval == interval && filterBlock.generator.n == bitsPerKey
    {
      this.crc, this.compress, this.blockSize, this.hash := crc, compress, blockSize, hash;
      this.filtered, this.filterName := filtered, filterName;
      dataBlock := new BlockWriter(interval);
      indexBlock := new BlockWriter(1);
      filterBlock := new FilterWriter(bitsPerKey);
      file, pendingBH, nEntries, blks, seps := [], BlockHandle(0, 0), 0, [], [];
      new;
      hide *;
      StartsEmpty();
    }

    lemma StartsEmpty()
      requires blks == [] && seps == [] && file == [] && pendingBH == BlockHandle(0, 0) && dataBlock.entries == [] && indexBlock.entries == []
      requires dataBlock != indexBlock && dataBlock.interval > 0 && indexBlock.interval == 1 && |filterName| < 0x4000_0000 && nEntries == 0 && dataBlock.prevKey == []
      requires dataBlock.Valid() && indexBlock.Valid() && filterBlock.Valid() && filterBlock.groups == []
      requires filterBlock.generator.keyHashes == [] && filterBlock.hashed == 0
      ensures Valid() && Entries() == [] && Small()
    {
      IsSmall();
      hide *;
      NothingYet();
      NothingGood();
      NoEntries();
      Whole();
    }

    lemma NothingYet()
      requires blks == [] && seps == [] && file == [] && pendingBH == BlockHandle(0, 0) && dataBlock.entries == [] && indexBlock.entries == []
      requires dataBlock != indexBlock && dataBlock.interval > 0 && indexBlock.interval == 1 && |filterName| < 0x4000_0000
      requires filterBlock.Valid() && filterBlock.groups == [] && filterBlock.generator.keyHashes == [] && filterBlock.hashed == 0
      ensures Blocks() == [] && Separate() && Written() && Lean() && Indexed() && FilterReady()
    {
      hide Good, BlockAt, WfEntries, Noted, FilterWriter.Valid, Flat;
      NoneNoted(hash);
      assert blks[..0] == [];
    }

    /** `flushPendingBH` before a key: the separator and handle of the pending block go into the index. */
    method FlushPendingBH(key: Bytes)
      requires Valid() && |key| >= 8 && (nEntries > 0 ==> ICmp()(dataBlock.prevKey, key) < 0)
      modifies this`pendingBH, this`seps, indexBlock, dataBlock`prevKey
      ensures indexBlock.Valid() && dataBlock.Valid() && Open() && unchanged(dataBlock`entries) && unchanged(dataBlock`buf) && unchanged(dataBlock`nEntries) && unchanged(dataBlock`restarts)
      ensures dataBlock.entries != [] ==> seps == old(seps) && dataBlock.prevKey == old(dataBlock.prevKey)
      ensures dataBlock.entries == [] && blks != [] ==> blks[|blks| - 1].es != [] && |seps| == |old(seps)| + 1 && seps == old(seps) + [seps[|seps| - 1]] && SepOk(LastKey(blks[|blks| - 1].es), seps[|seps| - 1], key)
      ensures blks == [] ==> seps == []
    {
      hide *;
      if pendingBH.length == 0 {
        NonePending();
        return;
      }
      LastOfAll();
      LastPending();
      var separator := SeparatorFor(dataBlock.prevKey, key);
      indexBlock.Append(separator, EncodeHandle(pendingBH));
      dataBlock.prevKey := [];
      dataBlock.KeyChanged();
      IndexGrows(blks, seps, separator);
      seps := seps + [separator];
      pendingBH := BlockHandle(0, 0);
      NowOpen();
    }

    lemma NonePending()
      requires Valid() && pendingBH.length == 0
      ensures dataBlock.Valid() && indexBlock.Valid() && Open() && |seps| == |blks| && (blks != [] ==> dataBlock.entries != [])
    {
      hide Good, Noted, WfEntries, BlockAt, ICmp, Flat, ShortSeps, FileMax, BlockWriter.Valid;
      assert blks[..|blks|] == blks;
    }

    /** No block is pending: the next entry may be appended. */
    ghost predicate Open()
      reads this`blks, this`seps, this`pendingBH, indexBlock`entries
    {
      pendingBH.length == 0 && |seps| == |blks| && ShortSeps(blks, seps) && indexBlock.entries == IndexEntries(blks, seps)
    }

    /** With a block pending the last key of all is that block's. */
    lemma LastOfAll()
      requires Valid() && pendingBH.length != 0
      ensures nEntries > 0 && blks != [] && blks[|blks| - 1].es != [] && dataBlock.prevKey == LastKey(blks[|blks| - 1].es) && |dataBlock.prevKey| >= 8
    {
      hide Noted, BlockAt, ReadRaw, ICmp, BlockBytes, Body, Restarts, WfEntries, Ascending;
      var bs := Blocks();
      assert bs[|bs| - 1] == blks[|blks| - 1].es;
      FlatLast(bs);
    }

    /** The second half of `Append`: the entry goes into the data block and its user key into the filter. */
    method AddEntry(key: Bytes, value: Bytes)
      requires Separate() && dataBlock.Valid() && indexBlock.Valid() && Written() && Lean() && Open() && FilterReady() && WfEntries(dataBlock.entries)
      requires 8 <= |key| < U64 && |value| < U64 && hash(UserKey(key)) < U32
      requires Good(WithEntry(EsOf(blks), dataBlock.entries, KV(key, value)), seps) && nEntries + 1 == |Flat(WithEntry(EsOf(blks), dataBlock.entries, KV(key, value)))|
      modifies this`nEntries, dataBlock, filterBlock, filterBlock.generator
      ensures Valid() && Entries() == Flat(WithEntry(EsOf(blks), old(dataBlock.entries), KV(key, value))) && dataBlock.entries == old(dataBlock.entries) + [KV(key, value)]
      ensures unchanged(this`file)
    {
      hide Good, Noted, BlockAt, ICmp, Flat, Body, Restarts;
      ghost var e, es := KV(key, value), dataBlock.entries;
      dataBlock.Append(key, value);
      if filtered {
        ghost var groups, pending := filterBlock.groups, filterBlock.generator.keyHashes;
        filterBlock.Add(hash, UserKey(key));
        EntryNoted(hash, groups, pending, blks, es, e);
      }
      nEntries := nEntries + 1;
      assert Blocks() == WithEntry(EsOf(blks), es, e);
      LastAdded(EsOf(blks), es, e);
    }

    /** Between appends no block of the target size is left unwritten. */
    ghost predicate Small()
      reads dataBlock`entries
    {
      dataBlock.interval > 0 && (dataBlock.entries == [] || |BlockBytes(dataBlock.interval, dataBlock.entries)| < blockSize)
    }

    lemma IsSmall()
      requires dataBlock.interval > 0 && (dataBlock.entries == [] || |BlockBytes(dataBlock.interval, dataBlock.entries)| < blockSize)
      ensures Small()
    {
    }

    /** `Append`: keys must ascend; the entry goes into the data block, which is written out once it is large enough. */
    method Append(key: Bytes, value: Bytes) returns (ok: bool)
      requires Valid() && 8 <= |key| < U64 && |value| < U64 && hash(UserKey(key)) < U32
      requires |file| + 2 * MAX_BLOCK + 64 <= MAX_FILE && (nEntries + 1) * filterBlock.generator.n <= U32 - 8
      requires |BlockBytes(dataBlock.interval, dataBlock.entries + [KV(key, value)])| <= MAX_BLOCK
      modifies this, dataBlock, indexBlock, filterBlock, filterBlock.generator
      ensures Valid() && (ok <==> old(nEntries) == 0 || ICmp()(LastKey(old(Entries())), key) < 0)
      ensures Entries() == if ok then old(Entries()) + [KV(key, value)] else old(Entries())
      ensures |file| <= |old(file)| + 2 * MAX_BLOCK + 64 && (old(Small()) ==> Small())
      ensures !ok ==> blks == old(blks) && dataBlock.entries == old(dataBlock.entries)
      ensures ok ==> var cur := old(dataBlock.entries) + [KV(key, value)];
                     if |BlockBytes(dataBlock.interval, cur)| < blockSize then blks == old(blks) && dataBlock.entries == cur
                     else blks == old(blks) + [Blk(cur, pendingBH)] && pendingBH.offset == |old(file)| && dataBlock.entries == []
    {
      hide *;
      Parts();
      if nEntries > 0 && ICmp()(dataBlock.prevKey, key) >= 0 {
        return false;
      }
      ghost var e, cur, seps0 := KV(key, value), dataBlock.entries, seps;
      FlushPendingBH(key);
      LastBlock(blks);
      AppendGood(EsOf(blks), cur, seps0, seps, e);
      AddEntry(key, value);
      Parts();
      var n := dataBlock.BytesLen();
      if n >= blockSize {
        Fewer(|filterBlock.generator.keyHashes|, nEntries, filterBlock.generator.n);
        FinishBlock();
      }
      IsSmall();
      return true;
    }

    /** `finishBlock`: the data block goes to the file and waits for its separator. */
    method FinishBlock()
      requires Valid() && dataBlock.entries != [] && |BlockBytes(dataBlock.interval, dataBlock.entries)| <= MAX_BLOCK
      requires |file| + 2 * MAX_BLOCK + 64 <= MAX_FILE && (filtered ==> |filterBlock.generator.keyHashes| * filterBlock.generator.n <= U32 - 8)
      modifies this`file, this`pendingBH, this`blks, dataBlock, filterBlock, filterBlock.generator
      ensures Valid() && Entries() == old(Entries()) && pendingBH.length > 0 && dataBlock.entries == []
      ensures |file| <= |old(file)| + 2 * MAX_BLOCK + 64 && nEntries == old(nEntries)
      ensures blks == old(blks) + [Blk(old(dataBlock.entries), pendingBH)] && pendingBH.offset == |old(file)|
    {
      hide *;
      Parts();
      NotedNow();
      ghost var file0, blks0, es := file, blks, dataBlock.entries;
      StoreBlock();
      if filtered {
        BlockNoted(hash, filterBlock.groups, filterBlock.generator.keyHashes, blks0, es, pendingBH);
        FlushFilter(file0);
      } else {
        NoFilter();
      }
      MovedBlock(blks0, es);
      NoEntries();
      Whole();
    }

    lemma NotedNow()
      requires Valid()
      ensures filtered ==> filterBlock.Valid() && |filterBlock.groups| == |file| / FILTER_BASE
                           && Noted(hash, filterBlock.groups, filterBlock.generator.keyHashes, blks, dataBlock.entries)
      ensures Indexed() && Lean() && ShortSeps(blks, seps) && indexBlock.entries == IndexEntries(blks[..|seps|], seps) && (dataBlock.entries != [] ==> |seps| == |blks|)
    {
      hide Noted, Good, BlockAt, WfEntries;
    }

    lemma NoFilter()
      requires !filtered
      ensures FilterReady()
    {
    }

    /** The block has moved from the buffer to the list of written ones. */
    lemma MovedBlock(blks0: seq<Blk>, es: seq<KV>)
      requires es != [] && blks == blks0 + [Blk(es, pendingBH)] && dataBlock.entries == [] && pendingBH.length > 0
      requires |seps| == |blks0| && ShortSeps(blks0, seps) && indexBlock.entries == IndexEntries(blks0[..|seps|], seps)
      ensures Blocks() == EsOf(blks0) + [es] && Indexed()
    {
      assert blks[..|seps|] == blks0;
      assert EsOf(blks) == EsOf(blks0) + [es];
    }

    lemma Whole()
      requires Separate() && dataBlock.Valid() && indexBlock.Valid() && Written() && Lean() && Indexed() && FilterReady()
      requires Good(Blocks(), seps) && WfEntries(dataBlock.entries) && nEntries == |Flat(Blocks())|
      requires if nEntries > 0 then Flat(Blocks()) != [] && dataBlock.prevKey == LastKey(Flat(Blocks())) else dataBlock.prevKey == []
      ensures Valid() && Entries() == Flat(Blocks())
    {
      hide Noted, Good, BlockAt, WfEntries, FilterReady, Written, Indexed;
    }

    /** The finished data block, in the file and no longer in the buffer. */
    method StoreBlock()
      requires dataBlock.Valid() && Written() && Lean() && WfEntries(dataBlock.entries)
      requires dataBlock.entries != [] && |BlockBytes(dataBlock.interval, dataBlock.entries)| <= MAX_BLOCK && |file| + 2 * MAX_BLOCK + 64 <= MAX_FILE
      modifies this`file, this`pendingBH, this`blks, dataBlock
      ensures dataBlock.Valid() && Written() && Lean() && dataBlock.entries == [] && dataBlock.prevKey == old(dataBlock.prevKey) && pendingBH.length > 0
      ensures blks == old(blks) + [Blk(old(dataBlock.entries), pendingBH)] && pendingBH.offset == |old(file)|
      ensures |old(file)| <= |file| <= |old(file)| + 2 * MAX_BLOCK + 64
    {
      hide BlockAt, Body, Restarts, BlockBytes, ReadRaw, WfEntries;
      ghost var es, file0 := dataBlock.entries, file;
      dataBlock.Finish();
      var bh;
      Encodable(dataBlock.interval, es);
      file, bh := WriteBlock(crc, file, dataBlock.buf, compress);
      pendingBH := bh;
      MoreWritten(crc, file0, file, dataBlock.interval, blks, es, bh);
      BlockMax(dataBlock.interval, es);
      MoreBlocks(blks, es, bh);
      blks := blks + [Blk(es, bh)];
      dataBlock.Reset();
    }

    /** `flushPendingBH` at the end: a key behind the last one closes the index. */
    method FlushLast()
      requires Valid() && pendingBH.length > 0
      modifies this`pendingBH, this`seps, indexBlock, dataBlock`prevKey
      ensures indexBlock.Valid() && Open() && blks != [] && Separated(EsOf(blks), seps)
      ensures unchanged(dataBlock`entries) && dataBlock.entries == [] && dataBlock.Valid()
    {
      hide *;
      LastOfAll();
      LastPending();
      LastBlock(blks);
      var last := LastSeparator(dataBlock.prevKey);
      var separator := last.value;
      indexBlock.Append(separator, EncodeHandle(pendingBH));
      dataBlock.prevKey := [];
      dataBlock.KeyChanged();
      IndexGrows(blks, seps, separator);
      GoodSeparated(EsOf(blks), seps, separator);
      seps := seps + [separator];
      pendingBH := BlockHandle(0, 0);
      NowOpen();
    }

    /** What is known with a block pending: the index lacks only that block. */
    lemma LastPending()
      requires Valid() && pendingBH.length > 0
      ensures dataBlock != indexBlock && dataBlock.Valid() && indexBlock.Valid() && dataBlock.entries == []
      ensures |seps| + 1 == |blks| && ShortSeps(blks, seps) && indexBlock.entries == IndexEntries(blks[..|seps|], seps)
      ensures pendingBH == blks[|blks| - 1].bh && Good(EsOf(blks), seps)
    {
      hide Good, Noted, WfEntries, BlockAt, ICmp, Flat, ShortSeps, FileMax, BlockWriter.Valid;
      assert Blocks() == EsOf(blks);
    }

    lemma NowOpen()
      requires pendingBH.length == 0 && |seps| == |blks| && ShortSeps(blks, seps) && indexBlock.entries == IndexEntries(blks, seps)
      ensures Open()
    {
    }

    /** `Close`: the last data block, the filter block, the metaindex block, the index block and the footer. What is then
        in the file is what `NewReader` opens and `find` reads; a table without entries is never closed, the internal key
        comparer panics on the empty last key. */
    method Close() returns (r: CloseResult)
      requires Valid() && nEntries * filterBlock.generator.n <= U32 - 8
      requires |BlockBytes(dataBlock.interval, dataBlock.entries)| <= MAX_BLOCK && |file| + 8 * MAX_BLOCK + 320 <= MAX_FILE
      modifies this, dataBlock, indexBlock, filterBlock, filterBlock.generator
      ensures r.Panicked? <==> old(nEntries) == 0
      ensures r.TooLarge? ==> !Modest(old(Entries()), filtered, filterBlock.generator.n)
      ensures r.Closed? ==> TableOk(crc, file, dataBlock.interval, blks, seps, r.indexBH) && AllEntries(blks) == old(Entries())
      ensures r.Closed? ==> MetaOk(crc, file, dataBlock.interval, filterName, r.metaBH, r.indexBH, r.filterBH)
      ensures r.Closed? ==> (filtered <==> r.filterBH.Some?)
      ensures r.Closed? ==> EsOf(blks) == old(EsOf(blks)) + if old(dataBlock.entries) == [] then [] else [old(dataBlock.entries)]
      ensures r.Closed? && filtered ==> FilterOk(crc, file, hash, filterBlock.generator.n, filterBlock.groups, blks, r.filterBH.value)
    {
      hide *;
      Parts();
      if nEntries == 0 {
        var separator := CloseEmpty();
        return Panicked;
      }
      CountIs(dataBlock);
      if dataBlock.nEntries > 0 {
        Fewer(|filterBlock.generator.keyHashes|, nEntries, filterBlock.generator.n);
        OneMoreOf(blks, dataBlock.entries);
        FinishBlock();
      } else {
        StillPending();
      }
      Parts();
      assert EsOf(blks) + [] == EsOf(blks);
      AllIs(blks);
      ghost var size := |file|;
      FlushLast();
      IndexBound();
      ModestParts(AllEntries(blks), size, filtered, filterBlock.generator.n);
      var filterBH := None;
      if filtered {
        Fewer(|filterBlock.generator.keyHashes|, nEntries, filterBlock.generator.n);
        filterBH := CloseFilter();
        if filterBH.None? {
          return TooLarge;
        }
      }
      ghost var file1 := file;
      var metaBH := CloseMeta(filterBH);
      ghost var file2 := file;
      var indexBH := CloseIndex();
      if indexBH.None? {
        return TooLarge;
      }
      ghost var file3 := file;
      FooterRoundTrip(file, metaBH, indexBH.value);
      file := file + Footer(metaBH, indexBH.value);
      TableStays(crc, file3, file, dataBlock.interval, blks, seps, indexBH.value);
      MetaStays(crc, file2, file, dataBlock.interval, filterName, metaBH, indexBH.value, filterBH);
      if filtered {
        FilterStays(crc, file1, file, hash, filterBlock.generator.n, filterBlock.groups, blks, filterBH.value);
      }
      return Closed(metaBH, indexBH.value, filterBH);
    }

    /** A complete index stays within its share. */
    lemma IndexBound()
      requires Open() && Written()
      ensures |seps| == |blks| && |BlockBytes(1, IndexEntries(blks, seps))| <= 8 + IndexMax(AllEntries(blks))
    {
      hide BlockBytes, ReadRaw, WfEntries;
      IndexBlockMax(blks, seps);
    }

    /** The metaindex block. */
    method CloseMeta(filterBH: Option<BlockHandle>) returns (bh: BlockHandle)
      requires Separate() && Written() && dataBlock.Valid() && dataBlock.entries == []
      requires filterBH.Some? ==> filterBH.value.offset < U64 && filterBH.value.length < U64
      requires |file| + 2 * MAX_BLOCK + 64 <= MAX_FILE
      modifies this`file, dataBlock
      ensures Written() && old(file) <= file && |file| <= |old(file)| + 2 * MAX_BLOCK + 64
      ensures bh.offset < U64 && bh.length < U64
      ensures forall verify :: ReadRaw(crc, file, bh, verify) == Some(BlockBytes(dataBlock.interval, MetaEntries(filterName, filterBH)))
    {
      hide BlockAt, ReadRaw, BlockBytes, Body, Restarts, WfEntries, EncodeHandle;
      ghost var file0 := file;
      if filterBH.Some? {
        var key := FILTER_PREFIX + filterName;
        dataBlock.Append(key, EncodeHandle(filterBH.value));
      }
      MetaSize(dataBlock.interval, filterName, filterBH);
      assert dataBlock.entries == MetaEntries(filterName, filterBH);
      Encodable(dataBlock.interval, dataBlock.entries);
      dataBlock.Finish();
      file, bh := WriteBlock(crc, file, dataBlock.buf, compress);
      AllStay(crc, file0, file, dataBlock.interval, blks);
    }

    /** `finishBlock` and `flushPendingBH(nil)` for a table without entries: an empty data block goes to the file,
        and the separator behind it is asked of the empty key. */
    method CloseEmpty() returns (separator: Option<Bytes>)
      requires Valid() && nEntries == 0
      modifies this`file, this`pendingBH, dataBlock, filterBlock, filterBlock.generator
      ensures pendingBH.length > 0 && separator == None
    {
      hide BlockAt, Body, Restarts, ReadRaw, WfEntries, Noted, Good;
      dataBlock.Finish();
      EmptyBlock(dataBlock.interval, dataBlock.entries);
      var bh;
      file, bh := WriteBlock(crc, file, dataBlock.buf, compress);
      pendingBH := bh;
      dataBlock.Reset();
      if filtered {
        NoWrap(0, filterBlock.generator.n);
        var ok := filterBlock.Flush(|file|);
      }
      separator := LastSeparator(dataBlock.prevKey);
    }

    /** The filter block, written uncompressed. */
    method CloseFilter() returns (bh: Option<BlockHandle>)
      requires filtered && Written() && FilterReady() && dataBlock.entries == [] && |filterBlock.generator.keyHashes| * filterBlock.generator.n <= U32 - 8
      requires |file| + 2 * MAX_BLOCK + 64 <= MAX_FILE
      modifies this`file, filterBlock, filterBlock.generator
      ensures Written() && |file| <= |old(file)| + 2 * MAX_BLOCK + 64
      ensures bh.None? ==> |old(filterBlock.generator.keyHashes)| <= nEntries && nEntries * filterBlock.generator.n + 112 * (|old(file)| / FILTER_BASE) + 152 >= U32
      ensures bh.Some? ==> FilterOk(crc, file, hash, filterBlock.generator.n, filterBlock.groups, blks, bh.value) && bh.value.offset < U64 && bh.value.length < U64
    {
      hide Noted, BlockAt, ReadRaw, FilterBytes, Stretched;
      FewerKeys(filterBlock.hashed, |filterBlock.generator.keyHashes|, nEntries, filterBlock.generator.n);
      if |filterBlock.buf| >= U32 {
        return None;
      }
      ghost var groups, pending := filterBlock.groups, filterBlock.generator.keyHashes;
      NoWrap(|pending|, filterBlock.generator.n);
      var ok := filterBlock.Finish();
      if 8 * |filterBlock.buf| >= U32 {
        return None;
      }
      var h;
      ghost var file0, data := file, filterBlock.buf;
      Fits(|filterBlock.buf|);
      file, h := WriteBlock(crc, file, filterBlock.buf, false);
      AllStay(crc, file0, file, dataBlock.interval, blks);
      AllStretched(hash, groups, pending, blks, filterBlock.groups);
      assert ReadRaw(crc, file, h, true) == Some(data);
      return Some(h);
    }

    /** The index block. */
    method CloseIndex() returns (bh: Option<BlockHandle>)
      requires Separate() && Written() && Open() && indexBlock.Valid() && blks != [] && Separated(EsOf(blks), seps)
      requires |file| + 2 * MAX_BLOCK + 64 <= MAX_FILE
      modifies this`file, indexBlock
      ensures old(file) <= file
      ensures bh.None? ==> |seps| == |blks| && |BlockBytes(1, IndexEntries(blks, seps))| > MAX_BLOCK
      ensures bh.Some? ==> TableOk(crc, file, dataBlock.interval, blks, seps, bh.value) && bh.value.offset < U64 && bh.value.length < U64
    {
      hide BlockAt, ReadRaw, Separated, BlockBytes, Body, Restarts, WfEntries;
      var n := indexBlock.BytesLen();
      if n > MAX_BLOCK {
        return None;
      }
      ghost var es, file0 := indexBlock.entries, file;
      ShortEntries(es);
      Encodable(1, es);
      indexBlock.Finish();
      var h;
      file, h := WriteBlock(crc, file, indexBlock.buf, compress);
      AllStay(crc, file0, file, dataBlock.interval, blks);
      IndexAt(crc, file, es, h);
      return Some(h);
    }

    /** `filterBlock.flush` after a block: its keys stay noted. */
    method FlushFilter(ghost file0: Bytes)
      requires filtered && filterBlock.Valid() && |filterBlock.groups| == |file0| / FILTER_BASE && |file0| <= |file|
      requires filterBlock.hashed + |filterBlock.generator.keyHashes| <= nEntries
      requires |filterBlock.generator.keyHashes| * filterBlock.generator.n <= U32 - 8
      requires Noted(hash, filterBlock.groups, filterBlock.generator.keyHashes, blks, []) && dataBlock.entries == []
      modifies filterBlock, filterBlock.generator
      ensures FilterReady()
    {
      hide Noted;
      ghost var groups, pending := filterBlock.groups, filterBlock.generator.keyHashes;
      NoWrap(|pending|, filterBlock.generator.n);
      var ok := filterBlock.Flush(|file|);
      Stretches(|file0|, |file|);
      FlushNoted(hash, groups, pending, blks, filterBlock.groups, filterBlock.generator.keyHashes);
    }

    /** Between blocks there is a pending one, unless nothing was appended. */
    lemma StillPending()
      requires Valid() && dataBlock.nEntries == 0 && nEntries > 0
      ensures pendingBH.length > 0 && dataBlock.entries == []
    {
      assert blks == [] ==> Blocks() == [];
    }

    /** What a valid writer gives its methods. */
    lemma Parts()
      requires Valid()
      ensures Separate() && dataBlock.Valid() && indexBlock.Valid() && Written() && Lean() && FilterReady() && WfEntries(dataBlock.entries)
      ensures Blocks() == EsOf(blks) + (if dataBlock.entries == [] then [] else [dataBlock.entries]) && Entries() == Flat(Blocks()) && Good(Blocks(), seps)
      ensures nEntries == |Entries()|
      ensures if nEntries > 0 then Entries() != [] && dataBlock.prevKey == LastKey(Entries()) else dataBlock.prevKey == []
      ensures Blocks() == [] ==> seps == [] && Entries() == []
      ensures filtered ==> filterBlock.hashed + |filterBlock.generator.keyHashes| <= nEntries
    {
    }
  }

  lemma CountIs(b: BlockWriter)
    requires b.Valid()
    ensures b.nEntries == |b.entries|
  {
  }

  lemma OneMoreOf(blks: seq<Blk>, es: seq<KV>)
    ensures forall bh :: EsOf(blks + [Blk(es, bh)]) == EsOf(blks) + [es]
  {
  }

  lemma EmptyBlock(interval: nat, es: seq<KV>)
    requires interval > 0 && es == []
    ensures |BlockBytes(interval, es)| == 8 && SnappyEncode.MaxEncodedLen(8) >= 0
  {
  }

  lemma FilterStays(crc: Crc, file0: Bytes, file: Bytes, hash: KeyHash, n: nat, groups: seq<seq<nat>>, blks: seq<Blk>, bh: BlockHandle)
    requires file0 <= file && FilterOk(crc, file0, hash, n, groups, blks, bh)
    ensures FilterOk(crc, file, hash, n, groups, blks, bh)
  {
    hide ReadRaw, FilterBytes, Stretched;
    var data :| (forall verify :: ReadRaw(crc, file0, bh, verify) == Some(data)) && FilterBytes(data, n, groups) && 8 * |data| < U32;
    forall verify ensures ReadRaw(crc, file, bh, verify) == Some(data) {
      ReadRawGrows(crc, file0, file, bh, verify);
    }
  }

  lemma TableStays(crc: Crc, file0: Bytes, file: Bytes, interval: nat, blks: seq<Blk>, seps: seq<Bytes>, indexBH: BlockHandle)
    requires file0 <= file && TableOk(crc, file0, interval, blks, seps, indexBH)
    ensures TableOk(crc, file, interval, blks, seps, indexBH)
  {
    hide BlockAt, Separated;
    SameCount(EsOf(blks), seps);
    BlockStays(crc, file0, file, 1, IndexEntries(blks, seps), indexBH);
    forall k | 0 <= k < |blks| ensures BlockAt(crc, file, interval, blks[k].es, blks[k].bh) {
      BlockStays(crc, file0, file, interval, blks[k].es, blks[k].bh);
    }
  }

  lemma MetaStays(crc: Crc, file0: Bytes, file: Bytes, interval: nat, name: Bytes, metaBH: BlockHandle, indexBH: BlockHandle, filterBH: Option<BlockHandle>)
    requires file0 <= file && interval > 0 && |name| < 0x4000_0000 && ReadFooter(file) == Footed(metaBH, indexBH)
    requires filterBH.Some? ==> filterBH.value.offset < U64 && filterBH.value.length < U64
    requires forall verify :: ReadRaw(crc, file0, metaBH, verify) == Some(BlockBytes(interval, MetaEntries(name, filterBH)))
    ensures MetaOk(crc, file, interval, name, metaBH, indexBH, filterBH)
  {
    hide ReadRaw, BlockBytes, ReadFooter;
    forall verify ensures ReadRaw(crc, file, metaBH, verify) == Some(BlockBytes(interval, MetaEntries(name, filterBH))) {
      ReadRawGrows(crc, file0, file, metaBH, verify);
    }
  }

  lemma FewerKeys(hashed: nat, pending: nat, count: nat, n: nat)
    requires hashed + pending <= count
    ensures (hashed + pending) * n <= count * n && hashed * n <= count * n
  {
  }

  /** What being too large for either block means. */
  lemma ModestParts(es: seq<KV>, size: nat, filtered: bool, bits: nat)
    requires size <= FileMax(es)
    ensures Modest(es, filtered, bits) ==>
              IndexMax(es) + 8 <= MAX_BLOCK && (filtered ==> |es| * bits + 112 * (size / FILTER_BASE) + 152 < U32)
  {
    Stretches(size, FileMax(es));
  }

  lemma Fits(n: nat)
    requires 8 * n < U32
    ensures SnappyEncode.MaxEncodedLen(n) >= 0 && n <= MAX_BLOCK
  {
  }

  lemma AllStay(crc: Crc, file0: Bytes, file: Bytes, interval: nat, blks: seq<Blk>)
    requires file0 <= file
    requires forall k :: 0 <= k < |blks| ==> BlockAt(crc, file0, interval, blks[k].es, blks[k].bh) && blks[k].bh.length > 0
    ensures forall k :: 0 <= k < |blks| ==> BlockAt(crc, file, interval, blks[k].es, blks[k].bh) && blks[k].bh.length > 0
  {
    hide BlockAt;
    forall k | 0 <= k < |blks| ensures BlockAt(crc, file, interval, blks[k].es, blks[k].bh) {
      BlockStays(crc, file0, file, interval, blks[k].es, blks[k].bh);
    }
  }

  /** In a block without sharing every entry is no longer than the block. */
  lemma ShortEntries(es: seq<KV>)
    requires |BlockBytes(1, es)| <= MAX_BLOCK
    ensures WfEntries(es)
  {
    forall i | 0 <= i < |es| ensures |es[i].key| < U64 && |es[i].value| < U64 {
      EntryPlace(1, es, i);
      hide Body;
    }
  }

  lemma IndexAt(crc: Crc, file: Bytes, es: seq<KV>, h: BlockHandle)
    requires es != [] && WfEntries(es) && |BlockBytes(1, es)| <= MAX_BLOCK && h.offset + h.length <= |file| <= MAX_FILE
    requires forall verify :: ReadRaw(crc, file, h, verify) == Some(BlockBytes(1, es))
    ensures BlockAt(crc, file, 1, es, h)
  {
    hide BlockBytes, ReadRaw, WfEntries;
  }

  lemma NoEntries()
    ensures WfEntries([])
  {
  }

  lemma Fewer(a: nat, b: nat, n: nat)
    ensures a <= b ==> a * n <= b * n
  {
  }

  lemma LastBlock(blks: seq<Blk>)
    ensures blks != [] ==> EsOf(blks)[|blks| - 1] == blks[|blks| - 1].es
  {
  }

  lemma Stretches(a: nat, b: nat)
    requires a <= b
    ensures a / FILTER_BASE <= b / FILTER_BASE
  {
  }

  lemma Encodable(interval: nat, es: seq<KV>)
    requires interval > 0 && |BlockBytes(interval, es)| <= MAX_BLOCK
    ensures BlockBytes(interval, es) != [] && SnappyEncode.MaxEncodedLen(|BlockBytes(interval, es)|) >= 0
  {
  }

  /** A block added to the file leaves the others readable. */
  lemma MoreWritten(crc: Crc, file0: Bytes, file: Bytes, interval: nat, blks: seq<Blk>, es: seq<KV>, bh: BlockHandle)
    requires interval > 0 && file0 <= file && |file| <= MAX_FILE
    requires forall k :: 0 <= k < |blks| ==> BlockAt(crc, file0, interval, blks[k].es, blks[k].bh) && blks[k].bh.length > 0
    requires es != [] && WfEntries(es) && |BlockBytes(interval, es)| <= MAX_BLOCK && bh.offset + bh.length <= |file|
    requires forall verify :: ReadRaw(crc, file, bh, verify) == Some(BlockBytes(interval, es))
    ensures BlockAt(crc, file, interval, es, bh)
    ensures forall k :: 0 <= k < |blks| ==> BlockAt(crc, file, interval, blks[k].es, blks[k].bh) && blks[k].bh.length > 0
  {
    hide BlockBytes, ReadRaw, WfEntries;
    forall k | 0 <= k < |blks| ensures BlockAt(crc, file, interval, blks[k].es, blks[k].bh) {
      BlockStays(crc, file0, file, interval, blks[k].es, blks[k].bh);
    }
  }

  lemma BlockStays(crc: Crc, file0: Bytes, file: Bytes, interval: nat, es: seq<KV>, bh: BlockHandle)
    requires BlockAt(crc, file0, interval, es, bh) && file0 <= file
    ensures BlockAt(crc, file, interval, es, bh)
  {
    hide BlockBytes, ReadRaw, WfEntries;
    forall verify ensures ReadRaw(crc, file, bh, verify) == Some(BlockBytes(interval, es)) {
      ReadRawGrows(crc, file0, file, bh, verify);
    }
  }

  /** The blocks once `e` is in the current one. */
  function WithEntry(bs: seq<seq<KV>>, cur: seq<KV>, e: KV): seq<seq<KV>> {
    bs + [cur + [e]]
  }

  lemma LastAdded(bs: seq<seq<KV>>, cur: seq<KV>, e: KV)
    ensures Flat(WithEntry(bs, cur, e)) != [] && LastKey(Flat(WithEntry(bs, cur, e))) == e.key
  {
    FlatLast(WithEntry(bs, cur, e));
  }

  /** The blocks stay in order when a larger key is added behind the separator just made. */
  lemma AppendGood(bs: seq<seq<KV>>, cur: seq<KV>, seps0: seq<Bytes>, seps: seq<Bytes>, e: KV)
    requires var all := bs + (if cur == [] then [] else [cur]);
             Good(all, seps0) && (Flat(all) != [] ==> ICmp()(LastKey(Flat(all)), e.key) < 0)
    requires |e.key| >= 8
    requires cur != [] || bs == [] ==> seps == seps0
    requires cur == [] && bs != [] ==> |seps| == |seps0| + 1 && seps == seps0 + [seps[|seps0|]] && bs[|bs| - 1] != [] && SepOk(LastKey(bs[|bs| - 1]), seps[|seps0|], e.key)
    ensures Good(WithEntry(bs, cur, e), seps) && Flat(WithEntry(bs, cur, e)) == Flat(bs + (if cur == [] then [] else [cur])) + [e]
  {
    hide ICmp, SepOk, Ascending;
    if cur == [] {
      assert bs + [] == bs && [] + [e] == [e];
      if bs != [] { FlatLast(bs); }
      GoodNewBlock(bs, seps0, if bs == [] then [] else seps[|seps0|], e);
      assert bs == [] ==> seps0 == [];
    } else {
      var all := bs + [cur];
      FlatLast(all);
      GoodSameBlock(all, seps0, e);
      assert all[|all| - 1 := cur + [e]] == WithEntry(bs, cur, e);
    }
  }

  method SeparatorFor(a: Bytes, b: Bytes) returns (s: Bytes)
    requires |a| >= 8 && |b| >= 8 && ICmp()(a, b) < 0
    ensures SepOk(a, s, b) && |s| <= |a|
  {
    var sep := ISeparator(a, b);
    s := if sep.Some? then sep.value else a;
  }

  /** `iComparer.Successor` and what the index uses instead of nil; `None` where `internalKey.assert` panics. */
  method LastSeparator(a: Bytes) returns (s: Option<Bytes>)
    ensures s.Some? <==> |a| >= 8
    ensures s.Some? ==> LastSepOk(a, s.value) && |s.value| <= |a|
  {
    if |a| < 8 {
      return None;
    }
    var sep := ISuccessor(a);
    s := Some(if sep.Some? then sep.value else a);
  }

  lemma IndexGrows(blks: seq<Blk>, seps: seq<Bytes>, s: Bytes)
    requires |seps| + 1 == |blks| && ShortSeps(blks, seps) && blks[|seps|].es != [] && |s| <= |LastKey(blks[|seps|].es)|
    ensures IndexEntries(blks, seps + [s]) == IndexEntries(blks[..|seps|], seps) + [KV(s, EncodeHandle(blks[|blks| - 1].bh))]
    ensures ShortSeps(blks, seps + [s])
  {
  }
}
