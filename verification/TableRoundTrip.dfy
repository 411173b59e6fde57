/** A table written entry by entry and closed, then opened and searched. */
module TableRoundTrip {
  import opened Keys
  import opened Varint
  import opened InternalKeys
  import opened MemDb
  import opened JournalFormat
  import opened BlockFormat
  import opened BlockReader
  import opened RawBlock
  import opened Bloom
  import opened FilterBlock
  import opened TableIndex
  import opened TableFooter
  import opened TableReader
  import opened TableWriter

  const GIB: nat := 0x4000_0000

  /** Internal keys and values of up to a gibibyte, few enough for 64-bit offsets and the 32-bit filter size. */
  ghost predicate Writable(es: seq<KV>, blockSize: nat, bitsPerKey: nat) {
    blockSize <= GIB && |es| <= 0x2000_0000 && |es| * bitsPerKey <= U32 - 8
    && forall i :: 0 <= i < |es| ==> 8 <= |es[i].key| && |es[i].key| + |es[i].value| <= GIB - 64
  }

  /** The next entry fits whatever block is open. */
  lemma Room(interval: nat, cur: seq<KV>, e: KV, blockSize: nat)
    requires interval > 0 && (cur == [] || |BlockBytes(interval, cur)| < blockSize) && blockSize <= GIB
    requires |e.key| + |e.value| <= GIB - 64
    ensures |BlockBytes(interval, cur + [e])| <= MAX_BLOCK && |BlockBytes(interval, cur)| <= MAX_BLOCK
  {
    hide BlockBytes;
    EmptyBlockLen(interval);
    BlockGrows(interval, cur, e);
  }

  /** The most `n` appends can write. */
  function Growth(n: nat): nat { n * (2 * MAX_BLOCK + 64) }

  lemma FileRoom(i: nat, size: nat)
    requires i <= 0x2000_0000 && size <= Growth(i)
    ensures size + 8 * MAX_BLOCK + 320 <= MAX_FILE && size + 2 * MAX_BLOCK + 64 <= MAX_FILE
  {
  }

  lemma NextBits(i: nat, n: nat, bits: nat)
    requires i < n && n * bits <= U32 - 8
    ensures (i + 1) * bits <= U32 - 8
  {
    assert (i + 1) * bits <= n * bits;
  }

  /** Entries that take less than two gibibytes, each with an allowance of 175 bytes, are modest while their number of
      filter bits is below 2^31: nothing out of the ordinary is ever too large. */
  lemma OrdinaryIsModest(es: seq<KV>, filtered: bool, bitsPerKey: nat)
    requires IndexMax(es) + FileMax(es) <= MAX_BLOCK - 8 && |es| * bitsPerKey < 0x8000_0000
    ensures Modest(es, filtered, bitsPerKey)
  {
  }

  /** A block is written as soon as it has reached the block size, so without its last entry it is smaller; only the
      last block of a table may be smaller itself. */
  ghost predicate CutAtSize(interval: nat, blockSize: nat, bs: seq<seq<KV>>, lastToo: bool) {
    interval > 0 && forall k :: 0 <= k < |bs| ==> CutOff(interval, blockSize, bs[k], lastToo || k < |bs| - 1)
  }

  ghost predicate CutOff(interval: nat, blockSize: nat, es: seq<KV>, full: bool)
    requires interval > 0
  {
    es != [] && (|es| > 1 ==> |BlockBytes(interval, es[..|es| - 1])| < blockSize) && (full ==> |BlockBytes(interval, es)| >= blockSize)
  }

  lemma NextCut(interval: nat, blockSize: nat, bs: seq<seq<KV>>, cur: seq<KV>, full: bool)
    requires CutAtSize(interval, blockSize, bs, true) && CutOff(interval, blockSize, cur, full)
    ensures CutAtSize(interval, blockSize, bs + [cur], full)
  {
    hide CutOff;
  }

  /** The block at hand, ended by an entry. */
  lemma EndsHere(interval: nat, blockSize: nat, cur: seq<KV>, e: KV)
    requires interval > 0 && (cur == [] || |BlockBytes(interval, cur)| < blockSize)
    ensures CutOff(interval, blockSize, cur + [e], |BlockBytes(interval, cur + [e])| >= blockSize)
  {
    assert (cur + [e])[..|cur + [e]| - 1] == cur;
    hide BlockBytes;
  }

  /** Every entry is appended. */
  method WriteAll(w: Writer, es: seq<KV>)
    requires w.Valid() && w.Entries() == [] && w.file == [] && w.Small() && Ascending(ICmp(), es)
    requires Writable(es, w.blockSize, w.filterBlock.generator.n) && forall k :: w.hash(k) < U32
    modifies w, w.dataBlock, w.indexBlock, w.filterBlock, w.filterBlock.generator
    requires w.blks == [] && w.dataBlock.entries == []
    ensures w.Valid() && w.Entries() == es && w.Small() && |w.file| <= Growth(|es|)
    ensures CutAtSize(w.dataBlock.interval, w.blockSize, EsOf(w.blks), true)
    ensures w.dataBlock.entries != [] ==> CutOff(w.dataBlock.interval, w.blockSize, w.dataBlock.entries, false)
  {
    hide Writer.Valid, Writer.Entries, Writer.Small, BlockBytes, Ascending, ICmp, CutAtSize, CutOff;
    OpenBlockOf(w);
    NoCuts(w.dataBlock.interval, w.blockSize, w.blks);
    for i := 0 to |es|
      invariant w.Valid() && w.Entries() == es[..i] && w.Small() && |w.file| <= Growth(i)
      invariant w.dataBlock.interval > 0 && CutAtSize(w.dataBlock.interval, w.blockSize, EsOf(w.blks), true)
      invariant w.dataBlock.entries != [] ==> CutOff(w.dataBlock.interval, w.blockSize, w.dataBlock.entries, false)
    {
      ReadyToAppend(w, es, i);
      OpenBlockOf(w);
      ghost var blks, cur, e := w.blks, w.dataBlock.entries, KV(es[i].key, es[i].value);
      var ok := w.Append(es[i].key, es[i].value);
      EntryCut(w.dataBlock.interval, w.blockSize, blks, cur, e);
      assert es[..i + 1] == es[..i] + [es[i]];
      assert es[i] == KV(es[i].key, es[i].value);
      assert |w.file| <= Growth(i + 1);
    }
    assert es[..|es|] == es;
  }

  lemma NoCuts(interval: nat, blockSize: nat, blks: seq<Blk>)
    requires interval > 0 && blks == []
    ensures CutAtSize(interval, blockSize, EsOf(blks), true)
  {
  }

  /** The next entry ends its block exactly when that is large enough with it. */
  lemma EntryCut(interval: nat, blockSize: nat, blks: seq<Blk>, cur: seq<KV>, e: KV)
    requires interval > 0 && (cur == [] || |BlockBytes(interval, cur)| < blockSize) && CutAtSize(interval, blockSize, EsOf(blks), true)
    ensures if |BlockBytes(interval, cur + [e])| < blockSize then CutOff(interval, blockSize, cur + [e], false)
            else forall bh :: CutAtSize(interval, blockSize, EsOf(blks + [Blk(cur + [e], bh)]), true)
  {
    hide BlockBytes, CutAtSize, CutOff;
    EndsHere(interval, blockSize, cur, e);
    OneMoreOf(blks, cur + [e]);
    if |BlockBytes(interval, cur + [e])| >= blockSize {
      NextCut(interval, blockSize, EsOf(blks), cur + [e], true);
    }
  }

  lemma ReadyToAppend(w: Writer, es: seq<KV>, i: nat)
    requires i < |es| && w.Valid() && w.Entries() == es[..i] && w.Small() && |w.file| <= Growth(i)
    requires Writable(es, w.blockSize, w.filterBlock.generator.n) && Ascending(ICmp(), es)
    ensures var e := es[i];
            && 8 <= |e.key| < U64 && |e.value| < U64 && |w.file| + 2 * MAX_BLOCK + 64 <= MAX_FILE
            && w.dataBlock.interval > 0 && (w.nEntries + 1) * w.filterBlock.generator.n <= U32 - 8
            && |BlockBytes(w.dataBlock.interval, w.dataBlock.entries + [KV(e.key, e.value)])| <= MAX_BLOCK
            && (i == 0 <==> w.nEntries == 0) && (i > 0 ==> ICmp()(LastKey(es[..i]), e.key) < 0)
  {
    hide *;
    w.Parts();
    OpenBlockOf(w);
    WritableAt(es, i, w.blockSize, w.filterBlock.generator.n);
    Room(w.dataBlock.interval, w.dataBlock.entries, es[i], w.blockSize);
    NextBits(i, |es|, w.filterBlock.generator.n);
    FileRoom(i, |w.file|);
    AscendsAt(es, i);
    Rejoined(es[i]);
  }

  lemma OpenBlockOf(w: Writer)
    requires w.Small()
    ensures w.dataBlock.interval > 0 && (w.dataBlock.entries == [] || |BlockBytes(w.dataBlock.interval, w.dataBlock.entries)| < w.blockSize)
  {
  }

  lemma WritableAt(es: seq<KV>, i: nat, blockSize: nat, bits: nat)
    requires Writable(es, blockSize, bits) && i < |es|
    ensures blockSize <= GIB && i < 0x2000_0000 && |es| * bits <= U32 - 8
    ensures 8 <= |es[i].key| < U64 && |es[i].value| < U64 && |es[i].key| + |es[i].value| <= GIB - 64
  {
  }

  lemma AscendsAt(es: seq<KV>, i: nat)
    requires Ascending(ICmp(), es) && i < |es|
    ensures |es[..i]| == i && (i > 0 ==> ICmp()(LastKey(es[..i]), es[i].key) < 0)
  {
    hide ICmp;
  }

  lemma Rejoined(e: KV)
    ensures KV(e.key, e.value) == e
  {
  }

  /** A table is written, closed, opened and searched. Closing fails by a panic exactly when nothing was appended, and
      otherwise succeeds for every `Modest` table: its index and its filter are then within the format's 32 bits. The
      closed file is a table of exactly the entries appended, in blocks cut at the block size, and with the filter on its
      filters are made of exactly the keys of their stretches. Searching it for any key gives what a linear scan of the
      entries gives, the first at or after the key; with a filter of a known name in use it reports nothing exactly where
      the filter denies the block, which it never does when that entry has the user key sought. */
  method WriteThenFind(crc: Crc, compress: bool, blockSize: nat, interval: nat, filtered: bool, filterName: Bytes, bitsPerKey: nat, hash: KeyHash,
                       es: seq<KV>, known: seq<Bytes>, key: Bytes, verify: bool)
      returns (file: Bytes, closed: CloseResult, found: Option<KV>, ghost blks: seq<Blk>, ghost seps: seq<Bytes>, ghost groups: seq<seq<nat>>)
    requires interval > 0 && |filterName| < GIB && (forall k :: hash(k) < U32)
    requires Ascending(ICmp(), es) && Writable(es, blockSize, bitsPerKey) && |key| >= 8
    ensures closed.Panicked? <==> es == []
    ensures closed.TooLarge? ==> !Modest(es, filtered, bitsPerKey)
    ensures closed.Closed? ==>
              && TableOk(crc, file, interval, blks, seps, closed.indexBH) && AllEntries(blks) == es
              && CutAtSize(interval, blockSize, EsOf(blks), false)
              && (filtered <==> closed.filterBH.Some?)
              && (filtered ==> FilterOk(crc, file, hash, bitsPerKey, groups, blks, closed.filterBH.value))
    ensures closed.Closed? ==>
              var g := Rank(ICmp(), es, key);
              && |seps| == |blks|
              && found == (if g == |es| || (filtered && filterName in known && Denied(hash, bitsPerKey, groups, blks, seps, key)) then None else Some(es[g]))
              && (found.None? && g < |es| ==> UserKey(es[g].key) != UserKey(key))
  {
    hide Writer.Valid, Writer.Entries, BlockBytes, Ascending, ICmp, Rank, TableOk, FilterOk, MetaOk, TotalOrder, UserKey, Modest, CutAtSize, CutOff, Denied;
    var w := new Writer(crc, compress, blockSize, interval, filtered, filterName, bitsPerKey, hash);
    WriteAll(w, es);
    ReadyToClose(w, es, blockSize);
    ghost var bs, cur := EsOf(w.blks), w.dataBlock.entries;
    closed := w.Close();
    file, found, blks, seps, groups := w.file, None, w.blks, w.seps, w.filterBlock.groups;
    if closed.Closed? {
      LastCut(interval, blockSize, bs, cur);
      ICmpIsTotal();
      var indexBH, filterBH := NewReader(crc, file, known, ICmp(), interval, filterName, closed.metaBH, closed.indexBH, closed.filterBH);
      found := Find(crc, file, indexBH, filterBH, hash, key, true, verify, interval, blks, seps, bitsPerKey, groups);
    }
  }

  /** The last block may be smaller than the block size. */
  lemma LastCut(interval: nat, blockSize: nat, bs: seq<seq<KV>>, cur: seq<KV>)
    requires CutAtSize(interval, blockSize, bs, true) && (cur != [] ==> interval > 0 && CutOff(interval, blockSize, cur, false))
    ensures CutAtSize(interval, blockSize, bs + if cur == [] then [] else [cur], false)
  {
    if cur == [] {
      assert bs + [] == bs;
      hide BlockBytes;
    } else {
      hide CutOff, CutAtSize;
      NextCut(interval, blockSize, bs, cur, false);
    }
  }

  lemma ReadyToClose(w: Writer, es: seq<KV>, blockSize: nat)
    requires w.Valid() && w.Entries() == es && w.Small() && |w.file| <= Growth(|es|) && w.blockSize == blockSize
    requires Writable(es, blockSize, w.filterBlock.generator.n)
    ensures w.dataBlock.interval > 0 && w.nEntries == |es| && w.nEntries * w.filterBlock.generator.n <= U32 - 8
    ensures |BlockBytes(w.dataBlock.interval, w.dataBlock.entries)| <= MAX_BLOCK && |w.file| + 8 * MAX_BLOCK + 320 <= MAX_FILE
  {
    w.Parts();
    hide Writer.Valid, Writer.Entries;
    FileRoom(|es|, |w.file|);
    EmptyBlockLen(w.dataBlock.interval);
    hide BlockBytes;
  }
}
