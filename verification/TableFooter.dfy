/** The footer of a table file and its metaindex block. */
module TableFooter {
  import opened Keys
  import opened Varint
  import opened InternalKeys
  import opened MemDb
  import opened JournalFormat
  import opened BlockFormat
  import opened BlockReader
  import opened RawBlock

  const FOOTER_LEN: nat := 48
  const MAGIC: Bytes := [0x57, 0xfb, 0x80, 0x8b, 0x24, 0x75, 0x47, 0xdb]

  /** The last 48 bytes of the file: the handles of the metaindex block and of the index block, zeros, and the magic number. */
  function Footer(metaBH: BlockHandle, indexBH: BlockHandle): (f: Bytes)
    requires |EncodeHandle(metaBH)| + |EncodeHandle(indexBH)| <= FOOTER_LEN - |MAGIC|
    ensures |f| == FOOTER_LEN
  {
    var h := EncodeHandle(metaBH) + EncodeHandle(indexBH);
    h + seq(FOOTER_LEN - |MAGIC| - |h|, _ => 0) + MAGIC
  }

  lemma HandleLen(bh: BlockHandle)
    requires bh.offset < U64 && bh.length < U64
    ensures |EncodeHandle(bh)| <= 20
  {
    UvarintTen(bh.offset);
    UvarintTen(bh.length);
  }

  datatype FooterResult = Footed(metaBH: BlockHandle, indexBH: BlockHandle) | TooSmall | BadMagic | BadMetaHandle | BadIndexHandle

  /** The first half of `NewReader`, on any bytes. */
  function ReadFooter(file: Bytes): FooterResult {
    if |file| < FOOTER_LEN then TooSmall
    else
      var footer := file[|file| - FOOTER_LEN..];
      if footer[FOOTER_LEN - |MAGIC|..] != MAGIC then BadMagic
      else
        var m := DecodeHandle(footer);
        if m.None? then BadMetaHandle
        else
          var i := DecodeHandle(footer[m.value.1..]);
          if i.None? then BadIndexHandle else Footed(m.value.0, i.value.0)
  }

  /** The handles written into a footer are read back, whatever comes before it. */
  lemma FooterRoundTrip(file: Bytes, metaBH: BlockHandle, indexBH: BlockHandle)
    requires metaBH.offset < U64 && metaBH.length < U64 && indexBH.offset < U64 && indexBH.length < U64
    ensures |EncodeHandle(metaBH)| + |EncodeHandle(indexBH)| <= FOOTER_LEN - |MAGIC|
    ensures ReadFooter(file + Footer(metaBH, indexBH)) == Footed(metaBH, indexBH)
  {
    HandleLen(metaBH);
    HandleLen(indexBH);
    hide EncodeHandle, DecodeHandle;
    var f := Footer(metaBH, indexBH);
    assert (file + f)[|file + f| - FOOTER_LEN..] == f;
    var a, b := EncodeHandle(metaBH), EncodeHandle(indexBH);
    var rest := seq(FOOTER_LEN - |MAGIC| - |a + b|, _ => 0) + MAGIC;
    assert f == a + (b + rest);
    assert f[FOOTER_LEN - |MAGIC|..] == MAGIC;
    HandleRoundTrip(metaBH, b + rest);
    HandleRoundTrip(indexBH, rest);
    assert f[|a|..] == b + rest;
  }

  /** "filter." */
  const FILTER_PREFIX: Bytes := [0x66, 0x69, 0x6c, 0x74, 0x65, 0x72, 0x2e]

  /** What the metaindex block holds: the handle of the filter block under the filter's name. */
  function MetaEntries(name: Bytes, filterBH: Option<BlockHandle>): seq<KV> {
    if filterBH.Some? then [KV(FILTER_PREFIX + name, EncodeHandle(filterBH.value))] else []
  }

  /** The file ends in a footer, and its metaindex block can be read. */
  ghost predicate MetaOk(crc: Crc, file: Bytes, interval: nat, name: Bytes, metaBH: BlockHandle, indexBH: BlockHandle, filterBH: Option<BlockHandle>) {
    interval > 0 && |name| < 0x4000_0000 && ReadFooter(file) == Footed(metaBH, indexBH)
    && (filterBH.Some? ==> filterBH.value.offset < U64 && filterBH.value.length < U64)
    && forall verify :: ReadRaw(crc, file, metaBH, verify) == Some(BlockBytes(interval, MetaEntries(name, filterBH)))
  }

  predicate HasPrefix(key: Bytes, prefix: Bytes) {
    |key| >= |prefix| && key[..|prefix|] == prefix
  }

  /** `NewReader` on a written table: `known` names the filter in use and the alternative ones. The index block is found, and
      the filter block exactly when there is one of a known filter. */
  method NewReader(crc: Crc, file: Bytes, known: seq<Bytes>, cmp: Cmp, ghost interval: nat, ghost name: Bytes,
                   ghost metaBH0: BlockHandle, ghost indexBH0: BlockHandle, ghost filterBH0: Option<BlockHandle>)
      returns (indexBH: BlockHandle, filterBH: Option<BlockHandle>)
    requires TotalOrder(cmp) && MetaOk(crc, file, interval, name, metaBH0, indexBH0, filterBH0)
    ensures indexBH == indexBH0 && filterBH == if name in known then filterBH0 else None
  {
    hide ReadRaw, BlockBytes, DecodeHandle, EncodeHandle, TotalOrder;
    var footer := ReadFooter(file);
    indexBH, filterBH := footer.indexBH, None;
    var metaBlock := ReadRawBlock(crc, file, footer.metaBH, true);
    ghost var es := MetaEntries(name, filterBH0);
    MetaSize(interval, name, filterBH0);
    var metaIter := new BlockIter(cmp, metaBlock.value, interval, es);
    while true
      invariant fresh(metaIter) && metaIter.Valid() && metaIter.es == es && metaIter.dir != Eoi
      invariant metaIter.dir == Soi ==> filterBH == None
      invariant metaIter.dir == Forward ==> metaIter.next == 1 == |es| && filterBH == None && name !in known
      invariant metaIter.dir == Soi ==> metaIter.next == 0
      decreases |es| - metaIter.next
    {
      var more := metaIter.Next();
      if !more {
        break;
      }
      HandleRoundTrip(filterBH0.value, []);
      assert EncodeHandle(filterBH0.value) + [] == EncodeHandle(filterBH0.value);
      if !HasPrefix(metaIter.key, FILTER_PREFIX) {
        continue;
      }
      var fn := metaIter.key[|FILTER_PREFIX|..];
      if fn in known {
        var h := DecodeHandle(metaIter.value);
        if h.None? {
          continue;
        }
        filterBH := Some(h.value.0);
        break;
      }
    }
  }

  lemma MetaSize(interval: nat, name: Bytes, filterBH: Option<BlockHandle>)
    requires interval > 0 && |name| < 0x4000_0000 && (filterBH.Some? ==> filterBH.value.offset < U64 && filterBH.value.length < U64)
    ensures var es := MetaEntries(name, filterBH);
            WfEntries(es) && |BlockBytes(interval, es)| < 0x4000_0100
  {
    hide BlockBytes, EncodeHandle;
    EmptyBlockLen(interval);
    if filterBH.Some? {
      HandleLen(filterBH.value);
      var e := KV(FILTER_PREFIX + name, EncodeHandle(filterBH.value));
      BlockGrows(interval, [], e);
      assert [] + [e] == [e];
    }
  }
}
