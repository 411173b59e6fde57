/** Blocks in a table file: compression, type byte and checksum behind a block handle. */
module RawBlock {
  import opened Keys
  import opened Varint
  import opened InternalKeys
  import opened JournalFormat
  import SnappyFormat
  import SnappyEncode
  import SnappyDecode

  const BLOCK_TRAILER_LEN: nat := 5
  const NO_COMPRESSION: Byte := 0
  const SNAPPY_COMPRESSION: Byte := 1

  datatype BlockHandle = BlockHandle(offset: nat, length: nat)

  function EncodeHandle(bh: BlockHandle): Bytes {
    PutUvarint(bh.offset) + PutUvarint(bh.length)
  }

  /** `decodeBlockHandle`: the handle at the front and the bytes it takes; `None` where it reports a bad handle. */
  function DecodeHandle(src: Bytes): Option<(BlockHandle, nat)> {
    var offset := Uvarint(src);
    if offset.None? then None
    else
      var length := Uvarint(src[offset.value.1..]);
      if length.None? then None else Some((BlockHandle(offset.value.0, length.value.0), offset.value.1 + length.value.1))
  }

  /** A handle is read back, whatever follows it. */
  lemma HandleRoundTrip(bh: BlockHandle, rest: Bytes)
    requires bh.offset < U64 && bh.length < U64
    ensures DecodeHandle(EncodeHandle(bh) + rest) == Some((bh, |EncodeHandle(bh)|))
  {
    hide PutUvarint, Uvarint;
    var a, b := PutUvarint(bh.offset), PutUvarint(bh.length);
    UvarintRoundTrip(bh.offset, b + rest);
    UvarintRoundTrip(bh.length, rest);
    assert EncodeHandle(bh) + rest == a + (b + rest);
    assert (a + (b + rest))[|a|..] == b + rest;
  }

  /** What `readRawBlock` returns; `None` where it reports an error. */
  function ReadRaw(crc: Crc, file: Bytes, bh: BlockHandle, verify: bool): Option<Bytes> {
    var end := bh.offset + bh.length;
    if end + BLOCK_TRAILER_LEN > |file| then None
    else if verify && Fixed(file[end + 1..end + BLOCK_TRAILER_LEN]) != crc(file[bh.offset..end + 1]) % 0x1_0000_0000 then None
    else if file[end] == NO_COMPRESSION then Some(file[bh.offset..end])
    else if file[end] == SNAPPY_COMPRESSION then SnappyFormat.Block(file[bh.offset..end])
    else None
  }

  /** A block with another checksum than it carries is not returned to a caller that wants it verified, nor is one of an
      unknown type to anybody. */
  lemma BadBlockRefused(crc: Crc, file: Bytes, bh: BlockHandle, verify: bool)
    requires bh.offset + bh.length + 5 <= |file|
    ensures var end := bh.offset + bh.length;
            && (Fixed(file[end + 1..end + 5]) != crc(file[bh.offset..end + 1]) % 0x1_0000_0000 ==> ReadRaw(crc, file, bh, true).None?)
            && (file[end] > 1 ==> ReadRaw(crc, file, bh, verify).None?)
            && (ReadRaw(crc, file, bh, true).Some? ==> ReadRaw(crc, file, bh, false) == ReadRaw(crc, file, bh, true))
  {
    hide Fixed, SnappyFormat.Block;
  }

  method ReadRawBlock(crc: Crc, file: Bytes, bh: BlockHandle, verify: bool) returns (r: Option<Bytes>)
    ensures r == ReadRaw(crc, file, bh, verify)
  {
    hide SnappyFormat.Block, Fixed;
    var end := bh.offset + bh.length;
    if end + BLOCK_TRAILER_LEN > |file| {
      return None;
    }
    if verify {
      var n := end + 1;
      if Fixed(file[n..n + 4]) != crc(file[bh.offset..n]) % 0x1_0000_0000 {
        return None;
      }
    }
    var data := file[bh.offset..end];
    if file[end] == NO_COMPRESSION {
      return Some(data);
    }
    if file[end] == SNAPPY_COMPRESSION {
      var dst := new Byte[0];
      var d := SnappyDecode.Decode(dst, data);
      return match d { case Decoded(out) => Some(out) case Failed(_) => None };
    }
    return None;
  }

  /** `writeBlock` to the end of a file: reading the handle back gives the block. */
  method WriteBlock(crc: Crc, file: Bytes, buf: Bytes, compress: bool) returns (file': Bytes, bh: BlockHandle)
    requires buf != [] && SnappyEncode.MaxEncodedLen(|buf|) >= 0
    ensures file <= file' && bh.offset == |file| && |file'| == |file| + bh.length + BLOCK_TRAILER_LEN
    ensures 0 < bh.length <= 2 * |buf| + 32
    ensures forall verify :: ReadRaw(crc, file', bh, verify) == Some(buf)
    ensures var b := file'[|file|..|file| + bh.length]; var t := if compress then 1 else 0;
            file' == file + b + [t] + PutFixed(crc(b + [t]) % 0x1_0000_0000, 4) && if compress then SnappyFormat.Block(b) == Some(buf) else b == buf
  {
    hide SnappyFormat.Block, Fixed, PutFixed;
    var b, t := buf, NO_COMPRESSION;
    if compress {
      var scratch := new Byte[0];
      var c := SnappyEncode.Encode(scratch, buf);
      b, t := c.value, SNAPPY_COMPRESSION;
      NotEmpty(b, buf);
    }
    var sum := PutFixed(crc(b + [t]) % 0x1_0000_0000, 4);
    file' := file + (b + [t] + sum);
    bh := BlockHandle(|file|, |b|);
    Stored(crc, file, b, t, sum);
  }

  lemma NotEmpty(b: Bytes, buf: Bytes)
    requires SnappyFormat.Block(b) == Some(buf)
    ensures b != []
  {
  }

  lemma Stored(crc: Crc, file: Bytes, b: Bytes, t: Byte, sum: Bytes)
    requires sum == PutFixed(crc(b + [t]) % 0x1_0000_0000, 4)
    ensures var f, end := file + (b + [t] + sum), |file| + |b|;
            f[|file|..end] == b && f[end] == t && f[|file|..end + 1] == b + [t] && Fixed(f[end + 1..end + BLOCK_TRAILER_LEN]) == crc(b + [t]) % 0x1_0000_0000
  {
    hide PutFixed, Fixed;
    assert Pow256(4) == 0x1_0000_0000;
    FixedRoundTrip(crc(b + [t]) % 0x1_0000_0000, 4);
    var f, end := file + (b + [t] + sum), |file| + |b|;
    assert f[end + 1..end + BLOCK_TRAILER_LEN] == sum;
  }

  /** What is read stays the same while the file grows. */
  lemma ReadRawGrows(crc: Crc, file: Bytes, file': Bytes, bh: BlockHandle, verify: bool)
    requires file <= file' && ReadRaw(crc, file, bh, verify).Some?
    ensures ReadRaw(crc, file', bh, verify) == ReadRaw(crc, file, bh, verify)
  {
    hide SnappyFormat.Block, Fixed;
    var end := bh.offset + bh.length;
    assert file'[bh.offset..end] == file[bh.offset..end];
    assert file'[bh.offset..end + 1] == file[bh.offset..end + 1];
    assert file'[end + 1..end + BLOCK_TRAILER_LEN] == file[end + 1..end + BLOCK_TRAILER_LEN];
  }
}
