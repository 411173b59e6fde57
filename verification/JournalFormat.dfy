/** The journal's wire format: what bytes a list of records is written as. */
module JournalFormat {
  import opened Keys
  import opened InternalKeys

  const BLOCK_SIZE: nat := 32768
  const HEADER_SIZE: nat := 7

  const FULL: Byte := 1
  const FIRST: Byte := 2
  const MIDDLE: Byte := 3
  const LAST: Byte := 4

  /** The checksum, whatever function it is. */
  type Crc = Bytes -> nat

  function ChunkType(first: bool, last: bool): Byte {
    if last then (if first then FULL else LAST) else if first then FIRST else MIDDLE
  }

  function Header(crc: Crc, t: Byte, payload: Bytes): (h: Bytes)
    ensures |h| == HEADER_SIZE
  {
    PutFixed(crc([t] + payload) % 0x1_0000_0000, 4) + PutFixed(|payload|, 2) + [t]
  }

  function Chunk(crc: Crc, t: Byte, payload: Bytes): (c: Bytes)
    ensures |c| == HEADER_SIZE + |payload|
  {
    Header(crc, t, payload) + payload
  }

  /** One record from offset `o` of a block on: chunks that fill their blocks, but for the last. */
  function RecordBytes(crc: Crc, o: nat, data: Bytes, first: bool): (b: Bytes)
    requires o + HEADER_SIZE <= BLOCK_SIZE
    ensures |b| >= HEADER_SIZE
    decreases |data|, o
  {
    var room := BLOCK_SIZE - HEADER_SIZE - o;
    if |data| <= room then Chunk(crc, ChunkType(first, true), data)
    else Chunk(crc, ChunkType(first, false), data[..room]) + RecordBytes(crc, 0, data[room..], false)
  }

  /** Zeroes up to the next block when no header fits in this one. */
  function Pad(pos: nat): (b: Bytes) {
    var o := pos % BLOCK_SIZE;
    if o + HEADER_SIZE > BLOCK_SIZE then seq(BLOCK_SIZE - o, _ => 0) else []
  }

  /** Where the next chunk goes. */
  function Align(pos: nat): (q: nat)
    ensures q == pos + |Pad(pos)| && q % BLOCK_SIZE + HEADER_SIZE <= BLOCK_SIZE
  {
    var o := pos % BLOCK_SIZE;
    if o + HEADER_SIZE > BLOCK_SIZE then
      assert pos + (BLOCK_SIZE - o) == (pos / BLOCK_SIZE + 1) * BLOCK_SIZE;
      pos + (BLOCK_SIZE - o)
    else pos
  }

  /** All records, one behind the other. */
  function Stream(crc: Crc, recs: seq<Bytes>): Bytes {
    if recs == [] then []
    else
      var s := Stream(crc, recs[..|recs| - 1]);
      s + Pad(|s|) + RecordBytes(crc, Align(|s|) % BLOCK_SIZE, recs[|recs| - 1], true)
  }

  /** Where record `k` ends. */
  function End(crc: Crc, recs: seq<Bytes>, k: nat): nat
    requires k <= |recs|
  {
    |Stream(crc, recs[..k])|
  }

  lemma StreamNext(crc: Crc, recs: seq<Bytes>, k: nat)
    requires k < |recs|
    ensures var s := Stream(crc, recs[..k]);
            Stream(crc, recs[..k + 1]) == s + Pad(|s|) + RecordBytes(crc, Align(|s|) % BLOCK_SIZE, recs[k], true)
  {
    assert recs[..k + 1][..k] == recs[..k];
  }

  lemma {:induction false} StreamPrefix(crc: Crc, recs: seq<Bytes>, k: nat, m: nat)
    requires k <= m <= |recs|
    ensures Stream(crc, recs[..k]) <= Stream(crc, recs[..m])
    decreases m
  {
    hide *;
    if k < m {
      StreamPrefix(crc, recs, k, m - 1);
      StreamNext(crc, recs, m - 1);
    }
  }

  lemma Place(f: Bytes, s0: Bytes, pad: Bytes, b: Bytes, s1: Bytes)
    requires s1 == s0 + pad + b && s1 <= f
    ensures var q := |s0| + |pad|; q + |b| == |s1| <= |f| && f[q..q + |b|] == b
  {
    var q := |s0| + |pad|;
    assert f[..|s1|] == s1;
    assert f[q..|s1|] == s1[q..];
  }

  /** Record `k` lies in the whole stream behind its predecessors. */
  lemma RecordPlace(crc: Crc, recs: seq<Bytes>, k: nat)
    requires k < |recs|
    ensures var f, q := Stream(crc, recs), Align(End(crc, recs, k));
            var b := RecordBytes(crc, q % BLOCK_SIZE, recs[k], true);
            q + |b| == End(crc, recs, k + 1) <= |f| && f[q..q + |b|] == b
  {
    hide Stream, Pad, RecordBytes, Align;
    StreamNext(crc, recs, k);
    StreamPrefix(crc, recs, k + 1, |recs|);
    assert recs[..|recs|] == recs;
    var s0 := Stream(crc, recs[..k]);
    Place(Stream(crc, recs), s0, Pad(|s0|), RecordBytes(crc, Align(|s0|) % BLOCK_SIZE, recs[k], true), Stream(crc, recs[..k + 1]));
  }

  /** How many records lie wholly before position `c`. */
  function Whole(crc: Crc, recs: seq<Bytes>, c: nat): (k: nat)
    ensures k <= |recs| && End(crc, recs, k) <= c && (k < |recs| ==> c < End(crc, recs, k + 1))
  {
    WholeOf(crc, recs, |recs|, c)
  }

  /** As many, among the first `n`. */
  function WholeOf(crc: Crc, recs: seq<Bytes>, n: nat, c: nat): (k: nat)
    requires n <= |recs|
    ensures k <= n && End(crc, recs, k) <= c && (k < n ==> c < End(crc, recs, k + 1))
  {
    NothingEnds(crc, recs);
    if n == 0 || End(crc, recs, n) <= c then n else WholeOf(crc, recs, n - 1, c)
  }

  lemma NothingEnds(crc: Crc, recs: seq<Bytes>)
    ensures End(crc, recs, 0) == 0
  {
    assert recs[..0] == [];
  }
}
