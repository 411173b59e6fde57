/** `journal.Writer`: the bytes it has handed on after any calls are the stream of the format. */
module JournalWriter {
  import opened Keys
  import opened InternalKeys
  import opened JournalFormat

  /** Writing `data` and anything more from offset `o` on is `sent` and then `payload` and the rest from offset `i`. */
  ghost predicate Continues(crc: Crc, o: nat, data: Bytes, sent: Bytes, i: nat, payload: Bytes, first: bool) {
    o + HEADER_SIZE <= BLOCK_SIZE && i + HEADER_SIZE + |payload| <= BLOCK_SIZE
    && forall more: Bytes :: RecordBytes(crc, o, data + more, true) == sent + RecordBytes(crc, i, payload + more, first)
  }

  /** The same, for anything more that is not empty. */
  ghost predicate ContinuesOn(crc: Crc, o: nat, data: Bytes, sent: Bytes, i: nat, payload: Bytes, first: bool) {
    o + HEADER_SIZE <= BLOCK_SIZE && i + HEADER_SIZE + |payload| <= BLOCK_SIZE
    && forall more: Bytes :: more != [] ==> RecordBytes(crc, o, data + more, true) == sent + RecordBytes(crc, i, payload + more, first)
  }

  lemma ContinuesStart(crc: Crc, o: nat)
    requires o + HEADER_SIZE <= BLOCK_SIZE
    ensures Continues(crc, o, [], [], o, [], true)
  {
    hide RecordBytes;
    forall more: Bytes ensures RecordBytes(crc, o, [] + more, true) == [] + RecordBytes(crc, o, [] + more, true) {
    }
  }

  /** A full block is one chunk, and the rest starts the next block. */
  lemma ContinuesNextBlock(crc: Crc, o: nat, data: Bytes, sent: Bytes, i: nat, payload: Bytes, first: bool)
    requires Continues(crc, o, data, sent, i, payload, first) && i + HEADER_SIZE + |payload| == BLOCK_SIZE
    ensures ContinuesOn(crc, o, data, sent + Chunk(crc, ChunkType(first, false), payload), 0, [], false)
  {
    hide Chunk;
    var c := Chunk(crc, ChunkType(first, false), payload);
    forall more: Bytes | more != []
      ensures RecordBytes(crc, o, data + more, true) == (sent + c) + RecordBytes(crc, 0, [] + more, false)
    {
      FullChunk(crc, i, payload, first, more);
      hide RecordBytes;
      assert [] + more == more;
      assert sent + (c + RecordBytes(crc, 0, more, false)) == (sent + c) + RecordBytes(crc, 0, more, false);
    }
  }

  lemma FullChunk(crc: Crc, i: nat, payload: Bytes, first: bool, more: Bytes)
    requires i + HEADER_SIZE + |payload| == BLOCK_SIZE && more != []
    ensures RecordBytes(crc, i, payload + more, first) == Chunk(crc, ChunkType(first, false), payload) + RecordBytes(crc, 0, more, false)
  {
    hide Chunk;
    assert (payload + more)[..|payload|] == payload && (payload + more)[|payload|..] == more;
  }

  /** Buffering more payload. */
  lemma ContinuesCopy(crc: Crc, o: nat, data: Bytes, sent: Bytes, i: nat, payload: Bytes, first: bool, x: Bytes)
    requires ContinuesOn(crc, o, data, sent, i, payload, first) && x != [] && i + HEADER_SIZE + |payload + x| <= BLOCK_SIZE
    ensures Continues(crc, o, data + x, sent, i, payload + x, first)
  {
    hide RecordBytes;
    forall more: Bytes ensures RecordBytes(crc, o, (data + x) + more, true) == sent + RecordBytes(crc, i, (payload + x) + more, first) {
      assert (data + x) + more == data + (x + more) && (payload + x) + more == payload + (x + more);
    }
  }

  lemma ContinuesWeaken(crc: Crc, o: nat, data: Bytes, sent: Bytes, i: nat, payload: Bytes, first: bool)
    requires Continues(crc, o, data, sent, i, payload, first)
    ensures ContinuesOn(crc, o, data, sent, i, payload, first)
  {
    hide RecordBytes;
  }

  /** The last chunk of a record. */
  lemma ContinuesLast(crc: Crc, o: nat, data: Bytes, sent: Bytes, i: nat, payload: Bytes, first: bool)
    requires Continues(crc, o, data, sent, i, payload, first)
    ensures RecordBytes(crc, o, data, true) == sent + Chunk(crc, ChunkType(first, true), payload)
  {
    assert RecordBytes(crc, o, data + [], true) == sent + RecordBytes(crc, i, payload + [], first);
    assert data + [] == data && payload + [] == payload;
  }

  class Writer {
    const crc: Crc
    /** The bytes written to the underlying writer. */
    var w: Bytes
    const buf: array<Byte>
    var i: nat
    var j: nat
    var written: nat
    var first: bool
    var pending: bool

    /** The finished records, and what has been written of the pending one. */
    ghost var done: seq<Bytes>
    ghost var cur: Bytes
    ghost var sent: Bytes

    ghost predicate Bounds()
      reads this
    {
      buf.Length == BLOCK_SIZE && written <= j <= BLOCK_SIZE && written <= |w| && (|w| - written) % BLOCK_SIZE == 0
    }

    /** What is written and buffered, up to buffer index `n`. */
    ghost function Upto(n: nat): Bytes
      reads this, buf
      requires Bounds() && written <= n <= BLOCK_SIZE
    {
      w + buf[written..n]
    }

    ghost predicate Pending()
      reads this, buf
    {
      Bounds() && written <= i && i + HEADER_SIZE <= j
      && var s := Stream(crc, done);
         Upto(i) == s + Pad(|s|) + sent
         && Continues(crc, Align(|s|) % BLOCK_SIZE, cur, sent, i, buf[i + HEADER_SIZE..j], first)
    }

    ghost predicate Valid()
      reads this, buf
    {
      Bounds() && (if pending then Pending() else written == j && w == Stream(crc, done))
    }

    constructor (crc: Crc)
      ensures Valid() && !pending && done == [] && w == [] && this.crc == crc && fresh(buf)
    {
      this.crc := crc;
      w, i, j, written, first, pending := [], 0, 0, 0, false, false;
      buf := new Byte[BLOCK_SIZE](_ => 0);
      done, cur, sent := [], [], [];
    }

    /** `fillHeader`: the header of the chunk `buf[i..j]`. */
    method FillHeader(last: bool)
      requires buf.Length == BLOCK_SIZE && i + HEADER_SIZE <= j <= BLOCK_SIZE
      modifies buf
      ensures buf[..i] == old(buf[..i]) && buf[i + HEADER_SIZE..] == old(buf[i + HEADER_SIZE..])
      ensures buf[i..j] == Chunk(crc, ChunkType(first, last), old(buf[i + HEADER_SIZE..j]))
    {
      hide ChunkType, PutFixed, Over;
      ghost var b0 := buf[..];
      var t := ChunkType(first, last);
      var payload := buf[i + HEADER_SIZE..j];
      StoreBytes(i + 6, [t]);
      ghost var b1 := buf[..];
      TypeStored(b0, b1, i, j, t);
      assert buf[i + 6..j] == b1[i + 6..j];
      var sum, len := PutFixed(crc(buf[i + 6..j]) % 0x1_0000_0000, 4), PutFixed(j - i - HEADER_SIZE, 2);
      StoreBytes(i, sum);
      ghost var b2 := buf[..];
      StoreBytes(i + 4, len);
      ghost var b3 := buf[..];
      HeaderStored(b0, b1, b2, b3, i, j, sum, len, t);
      assert buf[..i] == b3[..i] && buf[i + HEADER_SIZE..] == b3[i + HEADER_SIZE..] && buf[i..j] == b3[i..j];
    }

    /** `binary.LittleEndian.PutUint32` and the like: bytes at a place in the buffer. */
    method StoreBytes(at: nat, x: Bytes)
      requires at + |x| <= buf.Length
      modifies buf
      ensures buf[..] == Over(old(buf[..]), at, x)
    {
      forall k | 0 <= k < |x| { buf[at + k] := x[k]; }
    }

    static ghost function Over(b: Bytes, at: nat, x: Bytes): Bytes
      requires at + |x| <= |b|
    {
      b[..at] + x + b[at + |x|..]
    }

    static lemma OverAt(b: Bytes, at: nat, x: Bytes, k: nat)
      requires at + |x| <= |b| && k < |b|
      ensures |Over(b, at, x)| == |b| && Over(b, at, x)[k] == if at <= k < at + |x| then x[k - at] else b[k]
    {
    }

    static lemma TypeStored(b0: Bytes, b1: Bytes, i: nat, j: nat, t: Byte)
      requires i + HEADER_SIZE <= j <= |b0| && b1 == Over(b0, i + 6, [t])
      ensures |b1| == |b0| && b1[i + 6..j] == [t] + b0[i + HEADER_SIZE..j]
    {
      assert b1[i + 6..j] == [b1[i + 6]] + b1[i + 7..j];
      assert b1[i + 7..] == b0[i + 7..];
      assert b1[i + 7..j] == b1[i + 7..][..j - i - 7];
      assert b0[i + 7..j] == b0[i + 7..][..j - i - 7];
    }

    static lemma HeaderStored(b0: Bytes, b1: Bytes, b2: Bytes, b3: Bytes, i: nat, j: nat, sum: Bytes, len: Bytes, t: Byte)
      requires i + HEADER_SIZE <= j <= |b0| && |sum| == 4 && |len| == 2
      requires b1 == Over(b0, i + 6, [t]) && b2 == Over(b1, i, sum) && b3 == Over(b2, i + 4, len)
      ensures |b3| == |b0| && b3[..i] == b0[..i] && b3[i + HEADER_SIZE..] == b0[i + HEADER_SIZE..]
      ensures b3[i..j] == sum + len + [t] + b0[i + HEADER_SIZE..j]
    {
      assert |b3| == |b2| == |b1| == |b0|;
      hide Over;
      forall k | 0 <= k < |b0|
        ensures b3[k] == if i <= k < i + 4 then sum[k - i] else if i + 4 <= k < i + 6 then len[k - i - 4] else if k == i + 6 then t else b0[k]
      {
        OverAt(b0, i + 6, [t], k);
        OverAt(b1, i, sum, k);
        OverAt(b2, i + 4, len, k);
      }
    }

    /** `writeBlock`: the rest of the block goes out. */
    method WriteBlock()
      requires buf.Length == BLOCK_SIZE && written <= BLOCK_SIZE
      modifies this`w, this`i, this`j, this`written
      ensures w == old(w) + old(buf[written..]) && i == 0 && j == HEADER_SIZE && written == 0
    {
      w := w + buf[written..];
      i, j, written := 0, HEADER_SIZE, 0;
    }

    /** `writePending`, the body of `Flush` and `Close`: everything so far is on the underlying writer. */
    method Flush()
      requires Valid()
      modifies this, buf
      ensures Valid() && !pending && done == if old(pending) then old(done) + [old(cur)] else old(done)
      ensures w == Stream(crc, done)
    {
      hide Stream, Continues, Chunk, RecordBytes;
      if pending {
        Finish();
      }
      w := w + buf[written..j];
      written := j;
    }

    /** Ends the pending record with its last chunk; nothing is written out yet. */
    method Finish()
      requires pending && Pending()
      modifies this`pending, this`done, buf
      ensures Bounds() && !pending && done == old(done) + [cur] && Upto(j) == Stream(crc, done)
    {
      hide Continues, Chunk, RecordBytes, Pad, Stream, Align, ChunkType;
      ghost var s := Stream(crc, done);
      ghost var o := Align(|s|) % BLOCK_SIZE;
      ContinuesLast(crc, o, cur, sent, i, buf[i + HEADER_SIZE..j], first);
      ghost var before := Upto(i);
      FillHeader(true);
      pending := false;
      assert buf[written..i] == buf[..i][written..i];
      assert Upto(j) == before + buf[i..j];
      done := done + [cur];
      StreamSnoc(crc, old(done), cur);
      StreamJoined(s, Pad(|s|), sent, buf[i..j]);
    }

    static lemma StreamSnoc(crc: Crc, recs: seq<Bytes>, data: Bytes)
      ensures var s := Stream(crc, recs); Stream(crc, recs + [data]) == s + Pad(|s|) + RecordBytes(crc, Align(|s|) % BLOCK_SIZE, data, true)
    {
      hide Pad, Align, RecordBytes;
      assert (recs + [data])[..|recs|] == recs;
    }

    static lemma StreamJoined(s: Bytes, pad: Bytes, sent: Bytes, c: Bytes)
      ensures s + pad + sent + c == s + pad + (sent + c)
    {
    }

    /** `Next`: ends the pending record and reserves the header of a new one, in the next block if need be. */
    method Next()
      requires Valid()
      modifies this, buf
      ensures Valid() && pending && cur == [] && done == if old(pending) then old(done) + [old(cur)] else old(done)
    {
      hide Stream, Continues, Chunk, RecordBytes, Pad, Align;
      if pending {
        Finish();
      }
      ghost var s := Stream(crc, done);
      assert Upto(j) == s;
      Offset(|w| - written, j);
      AlignAt(|s|);
      i := j;
      j := j + HEADER_SIZE;
      if j > BLOCK_SIZE {
        SkipRest(s);
      }
      first := true;
      pending := true;
      cur, sent := [], [];
      Reserved(s);
    }

    lemma Reserved(s: Bytes)
      requires Bounds() && first && pending && cur == [] && sent == [] && s == Stream(crc, done)
      requires written <= i && j == i + HEADER_SIZE <= BLOCK_SIZE && i == Align(|s|) % BLOCK_SIZE && Upto(i) == s + Pad(|s|)
      ensures Valid()
    {
      hide Stream, Continues, Pad, Align;
      assert buf[i + HEADER_SIZE..j] == [];
      assert s + Pad(|s|) + [] == s + Pad(|s|);
      ContinuesStart(crc, i);
    }

    /** No room for a header: zeroes, and on to the next block. */
    method SkipRest(ghost s: Bytes)
      requires buf.Length == BLOCK_SIZE && written <= i <= BLOCK_SIZE && written <= |w| && (|w| - written) % BLOCK_SIZE == 0
      requires w + buf[written..i] == s && Pad(|s|) == seq(BLOCK_SIZE - i, _ => 0)
      modifies this`w, this`i, this`j, this`written, buf
      ensures w == s + Pad(|s|) && i == 0 && j == HEADER_SIZE && written == 0 && |w| % BLOCK_SIZE == 0
    {
      hide Pad;
      ghost var head := buf[written..i];
      FillZeroes();
      assert buf[written..] == buf[..i][written..i] + buf[i..];
      assert buf[..i][written..i] == head;
      NextBase(|w|, written);
      WriteBlock();
    }

    /** The rest of a block too short for a header. */
    method FillZeroes()
      requires buf.Length == BLOCK_SIZE && i <= BLOCK_SIZE
      modifies buf
      ensures buf[..i] == old(buf[..i]) && buf[i..] == seq(BLOCK_SIZE - i, _ => 0)
    {
      for k := i to BLOCK_SIZE
        invariant buf[..i] == old(buf[..i]) && forall x :: i <= x < k ==> buf[x] == 0
      {
        buf[k] := 0;
      }
    }

    /** `singleWriter.Write` into the pending record. */
    method Write(data: Bytes)
      requires Valid() && pending
      modifies this, buf
      ensures Valid() && pending && done == old(done) && cur == old(cur) + data
    {
      hide *;
      var p := data;
      ghost var rest: Bytes := [];
      assert data[..0] == [] && old(cur) + [] == old(cur);
      while |p| > 0
        invariant Valid() && pending && done == old(done) && rest + p == data && cur == old(cur) + rest
        decreases |p|
      {
        BoundsOf();
        if j == BLOCK_SIZE {
          FullBlock();
        } else {
          Extendable();
        }
        var n := if |p| < BLOCK_SIZE - j then |p| else BLOCK_SIZE - j;
        CopyIn(p[..n]);
        rest := rest + p[..n];
        p := p[n..];
      }
      assert rest == data;
    }

    lemma BoundsOf()
      requires Valid()
      ensures j <= BLOCK_SIZE && buf.Length == BLOCK_SIZE
    {
    }

    /** Ready to take at least one more byte of payload. */
    ghost predicate Open()
      reads this, buf
    {
      Bounds() && pending && written <= i && i + HEADER_SIZE <= j < BLOCK_SIZE
      && var s := Stream(crc, done);
         Upto(i) == s + Pad(|s|) + sent
         && ContinuesOn(crc, Align(|s|) % BLOCK_SIZE, cur, sent, i, buf[i + HEADER_SIZE..j], first)
    }

    lemma Extendable()
      requires Valid() && pending && j < BLOCK_SIZE
      ensures Open()
    {
      hide Stream, Continues, ContinuesOn, Pad, Align;
      var s := Stream(crc, done);
      ContinuesWeaken(crc, Align(|s|) % BLOCK_SIZE, cur, sent, i, buf[i + HEADER_SIZE..j], first);
    }

    /** A full block is sent off as one chunk. */
    method FullBlock()
      requires Valid() && pending && j == BLOCK_SIZE
      modifies this, buf
      ensures Open() && done == old(done) && cur == old(cur) && pending && j < BLOCK_SIZE
    {
      hide Stream, Continues, ContinuesOn, Chunk, ChunkType, Pad, Align;
      ghost var s := Stream(crc, done);
      ghost var c := Chunk(crc, ChunkType(first, false), buf[i + HEADER_SIZE..j]);
      ContinuesNextBlock(crc, Align(|s|) % BLOCK_SIZE, cur, sent, i, buf[i + HEADER_SIZE..j], first);
      StreamJoined(s, Pad(|s|), sent, c);
      NextBase(|w|, written);
      sent := sent + c;
      SendBlock();
      first := false;
      assert buf[HEADER_SIZE..HEADER_SIZE] == [] && buf[0..0] == [] && w + [] == w;
    }

    /** The chunk that fills the block gets its header, and the block goes out. */
    method SendBlock()
      requires buf.Length == BLOCK_SIZE && written <= i && i + HEADER_SIZE <= j == BLOCK_SIZE
      modifies this`w, this`i, this`j, this`written, buf
      ensures w == old(w + buf[written..i]) + Chunk(crc, ChunkType(first, false), old(buf[i + HEADER_SIZE..j]))
      ensures |w| == |old(w)| + (BLOCK_SIZE - old(written)) && i == 0 && j == HEADER_SIZE && written == 0
    {
      hide Chunk, ChunkType;
      ghost var head := buf[written..i];
      FillHeader(false);
      SplitAt(buf[..], written, i);
      assert buf[..i] == buf[..][..i] && buf[i..j] == buf[..][i..] && buf[written..] == buf[..][written..];
      assert buf[..i][written..i] == head;
      WriteBlock();
    }

    static lemma SplitAt(b: Bytes, k: nat, i: nat)
      requires k <= i <= |b|
      ensures b[k..] == b[..i][k..i] + b[i..]
    {
    }

    lemma NextBase(m: nat, k: nat)
      requires k <= m && k <= BLOCK_SIZE && (m - k) % BLOCK_SIZE == 0
      ensures (m + (BLOCK_SIZE - k)) % BLOCK_SIZE == 0
    {
      assert m + (BLOCK_SIZE - k) == (m - k) + BLOCK_SIZE;
    }

    /** Payload bytes go to the end of the buffer. */
    method CopyIn(x: Bytes)
      requires Open() && x != [] && j + |x| <= BLOCK_SIZE
      modifies this`j, this`cur, buf
      ensures Valid() && pending && cur == old(cur) + x
    {
      hide Stream, Continues, ContinuesOn, Pad, Align;
      ghost var s := Stream(crc, done);
      ghost var payload := buf[i + HEADER_SIZE..j];
      ContinuesCopy(crc, Align(|s|) % BLOCK_SIZE, cur, sent, i, payload, first, x);
      ghost var before := buf[written..i];
      forall k | 0 <= k < |x| { buf[j + k] := x[k]; }
      j := j + |x|;
      cur := cur + x;
      assert buf[i + HEADER_SIZE..j] == payload + x;
      assert buf[written..i] == before;
    }
  }

  lemma Offset(m: nat, j: nat)
    requires m % BLOCK_SIZE == 0 && j <= BLOCK_SIZE
    ensures (m + j) % BLOCK_SIZE == if j == BLOCK_SIZE then 0 else j
  {
  }

  lemma AlignAt(pos: nat)
    ensures var o := pos % BLOCK_SIZE;
            Align(pos) % BLOCK_SIZE == (if o + HEADER_SIZE > BLOCK_SIZE then 0 else o)
            && Pad(pos) == if o + HEADER_SIZE > BLOCK_SIZE then seq(BLOCK_SIZE - o, _ => 0) else []
  {
  }
}