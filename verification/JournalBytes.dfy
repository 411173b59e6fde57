/** The bytes of a journal by number, and reading that starts in the middle of one. */
module JournalBytes {
  import opened Keys
  import opened InternalKeys
  import opened JournalFormat
  import opened JournalReader

  // ----- where the chunks of a record are

  /** How many chunks a record of `len` bytes takes from `q` on. */
  function ChunkCount(q: nat, len: nat): nat {
    var room := 32761 - q % 32768;
    if len <= room then 1 else 1 + (len - room + 32760) / 32761
  }

  /** Chunk `k` of a record at `q`: the first is at `q`, each other at the start of a block. */
  function ChunkPlace(q: nat, k: nat): nat {
    if k == 0 then q else (q / 32768 + k) * 32768
  }

  /** Where the data of chunk `k` starts. */
  function DataStart(q: nat, k: nat): int {
    if k == 0 then 0 else 32761 - q % 32768 + (k - 1) * 32761
  }

  /** The piece of the record in chunk `k`. */
  function Piece(q: nat, data: Bytes, k: nat): Bytes {
    var a, b := DataStart(q, k), DataStart(q, k + 1);
    if 0 <= a <= b <= |data| then data[a..b] else if 0 <= a <= |data| then data[a..] else []
  }

  /** The type of chunk `k` of `n`, for a record that is still to start or already begun. */
  function TypeNumber(first: bool, k: nat, n: nat): Byte {
    if n == 1 then (if first then 1 else 4) else if k == 0 then (if first then 2 else 3) else if k == n - 1 then 4 else 3
  }

  /** Four bytes, the least first. */
  function Number(a: int, b: int, c: int, d: int): int {
    a + 0x100 * b + 0x1_0000 * c + 0x100_0000 * d
  }

  /** A header and payload at `p`: a checksum, the length, both least byte first, and the type. */
  ghost predicate ChunkBytes(crc: Crc, f: Bytes, p: nat, t: Byte, payload: Bytes) {
    p % 32768 + 7 + |payload| <= 32768 && p + 7 + |payload| <= |f|
    && Number(f[p], f[p + 1], f[p + 2], f[p + 3]) == crc([t] + payload) % 0x1_0000_0000
    && Number(f[p + 4], f[p + 5], 0, 0) == |payload|
    && f[p + 6] == t && f[p + 7..p + 7 + |payload|] == payload
  }

  lemma FixedByNumber(x: nat)
    ensures x < 0x1_0000_0000 ==> var b := PutFixed(x, 4); Number(b[0], b[1], b[2], b[3]) == x
    ensures x < 0x1_0000 ==> var b := PutFixed(x, 2); Number(b[0], b[1], 0, 0) == x
  {
    forall i: nat | i < 4 ensures PutFixed(x, 4)[i] == x / Pow256(i) % 256 && (i < 2 ==> PutFixed(x, 2)[i] == x / Pow256(i) % 256) {
      FixedDigit(x, 4, i);
      if i < 2 {
        FixedDigit(x, 2, i);
      }
    }
    assert Pow256(1) == 0x100 && Pow256(2) == 0x1_0000 && Pow256(3) == 0x100_0000;
    hide PutFixed, Pow256;
    Digits(x);
  }

  lemma Digits(x: nat)
    ensures x < 0x1_0000_0000 ==> Number(x / 1 % 256, x / 0x100 % 256, x / 0x1_0000 % 256, x / 0x100_0000 % 256) == x
    ensures x < 0x1_0000 ==> Number(x / 1 % 256, x / 0x100 % 256, 0, 0) == x
  {
    var a, b, c := x / 0x100, x / 0x1_0000, x / 0x100_0000;
    LastDigit(x);
    LastDigit(a);
    LastDigit(b);
    LastDigit(c);
    assert a / 0x100 == b && b / 0x100 == c;
    assert x < 0x1_0000_0000 ==> c / 0x100 == 0;
    assert x < 0x1_0000 ==> b == 0;
  }

  lemma LastDigit(x: nat)
    ensures x == x % 0x100 + 0x100 * (x / 0x100)
  {
  }

  /** What a chunk of the format is in bytes. */
  lemma ChunkByNumber(crc: Crc, f: Bytes, p: nat, t: Byte, payload: Bytes)
    requires ChunkAt(crc, f, p, t, payload)
    ensures ChunkBytes(crc, f, p, t, payload)
  {
    hide PutFixed, Chunk;
    var sum, len := crc([t] + payload) % 0x1_0000_0000, |payload|;
    var c := Chunk(crc, t, payload);
    ChunkIs(crc, t, payload);
    ChunkParts(c, PutFixed(sum, 4), PutFixed(len, 2), t, payload);
    FixedByNumber(sum);
    FixedByNumber(len);
    var at := f[p..p + |c|];
    assert forall i :: 0 <= i < 7 ==> f[p + i] == at[i];
    assert c[..4] == PutFixed(sum, 4) && c[4..6] == PutFixed(len, 2);
    assert c[0] == c[..4][0] && c[1] == c[..4][1] && c[2] == c[..4][2] && c[3] == c[..4][3] && c[4] == c[4..6][0] && c[5] == c[4..6][1];
    assert f[p + 7..p + 7 + |payload|] == at[7..];
  }

  /** Chunk by chunk, what a record is written as. */
  lemma {:induction false} RecordChunks(crc: Crc, f: Bytes, q: nat, data: Bytes, first: bool, k: nat)
    requires RecordAt(crc, f, q, data, first) && k < ChunkCount(q, |data|)
    ensures ChunkAt(crc, f, ChunkPlace(q, k), TypeNumber(first, k, ChunkCount(q, |data|)), Piece(q, data, k))
    ensures k + 1 == ChunkCount(q, |data|) ==> ChunkPlace(q, k) + 7 + |Piece(q, data, k)| == RecordEnd(crc, q, data, first)
    ensures k + 1 < ChunkCount(q, |data|) ==> ChunkPlace(q, k) + 7 + |Piece(q, data, k)| == ChunkPlace(q, k + 1)
    decreases k
  {
    hide RecordAt, RecordEnd, ChunkAt, ChunkCount, ChunkPlace, Piece, TypeNumber, ChunkType, RoomAt;
    RoomInside(crc, f, q, data, first);
    TypesOf(first, k, ChunkCount(q, |data|));
    if |data| <= RoomAt(q) {
      OneChunk(q, data);
      RecordLast(crc, f, q, data, first);
    } else {
      RecordMore(crc, f, q, data, first);
      var room, next := RoomAt(q), q + HEADER_SIZE + RoomAt(q);
      NextCount(q, |data|);
      if k == 0 {
        FirstPiece(q, data);
      } else {
        RecordChunks(crc, f, next, data[room..], false, k - 1);
        NextPiece(q, data, k);
      }
    }
  }

  /** The types by name, and those of the rest of a record. */
  lemma TypesOf(first: bool, k: nat, n: nat)
    ensures TypeNumber(first, 0, 1) == ChunkType(first, true) && (n > 1 ==> TypeNumber(first, 0, n) == ChunkType(first, false))
    ensures 0 < k < n ==> TypeNumber(first, k, n) == TypeNumber(false, k - 1, n - 1)
  {
  }

  lemma OneChunk(q: nat, data: Bytes)
    requires |data| <= RoomAt(q)
    ensures ChunkCount(q, |data|) == 1 && ChunkPlace(q, 0) == q && Piece(q, data, 0) == data
  {
  }

  lemma FirstPiece(q: nat, data: Bytes)
    requires RoomAt(q) >= 0 && |data| > RoomAt(q)
    ensures ChunkPlace(q, 0) == q && Piece(q, data, 0) == data[..RoomAt(q)] && ChunkPlace(q, 1) == q + HEADER_SIZE + RoomAt(q)
  {
    BlockNumber(q);
  }

  lemma BlockNumber(q: nat)
    ensures q == q / 32768 * 32768 + q % 32768
  {
  }

  lemma RoomInside(crc: Crc, f: Bytes, q: nat, data: Bytes, first: bool)
    requires RecordAt(crc, f, q, data, first)
    ensures RoomAt(q) == 32761 - q % 32768 >= 0
  {
    hide RecordBytes;
  }

  lemma NextCount(q: nat, len: nat)
    requires RoomAt(q) >= 0 && len > RoomAt(q)
    ensures var next := q + HEADER_SIZE + RoomAt(q);
            next == (q / 32768 + 1) * 32768 && next / 32768 == q / 32768 + 1 && next % 32768 == 0
            && ChunkCount(q, len) == 1 + ChunkCount(next, len - RoomAt(q)) > 1
  {
    BlockNumber(q);
  }

  /** The pieces of the rest are those that follow. */
  lemma NextPiece(q: nat, data: Bytes, k: nat)
    requires RoomAt(q) >= 0 && |data| > RoomAt(q) && k > 0
    ensures var room, next := RoomAt(q), q + HEADER_SIZE + RoomAt(q);
            Piece(q, data, k) == Piece(next, data[room..], k - 1) && ChunkPlace(q, k) == ChunkPlace(next, k - 1)
            && ChunkPlace(q, k + 1) == ChunkPlace(next, k)
  {
    NextCount(q, |data|);
    var room, next := RoomAt(q), q + HEADER_SIZE + RoomAt(q);
    var rest := data[room..];
    assert DataStart(q, k) == room + DataStart(next, k - 1) && DataStart(q, k + 1) == room + DataStart(next, k);
    var a, b := DataStart(next, k - 1), DataStart(next, k);
    if 0 <= a <= b <= |rest| {
      assert data[room + a..room + b] == rest[a..b];
    } else if 0 <= a <= |rest| {
      assert data[room + a..] == rest[a..];
    }
  }

  /** Every chunk of every record of a journal, by number: the one chunk of a record that fits its block has type 1;
      otherwise the first has type 2, the last 4, and those between 3. */
  lemma JournalChunks(crc: Crc, recs: seq<Bytes>, i: nat, k: nat)
    requires i < |recs| && k < ChunkCount(Align(End(crc, recs, i)), |recs[i]|)
    ensures var q := Align(End(crc, recs, i)); var n := ChunkCount(q, |recs[i]|);
            ChunkBytes(crc, Stream(crc, recs), ChunkPlace(q, k), if n == 1 then 1 else if k == 0 then 2 else if k < n - 1 then 3 else 4, Piece(q, recs[i], k))
  {
    hide *;
    var f, q := Stream(crc, recs), Align(End(crc, recs, i));
    RecordHere(crc, recs, i);
    RecordChunks(crc, f, q, recs[i], true, k);
    TypeOfFirst(k, ChunkCount(q, |recs[i]|));
    ChunkByNumber(crc, f, ChunkPlace(q, k), TypeNumber(true, k, ChunkCount(q, |recs[i]|)), Piece(q, recs[i], k));
  }

  lemma TypeOfFirst(k: nat, n: nat)
    requires k < n
    ensures TypeNumber(true, k, n) == if n == 1 then 1 else if k == 0 then 2 else if k < n - 1 then 3 else 4
  {
  }

  /** In front of a record there are fewer than seven zero bytes, and only where no header fits its block any more. */
  lemma Padding(crc: Crc, recs: seq<Bytes>, i: nat, p: nat)
    requires i < |recs| && End(crc, recs, i) <= p < Align(End(crc, recs, i))
    ensures p < |Stream(crc, recs)| && Stream(crc, recs)[p] == 0
    ensures End(crc, recs, i) % 32768 > 32761 && Align(End(crc, recs, i)) - End(crc, recs, i) < 7
  {
    hide RecordBytes;
    var s, f := Stream(crc, recs[..i]), Stream(crc, recs);
    StreamNext(crc, recs, i);
    StreamPrefix(crc, recs, i + 1, |recs|);
    assert recs[..|recs|] == recs;
    assert Stream(crc, recs[..i + 1])[p] == Pad(|s|)[p - |s|];
  }

  // ----- what is taken for a chunk

  /** A header that may be taken: of a known type, with its payload inside the block and, if that is asked for, the right
      checksum. */
  ghost predicate Sound(crc: Crc, checksum: bool, s: Bytes, q: nat)
    requires q + 7 <= |s|
  {
    var len := Number(s[q + 4], s[q + 5], 0, 0);
    1 <= s[q + 6] <= 4 && q % 32768 + 7 + len <= 32768 && q + 7 + len <= |s|
    && (checksum ==> Number(s[q], s[q + 1], s[q + 2], s[q + 3]) == crc(s[q + 6..q + 7 + len]) % 0x1_0000_0000)
  }

  lemma NumberIs(b: Bytes)
    ensures |b| == 4 ==> Fixed(b) == Number(b[0], b[1], b[2], b[3])
    ensures |b| == 2 ==> Fixed(b) == Number(b[0], b[1], 0, 0)
  {
    if |b| == 4 {
      assert Fixed(b) == b[0] + 256 * (b[1] + 256 * (b[2] + 256 * (b[3] + 256 * Fixed(b[1..][1..][1..][1..]))));
    }
    if |b| == 2 {
      assert Fixed(b) == b[0] + 256 * (b[1] + 256 * Fixed(b[1..][1..]));
    }
  }

  /** On any bytes: a chunk is returned exactly when its header is sound, and as the start of a record only when it is of
      type 1 or 2; it is the last of its record when it is of type 1 or 4. */
  lemma TakenIffSound(crc: Crc, checksum: bool, s: Bytes, pos: nat, first: bool)
    ensures var q, o := Align(pos), NextAt(crc, checksum, s, pos, first);
            && (o.NoMore? <==> q + 7 > |s|)
            && (o.Got? <==> q + 7 <= |s| && Sound(crc, checksum, s, q) && (first ==> s[q + 6] == 1 || s[q + 6] == 2))
            && (o.Got? ==> var len := Number(s[q + 4], s[q + 5], 0, 0);
                           o.next == q + 7 + len && o.payload == s[q + 7..q + 7 + len] && (o.last <==> s[q + 6] == 1 || s[q + 6] == 4))
            && (o.Dropped? && Sound(crc, checksum, s, q) ==> first && o.next == q + 7 + Number(s[q + 4], s[q + 5], 0, 0))
            && (o.Dropped? && !Sound(crc, checksum, s, q) ==> o.next == BlockEnd(s, q))
  {
    hide *;
    var q := Align(pos);
    AlignTwice(pos);
    Sevens();
    SameLook(crc, checksum, s, pos, q, first);
    if q + 7 <= |s| {
      TakenAt(crc, checksum, s, q, first);
    } else {
      NothingThere(crc, checksum, s, pos, q, first);
    }
  }

  lemma Sevens()
    ensures HEADER_SIZE == 7 && BLOCK_SIZE == 32768
  {
  }

  lemma TakenAt(crc: Crc, checksum: bool, s: Bytes, q: nat, first: bool)
    requires Align(q) == q && q + 7 <= |s|
    ensures var o := NextAt(crc, checksum, s, q, first);
            && !o.NoMore?
            && (o.Got? <==> Sound(crc, checksum, s, q) && (first ==> s[q + 6] == 1 || s[q + 6] == 2))
            && (o.Got? ==> var len := Number(s[q + 4], s[q + 5], 0, 0);
                           o.next == q + 7 + len && q + 7 + len <= |s| && o.payload == s[q + 7..q + 7 + len] && (o.last <==> s[q + 6] == 1 || s[q + 6] == 4))
            && (o.Dropped? && Sound(crc, checksum, s, q) ==> first && o.next == q + 7 + Number(s[q + 4], s[q + 5], 0, 0))
            && (o.Dropped? && !Sound(crc, checksum, s, q) ==> o.next == BlockEnd(s, q))
  {
    hide Fixed, BlockEnd, Align, NextAt, Number;
    NumberIs(s[q..q + 4]);
    NumberIs(s[q + 4..q + 6]);
    ZeroNumber(s[q + 4], s[q + 5]);
    var length := Number(s[q + 4], s[q + 5], 0, 0);
    InsideEnd(s, q, length);
    Look(crc, checksum, s, q, first, Fixed(s[q..q + 4]), length, s[q + 6], BlockEnd(s, q),
         if q + 7 + length <= |s| then s[q + 6..q + 7 + length] else [], if q + 7 + length <= |s| then s[q + 7..q + 7 + length] else []);
  }

  lemma ZeroNumber(a: Byte, b: Byte)
    ensures Number(a, b, 0, 0) >= 0
  {
  }

  lemma InsideEnd(s: Bytes, q: nat, length: nat)
    requires q <= |s|
    ensures q + 7 + length <= BlockEnd(s, q) <==> q + 7 + length <= |s| && q % 32768 + 7 + length <= 32768
  {
  }

  // ----- reading from the middle of a record

  /** A later chunk of a record is an orphan for a reader that looks for the start of one. */
  lemma OrphanDropped(crc: Crc, checksum: bool, f: Bytes, p: nat, t: Byte, payload: Bytes)
    requires ChunkAt(crc, f, p, t, payload) && (t == MIDDLE || t == LAST)
    ensures NextAt(crc, checksum, f, p, true) == Dropped(p + HEADER_SIZE + |payload|)
  {
    hide NextAt, Fixed, PutFixed, Chunk, BlockEnd, Align;
    var c := Chunk(crc, t, payload);
    Aligned(p);
    HeaderFields(crc, t, payload);
    CutFields(f, f, p, c);
    EndSeen(f, p, HEADER_SIZE + |payload|);
    Look(crc, checksum, f, p, true, Fixed(c[..4]), |payload|, t, BlockEnd(f, p), c[6..], payload);
  }

  lemma Aligned(p: nat)
    requires p % BLOCK_SIZE + HEADER_SIZE <= BLOCK_SIZE
    ensures Align(p) == p
  {
  }

  /** What is dropped is passed over. */
  lemma DroppedThen(crc: Crc, checksum: bool, f: Bytes, p: nat, next: nat)
    requires NextAt(crc, checksum, f, p, true) == Dropped(next)
    ensures AllFrom(crc, checksum, f, p) == AllFrom(crc, checksum, f, next)
  {
    hide NextAt, NextStart, RestOf, AllFrom;
    StartStep(crc, checksum, f, p);
    AllStep(crc, checksum, f, p);
    AllStep(crc, checksum, f, next);
  }

  /** From any chunk of a record but the first, reading goes on behind the record. */
  lemma {:induction false} OrphansPassed(crc: Crc, checksum: bool, f: Bytes, q: nat, data: Bytes, k: nat)
    requires RecordAt(crc, f, q, data, true) && 0 < k < ChunkCount(q, |data|)
    ensures AllFrom(crc, checksum, f, ChunkPlace(q, k)) == AllFrom(crc, checksum, f, RecordEnd(crc, q, data, true))
    decreases ChunkCount(q, |data|) - k
  {
    hide RecordAt, RecordEnd, ChunkAt, AllFrom, NextAt, ChunkPlace, ChunkCount;
    var n, p, piece := ChunkCount(q, |data|), ChunkPlace(q, k), Piece(q, data, k);
    RecordChunks(crc, f, q, data, true, k);
    OrphanDropped(crc, checksum, f, p, TypeNumber(true, k, n), piece);
    DroppedThen(crc, checksum, f, p, p + HEADER_SIZE + |piece|);
    if k + 1 < n {
      OrphansPassed(crc, checksum, f, q, data, k + 1);
    }
  }

  /** Placed at any later chunk of a record, a reader returns no part of that record: it goes on with the next one. */
  lemma LaterChunkStartsNothing(crc: Crc, checksum: bool, recs: seq<Bytes>, i: nat, k: nat)
    requires i < |recs| && 0 < k < ChunkCount(Align(End(crc, recs, i)), |recs[i]|)
    ensures AllFrom(crc, checksum, Stream(crc, recs), ChunkPlace(Align(End(crc, recs, i)), k)) == recs[i + 1..]
  {
    hide *;
    RecordHere(crc, recs, i);
    OrphansPassed(crc, checksum, Stream(crc, recs), Align(End(crc, recs, i)), recs[i], k);
    ReadsOn(crc, checksum, recs, i + 1);
  }

  /** From the end of a record on the later ones are read. */
  lemma ReadsOn(crc: Crc, checksum: bool, recs: seq<Bytes>, k: nat)
    requires k <= |recs|
    ensures AllFrom(crc, checksum, Stream(crc, recs), End(crc, recs, k)) == recs[k..]
  {
    hide AllFrom, Stream, End, Whole;
    var f := Stream(crc, recs);
    WholeOfAll(crc, recs);
    ReadsFrom(crc, checksum, recs, |f|, k);
    assert f[..|f|] == f && recs[k..|recs|] == recs[k..];
  }

  // ----- a damaged block

  /** Two streams of one length that agree from `b` on. */
  ghost predicate SameFrom(s: Bytes, f: Bytes, b: nat) {
    |s| == |f| && b <= |f| && s[b..] == f[b..]
  }

  lemma SameNext(crc: Crc, checksum: bool, s: Bytes, f: Bytes, b: nat, pos: nat, first: bool)
    requires SameFrom(s, f, b) && b <= pos
    ensures NextAt(crc, checksum, s, pos, first) == NextAt(crc, checksum, f, pos, first)
  {
    hide Fixed;
    SameSlices(s, f, b);
  }

  lemma SameSlices(s: Bytes, f: Bytes, b: nat)
    requires SameFrom(s, f, b)
    ensures forall x, y :: b <= x <= y <= |f| ==> s[x..y] == f[x..y]
    ensures forall x :: b <= x < |f| ==> s[x] == f[x]
  {
    forall x | b <= x < |f| ensures s[x] == f[x] {
      assert s[b..][x - b] == f[b..][x - b];
    }
  }

  lemma {:induction false} SameStart(crc: Crc, checksum: bool, s: Bytes, f: Bytes, b: nat, pos: nat)
    requires SameFrom(s, f, b) && b <= pos
    ensures NextStart(crc, checksum, s, pos) == NextStart(crc, checksum, f, pos)
    decreases |f| - pos
  {
    hide NextAt, NextStart;
    SameNext(crc, checksum, s, f, b, pos, true);
    StartStep(crc, checksum, s, pos);
    StartStep(crc, checksum, f, pos);
    var o := NextAt(crc, checksum, f, pos, true);
    if o.Dropped? {
      SameStart(crc, checksum, s, f, b, o.next);
    }
  }

  lemma {:induction false} SameRest(crc: Crc, checksum: bool, s: Bytes, f: Bytes, b: nat, pos: nat, last: bool, got: Bytes)
    requires SameFrom(s, f, b) && b <= pos
    ensures RestOf(crc, checksum, s, pos, last, got) == RestOf(crc, checksum, f, pos, last, got)
    decreases |f| - pos
  {
    hide NextAt, RestOf;
    if last {
      RestLast(crc, checksum, s, pos, got);
      RestLast(crc, checksum, f, pos, got);
    } else {
      SameNext(crc, checksum, s, f, b, pos, false);
      RestStep(crc, checksum, s, pos, got);
      RestStep(crc, checksum, f, pos, got);
      var o := NextAt(crc, checksum, f, pos, false);
      if o.Got? {
        SameRest(crc, checksum, s, f, b, o.next, o.last, got + o.payload);
      }
    }
  }

  lemma {:induction false} SameReading(crc: Crc, checksum: bool, s: Bytes, f: Bytes, b: nat, pos: nat)
    requires SameFrom(s, f, b) && b <= pos
    ensures AllFrom(crc, checksum, s, pos) == AllFrom(crc, checksum, f, pos)
    decreases |f| - pos
  {
    hide NextStart, RestOf, AllFrom;
    SameStart(crc, checksum, s, f, b, pos);
    AllStep(crc, checksum, s, pos);
    AllStep(crc, checksum, f, pos);
    var start := NextStart(crc, checksum, f, pos);
    if start.Got? {
      SameRest(crc, checksum, s, f, b, start.next, start.last, start.payload);
      SameReading(crc, checksum, s, f, b, RestOf(crc, checksum, f, start.next, start.last, start.payload).1);
    }
  }

  /** When the block that a longer record starts in is damaged so that the reader drops it from there on, the rest of the
      record is dropped with it, as orphans, and reading goes on with the next record. */
  lemma DamagedStartLosesOneRecord(crc: Crc, checksum: bool, recs: seq<Bytes>, i: nat, s: Bytes)
    requires i < |recs| && 1 < ChunkCount(Align(End(crc, recs, i)), |recs[i]|)
    requires var q := Align(End(crc, recs, i));
             SameFrom(s, Stream(crc, recs), ChunkPlace(q, 1)) && NextAt(crc, checksum, s, q, true) == Dropped(ChunkPlace(q, 1))
    ensures AllFrom(crc, checksum, s, Align(End(crc, recs, i))) == recs[i + 1..]
  {
    hide *;
    var q := Align(End(crc, recs, i));
    DroppedThen(crc, checksum, s, q, ChunkPlace(q, 1));
    SameReading(crc, checksum, s, Stream(crc, recs), ChunkPlace(q, 1), ChunkPlace(q, 1));
    LaterChunkStartsNothing(crc, checksum, recs, i, 1);
  }
}
