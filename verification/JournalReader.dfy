/** `journal.Reader` in non-strict mode: on a stream of the format cut anywhere it returns exactly the whole records. */
module JournalReader {
  import opened Keys
  import opened InternalKeys
  import opened JournalFormat

  datatype ReadError = NoError | Skip | EOF

  /** What looking for a chunk from position `pos` of a stream finds. */
  datatype Outcome =
    | Got(next: nat, payload: Bytes, last: bool)
    | Dropped(next: nat)                           // a corrupted block or an orphan chunk is passed over
    | NoMore                                       // no header fits into the rest

  /** The end of the block of `q`, or of the stream. */
  function BlockEnd(s: Bytes, q: nat): (e: nat)
    requires q <= |s|
    ensures q <= e <= |s|
  {
    var e := q - q % BLOCK_SIZE + BLOCK_SIZE;
    if e <= |s| then e else |s|
  }

  function NextAt(crc: Crc, checksum: bool, s: Bytes, pos: nat, first: bool): (r: Outcome)
    ensures r.Got? || r.Dropped? ==> pos < r.next <= |s|
  {
    var q := Align(pos);
    if q + HEADER_SIZE > |s| then NoMore
    else
      var sum, length, t := Fixed(s[q..q + 4]), Fixed(s[q + 4..q + 6]), s[q + 6];
      var end := BlockEnd(s, q);
      if sum == 0 && length == 0 && t == 0 then Dropped(end)
      else if t < FULL || t > LAST then Dropped(end)
      else if q + HEADER_SIZE + length > end then Dropped(end)
      else if checksum && sum != crc(s[q + 6..q + HEADER_SIZE + length]) % 0x1_0000_0000 then Dropped(end)
      else if first && t != FULL && t != FIRST then Dropped(q + HEADER_SIZE + length)
      else Got(q + HEADER_SIZE + length, s[q + HEADER_SIZE..q + HEADER_SIZE + length], t == FULL || t == LAST)
  }

  /** The first chunk of the next record from `pos` on. */
  function NextStart(crc: Crc, checksum: bool, s: Bytes, pos: nat): (r: Outcome)
    ensures !r.Dropped? && (r.Got? ==> pos < r.next <= |s|)
    decreases |s| - pos
  {
    var o := NextAt(crc, checksum, s, pos, true);
    if o.Dropped? then NextStart(crc, checksum, s, o.next) else o
  }

  /** The rest of a record of which `got` has been read, and where reading stops. */
  function RestOf(crc: Crc, checksum: bool, s: Bytes, pos: nat, last: bool, got: Bytes): (r: (Option<Bytes>, nat))
    ensures pos <= r.1 && (pos <= |s| ==> r.1 <= |s|)
    decreases |s| - pos
  {
    if last then (Some(got), pos)
    else
      var o := NextAt(crc, checksum, s, pos, false);
      if o.Got? then RestOf(crc, checksum, s, o.next, o.last, got + o.payload)
      else (None, if o.Dropped? then o.next else pos)
  }

  /** All records a recovery loop reads from `pos` on; records that break off are passed over. */
  function AllFrom(crc: Crc, checksum: bool, s: Bytes, pos: nat): seq<Bytes>
    decreases |s| - pos
  {
    var start := NextStart(crc, checksum, s, pos);
    if start.Got? then
      var rest := RestOf(crc, checksum, s, start.next, start.last, start.payload);
      var tail := AllFrom(crc, checksum, s, rest.1);
      if rest.0.Some? then [rest.0.value] + tail else tail
    else []
  }

  class Reader {
    const crc: Crc
    const checksum: bool
    /** What the underlying reader still has to give. */
    var r: Bytes
    const buf: array<Byte>
    var i: nat
    var j: nat
    var n: nat
    var last: bool
    var eof: bool

    /** The whole stream and where the buffered block starts in it. */
    ghost const s: Bytes
    ghost var base: nat

    ghost predicate Valid()
      reads this, buf
    {
      buf.Length == BLOCK_SIZE && i <= j <= n <= BLOCK_SIZE && base % BLOCK_SIZE == 0
      && base + n <= |s| && r == s[base + n..] && buf[..n] == s[base..base + n]
      && (n < BLOCK_SIZE ==> r == [] || (n == 0 && base == 0))
    }

    /** The position of the next chunk to look at. */
    ghost function Pos(): nat
      reads this
    {
      base + j
    }

    constructor (crc: Crc, checksum: bool, s: Bytes)
      ensures Valid() && Pos() == 0 && this.crc == crc && this.checksum == checksum && this.s == s && i == j && !eof && fresh(buf)
    {
      this.crc, this.checksum, this.s := crc, checksum, s;
      r, i, j, n, last, eof, base := s, 0, 0, 0, true, false, 0;
      buf := new Byte[BLOCK_SIZE](_ => 0);
    }

    /** `io.ReadFull` into the buffer and the start of a new block. */
    method ReadBlock() returns (got: nat)
      requires Valid() && (n == 0 || n == BLOCK_SIZE)
      modifies this`r, this`i, this`j, this`n, this`base, buf
      ensures got == (if |old(r)| < BLOCK_SIZE then |old(r)| else BLOCK_SIZE)
      ensures got == 0 ==> Valid() && i == old(i) && j == old(j) && n == old(n) && base == old(base) && r == []
      ensures got > 0 ==> Valid() && base == old(base) + old(n) && i == j == 0 && n == got
    {
      got := if |r| < BLOCK_SIZE then |r| else BLOCK_SIZE;
      if got > 0 {
        BehindBuffer(got);
        base := base + n;
        TakeIn(got);
        i, j, n := 0, 0, got;
      }
    }

    /** The next bytes of the underlying reader, in the whole stream. */
    lemma BehindBuffer(got: nat)
      requires Valid() && got <= |r|
      ensures var at := base + n; at + got <= |s| && r[..got] == s[at..at + got] && r[got..] == s[at + got..]
    {
      Remaining();
      hide Valid;
      SplitBehind(s, base + n, got);
    }

    lemma Remaining()
      requires Valid()
      ensures base + n <= |s| && r == s[base + n..]
    {
    }

    static lemma SplitBehind(s: Bytes, at: nat, got: nat)
      requires at + got <= |s|
      ensures s[at..][..got] == s[at..at + got] && s[at..][got..] == s[at + got..]
    {
    }

    method TakeIn(got: nat)
      requires got <= |r| && got <= buf.Length
      modifies this`r, buf
      ensures r == old(r[got..]) && buf[..got] == old(r[..got])
    {
      forall k | 0 <= k < got { buf[k] := r[k]; }
      assert buf[..got] == r[..got];
      r := r[got..];
    }

    /** `nextChunk`: the next chunk's payload is `buf[i..j]`. */
    method NextChunk(first: bool) returns (err: ReadError)
      requires Valid()
      modifies this`r, this`i, this`j, this`n, this`base, this`last, this`eof, buf
      ensures Valid() && Pos() >= old(Pos())
      ensures match NextAt(crc, checksum, s, old(Pos()), first)
              case Got(next, payload, l) => err == NoError && Pos() == next && buf[i..j] == payload && last == l && eof == old(eof)
              case Dropped(next) => err == Skip && Pos() == next && i == j && eof == old(eof)
              case NoMore => (if first then err == EOF && eof else err == Skip && eof == old(eof)) && |s| < Align(Pos()) + HEADER_SIZE
    {
      hide NextAt, Align, BlockEnd, Valid;
      ghost var pos0 := Pos();
      var tries := 0;
      while true
        invariant Valid() && 0 <= tries <= 1 && eof == old(eof)
        invariant tries == 0 ==> Pos() == pos0
        invariant tries == 1 ==> Pos() == Align(pos0) && j == 0 && n > 0
        decreases 1 - tries
      {
        BufferBounds();
        if j + HEADER_SIZE <= n {
          Buffered();
          SameLook(crc, checksum, s, pos0, Pos(), first);
          err := ParseChunk(first);
          return;
        }
        if n < BLOCK_SIZE && n > 0 {
          NotBuffered();
          NothingThere(crc, checksum, s, pos0, Pos(), first);
          err := NoChunk(first);
          return;
        }
        PastBlock();
        var got := ReadBlock();
        if got == 0 {
          Drained();
          NothingThere(crc, checksum, s, pos0, Pos(), first);
          err := NoChunk(first);
          return;
        }
        tries := tries + 1;
      }
    }

    lemma BufferBounds()
      requires Valid()
      ensures i <= j <= n <= buf.Length == BLOCK_SIZE
    {
    }

    /** Nothing is left to read behind the buffer. */
    lemma Drained()
      requires Valid() && r == []
      ensures |s| == base + n
    {
    }

    lemma Buffered()
      requires Valid() && j + HEADER_SIZE <= n
      ensures Align(Pos()) == Pos() && Pos() + HEADER_SIZE <= |s| && BlockEnd(s, Pos()) == base + n
      ensures s[Pos()..Pos() + 4] == buf[j..j + 4] && s[Pos() + 4..Pos() + 6] == buf[j + 4..j + 6] && s[Pos() + 6] == buf[j + 6]
    {
      Window(j, j + 4);
      Window(j + 4, j + 6);
      assert s[base..base + n][j + 6] == buf[..n][j + 6];
      InBlock(base, j);
    }

    /** The buffer is a window on the stream. */
    lemma Window(a: nat, b: nat)
      requires Valid() && a <= b <= n
      ensures s[base + a..base + b] == buf[a..b]
    {
      SubSlice(s, base, n, a, b);
      assert buf[..n][a..b] == buf[a..b];
    }

    /** No header fits: the rest of the block is short. */
    lemma NotBuffered()
      requires Valid() && j + HEADER_SIZE > n && 0 < n < BLOCK_SIZE
      ensures |s| < Align(Pos()) + HEADER_SIZE
    {
    }

    lemma PastBlock()
      requires Valid() && j + HEADER_SIZE > n && (n == 0 || n == BLOCK_SIZE)
      ensures Align(Pos()) == base + n
    {
      if n == BLOCK_SIZE {
        InBlock(base, j);
      }
    }

    /** The header fields of a buffered chunk and the bytes its checksum covers. */
    method ReadHeader(first: bool) returns (sum: nat, length: nat, t: Byte, body: Bytes)
      requires Valid() && j + HEADER_SIZE <= n
      ensures j + HEADER_SIZE + length <= n ==> body == buf[j + 6..j + HEADER_SIZE + length]
      ensures var end := base + n;
              NextAt(crc, checksum, s, Pos(), first) ==
              if sum == 0 && length == 0 && t == 0 then Dropped(end)
              else if t < FULL || t > LAST then Dropped(end)
              else if j + HEADER_SIZE + length > n then Dropped(end)
              else if checksum && sum != crc(body) % 0x1_0000_0000 then Dropped(end)
              else if first && t != FULL && t != FIRST then Dropped(Pos() + HEADER_SIZE + length)
              else Got(Pos() + HEADER_SIZE + length, buf[j + HEADER_SIZE..j + HEADER_SIZE + length], t == FULL || t == LAST)
    {
      hide NextAt, Fixed, Valid, Pos;
      BufferBounds();
      sum, length, t, body := Fixed(buf[j..j + 4]), Fixed(buf[j + 4..j + 6]), buf[j + 6], [];
      if j + HEADER_SIZE + length <= n {
        body := buf[j + 6..j + HEADER_SIZE + length];
      }
      HeaderLook(first, sum, length, t, body);
    }

    lemma HeaderLook(first: bool, sum: nat, length: nat, t: Byte, body: Bytes)
      requires Valid() && j + HEADER_SIZE <= n <= buf.Length
      requires sum == Fixed(buf[j..j + 4]) && length == Fixed(buf[j + 4..j + 6]) && t == buf[j + 6]
      requires j + HEADER_SIZE + length <= n ==> body == buf[j + 6..j + HEADER_SIZE + length]
      ensures var end := base + n;
              NextAt(crc, checksum, s, Pos(), first) ==
              if sum == 0 && length == 0 && t == 0 then Dropped(end)
              else if t < FULL || t > LAST then Dropped(end)
              else if j + HEADER_SIZE + length > n then Dropped(end)
              else if checksum && sum != crc(body) % 0x1_0000_0000 then Dropped(end)
              else if first && t != FULL && t != FIRST then Dropped(Pos() + HEADER_SIZE + length)
              else Got(Pos() + HEADER_SIZE + length, buf[j + HEADER_SIZE..j + HEADER_SIZE + length], t == FULL || t == LAST)
    {
      hide NextAt, Align, BlockEnd, Fixed, Valid;
      Buffered();
      ghost var payload: Bytes := [];
      if j + HEADER_SIZE + length <= n {
        Window(j + 6, j + HEADER_SIZE + length);
        Window(j + HEADER_SIZE, j + HEADER_SIZE + length);
        payload := buf[j + HEADER_SIZE..j + HEADER_SIZE + length];
      }
      Look(crc, checksum, s, Pos(), first, sum, length, t, base + n, body, payload);
    }

    /** The header is in the buffer. */
    method ParseChunk(first: bool) returns (err: ReadError)
      requires Valid() && j + HEADER_SIZE <= n
      modifies this`i, this`j, this`last
      ensures Valid()
      ensures match NextAt(crc, checksum, s, old(Pos()), first)
              case Got(next, payload, l) => err == NoError && Pos() == next && buf[i..j] == payload && last == l
              case Dropped(next) => err == Skip && Pos() == next && i == j
              case NoMore => false
    {
      hide *;
      ghost var q, end := Pos(), base + n;
      var sum, length, t, body := ReadHeader(first);
      if sum == 0 && length == 0 && t == 0 {
        DropBlock();
        return Skip;
      }
      if t < FULL || t > LAST {
        DropBlock();
        return Skip;
      }
      if j + HEADER_SIZE + length > n {
        DropBlock();
        return Skip;
      }
      TakeChunk(length);
      if checksum && sum != crc(body) % 0x1_0000_0000 {
        DropBlock();
        return Skip;
      }
      if first && t != FULL && t != FIRST {
        SkipChunk();
        return Skip;
      }
      SetLast(t == FULL || t == LAST);
      return NoError;
    }

    /** Drop the entire block. */
    method DropBlock()
      requires Valid()
      modifies this`i, this`j
      ensures Valid() && i == j == n && Pos() == base + n
    {
      i, j := n, n;
    }

    method SkipChunk()
      requires Valid()
      modifies this`i
      ensures Valid() && i == j && Pos() == old(Pos())
    {
      i := j;
    }

    method SetLast(l: bool)
      requires Valid()
      modifies this`last
      ensures Valid() && last == l && Pos() == old(Pos())
    {
      last := l;
    }

    method TakeChunk(length: nat)
      requires Valid() && j + HEADER_SIZE + length <= n
      modifies this`i, this`j
      ensures Valid() && i == old(j) + HEADER_SIZE && j == i + length && Pos() == old(Pos()) + HEADER_SIZE + length
    {
      i := j + HEADER_SIZE;
      j := j + HEADER_SIZE + length;
    }

    method NoChunk(first: bool) returns (err: ReadError)
      requires Valid()
      modifies this`eof
      ensures Valid() && if first then err == EOF && eof else err == Skip && eof == old(eof)
    {
      if !first {
        return Skip;
      }
      eof := true;
      return EOF;
    }

    /** `Next`: passes over what is dropped up to the start of the next record. */
    method Next() returns (err: ReadError)
      requires Valid() && !eof
      modifies this`r, this`i, this`j, this`n, this`base, this`last, this`eof, buf
      ensures Valid()
      ensures match NextStart(crc, checksum, s, old(Pos()))
              case Got(next, payload, l) => err == NoError && Pos() == next && buf[i..j] == payload && last == l && !eof
              case _ => err == EOF && eof
    {
      hide NextAt, Align;
      ghost var start := NextStart(crc, checksum, s, Pos());
      i := j;
      while true
        invariant Valid() && !eof && NextStart(crc, checksum, s, Pos()) == start
        decreases |s| - Pos()
      {
        ghost var pos := Pos();
        StartStep(crc, checksum, s, pos);
        err := NextChunk(true);
        if err == NoError {
          return NoError;
        } else if err != Skip {
          return err;
        }
      }
    }

    /** `singleReader.Read` with some buffer: part of the chunk at hand. */
    method TakePiece() returns (piece: Bytes)
      requires Valid() && i < j
      modifies this`i
      ensures Valid() && old(i) < i && piece + buf[i..j] == old(buf[i..j]) && Pos() == old(Pos())
    {
      var k :| 1 <= k <= j - i;
      assert buf[i..i + k] + buf[i + k..j] == buf[i..j];
      piece := buf[i..i + k];
      i := i + k;
    }

    static lemma Regroup(a: Bytes, b: Bytes, c: Bytes)
      ensures a + (b + c) == (a + b) + c
    {
    }

    /** Reading a record to its end, in pieces of any size: `None` where the reader fails with `ErrUnexpectedEOF`. */
    method ReadRecord() returns (data: Option<Bytes>)
      requires Valid() && !eof
      modifies this`r, this`i, this`j, this`n, this`base, this`last, this`eof, buf
      ensures Valid() && !eof && Pos() >= old(Pos())
      ensures var rest := RestOf(crc, checksum, s, old(Pos()), old(last), old(buf[i..j]));
              data == rest.0 && (Pos() == rest.1 || (NextAt(crc, checksum, s, rest.1, true).NoMore? && NextAt(crc, checksum, s, Pos(), true).NoMore?))
    {
      hide NextAt, Align, RestOf, Valid;
      BufferBounds();
      ghost var all := RestOf(crc, checksum, s, Pos(), last, buf[i..j]);
      var got: Bytes := [];
      assert got + buf[i..j] == buf[i..j];
      while true
        invariant Valid() && !eof && i <= j <= buf.Length && RestOf(crc, checksum, s, Pos(), last, got + buf[i..j]) == all && Pos() >= old(Pos())
        decreases |s| - Pos(), j - i
      {
        if i == j {
          assert got + buf[i..j] == got;
          if last {
            RestLast(crc, checksum, s, Pos(), got);
            return Some(got);
          }
          ghost var pos := Pos();
          RestStep(crc, checksum, s, pos, got);
          var err := NextChunk(false);
          BufferBounds();
          if err != NoError {
            Nothing(crc, checksum, s, pos, Pos());
            return None;
          }
        } else {
          var piece := TakePiece();
          BufferBounds();
          Regroup(got, piece, buf[i..j]);
          got := got + piece;
        }
      }
    }

    lemma Inside()
      requires Valid()
      ensures Pos() <= |s|
    {
    }

    /** One turn of a recovery loop: `more` unless the end was reached, `None` for a record that breaks off. */
    method NextRecord() returns (more: bool, data: Option<Bytes>)
      requires Valid() && !eof
      modifies this`r, this`i, this`j, this`n, this`base, this`last, this`eof, buf
      ensures Valid() && (more ==> !eof && Pos() > old(Pos()))
      ensures AllFrom(crc, checksum, s, old(Pos())) ==
              if more then (if data.Some? then [data.value] else []) + AllFrom(crc, checksum, s, Pos()) else []
    {
      hide *;
      ghost var start := NextStart(crc, checksum, s, Pos());
      AllStep(crc, checksum, s, Pos());
      var err := Next();
      if err == EOF {
        return false, None;
      }
      ghost var rest := RestOf(crc, checksum, s, start.next, start.last, start.payload);
      data := ReadRecord();
      NoneLeft(crc, checksum, s, rest.1, Pos());
      return true, data;
    }
  }

  lemma InBlock(base: nat, j: nat)
    requires base % BLOCK_SIZE == 0 && j <= BLOCK_SIZE
    ensures j < BLOCK_SIZE ==> (base + j) % BLOCK_SIZE == j
    ensures (base + BLOCK_SIZE) % BLOCK_SIZE == 0
    ensures Align(base + j) == if j + HEADER_SIZE <= BLOCK_SIZE then base + j else base + BLOCK_SIZE
  {
  }

  /** Looking from a position and from where the next header goes is the same. */
  lemma SameLook(crc: Crc, checksum: bool, s: Bytes, pos: nat, q: nat, first: bool)
    requires q == pos || q == Align(pos)
    ensures Align(q) == Align(pos) && NextAt(crc, checksum, s, q, first) == NextAt(crc, checksum, s, pos, first)
  {
  }

  lemma NothingThere(crc: Crc, checksum: bool, s: Bytes, pos: nat, q: nat, first: bool)
    requires (q == pos || q == Align(pos)) && |s| < Align(q) + HEADER_SIZE
    ensures NextAt(crc, checksum, s, pos, first) == NoMore
  {
    SameLook(crc, checksum, s, pos, q, first);
  }

  lemma SubSlice(s: Bytes, base: nat, n: nat, a: nat, b: nat)
    requires base + n <= |s| && a <= b <= n
    ensures s[base..base + n][a..b] == s[base + a..base + b]
  {
    var x, y := s[base..base + n][a..b], s[base + a..base + b];
    forall t | 0 <= t < b - a ensures x[t] == y[t] {
      assert x[t] == s[base..base + n][a + t] == s[base + (a + t)];
      assert y[t] == s[(base + a) + t];
    }
  }

  /** What a header with these fields amounts to. */
  lemma Look(crc: Crc, checksum: bool, s: Bytes, q: nat, first: bool, sum: nat, length: nat, t: Byte, end: nat, body: Bytes, payload: Bytes)
    requires Align(q) == q && q + HEADER_SIZE <= |s| && end == BlockEnd(s, q)
    requires sum == Fixed(s[q..q + 4]) && length == Fixed(s[q + 4..q + 6]) && t == s[q + 6]
    requires q + HEADER_SIZE + length <= end ==> body == s[q + 6..q + HEADER_SIZE + length] && payload == s[q + HEADER_SIZE..q + HEADER_SIZE + length]
    ensures NextAt(crc, checksum, s, q, first) ==
            if sum == 0 && length == 0 && t == 0 then Dropped(end)
            else if t < FULL || t > LAST then Dropped(end)
            else if q + HEADER_SIZE + length > end then Dropped(end)
            else if checksum && sum != crc(body) % 0x1_0000_0000 then Dropped(end)
            else if first && t != FULL && t != FIRST then Dropped(q + HEADER_SIZE + length)
            else Got(q + HEADER_SIZE + length, payload, t == FULL || t == LAST)
  {
    hide Align, BlockEnd, Fixed;
  }

  lemma StartStep(crc: Crc, checksum: bool, s: Bytes, pos: nat)
    ensures var o := NextAt(crc, checksum, s, pos, true);
            NextStart(crc, checksum, s, pos) == (if o.Dropped? then NextStart(crc, checksum, s, o.next) else o)
            && (o.Dropped? ==> pos < o.next <= |s|)
  {
  }

  lemma RestLast(crc: Crc, checksum: bool, s: Bytes, pos: nat, got: Bytes)
    ensures RestOf(crc, checksum, s, pos, true, got) == (Some(got), pos)
  {
  }

  lemma RestStep(crc: Crc, checksum: bool, s: Bytes, pos: nat, got: Bytes)
    ensures var o := NextAt(crc, checksum, s, pos, false);
            RestOf(crc, checksum, s, pos, false, got) ==
            (if o.Got? then RestOf(crc, checksum, s, o.next, o.last, got + o.payload) else if o.Dropped? then (None, o.next) else (None, pos))
            && (o.Got? ==> pos < o.next <= |s|)
  {
  }

  /** Whether there is a header does not depend on what is looked for. */
  lemma Nothing(crc: Crc, checksum: bool, s: Bytes, pos: nat, q: nat)
    ensures NextAt(crc, checksum, s, pos, false).NoMore? <==> NextAt(crc, checksum, s, pos, true).NoMore?
    ensures |s| < Align(q) + HEADER_SIZE ==> NextAt(crc, checksum, s, q, true).NoMore?
  {
  }

  /** A recovery loop: `Next` until the end, reading each record, passing over those that break off. */
  method ReadAll(crc: Crc, checksum: bool, s: Bytes) returns (out: seq<Bytes>)
    ensures out == AllFrom(crc, checksum, s, 0)
  {
    hide *;
    var rd := new Reader(crc, checksum, s);
    out := [];
    while true
      invariant rd.Valid() && fresh(rd) && fresh(rd.buf) && !rd.eof && rd.s == s && rd.crc == crc && rd.checksum == checksum
      invariant out + AllFrom(crc, checksum, s, rd.Pos()) == AllFrom(crc, checksum, s, 0)
      decreases if rd.Pos() <= |s| then |s| - rd.Pos() else 0
    {
      rd.Inside();
      var more, data := rd.NextRecord();
      if !more {
        return;
      }
      rd.Inside();
      Regrouped(out, if data.Some? then [data.value] else [], AllFrom(crc, checksum, s, rd.Pos()));
      if data.Some? {
        out := out + [data.value];
      }
    }
  }

  lemma Regrouped(a: seq<Bytes>, b: seq<Bytes>, c: seq<Bytes>)
    ensures a + (b + c) == (a + b) + c && a + [] == a
  {
  }

  lemma AllStep(crc: Crc, checksum: bool, s: Bytes, pos: nat)
    ensures var start := NextStart(crc, checksum, s, pos);
            AllFrom(crc, checksum, s, pos) ==
            (if start.Got? then
               var rest := RestOf(crc, checksum, s, start.next, start.last, start.payload);
               (if rest.0.Some? then [rest.0.value] else []) + AllFrom(crc, checksum, s, rest.1)
             else [])
  {
    hide NextStart, RestOf, NextAt;
  }

  /** Once no header is left nothing more is read. */
  lemma NoneLeft(crc: Crc, checksum: bool, s: Bytes, p: nat, q: nat)
    ensures p == q || (NextAt(crc, checksum, s, p, true).NoMore? && NextAt(crc, checksum, s, q, true).NoMore?)
            ==> AllFrom(crc, checksum, s, p) == AllFrom(crc, checksum, s, q)
  {
    hide NextAt;
  }

  // ----- streams of the format, cut anywhere

  /** A chunk of the format at `q` of the uncut stream `f`. */
  ghost predicate ChunkAt(crc: Crc, f: Bytes, q: nat, t: Byte, payload: Bytes) {
    q % BLOCK_SIZE + HEADER_SIZE + |payload| <= BLOCK_SIZE && q + HEADER_SIZE + |payload| <= |f|
    && f[q..q + HEADER_SIZE + |payload|] == Chunk(crc, t, payload) && FULL <= t <= LAST
  }

  lemma HeaderFields(crc: Crc, t: Byte, payload: Bytes)
    requires |payload| < 0x1_0000
    ensures var c := Chunk(crc, t, payload);
            Fixed(c[..4]) == crc([t] + payload) % 0x1_0000_0000 && Fixed(c[4..6]) == |payload| && c[6] == t
            && c[6..] == [t] + payload && c[HEADER_SIZE..] == payload
  {
    hide Fixed, PutFixed, Chunk;
    var sum := crc([t] + payload) % 0x1_0000_0000;
    ChunkIs(crc, t, payload);
    ChunkParts(Chunk(crc, t, payload), PutFixed(sum, 4), PutFixed(|payload|, 2), t, payload);
    Pow256Values();
    FixedRoundTrip(sum, 4);
    FixedRoundTrip(|payload|, 2);
  }

  lemma Pow256Values()
    ensures Pow256(2) == 0x1_0000 && Pow256(4) == 0x1_0000_0000
  {
  }

  lemma ChunkIs(crc: Crc, t: Byte, payload: Bytes)
    ensures Chunk(crc, t, payload) == PutFixed(crc([t] + payload) % 0x1_0000_0000, 4) + PutFixed(|payload|, 2) + [t] + payload
  {
    hide PutFixed;
  }

  lemma ChunkParts(c: Bytes, a: Bytes, b: Bytes, t: Byte, payload: Bytes)
    requires |a| == 4 && |b| == 2 && c == a + b + [t] + payload
    ensures c[..4] == a && c[4..6] == b && c[6] == t && c[6..] == [t] + payload && c[HEADER_SIZE..] == payload
  {
  }

  /** What the reader makes of a chunk of the format when the stream is cut at `|s|`. */
  lemma ChunkSeen(crc: Crc, checksum: bool, f: Bytes, s: Bytes, pos: nat, t: Byte, payload: Bytes, first: bool)
    requires s <= f && ChunkAt(crc, f, Align(pos), t, payload) && (first ==> t == FULL || t == FIRST)
    ensures var q := Align(pos);
            NextAt(crc, checksum, s, pos, first) ==
            if q + HEADER_SIZE + |payload| <= |s| then Got(q + HEADER_SIZE + |payload|, payload, t == FULL || t == LAST)
            else if q + HEADER_SIZE <= |s| then Dropped(|s|)
            else NoMore
  {
    hide NextAt, Fixed, PutFixed, Chunk, BlockEnd, Align;
    var q, c := Align(pos), Chunk(crc, t, payload);
    AlignTwice(pos);
    SameLook(crc, checksum, s, pos, q, first);
    if q + HEADER_SIZE <= |s| {
      HeaderFields(crc, t, payload);
      CutFields(f, s, q, c);
      EndSeen(s, q, HEADER_SIZE + |payload|);
      if q + HEADER_SIZE + |payload| <= |s| {
        Look(crc, checksum, s, q, first, Fixed(c[..4]), |payload|, t, BlockEnd(s, q), c[6..], payload);
      } else {
        Look(crc, checksum, s, q, first, Fixed(c[..4]), |payload|, t, BlockEnd(s, q), [], []);
      }
    } else {
      NothingThere(crc, checksum, s, pos, q, first);
    }
  }

  lemma AlignTwice(pos: nat)
    ensures Align(Align(pos)) == Align(pos)
  {
  }

  lemma EndSeen(s: Bytes, q: nat, len: nat)
    requires q <= |s| && q % BLOCK_SIZE + len <= BLOCK_SIZE
    ensures q + len <= BlockEnd(s, q) <==> q + len <= |s|
    ensures q + len > |s| ==> BlockEnd(s, q) == |s|
  {
  }

  /** The parts of a chunk that the cut leaves. */
  lemma CutFields(f: Bytes, s: Bytes, q: nat, c: Bytes)
    requires s <= f && |c| >= HEADER_SIZE && q + |c| <= |f| && f[q..q + |c|] == c && q + HEADER_SIZE <= |s|
    ensures s[q..q + 4] == c[..4] && s[q + 4..q + 6] == c[4..6] && s[q + 6] == c[6]
    ensures q + |c| <= |s| ==> s[q + 6..q + |c|] == c[6..] && s[q + HEADER_SIZE..q + |c|] == c[HEADER_SIZE..]
  {
    var n := if q + |c| <= |s| then |c| else |s| - q;
    PrefixSlice(f, s, q, n);
    SubSlice(f, q, |c|, 0, n);
    assert s[q..q + n] == c[..n];
    Part(s, q, n, c, 0, 4);
    Part(s, q, n, c, 4, 6);
    Part(s, q, n, c, 6, n);
    Part(s, q, n, c, HEADER_SIZE, n);
    assert s[q..q + n][6] == s[q + 6] && c[..n][6] == c[6];
  }

  lemma PrefixSlice(f: Bytes, s: Bytes, q: nat, n: nat)
    requires s <= f && q + n <= |s|
    ensures s[q..q + n] == f[q..q + n]
  {
  }

  /** Equal starts have equal parts. */
  lemma Part(s: Bytes, q: nat, n: nat, c: Bytes, a: nat, b: nat)
    requires q + n <= |s| && n <= |c| && s[q..q + n] == c[..n] && a <= b <= n
    ensures s[q + a..q + b] == c[a..b]
  {
    SubSlice(s, q, n, a, b);
    SubSlice(c, 0, n, a, b);
    assert c[..n] == c[0..0 + n];
  }

  /** `f` holds the record `data` from `q` on. */
  ghost predicate RecordAt(crc: Crc, f: Bytes, q: nat, data: Bytes, first: bool) {
    q % BLOCK_SIZE + HEADER_SIZE <= BLOCK_SIZE
    && var b := RecordBytes(crc, q % BLOCK_SIZE, data, first);
       q + |b| <= |f| && f[q..q + |b|] == b
  }

  /** The end of a record at `q`. */
  ghost function RecordEnd(crc: Crc, q: nat, data: Bytes, first: bool): nat
    requires q % BLOCK_SIZE + HEADER_SIZE <= BLOCK_SIZE
  {
    q + |RecordBytes(crc, q % BLOCK_SIZE, data, first)|
  }

  function RoomAt(q: nat): int {
    BLOCK_SIZE - HEADER_SIZE - q % BLOCK_SIZE
  }

  /** A record that fits into its block is one chunk. */
  lemma RecordLast(crc: Crc, f: Bytes, q: nat, data: Bytes, first: bool)
    requires RecordAt(crc, f, q, data, first) && |data| <= RoomAt(q)
    ensures ChunkAt(crc, f, q, ChunkType(first, true), data) && RecordEnd(crc, q, data, first) == q + HEADER_SIZE + |data|
  {
    RecordStep(crc, q % BLOCK_SIZE, data, first);
  }

  /** A longer one is a chunk that fills the block and the rest from the next block on. */
  lemma RecordMore(crc: Crc, f: Bytes, q: nat, data: Bytes, first: bool)
    requires RecordAt(crc, f, q, data, first) && |data| > RoomAt(q)
    ensures var room, next := RoomAt(q), q + HEADER_SIZE + RoomAt(q);
            0 <= room && next % BLOCK_SIZE == 0 && Align(next) == next
            && ChunkAt(crc, f, q, ChunkType(first, false), data[..room])
            && RecordAt(crc, f, next, data[room..], false) && RecordEnd(crc, next, data[room..], false) == RecordEnd(crc, q, data, first)
  {
    hide RecordBytes, Chunk, Align;
    var o, room := q % BLOCK_SIZE, RoomAt(q);
    RecordStep(crc, o, data, first);
    NextBlockStart(q, room);
    Halves(f, q, Chunk(crc, ChunkType(first, false), data[..room]), RecordBytes(crc, 0, data[room..], false));
  }

  lemma RecordStep(crc: Crc, o: nat, data: Bytes, first: bool)
    requires o + HEADER_SIZE <= BLOCK_SIZE
    ensures var room := BLOCK_SIZE - HEADER_SIZE - o;
            RecordBytes(crc, o, data, first) ==
            if |data| <= room then Chunk(crc, ChunkType(first, true), data)
            else Chunk(crc, ChunkType(first, false), data[..room]) + RecordBytes(crc, 0, data[room..], false)
  {
  }

  lemma Halves(f: Bytes, q: nat, c: Bytes, b: Bytes)
    requires q + |c + b| <= |f| && f[q..q + |c + b|] == c + b
    ensures f[q..q + |c|] == c && f[q + |c|..q + |c| + |b|] == b
  {
    assert f[q..q + |c|] == f[q..q + |c + b|][..|c|] == c;
    assert f[q + |c|..q + |c| + |b|] == f[q..q + |c + b|][|c|..] == b;
  }

  lemma NextBlockStart(q: nat, room: nat)
    requires q % BLOCK_SIZE + HEADER_SIZE + room == BLOCK_SIZE
    ensures (q + HEADER_SIZE + room) % BLOCK_SIZE == 0 && Align(q + HEADER_SIZE + room) == q + HEADER_SIZE + room
  {
  }

  /** No header fits from `p` on. */
  ghost predicate Over(s: Bytes, p: nat) {
    |s| < Align(p) + HEADER_SIZE
  }

  lemma OverReadsNothing(crc: Crc, checksum: bool, s: Bytes, p: nat)
    requires Over(s, p)
    ensures AllFrom(crc, checksum, s, p) == [] && NextStart(crc, checksum, s, p) == NoMore
  {
  }

  lemma AtEndOver(s: Bytes)
    ensures Over(s, |s|)
  {
  }

  /** The later chunks of a record: all of it, or nothing and nothing after it. */
  lemma {:induction false} RestReads(crc: Crc, checksum: bool, f: Bytes, s: Bytes, q: nat, data: Bytes, got: Bytes)
    requires s <= f && Align(q) == q && RecordAt(crc, f, q, data, false)
    ensures var e, rest := RecordEnd(crc, q, data, false), RestOf(crc, checksum, s, q, false, got);
            if e <= |s| then rest == (Some(got + data), e) else rest.0.None? && Over(s, rest.1)
    decreases |data|, q % BLOCK_SIZE
  {
    hide NextAt, RestOf, Align, RecordAt, RecordEnd, ChunkAt;
    RestStep(crc, checksum, s, q, got);
    AtEndOver(s);
    var room := RoomAt(q);
    if |data| <= room {
      RecordLast(crc, f, q, data, false);
      ChunkSeen(crc, checksum, f, s, q, LAST, data, false);
      RestDone(crc, checksum, s, q + HEADER_SIZE + |data|, got + data);
    } else {
      RecordMore(crc, f, q, data, false);
      var next := q + HEADER_SIZE + room;
      ChunkSeen(crc, checksum, f, s, q, MIDDLE, data[..room], false);
      RecordLonger(crc, next, data[room..], false);
      if next <= |s| {
        RestReads(crc, checksum, f, s, next, data[room..], got + data[..room]);
        assert got + data[..room] + data[room..] == got + data;
      }
    }
  }

  lemma RestDone(crc: Crc, checksum: bool, s: Bytes, pos: nat, got: Bytes)
    ensures RestOf(crc, checksum, s, pos, true, got) == (Some(got), pos)
  {
  }

  lemma RecordLonger(crc: Crc, q: nat, data: Bytes, first: bool)
    requires q % BLOCK_SIZE + HEADER_SIZE <= BLOCK_SIZE
    ensures RecordEnd(crc, q, data, first) >= q + HEADER_SIZE
  {
  }

  /** A record is read whole when the cut leaves it whole; otherwise nothing more is read. */
  lemma RecordReads(crc: Crc, checksum: bool, f: Bytes, s: Bytes, pos: nat, data: Bytes)
    requires s <= f && RecordAt(crc, f, Align(pos), data, true)
    ensures var e := RecordEnd(crc, Align(pos), data, true);
            AllFrom(crc, checksum, s, pos) == if e <= |s| then [data] + AllFrom(crc, checksum, s, e) else []
  {
    hide NextAt, NextStart, RestOf, AllFrom, Align, RecordAt, RecordEnd, ChunkAt, Over, RoomAt;
    var q := Align(pos);
    var room := RoomAt(q);
    if |data| <= room {
      RecordLast(crc, f, q, data, true);
      StartSeen(crc, checksum, f, s, pos, FULL, data);
      RestDone(crc, checksum, s, q + HEADER_SIZE + |data|, data);
    } else {
      RecordMore(crc, f, q, data, true);
      var next := q + HEADER_SIZE + room;
      StartSeen(crc, checksum, f, s, pos, FIRST, data[..room]);
      RecordLonger(crc, next, data[room..], false);
      if next <= |s| {
        RestReads(crc, checksum, f, s, next, data[room..], data[..room]);
        assert data[..room] + data[room..] == data;
        var rest := RestOf(crc, checksum, s, next, false, data[..room]);
        if rest.0.None? { OverReadsNothing(crc, checksum, s, rest.1); }
      }
    }
  }

  /** Where a record starts, reading goes on behind its first chunk, if the cut leaves that whole. */
  lemma StartSeen(crc: Crc, checksum: bool, f: Bytes, s: Bytes, pos: nat, t: Byte, payload: Bytes)
    requires s <= f && ChunkAt(crc, f, Align(pos), t, payload) && (t == FULL || t == FIRST)
    ensures var next := Align(pos) + HEADER_SIZE + |payload|;
            AllFrom(crc, checksum, s, pos) ==
            if next <= |s| then
              var rest := RestOf(crc, checksum, s, next, t == FULL, payload);
              (if rest.0.Some? then [rest.0.value] else []) + AllFrom(crc, checksum, s, rest.1)
            else []
  {
    hide NextAt, NextStart, RestOf, AllFrom, Align, ChunkAt, Over;
    AllStep(crc, checksum, s, pos);
    StartStep(crc, checksum, s, pos);
    ChunkSeen(crc, checksum, f, s, pos, t, payload, true);
    AtEndOver(s);
    OverReadsNothing(crc, checksum, s, |s|);
  }

  lemma {:induction false} EndGrows(crc: Crc, recs: seq<Bytes>, k: nat, m: nat)
    requires k <= m <= |recs|
    ensures End(crc, recs, k) <= End(crc, recs, m)
  {
    StreamPrefix(crc, recs, k, m);
  }

  lemma {:induction false} ReadsFrom(crc: Crc, checksum: bool, recs: seq<Bytes>, c: nat, k: nat)
    requires c <= |Stream(crc, recs)| && k <= Whole(crc, recs, c)
    ensures AllFrom(crc, checksum, Stream(crc, recs)[..c], End(crc, recs, k)) == recs[k..Whole(crc, recs, c)]
    decreases |recs| - k
  {
    hide *;
    var f, s, w, pos := Stream(crc, recs), Stream(crc, recs)[..c], Whole(crc, recs, c), End(crc, recs, k);
    if k == |recs| {
      WholeEnd(crc, recs);
      Behind(s, pos);
      OverReadsNothing(crc, checksum, s, pos);
    } else {
      RecordHere(crc, recs, k);
      assert s <= f;
      RecordReads(crc, checksum, f, s, pos, recs[k]);
      if k < w {
        EndGrows(crc, recs, k + 1, w);
        ReadsFrom(crc, checksum, recs, c, k + 1);
        assert recs[k..w] == [recs[k]] + recs[k + 1..w];
      }
    }
  }

  lemma WholeEnd(crc: Crc, recs: seq<Bytes>)
    ensures End(crc, recs, |recs|) == |Stream(crc, recs)|
  {
    assert recs[..|recs|] == recs;
  }

  lemma RecordHere(crc: Crc, recs: seq<Bytes>, k: nat)
    requires k < |recs|
    ensures var q := Align(End(crc, recs, k));
            RecordAt(crc, Stream(crc, recs), q, recs[k], true) && RecordEnd(crc, q, recs[k], true) == End(crc, recs, k + 1)
  {
    hide Align, Stream, RecordBytes, End, RecordAt, RecordEnd;
    RecordPlace(crc, recs, k);
    var q := Align(End(crc, recs, k));
    MakeRecordAt(crc, Stream(crc, recs), q, recs[k], RecordBytes(crc, q % BLOCK_SIZE, recs[k], true));
  }

  lemma MakeRecordAt(crc: Crc, f: Bytes, q: nat, data: Bytes, b: Bytes)
    requires q % BLOCK_SIZE + HEADER_SIZE <= BLOCK_SIZE && b == RecordBytes(crc, q % BLOCK_SIZE, data, true)
    requires q + |b| <= |f| && f[q..q + |b|] == b
    ensures RecordAt(crc, f, q, data, true) && RecordEnd(crc, q, data, true) == q + |b|
  {
    hide RecordBytes;
  }

  lemma Behind(s: Bytes, pos: nat)
    requires |s| <= pos
    ensures Over(s, pos)
  {
  }

  /** Cut anywhere, a journal gives back exactly the records that lie wholly before the cut, in order. */
  lemma CutJournalReads(crc: Crc, checksum: bool, recs: seq<Bytes>, c: nat)
    requires c <= |Stream(crc, recs)|
    ensures AllFrom(crc, checksum, Stream(crc, recs)[..c], 0) == recs[..Whole(crc, recs, c)]
  {
    assert End(crc, recs, 0) == 0;
    ReadsFrom(crc, checksum, recs, c, 0);
  }

  /** Uncut, it gives back all of them. */
  lemma WholeJournalReads(crc: Crc, checksum: bool, recs: seq<Bytes>)
    ensures AllFrom(crc, checksum, Stream(crc, recs), 0) == recs
  {
    var f := Stream(crc, recs);
    CutJournalReads(crc, checksum, recs, |f|);
    assert f[..|f|] == f && recs[..|recs|] == recs;
    WholeOfAll(crc, recs);
  }

  lemma WholeOfAll(crc: Crc, recs: seq<Bytes>)
    ensures Whole(crc, recs, |Stream(crc, recs)|) == |recs|
  {
    assert recs[..|recs|] == recs;
  }
}
