/** `snappy.Encode`: the hash-table match finder, the element writers and the size bound. */
module SnappyEncode {
  import opened Keys
  import opened Varint
  import opened SnappyFormat

  const MAX_BLOCK_SIZE: nat := 65536
  const INPUT_MARGIN: nat := 15
  const MIN_NON_LITERAL_BLOCK_SIZE: nat := 17
  const MAX_TABLE_SIZE: nat := 16384
  const TOO_LARGE: int := -1

  /** Longest encoded form, or a negative value. */
  function MaxEncodedLen(srcLen: nat): (n: int) {
    if srcLen > 0xffff_ffff then TOO_LARGE
    else if 32 + srcLen + srcLen / 6 > 0xffff_ffff then TOO_LARGE
    else 32 + srcLen + srcLen / 6
  }

  // ----- element writers

  /** `e` encodes the bytes `lit` verbatim. */
  ghost predicate IsLiteral(e: Bytes, lit: Bytes) {
    forall out :: Apply(e, out) == Some(out + lit)
  }

  /** `e` encodes a copy. */
  ghost predicate IsCopy(e: Bytes, offset: nat, length: nat) {
    forall out :: 1 <= offset <= |out| ==> Apply(e, out) == Some(CopyFrom(out, offset, length))
  }

  function LiteralSize(n: nat): (k: nat)
    requires 1 <= n
  {
    n + if n <= 60 then 1 else if n <= 256 then 2 else 3
  }

  function CopySize(offset: nat, length: nat): (k: nat)
    requires 4 <= length
    ensures k < length
  {
    if length >= 68 then 3 + CopySize(offset, length - 64)
    else if length > 64 then 3 + CopySize(offset, length - 60)
    else if length >= 12 || offset >= 2048 then 3
    else 2
  }

  function LiteralHead(n: nat): (h: Bytes)
    requires n < 0x1_0000
  {
    if n < 60 then [n * 4]
    else if n < 0x100 then [240, n]
    else [244, n % 0x100, n / 0x100]
  }

  lemma LiteralChunk(lit: Bytes)
    requires 1 <= |lit| <= MAX_BLOCK_SIZE
    ensures IsLiteral(LiteralHead(|lit| - 1) + lit, lit)
  {
    var h := LiteralHead(|lit| - 1);
    var e := h + lit;
    if |lit| > 60 { Little2(e, 1); }
    assert ParseHead(e) == Literal(|h|, |lit|);
    hide LiteralHead, ParseHead;
    OneLiteral(e, |h|, lit);
  }

  lemma OneLiteral(e: Bytes, h: nat, lit: Bytes)
    requires h <= |e| && e[h..] == lit && e != [] && ParseHead(e) == Literal(h, |lit|)
    ensures IsLiteral(e, lit)
  {
    forall out: Bytes
      ensures Apply(e, out) == Some(out + lit)
    {
      assert e[h..h + |lit|] == lit && e[h + |lit|..] == [];
      assert Consume(e, out) == Some(([], out + lit));
    }
  }

  lemma Little2(e: Bytes, i: nat)
    requires i < |e|
    ensures LittleEndian(e, i, 1) == e[i]
    ensures i + 1 < |e| ==> LittleEndian(e, i, 2) == e[i] + 0x100 * (e[i + 1] as int)
  {
  }

  lemma OneCopy(e: Bytes, offset: nat, length: nat)
    requires e != [] && ParseHead(e) == Copy(|e|, offset, length)
    ensures IsCopy(e, offset, length)
  {
    hide ParseHead;
    forall out: Bytes | 1 <= offset <= |out|
      ensures Apply(e, out) == Some(CopyFrom(out, offset, length))
    {
      assert e[|e|..] == [];
      assert Consume(e, out) == Some(([], CopyFrom(out, offset, length)));
    }
  }

  function Copy2(offset: nat, length: nat): Bytes
    requires 1 <= offset < 0x1_0000 && 1 <= length <= 64
  {
    [(length - 1) * 4 + TAG_COPY2, offset % 0x100, offset / 0x100]
  }

  function Copy1(offset: nat, length: nat): Bytes
    requires 1 <= offset < 2048 && 4 <= length < 12
  {
    [offset / 0x100 * 32 + (length - 4) * 4 + TAG_COPY1, offset % 0x100]
  }

  lemma Copy2Chunk(offset: nat, length: nat)
    requires 1 <= offset < 0x1_0000 && 1 <= length <= 64
    ensures IsCopy(Copy2(offset, length), offset, length)
  {
    hide IsCopy;
    var e := Copy2(offset, length);
    Little2(e, 1);
    assert e[0] / 4 == length - 1 && e[0] % 4 == TAG_COPY2;
    OneCopy(e, offset, length);
  }

  lemma Copy1Chunk(offset: nat, length: nat)
    requires 1 <= offset < 2048 && 4 <= length < 12
    ensures IsCopy(Copy1(offset, length), offset, length)
  {
    hide IsCopy;
    var e := Copy1(offset, length);
    Copy1Tag(offset / 0x100, length - 4);
    assert e[0] == offset / 0x100 * 32 + (length - 4) * 4 + TAG_COPY1 && |e| == 2;
    OneCopy(e, offset, length);
  }

  lemma Copy1Tag(hi: nat, lo: nat)
    requires hi < 8 && lo < 8
    ensures var b := hi * 32 + lo * 4 + 1; b % 4 == 1 && b / 4 == hi * 8 + lo && b / 4 / 8 == hi && b / 4 % 8 == lo
  {
  }

  lemma CopyChain(a: Bytes, b: Bytes, offset: nat, m: nat, n: nat)
    requires 1 <= offset && IsCopy(a, offset, m) && IsCopy(b, offset, n)
    ensures IsCopy(a + b, offset, m + n)
  {
    forall out: Bytes | 1 <= offset <= |out|
      ensures Apply(a + b, out) == Some(CopyFrom(out, offset, m + n))
    {
      ApplyConcat(a, b, out);
      CopySplit(out, offset, m, n);
    }
  }

  lemma NoCopy(offset: nat)
    ensures IsCopy([], offset, 0)
  {
  }

  method EmitLiteral(dst: array<Byte>, d: nat, lit: Bytes) returns (k: nat)
    requires 1 <= |lit| <= MAX_BLOCK_SIZE && d + LiteralSize(|lit|) <= dst.Length
    modifies dst
    ensures k == LiteralSize(|lit|) && dst[..d] == old(dst[..d]) && IsLiteral(dst[d..d + k], lit)
  {
    hide IsLiteral, LiteralHead, LiteralSize;
    HeadSize(|lit|);
    var i := PutHead(dst, d, |lit| - 1);
    ghost var head := dst[..d + i];
    CopyInto(dst, d + i, lit);
    k := i + |lit|;
    Joined(dst[..], head, d, d + i, lit);
    LiteralChunk(lit);
  }

  /** The tag and length bytes of a literal. */
  method PutHead(dst: array<Byte>, d: nat, n: nat) returns (i: nat)
    requires n < MAX_BLOCK_SIZE && d + |LiteralHead(n)| <= dst.Length
    modifies dst
    ensures i == |LiteralHead(n)| && dst[..d] == old(dst[..d]) && dst[..d + i] == old(dst[..d]) + LiteralHead(n)
  {
    if n < 60 {
      dst[d] := n * 4 + TAG_LITERAL;
      i := 1;
    } else if n < 0x100 {
      dst[d] := 60 * 4 + TAG_LITERAL;
      dst[d + 1] := n;
      i := 2;
    } else {
      dst[d] := 61 * 4 + TAG_LITERAL;
      dst[d + 1] := n % 0x100;
      dst[d + 2] := n / 0x100 % 0x100;
      i := 3;
    }
  }

  lemma HeadSize(n: nat)
    requires 1 <= n <= MAX_BLOCK_SIZE
    ensures LiteralSize(n) == n + |LiteralHead(n - 1)|
  {
  }

  /** A header and the bytes behind it. */
  lemma Joined(all: Bytes, head: Bytes, d: nat, m: nat, lit: Bytes)
    requires d <= m == |head| && m + |lit| <= |all| && all[..m] == head && all[m..m + |lit|] == lit
    ensures all[..d] == head[..d] && all[d..m + |lit|] == head[d..] + lit
  {
    assert all[d..m] == head[d..];
    assert all[d..m + |lit|] == all[d..m] + all[m..m + |lit|];
  }

  /** Go's `copy(dst[d:], b)` with enough room. */
  method CopyInto(dst: array<Byte>, d: nat, b: Bytes)
    requires d + |b| <= dst.Length
    modifies dst
    ensures dst[..d] == old(dst[..d]) && dst[d..d + |b|] == b && dst[d + |b|..] == old(dst[d + |b|..])
  {
    forall i | 0 <= i < |b| {
      dst[d + i] := b[i];
    }
  }

  method EmitCopy(dst: array<Byte>, d: nat, offset: nat, len: nat) returns (k: nat)
    requires 1 <= offset <= 65535 && 4 <= len <= 65535 && d + CopySize(offset, len) <= dst.Length
    modifies dst
    ensures k == CopySize(offset, len) && dst[..d] == old(dst[..d]) && IsCopy(dst[d..d + k], offset, len)
  {
    hide *;
    var i, length := EmitLong(dst, d, offset, len);
    SizeStep(offset, length);
    if length > 64 {
      SizeStep(offset, length - 60);
      Put3(dst, d, i, offset, 60, len - length);
      i := i + 3;
      length := length - 60;
    }
    k := EmitRest(dst, d, i, offset, length, len - length);
  }

  /** The chunks of 64 bytes that a long copy starts with. */
  method EmitLong(dst: array<Byte>, d: nat, offset: nat, len: nat) returns (i: nat, length: nat)
    requires 1 <= offset <= 65535 && 4 <= len <= 65535 && d + CopySize(offset, len) <= dst.Length
    modifies dst
    ensures 4 <= length < 68 && length <= len && i + CopySize(offset, length) == CopySize(offset, len)
    ensures dst[..d] == old(dst[..d]) && IsCopy(dst[d..d + i], offset, len - length)
  {
    hide *;
    i, length := 0, len;
    NoCopy(offset);
    assert dst[d..d] == [];
    while length >= 68
      invariant 4 <= length <= len && i + CopySize(offset, length) == CopySize(offset, len)
      invariant dst[..d] == old(dst[..d]) && IsCopy(dst[d..d + i], offset, len - length)
    {
      SizeStep(offset, length);
      Put3(dst, d, i, offset, 64, len - length);
      i := i + 3;
      length := length - 64;
    }
  }

  /** The end of a copy, at most 64 bytes. */
  method EmitRest(dst: array<Byte>, d: nat, i: nat, offset: nat, length: nat, ghost done: nat) returns (k: nat)
    requires 1 <= offset <= 65535 && 4 <= length <= 64 && d + i + CopySize(offset, length) <= dst.Length && IsCopy(dst[d..d + i], offset, done)
    modifies dst
    ensures k == i + CopySize(offset, length) && dst[..d] == old(dst[..d]) && IsCopy(dst[d..d + k], offset, done + length)
  {
    hide IsCopy;
    if length >= 12 || offset >= 2048 {
      Put3(dst, d, i, offset, length, done);
      return i + 3;
    }
    PutShort(dst, d, i, offset, length, done);
    return i + 2;
  }

  lemma SizeStep(offset: nat, length: nat)
    requires 4 <= length
    ensures CopySize(offset, length) ==
            if length >= 68 then 3 + CopySize(offset, length - 64)
            else if length > 64 then 3 + CopySize(offset, length - 60)
            else if length >= 12 || offset >= 2048 then 3 else 2
  {
  }

  /** One two-byte copy at `d + i`, continuing a copy of `done` bytes encoded from `d`. */
  method PutShort(dst: array<Byte>, d: nat, i: nat, offset: nat, length: nat, ghost done: nat)
    requires 1 <= offset < 2048 && 4 <= length < 12 && d + i + 2 <= dst.Length && IsCopy(dst[d..d + i], offset, done)
    modifies dst
    ensures dst[..d] == old(dst[..d]) && IsCopy(dst[d..d + i + 2], offset, done + length)
  {
    hide IsCopy;
    ghost var before := dst[d..d + i];
    dst[d + i] := offset / 0x100 * 32 + (length - 4) * 4 + TAG_COPY1;
    dst[d + i + 1] := offset % 0x100;
    assert dst[d..d + i] == before && dst[d + i..d + i + 2] == Copy1(offset, length);
    assert dst[d..d + i + 2] == dst[d..d + i] + dst[d + i..d + i + 2];
    Copy1Chunk(offset, length);
    CopyChain(before, Copy1(offset, length), offset, done, length);
  }

  /** One three-byte copy at `d + i`, continuing a copy of `done` bytes encoded from `d`. */
  method Put3(dst: array<Byte>, d: nat, i: nat, offset: nat, length: nat, ghost done: nat)
    requires 1 <= offset <= 65535 && 1 <= length <= 64 && d + i + 3 <= dst.Length && IsCopy(dst[d..d + i], offset, done)
    modifies dst
    ensures dst[..d] == old(dst[..d]) && IsCopy(dst[d..d + i + 3], offset, done + length)
  {
    hide IsCopy;
    ghost var before := dst[d..d + i];
    dst[d + i] := (length - 1) * 4 + TAG_COPY2;
    dst[d + i + 1] := offset % 0x100;
    dst[d + i + 2] := offset / 0x100 % 0x100;
    assert dst[d..d + i] == before && dst[d + i..d + i + 3] == Copy2(offset, length);
    assert dst[d..d + i + 3] == dst[d..d + i] + dst[d + i..d + i + 3];
    Copy2Chunk(offset, length);
    CopyChain(before, Copy2(offset, length), offset, done, length);
  }

  // ----- the match finder

  function Load32(b: Bytes, i: nat): (v: nat)
    requires i + 4 <= |b|
    ensures v < 0x1_0000_0000
  {
    b[i] + (b[i + 1] as int) * 0x100 + (b[i + 2] as int) * 0x1_0000 + (b[i + 3] as int) * 0x100_0000
  }

  function Load64(b: Bytes, i: nat): (v: nat)
    requires i + 8 <= |b|
  {
    Load32(b, i) + 0x1_0000_0000 * Load32(b, i + 4)
  }

  lemma Digit(a: int, x: nat, b: int, y: nat)
    requires 0 <= a < 0x100 && 0 <= b < 0x100 && a + 0x100 * x == b + 0x100 * y
    ensures a == b && x == y
  {
  }

  lemma SameWordSameBytes(b: Bytes, i: nat, j: nat)
    requires i + 4 <= |b| && j + 4 <= |b| && Load32(b, i) == Load32(b, j)
    ensures b[i..i + 4] == b[j..j + 4]
  {
    var u: nat, v: nat := b[i + 3], b[j + 3];
    var u2: nat, v2: nat := b[i + 2] + 0x100 * u, b[j + 2] + 0x100 * v;
    var u1: nat, v1: nat := b[i + 1] + 0x100 * u2, b[j + 1] + 0x100 * v2;
    Digit(b[i], u1, b[j], v1);
    Digit(b[i + 1], u2, b[j + 1], v2);
    Digit(b[i + 2], u, b[j + 2], v);
    FourBytes(b, i, j);
  }

  lemma FourBytes(b: Bytes, i: nat, j: nat)
    requires i + 4 <= |b| && j + 4 <= |b|
    requires b[i] == b[j] && b[i + 1] == b[j + 1] && b[i + 2] == b[j + 2] && b[i + 3] == b[j + 3]
    ensures b[i..i + 4] == b[j..j + 4]
  {
  }

  lemma TakeWord1(lo: nat, word: nat, hi: nat)
    requires lo < 0x100 && word < 0x1_0000_0000
    ensures (lo + 0x100 * (word + 0x1_0000_0000 * hi)) / 0x100 % 0x1_0000_0000 == word
  {
    assert (lo + 0x100 * (word + 0x1_0000_0000 * hi)) / 0x100 == word + 0x1_0000_0000 * hi;
  }

  lemma TakeWord2(lo: nat, word: nat, hi: nat)
    requires lo < 0x1_0000 && word < 0x1_0000_0000
    ensures (lo + 0x1_0000 * (word + 0x1_0000_0000 * hi)) / 0x1_0000 % 0x1_0000_0000 == word
  {
    assert (lo + 0x1_0000 * (word + 0x1_0000_0000 * hi)) / 0x1_0000 == word + 0x1_0000_0000 * hi;
  }

  /** The words inside a double word. */
  lemma ShiftedWord(b: Bytes, i: nat)
    requires i + 8 <= |b|
    ensures Load64(b, i) % 0x1_0000_0000 == Load32(b, i)
    ensures Load64(b, i) / 0x100 % 0x1_0000_0000 == Load32(b, i + 1)
    ensures Load64(b, i) / 0x1_0000 % 0x1_0000_0000 == Load32(b, i + 2)
  {
    var w1, w2 := Load32(b, i + 1), Load32(b, i + 2);
    var h1: nat := b[i + 5] + 0x100 * (b[i + 6] as int) + 0x1_0000 * (b[i + 7] as int);
    var h2: nat := b[i + 6] + 0x100 * (b[i + 7] as int);
    assert Load64(b, i) == b[i] + 0x100 * (w1 + 0x1_0000_0000 * h1);
    assert Load64(b, i) == (b[i] + 0x100 * (b[i + 1] as int)) + 0x1_0000 * (w2 + 0x1_0000_0000 * h2);
    hide Load32, Load64;
    TakeWord1(b[i], w1, h1);
    TakeWord2(b[i] + 0x100 * (b[i + 1] as int), w2, h2);
    LowWord(b, i);
  }

  lemma LowWord(b: Bytes, i: nat)
    requires i + 8 <= |b|
    ensures Load64(b, i) % 0x1_0000_0000 == Load32(b, i)
  {
    hide Load32;
  }

  function ShiftRight(u: nat, shift: nat): nat
    decreases shift
  {
    if shift == 0 then u else ShiftRight(u / 2, shift - 1)
  }

  /** Multiplication wraps at 32 bits. */
  function Hash(u: nat, shift: nat): nat {
    ShiftRight(u * 0x1e35a7bd % 0x1_0000_0000, shift)
  }

  /** The slot of a hash, `h & tableMask`. */
  function Slot(h: nat): (i: nat)
    ensures i < MAX_TABLE_SIZE
  {
    h % MAX_TABLE_SIZE
  }

  /** Every candidate in the table lies before `s`. */
  ghost predicate TableBefore(table: array<nat>, s: int)
    reads table
  {
    table.Length == MAX_TABLE_SIZE && forall i :: 0 <= i < table.Length ==> table[i] < s
  }

  function SlotAt(src: Bytes, p: nat, shift: nat): nat
    requires p + 4 <= |src|
  {
    Slot(Hash(Load32(src, p), shift))
  }

  ghost predicate Inside(src: Bytes, ps: seq<nat>) {
    forall k :: 0 <= k < |ps| ==> ps[k] + 4 <= |src|
  }

  /** The last of some positions whose four bytes hash to a slot, or else 0. */
  ghost function LastIn(src: Bytes, ps: seq<nat>, slot: nat, shift: nat): nat
    requires Inside(src, ps)
  {
    if ps == [] then 0
    else if SlotAt(src, ps[|ps| - 1], shift) == slot then ps[|ps| - 1]
    else LastIn(src, ps[..|ps| - 1], slot, shift)
  }

  /** The table has for each slot the last position entered for it. */
  ghost predicate TableIs(table: seq<nat>, src: Bytes, ps: seq<nat>, shift: nat) {
    |table| == MAX_TABLE_SIZE && Inside(src, ps) && forall i :: 0 <= i < |table| ==> table[i] == LastIn(src, ps, i, shift)
  }

  /** The last position entered for the four bytes at `p` has the same four bytes. */
  ghost predicate Repeats(src: Bytes, ps: seq<nat>, p: nat, shift: nat)
    requires p + 4 <= |src| && Inside(src, ps)
  {
    var c := LastIn(src, ps, SlotAt(src, p, shift), shift);
    c + 4 <= |src| && src[c..c + 4] == src[p..p + 4]
  }

  /** Where the `m`-th look is, and how far apart the looks are then: one byte for the first 32, and ever more. */
  function Look(from: nat, m: nat): (r: (nat, nat))
    ensures r.1 >= 32 && r.0 >= from
  {
    if m == 0 then (from, 32)
    else
      var (p, skip) := Look(from, m - 1);
      (p + skip / 32, skip + skip / 32)
  }

  /** The first 32 looks are at every byte. */
  lemma {:induction false} LooksAtEveryByte(from: nat, m: nat)
    requires m <= 32
    ensures Look(from, m) == (from + m, 32 + m)
  {
    if m > 0 {
      LooksAtEveryByte(from, m - 1);
    }
  }

  lemma {:induction false} LooksAscend(from: nat, j: nat, m: nat)
    requires j <= m
    ensures Look(from, j).0 <= Look(from, m).0 && (j < m ==> Look(from, j).0 < Look(from, m).0)
  {
    if j < m {
      LooksAscend(from, j, m - 1);
    }
  }

  /** The places of the first `m` looks. */
  ghost function Looked(from: nat, m: nat): (ps: seq<nat>)
    ensures |ps| == m
  {
    if m == 0 then [] else Looked(from, m - 1) + [Look(from, m - 1).0]
  }

  /** At the `m`-th look, with the earlier ones entered, the four bytes repeat. */
  ghost predicate RepeatsAt(src: Bytes, ps: seq<nat>, from: nat, m: nat, shift: nat) {
    var p, all := Look(from, m).0, ps + Looked(from, m);
    p + 4 <= |src| && Inside(src, all) && Repeats(src, all, p, shift)
  }

  lemma EmptyTable(table: seq<nat>, src: Bytes, shift: nat)
    requires |table| == MAX_TABLE_SIZE && forall i :: 0 <= i < |table| ==> table[i] == 0
    ensures TableIs(table, src, [], shift)
  {
  }

  /** Entering one position. */
  lemma Entered(table: seq<nat>, src: Bytes, ps: seq<nat>, p: nat, shift: nat)
    requires TableIs(table, src, ps, shift) && p + 4 <= |src|
    ensures |table| == MAX_TABLE_SIZE && TableIs(table[SlotAt(src, p, shift) := p], src, ps + [p], shift)
  {
    hide Slot, Hash, Load32;
    var all := ps + [p];
    assert all[..|ps|] == ps;
    LastOfAll(src, ps, p, all, shift);
  }

  lemma LastOfAll(src: Bytes, ps: seq<nat>, p: nat, all: seq<nat>, shift: nat)
    requires Inside(src, ps) && p + 4 <= |src| && all == ps + [p]
    ensures Inside(src, all)
    ensures forall slot :: LastIn(src, all, slot, shift) == if SlotAt(src, p, shift) == slot then p else LastIn(src, ps, slot, shift)
  {
    hide SlotAt;
    assert all[..|ps|] == ps;
  }

  /** Equal words are equal bytes. */
  lemma WordsRepeat(src: Bytes, table: seq<nat>, ps: seq<nat>, p: nat, shift: nat)
    requires TableIs(table, src, ps, shift) && p + 4 <= |src|
    ensures |table| == MAX_TABLE_SIZE && Inside(src, ps)
    ensures var c := table[SlotAt(src, p, shift)]; c + 4 <= |src| ==> (Load32(src, p) == Load32(src, c) <==> Repeats(src, ps, p, shift))
  {
    hide Load32, LastIn, Slot, Hash;
    var c := table[SlotAt(src, p, shift)];
    if c + 4 <= |src| {
      SameWords(src, p, c);
    }
  }

  lemma SameWords(src: Bytes, p: nat, c: nat)
    requires p + 4 <= |src| && c + 4 <= |src|
    ensures Load32(src, p) == Load32(src, c) <==> src[p..p + 4] == src[c..c + 4]
  {
    hide Load32;
    if Load32(src, p) == Load32(src, c) {
      SameWordSameBytes(src, p, c);
    }
    if src[p..p + 4] == src[c..c + 4] {
      SameBytesSameWord(src, p, c);
    }
  }

  lemma SameBytesSameWord(b: Bytes, i: nat, j: nat)
    requires i + 4 <= |b| && j + 4 <= |b| && b[i..i + 4] == b[j..j + 4]
    ensures Load32(b, i) == Load32(b, j)
  {
    var x, y := b[i..i + 4], b[j..j + 4];
    assert x[0] == b[i] && x[1] == b[i + 1] && x[2] == b[i + 2] && x[3] == b[i + 3];
    assert y[0] == b[j] && y[1] == b[j + 1] && y[2] == b[j + 2] && y[3] == b[j + 3];
  }

  /** `e` encodes `src[..n]` after `out`, within the size bound for what ends in a copy. */
  ghost predicate Encodes(e: Bytes, out: Bytes, src: Bytes, n: nat) {
    n <= |src| && Apply(e, out) == Some(out + src[..n]) && 61 * |e| <= 62 * n
  }

  /** Skip search from `from` on, each look being entered in the table: it stops at the first look whose four bytes repeat at
      the last position entered for their slot, or, when there is none, where too little input is left for a further look. */
  method FindMatch(src: Bytes, table: array<nat>, from: nat, fromHash: nat, shift: nat, ghost ps: seq<nat>)
    returns (found: bool, s: nat, candidate: nat, nextHash: nat, ghost m: nat)
    requires 1 <= from && from + INPUT_MARGIN <= |src| <= MAX_BLOCK_SIZE && TableBefore(table, from)
    requires TableIs(table[..], src, ps, shift) && fromHash == Hash(Load32(src, from), shift)
    modifies table
    ensures s == Look(from, m).0 && from <= s && (found <==> Look(from, m + 1).0 + INPUT_MARGIN <= |src|)
    ensures forall j: nat :: j < m ==> !RepeatsAt(src, ps, from, j, shift)
    ensures found ==> s + INPUT_MARGIN < |src| && candidate < s && TableBefore(table, s + 1)
                      && src[candidate..candidate + 4] == src[s..s + 4]
    ensures found ==> RepeatsAt(src, ps, from, m, shift) && Inside(src, ps + Looked(from, m)) && candidate == LastIn(src, ps + Looked(from, m), SlotAt(src, s, shift), shift)
                      && TableIs(table[..], src, ps + Looked(from, m + 1), shift)
  {
    hide Hash, Load32, Look, LastIn, TableIs, RepeatsAt, Slot;
    var sLimit := |src| - INPUT_MARGIN;
    var skip := 32;
    var nextS := from;
    s, candidate, nextHash := from, 0, fromHash;
    m := 0;
    FirstLook(from, ps);
    while true
      invariant from <= nextS <= sLimit && skip >= 32 && TableBefore(table, nextS)
      invariant (nextS, skip) == Look(from, m) && nextHash == Hash(Load32(src, nextS), shift)
      invariant TableIs(table[..], src, ps + Looked(from, m), shift)
      invariant forall j: nat :: j < m ==> !RepeatsAt(src, ps, from, j, shift)
      decreases sLimit - nextS
    {
      s := nextS;
      NextLook(from, m, ps);
      var bytesBetweenHashLookups := skip / 32;
      nextS := s + bytesBetweenHashLookups;
      skip := skip + bytesBetweenHashLookups;
      if nextS > sLimit {
        return false, s, candidate, nextHash, m;
      }
      ghost var before := table[..];
      candidate := table[Slot(nextHash)];
      WordsRepeat(src, before, ps + Looked(from, m), s, shift);
      RepeatIs(src, before, ps, from, m, shift, s);
      Entered(before, src, ps + Looked(from, m), s, shift);
      table[Slot(nextHash)] := s;
      assert table[..] == before[Slot(nextHash) := s];
      nextHash := Hash(Load32(src, nextS), shift);
      if Load32(src, s) == Load32(src, candidate) {
        SameWordSameBytes(src, s, candidate);
        return true, s, candidate, nextHash, m;
      }
      m := m + 1;
    }
  }

  lemma FirstLook(from: nat, ps: seq<nat>)
    ensures Look(from, 0) == (from, 32) && ps + Looked(from, 0) == ps
  {
  }

  lemma NextLook(from: nat, m: nat, ps: seq<nat>)
    ensures var (p, skip) := Look(from, m); Look(from, m + 1) == (p + skip / 32, skip + skip / 32)
    ensures ps + Looked(from, m + 1) == ps + Looked(from, m) + [Look(from, m).0]
  {
    hide Look;
    LookStep(from, m);
  }

  lemma LookStep(from: nat, m: nat)
    ensures var (p, skip) := Look(from, m); Look(from, m + 1) == (p + skip / 32, skip + skip / 32)
  {
  }

  lemma RepeatIs(src: Bytes, table: seq<nat>, ps: seq<nat>, from: nat, m: nat, shift: nat, s: nat)
    requires TableIs(table, src, ps + Looked(from, m), shift) && s == Look(from, m).0 && s + 4 <= |src|
    ensures |table| == MAX_TABLE_SIZE && Inside(src, ps + Looked(from, m))
    ensures table[SlotAt(src, s, shift)] == LastIn(src, ps + Looked(from, m), SlotAt(src, s, shift), shift)
    ensures RepeatsAt(src, ps, from, m, shift) <==> Repeats(src, ps + Looked(from, m), s, shift)
  {
    hide Look, LastIn, Repeats, Hash, Load32, Slot;
  }

  /** The end of the longest repetition: the inlined `extendMatch`. */
  method ExtendMatch(src: Bytes, i0: nat, j0: nat) returns (j: nat)
    requires i0 < j0 <= |src|
    ensures j0 <= j <= |src| && src[i0..i0 + (j - j0)] == src[j0..j]
    ensures j < |src| ==> src[i0 + (j - j0)] != src[j]
  {
    var i := i0;
    j := j0;
    while j < |src| && src[i] == src[j]
      invariant j0 <= j <= |src| && i == i0 + (j - j0) && src[i0..i] == src[j0..j]
    {
      assert src[i0..i + 1] == src[i0..i] + [src[i]] && src[j0..j + 1] == src[j0..j] + [src[j]];
      i, j := i + 1, j + 1;
    }
  }

  lemma CopyKeeps(e: Bytes, c: Bytes, out: Bytes, src: Bytes, base: nat, candidate: nat, n: nat)
    requires base <= |src| && Apply(e, out) == Some(out + src[..base])
    requires candidate < base && base + n <= |src| && src[candidate..candidate + n] == src[base..base + n]
    requires IsCopy(c, base - candidate, n)
    ensures Apply(e + c, out) == Some(out + src[..base + n])
  {
    hide Apply;
    ApplyConcat(e, c, out);
    CopyRepeats(out, src, candidate, base, n);
  }

  lemma LiteralKeeps(e: Bytes, c: Bytes, out: Bytes, src: Bytes, n: nat, s: nat)
    requires n <= s <= |src| && Apply(e, out) == Some(out + src[..n]) && IsLiteral(c, src[n..s])
    ensures Apply(e + c, out) == Some(out + src[..s])
  {
    hide Apply;
    ApplyConcat(e, c, out);
    assert out + src[..n] + src[n..s] == out + src[..s];
  }

  lemma WholeMatch(src: Bytes, candidate: nat, base: nat, s: nat)
    requires candidate < base && base + 4 <= s <= |src|
    requires src[candidate..candidate + 4] == src[base..base + 4]
    requires src[candidate + 4..candidate + 4 + (s - (base + 4))] == src[base + 4..s]
    ensures src[candidate..candidate + (s - base)] == src[base..s]
  {
    var n := s - base;
    assert src[candidate..candidate + n] == src[candidate..candidate + 4] + src[candidate + 4..candidate + n];
    assert src[base..s] == src[base..base + 4] + src[base + 4..s];
  }

  /** The copy of a match as long as possible. */
  method EmitMatch(dst: array<Byte>, d0: nat, d: nat, src: Bytes, base: nat, candidate: nat, ghost out: Bytes) returns (d': nat, s: nat)
    requires d0 <= d <= dst.Length && 61 * (dst.Length - d0) >= 62 * |src|
    requires candidate < base && base + 4 <= |src| <= MAX_BLOCK_SIZE && src[candidate..candidate + 4] == src[base..base + 4]
    requires Apply(dst[d0..d], out) == Some(out + src[..base]) && 61 * (d - d0) <= 62 * base + 61
    modifies dst
    ensures d0 <= d' <= dst.Length && dst[..d0] == old(dst[..d0]) && base + 4 <= s && Encodes(dst[d0..d'], out, src, s)
    ensures src[candidate..candidate + (s - base)] == src[base..s] && (s < |src| ==> src[candidate + (s - base)] != src[s])
    ensures d' == d + CopySize(base - candidate, s - base)
  {
    hide Apply, IsCopy, CopySize;
    s := ExtendMatch(src, candidate + 4, base + 4);
    WholeMatch(src, candidate, base, s);
    ghost var e := dst[d0..d];
    var k := EmitCopy(dst, d, base - candidate, s - base);
    KeepPrefix(dst, d0, d, k, e, old(dst[..d0]));
    CopyKeeps(e, dst[d..d + k], out, src, base, candidate, s - base);
    d' := d + k;
  }

  /** The hash table at `s - 1` and `s` after a copy; `again` exactly when the input at `s` repeats at once. */
  method Rehash(src: Bytes, table: array<nat>, s: nat, shift: nat, ghost ps: seq<nat>) returns (candidate: nat, nextHash: nat, again: bool)
    requires 1 <= s && s + INPUT_MARGIN < |src| && TableBefore(table, s) && TableIs(table[..], src, ps, shift)
    modifies table
    ensures TableBefore(table, s + 1) && candidate < s && TableIs(table[..], src, ps + [s - 1] + [s], shift) && Inside(src, ps + [s - 1])
    ensures again <==> Repeats(src, ps + [s - 1], s, shift)
    ensures again ==> src[candidate..candidate + 4] == src[s..s + 4]
    ensures !again ==> nextHash == Hash(Load32(src, s + 1), shift)
  {
    hide Hash, Load32, Load64, LastIn, TableIs, Repeats, Slot;
    var x := Load64(src, s - 1);
    ShiftedWord(src, s - 1);
    ghost var t0 := table[..];
    Entered(t0, src, ps, s - 1, shift);
    var prevHash := Hash(x % 0x1_0000_0000, shift);
    var before: nat := s - 1;
    table[Slot(prevHash)] := before;
    ghost var t1 := table[..];
    assert t1 == t0[Slot(prevHash) := before];
    var currHash := Hash(x / 0x100 % 0x1_0000_0000, shift);
    candidate := table[Slot(currHash)];
    WordsRepeat(src, t1, ps + [s - 1], s, shift);
    Entered(t1, src, ps + [s - 1], s, shift);
    table[Slot(currHash)] := s;
    assert table[..] == t1[Slot(currHash) := s];
    nextHash := 0;
    if x / 0x100 % 0x1_0000_0000 != Load32(src, candidate) {
      nextHash := Hash(x / 0x1_0000 % 0x1_0000_0000, shift);
      return candidate, nextHash, false;
    }
    SameWordSameBytes(src, s, candidate);
    again := true;
  }

  /** Copies from a four-byte match on, until the input after a copy does not match at once (`more`)
      or too little input is left. All of `src[..s]` is then written. */
  method EmitCopies(dst: array<Byte>, d0: nat, dFrom: nat, src: Bytes, table: array<nat>, from: nat, first: nat, shift: nat, ghost out: Bytes, ghost ps0: seq<nat>)
    returns (d: nat, s: nat, nextHash: nat, more: bool, ghost ps: seq<nat>)
    requires d0 <= dFrom <= dst.Length && 61 * (dst.Length - d0) >= 62 * |src| && (dst as object) != table
    requires 1 <= from && from + INPUT_MARGIN < |src| <= MAX_BLOCK_SIZE && first < from && TableBefore(table, from + 1) && TableIs(table[..], src, ps0, shift)
    requires src[first..first + 4] == src[from..from + 4]
    requires Apply(dst[d0..dFrom], out) == Some(out + src[..from]) && 61 * (dFrom - d0) <= 62 * from + 61
    modifies dst, table
    ensures d0 <= d <= dst.Length && dst[..d0] == old(dst[..d0]) && from < s && Encodes(dst[d0..d], out, src, s)
    ensures more ==> s + INPUT_MARGIN < |src| && TableBefore(table, s + 1) && TableIs(table[..], src, ps, shift) && nextHash == Hash(Load32(src, s + 1), shift)
    ensures more ==> |ps| >= 2 && ps[|ps| - 1] == s && Inside(src, ps[..|ps| - 1]) && !Repeats(src, ps[..|ps| - 1], s, shift)
    ensures OneByte(src) ==> s == |src| && d == dFrom + CopySize(from - first, |src| - from)
  {
    hide Apply, CopySize, TableIs, Hash, Load32, Repeats, OneByte;
    var sLimit := |src| - INPUT_MARGIN;
    var candidate: nat;
    d, s, candidate, nextHash, ps := dFrom, from, first, 0, ps0;
    while true
      invariant TableIs(table[..], src, ps, shift) && (OneByte(src) ==> s == from && d == dFrom && candidate == first)
      invariant d0 <= d <= dst.Length && dst[..d0] == old(dst[..d0]) && from <= s
      invariant s + INPUT_MARGIN < |src| && candidate < s && TableBefore(table, s + 1)
      invariant src[candidate..candidate + 4] == src[s..s + 4]
      invariant Apply(dst[d0..d], out) == Some(out + src[..s]) && 61 * (d - d0) <= 62 * s + 61
      decreases |src| - s
    {
      ghost var base := s;
      d, s := EmitMatch(dst, d0, d, src, s, candidate, out);
      ToTheEnd(src, candidate, base, s);
      if s >= sLimit {
        return d, s, nextHash, false, ps;
      }
      var again;
      candidate, nextHash, again := Rehash(src, table, s, shift, ps);
      ps := ps + [s - 1] + [s];
      assert ps[..|ps| - 1] == ps[..|ps| - 2] + [s - 1];
      if !again {
        return d, s, nextHash, true, ps;
      }
    }
  }

  /** All bytes are the same. */
  ghost predicate OneByte(src: Bytes) {
    forall i, j :: 0 <= i < |src| && 0 <= j < |src| ==> src[i] == src[j]
  }

  lemma ToTheEnd(src: Bytes, candidate: nat, base: nat, s: nat)
    requires candidate < base <= s <= |src| && (s < |src| ==> src[candidate + (s - base)] != src[s])
    ensures OneByte(src) ==> s == |src|
  {
  }

  /** A long copy takes three bytes for each 64. */
  lemma {:induction false} CopySizeBound(offset: nat, length: nat)
    requires 4 <= length
    ensures CopySize(offset, length) <= 3 * ((length + 63) / 64)
    decreases length
  {
    if length >= 68 {
      CopySizeBound(offset, length - 64);
    }
  }

  lemma KeepPrefix(dst: array<Byte>, d0: nat, d: nat, k: nat, e: Bytes, pre: Bytes)
    requires d0 <= d && d + k <= dst.Length && |pre| == d0 && |e| == d - d0 && dst[..d] == pre + e
    ensures dst[..d0] == pre && dst[d0..d + k] == e + dst[d..d + k]
  {
    assert dst[..d0] == dst[..d][..d0];
    assert dst[d0..d] == dst[..d][d0..];
  }

  /** 256 doubled `k` times. */
  function TableSize(k: nat): nat {
    if k == 0 then 0x100 else 2 * TableSize(k - 1)
  }

  /** The shift that leaves a hash as many bits as the smallest table for `n` positions needs. */
  method TableShift(n: nat) returns (shift: nat)
    ensures 18 <= shift <= 24
    ensures shift == 24 || TableSize(23 - shift) < n
    ensures shift == 18 || n <= TableSize(24 - shift)
  {
    assert TableSize(3) == 0x800 && TableSize(6) == MAX_TABLE_SIZE;
    shift := 24;
    var tableSize := 0x100;
    while tableSize < MAX_TABLE_SIZE && tableSize < n
      invariant 18 <= shift <= 24 && tableSize == TableSize(24 - shift) && tableSize >= 0x100
      invariant shift == 24 || TableSize(23 - shift) < n
      decreases MAX_TABLE_SIZE - tableSize
    {
      shift, tableSize := shift - 1, tableSize * 2;
    }
  }

  /** The literal `src[n..s]` behind what encodes `src[..n]`. */
  method WriteLiteral(dst: array<Byte>, d0: nat, d: nat, src: Bytes, n: nat, s: nat, ghost out: Bytes) returns (d': nat)
    requires n < s <= |src| <= MAX_BLOCK_SIZE && d0 <= d <= dst.Length && 61 * (dst.Length - d0) >= 62 * s + 61
    requires Encodes(dst[d0..d], out, src, n)
    modifies dst
    ensures d0 <= d' <= dst.Length && dst[..d0] == old(dst[..d0])
    ensures Apply(dst[d0..d'], out) == Some(out + src[..s]) && 61 * (d' - d0) <= 62 * s + 61
  {
    hide Apply, IsLiteral, LiteralSize;
    LiteralRoom(d - d0, n, s);
    ghost var e := dst[d0..d];
    var k := EmitLiteral(dst, d, src[n..s]);
    KeepPrefix(dst, d0, d, k, e, old(dst[..d0]));
    LiteralKeeps(e, dst[d..d + k], out, src, n, s);
    return d + k;
  }

  /** `encodeBlock` into `dst[d0..]`: what it writes decodes, after any earlier output, to `src`. The room it needs
      is less than the `MaxEncodedLen(len(src))` its documentation asks for. */
  method EncodeBlock(dst: array<Byte>, d0: nat, src: Bytes, ghost out: Bytes) returns (d: nat)
    requires MIN_NON_LITERAL_BLOCK_SIZE <= |src| <= MAX_BLOCK_SIZE
    requires d0 <= dst.Length && 61 * (dst.Length - d0) >= 62 * |src| + 61
    modifies dst
    ensures d0 <= d <= dst.Length && dst[..d0] == old(dst[..d0])
    ensures Apply(dst[d0..d], out) == Some(out + src) && 61 * (d - d0) <= 62 * |src| + 61
    ensures OneByte(src) ==> d - d0 <= 2 + 3 * ((|src| + 62) / 64)
  {
    hide Hash, Load32, Apply, IsLiteral, LiteralSize, TableIs, OneByte, Look, Looked, RepeatsAt, Repeats, CopySize, LastIn, Slot, Inside;
    var shift := TableShift(|src|);
    var table := new nat[MAX_TABLE_SIZE](_ => 0);
    d := d0;
    var nextEmit, s: nat := 0, 1;
    var nextHash := Hash(Load32(src, s), shift);
    NothingYet(dst[d0..d], out, src);
    EmptyTable(table[..], src, shift);
    ghost var ps: seq<nat> := [];
    while true
      invariant d0 <= d <= dst.Length && dst[..d0] == old(dst[..d0]) && Encodes(dst[d0..d], out, src, nextEmit)
      invariant s == nextEmit + 1 && s + INPUT_MARGIN <= |src| && TableBefore(table, s)
      invariant fresh(table) && TableIs(table[..], src, ps, shift) && nextHash == Hash(Load32(src, s), shift)
      invariant OneByte(src) ==> nextEmit == 0 && ps == [] && d == d0
      decreases |src| - nextEmit
    {
      var found, candidate;
      ghost var from, m := s, 0;
      found, s, candidate, nextHash, m := FindMatch(src, table, s, nextHash, shift, ps);
      FoundAtOnce(src, from, m, shift, found, s, candidate, ps);
      if !found {
        break;
      }
      d := WriteLiteral(dst, d0, d, src, nextEmit, s, out);
      var more;
      ps := ps + Looked(from, m + 1);
      d, nextEmit, nextHash, more, ps := EmitCopies(dst, d0, d, src, table, s, candidate, shift, out, ps);
      CopySizeBound(1, |src| - 1);
      if !more {
        break;
      }
      s := nextEmit + 1;
    }
    if nextEmit < |src| {
      d := WriteLiteral(dst, d0, d, src, nextEmit, |src|, out);
    }
    assert src[..|src|] == src;
  }

  /** A block of one repeated byte matches at the first look. */
  lemma FoundAtOnce(src: Bytes, from: nat, m: nat, shift: nat, found: bool, s: nat, candidate: nat, ps: seq<nat>)
    requires MIN_NON_LITERAL_BLOCK_SIZE <= |src| && s == Look(from, m).0 && (found <==> Look(from, m + 1).0 + INPUT_MARGIN <= |src|)
    requires forall j: nat :: j < m ==> !RepeatsAt(src, ps, from, j, shift)
    requires found ==> s + 4 <= |src| && Inside(src, ps + Looked(from, m)) && candidate == LastIn(src, ps + Looked(from, m), SlotAt(src, s, shift), shift)
    ensures OneByte(src) && from == 1 && ps == [] ==> found && s == 1 && candidate == 0
  {
    if OneByte(src) && from == 1 && ps == [] {
      assert Look(1, 0) == (1, 32) && Look(1, 1) == (2, 33);
      assert ps + Looked(1, 0) == [];
      hide Slot, Hash, Load32;
      assert src[0..4] == src[1..5];
      assert RepeatsAt(src, ps, from, 0, shift);
      assert m == 0;
    }
  }

  lemma NothingYet(e: Bytes, out: Bytes, src: Bytes)
    requires e == []
    ensures Encodes(e, out, src, 0)
  {
    assert out + src[..0] == out;
  }

  /** A literal after a stretch within the bound stays within one byte of it. */
  lemma LiteralRoom(written: nat, nextEmit: nat, s: nat)
    requires nextEmit < s && 61 * written <= 62 * nextEmit
    ensures 61 * (written + LiteralSize(s - nextEmit)) <= 62 * s + 61
  {
  }

  // ----- whole blocks

  /** Where `Encode` stands: the header and `src[..c]` are written; only the last chunk may be short. */
  ghost predicate Progress(b: Bytes, src: Bytes, c: nat) {
    var h := |PutUvarint(|src|)|;
    h <= |b| && b[..h] == PutUvarint(|src|) && Behind(b, h, src, c)
  }

  /** `src[..c]` is written behind a header of `h` bytes. */
  ghost predicate Behind(b: Bytes, h: nat, src: Bytes, c: nat) {
    h <= |b| && c <= |src| && Apply(b[h..], []) == Some(src[..c]) && 60 * (|b| - h) <= 61 * c + if c < |src| then 0 else 60
  }

  /** `Encode`; `None` where the original panics with `ErrTooLarge`. */
  method Encode(dst: array<Byte>, src: Bytes) returns (r: Option<Bytes>)
    modifies dst
    ensures r.None? <==> MaxEncodedLen(|src|) < 0
    ensures r.Some? ==> Block(r.value) == Some(src) && |r.value| <= MaxEncodedLen(|src|)
  {
    hide Apply, PutUvarint, Progress, IsLiteral;
    var n := MaxEncodedLen(|src|);
    if n < 0 {
      return None;
    }
    var buf := dst;
    if dst.Length < n {
      buf := new Byte[n](_ => 0);
    }
    UvarintLength(|src|);
    var header := PutUvarint(|src|);
    CopyInto(buf, 0, header);
    var d := |header|;
    HeaderOnly(buf[..d], src);
    var rest := src;
    ghost var c: nat := 0;
    while |rest| > 0
      invariant c <= |src| && rest == src[c..] && (c < |src| ==> c % MAX_BLOCK_SIZE == 0)
      invariant d <= buf.Length && Progress(buf[..d], src, c)
      invariant buf.Length >= n && (buf == dst || fresh(buf))
      decreases |rest|
    {
      var p := rest;
      rest := [];
      if |p| > MAX_BLOCK_SIZE {
        p, rest := p[..MAX_BLOCK_SIZE], p[MAX_BLOCK_SIZE..];
      }
      var d' := EncodeChunk(buf, d, p, src, c);
      d, c := d', c + |p|;
    }
    Finished(buf[..d], src);
    return Some(buf[..d]);
  }

  /** One turn of the loop in `Encode`: the chunk `p` of at most 64 KiB at `src[c..]`. */
  method EncodeChunk(buf: array<Byte>, d: nat, p: Bytes, ghost src: Bytes, ghost c: nat) returns (d': nat)
    requires d <= buf.Length && Progress(buf[..d], src, c) && c < |src| && c % MAX_BLOCK_SIZE == 0
    requires 1 <= |p| <= MAX_BLOCK_SIZE && c + |p| <= |src| && p == src[c..c + |p|] && (c + |p| < |src| ==> |p| == MAX_BLOCK_SIZE)
    requires MaxEncodedLen(|src|) >= 0 && buf.Length >= MaxEncodedLen(|src|) && |PutUvarint(|src|)| <= 5
    modifies buf
    ensures d <= d' <= buf.Length && Progress(buf[..d'], src, c + |p|)
  {
    hide Apply, PutUvarint, Progress, IsLiteral, MaxEncodedLen, LiteralSize;
    ghost var b := buf[..d];
    EnoughRoom(b, src, c, |p|, buf.Length);
    if |p| < MIN_NON_LITERAL_BLOCK_SIZE {
      var k := EmitLiteral(buf, d, p);
      LiteralAfter(buf[d..d + k], src[..c], p);
      SmallLiteral(|p|);
      d' := d + k;
    } else {
      LaterBlockRoom(b, src, c, |p|, buf.Length);
      d' := EncodeBlock(buf, d, p, src[..c]);
    }
    assert buf[..d'] == b + buf[d..d'];
    Advance(b, buf[d..d'], src, c, p);
  }

  lemma SmallLiteral(n: nat)
    requires 1 <= n < MIN_NON_LITERAL_BLOCK_SIZE
    ensures LiteralSize(n) == n + 1
  {
  }

  lemma HeaderOnly(b: Bytes, src: Bytes)
    requires b == PutUvarint(|src|)
    ensures Progress(b, src, 0)
  {
    assert b[|b|..] == [] && src[..0] == [];
  }

  lemma LiteralAfter(e: Bytes, out: Bytes, lit: Bytes)
    requires IsLiteral(e, lit)
    ensures Apply(e, out) == Some(out + lit)
  {
  }

  /** The buffer holds what any next chunk may need. */
  lemma EnoughRoom(b: Bytes, src: Bytes, c: nat, l: nat, size: nat)
    requires Progress(b, src, c) && 1 <= l && c + l <= |src| && MaxEncodedLen(|src|) >= 0 && size >= MaxEncodedLen(|src|)
    requires |PutUvarint(|src|)| <= 5
    ensures |b| <= size && 61 * (size - |b|) >= 62 * l + 61
    ensures l < MIN_NON_LITERAL_BLOCK_SIZE ==> |b| + LiteralSize(l) <= size
  {
    hide Apply, PutUvarint;
  }

  /** Every block after the first finds the room `encodeBlock` asks for in its documentation. */
  lemma LaterBlockRoom(b: Bytes, src: Bytes, c: nat, l: nat, size: nat)
    requires Progress(b, src, c) && 1 <= l <= MAX_BLOCK_SIZE && c + l <= |src| && MaxEncodedLen(|src|) >= 0 && size >= MaxEncodedLen(|src|)
    requires |PutUvarint(|src|)| <= 5 && c % MAX_BLOCK_SIZE == 0
    ensures c > 0 ==> size - |b| >= MaxEncodedLen(l) >= 0
  {
    hide Apply, PutUvarint;
  }

  /** The bytes of the buffer `Encode` works in: `dst` as it is when long enough, a new one otherwise. */
  function BufferSize(dstLen: nat, n: nat): int {
    if dstLen < MaxEncodedLen(n) then MaxEncodedLen(n) else dstLen
  }

  predicate FirstHasRoom(dstLen: nat, n: nat) {
    BufferSize(dstLen, n) - |PutUvarint(n)| >= MaxEncodedLen(if n < MAX_BLOCK_SIZE then n else MAX_BLOCK_SIZE)
  }

  /** The first block has the room asked for exactly when the source is larger than a block by enough to spare the
      header, or the buffer passed in is longer than `MaxEncodedLen` by the header. */
  lemma FirstBlockRoom(dstLen: nat, n: nat)
    requires MIN_NON_LITERAL_BLOCK_SIZE <= n && MaxEncodedLen(n) >= 0
    ensures FirstHasRoom(dstLen, n) <==> n >= 65538 || dstLen >= MaxEncodedLen(if n < MAX_BLOCK_SIZE then n else MAX_BLOCK_SIZE) + |PutUvarint(n)|
  {
    NewBufferRoom(n);
    hide PutUvarint;
  }

  /** In a buffer of exactly `MaxEncodedLen` bytes, as made when `dst` is too short. */
  lemma NewBufferRoom(n: nat)
    requires MIN_NON_LITERAL_BLOCK_SIZE <= n && MaxEncodedLen(n) >= 0
    ensures FirstHasRoom(0, n) <==> n >= 65538
  {
    UvarintLength(n);
    if n >= 0x80 && n < 0x20_0000 {
      UvarintLength(n / 0x80);
      assert n >= 0x4000 ==> |PutUvarint(n / 0x80)| == 1 + |PutUvarint(n / 0x80 / 0x80)|;
    }
  }

  /** `writeBlock` of the table writer passes a buffer with five bytes to spare for its trailer: always room. */
  lemma TableWriterRoom(dstLen: nat, n: nat)
    requires MIN_NON_LITERAL_BLOCK_SIZE <= n && MaxEncodedLen(n) >= 0 && dstLen >= MaxEncodedLen(n) + 5
    ensures FirstHasRoom(dstLen, n)
  {
    UvarintLength(n);
    hide PutUvarint;
  }

  /** A chunk of encoded bytes extends the progress. */
  lemma Advance(b: Bytes, e: Bytes, src: Bytes, c: nat, p: Bytes)
    requires Progress(b, src, c) && p != [] && c + |p| <= |src| && p == src[c..c + |p|]
    requires c + |p| < |src| ==> |p| == MAX_BLOCK_SIZE
    requires Apply(e, src[..c]) == Some(src[..c] + p) && 61 * |e| <= 62 * |p| + 61
    requires c < |src|
    ensures Progress(b + e, src, c + |p|)
  {
    hide Behind, Apply, PutUvarint;
    var h := |PutUvarint(|src|)|;
    AdvanceBehind(b, e, h, src, c, p);
    TakeFront(b, e, h);
  }

  lemma AdvanceBehind(b: Bytes, e: Bytes, h: nat, src: Bytes, c: nat, p: Bytes)
    requires c < |src| && c + |p| <= |src| && p == src[c..c + |p|] && (c + |p| < |src| ==> |p| == MAX_BLOCK_SIZE)
    requires Behind(b, h, src, c) && Apply(e, src[..c]) == Some(src[..c] + p) && 61 * |e| <= 62 * |p| + 61
    ensures Behind(b + e, h, src, c + |p|)
  {
    hide Apply;
    AdvanceDecodes(b, e, h, src, c, p);
    Growth(|b| - h, |e|, c, |p|, |src|);
  }

  lemma TakeFront(b: Bytes, e: Bytes, h: nat)
    requires h <= |b|
    ensures (b + e)[..h] == b[..h]
  {
  }

  lemma AdvanceDecodes(b: Bytes, e: Bytes, h: nat, src: Bytes, c: nat, p: Bytes)
    requires h <= |b| && c + |p| <= |src| && p == src[c..c + |p|]
    requires Apply(b[h..], []) == Some(src[..c]) && Apply(e, src[..c]) == Some(src[..c] + p)
    ensures Apply((b + e)[h..], []) == Some(src[..c + |p|])
  {
    hide Apply;
    ApplyConcat(b[h..], e, []);
    assert (b + e)[h..] == b[h..] + e;
    assert src[..c] + p == src[..c + |p|];
  }

  lemma Growth(written: nat, e: nat, c: nat, l: nat, n: nat)
    requires c + l <= n && (c + l < n ==> l == MAX_BLOCK_SIZE) && 60 * written <= 61 * c && 61 * e <= 62 * l + 61
    ensures 60 * (written + e) <= 61 * (c + l) + if c + l < n then 0 else 60
  {
  }

  lemma Finished(b: Bytes, src: Bytes)
    requires Progress(b, src, |src|) && MaxEncodedLen(|src|) >= 0
    ensures Block(b) == Some(src) && |b| <= MaxEncodedLen(|src|)
  {
    hide Apply, PutUvarint, Uvarint;
    var h := |PutUvarint(|src|)|;
    UvarintLength(|src|);
    UvarintRoundTrip(|src|, b[h..]);
    assert b == PutUvarint(|src|) + b[h..];
    assert src[..|src|] == src;
  }
}
