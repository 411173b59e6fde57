/** `snappy.Decode`: the decoder accepts exactly the blocks of the format. */
module SnappyDecode {
  import opened Keys
  import opened Varint
  import opened SnappyFormat

  datatype DecodeError = ErrCorrupt
  datatype DecodeResult = Decoded(out: Bytes) | Failed(error: DecodeError)

  const CODE_CORRUPT: int := 1

  /** A read of the extra length bytes of a literal: the new position and the value, or `None` past the end. */
  function LiteralLength(src: Bytes, s: nat): (r: Option<(nat, nat)>)
    requires s < |src| && src[s] % 4 == TAG_LITERAL
    ensures r == match ParseHead(src[s..]) { case Literal(h, n) => Some((s + h, n - 1)) case _ => None }
  {
    var x: nat := src[s] / 4;
    var t := src[s..];
    if x < 60 then Some((s + 1, x))
    else if x == 60 then
      if s + 2 > |src| then None else assert t[1] == src[s + 1]; Unfold(t, 1); Some((s + 2, src[s + 2 - 1]))
    else if x == 61 then
      if s + 3 > |src| then None else Unfold(t, 2); Some((s + 3, src[s + 3 - 2] + (src[s + 3 - 1] as int) * 0x100))
    else if x == 62 then
      if s + 4 > |src| then None else Unfold(t, 3); Some((s + 4, src[s + 4 - 3] + (src[s + 4 - 2] as int) * 0x100 + (src[s + 4 - 1] as int) * 0x1_0000))
    else
      if s + 5 > |src| then None
      else Unfold(t, 4); Some((s + 5, src[s + 5 - 4] + (src[s + 5 - 3] as int) * 0x100 + (src[s + 5 - 2] as int) * 0x1_0000 + (src[s + 5 - 1] as int) * 0x100_0000))
  }

  lemma Unfold(t: Bytes, n: nat)
    requires n < |t| && n <= 4
    ensures LittleEndian(t, 1, n) == (if n > 0 then t[1] else 0) + (if n > 1 then (t[2] as int) * 0x100 else 0)
                                     + (if n > 2 then (t[3] as int) * 0x1_0000 else 0) + (if n > 3 then (t[4] as int) * 0x100_0000 else 0)
  {
    assert n > 1 ==> LittleEndian(t, 2, n - 1) == t[2] + 0x100 * LittleEndian(t, 3, n - 2);
    assert n > 2 ==> LittleEndian(t, 3, n - 2) == t[3] + 0x100 * LittleEndian(t, 4, n - 3);
    assert n > 3 ==> LittleEndian(t, 4, n - 3) == t[4];
  }

  lemma Copy1Field(x: Byte)
    ensures (x as int) / 32 * 32 * 8 == x / 4 / 8 * 256
  {
  }

  /** Reading a copy tag: the new position, offset and length. */
  function CopyHead(src: Bytes, s: nat): (r: Option<(nat, nat, nat)>)
    requires s < |src| && src[s] % 4 != TAG_LITERAL
    ensures r == match ParseHead(src[s..]) { case Copy(h, offset, n) => Some((s + h, offset, n)) case _ => None }
  {
    var t := src[s..];
    if src[s] % 4 == TAG_COPY1 then
      if s + 2 > |src| then None else Copy1Field(src[s]); Some((s + 2, (src[s] as int) / 32 * 32 * 8 + (src[s + 2 - 1] as int), 4 + src[s] / 4 % 8))
    else if src[s] % 4 == TAG_COPY2 then
      if s + 3 > |src| then None else Unfold(t, 2); Some((s + 3, src[s + 3 - 2] + (src[s + 3 - 1] as int) * 0x100, 1 + (src[s] as int) / 4))
    else
      if s + 5 > |src| then None
      else Unfold(t, 4); Some((s + 5, src[s + 5 - 4] + (src[s + 5 - 3] as int) * 0x100 + (src[s + 5 - 2] as int) * 0x1_0000 + (src[s + 5 - 1] as int) * 0x100_0000, 1 + (src[s] as int) / 4))
  }

  /** What one loop turn of `decode` does to the rest of the input and the output so far. */
  lemma LiteralTurn(src: Bytes, s: nat, out: Bytes, s': nat, n: nat)
    requires s < |src| && src[s] % 4 == TAG_LITERAL && LiteralLength(src, s) == Some((s', n))
    ensures Apply(src[s..], out) == if s' + n + 1 <= |src| then Apply(src[s' + n + 1..], out + src[s'..s' + n + 1]) else None
  {
    hide LiteralLength, ParseHead;
    var h := s' - s;
    assert Consume(src[s..], out) == if s' + n + 1 <= |src| then Some((src[s..][h + n + 1..], out + src[s..][h..h + n + 1])) else None;
    if s' + n + 1 <= |src| {
      assert src[s..][h + n + 1..] == src[s' + n + 1..] && src[s..][h..h + n + 1] == src[s'..s' + n + 1];
    }
  }

  lemma CopyTurn(src: Bytes, s: nat, out: Bytes, s': nat, offset: nat, n: nat)
    requires s < |src| && src[s] % 4 != TAG_LITERAL && CopyHead(src, s) == Some((s', offset, n))
    ensures s' <= |src| && n >= 1
    ensures Apply(src[s..], out) == if 1 <= offset <= |out| then Apply(src[s'..], CopyFrom(out, offset, n)) else None
  {
    hide CopyHead, ParseHead;
    assert Consume(src[s..], out) == if 1 <= offset <= |out| then Some((src[s..][s' - s..], CopyFrom(out, offset, n))) else None;
    assert src[s..][s' - s..] == src[s'..];
  }

  lemma BadTurn(src: Bytes, s: nat, out: Bytes)
    requires s < |src|
    requires if src[s] % 4 == TAG_LITERAL then LiteralLength(src, s).None? else CopyHead(src, s).None?
    ensures Apply(src[s..], out) == None
  {
    assert ParseHead(src[s..]).Truncated?;
    assert Consume(src[s..], out) == None;
  }

  /** The byte-by-byte copy inside `decode`, which may overlap its own source. */
  method ForwardCopy(dst: array<Byte>, d: nat, offset: nat, length: nat)
    requires 1 <= offset <= d && d + length <= dst.Length
    modifies dst
    ensures dst[..d + length] == CopyFrom(old(dst[..d]), offset, length)
    ensures dst[d + length..] == old(dst[d + length..])
  {
    var i, end := d, d + length;
    hide CopyFrom;
    while i != end
      invariant d <= i <= end
      invariant CopyFrom(dst[..i], offset, end - i) == CopyFrom(old(dst[..d]), offset, length)
      invariant dst[end..] == old(dst[end..])
    {
      ghost var out := dst[..i];
      OneByte(out, offset, end - i);
      dst[i] := dst[i - offset];
      i := i + 1;
      assert dst[..i] == out + [out[|out| - offset]];
    }
    NoByte(dst[..i], offset);
  }

  lemma OneByte(out: Bytes, offset: nat, n: nat)
    requires 1 <= offset <= |out| && n > 0
    ensures CopyFrom(out, offset, n) == CopyFrom(out + [out[|out| - offset]], offset, n - 1)
  {
  }

  lemma NoByte(out: Bytes, offset: nat)
    requires 1 <= offset <= |out|
    ensures CopyFrom(out, offset, 0) == out
  {
  }

  /** The forward copy, which stays below `dLen`. */
  method CopyElement(dst: array<Byte>, d: nat, offset: nat, length: nat, dLen: nat)
    requires 1 <= offset <= d && d + length <= dLen <= dst.Length
    modifies dst
    ensures dst[..d + length] == CopyFrom(old(dst[..d]), offset, length)
    ensures dst[dLen..] == old(dst[dLen..])
  {
    hide CopyFrom;
    ghost var was := dst[d + length..];
    ForwardCopy(dst, d, offset, length);
    assert dst[dLen..] == was[dLen - (d + length)..];
  }

  /** A literal's bytes, which stay below `dLen`. */
  method CopyLiteral(dst: array<Byte>, d: nat, lit: Bytes, dLen: nat)
    requires d + |lit| <= dLen <= dst.Length
    modifies dst
    ensures dst[..d + |lit|] == old(dst[..d]) + lit
    ensures dst[dLen..] == old(dst[dLen..])
  {
    ghost var was := dst[..];
    CopySlice(dst, d, lit);
    Behind(was, dst[..], d, lit, dLen);
    assert dst[dLen..] == dst[..][dLen..] && dst[..d + |lit|] == dst[..][..d + |lit|] && was[dLen..] == old(dst[dLen..]) && was[..d] == old(dst[..d]);
  }

  lemma Behind(was: Bytes, now: Bytes, d: nat, lit: Bytes, dLen: nat)
    requires d + |lit| <= dLen <= |was| && now == was[..d] + lit + was[d + |lit|..]
    ensures |now| == |was| && now[..d + |lit|] == was[..d] + lit && now[dLen..] == was[dLen..]
  {
  }

  /** `decode` writes to `dst[..dLen]` and returns 0 exactly when the elements of `src` produce `dLen` bytes. */
  method DecodeElements(dst: array<Byte>, dLen: nat, src: Bytes) returns (code: int)
    requires dLen <= dst.Length
    modifies dst
    ensures code == 0 || code == CODE_CORRUPT
    ensures code == 0 <==> Apply(src, []).Some? && |Apply(src, []).value| == dLen
    ensures code == 0 ==> dst[..dLen] == Apply(src, []).value
    ensures dst[dLen..] == old(dst[dLen..])
  {
    hide Apply, LiteralLength, CopyHead;
    var d: nat, s: nat := 0, 0;
    while s < |src|
      invariant s <= |src| && d <= dLen
      invariant Apply(src, []) == Apply(src[s..], dst[..d])
      invariant dst[dLen..] == old(dst[dLen..])
      decreases |src| - s
    {
      ghost var out, at := dst[..d], s;
      if src[s] % 4 == TAG_LITERAL {
        var head := LiteralLength(src, s);
        if head.None? {
          BadTurn(src, s, out);
          return CODE_CORRUPT;
        }
        var x;
        s, x := head.value.0, head.value.1;
        LiteralTurn(src, at, out, s, x);
        var length: nat := x + 1;
        if length > dLen - d || length > |src| - s {
          return CODE_CORRUPT;
        }
        CopyLiteral(dst, d, src[s..s + length], dLen);
        d, s := d + length, s + length;
      } else {
        var head := CopyHead(src, s);
        if head.None? {
          BadTurn(src, s, out);
          return CODE_CORRUPT;
        }
        var offset, length;
        s, offset, length := head.value.0, head.value.1, head.value.2;
        CopyTurn(src, at, out, s, offset, length);
        if offset <= 0 || d < offset || length > dLen - d {
          return CODE_CORRUPT;
        }
        CopyElement(dst, d, offset, length, dLen);
        d := d + length;
      }
    }
    assert src[s..] == [];
    AtEnd(dst[..d]);
    if d != dLen {
      return CODE_CORRUPT;
    }
    return 0;
  }

  lemma AtEnd(out: Bytes)
    ensures Apply([], out) == Some(out)
  {
  }

  /** Go's `copy(dst[d:], b)` with enough room. */
  method CopySlice(dst: array<Byte>, d: nat, b: Bytes)
    requires d + |b| <= dst.Length
    modifies dst
    ensures dst[..] == old(dst[..d]) + b + old(dst[d + |b|..])
  {
    forall i | 0 <= i < |b| {
      dst[d + i] := b[i];
    }
  }

  method Decode(dst: array<Byte>, src: Bytes) returns (r: DecodeResult)
    modifies dst
    ensures r == match Block(src) { case Some(out) => Decoded(out) case None => Failed(ErrCorrupt) }
  {
    var header := Uvarint(src);
    if header.None? || header.value.0 > 0xffff_ffff {
      return Failed(ErrCorrupt);
    }
    var dLen, s := header.value.0, header.value.1;
    var out := dst;
    if dLen > dst.Length {
      out := new Byte[dLen](_ => 0);
    }
    var code := DecodeElements(out, dLen, src[s..]);
    if code == 0 {
      return Decoded(out[..dLen]);
    }
    return Failed(ErrCorrupt);
  }
}
