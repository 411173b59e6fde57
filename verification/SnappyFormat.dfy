/** The Snappy block format (google/snappy `format_description.txt`, sections 1 and 2):
    what a byte string decodes to, independently of any encoder or decoder. */
module SnappyFormat {
  import opened Keys
  import opened Varint

  const TAG_LITERAL: Byte := 0
  const TAG_COPY1: Byte := 1
  const TAG_COPY2: Byte := 2
  const TAG_COPY4: Byte := 3

  /** The head of one element: `head` bytes of tag and extra bytes, then `length` bytes of output. */
  datatype Element = Literal(head: nat, length: nat) | Copy(head: nat, offset: nat, length: nat) | Truncated

  /** `n` bytes at `i`, least significant first. */
  function LittleEndian(b: Bytes, i: nat, n: nat): (v: nat)
    requires i + n <= |b|
    decreases n
  {
    if n == 0 then 0 else b[i] + 0x100 * LittleEndian(b, i + 1, n - 1)
  }

  function ParseHead(src: Bytes): (e: Element)
    requires src != []
    ensures !e.Truncated? ==> 1 <= e.head <= |src| && e.length >= 1
  {
    var m: nat := src[0] / 4;
    var tag := src[0] % 4;
    if tag == TAG_LITERAL then
      if m < 60 then Literal(1, m + 1)
      else if |src| < m - 58 then Truncated
      else Literal(m - 58, LittleEndian(src, 1, m - 59) + 1)
    else if tag == TAG_COPY1 then
      if |src| < 2 then Truncated else Copy(2, m / 8 * 256 + src[1], m % 8 + 4)
    else if tag == TAG_COPY2 then
      if |src| < 3 then Truncated else Copy(3, LittleEndian(src, 1, 2), m + 1)
    else
      if |src| < 5 then Truncated else Copy(5, LittleEndian(src, 1, 4), m + 1)
  }

  /** `length` bytes copied one at a time from `offset` bytes back, so a copy may feed itself. */
  function CopyFrom(out: Bytes, offset: nat, length: nat): (r: Bytes)
    requires 1 <= offset <= |out|
    ensures |r| == |out| + length && r[..|out|] == out
    decreases length
  {
    if length == 0 then out else CopyFrom(out + [out[|out| - offset]], offset, length - 1)
  }

  /** What one element at the front does. */
  function Consume(src: Bytes, out: Bytes): (r: Option<(Bytes, Bytes)>)
    requires src != []
    ensures r.Some? ==> |r.value.0| < |src| && |r.value.1| > |out|
  {
    match ParseHead(src)
    case Truncated => None
    case Literal(h, n) => if h + n <= |src| then Some((src[h + n..], out + src[h..h + n])) else None
    case Copy(h, offset, n) => if 1 <= offset <= |out| then Some((src[h..], CopyFrom(out, offset, n))) else None
  }

  /** Appending to `out` what the elements of `src` produce; `None` if `src` is malformed. */
  function Apply(src: Bytes, out: Bytes): (r: Option<Bytes>)
    ensures r.Some? ==> |out| <= |r.value|
    decreases |src|
  {
    if src == [] then Some(out)
    else
      match Consume(src, out)
      case None => None
      case Some((rest, out')) => Apply(rest, out')
  }

  /** A whole block: the length of the output, then elements that produce exactly that much. */
  function Block(b: Bytes): (r: Option<Bytes>) {
    match Uvarint(b)
    case None => None
    case Some((v, n)) =>
      if v > 0xffff_ffff then None
      else
        match Apply(b[n..], [])
        case None => None
        case Some(out) => if |out| == v then Some(out) else None
  }

  lemma ParsePrefix(a: Bytes, b: Bytes)
    requires a != [] && !ParseHead(a).Truncated?
    ensures ParseHead(a + b) == ParseHead(a)
  {
    var m: nat := a[0] / 4;
    if a[0] % 4 == TAG_LITERAL {
      if m >= 60 { LittlePrefix(a, b, 1, m - 59); }
    } else if a[0] % 4 == TAG_COPY2 {
      LittlePrefix(a, b, 1, 2);
    } else if a[0] % 4 == TAG_COPY4 {
      LittlePrefix(a, b, 1, 4);
    }
  }

  lemma {:induction false} LittlePrefix(a: Bytes, b: Bytes, i: nat, n: nat)
    requires i + n <= |a|
    ensures LittleEndian(a + b, i, n) == LittleEndian(a, i, n)
    decreases n
  {
    if n > 0 {
      LittlePrefix(a, b, i + 1, n - 1);
    }
  }

  lemma ConsumePrefix(a: Bytes, b: Bytes, out: Bytes)
    requires a != [] && Consume(a, out).Some?
    ensures Consume(a + b, out) == Some((Consume(a, out).value.0 + b, Consume(a, out).value.1))
  {
    ParsePrefix(a, b);
    hide ParseHead, CopyFrom;
    match ParseHead(a)
    case Literal(h, n) =>
      assert (a + b)[h + n..] == a[h + n..] + b;
      assert (a + b)[h..h + n] == a[h..h + n];
    case Copy(h, offset, n) =>
      assert (a + b)[h..] == a[h..] + b;
  }

  /** Elements decode one after the other. */
  lemma {:induction false} ApplyConcat(a: Bytes, b: Bytes, out: Bytes)
    requires Apply(a, out).Some?
    ensures Apply(a + b, out) == Apply(b, Apply(a, out).value)
    decreases |a|
  {
    hide Consume;
    if a == [] {
      assert a + b == b;
    } else {
      ConsumePrefix(a, b, out);
      ApplyConcat(Consume(a, out).value.0, b, Consume(a, out).value.1);
    }
  }

  /** A copy may be split. */
  lemma {:induction false} CopySplit(out: Bytes, offset: nat, m: nat, n: nat)
    requires 1 <= offset <= |out|
    ensures CopyFrom(CopyFrom(out, offset, m), offset, n) == CopyFrom(out, offset, m + n)
    decreases m
  {
    if m > 0 {
      CopySplit(out + [out[|out| - offset]], offset, m - 1, n);
    }
  }

  /** Copying a stretch that repeats what lies `offset` back continues the original. */
  lemma {:induction false} CopyRepeats(pre: Bytes, src: Bytes, from: nat, base: nat, length: nat)
    requires from < base && base + length <= |src|
    requires src[from..from + length] == src[base..base + length]
    ensures CopyFrom(pre + src[..base], base - from, length) == pre + src[..base + length]
    decreases length
  {
    if length > 0 {
      var out := pre + src[..base];
      assert src[from] == src[from..from + length][0] == src[base..base + length][0] == src[base];
      assert out[|out| - (base - from)] == src[from];
      assert out + [src[from]] == pre + src[..base + 1];
      assert src[from + 1..from + length] == src[from..from + length][1..] == src[base + 1..base + length];
      CopyRepeats(pre, src, from + 1, base + 1, length - 1);
    }
  }
}
