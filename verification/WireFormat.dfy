/** The other formats in numbers: which bytes stand for what, beside the round trips that only say they are read back. */
module WireFormat {
  import opened Keys
  import opened Varint
  import opened InternalKeys
  import opened MemDb
  import BF = BlockFormat
  import RB = RawBlock
  import TF = TableFooter
  import FB = FilterBlock
  import B = Batches
  import R = Recovery
  import S = SessionRecord
  import N = SnappyFormat

  lemma SmallUvarint(x: nat)
    ensures x < 0x80 ==> PutUvarint(x) == [x]
    ensures 0x80 <= x < 0x4000 ==> PutUvarint(x) == [x % 0x80 + 0x80, x / 0x80]
  {
  }

  lemma FourBytesOf(x: nat)
    requires x < 0x100
    ensures PutFixed(x, 4) == [x, 0, 0, 0] && PutFixed(x, 8) == [x, 0, 0, 0, 0, 0, 0, 0]
  {
    hide PutFixed;
    ByteOf(x, 4);
    ByteOf(x, 8);
  }

  lemma ByteOf(x: nat, n: nat)
    requires x < 0x100
    ensures forall i: nat :: i < n ==> PutFixed(x, n)[i] == if i == 0 then x else 0
  {
    hide PutFixed;
    forall i: nat | i < n ensures PutFixed(x, n)[i] == if i == 0 then x else 0 {
      FixedDigit(x, n, i);
      SmallDigit(x, i);
    }
  }

  lemma SmallDigit(x: nat, i: nat)
    requires x < 0x100
    ensures x / Pow256(i) % 256 == if i == 0 then x else 0
  {
    if i > 0 {
      Quotient(x, 256 * Pow256(i - 1));
    }
  }

  lemma Quotient(x: nat, m: nat)
    requires x < m
    ensures x / m == 0
  {
  }

  /** A block handle is its offset and its length. */
  lemma HandleExample()
    ensures RB.EncodeHandle(RB.BlockHandle(300, 5)) == [0xac, 2, 5]
  {
    SmallUvarint(300);
    SmallUvarint(5);
  }

  /** A footer is the handle of the metaindex block, that of the index block, zeros, and the magic number. */
  lemma FooterExample()
    ensures |RB.EncodeHandle(RB.BlockHandle(1, 2))| == |RB.EncodeHandle(RB.BlockHandle(3, 4))| == 2
    ensures TF.Footer(RB.BlockHandle(1, 2), RB.BlockHandle(3, 4)) ==
            [1, 2, 3, 4] + seq(36, _ => 0) + [0x57, 0xfb, 0x80, 0x8b, 0x24, 0x75, 0x47, 0xdb]
  {
    SmallUvarint(1);
    SmallUvarint(2);
    SmallUvarint(3);
    SmallUvarint(4);
  }

  /** The metaindex block has the filter block's handle under "filter." and the filter's name. */
  lemma MetaExample(name: Bytes)
    ensures TF.MetaEntries(name, Some(RB.BlockHandle(1, 2))) == [KV([102, 105, 108, 116, 101, 114, 46] + name, [1, 2])]
    ensures TF.MetaEntries(name, None) == []
  {
    SmallUvarint(1);
    SmallUvarint(2);
    assert RB.EncodeHandle(RB.BlockHandle(1, 2)) == [1, 2];
  }

  /** An entry is the lengths of what it shares, of the rest of its key and of its value, the rest and the value. */
  lemma EntryExample()
    ensures BF.EntryBytes(2, KV([10, 11, 12], [20, 21])) == [2, 1, 2, 12, 20, 21]
  {
    SmallUvarint(2);
    SmallUvarint(1);
  }

  /** A block is its entries, the first in every interval whole, the offsets of those, and how many these are. */
  lemma BlockExample()
    ensures BF.BlockBytes(2, [KV([10, 11], [20]), KV([10, 11, 12], [21]), KV([10, 13], [])]) ==
            [0, 2, 1, 10, 11, 20] + [2, 1, 1, 12, 21] + [0, 2, 0, 10, 13] + [0, 0, 0, 0] + [11, 0, 0, 0] + [2, 0, 0, 0]
  {
    hide *;
    BlockBody();
    BlockRestarts();
    ThreeWords(0, 11, 2);
    Finished(2, [KV([10, 11], [20]), KV([10, 11, 12], [21]), KV([10, 13], [])], [0, 11], [0, 11, 2]);
  }

  lemma Finished(interval: nat, es: seq<KV>, r: seq<nat>, words: seq<nat>)
    requires interval > 0 && es != [] && r == BF.Restarts(interval, es) && words == r + [|r|]
    ensures BF.BlockBytes(interval, es) == BF.Body(interval, es) + BF.PutAll(words)
  {
  }

  lemma BlockBody()
    ensures BF.Body(2, []) == [] && |BF.Body(2, [KV([10, 11], [20]), KV([10, 11, 12], [21])])| == 11
    ensures BF.Body(2, [KV([10, 11], [20]), KV([10, 11, 12], [21]), KV([10, 13], [])]) ==
            [0, 2, 1, 10, 11, 20] + [2, 1, 1, 12, 21] + [0, 2, 0, 10, 13]
  {
    var a, b, c := KV([10, 11], [20]), KV([10, 11, 12], [21]), KV([10, 13], []);
    hide *;
    NoBody();
    BF.BodyNext(2, [], a);
    BF.BodyNext(2, [a], b);
    BF.BodyNext(2, [a, b], c);
    assert [] + [a] == [a] && [a] + [b] == [a, b] && [a, b] + [c] == [a, b, c];
    ThreeEntries(a, b, c);
  }

  lemma NoBody()
    ensures BF.Body(2, []) == []
  {
  }

  lemma ThreeEntries(a: KV, b: KV, c: KV)
    requires a == KV([10, 11], [20]) && b == KV([10, 11, 12], [21]) && c == KV([10, 13], [])
    ensures BF.EntryBytes(BF.SharedAt(2, [a], 0), a) == [0, 2, 1, 10, 11, 20]
    ensures BF.EntryBytes(BF.SharedAt(2, [a, b], 1), b) == [2, 1, 1, 12, 21]
    ensures BF.EntryBytes(BF.SharedAt(2, [a, b, c], 2), c) == [0, 2, 0, 10, 13]
  {
    Shared(a, b);
    hide BF.EntryBytes, BF.SharedPrefixLen;
    Entry(0, a);
    Entry(2, b);
    Entry(0, c);
  }

  lemma Entry(shared: nat, e: KV)
    requires shared <= |e.key| < 0x80 && |e.value| < 0x80
    ensures BF.EntryBytes(shared, e) == [shared, |e.key| - shared, |e.value|] + e.key[shared..] + e.value
  {
    SmallUvarint(shared);
    SmallUvarint(|e.key| - shared);
    SmallUvarint(|e.value|);
    hide PutUvarint;
  }

  lemma BlockRestarts()
    ensures BF.Restarts(2, [KV([10, 11], [20]), KV([10, 11, 12], [21]), KV([10, 13], [])]) == [0, 11] && [0, 11] + [2] == [0, 11, 2]
  {
    var a, b, c := KV([10, 11], [20]), KV([10, 11, 12], [21]), KV([10, 13], []);
    var none: seq<KV> := [];
    BlockBody();
    assert none + [a] == [a] && [a] + [b] == [a, b] && [a, b] + [c] == [a, b, c];
    hide BF.Body;
    BF.RestartsNext(2, none, a);
    BF.RestartsNext(2, [a], b);
    BF.RestartsNext(2, [a, b], c);
    assert BF.Restarts(2, none) == [];
  }

  lemma Shared(a: KV, b: KV)
    requires a == KV([10, 11], [20]) && b == KV([10, 11, 12], [21])
    ensures BF.SharedPrefixLen(a.key, b.key) == 2
  {
  }

  lemma ThreeWords(x: nat, y: nat, z: nat)
    requires x < 0x100 && y < 0x100 && z < 0x100
    ensures BF.PutAll([x, y, z]) == [x, 0, 0, 0] + [y, 0, 0, 0] + [z, 0, 0, 0]
  {
    hide PutFixed, BF.PutAll;
    FourBytesOf(x);
    FourBytesOf(y);
    FourBytesOf(z);
    WordBehind([], x);
    WordBehind([x], y);
    WordBehind([x, y], z);
    assert [] + [x] == [x] && [x] + [y] == [x, y] && [x, y] + [z] == [x, y, z];
    NoWords();
  }

  lemma WordBehind(xs: seq<nat>, x: nat)
    ensures BF.PutAll(xs + [x]) == BF.PutAll(xs) + PutFixed(x, 4)
  {
    assert (xs + [x])[..|xs|] == xs;
  }

  lemma NoWords()
    ensures BF.PutAll([]) == []
  {
  }

  /** A filter block is the filters, their offsets and where these start, and the number of bits in a stretch's offset. */
  lemma FilterBlockExample(filters: Bytes, groups: seq<seq<nat>>, n: nat, data: Bytes)
    requires |filters| == 9 && FB.IsFilterBytes(data, n, groups, filters, [0, 9])
    ensures data == filters + [0, 0, 0, 0] + [9, 0, 0, 0] + [9, 0, 0, 0] + [11]
  {
    ThreeWords(0, 9, 9);
    assert [0, 9] + [9] == [0, 9, 9];
  }

  /** A journal record of writes is the first sequence number, the number of records, and for each record its kind, its key
      with its length and, if there is one, its value with its length. */
  lemma BatchExample()
    ensures R.GroupBytes(R.Group(5, [B.BatchRec(Val, [107], [118, 119]), B.BatchRec(Del, [108], [])])) ==
            [5, 0, 0, 0, 0, 0, 0, 0] + [2, 0, 0, 0] + [1, 1, 107, 2, 118, 119] + [0, 1, 108]
  {
    var a, b := B.BatchRec(Val, [107], [118, 119]), B.BatchRec(Del, [108], []);
    FourBytesOf(5);
    FourBytesOf(2);
    SmallUvarint(1);
    SmallUvarint(2);
    assert B.EncodeRec(a) == [1, 1, 107, 2, 118, 119] && B.EncodeRec(b) == [0, 1, 108];
    assert [a, b][1..] == [b] && [b][1..] == [];
    assert B.EncodeRecs([b]) == B.EncodeRec(b) + B.EncodeRecs([]);
  }

  /** The tags of a manifest record and the order of its fields. */
  lemma ManifestExample()
    ensures S.Encode(S.Rec(Some([99]), Some(10), None, Some(11), Some(12), [S.CpRecord(3, [30])],
                           [S.AtRecord(4, S.FileRec(41, 42, [43], [44]))], [S.DtRecord(5, 50)])) ==
            [1, 1, 99] + [2, 10] + [3, 11] + [4, 12] + [5, 3, 1, 30] + [6, 5, 50] + [7, 4, 41, 42, 1, 43, 1, 44]
  {
    var c, d, a := S.CpRecord(3, [30]), S.DtRecord(5, 50), S.AtRecord(4, S.FileRec(41, 42, [43], [44]));
    ManifestLists(c, d, a);
    hide S.PutCps, S.PutDts, S.PutAts;
    SmallUvarint(1);
    SmallUvarint(2);
    SmallUvarint(3);
    SmallUvarint(4);
    SmallUvarint(10);
    SmallUvarint(11);
    SmallUvarint(12);
    hide PutUvarint;
  }

  lemma ManifestLists(c: S.CpRecord, d: S.DtRecord, a: S.AtRecord)
    requires c == S.CpRecord(3, [30]) && d == S.DtRecord(5, 50) && a == S.AtRecord(4, S.FileRec(41, 42, [43], [44]))
    ensures S.PutCps([c]) == [5, 3, 1, 30] && S.PutDts([d]) == [6, 5, 50] && S.PutAts([a]) == [7, 4, 41, 42, 1, 43, 1, 44]
  {
    PointerBytes(c);
    DroppedBytes(d);
    AddedBytes(a);
    hide S.PutCp, S.PutDt, S.PutAt;
    assert [c][1..] == [] && [d][1..] == [] && [a][1..] == [];
  }

  lemma PointerBytes(c: S.CpRecord)
    requires c.level < 0x80 && |c.ikey| < 0x80
    ensures S.PutCp(c) == [5, c.level, |c.ikey|] + c.ikey
  {
    SmallUvarint(5);
    SmallUvarint(c.level);
    SmallUvarint(|c.ikey|);
    hide PutUvarint;
  }

  lemma DroppedBytes(d: S.DtRecord)
    requires d.level < 0x80 && d.num < 0x80
    ensures S.PutDt(d) == [6, d.level, d.num]
  {
    SmallUvarint(6);
    SmallUvarint(d.level);
    SmallUvarint(d.num);
    hide PutUvarint;
  }

  lemma AddedBytes(a: S.AtRecord)
    requires a.level < 0x80 && a.file.num < 0x80 && a.file.size < 0x80 && |a.file.imin| < 0x80 && |a.file.imax| < 0x80
    ensures S.PutAt(a) == [7, a.level, a.file.num, a.file.size, |a.file.imin|] + a.file.imin + [|a.file.imax|] + a.file.imax
  {
    SmallUvarint(7);
    SmallUvarint(a.level);
    SmallUvarint(a.file.num);
    SmallUvarint(a.file.size);
    SmallUvarint(|a.file.imin|);
    SmallUvarint(|a.file.imax|);
    hide PutUvarint;
  }

  /** Elements of snappy of each kind: a literal, one with a length byte, and copies with offsets of eleven bits, of two
      bytes and of four; and a block of a literal and a copy that feeds itself. */
  lemma SnappyExample()
    ensures N.ParseHead([0x10, 97, 98, 99, 100, 101]) == N.Literal(1, 5)
    ensures N.ParseHead([0xf0, 99]) == N.Literal(2, 100)
    ensures N.ParseHead([0x35, 0x04]) == N.Copy(2, 0x104, 9)
    ensures N.ParseHead([0x22, 0x04, 0x01]) == N.Copy(3, 0x104, 9)
    ensures N.ParseHead([0x23, 0x04, 0x01, 0, 0]) == N.Copy(5, 0x104, 9)
    ensures N.Block([3, 0, 97, 0xa, 1, 0]) == None && N.Block([4, 0, 97, 0xa, 1, 0]) == Some([97, 97, 97, 97])
  {
    TwoLittle([0x22, 0x04, 0x01], 1);
    FourLittle([0x23, 0x04, 0x01, 0, 0]);
    OneLittle([0xf0, 99], 1);
    hide N.LittleEndian, N.Block;
    BlockOf(4);
    BlockOf(3);
  }

  lemma OneLittle(b: Bytes, i: nat)
    requires i < |b|
    ensures N.LittleEndian(b, i, 1) == b[i]
  {
  }

  lemma TwoLittle(b: Bytes, i: nat)
    requires i + 1 < |b|
    ensures N.LittleEndian(b, i, 2) == b[i] + 0x100 * (b[i + 1] as int)
  {
    OneLittle(b, i + 1);
  }

  lemma FourLittle(b: Bytes)
    requires |b| == 5 && b[3] == 0 && b[4] == 0
    ensures N.LittleEndian(b, 1, 4) == b[1] + 0x100 * (b[2] as int)
  {
    TwoLittle(b, 3);
    assert N.LittleEndian(b, 2, 3) == b[2] + 0x100 * N.LittleEndian(b, 3, 2);
  }

  lemma BlockOf(v: nat)
    requires v < 0x80
    ensures N.Block([v, 0, 97, 0xa, 1, 0]) == if v == 4 then Some([97, 97, 97, 97]) else None
  {
    var b: Bytes := [v, 0, 97, 0xa, 1, 0];
    assert Uvarint(b) == Some((v, 1));
    var e: Bytes := [0, 97, 0xa, 1, 0];
    assert b[1..] == e;
    assert N.ParseHead(e) == N.Literal(1, 1);
    var c: Bytes := [0xa, 1, 0];
    var none: Bytes := [];
    assert e[1 + 1..] == c && none + e[1..1 + 1] == [97];
    assert N.Consume(e, []) == Some((c, [97]));
    assert N.LittleEndian(c, 1, 2) == 1 + 0x100 * N.LittleEndian(c, 2, 1);
    assert c[0] / 4 == 2 && c[0] % 4 == 2 && N.LittleEndian(c, 2, 1) == 0 + 0x100 * N.LittleEndian(c, 3, 0);
    assert N.ParseHead(c) == N.Copy(3, 1, 3);
    assert N.CopyFrom([97], 1, 3) == N.CopyFrom([97, 97], 1, 2) == N.CopyFrom([97, 97, 97], 1, 1) == N.CopyFrom([97, 97, 97, 97], 1, 0);
    assert c[3..] == [];
    assert N.Consume(c, [97]) == Some(([], [97, 97, 97, 97]));
    assert N.Apply(c, [97]) == Some([97, 97, 97, 97]);
  }
}
