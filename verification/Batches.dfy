/** Write batches: the record codec and putting a batch into a memdb. */
module Batches {
  import opened Keys
  import opened Varint
  import opened InternalKeys
  import opened MemDb

  const BATCH_HEADER_LEN: nat := 12

  datatype BatchRec = BatchRec(kt: KeyType, key: Bytes, value: Bytes)
  datatype BatchIndex = BatchIndex(kt: KeyType, keyPos: nat, keyLen: nat, valuePos: nat, valueLen: nat)

  /** A deletion has no value, and lengths fit 64 bits. */
  predicate WfRec(r: BatchRec) {
    (r.kt.Del? ==> r.value == []) && |r.key| < U64 && |r.value| < U64
  }

  ghost predicate WfRecs(recs: seq<BatchRec>) {
    forall i :: 0 <= i < |recs| ==> WfRec(recs[i])
  }

  function PutLenBytes(x: Bytes): (b: Bytes)
    ensures |b| >= 1
  {
    PutUvarint(|x|) + x
  }

  function EncodeRec(r: BatchRec): (b: Bytes)
    ensures |b| >= 2
  {
    [KindNum(r.kt)] + (PutLenBytes(r.key) + if r.kt.Val? then PutLenBytes(r.value) else [])
  }

  function EncodeRecs(recs: seq<BatchRec>): Bytes {
    if recs == [] then [] else EncodeRec(recs[0]) + EncodeRecs(recs[1..])
  }

  lemma {:induction false} EncodeConcat(a: seq<BatchRec>, b: seq<BatchRec>)
    ensures EncodeRecs(a + b) == EncodeRecs(a) + EncodeRecs(b)
  {
    hide EncodeRec;
    if a == [] {
      assert a + b == b;
    } else {
      EncodeConcat(a[1..], b);
      assert (a + b)[0] == a[0] && (a + b)[1..] == a[1..] + b;
      Regrouped(EncodeRec(a[0]), EncodeRecs(a[1..]), EncodeRecs(b));
    }
  }

  lemma Regrouped(x: Bytes, y: Bytes, z: Bytes)
    ensures x + (y + z) == x + y + z
  {
  }

  // ----- decoding

  /** A length and that many bytes at `o`: where they start and how many they are. */
  function ReadLen(data: Bytes, o: nat): (r: Option<(nat, nat)>)
    requires o <= |data|
    ensures r.Some? ==> o < r.value.0 && r.value.0 + r.value.1 <= |data|
  {
    var u := Uvarint(data[o..]);
    if u.None? then None
    else if o + u.value.1 + u.value.0 > |data| then None
    else Some((o + u.value.1, u.value.0))
  }

  /** One turn of `decodeBatch`: the index of the record at `o` and the position after it. */
  function ReadIndex(data: Bytes, o: nat): (r: Option<(BatchIndex, nat)>)
    requires o < |data|
    ensures r.Some? ==> o < r.value.1 <= |data| && Within(data, r.value.0)
  {
    if data[o] > 1 then None
    else
      var key := ReadLen(data, o + 1);
      if key.None? then None
      else
        var (keyPos, keyLen) := key.value;
        if data[o] == 1 then
          var value := ReadLen(data, keyPos + keyLen);
          if value.None? then None
          else Some((BatchIndex(Val, keyPos, keyLen, value.value.0, value.value.1), value.value.0 + value.value.1))
        else Some((BatchIndex(Del, keyPos, keyLen, 0, 0), keyPos + keyLen))
  }

  predicate Within(data: Bytes, x: BatchIndex) {
    x.keyPos + x.keyLen <= |data| && (x.valueLen != 0 ==> x.valuePos + x.valueLen <= |data|)
  }

  /** `batchIndex.k` and `batchIndex.v`. */
  function RecOf(data: Bytes, x: BatchIndex): BatchRec
    requires Within(data, x)
  {
    BatchRec(x.kt, data[x.keyPos..x.keyPos + x.keyLen], if x.valueLen != 0 then data[x.valuePos..x.valuePos + x.valueLen] else [])
  }

  /** `decodeBatch`: the records, or `None` where it reports a bad record. */
  function DecodeFrom(data: Bytes, o: nat): Option<seq<BatchRec>>
    requires o <= |data|
    decreases |data| - o
  {
    if o == |data| then Some([])
    else
      var x := ReadIndex(data, o);
      if x.None? then None
      else
        var rest := DecodeFrom(data, x.value.1);
        if rest.None? then None else Some([RecOf(data, x.value.0)] + rest.value)
  }

  lemma ReadLenOf(pre: Bytes, x: Bytes, post: Bytes)
    requires |x| < U64
    ensures var data, at := pre + PutLenBytes(x) + post, |pre| + |PutUvarint(|x|)|;
            ReadLen(data, |pre|) == Some((at, |x|)) && data[at..at + |x|] == x
  {
    var data := pre + PutLenBytes(x) + post;
    var head := PutUvarint(|x|);
    hide PutUvarint, Uvarint;
    assert data[|pre|..] == head + (x + post);
    UvarintRoundTrip(|x|, x + post);
    assert data == pre + head + x + post;
  }

  /** A record is read back from between whatever else there is. */
  lemma ReadIndexOf(pre: Bytes, r: BatchRec, post: Bytes)
    requires WfRec(r)
    ensures var data := pre + EncodeRec(r) + post;
            ReadIndex(data, |pre|).Some? && ReadIndex(data, |pre|).value.1 == |pre| + |EncodeRec(r)|
            && RecOf(data, ReadIndex(data, |pre|).value.0) == r
  {
    hide PutLenBytes, ReadLen;
    var data, tag, key := pre + EncodeRec(r) + post, pre + [KindNum(r.kt)], PutLenBytes(r.key);
    var value := if r.kt.Val? then PutLenBytes(r.value) else [];
    assert data[|pre|] == KindNum(r.kt) && |tag| == |pre| + 1;
    assert data == tag + key + (value + post);
    ReadLenOf(tag, r.key, value + post);
    LenParts(r.key);
    if r.kt.Val? {
      assert data == (tag + key) + value + post;
      ReadLenOf(tag + key, r.value, post);
      LenParts(r.value);
    }
  }

  lemma LenParts(x: Bytes)
    ensures |PutLenBytes(x)| == |PutUvarint(|x|)| + |x|
  {
  }

  /** Decoding what was encoded. */
  lemma {:induction false} DecodeEncoded(pre: Bytes, recs: seq<BatchRec>)
    requires WfRecs(recs)
    ensures DecodeFrom(pre + EncodeRecs(recs), |pre|) == Some(recs)
    decreases |recs|
  {
    hide EncodeRec, ReadIndex, RecOf;
    if recs == [] {
      assert pre + EncodeRecs(recs) == pre;
    } else {
      var post := EncodeRecs(recs[1..]);
      assert pre + EncodeRecs(recs) == pre + EncodeRec(recs[0]) + post;
      ReadIndexOf(pre, recs[0], post);
      DecodeEncoded(pre + EncodeRec(recs[0]), recs[1..]);
      assert recs == [recs[0]] + recs[1..];
    }
  }

  // ----- batches

  function InternalLen(recs: seq<BatchRec>): nat {
    if recs == [] then 0 else InternalLen(recs[..|recs| - 1]) + |recs[|recs| - 1].key| + |recs[|recs| - 1].value| + 8
  }

  lemma {:induction false} InternalLenConcat(a: seq<BatchRec>, b: seq<BatchRec>)
    ensures InternalLen(a + b) == InternalLen(a) + InternalLen(b)
  {
    if b == [] {
      assert a + b == a;
    } else {
      InternalLenConcat(a, b[..|b| - 1]);
      assert (a + b)[..|a + b| - 1] == a + b[..|b| - 1];
    }
  }

  /** `x` points at `r` inside `data`. */
  ghost predicate PointsAt(data: Bytes, x: BatchIndex, r: BatchRec) {
    Within(data, x) && RecOf(data, x) == r
  }

  ghost predicate Indexed(data: Bytes, index: seq<BatchIndex>, recs: seq<BatchRec>) {
    |index| == |recs| && forall i :: 0 <= i < |index| ==> PointsAt(data, index[i], recs[i])
  }

  lemma PointsStill(data: Bytes, more: Bytes, x: BatchIndex, r: BatchRec)
    requires PointsAt(data, x, r)
    ensures PointsAt(data + more, x, r)
  {
    assert (data + more)[x.keyPos..x.keyPos + x.keyLen] == data[x.keyPos..x.keyPos + x.keyLen];
    if x.valueLen != 0 {
      assert (data + more)[x.valuePos..x.valuePos + x.valueLen] == data[x.valuePos..x.valuePos + x.valueLen];
    }
  }

  /** The index entry `append` makes of one of the other batch. */
  function Shifted(x: BatchIndex, ob: nat): BatchIndex {
    x.(keyPos := x.keyPos + ob, valuePos := if x.valueLen != 0 then x.valuePos + ob else x.valuePos)
  }

  lemma PointsShifted(data: Bytes, more: Bytes, x: BatchIndex, r: BatchRec)
    requires PointsAt(more, x, r)
    ensures PointsAt(data + more, Shifted(x, |data|), r)
  {
    var y, all := Shifted(x, |data|), data + more;
    assert all[y.keyPos..y.keyPos + y.keyLen] == more[x.keyPos..x.keyPos + x.keyLen];
    if x.valueLen != 0 {
      assert all[y.valuePos..y.valuePos + y.valueLen] == more[x.valuePos..x.valuePos + x.valueLen];
    }
  }

  /** A memdb after the puts of `recs` numbered from `sn` on. */
  function AfterPuts(m: map<Bytes, Bytes>, recs: seq<BatchRec>, sn: nat): map<Bytes, Bytes> {
    if recs == [] then m
    else
      var r, m' := recs[|recs| - 1], AfterPuts(m, recs[..|recs| - 1], sn);
      match MakeInternalKey(r.key, sn + |recs| - 1, r.kt)
      case Some(ik) => m'[ik := r.value]
      case None => m'
  }

  class Batch {
    var data: Bytes
    var index: seq<BatchIndex>
    var internalLen: nat
    ghost var recs: seq<BatchRec>

    ghost predicate Valid()
      reads this
    {
      WfRecs(recs) && data == EncodeRecs(recs) && Indexed(data, index, recs) && internalLen == InternalLen(recs)
    }

    constructor ()
      ensures Valid() && recs == []
    {
      data, index, internalLen, recs := [], [], 0, [];
    }

    /** `appendRec`; the value of a deletion is ignored. */
    method AppendRec(kt: KeyType, key: Bytes, value: Bytes)
      requires Valid() && |key| < U64 && |value| < U64
      modifies this
      ensures Valid() && recs == old(recs) + [BatchRec(kt, key, if kt.Val? then value else [])]
    {
      hide Indexed, WfRecs, EncodeRecs, InternalLen, PutUvarint;
      ghost var r := BatchRec(kt, key, if kt.Val? then value else []);
      var o := |data|;
      var head := [KindNum(kt)] + PutUvarint(|key|);
      var x := BatchIndex(kt, o + |head|, |key|, 0, 0);
      var d := head + key;
      if kt.Val? {
        d := d + PutUvarint(|value|);
        x := x.(valuePos := o + |d|, valueLen := |value|);
        d := d + value;
      }
      Appended(r, d);
      NewPoints(data, d, x, r, |head|);
      IndexMore(data, d, index, x, recs, r);
      EncodeConcat(recs, [r]);
      OneRec(recs, r);
      data := data + d;
      index := index + [x];
      internalLen := internalLen + x.keyLen + x.valueLen + 8;
      recs := recs + [r];
    }

    /** `append`: the records of another batch behind this one's. */
    method Append(p: Batch)
      requires Valid() && p.Valid() && p != this
      modifies this
      ensures Valid() && recs == old(recs) + p.recs
    {
      hide EncodeRecs, InternalLen;
      var ob := |data|;
      ghost var data0, index0 := data, index;
      data := data + p.data;
      var moved := p.index;
      if ob != 0 {
        moved := seq(|p.index|, k requires 0 <= k < |p.index| reads p => Shifted(p.index[k], ob));
      }
      forall k | 0 <= k < |index0| ensures PointsAt(data, index0[k], recs[k]) {
        PointsStill(data0, p.data, index0[k], recs[k]);
      }
      forall k | 0 <= k < |moved| ensures PointsAt(data, moved[k], p.recs[k]) {
        PointsShifted(data0, p.data, p.index[k], p.recs[k]);
        if ob == 0 { assert data == p.data; }
      }
      EncodeConcat(recs, p.recs);
      InternalLenConcat(recs, p.recs);
      index := index + moved;
      internalLen := internalLen + p.internalLen;
      recs := recs + p.recs;
    }

    /** `putMem`. */
    method PutMem(sn: nat, mdb: DB)
      requires Valid() && mdb.Valid() && sn + |recs| <= KEY_MAX_SEQ + 1
      modifies mdb
      ensures mdb.Valid() && ToMap(mdb.entries) == AfterPuts(old(ToMap(mdb.entries)), recs, sn)
    {
      hide *;
      IndexLen();
      NoPuts(ToMap(mdb.entries), recs, sn);
      for i := 0 to |index|
        invariant mdb.Valid() && ToMap(mdb.entries) == AfterPuts(old(ToMap(mdb.entries)), recs[..i], sn)
      {
        PointsParts(i);
        var ik := KeyOf(index[i].keyPos, index[i].keyLen, sn + i, index[i].kt);
        OnePut(old(ToMap(mdb.entries)), recs, i, sn, ik);
        mdb.Put(ik, if index[i].valueLen != 0 then data[index[i].valuePos..index[i].valuePos + index[i].valueLen] else []);
      }
      assert recs[..|index|] == recs;
    }

    lemma PointsParts(i: nat)
      requires Valid() && i < |index|
      ensures |index| == |recs|
      ensures var x := index[i];
              x.keyPos + x.keyLen <= |data| && data[x.keyPos..x.keyPos + x.keyLen] == recs[i].key && x.kt == recs[i].kt
              && (x.valueLen != 0 ==> x.valuePos + x.valueLen <= |data|)
              && (if x.valueLen != 0 then data[x.valuePos..x.valuePos + x.valueLen] else []) == recs[i].value
    {
      assert PointsAt(data, index[i], recs[i]);
    }

    method KeyOf(pos: nat, len: nat, sn: nat, kt: KeyType) returns (ik: Bytes)
      requires pos + len <= |data| && sn <= KEY_MAX_SEQ
      ensures MakeInternalKey(data[pos..pos + len], sn, kt) == Some(ik)
      ensures ParseInternalKey(ik) == Parsed(data[pos..pos + len], sn, kt)
    {
      ik := MakeInternalKey(data[pos..pos + len], sn, kt).value;
      ParseMakeInverse(data[pos..pos + len], sn, kt, ik);
    }

    lemma IndexLen()
      requires Valid()
      ensures |index| == |recs|
    {
    }
  }

  lemma NoPuts(m: map<Bytes, Bytes>, recs: seq<BatchRec>, sn: nat)
    ensures AfterPuts(m, recs[..0], sn) == m
  {
  }

  lemma OnePut(m: map<Bytes, Bytes>, recs: seq<BatchRec>, i: nat, sn: nat, ik: Bytes)
    requires i < |recs| && MakeInternalKey(recs[i].key, sn + i, recs[i].kt) == Some(ik)
    ensures AfterPuts(m, recs[..i + 1], sn) == AfterPuts(m, recs[..i], sn)[ik := recs[i].value]
  {
    hide MakeInternalKey;
    assert recs[..i + 1][..i] == recs[..i];
  }

  lemma Appended(r: BatchRec, d: Bytes)
    requires d == [KindNum(r.kt)] + PutUvarint(|r.key|) + r.key + if r.kt.Val? then PutUvarint(|r.value|) + r.value else []
    ensures d == EncodeRec(r)
  {
    hide PutUvarint;
  }

  lemma NewPoints(data: Bytes, d: Bytes, x: BatchIndex, r: BatchRec, head: nat)
    requires head + |r.key| <= |d| && d[head..head + |r.key|] == r.key && x.kt == r.kt && x.keyPos == |data| + head && x.keyLen == |r.key|
    requires x.valueLen == |r.value|
    requires r.value != [] ==> x.valuePos == |data| + |d| - |r.value| && |r.value| <= |d| && d[|d| - |r.value|..] == r.value
    ensures PointsAt(data + d, x, r)
  {
    var all := data + d;
    assert all[x.keyPos..x.keyPos + x.keyLen] == d[head..head + |r.key|];
    if r.value != [] {
      assert all[x.valuePos..x.valuePos + x.valueLen] == d[|d| - |r.value|..];
    }
  }

  lemma IndexMore(data: Bytes, d: Bytes, index: seq<BatchIndex>, x: BatchIndex, recs: seq<BatchRec>, r: BatchRec)
    requires Indexed(data, index, recs) && PointsAt(data + d, x, r) && WfRecs(recs) && WfRec(r)
    ensures Indexed(data + d, index + [x], recs + [r]) && WfRecs(recs + [r])
  {
    forall k | 0 <= k < |index| ensures PointsAt(data + d, index[k], recs[k]) {
      PointsStill(data, d, index[k], recs[k]);
    }
    hide PointsAt;
  }

  lemma OneRec(recs: seq<BatchRec>, r: BatchRec)
    ensures EncodeRecs([r]) == EncodeRec(r) && InternalLen(recs + [r]) == InternalLen(recs) + |r.key| + |r.value| + 8
  {
    assert [r][1..] == [] && (recs + [r])[..|recs|] == recs;
  }
}
