/** Batches through the journal and back: what `recoverJournal` puts into the memdb after a crash. */
module Recovery {
  import opened Keys
  import opened InternalKeys
  import opened MemDb
  import opened JournalFormat
  import opened JournalReader
  import opened JournalWriter
  import opened Batches

  /** The merged batches of one journal record, numbered from `sn` on. */
  datatype Group = Group(sn: nat, recs: seq<BatchRec>)

  function EncodeHeader(sn: nat, batchLen: nat): (h: Bytes)
    ensures |h| == BATCH_HEADER_LEN
  {
    PutFixed(sn, 8) + PutFixed(batchLen, 4)
  }

  function GroupBytes(g: Group): Bytes {
    EncodeHeader(g.sn, |g.recs|) + EncodeRecs(g.recs)
  }

  ghost predicate WfGroup(g: Group) {
    WfRecs(g.recs) && |g.recs| < 0x1_0000_0000 && g.sn + |g.recs| <= KEY_MAX_SEQ + 1
  }

  /** All records of some batches. */
  ghost function Joined(bs: seq<Batch>): seq<BatchRec>
    reads bs
  {
    if bs == [] then [] else Joined(bs[..|bs| - 1]) + bs[|bs| - 1].recs
  }

  /** `batchesLen`. */
  method BatchesLen(bs: seq<Batch>) returns (n: nat)
    requires forall i :: 0 <= i < |bs| ==> bs[i].Valid()
    ensures n == |Joined(bs)|
  {
    n := 0;
    assert bs[..0] == [];
    for i := 0 to |bs|
      invariant n == |Joined(bs[..i])|
    {
      n := n + |bs[i].index|;
      assert bs[..i + 1][..i] == bs[..i];
    }
    assert bs[..|bs|] == bs;
  }

  /** `writeBatchesWithHeader`: one journal record holds the header and all batches. */
  method WriteBatches(w: Writer, bs: seq<Batch>, sn: nat)
    requires w.Valid() && w.pending && w.cur == [] && forall i :: 0 <= i < |bs| ==> bs[i].Valid()
    modifies w, w.buf
    ensures w.Valid() && w.pending && w.done == old(w.done) && w.cur == GroupBytes(Group(sn, Joined(bs)))
  {
    hide *;
    var n := BatchesLen(bs);
    w.Write(EncodeHeader(sn, n));
    NoneJoined(bs);
    EncodeNone();
    ghost var header := w.cur;
    for i := 0 to |bs|
      invariant w.Valid() && w.pending && w.done == old(w.done) && w.cur == header + EncodeRecs(Joined(bs[..i]))
    {
      BatchParts(bs[i]);
      w.Write(bs[i].data);
      OneJoined(bs, i);
      EncodeConcat(Joined(bs[..i]), bs[i].recs);
    }
    assert bs[..|bs|] == bs;
    GroupIs(sn, Joined(bs));
  }

  lemma BatchParts(b: Batch)
    requires b.Valid()
    ensures |b.index| == |b.recs| && b.data == EncodeRecs(b.recs)
  {
  }

  lemma NoneJoined(bs: seq<Batch>)
    ensures Joined(bs[..0]) == []
  {
  }

  lemma OneJoined(bs: seq<Batch>, i: nat)
    requires i < |bs|
    ensures Joined(bs[..i + 1]) == Joined(bs[..i]) + bs[i].recs
  {
    assert bs[..i + 1][..i] == bs[..i];
  }

  lemma GroupIs(sn: nat, recs: seq<BatchRec>)
    ensures GroupBytes(Group(sn, recs)) == [] + EncodeHeader(sn, |recs|) + EncodeRecs(recs)
  {
    hide EncodeHeader, EncodeRecs;
  }

  lemma EncodeNone()
    ensures EncodeRecs([]) == []
  {
  }

  /** `putMem` for each batch in turn, as `writeLocked` does it: the same puts as for one batch of all records. */
  method PutBatches(bs: seq<Batch>, first: nat, mdb: DB)
    requires mdb.Valid() && (forall i :: 0 <= i < |bs| ==> bs[i].Valid()) && first + |Joined(bs)| <= KEY_MAX_SEQ + 1
    modifies mdb
    ensures mdb.Valid() && ToMap(mdb.entries) == AfterPuts(old(ToMap(mdb.entries)), Joined(bs), first)
  {
    hide *;
    var sn := first;
    ghost var m := ToMap(mdb.entries);
    NoneJoined(bs);
    NoPuts(m, [], first);
    for i := 0 to |bs|
      invariant mdb.Valid() && sn == first + |Joined(bs[..i])|
      invariant ToMap(mdb.entries) == AfterPuts(m, Joined(bs[..i]), first)
    {
      OneJoined(bs, i);
      JoinedGrows(bs, i);
      BatchParts(bs[i]);
      bs[i].PutMem(sn, mdb);
      PutsConcat(m, Joined(bs[..i]), bs[i].recs, first);
      sn := sn + |bs[i].index|;
    }
    assert bs[..|bs|] == bs;
  }

  lemma {:induction false} JoinedGrows(bs: seq<Batch>, i: nat)
    requires i < |bs|
    ensures |Joined(bs[..i])| + |bs[i].recs| <= |Joined(bs)|
    decreases |bs|
  {
    var n := |bs| - 1;
    if i < n {
      JoinedGrows(bs[..n], i);
      assert bs[..n][..i] == bs[..i];
    }
  }

  lemma {:induction false} PutsConcat(m: map<Bytes, Bytes>, a: seq<BatchRec>, b: seq<BatchRec>, sn: nat)
    ensures AfterPuts(AfterPuts(m, a, sn), b, sn + |a|) == AfterPuts(m, a + b, sn)
    decreases |b|
  {
    hide MakeInternalKey;
    if b == [] {
      assert a + b == a;
    } else {
      PutsConcat(m, a, b[..|b| - 1], sn);
      assert (a + b)[..|a + b| - 1] == a + b[..|b| - 1];
    }
  }

  // ----- decoding into a memdb

  datatype DecodeResult = Decoded(sn: nat, batchLen: nat) | Corrupted

  /** `decodeBatchToMem`; a sequence number past the limit, on which the original panics, counts as corrupted. */
  method DecodeBatchToMem(data: Bytes, expectSeq: nat, mdb: DB) returns (r: DecodeResult)
    requires mdb.Valid()
    modifies mdb
    ensures mdb.Valid()
    ensures forall g: Group :: WfGroup(g) && data == GroupBytes(g) ==>
              (r.Decoded? <==> g.sn >= expectSeq)
              && (r.Decoded? ==> r.sn == g.sn && r.batchLen == |g.recs| && ToMap(mdb.entries) == AfterPuts(old(ToMap(mdb.entries)), g.recs, g.sn))
              && (r.Corrupted? ==> mdb.entries == old(mdb.entries))
  {
    hide *;
    ghost var m := ToMap(mdb.entries);
    ForGroup(data);
    if |data| < BATCH_HEADER_LEN {
      return Corrupted;
    }
    var sn, batchLen := Fixed(data[..8]), Fixed(data[8..12]);
    if sn < expectSeq {
      return Corrupted;
    }
    r := Replay(data[12..], sn, batchLen, mdb);
  }

  /** The header and the records that a group's bytes hold. */
  lemma ForGroup(data: Bytes)
    ensures BATCH_HEADER_LEN == 12
    ensures forall g: Group :: WfGroup(g) && data == GroupBytes(g) ==>
              |data| >= 12 && Fixed(data[..8]) == g.sn && Fixed(data[8..12]) == |g.recs| && data[12..] == EncodeRecs(g.recs)
              && WfRecs(g.recs) && |g.recs| < 0x1_0000_0000 && g.sn + |g.recs| <= KEY_MAX_SEQ + 1
  {
    forall g: Group | WfGroup(g) && data == GroupBytes(g)
      ensures |data| >= 12 && Fixed(data[..8]) == g.sn && Fixed(data[8..12]) == |g.recs| && data[12..] == EncodeRecs(g.recs)
    {
      GroupParts(g);
    }
  }

  lemma GroupParts(g: Group)
    requires WfGroup(g)
    ensures var data := GroupBytes(g);
            |data| >= 12 && Fixed(data[..8]) == g.sn && Fixed(data[8..12]) == |g.recs| && data[12..] == EncodeRecs(g.recs)
  {
    hide EncodeRecs, Fixed, PutFixed, WfRecs;
    var data := GroupBytes(g);
    FixedRoundTrip(g.sn, 8) by { assert Pow256(4) == 0x1_0000_0000 && Pow256(8) == 0x1_0000_0000_0000_0000; }
    FixedRoundTrip(|g.recs|, 4) by { assert Pow256(4) == 0x1_0000_0000; }
    assert data[..8] == PutFixed(g.sn, 8) && data[8..12] == PutFixed(|g.recs|, 4) && data[12..] == EncodeRecs(g.recs);
  }

  /** The `decodeBatch` loop with the function `decodeBatchToMem` passes it. */
  method Replay(data: Bytes, sn: nat, batchLen: nat, mdb: DB) returns (r: DecodeResult)
    requires mdb.Valid()
    modifies mdb
    ensures mdb.Valid()
    ensures forall recs: seq<BatchRec> :: WfRecs(recs) && data == EncodeRecs(recs) && |recs| == batchLen && sn + |recs| <= KEY_MAX_SEQ + 1 ==>
              r == Decoded(sn, batchLen) && ToMap(mdb.entries) == AfterPuts(old(ToMap(mdb.entries)), recs, sn)
  {
    hide EncodeRecs, WfRecs, ToMap, AfterPuts, ReadIndex, MakeInternalKey, RecOf, DecodeFrom, DB.Valid;
    ghost var m, got: seq<BatchRec>, all := ToMap(mdb.entries), [], DecodeFrom(data, 0);
    EncodedAll(data);
    AtStart(data);
    NoPuts(m, [], sn);
    var o, i := 0, 0;
    while o < |data|
      invariant 0 <= o <= |data| && i == |got| && mdb.Valid() && ToMap(mdb.entries) == AfterPuts(m, got, sn)
      invariant Ahead(data, o, got) == all
      decreases |data| - o
    {
      DecodeStep(data, o);
      var x := ReadIndex(data, o);
      if x.None? {
        return Corrupted;
      }
      var rec := RecOf(data, x.value.0);
      ghost var rest := DecodeFrom(data, x.value.1);
      assert rest.Some? ==> got + ([rec] + rest.value) == (got + [rec]) + rest.value;
      if i >= batchLen {
        return Corrupted;
      }
      var ik := MakeInternalKey(rec.key, sn + i, rec.kt);
      if ik.None? {
        TooFar(rec.key, sn + i, rec.kt);
        return Corrupted;
      }
      OnePutMore(m, got, rec, sn, ik.value);
      mdb.Put(ik.value, rec.value);
      got := got + [rec];
      o, i := x.value.1, i + 1;
    }
    AtEnd(data, got);
    if i != batchLen {
      return Corrupted;
    }
    return Decoded(sn, batchLen);
  }

  /** The records decoded so far and those still ahead. */
  ghost function Ahead(data: Bytes, o: nat, got: seq<BatchRec>): Option<seq<BatchRec>>
    requires o <= |data|
  {
    var rest := DecodeFrom(data, o);
    if rest.None? then None else Some(got + rest.value)
  }

  lemma DecodeStep(data: Bytes, o: nat)
    requires o < |data|
    ensures var x := ReadIndex(data, o);
            DecodeFrom(data, o) ==
            if x.None? || DecodeFrom(data, x.value.1).None? then None
            else Some([RecOf(data, x.value.0)] + DecodeFrom(data, x.value.1).value)
  {
    hide ReadIndex, RecOf;
  }

  lemma AtEnd(data: Bytes, got: seq<BatchRec>)
    ensures Ahead(data, |data|, got) == Some(got)
  {
    assert got + [] == got;
  }

  lemma AtStart(data: Bytes)
    ensures Ahead(data, 0, []) == DecodeFrom(data, 0)
  {
    var all := DecodeFrom(data, 0);
    assert all.Some? ==> [] + all.value == all.value;
  }

  lemma EncodedAll(data: Bytes)
    ensures forall recs: seq<BatchRec> :: WfRecs(recs) && data == EncodeRecs(recs) ==> DecodeFrom(data, 0) == Some(recs)
  {
    forall recs: seq<BatchRec> | WfRecs(recs) && data == EncodeRecs(recs) ensures DecodeFrom(data, 0) == Some(recs) {
      DecodeEncoded([], recs);
      assert [] + EncodeRecs(recs) == data;
    }
  }

  lemma TooFar(key: Bytes, sn: nat, kt: KeyType)
    requires MakeInternalKey(key, sn, kt).None?
    ensures sn > KEY_MAX_SEQ
  {
  }

  lemma OnePutMore(m: map<Bytes, Bytes>, got: seq<BatchRec>, rec: BatchRec, sn: nat, ik: Bytes)
    requires MakeInternalKey(rec.key, sn + |got|, rec.kt) == Some(ik)
    ensures AfterPuts(m, got + [rec], sn) == AfterPuts(m, got, sn)[ik := rec.value]
  {
    hide MakeInternalKey, AfterPuts;
    OnePut(m, got + [rec], |got|, sn, ik);
    assert (got + [rec])[..|got|] == got && (got + [rec])[..|got| + 1] == got + [rec];
  }

  // ----- recovering a journal

  /** Numbered in journal order, from `from` on. */
  ghost predicate InSequence(gs: seq<Group>, from: nat) {
    (forall i :: 0 <= i < |gs| ==> WfGroup(gs[i]) && gs[i].sn >= from)
    && forall i, j :: 0 <= i < j < |gs| ==> gs[i].sn + |gs[i].recs| <= gs[j].sn
  }

  function AllBytes(gs: seq<Group>): (bs: seq<Bytes>)
    ensures |bs| == |gs|
  {
    seq(|gs|, i requires 0 <= i < |gs| => GroupBytes(gs[i]))
  }

  /** A memdb after the puts of some groups. */
  function AfterGroups(m: map<Bytes, Bytes>, gs: seq<Group>): map<Bytes, Bytes> {
    if gs == [] then m else AfterPuts(AfterGroups(m, gs[..|gs| - 1]), gs[|gs| - 1].recs, gs[|gs| - 1].sn)
  }

  /** `db.seq` after recovering them: one past the last number used. */
  function SeqAfter(gs: seq<Group>, from: nat): nat {
    if gs == [] then from else gs[|gs| - 1].sn + |gs[|gs| - 1].recs|
  }

  /** The groups that replay takes, in order: one that starts below the number reached counts as corrupted and is skipped. */
  function Accepted(gs: seq<Group>, from: nat): seq<Group> {
    if gs == [] then []
    else
      var before, g := Accepted(gs[..|gs| - 1], from), gs[|gs| - 1];
      if g.sn >= SeqAfter(before, from) then before + [g] else before
  }

  /** All groups are taken exactly when they are numbered in journal order. */
  lemma {:induction false} AllAccepted(gs: seq<Group>, from: nat)
    requires forall i :: 0 <= i < |gs| ==> WfGroup(gs[i])
    ensures |Accepted(gs, from)| <= |gs|
    ensures Accepted(gs, from) == gs <==> InSequence(gs, from)
  {
    hide WfGroup;
    if gs != [] {
      var n := |gs| - 1;
      AllAccepted(gs[..n], from);
      if InSequence(gs, from) {
        assert InSequence(gs[..n], from);
        LastFits(gs, from);
      }
      if Accepted(gs, from) == gs {
        assert gs == gs[..n] + [gs[n]];
        assert Accepted(gs[..n], from) == gs[..n];
        StillInSequence(gs, from);
      }
    }
  }

  lemma LastFits(gs: seq<Group>, from: nat)
    requires InSequence(gs, from) && gs != []
    ensures gs[|gs| - 1].sn >= SeqAfter(gs[..|gs| - 1], from) && gs[..|gs| - 1] + [gs[|gs| - 1]] == gs
  {
    hide WfGroup;
  }

  lemma StillInSequence(gs: seq<Group>, from: nat)
    requires gs != [] && WfGroup(gs[|gs| - 1]) && InSequence(gs[..|gs| - 1], from) && gs[|gs| - 1].sn >= SeqAfter(gs[..|gs| - 1], from)
    ensures InSequence(gs, from)
  {
    hide WfGroup;
    var n := |gs| - 1;
    forall i | 0 <= i < n ensures gs[i].sn + |gs[i].recs| <= gs[n].sn && gs[n].sn >= from {
      assert gs[..n][i] == gs[i] && gs[..n][n - 1] == gs[n - 1];
    }
    assert forall i :: 0 <= i < n ==> gs[..n][i] == gs[i];
  }

  /** Of two groups at the same number the second is skipped, whatever it holds. */
  lemma SameNumberSkipped(gs: seq<Group>, a: Group, b: Group, from: nat)
    requires a.sn == b.sn && a.recs != [] && a.sn >= SeqAfter(Accepted(gs, from), from)
    ensures Accepted(gs + [a] + [b], from) == Accepted(gs, from) + [a]
  {
    assert (gs + [a] + [b])[..|gs| + 1] == gs + [a] && (gs + [a])[..|gs|] == gs;
  }

  // ----- flushes on the way

  /** Tables flushed one after the other, read together. */
  ghost function Together(tables: seq<map<Bytes, Bytes>>): map<Bytes, Bytes> {
    if tables == [] then map[] else Together(tables[..|tables| - 1]) + tables[|tables| - 1]
  }

  /** What the tables and the memdb hold. */
  ghost function Held(tables: seq<map<Bytes, Bytes>>, m: map<Bytes, Bytes>): map<Bytes, Bytes> {
    Together(tables) + m
  }

  lemma HeldPuts(tables: seq<map<Bytes, Bytes>>, m: map<Bytes, Bytes>, g: Group)
    ensures Held(tables, AfterPuts(m, g.recs, g.sn)) == AfterPuts(Held(tables, m), g.recs, g.sn)
  {
    PutsOver(Together(tables), m, g.recs, g.sn);
  }

  lemma HeldIs(tables: seq<map<Bytes, Bytes>>)
    ensures Held(tables, map[]) == Together(tables)
  {
  }

  lemma TogetherSnoc(tables: seq<map<Bytes, Bytes>>, t: map<Bytes, Bytes>)
    ensures Held(tables + [t], map[]) == Held(tables, t)
  {
    assert (tables + [t])[..|tables|] == tables;
  }

  /** Puts go on top of whatever is below. */
  lemma {:induction false} PutsOver(a: map<Bytes, Bytes>, b: map<Bytes, Bytes>, recs: seq<BatchRec>, sn: nat)
    ensures AfterPuts(a + b, recs, sn) == a + AfterPuts(b, recs, sn)
  {
    hide MakeInternalKey;
    if recs != [] {
      PutsOver(a, b, recs[..|recs| - 1], sn);
    }
  }

  lemma AcceptedSnoc(gs: seq<Group>, g: Group, from: nat)
    ensures Accepted([], from) == []
    ensures var taken := Accepted(gs, from);
            Accepted(gs + [g], from) == if g.sn >= SeqAfter(taken, from) then taken + [g] else taken
  {
    assert (gs + [g])[..|gs + [g]| - 1] == gs;
    hide SeqAfter;
  }

  lemma SeqAfterConcat(a: seq<Group>, b: seq<Group>, from: nat)
    ensures SeqAfter(a + b, from) == SeqAfter(b, SeqAfter(a, from))
  {
  }

  lemma {:induction false} AcceptedConcat(a: seq<Group>, b: seq<Group>, from: nat)
    ensures Accepted(a + b, from) == Accepted(a, from) + Accepted(b, SeqAfter(Accepted(a, from), from))
    ensures SeqAfter(Accepted(a + b, from), from) == SeqAfter(Accepted(b, SeqAfter(Accepted(a, from), from)), SeqAfter(Accepted(a, from), from))
  {
    hide Accepted, SeqAfter;
    var taken := Accepted(a, from);
    var mid := SeqAfter(taken, from);
    if b == [] {
      assert a + b == a;
      AcceptedSnoc(a, Group(0, []), mid);
    } else {
      var c, g := b[..|b| - 1], b[|b| - 1];
      AcceptedConcat(a, c, from);
      AcceptedSnoc(a + c, g, from);
      AcceptedSnoc(c, g, mid);
      assert a + b == a + c + [g] && b == c + [g];
      assert taken + (Accepted(c, mid) + [g]) == taken + Accepted(c, mid) + [g];
    }
    SeqAfterConcat(taken, Accepted(b, mid), from);
  }

  lemma {:induction false} GroupsConcat(m: map<Bytes, Bytes>, a: seq<Group>, b: seq<Group>)
    ensures AfterGroups(m, a + b) == AfterGroups(AfterGroups(m, a), b)
  {
    hide AfterPuts;
    if b == [] {
      assert a + b == a;
    } else {
      GroupsConcat(m, a, b[..|b| - 1]);
      assert (a + b)[..|a + b| - 1] == a + b[..|b| - 1];
    }
  }

  lemma {:induction false} GroupsOver(a: map<Bytes, Bytes>, b: map<Bytes, Bytes>, gs: seq<Group>)
    ensures AfterGroups(a + b, gs) == a + AfterGroups(b, gs)
  {
    hide AfterPuts;
    if gs != [] {
      var n := |gs| - 1;
      GroupsOver(a, b, gs[..n]);
      PutsOver(a, AfterGroups(b, gs[..n]), gs[n].recs, gs[n].sn);
    }
  }

  /** A memdb that has reached the write buffer's size is not left so. */
  ghost predicate Below(mdb: DB, writeBuffer: int)
    reads mdb
  {
    mdb.kvSize == 0 || mdb.kvSize < writeBuffer
  }

  /** A table whose keys and values together have reached it. */
  ghost predicate Reaches(cmp: Cmp, t: map<Bytes, Bytes>, writeBuffer: int) {
    exists es :: Ascending(cmp, es) && ToMap(es) == t && Bytesize(es) >= writeBuffer
  }

  lemma SizeOfEntries(mdb: DB, writeBuffer: int)
    requires mdb.Valid()
    ensures mdb.kvSize == Bytesize(mdb.entries) && (mdb.entries == [] ==> mdb.kvSize == 0)
    ensures mdb.kvSize >= writeBuffer ==> Reaches(mdb.cmp, ToMap(mdb.entries), writeBuffer)
  {
    hide TotalOrder, Ascending, Layout, Linked, Stored, ToMap;
  }

  /** `flushMemdb` and `Reset`: the memdb's contents become a table, and it is empty again. */
  method FlushMemDb(mdb: DB, ghost tables: seq<map<Bytes, Bytes>>) returns (ghost tables': seq<map<Bytes, Bytes>>)
    requires mdb.Valid()
    modifies mdb
    ensures mdb.Valid() && ToMap(mdb.entries) == map[] && mdb.kvSize == 0
    ensures tables' == tables + [old(ToMap(mdb.entries))] && Held(tables', map[]) == Held(tables, old(ToMap(mdb.entries)))
  {
    hide DB.Valid;
    tables' := tables + [ToMap(mdb.entries)];
    TogetherSnoc(tables, ToMap(mdb.entries));
    mdb.Reset();
    SizeOfEntries(mdb, 0);
  }

  /** The groups of a journal that lie wholly before the cut. */
  function Surviving(crc: Crc, gs: seq<Group>, c: nat): seq<Group> {
    gs[..Whole(crc, AllBytes(gs), c)]
  }

  /** The bytes of such a journal. */
  ghost predicate CutJournal(crc: Crc, s: Bytes, gs: seq<Group>, c: nat) {
    (forall i :: 0 <= i < |gs| ==> WfGroup(gs[i])) && c <= |Stream(crc, AllBytes(gs))| && s == Stream(crc, AllBytes(gs))[..c]
  }

  /** One turn of the replay loop: a record decodes into the memdb unless its number is too low. */
  method ReplayGroup(data: Bytes, mdb: DB, from: nat, writeBuffer: int, ghost tables0: seq<map<Bytes, Bytes>>, ghost g: Group)
      returns (seqNo: nat, ghost tables: seq<map<Bytes, Bytes>>)
    requires mdb.Valid() && WfGroup(g) && data == GroupBytes(g)
    modifies mdb
    ensures mdb.Valid()
    ensures var before := Held(tables0, old(ToMap(mdb.entries)));
            if g.sn >= from
            then Held(tables, ToMap(mdb.entries)) == AfterPuts(before, g.recs, g.sn) && seqNo == g.sn + |g.recs|
            else Held(tables, ToMap(mdb.entries)) == before && seqNo == from
    ensures (g.sn >= from || old(Below(mdb, writeBuffer))) ==> Below(mdb, writeBuffer)
    ensures tables == tables0 || (|tables| == |tables0| + 1 && tables[..|tables0|] == tables0 && Reaches(mdb.cmp, tables[|tables0|], writeBuffer))
  {
    hide *;
    tables, seqNo := tables0, from;
    HeldPuts(tables, ToMap(mdb.entries), g);
    SizeOfEntries(mdb, writeBuffer);
    IsBelow(mdb, writeBuffer);
    var r := DecodeBatchToMem(data, seqNo, mdb);
    SizeOfEntries(mdb, writeBuffer);
    IsBelow(mdb, writeBuffer);
    if r.Decoded? {
      seqNo := r.sn + r.batchLen;
      if mdb.kvSize >= writeBuffer {
        tables := FlushMemDb(mdb, tables);
      }
      IsBelow(mdb, writeBuffer);
    }
  }

  lemma IsBelow(mdb: DB, writeBuffer: int)
    ensures Below(mdb, writeBuffer) <==> mdb.kvSize == 0 || mdb.kvSize < writeBuffer
  {
  }

  /** All tables but the ones there were have reached the write buffer's size. */
  ghost predicate NewReach(cmp: Cmp, tables0: seq<map<Bytes, Bytes>>, tables: seq<map<Bytes, Bytes>>, writeBuffer: int) {
    tables0 <= tables && forall i :: |tables0| <= i < |tables| ==> Reaches(cmp, tables[i], writeBuffer)
  }

  lemma OneMoreReaches(cmp: Cmp, tables0: seq<map<Bytes, Bytes>>, tables: seq<map<Bytes, Bytes>>, more: seq<map<Bytes, Bytes>>, writeBuffer: int)
    requires NewReach(cmp, tables0, tables, writeBuffer)
    requires more == tables || (|more| == |tables| + 1 && more[..|tables|] == tables && Reaches(cmp, more[|tables|], writeBuffer))
    ensures NewReach(cmp, tables0, more, writeBuffer)
  {
    hide Reaches;
    if more != tables {
      forall i | |tables0| <= i < |more| ensures Reaches(cmp, more[i], writeBuffer) {
        assert i < |tables| ==> more[i] == more[..|tables|][i];
      }
    }
  }

  lemma NoneNew(cmp: Cmp, tables: seq<map<Bytes, Bytes>>, writeBuffer: int)
    ensures NewReach(cmp, tables, tables, writeBuffer)
  {
  }

  /** The replay loop of `recoverJournal` on a journal of the groups `gs` cut at byte `c`, flushing the memdb whenever it
      has reached the write buffer's size: together, the tables and the memdb then hold what the tables held before and
      exactly the puts of the groups that lie wholly before the cut and are not skipped for their number; each new table has
      reached that size, and the memdb has not. */
  method Recover(crc: Crc, checksum: bool, s: Bytes, mdb: DB, from: nat, writeBuffer: int, ghost tables0: seq<map<Bytes, Bytes>>,
                 ghost gs: seq<Group>, ghost c: nat) returns (seqNo: nat, ghost tables: seq<map<Bytes, Bytes>>)
    requires mdb.Valid() && CutJournal(crc, s, gs, c)
    modifies mdb
    ensures mdb.Valid()
    ensures var taken := Accepted(Surviving(crc, gs, c), from);
            Held(tables, ToMap(mdb.entries)) == AfterGroups(Together(tables0), taken) && seqNo == SeqAfter(taken, from)
    ensures NewReach(mdb.cmp, tables0, tables, writeBuffer) && Below(mdb, writeBuffer)
  {
    CutParts(crc, s, gs, c);
    hide *;
    ghost var m, bs := Together(tables0), AllBytes(gs);
    ghost var w := Whole(crc, bs, c);
    CutJournalReads(crc, checksum, bs, c);
    SurvivingIs(crc, gs, c);
    var jr := new Reader(crc, checksum, s);
    mdb.Reset();
    tables, seqNo := tables0, from;
    HeldIs(tables);
    EmptyMap(mdb);
    SizeOfEntries(mdb, writeBuffer);
    IsBelow(mdb, writeBuffer);
    NothingReplayed(m, gs, from);
    assert bs[0..w] == bs[..w];
    seqNo, tables := ReplayAll(jr, mdb, from, writeBuffer, tables, gs, w, m);
    AllReplayed(m, gs, from, w, Held(tables, ToMap(mdb.entries)), seqNo);
  }

  /** The loop on a reader at the start of its journal. */
  method ReplayAll(jr: Reader, mdb: DB, from: nat, writeBuffer: int, ghost tables0: seq<map<Bytes, Bytes>>,
                   ghost gs: seq<Group>, ghost w: nat, ghost m: map<Bytes, Bytes>)
      returns (seqNo: nat, ghost tables: seq<map<Bytes, Bytes>>)
    requires jr.Valid() && !jr.eof && w <= |gs| && AllFrom(jr.crc, jr.checksum, jr.s, jr.Pos()) == AllBytes(gs)[0..w]
    requires mdb.Valid() && Replayed(m, gs, from, 0, Held(tables0, ToMap(mdb.entries)), from)
    requires (forall i :: 0 <= i < |gs| ==> WfGroup(gs[i])) && Below(mdb, writeBuffer)
    modifies jr`r, jr`i, jr`j, jr`n, jr`base, jr`last, jr`eof, jr.buf, mdb
    ensures mdb.Valid() && Replayed(m, gs, from, w, Held(tables, ToMap(mdb.entries)), seqNo)
    ensures NewReach(mdb.cmp, tables0, tables, writeBuffer) && Below(mdb, writeBuffer)
  {
    hide *;
    seqNo, tables := from, tables0;
    ghost var k: nat := 0;
    NoneNew(mdb.cmp, tables, writeBuffer);
    var more := true;
    while more
      invariant jr.Valid() && mdb.Valid() && NewReach(mdb.cmp, tables0, tables, writeBuffer) && Below(mdb, writeBuffer)
      invariant k <= w && if more then !jr.eof && AllFrom(jr.crc, jr.checksum, jr.s, jr.Pos()) == AllBytes(gs)[k..w] else k == w
      invariant Replayed(m, gs, from, k, Held(tables, ToMap(mdb.entries)), seqNo)
      decreases more, if jr.Pos() <= |jr.s| then |jr.s| - jr.Pos() else 0
    {
      ghost var before := tables;
      more, seqNo, tables, k := Turn(jr, mdb, seqNo, writeBuffer, tables, gs, k, w, m, from);
      OneMoreReaches(mdb.cmp, tables0, before, tables, writeBuffer);
    }
  }

  /** One turn of the loop: read the next record and replay it. */
  method Turn(jr: Reader, mdb: DB, reached: nat, writeBuffer: int, ghost tables0: seq<map<Bytes, Bytes>>,
              ghost gs: seq<Group>, ghost k0: nat, ghost w: nat, ghost m: map<Bytes, Bytes>, ghost from: nat)
      returns (more: bool, seqNo: nat, ghost tables: seq<map<Bytes, Bytes>>, ghost k: nat)
    requires jr.Valid() && !jr.eof && k0 <= w <= |gs| && AllFrom(jr.crc, jr.checksum, jr.s, jr.Pos()) == AllBytes(gs)[k0..w]
    requires mdb.Valid() && Replayed(m, gs, from, k0, Held(tables0, ToMap(mdb.entries)), reached)
    requires (forall i :: 0 <= i < |gs| ==> WfGroup(gs[i])) && Below(mdb, writeBuffer)
    modifies jr`r, jr`i, jr`j, jr`n, jr`base, jr`last, jr`eof, jr.buf, mdb
    ensures jr.Valid() && mdb.Valid() && k <= w && Below(mdb, writeBuffer)
    ensures tables == tables0 || (|tables| == |tables0| + 1 && tables[..|tables0|] == tables0 && Reaches(mdb.cmp, tables[|tables0|], writeBuffer))
    ensures if more then !jr.eof && old(jr.Pos()) < jr.Pos() <= |jr.s| && AllFrom(jr.crc, jr.checksum, jr.s, jr.Pos()) == AllBytes(gs)[k..w]
            else k == w
    ensures Replayed(m, gs, from, k, Held(tables, ToMap(mdb.entries)), seqNo)
  {
    hide *;
    seqNo, tables, k := reached, tables0, k0;
    var data;
    more, data := ReadTurn(jr, AllBytes(gs), k, w);
    if more && data.Some? {
      GroupAt(gs, k);
      ghost var held := Held(tables, ToMap(mdb.entries));
      seqNo, tables := ReplayGroup(data.value, mdb, seqNo, writeBuffer, tables, gs[k]);
      OneReplayed(m, gs, from, k, held, reached, Held(tables, ToMap(mdb.entries)), seqNo);
      k := k + 1;
    }
  }

  /** One turn of reading: the next record of those left, one that breaks off, or the end. */
  method ReadTurn(jr: Reader, ghost bs: seq<Bytes>, ghost k: nat, ghost w: nat) returns (more: bool, data: Option<Bytes>)
    requires jr.Valid() && !jr.eof && k <= w <= |bs| && AllFrom(jr.crc, jr.checksum, jr.s, jr.Pos()) == bs[k..w]
    modifies jr`r, jr`i, jr`j, jr`n, jr`base, jr`last, jr`eof, jr.buf
    ensures jr.Valid() && (more ==> !jr.eof && old(jr.Pos()) < jr.Pos() <= |jr.s|)
    ensures if !more then k == w
            else if data.Some? then k < w && data.value == bs[k] && AllFrom(jr.crc, jr.checksum, jr.s, jr.Pos()) == bs[k + 1..w]
            else AllFrom(jr.crc, jr.checksum, jr.s, jr.Pos()) == bs[k..w]
  {
    hide *;
    more, data := jr.NextRecord();
    jr.Inside();
    if data.Some? && more {
      HeadOf(bs[k..w], data.value, AllFrom(jr.crc, jr.checksum, jr.s, jr.Pos()));
    }
  }

  lemma CutParts(crc: Crc, s: Bytes, gs: seq<Group>, c: nat)
    requires CutJournal(crc, s, gs, c)
    ensures (forall i :: 0 <= i < |gs| ==> WfGroup(gs[i])) && c <= |Stream(crc, AllBytes(gs))| && s == Stream(crc, AllBytes(gs))[..c]
  {
  }

  lemma SurvivingIs(crc: Crc, gs: seq<Group>, c: nat)
    ensures Whole(crc, AllBytes(gs), c) <= |gs| && Surviving(crc, gs, c) == gs[..Whole(crc, AllBytes(gs), c)]
  {
  }

  /** What survives of several journals, in order. */
  function AllSurviving(crc: Crc, gss: seq<seq<Group>>, cs: seq<nat>): seq<Group>
    requires |gss| == |cs|
  {
    if gss == [] then []
    else
      var n := |gss| - 1;
      AllSurviving(crc, gss[..n], cs[..n]) + Surviving(crc, gss[n], cs[n])
  }

  lemma NextJournal(crc: Crc, gss: seq<seq<Group>>, cs: seq<nat>, i: nat, m: map<Bytes, Bytes>, from: nat)
    requires |gss| == |cs| && i < |gss|
    ensures var a, b := AllSurviving(crc, gss[..i], cs[..i]), Surviving(crc, gss[i], cs[i]);
            var taken := Accepted(a, from);
            && AllSurviving(crc, gss[..i + 1], cs[..i + 1]) == a + b
            && AfterGroups(m, Accepted(a + b, from)) == AfterGroups(AfterGroups(m, taken), Accepted(b, SeqAfter(taken, from)))
            && SeqAfter(Accepted(a + b, from), from) == SeqAfter(Accepted(b, SeqAfter(taken, from)), SeqAfter(taken, from))
  {
    assert gss[..i + 1][..i] == gss[..i] && cs[..i + 1][..i] == cs[..i];
    var a, b := AllSurviving(crc, gss[..i], cs[..i]), Surviving(crc, gss[i], cs[i]);
    hide Surviving, AfterGroups, SeqAfter;
    AcceptedConcat(a, b, from);
    GroupsConcat(m, Accepted(a, from), Accepted(b, SeqAfter(Accepted(a, from), from)));
  }

  lemma NoJournals(crc: Crc, gss: seq<seq<Group>>, cs: seq<nat>, from: nat)
    requires |gss| == |cs|
    ensures AllSurviving(crc, gss[..0], cs[..0]) == [] && Accepted([], from) == []
    ensures AfterGroups(map[], []) == map[] && SeqAfter([], from) == from && Together([]) == map[]
  {
  }

  /** `recoverJournal`: the journals that a session still needs, each cut somewhere, are replayed in order, the memdb being
      flushed behind each and when it is large enough. The tables then hold exactly the puts of the groups
      that survive and are not skipped for their number. */
  method RecoverAll(crc: Crc, checksum: bool, cmp: Cmp, journals: seq<Bytes>, from: nat, writeBuffer: int,
                    ghost gss: seq<seq<Group>>, ghost cs: seq<nat>) returns (seqNo: nat, ghost tables: seq<map<Bytes, Bytes>>)
    requires TotalOrder(cmp) && |journals| == |gss| == |cs| && forall i :: 0 <= i < |gss| ==> CutJournal(crc, journals[i], gss[i], cs[i])
    ensures seqNo == SeqAfter(Accepted(AllSurviving(crc, gss, cs), from), from)
    ensures Together(tables) == AfterGroups(map[], Accepted(AllSurviving(crc, gss, cs), from))
  {
    hide *;
    var mdb := new DB(cmp);
    EmptyMap(mdb);
    seqNo, tables := from, [];
    HeldIs(tables);
    NoJournals(crc, gss, cs, from);
    for i := 0 to |journals|
      invariant mdb.Valid() && fresh(mdb)
      invariant var taken := Accepted(AllSurviving(crc, gss[..i], cs[..i]), from);
                Held(tables, ToMap(mdb.entries)) == AfterGroups(map[], taken) && seqNo == SeqAfter(taken, from)
    {
      tables := FlushRest(mdb, tables);
      NextJournal(crc, gss, cs, i, map[], from);
      seqNo, tables := Recover(crc, checksum, journals[i], mdb, seqNo, writeBuffer, tables, gss[i], cs[i]);
    }
    tables := FlushRest(mdb, tables);
    assert gss[..|gss|] == gss && cs[..|cs|] == cs;
  }

  /** The flush between two journals and behind the last: only a memdb that holds something is flushed. */
  method FlushRest(mdb: DB, ghost tables: seq<map<Bytes, Bytes>>) returns (ghost tables': seq<map<Bytes, Bytes>>)
    requires mdb.Valid()
    modifies mdb
    ensures mdb.Valid() && ToMap(mdb.entries) == map[]
    ensures Together(tables') == Held(tables, old(ToMap(mdb.entries)))
  {
    hide *;
    tables' := tables;
    EmptyMap(mdb);
    if mdb.n > 0 {
      tables' := FlushMemDb(mdb, tables);
    }
    HeldIs(tables');
  }

  lemma EmptyMap(mdb: DB)
    requires mdb.Valid()
    ensures mdb.n >= 0 && (mdb.n == 0 ==> ToMap(mdb.entries) == map[])
  {
    hide DB.Valid;
    Counted(mdb);
  }

  lemma Counted(mdb: DB)
    requires mdb.Valid()
    ensures mdb.n == |mdb.entries|
  {
  }

  /** The first `k` groups have been replayed: `held` is what they leave, and `seqNo` the number reached. */
  ghost predicate Replayed(m: map<Bytes, Bytes>, gs: seq<Group>, from: nat, k: nat, held: map<Bytes, Bytes>, seqNo: nat) {
    k <= |gs| && held == AfterGroups(m, Accepted(gs[..k], from)) && seqNo == SeqAfter(Accepted(gs[..k], from), from)
  }

  lemma NothingReplayed(m: map<Bytes, Bytes>, gs: seq<Group>, from: nat)
    ensures Replayed(m, gs, from, 0, m, from)
  {
    NoGroups(m, gs, from);
  }

  lemma AllReplayed(m: map<Bytes, Bytes>, gs: seq<Group>, from: nat, k: nat, held: map<Bytes, Bytes>, seqNo: nat)
    requires Replayed(m, gs, from, k, held, seqNo)
    ensures k <= |gs| && held == AfterGroups(m, Accepted(gs[..k], from)) && seqNo == SeqAfter(Accepted(gs[..k], from), from)
  {
  }

  lemma GroupAt(gs: seq<Group>, k: nat)
    requires k < |gs|
    ensures AllBytes(gs)[k] == GroupBytes(gs[k])
  {
  }

  lemma OneReplayed(m: map<Bytes, Bytes>, gs: seq<Group>, from: nat, k: nat, held: map<Bytes, Bytes>, seqNo: nat, held': map<Bytes, Bytes>, seqNo': nat)
    requires k < |gs| && WfGroup(gs[k]) && Replayed(m, gs, from, k, held, seqNo)
    requires if gs[k].sn >= seqNo then held' == AfterPuts(held, gs[k].recs, gs[k].sn) && seqNo' == gs[k].sn + |gs[k].recs|
             else held' == held && seqNo' == seqNo
    ensures Replayed(m, gs, from, k + 1, held', seqNo')
  {
    hide WfGroup, AfterPuts, AfterGroups, SeqAfter;
    NextGroup(m, gs, from, k);
  }

  lemma HeadOf(l: seq<Bytes>, x: Bytes, rest: seq<Bytes>)
    requires l == [x] + rest
    ensures l != [] && l[0] == x && l[1..] == rest
  {
  }

  lemma NoGroups(m: map<Bytes, Bytes>, gs: seq<Group>, from: nat)
    ensures AfterGroups(m, Accepted(gs[..0], from)) == m && SeqAfter(Accepted(gs[..0], from), from) == from
  {
  }

  /** The next group decodes if its number is not below the one reached. */
  lemma NextGroup(m: map<Bytes, Bytes>, gs: seq<Group>, from: nat, k: nat)
    requires k < |gs| && WfGroup(gs[k])
    ensures AllBytes(gs)[k] == GroupBytes(gs[k])
    ensures var taken, taken' := Accepted(gs[..k], from), Accepted(gs[..k + 1], from);
            if gs[k].sn >= SeqAfter(taken, from)
            then AfterGroups(m, taken') == AfterPuts(AfterGroups(m, taken), gs[k].recs, gs[k].sn) && SeqAfter(taken', from) == gs[k].sn + |gs[k].recs|
            else taken' == taken
  {
    assert gs[..k + 1][..k] == gs[..k];
    hide WfGroup, GroupBytes, AfterPuts;
    var taken := Accepted(gs[..k], from);
    assert (taken + [gs[k]])[..|taken|] == taken;
  }
}
