/** The codec of `sessionRecord`, one manifest journal entry. */
module SessionRecord {
  import opened Keys
  import opened Varint

  const REC_COMPARER: nat := 1
  const REC_JOURNAL_NUM: nat := 2
  const REC_NEXT_FILE_NUM: nat := 3
  const REC_SEQ_NUM: nat := 4
  const REC_COMP_PTR: nat := 5
  const REC_DEL_TABLE: nat := 6
  const REC_ADD_TABLE: nat := 7
  const REC_PREV_JOURNAL_NUM: nat := 9

  const I64: nat := 0x8000_0000_0000_0000

  datatype FileRec = FileRec(num: nat, size: nat, imin: Bytes, imax: Bytes)
  datatype CpRecord = CpRecord(level: nat, ikey: Bytes)
  datatype AtRecord = AtRecord(level: nat, file: FileRec)
  datatype DtRecord = DtRecord(level: nat, num: nat)

  /** The fields of a record; `None` where the original's `has` bit is clear. */
  datatype Rec = Rec(
    comparer: Option<Bytes>, journalNum: Option<nat>, prevJournalNum: Option<nat>, nextFileNum: Option<nat>, seqNum: Option<nat>,
    compPtrs: seq<CpRecord>, addedTables: seq<AtRecord>, deletedTables: seq<DtRecord>)

  const EMPTY: Rec := Rec(None, None, None, None, None, [], [], [])

  predicate FitsI64(x: Option<nat>) {
    x.Some? ==> x.value < I64
  }

  /** Numbers and lengths fit the original's integer types. */
  predicate WfRec(r: Rec) {
    (r.comparer.Some? ==> |r.comparer.value| < I64) && FitsI64(r.journalNum) && FitsI64(r.prevJournalNum) && FitsI64(r.nextFileNum)
    && (r.seqNum.Some? ==> r.seqNum.value < U64)
    && (forall i :: 0 <= i < |r.compPtrs| ==> WfCp(r.compPtrs[i]))
    && (forall i :: 0 <= i < |r.addedTables| ==> WfAt(r.addedTables[i]))
    && (forall i :: 0 <= i < |r.deletedTables| ==> WfDt(r.deletedTables[i]))
  }

  predicate WfCp(c: CpRecord) { c.level < I64 && |c.ikey| < I64 }
  predicate WfAt(a: AtRecord) { a.level < I64 && a.file.num < I64 && a.file.size < I64 && |a.file.imin| < I64 && |a.file.imax| < I64 }
  predicate WfDt(d: DtRecord) { d.level < I64 && d.num < I64 }

  // ----- encoding

  function PutBytes(x: Bytes): (b: Bytes)
    ensures |b| >= 1
  {
    PutUvarint(|x|) + x
  }

  function PutCp(c: CpRecord): (b: Bytes)
    ensures |b| >= 1
  {
    PutUvarint(REC_COMP_PTR) + (PutUvarint(c.level) + PutBytes(c.ikey))
  }

  function PutDt(d: DtRecord): (b: Bytes)
    ensures |b| >= 1
  {
    PutUvarint(REC_DEL_TABLE) + (PutUvarint(d.level) + PutUvarint(d.num))
  }

  function PutAt(a: AtRecord): (b: Bytes)
    ensures |b| >= 1
  {
    PutUvarint(REC_ADD_TABLE) + (PutUvarint(a.level) + (PutUvarint(a.file.num) + (PutUvarint(a.file.size) + (PutBytes(a.file.imin) + PutBytes(a.file.imax)))))
  }

  function PutNum(tag: nat, x: Option<nat>): Bytes {
    if x.Some? then PutUvarint(tag) + PutUvarint(x.value) else []
  }

  function PutCps(cs: seq<CpRecord>): Bytes {
    if cs == [] then [] else PutCp(cs[0]) + PutCps(cs[1..])
  }

  function PutDts(ds: seq<DtRecord>): Bytes {
    if ds == [] then [] else PutDt(ds[0]) + PutDts(ds[1..])
  }

  function PutAts(ats: seq<AtRecord>): Bytes {
    if ats == [] then [] else PutAt(ats[0]) + PutAts(ats[1..])
  }

  /** `encode`; it has no case for the previous journal number. */
  function Encode(r: Rec): Bytes {
    (if r.comparer.Some? then PutUvarint(REC_COMPARER) + PutBytes(r.comparer.value) else [])
    + (PutNum(REC_JOURNAL_NUM, r.journalNum)
    + (PutNum(REC_NEXT_FILE_NUM, r.nextFileNum)
    + (PutNum(REC_SEQ_NUM, r.seqNum)
    + (PutCps(r.compPtrs)
    + (PutDts(r.deletedTables)
    + PutAts(r.addedTables))))))
  }

  // ----- decoding

  /** A value read off the front and the rest, or `None` on a short or overlong read. */
  type Read<T> = Option<(T, Bytes)>

  function ReadUvarint(b: Bytes): (r: Read<nat>)
    ensures r.Some? ==> |r.value.1| < |b|
  {
    match Uvarint(b)
    case None => None
    case Some((x, n)) => Some((x, b[n..]))
  }

  /** `readVarint`: a value past 63 bits is an error. */
  function ReadVarint(b: Bytes): (r: Read<nat>)
    ensures r.Some? ==> |r.value.1| < |b|
  {
    match ReadUvarint(b)
    case None => None
    case Some((x, rest)) => if x < I64 then Some((x, rest)) else None
  }

  function ReadBytes(b: Bytes): (r: Read<Bytes>)
    ensures r.Some? ==> |r.value.1| < |b|
  {
    match ReadUvarint(b)
    case None => None
    case Some((n, rest)) => if n <= |rest| then Some((rest[..n], rest[n..])) else None
  }

  function ReadCp(b: Bytes): (r: Read<CpRecord>)
    ensures r.Some? ==> |r.value.1| < |b|
  {
    match ReadUvarint(b)
    case None => None
    case Some((level, b1)) =>
      match ReadBytes(b1)
      case None => None
      case Some((ikey, b2)) => Some((CpRecord(level, ikey), b2))
  }

  function ReadDt(b: Bytes): (r: Read<DtRecord>)
    ensures r.Some? ==> |r.value.1| < |b|
  {
    match ReadUvarint(b)
    case None => None
    case Some((level, b1)) =>
      match ReadVarint(b1)
      case None => None
      case Some((num, b2)) => Some((DtRecord(level, num), b2))
  }

  function ReadFile(b: Bytes): (r: Read<FileRec>)
    ensures r.Some? ==> |r.value.1| < |b|
  {
    match ReadVarint(b)
    case None => None
    case Some((num, b1)) =>
      match ReadVarint(b1)
      case None => None
      case Some((size, b2)) =>
        match ReadBytes(b2)
        case None => None
        case Some((imin, b3)) =>
          match ReadBytes(b3)
          case None => None
          case Some((imax, b4)) => Some((FileRec(num, size, imin, imax), b4))
  }

  function ReadAt(b: Bytes): (r: Read<AtRecord>)
    ensures r.Some? ==> |r.value.1| < |b|
  {
    match ReadUvarint(b)
    case None => None
    case Some((level, b1)) =>
      match ReadFile(b1)
      case None => None
      case Some((file, b2)) => Some((AtRecord(level, file), b2))
  }

  /** One field behind its tag; a tag of no field is skipped alone. */
  function ReadField(tag: nat, b: Bytes, r: Rec): (f: Read<Rec>)
    ensures f.Some? ==> |f.value.1| <= |b|
  {
    if tag == REC_COMPARER then match ReadBytes(b) { case None => None case Some((x, rest)) => Some((r.(comparer := Some(x)), rest)) }
    else if tag == REC_JOURNAL_NUM then match ReadVarint(b) { case None => None case Some((x, rest)) => Some((r.(journalNum := Some(x)), rest)) }
    else if tag == REC_PREV_JOURNAL_NUM then match ReadVarint(b) { case None => None case Some((x, rest)) => Some((r.(prevJournalNum := Some(x)), rest)) }
    else if tag == REC_NEXT_FILE_NUM then match ReadVarint(b) { case None => None case Some((x, rest)) => Some((r.(nextFileNum := Some(x)), rest)) }
    else if tag == REC_SEQ_NUM then match ReadUvarint(b) { case None => None case Some((x, rest)) => Some((r.(seqNum := Some(x)), rest)) }
    else if tag == REC_COMP_PTR then match ReadCp(b) { case None => None case Some((c, rest)) => Some((r.(compPtrs := r.compPtrs + [c]), rest)) }
    else if tag == REC_ADD_TABLE then match ReadAt(b) { case None => None case Some((a, rest)) => Some((r.(addedTables := r.addedTables + [a]), rest)) }
    else if tag == REC_DEL_TABLE then match ReadDt(b) { case None => None case Some((d, rest)) => Some((r.(deletedTables := r.deletedTables + [d]), rest)) }
    else Some((r, b))
  }

  /** `decode` into the fields already in `r`: `None` when the original returns an error. */
  function DecodeInto(b: Bytes, r: Rec): Option<Rec>
    decreases |b|
  {
    if b == [] then Some(r)
    else
      match ReadUvarint(b)
      case None => None
      case Some((tag, rest)) =>
        match ReadField(tag, rest, r)
        case None => None
        case Some((r', rest')) => DecodeInto(rest', r')
  }

  /** The decode loop with its position. */
  method Decode(b: Bytes, r0: Rec) returns (r: Option<Rec>)
    ensures r == DecodeInto(b, r0)
  {
    var rest, rec := b, r0;
    while rest != []
      invariant DecodeInto(rest, rec) == DecodeInto(b, r0)
      decreases |rest|
    {
      var tag := ReadUvarint(rest);
      if tag.None? {
        return None;
      }
      var field := ReadField(tag.value.0, tag.value.1, rec);
      if field.None? {
        return None;
      }
      rec, rest := field.value.0, field.value.1;
    }
    return Some(rec);
  }

  // ----- the round trip

  lemma ReadPutUvarint(x: nat, rest: Bytes)
    requires x < U64
    ensures ReadUvarint(PutUvarint(x) + rest) == Some((x, rest))
  {
    UvarintRoundTrip(x, rest);
    assert (PutUvarint(x) + rest)[|PutUvarint(x)|..] == rest;
  }

  /** A tag of no field is skipped without its value; the previous journal number is read where it is given; and a number
      past 63 bits is an error, but for the sequence number. */
  lemma OtherFields(tag: nat, x: nat, rest: Bytes, r: Rec)
    requires tag < U64 && x < U64
    ensures tag == 0 || tag == 8 || tag > 9 ==> DecodeInto(PutUvarint(tag) + rest, r) == DecodeInto(rest, r)
    ensures DecodeInto(PutUvarint(9) + (PutUvarint(x) + rest), r) == if x < I64 then DecodeInto(rest, r.(prevJournalNum := Some(x))) else None
    ensures x >= I64 ==> DecodeInto(PutUvarint(2) + (PutUvarint(x) + rest), r) == DecodeInto(PutUvarint(3) + (PutUvarint(x) + rest), r) == None
  {
    hide *;
    NoSuchField(tag, rest, r);
    OneNumber(9, x, rest, r);
    OneNumber(2, x, rest, r);
    OneNumber(3, x, rest, r);
  }

  lemma NoSuchField(tag: nat, rest: Bytes, r: Rec)
    requires tag < U64
    ensures tag == 0 || tag == 8 || tag > 9 ==> DecodeInto(PutUvarint(tag) + rest, r) == DecodeInto(rest, r)
  {
    hide PutUvarint, ReadUvarint;
    ReadPutUvarint(tag, rest);
  }

  lemma OneNumber(tag: nat, x: nat, rest: Bytes, r: Rec)
    requires (tag == 2 || tag == 3 || tag == 9) && x < U64
    ensures x >= I64 ==> DecodeInto(PutUvarint(tag) + (PutUvarint(x) + rest), r) == None
    ensures tag == 9 && x < I64 ==> DecodeInto(PutUvarint(tag) + (PutUvarint(x) + rest), r) == DecodeInto(rest, r.(prevJournalNum := Some(x)))
  {
    hide PutUvarint, ReadUvarint;
    ReadPutUvarint(tag, PutUvarint(x) + rest);
    ReadPutUvarint(x, rest);
  }

  lemma ReadPutBytes(x: Bytes, rest: Bytes)
    requires |x| < U64
    ensures ReadBytes(PutBytes(x) + rest) == Some((x, rest))
  {
    hide ReadUvarint, PutUvarint;
    assert PutBytes(x) + rest == PutUvarint(|x|) + (x + rest);
    ReadPutUvarint(|x|, x + rest);
    assert (x + rest)[..|x|] == x && (x + rest)[|x|..] == rest;
  }

  lemma Assoc(a: Bytes, b: Bytes, c: Bytes)
    ensures (a + b) + c == a + (b + c)
  {
  }

  lemma ReadPutCp(c: CpRecord, rest: Bytes)
    requires WfCp(c)
    ensures ReadCp(PutUvarint(c.level) + PutBytes(c.ikey) + rest) == Some((c, rest))
  {
    hide ReadUvarint, ReadBytes, PutUvarint, PutBytes;
    Assoc(PutUvarint(c.level), PutBytes(c.ikey), rest);
    ReadPutUvarint(c.level, PutBytes(c.ikey) + rest);
    ReadPutBytes(c.ikey, rest);
  }

  lemma ReadPutVarint(x: nat, rest: Bytes)
    requires x < I64
    ensures ReadVarint(PutUvarint(x) + rest) == Some((x, rest))
  {
    hide ReadUvarint, PutUvarint;
    ReadPutUvarint(x, rest);
  }

  lemma ReadPutDt(d: DtRecord, rest: Bytes)
    requires WfDt(d)
    ensures ReadDt(PutUvarint(d.level) + PutUvarint(d.num) + rest) == Some((d, rest))
  {
    hide ReadUvarint, ReadVarint, PutUvarint;
    Assoc(PutUvarint(d.level), PutUvarint(d.num), rest);
    ReadPutUvarint(d.level, PutUvarint(d.num) + rest);
    ReadPutVarint(d.num, rest);
  }

  function PutFile(f: FileRec): Bytes {
    PutUvarint(f.num) + (PutUvarint(f.size) + (PutBytes(f.imin) + PutBytes(f.imax)))
  }

  lemma ReadPutFile(f: FileRec, rest: Bytes)
    requires f.num < I64 && f.size < I64 && |f.imin| < I64 && |f.imax| < I64
    ensures ReadFile(PutFile(f) + rest) == Some((f, rest))
  {
    hide ReadVarint, ReadBytes, PutUvarint, PutBytes;
    var b3 := PutBytes(f.imax) + rest;
    var b2 := PutBytes(f.imin) + b3;
    var b1 := PutUvarint(f.size) + b2;
    assert PutFile(f) + rest == PutUvarint(f.num) + b1;
    ReadPutVarint(f.num, b1);
    ReadPutVarint(f.size, b2);
    ReadPutBytes(f.imin, b3);
    ReadPutBytes(f.imax, rest);
  }

  lemma ReadPutAt(a: AtRecord, rest: Bytes)
    requires WfAt(a)
    ensures ReadAt(PutUvarint(a.level) + PutFile(a.file) + rest) == Some((a, rest))
  {
    hide ReadUvarint, ReadFile, PutUvarint, PutFile;
    Assoc(PutUvarint(a.level), PutFile(a.file), rest);
    ReadPutUvarint(a.level, PutFile(a.file) + rest);
    ReadPutFile(a.file, rest);
  }

  /** One encoded field in front is decoded first. */
  lemma Field(tag: nat, body: Bytes, rest: Bytes, r: Rec, r': Rec)
    requires tag < U64 && ReadField(tag, body + rest, r) == Some((r', rest))
    ensures DecodeInto(PutUvarint(tag) + body + rest, r) == DecodeInto(rest, r')
  {
    hide ReadUvarint, ReadField, PutUvarint;
    Assoc(PutUvarint(tag), body, rest);
    ReadPutUvarint(tag, body + rest);
  }

  lemma {:induction false} DecodeCps(cs: seq<CpRecord>, rest: Bytes, r: Rec)
    requires forall i :: 0 <= i < |cs| ==> WfCp(cs[i])
    ensures DecodeInto(PutCps(cs) + rest, r) == DecodeInto(rest, r.(compPtrs := r.compPtrs + cs))
  {
    hide DecodeInto, ReadCp, PutUvarint, PutBytes;
    if cs == [] {
      assert PutCps(cs) + rest == rest && r.(compPtrs := r.compPtrs + cs) == r;
    } else {
      var c, body := cs[0], PutUvarint(cs[0].level) + PutBytes(cs[0].ikey);
      var tail := PutCps(cs[1..]) + rest;
      Assoc(PutCp(c), PutCps(cs[1..]), rest);
      ReadPutCp(c, tail);
      var r' := r.(compPtrs := r.compPtrs + [c]);
      Field(REC_COMP_PTR, body, tail, r, r');
      DecodeCps(cs[1..], rest, r');
      assert r'.compPtrs + cs[1..] == r.compPtrs + cs;
    }
  }

  lemma {:induction false} DecodeDts(ds: seq<DtRecord>, rest: Bytes, r: Rec)
    requires forall i :: 0 <= i < |ds| ==> WfDt(ds[i])
    ensures DecodeInto(PutDts(ds) + rest, r) == DecodeInto(rest, r.(deletedTables := r.deletedTables + ds))
  {
    hide DecodeInto, ReadDt, PutUvarint;
    if ds == [] {
      assert PutDts(ds) + rest == rest && r.(deletedTables := r.deletedTables + ds) == r;
    } else {
      var d, body := ds[0], PutUvarint(ds[0].level) + PutUvarint(ds[0].num);
      var tail := PutDts(ds[1..]) + rest;
      Assoc(PutDt(d), PutDts(ds[1..]), rest);
      ReadPutDt(d, tail);
      var r' := r.(deletedTables := r.deletedTables + [d]);
      Field(REC_DEL_TABLE, body, tail, r, r');
      DecodeDts(ds[1..], rest, r');
      assert r'.deletedTables + ds[1..] == r.deletedTables + ds;
    }
  }

  lemma {:induction false} DecodeAts(ats: seq<AtRecord>, rest: Bytes, r: Rec)
    requires forall i :: 0 <= i < |ats| ==> WfAt(ats[i])
    ensures DecodeInto(PutAts(ats) + rest, r) == DecodeInto(rest, r.(addedTables := r.addedTables + ats))
  {
    hide DecodeInto, ReadAt, PutUvarint, PutBytes;
    if ats == [] {
      assert PutAts(ats) + rest == rest && r.(addedTables := r.addedTables + ats) == r;
    } else {
      var a, body := ats[0], PutUvarint(ats[0].level) + PutFile(ats[0].file);
      var tail := PutAts(ats[1..]) + rest;
      Assoc(PutAt(a), PutAts(ats[1..]), rest);
      ReadPutAt(a, tail);
      var r' := r.(addedTables := r.addedTables + [a]);
      Field(REC_ADD_TABLE, body, tail, r, r');
      DecodeAts(ats[1..], rest, r');
      assert r'.addedTables + ats[1..] == r.addedTables + ats;
    }
  }

  function Or(x: Option<nat>, y: Option<nat>): Option<nat> {
    if x.Some? then x else y
  }

  /** What decoding an encoded `r` leaves in fields that held `r0`: the previous journal number is never written. */
  function Over(r0: Rec, r: Rec): Rec {
    Rec(if r.comparer.Some? then r.comparer else r0.comparer, Or(r.journalNum, r0.journalNum), r0.prevJournalNum,
        Or(r.nextFileNum, r0.nextFileNum), Or(r.seqNum, r0.seqNum),
        r0.compPtrs + r.compPtrs, r0.addedTables + r.addedTables, r0.deletedTables + r.deletedTables)
  }

  lemma DecodeEncode(r: Rec, r0: Rec)
    requires WfRec(r)
    ensures DecodeInto(Encode(r), r0) == Some(Over(r0, r))
  {
    hide DecodeInto, PutUvarint, PutBytes, ReadUvarint, ReadBytes, ReadVarint, PutCps, PutDts, PutAts;
    var b6 := PutAts(r.addedTables);
    var b5 := PutDts(r.deletedTables) + b6;
    var b4 := PutCps(r.compPtrs) + b5;
    var b3 := PutNum(REC_SEQ_NUM, r.seqNum) + b4;
    var b2 := PutNum(REC_NEXT_FILE_NUM, r.nextFileNum) + b3;
    var b1 := PutNum(REC_JOURNAL_NUM, r.journalNum) + b2;
    var r1 := r0.(comparer := Over(r0, r).comparer);
    if r.comparer.Some? {
      ReadPutBytes(r.comparer.value, b1);
      Field(REC_COMPARER, PutBytes(r.comparer.value), b1, r0, r1);
    } else {
      assert Encode(r) == b1;
    }
    var r2 := r1.(journalNum := Or(r.journalNum, r0.journalNum));
    DecodeNum(REC_JOURNAL_NUM, r.journalNum, b2, r1, r2);
    var r3 := r2.(nextFileNum := Or(r.nextFileNum, r0.nextFileNum));
    DecodeNum(REC_NEXT_FILE_NUM, r.nextFileNum, b3, r2, r3);
    var r4 := r3.(seqNum := Or(r.seqNum, r0.seqNum));
    DecodeNum(REC_SEQ_NUM, r.seqNum, b4, r3, r4);
    DecodeCps(r.compPtrs, b5, r4);
    var r5 := r4.(compPtrs := r0.compPtrs + r.compPtrs);
    DecodeDts(r.deletedTables, b6, r5);
    var r6 := r5.(deletedTables := r0.deletedTables + r.deletedTables);
    DecodeAts(r.addedTables, [], r6);
    assert b6 + [] == b6;
    AtEnd(Over(r0, r));
  }

  lemma AtEnd(r: Rec)
    ensures DecodeInto([], r) == Some(r)
  {
  }

  lemma DecodeNum(tag: nat, x: Option<nat>, rest: Bytes, r: Rec, r': Rec)
    requires tag == REC_JOURNAL_NUM || tag == REC_NEXT_FILE_NUM || tag == REC_SEQ_NUM
    requires x.Some? ==> x.value < if tag == REC_SEQ_NUM then U64 else I64
    requires r' == if x.None? then r else if tag == REC_JOURNAL_NUM then r.(journalNum := x) else if tag == REC_NEXT_FILE_NUM then r.(nextFileNum := x) else r.(seqNum := x)
    ensures DecodeInto(PutNum(tag, x) + rest, r) == DecodeInto(rest, r')
  {
    hide DecodeInto, PutUvarint, ReadUvarint, ReadVarint;
    if x.Some? {
      ReadPutUvarint(x.value, rest);
      if x.value < I64 { ReadPutVarint(x.value, rest); }
      Field(tag, PutUvarint(x.value), rest, r, r');
    } else {
      assert PutNum(tag, x) + rest == rest;
    }
  }

  /** A record survives encoding and decoding exactly when it carries no previous journal number. */
  lemma SurvivesIff(r: Rec)
    requires WfRec(r)
    ensures DecodeInto(Encode(r), EMPTY) == Some(r) <==> r.prevJournalNum.None?
  {
    hide DecodeInto, Encode;
    DecodeEncode(r, EMPTY);
    assert [] + r.compPtrs == r.compPtrs && [] + r.addedTables == r.addedTables && [] + r.deletedTables == r.deletedTables;
  }
}
