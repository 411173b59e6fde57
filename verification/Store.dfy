/** The whole store as a step system: writer, memdb rotation and flush, table compaction,
    snapshots, and readers that load their sources one at a time. */
module Store {
  import opened Keys
  import opened Lookup
  import opened Tables
  import opened Levels
  import opened CompactionSpec
  import opened Compaction
  import opened CompactionSafety
  import opened LevelEdits
  import opened Builder

  /** One record of a batch. */
  datatype Op = Op(ukey: UKey, kt: KeyType, value: Bytes)

  /** A memdb: the sequence number it was created at, and its entries. */
  datatype MemDb = MemDb(lo: nat, entries: set<Entry>)

  /** A table compaction in progress: the version it was picked from, its inputs, and the watermark once read. */
  datatype Compacting = Compacting(src: nat, levels: seq<seq<Table>>, in0: seq<Table>, in1: seq<Table>, minSeq: Option<nat>)

  datatype Kind = Get(k: UKey) | Scan

  /** A reader between its loads. `Missed` has found nothing in the memdbs searched so far;
      `Pinned` is an iterator holding its sources. */
  datatype Reader =
    | HasSeq(kind: Kind, q: nat)
    | HasMems(kind: Kind, q: nat, em: nat, fm: Option<nat>)
    | MissedMem(k: UKey, q: nat, em: nat, fm: Option<nat>)
    | MissedBoth(k: UKey, q: nat, em: nat, fm: Option<nat>)
    | Answered(k: UKey, q: nat, r: Option<Bytes>)
    | Pinned(q: nat, em: nat, fm: Option<nat>, levels: seq<seq<Table>>)

  /** `log` is the flat log of writes, the record at index i having sequence number i + 1;
      `watermark` remembers the highest watermark any committed compaction used, as far as it matters. */
  datatype State = State(log: seq<Op>, seqNum: nat, heap: map<nat, MemDb>, mem: nat, frozen: Option<nat>, flushed: bool,
                         levels: seq<seq<Table>>, job: Option<Compacting>, snaps: multiset<nat>, readers: map<nat, Reader>, watermark: nat)

  function LogEntry(log: seq<Op>, n: nat): Entry
    requires 1 <= n <= |log|
  {
    Entry(log[n - 1].ukey, n, log[n - 1].kt, log[n - 1].value)
  }

  /** The log records with sequence numbers in (lo, hi]. */
  ghost function Segment(log: seq<Op>, lo: nat, hi: nat): set<Entry>
    requires hi <= |log|
  {
    set n | lo < n <= hi :: LogEntry(log, n)
  }

  /** Everything up to here is in the tables. */
  function FlushedTo(s: State): nat
    requires s.mem in s.heap && (s.frozen.Some? ==> s.frozen.value in s.heap)
  {
    if s.frozen.Some? && !s.flushed then s.heap[s.frozen.value].lo else s.heap[s.mem].lo
  }

  /** A reader still holding its snapshot. */
  predicate Holding(rd: Reader) {
    !rd.Answered? && !rd.Pinned?
  }

  ghost predicate Live(s: State, q: nat) {
    q in s.snaps || exists id :: id in s.readers && Holding(s.readers[id]) && s.readers[id].q == q
  }

  /** `minSeq`: the oldest live snapshot, or the current sequence number when there is none. */
  ghost predicate IsMinSeq(s: State, m: nat) {
    (forall q :: Live(s, q) ==> m <= q) && (Live(s, m) || (m == s.seqNum && forall q :: !Live(s, q)))
  }

  // ----- steps

  ghost predicate Init(s: State) {
    s == State([], 0, map[0 := MemDb(0, {})], 0, None, false, [], None, multiset{}, map[], 0)
  }

  /** The writer puts one record into the memdb; readers cannot see it before it is published. */
  ghost predicate PutRec(s: State, s': State, op: Op) {
    s.mem in s.heap && |s.log| + 1 < KEY_MAX_SEQ
    && var log := s.log + [op];
       var m := s.heap[s.mem];
       s' == s.(log := log, heap := s.heap[s.mem := m.(entries := m.entries + {LogEntry(log, |log|)})])
  }

  /** `addSeq`. */
  ghost predicate Publish(s: State, s': State) {
    s' == s.(seqNum := |s.log|)
  }

  /** `newMem`: only the writer calls it, between batches, and not while a memdb is frozen. */
  ghost predicate Rotate(s: State, s': State, id: nat) {
    s.frozen.None? && s.seqNum == |s.log| && id !in s.heap
    && s' == s.(heap := s.heap[id := MemDb(s.seqNum, {})], mem := id, frozen := Some(s.mem), flushed := false)
  }

  /** `memCompaction` commits a level-0 table with the entries of the frozen memdb. */
  ghost predicate FlushMem(s: State, s': State, t: Table, levels: seq<seq<Table>>) {
    s.frozen.Some? && !s.flushed && s.frozen.value in s.heap
    && WfTable(t) && Elems(t.entries) == s.heap[s.frozen.value].entries
    && TableSet(LevelAt(levels, 0)) == TableSet(LevelAt(s.levels, 0)) + {t} && SortedByNum(LevelAt(levels, 0))
    && (forall l: nat :: l > 0 ==> LevelAt(levels, l) == LevelAt(s.levels, l))
    && s' == s.(levels := levels, flushed := true)
  }

  /** `dropFrozenMem`, after the commit or at once for an empty memdb. */
  ghost predicate DropFrozen(s: State, s': State) {
    s.frozen.Some? && s.frozen.value in s.heap && (s.flushed || s.heap[s.frozen.value].entries == {})
    && s' == s.(frozen := None, flushed := false)
  }

  /** A compaction is picked from the current version and expanded. */
  ghost predicate PickCompaction(s: State, s': State, src: nat, in0: seq<Table>, in1: seq<Table>) {
    s.job.None? && ClosedInputs(s.levels, src, in0, in1)
    && s' == s.(job := Some(Compacting(src, s.levels, in0, in1, None)))
  }

  /** `tableCompaction` reads the watermark. */
  ghost predicate ReadMinSeq(s: State, s': State, m: nat) {
    s.job.Some? && s.job.value.minSeq.None? && IsMinSeq(s, m)
    && s' == s.(job := Some(s.job.value.(minSeq := Some(m))))
  }

  ghost function DeeperOf(j: Compacting): seq<seq<Table>> {
    if j.src + 2 <= |j.levels| then j.levels[j.src + 2..] else []
  }

  /** What the builder delivers for a job whose merged input is `es`. */
  ghost predicate Built(j: Compacting, es: seq<Entry>, outs: seq<Table>) {
    j.minSeq.Some? && Sorted(es) && Elems(es) == EntriesOf(TableSet(j.in0) + TableSet(j.in1))
    && (exists next :: Filed(outs, next))
    && CutAtKeys(Contents(outs)) && Concat(Contents(outs)) == Kept(es, |es|, j.minSeq.value, DeeperOf(j))
  }

  /** The new tables replace the inputs in whatever version is then current. */
  ghost predicate CommitCompaction(s: State, s': State, es: seq<Entry>, outs: seq<Table>, levels: seq<seq<Table>>) {
    s.job.Some? && s.job.value.minSeq.Some? && Built(s.job.value, es, outs)
    && var j := s.job.value;
       Edited(s.levels, levels, j.src, TableSet(j.in0), TableSet(j.in1), TableSet(outs))
       && s' == s.(levels := levels, job := None, watermark := j.minSeq.value)
  }

  /** The trivial move: a single table goes down one level as it is. */
  ghost predicate CommitMove(s: State, s': State, levels: seq<seq<Table>>) {
    s.job.Some? && |s.job.value.in0| == 1 && s.job.value.in1 == []
    && var j := s.job.value;
       Edited(s.levels, levels, j.src, TableSet(j.in0), {}, TableSet(j.in0))
       && s' == s.(levels := levels, job := None)
  }

  ghost predicate AcquireSnapshot(s: State, s': State) {
    s' == s.(snaps := s.snaps + multiset{s.seqNum})
  }

  ghost predicate ReleaseSnapshot(s: State, s': State, q: nat) {
    q in s.snaps && s' == s.(snaps := s.snaps - multiset{q})
  }

  /** A read starts at the current sequence number or on a snapshot still held. */
  ghost predicate StartRead(s: State, s': State, id: nat, kind: Kind, q: nat) {
    id !in s.readers && (q == s.seqNum || q in s.snaps)
    && s' == s.(readers := s.readers[id := HasSeq(kind, q)])
  }

  /** `getMems`. */
  ghost predicate LoadMems(s: State, s': State, id: nat) {
    id in s.readers && s.readers[id].HasSeq?
    && s' == s.(readers := s.readers[id := HasMems(s.readers[id].kind, s.readers[id].q, s.mem, s.frozen)])
  }

  ghost predicate Finds(m: MemDb, k: UKey, q: nat) {
    exists x :: x in m.entries && Visible(x, k, q)
  }

  /** `memGet` on the effective memdb. */
  ghost predicate SearchMem(s: State, s': State, id: nat, r: Option<Bytes>) {
    id in s.readers && s.readers[id].HasMems? && s.readers[id].kind.Get? && s.readers[id].em in s.heap
    && var rd := s.readers[id];
       var m := s.heap[rd.em];
       if Finds(m, rd.kind.k, rd.q)
       then Answers(m.entries, rd.kind.k, rd.q, r) && s' == s.(readers := s.readers[id := Answered(rd.kind.k, rd.q, r)])
       else s' == s.(readers := s.readers[id := MissedMem(rd.kind.k, rd.q, rd.em, rd.fm)])
  }

  /** `memGet` on the frozen memdb, if the reader has one. */
  ghost predicate SearchFrozen(s: State, s': State, id: nat, r: Option<Bytes>) {
    id in s.readers && s.readers[id].MissedMem? && (s.readers[id].fm.Some? ==> s.readers[id].fm.value in s.heap)
    && var rd := s.readers[id];
       if rd.fm.Some? && Finds(s.heap[rd.fm.value], rd.k, rd.q)
       then Answers(s.heap[rd.fm.value].entries, rd.k, rd.q, r) && s' == s.(readers := s.readers[id := Answered(rd.k, rd.q, r)])
       else s' == s.(readers := s.readers[id := MissedBoth(rd.k, rd.q, rd.em, rd.fm)])
  }

  /** The version is loaded and searched; `VersionGet.Get` returns such an answer. */
  ghost predicate SearchVersion(s: State, s': State, id: nat, r: Option<Bytes>) {
    id in s.readers && s.readers[id].MissedBoth?
    && var rd := s.readers[id];
       Answers(StoreEntries(s.levels), rd.k, rd.q, r)
       && s' == s.(readers := s.readers[id := Answered(rd.k, rd.q, r)])
  }

  /** An iterator pins the version; from then on it needs no snapshot. */
  ghost predicate PinVersion(s: State, s': State, id: nat) {
    id in s.readers && s.readers[id].HasMems? && s.readers[id].kind.Scan?
    && var rd := s.readers[id];
       s' == s.(readers := s.readers[id := Pinned(rd.q, rd.em, rd.fm, s.levels)])
  }

  /** The process ends and the store is opened again: of the records behind the tables those up to `n` are read back
      from the journals into a new memdb; readers, snapshots and a compaction in progress are gone. */
  ghost predicate Crash(s: State, s': State, n: nat) {
    s.mem in s.heap && (s.frozen.Some? ==> s.frozen.value in s.heap) && FlushedTo(s) <= n <= |s.log|
    && var lo, log := FlushedTo(s), s.log[..n];
       s' == State(log, n, map[0 := MemDb(lo, Segment(log, lo, n))], 0, None, false, s.levels, None, multiset{}, map[],
                   if s.watermark < lo then s.watermark else lo)
  }

  ghost predicate Next(s: State, s': State) {
    (exists op :: PutRec(s, s', op)) || Publish(s, s') || (exists id :: Rotate(s, s', id))
    || (exists t, levels :: FlushMem(s, s', t, levels)) || DropFrozen(s, s')
    || (exists src, in0, in1 :: PickCompaction(s, s', src, in0, in1)) || (exists m :: ReadMinSeq(s, s', m))
    || (exists es, outs, levels :: CommitCompaction(s, s', es, outs, levels)) || (exists levels :: CommitMove(s, s', levels))
    || AcquireSnapshot(s, s') || (exists q :: ReleaseSnapshot(s, s', q))
    || (exists id, kind, q :: StartRead(s, s', id, kind, q)) || (exists id :: LoadMems(s, s', id))
    || (exists id, r :: SearchMem(s, s', id, r)) || (exists id, r :: SearchFrozen(s, s', id, r))
    || (exists id, r :: SearchVersion(s, s', id, r)) || (exists id :: PinVersion(s, s', id))
    || (exists n :: Crash(s, s', n))
  }

  // ----- the invariant

  /** The memdbs hold consecutive stretches of the log. */
  ghost predicate InvMems(s: State) {
    s.seqNum <= |s.log| < KEY_MAX_SEQ && s.mem in s.heap && s.heap[s.mem].lo <= s.seqNum
    && s.heap[s.mem].entries == Segment(s.log, s.heap[s.mem].lo, |s.log|)
    && (s.frozen.None? ==> !s.flushed)
    && (s.frozen.Some? ==> s.frozen.value in s.heap && s.frozen.value != s.mem
                           && s.heap[s.frozen.value].lo <= s.heap[s.mem].lo
                           && s.heap[s.frozen.value].entries == Segment(s.log, s.heap[s.frozen.value].lo, s.heap[s.mem].lo))
  }

  /** The tables hold only flushed log records, and at or above the watermark they answer like the flushed log. */
  ghost predicate InvTables(log: seq<Op>, flushedTo: nat, levels: seq<seq<Table>>, watermark: nat) {
    flushedTo <= |log|
    && WfLevels(levels) && LevelOrder(levels)
    && StoreEntries(levels) <= Segment(log, 0, flushedTo)
    && forall k, q :: watermark <= q ==> SameAnswers(StoreEntries(levels), Segment(log, 0, flushedTo), k, q)
  }

  /** Nobody reads below the watermark, now or after a compaction in progress. */
  ghost predicate InvMarks(s: State) {
    s.watermark <= s.seqNum
    && (forall q: nat :: Live(s, q) ==> s.watermark <= q <= s.seqNum)
    && (s.job.Some? && s.job.value.minSeq.Some? ==>
          s.watermark <= s.job.value.minSeq.value <= s.seqNum && forall q :: Live(s, q) ==> s.job.value.minSeq.value <= q)
  }

  /** While a compaction runs only newer level-0 tables have joined the version it was picked from. */
  ghost predicate InvJob(s: State, flushedTo: nat) {
    s.job.Some? ==>
      var j := s.job.value;
      (forall e :: e in StoreEntries(j.levels) ==> e.sn <= flushedTo)
      && ClosedInputs(j.levels, j.src, j.in0, j.in1) && WfLevels(j.levels) && LevelOrder(j.levels)
      && (forall l: nat :: l > 0 ==> LevelAt(s.levels, l) == LevelAt(j.levels, l))
      && TableSet(LevelAt(j.levels, 0)) <= TableSet(LevelAt(s.levels, 0))
      && forall t, x, y :: t in LevelAt(s.levels, 0) && t !in LevelAt(j.levels, 0) && x in t.entries && y in StoreEntries(j.levels) ==> x.sn > y.sn
  }

  /** Up to `q`, memdb `m` holds exactly the log records of (lo, hi]. */
  ghost predicate Holds(log: seq<Op>, m: MemDb, hi: nat, q: nat) {
    (forall e :: e in m.entries && e.sn <= q ==> m.lo < e.sn <= hi && e.sn <= |log| && e == LogEntry(log, e.sn))
    && forall n :: m.lo < n <= hi && n <= q && n <= |log| ==> LogEntry(log, n) in m.entries
  }

  /** The memdbs a reader loaded hold every record up to `q` that the tables may lack. */
  ghost predicate Loaded(log: seq<Op>, heap: map<nat, MemDb>, flushedTo: nat, q: nat, em: nat, fm: Option<nat>) {
    q <= |log| && em in heap && Holds(log, heap[em], q, q)
    && (if fm.Some? then fm.value in heap && Holds(log, heap[fm.value], heap[em].lo, q) && heap[fm.value].lo <= flushedTo
        else heap[em].lo <= flushedTo)
  }

  ghost predicate Hidden(m: MemDb, k: UKey, q: nat) {
    forall x :: x in m.entries ==> !Visible(x, k, q)
  }

  /** What an iterator reads from its pinned sources. */
  ghost function Sources(heap: map<nat, MemDb>, em: nat, fm: Option<nat>, levels: seq<seq<Table>>): set<Entry> {
    (if em in heap then heap[em].entries else {})
    + (if fm.Some? && fm.value in heap then heap[fm.value].entries else {})
    + StoreEntries(levels)
  }

  /** Up to `q` all of these entries are records of the log. */
  ghost predicate FromLog(log: seq<Op>, S: set<Entry>, q: nat) {
    forall e :: e in S && e.sn <= q ==> 1 <= e.sn <= |log| && e == LogEntry(log, e.sn)
  }

  ghost predicate ReaderOk(log: seq<Op>, heap: map<nat, MemDb>, flushedTo: nat, rd: Reader) {
    match rd
    case HasSeq(_, q) => true
    case HasMems(_, q, em, fm) => Loaded(log, heap, flushedTo, q, em, fm)
    case MissedMem(k, q, em, fm) => Loaded(log, heap, flushedTo, q, em, fm) && Hidden(heap[em], k, q)
    case MissedBoth(k, q, em, fm) =>
      Loaded(log, heap, flushedTo, q, em, fm) && Hidden(heap[em], k, q) && (fm.Some? ==> Hidden(heap[fm.value], k, q))
    case Answered(k, q, r) => q <= |log| && Answers(Segment(log, 0, |log|), k, q, r)
    case Pinned(q, em, fm, levels) =>
      q <= |log| && em in heap && (fm.Some? ==> fm.value in heap)
      && FromLog(log, Sources(heap, em, fm, levels), q)
      && forall k :: SameAnswers(Sources(heap, em, fm, levels), Segment(log, 0, |log|), k, q)
  }

  ghost predicate Inv(s: State) {
    InvMems(s) && InvTables(s.log, FlushedTo(s), s.levels, s.watermark) && InvMarks(s) && InvJob(s, FlushedTo(s))
    && forall id :: id in s.readers ==> ReaderOk(s.log, s.heap, FlushedTo(s), s.readers[id])
  }

  // ----- reading through memdbs and tables

  /** Sets that show the same versions of `k` at `q` answer alike. */
  lemma SameVisible(S: set<Entry>, T: set<Entry>, k: UKey, q: nat)
    requires forall x :: Visible(x, k, q) ==> (x in S <==> x in T)
    ensures SameAnswers(S, T, k, q)
  {
    forall e ensures Newest(S, k, q, e) <==> Newest(T, k, q, e) {
    }
    assert (exists x :: x in S && Visible(x, k, q)) <==> (exists x :: x in T && Visible(x, k, q));
  }

  lemma SegmentMember(log: seq<Op>, lo: nat, hi: nat, e: Entry)
    requires hi <= |log|
    ensures e in Segment(log, lo, hi) <==> lo < e.sn <= hi && e == LogEntry(log, e.sn)
  {
  }

  lemma SegmentUnique(log: seq<Op>, hi: nat)
    requires hi <= |log|
    ensures UniqueSeq(Segment(log, 0, hi))
  {
  }

  /** Appending to the log changes no earlier stretch of it. */
  lemma SegmentStable(log: seq<Op>, op: Op, lo: nat, hi: nat)
    requires hi <= |log|
    ensures Segment(log + [op], lo, hi) == Segment(log, lo, hi)
    ensures Segment(log + [op], lo, |log| + 1) == Segment(log, lo, |log|) + if lo <= |log| then {LogEntry(log + [op], |log| + 1)} else {}
  {
    assert forall n :: 1 <= n <= |log| ==> LogEntry(log + [op], n) == LogEntry(log, n);
  }

  /** If `X` holds only log records and among them the newest visible one, it answers like the log. */
  lemma HasNewest(log: seq<Op>, X: set<Entry>, k: UKey, q: nat, e: Entry)
    requires X <= Segment(log, 0, |log|) && e in X && Newest(Segment(log, 0, |log|), k, q, e)
    ensures SameAnswers(X, Segment(log, 0, |log|), k, q)
  {
    SegmentUnique(log, |log|);
    NewestIsUnique(Segment(log, 0, |log|), k, q, e);
    NewestIsUnique(X, k, q, e);
  }

  /** A record found in the effective memdb is the newest of the log. */
  lemma MemWins(log: seq<Op>, m: MemDb, k: UKey, q: nat, e: Entry)
    requires q <= |log| && Holds(log, m, q, q) && Newest(m.entries, k, q, e)
    ensures Newest(Segment(log, 0, |log|), k, q, e)
  {
    SegmentMember(log, 0, |log|, e);
    forall x | x in Segment(log, 0, |log|) && Visible(x, k, q)
      ensures x.sn <= e.sn
    {
      SegmentMember(log, 0, |log|, x);
      assert x == LogEntry(log, x.sn);
    }
  }

  /** A record found in the frozen memdb after a miss in the effective one is the newest of the log. */
  lemma FrozenWins(log: seq<Op>, em: MemDb, fm: MemDb, k: UKey, q: nat, e: Entry)
    requires q <= |log| && Holds(log, em, q, q) && Holds(log, fm, em.lo, q) && Hidden(em, k, q) && Newest(fm.entries, k, q, e)
    ensures Newest(Segment(log, 0, |log|), k, q, e)
  {
    SegmentMember(log, 0, |log|, e);
    forall x | x in Segment(log, 0, |log|) && Visible(x, k, q)
      ensures x.sn <= e.sn
    {
      SegmentMember(log, 0, |log|, x);
      assert x == LogEntry(log, x.sn);
    }
  }

  /** After a miss in both memdbs every visible record is in the flushed part of the log. */
  lemma BothMissed(log: seq<Op>, heap: map<nat, MemDb>, flushedTo: nat, k: UKey, q: nat, em: nat, fm: Option<nat>)
    requires Loaded(log, heap, flushedTo, q, em, fm) && flushedTo <= |log|
    requires Hidden(heap[em], k, q) && (fm.Some? ==> Hidden(heap[fm.value], k, q))
    ensures SameAnswers(Segment(log, 0, flushedTo), Segment(log, 0, |log|), k, q)
  {
    forall x | Visible(x, k, q)
      ensures x in Segment(log, 0, flushedTo) <==> x in Segment(log, 0, |log|)
    {
      SegmentMember(log, 0, |log|, x);
      SegmentMember(log, 0, flushedTo, x);
      if x in Segment(log, 0, |log|) {
        assert x == LogEntry(log, x.sn);
      }
    }
    SameVisible(Segment(log, 0, flushedTo), Segment(log, 0, |log|), k, q);
  }

  lemma SameTrans(S: set<Entry>, T: set<Entry>, U: set<Entry>, k: UKey, q: nat)
    requires SameAnswers(S, T, k, q) && SameAnswers(T, U, k, q)
    ensures SameAnswers(S, U, k, q)
  {
    forall r ensures Answers(S, k, q, r) <==> Answers(U, k, q, r) {
      assert Answers(S, k, q, r) <==> Answers(T, k, q, r);
    }
  }

  lemma PinnedFromLog(log: seq<Op>, heap: map<nat, MemDb>, flushedTo: nat, levels: seq<seq<Table>>, watermark: nat, q: nat, em: nat, fm: Option<nat>)
    requires Loaded(log, heap, flushedTo, q, em, fm) && InvTables(log, flushedTo, levels, watermark)
    ensures FromLog(log, Sources(heap, em, fm, levels), q)
  {
    hide WfLevels, LevelOrder, StoreEntries, SameAnswers;
    forall e | e in Sources(heap, em, fm, levels) && e.sn <= q
      ensures 1 <= e.sn <= |log| && e == LogEntry(log, e.sn)
    {
      if e in StoreEntries(levels) {
        SegmentMember(log, 0, flushedTo, e);
      }
    }
  }

  /** The sources an iterator pins answer every key like the log. */
  lemma PinnedAnswers(log: seq<Op>, heap: map<nat, MemDb>, flushedTo: nat, levels: seq<seq<Table>>, watermark: nat,
                      q: nat, em: nat, fm: Option<nat>, k: UKey)
    requires Loaded(log, heap, flushedTo, q, em, fm) && InvTables(log, flushedTo, levels, watermark) && watermark <= q
    ensures SameAnswers(Sources(heap, em, fm, levels), Segment(log, 0, |log|), k, q)
  {
    hide WfLevels, LevelOrder, StoreEntries, Answers;
    var X := Sources(heap, em, fm, levels);
    var X' := set e | e in X && e.sn <= q;
    forall e | e in X' ensures e in Segment(log, 0, |log|) {
      SegmentMember(log, 0, |log|, e);
      SegmentMember(log, 0, flushedTo, e);
    }
    SameVisible(X, X', k, q);
    if Finds(heap[em], k, q) {
      var e := NewestExists(heap[em].entries, k, q);
      MemWins(log, heap[em], k, q, e);
      HasNewest(log, X', k, q, e);
    } else if fm.Some? && Finds(heap[fm.value], k, q) {
      var e := NewestExists(heap[fm.value].entries, k, q);
      FrozenWins(log, heap[em], heap[fm.value], k, q, e);
      HasNewest(log, X', k, q, e);
    } else {
      SameVisible(X', StoreEntries(levels), k, q);
      BothMissed(log, heap, flushedTo, k, q, em, fm);
      SameTrans(StoreEntries(levels), Segment(log, 0, flushedTo), Segment(log, 0, |log|), k, q);
      SameTrans(X', StoreEntries(levels), Segment(log, 0, |log|), k, q);
    }
    SameTrans(X, X', Segment(log, 0, |log|), k, q);
  }
}
