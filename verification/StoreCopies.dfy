/** Which entries the sources of a read share: those of a loaded memdb that was flushed before the version
    was loaded. Everything else in the store is there once. */
module StoreCopies {
  import opened Keys
  import opened Lookup
  import opened Tables
  import opened Levels
  import opened CompactionSpec
  import opened Compaction
  import opened CompactionSafety
  import opened LevelEdits
  import opened Store
  import opened StoreProof

  // ----- the invariant

  /** No entry is in two tables of the list, and no table is listed twice. */
  ghost predicate Unshared(tf: seq<Table>) {
    SortedByNum(tf) && forall t, u, e :: t in tf && u in tf && e in t.entries && e in u.entries ==> t == u
  }

  /** A version's tables hold log records, none of them twice. */
  ghost predicate Layered(log: seq<Op>, levels: seq<seq<Table>>) {
    WfLevels(levels) && LevelOrder(levels) && Unshared(LevelAt(levels, 0)) && StoreEntries(levels) <= Segment(log, 0, |log|)
  }

  /** A memdb holds one stretch of the log. */
  ghost predicate Stretch(log: seq<Op>, m: MemDb, hi: nat) {
    m.lo <= hi <= |log| && m.entries == Segment(log, m.lo, hi)
  }

  /** Every memdb, but the one being written, ends before the current one starts, and no two meet. */
  ghost predicate HeapOk(s: State) {
    s.mem in s.heap
    && (forall id :: id in s.heap ==> exists hi: nat :: Stretch(s.log, s.heap[id], hi) && (id == s.mem || hi <= s.heap[s.mem].lo))
    && forall a, b :: a in s.heap && b in s.heap && a != b ==> s.heap[a].entries !! s.heap[b].entries
  }

  /** A reader's two memdbs lie one behind the other, and the first is no longer written. */
  ghost predicate Adjacent(s: State, em: nat, fm: Option<nat>) {
    em in s.heap
    && (fm.Some? ==> fm.value in s.heap && fm.value != em && fm.value != s.mem && Stretch(s.log, s.heap[fm.value], s.heap[em].lo))
  }

  ghost predicate ReaderOnce(s: State, rd: Reader) {
    match rd
    case HasSeq(_, _) => true
    case Answered(_, _, _) => true
    case Pinned(_, em, fm, levels) => Adjacent(s, em, fm) && Layered(s.log, levels)
    case _ => Adjacent(s, rd.em, rd.fm)
  }

  /** Every flushed record above the watermark is still in the tables. */
  ghost predicate Survives(log: seq<Op>, flushedTo: nat, levels: seq<seq<Table>>, watermark: nat) {
    flushedTo <= |log| && Segment(log, watermark, flushedTo) <= StoreEntries(levels)
  }

  ghost predicate TablesOnce(s: State) {
    s.mem in s.heap && (s.frozen.Some? ==> s.frozen.value in s.heap)
    && Unshared(LevelAt(s.levels, 0)) && Survives(s.log, FlushedTo(s), s.levels, s.watermark)
    && (s.job.Some? ==> Layered(s.log, s.job.value.levels))
  }

  ghost predicate Once(s: State) {
    HeapOk(s) && Adjacent(s, s.mem, s.frozen) && TablesOnce(s) && forall id :: id in s.readers ==> ReaderOnce(s, s.readers[id])
  }

  // ----- the log and the memdbs grow

  lemma SegmentPrefix(log: seq<Op>, log': seq<Op>, lo: nat, hi: nat)
    requires log <= log' && hi <= |log|
    ensures Segment(log', lo, hi) == Segment(log, lo, hi)
  {
    assert forall n :: 1 <= n <= |log| ==> LogEntry(log', n) == LogEntry(log, n);
  }

  lemma SegmentWidens(log: seq<Op>, log': seq<Op>, lo: nat, hi: nat, lo': nat, hi': nat)
    requires log <= log' && hi <= |log| && lo' <= lo && hi <= hi' <= |log'|
    ensures Segment(log, lo, hi) <= Segment(log', lo', hi')
  {
    SegmentPrefix(log, log', lo, hi);
  }

  /** Only the current memdb may have changed, and the current one is still it or a new one. */
  ghost predicate Later(s: State, s': State) {
    s.log <= s'.log && (s'.mem == s.mem || s'.mem !in s.heap)
    && forall id :: id in s.heap ==> id in s'.heap && s'.heap[id].lo == s.heap[id].lo && (id != s.mem ==> s'.heap[id] == s.heap[id])
  }

  lemma AdjacentLater(s: State, s': State, em: nat, fm: Option<nat>)
    requires Later(s, s') && Adjacent(s, em, fm)
    ensures Adjacent(s', em, fm)
  {
    if fm.Some? {
      SegmentPrefix(s.log, s'.log, s.heap[fm.value].lo, s.heap[em].lo);
    }
  }

  lemma LayeredLater(log: seq<Op>, log': seq<Op>, levels: seq<seq<Table>>)
    requires log <= log' && Layered(log, levels)
    ensures Layered(log', levels)
  {
    hide WfLevels, LevelOrder, Unshared, StoreEntries, Segment;
    SegmentWidens(log, log', 0, |log|, 0, |log'|);
  }

  lemma ReadersLater(s: State, s': State)
    requires Later(s, s') && s'.readers == s.readers && forall id :: id in s.readers ==> ReaderOnce(s, s.readers[id])
    ensures forall id :: id in s'.readers ==> ReaderOnce(s', s'.readers[id])
  {
    hide Later, Adjacent, Layered;
    forall id | id in s'.readers
      ensures ReaderOnce(s', s'.readers[id])
    {
      ReaderLater(s, s', s.readers[id]);
    }
  }

  lemma ReaderLater(s: State, s': State, rd: Reader)
    requires Later(s, s') && ReaderOnce(s, rd)
    ensures ReaderOnce(s', rd)
  {
    assert s.log <= s'.log;
    hide Later, Adjacent, Layered;
    match rd
    case HasSeq(_, _) =>
    case Answered(_, _, _) =>
    case Pinned(_, em, fm, levels) =>
      AdjacentLater(s, s', em, fm);
      LayeredLater(s.log, s'.log, levels);
    case _ =>
      AdjacentLater(s, s', rd.em, rd.fm);
  }

  lemma TablesLater(s: State, s': State)
    requires TablesOnce(s) && s.log <= s'.log && s'.levels == s.levels && s'.watermark == s.watermark
    requires s'.job.Some? ==> s.job.Some? && s'.job.value.levels == s.job.value.levels
    requires s'.mem in s'.heap && (s'.frozen.Some? ==> s'.frozen.value in s'.heap) && FlushedTo(s') == FlushedTo(s)
    ensures TablesOnce(s')
  {
    hide Layered, Unshared, StoreEntries, FlushedTo, Segment;
    SegmentPrefix(s.log, s'.log, s.watermark, FlushedTo(s));
    if s'.job.Some? {
      LayeredLater(s.log, s'.log, s.job.value.levels);
    }
  }

  lemma StretchLater(log: seq<Op>, log': seq<Op>, m: MemDb, hi: nat)
    requires log <= log' && Stretch(log, m, hi)
    ensures Stretch(log', m, hi)
  {
    SegmentPrefix(log, log', m.lo, hi);
  }

  lemma PutRecHeap(s: State, s': State, op: Op)
    requires InvMems(s) && InvMems(s') && HeapOk(s) && PutRec(s, s', op)
    ensures HeapOk(s')
  {
    hide Segment;
    forall id | id in s'.heap
      ensures exists hi: nat :: Stretch(s'.log, s'.heap[id], hi) && (id == s'.mem || hi <= s'.heap[s'.mem].lo)
    {
      if id == s.mem {
        assert Stretch(s'.log, s'.heap[id], |s'.log|);
      } else {
        var hi: nat :| Stretch(s.log, s.heap[id], hi) && hi <= s.heap[s.mem].lo;
        StretchLater(s.log, s'.log, s.heap[id], hi);
      }
    }
    var e := LogEntry(s'.log, |s'.log|);
    forall a | a in s.heap
      ensures e !in s.heap[a].entries
    {
      var hi: nat :| Stretch(s.log, s.heap[a], hi);
      SegmentMember(s.log, s.heap[a].lo, hi, e);
    }
  }

  lemma RotateHeap(s: State, s': State, id: nat)
    requires InvMems(s) && HeapOk(s) && Rotate(s, s', id)
    ensures HeapOk(s')
  {
    forall a | a in s'.heap
      ensures exists hi: nat :: Stretch(s'.log, s'.heap[a], hi) && (a == s'.mem || hi <= s'.heap[s'.mem].lo)
    {
      if a == id {
        assert Segment(s.log, s.seqNum, s.seqNum) == {};
        assert Stretch(s'.log, s'.heap[a], s.seqNum);
      } else {
        hide Segment;
        var hi: nat :| Stretch(s.log, s.heap[a], hi);
        assert Stretch(s'.log, s'.heap[a], hi);
      }
    }
  }

  lemma MemsApart(s: State)
    requires InvMems(s)
    ensures Adjacent(s, s.mem, s.frozen)
  {
    hide Segment;
  }

  lemma PutRecOnce(s: State, s': State, op: Op)
    requires Inv(s) && Inv(s') && Once(s) && PutRec(s, s', op)
    ensures Once(s')
  {
    InvParts(s);
    InvParts(s');
    hide Inv, InvMems, InvTables, HeapOk, Adjacent, ReaderOnce, TablesOnce;
    PutRecHeap(s, s', op);
    MemsApart(s');
    PutRecLater(s, s', op);
    TablesLater(s, s');
    ReadersLater(s, s');
  }

  lemma PutRecLater(s: State, s': State, op: Op)
    requires InvMems(s) && PutRec(s, s', op)
    ensures Later(s, s') && s'.mem in s'.heap && (s'.frozen.Some? ==> s'.frozen.value in s'.heap) && FlushedTo(s') == FlushedTo(s)
  {
    hide Segment;
  }

  lemma RotateOnce(s: State, s': State, id: nat)
    requires Inv(s) && Inv(s') && Once(s) && Rotate(s, s', id)
    ensures Once(s')
  {
    InvParts(s);
    InvParts(s');
    hide Inv, InvTables, HeapOk, Adjacent, ReaderOnce, TablesOnce, Segment;
    RotateHeap(s, s', id);
    MemsApart(s');
    assert Later(s, s');
    TablesLater(s, s');
    ReadersLater(s, s');
  }

  lemma InvParts(s: State)
    requires Inv(s)
    ensures InvMems(s) && InvTables(s.log, FlushedTo(s), s.levels, s.watermark) && InvMarks(s) && InvJob(s, FlushedTo(s))
  {
  }

  /** Steps that change neither the log, the memdbs, the version nor the readers' memdbs. */
  lemma FrameOnce(s: State, s': State)
    requires Inv(s') && Once(s) && s'.log == s.log && s'.heap == s.heap && s'.mem == s.mem && s'.levels == s.levels
    requires s'.watermark == s.watermark && s'.mem in s'.heap && (s'.frozen.Some? ==> s'.frozen.value in s'.heap) && FlushedTo(s') == FlushedTo(s)
    requires s'.job.Some? ==> s.job.Some? && s'.job.value.levels == s.job.value.levels
    requires forall id :: id in s'.readers ==> ReaderOnce(s, s'.readers[id])
    ensures Once(s')
  {
    InvParts(s');
    hide Inv, InvMems, InvTables, Adjacent, ReaderOnce, TablesOnce, Segment;
    MemsApart(s');
    TablesLater(s, s');
    assert HeapOk(s') by {
      hide Stretch;
    }
    assert Later(s, s');
    forall id | id in s'.readers
      ensures ReaderOnce(s', s'.readers[id])
    {
      ReaderLater(s, s', s'.readers[id]);
    }
  }

  // ----- the version changes

  lemma LayeredNow(s: State)
    requires Inv(s) && Once(s)
    ensures Layered(s.log, s.levels)
  {
    hide LevelOrder, WfLevels, StoreEntries, Unshared, Segment, SameAnswers;
    SegmentWidens(s.log, s.log, 0, FlushedTo(s), 0, |s.log|);
  }

  lemma PickOnce(s: State, s': State, src: nat, in0: seq<Table>, in1: seq<Table>)
    requires Inv(s) && Inv(s') && Once(s) && PickCompaction(s, s', src, in0, in1)
    ensures Once(s')
  {
    LayeredNow(s);
    InvParts(s);
    hide Inv, HeapOk, ReaderOnce, Layered, Unshared, Survives, ClosedInputs, InvMems, InvTables, InvJob, InvMarks;
    assert Later(s, s');
    ReadersLater(s, s');
    assert HeapOk(s') by {
      HeapFrame(s, s');
    }
    AdjacentLater(s, s', s.mem, s.frozen);
  }

  lemma HeapFrame(s: State, s': State)
    requires HeapOk(s) && s'.log == s.log && s'.heap == s.heap && s'.mem == s.mem
    ensures HeapOk(s')
  {
    hide Stretch;
  }

  /** A changed version: what is left to show once its level 0 and its records are known. */
  lemma VersionOnce(s: State, s': State)
    requires Once(s) && Inv(s') && s'.log == s.log && s'.heap == s.heap && s'.mem == s.mem && s'.readers == s.readers && (s'.job == None || s'.job == s.job)
    requires s'.frozen == s.frozen && (s'.frozen.Some? ==> s'.frozen.value in s'.heap)
    requires s'.mem in s'.heap && Unshared(LevelAt(s'.levels, 0)) && Survives(s'.log, FlushedTo(s'), s'.levels, s'.watermark)
    ensures Once(s')
  {
    hide Inv, HeapOk, ReaderOnce, Layered, Unshared, Survives;
    assert Later(s, s');
    ReadersLater(s, s');
    HeapFrame(s, s');
    AdjacentLater(s, s', s.mem, s.frozen);
  }

  lemma FlushOnce(s: State, s': State, t: Table, levels: seq<seq<Table>>)
    requires Inv(s) && Inv(s') && Once(s) && FlushMem(s, s', t, levels)
    ensures Once(s')
  {
    InvParts(s);
    hide Inv, Once, InvMems, InvTables, InvMarks, InvJob;
    FlushedApart(s, t);
    FlushUnshared(s, s', t, levels);
    FlushSurvives(s, s', t, levels);
    hide FlushMem;
    VersionOnce(s, s');
  }

  /** The records being flushed are numbered above every record in the tables. */
  lemma FlushedApart(s: State, t: Table)
    requires InvMems(s) && InvTables(s.log, FlushedTo(s), s.levels, s.watermark)
    requires s.frozen.Some? && !s.flushed && Elems(t.entries) == s.heap[s.frozen.value].entries
    ensures forall x :: x in t.entries ==> x.sn > FlushedTo(s)
    ensures forall y :: y in StoreEntries(s.levels) ==> y.sn <= FlushedTo(s)
  {
    hide Segment, StoreEntries, WfLevels, LevelOrder, SameAnswers;
    forall x | x in t.entries
      ensures x.sn > FlushedTo(s)
    {
      assert x in Elems(t.entries);
      SegmentMember(s.log, FlushedTo(s), s.heap[s.mem].lo, x);
    }
    forall y | y in StoreEntries(s.levels)
      ensures y.sn <= FlushedTo(s)
    {
      SegmentMember(s.log, 0, FlushedTo(s), y);
    }
  }

  lemma FlushUnshared(s: State, s': State, t: Table, levels: seq<seq<Table>>)
    requires FlushMem(s, s', t, levels) && s.mem in s.heap && Unshared(LevelAt(s.levels, 0))
    requires forall x :: x in t.entries ==> x.sn > FlushedTo(s)
    requires forall y :: y in StoreEntries(s.levels) ==> y.sn <= FlushedTo(s)
    ensures Unshared(LevelAt(levels, 0))
  {
    hide StoreEntries, WfTable;
    var old0, new0 := LevelAt(s.levels, 0), LevelAt(levels, 0);
    forall u | u in new0
      ensures u in old0 || u == t
    {
      assert u in TableSet(new0);
    }
    forall u, e | u in old0 && e in u.entries
      ensures e !in t.entries
    {
      InStore(s.levels, 0, u, e);
    }
  }

  lemma FlushSurvives(s: State, s': State, t: Table, levels: seq<seq<Table>>)
    requires InvMems(s) && FlushMem(s, s', t, levels) && Survives(s.log, FlushedTo(s), s.levels, s.watermark)
    ensures FlushedTo(s') <= |s.log| && Survives(s'.log, FlushedTo(s'), s'.levels, s'.watermark)
  {
    var old0, new0 := LevelAt(s.levels, 0), LevelAt(levels, 0);
    hide Segment, StoreEntries, WfTable;
    forall l: nat, u
      ensures u in LevelAt(levels, l) <==> u in LevelAt(s.levels, l) || (l == 0 && u == t)
    {
      assert u in TableSet(new0) <==> u in new0;
      assert u in TableSet(old0) <==> u in old0;
    }
    FlushEntries(s.levels, levels, t);
    var v, v' := FlushedTo(s), FlushedTo(s');
    forall e | e in Segment(s.log, s.watermark, v')
      ensures e in StoreEntries(levels)
    {
      SegmentMember(s.log, s.watermark, v', e);
      SegmentMember(s.log, s.watermark, v, e);
      SegmentMember(s.log, v, v', e);
      assert e.sn <= v ==> e in StoreEntries(s.levels);
    }
  }

  lemma EditUnshared(before: seq<seq<Table>>, after: seq<seq<Table>>, src: nat, del0: set<Table>, del1: set<Table>, add: set<Table>)
    requires Edited(before, after, src, del0, del1, add) && Unshared(LevelAt(before, 0))
    ensures Unshared(LevelAt(after, 0))
  {
    var old0, new0 := LevelAt(before, 0), LevelAt(after, 0);
    forall t | t in new0
      ensures t in old0
    {
      assert t in TableSet(new0);
      assert t in TableSet(old0);
    }
  }

  lemma CommitOnce(s: State, s': State, es: seq<Entry>, outs: seq<Table>, levels: seq<seq<Table>>)
    requires Inv(s) && Inv(s') && Once(s) && CommitCompaction(s, s', es, outs, levels)
    ensures Once(s')
  {
    InvParts(s);
    hide Inv, Once, InvMems, InvTables, InvJob, Unshared, Store.Built, Edited, HeapOk, Adjacent, ReaderOnce;
    CommitUnshared(s, s', es, outs, levels);
    CommitSurvives(s, s', es, outs, levels);
    SameHeap(s, s', es, outs, levels);
    hide CommitCompaction;
    VersionOnce(s, s');
  }

  lemma SameHeap(s: State, s': State, es: seq<Entry>, outs: seq<Table>, levels: seq<seq<Table>>)
    requires InvMems(s) && CommitCompaction(s, s', es, outs, levels)
    ensures s'.mem in s'.heap && (s'.frozen.Some? ==> s'.frozen.value in s'.heap)
  {
    hide Store.Built, Edited, Segment;
  }

  lemma CommitUnshared(s: State, s': State, es: seq<Entry>, outs: seq<Table>, levels: seq<seq<Table>>)
    requires CommitCompaction(s, s', es, outs, levels) && Unshared(LevelAt(s.levels, 0))
    ensures Unshared(LevelAt(s'.levels, 0))
  {
    hide Store.Built, Edited, Unshared, TableSet;
    var j := s.job.value;
    EditUnshared(s.levels, levels, j.src, TableSet(j.in0), TableSet(j.in1), TableSet(outs));
  }

  /** A compaction drops no record above its watermark. */
  lemma CommitSurvives(s: State, s': State, es: seq<Entry>, outs: seq<Table>, levels: seq<seq<Table>>)
    requires InvMems(s) && InvJob(s, FlushedTo(s)) && InvMarks(s) && CommitCompaction(s, s', es, outs, levels)
    requires Survives(s.log, FlushedTo(s), s.levels, s.watermark)
    ensures FlushedTo(s') <= |s'.log| && Survives(s'.log, FlushedTo(s'), s'.levels, s'.watermark)
  {
    hide InvJob, Store.Built, Edited, StoreEntries, Segment, RestEntries, EntriesOf, TableSet, Kept, InputsFit;
    var j := s.job.value;
    var a, b := JobFits(s, FlushedTo(s));
    BuiltIsLegal(j, es, outs);
    EditEntries(s.levels, levels, j.src, TableSet(j.in0), TableSet(j.in1), a, b, TableSet(outs));
    BuiltInput(j, es, outs);
    forall e | e in Segment(s.log, j.minSeq.value, FlushedTo(s))
      ensures e in StoreEntries(levels)
    {
      SegmentMember(s.log, j.minSeq.value, FlushedTo(s), e);
      SegmentMember(s.log, s.watermark, FlushedTo(s), e);
      assert e in StoreEntries(s.levels);
      if e in Elems(es) {
        KeptAbove(es, j.minSeq.value, DeeperOf(j), e);
      }
    }
  }

  lemma BuiltInput(j: Compacting, es: seq<Entry>, outs: seq<Table>)
    requires Store.Built(j, es, outs)
    ensures Sorted(es) && Elems(es) == EntriesOf(TableSet(j.in0) + TableSet(j.in1))
  {
  }

  lemma KeptAbove(es: seq<Entry>, minSeq: nat, deeper: seq<seq<Table>>, e: Entry)
    requires Sorted(es) && e in Elems(es) && e.sn > minSeq
    ensures e in Elems(Kept(es, |es|, minSeq, deeper))
  {
    KeptMembers(es, |es|, minSeq, deeper);
    var i :| 0 <= i < |es| && es[i] == e;
    forall j | 0 <= j < i && es[j].ukey == e.ukey
      ensures es[j].sn > minSeq
    {
      assert Less(es[j], es[i]);
    }
    hide Kept;
    assert !Obsolete(es, i, minSeq, deeper);
  }

  lemma MoveOnce(s: State, s': State, levels: seq<seq<Table>>)
    requires Inv(s) && Inv(s') && Once(s) && CommitMove(s, s', levels)
    ensures Once(s')
  {
    InvParts(s);
    hide Inv, Once, InvMems, InvTables, InvJob, InvMarks, Unshared, Edited;
    var j := s.job.value;
    EditUnshared(s.levels, levels, j.src, TableSet(j.in0), {}, TableSet(j.in0));
    MoveSurvives(s, s', levels);
    MoveHeap(s, s', levels);
    hide CommitMove;
    VersionOnce(s, s');
  }

  lemma MoveHeap(s: State, s': State, levels: seq<seq<Table>>)
    requires InvMems(s) && CommitMove(s, s', levels)
    ensures s'.mem in s'.heap && (s'.frozen.Some? ==> s'.frozen.value in s'.heap)
  {
    hide Edited, Segment;
  }

  lemma MoveSurvives(s: State, s': State, levels: seq<seq<Table>>)
    requires InvMems(s) && InvTables(s.log, FlushedTo(s), s.levels, s.watermark) && InvJob(s, FlushedTo(s)) && CommitMove(s, s', levels)
    requires Survives(s.log, FlushedTo(s), s.levels, s.watermark)
    ensures FlushedTo(s') <= |s'.log| && Survives(s'.log, FlushedTo(s'), s'.levels, s'.watermark)
  {
    hide InvTables, InvJob, Edited, InputsFit, Segment, StoreEntries;
    var j := s.job.value;
    var a, b := JobFits(s, FlushedTo(s));
    assert TableSet(j.in1) == {} && j.in0 == [j.in0[0]];
    MoveLevels(s.log, FlushedTo(s), s.levels, levels, s.watermark, j.src, j.in0[0], a, b);
  }

  // ----- readers move

  lemma LoadMemsOnce(s: State, s': State, id: nat)
    requires Inv(s') && Once(s) && LoadMems(s, s', id)
    ensures Once(s')
  {
    hide HeapOk, Adjacent, TablesOnce;
    OnceParts(s);
    hide Inv;
    FrameReader(s, s', id);
  }

  lemma OnceParts(s: State)
    requires Once(s)
    ensures HeapOk(s) && Adjacent(s, s.mem, s.frozen) && TablesOnce(s)
  {
  }

  /** One reader moved to a state that is in order; nothing else changed. */
  lemma FrameReader(s: State, s': State, id: nat)
    requires Inv(s') && Once(s) && id in s'.readers && s' == s.(readers := s.readers[id := s'.readers[id]])
    requires ReaderOnce(s, s'.readers[id])
    ensures Once(s')
  {
    hide Inv, ReaderOnce, HeapOk, Adjacent;
    FrameOnce(s, s');
  }

  lemma PinOnce(s: State, s': State, id: nat)
    requires Inv(s) && Inv(s') && Once(s) && PinVersion(s, s', id)
    ensures Once(s')
  {
    LayeredNow(s);
    hide Inv, HeapOk, Adjacent, TablesOnce, Layered;
    assert ReaderOnce(s, s.readers[id]);
    FrameReader(s, s', id);
  }

  lemma StartOnce(s: State, s': State, id: nat, kind: Kind, q: nat)
    requires Inv(s') && Once(s) && StartRead(s, s', id, kind, q)
    ensures Once(s')
  {
    hide Inv, Once;
    FrameReader(s, s', id);
  }

  lemma SearchOnce(s: State, s': State, id: nat, r: Option<Bytes>)
    requires Inv(s') && Once(s) && (SearchMem(s, s', id, r) || SearchFrozen(s, s', id, r) || SearchVersion(s, s', id, r))
    ensures Once(s')
  {
    hide Inv, HeapOk, Adjacent, TablesOnce, Answers, StoreEntries, Finds;
    assert ReaderOnce(s, s.readers[id]);
    FrameReader(s, s', id);
  }

  lemma FrameSteps(s: State, s': State)
    requires Inv(s) && Inv(s') && Once(s)
    requires Publish(s, s') || DropFrozen(s, s') || AcquireSnapshot(s, s') || (exists q :: ReleaseSnapshot(s, s', q)) || (exists m :: ReadMinSeq(s, s', m))
    ensures Once(s')
  {
    InvParts(s);
    InvParts(s');
    assert forall id :: id in s'.readers ==> ReaderOnce(s, s'.readers[id]);
    hide Inv, InvTables, InvMarks, InvJob, HeapOk, Adjacent, ReaderOnce, TablesOnce;
    if DropFrozen(s, s') && !s.flushed {
      if s.heap[s.frozen.value].lo < s.heap[s.mem].lo {
        SegmentMember(s.log, FlushedTo(s), FlushedTo(s'), LogEntry(s.log, FlushedTo(s')));
      }
    }
    hide Segment;
    FrameOnce(s, s');
  }

  lemma CrashOnce(s: State, s': State, n: nat)
    requires Inv(s) && Once(s) && Crash(s, s', n)
    ensures Once(s')
  {
    OnceParts(s);
    hide Inv, HeapOk, ReaderOnce, Unshared, StoreEntries, Layered;
    var lo := FlushedTo(s);
    SegmentCut(s.log, n, s'.watermark, lo);
    hide Segment;
    assert Stretch(s'.log, s'.heap[0], n);
    OneMemDb(s', n);
    NothingFlushedAbove(s.log, lo, s.levels, s.watermark);
  }

  lemma OneMemDb(s: State, n: nat)
    requires s.heap.Keys == {0} && s.mem == 0 && Stretch(s.log, s.heap[0], n)
    ensures HeapOk(s)
  {
    hide Stretch;
  }

  /** A watermark above the flushed part says nothing, and may as well be its end. */
  lemma NothingFlushedAbove(log: seq<Op>, lo: nat, levels: seq<seq<Table>>, watermark: nat)
    requires Survives(log, lo, levels, watermark)
    ensures Survives(log, lo, levels, if watermark < lo then watermark else lo)
  {
    hide StoreEntries;
    assert Segment(log, lo, lo) == {};
  }

  lemma NextOnce(s: State, s': State)
    requires Inv(s) && Inv(s') && Once(s) && Next(s, s')
    ensures Once(s')
  {
    hide *;
    StepKinds(s, s');
    if op :| PutRec(s, s', op) { PutRecOnce(s, s', op); }
    else if id :| Rotate(s, s', id) { RotateOnce(s, s', id); }
    else if t, levels :| FlushMem(s, s', t, levels) { FlushOnce(s, s', t, levels); }
    else if src, in0, in1 :| PickCompaction(s, s', src, in0, in1) { PickOnce(s, s', src, in0, in1); }
    else if es, outs, levels :| CommitCompaction(s, s', es, outs, levels) { CommitOnce(s, s', es, outs, levels); }
    else if levels :| CommitMove(s, s', levels) { MoveOnce(s, s', levels); }
    else if id, kind, q :| StartRead(s, s', id, kind, q) { StartOnce(s, s', id, kind, q); }
    else if id :| LoadMems(s, s', id) { LoadMemsOnce(s, s', id); }
    else if id, r :| SearchMem(s, s', id, r) { SearchOnce(s, s', id, r); }
    else if id, r :| SearchFrozen(s, s', id, r) { SearchOnce(s, s', id, r); }
    else if id, r :| SearchVersion(s, s', id, r) { SearchOnce(s, s', id, r); }
    else if id :| PinVersion(s, s', id) { PinOnce(s, s', id); }
    else if n :| Crash(s, s', n) { CrashOnce(s, s', n); }
    else { FrameSteps(s, s'); }
  }

  lemma InitOnce(s: State)
    requires Init(s)
    ensures Once(s)
  {
    assert Segment([], 0, 0) == {};
    assert Stretch(s.log, s.heap[0], 0);
  }

  /** In every run no record is in two memdbs, in two tables of a version, or twice among the inputs of a compaction. */
  lemma {:induction false} RunOnce(trace: seq<State>, i: nat)
    requires Run(trace) && i < |trace|
    ensures Inv(trace[i]) && Once(trace[i])
  {
    RunKeeps(trace, i);
    hide Inv, Once, Next, Init;
    if i == 0 {
      InitOnce(trace[0]);
    } else {
      RunOnce(trace, i - 1);
      NextOnce(trace[i - 1], trace[i]);
    }
  }

  // ----- what memdbs and tables share

  /** What a reader's two memdbs hold. */
  ghost function MemEntries(s: State, em: nat, fm: Option<nat>): set<Entry>
    requires em in s.heap && (fm.Some? ==> fm.value in s.heap)
  {
    s.heap[em].entries + if fm.Some? then s.heap[fm.value].entries else {}
  }

  /** Everything in a reader's memdbs is numbered above this. */
  function StartOf(s: State, em: nat, fm: Option<nat>): nat
    requires em in s.heap && (fm.Some? ==> fm.value in s.heap)
  {
    if fm.Some? then s.heap[fm.value].lo else s.heap[em].lo
  }

  /** A reader's memdbs hold one stretch of the log. */
  lemma MemStretch(s: State, em: nat, fm: Option<nat>) returns (end: nat)
    requires HeapOk(s) && Adjacent(s, em, fm)
    ensures StartOf(s, em, fm) <= end <= |s.log| && MemEntries(s, em, fm) == Segment(s.log, StartOf(s, em, fm), end)
  {
    end :| Stretch(s.log, s.heap[em], end);
    if fm.Some? {
      var lo, mid := s.heap[fm.value].lo, s.heap[em].lo;
      forall e
        ensures e in Segment(s.log, lo, end) <==> e in Segment(s.log, lo, mid) || e in Segment(s.log, mid, end)
      {
        SegmentMember(s.log, lo, end, e);
        SegmentMember(s.log, lo, mid, e);
        SegmentMember(s.log, mid, end, e);
      }
    }
  }

  /** Between its two loads a reader's memdbs may be flushed. Its memdbs then share with the version it loads exactly
      the records behind their start that the tables still hold: none when nothing behind the start has been flushed,
      and, as long as no compaction has used a watermark above the start, some exactly when something has. */
  lemma SharedIff(trace: seq<State>, i: nat, id: nat) returns (end: nat)
    requires Run(trace) && i < |trace| && id in trace[i].readers && trace[i].readers[id].HasMems?
    ensures var s := trace[i]; var rd := s.readers[id];
            && rd.em in s.heap && (rd.fm.Some? ==> rd.fm.value in s.heap)
            && s.mem in s.heap && (s.frozen.Some? ==> s.frozen.value in s.heap)
            && var start, M, T := StartOf(s, rd.em, rd.fm), MemEntries(s, rd.em, rd.fm), StoreEntries(s.levels);
               start <= end <= |s.log| && M == Segment(s.log, start, end)
               && (forall e :: e in M && e in T <==> e in T && start < e.sn <= end)
               && (FlushedTo(s) <= start ==> M !! T)
               && (s.watermark <= start < end ==> (!(M !! T) <==> start < FlushedTo(s)))
  {
    RunOnce(trace, i);
    var s := trace[i];
    var rd := s.readers[id];
    ReaderApart(s, id);
    InvParts(s);
    OnceParts(s);
    hide Run, Inv, Once, InvMarks, InvJob, HeapOk, Adjacent, LevelOrder, WfLevels, StoreEntries, Segment, Layered, SameAnswers, Unshared, MemEntries;
    end := MemStretch(s, rd.em, rd.fm);
    SharedRecords(s, StartOf(s, rd.em, rd.fm), end);
  }

  lemma ReaderApart(s: State, id: nat)
    requires Once(s) && id in s.readers && s.readers[id].HasMems?
    ensures Adjacent(s, s.readers[id].em, s.readers[id].fm) && s.readers[id].em in s.heap && (s.readers[id].fm.Some? ==> s.readers[id].fm.value in s.heap)
  {
    hide HeapOk, TablesOnce;
    assert ReaderOnce(s, s.readers[id]);
  }

  lemma SharedRecords(s: State, start: nat, end: nat)
    requires InvMems(s) && InvTables(s.log, FlushedTo(s), s.levels, s.watermark) && Survives(s.log, FlushedTo(s), s.levels, s.watermark)
    requires start <= end <= |s.log|
    ensures var M, T := Segment(s.log, start, end), StoreEntries(s.levels);
            && (forall e :: e in M && e in T <==> e in T && start < e.sn <= end)
            && (FlushedTo(s) <= start ==> M !! T)
            && (s.watermark <= start < end ==> (!(M !! T) <==> start < FlushedTo(s)))
  {
    var M, T, v := Segment(s.log, start, end), StoreEntries(s.levels), FlushedTo(s);
    hide Segment, StoreEntries, WfLevels, LevelOrder, SameAnswers;
    forall e | e in T
      ensures e.sn <= v && (e in M <==> start < e.sn <= end)
    {
      SegmentMember(s.log, 0, v, e);
      SegmentMember(s.log, start, end, e);
    }
    forall e | e in M ensures start < e.sn <= end {
      SegmentMember(s.log, start, end, e);
    }
    if s.watermark <= start < end && start < v {
      var e := LogEntry(s.log, start + 1);
      SegmentMember(s.log, start, end, e);
      SegmentMember(s.log, s.watermark, v, e);
      assert e in M && e in T;
    }
  }
}
