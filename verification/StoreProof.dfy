/** Every step of the store keeps its invariant, so every read returns what the flat log says. */
module StoreProof {
  import opened Keys
  import opened Lookup
  import opened Tables
  import opened Levels
  import opened CompactionSpec
  import opened Compaction
  import opened CompactionSafety
  import opened LevelEdits
  import opened Builder
  import opened Store

  // ----- readers survive the steps of others

  /** The log and the memdbs only grow by records newer than everything so far. */
  ghost predicate Grows(log: seq<Op>, heap: map<nat, MemDb>, flushedTo: nat, log': seq<Op>, heap': map<nat, MemDb>, flushedTo': nat) {
    log <= log' && flushedTo <= flushedTo'
    && forall id :: id in heap ==>
         id in heap' && heap'[id].lo == heap[id].lo && heap[id].entries <= heap'[id].entries
         && forall e :: e in heap'[id].entries && e !in heap[id].entries ==> e.sn > |log|
  }

  lemma HoldsGrows(log: seq<Op>, log': seq<Op>, m: MemDb, m': MemDb, hi: nat, q: nat)
    requires Holds(log, m, hi, q) && log <= log' && q <= |log| && m'.lo == m.lo && m.entries <= m'.entries
    requires forall e :: e in m'.entries && e !in m.entries ==> e.sn > |log|
    ensures Holds(log', m', hi, q)
  {
    forall n | m'.lo < n <= hi && n <= q && n <= |log'|
      ensures LogEntry(log', n) in m'.entries
    {
      assert LogEntry(log', n) == LogEntry(log, n);
    }
  }

  lemma SegmentGrows(log: seq<Op>, log': seq<Op>, k: UKey, q: nat)
    requires log <= log' && q <= |log|
    ensures SameAnswers(Segment(log, 0, |log|), Segment(log', 0, |log'|), k, q)
  {
    forall x | Visible(x, k, q)
      ensures x in Segment(log, 0, |log|) <==> x in Segment(log', 0, |log'|)
    {
      SegmentMember(log, 0, |log|, x);
      SegmentMember(log', 0, |log'|, x);
    }
    SameVisible(Segment(log, 0, |log|), Segment(log', 0, |log'|), k, q);
  }

  lemma ReaderGrows(log: seq<Op>, heap: map<nat, MemDb>, flushedTo: nat, log': seq<Op>, heap': map<nat, MemDb>, flushedTo': nat, rd: Reader)
    requires Grows(log, heap, flushedTo, log', heap', flushedTo') && ReaderOk(log, heap, flushedTo, rd)
    ensures ReaderOk(log', heap', flushedTo', rd)
  {
    hide SameAnswers, Segment, Holds, Answers;
    match rd
    case HasSeq(_, q) =>
    case Answered(k, q, r) =>
      AnswersGrow(log, log', k, q, r);
    case Pinned(q, em, fm, levels) =>
      SourcesGrow(log, heap, log', heap', em, fm, levels, q);
      forall k
        ensures SameAnswers(Sources(heap', em, fm, levels), Segment(log', 0, |log'|), k, q)
      {
        SameVisible(Sources(heap', em, fm, levels), Sources(heap, em, fm, levels), k, q);
        SegmentGrows(log, log', k, q);
        SameTrans(Sources(heap', em, fm, levels), Sources(heap, em, fm, levels), Segment(log, 0, |log|), k, q);
        SameTrans(Sources(heap', em, fm, levels), Segment(log, 0, |log|), Segment(log', 0, |log'|), k, q);
      }
    case _ =>
      HoldsGrows(log, log', heap[rd.em], heap'[rd.em], rd.q, rd.q);
      if rd.fm.Some? {
        HoldsGrows(log, log', heap[rd.fm.value], heap'[rd.fm.value], heap[rd.em].lo, rd.q);
      }
  }

  lemma SourcesGrow(log: seq<Op>, heap: map<nat, MemDb>, log': seq<Op>, heap': map<nat, MemDb>, em: nat, fm: Option<nat>, levels: seq<seq<Table>>, q: nat)
    requires log <= log' && q <= |log| && FromLog(log, Sources(heap, em, fm, levels), q)
    requires forall e :: e in Sources(heap', em, fm, levels) && e !in Sources(heap, em, fm, levels) ==> e.sn > |log|
    ensures FromLog(log', Sources(heap', em, fm, levels), q)
  {
    hide Sources;
    forall e | e in Sources(heap', em, fm, levels) && e.sn <= q
      ensures 1 <= e.sn <= |log'| && e == LogEntry(log', e.sn)
    {
      assert e in Sources(heap, em, fm, levels);
    }
  }

  lemma AnswersGrow(log: seq<Op>, log': seq<Op>, k: UKey, q: nat, r: Option<Bytes>)
    requires log <= log' && q <= |log| && Answers(Segment(log, 0, |log|), k, q, r)
    ensures Answers(Segment(log', 0, |log'|), k, q, r)
  {
    SegmentGrows(log, log', k, q);
  }

  lemma ReadersGrow(s: State, s': State)
    requires Inv(s) && s'.readers == s.readers && InvMems(s')
    requires Grows(s.log, s.heap, FlushedTo(s), s'.log, s'.heap, FlushedTo(s'))
    ensures forall id :: id in s'.readers ==> ReaderOk(s'.log, s'.heap, FlushedTo(s'), s'.readers[id])
  {
    hide ReaderOk, Grows, InvTables, InvMarks, InvJob;
    forall id | id in s'.readers
      ensures ReaderOk(s'.log, s'.heap, FlushedTo(s'), s'.readers[id])
    {
      ReaderGrows(s.log, s.heap, FlushedTo(s), s'.log, s'.heap, FlushedTo(s'), s.readers[id]);
    }
  }

  // ----- the writer and the memdbs

  /** Steps that leave snapshots, readers and the compaction alone keep the watermark facts. */
  lemma MarksKept(s: State, s': State)
    requires InvMarks(s) && s'.snaps == s.snaps && s'.readers == s.readers && s'.job == s.job
    requires s'.watermark == s.watermark && s.seqNum <= s'.seqNum
    ensures InvMarks(s')
  {
    forall q: nat
      ensures Live(s', q) <==> Live(s, q)
    {
    }
  }

  lemma PutRecKeeps(s: State, s': State, op: Op)
    requires Inv(s) && PutRec(s, s', op)
    ensures Inv(s')
  {
    hide ReaderOk, WfLevels, LevelOrder, SameAnswers, ClosedInputs, Segment;
    SegmentStable(s.log, op, s.heap[s.mem].lo, |s.log|);
    SegmentStable(s.log, op, 0, FlushedTo(s));
    if s.frozen.Some? {
      SegmentStable(s.log, op, s.heap[s.frozen.value].lo, s.heap[s.mem].lo);
    }
    MarksKept(s, s');
    assert InvMems(s');
    assert InvTables(s'.log, FlushedTo(s'), s'.levels, s'.watermark);
    assert InvJob(s', FlushedTo(s'));
    ReadersGrow(s, s');
  }

  lemma PublishKeeps(s: State, s': State)
    requires Inv(s) && Publish(s, s')
    ensures Inv(s')
  {
    hide ReaderOk, InvTables, Segment, InvMarks;
    MarksKept(s, s');
    assert InvMems(s');
    assert InvJob(s', FlushedTo(s'));
  }

  lemma RotateKeeps(s: State, s': State, id: nat)
    requires Inv(s) && Rotate(s, s', id)
    ensures Inv(s')
  {
    hide ReaderOk, InvTables, InvMarks;
    MarksKept(s, s');
    assert InvMems(s');
    assert InvJob(s', FlushedTo(s'));
    ReadersGrow(s, s');
  }

  lemma DropFrozenKeeps(s: State, s': State)
    requires Inv(s) && DropFrozen(s, s')
    ensures Inv(s')
  {
    hide ReaderOk, InvTables, InvMarks;
    MarksKept(s, s');
    assert InvMems(s');
    if FlushedTo(s) < FlushedTo(s') {
      SegmentMember(s.log, FlushedTo(s), FlushedTo(s'), LogEntry(s.log, FlushedTo(s')));
    }
    assert FlushedTo(s') == FlushedTo(s);
    assert InvJob(s', FlushedTo(s'));
  }

  /** A table newer than the whole version joins level 0. */
  lemma FlushLevels(before: seq<seq<Table>>, after: seq<seq<Table>>, t: Table)
    requires WfLevels(before) && LevelOrder(before) && WfTable(t)
    requires TableSet(LevelAt(after, 0)) == TableSet(LevelAt(before, 0)) + {t}
    requires forall l: nat :: l > 0 ==> LevelAt(after, l) == LevelAt(before, l)
    requires forall x, y :: x in t.entries && y in StoreEntries(before) ==> x.sn > y.sn
    ensures WfLevels(after) && LevelOrder(after)
    ensures StoreEntries(after) == StoreEntries(before) + Elems(t.entries)
  {
    hide WfTable, Disjoint, StoreEntries;
    forall l: nat, u
      ensures u in LevelAt(after, l) <==> u in LevelAt(before, l) || (l == 0 && u == t)
    {
      assert u in TableSet(LevelAt(after, 0)) <==> u in LevelAt(after, 0);
      assert u in TableSet(LevelAt(before, 0)) <==> u in LevelAt(before, 0);
    }
    forall l | 0 <= l < |after|
      ensures WfTables(after[l]) && (l > 0 ==> Disjoint(after[l]))
    {
      LevelAtWf(before, l);
      assert after[l] == LevelAt(after, l);
    }
    FlushEntries(before, after, t);
    FlushOrder(before, after, t);
  }

  lemma FlushEntries(before: seq<seq<Table>>, after: seq<seq<Table>>, t: Table)
    requires forall l: nat, u :: u in LevelAt(after, l) <==> u in LevelAt(before, l) || (l == 0 && u == t)
    ensures StoreEntries(after) == StoreEntries(before) + Elems(t.entries)
  {
    hide StoreEntries;
    forall e | e in StoreEntries(after)
      ensures e in StoreEntries(before) + Elems(t.entries)
    {
      var l, u := FromStore(after, e);
      if u in LevelAt(before, l) {
        InStore(before, l, u, e);
      }
    }
    forall e | e in StoreEntries(before) + Elems(t.entries)
      ensures e in StoreEntries(after)
    {
      if e in t.entries {
        InStore(after, 0, t, e);
      } else {
        var l, u := FromStore(before, e);
        InStore(after, l, u, e);
      }
    }
  }

  lemma FlushOrder(before: seq<seq<Table>>, after: seq<seq<Table>>, t: Table)
    requires LevelOrder(before)
    requires forall l: nat, u :: u in LevelAt(after, l) <==> u in LevelAt(before, l) || (l == 0 && u == t)
    requires forall x, y :: x in t.entries && y in StoreEntries(before) ==> x.sn > y.sn
    ensures LevelOrder(after)
  {
    hide LevelOrder, StoreEntries;
    LevelOrderAt(before);
    LevelOrderAt(after);
    forall i: nat, j: nat | i < j
      ensures OrderAt(after, i, j)
    {
      forall x, y | x in LevelEntries(LevelAt(after, i)) && y in LevelEntries(LevelAt(after, j)) && x.ukey == y.ukey
        ensures x.sn > y.sn
      {
        var u :| u in LevelAt(after, i) && x in u.entries;
        var v :| v in LevelAt(after, j) && y in v.entries;
        assert v in LevelAt(before, j);
        InStore(before, j, v, y);
        assert OrderAt(before, i, j);
        if u in LevelAt(before, i) {
          assert x in LevelEntries(LevelAt(before, i)) && y in LevelEntries(LevelAt(before, j));
        }
      }
    }
  }

  lemma FlushMemKeeps(s: State, s': State, t: Table, levels: seq<seq<Table>>)
    requires Inv(s) && FlushMem(s, s', t, levels)
    ensures Inv(s')
  {
    hide ReaderOk, Segment, SameAnswers, LevelOrder, WfLevels, WfTable, StoreEntries, ClosedInputs, TableSet;
    var v, v' := FlushedTo(s), FlushedTo(s');
    var N := Elems(t.entries);
    forall x | x in t.entries
      ensures x.sn > v
    {
      assert x in N;
      SegmentMember(s.log, v, v', x);
    }
    forall y | y in StoreEntries(s.levels)
      ensures y.sn <= v
    {
      SegmentMember(s.log, 0, v, y);
    }
    FlushLevels(s.levels, levels, t);
    FlushTables(s.log, v, v', s.levels, levels, s.watermark, N);
    MarksKept(s, s');
    FlushJob(s, s', t);
    ReadersGrow(s, s');
  }

  lemma FlushTables(log: seq<Op>, v: nat, v': nat, levels: seq<seq<Table>>, levels': seq<seq<Table>>, watermark: nat, N: set<Entry>)
    requires InvTables(log, v, levels, watermark) && v <= v' <= |log| && N == Segment(log, v, v')
    requires WfLevels(levels') && LevelOrder(levels') && StoreEntries(levels') == StoreEntries(levels) + N
    ensures InvTables(log, v', levels', watermark)
  {
    hide LevelOrder, WfLevels, StoreEntries, SameAnswers;
    var S, T := StoreEntries(levels), Segment(log, 0, v);
    assert Segment(log, 0, v') == T + N;
    forall k, q | watermark <= q
      ensures SameAnswers(S + N, T + N, k, q)
    {
      AddNewer(S, T, N, k, q);
    }
  }

  lemma FlushJob(s: State, s': State, t: Table)
    requires InvMems(s) && InvMems(s') && InvJob(s, FlushedTo(s)) && FlushMem(s, s', t, s'.levels)
    requires forall x :: x in t.entries ==> x.sn > FlushedTo(s)
    ensures InvJob(s', FlushedTo(s'))
  {
    hide Segment, LevelOrder, WfLevels, StoreEntries, ClosedInputs, WfTable;
    if s.job.Some? {
      var j := s.job.value;
      forall u, x, y | u in LevelAt(s'.levels, 0) && u !in LevelAt(j.levels, 0) && x in u.entries && y in StoreEntries(j.levels)
        ensures x.sn > y.sn
      {
        assert u in TableSet(LevelAt(s'.levels, 0));
        assert u in LevelAt(s.levels, 0) || u == t;
      }
    }
  }

  // ----- compactions

  lemma PickKeeps(s: State, s': State, src: nat, in0: seq<Table>, in1: seq<Table>)
    requires Inv(s) && PickCompaction(s, s', src, in0, in1)
    ensures Inv(s')
  {
    hide ReaderOk, Segment, SameAnswers, ClosedInputs, LevelOrder, WfLevels;
    forall e | e in StoreEntries(s.levels) ensures e.sn <= FlushedTo(s) {
      SegmentMember(s.log, 0, FlushedTo(s), e);
    }
    forall q: nat ensures Live(s', q) <==> Live(s, q) {
    }
  }

  lemma ReadMinSeqKeeps(s: State, s': State, m: nat)
    requires Inv(s) && ReadMinSeq(s, s', m)
    ensures Inv(s')
  {
    hide ReaderOk, InvTables, Segment, ClosedInputs, LevelOrder, WfLevels, StoreEntries, TableSet;
    forall q: nat ensures Live(s', q) <==> Live(s, q) {
    }
    assert InvMarks(s');
    assert InvJob(s', FlushedTo(s'));
  }

  /** The inputs still fit the version current at commit time. */
  lemma JobFits(s: State, flushedTo: nat) returns (a: UKey, b: UKey)
    requires InvJob(s, flushedTo) && s.job.Some?
    ensures var j := s.job.value; InputsFit(s.levels, j.src, TableSet(j.in0), TableSet(j.in1), a, b)
  {
    hide *;
    var j := s.job.value;
    a, b := JobHull(s, flushedTo);
    JobLevels(s, flushedTo);
    SourceOrder(s, flushedTo, a, b);
    SelectedFit(LevelAt(j.levels, j.src), LevelAt(j.levels, j.src + 1), j.in0, j.in1, a, b);
    FitFrom(s.levels, j.src, TableSet(j.in0), TableSet(j.in1), a, b);
  }

  lemma JobHull(s: State, flushedTo: nat) returns (a: UKey, b: UKey)
    requires InvJob(s, flushedTo) && s.job.Some?
    ensures var j := s.job.value;
            && IsHull(j.in0, a, b) && j.in0 == Select(LevelAt(j.levels, j.src), Some(a), Some(b))
            && j.in1 == Select(LevelAt(j.levels, j.src + 1), Some(a), Some(b))
  {
    hide WfLevels, LevelOrder, IsHull, Select, TableSet;
    var j := s.job.value;
    a, b :| IsHull(j.in0, a, b) && j.in0 == Select(j.levels[j.src], Some(a), Some(b))
            && j.in1 == Select(LevelAt(j.levels, j.src + 1), Some(a), Some(b));
  }

  lemma FitFrom(levels: seq<seq<Table>>, src: nat, in0: set<Table>, in1: set<Table>, a: UKey, b: UKey)
    requires in0 <= TableSet(LevelAt(levels, src)) && in1 <= TableSet(LevelAt(levels, src + 1))
    requires forall t :: t in in0 ==> a <= t.imin.ukey && t.imax.ukey <= b
    requires forall t :: t in LevelAt(levels, src + 1) ==> (t in in1 <==> Overlaps(t, Some(a), Some(b)))
    requires SourceOrdered(levels, src, in0)
    ensures InputsFit(levels, src, in0, in1, a, b)
  {
  }

  /** Source tables that are not inputs hold only newer versions of the inputs' keys. */
  ghost predicate SourceOrdered(levels: seq<seq<Table>>, src: nat, in0: set<Table>) {
    forall t, u, x, y :: t in LevelAt(levels, src) && t !in in0 && u in in0 && x in t.entries && y in u.entries && x.ukey == y.ukey
                         ==> x.sn > y.sn
  }

  lemma JobLevels(s: State, flushedTo: nat)
    requires InvJob(s, flushedTo) && s.job.Some?
    ensures var j := s.job.value;
            LevelAt(s.levels, j.src + 1) == LevelAt(j.levels, j.src + 1) && j.src < |j.levels|
            && TableSet(LevelAt(j.levels, j.src)) <= TableSet(LevelAt(s.levels, j.src))
  {
    hide LevelOrder, WfLevels, StoreEntries, IsHull, Select;
  }

  lemma SelectedFit(l0: seq<Table>, l1: seq<Table>, in0: seq<Table>, in1: seq<Table>, a: UKey, b: UKey)
    requires IsHull(in0, a, b) && in0 == Select(l0, Some(a), Some(b)) && in1 == Select(l1, Some(a), Some(b))
    ensures TableSet(in0) <= TableSet(l0) && TableSet(in1) <= TableSet(l1)
    ensures forall t :: t in TableSet(in0) ==> a <= t.imin.ukey && t.imax.ukey <= b
    ensures forall t :: t in l1 ==> (t in TableSet(in1) <==> Overlaps(t, Some(a), Some(b)))
  {
    hide Overlaps;
  }

  lemma SourceOrder(s: State, flushedTo: nat, a: UKey, b: UKey)
    requires InvJob(s, flushedTo) && s.job.Some?
    requires var j := s.job.value; IsHull(j.in0, a, b) && j.in0 == Select(LevelAt(j.levels, j.src), Some(a), Some(b))
    ensures SourceOrdered(s.levels, s.job.value.src, TableSet(s.job.value.in0))
  {
    hide InvJob, Select, IsHull, TableSet, LevelAt;
    var j := s.job.value;
    forall t, u, x, y | t in LevelAt(s.levels, j.src) && t !in TableSet(j.in0) && u in TableSet(j.in0) && x in t.entries && y in u.entries && x.ukey == y.ukey
      ensures x.sn > y.sn
    {
      OtherSourceTable(s, flushedTo, a, b, t, u, x, y);
    }
  }

  lemma OtherSourceTable(s: State, flushedTo: nat, a: UKey, b: UKey, t: Table, u: Table, x: Entry, y: Entry)
    requires InvJob(s, flushedTo) && s.job.Some?
    requires var j := s.job.value; IsHull(j.in0, a, b) && j.in0 == Select(LevelAt(j.levels, j.src), Some(a), Some(b))
    requires var j := s.job.value; t in LevelAt(s.levels, j.src) && t !in TableSet(j.in0) && u in TableSet(j.in0)
    requires x in t.entries && y in u.entries && x.ukey == y.ukey
    ensures x.sn > y.sn
  {
    var j := s.job.value;
    JobSource(s, flushedTo, t);
    hide *;
    var l0 := LevelAt(j.levels, j.src);
    InLevel(l0, j.in0, a, b, u);
    if t in l0 {
      OutsideHull(l0, j.in0, a, b, t, u, x, y);
    } else {
      InStore(j.levels, j.src, u, y);
    }
  }

  lemma InLevel(l0: seq<Table>, in0: seq<Table>, a: UKey, b: UKey, u: Table)
    requires in0 == Select(l0, Some(a), Some(b)) && u in TableSet(in0)
    ensures u in l0
  {
    hide Overlaps;
  }

  /** A table of the source level that the job did not start from is newer than all it started from. */
  lemma JobSource(s: State, flushedTo: nat, t: Table)
    requires InvJob(s, flushedTo) && s.job.Some? && t in LevelAt(s.levels, s.job.value.src)
    ensures var j := s.job.value;
            && WfTables(LevelAt(j.levels, j.src))
            && (t !in LevelAt(j.levels, j.src) ==> forall x, y :: x in t.entries && y in StoreEntries(j.levels) ==> x.sn > y.sn)
  {
    hide LevelOrder, StoreEntries, Disjoint, ClosedInputs, TableSet;
    LevelAtWf(s.job.value.levels, s.job.value.src);
  }

  /** A source table that is not an input shares no user key with one that is. */
  lemma OutsideHull(l0: seq<Table>, in0: seq<Table>, a: UKey, b: UKey, t: Table, u: Table, x: Entry, y: Entry)
    requires WfTables(l0) && IsHull(in0, a, b) && in0 == Select(l0, Some(a), Some(b))
    requires t in l0 && t !in TableSet(in0) && u in TableSet(in0) && x in t.entries && y in u.entries
    ensures x.ukey != y.ukey
  {
    assert WfTable(t) && u in l0 && WfTable(u);
    TableRange(t, x);
    TableRange(u, y);
  }

  /** The builder's tables are legal outputs holding exactly the kept entries. */
  lemma BuiltIsLegal(j: Compacting, es: seq<Entry>, outs: seq<Table>)
    requires Store.Built(j, es, outs)
    ensures BuiltFrom(TableSet(outs), EntriesOf(TableSet(j.in0) + TableSet(j.in1)))
    ensures EntriesOf(TableSet(outs)) == Elems(Kept(es, |es|, j.minSeq.value, DeeperOf(j)))
  {
    hide Kept, EntriesOf, CutAtKeys, Concat, Contents, Filed, WfTable;
    var ks := Kept(es, |es|, j.minSeq.value, DeeperOf(j));
    KeptMembers(es, |es|, j.minSeq.value, DeeperOf(j));
    var next :| Filed(outs, next);
    OutputsWf(outs, next, ks);
    OutputsApart(outs, next);
    assert forall t, e :: t in outs && e in t.entries ==> e in EntriesOf(TableSet(outs)) by {
      hide *;
      InEntriesOf(outs);
    }
    forall t, e | t in TableSet(outs) && e in t.entries
      ensures e in EntriesOf(TableSet(j.in0) + TableSet(j.in1))
    {
      assert e in EntriesOf(TableSet(outs));
      assert e in ks;
      assert e in es;
      assert e in Elems(es);
    }
  }

  lemma InEntriesOf(outs: seq<Table>)
    ensures forall t, e :: t in outs && e in t.entries ==> e in EntriesOf(TableSet(outs))
  {
  }

  lemma OutputsWf(outs: seq<Table>, next: nat, ks: seq<Entry>)
    requires Filed(outs, next) && Concat(Contents(outs)) == ks && Sorted(ks)
    ensures forall t :: t in outs ==> WfTable(t)
    ensures EntriesOf(TableSet(outs)) == Elems(ks)
  {
    hide EntriesOf, TableSet, Sorted, Concat;
    ConcatMembers(Contents(outs));
    ContentsOf(outs);
    forall i | 0 <= i < |outs|
      ensures WfTable(outs[i])
    {
      assert Contents(outs)[i] == outs[i].entries;
    }
  }

  lemma OutputsApart(outs: seq<Table>, next: nat)
    requires Filed(outs, next) && CutAtKeys(Contents(outs))
    ensures forall t, u :: t in outs && u in outs && t != u ==> Apart(t, u)
  {
    forall x, y | 0 <= x < y < |outs|
      ensures Apart(outs[x], outs[y])
    {
      OutputBefore(outs, next, x, y);
    }
    hide Filed, CutAtKeys;
  }

  lemma OutputBefore(outs: seq<Table>, next: nat, x: nat, y: nat)
    requires Filed(outs, next) && CutAtKeys(Contents(outs)) && x < y < |outs|
    ensures outs[x].imax.ukey < outs[y].imin.ukey
  {
    assert Contents(outs)[x] == outs[x].entries && Contents(outs)[y] == outs[y].entries;
    assert outs[x].imax in outs[x].entries && outs[y].imin in outs[y].entries;
  }

  lemma ContentsOf(outs: seq<Table>)
    ensures forall e :: e in EntriesOf(TableSet(outs)) <==> exists i :: 0 <= i < |outs| && e in Contents(outs)[i]
  {
    forall e
      ensures e in EntriesOf(TableSet(outs)) <==> exists i :: 0 <= i < |outs| && e in Contents(outs)[i]
    {
      if e in EntriesOf(TableSet(outs)) {
        var t :| t in TableSet(outs) && e in t.entries;
        var i :| 0 <= i < |outs| && outs[i] == t;
        assert e in Contents(outs)[i];
      }
      if i :| 0 <= i < |outs| && e in Contents(outs)[i] {
        assert outs[i] in TableSet(outs);
      }
    }
  }

  /** The pieces of a sorted concatenation are sorted, and together hold its members. */
  lemma {:induction false} ConcatMembers(ts: seq<seq<Entry>>)
    ensures forall e :: e in Concat(ts) <==> exists i :: 0 <= i < |ts| && e in ts[i]
    ensures Sorted(Concat(ts)) ==> forall i :: 0 <= i < |ts| ==> Sorted(ts[i])
  {
    hide Sorted;
    if ts != [] {
      var n := |ts| - 1;
      ConcatMembers(ts[..n]);
      SortedParts(Concat(ts[..n]), ts[n]);
      assert forall i :: 0 <= i < n ==> ts[..n][i] == ts[i];
    }
  }

  lemma SortedParts(a: seq<Entry>, b: seq<Entry>)
    ensures Sorted(a + b) ==> Sorted(a) && Sorted(b)
  {
    hide Less;
    var c := a + b;
    assert forall i :: 0 <= i < |a| ==> a[i] == c[i];
    assert forall i :: 0 <= i < |b| ==> b[i] == c[|a| + i];
  }

  lemma CommitCompactionKeeps(s: State, s': State, es: seq<Entry>, outs: seq<Table>, levels: seq<seq<Table>>)
    requires Inv(s) && CommitCompaction(s, s', es, outs, levels)
    ensures Inv(s')
  {
    hide ReaderOk, InvTables, InvJob, Edited, Store.Built, Segment;
    CompactTables(s, es, outs, levels);
    forall q: nat ensures Live(s', q) <==> Live(s, q) {
    }
    assert FlushedTo(s') == FlushedTo(s);
    assert InvMems(s');
    assert InvMarks(s');
    NoJob(s');
  }

  lemma NoJob(s: State)
    requires InvMems(s) && s.job.None?
    ensures InvJob(s, FlushedTo(s))
  {
  }

  lemma CompactTables(s: State, es: seq<Entry>, outs: seq<Table>, levels: seq<seq<Table>>)
    requires InvMems(s) && InvTables(s.log, FlushedTo(s), s.levels, s.watermark) && InvMarks(s) && InvJob(s, FlushedTo(s))
    requires s.job.Some? && Store.Built(s.job.value, es, outs)
    requires Edited(s.levels, levels, s.job.value.src, TableSet(s.job.value.in0), TableSet(s.job.value.in1), TableSet(outs))
    ensures InvTables(s.log, FlushedTo(s), levels, s.job.value.minSeq.value)
  {
    var j := s.job.value;
    var a, b := JobFits(s, FlushedTo(s));
    BuiltIsLegal(j, es, outs);
    JobDeeper(s, FlushedTo(s));
    hide InvMems, InvJob, LevelOrder, WfLevels, StoreEntries, SameAnswers, Edited, InputsFit, BuiltFrom, EntriesOf, Kept, Beside, Segment, TableSet, DeeperOf, DeeperLevels;
    CompactLevels(s.log, FlushedTo(s), s.levels, levels, s.watermark, j.src, TableSet(j.in0), TableSet(j.in1), a, b,
                  TableSet(outs), es, j.minSeq.value, DeeperOf(j));
  }

  /** Replacing closed inputs by what the compaction keeps of them keeps the table invariant, at the new watermark. */
  lemma CompactLevels(log: seq<Op>, flushedTo: nat, before: seq<seq<Table>>, after: seq<seq<Table>>, watermark: nat,
                      src: nat, in0: set<Table>, in1: set<Table>, a: UKey, b: UKey, outs: set<Table>, es: seq<Entry>,
                      minSeq: nat, deeper: seq<seq<Table>>)
    requires InvTables(log, flushedTo, before, watermark) && watermark <= minSeq
    requires InputsFit(before, src, in0, in1, a, b) && BuiltFrom(outs, EntriesOf(in0 + in1)) && Edited(before, after, src, in0, in1, outs)
    requires Sorted(es) && Elems(es) == EntriesOf(in0 + in1) && EntriesOf(outs) == Elems(Kept(es, |es|, minSeq, deeper))
    requires DeeperLevels(before, src, deeper)
    ensures InvTables(log, flushedTo, after, minSeq)
  {
    hide LevelOrder, WfLevels, StoreEntries, SameAnswers, Edited, InputsFit, BuiltFrom, EntriesOf, Kept, Segment, DeeperLevels, Sorted;
    UniqueInLog(log, flushedTo, StoreEntries(before));
    EditAnswers(before, after, src, in0, in1, a, b, outs, es, minSeq, deeper);
    forall k, q | minSeq <= q
      ensures SameAnswers(StoreEntries(after), Segment(log, 0, flushedTo), k, q)
    {
      SameSym(StoreEntries(before), StoreEntries(after), k, q);
      SameTrans(StoreEntries(after), StoreEntries(before), Segment(log, 0, flushedTo), k, q);
    }
  }

  lemma UniqueInLog(log: seq<Op>, hi: nat, S: set<Entry>)
    requires hi <= |log| && S <= Segment(log, 0, hi)
    ensures UniqueSeq(S)
  {
    SegmentUnique(log, hi);
  }

  lemma SameSym(S: set<Entry>, T: set<Entry>, k: UKey, q: nat)
    requires SameAnswers(S, T, k, q)
    ensures SameAnswers(T, S, k, q)
  {
    hide Answers;
  }

  lemma JobDeeper(s: State, flushedTo: nat)
    requires s.job.Some? && InvJob(s, flushedTo)
    ensures DeeperLevels(s.levels, s.job.value.src, DeeperOf(s.job.value))
  {
    hide WfLevels, LevelOrder, ClosedInputs, StoreEntries, TableSet;
    var j := s.job.value;
    forall l: nat | l >= j.src + 2 && l < |s.levels| && s.levels[l] != []
      ensures l - j.src - 2 < |DeeperOf(j)| && DeeperOf(j)[l - j.src - 2] == s.levels[l]
    {
      assert LevelAt(s.levels, l) == LevelAt(j.levels, l);
    }
  }

  lemma CommitMoveKeeps(s: State, s': State, levels: seq<seq<Table>>)
    requires Inv(s) && CommitMove(s, s', levels)
    ensures Inv(s')
  {
    hide ReaderOk, InvTables, InvJob, Edited, Segment;
    MoveTables(s, levels);
    forall q: nat ensures Live(s', q) <==> Live(s, q) {
    }
    assert FlushedTo(s') == FlushedTo(s);
    assert InvMems(s');
    assert InvMarks(s');
    NoJob(s');
  }

  lemma MoveTables(s: State, levels: seq<seq<Table>>)
    requires InvMems(s) && InvTables(s.log, FlushedTo(s), s.levels, s.watermark) && InvJob(s, FlushedTo(s))
    requires s.job.Some? && |s.job.value.in0| == 1 && s.job.value.in1 == []
    requires Edited(s.levels, levels, s.job.value.src, TableSet(s.job.value.in0), {}, TableSet(s.job.value.in0))
    ensures InvTables(s.log, FlushedTo(s), levels, s.watermark)
  {
    hide InvTables, InvJob, Edited, InputsFit, Segment;
    var j := s.job.value;
    var a, b := JobFits(s, FlushedTo(s));
    assert TableSet(j.in1) == {} && j.in0 == [j.in0[0]];
    MoveLevels(s.log, FlushedTo(s), s.levels, levels, s.watermark, j.src, j.in0[0], a, b);
  }

  lemma MoveLevels(log: seq<Op>, flushedTo: nat, before: seq<seq<Table>>, after: seq<seq<Table>>, watermark: nat,
                   src: nat, t: Table, a: UKey, b: UKey)
    requires InvTables(log, flushedTo, before, watermark) && InputsFit(before, src, TableSet([t]), {}, a, b)
    requires Edited(before, after, src, TableSet([t]), {}, TableSet([t]))
    ensures InvTables(log, flushedTo, after, watermark) && StoreEntries(after) == StoreEntries(before)
  {
    hide LevelOrder, WfLevels, StoreEntries, SameAnswers, Edited, InputsFit, Segment, TableSet;
    MoveIsLegal(before, after, src, t, a, b);
  }

  /** A table that goes down one level as it is. */
  lemma MoveIsLegal(before: seq<seq<Table>>, after: seq<seq<Table>>, src: nat, t: Table, a: UKey, b: UKey)
    requires WfLevels(before) && LevelOrder(before) && InputsFit(before, src, TableSet([t]), {}, a, b)
    requires Edited(before, after, src, TableSet([t]), {}, TableSet([t]))
    ensures WfLevels(after) && LevelOrder(after) && StoreEntries(after) == StoreEntries(before)
  {
    hide LevelOrder, WfLevels, StoreEntries, Edited, InputsFit, EntriesOf, TableSet, BuiltFrom;
    var in0 := TableSet([t]);
    assert in0 + {} == in0;
    SingleIsLegal(before, src, t, a, b);
    EditWf(before, after, src, in0, {}, a, b, in0);
    EditOrder(before, after, src, in0, {}, a, b, in0);
    EditEntries(before, after, src, in0, {}, a, b, in0);
    assert RestEntries(before, src, in0, {}) + EntriesOf(in0) == StoreEntries(after);
  }

  lemma SingleIsLegal(levels: seq<seq<Table>>, src: nat, t: Table, a: UKey, b: UKey)
    requires WfLevels(levels) && InputsFit(levels, src, TableSet([t]), {}, a, b)
    ensures BuiltFrom(TableSet([t]), EntriesOf(TableSet([t]) + {})) && TableSet([t]) == {t}
  {
    hide WfLevels, InputsFit, WfTable;
    assert t in [t];
    assert t in TableSet([t]);
    InputsWf(levels, src, TableSet([t]), {}, a, b);
  }

  // ----- snapshots and readers

  lemma AcquireKeeps(s: State, s': State)
    requires Inv(s) && AcquireSnapshot(s, s')
    ensures Inv(s')
  {
    hide ReaderOk, InvTables, InvJob, Segment;
    forall q: nat ensures Live(s', q) <==> Live(s, q) || q == s.seqNum {
    }
    JobFrame(s, s');
  }

  lemma ReleaseKeeps(s: State, s': State, q: nat)
    requires Inv(s) && ReleaseSnapshot(s, s', q)
    ensures Inv(s')
  {
    hide ReaderOk, InvTables, InvJob, Segment;
    forall p: nat | Live(s', p) ensures Live(s, p) {
    }
    JobFrame(s, s');
  }

  lemma JobFrame(s: State, s': State)
    requires InvMems(s) && InvJob(s, FlushedTo(s)) && s'.job == s.job && s'.levels == s.levels
    requires s'.heap == s.heap && s'.mem == s.mem && s'.frozen == s.frozen && s'.flushed == s.flushed
    ensures FlushedTo(s') == FlushedTo(s) && InvJob(s', FlushedTo(s'))
  {
    hide ClosedInputs, WfLevels, LevelOrder, StoreEntries, TableSet, Segment;
  }

  /** One reader moves on; if it still holds a snapshot it is the same one or a new legal one. */
  lemma ReaderMoves(s: State, s': State, id: nat, rd: Reader)
    requires Inv(s) && s' == s.(readers := s.readers[id := rd])
    requires ReaderOk(s.log, s.heap, FlushedTo(s), rd)
    requires Holding(rd) ==> Live(s, rd.q) || rd.q == s.seqNum
    ensures Inv(s')
  {
    hide ReaderOk, InvTables, InvJob, Segment;
    forall q: nat | Live(s', q) ensures Live(s, q) || q == s.seqNum {
    }
    JobFrame(s, s');
  }

  lemma StartReadKeeps(s: State, s': State, id: nat, kind: Kind, q: nat)
    requires Inv(s) && StartRead(s, s', id, kind, q)
    ensures Inv(s')
  {
    hide Inv;
    ReaderMoves(s, s', id, HasSeq(kind, q));
  }

  lemma SeqLoaded(s: State, id: nat)
    requires Inv(s) && id in s.readers && Holding(s.readers[id])
    ensures Live(s, s.readers[id].q) && s.watermark <= s.readers[id].q <= s.seqNum <= |s.log|
    ensures ReaderOk(s.log, s.heap, FlushedTo(s), s.readers[id])
  {
    hide ReaderOk, InvTables, InvJob, Segment;
  }

  lemma LoadMemsKeeps(s: State, s': State, id: nat)
    requires Inv(s) && LoadMems(s, s', id)
    ensures Inv(s')
  {
    SeqLoaded(s, id);
    MemsAreLoaded(s, s.readers[id].q);
    hide Inv, Loaded;
    ReaderMoves(s, s', id, HasMems(s.readers[id].kind, s.readers[id].q, s.mem, s.frozen));
  }

  /** The memdbs of the moment and the tables of the moment, or of any later one, cover the log. */
  lemma MemsAreLoaded(s: State, q: nat)
    requires InvMems(s) && q <= s.seqNum
    ensures Loaded(s.log, s.heap, FlushedTo(s), q, s.mem, s.frozen)
  {
    hide Segment;
    SegmentHolds(s.log, s.heap[s.mem], |s.log|, q, q);
    if s.frozen.Some? {
      var hi := s.heap[s.mem].lo;
      SegmentHolds(s.log, s.heap[s.frozen.value], hi, hi, q);
    }
  }

  lemma SegmentHolds(log: seq<Op>, m: MemDb, top: nat, hi: nat, q: nat)
    requires top <= |log| && m.entries == Segment(log, m.lo, top) && (hi == top || (hi == q && q <= top))
    ensures Holds(log, m, hi, q)
  {
    forall n | m.lo < n <= hi && n <= q && n <= |log|
      ensures LogEntry(log, n) in m.entries
    {
      SegmentMember(log, m.lo, top, LogEntry(log, n));
    }
  }

  lemma SearchMemKeeps(s: State, s': State, id: nat, r: Option<Bytes>)
    requires Inv(s) && SearchMem(s, s', id, r)
    ensures Inv(s')
  {
    SeqLoaded(s, id);
    hide Inv, Answers, Segment, Holds;
    var rd := s.readers[id];
    var m := s.heap[rd.em];
    if Finds(m, rd.kind.k, rd.q) {
      MemAnswer(s.log, m, rd.kind.k, rd.q, r);
      ReaderMoves(s, s', id, Answered(rd.kind.k, rd.q, r));
    } else {
      ReaderMoves(s, s', id, MissedMem(rd.kind.k, rd.q, rd.em, rd.fm));
    }
  }

  lemma MemAnswer(log: seq<Op>, m: MemDb, k: UKey, q: nat, r: Option<Bytes>)
    requires q <= |log| && Holds(log, m, q, q) && Finds(m, k, q) && Answers(m.entries, k, q, r)
    ensures Answers(Segment(log, 0, |log|), k, q, r)
  {
    var e :| Newest(m.entries, k, q, e) && r == ValueOf(e);
    MemWins(log, m, k, q, e);
    SegmentUnique(log, |log|);
    NewestIsUnique(Segment(log, 0, |log|), k, q, e);
  }

  lemma FrozenAnswer(log: seq<Op>, em: MemDb, fm: MemDb, k: UKey, q: nat, r: Option<Bytes>)
    requires q <= |log| && Holds(log, em, q, q) && Holds(log, fm, em.lo, q) && Hidden(em, k, q)
    requires Finds(fm, k, q) && Answers(fm.entries, k, q, r)
    ensures Answers(Segment(log, 0, |log|), k, q, r)
  {
    var e :| Newest(fm.entries, k, q, e) && r == ValueOf(e);
    FrozenWins(log, em, fm, k, q, e);
    SegmentUnique(log, |log|);
    NewestIsUnique(Segment(log, 0, |log|), k, q, e);
  }

  lemma SearchFrozenKeeps(s: State, s': State, id: nat, r: Option<Bytes>)
    requires Inv(s) && SearchFrozen(s, s', id, r)
    ensures Inv(s')
  {
    SeqLoaded(s, id);
    hide Inv, Answers, Segment, Holds;
    var rd := s.readers[id];
    if rd.fm.Some? && Finds(s.heap[rd.fm.value], rd.k, rd.q) {
      FrozenAnswer(s.log, s.heap[rd.em], s.heap[rd.fm.value], rd.k, rd.q, r);
      ReaderMoves(s, s', id, Answered(rd.k, rd.q, r));
    } else {
      ReaderMoves(s, s', id, MissedBoth(rd.k, rd.q, rd.em, rd.fm));
    }
  }

  lemma TablesInv(s: State)
    requires Inv(s)
    ensures InvTables(s.log, FlushedTo(s), s.levels, s.watermark)
  {
  }

  lemma SearchVersionKeeps(s: State, s': State, id: nat, r: Option<Bytes>)
    requires Inv(s) && SearchVersion(s, s', id, r)
    ensures Inv(s')
  {
    SeqLoaded(s, id);
    TablesInv(s);
    hide Inv, Segment, Loaded, WfLevels, LevelOrder, StoreEntries, Answers;
    var rd := s.readers[id];
    BothMissed(s.log, s.heap, FlushedTo(s), rd.k, rd.q, rd.em, rd.fm);
    SameTrans(StoreEntries(s.levels), Segment(s.log, 0, FlushedTo(s)), Segment(s.log, 0, |s.log|), rd.k, rd.q);
    ReaderMoves(s, s', id, Answered(rd.k, rd.q, r));
  }

  lemma PinVersionKeeps(s: State, s': State, id: nat)
    requires Inv(s) && PinVersion(s, s', id)
    ensures Inv(s')
  {
    SeqLoaded(s, id);
    TablesInv(s);
    hide Inv, Segment, SameAnswers, InvTables, Sources, Holds, FromLog;
    var rd := s.readers[id];
    PinnedFromLog(s.log, s.heap, FlushedTo(s), s.levels, s.watermark, rd.q, rd.em, rd.fm);
    forall k
      ensures SameAnswers(Sources(s.heap, rd.em, rd.fm, s.levels), Segment(s.log, 0, |s.log|), k, rd.q)
    {
      PinnedAnswers(s.log, s.heap, FlushedTo(s), s.levels, s.watermark, rd.q, rd.em, rd.fm, k);
    }
    ReaderMoves(s, s', id, Pinned(rd.q, rd.em, rd.fm, s.levels));
  }

  // ----- opening again

  /** A stretch of the log is the same in every longer prefix. */
  lemma SegmentCut(log: seq<Op>, n: nat, lo: nat, hi: nat)
    requires hi <= n <= |log|
    ensures Segment(log[..n], lo, hi) == Segment(log, lo, hi)
  {
    assert forall m :: 1 <= m <= n ==> LogEntry(log[..n], m) == LogEntry(log, m);
  }

  /** From the last flushed record on all reads of the tables are alike. */
  lemma ReadBehind(S: set<Entry>, T: set<Entry>, flushedTo: nat, k: UKey, q: nat, q': nat)
    requires (forall e :: e in S + T ==> e.sn <= flushedTo) && flushedTo <= q && flushedTo <= q' && SameAnswers(S, T, k, q')
    ensures SameAnswers(S, T, k, q)
  {
    forall r ensures Answers(S, k, q, r) <==> Answers(T, k, q, r) {
      AnswersBehind(S, flushedTo, k, q, q', r);
      AnswersBehind(T, flushedTo, k, q, q', r);
      assert Answers(S, k, q', r) <==> Answers(T, k, q', r);
    }
  }

  lemma AnswersBehind(S: set<Entry>, flushedTo: nat, k: UKey, q: nat, q': nat, r: Option<Bytes>)
    requires (forall e :: e in S ==> e.sn <= flushedTo) && flushedTo <= q && flushedTo <= q'
    ensures Answers(S, k, q, r) <==> Answers(S, k, q', r)
  {
    forall e ensures Newest(S, k, q, e) <==> Newest(S, k, q', e) {
    }
    forall e | e in S ensures Visible(e, k, q) <==> Visible(e, k, q') {
    }
  }

  /** The tables found again answer like the flushed part of what is left of the log. */
  lemma TablesFound(log: seq<Op>, n: nat, flushedTo: nat, levels: seq<seq<Table>>, watermark: nat)
    requires InvTables(log, flushedTo, levels, watermark) && flushedTo <= n <= |log|
    ensures InvTables(log[..n], flushedTo, levels, if watermark < flushedTo then watermark else flushedTo)
  {
    hide WfLevels, LevelOrder, StoreEntries, SameAnswers;
    SegmentCut(log, n, 0, flushedTo);
    var S, T := StoreEntries(levels), Segment(log, 0, flushedTo);
    forall e: Entry | e in S + T ensures e.sn <= flushedTo {
      SegmentMember(log, 0, flushedTo, e);
    }
    hide Segment;
    forall k, q: nat | (if watermark < flushedTo then watermark else flushedTo) <= q
      ensures SameAnswers(S, T, k, q)
    {
      if q < watermark {
        ReadBehind(S, T, flushedTo, k, q, watermark);
      }
    }
  }

  lemma CrashKeeps(s: State, s': State, n: nat)
    requires Inv(s) && Crash(s, s', n)
    ensures Inv(s')
  {
    TablesInv(s);
    hide InvTables, InvJob, Segment, ReaderOk;
    TablesFound(s.log, n, FlushedTo(s), s.levels, s.watermark);
    assert FlushedTo(s') == FlushedTo(s);
    assert InvMems(s') && InvMarks(s');
    NoJob(s');
  }

  // ----- whole runs

  lemma NextKeeps(s: State, s': State)
    requires Inv(s) && Next(s, s')
    ensures Inv(s')
  {
    hide *;
    StepKinds(s, s');
    if op :| PutRec(s, s', op) { PutRecKeeps(s, s', op); }
    else if Publish(s, s') { PublishKeeps(s, s'); }
    else if id :| Rotate(s, s', id) { RotateKeeps(s, s', id); }
    else if t, levels :| FlushMem(s, s', t, levels) { FlushMemKeeps(s, s', t, levels); }
    else if DropFrozen(s, s') { DropFrozenKeeps(s, s'); }
    else if src, in0, in1 :| PickCompaction(s, s', src, in0, in1) { PickKeeps(s, s', src, in0, in1); }
    else if m :| ReadMinSeq(s, s', m) { ReadMinSeqKeeps(s, s', m); }
    else if es, outs, levels :| CommitCompaction(s, s', es, outs, levels) { CommitCompactionKeeps(s, s', es, outs, levels); }
    else if levels :| CommitMove(s, s', levels) { CommitMoveKeeps(s, s', levels); }
    else if AcquireSnapshot(s, s') { AcquireKeeps(s, s'); }
    else if q :| ReleaseSnapshot(s, s', q) { ReleaseKeeps(s, s', q); }
    else if id, kind, q :| StartRead(s, s', id, kind, q) { StartReadKeeps(s, s', id, kind, q); }
    else if id :| LoadMems(s, s', id) { LoadMemsKeeps(s, s', id); }
    else if id, r :| SearchMem(s, s', id, r) { SearchMemKeeps(s, s', id, r); }
    else if id, r :| SearchFrozen(s, s', id, r) { SearchFrozenKeeps(s, s', id, r); }
    else if id, r :| SearchVersion(s, s', id, r) { SearchVersionKeeps(s, s', id, r); }
    else if id :| PinVersion(s, s', id) { PinVersionKeeps(s, s', id); }
    else if n :| Crash(s, s', n) { CrashKeeps(s, s', n); }
  }

  lemma StepKinds(s: State, s': State)
    requires Next(s, s')
    ensures (exists op :: PutRec(s, s', op)) || Publish(s, s') || (exists id :: Rotate(s, s', id))
            || (exists t, levels :: FlushMem(s, s', t, levels)) || DropFrozen(s, s')
            || (exists src, in0, in1 :: PickCompaction(s, s', src, in0, in1)) || (exists m :: ReadMinSeq(s, s', m))
            || (exists es, outs, levels :: CommitCompaction(s, s', es, outs, levels)) || (exists levels :: CommitMove(s, s', levels))
            || AcquireSnapshot(s, s') || (exists q :: ReleaseSnapshot(s, s', q))
            || (exists id, kind, q :: StartRead(s, s', id, kind, q)) || (exists id :: LoadMems(s, s', id))
            || (exists id, r :: SearchMem(s, s', id, r)) || (exists id, r :: SearchFrozen(s, s', id, r))
            || (exists id, r :: SearchVersion(s, s', id, r)) || (exists id :: PinVersion(s, s', id))
            || (exists n :: Crash(s, s', n))
  {
    hide Crash, PutRec, Publish, Rotate, FlushMem, DropFrozen, PickCompaction, ReadMinSeq, CommitCompaction, CommitMove,
         AcquireSnapshot, ReleaseSnapshot, StartRead, LoadMems, SearchMem, SearchFrozen, SearchVersion, PinVersion;
  }

  lemma InitHolds(s: State)
    requires Init(s)
    ensures Inv(s)
  {
    assert Segment([], 0, 0) == {};
    assert StoreEntries([]) == {};
  }

  ghost predicate Run(trace: seq<State>) {
    trace != [] && Init(trace[0]) && forall i :: 0 <= i < |trace| - 1 ==> Next(trace[i], trace[i + 1])
  }

  lemma {:induction false} RunKeeps(trace: seq<State>, i: nat)
    requires Run(trace) && i < |trace|
    ensures Inv(trace[i])
  {
    hide Inv, Next, Init;
    if i == 0 {
      InitHolds(trace[0]);
    } else {
      RunKeeps(trace, i - 1);
      NextKeeps(trace[i - 1], trace[i]);
    }
  }

  /** What the flat log of the run says about `k` as of `q`: the newest write at or below `q`. */
  function LogGet(log: seq<Op>, k: UKey, q: nat): Option<Bytes>
    requires q <= |log|
  {
    if q == 0 then None
    else if log[q - 1].ukey == k then (if log[q - 1].kt.Val? then Some(log[q - 1].value) else None)
    else LogGet(log, k, q - 1)
  }

  lemma {:induction false} LogGetPrefix(log: seq<Op>, log': seq<Op>, k: UKey, q: nat)
    requires log <= log' && q <= |log|
    ensures LogGet(log, k, q) == LogGet(log', k, q)
  {
    if q > 0 {
      LogGetPrefix(log, log', k, q - 1);
    }
  }

  lemma {:induction false} LogGetAnswers(log: seq<Op>, k: UKey, q: nat, hi: nat)
    requires q <= hi <= |log|
    ensures Answers(Segment(log, 0, hi), k, q, LogGet(log, k, q))
  {
    if q > 0 {
      var e := LogEntry(log, q);
      SegmentMember(log, 0, hi, e);
      if e.ukey == k {
        assert Newest(Segment(log, 0, hi), k, q, e);
      } else {
        LogGetAnswers(log, k, q - 1, hi);
        SameBelow(Segment(log, 0, hi), k, q);
      }
    }
  }

  lemma SameBelow(S: set<Entry>, k: UKey, q: nat)
    requires q > 0 && forall e :: e in S && e.sn == q ==> e.ukey != k
    ensures forall r :: Answers(S, k, q - 1, r) ==> Answers(S, k, q, r)
  {
    forall e | e in S ensures Visible(e, k, q) <==> Visible(e, k, q - 1) {
    }
    forall e | Newest(S, k, q - 1, e) ensures Newest(S, k, q, e) {
    }
  }

  /** In every state of every run, whatever was written, rotated, flushed, compacted, moved or
      snapshotted between the reader's loads, a finished read returned what the flat log says. */
  lemma ReadsMatchLog(trace: seq<State>, i: nat, id: nat)
    requires Run(trace) && i < |trace| && id in trace[i].readers && trace[i].readers[id].Answered?
    ensures var s := trace[i]; var rd := s.readers[id];
            rd.q <= |s.log| && rd.r == LogGet(s.log, rd.k, rd.q)
  {
    RunKeeps(trace, i);
    var s := trace[i];
    var rd := s.readers[id];
    hide Run, Init, Next, InvMems, InvTables, InvMarks, InvJob;
    FinishedReader(s, id);
    LogGetAnswers(s.log, rd.k, rd.q, |s.log|);
    SegmentUnique(s.log, |s.log|);
    var r := AnswerExistsAndIsUnique(Segment(s.log, 0, |s.log|), rd.k, rd.q);
  }

  lemma FinishedReader(s: State, id: nat)
    requires Inv(s) && id in s.readers
    ensures ReaderOk(s.log, s.heap, FlushedTo(s), s.readers[id])
  {
    hide InvMems, InvTables, InvMarks, InvJob, ReaderOk;
  }

  /** An iterator's pinned sources answer every key as the log did at the iterator's sequence
      number, in every later state and after its snapshot is gone. */
  lemma IteratorsMatchLog(trace: seq<State>, i: nat, id: nat, k: UKey)
    requires Run(trace) && i < |trace| && id in trace[i].readers && trace[i].readers[id].Pinned?
    ensures var s := trace[i]; var rd := s.readers[id];
            rd.q <= |s.log| && rd.em in s.heap && (rd.fm.Some? ==> rd.fm.value in s.heap)
            && FromLog(s.log, Sources(s.heap, rd.em, rd.fm, rd.levels), rd.q)
            && forall r :: Answers(Sources(s.heap, rd.em, rd.fm, rd.levels), k, rd.q, r) <==> r == LogGet(s.log, k, rd.q)
  {
    RunKeeps(trace, i);
    var s := trace[i];
    var rd := s.readers[id];
    hide Run, Init, Next, InvMems, InvTables, InvMarks, InvJob;
    FinishedReader(s, id);
    LogGetAnswers(s.log, k, rd.q, |s.log|);
    SegmentUnique(s.log, |s.log|);
    var r := AnswerExistsAndIsUnique(Segment(s.log, 0, |s.log|), k, rd.q);
    assert SameAnswers(Sources(s.heap, rd.em, rd.fm, rd.levels), Segment(s.log, 0, |s.log|), k, rd.q);
  }
}
