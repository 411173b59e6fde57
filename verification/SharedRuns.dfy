/** Two runs of the store in which a memdb is flushed between the two loads of an iterator. */
module SharedRuns {
  import opened Keys
  import opened Lookup
  import opened Tables
  import opened Levels
  import opened CompactionSpec
  import opened Compaction
  import opened CompactionSafety
  import opened LevelEdits
  import opened Builder
  import opened Store
  import opened StoreProof
  import opened StoreCopies
  import C = TableCompaction

  /** A store into which one record is put and whose memdb is rotated, an iterator having loaded the memdbs. */
  ghost function Before(op: Op): seq<State> {
    var e := Entry(op.ukey, 1, op.kt, op.value);
    var s0 := State([], 0, map[0 := MemDb(0, {})], 0, None, false, [], None, multiset{}, map[], 0);
    var s1 := s0.(log := [op], heap := map[0 := MemDb(0, {e})]);
    var s2 := s1.(seqNum := 1);
    var s3 := s2.(heap := map[0 := MemDb(0, {e}), 1 := MemDb(1, {})], mem := 1, frozen := Some(0));
    var s4 := s3.(readers := map[0 := HasSeq(Scan, 1)]);
    var s5 := s4.(readers := map[0 := HasMems(Scan, 1, 1, Some(0))]);
    [s0, s1, s2, s3, s4, s5]
  }

  function OneTable(op: Op): Table {
    var e := Entry(op.ukey, 1, op.kt, op.value);
    Table(1, 1, e, e, [e])
  }

  lemma RunOn(trace: seq<State>, s: State)
    requires Run(trace) && Next(trace[|trace| - 1], s)
    ensures Run(trace + [s])
  {
    hide Next, Init;
    forall i | 0 <= i < |trace + [s]| - 1
      ensures Next((trace + [s])[i], (trace + [s])[i + 1])
    {
      assert i < |trace| - 1 ==> Next(trace[i], trace[i + 1]);
    }
  }

  lemma FirstPut(s: State, s': State, op: Op)
    requires s == Before(op)[0] && s' == Before(op)[1]
    ensures PutRec(s, s', op)
  {
    var e := LogEntry([op], 1);
    assert s.log + [op] == [op];
    assert s.heap[0].(entries := s.heap[0].entries + {e}) == MemDb(0, {e});
    assert s.heap[0 := MemDb(0, {e})] == map[0 := MemDb(0, {e})];
  }

  lemma BeforeRuns(op: Op)
    ensures Run(Before(op))
  {
    var t := Before(op);
    assert Init(t[0]);
    FirstPut(t[0], t[1], op);
    assert Publish(t[1], t[2]);
    assert Rotate(t[2], t[3], 1);
    assert StartRead(t[3], t[4], 0, Scan, 1);
    assert LoadMems(t[4], t[5], 0);
  }

  ghost function LoadedState(op: Op): State { Before(op)[5] }

  ghost function FlushedState(op: Op): State { LoadedState(op).(levels := [[OneTable(op)]], flushed := true) }

  ghost function Picked(op: Op): State { FlushedState(op).(job := Some(Compacting(0, [[OneTable(op)]], [OneTable(op)], [], None))) }

  ghost function Marked(op: Op): State { Picked(op).(job := Some(Compacting(0, [[OneTable(op)]], [OneTable(op)], [], Some(1)))) }

  ghost function Compacted(op: Op): State { Marked(op).(levels := [], job := None, watermark := 1) }

  ghost function PinnedOn(s: State): State { s.(readers := map[0 := Pinned(1, 1, Some(0), s.levels)]) }

  /** The memdb is flushed before the iterator pins the version: the record is in its memdb and in its table. */
  lemma FlushedWhileLoading(op: Op) returns (trace: seq<State>)
    ensures Run(trace)
    ensures var s := trace[|trace| - 1]; var e := Entry(op.ukey, 1, op.kt, op.value);
            0 in s.readers && s.readers[0].Pinned? && s.readers[0].q == 1
            && var rd := s.readers[0];
               rd.em in s.heap && rd.fm.Some? && rd.fm.value in s.heap
               && e in MemEntries(s, rd.em, rd.fm) && e in StoreEntries(rd.levels)
  {
    trace := FlushedRun(op);
    Flushes(op);
    Pins(op, FlushedState(op));
    RunOn(trace, PinnedOn(FlushedState(op)));
    trace := trace + [PinnedOn(FlushedState(op))];
    var t := OneTable(op);
    InStore([[t]], 0, t, t.imin);
  }

  lemma FlushedRun(op: Op) returns (trace: seq<State>)
    ensures Run(trace) && trace[|trace| - 1] == FlushedState(op)
  {
    hide Next, Init, FlushedState;
    trace := Before(op);
    BeforeRuns(op);
    Flushes(op);
    RunOn(trace, FlushedState(op));
    trace := trace + [FlushedState(op)];
  }

  lemma Flushes(op: Op)
    ensures Next(LoadedState(op), FlushedState(op))
  {
    var t := OneTable(op);
    assert Elems(t.entries) == LoadedState(op).heap[0].entries;
    assert TableSet([t]) == TableSet([]) + {t};
    assert FlushMem(LoadedState(op), FlushedState(op), t, [[t]]);
  }

  lemma Pins(op: Op, s: State)
    requires s.readers == LoadedState(op).readers
    ensures Next(s, PinnedOn(s))
  {
    assert PinVersion(s, PinnedOn(s), 0);
  }

  /** A tombstone that is flushed and compacted away before the version is pinned: records behind the start of the
      loaded memdbs have been flushed, and yet nothing is shared. */
  lemma CompactedWhileLoading(k: UKey) returns (trace: seq<State>)
    ensures Run(trace)
    ensures var s := trace[|trace| - 1];
            0 in s.readers && s.readers[0].Pinned? && s.mem in s.heap && (s.frozen.Some? ==> s.frozen.value in s.heap)
            && var rd := s.readers[0];
               rd.em in s.heap && rd.fm.Some? && rd.fm.value in s.heap
               && StartOf(s, rd.em, rd.fm) < FlushedTo(s) && MemEntries(s, rd.em, rd.fm) != {}
               && MemEntries(s, rd.em, rd.fm) !! StoreEntries(rd.levels)
  {
    hide *;
    trace := FlushedRun(Op(k, Del, []));
    var op := Op(k, Del, []);
    Picks(op);
    RunOn(trace, Picked(op));
    trace := trace + [Picked(op)];
    Marks(op);
    RunOn(trace, Marked(op));
    trace := trace + [Marked(op)];
    Commits(k);
    RunOn(trace, Compacted(op));
    trace := trace + [Compacted(op)];
    SameReaders(op);
    Pins(op, Compacted(op));
    RunOn(trace, PinnedOn(Compacted(op)));
    trace := trace + [PinnedOn(Compacted(op))];
    NothingShared(op);
  }

  lemma SameReaders(op: Op)
    ensures Compacted(op).readers == LoadedState(op).readers
  {
  }

  lemma NothingShared(op: Op)
    ensures var s := PinnedOn(Compacted(op));
            0 in s.readers && s.readers[0].Pinned? && s.mem in s.heap && (s.frozen.Some? ==> s.frozen.value in s.heap)
            && var rd := s.readers[0];
               rd.em in s.heap && rd.fm.Some? && rd.fm.value in s.heap
               && StartOf(s, rd.em, rd.fm) < FlushedTo(s) && MemEntries(s, rd.em, rd.fm) != {}
               && MemEntries(s, rd.em, rd.fm) !! StoreEntries(rd.levels)
  {
    var s := PinnedOn(Compacted(op));
    assert OneTable(op).imin in s.heap[0].entries;
  }

  lemma Picks(op: Op)
    ensures Next(FlushedState(op), Picked(op))
  {
    var t := OneTable(op);
    hide Before;
    assert LevelAt([[t]], 0) == [t] && LevelAt([[t]], 1) == [];
    OneClosed(t);
    hide ClosedInputs;
    JobNone(op);
    assert PickCompaction(FlushedState(op), Picked(op), 0, [t], []);
  }

  lemma JobNone(op: Op)
    ensures LoadedState(op).job == None
  {
  }

  /** A table alone in its version is a closed input. */
  lemma OneClosed(t: Table)
    requires t.imin.ukey <= t.imax.ukey
    ensures ClosedInputs([[t]], 0, [t], [])
  {
    var a, b := t.imin.ukey, t.imax.ukey;
    assert IsHull([t], a, b) by {
      assert t in [t];
    }
    assert Select([], Some(a), Some(b)) == [];
    assert [t][..0] == [];
    assert Select([t], Some(a), Some(b)) == [t];
    assert IsHull([t], a, b) && [t] == Select([[t]][0], Some(a), Some(b)) && [] == Select(LevelAt([[t]], 1), Some(a), Some(b));
  }

  lemma Marks(op: Op)
    ensures Next(Picked(op), Marked(op))
  {
    var s := Picked(op);
    assert 0 in s.readers && Holding(s.readers[0]) && s.readers[0].q == 1;
    assert Live(s, 1);
    assert ReadMinSeq(s, Marked(op), 1);
  }

  lemma Commits(k: UKey)
    ensures var op := Op(k, Del, []); Next(Marked(op), Compacted(op))
  {
    var op := Op(k, Del, []);
    var t := OneTable(op);
    var j := Compacting(0, [[t]], [t], [], Some(1));
    MarkedParts(op);
    OnlyTombstone(k);
    hide *;
    BuiltNothing(t, j);
    LastTableGoes(t);
    CommitIsNext(Marked(op), Compacted(op), t.entries, []);
  }

  lemma OnlyTombstone(k: UKey)
    ensures var es := OneTable(Op(k, Del, [])).entries; |es| == 1 && es[0].kt.Del? && es[0].sn == 1
  {
  }

  lemma LastTableGoes(t: Table)
    ensures Edited([[t]], [], 0, TableSet([t]), TableSet([]), TableSet([]))
  {
    assert TableSet([t]) == {t};
  }

  lemma MarkedParts(op: Op)
    ensures var s, t := Marked(op), OneTable(op);
            s.levels == [[t]] && s.job == Some(Compacting(0, [[t]], [t], [], Some(1)))
            && Compacted(op) == s.(levels := [], job := None, watermark := 1)
  {
  }

  lemma CommitIsNext(s: State, s': State, es: seq<Entry>, levels: seq<seq<Table>>)
    requires s.job.Some? && s.job.value.minSeq.Some? && Store.Built(s.job.value, es, [])
    requires Edited(s.levels, levels, s.job.value.src, TableSet(s.job.value.in0), TableSet(s.job.value.in1), TableSet([]))
    requires s' == s.(levels := levels, job := None, watermark := s.job.value.minSeq.value)
    ensures Next(s, s')
  {
    hide Store.Built, Edited;
    assert CommitCompaction(s, s', es, [], levels);
  }

  lemma BuiltNothing(t: Table, j: Compacting)
    requires j == Compacting(0, [[t]], [t], [], Some(1)) && |t.entries| == 1 && t.entries[0].kt.Del? && t.entries[0].sn == 1
    ensures Store.Built(j, t.entries, [])
  {
    hide *;
    NothingKept(t.entries, j);
    NoOutputs();
    OneInput(t, j);
    C.IsBuilt(j, t.entries, [], 0);
  }

  lemma NoOutputs()
    ensures Filed([], 0) && Contents([]) == [] && CutAtKeys([]) && Concat([]) == []
  {
  }

  lemma OneInput(t: Table, j: Compacting)
    requires j == Compacting(0, [[t]], [t], [], Some(1)) && |t.entries| == 1
    ensures Sorted(t.entries) && Elems(t.entries) == EntriesOf(TableSet(j.in0) + TableSet(j.in1))
  {
    hide Less;
    assert TableSet(j.in0) + TableSet(j.in1) == {t};
  }

  /** With nothing deeper, a lone tombstone at the watermark is obsolete. */
  lemma NothingKept(es: seq<Entry>, j: Compacting)
    requires |es| == 1 && es[0].kt.Del? && es[0].sn == 1 && |j.levels| == 1
    ensures Kept(es, 1, 1, DeeperOf(j)) == []
  {
    assert DeeperOf(j) == [];
    assert Obsolete(es, 0, 1, []);
    assert Kept(es, 0, 1, []) == [];
  }
}
