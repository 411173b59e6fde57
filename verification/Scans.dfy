/** From an iterator's pinned sources to the map it walks. */
module Scans {
  import opened Keys
  import opened Lookup
  import opened Tables
  import opened Levels
  import opened Compaction
  import opened LevelEdits
  import opened Cursors
  import opened Builder
  import opened Store
  import opened StoreProof
  import opened StoreCopies
  import opened SourceRuns
  import R = MergedRuns
  import M = MergedIterator
  import D = DbIter

  ghost predicate IsRun(es: seq<Entry>, S: set<Entry>) {
    Sorted(es) && Elems(es) == S
  }

  /** The runs of the two memdbs. */
  function MemRuns(em: seq<Entry>, fm: Option<seq<Entry>>): seq<seq<Entry>> {
    [em] + if fm.Some? then [fm.value] else []
  }

  /** `newRawIterator`: the runs it merges. */
  function RawRuns(em: seq<Entry>, fm: Option<seq<Entry>>, levels: seq<seq<Table>>): seq<seq<Entry>> {
    MemRuns(em, fm) + TableRuns(levels, |levels|)
  }

  /** Reader `id` is an iterator on these sources: `em` and `fm` list its memdbs in order. */
  ghost predicate Pins(s: State, id: nat, q: nat, em: seq<Entry>, fm: Option<seq<Entry>>, levels: seq<seq<Table>>) {
    id in s.readers && s.readers[id].Pinned? && s.readers[id].q == q && s.readers[id].levels == levels
    && var rd := s.readers[id];
       rd.em in s.heap && IsRun(em, s.heap[rd.em].entries) && (rd.fm.Some? <==> fm.Some?)
       && (fm.Some? ==> rd.fm.value in s.heap && IsRun(fm.value, s.heap[rd.fm.value].entries))
  }

  lemma MemRunsSeparate(s: State, id: nat, q: nat, em: seq<Entry>, fm: Option<seq<Entry>>, levels: seq<seq<Table>>)
    requires Pins(s, id, q, em, fm, levels) && HeapOk(s) && Adjacent(s, s.readers[id].em, s.readers[id].fm)
    ensures Separate(MemRuns(em, fm)) && RunEntries(MemRuns(em, fm)) == MemEntries(s, s.readers[id].em, s.readers[id].fm)
  {
    hide Stretch, Sorted;
    var runs := MemRuns(em, fm);
    forall e
      ensures e in em <==> e in s.heap[s.readers[id].em].entries
      ensures fm.Some? ==> (e in fm.value <==> e in s.heap[s.readers[id].fm.value].entries)
    {
      assert e in em <==> e in Elems(em);
      assert fm.Some? ==> (e in fm.value <==> e in Elems(fm.value));
    }
    assert runs[0] == em && (fm.Some? ==> runs[1] == fm.value);
  }

  function Times(b: bool): (n: nat)
    ensures n <= 1
  {
    if b then 1 else 0
  }

  /** In the union of two groups of separate runs an entry occurs once for each group that has it. */
  lemma TwoGroups(all: seq<Entry>, a: seq<seq<Entry>>, b: seq<seq<Entry>>, e: Entry)
    requires multiset(all) == R.Bag(a + b) && Separate(a) && Separate(b)
    ensures multiset(all)[e] == Times(e in RunEntries(a)) + Times(e in RunEntries(b))
  {
    hide Separate, RunEntries;
    BagConcat(a, b);
    SeparateOnce(a, e);
    SeparateOnce(b, e);
    BagMembers(a, e);
    BagMembers(b, e);
  }

  lemma ThreePlaces(all: seq<Entry>, i: nat)
    requires i + 2 < |all|
    ensures all[i] == all[i + 1] == all[i + 2] ==> multiset(all)[all[i]] >= 3
  {
    assert all == all[..i] + [all[i], all[i + 1], all[i + 2]] + all[i + 3..];
  }

  lemma TwiceInOrder(all: seq<Entry>)
    requires R.Weak(all) && R.KeysAgree(all) && forall e :: multiset(all)[e] <= 2
    ensures D.AtMostTwice(all)
  {
    forall i | 0 <= i < |all| - 2
      ensures Less(all[i], all[i + 2])
    {
      ThreePlaces(all, i);
      assert AtMost(all[i], all[i + 1]) && AtMost(all[i + 1], all[i + 2]) && AtMost(all[i], all[i + 2]);
    }
  }

  /** What the sources of an iterator hold in every state of every run: log records only, and in their union each
      exactly as often as it is in the memdbs, never twice there, and in the tables, never twice there. */
  lemma SourcesTwice(trace: seq<State>, i: nat, id: nat, q: nat, em: seq<Entry>, fm: Option<seq<Entry>>, levels: seq<seq<Table>>, all: seq<Entry>)
    requires Run(trace) && i < |trace| && Pins(trace[i], id, q, em, fm, levels)
    requires R.Weak(all) && multiset(all) == R.Bag(RawRuns(em, fm, levels))
    ensures R.Union(all, RawRuns(em, fm, levels)) && D.AtMostTwice(all) && UniqueSeq(Elems(all))
    ensures var s := trace[i]; Elems(all) == Sources(s.heap, s.readers[id].em, s.readers[id].fm, levels)
    ensures var s := trace[i]; var rd := s.readers[id];
            (rd.fm.Some? ==> rd.fm.value in s.heap)
            && forall e :: multiset(all)[e] == Times(e in MemEntries(s, rd.em, rd.fm)) + Times(e in StoreEntries(levels))
  {
    hide *;
    RunOnce(trace, i);
    SourcesAt(trace[i], id, q, em, fm, levels, all);
  }

  lemma SourcesAt(s: State, id: nat, q: nat, em: seq<Entry>, fm: Option<seq<Entry>>, levels: seq<seq<Table>>, all: seq<Entry>)
    requires Inv(s) && Once(s) && Pins(s, id, q, em, fm, levels)
    requires R.Weak(all) && multiset(all) == R.Bag(RawRuns(em, fm, levels))
    ensures R.Union(all, RawRuns(em, fm, levels)) && D.AtMostTwice(all) && UniqueSeq(Elems(all))
    ensures Elems(all) == Sources(s.heap, s.readers[id].em, s.readers[id].fm, levels)
    ensures var rd := s.readers[id];
            (rd.fm.Some? ==> rd.fm.value in s.heap)
            && forall e :: multiset(all)[e] == Times(e in MemEntries(s, rd.em, rd.fm)) + Times(e in StoreEntries(levels))
  {
    hide *;
    PinnedOnce(s, id, q, em, fm, levels);
    var end := MemStretch(s, s.readers[id].em, s.readers[id].fm);
    var a, b := MemRuns(em, fm), TableRuns(levels, |levels|);
    MemRunsSeparate(s, id, q, em, fm, levels);
    VersionRuns(s.log, levels);
    AllRuns(s, s.readers[id].em, s.readers[id].fm, em, fm, levels, end);
    EntriesConcat(a, b);
    BagIsMembers(all, a + b);
    InLog(s, RunEntries(a + b), all);
    LogKeysAgree(s.log, all);
    forall e
      ensures multiset(all)[e] == Times(e in MemEntries(s, s.readers[id].em, s.readers[id].fm)) + Times(e in StoreEntries(levels))
    {
      TwoGroups(all, a, b, e);
    }
    TwiceInOrder(all);
    UnionOf(all, a, b);
  }

  lemma PinnedOnce(s: State, id: nat, q: nat, em: seq<Entry>, fm: Option<seq<Entry>>, levels: seq<seq<Table>>)
    requires Once(s) && Pins(s, id, q, em, fm, levels)
    ensures HeapOk(s) && id in s.readers && s.readers[id].Pinned? && Adjacent(s, s.readers[id].em, s.readers[id].fm) && Layered(s.log, levels)
    ensures s.readers[id].em in s.heap && (s.readers[id].fm.Some? ==> s.readers[id].fm.value in s.heap)
  {
    hide HeapOk, TablesOnce, Adjacent, Layered, IsRun;
    assert ReaderOnce(s, s.readers[id]);
  }

  lemma AllRuns(s: State, emId: nat, fmId: Option<nat>, em: seq<Entry>, fm: Option<seq<Entry>>, levels: seq<seq<Table>>, end: nat)
    requires Adjacent(s, emId, fmId) && Layered(s.log, levels) && StartOf(s, emId, fmId) <= end <= |s.log|
    requires MemEntries(s, emId, fmId) == Segment(s.log, StartOf(s, emId, fmId), end)
    ensures RawRuns(em, fm, levels) == MemRuns(em, fm) + TableRuns(levels, |levels|)
    ensures Sources(s.heap, emId, fmId, levels) == MemEntries(s, emId, fmId) + StoreEntries(levels)
    ensures MemEntries(s, emId, fmId) + StoreEntries(levels) <= Segment(s.log, 0, |s.log|)
  {
    hide WfLevels, LevelOrder, Unshared, StoreEntries, Stretch, TableRuns, Segment;
    SegmentWidens(s.log, s.log, StartOf(s, emId, fmId), end, 0, |s.log|);
  }

  lemma InLog(s: State, S: set<Entry>, all: seq<Entry>)
    requires Elems(all) == S && S <= Segment(s.log, 0, |s.log|)
    ensures forall e :: e in all ==> e in Segment(s.log, 0, |s.log|)
  {
    hide Segment;
    forall e | e in all ensures e in Elems(all) {
    }
  }

  lemma UnionOf(all: seq<Entry>, a: seq<seq<Entry>>, b: seq<seq<Entry>>)
    requires R.Weak(all) && R.KeysAgree(all) && multiset(all) == R.Bag(a + b) && Separate(a) && Separate(b)
    ensures R.Union(all, a + b)
  {
    hide Sorted, R.Weak, R.KeysAgree;
  }

  /** In every run, the visible map `dbIter` walks over the merged union of an iterator's pinned sources, duplicates and
      all, is exactly the map the flat log described at the iterator's sequence number: the same live keys with the same values. */
  lemma IteratorWalksLog(trace: seq<State>, i: nat, id: nat, q: nat, em: seq<Entry>, fm: Option<seq<Entry>>, levels: seq<seq<Table>>,
                         all: seq<Entry>, k: UKey, v: Bytes)
    requires Run(trace) && i < |trace| && Pins(trace[i], id, q, em, fm, levels) && R.Union(all, RawRuns(em, fm, levels))
    ensures var s := trace[i]; var vm := D.VisibleMap(all, q);
            && q <= |s.log|
            && (forall p, p' :: 0 <= p < p' < |vm| ==> vm[p].ukey < vm[p'].ukey)
            && ((exists p :: 0 <= p < |vm| && vm[p].ukey == k && vm[p].value == v) <==> LogGet(s.log, k, q) == Some(v))
  {
    PinParts(trace[i], id, q, em, fm, levels);
    hide *;
    IteratorsMatchLog(trace, i, id, k);
    UnionParts(all, RawRuns(em, fm, levels));
    SourcesTwice(trace, i, id, q, em, fm, levels, all);
    D.VisibleMapIsLookup(all, q, k, v);
  }

  lemma PinParts(s: State, id: nat, q: nat, em: seq<Entry>, fm: Option<seq<Entry>>, levels: seq<seq<Table>>)
    requires Pins(s, id, q, em, fm, levels)
    ensures id in s.readers && s.readers[id].Pinned? && s.readers[id].q == q && s.readers[id].levels == levels
  {
  }

  lemma UnionParts(all: seq<Entry>, runs: seq<seq<Entry>>)
    requires R.Union(all, runs)
    ensures R.Weak(all) && multiset(all) == R.Bag(runs)
  {
  }

  // ----- the map while others write

  ghost predicate Ascends(m: seq<Entry>) {
    forall p, p' :: 0 <= p < p' < |m| ==> m[p].ukey < m[p'].ukey
  }

  ghost predicate HasPair(m: seq<Entry>, k: UKey, v: Bytes) {
    exists p :: 0 <= p < |m| && m[p].ukey == k && m[p].value == v
  }

  /** Two maps show the same keys with the same values in the same places. */
  ghost predicate SameShown(a: seq<Entry>, b: seq<Entry>) {
    |a| == |b| && forall p :: 0 <= p < |a| ==> a[p].ukey == b[p].ukey && a[p].value == b[p].value
  }

  lemma {:induction false} SamePairs(a: seq<Entry>, b: seq<Entry>)
    requires Ascends(a) && Ascends(b) && forall k, v :: HasPair(a, k, v) <==> HasPair(b, k, v)
    ensures SameShown(a, b)
  {
    if a == [] || b == [] {
      assert a != [] ==> HasPair(a, a[0].ukey, a[0].value);
      assert b != [] ==> HasPair(b, b[0].ukey, b[0].value);
    } else {
      var n, m := |a| - 1, |b| - 1;
      assert HasPair(a, a[n].ukey, a[n].value) && HasPair(b, b[m].ukey, b[m].value);
      forall k, v
        ensures HasPair(a[..n], k, v) <==> HasPair(b[..m], k, v)
      {
        WithoutLast(a, k, v);
        WithoutLast(b, k, v);
      }
      SamePairs(a[..n], b[..m]);
    }
  }

  lemma WithoutLast(m: seq<Entry>, k: UKey, v: Bytes)
    requires Ascends(m) && m != []
    ensures HasPair(m[..|m| - 1], k, v) <==> HasPair(m, k, v) && k < m[|m| - 1].ukey
  {
    var front := m[..|m| - 1];
    if p :| 0 <= p < |front| && front[p].ukey == k && front[p].value == v {
      assert m[p].ukey == k && m[p].value == v;
    }
    if p :| 0 <= p < |m| && m[p].ukey == k && m[p].value == v {
      assert p < |front| ==> front[p] == m[p];
    }
  }

  /** Whatever step is taken, as long as a reader survives it the log has only grown. */
  lemma StepLog(s: State, s': State, id: nat)
    requires Next(s, s') && id in s'.readers
    ensures s.log <= s'.log
  {
    hide WfTable, TableSet, SortedByNum, ClosedInputs, IsMinSeq, Store.Built, Edited, Answers, Finds, StoreEntries, FlushedTo;
  }

  lemma {:induction false} PinnedLog(trace: seq<State>, i: nat, i': nat, id: nat)
    requires Run(trace) && i <= i' < |trace| && forall m :: i <= m <= i' ==> id in trace[m].readers
    ensures trace[i].log <= trace[i'].log
  {
    hide Next, Init;
    if i < i' {
      PinnedLog(trace, i, i' - 1, id);
      StepLog(trace[i' - 1], trace[i'], id);
    }
  }

  /** An iterator pinned over a stretch of a run walks the same map in every state of it, whatever is written into
      its memdbs meanwhile. */
  lemma PinnedMapStays(trace: seq<State>, i: nat, i': nat, id: nat, q: nat, levels: seq<seq<Table>>,
                       em: seq<Entry>, fm: Option<seq<Entry>>, all: seq<Entry>,
                       em': seq<Entry>, fm': Option<seq<Entry>>, all': seq<Entry>)
    requires Run(trace) && i <= i' < |trace| && forall m :: i <= m <= i' ==> id in trace[m].readers
    requires Pins(trace[i], id, q, em, fm, levels) && R.Union(all, RawRuns(em, fm, levels))
    requires Pins(trace[i'], id, q, em', fm', levels) && R.Union(all', RawRuns(em', fm', levels))
    ensures SameShown(D.VisibleMap(all, q), D.VisibleMap(all', q))
  {
    hide *;
    PinnedLog(trace, i, i', id);
    WalksPairs(trace, i, id, q, em, fm, levels, all);
    WalksPairs(trace, i', id, q, em', fm', levels, all');
    forall k, v
      ensures HasPair(D.VisibleMap(all, q), k, v) <==> HasPair(D.VisibleMap(all', q), k, v)
    {
      LogGetPrefix(trace[i].log, trace[i'].log, k, q);
    }
    SamePairs(D.VisibleMap(all, q), D.VisibleMap(all', q));
  }

  lemma WalksPairs(trace: seq<State>, i: nat, id: nat, q: nat, em: seq<Entry>, fm: Option<seq<Entry>>, levels: seq<seq<Table>>, all: seq<Entry>)
    requires Run(trace) && i < |trace| && Pins(trace[i], id, q, em, fm, levels) && R.Union(all, RawRuns(em, fm, levels))
    ensures q <= |trace[i].log| && Ascends(D.VisibleMap(all, q))
    ensures forall k, v :: HasPair(D.VisibleMap(all, q), k, v) <==> LogGet(trace[i].log, k, q) == Some(v)
  {
    hide Run, Pins, R.Union, RawRuns, D.VisibleMap, LogGet;
    IteratorWalksLog(trace, i, id, q, em, fm, levels, all, 0, []);
    forall k, v
      ensures HasPair(D.VisibleMap(all, q), k, v) <==> LogGet(trace[i].log, k, q) == Some(v)
    {
      IteratorWalksLog(trace, i, id, q, em, fm, levels, all, k, v);
    }
  }

  /** `newIterator`: one child per run, merged, and the user-key view on top. Whatever it is asked then, it moves in
      the log's map at its sequence number. */
  method NewIterator(ghost trace: seq<State>, ghost i: nat, ghost id: nat,
                     q: nat, em: seq<Entry>, fm: Option<seq<Entry>>, levels: seq<seq<Table>>) returns (iter: D.DbIter)
    requires Run(trace) && i < |trace| && Pins(trace[i], id, q, em, fm, levels)
    ensures iter.Valid() && iter.pos == -1 && iter.s == q
    ensures var m := iter.Map();
            && q <= |trace[i].log|
            && (forall p, p' :: 0 <= p < p' < |m| ==> m[p].ukey < m[p'].ukey)
            && forall k, v :: (exists p :: 0 <= p < |m| && m[p].ukey == k && m[p].value == v) <==> LogGet(trace[i].log, k, q) == Some(v)
  {
    hide Run, Pins, R.Union, R.Weak, R.Bag, R.Merge, RawRuns, UniqueSeq, Sources, LogGet, D.VisibleMap, D.AtMostTwice,
         D.DbIter.Valid, M.MergedIterator.Valid;
    var runs := RawRuns(em, fm, levels);
    var its := Children(runs);
    ghost var all := R.Merge(runs);
    R.MergeWeak(runs);
    SourcesTwice(trace, i, id, q, em, fm, levels, all);
    IteratorWalksLog(trace, i, id, q, em, fm, levels, all, 0, []);
    forall k: UKey, v: Bytes
      ensures var m := D.VisibleMap(all, q);
              (exists p :: 0 <= p < |m| && m[p].ukey == k && m[p].value == v) <==> LogGet(trace[i].log, k, q) == Some(v)
    {
      IteratorWalksLog(trace, i, id, q, em, fm, levels, all, k, v);
    }
    var raw := new M.MergedIterator(its, all);
    iter := new D.DbIter(raw, q);
  }

  /** The child iterators, each on its own run. */
  method Children(runs: seq<seq<Entry>>) returns (its: seq<Cursor>)
    ensures fresh(its) && |its| == |runs| && forall x :: 0 <= x < |its| ==> its[x].es == runs[x] && its[x].Valid()
    ensures forall x, y :: 0 <= x < y < |its| ==> its[x] != its[y]
    ensures seq(|its|, x requires 0 <= x < |its| => its[x].es) == runs
  {
    its := [];
    for n := 0 to |runs|
      invariant fresh(its) && |its| == n && forall x :: 0 <= x < n ==> its[x].es == runs[x] && its[x].Valid()
      invariant forall x, y :: 0 <= x < y < n ==> its[x] != its[y]
    {
      var it := new Cursor(runs[n]);
      its := its + [it];
    }
  }
}
