/** The sorted runs that iterators merge: one per memdb, one per level-0 table, one per deeper level. */
module SourceRuns {
  import opened Keys
  import opened Lookup
  import opened Tables
  import opened Levels
  import opened Compaction
  import opened LevelEdits
  import opened Builder
  import opened Store
  import opened StoreProof
  import opened StoreCopies
  import R = MergedRuns

  /** `version.getIterators` and `compaction.newIterator` on one level: level-0 tables may overlap and are
      runs of their own, the tables of a deeper level make one run. */
  function LevelRuns(tf: seq<Table>, level: nat): seq<seq<Entry>> {
    if level == 0 then Contents(tf) else if tf == [] then [] else [Concat(Contents(tf))]
  }

  /** The runs of the first `n` levels. */
  function TableRuns(levels: seq<seq<Table>>, n: nat): seq<seq<Entry>>
    requires n <= |levels|
  {
    if n == 0 then [] else TableRuns(levels, n - 1) + LevelRuns(levels[n - 1], n - 1)
  }

  ghost function RunEntries(runs: seq<seq<Entry>>): set<Entry> {
    set x, e | 0 <= x < |runs| && e in runs[x] :: e
  }

  /** Sorted runs of which no two share an entry. */
  ghost predicate Separate(runs: seq<seq<Entry>>) {
    (forall x :: 0 <= x < |runs| ==> Sorted(runs[x]))
    && forall x, y, e :: 0 <= x < y < |runs| && e in runs[x] ==> e !in runs[y]
  }

  // ----- how often an entry occurs

  lemma {:induction false} BagConcat(a: seq<seq<Entry>>, b: seq<seq<Entry>>)
    ensures R.Bag(a + b) == R.Bag(a) + R.Bag(b)
  {
    if b == [] {
      assert a + b == a;
    } else {
      var n := |b| - 1;
      BagConcat(a, b[..n]);
      assert (a + b)[..|a + b| - 1] == a + b[..n];
    }
  }

  lemma {:induction false} BagMembers(runs: seq<seq<Entry>>, e: Entry)
    ensures e in R.Bag(runs) <==> e in RunEntries(runs)
  {
    if runs != [] {
      var n := |runs| - 1;
      BagMembers(runs[..n], e);
      assert e in RunEntries(runs) <==> e in RunEntries(runs[..n]) || e in runs[n] by {
        if x :| 0 <= x < |runs| && e in runs[x] {
          assert x < n ==> runs[..n][x] == runs[x];
        }
        if x :| 0 <= x < n && e in runs[..n][x] {
          assert runs[..n][x] == runs[x];
        }
      }
    }
  }

  lemma {:induction false} SortedOnce(es: seq<Entry>, e: Entry)
    requires Sorted(es)
    ensures multiset(es)[e] <= 1
  {
    if es != [] {
      var n := |es| - 1;
      SortedOnce(es[..n], e);
      assert es == es[..n] + [es[n]];
      forall i | 0 <= i < n ensures es[i] != es[n] {
        assert Less(es[i], es[n]);
      }
    }
  }

  /** In separate runs every entry occurs once. */
  lemma {:induction false} SeparateOnce(runs: seq<seq<Entry>>, e: Entry)
    requires Separate(runs)
    ensures R.Bag(runs)[e] <= 1
  {
    hide Separate, RunEntries, Sorted;
    if runs != [] {
      var n := |runs| - 1;
      SeparateFront(runs, e);
      SeparateOnce(runs[..n], e);
      SortedOnce(runs[n], e);
      BagMembers(runs[..n], e);
    }
  }

  lemma SeparateFront(runs: seq<seq<Entry>>, e: Entry)
    requires Separate(runs) && runs != []
    ensures var n := |runs| - 1; Separate(runs[..n]) && Sorted(runs[n]) && (e in RunEntries(runs[..n]) ==> e !in runs[n])
  {
    hide Sorted;
    var n := |runs| - 1;
    assert forall x :: 0 <= x < n ==> runs[..n][x] == runs[x];
  }

  lemma SeparateConcat(a: seq<seq<Entry>>, b: seq<seq<Entry>>)
    requires Separate(a) && Separate(b) && RunEntries(a) !! RunEntries(b)
    ensures Separate(a + b)
  {
    hide Sorted;
    forall x, y, e | 0 <= x < y < |a + b| && e in (a + b)[x]
      ensures e !in (a + b)[y]
    {
      if x < |a| <= y {
        assert e in RunEntries(a);
        assert e in b[y - |a|] ==> e in RunEntries(b);
      }
    }
  }

  lemma EntriesConcat(a: seq<seq<Entry>>, b: seq<seq<Entry>>)
    ensures RunEntries(a + b) == RunEntries(a) + RunEntries(b)
  {
    forall e
      ensures e in RunEntries(a + b) <==> e in RunEntries(a) || e in RunEntries(b)
    {
      if x :| 0 <= x < |a| && e in a[x] {
        assert (a + b)[x] == a[x];
      }
      if x :| 0 <= x < |b| && e in b[x] {
        assert (a + b)[|a| + x] == b[x];
      }
    }
  }

  // ----- the tables of a level

  /** Level-0 tables that share nothing, or a disjoint deeper level. */
  ghost predicate LevelOk(tf: seq<Table>, level: nat) {
    WfTables(tf) && if level == 0 then Unshared(tf) else Disjoint(tf)
  }

  lemma LevelSeparate(tf: seq<Table>, level: nat)
    requires LevelOk(tf, level)
    ensures Separate(LevelRuns(tf, level)) && RunEntries(LevelRuns(tf, level)) == LevelEntries(tf)
  {
    LevelMembers(tf);
    if level == 0 {
      forall x | 0 <= x < |tf| ensures Sorted(tf[x].entries) {
        assert WfTable(tf[x]);
      }
    } else if tf != [] {
      LevelSorted(tf);
      hide Sorted, Concat, Contents;
      var c := Concat(Contents(tf));
      forall e ensures e in RunEntries([c]) <==> e in c {
        assert [c][0] == c;
      }
    }
  }

  lemma LevelMembers(tf: seq<Table>)
    ensures forall e :: e in LevelEntries(tf) <==> e in RunEntries(Contents(tf))
    ensures forall e :: e in LevelEntries(tf) <==> e in Concat(Contents(tf))
  {
    hide Concat, Sorted;
    ConcatMembers(Contents(tf));
    forall e
      ensures e in LevelEntries(tf) <==> exists i :: 0 <= i < |tf| && e in Contents(tf)[i]
    {
      if t :| t in tf && e in t.entries {
        var i :| 0 <= i < |tf| && tf[i] == t;
        assert e in Contents(tf)[i];
      }
    }
  }

  lemma {:induction false} LevelSorted(tf: seq<Table>)
    requires WfTables(tf) && Disjoint(tf)
    ensures Sorted(Concat(Contents(tf)))
  {
    if tf != [] {
      var n := |tf| - 1;
      LevelSorted(tf[..n]);
      assert Contents(tf)[..n] == Contents(tf[..n]);
      var c := Concat(Contents(tf[..n]));
      LevelMembers(tf[..n]);
      assert WfTable(tf[n]);
      forall x, y | x in c && y in tf[n].entries
        ensures Less(x, y)
      {
        assert x in LevelEntries(tf[..n]);
        var t :| t in tf[..n] && x in t.entries;
        var i :| 0 <= i < n && tf[i] == t;
        TableRange(t, x);
        TableRange(tf[n], y);
      }
    }
  }

  // ----- the tables of a version

  lemma {:induction false} TablesSeparate(levels: seq<seq<Table>>, n: nat)
    requires WfLevels(levels) && LevelOrder(levels) && Unshared(LevelAt(levels, 0)) && n <= |levels|
    ensures Separate(TableRuns(levels, n))
    ensures forall e :: e in RunEntries(TableRuns(levels, n)) <==> exists l :: 0 <= l < n && e in LevelEntries(levels[l])
  {
    if n > 0 {
      LevelAtWf(levels, n - 1);
      hide Sorted, Unshared, LevelEntries, Disjoint, WfLevels, LevelOrder, LevelRuns, Separate, RunEntries;
      TablesSeparate(levels, n - 1);
      var a, b := TableRuns(levels, n - 1), LevelRuns(levels[n - 1], n - 1);
      LevelSeparate(levels[n - 1], n - 1);
      TablesStep(levels, n, a, b);
    }
  }

  lemma TablesStep(levels: seq<seq<Table>>, n: nat, a: seq<seq<Entry>>, b: seq<seq<Entry>>)
    requires LevelOrder(levels) && 0 < n <= |levels| && Separate(a) && Separate(b)
    requires forall e :: e in RunEntries(a) <==> exists l :: 0 <= l < n - 1 && e in LevelEntries(levels[l])
    requires RunEntries(b) == LevelEntries(levels[n - 1])
    ensures Separate(a + b)
    ensures forall e :: e in RunEntries(a + b) <==> exists l :: 0 <= l < n && e in LevelEntries(levels[l])
  {
    hide RunEntries, Separate, LevelEntries;
    forall e | e in RunEntries(a)
      ensures e !in RunEntries(b)
    {
      var l :| 0 <= l < n - 1 && e in LevelEntries(levels[l]);
      assert NewerThan(LevelEntries(levels[l]), LevelEntries(levels[n - 1]));
    }
    SeparateConcat(a, b);
    EntriesConcat(a, b);
  }

  /** The runs of a version hold its entries, each once. */
  lemma VersionRuns(log: seq<Op>, levels: seq<seq<Table>>)
    requires Layered(log, levels)
    ensures Separate(TableRuns(levels, |levels|)) && RunEntries(TableRuns(levels, |levels|)) == StoreEntries(levels)
  {
    TablesSeparate(levels, |levels|);
    hide Separate, RunEntries, TableRuns, LevelEntries, WfLevels, LevelOrder, Unshared, Segment;
  }

  // ----- the union of separate and of shared runs

  /** Records of the log with equal internal keys are the same record. */
  lemma LogKeysAgree(log: seq<Op>, all: seq<Entry>)
    requires forall e :: e in all ==> e in Segment(log, 0, |log|)
    ensures R.KeysAgree(all) && UniqueSeq(Elems(all))
  {
    forall i, j | 0 <= i < |all| && 0 <= j < |all| && !Less(all[i], all[j]) && !Less(all[j], all[i])
      ensures all[i] == all[j]
    {
      SegmentMember(log, 0, |log|, all[i]);
      SegmentMember(log, 0, |log|, all[j]);
    }
    SegmentUnique(log, |log|);
  }

  lemma BagIsMembers(all: seq<Entry>, runs: seq<seq<Entry>>)
    requires multiset(all) == R.Bag(runs)
    ensures Elems(all) == RunEntries(runs)
  {
    forall e
      ensures e in all <==> e in RunEntries(runs)
    {
      BagMembers(runs, e);
      assert e in all <==> e in multiset(all);
    }
  }

  lemma TwoPlaces(all: seq<Entry>, i: nat, j: nat)
    requires i < j < |all|
    ensures all[i] == all[j] ==> multiset(all)[all[i]] >= 2
  {
    assert all == all[..i] + [all[i]] + all[i + 1..j] + [all[j]] + all[j + 1..];
  }

  /** A weakly sorted sequence in which every entry occurs once is sorted. */
  lemma OnceIsSorted(all: seq<Entry>)
    requires R.Weak(all) && R.KeysAgree(all) && forall e :: multiset(all)[e] <= 1
    ensures Sorted(all)
  {
    forall i, j | 0 <= i < j < |all|
      ensures Less(all[i], all[j])
    {
      assert AtMost(all[i], all[j]);
      TwoPlaces(all, i, j);
    }
  }

  /** The merged input of a compaction is strictly sorted and holds exactly its tables' entries, as `Built` has it. */
  lemma CompactionInput(trace: seq<State>, i: nat, all: seq<Entry>)
    requires Run(trace) && i < |trace| && trace[i].job.Some?
    requires var j := trace[i].job.value; R.Weak(all) && multiset(all) == R.Bag(LevelRuns(j.in0, j.src) + LevelRuns(j.in1, j.src + 1))
    ensures var j := trace[i].job.value;
            R.Union(all, LevelRuns(j.in0, j.src) + LevelRuns(j.in1, j.src + 1))
            && Sorted(all) && Elems(all) == EntriesOf(TableSet(j.in0) + TableSet(j.in1))
  {
    hide *;
    RunOnce(trace, i);
    InputAt(trace[i], all);
  }

  lemma InputAt(s: State, all: seq<Entry>)
    requires Inv(s) && Once(s) && s.job.Some?
    requires var j := s.job.value; R.Weak(all) && multiset(all) == R.Bag(LevelRuns(j.in0, j.src) + LevelRuns(j.in1, j.src + 1))
    ensures var j := s.job.value;
            R.Union(all, LevelRuns(j.in0, j.src) + LevelRuns(j.in1, j.src + 1))
            && Sorted(all) && Elems(all) == EntriesOf(TableSet(j.in0) + TableSet(j.in1))
  {
    hide *;
    var j := s.job.value;
    InvParts(s);
    OnceParts(s);
    JobLayered(s);
    FlushedIn(s);
    var a, b := JobHull(s, FlushedTo(s));
    JobRuns(s.log, j, a, b);
    SeparateUnion(s.log, all, LevelRuns(j.in0, j.src) + LevelRuns(j.in1, j.src + 1));
  }

  lemma FlushedIn(s: State)
    requires InvMems(s)
    ensures s.mem in s.heap && (s.frozen.Some? ==> s.frozen.value in s.heap)
  {
    hide Segment;
  }

  /** The union of separate runs of log records is strictly sorted. */
  lemma SeparateUnion(log: seq<Op>, all: seq<Entry>, runs: seq<seq<Entry>>)
    requires Separate(runs) && RunEntries(runs) <= Segment(log, 0, |log|) && R.Weak(all) && multiset(all) == R.Bag(runs)
    ensures R.Union(all, runs) && Sorted(all) && Elems(all) == RunEntries(runs)
  {
    RunsSorted(runs);
    hide Separate, RunEntries, Segment, Sorted, R.Weak, R.KeysAgree;
    forall e
      ensures multiset(all)[e] <= 1
    {
      SeparateOnce(runs, e);
    }
    BagIsMembers(all, runs);
    forall e | e in all ensures e in Segment(log, 0, |log|) {
      assert e in Elems(all);
    }
    LogKeysAgree(log, all);
    OnceIsSorted(all);
  }

  lemma RunsSorted(runs: seq<seq<Entry>>)
    requires Separate(runs)
    ensures forall x :: 0 <= x < |runs| ==> Sorted(runs[x])
  {
  }

  lemma JobLayered(s: State)
    requires TablesOnce(s) && s.job.Some?
    ensures Layered(s.log, s.job.value.levels)
  {
  }

  lemma JobRuns(log: seq<Op>, j: Compacting, a: UKey, b: UKey)
    requires Layered(log, j.levels)
    requires j.in0 == Select(LevelAt(j.levels, j.src), Some(a), Some(b)) && j.in1 == Select(LevelAt(j.levels, j.src + 1), Some(a), Some(b))
    ensures var runs := LevelRuns(j.in0, j.src) + LevelRuns(j.in1, j.src + 1);
            Separate(runs) && RunEntries(runs) == EntriesOf(TableSet(j.in0) + TableSet(j.in1))
            && RunEntries(runs) <= Segment(log, 0, |log|)
  {
    hide *;
    var l0, l1 := LevelAt(j.levels, j.src), LevelAt(j.levels, j.src + 1);
    JobLevelsOk(log, j.levels, j.src);
    SelectOk(l0, j.src, a, b);
    SelectOk(l1, j.src + 1, a, b);
    LevelSeparate(j.in0, j.src);
    LevelSeparate(j.in1, j.src + 1);
    SelectEntries(l0, a, b);
    SelectEntries(l1, a, b);
    InputEntries(j.in0, j.in1);
    SeparateConcat(LevelRuns(j.in0, j.src), LevelRuns(j.in1, j.src + 1));
    EntriesConcat(LevelRuns(j.in0, j.src), LevelRuns(j.in1, j.src + 1));
  }

  /** Two neighbouring levels are in order, share no entry, and hold log records. */
  lemma JobLevelsOk(log: seq<Op>, levels: seq<seq<Table>>, src: nat)
    requires Layered(log, levels)
    ensures LevelOk(LevelAt(levels, src), src) && LevelOk(LevelAt(levels, src + 1), src + 1)
    ensures LevelEntries(LevelAt(levels, src)) !! LevelEntries(LevelAt(levels, src + 1))
    ensures LevelEntries(LevelAt(levels, src)) + LevelEntries(LevelAt(levels, src + 1)) <= Segment(log, 0, |log|)
  {
    LevelAtWf(levels, src);
    LevelAtWf(levels, src + 1);
    LevelOrderAt(levels);
    assert OrderAt(levels, src, src + 1);
    hide WfLevels, LevelOrder, Segment, StoreEntries, Unshared, Disjoint;
    InStoreLevel(levels, src);
    InStoreLevel(levels, src + 1);
  }

  lemma InStoreLevel(levels: seq<seq<Table>>, l: nat)
    ensures LevelEntries(LevelAt(levels, l)) <= StoreEntries(levels)
  {
    hide StoreEntries;
    forall e | e in LevelEntries(LevelAt(levels, l))
      ensures e in StoreEntries(levels)
    {
      var t :| t in LevelAt(levels, l) && e in t.entries;
      InStore(levels, l, t, e);
    }
  }

  lemma SelectEntries(tf: seq<Table>, a: UKey, b: UKey)
    ensures LevelEntries(Select(tf, Some(a), Some(b))) <= LevelEntries(tf)
  {
  }

  lemma InputEntries(in0: seq<Table>, in1: seq<Table>)
    ensures EntriesOf(TableSet(in0) + TableSet(in1)) == LevelEntries(in0) + LevelEntries(in1)
  {
  }

  lemma SelectOk(tf: seq<Table>, level: nat, a: UKey, b: UKey)
    requires LevelOk(tf, level)
    ensures LevelOk(Select(tf, Some(a), Some(b)), level)
  {
    SelectWf(tf, Some(a), Some(b));
    if level == 0 {
      SelectByNum(tf, Some(a), Some(b));
    } else {
      SelectDisjoint(tf, Some(a), Some(b));
    }
  }

  lemma {:induction false} SelectByNum(tf: seq<Table>, lo: Option<UKey>, hi: Option<UKey>)
    requires SortedByNum(tf)
    ensures SortedByNum(Select(tf, lo, hi))
  {
    if tf != [] {
      var n := |tf| - 1;
      SelectByNum(tf[..n], lo, hi);
      hide Overlaps;
      var r := Select(tf[..n], lo, hi);
      forall i | 0 <= i < |r| ensures r[i].num > tf[n].num {
        assert r[i] in tf[..n];
      }
    }
  }
}
