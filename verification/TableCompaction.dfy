/** `tableCompaction`: inputs are moved or rebuilt, and the recorded edit changes no answer. */
module TableCompaction {
  import opened Keys
  import opened Lookup
  import opened Tables
  import opened Levels
  import opened CompactionSpec
  import opened Compaction
  import opened CompactionSafety
  import opened LevelEdits
  import opened Builder
  import opened Store
  import opened StoreProof

  /** What the session record of a compaction deletes from the source level and the next, and adds to the next. */
  datatype Edit = Edit(del0: seq<Table>, del1: seq<Table>, add: seq<Table>)

  /** Committed to the version the compaction was made from, the edit leaves a legal version in which every read
      from the watermark on is answered as before. */
  ghost predicate Harmless(levels: seq<seq<Table>>, src: nat, rec: Edit, minSeq: nat) {
    forall after :: Edited(levels, after, src, TableSet(rec.del0), TableSet(rec.del1), TableSet(rec.add)) ==>
      WfLevels(after) && LevelOrder(after) && StoreEntries(after) <= StoreEntries(levels)
      && forall k, q: nat :: minSeq <= q ==> SameAnswers(StoreEntries(levels), StoreEntries(after), k, q)
  }

  /** Closed inputs fit the version they were picked from. */
  lemma ClosedFit(levels: seq<seq<Table>>, src: nat, in0: seq<Table>, in1: seq<Table>) returns (a: UKey, b: UKey)
    requires WfLevels(levels) && ClosedInputs(levels, src, in0, in1)
    ensures InputsFit(levels, src, TableSet(in0), TableSet(in1), a, b)
  {
    hide *;
    a, b := ClosedHull(levels, src, in0, in1);
    LevelAtWf(levels, src);
    SelectedFit(LevelAt(levels, src), LevelAt(levels, src + 1), in0, in1, a, b);
    OthersApart(levels, src, in0, a, b);
    FitFrom(levels, src, TableSet(in0), TableSet(in1), a, b);
  }

  lemma OthersApart(levels: seq<seq<Table>>, src: nat, in0: seq<Table>, a: UKey, b: UKey)
    requires WfTables(LevelAt(levels, src)) && IsHull(in0, a, b) && in0 == Select(LevelAt(levels, src), Some(a), Some(b))
    ensures SourceOrdered(levels, src, TableSet(in0))
  {
    hide WfTables, IsHull, Select, TableSet;
    forall t, u, x, y | t in LevelAt(levels, src) && t !in TableSet(in0) && u in TableSet(in0) && x in t.entries && y in u.entries
      ensures x.ukey != y.ukey
    {
      OutsideHull(LevelAt(levels, src), in0, a, b, t, u, x, y);
    }
  }

  lemma ClosedHull(levels: seq<seq<Table>>, src: nat, in0: seq<Table>, in1: seq<Table>) returns (a: UKey, b: UKey)
    requires ClosedInputs(levels, src, in0, in1)
    ensures src < |levels| && IsHull(in0, a, b)
    ensures in0 == Select(LevelAt(levels, src), Some(a), Some(b)) && in1 == Select(LevelAt(levels, src + 1), Some(a), Some(b))
  {
    hide IsHull, Select;
    a, b :| IsHull(in0, a, b) && in0 == Select(levels[src], Some(a), Some(b)) && in1 == Select(LevelAt(levels, src + 1), Some(a), Some(b));
  }

  /** Moving a table that meets no table of the next level changes no answer at all. */
  lemma MoveIsHarmless(levels: seq<seq<Table>>, src: nat, in0: seq<Table>, in1: seq<Table>, minSeq: nat)
    requires WfLevels(levels) && LevelOrder(levels) && ClosedInputs(levels, src, in0, in1) && |in0| == 1 && in1 == []
    ensures Harmless(levels, src, Edit(in0, [], in0), minSeq)
  {
    hide WfLevels, LevelOrder, ClosedInputs, StoreEntries, SameAnswers, Edited, InputsFit;
    var a, b := ClosedFit(levels, src, in0, in1);
    assert TableSet([]) == {} && in0 == [in0[0]];
    forall after | Edited(levels, after, src, TableSet(in0), TableSet([]), TableSet(in0))
      ensures WfLevels(after) && LevelOrder(after) && StoreEntries(after) <= StoreEntries(levels)
      ensures forall k, q: nat :: minSeq <= q ==> SameAnswers(StoreEntries(levels), StoreEntries(after), k, q)
    {
      MoveIsLegal(levels, after, src, in0[0], a, b);
      forall k, q: nat ensures SameAnswers(StoreEntries(levels), StoreEntries(after), k, q) {
        SameSelf(StoreEntries(levels), k, q);
      }
    }
  }

  lemma SameSelf(S: set<Entry>, k: UKey, q: nat)
    ensures SameAnswers(S, S, k, q)
  {
  }

  /** Rebuilding the inputs without their obsolete entries changes no answer from the watermark on. */
  lemma BuildIsHarmless(levels: seq<seq<Table>>, src: nat, in0: seq<Table>, in1: seq<Table>, es: seq<Entry>, outs: seq<Table>, next: nat, minSeq: nat)
    requires WfLevels(levels) && LevelOrder(levels) && UniqueSeq(StoreEntries(levels)) && ClosedInputs(levels, src, in0, in1)
    requires Sorted(es) && Elems(es) == EntriesOf(TableSet(in0) + TableSet(in1))
    requires Filed(outs, next) && CutAtKeys(Contents(outs))
    requires Concat(Contents(outs)) == Kept(es, |es|, minSeq, if src + 2 <= |levels| then levels[src + 2..] else [])
    ensures Harmless(levels, src, Edit(in0, in1, outs), minSeq)
  {
    hide *;
    var deeper := if src + 2 <= |levels| then levels[src + 2..] else [];
    var j := Compacting(src, levels, in0, in1, Some(minSeq));
    var a, b := ClosedFit(levels, src, in0, in1);
    BelowOutput(levels, src, deeper);
    IsBuilt(j, es, outs, next);
    BuiltIsLegal(j, es, outs);
    forall after | Edited(levels, after, src, TableSet(in0), TableSet(in1), TableSet(outs))
      ensures WfLevels(after) && LevelOrder(after) && StoreEntries(after) <= StoreEntries(levels)
      ensures forall k, q: nat :: minSeq <= q ==> SameAnswers(StoreEntries(levels), StoreEntries(after), k, q)
    {
      EditAnswers(levels, after, src, TableSet(in0), TableSet(in1), a, b, TableSet(outs), es, minSeq, deeper);
    }
    HarmlessFrom(levels, src, Edit(in0, in1, outs), minSeq);
  }

  lemma HarmlessFrom(levels: seq<seq<Table>>, src: nat, rec: Edit, minSeq: nat)
    requires forall after :: Edited(levels, after, src, TableSet(rec.del0), TableSet(rec.del1), TableSet(rec.add)) ==>
               WfLevels(after) && LevelOrder(after) && StoreEntries(after) <= StoreEntries(levels)
               && forall k, q: nat :: minSeq <= q ==> SameAnswers(StoreEntries(levels), StoreEntries(after), k, q)
    ensures Harmless(levels, src, rec, minSeq)
  {
    hide Edited, WfLevels, LevelOrder, StoreEntries, SameAnswers, TableSet;
  }

  lemma IsBuilt(j: Compacting, es: seq<Entry>, outs: seq<Table>, next: nat)
    requires j.minSeq.Some? && Sorted(es) && Elems(es) == EntriesOf(TableSet(j.in0) + TableSet(j.in1)) && Filed(outs, next)
    requires CutAtKeys(Contents(outs)) && Concat(Contents(outs)) == Kept(es, |es|, j.minSeq.value, DeeperOf(j))
    ensures Store.Built(j, es, outs)
  {
    hide Sorted, EntriesOf, Filed, CutAtKeys, Concat, Kept, DeeperOf;
  }

  lemma BelowOutput(levels: seq<seq<Table>>, src: nat, deeper: seq<seq<Table>>)
    requires deeper == if src + 2 <= |levels| then levels[src + 2..] else []
    ensures DeeperLevels(levels, src, deeper)
    ensures forall in0, in1, m :: DeeperOf(Compacting(src, levels, in0, in1, m)) == deeper
  {
  }

  /** The one input table can go down as it is, and the caller has not ruled that out. */
  ghost predicate Moves(c: Compaction, noTrivial: bool)
    reads c
  {
    !noTrivial && Movable(c.in0, LevelAt(c.levels, c.sourceLevel + 1)) && TotalSize(c.gp) <= c.maxGPOverlaps
  }

  /** `tableCompaction` on freshly picked inputs, `es` being what their merged iterator yields: whether the inputs are
      moved or rebuilt, and however often the build fails in between, the edit it records is harmless. */
  method Compact(c: Compaction, noTrivial: bool, minSeq: nat, tableSize: int, bytesLen: seq<Entry> -> int,
                 fileSize: seq<Entry> -> nat, nextFileNum: nat, es: seq<Entry>, tries: nat) returns (rec: Option<Edit>)
    requires WfLevels(c.levels) && LevelOrder(c.levels) && UniqueSeq(StoreEntries(c.levels))
    requires ClosedInputs(c.levels, c.sourceLevel, c.in0, c.in1) && minSeq < KEY_MAX_SEQ
    requires c.SnapGps() == Start.gps && c.snapTPtrs == seq(|c.levels|, _ => 0)
    requires Sorted(es) && Elems(es) == EntriesOf(TableSet(c.in0) + TableSet(c.in1))
    modifies c`gpi, c`seenKey, c`gpOverlappedBytes, c`tPtrs, c`snapGPI, c`snapSeenKey, c`snapGPOverlappedBytes, c`snapTPtrs
    ensures rec.Some? ==> Harmless(c.levels, c.sourceLevel, rec.value, minSeq)
    ensures Moves(c, noTrivial) ==> rec == Some(Edit(c.in0, [], c.in0))
    ensures !Moves(c, noTrivial) && rec.Some? ==>
              rec.value.del0 == c.in0 && rec.value.del1 == c.in1 && Concat(Contents(rec.value.add)) == Kept(es, |es|, minSeq, c.Deeper())
  {
    hide WfLevels, LevelOrder, StoreEntries, UniqueSeq, ClosedInputs, Sorted, EntriesOf, TableSet, Harmless, Kept, CutAtKeys, Filed,
         Movable, Concat, Contents, TableCompactionBuilder.Resumable, LevelAt;
    if !noTrivial {
      var trivial := c.Trivial();
      if trivial {
        MoveIsHarmless(c.levels, c.sourceLevel, c.in0, c.in1, minSeq);
        var t := c.in0[0];
        assert c.in0 == [t];
        return Some(Edit([t], [], [t]));
      }
    }
    var b := new TableCompactionBuilder(c, minSeq, tableSize, bytesLen, fileSize, nextFileNum, es);
    var ok := CompactionTransact(b, es, tries);
    if !ok {
      return None;
    }
    BuildIsHarmless(c.levels, c.sourceLevel, c.in0, c.in1, es, b.added, b.nextFileNum, minSeq);
    rec := Some(Edit(c.in0, c.in1, b.added));
  }
}
