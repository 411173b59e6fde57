/** `compaction`: its choice of inputs and the cursors it moves while entries stream by. */
module Compaction {
  import opened Keys
  import opened Lookup
  import opened Tables
  import opened Levels
  import opened CompactionSpec

  ghost predicate NoDuplicates(tf: seq<Table>) {
    forall i, j :: 0 <= i < j < |tf| ==> tf[i] != tf[j]
  }

  lemma LevelAtWf(levels: seq<seq<Table>>, l: nat)
    requires WfLevels(levels)
    ensures WfTables(LevelAt(levels, l)) && (l > 0 ==> Disjoint(LevelAt(levels, l)))
    ensures l < |levels| ==> LevelAt(levels, l) == levels[l]
  {
  }

  function TotalSize(tf: seq<Table>): nat {
    if tf == [] then 0 else TotalSize(tf[..|tf| - 1]) + tf[|tf| - 1].size
  }

  lemma NoSize(tf: seq<Table>, a: nat)
    ensures a <= |tf| ==> TotalSize(tf[a..a]) == 0
  {
  }

  lemma NextSize(tf: seq<Table>, a: nat, b: nat)
    ensures a <= b < |tf| ==> TotalSize(tf[a..b + 1]) == TotalSize(tf[a..b]) + tf[b].size
  {
    if a <= b < |tf| {
      assert tf[a..b + 1][..b - a] == tf[a..b];
    }
  }

  /** The inputs are closed: every table of the source level that meets their range is
      among them, and so is every table of the next level that meets it. */
  ghost predicate ClosedInputs(levels: seq<seq<Table>>, src: nat, in0: seq<Table>, in1: seq<Table>) {
    src < |levels| && in0 != []
    && exists a, b :: IsHull(in0, a, b)
                      && in0 == Select(levels[src], Some(a), Some(b))
                      && in1 == Select(LevelAt(levels, src + 1), Some(a), Some(b))
  }

  /** The same closure, with the range of the source tables named. */
  ghost predicate ClosedAt(vt0: seq<Table>, vt1: seq<Table>, t0: seq<Table>, t1: seq<Table>, a: UKey, b: UKey) {
    t0 != [] && IsHull(t0, a, b) && t0 == Select(vt0, Some(a), Some(b)) && t1 == Select(vt1, Some(a), Some(b))
  }

  /** `t0` are the tables of a level that the least closed range around some tables meets. */
  ghost predicate LeastAround(vt0: seq<Table>, from: seq<Table>, t0: seq<Table>) {
    exists a, b, lo, hi :: IsHull(from, a, b) && LeastClosed(vt0, Some(a), Some(b), lo, hi) && t0 == Select(vt0, lo, hi)
  }

  /** `t1` are the tables of a level that the range of `t0` meets. */
  ghost predicate Met(vt1: seq<Table>, t0: seq<Table>, t1: seq<Table>) {
    exists a, b :: IsHull(t0, a, b) && t1 == Select(vt1, Some(a), Some(b))
  }

  /** No closed set of tables that contains the ones it is around leaves any of them out. */
  lemma LeastIsLeast(vt0: seq<Table>, from: seq<Table>, t0: seq<Table>, other: seq<Table>, x: UKey, y: UKey)
    requires WfTables(vt0) && LeastAround(vt0, from, t0)
    requires IsHull(other, x, y) && other == Select(vt0, Some(x), Some(y)) && forall t :: t in from ==> t in other
    ensures forall t :: t in t0 ==> t in other
  {
    hide Select;
    var a, b, lo, hi :| IsHull(from, a, b) && LeastClosed(vt0, Some(a), Some(b), lo, hi) && t0 == Select(vt0, lo, hi);
    assert Covers(Some(x), Some(y), Some(a), Some(b));
    assert Closed(vt0, Some(x), Some(y));
    assert Covers(Some(x), Some(y), lo, hi);
  }

  /** Growing: the source tables around both kinds of inputs are taken instead if there are more of them, all inputs are then
      together below the limit, and they meet no more tables of the next level. */
  ghost predicate GrownOrNot(vt0: seq<Table>, vt1: seq<Table>, t0: seq<Table>, t1: seq<Table>, limit: int, r0: seq<Table>, r1: seq<Table>) {
    exists e0 ::
      LeastAround(vt0, t0 + t1, e0)
      && if |e0| > |t0| && TotalSize(t1) + TotalSize(e0) < limit
         then exists e1 :: Met(vt1, e0, e1) && r0 == (if |e1| == |t1| then e0 else t0) && r1 == (if |e1| == |t1| then e1 else t1)
         else r0 == t0 && r1 == t1
  }

  /** The inputs of a compaction picked for the tables `from`: the least closed set around them and what it meets on the
      next level, grown if that may be. */
  ghost predicate ExpandedFrom(vt0: seq<Table>, vt1: seq<Table>, from: seq<Table>, limit: int, r0: seq<Table>, r1: seq<Table>) {
    exists t0, t1 ::
      LeastAround(vt0, from, t0) && Met(vt1, t0, t1) && if t1 == [] then r0 == t0 && r1 == t1 else GrownOrNot(vt0, vt1, t0, t1, limit, r0, r1)
  }

  lemma LeastFrom(vt0: seq<Table>, from: seq<Table>, t0: seq<Table>, a: UKey, b: UKey, lo: Option<UKey>, hi: Option<UKey>)
    requires IsHull(from, a, b) && LeastClosed(vt0, Some(a), Some(b), lo, hi) && t0 == Select(vt0, lo, hi)
    ensures LeastAround(vt0, from, t0)
  {
  }

  lemma MetFrom(vt1: seq<Table>, t0: seq<Table>, t1: seq<Table>, a: UKey, b: UKey)
    requires IsHull(t0, a, b) && t1 == Select(vt1, Some(a), Some(b))
    ensures Met(vt1, t0, t1)
  {
  }

  lemma ExpandedBy(vt0: seq<Table>, vt1: seq<Table>, from: seq<Table>, limit: int, t0: seq<Table>, t1: seq<Table>, r0: seq<Table>, r1: seq<Table>)
    requires LeastAround(vt0, from, t0) && Met(vt1, t0, t1)
    requires if t1 == [] then r0 == t0 && r1 == t1 else GrownOrNot(vt0, vt1, t0, t1, limit, r0, r1)
    ensures ExpandedFrom(vt0, vt1, from, limit, r0, r1)
  {
  }

  lemma ClosedAtFrom(vt0: seq<Table>, vt1: seq<Table>, t0: seq<Table>, t1: seq<Table>, a: UKey, b: UKey)
    requires t0 != [] && IsHull(t0, a, b) && t0 == Select(vt0, Some(a), Some(b)) && t1 == Select(vt1, Some(a), Some(b))
    ensures ClosedAt(vt0, vt1, t0, t1, a, b)
  {
  }

  lemma ClosedAtMembers(vt0: seq<Table>, vt1: seq<Table>, t0: seq<Table>, t1: seq<Table>, a: UKey, b: UKey)
    requires WfTables(vt0) && WfTables(vt1) && ClosedAt(vt0, vt1, t0, t1, a, b)
    ensures t0 != [] && WfTables(t0 + t1) && forall t :: t in t0 ==> t in vt0
  {
  }

  lemma ClosedAtEnd(levels: seq<seq<Table>>, src: nat, t0: seq<Table>, t1: seq<Table>, a: UKey, b: UKey)
    requires WfLevels(levels) && src < |levels| && ClosedAt(levels[src], LevelAt(levels, src + 1), t0, t1, a, b)
    ensures ClosedInputs(levels, src, t0, t1) && WfTables(t0 + t1) && IsHull(t0, a, b)
  {
  }

  lemma SelectWf(tf: seq<Table>, lo: Option<UKey>, hi: Option<UKey>)
    requires WfTables(tf)
    ensures WfTables(Select(tf, lo, hi))
  {
  }

  /** The grandparents are the tables two levels down that meet the range of the inputs. */
  ghost predicate Grandparents(levels: seq<seq<Table>>, src: nat, in0: seq<Table>, in1: seq<Table>, gp: seq<Table>) {
    exists a, b :: IsHull(in0 + in1, a, b) && (src + 2 < |levels| ==> gp == Select(levels[src + 2], Some(a), Some(b)))
  }

  lemma GrandparentsFrom(levels: seq<seq<Table>>, src: nat, in0: seq<Table>, in1: seq<Table>, gp: seq<Table>, a: UKey, b: UKey)
    requires IsHull(in0 + in1, a, b)
    requires src + 2 < |levels| ==> gp == Select(levels[src + 2], Some(a), Some(b))
    ensures Grandparents(levels, src, in0, in1, gp)
  {
  }

  /** The hull of what a closed range selects selects the same tables. */
  lemma HullSelect(tf: seq<Table>, lo0: Option<UKey>, hi0: Option<UKey>, lo: Option<UKey>, hi: Option<UKey>, a: UKey, b: UKey)
    requires WfTables(tf) && LeastClosed(tf, lo0, hi0, lo, hi)
    requires IsHull(Select(tf, lo, hi), a, b)
    ensures Select(tf, Some(a), Some(b)) == Select(tf, lo, hi)
  {
    var dst := Select(tf, lo, hi);
    forall t | t in tf
      ensures Overlaps(t, Some(a), Some(b)) <==> Overlaps(t, lo, hi)
    {
      TableRange(t, t.imin);
      if Overlaps(t, lo, hi) {
        assert t in dst;
      }
    }
    SelectSame(tf, Some(a), Some(b), lo, hi);
  }

  /** A list without duplicates that fits in one no longer than it has the same members. */
  lemma SameMembers(t0: seq<Table>, dst: seq<Table>)
    requires NoDuplicates(t0) && |t0| == |dst|
    requires forall t :: t in t0 ==> t in dst
    ensures forall t :: t in dst ==> t in t0
  {
    var A, B := set t | t in t0, set t | t in dst;
    SetSize(t0);
    SetSize(dst);
    if exists t :: t in dst && t !in t0 {
      var t :| t in dst && t !in t0;
      SubsetSize(A, B - {t});
    }
  }

  lemma {:induction false} SetSize(tf: seq<Table>)
    ensures |set t | t in tf| <= |tf|
    ensures NoDuplicates(tf) ==> |set t | t in tf| == |tf|
  {
    if tf != [] {
      var n := |tf| - 1;
      SetSize(tf[..n]);
      assert (set t | t in tf) == (set t | t in tf[..n]) + {tf[n]};
    }
  }

  lemma {:induction false} SubsetSize(A: set<Table>, B: set<Table>)
    requires A <= B
    ensures |A| <= |B|
  {
    if A != {} {
      var x :| x in A;
      SubsetSize(A - {x}, B - {x});
    }
  }

  /** A single table whose user-key range meets no table of `next`. */
  ghost predicate Movable(in0: seq<Table>, next: seq<Table>) {
    exists t :: in0 == [t] && forall u :: u in next ==> u.imax.ukey < t.imin.ukey || t.imax.ukey < u.imin.ukey
  }

  /** Closed inputs without a table of the next level are a source range that meets none. */
  lemma SingleInput(levels: seq<seq<Table>>, src: nat, in0: seq<Table>, in1: seq<Table>)
    requires ClosedInputs(levels, src, in0, in1)
    ensures |in0| == 1 && in1 == [] <==> Movable(in0, LevelAt(levels, src + 1))
  {
    hide IsHull, Select, Movable;
    var next := LevelAt(levels, src + 1);
    var a, b :| IsHull(in0, a, b) && in0 == Select(levels[src], Some(a), Some(b)) && in1 == Select(next, Some(a), Some(b));
    SingleAt(next, in0, in1, a, b);
  }

  lemma SingleAt(next: seq<Table>, in0: seq<Table>, in1: seq<Table>, a: UKey, b: UKey)
    requires IsHull(in0, a, b) && in1 == Select(next, Some(a), Some(b))
    ensures |in0| == 1 && in1 == [] <==> Movable(in0, next)
  {
    if |in0| == 1 {
      var t := in0[0];
      assert in0 == [t] && a == t.imin.ukey && b == t.imax.ukey;
      hide IsHull;
      assert forall u :: u in next ==> (Overlaps(u, Some(a), Some(b)) <==> u in in1);
      if in1 != [] {
        assert in1[0] in in1;
      }
    }
  }

  class Compaction {
    const levels: seq<seq<Table>>
    const sourceLevel: nat
    const maxGPOverlaps: int

    var in0: seq<Table>
    var in1: seq<Table>
    var gp: seq<Table>
    var imin: Entry
    var imax: Entry

    var gpi: nat
    var seenKey: bool
    var gpOverlappedBytes: int
    var tPtrs: seq<nat>

    var snapGPI: nat
    var snapSeenKey: bool
    var snapGPOverlappedBytes: int
    var snapTPtrs: seq<nat>

    ghost function Gps(): GpState reads this { GpState(gpi, seenKey, gpOverlappedBytes) }

    ghost function SnapGps(): GpState reads this { GpState(snapGPI, snapSeenKey, snapGPOverlappedBytes) }

    /** The levels below the output. */
    ghost function Deeper(): seq<seq<Table>> {
      if sourceLevel + 2 <= |levels| then levels[sourceLevel + 2..] else []
    }

    /** Every table a level cursor has passed lies before user key `k`. */
    ghost predicate Passed(ptrs: seq<nat>, k: UKey) {
      |ptrs| == |levels|
      && forall l, j :: sourceLevel + 2 <= l < |levels| && 0 <= j < ptrs[l] && j < |levels[l]| ==> levels[l][j].imax.ukey < k
    }

    /** `newCompaction`. */
    constructor (levels: seq<seq<Table>>, sourceLevel: nat, t0: seq<Table>, maxGPOverlaps: int, expandLimit: int)
      requires WfLevels(levels) && sourceLevel < |levels|
      requires t0 != [] && NoDuplicates(t0) && forall t :: t in t0 ==> t in levels[sourceLevel]
      ensures this.levels == levels && this.sourceLevel == sourceLevel && this.maxGPOverlaps == maxGPOverlaps
      ensures ClosedInputs(levels, sourceLevel, in0, in1) && forall t :: t in t0 ==> t in in0
      ensures ExpandedFrom(levels[sourceLevel], LevelAt(levels, sourceLevel + 1), t0, expandLimit, in0, in1)
      ensures Gps() == SnapGps() == Start.gps && tPtrs == snapTPtrs == seq(|levels|, _ => 0)
    {
      this.levels := levels;
      this.sourceLevel := sourceLevel;
      this.maxGPOverlaps := maxGPOverlaps;
      in0, in1, gp := t0, [], [];
      hide NoDuplicates, WfLevels, ClosedInputs, Grandparents, IsHull, ExpandedFrom;
      imin, imax := t0[0].imin, t0[0].imax;
      gpi, seenKey, gpOverlappedBytes := 0, false, 0;
      tPtrs := seq(|levels|, _ => 0);
      new;
      Expand(expandLimit);
      Save();
    }

    method Save()
      modifies this`snapGPI, this`snapSeenKey, this`snapGPOverlappedBytes, this`snapTPtrs
      ensures SnapGps() == Gps() && snapTPtrs == tPtrs
    {
      snapGPI := gpi;
      snapSeenKey := seenKey;
      snapGPOverlappedBytes := gpOverlappedBytes;
      snapTPtrs := tPtrs;
    }

    method Restore()
      modifies this`gpi, this`seenKey, this`gpOverlappedBytes, this`tPtrs
      ensures Gps() == SnapGps() && tPtrs == snapTPtrs
    {
      gpi := snapGPI;
      seenKey := snapSeenKey;
      gpOverlappedBytes := snapGPOverlappedBytes;
      tPtrs := snapTPtrs;
    }

    /** `expand`: whatever tables it starts from and whatever the size limit, the inputs come out closed. */
    method Expand(limit: int)
      requires WfLevels(levels) && sourceLevel < |levels|
      requires in0 != [] && NoDuplicates(in0) && forall t :: t in in0 ==> t in levels[sourceLevel]
      modifies this`in0, this`in1, this`gp, this`imin, this`imax
      ensures ClosedInputs(levels, sourceLevel, in0, in1)
      ensures ExpandedFrom(levels[sourceLevel], LevelAt(levels, sourceLevel + 1), old(in0), limit, in0, in1)
      ensures forall t :: t in old(in0) ==> t in in0
      ensures IsHull(in0, imin.ukey, imax.ukey)
      ensures Grandparents(levels, sourceLevel, in0, in1, gp)
    {
      hide *;
      LevelAtWf(levels, sourceLevel);
      LevelAtWf(levels, sourceLevel + 1);
      LevelAtWf(levels, sourceLevel + 2);
      var vt0, vt1, vt2 := LevelAt(levels, sourceLevel), LevelAt(levels, sourceLevel + 1), LevelAt(levels, sourceLevel + 2);
      var t0, imin', imax' := SourceOverlaps(vt0, in0, sourceLevel == 0);
      var t1, x0, x1 := GetOverlaps(vt1, Some(imin'.ukey), Some(imax'.ukey), false);
      ClosedAtFrom(vt0, vt1, t0, t1, imin'.ukey, imax'.ukey);
      ghost var s0, s1 := t0, t1;
      MetFrom(vt1, t0, t1, imin'.ukey, imax'.ukey);
      if |t1| > 0 {
        t0, t1, imin', imax' := Grow(vt0, vt1, t0, t1, imin', imax', sourceLevel == 0, limit);
      }
      ExpandedBy(vt0, vt1, in0, limit, s0, s1, t0, t1);
      ClosedAtEnd(levels, sourceLevel, t0, t1, imin'.ukey, imax'.ukey);
      var amin, amax := GetRange(t0 + t1);
      if sourceLevel + 2 < |levels| {
        var g, z0, z1 := GetOverlaps(vt2, Some(amin.ukey), Some(amax.ukey), false);
        gp := g;
      }
      GrandparentsFrom(levels, sourceLevel, t0, t1, gp, amin.ukey, amax.ukey);
      in0, in1 := t0, t1;
      imin, imax := imin', imax';
    }

    /** The first step of `expand`: the source tables are widened in case a key range hops across tables. */
    static method SourceOverlaps(vt0: seq<Table>, in0: seq<Table>, overlapped: bool)
        returns (t0: seq<Table>, imin: Entry, imax: Entry)
      requires WfTables(vt0) && (overlapped || Disjoint(vt0))
      requires in0 != [] && NoDuplicates(in0) && forall t :: t in in0 ==> t in vt0
      ensures t0 != [] && IsHull(t0, imin.ukey, imax.ukey) && t0 == Select(vt0, Some(imin.ukey), Some(imax.ukey))
      ensures LeastAround(vt0, in0, t0)
      ensures forall t :: t in in0 ==> t in t0
    {
      hide Disjoint, IsHull, LeastClosed, Select, NoDuplicates;
      imin, imax := GetRange(in0);
      ghost var a, b := imin.ukey, imax.ukey;
      ghost var lo, hi;
      t0, lo, hi := GetOverlaps(vt0, Some(imin.ukey), Some(imax.ukey), overlapped);
      LeastFrom(vt0, in0, t0, a, b, lo, hi);
      InsideSelected(vt0, in0, a, b, lo, hi);
      SelectWf(vt0, lo, hi);
      if |t0| != |in0| {
        imin, imax := GetRange(t0);
      } else {
        SameMembers(in0, t0);
        HullSame(in0, t0, a, b);
      }
      HullSelect(vt0, Some(a), Some(b), lo, hi, imin.ukey, imax.ukey);
    }

    /** The second half of `expand`: take more source tables if that pulls in no more tables of the next level. */
    static method Grow(vt0: seq<Table>, vt1: seq<Table>, t0: seq<Table>, t1: seq<Table>, imin: Entry, imax: Entry,
                       overlapped: bool, limit: int)
        returns (r0: seq<Table>, r1: seq<Table>, rmin: Entry, rmax: Entry)
      requires WfTables(vt0) && WfTables(vt1) && Disjoint(vt1) && (overlapped || Disjoint(vt0))
      requires ClosedAt(vt0, vt1, t0, t1, imin.ukey, imax.ukey)
      ensures ClosedAt(vt0, vt1, r0, r1, rmin.ukey, rmax.ukey)
      ensures forall t :: t in t0 ==> t in r0
      ensures GrownOrNot(vt0, vt1, t0, t1, limit, r0, r1)
    {
      hide Disjoint, IsHull, LeastClosed, Select;
      r0, r1, rmin, rmax := t0, t1, imin, imax;
      ClosedAtMembers(vt0, vt1, t0, t1, imin.ukey, imax.ukey);
      var amin, amax := GetRange(t0 + t1);
      var exp0, lo, hi := GetOverlaps(vt0, Some(amin.ukey), Some(amax.ukey), overlapped);
      LeastFrom(vt0, t0 + t1, exp0, amin.ukey, amax.ukey, lo, hi);
      hide LeastAround, Met;
      if |exp0| > |t0| && TotalSize(t1) + TotalSize(exp0) < limit {
        InsideSelected(vt0, t0 + t1, amin.ukey, amax.ukey, lo, hi);
        SelectWf(vt0, lo, hi);
        var xmin, xmax := GetRange(exp0);
        HullSelect(vt0, Some(amin.ukey), Some(amax.ukey), lo, hi, xmin.ukey, xmax.ukey);
        var exp1, y0, y1 := GetOverlaps(vt1, Some(xmin.ukey), Some(xmax.ukey), false);
        MetFrom(vt1, exp0, exp1, xmin.ukey, xmax.ukey);
        if |exp1| == |t1| {
          r0, r1, rmin, rmax := exp0, exp1, xmin, xmax;
        }
      }
    }

    /** `trivial`: a single table is compacted, it meets no table of the next level, and few enough grandparents. */
    method Trivial() returns (b: bool)
      requires ClosedInputs(levels, sourceLevel, in0, in1)
      ensures b <==> Movable(in0, LevelAt(levels, sourceLevel + 1)) && TotalSize(gp) <= maxGPOverlaps
      ensures b ==> |in0| == 1 && in1 == []
    {
      SingleInput(levels, sourceLevel, in0, in1);
      b := |in0| == 1 && |in1| == 0 && TotalSize(gp) <= maxGPOverlaps;
    }

    /** `baseLevelForKey`: as long as keys are asked for in order, the advancing
        cursors answer exactly "no deeper table covers this key". */
    method BaseLevelForKey(ukey: UKey) returns (base: bool)
      requires WfLevels(levels) && Passed(tPtrs, ukey)
      modifies this`tPtrs
      ensures base <==> !Covered(Deeper(), ukey)
      ensures Passed(tPtrs, ukey)
    {
      var level := sourceLevel + 2;
      while level < |levels|
        invariant sourceLevel + 2 <= level
        invariant Passed(tPtrs, ukey)
        invariant forall l :: sourceLevel + 2 <= l < level && l < |levels| ==> !CoveredBy(levels[l], ukey)
      {
        var tables := levels[level];
        while tPtrs[level] < |tables|
          invariant Passed(tPtrs, ukey)
          decreases |tables| - tPtrs[level]
        {
          var t := tables[tPtrs[level]];
          if ukey <= t.imax.ukey {
            if ukey >= t.imin.ukey {
              CoveredAt(level, tPtrs[level], ukey);
              return false;
            }
            break;
          }
          tPtrs := tPtrs[level := tPtrs[level] + 1];
        }
        NotCoveredBy(tables, tPtrs[level], ukey);
        level := level + 1;
      }
      forall l, j | 0 <= l < |Deeper()| && 0 <= j < |Deeper()[l]|
        ensures !(Deeper()[l][j].imin.ukey <= ukey <= Deeper()[l][j].imax.ukey)
      {
        assert !CoveredBy(levels[sourceLevel + 2 + l], ukey);
      }
      base := true;
    }

    lemma CoveredAt(level: nat, j: nat, k: UKey)
      requires sourceLevel + 2 <= level < |levels| && j < |levels[level]|
      requires levels[level][j].imin.ukey <= k <= levels[level][j].imax.ukey
      ensures Covered(Deeper(), k)
    {
      assert Deeper()[level - sourceLevel - 2] == levels[level];
    }

    /** `shouldStopBefore`. */
    method ShouldStopBefore(ikey: Entry) returns (stop: bool)
      modifies this`gpi, this`seenKey, this`gpOverlappedBytes
      ensures (Gps(), stop) == StopBefore(gp, maxGPOverlaps, old(Gps()), ikey)
      ensures old(gpi) <= gpi && seenKey && (forall j :: old(gpi) <= j < gpi && j < |gp| ==> Less(gp[j].imax, ikey))
      ensures gpi < |gp| ==> !Less(gp[gpi].imax, ikey)
      ensures old(gpi) <= |gp| ==>
                gpi <= |gp|
                && var bytes := old(gpOverlappedBytes) + if old(seenKey) then TotalSize(gp[old(gpi)..gpi]) else 0;
                   (stop <==> bytes > maxGPOverlaps) && gpOverlappedBytes == if stop then 0 else bytes
    {
      hide TotalSize;
      ghost var start := Gps();
      NoSize(gp, start.gpi);
      while gpi < |gp| && !AtMost(ikey, gp[gpi].imax)
        invariant SkipGp(gp, Gps(), ikey) == SkipGp(gp, start, ikey)
        invariant seenKey == start.seen && start.gpi <= gpi && (start.gpi <= |gp| ==> gpi <= |gp|)
        invariant forall j :: start.gpi <= j < gpi && j < |gp| ==> Less(gp[j].imax, ikey)
        invariant start.gpi <= |gp| ==> gpOverlappedBytes == start.bytes + if start.seen then TotalSize(gp[start.gpi..gpi]) else 0
        decreases |gp| - gpi
      {
        if seenKey {
          gpOverlappedBytes := gpOverlappedBytes + gp[gpi].size;
        }
        NextSize(gp, start.gpi, gpi);
        gpi := gpi + 1;
      }
      seenKey := true;
      if gpOverlappedBytes > maxGPOverlaps {
        gpOverlappedBytes := 0;
        return true;
      }
      return false;
    }
  }

  ghost predicate CoveredBy(tf: seq<Table>, k: UKey) {
    exists j :: 0 <= j < |tf| && tf[j].imin.ukey <= k <= tf[j].imax.ukey
  }

  /** With the cursor at the first table not wholly before the key, that table alone decides. */
  lemma NotCoveredBy(tf: seq<Table>, p: nat, k: UKey)
    requires WfTables(tf) && Disjoint(tf)
    requires forall j :: 0 <= j < p && j < |tf| ==> tf[j].imax.ukey < k
    requires p < |tf| ==> k < tf[p].imin.ukey
    ensures !CoveredBy(tf, k)
  {
    forall j | p < j < |tf| ensures k < tf[j].imin.ukey {
      TableRange(tf[p], tf[p].imax);
      assert tf[p].imax.ukey < tf[j].imin.ukey;
    }
  }

  /** Tables whose hull was searched for are among those found. */
  lemma InsideSelected(tf: seq<Table>, ts: seq<Table>, a: UKey, b: UKey, lo: Option<UKey>, hi: Option<UKey>)
    requires WfTables(tf) && WfTables(ts) && IsHull(ts, a, b) && LeastClosed(tf, Some(a), Some(b), lo, hi)
    ensures forall t :: t in ts && t in tf ==> t in Select(tf, lo, hi)
  {
    forall t | t in ts && t in tf ensures Overlaps(t, lo, hi) {
      TableRange(t, t.imin);
    }
  }

  lemma HullSame(ts: seq<Table>, us: seq<Table>, a: UKey, b: UKey)
    requires IsHull(ts, a, b) && forall t :: t in ts <==> t in us
    ensures IsHull(us, a, b)
  {
  }
}
