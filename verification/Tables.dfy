/** Sorted tables, levels of tables, and the searches of leveldb/table.go. */
module Tables {
  import opened Keys
  import opened Lookup

  /** A `tFile` together with the entries stored in the file. */
  datatype Table = Table(num: nat, size: nat, imin: Entry, imax: Entry, entries: seq<Entry>)

  ghost predicate WfTable(t: Table) {
    t.entries != [] && Sorted(t.entries) && t.imin == t.entries[0] && t.imax == t.entries[|t.entries| - 1]
  }

  ghost predicate WfTables(tf: seq<Table>) {
    forall t :: t in tf ==> WfTable(t)
  }

  /** Tables in key order with pairwise disjoint user-key ranges: every level but the first. */
  ghost predicate Disjoint(tf: seq<Table>) {
    forall i, j :: 0 <= i < j < |tf| ==> tf[i].imax.ukey < tf[j].imin.ukey
  }

  /** Every entry of a table lies between its smallest and its largest key. */
  lemma TableRange(t: Table, e: Entry)
    requires WfTable(t) && e in t.entries
    ensures AtMost(t.imin, e) && AtMost(e, t.imax)
    ensures t.imin.ukey <= e.ukey <= t.imax.ukey
  {
    var i :| 0 <= i < |t.entries| && t.entries[i] == e;
    assert i == 0 || Less(t.entries[0], t.entries[i]);
    assert i == |t.entries| - 1 || Less(t.entries[i], t.entries[|t.entries| - 1]);
  }

  /** `tFile.overlaps`: a missing bound is unbounded. */
  predicate Overlaps(t: Table, umin: Option<UKey>, umax: Option<UKey>) {
    !(umin.Some? && umin.value > t.imax.ukey) && !(umax.Some? && umax.value < t.imin.ukey)
  }

  /** The table's range stays inside the bounds. */
  predicate Within(t: Table, umin: Option<UKey>, umax: Option<UKey>) {
    (umin.Some? ==> umin.value <= t.imin.ukey) && (umax.Some? ==> t.imax.ukey <= umax.value)
  }

  /** [lo, hi] covers [lo', hi']. */
  predicate Covers(lo: Option<UKey>, hi: Option<UKey>, lo': Option<UKey>, hi': Option<UKey>) {
    (lo.Some? ==> lo'.Some? && lo.value <= lo'.value) && (hi.Some? ==> hi'.Some? && hi'.value <= hi.value)
  }

  /** No table straddles the bounds. */
  ghost predicate Closed(tf: seq<Table>, lo: Option<UKey>, hi: Option<UKey>) {
    forall t :: t in tf && Overlaps(t, lo, hi) ==> Within(t, lo, hi)
  }

  /** The tables that meet the bounds, in their order. */
  function Select(tf: seq<Table>, lo: Option<UKey>, hi: Option<UKey>): (r: seq<Table>)
    ensures forall t :: t in r <==> t in tf && Overlaps(t, lo, hi)
    ensures |r| <= |tf|
  {
    if tf == [] then []
    else
      var n := |tf| - 1;
      Select(tf[..n], lo, hi) + if Overlaps(tf[n], lo, hi) then [tf[n]] else []
  }

  /** Selection depends only on which tables of the list meet the bounds. */
  lemma SelectSame(tf: seq<Table>, lo: Option<UKey>, hi: Option<UKey>, lo': Option<UKey>, hi': Option<UKey>)
    requires WfTables(tf)
    requires forall t :: t in tf ==> (Overlaps(t, lo, hi) <==> Overlaps(t, lo', hi'))
    ensures Select(tf, lo, hi) == Select(tf, lo', hi')
  {
    if tf != [] {
      var n := |tf| - 1;
      assert tf[n] in tf;
      assert forall t :: t in tf[..n] ==> t in tf;
      SelectSame(tf[..n], lo, hi, lo', hi');
    }
  }

  /** A selection keeps the order of a disjoint level. */
  lemma {:induction false} SelectDisjoint(tf: seq<Table>, lo: Option<UKey>, hi: Option<UKey>)
    requires WfTables(tf) && Disjoint(tf)
    ensures WfTables(Select(tf, lo, hi)) && Disjoint(Select(tf, lo, hi))
  {
    if tf != [] {
      var n := |tf| - 1;
      SelectDisjoint(tf[..n], lo, hi);
      LastApart(tf);
      hide WfTables, WfTable, Disjoint, Overlaps;
      DisjointSnoc(Select(tf[..n], lo, hi), tf[n]);
    }
  }

  lemma LastApart(tf: seq<Table>)
    requires WfTables(tf) && Disjoint(tf) && tf != []
    ensures WfTable(tf[|tf| - 1]) && forall t :: t in tf[..|tf| - 1] ==> t.imax.ukey < tf[|tf| - 1].imin.ukey
  {
    hide WfTable;
  }

  lemma DisjointSnoc(tf: seq<Table>, t: Table)
    requires WfTables(tf) && Disjoint(tf) && WfTable(t) && forall u :: u in tf ==> u.imax.ukey < t.imin.ukey
    ensures WfTables(tf + [t]) && Disjoint(tf + [t])
  {
  }

  /** How many tables stick out below `lo` or above `hi`: the restarting search consumes one per restart. */
  ghost function Outside(tf: seq<Table>, lo: Option<UKey>, hi: Option<UKey>): nat {
    if tf == [] then 0
    else
      (if lo.Some? && tf[0].imin.ukey < lo.value then 1 else 0)
      + (if hi.Some? && tf[0].imax.ukey > hi.value then 1 else 0)
      + Outside(tf[1..], lo, hi)
  }

  lemma {:induction false} OutsideShrinks(tf: seq<Table>, t: Table, lo: Option<UKey>, hi: Option<UKey>, lo': Option<UKey>, hi': Option<UKey>)
    requires WfTables(tf)
    requires Covers(lo', hi', lo, hi) && lo.Some? == lo'.Some? && hi.Some? == hi'.Some?
    ensures Outside(tf, lo', hi') <= Outside(tf, lo, hi)
    ensures t in tf && ((lo.Some? && t.imin.ukey < lo.value && lo'.value <= t.imin.ukey)
                        || (hi.Some? && t.imax.ukey > hi.value && hi'.value >= t.imax.ukey))
            ==> Outside(tf, lo', hi') < Outside(tf, lo, hi)
  {
    if tf != [] {
      assert forall u :: u in tf[1..] ==> u in tf;
      OutsideShrinks(tf[1..], t, lo, hi, lo', hi');
      assert t in tf ==> t == tf[0] || t in tf[1..];
    }
  }

  /** The bounds reached by the search so far: wider than those asked for, no wider
      than any closed range around them, and on a disjoint level meeting no more tables. */
  ghost predicate Reached(tf: seq<Table>, umin0: Option<UKey>, umax0: Option<UKey>, umin: Option<UKey>, umax: Option<UKey>) {
    umin.Some? == umin0.Some? && umax.Some? == umax0.Some?
    && Covers(umin, umax, umin0, umax0)
    && (forall a, b :: Covers(a, b, umin0, umax0) && Closed(tf, a, b) ==> Covers(a, b, umin, umax))
    && (Disjoint(tf) ==> forall u :: u in tf && Overlaps(u, umin, umax) ==> Overlaps(u, umin0, umax0))
  }

  /** `hi` or `lo` moved out to take in the whole of table `t`. */
  predicate Widened(t: Table, lo: Option<UKey>, hi: Option<UKey>, lo': Option<UKey>, hi': Option<UKey>) {
    (lo' == lo && hi.Some? && hi.value < t.imax.ukey && hi' == Some(t.imax.ukey))
    || (hi' == hi && lo.Some? && t.imin.ukey < lo.value && lo' == Some(t.imin.ukey))
  }

  lemma ReachedWiden(tf: seq<Table>, t: Table, umin0: Option<UKey>, umax0: Option<UKey>,
                     umin: Option<UKey>, umax: Option<UKey>, umin': Option<UKey>, umax': Option<UKey>)
    requires WfTables(tf) && t in tf && Overlaps(t, umin, umax)
    requires Reached(tf, umin0, umax0, umin, umax) && Widened(t, umin, umax, umin', umax')
    ensures Reached(tf, umin0, umax0, umin', umax')
    ensures Outside(tf, umin', umax') < Outside(tf, umin, umax)
  {
    OutsideShrinks(tf, t, umin, umax, umin', umax');
    forall a, b | Covers(a, b, umin0, umax0) && Closed(tf, a, b)
      ensures Covers(a, b, umin', umax')
    {
      assert Overlaps(t, a, b);
    }
    if Disjoint(tf) {
      OnlyNewMember(tf, t, umin, umax, umin', umax');
    }
  }

  /** [lo, hi] is the least range around [umin, umax] that no table straddles. */
  ghost predicate LeastClosed(tf: seq<Table>, umin: Option<UKey>, umax: Option<UKey>, lo: Option<UKey>, hi: Option<UKey>) {
    Covers(lo, hi, umin, umax) && Closed(tf, lo, hi)
    && forall a, b :: Covers(a, b, umin, umax) && Closed(tf, a, b) ==> Covers(a, b, lo, hi)
  }

  lemma ReachedStart(tf: seq<Table>, umin0: Option<UKey>, umax0: Option<UKey>)
    ensures Reached(tf, umin0, umax0, umin0, umax0)
  {
  }

  /** What the bounds reached say about the tables selected. */
  lemma ReachedEnd(tf: seq<Table>, umin0: Option<UKey>, umax0: Option<UKey>, lo: Option<UKey>, hi: Option<UKey>)
    requires WfTables(tf) && Reached(tf, umin0, umax0, lo, hi)
    ensures Covers(lo, hi, umin0, umax0)
    ensures forall a, b :: Covers(a, b, umin0, umax0) && Closed(tf, a, b) ==> Covers(a, b, lo, hi)
    ensures Disjoint(tf) ==> Select(tf, lo, hi) == Select(tf, umin0, umax0)
  {
    if Disjoint(tf) {
      forall t | t in tf
        ensures Overlaps(t, lo, hi) <==> Overlaps(t, umin0, umax0)
      {
        TableRange(t, t.imin);
      }
      SelectSame(tf, lo, hi, umin0, umax0);
    }
  }

  /** `dst` holds what the bounds select among the first `i` tables, none of which straddles them. */
  ghost predicate Scanned(tf: seq<Table>, i: nat, dst: seq<Table>, umin: Option<UKey>, umax: Option<UKey>) {
    i <= |tf| && dst == Select(tf[..i], umin, umax) && Closed(tf[..i], umin, umax)
  }

  lemma ScannedNext(tf: seq<Table>, i: nat, dst: seq<Table>, umin: Option<UKey>, umax: Option<UKey>)
    requires i < |tf| && Scanned(tf, i, dst, umin, umax)
    requires Overlaps(tf[i], umin, umax) ==> Within(tf[i], umin, umax)
    ensures Scanned(tf, i + 1, if Overlaps(tf[i], umin, umax) then dst + [tf[i]] else dst, umin, umax)
  {
    assert tf[..i + 1] == tf[..i] + [tf[i]];
  }

  /** Raising the upper bound at table `i` of a disjoint level selects nothing more among the earlier ones. */
  lemma ScannedRaise(tf: seq<Table>, i: nat, dst: seq<Table>, umin: Option<UKey>, umax: Option<UKey>, umax': Option<UKey>)
    requires WfTables(tf) && Disjoint(tf) && i < |tf| && Overlaps(tf[i], umin, umax)
    requires Scanned(tf, i, dst, umin, umax) && Widened(tf[i], umin, umax, umin, umax')
    ensures Scanned(tf, i, dst, umin, umax')
  {
    forall u | u in tf[..i]
      ensures Overlaps(u, umin, umax) <==> Overlaps(u, umin, umax')
      ensures Overlaps(u, umin, umax') ==> Within(u, umin, umax')
    {
      var j :| 0 <= j < i && tf[j] == u;
      TableRange(u, u.imax);
    }
    SelectSame(tf[..i], umin, umax, umin, umax');
  }

  /** `tFiles.getOverlaps`. It returns the tables that meet the least closed
      range around the one asked for; on a disjoint level that is no more
      than the tables that meet the range asked for. The bounds reached are
      returned as a witness. */
  method GetOverlaps(tf: seq<Table>, umin0: Option<UKey>, umax0: Option<UKey>, overlapped: bool)
      returns (dst: seq<Table>, ghost lo: Option<UKey>, ghost hi: Option<UKey>)
    requires WfTables(tf)
    requires overlapped || Disjoint(tf)
    ensures dst == Select(tf, lo, hi) && LeastClosed(tf, umin0, umax0, lo, hi)
    ensures Disjoint(tf) ==> dst == Select(tf, umin0, umax0)
  {
    hide Reached, Disjoint, Scanned, Select, Closed, Outside;
    ReachedStart(tf, umin0, umax0);
    ScanStart(tf, umin0, umax0);
    var umin, umax := umin0, umax0;
    dst := [];
    var i := 0;
    while i < |tf|
      invariant 0 <= i <= |tf|
      invariant Reached(tf, umin0, umax0, umin, umax)
      invariant Scanned(tf, i, dst, umin, umax)
      decreases Outside(tf, umin, umax), |tf| - i
    {
      var t := tf[i];
      if Overlaps(t, umin, umax) {
        if umin.Some? && t.imin.ukey < umin.value {
          ReachedWiden(tf, t, umin0, umax0, umin, umax, Some(t.imin.ukey), umax);
          umin := Some(t.imin.ukey);
          dst := [];
          i := 0;
          ScanStart(tf, umin, umax);
          continue;
        } else if umax.Some? && t.imax.ukey > umax.value {
          ReachedWiden(tf, t, umin0, umax0, umin, umax, umin, Some(t.imax.ukey));
          if overlapped {
            umax := Some(t.imax.ukey);
            dst := [];
            i := 0;
            ScanStart(tf, umin, umax);
            continue;
          }
          ScannedRaise(tf, i, dst, umin, umax, Some(t.imax.ukey));
          umax := Some(t.imax.ukey);
        }
        ScannedNext(tf, i, dst, umin, umax);
        dst := dst + [t];
      } else {
        ScannedNext(tf, i, dst, umin, umax);
      }
      i := i + 1;
    }
    lo, hi := umin, umax;
    ScanEnd(tf, dst, lo, hi);
    ReachedEnd(tf, umin0, umax0, lo, hi);
  }

  lemma ScanStart(tf: seq<Table>, umin: Option<UKey>, umax: Option<UKey>)
    ensures Scanned(tf, 0, [], umin, umax)
  {
  }

  lemma ScanEnd(tf: seq<Table>, dst: seq<Table>, lo: Option<UKey>, hi: Option<UKey>)
    requires Scanned(tf, |tf|, dst, lo, hi)
    ensures dst == Select(tf, lo, hi) && Closed(tf, lo, hi)
  {
    assert tf[..|tf|] == tf;
  }

  /** Widening the bounds to take in one table of a disjoint level takes in no other. */
  lemma OnlyNewMember(tf: seq<Table>, t: Table, lo: Option<UKey>, hi: Option<UKey>, lo': Option<UKey>, hi': Option<UKey>)
    requires WfTables(tf) && Disjoint(tf) && t in tf && Overlaps(t, lo, hi)
    requires Widened(t, lo, hi, lo', hi')
    ensures forall u :: u in tf && Overlaps(u, lo', hi') ==> Overlaps(u, lo, hi)
  {
    var i :| 0 <= i < |tf| && tf[i] == t;
    forall u | u in tf && Overlaps(u, lo', hi')
      ensures Overlaps(u, lo, hi)
    {
      var j :| 0 <= j < |tf| && tf[j] == u;
      TableRange(t, t.imax);
      TableRange(u, u.imax);
    }
  }

  /** Smallest and largest user key of a list of tables. */
  ghost predicate IsHull(tf: seq<Table>, a: UKey, b: UKey) {
    (forall t :: t in tf ==> a <= t.imin.ukey && t.imax.ukey <= b)
    && (exists t :: t in tf && t.imin.ukey == a)
    && (exists t :: t in tf && t.imax.ukey == b)
  }

  /** `tFiles.getRange`. */
  method GetRange(tf: seq<Table>) returns (imin: Entry, imax: Entry)
    requires WfTables(tf) && tf != []
    ensures IsHull(tf, imin.ukey, imax.ukey)
    ensures forall t :: t in tf ==> AtMost(imin, t.imin) && AtMost(t.imax, imax)
    ensures exists t :: t in tf && t.imin == imin
    ensures exists t :: t in tf && t.imax == imax
  {
    imin, imax := tf[0].imin, tf[0].imax;
    var i := 1;
    while i < |tf|
      invariant 1 <= i <= |tf|
      invariant forall t :: t in tf[..i] ==> AtMost(imin, t.imin) && AtMost(t.imax, imax)
      invariant exists t :: t in tf[..i] && t.imin == imin
      invariant exists t :: t in tf[..i] && t.imax == imax
    {
      var t := tf[i];
      assert tf[..i + 1] == tf[..i] + [t];
      if Less(t.imin, imin) {
        imin := t.imin;
        assert t in tf[..i + 1] && t.imin == imin;
      }
      if Less(imax, t.imax) {
        imax := t.imax;
        assert t in tf[..i + 1] && t.imax == imax;
      }
      i := i + 1;
    }
    assert tf[..i] == tf;
  }

  /** `tFiles.searchMax`: binary search for the first table whose largest key is at or after `key`. */
  method SearchMax(tf: seq<Table>, key: Entry) returns (i: nat)
    requires WfTables(tf) && Disjoint(tf)
    ensures i <= |tf|
    ensures forall j :: 0 <= j < i ==> Less(tf[j].imax, key)
    ensures forall j :: i <= j < |tf| ==> AtMost(key, tf[j].imax)
  {
    var lo, hi := 0, |tf|;
    while lo < hi
      invariant 0 <= lo <= hi <= |tf|
      invariant forall j :: 0 <= j < lo ==> Less(tf[j].imax, key)
      invariant forall j :: hi <= j < |tf| ==> AtMost(key, tf[j].imax)
    {
      var h := (lo + hi) / 2;
      forall j | 0 <= j < |tf| && j != h
        ensures j < h ==> Less(tf[j].imax, tf[h].imax)
        ensures h < j ==> Less(tf[h].imax, tf[j].imax)
      {
        TableRange(tf[j], tf[j].imax);
        TableRange(tf[h], tf[h].imax);
      }
      if AtMost(key, tf[h].imax) {
        hi := h;
      } else {
        lo := h + 1;
      }
    }
    i := lo;
  }
}
