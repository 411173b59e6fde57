/** `version.get`: the level-by-level search of one version. */
module VersionGet {
  import opened Keys
  import opened Lookup
  import opened Tables
  import opened Levels

  /** A filter (table, user key, seq) may only deny a table that holds no version of the key visible at that seq. */
  ghost predicate SoundFilter(filter: (Table, UKey, nat) -> bool, k: UKey, s: nat) {
    forall t: Table, e :: e in t.entries && Visible(e, k, s) ==> filter(t, k, s)
  }

  /** `tOps.find`: the first entry at or after the seek key, unless the filter denies the table. */
  method Find(t: Table, k: UKey, s: nat, filter: (Table, UKey, nat) -> bool) returns (r: Option<Entry>)
    requires WfTable(t) && SoundFilter(filter, k, s)
    ensures if r.Some? && r.value.ukey == k
            then Newest(Elems(t.entries), k, s, r.value)
            else forall x :: x in t.entries ==> !Visible(x, k, s)
  {
    FirstGEIsNewest(t.entries, k, s);
    if !filter(t, k, s) {
      return None;
    }
    var i := FirstGE(t.entries, SeekKey(k, s));
    r := if i < |t.entries| then Some(t.entries[i]) else None;
  }

  ghost predicate Hides(S: set<Entry>, k: UKey, s: nat) {
    forall x :: x in S ==> !Visible(x, k, s)
  }

  /** `zf` is the newest visible version among the tables scanned so far. */
  ghost predicate Best(S: set<Entry>, k: UKey, s: nat, zf: Option<Entry>) {
    if zf.Some? then Newest(S, k, s, zf.value) else Hides(S, k, s)
  }

  lemma BestExtend(tf: seq<Table>, i: nat, k: UKey, s: nat, zf: Option<Entry>, r: Option<Entry>, zf': Option<Entry>)
    requires i < |tf|
    requires Best(LevelEntries(tf[..i]), k, s, zf)
    requires Best(Elems(tf[i].entries), k, s, r)
    requires zf' == if r.None? then zf else if zf.None? || r.value.sn >= zf.value.sn then r else zf
    ensures Best(LevelEntries(tf[..i + 1]), k, s, zf')
  {
    assert tf[..i + 1] == tf[..i] + [tf[i]];
    forall x | x in LevelEntries(tf[..i + 1]) && Visible(x, k, s)
      ensures x in LevelEntries(tf[..i]) || x in Elems(tf[i].entries)
    {
      var t :| t in tf[..i + 1] && x in t.entries;
      assert t == tf[i] || t in tf[..i];
    }
    forall x | x in LevelEntries(tf[..i]) || x in Elems(tf[i].entries)
      ensures x in LevelEntries(tf[..i + 1])
    {
      if x in LevelEntries(tf[..i]) {
        var t :| t in tf[..i] && x in t.entries;
        assert t in tf[..i + 1];
      } else {
        assert tf[i] in tf[..i + 1];
      }
    }
  }

  /** The level-0 scan: every table whose range covers the key, keeping the entry with the largest seq. */
  method ScanLevel0(tf: seq<Table>, k: UKey, s: nat, filter: (Table, UKey, nat) -> bool) returns (zf: Option<Entry>)
    requires WfTables(tf) && SoundFilter(filter, k, s)
    ensures Best(LevelEntries(tf), k, s, zf)
  {
    zf := None;
    var i := 0;
    while i < |tf|
      invariant 0 <= i <= |tf|
      invariant Best(LevelEntries(tf[..i]), k, s, zf)
    {
      var t := tf[i];
      ghost var before := zf;
      if Overlaps(t, Some(k), Some(k)) {
        var r := Find(t, k, s, filter);
        if r.Some? && r.value.ukey == k {
          if zf.None? || r.value.sn >= zf.value.sn {
            zf := r;
          }
          BestExtend(tf, i, k, s, before, r, zf);
        } else {
          BestExtend(tf, i, k, s, before, None, zf);
        }
      } else {
        forall x | x in t.entries ensures !Visible(x, k, s) {
          TableRange(t, x);
        }
        BestExtend(tf, i, k, s, before, None, zf);
      }
      i := i + 1;
    }
    assert tf[..i] == tf;
  }

  /** On a disjoint level only the table found by the binary search can hold the key. */
  lemma OnlyCandidate(tf: seq<Table>, i: nat, k: UKey, s: nat, x: Entry)
    requires WfTables(tf) && Disjoint(tf) && i <= |tf|
    requires forall j :: 0 <= j < i ==> Less(tf[j].imax, SeekKey(k, s))
    requires forall j :: i <= j < |tf| ==> AtMost(SeekKey(k, s), tf[j].imax)
    requires x in LevelEntries(tf) && Visible(x, k, s)
    ensures i < |tf| && x in tf[i].entries && tf[i].imin.ukey <= k
  {
    var t :| t in tf && x in t.entries;
    var j :| 0 <= j < |tf| && tf[j] == t;
    TableRange(t, x);
  }

  /** The search of a deeper level: one table at most. */
  method SearchLevel(tf: seq<Table>, k: UKey, s: nat, filter: (Table, UKey, nat) -> bool) returns (r: Option<Entry>)
    requires WfTables(tf) && Disjoint(tf) && SoundFilter(filter, k, s)
    ensures Best(LevelEntries(tf), k, s, r)
  {
    r := None;
    var i := SearchMax(tf, SeekKey(k, s));
    forall x | x in LevelEntries(tf) && Visible(x, k, s)
      ensures i < |tf| && x in tf[i].entries && tf[i].imin.ukey <= k
    {
      OnlyCandidate(tf, i, k, s, x);
    }
    if i < |tf| && k >= tf[i].imin.ukey {
      var f := Find(tf[i], k, s, filter);
      if f.Some? && f.value.ukey == k {
        assert f.value in LevelEntries(tf) by { assert tf[i] in tf; }
        r := f;
      }
    }
  }

  /** The newest visible version of the first level that has one is the newest of the whole version. */
  lemma FirstLevelWins(levels: seq<seq<Table>>, l: nat, k: UKey, s: nat, e: Entry)
    requires LevelOrder(levels) && l < |levels|
    requires forall j :: 0 <= j < l ==> Hides(LevelEntries(levels[j]), k, s)
    requires Newest(LevelEntries(levels[l]), k, s, e)
    ensures Newest(StoreEntries(levels), k, s, e)
  {
    forall x | x in StoreEntries(levels) && Visible(x, k, s)
      ensures x.sn <= e.sn
    {
      var j :| 0 <= j < |levels| && x in LevelEntries(levels[j]);
    }
  }

  /** `version.get`: stopping at the first level with a version of the key gives the
      same answer as looking at every entry of every table. */
  method Get(levels: seq<seq<Table>>, k: UKey, s: nat, filter: (Table, UKey, nat) -> bool) returns (value: Option<Bytes>)
    requires WfLevels(levels) && LevelOrder(levels) && SoundFilter(filter, k, s)
    ensures Answers(StoreEntries(levels), k, s, value)
  {
    var level := 0;
    while level < |levels|
      invariant 0 <= level <= |levels|
      invariant forall j :: 0 <= j < level ==> Hides(LevelEntries(levels[j]), k, s)
    {
      var found: Option<Entry>;
      if level == 0 {
        found := ScanLevel0(levels[level], k, s, filter);
      } else {
        found := SearchLevel(levels[level], k, s, filter);
      }
      if found.Some? {
        FirstLevelWins(levels, level, k, s, found.value);
        return ValueOf(found.value);
      }
      level := level + 1;
    }
    value := None;
  }
}
