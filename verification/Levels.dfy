/** The levels of a version and the invariant that every change of version keeps. */
module Levels {
  import opened Keys
  import opened Lookup
  import opened Tables

  function LevelAt(levels: seq<seq<Table>>, l: nat): seq<Table> {
    if l < |levels| then levels[l] else []
  }

  ghost function LevelEntries(tf: seq<Table>): set<Entry> {
    set t, e | t in tf && e in t.entries :: e
  }

  /** Every entry of every table of the version. */
  ghost function StoreEntries(levels: seq<seq<Table>>): set<Entry> {
    set l, e | 0 <= l < |levels| && e in LevelEntries(levels[l]) :: e
  }

  /** Each table is sorted and each level but the first is a disjoint run. */
  ghost predicate WfLevels(levels: seq<seq<Table>>) {
    (forall l :: 0 <= l < |levels| ==> WfTables(levels[l]))
    && forall l :: 0 < l < |levels| ==> Disjoint(levels[l])
  }

  /** For each user key, everything in `upper` is newer than everything in `lower`. */
  ghost predicate NewerThan(upper: set<Entry>, lower: set<Entry>) {
    forall a, b :: a in upper && b in lower && a.ukey == b.ukey ==> a.sn > b.sn
  }

  /** For each user key a shallower level holds only newer entries. */
  ghost predicate LevelOrder(levels: seq<seq<Table>>) {
    forall i, j :: 0 <= i < j < |levels| ==> NewerThan(LevelEntries(levels[i]), LevelEntries(levels[j]))
  }
}
