/** Flushes, compactions and moves keep the level invariant. */
module LevelEdits {
  import opened Keys
  import opened Lookup
  import opened Tables
  import opened Levels
  import opened CompactionSpec
  import opened CompactionSafety

  ghost function TableSet(tf: seq<Table>): set<Table> {
    set t | t in tf
  }

  /** `sortByKey`: by smallest key, then by file number. */
  ghost predicate SortedByKey(tf: seq<Table>) {
    forall i, j :: 0 <= i < j < |tf| ==>
      Less(tf[i].imin, tf[j].imin) || (!Less(tf[j].imin, tf[i].imin) && tf[i].num < tf[j].num)
  }

  /** `sortByNum`: the newest file first. */
  ghost predicate SortedByNum(tf: seq<Table>) {
    forall i, j :: 0 <= i < j < |tf| ==> tf[i].num > tf[j].num
  }

  /** The version `after` holds, level by level, the tables of `before` without `del` and with `add`,
      the first level sorted by file number and the others by key. */
  ghost predicate Edited(before: seq<seq<Table>>, after: seq<seq<Table>>, src: nat, del0: set<Table>, del1: set<Table>, add: set<Table>) {
    (forall l: nat :: l != src && l != src + 1 ==> TableSet(LevelAt(after, l)) == TableSet(LevelAt(before, l)))
    && TableSet(LevelAt(after, src)) == TableSet(LevelAt(before, src)) - del0
    && TableSet(LevelAt(after, src + 1)) == TableSet(LevelAt(before, src + 1)) - del1 + add
    && SortedByNum(LevelAt(after, 0)) && forall l: nat :: l > 0 ==> SortedByKey(LevelAt(after, l))
  }

  /** User-key ranges of two tables do not meet. */
  predicate Apart(t: Table, u: Table) {
    t.imax.ukey < u.imin.ukey || u.imax.ukey < t.imin.ukey
  }

  lemma ApartIsDisjoint(tf: seq<Table>)
    requires WfTables(tf) && SortedByKey(tf)
    requires forall t, u :: t in tf && u in tf && t != u ==> Apart(t, u)
    ensures Disjoint(tf)
  {
    forall i, j | 0 <= i < j < |tf|
      ensures tf[i].imax.ukey < tf[j].imin.ukey
    {
      TableRange(tf[i], tf[i].imin);
      TableRange(tf[j], tf[j].imax);
      assert tf[i] != tf[j];
    }
  }

  lemma DisjointIsApart(tf: seq<Table>)
    requires Disjoint(tf)
    ensures forall t, u :: t in tf && u in tf && t != u ==> Apart(t, u)
  {
  }

  /** How the inputs of a compaction sit in the current version: they are there, every table of the
      next level that meets their range is an input, and other tables of the source level hold only
      newer versions of their keys. */
  ghost predicate InputsFit(levels: seq<seq<Table>>, src: nat, in0: set<Table>, in1: set<Table>, a: UKey, b: UKey) {
    in0 <= TableSet(LevelAt(levels, src)) && in1 <= TableSet(LevelAt(levels, src + 1))
    && (forall t :: t in in0 ==> a <= t.imin.ukey && t.imax.ukey <= b)
    && (forall t :: t in LevelAt(levels, src + 1) ==> (t in in1 <==> Overlaps(t, Some(a), Some(b))))
    && forall t, u, x, y :: t in LevelAt(levels, src) && t !in in0 && u in in0 && x in t.entries && y in u.entries && x.ukey == y.ukey
                            ==> x.sn > y.sn
  }

  ghost function EntriesOf(ts: set<Table>): set<Entry> {
    set t, e | t in ts && e in t.entries :: e
  }

  /** Tables built from the inputs and cut at user keys. */
  ghost predicate BuiltFrom(outs: set<Table>, inputs: set<Entry>) {
    (forall t :: t in outs ==> WfTable(t) && forall e :: e in t.entries ==> e in inputs)
    && forall t, u :: t in outs && u in outs && t != u ==> Apart(t, u)
  }

  /** A table of the output level that is not an input lies wholly to one side of every input entry. */
  lemma GapEntry(tf: seq<Table>, in0: set<Table>, in1: set<Table>, a: UKey, b: UKey, t: Table, e: Entry)
    requires WfTables(tf) && Disjoint(tf) && t in tf && t !in in1 && e in EntriesOf(in0 + in1)
    requires forall u :: u in in0 ==> WfTable(u) && a <= u.imin.ukey && u.imax.ukey <= b
    requires forall u :: u in in1 ==> u in tf
    requires forall u :: u in tf ==> (u in in1 <==> Overlaps(u, Some(a), Some(b)))
    ensures if t.imax.ukey < a then t.imax.ukey < e.ukey else e.ukey < t.imin.ukey
  {
    var u :| u in in0 + in1 && e in u.entries;
    DisjointIsApart(tf);
    hide Disjoint;
    assert WfTable(u) && WfTable(t);
    TableRange(u, e);
    TableRange(t, t.imin);
  }

  lemma GapFree(tf: seq<Table>, in0: set<Table>, in1: set<Table>, a: UKey, b: UKey, t: Table, o: Table)
    requires WfTables(tf) && Disjoint(tf) && t in tf && t !in in1
    requires forall u :: u in in0 ==> WfTable(u) && a <= u.imin.ukey && u.imax.ukey <= b
    requires forall u :: u in in1 ==> u in tf
    requires forall u :: u in tf ==> (u in in1 <==> Overlaps(u, Some(a), Some(b)))
    requires WfTable(o) && forall e :: e in o.entries ==> e in EntriesOf(in0 + in1)
    ensures Apart(t, o)
  {
    hide Disjoint, EntriesOf;
    assert o.imin in o.entries && o.imax in o.entries;
    GapEntry(tf, in0, in1, a, b, t, o.imin);
    GapEntry(tf, in0, in1, a, b, t, o.imax);
  }

  /** The level order, over all levels, empty ones included. */
  ghost predicate OrderAt(levels: seq<seq<Table>>, i: nat, j: nat) {
    NewerThan(LevelEntries(LevelAt(levels, i)), LevelEntries(LevelAt(levels, j)))
  }

  lemma LevelOrderAt(levels: seq<seq<Table>>)
    ensures LevelOrder(levels) <==> forall i: nat, j: nat :: i < j ==> OrderAt(levels, i, j)
  {
    if forall i: nat, j: nat :: i < j ==> OrderAt(levels, i, j) {
      forall i, j | 0 <= i < j < |levels|
        ensures NewerThan(LevelEntries(levels[i]), LevelEntries(levels[j]))
      {
        assert OrderAt(levels, i, j);
      }
    }
  }

  /** Where an entry of the edited version comes from. */
  lemma Origin(before: seq<seq<Table>>, after: seq<seq<Table>>, src: nat, del0: set<Table>, del1: set<Table>, add: set<Table>, l: nat, e: Entry)
    requires Edited(before, after, src, del0, del1, add) && e in LevelEntries(LevelAt(after, l))
    ensures (l == src + 1 && e in EntriesOf(add))
            || (exists t :: t in LevelAt(before, l) && (l == src ==> t !in del0) && e in t.entries)
  {
    var t :| t in LevelAt(after, l) && e in t.entries;
    assert t in TableSet(LevelAt(after, l));
    if t in TableSet(LevelAt(before, l)) && (l == src ==> t !in del0) {
      assert t in LevelAt(before, l);
    }
  }

  /** Everything a compaction or a move needs of its inputs and outputs. */
  ghost predicate LegalEdit(before: seq<seq<Table>>, after: seq<seq<Table>>, src: nat, in0: set<Table>, in1: set<Table>, a: UKey, b: UKey, outs: set<Table>) {
    WfLevels(before) && InputsFit(before, src, in0, in1, a, b)
    && BuiltFrom(outs, EntriesOf(in0 + in1)) && Edited(before, after, src, in0, in1, outs)
  }

  lemma EditWf(before: seq<seq<Table>>, after: seq<seq<Table>>, src: nat, in0: set<Table>, in1: set<Table>, a: UKey, b: UKey, outs: set<Table>)
    requires LegalEdit(before, after, src, in0, in1, a, b, outs)
    ensures WfLevels(after)
  {
    forall l: nat
      ensures WfTables(LevelAt(after, l)) && (l > 0 ==> Disjoint(LevelAt(after, l)))
    {
      EditWfAt(before, after, src, in0, in1, a, b, outs, l);
    }
    forall l | 0 <= l < |after|
      ensures WfTables(after[l]) && (l > 0 ==> Disjoint(after[l]))
    {
      assert after[l] == LevelAt(after, l);
    }
  }

  lemma EditWfAt(before: seq<seq<Table>>, after: seq<seq<Table>>, src: nat, in0: set<Table>, in1: set<Table>, a: UKey, b: UKey, outs: set<Table>, l: nat)
    requires LegalEdit(before, after, src, in0, in1, a, b, outs)
    ensures WfTables(LevelAt(after, l)) && (l > 0 ==> Disjoint(LevelAt(after, l)))
  {
    hide Disjoint, SortedByKey, WfTable, EntriesOf;
    var tf, tf' := LevelAt(before, l), LevelAt(after, l);
    forall t | t in tf'
      ensures WfTable(t) && (t in tf || (l == src + 1 && t in outs))
      ensures l == src + 1 && t !in outs ==> t !in in1
    {
      assert t in TableSet(tf');
    }
    if l > 0 {
      DisjointIsApart(tf);
      forall t, u | t in tf' && u in tf' && t != u
        ensures Apart(t, u)
      {
        if l == src + 1 && (t in outs || u in outs) {
          InputsWf(before, src, in0, in1, a, b);
          if t !in outs {
            GapFree(tf, in0, in1, a, b, t, u);
          } else if u !in outs {
            GapFree(tf, in0, in1, a, b, u, t);
          }
        }
      }
      ApartIsDisjoint(tf');
    }
  }

  lemma InputsWf(levels: seq<seq<Table>>, src: nat, in0: set<Table>, in1: set<Table>, a: UKey, b: UKey)
    requires WfLevels(levels) && InputsFit(levels, src, in0, in1, a, b)
    ensures forall u :: u in in0 ==> WfTable(u) && a <= u.imin.ukey && u.imax.ukey <= b
    ensures forall u :: u in in1 ==> u in LevelAt(levels, src + 1)
  {
    forall u | u in in0 ensures WfTable(u) {
      assert u in TableSet(LevelAt(levels, src));
    }
    forall u | u in in1 ensures u in LevelAt(levels, src + 1) {
      assert u in TableSet(LevelAt(levels, src + 1));
    }
  }

  /** An input entry sits in the source level or the next one. */
  lemma InputLevel(l0: seq<Table>, l1: seq<Table>, in0: set<Table>, in1: set<Table>, e: Entry)
    requires in0 <= TableSet(l0) && in1 <= TableSet(l1) && e in EntriesOf(in0 + in1)
    ensures (e in EntriesOf(in0) && e in LevelEntries(l0)) || e in LevelEntries(l1)
  {
    var u :| u in in0 + in1 && e in u.entries;
    if u in in0 {
      assert u in TableSet(l0);
    } else {
      assert u in TableSet(l1);
    }
  }

  lemma OutputIsInput(outs: set<Table>, inputs: set<Entry>, e: Entry)
    requires BuiltFrom(outs, inputs) && e in EntriesOf(outs)
    ensures e in inputs
  {
  }

  lemma Newer(levels: seq<seq<Table>>, i: nat, j: nat, x: Entry, y: Entry)
    requires OrderAt(levels, i, j) && x in LevelEntries(LevelAt(levels, i)) && y in LevelEntries(LevelAt(levels, j)) && x.ukey == y.ukey
    ensures x.sn > y.sn
  {
  }

  lemma NewerThanInput(levels: seq<seq<Table>>, src: nat, in0: set<Table>, in1: set<Table>, a: UKey, b: UKey, t: Table, x: Entry, y: Entry)
    requires InputsFit(levels, src, in0, in1, a, b)
    requires t in LevelAt(levels, src) && t !in in0 && x in t.entries && y in EntriesOf(in0) && x.ukey == y.ukey
    ensures x.sn > y.sn
  {
    var u :| u in in0 && y in u.entries;
  }

  lemma EditOrder(before: seq<seq<Table>>, after: seq<seq<Table>>, src: nat, in0: set<Table>, in1: set<Table>, a: UKey, b: UKey, outs: set<Table>)
    requires LegalEdit(before, after, src, in0, in1, a, b, outs) && LevelOrder(before)
    ensures LevelOrder(after)
  {
    hide *;
    LevelOrderAt(before);
    LevelOrderAt(after);
    forall i: nat, j: nat | i < j
      ensures OrderAt(after, i, j)
    {
      assert forall x, y :: x in LevelEntries(LevelAt(after, i)) && y in LevelEntries(LevelAt(after, j)) && x.ukey == y.ukey ==> x.sn > y.sn by {
        forall x, y | x in LevelEntries(LevelAt(after, i)) && y in LevelEntries(LevelAt(after, j)) && x.ukey == y.ukey
          ensures x.sn > y.sn
        {
          OrderOfOrigins(before, after, src, in0, in1, a, b, outs, i, j, x, y);
        }
      }
      OrderFrom(after, i, j);
    }
  }

  lemma OrderFrom(levels: seq<seq<Table>>, i: nat, j: nat)
    requires forall x, y :: x in LevelEntries(LevelAt(levels, i)) && y in LevelEntries(LevelAt(levels, j)) && x.ukey == y.ukey ==> x.sn > y.sn
    ensures OrderAt(levels, i, j)
  {
  }

  lemma OrderOfOrigins(before: seq<seq<Table>>, after: seq<seq<Table>>, src: nat, in0: set<Table>, in1: set<Table>, a: UKey, b: UKey, outs: set<Table>,
                       i: nat, j: nat, x: Entry, y: Entry)
    requires LegalEdit(before, after, src, in0, in1, a, b, outs)
    requires forall i: nat, j: nat :: i < j ==> OrderAt(before, i, j)
    requires i < j && x.ukey == y.ukey && x in LevelEntries(LevelAt(after, i)) && y in LevelEntries(LevelAt(after, j))
    ensures x.sn > y.sn
  {
    hide BuiltFrom, Edited, InputsFit, EntriesOf, OrderAt, WfLevels, LevelAt, TableSet;
    Origin(before, after, src, in0, in1, outs, i, x);
    Origin(before, after, src, in0, in1, outs, j, y);
    var l0, l1 := LevelAt(before, src), LevelAt(before, src + 1);
    InputsInPlace(before, src, in0, in1, a, b);
    if i == src + 1 && x in EntriesOf(outs) {
      OutputIsInput(outs, EntriesOf(in0 + in1), x);
      InputLevel(l0, l1, in0, in1, x);
      Newer(before, if x in LevelEntries(l0) then src else src + 1, j, x, y);
    } else if j == src + 1 && y in EntriesOf(outs) {
      OutputIsInput(outs, EntriesOf(in0 + in1), y);
      InputLevel(l0, l1, in0, in1, y);
      var t :| t in LevelAt(before, i) && (i == src ==> t !in in0) && x in t.entries;
      if y in LevelEntries(l1) {
        Newer(before, i, src + 1, x, y);
      } else if i == src {
        NewerThanInput(before, src, in0, in1, a, b, t, x, y);
      } else {
        Newer(before, i, src, x, y);
      }
    } else {
      Newer(before, i, j, x, y);
    }
  }

  lemma InputsInPlace(levels: seq<seq<Table>>, src: nat, in0: set<Table>, in1: set<Table>, a: UKey, b: UKey)
    requires InputsFit(levels, src, in0, in1, a, b)
    ensures in0 <= TableSet(LevelAt(levels, src)) && in1 <= TableSet(LevelAt(levels, src + 1))
  {
  }

  /** The entries of the tables an edit leaves alone. */
  ghost function RestEntries(levels: seq<seq<Table>>, src: nat, in0: set<Table>, in1: set<Table>): set<Entry> {
    set l, t, e | 0 <= l < |levels| && t in levels[l] && !(l == src && t in in0) && !(l == src + 1 && t in in1) && e in t.entries :: e
  }

  lemma InStore(levels: seq<seq<Table>>, l: nat, t: Table, e: Entry)
    requires t in LevelAt(levels, l) && e in t.entries
    ensures e in StoreEntries(levels)
  {
    assert e in LevelEntries(levels[l]);
  }

  lemma FromStore(levels: seq<seq<Table>>, e: Entry) returns (l: nat, t: Table)
    requires e in StoreEntries(levels)
    ensures t in LevelAt(levels, l) && e in t.entries && l < |levels|
  {
    l :| 0 <= l < |levels| && e in LevelEntries(levels[l]);
    t :| t in levels[l] && e in t.entries;
  }

  lemma InRest(levels: seq<seq<Table>>, src: nat, in0: set<Table>, in1: set<Table>, l: nat, t: Table, e: Entry)
    requires t in LevelAt(levels, l) && !(l == src && t in in0) && !(l == src + 1 && t in in1) && e in t.entries
    ensures e in RestEntries(levels, src, in0, in1)
  {
    assert t in levels[l];
  }

  /** Before the edit the store is the rest and the inputs; after it, the rest and the outputs. */
  lemma EditEntries(before: seq<seq<Table>>, after: seq<seq<Table>>, src: nat, in0: set<Table>, in1: set<Table>, a: UKey, b: UKey, outs: set<Table>)
    requires InputsFit(before, src, in0, in1, a, b) && Edited(before, after, src, in0, in1, outs)
    ensures StoreEntries(before) == RestEntries(before, src, in0, in1) + EntriesOf(in0 + in1)
    ensures StoreEntries(after) == RestEntries(before, src, in0, in1) + EntriesOf(outs)
  {
    hide InputsFit, Edited, StoreEntries, RestEntries;
    InputsInPlace(before, src, in0, in1, a, b);
    forall e | e in StoreEntries(before)
      ensures e in RestEntries(before, src, in0, in1) + EntriesOf(in0 + in1)
    {
      var l, t := FromStore(before, e);
      if !(l == src && t in in0) && !(l == src + 1 && t in in1) {
        InRest(before, src, in0, in1, l, t, e);
      }
    }
    forall e | e in RestEntries(before, src, in0, in1) + EntriesOf(in0 + in1)
      ensures e in StoreEntries(before)
    {
      if e in RestEntries(before, src, in0, in1) {
        var l, t := FromRest(before, src, in0, in1, e);
        InStore(before, l, t, e);
      } else {
        var t :| t in in0 + in1 && e in t.entries;
        assert t in in0 ==> t in TableSet(LevelAt(before, src));
        assert t in in1 ==> t in TableSet(LevelAt(before, src + 1));
        InStore(before, if t in in0 then src else src + 1, t, e);
      }
    }
    EditEntriesAfter(before, after, src, in0, in1, outs);
  }

  lemma FromRest(levels: seq<seq<Table>>, src: nat, in0: set<Table>, in1: set<Table>, e: Entry) returns (l: nat, t: Table)
    requires e in RestEntries(levels, src, in0, in1)
    ensures t in LevelAt(levels, l) && !(l == src && t in in0) && !(l == src + 1 && t in in1) && e in t.entries
  {
    var i, u :| 0 <= i < |levels| && u in levels[i] && !(i == src && u in in0) && !(i == src + 1 && u in in1) && e in u.entries;
    l, t := i, u;
  }

  /** Which tables a level of the edited version holds. */
  lemma EditedAt(before: seq<seq<Table>>, after: seq<seq<Table>>, src: nat, del0: set<Table>, del1: set<Table>, add: set<Table>, l: nat, t: Table)
    requires Edited(before, after, src, del0, del1, add)
    ensures t in LevelAt(after, l) <==>
            (t in LevelAt(before, l) && !(l == src && t in del0) && !(l == src + 1 && t in del1)) || (l == src + 1 && t in add)
  {
    assert t in TableSet(LevelAt(after, l)) <==> t in LevelAt(after, l);
    assert t in TableSet(LevelAt(before, l)) <==> t in LevelAt(before, l);
  }

  lemma EditEntriesAfter(before: seq<seq<Table>>, after: seq<seq<Table>>, src: nat, in0: set<Table>, in1: set<Table>, outs: set<Table>)
    requires Edited(before, after, src, in0, in1, outs)
    ensures StoreEntries(after) == RestEntries(before, src, in0, in1) + EntriesOf(outs)
  {
    hide Edited, StoreEntries, RestEntries;
    forall e | e in StoreEntries(after)
      ensures e in RestEntries(before, src, in0, in1) + EntriesOf(outs)
    {
      var l, t := FromStore(after, e);
      EditedAt(before, after, src, in0, in1, outs, l, t);
      if !(l == src + 1 && t in outs) {
        InRest(before, src, in0, in1, l, t, e);
      }
    }
    forall e | e in RestEntries(before, src, in0, in1) + EntriesOf(outs)
      ensures e in StoreEntries(after)
    {
      if e in RestEntries(before, src, in0, in1) {
        var l, t := FromRest(before, src, in0, in1, e);
        EditedAt(before, after, src, in0, in1, outs, l, t);
        InStore(after, l, t, e);
      } else {
        var t :| t in outs && e in t.entries;
        EditedAt(before, after, src, in0, in1, outs, src + 1, t);
        InStore(after, src + 1, t, e);
      }
    }
  }

  /** `deeper` lists the levels of `levels` below the output level. */
  ghost predicate DeeperLevels(levels: seq<seq<Table>>, src: nat, deeper: seq<seq<Table>>) {
    forall l: nat :: l >= src + 2 && l < |levels| && levels[l] != [] ==> l - src - 2 < |deeper| && deeper[l - src - 2] == levels[l]
  }

  /** An entry left alone is newer than the inputs of its key or sits deeper, where a table covers the key. */
  lemma RestIsBeside(levels: seq<seq<Table>>, src: nat, in0: set<Table>, in1: set<Table>, a: UKey, b: UKey, es: seq<Entry>, deeper: seq<seq<Table>>)
    requires WfLevels(levels) && LevelOrder(levels) && InputsFit(levels, src, in0, in1, a, b)
    requires forall e :: e in es ==> e in EntriesOf(in0 + in1)
    requires DeeperLevels(levels, src, deeper)
    ensures Beside(RestEntries(levels, src, in0, in1), es, deeper)
  {
    hide WfLevels, LevelOrder, InputsFit, RestEntries, Covered, EntriesOf, LevelEntries, DeeperLevels;
    forall x, y | x in RestEntries(levels, src, in0, in1) && y in es && x.ukey == y.ukey
      ensures x.sn > y.sn || Covered(deeper, x.ukey)
    {
      var l, t := FromRest(levels, src, in0, in1, x);
      BesideOne(levels, src, in0, in1, a, b, deeper, l, t, x, y);
    }
  }

  lemma BesideOne(levels: seq<seq<Table>>, src: nat, in0: set<Table>, in1: set<Table>, a: UKey, b: UKey, deeper: seq<seq<Table>>,
                  l: nat, t: Table, x: Entry, y: Entry)
    requires WfLevels(levels) && LevelOrder(levels) && InputsFit(levels, src, in0, in1, a, b)
    requires DeeperLevels(levels, src, deeper) && y in EntriesOf(in0 + in1) && x.ukey == y.ukey
    requires t in LevelAt(levels, l) && !(l == src && t in in0) && !(l == src + 1 && t in in1) && x in t.entries
    ensures x.sn > y.sn || Covered(deeper, x.ukey)
  {
    hide LevelOrder, InputsFit, EntriesOf, OrderAt, Disjoint, DeeperLevels, Covered;
    var l0, l1 := LevelAt(levels, src), LevelAt(levels, src + 1);
    LevelOrderAt(levels);
    InputsInPlace(levels, src, in0, in1, a, b);
    InputLevel(l0, l1, in0, in1, y);
    assert x in LevelEntries(LevelAt(levels, l));
    if l < src {
      Newer(levels, l, if y in LevelEntries(l0) then src else src + 1, x, y);
    } else if l == src {
      if y in EntriesOf(in0) {
        NewerThanInput(levels, src, in0, in1, a, b, t, x, y);
      } else {
        Newer(levels, l, src + 1, x, y);
      }
    } else if l == src + 1 {
      assert t in l1 && WfTable(t);
      NoSharedKey(levels, src, in0, in1, a, b, t, x, y);
    } else {
      TableRange(t, x);
      DeeperCovers(levels, src, deeper, l, t, x.ukey);
    }
  }

  /** A table of the output level that is not an input shares no key with the inputs. */
  lemma NoSharedKey(levels: seq<seq<Table>>, src: nat, in0: set<Table>, in1: set<Table>, a: UKey, b: UKey, t: Table, x: Entry, y: Entry)
    requires WfLevels(levels) && InputsFit(levels, src, in0, in1, a, b) && y in EntriesOf(in0 + in1)
    requires t in LevelAt(levels, src + 1) && t !in in1 && x in t.entries
    ensures x.ukey != y.ukey
  {
    hide Disjoint;
    InputsWf(levels, src, in0, in1, a, b);
    GapEntry(LevelAt(levels, src + 1), in0, in1, a, b, t, y);
    TableRange(t, x);
  }

  lemma DeeperCovers(levels: seq<seq<Table>>, src: nat, deeper: seq<seq<Table>>, l: nat, t: Table, k: UKey)
    requires DeeperLevels(levels, src, deeper) && src + 2 <= l && t in LevelAt(levels, l) && t.imin.ukey <= k <= t.imax.ukey
    ensures Covered(deeper, k)
  {
    var j :| 0 <= j < |levels[l]| && levels[l][j] == t;
    assert deeper[l - src - 2][j] == t;
  }

  lemma KeptSubset(es: seq<Entry>, minSeq: nat, deeper: seq<seq<Table>>)
    requires Sorted(es)
    ensures Elems(Kept(es, |es|, minSeq, deeper)) <= Elems(es)
  {
    KeptMembers(es, |es|, minSeq, deeper);
  }

  /** Replacing closed inputs by what a compaction keeps of them leaves a legal version that answers
      every read from the watermark on as before. */
  lemma EditAnswers(before: seq<seq<Table>>, after: seq<seq<Table>>, src: nat, in0: set<Table>, in1: set<Table>, a: UKey, b: UKey,
                    outs: set<Table>, es: seq<Entry>, minSeq: nat, deeper: seq<seq<Table>>)
    requires WfLevels(before) && LevelOrder(before) && UniqueSeq(StoreEntries(before))
    requires InputsFit(before, src, in0, in1, a, b) && BuiltFrom(outs, EntriesOf(in0 + in1)) && Edited(before, after, src, in0, in1, outs)
    requires Sorted(es) && Elems(es) == EntriesOf(in0 + in1) && EntriesOf(outs) == Elems(Kept(es, |es|, minSeq, deeper))
    requires DeeperLevels(before, src, deeper)
    ensures WfLevels(after) && LevelOrder(after) && StoreEntries(after) <= StoreEntries(before)
    ensures forall k, q: nat :: minSeq <= q ==> SameAnswers(StoreEntries(before), StoreEntries(after), k, q)
  {
    hide LevelOrder, WfLevels, StoreEntries, SameAnswers, Edited, InputsFit, BuiltFrom, EntriesOf, RestEntries, Kept, Beside, DeeperLevels, Sorted;
    var rest, ks := RestEntries(before, src, in0, in1), Kept(es, |es|, minSeq, deeper);
    EditWf(before, after, src, in0, in1, a, b, outs);
    EditOrder(before, after, src, in0, in1, a, b, outs);
    EditEntries(before, after, src, in0, in1, a, b, outs);
    forall e | e in es ensures e in EntriesOf(in0 + in1) {
      assert e in Elems(es);
    }
    RestIsBeside(before, src, in0, in1, a, b, es, deeper);
    KeptSubset(es, minSeq, deeper);
    forall k, q: nat | minSeq <= q
      ensures SameAnswers(StoreEntries(before), StoreEntries(after), k, q)
    {
      CompactionKeepsAnswers(rest, es, minSeq, deeper, k, q);
    }
  }
}
