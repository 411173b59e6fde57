/** `versionStaging` and manifest replay: folding all records into one staging gives the version that
    spawning one version per record gives. */
module Manifest {
  import opened Keys
  import opened MemDb
  import opened SessionRecord

  type Tables = map<nat, FileRec>
  type Levels = seq<seq<FileRec>>

  /** Per-level edits: what a record leaves of a level seen as a map by file number. */
  function DropTables(m: Tables, level: nat, ds: seq<DtRecord>): Tables {
    if ds == [] then m
    else
      var m' := DropTables(m, level, ds[..|ds| - 1]);
      if ds[|ds| - 1].level == level then m' - {ds[|ds| - 1].num} else m'
  }

  function AddTables(m: Tables, level: nat, ats: seq<AtRecord>): Tables {
    if ats == [] then m
    else
      var m' := AddTables(m, level, ats[..|ats| - 1]);
      var a := ats[|ats| - 1];
      if a.level == level then m'[a.file.num := a.file] else m'
  }

  function EditTables(m: Tables, level: nat, r: Rec): Tables {
    AddTables(DropTables(m, level, r.deletedTables), level, r.addedTables)
  }

  /** A level after a list of records. */
  function Replayed(rs: seq<Rec>, level: nat): Tables {
    if rs == [] then map[] else EditTables(Replayed(rs[..|rs| - 1], level), level, rs[|rs| - 1])
  }

  function LevelOf(levels: Levels, l: nat): seq<FileRec> {
    if l < |levels| then levels[l] else []
  }

  function ByNum(tf: seq<FileRec>): Tables {
    if tf == [] then map[] else ByNum(tf[..|tf| - 1])[tf[|tf| - 1].num := tf[|tf| - 1]]
  }

  /** The order a level is kept in: level 0 newest file first, others by smallest key, then file number. */
  predicate Before(icmp: Cmp, level: nat, a: FileRec, b: FileRec) {
    if level == 0 then a.num > b.num
    else
      var n := icmp(a.imin, b.imin);
      if n == 0 then a.num < b.num else n < 0
  }

  ghost predicate InOrder(icmp: Cmp, level: nat, tf: seq<FileRec>) {
    forall i, j :: 0 <= i < j < |tf| ==> Before(icmp, level, tf[i], tf[j])
  }

  /** Every table is filed under its own number. */
  ghost predicate Keyed(m: Tables) {
    forall n :: n in m ==> m[n].num == n
  }

  /** `tf` lists exactly the tables of `m`, in the level's order. */
  ghost predicate Lists(icmp: Cmp, level: nat, m: Tables, tf: seq<FileRec>) {
    InOrder(icmp, level, tf) && (forall t :: t in tf <==> t.num in m && m[t.num] == t)
  }

  /** `levels` is the version whose level `l` holds the tables `m(l)`, without empty levels at the end. */
  ghost predicate IsVersion(icmp: Cmp, levels: Levels, m: nat -> Tables) {
    (forall l :: Lists(icmp, l, m(l), LevelOf(levels, l))) && (levels != [] ==> levels[|levels| - 1] != [])
  }

  /** On level 0 file numbers descend; on any other level smallest keys ascend, and file numbers where these are equal. */
  ghost predicate InLevelOrder(icmp: Cmp, levels: Levels) {
    (levels != [] ==> forall i, j :: 0 <= i < j < |levels[0]| ==> levels[0][i].num > levels[0][j].num)
    && forall l, i, j :: 1 <= l < |levels| && 0 <= i < j < |levels[l]| ==>
         icmp(levels[l][i].imin, levels[l][j].imin) <= 0
         && (icmp(levels[l][i].imin, levels[l][j].imin) == 0 ==> levels[l][i].num < levels[l][j].num)
  }

  lemma VersionInOrder(icmp: Cmp, levels: Levels, m: nat -> Tables)
    requires IsVersion(icmp, levels, m)
    ensures InLevelOrder(icmp, levels)
  {
    forall l: nat, i, j | l < |levels| && 0 <= i < j < |levels[l]| ensures Before(icmp, l, levels[l][i], levels[l][j]) {
      assert Lists(icmp, l, m(l), LevelOf(levels, l));
      assert LevelOf(levels, l) == levels[l];
    }
  }

  /** So when the key ranges of a level's tables do not meet, each table lies wholly before the next ones: the level can be
      searched for largest keys as well as for smallest. */
  lemma SearchableLevel(icmp: Cmp, levels: Levels, l: nat, i: nat, j: nat)
    requires TotalOrder(icmp) && InLevelOrder(icmp, levels) && 1 <= l < |levels| && i < j < |levels[l]|
    requires forall t :: t in levels[l] ==> icmp(t.imin, t.imax) <= 0
    requires forall a, b :: 0 <= a < b < |levels[l]| ==>
               icmp(levels[l][a].imax, levels[l][b].imin) < 0 || icmp(levels[l][b].imax, levels[l][a].imin) < 0
    ensures icmp(levels[l][i].imax, levels[l][j].imin) < 0 && icmp(levels[l][i].imax, levels[l][j].imax) < 0
  {
    var t, u := levels[l][i], levels[l][j];
    assert t in levels[l] && u in levels[l];
    OrderedEnds(icmp, t, u);
  }

  lemma OrderedEnds(icmp: Cmp, t: FileRec, u: FileRec)
    requires TotalOrder(icmp) && icmp(t.imin, u.imin) <= 0 && icmp(t.imin, t.imax) <= 0 && icmp(u.imin, u.imax) <= 0
    requires icmp(t.imax, u.imin) < 0 || icmp(u.imax, t.imin) < 0
    ensures icmp(t.imax, u.imin) < 0 && icmp(t.imax, u.imax) < 0
  {
    AtMostTrans(icmp, t.imin, u.imin, u.imax);
    assert icmp(t.imax, u.imin) < 0;
    BeforeAtMost(icmp, t.imax, u.imin, u.imax);
  }

  lemma AtMostTrans(icmp: Cmp, a: Bytes, b: Bytes, c: Bytes)
    requires TotalOrder(icmp) && icmp(a, b) <= 0 && icmp(b, c) <= 0
    ensures icmp(a, c) <= 0 && icmp(c, a) >= 0
  {
    assert icmp(a, b) == 0 ==> a == b;
    assert icmp(b, c) == 0 ==> b == c;
  }

  lemma BeforeAtMost(icmp: Cmp, a: Bytes, b: Bytes, c: Bytes)
    requires TotalOrder(icmp) && icmp(a, b) < 0 && icmp(b, c) <= 0
    ensures icmp(a, c) < 0
  {
    assert icmp(b, c) == 0 ==> b == c;
  }

  // ----- what a record leaves of a level

  ghost predicate Adds(ats: seq<AtRecord>, level: nat, num: nat) {
    exists k :: 0 <= k < |ats| && ats[k].level == level && ats[k].file.num == num
  }

  ghost predicate Drops(ds: seq<DtRecord>, level: nat, num: nat) {
    exists k :: 0 <= k < |ds| && ds[k].level == level && ds[k].num == num
  }

  /** Addition `k` is the last under its number on the level. */
  ghost predicate LastAdded(ats: seq<AtRecord>, level: nat, num: nat, k: nat) {
    k < |ats| && ats[k].level == level && ats[k].file.num == num
    && forall j :: k < j < |ats| && ats[j].level == level ==> ats[j].file.num != num
  }

  lemma {:induction false} AddedIsThere(m: Tables, level: nat, ats: seq<AtRecord>, num: nat, k: nat)
    requires LastAdded(ats, level, num, k)
    ensures num in AddTables(m, level, ats) && AddTables(m, level, ats)[num] == ats[k].file
  {
    var n := |ats| - 1;
    if k < n {
      AddedIsThere(m, level, ats[..n], num, k);
    }
  }

  lemma {:induction false} NotAddedStays(m: Tables, level: nat, ats: seq<AtRecord>, num: nat)
    requires !Adds(ats, level, num)
    ensures num in AddTables(m, level, ats) <==> num in m
    ensures num in m ==> AddTables(m, level, ats)[num] == m[num]
  {
    if ats != [] {
      var n := |ats| - 1;
      assert forall k :: 0 <= k < n ==> ats[..n][k] == ats[k];
      NotAddedStays(m, level, ats[..n], num);
    }
  }

  lemma {:induction false} DroppedIsGone(m: Tables, level: nat, ds: seq<DtRecord>, num: nat)
    ensures num in DropTables(m, level, ds) <==> num in m && !Drops(ds, level, num)
    ensures num in DropTables(m, level, ds) ==> DropTables(m, level, ds)[num] == m[num]
  {
    if ds != [] {
      var n := |ds| - 1;
      DroppedIsGone(m, level, ds[..n], num);
      assert forall k :: 0 <= k < n ==> ds[..n][k] == ds[k];
    }
  }

  /** What is under a number on a level after a record: the table it adds there last, or else what was there, unless the
      record deletes it. */
  lemma EditIs(m: Tables, level: nat, r: Rec, num: nat)
    ensures var e := EditTables(m, level, r);
            && (forall k: nat :: k < |r.addedTables| && LastAdded(r.addedTables, level, num, k) ==> num in e && e[num] == r.addedTables[k].file)
            && (!Adds(r.addedTables, level, num) ==>
                  (num in e <==> num in m && !Drops(r.deletedTables, level, num)) && (num in e ==> e[num] == m[num]))
  {
    hide AddTables, DropTables, Adds, LastAdded, Drops;
    var m', ats := DropTables(m, level, r.deletedTables), r.addedTables;
    DroppedIsGone(m, level, r.deletedTables, num);
    forall k: nat | k < |ats| && LastAdded(ats, level, num, k)
      ensures num in AddTables(m', level, ats) && AddTables(m', level, ats)[num] == ats[k].file
    {
      AddedIsThere(m', level, ats, num, k);
    }
    if !Adds(ats, level, num) {
      NotAddedStays(m', level, ats, num);
    }
  }

  lemma BeforeStrict(icmp: Cmp, level: nat, a: FileRec, b: FileRec, c: FileRec)
    requires TotalOrder(icmp)
    ensures !(Before(icmp, level, a, b) && Before(icmp, level, b, a))
    ensures a.num != b.num ==> Before(icmp, level, a, b) || Before(icmp, level, b, a)
    ensures Before(icmp, level, a, b) && Before(icmp, level, b, c) ==> Before(icmp, level, a, c)
  {
  }

  /** The order leaves one way to list a level. */
  lemma {:induction false} ListsUnique(icmp: Cmp, level: nat, a: seq<FileRec>, b: seq<FileRec>)
    requires TotalOrder(icmp) && InOrder(icmp, level, a) && InOrder(icmp, level, b)
    requires forall t :: t in a <==> t in b
    ensures a == b
  {
    hide TotalOrder;
    assert a != [] ==> a[0] in a;
    assert b != [] ==> b[0] in b;
    if a != [] && b != [] {
      FirstSame(icmp, level, a, b);
      forall t ensures t in a[1..] <==> t in b[1..] {
        RestHas(icmp, level, a, t);
        RestHas(icmp, level, b, t);
      }
      ListsUnique(icmp, level, a[1..], b[1..]);
      assert a == [a[0]] + a[1..] && b == [b[0]] + b[1..];
    }
  }

  lemma FirstSame(icmp: Cmp, level: nat, a: seq<FileRec>, b: seq<FileRec>)
    requires TotalOrder(icmp) && InOrder(icmp, level, a) && InOrder(icmp, level, b) && a != [] && b != []
    requires forall t :: t in a <==> t in b
    ensures a[0] == b[0]
  {
    assert a[0] in b && b[0] in a;
    var i :| 0 <= i < |b| && b[i] == a[0];
    var j :| 0 <= j < |a| && a[j] == b[0];
    BeforeStrict(icmp, level, a[0], b[0], a[0]);
  }

  lemma RestHas(icmp: Cmp, level: nat, a: seq<FileRec>, t: FileRec)
    requires TotalOrder(icmp) && InOrder(icmp, level, a) && a != []
    ensures t in a[1..] <==> t in a && t != a[0]
  {
    BeforeStrict(icmp, level, a[0], a[0], a[0]);
    if t in a && t != a[0] {
      var i :| 0 <= i < |a| && a[i] == t;
      assert a[1..][i - 1] == t;
    }
  }

  /** One version, level for level and table for table. */
  lemma VersionUnique(icmp: Cmp, a: Levels, b: Levels, m: nat -> Tables)
    requires TotalOrder(icmp) && IsVersion(icmp, a, m) && IsVersion(icmp, b, m)
    ensures a == b
  {
    hide TotalOrder;
    forall l: nat ensures LevelOf(a, l) == LevelOf(b, l) {
      assert Lists(icmp, l, m(l), LevelOf(a, l)) && Lists(icmp, l, m(l), LevelOf(b, l));
      ListsUnique(icmp, l, LevelOf(a, l), LevelOf(b, l));
    }
    assert |a| > 0 ==> LevelOf(a, |a| - 1) == LevelOf(b, |a| - 1);
    assert |b| > 0 ==> LevelOf(a, |b| - 1) == LevelOf(b, |b| - 1);
    assert forall l :: 0 <= l < |a| ==> a[l] == LevelOf(a, l) == LevelOf(b, l) == b[l];
  }

  // ----- sorting, whatever the algorithm

  function Insert(icmp: Cmp, level: nat, tf: seq<FileRec>, t: FileRec): seq<FileRec> {
    if tf == [] || Before(icmp, level, t, tf[0]) then [t] + tf else [tf[0]] + Insert(icmp, level, tf[1..], t)
  }

  /** `sortByNum` and `sortByKey`. */
  function Sort(icmp: Cmp, level: nat, tf: seq<FileRec>): seq<FileRec> {
    if tf == [] then [] else Insert(icmp, level, Sort(icmp, level, tf[1..]), tf[0])
  }

  lemma {:induction false} InsertInOrder(icmp: Cmp, level: nat, tf: seq<FileRec>, t: FileRec)
    requires TotalOrder(icmp) && InOrder(icmp, level, tf) && forall u :: u in tf ==> u.num != t.num
    ensures InOrder(icmp, level, Insert(icmp, level, tf, t))
    ensures forall u :: u in Insert(icmp, level, tf, t) <==> u == t || u in tf
  {
    if tf != [] {
      InsertInOrder(icmp, level, tf[1..], t);
      hide TotalOrder, Before;
      assert forall u :: u in tf <==> u == tf[0] || u in tf[1..];
      BeforeStrict(icmp, level, t, tf[0], t);
      if Before(icmp, level, t, tf[0]) {
        forall u | u in tf ensures Before(icmp, level, t, u) {
          var i :| 0 <= i < |tf| && tf[i] == u;
          BeforeStrict(icmp, level, t, tf[0], tf[i]);
        }
      } else {
        var rest := Insert(icmp, level, tf[1..], t);
        forall u | u in rest ensures Before(icmp, level, tf[0], u) {
          assert tf[0] in tf;
          if u != t { var i :| 0 <= i < |tf| - 1 && tf[1..][i] == u; assert tf[i + 1] == u; }
        }
      }
    }
  }

  lemma {:induction false} SortInOrder(icmp: Cmp, level: nat, tf: seq<FileRec>)
    requires TotalOrder(icmp) && forall i, j :: 0 <= i < j < |tf| ==> tf[i].num != tf[j].num
    ensures InOrder(icmp, level, Sort(icmp, level, tf))
    ensures forall u :: u in Sort(icmp, level, tf) <==> u in tf
  {
    hide TotalOrder, Before;
    if tf != [] {
      SortInOrder(icmp, level, tf[1..]);
      assert forall u :: u in tf <==> u == tf[0] || u in tf[1..];
      InsertInOrder(icmp, level, Sort(icmp, level, tf[1..]), tf[0]);
    }
  }

  // ----- staging

  /** `tablesScratch`; an unallocated map is empty. */
  datatype Scratch = Scratch(added: Tables, deleted: set<nat>)

  function BaseOf(base: Levels, l: nat): Tables {
    ByNum(LevelOf(base, l))
  }

  /** What level `l` will hold when the staging is finished. */
  function Pending(base: Levels, levels: seq<Scratch>, l: nat): Tables {
    if l < |levels| then (BaseOf(base, l) - levels[l].deleted) + levels[l].added else BaseOf(base, l)
  }

  ghost predicate ScratchOk(levels: seq<Scratch>) {
    forall l :: 0 <= l < |levels| ==> Keyed(levels[l].added) && levels[l].added.Keys !! levels[l].deleted
  }

  class VersionStaging {
    const base: Levels
    var levels: seq<Scratch>

    ghost predicate Valid()
      reads this
    {
      ScratchOk(levels)
    }

    /** The pending tables of a level. */
    function Tables(l: nat): Tables
      reads this
    {
      Pending(base, levels, l)
    }

    constructor (base: Levels)
      ensures Valid() && this.base == base && forall l :: Tables(l) == BaseOf(base, l)
    {
      this.base, levels := base, [];
    }

    method GetScratch(level: nat)
      requires Valid()
      modifies this
      ensures Valid() && level < |levels| && forall l :: Tables(l) == old(Tables(l))
    {
      if level >= |levels| {
        levels := levels + seq(level + 1 - |levels|, _ => Scratch(map[], {}));
      }
    }

    method Delete(d: DtRecord)
      requires Valid()
      modifies this
      ensures Valid() && forall l :: Tables(l) == if l == d.level then old(Tables(l)) - {d.num} else old(Tables(l))
    {
      GetScratch(d.level);
      label got:
      var s := levels[d.level];
      if d.level < |base| && |base[d.level]| > 0 {
        s := s.(deleted := s.deleted + {d.num});
      }
      s := s.(added := s.added - {d.num});
      levels := levels[d.level := s];
      assert BaseOf(base, d.level) == map[] || d.num in s.deleted;
      assert Tables(d.level) == old@got(Tables(d.level)) - {d.num};
    }

    method Add(a: AtRecord)
      requires Valid()
      modifies this
      ensures Valid() && forall l :: Tables(l) == if l == a.level then old(Tables(l))[a.file.num := a.file] else old(Tables(l))
    {
      GetScratch(a.level);
      label got:
      var s := levels[a.level];
      s := s.(added := s.added[a.file.num := a.file], deleted := s.deleted - {a.file.num});
      levels := levels[a.level := s];
      assert Tables(a.level) == old@got(Tables(a.level))[a.file.num := a.file];
    }

    method Commit(r: Rec)
      requires Valid()
      modifies this
      ensures Valid() && forall l :: Tables(l) == EditTables(old(Tables(l)), l, r)
    {
      for i := 0 to |r.deletedTables|
        invariant Valid() && forall l :: Tables(l) == DropTables(old(Tables(l)), l, r.deletedTables[..i])
      {
        Delete(r.deletedTables[i]);
        assert r.deletedTables[..i + 1][..i] == r.deletedTables[..i];
      }
      assert r.deletedTables[..|r.deletedTables|] == r.deletedTables;
      for i := 0 to |r.addedTables|
        invariant Valid() && forall l :: Tables(l) == AddTables(DropTables(old(Tables(l)), l, r.deletedTables), l, r.addedTables[..i])
      {
        Add(r.addedTables[i]);
        assert r.addedTables[..i + 1][..i] == r.addedTables[..i];
      }
      assert r.addedTables[..|r.addedTables|] == r.addedTables;
    }

    /** One level of the new version: base tables not deleted or replaced, then the added ones, sorted. */
    method FinishLevel(icmp: Cmp, level: nat) returns (nt: seq<FileRec>)
      requires Valid() && TotalOrder(icmp) && level < |levels| && Lists(icmp, level, BaseOf(base, level), LevelOf(base, level))
      ensures Lists(icmp, level, Tables(level), nt)
    {
      var scratch, baseTables := levels[level], LevelOf(base, level);
      DistinctNums(icmp, level, BaseOf(base, level), baseTables);
      hide TotalOrder, Before;
      nt := KeepBase(scratch, baseTables);
      nt := AddNew(scratch, nt);
      SortInOrder(icmp, level, nt);
      nt := Sort(icmp, level, nt);
      assert forall t :: t in nt <==> t.num in Tables(level) && Tables(level)[t.num] == t;
    }

    /** The base tables that are neither deleted nor replaced. */
    static method KeepBase(scratch: Scratch, baseTables: seq<FileRec>) returns (nt: seq<FileRec>)
      requires forall j, k :: 0 <= j < k < |baseTables| ==> baseTables[j].num != baseTables[k].num
      ensures forall t :: t in nt <==> t in baseTables && t.num !in scratch.deleted && t.num !in scratch.added
      ensures forall j, k :: 0 <= j < k < |nt| ==> nt[j].num != nt[k].num
    {
      nt := [];
      for i := 0 to |baseTables|
        invariant forall t :: t in nt <==> t in baseTables[..i] && t.num !in scratch.deleted && t.num !in scratch.added
        invariant forall j, k :: 0 <= j < k < |nt| ==> nt[j].num != nt[k].num
      {
        var t := baseTables[i];
        assert forall u :: u in baseTables[..i + 1] <==> u in baseTables[..i] || u == t;
        if t.num !in scratch.deleted && t.num !in scratch.added {
          forall k | 0 <= k < |nt| ensures nt[k].num != t.num {
            assert nt[k] in nt;
            var j :| 0 <= j < i && baseTables[j] == nt[k];
          }
          nt := nt + [t];
        }
      }
      assert baseTables[..|baseTables|] == baseTables;
    }

    /** The added tables behind them, in whatever order the map yields them. */
    static method AddNew(scratch: Scratch, kept: seq<FileRec>) returns (nt: seq<FileRec>)
      requires forall n :: n in scratch.added ==> scratch.added[n].num == n
      requires forall t :: t in kept ==> t.num !in scratch.added
      requires forall j, k :: 0 <= j < k < |kept| ==> kept[j].num != kept[k].num
      ensures forall t :: t in nt <==> t in kept || (t.num in scratch.added && scratch.added[t.num] == t)
      ensures forall j, k :: 0 <= j < k < |nt| ==> nt[j].num != nt[k].num
    {
      nt := kept;
      var todo := scratch.added.Keys;
      while todo != {}
        invariant todo <= scratch.added.Keys
        invariant forall t :: t in nt <==> t in kept || (t.num in scratch.added && t.num !in todo && scratch.added[t.num] == t)
        invariant forall j, k :: 0 <= j < k < |nt| ==> nt[j].num != nt[k].num
        decreases todo
      {
        var n :| n in todo;
        var r := scratch.added[n];
        forall k | 0 <= k < |nt| ensures nt[k].num != r.num {
          assert nt[k] in nt;
        }
        nt := nt + [r];
        todo := todo - {n};
      }
    }

    /** `finish`: the new version. */
    method Finish(icmp: Cmp) returns (nv: Levels)
      requires Valid() && TotalOrder(icmp) && BaseOk(icmp, base)
      ensures IsVersion(icmp, nv, PendingLevels(base, levels))
      ensures InLevelOrder(icmp, nv)
    {
      hide TotalOrder, Lists, InLevelOrder;
      var numLevel := |levels|;
      if |base| > numLevel {
        numLevel := |base|;
      }
      nv := [];
      for level := 0 to numLevel
        invariant |nv| == level && forall l: nat :: l < level ==> Lists(icmp, l, Tables(l), nv[l])
      {
        var nt := LevelOf(base, level);
        assert Lists(icmp, level, BaseOf(base, level), LevelOf(base, level));
        if level < |levels| {
          nt := FinishLevel(icmp, level);
        }
        nv := nv + [nt];
      }
      ghost var m := PendingLevels(base, levels);
      assert forall l: nat {:trigger LevelOf(nv, l)} :: l < |nv| ==> Lists(icmp, l, m(l), LevelOf(nv, l));
      forall l: nat | l >= |nv| ensures Lists(icmp, l, m(l), LevelOf(nv, l)) {
        assert Lists(icmp, l, BaseOf(base, l), LevelOf(base, l));
      }
      while |nv| > 0 && nv[|nv| - 1] == []
        invariant forall l: nat :: Lists(icmp, l, m(l), LevelOf(nv, l))
        decreases |nv|
      {
        assert forall l: nat :: LevelOf(nv[..|nv| - 1], l) == LevelOf(nv, l);
        nv := nv[..|nv| - 1];
      }
      VersionInOrder(icmp, nv, PendingLevels(base, levels));
    }
  }

  function PendingLevels(base: Levels, levels: seq<Scratch>): nat -> Tables {
    l => Pending(base, levels, l)
  }

  /** A version a staging may start from. */
  ghost predicate BaseOk(icmp: Cmp, base: Levels) {
    forall l :: Lists(icmp, l, BaseOf(base, l), LevelOf(base, l))
  }

  lemma DistinctNums(icmp: Cmp, level: nat, m: Tables, tf: seq<FileRec>)
    requires TotalOrder(icmp) && Lists(icmp, level, m, tf)
    ensures forall i, j :: 0 <= i < j < |tf| ==> tf[i].num != tf[j].num
  {
    forall i, j | 0 <= i < j < |tf| ensures tf[i].num != tf[j].num {
      assert tf[i] in tf && tf[j] in tf;
      BeforeStrict(icmp, level, tf[i], tf[j], tf[i]);
    }
  }

  /** A listed level read back as a map. */
  lemma {:induction false} ByNumLists(icmp: Cmp, level: nat, m: Tables, tf: seq<FileRec>)
    requires TotalOrder(icmp) && Keyed(m) && Lists(icmp, level, m, tf)
    ensures ByNum(tf) == m
  {
    hide TotalOrder, Before;
    DistinctNums(icmp, level, m, tf);
    ByNumMembers(tf);
    forall n ensures n in ByNum(tf) <==> n in m ensures n in m && n in ByNum(tf) ==> ByNum(tf)[n] == m[n] {
      if n in m { assert m[n] in tf; }
      if n in ByNum(tf) { assert ByNum(tf)[n] in tf; }
    }
  }

  lemma {:induction false} ByNumMembers(tf: seq<FileRec>)
    requires forall i, j :: 0 <= i < j < |tf| ==> tf[i].num != tf[j].num
    ensures forall t :: t in tf <==> t.num in ByNum(tf) && ByNum(tf)[t.num] == t
    ensures Keyed(ByNum(tf))
  {
    if tf != [] {
      var init, last := tf[..|tf| - 1], tf[|tf| - 1];
      ByNumMembers(init);
      assert forall t :: t in tf <==> t in init || t == last;
      forall t | t in init ensures t.num != last.num {
        var i :| 0 <= i < |init| && init[i] == t;
        assert tf[i] == t;
      }
    }
  }

  // ----- versions along a run, and replay

  function EditedLevels(base: Levels, r: Rec): nat -> Tables {
    l => EditTables(BaseOf(base, l), l, r)
  }

  function ReplayedLevels(rs: seq<Rec>): nat -> Tables {
    l => Replayed(rs, l)
  }

  /** `version.spawn`: the version after one record. */
  method Spawn(icmp: Cmp, base: Levels, r: Rec) returns (nv: Levels)
    requires TotalOrder(icmp) && BaseOk(icmp, base)
    ensures IsVersion(icmp, nv, EditedLevels(base, r)) && InLevelOrder(icmp, nv)
  {
    hide TotalOrder, Lists, Pending, InLevelOrder;
    var staging := new VersionStaging(base);
    staging.Commit(r);
    nv := staging.Finish(icmp);
    SameLevels(icmp, nv, PendingLevels(base, staging.levels), EditedLevels(base, r));
  }

  lemma SameLevels(icmp: Cmp, nv: Levels, m: nat -> Tables, m': nat -> Tables)
    requires IsVersion(icmp, nv, m) && forall l :: m(l) == m'(l)
    ensures IsVersion(icmp, nv, m')
  {
    forall l: nat ensures Lists(icmp, l, m'(l), LevelOf(nv, l)) {
      assert Lists(icmp, l, m(l), LevelOf(nv, l));
    }
  }

  lemma {:induction false} EditKeyed(m: Tables, level: nat, r: Rec)
    requires Keyed(m)
    ensures Keyed(EditTables(m, level, r))
  {
    DropKeyed(m, level, r.deletedTables);
    AddKeyed(DropTables(m, level, r.deletedTables), level, r.addedTables);
  }

  lemma {:induction false} DropKeyed(m: Tables, level: nat, ds: seq<DtRecord>)
    requires Keyed(m)
    ensures Keyed(DropTables(m, level, ds))
  {
    if ds != [] { DropKeyed(m, level, ds[..|ds| - 1]); }
  }

  lemma {:induction false} AddKeyed(m: Tables, level: nat, ats: seq<AtRecord>)
    requires Keyed(m)
    ensures Keyed(AddTables(m, level, ats))
  {
    if ats != [] { AddKeyed(m, level, ats[..|ats| - 1]); }
  }

  lemma {:induction false} ReplayedKeyed(rs: seq<Rec>, level: nat)
    ensures Keyed(Replayed(rs, level))
  {
    if rs != [] {
      ReplayedKeyed(rs[..|rs| - 1], level);
      EditKeyed(Replayed(rs[..|rs| - 1], level), level, rs[|rs| - 1]);
    }
  }

  /** A version that stands for a list of records may be spawned from, and gives them back as maps. */
  lemma ReplayedBase(icmp: Cmp, levels: Levels, rs: seq<Rec>)
    requires TotalOrder(icmp) && IsVersion(icmp, levels, ReplayedLevels(rs))
    ensures BaseOk(icmp, levels) && forall l :: BaseOf(levels, l) == Replayed(rs, l)
  {
    hide TotalOrder, Lists, Replayed;
    forall l: nat ensures BaseOf(levels, l) == Replayed(rs, l) ensures Lists(icmp, l, BaseOf(levels, l), LevelOf(levels, l)) {
      assert Lists(icmp, l, ReplayedLevels(rs)(l), LevelOf(levels, l));
      ReplayedKeyed(rs, l);
      ByNumLists(icmp, l, Replayed(rs, l), LevelOf(levels, l));
    }
  }

  /** Spawning one more record is replaying one more. */
  lemma SpawnTracksReplay(icmp: Cmp, base: Levels, rs: seq<Rec>, r: Rec, nv: Levels)
    requires TotalOrder(icmp) && IsVersion(icmp, base, ReplayedLevels(rs)) && IsVersion(icmp, nv, EditedLevels(base, r))
    ensures IsVersion(icmp, nv, ReplayedLevels(rs + [r]))
  {
    ReplayedBase(icmp, base, rs);
    hide TotalOrder, Lists;
    assert (rs + [r])[..|rs|] == rs;
    SameLevels(icmp, nv, EditedLevels(base, r), ReplayedLevels(rs + [r]));
  }

  /** The successive current versions of a session that started empty and committed `rs` one by one. */
  ghost predicate Spawned(icmp: Cmp, vs: seq<Levels>, rs: seq<Rec>) {
    |vs| == |rs| + 1 && vs[0] == [] && forall i :: 0 <= i < |rs| ==> IsVersion(icmp, vs[i + 1], EditedLevels(vs[i], rs[i]))
  }

  lemma {:induction false} SpawnedIsReplayed(icmp: Cmp, vs: seq<Levels>, rs: seq<Rec>, n: nat)
    requires TotalOrder(icmp) && Spawned(icmp, vs, rs) && n <= |rs|
    ensures IsVersion(icmp, vs[n], ReplayedLevels(rs[..n]))
  {
    hide TotalOrder, Spawned, IsVersion, EditedLevels, ReplayedLevels;
    SpawnedAt(icmp, vs, rs, n);
    if n > 0 {
      SpawnedIsReplayed(icmp, vs, rs, n - 1);
      assert rs[..n] == rs[..n - 1] + [rs[n - 1]];
      SpawnTracksReplay(icmp, vs[n - 1], rs[..n - 1], rs[n - 1], vs[n]);
    }
  }

  /** The first of these versions is empty, each other the one before with a record's edits. */
  lemma SpawnedAt(icmp: Cmp, vs: seq<Levels>, rs: seq<Rec>, n: nat)
    requires Spawned(icmp, vs, rs) && n <= |rs|
    ensures |vs| == |rs| + 1
    ensures if n == 0 then IsVersion(icmp, vs[n], ReplayedLevels(rs[..n])) else IsVersion(icmp, vs[n], EditedLevels(vs[n - 1], rs[n - 1]))
  {
    hide EditedLevels;
    if n > 0 {
      assert IsVersion(icmp, vs[n - 1 + 1], EditedLevels(vs[n - 1], rs[n - 1]));
    }
  }

  // ----- `session.recover`

  datatype RecoverResult =
    | Recovered(levels: Levels, nextFileNum: nat, journalNum: nat, seqNum: nat, ptrs: map<nat, Bytes>)
    | ManifestCorrupted

  /** The single-valued fields after all records: `rec` is reused, only its lists are reset. */
  function Carried(rs: seq<Rec>): Rec {
    if rs == [] then EMPTY else Over(Carried(rs[..|rs| - 1]), rs[|rs| - 1]).(compPtrs := [], addedTables := [], deletedTables := [])
  }

  /** `setCompPtr` for each pointer of a record: where compactions of a level continue. */
  function SetPtrs(m: map<nat, Bytes>, cs: seq<CpRecord>): map<nat, Bytes> {
    if cs == [] then m else SetPtrs(m, cs[..|cs| - 1])[cs[|cs| - 1].level := cs[|cs| - 1].ikey]
  }

  /** The pointers a session has after committing these records, each commit setting those of its record. */
  function Pointers(rs: seq<Rec>): map<nat, Bytes> {
    if rs == [] then map[] else SetPtrs(Pointers(rs[..|rs| - 1]), rs[|rs| - 1].compPtrs)
  }

  /** The last of a record's pointers for a level is the one that is set, */
  lemma {:induction false} LastPtrIsSet(m: map<nat, Bytes>, cs: seq<CpRecord>, level: nat, j: nat)
    requires j < |cs| && cs[j].level == level && forall k :: j < k < |cs| ==> cs[k].level != level
    ensures level in SetPtrs(m, cs) && SetPtrs(m, cs)[level] == cs[j].ikey
  {
    var n := |cs| - 1;
    if j < n {
      LastPtrIsSet(m, cs[..n], level, j);
    }
  }

  /** and without one the level's stays as it was. */
  lemma {:induction false} OtherPtrsStay(m: map<nat, Bytes>, cs: seq<CpRecord>, level: nat)
    requires forall k :: 0 <= k < |cs| ==> cs[k].level != level
    ensures level in SetPtrs(m, cs) <==> level in m
    ensures level in m ==> SetPtrs(m, cs)[level] == m[level]
  {
    if cs != [] {
      OtherPtrsStay(m, cs[..|cs| - 1], level);
    }
  }

  ghost predicate HasPtr(r: Rec, level: nat) {
    exists j :: 0 <= j < |r.compPtrs| && r.compPtrs[j].level == level
  }

  /** After some records a level has the pointer that the last record with one for it set last, */
  lemma {:induction false} PointersAre(rs: seq<Rec>, level: nat, i: nat, j: nat)
    requires i < |rs| && (forall k :: i < k < |rs| ==> !HasPtr(rs[k], level)) && LastFor(rs[i].compPtrs, level, j)
    ensures level in Pointers(rs) && Pointers(rs)[level] == rs[i].compPtrs[j].ikey
  {
    hide SetPtrs, HasPtr, LastFor;
    var n := |rs| - 1;
    NextPtr(Pointers(rs[..n]), rs[n], level);
    if i < n {
      PointersAre(rs[..n], level, i, j);
    }
  }

  /** and none if no record has one. */
  lemma {:induction false} NoPointers(rs: seq<Rec>, level: nat)
    ensures level in Pointers(rs) <==> exists i :: 0 <= i < |rs| && HasPtr(rs[i], level)
  {
    hide SetPtrs, HasPtr;
    if rs != [] {
      var n := |rs| - 1;
      NextPtr(Pointers(rs[..n]), rs[n], level);
      NoPointers(rs[..n], level);
      assert forall i :: 0 <= i < n ==> rs[..n][i] == rs[i];
    }
  }

  /** Pointer `j` is the last one for the level. */
  ghost predicate LastFor(cs: seq<CpRecord>, level: nat, j: nat) {
    j < |cs| && cs[j].level == level && forall k :: j < k < |cs| ==> cs[k].level != level
  }

  /** What one more record does to a level's pointer. */
  lemma NextPtr(m: map<nat, Bytes>, r: Rec, level: nat)
    ensures level in SetPtrs(m, r.compPtrs) <==> HasPtr(r, level) || level in m
    ensures forall j: nat :: LastFor(r.compPtrs, level, j) ==> level in SetPtrs(m, r.compPtrs) && SetPtrs(m, r.compPtrs)[level] == r.compPtrs[j].ikey
    ensures !HasPtr(r, level) && level in m ==> SetPtrs(m, r.compPtrs)[level] == m[level]
  {
    var cs := r.compPtrs;
    hide SetPtrs;
    if HasPtr(r, level) {
      var j := LastPtr(cs, level, |cs|);
      LastPtrIsSet(m, cs, level, j);
      forall i: nat | LastFor(cs, level, i) ensures i == j {
      }
    } else {
      OtherPtrsStay(m, cs, level);
    }
  }

  lemma {:induction false} LastPtr(cs: seq<CpRecord>, level: nat, n: nat) returns (j: nat)
    requires n <= |cs| && exists k :: 0 <= k < n && cs[k].level == level
    ensures j < n && cs[j].level == level && forall k :: j < k < n ==> cs[k].level != level
  {
    j := n - 1;
    if cs[j].level != level {
      j := LastPtr(cs, level, n - 1);
    }
  }

  method SavePtrs(m: map<nat, Bytes>, cs: seq<CpRecord>) returns (ptrs: map<nat, Bytes>)
    ensures ptrs == SetPtrs(m, cs)
  {
    ptrs := m;
    for i := 0 to |cs|
      invariant ptrs == SetPtrs(m, cs[..i])
    {
      assert cs[..i + 1][..i] == cs[..i];
      ptrs := ptrs[cs[i].level := cs[i].ikey];
    }
    assert cs[..|cs|] == cs;
  }

  /** Replaying the encoded records of `vs` returns its last version, in the same order, and the compaction pointers the
      session had, unless a needed field was never written or the comparer's name differs. */
  method Recover(icmp: Cmp, uname: Bytes, manifest: seq<Bytes>, ghost rs: seq<Rec>, ghost vs: seq<Levels>) returns (r: RecoverResult)
    requires TotalOrder(icmp) && Spawned(icmp, vs, rs)
    requires |manifest| == |rs| && forall i :: 0 <= i < |rs| ==> WfRec(rs[i]) && manifest[i] == Encode(rs[i])
    ensures r.Recovered? <==> var c := Carried(rs); c.comparer == Some(uname) && c.nextFileNum.Some? && c.journalNum.Some? && c.seqNum.Some?
    ensures r.Recovered? ==> r.levels == vs[|rs|] && InLevelOrder(icmp, r.levels)
                             && Carried(rs).nextFileNum == Some(r.nextFileNum) && Carried(rs).journalNum == Some(r.journalNum) && Carried(rs).seqNum == Some(r.seqNum)
                             && r.ptrs == Pointers(rs)
  {
    hide TotalOrder, Encode, DecodeInto, WfRec, Spawned, Pending, Lists, Replayed, EditTables, SetPtrs, InLevelOrder;
    var rec := EMPTY;
    var ptrs := map[];
    var staging := new VersionStaging([]);
    EmptyReplayed(rs);
    for i := 0 to |manifest|
      invariant staging.Valid() && fresh(staging) && staging.base == [] && rec == Carried(rs[..i])
      invariant forall l :: staging.Tables(l) == Replayed(rs[..i], l)
      invariant ptrs == Pointers(rs[..i])
    {
      ghost var before := rec;
      var decoded := Decode(manifest[i], rec);
      DecodeEncode(rs[i], rec);
      rec := decoded.value;
      ptrs := SavePtrs(ptrs, rec.compPtrs);
      staging.Commit(rec);
      NextReplayed(before, rs, i);
      rec := rec.(compPtrs := [], addedTables := [], deletedTables := []);
    }
    assert rs[..|rs|] == rs;
    if rec.comparer != Some(uname) || rec.nextFileNum.None? || rec.journalNum.None? || rec.seqNum.None? {
      return ManifestCorrupted;
    }
    EmptyBase(icmp);
    var nv := staging.Finish(icmp);
    SameLevels(icmp, nv, PendingLevels([], staging.levels), ReplayedLevels(rs));
    SpawnedIsReplayed(icmp, vs, rs, |rs|);
    LastVersion(icmp, vs, rs);
    VersionUnique(icmp, nv, vs[|rs|], ReplayedLevels(rs));
    return Recovered(nv, rec.nextFileNum.value, rec.journalNum.value, rec.seqNum.value, ptrs);
  }

  lemma LastVersion(icmp: Cmp, vs: seq<Levels>, rs: seq<Rec>)
    requires Spawned(icmp, vs, rs)
    ensures |vs| == |rs| + 1
  {
  }

  lemma EmptyBase(icmp: Cmp)
    ensures BaseOk(icmp, [])
  {
  }

  lemma EmptyReplayed(rs: seq<Rec>)
    ensures rs[..0] == [] && Carried(rs[..0]) == EMPTY && forall l :: Replayed(rs[..0], l) == map[] == BaseOf([], l)
  {
  }

  lemma NextReplayed(before: Rec, rs: seq<Rec>, i: nat)
    requires i < |rs| && before == Carried(rs[..i])
    ensures Carried(rs[..i + 1]) == Over(before, rs[i]).(compPtrs := [], addedTables := [], deletedTables := [])
    ensures forall l :: Replayed(rs[..i + 1], l) == EditTables(Replayed(rs[..i], l), l, Over(before, rs[i]))
    ensures Pointers(rs[..i + 1]) == SetPtrs(Pointers(rs[..i]), Over(before, rs[i]).compPtrs)
  {
    assert rs[..i + 1][..i] == rs[..i];
    assert before.compPtrs == [];
    var r := Over(before, rs[i]);
    assert before.addedTables == [] && before.deletedTables == [];
    assert r.addedTables == rs[i].addedTables && r.deletedTables == rs[i].deletedTables && r.compPtrs == rs[i].compPtrs;
  }
}
