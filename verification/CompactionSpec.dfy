/** What one table compaction keeps and where it cuts its output, as functions of its sorted input. */
module CompactionSpec {
  import opened Keys
  import opened Lookup
  import opened Tables
  import opened Levels

  /** Some table of the levels below the output covers the user key. */
  ghost predicate Covered(deeper: seq<seq<Table>>, k: UKey) {
    exists l, j :: 0 <= l < |deeper| && 0 <= j < |deeper[l]| && deeper[l][j].imin.ukey <= k <= deeper[l][j].imax.ukey
  }

  // ----- the declarative reading of the drop rules

  /** Entry `i` is obsolete: a newer version of its key is already at or below the
      watermark, or it is a tombstone there and nothing deeper covers its key. */
  ghost predicate Obsolete(es: seq<Entry>, i: nat, minSeq: nat, deeper: seq<seq<Table>>)
    requires i < |es|
  {
    (exists j :: 0 <= j < i && es[j].ukey == es[i].ukey && es[j].sn <= minSeq)
    || (es[i].kt.Del? && es[i].sn <= minSeq && !Covered(deeper, es[i].ukey))
  }

  /** The first `n` entries without the obsolete ones. */
  ghost function Kept(es: seq<Entry>, n: nat, minSeq: nat, deeper: seq<seq<Table>>): seq<Entry>
    requires n <= |es|
  {
    if n == 0 then []
    else Kept(es, n - 1, minSeq, deeper) + if Obsolete(es, n - 1, minSeq, deeper) then [] else [es[n - 1]]
  }

  // ----- the step-by-step reading, with the table boundaries

  /** Progress through the grandparent tables. */
  datatype GpState = GpState(gpi: nat, seen: bool, bytes: int)

  /** A compaction's fixed inputs besides its entries. */
  datatype Job = Job(deeper: seq<seq<Table>>, gp: seq<Table>, maxGP: int, minSeq: nat,
                     tableSize: int, bytesLen: seq<Entry> -> int)

  /** Builder state: last key and seq met, grandparent progress, the table being written and those finished. */
  datatype Build = Build(hasLast: bool, lastUkey: UKey, lastSeq: nat, gps: GpState,
                         open: seq<Entry>, done: seq<seq<Entry>>)

  ghost function SkipGp(gp: seq<Table>, st: GpState, e: Entry): GpState
    decreases |gp| - st.gpi
  {
    if st.gpi < |gp| && !AtMost(e, gp[st.gpi].imax)
    then SkipGp(gp, GpState(st.gpi + 1, st.seen, st.bytes + if st.seen then gp[st.gpi].size else 0), e)
    else st
  }

  ghost function StopBefore(gp: seq<Table>, maxGP: int, st: GpState, e: Entry): (GpState, bool) {
    var st1 := SkipGp(gp, st, e).(seen := true);
    if st1.bytes > maxGP then (st1.(bytes := 0), true) else (st1, false)
  }

  ghost const Start: Build := Build(false, 0, 0, GpState(0, false, 0), [], [])

  /** What happens in front of an entry. `resumed` marks the one a rerun picks up at, whose grandparent check was already
      done. */
  ghost function Before(job: Job, b: Build, e: Entry, resumed: bool): Build {
    var (g, stop) := if resumed then (b.gps, false) else StopBefore(job.gp, job.maxGP, b.gps, e);
    var isNew := !b.hasLast || b.lastUkey != e.ukey;
    var rotate := isNew && b.open != [] && (stop || job.bytesLen(b.open) >= job.tableSize);
    Build(true, e.ukey, if isNew then KEY_MAX_SEQ else b.lastSeq, g,
          if rotate then [] else b.open, if rotate then b.done + [b.open] else b.done)
  }

  /** One entry. */
  ghost function Step(job: Job, b: Build, e: Entry, resumed: bool): Build {
    var b1 := Before(job, b, e, resumed);
    var drop := b1.lastSeq <= job.minSeq
                || (e.kt.Del? && e.sn <= job.minSeq && !Covered(job.deeper, e.ukey));
    b1.(lastSeq := e.sn, open := if drop then b1.open else b1.open + [e])
  }

  /** The state after the first `n` entries of a run that never fails. */
  ghost function At(job: Job, es: seq<Entry>, n: nat): Build
    requires n <= |es|
  {
    if n == 0 then Start else Step(job, At(job, es, n - 1), es[n - 1], false)
  }

  /** The contents of the tables of a finished run. */
  ghost function Outputs(job: Job, es: seq<Entry>): seq<seq<Entry>> {
    var b := At(job, es, |es|);
    b.done + if b.open == [] then [] else [b.open]
  }

  /** The cut is legal: no empty table, and no user key in two tables. */
  ghost predicate CutAtKeys(ts: seq<seq<Entry>>) {
    (forall a :: 0 <= a < |ts| ==> ts[a] != [])
    && forall a, b, x, y :: 0 <= a < b < |ts| && x in ts[a] && y in ts[b] ==> x.ukey < y.ukey
  }

  // ----- the two readings agree

  /** In a sorted run the previous entry of the same key has the smallest seq so far. */
  lemma ObsoleteByLast(es: seq<Entry>, i: nat, minSeq: nat, deeper: seq<seq<Table>>)
    requires Sorted(es) && i < |es| && minSeq < KEY_MAX_SEQ
    ensures var lastSeq := if i == 0 || es[i - 1].ukey != es[i].ukey then KEY_MAX_SEQ else es[i - 1].sn;
            Obsolete(es, i, minSeq, deeper)
            <==> lastSeq <= minSeq || (es[i].kt.Del? && es[i].sn <= minSeq && !Covered(deeper, es[i].ukey))
  {
    if i > 0 && es[i - 1].ukey == es[i].ukey {
      forall j | 0 <= j < i && es[j].ukey == es[i].ukey && es[j].sn <= minSeq
        ensures es[i - 1].sn <= minSeq
      {
        assert j == i - 1 || Less(es[j], es[i - 1]);
      }
    } else {
      forall j | 0 <= j < i
        ensures es[j].ukey != es[i].ukey
      {
        assert Less(es[j], es[i]) && Less(es[i - 1], es[i]) && (j == i - 1 || Less(es[j], es[i - 1]));
      }
    }
  }

  /** Finished tables and the open one hold `ks` in order; only the open one may hold the key `last`. */
  ghost predicate Shape(ks: seq<Entry>, done: seq<seq<Entry>>, open: seq<Entry>, last: UKey) {
    Concat(done) + open == ks && CutAtKeys(done)
    && (forall a, x :: 0 <= a < |done| && x in done[a] ==> x.ukey < last)
    && (forall y :: y in open ==> y.ukey <= last)
    && (forall a, x, y :: 0 <= a < |done| && x in done[a] && y in open ==> x.ukey < y.ukey)
  }

  lemma ShapeRotate(ks: seq<Entry>, done: seq<seq<Entry>>, open: seq<Entry>, last: UKey, k: UKey)
    requires Shape(ks, done, open, last) && last < k && open != []
    ensures Shape(ks, done + [open], [], k)
  {
    CutSnoc(done, open);
  }

  ghost predicate AllBefore(s: seq<Entry>, t: seq<Entry>) {
    forall x, y :: x in s && y in t ==> x.ukey < y.ukey
  }

  lemma CutBefore(done: seq<seq<Entry>>, open: seq<Entry>, a: nat, b: nat)
    requires CutAtKeys(done) && a < b <= |done|
    requires forall c :: 0 <= c < |done| ==> AllBefore(done[c], open)
    ensures AllBefore(done[a], if b < |done| then done[b] else open)
  {
  }

  lemma CutSnoc(done: seq<seq<Entry>>, open: seq<Entry>)
    requires CutAtKeys(done) && open != []
    requires forall a :: 0 <= a < |done| ==> AllBefore(done[a], open)
    ensures CutAtKeys(done + [open]) && Concat(done + [open]) == Concat(done) + open
  {
    var d := done + [open];
    assert d[..|d| - 1] == done;
    assert Concat(d) == Concat(done) + open;
    hide *;
    forall a, b | 0 <= a < b < |d| ensures AllBefore(d[a], d[b]) {
      CutBefore(done, open, a, b);
    }
    NoneEmpty(done, open);
    CutFrom(d);
  }

  lemma NoneEmpty(done: seq<seq<Entry>>, open: seq<Entry>)
    requires CutAtKeys(done) && open != []
    ensures forall a :: 0 <= a <= |done| ==> (done + [open])[a] != []
  {
  }

  lemma CutFrom(d: seq<seq<Entry>>)
    requires forall a :: 0 <= a < |d| ==> d[a] != []
    requires forall a, b :: 0 <= a < b < |d| ==> AllBefore(d[a], d[b])
    ensures CutAtKeys(d)
  {
  }

  lemma ShapeAppend(ks: seq<Entry>, done: seq<seq<Entry>>, open: seq<Entry>, e: Entry)
    requires Shape(ks, done, open, e.ukey)
    ensures Shape(ks + [e], done, open + [e], e.ukey)
  {
    assert Concat(done) + (open + [e]) == (Concat(done) + open) + [e];
  }

  /** What holds of the builder state after `n` entries. */
  ghost predicate Built(job: Job, es: seq<Entry>, n: nat, b: Build)
    requires n <= |es|
  {
    if n == 0 then b == Start
    else b.hasLast && b.lastUkey == es[n - 1].ukey && b.lastSeq == es[n - 1].sn
         && Shape(Kept(es, n, job.minSeq, job.deeper), b.done, b.open, b.lastUkey)
  }

  lemma {:induction false} AtBuilt(job: Job, es: seq<Entry>, n: nat)
    requires Sorted(es) && n <= |es| && job.minSeq < KEY_MAX_SEQ
    ensures Built(job, es, n, At(job, es, n))
  {
    hide Step, Shape, Kept;
    if n > 0 {
      AtBuilt(job, es, n - 1);
      assert n > 1 ==> Less(es[n - 2], es[n - 1]);
      StepBuilt(job, es, n - 1, At(job, es, n - 1));
    }
  }

  lemma StepBuilt(job: Job, es: seq<Entry>, n: nat, b: Build)
    requires Sorted(es) && job.minSeq < KEY_MAX_SEQ && n < |es| && Built(job, es, n, b)
    requires n > 0 ==> es[n - 1].ukey <= es[n].ukey
    ensures Built(job, es, n + 1, Step(job, b, es[n], false))
  {
    hide Sorted, Covered, Shape, StopBefore;
    var e, ks := es[n], Kept(es, n, job.minSeq, job.deeper);
    ObsoleteByLast(es, n, job.minSeq, job.deeper);
    assert ks + [] == ks && [] + [e] == [e];
    if n == 0 {
      ShapeEmpty(e.ukey);
      ShapeAppend([], [], [], e);
    } else if b.lastUkey != e.ukey {
      ShapeLater(ks, b.done, b.open, b.lastUkey, e.ukey);
      ShapeAppend(ks, b.done, b.open, e);
      if b.open != [] {
        ShapeRotate(ks, b.done, b.open, b.lastUkey, e.ukey);
        ShapeAppend(ks, b.done + [b.open], [], e);
      }
    } else {
      ShapeAppend(ks, b.done, b.open, e);
    }
  }

  lemma ShapeEmpty(k: UKey)
    ensures Shape([], [], [], k)
  {
  }

  lemma ShapeLater(ks: seq<Entry>, done: seq<seq<Entry>>, open: seq<Entry>, last: UKey, k: UKey)
    requires Shape(ks, done, open, last) && last <= k
    ensures Shape(ks, done, open, k)
  {
  }

  /** A run with no failure outputs exactly the entries that are not obsolete, cut only where the user key changes. */
  lemma OutputsAreKept(job: Job, es: seq<Entry>)
    requires Sorted(es) && job.minSeq < KEY_MAX_SEQ
    ensures Concat(Outputs(job, es)) == Kept(es, |es|, job.minSeq, job.deeper)
    ensures CutAtKeys(Outputs(job, es))
  {
    hide Sorted, Covered, Step;
    AtBuilt(job, es, |es|);
    var b := At(job, es, |es|);
    if b.open != [] {
      CutSnoc(b.done, b.open);
    } else {
      assert b.done + [] == b.done && Concat(b.done) + [] == Concat(b.done);
    }
  }

  /** The bound on the watermark is exact: at the largest sequence number the marker for "first
      occurrence of this key" no longer exceeds it, and the newest entries are dropped too. */
  lemma KeptIffBelowMaxSeq(job: Job)
    ensures (forall es :: Sorted(es) ==> Concat(Outputs(job, es)) == Kept(es, |es|, job.minSeq, job.deeper))
            <==> job.minSeq < KEY_MAX_SEQ
  {
    if job.minSeq < KEY_MAX_SEQ {
      forall es | Sorted(es)
        ensures Concat(Outputs(job, es)) == Kept(es, |es|, job.minSeq, job.deeper)
      {
        OutputsAreKept(job, es);
      }
    } else {
      var e := Entry(0, job.minSeq, Val, []);
      assert At(job, [e], 1) == Step(job, At(job, [e], 0), e, false);
      assert Concat(Outputs(job, [e])) == [];
      assert Kept([e], 1, job.minSeq, job.deeper) == Kept([e], 0, job.minSeq, job.deeper) + [e];
      assert Sorted([e]);
    }
  }

  lemma {:induction false} KeptMembers(es: seq<Entry>, n: nat, minSeq: nat, deeper: seq<seq<Table>>)
    requires Sorted(es) && n <= |es|
    ensures var ks := Kept(es, n, minSeq, deeper);
            && Sorted(ks)
            && (forall e :: e in ks <==> exists i :: 0 <= i < n && es[i] == e && !Obsolete(es, i, minSeq, deeper))
  {
    if n > 0 {
      KeptMembers(es, n - 1, minSeq, deeper);
      var ks := Kept(es, n - 1, minSeq, deeper);
      forall j | 0 <= j < |ks| ensures Less(ks[j], es[n - 1]) {
        assert ks[j] in ks;
      }
    }
  }

  /** What is kept, said of one entry: everything above the watermark, and of what is at or below it for a key the newest,
      unless that is a tombstone with nothing deeper to hide. */
  lemma KeptExactly(es: seq<Entry>, minSeq: nat, deeper: seq<seq<Table>>, e: Entry)
    requires Sorted(es) && e in es
    ensures e in Kept(es, |es|, minSeq, deeper) <==>
            e.sn > minSeq
            || ((forall x :: x in es && x.ukey == e.ukey && Less(x, e) ==> x.sn > minSeq) && (e.kt.Val? || Covered(deeper, e.ukey)))
  {
    hide Covered;
    KeptMembers(es, |es|, minSeq, deeper);
    var i :| 0 <= i < |es| && es[i] == e;
    hide Kept;
    forall j | 0 <= j < |es| ensures (es[j] == e <==> j == i) && (Less(es[j], e) <==> j < i) && es[j] in es {
      PlacesOrdered(es, j, i);
    }
    assert e in Kept(es, |es|, minSeq, deeper) <==> !Obsolete(es, i, minSeq, deeper);
  }

  /** In a sorted run the order of the entries is that of their places. */
  lemma PlacesOrdered(es: seq<Entry>, i: nat, j: nat)
    requires Sorted(es) && i < |es| && j < |es|
    ensures (Less(es[i], es[j]) <==> i < j) && (es[i] == es[j] <==> i == j)
  {
  }

  /** So a key is left with one entry at or below the watermark at most. */
  lemma OneAtWatermark(es: seq<Entry>, minSeq: nat, deeper: seq<seq<Table>>, a: Entry, b: Entry)
    requires Sorted(es) && a.ukey == b.ukey && a.sn <= minSeq && b.sn <= minSeq
    requires a in Kept(es, |es|, minSeq, deeper) && b in Kept(es, |es|, minSeq, deeper)
    ensures a == b
  {
    hide Covered, Obsolete, Kept;
    KeptMembers(es, |es|, minSeq, deeper);
    KeptExactly(es, minSeq, deeper, a);
    KeptExactly(es, minSeq, deeper, b);
    var i :| 0 <= i < |es| && es[i] == a;
    var j :| 0 <= j < |es| && es[j] == b;
    PlacesOrdered(es, i, j);
    PlacesOrdered(es, j, i);
  }
}
