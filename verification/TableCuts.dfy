/** Where a compaction cuts its output, said without the counters it keeps: at a new user key, when the open table is
    full or the grandparents passed since the last stop weigh too much. */
module TableCuts {
  import opened Keys
  import opened Tables
  import opened Levels
  import opened CompactionSpec
  import opened Compaction

  /** Sizes add up. */
  lemma {:induction false} SizesAdd(a: seq<Table>, b: seq<Table>)
    ensures TotalSize(a + b) == TotalSize(a) + TotalSize(b)
    ensures forall t :: TotalSize([t]) == t.size
  {
    if b == [] {
      assert a + b == a;
    } else {
      SizesAdd(a, b[..|b| - 1]);
      assert (a + b)[..|a + b| - 1] == a + b[..|b| - 1];
    }
  }

  lemma NoSize()
    ensures TotalSize([]) == 0
  {
  }

  lemma OneSize(gp: seq<Table>, a: nat, b: nat)
    requires a < b <= |gp|
    ensures TotalSize(gp[a..b]) == gp[a].size + TotalSize(gp[a + 1..b])
  {
    assert gp[a..b] == [gp[a]] + gp[a + 1..b];
    SizesAdd([gp[a]], gp[a + 1..b]);
  }

  /** The tables wholly before `e` at the front of the list are `p`. */
  ghost predicate IsPassed(gp: seq<Table>, e: Entry, p: nat) {
    p <= |gp| && (forall j :: 0 <= j < p ==> Less(gp[j].imax, e)) && (p < |gp| ==> !Less(gp[p].imax, e))
  }

  lemma PassedUnique(gp: seq<Table>, e: Entry, p: nat, q: nat)
    requires IsPassed(gp, e, p) && IsPassed(gp, e, q)
    ensures p == q
  {
  }

  lemma PassedGrows(gp: seq<Table>, d: Entry, e: Entry, p: nat, q: nat)
    requires IsPassed(gp, d, p) && IsPassed(gp, e, q) && AtMost(d, e)
    ensures p <= q
  {
  }

  lemma {:induction false} PassedExists(gp: seq<Table>, e: Entry, k: nat) returns (p: nat)
    requires k <= |gp| && forall j :: 0 <= j < k ==> Less(gp[j].imax, e)
    ensures IsPassed(gp, e, p)
    decreases |gp| - k
  {
    p := k;
    if k < |gp| && Less(gp[k].imax, e) {
      p := PassedExists(gp, e, k + 1);
    }
  }

  /** The last stop before entry `i`, or the first entry. */
  ghost predicate LastStop(stops: seq<bool>, s: nat, i: nat) {
    s <= i < |stops| && (s < i || i == 0) && (s == 0 || stops[s]) && forall m :: s < m < i ==> !stops[m]
  }

  /** Before which entries to stop: where the grandparents that were passed since the last stop, not counting those
      before the first key, are together larger than the limit. */
  ghost predicate StopPlaces(gp: seq<Table>, maxGP: int, es: seq<Entry>, stops: seq<bool>) {
    |stops| == |es|
    && forall s: nat, i: nat, p: nat, q: nat ::
         LastStop(stops, s, i) && IsPassed(gp, es[s], p) && IsPassed(gp, es[i], q) && p <= q ==>
           (stops[i] <==> TotalSize(gp[p..q]) > maxGP)
  }

  lemma {:induction false} LastStopExists(stops: seq<bool>, i: nat) returns (s: nat)
    requires i < |stops|
    ensures LastStop(stops, s, i)
  {
    if i <= 1 {
      s := 0;
    } else if stops[i - 1] {
      s := i - 1;
    } else {
      s := LastStopExists(stops, i - 1);
    }
  }

  // ----- the counters

  /** What skipping passes and counts. */
  lemma {:induction false} SkipIs(gp: seq<Table>, st: GpState, e: Entry)
    requires st.gpi <= |gp| && forall j :: 0 <= j < st.gpi ==> Less(gp[j].imax, e)
    ensures var r := SkipGp(gp, st, e);
            && st.gpi <= r.gpi && IsPassed(gp, e, r.gpi) && r.seen == st.seen
            && r.bytes == st.bytes + if st.seen then TotalSize(gp[st.gpi..r.gpi]) else 0
    decreases |gp| - st.gpi
  {
    if st.gpi < |gp| && !AtMost(e, gp[st.gpi].imax) {
      var st' := GpState(st.gpi + 1, st.seen, st.bytes + if st.seen then gp[st.gpi].size else 0);
      SkipIs(gp, st', e);
      OneSize(gp, st.gpi, SkipGp(gp, st', e).gpi);
    } else {
      NoSize();
      assert gp[st.gpi..st.gpi] == [];
    }
    hide TotalSize;
  }

  /** Whether the builder is told to stop before entry `i` of a run that never fails. */
  ghost function StopsAt(job: Job, es: seq<Entry>, i: nat): bool
    requires i < |es|
  {
    StopBefore(job.gp, job.maxGP, At(job, es, i).gps, es[i]).1
  }

  ghost function Told(job: Job, es: seq<Entry>): (stops: seq<bool>)
    ensures |stops| == |es| && forall i :: 0 <= i < |es| ==> stops[i] == StopsAt(job, es, i)
  {
    seq(|es|, i requires 0 <= i < |es| => StopsAt(job, es, i))
  }

  lemma GpsNext(job: Job, es: seq<Entry>, i: nat)
    requires i < |es|
    ensures At(job, es, i + 1).gps == StopBefore(job.gp, job.maxGP, At(job, es, i).gps, es[i]).0
    ensures At(job, es, 0).gps == GpState(0, false, 0)
  {
  }

  lemma {:induction false} PassedAt(job: Job, es: seq<Entry>, i: nat)
    requires Sorted(es) && 0 < i <= |es|
    ensures var g := At(job, es, i).gps; g.seen && IsPassed(job.gp, es[i - 1], g.gpi)
  {
    hide At, Step;
    GpsNext(job, es, i - 1);
    if i > 1 {
      PassedAt(job, es, i - 1);
      assert Less(es[i - 2], es[i - 1]);
    }
    SkipIs(job.gp, At(job, es, i - 1).gps, es[i - 1]);
  }

  /** The counter holds what was passed since the last stop. */
  lemma {:induction false} CountedAt(job: Job, es: seq<Entry>, i: nat, s: nat, p: nat)
    requires Sorted(es) && s < i <= |es| && IsPassed(job.gp, es[s], p)
    requires (s == 0 || StopsAt(job, es, s)) && forall m :: s < m < i ==> !StopsAt(job, es, m)
    ensures var g := At(job, es, i).gps; p <= g.gpi <= |job.gp| && g.bytes == TotalSize(job.gp[p..g.gpi])
  {
    hide At, Step, IsPassed, Sorted;
    PassedAt(job, es, i);
    GpsNext(job, es, i - 1);
    if i - 1 == s {
      CountedFirst(job, es, s, p);
    } else {
      CountedAt(job, es, i - 1, s, p);
      CountedNext(job, es, i - 1, p);
    }
  }

  lemma CountedFirst(job: Job, es: seq<Entry>, s: nat, p: nat)
    requires Sorted(es) && s < |es| && IsPassed(job.gp, es[s], p) && (s == 0 || StopsAt(job, es, s))
    ensures var g := At(job, es, s + 1).gps; p == g.gpi <= |job.gp| && g.bytes == 0 == TotalSize(job.gp[p..g.gpi])
  {
    hide At, Step;
    PassedAt(job, es, s + 1);
    GpsNext(job, es, s);
    PassedUnique(job.gp, es[s], p, At(job, es, s + 1).gps.gpi);
    if s == 0 {
      SkipIs(job.gp, At(job, es, 0).gps, es[0]);
    }
  }

  lemma CountedNext(job: Job, es: seq<Entry>, i: nat, p: nat)
    requires Sorted(es) && 0 < i < |es| && !StopsAt(job, es, i)
    requires var g := At(job, es, i).gps; p <= g.gpi <= |job.gp| && g.bytes == TotalSize(job.gp[p..g.gpi])
    ensures var g := At(job, es, i + 1).gps; p <= g.gpi <= |job.gp| && g.bytes == TotalSize(job.gp[p..g.gpi])
  {
    hide At, Step, TotalSize;
    var gp, g, g' := job.gp, At(job, es, i).gps, At(job, es, i + 1).gps;
    PassedAt(job, es, i);
    GpsNext(job, es, i);
    assert Less(es[i - 1], es[i]);
    SkipIs(gp, g, es[i]);
    SizesAdd(gp[p..g.gpi], gp[g.gpi..g'.gpi]);
    assert gp[p..g.gpi] + gp[g.gpi..g'.gpi] == gp[p..g'.gpi];
  }

  /** The builder is told to stop exactly where the rule says. */
  lemma StopDecision(job: Job, es: seq<Entry>, i: nat, s: nat, p: nat, q: nat)
    requires Sorted(es) && s <= i < |es| && (s < i || i == 0) && (s == 0 || StopsAt(job, es, s))
    requires forall m :: s < m < i ==> !StopsAt(job, es, m)
    requires IsPassed(job.gp, es[s], p) && IsPassed(job.gp, es[i], q) && p <= q
    ensures q <= |job.gp| && (StopsAt(job, es, i) <==> TotalSize(job.gp[p..q]) > job.maxGP)
  {
    hide At, Step, TotalSize;
    var gp, g := job.gp, At(job, es, i).gps;
    GpsNext(job, es, i);
    if i > 0 {
      CountedAt(job, es, i, s, p);
      PassedAt(job, es, i);
      assert Less(es[i - 1], es[i]);
    } else {
      NoSize();
      PassedUnique(gp, es[0], p, q);
      assert gp[p..q] == [];
    }
    SkipIs(gp, g, es[i]);
    PassedUnique(gp, es[i], q, SkipGp(gp, g, es[i]).gpi);
    if i > 0 {
      SizesAdd(gp[p..g.gpi], gp[g.gpi..q]);
      assert gp[p..g.gpi] + gp[g.gpi..q] == gp[p..q];
    }
  }

  /** So there is a list of stops that follows the rule, the one the builder is told. */
  lemma StopsFollowRule(job: Job, es: seq<Entry>)
    requires Sorted(es)
    ensures StopPlaces(job.gp, job.maxGP, es, Told(job, es))
  {
    hide StopsAt, IsPassed, TotalSize, Sorted, Told;
    var stops := Told(job, es);
    forall s: nat, i: nat, p: nat, q: nat |
      LastStop(stops, s, i) && IsPassed(job.gp, es[s], p) && IsPassed(job.gp, es[i], q) && p <= q
      ensures q <= |job.gp| && (stops[i] <==> TotalSize(job.gp[p..q]) > job.maxGP)
    {
      StopDecision(job, es, i, s, p, q);
    }
  }

  /** What the rule says of entry `i`. */
  lemma RuleAt(gp: seq<Table>, maxGP: int, es: seq<Entry>, stops: seq<bool>, i: nat, s: nat) returns (p: nat, q: nat)
    requires Sorted(es) && StopPlaces(gp, maxGP, es, stops) && LastStop(stops, s, i)
    ensures i < |es| == |stops| && IsPassed(gp, es[s], p) && IsPassed(gp, es[i], q)
    ensures p <= q <= |gp| && (stops[i] <==> TotalSize(gp[p..q]) > maxGP)
  {
    p := PassedExists(gp, es[s], 0);
    q := PassedExists(gp, es[i], 0);
    assert s == i || Less(es[s], es[i]);
    PassedGrows(gp, es[s], es[i], p, q);
  }

  lemma AsMany(gp: seq<Table>, maxGP: int, es: seq<Entry>, stops: seq<bool>)
    requires StopPlaces(gp, maxGP, es, stops)
    ensures |stops| == |es|
  {
  }

  lemma SameLast(stops: seq<bool>, stops': seq<bool>, s: nat, i: nat)
    requires LastStop(stops, s, i) && |stops'| == |stops| && stops[..i] == stops'[..i]
    ensures LastStop(stops', s, i)
  {
    assert forall m :: 0 <= m < i ==> stops[m] == stops[..i][m] == stops'[m];
  }

  /** And there is only one. */
  lemma {:induction false} StopsUnique(gp: seq<Table>, maxGP: int, es: seq<Entry>, stops: seq<bool>, stops': seq<bool>, n: nat)
    requires Sorted(es) && StopPlaces(gp, maxGP, es, stops) && StopPlaces(gp, maxGP, es, stops') && n <= |es|
    ensures |stops| == |stops'| == |es| && stops[..n] == stops'[..n]
  {
    hide StopPlaces, IsPassed, TotalSize, Sorted, LastStop;
    AsMany(gp, maxGP, es, stops);
    AsMany(gp, maxGP, es, stops');
    if n > 0 {
      var i := n - 1;
      StopsUnique(gp, maxGP, es, stops, stops', i);
      var s := LastStopExists(stops, i);
      SameLast(stops, stops', s, i);
      var p, q := RuleAt(gp, maxGP, es, stops, i, s);
      var p', q' := RuleAt(gp, maxGP, es, stops', i, s);
      PassedUnique(gp, es[s], p, p');
      PassedUnique(gp, es[i], q, q');
      assert stops[..n] == stops[..i] + [stops[i]] && stops'[..n] == stops'[..i] + [stops'[i]];
    }
  }

  // ----- the cuts

  /** One entry of a run that never fails: the open table is finished in front of it exactly when the entry has a new
      user key and the table is full or this is a place to stop; and the entry joins the open table unless it is
      obsolete. */
  lemma CutRule(job: Job, es: seq<Entry>, stops: seq<bool>, i: nat)
    requires Sorted(es) && job.minSeq < KEY_MAX_SEQ && StopPlaces(job.gp, job.maxGP, es, stops) && i < |es|
    ensures At(job, es, 0).open == [] && At(job, es, 0).done == []
    ensures var b, b' := At(job, es, i), At(job, es, i + 1);
            var cut := i > 0 && es[i].ukey != es[i - 1].ukey && b.open != [] && (stops[i] || job.bytesLen(b.open) >= job.tableSize);
            && b'.done == (if cut then b.done + [b.open] else b.done)
            && b'.open == (if cut then [] else b.open) + (if Obsolete(es, i, job.minSeq, job.deeper) then [] else [es[i]])
  {
    StopsFollowRule(job, es);
    var told := Told(job, es);
    StopsUnique(job.gp, job.maxGP, es, stops, told, |es|);
    assert stops == stops[..|es|] && told == told[..|es|];
    assert stops[i] == StopsAt(job, es, i);
    hide StopPlaces, StopBefore, Obsolete, Covered, Shape, Kept, Sorted;
    AtBuilt(job, es, i);
    ObsoleteByLast(es, i, job.minSeq, job.deeper);
  }

  /** Nothing to stop for and nothing too large: at most one table comes out. */
  lemma OneTable(job: Job, es: seq<Entry>)
    requires Sorted(es) && job.minSeq < KEY_MAX_SEQ && TotalSize(job.gp) <= job.maxGP
    requires var ks := Kept(es, |es|, job.minSeq, job.deeper); forall n :: 0 <= n <= |ks| ==> job.bytesLen(ks[..n]) < job.tableSize
    ensures |Outputs(job, es)| <= 1
  {
    StopsFollowRule(job, es);
    var stops := Told(job, es);
    NoStops(job.gp, job.maxGP, es, stops);
    NoCuts(job, es, stops, |es|);
  }

  lemma NoStops(gp: seq<Table>, maxGP: int, es: seq<Entry>, stops: seq<bool>)
    requires Sorted(es) && StopPlaces(gp, maxGP, es, stops) && TotalSize(gp) <= maxGP
    ensures forall i :: 0 <= i < |stops| ==> !stops[i]
  {
    hide StopPlaces, IsPassed, Sorted, TotalSize;
    forall i: nat | i < |stops| ensures !stops[i] {
      var s := LastStopExists(stops, i);
      var p, q := RuleAt(gp, maxGP, es, stops, i, s);
      SizesAdd(gp[..p], gp[p..q]);
      SizesAdd(gp[..p] + gp[p..q], gp[q..]);
      assert gp[..p] + gp[p..q] + gp[q..] == gp;
    }
  }

  lemma {:induction false} NoCuts(job: Job, es: seq<Entry>, stops: seq<bool>, n: nat)
    requires Sorted(es) && job.minSeq < KEY_MAX_SEQ && StopPlaces(job.gp, job.maxGP, es, stops) && n <= |es|
    requires |stops| == |es| && forall i :: 0 <= i < |stops| ==> !stops[i]
    requires var ks := Kept(es, |es|, job.minSeq, job.deeper); forall m :: 0 <= m <= |ks| ==> job.bytesLen(ks[..m]) < job.tableSize
    ensures At(job, es, n).done == [] && At(job, es, n).open == Kept(es, n, job.minSeq, job.deeper)
  {
    hide Sorted, StopPlaces, At, Obsolete;
    if n > 0 {
      NoCuts(job, es, stops, n - 1);
      CutRule(job, es, stops, n - 1);
      KeptPrefix(job, es, n - 1, |es|);
      var ks, k := Kept(es, |es|, job.minSeq, job.deeper), Kept(es, n - 1, job.minSeq, job.deeper);
      assert ks[..|k|] == k;
    } else if |es| > 0 {
      CutRule(job, es, stops, 0);
    } else {
      AtNone(job, es);
    }
  }

  lemma AtNone(job: Job, es: seq<Entry>)
    ensures At(job, es, 0).open == [] && At(job, es, 0).done == []
  {
  }

  lemma {:induction false} KeptPrefix(job: Job, es: seq<Entry>, n: nat, m: nat)
    requires n <= m <= |es|
    ensures Kept(es, n, job.minSeq, job.deeper) <= Kept(es, m, job.minSeq, job.deeper)
  {
    hide Obsolete;
    if n < m {
      KeptPrefix(job, es, n, m - 1);
    }
  }
}
