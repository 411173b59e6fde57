/** Merging sorted runs that may share entries: where a cut through all runs stands in their union. */
module MergedRuns {
  import opened Keys
  import opened Lookup

  /** Sorted, with equal neighbours allowed. */
  ghost predicate Weak(es: seq<Entry>) {
    forall i, j :: 0 <= i < j < |es| ==> AtMost(es[i], es[j])
  }

  /** Entries with equal internal keys are the same entry. */
  ghost predicate KeysAgree(es: seq<Entry>) {
    forall i, j :: 0 <= i < |es| && 0 <= j < |es| && !Less(es[i], es[j]) && !Less(es[j], es[i]) ==> es[i] == es[j]
  }

  /** The entries of all runs, with multiplicity. */
  ghost function Bag(runs: seq<seq<Entry>>): multiset<Entry> {
    if runs == [] then multiset{} else Bag(runs[..|runs| - 1]) + multiset(runs[|runs| - 1])
  }

  /** `all` is the sorted union of the runs: an entry that several runs share is there as often. */
  ghost predicate Union(all: seq<Entry>, runs: seq<seq<Entry>>) {
    Weak(all) && KeysAgree(all) && multiset(all) == Bag(runs) && forall x :: 0 <= x < |runs| ==> Sorted(runs[x])
  }

  ghost function Sum(ps: seq<nat>): nat {
    if ps == [] then 0 else Sum(ps[..|ps| - 1]) + ps[|ps| - 1]
  }

  /** A cut through the runs: of run `x` the first `ps[x]` entries lie before it. */
  ghost predicate Cut(runs: seq<seq<Entry>>, ps: seq<nat>) {
    |ps| == |runs| && (forall x :: 0 <= x < |runs| ==> ps[x] <= |runs[x]|)
    && forall x, y, j, k :: 0 <= x < |runs| && 0 <= y < |runs| && 0 <= j < ps[x] && ps[y] <= k < |runs[y]| ==> AtMost(runs[x][j], runs[y][k])
  }

  // ----- counting

  /** Before `e`, or (`orAt`) not after it. */
  predicate Under(x: Entry, e: Entry, orAt: bool) {
    if orAt then AtMost(x, e) else Less(x, e)
  }

  ghost function Count(es: seq<Entry>, e: Entry, orAt: bool): (n: nat)
    ensures n <= |es|
  {
    if es == [] then 0 else Count(es[..|es| - 1], e, orAt) + if Under(es[|es| - 1], e, orAt) then 1 else 0
  }

  lemma {:induction false} CountConcat(a: seq<Entry>, b: seq<Entry>, e: Entry, orAt: bool)
    ensures Count(a + b, e, orAt) == Count(a, e, orAt) + Count(b, e, orAt)
  {
    hide Under;
    if b == [] {
      assert a + b == a;
    } else {
      var n := |b| - 1;
      CountConcat(a, b[..n], e, orAt);
      assert (a + b)[..|a + b| - 1] == a + b[..n] && (a + b)[|a + b| - 1] == b[n];
    }
  }

  /** Counting does not depend on the order. */
  lemma {:induction false} CountPermuted(a: seq<Entry>, b: seq<Entry>, e: Entry, orAt: bool)
    requires multiset(a) == multiset(b)
    ensures Count(a, e, orAt) == Count(b, e, orAt)
    decreases |a|
  {
    hide Under, Count;
    if a == [] {
      NoneLeft(b);
    } else {
      var n := |a| - 1;
      var j := PlaceIn(a, b);
      var b' := b[..j] + b[j + 1..];
      assert a == a[..n] + [a[n]] && b == b[..j] + ([b[j]] + b[j + 1..]);
      CountPermuted(a[..n], b', e, orAt);
      CountConcat(a[..n], [a[n]], e, orAt);
      CountConcat(b[..j], [b[j]] + b[j + 1..], e, orAt);
      CountConcat([b[j]], b[j + 1..], e, orAt);
      CountConcat(b[..j], b[j + 1..], e, orAt);
    }
  }

  lemma NoneLeft(b: seq<Entry>)
    requires multiset{} == multiset(b)
    ensures b == []
  {
    assert |multiset(b)| == |b|;
  }

  lemma PlaceIn(a: seq<Entry>, b: seq<Entry>) returns (j: nat)
    requires multiset(a) == multiset(b) && a != []
    ensures j < |b| && b[j] == a[|a| - 1] && multiset(a[..|a| - 1]) == multiset(b[..j] + b[j + 1..])
  {
    var n := |a| - 1;
    BagWithout(a, n);
    assert a[..n] + a[n + 1..] == a[..n];
    assert a[n] in multiset(b);
    j :| j < |b| && b[j] == a[n];
    BagWithout(b, j);
    SameRest(multiset(a[..n]), multiset(b[..j] + b[j + 1..]), a[n]);
  }

  lemma BagWithout(b: seq<Entry>, j: nat)
    requires j < |b|
    ensures multiset(b) == multiset(b[..j] + b[j + 1..]) + multiset{b[j]}
  {
    assert b == b[..j] + [b[j]] + b[j + 1..];
  }

  lemma SameRest(a: multiset<Entry>, b: multiset<Entry>, x: Entry)
    requires a + multiset{x} == b + multiset{x}
    ensures a == b
  {
    assert a == (a + multiset{x}) - multiset{x};
    assert b == (b + multiset{x}) - multiset{x};
  }

  /** What a bound says about one run: the entries under it are a prefix. */
  lemma {:induction false} CountOf(es: seq<Entry>, e: Entry, orAt: bool, p: nat)
    requires p <= |es| && (forall j :: 0 <= j < p ==> Under(es[j], e, orAt)) && forall j :: p <= j < |es| ==> !Under(es[j], e, orAt)
    ensures Count(es, e, orAt) == p
  {
    hide Under;
    if es != [] {
      var n := |es| - 1;
      CountOf(es[..n], e, orAt, if p <= n then p else n);
    }
  }

  lemma {:induction false} CountAtLeast(es: seq<Entry>, e: Entry, orAt: bool, p: nat)
    requires p <= |es| && forall j :: 0 <= j < p ==> Under(es[j], e, orAt)
    ensures Count(es, e, orAt) >= p
  {
    hide Under;
    if es != [] {
      var n := |es| - 1;
      CountAtLeast(es[..n], e, orAt, if p <= n then p else n);
    }
  }

  lemma {:induction false} CountAtMost(es: seq<Entry>, e: Entry, orAt: bool, p: nat)
    requires p <= |es| && forall j :: p <= j < |es| ==> !Under(es[j], e, orAt)
    ensures Count(es, e, orAt) <= p
  {
    hide Under;
    if es != [] {
      var n := |es| - 1;
      CountAtMost(es[..n], e, orAt, if p <= n then p else n);
    }
  }

  /** In the union the entries under a bound come first. */
  lemma CountWeak(all: seq<Entry>, e: Entry, i: nat)
    requires Weak(all) && i < |all|
    ensures Less(all[i], e) <==> i < Count(all, e, false)
    ensures AtMost(all[i], e) <==> i < Count(all, e, true)
  {
    CountWeakOf(all, e, i, false);
    CountWeakOf(all, e, i, true);
  }

  lemma CountWeakOf(all: seq<Entry>, e: Entry, i: nat, orAt: bool)
    requires Weak(all) && i < |all|
    ensures Under(all[i], e, orAt) <==> i < Count(all, e, orAt)
  {
    if Under(all[i], e, orAt) {
      forall j | 0 <= j < i + 1 ensures Under(all[j], e, orAt) {
        assert j == i || AtMost(all[j], all[i]);
      }
      CountAtLeast(all, e, orAt, i + 1);
    } else {
      forall j | i <= j < |all| ensures !Under(all[j], e, orAt) {
        assert j == i || AtMost(all[i], all[j]);
      }
      CountAtMost(all, e, orAt, i);
    }
  }

  lemma CountIsFirstGE(all: seq<Entry>, e: Entry)
    requires Weak(all)
    ensures Count(all, e, false) == FirstGE(all, e)
  {
    var p := FirstGE(all, e);
    if p < |all| {
      CountWeak(all, e, p);
    }
    if p > 0 {
      CountWeak(all, e, p - 1);
    }
  }

  /** How many entries of each run are under a bound. */
  ghost function Counts(runs: seq<seq<Entry>>, e: Entry, orAt: bool): (c: seq<nat>)
    ensures |c| == |runs|
  {
    seq(|runs|, x requires 0 <= x < |runs| => Count(runs[x], e, orAt))
  }

  lemma {:induction false} CountBag(runs: seq<seq<Entry>>, e: Entry, orAt: bool) returns (flat: seq<Entry>)
    ensures multiset(flat) == Bag(runs) && Count(flat, e, orAt) == Sum(Counts(runs, e, orAt))
    ensures |flat| == Sum(Lengths(runs))
  {
    hide Count, Under;
    if runs == [] {
      flat := [];
      assert Count([], e, orAt) == 0;
    } else {
      var n := |runs| - 1;
      var front := CountBag(runs[..n], e, orAt);
      flat := front + runs[n];
      CountConcat(front, runs[n], e, orAt);
      assert Counts(runs, e, orAt)[..n] == Counts(runs[..n], e, orAt);
      assert Lengths(runs)[..n] == Lengths(runs[..n]);
    }
  }

  ghost function Lengths(runs: seq<seq<Entry>>): (c: seq<nat>)
    ensures |c| == |runs|
  {
    seq(|runs|, x requires 0 <= x < |runs| => |runs[x]|)
  }

  /** Counting in the union is counting in all runs. */
  lemma UnionCount(all: seq<Entry>, runs: seq<seq<Entry>>, e: Entry, orAt: bool)
    requires Union(all, runs)
    ensures Count(all, e, orAt) == Sum(Counts(runs, e, orAt)) && |all| == Sum(Lengths(runs))
  {
    hide Count, Weak, KeysAgree, Sum;
    var flat := CountBag(runs, e, orAt);
    CountPermuted(all, flat, e, orAt);
    assert |all| == |multiset(all)| && |flat| == |multiset(flat)|;
  }

  lemma {:induction false} SumAtMost(a: seq<nat>, b: seq<nat>)
    requires |a| == |b| && forall x :: 0 <= x < |a| ==> a[x] <= b[x]
    ensures Sum(a) <= Sum(b)
  {
    if a != [] {
      SumAtMost(a[..|a| - 1], b[..|a| - 1]);
    }
  }

  lemma {:induction false} SumLess(a: seq<nat>, b: seq<nat>, x: nat)
    requires |a| == |b| && x < |a| && a[x] < b[x] && forall y :: 0 <= y < |a| ==> a[y] <= b[y]
    ensures Sum(a) < Sum(b)
  {
    var n := |a| - 1;
    if x < n {
      SumLess(a[..n], b[..n], x);
    } else {
      SumAtMost(a[..n], b[..n]);
    }
  }

  lemma {:induction false} SumStep(a: seq<nat>, b: seq<nat>, x: nat)
    requires |a| == |b| && x < |a| && b[x] == a[x] + 1 && forall y :: 0 <= y < |a| && y != x ==> a[y] == b[y]
    ensures Sum(b) == Sum(a) + 1
  {
    var n := |a| - 1;
    if x < n {
      SumStep(a[..n], b[..n], x);
    } else {
      assert a[..n] == b[..n];
    }
  }

  lemma {:induction false} SumZero(a: seq<nat>)
    requires forall x :: 0 <= x < |a| ==> a[x] == 0
    ensures Sum(a) == 0
  {
    if a != [] {
      SumZero(a[..|a| - 1]);
    }
  }

  // ----- what stands at a cut

  /** An entry of a run is in the union. */
  lemma {:induction false} InBag(runs: seq<seq<Entry>>, x: nat, e: Entry)
    requires x < |runs| && e in runs[x]
    ensures e in Bag(runs)
  {
    if x < |runs| - 1 {
      InBag(runs[..|runs| - 1], x, e);
    }
  }

  lemma AtPlace(all: seq<Entry>, runs: seq<seq<Entry>>, x: nat, e: Entry, i: nat)
    requires Union(all, runs) && x < |runs| && e in runs[x] && i < |all| && !Less(all[i], e) && AtMost(all[i], e)
    ensures all[i] == e
  {
    InBag(runs, x, e);
    assert e in multiset(all);
    var j :| 0 <= j < |all| && all[j] == e;
  }

  /** The smallest entry behind a cut is the entry of the union at the cut. */
  lemma HeadAtCut(all: seq<Entry>, runs: seq<seq<Entry>>, ps: seq<nat>, x: nat)
    requires Union(all, runs) && Cut(runs, ps) && x < |runs| && ps[x] < |runs[x]|
    requires forall y :: 0 <= y < |runs| && ps[y] < |runs[y]| ==> AtMost(runs[x][ps[x]], runs[y][ps[y]])
    ensures Sum(ps) < |all| && all[Sum(ps)] == runs[x][ps[x]]
  {
    hide *;
    CutSizes(runs, ps);
    UnionSorted(all, runs);
    var e := runs[x][ps[x]];
    forall y: nat | y < |runs|
      ensures Count(runs[y], e, false) <= ps[y] <= Count(runs[y], e, true) && (y == x ==> ps[y] < Count(runs[y], e, true))
    {
      HeadCounts(runs, ps, x, y);
    }
    HeadSums(all, runs, ps, x, e);
    assert e in runs[x];
    AtCut(all, runs, x, e, Sum(ps));
  }

  lemma HeadSums(all: seq<Entry>, runs: seq<seq<Entry>>, ps: seq<nat>, x: nat, e: Entry)
    requires Union(all, runs) && |ps| == |runs| && x < |runs|
    requires forall y: nat :: y < |runs| ==>
               Count(runs[y], e, false) <= ps[y] <= Count(runs[y], e, true) && (y == x ==> ps[y] < Count(runs[y], e, true))
    ensures Count(all, e, false) <= Sum(ps) < Count(all, e, true)
  {
    hide Count, Sum, Union;
    SumAtMost(Counts(runs, e, false), ps);
    SumLess(ps, Counts(runs, e, true), x);
    UnionCount(all, runs, e, false);
    UnionCount(all, runs, e, true);
  }

  lemma HeadCounts(runs: seq<seq<Entry>>, ps: seq<nat>, x: nat, y: nat)
    requires (forall z :: 0 <= z < |runs| ==> Sorted(runs[z])) && Cut(runs, ps) && x < |runs| && y < |runs| && ps[x] < |runs[x]|
    requires forall z :: 0 <= z < |runs| && ps[z] < |runs[z]| ==> AtMost(runs[x][ps[x]], runs[z][ps[z]])
    ensures var e := runs[x][ps[x]];
            Count(runs[y], e, false) <= ps[y] <= Count(runs[y], e, true) && (y == x ==> ps[y] < Count(runs[y], e, true))
  {
    var e := runs[x][ps[x]];
    forall k | ps[y] <= k < |runs[y]| ensures !Less(runs[y][k], e) {
      assert ps[y] == k || Less(runs[y][ps[y]], runs[y][k]);
    }
    CountAtMost(runs[y], e, false, ps[y]);
    CountAtLeast(runs[y], e, true, if y == x then ps[y] + 1 else ps[y]);
  }

  lemma AtCut(all: seq<Entry>, runs: seq<seq<Entry>>, x: nat, e: Entry, i: nat)
    requires Union(all, runs) && x < |runs| && e in runs[x] && Count(all, e, false) <= i < Count(all, e, true)
    ensures i < |all| && all[i] == e
  {
    CountWeak(all, e, i);
    AtPlace(all, runs, x, e, i);
  }

  /** The largest entry before a cut is the entry of the union just before the cut. */
  lemma TailAtCut(all: seq<Entry>, runs: seq<seq<Entry>>, ps: seq<nat>, x: nat)
    requires Union(all, runs) && Cut(runs, ps) && x < |runs| && 0 < ps[x]
    requires forall y :: 0 <= y < |runs| && 0 < ps[y] ==> AtMost(runs[y][ps[y] - 1], runs[x][ps[x] - 1])
    ensures 0 < Sum(ps) <= |all| && all[Sum(ps) - 1] == runs[x][ps[x] - 1]
  {
    hide *;
    CutSizes(runs, ps);
    UnionSorted(all, runs);
    var e := runs[x][ps[x] - 1];
    forall y: nat | y < |runs|
      ensures Count(runs[y], e, false) <= ps[y] <= Count(runs[y], e, true) && (y == x ==> Count(runs[y], e, false) < ps[y])
    {
      TailCounts(runs, ps, x, y);
    }
    TailSums(all, runs, ps, x, e);
    assert e in runs[x];
    AtCut(all, runs, x, e, Sum(ps) - 1);
  }

  lemma CutSizes(runs: seq<seq<Entry>>, ps: seq<nat>)
    requires Cut(runs, ps)
    ensures |ps| == |runs| && forall y :: 0 <= y < |runs| ==> ps[y] <= |runs[y]|
  {
  }

  lemma UnionSorted(all: seq<Entry>, runs: seq<seq<Entry>>)
    requires Union(all, runs)
    ensures forall z :: 0 <= z < |runs| ==> Sorted(runs[z])
  {
  }

  lemma TailSums(all: seq<Entry>, runs: seq<seq<Entry>>, ps: seq<nat>, x: nat, e: Entry)
    requires Union(all, runs) && |ps| == |runs| && x < |runs|
    requires forall y: nat :: y < |runs| ==>
               Count(runs[y], e, false) <= ps[y] <= Count(runs[y], e, true) && (y == x ==> Count(runs[y], e, false) < ps[y])
    ensures Count(all, e, false) < Sum(ps) <= Count(all, e, true)
  {
    hide Count, Sum, Union;
    SumLess(Counts(runs, e, false), ps, x);
    SumAtMost(ps, Counts(runs, e, true));
    UnionCount(all, runs, e, false);
    UnionCount(all, runs, e, true);
  }

  lemma TailCounts(runs: seq<seq<Entry>>, ps: seq<nat>, x: nat, y: nat)
    requires (forall z :: 0 <= z < |runs| ==> Sorted(runs[z])) && Cut(runs, ps) && x < |runs| && y < |runs| && 0 < ps[x]
    requires forall z :: 0 <= z < |runs| && 0 < ps[z] ==> AtMost(runs[z][ps[z] - 1], runs[x][ps[x] - 1])
    ensures var e := runs[x][ps[x] - 1];
            Count(runs[y], e, false) <= ps[y] <= Count(runs[y], e, true) && (y == x ==> Count(runs[y], e, false) < ps[y])
  {
    var e := runs[x][ps[x] - 1];
    forall k | 0 <= k < ps[y] ensures AtMost(runs[y][k], e) {
      assert ps[y] - 1 == k || Less(runs[y][k], runs[y][ps[y] - 1]);
    }
    CountAtLeast(runs[y], e, true, ps[y]);
    CountAtMost(runs[y], e, false, if y == x then ps[y] - 1 else ps[y]);
  }

  /** Nothing lies behind a cut exactly at the end, and nothing before it exactly at the start. */
  lemma CutEnds(all: seq<Entry>, runs: seq<seq<Entry>>, ps: seq<nat>)
    requires Union(all, runs) && Cut(runs, ps)
    ensures Sum(ps) <= |all|
    ensures Sum(ps) < |all| <==> exists y :: 0 <= y < |runs| && ps[y] < |runs[y]|
    ensures 0 < Sum(ps) <==> exists y :: 0 <= y < |runs| && 0 < ps[y]
  {
    UnionCount(all, runs, SeekKey(0, 0), false);
    hide Union;
    SumAtMost(ps, Lengths(runs));
    if y: nat :| y < |runs| && ps[y] < |runs[y]| {
      SumLess(ps, Lengths(runs), y);
    } else {
      assert ps == Lengths(runs);
    }
    if y: nat :| y < |runs| && 0 < ps[y] {
      SumLess(seq(|ps|, _ => 0), ps, y);
    } else {
      SumZero(ps);
    }
  }

  /** Seeking in every run cuts the union where seeking in it would. */
  lemma SeekCut(all: seq<Entry>, runs: seq<seq<Entry>>, ps: seq<nat>, key: Entry)
    requires Union(all, runs) && |ps| == |runs| && forall x :: 0 <= x < |runs| ==> ps[x] == FirstGE(runs[x], key)
    ensures Cut(runs, ps) && Sum(ps) == FirstGE(all, key)
  {
    forall x: nat | x < |runs| ensures ps[x] == Count(runs[x], key, false) {
      StrictIsWeak(runs[x]);
      CountIsFirstGE(runs[x], key);
    }
    assert ps == Counts(runs, key, false);
    UnionCount(all, runs, key, false);
    CountIsFirstGE(all, key);
    hide Count, Sum;
    forall x: nat, y: nat, j, k | x < |runs| && y < |runs| && 0 <= j < ps[x] && ps[y] <= k < |runs[y]|
      ensures AtMost(runs[x][j], runs[y][k])
    {
      assert Less(runs[x][j], key);
      assert k == ps[y] || Less(runs[y][ps[y]], runs[y][k]);
    }
  }

  lemma FirstGESelf(es: seq<Entry>, i: nat)
    requires Sorted(es) && i < |es|
    ensures FirstGE(es, es[i]) == i
  {
    var p := FirstGE(es, es[i]);
  }

  lemma StrictIsWeak(es: seq<Entry>)
    requires Sorted(es)
    ensures Weak(es)
  {
  }

  lemma StartCut(all: seq<Entry>, runs: seq<seq<Entry>>, ps: seq<nat>)
    requires Union(all, runs) && |ps| == |runs| && forall x :: 0 <= x < |runs| ==> ps[x] == 0
    ensures Cut(runs, ps) && Sum(ps) == 0
  {
    SumZero(ps);
  }

  lemma EndCut(all: seq<Entry>, runs: seq<seq<Entry>>, ps: seq<nat>)
    requires Union(all, runs) && |ps| == |runs| && forall x :: 0 <= x < |runs| ==> ps[x] == |runs[x]|
    ensures Cut(runs, ps) && Sum(ps) == |all|
  {
    UnionCount(all, runs, SeekKey(0, 0), false);
    assert ps == Lengths(runs);
  }

  /** Taking the smallest entry behind a cut to the other side gives the next cut. */
  lemma CutOn(runs: seq<seq<Entry>>, ps: seq<nat>, x: nat, ps': seq<nat>)
    requires (forall z :: 0 <= z < |runs| ==> Sorted(runs[z])) && Cut(runs, ps) && x < |runs| && ps[x] < |runs[x]|
    requires forall y :: 0 <= y < |runs| && ps[y] < |runs[y]| ==> AtMost(runs[x][ps[x]], runs[y][ps[y]])
    requires ps' == ps[x := ps[x] + 1]
    ensures Cut(runs, ps') && Sum(ps') == Sum(ps) + 1
  {
    SumStep(ps, ps', x);
    forall z: nat, y: nat, j, k | z < |runs| && y < |runs| && 0 <= j < ps'[z] && ps'[y] <= k < |runs[y]|
      ensures AtMost(runs[z][j], runs[y][k])
    {
      assert k == ps[y] || Less(runs[y][ps[y]], runs[y][k]);
    }
  }

  /** Taking the largest entry before a cut back gives the cut before. */
  lemma CutBack(runs: seq<seq<Entry>>, ps: seq<nat>, x: nat, ps': seq<nat>)
    requires (forall z :: 0 <= z < |runs| ==> Sorted(runs[z])) && Cut(runs, ps) && x < |runs| && 0 < ps[x]
    requires forall y :: 0 <= y < |runs| && 0 < ps[y] ==> AtMost(runs[y][ps[y] - 1], runs[x][ps[x] - 1])
    requires ps' == ps[x := ps[x] - 1]
    ensures Cut(runs, ps') && Sum(ps') == Sum(ps) - 1
  {
    SumStep(ps', ps, x);
    forall z: nat, y: nat, j, k | z < |runs| && y < |runs| && 0 <= j < ps'[z] && ps'[y] <= k < |runs[y]|
      ensures AtMost(runs[z][j], runs[y][k])
    {
      assert j == ps[z] - 1 || Less(runs[z][j], runs[z][ps[z] - 1]);
    }
  }

  // ----- the union exists

  ghost function Insert(es: seq<Entry>, e: Entry): seq<Entry> {
    var p := FirstGE(es, e);
    es[..p] + [e] + es[p..]
  }

  ghost function Merge(runs: seq<seq<Entry>>): seq<Entry> {
    if runs == [] then [] else InsertAll(Merge(runs[..|runs| - 1]), runs[|runs| - 1])
  }

  ghost function InsertAll(es: seq<Entry>, add: seq<Entry>): seq<Entry> {
    if add == [] then es else Insert(InsertAll(es, add[..|add| - 1]), add[|add| - 1])
  }

  lemma InsertWeak(es: seq<Entry>, e: Entry)
    requires Weak(es)
    ensures Weak(Insert(es, e)) && multiset(Insert(es, e)) == multiset(es) + multiset{e}
  {
    var p := FirstGE(es, e);
    assert es == es[..p] + es[p..];
    forall i: nat, j: nat | i < j < |Insert(es, e)| ensures AtMost(Insert(es, e)[i], Insert(es, e)[j]) {
      InsertedAt(es, e, i);
      InsertedAt(es, e, j);
      InsertPair(es, e, i, j);
    }
  }

  lemma InsertedAt(es: seq<Entry>, e: Entry, i: nat)
    requires i <= |es|
    ensures var p := FirstGE(es, e); |Insert(es, e)| == |es| + 1 && Insert(es, e)[i] == if i < p then es[i] else if i == p then e else es[i - 1]
  {
  }

  lemma InsertPair(es: seq<Entry>, e: Entry, i: nat, j: nat)
    requires Weak(es) && i < j <= |es|
    ensures var p := FirstGE(es, e); AtMost(if i < p then es[i] else if i == p then e else es[i - 1], if j < p then es[j] else if j == p then e else es[j - 1])
  {
    var p := FirstGE(es, e);
    assert p < |es| && p < j - 1 ==> AtMost(es[p], es[j - 1]);
    assert i < j - 1 ==> AtMost(es[i], es[j - 1]);
  }

  lemma {:induction false} InsertAllWeak(es: seq<Entry>, add: seq<Entry>)
    requires Weak(es)
    ensures Weak(InsertAll(es, add)) && multiset(InsertAll(es, add)) == multiset(es) + multiset(add)
  {
    hide Weak, Insert;
    if add != [] {
      var n := |add| - 1;
      InsertAllWeak(es, add[..n]);
      InsertWeak(InsertAll(es, add[..n]), add[n]);
      assert add == add[..n] + [add[n]];
    }
  }

  lemma {:induction false} MergeWeak(runs: seq<seq<Entry>>)
    ensures Weak(Merge(runs)) && multiset(Merge(runs)) == Bag(runs)
  {
    hide InsertAll;
    if runs != [] {
      MergeWeak(runs[..|runs| - 1]);
      InsertAllWeak(Merge(runs[..|runs| - 1]), runs[|runs| - 1]);
    }
  }
}
