/** `dbIter`: a cursor over the live user keys visible at a sequence number, on top of the merged
    iterator over every version of every key, an entry possibly twice. */
module DbIter {
  import opened Keys
  import opened Lookup
  import opened Cursors
  import R = MergedRuns
  import M = MergedIterator

  /** Raw entry `i` is what a reader at `s` sees of its key: a value, with no newer visible version before it. */
  ghost predicate Shown(es: seq<Entry>, s: nat, i: nat)
    requires i < |es|
  {
    es[i].sn <= s && es[i].kt.Val? && forall j :: 0 <= j < i && es[j].ukey == es[i].ukey ==> es[j].sn > s
  }

  /** The raw positions of the shown entries among the first `n`. */
  ghost function Shows(es: seq<Entry>, s: nat, n: nat): seq<nat>
    requires n <= |es|
  {
    if n == 0 then [] else Shows(es, s, n - 1) + if Shown(es, s, n - 1) then [n - 1] else []
  }

  /** The sorted visible map: one entry per live user key. */
  ghost function VisibleMap(es: seq<Entry>, s: nat): seq<Entry> {
    var idx := Shows(es, s, |es|);
    seq(|idx|, p requires 0 <= p < |idx| => if idx[p] < |es| then es[idx[p]] else SeekKey(0, 0))
  }

  ghost function Count(es: seq<Entry>, s: nat, n: nat): nat
    requires n <= |es|
  {
    |Shows(es, s, n)|
  }

  /** Nothing in [a, b) is shown. */
  ghost predicate NoneShown(es: seq<Entry>, s: nat, a: nat, b: nat) {
    forall i :: a <= i < b && i < |es| ==> !Shown(es, s, i)
  }

  lemma {:induction false} CountSame(es: seq<Entry>, s: nat, a: nat, b: nat)
    requires a <= b <= |es| && NoneShown(es, s, a, b)
    ensures Count(es, s, a) == Count(es, s, b)
  {
    if a < b {
      CountSame(es, s, a, b - 1);
    }
  }

  lemma NoneYet(es: seq<Entry>, s: nat)
    ensures Count(es, s, 0) == 0
  {
  }

  lemma CountStep(es: seq<Entry>, s: nat, i: nat)
    requires i < |es| && Shown(es, s, i)
    ensures Count(es, s, i + 1) == Count(es, s, i) + 1
  {
  }

  /** The shown entry at raw position `i` stands at position `Count(i)` of the visible map. */
  lemma {:induction false} ShowsAt(es: seq<Entry>, s: nat, i: nat, n: nat)
    requires i < n <= |es| && Shown(es, s, i)
    ensures Count(es, s, i) < Count(es, s, n) && Shows(es, s, n)[Count(es, s, i)] == i
  {
    if i < n - 1 {
      ShowsAt(es, s, i, n - 1);
    }
  }

  lemma MapAt(es: seq<Entry>, s: nat, i: nat)
    requires i < |es| && Shown(es, s, i)
    ensures Count(es, s, i) < |VisibleMap(es, s)| && VisibleMap(es, s)[Count(es, s, i)] == es[i]
  {
    ShowsAt(es, s, i, |es|);
  }

  lemma {:induction false} ShowsAscend(es: seq<Entry>, s: nat, n: nat)
    requires n <= |es|
    ensures forall p :: 0 <= p < Count(es, s, n) ==> Shows(es, s, n)[p] < n && Shown(es, s, Shows(es, s, n)[p])
    ensures forall p, q :: 0 <= p < q < Count(es, s, n) ==> Shows(es, s, n)[p] < Shows(es, s, n)[q]
  {
    if n > 0 {
      ShowsAscend(es, s, n - 1);
    }
  }

  lemma MapEntry(es: seq<Entry>, s: nat, p: nat) returns (i: nat)
    requires p < |VisibleMap(es, s)|
    ensures i < |es| && Shown(es, s, i) && VisibleMap(es, s)[p] == es[i] && i == Shows(es, s, |es|)[p]
  {
    ShowsAscend(es, s, |es|);
    i := Shows(es, s, |es|)[p];
  }

  lemma MapAscends(es: seq<Entry>, s: nat, p: nat, q: nat)
    requires R.Weak(es) && p < q < |VisibleMap(es, s)|
    ensures VisibleMap(es, s)[p].ukey < VisibleMap(es, s)[q].ukey
  {
    var i := MapEntry(es, s, p);
    var j := MapEntry(es, s, q);
    ShowsAscend(es, s, |es|);
    assert AtMost(es[i], es[j]);
  }

  /** The visible map has ascending user keys, and holds for each key exactly what a lookup at `s` answers. */
  lemma VisibleMapIsLookup(es: seq<Entry>, s: nat, k: UKey, v: Bytes)
    requires R.Weak(es) && UniqueSeq(Elems(es))
    ensures forall p, q :: 0 <= p < q < |VisibleMap(es, s)| ==> VisibleMap(es, s)[p].ukey < VisibleMap(es, s)[q].ukey
    ensures (exists p :: 0 <= p < |VisibleMap(es, s)| && VisibleMap(es, s)[p].ukey == k && VisibleMap(es, s)[p].value == v)
            <==> Answers(Elems(es), k, s, Some(v))
  {
    hide R.Weak, VisibleMap, Shown;
    var vm := VisibleMap(es, s);
    forall p, q | 0 <= p < q < |vm|
      ensures vm[p].ukey < vm[q].ukey
    {
      MapAscends(es, s, p, q);
    }
    if p :| 0 <= p < |vm| && vm[p].ukey == k && vm[p].value == v {
      var i := MapEntry(es, s, p);
      ShownIsNewest(es, s, i);
    }
    if Answers(Elems(es), k, s, Some(v)) {
      var e :| Newest(Elems(es), k, s, e) && Some(v) == ValueOf(e);
      var i := FirstCopy(es, e);
      NewestIsShown(es, s, i);
      MapAt(es, s, i);
    }
  }

  lemma ShownIsNewest(es: seq<Entry>, s: nat, i: nat)
    requires R.Weak(es) && i < |es| && Shown(es, s, i)
    ensures Newest(Elems(es), es[i].ukey, s, es[i]) && es[i].kt.Val?
  {
    forall x | x in Elems(es) && Visible(x, es[i].ukey, s)
      ensures x.sn <= es[i].sn
    {
      var j :| 0 <= j < |es| && es[j] == x;
      assert i < j ==> AtMost(es[i], es[j]);
    }
  }

  lemma FirstCopy(es: seq<Entry>, e: Entry) returns (i: nat)
    requires R.Weak(es) && UniqueSeq(Elems(es)) && e in Elems(es)
    ensures i < |es| && es[i] == e && forall j :: 0 <= j < i ==> Less(es[j], e)
  {
    var k :| 0 <= k < |es| && es[k] == e;
    i := FirstGE(es, e);
    assert i <= k;
    assert i == k || AtMost(es[i], es[k]);
    assert es[i] in Elems(es);
  }

  lemma NewestIsShown(es: seq<Entry>, s: nat, i: nat)
    requires UniqueSeq(Elems(es)) && i < |es| && es[i].kt.Val? && Newest(Elems(es), es[i].ukey, s, es[i])
    requires forall j :: 0 <= j < i ==> Less(es[j], es[i])
    ensures Shown(es, s, i)
  {
    forall j | 0 <= j < i && es[j].ukey == es[i].ukey
      ensures es[j].sn > s
    {
      assert es[j] in Elems(es) && es[i] in Elems(es);
    }
  }

  datatype Dir = SOI | EOI | Backward | Forward

  // ----- scanning forward

  /** At raw position `r`, looking for the first shown entry at or after `lo`: keys up to `key` are done with,
      or, when nothing has been met yet, no visible version lies behind. */
  ghost predicate Seeking(es: seq<Entry>, s: nat, dir: Dir, key: UKey, r: nat, lo: nat) {
    r <= |es| && lo <= |es| && NoneShown(es, s, lo, r)
    && if dir == SOI
       then lo <= r && forall j, i :: 0 <= j < r <= i < |es| && es[j].ukey == es[i].ukey ==> es[j].sn > s
       else (forall j :: 0 <= j < r && es[j].sn <= s ==> es[j].ukey <= key)
            && (forall i :: r <= i < |es| && lo <= i && es[i].ukey <= key ==> !Shown(es, s, i))
            && (forall i :: r <= i < lo && es[i].sn <= s ==> es[i].kt.Val? && es[i].ukey <= key)
  }

  lemma SeekingFinds(es: seq<Entry>, s: nat, dir: Dir, key: UKey, r: nat, lo: nat)
    requires r < |es| && Seeking(es, s, dir, key, r, lo)
    requires es[r].sn <= s && es[r].kt.Val? && (dir == SOI || es[r].ukey > key)
    ensures lo <= r && Shown(es, s, r) && NoneShown(es, s, lo, r)
  {
  }

  lemma SeekingEnds(es: seq<Entry>, s: nat, dir: Dir, key: UKey, lo: nat)
    requires Seeking(es, s, dir, key, |es|, lo)
    ensures lo <= |es| && NoneShown(es, s, lo, |es|)
  {
  }

  /** After a seek to `k` nothing before the raw position hides anything after it. */
  lemma SeekStart(es: seq<Entry>, s: nat, k: UKey, key: UKey)
    requires R.Weak(es)
    ensures var lo := FirstGE(es, SeekKey(k, s)); Seeking(es, s, SOI, key, lo, lo)
  {
    var lo := FirstGE(es, SeekKey(k, s));
    forall j, i | 0 <= j < lo <= i < |es| && es[j].ukey == es[i].ukey
      ensures es[j].sn > s
    {
      assert lo == i || AtMost(es[lo], es[i]);
    }
  }

  lemma SeekStart0(es: seq<Entry>, s: nat, key: UKey)
    ensures Seeking(es, s, SOI, key, 0, 0)
  {
  }

  /** Moving on from a shown entry. */
  lemma StartAfter(es: seq<Entry>, s: nat, r: nat)
    requires R.Weak(es) && r < |es| && Shown(es, s, r)
    ensures Seeking(es, s, Forward, es[r].ukey, r + 1, r + 1)
  {
    forall j | 0 <= j < r ensures es[j].ukey <= es[r].ukey {
      assert AtMost(es[j], es[r]);
    }
  }

  /** Turning round: one or two steps on from the raw position left behind by a backward scan. */
  lemma StartTurned(es: seq<Entry>, s: nat, r: int, q: nat, from: nat)
    requires R.Weak(es) && -1 <= r < q < |es| && r < from <= r + 2 && from <= |es| && Shown(es, s, q) && forall j :: r < j < q ==> es[j].sn > s
    ensures Seeking(es, s, Backward, es[q].ukey, from, q + 1)
  {
    forall j | 0 <= j < q ensures es[j].ukey <= es[q].ukey {
      assert AtMost(es[j], es[q]);
    }
    forall j | q < j < |es| ensures es[q].ukey <= es[j].ukey {
      assert AtMost(es[q], es[j]);
    }
  }

  lemma TurnedStart(es: seq<Entry>, s: nat, r: int, q: nat, from: nat)
    requires R.Weak(es) && -1 <= r < q < |es| && r < from <= r + 2 && from <= |es| && Shown(es, s, q) && forall j :: r < j < q ==> es[j].sn > s
    ensures Count(es, s, q) < |VisibleMap(es, s)| && Count(es, s, q + 1) == Count(es, s, q) + 1
    ensures if from < |es| then Seeking(es, s, Backward, es[q].ukey, from, q + 1) else NoneShown(es, s, q + 1, |es|)
  {
    StartTurned(es, s, r, q, from);
    hide Shown, R.Weak, VisibleMap, Shows;
    MapAt(es, s, q);
    CountStep(es, s, q);
  }

  lemma {:induction false} CountMonotone(es: seq<Entry>, s: nat, a: nat, b: nat)
    requires a <= b <= |es|
    ensures Count(es, s, a) <= Count(es, s, b)
  {
    if a < b {
      CountMonotone(es, s, a, b - 1);
    }
  }

  /** The visible map splits where the raw run does. */
  lemma SeekSplits(es: seq<Entry>, s: nat, k: UKey)
    requires R.Weak(es)
    ensures var lo := FirstGE(es, SeekKey(k, s));
            && Count(es, s, lo) <= |VisibleMap(es, s)|
            && (forall p :: 0 <= p < Count(es, s, lo) ==> VisibleMap(es, s)[p].ukey < k)
            && (forall p :: Count(es, s, lo) <= p < |VisibleMap(es, s)| ==> k <= VisibleMap(es, s)[p].ukey)
  {
    var lo := FirstGE(es, SeekKey(k, s));
    var vm, idx := VisibleMap(es, s), Shows(es, s, |es|);
    CountMonotone(es, s, lo, |es|);
    ShowsAscend(es, s, |es|);
    forall p | 0 <= p < |vm|
      ensures p < Count(es, s, lo) ==> vm[p].ukey < k
      ensures Count(es, s, lo) <= p ==> k <= vm[p].ukey
    {
      SplitAt(es, s, k, p);
    }
  }

  lemma SplitAt(es: seq<Entry>, s: nat, k: UKey, p: nat)
    requires R.Weak(es) && p < Count(es, s, |es|)
    ensures var lo := FirstGE(es, SeekKey(k, s)); if p < Count(es, s, lo) then VisibleMap(es, s)[p].ukey < k else k <= VisibleMap(es, s)[p].ukey
  {
    var lo := FirstGE(es, SeekKey(k, s));
    ShowsAscend(es, s, |es|);
    var i := Shows(es, s, |es|)[p];
    ShowsAt(es, s, i, |es|);
    if i < lo {
      ShowsAt(es, s, i, lo);
    } else {
      CountMonotone(es, s, lo, i);
      assert lo == i || AtMost(es[lo], es[i]);
    }
  }

  lemma SeekingGoesOn(es: seq<Entry>, s: nat, dir: Dir, key: UKey, r: nat, lo: nat, dir': Dir, key': UKey)
    requires R.Weak(es) && r < |es| && Seeking(es, s, dir, key, r, lo)
    requires es[r].sn <= s && es[r].kt.Val? ==> dir != SOI && es[r].ukey <= key
    requires (dir', key') == if es[r].sn <= s && es[r].kt.Del? then (Forward, es[r].ukey) else (dir, key)
    ensures Seeking(es, s, dir', key', r + 1, lo)
  {
    if es[r].sn <= s && es[r].kt.Del? {
      forall j | 0 <= j < |es|
        ensures j < r ==> es[j].ukey <= es[r].ukey
        ensures j > r ==> es[r].ukey <= es[j].ukey
      {
        assert j < r ==> AtMost(es[j], es[r]);
        assert j > r ==> AtMost(es[r], es[j]);
      }
    }
  }

  // ----- scanning backward

  /** At raw position `r`, below which nothing has been read: the candidate `c` is the newest version met
      of the key in hand, or `del` says that nothing met so far is shown. */
  ghost predicate Collecting(es: seq<Entry>, s: nat, del: bool, key: UKey, value: Bytes, r: int, top: nat, c: nat) {
    -1 <= r < top <= |es|
    && if del then NoneShown(es, s, r + 1, top)
       else r < c < top && es[c].sn <= s && es[c].kt.Val? && es[c].ukey == key && es[c].value == value
            && (forall j :: r < j < c ==> es[j].sn > s) && NoneShown(es, s, c + 1, top)
  }

  /** The candidate is shown once a visible entry of a smaller key, or the front, is reached. */
  lemma CandidateShown(es: seq<Entry>, s: nat, key: UKey, value: Bytes, r: int, top: nat, c: nat)
    requires R.Weak(es) && Collecting(es, s, false, key, value, r, top, c) && (r >= 0 ==> es[r].ukey < key)
    ensures Shown(es, s, c) && Count(es, s, c) == Count(es, s, top) - 1
  {
    forall j | 0 <= j < c && es[j].ukey == es[c].ukey
      ensures es[j].sn > s
    {
      if j <= r {
        KeyAtMost(es, j, r);
      }
    }
    CountStep(es, s, c);
    CountSame(es, s, c + 1, top);
  }

  lemma CollectOn(es: seq<Entry>, s: nat, del: bool, key: UKey, value: Bytes, r: nat, top: nat, c: nat)
      returns (c': nat)
    requires R.Weak(es) && Collecting(es, s, del, key, value, r, top, c)
    requires es[r].sn <= s && !del ==> es[r].ukey >= key
    ensures var e := es[r];
            if e.sn > s then Collecting(es, s, del, key, value, r - 1, top, c')
            else if e.kt.Del? then Collecting(es, s, true, key, value, r - 1, top, c')
            else Collecting(es, s, false, e.ukey, e.value, r - 1, top, c')
  {
    c' := if es[r].sn <= s && es[r].kt.Val? then r else c;
    if es[r].sn <= s && !del {
      assert AtMost(es[r], es[c]);
      assert !Shown(es, s, c);
    }
  }

  /** No entry more than twice: what an iterator's sources hold, once in a memdb and once in a table. */
  ghost predicate AtMostTwice(es: seq<Entry>) {
    forall i :: 0 <= i < |es| - 2 ==> Less(es[i], es[i + 2])
  }

  /** Where two steps forward of the raw iterator lead after it moved backward: past the entry it stood on,
      by no more than two. */
  lemma TwoSteps(all: seq<Entry>, p: nat)
    requires R.Weak(all) && AtMostTwice(all) && p < |all|
    ensures p <= FirstGE(all, all[p]) + 1 && FirstGE(all, all[p]) <= p
  {
    var f := FirstGE(all, all[p]);
    assert p >= 2 ==> Less(all[p - 2], all[p]);
    assert p >= 2 ==> forall i :: 0 <= i < p - 2 ==> AtMost(all[i], all[p - 2]);
  }

  /** The first of all copies of a shown entry is the shown one. */
  lemma ShownIsFirst(all: seq<Entry>, s: nat, i: nat)
    requires R.Weak(all) && i < |all| && Shown(all, s, i)
    ensures FirstGE(all, all[i]) == i
  {
    var f := FirstGE(all, all[i]);
    assert f < i ==> AtMost(all[f], all[i]);
  }

  class DbIter {
    const iter: M.MergedIterator
    const s: nat
    var dir: Dir
    var key: UKey
    var value: Bytes

    ghost var pos: int

    ghost function Map(): seq<Entry> { VisibleMap(iter.all, s) }

    /** Raw entry `i` is the current one, at its place in the visible map. */
    ghost predicate Current(i: nat)
      reads this
    {
      i < |iter.all| && Shown(iter.all, s, i) && pos == Count(iter.all, s, i) && key == iter.all[i].ukey && value == iter.all[i].value
    }

    /** Everything visible between the raw cursor and `q` is gone past; the cursor stands on a smaller key. */
    ghost predicate Behind(q: nat)
      reads this, iter
    {
      -1 <= iter.pos < q <= |iter.all| && (forall j :: iter.pos < j < q ==> iter.all[j].sn > s)
      && (iter.pos >= 0 && q < |iter.all| ==> iter.all[iter.pos].sn <= s && iter.all[iter.pos].ukey < iter.all[q].ukey)
    }

    ghost predicate Raw()
      reads this, iter, iter.iters
    {
      iter.Valid() && R.Weak(iter.all) && AtMostTwice(iter.all)
    }

    /** Moving forward the raw cursor stands on the current entry. Moving backward it has already
        gone on to the next visible entry of a smaller key, or off the front. */
    ghost predicate Valid()
      reads this, iter, iter.iters
    {
      Raw()
      && match dir
         case SOI => pos == -1 && iter.pos == -1
         case EOI => pos == |Map()|
         case Forward => iter.dir == M.Forward && iter.pos >= 0 && Current(iter.pos)
         case Backward => (iter.dir == M.Backward || iter.dir == M.SOI) && exists q: nat :: Current(q) && Behind(q)
    }

    constructor (iter: M.MergedIterator, s: nat)
      requires iter.Valid() && iter.pos == -1 && AtMostTwice(iter.all)
      ensures Valid() && pos == -1 && this.iter == iter && this.s == s
    {
      this.iter, this.s := iter, s;
      dir, key, value, pos := SOI, 0, [], -1;
    }

    /** `next`: from the raw position on, skip hidden versions and tombstones. */
    method next(ghost lo: nat) returns (ok: bool)
      requires Raw() && iter.dir == M.Forward && On(|iter.all|, iter.pos)
      requires Seeking(iter.all, s, dir, key, iter.pos, lo)
      modifies this, iter, iter.iters
      ensures Valid() && pos == Count(iter.all, s, lo) && ok == On(|Map()|, pos)
    {
      hide Seeking, Shown, R.Weak, AtMostTwice, Shows, VisibleMap, M.MergedIterator.Valid;
      while true
        invariant Raw() && iter.dir == M.Forward && On(|iter.all|, iter.pos) && Seeking(iter.all, s, dir, key, iter.pos, lo)
        decreases |iter.all| - iter.pos
      {
        var e := iter.Key().value;
        ghost var dir0, key0 := dir, key;
        if e.sn <= s {
          match e.kt {
            case Del =>
              key, dir := e.ukey, Forward;
            case Val =>
              if dir == SOI || e.ukey > key {
                SeekingFinds(iter.all, s, dir, key, iter.pos, lo);
                CountSame(iter.all, s, lo, iter.pos);
                MapAt(iter.all, s, iter.pos);
                key, value, dir := e.ukey, e.value, Forward;
                pos := Count(iter.all, s, iter.pos);
                return true;
              }
          }
        }
        SeekingGoesOn(iter.all, s, dir0, key0, iter.pos, lo, dir, key);
        var more := iter.Next();
        if !more {
          SeekingEnds(iter.all, s, dir, key, lo);
          RanOff(lo);
          dir, pos := EOI, |Map()|;
          return false;
        }
      }
    }

    lemma RanOff(lo: nat)
      requires lo <= |iter.all| && NoneShown(iter.all, s, lo, |iter.all|)
      ensures |Map()| == Count(iter.all, s, lo)
    {
      CountSame(iter.all, s, lo, |iter.all|);
    }

    /** The entry of the visible map at the cursor is what the iterator shows. */
    lemma ShowsCurrent()
      requires Valid()
      ensures if dir == Forward || dir == Backward
              then On(|Map()|, pos) && Map()[pos].ukey == key && Map()[pos].value == value
              else !On(|Map()|, pos)
    {
      hide Shown, R.Weak, AtMostTwice, Shows, VisibleMap, M.MergedIterator.Valid;
      match dir
      case SOI =>
      case EOI =>
      case Forward =>
        MapAt(iter.all, s, iter.pos);
      case Backward =>
        var q: nat :| Current(q) && Behind(q);
        MapAt(iter.all, s, q);
    }

    function Key(): (k: Option<UKey>)
      requires Valid()
      reads this, iter, iter.iters
      ensures k == if On(|Map()|, pos) then Some(Map()[pos].ukey) else None
    {
      ShowsCurrent();
      if dir == Forward || dir == Backward then Some(key) else None
    }

    function Value(): (v: Option<Bytes>)
      requires Valid()
      reads this, iter, iter.iters
      ensures v == if On(|Map()|, pos) then Some(Map()[pos].value) else None
    {
      ShowsCurrent();
      if dir == Forward || dir == Backward then Some(value) else None
    }

    method First() returns (ok: bool)
      requires Valid()
      modifies this, iter, iter.iters
      ensures Valid() && pos == 0 && ok == On(|Map()|, pos)
    {
      hide R.Weak, AtMostTwice, M.MergedIterator.Valid;
      RawChildren();
      var more := iter.First();
      if more {
        dir := SOI;
        ok := next(0);
        return;
      }
      dir, pos := EOI, 0;
      ok := false;
    }

    lemma RawChildren()
      requires Raw()
      ensures iter.Children()
    {
    }

    /** Seeking `k` lands on the first visible key at or after it. */
    method Seek(k: UKey) returns (ok: bool)
      requires Valid()
      modifies this, iter, iter.iters
      ensures Valid() && ok == On(|Map()|, pos) && 0 <= pos <= |Map()|
      ensures forall p :: 0 <= p < pos ==> Map()[p].ukey < k
      ensures forall p :: pos <= p < |Map()| ==> k <= Map()[p].ukey
    {
      SeekSplits(iter.all, s, k);
      SeekStart(iter.all, s, k, key);
      RawChildren();
      ghost var lo := FirstGE(iter.all, SeekKey(k, s));
      hide Seeking, VisibleMap, R.Weak, AtMostTwice, Shown, Shows, M.MergedIterator.Valid;
      var more := iter.Seek(SeekKey(k, s));
      if more {
        dir := SOI;
        ok := next(lo);
        return;
      }
      RanOff(lo);
      dir, pos := EOI, |Map()|;
      ok := false;
    }

    method Last() returns (ok: bool)
      requires Valid()
      modifies this, iter, iter.iters
      ensures Valid() && pos == |Map()| - 1 && ok == On(|Map()|, pos)
    {
      hide R.Weak, AtMostTwice, M.MergedIterator.Valid;
      RawChildren();
      var more := iter.Last();
      if more {
        ok := prev();
        return;
      }
      dir, pos := SOI, -1;
      ok := false;
    }

    /** `prev`: from the raw position down, collect the newest visible version of the last live key. */
    method prev() returns (ok: bool)
      requires Raw() && (iter.dir == M.Backward || iter.dir == M.SOI)
      modifies this, iter, iter.iters
      ensures Valid() && pos == Count(iter.all, s, old(iter.pos) + 1) - 1 && ok == On(|Map()|, pos)
    {
      hide Shown, R.Weak, AtMostTwice, Shows, VisibleMap, M.MergedIterator.Valid;
      RawPlace();
      ghost var top := iter.pos + 1;
      ghost var c := 0;
      dir := Backward;
      var del := true;
      if iter.Key().Some? {
        while true
          invariant Raw() && iter.dir == M.Backward && On(|iter.all|, iter.pos) && dir == Backward
          invariant Collecting(iter.all, s, del, key, value, iter.pos, top, c)
          decreases iter.pos
        {
          var e := iter.Key().value;
          if e.sn <= s && !del && e.ukey < key {
            Settle(top, c);
            return true;
          }
          c := CollectOn(iter.all, s, del, key, value, iter.pos, top, c);
          if e.sn <= s {
            del := e.kt.Del?;
            if !del {
              key, value := e.ukey, e.value;
            }
          }
          var more := iter.Prev();
          RawPlace();
          if !more {
            break;
          }
        }
      }
      if del {
        CountSame(iter.all, s, 0, top);
        NoneYet(iter.all, s);
        dir, pos := SOI, -1;
        return false;
      }
      Settle(top, c);
      ok := true;
    }

    /** Where the raw cursor is, by its direction. */
    lemma RawPlace()
      requires Raw()
      ensures -1 <= iter.pos <= |iter.all| && (iter.dir == M.SOI <==> iter.pos == -1) && (iter.dir == M.EOI <==> iter.pos == |iter.all|)
    {
    }

    /** The candidate is what the step back was looking for. */
    method Settle(ghost top: nat, ghost c: nat)
      requires Raw() && (iter.dir == M.Backward || iter.dir == M.SOI)
      requires dir == Backward && Collecting(iter.all, s, false, key, value, iter.pos, top, c)
      requires iter.pos >= 0 ==> iter.all[iter.pos].sn <= s && iter.all[iter.pos].ukey < key
      modifies this`pos
      ensures Valid() && pos == Count(iter.all, s, top) - 1 && On(|Map()|, pos)
    {
      hide Shown, R.Weak, AtMostTwice, Shows, VisibleMap, M.MergedIterator.Valid;
      CandidateShown(iter.all, s, key, value, iter.pos, top, c);
      MapAt(iter.all, s, c);
      pos := Count(iter.all, s, c);
      assert Current(c) && Behind(c);
    }

    method Next() returns (ok: bool)
      requires Valid()
      modifies this, iter, iter.iters
      ensures Valid() && pos == NextPos(|Map()|, old(pos)) && ok == On(|Map()|, pos)
    {
      if dir == EOI {
        return false;
      }
      hide Seeking, VisibleMap, R.Weak, AtMostTwice, Shown, Shows, FirstGE, Valid, Raw;
      ghost var lo, from := NextStart();
      var more := StepOn(from);
      if !more {
        RanOff(lo);
        RanOut(lo);
        dir, pos := EOI, |Map()|;
        AtEnd();
        return false;
      }
      ok := next(lo);
    }

    lemma RanOut(lo: nat)
      requires lo <= |iter.all| && |Map()| == Count(iter.all, s, lo) == pos + 1 && (pos < |Map()| || dir == SOI) && -1 <= pos
      ensures NextPos(|Map()|, pos) == |Map()|
    {
    }

    lemma AtEnd()
      requires Raw() && dir == EOI && pos == |Map()|
      ensures Valid()
    {
      hide Raw;
    }

    /** The raw steps of `Next`: a second one when the last move was backward. */
    method StepOn(ghost from: nat) returns (more: bool)
      requires Raw() && From(from)
      modifies iter, iter.iters
      ensures Raw() && iter.pos == from && (more <==> from < |iter.all|) && (more ==> iter.dir == M.Forward)
    {
      hide R.Weak, AtMostTwice, M.MergedIterator.Valid, FirstGE;
      RawPlace();
      more := iter.Next();
      RawPlace();
      if more && dir == Backward {
        more := iter.Next();
        RawPlace();
      }
    }

    /** `from` is where the raw steps of `Next` lead. */
    ghost predicate From(from: nat)
      reads this, iter
    {
      var one := M.NextFrom(iter.all, iter.dir, iter.pos);
      if dir == Backward then 0 <= one < |iter.all| && from == one + 1 else from == one
    }

    /** What is known where a step forward starts looking: at raw position `from`, or nowhere when that is past the end. */
    ghost predicate Started(lo: nat, from: nat)
      reads this, iter
    {
      lo <= |iter.all| && From(from) && from <= |iter.all|
      && -1 <= pos && (pos < |Map()| || dir == SOI) && Count(iter.all, s, lo) == pos + 1
      && if from < |iter.all| then Seeking(iter.all, s, dir, key, from, lo)
         else NoneShown(iter.all, s, lo, |iter.all|)
    }

    lemma NextStart() returns (lo: nat, from: nat)
      requires Valid() && dir != EOI
      ensures Raw() && Started(lo, from)
    {
      hide *;
      if dir == Backward {
        lo, from := BackwardStart();
      } else {
        lo, from := ForwardStart();
      }
    }

    lemma ForwardStart() returns (lo: nat, from: nat)
      requires Valid() && (dir == SOI || dir == Forward)
      ensures Raw() && Started(lo, from)
    {
      hide Seeking, Shown, R.Weak, AtMostTwice, M.MergedIterator.Valid, FirstGE;
      RawPlace();
      lo, from := iter.pos + 1, iter.pos + 1;
      if dir == SOI {
        SeekStart0(iter.all, s, key);
      } else {
        MapAt(iter.all, s, iter.pos);
        StartAfter(iter.all, s, iter.pos);
        CountStep(iter.all, s, iter.pos);
      }
    }

    lemma BackwardStart() returns (lo: nat, from: nat)
      requires Valid() && dir == Backward
      ensures Raw() && Started(lo, from)
    {
      hide *;
      var q := CurrentBehind();
      lo := q + 1;
      from := TurnSteps();
      TurnedStart(iter.all, s, iter.pos, q, from);
      TurnedIsStarted(q, from);
    }

    lemma TurnedIsStarted(q: nat, from: nat)
      requires dir == Backward && q < |iter.all| && From(from) && from <= |iter.all| && pos == Count(iter.all, s, q)
      requires Count(iter.all, s, q) < |VisibleMap(iter.all, s)| && Count(iter.all, s, q + 1) == Count(iter.all, s, q) + 1
      requires if from < |iter.all| then Seeking(iter.all, s, dir, key, from, q + 1) else NoneShown(iter.all, s, q + 1, |iter.all|)
      ensures Started(q + 1, from)
    {
      hide Seeking, NoneShown, From, Shown, Count;
    }

    lemma CurrentBehind() returns (q: nat)
      requires Valid() && dir == Backward
      ensures Raw() && R.Weak(iter.all) && -1 <= iter.pos < q < |iter.all| && Shown(iter.all, s, q)
      ensures pos == Count(iter.all, s, q) && key == iter.all[q].ukey && forall j :: iter.pos < j < q ==> iter.all[j].sn > s
    {
      hide Shown, R.Weak, AtMostTwice, M.MergedIterator.Valid, Count;
      q :| Current(q) && Behind(q);
    }

    lemma TurnSteps() returns (from: nat)
      requires Valid() && dir == Backward && iter.pos < |iter.all|
      ensures From(from) && iter.pos < from <= iter.pos + 2 && from <= |iter.all|
    {
      hide Shown, R.Weak, AtMostTwice, M.MergedIterator.Valid, Count, FirstGE;
      var q: nat :| Current(q) && Behind(q);
      if iter.pos >= 0 {
        TwoSteps(iter.all, iter.pos);
      }
      from := M.NextFrom(iter.all, iter.dir, iter.pos) + 1;
    }

    method Prev() returns (ok: bool)
      requires Valid()
      modifies this, iter, iter.iters
      ensures Valid() && pos == PrevPos(old(pos)) && ok == On(|Map()|, pos)
    {
      hide Shown, R.Weak, AtMostTwice, Shows, M.MergedIterator.Valid;
      match dir {
        case SOI =>
          return false;
        case EOI =>
          ok := Last();
          return;
        case Forward =>
          var more := BackOff();
          RawPlace();
          if !more {
            dir, pos := SOI, -1;
            return false;
          }
        case Backward =>
          BackwardPlace();
      }
      ok := prev();
    }

    /** Back over the versions of the current key in front of it. */
    method BackOff() returns (more: bool)
      requires Raw() && iter.dir == M.Forward && iter.pos >= 0 && Current(iter.pos)
      modifies iter, iter.iters
      ensures Raw() && (if more then iter.dir == M.Backward else iter.dir == M.SOI) && Count(iter.all, s, iter.pos + 1) == pos
      ensures iter.pos < |iter.all| && (!more ==> pos == 0)
    {
      hide Current, Shown, R.Weak, AtMostTwice, Shows, M.MergedIterator.Valid, FirstGE, Count, VisibleMap;
      CurrentIsFirst();
      ghost var r0: nat := iter.pos;
      more := true;
      while true
        invariant Current(r0)
        invariant Raw() && 0 <= iter.pos <= r0 && iter.all[iter.pos].ukey == key && more
        invariant iter.dir == M.Backward || (iter.dir == M.Forward && iter.pos == r0)
        decreases iter.pos
      {
        more := OneBack();
        RawPlace();
        if !more || iter.Key().value.ukey < key {
          GoneBack(r0);
          return;
        }
        KeyAtMost(iter.all, iter.pos, r0);
      }
    }

    /** One raw step back, when a turn to it finds no copy in front. */
    method OneBack() returns (more: bool)
      requires Raw() && On(|iter.all|, iter.pos)
      requires iter.dir == M.Backward || (iter.dir == M.Forward && FirstGE(iter.all, iter.all[iter.pos]) == iter.pos)
      modifies iter, iter.iters
      ensures Raw() && iter.pos < old(iter.pos) && iter.all[iter.pos + 1].ukey == old(iter.all[iter.pos].ukey)
      ensures if more then iter.dir == M.Backward && iter.pos >= 0 else iter.dir == M.SOI
    {
      hide R.Weak, AtMostTwice, M.MergedIterator.Valid;
      RawPlace();
      more := iter.Prev();
      RawPlace();
    }

    /** What is shown has no copy in front of it. */
    lemma CurrentIsFirst()
      requires R.Weak(iter.all) && iter.pos >= 0 && Current(iter.pos)
      ensures iter.pos < |iter.all| && iter.all[iter.pos].ukey == key && FirstGE(iter.all, iter.all[iter.pos]) == iter.pos
    {
      ShownIsFirst(iter.all, s, iter.pos);
    }

    lemma GoneBack(r0: nat)
      requires -1 <= iter.pos < r0 && R.Weak(iter.all) && Current(r0)
      requires iter.pos + 1 <= r0 && iter.all[iter.pos + 1].ukey == key
      ensures Count(iter.all, s, iter.pos + 1) == pos && (iter.pos == -1 ==> pos == 0)
    {
      hide Shown, R.Weak, Shows;
      HiddenBefore(iter.all, s, iter.pos + 1, r0);
      NoneYet(iter.all, s);
    }

    lemma BackwardPlace()
      requires Valid() && dir == Backward
      ensures iter.pos < |iter.all| && Count(iter.all, s, iter.pos + 1) == pos
    {
      hide Shown, R.Weak, AtMostTwice, Shows, M.MergedIterator.Valid;
      var q: nat :| Current(q) && Behind(q);
      HiddenAbove(iter.all, s, iter.pos + 1, q);
    }
  }

  lemma KeyAtMost(es: seq<Entry>, i: nat, j: nat)
    requires R.Weak(es) && i <= j < |es|
    ensures es[i].ukey <= es[j].ukey
  {
    assert i == j || AtMost(es[i], es[j]);
  }

  /** The versions between the last smaller key and a shown entry are not visible. */
  lemma HiddenBefore(es: seq<Entry>, s: nat, a: nat, r: nat)
    requires R.Weak(es) && a <= r < |es| && Shown(es, s, r) && (a < |es| ==> es[a].ukey == es[r].ukey)
    ensures Count(es, s, a) == Count(es, s, r)
  {
    forall i | a <= i < r
      ensures !Shown(es, s, i)
    {
      KeyAtMost(es, a, i);
      KeyAtMost(es, i, r);
    }
    CountSame(es, s, a, r);
  }

  lemma HiddenAbove(es: seq<Entry>, s: nat, a: nat, q: nat)
    requires a <= q <= |es| && forall j :: a <= j < q ==> es[j].sn > s
    ensures Count(es, s, a) == Count(es, s, q)
  {
    CountSame(es, s, a, q);
  }
}
