/** `indexedIterator`: a cursor over the concatenation of runs found through an index. */
module IndexedIterator {
  import opened Keys
  import opened Lookup
  import opened Cursors

  /** How many entries come before run `i`. */
  ghost function Offset(runs: seq<seq<Entry>>, i: nat): nat
    requires i <= |runs|
  {
    if i == 0 then 0 else Offset(runs, i - 1) + |runs[i - 1]|
  }

  lemma {:induction false} OffsetPrefix(runs: seq<seq<Entry>>, n: nat, i: nat)
    requires i <= n <= |runs|
    ensures Offset(runs[..n], i) == Offset(runs, i)
  {
    if i > 0 {
      OffsetPrefix(runs, n, i - 1);
    }
  }

  lemma {:induction false} ConcatLen(runs: seq<seq<Entry>>)
    ensures |Concat(runs)| == Offset(runs, |runs|)
  {
    if runs != [] {
      ConcatLen(runs[..|runs| - 1]);
      OffsetPrefix(runs, |runs| - 1, |runs| - 1);
    }
  }

  /** Entry `j` of run `i` is entry `Offset(i) + j` of the concatenation. */
  lemma {:induction false} ConcatAt(runs: seq<seq<Entry>>, i: nat, j: nat)
    requires i < |runs| && j < |runs[i]|
    ensures Offset(runs, i) + j < |Concat(runs)| && Concat(runs)[Offset(runs, i) + j] == runs[i][j]
  {
    var n := |runs| - 1;
    ConcatLen(runs[..n]);
    OffsetPrefix(runs, n, n);
    if i < n {
      OffsetPrefix(runs, n, i);
      ConcatAt(runs[..n], i, j);
    }
  }

  /** Every position of the concatenation lies in some run. */
  lemma {:induction false} RunOf(runs: seq<seq<Entry>>, n: nat, m: nat) returns (i: nat, j: nat)
    requires n <= |runs| && m < Offset(runs, n)
    ensures i < n && j < |runs[i]| && m == Offset(runs, i) + j
  {
    if m < Offset(runs, n - 1) {
      i, j := RunOf(runs, n - 1, m);
    } else {
      i, j := n - 1, m - Offset(runs, n - 1);
    }
  }

  lemma {:induction false} OffsetMonotone(runs: seq<seq<Entry>>, i: nat, k: nat)
    requires i <= k <= |runs|
    ensures Offset(runs, i) <= Offset(runs, k)
  {
    if i < k {
      OffsetMonotone(runs, i, k - 1);
    }
  }

  /** `sep[i]` is at or after every entry of run `i` and before every entry of the next run. */
  ghost predicate Separates(sep: seq<Entry>, runs: seq<seq<Entry>>) {
    |sep| == |runs| && Sorted(sep) && Sorted(Concat(runs))
    && (forall i, j :: 0 <= i < |runs| && 0 <= j < |runs[i]| ==> AtMost(runs[i][j], sep[i]))
    && (forall i, j :: 0 < i < |runs| && 0 <= j < |runs[i]| ==> Less(sep[i - 1], runs[i][j]))
  }

  /** Seeking through the index lands where a seek in the concatenation would. */
  lemma SeekThroughIndex(sep: seq<Entry>, runs: seq<seq<Entry>>, key: Entry)
    requires Separates(sep, runs)
    ensures var i := FirstGE(sep, key);
            FirstGE(Concat(runs), key) ==
            if i == |sep| then |Concat(runs)| else Offset(runs, i) + FirstGE(runs[i], key)
  {
    var i, all := FirstGE(sep, key), Concat(runs);
    var target := if i == |sep| then |all| else Offset(runs, i) + FirstGE(runs[i], key);
    hide Separates, Concat, Offset;
    TargetInside(sep, runs, key);
    forall m | 0 <= m < |all|
      ensures Less(all[m], key) <==> m < target
    {
      var r, j := RunOf(runs, |runs|, m);
      ConcatAt(runs, r, j);
      BeforeTarget(sep, runs, key, r, j);
    }
    var p := FirstGE(all, key);
    assert p < |all| ==> !Less(all[p], key);
    assert target < |all| ==> !Less(all[target], key);
  }

  lemma TargetInside(sep: seq<Entry>, runs: seq<seq<Entry>>, key: Entry)
    requires Separates(sep, runs)
    ensures |sep| == |runs| && Offset(runs, |runs|) == |Concat(runs)|
    ensures var i := FirstGE(sep, key); i < |sep| ==> Offset(runs, i) + |runs[i]| == Offset(runs, i + 1) <= |Concat(runs)|
  {
    var i := FirstGE(sep, key);
    ConcatLen(runs);
    OffsetMonotone(runs, if i == |sep| then |sep| else i + 1, |runs|);
  }

  lemma BeforeTarget(sep: seq<Entry>, runs: seq<seq<Entry>>, key: Entry, r: nat, j: nat)
    requires Separates(sep, runs) && r < |runs| && j < |runs[r]|
    ensures var i := FirstGE(sep, key);
            Less(runs[r][j], key) <==> r < i || (r == i && j < FirstGE(runs[i], key))
    ensures var i := FirstGE(sep, key);
            (r < i ==> Offset(runs, r) + j < Offset(runs, i)) && (i < r ==> Offset(runs, r) >= Offset(runs, i + 1))
  {
    var i := FirstGE(sep, key);
    if r < i {
      OffsetMonotone(runs, r + 1, i);
    } else if i < r {
      OffsetMonotone(runs, i + 1, r);
      assert i == r - 1 || Less(sep[i], sep[r - 1]);
    } else {
      SortedRun(runs, r);
      var p := FirstGE(runs[i], key);
      assert p < j ==> Less(runs[i][p], runs[i][j]);
    }
  }

  lemma SortedRun(runs: seq<seq<Entry>>, r: nat)
    requires Sorted(Concat(runs)) && r < |runs|
    ensures Sorted(runs[r])
  {
    forall a, b | 0 <= a < b < |runs[r]|
      ensures Less(runs[r][a], runs[r][b])
    {
      ConcatAt(runs, r, a);
      ConcatAt(runs, r, b);
    }
  }

  class IndexedIterator {
    const sep: seq<Entry>
    const runs: seq<seq<Entry>>
    var ipos: int
    var data: Cursor?

    ghost var pos: int

    ghost function All(): seq<Entry> { Concat(runs) }

    /** The data iterator, if any, walks the run the index stands on. */
    ghost predicate Shape()
      reads this, data
    {
      Separates(sep, runs) && -1 <= ipos <= |runs|
      && (data != null ==> 0 <= ipos < |runs| && data.es == runs[ipos] && data.Valid())
    }

    /** The entry a step forward reaches. */
    ghost function Following(): nat
      requires Shape()
      reads this, data
    {
      if data == null then (if ipos < |runs| then Offset(runs, ipos + 1) else Offset(runs, ipos))
      else Offset(runs, ipos) + if data.pos < |data.es| then data.pos + 1 else data.pos
    }

    /** The entry a step back reaches. */
    ghost function Preceding(): int
      requires Shape()
      reads this, data
    {
      if data == null then Offset(runs, if ipos < 0 then 0 else ipos) - 1
      else Offset(runs, ipos) + if data.pos >= 0 then data.pos - 1 else data.pos
    }

    ghost predicate Valid()
      reads this, data
    {
      Shape() && -1 <= pos <= |All()|
      && if data != null then On(|data.es|, data.pos) && pos == Offset(runs, ipos) + data.pos
         else (ipos == -1 && (pos == -1 || All() == [])) || (ipos == |runs| && (pos == |All()| || All() == []))
    }

    constructor (sep: seq<Entry>, runs: seq<seq<Entry>>)
      requires Separates(sep, runs)
      ensures Valid() && pos == -1 && this.runs == runs && this.sep == sep
    {
      this.sep, this.runs := sep, runs;
      ipos, data, pos := -1, null, -1;
    }

    /** `index.Get`: a fresh data iterator over the current run. */
    method SetData()
      requires 0 <= ipos < |runs|
      modifies this`data
      ensures data != null && fresh(data) && data.es == runs[ipos] && data.pos == -1
    {
      data := new Cursor(runs[ipos]);
    }

    lemma Here()
      requires Shape() && data != null && On(|data.es|, data.pos)
      ensures Offset(runs, ipos) + data.pos < |All()| && All()[Offset(runs, ipos) + data.pos] == data.es[data.pos]
    {
      ConcatAt(runs, ipos, data.pos);
    }

    lemma Ends()
      ensures |All()| == Offset(runs, |runs|)
      ensures Shape() ==> |sep| == |runs|
    {
      ConcatLen(runs);
    }

    method First() returns (ok: bool)
      requires Shape()
      modifies this, data
      ensures Valid() && pos == 0 && ok == On(|All()|, pos)
    {
      Ends();
      if |runs| == 0 {
        ipos, data, pos := -1, null, 0;
        return false;
      }
      ipos := 0;
      SetData();
      ok := Next();
    }

    method Last() returns (ok: bool)
      requires Shape()
      modifies this, data
      ensures Valid() && pos == |All()| - 1 && ok == On(|All()|, pos)
    {
      Ends();
      if |runs| == 0 {
        ipos, data, pos := 0, null, -1;
        return false;
      }
      ipos := |runs| - 1;
      SetData();
      ok := data.Last();
      if !ok {
        data := null;
        ok := Prev();
        return;
      }
      pos := Offset(runs, ipos) + data.pos;
    }

    method Seek(key: Entry) returns (ok: bool)
      requires Shape()
      modifies this, data
      ensures Valid() && pos == FirstGE(All(), key) && ok == On(|All()|, pos)
    {
      hide Separates, Concat;
      Ends();
      SeekThroughIndex(sep, runs, key);
      ipos := FirstGE(sep, key);
      if ipos == |sep| {
        data, pos := null, |All()|;
        return false;
      }
      SetData();
      ok := data.Seek(key);
      if !ok {
        data := null;
        ok := Next();
        return;
      }
      Here();
      pos := Offset(runs, ipos) + data.pos;
    }

    /** `Next`, also used to move on from a run that is used up or not yet begun. */
    method Next() returns (ok: bool)
      requires Shape()
      modifies this, data
      ensures Valid() && pos == old(Following()) && ok == On(|All()|, pos)
      ensures old(Valid() && All() != []) ==> pos == NextPos(|All()|, old(pos))
      decreases |runs| - ipos
    {
      hide Separates, Concat;
      Ends();
      if data != null {
        var more := data.Next();
        if more {
          Here();
          pos := Offset(runs, ipos) + data.pos;
          return true;
        }
        data := null;
      }
      if ipos >= |runs| - 1 {
        ipos, pos := |runs|, |All()|;
        return false;
      }
      ipos := ipos + 1;
      SetData();
      ok := Next();
    }

    method Prev() returns (ok: bool)
      requires Shape()
      modifies this, data
      ensures Valid() && pos == old(Preceding()) && ok == On(|All()|, pos)
      ensures old(Valid() && All() != []) ==> pos == PrevPos(old(pos))
      decreases ipos
    {
      hide Separates, Concat;
      Ends();
      if data != null {
        var more := data.Prev();
        if more {
          Here();
          pos := Offset(runs, ipos) + data.pos;
          return true;
        }
        data := null;
      }
      if ipos <= 0 {
        ipos, pos := -1, -1;
        return false;
      }
      ipos := ipos - 1;
      SetData();
      ok := data.Last();
      if !ok {
        data := null;
        ok := Prev();
        return;
      }
      Here();
      pos := Offset(runs, ipos) + data.pos;
    }

    function Key(): Option<Entry>
      requires Valid()
      reads this, data
    {
      if data == null then None else data.Key()
    }

    /** The key shown is the one of the concatenation at the cursor. */
    lemma KeyIsCurrent()
      requires Valid()
      ensures Key() == if On(|All()|, pos) then Some(All()[pos]) else None
    {
      Ends();
      if data != null {
        Here();
      }
    }
  }
}
