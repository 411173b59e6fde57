/** `mergedIterator`: a cursor over the sorted union of its children, who may share entries. */
module MergedIterator {
  import opened Keys
  import opened Lookup
  import opened Cursors
  import opened MergedRuns

  datatype Dir = SOI | EOI | Backward | Forward

  function KeyAt(es: seq<Entry>, p: int): Option<Entry> {
    if On(|es|, p) then Some(es[p]) else None
  }

  /** Where `Next` goes from position `pos`. Moving backward it seeks the current key first, so it lands behind the
      first copy of that key: one position on unless the cursor is on a later copy. */
  function NextFrom(all: seq<Entry>, dir: Dir, pos: int): int {
    if dir == Backward && On(|all|, pos) then FirstGE(all, all[pos]) + 1 else NextPos(|all|, pos)
  }

  /** Where `Prev` goes. Moving forward it goes in front of all copies of the current key. */
  function PrevFrom(all: seq<Entry>, dir: Dir, pos: int): int {
    if dir == Forward && On(|all|, pos) then FirstGE(all, all[pos]) - 1 else PrevPos(pos)
  }

  /** Where no entry is shared, both go one position, whatever the direction before. */
  lemma PlainSteps(all: seq<Entry>, dir: Dir, pos: int)
    requires Sorted(all)
    ensures NextFrom(all, dir, pos) == NextPos(|all|, pos) && PrevFrom(all, dir, pos) == PrevPos(pos)
  {
    if On(|all|, pos) {
      FirstGESelf(all, pos);
    }
  }

  /** Taking the smallest of the entries at a cut moves the cut on by one. */
  lemma SmallestOn(all: seq<Entry>, runs: seq<seq<Entry>>, ps: seq<nat>, keys: seq<Option<Entry>>, index: nat)
    requires Union(all, runs) && Cut(runs, ps) && |keys| == |runs| == |ps| && index < |keys| && keys[index].Some?
    requires forall x :: 0 <= x < |keys| ==> keys[x] == KeyAt(runs[x], ps[x])
    requires forall x :: 0 <= x < |keys| && keys[x].Some? ==> AtMost(keys[index].value, keys[x].value)
    ensures ps[index] < |runs[index]|
    ensures var ps' := ps[index := ps[index] + 1]; Cut(runs, ps') && Sum(ps') == Sum(ps) + 1
  {
    UnionSorted(all, runs);
    hide Union, Cut, Sum, AtMost;
    forall y | 0 <= y < |runs| && ps[y] < |runs[y]|
      ensures AtMost(runs[index][ps[index]], runs[y][ps[y]])
    {
      assert keys[y] == Some(runs[y][ps[y]]);
    }
    CutOn(runs, ps, index, ps[index := ps[index] + 1]);
  }

  class MergedIterator {
    const iters: seq<Cursor>
    var keys: seq<Option<Entry>>
    var index: nat
    var dir: Dir

    ghost const all: seq<Entry>
    ghost var pos: int

    ghost function Runs(): seq<seq<Entry>> {
      seq(|iters|, x requires 0 <= x < |iters| => iters[x].es)
    }

    /** The cut just before the entries the children stand on. */
    ghost function Ahead(): (ps: seq<nat>)
      reads iters
      ensures |ps| == |iters|
    {
      seq(|iters|, x requires 0 <= x < |iters| reads iters => if iters[x].pos < 0 then 0 else iters[x].pos)
    }

    /** The cut just behind them. */
    ghost function Passed(): (ps: seq<nat>)
      reads iters
      ensures |ps| == |iters|
    {
      seq(|iters|, x requires 0 <= x < |iters| reads iters => if iters[x].pos < 0 then 0 else iters[x].pos + 1)
    }

    ghost predicate Children()
      reads this, iters
    {
      (forall x, y :: 0 <= x < y < |iters| ==> iters[x] != iters[y])
      && (forall x :: 0 <= x < |iters| ==> iters[x].Valid())
      && |keys| == |iters| && Union(all, Runs())
    }

    ghost predicate KeysMatch()
      reads this, iters
    {
      |keys| == |iters| && forall x :: 0 <= x < |iters| ==> keys[x] == KeyAt(iters[x].es, iters[x].pos)
    }

    /** The children are cut at position `p` of the union, and stand behind the cut. */
    ghost predicate CutFwd(p: int)
      reads iters
    {
      (forall x :: 0 <= x < |iters| ==> iters[x].pos >= 0) && Cut(Runs(), Ahead()) && Sum(Ahead()) == p
    }

    /** The children are cut behind position `p` of the union, and stand before the cut. */
    ghost predicate CutBwd(p: int)
      reads iters
    {
      (forall x :: 0 <= x < |iters| ==> -1 <= iters[x].pos < |iters[x].es|) && Cut(Runs(), Passed()) && Sum(Passed()) == p + 1
    }

    ghost predicate Smallest()
      reads this
    {
      index < |keys| && keys[index].Some? && forall x :: 0 <= x < |keys| && keys[x].Some? ==> AtMost(keys[index].value, keys[x].value)
    }

    ghost predicate Largest()
      reads this
    {
      index < |keys| && keys[index].Some? && forall x :: 0 <= x < |keys| && keys[x].Some? ==> AtMost(keys[x].value, keys[index].value)
    }

    /** `pos` is where the cursor stands in the union. */
    ghost predicate Valid()
      reads this, iters
    {
      Children() && -1 <= pos <= |all|
      && (dir == SOI <==> pos == -1) && (dir == EOI <==> pos == |all|)
      && (dir == Forward || dir == Backward ==> KeysMatch() && index < |iters| && keys[index] == Some(all[pos]))
      && (dir == Forward ==> CutFwd(pos) && Smallest())
      && (dir == Backward ==> CutBwd(pos) && Largest())
    }

    constructor (iters: seq<Cursor>, ghost all: seq<Entry>)
      requires forall x, y :: 0 <= x < y < |iters| ==> iters[x] != iters[y]
      requires forall x :: 0 <= x < |iters| ==> iters[x].Valid()
      requires Union(all, seq(|iters|, x requires 0 <= x < |iters| => iters[x].es))
      ensures Valid() && pos == -1 && this.all == all && this.iters == iters
    {
      this.iters, this.all := iters, all;
      keys := seq(|iters|, _ => None);
      index, dir, pos := 0, SOI, -1;
    }

    /** The smallest child key becomes current. */
    method next() returns (ok: bool)
      requires Children() && KeysMatch() && CutFwd(pos) && dir != Backward && (dir == Forward ==> index < |iters|)
      modifies this`index, this`dir
      ensures Valid() && ok == On(|all|, pos) && (ok ==> dir == Forward)
    {
      hide Union, CutFwd, CutBwd;
      var key := None;
      if dir == Forward {
        key := keys[index];
      }
      for x := 0 to |keys|
        invariant key.Some? ==> index < |iters| && key == keys[index]
        invariant key.None? ==> forall y :: 0 <= y < x ==> keys[y].None?
        invariant key.Some? ==> forall y :: 0 <= y < x && keys[y].Some? ==> AtMost(key.value, keys[y].value)
      {
        var tkey := keys[x];
        if tkey.Some? && (key.None? || Less(tkey.value, key.value)) {
          key := tkey;
          index := x;
        }
      }
      AtHead(key.Some?);
      if key.None? {
        dir := EOI;
        return false;
      }
      dir := Forward;
      ok := true;
    }

    /** What the smallest key of a forward cut is. */
    lemma AtHead(some: bool)
      requires Children() && KeysMatch() && CutFwd(pos)
      requires if some then Smallest() else forall y :: 0 <= y < |keys| ==> keys[y].None?
      ensures 0 <= pos <= |all| && (some <==> pos < |all|) && (some ==> keys[index] == Some(all[pos]))
    {
      hide Union, Cut, Sum;
      CutEnds(all, Runs(), Ahead());
      if some {
        forall y | 0 <= y < |Runs()| && Ahead()[y] < |Runs()[y]|
          ensures AtMost(Runs()[index][Ahead()[index]], Runs()[y][Ahead()[y]])
        {
          assert keys[y].Some?;
        }
        HeadAtCut(all, Runs(), Ahead(), index);
      } else {
        forall y | 0 <= y < |Runs()| ensures Ahead()[y] >= |Runs()[y]| {
          assert keys[y].None?;
        }
      }
    }

    /** What the largest key of a backward cut is. */
    lemma AtTail(some: bool)
      requires Children() && KeysMatch() && CutBwd(pos)
      requires if some then Largest() else forall y :: 0 <= y < |keys| ==> keys[y].None?
      ensures -1 <= pos < |all| && (some <==> 0 <= pos) && (some ==> keys[index] == Some(all[pos]))
    {
      hide Union, Cut, Sum;
      CutEnds(all, Runs(), Passed());
      if some {
        forall y | 0 <= y < |Runs()| && 0 < Passed()[y]
          ensures AtMost(Runs()[y][Passed()[y] - 1], Runs()[index][Passed()[index] - 1])
        {
          assert keys[y].Some?;
        }
        TailAtCut(all, Runs(), Passed(), index);
      } else {
        forall y | 0 <= y < |Runs()| ensures Passed()[y] == 0 {
          assert keys[y].None?;
        }
      }
    }

    /** The largest child key becomes current. */
    method prev() returns (ok: bool)
      requires Children() && KeysMatch() && CutBwd(pos) && (dir == Backward ==> index < |iters|)
      modifies this`index, this`dir
      ensures Valid() && ok == On(|all|, pos) && (ok ==> dir == Backward)
    {
      hide Union, CutFwd, CutBwd;
      var key := None;
      if dir == Backward {
        key := keys[index];
      }
      for x := 0 to |keys|
        invariant key.Some? ==> index < |iters| && key == keys[index]
        invariant key.None? ==> forall y :: 0 <= y < x ==> keys[y].None?
        invariant key.Some? ==> forall y :: 0 <= y < x && keys[y].Some? ==> AtMost(keys[y].value, key.value)
      {
        var tkey := keys[x];
        if tkey.Some? && (key.None? || Less(key.value, tkey.value)) {
          key := tkey;
          index := x;
        }
      }
      AtTail(key.Some?);
      if key.None? {
        dir := SOI;
        return false;
      }
      dir := Backward;
      ok := true;
    }

    method First() returns (ok: bool)
      requires Children()
      modifies this, iters
      ensures Valid() && pos == 0 && ok == On(|all|, pos) && (ok ==> dir == Forward)
    {
      hide Union, CutFwd, CutBwd, FirstGE, Valid;
      for x := 0 to |iters|
        invariant Children()
        invariant forall y :: 0 <= y < x ==> iters[y].pos == 0 && keys[y] == KeyAt(iters[y].es, 0)
      {
        var found := iters[x].First();
        keys := keys[x := if found then iters[x].Key() else None];
      }
      dir := SOI;
      pos := 0;
      AtStart();
      ok := next();
    }

    lemma AtStart()
      requires Children() && forall y :: 0 <= y < |iters| ==> iters[y].pos == 0
      ensures CutFwd(0)
    {
      hide Union, Cut, Sum;
      StartCut(all, Runs(), Ahead());
    }

    method Last() returns (ok: bool)
      requires Children()
      modifies this, iters
      ensures Valid() && pos == |all| - 1 && ok == On(|all|, pos) && (ok ==> dir == Backward)
    {
      hide Union, CutFwd, CutBwd, FirstGE, Valid;
      for x := 0 to |iters|
        invariant Children()
        invariant forall y :: 0 <= y < x ==> iters[y].pos == |iters[y].es| - 1 && keys[y] == KeyAt(iters[y].es, iters[y].pos)
      {
        var found := iters[x].Last();
        keys := keys[x := if found then iters[x].Key() else None];
      }
      dir := EOI;
      pos := |all| - 1;
      AtEnd();
      ok := prev();
    }

    lemma AtEnd()
      requires Children() && forall y :: 0 <= y < |iters| ==> iters[y].pos == |iters[y].es| - 1
      ensures CutBwd(|all| - 1)
    {
      hide Union, Cut, Sum;
      EndCut(all, Runs(), Passed());
    }

    method Seek(key: Entry) returns (ok: bool)
      requires Children()
      modifies this, iters
      ensures Valid() && pos == FirstGE(all, key) && ok == On(|all|, pos) && (ok ==> dir == Forward)
    {
      hide Union, CutFwd, CutBwd, FirstGE, Valid;
      for x := 0 to |iters|
        invariant Children()
        invariant forall y :: 0 <= y < x ==> iters[y].pos == FirstGE(iters[y].es, key) && keys[y] == KeyAt(iters[y].es, iters[y].pos)
      {
        var found := iters[x].Seek(key);
        keys := keys[x := if found then iters[x].Key() else None];
      }
      dir := SOI;
      pos := FirstGE(all, key);
      AtSought(key);
      ok := next();
    }

    lemma AtSought(key: Entry)
      requires Children() && forall y :: 0 <= y < |iters| ==> iters[y].pos == FirstGE(iters[y].es, key)
      ensures CutFwd(FirstGE(all, key))
    {
      hide Union, Cut, Sum, FirstGE;
      SeekCut(all, Runs(), Ahead(), key);
    }

    /** The key of any entry of the union is met again by seeking it. */
    lemma SeekSelf()
      requires On(|all|, pos)
      ensures FirstGE(all, all[pos]) <= pos
    {
    }

    method Next() returns (ok: bool)
      requires Valid()
      modifies this, iters
      ensures Valid() && pos == NextFrom(all, old(dir), old(pos)) && ok == On(|all|, pos) && (ok ==> dir == Forward)
      decreases if dir == Backward then 1 else 0
    {
      hide Union, CutFwd, CutBwd, FirstGE;
      if dir == EOI {
        return false;
      } else if dir == SOI {
        ok := First();
        return;
      } else if dir == Backward {
        SeekSelf();
        var found := Seek(keys[index].value);
        if !found {
          return false;
        }
        ok := Next();
        return;
      }
      AdvanceAll();
      ok := StepForward();
    }

    /** Stepping the current child forward moves the cut on by one. */
    lemma AdvanceAll()
      requires Valid() && dir == Forward
      ensures 0 <= iters[index].pos < |iters[index].es|
      ensures var ps := Ahead()[index := iters[index].pos + 1]; Cut(Runs(), ps) && Sum(ps) == pos + 1
    {
      hide Union, Cut, Sum;
      forall x | 0 <= x < |iters| ensures keys[x] == KeyAt(Runs()[x], Ahead()[x]) {
        assert KeysMatch();
      }
      SmallestOn(all, Runs(), Ahead(), keys, index);
    }

    method StepForward() returns (ok: bool)
      requires Children() && KeysMatch() && CutFwd(pos) && dir == Forward && 0 <= pos < |all| && index < |iters|
      requires 0 <= iters[index].pos < |iters[index].es|
      requires var ps := Ahead()[index := iters[index].pos + 1]; Cut(Runs(), ps) && Sum(ps) == pos + 1
      modifies this, iters
      ensures Valid() && pos == old(pos) + 1 && ok == On(|all|, pos) && (ok ==> dir == Forward)
    {
      hide Union, Valid, Cut, Sum;
      ghost var ps := Ahead()[index := iters[index].pos + 1];
      var found := iters[index].Next();
      keys := keys[index := if found then iters[index].Key() else None];
      pos := pos + 1;
      assert Ahead() == ps;
      ok := next();
    }

    method Prev() returns (ok: bool)
      requires Valid()
      modifies this, iters
      ensures Valid() && pos == PrevFrom(all, old(dir), old(pos)) && ok == On(|all|, pos) && (ok ==> dir == Backward)
    {
      hide Union, CutFwd, CutBwd, FirstGE;
      if dir == SOI {
        return false;
      } else if dir == EOI {
        ok := Last();
        return;
      } else if dir == Forward {
        TurnRound();
        ok := StepBack(FirstGE(all, all[pos]));
      } else {
        RetreatAll();
        ok := StepBack(pos);
      }
    }

    /** Stepping the current child back moves the cut back by one. */
    lemma RetreatAll()
      requires Valid() && dir == Backward
      ensures 0 <= iters[index].pos < |iters[index].es|
      ensures forall x :: 0 <= x < |iters| ==> iters[x].pos < |iters[x].es|
      ensures var ps := Passed()[index := iters[index].pos]; Cut(Runs(), ps) && Sum(ps) == pos
    {
      UnionSorted(all, Runs());
      hide Union, Cut, Sum;
      assert KeysMatch();
      forall y | 0 <= y < |Runs()| && 0 < Passed()[y]
        ensures AtMost(Runs()[y][Passed()[y] - 1], Runs()[index][Passed()[index] - 1])
      {
        assert keys[y].Some?;
      }
      CutBack(Runs(), Passed(), index, Passed()[index := iters[index].pos]);
    }

    method StepChild()
      requires Children() && KeysMatch() && index < |iters| && 0 <= iters[index].pos < |iters[index].es|
      modifies this`keys, iters[index]
      ensures Children() && KeysMatch() && iters[index].pos == old(iters[index].pos) - 1
    {
      hide Union;
      var found := iters[index].Prev();
      keys := keys[index := if found then iters[index].Key() else None];
    }

    /** The current child steps back; then all children are cut before position `c`. */
    method StepBack(ghost c: nat) returns (ok: bool)
      requires Children() && KeysMatch() && (dir == Forward || dir == Backward) && index < |iters|
      requires 0 <= iters[index].pos < |iters[index].es| && forall x :: 0 <= x < |iters| ==> iters[x].pos < |iters[x].es|
      requires var ps := Passed()[index := iters[index].pos]; Cut(Runs(), ps) && Sum(ps) == c
      modifies this, iters
      ensures Valid() && pos == c - 1 && ok == On(|all|, pos) && (ok ==> dir == Backward)
    {
      hide Union, Valid, Cut, Sum, Smallest, Largest;
      ghost var ps := Passed()[index := iters[index].pos];
      StepChild();
      pos := c - 1;
      assert Passed() == ps;
      ok := prev();
    }

    /** `Prev` while moving forward: every other child is first repositioned just before the current key. */
    method TurnRound()
      requires Valid() && dir == Forward
      modifies this`keys, iters
      ensures Children() && KeysMatch() && 0 <= iters[index].pos < |iters[index].es|
      ensures forall x :: 0 <= x < |iters| ==> iters[x].pos < |iters[x].es|
      ensures var ps := Passed()[index := iters[index].pos]; Cut(Runs(), ps) && Sum(ps) == FirstGE(all, all[pos])
    {
      hide Union, CutFwd, CutBwd, FirstGE, Valid, Cut, Sum, Less, KeyAt;
      CurrentPlace();
      var key := keys[index].value;
      for x := 0 to |iters|
        invariant Children() && KeysMatch()
        invariant iters[index].pos == old(iters[index].pos)
        invariant forall y :: 0 <= y < x && y != index ==> iters[y].pos == FirstGE(iters[y].es, key) - 1
      {
        if x == index {
          continue;
        }
        Reposition(x, key);
      }
      Turned(key);
    }

    /** The current child stands where seeking the current key in it leads. */
    lemma CurrentPlace()
      requires Valid() && dir == Forward
      ensures Children() && KeysMatch() && index < |iters| && On(|all|, pos)
      ensures 0 <= iters[index].pos < |iters[index].es| && iters[index].pos == FirstGE(iters[index].es, all[pos]) && keys[index] == Some(all[pos])
    {
      UnionSorted(all, Runs());
      hide Union, CutFwd, CutBwd;
      var es := iters[index].es;
      assert KeysMatch();
      assert Sorted(Runs()[index]) && es == Runs()[index];
      FirstGESelf(es, iters[index].pos);
    }

    lemma Turned(key: Entry)
      requires Children() && index < |iters| && 0 <= iters[index].pos < |iters[index].es|
      requires forall y :: 0 <= y < |iters| ==> iters[y].pos == FirstGE(iters[y].es, key) - if y == index then 0 else 1
      ensures var ps := Passed()[index := iters[index].pos]; Cut(Runs(), ps) && Sum(ps) == FirstGE(all, key)
    {
      hide Union, Cut, Sum, FirstGE;
      SeekCut(all, Runs(), Passed()[index := iters[index].pos], key);
    }

    method Reposition(x: nat, key: Entry)
      requires Children() && KeysMatch() && x < |iters|
      modifies this`keys, iters[x]
      ensures Children() && KeysMatch() && iters[x].pos == FirstGE(iters[x].es, key) - 1
    {
      hide Union, FirstGE;
      var seek := iters[x].Seek(key);
      var found;
      if seek {
        found := iters[x].Prev();
      } else {
        found := iters[x].Last();
      }
      keys := keys[x := if found then iters[x].Key() else None];
    }

    function Key(): Option<Entry>
      requires Valid()
      reads this, iters
      ensures Key() == KeyAt(all, pos)
    {
      if dir == Forward || dir == Backward then keys[index] else None
    }
  }
}
