/** The memdb's own iterator: a cursor over the stretch of the memdb that its slice leaves. */
module MemIter {
  import opened Keys
  import opened InternalKeys
  import opened SkipList
  import opened MemDb
  import C = Cursors

  /** Where the slice starts and ends among the entries. */
  ghost function Lo(cmp: Cmp, es: seq<KV>, start: Option<Bytes>): (a: nat)
    ensures a <= |es|
  {
    if start.Some? then Rank(cmp, es, start.value) else 0
  }

  ghost function Hi(cmp: Cmp, es: seq<KV>, start: Option<Bytes>, limit: Option<Bytes>): (b: nat)
    ensures Lo(cmp, es, start) <= b <= |es|
  {
    var a, b := Lo(cmp, es, start), if limit.Some? then Rank(cmp, es, limit.value) else |es|;
    if b < a then a else b
  }

  /** On which side of the slice's ends an entry lies. */
  lemma SliceSides(cmp: Cmp, es: seq<KV>, start: Option<Bytes>, limit: Option<Bytes>, g: nat)
    requires TotalOrder(cmp) && Ascending(cmp, es) && g < |es|
    ensures start.Some? ==> (cmp(es[g].key, start.value) < 0 <==> g < Lo(cmp, es, start))
    ensures limit.Some? && Lo(cmp, es, start) <= g ==> (cmp(es[g].key, limit.value) >= 0 <==> g >= Hi(cmp, es, start, limit))
    ensures limit.None? ==> g < Hi(cmp, es, start, limit) || g < Lo(cmp, es, start)
  {
    hide Rank, Ascending, TotalOrder;
    if start.Some? {
      RankSide(cmp, es, start.value, g);
    }
    if limit.Some? {
      RankSide(cmp, es, limit.value, g);
    }
  }

  /** A smaller key has no larger rank. */
  lemma RankMonotone(cmp: Cmp, es: seq<KV>, a: Bytes, b: Bytes)
    requires TotalOrder(cmp) && Ascending(cmp, es) && cmp(a, b) <= 0
    ensures Rank(cmp, es, a) <= Rank(cmp, es, b)
  {
    var p, q := Rank(cmp, es, a), Rank(cmp, es, b);
    if q < p {
      hide TotalOrder;
      Below(cmp, es[q].key, a, b);
    }
  }

  lemma Below(cmp: Cmp, k: Bytes, a: Bytes, b: Bytes)
    requires TotalOrder(cmp) && cmp(k, a) < 0 && cmp(a, b) <= 0
    ensures cmp(k, b) < 0
  {
    assert cmp(a, b) == 0 ==> a == b;
  }

  /** The rank of a key splits any stretch of the entries. */
  lemma Split(cmp: Cmp, es: seq<KV>, a: nat, b: nat, target: Bytes)
    requires TotalOrder(cmp) && Ascending(cmp, es) && a <= b <= |es|
    ensures forall x :: 0 <= x < b - a ==> (cmp(es[a..b][x].key, target) < 0 <==> a + x < Rank(cmp, es, target))
  {
    hide Rank, TotalOrder, Ascending;
    forall x: nat | x < b - a
      ensures cmp(es[a..b][x].key, target) < 0 <==> a + x < Rank(cmp, es, target)
    {
      RankSide(cmp, es, target, a + x);
    }
  }

  /** `memdb.dbIter`. */
  class Iter {
    const p: DB
    const start: Option<Bytes>
    const limit: Option<Bytes>
    var node: int
    var forward: bool
    var key: Bytes
    var value: Bytes

    ghost function Run(): seq<KV>
      reads p
    {
      p.entries[Lo(p.cmp, p.entries, start)..Hi(p.cmp, p.entries, start, limit)]
    }

    /** The node stands for entry `g` of the slice. */
    ghost predicate At(g: nat)
      reads this, p
    {
      Lo(p.cmp, p.entries, start) <= g < Hi(p.cmp, p.entries, start, limit) && |p.nodes| == |p.entries|
      && node == Start(p.nodes, g) && p.entries[g] == KV(key, value)
    }

    ghost predicate Valid()
      reads this, p
    {
      p.Valid() && (node != 0 ==> At(Rank(p.cmp, p.entries, key)))
    }

    /** Off either end the direction tells which. */
    ghost function Pos(): int
      reads this, p
    {
      if node != 0 then Rank(p.cmp, p.entries, key) - Lo(p.cmp, p.entries, start)
      else if forward then |Run()| else -1
    }

    constructor (p: DB, start: Option<Bytes>, limit: Option<Bytes>)
      requires p.Valid()
      ensures Valid() && Pos() == -1 && this.p == p && this.start == start && this.limit == limit
    {
      this.p, this.start, this.limit := p, start, limit;
      node, forward, key, value := 0, false, [], [];
    }

    /** `fill`: takes in the entry of the node, unless it is past the end that is checked. */
    method fill(checkStart: bool, checkLimit: bool, ghost g: int) returns (ok: bool)
      requires p.Valid() && |p.nodes| == |p.entries| && -1 <= g <= |p.entries| && node == Start(p.nodes, g)
      requires if forward then checkLimit && !checkStart && Lo(p.cmp, p.entries, start) <= g
               else checkStart && !checkLimit && (g < Hi(p.cmp, p.entries, start, limit) || g < Lo(p.cmp, p.entries, start))
      modifies this`node, this`key, this`value
      ensures Valid() && ok == C.On(|Run()|, Pos())
      ensures Pos() == if Lo(p.cmp, p.entries, start) <= g < Hi(p.cmp, p.entries, start, limit) then g - Lo(p.cmp, p.entries, start)
                       else if forward then |Run()| else -1
    {
      hide Rank, Ascending, TotalOrder, Lo, Hi, DB.Valid, Valid, At, Pos, Run, C.On;
      p.StartIsZero(g);
      Ordered();
      if node != 0 {
        p.EntryAt(g);
        SliceSides(p.cmp, p.entries, start, limit, g);
        AtOwnRank(p.cmp, p.entries, p.entries[g].key, g);
        var n := p.nodeData[node];
        var m := n + p.nodeData[node + N_KEY];
        key := p.kvData[n..m];
        if (checkLimit && limit.Some? && p.cmp(key, limit.value) >= 0)
           || (checkStart && start.Some? && p.cmp(key, start.value) < 0) {
          node := 0;
        } else {
          NoStart(g);
          value := p.kvData[m..m + p.nodeData[node + N_VAL]];
          OnEntry(g);
          return true;
        }
      }
      key, value := [], [];
      OffEnd();
      return false;
    }

    lemma OnEntry(g: nat)
      requires p.Valid() && |p.nodes| == |p.entries| && Lo(p.cmp, p.entries, start) <= g < Hi(p.cmp, p.entries, start, limit)
      requires node != 0 && node == Start(p.nodes, g) && p.entries[g] == KV(key, value) && Rank(p.cmp, p.entries, key) == g
      ensures Valid() && Pos() == g - Lo(p.cmp, p.entries, start) && C.On(|Run()|, Pos())
    {
      hide DB.Valid, Rank, Lo, Hi;
    }

    lemma OffEnd()
      requires p.Valid() && node == 0
      ensures Valid() && Pos() == (if forward then |Run()| else -1) && !C.On(|Run()|, Pos())
    {
      hide DB.Valid, Run;
    }

    lemma Parts()
      requires Valid()
      ensures p.Valid()
    {
    }

    lemma Ordered()
      requires p.Valid()
      ensures TotalOrder(p.cmp) && Ascending(p.cmp, p.entries)
    {
    }

    /** Without a start nothing is before the slice. */
    lemma NoStart(g: nat)
      ensures start.None? ==> Lo(p.cmp, p.entries, start) <= g
    {
    }

    method First() returns (ok: bool)
      requires Valid()
      modifies this, p`prevNode
      ensures Valid() && Pos() == 0 && ok == C.On(|Run()|, Pos())
    {
      hide Rank, DB.Valid;
      forward := true;
      p.Sizes();
      if start.Some? {
        var exact;
        node, exact := p.findGE(start.value, false);
      } else {
        FirstNode();
        node := p.nodeData[N_NEXT];
      }
      ok := fill(false, true, Lo(p.cmp, p.entries, start));
    }

    lemma FirstNode()
      requires p.Valid()
      ensures |p.nodes| == |p.entries| && 0 <= N_NEXT < |p.nodeData| && p.nodeData[N_NEXT] == Start(p.nodes, 0)
    {
      Following(-1);
    }

    /** The link on the ground level leads to the next node. */
    lemma Following(g: int)
      requires p.Valid() && -1 <= g < |p.entries|
      ensures |p.nodes| == |p.entries| && 0 <= Start(p.nodes, g) + N_NEXT < |p.nodeData|
      ensures p.nodeData[Start(p.nodes, g) + N_NEXT] == Start(p.nodes, g + 1)
    {
      hide DB.Valid, HeightAt, NextIdx, Start, Rank, Stores, Ascending;
      p.Sizes();
      Tall(g);
      p.GroundLevel(g);
      p.Successor(g, 0, []);
    }

    lemma Tall(g: int)
      requires p.Valid() && |p.nodes| == |p.hs| == |p.entries| && -1 <= g < |p.entries|
      ensures 0 < HeightAt(p.hs, g)
    {
    }

    method Last() returns (ok: bool)
      requires Valid()
      modifies this
      ensures Valid() && Pos() == |Run()| - 1 && ok == C.On(|Run()|, Pos())
    {
      hide Rank, DB.Valid;
      forward := false;
      p.Sizes();
      ghost var g := (if limit.Some? then Rank(p.cmp, p.entries, limit.value) else |p.entries|) - 1;
      if limit.Some? {
        node := p.findLT(limit.value);
      } else {
        node := p.findLast();
      }
      ok := fill(true, false, g);
    }

    /** The cursor is behind all entries of the slice with smaller keys and in front of all others. */
    ghost predicate Splits(target: Bytes)
      reads this, p
    {
      0 <= Pos() <= |Run()|
      && (forall x :: 0 <= x < Pos() ==> p.cmp(Run()[x].key, target) < 0)
      && forall x :: Pos() <= x < |Run()| ==> p.cmp(Run()[x].key, target) >= 0
    }

    method Seek(target: Bytes) returns (ok: bool)
      requires Valid()
      modifies this, p`prevNode
      ensures Valid() && ok == C.On(|Run()|, Pos()) && Splits(target)
    {
      hide *;
      Parts();
      forward := true;
      p.Sizes();
      Ordered();
      var k := target;
      if start.Some? && p.cmp(k, start.value) < 0 {
        k := start.value;
      }
      SoughtRank(target, k);
      ghost var g := Rank(p.cmp, p.entries, k);
      var exact;
      node, exact := p.findGE(k, false);
      ok := fill(false, true, g);
      Sought(target, g);
    }

    /** Where seeking leaves the cursor. */
    lemma Sought(target: Bytes, r: nat)
      requires TotalOrder(p.cmp) && Ascending(p.cmp, p.entries)
      requires var t, a := Rank(p.cmp, p.entries, target), Lo(p.cmp, p.entries, start); r == if t < a then a else t
      requires Pos() == if Lo(p.cmp, p.entries, start) <= r < Hi(p.cmp, p.entries, start, limit) then r - Lo(p.cmp, p.entries, start) else |Run()|
      ensures Splits(target)
    {
      hide Rank, TotalOrder, Ascending, Lo, Hi, Pos;
      Split(p.cmp, p.entries, Lo(p.cmp, p.entries, start), Hi(p.cmp, p.entries, start, limit), target);
    }

    /** Seeking from the start of the slice at the earliest. */
    lemma SoughtRank(target: Bytes, k: Bytes)
      requires TotalOrder(p.cmp) && Ascending(p.cmp, p.entries)
      requires k == if start.Some? && p.cmp(target, start.value) < 0 then start.value else target
      ensures var t, a := Rank(p.cmp, p.entries, target), Lo(p.cmp, p.entries, start);
              Rank(p.cmp, p.entries, k) == if t < a then a else t
    {
      hide Rank, Ascending;
      if start.Some? {
        if p.cmp(target, start.value) < 0 {
          RankMonotone(p.cmp, p.entries, target, start.value);
        } else {
          RankMonotone(p.cmp, p.entries, start.value, target);
        }
      }
    }

    method Next() returns (ok: bool)
      requires Valid()
      modifies this, p`prevNode
      ensures Valid() && Pos() == C.NextPos(|Run()|, old(Pos())) && ok == C.On(|Run()|, Pos())
    {
      hide Rank, DB.Valid;
      if node == 0 {
        if !forward {
          ok := First();
          return;
        }
        return false;
      }
      ghost var g := Rank(p.cmp, p.entries, key);
      forward := true;
      Following(g);
      node := p.nodeData[node + N_NEXT];
      ok := fill(false, true, g + 1);
    }

    method Prev() returns (ok: bool)
      requires Valid()
      modifies this
      ensures Valid() && Pos() == C.PrevPos(old(Pos())) && ok == C.On(|Run()|, Pos())
    {
      hide Rank, DB.Valid;
      if node == 0 {
        if forward {
          ok := Last();
          return;
        }
        return false;
      }
      ghost var g: int := Rank(p.cmp, p.entries, key);
      forward := false;
      node := p.findLT(key);
      ok := fill(true, false, g - 1);
    }

    /** What is shown is the entry at the cursor. */
    lemma Shows()
      requires Valid()
      ensures if node != 0 then C.On(|Run()|, Pos()) && Run()[Pos()] == KV(key, value) else !C.On(|Run()|, Pos())
    {
      hide Rank, DB.Valid;
    }
  }
}
