/** The links of a skip list, over the list of node heights alone. */
module SkipList {

  const MAX_HEIGHT: nat := 12

  /** Height of node `i`; index -1 is the head, which has every level. */
  ghost function HeightAt(hs: seq<nat>, i: int): nat
    requires -1 <= i < |hs|
  {
    if i < 0 then MAX_HEIGHT else hs[i]
  }

  /** The next node after `i` that reaches level `l`, or the end. */
  ghost function NextIdx(hs: seq<nat>, i: int, l: nat): (j: int)
    requires -1 <= i <= |hs|
    ensures i < j
    ensures i < |hs| ==> j <= |hs|
    ensures j < |hs| ==> hs[j] > l
    ensures forall m :: i < m < j && m < |hs| ==> hs[m] <= l
    decreases |hs| - i
  {
    if i + 1 >= |hs| then i + 1
    else if hs[i + 1] > l then i + 1
    else NextIdx(hs, i + 1, l)
  }

  /** Two searches that agree on where level `l` begins again agree. */
  lemma NextUnique(hs: seq<nat>, i: int, l: nat, j: int)
    requires -1 <= i < j <= |hs|
    requires j < |hs| ==> hs[j] > l
    requires forall m :: i < m < j ==> hs[m] <= l
    ensures NextIdx(hs, i, l) == j
  {
  }

  ghost function Inserted(hs: seq<nat>, g: nat, h: nat): seq<nat>
    requires g <= |hs|
  {
    hs[..g] + [h] + hs[g..]
  }

  ghost function Removed(hs: seq<nat>, g: nat): seq<nat>
    requires g < |hs|
  {
    hs[..g] + hs[g + 1..]
  }

  /** Links after inserting a node of height `h` at `g`. */
  lemma InsertBefore(hs: seq<nat>, g: nat, h: nat, i: int, l: nat)
    requires g <= |hs| && -1 <= i < g
    ensures var j := NextIdx(hs, i, l);
            NextIdx(Inserted(hs, g, h), i, l) == if j < g then j else if h > l then g else j + 1
  {
    var j, hs' := NextIdx(hs, i, l), Inserted(hs, g, h);
    forall m | 0 <= m <= |hs|
      ensures hs'[m] == if m < g then hs[m] else if m == g then h else hs[m - 1]
    {
    }
    NextUnique(hs', i, l, if j < g then j else if h > l then g else j + 1);
  }

  lemma InsertAfter(hs: seq<nat>, g: nat, h: nat, i: int, l: nat)
    requires g <= |hs| && g - 1 <= i < |hs|
    ensures NextIdx(Inserted(hs, g, h), i + 1, l) == NextIdx(hs, i, l) + 1
  {
    var j, hs' := NextIdx(hs, i, l), Inserted(hs, g, h);
    forall m | g < m <= |hs|
      ensures hs'[m] == hs[m - 1]
    {
    }
    NextUnique(hs', i + 1, l, j + 1);
  }

  /** Links after removing node `g`. */
  lemma RemoveBefore(hs: seq<nat>, g: nat, i: int, l: nat)
    requires g < |hs| && -1 <= i < g
    ensures var j := NextIdx(hs, i, l);
            NextIdx(Removed(hs, g), i, l) == if j < g then j else if j == g then NextIdx(hs, g, l) - 1 else j - 1
  {
    var j, hs' := NextIdx(hs, i, l), Removed(hs, g);
    forall m | 0 <= m < |hs| - 1
      ensures hs'[m] == if m < g then hs[m] else hs[m + 1]
    {
    }
    var k := NextIdx(hs, g, l);
    NextUnique(hs', i, l, if j < g then j else if j == g then k - 1 else j - 1);
  }

  lemma RemoveAfter(hs: seq<nat>, g: nat, i: int, l: nat)
    requires g < |hs| && g < i < |hs|
    ensures NextIdx(Removed(hs, g), i - 1, l) == NextIdx(hs, i, l) - 1
  {
    var j, hs' := NextIdx(hs, i, l), Removed(hs, g);
    forall m | g <= m < |hs| - 1
      ensures hs'[m] == hs[m + 1]
    {
    }
    NextUnique(hs', i - 1, l, j - 1);
  }

  /** `p` is the last node before `g` that reaches level `l`. */
  ghost predicate IsPrev(hs: seq<nat>, g: nat, l: nat, p: int) {
    g <= |hs| && -1 <= p < g && HeightAt(hs, p) > l && NextIdx(hs, p, l) >= g
  }

  lemma PrevUnique(hs: seq<nat>, g: nat, l: nat, p: int, i: int)
    requires l < MAX_HEIGHT && IsPrev(hs, g, l, p) && -1 <= i < g && HeightAt(hs, i) > l
    ensures i <= p && (NextIdx(hs, i, l) >= g <==> i == p)
  {
    assert i < p ==> NextIdx(hs, i, l) <= p;
  }
}
