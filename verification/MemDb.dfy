/** `memdb.DB`: a skip list packed into an integer array, refining a sorted map. */
module MemDb {
  import opened Keys
  import opened SkipList

  // Field offsets inside a node.
  const N_KV: nat := 0
  const N_KEY: nat := 1
  const N_VAL: nat := 2
  const N_HEIGHT: nat := 3
  const N_NEXT: nat := 4

  datatype KV = KV(key: Bytes, value: Bytes)

  type Cmp = (Bytes, Bytes) -> int

  /** What a comparer must be. */
  ghost predicate TotalOrder(cmp: Cmp) {
    (forall a, b :: cmp(a, b) == 0 <==> a == b)
    && (forall a, b :: cmp(a, b) < 0 <==> cmp(b, a) > 0)
    && (forall a, b, c :: cmp(a, b) < 0 && cmp(b, c) < 0 ==> cmp(a, c) < 0)
  }

  ghost predicate Ascending(cmp: Cmp, es: seq<KV>) {
    forall i, j :: 0 <= i < j < |es| ==> cmp(es[i].key, es[j].key) < 0
  }

  /** How many keys are below `key`. */
  ghost function Rank(cmp: Cmp, es: seq<KV>, key: Bytes): (g: nat)
    ensures g <= |es|
    ensures forall i :: 0 <= i < g ==> cmp(es[i].key, key) < 0
    ensures g < |es| ==> cmp(es[g].key, key) >= 0
  {
    if es == [] || cmp(es[0].key, key) >= 0 then 0 else 1 + Rank(cmp, es[1..], key)
  }

  /** On which side of the rank a key lies. */
  lemma RankSide(cmp: Cmp, es: seq<KV>, key: Bytes, j: nat)
    requires TotalOrder(cmp) && Ascending(cmp, es) && j < |es|
    ensures cmp(es[j].key, key) < 0 <==> j < Rank(cmp, es, key)
    ensures cmp(es[j].key, key) == 0 ==> j == Rank(cmp, es, key)
  {
    var g := Rank(cmp, es, key);
    if g < j {
      assert cmp(es[g].key, es[j].key) < 0;
      if cmp(es[g].key, key) == 0 {
        assert es[g].key == key;
      }
    }
  }

  ghost function ToMap(es: seq<KV>): map<Bytes, Bytes> {
    if es == [] then map[] else ToMap(es[..|es| - 1])[es[|es| - 1].key := es[|es| - 1].value]
  }

  lemma {:induction false} ToMapMembers(cmp: Cmp, es: seq<KV>)
    requires TotalOrder(cmp) && Ascending(cmp, es)
    ensures forall k, v :: k in ToMap(es) && ToMap(es)[k] == v <==> KV(k, v) in es
  {
    if es != [] {
      ToMapMembers(cmp, es[..|es| - 1]);
      hide TotalOrder;
      var last := es[|es| - 1];
      forall e | e in es[..|es| - 1] ensures e.key != last.key {
        var i :| 0 <= i < |es| - 1 && es[i] == e;
        assert cmp(es[i].key, last.key) < 0;
      }
      assert forall e :: e in es <==> e in es[..|es| - 1] || e == last;
    }
  }

  ghost function Bytesize(es: seq<KV>): nat {
    if es == [] then 0 else Bytesize(es[..|es| - 1]) + |es[|es| - 1].key| + |es[|es| - 1].value|
  }

  lemma {:induction false} BytesizeSplit(a: seq<KV>, b: seq<KV>)
    ensures Bytesize(a + b) == Bytesize(a) + Bytesize(b)
  {
    if b == [] {
      assert a + b == a;
    } else {
      BytesizeSplit(a, b[..|b| - 1]);
      assert (a + b)[..|a + b| - 1] == a + b[..|b| - 1];
    }
  }

  // ----- the packed representation

  /** Nodes are disjoint blocks of the array behind the head's block. */
  ghost predicate Layout(d: seq<int>, nodes: seq<int>, hs: seq<nat>, maxHeight: nat) {
    |nodes| == |hs| && |d| >= N_NEXT + MAX_HEIGHT
    && (forall i :: 0 <= i < |nodes| ==>
          N_NEXT + MAX_HEIGHT <= nodes[i] && nodes[i] + N_NEXT + hs[i] <= |d| && 1 <= hs[i] <= maxHeight
          && d[nodes[i] + N_HEIGHT] == hs[i])
    && forall i, j :: 0 <= i < |nodes| && 0 <= j < |nodes| && i != j ==> nodes[i] + N_NEXT + hs[i] <= nodes[j] || nodes[j] + N_NEXT + hs[j] <= nodes[i]
  }

  /** Node `n` stores entry `e` at its place in the key/value buffer. */
  predicate Stores(d: seq<int>, kv: Bytes, n: int, e: KV) {
    0 <= n && n + N_VAL < |d|
    && d[n + N_KEY] == |e.key| && d[n + N_VAL] == |e.value|
    && 0 <= d[n] && d[n] + |e.key| + |e.value| <= |kv|
    && kv[d[n]..d[n] + |e.key|] == e.key && kv[d[n] + |e.key|..d[n] + |e.key| + |e.value|] == e.value
  }

  ghost predicate Stored(d: seq<int>, kv: Bytes, nodes: seq<int>, es: seq<KV>) {
    |nodes| == |es| && forall i :: 0 <= i < |nodes| ==> Stores(d, kv, nodes[i], es[i])
  }

  /** Where node `i` starts; the head starts at 0, which also stands for "no node". */
  ghost function Start(nodes: seq<int>, i: int): int
    requires -1 <= i <= |nodes|
  {
    if 0 <= i < |nodes| then nodes[i] else 0
  }

  /** Node `i` points on level `l` at the next node of at least that level. */
  ghost predicate LinkOk(d: seq<int>, nodes: seq<int>, hs: seq<nat>, i: int, l: nat)
    requires |nodes| == |hs| && -1 <= i < |nodes|
  {
    0 <= Start(nodes, i) + N_NEXT + l < |d| && d[Start(nodes, i) + N_NEXT + l] == Start(nodes, NextIdx(hs, i, l))
  }

  ghost predicate Linked(d: seq<int>, nodes: seq<int>, hs: seq<nat>) {
    |nodes| == |hs| && forall i, l: nat :: -1 <= i < |nodes| && l < HeightAt(hs, i) ==> LinkOk(d, nodes, hs, i, l)
  }

  // ----- editing the packed links

  /** Two places inside node blocks coincide only in the same block at the same offset. */
  lemma BlocksApart(d: seq<int>, nodes: seq<int>, hs: seq<nat>, maxHeight: nat, i: int, t: int, j: int, u: int)
    requires Layout(d, nodes, hs, maxHeight) && -1 <= i < |nodes| && -1 <= j < |nodes|
    requires 0 <= t < N_NEXT + HeightAt(hs, i) && 0 <= u < N_NEXT + HeightAt(hs, j)
    requires Start(nodes, i) + t == Start(nodes, j) + u
    ensures i == j && t == u
  {
  }

  /** Array index `x` is one of the first `k` links held by the recorded predecessors. */
  ghost predicate IsSlot(ps: seq<int>, k: nat, x: int) {
    exists l :: 0 <= l < k && l < |ps| && x == ps[l] + N_NEXT + l
  }

  /** `ps` holds, for each level below `h`, the start of the last node before rank `g`. */
  ghost predicate Preds(nodes: seq<int>, hs: seq<nat>, g: nat, h: nat, ps: seq<int>) {
    |nodes| == |hs| && h <= MAX_HEIGHT <= |ps| && forall l: nat :: l < h ==> PrevIs(nodes, hs, g, l, ps[l])
  }

  /** A place in a node block is a slot exactly when it is that node's link on a level it precedes on. */
  lemma SlotInBlock(d: seq<int>, nodes: seq<int>, hs: seq<nat>, maxHeight: nat, g: nat, h: nat, ps: seq<int>, k: nat, i: int, t: int)
    requires Layout(d, nodes, hs, maxHeight) && Preds(nodes, hs, g, h, ps) && k <= h
    requires -1 <= i < |nodes| && 0 <= t < N_NEXT + HeightAt(hs, i)
    ensures IsSlot(ps, k, Start(nodes, i) + t) <==> N_NEXT <= t < N_NEXT + k && IsPrev(hs, g, t - N_NEXT, i)
    ensures Start(nodes, i) + t < |d|
  {
    var x := Start(nodes, i) + t;
    if l :| 0 <= l < k && x == ps[l] + N_NEXT + l {
      assert PrevIs(nodes, hs, g, l, ps[l]);
      var p :| IsPrev(hs, g, l, p) && ps[l] == Start(nodes, p);
      BlocksApart(d, nodes, hs, maxHeight, i, t, p, N_NEXT + l);
    }
    if N_NEXT <= t < N_NEXT + k && IsPrev(hs, g, t - N_NEXT, i) {
      var l: nat := t - N_NEXT;
      assert PrevIs(nodes, hs, g, l, ps[l]);
      var p :| IsPrev(hs, g, l, p) && ps[l] == Start(nodes, p);
      PrevUnique(hs, g, l, p, i);
      PrevUnique(hs, g, l, i, p);
    }
  }

  /** `d'` is `d` with a new block of height `h` at its end, spliced in behind the predecessors. */
  ghost predicate Spliced(d: seq<int>, d': seq<int>, h: nat, k: nat, ps: seq<int>) {
    k <= h <= |ps| && |d'| == |d| + N_NEXT + k && d'[|d| + N_HEIGHT] == h
    && (forall l: nat :: l < k ==> 0 <= ps[l] + N_NEXT + l < |d| && d'[|d| + N_NEXT + l] == d[ps[l] + N_NEXT + l])
    && forall x :: 0 <= x < |d| ==> d'[x] == if IsSlot(ps, k, x) then |d| else d[x]
  }

  ghost function WithNode(nodes: seq<int>, g: nat, start: int): seq<int>
    requires g <= |nodes|
  {
    nodes[..g] + [start] + nodes[g..]
  }

  lemma WithNodeStart(nodes: seq<int>, g: nat, start: int, j: int)
    requires g <= |nodes| && -1 <= j <= |nodes|
    ensures Start(WithNode(nodes, g, start), if j < g then j else j + 1) == Start(nodes, j)
    ensures Start(WithNode(nodes, g, start), g) == start
  {
  }

  lemma SpliceLink(d: seq<int>, d': seq<int>, nodes: seq<int>, hs: seq<nat>, maxHeight: nat, g: nat, h: nat, ps: seq<int>, i: int, l: nat)
    requires Layout(d, nodes, hs, maxHeight) && Linked(d, nodes, hs) && Preds(nodes, hs, g, h, ps) && g <= |nodes|
    requires Spliced(d, d', h, h, ps)
    requires -1 <= i < |nodes| && l < HeightAt(hs, i)
    ensures |WithNode(nodes, g, |d|)| == |Inserted(hs, g, h)|
    ensures LinkOk(d', WithNode(nodes, g, |d|), Inserted(hs, g, h), if i < g then i else i + 1, l)
  {
    hide *;
    SlotOfLink(d, nodes, hs, maxHeight, g, h, ps, i, l);
    SplicedAt(d, d', h, h, ps, Start(nodes, i) + N_NEXT + l);
    LinkedAt(d, nodes, hs, i, l);
    WithNodeSizes(nodes, hs, g, |d|, h);
    WithNodeStart(nodes, g, |d|, i);
    WithNodeStart(nodes, g, |d|, NextIdx(hs, i, l));
    if i < g {
      InsertBefore(hs, g, h, i, l);
      LinkPlaced(d, d', nodes, hs, WithNode(nodes, g, |d|), Inserted(hs, g, h), i, i, l);
    } else {
      InsertAfter(hs, g, h, i, l);
      LinkPlaced(d, d', nodes, hs, WithNode(nodes, g, |d|), Inserted(hs, g, h), i, i + 1, l);
    }
  }

  /** The link of node `i` on level `l` is redirected exactly when the node is the last before rank `g` there. */
  lemma SlotOfLink(d: seq<int>, nodes: seq<int>, hs: seq<nat>, maxHeight: nat, g: nat, h: nat, ps: seq<int>, i: int, l: nat)
    requires Layout(d, nodes, hs, maxHeight) && Preds(nodes, hs, g, h, ps)
    requires -1 <= i < |nodes| && l < HeightAt(hs, i)
    ensures |nodes| == |hs| && 0 <= Start(nodes, i) + N_NEXT + l < |d|
    ensures IsSlot(ps, h, Start(nodes, i) + N_NEXT + l) <==> l < h && i < g <= NextIdx(hs, i, l)
  {
    SlotInBlock(d, nodes, hs, maxHeight, g, h, ps, h, i, N_NEXT + l);
    hide IsSlot, Preds, NextIdx;
  }

  /** A link holds in the new list when it is the old one, or the new value, at the same place. */
  lemma LinkPlaced(d: seq<int>, d': seq<int>, nodes: seq<int>, hs: seq<nat>, nodes': seq<int>, hs': seq<nat>, i: int, i': int, l: nat)
    requires |nodes| == |hs| && |nodes'| == |hs'| && -1 <= i < |hs| && -1 <= i' < |hs'|
    requires LinkOk(d, nodes, hs, i, l) && Start(nodes', i') == Start(nodes, i)
    requires var x, to := Start(nodes, i) + N_NEXT + l, Start(nodes', NextIdx(hs', i', l));
             0 <= x < |d| <= |d'| && (d'[x] == to || (d'[x] == d[x] && to == Start(nodes, NextIdx(hs, i, l))))
    ensures LinkOk(d', nodes', hs', i', l)
  {
    hide NextIdx, Start;
  }

  lemma WithNodeSizes(nodes: seq<int>, hs: seq<nat>, g: nat, start: int, h: nat)
    requires |nodes| == |hs| && g <= |nodes|
    ensures |WithNode(nodes, g, start)| == |Inserted(hs, g, h)| == |nodes| + 1
  {
  }

  lemma SplicedAt(d: seq<int>, d': seq<int>, h: nat, k: nat, ps: seq<int>, x: int)
    requires Spliced(d, d', h, k, ps) && 0 <= x < |d|
    ensures |d| <= |d'| && d'[x] == if IsSlot(ps, k, x) then |d| else d[x]
  {
  }

  lemma PredOf(nodes: seq<int>, hs: seq<nat>, g: nat, h: nat, ps: seq<int>, l: nat) returns (p: int)
    requires Preds(nodes, hs, g, h, ps) && l < h
    ensures IsPrev(hs, g, l, p) && ps[l] == Start(nodes, p)
  {
    assert PrevIs(nodes, hs, g, l, ps[l]);
    p :| IsPrev(hs, g, l, p) && ps[l] == Start(nodes, p);
  }

  lemma SplicedNew(d: seq<int>, d': seq<int>, h: nat, ps: seq<int>, l: nat)
    requires Spliced(d, d', h, h, ps) && l < h
    ensures 0 <= ps[l] + N_NEXT + l < |d| && |d'| == |d| + N_NEXT + h && d'[|d| + N_NEXT + l] == d[ps[l] + N_NEXT + l]
  {
  }

  lemma LinkedAt(d: seq<int>, nodes: seq<int>, hs: seq<nat>, i: int, l: nat)
    requires Linked(d, nodes, hs) && -1 <= i < |nodes| && l < HeightAt(hs, i)
    ensures LinkOk(d, nodes, hs, i, l)
  {
  }

  lemma PredSizes(nodes: seq<int>, hs: seq<nat>, g: nat, h: nat, ps: seq<int>, l: nat, p: int)
    requires Preds(nodes, hs, g, h, ps) && l < h && IsPrev(hs, g, l, p)
    ensures |nodes| == |hs| && l < h <= MAX_HEIGHT <= |ps| && -1 <= p < g && g <= |hs| && l < HeightAt(hs, p)
  {
  }

  lemma NextFromPrev(hs: seq<nat>, g: nat, l: nat, p: int)
    requires IsPrev(hs, g, l, p)
    ensures -1 <= p < g <= NextIdx(hs, p, l) <= |hs| && NextIdx(hs, g - 1, l) == NextIdx(hs, p, l)
  {
    NextUnique(hs, g - 1, l, NextIdx(hs, p, l));
  }

  lemma LinkFrom(d: seq<int>, d': seq<int>, nodes: seq<int>, hs: seq<nat>, g: nat, h: nat, ps: seq<int>, l: nat, p: int)
    requires |nodes| == |hs| && g <= |nodes| && |WithNode(nodes, g, |d|)| == |Inserted(hs, g, h)| && -1 <= p < g && l < h
    requires LinkOk(d, nodes, hs, p, l) && l < |ps| && ps[l] == Start(nodes, p)
    requires |d'| == |d| + N_NEXT + h && d'[|d| + N_NEXT + l] == d[ps[l] + N_NEXT + l]
    requires NextIdx(Inserted(hs, g, h), g, l) == NextIdx(hs, p, l) + 1
    requires Start(WithNode(nodes, g, |d|), NextIdx(hs, p, l) + 1) == Start(nodes, NextIdx(hs, p, l))
    requires Start(WithNode(nodes, g, |d|), g) == |d|
    ensures LinkOk(d', WithNode(nodes, g, |d|), Inserted(hs, g, h), g, l)
  {
    hide NextIdx, Inserted, WithNode;
  }

  lemma SpliceNewLink(d: seq<int>, d': seq<int>, nodes: seq<int>, hs: seq<nat>, maxHeight: nat, g: nat, h: nat, ps: seq<int>, l: nat)
    requires Layout(d, nodes, hs, maxHeight) && Linked(d, nodes, hs) && Preds(nodes, hs, g, h, ps) && g <= |nodes|
    requires Spliced(d, d', h, h, ps) && l < h
    ensures |WithNode(nodes, g, |d|)| == |Inserted(hs, g, h)|
    ensures LinkOk(d', WithNode(nodes, g, |d|), Inserted(hs, g, h), g, l)
  {
    hide *;
    var p := PredOf(nodes, hs, g, h, ps, l);
    SplicedNew(d, d', h, ps, l);
    PredSizes(nodes, hs, g, h, ps, l, p);
    LinkedAt(d, nodes, hs, p, l);
    WithNodeSizes(nodes, hs, g, |d|, h);
    InsertAfter(hs, g, h, g - 1, l);
    NextFromPrev(hs, g, l, p);
    WithNodeStart(nodes, g, |d|, NextIdx(hs, p, l));
    LinkFrom(d, d', nodes, hs, g, h, ps, l, p);
  }

  lemma SpliceKeepsLinks(d: seq<int>, d': seq<int>, nodes: seq<int>, hs: seq<nat>, maxHeight: nat, g: nat, h: nat, ps: seq<int>)
    requires Layout(d, nodes, hs, maxHeight) && Linked(d, nodes, hs) && Preds(nodes, hs, g, h, ps) && g <= |nodes|
    requires Spliced(d, d', h, h, ps) && 1 <= h <= maxHeight
    ensures var nodes', hs' := WithNode(nodes, g, |d|), Inserted(hs, g, h);
            Linked(d', nodes', hs')
  {
    hide Layout, Preds, Spliced, NextIdx, LinkOk;
    var nodes', hs' := WithNode(nodes, g, |d|), Inserted(hs, g, h);
    forall i', l: nat | -1 <= i' < |nodes'| && l < HeightAt(hs', i')
      ensures LinkOk(d', nodes', hs', i', l)
    {
      if i' == g {
        SpliceNewLink(d, d', nodes, hs, maxHeight, g, h, ps, l);
      } else {
        SpliceLink(d, d', nodes, hs, maxHeight, g, h, ps, if i' < g then i' else i' - 1, l);
      }
    }
  }

  lemma HeightsStay(d: seq<int>, d': seq<int>, nodes: seq<int>, hs: seq<nat>, maxHeight: nat, g: nat, h: nat, ps: seq<int>)
    requires Layout(d, nodes, hs, maxHeight) && Preds(nodes, hs, g, h, ps) && Spliced(d, d', h, h, ps)
    ensures |d'| == |d| + N_NEXT + h && d'[|d| + N_HEIGHT] == h
    ensures forall i :: 0 <= i < |nodes| ==> d'[nodes[i] + N_HEIGHT] == hs[i]
  {
    hide Preds, IsSlot;
    forall i | 0 <= i < |nodes|
      ensures d'[nodes[i] + N_HEIGHT] == hs[i]
    {
      SlotInBlock(d, nodes, hs, maxHeight, g, h, ps, h, i, N_HEIGHT);
      SplicedAt(d, d', h, h, ps, nodes[i] + N_HEIGHT);
    }
  }

  lemma SpliceKeepsLayout(d: seq<int>, d': seq<int>, nodes: seq<int>, hs: seq<nat>, maxHeight: nat, g: nat, h: nat, ps: seq<int>)
    requires Layout(d, nodes, hs, maxHeight) && Preds(nodes, hs, g, h, ps) && g <= |nodes|
    requires Spliced(d, d', h, h, ps) && 1 <= h <= maxHeight
    ensures Layout(d', WithNode(nodes, g, |d|), Inserted(hs, g, h), maxHeight)
  {
    var nodes', hs' := WithNode(nodes, g, |d|), Inserted(hs, g, h);
    HeightsStay(d, d', nodes, hs, maxHeight, g, h, ps);
    WithBlock(nodes, hs, g, |d|, h);
    hide Preds, Spliced, WithNode, Inserted;
    forall i | 0 <= i < |nodes'|
      ensures N_NEXT + MAX_HEIGHT <= nodes'[i] && nodes'[i] + N_NEXT + hs'[i] <= |d'| && 1 <= hs'[i] <= maxHeight
      ensures d'[nodes'[i] + N_HEIGHT] == hs'[i]
    {
    }
    forall i, j | 0 <= i < |nodes'| && 0 <= j < |nodes'| && i != j
      ensures nodes'[i] + N_NEXT + hs'[i] <= nodes'[j] || nodes'[j] + N_NEXT + hs'[j] <= nodes'[i]
    {
    }
  }

  /** Block by block, what the inserted lists hold. */
  lemma WithBlock(nodes: seq<int>, hs: seq<nat>, g: nat, start: int, h: nat)
    requires |nodes| == |hs| && g <= |nodes|
    ensures var nodes', hs' := WithNode(nodes, g, start), Inserted(hs, g, h);
            && |nodes'| == |hs'| == |nodes| + 1
            && forall i {:trigger nodes'[i]} {:trigger hs'[i]} :: 0 <= i < |nodes'| ==>
                 if i < g then nodes'[i] == nodes[i] && hs'[i] == hs[i]
                 else if i == g then nodes'[i] == start && hs'[i] == h
                 else nodes'[i] == nodes[i - 1] && hs'[i] == hs[i - 1]
  {
  }

  /** Growing the array and the buffer keeps what a node stores as long as its own fields stay. */
  lemma StoresStays(d: seq<int>, d': seq<int>, kv: Bytes, kv': Bytes, n: int, e: KV)
    requires Stores(d, kv, n, e) && kv <= kv' && n + N_VAL < |d'|
    requires d'[n] == d[n] && d'[n + N_KEY] == d[n + N_KEY] && d'[n + N_VAL] == d[n + N_VAL]
    ensures Stores(d', kv', n, e)
  {
    var o := d[n];
    assert kv'[o..o + |e.key|] == kv[o..o + |e.key|];
    assert kv'[o + |e.key|..o + |e.key| + |e.value|] == kv[o + |e.key|..o + |e.key| + |e.value|];
  }

  lemma SpliceKeepsStored(d: seq<int>, d': seq<int>, kv: Bytes, kv': Bytes, nodes: seq<int>, hs: seq<nat>, maxHeight: nat,
                          es: seq<KV>, g: nat, h: nat, ps: seq<int>, e: KV)
    requires Layout(d, nodes, hs, maxHeight) && Preds(nodes, hs, g, h, ps) && g <= |nodes|
    requires Spliced(d, d', h, h, ps) && Stored(d, kv, nodes, es)
    requires kv <= kv' && Stores(d', kv', |d|, e)
    ensures Stored(d', kv', WithNode(nodes, g, |d|), es[..g] + [e] + es[g..])
  {
    hide Stores;
    forall i | 0 <= i < |nodes|
      ensures Stores(d', kv', nodes[i], es[i])
    {
      StoredStays(d, d', kv, kv', nodes, hs, maxHeight, g, h, ps, i, es[i]);
    }
    hide Layout, Preds, Spliced;
  }

  lemma StoredStays(d: seq<int>, d': seq<int>, kv: Bytes, kv': Bytes, nodes: seq<int>, hs: seq<nat>, maxHeight: nat,
                    g: nat, h: nat, ps: seq<int>, i: nat, e: KV)
    requires Layout(d, nodes, hs, maxHeight) && Preds(nodes, hs, g, h, ps) && Spliced(d, d', h, h, ps)
    requires kv <= kv' && i < |nodes| && Stores(d, kv, nodes[i], e)
    ensures Stores(d', kv', nodes[i], e)
  {
    hide Preds, Spliced;
    assert |nodes| == |hs| && Start(nodes, i) == nodes[i] && N_NEXT + MAX_HEIGHT <= nodes[i];
    SlotInBlock(d, nodes, hs, maxHeight, g, h, ps, h, i, N_KV);
    SlotInBlock(d, nodes, hs, maxHeight, g, h, ps, h, i, N_KEY);
    SlotInBlock(d, nodes, hs, maxHeight, g, h, ps, h, i, N_VAL);
    SplicedAt(d, d', h, h, ps, nodes[i]);
    SplicedAt(d, d', h, h, ps, nodes[i] + N_KEY);
    SplicedAt(d, d', h, h, ps, nodes[i] + N_VAL);
    StoresStays(d, d', kv, kv', nodes[i], e);
  }

  lemma NewKeySide(cmp: Cmp, es: seq<KV>, e: KV, j: nat)
    requires TotalOrder(cmp) && Ascending(cmp, es) && j < |es|
    requires var g := Rank(cmp, es, e.key); g == |es| || es[g].key != e.key
    ensures if j < Rank(cmp, es, e.key) then cmp(es[j].key, e.key) < 0 else cmp(e.key, es[j].key) < 0
  {
    RankSide(cmp, es, e.key, j);
  }

  /** A new key goes at its rank. */
  lemma AscendingInsert(cmp: Cmp, es: seq<KV>, e: KV)
    requires TotalOrder(cmp) && Ascending(cmp, es)
    requires var g := Rank(cmp, es, e.key); g == |es| || es[g].key != e.key
    ensures var g := Rank(cmp, es, e.key); Ascending(cmp, es[..g] + [e] + es[g..])
  {
    hide TotalOrder, Rank;
    var g := Rank(cmp, es, e.key);
    var es' := es[..g] + [e] + es[g..];
    forall j | 0 <= j < |es|
      ensures if j < g then cmp(es[j].key, e.key) < 0 else cmp(e.key, es[j].key) < 0
    {
      NewKeySide(cmp, es, e, j);
    }
    forall i, j | 0 <= i < j < |es'|
      ensures cmp(es'[i].key, es'[j].key) < 0
    {
      PairOrder(cmp, es, g, e, i, j);
    }
  }

  lemma PairOrder(cmp: Cmp, es: seq<KV>, g: nat, e: KV, i: nat, j: nat)
    requires Ascending(cmp, es) && g <= |es| && i < j <= |es|
    requires forall m :: 0 <= m < |es| ==> if m < g then cmp(es[m].key, e.key) < 0 else cmp(e.key, es[m].key) < 0
    ensures var es' := es[..g] + [e] + es[g..]; cmp(es'[i].key, es'[j].key) < 0
  {
  }

  lemma InsertSizes(es: seq<KV>, g: nat, e: KV)
    requires g <= |es|
    ensures Bytesize(es[..g] + [e] + es[g..]) == Bytesize(es) + |e.key| + |e.value|
  {
    BytesizeSplit(es[..g], es[g..]);
    BytesizeSplit(es[..g] + [e], es[g..]);
    BytesizeSplit(es[..g], [e]);
    assert es[..g] + es[g..] == es;
    assert [e][..0] == [];
  }

  // ----- overwriting a value in place

  lemma OverwriteOk(d: seq<int>, nodes: seq<int>, hs: seq<nat>, maxHeight: nat, kv: Bytes, es: seq<KV>, g: nat, value: Bytes, d': seq<int>)
    requires Layout(d, nodes, hs, maxHeight) && Linked(d, nodes, hs) && Stored(d, kv, nodes, es) && g < |es|
    requires nodes[g] + N_VAL < |d| && nodes[g] >= 0 && d' == d[nodes[g] := |kv|][nodes[g] + N_VAL := |value|]
    ensures Layout(d', nodes, hs, maxHeight) && Linked(d', nodes, hs)
    ensures Stored(d', kv + es[g].key + value, nodes, es[g := KV(es[g].key, value)])
  {
    hide Stores;
    var e := KV(es[g].key, value);
    forall i, l: nat | -1 <= i < |nodes| && l < HeightAt(hs, i)
      ensures LinkOk(d', nodes, hs, i, l)
    {
      OverwriteLink(d, nodes, hs, maxHeight, g, |kv|, |value|, i, l);
    }
    forall i | 0 <= i < |nodes|
      ensures d'[nodes[i] + N_HEIGHT] == hs[i]
      ensures Stores(d', kv + es[g].key + value, nodes[i], es[g := e][i])
    {
      OverwriteNode(d, nodes, hs, maxHeight, kv, es, g, value, i);
    }
    hide Linked, LinkOk;
  }

  lemma OverwriteLink(d: seq<int>, nodes: seq<int>, hs: seq<nat>, maxHeight: nat, g: nat, off: int, len: int, i: int, l: nat)
    requires Layout(d, nodes, hs, maxHeight) && Linked(d, nodes, hs) && g < |nodes| && 0 <= nodes[g] && nodes[g] + N_VAL < |d|
    requires -1 <= i < |nodes| && l < HeightAt(hs, i)
    ensures LinkOk(d[nodes[g] := off][nodes[g] + N_VAL := len], nodes, hs, i, l)
  {
    LinkedAt(d, nodes, hs, i, l);
    hide Linked, NextIdx;
    var x := Start(nodes, i) + N_NEXT + l;
    if x == nodes[g] {
      BlocksApart(d, nodes, hs, maxHeight, i, N_NEXT + l, g, N_KV);
    } else if x == nodes[g] + N_VAL {
      BlocksApart(d, nodes, hs, maxHeight, i, N_NEXT + l, g, N_VAL);
    }
  }

  lemma OverwriteNode(d: seq<int>, nodes: seq<int>, hs: seq<nat>, maxHeight: nat, kv: Bytes, es: seq<KV>, g: nat, value: Bytes, i: nat)
    requires Layout(d, nodes, hs, maxHeight) && Stored(d, kv, nodes, es) && g < |es| && i < |nodes|
    requires 0 <= nodes[g] && nodes[g] + N_VAL < |d|
    ensures var d' := d[nodes[g] := |kv|][nodes[g] + N_VAL := |value|];
            0 <= nodes[i] && nodes[i] + N_HEIGHT < |d| && d'[nodes[i] + N_HEIGHT] == hs[i]
            && Stores(d', kv + es[g].key + value, nodes[i], es[g := KV(es[g].key, value)][i])
  {
    var d' := d[nodes[g] := |kv|][nodes[g] + N_VAL := |value|];
    var kv' := kv + es[g].key + value;
    if i == g {
      assert kv'[|kv|..|kv| + |es[g].key|] == es[g].key;
      assert kv'[|kv| + |es[g].key|..|kv| + |es[g].key| + |value|] == value;
    } else {
      StoresStays(d, d', kv, kv', nodes[i], es[i]);
    }
  }

  lemma AscendingReplace(cmp: Cmp, es: seq<KV>, g: nat, value: Bytes)
    requires Ascending(cmp, es) && g < |es|
    ensures Ascending(cmp, es[g := KV(es[g].key, value)])
  {
  }

  lemma ReplaceSizes(es: seq<KV>, g: nat, value: Bytes)
    requires g < |es|
    ensures Bytesize(es[g := KV(es[g].key, value)]) == Bytesize(es) + |value| - |es[g].value|
  {
    var e := KV(es[g].key, value);
    InsertSizes(es[..g] + es[g + 1..], g, e);
    InsertSizes(es[..g] + es[g + 1..], g, es[g]);
    var rest := es[..g] + es[g + 1..];
    assert rest[..g] == es[..g] && rest[g..] == es[g + 1..];
    assert es[g := e] == es[..g] + [e] + es[g + 1..];
    assert es == es[..g] + [es[g]] + es[g + 1..];
  }

  // ----- unlinking a node

  /** On the first `k` levels the predecessors of `node` point past it; nothing else changed. */
  ghost predicate Unlinked(d: seq<int>, d': seq<int>, k: nat, ps: seq<int>, node: int) {
    |d'| == |d| && k <= |ps| && 0 <= node
    && (forall l: nat :: l < k ==> 0 <= ps[l] + N_NEXT + l < |d| && node + N_NEXT + l < |d| && d'[ps[l] + N_NEXT + l] == d[node + N_NEXT + l])
    && forall x :: 0 <= x < |d| && !IsSlot(ps, k, x) ==> d'[x] == d[x]
  }

  lemma PredIs(nodes: seq<int>, hs: seq<nat>, g: nat, h: nat, ps: seq<int>, l: nat, i: int)
    requires Preds(nodes, hs, g, h, ps) && l < h && IsPrev(hs, g, l, i)
    ensures l < |ps| && |nodes| == |hs| && i < |nodes| && ps[l] == Start(nodes, i)
  {
    var p := PredOf(nodes, hs, g, h, ps, l);
    PrevUnique(hs, g, l, p, i);
    PrevUnique(hs, g, l, i, p);
  }

  /** The last node before `g` on a level `g` reaches points at `g`. */
  lemma PrevPointsAt(hs: seq<nat>, g: nat, l: nat, p: int)
    requires IsPrev(hs, g, l, p) && g < |hs| && l < hs[g]
    ensures NextIdx(hs, p, l) == g
  {
  }

  lemma BlockFits(d: seq<int>, nodes: seq<int>, hs: seq<nat>, maxHeight: nat, i: int, t: nat)
    requires Layout(d, nodes, hs, maxHeight) && -1 <= i < |nodes| && t < N_NEXT + HeightAt(hs, i)
    ensures |nodes| == |hs| && 0 <= Start(nodes, i) && Start(nodes, i) + t < |d|
  {
  }

  /** The slot of level `k` holds `g`'s start, and no lower slot is that place or `g`'s own link. */
  lemma UnlinkSlot(d: seq<int>, nodes: seq<int>, hs: seq<nat>, maxHeight: nat, g: nat, h: nat, k: nat, ps: seq<int>)
    requires Layout(d, nodes, hs, maxHeight) && Linked(d, nodes, hs) && g < |nodes| == |hs| && k < h == hs[g]
    requires Preds(nodes, hs, g, h, ps)
    ensures 0 <= nodes[g] && nodes[g] + N_NEXT + k < |d| && k < |ps|
    ensures var m := ps[k] + N_NEXT + k;
            0 <= m < |d| && d[m] == nodes[g] && !IsSlot(ps, k, m) && !IsSlot(ps, k, nodes[g] + N_NEXT + k)
  {
    hide Layout, Linked, Preds, IsPrev, NextIdx, IsSlot;
    var p := PredOf(nodes, hs, g, h, ps, k);
    PredSizes(nodes, hs, g, h, ps, k, p);
    LinkedAt(d, nodes, hs, p, k);
    PrevPointsAt(hs, g, k, p);
    BlockFits(d, nodes, hs, maxHeight, p, N_NEXT + k);
    BlockFits(d, nodes, hs, maxHeight, g, N_NEXT + k);
    SlotInBlock(d, nodes, hs, maxHeight, g, h, ps, k, p, N_NEXT + k);
    SlotInBlock(d, nodes, hs, maxHeight, g, h, ps, k, g, N_NEXT + k);
  }

  lemma UnlinkStep(d: seq<int>, d': seq<int>, nodes: seq<int>, hs: seq<nat>, maxHeight: nat, g: nat, h: nat, k: nat, ps: seq<int>)
    requires Layout(d, nodes, hs, maxHeight) && Linked(d, nodes, hs) && g < |nodes| == |hs| && k < h == hs[g]
    requires Preds(nodes, hs, g, h, ps) && Unlinked(d, d', k, ps, nodes[g])
    ensures k < |ps| && 0 <= nodes[g]
    ensures var m := ps[k] + N_NEXT + k;
            0 <= m < |d| == |d'| && d'[m] == nodes[g] && nodes[g] + N_NEXT + k < |d'|
            && Unlinked(d, d'[m := d'[nodes[g] + N_NEXT + k]], k + 1, ps, nodes[g])
  {
    hide *;
    UnlinkSlot(d, nodes, hs, maxHeight, g, h, k, ps);
    UnlinkedWith(d, d', k, ps, nodes[g], ps[k] + N_NEXT + k);
  }

  lemma UnlinkedWith(d: seq<int>, d': seq<int>, k: nat, ps: seq<int>, node: int, m: int)
    requires Unlinked(d, d', k, ps, node) && k < |ps| && m == ps[k] + N_NEXT + k && 0 <= m < |d| && node + N_NEXT + k < |d|
    requires !IsSlot(ps, k, m) && !IsSlot(ps, k, node + N_NEXT + k)
    ensures |d| == |d'| && 0 <= node && d'[m] == d[m] && Unlinked(d, d'[m := d'[node + N_NEXT + k]], k + 1, ps, node)
  {
    SlotsGrow(ps, k);
    forall l: nat | l < k
      ensures ps[l] + N_NEXT + l != m
    {
      assert ps[l] + N_NEXT + l == m ==> IsSlot(ps, k, m);
    }
    hide IsSlot;
  }

  ghost function WithoutNode(nodes: seq<int>, g: nat): seq<int>
    requires g < |nodes|
  {
    nodes[..g] + nodes[g + 1..]
  }

  lemma WithoutNodeStart(nodes: seq<int>, g: nat, j: int)
    requires g < |nodes| && -1 <= j <= |nodes| && j != g
    ensures Start(WithoutNode(nodes, g), if j < g then j else j - 1) == Start(nodes, j)
  {
  }

  lemma WithoutNodeSizes(nodes: seq<int>, hs: seq<nat>, g: nat)
    requires |nodes| == |hs| && g < |nodes|
    ensures |WithoutNode(nodes, g)| == |Removed(hs, g)| == |nodes| - 1
  {
  }

  lemma UnlinkedAt(d: seq<int>, d': seq<int>, h: nat, ps: seq<int>, node: int, l: nat)
    requires Unlinked(d, d', h, ps, node) && l < h
    ensures |d'| == |d| && l < |ps| && 0 <= node && 0 <= ps[l] + N_NEXT + l < |d| && node + N_NEXT + l < |d|
    ensures d'[ps[l] + N_NEXT + l] == d[node + N_NEXT + l]
  {
  }

  lemma UnlinkedElsewhere(d: seq<int>, d': seq<int>, h: nat, ps: seq<int>, node: int, x: int)
    requires Unlinked(d, d', h, ps, node) && 0 <= x < |d| && !IsSlot(ps, h, x)
    ensures |d'| == |d| && d'[x] == d[x]
  {
  }

  /** A predecessor of `g` now points at what `g` pointed at. */
  lemma UnlinkPred(d: seq<int>, d': seq<int>, nodes: seq<int>, hs: seq<nat>, g: nat, h: nat, ps: seq<int>, i: int, l: nat)
    requires Linked(d, nodes, hs) && Preds(nodes, hs, g, h, ps) && g < |nodes| == |hs| && h == hs[g]
    requires Unlinked(d, d', h, ps, nodes[g]) && l < h && IsPrev(hs, g, l, i)
    ensures |WithoutNode(nodes, g)| == |Removed(hs, g)| == |nodes| - 1 && -1 <= i < |nodes| - 1
    ensures LinkOk(d', WithoutNode(nodes, g), Removed(hs, g), i, l)
  {
    PredSizes(nodes, hs, g, h, ps, l, i);
    PredIs(nodes, hs, g, h, ps, l, i);
    PrevPointsAt(hs, g, l, i);
    UnlinkedAt(d, d', h, ps, nodes[g], l);
    LinkedAt(d, nodes, hs, g, l);
    hide Linked, Preds, Unlinked, WithoutNode, Removed, IsPrev, NextIdx;
    WithoutNodeSizes(nodes, hs, g);
    WithoutNodeStart(nodes, g, i);
    WithoutNodeStart(nodes, g, NextIdx(hs, g, l));
    RemoveBefore(hs, g, i, l);
  }

  /** Only the last node before `g` on a level of `g` points at `g`. */
  lemma SkipsOver(hs: seq<nat>, g: nat, i: int, l: nat)
    requires g < |hs| && -1 <= i < |hs| && l < HeightAt(hs, i) && !(l < hs[g] && IsPrev(hs, g, l, i))
    ensures NextIdx(hs, i, l) != g
  {
  }

  lemma UnlinkMissed(d: seq<int>, d': seq<int>, nodes: seq<int>, hs: seq<nat>, maxHeight: nat, g: nat, h: nat, ps: seq<int>, i: int, l: nat)
    requires Layout(d, nodes, hs, maxHeight) && Preds(nodes, hs, g, h, ps) && g < |nodes| == |hs|
    requires Unlinked(d, d', h, ps, nodes[g]) && -1 <= i < |nodes| && l < HeightAt(hs, i) && !(l < h && IsPrev(hs, g, l, i))
    ensures var x := Start(nodes, i) + N_NEXT + l; 0 <= x < |d| == |d'| && d'[x] == d[x]
  {
    hide Unlinked, Layout, Preds, IsPrev, IsSlot;
    BlockFits(d, nodes, hs, maxHeight, i, N_NEXT + l);
    SlotInBlock(d, nodes, hs, maxHeight, g, h, ps, h, i, N_NEXT + l);
    UnlinkedElsewhere(d, d', h, ps, nodes[g], Start(nodes, i) + N_NEXT + l);
  }

  /** Every other link stays. */
  lemma UnlinkOther(d: seq<int>, d': seq<int>, nodes: seq<int>, hs: seq<nat>, maxHeight: nat, g: nat, h: nat, ps: seq<int>, i: int, l: nat)
    requires Layout(d, nodes, hs, maxHeight) && Linked(d, nodes, hs) && Preds(nodes, hs, g, h, ps) && g < |nodes| == |hs| && h == hs[g]
    requires Unlinked(d, d', h, ps, nodes[g]) && -1 <= i < |nodes| && i != g && l < HeightAt(hs, i) && !(l < h && IsPrev(hs, g, l, i))
    ensures |WithoutNode(nodes, g)| == |Removed(hs, g)| == |nodes| - 1 && (i < g ==> i < |nodes| - 1)
    ensures LinkOk(d', WithoutNode(nodes, g), Removed(hs, g), if i < g then i else i - 1, l)
  {
    hide *;
    UnlinkMissed(d, d', nodes, hs, maxHeight, g, h, ps, i, l);
    LinkedAt(d, nodes, hs, i, l);
    SkipsOver(hs, g, i, l);
    WithoutNodeSizes(nodes, hs, g);
    WithoutNodeStart(nodes, g, i);
    WithoutNodeStart(nodes, g, NextIdx(hs, i, l));
    if i < g {
      RemoveBefore(hs, g, i, l);
      BeforeEnd(hs, g, i, l);
      LinkMoved(d, d', nodes, hs, WithoutNode(nodes, g), Removed(hs, g), i, i, l);
    } else {
      RemoveAfter(hs, g, i, l);
      LinkMoved(d, d', nodes, hs, WithoutNode(nodes, g), Removed(hs, g), i, i - 1, l);
    }
  }

  lemma BeforeEnd(hs: seq<nat>, g: nat, i: int, l: nat)
    requires g < |hs| && -1 <= i < g
    ensures i < |hs| - 1
  {
  }

  /** A link whose place keeps its value and whose two ends keep their starts stays right. */
  lemma LinkMoved(d: seq<int>, d': seq<int>, nodes: seq<int>, hs: seq<nat>, nodes': seq<int>, hs': seq<nat>, i: int, i': int, l: nat)
    requires |nodes| == |hs| && |nodes'| == |hs'| && -1 <= i < |hs| && -1 <= i' < |hs'|
    requires LinkOk(d, nodes, hs, i, l)
    requires var x := Start(nodes, i) + N_NEXT + l; 0 <= x < |d| == |d'| && d'[x] == d[x]
    requires Start(nodes', i') == Start(nodes, i) && Start(nodes', NextIdx(hs', i', l)) == Start(nodes, NextIdx(hs, i, l))
    ensures LinkOk(d', nodes', hs', i', l)
  {
    hide NextIdx, Start;
  }

  lemma UnlinkKeepsLinks(d: seq<int>, d': seq<int>, nodes: seq<int>, hs: seq<nat>, maxHeight: nat, g: nat, h: nat, ps: seq<int>)
    requires Layout(d, nodes, hs, maxHeight) && Linked(d, nodes, hs) && Preds(nodes, hs, g, h, ps) && g < |nodes| == |hs| && h == hs[g]
    requires Unlinked(d, d', h, ps, nodes[g])
    ensures Linked(d', WithoutNode(nodes, g), Removed(hs, g))
  {
    hide Layout, Preds, Unlinked, NextIdx, LinkOk, IsPrev;
    var nodes', hs' := WithoutNode(nodes, g), Removed(hs, g);
    forall i', l: nat | -1 <= i' < |nodes'| && l < HeightAt(hs', i')
      ensures LinkOk(d', nodes', hs', i', l)
    {
      var i := if i' < g then i' else i' + 1;
      if l < h && IsPrev(hs, g, l, i) {
        PrevIsBefore(hs, g, l, i);
        UnlinkPred(d, d', nodes, hs, g, h, ps, i, l);
      } else {
        UnlinkOther(d, d', nodes, hs, maxHeight, g, h, ps, i, l);
      }
    }
  }

  lemma PrevIsBefore(hs: seq<nat>, g: nat, l: nat, p: int)
    requires IsPrev(hs, g, l, p)
    ensures p < g
  {
  }

  /** The fields before the links of a live node are no slots. */
  lemma FieldsStay(d: seq<int>, d': seq<int>, nodes: seq<int>, hs: seq<nat>, maxHeight: nat, g: nat, h: nat, ps: seq<int>, node: int, i: nat, t: nat)
    requires Layout(d, nodes, hs, maxHeight) && Preds(nodes, hs, g, h, ps) && i < |nodes| == |hs|
    requires Unlinked(d, d', h, ps, node) && t <= N_HEIGHT
    ensures |d'| == |d| && 0 <= nodes[i] && nodes[i] + t < |d| && d'[nodes[i] + t] == d[nodes[i] + t]
  {
    BlockFits(d, nodes, hs, maxHeight, i, t);
    SlotInBlock(d, nodes, hs, maxHeight, g, h, ps, h, i, t);
    hide Layout, Preds, Unlinked, IsSlot;
    UnlinkedElsewhere(d, d', h, ps, node, nodes[i] + t);
  }

  lemma UnlinkKeepsLayout(d: seq<int>, d': seq<int>, nodes: seq<int>, hs: seq<nat>, maxHeight: nat, g: nat, h: nat, ps: seq<int>, node: int)
    requires Layout(d, nodes, hs, maxHeight) && Preds(nodes, hs, g, h, ps) && g < |nodes| == |hs|
    requires Unlinked(d, d', h, ps, node)
    ensures Layout(d', nodes, hs, maxHeight) && Layout(d', WithoutNode(nodes, g), Removed(hs, g), maxHeight)
  {
    forall i | 0 <= i < |nodes|
      ensures |d'| == |d| && 0 <= nodes[i] && nodes[i] + N_HEIGHT < |d| && d'[nodes[i] + N_HEIGHT] == d[nodes[i] + N_HEIGHT]
    {
      FieldsStay(d, d', nodes, hs, maxHeight, g, h, ps, node, i, N_HEIGHT);
    }
    hide Preds, Unlinked;
    LayoutWithout(d', nodes, hs, maxHeight, g);
  }

  lemma LayoutWithout(d: seq<int>, nodes: seq<int>, hs: seq<nat>, maxHeight: nat, g: nat)
    requires Layout(d, nodes, hs, maxHeight) && g < |nodes| == |hs|
    ensures Layout(d, WithoutNode(nodes, g), Removed(hs, g), maxHeight)
  {
    WithoutBlock(nodes, hs, g);
    hide WithoutNode, Removed;
    var nodes', hs' := WithoutNode(nodes, g), Removed(hs, g);
    forall i | 0 <= i < |nodes'|
      ensures N_NEXT + MAX_HEIGHT <= nodes'[i] && nodes'[i] + N_NEXT + hs'[i] <= |d| && 1 <= hs'[i] <= maxHeight
      ensures d[nodes'[i] + N_HEIGHT] == hs'[i]
    {
    }
    forall i, j | 0 <= i < |nodes'| && 0 <= j < |nodes'| && i != j
      ensures nodes'[i] + N_NEXT + hs'[i] <= nodes'[j] || nodes'[j] + N_NEXT + hs'[j] <= nodes'[i]
    {
    }
  }

  lemma WithoutBlock(nodes: seq<int>, hs: seq<nat>, g: nat)
    requires g < |nodes| == |hs|
    ensures var nodes', hs' := WithoutNode(nodes, g), Removed(hs, g);
            && |nodes'| == |hs'| == |nodes| - 1
            && forall i {:trigger nodes'[i]} {:trigger hs'[i]} :: 0 <= i < |nodes'| ==>
                 if i < g then nodes'[i] == nodes[i] && hs'[i] == hs[i] else nodes'[i] == nodes[i + 1] && hs'[i] == hs[i + 1]
  {
  }

  lemma UnlinkKeepsStored(d: seq<int>, d': seq<int>, kv: Bytes, nodes: seq<int>, hs: seq<nat>, maxHeight: nat, es: seq<KV>,
                          g: nat, h: nat, ps: seq<int>, node: int)
    requires Layout(d, nodes, hs, maxHeight) && Preds(nodes, hs, g, h, ps) && g < |nodes| == |hs|
    requires Unlinked(d, d', h, ps, node) && Stored(d, kv, nodes, es)
    ensures Stored(d', kv, nodes, es) && Stored(d', kv, WithoutNode(nodes, g), es[..g] + es[g + 1..])
  {
    hide Stores, Layout, Preds, Unlinked;
    forall i | 0 <= i < |nodes|
      ensures Stores(d', kv, nodes[i], es[i])
    {
      FieldsStay(d, d', nodes, hs, maxHeight, g, h, ps, node, i, N_KV);
      FieldsStay(d, d', nodes, hs, maxHeight, g, h, ps, node, i, N_KEY);
      FieldsStay(d, d', nodes, hs, maxHeight, g, h, ps, node, i, N_VAL);
      StoresStays(d, d', kv, kv, nodes[i], es[i]);
    }
  }

  lemma AscendingRemove(cmp: Cmp, es: seq<KV>, g: nat)
    requires Ascending(cmp, es) && g < |es|
    ensures Ascending(cmp, es[..g] + es[g + 1..])
  {
  }

  lemma RemoveSizes(es: seq<KV>, g: nat)
    requires g < |es|
    ensures Bytesize(es[..g] + es[g + 1..]) == Bytesize(es) - |es[g].key| - |es[g].value|
  {
    var rest := es[..g] + es[g + 1..];
    InsertSizes(rest, g, es[g]);
    assert rest[..g] == es[..g] && rest[g..] == es[g + 1..];
    assert es == es[..g] + [es[g]] + es[g + 1..];
  }

  /** The entries after a put: replaced in place, or inserted at its rank. */
  ghost function PutEntry(cmp: Cmp, es: seq<KV>, e: KV): seq<KV> {
    var g := Rank(cmp, es, e.key);
    if g < |es| && es[g].key == e.key then es[g := e] else es[..g] + [e] + es[g..]
  }

  /** The entries after a delete. */
  ghost function DeleteEntry(cmp: Cmp, es: seq<KV>, key: Bytes): seq<KV> {
    var g := Rank(cmp, es, key);
    if g < |es| && es[g].key == key then es[..g] + es[g + 1..] else es
  }

  /** `start` is the last node before rank `g` that reaches level `l`. */
  ghost predicate PrevIs(nodes: seq<int>, hs: seq<nat>, g: nat, l: nat, start: int)
    requires |nodes| == |hs|
  {
    exists p :: IsPrev(hs, g, l, p) && start == Start(nodes, p)
  }

  lemma NodePlace(d: seq<int>, kv: Bytes, nodes: seq<int>, hs: seq<nat>, maxHeight: nat, es: seq<KV>, j: nat)
    requires Layout(d, nodes, hs, maxHeight) && Stored(d, kv, nodes, es) && j < |nodes|
    ensures j < |es| && nodes[j] > 0 && Stores(d, kv, nodes[j], es[j])
  {
    hide Stores;
  }

  /** How an entry compares tells on which side of the key's rank it is. */
  lemma KeySide(cmp: Cmp, es: seq<KV>, key: Bytes, j: nat)
    requires TotalOrder(cmp) && Ascending(cmp, es) && j < |es|
    ensures cmp(es[j].key, key) < 0 <==> j < Rank(cmp, es, key)
    ensures cmp(es[j].key, key) == 0 <==> es[j].key == key
    ensures es[j].key == key ==> j == Rank(cmp, es, key)
  {
    RankSide(cmp, es, key, j);
    hide Rank, Ascending;
  }

  /** A head without links is the empty list. */
  lemma HeadAlone(d: seq<int>)
    requires |d| == N_NEXT + MAX_HEIGHT && forall l :: N_NEXT <= l < N_NEXT + MAX_HEIGHT ==> d[l] == 0
    ensures Layout(d, [], [], 1) && Stored(d, [], [], []) && Linked(d, [], [])
  {
  }

  class DB {
    const cmp: Cmp
    var kvData: Bytes
    var nodeData: seq<int>
    var prevNode: seq<int>
    var maxHeight: nat
    var n: int
    var kvSize: int

    ghost var nodes: seq<int>
    ghost var hs: seq<nat>
    /** The sorted entries held. */
    ghost var entries: seq<KV>

    ghost predicate Valid()
      reads this
    {
      TotalOrder(cmp) && 1 <= maxHeight <= MAX_HEIGHT && |prevNode| == MAX_HEIGHT
      && Ascending(cmp, entries)
      && Layout(nodeData, nodes, hs, maxHeight) && Stored(nodeData, kvData, nodes, entries) && Linked(nodeData, nodes, hs)
      && n == |entries| && kvSize == Bytesize(entries)
    }

    constructor (cmp: Cmp)
      requires TotalOrder(cmp)
      ensures Valid() && entries == [] && this.cmp == cmp
    {
      this.cmp := cmp;
      kvData, prevNode := [], seq(MAX_HEIGHT, _ => 0);
      nodeData := seq(N_NEXT + MAX_HEIGHT, i => if i == N_HEIGHT then MAX_HEIGHT else 0);
      maxHeight, n, kvSize := 1, 0, 0;
      nodes, hs, entries := [], [], [];
    }

    /** The head's links and the recorded predecessors are set back. */
    method ClearLinks()
      requires |nodeData| == N_NEXT + MAX_HEIGHT && |prevNode| == MAX_HEIGHT
      modifies this`nodeData, this`prevNode
      ensures |nodeData| == N_NEXT + MAX_HEIGHT && |prevNode| == MAX_HEIGHT
      ensures forall l :: N_NEXT <= l < N_NEXT + MAX_HEIGHT ==> nodeData[l] == 0
    {
      for i := 0 to MAX_HEIGHT
        invariant |nodeData| == N_NEXT + MAX_HEIGHT && |prevNode| == MAX_HEIGHT
        invariant forall l :: N_NEXT <= l < N_NEXT + i ==> nodeData[l] == 0
      {
        nodeData, prevNode := nodeData[N_NEXT + i := 0], prevNode[i := 0];
      }
    }

    lemma Bounds()
      requires Valid()
      ensures TotalOrder(cmp) && 1 <= maxHeight <= MAX_HEIGHT && |prevNode| == MAX_HEIGHT && n == |entries|
      ensures |nodeData| >= N_NEXT + MAX_HEIGHT
    {
      hide TotalOrder, Ascending, Stored, Linked, Bytesize;
    }

    /** The parts that make a list valid. */
    lemma Assembled()
      requires TotalOrder(cmp) && 1 <= maxHeight <= MAX_HEIGHT && |prevNode| == MAX_HEIGHT && Ascending(cmp, entries)
      requires Layout(nodeData, nodes, hs, maxHeight) && Stored(nodeData, kvData, nodes, entries) && Linked(nodeData, nodes, hs)
      requires n == |entries| && kvSize == Bytesize(entries)
      ensures Valid()
    {
      hide TotalOrder, Ascending, Layout, Stored, Linked, Bytesize;
    }

    /** `Reset`: back to the head alone. */
    method Reset()
      requires Valid()
      modifies this
      ensures Valid() && entries == []
    {
      Bounds();
      hide DB.Valid, Layout, Linked, Stored, TotalOrder;
      nodeData := nodeData[..N_NEXT + MAX_HEIGHT];
      nodeData := nodeData[N_KV := 0][N_KEY := 0][N_VAL := 0][N_HEIGHT := MAX_HEIGHT];
      ClearLinks();
      maxHeight, n, kvSize, kvData := 1, 0, 0, [];
      nodes, hs, entries := [], [], [];
      HeadAlone(nodeData);
      Assembled();
    }

    /** `prevNode` holds, for each level in use, the last node before rank `g` on that level. */
    ghost predicate PrevFound(g: nat, from: nat)
      reads this
    {
      |prevNode| == MAX_HEIGHT && |nodes| == |hs|
      && forall l: nat :: from <= l < maxHeight && l < MAX_HEIGHT ==> PrevIs(nodes, hs, g, l, prevNode[l])
    }

    /** Facts about the node under the search cursor and its successor on level `h`. */
    lemma Successor(ci: int, h: nat, key: Bytes)
      requires Valid() && -1 <= ci < |nodes| && h < HeightAt(hs, ci)
      ensures |nodes| == |hs| == |entries|
      ensures var j := NextIdx(hs, ci, h);
              && 0 <= Start(nodes, ci) + N_NEXT + h < |nodeData|
              && var next := nodeData[Start(nodes, ci) + N_NEXT + h];
              && next == Start(nodes, j) && (next != 0 <==> j < |nodes|)
              && (j < |nodes| ==> Stores(nodeData, kvData, next, entries[j])
                                  && (cmp(entries[j].key, key) < 0 <==> j < Rank(cmp, entries, key))
                                  && (cmp(entries[j].key, key) == 0 <==> entries[j].key == key)
                                  && (entries[j].key == key ==> j == Rank(cmp, entries, key)))
    {
      hide TotalOrder, Ascending, Layout, Stored, Linked, Stores, Rank, NextIdx;
      Sizes();
      LinkedAt(nodeData, nodes, hs, ci, h);
      var j := NextIdx(hs, ci, h);
      if j < |nodes| {
        NodePlace(nodeData, kvData, nodes, hs, maxHeight, entries, j);
        KeySide(cmp, entries, key, j);
      }
    }

    /** One more level of `prevNode`. */
    method Record(ghost g: nat, h: nat, ghost ci: int, node: int)
      requires Valid() && h < maxHeight && |nodes| == |hs| && PrevFound(g, h + 1) && g <= |nodes|
      requires IsPrev(hs, g, h, ci) && ci < |nodes| && node == Start(nodes, ci)
      modifies this`prevNode
      ensures Valid() && PrevFound(g, h)
    {
      hide TotalOrder, Ascending, Layout, Stored, Linked, Rank, NextIdx, IsPrev;
      prevNode := prevNode[h := node];
      assert PrevIs(nodes, hs, g, h, node);
    }

    /** `findGE`: the first node at or after `key`; with `prev` it also records the last node before it on every level. */
    method findGE(key: Bytes, prev: bool) returns (node: int, exact: bool)
      requires Valid()
      modifies this`prevNode
      ensures Valid() && (!prev ==> prevNode == old(prevNode))
      ensures var g := Rank(cmp, entries, key);
              && node == Start(nodes, g) && (exact <==> g < |entries| && entries[g].key == key)
              && (prev ==> PrevFound(g, 0))
    {
      hide TotalOrder, Ascending, Layout, Stored, Linked, Rank, NextIdx;
      ghost var g := Rank(cmp, entries, key);
      Sizes();
      node := 0;
      var h := maxHeight - 1;
      ghost var ci := -1;
      while true
        invariant Valid() && 0 <= h < maxHeight && (!prev ==> prevNode == old(prevNode))
        invariant |nodes| == |hs| == |entries| && -1 <= ci < g && ci < |nodes| && node == Start(nodes, ci) && h < HeightAt(hs, ci)
        invariant prev ==> PrevFound(g, h + 1)
        decreases h, |nodes| - ci
      {
        Successor(ci, h, key);
        ghost var j := NextIdx(hs, ci, h);
        var next := nodeData[node + N_NEXT + h];
        var c := 1;
        if next != 0 {
          var o := nodeData[next];
          c := cmp(kvData[o..o + nodeData[next + N_KEY]], key);
        }
        if c < 0 {
          node := next;
          ci := j;
        } else {
          if prev {
            Record(g, h, ci, node);
          } else if c == 0 {
            return next, true;
          }
          if h == 0 {
            GroundLevel(ci);
            return next, c == 0;
          }
          h := h - 1;
        }
      }
    }

    lemma Sizes()
      requires Valid()
      ensures |nodes| == |hs| == |entries|
    {
    }

    lemma GroundLevel(ci: int)
      requires Valid() && -1 <= ci < |nodes|
      ensures NextIdx(hs, ci, 0) == ci + 1
    {
    }

    /** The new-key case of `Put`: append a block of height `h` and splice it in. */
    method Insert(key: Bytes, value: Bytes, ghost g: nat)
      requires Valid() && g == Rank(cmp, entries, key) && (g == |entries| || entries[g].key != key) && PrevFound(g, 0)
      modifies this
      ensures Valid() && entries == old(entries[..g] + [KV(key, value)] + entries[g..])
    {
      hide TotalOrder, Ascending, Layout, Stored, Linked, Rank, Bytesize, WithNode, Inserted, Preds, Spliced, Stores;
      Sizes();
      ghost var e, d := KV(key, value), nodeData;
      var h :| 1 <= h <= MAX_HEIGHT;
      if h > maxHeight {
        RaiseHeight(h, g);
      }
      PredsFound(g, h);
      var kvOffset := |kvData|;
      kvData := kvData + key;
      kvData := kvData + value;
      var node := |nodeData|;
      Splice(kvOffset, |key|, |value|, h, g);
      SpliceKeepsLayout(d, nodeData, nodes, hs, maxHeight, g, h, prevNode);
      SpliceKeepsLinks(d, nodeData, nodes, hs, maxHeight, g, h, prevNode);
      NewStores(nodeData, old(kvData), node, e);
      SpliceKeepsStored(d, nodeData, old(kvData), kvData, nodes, hs, maxHeight, entries, g, h, prevNode, e);
      AscendingInsert(cmp, entries, e);
      InsertSizes(entries, g, e);
      kvSize := kvSize + |key| + |value|;
      n := n + 1;
      nodes, hs, entries := WithNode(nodes, g, node), Inserted(hs, g, h), entries[..g] + [e] + entries[g..];
    }

    /** Append the new node's block and, level by level, link it in behind the recorded predecessors. */
    method Splice(kvOffset: int, keyLen: int, valueLen: int, h: nat, ghost g: nat)
      requires Layout(nodeData, nodes, hs, maxHeight) && Preds(nodes, hs, g, h, prevNode) && 1 <= h <= MAX_HEIGHT == |prevNode|
      modifies this`nodeData
      ensures Spliced(old(nodeData), nodeData, h, h, prevNode)
      ensures |old(nodeData)| + N_HEIGHT < |nodeData|
      ensures nodeData[|old(nodeData)|..|old(nodeData)| + N_HEIGHT] == [kvOffset, keyLen, valueLen]
    {
      hide Layout, Preds, Spliced;
      ghost var d := nodeData;
      var node := |nodeData|;
      nodeData := nodeData + [kvOffset, keyLen, valueLen, h];
      SpliceStart(d, nodeData, h, prevNode);
      for i := 0 to h
        invariant Spliced(d, nodeData, h, i, prevNode)
        invariant node + N_HEIGHT < |nodeData| && nodeData[node..node + N_HEIGHT] == [kvOffset, keyLen, valueLen]
      {
        var m := prevNode[i] + N_NEXT + i;
        SpliceStep(d, nodeData, nodes, hs, maxHeight, g, h, i, prevNode);
        nodeData := nodeData + [nodeData[m]];
        nodeData := nodeData[m := node];
      }
    }

    /** What the list is with entry `g` pointing at its new place in the buffer. */
    lemma OverwriteFacts(key: Bytes, value: Bytes, g: nat)
      requires Valid() && g < |entries| && entries[g].key == key
      ensures g < |nodes| && 0 <= nodes[g] && nodes[g] + N_VAL < |nodeData| && nodeData[nodes[g] + N_VAL] == |entries[g].value|
      ensures var d, es := nodeData[nodes[g] := |kvData|][nodes[g] + N_VAL := |value|], entries[g := KV(key, value)];
              && Layout(d, nodes, hs, maxHeight) && Stored(d, kvData + key + value, nodes, es) && Linked(d, nodes, hs)
              && Ascending(cmp, es) && Bytesize(es) == kvSize + |value| - |entries[g].value|
    {
      hide TotalOrder, Ascending, Linked, Bytesize;
      Sizes();
      BlockFits(nodeData, nodes, hs, maxHeight, g, N_VAL);
      assert Stores(nodeData, kvData, nodes[g], entries[g]);
      hide Layout, Stored;
      OverwriteOk(nodeData, nodes, hs, maxHeight, kvData, entries, g, value, nodeData[nodes[g] := |kvData|][nodes[g] + N_VAL := |value|]);
      AscendingReplace(cmp, entries, g, value);
      ReplaceSizes(entries, g, value);
    }

    /** The overwriting case of `Put`: the new pair goes to the end of the buffer and the node moves to it. */
    method Overwrite(key: Bytes, value: Bytes, node: int, ghost g: nat)
      requires Valid() && g < |entries| && node == Start(nodes, g) && entries[g].key == key
      modifies this
      ensures Valid() && entries == old(entries)[g := KV(key, value)]
    {
      hide DB.Valid, TotalOrder, Ascending, Layout, Stored, Linked, Bytesize;
      Bounds();
      OverwriteFacts(key, value, g);
      var kvOffset := |kvData|;
      kvData := kvData + key;
      kvData := kvData + value;
      nodeData := nodeData[node := kvOffset];
      var m := nodeData[node + N_VAL];
      nodeData := nodeData[node + N_VAL := |value|];
      kvSize := kvSize + |value| - m;
      entries := entries[g := KV(key, value)];
      Assembled();
    }

    method Put(key: Bytes, value: Bytes)
      requires Valid()
      modifies this
      ensures Valid() && entries == PutEntry(cmp, old(entries), KV(key, value))
      ensures ToMap(entries) == old(ToMap(entries))[key := value]
      ensures n == |ToMap(entries)|
    {
      hide TotalOrder, Ascending, Layout, Stored, Linked, Rank, Bytesize, ToMap;
      PutIsUpdate(cmp, entries, KV(key, value));
      var node, exact := findGE(key, true);
      ghost var g := Rank(cmp, entries, key);
      if exact {
        Overwrite(key, value, node, g);
      } else {
        Insert(key, value, g);
      }
      MapSize(cmp, entries);
    }

    /** Returns whether the key was there (`ErrNotFound` otherwise). */
    method Delete(key: Bytes) returns (found: bool)
      requires Valid()
      modifies this
      ensures Valid() && entries == DeleteEntry(cmp, old(entries), key)
      ensures found <==> key in old(ToMap(entries))
      ensures ToMap(entries) == old(ToMap(entries)) - {key}
      ensures n == |ToMap(entries)|
    {
      hide TotalOrder, Ascending, Layout, Stored, Linked, Rank, Bytesize, ToMap;
      DeleteIsRemoval(cmp, entries, key);
      MapSize(cmp, entries);
      KeyAtRank(cmp, entries, key);
      var node, exact := findGE(key, true);
      if !exact {
        return false;
      }
      Unlink(node, Rank(cmp, entries, key));
      MapSize(cmp, entries);
      return true;
    }

    /** The found case of `Delete`. */
    method Unlink(node: int, ghost g: nat)
      requires Valid() && g < |entries| && node == Start(nodes, g) && PrevFound(g, 0)
      modifies this
      ensures Valid() && entries == old(entries[..g] + entries[g + 1..])
    {
      hide TotalOrder, Ascending, Layout, Stored, Linked, Bytesize, Preds, Unlinked, WithoutNode, Removed, Stores;
      Sizes();
      NodeHeight(g);
      var h := nodeData[node + N_HEIGHT];
      PredsFound(g, h);
      ghost var d := nodeData;
      UnlinkStart(d, prevNode, node);
      for i := 0 to h
        invariant Unlinked(d, nodeData, i, prevNode, node)
        invariant unchanged(this`prevNode) && unchanged(this`maxHeight) && unchanged(this`n) && unchanged(this`kvSize) && unchanged(this`kvData)
        invariant unchanged(this`nodes) && unchanged(this`hs) && unchanged(this`entries)
      {
        UnlinkStep(d, nodeData, nodes, hs, maxHeight, g, h, i, prevNode);
        var m := prevNode[i] + N_NEXT + i;
        nodeData := nodeData[m := nodeData[nodeData[m] + N_NEXT + i]];
      }
      UnlinkKeepsLayout(d, nodeData, nodes, hs, maxHeight, g, h, prevNode, node);
      UnlinkKeepsLinks(d, nodeData, nodes, hs, maxHeight, g, h, prevNode);
      UnlinkKeepsStored(d, nodeData, kvData, nodes, hs, maxHeight, entries, g, h, prevNode, node);
      StoredSizes(nodeData, kvData, nodes, entries, g);
      AscendingRemove(cmp, entries, g);
      RemoveSizes(entries, g);
      kvSize := kvSize - (nodeData[node + N_KEY] + nodeData[node + N_VAL]);
      n := n - 1;
      nodes, hs, entries := WithoutNode(nodes, g), Removed(hs, g), entries[..g] + entries[g + 1..];
    }

    lemma NodeHeight(g: nat)
      requires Valid() && g < |nodes|
      ensures 0 <= nodes[g] && nodes[g] + N_HEIGHT < |nodeData| && |nodes| == |hs| && nodeData[nodes[g] + N_HEIGHT] == hs[g] && 1 <= hs[g] <= maxHeight
    {
    }

    method Get(key: Bytes) returns (value: Option<Bytes>)
      requires Valid()
      modifies this`prevNode
      ensures Valid()
      ensures value == if key in ToMap(entries) then Some(ToMap(entries)[key]) else None
    {
      hide TotalOrder, Ascending, Layout, Stored, Linked, Rank, Bytesize, ToMap;
      KeyAtRank(cmp, entries, key);
      var node, exact := findGE(key, false);
      if exact {
        EntryAt(Rank(cmp, entries, key));
        var o := nodeData[node] + nodeData[node + N_KEY];
        return Some(kvData[o..o + nodeData[node + N_VAL]]);
      }
      return None;
    }

    method Contains(key: Bytes) returns (found: bool)
      requires Valid()
      modifies this`prevNode
      ensures Valid() && (found <==> key in ToMap(entries))
    {
      hide TotalOrder, Ascending, Layout, Stored, Linked, Rank, Bytesize, ToMap;
      KeyAtRank(cmp, entries, key);
      var _, exact := findGE(key, false);
      return exact;
    }

    /** The entry with the least key at or after `key`. */
    method Find(key: Bytes) returns (e: Option<KV>)
      requires Valid()
      modifies this`prevNode
      ensures Valid()
      ensures e.None? ==> forall k :: k in ToMap(entries) ==> cmp(k, key) < 0
      ensures e.Some? ==> e.value.key in ToMap(entries) && ToMap(entries)[e.value.key] == e.value.value && cmp(e.value.key, key) >= 0
                          && forall k :: k in ToMap(entries) && cmp(k, key) >= 0 ==> cmp(e.value.key, k) <= 0
    {
      hide TotalOrder, Ascending, Layout, Stored, Linked, Rank, Bytesize, ToMap;
      LeastAtRank(cmp, entries, key);
      var node, _ := findGE(key, false);
      ghost var g := Rank(cmp, entries, key);
      StartIsZero(g);
      if node != 0 {
        EntryAt(g);
        var o := nodeData[node];
        var m := o + nodeData[node + N_KEY];
        return Some(KV(kvData[o..m], kvData[m..m + nodeData[node + N_VAL]]));
      }
      return None;
    }

    lemma StartIsZero(i: int)
      requires Valid() && -1 <= i <= |entries|
      ensures |nodes| == |hs| == |entries| && (Start(nodes, i) == 0 <==> i == -1 || i == |nodes|)
    {
    }

    lemma EntryAt(g: nat)
      requires Valid() && g < |entries|
      ensures |nodes| == |entries| && Stores(nodeData, kvData, nodes[g], entries[g])
    {
    }

    /** `findLT`: the last node before `key`, or the head. */
    method findLT(key: Bytes) returns (node: int)
      requires Valid()
      ensures |nodes| == |entries| && node == Start(nodes, Rank(cmp, entries, key) - 1)
    {
      hide TotalOrder, Ascending, Layout, Stored, Linked, Rank, NextIdx;
      ghost var g := Rank(cmp, entries, key);
      Sizes();
      node := 0;
      var h := maxHeight - 1;
      ghost var ci := -1;
      while true
        invariant 0 <= h < maxHeight
        invariant |nodes| == |hs| == |entries| && -1 <= ci < g && ci < |nodes| && node == Start(nodes, ci) && h < HeightAt(hs, ci)
        decreases h, |nodes| - ci
      {
        Successor(ci, h, key);
        ghost var j := NextIdx(hs, ci, h);
        var next := nodeData[node + N_NEXT + h];
        var o := nodeData[next];
        if next == 0 || cmp(kvData[o..o + nodeData[next + N_KEY]], key) >= 0 {
          if h == 0 {
            GroundLevel(ci);
            break;
          }
          h := h - 1;
        } else {
          node := next;
          ci := j;
        }
      }
    }

    /** `findLast`: the last node, or the head. */
    method findLast() returns (node: int)
      requires Valid()
      ensures |nodes| == |entries| && node == Start(nodes, |nodes| - 1)
    {
      hide TotalOrder, Ascending, Layout, Stored, Linked, NextIdx;
      Sizes();
      node := 0;
      var h := maxHeight - 1;
      ghost var ci := -1;
      while true
        invariant 0 <= h < maxHeight
        invariant |nodes| == |hs| == |entries| && -1 <= ci < |nodes| && node == Start(nodes, ci) && h < HeightAt(hs, ci)
        decreases h, |nodes| - ci
      {
        Successor(ci, h, []);
        ghost var j := NextIdx(hs, ci, h);
        var next := nodeData[node + N_NEXT + h];
        if next == 0 {
          if h == 0 {
            GroundLevel(ci);
            break;
          }
          h := h - 1;
        } else {
          node := next;
          ci := j;
        }
      }
    }

    method RaiseHeight(h: nat, ghost g: nat)
      requires Valid() && PrevFound(g, 0) && g <= |nodes| && maxHeight < h <= MAX_HEIGHT
      modifies this`prevNode, this`maxHeight
      ensures Valid() && PrevFound(g, 0) && maxHeight == h
    {
      hide TotalOrder, Ascending, Stored, Linked, PrevIs, Bytesize;
      for i := maxHeight to h
        invariant Valid() && maxHeight == old(maxHeight) && PrevFound(g, 0)
        invariant forall l: nat :: maxHeight <= l < i ==> prevNode[l] == 0
      {
        prevNode := prevNode[i := 0];
      }
      forall l: nat | maxHeight <= l < h
        ensures PrevIs(nodes, hs, g, l, 0)
      {
        HeadIsPrev(g, l);
      }
      maxHeight := h;
    }

    /** Above the height in use the head precedes everything. */
    lemma HeadIsPrev(g: nat, l: nat)
      requires Valid() && g <= |nodes| && maxHeight <= l < MAX_HEIGHT
      ensures PrevIs(nodes, hs, g, l, 0)
    {
      NextUnique(hs, -1, l, |hs|);
      assert IsPrev(hs, g, l, -1) && Start(nodes, -1) == 0;
    }

    lemma PredsFound(g: nat, h: nat)
      requires Valid() && PrevFound(g, 0) && h <= maxHeight
      ensures Preds(nodes, hs, g, h, prevNode)
    {
    }
  }

  lemma UnlinkStart(d: seq<int>, ps: seq<int>, node: int)
    requires 0 <= node
    ensures Unlinked(d, d, 0, ps, node)
  {
  }

  lemma StoredSizes(d: seq<int>, kv: Bytes, nodes: seq<int>, es: seq<KV>, g: nat)
    requires Stored(d, kv, nodes, es) && g < |es|
    ensures |nodes| == |es| && 0 <= nodes[g] && nodes[g] + N_VAL < |d|
    ensures d[nodes[g] + N_KEY] == |es[g].key| && d[nodes[g] + N_VAL] == |es[g].value|
  {
  }

  // ----- the entries as a map

  /** A key is in the map exactly when it sits at its rank. */
  lemma KeyAtRank(cmp: Cmp, es: seq<KV>, key: Bytes)
    requires TotalOrder(cmp) && Ascending(cmp, es)
    ensures var g := Rank(cmp, es, key);
            && (key in ToMap(es) <==> g < |es| && es[g].key == key)
            && (key in ToMap(es) ==> ToMap(es)[key] == es[g].value)
  {
    hide Rank, ToMap, TotalOrder, Ascending;
    ToMapMembers(cmp, es);
    var g := Rank(cmp, es, key);
    if g < |es| && es[g].key == key {
      assert KV(key, es[g].value) in es;
    } else if key in ToMap(es) {
      var i :| 0 <= i < |es| && es[i] == KV(key, ToMap(es)[key]);
      AtOwnRank(cmp, es, key, i);
    }
  }

  /** An entry's key has its place as rank. */
  lemma AtOwnRank(cmp: Cmp, es: seq<KV>, key: Bytes, i: nat)
    requires TotalOrder(cmp) && Ascending(cmp, es) && i < |es| && es[i].key == key
    ensures Rank(cmp, es, key) == i
  {
    hide Rank;
    RankSide(cmp, es, key, i);
    if i > 0 {
      RankSide(cmp, es, key, i - 1);
    }
  }

  lemma LeastAtRank(cmp: Cmp, es: seq<KV>, key: Bytes)
    requires TotalOrder(cmp) && Ascending(cmp, es)
    ensures var g := Rank(cmp, es, key);
            && (g == |es| ==> forall k :: k in ToMap(es) ==> cmp(k, key) < 0)
            && (g < |es| ==> es[g].key in ToMap(es) && ToMap(es)[es[g].key] == es[g].value && cmp(es[g].key, key) >= 0
                             && forall k :: k in ToMap(es) && cmp(k, key) >= 0 ==> cmp(es[g].key, k) <= 0)
  {
    hide Rank, ToMap;
    ToMapMembers(cmp, es);
    var g := Rank(cmp, es, key);
    if g < |es| {
      assert KV(es[g].key, es[g].value) in es;
    }
    forall k | k in ToMap(es)
      ensures g == |es| ==> cmp(k, key) < 0
      ensures g < |es| && cmp(k, key) >= 0 ==> cmp(es[g].key, k) <= 0
    {
      var i :| 0 <= i < |es| && es[i] == KV(k, ToMap(es)[k]);
      RankSide(cmp, es, key, i);
    }
  }

  lemma PutIsUpdate(cmp: Cmp, es: seq<KV>, e: KV)
    requires TotalOrder(cmp) && Ascending(cmp, es)
    ensures Ascending(cmp, PutEntry(cmp, es, e)) && ToMap(PutEntry(cmp, es, e)) == ToMap(es)[e.key := e.value]
  {
    hide Rank, ToMap, TotalOrder;
    var g, es' := Rank(cmp, es, e.key), PutEntry(cmp, es, e);
    if g < |es| && es[g].key == e.key {
      AscendingReplace(cmp, es, g, e.value);
    } else {
      AscendingInsert(cmp, es, e);
    }
    ToMapMembers(cmp, es);
    ToMapMembers(cmp, es');
    hide PutEntry, Ascending;
    var a, b := ToMap(es'), ToMap(es)[e.key := e.value];
    forall k
      ensures k in a <==> k in b
      ensures k in a ==> a[k] == b[k]
    {
      PutMember(cmp, es, e, e);
      if k in a { PutMember(cmp, es, e, KV(k, a[k])); }
      if k in b { PutMember(cmp, es, e, KV(k, b[k])); }
    }
  }

  lemma PutMember(cmp: Cmp, es: seq<KV>, e: KV, f: KV)
    requires TotalOrder(cmp) && Ascending(cmp, es)
    ensures f in PutEntry(cmp, es, e) <==> if f.key == e.key then f == e else f in es
  {
    var g := Rank(cmp, es, e.key);
    OnlyAtRank(cmp, es, e.key);
    hide Rank, TotalOrder, Ascending;
    if g < |es| && es[g].key == e.key {
      Replaced(es, g, e, f);
    } else {
      Added(es, g, e, f);
    }
  }

  lemma Added(es: seq<KV>, g: nat, e: KV, f: KV)
    requires g <= |es| && forall i :: 0 <= i < |es| ==> es[i].key != e.key
    ensures f in es[..g] + [e] + es[g..] <==> if f.key == e.key then f == e else f in es
  {
    assert es == es[..g] + es[g..];
  }

  lemma Replaced(es: seq<KV>, g: nat, e: KV, f: KV)
    requires g < |es| && es[g].key == e.key && forall i :: 0 <= i < |es| && es[i].key == e.key ==> i == g
    ensures f in es[g := e] <==> if f.key == e.key then f == e else f in es
  {
    assert es[g := e][g] == e;
    if f in es && f.key != e.key {
      var i :| 0 <= i < |es| && es[i] == f;
      assert es[g := e][i] == f;
    }
  }

  lemma DeleteIsRemoval(cmp: Cmp, es: seq<KV>, key: Bytes)
    requires TotalOrder(cmp) && Ascending(cmp, es)
    ensures Ascending(cmp, DeleteEntry(cmp, es, key)) && ToMap(DeleteEntry(cmp, es, key)) == ToMap(es) - {key}
  {
    hide Rank, ToMap, TotalOrder;
    var g, es' := Rank(cmp, es, key), DeleteEntry(cmp, es, key);
    if g < |es| && es[g].key == key {
      AscendingRemove(cmp, es, g);
    }
    ToMapMembers(cmp, es);
    ToMapMembers(cmp, es');
    hide DeleteEntry, Ascending;
    var a, b := ToMap(es'), ToMap(es) - {key};
    forall k
      ensures k in a <==> k in b
      ensures k in a ==> a[k] == b[k]
    {
      if k in a { DeleteMember(cmp, es, key, KV(k, a[k])); }
      if k in b { DeleteMember(cmp, es, key, KV(k, b[k])); }
    }
  }

  lemma DeleteMember(cmp: Cmp, es: seq<KV>, key: Bytes, f: KV)
    requires TotalOrder(cmp) && Ascending(cmp, es)
    ensures f in DeleteEntry(cmp, es, key) <==> f.key != key && f in es
  {
    OnlyAtRank(cmp, es, key);
    var g := Rank(cmp, es, key);
    hide Rank, TotalOrder, Ascending;
    if g < |es| && es[g].key == key {
      Dropped(es, g, f);
    }
  }

  lemma OnlyAtRank(cmp: Cmp, es: seq<KV>, key: Bytes)
    requires TotalOrder(cmp) && Ascending(cmp, es)
    ensures forall i :: 0 <= i < |es| && es[i].key == key ==> i == Rank(cmp, es, key)
  {
    forall i | 0 <= i < |es| && es[i].key == key ensures i == Rank(cmp, es, key) {
      RankSide(cmp, es, key, i);
    }
  }

  lemma Dropped(es: seq<KV>, g: nat, f: KV)
    requires g < |es| && forall i :: 0 <= i < |es| && es[i].key == es[g].key ==> i == g
    ensures f in es[..g] + es[g + 1..] <==> f.key != es[g].key && f in es
  {
    if f in es && f.key != es[g].key {
      var i :| 0 <= i < |es| && es[i] == f;
      assert if i < g then es[..g][i] == f else es[g + 1..][i - g - 1] == f;
    }
  }

  lemma {:induction false} MapSize(cmp: Cmp, es: seq<KV>)
    requires TotalOrder(cmp) && Ascending(cmp, es)
    ensures |ToMap(es)| == |es|
  {
    if es != [] {
      var init, last := es[..|es| - 1], es[|es| - 1];
      MapSize(cmp, init);
      KeyAtRank(cmp, init, last.key);
    }
  }

  lemma SpliceStart(d: seq<int>, d': seq<int>, h: nat, ps: seq<int>)
    requires h <= |ps| && |d'| == |d| + N_NEXT && d'[..|d|] == d && d'[|d| + N_HEIGHT] == h
    ensures Spliced(d, d', h, 0, ps)
  {
  }

  lemma SpliceStep(d: seq<int>, d': seq<int>, nodes: seq<int>, hs: seq<nat>, maxHeight: nat, g: nat, h: nat, k: nat, ps: seq<int>)
    requires Layout(d, nodes, hs, maxHeight) && Preds(nodes, hs, g, h, ps) && k < h && Spliced(d, d', h, k, ps)
    ensures 0 <= ps[k] + N_NEXT + k < |d| <= |d'|
    ensures Spliced(d, (d' + [d'[ps[k] + N_NEXT + k]])[ps[k] + N_NEXT + k := |d|], h, k + 1, ps)
  {
    hide Layout, Spliced;
    var m := ps[k] + N_NEXT + k;
    var p := PredOf(nodes, hs, g, h, ps, k);
    assert |nodes| == |hs| && -1 <= p < |nodes| && k < HeightAt(hs, p);
    SlotInBlock(d, nodes, hs, maxHeight, g, h, ps, k, p, N_NEXT + k);
    assert 0 <= m by { BlockBounds(d, nodes, hs, maxHeight, p); }
    assert !IsSlot(ps, k, m);
    SplicedAt(d, d', h, k, ps, m);
    SplicedWith(d, d', h, k, ps, m);
  }

  lemma BlockBounds(d: seq<int>, nodes: seq<int>, hs: seq<nat>, maxHeight: nat, i: int)
    requires Layout(d, nodes, hs, maxHeight) && -1 <= i < |nodes|
    ensures 0 <= Start(nodes, i)
  {
  }

  lemma SplicedWith(d: seq<int>, d': seq<int>, h: nat, k: nat, ps: seq<int>, m: int)
    requires Spliced(d, d', h, k, ps) && k < h && m == ps[k] + N_NEXT + k && 0 <= m < |d| && !IsSlot(ps, k, m)
    ensures |d| <= |d'| && Spliced(d, (d' + [d'[m]])[m := |d|], h, k + 1, ps)
  {
    SlotsGrow(ps, k);
    hide IsSlot;
    var d2 := (d' + [d'[m]])[m := |d|];
    forall x | 0 <= x < |d|
      ensures d2[x] == if IsSlot(ps, k + 1, x) then |d| else d[x]
    {
      hide Spliced;
      SplicedAt(d, d', h, k, ps, x);
    }
    SplicedAt(d, d', h, k, ps, m);
    forall l: nat | l < k + 1
      ensures 0 <= ps[l] + N_NEXT + l < |d| && d2[|d| + N_NEXT + l] == d[ps[l] + N_NEXT + l]
    {
      assert l == k || d2[|d| + N_NEXT + l] == d'[|d| + N_NEXT + l];
    }
  }

  lemma SlotsGrow(ps: seq<int>, k: nat)
    requires k < |ps|
    ensures forall x :: IsSlot(ps, k + 1, x) <==> IsSlot(ps, k, x) || x == ps[k] + N_NEXT + k
  {
  }

  lemma NewStores(d: seq<int>, kv: Bytes, node: int, e: KV)
    requires 0 <= node && node + N_HEIGHT < |d| && d[node..node + N_HEIGHT] == [|kv|, |e.key|, |e.value|]
    ensures Stores(d, kv + e.key + e.value, node, e)
  {
    assert d[node] == d[node..node + N_HEIGHT][0] && d[node + N_KEY] == d[node..node + N_HEIGHT][1] && d[node + N_VAL] == d[node..node + N_HEIGHT][2];
  }
}
