/** Finding an entry through separators: which block a seek has to look into, over the entries alone. */
module TableIndex {
  import opened Keys
  import opened InternalKeys
  import opened MemDb
  import opened BlockReader

  /** `iComparer` over the default comparer. */
  function ICmp(): Cmp {
    (a, b) => ICompareAll(LexCompare, a, b)
  }

  lemma ICmpIsTotal()
    ensures TotalOrder(ICmp())
  {
    LexIsTotalOrder();
    InternalOrderIsTotal(LexCompare);
    hide *;
    SameOrder();
  }

  lemma SameOrder()
    requires TotalOrder((a, b) => ICompareAll(LexCompare, a, b))
    ensures TotalOrder(ICmp())
  {
  }

  /** All entries of some blocks. */
  function Flat(bs: seq<seq<KV>>): seq<KV> {
    if bs == [] then [] else Flat(bs[..|bs| - 1]) + bs[|bs| - 1]
  }

  lemma {:induction false} FlatPrefix(bs: seq<seq<KV>>, i: nat, j: nat)
    requires i <= j <= |bs|
    ensures Flat(bs[..i]) <= Flat(bs[..j])
    ensures i < j ==> Flat(bs[..i]) + bs[i] <= Flat(bs[..j])
    decreases j
  {
    if i < j {
      assert bs[..j][..j - 1] == bs[..j - 1];
      FlatPrefix(bs, i, j - 1);
    }
  }

  /** Block `i` lies in the whole. */
  lemma FlatPlace(bs: seq<seq<KV>>, i: nat)
    requires i < |bs|
    ensures var o := |Flat(bs[..i])|; o + |bs[i]| == |Flat(bs[..i + 1])| <= |Flat(bs)| && Flat(bs)[o..o + |bs[i]|] == bs[i] && Flat(bs)[..o] == Flat(bs[..i])
  {
    FlatPrefix(bs, i, |bs|);
    assert bs[..|bs|] == bs && bs[..i + 1][..i] == bs[..i];
    var f, a := Flat(bs), Flat(bs[..i]);
    assert f[..|a + bs[i]|] == a + bs[i];
    assert f[|a|..|a| + |bs[i]|] == f[..|a + bs[i]|][|a|..];
  }

  /** Every entry of a list of blocks lies in one of them. */
  lemma {:induction false} FlatMember(bs: seq<seq<KV>>, x: nat) returns (k: nat, j: nat)
    requires x < |Flat(bs)|
    ensures k < |bs| && j < |bs[k]| && Flat(bs)[x] == bs[k][j]
  {
    var n := |bs| - 1;
    if x < |Flat(bs[..n])| {
      k, j := FlatMember(bs[..n], x);
    } else {
      k, j := n, x - |Flat(bs[..n])|;
    }
  }

  /** Separator `s` of a block ending in `a` when the next begins with `b`: `a` itself, or an internal key
      whose user key lies strictly between theirs. */
  ghost predicate SepOk(a: Bytes, s: Bytes, b: Bytes) {
    |a| >= 8 && |s| >= 8 && |b| >= 8 && ICompare(LexCompare, s, b) < 0
    && (s == a || (ICompare(LexCompare, a, s) < 0 && LexCompare(UserKey(s), UserKey(b)) < 0))
  }

  /** After the last block. */
  ghost predicate LastSepOk(a: Bytes, s: Bytes) {
    |a| >= 8 && |s| >= 8 && (s == a || ICompare(LexCompare, a, s) < 0)
  }

  /** Non-empty blocks in ascending order with a separator behind each. */
  ghost predicate Separated(bs: seq<seq<KV>>, seps: seq<Bytes>) {
    |seps| == |bs| && Ascending(ICmp(), Flat(bs))
    && (forall k :: 0 <= k < |bs| ==> bs[k] != [])
    && (forall k, j :: 0 <= k < |bs| && 0 <= j < |bs[k]| ==> |bs[k][j].key| >= 8)
    && (forall k :: 0 <= k < |bs| - 1 ==> SepOk(LastKey(bs[k]), seps[k], bs[k + 1][0].key))
    && (bs != [] ==> LastSepOk(LastKey(bs[|bs| - 1]), seps[|bs| - 1]))
  }

  function LastKey(es: seq<KV>): Bytes
    requires es != []
  {
    es[|es| - 1].key
  }

  /** A block is ascending when the whole is. */
  lemma BlockAscends(bs: seq<seq<KV>>, k: nat)
    requires Ascending(ICmp(), Flat(bs)) && k < |bs|
    ensures Ascending(ICmp(), bs[k])
  {
    hide *;
    FlatPlace(bs, k);
    SliceAscends(ICmp(), Flat(bs), |Flat(bs[..k])|, bs[k]);
  }

  lemma SliceAscends(cmp: Cmp, f: seq<KV>, o: nat, b: seq<KV>)
    requires Ascending(cmp, f) && o + |b| <= |f| && f[o..o + |b|] == b
    ensures Ascending(cmp, b)
  {
    forall i, j | 0 <= i < j < |b| ensures cmp(b[i].key, b[j].key) < 0 {
      assert b[i] == f[o..o + |b|][i] == f[o + i] && b[j] == f[o..o + |b|][j] == f[o + j];
    }
  }

  lemma SepAfterLast(bs: seq<seq<KV>>, seps: seq<Bytes>, k: nat)
    requires Separated(bs, seps) && k < |bs|
    ensures |seps| == |bs| && bs[k] != [] && (seps[k] == LastKey(bs[k]) || ICmp()(LastKey(bs[k]), seps[k]) < 0)
  {
    hide ICompare, Ascending, Flat;
    assert k < |bs| - 1 ==> SepOk(LastKey(bs[k]), seps[k], bs[k + 1][0].key);
  }

  lemma NotAfterLast(cmp: Cmp, es: seq<KV>, j: nat, s: Bytes)
    requires TotalOrder(cmp) && Ascending(cmp, es) && j < |es| && (s == LastKey(es) || cmp(LastKey(es), s) < 0)
    ensures cmp(es[j].key, s) <= 0
  {
    assert j < |es| - 1 ==> cmp(es[j].key, es[|es| - 1].key) < 0;
  }

  lemma AscendingWhole(bs: seq<seq<KV>>, seps: seq<Bytes>)
    requires Separated(bs, seps)
    ensures Ascending(ICmp(), Flat(bs))
  {
  }

  /** No entry of a block is after its separator. */
  lemma EntryBeforeSep(bs: seq<seq<KV>>, seps: seq<Bytes>, k: nat, j: nat)
    requires Separated(bs, seps) && k < |bs| && j < |bs[k]|
    ensures |seps| == |bs| && ICmp()(bs[k][j].key, seps[k]) <= 0
  {
    hide *;
    ICmpIsTotal();
    AscendingWhole(bs, seps);
    BlockAscends(bs, k);
    SepAfterLast(bs, seps, k);
    NotAfterLast(ICmp(), bs[k], j, seps[k]);
  }

  /** Every entry in front of a separator that is before the key is before the key. */
  lemma BlocksBefore(bs: seq<seq<KV>>, seps: seq<Bytes>, i: nat, key: Bytes)
    requires Separated(bs, seps) && i <= |bs| && forall k :: 0 <= k < i ==> ICmp()(seps[k], key) < 0
    ensures forall x :: 0 <= x < |Flat(bs[..i])| ==> ICmp()(Flat(bs[..i])[x].key, key) < 0
  {
    ICmpIsTotal();
    forall x | 0 <= x < |Flat(bs[..i])| ensures ICmp()(Flat(bs[..i])[x].key, key) < 0 {
      var k, j := FlatMember(bs[..i], x);
      EntryBeforeSep(bs, seps, k, j);
      hide ICmp, Separated;
    }
  }

  /** The first separator at or after the key leads to the block with the first such entry, or to the one before. */
  lemma FirstBlock(bs: seq<seq<KV>>, seps: seq<Bytes>, i: nat, r: nat, key: Bytes)
    requires Separated(bs, seps) && i <= |bs| && (forall k :: 0 <= k < i ==> ICmp()(seps[k], key) < 0)
    requires i < |bs| ==> ICmp()(seps[i], key) >= 0 && r == Rank(ICmp(), bs[i], key)
    ensures var g, o := Rank(ICmp(), Flat(bs), key), |Flat(bs[..i])|;
            if i == |bs| then g == |Flat(bs)| else g == o + r && o + |bs[i]| <= |Flat(bs)|
  {
    ICmpIsTotal();
    BlocksBefore(bs, seps, i, key);
    if i == |bs| {
      assert bs[..i] == bs;
      AllRanked(ICmp(), Flat(bs), key, |Flat(bs)|);
    } else {
      FlatPlace(bs, i);
      InBlock(bs, seps, i, r, key);
    }
  }

  /** The rank of the key among all entries, from its rank in the block. */
  lemma InBlock(bs: seq<seq<KV>>, seps: seq<Bytes>, i: nat, r: nat, key: Bytes)
    requires Separated(bs, seps) && i < |bs| && r == Rank(ICmp(), bs[i], key) && TotalOrder(ICmp())
    requires ICmp()(seps[i], key) >= 0
    requires forall x :: 0 <= x < |Flat(bs[..i])| ==> ICmp()(Flat(bs[..i])[x].key, key) < 0
    ensures Rank(ICmp(), Flat(bs), key) == |Flat(bs[..i])| + r
  {
    hide *;
    var f, o, b := Flat(bs), |Flat(bs[..i])|, bs[i];
    AscendingWhole(bs, seps);
    FlatPlace(bs, i);
    if r == |b| && i + 1 < |bs| {
      NextFirst(bs, seps, i, key);
    }
    assert i + 1 == |bs| ==> bs[..i + 1] == bs;
    forall x | 0 <= x < o ensures ICmp()(f[x].key, key) < 0 {
      assert f[x] == f[..o][x];
    }
    SliceRank(ICmp(), f, o, b, r, key);
  }

  /** A rank carried over from a slice to the whole. */
  lemma SliceRank(cmp: Cmp, f: seq<KV>, o: nat, b: seq<KV>, r: nat, key: Bytes)
    requires TotalOrder(cmp) && Ascending(cmp, f) && o + |b| <= |f| && f[o..o + |b|] == b && r == Rank(cmp, b, key)
    requires forall x :: 0 <= x < o ==> cmp(f[x].key, key) < 0
    requires r == |b| && o + r < |f| ==> cmp(f[o + r].key, key) >= 0
    ensures Rank(cmp, f, key) == o + r
  {
    hide *;
    SliceBelow(cmp, f, o, b, r, key);
    AllRanked(cmp, f, key, o + r);
  }

  lemma SliceAt(f: seq<KV>, o: nat, b: seq<KV>, i: nat)
    requires o + |b| <= |f| && f[o..o + |b|] == b && i < |b|
    ensures f[o + i] == b[i]
  {
    assert f[o..o + |b|][i] == b[i];
  }

  lemma SliceBelow(cmp: Cmp, f: seq<KV>, o: nat, b: seq<KV>, r: nat, key: Bytes)
    requires o + |b| <= |f| && f[o..o + |b|] == b && r == Rank(cmp, b, key)
    ensures r <= |b| && (forall x :: o <= x < o + r ==> cmp(f[x].key, key) < 0) && (r < |b| ==> cmp(f[o + r].key, key) >= 0)
  {
    hide Rank;
    forall x | o <= x < o + r ensures cmp(f[x].key, key) < 0 {
      SliceAt(f, o, b, x - o);
    }
    if r < |b| {
      SliceAt(f, o, b, r);
    }
  }

  /** The first entry behind a separator at or after the key is after the key. */
  lemma NextFirst(bs: seq<seq<KV>>, seps: seq<Bytes>, i: nat, key: Bytes)
    requires Separated(bs, seps) && i + 1 < |bs| && ICmp()(seps[i], key) >= 0 && TotalOrder(ICmp())
    ensures var o := |Flat(bs[..i + 1])|; o < |Flat(bs)| && Flat(bs)[o] == bs[i + 1][0] && ICmp()(Flat(bs)[o].key, key) >= 0
  {
    FlatPlace(bs, i + 1);
    var o, b := |Flat(bs[..i + 1])|, bs[i + 1];
    assert Flat(bs)[o..o + |b|][0] == b[0];
    assert SepOk(LastKey(bs[i]), seps[i], b[0].key);
    assert ICmp()(seps[i], b[0].key) < 0;
  }

  /** An exact match of the user key is never in the block behind: the block the separators lead to holds it. */
  lemma ExactInBlock(bs: seq<seq<KV>>, seps: seq<Bytes>, i: nat, key: Bytes)
    requires Separated(bs, seps) && i < |bs| && |key| >= 8 && ICmp()(seps[i], key) >= 0
    requires var g := Rank(ICmp(), Flat(bs), key); g == |Flat(bs[..i])| + Rank(ICmp(), bs[i], key) && g < |Flat(bs)| && |Flat(bs)[g].key| >= 8
    requires UserKey(Flat(bs)[Rank(ICmp(), Flat(bs), key)].key) == UserKey(key)
    ensures Rank(ICmp(), bs[i], key) < |bs[i]| && Flat(bs)[Rank(ICmp(), Flat(bs), key)] == bs[i][Rank(ICmp(), bs[i], key)]
  {
    hide *;
    ICmpIsTotal();
    var f, o, b, r := Flat(bs), |Flat(bs[..i])|, bs[i], Rank(ICmp(), bs[i], key);
    FlatPlace(bs, i);
    if r < |b| {
      assert f[o + r] == f[o..o + |b|][r];
    } else if i + 1 < |bs| {
      LastRanked(ICmp(), b, key);
      NonEmpty(bs, seps, i);
      NotNext(bs, seps, i, key);
      NextFirst(bs, seps, i, key);
    }
    assert i + 1 == |bs| ==> bs[..i + 1] == bs;
  }

  lemma NonEmpty(bs: seq<seq<KV>>, seps: seq<Bytes>, i: nat)
    requires Separated(bs, seps) && i < |bs|
    ensures bs[i] != [] && |seps| == |bs|
  {
  }

  lemma LastRanked(cmp: Cmp, es: seq<KV>, key: Bytes)
    ensures es != [] && Rank(cmp, es, key) == |es| ==> cmp(LastKey(es), key) < 0
  {
    var g := Rank(cmp, es, key);
    assert es != [] && g == |es| ==> cmp(es[g - 1].key, key) < 0;
  }

  lemma NotNext(bs: seq<seq<KV>>, seps: seq<Bytes>, i: nat, key: Bytes)
    requires Separated(bs, seps) && i + 1 < |bs| && |key| >= 8 && ICmp()(seps[i], key) >= 0 && TotalOrder(ICmp())
    requires bs[i] != [] && ICmp()(LastKey(bs[i]), key) < 0
    ensures bs[i + 1] != [] && |bs[i + 1][0].key| >= 8 && UserKey(bs[i + 1][0].key) != UserKey(key)
  {
    assert SepOk(LastKey(bs[i]), seps[i], bs[i + 1][0].key);
    assert seps[i] != LastKey(bs[i]);
    LexEqual(UserKey(seps[i]), UserKey(key));
  }
}
