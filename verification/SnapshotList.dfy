/** The snapshot list of `db_snapshot.go`: elements in sequence order with reference counts, refining a
    multiset of acquired snapshots, whose least element (or the current sequence) is the watermark. */
module SnapshotList {

  class SnapshotElement {
    const sn: nat
    var ref: int

    constructor (sn: nat)
      ensures this.sn == sn && ref == 1
    {
      this.sn, ref := sn, 1;
    }
  }

  /** `count` copies of `sn`. */
  ghost function Copies(sn: nat, count: nat): multiset<nat> {
    multiset{}[sn := count]
  }

  ghost function Held(es: seq<(nat, nat)>): multiset<nat> {
    if es == [] then multiset{} else Held(es[..|es| - 1]) + Copies(es[|es| - 1].0, es[|es| - 1].1)
  }

  /** Sequence numbers strictly ascending. */
  ghost predicate Ascending(es: seq<(nat, nat)>) {
    forall i, j :: 0 <= i < j < |es| ==> es[i].0 < es[j].0
  }

  /** The list holds `sn` as often as its element says. */
  lemma {:induction false} HeldAt(es: seq<(nat, nat)>, i: nat)
    requires Ascending(es) && i < |es|
    ensures Held(es)[es[i].0] == es[i].1
  {
    var n := |es| - 1;
    if i < n {
      HeldAt(es[..n], i);
    } else {
      HeldBelow(es[..n], es[n].0);
    }
  }

  lemma {:induction false} HeldBelow(es: seq<(nat, nat)>, sn: nat)
    requires forall i :: 0 <= i < |es| ==> es[i].0 != sn
    ensures Held(es)[sn] == 0
  {
    if es != [] {
      HeldBelow(es[..|es| - 1], sn);
    }
  }

  lemma {:induction false} HeldSet(es: seq<(nat, nat)>, i: nat, count: nat)
    requires Ascending(es) && i < |es|
    ensures Held(es[i := (es[i].0, count)]) == Held(es)[es[i].0 := count]
  {
    var n := |es| - 1;
    var es' := es[i := (es[i].0, count)];
    if i < n {
      HeldSet(es[..n], i, count);
      assert es'[..n] == es[..n][i := (es[i].0, count)];
      Elsewhere(Held(es[..n]), es[i].0, count, es[n].0, es[n].1);
    } else {
      assert es'[..n] == es[..n];
      HeldBelow(es[..n], es[n].0);
      Here(Held(es[..n]), es[n].0, count, es[n].1);
    }
  }

  lemma Elsewhere(m: multiset<nat>, s: nat, count: nat, t: nat, k: nat)
    requires s != t
    ensures m[s := count] + Copies(t, k) == (m + Copies(t, k))[s := count]
  {
  }

  lemma Here(m: multiset<nat>, s: nat, count: nat, k: nat)
    requires m[s] == 0
    ensures m + Copies(s, count) == (m + Copies(s, k))[s := count]
  {
  }

  lemma {:induction false} HeldDrop(es: seq<(nat, nat)>, i: nat)
    requires i < |es| && es[i].1 == 0
    ensures Held(es[..i] + es[i + 1..]) == Held(es)
  {
    hide Copies, Held;
    var n := |es| - 1;
    HeldStep(es[..n], es[n]);
    assert es == es[..n] + [es[n]];
    if i < n {
      HeldDrop(es[..n], i);
      HeldStep(es[..n][..i] + es[..n][i + 1..], es[n]);
      assert es[..i] + es[i + 1..] == es[..n][..i] + es[..n][i + 1..] + [es[n]];
    } else {
      NoCopies(es[n].0);
      assert es[..i] + es[i + 1..] == es[..n];
    }
  }

  lemma HeldStep(es: seq<(nat, nat)>, e: (nat, nat))
    ensures Held(es + [e]) == Held(es) + Copies(e.0, e.1)
  {
    hide Copies;
    assert (es + [e])[..|es|] == es;
  }

  lemma NoCopies(s: nat)
    ensures Copies(s, 0) == multiset{}
  {
  }

  class DB {
    var seqNo: nat
    var snapsList: seq<SnapshotElement>

    /** Elements are distinct and in sequence order. */
    ghost predicate Ordered()
      reads this`snapsList, snapsList
    {
      forall i, j :: 0 <= i < j < |snapsList| ==> snapsList[i] != snapsList[j] && snapsList[i].sn < snapsList[j].sn
    }

    ghost predicate Valid()
      reads this, snapsList
    {
      Ordered() && forall i :: 0 <= i < |snapsList| ==> snapsList[i].ref > 0 && snapsList[i].sn <= seqNo
    }

    /** Valid but for the count of element `i`. */
    ghost predicate OthersValid(i: nat)
      reads this, snapsList
    {
      Ordered() && forall j :: 0 <= j < |snapsList| && j != i ==> snapsList[j].ref > 0 && snapsList[j].sn <= seqNo
    }

    ghost function Counted(): (es: seq<(nat, nat)>)
      reads this`snapsList, snapsList
      ensures |es| == |snapsList| && (Ordered() ==> Ascending(es))
    {
      var l := snapsList;
      seq(|l|, i requires 0 <= i < |l| reads l => (l[i].sn, if l[i].ref < 0 then 0 else l[i].ref))
    }

    /** The acquired and not yet released snapshots. */
    ghost function Snapshots(): multiset<nat>
      reads this`snapsList, snapsList
    {
      Held(Counted())
    }

    constructor ()
      ensures Valid() && Snapshots() == multiset{} && seqNo == 0
    {
      seqNo, snapsList := 0, [];
    }

    /** `acquireSnapshot`; the sequence counter never falls below the last snapshot, so the panic cannot happen. */
    method AcquireSnapshot() returns (se: SnapshotElement)
      requires Valid()
      modifies this`snapsList, snapsList
      ensures Valid() && se in snapsList && se.sn == seqNo
      ensures Snapshots() == old(Snapshots()) + multiset{seqNo}
    {
      hide Held, Valid;
      var n := |snapsList|;
      if n > 0 && snapsList[n - 1].sn == seqNo {
        se := ShareLast();
      } else {
        se := PushBack();
      }
    }

    /** The last snapshot was taken at the same sequence number. */
    method ShareLast() returns (se: SnapshotElement)
      requires Valid() && snapsList != [] && snapsList[|snapsList| - 1].sn == seqNo
      modifies snapsList
      ensures Valid() && se in snapsList && se.sn == seqNo
      ensures Snapshots() == old(Snapshots()) + multiset{seqNo}
    {
      hide Held;
      var n := |snapsList|;
      ghost var es := Counted();
      se := snapsList[n - 1];
      se.ref := se.ref + 1;
      HeldSet(es, n - 1, es[n - 1].1 + 1);
      HeldAt(es, n - 1);
      assert Counted() == es[n - 1 := (es[n - 1].0, es[n - 1].1 + 1)];
    }

    method PushBack() returns (se: SnapshotElement)
      requires Valid() && (snapsList == [] || snapsList[|snapsList| - 1].sn != seqNo)
      modifies this`snapsList
      ensures Valid() && se in snapsList && se.sn == seqNo
      ensures Snapshots() == old(Snapshots()) + multiset{seqNo}
    {
      hide Held;
      ghost var es := Counted();
      se := new SnapshotElement(seqNo);
      snapsList := snapsList + [se];
      HeldSnoc(es, Counted());
    }

    /** `releaseSnapshot`. */
    method ReleaseSnapshot(se: SnapshotElement)
      requires Valid() && se in snapsList
      modifies this`snapsList, se
      ensures Valid() && Snapshots() == old(Snapshots()) - multiset{se.sn}
    {
      hide *;
      ghost var i :| 0 <= i < |snapsList| && snapsList[i] == se;
      Decrement(se, i);
      if se.ref == 0 {
        Remove(se, i);
      }
    }

    /** `se.ref--`. */
    method Decrement(se: SnapshotElement, ghost i: nat)
      requires Valid() && i < |snapsList| && snapsList[i] == se
      modifies se
      ensures OthersValid(i) && (se.ref > 0 ==> Valid()) && se.ref >= 0
      ensures se.ref == old(se.ref) - 1 && Snapshots() == old(Snapshots()) - multiset{se.sn}
    {
      hide Held;
      ghost var es := Counted();
      HeldSet(es, i, es[i].1 - 1);
      HeldAt(es, i);
      OneLess(Held(es), es[i].0);
      se.ref := se.ref - 1;
      assert Counted() == es[i := (es[i].0, es[i].1 - 1)];
    }

    /** The element's place in the list. */
    method Place(se: SnapshotElement, ghost i: nat) returns (k: nat)
      requires OthersValid(i) && i < |snapsList| && snapsList[i] == se
      ensures k == i
    {
      k := 0;
      while snapsList[k] != se
        invariant 0 <= k <= i
        decreases i - k
      {
        k := k + 1;
      }
    }

    /** `snapsList.Remove(se.e)`. */
    method Remove(se: SnapshotElement, ghost i: nat)
      requires OthersValid(i) && i < |snapsList| && snapsList[i] == se && se.ref == 0
      modifies this`snapsList
      ensures snapsList == old(snapsList[..i] + snapsList[i + 1..]) && Valid() && Snapshots() == old(Snapshots())
    {
      hide Held;
      HeldDrop(Counted(), i);
      var k := Place(se, i);
      snapsList := snapsList[..k] + snapsList[k + 1..];
      assert Counted() == old(Counted()[..i] + Counted()[i + 1..]);
    }

    /** `minSeq`: no live snapshot is older, and one is that old unless there is none. */
    method MinSeq() returns (r: nat)
      requires Valid()
      ensures r <= seqNo && (forall s :: s in Snapshots() ==> r <= s)
      ensures if Snapshots() == multiset{} then r == seqNo else r in Snapshots()
    {
      hide Held;
      Members();
      if |snapsList| > 0 {
        assert snapsList[0].sn in Snapshots();
        return snapsList[0].sn;
      }
      return seqNo;
    }

    lemma Members()
      requires Valid()
      ensures forall s :: s in Snapshots() <==> exists i :: 0 <= i < |snapsList| && snapsList[i].sn == s
    {
      var es := Counted();
      forall s ensures s in Snapshots() <==> exists i :: 0 <= i < |snapsList| && snapsList[i].sn == s {
        if i :| 0 <= i < |snapsList| && snapsList[i].sn == s {
          HeldAt(es, i);
        } else {
          HeldBelow(es, s);
        }
      }
    }
  }

  lemma OneLess(m: multiset<nat>, s: nat)
    requires m[s] > 0
    ensures m[s := m[s] - 1] == m - multiset{s}
  {
  }

  lemma HeldSnoc(es: seq<(nat, nat)>, es': seq<(nat, nat)>)
    requires |es'| == |es| + 1 && es'[..|es|] == es && es'[|es|].1 == 1
    ensures Held(es') == Held(es) + multiset{es'[|es|].0}
  {
  }
}
