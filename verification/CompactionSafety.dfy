/** One compaction changes no lookup at or above its watermark. */
module CompactionSafety {
  import opened Keys
  import opened Lookup
  import opened Tables
  import opened Levels
  import opened CompactionSpec

  /** Two sets of entries answer every read of `k` at `s` alike. */
  ghost predicate SameAnswers(S: set<Entry>, T: set<Entry>, k: UKey, s: nat) {
    forall r :: Answers(S, k, s, r) <==> Answers(T, k, s, r)
  }

  /** What the rest of the store may hold beside the compacted entries `es`: for a key they share
      it is newer than them, or it sits in a deeper table that covers the key. */
  ghost predicate Beside(rest: set<Entry>, es: seq<Entry>, deeper: seq<seq<Table>>) {
    forall x, y :: x in rest && y in es && x.ukey == y.ukey ==> x.sn > y.sn || Covered(deeper, x.ukey)
  }

  /** Replacing the compacted entries by those kept leaves every answer at `s >= minSeq` as it was. */
  lemma CompactionKeepsAnswers(rest: set<Entry>, es: seq<Entry>, minSeq: nat, deeper: seq<seq<Table>>, k: UKey, s: nat)
    requires Sorted(es) && Beside(rest, es, deeper) && UniqueSeq(rest + Elems(es))
    requires minSeq <= s
    ensures SameAnswers(rest + Elems(es), rest + Elems(Kept(es, |es|, minSeq, deeper)), k, s)
  {
    var kept := Kept(es, |es|, minSeq, deeper);
    var S, T := rest + Elems(es), rest + Elems(kept);
    KeptMembers(es, |es|, minSeq, deeper);
    assert T <= S;
    if exists x :: x in S && Visible(x, k, s) {
      var e := NewestExists(S, k, s);
      NewestIsUnique(S, k, s, e);
      if e in T {
        NewestIsUnique(T, k, s, e);
      } else {
        NewestDropped(rest, es, minSeq, deeper, k, s, e);
      }
    }
  }

  lemma NewestIsUnique(S: set<Entry>, k: UKey, s: nat, e: Entry)
    requires UniqueSeq(S) && Newest(S, k, s, e)
    ensures forall r :: Answers(S, k, s, r) <==> r == ValueOf(e)
  {
  }

  /** If the newest visible version is dropped then it is a tombstone and nothing visible is left. */
  lemma NewestDropped(rest: set<Entry>, es: seq<Entry>, minSeq: nat, deeper: seq<seq<Table>>, k: UKey, s: nat, e: Entry)
    requires Sorted(es) && Beside(rest, es, deeper) && UniqueSeq(rest + Elems(es)) && minSeq <= s
    requires Newest(rest + Elems(es), k, s, e) && e !in rest && e !in Kept(es, |es|, minSeq, deeper)
    ensures e.kt.Del?
    ensures forall x :: x in rest + Elems(Kept(es, |es|, minSeq, deeper)) ==> !Visible(x, k, s)
  {
    KeptMembers(es, |es|, minSeq, deeper);
    assert e in es;
    var i :| 0 <= i < |es| && es[i] == e;
    OnlyTombstone(rest, es, i, minSeq, deeper, k, s);
    forall x | x in rest + Elems(Kept(es, |es|, minSeq, deeper))
      ensures !Visible(x, k, s)
    {
      if x !in rest {
        assert x in Kept(es, |es|, minSeq, deeper);
        var j :| 0 <= j < |es| && es[j] == x && !Obsolete(es, j, minSeq, deeper);
        if Visible(x, k, s) {
          NotBelowTombstone(es, i, j, minSeq, deeper);
        }
      }
    }
  }

  lemma OnlyTombstone(rest: set<Entry>, es: seq<Entry>, i: nat, minSeq: nat, deeper: seq<seq<Table>>, k: UKey, s: nat)
    requires Sorted(es) && UniqueSeq(rest + Elems(es)) && minSeq <= s && i < |es|
    requires Newest(rest + Elems(es), k, s, es[i]) && Obsolete(es, i, minSeq, deeper)
    ensures es[i].kt.Del? && es[i].sn <= minSeq && !Covered(deeper, k)
  {
    hide Covered;
    forall j | 0 <= j < i && es[j].ukey == es[i].ukey
      ensures es[j].sn > minSeq
    {
      assert es[j] in Elems(es) && es[i] in Elems(es);
      assert es[j] in rest + Elems(es) && Less(es[j], es[i]);
    }
  }

  /** No kept entry of the same key is as old as a dropped one at the watermark. */
  lemma NotBelowTombstone(es: seq<Entry>, i: nat, j: nat, minSeq: nat, deeper: seq<seq<Table>>)
    requires Sorted(es) && i < |es| && j < |es| && es[j].ukey == es[i].ukey && es[i].sn <= minSeq
    requires Obsolete(es, i, minSeq, deeper) && !Obsolete(es, j, minSeq, deeper) && UniqueSeq(Elems(es))
    ensures es[j].sn > es[i].sn
  {
    hide Covered;
    assert es[j] in Elems(es) && es[i] in Elems(es);
    assert j < i ==> Less(es[j], es[i]);
  }

  /** Adding the same newer entries to two sets that answer alike keeps them alike. */
  lemma AddNewer(S: set<Entry>, T: set<Entry>, N: set<Entry>, k: UKey, s: nat)
    requires SameAnswers(S, T, k, s) && NewerThan(N, S) && NewerThan(N, T)
    ensures SameAnswers(S + N, T + N, k, s)
  {
    if exists x :: x in N && Visible(x, k, s) {
      var e := NewestExists(N, k, s);
      NewestOfUnion(S, N, k, s);
      NewestOfUnion(T, N, k, s);
    } else {
      OnlyOld(S, N, k, s);
      OnlyOld(T, N, k, s);
    }
  }

  lemma NewestOfUnion(S: set<Entry>, N: set<Entry>, k: UKey, s: nat)
    requires NewerThan(N, S) && exists x :: x in N && Visible(x, k, s)
    ensures forall r :: Answers(S + N, k, s, r) <==> Answers(N, k, s, r)
  {
    forall e ensures Newest(S + N, k, s, e) <==> Newest(N, k, s, e) {
      var x :| x in N && Visible(x, k, s);
      assert x in S + N;
    }
  }

  lemma OnlyOld(S: set<Entry>, N: set<Entry>, k: UKey, s: nat)
    requires forall x :: x in N ==> !Visible(x, k, s)
    ensures forall r :: Answers(S + N, k, s, r) <==> Answers(S, k, s, r)
  {
    forall e ensures Newest(S + N, k, s, e) <==> Newest(S, k, s, e) {
    }
    assert (exists x :: x in S + N && Visible(x, k, s)) <==> (exists x :: x in S && Visible(x, k, s));
  }
}
