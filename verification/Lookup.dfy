/** What a read of one user key at one sequence number means for a set of entries. */
module Lookup {
  import opened Keys

  /** `e` is a version of `k` that a reader at `s` may see. */
  predicate Visible(e: Entry, k: UKey, s: nat) {
    e.ukey == k && e.sn <= s
  }

  /** `e` is the newest version of `k` at or below `s` among the entries `S`. */
  ghost predicate Newest(S: set<Entry>, k: UKey, s: nat, e: Entry) {
    e in S && Visible(e, k, s) && forall x :: x in S && Visible(x, k, s) ==> x.sn <= e.sn
  }

  /** A reader that finds `e` newest answers with its value, or "not found" for a tombstone. */
  function ValueOf(e: Entry): Option<Bytes> {
    if e.kt.Val? then Some(e.value) else None
  }

  /** `r` is a right answer for `k` at `s` over `S`. */
  ghost predicate Answers(S: set<Entry>, k: UKey, s: nat, r: Option<Bytes>) {
    if exists x :: x in S && Visible(x, k, s)
    then exists e :: Newest(S, k, s, e) && r == ValueOf(e)
    else r == None
  }

  /** No two entries share a user key and a sequence number. */
  ghost predicate UniqueSeq(S: set<Entry>) {
    forall x, y :: x in S && y in S && x.ukey == y.ukey && x.sn == y.sn ==> x == y
  }

  /** Over entries with unique sequence numbers a read has exactly one right answer. */
  lemma AnswerExistsAndIsUnique(S: set<Entry>, k: UKey, s: nat) returns (r: Option<Bytes>)
    requires UniqueSeq(S)
    ensures Answers(S, k, s, r)
    ensures forall r' :: Answers(S, k, s, r') ==> r' == r
  {
    if exists x :: x in S && Visible(x, k, s) {
      var e := NewestExists(S, k, s);
      r := ValueOf(e);
    } else {
      r := None;
    }
  }

  lemma NewestExists(S: set<Entry>, k: UKey, s: nat) returns (e: Entry)
    requires exists x :: x in S && Visible(x, k, s)
    ensures Newest(S, k, s, e)
    decreases S
  {
    var x :| x in S && Visible(x, k, s);
    var R := S - {x};
    if exists y :: y in R && Visible(y, k, s) {
      var y := NewestExists(R, k, s);
      e := if x.sn <= y.sn then y else x;
    } else {
      e := x;
    }
    forall z | z in S && Visible(z, k, s)
      ensures z.sn <= e.sn
    {
      assert z == x || z in R;
    }
  }

  /** Index of the first entry at or after `key`: what `memdb.Find` and `table.Reader.Find` return. */
  function FirstGE(es: seq<Entry>, key: Entry): (i: nat)
    ensures i <= |es|
    ensures forall j :: 0 <= j < i ==> Less(es[j], key)
    ensures i < |es| ==> AtMost(key, es[i])
  {
    if es == [] || !Less(es[0], key) then 0 else 1 + FirstGE(es[1..], key)
  }

  /** In a sorted run, the first entry at or after the seek key is the newest
      visible version of `k` if it has that user key, and otherwise there is none. */
  lemma FirstGEIsNewest(es: seq<Entry>, k: UKey, s: nat)
    requires Sorted(es)
    ensures var i := FirstGE(es, SeekKey(k, s));
            if i < |es| && es[i].ukey == k
            then Newest(Elems(es), k, s, es[i])
            else forall x :: x in es ==> !Visible(x, k, s)
  {
    var i := FirstGE(es, SeekKey(k, s));
    forall x | x in es && Visible(x, k, s)
      ensures i < |es| && es[i].ukey == k && x.sn <= es[i].sn
    {
      var j :| 0 <= j < |es| && es[j] == x;
      assert !Less(x, SeekKey(k, s));
      assert i <= j;
      assert i == j || Less(es[i], es[j]);
    }
  }
}
