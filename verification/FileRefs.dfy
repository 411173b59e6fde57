/** File reference counts of the session: `version.incref`/`releaseNB`, `addFileRef`, `version` and `setVersion`. */
module FileRefs {

  type FileNum = int

  /** All table numbers a version lists, with multiplicity. */
  function Bag(levels: seq<seq<FileNum>>): multiset<FileNum> {
    if levels == [] then multiset{} else Bag(levels[..|levels| - 1]) + multiset(levels[|levels| - 1])
  }

  /** What the reference counts should be: the tables of all live versions. */
  ghost function LiveBag(vs: seq<(multiset<FileNum>, bool)>): multiset<FileNum> {
    if vs == [] then multiset{}
    else LiveBag(vs[..|vs| - 1]) + if vs[|vs| - 1].1 then vs[|vs| - 1].0 else multiset{}
  }

  lemma {:induction false} LiveBagUp(vs: seq<(multiset<FileNum>, bool)>, i: nat)
    requires i < |vs| && !vs[i].1
    ensures LiveBag(vs[i := (vs[i].0, true)]) == LiveBag(vs) + vs[i].0
    decreases |vs|
  {
    var n := |vs| - 1;
    var vs' := vs[i := (vs[i].0, true)];
    if i < n {
      LiveBagUp(vs[..n], i);
      assert vs'[..n] == vs[..n][i := (vs[i].0, true)];
    } else {
      assert vs'[..n] == vs[..n];
    }
  }

  lemma LiveBagDown(vs: seq<(multiset<FileNum>, bool)>, i: nat)
    requires i < |vs| && vs[i].1
    ensures LiveBag(vs) == LiveBag(vs[i := (vs[i].0, false)]) + vs[i].0
  {
    var off := vs[i := (vs[i].0, false)];
    LiveBagUp(off, i);
    assert off[i := (off[i].0, true)] == vs;
  }

  lemma {:induction false} LiveBagHas(vs: seq<(multiset<FileNum>, bool)>, i: nat)
    requires i < |vs| && vs[i].1
    ensures vs[i].0 <= LiveBag(vs)
    decreases |vs|
  {
    if i < |vs| - 1 {
      LiveBagHas(vs[..|vs| - 1], i);
    }
  }

  class Version {
    const levels: seq<seq<FileNum>>
    var ref: int
    var released: bool

    constructor (levels: seq<seq<FileNum>>)
      ensures this.levels == levels && ref == 0 && !released
    {
      this.levels, ref, released := levels, 0, false;
    }
  }

  class Session {
    var fileRef: map<FileNum, int>
    var stVersion: Version?
    /** The files handed to `tops.remove`, in order. */
    var removed: seq<FileNum>
    /** Every version ever made current. */
    ghost var all: seq<Version>

    ghost function Live(): seq<(multiset<FileNum>, bool)>
      reads this`all, all
    {
      var a := all;
      seq(|a|, i requires 0 <= i < |a| reads a => (Bag(a[i].levels), a[i].ref > 0))
    }

    ghost function Count(f: FileNum): int
      reads this`fileRef
    {
      if f in fileRef then fileRef[f] else 0
    }

    /** The counters stand for the multiset `m`. */
    ghost predicate Counts(m: multiset<FileNum>)
      reads this`fileRef
    {
      (forall f :: f in fileRef ==> fileRef[f] > 0) && forall f :: Count(f) == m[f]
    }

    /** Versions are distinct and not over-released. */
    ghost predicate VersionsOk()
      reads this`all, all
    {
      (forall i, j :: 0 <= i < j < |all| ==> all[i] != all[j])
      && (forall i :: 0 <= i < |all| ==> all[i].ref >= 0 && (all[i].released <==> all[i].ref == 0))
    }

    /** The current version is held by the session. */
    ghost predicate CurrentHeld()
      reads this, all, stVersion
    {
      stVersion != null ==> stVersion in all && stVersion.ref >= 1
    }

    /** The counters are exact. */
    ghost predicate Exact()
      reads this`all, this`fileRef, all
    {
      VersionsOk() && Counts(LiveBag(Live()))
    }

    ghost predicate Valid()
      reads this, all, stVersion
    {
      Exact() && CurrentHeld()
    }

    constructor ()
      ensures Valid() && all == [] && stVersion == null && removed == []
    {
      fileRef, stVersion, removed, all := map[], null, [], [];
    }

    /** `addFileRef`; a negative count would make the original panic. */
    method AddFileRef(num: FileNum, ref: int, ghost m: multiset<FileNum>) returns (now: int)
      requires Counts(m) && m[num] + ref >= 0
      modifies this`fileRef
      ensures now == m[num] + ref && Counts(m[num := now])
    {
      now := ref + if num in fileRef then fileRef[num] else 0;
      assert Count(num) == m[num];
      if now > 0 {
        fileRef := fileRef[num := now];
      } else if now == 0 {
        fileRef := fileRef - {num};
      }
    }

    /** `incref`: the first reference counts every table of the version. */
    method Incref(v: Version)
      requires Exact() && !v.released && (v !in all ==> v.ref == 0)
      modifies this`fileRef, this`all, v`ref
      ensures Exact() && v in all && v.ref == old(v.ref) + 1
      ensures all == if old(v in all) then old(all) else old(all) + [v]
      ensures forall f :: Count(f) == old(Count(f)) + if old(v in all) then 0 else Bag(v.levels)[f]
    {
      hide LiveBag, Bag;
      ghost var m := LiveBag(Live());
      v.ref := v.ref + 1;
      if v.ref == 1 {
        NoLevels(v.levels);
        for i := 0 to |v.levels|
          invariant Counts(m + Bag(v.levels[..i])) && all == old(all) && v.ref == 1
        {
          for j := 0 to |v.levels[i]|
            invariant Counts(m + Bag(v.levels[..i]) + multiset(v.levels[i][..j])) && all == old(all) && v.ref == 1
          {
            ghost var before := m + Bag(v.levels[..i]) + multiset(v.levels[i][..j]);
            var _ := AddFileRef(v.levels[i][j], 1, before);
            OneMore(v.levels[i], j, before);
          }
          BagStep(v.levels, i);
        }
        assert v.levels[..|v.levels|] == v.levels;
        all := all + [v];
        LiveBagSnoc(old(Live()), Live());
      } else {
        assert Live() == old(Live());
      }
    }

    /** The loops of `releaseNB`, over the tables of one level and over the levels. */
    method UncountLevel(tables: seq<FileNum>, ghost m: multiset<FileNum>, ghost left: multiset<FileNum>)
      requires Counts(m) && m == left + multiset(tables)
      modifies this`fileRef, this`removed
      ensures Counts(left) && old(removed) <= removed && RemovedAtZero(m, left, removed[|old(removed)|..])
    {
      hide Counts, RemovedAtZero;
      NoneGone(m);
      ghost var gone: seq<FileNum>, now := [], m;
      for j := 0 to |tables|
        invariant now + multiset(tables[..j]) == m
        invariant Counts(now) && removed == old(removed) + gone && RemovedAtZero(m, now, gone)
      {
        Present(tables, j, left, now);
        OneMore(tables, j, now);
        OneGone(m, now, gone, tables[j]);
        var count := AddFileRef(tables[j], -1, now);
        if count == 0 {
          removed := removed + [tables[j]];
          gone := gone + [tables[j]];
        }
        now := now[tables[j] := now[tables[j]] - 1];
      }
      assert tables[..|tables|] == tables;
      Cancel(now, left, multiset(tables));
      assert removed[|old(removed)|..] == gone;
    }

    method Uncount(levels: seq<seq<FileNum>>, ghost m: multiset<FileNum>, ghost left: multiset<FileNum>)
      requires Counts(m) && m == left + Bag(levels)
      modifies this`fileRef, this`removed
      ensures Counts(left) && old(removed) <= removed && RemovedAtZero(m, left, removed[|old(removed)|..])
    {
      hide *;
      NoLevels(levels);
      NoneGone(m);
      assert removed[|old(removed)|..] == [];
      ghost var now := m;
      for i := 0 to |levels|
        invariant now + Bag(levels[..i]) == m && Counts(now) && old(removed) <= removed && RemovedAtZero(m, now, removed[|old(removed)|..])
      {
        BagStep(levels, i);
        BagSplit(levels, i);
        Fits(now, Bag(levels[..i]), left, Bag(levels), multiset(levels[i]));
        ghost var was, next := removed, now - multiset(levels[i]);
        UncountLevel(levels[i], now, next);
        GoneTwice(m, now, next, was[|old(removed)|..], removed[|was|..]);
        Tails(old(removed), was, removed);
        now := next;
      }
      assert levels[..|levels|] == levels;
      Cancel(now, left, Bag(levels));
    }

    static lemma Tails(a: seq<FileNum>, b: seq<FileNum>, c: seq<FileNum>)
      requires a <= b <= c
      ensures a <= c && c[|a|..] == b[|a|..] + c[|b|..]
    {
    }

    /** `releaseNB`: with the last reference every table loses one count, and those at zero are removed. */
    method ReleaseNB(v: Version)
      requires Exact() && v in all && v.ref >= 1
      modifies this`fileRef, this`removed, v
      ensures Exact() && v.ref == old(v.ref) - 1
      ensures old(removed) <= removed && RemovedAtZero(old(LiveBag(Live())), LiveBag(Live()), removed[|old(removed)|..])
    {
      hide LiveBag, Bag;
      ghost var at :| 0 <= at < |all| && all[at] == v;
      ghost var m := LiveBag(Live());
      v.ref := v.ref - 1;
      if v.ref > 0 {
        assert Live() == old(Live()) && removed[|old(removed)|..] == [];
        return;
      }
      ghost var off := old(Live())[at := (Bag(v.levels), false)];
      LiveBagDown(old(Live()), at);
      ghost var left := LiveBag(off);
      assert m == left + Bag(v.levels);
      Uncount(v.levels, m, left);
      v.released := true;
      assert Live() == off;
    }

    /** `setVersion`: hold the new version, then let go of the old one; no file the new one lists is removed. */
    method SetVersion(v: Version)
      requires Valid() && v !in all && v.ref == 0 && !v.released
      modifies this, v, stVersion
      ensures Valid() && stVersion == v && v.ref == 1 && all == old(all) + [v]
      ensures old(removed) <= removed
      ensures forall f :: multiset(removed[|old(removed)|..])[f] == if old(Count(f)) > 0 && Count(f) == 0 then 1 else 0
      ensures forall f :: f in Bag(v.levels) ==> f !in removed[|old(removed)|..]
    {
      hide LiveBag, Bag, Counts;
      Incref(v);
      ghost var m := LiveBag(Live());
      ghost var removed0 := removed;
      assert Counts(m);
      CountOf(m);
      if stVersion != null {
        ReleaseNB(stVersion);
      } else {
        NoneGone(m);
        assert removed[|removed0|..] == [];
      }
      stVersion := v;
      ghost var m' := LiveBag(Live());
      CountOf(m');
      InUse(v);
      GoneOnly(m, m', removed[|removed0|..], Bag(v.levels));
    }

    /** `version`: pin the current version. */
    method Pin() returns (v: Version)
      requires Valid() && stVersion != null
      modifies this`fileRef, this`all, stVersion`ref
      ensures v == stVersion && Valid() && v.ref == old(v.ref) + 1 && all == old(all)
      ensures forall f :: Count(f) == old(Count(f))
    {
      Incref(stVersion);
      v := stVersion;
    }

    /** `release` of a pinned version. */
    method Release(v: Version)
      requires Valid() && v in all && v.ref >= 1 && (v == stVersion ==> v.ref >= 2)
      modifies this`fileRef, this`removed, v
      ensures Valid() && v.ref == old(v.ref) - 1 && old(removed) <= removed
      ensures forall f :: multiset(removed[|old(removed)|..])[f] == if old(Count(f)) > 0 && Count(f) == 0 then 1 else 0
    {
      hide LiveBag, Bag, Counts;
      CountOf(LiveBag(Live()));
      ReleaseNB(v);
      CountOf(LiveBag(Live()));
    }

    lemma CountOf(m: multiset<FileNum>)
      requires Counts(m)
      ensures forall f :: Count(f) == m[f]
    {
    }

    /** A live version's files are all counted: current or pinned, none of them has been removed since. */
    lemma InUse(v: Version)
      requires Exact() && v in all && v.ref > 0
      ensures Bag(v.levels) <= LiveBag(Live())
      ensures forall f :: f in Bag(v.levels) ==> Count(f) >= 1
    {
      var i :| 0 <= i < |all| && all[i] == v;
      LiveBagHas(Live(), i);
      CountOf(LiveBag(Live()));
    }
  }

  lemma GoneOnly(m: multiset<FileNum>, m': multiset<FileNum>, gone: seq<FileNum>, kept: multiset<FileNum>)
    requires RemovedAtZero(m, m', gone) && kept <= m'
    ensures forall f :: f in kept ==> f !in gone
  {
    forall f | f in kept ensures f !in gone {
      assert m'[f] >= kept[f] >= 1;
      assert multiset(gone)[f] == 0;
    }
  }

  /** `gone` names, once each, the files whose count fell from positive to zero. */
  ghost predicate RemovedAtZero(before: multiset<FileNum>, after: multiset<FileNum>, gone: seq<FileNum>) {
    after <= before
    && forall f :: multiset(gone)[f] == if before[f] > 0 && after[f] == 0 then 1 else 0
  }

  lemma NoneGone(m: multiset<FileNum>)
    ensures RemovedAtZero(m, m, [])
  {
  }

  lemma NoLevels(levels: seq<seq<FileNum>>)
    ensures Bag(levels[..0]) == multiset{}
  {
  }

  lemma {:induction false} BagSplit(levels: seq<seq<FileNum>>, i: nat)
    requires i < |levels|
    ensures Bag(levels[..i]) + multiset(levels[i]) <= Bag(levels)
    decreases |levels|
  {
    var n := |levels| - 1;
    if i < n {
      BagSplit(levels[..n], i);
      assert levels[..n][..i] == levels[..i];
    }
  }

  lemma Cancel(a: multiset<FileNum>, b: multiset<FileNum>, c: multiset<FileNum>)
    requires a + c == b + c
    ensures a == b
  {
    forall f ensures a[f] == b[f] {
      assert (a + c)[f] == (b + c)[f];
    }
  }

  /** `now` still counts the next level `l`, when `x` is what has been taken off `left + all` so far. */
  lemma Fits(now: multiset<FileNum>, x: multiset<FileNum>, left: multiset<FileNum>, all: multiset<FileNum>, l: multiset<FileNum>)
    requires now + x == left + all && x + l <= all
    ensures l <= now && now - l + (x + l) == now + x && now == (now - l) + l
  {
    forall f ensures l[f] <= now[f] {
      assert (now + x)[f] == (left + all)[f] && (x + l)[f] <= all[f];
    }
  }

  lemma Present(s: seq<FileNum>, j: nat, left: multiset<FileNum>, now: multiset<FileNum>)
    requires j < |s| && now + multiset(s[..j]) == left + multiset(s)
    ensures now[s[j]] >= 1
  {
    assert s == s[..j] + [s[j]] + s[j + 1..];
    assert (now + multiset(s[..j]))[s[j]] == (left + multiset(s))[s[j]];
  }

  lemma GoneTwice(a: multiset<FileNum>, b: multiset<FileNum>, c: multiset<FileNum>, g: seq<FileNum>, g': seq<FileNum>)
    requires RemovedAtZero(a, b, g) && RemovedAtZero(b, c, g')
    ensures RemovedAtZero(a, c, g + g')
  {
    forall f ensures multiset(g + g')[f] == if a[f] > 0 && c[f] == 0 then 1 else 0 {
      assert multiset(g + g')[f] == multiset(g)[f] + multiset(g')[f];
    }
  }

  lemma OneGone(m: multiset<FileNum>, was: multiset<FileNum>, log: seq<FileNum>, num: FileNum)
    requires RemovedAtZero(m, was, log) && was[num] >= 1
    ensures RemovedAtZero(m, was[num := was[num] - 1], if was[num] == 1 then log + [num] else log)
    ensures was[num := was[num] - 1] + multiset{num} == was
  {
  }

  lemma OneMore(s: seq<FileNum>, j: nat, m: multiset<FileNum>)
    requires j < |s|
    ensures multiset(s[..j + 1]) == multiset(s[..j]) + multiset{s[j]}
    ensures m[s[j] := m[s[j]] + 1] == m + multiset{s[j]}
  {
    assert s[..j + 1] == s[..j] + [s[j]];
  }

  lemma BagStep(levels: seq<seq<FileNum>>, i: nat)
    requires i < |levels|
    ensures Bag(levels[..i + 1]) == Bag(levels[..i]) + multiset(levels[i])
    ensures levels[i][..|levels[i]|] == levels[i]
  {
    assert levels[..i + 1][..i] == levels[..i];
  }

  lemma LiveBagSnoc(vs: seq<(multiset<FileNum>, bool)>, vs': seq<(multiset<FileNum>, bool)>)
    requires |vs'| == |vs| + 1 && vs'[..|vs|] == vs
    ensures LiveBag(vs') == LiveBag(vs) + if vs'[|vs|].1 then vs'[|vs|].0 else multiset{}
  {
  }
}
