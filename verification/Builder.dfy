/** `tableCompactionBuilder`: the compaction loop with its saved state, so that a build
    that failed part-way can be run again from the last finished table. */
module Builder {
  import opened Keys
  import opened Tables
  import opened Levels
  import opened CompactionSpec
  import opened Compaction

  /** The saved state a rerun starts from. At index 0 it is a fresh start; later it is the
      point just after a table was finished before entry `i`, and processing that entry again
      without the grandparent check leads to the state a run with no failure is in. */
  ghost predicate ResumePoint(job: Job, es: seq<Entry>, i: nat, saved: Build) {
    i <= |es| && saved.open == []
    && if i == 0 then saved == Start
       else i < |es| && saved.hasLast && saved.lastUkey == es[i - 1].ukey && es[i - 1].ukey != es[i].ukey
            && Step(job, saved, es[i], true) == At(job, es, i + 1)
  }

  /** Finishing the open table before entry `i` makes a resume point. */
  lemma RotationIsResumePoint(job: Job, es: seq<Entry>, i: nat, b: Build, g: GpState, stop: bool)
    requires 0 < i < |es| && b == At(job, es, i) && b.open != []
    requires (g, stop) == StopBefore(job.gp, job.maxGP, b.gps, es[i])
    requires b.lastUkey != es[i].ukey && (stop || job.bytesLen(b.open) >= job.tableSize)
    ensures ResumePoint(job, es, i, b.(gps := g, open := [], done := b.done + [b.open]))
  {
    assert b == Step(job, At(job, es, i - 1), es[i - 1], false);
  }

  lemma ResumeBounds(job: Job, es: seq<Entry>, i: nat, saved: Build)
    requires ResumePoint(job, es, i, saved)
    ensures if i == 0 then saved == At(job, es, 0) else i < |es|
  {
  }

  /** Both ways of reaching entry `i` lead on to the state of a run with no failure. */
  lemma StepLeadsToAt(job: Job, es: seq<Entry>, i: nat, b: Build, resumed: bool)
    requires i < |es| && if resumed then i > 0 && ResumePoint(job, es, i, b) else b == At(job, es, i)
    ensures Step(job, b, es[i], resumed) == At(job, es, i + 1)
    ensures resumed ==> b.hasLast && b.lastUkey == es[i - 1].ukey
    ensures !resumed && b.hasLast ==> i > 0 && b.lastUkey == es[i - 1].ukey
    ensures !resumed && !b.hasLast ==> b.open == []
  {
    if !resumed && i > 0 {
      assert b == Step(job, At(job, es, i - 1), es[i - 1], false);
    }
  }

  lemma KeysAscend(es: seq<Entry>, i: nat)
    requires Sorted(es) && i < |es|
    ensures i > 0 ==> es[i - 1].ukey <= es[i].ukey
  {
    assert i > 0 ==> Less(es[i - 1], es[i]);
  }

  /** `tWriter`: a table being written. */
  datatype TableWriter = TableWriter(num: nat, entries: seq<Entry>)

  /** Contents of finished tables. */
  function Contents(ts: seq<Table>): seq<seq<Entry>> {
    seq(|ts|, i requires 0 <= i < |ts| => ts[i].entries)
  }

  /** Finished tables carry their key range, and their file numbers ascend below `next`. */
  ghost predicate Filed(ts: seq<Table>, next: nat) {
    (forall i :: 0 <= i < |ts| ==>
       ts[i].entries != [] && ts[i].imin == ts[i].entries[0] && ts[i].imax == ts[i].entries[|ts[i].entries| - 1] && ts[i].num < next)
    && forall i, j :: 0 <= i < j < |ts| ==> ts[i].num < ts[j].num
  }

  /** Finished tables carry the sizes of their files. */
  ghost predicate Weighed(fileSize: seq<Entry> -> nat, ts: seq<Table>) {
    forall i :: 0 <= i < |ts| ==> ts[i].size == fileSize(ts[i].entries)
  }

  /** How many entries tables hold. */
  ghost function Held(ts: seq<Table>): nat {
    |Concat(Contents(ts))|
  }

  lemma HeldNext(ts: seq<Table>, ts': seq<Table>, es: seq<Entry>)
    requires Contents(ts') == Contents(ts) + [es]
    ensures Held(ts') == Held(ts) + |es|
  {
    assert Contents(ts')[..|Contents(ts')| - 1] == Contents(ts);
  }

  class TableCompactionBuilder {
    const c: Compaction
    const minSeq: nat
    const tableSize: int
    const bytesLen: seq<Entry> -> int
    const fileSize: seq<Entry> -> nat

    var nextFileNum: nat
    var added: seq<Table>
    var tw: Option<TableWriter>

    var snapHasLastUkey: bool
    var snapLastUkey: UKey
    var snapLastSeq: nat
    var snapIter: nat
    var snapDropCnt: nat
    var dropCnt: nat

    constructor (c: Compaction, minSeq: nat, tableSize: int, bytesLen: seq<Entry> -> int, fileSize: seq<Entry> -> nat,
                 nextFileNum: nat, ghost es: seq<Entry>)
      requires WfLevels(c.levels) && Sorted(es) && minSeq < KEY_MAX_SEQ
      requires c.SnapGps() == Start.gps && c.snapTPtrs == seq(|c.levels|, _ => 0)
      ensures Resumable(es) && added == [] && this.c == c
      ensures TheJob() == Job(c.Deeper(), c.gp, c.maxGPOverlaps, minSeq, tableSize, bytesLen)
    {
      this.c, this.minSeq, this.tableSize := c, minSeq, tableSize;
      this.bytesLen, this.fileSize, this.nextFileNum := bytesLen, fileSize, nextFileNum;
      added, tw := [], None;
      snapHasLastUkey, snapLastUkey, snapLastSeq, snapIter, snapDropCnt, dropCnt := false, 0, 0, 0, 0, 0;
    }

    ghost function TheJob(): Job
      reads this, c
    {
      Job(c.Deeper(), c.gp, c.maxGPOverlaps, minSeq, tableSize, bytesLen)
    }

    ghost function Saved(): Build
      reads this, c
    {
      Build(snapHasLastUkey, snapLastUkey, snapLastSeq, c.SnapGps(), [], Contents(added))
    }

    /** The level cursors have passed only tables before every key still to come after `n` entries. */
    ghost predicate PassedUpTo(ptrs: seq<nat>, es: seq<Entry>, n: nat)
      reads c
    {
      forall k :: (0 < n <= |es| ==> es[n - 1].ukey <= k) ==> c.Passed(ptrs, k)
    }

    /** Between runs: no table is open and the saved state is a resume point. */
    ghost predicate Resumable(es: seq<Entry>)
      reads this, c
    {
      tw.None? && Filed(added, nextFileNum) && Weighed(fileSize, added) && snapIter == snapDropCnt + Held(added) && WfLevels(c.levels) && Sorted(es) && minSeq < KEY_MAX_SEQ
      && ResumePoint(TheJob(), es, snapIter, Saved())
      && PassedUpTo(c.snapTPtrs, es, snapIter)
    }

    /** `flush`: finish the open table; on failure nothing is added. */
    method Flush() returns (ok: bool)
      requires tw.Some? && tw.value.entries != []
      requires Filed(added, tw.value.num) && tw.value.num < nextFileNum
      modifies this`added, this`tw
      ensures Filed(added, nextFileNum)
      ensures !ok ==> added == old(added) && tw == old(tw)
      ensures ok ==> tw.None? && |added| == |old(added)| + 1 && added[..|old(added)|] == old(added)
      ensures ok ==> added[|old(added)|].entries == old(tw.value.entries)
      ensures ok ==> Contents(added) == Contents(old(added)) + [old(tw.value.entries)]
      ensures old(Weighed(fileSize, added)) ==> Weighed(fileSize, added)
    {
      if * {
        return false;
      }
      var es := tw.value.entries;
      added := added + [Table(tw.value.num, fileSize(es), es[0], es[|es| - 1], es)];
      tw := None;
      ok := true;
    }

    /** `appendKV`: open a table if none is, then write the entry; either may fail. */
    method AppendKV(e: Entry) returns (ok: bool)
      requires TwOk()
      modifies this`tw, this`nextFileNum
      ensures TwOk()
      ensures ok ==> tw.Some? && tw.value.entries == (if old(tw).Some? then old(tw).value.entries else []) + [e]
      ensures old(nextFileNum) <= nextFileNum
    {
      if tw.None? {
        if * {
          return false;
        }
        tw := Some(TableWriter(nextFileNum, []));
        nextFileNum := nextFileNum + 1;
      }
      if * {
        return false;
      }
      tw := Some(tw.value.(entries := tw.value.entries + [e]));
      ok := true;
    }

    /** Finished tables are filed before the open one. */
    ghost predicate TwOk()
      reads this
    {
      Filed(added, if tw.Some? then tw.value.num else nextFileNum) && Weighed(fileSize, added) && (tw.Some? ==> tw.value.num < nextFileNum)
    }

    /** `cleanup`: drop a half-written table; its number is given back if it was the last one handed out. */
    method Cleanup()
      requires TwOk()
      modifies this`tw, this`nextFileNum
      ensures tw.None? && Filed(added, nextFileNum) && Weighed(fileSize, added)
    {
      if tw.Some? {
        if nextFileNum == tw.value.num + 1 {
          nextFileNum := tw.value.num;
        }
        tw := None;
      }
    }

    /** The builder state in the middle of a run. */
    ghost function Current(hasLastUkey: bool, lastUkey: UKey, lastSeq: nat): Build
      reads this, c
    {
      Build(hasLastUkey, lastUkey, lastSeq, c.Gps(), if tw.Some? then tw.value.entries else [], Contents(added))
    }

    /** What holds throughout a run: the saved state stays a resume point. */
    ghost predicate SavedOk(es: seq<Entry>)
      reads this, c
    {
      TwOk() && snapIter == snapDropCnt + Held(added) && WfLevels(c.levels) && Sorted(es) && minSeq < KEY_MAX_SEQ
      && ResumePoint(TheJob(), es, snapIter, Saved())
      && PassedUpTo(c.snapTPtrs, es, snapIter)
    }

    /** Entries before the resume point are skipped, and past it the state is that of a run with no failure. */
    ghost predicate Running(es: seq<Entry>, i: nat, start: nat, cur: Build)
      reads this, c
    {
      i <= |es| && (start <= i ==> snapIter <= i) && (tw.Some? ==> tw.value.entries != [])
      && PassedUpTo(c.tPtrs, es, if i < start then start else i)
      && (if i <= start && 0 < start then snapIter == start && cur == Saved() else cur == At(TheJob(), es, i))
    }

    /** Every entry so far has been dropped or is in a table, from the resume point on; up to it that is what was saved. */
    ghost predicate Tallied(i: nat, start: nat)
      reads this
    {
      if i < start then dropCnt == snapDropCnt && snapIter == start
      else i == dropCnt + Held(added) + if tw.Some? then |tw.value.entries| else 0
    }

    lemma Starts(es: seq<Entry>, cur: Build)
      requires SavedOk(es) && tw.None? && c.tPtrs == c.snapTPtrs && cur == Saved()
      requires if snapIter == 0 then Saved() == At(TheJob(), es, 0) else snapIter < |es|
      ensures Running(es, 0, snapIter, cur)
    {
      hide StopBefore, Sorted, WfLevels, Covered, Step, At, ResumePoint, Filed, Weighed, Held, Contents;
    }

    lemma RunsOn(es: seq<Entry>, i: nat, start: nat, cur: Build)
      requires Running(es, i, start, cur) && i < start && i < |es|
      ensures Running(es, i + 1, start, cur)
    {
      hide StopBefore, Sorted, WfLevels, Covered, Step, At, ResumePoint, Filed, Weighed, Held, Contents;
    }

    lemma Ended(es: seq<Entry>, start: nat, cur: Build)
      requires Running(es, |es|, start, cur) && (start == 0 || start < |es|)
      ensures cur == At(TheJob(), es, |es|) && (tw.Some? ==> tw.value.entries != [])
    {
    }

    lemma StartTallied()
      requires dropCnt == snapDropCnt && snapIter == snapDropCnt + Held(added) && tw.None?
      ensures Tallied(0, snapIter)
    {
    }

    lemma NextSkipped(i: nat, start: nat)
      requires i < start && Tallied(i, start) && tw.None? && snapIter == snapDropCnt + Held(added)
      ensures Tallied(i + 1, start)
    {
    }

    lemma AllTallied(i: nat, start: nat)
      requires Tallied(i, start) && start <= i
      ensures i == dropCnt + Held(added) + if tw.Some? then |tw.value.entries| else 0
    {
    }

    lemma TalliedBy(i: nat, start: nat)
      requires start <= i && i == dropCnt + Held(added) + if tw.Some? then |tw.value.entries| else 0
      ensures Tallied(i, start)
    {
    }

    /** Finish the open table and save the state reached before entry `i`. */
    method Rotate(es: seq<Entry>, i: nat, hasLastUkey: bool, lastUkey: UKey, lastSeq: nat, ghost b: Build, ghost stop: bool) returns (ok: bool)
      requires SavedOk(es) && 0 < i < |es| && tw.Some? && tw.value.entries != []
      requires b == At(TheJob(), es, i) && (c.Gps(), stop) == StopBefore(c.gp, c.maxGPOverlaps, b.gps, es[i])
      requires Current(hasLastUkey, lastUkey, lastSeq) == b.(gps := c.Gps())
      requires lastUkey != es[i].ukey && (stop || bytesLen(tw.value.entries) >= tableSize)
      requires hasLastUkey && lastUkey == es[i - 1].ukey && PassedUpTo(c.tPtrs, es, i)
      requires i == dropCnt + Held(added) + |b.open|
      modifies this, c`snapGPI, c`snapSeenKey, c`snapGPOverlappedBytes, c`snapTPtrs
      ensures TheJob() == old(TheJob()) && SavedOk(es) && dropCnt == old(dropCnt)
      ensures !ok ==> snapIter == old(snapIter)
      ensures ok ==> tw.None? && snapIter == i && Contents(added) == Contents(old(added)) + [b.open] && i == dropCnt + Held(added)
    {
      hide StopBefore, Sorted, WfLevels, Covered, At, Step, ResumePoint, Contents, Filed, Weighed, Held;
      ghost var before := added;
      ok := Flush();
      if ok {
        HeldNext(before, added, b.open);
        RotationIsResumePoint(TheJob(), es, i, b, c.Gps(), stop);
        c.Save();
        snapHasLastUkey, snapLastUkey, snapLastSeq := hasLastUkey, lastUkey, lastSeq;
        snapIter := i;
        snapDropCnt := dropCnt;
      }
    }

    /** The loop body of `run`. */
    method Process(es: seq<Entry>, i: nat, resumed: bool, hasLastUkey0: bool, lastUkey0: UKey, lastSeq0: nat)
        returns (ok: bool, hasLastUkey: bool, lastUkey: UKey, lastSeq: nat)
      requires SavedOk(es) && i < |es| && snapIter <= i && PassedUpTo(c.tPtrs, es, i)
      requires tw.Some? ==> tw.value.entries != []
      requires i == dropCnt + Held(added) + if tw.Some? then |tw.value.entries| else 0
      requires resumed ==> 0 < snapIter == i && Current(hasLastUkey0, lastUkey0, lastSeq0) == Saved() && tw.None?
      requires !resumed ==> Current(hasLastUkey0, lastUkey0, lastSeq0) == At(TheJob(), es, i)
      modifies this, c`gpi, c`seenKey, c`gpOverlappedBytes, c`tPtrs, c`snapGPI, c`snapSeenKey, c`snapGPOverlappedBytes, c`snapTPtrs
      ensures TheJob() == old(TheJob()) && SavedOk(es) && snapIter <= i
      ensures ok ==> (tw.Some? ==> tw.value.entries != [])
      ensures ok ==> i + 1 == dropCnt + Held(added) + if tw.Some? then |tw.value.entries| else 0
      ensures ok ==> PassedUpTo(c.tPtrs, es, i + 1) && Current(hasLastUkey, lastUkey, lastSeq) == At(TheJob(), es, i + 1)
    {
      hide Before, Sorted, WfLevels, Covered, At, ResumePoint, Held, Weighed, Filed, Contents, StopBefore;
      var e := es[i];
      StepLeadsToAt(TheJob(), es, i, Current(hasLastUkey0, lastUkey0, lastSeq0), resumed);
      ok, hasLastUkey, lastUkey, lastSeq := InFront(es, i, resumed, hasLastUkey0, lastUkey0, lastSeq0);
      if !ok {
        return;
      }
      var drop := Drops(es, i, lastSeq);
      lastSeq := e.sn;
      if drop {
        dropCnt := dropCnt + 1;
      } else {
        ok := AppendKV(e);
      }
    }

    /** The part of the loop body in front of the drop rules: whether to finish the open table, and a new user key. */
    method InFront(es: seq<Entry>, i: nat, resumed: bool, hasLastUkey0: bool, lastUkey0: UKey, lastSeq0: nat)
        returns (ok: bool, hasLastUkey: bool, lastUkey: UKey, lastSeq: nat)
      requires SavedOk(es) && i < |es| && snapIter <= i && PassedUpTo(c.tPtrs, es, i)
      requires tw.Some? ==> tw.value.entries != []
      requires i == dropCnt + Held(added) + if tw.Some? then |tw.value.entries| else 0
      requires resumed ==> 0 < snapIter == i && Current(hasLastUkey0, lastUkey0, lastSeq0) == Saved() && tw.None?
      requires !resumed ==> Current(hasLastUkey0, lastUkey0, lastSeq0) == At(TheJob(), es, i)
      modifies this, c`gpi, c`seenKey, c`gpOverlappedBytes, c`snapGPI, c`snapSeenKey, c`snapGPOverlappedBytes, c`snapTPtrs
      ensures TheJob() == old(TheJob()) && SavedOk(es) && snapIter <= i
      ensures ok ==> (tw.Some? ==> tw.value.entries != []) && i == dropCnt + Held(added) + if tw.Some? then |tw.value.entries| else 0
      ensures ok ==> Current(hasLastUkey, lastUkey, lastSeq) == Before(TheJob(), old(Current(hasLastUkey0, lastUkey0, lastSeq0)), es[i], resumed)
    {
      hide StopBefore, Sorted, WfLevels, Covered, At, ResumePoint, Held, Weighed, Filed, Contents;
      KeysAscend(es, i);
      hasLastUkey, lastUkey, lastSeq := hasLastUkey0, lastUkey0, lastSeq0;
      var e := es[i];
      ghost var before := Current(hasLastUkey, lastUkey, lastSeq);
      StepLeadsToAt(TheJob(), es, i, before, resumed);
      var shouldStop := false;
      if !resumed {
        shouldStop := c.ShouldStopBefore(e);
      }
      if !hasLastUkey || lastUkey != e.ukey {
        if tw.Some? && (shouldStop || bytesLen(tw.value.entries) >= tableSize) {
          ok := Rotate(es, i, hasLastUkey, lastUkey, lastSeq, before, shouldStop);
          if !ok {
            return;
          }
        }
        hasLastUkey, lastUkey, lastSeq := true, e.ukey, KEY_MAX_SEQ;
      }
      ok := true;
    }

    /** The drop rules, given the seq of the previous entry of the same user key. */
    method Drops(es: seq<Entry>, i: nat, lastSeq: nat) returns (drop: bool)
      requires SavedOk(es) && i < |es| && PassedUpTo(c.tPtrs, es, i)
      modifies c`tPtrs
      ensures TheJob() == old(TheJob()) && SavedOk(es) && PassedUpTo(c.tPtrs, es, i + 1)
      ensures drop <==> lastSeq <= minSeq || (es[i].kt.Del? && es[i].sn <= minSeq && !Covered(c.Deeper(), es[i].ukey))
    {
      hide Sorted, WfLevels, Covered, At, Step, ResumePoint;
      KeysAscend(es, i);
      drop := lastSeq <= minSeq;
      if !drop && es[i].kt.Del? && es[i].sn <= minSeq {
        drop := c.BaseLevelForKey(es[i].ukey);
      }
    }

    /** `run`: merges the inputs into new tables. It may fail at any read or write; then the
        builder can run again, and a run that succeeds has produced the same tables, with the
        same contents and boundaries, as a run with no failure. */
    method Run(es: seq<Entry>) returns (ok: bool)
      requires Resumable(es)
      modifies this, c`gpi, c`seenKey, c`gpOverlappedBytes, c`tPtrs, c`snapGPI, c`snapSeenKey, c`snapGPOverlappedBytes, c`snapTPtrs
      ensures TheJob() == old(TheJob())
      ensures !ok ==> Resumable(es)
      ensures ok ==> Contents(added) == Outputs(TheJob(), es) && Filed(added, nextFileNum) && Weighed(fileSize, added)
      ensures ok ==> dropCnt + Held(added) == |es|
    {
      hide StopBefore, Sorted, WfLevels, Covered, Step, At, ResumePoint, Filed, Weighed, Held, Tallied, Contents;
      var snapResumed := snapIter > 0;
      var hasLastUkey, lastUkey, lastSeq: nat := snapHasLastUkey, snapLastUkey, snapLastSeq;
      dropCnt := snapDropCnt;
      ResumeBounds(TheJob(), es, snapIter, Saved());
      c.Restore();
      ghost var start := snapIter;
      StartTallied();
      Starts(es, Current(hasLastUkey, lastUkey, lastSeq));
      hide Running, PassedUpTo;
      var i := 0;
      while i < |es|
        invariant TheJob() == old(TheJob())
        invariant SavedOk(es) && Running(es, i, start, Current(hasLastUkey, lastUkey, lastSeq))
        invariant snapResumed <==> 0 < start && i <= start
        invariant snapResumed ==> tw.None?
        invariant Tallied(i, start)
      {
        if * {
          // the merged input reports a read error
          Cleanup();
          return false;
        }
        if i < snapIter {
          NextSkipped(i, start);
          RunsOn(es, i, start, Current(hasLastUkey, lastUkey, lastSeq));
          i := i + 1;
          continue;
        }
        var resumed := snapResumed;
        snapResumed := false;
        ok, hasLastUkey, lastUkey, lastSeq := Turn(es, i, resumed, hasLastUkey, lastUkey, lastSeq, start);
        if !ok {
          return;
        }
        i := i + 1;
      }
      AllTallied(i, start);
      Ended(es, start, Current(hasLastUkey, lastUkey, lastSeq));
      ok := Complete(es, hasLastUkey, lastUkey, lastSeq);
    }

    /** One turn of the loop from the resume point on; after a failure the half-written table goes. */
    method Turn(es: seq<Entry>, i: nat, resumed: bool, hasLastUkey0: bool, lastUkey0: UKey, lastSeq0: nat, ghost start: nat)
        returns (ok: bool, hasLastUkey: bool, lastUkey: UKey, lastSeq: nat)
      requires SavedOk(es) && i < |es| && snapIter <= i && start <= i && Tallied(i, start)
      requires Running(es, i, start, Current(hasLastUkey0, lastUkey0, lastSeq0))
      requires (resumed <==> 0 < start && i <= start) && (resumed ==> tw.None?)
      modifies this, c`gpi, c`seenKey, c`gpOverlappedBytes, c`tPtrs, c`snapGPI, c`snapSeenKey, c`snapGPOverlappedBytes, c`snapTPtrs
      ensures TheJob() == old(TheJob())
      ensures !ok ==> Resumable(es)
      ensures ok ==> SavedOk(es) && Tallied(i + 1, start) && Running(es, i + 1, start, Current(hasLastUkey, lastUkey, lastSeq))
    {
      hide StopBefore, Sorted, WfLevels, Covered, Step, At, ResumePoint, Filed, Weighed, Held, Tallied, Contents;
      AllTallied(i, start);
      ok, hasLastUkey, lastUkey, lastSeq := Process(es, i, resumed, hasLastUkey0, lastUkey0, lastSeq0);
      if ok {
        TalliedBy(i + 1, start);
      } else {
        Cleanup();
      }
    }

    /** The end of `run`: the source reports a read error or the last table is finished. */
    method Complete(es: seq<Entry>, ghost hasLastUkey: bool, ghost lastUkey: UKey, ghost lastSeq: nat) returns (ok: bool)
      requires SavedOk(es) && (tw.Some? ==> tw.value.entries != [])
      requires Current(hasLastUkey, lastUkey, lastSeq) == At(TheJob(), es, |es|)
      requires |es| == dropCnt + Held(added) + if tw.Some? then |tw.value.entries| else 0
      modifies this`added, this`tw, this`nextFileNum
      ensures TheJob() == old(TheJob())
      ensures !ok ==> Resumable(es)
      ensures ok ==> Contents(added) == Outputs(TheJob(), es) && Filed(added, nextFileNum) && Weighed(fileSize, added)
      ensures ok ==> dropCnt + Held(added) == |es|
    {
      hide Weighed, Held, At, Sorted, WfLevels, Covered, ResumePoint;
      if * {
        Cleanup();
        return false;
      }
      ok := true;
      if tw.Some? {
        ghost var before, open := added, tw.value.entries;
        ok := Flush();
        if ok {
          HeldNext(before, added, open);
        }
      }
      Cleanup();
    }
  }

  /** `compactionTransact`: run again after every failure, at most `tries` times. However the
      failures fall, a build that succeeds holds exactly the entries that are not obsolete,
      in tables cut only between user keys. */
  method CompactionTransact(b: TableCompactionBuilder, es: seq<Entry>, tries: nat) returns (ok: bool)
    requires b.Resumable(es)
    modifies b, b.c`gpi, b.c`seenKey, b.c`gpOverlappedBytes, b.c`tPtrs, b.c`snapGPI, b.c`snapSeenKey, b.c`snapGPOverlappedBytes, b.c`snapTPtrs
    ensures !ok ==> b.Resumable(es)
    ensures ok ==> Contents(b.added) == Outputs(old(b.TheJob()), es) && Filed(b.added, b.nextFileNum) && Weighed(b.fileSize, b.added)
    ensures ok ==> b.dropCnt == |es| - |Kept(es, |es|, b.minSeq, b.c.Deeper())|
    ensures ok ==> CutAtKeys(Contents(b.added)) && Concat(Contents(b.added)) == Kept(es, |es|, b.minSeq, b.c.Deeper())
  {
    ok := false;
    OutputsAreKept(b.TheJob(), es);
    for n := 0 to tries
      invariant b.TheJob() == old(b.TheJob()) && b.Resumable(es)
    {
      ok := b.Run(es);
      if ok {
        return;
      }
    }
  }
}
