/** What a read or an iterator ends with is what was asked for when it started, as of the sequence number asked for. */
module Asked {
  import opened Keys
  import opened Lookup
  import opened Tables
  import opened Levels
  import opened Compaction
  import opened LevelEdits
  import opened Store
  import opened StoreProof

  /** The reader is on its way to answer `kind` at `q`, or has done so. */
  ghost predicate Asks(rd: Reader, kind: Kind, q: nat) {
    rd.q == q
    && match rd
       case HasSeq(asked, _) => asked == kind
       case HasMems(asked, _, _, _) => asked == kind
       case MissedMem(k, _, _, _) => kind == Get(k)
       case MissedBoth(k, _, _, _) => kind == Get(k)
       case Answered(k, _, _) => kind == Get(k)
       case Pinned(_, _, _, _) => kind == Scan
  }

  ghost predicate Crashes(s: State, s': State) {
    exists n :: Crash(s, s', n)
  }

  /** The process does not end in any step from state `i` to state `j`. */
  ghost predicate NoCrash(trace: seq<State>, i: nat, j: nat) {
    forall m :: i <= m < j && m + 1 < |trace| ==> !Crashes(trace[m], trace[m + 1])
  }

  ghost predicate CanStart(s: State, id: nat, kind: Kind, q: nat) {
    exists s' :: StartRead(s, s', id, kind, q)
  }

  /** No step but a crash ends a reader or changes what it asks. */
  lemma StepAsks(s: State, s': State, id: nat, kind: Kind, q: nat)
    requires Next(s, s') && !Crashes(s, s') && id in s.readers && Asks(s.readers[id], kind, q)
    ensures id in s'.readers && Asks(s'.readers[id], kind, q)
  {
    hide Next, Crash, WfTable, TableSet, SortedByNum, ClosedInputs, IsMinSeq, Store.Built, Edited, Answers, Finds, StoreEntries, FlushedTo, Segment;
    if s'.readers != s.readers {
      ReaderSteps(s, s');
    }
  }

  /** The steps that change readers. */
  lemma ReaderSteps(s: State, s': State)
    requires Next(s, s') && !Crashes(s, s') && s'.readers != s.readers
    ensures (exists id, kind, q :: StartRead(s, s', id, kind, q)) || (exists id :: LoadMems(s, s', id))
            || (exists id, r :: SearchMem(s, s', id, r)) || (exists id, r :: SearchFrozen(s, s', id, r))
            || (exists id, r :: SearchVersion(s, s', id, r)) || (exists id :: PinVersion(s, s', id))
  {
    hide Crash, StartRead, LoadMems, SearchMem, SearchFrozen, SearchVersion, PinVersion,
         WfTable, TableSet, SortedByNum, ClosedInputs, IsMinSeq, Store.Built, Edited, Answers, Finds, StoreEntries, FlushedTo, Segment;
  }

  /** Nor does it shorten the log. */
  lemma StepLogGrows(s: State, s': State)
    requires Next(s, s') && !Crashes(s, s')
    ensures s.log <= s'.log
  {
    hide Crash, WfTable, TableSet, SortedByNum, ClosedInputs, IsMinSeq, Store.Built, Edited, Answers, Finds, StoreEntries, FlushedTo;
  }

  lemma {:induction false} LogGrows(trace: seq<State>, i: nat, j: nat)
    requires Run(trace) && i <= j < |trace| && NoCrash(trace, i, j)
    ensures trace[i].log <= trace[j].log
  {
    hide Next, Init, Crashes;
    if i < j {
      LogGrows(trace, i, j - 1);
      StepLogGrows(trace[j - 1], trace[j]);
    }
  }

  lemma {:induction false} StillAsks(trace: seq<State>, i: nat, j: nat, id: nat, kind: Kind, q: nat)
    requires Run(trace) && i < j < |trace| && NoCrash(trace, i, j) && StartRead(trace[i], trace[i + 1], id, kind, q)
    ensures id in trace[j].readers && Asks(trace[j].readers[id], kind, q)
  {
    hide Next, Init, Crashes;
    if i + 1 < j {
      hide StartRead, Asks;
      StillAsks(trace, i, j - 1, id, kind, q);
      StepAsks(trace[j - 1], trace[j], id, kind, q);
    }
  }

  /** A read of `k` at `q` that a step of a run starts is still there in any later state up to a crash, and once it
      has finished it has returned what the flat log says of `k` as of `q`: the log when it started, and ever since. */
  lemma ReadReturnsWhatWasAsked(trace: seq<State>, i: nat, j: nat, id: nat, k: UKey, q: nat)
    requires Run(trace) && i < j < |trace| && NoCrash(trace, i, j) && StartRead(trace[i], trace[i + 1], id, Get(k), q)
    ensures id in trace[j].readers && !trace[j].readers[id].Pinned?
    ensures q <= |trace[i].log| <= |trace[j].log|
    ensures trace[j].readers[id].Answered? ==> trace[j].readers[id].r == LogGet(trace[i].log, k, q) == LogGet(trace[j].log, k, q)
  {
    StillAsks(trace, i, j, id, Get(k), q);
    LogGrows(trace, i, j);
    StartsInside(trace, i, id, Get(k), q);
    hide Run, NoCrash, StartRead, LogGet;
    LogGetPrefix(trace[i].log, trace[j].log, k, q);
    if trace[j].readers[id].Answered? {
      ReadsMatchLog(trace, j, id);
    }
  }

  /** An iterator that a step of a run starts at `q` holds, once it has pinned its sources, sources that answer every
      key as the flat log does as of `q`. */
  lemma IteratorShowsWhatWasAsked(trace: seq<State>, i: nat, j: nat, id: nat, q: nat)
    requires Run(trace) && i < j < |trace| && NoCrash(trace, i, j) && StartRead(trace[i], trace[i + 1], id, Scan, q)
    ensures id in trace[j].readers && !trace[j].readers[id].Answered?
    ensures q <= |trace[i].log| <= |trace[j].log|
    ensures trace[j].readers[id].Pinned? ==>
              var s := trace[j]; var rd := s.readers[id];
              && rd.q == q && rd.em in s.heap && (rd.fm.Some? ==> rd.fm.value in s.heap)
              && forall k, r :: Answers(Sources(s.heap, rd.em, rd.fm, rd.levels), k, q, r) <==> r == LogGet(trace[i].log, k, q)
  {
    StillAsks(trace, i, j, id, Scan, q);
    LogGrows(trace, i, j);
    StartsInside(trace, i, id, Scan, q);
    hide Run, NoCrash, StartRead, LogGet, Answers, Sources;
    var s := trace[j];
    var rd := s.readers[id];
    if rd.Pinned? {
      IteratorsMatchLog(trace, j, id, 0);
      forall k, r
        ensures Answers(Sources(s.heap, rd.em, rd.fm, rd.levels), k, q, r) <==> r == LogGet(trace[i].log, k, q)
      {
        IteratorsMatchLog(trace, j, id, k);
        LogGetPrefix(trace[i].log, trace[j].log, k, q);
      }
    }
  }

  lemma StartsInside(trace: seq<State>, i: nat, id: nat, kind: Kind, q: nat)
    requires Run(trace) && i + 1 < |trace| && StartRead(trace[i], trace[i + 1], id, kind, q)
    ensures q <= |trace[i].log|
  {
    RunKeeps(trace, i + 1);
    RunKeeps(trace, i);
    hide Run, ReaderOk, InvTables, InvJob, InvMems, Segment;
    SeqLoaded(trace[i + 1], id);
    assert trace[i + 1].log == trace[i].log;
  }

  // ----- what is published is seen

  lemma StepSeqGrows(s: State, s': State)
    requires Next(s, s') && !Crashes(s, s') && s.seqNum <= |s.log|
    ensures s.seqNum <= s'.seqNum
  {
    hide Crash, WfTable, TableSet, SortedByNum, ClosedInputs, IsMinSeq, Store.Built, Edited, Answers, Finds, StoreEntries, FlushedTo;
  }

  lemma {:induction false} SeqGrows(trace: seq<State>, i: nat, j: nat)
    requires Run(trace) && i <= j < |trace| && NoCrash(trace, i, j)
    ensures trace[i].seqNum <= trace[j].seqNum
  {
    hide Next, Init, Crashes;
    if i < j {
      SeqGrows(trace, i, j - 1);
      SeqInside(trace, j - 1);
      StepSeqGrows(trace[j - 1], trace[j]);
    }
  }

  lemma SeqInside(trace: seq<State>, i: nat)
    requires Run(trace) && i < |trace|
    ensures trace[i].seqNum <= |trace[i].log|
  {
    RunKeeps(trace, i);
    hide Run, ReaderOk, InvTables, InvJob, Segment;
  }

  /** Everything written before a publishing step is seen by every read that starts at the current sequence number
      afterwards: nothing in the log of that moment is behind the number it reads at. */
  lemma PublishedIsSeen(trace: seq<State>, p: nat, i: nat, j: nat, id: nat, k: UKey)
    requires Run(trace) && p < i < j < |trace| && NoCrash(trace, p, j) && Publish(trace[p], trace[p + 1])
    requires StartRead(trace[i], trace[i + 1], id, Get(k), trace[i].seqNum)
    ensures id in trace[j].readers && |trace[p].log| <= trace[i].seqNum <= |trace[i].log|
    ensures trace[j].readers[id].Answered? ==> trace[j].readers[id].r == LogGet(trace[i].log, k, trace[i].seqNum)
    ensures trace[j].readers[id].Answered? && (forall n :: |trace[p].log| <= n < trace[i].seqNum ==> trace[i].log[n].ukey != k)
            ==> trace[j].readers[id].r == LogGet(trace[p].log, k, |trace[p].log|)
  {
    SeqGrows(trace, p + 1, i);
    LogGrows(trace, p, i);
    assert trace[p + 1].seqNum == |trace[p].log|;
    SeqInside(trace, i);
    hide Run, Next, Init, StartRead, LogGet, Publish, Crashes;
    ReadReturnsWhatWasAsked(trace, i, j, id, k, trace[i].seqNum);
    if forall n :: |trace[p].log| <= n < trace[i].seqNum ==> trace[i].log[n].ukey != k {
      NothingBetween(trace[i].log, k, |trace[p].log|, trace[i].seqNum);
      LogGetPrefix(trace[p].log, trace[i].log, k, |trace[p].log|);
    }
  }

  lemma {:induction false} NothingBetween(log: seq<Op>, k: UKey, a: nat, b: nat)
    requires a <= b <= |log| && forall n :: a <= n < b ==> log[n].ukey != k
    ensures LogGet(log, k, a) == LogGet(log, k, b)
  {
    if a < b {
      NothingBetween(log, k, a, b - 1);
    }
  }

  // ----- snapshots

  /** Until it is released, and up to a crash, a snapshot can be read on, whatever is written. */
  lemma {:induction false} SnapshotStaysReadable(trace: seq<State>, a: nat, i: nat)
    requires Run(trace) && a < i < |trace| && NoCrash(trace, a, i) && AcquireSnapshot(trace[a], trace[a + 1])
    requires forall m :: a < m < i ==> !ReleaseSnapshot(trace[m], trace[m + 1], trace[a].seqNum)
    ensures trace[a].seqNum in trace[i].snaps
    ensures forall id, kind :: id !in trace[i].readers ==> CanStart(trace[i], id, kind, trace[a].seqNum)
  {
    hide Next, Init, Crashes;
    var q := trace[a].seqNum;
    if a + 1 < i {
      SnapshotStaysReadable(trace, a, i - 1);
      StepHolds(trace[i - 1], trace[i], q);
    }
    forall id, kind | id !in trace[i].readers
      ensures CanStart(trace[i], id, kind, q)
    {
      assert StartRead(trace[i], trace[i].(readers := trace[i].readers[id := HasSeq(kind, q)]), id, kind, q);
    }
  }

  lemma StepHolds(s: State, s': State, q: nat)
    requires Next(s, s') && !Crashes(s, s') && !ReleaseSnapshot(s, s', q) && q in s.snaps
    ensures q in s'.snaps
  {
    hide Next, Crash, Crashes;
    if s'.snaps != s.snaps {
      SnapSteps(s, s');
    }
  }

  /** The steps that change snapshots. */
  lemma SnapSteps(s: State, s': State)
    requires Next(s, s') && !Crashes(s, s') && s'.snaps != s.snaps
    ensures AcquireSnapshot(s, s') || exists q :: ReleaseSnapshot(s, s', q)
  {
    hide Crash, AcquireSnapshot, ReleaseSnapshot,
         WfTable, TableSet, SortedByNum, ClosedInputs, IsMinSeq, Store.Built, Edited, Answers, Finds, StoreEntries, FlushedTo, Segment;
  }

  /** Reading on a snapshot shows what a read of the moment it was acquired would have shown, whatever has been written,
      flushed and compacted before the read starts and while it goes on. */
  lemma SnapshotReadsItsMoment(trace: seq<State>, a: nat, i: nat, j: nat, id: nat, k: UKey)
    requires Run(trace) && a < i < j < |trace| && NoCrash(trace, a, j)
    requires AcquireSnapshot(trace[a], trace[a + 1]) && StartRead(trace[i], trace[i + 1], id, Get(k), trace[a].seqNum)
    ensures id in trace[j].readers && trace[a].seqNum <= |trace[a].log|
    ensures trace[j].readers[id].Answered? ==> trace[j].readers[id].r == LogGet(trace[a].log, k, trace[a].seqNum)
  {
    RunKeeps(trace, a);
    hide Run, StartRead, AcquireSnapshot, LogGet, Crash, ReaderOk, InvTables, InvJob, Segment;
    ReadReturnsWhatWasAsked(trace, i, j, id, k, trace[a].seqNum);
    LogGrows(trace, a, i);
    LogGetPrefix(trace[a].log, trace[i].log, k, trace[a].seqNum);
  }
}
