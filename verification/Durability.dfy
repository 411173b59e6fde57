/** What a crash leaves of the write-merge protocol: its journal records, replayed. */
module Durability {
  import opened Keys
  import W = WriteMerge
  import R = Recovery

  /** The bytes-level groups behind the journal records of a run. */
  ghost predicate Holds(journal: seq<W.Group>, gs: seq<R.Group>) {
    |gs| == |journal|
    && forall i :: 0 <= i < |gs| ==> R.WfGroup(gs[i]) && gs[i].sn == journal[i].first && |gs[i].recs| == W.Total(journal[i].batches)
  }

  /** Replay takes every journal record of a run exactly when no record but the last failed at its `Sync`. */
  lemma ReplayTakesAll(rq: W.Requests, base: nat, ss: seq<W.State>, steps: seq<W.Step>, n: nat, gs: seq<R.Group>, from: nat)
    requires W.Run(rq, base, ss, steps) && n < |ss| && Holds(ss[n].journal, gs) && from <= base + 1
    ensures R.Accepted(gs, from) == gs <==> forall i :: 0 <= i < |gs| - 1 ==> ss[n].journal[i].counts
  {
    var j := ss[n].journal;
    R.AllAccepted(gs, from);
    hide W.Run, R.WfGroup, R.Accepted, W.Total;
    forall i: nat | i < |gs| ensures gs[i].sn >= from {
      W.JournalStarts(rq, base, ss, steps, n, i);
    }
    if forall i :: 0 <= i < |gs| - 1 ==> j[i].counts {
      forall i: nat, k: nat | i < k < |gs| ensures gs[i].sn + |gs[i].recs| <= gs[k].sn {
        W.JournalOrder(rq, base, ss, steps, n, i, k);
      }
    }
    if R.InSequence(gs, from) {
      forall i: nat | i < |gs| - 1 ensures j[i].counts {
        W.NumberReused(rq, base, ss, steps, n, i);
        W.RecordNotEmpty(rq, base, ss, steps, n, i);
      }
    }
  }

  /** After a failed `Sync` the next journal record, acknowledged or not, is not replayed when the failed one is. */
  lemma NextIsLost(rq: W.Requests, base: nat, ss: seq<W.State>, steps: seq<W.Step>, n: nat, gs: seq<R.Group>, from: nat, g: nat)
    requires W.Run(rq, base, ss, steps) && n < |ss| && Holds(ss[n].journal, gs) && g + 1 < |gs| && !ss[n].journal[g].counts
    requires gs[g].sn >= R.SeqAfter(R.Accepted(gs[..g], from), from)
    ensures R.Accepted(gs[..g + 2], from) == R.Accepted(gs[..g], from) + [gs[g]]
  {
    W.NumberReused(rq, base, ss, steps, n, g);
    W.RecordNotEmpty(rq, base, ss, steps, n, g);
    hide W.Run, R.WfGroup;
    assert gs[..g + 2] == gs[..g] + [gs[g]] + [gs[g + 1]];
    R.SameNumberSkipped(gs[..g], gs[g], gs[g + 1], from);
  }
}
