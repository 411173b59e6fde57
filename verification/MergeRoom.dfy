/** How much a leader merges: never more than there is room for in the memdb, and no more than the merge limit. */
module MergeRoom {
  import opened Keys
  import opened WriteMerge

  /** The `internalLen` of some requests together. */
  ghost function SizeOf(rq: Requests, ws: set<Id>): nat {
    if ws == {} then 0
    else
      var w :| w in ws;
      rq(w).size + SizeOf(rq, ws - {w})
  }

  lemma {:induction false} SizeWith(rq: Requests, ws: set<Id>, w: Id)
    requires w !in ws
    ensures SizeOf(rq, ws + {w}) == SizeOf(rq, ws) + rq(w).size
    decreases ws
  {
    var all := ws + {w};
    var x :| x in all && SizeOf(rq, all) == rq(x).size + SizeOf(rq, all - {x});
    if x == w {
      assert all - {x} == ws;
    } else {
      var less := ws - {x};
      assert all - {x} == less + {w} && ws == less + {x};
      SizeWith(rq, less, w);
      SizeWith(rq, less, x);
    }
  }

  /** The writers merged so far, the one still to be told so included. */
  ghost function Taken(s: State, lead: Lead): set<Id> {
    Waiting(s) + set w | w in s.phases && s.phases[w].Submitted? && lead.stage.Replying?
  }

  ghost predicate Gathers(lead: Lead) {
    lead.stage.Merging? || lead.stage.Replying? || lead.stage.Writing?
  }

  /** One of the requests asks for its records to be synced. */
  ghost predicate WantsSync(rq: Requests, l: Id, ws: set<Id>) {
    rq(l).sync || exists w :: w in ws && rq(w).sync
  }

  /** What the leader may still take, and has taken, is the merge limit it started with; and it syncs if one it writes for
      asked for it. */
  ghost predicate LimitOk(rq: Requests, s: State, l: Id, lead: Lead) {
    (lead.stage.Flushing? ==> lead.sync == rq(l).sync)
    && (Gathers(lead) ==>
          lead.limit + SizeOf(rq, Taken(s, lead)) == MergeLimit(rq(l).size, lead.free)
          && (Taken(s, lead) != {} ==> lead.limit >= 0)
          && (lead.sync <==> WantsSync(rq, l, Taken(s, lead))))
  }

  ghost predicate RoomOk(rq: Requests, s: State, h: Option<Id>) {
    h.Some? && h.value in s.phases && s.phases[h.value].Leading? ==> LimitOk(rq, s, h.value, s.phases[h.value].lead)
  }

  /** Who waits in a stage. */
  lemma WaitersOf(s: State, h: Option<Id>, l: Id)
    requires LeadsAt(s, l) && HolderIs(s, h) && WaitOk(s, h) && CountOk(s, h)
    ensures var lead := s.phases[l].lead;
            && h == Some(l)
            && (lead.stage.Flushing? ==> Waiting(s) == {})
            && (lead.stage.Merging? ==> (forall w :: !WaitsForReply(s, w)) && Taken(s, lead) == Waiting(s))
            && (lead.stage.Replying? ==> forall a, b :: WaitsForReply(s, a) && WaitsForReply(s, b) ==> a == b)
            && (!lead.stage.Replying? ==> Taken(s, lead) == Waiting(s))
  {
    LeaderHolds(s, h, l);
    hide HolderIs;
  }

  lemma FlushRoom(rq: Requests, s: State, h: Option<Id>, l: Id, free: int, s': State)
    requires Next(rq, s, FlushOk(l, free), s') && HolderIs(s, h) && WaitOk(s, h) && CountOk(s, h) && RoomOk(rq, s, h)
    ensures RoomOk(rq, s', h)
  {
    WaitersOf(s, h, l);
    hide HolderIs, WaitOk, CountOk, MergeLimit;
    assert Waiting(s') == Waiting(s);
    assert Taken(s', s'.phases[l].lead) == {};
  }

  lemma ReceiveRoom(rq: Requests, s: State, h: Option<Id>, l: Id, w: Id, s': State)
    requires Next(rq, s, Receive(l, w), s') && HolderIs(s, h) && WaitOk(s, h) && CountOk(s, h) && RoomOk(rq, s, h)
    ensures RoomOk(rq, s', h)
  {
    hide HolderIs, WaitOk, CountOk, MergeLimit, Total, Taken, WantsSync, SizeOf;
    WaitersOf(s, h, l);
    var lead, lead' := s.phases[l].lead, s'.phases[l].lead;
    OneTaken(s, l, w, s');
    assert h == Some(l) && LimitOk(rq, s, l, lead);
    assert rq(w).size > lead.limit ==> lead' == lead.(overflow := true, stage := Writing);
    assert rq(w).size <= lead.limit ==> lead' == Merge(lead, w, rq(w));
    if rq(w).size > lead.limit {
      assert LimitOk(rq, s', l, lead');
    } else {
      SizeWith(rq, Taken(s, lead), w);
      SyncWith(rq, l, Taken(s, lead), w);
    }
  }

  /** The request received is taken in, or waits for the lock. */
  lemma OneTaken(s: State, l: Id, w: Id, s': State)
    requires LeadsAt(s, l) && s.phases[l].lead.stage.Merging? && In(s, w, Selecting) && (forall x :: !WaitsForReply(s, x))
    requires s'.phases.Keys == s.phases.Keys && l in s'.phases && s'.phases[l].Leading? && s'.phases[w] == Submitted(l)
    requires forall x :: x in s.phases && x != l && x != w ==> s'.phases[x] == s.phases[x]
    ensures w !in Taken(s, s.phases[l].lead)
    ensures Taken(s', s'.phases[l].lead) == if s'.phases[l].lead.stage.Replying? then Taken(s, s.phases[l].lead) + {w} else Taken(s, s.phases[l].lead)
  {
    assert forall x :: x in s.phases && s.phases[x].Submitted? ==> WaitsForReply(s, x);
    assert forall x :: x in s.phases ==> x in s.phases.Keys && x in s'.phases.Keys;
    assert Waiting(s') == Waiting(s);
  }

  lemma SyncWith(rq: Requests, l: Id, ws: set<Id>, w: Id)
    ensures WantsSync(rq, l, ws + {w}) <==> WantsSync(rq, l, ws) || rq(w).sync
  {
  }

  lemma ReplyRoom(rq: Requests, s: State, h: Option<Id>, l: Id, w: Id, s': State)
    requires Next(rq, s, Reply(l, w), s') && HolderIs(s, h) && WaitOk(s, h) && CountOk(s, h) && RoomOk(rq, s, h)
    ensures RoomOk(rq, s', h)
  {
    hide HolderIs, WaitOk, CountOk, MergeLimit, Total, Taken, SizeOf;
    WaitersOf(s, h, l);
    WaiterMoves(s, l, w, s');
  }

  /** The writer that is told moves from the one waiting place to the other. */
  lemma WaiterMoves(s: State, l: Id, w: Id, s': State)
    requires LeadsAt(s, l) && s.phases[l].lead.stage.Replying? && WaitsForReply(s, w)
    requires forall a, b :: WaitsForReply(s, a) && WaitsForReply(s, b) ==> a == b
    requires s'.phases == s.phases[w := Merged(s.phases[w].leader)][l := Leading(s.phases[l].lead.(stage := Merging))]
    ensures Taken(s', s'.phases[l].lead) == Taken(s, s.phases[l].lead)
  {
    assert forall x :: x in s.phases && s.phases[x].Submitted? <==> x == w by {
      assert forall x :: x in s.phases && s.phases[x].Submitted? ==> WaitsForReply(s, x);
    }
    assert Waiting(s') == Waiting(s) + {w};
  }

  /** The other steps take nobody in. */
  lemma OtherRoom(rq: Requests, s: State, h: Option<Id>, step: Step, s': State)
    requires Next(rq, s, step, s') && HolderIs(s, h) && RoomOk(rq, s, h)
    requires !step.FlushOk? && !step.Receive? && !step.Reply? && !step.Ack?
    ensures RoomOk(rq, s', HolderAfter(h, step))
  {
    LeaderIsHolder(s, h);
    hide HolderIs, MergeLimit, Total, Merge;
    if h.Some? && HolderAfter(h, step) == h && h.value in s.phases && s.phases[h.value].Leading? && h.value in s'.phases && s'.phases[h.value].Leading? {
      var lead, lead' := s.phases[h.value].lead, s'.phases[h.value].lead;
      if Gathers(lead') {
        assert Waiting(s') == Waiting(s);
        assert Taken(s', lead') == Taken(s, lead);
      }
    }
  }

  lemma NextRoom(rq: Requests, base: nat, s: State, h: Option<Id>, step: Step, s': State)
    requires Inv(rq, base, s, h) && Next(rq, s, step, s') && RoomOk(rq, s, h)
    ensures RoomOk(rq, s', HolderAfter(h, step))
  {
    WaitParts(rq, base, s, h);
    hide *;
    match step
    case FlushOk(l, free) => SameHolder(h, step); FlushRoom(rq, s, h, l, free, s');
    case Receive(l, w) => SameHolder(h, step); ReceiveRoom(rq, s, h, l, w, s');
    case Reply(l, w) => SameHolder(h, step); ReplyRoom(rq, s, h, l, w, s');
    case Ack(l, w) => SameHolder(h, step); AckRoom(rq, s, h, l, w, s');
    case _ => OtherRoom(rq, s, h, step, s');
  }

  lemma SameHolder(h: Option<Id>, step: Step)
    requires step.FlushOk? || step.Receive? || step.Reply? || step.Ack?
    ensures HolderAfter(h, step) == h
  {
  }

  lemma WaitParts(rq: Requests, base: nat, s: State, h: Option<Id>)
    requires Inv(rq, base, s, h)
    ensures HolderIs(s, h) && WaitOk(s, h) && CountOk(s, h)
  {
    hide HolderIs, WaitOk, CountOk, OutcomeOk, GatherOk, JournalOk', Chain, SomeRecords;
  }

  lemma AckRoom(rq: Requests, s: State, h: Option<Id>, l: Id, w: Id, s': State)
    requires Next(rq, s, Ack(l, w), s') && HolderIs(s, h)
    ensures RoomOk(rq, s', h)
  {
    LeaderHolds(s, h, l);
    hide HolderIs, MergeLimit;
  }

  lemma {:induction false} RunRoom(rq: Requests, base: nat, ss: seq<State>, steps: seq<Step>, n: nat) returns (h: Option<Id>)
    requires Run(rq, base, ss, steps) && n < |ss|
    ensures Inv(rq, base, ss[n], h) && RoomOk(rq, ss[n], h)
  {
    hide Next, Inv, LimitOk;
    if n == 0 {
      h := None;
      InitInv(rq, base, ss[0]);
    } else {
      var h0 := RunRoom(rq, base, ss, steps, n - 1);
      h := HolderAfter(h0, steps[n - 1]);
      NextKeeps(rq, base, ss[n - 1], h0, steps[n - 1], ss[n]);
      NextRoom(rq, base, ss[n - 1], h0, steps[n - 1], ss[n]);
    }
  }

  /** Requests that together with the leader's own may be written at once: they fit the free room of the memdb and, beside
      an own batch of up to 128 KiB, another 128 KiB, or with a larger one a mebibyte in all. */
  ghost predicate MayMerge(own: nat, others: nat, free: int) {
    own + others <= free && if own <= 0x2_0000 then others <= 0x2_0000 else own + others <= 0x10_0000
  }

  /** Whatever a leader has merged, in any state of any run, is within these bounds. */
  lemma MergedFits(rq: Requests, base: nat, ss: seq<State>, steps: seq<Step>, n: nat, l: Id)
    requires Run(rq, base, ss, steps) && n < |ss| && LeadsAt(ss[n], l) && Gathers(ss[n].phases[l].lead)
    ensures var lead := ss[n].phases[l].lead;
            Taken(ss[n], lead) != {} ==> MayMerge(rq(l).size, SizeOf(rq, Taken(ss[n], lead)), lead.free)
  {
    var h := RunRoom(rq, base, ss, steps, n);
    hide Run, Inv;
    WaitParts(rq, base, ss[n], h);
    LeaderHolds(ss[n], h, l);
  }

  /** And a request that meets a merging leader is refused, and the lock handed over to it, exactly when it does not fit
      beside what has been merged. */
  lemma RefusedIffTooLarge(rq: Requests, base: nat, ss: seq<State>, steps: seq<Step>, n: nat, l: Id, w: Id)
    requires Run(rq, base, ss, steps) && n < |steps| && steps[n] == Receive(l, w)
    ensures LeadsAt(ss[n], l) && LeadsAt(ss[n + 1], l)
    ensures var lead := ss[n].phases[l].lead;
            ss[n + 1].phases[l].lead.overflow <==> !MayMerge(rq(l).size, SizeOf(rq, Taken(ss[n], lead)) + rq(w).size, lead.free)
  {
    hide *;
    TheStep(rq, base, ss, steps, n);
    var h := RunRoom(rq, base, ss, steps, n);
    WaitParts(rq, base, ss[n], h);
    RefusedAt(rq, ss[n], h, l, w, ss[n + 1]);
  }

  lemma TheStep(rq: Requests, base: nat, ss: seq<State>, steps: seq<Step>, n: nat)
    requires Run(rq, base, ss, steps) && n < |steps|
    ensures |ss| == |steps| + 1 && Next(rq, ss[n], steps[n], ss[n + 1])
  {
    hide Next;
  }

  lemma RefusedAt(rq: Requests, s: State, h: Option<Id>, l: Id, w: Id, s': State)
    requires Next(rq, s, Receive(l, w), s') && HolderIs(s, h) && WaitOk(s, h) && CountOk(s, h) && RoomOk(rq, s, h)
    ensures LeadsAt(s, l) && LeadsAt(s', l)
    ensures var lead := s.phases[l].lead;
            s'.phases[l].lead.overflow <==> !MayMerge(rq(l).size, SizeOf(rq, Taken(s, lead)) + rq(w).size, lead.free)
  {
    hide HolderIs, CountOk, Total, Taken, SizeOf, WantsSync;
    WaitersOf(s, h, l);
    NotYetOver(s, h, l);
    hide WaitOk;
  }

  lemma NotYetOver(s: State, h: Option<Id>, l: Id)
    requires LeadsAt(s, l) && h == Some(l) && WaitOk(s, h) && s.phases[l].lead.stage.Merging?
    ensures !s.phases[l].lead.overflow
  {
  }

  /** A journal record is synced exactly when one of those whose records are in it asked for that. */
  lemma SyncedIffAsked(rq: Requests, base: nat, ss: seq<State>, steps: seq<Step>, n: nat, l: Id)
    requires Run(rq, base, ss, steps) && n < |steps| && (steps[n] == JournalOk(l) || (steps[n].SyncFail? && steps[n].l == l))
    ensures LeadsAt(ss[n], l) && |ss[n + 1].journal| == |ss[n].journal| + 1
    ensures ss[n + 1].journal[|ss[n].journal|].sync <==> WantsSync(rq, l, Taken(ss[n], ss[n].phases[l].lead))
  {
    var h := RunRoom(rq, base, ss, steps, n);
    assert Next(rq, ss[n], steps[n], ss[n + 1]);
    hide Run, Inv, Total, WantsSync, MergeLimit, SizeOf;
    WaitParts(rq, base, ss[n], h);
    LeaderHolds(ss[n], h, l);
  }
}
