/** The write-merge protocol of `putRec`, `Write`, `writeLocked` and `unlockWrite` as a step system.
    `writeLockC` has room for one token; the other three channels are unbuffered, so each step over
    them is one rendezvous with whichever goroutine happens to wait at the other end. */
module WriteMerge {
  import opened Keys

  type Id = nat
  type Error = int

  /** Record `n` of the write `owner`. */
  datatype Rec = Rec(owner: Id, n: int)

  /** One call of `Put`, `Delete` (`put`, one record) or `Write` (a batch); `size` is its `internalLen`. */
  datatype Request = Request(merge: bool, sync: bool, put: bool, count: nat, size: nat)
  type Requests = Id -> Request

  /** Where the lock holder stands in `writeLocked`. */
  datatype Stage =
    | Flushing
    | Merging
    | Replying                                       // at `writeMergedC <- true`
    | Writing
    | Unlocking(acks: nat, err: Option<Error>)

  /** The local variables of `writeLocked`. */
  datatype Lead = Lead(stage: Stage, batches: seq<seq<Rec>>, ours: Option<nat>, merged: nat, overflow: bool, sync: bool, limit: int, free: int)

  /** Where one call stands; the leader in `Submitted` and `Merged` is the one that received the request. */
  datatype Phase =
    | Selecting
    | Submitted(leader: Id)                          // at `<-writeMergedC`
    | Merged(leader: Id)                             // at `<-writeAckC`
    | Leading(lead: Lead)
    | Outside                                        // holds the lock without writing
    | Done(err: Option<Error>, via: Option<Id>)      // `via` wrote it; `None` when it was never written

  /** A journal record: the first sequence number and the batches, in order. It counts once the sequence
      counter has moved past it; a record whose `Sync` failed is there without counting. */
  datatype Group = Group(first: nat, batches: seq<seq<Rec>>, sync: bool, counts: bool)

  /** How a leader came out: written, failed with nothing in the journal, or failed at `Sync` with its record there. */
  datatype Outcome = Success | Unwritten(e: Error) | Unsynced(e: Error)

  function ErrorOf(o: Outcome): Option<Error> {
    match o
    case Success => None
    case Unwritten(e) => Some(e)
    case Unsynced(e) => Some(e)
  }

  datatype State = State(phases: map<Id, Phase>, locked: bool, seqNo: nat, journal: seq<Group>, outcome: map<Id, Outcome>)

  datatype Step =
    | Begin(w: Id)
    | Acquire(w: Id)
    | Give(w: Id, e: Error)
    | AcquireOutside(w: Id)
    | ReleaseOutside(w: Id)
    | FlushOk(l: Id, free: int)
    | FlushFail(l: Id, e: Error)
    | Receive(l: Id, w: Id)
    | Reply(l: Id, w: Id)
    | StopMerging(l: Id)
    | JournalOk(l: Id)
    | JournalFail(l: Id, e: Error)
    | SyncFail(l: Id, e: Error)
    | Ack(l: Id, w: Id)
    | HandOver(l: Id, w: Id)
    | Release(l: Id)

  function Tagged(w: Id, count: nat): seq<Rec> {
    seq(count, n => Rec(w, n))
  }

  /** `writeLocked` on entry: `putRec` passes its own batch as the one that may grow. */
  function FirstLead(w: Id, r: Request): Lead {
    Lead(Flushing, [Tagged(w, r.count)], if r.put then Some(0) else None, 0, false, r.sync, 0, 0)
  }

  /** The merge limit after the flush. */
  function MergeLimit(size: nat, free: int): int {
    var limit := if size > 0x2_0000 then 0x10_0000 - size else 0x2_0000;
    if limit > free - size then free - size else limit
  }

  /** Take in the request of `w`. */
  function Merge(lead: Lead, w: Id, r: Request): Lead
    requires lead.ours.Some? ==> lead.ours.value < |lead.batches|
  {
    var joined :=
      if !r.put then lead.(batches := lead.batches + [Tagged(w, r.count)])
      else if lead.ours.None? then lead.(batches := lead.batches + [Tagged(w, r.count)], ours := Some(|lead.batches|))
      else lead.(batches := lead.batches[lead.ours.value := lead.batches[lead.ours.value] + Tagged(w, r.count)]);
    joined.(stage := Replying, limit := lead.limit - r.size, sync := lead.sync || r.sync, merged := lead.merged + 1)
  }

  function Total(batches: seq<seq<Rec>>): nat {
    if batches == [] then 0 else Total(batches[..|batches| - 1]) + |batches[|batches| - 1]|
  }

  ghost predicate LeadsAt(s: State, l: Id) {
    l in s.phases && s.phases[l].Leading? && (s.phases[l].lead.ours.Some? ==> s.phases[l].lead.ours.value < |s.phases[l].lead.batches|)
  }

  ghost predicate In(s: State, w: Id, p: Phase) {
    w in s.phases && s.phases[w] == p
  }

  /** The writer blocked at one of the two reply channels, wherever its request went. */
  ghost predicate WaitsForReply(s: State, w: Id) {
    w in s.phases && s.phases[w].Submitted?
  }

  ghost predicate WaitsForAck(s: State, w: Id) {
    w in s.phases && s.phases[w].Merged?
  }

  ghost predicate AtStage(s: State, l: Id, stage: Stage) {
    LeadsAt(s, l) && s.phases[l].lead.stage == stage
  }

  function With(s: State, w: Id, p: Phase): State {
    s.(phases := s.phases[w := p])
  }

  ghost predicate Next(rq: Requests, s: State, step: Step, s': State) {
    match step
    case Begin(w) => w !in s.phases && rq(w).count >= 1 && (rq(w).put ==> rq(w).count == 1) && s' == With(s, w, Selecting)
    case Acquire(w) => In(s, w, Selecting) && !s.locked && s' == With(s, w, Leading(FirstLead(w, rq(w)))).(locked := true)
    case Give(w, e) => In(s, w, Selecting) && s' == With(s, w, Done(Some(e), None))
    case AcquireOutside(w) => w !in s.phases && !s.locked && s' == With(s, w, Outside).(locked := true)
    case ReleaseOutside(w) => In(s, w, Outside) && s' == With(s, w, Done(None, None)).(locked := false)
    case FlushOk(l, free) =>
      AtStage(s, l, Flushing)
      && s' == With(s, l, Leading(s.phases[l].lead.(stage := if rq(l).merge then Merging else Writing, limit := MergeLimit(rq(l).size, free), free := free)))
    case FlushFail(l, e) =>
      AtStage(s, l, Flushing)
      && s' == With(s, l, Leading(s.phases[l].lead.(stage := Unlocking(0, Some(e))))).(outcome := s.outcome[l := Unwritten(e)])
    case Receive(l, w) =>
      AtStage(s, l, Merging) && s.phases[l].lead.limit > 0 && In(s, w, Selecting) && rq(w).merge
      && var lead := s.phases[l].lead;
         s' == With(With(s, w, Submitted(l)), l,
                    Leading(if rq(w).size > lead.limit then lead.(overflow := true, stage := Writing) else Merge(lead, w, rq(w))))
    case Reply(l, w) =>
      AtStage(s, l, Replying) && WaitsForReply(s, w)
      && s' == With(With(s, w, Merged(s.phases[w].leader)), l, Leading(s.phases[l].lead.(stage := Merging)))
    case StopMerging(l) =>
      AtStage(s, l, Merging) && s' == With(s, l, Leading(s.phases[l].lead.(stage := Writing)))
    case JournalOk(l) =>
      AtStage(s, l, Writing)
      && var lead := s.phases[l].lead;
         s' == With(s, l, Leading(lead.(stage := Unlocking(lead.merged, None)))).(
                 journal := s.journal + [Group(s.seqNo + 1, lead.batches, lead.sync, true)],
                 seqNo := s.seqNo + Total(lead.batches), outcome := s.outcome[l := Success])
    case JournalFail(l, e) =>
      AtStage(s, l, Writing)
      && s' == With(s, l, Leading(s.phases[l].lead.(stage := Unlocking(s.phases[l].lead.merged, Some(e))))).(outcome := s.outcome[l := Unwritten(e)])
    case SyncFail(l, e) =>
      AtStage(s, l, Writing) && s.phases[l].lead.sync
      && var lead := s.phases[l].lead;
         s' == With(s, l, Leading(lead.(stage := Unlocking(lead.merged, Some(e))))).(
                 journal := s.journal + [Group(s.seqNo + 1, lead.batches, lead.sync, false)], outcome := s.outcome[l := Unsynced(e)])
    case Ack(l, w) =>
      LeadsAt(s, l) && s.phases[l].lead.stage.Unlocking? && s.phases[l].lead.stage.acks > 0 && WaitsForAck(s, w)
      && var lead := s.phases[l].lead;
         s' == With(With(s, w, Done(lead.stage.err, Some(s.phases[w].leader))), l,
                    Leading(lead.(stage := Unlocking(lead.stage.acks - 1, lead.stage.err))))
    case HandOver(l, w) =>
      LeadsAt(s, l) && s.phases[l].lead.stage.Unlocking? && s.phases[l].lead.stage.acks == 0 && s.phases[l].lead.overflow && WaitsForReply(s, w)
      && s' == With(With(s, l, Done(s.phases[l].lead.stage.err, Some(l))), w, Leading(FirstLead(w, rq(w))))
    case Release(l) =>
      LeadsAt(s, l) && s.phases[l].lead.stage.Unlocking? && s.phases[l].lead.stage.acks == 0 && !s.phases[l].lead.overflow
      && s' == With(s, l, Done(s.phases[l].lead.stage.err, Some(l))).(locked := false)
  }

  ghost predicate Init(s: State) {
    s.phases == map[] && !s.locked && s.journal == [] && s.outcome == map[]
  }

  // ----- the lock and the waiting writers

  ghost predicate Holds(s: State, w: Id) {
    w in s.phases && (s.phases[w].Leading? || s.phases[w].Outside?)
  }

  /** `h` is the one lock holder, and there is one exactly while the token is out. */
  ghost predicate HolderIs(s: State, h: Option<Id>) {
    (s.locked <==> h.Some?) && forall a: Id :: Holds(s, a) <==> h == Some(a)
  }

  function HolderAfter(h: Option<Id>, step: Step): Option<Id> {
    match step
    case Acquire(w) => Some(w)
    case AcquireOutside(w) => Some(w)
    case HandOver(_, w) => Some(w)
    case Release(_) => None
    case ReleaseOutside(_) => None
    case _ => h
  }

  lemma HolderKept(rq: Requests, s: State, h: Option<Id>, step: Step, s': State)
    requires Next(rq, s, step, s') && HolderIs(s, h)
    ensures HolderIs(s', HolderAfter(h, step))
  {
    hide FirstLead, MergeLimit, Merge, Total;
    assert forall a: Id :: LeadsAt(s, a) || In(s, a, Outside) ==> Holds(s, a);
  }

  predicate OwesReply(lead: Lead) {
    lead.stage.Replying? || lead.overflow
  }

  predicate LeadOk(lead: Lead) {
    (lead.ours.Some? ==> lead.ours.value < |lead.batches|)
    && (lead.overflow ==> lead.stage.Writing? || lead.stage.Unlocking?)
    && (lead.stage.Flushing? ==> lead.merged == 0)
    && (lead.stage.Replying? ==> lead.merged > 0)
  }

  /** Whoever waits, waits for the lock holder, and the holder's stage says whether one waits for a reply. */
  ghost predicate WaitOk(s: State, h: Option<Id>) {
    if h.Some? && h.value in s.phases && s.phases[h.value].Leading? then LeadWaits(s, h.value, s.phases[h.value].lead)
    else forall w :: !WaitsForAck(s, w) && !WaitsForReply(s, w)
  }

  ghost predicate LeadWaits(s: State, l: Id, lead: Lead) {
    LeadOk(lead)
    && (forall w :: WaitsForAck(s, w) ==> s.phases[w].leader == l)
    && (forall w :: WaitsForReply(s, w) ==> s.phases[w].leader == l && OwesReply(lead))
    && (forall a, b :: WaitsForReply(s, a) && WaitsForReply(s, b) ==> a == b)
    && (OwesReply(lead) ==> exists w :: WaitsForReply(s, w))
  }

  /** The merged writers not yet acknowledged. */
  ghost function Waiting(s: State): set<Id> {
    set w | w in s.phases && s.phases[w].Merged?
  }

  /** How many acknowledgements the holder has promised. */
  function Owed(lead: Lead): int {
    match lead.stage
    case Unlocking(acks, _) => acks
    case Replying => lead.merged - 1
    case _ => lead.merged
  }

  /** The holder owes exactly one acknowledgement to each writer that waits for one. */
  ghost predicate CountOk(s: State, h: Option<Id>) {
    if h.Some? && h.value in s.phases && s.phases[h.value].Leading? then |Waiting(s)| == Owed(s.phases[h.value].lead)
    else Waiting(s) == {}
  }

  /** Before the lock is passed on or released nobody waits for an acknowledgement. */
  lemma NoneLeft(rq: Requests, s: State, h: Option<Id>, step: Step, s': State)
    requires Next(rq, s, step, s') && HolderIs(s, h) && CountOk(s, h) && (step.HandOver? || step.Release?)
    ensures forall x :: !WaitsForAck(s, x)
  {
    LeaderHolds(s, h, step.l);
    assert forall x :: WaitsForAck(s, x) ==> x in Waiting(s);
  }

  lemma CountKept(rq: Requests, s: State, h: Option<Id>, step: Step, s': State)
    requires Next(rq, s, step, s') && HolderIs(s, h) && WaitOk(s, h) && CountOk(s, h)
    ensures CountOk(s', HolderAfter(h, step))
  {
    hide *;
    match step
    case Receive(l, w) => CountKeptReceive(rq, s, h, l, w, s');
    case Reply(l, w) => CountKeptReply(rq, s, h, l, w, s');
    case Ack(l, w) => CountKeptAck(rq, s, h, l, w, s');
    case HandOver(l, w) => CountKeptHandOver(rq, s, h, l, w, s');
    case _ => CountKeptAlone(rq, s, h, step, s');
  }

  lemma CountKeptReceive(rq: Requests, s: State, h: Option<Id>, l: Id, w: Id, s': State)
    requires Next(rq, s, Receive(l, w), s') && HolderIs(s, h) && WaitOk(s, h) && CountOk(s, h)
    ensures CountOk(s', HolderAfter(h, Receive(l, w)))
  {
    LeaderHolds(s, h, l);
    hide HolderIs, WaitOk;
    assert Waiting(s') == Waiting(s);
  }

  lemma CountKeptReply(rq: Requests, s: State, h: Option<Id>, l: Id, w: Id, s': State)
    requires Next(rq, s, Reply(l, w), s') && HolderIs(s, h) && WaitOk(s, h) && CountOk(s, h)
    ensures CountOk(s', HolderAfter(h, Reply(l, w)))
  {
    LeaderHolds(s, h, l);
    hide HolderIs, WaitOk, Total, MergeLimit, Merge;
    assert w != l && WaitsForAck(s', w) && !WaitsForAck(s, w);
    forall x | x != w ensures WaitsForAck(s', x) <==> WaitsForAck(s, x) {
    }
    OneMoreWaits(s, s', w);
  }

  lemma OneMoreWaits(s: State, s': State, w: Id)
    requires WaitsForAck(s', w) && !WaitsForAck(s, w) && forall x :: x != w ==> (WaitsForAck(s', x) <==> WaitsForAck(s, x))
    ensures |Waiting(s')| == |Waiting(s)| + 1
  {
    assert forall x :: x in Waiting(s') <==> WaitsForAck(s', x);
    assert forall x :: x in Waiting(s) <==> WaitsForAck(s, x);
    assert Waiting(s') == Waiting(s) + {w} && w !in Waiting(s);
  }

  lemma CountKeptAck(rq: Requests, s: State, h: Option<Id>, l: Id, w: Id, s': State)
    requires Next(rq, s, Ack(l, w), s') && HolderIs(s, h) && WaitOk(s, h) && CountOk(s, h)
    ensures CountOk(s', HolderAfter(h, Ack(l, w)))
  {
    LeaderHolds(s, h, l);
    hide HolderIs, WaitOk;
    assert Waiting(s') == Waiting(s) - {w} && w in Waiting(s);
  }

  lemma CountKeptHandOver(rq: Requests, s: State, h: Option<Id>, l: Id, w: Id, s': State)
    requires Next(rq, s, HandOver(l, w), s') && HolderIs(s, h) && WaitOk(s, h) && CountOk(s, h)
    ensures CountOk(s', HolderAfter(h, HandOver(l, w)))
  {
    LeaderHolds(s, h, l);
    hide HolderIs, WaitOk;
    assert Waiting(s') == Waiting(s);
  }

  lemma CountKeptAlone(rq: Requests, s: State, h: Option<Id>, step: Step, s': State)
    requires Next(rq, s, step, s') && HolderIs(s, h) && WaitOk(s, h) && CountOk(s, h)
    requires !step.Receive? && !step.Reply? && !step.Ack? && !step.HandOver?
    ensures CountOk(s', HolderAfter(h, step))
  {
    hide Total, MergeLimit, Merge;
    assert forall a: Id :: LeadsAt(s, a) || In(s, a, Outside) ==> Holds(s, a);
    assert Waiting(s') == Waiting(s);
  }

  lemma WaitKept(rq: Requests, s: State, h: Option<Id>, step: Step, s': State)
    requires Next(rq, s, step, s') && HolderIs(s, h) && WaitOk(s, h) && CountOk(s, h)
    ensures WaitOk(s', HolderAfter(h, step))
  {
    if step.HandOver? || step.Release? { NoneLeft(rq, s, h, step, s'); }
    hide *;
    match step
    case Receive(l, w) => WaitKeptReceive(rq, s, h, l, w, s');
    case Reply(l, w) => WaitKeptReply(rq, s, h, l, w, s');
    case Ack(l, w) => WaitKeptAck(rq, s, h, l, w, s');
    case HandOver(l, w) => WaitKeptHandOver(rq, s, h, l, w, s');
    case _ => WaitKeptAlone(rq, s, h, step, s');
  }

  lemma LeaderHolds(s: State, h: Option<Id>, l: Id)
    requires LeadsAt(s, l) && HolderIs(s, h)
    ensures h == Some(l)
  {
    assert Holds(s, l);
  }

  lemma WaitKeptReceive(rq: Requests, s: State, h: Option<Id>, l: Id, w: Id, s': State)
    requires Next(rq, s, Receive(l, w), s') && HolderIs(s, h) && WaitOk(s, h)
    ensures WaitOk(s', HolderAfter(h, Receive(l, w)))
  {
    LeaderHolds(s, h, l);
    hide HolderIs, Total;
    assert WaitsForReply(s', w);
    assert forall x :: WaitsForReply(s', x) ==> WaitsForReply(s, x) || x == w;
    assert forall x :: WaitsForAck(s', x) ==> WaitsForAck(s, x) && s'.phases[x] == s.phases[x];
  }

  lemma WaitKeptReply(rq: Requests, s: State, h: Option<Id>, l: Id, w: Id, s': State)
    requires Next(rq, s, Reply(l, w), s') && HolderIs(s, h) && WaitOk(s, h)
    ensures WaitOk(s', HolderAfter(h, Reply(l, w)))
  {
    LeaderHolds(s, h, l);
    hide HolderIs, Total;
    assert forall x :: WaitsForReply(s', x) ==> WaitsForReply(s, x);
    assert forall x :: WaitsForAck(s', x) ==> x == w || (WaitsForAck(s, x) && s'.phases[x] == s.phases[x]);
  }

  lemma WaitKeptAck(rq: Requests, s: State, h: Option<Id>, l: Id, w: Id, s': State)
    requires Next(rq, s, Ack(l, w), s') && HolderIs(s, h) && WaitOk(s, h)
    ensures WaitOk(s', HolderAfter(h, Ack(l, w)))
  {
    LeaderHolds(s, h, l);
    hide HolderIs, Total;
    assert forall x :: WaitsForReply(s', x) <==> WaitsForReply(s, x);
    assert forall x :: WaitsForAck(s', x) ==> WaitsForAck(s, x) && s'.phases[x] == s.phases[x];
  }

  lemma WaitKeptHandOver(rq: Requests, s: State, h: Option<Id>, l: Id, w: Id, s': State)
    requires Next(rq, s, HandOver(l, w), s') && HolderIs(s, h) && WaitOk(s, h)
    requires forall x :: !WaitsForAck(s, x)
    ensures WaitOk(s', HolderAfter(h, HandOver(l, w)))
  {
    LeaderHolds(s, h, l);
    hide HolderIs, Total;
    assert forall x :: WaitsForReply(s', x) ==> WaitsForReply(s, x);
    assert forall x :: WaitsForAck(s', x) ==> WaitsForAck(s, x);
  }

  lemma WaitKeptAlone(rq: Requests, s: State, h: Option<Id>, step: Step, s': State)
    requires Next(rq, s, step, s') && HolderIs(s, h) && WaitOk(s, h)
    requires !step.Receive? && !step.Reply? && !step.Ack? && !step.HandOver?
    requires step.Release? ==> forall x :: !WaitsForAck(s, x)
    ensures WaitOk(s', HolderAfter(h, step))
  {
    hide Total, MergeLimit, Merge, HolderIs, Holds, WaitsForReply, WaitsForAck;
    LeaderIsHolder(s, h);
    forall x
      ensures WaitsForReply(s', x) <==> WaitsForReply(s, x)
      ensures WaitsForAck(s', x) <==> WaitsForAck(s, x)
      ensures WaitsForReply(s, x) || WaitsForAck(s, x) ==> x in s.phases && x in s'.phases && s'.phases[x] == s.phases[x]
    {
      hide Next;
      WaitsStayAlone(rq, s, step, s', x);
    }
  }

  lemma LeaderIsHolder(s: State, h: Option<Id>)
    requires HolderIs(s, h)
    ensures s.locked <==> h.Some?
    ensures forall a: Id :: LeadsAt(s, a) || In(s, a, Outside) ==> h == Some(a)
  {
    LeadersHold(s);
  }

  lemma WaitsStayAlone(rq: Requests, s: State, step: Step, s': State, x: Id)
    requires Next(rq, s, step, s') && !step.Receive? && !step.Reply? && !step.Ack? && !step.HandOver?
    ensures (WaitsForReply(s', x) <==> WaitsForReply(s, x)) && (WaitsForAck(s', x) <==> WaitsForAck(s, x))
    ensures WaitsForReply(s, x) || WaitsForAck(s, x) ==> x in s.phases && x in s'.phases && s'.phases[x] == s.phases[x]
  {
    hide Total, MergeLimit, Merge;
  }

  // ----- outcomes

  /** A leader's outcome is fixed when it unlocks, and whoever it wrote for reports the same. */
  ghost predicate OutcomeOk(s: State) {
    (forall l :: l in s.outcome ==> l in s.phases && Settled(s.phases[l], ErrorOf(s.outcome[l])))
    && (forall l :: l in s.phases && Unlocks(s.phases[l]) ==> l in s.outcome)
    && (forall w :: Via(s, w) ==> s.phases[w].via.value in s.outcome && ErrorOf(s.outcome[s.phases[w].via.value]) == s.phases[w].err)
  }

  predicate Unlocks(p: Phase) {
    p.Leading? && p.lead.stage.Unlocking?
  }

  predicate Settled(p: Phase, err: Option<Error>) {
    match p
    case Leading(lead) => lead.stage.Unlocking? && lead.stage.err == err
    case Done(e, via) => e == err && via.Some?
    case _ => false
  }

  /** `w` has returned after being written by a leader, itself or another. */
  ghost predicate Via(s: State, w: Id) {
    w in s.phases && s.phases[w].Done? && s.phases[w].via.Some?
  }

  lemma OutcomeKept(rq: Requests, s: State, h: Option<Id>, step: Step, s': State)
    requires Next(rq, s, step, s') && HolderIs(s, h) && WaitOk(s, h) && OutcomeOk(s)
    ensures OutcomeOk(s')
  {
    if step.Ack? {
      OutcomeAck(rq, s, h, step.l, step.w, s');
    } else if step.HandOver? || step.Release? {
      OutcomeReturn(rq, s, step, s');
    } else if step.JournalOk? || step.JournalFail? || step.SyncFail? || step.FlushFail? {
      OutcomeFixed(rq, s, step, s');
    } else {
      OutcomeQuiet(rq, s, step, s');
    }
  }

  lemma OutcomeAck(rq: Requests, s: State, h: Option<Id>, l: Id, w: Id, s': State)
    requires Next(rq, s, Ack(l, w), s') && HolderIs(s, h) && WaitOk(s, h) && OutcomeOk(s)
    ensures OutcomeOk(s')
  {
    hide Next, HolderIs, WaitOk;
    var p := AckShape(rq, s, h, l, w, s');
    assert forall x :: Via(s', x) ==> x == w || (Via(s, x) && s'.phases[x] == s.phases[x]);
  }

  /** An acknowledged writer is done with its leader's error; the leader goes on unlocking. */
  lemma AckShape(rq: Requests, s: State, h: Option<Id>, l: Id, w: Id, s': State) returns (p: Phase)
    requires Next(rq, s, Ack(l, w), s') && HolderIs(s, h) && WaitOk(s, h)
    ensures l in s.phases && w in s.phases && w != l && Unlocks(s.phases[l]) && !s.phases[w].Leading? && !s.phases[w].Done?
    ensures Unlocks(p) && p.lead.stage.err == s.phases[l].lead.stage.err
    ensures s'.outcome == s.outcome && s'.phases == s.phases[w := Done(p.lead.stage.err, Some(l))][l := p]
  {
    LeaderHolds(s, h, l);
    assert s.phases[w].leader == l;
    hide HolderIs, WaitOk;
    p := s'.phases[l];
  }

  lemma OutcomeReturn(rq: Requests, s: State, step: Step, s': State)
    requires Next(rq, s, step, s') && OutcomeOk(s) && (step.HandOver? || step.Release?)
    ensures OutcomeOk(s')
  {
    var l, done := step.l, Done(s.phases[step.l].lead.stage.err, Some(step.l));
    var s1 := With(s, l, done);
    assert s'.outcome == s.outcome && s'.phases == if step.HandOver? then With(s1, step.w, Leading(FirstLead(step.w, rq(step.w)))).phases else s1.phases;
    hide Next, Merge, MergeLimit, Total;
    Returned(s, l, s1);
    if step.HandOver? {
      Unsettled(s1, step.w, Leading(FirstLead(step.w, rq(step.w))), s');
    } else {
      SamePhases(s1, s');
    }
  }

  lemma Returned(s: State, l: Id, s': State)
    requires OutcomeOk(s) && l in s.phases && Unlocks(s.phases[l]) && s' == With(s, l, Done(s.phases[l].lead.stage.err, Some(l)))
    ensures OutcomeOk(s')
  {
    assert forall x :: Via(s', x) ==> x == l || (Via(s, x) && s'.phases[x] == s.phases[x]);
  }

  /** Changing the phase of a call that has no outcome and gets none. */
  lemma Unsettled(s: State, w: Id, p: Phase, s': State)
    requires OutcomeOk(s) && w !in s.outcome && s'.outcome == s.outcome && s'.phases == s.phases[w := p]
    requires !Unlocks(p) && (p.Done? ==> p.via.None?)
    ensures OutcomeOk(s')
  {
    assert forall x :: Via(s', x) ==> Via(s, x) && s'.phases[x] == s.phases[x];
  }

  lemma SamePhases(s: State, s': State)
    requires OutcomeOk(s) && s'.outcome == s.outcome && s'.phases == s.phases
    ensures OutcomeOk(s')
  {
    assert forall x :: Via(s', x) ==> Via(s, x);
  }

  lemma Fixed(s: State, l: Id, lead: Lead, o: Outcome, s': State)
    requires OutcomeOk(s) && l !in s.outcome && lead.stage.Unlocking? && lead.stage.err == ErrorOf(o)
    requires s'.phases == s.phases[l := Leading(lead)] && s'.outcome == s.outcome[l := o]
    ensures OutcomeOk(s')
  {
    assert forall x :: Via(s', x) ==> Via(s, x) && s'.phases[x] == s.phases[x];
    assert forall x :: x in s'.phases && Unlocks(s'.phases[x]) ==> x == l || (x in s.phases && Unlocks(s.phases[x]));
  }

  lemma NoOutcomeYet(s: State, w: Id)
    requires OutcomeOk(s) && (w !in s.phases || (!Unlocks(s.phases[w]) && !s.phases[w].Done?))
    ensures w !in s.outcome
  {
  }

  lemma OutcomeFixed(rq: Requests, s: State, step: Step, s': State)
    requires Next(rq, s, step, s') && OutcomeOk(s) && (step.JournalOk? || step.JournalFail? || step.SyncFail? || step.FlushFail?)
    ensures OutcomeOk(s')
  {
    var l := step.l;
    hide Total, OutcomeOk;
    NoOutcomeYet(s, l);
    Fixed(s, l, s'.phases[l].lead, s'.outcome[l], s');
  }

  lemma OutcomeQuiet(rq: Requests, s: State, step: Step, s': State)
    requires Next(rq, s, step, s') && OutcomeOk(s)
    requires !step.Ack? && !step.HandOver? && !step.Release? && !step.JournalOk? && !step.JournalFail? && !step.SyncFail? && !step.FlushFail?
    ensures OutcomeOk(s')
  {
    hide MergeLimit, Total, OutcomeOk;
    var a := match step
      case Begin(w) => w case Acquire(w) => w case Give(w, _) => w case AcquireOutside(w) => w case ReleaseOutside(w) => w
      case FlushOk(l, _) => l case Receive(l, _) => l case Reply(l, _) => l case StopMerging(l) => l case _ => 0;
    NoOutcomeYet(s, a);
    if step.Receive? || step.Reply? {
      var s1 := With(s, step.w, s'.phases[step.w]);
      NoOutcomeYet(s, step.w);
      Unsettled(s, step.w, s'.phases[step.w], s1);
      Unsettled(s1, a, s'.phases[a], s');
    } else {
      Unsettled(s, a, s'.phases[a], s');
    }
  }

  // ----- what a leader has gathered

  ghost predicate Owns(batches: seq<seq<Rec>>, w: Id) {
    exists j, i :: At(batches, j, i) && batches[j][i].owner == w
  }

  predicate At(batches: seq<seq<Rec>>, j: int, i: int) {
    0 <= j < |batches| && 0 <= i < |batches[j]|
  }

  /** All of the records of `w`, in order and nothing else of `w`, start at record `i` of batch `j`. */
  ghost predicate Block(batches: seq<seq<Rec>>, w: Id, count: nat, j: int, i: int) {
    0 <= j < |batches| && 0 <= i && i + count <= |batches[j]|
    && batches[j][i..i + count] == Tagged(w, count)
    && forall j', i' :: At(batches, j', i') && batches[j'][i'].owner == w ==> j' == j && i <= i' < i + count
  }

  ghost predicate HasBlock(batches: seq<seq<Rec>>, w: Id, count: nat) {
    exists j, i :: Block(batches, w, count, j, i)
  }

  lemma MergeKeepsBlock(lead: Lead, w: Id, r: Request, x: Id, n: nat)
    requires lead.ours.Some? ==> lead.ours.value < |lead.batches|
    requires x != w && HasBlock(lead.batches, x, n)
    ensures HasBlock(Merge(lead, w, r).batches, x, n)
  {
    var j, i :| Block(lead.batches, x, n, j, i);
    var b: seq<seq<Rec>>, b': seq<seq<Rec>> := lead.batches, Merge(lead, w, r).batches;
    assert b'[j][i..i + n] == b[j][i..i + n];
    forall j': int, i': int | At(b', j', i') && b'[j'][i'].owner == x
      ensures At(b, j', i') && b[j'][i'] == b'[j'][i']
    {
    }
    assert Block(b', x, n, j, i);
  }

  lemma MergeOwners(lead: Lead, w: Id, r: Request, x: Id)
    requires lead.ours.Some? ==> lead.ours.value < |lead.batches|
    requires Owns(Merge(lead, w, r).batches, x) && x != w
    ensures Owns(lead.batches, x)
  {
    var b: seq<seq<Rec>>, b': seq<seq<Rec>> := lead.batches, Merge(lead, w, r).batches;
    var j, i :| At(b', j, i) && b'[j][i].owner == x;
    assert At(b, j, i) && b[j][i] == b'[j][i];
  }

  lemma MergeAddsBlock(lead: Lead, w: Id, r: Request)
    requires lead.ours.Some? ==> lead.ours.value < |lead.batches|
    requires !Owns(lead.batches, w)
    ensures HasBlock(Merge(lead, w, r).batches, w, r.count)
  {
    var b: seq<seq<Rec>>, b': seq<seq<Rec>> := lead.batches, Merge(lead, w, r).batches;
    var j := if r.put && lead.ours.Some? then lead.ours.value else |b|;
    var i := if r.put && lead.ours.Some? then |b[j]| else 0;
    if r.put && lead.ours.Some? {
      assert b'[j] == b[j] + Tagged(w, r.count);
      assert (b[j] + Tagged(w, r.count))[i..i + r.count] == Tagged(w, r.count);
    } else {
      assert b'[j] == Tagged(w, r.count) && b'[j][0..r.count] == Tagged(w, r.count);
    }
    forall j': int, i': int | At(b', j', i') && b'[j'][i'].owner == w
      ensures j' == j && i <= i' < i + r.count
    {
    }
    assert Block(b', w, r.count, j, i);
  }

  lemma FirstBlock(w: Id, r: Request, x: Id)
    ensures HasBlock(FirstLead(w, r).batches, w, r.count)
    ensures Owns(FirstLead(w, r).batches, x) ==> x == w
  {
    assert Block(FirstLead(w, r).batches, w, r.count, 0, 0);
  }

  /** The writers whose records the leader `l` has gathered. */
  ghost predicate Gathered(s: State, l: Id, lead: Lead, w: Id) {
    w == l || WaitsForAck(s, w) || (lead.stage.Replying? && WaitsForReply(s, w))
  }

  /** Until it unlocks, a leader's batches hold the records of exactly the gathered writers. */
  ghost predicate ContentOk(rq: Requests, s: State, l: Id, lead: Lead) {
    (forall w :: Gathered(s, l, lead, w) ==> HasBlock(lead.batches, w, rq(w).count) && (rq(w).sync ==> lead.sync))
    && (forall w :: Owns(lead.batches, w) ==> Gathered(s, l, lead, w))
  }

  ghost predicate GatherOk(rq: Requests, s: State, h: Option<Id>) {
    h.Some? && h.value in s.phases && s.phases[h.value].Leading? && !s.phases[h.value].lead.stage.Unlocking? ==>
      ContentOk(rq, s, h.value, s.phases[h.value].lead)
  }

  lemma GatheredReceive(rq: Requests, s: State, h: Option<Id>, l: Id, w: Id, s': State, x: Id)
    requires Next(rq, s, Receive(l, w), s') && HolderIs(s, h) && WaitOk(s, h)
    ensures In(s, l, s.phases[l]) && LeadsAt(s, l) && LeadsAt(s', l) && !Gathered(s, l, s.phases[l].lead, w)
    ensures Gathered(s', l, s'.phases[l].lead, x) <==> Gathered(s, l, s.phases[l].lead, x) || (!s'.phases[l].lead.overflow && x == w)
  {
    LeaderHolds(s, h, l);
    hide HolderIs;
    assert WaitsForReply(s', x) <==> WaitsForReply(s, x) || x == w;
  }

  lemma MergeContent(rq: Requests, lead: Lead, w: Id, x: Id)
    requires lead.ours.Some? ==> lead.ours.value < |lead.batches|
    requires !Owns(lead.batches, w)
    ensures var b := Merge(lead, w, rq(w)).batches;
            && (x == w || HasBlock(lead.batches, x, rq(x).count) ==> HasBlock(b, x, rq(x).count))
            && (Owns(b, x) ==> x == w || Owns(lead.batches, x))
  {
    hide HasBlock, Owns, Merge;
    MergeAddsBlock(lead, w, rq(w));
    if x != w {
      if HasBlock(lead.batches, x, rq(x).count) { MergeKeepsBlock(lead, w, rq(w), x, rq(x).count); }
      if Owns(Merge(lead, w, rq(w)).batches, x) { MergeOwners(lead, w, rq(w), x); }
    }
  }

  lemma GatherReceive(rq: Requests, s: State, h: Option<Id>, l: Id, w: Id, s': State)
    requires Next(rq, s, Receive(l, w), s') && HolderIs(s, h) && WaitOk(s, h) && GatherOk(rq, s, h)
    ensures GatherOk(rq, s', h)
  {
    LeaderHolds(s, h, l);
    var lead, lead' := s.phases[l].lead, s'.phases[l].lead;
    assert ContentOk(rq, s, l, lead);
    forall x ensures Gathered(s', l, lead', x) <==> Gathered(s, l, lead, x) || (!lead'.overflow && x == w) {
      GatheredReceive(rq, s, h, l, w, s', x);
    }
    GatheredReceive(rq, s, h, l, w, s', w);
    assert !Owns(lead.batches, w) && LeadOk(lead);
    assert lead' == (if rq(w).size > lead.limit then lead.(overflow := true, stage := Writing) else Merge(lead, w, rq(w)));
    MergeStage(lead, w, rq(w));
    hide HolderIs, WaitOk, HasBlock, Owns, Merge, Gathered, Next;
    if rq(w).size <= lead.limit {
      forall x ensures x == w || HasBlock(lead.batches, x, rq(x).count) ==> HasBlock(lead'.batches, x, rq(x).count)
               ensures Owns(lead'.batches, x) ==> x == w || Owns(lead.batches, x)
      {
        MergeContent(rq, lead, w, x);
      }
    }
  }

  lemma GatherReply(rq: Requests, s: State, h: Option<Id>, l: Id, w: Id, s': State)
    requires Next(rq, s, Reply(l, w), s') && HolderIs(s, h) && WaitOk(s, h) && GatherOk(rq, s, h)
    ensures GatherOk(rq, s', h)
  {
    LeaderHolds(s, h, l);
    hide HolderIs, HasBlock, Owns;
    var lead, lead' := s.phases[l].lead, s'.phases[l].lead;
    assert ContentOk(rq, s, l, lead);
    forall x ensures Gathered(s', l, lead', x) <==> Gathered(s, l, lead, x) {
      assert WaitsForReply(s, x) ==> x == w;
    }
  }

  lemma GatherFirst(rq: Requests, s: State, h: Option<Id>, step: Step, s': State)
    requires Next(rq, s, step, s') && HolderIs(s, h) && WaitOk(s, h) && CountOk(s, h) && (step.Acquire? || step.HandOver?)
    ensures GatherOk(rq, s', Some(step.w))
  {
    var w := step.w;
    if step.HandOver? { NoneLeft(rq, s, h, step, s'); }
    hide CountOk;
    assert forall x :: !WaitsForAck(s, x);
    forall x ensures Gathered(s', w, FirstLead(w, rq(w)), x) <==> x == w {
      assert WaitsForAck(s', x) ==> WaitsForAck(s, x);
    }
    hide HasBlock, Owns, Gathered;
    FirstBlock(w, rq(w), w);
    forall x ensures Owns(FirstLead(w, rq(w)).batches, x) ==> x == w {
      FirstBlock(w, rq(w), x);
    }
    assert ContentOk(rq, s', w, FirstLead(w, rq(w)));
  }

  lemma GatherAlone(rq: Requests, s: State, h: Option<Id>, step: Step, s': State)
    requires Next(rq, s, step, s') && HolderIs(s, h) && GatherOk(rq, s, h)
    requires !step.Receive? && !step.Reply? && !step.HandOver? && !step.Acquire?
    ensures GatherOk(rq, s', HolderAfter(h, step))
  {
    hide HasBlock, Owns, Merge, FirstLead, MergeLimit, Total;
    LeadersHold(s);
    GatherWaits(rq, s, step, s');
    hide WaitsForReply, WaitsForAck, Holds;
  }

  lemma LeadersHold(s: State)
    ensures forall a: Id :: LeadsAt(s, a) || In(s, a, Outside) ==> Holds(s, a)
  {
  }

  lemma GatherWaits(rq: Requests, s: State, step: Step, s': State)
    requires Next(rq, s, step, s') && !step.Receive? && !step.Reply? && !step.HandOver?
    ensures !step.Ack? ==> forall x :: WaitsForAck(s', x) <==> WaitsForAck(s, x)
    ensures forall x :: WaitsForReply(s', x) <==> WaitsForReply(s, x)
  {
    hide HasBlock, Owns, Merge, FirstLead, MergeLimit, Total;
  }

  lemma MergeStage(lead: Lead, w: Id, r: Request)
    requires lead.ours.Some? ==> lead.ours.value < |lead.batches|
    ensures Merge(lead, w, r).stage == Replying && Merge(lead, w, r).sync == (lead.sync || r.sync) && Merge(lead, w, r).overflow == lead.overflow
  {
  }

  lemma GatherKept(rq: Requests, s: State, h: Option<Id>, step: Step, s': State)
    requires Next(rq, s, step, s') && HolderIs(s, h) && WaitOk(s, h) && CountOk(s, h) && GatherOk(rq, s, h)
    ensures GatherOk(rq, s', HolderAfter(h, step))
  {
    match step
    case Receive(l, w) => LeaderHolds(s, h, l); GatherReceive(rq, s, h, l, w, s');
    case Reply(l, w) => LeaderHolds(s, h, l); GatherReply(rq, s, h, l, w, s');
    case Acquire(w) => hide *; GatherFirst(rq, s, h, step, s');
    case HandOver(l, w) => hide *; GatherFirst(rq, s, h, step, s');
    case _ => hide *; GatherAlone(rq, s, h, step, s');
  }

  // ----- the journal and the sequence numbers

  /** How far a record moves the sequence counter. */
  function Counted(g: Group): nat {
    if g.counts then Total(g.batches) else 0
  }

  /** Each journal record starts right behind the last counting one before; the counter is at the last number counted. */
  ghost predicate Chain(base: nat, journal: seq<Group>, seqNo: nat) {
    if journal == [] then seqNo == base
    else
      var g := journal[|journal| - 1];
      g.first >= 1 && seqNo == g.first - 1 + Counted(g) && Chain(base, journal[..|journal| - 1], g.first - 1)
  }

  /** The sequence number `putMem` gives record `i` of batch `j`. */
  function SeqOf(g: Group, j: nat, i: nat): nat
    requires j < |g.batches|
  {
    g.first + Total(g.batches[..j]) + i
  }

  /** `w`'s records are in record `g` and have the sequence numbers from `lo` on. */
  ghost predicate WroteTo(rq: Requests, journal: seq<Group>, w: Id, lo: nat, g: int) {
    0 <= g < |journal| && exists j, i :: WroteIn(rq, journal, w, lo, g, j, i)
  }

  ghost predicate WroteIn(rq: Requests, journal: seq<Group>, w: Id, lo: nat, g: int, j: int, i: int) {
    0 <= g < |journal| && Block(journal[g].batches, w, rq(w).count, j, i) && lo == SeqOf(journal[g], j, i)
  }

  lemma {:induction false} TotalPrefix(batches: seq<seq<Rec>>, j: nat, k: nat)
    requires j <= k <= |batches|
    ensures Total(batches[..j]) <= Total(batches[..k])
    ensures j < k ==> Total(batches[..j]) + |batches[j]| <= Total(batches[..k])
    ensures k == |batches| ==> batches[..k] == batches
    decreases k
  {
    if j < k {
      TotalPrefix(batches, j, k - 1);
      assert batches[..k][..k - 1] == batches[..k - 1];
    }
  }

  /** A journal record starts after the numbers of all counting records before it, and the next one behind it if it counts. */
  lemma {:induction false} ChainRange(base: nat, journal: seq<Group>, seqNo: nat, g: nat)
    requires Chain(base, journal, seqNo) && g < |journal|
    ensures base < journal[g].first && journal[g].first + Counted(journal[g]) <= seqNo + 1
    ensures g + 1 < |journal| ==> journal[g + 1].first == journal[g].first + Counted(journal[g])
    decreases |journal|
  {
    hide Counted;
    var last := |journal| - 1;
    ChainStarts(base, journal[..last], journal[last].first - 1);
    if g < last {
      ChainRange(base, journal[..last], journal[last].first - 1, g);
    }
  }

  lemma {:induction false} ChainStarts(base: nat, journal: seq<Group>, seqNo: nat)
    requires Chain(base, journal, seqNo)
    ensures base <= seqNo
    ensures journal == [] ==> seqNo == base
    ensures journal != [] ==> seqNo + 1 == journal[|journal| - 1].first + Counted(journal[|journal| - 1])
    decreases |journal|
  {
    hide Counted;
    if journal != [] {
      var last := |journal| - 1;
      ChainStarts(base, journal[..last], journal[last].first - 1);
    }
  }

  lemma {:induction false} ChainApart(base: nat, journal: seq<Group>, seqNo: nat, g: nat, g': nat)
    requires Chain(base, journal, seqNo) && g < g' < |journal|
    ensures journal[g].first + Counted(journal[g]) <= journal[g'].first
    decreases g'
  {
    hide Counted, Chain;
    ChainRange(base, journal, seqNo, g' - 1);
    if g < g' - 1 {
      ChainApart(base, journal, seqNo, g, g' - 1);
    }
  }

  /** Every number handed out in the run belongs to a record that counts. */
  lemma {:induction false} ChainCovers(base: nat, journal: seq<Group>, seqNo: nat, n: nat) returns (g: nat)
    requires Chain(base, journal, seqNo) && base < n <= seqNo
    ensures g < |journal| && journal[g].counts && journal[g].first <= n < journal[g].first + Total(journal[g].batches)
    decreases |journal|
  {
    hide Total;
    var last := |journal| - 1;
    if n < journal[last].first {
      g := ChainCovers(base, journal[..last], journal[last].first - 1, n);
    } else {
      g := last;
    }
  }

  lemma SeqInGroup(rq: Requests, journal: seq<Group>, w: Id, lo: nat, g: int, j: int, i: int)
    requires WroteIn(rq, journal, w, lo, g, j, i)
    ensures journal[g].first <= lo && lo + rq(w).count <= journal[g].first + Total(journal[g].batches)
  {
    var b := journal[g].batches;
    TotalPrefix(b, j, |b|);
  }

  /** Two writers whose records count never share a sequence number, and have theirs in journal order. */
  lemma RangesDisjoint(rq: Requests, base: nat, s: State, w: Id, lo: nat, w': Id, lo': nat, g: nat, g': nat)
    requires Chain(base, s.journal, s.seqNo) && w != w' && rq(w).count >= 1 && rq(w').count >= 1
    requires WroteTo(rq, s.journal, w, lo, g) && WroteTo(rq, s.journal, w', lo', g') && s.journal[g].counts && s.journal[g'].counts
    ensures lo + rq(w).count <= lo' || lo' + rq(w').count <= lo
    ensures g < g' ==> lo + rq(w).count <= lo'
  {
    hide Block, Chain, SeqOf;
    var j, i :| WroteIn(rq, s.journal, w, lo, g, j, i);
    var j', i' :| WroteIn(rq, s.journal, w', lo', g', j', i');
    SeqInGroup(rq, s.journal, w, lo, g, j, i);
    SeqInGroup(rq, s.journal, w', lo', g', j', i');
    if g < g' {
      ChainApart(base, s.journal, s.seqNo, g, g');
    } else if g' < g {
      ChainApart(base, s.journal, s.seqNo, g', g);
    } else {
      BlocksApart(s.journal[g], w, rq(w).count, j, i, w', rq(w').count, j', i');
    }
  }

  lemma BlocksApart(g: Group, w: Id, n: nat, j: int, i: int, w': Id, n': nat, j': int, i': int)
    requires w != w' && n >= 1 && n' >= 1 && Block(g.batches, w, n, j, i) && Block(g.batches, w', n', j', i')
    ensures SeqOf(g, j, i) + n <= SeqOf(g, j', i') || SeqOf(g, j', i') + n' <= SeqOf(g, j, i)
  {
    if j < j' {
      TotalPrefix(g.batches, j, j');
    } else if j' < j {
      TotalPrefix(g.batches, j', j);
    } else {
      var k := if i < i' then i' else i;
      if i <= k < i + n && i' <= k < i' + n' {
        BlockItem(g.batches, w, n, j, i, k);
        BlockItem(g.batches, w', n', j', i', k);
      }
    }
  }

  lemma BlockItem(batches: seq<seq<Rec>>, w: Id, n: nat, j: int, i: int, k: int)
    requires Block(batches, w, n, j, i) && i <= k < i + n
    ensures batches[j][k].owner == w
  {
    assert batches[j][k] == batches[j][i..i + n][k - i];
  }

  // ----- who is in the journal

  /** The leader that decides, or has decided, about the records of `w`. */
  function DeciderOf(s: State, w: Id): Option<Id> {
    if w !in s.phases then None
    else match s.phases[w]
      case Done(_, via) => via
      case Leading(lead) => if lead.stage.Unlocking? then Some(w) else None
      case Merged(l) => Some(l)
      case _ => None
  }

  /** Whether the records of `w` are in the journal, and in a record that counts, whether or not its caller knows yet. */
  function Landed(s: State, w: Id): Option<bool> {
    var d := DeciderOf(s, w);
    if d.None? || d.value !in s.outcome then None
    else match s.outcome[d.value]
      case Success => Some(true)
      case Unsynced(_) => Some(false)
      case Unwritten(_) => None
  }

  ghost predicate OnlyIn(rq: Requests, journal: seq<Group>, w: Id, g: int) {
    0 <= g < |journal| && HasBlock(journal[g].batches, w, rq(w).count) && (rq(w).sync ==> journal[g].sync)
    && forall g' :: 0 <= g' < |journal| && g' != g ==> !Owns(journal[g'].batches, w)
  }

  /** The journal holds the records of each landed write in exactly one journal record, of the right kind, and nothing else. */
  ghost predicate JournalOk'(rq: Requests, s: State) {
    (forall g, w :: 0 <= g < |s.journal| && Owns(s.journal[g].batches, w) ==> Landed(s, w) == Some(s.journal[g].counts))
    && (forall w :: Landed(s, w).Some? ==> exists g :: OnlyIn(rq, s.journal, w, g) && s.journal[g].counts == Landed(s, w).value)
  }

  lemma LandedSame(rq: Requests, s: State, h: Option<Id>, step: Step, s': State, x: Id)
    requires Next(rq, s, step, s') && HolderIs(s, h) && WaitOk(s, h) && OutcomeOk(s) && !Appends(step)
    ensures Landed(s', x) == Landed(s, x)
  {
    if step.FlushFail? || step.JournalFail? {
      LandedFail(rq, s, step, s', x);
      return;
    }
    hide *;
    match step
    case Ack(l, w) => LandedAck(rq, s, h, l, w, s', x);
    case Reply(l, w) => LandedReply(rq, s, h, l, w, s', x);
    case _ => LandedAlone(rq, s, step, s', x);
  }

  lemma LandedFail(rq: Requests, s: State, step: Step, s': State, x: Id)
    requires Next(rq, s, step, s') && OutcomeOk(s) && (step.FlushFail? || step.JournalFail?)
    ensures Landed(s', x) == Landed(s, x)
  {
    NoOutcomeYet(s, step.l);
    hide OutcomeOk, Landed;
    StillUndecided(s, step.l, Unwritten(step.e), x);
  }

  lemma LandedAck(rq: Requests, s: State, h: Option<Id>, l: Id, w: Id, s': State, x: Id)
    requires Next(rq, s, Ack(l, w), s') && HolderIs(s, h) && WaitOk(s, h) && OutcomeOk(s)
    ensures Landed(s', x) == Landed(s, x)
  {
    LeaderHolds(s, h, l);
    AckOutcome(s, l, w);
    hide HolderIs, WaitOk, OutcomeOk;
  }

  lemma LandedReply(rq: Requests, s: State, h: Option<Id>, l: Id, w: Id, s': State, x: Id)
    requires Next(rq, s, Reply(l, w), s') && HolderIs(s, h) && WaitOk(s, h) && OutcomeOk(s)
    ensures Landed(s', x) == Landed(s, x)
  {
    LeaderHolds(s, h, l);
    ReplyOutcome(s, l, w);
    hide HolderIs, WaitOk, OutcomeOk;
  }

  lemma LandedAlone(rq: Requests, s: State, step: Step, s': State, x: Id)
    requires Next(rq, s, step, s') && !Appends(step) && !step.Ack? && !step.Reply? && !step.FlushFail? && !step.JournalFail? && OutcomeOk(s)
    ensures Landed(s', x) == Landed(s, x)
  {
    hide OutcomeOk, Total, MergeLimit;
    assert s'.outcome == s.outcome;
    assert DeciderOf(s', x) == DeciderOf(s, x);
  }

  /** A leader without an outcome has landed nobody. */
  lemma StillUndecided(s: State, l: Id, o: Outcome, x: Id)
    requires l !in s.outcome && o.Unwritten?
    ensures Landed(s.(outcome := s.outcome[l := o]), x) == Landed(s, x)
  {
  }

  lemma AckOutcome(s: State, l: Id, w: Id)
    requires LeadsAt(s, l) && WaitOk(s, Some(l)) && OutcomeOk(s) && s.phases[l].lead.stage.Unlocking? && WaitsForAck(s, w)
    ensures s.phases[w].leader == l && l in s.outcome && ErrorOf(s.outcome[l]) == s.phases[l].lead.stage.err
  {
    assert Unlocks(s.phases[l]);
  }

  lemma ReplyOutcome(s: State, l: Id, w: Id)
    requires LeadsAt(s, l) && WaitOk(s, Some(l)) && OutcomeOk(s) && s.phases[l].lead.stage.Replying? && WaitsForReply(s, w)
    ensures s.phases[w].leader == l && l !in s.outcome
  {
  }

  ghost predicate Appends(step: Step) {
    step.JournalOk? || step.SyncFail?
  }

  lemma LandedMore(rq: Requests, s: State, h: Option<Id>, step: Step, s': State, x: Id)
    requires Next(rq, s, step, s') && Appends(step) && HolderIs(s, h) && WaitOk(s, h) && OutcomeOk(s)
    ensures LeadsAt(s, step.l)
    ensures Landed(s', x) == if Gathered(s, step.l, s.phases[step.l].lead, x) then Some(step.JournalOk?) else Landed(s, x)
    ensures Gathered(s, step.l, s.phases[step.l].lead, x) ==> Landed(s, x) == None
  {
    LeaderHolds(s, h, step.l);
    NoOutcomeYet(s, step.l);
    hide HolderIs, OutcomeOk, Total;
    assert WaitsForAck(s, x) ==> s.phases[x].leader == step.l;
    assert !WaitsForAck(s, x) && x != step.l ==> DeciderOf(s', x) == DeciderOf(s, x) != Some(step.l) || Landed(s', x) == Landed(s, x);
  }

  lemma JournalKept(rq: Requests, s: State, h: Option<Id>, step: Step, s': State)
    requires Next(rq, s, step, s') && HolderIs(s, h) && WaitOk(s, h) && GatherOk(rq, s, h) && OutcomeOk(s) && JournalOk'(rq, s)
    ensures JournalOk'(rq, s')
  {
    if Appends(step) {
      JournalGrows(rq, s, h, step, s');
    } else {
      forall x ensures Landed(s', x) == Landed(s, x) {
        LandedSame(rq, s, h, step, s', x);
      }
      assert s'.journal == s.journal;
      hide Next, HolderIs, WaitOk, OutcomeOk, GatherOk, Landed, OnlyIn, Owns;
    }
  }

  lemma JournalGrows(rq: Requests, s: State, h: Option<Id>, step: Step, s': State)
    requires Next(rq, s, step, s') && Appends(step) && HolderIs(s, h) && WaitOk(s, h) && GatherOk(rq, s, h) && OutcomeOk(s) && JournalOk'(rq, s)
    ensures JournalOk'(rq, s')
  {
    var l := step.l;
    LeaderHolds(s, h, l);
    var lead, j, j', counts := s.phases[l].lead, s.journal, s'.journal, step.JournalOk?;
    assert ContentOk(rq, s, l, lead);
    var n := |j|;
    assert |j'| == n + 1 && j'[..n] == j && j'[n].batches == lead.batches && j'[n].sync == lead.sync && j'[n].counts == counts;
    forall x ensures Landed(s', x) == if Gathered(s, l, lead, x) then Some(counts) else Landed(s, x)
             ensures Gathered(s, l, lead, x) ==> Landed(s, x) == None
    {
      LandedMore(rq, s, h, step, s', x);
    }
    hide Next, HolderIs, WaitOk, OutcomeOk, GatherOk, Landed, Owns, HasBlock, Gathered;
    forall g, w | 0 <= g <= n && Owns(j'[g].batches, w)
      ensures Landed(s', w) == Some(j'[g].counts)
    {
      assert g < n ==> j'[g] == j[g];
    }
    forall w | Landed(s', w).Some?
      ensures exists g :: OnlyIn(rq, j', w, g) && j'[g].counts == Landed(s', w).value
    {
      if Gathered(s, l, lead, w) {
        NewOnly(rq, s, j, j', w);
      } else {
        var g :| OnlyIn(rq, j, w, g) && j[g].counts == Landed(s, w).value;
        StillOnly(rq, j, j', w, g);
      }
    }
  }

  lemma StillOnly(rq: Requests, j: seq<Group>, j': seq<Group>, w: Id, g: int)
    requires OnlyIn(rq, j, w, g) && |j'| == |j| + 1 && j'[..|j|] == j && !Owns(j'[|j|].batches, w)
    ensures OnlyIn(rq, j', w, g) && j'[g] == j[g]
  {
    hide Owns, HasBlock;
    assert forall g' :: 0 <= g' < |j| ==> j'[g'] == j[g'];
  }

  lemma NewOnly(rq: Requests, s: State, j: seq<Group>, j': seq<Group>, w: Id)
    requires |j'| == |j| + 1 && j'[..|j|] == j && HasBlock(j'[|j|].batches, w, rq(w).count) && (rq(w).sync ==> j'[|j|].sync)
    requires forall g :: 0 <= g < |j| ==> !Owns(j[g].batches, w)
    ensures OnlyIn(rq, j', w, |j|)
  {
    hide Owns, HasBlock;
    assert forall g' :: 0 <= g' < |j| ==> j'[g'] == j[g'];
  }

  lemma ChainKept(rq: Requests, base: nat, s: State, step: Step, s': State)
    requires Next(rq, s, step, s') && Chain(base, s.journal, s.seqNo)
    ensures Chain(base, s'.journal, s'.seqNo)
  {
    if Appends(step) {
      var g := s'.journal[|s.journal|];
      assert s'.journal[..|s.journal|] == s.journal;
    }
  }

  /** A call that writes has records, and so has every journal record. */
  ghost predicate SomeRecords(rq: Requests, s: State) {
    (forall w :: w in s.phases && Writes(s.phases[w]) ==> rq(w).count >= 1)
    && forall g :: 0 <= g < |s.journal| ==> Total(s.journal[g].batches) > 0
  }

  predicate Writes(p: Phase) {
    p.Selecting? || p.Submitted? || p.Merged? || p.Leading?
  }

  lemma SomeRecordsKept(rq: Requests, s: State, h: Option<Id>, step: Step, s': State)
    requires Next(rq, s, step, s') && HolderIs(s, h) && GatherOk(rq, s, h) && SomeRecords(rq, s)
    ensures SomeRecords(rq, s')
  {
    if Appends(step) {
      LeaderHolds(s, h, step.l);
      assert ContentOk(rq, s, step.l, s.phases[step.l].lead);
      SomeTotal(s.phases[step.l].lead.batches, step.l, rq(step.l).count);
    }
    hide HolderIs, GatherOk, Total, Merge, MergeLimit, FirstLead;
    forall w | w in s'.phases && Writes(s'.phases[w]) ensures rq(w).count >= 1 {
      assert w in s.phases ==> Writes(s.phases[w]);
    }
  }

  lemma SomeTotal(batches: seq<seq<Rec>>, w: Id, count: nat)
    requires HasBlock(batches, w, count) && count >= 1
    ensures Total(batches) > 0
  {
    var j, i :| Block(batches, w, count, j, i);
    TotalPrefix(batches, j, |batches|);
  }

  // ----- whole runs

  ghost predicate Inv(rq: Requests, base: nat, s: State, h: Option<Id>) {
    HolderIs(s, h) && WaitOk(s, h) && CountOk(s, h) && OutcomeOk(s) && GatherOk(rq, s, h) && JournalOk'(rq, s) && Chain(base, s.journal, s.seqNo) && SomeRecords(rq, s)
  }

  lemma NextKeeps(rq: Requests, base: nat, s: State, h: Option<Id>, step: Step, s': State)
    requires Inv(rq, base, s, h) && Next(rq, s, step, s')
    ensures Inv(rq, base, s', HolderAfter(h, step))
  {
    hide Next, HolderIs, WaitOk, CountOk, OutcomeOk, GatherOk, JournalOk', Chain, SomeRecords, HolderAfter;
    HolderKept(rq, s, h, step, s');
    WaitKept(rq, s, h, step, s');
    CountKept(rq, s, h, step, s');
    OutcomeKept(rq, s, h, step, s');
    GatherKept(rq, s, h, step, s');
    JournalKept(rq, s, h, step, s');
    ChainKept(rq, base, s, step, s');
    SomeRecordsKept(rq, s, h, step, s');
  }

  /** A run from an initial state with sequence counter `base`. */
  ghost predicate Run(rq: Requests, base: nat, ss: seq<State>, steps: seq<Step>) {
    |ss| == |steps| + 1 && Init(ss[0]) && ss[0].seqNo == base
    && forall i :: 0 <= i < |steps| ==> Next(rq, ss[i], steps[i], ss[i + 1])
  }

  lemma {:induction false} RunKeeps(rq: Requests, base: nat, ss: seq<State>, steps: seq<Step>, n: nat) returns (h: Option<Id>)
    requires Run(rq, base, ss, steps) && n < |ss|
    ensures Inv(rq, base, ss[n], h)
  {
    hide Next, Inv;
    if n == 0 {
      h := None;
      InitInv(rq, base, ss[0]);
    } else {
      var h0 := RunKeeps(rq, base, ss, steps, n - 1);
      h := HolderAfter(h0, steps[n - 1]);
      NextKeeps(rq, base, ss[n - 1], h0, steps[n - 1], ss[n]);
    }
  }

  lemma InitInv(rq: Requests, base: nat, s: State)
    requires Init(s) && s.seqNo == base
    ensures Inv(rq, base, s, None)
  {
  }

  /** At most one call holds the write lock, in every state of every run. */
  lemma OneHolder(rq: Requests, base: nat, ss: seq<State>, steps: seq<Step>, n: nat, a: Id, b: Id)
    requires Run(rq, base, ss, steps) && n < |ss| && Holds(ss[n], a) && Holds(ss[n], b)
    ensures a == b
  {
    var h := RunKeeps(rq, base, ss, steps, n);
    hide Run;
  }

  /** The three rendezvous always meet the right goroutine: whoever receives the reply, the refusal or the
      acknowledgement of a leader is a writer whose request that leader took, and there always is one. */
  lemma RendezvousMeet(rq: Requests, base: nat, ss: seq<State>, steps: seq<Step>, n: nat, l: Id)
    requires Run(rq, base, ss, steps) && n < |ss| && LeadsAt(ss[n], l)
    ensures var s, lead := ss[n], ss[n].phases[l].lead;
            && (forall w :: WaitsForReply(s, w) || WaitsForAck(s, w) ==> s.phases[w].leader == l)
            && (lead.stage.Replying? || lead.overflow ==> exists w :: WaitsForReply(s, w))
            && (lead.stage.Unlocking? ==> |Waiting(s)| == lead.stage.acks)
            && (lead.stage.Unlocking? && lead.stage.acks == 0 ==> forall w :: !WaitsForAck(s, w))
            && (lead.stage.Unlocking? && lead.stage.acks > 0 ==> exists w :: WaitsForAck(s, w))
  {
    var h := RunKeeps(rq, base, ss, steps, n);
    hide Run;
    var s := ss[n];
    LeaderHolds(s, h, l);
    hide OutcomeOk, GatherOk, JournalOk', Chain, HolderIs, SomeRecords;
    assert forall w :: WaitsForAck(s, w) <==> w in Waiting(s);
    if Waiting(s) != {} {
      var w :| w in Waiting(s);
      assert WaitsForAck(s, w);
    }
  }

  /** A call that was written returns the error of the leader that wrote it. */
  lemma OwnLeadersError(rq: Requests, base: nat, ss: seq<State>, steps: seq<Step>, n: nat, w: Id)
    requires Run(rq, base, ss, steps) && n < |ss| && Via(ss[n], w)
    ensures var l := ss[n].phases[w].via.value; l in ss[n].outcome && ss[n].phases[w].err == ErrorOf(ss[n].outcome[l])
  {
    var h := RunKeeps(rq, base, ss, steps, n);
    hide Run, HolderIs, WaitOk, CountOk, GatherOk, JournalOk', Chain;
  }

  /** Where the records of a call that has returned are, by its leader's outcome. Through a leader that succeeded: in exactly one journal
      record (a synced one if the call asked for that), in order, at one stretch of the sequence numbers counted.
      Through one that failed at `Sync`: in exactly one record that does not count. Otherwise, whether the leader
      failed before or the call was never written: nowhere. So a failed call has records in the journal exactly when
      its leader failed at `Sync`. */
  ghost predicate RecordsFollow(rq: Requests, base: nat, s: State, w: Id)
    requires w in s.phases && s.phases[w].Done?
  {
    var via := s.phases[w].via;
    (via.None? ==> Nowhere(s.journal, w))
    && (via.Some? ==>
          via.value in s.outcome
          && match s.outcome[via.value]
             case Success => s.phases[w].err == None && exists g, lo :: HasNumbers(rq, base, s, w, g, lo)
             case Unsynced(e) => s.phases[w].err == Some(e) && exists g :: OnlyIn(rq, s.journal, w, g) && !s.journal[g].counts
             case Unwritten(e) => s.phases[w].err == Some(e) && Nowhere(s.journal, w))
  }

  /** In every state of every run, the records of every call that has returned are where its leader's outcome says. */
  lemma EveryCallsRecords(rq: Requests, base: nat, ss: seq<State>, steps: seq<Step>, n: nat, w: Id)
    requires Run(rq, base, ss, steps) && n < |ss| && w in ss[n].phases && ss[n].phases[w].Done?
    ensures RecordsFollow(rq, base, ss[n], w)
  {
    var h := RunKeeps(rq, base, ss, steps, n);
    hide *;
    DoneRecords(rq, base, ss[n], h, w);
  }

  /** The same in any state that keeps the invariant. */
  lemma DoneRecords(rq: Requests, base: nat, s: State, h: Option<Id>, w: Id)
    requires Inv(rq, base, s, h) && w in s.phases && s.phases[w].Done?
    ensures RecordsFollow(rq, base, s, w)
  {
    hide HolderIs, WaitOk, CountOk, GatherOk, Owns;
    assert s.phases[w].via.Some? ==> Via(s, w);
    hide OutcomeOk;
    if Landed(s, w).Some? {
      var g :| OnlyIn(rq, s.journal, w, g) && s.journal[g].counts == Landed(s, w).value;
      if s.journal[g].counts {
        var lo := PlaceOf(rq, base, s, w, g);
        assert HasNumbers(rq, base, s, w, g, lo);
      }
    }
  }

  ghost predicate Nowhere(journal: seq<Group>, w: Id) {
    forall g :: 0 <= g < |journal| ==> !Owns(journal[g].batches, w)
  }

  /** `w`'s records are in record `g` only, which counts, and their numbers start at `lo`. */
  ghost predicate HasNumbers(rq: Requests, base: nat, s: State, w: Id, g: int, lo: nat) {
    OnlyIn(rq, s.journal, w, g) && WroteTo(rq, s.journal, w, lo, g) && s.journal[g].counts
    && base < lo && lo + rq(w).count <= s.seqNo + 1
  }

  /** Where in a counting record the records of `w` are. */
  lemma PlaceOf(rq: Requests, base: nat, s: State, w: Id, g: nat) returns (lo: nat)
    requires Chain(base, s.journal, s.seqNo) && OnlyIn(rq, s.journal, w, g) && s.journal[g].counts
    ensures WroteTo(rq, s.journal, w, lo, g) && base < lo && lo + rq(w).count <= s.seqNo + 1
  {
    hide Owns, Chain;
    var j, i :| Block(s.journal[g].batches, w, rq(w).count, j, i);
    lo := SeqOf(s.journal[g], j, i);
    assert WroteIn(rq, s.journal, w, lo, g, j, i);
    SeqInGroup(rq, s.journal, w, lo, g, j, i);
    ChainRange(base, s.journal, s.seqNo, g);
  }

  /** The counting records of a run take up its sequence numbers without gap or overlap, in journal order. */
  lemma NumbersTiled(rq: Requests, base: nat, ss: seq<State>, steps: seq<Step>, n: nat, x: nat)
    requires Run(rq, base, ss, steps) && n < |ss| && base < x <= ss[n].seqNo
    ensures var j := ss[n].journal;
            && (exists g :: 0 <= g < |j| && j[g].counts && j[g].first <= x < j[g].first + Total(j[g].batches))
            && forall g, g' :: 0 <= g < g' < |j| && j[g].counts ==> j[g].first + Total(j[g].batches) <= j[g'].first
  {
    var h := RunKeeps(rq, base, ss, steps, n);
    hide Run, HolderIs, WaitOk, CountOk, GatherOk, OutcomeOk, JournalOk', Chain, Total;
    var s := ss[n];
    var g := ChainCovers(base, s.journal, s.seqNo, x);
    forall g, g' | 0 <= g < g' < |s.journal| && s.journal[g].counts
      ensures s.journal[g].first + Total(s.journal[g].batches) <= s.journal[g'].first
    {
      ChainApart(base, s.journal, s.seqNo, g, g');
    }
  }

  lemma JournalStarts(rq: Requests, base: nat, ss: seq<State>, steps: seq<Step>, n: nat, g: nat)
    requires Run(rq, base, ss, steps) && n < |ss| && g < |ss[n].journal|
    ensures base < ss[n].journal[g].first
  {
    var h := RunKeeps(rq, base, ss, steps, n);
    hide Run, HolderIs, WaitOk, CountOk, GatherOk, OutcomeOk, JournalOk', Chain, Total;
    ChainRange(base, ss[n].journal, ss[n].seqNo, g);
  }

  /** Records start behind every counting record in front of them. */
  lemma JournalOrder(rq: Requests, base: nat, ss: seq<State>, steps: seq<Step>, n: nat, g: nat, g': nat)
    requires Run(rq, base, ss, steps) && n < |ss| && g < g' < |ss[n].journal| && ss[n].journal[g].counts
    ensures ss[n].journal[g].first + Total(ss[n].journal[g].batches) <= ss[n].journal[g'].first
  {
    var h := RunKeeps(rq, base, ss, steps, n);
    hide Run, HolderIs, WaitOk, CountOk, GatherOk, OutcomeOk, JournalOk', Chain, Total;
    ChainApart(base, ss[n].journal, ss[n].seqNo, g, g');
  }

  lemma RecordNotEmpty(rq: Requests, base: nat, ss: seq<State>, steps: seq<Step>, n: nat, g: nat)
    requires Run(rq, base, ss, steps) && n < |ss| && g < |ss[n].journal|
    ensures Total(ss[n].journal[g].batches) > 0
  {
    var h := RunKeeps(rq, base, ss, steps, n);
    hide Run, HolderIs, WaitOk, CountOk, GatherOk, OutcomeOk, JournalOk', Chain, Total;
  }

  /** The record behind one that does not count starts at the same sequence number. */
  lemma NumberReused(rq: Requests, base: nat, ss: seq<State>, steps: seq<Step>, n: nat, g: nat)
    requires Run(rq, base, ss, steps) && n < |ss| && g + 1 < |ss[n].journal|
    ensures var j := ss[n].journal; j[g + 1].first == j[g].first <==> !j[g].counts
  {
    var h := RunKeeps(rq, base, ss, steps, n);
    hide Run, HolderIs, WaitOk, CountOk, GatherOk, OutcomeOk, JournalOk', Chain, Total;
    ChainRange(base, ss[n].journal, ss[n].seqNo, g);
  }

  /** Two puts that do not merge; the first asks for a sync. */
  function TwoPuts(w: Id): Request {
    Request(false, w == 0, true, 1, 10)
  }

  ghost predicate Path(rq: Requests, ss: seq<State>, steps: seq<Step>) {
    |ss| == |steps| + 1 && forall i :: 0 <= i < |steps| ==> Next(rq, ss[i], steps[i], ss[i + 1])
  }

  lemma PathThen(rq: Requests, ss: seq<State>, steps: seq<Step>, ss': seq<State>, steps': seq<Step>)
    requires Path(rq, ss, steps) && Path(rq, ss', steps') && ss[|ss| - 1] == ss'[0]
    ensures Path(rq, ss + ss'[1..], steps + steps') && (ss + ss'[1..])[0] == ss[0]
    ensures (ss + ss'[1..])[|ss + ss'[1..]| - 1] == ss'[|ss'| - 1]
  {
    hide Next;
    var l, t := ss + ss'[1..], steps + steps';
    forall i | 0 <= i < |t| ensures Next(rq, l[i], t[i], l[i + 1]) {
      if i >= |steps| {
        assert Next(rq, ss'[i - |steps|], steps'[i - |steps|], ss'[i - |steps| + 1]);
      }
    }
  }

  /** An unmerged put up to its journal write. */
  lemma PutStarts(s: State, w: Id) returns (ss: seq<State>, steps: seq<Step>, lead: Lead)
    requires w !in s.phases && !s.locked
    ensures Path(TwoPuts, ss, steps) && ss != [] && ss[0] == s && ss[|ss| - 1] == With(s, w, Leading(lead)).(locked := true)
    ensures lead.stage == Writing && lead.batches == [[Rec(w, 0)]] && lead.sync == (w == 0) && lead.ours == Some(0) && !lead.overflow && lead.merged == 0
  {
    hide MergeLimit;
    var first := FirstLead(w, TwoPuts(w));
    assert Tagged(w, 1) == [Rec(w, 0)];
    lead := first.(stage := Writing, limit := MergeLimit(10, 100), free := 100);
    var a := With(s, w, Selecting);
    var b := With(a, w, Leading(first)).(locked := true);
    ss, steps := [s, a, b, With(b, w, Leading(lead))], [Begin(w), Acquire(w), FlushOk(w, 100)];
    assert ss[3].phases == With(s, w, Leading(lead)).phases;
  }

  /** The rest of it, with or without a failing `Sync`. */
  lemma PutEnds(s: State, w: Id, fail: bool, lead: Lead) returns (ss: seq<State>, steps: seq<Step>)
    requires w in s.phases && s.phases[w] == Leading(lead) && s.locked && (fail ==> lead.sync)
    requires lead.stage == Writing && lead.batches == [[Rec(w, 0)]] && lead.ours == Some(0) && !lead.overflow && lead.merged == 0
    ensures Path(TwoPuts, ss, steps) && ss != [] && ss[0] == s
    ensures var e := ss[|ss| - 1];
            && e.phases == s.phases[w := Done(if fail then Some(7) else None, Some(w))] && !e.locked
            && e.journal == s.journal + [Group(s.seqNo + 1, [[Rec(w, 0)]], lead.sync, !fail)] && e.seqNo == s.seqNo + if fail then 0 else 1
  {
    OneRecord(Rec(w, 0));
    hide Total;
    var err := if fail then Some(7) else None;
    var d := With(s, w, Leading(lead.(stage := Unlocking(0, err)))).(
      journal := s.journal + [Group(s.seqNo + 1, lead.batches, lead.sync, !fail)], seqNo := s.seqNo + (if fail then 0 else 1),
      outcome := s.outcome[w := if fail then Unsynced(7) else Success]);
    var e := With(d, w, Done(err, Some(w))).(locked := false);
    ss, steps := [s, d, e], [if fail then SyncFail(w, 7) else JournalOk(w), Release(w)];
    assert e.phases == s.phases[w := Done(err, Some(w))];
  }

  lemma OnePut(s: State, w: Id, fail: bool) returns (ss: seq<State>, steps: seq<Step>)
    requires w !in s.phases && !s.locked && (fail ==> w == 0)
    ensures Path(TwoPuts, ss, steps) && ss != [] && ss[0] == s
    ensures var e := ss[|ss| - 1];
            && e.phases == s.phases[w := Done(if fail then Some(7) else None, Some(w))] && !e.locked
            && e.journal == s.journal + [Group(s.seqNo + 1, [[Rec(w, 0)]], w == 0, !fail)] && e.seqNo == s.seqNo + if fail then 0 else 1
  {
    hide Path;
    var ss1, steps1, lead := PutStarts(s, w);
    var m := With(s, w, Leading(lead)).(locked := true);
    var ss2, steps2 := PutEnds(m, w, fail, lead);
    PathThen(TwoPuts, ss1, steps1, ss2, steps2);
    ss, steps := ss1 + ss2[1..], steps1 + steps2;
    assert ss2[|ss2| - 1].phases == s.phases[w := Done(if fail then Some(7) else None, Some(w))];
  }

  lemma OneRecord(r: Rec)
    ensures Total([[r]]) == 1
  {
    assert [[r]][..0] == [];
  }

  /** A put whose `Sync` fails, then one that succeeds: both are in the journal, at the same number. */
  lemma SameNumberTwice() returns (ss: seq<State>, steps: seq<Step>)
    ensures Run(TwoPuts, 0, ss, steps) && ss != []
    ensures var s := ss[|ss| - 1];
            && 0 in s.phases && s.phases[0] == Done(Some(7), Some(0)) && 1 in s.phases && s.phases[1] == Done(None, Some(1))
            && s.journal == [Group(1, [[Rec(0, 0)]], true, false), Group(1, [[Rec(1, 0)]], false, true)]
  {
    var s0 := State(map[], false, 0, [], map[]);
    assert Init(s0);
    var ss1, steps1 := OnePut(s0, 0, true);
    var s1 := ss1[|ss1| - 1];
    var ss2, steps2 := OnePut(s1, 1, false);
    hide Next, Init;
    PathThen(TwoPuts, ss1, steps1, ss2, steps2);
    ss, steps := ss1 + ss2[1..], steps1 + steps2;
  }
}
