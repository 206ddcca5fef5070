/** Group commit: the writer queue of DBImpl::Write and BuildBatchGroup (db/db_impl.cc),
    one step for each region under the mutex and for each insertion into the memtable. */
module GroupCommit {
  import opened InternalKeys

  /** A queued Writer; its batch is a list of operations, or nullptr. */
  datatype Writer = Writer(batch: Option<seq<(UserKey, Op)>>, sync: bool, size: nat)

  /** Operation i of writer w. */
  datatype Operation = Operation(w: nat, i: nat)

  /** A sequence number that has been given out, and whether its group succeeded. */
  datatype Slot = Slot(op: Operation, ok: bool)

  datatype Phase =
    | Idle                                                // nobody leads
    | MakingRoom                                          // the front writer is in MakeRoomForWrite
    | Writing(n: nat, logged: bool, inserted: nat)        // it logs and inserts the first n writers' operations

  /** Writers are numbered in order of arrival.  `slots` lists the sequence numbers
      given out; `synced` are the writers whose log record has been synced. */
  datatype State = State(writers: seq<Writer>, queue: seq<nat>, status: map<nat, bool>, phase: Phase,
                         lastSequence: nat, mem: map<nat, Operation>, bgError: bool,
                         slots: seq<Slot>, synced: set<nat>)

  // ---- the group ----

  function Size(w: Writer): nat { if w.batch.Some? then w.size else 0 }

  function TotalSize(queue: seq<Writer>): nat {
    if queue == [] then 0 else TotalSize(queue[..|queue| - 1]) + Size(queue[|queue| - 1])
  }

  function MaxSize(first: Writer): nat { if first.size <= 0x2_0000 then first.size + 0x2_0000 else 0x10_0000 }

  /** Whether the last of these writers may join the group of the first. */
  predicate MayJoin(queue: seq<Writer>)
    requires |queue| > 1
  {
    var w := queue[|queue| - 1];
    !(w.sync && !queue[0].sync) && (w.batch.Some? ==> TotalSize(queue) <= MaxSize(queue[0]))
  }

  /** The first n writers form the group: everyone may join, and the next may not. */
  ghost predicate IsGroup(queue: seq<Writer>, n: nat) {
    && 1 <= n <= |queue|
    && (forall i :: 1 < i <= n ==> MayJoin(queue[..i]))
    && (n < |queue| ==> !MayJoin(queue[..n + 1]))
  }

  /** The operations of these writers, in queue order. */
  function GroupOps(writers: seq<Writer>, ids: seq<nat>): seq<Operation>
    requires forall i :: 0 <= i < |ids| ==> ids[i] < |writers|
  {
    if ids == [] then [] else GroupOps(writers, ids[..|ids| - 1]) + OpsOf(writers, ids[|ids| - 1])
  }

  function Length(w: Writer): nat { match w.batch case None => 0 case Some(b) => |b| }

  function OpsOf(writers: seq<Writer>, w: nat): (ops: seq<Operation>)
    requires w < |writers|
    ensures |ops| == Length(writers[w]) && forall i :: 0 <= i < |ops| ==> ops[i] == Operation(w, i)
  { seq(Length(writers[w]), i requires 0 <= i => Operation(w, i)) }

  function BatchOps(queue: seq<Writer>): seq<(UserKey, Op)> {
    if queue == [] then []
    else BatchOps(queue[..|queue| - 1]) + match queue[|queue| - 1].batch case None => [] case Some(b) => b
  }

  /** BuildBatchGroup: the group, and the batch it writes. */
  method BuildBatchGroup(queue: seq<Writer>) returns (n: nat, result: seq<(UserKey, Op)>)
    requires |queue| > 0 && queue[0].batch.Some?
    ensures IsGroup(queue, n) && result == BatchOps(queue[..n])
    ensures var limit := if queue[0].size <= 128 * 1024 then queue[0].size + 128 * 1024 else 1024 * 1024;
            && (TotalSize(queue[..n]) <= limit || forall i :: 0 < i < n ==> queue[i].batch == None)
            && (n < |queue| ==> (queue[n].sync && !queue[0].sync)
                                || (queue[n].batch.Some? && TotalSize(queue[..n]) + queue[n].size > limit))
  {
    var first := queue[0];
    result := first.batch.value;
    var size := first.size;
    var maxSize := if size <= 0x2_0000 then size + 0x2_0000 else 0x10_0000;
    n := 1;
    OneWriter(queue);
    while n < |queue|
      invariant 1 <= n <= |queue| && size == TotalSize(queue[..n]) && maxSize == MaxSize(first)
      invariant result == BatchOps(queue[..n])
      invariant forall i :: 1 < i <= n ==> MayJoin(queue[..i])
      invariant size <= maxSize || forall i :: 0 < i < n ==> queue[i].batch == None
    {
      assert queue[..n + 1][..n] == queue[..n];
      var w := queue[n];
      if w.sync && !first.sync { return; }
      if w.batch.Some? {
        size := size + w.size;
        if size > maxSize { return; }
        result := result + w.batch.value;
      }
      n := n + 1;
    }
  }

  lemma OneWriter(queue: seq<Writer>)
    requires |queue| > 0 && queue[0].batch.Some?
    ensures TotalSize(queue[..1]) == queue[0].size && BatchOps(queue[..1]) == queue[0].batch.value
  {
    assert queue[..1][..0] == [];
  }

  // ---- steps ----

  function Records(writers: seq<Writer>, ids: seq<nat>): (r: seq<Writer>)
    requires forall i :: 0 <= i < |ids| ==> ids[i] < |writers|
    ensures |r| == |ids| && forall i :: 0 <= i < |ids| ==> r[i] == writers[ids[i]]
  { seq(|ids|, i requires 0 <= i < |ids| => writers[ids[i]]) }

  ghost predicate Known(s: State) { forall i :: 0 <= i < |s.queue| ==> s.queue[i] < |s.writers| }

  /** What the group of the current leader writes. */
  ghost function Pending(s: State): seq<Operation>
    requires Known(s) && s.phase.Writing? && s.phase.n <= |s.queue|
  { GroupOps(s.writers, s.queue[..s.phase.n]) }

  ghost predicate Arrive(s: State, w: Writer, s': State) {
    s' == s.(writers := s.writers + [w], queue := s.queue + [|s.writers|])
  }

  /** The writer at the front stops waiting. */
  ghost predicate Lead(s: State, s': State) {
    s.phase == Idle && s.queue != [] && s' == s.(phase := MakingRoom)
  }

  function Ids(queue: seq<nat>): set<nat> { set w | w in queue }

  function WithStatus(status: map<nat, bool>, ids: set<nat>, ok: bool): map<nat, bool> {
    status + map w | w in ids :: ok
  }

  /** The loop that pops the group and hands out its status. */
  function Completed(s: State, n: nat, ok: bool): State
    requires n <= |s.queue|
  {
    s.(queue := s.queue[n..], phase := Idle, status := WithStatus(s.status, Ids(s.queue[..n]), ok))
  }

  /** MakeRoomForWrite fails, or there is nothing to write: the leader completes alone. */
  ghost predicate Alone(s: State, ok: bool, s': State) {
    && s.phase == MakingRoom && s.queue != [] && Known(s)
    && (ok ==> !s.bgError && s.writers[s.queue[0]].batch == None)
    && s' == Completed(s, 1, ok)
  }

  ghost predicate StartWriting(s: State, n: nat, s': State) {
    && s.phase == MakingRoom && s.queue != [] && Known(s) && !s.bgError
    && s.writers[s.queue[0]].batch.Some? && IsGroup(Records(s.writers, s.queue), n)
    && s' == s.(phase := Writing(n, false, 0))
  }

  /** The log record is written, and synced if the leader asks for it. */
  ghost predicate Log(s: State, s': State) {
    && Known(s) && s.phase.Writing? && !s.phase.logged && 0 < s.phase.n <= |s.queue|
    && s' == s.(phase := s.phase.(logged := true),
                synced := if s.writers[s.queue[0]].sync then s.synced + Ids(s.queue[..s.phase.n]) else s.synced)
  }

  function Flagged(ops: seq<Operation>, ok: bool): (r: seq<Slot>)
    ensures |r| == |ops| && forall i :: 0 <= i < |ops| ==> r[i] == Slot(ops[i], ok)
  { seq(|ops|, i requires 0 <= i < |ops| => Slot(ops[i], ok)) }

  /** The log cannot be written or synced; the sequence numbers are used up all the same. */
  ghost predicate LogFails(s: State, syncError: bool, s': State) {
    && Known(s) && s.phase.Writing? && !s.phase.logged && 0 < s.phase.n <= |s.queue|
    && (syncError ==> s.writers[s.queue[0]].sync)
    && s' == Completed(s, s.phase.n, false).(
               lastSequence := s.lastSequence + |Pending(s)|, slots := s.slots + Flagged(Pending(s), false),
               bgError := s.bgError || syncError)
  }

  ghost predicate Insert(s: State, s': State) {
    && Known(s) && s.phase.Writing? && s.phase.logged && s.phase.n <= |s.queue| && s.phase.inserted < |Pending(s)|
    && var i := s.phase.inserted;
      s' == s.(phase := s.phase.(inserted := i + 1), mem := s.mem[s.lastSequence + 1 + i := Pending(s)[i]])
  }

  ghost predicate Finish(s: State, s': State) {
    && Known(s) && s.phase.Writing? && s.phase.logged && s.phase.n <= |s.queue| && s.phase.inserted == |Pending(s)|
    && s' == Completed(s, s.phase.n, true).(
               lastSequence := s.lastSequence + |Pending(s)|, slots := s.slots + Flagged(Pending(s), true))
  }

  datatype Event = Arrives(w: Writer) | Leads | CompletesAlone(ok: bool) | Builds(n: nat) | Logs
      | FailsToLog(syncError: bool)
                 | Inserts | Finishes

  ghost predicate Step(s: State, e: Event, s': State) {
    match e
    case Arrives(w) => Arrive(s, w, s')
    case Leads => Lead(s, s')
    case CompletesAlone(ok) => Alone(s, ok, s')
    case Builds(n) => StartWriting(s, n, s')
    case Logs => Log(s, s')
    case FailsToLog(syncError) => LogFails(s, syncError, s')
    case Inserts => Insert(s, s')
    case Finishes => Finish(s, s')
  }

  ghost predicate Init(s: State) { s == State([], [], map[], Idle, 0, map[], false, [], {}) }

  // ---- invariants ----

  ghost predicate FirstOnes(status: map<nat, bool>) { forall w: nat :: w in status <==> w < |status| }

  /** Writers complete in order of arrival: the queue holds exactly the others. */
  ghost predicate InQueueOrder(s: State) { QueueOk(s.writers, s.queue, s.status) }

  ghost predicate QueueOk(writers: seq<Writer>, queue: seq<nat>, status: map<nat, bool>) {
    && |status| + |queue| == |writers| && FirstOnes(status)
    && forall i :: 0 <= i < |queue| ==> queue[i] == |status| + i
  }

  ghost predicate PhaseOk(s: State)
    requires InQueueOrder(s)
  {
    && (s.phase == MakingRoom ==> s.queue != [])
    && (s.phase.Writing? ==>
          && 1 <= s.phase.n <= |s.queue|
          && var leader := s.writers[s.queue[0]];
          && leader.batch.Some? && s.phase.inserted <= |Pending(s)|
          && (s.phase.inserted > 0 ==> s.phase.logged)
          && (forall i :: 0 <= i < s.phase.n && !leader.sync ==> !s.writers[s.queue[i]].sync)
          && (forall i :: 0 <= i < s.phase.n && s.phase.logged && leader.sync ==> s.queue[i] in s.synced))
  }

  /** The sequence numbers given out belong to completed writers, in queue order, and
      carry the writer's status. */
  ghost predicate SlotsOk(writers: seq<Writer>, status: map<nat, bool>, slots: seq<Slot>) {
    && (forall j :: 0 <= j < |slots| ==>
          var op := slots[j].op;
          op.w < |writers| && op.w in status && op.i < Length(writers[op.w]) && slots[j].ok == status[op.w])
    && forall j, k :: 0 <= j < k < |slots| ==> Earlier(slots[j].op, slots[k].op)
  }

  predicate Earlier(a: Operation, b: Operation) { a.w < b.w || (a.w == b.w && a.i < b.i) }

  /** Operations lie at consecutive sequence numbers after p. */
  ghost predicate LiesAt(slots: seq<Slot>, w: nat, n: nat, p: nat) {
    p + n <= |slots| && forall i :: 0 <= i < n ==> slots[p + i] == Slot(Operation(w, i), true)
  }

  ghost predicate Acknowledged(writers: seq<Writer>, status: map<nat, bool>, slots: seq<Slot>, synced: set<nat>) {
    forall w :: w < |writers| && w in status && status[w] ==> Safe(writers, slots, synced, w)
  }

  /** The writer's operations are there, and synced if it asked for it. */
  ghost predicate Safe(writers: seq<Writer>, slots: seq<Slot>, synced: set<nat>, w: nat)
    requires w < |writers|
  {
    && (exists p :: LiesAt(slots, w, Length(writers[w]), p))
    && (writers[w].batch.Some? && writers[w].sync ==> w in synced)
  }

  /** The memtable holds the successful operations up to LastSequence, and above it only
      the first `inserted` of those the current leader writes. */
  ghost predicate MemOk(mem: map<nat, Operation>, slots: seq<Slot>, pending: seq<Operation>, inserted: nat) {
    && inserted <= |pending|
    && (forall q :: 1 <= q <= |slots| ==> (q in mem <==> slots[q - 1].ok) && (q in mem ==> mem[q] == slots[q - 1].op))
    && (forall q :: q in mem ==> 1 <= q <= |slots| + inserted)
    && (forall q :: |slots| < q <= |slots| + inserted ==> q in mem && mem[q] == pending[q - |slots| - 1])
  }

  ghost function Writes(s: State): seq<Operation>
    requires InQueueOrder(s) && PhaseOk(s)
  { if s.phase.Writing? then Pending(s) else [] }

  function Inserted(phase: Phase): nat { if phase.Writing? then phase.inserted else 0 }

  ghost predicate Inv(s: State) {
    && InQueueOrder(s) && PhaseOk(s) && s.lastSequence == |s.slots|
    && SlotsOk(s.writers, s.status, s.slots) && Acknowledged(s.writers, s.status, s.slots, s.synced)
    && MemOk(s.mem, s.slots, Writes(s), Inserted(s.phase))
  }

  lemma InitInv(s: State)
    requires Init(s)
    ensures Inv(s)
  {
  }

  // ---- what a group writes ----

  ghost predicate Runs(ids: seq<nat>, k: nat, writers: seq<Writer>) {
    forall i :: 0 <= i < |ids| ==> ids[i] == k + i < |writers|
  }

  ghost predicate Holds(ops: seq<Operation>, w: nat, n: nat, p: nat) {
    p + n <= |ops| && forall i :: 0 <= i < n ==> ops[p + i] == Operation(w, i)
  }

  /** Operations of the writers k up to k + n only, in queue order. */
  ghost predicate OpsBetween(writers: seq<Writer>, ops: seq<Operation>, k: nat, n: nat) {
    && k + n <= |writers|
    && (forall j :: 0 <= j < |ops| ==> k <= ops[j].w < k + n && ops[j].i < Length(writers[ops[j].w]))
    && forall i, j :: 0 <= i < j < |ops| ==> Earlier(ops[i], ops[j])
  }

  lemma OneMore(writers: seq<Writer>, front: seq<Operation>, k: nat, n: nat)
    requires OpsBetween(writers, front, k, n) && k + n < |writers|
    ensures OpsBetween(writers, front + OpsOf(writers, k + n), k, n + 1)
  {
  }

  lemma {:induction false} GroupInOrder(writers: seq<Writer>, ids: seq<nat>, k: nat)
    requires Runs(ids, k, writers) && k + |ids| <= |writers|
    ensures OpsBetween(writers, GroupOps(writers, ids), k, |ids|)
  {
    if ids != [] {
      GroupInOrder(writers, ids[..|ids| - 1], k);
      OneMore(writers, GroupOps(writers, ids[..|ids| - 1]), k, |ids| - 1);
    }
  }

  lemma {:induction false} GroupHolds(writers: seq<Writer>, ids: seq<nat>, k: nat, t: nat)
    requires Runs(ids, k, writers) && t < |ids|
    ensures exists p :: Holds(GroupOps(writers, ids), ids[t], Length(writers[ids[t]]), p)
    decreases |ids|
  {
    var init := ids[..|ids| - 1];
    if t < |init| {
      GroupHolds(writers, init, k, t);
      var p :| Holds(GroupOps(writers, init), ids[t], Length(writers[ids[t]]), p);
      assert Holds(GroupOps(writers, ids), ids[t], Length(writers[ids[t]]), p);
    } else {
      assert Holds(GroupOps(writers, ids), ids[t], Length(writers[ids[t]]), |GroupOps(writers, init)|);
    }
  }

  lemma MoreWriters(writers: seq<Writer>, w: Writer, ids: seq<nat>)
    requires forall i :: 0 <= i < |ids| ==> ids[i] < |writers|
    ensures GroupOps(writers + [w], ids) == GroupOps(writers, ids)
  {
    if ids != [] {
      MoreWriters(writers, w, ids[..|ids| - 1]);
      assert OpsOf(writers + [w], ids[|ids| - 1]) == OpsOf(writers, ids[|ids| - 1]);
    }
  }

  // ---- every step keeps the invariants ----

  lemma ArriveKeepsPhase(s: State, w: Writer, s': State)
    requires InQueueOrder(s) && PhaseOk(s) && Arrive(s, w, s')
    ensures InQueueOrder(s') && PhaseOk(s') && (s.phase.Writing? ==> Pending(s') == Pending(s))
  {
    if s.phase.Writing? {
      assert s'.queue[..s.phase.n] == s.queue[..s.phase.n];
      MoreWriters(s.writers, w, s.queue[..s.phase.n]);
    }
  }

  lemma ArriveKeepsSlots(writers: seq<Writer>, status: map<nat, bool>, slots: seq<Slot>, synced: set<nat>, w: Writer)
    requires FirstOnes(status) && |status| <= |writers|
    requires SlotsOk(writers, status, slots) && Acknowledged(writers, status, slots, synced)
    ensures SlotsOk(writers + [w], status, slots) && Acknowledged(writers + [w], status, slots, synced)
  {
  }

  lemma ArriveKeeps(s: State, w: Writer, s': State)
    requires Inv(s) && Arrive(s, w, s')
    ensures Inv(s')
  {
    ArriveKeepsPhase(s, w, s');
    ArriveKeepsSlots(s.writers, s.status, s.slots, s.synced, w);
    hide PhaseOk;
    hide SlotsOk;
    hide Acknowledged;
    hide InQueueOrder;
    hide Pending;
    hide MemOk;
  }

  lemma LeadKeeps(s: State, s': State)
    requires Inv(s) && Lead(s, s')
    ensures Inv(s')
  {
  }

  lemma StartKeeps(s: State, n: nat, s': State)
    requires Inv(s) && StartWriting(s, n, s')
    ensures Inv(s')
  {
    NoSyncAfterAsync(Records(s.writers, s.queue), n);
  }

  /** A sync write never joins the group of a writer that does not sync. */
  lemma NoSyncAfterAsync(queue: seq<Writer>, n: nat)
    requires IsGroup(queue, n)
    ensures forall i :: 0 <= i < n && !queue[0].sync ==> !queue[i].sync
  {
    forall i | 0 < i < n ensures !queue[0].sync ==> !queue[i].sync {
      assert MayJoin(queue[..i + 1]);
    }
  }

  lemma LogKeeps(s: State, s': State)
    requires Inv(s) && Log(s, s')
    ensures Inv(s')
  {
  }

  lemma InsertKeeps(s: State, s': State)
    requires Inv(s) && Insert(s, s')
    ensures Inv(s')
  {
    assert InQueueOrder(s') && PhaseOk(s') && Pending(s') == Pending(s);
    InsertOne(s.mem, s.slots, Pending(s), s.phase.inserted);
    hide PhaseOk;
    hide InQueueOrder;
    hide MemOk;
    hide Pending;
  }

  lemma InsertOne(mem: map<nat, Operation>, slots: seq<Slot>, pending: seq<Operation>, i: nat)
    requires MemOk(mem, slots, pending, i) && i < |pending|
    ensures MemOk(mem[|slots| + 1 + i := pending[i]], slots, pending, i + 1)
  {
  }

  /** The group's operations become visible all at once. */
  lemma Publish(mem: map<nat, Operation>, slots: seq<Slot>, pending: seq<Operation>)
    requires MemOk(mem, slots, pending, |pending|)
    ensures MemOk(mem, slots + Flagged(pending, true), [], 0)
  {
    var slots' := slots + Flagged(pending, true);
    forall q | 1 <= q <= |slots'|
      ensures (q in mem <==> slots'[q - 1].ok) && (q in mem ==> mem[q] == slots'[q - 1].op)
    {
      if q > |slots| { assert slots'[q - 1] == Slot(pending[q - |slots| - 1], true); }
    }
  }

  /** Sequence numbers used up in vain. */
  lemma Skip(mem: map<nat, Operation>, slots: seq<Slot>, pending: seq<Operation>)
    requires MemOk(mem, slots, pending, 0)
    ensures MemOk(mem, slots + Flagged(pending, false), [], 0)
  {
    var slots' := slots + Flagged(pending, false);
    forall q | 1 <= q <= |slots'|
      ensures (q in mem <==> slots'[q - 1].ok) && (q in mem ==> mem[q] == slots'[q - 1].op)
    {
      if q > |slots| { assert slots'[q - 1] == Slot(pending[q - |slots| - 1], false); }
    }
  }

  lemma StatusGrows(status: map<nat, bool>, ids: set<nat>, n: nat, ok: bool)
    requires FirstOnes(status) && |ids| == n && (forall w: nat :: w in ids <==> |status| <= w < |status| + n)
    ensures FirstOnes(WithStatus(status, ids, ok)) && |WithStatus(status, ids, ok)| == |status| + n
  {
    var status' := WithStatus(status, ids, ok);
    assert status'.Keys == status.Keys + ids;
    assert status.Keys !! ids;
    assert |status'| == |status'.Keys| == |status.Keys| + |ids|;
  }

  lemma CompletedQueue(s: State, n: nat, ok: bool)
    requires InQueueOrder(s) && n <= |s.queue|
    ensures QueueOk(s.writers, s.queue[n..], WithStatus(s.status, Ids(s.queue[..n]), ok))
  {
    RangeIds(s.queue, |s.status|, n);
    StatusGrows(s.status, Ids(s.queue[..n]), n, ok);
    hide Ids;
    hide WithStatus;
  }

  lemma {:induction false} RangeIds(q: seq<nat>, k: nat, n: nat)
    requires n <= |q| && forall i :: 0 <= i < n ==> q[i] == k + i
    ensures |Ids(q[..n])| == n && forall w: nat :: w in Ids(q[..n]) <==> k <= w < k + n
  {
    if n > 0 {
      RangeIds(q, k, n - 1);
      assert q[..n] == q[..n - 1] + [q[n - 1]];
      assert Ids(q[..n]) == Ids(q[..n - 1]) + {q[n - 1]};
    }
  }

  // ---- completing a group ----

  /** Slots of one more group, after those of earlier writers. */
  lemma SlotsGrow(writers: seq<Writer>, status: map<nat, bool>, slots: seq<Slot>, ids: set<nat>, ops: seq<Operation>,
                  n: nat, ok: bool)
    requires FirstOnes(status) && (forall w: nat :: w in ids <==> |status| <= w < |status| + n)
    requires SlotsOk(writers, status, slots) && OpsBetween(writers, ops, |status|, n)
    ensures SlotsOk(writers, WithStatus(status, ids, ok), slots + Flagged(ops, ok))
  {
    var slots' := slots + Flagged(ops, ok);
    forall j | 0 <= j < |slots'| ensures j >= |slots| ==> slots'[j] == Slot(ops[j - |slots|], ok) {}
  }

  lemma StillSafe(writers: seq<Writer>, slots: seq<Slot>, synced: set<nat>, more: seq<Slot>, w: nat)
    requires w < |writers| && Safe(writers, slots, synced, w)
    ensures Safe(writers, slots + more, synced, w)
  {
    var p :| LiesAt(slots, w, Length(writers[w]), p);
    assert LiesAt(slots + more, w, Length(writers[w]), p);
  }

  lemma NowSafe(writers: seq<Writer>, slots: seq<Slot>, synced: set<nat>, ids: seq<nat>, k: nat, t: nat)
    requires Runs(ids, k, writers) && t < |ids|
             && (writers[ids[t]].batch.Some? && writers[ids[t]].sync ==> ids[t] in synced)
    ensures Safe(writers, slots + Flagged(GroupOps(writers, ids), true), synced, ids[t])
  {
    var ops := GroupOps(writers, ids);
    GroupHolds(writers, ids, k, t);
    var p :| Holds(ops, ids[t], Length(writers[ids[t]]), p);
    assert LiesAt(slots + Flagged(ops, true), ids[t], Length(writers[ids[t]]), |slots| + p);
  }

  lemma WhoIsDone(status: map<nat, bool>, ids: seq<nat>, ok: bool, w: nat)
    requires FirstOnes(status) && (forall i :: 0 <= i < |ids| ==> ids[i] == |status| + i)
             && w in WithStatus(status, Ids(ids), ok)
    ensures if w < |status| then w in status && WithStatus(status, Ids(ids), ok)[w] == status[w]
            else w - |status| < |ids|
  {
  }

  /** A successful group is acknowledged with all its operations. */
  lemma AcknowledgeGroup(writers: seq<Writer>, status: map<nat, bool>, slots: seq<Slot>, synced: set<nat>,
                         ids: seq<nat>)
    requires FirstOnes(status) && Runs(ids, |status|, writers) && Acknowledged(writers, status, slots, synced)
    requires forall i :: 0 <= i < |ids| && writers[ids[i]].batch.Some? && writers[ids[i]].sync ==> ids[i] in synced
    ensures Acknowledged(writers, WithStatus(status, Ids(ids), true), slots + Flagged(GroupOps(writers, ids), true),
                         synced)
  {
    var status', more := WithStatus(status, Ids(ids), true), Flagged(GroupOps(writers, ids), true);
    hide Safe;
    hide GroupOps;
    hide Flagged;
    hide WithStatus;
    hide FirstOnes;
    hide Ids;
    forall w | w < |writers| && w in status' && status'[w] ensures Safe(writers, slots + more, synced, w) {
      WhoIsDone(status, ids, true, w);
      if w < |status| {
        StillSafe(writers, slots, synced, more, w);
      } else {
        assert ids[w - |status|] == w;
        NowSafe(writers, slots, synced, ids, |status|, w - |status|);
      }
    }
  }

  /** A failed group acknowledges nobody. */
  lemma AcknowledgeNobody(writers: seq<Writer>, status: map<nat, bool>, slots: seq<Slot>, synced: set<nat>,
                          ids: seq<nat>, more: seq<Slot>)
    requires FirstOnes(status) && Runs(ids, |status|, writers) && Acknowledged(writers, status, slots, synced)
    ensures Acknowledged(writers, WithStatus(status, Ids(ids), false), slots + more, synced)
  {
    var status' := WithStatus(status, Ids(ids), false);
    hide Safe;
    forall w | w < |writers| && w in status' && status'[w] ensures Safe(writers, slots + more, synced, w) {
      StillSafe(writers, slots, synced, more, w);
    }
  }

  /** The first n in the queue, as a run of consecutive writers. */
  lemma GroupRuns(s: State, n: nat)
    requires InQueueOrder(s) && n <= |s.queue|
    ensures FirstOnes(s.status) && Runs(s.queue[..n], |s.status|, s.writers) && |s.status| + n <= |s.writers|
    ensures forall w: nat :: w in Ids(s.queue[..n]) <==> |s.status| <= w < |s.status| + n
  {
    RangeIds(s.queue, |s.status|, n);
  }

  lemma GroupSynced(s: State)
    requires InQueueOrder(s) && PhaseOk(s) && s.phase.Writing? && s.phase.logged
    ensures s.phase.n <= |s.queue| && var ids := s.queue[..s.phase.n];
            forall i :: 0 <= i < |ids| && s.writers[ids[i]].batch.Some? && s.writers[ids[i]].sync ==> ids[i] in s.synced
  {
  }

  /** What the slots, the statuses and the memtable say once a group is done. */
  lemma GroupDone(s: State, n: nat, ok: bool, ids: seq<nat>, ops: seq<Operation>)
    requires Inv(s) && n <= |s.queue| && ids == s.queue[..n] && (forall i :: 0 <= i < |ids| ==> ids[i] < |s.writers|)
    requires ops == GroupOps(s.writers, ids)
    requires MemOk(s.mem, s.slots + Flagged(ops, ok), [], 0)
    requires Acknowledged(s.writers, WithStatus(s.status, Ids(ids), ok), s.slots + Flagged(ops, ok), s.synced)
    ensures Inv(Completed(s, n, ok).(lastSequence := s.lastSequence + |ops|, slots := s.slots + Flagged(ops, ok)))
  {
    hide SlotsOk;
    hide Acknowledged;
    hide MemOk;
    hide WithStatus;
    hide Ids;
    hide GroupOps;
    hide FirstOnes;
    hide QueueOk;
    CompletedQueue(s, n, ok);
    GroupRuns(s, n);
    GroupInOrder(s.writers, ids, |s.status|);
    SlotsGrow(s.writers, s.status, s.slots, Ids(ids), ops, n, ok);
    hide PhaseOk;
    IdlePhase(Completed(s, n, ok).(lastSequence := s.lastSequence + |ops|, slots := s.slots + Flagged(ops, ok)));
  }

  lemma IdlePhase(s: State)
    requires InQueueOrder(s) && s.phase == Idle
    ensures PhaseOk(s) && Writes(s) == [] && Inserted(s.phase) == 0
  {
  }

  lemma FinishKeeps(s: State, s': State)
    requires Inv(s) && Finish(s, s')
    ensures Inv(s')
  {
    var n, ids := s.phase.n, s.queue[..s.phase.n];
    hide SlotsOk;
    hide MemOk;
    hide GroupOps;
    hide Acknowledged;
    hide QueueOk;
    hide PhaseOk;
    hide WithStatus;
    hide Ids;
    hide FirstOnes;
    hide Runs;
    hide Flagged;
    FinishAcknowledges(s, ids);
    FinishPublishes(s);
    hide Writes;
    hide Known;
    GroupDone(s, n, true, ids, Pending(s));
  }

  lemma FinishPublishes(s: State)
    requires Inv(s) && Known(s) && s.phase.Writing? && s.phase.n <= |s.queue| && s.phase.inserted == |Pending(s)|
    ensures MemOk(s.mem, s.slots + Flagged(Pending(s), true), [], 0)
  {
    hide MemOk;
    hide Pending;
    Publish(s.mem, s.slots, Pending(s));
  }

  lemma FinishAcknowledges(s: State, ids: seq<nat>)
    requires Inv(s) && Known(s) && s.phase.Writing? && s.phase.logged && s.phase.n <= |s.queue|
             && ids == s.queue[..s.phase.n]
    ensures Acknowledged(s.writers, WithStatus(s.status, Ids(ids), true), s.slots + Flagged(Pending(s), true), s.synced)
  {
    hide SlotsOk;
    hide MemOk;
    hide Acknowledged;
    hide PhaseOk;
    GroupSynced(s);
    GroupRuns(s, s.phase.n);
    AcknowledgeGroup(s.writers, s.status, s.slots, s.synced, ids);
  }

  lemma LogFailsKeeps(s: State, syncError: bool, s': State)
    requires Inv(s) && LogFails(s, syncError, s')
    ensures Inv(s')
  {
    var n, ids := s.phase.n, s.queue[..s.phase.n];
    hide SlotsOk;
    hide MemOk;
    hide GroupOps;
    hide Acknowledged;
    hide QueueOk;
    hide WithStatus;
    hide Ids;
    hide PhaseOk;
    hide FirstOnes;
    hide Runs;
    FailureSkips(s, ids);
    hide Writes;
    hide Known;
    GroupDone(s, n, false, ids, Pending(s));
  }

  lemma FailureSkips(s: State, ids: seq<nat>)
    requires Inv(s) && Known(s) && s.phase.Writing? && !s.phase.logged && s.phase.n <= |s.queue|
             && ids == s.queue[..s.phase.n]
    ensures MemOk(s.mem, s.slots + Flagged(Pending(s), false), [], 0)
    ensures Acknowledged(s.writers, WithStatus(s.status, Ids(ids), false), s.slots + Flagged(Pending(s), false),
                         s.synced)
  {
    hide SlotsOk;
    hide MemOk;
    hide Acknowledged;
    hide Pending;
    GroupRuns(s, s.phase.n);
    AcknowledgeNobody(s.writers, s.status, s.slots, s.synced, ids, Flagged(Pending(s), false));
    Skip(s.mem, s.slots, Pending(s));
  }

  lemma AloneAcknowledged(s: State, ok: bool)
    requires QueueOk(s.writers, s.queue, s.status) && s.queue != []
             && Acknowledged(s.writers, s.status, s.slots, s.synced)
    requires ok ==> s.writers[s.queue[0]].batch == None
    ensures Acknowledged(s.writers, WithStatus(s.status, Ids(s.queue[..1]), ok), s.slots, s.synced)
  {
    var status' := WithStatus(s.status, Ids(s.queue[..1]), ok);
    forall w | w < |s.writers| && w in status' && status'[w] ensures Safe(s.writers, s.slots, s.synced, w) {
      WhoIsDone(s.status, s.queue[..1], ok, w);
      if w >= |s.status| { assert LiesAt(s.slots, w, Length(s.writers[w]), 0); }
    }
  }

  lemma AloneSlots(s: State, ok: bool)
    requires QueueOk(s.writers, s.queue, s.status) && s.queue != [] && SlotsOk(s.writers, s.status, s.slots)
    ensures SlotsOk(s.writers, WithStatus(s.status, Ids(s.queue[..1]), ok), s.slots)
  {
    forall w | w in s.status ensures w !in Ids(s.queue[..1]) {}
  }

  lemma AloneKeeps(s: State, ok: bool, s': State)
    requires Inv(s) && Alone(s, ok, s')
    ensures Inv(s')
  {
    CompletedQueue(s, 1, ok);
    AloneSlots(s, ok);
    AloneAcknowledged(s, ok);
    hide SlotsOk;
    hide MemOk;
    hide Acknowledged;
    hide QueueOk;
    hide WithStatus;
    hide Ids;
    IdlePhase(s');
  }

  lemma StepKeeps(s: State, e: Event, s': State)
    requires Inv(s) && Step(s, e, s')
    ensures Inv(s')
  {
    hide Inv;
    match e
    case Arrives(w) => ArriveKeeps(s, w, s');
    case Leads => LeadKeeps(s, s');
    case CompletesAlone(ok) => AloneKeeps(s, ok, s');
    case Builds(n) => StartKeeps(s, n, s');
    case Logs => LogKeeps(s, s');
    case FailsToLog(syncError) => LogFailsKeeps(s, syncError, s');
    case Inserts => InsertKeeps(s, s');
    case Finishes => FinishKeeps(s, s');
  }

  ghost predicate Run(states: seq<State>, events: seq<Event>) {
    && |states| == |events| + 1 && Init(states[0])
    && forall i :: 0 <= i < |events| ==> Step(states[i], events[i], states[i + 1])
  }

  lemma {:induction false} RunKeeps(states: seq<State>, events: seq<Event>, n: nat)
    requires Run(states, events) && n < |states|
    ensures Inv(states[n])
  {
    if n == 0 {
      InitInv(states[0]);
    } else {
      RunKeeps(states, events, n - 1);
      StepKeeps(states[n - 1], events[n - 1], states[n]);
    }
  }

  // ---- what writers and readers see ----

  /** The operations of w have the sequence numbers after p, and readers see them. */
  ghost predicate VisibleAt(s: State, w: nat, p: nat)
    requires w < |s.writers|
  {
    && p + Length(s.writers[w]) <= s.lastSequence
    && forall q :: p < q <= p + Length(s.writers[w]) ==> q in s.mem && s.mem[q] == Operation(w, q - p - 1)
  }

  /** A writer is told the truth: if it succeeded, all its operations are in the
      memtable, visible and at consecutive sequence numbers, and synced if it asked for
      it; if it failed, or is not done, none is visible. */
  lemma AllOrNothing(s: State, w: nat)
    requires Inv(s) && w < |s.writers|
    ensures w in s.status && s.status[w] ==>
              && (exists p :: VisibleAt(s, w, p))
              && (s.writers[w].batch.Some? && s.writers[w].sync ==> w in s.synced)
    ensures !(w in s.status && s.status[w]) ==> forall q :: q in s.mem && q <= s.lastSequence ==> s.mem[q].w != w
  {
    if w in s.status && s.status[w] {
      assert Safe(s.writers, s.slots, s.synced, w);
      var p: nat :| LiesAt(s.slots, w, Length(s.writers[w]), p);
      forall q | p < q <= p + Length(s.writers[w]) ensures q in s.mem && s.mem[q] == Operation(w, q - p - 1) {
        assert s.slots[p + (q - p - 1)] == Slot(Operation(w, q - p - 1), true);
      }
      assert VisibleAt(s, w, p);
    }
    forall q | q in s.mem && q <= s.lastSequence ensures s.mem[q].w in s.status && s.status[s.mem[q].w] {
      assert s.slots[q - 1].op == s.mem[q];
    }
  }

  /** Sequence numbers follow the order of arrival, and every operation has at most one. */
  lemma SequencesInOrder(s: State, p: nat, q: nat)
    requires Inv(s) && p in s.mem && q in s.mem && p < q <= s.lastSequence
    ensures Earlier(s.mem[p], s.mem[q])
  {
    assert s.slots[p - 1].op == s.mem[p] && s.slots[q - 1].op == s.mem[q];
  }

  /** The batch that BuildBatchGroup concatenates holds the group's operations in order. */
  lemma {:induction false} GroupContents(writers: seq<Writer>, ids: seq<nat>)
    requires forall i :: 0 <= i < |ids| ==> ids[i] < |writers|
    ensures var ops, batch := GroupOps(writers, ids), BatchOps(Records(writers, ids));
            |batch| == |ops| && forall j :: 0 <= j < |ops| ==>
              ops[j].w < |writers| && ops[j].i < Length(writers[ops[j].w])
                  && batch[j] == writers[ops[j].w].batch.value[ops[j].i]
  {
    if ids != [] {
      var init, w := ids[..|ids| - 1], ids[|ids| - 1];
      GroupContents(writers, init);
      assert Records(writers, ids)[..|ids| - 1] == Records(writers, init);
      var front, back := GroupOps(writers, init), OpsOf(writers, w);
      forall j | |front| <= j < |front| + |back| ensures (front + back)[j] == Operation(w, j - |front|) {}
    }
  }
}
