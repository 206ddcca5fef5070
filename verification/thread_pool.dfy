/** The thread pool as a state machine: every region between taking and releasing a
    lock is one step, and the worker's turns while it holds the global mutex are
    separate steps. */
module ThreadPool {
  import opened InternalKeys
  import opened Lists

  type Request = nat  // one submission; a request object may be submitted again once done

  /** What the queue nodes in wq belong to. */
  datatype Item = Work(r: Request) | Marker  // run_slow_work_message

  /** w->work: the caller's function, NULL, or uv__cancelled. */
  datatype WorkField = Function | Null | Cancelled

  datatype Thread =
    | AtTop                           // holds the mutex, at the top of the worker loop
    | Asleep                          // inside uv_cond_wait, not woken
    | Woken                           // woken, still to take the mutex again
    | Running(r: Request, slow: bool) // outside all locks, in w->work(w)
    | Returning(slow: bool)           // has handed its request over, about to take the mutex

  /** One event loop: its wq, the list uv__work_done is draining, and the request its
      thread has unlinked in uv__work_cancel but not yet linked again. */
  datatype Loop = Loop(queue: seq<Request>, draining: seq<Request>, cancelling: Option<Request>)

  datatype Place =
    | Queued | Pending | On(t: nat) | ToReport(l: nat) | Draining(l: nat) | Unlinked(l: nat) | Reported

  /** The globals of threadpool.c and the loops.  `place`, `ran`, `cancels` and `done`
      only record what has happened. */
  datatype Pool = Pool(wq: seq<Item>, slowPending: seq<Request>, idle: nat, slowRunning: nat,
                       threads: seq<Thread>, holder: Option<nat>, loops: seq<Loop>,
                       work: map<Request, WorkField>, loopOf: map<Request, nat>,
                       place: map<Request, Place>, ran: set<Request>, cancels: set<Request>,
                       done: seq<(Request, bool)>)  // the flag: reported as UV_ECANCELED

  function Threshold(s: Pool): nat { (|s.threads| + 1) / 2 }

  // ---- steps ----

  /** uv_cond_signal: wakes one sleeper, if there is any. */
  ghost predicate Signal(ts: seq<Thread>, ts': seq<Thread>) {
    if Asleep in ts then exists t :: 0 <= t < |ts| && ts[t] == Asleep && ts' == ts[t := Woken] else ts' == ts
  }

  ghost predicate SignalIfIdle(idle: nat, ts: seq<Thread>, ts': seq<Thread>) {
    if idle > 0 then Signal(ts, ts') else ts' == ts
  }

  /** The worker keeps waiting: no work, or only slow work at the limit. */
  predicate NothingToRun(s: Pool) {
    s.wq == [] || (s.wq == [Marker] && s.slowRunning >= Threshold(s))
  }

  /** Take the mutex, after waiting or after running a request. */
  ghost predicate Acquire(s: Pool, t: nat, s': Pool) {
    && t < |s.threads| && s.holder == None && (s.threads[t] == Woken || s.threads[t].Returning?)
    && (s.threads[t] == Woken ==> s.idle > 0) && (s.threads[t] == Returning(true) ==> s.slowRunning > 0)
    && s' == s.(threads := s.threads[t := AtTop], holder := Some(t),
                idle := if s.threads[t] == Woken then s.idle - 1 else s.idle,
                slowRunning := if s.threads[t] == Returning(true) then s.slowRunning - 1 else s.slowRunning)
  }

  ghost predicate Wait(s: Pool, t: nat, s': Pool) {
    && t < |s.threads| && s.holder == Some(t) && NothingToRun(s)
    && s' == s.(threads := s.threads[t := Asleep], holder := None, idle := s.idle + 1)
  }

  ghost predicate TakeWork(s: Pool, t: nat, s': Pool) {
    && t < |s.threads| && s.holder == Some(t) && !NothingToRun(s) && s.wq[0].Work?
    && var r := s.wq[0].r;
      s' == s.(wq := s.wq[1..], threads := s.threads[t := Running(r, false)], holder := None,
               place := s.place[r := On(t)], ran := s.ran + {r})
  }

  /** At the limit for slow work: put the marker behind all other work. */
  ghost predicate Postpone(s: Pool, t: nat, s': Pool) {
    && s.holder == Some(t) && !NothingToRun(s) && s.wq[0] == Marker && s.slowRunning >= Threshold(s)
    && s' == s.(wq := s.wq[1..] + [Marker])
  }

  /** The slow work was cancelled: drop the marker. */
  ghost predicate DropMarker(s: Pool, t: nat, s': Pool) {
    && s.holder == Some(t) && !NothingToRun(s) && s.wq[0] == Marker && s.slowRunning < Threshold(s)
    && s.slowPending == [] && s' == s.(wq := s.wq[1..])
  }

  ghost predicate TakeSlow(s: Pool, t: nat, s': Pool) {
    && t < |s.threads| && s.holder == Some(t) && !NothingToRun(s) && s.wq[0] == Marker && s.slowRunning < Threshold(s)
    && s.slowPending != []
    && (var r := s.slowPending[0];
        var ts := s.threads[t := Running(r, true)];
        && s' == s.(wq := if |s.slowPending| > 1 then s.wq[1..] + [Marker]
                    else s.wq[1..], slowPending := s.slowPending[1..],
                    threads := s'.threads, holder := None, slowRunning := s.slowRunning + 1,
                    place := s.place[r := On(t)], ran := s.ran + {r})
        && if |s.slowPending| > 1 then SignalIfIdle(s.idle, ts, s'.threads) else s'.threads == ts)
  }

  /** A sleeper may also wake up without a signal. */
  ghost predicate Wake(s: Pool, t: nat, s': Pool) {
    t < |s.threads| && s.threads[t] == Asleep && s' == s.(threads := s.threads[t := Woken])
  }

  /** The request has run: hand it to its loop, under the loop's lock. */
  ghost predicate HandOver(s: Pool, t: nat, s': Pool) {
    && t < |s.threads| && s.threads[t].Running?
    && var r := s.threads[t].r;
      && r in s.loopOf && s.loopOf[r] < |s.loops|
      && var l := s.loopOf[r];
        s' == s.(threads := s.threads[t := Returning(s.threads[t].slow)], work := s.work[r := Null],
                 loops := s.loops[l := s.loops[l].(queue := s.loops[l].queue + [r])],
                 place := s.place[r := ToReport(l)])
  }

  /** uv__work_submit and post. */
  ghost predicate Submit(s: Pool, r: Request, l: nat, slow: bool, s': Pool) {
    && s.holder == None && r !in s.place && l < |s.loops|
    && s' == s.(wq := s'.wq, slowPending := s'.slowPending, threads := s'.threads,
                work := s.work[r := Function], loopOf := s.loopOf[r := l],
                place := s.place[r := if slow then Pending else Queued])
    && s'.slowPending == (if slow then s.slowPending + [r] else s.slowPending)
    && if slow && Marker in s.wq then s'.wq == s.wq && s'.threads == s.threads
       else s'.wq == s.wq + [if slow then Marker else Work(r)] && SignalIfIdle(s.idle, s.threads, s'.threads)
  }

  /** !QUEUE_EMPTY(&w->wq): the request's node is on some queue. */
  predicate Linked(s: Pool, r: Request, l: nat)
    requires l < |s.loops|
  {
    Work(r) in s.wq || r in s.slowPending || r in s.loops[l].queue || r in s.loops[l].draining
  }

  /** uv__work_cancel, first part, under both locks.  Only the loop's own thread
      cancels, and only before the done callback has run. */
  ghost predicate CancelUnlink(s: Pool, r: Request, cancelled: bool, s': Pool) {
    && s.holder == None && r in s.loopOf && r in s.place && s.place[r] != Reported && r in s.work
    && s.loopOf[r] < |s.loops| && s.loops[s.loopOf[r]].cancelling == None
    && var l := s.loopOf[r];
      && cancelled == (Linked(s, r, l) && s.work[r] != Null)
      && s' == if !cancelled then s
               else s.(wq := Without(s.wq, Work(r)), slowPending := Without(s.slowPending, r),
                       loops := s.loops[l := Loop(Without(s.loops[l].queue, r), Without(s.loops[l].draining, r),
                                                  Some(r))],
                       place := s.place[r := Unlinked(l)])
  }

  /** uv__work_cancel, second part, under the loop's lock; it then returns 0. */
  ghost predicate CancelReport(s: Pool, l: nat, s': Pool) {
    && l < |s.loops| && s.loops[l].cancelling.Some?
    && var r := s.loops[l].cancelling.value;
      s' == s.(work := s.work[r := Cancelled], cancels := s.cancels + {r}, place := s.place[r := ToReport(l)],
               loops := s.loops[l := s.loops[l].(queue := s.loops[l].queue + [r], cancelling := None)])
  }

  /** uv__work_done: take the loop's whole queue. */
  ghost predicate Drain(s: Pool, l: nat, s': Pool) {
    && l < |s.loops| && s.loops[l].draining == [] && s.loops[l].cancelling == None
    && s' == s.(loops := s.loops[l := Loop([], s.loops[l].queue, None)],
                place := map r | r in s.place :: if s.place[r] == ToReport(l) then Draining(l) else s.place[r])
  }

  /** uv__work_done: run one done callback.  What the callback itself does are
      further steps of this loop's thread. */
  ghost predicate Report(s: Pool, l: nat, s': Pool) {
    && l < |s.loops| && s.loops[l].draining != [] && s.loops[l].cancelling == None
    && var r := s.loops[l].draining[0];
      && r in s.work
      && s' == s.(loops := s.loops[l := s.loops[l].(draining := s.loops[l].draining[1..])],
                  done := s.done + [(r, s.work[r] == Cancelled)], place := s.place[r := Reported])
  }

  datatype Event =
    | Locks(t: nat) | Sleeps(t: nat) | TakesWork(t: nat) | Postpones(t: nat) | DropsMarker(t: nat) | TakesSlow(t: nat)
    | Wakes(t: nat) | HandsOver(t: nat) | Submits(r: Request, l: nat, slow: bool)
    | Cancels(r: Request, cancelled: bool) | ReportsCancel(l: nat) | Drains(l: nat) | Reports(l: nat)

  ghost predicate Step(s: Pool, e: Event, s': Pool) {
    match e
    case Locks(t) => Acquire(s, t, s')
    case Sleeps(t) => Wait(s, t, s')
    case TakesWork(t) => TakeWork(s, t, s')
    case Postpones(t) => Postpone(s, t, s')
    case DropsMarker(t) => DropMarker(s, t, s')
    case TakesSlow(t) => TakeSlow(s, t, s')
    case Wakes(t) => Wake(s, t, s')
    case HandsOver(t) => HandOver(s, t, s')
    case Submits(r, l, slow) => Submit(s, r, l, slow, s')
    case Cancels(r, cancelled) => CancelUnlink(s, r, cancelled, s')
    case ReportsCancel(l) => CancelReport(s, l, s')
    case Drains(l) => Drain(s, l, s')
    case Reports(l) => Report(s, l, s')
  }

  /** init_threads: every worker is on its way to the mutex. */
  ghost predicate Init(s: Pool) {
    && |s.threads| > 0 && (forall t :: 0 <= t < |s.threads| ==> s.threads[t] == Returning(false))
    && (forall l :: 0 <= l < |s.loops| ==> s.loops[l] == Loop([], [], None))
    && s == Pool([], [], 0, 0, s.threads, None, s.loops, map[], map[], map[], {}, {}, [])
  }

  // ---- invariants ----

  /** The shared queues, the threads, the loops and the reports hold a request exactly
      where `place` says. */
  ghost predicate QueuesAgree(wq: seq<Item>, slowPending: seq<Request>, place: map<Request, Place>) {
    && Once(wq) && Once(slowPending)
    && (forall r :: Work(r) in wq <==> r in place && place[r] == Queued)
    && (forall r :: r in slowPending <==> r in place && place[r] == Pending)
  }

  ghost predicate ThreadsAgree(ts: seq<Thread>, place: map<Request, Place>) {
    && (forall t :: 0 <= t < |ts| && ts[t].Running? ==> ts[t].r in place && place[ts[t].r] == On(t))
    && (forall r :: r in place && place[r].On? ==>
          place[r].t < |ts| && ts[place[r].t].Running? && ts[place[r].t].r == r)
  }

  ghost predicate LoopAgrees(loop: Loop, l: nat, place: map<Request, Place>) {
    && Once(loop.queue) && Once(loop.draining)
    && (forall r :: r in loop.queue <==> r in place && place[r] == ToReport(l))
    && (forall r :: r in loop.draining <==> r in place && place[r] == Draining(l))
    && (forall r :: loop.cancelling == Some(r) <==> r in place && place[r] == Unlinked(l))
  }

  ghost predicate LoopsAgree(loops: seq<Loop>, place: map<Request, Place>) {
    forall l :: 0 <= l < |loops| ==> LoopAgrees(loops[l], l, place)
  }

  ghost predicate DoneAgrees(done: seq<(Request, bool)>, place: map<Request, Place>) {
    && (forall i, j :: 0 <= i < j < |done| ==> done[i].0 != done[j].0)
    && (forall i :: 0 <= i < |done| ==> done[i].0 in place && place[done[i].0] == Reported)
    && (forall r :: r in place && place[r] == Reported ==> exists i :: 0 <= i < |done| && done[i].0 == r)
  }

  /** w->work and w->loop in each place, and what has run or been cancelled. */
  ghost predicate RequestOk(p: Place, w: WorkField, l: nat, ran: bool, cancelled: bool) {
    && (w == Cancelled <==> cancelled) && (ran <==> p.On? || w == Null)
    && match p
       case Queued => w == Function
       case Pending => w == Function
       case On(_) => w == Function
       case ToReport(m) => m == l && w != Function
       case Draining(m) => m == l && w != Function
       case Unlinked(m) => m == l && w != Null
       case Reported => w != Function
  }

  ghost predicate RequestsOk(s: Pool) {
    && s.work.Keys == s.place.Keys == s.loopOf.Keys && s.ran <= s.place.Keys && s.cancels <= s.place.Keys
    && (forall r :: r in s.place ==>
          s.loopOf[r] < |s.loops| && RequestOk(s.place[r], s.work[r], s.loopOf[r], r in s.ran, r in s.cancels))
    && (forall i :: 0 <= i < |s.done| ==> s.done[i].0 in s.place && (s.done[i].1 <==> s.work[s.done[i].0] == Cancelled))
  }

  ghost predicate Placed(s: Pool) {
    && QueuesAgree(s.wq, s.slowPending, s.place) && ThreadsAgree(s.threads, s.place)
    && LoopsAgree(s.loops, s.place) && DoneAgrees(s.done, s.place) && RequestsOk(s)
  }

  // ---- moving one request ----

  predicate OnLoop(p: Place) { p.ToReport? || p.Draining? || p.Unlinked? }

  predicate OnQueue(p: Place) { p.Queued? || p.Pending? }

  lemma QueuesSame(wq: seq<Item>, slowPending: seq<Request>, place: map<Request, Place>, r: Request, p: Place)
    requires QueuesAgree(wq, slowPending, place) && (r in place ==> !OnQueue(place[r])) && !OnQueue(p)
    ensures QueuesAgree(wq, slowPending, place[r := p])
  {
  }

  lemma ThreadsSame(ts: seq<Thread>, place: map<Request, Place>, r: Request, p: Place)
    requires ThreadsAgree(ts, place) && (r in place ==> !place[r].On?) && !p.On?
    ensures ThreadsAgree(ts, place[r := p])
  {
  }

  /** Threads that run nothing may change state freely. */
  lemma ThreadsWake(ts: seq<Thread>, ts': seq<Thread>, place: map<Request, Place>)
    requires ThreadsAgree(ts, place) && |ts'| == |ts|
    requires forall t :: 0 <= t < |ts| ==> ts'[t] == ts[t] || (!ts[t].Running? && !ts'[t].Running?)
    ensures ThreadsAgree(ts', place)
  {
  }

  lemma ThreadStarts(ts: seq<Thread>, place: map<Request, Place>, t: nat, r: Request, slow: bool)
    requires ThreadsAgree(ts, place) && t < |ts| && !ts[t].Running? && r in place && !place[r].On?
    ensures ThreadsAgree(ts[t := Running(r, slow)], place[r := On(t)])
  {
  }

  lemma LoopsSame(loops: seq<Loop>, place: map<Request, Place>, r: Request, p: Place)
    requires LoopsAgree(loops, place) && (r in place ==> !OnLoop(place[r])) && !OnLoop(p)
    ensures LoopsAgree(loops, place[r := p])
  {
    forall l | 0 <= l < |loops| ensures LoopAgrees(loops[l], l, place[r := p]) {
      assert LoopAgrees(loops[l], l, place);
    }
  }

  /** Only loop l is concerned. */
  lemma LoopChanges(loops: seq<Loop>, place: map<Request, Place>, l: nat, loop: Loop, place': map<Request, Place>)
    requires LoopsAgree(loops, place) && l < |loops| && LoopAgrees(loop, l, place') && place'.Keys == place.Keys
    requires forall r :: r in place && place'[r] != place[r] ==>
               place[r] in {ToReport(l), Draining(l), Unlinked(l)} || !OnLoop(place[r])
    requires forall r :: r in place && place'[r] != place[r] ==>
               place'[r] in {ToReport(l), Draining(l), Unlinked(l)} || !OnLoop(place'[r])
    ensures LoopsAgree(loops[l := loop], place')
  {
    forall m | 0 <= m < |loops| && m != l ensures LoopAgrees(loops[m], m, place') {
      assert LoopAgrees(loops[m], m, place);
    }
  }

  lemma DoneSame(done: seq<(Request, bool)>, place: map<Request, Place>, r: Request, p: Place)
    requires DoneAgrees(done, place) && (r in place ==> place[r] != Reported) && p != Reported
    ensures DoneAgrees(done, place[r := p])
  {
  }

  /** w->work and w->loop of one request may change with its place. */
  lemma RequestMoves(s: Pool, r: Request, p: Place, s': Pool)
    requires RequestsOk(s) && r in s.place && DoneAgrees(s.done, s.place) && s.place[r] != Reported
    requires s'.place == s.place[r := p] && r in s'.work && s'.work == s.work[r := s'.work[r]]
    requires s'.loopOf == s.loopOf && |s'.loops| == |s.loops| && s'.done == s.done
    requires s'.ran - {r} == s.ran - {r} && s'.cancels - {r} == s.cancels - {r}
    requires RequestOk(p, s'.work[r], s.loopOf[r], r in s'.ran, r in s'.cancels)
    ensures RequestsOk(s')
  {
    hide RequestOk;
    hide DoneAgrees;
    forall q | q in s.place && q != r ensures (q in s'.ran <==> q in s.ran) && (q in s'.cancels <==> q in s.cancels) {
      assert q in s'.ran <==> q in s'.ran - {r};
      assert q in s.ran <==> q in s.ran - {r};
      assert q in s'.cancels <==> q in s'.cancels - {r};
      assert q in s.cancels <==> q in s.cancels - {r};
    }
    forall q | q in s'.ran ensures q in s'.place.Keys { assert q != r ==> q in s.ran - {r}; }
    forall q | q in s'.cancels ensures q in s'.place.Keys { assert q != r ==> q in s.cancels - {r}; }
    forall i | 0 <= i < |s.done| ensures s.done[i].0 != r { DoneIsReported(s.done, s.place, i); }
  }

  lemma DoneIsReported(done: seq<(Request, bool)>, place: map<Request, Place>, i: nat)
    requires DoneAgrees(done, place) && i < |done|
    ensures done[i].0 in place && place[done[i].0] == Reported
  {
  }

  ghost predicate OnlySleepersMove(ts: seq<Thread>, ts': seq<Thread>) {
    |ts'| == |ts| && forall t :: 0 <= t < |ts| ==> ts'[t] == ts[t] || (ts[t] == Asleep && ts'[t] == Woken)
  }

  lemma SignalMovesSleepers(idle: nat, ts: seq<Thread>, ts': seq<Thread>)
    requires SignalIfIdle(idle, ts, ts')
    ensures OnlySleepersMove(ts, ts')
  {
  }

  /** The request starts on thread t. */
  lemma Starts(s: Pool, t: nat, r: Request, slow: bool, s': Pool)
    requires Placed(s) && t < |s.threads| && !s.threads[t].Running? && r in s.place && OnQueue(s.place[r])
    requires QueuesAgree(s'.wq, s'.slowPending, s.place[r := On(t)])
    requires OnlySleepersMove(s.threads[t := Running(r, slow)], s'.threads)
    requires s'.loops == s.loops && s'.done == s.done
    requires s'.work == s.work && s'.loopOf == s.loopOf && s'.cancels == s.cancels
    requires s'.place == s.place[r := On(t)] && s'.ran == s.ran + {r}
    ensures Placed(s')
  {
    hide QueuesAgree;
    hide ThreadsAgree;
    hide LoopsAgree;
    hide DoneAgrees;
    hide RequestsOk;
    RequestFacts(s, r);
    ThreadStarts(s.threads, s.place, t, r, slow);
    ThreadsWake(s.threads[t := Running(r, slow)], s'.threads, s'.place);
    LoopsSame(s.loops, s.place, r, On(t));
    DoneSame(s.done, s.place, r, On(t));
    RequestMoves(s, r, On(t), s');
  }

  lemma ThreadStops(ts: seq<Thread>, place: map<Request, Place>, t: nat, thread: Thread, p: Place)
    requires ThreadsAgree(ts, place) && t < |ts| && ts[t].Running? && !thread.Running? && !p.On?
    ensures ThreadsAgree(ts[t := thread], place[ts[t].r := p])
  {
  }

  /** The request joins its loop's queue. */
  lemma JoinsLoop(loops: seq<Loop>, place: map<Request, Place>, l: nat, r: Request, loop: Loop)
    requires LoopsAgree(loops, place) && l < |loops| && r in place && (place[r] == Unlinked(l) || !OnLoop(place[r]))
    requires loop == loops[l].(queue := loops[l].queue + [r], cancelling := loop.cancelling)
    requires loop.cancelling == if place[r] == Unlinked(l) then None else loops[l].cancelling
    ensures LoopsAgree(loops[l := loop], place[r := ToReport(l)])
  {
    assert LoopAgrees(loops[l], l, place);
    AppendOnce(loops[l].queue, r);
    LoopChanges(loops, place, l, loop, place[r := ToReport(l)]);
  }

  /** The request leaves whatever queue it was on. */
  lemma LeavesQueues(wq: seq<Item>, slowPending: seq<Request>, place: map<Request, Place>, r: Request, p: Place)
    requires QueuesAgree(wq, slowPending, place) && r in place && !OnQueue(p)
    ensures QueuesAgree(Without(wq, Work(r)), Without(slowPending, r), place[r := p])
  {
    WithoutOnce(wq, Work(r));
    WithoutOnce(slowPending, r);
  }

  lemma LeavesLoop(loops: seq<Loop>, place: map<Request, Place>, l: nat, r: Request)
    requires LoopsAgree(loops, place) && l < |loops| && r in place && loops[l].cancelling == None
    requires OnLoop(place[r]) ==> place[r] == ToReport(l) || place[r] == Draining(l)
    ensures LoopsAgree(loops[l := Loop(Without(loops[l].queue, r), Without(loops[l].draining, r), Some(r))],
                       place[r := Unlinked(l)])
  {
    assert LoopAgrees(loops[l], l, place);
    WithoutOnce(loops[l].queue, r);
    WithoutOnce(loops[l].draining, r);
    LoopChanges(loops, place, l, Loop(Without(loops[l].queue, r), Without(loops[l].draining, r), Some(r)),
                place[r := Unlinked(l)]);
  }

  // ---- every step keeps requests in their place ----

  lemma AcquireKeepsPlaced(s: Pool, t: nat, s': Pool)
    requires Placed(s) && Acquire(s, t, s')
    ensures Placed(s')
  {
  }

  lemma WaitKeepsPlaced(s: Pool, t: nat, s': Pool)
    requires Placed(s) && Wait(s, t, s') && s.threads[t] == AtTop
    ensures Placed(s')
  {
  }

  lemma TakeWorkKeepsPlaced(s: Pool, t: nat, s': Pool)
    requires Placed(s) && TakeWork(s, t, s') && s.threads[t] == AtTop
    ensures Placed(s')
  {
    hide QueuesAgree;
    hide ThreadsAgree;
    hide LoopsAgree;
    hide DoneAgrees;
    hide RequestsOk;
    WorkLeaves(s.wq, s.slowPending, s.place, On(t));
    Starts(s, t, s.wq[0].r, false, s');
  }

  lemma WorkLeaves(wq: seq<Item>, slowPending: seq<Request>, place: map<Request, Place>, p: Place)
    requires QueuesAgree(wq, slowPending, place) && wq != [] && wq[0].Work? && !OnQueue(p)
    ensures wq[0].r in place && place[wq[0].r] == Queued
    ensures QueuesAgree(wq[1..], slowPending, place[wq[0].r := p])
  {
    TailOnce(wq);
    assert Work(wq[0].r) in wq;
  }

  lemma TakeSlowKeepsPlaced(s: Pool, t: nat, s': Pool)
    requires Placed(s) && TakeSlow(s, t, s') && s.threads[t] == AtTop
    ensures Placed(s')
  {
    hide QueuesAgree;
    hide ThreadsAgree;
    hide LoopsAgree;
    hide DoneAgrees;
    hide RequestsOk;
    var r := s.slowPending[0];
    SlowLeaves(s.wq, s.slowPending, s.place, On(t));
    if |s.slowPending| > 1 { SignalMovesSleepers(s.idle, s.threads[t := Running(r, true)], s'.threads); }
    Starts(s, t, r, true, s');
  }

  lemma SlowLeaves(wq: seq<Item>, slowPending: seq<Request>, place: map<Request, Place>, p: Place)
    requires QueuesAgree(wq, slowPending, place) && wq != [] && wq[0] == Marker && slowPending != [] && !OnQueue(p)
    ensures QueuesAgree(wq[1..] + [Marker], slowPending[1..], place[slowPending[0] := p])
    ensures QueuesAgree(wq[1..], slowPending[1..], place[slowPending[0] := p])
    ensures slowPending[0] in place && place[slowPending[0]] == Pending
  {
    TailOnce(wq);
    TailOnce(slowPending);
    AppendOnce(wq[1..], Marker);
    assert slowPending[0] in slowPending;
  }

  lemma TurnMarkerKeepsPlaced(s: Pool, t: nat, s': Pool)
    requires Placed(s) && (Postpone(s, t, s') || DropMarker(s, t, s'))
    ensures Placed(s')
  {
    TailOnce(s.wq);
    AppendOnce(s.wq[1..], Marker);
  }

  lemma WakeKeepsPlaced(s: Pool, t: nat, s': Pool)
    requires Placed(s) && Wake(s, t, s')
    ensures Placed(s')
  {
  }

  lemma HandOverKeepsPlaced(s: Pool, t: nat, s': Pool)
    requires Placed(s) && HandOver(s, t, s')
    ensures Placed(s')
  {
    var r := s.threads[t].r;
    var l := s.loopOf[r];
    assert r in s.place && s.place[r] == On(t);
    assert RequestOk(s'.place[r], s'.work[r], l, r in s'.ran, r in s'.cancels);
    QueuesSame(s.wq, s.slowPending, s.place, r, ToReport(l));
    ThreadStops(s.threads, s.place, t, Returning(s.threads[t].slow), ToReport(l));
    JoinsLoop(s.loops, s.place, l, r, s'.loops[l]);
    DoneSame(s.done, s.place, r, ToReport(l));
    hide QueuesAgree;
    hide ThreadsAgree;
    hide LoopsAgree;
    hide RequestOk;
    RequestMoves(s, r, ToReport(l), s');
  }

  lemma SubmitKeepsPlaced(s: Pool, r: Request, l: nat, slow: bool, s': Pool)
    requires Placed(s) && Submit(s, r, l, slow, s')
    ensures Placed(s')
  {
    var p := if slow then Pending else Queued;
    SubmitQueues(s.wq, s.slowPending, s.place, r);
    ThreadsSame(s.threads, s.place, r, p);
    if !(slow && Marker in s.wq) {
      SignalMovesSleepers(s.idle, s.threads, s'.threads);
      ThreadsWake(s.threads, s'.threads, s'.place);
    }
    LoopsSame(s.loops, s.place, r, p);
    DoneSame(s.done, s.place, r, p);
    hide QueuesAgree;
    hide ThreadsAgree;
    hide LoopsAgree;
    RequestArrives(s, r, l, p, s');
  }

  lemma RequestArrives(s: Pool, r: Request, l: nat, p: Place, s': Pool)
    requires RequestsOk(s) && DoneAgrees(s.done, s.place) && r !in s.place && l < |s.loops| && OnQueue(p)
    requires s'.work == s.work[r := Function] && s'.loopOf == s.loopOf[r := l] && s'.place == s.place[r := p]
    requires s'.loops == s.loops && s'.done == s.done && s'.ran == s.ran && s'.cancels == s.cancels
    ensures RequestsOk(s')
  {
    assert r !in s.ran && r !in s.cancels;
    assert RequestOk(p, Function, l, false, false);
    hide RequestOk;
    forall i | 0 <= i < |s.done| ensures s.done[i].0 != r { DoneIsReported(s.done, s.place, i); }
  }

  lemma SubmitQueues(wq: seq<Item>, slowPending: seq<Request>, place: map<Request, Place>, r: Request)
    requires QueuesAgree(wq, slowPending, place) && r !in place
    ensures QueuesAgree(wq + [Work(r)], slowPending, place[r := Queued])
    ensures QueuesAgree(wq, slowPending + [r], place[r := Pending])
    ensures Marker !in wq ==> QueuesAgree(wq + [Marker], slowPending + [r], place[r := Pending])
  {
    AppendOnce(wq, Work(r));
    AppendOnce(slowPending, r);
    if Marker !in wq { AppendOnce(wq, Marker); }
  }

  lemma UnlinkKeepsPlaced(s: Pool, r: Request, c: bool, s': Pool)
    requires Placed(s) && CancelUnlink(s, r, c, s')
    ensures Placed(s')
  {
    hide QueuesAgree;
    hide ThreadsAgree;
    hide LoopsAgree;
    hide DoneAgrees;
    hide RequestsOk;
    hide Without;
    if c {
      var l := s.loopOf[r];
      RequestFacts(s, r);
      LinkedPlace(s, r, l);
      LeavesQueues(s.wq, s.slowPending, s.place, r, Unlinked(l));
      ThreadsSame(s.threads, s.place, r, Unlinked(l));
      LeavesLoop(s.loops, s.place, l, r);
      DoneSame(s.done, s.place, r, Unlinked(l));
      RequestMoves(s, r, Unlinked(l), s');
    }
  }

  lemma RequestFacts(s: Pool, r: Request)
    requires RequestsOk(s) && r in s.place
    ensures r in s.work && r in s.loopOf && s.loopOf[r] < |s.loops|
    ensures RequestOk(s.place[r], s.work[r], s.loopOf[r], r in s.ran, r in s.cancels)
  {
    hide RequestOk;
  }

  lemma LinkedPlace(s: Pool, r: Request, l: nat)
    requires QueuesAgree(s.wq, s.slowPending, s.place) && LoopsAgree(s.loops, s.place) && l < |s.loops|
    ensures Linked(s, r, l) <==> r in s.place && s.place[r] in {Queued, Pending, ToReport(l), Draining(l)}
  {
    assert LoopAgrees(s.loops[l], l, s.place);
  }

  lemma CancelReportKeepsPlaced(s: Pool, l: nat, s': Pool)
    requires Placed(s) && CancelReport(s, l, s')
    ensures Placed(s')
  {
    var r := s.loops[l].cancelling.value;
    assert LoopAgrees(s.loops[l], l, s.place);
    assert s.place[r] == Unlinked(l);
    assert RequestOk(s.place[r], s.work[r], s.loopOf[r], r in s.ran, r in s.cancels);
    QueuesSame(s.wq, s.slowPending, s.place, r, ToReport(l));
    ThreadsSame(s.threads, s.place, r, ToReport(l));
    JoinsLoop(s.loops, s.place, l, r, s'.loops[l]);
    DoneSame(s.done, s.place, r, ToReport(l));
    hide QueuesAgree;
    hide ThreadsAgree;
    hide LoopsAgree;
    RequestMoves(s, r, ToReport(l), s');
  }

  lemma DrainKeepsPlaced(s: Pool, l: nat, s': Pool)
    requires Placed(s) && Drain(s, l, s')
    ensures Placed(s')
  {
    DrainedQueues(s.wq, s.slowPending, s.place, l, s'.place);
    DrainedThreads(s.threads, s.place, l, s'.place);
    DrainedLoops(s.loops, s.place, l, s'.loops, s'.place);
    DrainedDone(s.done, s.place, l, s'.place);
    hide QueuesAgree;
    hide ThreadsAgree;
    hide LoopsAgree;
    hide DoneAgrees;
    assert RequestsOk(s');
  }

  /** What waited to be reported on loop l is being drained. */
  ghost predicate DrainedPlaces(place: map<Request, Place>, l: nat, place': map<Request, Place>) {
    place'.Keys == place.Keys && forall r :: r in place ==>
          place'[r] == if place[r] == ToReport(l) then Draining(l) else place[r]
  }

  lemma DrainedQueues(wq: seq<Item>, slowPending: seq<Request>, place: map<Request, Place>, l: nat,
                      place': map<Request, Place>)
    requires QueuesAgree(wq, slowPending, place) && DrainedPlaces(place, l, place')
    ensures QueuesAgree(wq, slowPending, place')
  {
  }

  lemma DrainedThreads(ts: seq<Thread>, place: map<Request, Place>, l: nat, place': map<Request, Place>)
    requires ThreadsAgree(ts, place) && DrainedPlaces(place, l, place')
    ensures ThreadsAgree(ts, place')
  {
  }

  lemma DrainedLoops(loops: seq<Loop>, place: map<Request, Place>, l: nat, loops': seq<Loop>, place': map<Request,
                     Place>)
    requires LoopsAgree(loops, place) && DrainedPlaces(place, l, place') && l < |loops|
    requires loops[l].draining == [] && loops[l].cancelling == None
             && loops' == loops[l := Loop([], loops[l].queue, None)]
    ensures LoopsAgree(loops', place')
  {
    forall m | 0 <= m < |loops|
      ensures LoopAgrees(loops'[m], m, place')
    { assert LoopAgrees(loops[m], m, place) && LoopAgrees(loops[l], l, place); }
  }

  lemma DrainedDone(done: seq<(Request, bool)>, place: map<Request, Place>, l: nat, place': map<Request, Place>)
    requires DoneAgrees(done, place) && DrainedPlaces(place, l, place')
    ensures DoneAgrees(done, place')
  {
  }

  lemma ReportKeepsPlaced(s: Pool, l: nat, s': Pool)
    requires Placed(s) && Report(s, l, s')
    ensures Placed(s')
  {
    var r := s.loops[l].draining[0];
    assert LoopAgrees(s.loops[l], l, s.place);
    assert r in s.loops[l].draining;
    assert RequestOk(s.place[r], s.work[r], s.loopOf[r], r in s.ran, r in s.cancels);
    QueuesSame(s.wq, s.slowPending, s.place, r, Reported);
    ThreadsSame(s.threads, s.place, r, Reported);
    LeavesDraining(s.loops, s.place, l);
    DoneGrows(s.done, s.place, r, s.work[r] == Cancelled);
    hide QueuesAgree;
    hide ThreadsAgree;
    hide LoopsAgree;
    hide DoneAgrees;
    assert RequestsOk(s');
  }

  lemma LeavesDraining(loops: seq<Loop>, place: map<Request, Place>, l: nat)
    requires LoopsAgree(loops, place) && l < |loops| && loops[l].draining != []
    ensures LoopsAgree(loops[l := loops[l].(draining := loops[l].draining[1..])],
                       place[loops[l].draining[0] := Reported])
  {
    var r := loops[l].draining[0];
    assert LoopAgrees(loops[l], l, place);
    assert r in loops[l].draining;
    TailOnce(loops[l].draining);
    LoopChanges(loops, place, l, loops[l].(draining := loops[l].draining[1..]), place[r := Reported]);
  }

  lemma DoneGrows(done: seq<(Request, bool)>, place: map<Request, Place>, r: Request, c: bool)
    requires DoneAgrees(done, place) && r in place && place[r] != Reported
    ensures DoneAgrees(done + [(r, c)], place[r := Reported])
  {
    var done', place' := done + [(r, c)], place[r := Reported];
    forall q | q in place' && place'[q] == Reported ensures exists i :: 0 <= i < |done'| && done'[i].0 == q {
      if q == r {
        assert done'[|done|].0 == r;
      } else {
        var i :| 0 <= i < |done| && done[i].0 == q;
        assert done'[i].0 == q;
      }
    }
  }

  // ---- the mutex, the counters and the wake-ups ----

  datatype Kind = Sleeping | Idle | Coming | Slow

  /** Coming threads look at the queue before they sleep again, and leave
      slow_io_work_running as it is when they take the mutex. */
  predicate Is(k: Kind, th: Thread) {
    match k
    case Sleeping => th == Asleep
    case Idle => th == Asleep || th == Woken
    case Coming => th == Woken || th == Returning(false) || th == AtTop
    case Slow => th == Returning(true) || (th.Running? && th.slow)
  }

  ghost function Group(ts: seq<Thread>, k: Kind): set<nat> { set t: nat | t < |ts| && Is(k, ts[t]) }

  ghost function Count(ts: seq<Thread>, k: Kind): nat { |Group(ts, k)| }

  lemma CountChanges(ts: seq<Thread>, t: nat, th: Thread, k: Kind)
    requires t < |ts|
    ensures Count(ts[t := th], k) == Count(ts, k) - (if Is(k, ts[t]) then 1 else 0) + (if Is(k, th) then 1 else 0)
  {
    hide Group;
    OneGroup(ts, t, th, k);
    SizeWithout(Group(ts, k), t);
    SizeWithout(Group(ts[t := th], k), t);
  }

  lemma OneGroup(ts: seq<Thread>, t: nat, th: Thread, k: Kind)
    requires t < |ts|
    ensures Group(ts[t := th], k) - {t} == Group(ts, k) - {t}
    ensures (t in Group(ts, k) <==> Is(k, ts[t])) && (t in Group(ts[t := th], k) <==> Is(k, th))
  {
    hide Is;
    forall u | u != t ensures u in Group(ts[t := th], k) <==> u in Group(ts, k) { OthersStay(ts, t, th, k, u); }
  }

  lemma OthersStay(ts: seq<Thread>, t: nat, th: Thread, k: Kind, u: nat)
    requires t < |ts|
    ensures u != t ==> (u in Group(ts[t := th], k) <==> u in Group(ts, k))
  {
    hide Is;
  }

  lemma SizeWithout(g: set<nat>, t: nat)
    ensures |g - {t}| == |g| - if t in g then 1 else 0
  {
    if t !in g { assert g - {t} == g; }
  }

  /** Items a worker would act on now: all of wq, but not the marker at the limit. */
  function Runnable(wq: seq<Item>, slowRunning: nat, threshold: nat): nat {
    if Marker in wq && slowRunning >= threshold then |wq| - 1 else |wq|
  }

  ghost predicate MutexOk(ts: seq<Thread>, holder: Option<nat>) {
    && (forall t :: 0 <= t < |ts| ==> (ts[t] == AtTop <==> holder == Some(t)))
    && (holder.Some? ==> holder.value < |ts|)
  }

  /** The counters are exact; slow work stays within its limit; pending slow work has
      the marker queued; and while anyone sleeps, at least as many workers are on their
      way to the queue as it has items to run. */
  ghost predicate Counted(s: Pool) {
    && MutexOk(s.threads, s.holder) && |s.threads| > 0
    && s.idle == Count(s.threads, Idle) && s.slowRunning == Count(s.threads, Slow)
    && s.slowRunning <= Threshold(s)
    && (s.slowPending != [] ==> Marker in s.wq)
    && (Asleep in s.threads ==> Count(s.threads, Coming) >= Runnable(s.wq, s.slowRunning, Threshold(s)))
  }

  ghost predicate Invariant(s: Pool) { Placed(s) && Counted(s) }

  /** While someone sleeps, a signal is sent and adds a coming worker. */
  lemma Signalled(ts: seq<Thread>, idle: nat, ts': seq<Thread>)
    requires idle == Count(ts, Idle) && SignalIfIdle(idle, ts, ts')
    ensures Asleep in ts ==> Count(ts', Coming) == Count(ts, Coming) + 1
    ensures Asleep !in ts ==> ts' == ts
    ensures Count(ts', Idle) == Count(ts, Idle) && Count(ts', Slow) == Count(ts, Slow)
    ensures forall holder :: MutexOk(ts, holder) ==> MutexOk(ts', holder)
  {
    if Asleep in ts {
      var u :| 0 <= u < |ts| && ts[u] == Asleep;
      assert u in Group(ts, Idle);
      var t :| 0 <= t < |ts| && ts[t] == Asleep && ts' == ts[t := Woken];
      CountChanges(ts, t, Woken, Coming);
      CountChanges(ts, t, Woken, Idle);
      CountChanges(ts, t, Woken, Slow);
    }
  }

  lemma AcquireKeepsCounted(s: Pool, t: nat, s': Pool)
    requires Counted(s) && Acquire(s, t, s')
    ensures Counted(s')
  {
    forall k
      ensures Count(s'.threads, k) == Count(s.threads, k) - (if Is(k, s.threads[t]) then 1 else 0)
              + (if Is(k, AtTop) then 1 else 0)
    {
      CountChanges(s.threads, t, AtTop, k);
    }
  }

  lemma WaitKeepsCounted(s: Pool, t: nat, s': Pool)
    requires Counted(s) && Wait(s, t, s')
    ensures Counted(s')
  {
    forall k
      ensures Count(s'.threads, k) == Count(s.threads, k) - (if Is(k, AtTop) then 1 else 0)
              + (if Is(k, Asleep) then 1 else 0)
    {
      CountChanges(s.threads, t, Asleep, k);
    }
  }

  lemma TakeWorkKeepsCounted(s: Pool, t: nat, s': Pool)
    requires Counted(s) && Once(s.wq) && TakeWork(s, t, s')
    ensures Counted(s')
  {
    TailOnce(s.wq);
    forall k ensures Count(s'.threads, k) == Count(s.threads, k) - if Is(k, AtTop) then 1 else 0 {
      CountChanges(s.threads, t, Running(s.wq[0].r, false), k);
    }
  }

  lemma TurnMarkerKeepsCounted(s: Pool, t: nat, s': Pool)
    requires Counted(s) && Once(s.wq) && (Postpone(s, t, s') || DropMarker(s, t, s'))
    ensures Counted(s')
  {
    TailOnce(s.wq);
    AppendOnce(s.wq[1..], Marker);
  }

  lemma TakeSlowKeepsCounted(s: Pool, t: nat, s': Pool)
    requires Counted(s) && Once(s.wq) && TakeSlow(s, t, s')
    ensures Counted(s')
  {
    TailOnce(s.wq);
    AppendOnce(s.wq[1..], Marker);
    var r := s.slowPending[0];
    var ts := s.threads[t := Running(r, true)];
    forall k
      ensures Count(ts, k) == Count(s.threads, k) - (if k == Coming then 1 else 0) + (if k == Slow then 1 else 0)
    {
      CountChanges(s.threads, t, Running(r, true), k);
    }
    assert MutexOk(ts, None);
    if |s.slowPending| > 1 { Signalled(ts, s.idle, s'.threads); }
    assert Asleep in s'.threads ==> Asleep in ts;
    assert Asleep in ts ==> Asleep in s.threads;
  }

  lemma WakeKeepsCounted(s: Pool, t: nat, s': Pool)
    requires Counted(s) && Wake(s, t, s')
    ensures Counted(s')
  {
    forall k
      ensures Count(s'.threads, k) == Count(s.threads, k) - (if Is(k, Asleep) then 1 else 0)
              + (if Is(k, Woken) then 1 else 0)
    {
      CountChanges(s.threads, t, Woken, k);
    }
  }

  lemma HandOverKeepsCounted(s: Pool, t: nat, s': Pool)
    requires Counted(s) && HandOver(s, t, s')
    ensures Counted(s')
  {
    var slow := s.threads[t].slow;
    forall k ensures Count(s'.threads, k) == Count(s.threads, k) + if k == Coming && !slow then 1 else 0 {
      CountChanges(s.threads, t, Returning(slow), k);
    }
  }

  lemma SubmitKeepsCounted(s: Pool, r: Request, l: nat, slow: bool, s': Pool)
    requires Counted(s) && Submit(s, r, l, slow, s')
    ensures Counted(s')
  {
    if !(slow && Marker in s.wq) {
      Signalled(s.threads, s.idle, s'.threads);
      assert Asleep in s'.threads ==> Asleep in s.threads;
    }
  }

  lemma UnlinkKeepsCounted(s: Pool, r: Request, c: bool, s': Pool)
    requires Counted(s) && Once(s.wq) && Once(s.slowPending) && CancelUnlink(s, r, c, s')
    ensures Counted(s')
  {
    WithoutOnce(s.wq, Work(r));
    WithoutOnce(s.slowPending, r);
  }

  /** The loops' own steps touch nothing that is counted. */
  lemma LoopStepKeepsCounted(s: Pool, s': Pool)
    requires Counted(s) && s'.threads == s.threads && s'.holder == s.holder && s'.idle == s.idle
    requires s'.slowRunning == s.slowRunning && s'.wq == s.wq && s'.slowPending == s.slowPending
    ensures Counted(s')
  {
  }

  lemma StepKeepsPlaced(s: Pool, e: Event, s': Pool)
    requires Invariant(s) && Step(s, e, s')
    ensures Placed(s')
  {
    match e
    case Locks(t) => AcquireKeepsPlaced(s, t, s');
    case Sleeps(t) => WaitKeepsPlaced(s, t, s');
    case TakesWork(t) => TakeWorkKeepsPlaced(s, t, s');
    case Postpones(t) => TurnMarkerKeepsPlaced(s, t, s');
    case DropsMarker(t) => TurnMarkerKeepsPlaced(s, t, s');
    case TakesSlow(t) => TakeSlowKeepsPlaced(s, t, s');
    case Wakes(t) => WakeKeepsPlaced(s, t, s');
    case HandsOver(t) => HandOverKeepsPlaced(s, t, s');
    case Submits(r, l, slow) => SubmitKeepsPlaced(s, r, l, slow, s');
    case Cancels(r, c) => UnlinkKeepsPlaced(s, r, c, s');
    case ReportsCancel(l) => CancelReportKeepsPlaced(s, l, s');
    case Drains(l) => DrainKeepsPlaced(s, l, s');
    case Reports(l) => ReportKeepsPlaced(s, l, s');
  }

  lemma StepKeepsCounted(s: Pool, e: Event, s': Pool)
    requires Invariant(s) && Step(s, e, s')
    ensures Counted(s')
  {
    match e
    case Locks(t) => AcquireKeepsCounted(s, t, s');
    case Sleeps(t) => WaitKeepsCounted(s, t, s');
    case TakesWork(t) => TakeWorkKeepsCounted(s, t, s');
    case Postpones(t) => TurnMarkerKeepsCounted(s, t, s');
    case DropsMarker(t) => TurnMarkerKeepsCounted(s, t, s');
    case TakesSlow(t) => TakeSlowKeepsCounted(s, t, s');
    case Wakes(t) => WakeKeepsCounted(s, t, s');
    case HandsOver(t) => HandOverKeepsCounted(s, t, s');
    case Submits(r, l, slow) => SubmitKeepsCounted(s, r, l, slow, s');
    case Cancels(r, c) => UnlinkKeepsCounted(s, r, c, s');
    case ReportsCancel(l) => LoopStepKeepsCounted(s, s');
    case Drains(l) => LoopStepKeepsCounted(s, s');
    case Reports(l) => LoopStepKeepsCounted(s, s');
  }

  lemma InitInvariant(s: Pool)
    requires Init(s)
    ensures Invariant(s)
  {
    assert Group(s.threads, Idle) == {} && Group(s.threads, Slow) == {};
  }

  // ---- every run ----

  ghost predicate Path(states: seq<Pool>, events: seq<Event>) {
    |states| == |events| + 1 && forall i :: 0 <= i < |events| ==> Step(states[i], events[i], states[i + 1])
  }

  lemma {:induction false} RunInvariant(states: seq<Pool>, events: seq<Event>, n: nat)
    requires Path(states, events) && Invariant(states[0]) && n < |states|
    ensures Invariant(states[n])
  {
    if n > 0 {
      RunInvariant(states, events, n - 1);
      StepKeepsPlaced(states[n - 1], events[n - 1], states[n]);
      StepKeepsCounted(states[n - 1], events[n - 1], states[n]);
    }
  }

  /** Whether the containers themselves hold the request in place p. */
  ghost predicate Holds(s: Pool, p: Place, r: Request) {
    match p
    case Queued => Work(r) in s.wq
    case Pending => r in s.slowPending
    case On(t) => t < |s.threads| && s.threads[t].Running? && s.threads[t].r == r
    case ToReport(l) => l < |s.loops| && r in s.loops[l].queue
    case Draining(l) => l < |s.loops| && r in s.loops[l].draining
    case Unlinked(l) => l < |s.loops| && s.loops[l].cancelling == Some(r)
    case Reported => exists i :: 0 <= i < |s.done| && s.done[i].0 == r
  }

  /** A submitted request is in exactly one place, and a request that was never
      submitted is nowhere. */
  lemma ExactlyOnePlace(s: Pool, r: Request)
    requires Invariant(s)
    ensures r in s.loopOf ==> exists p :: Holds(s, p, r)
    ensures forall p, q :: Holds(s, p, r) && Holds(s, q, r) ==> p == q && r in s.loopOf
  {
    forall p ensures Holds(s, p, r) <==> r in s.place && s.place[r] == p {
      PlaceHolds(s, p, r);
    }
    if r in s.loopOf { assert Holds(s, s.place[r], r); }
  }

  lemma PlaceHolds(s: Pool, p: Place, r: Request)
    requires Placed(s)
    ensures Holds(s, p, r) <==> r in s.place && s.place[r] == p
  {
    if r in s.place { assert RequestOk(s.place[r], s.work[r], s.loopOf[r], r in s.ran, r in s.cancels); }
    match p
    case ToReport(l) => if l < |s.loops| { assert LoopAgrees(s.loops[l], l, s.place); }
    case Draining(l) => if l < |s.loops| { assert LoopAgrees(s.loops[l], l, s.place); }
    case Unlinked(l) => if l < |s.loops| { assert LoopAgrees(s.loops[l], l, s.place); }
    case _ =>
  }

  /** A done callback runs at most once, and is told of a cancellation iff the work
      never ran, which is iff uv_cancel returned 0. */
  lemma ReportedOnce(s: Pool, i: nat)
    requires Invariant(s) && i < |s.done|
    ensures forall j :: 0 <= j < |s.done| && s.done[j].0 == s.done[i].0 ==> j == i
    ensures s.done[i].1 <==> s.done[i].0 !in s.ran
    ensures s.done[i].1 <==> s.done[i].0 in s.cancels
  {
    var r := s.done[i].0;
    DoneIsReported(s.done, s.place, i);
    assert RequestOk(s.place[r], s.work[r], s.loopOf[r], r in s.ran, r in s.cancels);
  }

  /** uv_cancel succeeds exactly on requests whose work has not started. */
  lemma CancelSucceedsIff(s: Pool, r: Request, cancelled: bool, s': Pool)
    requires Invariant(s) && CancelUnlink(s, r, cancelled, s')
    ensures cancelled <==> r !in s.ran
  {
    var l := s.loopOf[r];
    assert RequestOk(s.place[r], s.work[r], l, r in s.ran, r in s.cancels);
    LinkedPlace(s, r, l);
    assert LoopAgrees(s.loops[l], l, s.place);
  }

  /** Work starts only on a request that has not run and is not cancelled; both facts
      about a request are then permanent. */
  lemma RunsAtMostOnce(s: Pool, e: Event, s': Pool)
    requires Invariant(s) && Step(s, e, s')
    ensures s.ran <= s'.ran && s.cancels <= s'.cancels
    ensures e.TakesWork? || e.TakesSlow? ==>
              exists r :: r !in s.ran && r !in s.cancels && s'.ran == s.ran + {r} && Holds(s', On(e.t), r)
    ensures !e.TakesWork? && !e.TakesSlow? ==> s'.ran == s.ran
  {
    hide Invariant;
    hide Signal;
    match e
    case TakesWork(t) =>
      StartsUnran(s, s.wq[0].r);
      assert Holds(s', On(t), s.wq[0].r);
    case TakesSlow(t) =>
      StartsUnran(s, s.slowPending[0]);
      var ts := s.threads[t := Running(s.slowPending[0], true)];
      if |s.slowPending| > 1 { SignalMovesSleepers(s.idle, ts, s'.threads); }
      assert s'.threads[t] == ts[t];
      assert Holds(s', On(t), s.slowPending[0]);
    case _ =>
  }

  lemma StartsUnran(s: Pool, r: Request)
    requires Invariant(s) && (Work(r) in s.wq || r in s.slowPending)
    ensures r !in s.ran && r !in s.cancels
  {
    assert RequestOk(s.place[r], s.work[r], s.loopOf[r], r in s.ran, r in s.cancels);
  }

  /** A worker that will look at the queue before it sleeps. */
  predicate OnItsWay(th: Thread) { th == Woken || th == AtTop || th.Returning? }

  /** No wake-up is lost: while a worker sleeps, every item of the queue has a worker of its
      own on the way, but for the marker when half of the workers, rounded up, do slow work. */
  lemma NoLostWakeup(s: Pool, t: nat)
    requires Invariant(s) && t < |s.threads| && s.threads[t] == Asleep
    ensures s.slowRunning == |set u: nat | u < |s.threads| && (s.threads[u] == Returning(true)
                                                               || (s.threads[u].Running? && s.threads[u].slow))|
    ensures |set u: nat | u < |s.threads| && OnItsWay(s.threads[u]) && s.threads[u] != Returning(true)|
            >= |s.wq| - if Marker in s.wq && s.slowRunning >= (|s.threads| + 1) / 2 then 1 else 0
  {
    assert Asleep in s.threads;
    assert Group(s.threads, Slow) == set u: nat | u < |s.threads| && (s.threads[u] == Returning(true)
                                                                      || (s.threads[u].Running? && s.threads[u].slow));
    assert Group(s.threads, Coming) == set u: nat | u < |s.threads| && OnItsWay(s.threads[u])
                                                    && s.threads[u] != Returning(true);
  }

  /** Work that is not slow never waits while all workers that do not run anything sleep. */
  lemma QueuedWorkGoesOn(s: Pool, t: nat, r: Request)
    requires Invariant(s) && t < |s.threads| && s.threads[t] == Asleep && r in s.place && s.place[r] == Queued
    ensures exists u: nat :: u < |s.threads| && OnItsWay(s.threads[u])
  {
    NoLostWakeup(s, t);
    var coming := set u: nat | u < |s.threads| && OnItsWay(s.threads[u]) && s.threads[u] != Returning(true);
    assert Work(r) in s.wq;
    if Marker in s.wq { TwoMembers(s.wq, Marker, Work(r)); }
    var u :| u in coming;
  }

  lemma TwoMembers(wq: seq<Item>, a: Item, b: Item)
    requires a in wq && b in wq && a != b
    ensures |wq| >= 2
  {
    var i :| 0 <= i < |wq| && wq[i] == a;
    var j :| 0 <= j < |wq| && wq[j] == b;
  }

  /** Nor does slow work, as long as it runs on less than half of them, rounded up. */
  lemma SlowWorkGoesOn(s: Pool, t: nat)
    requires Invariant(s) && t < |s.threads| && s.threads[t] == Asleep && s.slowPending != []
    requires |set u: nat | u < |s.threads| && s.threads[u].Running? && s.threads[u].slow| < (|s.threads| + 1) / 2
    ensures exists u: nat :: u < |s.threads| && OnItsWay(s.threads[u])
  {
    NoLostWakeup(s, t);
    var running := set u: nat | u < |s.threads| && s.threads[u].Running? && s.threads[u].slow;
    var slow := set u: nat | u < |s.threads| && (s.threads[u] == Returning(true)
                                                 || (s.threads[u].Running? && s.threads[u].slow));
    var coming := set u: nat | u < |s.threads| && OnItsWay(s.threads[u]) && s.threads[u] != Returning(true);
    if u: nat :| u < |s.threads| && s.threads[u] == Returning(true) {
      assert OnItsWay(s.threads[u]);
    } else {
      assert slow == running;
      var u :| u in coming;
    }
  }

  /** When all workers sleep, no submitted work is waiting to be run. */
  lemma AllAsleepNothingLeft(s: Pool)
    requires Invariant(s) && forall t :: 0 <= t < |s.threads| ==> s.threads[t] == Asleep
    ensures s.wq == [] && s.slowPending == [] && s.slowRunning == 0
    ensures forall r :: r in s.place ==> OnLoop(s.place[r]) || s.place[r] == Reported
  {
    assert Group(s.threads, Coming) == {} && Group(s.threads, Slow) == {};
    assert s.threads[0] == Asleep;
  }

  /** Slow work runs on at most (nthreads + 1) / 2 threads, and is never forgotten. */
  lemma SlowWorkBounded(s: Pool)
    requires Invariant(s)
    ensures |set t: nat | t < |s.threads| && s.threads[t].Running? && s.threads[t].slow| <= (|s.threads| + 1) / 2
    ensures s.slowPending != [] ==> Marker in s.wq
  {
    var running := set t: nat | t < |s.threads| && s.threads[t].Running? && s.threads[t].slow;
    SubsetSize(running, Group(s.threads, Slow));
  }

  // ---- first come, first served ----

  /** Neither of two requests that were submitted comes to a queue again; the second one,
      if it waits where the first one does, stands behind it, and has not run. */
  ghost predicate FastOrder(s: Pool, a: Request, b: Request) {
    && a != b && a in s.place && b in s.place && a !in s.slowPending && b !in s.slowPending
    && (Work(a) in s.wq ==> b !in s.ran && (Work(b) in s.wq ==> Ahead(s.wq, Work(a), Work(b))))
  }

  ghost predicate SlowOrder(s: Pool, a: Request, b: Request) {
    && a != b && a in s.place && b in s.place && Work(a) !in s.wq && Work(b) !in s.wq
    && (a in s.slowPending ==> b !in s.ran && (b in s.slowPending ==> Ahead(s.slowPending, a, b)))
  }

  /** What is queued is known and queued once. */
  ghost predicate KnownWork(s: Pool) {
    && Once(s.wq) && Once(s.slowPending) && s.work.Keys == s.place.Keys == s.loopOf.Keys
    && (forall r :: Work(r) in s.wq ==> r in s.place) && (forall r :: r in s.slowPending ==> r in s.place)
  }

  lemma WorkIsKnown(s: Pool)
    requires Invariant(s)
    ensures KnownWork(s)
  {
  }

  ghost predicate KeptOrder(s: Pool, a: Request, b: Request, slow: bool) {
    if slow then SlowOrder(s, a, b) else FastOrder(s, a, b)
  }

  lemma AheadInTail<T(!new)>(q: seq<T>, a: T, b: T)
    requires Once(q) && Ahead(q, a, b)
    ensures q[0] != b && (a in q[1..] ==> Ahead(q[1..], a, b))
  {
    var i, j :| 0 <= i < j < |q| && q[i] == a && q[j] == b;
    if a in q[1..] {
      var k :| 0 <= k < |q| - 1 && q[1..][k] == a;
      assert q[k + 1] == a && k + 1 == i;
      assert q[1..][i - 1] == a && q[1..][j - 1] == b;
    }
  }

  lemma AheadInMore<T(!new)>(q: seq<T>, x: T, a: T, b: T)
    requires a in q && (b == x || Ahead(q, a, b))
    ensures Ahead(q + [x], a, b)
  {
    if b == x {
      var i :| 0 <= i < |q| && q[i] == a;
      assert (q + [x])[i] == a && (q + [x])[|q|] == b;
    } else {
      var i, j :| 0 <= i < j < |q| && q[i] == a && q[j] == b;
      assert (q + [x])[i] == a && (q + [x])[j] == b;
    }
  }

  lemma StepKeepsOrder(s: Pool, e: Event, s': Pool, a: Request, b: Request, slow: bool)
    requires Invariant(s) && Step(s, e, s') && KeptOrder(s, a, b, slow)
    ensures KeptOrder(s', a, b, slow)
  {
    WorkIsKnown(s);
    if slow { StepKeepsSlowOrder(s, e, s', a, b); } else { StepKeepsFastOrder(s, e, s', a, b); }
  }

  lemma StepKeepsFastOrder(s: Pool, e: Event, s': Pool, a: Request, b: Request)
    requires KnownWork(s) && Step(s, e, s') && FastOrder(s, a, b)
    ensures FastOrder(s', a, b)
  {
    hide Ahead;
    hide RequestOk;
    hide Threshold;
    hide Linked;
    hide Signal;
    hide Without;
    if Work(a) in s.wq && Work(b) in s.wq && !e.Cancels? && s.wq != [] {
      AheadInTail(s.wq, Work(a), Work(b));
      if Work(a) in s.wq[1..] { AheadInMore(s.wq[1..], Marker, Work(a), Work(b)); }
    }
    match e
    case Submits(r, l, slow) =>
      if Work(a) in s.wq && Work(b) in s.wq { AheadInMore(s.wq, if slow then Marker else Work(r), Work(a), Work(b)); }
    case Cancels(r, cancelled) =>
      WithoutOnce(s.wq, Work(r));
      WithoutOnce(s.slowPending, r);
      if Work(a) in s.wq && Work(b) in s.wq && a != r && b != r { WithoutKeepsOrder(s.wq, Work(r), Work(a), Work(b)); }
    case _ =>
  }

  lemma StepKeepsSlowOrder(s: Pool, e: Event, s': Pool, a: Request, b: Request)
    requires KnownWork(s) && Step(s, e, s') && SlowOrder(s, a, b)
    ensures SlowOrder(s', a, b)
  {
    hide Ahead;
    hide RequestOk;
    hide Threshold;
    hide Linked;
    hide Signal;
    hide Without;
    if a in s.slowPending && b in s.slowPending && !e.Cancels? { AheadInTail(s.slowPending, a, b); }
    match e
    case Submits(r, l, slow) =>
      if a in s.slowPending && b in s.slowPending { AheadInMore(s.slowPending, r, a, b); }
    case Cancels(r, cancelled) =>
      WithoutOnce(s.wq, Work(r));
      WithoutOnce(s.slowPending, r);
      if a in s.slowPending && b in s.slowPending && a != r && b != r { WithoutKeepsOrder(s.slowPending, r, a, b); }
    case _ =>
  }

  /** Once submitted, a request is known, and on no queue of the other kind. */
  ghost predicate OfKind(s: Pool, a: Request, slow: bool) {
    a in s.place && if slow then Work(a) !in s.wq else a !in s.slowPending
  }

  lemma StepKeepsKind(s: Pool, e: Event, s': Pool, a: Request, slow: bool)
    requires KnownWork(s) && Step(s, e, s') && OfKind(s, a, slow)
    ensures OfKind(s', a, slow)
  {
    hide RequestOk;
    hide Threshold;
    hide Linked;
    hide Signal;
    hide Without;
    if e.Cancels? {
      WithoutOnce(s.wq, Work(e.r));
      WithoutOnce(s.slowPending, e.r);
    }
  }

  lemma {:induction false} KindKept(states: seq<Pool>, events: seq<Event>, i: nat, n: nat, a: Request, slow: bool)
    requires Path(states, events) && Init(states[0]) && i <= n < |states| && OfKind(states[i], a, slow)
    ensures OfKind(states[n], a, slow)
    decreases n - i
  {
    hide Invariant;
    hide OfKind;
    hide Step;
    if i < n {
      KindKept(states, events, i, n - 1, a, slow);
      EveryRun(states, events, n - 1);
      WorkIsKnown(states[n - 1]);
      StepKeepsKind(states[n - 1], events[n - 1], states[n], a, slow);
    }
  }

  lemma {:induction false} OrderKept(states: seq<Pool>, events: seq<Event>, i: nat, n: nat, a: Request, b: Request,
                                     slow: bool)
    requires Path(states, events) && Init(states[0]) && i <= n < |states| && KeptOrder(states[i], a, b, slow)
    ensures KeptOrder(states[n], a, b, slow)
    decreases n - i
  {
    hide Invariant;
    hide KeptOrder;
    hide Step;
    if i < n {
      OrderKept(states, events, i, n - 1, a, b, slow);
      EveryRun(states, events, n - 1);
      StepKeepsOrder(states[n - 1], events[n - 1], states[n], a, b, slow);
    }
  }

  lemma SubmittedIsKnown(s: Pool, a: Request, l: nat, slow: bool, s': Pool)
    requires Invariant(s) && Submit(s, a, l, slow, s')
    ensures OfKind(s', a, slow)
  {
  }

  lemma SubmittedIsBehind(s: Pool, a: Request, b: Request, l: nat, slow: bool, s': Pool)
    requires Invariant(s) && OfKind(s, a, slow) && Submit(s, b, l, slow, s')
    ensures KeptOrder(s', a, b, slow)
  {
    hide Ahead;
    hide SignalIfIdle;
    if slow && a in s.slowPending { AheadInMore(s.slowPending, b, a, b); }
    if !slow && Work(a) in s.wq { AheadInMore(s.wq, Work(b), Work(a), Work(b)); }
  }

  /** In every run, of two requests of the same kind the one submitted first is the first
      to start: as long as it waits, the other one has not run. */
  lemma FirstComeFirstServed(states: seq<Pool>, events: seq<Event>, i: nat, j: nat, n: nat, a: Request, b: Request,
                             l: nat, m: nat, slow: bool)
    requires Path(states, events) && Init(states[0]) && i < j < n < |states|
    requires events[i] == Submits(a, l, slow) && events[j] == Submits(b, m, slow)
    ensures Work(a) in states[n].wq || a in states[n].slowPending ==> b !in states[n].ran
  {
    hide Invariant;
    hide Submit;
    EveryRun(states, events, i);
    EveryRun(states, events, j);
    assert Step(states[i], events[i], states[i + 1]) && Step(states[j], events[j], states[j + 1]);
    SubmittedIsKnown(states[i], a, l, slow, states[i + 1]);
    KindKept(states, events, i + 1, j, a, slow);
    SubmittedIsBehind(states[j], a, b, m, slow, states[j + 1]);
    OrderKept(states, events, j + 1, n, a, b, slow);
  }

  /** Every state of every run. */
  lemma EveryRun(states: seq<Pool>, events: seq<Event>, n: nat)
    requires Path(states, events) && Init(states[0]) && n < |states|
    ensures Invariant(states[n])
  {
    InitInvariant(states[0]);
    RunInvariant(states, events, n);
  }
}
