/** The code of threadpool.c over its globals; each lock-protected region is a path of
    the state machine. */
module ThreadPoolCode {
  import opened InternalKeys
  import opened Lists
  import opened ThreadPool

  lemma Extend(states: seq<Pool>, events: seq<Event>, e: Event, s: Pool)
    returns (states': seq<Pool>, events': seq<Event>)
    requires Path(states, events) && Step(states[|events|], e, s)
    ensures Path(states', events') && states'[0] == states[0] && states'[|events'|] == s
  {
    hide Step;
    states', events' := states + [s], events + [e];
    forall i | 0 <= i < |events| + 1 ensures Step(states'[i], events'[i], states'[i + 1]) {
      if i < |events| { assert Step(states[i], events[i], states[i + 1]); }
    }
  }

  lemma Keeps(s: Pool, e: Event, s': Pool)
    requires Invariant(s) && Step(s, e, s')
    ensures Invariant(s')
  {
    StepKeepsPlaced(s, e, s');
    StepKeepsCounted(s, e, s');
  }

  lemma TakesWorkKeeps(s: Pool, t: nat, s': Pool)
    requires Invariant(s) && TakeWork(s, t, s')
    ensures Step(s, TakesWork(t), s') && Invariant(s')
  {
    Keeps(s, TakesWork(t), s');
  }

  lemma PostponesKeeps(s: Pool, t: nat, s': Pool)
    requires Invariant(s) && Postpone(s, t, s')
    ensures Step(s, Postpones(t), s') && Invariant(s')
  {
    Keeps(s, Postpones(t), s');
  }

  lemma DropsMarkerKeeps(s: Pool, t: nat, s': Pool)
    requires Invariant(s) && DropMarker(s, t, s')
    ensures Step(s, DropsMarker(t), s') && Invariant(s')
  {
    Keeps(s, DropsMarker(t), s');
  }

  lemma TakesSlowKeeps(s: Pool, t: nat, s': Pool)
    requires Invariant(s) && TakeSlow(s, t, s')
    ensures Step(s, TakesSlow(t), s') && Invariant(s')
  {
    Keeps(s, TakesSlow(t), s');
  }

  lemma SubmitsKeeps(s: Pool, r: Request, l: nat, slow: bool, s': Pool)
    requires Invariant(s) && Submit(s, r, l, slow, s')
    ensures Step(s, Submits(r, l, slow), s') && Invariant(s')
  {
    Keeps(s, Submits(r, l, slow), s');
  }

  lemma LocksKeeps(s: Pool, t: nat, s': Pool)
    requires Invariant(s) && Acquire(s, t, s')
    ensures Step(s, Locks(t), s') && Invariant(s')
  {
    Keeps(s, Locks(t), s');
  }

  lemma HandsOverKeeps(s: Pool, t: nat, s': Pool)
    requires Invariant(s) && HandOver(s, t, s')
    ensures Step(s, HandsOver(t), s') && Invariant(s')
  {
    Keeps(s, HandsOver(t), s');
  }

  lemma CancelsKeeps(s: Pool, r: Request, cancelled: bool, s': Pool)
    requires Invariant(s) && CancelUnlink(s, r, cancelled, s')
    ensures Step(s, Cancels(r, cancelled), s') && Invariant(s') && (cancelled <==> r !in s.ran)
  {
    Keeps(s, Cancels(r, cancelled), s');
    CancelSucceedsIff(s, r, cancelled, s');
  }

  lemma ReportsCancelKeeps(s: Pool, l: nat, s': Pool)
    requires Invariant(s) && CancelReport(s, l, s')
    ensures Step(s, ReportsCancel(l), s') && Invariant(s')
  {
    Keeps(s, ReportsCancel(l), s');
  }

  lemma ReportsKeeps(s: Pool, l: nat, s': Pool)
    requires Invariant(s) && Report(s, l, s')
    ensures Step(s, Reports(l), s') && Invariant(s')
  {
    Keeps(s, Reports(l), s');
  }

  /** The queue after postponing the marker starts with other work. */
  lemma PostponedBehindWork(s: Pool)
    requires Once(s.wq) && !NothingToRun(s) && s.wq[0] == Marker && s.slowRunning >= Threshold(s)
    ensures (s.wq[1..] + [Marker])[0] != Marker
  {
    assert s.wq != [Marker];
  }

  // ---- what one turn of a worker comes to ----

  /** wq, slow_io_pending_wq and slow_io_work_running. */
  datatype Queues = Queues(wq: seq<Item>, pending: seq<Request>, busy: nat)

  /** Where worker t of n gets with what it finds: the first request that is not slow, or
      the first slow one if the marker comes first and less than half of the workers,
      rounded up, are busy with slow work; a marker that finds them busy goes to the end,
      one that finds nothing pending is dropped.  It sleeps only if nothing is left but
      perhaps a marker that has to wait. */
  ghost predicate TurnEnds(n: nat, q: Queues, q': Queues, th: Thread) {
    if q.wq == [] then
      th == Asleep && q' == q
    else if q.wq[0] != Marker then
      th == Running(q.wq[0].r, false) && q' == q.(wq := q.wq[1..])
    else if q.busy < (n + 1) / 2 && q.pending != [] then
      && th == Running(q.pending[0], true)
      && q' == Queues(q.wq[1..] + (if |q.pending| > 1 then [Marker] else []), q.pending[1..], q.busy + 1)
    else
      var again := if q.busy < (n + 1) / 2 then [] else [Marker];
      if |q.wq| == 1 then th == Asleep && q' == q.(wq := again)
      else q.wq[1] != Marker && th == Running(q.wq[1].r, false) && q' == q.(wq := q.wq[2..] + again)
  }

  /** One time through the loop. */
  ghost predicate OneTime(n: nat, q: Queues, q': Queues, th: Thread)
    requires q.wq != []
  {
    if q.wq[0] != Marker then
      th == Running(q.wq[0].r, false) && q' == q.(wq := q.wq[1..])
    else if q.busy >= (n + 1) / 2 then
      th == AtTop && q' == q.(wq := q.wq[1..] + [Marker])
    else if q.pending == [] then
      th == AtTop && q' == q.(wq := q.wq[1..])
    else
      && th == Running(q.pending[0], true)
      && q' == Queues(q.wq[1..] + (if |q.pending| > 1 then [Marker] else []), q.pending[1..], q.busy + 1)
  }

  /** The loop has been at most once round: the marker was first. */
  ghost predicate Underway(n: nat, q: Queues, now: Queues) {
    || now == q
    || (q.wq != [] && q.wq[0] == Marker && now == q.(wq := q.wq[1..]) && q.busy < (n + 1) / 2 && q.pending == [])
    || (|q.wq| > 1 && q.wq[0] == Marker && now == q.(wq := q.wq[1..] + [Marker]) && q.busy >= (n + 1) / 2)
  }

  lemma TurnGoesOn(n: nat, q: Queues, now: Queues, q': Queues, th: Thread)
    requires Once(q.wq) && Underway(n, q, now) && now.wq != [] && OneTime(n, now, q', th)
    requires !(now.wq == [Marker] && now.busy >= (n + 1) / 2)
    ensures if th == AtTop then Underway(n, q, q') else TurnEnds(n, q, q', th)
  {
    if |q.wq| > 1 && q.wq[0] == Marker {
      assert q.wq[1] != Marker;
      assert q.wq[1..][1..] == q.wq[2..];
      assert (q.wq[1..] + [Marker])[1..] == q.wq[2..] + [Marker];
      assert q.wq[2..] + [] == q.wq[2..];
    }
  }

  lemma TurnSleeps(n: nat, q: Queues, now: Queues)
    requires Once(q.wq) && Underway(n, q, now) && (now.wq == [] || (now.wq == [Marker] && now.busy >= (n + 1) / 2))
    ensures TurnEnds(n, q, now, Asleep)
  {
  }

  class Globals {
    var wq: seq<Item>
    var slowPending: seq<Request>
    var idle: nat
    var slowRunning: nat
    var threads: seq<Thread>
    var loops: seq<Loop>
    var work: map<Request, WorkField>
    var loopOf: map<Request, nat>
    ghost var holder: Option<nat>
    ghost var place: map<Request, Place>
    ghost var ran: set<Request>
    ghost var cancels: set<Request>
    ghost var done: seq<(Request, bool)>

    ghost function State(): Pool
      reads this
    {
      Pool(wq, slowPending, idle, slowRunning, threads, holder, loops, work, loopOf, place, ran, cancels, done)
    }

    /** uv_cond_signal. */
    method CondSignal()
      modifies this`threads
      ensures Signal(old(threads), threads)
    {
      if Asleep in threads {
        var t :| 0 <= t < |threads| && threads[t] == Asleep;
        threads := threads[t := Woken];
      }
    }

    /** uv__work_submit with post. */
    method WorkSubmit(r: Request, l: nat, slow: bool)
      requires Invariant(State()) && holder == None && r !in loopOf && l < |loops|
      modifies this
      ensures Step(old(State()), Submits(r, l, slow), State()) && Invariant(State())
      ensures slowPending == old(slowPending) + if slow then [r] else []
      ensures wq == old(wq) + if !slow then [Work(r)] else if Marker in old(wq) then [] else [Marker]
    {
      hide Invariant;
      hide SignalIfIdle;
      hide Step;
      ghost var before := State();
      NewRequest(before, r);
      loopOf, work := loopOf[r := l], work[r := Function];
      place := place[r := if slow then Pending else Queued];
      Post(r, slow);
      SubmitsKeeps(before, r, l, slow, State());
    }

    method Post(r: Request, slow: bool)
      modifies this`wq, this`slowPending, this`threads
      ensures slowPending == (if slow then old(slowPending) + [r] else old(slowPending))
      ensures if slow && Marker in old(wq) then wq == old(wq) && threads == old(threads)
              else wq == old(wq) + [if slow then Marker else Work(r)] && SignalIfIdle(idle, old(threads), threads)
    {
      var q := Work(r);
      if slow {
        slowPending := slowPending + [r];
        if Marker in wq { return; }  // running slow work is already scheduled
        q := Marker;
      }
      wq := wq + [q];
      if idle > 0 { CondSignal(); }
    }

    /** What worker t does from taking the mutex until it releases it, asleep or with
        a request to run. */
    method WorkerTurn(t: nat) returns (ghost states: seq<Pool>, ghost events: seq<Event>)
      requires Invariant(State()) && holder == None && t < |threads| && (threads[t] == Woken || threads[t].Returning?)
      modifies this
      ensures Path(states, events) && states[0] == old(State()) && states[|events|] == State() && Invariant(State())
      ensures holder == None && t < |threads| && (threads[t] == Asleep || threads[t].Running?)
      ensures threads[t] == Asleep ==> wq == [] || (wq == [Marker] && slowRunning >= (|threads| + 1) / 2)
      ensures var left := old(slowRunning) - if old(threads[t]) == Returning(true) then 1 else 0;
              left >= 0
              && TurnEnds(|threads|, Queues(old(wq), old(slowPending), left), Queues(wq, slowPending, slowRunning),
                          threads[t])
    {
      hide Step;
      hide Invariant;
      hide TurnEnds;
      hide OneTime;
      hide Underway;
      hide Once;
      states, events := [State()], [];
      Lock(t);
      ghost var found := Queues(wq, slowPending, slowRunning);
      NothingDoneYet(|threads|, found);
      states, events := Extend(states, events, Locks(t), State());
      while wq != [] && !(wq == [Marker] && slowRunning >= (|threads| + 1) / 2)
        invariant Path(states, events) && states[0] == old(State()) && states[|events|] == State()
        invariant Invariant(State()) && holder == Some(t) && t < |threads|
        invariant Underway(|threads|, found, Queues(wq, slowPending, slowRunning))
        decreases |wq|, if wq != [] && wq[0] == Marker then 1 else 0
      {
        ghost var now := Queues(wq, slowPending, slowRunning);
        ghost var e := Turn(t);
        TurnGoesOn(|threads|, found, now, Queues(wq, slowPending, slowRunning), threads[t]);
        states, events := Extend(states, events, e, State());
        if threads[t] != AtTop { return; }
      }
      TurnSleeps(|threads|, found, Queues(wq, slowPending, slowRunning));
      Sleep(t);
      states, events := Extend(states, events, Sleeps(t), State());
    }

    /** uv_cond_wait gives the mutex up. */
    method Sleep(t: nat)
      requires Invariant(State()) && t < |threads| && holder == Some(t) && NothingToRun(State())
      modifies this
      ensures Step(old(State()), Sleeps(t), State()) && Invariant(State())
      ensures t < |threads| == |old(threads)| && threads[t] == Asleep && holder == None
      ensures wq == old(wq) && slowPending == old(slowPending) && slowRunning == old(slowRunning)
    {
      ghost var before := State();
      idle, threads, holder := idle + 1, threads[t := Asleep], None;
      Keeps(before, Sleeps(t), State());
    }

    method Lock(t: nat)
      requires Invariant(State()) && holder == None && t < |threads| && (threads[t] == Woken || threads[t].Returning?)
      modifies this
      ensures Step(old(State()), Locks(t), State()) && Invariant(State())
      ensures t < |threads| && holder == Some(t) && Once(wq)
      ensures wq == old(wq) && slowPending == old(slowPending)
      ensures slowRunning == old(slowRunning) - if old(threads[t]) == Returning(true) then 1 else 0
    {
      hide Invariant;
      hide Step;
      ghost var before := State();
      CountersPositive(before, t);
      if threads[t] == Woken {
        idle := idle - 1;
      } else if threads[t].slow {
        slowRunning := slowRunning - 1;
      }
      threads, holder := threads[t := AtTop], Some(t);
      LocksKeeps(before, t, State());
      AtTopFacts(State(), t);
    }

    /** One turn of the worker loop with the mutex held and something to do. */
    method Turn(t: nat) returns (ghost e: Event)
      requires Invariant(State()) && holder == Some(t) && !NothingToRun(State())
      modifies this
      ensures Step(old(State()), e, State()) && Invariant(State())
      ensures t < |threads| && (if threads[t] == AtTop then holder == Some(t)
                                else holder == None && threads[t].Running?)
      ensures |threads| == |old(threads)|
              && OneTime(|threads|, old(Queues(wq, slowPending, slowRunning)), Queues(wq, slowPending, slowRunning),
                         threads[t])
      ensures holder == Some(t) ==> |wq| < old(|wq|) || (|wq| == old(|wq|) && old(wq)[0] == Marker && wq[0] != Marker)
    {
      hide Invariant;
      hide SignalIfIdle;
      hide Step;
      hide Once;
      ghost var before := State();
      AtTopFacts(before, t);
      var q := wq[0];
      wq := wq[1..];
      match q {
        case Work(r) =>
          Run(t, r, false);
          e := TakesWork(t);
          TakesWorkKeeps(before, t, State());
        case Marker =>
          if slowRunning >= (|threads| + 1) / 2 {
            PostponedBehindWork(before);
            wq := wq + [Marker];
            e := Postpones(t);
            PostponesKeeps(before, t, State());
          } else if slowPending == [] {
            e := DropsMarker(t);
            DropsMarkerKeeps(before, t, State());
          } else {
            StartSlow(t);
            e := TakesSlow(t);
            TakesSlowKeeps(before, t, State());
          }
      }
    }

    /** Take the first slow request; if there are more, queue the marker again. */
    method StartSlow(t: nat)
      requires t < |threads| && slowPending != []
      modifies this`wq, this`slowPending, this`slowRunning, this`threads, this`holder, this`place, this`ran
      ensures wq == (if |old(slowPending)| > 1 then old(wq) + [Marker] else old(wq))
              && slowPending == old(slowPending)[1..]
      ensures slowRunning == old(slowRunning) + 1 && holder == None
      ensures place == old(place)[old(slowPending)[0] := On(t)] && ran == old(ran) + {old(slowPending)[0]}
      ensures var ts := old(threads)[t := Running(old(slowPending)[0], true)];
              if |old(slowPending)| > 1 then SignalIfIdle(idle, ts, threads) else threads == ts
      ensures |threads| == |old(threads)| && threads[t] == Running(old(slowPending)[0], true)
    {
      slowRunning := slowRunning + 1;
      var r := slowPending[0];
      slowPending := slowPending[1..];
      Run(t, r, true);
      if slowPending != [] {
        wq := wq + [Marker];
        if idle > 0 { CondSignal(); }
      }
    }

    /** Leave the mutex to run a request. */
    method Run(t: nat, r: Request, slow: bool)
      requires t < |threads|
      modifies this`threads, this`holder, this`place, this`ran
      ensures threads == old(threads)[t := Running(r, slow)] && holder == None
      ensures place == old(place)[r := On(t)] && ran == old(ran) + {r}
    {
      threads := threads[t := Running(r, slow)];
      holder, place, ran := None, place[r := On(t)], ran + {r};
    }

    /** The worker's part under the loop's lock, once w->work(w) has returned. */
    method FinishWork(t: nat)
      requires Invariant(State()) && t < |threads| && threads[t].Running?
      modifies this
      ensures Step(old(State()), HandsOver(t), State()) && Invariant(State())
    {
      hide Invariant;
      hide Step;
      ghost var before := State();
      RunningIsKnown(before, t);
      var r := threads[t].r;
      var l := loopOf[r];
      work := work[r := Null];
      loops := loops[l := loops[l].(queue := loops[l].queue + [r])];
      threads := threads[t := Returning(threads[t].slow)];
      place := place[r := ToReport(l)];
      HandsOverKeeps(before, t, State());
    }

    /** uv__work_cancel up to the decision, under both locks. */
    method WorkCancel(r: Request) returns (cancelled: bool)
      requires Invariant(State()) && holder == None && r in loopOf && r in place && place[r] != Reported
      requires loopOf[r] < |loops| && loops[loopOf[r]].cancelling == None
      modifies this
      ensures Step(old(State()), Cancels(r, cancelled), State()) && Invariant(State())
      ensures cancelled <==> r !in old(ran)
    {
      hide Invariant;
      hide Step;
      ghost var before := State();
      KnownRequest(before, r);
      var l := loopOf[r];
      var loop := loops[l];
      cancelled := (Work(r) in wq || r in slowPending || r in loop.queue || r in loop.draining) && work[r] != Null;
      if cancelled {
        wq, slowPending := Without(wq, Work(r)), Without(slowPending, r);
        loops := loops[l := Loop(Without(loop.queue, r), Without(loop.draining, r), Some(r))];
        place := place[r := Unlinked(l)];
      }
      CancelsKeeps(before, r, cancelled, State());
    }

    /** The rest of uv__work_cancel, which returns 0. */
    method WorkCancelled(l: nat)
      requires Invariant(State()) && l < |loops| && loops[l].cancelling.Some?
      modifies this
      ensures Step(old(State()), ReportsCancel(l), State()) && Invariant(State())
    {
      ghost var before := State();
      var r := loops[l].cancelling.value;
      work := work[r := Cancelled];
      loops := loops[l := loops[l].(queue := loops[l].queue + [r], cancelling := None)];
      cancels, place := cancels + {r}, place[r := ToReport(l)];
      ReportsCancelKeeps(before, l, State());
    }

    /** uv__work_done up to its loop: take over everything queued. */
    method WorkDone(l: nat)
      requires Invariant(State()) && l < |loops| && loops[l].draining == [] && loops[l].cancelling == None
      modifies this
      ensures Step(old(State()), Drains(l), State()) && Invariant(State())
    {
      ghost var before := State();
      loops := loops[l := Loop([], loops[l].queue, None)];
      place := map r | r in place :: if place[r] == ToReport(l) then Draining(l) else place[r];
      Keeps(before, Drains(l), State());
    }

    /** One turn of uv__work_done's loop: which request is done, and with what error. */
    method ReportOne(l: nat) returns (r: Request, ecanceled: bool)
      requires Invariant(State()) && l < |loops| && loops[l].draining != [] && loops[l].cancelling == None
      modifies this
      ensures Step(old(State()), Reports(l), State()) && Invariant(State())
      ensures done == old(done) + [(r, ecanceled)]
      ensures (forall d :: d in old(done) ==> d.0 != r) && (ecanceled <==> r !in ran)
    {
      hide Invariant;
      hide Step;
      ghost var before := State();
      r := loops[l].draining[0];
      DrainingIsKnown(before, l);
      loops := loops[l := loops[l].(draining := loops[l].draining[1..])];
      ecanceled := work[r] == Cancelled;
      done, place := done + [(r, ecanceled)], place[r := Reported];
      ReportsKeeps(before, l, State());
      LastReport(State());
    }
  }

  lemma NothingDoneYet(n: nat, q: Queues)
    ensures Underway(n, q, q)
  {
  }

  lemma CountersPositive(s: Pool, t: nat)
    requires Invariant(s) && t < |s.threads|
    ensures s.threads[t] == Woken ==> s.idle > 0
    ensures s.threads[t] == Returning(true) ==> s.slowRunning > 0
  {
    if s.threads[t] == Woken { assert t in Group(s.threads, Idle); }
    if s.threads[t] == Returning(true) { assert t in Group(s.threads, Slow); }
  }

  lemma AtTopFacts(s: Pool, t: nat)
    requires Invariant(s) && s.holder == Some(t)
    ensures t < |s.threads| && s.threads[t] == AtTop && Once(s.wq)
  {
  }

  lemma KnownRequest(s: Pool, r: Request)
    requires Invariant(s) && r in s.place
    ensures r in s.work && r in s.loopOf
  {
  }

  lemma NewRequest(s: Pool, r: Request)
    requires Invariant(s) && r !in s.loopOf
    ensures r !in s.place
  {
  }

  lemma RunningIsKnown(s: Pool, t: nat)
    requires Invariant(s) && t < |s.threads| && s.threads[t].Running?
    ensures s.threads[t].r in s.loopOf && s.loopOf[s.threads[t].r] < |s.loops|
  {
    assert s.threads[t].r in s.place;
  }

  lemma DrainingIsKnown(s: Pool, l: nat)
    requires Invariant(s) && l < |s.loops| && s.loops[l].draining != []
    ensures s.loops[l].draining[0] in s.work
  {
    assert LoopAgrees(s.loops[l], l, s.place);
    assert s.loops[l].draining[0] in s.place;
  }

  lemma LastReport(s: Pool)
    requires Invariant(s) && s.done != []
    ensures (forall d :: d in s.done[..|s.done| - 1] ==> d.0 != s.done[|s.done| - 1].0)
    ensures s.done[|s.done| - 1].1 <==> s.done[|s.done| - 1].0 !in s.ran
  {
    ReportedOnce(s, |s.done| - 1);
  }
}
