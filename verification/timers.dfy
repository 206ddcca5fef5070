/** The timers of timer.c on their heap. */
module Timers {
  import opened TimerHeap

  const MAX_TIME := 0xFFFF_FFFF_FFFF_FFFF  // (uint64_t) -1
  const INT_MAX := 0x7FFF_FFFF
  const EINVAL := -22

  /** loop->time + timeout in 64 bits, clamped when it wraps around. */
  function Clamp(time: nat, timeout: nat): nat {
    var sum := (time + timeout) % (MAX_TIME + 1);
    if sum < timeout then MAX_TIME else sum
  }

  lemma ClampSaturates(time: nat, timeout: nat)
    requires time <= MAX_TIME && timeout <= MAX_TIME
    ensures Clamp(time, timeout) == if time + timeout <= MAX_TIME then time + timeout else MAX_TIME
    ensures time <= Clamp(time, timeout) <= MAX_TIME
  {
  }

  /** A call on the loop's thread, from a timer callback or between two passes.  Handles
      are named by the order in which they were initialised. */
  datatype Call =
    | Init
    | Start(h: nat, hasCallback: bool, timeout: nat, repeat: nat)
    | Stop(h: nat)
    | Again(h: nat)
    | SetRepeat(h: nat, repeat: nat)
    | Close(h: nat)
    | UpdateTime(elapsed: nat)

  /** Times are 64-bit numbers. */
  predicate CallOk(call: Call) {
    match call
    case Start(_, _, timeout, repeat) => timeout <= MAX_TIME && repeat <= MAX_TIME
    case SetRepeat(_, repeat) => repeat <= MAX_TIME
    case UpdateTime(elapsed) => elapsed <= MAX_TIME
    case _ => true
  }

  // ---- what can be seen of a loop, and what the calls do to it ----

  datatype Setting = Inactive | Active(key: Key)

  datatype TimerView = TimerView(setting: Setting, repeat: nat, hasCallback: bool, closing: bool)

  /** The timers by their names. */
  datatype LoopView = LoopView(time: nat, counter: nat, timers: seq<TimerView>)

  predicate IsActive(v: LoopView, h: nat) { h < |v.timers| && v.timers[h].setting.Active? }

  function Started(v: LoopView, h: nat, hasCallback: bool, timeout: nat, repeat: nat): LoopView {
    if h >= |v.timers| || v.timers[h].closing || !hasCallback then v
    else
      var key := Key(Clamp(v.time, timeout), v.counter);
      LoopView(v.time, v.counter + 1, v.timers[h := TimerView(Active(key), repeat, true, false)])
  }

  function Stopped(v: LoopView, h: nat): LoopView {
    if h >= |v.timers| then v else v.(timers := v.timers[h := v.timers[h].(setting := Inactive)])
  }

  function Restarted(v: LoopView, h: nat): LoopView {
    if h >= |v.timers| || !v.timers[h].hasCallback || v.timers[h].repeat == 0 then v
    else Started(Stopped(v, h), h, true, v.timers[h].repeat, v.timers[h].repeat)
  }

  function Done(v: LoopView, call: Call): LoopView {
    match call
    case Init => v.(timers := v.timers + [TimerView(Inactive, 0, false, false)])
    case Start(h, hasCallback, timeout, repeat) => Started(v, h, hasCallback, timeout, repeat)
    case Stop(h) => Stopped(v, h)
    case Again(h) => Restarted(v, h)
    case SetRepeat(h, repeat) =>
      if h >= |v.timers| then v else v.(timers := v.timers[h := v.timers[h].(repeat := repeat)])
    case Close(h) =>
      if h >= |v.timers| then v
      else v.(timers := v.timers[h := v.timers[h].(setting := Inactive, closing := true)])
    case UpdateTime(elapsed) => v.(time := Clamp(v.time, elapsed))
  }

  function AllDone(v: LoopView, calls: seq<Call>): LoopView {
    if calls == [] then v else Done(AllDone(v, calls[..|calls| - 1]), calls[|calls| - 1])
  }

  lemma TwoDone(v: LoopView, a: Call, b: Call)
    ensures AllDone(v, [a, b]) == Done(Done(v, a), b)
  {
    hide Done;
    assert [a, b][..1] == [a] && [a][..0] == [];
    assert AllDone(v, [a]) == Done(AllDone(v, []), a);
  }

  /** Before its callback runs, a due timer is off the heap, or on it again if it repeats. */
  function Fired(v: LoopView, h: nat): LoopView { Restarted(Stopped(v, h), h) }

  /** h is active, due, and before all other active timers. */
  ghost predicate Due(v: LoopView, h: nat) {
    && IsActive(v, h) && v.timers[h].setting.key.timeout <= v.time
    && forall g :: 0 <= g < |v.timers| && g != h && IsActive(v, g) ==>
         Less(v.timers[h].setting.key, v.timers[g].setting.key)
  }

  /** One turn after the other: the least due timer fires, and its callback makes its calls. */
  ghost predicate Turns(views: seq<LoopView>, fired: seq<nat>, script: seq<seq<Call>>)
    requires |views| == |fired| + 1 && |fired| <= |script|
  {
    forall i :: 0 <= i < |fired| ==>
      Due(views[i], fired[i]) && views[i + 1] == AllDone(Fired(views[i], fired[i]), script[i])
  }

  /** The keys under which they fire. */
  ghost predicate KeysOfTurns(views: seq<LoopView>, fired: seq<nat>, keys: seq<Key>)
    requires |views| == |fired| + 1 && |keys| == |fired|
  {
    forall i :: 0 <= i < |fired| ==>
      fired[i] < |views[i].timers| && views[i].timers[fired[i]].setting == Active(keys[i])
  }

  lemma NoTurns(v: LoopView, script: seq<seq<Call>>)
    ensures Turns([v], [], script) && KeysOfTurns([v], [], []) && InOrder([])
  {
  }

  lemma OneMoreTurn(views: seq<LoopView>, fired: seq<nat>, keys: seq<Key>, script: seq<seq<Call>>, h: nat, k: Key,
                    v: LoopView)
    requires |views| == |fired| + 1 && |keys| == |fired| < |script|
    requires Turns(views, fired, script) && KeysOfTurns(views, fired, keys) && InOrder(keys)
    requires var last := views[|fired|];
             && Due(last, h) && last.timers[h].setting == Active(k) && v == AllDone(Fired(last, h), script[|fired|])
    requires keys != [] ==> Less(keys[|keys| - 1], k)
    ensures Turns(views + [v], fired + [h], script) && KeysOfTurns(views + [v], fired + [h], keys + [k])
    ensures InOrder(keys + [k])
  {
    hide Fired;
    hide AllDone;
  }

  /** The key under which timer h is about to fire. */
  function KeyAt(v: LoopView, h: nat): Key {
    if IsActive(v, h) then v.timers[h].setting.key else Key(0, 0)
  }

  lemma KeysAscend(views: seq<LoopView>, fired: seq<nat>, keys: seq<Key>)
    requires |views| == |fired| + 1 && |keys| == |fired| && KeysOfTurns(views, fired, keys) && InOrder(keys)
    ensures forall i, j :: 0 <= i < j < |fired| ==> Less(KeyAt(views[i], fired[i]), KeyAt(views[j], fired[j]))
  {
    forall i | 0 <= i < |fired| ensures KeyAt(views[i], fired[i]) == keys[i] {
      assert views[i].timers[fired[i]].setting == Active(keys[i]);
    }
  }

  /** The keys of the timers that fire, in the order of the pass. */
  ghost predicate InOrder(keys: seq<Key>) { forall i, j :: 0 <= i < j < |keys| ==> Less(keys[i], keys[j]) }

  predicate ViewOk(v: LoopView) {
    v.time <= MAX_TIME && forall h :: 0 <= h < |v.timers| ==>
      v.timers[h].repeat <= MAX_TIME && (IsActive(v, h) ==> v.timers[h].hasCallback && !v.timers[h].closing)
  }

  /** Only this timer has changed, and perhaps the start counter. */
  ghost predicate OnlyTimer(v: LoopView, w: LoopView, h: nat) {
    && w.time == v.time && |w.timers| == |v.timers|
    && forall g :: 0 <= g < |v.timers| && g != h ==> w.timers[g] == v.timers[g]
  }

  /** A timer that repeats is active again before its callback runs, with its repeat value
      behind the time of the pass; any other is inactive.  Nothing else has changed. */
  lemma FiredMeans(v: LoopView, h: nat)
    requires ViewOk(v) && IsActive(v, h)
    ensures var w, t := Fired(v, h), v.timers[h];
            && OnlyTimer(v, w, h) && w.counter == v.counter + (if t.repeat > 0 then 1 else 0)
            && w.timers[h]
               == if t.repeat == 0 then TimerView(Inactive, 0, true, false)
                  else TimerView(Active(Key(if v.time + t.repeat <= MAX_TIME then v.time + t.repeat else MAX_TIME,
                                            v.counter)), t.repeat, true, false)
  {
    ClampSaturates(v.time, v.timers[h].repeat);
  }

  /** A timer started by hand gets its timeout behind the time of now; a closed one, or one
      without a callback, is refused. */
  lemma StartMeans(v: LoopView, h: nat, hasCallback: bool, timeout: nat, repeat: nat)
    requires ViewOk(v) && h < |v.timers| && timeout <= MAX_TIME
    ensures var w := Done(v, Start(h, hasCallback, timeout, repeat));
            if v.timers[h].closing || !hasCallback then w == v
            else
              && OnlyTimer(v, w, h) && w.counter == v.counter + 1
              && w.timers[h]
                 == TimerView(Active(Key(if v.time + timeout <= MAX_TIME then v.time + timeout else MAX_TIME,
                                         v.counter)), repeat, true, false)
  {
    ClampSaturates(v.time, timeout);
  }

  /** uv_timer_again is a stop and a start with the repeat value, if there is one. */
  lemma AgainMeans(v: LoopView, h: nat)
    requires h < |v.timers|
    ensures var t := v.timers[h];
            Done(v, Again(h)) == if t.hasCallback && t.repeat > 0
                                 then AllDone(v, [Stop(h), Start(h, true, t.repeat, t.repeat)]) else v
  {
    TwoDone(v, Stop(h), Start(h, true, v.timers[h].repeat, v.timers[h].repeat));
  }

  /** The calls that set one thing: whether the timer runs, its repeat value, or the time. */
  lemma OneThingSet(v: LoopView, h: nat, repeat: nat, elapsed: nat)
    requires ViewOk(v) && h < |v.timers| && elapsed <= MAX_TIME
    ensures var w := Done(v, Stop(h));
            && OnlyTimer(v, w, h) && w.counter == v.counter && !IsActive(w, h)
            && (w == v <==> !IsActive(v, h)) && Done(w, Stop(h)) == w
            && (IsActive(v, h) && v.timers[h].repeat > 0 ==> Done(w, Again(h)) == Done(v, Again(h)))
    ensures var w := Done(v, SetRepeat(h, repeat));
            && OnlyTimer(v, w, h) && w.counter == v.counter && w.timers[h].setting == v.timers[h].setting
            && w.timers[h].repeat == repeat && Done(w, SetRepeat(h, v.timers[h].repeat)) == v
    ensures var w := Done(v, UpdateTime(elapsed));
            && w.timers == v.timers && w.counter == v.counter
            && w.time == if v.time + elapsed <= MAX_TIME then v.time + elapsed else MAX_TIME
    ensures var w := Done(v, Init);
            && w.time == v.time && w.counter == v.counter && |w.timers| == |v.timers| + 1 && v.timers <= w.timers
            && !IsActive(w, |v.timers|) && Done(w, Again(|v.timers|)) == w && !w.timers[|v.timers|].closing
  {
    ClampSaturates(v.time, elapsed);
    var w, u := Done(v, Stop(h)), Done(v, SetRepeat(h, repeat));
    assert !IsActive(v, h) ==> v.timers[h].(setting := Inactive) == v.timers[h];
    assert Done(w, Stop(h)).timers == w.timers;
    assert Done(u, SetRepeat(h, v.timers[h].repeat)).timers == v.timers;
    assert Stopped(w, h).timers == w.timers;
  }

  /** A closed timer stays inactive whatever is called, and the other timers have not changed. */
  lemma {:induction false} ClosedForGood(v: LoopView, h: nat, calls: seq<Call>)
    requires h < |v.timers|
    ensures var w := AllDone(Done(v, Close(h)), calls); h < |w.timers| && w.timers[h].closing && !IsActive(w, h)
    ensures OnlyTimer(v, Done(v, Close(h)), h)
  {
    if calls != [] { ClosedForGood(v, h, calls[..|calls| - 1]); }
  }

  /** Stopping undoes a start, but for the start id that is used up. */
  lemma StopUndoesStart(v: LoopView, h: nat, timeout: nat, repeat: nat)
    requires h < |v.timers|
    ensures var w := AllDone(v, [Start(h, true, timeout, repeat), Stop(h)]); !IsActive(w, h) && OnlyTimer(v, w, h)
  {
    TwoDone(v, Start(h, true, timeout, repeat), Stop(h));
  }

  class Loop {
    var time: nat
    var timerCounter: nat
    const heap: Heap
    var table: seq<Timer>          // every handle initialised on this loop, in order
    ghost var handles: set<Timer>  // the same as a set

    ghost predicate Valid()
      reads this, heap, handles, heap.slots
    {
      && heap.Valid() && heap.nodes <= handles && time <= MAX_TIME
      && HandlesOk() && Tabled()
    }

    /** A handle is active exactly while it is in the heap, where start ids are unique. */
    ghost predicate HandlesOk()
      reads this, heap, handles
    {
      && heap.nodes <= handles
      && (forall h :: h in handles ==> (h.active <==> h in heap.nodes) && h.repeat <= MAX_TIME)
      && (forall h :: h in heap.nodes ==> h.startId < timerCounter && h.hasCallback && !h.closing)
      && (forall g, h :: g in heap.nodes && h in heap.nodes && g != h ==> g.startId != h.startId)
    }

    ghost predicate Tabled()
      reads this
    {
      && (forall i :: 0 <= i < |table| ==> table[i] in handles) && (forall h :: h in handles ==> h in table)
      && forall i, j :: 0 <= i < j < |table| ==> table[i] != table[j]
    }

    ghost function ViewOf(h: Timer): TimerView
      reads h
    { TimerView(if h.active then Active(KeyOf(h)) else Inactive, h.repeat, h.hasCallback, h.closing) }

    ghost function View(): LoopView
      reads this, table
    {
      LoopView(time, timerCounter, seq(|table|, i requires 0 <= i < |table| reads this, table => ViewOf(table[i])))
    }

    constructor (time: nat)
      requires time <= MAX_TIME
      ensures Valid() && fresh(heap) && handles == {} && timerCounter == 0
    {
      this.time, timerCounter, table, handles := time, 0, [], {};
      heap := new Heap();
    }

    /** uv_timer_init */
    method TimerInit() returns (h: Timer)
      requires Valid()
      modifies this`table, this`handles
      ensures Valid() && fresh(h) && handles == old(handles) + {h} && table == old(table) + [h]
      ensures !h.active && !h.closing && !h.hasCallback && heap.nodes == old(heap.nodes)
      ensures View() == Done(old(View()), Init)
    {
      hide Heap.Valid;
      h := new Timer();
      table, handles := table + [h], handles + {h};
      assert View().timers == old(View()).timers + [ViewOf(h)];
    }

    /** uv_timer_stop */
    method TimerStop(h: Timer)
      requires Valid() && h in handles
      modifies heap, handles`left, handles`right, handles`parent, h`active
      ensures Valid() && !h.active && heap.nodes == old(heap.nodes) - {h}
      ensures forall i :: 0 <= i < |table| && table[i] == h ==> View() == Stopped(old(View()), i)
    {
      hide Heap.Valid;
      hide Tabled;
      InTable(h);
      if h.active {
        heap.Remove(h);
        h.active := false;
      }
      OneChanged(h);
    }

    /** Only the view of this handle can be another one. */
    twostate lemma OneChanged(h: Timer)
      requires Tabled() && table == old(table) && h in table && time == old(time)
      requires forall x :: x in table && x != h ==> ViewOf(x) == old(ViewOf(x))
      ensures |View().timers| == |old(View()).timers| == |table|
      ensures forall i :: 0 <= i < |table| && table[i] == h ==>
                View() == LoopView(time, timerCounter, old(View()).timers[i := ViewOf(h)])
                && old(View()).timers[i] == old(ViewOf(h))
    {
      forall i | 0 <= i < |table| && table[i] == h
        ensures View() == LoopView(time, timerCounter, old(View()).timers[i := ViewOf(h)])
      {
        assert forall j :: 0 <= j < |table| && j != i ==> table[j] != h;
        assert View().timers == old(View()).timers[i := ViewOf(h)];
      }
    }

    /** uv_timer_start */
    method TimerStart(h: Timer, hasCallback: bool, timeout: nat, repeat: nat) returns (err: int)
      requires Valid() && h in handles && timeout <= MAX_TIME && repeat <= MAX_TIME
      modifies heap, handles`left, handles`right, handles`parent, this`timerCounter
      modifies h`timeout, h`startId, h`repeat, h`hasCallback, h`active
      ensures Valid() && (err == EINVAL <==> h.closing || !hasCallback) && (err != EINVAL ==> err == 0)
      ensures err == EINVAL ==>
                heap.nodes == old(heap.nodes) && KeyOf(h) == old(KeyOf(h))
                && timerCounter == old(timerCounter)
      ensures err == 0 ==> heap.nodes == old(heap.nodes) + {h} && timerCounter == old(timerCounter) + 1
      ensures err == 0 ==> KeyOf(h) == Key(Clamp(time, timeout), old(timerCounter)) && h.repeat == repeat
      ensures forall i :: 0 <= i < |table| && table[i] == h ==>
                View() == Started(old(View()), i, hasCallback, timeout, repeat)
    {
      hide Loop.Valid;
      hide Unused;
      hide Clamp;
      hide Tabled;
      InTable(h);
      if h.closing || !hasCallback {
        OneChanged(h);
        return EINVAL;
      }
      ghost var nodes := heap.nodes;
      StopIfActive(h);
      assert nodes - {h} + {h} == nodes + {h};
      SetTimer(h, Clamp(time, timeout), repeat);
      Activate(h);
      OneChanged(h);
      err := 0;
    }

    lemma InTable(h: Timer)
      requires Valid() && h in handles
      ensures Tabled() && h in table
    {
    }

    method StopIfActive(h: Timer)
      requires Valid() && h in handles
      modifies heap, handles`left, handles`right, handles`parent, h`active
      ensures Valid() && h !in heap.nodes && heap.nodes == old(heap.nodes) - {h}
    {
      hide Loop.Valid;
      if h.active { TimerStop(h); } else { NotInHeap(h); }
    }

    lemma NotInHeap(h: Timer)
      requires Valid() && h in handles && !h.active
      ensures h !in heap.nodes
    {
    }

    /** The fields of a handle that is not in the heap. */
    method SetTimer(h: Timer, timeout: nat, repeat: nat)
      requires Valid() && h in handles && h !in heap.nodes && repeat <= MAX_TIME
      modifies this`timerCounter, h`timeout, h`startId, h`repeat, h`hasCallback
      ensures Valid() && timerCounter == old(timerCounter) + 1
      ensures KeyOf(h) == Key(timeout, old(timerCounter)) && h.repeat == repeat && h.hasCallback && Unused(h.startId)
    {
      hide Heap.Valid;
      WriteFields(h, timeout, repeat);
    }

    lemma NotInSlots(h: Timer)
      requires heap.Valid() && h !in heap.nodes
      ensures h !in heap.slots
    {
    }

    method WriteFields(h: Timer, timeout: nat, repeat: nat)
      requires heap.Valid() && h !in heap.nodes
      modifies this`timerCounter, h`timeout, h`startId, h`repeat, h`hasCallback
      ensures heap.Valid() && timerCounter == old(timerCounter) + 1
      ensures h.timeout == timeout && h.startId == old(timerCounter) && h.repeat == repeat && h.hasCallback
    {
      assert h !in heap.slots by { NotInSlots(h); }
      hide HeapOrder;
      hide Heap.Linked;
      hide Covered;
      ghost var keys := KeysOf(heap.slots);
      h.hasCallback, h.timeout, h.repeat, h.startId := true, timeout, repeat, timerCounter;
      timerCounter := timerCounter + 1;
      assert KeysOf(heap.slots) == keys;
    }

    ghost predicate Unused(startId: nat)
      reads heap, heap.nodes`startId
    {
      forall x :: x in heap.nodes ==> x.startId != startId
    }

    method Activate(h: Timer)
      requires Valid() && h in handles && h !in heap.nodes && h.hasCallback && h.startId < timerCounter
               && Unused(h.startId)
      requires !h.closing
      modifies heap, handles`left, handles`right, handles`parent, h`active
      ensures Valid() && heap.nodes == old(heap.nodes) + {h} && h.active
    {
      hide Heap.Valid;
      heap.Insert(h);
      h.active := true;
    }

    /** Every timer in the heap would fire after key k, and so would any started now. */
    ghost predicate AllAfter(k: Key)
      reads this, heap, heap.nodes
    {
      k.timeout <= time && k.startId < timerCounter && forall x :: x in heap.nodes ==> Less(k, KeyOf(x))
    }

    lemma RepeatFits(h: Timer)
      requires Valid() && h in handles
      ensures h.repeat <= MAX_TIME
    {
    }

    /** uv_timer_again */
    method TimerAgain(h: Timer) returns (err: int)
      requires Valid() && h in handles
      modifies heap, handles`left, handles`right, handles`parent, this`timerCounter
      modifies h`timeout, h`startId, h`repeat, h`hasCallback, h`active
      ensures Valid() && (err == EINVAL <==> !old(h.hasCallback)) && (err != EINVAL ==> err == 0)
      ensures forall k :: old(AllAfter(k)) ==> AllAfter(k)
      ensures err == EINVAL || old(h.repeat) == 0 ==> heap.nodes == old(heap.nodes) && KeyOf(h) == old(KeyOf(h))
      ensures err == 0 && old(h.repeat) != 0 ==>
                if h.closing then heap.nodes == old(heap.nodes) - {h}
                else heap.nodes == old(heap.nodes) + {h}
                     && KeyOf(h) == Key(Clamp(time, old(h.repeat)), old(timerCounter))
      ensures timerCounter == old(timerCounter) + if err == 0 && old(h.repeat) != 0 && !h.closing then 1 else 0
      ensures forall i :: 0 <= i < |table| && table[i] == h ==> View() == Restarted(old(View()), i)
    {
      hide Heap.Valid;
      hide HandlesOk;
      hide Tabled;
      hide Clamp;
      hide Started;
      hide Stopped;
      InTable(h);
      OneChanged(h);
      if !h.hasCallback { return EINVAL; }
      if h.repeat != 0 {
        RepeatFits(h);
        TimerStop(h);
        var _ := TimerStart(h, h.hasCallback, h.repeat, h.repeat);
        ClampSaturates(time, old(h.repeat));
      }
      return 0;
    }

    /** uv_timer_set_repeat */
    method TimerSetRepeat(h: Timer, repeat: nat)
      requires Valid() && h in handles && repeat <= MAX_TIME
      modifies h`repeat
      ensures Valid() && h.repeat == repeat
      ensures forall i :: 0 <= i < |table| && table[i] == h ==> View() == Done(old(View()), SetRepeat(i, repeat))
    {
      hide Heap.Valid;
      h.repeat := repeat;
      OneChanged(h);
    }

    /** uv_close on a timer, with uv__timer_close. */
    method TimerClose(h: Timer)
      requires Valid() && h in handles
      modifies heap, handles`left, handles`right, handles`parent, h`active, h`closing
      ensures Valid() && h.closing && !h.active && heap.nodes == old(heap.nodes) - {h}
      ensures forall i :: 0 <= i < |table| && table[i] == h ==> View() == Done(old(View()), Close(i))
    {
      hide Heap.Valid;
      InTable(h);
      TimerStop(h);
      h.closing := true;
      OneChanged(h);
    }

    /** uv__update_time, with a clock that does not go back. */
    method UpdateTime(elapsed: nat)
      requires Valid() && elapsed <= MAX_TIME
      modifies this`time
      ensures Valid() && old(time) <= time && View() == Done(old(View()), Call.UpdateTime(elapsed))
    {
      ClampSaturates(time, elapsed);
      time := Clamp(time, elapsed);
      assert View().timers == old(View()).timers;
    }

    /** What the call is for; and no call lets a timer fire before a key that has already fired. */
    method Execute(call: Call)
      requires Valid() && CallOk(call)
      modifies this`time, this`timerCounter, this`table, this`handles, heap, handles
      ensures Valid() && time >= old(time) && fresh(handles - old(handles)) && old(handles) <= handles
      ensures View() == Done(old(View()), call) && old(table) <= table
      ensures forall k :: old(AllAfter(k)) ==> AllAfter(k)
    {
      hide Heap.Valid;
      hide HandlesOk;
      match call {
        case Init =>
          hide AllAfter;
          var _ := TimerInit();
        case Start(h, hasCallback, timeout, repeat) =>
          if h < |table| {
            ClampSaturates(time, timeout);
            var _ := TimerStart(table[h], hasCallback, timeout, repeat);
          }
        case Stop(h) =>
          if h < |table| { TimerStop(table[h]); }
        case Again(h) =>
          if h < |table| { var _ := TimerAgain(table[h]); }
        case SetRepeat(h, repeat) =>
          if h < |table| { TimerSetRepeat(table[h], repeat); }
        case Close(h) =>
          if h < |table| { TimerClose(table[h]); }
        case UpdateTime(elapsed) =>
          UpdateTime(elapsed);
      }
    }

    /** What one timer callback does. */
    method Callback(calls: seq<Call>)
      requires Valid() && forall c :: c in calls ==> CallOk(c)
      modifies this`time, this`timerCounter, this`table, this`handles, heap, handles
      ensures Valid() && time >= old(time) && fresh(handles - old(handles)) && old(handles) <= handles
      ensures View() == AllDone(old(View()), calls) && old(table) <= table
      ensures forall k :: old(AllAfter(k)) ==> AllAfter(k)
    {
      hide Heap.Valid;
      hide HandlesOk;
      hide AllAfter;
      hide Tabled;
      hide Done;
      assert calls[..|calls|] == calls;
      for i := 0 to |calls|
        invariant Valid() && time >= old(time) && fresh(handles - old(handles)) && old(handles) <= handles
        invariant View() == AllDone(old(View()), calls[..i]) && old(table) <= table
        invariant forall k :: old(AllAfter(k)) ==> AllAfter(k)
      {
        Execute(calls[i]);
        assert calls[..i + 1][..i] == calls[..i];
      }
    }

    /** The root is the least of all timers in the heap. */
    lemma RootFiresFirst()
      requires Valid()
      ensures heap.min == null <==> heap.nodes == {}
      ensures heap.min != null ==>
                && heap.min in heap.nodes && heap.min.startId < timerCounter
                && (heap.min.timeout <= time ==> forall x :: x in heap.nodes - {heap.min} ==>
                    Less(KeyOf(heap.min), KeyOf(x)))
                && forall x :: x in heap.nodes ==> heap.min.timeout <= x.timeout
    {
      heap.MinIsNode();
    }

    /** The root of the heap, by its name. */
    ghost function RootName(): (h: nat)
      requires Valid() && heap.min != null
      reads this, heap, handles, heap.slots, table
      ensures h < |table| && table[h] == heap.min && heap.min in heap.nodes
    {
      RootFiresFirst();
      var h :| 0 <= h < |table| && table[h] == heap.min;
      h
    }

    lemma RootIsDue()
      requires Valid() && heap.min != null && heap.min.timeout <= time
      ensures Due(View(), RootName())
    {
      RootFiresFirst();
      hide Heap.Valid;
      var h, v := RootName(), View();
      forall g | 0 <= g < |table| && g != h && IsActive(v, g)
        ensures Less(v.timers[h].setting.key, v.timers[g].setting.key)
      {
        assert table[g] in heap.nodes - {heap.min};
      }
    }

    /** Take the due timer at the root off the heap, and start it again if it repeats. */
    method Fire(t: Timer) returns (ghost h: nat)
      requires Valid() && t == heap.min && t.timeout <= time
      modifies heap, handles`left, handles`right, handles`parent, this`timerCounter
      modifies t`timeout, t`startId, t`repeat, t`hasCallback, t`active
      ensures Valid() && AllAfter(old(KeyOf(t)))
      ensures h < |table| && table[h] == t && Due(old(View()), h) && View() == Fired(old(View()), h)
      ensures if old(t.repeat) == 0 then heap.nodes == old(heap.nodes) - {t} && timerCounter == old(timerCounter)
              else
                && heap.nodes == old(heap.nodes) && timerCounter == old(timerCounter) + 1
                && KeyOf(t) == Key(if time + old(t.repeat) <= MAX_TIME then time + old(t.repeat) else MAX_TIME,
                                   old(timerCounter))
    {
      hide Heap.Valid;
      hide HandlesOk;
      hide Due;
      hide Tabled;
      hide Clamp;
      hide Stopped;
      hide Restarted;
      h := RootName();
      RootIsDue();
      RepeatSums(t);
      StopRoot(t);
      var _ := TimerAgain(t);
    }

    lemma RepeatSums(t: Timer)
      requires Valid() && t in heap.nodes
      ensures t in handles && t.hasCallback && !t.closing && t.repeat <= MAX_TIME && time <= MAX_TIME
      ensures Clamp(time, t.repeat) == if time + t.repeat <= MAX_TIME then time + t.repeat else MAX_TIME
    {
      ClampSaturates(time, t.repeat);
    }

    method StopRoot(t: Timer)
      requires Valid() && t == heap.min && t.timeout <= time
      modifies heap, handles`left, handles`right, handles`parent, t`active
      ensures Valid() && AllAfter(old(KeyOf(t))) && heap.nodes == old(heap.nodes) - {t} && t in old(heap.nodes)
      ensures forall i :: 0 <= i < |table| && table[i] == t ==> View() == Stopped(old(View()), i)
    {
      RootFiresFirst();
      hide Heap.Valid;
      hide HandlesOk;
      hide Tabled;
      TimerStop(t);
    }

    /** uv__run_timers, with the calls each callback makes.  The pass may go on for ever, so it is
        followed for as many callbacks as the script has.  `views` are what can be seen before each
        callback's timer fires, and at the end. */
    method RunTimers(script: seq<seq<Call>>)
      returns (fired: seq<Timer>, finished: bool, ghost names: seq<nat>, ghost views: seq<LoopView>)
      requires Valid() && forall calls, c :: calls in script && c in calls ==> CallOk(c)
      modifies this`time, this`timerCounter, this`table, this`handles, heap, handles
      ensures Valid() && |fired| == |names| <= |script| && (!finished ==> |fired| == |script|)
      ensures |views| == |fired| + 1 && views[0] == old(View()) && views[|fired|] == View()
      ensures forall i :: 0 <= i < |fired| ==> names[i] < |table| && table[names[i]] == fired[i]
      ensures Turns(views, names, script)
      ensures forall i, j :: 0 <= i < j < |fired| ==> Less(KeyAt(views[i], names[i]), KeyAt(views[j], names[j]))
      ensures finished <==> forall h :: 0 <= h < |View().timers| && IsActive(View(), h) ==>
                              View().timers[h].setting.key.timeout > time
    {
      hide Loop.Valid;
      hide Due;
      hide Fired;
      hide AllDone;
      hide Turns;
      hide InOrder;
      hide KeysOfTurns;
      hide AllAfter;
      fired, names, views := [], [], [View()];
      ghost var keys: seq<Key> := [];
      NoTurns(View(), script);
      while |fired| < |script|
        invariant Valid() && |fired| == |names| == |keys| <= |script| && |views| == |fired| + 1
        invariant views[0] == old(View()) && views[|fired|] == View() && fresh(handles - old(handles))
        invariant forall i :: 0 <= i < |fired| ==> names[i] < |table| && table[names[i]] == fired[i]
        invariant Turns(views, names, script) && KeysOfTurns(views, names, keys) && InOrder(keys)
        invariant fired != [] ==> AllAfter(keys[|fired| - 1])
      {
        var t := heap.min;
        if t == null || t.timeout > time { break; }
        if keys != [] { NextIsLater(keys[|keys| - 1]); }
        ghost var k, h := KeyOf(t), 0;
        h := FireAndCall(t, script[|fired|]);
        OneMoreTurn(views, names, keys, script, h, k, View());
        fired, names, keys, views := fired + [t], names + [h], keys + [k], views + [View()];
      }
      NoneIsDue();
      KeysAscend(views, names, keys);
      finished := heap.min == null || heap.min.timeout > time;
    }

    /** One turn of the loop. */
    method FireAndCall(t: Timer, calls: seq<Call>) returns (ghost h: nat)
      requires Valid() && t == heap.min && t.timeout <= time && forall c :: c in calls ==> CallOk(c)
      modifies this`time, this`timerCounter, this`table, this`handles, heap, handles
      ensures Valid() && fresh(handles - old(handles)) && old(handles) <= handles && old(table) <= table
      ensures AllAfter(old(KeyOf(t))) && h < |old(table)| && old(table[h]) == t
      ensures Due(old(View()), h) && old(View()).timers[h].setting == Active(old(KeyOf(t)))
      ensures View() == AllDone(Fired(old(View()), h), calls)
    {
      hide Heap.Valid;
      hide HandlesOk;
      hide Tabled;
      hide Fired;
      hide AllDone;
      hide AllAfter;
      RootFiresFirst();
      RootIsActive();
      h := Fire(t);
      Callback(calls);
    }

    lemma RootIsActive()
      requires Valid() && heap.min != null
      ensures heap.min.active
      ensures forall h :: 0 <= h < |table| && table[h] == heap.min ==>
                View().timers[h].setting == Active(KeyOf(heap.min))
    {
      RootFiresFirst();
    }

    lemma NextIsLater(k: Key)
      requires Valid() && heap.min != null && AllAfter(k)
      ensures Less(k, KeyOf(heap.min))
    {
      RootFiresFirst();
    }

    lemma NoneIsDue()
      requires Valid()
      ensures heap.min == null || heap.min.timeout > time
              <==> forall h :: 0 <= h < |View().timers| && IsActive(View(), h) ==>
                     View().timers[h].setting.key.timeout > time
    {
      RootFiresFirst();
      hide Heap.Valid;
      if heap.min != null {
        var h := RootName();
        assert View().timers[h] == ViewOf(table[h]);
      }
      forall h | 0 <= h < |table| && IsActive(View(), h)
        ensures table[h] in heap.nodes && View().timers[h].setting.key == KeyOf(table[h])
      {
        assert View().timers[h] == ViewOf(table[h]);
      }
    }

    /** uv__next_timeout: how long the loop may block. */
    method NextTimeout() returns (wait: int)
      requires Valid()
      ensures -1 <= wait <= INT_MAX
      ensures wait == -1 <==> forall h :: h in handles ==> !h.active
      ensures wait == 0 <==> exists h :: h in handles && h.active && h.timeout <= time
      ensures wait > 0 ==> forall h :: h in handles && h.active ==> time + wait <= h.timeout
      ensures 0 < wait < INT_MAX ==> exists h :: h in handles && h.active && h.timeout == time + wait
    {
      RootFiresFirst();
      hide Heap.Valid;
      if heap.min == null { return -1; }
      if heap.min.timeout <= time { return 0; }
      var diff := heap.min.timeout - time;
      return if diff > INT_MAX then INT_MAX else diff;
    }
  }
}
