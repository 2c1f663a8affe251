/** The executor shared between harts and the loop that polls it, as a transition system:
    one polling loop, any number of wakers and spawners on other harts, interleaved at every
    lock operation and every access to the ready flag. */
module Executor {
  import opened Options

  /** Tasks are named by the order in which they were spawned. */
  type Task = nat

  /** Where one `SendWaker::wake` call is: not running, after its push to the wake queue, or
      inside the drain with `left` outer wakers still to call. */
  datatype WakerPc = Quiet | Pushed | Draining(left: nat)

  /** Where the polling loop is. */
  datatype Pc =
    | Between                              // `run_neverending_future`, before the flag is swapped
    | PollAll(next: nat)                   // `poll_all`
    | Spawning(again: bool)                // a drain of the spawn queue, which stays locked
    | PollNew(index: nat, again: bool)     // `push_task` polls the task it has placed
    | Register                             // `SendExecutor::poll` pushes the outer waker
    | TakeQueue                            // `wake_pending` empties the wake queue
    | PollWoken(queue: seq<nat>, woke: bool)

  datatype State = State(
    slots: seq<Option<Task>>,
    spawnQueue: seq<Task>,
    wakeQueue: seq<nat>,
    registered: nat,                       // outer wakers in `wakers`
    ready: bool,
    pc: Pc,
    wakers: seq<WakerPc>,
    spawned: nat,                          // tasks spawned so far
    done: set<Task>)                       // tasks whose poll returned Ready

  datatype Action =
    | Push(waker: nat, index: nat)         // a waker pushes a slot index
    | BeginDrain(waker: nat)
    | WakeOuter(waker: nat)                // sets the ready flag
    | EndDrain(waker: nat)
    | Spawn
    | Swap                                 // the loop swaps the ready flag
    | Poll(finished: bool)                 // the loop goes on; the polled task is Ready or not

  // ---- slots ----

  function Live(slots: seq<Option<Task>>): nat
  {
    if slots == [] then 0 else (if slots[0].Some? then 1 else 0) + Live(slots[1..])
  }

  /** First empty slot, or the length. */
  function FirstFree(slots: seq<Option<Task>>): (i: nat)
    ensures i <= |slots| && (i < |slots| ==> slots[i].None?) && forall j :: 0 <= j < i ==> slots[j].Some?
  {
    if slots == [] || slots[0].None? then 0 else 1 + FirstFree(slots[1..])
  }

  /** Slot choice of `push_task`. */
  function Place(slots: seq<Option<Task>>, t: Task): (r: seq<Option<Task>>)
    ensures |r| >= |slots| && FirstFree(slots) < |r| && r[FirstFree(slots)] == Some(t)
  {
    var i := FirstFree(slots);
    if i < |slots| then slots[i := Some(t)] else slots + [Some(t)]
  }

  /** `poll_future`: an empty or missing slot is skipped; a finished task leaves its slot. */
  function PollSlot(s: State, i: nat, finished: bool): State
  {
    if i < |s.slots| && s.slots[i].Some? && finished then
      s.(slots := s.slots[i := None], done := s.done + {s.slots[i].value})
    else s
  }

  /** Take the first task of the spawn queue and place it (`push_task` before its poll). */
  function PlaceNext(s: State): State
    requires s.spawnQueue != []
  {
    s.(slots := Place(s.slots, s.spawnQueue[0]), spawnQueue := s.spawnQueue[1..])
  }

  /** One step of the polling loop inside a poll of `SendExecutorHandle`. */
  function LoopStep(s: State, finished: bool): State
    requires s.pc != Between
  {
    match s.pc
    case PollAll(i) =>
      if i < |s.slots| then PollSlot(s, i, finished).(pc := PollAll(i + 1)) else s.(pc := Spawning(false))
    case Spawning(again) =>
      if s.spawnQueue != [] then PlaceNext(s).(pc := PollNew(FirstFree(s.slots), again))
      else if again then s.(pc := Between)
      else s.(pc := Register)
    case PollNew(i, again) => PollSlot(s, i, finished).(pc := Spawning(again))
    case Register => s.(registered := s.registered + 1, pc := TakeQueue)
    case TakeQueue => s.(wakeQueue := [], pc := PollWoken(s.wakeQueue, s.wakeQueue != []))
    case PollWoken(q, woke) =>
      if q != [] then PollSlot(s, q[0], finished).(pc := PollWoken(q[1..], woke))
      else if woke then s.(pc := Spawning(true))
      else s.(pc := Between)
  }

  // ---- steps ----

  predicate Enabled(s: State, a: Action)
  {
    match a
    case Push(w, _) => w < |s.wakers| && s.wakers[w].Quiet?
    case BeginDrain(w) => w < |s.wakers| && s.wakers[w].Pushed?
    case WakeOuter(w) => w < |s.wakers| && s.wakers[w].Draining? && s.wakers[w].left > 0
    case EndDrain(w) => w < |s.wakers| && s.wakers[w].Draining? && s.wakers[w].left == 0
    case Spawn => !s.pc.Spawning? && !s.pc.PollNew?
    case Swap => s.pc.Between?
    case Poll(_) => !s.pc.Between?
  }

  function Apply(s: State, a: Action): State
    requires Enabled(s, a)
  {
    match a
    case Push(w, i) => s.(wakeQueue := s.wakeQueue + [i], wakers := s.wakers[w := Pushed])
    case BeginDrain(w) => s.(wakers := s.wakers[w := Draining(s.registered)], registered := 0)
    case WakeOuter(w) => s.(ready := true, wakers := s.wakers[w := Draining(s.wakers[w].left - 1)])
    case EndDrain(w) => s.(wakers := s.wakers[w := Quiet])
    case Spawn => s.(spawnQueue := s.spawnQueue + [s.spawned], spawned := s.spawned + 1)
    case Swap => if s.ready then s.(ready := false, pc := PollAll(0)) else s
    case Poll(finished) => LoopStep(s, finished)
  }

  predicate Init(s: State)
  {
    s.slots == [] && s.spawnQueue == [] && s.wakeQueue == [] && s.registered == 0 && s.ready && s.pc.Between?
    && (forall w :: 0 <= w < |s.wakers| ==> s.wakers[w].Quiet?) && s.spawned == 0 && s.done == {}
  }

  /** The states of a run: each follows from the one before by an enabled action. */
  ghost predicate IsRun(states: seq<State>, actions: seq<Action>)
  {
    && |states| == |actions| + 1 && Init(states[0])
    && forall i :: 0 <= i < |actions| ==>
         Enabled(states[i], actions[i]) && states[i + 1] == Apply(states[i], actions[i])
  }

  // ---- no lost wake-up ----

  /** A wake call is still on its way to the ready flag. */
  predicate Underway(w: WakerPc)
  {
    w.Pushed? || (w.Draining? && w.left > 0)
  }

  ghost predicate SomeUnderway(s: State)
  {
    exists w :: 0 <= w < |s.wakers| && Underway(s.wakers[w])
  }

  /** A drain will still set the flag. */
  ghost predicate SomeWaking(s: State)
  {
    exists w :: 0 <= w < |s.wakers| && s.wakers[w].Draining? && s.wakers[w].left > 0
  }

  /** The loop has registered its waker in the current poll, or is between polls. */
  predicate Registered(pc: Pc)
  {
    pc.TakeQueue? || Taken(pc)
  }

  /** The loop has emptied the wake queue since it registered. */
  predicate Taken(pc: Pc)
  {
    pc.Between? || pc.PollWoken? || (pc.Spawning? && pc.again) || (pc.PollNew? && pc.again)
  }

  ghost predicate WakeInv(s: State)
  {
    && (Registered(s.pc) ==> s.ready || s.registered > 0 || SomeWaking(s))
    && (Taken(s.pc) && s.wakeQueue != [] ==> s.ready || SomeUnderway(s))
  }

  /** Every waker other than `w` is where it was. */
  lemma OthersKept(s: State, s': State, w: nat)
    requires w < |s.wakers| == |s'.wakers|
    requires forall v :: 0 <= v < |s.wakers| && v != w ==> s'.wakers[v] == s.wakers[v]
    ensures SomeWaking(s) && !(s.wakers[w].Draining? && s.wakers[w].left > 0) ==> SomeWaking(s')
    ensures SomeUnderway(s) && !Underway(s.wakers[w]) ==> SomeUnderway(s')
    ensures SomeUnderway(s) && Underway(s'.wakers[w]) ==> SomeUnderway(s')
    ensures s'.wakers[w].Draining? && s'.wakers[w].left > 0 ==> SomeWaking(s')
    ensures Underway(s'.wakers[w]) ==> SomeUnderway(s')
  {
    if SomeWaking(s) && !(s.wakers[w].Draining? && s.wakers[w].left > 0) {
      var v :| 0 <= v < |s.wakers| && s.wakers[v].Draining? && s.wakers[v].left > 0;
      assert s'.wakers[v].Draining? && s'.wakers[v].left > 0;
    }
    if SomeUnderway(s) && !Underway(s.wakers[w]) {
      var v :| 0 <= v < |s.wakers| && Underway(s.wakers[v]);
      assert Underway(s'.wakers[v]);
    }
  }

  lemma WakingIsUnderway(s: State)
    ensures SomeWaking(s) ==> SomeUnderway(s)
  {
    if SomeWaking(s) {
      var v :| 0 <= v < |s.wakers| && s.wakers[v].Draining? && s.wakers[v].left > 0;
      assert Underway(s.wakers[v]);
    }
  }

  lemma WakeStep(s: State, a: Action)
    requires WakeInv(s) && Enabled(s, a)
    ensures WakeInv(Apply(s, a))
  {
    var s' := Apply(s, a);
    WakingIsUnderway(s);
    WakingIsUnderway(s');
    match a
    case Push(w, i) => OthersKept(s, s', w);
    case BeginDrain(w) => OthersKept(s, s', w);
    case WakeOuter(w) => OthersKept(s, s', w);
    case EndDrain(w) => OthersKept(s, s', w);
    case Spawn => assert s'.wakers == s.wakers;
    case Swap => assert s'.wakers == s.wakers;
    case Poll(finished) => LoopWake(s, finished);
  }

  lemma LoopKeepsWakers(s: State, finished: bool)
    requires s.pc != Between
    ensures var s' := LoopStep(s, finished);
            s'.wakers == s.wakers && s'.ready == s.ready
            && (!s.pc.Register? ==> s'.registered == s.registered)
            && (!s.pc.TakeQueue? ==> s'.wakeQueue == s.wakeQueue)
  {
    hide Place, FirstFree, Live;
  }

  lemma LoopWake(s: State, finished: bool)
    requires WakeInv(s) && s.pc != Between
    ensures WakeInv(LoopStep(s, finished))
  {
    LoopKeepsWakers(s, finished);
    var s' := LoopStep(s, finished);
    assert SomeWaking(s) <==> SomeWaking(s');
    assert SomeUnderway(s) <==> SomeUnderway(s');
    hide Place, FirstFree, Live, PollSlot, PlaceNext;
  }

  /** No lost wake-up: in every interleaving, whenever the loop is between polls and the wake
      queue is not empty, the ready flag is set or some wake call is still on its way to it. */
  lemma {:induction false} NoLostWake(states: seq<State>, actions: seq<Action>, i: nat)
    requires IsRun(states, actions) && i < |states|
    ensures WakeInv(states[i])
    ensures states[i].pc.Between? && states[i].wakeQueue != [] ==> states[i].ready || SomeUnderway(states[i])
  {
    if i > 0 {
      NoLostWake(states, actions, i - 1);
      WakeStep(states[i - 1], actions[i - 1]);
    }
  }

  // ---- conservation of tasks ----

  ghost predicate NoRepeats(q: seq<Task>)
  {
    forall i, j :: 0 <= i < j < |q| ==> q[i] != q[j]
  }

  ghost predicate OneSlotEach(slots: seq<Option<Task>>)
  {
    forall i, j :: 0 <= i < j < |slots| && slots[i].Some? ==> slots[i] != slots[j]
  }

  /** Every spawned task is in exactly one place: the spawn queue, one slot, or completed. */
  ghost predicate Accounted(s: State)
  {
    && NoRepeats(s.spawnQueue) && OneSlotEach(s.slots)
    && (forall t :: t in s.spawnQueue ==> t < s.spawned && Some(t) !in s.slots && t !in s.done)
    && (forall t :: Some(t) in s.slots ==> t < s.spawned && t !in s.done)
    && (forall t :: t in s.done ==> t < s.spawned)
    && (forall t :: 0 <= t < s.spawned ==> t in s.spawnQueue || Some(t) in s.slots || t in s.done)
  }

  lemma {:induction false} LiveBound(slots: seq<Option<Task>>)
    ensures Live(slots) <= |slots|
    ensures (forall i :: 0 <= i < |slots| ==> slots[i].Some?) ==> Live(slots) == |slots|
    decreases |slots|
  {
    if slots != [] {
      LiveBound(slots[1..]);
    }
  }

  lemma PollSlotAccounted(s: State, i: nat, finished: bool)
    requires Accounted(s)
    ensures Accounted(PollSlot(s, i, finished)) && |PollSlot(s, i, finished).slots| == |s.slots|
  {
    var s' := PollSlot(s, i, finished);
    if i < |s.slots| && s.slots[i].Some? && finished {
      var t := s.slots[i].value;
      assert s.slots[i] in s.slots;
      forall u
        ensures Some(u) in s'.slots <==> Some(u) in s.slots && u != t
      {
        if Some(u) in s.slots && u != t {
          var k :| 0 <= k < |s.slots| && s.slots[k] == Some(u);
          assert s'.slots[k] == Some(u);
        }
      }
    }
  }

  lemma PlaceContents(slots: seq<Option<Task>>, t: Task)
    requires OneSlotEach(slots) && Some(t) !in slots
    ensures OneSlotEach(Place(slots, t))
    ensures forall u :: Some(u) in Place(slots, t) <==> Some(u) in slots || u == t
  {
    var r, i := Place(slots, t), FirstFree(slots);
    forall u | Some(u) in slots
      ensures Some(u) in r
    {
      var k :| 0 <= k < |slots| && slots[k] == Some(u);
      assert k != i && r[k] == Some(u);
    }
    assert r[i] == Some(t);
  }

  lemma PlaceAccounted(s: State)
    requires Accounted(s) && s.spawnQueue != []
    ensures Accounted(PlaceNext(s))
  {
    var t, rest := s.spawnQueue[0], s.spawnQueue[1..];
    assert t in s.spawnQueue;
    PlaceContents(s.slots, t);
    assert forall u :: u in s.spawnQueue <==> u == t || u in rest by {
      assert s.spawnQueue == [t] + rest;
    }
    assert t !in rest;
    hide Place;
    assert NoRepeats(rest);
  }

  lemma SpawnAccounted(s: State)
    requires Accounted(s)
    ensures Accounted(s.(spawnQueue := s.spawnQueue + [s.spawned], spawned := s.spawned + 1))
  {
    var q := s.spawnQueue + [s.spawned];
    assert forall t :: t in q <==> t in s.spawnQueue || t == s.spawned;
    assert Some(s.spawned) !in s.slots;
    assert forall i :: 0 <= i < |s.spawnQueue| ==> s.spawnQueue[i] in s.spawnQueue;
  }

  lemma TaskStep(s: State, a: Action)
    requires Accounted(s) && Enabled(s, a)
    ensures Accounted(Apply(s, a))
  {
    match a
    case Push(_, _) =>
    case BeginDrain(_) =>
    case WakeOuter(_) =>
    case EndDrain(_) =>
    case Spawn => SpawnAccounted(s);
    case Swap =>
    case Poll(finished) => LoopAccounted(s, finished);
  }

  lemma LoopAccounted(s: State, finished: bool)
    requires Accounted(s) && s.pc != Between
    ensures Accounted(LoopStep(s, finished))
  {
    hide Place, Live, FirstFree, PollSlot, PlaceNext;
    match s.pc
    case PollAll(i) => PollSlotAccounted(s, i, finished);
    case Spawning(_) =>
      if s.spawnQueue != [] {
        PlaceAccounted(s);
      }
    case PollNew(i, _) => PollSlotAccounted(s, i, finished);
    case Register =>
    case TakeQueue =>
    case PollWoken(q, _) =>
      if q != [] {
        PollSlotAccounted(s, q[0], finished);
      }
  }

  /** Conservation: in every run, each spawned task is in exactly one of the spawn queue, one
      slot, or completed; no slot holds a completed task, so none is polled after Ready. */
  lemma {:induction false} TasksConserved(states: seq<State>, actions: seq<Action>, i: nat)
    requires IsRun(states, actions) && i < |states|
    ensures Accounted(states[i])
  {
    if i > 0 {
      TasksConserved(states, actions, i - 1);
      TaskStep(states[i - 1], actions[i - 1]);
    }
  }

  /** The slot vector never shrinks, and grows only by a task that makes it full. */
  lemma SlotsStep(s: State, a: Action)
    requires Enabled(s, a)
    ensures var s' := Apply(s, a);
            |s'.slots| == |s.slots| || (|s'.slots| > |s.slots| && Live(s'.slots) == |s'.slots|)
  {
    hide Live;
    if a.Poll? && s.pc.Spawning? && s.spawnQueue != [] {
      LiveBound(Place(s.slots, s.spawnQueue[0]));
    }
  }

  /** The slot vector is exactly as long as the largest number of tasks ever in slots at once. */
  lemma {:induction false} SlotsArePeak(states: seq<State>, actions: seq<Action>, i: nat)
    requires IsRun(states, actions) && i < |states|
    ensures forall k :: 0 <= k <= i ==> Live(states[k].slots) <= |states[i].slots|
    ensures exists k :: 0 <= k <= i && Live(states[k].slots) == |states[i].slots|
  {
    hide *;
    LiveBound(states[i].slots);
    if i == 0 {
      RunStarts(states, actions);
      InitEmpty(states[0]);
    } else {
      SlotsArePeak(states, actions, i - 1);
      RunStep(states, actions, i - 1);
      SlotsStep(states[i - 1], actions[i - 1]);
      if |states[i].slots| == |states[i - 1].slots| {
        var k :| 0 <= k <= i - 1 && Live(states[k].slots) == |states[i - 1].slots|;
        assert Live(states[k].slots) == |states[i].slots|;
      }
    }
  }

  lemma RunStarts(states: seq<State>, actions: seq<Action>)
    requires IsRun(states, actions)
    ensures |states| == |actions| + 1 && Init(states[0])
  {
    hide Init, Apply, Enabled;
  }

  lemma RunStep(states: seq<State>, actions: seq<Action>, i: nat)
    requires IsRun(states, actions) && i < |states| - 1
    ensures i < |actions| && Enabled(states[i], actions[i]) && states[i + 1] == Apply(states[i], actions[i])
  {
    hide Init, Apply, Enabled;
  }

  lemma InitEmpty(s: State)
    requires Init(s)
    ensures Live(s.slots) == 0 == |s.slots|
  {
  }
}
