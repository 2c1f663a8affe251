/** Which tasks the polling loop polls: what whole phases of a poll do to the slots, for every
    outcome of every task, and where wake-ups go. */
module ExecutorPolls {
  import opened Options
  import opened Executor
  import opened LocalExecutor

  /** The loop polls on; the polls have these outcomes, one a step. */
  function Polls(outcomes: seq<bool>): (acts: seq<Action>)
    ensures |acts| == |outcomes|
  {
    seq(|outcomes|, i requires 0 <= i < |outcomes| => Poll(outcomes[i]))
  }

  lemma PollsStep(s: State, outcomes: seq<bool>, s': State)
    requires outcomes != [] && Follows(s, Polls(outcomes), s')
    ensures s.pc != Between && Follows(LoopStep(s, outcomes[0]), Polls(outcomes[1..]), s')
  {
    assert Polls(outcomes)[0] == Poll(outcomes[0]);
    assert Polls(outcomes)[1..] == Polls(outcomes[1..]);
    hide LoopStep, Polls;
  }

  lemma PollsEnd(s: State, s': State)
    requires Follows(s, Polls([]), s')
    ensures s' == s
  {
    assert Polls([]) == [];
  }

  /** `s'` has exactly the occupied slots of `s` but those in `named`, whose tasks are completed. */
  ghost predicate Emptied(s: State, named: set<nat>, s': State)
  {
    && |s'.slots| == |s.slots|
    && (forall i :: 0 <= i < |s.slots| ==> s'.slots[i] == if i in named then None else s.slots[i])
    && (forall t :: t in s'.done <==> t in s.done || exists i :: i in named && i < |s.slots| && s.slots[i] == Some(t))
    && s' == s.(slots := s'.slots, done := s'.done, pc := s'.pc)
  }

  lemma EmptiedOne(s: State, i: nat, finished: bool)
    ensures Emptied(s, if finished then {i} else {}, PollSlot(s, i, finished))
  {
  }

  lemma EmptiedTrans(s: State, a: set<nat>, m: State, b: set<nat>, s': State)
    requires Emptied(s, a, m) && Emptied(m, b, s')
    ensures Emptied(s, a + b, s')
  {
    forall t
      ensures t in s'.done <==> t in s.done || exists i :: i in a + b && i < |s.slots| && s.slots[i] == Some(t)
    {
      if i :| i in a + b && i < |s.slots| && s.slots[i] == Some(t) {
        assert i in a || (i in b && m.slots[i] == Some(t));
      }
    }
  }

  /** The entries of the wake queue whose poll finishes. */
  function Finishing(q: seq<nat>, outcomes: seq<bool>): (named: set<nat>)
    requires |q| == |outcomes|
  {
    set j | 0 <= j < |q| && outcomes[j] :: q[j]
  }

  /** The woken slots, and no others, are polled: a slot is emptied exactly if the wake queue names
      it at a place whose poll finishes. */
  lemma {:induction false} WokenArePolled(s: State, outcomes: seq<bool>, s': State)
    requires s.pc.PollWoken? && |outcomes| == |s.pc.queue| && Follows(s, Polls(outcomes), s')
    ensures Emptied(s, Finishing(s.pc.queue, outcomes), s') && s'.pc == PollWoken([], s.pc.woke)
    decreases |outcomes|
  {
    hide Emptied, PollSlot, Polls, Follows;
    var q := s.pc.queue;
    if q == [] {
      PollsEnd(s, s');
      Untouched(s);
      assert Finishing(q, outcomes) == {};
    } else {
      var m := LoopStep(s, outcomes[0]);
      PollsStep(s, outcomes, s');
      KeepsPc(s, q[0], outcomes[0]);
      WokenArePolled(m, outcomes[1..], s');
      EmptiedOne(s, q[0], outcomes[0]);
      SetPc(s, if outcomes[0] then {q[0]} else {}, PollSlot(s, q[0], outcomes[0]), m.pc);
      EmptiedTrans(s, if outcomes[0] then {q[0]} else {}, m, Finishing(q[1..], outcomes[1..]), s');
      FinishingStep(q, outcomes);
    }
  }

  lemma Untouched(s: State)
    ensures Emptied(s, {}, s)
  {
  }

  lemma KeepsPc(s: State, i: nat, finished: bool)
    ensures PollSlot(s, i, finished).pc == s.pc
  {
  }

  lemma SetPc(s: State, named: set<nat>, m: State, pc: Pc)
    requires Emptied(s, named, m)
    ensures Emptied(s, named, m.(pc := pc))
  {
  }

  lemma FinishingStep(q: seq<nat>, outcomes: seq<bool>)
    requires |q| == |outcomes| > 0
    ensures Finishing(q, outcomes) == (if outcomes[0] then {q[0]} else {}) + Finishing(q[1..], outcomes[1..])
  {
    var first := if outcomes[0] then {q[0]} else {};
    forall x
      ensures x in Finishing(q, outcomes) <==> x in first + Finishing(q[1..], outcomes[1..])
    {
      if j :| 0 <= j < |q| && outcomes[j] && q[j] == x {
        if j > 0 {
          assert q[1..][j - 1] == x && outcomes[1..][j - 1];
        }
      }
      if k :| 0 <= k < |q[1..]| && outcomes[1..][k] && q[1..][k] == x {
        assert q[k + 1] == x && outcomes[k + 1];
      }
    }
  }

  /** From the moment the loop takes the wake queue: exactly the named slots are polled, and the
      queue is empty afterwards. */
  lemma TakenArePolled(s: State, first: bool, outcomes: seq<bool>, s': State)
    requires s.pc.TakeQueue? && |outcomes| == |s.wakeQueue| && Follows(s, Polls([first] + outcomes), s')
    ensures Emptied(s.(wakeQueue := []), Finishing(s.wakeQueue, outcomes), s')
    ensures s'.pc == PollWoken([], s.wakeQueue != [])
  {
    PollsStep(s, [first] + outcomes, s');
    assert ([first] + outcomes)[1..] == outcomes;
    var m := LoopStep(s, first);
    assert m == s.(wakeQueue := [], pc := PollWoken(s.wakeQueue, s.wakeQueue != []));
    WokenArePolled(m, outcomes, s');
    hide Follows, Polls, LoopStep, Finishing;
  }

  /** A wake call that ends before the loop takes the queue gets its slot polled: whatever task is
      in the slot is completed if its poll finishes. */
  lemma WakeReachesSlot(s: State, w: nat, i: nat, t: Task, first: bool, outcomes: seq<bool>, s': State)
    requires s.pc.TakeQueue? && Enabled(s, Push(w, i)) && i < |s.slots| && s.slots[i] == Some(t)
    requires |outcomes| == |s.wakeQueue| + 1 && outcomes[|s.wakeQueue|]
    requires Follows(Apply(s, Push(w, i)), Polls([first] + outcomes), s')
    ensures i < |s'.slots| && s'.slots[i].None? && t in s'.done
  {
    var m := Apply(s, Push(w, i));
    assert m.wakeQueue[|s.wakeQueue|] == i && |m.wakeQueue| == |outcomes|;
    assert i in Finishing(m.wakeQueue, outcomes);
    hide Follows, Polls, Finishing;
    TakenArePolled(m, first, outcomes, s');
  }

  /** The slots from `from` on whose poll finishes. */
  function Finished(from: nat, outcomes: seq<bool>): (named: set<nat>)
  {
    set j | 0 <= j < |outcomes| && outcomes[j] :: from + j
  }

  /** `poll_all` polls every slot, in order: a slot is emptied exactly if its poll finishes. */
  lemma {:induction false} AllArePolled(s: State, outcomes: seq<bool>, s': State)
    requires s.pc.PollAll? && s.pc.next + |outcomes| == |s.slots| && Follows(s, Polls(outcomes), s')
    ensures Emptied(s, Finished(s.pc.next, outcomes), s') && s'.pc == PollAll(|s.slots|)
    decreases |outcomes|
  {
    hide Emptied, PollSlot, Polls, Follows;
    var i := s.pc.next;
    if outcomes == [] {
      PollsEnd(s, s');
      Untouched(s);
      assert Finished(i, []) == {};
    } else {
      var m := LoopStep(s, outcomes[0]);
      PollsStep(s, outcomes, s');
      EmptiedOne(s, i, outcomes[0]);
      SetPc(s, if outcomes[0] then {i} else {}, PollSlot(s, i, outcomes[0]), m.pc);
      SameLength(s, if outcomes[0] then {i} else {}, m);
      AllArePolled(m, outcomes[1..], s');
      EmptiedTrans(s, if outcomes[0] then {i} else {}, m, Finished(i + 1, outcomes[1..]), s');
      FinishedStep(i, outcomes);
    }
  }

  lemma SameLength(s: State, named: set<nat>, m: State)
    requires Emptied(s, named, m)
    ensures |m.slots| == |s.slots|
  {
  }

  lemma FinishedStep(i: nat, outcomes: seq<bool>)
    requires outcomes != []
    ensures Finished(i, outcomes) == (if outcomes[0] then {i} else {}) + Finished(i + 1, outcomes[1..])
  {
    forall x
      ensures x in Finished(i, outcomes) <==> x in (if outcomes[0] then {i} else {}) + Finished(i + 1, outcomes[1..])
    {
      if j :| 0 <= j < |outcomes| && outcomes[j] && i + j == x {
        if j > 0 {
          assert outcomes[1..][j - 1] && i + 1 + (j - 1) == x;
        }
      }
      if k :| 0 <= k < |outcomes[1..]| && outcomes[1..][k] && i + 1 + k == x {
        assert outcomes[k + 1] && i + (k + 1) == x;
      }
    }
  }

  /** `push_task`: the first queued task is polled once, in the first empty slot; it stays there, or
      is completed and leaves that slot empty, and no other slot changes. */
  lemma NewIsPolled(s: State, first: bool, finished: bool, s': State)
    requires s.pc.Spawning? && s.spawnQueue != [] && Follows(s, Polls([first, finished]), s')
    ensures var t, i := s.spawnQueue[0], FirstFree(s.slots);
            && |s'.slots| == (if i == |s.slots| then i + 1 else |s.slots|)
            && s'.slots[i] == (if finished then None else Some(t))
            && (forall j :: 0 <= j < |s.slots| && j != i ==> s'.slots[j] == s.slots[j])
            && s'.done == (if finished then s.done + {t} else s.done)
            && s' == s.(slots := s'.slots, done := s'.done, spawnQueue := s.spawnQueue[1..])
  {
    PollsStep(s, [first, finished], s');
    assert [first, finished][1..] == [finished];
    var m := LoopStep(s, first);
    PollsStep(m, [finished], s');
    assert [finished][1..] == [];
    PollsEnd(LoopStep(m, finished), s');
    hide Follows, Polls, FirstFree;
  }

  /** Draining the spawn queue, when every poll finishes: exactly the queued tasks are completed,
      no slot is left occupied that was not, and none is emptied. */
  lemma {:induction false} QueueIsDrained(s: State, outcomes: seq<bool>, s': State)
    requires s.pc.Spawning? && |outcomes| == 2 * |s.spawnQueue| && Follows(s, Polls(outcomes), s')
    requires forall k :: 0 <= k < |outcomes| ==> outcomes[k]
    ensures s'.spawnQueue == [] && s'.pc == s.pc && |s'.slots| >= |s.slots|
    ensures forall j :: 0 <= j < |s'.slots| ==> s'.slots[j] == if j < |s.slots| then s.slots[j] else None
    ensures forall t :: t in s'.done <==> t in s.done || t in s.spawnQueue
    ensures s' == s.(slots := s'.slots, done := s'.done, spawnQueue := [])
    decreases |outcomes|
  {
    hide Polls, Follows;
    if s.spawnQueue == [] {
      assert outcomes == [];
      PollsEnd(s, s');
    } else {
      var t, rest := s.spawnQueue[0], s.spawnQueue[1..];
      var m := LoopStep(LoopStep(s, outcomes[0]), outcomes[1]);
      TwoPolls(s, outcomes, s');
      QueueIsDrained(m, outcomes[2..], s');
      assert s.spawnQueue == [t] + rest;
      hide LoopStep, PollSlot, Place, PlaceNext;
    }
  }

  lemma TwoPolls(s: State, outcomes: seq<bool>, s': State)
    requires s.pc.Spawning? && s.spawnQueue != [] && |outcomes| >= 2 && outcomes[0] && outcomes[1]
    requires Follows(s, Polls(outcomes), s')
    ensures LoopStep(s, true).pc != Between
    ensures var m := LoopStep(LoopStep(s, true), true);
            && Follows(m, Polls(outcomes[2..]), s')
            && m.spawnQueue == s.spawnQueue[1..] && m.pc == s.pc && |m.slots| >= |s.slots|
            && (forall j :: 0 <= j < |m.slots| ==> m.slots[j] == if j < |s.slots| then s.slots[j] else None)
            && m.done == s.done + {s.spawnQueue[0]}
            && m == s.(slots := m.slots, done := m.done, spawnQueue := s.spawnQueue[1..])
  {
    PollsStep(s, outcomes, s');
    PollsStep(LoopStep(s, true), outcomes[1..], s');
    assert outcomes[1..][1..] == outcomes[2..];
    hide Follows, Polls, FirstFree;
  }

  /** The polls in two parts. */
  lemma {:induction false} SplitPolls(s: State, a: seq<bool>, b: seq<bool>, s': State) returns (m: State)
    requires Follows(s, Polls(a + b), s')
    ensures Follows(s, Polls(a), m) && Follows(m, Polls(b), s')
    decreases |a|
  {
    hide LoopStep;
    if a == [] {
      m := s;
      assert a + b == b && Polls(a) == [];
    } else {
      PollsStep(s, a + b, s');
      assert (a + b)[0] == a[0] && (a + b)[1..] == a[1..] + b;
      m := SplitPolls(LoopStep(s, a[0]), a[1..], b, s');
      assert Polls(a)[0] == Poll(a[0]) && Polls(a)[1..] == Polls(a[1..]);
    }
  }

  /** After the last slot the whole spawn queue is placed and polled, and then the loop registers
      its waker once and is about to take the wake queue. */
  lemma AfterAllSlots(s: State, first: bool, outcomes: seq<bool>, last: bool, register: bool, s': State)
    requires s.pc == PollAll(|s.slots|) && |outcomes| == 2 * |s.spawnQueue|
    requires forall k :: 0 <= k < |outcomes| ==> outcomes[k]
    requires Follows(s, Polls([first] + (outcomes + [last, register])), s')
    ensures s'.pc == TakeQueue && s'.registered == s.registered + 1 && s'.spawnQueue == []
    ensures forall t :: t in s'.done <==> t in s.done || t in s.spawnQueue
  {
    PollsStep(s, [first] + (outcomes + [last, register]), s');
    assert ([first] + (outcomes + [last, register]))[1..] == outcomes + [last, register];
    var a := LoopStep(s, first);
    var b := SplitPolls(a, outcomes, [last, register], s');
    QueueIsDrained(a, outcomes, b);
    PollsStep(b, [last, register], s');
    assert [last, register][1..] == [register];
    PollsStep(LoopStep(b, last), [register], s');
    assert [register][1..] == [];
    PollsEnd(LoopStep(LoopStep(b, last), register), s');
    hide Follows, Polls;
  }

  /** After the woken slots, if there were any, what was spawned meanwhile is placed and polled too;
      then the poll is over. */
  lemma AfterWoken(s: State, first: bool, outcomes: seq<bool>, last: bool, s': State)
    requires s.pc == PollWoken([], true) && |outcomes| == 2 * |s.spawnQueue|
    requires forall k :: 0 <= k < |outcomes| ==> outcomes[k]
    requires Follows(s, Polls([first] + (outcomes + [last])), s')
    ensures s'.pc == Between && s'.spawnQueue == [] && s'.registered == s.registered
    ensures forall t :: t in s'.done <==> t in s.done || t in s.spawnQueue
  {
    PollsStep(s, [first] + (outcomes + [last]), s');
    assert ([first] + (outcomes + [last]))[1..] == outcomes + [last];
    var a := LoopStep(s, first);
    var b := SplitPolls(a, outcomes, [last], s');
    QueueIsDrained(a, outcomes, b);
    PollsStep(b, [last], s');
    assert [last][1..] == [];
    PollsEnd(LoopStep(b, last), s');
    hide Follows, Polls;
  }

  /** When nobody was woken the poll is over, and nothing has changed. */
  lemma NothingWoken(s: State, first: bool, last: bool, s': State)
    requires s.pc == TakeQueue && s.wakeQueue == [] && Follows(s, Polls([first, last]), s')
    ensures s' == s.(pc := Between)
  {
    PollsStep(s, [first, last], s');
    assert [first, last][1..] == [last];
    PollsStep(LoopStep(s, first), [last], s');
    assert [last][1..] == [];
    PollsEnd(LoopStep(LoopStep(s, first), last), s');
    hide Follows, Polls;
  }

  // ---- outer wakers ----

  function Left(wakers: seq<WakerPc>): nat
  {
    if wakers == [] then 0 else (if wakers[0].Draining? then wakers[0].left else 0) + Left(wakers[1..])
  }

  lemma {:induction false} LeftUpdate(wakers: seq<WakerPc>, w: nat, pc: WakerPc)
    requires w < |wakers|
    ensures Left(wakers[w := pc]) + (if wakers[w].Draining? then wakers[w].left else 0)
         == Left(wakers) + (if pc.Draining? then pc.left else 0)
    decreases |wakers|
  {
    var wakers' := wakers[w := pc];
    if w == 0 {
      assert wakers'[1..] == wakers[1..];
    } else {
      assert wakers'[1..] == wakers[1..][w - 1 := pc];
      LeftUpdate(wakers[1..], w - 1, pc);
    }
  }

  /** How often the loop registered its waker, and how often it was called, in the first `n` steps. */
  function Registrations(states: seq<State>, actions: seq<Action>, n: nat): nat
    requires n <= |actions| < |states|
  {
    if n == 0 then 0
    else Registrations(states, actions, n - 1) + if actions[n - 1].Poll? && states[n - 1].pc.Register? then 1 else 0
  }

  function Calls(actions: seq<Action>, n: nat): nat
    requires n <= |actions|
  {
    if n == 0 then 0 else Calls(actions, n - 1) + if actions[n - 1].WakeOuter? then 1 else 0
  }

  lemma OuterStep(s: State, a: Action)
    requires Enabled(s, a)
    ensures var s' := Apply(s, a);
            s'.registered + Left(s'.wakers) + (if a.WakeOuter? then 1 else 0)
              == s.registered + Left(s.wakers) + (if a.Poll? && s.pc.Register? then 1 else 0)
  {
    if a.Push? || a.BeginDrain? || a.WakeOuter? || a.EndDrain? {
      LeftUpdate(s.wakers, a.waker, Apply(s, a).wakers[a.waker]);
    } else if a.Poll? {
      LoopKeepsWakers(s, a.finished);
    }
    hide Left, PollSlot, PlaceNext;
  }

  /** Every registration of the outer waker is called at most once: over every run, the
      registrations are those still in the list, those in drains under way, and the calls. */
  lemma {:induction false} OuterWakersConserved(states: seq<State>, actions: seq<Action>, n: nat)
    requires IsRun(states, actions) && n <= |actions|
    ensures Registrations(states, actions, n) == states[n].registered + Left(states[n].wakers) + Calls(actions, n)
  {
    if n == 0 {
      NoneLeft(states[0].wakers);
    } else {
      hide Apply, Enabled, Left, Init;
      OuterWakersConserved(states, actions, n - 1);
      OuterStep(states[n - 1], actions[n - 1]);
    }
  }

  lemma {:induction false} NoneLeft(wakers: seq<WakerPc>)
    requires forall w :: 0 <= w < |wakers| ==> wakers[w].Quiet?
    ensures Left(wakers) == 0
    decreases |wakers|
  {
    if wakers != [] {
      NoneLeft(wakers[1..]);
    }
  }

  // ---- polls are paid for by wake-ups ----

  /** How often the loop found the ready flag set in the first `n` steps. */
  function Started(states: seq<State>, actions: seq<Action>, n: nat): nat
    requires n <= |actions| < |states|
  {
    if n == 0 then 0
    else Started(states, actions, n - 1) + if actions[n - 1].Swap? && states[n - 1].ready then 1 else 0
  }

  lemma FlagStep(s: State, a: Action)
    requires Enabled(s, a)
    ensures Apply(s, a).ready == (a.WakeOuter? || (s.ready && !a.Swap?))
    ensures a.Swap? ==> Apply(s, a).pc == if s.ready then PollAll(0) else Between
  {
    hide Place;
  }

  /** The loop takes the flag away when it starts a poll: beyond the first poll there are never more
      polls than calls of the outer waker, and a set flag is a call not yet used. */
  lemma {:induction false} PollsArePaid(states: seq<State>, actions: seq<Action>, n: nat)
    requires IsRun(states, actions) && n <= |actions|
    ensures Started(states, actions, n) + (if states[n].ready then 1 else 0) <= 1 + Calls(actions, n)
  {
    if n > 0 {
      PollsArePaid(states, actions, n - 1);
      hide Apply, Enabled;
      FlagStep(states[n - 1], actions[n - 1]);
    }
  }
}
