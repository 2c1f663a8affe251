/** The executor of one hart, with its fields updated in place.  Every poll of its handle is a
    run of the transition system of module `Executor`, with the wake calls that tasks make
    while they are polled in between. */
module LocalExecutor {
  import opened Options
  import opened Executor

  /** `s'` is reached from `s` by the actions `acts`, each enabled in turn. */
  ghost predicate Follows(s: State, acts: seq<Action>, s': State)
    decreases |acts|
  {
    if acts == [] then s' == s
    else Enabled(s, acts[0]) && Follows(Apply(s, acts[0]), acts[1..], s')
  }

  lemma {:induction false} FollowsTrans(s: State, a: seq<Action>, m: State, b: seq<Action>, t: State)
    requires Follows(s, a, m) && Follows(m, b, t)
    ensures Follows(s, a + b, t)
    decreases |a|
  {
    hide Enabled, Apply;
    if a == [] {
      assert a + b == b;
    } else {
      assert (a + b)[1..] == a[1..] + b;
      FollowsTrans(Apply(s, a[0]), a[1..], m, b, t);
    }
  }

  lemma FollowsOne(s: State, a: Action)
    requires Enabled(s, a)
    ensures Follows(s, [a], Apply(s, a))
  {
    assert [a][1..] == [];
    assert Follows(Apply(s, a), [], Apply(s, a));
  }

  function Repeat(a: Action, n: nat): seq<Action>
  {
    if n == 0 then [] else [a] + Repeat(a, n - 1)
  }

  /** Calling `n` outer wakers one after the other. */
  lemma {:induction false} WakeAll(s: State, n: nat)
    requires |s.wakers| == 1 && s.wakers[0] == Draining(n)
    ensures Follows(s, Repeat(WakeOuter(0), n), s.(ready := s.ready || n > 0, wakers := [Draining(0)]))
    decreases n
  {
    if n == 0 {
      assert s.wakers == [Draining(0)];
    } else {
      var a := WakeOuter(0);
      var m := Apply(s, a);
      assert Repeat(a, n)[1..] == Repeat(a, n - 1);
      assert m.wakers == [Draining(n - 1)];
      WakeAll(m, n - 1);
    }
  }

  /** One whole wake call. */
  function WakeCall(s: State, index: nat): State
  {
    s.(wakeQueue := s.wakeQueue + [index], ready := s.ready || s.registered > 0, registered := 0)
  }

  lemma WakeCallFollows(s: State, index: nat) returns (acts: seq<Action>)
    requires s.wakers == [Quiet]
    ensures Follows(s, acts, WakeCall(s, index))
  {
    var push, begin, fin := Push(0, index), BeginDrain(0), EndDrain(0);
    FollowsOne(s, push);
    var s1 := Apply(s, push);
    FollowsOne(s1, begin);
    var s2 := Apply(s1, begin);
    assert s2.wakers == [Draining(s.registered)];
    WakeAll(s2, s.registered);
    var s3 := s2.(ready := s2.ready || s.registered > 0, wakers := [Draining(0)]);
    FollowsOne(s3, fin);
    assert Apply(s3, fin) == WakeCall(s, index);
    hide *;
    FollowsTrans(s2, Repeat(WakeOuter(0), s.registered), s3, [fin], Apply(s3, fin));
    FollowsTrans(s1, [begin], s2, Repeat(WakeOuter(0), s.registered) + [fin], Apply(s3, fin));
    acts := [push] + ([begin] + (Repeat(WakeOuter(0), s.registered) + [fin]));
    FollowsTrans(s, [push], s1, [begin] + (Repeat(WakeOuter(0), s.registered) + [fin]), Apply(s3, fin));
  }

  class LocalExecutor {
    var tasks: seq<Option<Task>>
    var wakers: nat
    var wakeQueue: seq<nat>
    var taskQueue: seq<Task>
    var ready: bool
    var spawned: nat                       // names the next task
    ghost var done: set<Task>

    constructor ()
      ensures Init(View(Between))
    {
      tasks, wakers, wakeQueue, taskQueue, ready := [], 0, [], [], true;
      spawned, done := 0, {};
    }

    /** The fields as a state of the transition system, with the loop at `pc`. */
    ghost function View(pc: Pc): State
      reads this
    {
      State(tasks, taskQueue, wakeQueue, wakers, ready, pc, [Quiet], spawned, done)
    }

    /** `LocalWaker::rc_wake_by_ref`. */
    method Wake(index: nat, ghost pc: Pc) returns (ghost acts: seq<Action>)
      modifies `wakers, `wakeQueue, `ready
      ensures Follows(old(View(pc)), acts, View(pc)) && View(pc) == WakeCall(old(View(pc)), index)
      ensures wakeQueue == old(wakeQueue) + [index] && wakers == 0 && ready == (old(ready) || old(wakers) > 0)
    {
      acts := WakeCallFollows(View(pc), index);
      wakeQueue := wakeQueue + [index];
      if wakers > 0 {
        ready := true;
      }
      wakers := 0;
    }

    /** `LocalExecutorHandle::spawn`, which needs the spawn queue free. */
    method Spawn(ghost pc: Pc) returns (ghost acts: seq<Action>)
      requires !pc.Spawning? && !pc.PollNew?
      modifies `taskQueue, `spawned
      ensures acts == [Action.Spawn] && Follows(old(View(pc)), acts, View(pc))
    {
      acts := [Action.Spawn];
      FollowsOne(View(pc), Action.Spawn);
      taskQueue := taskQueue + [spawned];
      spawned := spawned + 1;
    }

    /** The poll of a task: it may wake any slots, may spawn unless the spawn queue is
        borrowed, and finishes or not. */
    method PollTask(borrowed: bool, ghost pc: Pc) returns (finished: bool, ghost acts: seq<Action>)
      requires borrowed == (pc.Spawning? || pc.PollNew?)
      modifies `wakers, `wakeQueue, `ready, `taskQueue, `spawned
      ensures Follows(old(View(pc)), acts, View(pc))
      ensures borrowed ==> taskQueue == old(taskQueue)
    {
      acts := [];
      var effects: seq<Option<nat>> := *;
      for i := 0 to |effects|
        invariant Follows(old(View(pc)), acts, View(pc))
        invariant borrowed ==> taskQueue == old(taskQueue)
      {
        label Before:
        ghost var more := [];
        if effects[i].Some? {
          more := Wake(effects[i].value, pc);
        } else if !borrowed {
          more := Spawn(pc);
        }
        FollowsTrans(old(View(pc)), acts, old@Before(View(pc)), more, View(pc));
        acts := acts + more;
      }
      finished := *;
    }

    /** `poll_future`, taking the loop from `pc` to `pc'`. */
    method PollFuture(index: nat, borrowed: bool, ghost pc: Pc, ghost pc': Pc) returns (ghost acts: seq<Action>)
      requires pc != Between && borrowed == (pc.Spawning? || pc.PollNew?)
      requires forall s: State, f: bool ::
              s.pc == pc && s.slots == tasks ==> LoopStep(s, f) == PollSlot(s, index, f).(pc := pc')
      modifies this
      ensures Follows(old(View(pc)), acts, View(pc')) && |tasks| == |old(tasks)|
      ensures borrowed ==> taskQueue == old(taskQueue)
    {
      acts := [];
      var finished := false;
      if index < |tasks| && tasks[index].Some? {
        finished, acts := PollTask(borrowed, pc);
      }
      ghost var mid := View(pc);
      FollowsOne(mid, Poll(finished));
      FollowsTrans(old(View(pc)), acts, mid, [Poll(finished)], Apply(mid, Poll(finished)));
      acts := acts + [Poll(finished)];
      if finished {
        done := done + {tasks[index].value};
        tasks := tasks[index := None];
      }
      assert View(pc') == Apply(mid, Poll(finished));
    }

    /** `poll_all`. */
    method PollEvery() returns (ghost acts: seq<Action>)
      modifies this
      ensures Follows(old(View(PollAll(0))), acts, View(Spawning(false)))
    {
      acts := [];
      for i := 0 to |tasks|
        invariant |tasks| == |old(tasks)|
        invariant Follows(old(View(PollAll(0))), acts, View(PollAll(i)))
      {
        label Before:
        ghost var more := PollFuture(i, false, PollAll(i), PollAll(i + 1));
        FollowsTrans(old(View(PollAll(0))), acts, old@Before(View(PollAll(i))), more, View(PollAll(i + 1)));
        acts := acts + more;
      }
      acts := Onward(old(View(PollAll(0))), acts, View(PollAll(|tasks|)), View(Spawning(false)));
    }

    /** `push_task`. */
    method PushTask(task: Task, ghost again: bool) returns (index: nat, ghost acts: seq<Action>)
      modifies this
      ensures taskQueue == old(taskQueue)
      ensures index == FirstFree(old(tasks))
      ensures Follows(old(View(Spawning(again)).(spawnQueue := [task] + taskQueue)), acts, View(Spawning(again)))
    {
      index := 0;
      while index < |tasks| && tasks[index].Some?
        invariant index <= |tasks| && forall j :: 0 <= j < index ==> tasks[j].Some?
      {
        index := index + 1;
      }
      if index < |tasks| {
        tasks := tasks[index := Some(task)];
      } else {
        tasks := tasks + [Some(task)];
      }
      ghost var s, s' := old(View(Spawning(again)).(spawnQueue := [task] + taskQueue)), View(PollNew(index, again));
      assert s.spawnQueue[1..] == taskQueue;
      acts := Onward(s, [], s, s');
      ghost var more := PollFuture(index, true, PollNew(index, again), Spawning(again));
      FollowsTrans(s, acts, s', more, View(Spawning(again)));
      acts := acts + more;
    }

    /** A drain of the spawn queue into the slots. */
    method PushQueued(ghost again: bool) returns (ghost acts: seq<Action>)
      modifies this
      ensures taskQueue == []
      ensures Follows(old(View(Spawning(again))), acts, View(Spawning(again)))
    {
      acts := [];
      while taskQueue != []
        invariant Follows(old(View(Spawning(again))), acts, View(Spawning(again)))
        decreases |taskQueue|
      {
        label Before:
        var task := taskQueue[0];
        taskQueue := taskQueue[1..];
        assert [task] + taskQueue == old@Before(taskQueue);
        ghost var more;
        var index;
        index, more := PushTask(task, again);
        FollowsTrans(old(View(Spawning(again))), acts, old@Before(View(Spawning(again))), more, View(Spawning(again)));
        acts := acts + more;
      }
    }

    /** `wake_pending`. */
    method WakePending() returns (empty: bool, ghost acts: seq<Action>)
      modifies this
      ensures empty == (old(wakeQueue) == [])
      ensures Follows(old(View(TakeQueue)), acts, View(PollWoken([], !empty)))
    {
      var q := wakeQueue;
      empty := q == [];
      wakeQueue := [];
      acts := Onward(old(View(TakeQueue)), [], old(View(TakeQueue)), View(PollWoken(q, !empty)));
      for i := 0 to |q|
        invariant Follows(old(View(TakeQueue)), acts, View(PollWoken(q[i..], !empty)))
      {
        label Before:
        ghost var pc, pc' := PollWoken(q[i..], !empty), PollWoken(q[i + 1..], !empty);
        assert q[i..][1..] == q[i + 1..];
        ghost var more := PollFuture(q[i], false, pc, pc');
        FollowsTrans(old(View(TakeQueue)), acts, old@Before(View(pc)), more, View(pc'));
        acts := acts + more;
      }
      assert q[|q|..] == [];
    }

    /** The poll of `LocalExecutorHandle`: a run of the transition system from the first poll
        of a slot back to the place between polls. */
    method PollHandle() returns (ghost acts: seq<Action>)
      modifies this
      ensures Follows(old(View(PollAll(0))), acts, View(Between))
    {
      ghost var s := old(View(PollAll(0)));
      acts := PollEvery();
      acts := PollHandleRest(s, acts);
    }

    /** The same poll from the first drain of the spawn queue on. */
    method PollHandleRest(ghost s: State, ghost before: seq<Action>) returns (ghost acts: seq<Action>)
      requires Follows(s, before, View(Spawning(false)))
      modifies this
      ensures Follows(s, acts, View(Between))
    {
      ghost var m := View(Spawning(false));
      ghost var more := PushQueued(false);
      FollowsTrans(s, before, m, more, View(Spawning(false)));
      m := View(Spawning(false));
      acts := Onward(s, before + more, m, View(Register));
      m := View(Register);
      wakers := wakers + 1;
      acts := Onward(s, acts, m, View(TakeQueue));
      m := View(TakeQueue);
      var empty;
      empty, more := WakePending();
      FollowsTrans(s, acts, m, more, View(PollWoken([], !empty)));
      acts := acts + more;
      m := View(PollWoken([], !empty));
      if !empty {
        acts := Onward(s, acts, m, View(Spawning(true)));
        m := View(Spawning(true));
        more := PushQueued(true);
        FollowsTrans(s, acts, m, more, View(Spawning(true)));
        acts := acts + more;
        m := View(Spawning(true));
      }
      acts := Onward(s, acts, m, View(Between));
    }

    /** Between polls every spawned task is in exactly one place, and no wake-up is lost: work
        in the wake queue means that the ready flag is set. */
    ghost predicate Valid()
      reads this
    {
      && WakeInv(View(Between)) && Accounted(View(Between))
      && (wakeQueue != [] ==> ready)
      && (ready || wakers > 0)
    }

    /** One turn of `run_neverending_future`: poll if the flag is set, otherwise idle. */
    method Turn() returns (polled: bool, ghost acts: seq<Action>)
      requires Valid()
      modifies this
      ensures Valid() && polled == old(ready) && Follows(old(View(Between)), acts, View(Between))
      ensures !polled ==> View(Between) == old(View(Between))
    {
      polled := ready;
      acts := [];
      if ready {
        ready := false;
        acts := [Swap];
        ghost var m := View(PollAll(0));
        FollowsOne(old(View(Between)), Swap);
        ghost var more := PollHandle();
        FollowsTrans(old(View(Between)), acts, m, more, View(Between));
        acts := acts + more;
      }
      FollowsKeeps(old(View(Between)), acts, View(Between));
      OneWaker(View(Between));
    }

    /** A spawn between polls. */
    method SpawnBetween()
      requires Valid()
      modifies this
      ensures Valid() && View(Between) == Apply(old(View(Between)), Action.Spawn)
      ensures taskQueue == old(taskQueue) + [old(spawned)] && spawned == old(spawned) + 1
    {
      ghost var acts := Spawn(Between);
      FollowsKeeps(old(View(Between)), acts, View(Between));
      assert Follows(Apply(old(View(Between)), acts[0]), acts[1..], View(Between));
      OneWaker(View(Between));
    }

    /** A wake call between polls always leaves the ready flag set. */
    method WakeBetween(index: nat)
      requires Valid()
      modifies this
      ensures Valid() && ready && View(Between) == WakeCall(old(View(Between)), index)
      ensures wakeQueue == old(wakeQueue) + [index] && wakers == 0
    {
      ghost var acts := Wake(index, Between);
      FollowsKeeps(old(View(Between)), acts, View(Between));
      OneWaker(View(Between));
    }
  }

  /** Both run invariants hold along any actions. */
  lemma {:induction false} FollowsKeeps(s: State, acts: seq<Action>, s': State)
    requires Follows(s, acts, s') && WakeInv(s) && Accounted(s)
    ensures WakeInv(s') && Accounted(s')
    decreases |acts|
  {
    hide WakeInv, Accounted, Apply, Enabled;
    if acts != [] {
      WakeStep(s, acts[0]);
      TaskStep(s, acts[0]);
      FollowsKeeps(Apply(s, acts[0]), acts[1..], s');
    }
  }

  lemma OneWaker(s: State)
    requires WakeInv(s) && s.pc == Between && s.wakers == [Quiet]
    ensures (s.wakeQueue != [] ==> s.ready) && (s.ready || s.registered > 0)
  {
  }

  /** One more step of the loop that polls no task. */
  lemma Onward(s: State, before: seq<Action>, m: State, m': State) returns (acts: seq<Action>)
    requires Follows(s, before, m) && m.pc != Between && LoopStep(m, false) == m'
    ensures Follows(s, acts, m')
  {
    acts := before + [Poll(false)];
    FollowsOne(m, Poll(false));
    hide Follows;
    FollowsTrans(s, before, m, [Poll(false)], m');
  }
}
