/** Whole operations on the locks that disable interrupts: what a lock, an attempt and an unlock of
    one hart do when nothing else runs meanwhile, in numbers. */
module SharedOperations {
  import opened Options
  import opened RwGuards
  import opened SharedLocks

  /** The state after some actions, if each is enabled in turn. */
  function Outcome(s: State, acts: seq<Action>): Option<State>
    decreases |acts|
  {
    if acts == [] then Some(s)
    else if Enabled(s, acts[0]) then Outcome(Apply(s, acts[0]), acts[1..])
    else None
  }

  lemma {:induction false} OutcomeTrans(s: State, a: seq<Action>, b: seq<Action>)
    requires Outcome(s, a).Some?
    ensures Outcome(s, a + b) == Outcome(Outcome(s, a).value, b)
    decreases |a|
  {
    hide Enabled, Apply;
    if a == [] {
      assert a + b == b;
    } else {
      assert (a + b)[1..] == a[1..] + b;
      OutcomeTrans(Apply(s, a[0]), a[1..], b);
    }
  }

  lemma OutcomeOne(s: State, a: Action)
    requires Enabled(s, a)
    ensures Outcome(s, [a]) == Some(Apply(s, a))
  {
    assert [a][1..] == [];
    hide Enabled, Apply;
  }

  lemma Then(s: State, acts: seq<Action>, m: State, a: Action) returns (acts': seq<Action>)
    requires Outcome(s, acts) == Some(m) && Enabled(m, a)
    ensures Outcome(s, acts') == Some(Apply(m, a)) && acts' == acts + [a]
  {
    acts' := acts + [a];
    hide *;
    OutcomeTrans(s, acts, [a]);
    OutcomeOne(m, a);
  }

  /** The count vector with an entry for hart `i`, other entries as before. */
  predicate Lengthened(counts: seq<nat>, i: nat, counts': seq<nat>)
  {
    && |counts'| == (if i < |counts| then |counts| else i + 1)
    && forall j :: 0 <= j < |counts'| ==> counts'[j] == if j < |counts| then counts[j] else 0
  }

  /** The guards of a lock after one more of a kind. */
  predicate OneMore(g: Guards, k: Kind, g': Guards)
  {
    match k
    case Shared => g' == Guards(g.readers + 1, 0) && g.writers == 0
    case Exclusive => g' == Guards(0, 1) && g == Guards(0, 0)
  }

  /** A hart that runs no operation and no handler. */
  predicate AtRest(s: State, i: nat)
  {
    i < |s.harts| && s.harts[i].pc.Idle? && !s.harts[i].handler
  }

  /** Who owns what after hart `i` has taken `g`: the hart one guard more, with `sie` clear and its
      count raised; the lock one guard more, of that kind; nothing else changed. */
  ghost predicate Took(s: State, i: nat, g: Guard, s': State)
    requires AtRest(s, i) && g.lock < |s.locks|
  {
    var h := s.harts[i];
    && s'.harts == s.harts[i := h.(sie := 0, held := h.held + multiset{g})]
    && |s'.locks| == |s.locks| && OneMore(s.locks[g.lock], g.kind, s'.locks[g.lock])
    && (forall l :: 0 <= l < |s.locks| && l != g.lock ==> s'.locks[l] == s.locks[l])
    && i < |s'.counts| && s'.counts[i] > 0 && Lengthened(s.counts, i, s'.counts[i := s'.counts[i] - 1])
  }

  // The single steps of an operation.

  lemma Begins(s: State, i: nat, g: Guard, blocking: bool)
    requires AtRest(s, i) && g.lock < |s.locks| && (blocking || Admits(s.locks[g.lock], g.kind))
    ensures var a := if blocking then Lock(i, g) else TryLock(i, g);
            && Enabled(s, a)
            && Apply(s, a).harts == s.harts[i := s.harts[i].(pc := Disabling(g, blocking))]
            && Apply(s, a).counts == s.counts
            && Apply(s, a).locks == if blocking then s.locks
                                    else s.locks[g.lock := Added(s.locks[g.lock], g.kind)]
  {
    hide Counted, Added, Removed;
  }

  lemma Clears(s: State, i: nat)
    requires i < |s.harts| && s.harts[i].pc.Disabling? && !s.harts[i].handler
    ensures var h := s.harts[i];
            Enabled(s, Step(i)) && Apply(s, Step(i))
              == s.(harts := s.harts[i := h.(sie := 0, pc := Growing(h.pc.guard, h.pc.waits))])
  {
    hide Admits, Added, Removed;
  }

  lemma Grows(s: State, i: nat)
    requires i < |s.harts| && s.harts[i].pc.Growing? && !s.harts[i].handler
    ensures var h := s.harts[i];
            Enabled(s, Step(i)) && Apply(s, Step(i))
              == s.(harts := s.harts[i := h.(pc := if i < |s.counts| then Counting(h.pc.guard, h.pc.waits)
                                                   else Resizing(h.pc.guard, h.pc.waits))])
  {
    hide Admits, Added, Removed;
  }

  lemma Resizes(s: State, i: nat)
    requires i < |s.harts| && s.harts[i].pc.Resizing? && !s.harts[i].handler
    ensures var h := s.harts[i];
            Enabled(s, Step(i)) && Apply(s, Step(i))
              == s.(harts := s.harts[i := h.(pc := Counting(h.pc.guard, h.pc.waits))],
                    counts := Resized(s.counts, i + 1))
  {
    hide Admits, Added, Removed, Resized;
  }

  lemma Counts(s: State, i: nat)
    requires i < |s.harts| && s.harts[i].pc.Counting? && !s.harts[i].handler && i < |s.counts|
    ensures var h, g := s.harts[i], s.harts[i].pc.guard;
            Enabled(s, Step(i)) && Apply(s, Step(i))
              == s.(harts := s.harts[i := if h.pc.waits then h.(pc := Spinning(g))
                                          else h.(pc := Idle, held := h.held + multiset{g})],
                    counts := s.counts[i := s.counts[i] + 1])
  {
    hide Admits, Added, Removed, Resized;
  }

  lemma Enters(s: State, i: nat)
    requires i < |s.harts| && s.harts[i].pc.Spinning? && !s.harts[i].handler
    requires var g := s.harts[i].pc.guard; g.lock < |s.locks| && Admits(s.locks[g.lock], g.kind)
    ensures var h, g := s.harts[i], s.harts[i].pc.guard;
            Enabled(s, Step(i)) && Apply(s, Step(i))
              == s.(harts := s.harts[i := h.(pc := Idle, held := h.held + multiset{g})],
                    locks := s.locks[g.lock := Added(s.locks[g.lock], g.kind)])
  {
    hide Added, Removed, Resized;
  }

  /** From clearing `sie` to the point where the count can be raised. */
  lemma Prepare(s: State, i: nat) returns (acts: seq<Action>, t: State)
    requires i < |s.harts| && s.harts[i].pc.Disabling? && !s.harts[i].handler
    ensures Outcome(s, acts) == Some(t) && forall a :: a in acts ==> a == Step(i)
    ensures var h := s.harts[i];
            && t.harts == s.harts[i := h.(sie := 0, pc := Counting(h.pc.guard, h.pc.waits))]
            && t.locks == s.locks && Lengthened(s.counts, i, t.counts) && i < |t.counts|
  {
    hide Outcome, Apply, Enabled;
    Clears(s, i);
    var s1 := Apply(s, Step(i));
    Grows(s1, i);
    t := Apply(s1, Step(i));
    OutcomeOne(s, Step(i));
    acts := Then(s, [Step(i)], s1, Step(i));
    if i >= |s.counts| {
      Resizes(t, i);
      acts := Then(s, acts, t, Step(i));
      t := Apply(t, Step(i));
    }
  }

  lemma TookBy(s: State, i: nat, g: Guard, counts: seq<nat>, s': State)
    requires AtRest(s, i) && g.lock < |s.locks| && Admits(s.locks[g.lock], g.kind)
    requires Lengthened(s.counts, i, counts) && i < |counts|
    requires s'.harts == s.harts[i := s.harts[i].(sie := 0, held := s.harts[i].held + multiset{g})]
    requires s'.locks == s.locks[g.lock := Added(s.locks[g.lock], g.kind)]
    requires s'.counts == counts[i := counts[i] + 1]
    ensures Took(s, i, g, s')
  {
    assert s'.counts[i := s'.counts[i] - 1] == counts;
  }

  /** A lock that is free for the guard: the hart runs through the whole operation and has it. */
  lemma WholeLock(s: State, i: nat, g: Guard) returns (acts: seq<Action>, s': State)
    requires AtRest(s, i) && g.lock < |s.locks| && Admits(s.locks[g.lock], g.kind)
    ensures Outcome(s, [Lock(i, g)] + acts) == Some(s') && forall a :: a in acts ==> a == Step(i)
    ensures Took(s, i, g, s')
  {
    hide Outcome, Apply, Enabled, Took, Lengthened, Admits, Added;
    Begins(s, i, g, true);
    OutcomeOne(s, Lock(i, g));
    var s1 := Apply(s, Lock(i, g));
    var more, s2 := Prepare(s1, i);
    Counts(s2, i);
    var s3 := Apply(s2, Step(i));
    Enters(s3, i);
    s' := Apply(s3, Step(i));
    var last := Then(s1, more, s2, Step(i));
    acts := Then(s1, last, s3, Step(i));
    OutcomeTrans(s, [Lock(i, g)], acts);
    TookBy(s, i, g, s2.counts, s');
  }

  /** An attempt: it takes the guard in the same way, or is refused and changes nothing. */
  lemma WholeTryLock(s: State, i: nat, g: Guard) returns (acts: seq<Action>, s': State)
    requires AtRest(s, i) && g.lock < |s.locks|
    ensures Outcome(s, [TryLock(i, g)] + acts) == Some(s') && forall a :: a in acts ==> a == Step(i)
    ensures var r, w := s.locks[g.lock].readers, s.locks[g.lock].writers;
            if w == 0 && (r == 0 || g.kind.Shared?) then Took(s, i, g, s') else s' == s && acts == []
  {
    if Admits(s.locks[g.lock], g.kind) {
      acts, s' := Granted(s, i, g);
    } else {
      acts, s' := [], s;
      OutcomeOne(s, TryLock(i, g));
      assert [TryLock(i, g)] + [] == [TryLock(i, g)];
    }
    hide Took, Outcome;
  }

  lemma Granted(s: State, i: nat, g: Guard) returns (acts: seq<Action>, s': State)
    requires AtRest(s, i) && g.lock < |s.locks| && Admits(s.locks[g.lock], g.kind)
    ensures Outcome(s, [TryLock(i, g)] + acts) == Some(s') && forall a :: a in acts ==> a == Step(i)
    ensures Took(s, i, g, s')
  {
    hide Outcome, Apply, Enabled, Took, Lengthened, Admits, Added;
    Begins(s, i, g, false);
    OutcomeOne(s, TryLock(i, g));
    var s1 := Apply(s, TryLock(i, g));
    var more, s2 := Prepare(s1, i);
    Counts(s2, i);
    s' := Apply(s2, Step(i));
    acts := Then(s1, more, s2, Step(i));
    OutcomeTrans(s, [TryLock(i, g)], acts);
    TookBy(s, i, g, s2.counts, s');
  }

  /** A release undoes a lock: all locks, guards and counts are as before, the count vector has an
      entry for the hart, and interrupts come on again exactly if the hart owned nothing else. */
  lemma LockUnlock(s: State, i: nat, g: Guard, s': State) returns (acts: seq<Action>, t: State)
    requires AtRest(s, i) && g.lock < |s.locks| && Took(s, i, g, s')
    ensures Outcome(s', [Unlock(i, g)] + acts) == Some(t) && forall a :: a in acts ==> a == Step(i)
    ensures var c := if i < |s.counts| then s.counts[i] else 0;
            && t.harts == s.harts[i := s.harts[i].(sie := if c == 0 then 0x222 else 0)]
            && t.locks == s.locks && Lengthened(s.counts, i, t.counts)
  {
    var s1 := Apply(s', Unlock(i, g));
    OutcomeOne(s', Unlock(i, g));
    assert s1.locks == s.locks;
    assert s1.harts[i].held == s.harts[i].held;
    t := Apply(s1, Step(i));
    OutcomeOne(s1, Step(i));
    acts := [Step(i)];
    assert t.counts == s'.counts[i := s'.counts[i] - 1];
    if s'.counts[i] == 1 {
      acts := Then(s1, acts, t, Step(i));
      t := Apply(t, Step(i));
    }
    assert t.harts == s.harts[i := t.harts[i]];
    hide Outcome, Apply, Enabled;
    OutcomeTrans(s', [Unlock(i, g)], acts);
  }

  /** In a handler only the inner lock and the handler's guards change: neither `sie` nor a count. */
  lemma HandlerTakes(s: State, i: nat, g: Guard)
    requires i < |s.harts| && s.harts[i].handler && g.lock < |s.locks|
    ensures Enabled(s, HandlerTry(i, g))
    ensures var s', h := Apply(s, HandlerTry(i, g)), s.harts[i];
            if Admits(s.locks[g.lock], g.kind) then
              && s'.harts == s.harts[i := h.(handlerHeld := h.handlerHeld + multiset{g})] && s'.counts == s.counts
              && OneMore(s.locks[g.lock], g.kind, s'.locks[g.lock])
              && forall l :: 0 <= l < |s.locks| && l != g.lock ==> s'.locks[l] == s.locks[l]
            else s' == s
  {
  }
}
