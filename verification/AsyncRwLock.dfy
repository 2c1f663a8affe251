/** The reader/writer lock for futures: a waiting future leaves its waker in a list, and every
    guard that is dropped wakes the whole list. */
module AsyncRwLock {
  import opened Options
  import opened RwGuards

  /** `Refused`: a poll that did not get the lock and has not yet left its waker. */
  datatype Phase = Fresh | Refused | Pending | Done

  /** `woken`: the future's waker was called since its last poll began. */
  datatype Waiter = Waiter(kind: Kind, phase: Phase, woken: bool)

  /** `waking` and `clearing` count the guard drops before their wake loop and before their
      clearing of the list; `next` is the position of the wake loop that holds the list. */
  datatype State = State(
    guards: Guards, wakers: seq<nat>, waiters: seq<Waiter>, waking: nat, next: Option<nat>, clearing: nat)

  // ---- single accesses ----

  datatype Action =
    | Try(waiter: nat)                       // a poll begins with an attempt on the lock word
    | Register(waiter: nat)                  // and leaves its waker if that was refused
    | Release(kind: Kind)                    // the drop of a guard unlocks the word,
    | Begin                                  // takes the list,
    | WakeNext                               // wakes it one by one,
    | End                                    // lets it go,
    | Clear                                  // and takes it again to clear it
    | Cancel(waiter: nat)                    // a future is dropped

  predicate Enabled(s: State, a: Action)
  {
    match a
    case Try(f) => f < |s.waiters| && (s.waiters[f].phase.Fresh? || s.waiters[f].phase.Pending?)
    case Register(f) => s.next.None? && f < |s.waiters| && s.waiters[f].phase.Refused?
    case Release(k) => Holds(s.guards, k)
    case Begin => s.next.None? && s.waking > 0
    case WakeNext => s.next.Some? && s.next.value < |s.wakers|
    case End => s.next.Some? && s.next.value >= |s.wakers|
    case Clear => s.next.None? && s.clearing > 0
    case Cancel(f) => f < |s.waiters| && (s.waiters[f].phase.Fresh? || s.waiters[f].phase.Pending?)
  }

  function Wake(waiters: seq<Waiter>, f: nat): (r: seq<Waiter>)
    ensures |r| == |waiters|
    ensures forall g :: 0 <= g < |r| ==> r[g] == if g == f then waiters[g].(woken := true) else waiters[g]
  {
    if f < |waiters| then waiters[f := waiters[f].(woken := true)] else waiters
  }

  function Apply(s: State, a: Action): State
    requires Enabled(s, a)
  {
    match a
    case Try(f) =>
      var w := s.waiters[f];
      if Admits(s.guards, w.kind) then
        s.(guards := Added(s.guards, w.kind), waiters := s.waiters[f := w.(phase := Done)])
      else s.(waiters := s.waiters[f := w.(phase := Refused, woken := false)])
    case Register(f) => s.(wakers := s.wakers + [f], waiters := s.waiters[f := s.waiters[f].(phase := Pending)])
    case Release(k) => s.(guards := Removed(s.guards, k), waking := s.waking + 1)
    case Begin => s.(waking := s.waking - 1, next := Some(0))
    case WakeNext => s.(waiters := Wake(s.waiters, s.wakers[s.next.value]), next := Some(s.next.value + 1))
    case End => s.(next := None, clearing := s.clearing + 1)
    case Clear => s.(wakers := [], clearing := s.clearing - 1)
    case Cancel(f) => s.(waiters := s.waiters[f := s.waiters[f].(phase := Done)])
  }

  predicate Held(s: State)
  {
    s.guards != Guards(0, 0)
  }

  /** A future that waits for a wake-up it has not had. */
  predicate Waits(w: Waiter)
  {
    (w.phase.Pending? || w.phase.Refused?) && !w.woken
  }

  /** The wake loop has yet to come to `f`. */
  predicate Ahead(s: State, f: nat)
  {
    s.next.Some? && s.next.value <= |s.wakers| && f in s.wakers[s.next.value..]
  }

  /** No waiter is forgotten: each pending future is in the list or has been woken since its
      last poll; and while a future waits, the lock is held, or a drop is about to start its
      wake loop, or one has started and is yet to come to the future. */
  ghost predicate Remembered(s: State)
  {
    && (s.next.Some? ==> s.next.value <= |s.wakers|)
    && (forall f :: 0 <= f < |s.waiters| && s.waiters[f].phase.Pending? && !s.waiters[f].woken ==> f in s.wakers)
    && (forall f :: 0 <= f < |s.waiters| && Waits(s.waiters[f]) ==> Held(s) || s.waking > 0 || Ahead(s, f))
  }

  /** The two accesses that can forget a waiter: a wake loop that starts between a refused attempt
      and its registration, with the lock free and no other drop to come; and a clearing of
      the list after a future has joined it since the wake loop. */
  ghost predicate Calm(s: State, a: Action)
  {
    match a
    case Begin => Held(s) || s.waking > 1 ||
      (forall f :: 0 <= f < |s.waiters| && s.waiters[f].phase.Refused? && !s.waiters[f].woken ==> f in s.wakers)
    case Clear =>
      forall f :: 0 <= f < |s.waiters| && s.waiters[f].phase.Pending? ==> s.waiters[f].woken || f !in s.wakers
    case _ => true
  }

  /** Exactly the calm accesses remember every waiter. */
  lemma RememberedIff(s: State, a: Action)
    requires Remembered(s) && Enabled(s, a)
    ensures Remembered(Apply(s, a)) <==> Calm(s, a)
  {
    var s' := Apply(s, a);
    match a
    case Try(f) => TryRemembers(s, f);
    case Register(f) =>
      assert s'.wakers[|s.wakers|] == f;
      assert Waits(s'.waiters[f]) ==> Waits(s.waiters[f]);
    case Release(k) => assert s'.waking > 0;
    case Begin => BeginIff(s);
    case WakeNext => WakeRemembers(s);
    case End => assert s.wakers[s.next.value..] == [];
    case Clear => assert Held(s') == Held(s);
    case Cancel(f) =>
      assert forall g :: 0 <= g < |s.waiters| && g != f ==> s'.waiters[g] == s.waiters[g];
      assert forall g :: Ahead(s', g) == Ahead(s, g);
  }

  lemma TryRemembers(s: State, f: nat)
    requires Remembered(s) && Enabled(s, Try(f))
    ensures Remembered(Apply(s, Try(f)))
  {
    var s' := Apply(s, Try(f));
    assert Held(s');
  }

  lemma BeginIff(s: State)
    requires Remembered(s) && Enabled(s, Begin)
    ensures Remembered(Apply(s, Begin)) <==> Calm(s, Begin)
  {
    var s' := Apply(s, Begin);
    assert s.wakers[0..] == s.wakers;
    assert forall f :: Ahead(s', f) <==> f in s.wakers;
    if !Calm(s, Begin) {
      var f :| 0 <= f < |s.waiters| && s.waiters[f].phase.Refused? && !s.waiters[f].woken && f !in s.wakers;
      assert Waits(s'.waiters[f]) && !Held(s') && s'.waking == 0 && !Ahead(s', f);
    }
  }

  lemma WakeRemembers(s: State)
    requires Remembered(s) && Enabled(s, WakeNext)
    ensures Remembered(Apply(s, WakeNext))
  {
    var s', k := Apply(s, WakeNext), s.next.value;
    assert s.wakers[k..] == [s.wakers[k]] + s.wakers[k + 1..];
    forall f | 0 <= f < |s'.waiters| && Waits(s'.waiters[f])
      ensures Held(s') || s'.waking > 0 || Ahead(s', f)
    {
      assert f != s.wakers[k] && Waits(s.waiters[f]);
    }
  }

  predicate Init(s: State)
  {
    && s.guards == Guards(0, 0) && s.wakers == [] && s.waking == s.clearing == 0 && s.next.None?
    && forall f :: 0 <= f < |s.waiters| ==> s.waiters[f].phase.Fresh?
  }

  ghost predicate IsRun(states: seq<State>, actions: seq<Action>)
  {
    && |states| == |actions| + 1 && Init(states[0])
    && forall i :: 0 <= i < |actions| ==>
         Enabled(states[i], actions[i]) && states[i + 1] == Apply(states[i], actions[i])
  }

  /** In a run of single accesses every waiter is remembered in every state if and only if every
      access is calm. */
  lemma RunRememberedIff(states: seq<State>, actions: seq<Action>)
    requires IsRun(states, actions)
    ensures (forall i :: 0 <= i < |states| ==> Remembered(states[i]))
        <==> (forall i :: 0 <= i < |actions| ==> Calm(states[i], actions[i]))
  {
    hide Apply, Remembered, Calm, Init;
    if forall i :: 0 <= i < |states| ==> Remembered(states[i]) {
      forall i | 0 <= i < |actions|
        ensures Calm(states[i], actions[i])
      {
        assert Remembered(states[i]) && Remembered(states[i + 1]);
        RememberedIff(states[i], actions[i]);
      }
    }
    if forall i :: 0 <= i < |actions| ==> Calm(states[i], actions[i]) {
      forall i | 0 <= i < |states|
        ensures Remembered(states[i])
      {
        CalmRun(states, actions, i);
      }
    }
  }

  lemma {:induction false} CalmRun(states: seq<State>, actions: seq<Action>, i: nat)
    requires IsRun(states, actions) && i < |states| && forall k :: 0 <= k < i ==> Calm(states[k], actions[k])
    ensures Remembered(states[i])
  {
    if i > 0 {
      hide Calm, Apply, Enabled, Remembered;
      CalmRun(states, actions, i - 1);
      RememberedIff(states[i - 1], actions[i - 1]);
    }
  }

  // ---- lost wake-ups ----

  const IDLE := Waiter(Exclusive, Fresh, false)
  const DONE := Waiter(Exclusive, Done, false)
  const REFUSED := Waiter(Exclusive, Refused, false)
  const WAITING := Waiter(Exclusive, Pending, false)

  /** A state without a wake loop, with the lock free or taken by one writer. */
  function Plain(writers: nat, wakers: seq<nat>, waiters: seq<Waiter>, waking: nat, clearing: nat): State
  {
    State(Guards(0, writers), wakers, waiters, waking, None, clearing)
  }

  lemma Start(s: State) returns (states: seq<State>, actions: seq<Action>)
    requires Init(s)
    ensures IsRun(states, actions) && states[|actions|] == s
  {
    states, actions := [s], [];
  }

  lemma Extend(states: seq<State>, actions: seq<Action>, a: Action, s: State)
    returns (states': seq<State>, actions': seq<Action>)
    requires IsRun(states, actions) && Enabled(states[|actions|], a) && Apply(states[|actions|], a) == s
    ensures IsRun(states', actions') && states'[|actions'|] == s
  {
    states', actions' := states + [s], actions + [a];
    hide Apply, Enabled, Init;
  }

  /** A whole wake loop over an empty list. */
  lemma EmptyLoop(states: seq<State>, actions: seq<Action>) returns (states': seq<State>, actions': seq<Action>)
    requires IsRun(states, actions)
    requires var s := states[|actions|]; s.next.None? && s.waking > 0 && s.wakers == []
    ensures IsRun(states', actions')
    ensures var s := states[|actions|];
            states'[|actions'|] == s.(waking := s.waking - 1, clearing := s.clearing + 1)
  {
    var s := states[|actions|];
    hide IsRun;
    states', actions' := Extend(states, actions, Begin, s.(waking := s.waking - 1, next := Some(0)));
    states', actions' := Extend(states', actions', End, s.(waking := s.waking - 1, clearing := s.clearing + 1));
  }

  /** A wake-up can be lost: a writer is refused, the last guard is dropped, and only then does
      the writer leave its waker.  The lock is free, nothing is in progress, and nobody will
      wake the writer. */
  lemma LostBeforeRegister() returns (states: seq<State>, actions: seq<Action>)
    ensures IsRun(states, actions)
    ensures states[|actions|] == Plain(0, [1], [DONE, WAITING], 0, 0)
  {
    hide IsRun;
    states, actions := Start(Plain(0, [], [IDLE, IDLE], 0, 0));
    states, actions := Extend(states, actions, Try(0), Plain(1, [], [DONE, IDLE], 0, 0));
    states, actions := Extend(states, actions, Try(1), Plain(1, [], [DONE, REFUSED], 0, 0));
    states, actions := Extend(states, actions, Release(Exclusive), Plain(0, [], [DONE, REFUSED], 1, 0));
    states, actions := EmptyLoop(states, actions);
    states, actions := LostBeforeRegisterEnd(states, actions);
  }

  lemma LostBeforeRegisterEnd(states: seq<State>, actions: seq<Action>)
    returns (states': seq<State>, actions': seq<Action>)
    requires IsRun(states, actions) && states[|actions|] == Plain(0, [], [DONE, REFUSED], 0, 1)
    ensures IsRun(states', actions') && states'[|actions'|] == Plain(0, [1], [DONE, WAITING], 0, 0)
  {
    hide IsRun;
    states', actions' := Extend(states, actions, Clear, Plain(0, [], [DONE, REFUSED], 0, 0));
    states', actions' := Extend(states', actions', Register(1), Plain(0, [1], [DONE, WAITING], 0, 0));
  }

  /** The second window: a writer joins the list after a wake loop and is cleared from it unwoken;
      the next drop finds an empty list. */
  lemma LostAtClear() returns (states: seq<State>, actions: seq<Action>)
    ensures IsRun(states, actions)
    ensures states[|actions|] == Plain(0, [], [DONE, WAITING, DONE], 0, 0)
  {
    hide *;
    states, actions := LostAtClearStart();
    states, actions := LostAtClearMiddle(states, actions);
    states, actions := LostAtClearEnd(states, actions);
  }

  lemma LostAtClearTaken() returns (states: seq<State>, actions: seq<Action>)
    ensures IsRun(states, actions) && states[|actions|] == Plain(1, [], [DONE, IDLE, IDLE], 0, 0)
  {
    hide IsRun;
    states, actions := Start(Plain(0, [], [IDLE, IDLE, IDLE], 0, 0));
    states, actions := Extend(states, actions, Try(0), Plain(1, [], [DONE, IDLE, IDLE], 0, 0));
  }

  /** A guard is taken and dropped, up to the clearing. */
  lemma LostAtClearStart() returns (states: seq<State>, actions: seq<Action>)
    ensures IsRun(states, actions) && states[|actions|] == Plain(0, [], [DONE, IDLE, IDLE], 0, 1)
  {
    hide IsRun;
    states, actions := LostAtClearTaken();
    states, actions := Extend(states, actions, Release(Exclusive), Plain(0, [], [DONE, IDLE, IDLE], 1, 0));
    states, actions := EmptyLoop(states, actions);
  }

  /** Another future takes the lock, and waiter 1 is refused and joins the list. */
  lemma LostAtClearMiddle(states: seq<State>, actions: seq<Action>) returns (states': seq<State>, actions': seq<Action>)
    requires IsRun(states, actions) && states[|actions|] == Plain(0, [], [DONE, IDLE, IDLE], 0, 1)
    ensures IsRun(states', actions') && states'[|actions'|] == Plain(1, [1], [DONE, WAITING, DONE], 0, 1)
  {
    hide IsRun;
    states', actions' := Extend(states, actions, Try(2), Plain(1, [], [DONE, IDLE, DONE], 0, 1));
    states', actions' := Extend(states', actions', Try(1), Plain(1, [], [DONE, REFUSED, DONE], 0, 1));
    states', actions' := Extend(states', actions', Register(1), Plain(1, [1], [DONE, WAITING, DONE], 0, 1));
  }

  /** The list is cleared, and the next drop finds it empty. */
  lemma LostAtClearEnd(states: seq<State>, actions: seq<Action>) returns (states': seq<State>, actions': seq<Action>)
    requires IsRun(states, actions) && states[|actions|] == Plain(1, [1], [DONE, WAITING, DONE], 0, 1)
    ensures IsRun(states', actions') && states'[|actions'|] == Plain(0, [], [DONE, WAITING, DONE], 0, 0)
  {
    hide IsRun;
    var all := [DONE, WAITING, DONE];
    states', actions' := Extend(states, actions, Clear, Plain(1, [], all, 0, 0));
    states', actions' := Extend(states', actions', Release(Exclusive), Plain(0, [], all, 1, 0));
    states', actions' := EmptyLoop(states', actions');
    states', actions' := Extend(states', actions', Clear, Plain(0, [], all, 0, 0));
  }

  /** A waiter outside the list is beyond the reach of every other action: only its own poll can
      bring it back. */
  lemma StaysLost(s: State, a: Action, f: nat)
    requires Enabled(s, a) && f < |s.waiters| && s.waiters[f].phase.Pending? && !s.waiters[f].woken && f !in s.wakers
    requires a != Try(f) && a != Cancel(f)
    ensures var s' := Apply(s, a); f < |s'.waiters| && s'.waiters[f] == s.waiters[f] && f !in s'.wakers
  {
  }

  // ---- whole polls and whole drops ----

  predicate CanPoll(s: State, f: nat)
  {
    Enabled(s, Try(f)) && s.next.None?
  }

  /** One uninterrupted poll. */
  function Poll(s: State, f: nat): State
    requires CanPoll(s, f)
  {
    var t := Apply(s, Try(f));
    if t.waiters[f].phase.Refused? then Apply(t, Register(f)) else t
  }

  predicate CanDrop(s: State, k: Kind)
  {
    Holds(s.guards, k) && s.next.None?
  }

  /** A wake loop from its position to its end. */
  function WakeRest(s: State): (r: State)
    requires s.next.Some?
    ensures r.next.None? && r.clearing > 0 && r.guards == s.guards && r.wakers == s.wakers
    decreases if s.next.value < |s.wakers| then |s.wakers| - s.next.value else 0
  {
    if s.next.value < |s.wakers| then WakeRest(Apply(s, WakeNext)) else Apply(s, End)
  }

  /** One uninterrupted guard drop. */
  function Drop(s: State, k: Kind): State
    requires CanDrop(s, k)
  {
    Apply(WakeRest(Apply(Apply(s, Release(k)), Begin)), Clear)
  }

  /** Every waiter in the list is woken. */
  function Woken(waiters: seq<Waiter>, wakers: seq<nat>): (r: seq<Waiter>)
    ensures |r| == |waiters|
    ensures forall f :: 0 <= f < |r| ==> r[f] == waiters[f].(woken := waiters[f].woken || f in wakers)
  {
    seq(|waiters|, f requires 0 <= f < |waiters| => waiters[f].(woken := waiters[f].woken || f in wakers))
  }

  lemma WokenNobody(waiters: seq<Waiter>)
    ensures Woken(waiters, []) == waiters
  {
    hide Woken;
  }

  lemma WokenFirst(waiters: seq<Waiter>, f: nat, rest: seq<nat>)
    ensures Woken(Wake(waiters, f), rest) == Woken(waiters, [f] + rest)
  {
    hide Woken, Wake;
    assert forall g :: g in [f] + rest <==> g == f || g in rest;
  }

  lemma WokenLast(waiters: seq<Waiter>, before: seq<nat>, f: nat)
    ensures Wake(Woken(waiters, before), f) == Woken(waiters, before + [f])
  {
    hide Woken, Wake;
    assert forall g :: g in before + [f] <==> g == f || g in before;
  }

  lemma {:induction false} WakeRestIs(s: State)
    requires s.next.Some? && s.next.value <= |s.wakers|
    ensures WakeRest(s)
            == s.(waiters := Woken(s.waiters, s.wakers[s.next.value..]), next := None, clearing := s.clearing + 1)
    decreases |s.wakers| - s.next.value
  {
    hide Woken, Wake;
    var k := s.next.value;
    if k < |s.wakers| {
      WakeRestIs(Apply(s, WakeNext));
      assert s.wakers[k..] == [s.wakers[k]] + s.wakers[k + 1..];
      WokenFirst(s.waiters, s.wakers[k], s.wakers[k + 1..]);
    } else {
      assert s.wakers[k..] == [];
      WokenNobody(s.waiters);
    }
  }

  /** Between whole operations the lock excludes, and a waker in the list means that it is held. */
  ghost predicate Settled(s: State)
  {
    && Remembered(s) && Exclusion(s.guards) && s.waking == s.clearing == 0 && s.next.None?
    && (s.wakers != [] ==> Held(s))
    && forall f :: 0 <= f < |s.waiters| ==> !s.waiters[f].phase.Refused?
  }

  lemma PollSettled(s: State, f: nat)
    requires Settled(s) && CanPoll(s, f)
    ensures Settled(Poll(s, f))
  {
    RememberedIff(s, Try(f));
    var t := Apply(s, Try(f));
    if t.waiters[f].phase.Refused? {
      RememberedIff(t, Register(f));
    }
    hide Remembered;
  }

  lemma {:induction false} WakeRestRemembers(s: State)
    requires Remembered(s) && s.next.Some?
    ensures Remembered(WakeRest(s))
    decreases |s.wakers| - s.next.value
  {
    if s.next.value < |s.wakers| {
      RememberedIff(s, WakeNext);
      WakeRestRemembers(Apply(s, WakeNext));
    } else {
      RememberedIff(s, End);
    }
  }

  lemma DropIs(s: State, k: Kind)
    requires CanDrop(s, k)
    ensures Drop(s, k) == s.(guards := Removed(s.guards, k), waiters := Woken(s.waiters, s.wakers), wakers := [])
  {
    var t := Apply(Apply(s, Release(k)), Begin);
    WakeRestIs(t);
    assert t.wakers[0..] == s.wakers;
    hide WakeRest;
  }

  lemma DropSettled(s: State, k: Kind)
    requires Settled(s) && CanDrop(s, k)
    ensures Settled(Drop(s, k))
  {
    DropIs(s, k);
    var t := Apply(s, Release(k));
    RememberedIff(s, Release(k));
    assert Calm(t, Begin);
    RememberedIff(t, Begin);
    var u := Apply(t, Begin);
    WakeRestRemembers(u);
    WakeRestIs(u);
    assert u.wakers[0..] == s.wakers;
    var v := WakeRest(u);
    assert Calm(v, Clear);
    RememberedIff(v, Clear);
    hide Remembered, WakeRest;
  }

  /** Which guard a poll takes, in numbers: a reader is added to readers, a writer enters a free
      lock, and a refused future takes nothing and waits for a wake-up. */
  lemma PollTakes(s: State, f: nat)
    requires Settled(s) && CanPoll(s, f)
    ensures var g, w, s' := s.guards, s.waiters[f], Poll(s, f);
            var w' := s'.waiters[f];
            match w.kind
            case Shared =>
              if g.writers == 0 then s'.guards == Guards(g.readers + 1, 0) && w'.phase == Done && s'.wakers == s.wakers
              else s'.guards == g && w' == Waiter(Shared, Pending, false) && s'.wakers == s.wakers + [f]
            case Exclusive =>
              if g == Guards(0, 0) then s'.guards == Guards(0, 1) && w'.phase == Done && s'.wakers == s.wakers
              else s'.guards == g && w' == Waiter(Exclusive, Pending, false) && s'.wakers == s.wakers + [f]
  {
  }

  /** Readers of a free lock do not keep each other out; after a reader a writer waits. */
  lemma TwoReaders(s: State, f: nat, h: nat)
    requires Settled(s) && s.guards == Guards(0, 0) && CanPoll(s, f) && CanPoll(s, h) && f != h
    requires s.waiters[f].kind == Shared
    ensures var t := Poll(s, f);
            && CanPoll(t, h) && t.waiters[f].phase == Done
            && (s.waiters[h].kind == Shared ==>
                  Poll(t, h).guards == Guards(2, 0) && Poll(t, h).waiters[h].phase == Done)
            && (s.waiters[h].kind == Exclusive ==>
                  Poll(t, h).guards == Guards(1, 0) && Poll(t, h).waiters[h].phase == Pending)
  {
  }

  /** A drop gives back a guard of its own kind, and no other. */
  lemma DropGivesBack(s: State, k: Kind)
    requires CanDrop(s, k)
    ensures Drop(s, k).guards == if k.Shared? then Guards(s.guards.readers - 1, s.guards.writers)
                                 else Guards(s.guards.readers, s.guards.writers - 1)
  {
    DropIs(s, k);
    hide Drop;
  }

  datatype Operation = Polls(waiter: nat) | Drops(kind: Kind) | Cancels(waiter: nat)

  predicate Possible(s: State, o: Operation)
  {
    match o
    case Polls(f) => CanPoll(s, f)
    case Drops(k) => CanDrop(s, k)
    case Cancels(f) => Enabled(s, Cancel(f))
  }

  function Perform(s: State, o: Operation): State
    requires Possible(s, o)
  {
    match o
    case Polls(f) => Poll(s, f)
    case Drops(k) => Drop(s, k)
    case Cancels(f) => Apply(s, Cancel(f))
  }

  lemma PerformSettled(s: State, o: Operation)
    requires Settled(s) && Possible(s, o)
    ensures Settled(Perform(s, o))
  {
    match o
    case Polls(f) => PollSettled(s, f);
    case Drops(k) => DropSettled(s, k);
    case Cancels(f) =>
      RememberedIff(s, Cancel(f));
      hide Remembered;
  }

  /** With each poll and each guard drop as one step, no run forgets a waiter: a waker in the
      list means that the lock is held, each pending future is in the list or woken since its
      last poll, and when the lock is free all of them are woken. */
  lemma {:induction false} WholeRun(states: seq<State>, ops: seq<Operation>, i: nat)
    requires |states| == |ops| + 1 && Init(states[0]) && i < |states|
    requires forall k :: 0 <= k < |ops| ==> Possible(states[k], ops[k]) && states[k + 1] == Perform(states[k], ops[k])
    ensures Settled(states[i])
    ensures !Held(states[i]) ==>
              forall f :: 0 <= f < |states[i].waiters| && states[i].waiters[f].phase.Pending? ==>
                  states[i].waiters[f].woken
  {
    hide Perform, Possible;
    if i > 0 {
      WholeRun(states, ops, i - 1);
      PerformSettled(states[i - 1], ops[i - 1]);
    }
  }

  // ---- the operations in place ----

  class RawAsyncRwLock {
    var guards: Guards                       // the abstract lock behind `locked`
    var wakers: seq<nat>
    var waiters: seq<Waiter>

    ghost function View(): State
      reads this
    {
      State(guards, wakers, waiters, 0, None, 0)
    }

    constructor (kinds: seq<Kind>)
      ensures Init(View()) && |waiters| == |kinds| && Settled(View())
    {
      guards, wakers := Guards(0, 0), [];
      waiters := seq(|kinds|, f requires 0 <= f < |kinds| => Waiter(kinds[f], Fresh, false));
    }

    /** `poll` of a read or write future. */
    method PollFuture(f: nat) returns (ready: bool)
      requires CanPoll(View(), f) && Settled(View())
      modifies this
      ensures View() == Poll(old(View()), f) && Settled(View())
      ensures old(waiters[f].kind).Shared? ==> ready == (old(guards).writers == 0)
      ensures old(waiters[f].kind).Exclusive? ==> ready == (old(guards) == Guards(0, 0))
      ensures ready && old(waiters[f].kind).Shared? ==> guards == Guards(old(guards).readers + 1, 0)
      ensures ready && old(waiters[f].kind).Exclusive? ==> guards == Guards(0, 1)
      ensures !ready ==> guards == old(guards) && wakers == old(wakers) + [f]
    {
      PollSettled(View(), f);
      ready := Admits(guards, waiters[f].kind);
      if ready {
        guards := Added(guards, waiters[f].kind);
        waiters := waiters[f := waiters[f].(phase := Done)];
      } else {
        wakers := wakers + [f];
        waiters := waiters[f := waiters[f].(phase := Pending, woken := false)];
      }
    }

    /** `force_unlock_exclusive` and `force_unlock_shared`. */
    method ForceUnlock(kind: Kind)
      requires Holds(guards, kind) && Settled(View())
      modifies this
      ensures View() == Drop(old(View()), kind) && Settled(View()) && wakers == []
      ensures kind.Shared? ==> guards == Guards(old(guards).readers - 1, old(guards).writers)
      ensures kind.Exclusive? ==> guards == Guards(old(guards).readers, old(guards).writers - 1)
    {
      DropSettled(View(), kind);
      DropIs(View(), kind);
      hide Settled, Drop, Woken, Wake;
      WokenNobody(waiters);
      guards := Removed(guards, kind);
      assert wakers[..0] == [];
      for i := 0 to |wakers|
        invariant wakers == old(wakers) && guards == Removed(old(guards), kind)
        invariant waiters == Woken(old(waiters), wakers[..i])
      {
        assert wakers[..i + 1] == wakers[..i] + [wakers[i]];
        WokenLast(old(waiters), wakers[..i], wakers[i]);
        waiters := Wake(waiters, wakers[i]);
      }
      assert wakers[..|wakers|] == wakers;
      wakers := [];
    }
  }
}
