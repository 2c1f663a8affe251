/** The locks that disable interrupts while they are held: a lock count per hart decides when
    the hart's `sie` register is cleared and set again.  Harts, their interrupt handlers and
    any number of locks are interleaved at every access to a lock word, the count and `sie`. */
module SharedLocks {
  import opened RwGuards

  const ENABLED: nat := 0x222

  datatype Guard = Guard(lock: nat, kind: Kind)

  /** Where a hart is, outside its interrupt handler.  `waits` tells a blocking lock, which
      counts first and then spins, from a `try_lock`, which already has the inner lock. */
  datatype Pc =
    | Idle
    | Disabling(guard: Guard, waits: bool)   // before `write_sie(0)`
    | Growing(guard: Guard, waits: bool)     // before the length of the count vector is read
    | Resizing(guard: Guard, waits: bool)    // it was too short, before it is resized
    | Counting(guard: Guard, waits: bool)    // before the count is raised
    | Spinning(guard: Guard)                 // counted, waiting for the inner lock
    | Dropping                               // inner lock released, before the count is lowered
    | Enabling                               // the count was 1, before `write_sie(0x222)`

  datatype Hart = Hart(
    sie: nat,
    handler: bool,                           // in interrupt context
    pc: Pc,
    held: multiset<Guard>,                   // guards of the interrupted code
    handlerHeld: multiset<Guard>)            // guards of the handler

  datatype State = State(harts: seq<Hart>, counts: seq<nat>, locks: seq<Guards>)

  datatype Action =
    | Lock(hart: nat, guard: Guard)          // a blocking lock begins
    | TryLock(hart: nat, guard: Guard)       // one attempt on the inner lock
    | Step(hart: nat)                        // the operation in progress goes on
    | Unlock(hart: nat, guard: Guard)
    | Interrupt(hart: nat)
    | Return(hart: nat)
    | HandlerTry(hart: nat, guard: Guard)
    | HandlerUnlock(hart: nat, guard: Guard)

  // ---- steps ----

  /** What an action asks of the lock words. */
  datatype Change = Keep | Takes(guard: Guard) | Drops(guard: Guard)

  /** The attempt on an inner lock that an action makes, or the release. */
  function Wants(h: Hart, a: Action): Change
  {
    match a
    case TryLock(_, g) => Takes(g)
    case HandlerTry(_, g) => Takes(g)
    case Step(_) => if h.pc.Spinning? then Takes(h.pc.guard) else Keep
    case Unlock(_, g) => Drops(g)
    case HandlerUnlock(_, g) => Drops(g)
    case _ => Keep
  }

  /** A release finds its guard counted; `CanRelease` shows that this asks nothing of a caller. */
  predicate Possible(locks: seq<Guards>, c: Change)
  {
    match c
    case Keep => true
    case Takes(g) => g.lock < |locks|
    case Drops(g) => g.lock < |locks| && Holds(locks[g.lock], g.kind)
  }

  /** Whether an attempt is refused. */
  predicate Refused(locks: seq<Guards>, c: Change)
    requires Possible(locks, c)
  {
    c.Takes? && !Admits(locks[c.guard.lock], c.guard.kind)
  }

  function Changed(locks: seq<Guards>, c: Change): seq<Guards>
    requires Possible(locks, c)
  {
    match c
    case Keep => locks
    case Takes(g) => locks[g.lock := Added(locks[g.lock], g.kind)]
    case Drops(g) => locks[g.lock := Removed(locks[g.lock], g.kind)]
  }

  predicate Allowed(h: Hart, a: Action)
  {
    match a
    case Lock(_, g) => !h.handler && h.pc.Idle?
    case TryLock(_, g) => !h.handler && h.pc.Idle?
    case Step(_) => !h.handler && !h.pc.Idle?
    case Unlock(_, g) => !h.handler && h.pc.Idle? && g in h.held
    case Interrupt(_) => !h.handler && h.sie != 0
    case Return(_) => h.handler && h.handlerHeld == multiset{}
    case HandlerTry(_, g) => h.handler
    case HandlerUnlock(_, g) => h.handler && g in h.handlerHeld
  }

  predicate Enabled(s: State, a: Action)
  {
    a.hart < |s.harts| && Allowed(s.harts[a.hart], a) && Possible(s.locks, Wants(s.harts[a.hart], a))
  }

  /** The hart after its own action, when an attempt it makes is not refused; `long` tells whether
      the count vector has an entry for the hart. */
  function After(h: Hart, a: Action, count: nat, long: bool): Hart
    requires Allowed(h, a)
  {
    match a
    case Lock(_, g) => h.(pc := Disabling(g, true))
    case TryLock(_, g) => h.(pc := Disabling(g, false))
    case Unlock(_, g) => h.(pc := Dropping, held := h.held - multiset{g})
    case Interrupt(_) => h.(handler := true)
    case Return(_) => h.(handler := false)
    case HandlerTry(_, g) => h.(handlerHeld := h.handlerHeld + multiset{g})
    case HandlerUnlock(_, g) => h.(handlerHeld := h.handlerHeld - multiset{g})
    case Step(_) =>
      match h.pc
      case Disabling(g, w) => h.(sie := 0, pc := Growing(g, w))
      case Growing(g, w) => h.(pc := if long then Counting(g, w) else Resizing(g, w))
      case Resizing(g, w) => h.(pc := Counting(g, w))
      case Counting(g, w) => if w then h.(pc := Spinning(g)) else h.(pc := Idle, held := h.held + multiset{g})
      case Spinning(g) => h.(pc := Idle, held := h.held + multiset{g})
      case Dropping => h.(pc := if count == 1 then Enabling else Idle)
      case Enabling => h.(sie := ENABLED, pc := Idle)
  }

  function Count(counts: seq<nat>, i: nat): nat
  {
    if i < |counts| then counts[i] else 0
  }

  /** `resize_with`: grows with zeros, or cuts off what is beyond. */
  function Resized(counts: seq<nat>, n: nat): (r: seq<nat>)
    ensures |r| == n && forall j :: 0 <= j < n ==> r[j] == Count(counts, j)
  {
    if n <= |counts| then counts[..n] else counts + seq(n - |counts|, _ => 0)
  }

  /** The count vector after an action of hart `i`.  Indexing past its end, or lowering a zero,
      would be an error in the source; `CanRelease` and `Disciplined` rule both out. */
  function Counted(counts: seq<nat>, i: nat, pc: Pc): seq<nat>
  {
    if pc.Resizing? then Resized(counts, i + 1)
    else if i >= |counts| then counts
    else if pc.Counting? then counts[i := counts[i] + 1]
    else if pc.Dropping? && counts[i] > 0 then counts[i := counts[i] - 1]
    else counts
  }

  function Apply(s: State, a: Action): State
    requires Enabled(s, a)
  {
    var i := a.hart;
    var h := s.harts[i];
    if Refused(s.locks, Wants(h, a)) then s
    else State(s.harts[i := After(h, a, Count(s.counts, i), i < |s.counts|)],
               if a.Step? then Counted(s.counts, i, h.pc) else s.counts,
               Changed(s.locks, Wants(h, a)))
  }

  predicate Init(s: State)
  {
    && s.counts == [] && (forall l :: 0 <= l < |s.locks| ==> s.locks[l] == Guards(0, 0))
    && forall i :: 0 <= i < |s.harts| ==>
         var h := s.harts[i]; !h.handler && h.pc.Idle? && h.held == h.handlerHeld == multiset{}
  }

  ghost predicate IsRun(states: seq<State>, actions: seq<Action>)
  {
    && |states| == |actions| + 1 && Init(states[0])
    && forall i :: 0 <= i < |actions| ==>
         Enabled(states[i], actions[i]) && states[i + 1] == Apply(states[i], actions[i])
  }

  // ---- the lock count and interrupts ----

  /** Guards counted but not in `held`: a blocking lock that spins, or an unlock under way. */
  function Underway(pc: Pc): nat
  {
    if pc.Spinning? || pc.Dropping? then 1 else 0
  }

  /** Interrupt discipline of one hart: the count is the guards held plus the operations in
      progress; at rest `sie` is zero exactly while the count is positive, and otherwise what
      the last unlock or the boot code wrote; a handler runs only over code without guards. */
  predicate Disciplined(h: Hart, i: nat, counts: seq<nat>, boot: nat)
  {
    && Count(counts, i) == |h.held| + Underway(h.pc)
    && (h.pc.Counting? ==> i < |counts|)
    && (if h.pc.Idle? || h.pc.Disabling? then
          if Count(counts, i) > 0 then h.sie == 0 else h.sie == ENABLED || h.sie == boot
        else h.sie == 0)
    && (h.pc.Enabling? ==> Count(counts, i) == 0)
    && (h.handler ==> h.sie != 0 && (h.pc.Idle? || h.pc.Disabling?))
    && (!h.handler ==> h.handlerHeld == multiset{})
  }

  ghost predicate Discipline(s: State, boot: seq<nat>)
  {
    |boot| == |s.harts| && forall i :: 0 <= i < |s.harts| ==> Disciplined(s.harts[i], i, s.counts, boot[i])
  }

  /** The race on the count vector: a hart that found it too short resizes it after another hart
      has made it longer, and cuts off a count in use. */
  ghost predicate Loses(s: State, a: Action)
    requires Enabled(s, a)
  {
    a.Step? && s.harts[a.hart].pc.Resizing? && exists j :: CutOff(s, a.hart, j)
  }

  predicate CutOff(s: State, i: nat, j: nat)
  {
    i < j < |s.harts| && j < |s.counts| && (s.counts[j] > 0 || s.harts[j].pc.Counting?)
  }

  lemma OneHart(s: State, a: Action)
    requires Enabled(s, a)
    ensures var s' := Apply(s, a);
            |s'.harts| == |s.harts| && |s'.locks| == |s.locks|
            && forall j :: 0 <= j < |s.harts| && j != a.hart ==> s'.harts[j] == s.harts[j]
  {
    hide After, Counted;
  }

  /** An action touches no count but its own hart's, except that a resize cuts off the counts
      beyond. */
  lemma OtherCounts(s: State, a: Action, j: nat)
    requires Enabled(s, a) && j != a.hart
    ensures var s' := Apply(s, a);
            if a.Step? && s.harts[a.hart].pc.Resizing? && j > a.hart then j >= |s'.counts|
            else Count(s'.counts, j) == Count(s.counts, j) && (j < |s.counts| ==> j < |s'.counts|)
  {
    hide After, Changed, Resized;
  }

  /** Exactly the actions that cut off a count break the discipline. */
  lemma DisciplineIff(s: State, a: Action, boot: seq<nat>)
    requires Discipline(s, boot) && Enabled(s, a)
    ensures Discipline(Apply(s, a), boot) <==> !Loses(s, a)
  {
    var s' := Apply(s, a);
    OneHart(s, a);
    if Loses(s, a) {
      var j: nat :| CutOff(s, a.hart, j);
      OtherCounts(s, a, j);
      assert Disciplined(s.harts[j], j, s.counts, boot[j]);
      assert !Disciplined(s'.harts[j], j, s'.counts, boot[j]);
    } else {
      OwnDiscipline(s, a, boot);
      forall j | 0 <= j < |s.harts|
        ensures Disciplined(s'.harts[j], j, s'.counts, boot[j])
      {
        if j != a.hart {
          OtherDiscipline(s, a, boot, j);
        }
      }
    }
    hide Apply, Enabled, Disciplined;
  }

  lemma OtherDiscipline(s: State, a: Action, boot: seq<nat>, j: nat)
    requires Discipline(s, boot) && Enabled(s, a) && !Loses(s, a) && j < |s.harts| && j != a.hart
    ensures var s' := Apply(s, a); j < |s'.harts| && Disciplined(s'.harts[j], j, s'.counts, boot[j])
  {
    OneHart(s, a);
    OtherCounts(s, a, j);
    assert Disciplined(s.harts[j], j, s.counts, boot[j]);
    assert a.Step? && s.harts[a.hart].pc.Resizing? ==> !CutOff(s, a.hart, j);
    hide Apply, Enabled, Discipline;
  }

  lemma OwnDiscipline(s: State, a: Action, boot: seq<nat>)
    requires Discipline(s, boot) && Enabled(s, a)
    ensures Disciplined(Apply(s, a).harts[a.hart], a.hart, Apply(s, a).counts, boot[a.hart])
  {
    var i := a.hart;
    assert Disciplined(s.harts[i], i, s.counts, boot[i]);
    HartDiscipline(s.harts[i], a, s.counts, boot[i]);
    hide Disciplined, After, Counted, Count;
  }

  lemma HartDiscipline(h: Hart, a: Action, counts: seq<nat>, boot: nat)
    requires Disciplined(h, a.hart, counts, boot) && Allowed(h, a)
    ensures var i := a.hart;
            var counts' := if a.Step? then Counted(counts, i, h.pc) else counts;
            Disciplined(After(h, a, Count(counts, i), i < |counts|), i, counts', boot)
  {
    if a.Step? {
      hide Counted, After, Disciplined;
      StepDiscipline(h, a.hart, counts, boot);
    } else {
      hide Counted, Count;
      if a.Unlock? {
        assert |h.held - multiset{a.guard}| == |h.held| - 1;
      }
    }
  }

  lemma StepDiscipline(h: Hart, i: nat, counts: seq<nat>, boot: nat)
    requires Disciplined(h, i, counts, boot) && Allowed(h, Step(i))
    ensures Disciplined(After(h, Step(i), Count(counts, i), i < |counts|), i, Counted(counts, i, h.pc), boot)
  {
    OwnCount(h, i, counts);
    hide Counted, Resized;
    if h.pc.Counting? || h.pc.Spinning? {
      assert |h.held + multiset{h.pc.guard}| == |h.held| + 1;
    }
  }

  lemma OwnCount(h: Hart, i: nat, counts: seq<nat>)
    ensures var counts' := Counted(counts, i, h.pc);
            && (h.pc.Resizing? ==> i < |counts'|) && (i < |counts| ==> i < |counts'|)
            && (h.pc.Counting? && i < |counts| ==> Count(counts', i) == Count(counts, i) + 1)
            && (h.pc.Dropping? && Count(counts, i) > 0 ==> Count(counts', i) == Count(counts, i) - 1)
            && (!h.pc.Counting? && !h.pc.Dropping? ==> Count(counts', i) == Count(counts, i))
  {
  }

  function BootSie(s: State): (boot: seq<nat>)
  {
    seq(|s.harts|, i requires 0 <= i < |s.harts| => s.harts[i].sie)
  }

  /** No count is cut off in the first `n` steps. */
  ghost predicate Orderly(states: seq<State>, actions: seq<Action>, n: nat)
    requires IsRun(states, actions) && n <= |actions|
  {
    forall k :: 0 <= k < n ==> !Loses(states[k], actions[k])
  }

  /** Interrupt discipline over every run in which no count is cut off. */
  lemma {:induction false} DisciplineHolds(states: seq<State>, actions: seq<Action>, n: nat)
    requires IsRun(states, actions) && n < |states| && Orderly(states, actions, n)
    ensures Discipline(states[n], BootSie(states[0]))
  {
    if n > 0 {
      hide Apply, Init, Discipline, BootSie, Loses;
      DisciplineHolds(states, actions, n - 1);
      DisciplineIff(states[n - 1], actions[n - 1], BootSie(states[0]));
    }
  }

  /** And in no other: a run is disciplined throughout if and only if no count is cut off. */
  lemma RunDisciplineIff(states: seq<State>, actions: seq<Action>)
    requires IsRun(states, actions)
    ensures (forall n :: 0 <= n < |states| ==> Discipline(states[n], BootSie(states[0]))) <==>
            Orderly(states, actions, |actions|)
  {
    hide Apply, Init, Discipline, BootSie, Loses;
    var boot := BootSie(states[0]);
    if forall n :: 0 <= n < |states| ==> Discipline(states[n], boot) {
      forall k | 0 <= k < |actions|
        ensures !Loses(states[k], actions[k])
      {
        assert Discipline(states[k], boot) && Discipline(states[k + 1], boot);
        DisciplineIff(states[k], actions[k], boot);
      }
    }
    if Orderly(states, actions, |actions|) {
      forall n | 0 <= n < |states|
        ensures Discipline(states[n], boot)
      {
        DisciplineHolds(states, actions, n);
      }
    }
  }

  /** A run is orderly when nobody makes the vector longer between a hart's look at its length and
      that hart's resize, as when the two are one step. */
  lemma UndisturbedIsOrderly(states: seq<State>, actions: seq<Action>)
    requires IsRun(states, actions)
    requires forall k :: 0 <= k < |actions| && actions[k].Step? && states[k].harts[actions[k].hart].pc.Resizing? ==>
               |states[k].counts| <= actions[k].hart
    ensures Orderly(states, actions, |actions|)
  {
    hide Apply, Init;
  }

  // ---- the race ----

  lemma Begin(s: State) returns (states: seq<State>, actions: seq<Action>)
    requires Init(s)
    ensures IsRun(states, actions) && states[|actions|] == s
  {
    states, actions := [s], [];
  }

  lemma Extend(states: seq<State>, actions: seq<Action>, a: Action, s: State)
      returns (states': seq<State>, actions': seq<Action>)
    requires IsRun(states, actions) && Enabled(states[|actions|], a) && Apply(states[|actions|], a) == s
    ensures IsRun(states', actions') && states'[|actions'|] == s
  {
    states', actions' := states + [s], actions + [a];
    hide Apply, Enabled, Init;
  }

  /** A hart with interrupts disabled and at most one guard. */
  function At(pc: Pc, held: multiset<Guard>): Hart
  {
    Hart(0, false, pc, held, multiset{})
  }

  /** Two harts and two locks, of which the second may be taken. */
  function Pair(a: Hart, b: Hart, counts: seq<nat>, second: nat): State
  {
    State([a, b], counts, [Guards(0, 0), Guards(0, second)])
  }

  const G0 := Guard(0, Exclusive)
  const G1 := Guard(1, Exclusive)

  /** Hart 0 finds the vector too short. */
  lemma RaceStart() returns (states: seq<State>, actions: seq<Action>)
    ensures IsRun(states, actions) &&
            states[|actions|] == Pair(At(Resizing(G0, true), multiset{}), At(Idle, multiset{}), [], 0)
  {
    hide IsRun, Resized;
    var idle := At(Idle, multiset{});
    states, actions := Begin(Pair(idle, idle, [], 0));
    states, actions := Extend(states, actions, Lock(0, G0), Pair(At(Disabling(G0, true), multiset{}), idle, [], 0));
    states, actions := Extend(states, actions, Step(0), Pair(At(Growing(G0, true), multiset{}), idle, [], 0));
    states, actions := Extend(states, actions, Step(0), Pair(At(Resizing(G0, true), multiset{}), idle, [], 0));
  }

  /** Hart 1 makes it two long. */
  lemma RaceGrow(states: seq<State>, actions: seq<Action>) returns (states': seq<State>, actions': seq<Action>)
    requires IsRun(states, actions)
    requires states[|actions|] == Pair(At(Resizing(G0, true), multiset{}), At(Idle, multiset{}), [], 0)
    ensures IsRun(states', actions')
    ensures states'[|actions'|]
            == Pair(At(Resizing(G0, true), multiset{}), At(Counting(G1, true), multiset{}), [0, 0], 0)
  {
    hide IsRun, Resized;
    var zero := At(Resizing(G0, true), multiset{});
    assert Resized([], 2) == [0, 0];
    states', actions' := Extend(states, actions, Lock(1, G1), Pair(zero, At(Disabling(G1, true), multiset{}), [], 0));
    states', actions' := Extend(states', actions', Step(1), Pair(zero, At(Growing(G1, true), multiset{}), [], 0));
    states', actions' := Extend(states', actions', Step(1), Pair(zero, At(Resizing(G1, true), multiset{}), [], 0));
    states', actions' := Extend(states', actions', Step(1), Pair(zero, At(Counting(G1, true), multiset{}), [0, 0], 0));
  }

  /** Hart 1 holds its lock. */
  lemma RaceHold(states: seq<State>, actions: seq<Action>) returns (states': seq<State>, actions': seq<Action>)
    requires IsRun(states, actions)
    requires states[|actions|]
            == Pair(At(Resizing(G0, true), multiset{}), At(Counting(G1, true), multiset{}), [0, 0], 0)
    ensures IsRun(states', actions')
    ensures states'[|actions'|] == Pair(At(Resizing(G0, true), multiset{}), At(Idle, multiset{G1}), [0, 1], 1)
  {
    hide IsRun, Resized;
    var zero := At(Resizing(G0, true), multiset{});
    assert multiset{} + multiset{G1} == multiset{G1};
    states', actions' := Extend(states, actions, Step(1), Pair(zero, At(Spinning(G1), multiset{}), [0, 1], 0));
    states', actions' := Extend(states', actions', Step(1), Pair(zero, At(Idle, multiset{G1}), [0, 1], 1));
  }

  /** Hart 0 cuts its count off, and hart 1 begins to unlock. */
  lemma RaceCut(states: seq<State>, actions: seq<Action>) returns (states': seq<State>, actions': seq<Action>)
    requires IsRun(states, actions)
    requires states[|actions|] == Pair(At(Resizing(G0, true), multiset{}), At(Idle, multiset{G1}), [0, 1], 1)
    ensures IsRun(states', actions')
    ensures states'[|actions'|] == Pair(At(Counting(G0, true), multiset{}), At(Dropping, multiset{}), [0], 0)
  {
    hide IsRun, Resized;
    var zero := At(Counting(G0, true), multiset{});
    assert Resized([0, 1], 1) == [0];
    assert multiset{G1} - multiset{G1} == multiset{};
    states', actions' := Extend(states, actions, Step(0), Pair(zero, At(Idle, multiset{G1}), [0], 1));
    states', actions' := Extend(states', actions', Unlock(1, G1), Pair(zero, At(Dropping, multiset{}), [0], 0));
  }

  /** The race is real: after this run hart 1 is about to lower a count that does not exist any
      more, which stops the kernel. */
  lemma CountLost() returns (states: seq<State>, actions: seq<Action>)
    ensures IsRun(states, actions)
    ensures var s := states[|actions|]; |s.harts| == 2 && s.harts[1].pc.Dropping? && |s.counts| == 1
  {
    states, actions := RaceStart();
    states, actions := RaceGrow(states, actions);
    states, actions := RaceHold(states, actions);
    states, actions := RaceCut(states, actions);
    hide IsRun;
  }

  // ---- who owns which lock ----

  /** How many times a hart owns an inner lock: its guards, its handler's, and one that a
      `try_lock` in progress has just taken. */
  function Owns(h: Hart, g: Guard): nat
  {
    h.held[g] + h.handlerHeld[g] + if Window(h.pc, g) then 1 else 0
  }

  predicate Window(pc: Pc, g: Guard)
  {
    (pc.Disabling? || pc.Growing? || pc.Resizing? || pc.Counting?) && !pc.waits && pc.guard == g
  }

  function Owners(harts: seq<Hart>, g: Guard): nat
  {
    if harts == [] then 0 else Owns(harts[0], g) + Owners(harts[1..], g)
  }

  lemma {:induction false} OwnersUpdate(harts: seq<Hart>, i: nat, h: Hart, g: Guard)
    requires i < |harts|
    ensures Owners(harts[i := h], g) + Owns(harts[i], g) == Owners(harts, g) + Owns(h, g)
    decreases |harts|
  {
    hide Owns;
    var harts' := harts[i := h];
    if i == 0 {
      assert harts'[1..] == harts[1..];
    } else {
      assert harts'[1..] == harts[1..][i - 1 := h];
      OwnersUpdate(harts[1..], i - 1, h, g);
    }
  }

  /** Two different harts' shares fit into the total. */
  lemma {:induction false} OwnersInclude(harts: seq<Hart>, i: nat, j: nat, g: Guard)
    requires i <= j < |harts|
    ensures Owners(harts, g) >= Owns(harts[j], g) + if i < j then Owns(harts[i], g) else 0
    decreases |harts|
  {
    hide Owns;
    if i > 0 {
      OwnersInclude(harts[1..], i - 1, j - 1, g);
    } else if j > 0 {
      OwnersInclude(harts[1..], j - 1, j - 1, g);
    }
  }

  lemma {:induction false} NoOwners(harts: seq<Hart>, g: Guard)
    requires forall i :: 0 <= i < |harts| ==> Owns(harts[i], g) == 0
    ensures Owners(harts, g) == 0
    decreases |harts|
  {
    hide Owns;
    if harts != [] {
      NoOwners(harts[1..], g);
    }
  }

  /** The guards of one lock that are owned by the harts. */
  function OwnedGuards(harts: seq<Hart>, l: nat): Guards
  {
    Guards(Owners(harts, Guard(l, Shared)), Owners(harts, Guard(l, Exclusive)))
  }

  /** Every inner lock counts exactly the guards that harts own, and excludes; nothing is owned
      that is not a lock. */
  ghost predicate Owning(s: State)
  {
    && (forall l :: 0 <= l < |s.locks| ==> s.locks[l] == OwnedGuards(s.harts, l) && Exclusion(s.locks[l]))
    && (forall g: Guard :: g.lock >= |s.locks| ==> Owners(s.harts, g) == 0)
  }

  /** An action changes what its hart owns as it changes the lock words. */
  lemma OwnsStep(h: Hart, a: Action, count: nat, long: bool, g: Guard)
    requires Allowed(h, a)
    ensures Owns(After(h, a, count, long), g)
            == Owns(h, g) + (if Wants(h, a) == Takes(g) then 1 else 0) - (if Wants(h, a) == Drops(g) then 1 else 0)
  {
    if a.Step? {
      OwnsGoOn(h, a, count, long, g);
    }
  }

  lemma OwnsGoOn(h: Hart, a: Action, count: nat, long: bool, g: Guard)
    requires a.Step? && Allowed(h, a)
    ensures Owns(After(h, a, count, long), g) == Owns(h, g) + if Wants(h, a) == Takes(g) then 1 else 0
  {
    var h' := After(h, a, count, long);
    if h.pc.Spinning? || (h.pc.Counting? && !h.pc.waits) {
      assert h'.held[g] == h.held[g] + if h.pc.guard == g then 1 else 0;
    } else {
      assert h'.held == h.held && h'.handlerHeld == h.handlerHeld;
    }
  }

  lemma OwningStep(s: State, a: Action)
    requires Enabled(s, a) && Owning(s)
    ensures Owning(Apply(s, a))
  {
    var s', i, c := Apply(s, a), a.hart, Wants(s.harts[a.hart], a);
    if !Refused(s.locks, c) {
      var h, h' := s.harts[i], After(s.harts[i], a, Count(s.counts, i), i < |s.counts|);
      assert s'.harts == s.harts[i := h'] && s'.locks == Changed(s.locks, c);
      forall g: Guard
        ensures Owners(s'.harts, g)
                == Owners(s.harts, g) + (if c == Takes(g) then 1 else 0) - (if c == Drops(g) then 1 else 0)
      {
        OwnsStep(h, a, Count(s.counts, i), i < |s.counts|, g);
        OwnersUpdate(s.harts, i, h', g);
      }
      hide Owners, Owns, Apply, After, Enabled, Wants;
      OwningChange(s, s', c);
    }
  }

  lemma OwningChange(s: State, s': State, c: Change)
    requires Owning(s) && Possible(s.locks, c) && !Refused(s.locks, c) && s'.locks == Changed(s.locks, c)
    requires forall g: Guard ::
               Owners(s'.harts, g)
                 == Owners(s.harts, g) + (if c == Takes(g) then 1 else 0) - (if c == Drops(g) then 1 else 0)
    ensures Owning(s')
  {
    hide Owners;
    forall l | 0 <= l < |s'.locks|
      ensures s'.locks[l] == OwnedGuards(s'.harts, l) && Exclusion(s'.locks[l])
    {
      assert s.locks[l] == OwnedGuards(s.harts, l) && Exclusion(s.locks[l]);
      hide Owning;
    }
  }

  /** Over every run each inner lock counts exactly the guards owned by the harts. */
  lemma {:induction false} OwningHolds(states: seq<State>, actions: seq<Action>, n: nat)
    requires IsRun(states, actions) && n < |states|
    ensures Owning(states[n])
  {
    if n == 0 {
      forall g
        ensures Owners(states[0].harts, g) == 0
      {
        NoOwners(states[0].harts, g);
      }
      hide Owners;
    } else {
      hide Apply, Enabled, Init, Owning;
      OwningHolds(states, actions, n - 1);
      OwningStep(states[n - 1], actions[n - 1]);
    }
  }

  /** Whoever owns a guard can always release it: the inner lock counts that guard, and the
      count of the hart exists and is positive. */
  lemma CanRelease(states: seq<State>, actions: seq<Action>, n: nat, i: nat, g: Guard)
    requires IsRun(states, actions) && n < |states| && i < |states[n].harts| && Orderly(states, actions, n)
    ensures var h := states[n].harts[i];
            && (!h.handler && h.pc.Idle? && g in h.held ==> Enabled(states[n], Unlock(i, g)))
            && (h.handler && g in h.handlerHeld ==> Enabled(states[n], HandlerUnlock(i, g)))
            && (h.pc.Dropping? ==> i < |states[n].counts| && states[n].counts[i] > 0)
  {
    OwningHolds(states, actions, n);
    DisciplineHolds(states, actions, n);
    var s, h := states[n], states[n].harts[i];
    assert Disciplined(h, i, s.counts, BootSie(states[0])[i]);
    hide Owners, Owning, Discipline, IsRun, Holds, Owns, BootSie, Orderly;
    if g in h.held || g in h.handlerHeld {
      OwnedIsCounted(s, i, g);
    }
  }

  lemma OwnedIsCounted(s: State, i: nat, g: Guard)
    requires Owning(s) && i < |s.harts| && (g in s.harts[i].held || g in s.harts[i].handlerHeld)
    ensures g.lock < |s.locks| && Holds(s.locks[g.lock], g.kind)
  {
    OwnersInclude(s.harts, i, i, g);
    assert Owners(s.harts, g) > 0;
    hide Owners, Owns;
    assert g == Guard(g.lock, g.kind);
    assert s.locks[g.lock] == OwnedGuards(s.harts, g.lock);
  }

  /** A lock owned exclusively by one hart is owned by no other hart, in any kind. */
  lemma ExclusiveAlone(states: seq<State>, actions: seq<Action>, n: nat, i: nat, j: nat, l: nat, k: Kind)
    requires IsRun(states, actions) && n < |states|
    requires i < |states[n].harts| && j < |states[n].harts| && i != j
    requires Owns(states[n].harts[i], Guard(l, Exclusive)) > 0
    ensures Owns(states[n].harts[j], Guard(l, k)) == 0
  {
    OwningHolds(states, actions, n);
    var s := states[n];
    OwnersInclude(s.harts, i, i, Guard(l, Exclusive));
    OwnersInclude(s.harts, j, j, Guard(l, k));
    OwnersInclude(s.harts, if i < j then i else j, if i < j then j else i, Guard(l, Exclusive));
    hide Owners, Owns, IsRun;
    assert Owners(s.harts, Guard(l, Exclusive)) > 0;
    assert l < |s.locks|;
    assert Exclusion(OwnedGuards(s.harts, l));
  }

  /** What the discipline is for: code that a handler interrupted owns no lock, except that a
      `try_lock` may be interrupted between taking the inner lock and clearing `sie`; and then
      it owns exactly that lock. */
  lemma HandlerFindsNoLock(states: seq<State>, actions: seq<Action>, n: nat, i: nat)
    requires IsRun(states, actions) && n < |states| && i < |states[n].harts| && states[n].harts[i].handler
    requires Orderly(states, actions, n)
    ensures var h := states[n].harts[i];
            h.held == multiset{} && Count(states[n].counts, i) == 0
            && forall g :: Owns(h, g) == h.handlerHeld[g] + if h.pc == Disabling(g, false) then 1 else 0
  {
    DisciplineHolds(states, actions, n);
    assert Disciplined(states[n].harts[i], i, states[n].counts, BootSie(states[0])[i]);
  }

  /** That exception is real: a hart whose boot `sie` is not zero can be interrupted with an
      exclusive lock taken, and then its own handler is refused that lock. */
  lemma TryLockWindow(boot: nat) returns (states: seq<State>, actions: seq<Action>)
    requires boot != 0
    ensures IsRun(states, actions) && |states| == 3 && |states[0].harts| == |states[2].harts| == 1
    ensures states[0].harts[0].sie == boot
    ensures states[2].harts[0].handler && Enabled(states[2], HandlerTry(0, Guard(0, Exclusive)))
    ensures states[2].harts[0].pc == Disabling(Guard(0, Exclusive), false)
    ensures Apply(states[2], HandlerTry(0, Guard(0, Exclusive))) == states[2]
  {
    var g := Guard(0, Exclusive);
    var h := Hart(boot, false, Idle, multiset{}, multiset{});
    var s := State([h], [], [Guards(0, 0)]);
    actions := [TryLock(0, g), Interrupt(0)];
    states := [s, Apply(s, actions[0]), Apply(Apply(s, actions[0]), actions[1])];
  }

  // ---- writes of sie ----

  /** `sie` is set again exactly when the count has returned to zero: the count of a hart falls
      to zero only in a step that leaves it about to write 0x222; that is the only state in
      which 0x222 is written; nothing else can happen on the hart before the write. */
  lemma EnablesAtZero(states: seq<State>, actions: seq<Action>, n: nat)
    requires IsRun(states, actions) && n < |actions| && Orderly(states, actions, n)
    ensures var s, s', i := states[n], states[n + 1], actions[n].hart;
            && (Count(s.counts, i) > 0 && Count(s'.counts, i) == 0 <==>
                !s.harts[i].pc.Enabling? && s'.harts[i].pc.Enabling?)
            && (s.harts[i].pc.Enabling? ==> actions[n] == Step(i) && s'.harts[i].sie == 0x222 && s'.harts[i].pc.Idle?)
            && (s'.harts[i].sie != s.harts[i].sie ==>
                  || (s.harts[i].pc.Enabling? && s'.harts[i].sie == 0x222)
                  || (s.harts[i].pc.Disabling? && s'.harts[i].sie == 0))
  {
    DisciplineHolds(states, actions, n);
    var s, a, i := states[n], actions[n], actions[n].hart;
    assert Disciplined(s.harts[i], i, s.counts, BootSie(states[0])[i]);
    assert states[n + 1] == Apply(s, a);
    HartEnables(s.harts[i], a, s.counts, BootSie(states[0])[i]);
    hide Discipline, IsRun, Orderly, After, Counted, Count, Disciplined, Allowed;
  }

  /** The same for one hart and its own action. */
  lemma HartEnables(h: Hart, a: Action, counts: seq<nat>, boot: nat)
    requires Disciplined(h, a.hart, counts, boot) && Allowed(h, a)
    ensures var i := a.hart;
            var h', counts' := After(h, a, Count(counts, i), i < |counts|),
                if a.Step? then Counted(counts, i, h.pc) else counts;
            && (Count(counts, i) > 0 && Count(counts', i) == 0 <==> !h.pc.Enabling? && h'.pc.Enabling?)
            && (h.pc.Enabling? ==> a == Step(i) && h'.sie == ENABLED && h'.pc.Idle?)
            && (h'.sie != h.sie ==> (h.pc.Enabling? && h'.sie == ENABLED) || (h.pc.Disabling? && h'.sie == 0))
  {
    OwnCount(h, a.hart, counts);
    hide Counted;
  }

  // ---- the calls of one hart ----

  /** `create_hart_lock_count_entry_if_necessary`, undisturbed. */
  function Grown(counts: seq<nat>, i: nat): (r: seq<nat>)
    ensures i < |r| && |r| >= |counts| && forall j :: 0 <= j < |r| ==> r[j] == Count(counts, j)
  {
    if i < |counts| then counts else Resized(counts, i + 1)
  }

  class HartLockCount {
    var counts: seq<nat>
    var sie: seq<nat>

    method CreateEntryIfNecessary(idx: nat) returns (grew: bool)
      modifies `counts
      ensures counts == Grown(old(counts), idx) && grew == (idx >= |old(counts)|)
    {
      grew := false;
      if idx >= |counts| {
        var c := counts;
        while |c| < idx + 1
          invariant |old(counts)| <= |c| <= idx + 1 && c == old(counts) + seq(|c| - |old(counts)|, _ => 0)
        {
          c := c + [0];
        }
        counts := c;
        grew := true;
      }
    }

    /** `lock_and_disable_interrupts`, as the steps of the transition system when undisturbed. */
    method LockAndDisable(i: nat, handler: bool)
      requires i < |sie|
      modifies this
      ensures handler ==> unchanged(this)
      ensures !handler ==> sie == old(sie)[i := 0] && Count(counts, i) == old(Count(counts, i)) + 1
      ensures forall j :: j != i ==> Count(counts, j) == old(Count(counts, j))
      ensures !handler ==> counts == Counted(Grown(old(counts), i), i, Counting(G0, true))
    {
      if !handler {
        sie := sie[i := 0];
        var _ := CreateEntryIfNecessary(i);
        counts := counts[i := counts[i] + 1];
      }
    }

    /** `unlock_and_enable_interrupts_if_necessary`. */
    method UnlockAndEnable(i: nat, handler: bool)
      requires i < |sie| && (handler || Count(counts, i) > 0)
      modifies this
      ensures handler ==> unchanged(this)
      ensures !handler ==> Count(counts, i) == old(Count(counts, i)) - 1
      ensures !handler ==> sie == if Count(counts, i) == 0 then old(sie)[i := 0x222] else old(sie)
      ensures forall j :: j != i ==> Count(counts, j) == old(Count(counts, j))
      ensures !handler ==> counts == Counted(old(counts), i, Dropping)
    {
      if !handler {
        counts := counts[i := counts[i] - 1];
        if counts[i] == 0 {
          sie := sie[i := ENABLED];
        }
      }
    }
  }
}
