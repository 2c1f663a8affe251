/** The compare-and-swap reader/writer lock: interleaved loads, compare-and-swaps and unlocks
    of any number of threads, and the two retry loops against interference. */
module SpinRwLock {
  import opened Arith
  import opened RwGuards

  const SHARED: nat := 2
  const WRITER: nat := 1
  const MAX_READERS: nat := 0x8000_0000_0000_0000

  // ---- the lock word ----

  function Unit(k: Kind): nat
  {
    if k.Shared? then SHARED else WRITER
  }

  /** The test on a loaded word: a reader is refused by a set writer bit, a writer by any bit. */
  predicate Refused(k: Kind, word: nat)
  {
    if k.Shared? then word % 2 != 0 else word != 0
  }

  /** `outdated_value + SHARED` and `+ WRITER` on 64 bits. */
  function Raised(k: Kind, word: nat): nat
  {
    (word + Unit(k)) % WORD
  }

  /** `fetch_sub`, which wraps. */
  function Lowered(k: Kind, word: nat): nat
  {
    (word + WORD - Unit(k)) % WORD
  }

  function WordOf(g: Guards): nat
  {
    (2 * g.readers + g.writers) % WORD
  }

  // ---- the transition system ----

  /** Where a thread is in `try_lock_*`: outside, about to load, or about to compare-and-swap
      with the value it loaded. */
  datatype Pc = Idle | Loading(kind: Kind) | Swapping(kind: Kind, outdated: nat)

  /** The word, the guards outstanding, and the threads. */
  datatype State = State(word: nat, guards: Guards, threads: seq<Pc>)

  datatype Action =
    | Call(thread: nat, kind: Kind)
    | Load(thread: nat)
    | CompareExchange(thread: nat)
    | Unlock(kind: Kind)                   // by whoever holds a guard of this kind

  predicate Enabled(s: State, a: Action)
  {
    match a
    case Call(t, _) => t < |s.threads| && s.threads[t].Idle?
    case Load(t) => t < |s.threads| && s.threads[t].Loading?
    case CompareExchange(t) => t < |s.threads| && s.threads[t].Swapping?
    case Unlock(k) => Holds(s.guards, k)
  }

  function Apply(s: State, a: Action): State
    requires Enabled(s, a)
  {
    match a
    case Call(t, k) => s.(threads := s.threads[t := Loading(k)])
    case Load(t) =>
      var k := s.threads[t].kind;
      s.(threads := s.threads[t := if Refused(k, s.word) then Idle else Swapping(k, s.word)])
    case CompareExchange(t) =>
      var pc := s.threads[t];
      if s.word == pc.outdated then
        State(Raised(pc.kind, s.word), Added(s.guards, pc.kind), s.threads[t := Idle])
      else s.(threads := s.threads[t := Loading(pc.kind)])
    case Unlock(k) => s.(word := Lowered(k, s.word), guards := Removed(s.guards, k))
  }

  datatype Outcome = Continues | Returns(kind: Kind, ok: bool)

  /** Whether the action makes a `try_lock_*` call return, and what it returns. */
  function Result(s: State, a: Action): Outcome
    requires Enabled(s, a)
  {
    if a.Load? && Refused(s.threads[a.thread].kind, s.word) then Returns(s.threads[a.thread].kind, false)
    else if a.CompareExchange? && s.word == s.threads[a.thread].outdated then Returns(s.threads[a.thread].kind, true)
    else Continues
  }

  predicate Init(s: State)
  {
    s.word == 0 && s.guards == Guards(0, 0) && forall t :: 0 <= t < |s.threads| ==> s.threads[t].Idle?
  }

  ghost predicate IsRun(states: seq<State>, actions: seq<Action>)
  {
    && |states| == |actions| + 1 && Init(states[0])
    && forall i :: 0 <= i < |actions| ==>
         Enabled(states[i], actions[i]) && states[i + 1] == Apply(states[i], actions[i])
  }

  /** A value that is about to be swapped in was not refused when it was loaded. */
  ghost predicate Admitted(s: State)
  {
    forall t :: 0 <= t < |s.threads| && s.threads[t].Swapping? ==> !Refused(s.threads[t].kind, s.threads[t].outdated)
  }

  /** The word counts the guards modulo 2^64; this needs no bound on the readers. */
  ghost predicate WordInv(s: State)
  {
    s.word == WordOf(s.guards) && Admitted(s)
  }

  ghost predicate Inv(s: State)
  {
    WordInv(s) && Exclusion(s.guards)
  }

  lemma WordExact(g: Guards)
    requires g.readers < MAX_READERS && Exclusion(g)
    ensures WordOf(g) == 2 * g.readers + g.writers
    ensures forall k :: Refused(k, WordOf(g)) <==> !Admits(g, k)
  {
    DivSmall(2 * g.readers + g.writers);
  }

  lemma DivSmall(n: nat)
    requires n < WORD
    ensures n % WORD == n
  {
  }

  /** The low bit of the word is the writer's, however many readers there are. */
  lemma WordParity(g: Guards)
    ensures WordOf(g) % 2 == g.writers % 2 && WordOf(g) < WORD
    ensures WordOf(g) == 0 && 0 < 2 * g.readers + g.writers ==> 2 * g.readers + g.writers >= WORD
  {
    var n, w := 2 * g.readers + g.writers, WordOf(g);
    var q := n / WORD;
    assert n == q * WORD + w;
    Parity(g.readers, g.writers, q * MAX_READERS, w) by {
      assert q * WORD == 2 * (q * MAX_READERS);
    }
    MulSign(q, WORD);
  }

  lemma Parity(r: int, w: int, m: int, x: int)
    requires 2 * r + w == 2 * m + x
    ensures w % 2 == x % 2
  {
    assert x == w + 2 * (r - m);
  }

  lemma WordMoves(g: Guards, k: Kind)
    ensures Raised(k, WordOf(g)) == WordOf(Added(g, k))
    ensures Holds(g, k) ==> Lowered(k, WordOf(g)) == WordOf(Removed(g, k))
  {
    var n, u := 2 * g.readers + g.writers, Unit(k);
    var q, w := n / WORD, WordOf(g);
    assert n == q * WORD + w;
    Wraps(w + u, q);
    if Holds(g, k) {
      Wraps(w + WORD - u, q - 1);
      Distribute(q, 1, WORD);
    }
    hide WORD;
  }

  /** Whole turns do not matter. */
  lemma Wraps(x: int, q: int)
    ensures (q * WORD + x) % WORD == x % WORD
  {
    ModOfMultiple(q, WORD);
    ModAdd(x, q * WORD, WORD);
  }

  lemma WordStep(s: State, a: Action)
    requires WordInv(s) && Enabled(s, a)
    ensures WordInv(Apply(s, a))
  {
    if a.CompareExchange? && s.word == s.threads[a.thread].outdated {
      WordMoves(s.guards, s.threads[a.thread].kind);
    } else if a.Unlock? {
      WordMoves(s.guards, a.kind);
    }
    hide WordOf, Raised, Lowered;
  }

  /** The one kind of step that breaks exclusion: an exclusive swap on an unchanged word while the
      number of readers is a positive multiple of 2^63. */
  predicate Breaks(s: State, a: Action)
    requires Enabled(s, a)
  {
    && a.CompareExchange? && s.threads[a.thread].kind.Exclusive? && s.word == s.threads[a.thread].outdated
    && s.guards.readers > 0 && s.guards.readers % MAX_READERS == 0
  }

  lemma BreaksIff(s: State, a: Action)
    requires Inv(s) && Enabled(s, a)
    ensures Exclusion(Apply(s, a).guards) <==> !Breaks(s, a)
  {
    WordParity(s.guards);
    if a.CompareExchange? && s.word == s.threads[a.thread].outdated {
      assert !Refused(s.threads[a.thread].kind, s.word);
      if s.word == 0 {
        WrappedReaders(s.guards);
      }
    }
    hide WordOf, Raised, Lowered;
  }

  /** The word is zero beside readers exactly at multiples of 2^63. */
  lemma WrappedReaders(g: Guards)
    requires WordOf(g) == 0 && g.writers == 0
    ensures g.readers % MAX_READERS == 0
  {
    var q := 2 * g.readers / WORD;
    assert 2 * g.readers == q * WORD;
    assert g.readers == q * MAX_READERS;
    ModOfMultiple(q, MAX_READERS);
  }

  /** In every run the word counts the guards modulo 2^64, and it is their exact count if and only
      if there are fewer than 2^63 readers or exclusion has been lost already. */
  lemma {:induction false} RunWord(states: seq<State>, actions: seq<Action>, i: nat)
    requires IsRun(states, actions) && i < |states|
    ensures WordInv(states[i])
    ensures Exclusion(states[i].guards) ==>
              (states[i].word == 2 * states[i].guards.readers + states[i].guards.writers <==>
                  states[i].guards.readers < MAX_READERS)
  {
    if i == 0 {
      assert WordInv(states[0]);
    } else {
      hide Apply, Enabled, WordInv;
      RunWord(states, actions, i - 1);
      WordStep(states[i - 1], actions[i - 1]);
    }
    WordCount(states[i]);
  }

  lemma WordCount(s: State)
    requires WordInv(s)
    ensures Exclusion(s.guards) ==>
            (s.word == 2 * s.guards.readers + s.guards.writers <==> s.guards.readers < MAX_READERS)
  {
    WordParity(s.guards);
    if Exclusion(s.guards) && s.guards.readers < MAX_READERS {
      WordExact(s.guards);
    }
    hide WordOf;
  }

  /** Fewer than 2^63 read guards were outstanding in every state before state `i`. */
  ghost predicate Bounded(states: seq<State>, i: nat)
    requires i <= |states|
  {
    forall k :: 0 <= k < i ==> states[k].guards.readers < MAX_READERS
  }

  /** Reader/writer exclusion: in every interleaving with fewer than 2^63 readers, the word is twice
      the readers plus the writers, there is at most one writer, and never a writer beside a
      reader. */
  lemma {:induction false} ExclusionHolds(states: seq<State>, actions: seq<Action>, i: nat)
    requires IsRun(states, actions) && i < |states| && Bounded(states, i)
    ensures Inv(states[i])
    ensures states[i].word == 2 * states[i].guards.readers + states[i].guards.writers <==>
            states[i].guards.readers < MAX_READERS
  {
    RunWord(states, actions, i);
    if i > 0 {
      hide Apply, WordInv, Exclusion;
      ExclusionHolds(states, actions, i - 1);
      SmallReaders(states[i - 1].guards.readers);
      BreaksIff(states[i - 1], actions[i - 1]);
    }
  }

  lemma SmallReaders(n: nat)
    requires n < MAX_READERS
    ensures n % MAX_READERS == n
  {
    DivUnique(n, MAX_READERS, 0, n);
  }

  /** Without any bound: exclusion holds in every state of a run if and only if no step of the run
      is an exclusive swap on an unchanged word while the readers are a positive multiple of 2^63. */
  lemma RunExclusionIff(states: seq<State>, actions: seq<Action>)
    requires IsRun(states, actions)
    ensures (forall i :: 0 <= i < |states| ==> Exclusion(states[i].guards))
        <==> (forall i :: 0 <= i < |actions| ==> !Breaks(states[i], actions[i]))
  {
    hide Apply, Breaks, Exclusion, WordInv, Init;
    if forall i :: 0 <= i < |states| ==> Exclusion(states[i].guards) {
      forall i | 0 <= i < |actions|
        ensures !Breaks(states[i], actions[i])
      {
        RunWord(states, actions, i);
        assert Exclusion(states[i].guards) && Exclusion(states[i + 1].guards);
        BreaksIff(states[i], actions[i]);
      }
    }
    if forall i :: 0 <= i < |actions| ==> !Breaks(states[i], actions[i]) {
      forall i | 0 <= i < |states|
        ensures Exclusion(states[i].guards)
      {
        Unbroken(states, actions, i);
      }
    }
  }

  lemma {:induction false} Unbroken(states: seq<State>, actions: seq<Action>, i: nat)
    requires IsRun(states, actions) && i < |states| && forall k :: 0 <= k < i ==> !Breaks(states[k], actions[k])
    ensures Exclusion(states[i].guards)
  {
    if i > 0 {
      hide Apply, Breaks, Exclusion, WordInv;
      Unbroken(states, actions, i - 1);
      RunWord(states, actions, i - 1);
      BreaksIff(states[i - 1], actions[i - 1]);
    }
  }

  /** Each call refines one atomic step of the abstract lock, whatever stale values it loaded:
      the action that returns `ok` takes a guard exactly if the abstract lock admits it at that
      moment; every other action of a call leaves the guards alone; an unlock removes one. */
  lemma TryLockIsAtomic(states: seq<State>, actions: seq<Action>, i: nat)
    requires IsRun(states, actions) && i < |actions| && Bounded(states, i + 1)
    ensures var g, g' := states[i].guards, states[i + 1].guards;
            match Result(states[i], actions[i])
            case Returns(k, ok) => ok == Admits(g, k) && g' == if Admits(g, k) then Added(g, k) else g
            case Continues =>
              if actions[i].Unlock? then Holds(g, actions[i].kind) && g' == Removed(g, actions[i].kind) else g' == g
  {
    ExclusionHolds(states, actions, i);
    WordExact(states[i].guards);
    hide WordOf, Raised, Lowered;
  }

  /** A compare-and-swap fails only because the word changed after this thread's load, so a
      thread that retries was overtaken by an unlock or by another thread's success. */
  lemma RetryMeansProgress(states: seq<State>, actions: seq<Action>, i: nat, j: nat, t: nat)
    requires IsRun(states, actions) && i < j < |actions|
    requires actions[i] == Load(t) && Result(states[i], actions[i]).Continues?
    requires forall k :: i < k < j ==> actions[k] != CompareExchange(t)
    requires actions[j] == CompareExchange(t) && Result(states[j], actions[j]).Continues?
    ensures exists k :: i < k < j && states[k].word != states[k + 1].word
              && (actions[k].Unlock? || Result(states[k], actions[k]).Returns?)
  {
    if forall k :: i < k < j ==> states[k].word == states[k + 1].word {
      Unmoved(states, actions, i, j, t);
    } else {
      var k :| i < k < j && states[k].word != states[k + 1].word;
      assert actions[k].Unlock? || Result(states[k], actions[k]).Returns?;
    }
  }

  lemma {:induction false} Unmoved(states: seq<State>, actions: seq<Action>, i: nat, j: nat, t: nat)
    requires IsRun(states, actions) && i < j < |states|
    requires actions[i] == Load(t) && Result(states[i], actions[i]).Continues?
    requires forall k :: i < k < j ==> actions[k] != CompareExchange(t)
    requires forall k :: i < k < j ==> states[k].word == states[k + 1].word
    ensures t < |states[j].threads| && states[j].threads[t].Swapping? && states[j].threads[t].outdated == states[j].word
    decreases j
  {
    if j > i + 1 {
      Unmoved(states, actions, i, j - 1, t);
      assert states[j] == Apply(states[j - 1], actions[j - 1]);
    } else {
      assert states[j] == Apply(states[i], actions[i]);
    }
    hide Raised, Lowered;
  }

  // ---- 2^63 readers ----

  /** One more reader, in three steps of thread 0. */
  lemma OneMoreReader(states: seq<State>, actions: seq<Action>) returns (states': seq<State>, actions': seq<Action>)
    requires IsRun(states, actions)
    requires var s := states[|actions|]; s.threads == [Idle] && s.guards.writers == 0 && s.word == WordOf(s.guards)
    ensures IsRun(states', actions')
    ensures var s, s' := states[|actions|], states'[|actions'|];
            s'.threads == [Idle] && s'.guards == Added(s.guards, Shared) && s'.word == WordOf(s'.guards)
  {
    var s := states[|actions|];
    assert !Refused(Shared, s.word);
    WordMoves(s.guards, Shared);
    hide WordOf;
    states', actions' := Extend(states, actions, Call(0, Shared));
    states', actions' := Extend(states', actions', Load(0));
    states', actions' := Extend(states', actions', CompareExchange(0));
  }

  lemma Extend(states: seq<State>, actions: seq<Action>, a: Action) returns (states': seq<State>, actions': seq<Action>)
    requires IsRun(states, actions) && Enabled(states[|actions|], a)
    ensures IsRun(states', actions') && states'[|actions'|] == Apply(states[|actions|], a)
  {
    states', actions' := states + [Apply(states[|actions|], a)], actions + [a];
  }

  lemma {:induction false} ManyReaders(n: nat) returns (states: seq<State>, actions: seq<Action>)
    ensures IsRun(states, actions)
    ensures var s := states[|actions|]; s.threads == [Idle] && s.guards == Guards(n, 0) && s.word == WordOf(s.guards)
  {
    hide Apply;
    if n == 0 {
      states, actions := [State(0, Guards(0, 0), [Idle])], [];
    } else {
      states, actions := ManyReaders(n - 1);
      states, actions := OneMoreReader(states, actions);
    }
  }

  /** The bound is needed: there is a run in which 2^63 read guards make the word wrap to zero,
      and a writer then enters beside them. */
  lemma WriterAmongReaders() returns (states: seq<State>, actions: seq<Action>)
    ensures IsRun(states, actions) && states[|actions|].guards == Guards(MAX_READERS, 1)
  {
    states, actions := ManyReaders(MAX_READERS);
    states, actions := Extend(states, actions, Call(0, Exclusive));
    states, actions := Extend(states, actions, Load(0));
    states, actions := Extend(states, actions, CompareExchange(0));
  }

  // ---- the retry loop ----

  /** The word this thread sees after `k` interventions of other threads, each of which may
      leave any word behind. */
  function Seen(word: nat, others: seq<nat>, k: nat): nat
    requires k <= |others|
  {
    if k == 0 then word else others[k - 1]
  }

  class RawSpinRwLock {
    var value: nat

    constructor ()
      ensures value == 0
    {
      value := 0;
    }

    /** Before an access of this thread, the others intervene as long as they have something left
        to do. */
    method Intervene(others: seq<nat>, k: nat) returns (k': nat)
      requires k <= |others|
      modifies this
      ensures k <= k' <= |others| && (k < |others| ==> k' == k + 1)
      ensures value == if k < |others| then others[k] else old(value)
    {
      k' := k;
      if k < |others| {
        value := others[k];
        k' := k + 1;
      }
    }

    /** `try_lock_shared` and `try_lock_exclusive`.  Under any finite interference the loop ends,
        and it is one atomic step on the word of its last access: it refuses exactly a word it
        must refuse, and otherwise adds its unit to exactly that word. */
    method TryLock(kind: Kind, others: seq<nat>) returns (ok: bool, k: nat)
      modifies this
      ensures k <= |others|
      ensures var word := Seen(old(value), others, k);
              ok == !Refused(kind, word) && value == if ok then Raised(kind, word) else word
    {
      k := Intervene(others, 0);
      var outdated := value;
      if Refused(kind, outdated) {
        return false, k;
      }
      while true
        invariant k <= |others| && value == outdated == Seen(old(value), others, k) && !Refused(kind, outdated)
        decreases |others| - k
      {
        k := Intervene(others, k);
        if value == outdated {
          value := Raised(kind, outdated);
          return true, k;
        }
        k := Intervene(others, k);
        outdated := value;
        if Refused(kind, outdated) {
          return false, k;
        }
      }
    }

    /** `unlock_shared` and `unlock_exclusive`: the word of the remaining guards. */
    method Unlock(kind: Kind, ghost guards: Guards)
      requires Holds(guards, kind) && value == WordOf(guards)
      modifies this
      ensures value == WordOf(Removed(guards, kind))
    {
      WordMoves(guards, kind);
      value := Lowered(kind, value);
    }
  }
}
