/** One hart switching between the kernel and processes with frames of their own. */
module ContextRuns {
  import opened TrapCode

  /** `call` is the machine at the call that parked the kernel in `own`; in `Back` the kernel is at
      the return point of that call. */
  datatype Mode =
    | Kernel
    | Running(process: nat, own: int, call: Machine)
    | Back(process: nat, own: int, call: Machine)

  datatype System = System(m: Machine, frames: seq<int>, states: seq<ProcessState>, beforeReturn: int, mode: Mode)

  datatype Action =
    | Work(x: seq<int>, pc: int, writes: Memory)     // whoever runs computes something
    | Raise(sip: int, timer: int)                    // interrupts become pending, timers are set
    | SwitchIn(process: nat, own: int, stack: Memory)
    | Trap(scause: nat, stack: Memory)
    | Return                                         // the code at the return point

  /** The whole word at `a` lies outside the frame. */
  predicate Outside(a: int, frame: int)
  {
    a + XLEN <= frame || a >= frame + FRAME_WORDS * XLEN
  }

  predicate Avoids(writes: Memory, frame: int)
  {
    forall a :: a in writes ==> Outside(a, frame)
  }

  /** No word that is written overlaps the word at `b`. */
  predicate Spares(writes: Memory, b: int)
  {
    forall a :: a in writes ==> a + XLEN <= b || b + XLEN <= a
  }

  /** The stack word that holds the return address of a parked call. */
  function Slot(call: Machine): int
    requires |call.x| == 32
  {
    call.x[SP] - 16
  }

  /** Nobody writes into the frames of processes, nor into the kernel's current frame, nor, while a
      call is parked, into its frame and the stack word of its return address. */
  predicate Harmless(s: System, writes: Memory)
  {
    && (forall p :: 0 <= p < |s.frames| ==> Avoids(writes, s.frames[p]))
    && (s.mode.Kernel? ==> Avoids(writes, s.m.sscratch))
    && (!s.mode.Kernel? ==> Avoids(writes, s.mode.own) && (|s.mode.call.x| == 32 ==> Spares(writes, Slot(s.mode.call))))
  }

  /** A switch is made from the kernel with a fresh frame in `a0`. */
  predicate Enabled(s: System, a: Action)
  {
    match a
    case Work(x, _, writes) => !s.mode.Back? && Registers(x) && Harmless(s, writes)
    case Raise(_, _) => true
    case SwitchIn(p, own, stack) =>
      && s.mode.Kernel? && p < |s.frames| == |s.states| && Registers(s.m.x) && s.m.x[A0] == own && own != 0
      && Apart(own, s.m.sscratch) && Outside(Slot(s.m), own)
      && (forall q :: 0 <= q < |s.frames| ==> Apart(own, s.frames[q]) && Outside(Slot(s.m), s.frames[q]))
      && Harmless(s, stack) && Avoids(stack, own) && Spares(stack, Slot(s.m))
    case Trap(_, stack) => Registers(s.m.x) && Harmless(s, stack)
    case Return => s.mode.Back? && Registers(s.m.x) && s.mode.process < |s.states|
  }

  function Apply(s: System, a: Action): System
    requires Enabled(s, a)
  {
    match a
    case Work(x, pc, writes) => s.(m := s.m.(x := x, pc := pc, mem := s.m.mem + writes))
    case Raise(sip, timer) => s.(m := s.m.(sip := sip, timer := timer))
    case SwitchIn(p, own, stack) =>
      s.(m := SwitchedIn(s.m, own, s.frames[p], stack, s.beforeReturn), states := s.states[p := Active],
          mode := Running(p, own, s.m))
    case Trap(scause, stack) =>
      s.(m := Trapped(s.m, scause, stack),
         mode := if s.mode.Running? then Back(s.mode.process, s.mode.own, s.mode.call) else s.mode)
    case Return => s.(m := Returned(s.m), states := s.states[s.mode.process := Paused], mode := Kernel)
  }

  // ---- contexts ----

  /** General registers 1 to 31 and the program counter. */
  datatype Context = Context(registers: seq<int>, pc: int)

  function Current(m: Machine): Context
    requires Registers(m.x)
  {
    Context(m.x[1..], m.pc)
  }

  function InFrame(mem: Memory, frame: int): Context
  {
    Context(Loaded(mem, frame)[1..], Word(mem, frame, PC))
  }

  /** The context of a process: current while it runs, otherwise in its frame. */
  function ProcessContext(s: System, p: nat): Context
    requires p < |s.frames| && Registers(s.m.x)
  {
    if s.mode.Running? && s.mode.process == p then Current(s.m) else InFrame(s.m.mem, s.frames[p])
  }

  /** What the frame of a parked call must hold: its registers with the stack pointer lowered,
      the return point, its page table; and on the stack its return address. */
  predicate Parks(mem: Memory, own: int, call: Machine, beforeReturn: int)
  {
    && Registers(call.x) && Loaded(mem, own) == call.x[SP := Slot(call)]
    && Word(mem, own, PC) == beforeReturn && Word(mem, own, SATP) == call.satp && Word(mem, own, RESTORE_CONTEXT) == 0
    && Read(mem, Slot(call)) == call.x[RA]
    && Inherits(mem, own, call)
  }

  /** The hart's identity, locals, flags and interrupt stack are those of the frame that was current
      at the call. */
  predicate Inherits(mem: Memory, own: int, call: Machine)
  {
    && Word(mem, own, 33) == Word(call.mem, call.sscratch, 33)
    && Word(mem, own, 35) == Word(call.mem, call.sscratch, 35)
    && Word(mem, own, 36) == Word(call.mem, call.sscratch, 36)
    && Word(mem, own, 39) == Word(call.mem, call.sscratch, 39)
  }

  ghost predicate Separate(s: System)
  {
    && |s.frames| == |s.states|
    && (forall p, q :: 0 <= p < q < |s.frames| ==> Apart(s.frames[p], s.frames[q]))
  }

  /** Exactly the process of the call in progress is marked as running. */
  ghost predicate Marked(s: System)
  {
    forall q :: 0 <= q < |s.states| ==> (s.states[q].Active? <==> !s.mode.Kernel? && s.mode.process == q)
  }

  /** The frame and the return address of the call in progress are clear of all process frames. */
  ghost predicate Clear(s: System)
    requires !s.mode.Kernel?
  {
    && Parks(s.m.mem, s.mode.own, s.mode.call, s.beforeReturn) && Outside(Slot(s.mode.call), s.mode.own)
    && forall q :: 0 <= q < |s.frames| ==> Apart(s.mode.own, s.frames[q]) && Outside(Slot(s.mode.call), s.frames[q])
  }

  /** The current frame is the running process's, or one that overlaps no process's and names no
      other context. */
  ghost predicate Inv(s: System)
  {
    && Registers(s.m.x) && Separate(s) && Marked(s)
    && match s.mode
       case Kernel =>
         && Word(s.m.mem, s.m.sscratch, RESTORE_CONTEXT) == 0
         && forall q :: 0 <= q < |s.frames| ==> Apart(s.m.sscratch, s.frames[q])
       case Running(p, own, call) =>
         && p < |s.frames| && s.m.sscratch == s.frames[p] && own != 0 && Clear(s)
         && Word(s.m.mem, s.frames[p], RESTORE_CONTEXT) == own
         && s.m.satp == Word(s.m.mem, s.frames[p], SATP) && s.m.sie == SIE_ON && s.m.sstatus / 0x100 % 2 == 1
       case Back(p, own, call) =>
         && p < |s.frames| && s.m.sscratch == own && Clear(s)
         && s.m.x == Loaded(s.m.mem, own) && s.m.pc == s.beforeReturn && s.m.satp == call.satp
  }

  // ---- memory ----

  /** All words of a frame but the restore context are the same. */
  predicate SameFrame(mem: Memory, mem': Memory, frame: int)
  {
    forall i :: 0 <= i < RESTORE_CONTEXT ==> Word(mem', frame, i) == Word(mem, frame, i)
  }

  lemma SameContext(mem: Memory, mem': Memory, frame: int)
    requires SameFrame(mem, mem', frame)
    ensures InFrame(mem', frame) == InFrame(mem, frame) && Loaded(mem', frame) == Loaded(mem, frame)
    ensures Word(mem', frame, PC) == Word(mem, frame, PC) && Word(mem', frame, SATP) == Word(mem, frame, SATP)
  {
    hide Word;
    assert Loaded(mem', frame) == Loaded(mem, frame);
  }

  lemma HarmlessWrites(mem: Memory, writes: Memory, frame: int)
    requires Avoids(writes, frame)
    ensures SameFrame(mem, mem + writes, frame)
    ensures Word(mem + writes, frame, RESTORE_CONTEXT) == Word(mem, frame, RESTORE_CONTEXT)
  {
    forall i | 0 <= i <= RESTORE_CONTEXT
      ensures Word(mem + writes, frame, i) == Word(mem, frame, i)
    {
      assert !Outside(frame + i * XLEN, frame);
    }
  }

  lemma SparedRead(mem: Memory, writes: Memory, b: int)
    requires Spares(writes, b)
    ensures Read(mem + writes, b) == Read(mem, b)
  {
    assert b !in writes;
  }

  /** Saving leaves frames apart from the current one alone. */
  lemma SavedElsewhere(m: Machine, frame: int)
    requires |m.x| == 32 && Apart(m.sscratch, frame)
    ensures SameFrame(m.mem, Saved(m), frame)
    ensures Word(Saved(m), frame, RESTORE_CONTEXT) == Word(m.mem, frame, RESTORE_CONTEXT)
  {
    StoredReads(m.mem, m.sscratch, m.x, 32);
    hide Stored;
  }

  lemma SavedHere(m: Machine)
    requires Registers(m.x)
    ensures InFrame(Saved(m), m.sscratch) == Current(m) && Loaded(Saved(m), m.sscratch) == m.x
    ensures forall i :: PC < i < FRAME_WORDS ==> Word(Saved(m), m.sscratch, i) == Word(m.mem, m.sscratch, i)
    ensures forall a :: Outside(a, m.sscratch) ==> Read(Saved(m), a) == Read(m.mem, a)
  {
    StoredReads(m.mem, m.sscratch, m.x, 32);
    hide Stored;
    forall i | 1 <= i < 32
      ensures Word(Saved(m), m.sscratch, i) == m.x[i]
    {
    }
    assert Loaded(Saved(m), m.sscratch) == m.x;
  }

  /** The memory in which the kernel is parked. */
  function SwitchMemory(m: Machine, own: int, stack: Memory, beforeReturn: int): Memory
    requires |m.x| == 32
  {
    var made := m.(mem := Stored(m.mem, own, NewFrame(m.mem, m.sscratch, m.satp), FRAME_WORDS));
    Parked(made, own, beforeReturn) + stack
  }

  lemma MadeReads(m: Machine, own: int) returns (made: Memory)
    ensures made == Stored(m.mem, own, NewFrame(m.mem, m.sscratch, m.satp), FRAME_WORDS)
    ensures Word(made, own, SATP) == m.satp && Word(made, own, RESTORE_CONTEXT) == 0 && Inherits(made, own, m)
    ensures forall a :: Outside(a, own) ==> Read(made, a) == Read(m.mem, a)
  {
    var words := NewFrame(m.mem, m.sscratch, m.satp);
    made := Stored(m.mem, own, words, FRAME_WORDS);
    StoredReads(m.mem, own, words, FRAME_WORDS);
    hide Stored, Word;
  }

  lemma ParkedReads(m: Machine, own: int, beforeReturn: int)
    requires Registers(m.x) && Outside(Slot(m), own)
    ensures var mem := Parked(m, own, beforeReturn);
            && Loaded(mem, own) == m.x[SP := Slot(m)] && Word(mem, own, PC) == beforeReturn
            && Word(mem, own, SATP) == Word(m.mem, own, SATP) && Read(mem, Slot(m)) == m.x[RA]
            && (forall i :: PC < i < FRAME_WORDS ==> Word(mem, own, i) == Word(m.mem, own, i))
            && forall a :: Outside(a, own) && a != Slot(m) ==> Read(mem, a) == Read(m.mem, a)
  {
    var x := m.x[SP := Slot(m)];
    var mem0 := m.mem[Slot(m) := m.x[RA]];
    var mem := Parked(m, own, beforeReturn);
    var stored := Stored(mem0, own, x, 32);
    StoredReads(mem0, own, x, 32);
    assert mem == stored[own + PC * XLEN := beforeReturn];
    hide Stored, Parked;
    forall a | a < own || a > own + PC * XLEN
      ensures Read(mem, a) == Read(mem0, a)
    {
      assert Read(stored, a) == Read(mem0, a);
    }
    forall i | 1 <= i < 32
      ensures Word(mem, own, i) == x[i]
    {
    }
    assert Loaded(mem, own) == x;
  }

  lemma SwitchReads(m: Machine, own: int, stack: Memory, beforeReturn: int)
    requires Registers(m.x) && Outside(Slot(m), own) && Avoids(stack, own) && Spares(stack, Slot(m))
    ensures Parks(SwitchMemory(m, own, stack, beforeReturn), own, m, beforeReturn)
    ensures forall f :: Apart(own, f) && Outside(Slot(m), f) && Avoids(stack, f) ==>
            SameFrame(m.mem, SwitchMemory(m, own, stack, beforeReturn), f)
  {
    var made := MadeReads(m, own);
    var t := m.(mem := made);
    ParkedReads(t, own, beforeReturn);
    var mem := Parked(t, own, beforeReturn);
    HarmlessWrites(mem, stack, own);
    SameContext(mem, mem + stack, own);
    SparedRead(mem, stack, Slot(m));
    assert Inherits(mem + stack, own, m);
    assert SwitchMemory(m, own, stack, beforeReturn) == mem + stack;
    hide Parked, NewFrame, Stored, SwitchMemory;
    forall f | Apart(own, f) && Outside(Slot(m), f) && Avoids(stack, f)
      ensures SameFrame(m.mem, mem + stack, f)
    {
      HarmlessWrites(mem, stack, f);
      forall i | 0 <= i < RESTORE_CONTEXT
        ensures Word(mem, f, i) == Word(m.mem, f, i)
      {
        assert Outside(f + i * XLEN, own) && f + i * XLEN != Slot(m);
      }
    }
  }

  /** A parked call stays parked as long as its words stay. */
  lemma StillParked(mem: Memory, mem': Memory, own: int, call: Machine, beforeReturn: int)
    requires Parks(mem, own, call, beforeReturn) && SameFrame(mem, mem', own)
    requires Word(mem', own, RESTORE_CONTEXT) == Word(mem, own, RESTORE_CONTEXT) &&
            Read(mem', Slot(call)) == Read(mem, Slot(call))
    ensures Parks(mem', own, call, beforeReturn)
  {
    SameContext(mem, mem', own);
    hide Word, Read, Loaded;
  }

  // ---- steps ----

  /** Every process keeps its context, except the one that runs while it computes. */
  ghost predicate ContextsKept(s: System, a: Action, s': System)
    requires Inv(s) && Inv(s') && s'.frames == s.frames
  {
    forall q :: 0 <= q < |s.frames| && !(a.Work? && s.mode.Running? && s.mode.process == q) ==>
        ProcessContext(s', q) == ProcessContext(s, q)
  }

  lemma WorkKeeps(s: System, a: Action)
    requires Inv(s) && Enabled(s, a) && a.Work?
    ensures Inv(Apply(s, a)) && ContextsKept(s, a, Apply(s, a))
  {
    var s' := Apply(s, a);
    forall q | 0 <= q < |s.frames|
      ensures InFrame(s'.m.mem, s.frames[q]) == InFrame(s.m.mem, s.frames[q])
      ensures Word(s'.m.mem, s.frames[q], SATP) == Word(s.m.mem, s.frames[q], SATP)
      ensures Word(s'.m.mem, s.frames[q], RESTORE_CONTEXT) == Word(s.m.mem, s.frames[q], RESTORE_CONTEXT)
    {
      HarmlessWrites(s.m.mem, a.writes, s.frames[q]);
      SameContext(s.m.mem, s'.m.mem, s.frames[q]);
    }
    if s.mode.Running? {
      HarmlessWrites(s.m.mem, a.writes, s.mode.own);
      SparedRead(s.m.mem, a.writes, Slot(s.mode.call));
      StillParked(s.m.mem, s'.m.mem, s.mode.own, s.mode.call, s.beforeReturn);
    }
    if s.mode.Kernel? {
      HarmlessWrites(s.m.mem, a.writes, s.m.sscratch);
    }
    hide Loaded, InFrame, Word, Read, Parks, Outside, Avoids, Spares;
  }

  lemma RaiseKeeps(s: System, a: Action)
    requires Inv(s) && Enabled(s, a) && a.Raise?
    ensures Inv(Apply(s, a)) && ContextsKept(s, a, Apply(s, a))
  {
    hide Loaded, InFrame, Word, Read, Parks, Outside;
  }

  lemma SwitchKeeps(s: System, a: Action)
    requires Inv(s) && Enabled(s, a) && a.SwitchIn?
    ensures Inv(Apply(s, a)) && ContextsKept(s, a, Apply(s, a))
  {
    var f := s.frames[a.process];
    SwitchReads(s.m, a.own, a.stack, s.beforeReturn);
    var mem := SwitchMemory(s.m, a.own, a.stack, s.beforeReturn);
    var mem' := mem[f + RESTORE_CONTEXT * XLEN := a.own];
    assert Apply(s, a).m == Resumed(s.m.(mem := mem'), f);
    hide SwitchMemory, Parked, NewFrame, Stored, SwitchedIn;
    forall q | 0 <= q < |s.frames|
      ensures InFrame(mem', s.frames[q]) == InFrame(s.m.mem, s.frames[q])
    {
      assert Apart(s.frames[q], f) || s.frames[q] == f;
      assert SameFrame(mem, mem', s.frames[q]);
      SameContext(s.m.mem, mem', s.frames[q]);
    }
    assert SameFrame(mem, mem', a.own) && Word(mem', a.own, RESTORE_CONTEXT) == Word(mem, a.own, RESTORE_CONTEXT);
    assert Read(mem', Slot(s.m)) == Read(mem, Slot(s.m));
    StillParked(mem, mem', a.own, s.m, s.beforeReturn);
    assert Word(mem', f, RESTORE_CONTEXT) == a.own;
    SwitchEnters(s, a, mem', f);
  }

  /** The process that is switched in finds its context. */
  lemma SwitchEnters(s: System, a: Action, mem: Memory, f: int)
    requires Inv(s) && Enabled(s, a) && a.SwitchIn? && f == s.frames[a.process]
    requires Apply(s, a).m == Resumed(s.m.(mem := mem), f)
    requires forall q :: 0 <= q < |s.frames| ==> InFrame(mem, s.frames[q]) == InFrame(s.m.mem, s.frames[q])
    requires Parks(mem, a.own, s.m, s.beforeReturn) && Word(mem, f, RESTORE_CONTEXT) == a.own
    ensures Inv(Apply(s, a)) && ContextsKept(s, a, Apply(s, a))
  {
    ResumedIs(s.m.(mem := mem), f);
    hide Word, Read, Parks, Outside, Avoids, Spares, SwitchedIn, Stored, Resumed, Loaded, WithSpp;
    var s' := Apply(s, a);
    assert Current(s'.m) == InFrame(mem, f);
    DistinctFrames(s);
    assert forall q :: 0 <= q < |s.frames| ==> ProcessContext(s, q) == InFrame(s.m.mem, s.frames[q]);
    hide InFrame, Current;
  }

  /** What is current after a jump to a frame. */
  lemma ResumedIs(m: Machine, f: int)
    ensures var t := Resumed(m, f);
            && Registers(t.x) && t.x == Loaded(m.mem, f) && t.mem == m.mem && t.pc == Word(m.mem, f, PC)
            && t.sscratch == f
            && t.satp == Word(m.mem, f, SATP) && t.sie == 0x222 && t.sstatus / 0x100 % 2 == 1
  {
    SppSet(m.sstatus);
    hide WithSpp, Word;
  }

  lemma SppSet(sstatus: int)
    ensures WithSpp(sstatus) / 0x100 % 2 == 1
  {
    var q := sstatus / 0x100;
    assert (sstatus + 0x100) / 0x100 == q + 1;
  }

  /** What is current after a trap. */
  lemma TrappedIs(m: Machine, scause: nat, stack: Memory)
    requires |m.x| == 32
    ensures var t, mem := Trapped(m, scause, stack), Saved(m) + stack;
            var context := Word(mem, m.sscratch, RESTORE_CONTEXT);
            var f := if context != 0 then context else m.sscratch;
            && Registers(t.x) && t.x == Loaded(mem, f) && t.mem == mem && t.pc == Word(mem, f, PC) && t.sscratch == f
            && t.satp == Word(mem, f, SATP)
  {
    hide WithSpp, Word, Saved, Acknowledged;
  }

  /** Reads after a trap: the interrupted context is in the current frame, all else is as before. */
  lemma TrapReads(s: System, a: Action)
    requires Inv(s) && Enabled(s, a) && a.Trap?
    ensures var mem := Saved(s.m) + a.stack;
            && (forall q :: 0 <= q < |s.frames| && s.frames[q] != s.m.sscratch ==>
                InFrame(mem, s.frames[q]) == InFrame(s.m.mem, s.frames[q]))
            && InFrame(mem, s.m.sscratch) == Current(s.m) && Loaded(mem, s.m.sscratch) == s.m.x
            && Word(mem, s.m.sscratch, RESTORE_CONTEXT) == Word(s.m.mem, s.m.sscratch, RESTORE_CONTEXT)
            && Word(mem, s.m.sscratch, SATP) == Word(s.m.mem, s.m.sscratch, SATP)
  {
    var m, saved := s.m, Saved(s.m);
    var mem := saved + a.stack;
    SavedHere(m);
    HarmlessWrites(saved, a.stack, m.sscratch);
    SameContext(saved, mem, m.sscratch);
    forall q | 0 <= q < |s.frames| && s.frames[q] != m.sscratch
      ensures InFrame(mem, s.frames[q]) == InFrame(m.mem, s.frames[q])
    {
      assert Apart(m.sscratch, s.frames[q]);
      SavedElsewhere(m, s.frames[q]);
      HarmlessWrites(saved, a.stack, s.frames[q]);
      SameContext(m.mem, mem, s.frames[q]);
    }
    hide Saved, InFrame, Loaded;
  }

  /** A trap leaves the parked call parked. */
  lemma TrapParks(s: System, a: Action)
    requires Inv(s) && Enabled(s, a) && a.Trap? && !s.mode.Kernel?
    ensures Parks(Saved(s.m) + a.stack, s.mode.own, s.mode.call, s.beforeReturn)
  {
    var m, own, call := s.m, s.mode.own, s.mode.call;
    var saved, mem := Saved(m), Saved(m) + a.stack;
    SavedHere(m);
    SparedRead(saved, a.stack, Slot(call));
    HarmlessWrites(saved, a.stack, own);
    if s.mode.Running? {
      SavedElsewhere(m, own);
      StillParked(m.mem, mem, own, call, s.beforeReturn);
    } else {
      SameContext(saved, mem, own);
    }
    hide Saved, Stored;
  }

  lemma DistinctFrames(s: System)
    requires Separate(s)
    ensures forall p, q :: 0 <= p < |s.frames| && 0 <= q < |s.frames| && p != q ==> s.frames[p] != s.frames[q]
  {
    assert forall p, q :: 0 <= p < |s.frames| && 0 <= q < |s.frames| && p != q ==> Apart(s.frames[p], s.frames[q]);
  }

  lemma TrapInv(s: System, a: Action)
    requires Inv(s) && Enabled(s, a) && a.Trap?
    ensures Inv(Apply(s, a))
  {
    TrapReads(s, a);
    if !s.mode.Kernel? {
      TrapParks(s, a);
    }
    TrappedIs(s.m, a.scause, a.stack);
    hide Saved, Read, Word, Outside, Avoids, Spares, Trapped, Loaded, InFrame, Current, Apart;
  }

  /** A trap in the kernel goes on where it interrupted; a trap in a process goes on in the
      parked call. */
  lemma TrapKeeps(s: System, a: Action)
    requires Inv(s) && Enabled(s, a) && a.Trap?
    ensures Inv(Apply(s, a)) && ContextsKept(s, a, Apply(s, a))
    ensures !s.mode.Running? ==> Current(Apply(s, a).m) == Current(s.m)
  {
    TrapInv(s, a);
    TrapReads(s, a);
    DistinctFrames(s);
    TrappedIs(s.m, a.scause, a.stack);
    hide Saved, Read, Word, Outside, Avoids, Spares, Trapped, Loaded, Harmless, Clear, Marked, Apart;
  }

  /** The code at the return point brings back the registers of the call. */
  lemma ReturnKeeps(s: System, a: Action)
    requires Inv(s) && Enabled(s, a) && a.Return?
    ensures Inv(Apply(s, a)) && ContextsKept(s, a, Apply(s, a))
    ensures var call, m := s.mode.call, Apply(s, a).m; m.x == call.x && m.pc == call.x[RA] && m.satp == call.satp
  {
    var call := s.mode.call;
    assert s.m.x == call.x[SP := Slot(call)];
    assert Returned(s.m).x == call.x;
    hide Read, Word, Outside, Loaded;
  }

  lemma StepKeeps(s: System, a: Action)
    requires Inv(s) && Enabled(s, a)
    ensures Inv(Apply(s, a)) && ContextsKept(s, a, Apply(s, a))
    ensures Apply(s, a).frames == s.frames && Apply(s, a).beforeReturn == s.beforeReturn
  {
    match a
    case Work(_, _, _) => WorkKeeps(s, a);
    case Raise(_, _) => RaiseKeeps(s, a);
    case SwitchIn(_, _, _) => SwitchKeeps(s, a);
    case Trap(_, _) => TrapKeeps(s, a);
    case Return => ReturnKeeps(s, a);
    hide Inv, ContextsKept;
  }

  // ---- runs ----

  /** Initially the kernel runs, with a current frame of its own that names no other context, and
      no process is marked. */
  ghost predicate Init(s: System)
  {
    && s.mode.Kernel? && Registers(s.m.x) && Separate(s) && Marked(s)
    && Word(s.m.mem, s.m.sscratch, RESTORE_CONTEXT) == 0
    && forall q :: 0 <= q < |s.frames| ==> Apart(s.m.sscratch, s.frames[q])
  }

  ghost predicate IsRun(states: seq<System>, actions: seq<Action>)
  {
    && |states| == |actions| + 1 && Init(states[0])
    && forall i :: 0 <= i < |actions| ==>
         Enabled(states[i], actions[i]) && states[i + 1] == Apply(states[i], actions[i])
  }

  /** In every state of every run the contexts are apart, the call in progress is parked, and
      exactly its process is marked as running. */
  lemma {:induction false} RunInv(states: seq<System>, actions: seq<Action>, i: nat)
    requires IsRun(states, actions) && i < |states|
    ensures Inv(states[i]) && states[i].frames == states[0].frames && states[i].beforeReturn == states[0].beforeReturn
  {
    if i > 0 {
      RunInv(states, actions, i - 1);
      StepKeeps(states[i - 1], actions[i - 1]);
      hide Apply, Enabled, Inv;
    }
  }

  /** Process `p` computes in no step from `i` up to `j`. */
  ghost predicate Rests(states: seq<System>, actions: seq<Action>, p: nat, i: nat, j: nat)
    requires i <= j < |states| == |actions| + 1
  {
    forall k :: i <= k < j ==> !(actions[k].Work? && states[k].mode.Running? && states[k].mode.process == p)
  }

  /** Context isolation: over any switches and traps among all the processes, a process has the
      registers and the program counter it had, as long as it does not itself compute. */
  lemma {:induction false} ContextKept(states: seq<System>, actions: seq<Action>, p: nat, i: nat, j: nat)
    requires IsRun(states, actions) && i <= j < |states| && p < |states[0].frames| && Rests(states, actions, p, i, j)
    ensures p < |states[i].frames| && p < |states[j].frames| && Inv(states[i]) && Inv(states[j])
    ensures ProcessContext(states[j], p) == ProcessContext(states[i], p)
    decreases j
  {
    RunInv(states, actions, i);
    RunInv(states, actions, j);
    if i < j {
      ContextKept(states, actions, p, i, j - 1);
      StepKeeps(states[j - 1], actions[j - 1]);
      hide Apply, Enabled, ProcessContext, Inv;
    }
  }

  /** A process that is trapped at `i` and switched in at `j` resumes with registers x1 to x31
      and the program counter it had when it was trapped. */
  lemma ProcessResumes(states: seq<System>, actions: seq<Action>, p: nat, i: nat, j: nat)
    requires IsRun(states, actions) && i < j < |actions| && p < |states[0].frames|
    requires actions[i].Trap? && states[i].mode.Running? && states[i].mode.process == p
    requires actions[j].SwitchIn? && actions[j].process == p
    requires Rests(states, actions, p, i, j)
    ensures states[j + 1].m.x == states[i].m.x && states[j + 1].m.pc == states[i].m.pc
  {
    ContextKept(states, actions, p, i, j + 1);
    assert states[j + 1] == Apply(states[j], actions[j]);
    assert states[j + 1].mode.Running? && states[j + 1].mode.process == p;
    SameRegisters(states[i].m, states[j + 1].m);
    hide SwitchedIn, Inv, Enabled, Apply;
  }

  lemma SameRegisters(m: Machine, m': Machine)
    requires Registers(m.x) && Registers(m'.x) && Current(m) == Current(m')
    ensures m.x == m'.x && m.pc == m'.pc
  {
    assert m.x == [0] + m.x[1..] && m'.x == [0] + m'.x[1..];
  }

  /** After a switch the new frame has the hart's identity, locals, flags and interrupt stack of the
      frame that was current, its page table twice, and otherwise only the parked registers. */
  lemma SwitchInherits(s: System, a: Action)
    requires Inv(s) && Enabled(s, a) && a.SwitchIn?
    ensures var m, m' := s.m, Apply(s, a).m;
            && Word(m'.mem, a.own, 33) == Word(m.mem, m.sscratch, 33)
            && Word(m'.mem, a.own, 35) == Word(m.mem, m.sscratch, 35)
            && Word(m'.mem, a.own, 36) == Word(m.mem, m.sscratch, 36)
            && Word(m'.mem, a.own, 39) == Word(m.mem, m.sscratch, 39)
            && Word(m'.mem, a.own, 37) == m.satp && Word(m'.mem, a.own, 41) == 0 && m'.sscratch == s.frames[a.process]
  {
    SwitchKeeps(s, a);
    hide SwitchedIn, Loaded, Word, Read, Outside;
  }

  /** The kernel that switched a process in at `i` and returns at `j` comes back to its caller with
      every register and the page table as they were at the call, whatever the process and the
      traps did in between; the process is paused, and the frame that is current now has the
      interrupt stack, and the rest, of the frame that was current then. */
  lemma KernelResumes(states: seq<System>, actions: seq<Action>, i: nat, j: nat)
    requires IsRun(states, actions) && i < j < |actions|
    requires actions[i].SwitchIn? && actions[j].Return? && forall k :: i < k < j ==> !actions[k].Return?
    ensures Registers(states[i].m.x)
    ensures var call, s, p := states[i].m, states[j + 1], actions[i].process;
            && s.mode == Kernel && s.m.x == call.x && s.m.pc == call.x[RA] && s.m.satp == call.satp
            && p < |s.states| && s.states[p] == Paused && states[j].m.pc == states[0].beforeReturn
            && Word(s.m.mem, s.m.sscratch, 35) == Word(call.mem, call.sscratch, 35)
            && Word(s.m.mem, s.m.sscratch, 33) == Word(call.mem, call.sscratch, 33)
            && Word(s.m.mem, s.m.sscratch, 36) == Word(call.mem, call.sscratch, 36)
            && Word(s.m.mem, s.m.sscratch, 39) == Word(call.mem, call.sscratch, 39)
  {
    InProgress(states, actions, i, j);
    RunInv(states, actions, i);
    RunInv(states, actions, j);
    ReturnKeeps(states[j], actions[j]);
    assert states[j + 1] == Apply(states[j], actions[j]);
    assert Inherits(states[j].m.mem, states[j].m.sscratch, states[i].m);
    hide SwitchedIn, Parks, Loaded, Word, Read;
  }

  /** Until it returns, the call in progress is the one that was made. */
  lemma {:induction false} InProgress(states: seq<System>, actions: seq<Action>, i: nat, j: nat)
    requires IsRun(states, actions) && i < j < |states|
    requires actions[i].SwitchIn? && forall k :: i < k < j ==> !actions[k].Return?
    ensures var m := states[j].mode;
            !m.Kernel? && m.process == actions[i].process && m.own == actions[i].own && m.call == states[i].m
    decreases j
  {
    assert states[j] == Apply(states[j - 1], actions[j - 1]);
    if j > i + 1 {
      InProgress(states, actions, i, j - 1);
    }
    hide SwitchedIn, Trapped, Returned, Harmless;
  }
}
