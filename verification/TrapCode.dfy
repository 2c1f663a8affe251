/** The assembly that saves and restores the registers of a hart, as a register machine: each
    line of a method is one instruction, each loop one repeated block. */
module TrapCode {

  /** Memory by address; words are 8 bytes apart and unwritten words read as zero. */
  type Memory = map<int, int>

  const XLEN := 8
  const RA := 1
  const SP := 2
  const T0 := 5
  const T1 := 6
  const A0 := 10
  const A1 := 11
  const T5 := 30
  const T6 := 31

  // Words of a trap frame after the 32 general registers.
  const PC := 32
  const HARTID := 33
  const INTERRUPT_STACK := 35
  const FLAGS := 36
  const SATP := 37
  const KERNEL_SATP := 38
  const HART_LOCALS := 39
  const RESTORE_CONTEXT := 41
  const FRAME_WORDS := 42

  const SIE_ON := 0x222

  function Read(mem: Memory, a: int): int
  {
    if a in mem then mem[a] else 0
  }

  function Word(mem: Memory, frame: int, i: int): int
  {
    Read(mem, frame + i * XLEN)
  }

  /** The first `n` words of `words` stored from `frame` on. */
  function Stored(mem: Memory, frame: int, words: seq<int>, n: nat): Memory
    requires n <= |words|
  {
    if n == 0 then mem else Stored(mem, frame, words, n - 1)[frame + (n - 1) * XLEN := words[n - 1]]
  }

  /** The general registers loaded from a frame; register 0 stays zero. */
  function Loaded(mem: Memory, frame: int): (x: seq<int>)
    ensures |x| == 32 && x[0] == 0 && forall i :: 1 <= i < 32 ==> x[i] == Word(mem, frame, i)
  {
    seq(32, i => if i == 0 then 0 else Word(mem, frame, i))
  }

  lemma {:induction false} StoredReads(mem: Memory, frame: int, words: seq<int>, n: nat)
    requires n <= |words|
    ensures forall i :: 0 <= i < n ==> Word(Stored(mem, frame, words, n), frame, i) == words[i]
    ensures forall a :: a < frame || a >= frame + n * XLEN ==> Read(Stored(mem, frame, words, n), a) == Read(mem, a)
  {
    if n > 0 {
      StoredReads(mem, frame, words, n - 1);
    }
  }

  /** Registers, memory and control registers; `timer` is the time of the next timer interrupt. */
  datatype Machine = Machine(
    x: seq<int>, mem: Memory, pc: int,
    sscratch: int, sepc: int, satp: int, sie: int, sstatus: int, sip: int, timer: int)

  predicate Registers(x: seq<int>)
  {
    |x| == 32 && x[0] == 0
  }

  /** `sstatus` with its SPP bit set. */
  function WithSpp(sstatus: int): int
  {
    if sstatus / 0x100 % 2 == 1 then sstatus else sstatus + 0x100
  }

  // ---- pending interrupts ----

  const INTERRUPT: nat := 0x8000_0000_0000_0000
  const SUPERVISOR_SOFTWARE: nat := 1
  const SUPERVISOR_TIMER: nat := 5
  const SSIP := 2
  const NEVER := 0xffff_ffff_ffff_ffff

  /** `sip` with its software bit clear. */
  function WithoutSsip(sip: int): int
  {
    if sip / SSIP % 2 == 1 then sip - SSIP else sip
  }

  predicate IsInterrupt(scause: nat, code: nat)
  {
    scause / INTERRUPT != 0 && scause % INTERRUPT == code
  }

  /** What the handler does to the interrupt that caused the trap; exceptions, and interrupts from
      the interrupt controller, are left as they are. */
  function Acknowledged(m: Machine, scause: nat): Machine
  {
    m.(sip := if IsInterrupt(scause, SUPERVISOR_SOFTWARE) then WithoutSsip(m.sip) else m.sip,
       timer := if IsInterrupt(scause, SUPERVISOR_TIMER) then NEVER else m.timer)
  }

  // ---- what the code computes ----

  /** `switch_to_supervisor_frame`: the context of a frame is current again. */
  function Resumed(m: Machine, frame: int): Machine
  {
    var pc := Word(m.mem, frame, PC);
    m.(x := Loaded(m.mem, frame), pc := pc, sscratch := frame, sepc := pc, satp := Word(m.mem, frame, SATP),
       sie := SIE_ON, sstatus := WithSpp(m.sstatus))
  }

  /** The memory once a trap vector has saved the interrupted context in the current frame. */
  function Saved(m: Machine): Memory
    requires |m.x| == 32
  {
    Stored(m.mem, m.sscratch, m.x, 32)[m.sscratch + PC * XLEN := m.pc]
  }

  /** A whole trap: save, run the handler, which leaves `stack` behind on its stack, and go
      on in the context the current frame names, or in the interrupted one. */
  function Trapped(m: Machine, scause: nat, stack: Memory): Machine
    requires |m.x| == 32
  {
    var t := Acknowledged(m, scause).(mem := Saved(m) + stack, sepc := m.pc,
        satp := Word(Saved(m), m.sscratch, KERNEL_SATP));
    var context := Word(t.mem, m.sscratch, RESTORE_CONTEXT);
    if context != 0 then Resumed(t, context)
    else Resumed(t, m.sscratch).(sie := m.sie, sstatus := m.sstatus)
  }

  /** The bit of `scause` that marks an interrupt, and its code. */
  lemma CauseCodes(scause: nat)
    ensures IsInterrupt(0x8000_0000_0000_0001, 1) && IsInterrupt(0x8000_0000_0000_0005, 5)
    ensures IsInterrupt(scause, 1) || IsInterrupt(scause, 5) ==> scause >= 0x8000_0000_0000_0000
  {
  }

  /** A software or timer interrupt does not fire again by itself: its pending bit is clear, or its
      time never comes; nothing else becomes or stops being pending. */
  lemma InterruptCleared(m: Machine, scause: nat, stack: Memory)
    requires |m.x| == 32
    ensures var t := Trapped(m, scause, stack);
            && (IsInterrupt(scause, 1) ==> t.sip / 2 % 2 == 0)
            && (|| t.sip == m.sip
                || (t.sip == m.sip - 2 && m.sip / 2 % 2 == 1 && IsInterrupt(scause, 1)))
            && (IsInterrupt(scause, 5) ==> t.timer == 0xffff_ffff_ffff_ffff)
            && (t.timer == m.timer || IsInterrupt(scause, 5))
  {
    hide Word, Saved, Loaded, IsInterrupt;
  }

  /** A new trap frame as `switch_to_and_come_back` makes it: zero but for what it inherits
      from the current frame and the current page table. */
  function NewFrame(mem: Memory, current: int, satp: int): (words: seq<int>)
    ensures |words| == 42 && words[37] == words[38] == satp
    ensures forall i :: i in {33, 35, 36, 39} ==> words[i] == Word(mem, current, i)
    ensures forall i :: 0 <= i < 42 && i !in {33, 35, 36, 37, 38, 39} ==> words[i] == 0
  {
    seq(FRAME_WORDS, i =>
      if i == HARTID || i == HART_LOCALS || i == INTERRUPT_STACK || i == FLAGS then Word(mem, current, i)
      else if i == SATP || i == KERNEL_SATP then satp else 0)
  }

  /** `store_to_trap_frame_and_run_function` up to its call: the return address goes on the
      stack, every register into the frame, and the frame resumes at `beforeReturn`. */
  function Parked(m: Machine, frame: int, beforeReturn: int): Memory
    requires |m.x| == 32
  {
    var sp := m.x[SP] - 16;
    Stored(m.mem[sp := m.x[RA]], frame, m.x[SP := sp], 32)[frame + PC * XLEN := beforeReturn]
  }

  /** A switch into the process whose frame is `frame`, parking the caller in the new frame
      `own`; the compiled code leaves `stack` behind on its stack. */
  function SwitchedIn(m: Machine, own: int, frame: int, stack: Memory, beforeReturn: int): Machine
    requires |m.x| == 32
  {
    var made := m.(mem := Stored(m.mem, own, NewFrame(m.mem, m.sscratch, m.satp), FRAME_WORDS));
    var mem := (Parked(made, own, beforeReturn) + stack)[frame + RESTORE_CONTEXT * XLEN := own];
    Resumed(m.(mem := mem), frame)
  }

  function Returned(m: Machine): Machine
    requires |m.x| == 32
  {
    var ra := Read(m.mem, m.x[SP]);
    m.(x := m.x[RA := ra][SP := m.x[SP] + 16], pc := ra)
  }

  /** Where a trap puts the interrupted context, and where a switch takes it from, in bytes from the
      start of the frame: registers from 0, program counter at 256, page table at 296. */
  lemma ContextInBytes(m: Machine, frame: int, scause: nat, stack: Memory)
    requires |m.x| == 32
    ensures var r := Resumed(m, frame);
            && r.pc == r.sepc == Read(m.mem, frame + 256) && r.satp == Read(m.mem, frame + 296)
            && r.sie == 0x222 && r.sscratch == frame && r.mem == m.mem
            && forall i :: 1 <= i < 32 ==> r.x[i] == Read(m.mem, frame + 8 * i)
    ensures Read(Saved(m), m.sscratch + 256) == m.pc
    ensures forall i :: 0 <= i < 32 ==> Read(Saved(m), m.sscratch + 8 * i) == m.x[i]
  {
    StoredReads(m.mem, m.sscratch, m.x, 32);
    forall i | 0 <= i < 32
      ensures Read(Saved(m), m.sscratch + 8 * i) == m.x[i]
    {
      assert Word(Stored(m.mem, m.sscratch, m.x, 32), m.sscratch, i) == m.x[i];
    }
    assert forall i :: 0 <= i < 32 ==> Word(m.mem, frame, i) == Read(m.mem, frame + 8 * i);
    hide Stored, Read;
  }

  /** Where the call of a switch is parked: its registers with the stack pointer, x2, lowered by 16,
      the return point at 256, and the return address, x1, on the stack. */
  lemma ParkedInBytes(m: Machine, frame: int, beforeReturn: int)
    requires |m.x| == 32 && (m.x[2] - 16 < frame || m.x[2] - 16 >= frame + 264)
    ensures var mem := Parked(m, frame, beforeReturn);
            && (forall i :: 0 <= i < 32 && i != 2 ==> Read(mem, frame + 8 * i) == m.x[i])
            && Read(mem, frame + 16) == m.x[2] - 16 && Read(mem, frame + 256) == beforeReturn
            && Read(mem, m.x[2] - 16) == m.x[1]
  {
    var words := m.x[2 := m.x[2] - 16];
    var mem := m.mem[m.x[2] - 16 := m.x[1]];
    StoredReads(mem, frame, words, 32);
    var parked := Parked(m, frame, beforeReturn);
    assert parked == Stored(mem, frame, words, 32)[frame + 256 := beforeReturn];
    forall i | 0 <= i < 32
      ensures Read(parked, frame + 8 * i) == (if i == 2 then m.x[2] - 16 else m.x[i])
    {
      assert Word(Stored(mem, frame, words, 32), frame, i) == words[i];
    }
    assert Read(parked, frame + 8 * 2) == m.x[2] - 16;
    assert Read(Stored(mem, frame, words, 32), m.x[2] - 16) == Read(mem, m.x[2] - 16);
    hide Stored;
  }

  /** Two frames that do not overlap. */
  predicate Apart(f: int, g: int)
  {
    f + FRAME_WORDS * XLEN <= g || g + FRAME_WORDS * XLEN <= f
  }

  // ---- the code ----

  datatype ProcessState = Active | Paused | Exited

  class Process {
    var frame: int
    var state: ProcessState
  }

  class Hart {
    var x: seq<int>
    var mem: Memory
    var pc: int
    var sscratch: int
    var sepc: int
    var satp: int
    var sie: int
    var sstatus: int
    var sip: int
    var timer: int

    ghost function View(): Machine
      reads this
    {
      Machine(x, mem, pc, sscratch, sepc, satp, sie, sstatus, sip, timer)
    }

    /** Saves all registers although the base register is one of them: it is swapped with
        `sscratch` first and stored last. */
    method StoreVolatileRegisters()
      requires Registers(x)
      modifies `x, `mem, `sscratch
      ensures mem == Stored(old(mem), sscratch, old(x), 32)
      ensures sscratch == old(sscratch) && x == old(x)[T5 := sscratch]
    {
      x, sscratch := x[T6 := sscratch], x[T6];
      for i := 0 to 31
        invariant x == old(x)[T6 := old(sscratch)] && sscratch == old(x)[T6]
        invariant mem == Stored(old(mem), old(sscratch), old(x), i)
      {
        mem := mem[x[T6] + i * XLEN := x[i]];
      }
      x := x[T5 := x[T6]];
      x := x[T6 := sscratch];
      mem := mem[x[T5] + 31 * XLEN := x[31]];
      sscratch := x[T5];
    }

    /** Loads all registers through the last of them. */
    method RestoreVolatileRegisters()
      requires Registers(x)
      modifies `x
      ensures x == Loaded(mem, sscratch)
    {
      x := x[T6 := sscratch];
      for i := 1 to 32
        invariant |x| == 32 && (i <= T6 ==> x[T6] == sscratch)
        invariant x[0] == 0 && forall j :: 1 <= j < i ==> x[j] == Word(mem, sscratch, j)
      {
        x := x[i := Word(mem, x[T6], i)];
      }
    }

    /** The control registers for the frame in `a0`. */
    method LoadControl()
      requires Registers(x)
      modifies `x, `sscratch, `sepc, `satp, `sie
      ensures Registers(x) && sscratch == old(x[A0]) && sie == SIE_ON
      ensures sepc == Word(mem, sscratch, PC) && satp == Word(mem, sscratch, SATP)
    {
      hide Word;
      sscratch := x[A0];
      x := x[T0 := Word(mem, x[A0], PC)];
      sepc := x[T0];
      x := x[T0 := Word(mem, x[A0], SATP)];
      satp := x[T0];
      x := x[T0 := SIE_ON];
      sie := x[T0];
    }

    /** Jumps to the frame in `a0`. */
    method SwitchToSupervisorFrame()
      requires Registers(x)
      modifies this
      ensures View() == Resumed(old(View()), old(x[A0]))
    {
      LoadControl();
      hide Word, WithSpp, Loaded;
      x := x[T0 := sstatus];
      x := x[T1 := 0x100];
      x := x[T0 := WithSpp(x[T0])];
      sstatus := x[T0];
      RestoreVolatileRegisters();
      pc := sepc;
    }

    /** `make_interrupt_nonpending` on the cause of the trap, if it is an interrupt. */
    method Acknowledge(scause: nat)
      modifies `sip, `timer
      ensures View() == Acknowledged(old(View()), scause)
    {
      if scause / INTERRUPT != 0 {
        var cause := scause % INTERRUPT;
        if cause == SUPERVISOR_TIMER {
          timer := NEVER;
        } else if cause == SUPERVISOR_SOFTWARE {
          sip := WithoutSsip(sip);
        }
      }
    }

    /** `trap_handler`, compiled: it may leave any registers and writes its stack. */
    method TrapHandler(scause: nat, left: seq<int>, stack: Memory) returns (jumped: bool)
      requires Registers(x) && Registers(left)
      modifies this
      ensures var m := Acknowledged(old(View()), scause).(mem := old(mem) + stack);
              var context := Word(m.mem, m.sscratch, RESTORE_CONTEXT);
              && jumped == (context != 0)
              && View() == if jumped then Resumed(m, context) else m.(x := left)
    {
      hide IsInterrupt, WithoutSsip, Word, Loaded, WithSpp;
      Acknowledge(scause);
      mem := mem + stack;
      var context := Word(mem, sscratch, RESTORE_CONTEXT);
      x := left;
      jumped := context != 0;
      if jumped {
        x := x[A0 := context];
        SwitchToSupervisorFrame();
      }
    }

    /** `s_trap_vector` up to its call of the handler. */
    method EnterVector()
      requires Registers(x)
      modifies this
      ensures Registers(x) && sscratch == old(sscratch) && pc == old(pc) && sie == old(sie) && sstatus == old(sstatus)
      ensures sip == old(sip) && timer == old(timer)
      ensures mem == Stored(old(mem), sscratch, old(x), 32)[sscratch + PC * XLEN := old(sepc)] && sepc == old(sepc)
      ensures satp == Word(mem, sscratch, KERNEL_SATP) && x[SP] == Word(mem, sscratch, INTERRUPT_STACK)
      ensures satp == Read(mem, sscratch + 304) && x[2] == Read(mem, sscratch + 280)
    {
      StoreVolatileRegisters();
      hide Stored;
      x := x[A0 := Word(mem, x[T5], KERNEL_SATP)];
      satp := x[A0];
      x := x[SP := Word(mem, x[T5], INTERRUPT_STACK)];
      x := x[A0 := sepc];
      mem := mem[x[T5] + PC * XLEN := x[A0]];
    }

    /** `s_trap_vector` after a handler that returned. */
    method LeaveVector()
      requires Registers(x)
      modifies this
      ensures View() == Resumed(old(View()), sscratch).(sie := sie, sstatus := sstatus)
      ensures sscratch == old(sscratch) && sie == old(sie) && sstatus == old(sstatus)
    {
      x := x[T5 := sscratch];
      x := x[A0 := Word(mem, x[T5], PC)];
      sepc := x[A0];
      x := x[A0 := Word(mem, x[T5], SATP)];
      satp := x[A0];
      RestoreVolatileRegisters();
      pc := sepc;
    }

    /** A trap: the hart's own entry into `s_trap_vector`, and the vector. */
    method TrapVector(scause: nat, left: seq<int>, stack: Memory)
      requires Registers(x) && Registers(left)
      modifies this
      ensures View() == Trapped(old(View()), scause, stack)
    {
      hide Stored, Word, Loaded, IsInterrupt, WithoutSsip, WithSpp;
      sepc := pc;
      EnterVector();
      var jumped := TrapHandler(scause, left, stack);
      if !jumped {
        LeaveVector();
      }
    }

    /** `store_to_trap_frame_and_run_function` up to the call of the function in `a1`. */
    method StoreToTrapFrame(beforeReturn: int)
      requires Registers(x)
      modifies `x, `mem, `pc
      ensures mem == Parked(old(View()), old(x[A0]), beforeReturn)
      ensures x == old(x)[2 := old(x[2]) - 16][5 := beforeReturn][1 := beforeReturn] && pc == old(x[11])
    {
      x := x[SP := x[SP] - 16];
      mem := mem[x[SP] := x[RA]];
      ghost var mem0 := mem;
      for i := 0 to 32
        invariant x == old(x)[SP := old(x[SP]) - 16] && mem == Stored(mem0, x[A0], x, i)
      {
        mem := mem[x[A0] + i * XLEN := x[i]];
      }
      x := x[T0 := beforeReturn];
      mem := mem[x[A0] + PC * XLEN := x[T0]];
      pc := x[A1];
      x := x[RA := beforeReturn];
    }

    /** The code at `.before_return`. */
    method BeforeReturn()
      requires Registers(x)
      modifies `x, `pc
      ensures View() == Returned(old(View()))
    {
      x := x[RA := Read(mem, x[SP])];
      x := x[SP := x[SP] + 16];
      pc := x[RA];
    }

    /** The new frame of `switch_to_and_come_back`. */
    method NewTrapFrame(own: int)
      requires Apart(own, sscratch)
      modifies `mem
      ensures mem == Stored(old(mem), own, NewFrame(old(mem), sscratch, satp), FRAME_WORDS)
    {
      ghost var words := NewFrame(mem, sscratch, satp);
      for i := 0 to FRAME_WORDS
        invariant mem == Stored(old(mem), own, words, i)
      {
        StoredReads(old(mem), own, words, i);
        var v := 0;
        if i == HARTID || i == HART_LOCALS || i == INTERRUPT_STACK || i == FLAGS {
          v := Word(mem, sscratch, i);
        } else if i == SATP || i == KERNEL_SATP {
          v := satp;
        }
        mem := mem[own + i * XLEN := v];
      }
    }

    /** `switch_to_and_come_back` up to the first instruction of the process: the registers are
        those of the call, with the new frame in `a0`. */
    method SwitchIn(process: Process, left: seq<int>, stack: Memory, beforeReturn: int)
      requires Registers(x) && Registers(left) && Apart(x[A0], sscratch)
      modifies this, process`state
      ensures View() == SwitchedIn(old(View()), old(x[A0]), process.frame, stack, beforeReturn)
      ensures process.state == Active
    {
      hide Stored, Word, NewFrame;
      var own := x[A0];
      NewTrapFrame(own);
      process.state := Active;
      StoreToTrapFrame(beforeReturn);
      mem := mem + stack;
      mem := mem[process.frame + RESTORE_CONTEXT * XLEN := own];
      x := left[A0 := process.frame];
      SwitchToSupervisorFrame();
    }

    /** The rest of `switch_to_and_come_back`, from `.before_return` on. */
    method ComeBack(process: Process)
      requires Registers(x)
      modifies `x, `pc, process`state
      ensures View() == Returned(old(View())) && process.state == Paused
    {
      BeforeReturn();
      process.state := Paused;
    }
  }
}
