/** The cached general register block (lib/inferior-control/registers-amd64.cc). */
module RegisterBlocks {
  import opened Prelude

  const NUM_REGISTERS: nat := 18
  const RIP: nat := 16
  const EFLAGS: nat := 17
  const REGISTER_SIZE: nat := 8

  /** EFLAGS_TF_MASK: the trap flag is bit 8. */
  const TF: int := 0x100

  /** A uint64_t register value. */
  type Word = w: int | 0 <= w < TWO_64

  type Regs = r: seq<Word> | |r| == NUM_REGISTERS witness [0, 0, 0, 0, 0, 0, 0, 0, 0, 0, 0, 0, 0, 0, 0, 0, 0, 0]

  const ZEROS: Regs := [0, 0, 0, 0, 0, 0, 0, 0, 0, 0, 0, 0, 0, 0, 0, 0, 0, 0]

  predicate HasTF(w: Word) {
    w / TF % 2 == 1
  }

  /** w | TF, respectively w & ~TF: bit 8 is as wanted, the bits below and above it stay. */
  function SetTF(w: Word, enable: bool): (v: Word)
    ensures (v / 0x100 % 2 == 1) == enable
    ensures v % 0x100 == w % 0x100 && v / 0x200 == w / 0x200
  {
    if HasTF(w) == enable then w
    else if enable then BitGoesOn(w); w + TF
    else BitGoesOff(w); w - TF
  }

  lemma BitGoesOn(w: Word)
    requires w / 0x100 % 2 == 0
    ensures w + 0x100 < TWO_64 && (w + 0x100) / 0x100 % 2 == 1
    ensures (w + 0x100) % 0x100 == w % 0x100 && (w + 0x100) / 0x200 == w / 0x200
  {
    var k, r := w / 0x100, w % 0x100;
    Quotients(k, r);
    Quotients(k + 1, r);
    assert w == 0x100 * k + r && w + 0x100 == 0x100 * (k + 1) + r;
    assert k + 1 < 0x100_0000_0000_0000;
  }

  lemma BitGoesOff(w: Word)
    requires w / 0x100 % 2 == 1
    ensures w >= 0x100 && (w - 0x100) / 0x100 % 2 == 0
    ensures (w - 0x100) % 0x100 == w % 0x100 && (w - 0x100) / 0x200 == w / 0x200
  {
    var k, r := w / 0x100, w % 0x100;
    Quotients(k, r);
    Quotients(k - 1, r);
    assert w == 0x100 * k + r && w - 0x100 == 0x100 * (k - 1) + r;
  }

  lemma Quotients(k: nat, r: Byte)
    ensures var w := 0x100 * k + r; w / 0x100 == k && w % 0x100 == r && w / 0x200 == k / 2
  {
  }

  predicate Trapping(r: Regs) {
    HasTF(r[EFLAGS])
  }

  function WithTrap(r: Regs, enable: bool): Regs {
    r[EFLAGS := SetTF(r[EFLAGS], enable)]
  }

  /** Bit 8 of register 17 is as wanted. */
  lemma TrapIs(r: Regs, enable: bool)
    ensures Trapping(WithTrap(r, enable)) <==> enable
    ensures Trapping(r) <==> r[17] / 0x100 % 2 == 1
    ensures SameButTrap(WithTrap(r, enable), r)
  {
  }

  /** The two blocks agree on everything but the trap flag. */
  ghost predicate SameButTrap(a: Regs, b: Regs) {
    && a[17] % 0x100 == b[17] % 0x100 && a[17] / 0x200 == b[17] / 0x200
    && forall i :: 0 <= i < 18 && i != 17 ==> a[i] == b[i]
  }
}

/**
 * Threads and single-stepping (lib/inferior-control/thread.cc, breakpoint.cc and
 * breakpoint-amd64.cc). `cpu` is the register state the kernel holds for the
 * thread; outcomes of system calls are parameters.
 */
module Threads {
  import opened Prelude
  import opened RegisterBlocks

  datatype State = New | Stopped | Running | Stepping | Exiting | Gone

  /** The exception types reported for a thread. */
  datatype Exception = Architectural | ThreadStarting | ThreadExiting

  /** Whether reading and writing the thread's registers succeeds. */
  datatype RegIo = RegIo(read: bool, write: bool)

  /** The outcomes Step depends on, in the order it meets them. */
  datatype StepIo = StepIo(refresh: bool, insert: RegIo, resume: bool, undo: RegIo)

  datatype Snapshot = Snapshot(
    state: State,
    step: Option<Word>,           // single_step_breakpoint_, by its address
    context: Option<Exception>,   // exception_context_
    open: bool,                   // handle_ is valid
    cached: Regs,
    cpu: Regs)

  /** A new thread reads as all zeros without asking the kernel. */
  function Refresh(s: Snapshot, ok: bool): (bool, Snapshot) {
    if s.state == New then (true, s.(cached := ZEROS))
    else if ok then (true, s.(cached := s.cpu))
    else (false, s)
  }

  function SetRflagsTF(s: Snapshot, enable: bool, io: RegIo): (bool, Snapshot) {
    var (ok, s1) := Refresh(s, io.read);
    if !ok then (false, s)
    else
      var regs := WithTrap(s1.cached, enable);
      if io.write then (true, s1.(cached := regs, cpu := regs)) else (false, s1.(cached := regs))
  }

  function InsertStep(s: Snapshot, address: Word, io: RegIo): (bool, Snapshot) {
    if s.step.Some? then (false, s)
    else
      var (ok, s1) := SetRflagsTF(s, true, io);
      (ok, if ok then s1.(step := Some(address)) else s1)
  }

  /** The breakpoint's destructor clears the flag if it can; the slot is emptied either way. */
  function RemoveStep(s: Snapshot, io: RegIo): (bool, Snapshot) {
    if s.step.None? then (false, s) else (true, SetRflagsTF(s, false, io).1.(step := None))
  }

  function OnException(s: Snapshot, ty: Exception, io: RegIo): Snapshot {
    var s1 := s.(context := Some(ty), state := Stopped);
    if s.state == Stepping && ty != ThreadExiting then RemoveStep(s1, io).1 else s1
  }

  function Resume(s: Snapshot, ok: bool): (bool, Snapshot) {
    if (s.state == Stopped || s.state == New) && ok then (true, s.(state := Running)) else (false, s)
  }

  function ResumeForExit(s: Snapshot): Snapshot {
    s.(state := Gone, open := false)
  }

  function Step(s: Snapshot, io: StepIo): (bool, Snapshot) {
    if s.state != Stopped then (false, s)
    else
      var (ok, s1) := Refresh(s, io.refresh);
      if !ok then (false, s)
      else
        var (inserted, s2) := InsertStep(s1, s1.cached[RIP], io.insert);
        if !inserted then (false, s2)
        else if !io.resume then (false, RemoveStep(s2, io.undo).1)
        else (true, s2.(state := Stepping))
  }

  function PutRegisters(s: Snapshot, regs: Regs, ok: bool): Snapshot {
    s.(cached := regs, cpu := if ok then regs else s.cpu)
  }

  function SetPc(s: Snapshot, pc: Word, io: RegIo): (bool, Snapshot) {
    var (ok, s1) := Refresh(s, io.read);
    if !ok then (false, s)
    else
      var regs := s1.cached[RIP := pc];
      if io.write then (true, s1.(cached := regs, cpu := regs)) else (false, s1.(cached := regs))
  }

  function Created(cpu: Regs): Snapshot {
    Snapshot(New, None, None, true, ZEROS, cpu)
  }

  /** Thread (thread.cc) with the register cache and the breakpoint set that only it owns. */
  class Thread {
    const id: nat
    var state: State
    var step: Option<Word>
    var context: Option<Exception>
    var open: bool
    var gregs: Regs
    var cpu: Regs

    ghost function Value(): Snapshot
      reads this
    {
      Snapshot(state, step, context, open, gregs, cpu)
    }

    constructor (id: nat, cpu: Regs)
      requires id != 0
      ensures this.id == id
      ensures Value() == Created(cpu)
      ensures state == New && step == None && context == None && open && this.cpu == cpu
      ensures forall i :: 0 <= i < 18 ==> gregs[i] == 0
    {
      this.id := id;
      state, step, context, open := New, None, None, true;
      gregs := ZEROS;
      this.cpu := cpu;
    }

    method SetState(next: State)
      requires next != New
      modifies this`state
      ensures state == next
    {
      state := next;
    }

    method GetRegister(regno: int, size: nat) returns (ok: bool, value: Word)
      ensures ok <==> 0 <= regno < NUM_REGISTERS && size == REGISTER_SIZE
      ensures ok ==> value == gregs[regno]
    {
      if regno < 0 || regno >= NUM_REGISTERS || size != REGISTER_SIZE {
        return false, 0;
      }
      return true, gregs[regno];
    }

    method SetRegister(regno: int, value: Word, size: nat) returns (ok: bool)
      modifies this`gregs
      ensures ok <==> 0 <= regno < NUM_REGISTERS && size == REGISTER_SIZE
      ensures gregs == if ok then old(gregs)[regno := value] else old(gregs)
    {
      if regno < 0 || regno >= NUM_REGISTERS || size != REGISTER_SIZE {
        return false;
      }
      gregs := gregs[regno := value];
      return true;
    }

    method SetSingleStep(enable: bool)
      modifies this`gregs
      ensures gregs == WithTrap(old(gregs), enable)
    {
      gregs := gregs[EFLAGS := SetTF(gregs[EFLAGS], enable)];
    }

    method RefreshGeneralRegisters(ok: bool) returns (r: bool)
      modifies this`gregs
      ensures (r, Value()) == Refresh(old(Value()), ok)
      ensures r <==> state == New || ok
      ensures gregs == if state == New then ZEROS else if ok then cpu else old(gregs)
    {
      if state == New {
        gregs := ZEROS;
        return true;
      }
      if !ok {
        return false;
      }
      gregs := cpu;
      return true;
    }

    method WriteGeneralRegisters(ok: bool) returns (r: bool)
      modifies this`cpu
      ensures r == ok && cpu == if ok then gregs else old(cpu)
    {
      if ok {
        cpu := gregs;
      }
      return ok;
    }

    method SetTrapFlag(enable: bool, io: RegIo) returns (r: bool)
      modifies this`cpu, this`gregs
      ensures (r, Value()) == SetRflagsTF(old(Value()), enable, io)
      ensures r <==> (state == New || io.read) && io.write
      ensures cpu == if r then WithTrap(if state == New then ZEROS else old(cpu), enable) else old(cpu)
    {
      r := RefreshGeneralRegisters(io.read);
      if !r {
        return;
      }
      SetSingleStep(enable);
      r := WriteGeneralRegisters(io.write);
    }

    method InsertSingleStepBreakpoint(address: Word, io: RegIo) returns (r: bool)
      modifies this`cpu, this`step, this`gregs
      ensures (r, Value()) == InsertStep(old(Value()), address, io)
      ensures r <==> old(step).None? && (state == New || io.read) && io.write
      ensures step == (if r then Some(address) else old(step)) && (r ==> Trapping(cpu))
    {
      hide Trapping, WithTrap;
      TrapIs(cpu, true);
      TrapIs(ZEROS, true);
      if step.Some? {
        return false;
      }
      r := SetTrapFlag(true, io);
      if r {
        step := Some(address);
      }
    }

    method RemoveSingleStepBreakpoint(io: RegIo) returns (r: bool)
      modifies this`cpu, this`step, this`gregs
      ensures (r, Value()) == RemoveStep(old(Value()), io)
      ensures (r <==> old(step).Some?) && step == None
      ensures r && (state == New || io.read) && io.write ==> !Trapping(cpu)
    {
      hide Trapping, WithTrap;
      TrapIs(cpu, false);
      TrapIs(ZEROS, false);
      if step.None? {
        return false;
      }
      var cleared := SetTrapFlag(false, io);
      step := None;
      return true;
    }

    /** The precondition is what the check on the breakpoint relies on. */
    method Raise(ty: Exception, io: RegIo)
      requires Paired(Value())
      modifies this`state, this`step, this`context, this`cpu, this`gregs
      ensures Value() == OnException(old(Value()), ty, io)
      ensures state == Stopped && context == Some(ty)
      ensures step == if old(state) == Stepping && ty != ThreadExiting then None else old(step)
    {
      context := Some(ty);
      var previous := state;
      SetState(Stopped);
      if previous == Stepping && ty != ThreadExiting {
        assert step.Some?;
        var removed := RemoveSingleStepBreakpoint(io);
      }
    }

    method DoResume(ok: bool) returns (r: bool)
      modifies this`state
      ensures (r, Value()) == Resume(old(Value()), ok)
      ensures r <==> (old(state) == Stopped || old(state) == New) && ok
      ensures state == if r then Running else old(state)
    {
      if state != Stopped && state != New {
        return false;
      }
      if !ok {
        return false;
      }
      state := Running;
      return true;
    }

    method DoResumeForExit(ok: bool)
      requires state == New || state == Stopped || state == Exiting
      modifies this`state, this`open
      ensures Value() == ResumeForExit(old(Value()))
      ensures state == Gone && !open
    {
      SetState(Gone);
      open := false;
    }

    method DoStep(io: StepIo) returns (r: bool)
      modifies this`state, this`step, this`cpu, this`gregs
      ensures (r, Value()) == Step(old(Value()), io)
      ensures r <==>
              && old(state) == Stopped && old(step).None?
              && io.refresh && io.insert.read && io.insert.write && io.resume
      ensures state == if r then Stepping else old(state)
      ensures step == if r then Some(old(cpu)[16]) else old(step)
      ensures r ==> Trapping(cpu)
    {
      if state != Stopped {
        return false;
      }
      var refreshed := RefreshGeneralRegisters(io.refresh);
      if !refreshed {
        return false;
      }
      var got, pc := GetRegister(RIP, REGISTER_SIZE);
      var inserted := InsertSingleStepBreakpoint(pc, io.insert);
      if !inserted {
        return false;
      }
      if !io.resume {
        var removed := RemoveSingleStepBreakpoint(io.undo);
        return false;
      }
      state := Stepping;
      return true;
    }

    method PutGeneralRegisters(regs: Regs, ok: bool) returns (r: bool)
      modifies this`cpu, this`gregs
      ensures r == ok && Value() == PutRegisters(old(Value()), regs, ok)
      ensures gregs == regs && cpu == if ok then regs else old(cpu)
    {
      gregs := regs;
      r := WriteGeneralRegisters(ok);
    }

    method ContinueAt(pc: Word, io: RegIo) returns (r: bool)
      modifies this`cpu, this`gregs
      ensures (r, Value()) == SetPc(old(Value()), pc, io)
      ensures r <==> (state == New || io.read) && io.write
      ensures r ==> cpu == gregs == (if state == New then ZEROS else old(cpu))[16 := pc]
    {
      r := RefreshGeneralRegisters(io.read);
      if !r {
        return;
      }
      var stored := SetRegister(RIP, pc, REGISTER_SIZE);
      r := WriteGeneralRegisters(io.write);
    }
  }

  // What happens to one thread over its life.

  datatype Event =
    | Raised(ty: Exception, now: Regs, io: RegIo)   // the thread stopped, with its registers now so
    | Exits(now: Regs, io: RegIo)
    | Resumes(ok: bool)
    | Steps(sio: StepIo)
    | Puts(regs: Regs, ok: bool)                    // a G packet
    | PcSet(pc: Word, io: RegIo)                    // a c packet with an address

  /** The kernel reports nothing more about a thread that has exited. */
  function Apply(s: Snapshot, e: Event): Snapshot {
    match e
    case Raised(ty, now, io) => if s.state == Gone || ty == ThreadExiting then s else OnException(s.(cpu := now), ty, io)
    case Exits(now, io) =>
      if s.state == Gone then s else ResumeForExit(OnException(s.(cpu := now), ThreadExiting, io))
    case Resumes(ok) => Resume(s, ok).1
    case Steps(sio) => Step(s, sio).1
    case Puts(regs, ok) => PutRegisters(s, regs, ok)
    case PcSet(pc, io) => SetPc(s, pc, io).1
  }

  function Run(s: Snapshot, events: seq<Event>): Snapshot {
    if events == [] then s else Apply(Run(s, events[..|events| - 1]), events[|events| - 1])
  }

  /** Between events, a thread that is not gone has a single-step breakpoint exactly when it is stepping. */
  predicate Paired(s: Snapshot) {
    s.state != Gone ==> (s.step.Some? <==> s.state == Stepping)
  }

  /** An exception leaves the thread stopped and is remembered, so a resume and a step are possible then. */
  lemma ExceptionStops(s: Snapshot, ty: Exception, io: RegIo)
    ensures var s' := OnException(s, ty, io);
            && s'.state == Stopped && s'.context == Some(ty) && Resume(s', true) == (true, s'.(state := Running))
            && s'.step == if s.state == Stepping && ty != ThreadExiting then None else s.step
  {
  }

  /** Whatever system calls fail, in every run of a thread. */
  lemma {:induction false} RunKeepsPaired(cpu: Regs, events: seq<Event>)
    ensures Paired(Run(Created(cpu), events))
    decreases |events|
  {
    hide Apply;
    if events != [] {
      RunKeepsPaired(cpu, events[..|events| - 1]);
      ApplyKeepsPaired(Run(Created(cpu), events[..|events| - 1]), events[|events| - 1]);
    }
  }

  lemma ApplyKeepsPaired(s: Snapshot, e: Event)
    requires Paired(s)
    ensures Paired(Apply(s, e))
  {
    hide SetTF, HasTF;
  }

  /** A step is refused only for the state, the registers or the resume: never for a leftover breakpoint. */
  lemma StepRefusedOnlyByKernel(cpu: Regs, events: seq<Event>, io: StepIo)
    ensures var s := Run(Created(cpu), events);
            s.state != Gone ==>
              (Step(s, io).0 <==> s.state == Stopped && io.refresh && io.insert.read && io.insert.write && io.resume)
  {
    RunKeepsPaired(cpu, events);
  }

  /** Clearing the flag is reported as done even when it was not: it is done iff both register calls work. */
  lemma RemoveStepAlwaysReportsSuccess(s: Snapshot, io: RegIo)
    requires s.step.Some? && s.state != New && Trapping(s.cpu)
    ensures RemoveStep(s, io).0
    ensures Trapping(RemoveStep(s, io).1.cpu) <==> !(io.read && io.write)
  {
  }

  /** Inserting or removing changes the trap flag of the thread's registers and no other bit. */
  lemma OnlyTheTrapFlag(s: Snapshot, address: Word, io: RegIo)
    requires s.state != New
    ensures SameButTrap(InsertStep(s, address, io).1.cpu, s.cpu)
    ensures SameButTrap(RemoveStep(s, io).1.cpu, s.cpu)
    ensures InsertStep(s, address, io).0 ==> Trapping(InsertStep(s, address, io).1.cpu)
  {
  }

  /** Register calls succeed, the program leaves its trap flag alone, and so does every G packet. */
  predicate Undisturbed(s: Snapshot, e: Event) {
    match e
    case Raised(_, now, io) => io == RegIo(true, true) && Trapping(now) == Trapping(s.cpu)
    case Exits(now, io) => true
    case Resumes(_) => true
    case Steps(sio) => sio.refresh && sio.insert == RegIo(true, true) == sio.undo
    case Puts(regs, _) => Trapping(regs) == Trapping(s.cpu)
    case PcSet(_, io) => io == RegIo(true, true)
  }

  predicate AllUndisturbed(cpu: Regs, events: seq<Event>) {
    events != [] ==>
      var init := events[..|events| - 1];
      AllUndisturbed(cpu, init) && Undisturbed(Run(Created(cpu), init), events[|events| - 1])
  }

  /** The trap flag is set exactly while the thread steps. */
  predicate TrapsIffStepping(s: Snapshot) {
    s.state != Gone ==> (Trapping(s.cpu) <==> s.state == Stepping)
  }

  lemma ApplyKeepsTrap(s: Snapshot, e: Event)
    requires Paired(s) && TrapsIffStepping(s) && Undisturbed(s, e)
    ensures TrapsIffStepping(Apply(s, e))
  {
    match e
    case Raised(ty, now, io) =>
    case Steps(sio) =>
    case PcSet(pc, io) => assert !Trapping(ZEROS);
    case _ =>
  }

  lemma {:induction false} RunKeepsTrap(cpu: Regs, events: seq<Event>)
    requires !Trapping(cpu) && AllUndisturbed(cpu, events)
    ensures TrapsIffStepping(Run(Created(cpu), events))
    decreases |events|
  {
    if events != [] {
      var init := events[..|events| - 1];
      RunKeepsTrap(cpu, init);
      RunKeepsPaired(cpu, init);
      ApplyKeepsTrap(Run(Created(cpu), init), events[|events| - 1]);
    }
  }

  /** A G packet keeps the discipline exactly when the flag it writes is the one in place, or it is not written. */
  lemma PutKeepsTrapIff(s: Snapshot, regs: Regs, ok: bool)
    requires TrapsIffStepping(s) && s.state != Gone
    ensures TrapsIffStepping(PutRegisters(s, regs, ok)) <==> !ok || Trapping(regs) == Trapping(s.cpu)
  {
  }

  /**
   * Continuing at an address, with register calls that work, changes the pc and nothing else
   * exactly if the thread is past its start, or has zeros everywhere else: the
   * registers of a new thread read as zeros, and that block is written back.
   */
  lemma SetPcKeepsOthersIff(s: Snapshot, pc: Word)
    ensures SetPc(s, pc, RegIo(true, true)).0
    ensures SetPc(s, pc, RegIo(true, true)).1.cpu == s.cpu[RIP := pc] <==>
            s.state != New || s.cpu[RIP := pc] == ZEROS[RIP := pc]
  {
  }

  // When the cached registers are those of the thread.

  /** The cache holds what the kernel holds. */
  predicate UpToDate(s: Snapshot) {
    s.cached == s.cpu
  }

  /** After each kind of event, in terms of what was there before. */
  predicate UpToDateAfter(s: Snapshot, e: Event) {
    match e
    case Raised(ty, now, io) =>
      if s.state == Gone || ty == ThreadExiting then UpToDate(s)
      else if s.state == Stepping && io.read then io.write || !Trapping(now)
      else now == s.cached
    case Exits(now, _) => if s.state == Gone then UpToDate(s) else now == s.cached
    case Resumes(_) => UpToDate(s)
    case Steps(io) =>
      if s.state != Stopped || !io.refresh then UpToDate(s)
      else if !io.insert.read then true
      else if !io.insert.write then Trapping(s.cpu)
      else io.resume || !io.undo.read || io.undo.write
    case Puts(regs, ok) => ok || regs == s.cpu
    case PcSet(pc, io) =>
      if s.state == New then io.write || s.cpu == ZEROS[RIP := pc]
      else if !io.read then UpToDate(s)
      else io.write || s.cpu[RIP] == pc
  }

  lemma TrapUnchangedIff(r: Regs, enable: bool)
    ensures WithTrap(r, enable) == r <==> Trapping(r) == enable
  {
    assert WithTrap(r, enable)[EFLAGS] == SetTF(r[EFLAGS], enable);
  }

  /** Exactly so, for every event of a thread that keeps its breakpoint and its state together. */
  lemma UpToDateIff(s: Snapshot, e: Event)
    requires Paired(s)
    ensures UpToDate(Apply(s, e)) <==> UpToDateAfter(s, e)
  {
    hide SetTF, HasTF, Trapping, WithTrap;
    match e
    case Raised(ty, now, io) => TrapUnchangedIff(now, false);
    case Steps(io) => StepUpToDateIff(s, io);
    case PcSet(pc, io) => assert s.cpu[RIP := pc] == s.cpu <==> s.cpu[RIP] == pc;
    case _ =>
  }

  lemma StepUpToDateIff(s: Snapshot, io: StepIo)
    requires Paired(s)
    ensures UpToDate(Step(s, io).1) <==> UpToDateAfter(s, Steps(io))
  {
    hide SetTF, HasTF, WithTrap, Trapping;
    TrapUnchangedIff(s.cpu, true);
    var trapping := WithTrap(s.cpu, true);
    TrapUnchangedIff(trapping, false);
    TrapIsSet(s.cpu, true);
  }

  lemma TrapIsSet(r: Regs, enable: bool)
    ensures Trapping(WithTrap(r, enable)) == enable
  {
  }
}
