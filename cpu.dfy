/**
 * The simulated CPU: a register file, a program counter, the mode register cpsr
 * ("user" or "kernel") and an interrupt-enable switch. Interrupt and exception entry
 * snapshot the context, force kernel mode and jump into the kernel; the kernel is an
 * abstract handler here, recorded as a ghost trace of the calls it receives.
 */
module Cpu {
  import opened Instructions
  import opened Processes

  /** The `data` argument handed to the kernel: a clock tick count, or the offending instruction. */
  datatype CallData = Ticks(ticks: int) | Faulting(instr: Instruction)

  /** One entry into the kernel: `handle_interrupt(kind, data, context)` or
    * `handle_exception(kind, data, context)`, with the context saved on entry. */
  datatype KernelCall =
    | InterruptCall(kind: string, data: CallData, saved: Context)
    | ExceptionCall(kind: string, data: CallData, saved: Context)

  const PrivilegeViolation: string := "privilege_violation"

  /** The two modes the mode register may hold. */
  predicate IsMode(mode: string)
  {
    mode == UserMode || mode == KernelMode
  }

  /** The hardware refuses a kernel instruction in user mode. */
  predicate Violates(cpsr: string, instr: Instruction)
  {
    cpsr == UserMode && instr.mode == KernelMode
  }

  class CPU {
    var registers: map<string, int>
    var pc: int
    var cpsr: string
    var interruptEnabled: bool
    /** Every call made into the kernel, oldest first. */
    ghost var kernelCalls: seq<KernelCall>

    /** The context as the hardware saves it. */
    function Snapshot(): Context
      reads this
    {
      Context(registers, pc, cpsr)
    }

    ghost predicate Valid()
      reads this
    {
      IsMode(cpsr)
    }

    /** `CPU(kernel)`: empty registers, pc 0, user mode, interrupts enabled. */
    constructor ()
      ensures Valid()
      ensures registers == map[] && pc == 0 && cpsr == UserMode && interruptEnabled
      ensures kernelCalls == []
    {
      registers := map[];
      pc := 0;
      cpsr := UserMode;
      interruptEnabled := true;
      kernelCalls := [];
    }

    /** Switches the mode; `ok` is false (the source raises ValueError) and cpsr is unchanged
      * exactly when `mode` is neither "user" nor "kernel". */
    method SetMode(mode: string) returns (ok: bool)
      requires Valid()
      modifies this`cpsr
      ensures Valid()
      ensures ok <==> IsMode(mode)
      ensures cpsr == if ok then mode else old(cpsr)
    {
      if !IsMode(mode) {
        return false;
      }
      cpsr := mode;
      return true;
    }

    /** Runs one instruction. A kernel instruction in user mode raises privilege_violation with
      * the instruction as data and leaves pc where it is; anything else advances pc by one. */
    method ExecuteInstruction(instr: Instruction)
      requires Valid()
      modifies this`pc, this`cpsr, this`kernelCalls
      ensures Valid()
      ensures registers == old(registers) && interruptEnabled == old(interruptEnabled)
      ensures Violates(old(cpsr), instr) ==>
        && pc == old(pc) && cpsr == KernelMode
        && kernelCalls == old(kernelCalls) + [ExceptionCall(PrivilegeViolation, Faulting(instr), old(Snapshot()))]
      ensures !Violates(old(cpsr), instr) ==>
        pc == old(pc) + 1 && cpsr == old(cpsr) && kernelCalls == old(kernelCalls)
    {
      if cpsr == UserMode && instr.mode == KernelMode {
        RaiseException(PrivilegeViolation, Faulting(instr));
        return;
      }
      pc := pc + 1;
    }

    /** A hardware interrupt: ignored while interrupts are disabled; otherwise the context is
      * saved, kernel mode is forced and the kernel's interrupt handler is called with the
      * saved context. */
    method ReceiveHardwareInterrupt(kind: string, data: CallData)
      requires Valid()
      modifies this`cpsr, this`kernelCalls
      ensures Valid()
      ensures registers == old(registers) && pc == old(pc)
      ensures !old(interruptEnabled) ==> cpsr == old(cpsr) && kernelCalls == old(kernelCalls)
      ensures old(interruptEnabled) ==>
        && cpsr == KernelMode
        && kernelCalls == old(kernelCalls) + [InterruptCall(kind, data, old(Snapshot()))]
    {
      if !interruptEnabled {
        return;
      }
      var saved := Snapshot();
      var _ := SetMode(KernelMode);
      kernelCalls := kernelCalls + [InterruptCall(kind, data, saved)];
    }

    /** An exception: the context is saved, kernel mode is forced and the kernel's exception
      * handler is called with the saved context. */
    method RaiseException(kind: string, data: CallData)
      requires Valid()
      modifies this`cpsr, this`kernelCalls
      ensures Valid()
      ensures registers == old(registers) && pc == old(pc) && cpsr == KernelMode
      ensures kernelCalls == old(kernelCalls) + [ExceptionCall(kind, data, old(Snapshot()))]
    {
      var saved := Snapshot();
      var _ := SetMode(KernelMode);
      kernelCalls := kernelCalls + [ExceptionCall(kind, data, saved)];
    }

    /** Loads a process context: registers, then pc, then the mode. A context whose mode is
      * invalid makes the mode switch fail (`ok` false) after registers and pc were loaded. */
    method LoadContext(context: Context) returns (ok: bool)
      requires Valid()
      modifies this`registers, this`pc, this`cpsr
      ensures Valid()
      ensures registers == context.registers && pc == context.pc
      ensures ok <==> IsMode(context.cpsr)
      ensures ok ==> Snapshot() == context
      ensures !ok ==> cpsr == old(cpsr)
    {
      registers := context.registers;
      pc := context.pc;
      ok := SetMode(context.cpsr);
    }
  }
}
