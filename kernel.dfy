/**
 * The top-level kernel object: it owns the CPU, keeps the system time and a list of
 * process names, updates the time on every clock interrupt and reschedules on every
 * third tick.
 */
module SystemKernel {
  import opened Instructions
  import Cpu

  /** Scheduling happens on every third clock interrupt. */
  const SchedulingQuantum: nat := 3

  /** The tick counts on which the clock interrupt reschedules. */
  predicate IsQuantumBoundary(ticks: int)
  {
    ticks % SchedulingQuantum == 0
  }

  /** How many of the ticks 1..n reschedule. */
  function ReschedulesUpTo(n: nat): nat
  {
    if n == 0 then 0 else ReschedulesUpTo(n - 1) + (if IsQuantumBoundary(n) then 1 else 0)
  }

  /** Over the ticks 1..n the kernel reschedules exactly n / 3 times. */
  lemma {:induction false} EveryThirdTick(n: nat)
    ensures ReschedulesUpTo(n) == n / SchedulingQuantum
  {
    if n > 0 {
      EveryThirdTick(n - 1);
      var q, r := (n - 1) / 3, (n - 1) % 3;
      assert n - 1 == 3 * q + r;
      if r == 2 {
        assert n == 3 * (q + 1);
      } else {
        assert n == 3 * q + (r + 1);
      }
    }
  }

  class Kernel {
    const cpu: Cpu.CPU
    var systemTime: int
    var processes: seq<string>

    /** `Kernel()`: a fresh CPU, time 0 and the two simulated user applications. */
    constructor ()
      ensures fresh(cpu) && cpu.Valid()
      ensures systemTime == 0 && processes == ["user_app_1", "user_app_2"] && |processes| == 2
    {
      cpu := new Cpu.CPU();
      systemTime := 0;
      processes := ["user_app_1", "user_app_2"];
    }

    /** Records `ticks` as the system time; `rescheduled` tells whether this interrupt took the
      * scheduling branch, which happens exactly on multiples of three. */
    method HandleClockInterrupt(ticks: int) returns (rescheduled: bool)
      modifies this`systemTime
      ensures systemTime == ticks
      ensures rescheduled <==> IsQuantumBoundary(ticks)
      ensures processes == old(processes)
    {
      systemTime := ticks;
      rescheduled := ticks % 3 == 0;
    }

    /** Reports a privileged instruction refused in user mode; no kernel state changes. */
    method HandleException(instruction: Instruction)
      ensures systemTime == old(systemTime) && processes == old(processes)
    {
    }
  }
}
