# os-simulator core in Dafny

This project models the sequential core of a small teaching simulator of an operating-system kernel, and proves properties of that model. The core has five parts:

- **The paged memory manager.** Physical frames move between a FIFO free list, per-process page tables with permissions, and up to four frames reserved for the kernel. Virtual addresses are translated as `vpn = addr // page_size` and `offset = addr % page_size`. Reads need permission `r`, `rw` or `rx`, and writes need exactly `rw`. Data is stored as unsigned little-endian bytes, cut so that an access never crosses the end of its page.
- **The process abstractions.** A PCB sets up an initial context. A user process fetches from a fixed instruction list. A kernel process is a small state machine over (current task, task pc), with task templates and three loop strategies: always loop, once, and on demand.
- **The CPU.** It has a mode register (`cpsr`) and a privilege check that refuses kernel instructions in user mode. On an interrupt or an exception it saves the context and forces kernel mode. It can also load a context.
- **The exception-handling kernel's scheduler** (`exception/error.py`). Round-robin selection picks the next process that is alive and has no recorded exception. A faulty process is removed from the list. The clock interrupt switches processes.
- **The top-level kernel** (`kernel/kernel.py`). It keeps the system time and a list of process names, and it reschedules on every third clock tick.

Files:

- `wrappers.dfy`: `Option`.
- `arithmetic.dfy`: module `Arithmetic`. Quotient and remainder facts shared by the other modules.
- `instructions.dfy`: the shared `Instruction(mode, name)` value.
- `memory.dfy`: module `PagedMemory`. The memory state as a value, and one function per operation.
- `memory_lemmas.dfy`: module `MemoryLemmas`. The lemmas about the memory invariant (which `memory.dfy` defines), frame conservation and the write/read round trip.
- `memory_manager.dfy`: module `MemoryManager`. The memory manager as a class whose fields are updated in place. Each method is proved equal to the matching `PagedMemory` function and keeps the invariant, except `ReserveKernelMemory`. That method is the constructor's helper, and its contract states directly which frames it takes.
- `process.dfy`: module `Processes`. The PCB, user processes, and kernel processes (a class, proved against the function `Fetch`).
- `cpu.dfy`: module `Cpu`. The CPU as a class. The kernel it calls into is recorded in a ghost trace of `(kind, data, saved context)` calls.
- `scheduling.dfy`: module `Scheduling`. Round-robin selection as a loop proved against a rotation-based definition, and the kernel's bookkeeping of its process list.
- `kernel.dfy`: module `SystemKernel`. The clock-quantum rule.

How Python's semantics are encoded:

- Python `//` and `%` with a positive page size agree with Dafny's Euclidean operators. The same holds for `ticks % 3`.
- Slicing and slice assignment clamp their bounds at the end of the buffer (`PySlice`, `PySplice`).
- `int.to_bytes` raising `OverflowError` is the `OverflowRaised` outcome of a write.
- `set_mode` raising `ValueError` is a `false` result.
- Object identity of process threads is a `Proc.id` field.
- Python's default arguments are Dafny default parameter values, named by constants:
  - `Memory(total_physical_pages=64, page_size=4096)`;
  - `allocate_physical_page(..., permission="rw")`;
  - `read_memory` and `write_memory` with `length=4`;
  - `KernelProcess(..., loop_strategy="on_demand")`.

Interfaces that do not match in the source:

- The CPU calls `kernel.handle_interrupt(kind, data, context)` (cpu/cpu.py:46), but `kernel/kernel.py` has no such method.
- The CPU calls `handle_exception(kind, data, context)` with three arguments (cpu/cpu.py:58), but `kernel/kernel.py:34` takes one.
- `kernel/kernel.py:22,47` calls `cpu.change_to_user` and `cpu.run`, which do not exist.

The model therefore keeps the CPU's kernel abstract, as a trace of calls, and does not connect `Cpu.CPU` to `SystemKernel.Kernel` beyond ownership.

## Model

| member | source | states |
|---|---|---|
| PagedMemory.FromBytes | memory/memory.py:158 | the unsigned little-endian value of a byte string is below 256^length |
| PagedMemory.ToBytes | memory/memory.py:192 | a value below 256^n becomes exactly n little-endian bytes |
| PagedMemory.FromBytesToBytes | memory/memory.py:158-192 | decoding the n-byte encoding of v gives back v |
| PagedMemory.ToBytesFromBytes | memory/memory.py:158-192 | encoding the value of a byte string at its own length gives back the string |
| PagedMemory.Zeros | memory/memory.py:65 | `b"\x00" * k` is max(k, 0) zero bytes |
| PagedMemory.PySlice | memory/memory.py:155 | a slice with both bounds clamped at the buffer end is never longer than hi - lo, and is exactly the bytes lo..hi-1 when hi is within the buffer |
| PagedMemory.PySplice | memory/memory.py:195 | assigning hi - lo bytes to an in-bounds slice keeps the length, puts the new bytes at lo..hi-1 and keeps every other byte |
| PagedMemory.Range | memory/memory.py:13 | `range(lo, hi)` is the increasing list lo..hi-1, holding exactly the integers in between |
| PagedMemory.ReservedPageAsWrittenIsShort | memory/memory.py:31 | the reserved buffer as written is page_size - 1 bytes long from 16 bytes on and the bare 15-byte tag below that, so it is one page only for a 15-byte page |
| PagedMemory.ReservedPageCorrection | memory/memory.py:31 | from 16 bytes on, the written buffer is the intended one-page buffer without its final zero byte |
| PagedMemory.ReservedPage | memory/memory.py:31 | the corrected reserved buffer is one page long, starts with the tag and is zero after it |
| PagedMemory.Translate | memory/memory.py:94-123 | None exactly for an unknown pid or unmapped vpn; otherwise an address in the mapped frame at the same offset, with the stored permission or "r" by default |
| PagedMemory.ClampToPage | memory/memory.py:153-154 | the transfer length never crosses the page end and is not cut when the access fits |
| PagedMemory.Read | memory/memory.py:125-158 | the value read fits in the requested number of bytes |
| PagedMemory.Initial | memory/memory.py:2-33 | the state after construction: no address spaces, min(4, total) reserved frames, and every other frame free (`MemoryLemmas.InitialLayout` gives the full layout) |
| PagedMemory.CreateProcessVm | memory/memory.py:35-42 | exactly `pid` is added to the address spaces, and an existing one leaves the state unchanged (`MemoryLemmas.CreateProcessVmIdempotent`) |
| PagedMemory.Allocate | memory/memory.py:44-72 | a frame is returned exactly when the pid has an address space and a frame is free; that frame leaves the free list; a failure changes nothing (`MemoryLemmas.AllocateOutcome`) |
| PagedMemory.Free | memory/memory.py:74-92 | an unmapped page changes nothing; a mapped one is unmapped; the reserved frames stay reserved (`MemoryLemmas.FreeOutcome`) |
| PagedMemory.Write | memory/memory.py:160-198 | only frame contents change, and only on success; no frame gains or loses its buffer (`MemoryLemmas.WriteLocality`, `MemoryLemmas.WriteThenRead`) |
| PagedMemory.FreeMemorySize | memory/memory.py:200-202 | a whole number of pages, one per free frame (`MemoryLemmas.FreeMemorySizeConserved`) |
| MemoryLemmas.InitialLayout | memory/memory.py:2-33 | after construction frames 0..min(4,total)-1 are reserved, taken from the head of the free list and each holds the corrected one-page reserved buffer; the rest stay free in order; there are no address spaces |
| MemoryLemmas.InitialValid | memory/memory.py:2-33 | the initial state satisfies the invariant and leaks no frame |
| MemoryLemmas.CreateProcessVmIdempotent | memory/memory.py:35-42 | an existing address space is untouched, a new pid gets empty tables, other pids are unaffected, and a second call changes nothing |
| MemoryLemmas.CreateProcessVmPreserves | memory/memory.py:35-42 | creating an address space keeps the invariant and leaks nothing |
| MemoryLemmas.AllocateOutcome | memory/memory.py:44-72 | None with no state change exactly when the pid is unknown or no frame is free; otherwise the head of the free list is popped, zero-filled, mapped with the permission and returned |
| MemoryLemmas.AllocateTakesUnusedFrame | memory/memory.py:63 | an allocated frame was neither reserved nor mapped |
| MemoryLemmas.AllocatePreservesInv | memory/memory.py:44-72 | allocation keeps the invariant |
| MemoryLemmas.AllocateConservesFrames | memory/memory.py:63-69 | allocating into an unmapped vpn leaks no frame |
| MemoryLemmas.AllocateOverMappedLeaks | memory/memory.py:68 | allocating onto a mapped vpn leaks the frame it replaces: it is no longer free, reserved or mapped |
| MemoryLemmas.FreeOutcome | memory/memory.py:74-92 | a no-op for an unknown pid or vpn; otherwise the mapping and permission go, and a non-reserved frame is appended to the free list and loses its data |
| MemoryLemmas.FreeNeverReleasesReserved | memory/memory.py:84 | no reserved frame ever reaches the free list |
| MemoryLemmas.FreePreservesInv | memory/memory.py:74-92 | freeing keeps the invariant |
| MemoryLemmas.FreeConservesFrames | memory/memory.py:74-92 | freeing leaks no frame |
| MemoryLemmas.PagesAreReservedOrMapped | memory/memory.py:11-19 | the frames holding data are exactly the reserved and the mapped ones, and none is both |
| MemoryLemmas.FramesAreFreeOrHeld | memory/memory.py:11-13 | every frame below the total is either free or holds data, never both |
| MemoryLemmas.FrameConservation | memory/memory.py:11-33 | free + mapped + reserved frames = total frames |
| MemoryLemmas.FreeMemorySizeConserved | memory/memory.py:200-202 | the free memory reported is (total - reserved - allocated frames) times the page size, whenever nothing is leaked |
| MemoryLemmas.InitialFreeMemory | memory/memory.py:2-33 | a new manager reports all but min(4, total) frames as free; with the defaults 64 and 4096 that is 60 * 4096 bytes |
| MemoryLemmas.TranslateNeverZero | memory/memory.py:135 | under the invariant a successful translation is never address 0, so the falsy test rejects only failed translations |
| MemoryLemmas.ReadRefused | memory/memory.py:134-141 | a read returns 0 on a failed translation or a permission other than r, rw or rx |
| MemoryLemmas.WriteRefused | memory/memory.py:170-177 | a write succeeds only with permission exactly "rw"; a failed write changes nothing |
| MemoryLemmas.WriteLocality | memory/memory.py:186-196 | a write changes only bytes [offset, offset+n) of the one translated frame, where n is the length cut at the page end |
| MemoryLemmas.WritePreserves | memory/memory.py:160-198 | a write keeps the invariant and leaks nothing |
| MemoryLemmas.WriteThenRead | memory/memory.py:150-196 | after a successful write, a read at the same address and length returns the data |
| MemoryLemmas.WriteReadRoundTrip | memory/memory.py:150-196 | on a mapped "rw" page, data below 256^length that does not cross the page end is written, and reads back unchanged |
| MemoryManager.Memory.constructor | memory/memory.py:2-20 | the new manager (by default 64 frames of 4096 bytes) is the initial state and satisfies the invariant |
| MemoryManager.Memory.ReserveKernelMemory | memory/memory.py:22-33 | the loop pops up to four frames from the head of the free list, returns them in order and gives each the corrected reserved buffer |
| MemoryManager.Memory.CreateProcessVm | memory/memory.py:35-42 | the new state is CreateProcessVm of the old one, and the invariant holds |
| MemoryManager.Memory.AllocatePhysicalPage | memory/memory.py:44-72 | result and new state are Allocate of the old state; the invariant holds; no leak for an unmapped vpn |
| MemoryManager.Memory.FreePhysicalPage | memory/memory.py:74-92 | the new state is Free of the old one; the invariant and the absence of leaks hold |
| MemoryManager.Memory.TranslateVirtualAddress | memory/memory.py:94-123 | returns Translate of the state |
| MemoryManager.Memory.ReadMemory | memory/memory.py:125-158 | returns Read of the state |
| MemoryManager.Memory.WriteMemory | memory/memory.py:160-198 | status and new state are Write of the old state, and the invariant holds |
| MemoryManager.Memory.GetFreeMemorySize | memory/memory.py:200-202 | when nothing is leaked, the bytes of all frames that are neither kernel-reserved nor allocated to a process |
| Processes.UserProcess.GetNextInstruction | process/process.py:23-27 | instructions[pc] exactly when pc < len, otherwise None |
| Processes.UserProcessRunsProgram | process/process.py:23-27 | fetching at pc, pc+1, ... yields the rest of the program in order, then stops |
| Processes.IdleInstruction | process/process.py:72-79 | with no task, Once yields None, and the other strategies yield a kernel-mode instruction |
| Processes.Fetch | process/process.py:67-98 | a fetch keeps or clears the current task (clearing never under AlwaysLoop), and leaves the current task pc within the current task |
| Processes.FetchRun | process/process.py:67-98 | n successive fetches yield exactly n results (`Processes.AlwaysLoopCycles`, `Processes.TaskRunsOnce` and `Processes.IdleStaysIdle` give their contents) |
| Processes.FetchCases | process/process.py:72-98 | the four cases: no task; pc in range (mode kept, text rewritten, pc + 1); exhausted under AlwaysLoop (restart at the first instruction); exhausted otherwise (task dropped, idle result) |
| Processes.AlwaysLoopCycles | process/process.py:83-89 | under AlwaysLoop the j-th fetch yields the current task instruction at (pc + j) mod its length, forever |
| Processes.TaskRunsOnce | process/process.py:83-98 | under Once or OnDemand the current task's remaining instructions come out in order, then only the idle result |
| Processes.IdleStaysIdle | process/process.py:72-79 | without a task every fetch yields the idle result |
| Processes.KernelProcess.constructor | process/process.py:37-43 | no templates, no task, pc 0 |
| Processes.KernelProcess.RegisterTask | process/process.py:45-55 | a new id gets its template; an existing id's template is never overwritten |
| Processes.KernelProcess.WakeUp | process/process.py:57-65 | a known id becomes current at pc 0, even while another task runs; an unknown id changes nothing |
| Processes.KernelProcess.GetNextInstruction | process/process.py:67-98 | the result and the new task and pc are those of Fetch, including the self-call after restarting or dropping an exhausted task; templates are unchanged |
| Processes.NewPCB | process/process.py:4-15 | empty registers, pc 0, cpsr "user" exactly for a user process, "ready", priority 1, time slice 0 |
| Cpu.CPU.constructor | cpu/cpu.py:3-9 | empty registers, pc 0, user mode, interrupts enabled |
| Cpu.CPU.SetMode | cpu/cpu.py:11-16 | succeeds exactly for "user" or "kernel"; otherwise cpsr is unchanged |
| Cpu.CPU.ExecuteInstruction | cpu/cpu.py:18-28 | a kernel instruction in user mode raises privilege_violation with the pre-entry context and keeps pc; anything else advances pc by exactly 1 |
| Cpu.CPU.ReceiveHardwareInterrupt | cpu/cpu.py:30-46 | no effect while interrupts are disabled; otherwise the pre-entry context is passed to the kernel and cpsr becomes "kernel" |
| Cpu.CPU.RaiseException | cpu/cpu.py:48-58 | the pre-entry context is passed to the kernel, and cpsr becomes "kernel" |
| Cpu.CPU.LoadContext | cpu/cpu.py:60-65 | registers and pc are loaded, then the mode; an invalid mode fails with cpsr unchanged |
| Scheduling.IndexOf | exception/error.py:163 | -1 exactly when the process is not listed; otherwise its first index |
| Scheduling.FirstRunnableIndex | exception/error.py:165-170 | the first index holding a runnable process, with all earlier ones refused, or the length when there is none |
| Scheduling.RemoveFirst | exception/error.py:181-182 | `remove` shortens the list by one when the process is listed, leaves it unchanged otherwise, and adds nothing |
| Scheduling.RemoveFirstDistinct | exception/error.py:181-182 | with distinct processes, `remove` drops exactly that process, keeps every other one, and the list stays distinct |
| Scheduling.SearchOrder | exception/error.py:163-167 | the processes in the order the search examines them: the same length as the list and the same processes (`Scheduling.SearchOrderPermutes`, `Scheduling.SearchOrderShape`) |
| Scheduling.NextAlive | exception/error.py:158-170 | a selected process is listed and runnable (`Scheduling.NextAliveSound` adds the None case) |
| Scheduling.CandidateIsSearchOrder | exception/error.py:163-167 | the i-th candidate `(current_idx + i) % len` is the (i-1)-th process of the rotation that starts after the current one |
| Scheduling.SearchOrderPermutes | exception/error.py:165-167 | the search examines every listed process exactly once |
| Scheduling.SearchOrderShape | exception/error.py:163-167 | the search starts just after the current process and ends with it; an unlisted current process means it starts at index 0 |
| Scheduling.NextAliveSound | exception/error.py:165-170 | a selected process is listed and runnable; None exactly when no listed process is runnable |
| Scheduling.CurrentPickedLast | exception/error.py:165-169 | the current process is selected again only when no other listed process is runnable |
| Scheduling.NextAliveFromHead | exception/error.py:163 | without a listed current process, the selection is the first runnable process in list order |
| Scheduling.Kernel.constructor | exception/error.py:88-94 | running, no current process, no processes; the (empty) list is distinct |
| Scheduling.Kernel.Start | exception/error.py:101-106 | the two new processes are listed, the list is distinct, and the first becomes current |
| Scheduling.Kernel.GetNextAliveProcess | exception/error.py:158-170 | the loop's result is the first runnable process in search order, and None for an empty list |
| Scheduling.Kernel.HandleException | exception/error.py:172-190 | the faulty process is removed and can no longer be selected, the list stays distinct, and the new current process is the first runnable one from the list head |
| Scheduling.Kernel.ClockInterrupt | exception/error.py:131-156 | current unchanged when stopped or when no listed process is alive; otherwise the round-robin selection |
| SystemKernel.EveryThirdTick | kernel/kernel.py:30-32 | over ticks 1..n the kernel reschedules exactly n / 3 times |
| SystemKernel.Kernel.constructor | kernel/kernel.py:8-16 | a fresh CPU, system time 0, exactly two process names |
| SystemKernel.Kernel.HandleClockInterrupt | kernel/kernel.py:25-32 | the system time becomes ticks; rescheduling exactly when ticks % 3 == 0; processes unchanged |
| SystemKernel.Kernel.HandleException | kernel/kernel.py:34-37 | no kernel state changes |

## Left out

- Thread, timer and sleep plumbing:
  - `clock/clock.py` and `interrupt/clock.py` (tick sources);
  - `start.py`;
  - in `exception/error.py`, `Kernel.start` apart from its list and current-process bookkeeping (which `Scheduling.Kernel.Start` models): its threads, timer and dispatch loop (exception/error.py:107-122); also `stop`, `_start_timer` and `_run_empty_process`;
  - `Process.run`, `pause`, `resume`, `stop` and `_execute_step`, whose exceptions are random;
  - `Kernel.start` and `run_user_process` in `kernel/kernel.py`.
  The reason is concurrency, wall-clock time and randomness.
- `Scheduling.Kernel.ClockInterrupt`: does not model pausing and resuming the threads, or restarting the timer.
- `Scheduling.Kernel.HandleException`: does not model stopping and joining the faulty thread. Only the list and the choice of the current process are kept.
- Liveness and the recorded exception are flags of `Proc` that the model reads; the threads that change them are not modelled.
- All `print` output and `Instruction.__repr__`.
- `Processes.KernelProcess.GetNextInstruction`: the rewriting of "进程数 3" to the current process count (process/process.py:69, 93-96) is an opaque `rename` function.
- `Processes.IdleInstruction`: the idle texts are constants; their decoration with the pid and the process count is left out.
- Loop strategy strings other than the three named ones are left out, because the strategy is a datatype. At process/process.py:72-79 an unknown strategy with no task falls through to a `KeyError`.
- `Processes.Fetch`: requires a non-empty task under AlwaysLoop. For an empty task the source restarts it and calls itself again with the same arguments (process/process.py:85-89), so the call never returns and ends in Python's `RecursionError`.
- `Processes.UserProcess.GetNextInstruction`: takes a natural pc. Python's negative indexing is not modelled.
- `MemoryLemmas.InitialLayout`: states that each reserved frame holds the corrected one-page buffer `PagedMemory.ReservedPage`. The source stores the shorter buffer `PagedMemory.ReservedPageAsWritten` (see Findings; `PagedMemory.ReservedPageCorrection` states the difference).
- `MemoryLemmas.InitialValid`: holds for the corrected reserved buffer. With the buffer as written, the invariant's "every frame holds exactly one page" fails for the reserved frames, whenever there is one, at every page size except 15 (`PagedMemory.ReservedPageAsWrittenIsShort`).
- `MemoryManager.Memory.ReserveKernelMemory`: stores the corrected reserved buffer `PagedMemory.ReservedPage`, not the buffer as written at memory/memory.py:31.
- `MemoryManager.Memory.constructor`: the initial state holds the corrected reserved buffer, as for `ReserveKernelMemory`.
- `MemoryManager.Memory.constructor`: requires a positive page size. A zero page size fails at the first translation in the source.
- Memory `length` arguments are natural numbers. Negative lengths are left out.
- Frame conservation (`MemoryLemmas.AllocateConservesFrames`) is proved only for allocation into an unmapped vpn, because allocation onto a mapped vpn leaks the old frame (`MemoryLemmas.AllocateOverMappedLeaks`).
- `Cpu.CPU`: the kernel it calls is an abstract handler recorded in `kernelCalls`. The handler's own effect on the CPU (for example a `load_context`) is not modelled.
- `Cpu.CPU.ExecuteInstruction`: instruction semantics (registers and opcodes) are not modelled, because the source only prints.
- `SystemKernel.Kernel.constructor`: the clock device (kernel/kernel.py:12-13) is not modelled.
- `SystemKernel.Kernel.HandleClockInterrupt`: the source only prints its scheduling decision. The model returns it as a boolean.

## Findings

| source | as written | input that shows it | evidently intended | confidence | as-written member | corrected member |
|---|---|---|---|---|---|---|
| memory/memory.py:31 | a reserved frame holds `b"KERNEL_RESERVED" + b"\x00" * (page_size - 16)`; the tag is 15 bytes, so the buffer is page_size - 1 bytes when page_size >= 16, and the bare 15-byte tag when page_size < 16 | page_size = 4096 gives a 4095-byte reserved frame; page_size = 8 gives a 15-byte one | a buffer of exactly page_size bytes, like every allocated frame (memory/memory.py:65) | medium, not executed | PagedMemory.ReservedPageAsWrittenIsShort | PagedMemory.ReservedPage |
