/**
 * Process abstractions: the process control block's initial context, a user
 * process (a fixed instruction list indexed by a program counter) and a kernel
 * process (named task templates, an optional current task, a task-local program
 * counter and a loop strategy).
 */
module Processes {
  import opened Wrappers
  import opened Instructions
  import Arithmetic

  /** A saved hardware context: registers, program counter and mode register. */
  datatype Context = Context(registers: map<string, int>, pc: int, cpsr: string)

  // ---------------------------------------------------------------------------
  // User processes
  // ---------------------------------------------------------------------------

  datatype UserProcess = UserProcess(pid: int, instructions: seq<Instruction>)
  {
    /** The instruction at `pc`, or None once `pc` is past the end (the process has finished). */
    function GetNextInstruction(pc: nat): (r: Option<Instruction>)
      ensures r.Some? <==> pc < |instructions|
      ensures r.Some? ==> r.value == instructions[pc]
    {
      if pc < |instructions| then Some(instructions[pc]) else None
    }
  }

  /** Fetching at pc = 0, 1, ... returns the program in order and then reports completion. */
  lemma {:induction false} UserProcessRunsProgram(p: UserProcess, from: nat)
    requires from <= |p.instructions|
    ensures FetchAll(p, from) == p.instructions[from..]
    decreases |p.instructions| - from
  {
    if from < |p.instructions| {
      UserProcessRunsProgram(p, from + 1);
    }
  }

  /** The instructions fetched from `from` on, until the first None. */
  function FetchAll(p: UserProcess, from: nat): seq<Instruction>
    decreases |p.instructions| - from
  {
    match p.GetNextInstruction(from)
    case None => []
    case Some(instr) => [instr] + FetchAll(p, from + 1)
  }

  // ---------------------------------------------------------------------------
  // Kernel processes
  // ---------------------------------------------------------------------------

  /** "always_loop", "once" and "on_demand". */
  datatype LoopStrategy = AlwaysLoop | Once | OnDemand

  /** The strategy a kernel process gets when none is given. */
  const DefaultLoopStrategy: LoopStrategy := OnDemand

  /** The text of the instruction a kernel process yields while it has no task. */
  const AlwaysLoopIdleText: string := "waiting for a new task"
  const OnDemandIdleText: string := "sleeping until woken"

  /** What a kernel process yields when it has no task: a kernel-mode idle instruction,
    * or, under Once, None (the process is finished). */
  function IdleInstruction(strategy: LoopStrategy): (r: Option<Instruction>)
    ensures r.None? <==> strategy == Once
    ensures r.Some? ==> r.value.mode == KernelMode
  {
    match strategy
    case AlwaysLoop => Some(Instruction(KernelMode, AlwaysLoopIdleText))
    case OnDemand => Some(Instruction(KernelMode, OnDemandIdleText))
    case Once => None
  }

  /** One fetch step's result: the instruction yielded and the new (current task, task pc). */
  datatype Fetched = Fetched(instr: Option<Instruction>, task: Option<string>, pc: nat)

  /** A fetch terminates unless an empty task runs under AlwaysLoop, which restarts it forever. */
  predicate FetchTerminates(templates: map<string, seq<Instruction>>, strategy: LoopStrategy, task: Option<string>)
  {
    task.Some? && task.value in templates && strategy == AlwaysLoop ==> |templates[task.value]| > 0
  }

  /** One call of the kernel process's get_next_instruction, as a function of its state.
    * `rename` is the rewriting the source applies to an instruction's text when it is
    * fetched (it splices in the current process count). */
  function Fetch(templates: map<string, seq<Instruction>>, strategy: LoopStrategy,
                 task: Option<string>, pc: nat, rename: string -> string): (r: Fetched)
    requires task.Some? ==> task.value in templates
    requires FetchTerminates(templates, strategy, task)
    ensures r.task == task || r.task == None
    ensures r.task.Some? ==> 1 <= r.pc <= |templates[r.task.value]|
    ensures r.task.None? && task.Some? ==> strategy != AlwaysLoop
    decreases if task.None? then 0 else if pc < |templates[task.value]| then 1 else 2
  {
    if task.None? then Fetched(IdleInstruction(strategy), task, pc)
    else
      var instrs := templates[task.value];
      if pc >= |instrs| then
        if strategy == AlwaysLoop then Fetch(templates, strategy, task, 0, rename)
        else Fetch(templates, strategy, None, pc, rename)
      else
        Fetched(Some(Instruction(instrs[pc].mode, rename(instrs[pc].name))), task, pc + 1)
  }

  /** The instructions yielded by n successive fetches. */
  function FetchRun(templates: map<string, seq<Instruction>>, strategy: LoopStrategy,
                    task: Option<string>, pc: nat, rename: string -> string, n: nat): (run: seq<Option<Instruction>>)
    requires task.Some? ==> task.value in templates
    requires FetchTerminates(templates, strategy, task)
    ensures |run| == n
    decreases n
  {
    if n == 0 then []
    else
      var r := Fetch(templates, strategy, task, pc, rename);
      [r.instr] + FetchRun(templates, strategy, r.task, r.pc, rename, n - 1)
  }

  /** The instruction the source yields for a template: same mode, rewritten text. */
  function Renamed(instr: Instruction, rename: string -> string): Instruction
  {
    Instruction(instr.mode, rename(instr.name))
  }

  /** With no task: AlwaysLoop and OnDemand yield a kernel-mode idle instruction, Once yields
    * None, and no state changes. With a task and pc in range: the template instruction at pc
    * (mode kept, text rewritten) and pc + 1. With the current task exhausted: AlwaysLoop restarts it
    * at its first instruction; the other strategies drop the current task and yield their idle
    * result. */
  lemma FetchCases(templates: map<string, seq<Instruction>>, strategy: LoopStrategy,
                   task: Option<string>, pc: nat, rename: string -> string)
    requires task.Some? ==> task.value in templates
    requires FetchTerminates(templates, strategy, task)
    ensures var r := Fetch(templates, strategy, task, pc, rename);
      && (task.None? ==> r == Fetched(IdleInstruction(strategy), None, pc))
      && (task.Some? && pc < |templates[task.value]| ==>
            r == Fetched(Some(Renamed(templates[task.value][pc], rename)), task, pc + 1))
      && (task.Some? && pc >= |templates[task.value]| && strategy == AlwaysLoop ==>
            r == Fetched(Some(Renamed(templates[task.value][0], rename)), task, 1))
      && (task.Some? && pc >= |templates[task.value]| && strategy != AlwaysLoop ==>
            r == Fetched(IdleInstruction(strategy), None, pc))
  {
  }

  /** A run of n fetches is the first fetch's instruction followed by the run of n - 1 from
    * the state that fetch leaves. */
  lemma FetchRunStep(templates: map<string, seq<Instruction>>, strategy: LoopStrategy,
                     task: Option<string>, pc: nat, rename: string -> string, n: nat, j: nat)
    requires task.Some? ==> task.value in templates
    requires FetchTerminates(templates, strategy, task)
    requires j < n
    ensures var r := Fetch(templates, strategy, task, pc, rename);
      FetchRun(templates, strategy, task, pc, rename, n)[j] ==
        if j == 0 then r.instr else FetchRun(templates, strategy, r.task, r.pc, rename, n - 1)[j - 1]
  {
  }

  /** Under AlwaysLoop a task cycles forever: the j-th of n fetches from task pc `pc` yields the
    * template instruction at (pc + j) mod the current task's length. */
  lemma {:induction false} AlwaysLoopCycles(templates: map<string, seq<Instruction>>, taskId: string,
                                           pc: nat, rename: string -> string, n: nat, j: nat)
    requires taskId in templates && |templates[taskId]| > 0
    requires pc <= |templates[taskId]|
    requires j < n
    ensures FetchRun(templates, AlwaysLoop, Some(taskId), pc, rename, n)[j] ==
            Some(Renamed(templates[taskId][(pc + j) % |templates[taskId]|], rename))
    decreases j
  {
    var instrs := templates[taskId];
    var len := |instrs|;
    var r := Fetch(templates, AlwaysLoop, Some(taskId), pc, rename);
    var first := if pc < len then pc else 0;
    if pc == len {
      assert r == Fetch(templates, AlwaysLoop, Some(taskId), 0, rename);
    }
    assert r == Fetched(Some(Renamed(instrs[first], rename)), Some(taskId), first + 1);
    FetchRunStep(templates, AlwaysLoop, Some(taskId), pc, rename, n, j);
    CycleIndex(pc, len, j);
    if j > 0 {
      AlwaysLoopCycles(templates, taskId, first + 1, rename, n - 1, j - 1);
      assert first + 1 + (j - 1) == first + j;
    }
  }

  /** Restarting an exhausted task (pc == len) is the same position as its start modulo len. */
  lemma CycleIndex(pc: nat, len: nat, j: nat)
    requires 0 < len && pc <= len
    ensures var first := if pc < len then pc else 0;
      (pc + j) % len == (first + j) % len && first % len == first
  {
    var first := if pc < len then pc else 0;
    Arithmetic.LemmaFundamentalDivMod(first, len, 0, first);
    if pc == len {
      ModShift(j, len);
    }
  }

  /** Adding the modulus does not change the remainder. */
  lemma ModShift(x: nat, len: nat)
    requires len > 0
    ensures (len + x) % len == x % len
  {
    Arithmetic.LemmaFundamentalDivMod(len + x, len, x / len + 1, x % len);
  }

  /** Under Once or OnDemand a task runs to its end once: the first |task| - pc fetches yield
    * its remaining instructions in order, every later fetch yields the idle result (None
    * under Once, the idle instruction under OnDemand). */
  lemma {:induction false} TaskRunsOnce(templates: map<string, seq<Instruction>>, strategy: LoopStrategy,
                                       taskId: string, pc: nat, rename: string -> string, n: nat, j: nat)
    requires strategy != AlwaysLoop
    requires taskId in templates && pc <= |templates[taskId]|
    requires j < n
    ensures FetchRun(templates, strategy, Some(taskId), pc, rename, n)[j] ==
            if j < |templates[taskId]| - pc then Some(Renamed(templates[taskId][pc + j], rename))
            else IdleInstruction(strategy)
    decreases j
  {
    var instrs := templates[taskId];
    var r := Fetch(templates, strategy, Some(taskId), pc, rename);
    FetchRunStep(templates, strategy, Some(taskId), pc, rename, n, j);
    if pc < |instrs| {
      assert r == Fetched(Some(Renamed(instrs[pc], rename)), Some(taskId), pc + 1);
      if j > 0 {
        TaskRunsOnce(templates, strategy, taskId, pc + 1, rename, n - 1, j - 1);
      }
    } else {
      assert r == Fetch(templates, strategy, None, pc, rename);
      if j > 0 {
        IdleStaysIdle(templates, strategy, pc, rename, n - 1, j - 1);
      }
    }
  }

  /** Without a task every fetch yields the idle result and the state stays put. */
  lemma {:induction false} IdleStaysIdle(templates: map<string, seq<Instruction>>, strategy: LoopStrategy,
                                        pc: nat, rename: string -> string, n: nat, j: nat)
    requires j < n
    ensures FetchRun(templates, strategy, None, pc, rename, n)[j] == IdleInstruction(strategy)
    decreases j
  {
    FetchRunStep(templates, strategy, None, pc, rename, n, j);
    if j > 0 {
      IdleStaysIdle(templates, strategy, pc, rename, n - 1, j - 1);
    }
  }

  class KernelProcess {
    const pid: int
    const loopStrategy: LoopStrategy
    var taskTemplates: map<string, seq<Instruction>>
    var currentTask: Option<string>
    var currentPc: nat

    /** The current task, if any, is a registered one and its pc is within it. */
    ghost predicate Valid()
      reads this
    {
      currentTask.Some? ==> currentTask.value in taskTemplates && currentPc <= |taskTemplates[currentTask.value]|
    }

    /** `KernelProcess(pid, kernel, loop_strategy="on_demand")`; the kernel reference is only used for the
      * process count, which `GetNextInstruction` receives through `rename`. */
    constructor (pid: int, loopStrategy: LoopStrategy := DefaultLoopStrategy)
      ensures Valid()
      ensures this.pid == pid && this.loopStrategy == loopStrategy
      ensures taskTemplates == map[] && currentTask == None && currentPc == 0
    {
      this.pid := pid;
      this.loopStrategy := loopStrategy;
      taskTemplates := map[];
      currentTask := None;
      currentPc := 0;
    }

    /** Registers a template under a new id; an id already registered keeps its template. */
    method RegisterTask(taskId: string, instructions: seq<Instruction>)
      requires Valid()
      modifies this`taskTemplates
      ensures Valid()
      ensures taskTemplates == if taskId in old(taskTemplates) then old(taskTemplates)
                               else old(taskTemplates)[taskId := instructions]
    {
      if taskId !in taskTemplates {
        taskTemplates := taskTemplates[taskId := instructions];
      }
    }

    /** Makes a registered task current and restarts it at its first instruction, even if a
      * task is already running; an unknown id changes nothing. */
    method WakeUp(taskId: string)
      requires Valid()
      modifies this`currentTask, this`currentPc
      ensures Valid()
      ensures taskId in taskTemplates ==> currentTask == Some(taskId) && currentPc == 0
      ensures taskId !in taskTemplates ==> currentTask == old(currentTask) && currentPc == old(currentPc)
    {
      if taskId !in taskTemplates {
        return;
      }
      currentTask := Some(taskId);
      currentPc := 0;
    }

    /** One fetch: the result and the new (current task, task pc) are those of Fetch; the
      * templates are not changed. Like the source, it calls itself once after restarting or
      * dropping an exhausted task. */
    method GetNextInstruction(rename: string -> string) returns (instr: Option<Instruction>)
      requires Valid()
      requires FetchTerminates(taskTemplates, loopStrategy, currentTask)
      modifies this`currentTask, this`currentPc
      ensures Valid()
      ensures Fetched(instr, currentTask, currentPc) ==
              Fetch(taskTemplates, loopStrategy, old(currentTask), old(currentPc), rename)
      decreases if currentTask.None? then 0 else if currentPc < |taskTemplates[currentTask.value]| then 1 else 2
    {
      if currentTask.None? {
        match loopStrategy {
          case AlwaysLoop => return Some(Instruction(KernelMode, AlwaysLoopIdleText));
          case OnDemand => return Some(Instruction(KernelMode, OnDemandIdleText));
          case Once => return None;
        }
      }
      var taskInstrs := taskTemplates[currentTask.value];
      if currentPc >= |taskInstrs| {
        if loopStrategy == AlwaysLoop {
          currentPc := 0;
        } else {
          currentTask := None;
        }
        instr := GetNextInstruction(rename);
        return;
      }
      var template := taskInstrs[currentPc];
      instr := Some(Instruction(template.mode, rename(template.name)));
      currentPc := currentPc + 1;
    }
  }

  // ---------------------------------------------------------------------------
  // Process control blocks
  // ---------------------------------------------------------------------------

  /** The process a PCB belongs to: a user process or a kernel process. */
  datatype ProcessRef = UserRef(user: UserProcess) | KernelRef(kernel: KernelProcess)

  datatype PCB = PCB(process: ProcessRef, context: Context, state: string, priority: int, timeSlice: int)

  /** `PCB(process)`: empty registers, pc 0, user mode exactly for a user process (kernel mode
    * otherwise), state "ready", priority 1, no time used. */
  function NewPCB(process: ProcessRef): (b: PCB)
    ensures b.process == process
    ensures b.context.registers == map[] && b.context.pc == 0
    ensures b.context.cpsr == UserMode <==> process.UserRef?
    ensures b.context.cpsr in {UserMode, KernelMode}
    ensures b.state == "ready" && b.priority == 1 && b.timeSlice == 0
  {
    PCB(process, Context(map[], 0, if process.UserRef? then UserMode else KernelMode), "ready", 1, 0)
  }
}
