/** The instruction descriptor shared by the CPU, the processes and the kernel. */
module Instructions {

  /** Processor and instruction privilege modes, spelled as the source spells them. */
  const UserMode: string := "user"
  const KernelMode: string := "kernel"

  /** An instruction carries only the privilege it needs (`mode`) and its text (`name`). */
  datatype Instruction = Instruction(mode: string, name: string)
}
