/**
 The task table of kernel/main/task.c: sixteen records, generational ids,
 and the register context each record keeps while its task is off the CPU.
 */
module Tasks {
  import opened Words

  const MAX_TASKS: nat := 16
  const BASE_WEIGHT: nat := 1024
  const MAX_WEIGHT: nat := 10240
  const DEFAULT_SLICE: nat := 5
  /** Every scheduler scan probes generations 1..10 of a slot and no others. */
  const PROBED_GENERATIONS: nat := 10

  type Slot = i: nat | i < 16

  datatype TaskState = Unused | Ready | Running | Sleeping | Blocked | Terminated

  type Regs30 = r: seq<nat> | |r| == 30 witness seq(30, i => 0)
  type Regs31 = r: seq<nat> | |r| == 31 witness seq(31, i => 0)

  /** The exception frame: x0..x29, the link register, and the EL0 return state. */
  datatype TrapFrame = TrapFrame(x: Regs30, lr: nat, elr: nat, spsr: nat, spEl0: nat)

  /** The saved context in a task record, with the link register as x30. */
  datatype TaskContext = TaskContext(x: Regs31, spEl0: nat, elr: nat, spsr: nat)

  function Save(f: TrapFrame): TaskContext {
    TaskContext(f.x + [f.lr], f.spEl0, f.elr, f.spsr)
  }

  function Load(c: TaskContext): TrapFrame {
    TrapFrame(c.x[..30], c.x[30], c.elr, c.spsr, c.spEl0)
  }

  /** The two layouts carry the same 34 words. */
  lemma SaveLoad(f: TrapFrame)
    ensures Load(Save(f)) == f
  {
  }

  datatype Task = Task(
    id: nat, generation: nat, service: nat, domain: nat, state: TaskState,
    weight: nat, slice: nat, remaining: nat, quantum: nat,
    vruntime: nat, vdeadline: nat, wakeAt: nat, ticksRun: nat,
    context: TaskContext)

  function ZeroRegs(): Regs31 {
    seq(31, i => 0)
  }

  function FreshTask(): Task {
    Task(0, 1, 0, 0, Unused, BASE_WEIGHT, DEFAULT_SLICE, 0, DEFAULT_SLICE, 0, 0, 0, 0, TaskContext(ZeroRegs(), 0, 0, 0))
  }

  type TaskTable = ts: seq<Task> | |ts| == 16 witness seq(16, i => FreshTask())

  predicate Free(t: Task) {
    t.state == Unused || t.state == Terminated
  }

  /** What a probe of generations 1..10 finds. */
  predicate Visible(t: Task) {
    1 <= t.generation <= PROBED_GENERATIONS && t.state != Unused
  }

  predicate Candidate(t: Task) {
    Visible(t) && t.state == Ready
  }

  function TaskId(generation: nat, slot: nat): nat {
    generation * TWO16 + slot
  }

  /** lettuce_task_get: the slot an id resolves to. */
  function Resolve(ts: TaskTable, id: u32): (r: Option<Slot>)
    ensures r.Some? <==> id % TWO16 < MAX_TASKS && ts[id % TWO16].state != Unused
                         && id == TaskId(ts[id % TWO16].generation, id % TWO16)
    ensures r.Some? ==> r.value == id % TWO16
  {
    var slot := id % TWO16;
    if slot >= MAX_TASKS then None
    else if ts[slot].generation != id / TWO16 then None
    else if ts[slot].state == Unused then None
    else Some(slot)
  }

  /** The lowest free slot at or above n. */
  function FirstFree(ts: TaskTable, n: nat): (r: Option<Slot>)
    requires n <= 16
    ensures r.None? ==> forall i: Slot :: n <= i ==> !Free(ts[i])
    ensures r.Some? ==> n <= r.value && Free(ts[r.value]) && forall i: Slot :: n <= i < r.value ==> !Free(ts[i])
    decreases 16 - n
  {
    if n == 16 then None
    else if Free(ts[n]) then Some(n)
    else FirstFree(ts, n + 1)
  }

  function NewTask(t: Task, slot: Slot, service: u32, domain: u32, pc: u64, sp: u64): Task {
    var gen := if t.generation == 0 then 1 else t.generation;
    Task(TaskId(gen, slot), gen, service, domain, Ready, BASE_WEIGHT, DEFAULT_SLICE,
         DEFAULT_SLICE, DEFAULT_SLICE, 0, 0, 0, 0, TaskContext(ZeroRegs(), sp, pc, 0))
  }

  /** EL0 with interrupts unmasked, zeroed registers, the given entry point and stack. */
  function StartFrame(pc: u64, sp: u64): TrapFrame {
    TrapFrame(seq(30, i => 0), 0, pc, 0, sp)
  }

  lemma StartContext(pc: u64, sp: u64)
    ensures Load(TaskContext(ZeroRegs(), sp, pc, 0)) == StartFrame(pc, sp)
  {
  }

  function ClampWeight(w: u32): (r: nat)
    ensures 1 <= r <= MAX_WEIGHT
    ensures 1 <= w <= MAX_WEIGHT ==> r == w
    ensures w == 0 ==> r == 1
    ensures w > MAX_WEIGHT ==> r == MAX_WEIGHT
  {
    if w == 0 then 1 else if w > MAX_WEIGHT then MAX_WEIGHT else w
  }

  function ClampSlice(n: u32): (r: nat)
    ensures 1 <= r < TWO32
    ensures 1 <= n ==> r == n
  {
    if n == 0 then 1 else n
  }
}
