/**
 Processes, page frames and the scheduler as one value, and the steps on it:
 creating, destroying and switching processes (src/code/process/process.c,
 src/code/memory/paging.c, src/code/process/scheduler.c,
 src/code/cpu/interrupt.c:148-159, 188-197).
 */
module Kernel {
  import opened Bytes

  const PROCESS_COUNT_MAX: nat := 16
  const FRAME_COUNT: nat := 32
  const DIRECTORY_COUNT: nat := 32
  const PAGE_ENTRY_COUNT: nat := 1024
  const PAGE_FRAME_SIZE: int := 0x40_0000
  const PROCESS_FRAMES_MAX: nat := 8
  const KERNEL_BASE: int := 0xC000_0000
  const KERNEL_PAGE_INDEX: nat := 0x300
  const USER_SEGMENT: int := 0x23

  datatype Cpu = Cpu(edi: int, esi: int, ebp: int, esp: int, ebx: int, edx: int, ecx: int, eax: int,
                     gs: int, fs: int, es: int, ds: int)

  // A pointer to a page directory.
  datatype DirRef = Null | KernelDir | UserDir(i: nat)

  datatype Context = Context(cpu: Cpu, eflags: bv32, eip: int, dir: DirRef)
  datatype PState = Inactive | Running | Waiting
  datatype Pcb = Pcb(name: seq<Byte>, pid: nat, state: PState, context: Context, addrs: Addrs, pages: nat)

  type Addrs = a: seq<int> | |a| == 8 witness [0, 0, 0, 0, 0, 0, 0, 0]

  // A 4 MiB page directory entry; frame is its "lower address".
  datatype Pde = Pde(present: bool, write: bool, user: bool, big: bool, frame: nat)

  const NO_PAGE := Pde(false, false, false, false, 0)
  const KERNEL_PAGE := Pde(true, true, false, true, 0)

  function UserPage(frame: nat): Pde {
    Pde(true, true, true, true, frame)
  }

  type PageDir = d: seq<Pde> | |d| == PAGE_ENTRY_COUNT witness seq(PAGE_ENTRY_COUNT, _ => NO_PAGE)
  type Procs = p: seq<Pcb> | |p| == PROCESS_COUNT_MAX witness seq(PROCESS_COUNT_MAX, _ => ZERO_PCB)

  const ZERO_CPU := Cpu(0, 0, 0, 0, 0, 0, 0, 0, 0, 0, 0, 0)
  const ZERO_PCB := Pcb([0, 0, 0, 0, 0, 0, 0, 0], 0, Inactive, Context(ZERO_CPU, 0, 0, Null),
                        [0, 0, 0, 0, 0, 0, 0, 0], 0)

  // The frame map with its count, and the page directories with their marks.
  datatype Memory = Memory(frames: seq<bool>, free: nat, used: seq<bool>, dirs: seq<PageDir>)

  datatype State = State(procs: Procs, active: nat, mem: Memory, cr3: DirRef)

  // The request names the executable; entry is where it is to be loaded.
  datatype Exec = Exec(name: seq<Byte>, entry: nat, size: nat)

  // ---------- Searches ----------

  function FirstInState(procs: Procs, i: nat, st: PState): (s: nat)
    requires i <= PROCESS_COUNT_MAX
    ensures i <= s <= PROCESS_COUNT_MAX
    ensures s < PROCESS_COUNT_MAX ==> procs[s].state == st
    ensures forall j | i <= j < s :: procs[j].state != st
    decreases PROCESS_COUNT_MAX - i
  {
    if i == PROCESS_COUNT_MAX || procs[i].state == st then i else FirstInState(procs, i + 1, st)
  }

  function FirstPid(procs: Procs, i: nat, pid: nat): (s: nat)
    requires i <= PROCESS_COUNT_MAX
    ensures i <= s <= PROCESS_COUNT_MAX
    ensures s < PROCESS_COUNT_MAX ==> procs[s].pid == pid
    ensures forall j | i <= j < s :: procs[j].pid != pid
    decreases PROCESS_COUNT_MAX - i
  {
    if i == PROCESS_COUNT_MAX || procs[i].pid == pid then i else FirstPid(procs, i + 1, pid)
  }

  function FirstFalse(b: seq<bool>, i: nat): (s: nat)
    requires i <= |b|
    ensures i <= s <= |b|
    ensures s < |b| ==> !b[s]
    ensures forall j | i <= j < s :: b[j]
    decreases |b| - i
  {
    if i == |b| || !b[i] then i else FirstFalse(b, i + 1)
  }

  // ---------- Creating a process ----------

  // The frames asked for, in the wrapping arithmetic of the code.
  function Needed(size: nat): nat {
    (size + PAGE_FRAME_SIZE + PAGE_FRAME_SIZE) % U32 / PAGE_FRAME_SIZE
  }

  predicate ExecOk(r: Exec) {
    |r.name| == 8 && r.entry < U32 && r.size < U32
  }

  function PageIndex(addr: nat): nat {
    addr / PAGE_FRAME_SIZE % PAGE_ENTRY_COUNT
  }

  predicate Shaped(m: Memory) {
    |m.frames| == FRAME_COUNT && |m.used| == DIRECTORY_COUNT && |m.dirs| == DIRECTORY_COUNT
  }

  // The guards in front of any change.
  function GuardCode(k: State, r: Exec): int {
    if k.active >= PROCESS_COUNT_MAX then 1
    else if r.entry >= KERNEL_BASE then 2
    else if FirstInState(k.procs, 0, Inactive) == PROCESS_COUNT_MAX then 1
    else if k.mem.free < Needed(r.size) || Needed(r.size) > PROCESS_FRAMES_MAX then 3
    else 0
  }

  // The slot is taken before memory is.
  function Claim(k: State, p: nat, r: Exec): State
    requires p < PROCESS_COUNT_MAX
  {
    k.(procs := k.procs[p := k.procs[p].(name := r.name, pid := p, state := Waiting)])
  }

  // paging_create_new_page_directory
  function WithDirectory(m: Memory, i: nat): Memory
    requires Shaped(m) && i < DIRECTORY_COUNT
  {
    m.(dirs := m.dirs[i := m.dirs[i][KERNEL_PAGE_INDEX := KERNEL_PAGE]], used := m.used[i := true])
  }

  // paging_allocate_user_page_frame
  function WithFrame(m: Memory, i: nat, f: nat, addr: nat): Memory
    requires Shaped(m) && i < DIRECTORY_COUNT && f < FRAME_COUNT && m.free > 0
  {
    m.(frames := m.frames[f := true], free := m.free - 1,
       dirs := m.dirs[i := m.dirs[i][PageIndex(addr) := UserPage(f)]])
  }

  function SetDirectory(k: State, p: nat, i: nat): State
    requires p < PROCESS_COUNT_MAX && Shaped(k.mem) && i < DIRECTORY_COUNT
  {
    k.(mem := WithDirectory(k.mem, i),
       procs := k.procs[p := k.procs[p].(context := k.procs[p].context.(dir := UserDir(i)))])
  }

  const START_CPU := Cpu(0, 0, 0, 0x40_0000 - 4, 0, 0, 0, 0, USER_SEGMENT, USER_SEGMENT, USER_SEGMENT, USER_SEGMENT)

  function Start(b: Pcb, addr: nat): Pcb {
    b.(addrs := b.addrs[0 := addr], pages := b.pages + 1,
       context := b.context.(cpu := START_CPU, eflags := b.context.eflags | 0x202, eip := 0))
  }

  // process_create_user_process: the new state and the return code.
  function Create(k: State, r: Exec, readOk: bool): (State, int)
    requires Shaped(k.mem) && ExecOk(r)
  {
    if GuardCode(k, r) != 0 then (k, GuardCode(k, r))
    else
      var p := FirstInState(k.procs, 0, Inactive);
      var i := FirstFalse(k.mem.used, 0);
      if i == DIRECTORY_COUNT then (Claim(k, p, r), 3)
      else
        var k2 := SetDirectory(Claim(k, p, r), p, i);
        var f := FirstFalse(k2.mem.frames, 0);
        if k2.mem.free == 0 || f == FRAME_COUNT then (k2, 3)
        else
          var k3 := k2.(mem := WithFrame(k2.mem, i, f, r.entry));
          if !readOk then (k3.(procs := k3.procs[p := ZERO_PCB]), 4)
          else (k3.(procs := k3.procs[p := Start(k3.procs[p], r.entry)], active := k.active + 1), 0)
  }

  // ---------- Destroying a process ----------

  // process_destroy: the first slot with that pid is cleared, whatever its state.
  function Destroy(k: State, pid: nat): (State, bool) {
    var s := FirstPid(k.procs, 0, pid);
    if s == PROCESS_COUNT_MAX then (k, false)
    else (k.(procs := k.procs[s := ZERO_PCB], active := (k.active + U32 - 1) % U32), true)
  }

  // ---------- Switching ----------

  function RunningSlot(k: State): nat {
    FirstInState(k.procs, 0, Running)
  }

  // How many slots on, counted cyclically.
  function Dist(from: nat, to: nat): nat
    requires from < PROCESS_COUNT_MAX && to < PROCESS_COUNT_MAX
  {
    if from <= to then to - from else to + PROCESS_COUNT_MAX - from
  }

  // The cyclic search of the scheduler, which gives up when it is back at cur.
  function NextFrom(procs: Procs, cur: nat, next: nat): (s: nat)
    requires cur < PROCESS_COUNT_MAX && next < PROCESS_COUNT_MAX
    ensures s < PROCESS_COUNT_MAX && (s == cur || procs[s].state == Waiting)
    decreases Dist(next, cur)
  {
    if next == cur || procs[next].state == Waiting then next else NextFrom(procs, cur, (next + 1) % PROCESS_COUNT_MAX)
  }

  // scheduler_switch_to_next_process, for a running slot below 15: the scan starts at
  // cur + 1 without wrapping.
  function Switch(k: State): State
    requires RunningSlot(k) < PROCESS_COUNT_MAX - 1
  {
    var cur := RunningSlot(k);
    var procs := k.procs[cur := k.procs[cur].(state := Waiting)];
    var next := NextFrom(procs, cur, cur + 1);
    k.(procs := procs[next := procs[next].(state := Running)], cr3 := procs[next].context.dir)
  }

  // What the interrupted process was doing.
  datatype Frame = Frame(cpu: Cpu, eflags: bv32, eip: int)

  function Save(k: State, fr: Frame): State
    requires RunningSlot(k) < PROCESS_COUNT_MAX
  {
    var cur := RunningSlot(k);
    k.(procs := k.procs[cur := k.procs[cur].(context := Context(fr.cpu, fr.eflags, fr.eip, k.procs[cur].context.dir))])
  }

  // The timer interrupt.
  function Tick(k: State, fr: Frame): State
    requires RunningSlot(k) < PROCESS_COUNT_MAX - 1
  {
    SaveKeepsRunning(k, fr);
    Switch(Save(k, fr))
  }

  lemma SaveKeepsRunning(k: State, fr: Frame)
    requires RunningSlot(k) < PROCESS_COUNT_MAX
    ensures RunningSlot(Save(k, fr)) == RunningSlot(k)
  {
    var k', cur := Save(k, fr), RunningSlot(k);
    assert forall j | 0 <= j < PROCESS_COUNT_MAX :: k'.procs[j].state == k.procs[j].state;
  }

  // Exit: the running process is marked inactive and keeps everything else.  The context is
  // saved after that, to whoever is still marked as running.
  function Exit(k: State, fr: Frame): State
    requires RunningSlot(k) < PROCESS_COUNT_MAX
  {
    var cur := RunningSlot(k);
    var k' := k.(procs := k.procs[cur := k.procs[cur].(state := Inactive)]);
    var s := RunningSlot(k');
    if s == PROCESS_COUNT_MAX then k'
    else
      var ctx := Context(fr.cpu, fr.eflags, fr.eip, k.procs[cur].context.dir);
      k'.(procs := k'.procs[s := k'.procs[s].(context := ctx)])
  }

  // scheduler_init: the first waiting process runs; with none, slot 0 is marked all the same.
  function InitScheduler(k: State): State {
    var w := FirstInState(k.procs, 0, Waiting);
    var s := if w == PROCESS_COUNT_MAX then 0 else w;
    k.(procs := k.procs[s := k.procs[s].(state := Running)])
  }
}
