/**
 Isolation does not depend on the process table being right: over every run, with late
 failures, exits, and any pid destroyed, no two processes share a page directory or a
 frame (src/code/process/process.c:71-263, src/code/cpu/interrupt.c:137-159, 188-197).
 */
module Separation {
  import opened Kernel
  import opened Isolation
  import Scheduling

  ghost predicate OneRuns(k: State) {
    forall s, t | 0 <= s < t < PROCESS_COUNT_MAX && k.procs[s].state == Running :: k.procs[t].state != Running
  }

  ghost predicate Apart(k: State) {
    DirsApart(k) && OneRuns(k)
  }

  datatype Op = Create(r: Exec, readOk: bool) | Destroy(pid: nat) | Tick(fr: Frame) | Exit(fr: Frame) | Start

  // Only what the code itself needs: someone runs below slot 15 to be preempted, someone
  // runs to exit, and the scheduler is started once.
  predicate Possible(k: State, op: Op) {
    match op
    case Create(r, _) => ExecOk(r)
    case Destroy(_) => true
    case Tick(_) => RunningSlot(k) < PROCESS_COUNT_MAX - 1
    case Exit(_) => RunningSlot(k) < PROCESS_COUNT_MAX
    case Start => RunningSlot(k) == PROCESS_COUNT_MAX
  }

  // Every directory that a slot has afterwards it had before, or it is the one just built.
  ghost predicate DirsKept(k: State, k': State) {
    && k'.mem == k.mem
    && forall s | 0 <= s < PROCESS_COUNT_MAX ::
         k'.procs[s].context.dir == Null || k'.procs[s].context.dir == k.procs[s].context.dir
  }

  lemma KeptIsApart(k: State, k': State)
    requires DirsApart(k) && DirsKept(k, k')
    ensures DirsApart(k')
  {
    hide MemoryOk;
  }

  lemma GrownIsApart(k: State, k': State, p: nat, entry: nat)
    requires DirsApart(k) && p < PROCESS_COUNT_MAX && entry < KERNEL_BASE && 0 <= Built(k.mem) < FRAME_COUNT
    requires k'.mem == Grown(k.mem, entry)
    requires k'.procs[p].context.dir == Null || k'.procs[p].context.dir == UserDir(Built(k.mem))
    requires forall s | 0 <= s < PROCESS_COUNT_MAX && s != p :: k'.procs[s].context.dir == k.procs[s].context.dir
    ensures DirsApart(k')
  {
    GrownMemory(k.mem, entry);
    hide MemoryOk;
    assert Built(k'.mem) == Built(k.mem) + 1;
  }

  // What creation does to the memory and to slot p, in all of its outcomes.
  lemma CreateShape(k: State, r: Exec, readOk: bool)
    requires MemoryOk(k.mem) && ExecOk(r)
    ensures Shaped(k.mem)
    ensures var k', p := Kernel.Create(k, r, readOk).0, FirstInState(k.procs, 0, Inactive);
            if GuardCode(k, r) != 0 then k' == k
            else && p < PROCESS_COUNT_MAX
                 && (forall s | 0 <= s < PROCESS_COUNT_MAX && s != p :: k'.procs[s] == k.procs[s])
                 && k'.procs[p].state != Running
                 && if k.mem.free == 0 then k'.mem == k.mem && k'.procs[p].context.dir == k.procs[p].context.dir
                    else && 0 <= Built(k.mem) < FRAME_COUNT && k'.mem == Grown(k.mem, r.entry)
                         && k'.procs[p].context.dir == if readOk then UserDir(Built(k.mem)) else Null
  {
    hide MemoryOk, FirstInState, FirstFalse;
    FirstUnbuilt(k.mem);
  }

  lemma CreateApart(k: State, r: Exec, readOk: bool)
    requires Apart(k) && ExecOk(r)
    ensures Shaped(k.mem) && Apart(Kernel.Create(k, r, readOk).0)
  {
    CreateShape(k, r, readOk);
    hide MemoryOk, DirsApart, Kernel.Create, Grown;
    var k', p := Kernel.Create(k, r, readOk).0, FirstInState(k.procs, 0, Inactive);
    if GuardCode(k, r) == 0 {
      if k.mem.free == 0 {
        KeptIsApart(k, k');
      } else {
        GrownIsApart(k, k', p, r.entry);
      }
    }
  }

  lemma DestroyApart(k: State, pid: nat)
    requires Apart(k)
    ensures Apart(Kernel.Destroy(k, pid).0)
  {
    hide DirsApart;
    KeptIsApart(k, Kernel.Destroy(k, pid).0);
  }

  lemma TickApart(k: State, fr: Frame)
    requires Apart(k) && RunningSlot(k) < PROCESS_COUNT_MAX - 1
    ensures Apart(Kernel.Tick(k, fr))
  {
    hide DirsApart;
    SaveKeepsRunning(k, fr);
    SaveApart(k, fr);
    Scheduling.SwitchStates(Save(k, fr));
    KeptIsApart(Save(k, fr), Kernel.Tick(k, fr));
  }

  lemma SaveApart(k: State, fr: Frame)
    requires Apart(k) && RunningSlot(k) < PROCESS_COUNT_MAX
    ensures Apart(Save(k, fr))
  {
    hide DirsApart;
    KeptIsApart(k, Save(k, fr));
  }

  lemma ExitApart(k: State, fr: Frame)
    requires Apart(k) && RunningSlot(k) < PROCESS_COUNT_MAX
    ensures Apart(Kernel.Exit(k, fr))
  {
    hide DirsApart;
    KeptIsApart(k, Kernel.Exit(k, fr));
  }

  // After an exit nobody runs; the process that ran is inactive but keeps its directory and
  // everything else, as do all the others.
  lemma ExitDoes(k: State, fr: Frame, r: nat)
    requires OneRuns(k) && r < PROCESS_COUNT_MAX && k.procs[r].state == Running
    ensures RunningSlot(k) == r
    ensures var k' := Kernel.Exit(k, fr);
            && k'.mem == k.mem && k'.active == k.active && k'.cr3 == k.cr3
            && k'.procs[r].state == Inactive && k'.procs[r].context == k.procs[r].context
            && k'.procs[r].pid == k.procs[r].pid
            && (forall s | 0 <= s < PROCESS_COUNT_MAX && s != r :: k'.procs[s] == k.procs[s])
            && forall s | 0 <= s < PROCESS_COUNT_MAX :: k'.procs[s].state != Running
  {}

  lemma StartApart(k: State)
    requires Apart(k) && RunningSlot(k) == PROCESS_COUNT_MAX
    ensures Apart(InitScheduler(k))
  {
    hide DirsApart;
    KeptIsApart(k, InitScheduler(k));
  }

  // Every possible step keeps the processes apart.
  ghost function Step(k: State, op: Op): (k': State)
    requires Apart(k) && Possible(k, op)
    ensures Apart(k')
  {
    match op
    case Create(r, readOk) => CreateApart(k, r, readOk); Kernel.Create(k, r, readOk).0
    case Destroy(pid) => DestroyApart(k, pid); Kernel.Destroy(k, pid).0
    case Tick(fr) => TickApart(k, fr); Kernel.Tick(k, fr)
    case Exit(fr) => ExitApart(k, fr); Kernel.Exit(k, fr)
    case Start => StartApart(k); InitScheduler(k)
  }

  ghost predicate PossibleRun(k: State, ops: seq<Op>)
    requires Apart(k)
    decreases |ops|
  {
    ops == [] || (Possible(k, ops[0]) && PossibleRun(Step(k, ops[0]), ops[1..]))
  }

  ghost function Run(k: State, ops: seq<Op>): (k': State)
    requires Apart(k) && PossibleRun(k, ops)
    ensures Apart(k')
    decreases |ops|
  {
    if ops == [] then k else Run(Step(k, ops[0]), ops[1..])
  }

  // From power-on, whatever is created, destroyed, preempted or exits, two slots that have
  // page directories share no user frame, and the kernel's page is where it belongs.
  lemma AlwaysApart(k: State, ops: seq<Op>, s: nat, t: nat, v: nat, w: nat)
    requires k == Scheduling.PowerOn()
    requires s < PROCESS_COUNT_MAX && t < PROCESS_COUNT_MAX && s != t && v < PAGE_ENTRY_COUNT && w < PAGE_ENTRY_COUNT
    ensures Apart(k)
    ensures PossibleRun(k, ops) && Run(k, ops).procs[s].context.dir.UserDir?
            && Run(k, ops).procs[t].context.dir.UserDir? ==>
              var k', i, j := Run(k, ops), Run(k, ops).procs[s].context.dir.i, Run(k, ops).procs[t].context.dir.i;
              && Shaped(k'.mem) && i < DIRECTORY_COUNT && j < DIRECTORY_COUNT
              && k'.mem.dirs[i][KERNEL_PAGE_INDEX] == KERNEL_PAGE && k'.mem.dirs[j][KERNEL_PAGE_INDEX] == KERNEL_PAGE
              && var a, b := k'.mem.dirs[i][v], k'.mem.dirs[j][w];
                 a.present && a.user && b.present && b.user ==> a.frame != b.frame
  {
    hide KInv, DirsApart, Step, Run;
    Scheduling.PowerOnOk(k);
    ConsistentIsApart(k);
    if PossibleRun(k, ops) {
      var k' := Run(k, ops);
      if k'.procs[s].context.dir.UserDir? && k'.procs[t].context.dir.UserDir? {
        ProcessesApart(k', s, t, v, w);
        ProcessesApart(k', t, s, w, v);
      }
    }
  }
}
