/**
 The scheduler over whole runs: who runs next, how long a process waits, and what
 it finds when it is resumed.
 */
module Scheduling {
  import opened Bytes
  import opened Kernel
  import opened Isolation

  // Exactly one process runs, on its own page directory, and the last slot is unused.
  ghost predicate Booted(k: State) {
    && KInv(k)
    && RunningSlot(k) < PROCESS_COUNT_MAX - 1
    && (forall s | 0 <= s < PROCESS_COUNT_MAX && k.procs[s].state == Running :: s == RunningSlot(k))
    && k.procs[PROCESS_COUNT_MAX - 1].state == Inactive
    && k.cr3 == k.procs[RunningSlot(k)].context.dir
  }

  lemma RunningIs(k: State, r: nat)
    requires r < PROCESS_COUNT_MAX && k.procs[r].state == Running
    requires forall s | 0 <= s < PROCESS_COUNT_MAX && k.procs[s].state == Running :: s == r
    ensures RunningSlot(k) == r
  {}

  // ---------- One switch ----------

  // The search stops at the first waiting slot after the current one.
  lemma {:induction false} NextNearest(procs: Procs, cur: nat, next: nat, w: nat)
    requires cur < PROCESS_COUNT_MAX && next < PROCESS_COUNT_MAX && w < PROCESS_COUNT_MAX
    requires procs[w].state == Waiting && Dist(next, w) <= Dist(next, cur)
    ensures Dist(next, NextFrom(procs, cur, next)) <= Dist(next, w)
    decreases Dist(next, cur)
  {
    if next == cur || procs[next].state == Waiting {
    } else {
      NextNearest(procs, cur, (next + 1) % PROCESS_COUNT_MAX, w);
    }
  }

  function NextSlot(k: State): (s: nat)
    requires RunningSlot(k) < PROCESS_COUNT_MAX - 1
    ensures s < PROCESS_COUNT_MAX
  {
    NextFrom(k.procs[RunningSlot(k) := k.procs[RunningSlot(k)].(state := Waiting)], RunningSlot(k), RunningSlot(k) + 1)
  }

  ghost predicate OnlyStatesDiffer(a: Procs, b: Procs) {
    forall s | 0 <= s < PROCESS_COUNT_MAX ::
      b[s] == a[s].(state := b[s].state) && (a[s].state == Inactive <==> b[s].state == Inactive)
  }

  lemma SwitchStates(k: State)
    requires RunningSlot(k) < PROCESS_COUNT_MAX - 1
    ensures var k', n := Switch(k), NextSlot(k);
            && OnlyStatesDiffer(k.procs, k'.procs) && k'.mem == k.mem && k'.active == k.active
            && k.procs[n].state != Inactive && k'.procs[n].state == Running && k'.cr3 == k'.procs[n].context.dir
            && (forall s | 0 <= s < PROCESS_COUNT_MAX && s != n ::
                  k'.procs[s].state == if s == RunningSlot(k) then Waiting else k.procs[s].state)
  {}

  lemma StatesKeepTable(a: Procs, b: Procs)
    requires OnlyStatesDiffer(a, b) && forall s | 0 <= s < PROCESS_COUNT_MAX && a[s].state == Inactive :: b[s] == a[s]
    ensures SameTable(a, b)
  {}

  lemma SwitchDoes(k: State)
    requires Booted(k)
    ensures var k' := Switch(k);
            && Booted(k') && RunningSlot(k') == NextSlot(k) && OnlyStatesDiffer(k.procs, k'.procs)
            && (forall s | 0 <= s < PROCESS_COUNT_MAX && s != NextSlot(k) && k.procs[s].state != Inactive ::
                  k'.procs[s].state == Waiting)
  {
    SwitchStates(k);
    hide KInv, Switch, NextSlot, FirstInState;
    StatesKeepTable(k.procs, Switch(k).procs);
    SameTableKeeps(k, Switch(k));
    Resumed(k, Switch(k), NextSlot(k));
  }

  lemma Resumed(k: State, k': State, n: nat)
    requires Booted(k) && KInv(k') && n < PROCESS_COUNT_MAX && k.procs[n].state != Inactive
    requires k'.procs[n].state == Running && k'.cr3 == k'.procs[n].context.dir
    requires forall s | 0 <= s < PROCESS_COUNT_MAX && s != n ::
               k'.procs[s].state == if s == RunningSlot(k) then Waiting else k.procs[s].state
    ensures Booted(k') && RunningSlot(k') == n
  {
    hide KInv;
    RunningIs(k', n);
  }

  // A waiting process other than the next one comes strictly closer.
  lemma SwitchCloser(k: State, p: nat)
    requires Booted(k) && p < PROCESS_COUNT_MAX && k.procs[p].state == Waiting
    ensures Dist(NextSlot(k), p) < Dist(RunningSlot(k), p)
    ensures NextSlot(k) != RunningSlot(k) && Dist(RunningSlot(k), NextSlot(k)) <= Dist(RunningSlot(k), p)
  {
    var r := RunningSlot(k);
    var procs := k.procs[r := k.procs[r].(state := Waiting)];
    NextNearest(procs, r, r + 1, p);
  }

  // Starting the scheduler marks the first waiting process, or slot 0 when none waits, and
  // nothing else.
  lemma StartDoes(k: State, s: nat)
    requires s < PROCESS_COUNT_MAX
    requires if exists w | 0 <= w < PROCESS_COUNT_MAX :: k.procs[w].state == Waiting
             then k.procs[s].state == Waiting && forall w | 0 <= w < s :: k.procs[w].state != Waiting else s == 0
    ensures var k' := InitScheduler(k);
            && k'.mem == k.mem && k'.active == k.active && k'.cr3 == k.cr3
            && k'.procs[s] == k.procs[s].(state := Running)
            && forall w | 0 <= w < PROCESS_COUNT_MAX && w != s :: k'.procs[w] == k.procs[w]
  {}

  // ---------- Runs ----------

  datatype Op = Create(r: Exec, readOk: bool) | Destroy(pid: nat) | Tick(fr: Frame)

  // Nothing is created late, or as the sixteenth process, and nobody destroys the running
  // process or an unused slot 0.
  ghost predicate LegalOp(k: State, op: Op) {
    match op
    case Create(r, readOk) =>
      ExecOk(r) && (GuardCode(k, r) == 0 ==> k.mem.free > 0 && (readOk ==> k.active < PROCESS_COUNT_MAX - 1))
    case Destroy(pid) => pid != RunningSlot(k) && !(pid == 0 && k.procs[0].state == Inactive)
    case Tick(_) => true
  }

  lemma SaveDoes(k: State, fr: Frame)
    requires Booted(k)
    ensures Booted(Save(k, fr)) && RunningSlot(Save(k, fr)) == RunningSlot(k)
  {
    hide KInv;
    var k' := Save(k, fr);
    SaveKeepsRunning(k, fr);
    assert SameTable(k.procs, k'.procs);
    SameTableKeeps(k, k');
  }

  lemma {:induction false} CountLow(procs: Procs, i: nat)
    requires i < PROCESS_COUNT_MAX && forall s | i <= s < PROCESS_COUNT_MAX - 1 :: procs[s].state != Inactive
    ensures CountActive(procs, i) >= PROCESS_COUNT_MAX - 1 - i
    decreases PROCESS_COUNT_MAX - i
  {
    if i == PROCESS_COUNT_MAX - 1 {
    } else {
      CountLow(procs, i + 1);
    }
  }

  lemma LowSlotFree(procs: Procs)
    ensures CountActive(procs, 0) < PROCESS_COUNT_MAX - 1 ==> FirstInState(procs, 0, Inactive) < PROCESS_COUNT_MAX - 1
  {
    if FirstInState(procs, 0, Inactive) >= PROCESS_COUNT_MAX - 1 {
      CountLow(procs, 0);
    }
  }

  // First fit leaves the last slot alone as long as at most 15 processes are active.
  lemma CreateDoesNotDisturb(k: State, r: Exec, readOk: bool)
    requires Booted(k) && LegalOp(k, Create(r, readOk))
    ensures Booted(Kernel.Create(k, r, readOk).0) && RunningSlot(Kernel.Create(k, r, readOk).0) == RunningSlot(k)
  {
    KMemory(k);
    hide KInv, Kernel.Create, Grown, GuardCode;
    CreateDoes(k, r, readOk);
    CreateKeeps(k, r, readOk);
    ActiveCount(k);
    LowSlotFree(k.procs);
    var p := FirstInState(k.procs, 0, Inactive);
    StillBooted(k, Kernel.Create(k, r, readOk).0, p, NewPcb(k, p, r));
  }

  lemma StillBooted(k: State, k': State, p: nat, b: Pcb)
    requires Booted(k) && KInv(k') && k'.cr3 == k.cr3
    requires k'.procs == k.procs
             || (p < PROCESS_COUNT_MAX - 1 && k.procs[p].state == Inactive && b.state == Waiting
                && k'.procs == k.procs[p := b])
    ensures Booted(k') && RunningSlot(k') == RunningSlot(k)
  {
    hide KInv;
    RunningIs(k', RunningSlot(k));
  }

  // Creating a process leaves the system schedulable exactly when it is legal.
  lemma CreateIsSafeIff(k: State, r: Exec, readOk: bool)
    requires Booted(k) && ExecOk(r)
    ensures Shaped(k.mem)
    ensures Booted(Kernel.Create(k, r, readOk).0) <==> LegalOp(k, Create(r, readOk))
  {
    KMemory(k);
    hide KInv;
    if LegalOp(k, Create(r, readOk)) {
      CreateDoesNotDisturb(k, r, readOk);
    } else if FailsLate(k, r) {
      CreateKeeps(k, r, readOk);
    } else {
      CreateDoes(k, r, readOk);
      ActiveCount(k);
      LowSlotsTaken(k.procs);
    }
  }

  // With 15 processes active the next one takes the last slot, from where the scan of the
  // scheduler would run out of the table: fifteen is the limit, exactly.
  lemma FifteenIsTheLimit(k: State, r: Exec)
    requires Booted(k) && ExecOk(r) && GuardCode(k, r) == 0 && k.mem.free > 0
    ensures Shaped(k.mem)
    ensures Booted(Kernel.Create(k, r, true).0) <==> k.active < PROCESS_COUNT_MAX - 1
  {
    hide Booted;
    CreateIsSafeIff(k, r, true);
  }

  lemma LowSlotsTaken(procs: Procs)
    requires CountActive(procs, 0) >= PROCESS_COUNT_MAX - 1 && procs[PROCESS_COUNT_MAX - 1].state == Inactive
    ensures FirstInState(procs, 0, Inactive) == PROCESS_COUNT_MAX - 1
  {
    var p := FirstInState(procs, 0, Inactive);
    assert FirstInState(procs, 0, Inactive) <= PROCESS_COUNT_MAX - 1;
    if p < PROCESS_COUNT_MAX - 1 {
      var full := procs[p := procs[p].(state := Waiting)];
      CountUpdate(procs, 0, p, full[p]);
      CountAtMost(full, 0);
    }
  }

  lemma KMemory(k: State)
    requires KInv(k)
    ensures Shaped(k.mem)
  {}

  lemma ActiveCount(k: State)
    requires KInv(k)
    ensures k.active == CountActive(k.procs, 0)
    ensures forall s | 0 <= s < PROCESS_COUNT_MAX :: k.procs[s].pid == if k.procs[s].state == Inactive then 0 else s
  {
    PidIsSlot(k);
  }

  lemma DestroyDoesNotDisturb(k: State, pid: nat)
    requires Booted(k) && LegalOp(k, Destroy(pid))
    ensures Booted(Kernel.Destroy(k, pid).0) && RunningSlot(Kernel.Destroy(k, pid).0) == RunningSlot(k)
    ensures Kernel.Destroy(k, pid).0.procs ==
            if pid < PROCESS_COUNT_MAX && k.procs[pid].state != Inactive then k.procs[pid := ZERO_PCB] else k.procs
  {
    hide KInv;
    DestroyKeepsIff(k, pid);
    if pid < PROCESS_COUNT_MAX && k.procs[pid].state != Inactive {
      DestroyActive(k, pid);
    }
    RunningIs(Kernel.Destroy(k, pid).0, RunningSlot(k));
  }

  // Only these two pids are dangerous: the running process's, which leaves nobody running,
  // and 0 when slot 0 is unused.
  lemma DestroyIsSafeIff(k: State, pid: nat)
    requires Booted(k)
    ensures Booted(Kernel.Destroy(k, pid).0) <==> LegalOp(k, Destroy(pid))
  {
    hide MemoryOk;
    DestroyKeepsIff(k, pid);
    if LegalOp(k, Destroy(pid)) {
      DestroyDoesNotDisturb(k, pid);
    } else if pid == RunningSlot(k) {
      DestroyActive(k, pid);
      var k' := Without(k, pid);
      assert forall s | 0 <= s < PROCESS_COUNT_MAX :: k'.procs[s].state != Running;
    }
  }

  lemma TickDoes(k: State, fr: Frame)
    requires Booted(k)
    ensures Booted(Kernel.Tick(k, fr)) && RunningSlot(Kernel.Tick(k, fr)) == NextSlot(k)
    ensures OnlyStatesDiffer(Save(k, fr).procs, Kernel.Tick(k, fr).procs)
  {
    hide KInv;
    SaveDoes(k, fr);
    SwitchDoes(Save(k, fr));
    SameNext(k, fr);
  }

  lemma {:induction false} NextSame(a: Procs, b: Procs, cur: nat, next: nat)
    requires cur < PROCESS_COUNT_MAX && next < PROCESS_COUNT_MAX
    requires forall s | 0 <= s < PROCESS_COUNT_MAX :: a[s].state == b[s].state
    ensures NextFrom(a, cur, next) == NextFrom(b, cur, next)
    decreases Dist(next, cur)
  {
    if next == cur || a[next].state == Waiting {
    } else {
      NextSame(a, b, cur, (next + 1) % PROCESS_COUNT_MAX);
    }
  }

  lemma SameNext(k: State, fr: Frame)
    requires RunningSlot(k) < PROCESS_COUNT_MAX - 1
    ensures RunningSlot(Save(k, fr)) == RunningSlot(k) && NextSlot(Save(k, fr)) == NextSlot(k)
  {
    SaveKeepsRunning(k, fr);
    var r, h := RunningSlot(k), Save(k, fr);
    NextSame(k.procs[r := k.procs[r].(state := Waiting)], h.procs[r := h.procs[r].(state := Waiting)], r, r + 1);
  }

  // Every legal step keeps one process running on its own directory.
  ghost function Step(k: State, op: Op): (k': State)
    requires Booted(k) && LegalOp(k, op)
    ensures Booted(k')
  {
    match op
    case Create(r, readOk) => CreateDoesNotDisturb(k, r, readOk); Kernel.Create(k, r, readOk).0
    case Destroy(pid) => DestroyDoesNotDisturb(k, pid); Kernel.Destroy(k, pid).0
    case Tick(fr) => TickDoes(k, fr); Kernel.Tick(k, fr)
  }

  ghost predicate LegalRun(k: State, ops: seq<Op>)
    requires Booted(k)
    decreases |ops|
  {
    ops == [] || (LegalOp(k, ops[0]) && LegalRun(Step(k, ops[0]), ops[1..]))
  }

  ghost function Run(k: State, ops: seq<Op>): (k': State)
    requires Booted(k) && LegalRun(k, ops)
    ensures Booted(k')
    decreases |ops|
  {
    if ops == [] then k else Run(Step(k, ops[0]), ops[1..])
  }

  function Ticks(ops: seq<Op>): nat {
    if ops == [] then 0 else (if ops[0].Tick? then 1 else 0) + Ticks(ops[1..])
  }

  // ---------- Bounded waiting ----------

  lemma CreateKeepsOthers(k: State, r: Exec, readOk: bool, p: nat)
    requires Booted(k) && LegalOp(k, Create(r, readOk)) && p < PROCESS_COUNT_MAX && k.procs[p].state != Inactive
    ensures Step(k, Create(r, readOk)).procs[p] == k.procs[p]
  {
    hide KInv;
    CreateDoes(k, r, readOk);
  }

  lemma WaitStep(k: State, op: Op, p: nat)
    requires Booted(k) && LegalOp(k, op) && p < PROCESS_COUNT_MAX && k.procs[p].state == Waiting && op != Destroy(p)
    ensures var k' := Step(k, op);
            if op.Tick?
            then RunningSlot(k') == p
                 || (k'.procs[p].state == Waiting && Dist(RunningSlot(k'), p) < Dist(RunningSlot(k), p))
            else k'.procs[p].state == Waiting && RunningSlot(k') == RunningSlot(k)
  {
    hide KInv;
    match op
    case Create(r, readOk) =>
      CreateKeepsOthers(k, r, readOk, p);
      CreateDoesNotDisturb(k, r, readOk);
    case Destroy(pid) =>
      DestroyDoesNotDisturb(k, pid);
    case Tick(fr) =>
      TickDoes(k, fr);
      SwitchCloser(k, p);
  }

  // A waiting process runs within as many switches as it is slots away, whatever is
  // created or destroyed in the meantime.
  lemma {:induction false} BoundedWait(k: State, ops: seq<Op>, p: nat) returns (i: nat)
    requires Booted(k) && LegalRun(k, ops) && p < PROCESS_COUNT_MAX && k.procs[p].state == Waiting
    requires Destroy(p) !in ops
    requires Ticks(ops) >= Dist(RunningSlot(k), p)
    ensures i <= |ops| && LegalRun(k, ops[..i]) && RunningSlot(Run(k, ops[..i])) == p
    ensures Ticks(ops[..i]) <= Dist(RunningSlot(k), p) < PROCESS_COUNT_MAX
    decreases |ops|
  {
    hide KInv, Step;
    assert p != RunningSlot(k) && Dist(RunningSlot(k), p) > 0;
    var op := ops[0];
    WaitStep(k, op, p);
    var k' := Step(k, op);
    if RunningSlot(k') == p {
      i := 1;
      OneOp(k, op);
      assert ops[..1] == [op];
    } else {
      var j := BoundedWait(k', ops[1..], p);
      i := j + 1;
      assert ops[..i][0] == op && ops[..i][1..] == ops[1..][..j];
    }
  }

  lemma OneOp(k: State, op: Op)
    requires Booted(k) && LegalOp(k, op)
    ensures LegalRun(k, [op]) && Run(k, [op]) == Step(k, op) && Ticks([op]) == if op.Tick? then 1 else 0
  {
    assert [op][1..] == [];
  }

  // ---------- What a process finds when it is resumed ----------

  // The history of contexts: a preempted process is remembered as the timer found it, a
  // new one as it was created.  Page directories are carried over, never set.
  ghost function Remember(k: State, m: map<nat, Context>, op: Op): map<nat, Context>
    requires Booted(k) && LegalOp(k, op) && RunningSlot(k) in m
  {
    match op
    case Create(r, readOk) =>
      if GuardCode(k, r) == 0 && readOk then m[FirstInState(k.procs, 0, Inactive) := FirstContext(k)] else m
    case Destroy(pid) => m - {pid}
    case Tick(fr) => m[RunningSlot(k) := Context(fr.cpu, fr.eflags, fr.eip, m[RunningSlot(k)].dir)]
  }

  ghost predicate Agrees(k: State, m: map<nat, Context>) {
    && (forall s :: s in m <==> 0 <= s < PROCESS_COUNT_MAX && k.procs[s].state != Inactive)
    && forall s | s in m :: m[s] == k.procs[s].context
  }

  lemma RememberCreate(k: State, m: map<nat, Context>, r: Exec, readOk: bool)
    requires Booted(k) && LegalOp(k, Create(r, readOk)) && Agrees(k, m)
    ensures Agrees(Step(k, Create(r, readOk)), Remember(k, m, Create(r, readOk)))
  {
    hide KInv, Grown, GuardCode, Kernel.Create;
    CreateDoes(k, r, readOk);
  }

  lemma SaveAgrees(k: State, m: map<nat, Context>, fr: Frame)
    requires Booted(k) && Agrees(k, m)
    ensures Agrees(Save(k, fr), Remember(k, m, Tick(fr)))
  {
    hide KInv, RunningSlot;
    var r := RunningSlot(k);
    assert r in m && k.procs[r].state == Running by { RunningIsActive(k); }
  }

  lemma RunningIsActive(k: State)
    requires RunningSlot(k) < PROCESS_COUNT_MAX
    ensures k.procs[RunningSlot(k)].state == Running
  {}

  lemma StatesAgree(k: State, k': State, m: map<nat, Context>)
    requires Agrees(k, m) && OnlyStatesDiffer(k.procs, k'.procs)
    ensures Agrees(k', m)
  {}

  lemma RememberTick(k: State, m: map<nat, Context>, fr: Frame)
    requires Booted(k) && Agrees(k, m)
    ensures Agrees(Step(k, Tick(fr)), Remember(k, m, Tick(fr)))
  {
    hide KInv, OnlyStatesDiffer, Remember, RunningSlot;
    RunningIsActive(k);
    TickDoes(k, fr);
    SaveAgrees(k, m, fr);
    StatesAgree(Save(k, fr), Kernel.Tick(k, fr), Remember(k, m, Tick(fr)));
  }

  lemma RememberDestroy(k: State, m: map<nat, Context>, pid: nat)
    requires Booted(k) && LegalOp(k, Destroy(pid)) && Agrees(k, m)
    ensures Agrees(Step(k, Destroy(pid)), Remember(k, m, Destroy(pid)))
  {
    hide KInv, RunningSlot, Kernel.Destroy;
    DestroyDoesNotDisturb(k, pid);
    assert Step(k, Destroy(pid)).procs == Kernel.Destroy(k, pid).0.procs;
    DropAgrees(k, Step(k, Destroy(pid)), m, pid);
  }

  lemma DropAgrees(k: State, k': State, m: map<nat, Context>, pid: nat)
    requires Agrees(k, m)
    requires k'.procs == if pid < PROCESS_COUNT_MAX && k.procs[pid].state != Inactive then k.procs[pid := ZERO_PCB]
             else k.procs
    ensures Agrees(k', m - {pid})
  {}

  lemma RememberAgrees(k: State, m: map<nat, Context>, op: Op)
    requires Booted(k) && LegalOp(k, op) && Agrees(k, m)
    ensures Agrees(Step(k, op), Remember(k, m, op))
  {
    hide KInv, Step, Remember;
    match op
    case Create(r, readOk) => RememberCreate(k, m, r, readOk);
    case Destroy(pid) => RememberDestroy(k, m, pid);
    case Tick(fr) => RememberTick(k, m, fr);
  }

  ghost function RememberAll(k: State, m: map<nat, Context>, ops: seq<Op>): map<nat, Context>
    requires Booted(k) && LegalRun(k, ops) && Agrees(k, m)
    decreases |ops|
  {
    if ops == [] then m
    else RememberAgrees(k, m, ops[0]); RememberAll(Step(k, ops[0]), Remember(k, m, ops[0]), ops[1..])
  }

  // Over every run, what is loaded at a switch is what history says: the running process
  // has the context it was last preempted or created with, on its own page directory.
  lemma {:induction false} RunResumes(k: State, m: map<nat, Context>, ops: seq<Op>)
    requires Booted(k) && LegalRun(k, ops) && Agrees(k, m)
    ensures var k', m' := Run(k, ops), RememberAll(k, m, ops);
            && Agrees(k', m')
            && RunningSlot(k') in m' && k'.procs[RunningSlot(k')].context == m'[RunningSlot(k')]
            && k'.cr3 == m'[RunningSlot(k')].dir
    decreases |ops|
  {
    hide KInv, Step, Remember;
    if ops == [] {
    } else {
      RememberAgrees(k, m, ops[0]);
      RunResumes(Step(k, ops[0]), Remember(k, m, ops[0]), ops[1..]);
    }
  }

  lemma StepKeepsDirectory(k: State, op: Op, s: nat)
    requires Booted(k) && LegalOp(k, op) && s < PROCESS_COUNT_MAX && k.procs[s].state != Inactive && op != Destroy(s)
    ensures Step(k, op).procs[s].state != Inactive && Step(k, op).procs[s].context.dir == k.procs[s].context.dir
  {
    hide KInv;
    match op
    case Create(r, readOk) => CreateKeepsOthers(k, r, readOk, s);
    case Destroy(pid) => DestroyDoesNotDisturb(k, pid);
    case Tick(fr) => TickDoes(k, fr);
  }

  // Over every run that does not destroy it, a process lives on its own page directory.
  lemma {:induction false} DirectoryIsForLife(k: State, ops: seq<Op>, s: nat)
    requires Booted(k) && LegalRun(k, ops) && s < PROCESS_COUNT_MAX && k.procs[s].state != Inactive
    requires Destroy(s) !in ops
    ensures Run(k, ops).procs[s].state != Inactive && Run(k, ops).procs[s].context.dir == k.procs[s].context.dir
    decreases |ops|
  {
    hide KInv, Step;
    if ops == [] {
    } else {
      StepKeepsDirectory(k, ops[0], s);
      DirectoryIsForLife(Step(k, ops[0]), ops[1..], s);
    }
  }

  // ---------- Running out of frames ----------

  // A size that wraps around to a single frame.
  function WrapsToOne(): (r: Exec)
    ensures ExecOk(r) && Needed(r.size) == 1 && r.entry < KERNEL_BASE
  {
    Exec([0, 0, 0, 0, 0, 0, 0, 0], 0, U32 - PAGE_FRAME_SIZE)
  }

  // A size that wraps around to none.
  function WrapsToNone(): (r: Exec)
    ensures ExecOk(r) && Needed(r.size) == 0 && r.entry < KERNEL_BASE
  {
    Exec([0, 0, 0, 0, 0, 0, 0, 0], 0, U32 - 2 * PAGE_FRAME_SIZE)
  }

  lemma GuardsPass(k: State, r: Exec)
    requires Booted(k) && ExecOk(r) && r.entry < KERNEL_BASE && Needed(r.size) <= 1 && Needed(r.size) <= k.mem.free
    ensures GuardCode(k, r) == 0
  {
    hide KInv;
    ActiveCount(k);
    CountAtMost(k.procs, 0);
  }

  // A creation whose executable cannot be read keeps the frame that it took.
  lemma FrameLost(k: State, r: Exec)
    requires Booted(k) && ExecOk(r) && GuardCode(k, r) == 0 && k.mem.free > 0
    ensures LegalOp(k, Create(r, false)) && Step(k, Create(r, false)).mem.free == k.mem.free - 1
    ensures Step(k, Create(r, false)).procs == k.procs
  {
    hide KInv;
    CreateDoes(k, r, false);
  }

  // From every booted state failing creations use up the frames...
  lemma {:induction false} FramesRunOut(k: State) returns (ops: seq<Op>)
    requires Booted(k)
    ensures LegalRun(k, ops) && Run(k, ops).mem.free == 0
    decreases k.mem.free
  {
    ops := [];
    if k.mem.free == 0 {
    } else {
      hide KInv, Step, WrapsToOne;
      GuardsPass(k, WrapsToOne());
      FrameLost(k, WrapsToOne());
      var op := Create(WrapsToOne(), false);
      var rest := FramesRunOut(Step(k, op));
      FirstThen(k, op, rest);
      ops := [op] + rest;
    }
  }

  // ...and then one more request leaves a process half built: the late failure is real.
  lemma LateFailureHappens(k: State, readOk: bool) returns (ops: seq<Op>, r: Exec)
    requires Booted(k)
    ensures LegalRun(k, ops) && ExecOk(r) && FailsLate(Run(k, ops), r) && Shaped(Run(k, ops).mem)
    ensures !KInv(Kernel.Create(Run(k, ops), r, readOk).0)
  {
    hide KInv, WrapsToNone;
    ops := FramesRunOut(k);
    r := WrapsToNone();
    GuardsPass(Run(k, ops), r);
    CreateKeeps(Run(k, ops), r, readOk);
  }

  // ---------- Reaching the limits ----------

  // A size that needs two frames, as small ones do.
  function Small(): (r: Exec)
    ensures ExecOk(r) && Needed(r.size) == 2 && r.entry < KERNEL_BASE
  {
    Exec([0, 0, 0, 0, 0, 0, 0, 0], 0, 0)
  }

  lemma SmallPasses(k: State)
    requires Booted(k) && k.mem.free >= 2
    ensures GuardCode(k, Small()) == 0
  {
    hide KInv;
    ActiveCount(k);
    CountAtMost(k.procs, 0);
  }

  lemma OneMore(k: State)
    requires Booted(k) && k.mem.free >= 2 && k.active < PROCESS_COUNT_MAX - 1
    ensures LegalOp(k, Create(Small(), true))
    ensures Step(k, Create(Small(), true)).active == k.active + 1
    ensures Step(k, Create(Small(), true)).mem.free == k.mem.free - 1
  {
    hide KInv, Small;
    SmallPasses(k);
    CreateDoes(k, Small(), true);
  }

  // Fifteen processes can be active: with enough frames, ordinary creations lead there, and
  // the next one would be the sixteenth.
  lemma {:induction false} FifteenReached(k: State) returns (ops: seq<Op>)
    requires Booted(k) && k.active < PROCESS_COUNT_MAX && k.mem.free > PROCESS_COUNT_MAX - k.active
    ensures LegalRun(k, ops) && Run(k, ops).active >= PROCESS_COUNT_MAX - 1 && Run(k, ops).mem.free >= 2
    ensures Shaped(Run(k, ops).mem) && GuardCode(Run(k, ops), Small()) == 0
    ensures !Booted(Kernel.Create(Run(k, ops), Small(), true).0)
    decreases PROCESS_COUNT_MAX - k.active
  {
    hide KInv, Step, Small, GuardCode;
    if k.active >= PROCESS_COUNT_MAX - 1 {
      ops := [];
      SmallPasses(k);
      FifteenIsTheLimit(k, Small());
    } else {
      OneMore(k);
      var op := Create(Small(), true);
      var rest := FifteenReached(Step(k, op));
      FirstThen(k, op, rest);
      ops := [op] + rest;
    }
  }

  lemma Alone(k: State, s: nat)
    requires Booted(k) && RunningSlot(k) == 0 && k.active == 1 && 0 < s < PROCESS_COUNT_MAX
    ensures k.procs[s].state == Inactive
  {
    hide MemoryOk;
    if k.procs[s].state != Inactive {
      CountUpdate(k.procs, 0, 0, ZERO_PCB);
      CountUpdate(k.procs[0 := ZERO_PCB], 0, s, ZERO_PCB);
    }
  }

  lemma SecondWaits(k: State)
    requires Booted(k) && RunningSlot(k) == 0 && k.active == 1 && k.mem.free >= 2
    ensures LegalOp(k, Create(Small(), true))
    ensures var k1 := Step(k, Create(Small(), true)); RunningSlot(k1) == 0 && k1.procs[1].state == Waiting
  {
    Alone(k, 1);
    OneMore(k);
    SmallPasses(k);
    hide KInv, Small;
    CreateDoes(k, Small(), true);
    CreateDoesNotDisturb(k, Small(), true);
    assert FirstInState(k.procs, 0, Inactive) == 1;
  }

  // A second process takes slot 1, the timer runs it, and slot 0 may then be destroyed.
  lemma FirstIsGone(k: State, fr: Frame)
    requires Booted(k) && RunningSlot(k) == 0 && k.active == 1 && k.mem.free >= 2
    ensures LegalOp(k, Create(Small(), true))
    ensures var k1 := Step(k, Create(Small(), true)); RunningSlot(Step(k1, Tick(fr))) == 1
  {
    hide KInv, Small, Booted, NextSlot, LegalOp;
    SecondWaits(k);
    var k1 := Step(k, Create(Small(), true));
    TickDoes(k1, fr);
    SwitchCloser(k1, 1);
  }

  // Slot 0 can be unused while another process runs, and then destroying pid 0 breaks the table.
  lemma PidZeroBreaks(k: State, fr: Frame) returns (ops: seq<Op>)
    requires Booted(k) && RunningSlot(k) == 0 && k.active == 1 && k.mem.free >= 2
    ensures LegalRun(k, ops) && Run(k, ops).procs[0].state == Inactive
    ensures !Booted(Kernel.Destroy(Run(k, ops), 0).0)
  {
    hide KInv, Step, Small;
    FirstIsGone(k, fr);
    var a, b, c := Create(Small(), true), Tick(fr), Destroy(0);
    var k1 := Step(k, a);
    var k2 := Step(k1, b);
    FirstLives(k, fr);
    SlotZeroCleared(k2);
    OneOp(k2, c);
    FirstThen(k1, b, [c]);
    FirstThen(k, a, [b] + [c]);
    ops := [a] + ([b] + [c]);
    DestroyIsSafeIff(Step(k2, c), 0);
  }

  lemma FirstThen(k: State, op: Op, rest: seq<Op>)
    requires Booted(k) && LegalOp(k, op) && LegalRun(Step(k, op), rest)
    ensures LegalRun(k, [op] + rest) && Run(k, [op] + rest) == Run(Step(k, op), rest)
  {
    assert ([op] + rest)[1..] == rest;
  }

  lemma FirstLives(k: State, fr: Frame)
    requires Booted(k) && RunningSlot(k) == 0 && LegalOp(k, Create(Small(), true))
    ensures var k2 := Step(Step(k, Create(Small(), true)), Tick(fr));
            k2.procs[0].state != Inactive
  {
    hide KInv, Small;
    CreateKeepsOthers(k, Small(), true, 0);
    var k1 := Step(k, Create(Small(), true));
    StepKeepsDirectory(k1, Tick(fr), 0);
  }

  lemma SlotZeroCleared(k: State)
    requires Booted(k) && RunningSlot(k) != 0 && k.procs[0].state != Inactive
    ensures LegalOp(k, Destroy(0)) && Step(k, Destroy(0)).procs[0].state == Inactive
  {
    hide KInv;
    DestroyDoesNotDisturb(k, 0);
  }

  // ---------- Booting ----------

  function PowerOn(): State {
    State(ZeroProcs(PROCESS_COUNT_MAX), 0,
          Memory(Falses(FRAME_COUNT), FRAME_COUNT, Falses(DIRECTORY_COUNT), BlankDirs(DIRECTORY_COUNT)), KernelDir)
  }

  function ZeroProcs(n: nat): (p: seq<Pcb>)
    ensures |p| == n && forall i | 0 <= i < n :: p[i] == ZERO_PCB
  {
    if n == 0 then [] else ZeroProcs(n - 1) + [ZERO_PCB]
  }

  function Falses(n: nat): (b: seq<bool>)
    ensures |b| == n && forall i | 0 <= i < n :: !b[i]
  {
    if n == 0 then [] else Falses(n - 1) + [false]
  }

  function BlankDir(n: nat): (d: seq<Pde>)
    ensures |d| == n && forall i | 0 <= i < n :: d[i] == NO_PAGE
  {
    if n == 0 then [] else BlankDir(n - 1) + [NO_PAGE]
  }

  function BlankDirs(n: nat): (d: seq<PageDir>)
    ensures |d| == n && forall i | 0 <= i < n :: d[i] == BlankDir(PAGE_ENTRY_COUNT)
  {
    if n == 0 then [] else BlankDirs(n - 1) + [BlankDir(PAGE_ENTRY_COUNT)]
  }

  lemma {:induction false} CountNone(procs: Procs, i: nat)
    requires i <= PROCESS_COUNT_MAX && forall s | i <= s < PROCESS_COUNT_MAX :: procs[s].state == Inactive
    ensures CountActive(procs, i) == 0
    decreases PROCESS_COUNT_MAX - i
  {
    if i == PROCESS_COUNT_MAX {
    } else {
      CountNone(procs, i + 1);
    }
  }

  lemma PowerOnMemory(k: State)
    requires k == PowerOn()
    ensures MemoryOk(k.mem)
  {}

  lemma PowerOnOk(k: State)
    requires k == PowerOn()
    ensures KInv(k)
  {
    PowerOnMemory(k);
    hide PcbOk, MemoryOk;
    CountNone(k.procs, 0);
    forall s | 0 <= s < PROCESS_COUNT_MAX ensures PcbOk(k, s) {
      BlankSlotOk(k, s);
    }
  }

  lemma BlankSlotOk(k: State, s: nat)
    requires s < PROCESS_COUNT_MAX && k.procs[s] == ZERO_PCB
    ensures PcbOk(k, s)
  {}

  // Creating the shell, starting the scheduler and switching once leads into a booted state
  // exactly when the shell could be created; otherwise an unused slot runs, on no directory.
  lemma Boot(k: State, r: Exec, readOk: bool)
    requires k == PowerOn() && ExecOk(r)
    ensures Shaped(k.mem)
    ensures var k1 := InitScheduler(Kernel.Create(k, r, readOk).0);
            && RunningSlot(k1) == 0 && RunningSlot(Switch(k1)) == 0
            && (Booted(Switch(k1)) <==> readOk && GuardCode(k, r) == 0)
  {
    hide KInv, GuardCode, Kernel.Create, Switch, Booted;
    PowerOnOk(k);
    KMemory(k);
    CreateDoes(k, r, readOk);
    CreateKeeps(k, r, readOk);
    var k0 := Kernel.Create(k, r, readOk).0;
    if readOk && GuardCode(k, r) == 0 {
      ShellRuns(k0);
    } else {
      assert k0.procs == k.procs;
      NoShell(InitScheduler(k0));
    }
  }

  // The program that runs at address addr, in slot 0, has a page of its own there.
  ghost predicate RunsAt(k: State, name: seq<Byte>, addr: nat) {
    && k.procs[0].state == Running && k.procs[0].name == name && k.procs[0].addrs[0] == addr
    && k.procs[0].context.dir.UserDir? && k.cr3 == k.procs[0].context.dir
    && Shaped(k.mem) && k.cr3.i < 32 && addr / 0x40_0000 < 768
    && k.mem.dirs[k.cr3.i][addr / 0x40_0000].present && k.mem.dirs[k.cr3.i][addr / 0x40_0000].user
  }

  // So the first process is the program asked for, with its page where it was asked for.
  lemma BootRuns(k: State, r: Exec)
    requires k == PowerOn() && ExecOk(r) && GuardCode(k, r) == 0
    ensures Shaped(k.mem) && RunningSlot(InitScheduler(Kernel.Create(k, r, true).0)) == 0
    ensures RunsAt(Switch(InitScheduler(Kernel.Create(k, r, true).0)), r.name, r.entry)
  {
    hide KInv, GuardCode, Kernel.Create, Switch, Booted;
    PowerOnOk(k);
    KMemory(k);
    Boot(k, r, true);
    CreateDoes(k, r, true);
    var p, i, v := NewAddressSpace(k, r);
    var k0 := Kernel.Create(k, r, true).0;
    var k1 := InitScheduler(k0);
    assert k0.procs[0] == NewPcb(k, 0, r);
    SwitchStates(k1);
    RunningIsFirst(Switch(k1));
  }

  lemma RunningIsFirst(k: State)
    requires RunningSlot(k) == 0
    ensures k.procs[0].state == Running
  {}

  lemma ShellRuns(k: State)
    requires KInv(k) && k.procs[0].state == Waiting && forall s | 1 <= s < PROCESS_COUNT_MAX :: k.procs[s] == ZERO_PCB
    ensures var k1 := InitScheduler(k);
            RunningSlot(k1) == 0 && RunningSlot(Switch(k1)) == 0 && Booted(Switch(k1))
  {
    hide KInv;
    var k1 := InitScheduler(k);
    SameTableKeeps(k, k1);
    RunningIs(k1, 0);
    BootSwitch(k1);
  }

  lemma NoShell(k: State)
    requires k.procs[0] == ZERO_PCB.(state := Running)
    requires forall s | 1 <= s < PROCESS_COUNT_MAX :: k.procs[s].state == Inactive
    ensures RunningSlot(k) == 0 && RunningSlot(Switch(k)) == 0
    ensures Switch(k).cr3 == Null && !Booted(Switch(k))
  {
    hide MemoryOk;
    RunningIs(k, 0);
    NobodyWaits(k.procs[0 := k.procs[0].(state := Waiting)], 1);
    RunningIs(Switch(k), 0);
    assert !PcbOk(Switch(k), 0);
  }

  lemma {:induction false} NobodyWaits(procs: Procs, next: nat)
    requires next < PROCESS_COUNT_MAX && forall s | 1 <= s < PROCESS_COUNT_MAX :: procs[s].state == Inactive
    ensures NextFrom(procs, 0, next) == 0
    decreases Dist(next, 0)
  {
    if next == 0 {
    } else {
      NobodyWaits(procs, (next + 1) % PROCESS_COUNT_MAX);
    }
  }

  lemma BootSwitch(k: State)
    requires KInv(k) && RunningSlot(k) == 0 && forall s | 1 <= s < PROCESS_COUNT_MAX :: k.procs[s].state == Inactive
    ensures Booted(Switch(k)) && RunningSlot(Switch(k)) == 0
  {
    hide KInv;
    var procs := k.procs[0 := k.procs[0].(state := Waiting)];
    NobodyWaits(procs, 1);
    SameTableKeeps(k, Switch(k));
    RunningIs(Switch(k), 0);
  }
}
