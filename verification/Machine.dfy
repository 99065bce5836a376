/**
 The tables of the kernel, updated in place (src/code/process/process.c,
 src/code/memory/paging.c, src/code/process/scheduler.c).
 */
module Machine {
  import opened Bytes
  import K = Kernel
  import opened Kernel
  import opened Isolation
  import opened Scheduling

  class Computer {
    const procs: array<Pcb>
    var active: nat
    var lastPid: nat
    const frames: array<bool>
    var free: nat
    const used: array<bool>
    const dirs: array<PageDir>
    var cr3: DirRef
    var resumed: Context  // what process_context_switch was last called with

    ghost predicate Wired() {
      && procs.Length == PROCESS_COUNT_MAX && frames.Length == FRAME_COUNT
      && used.Length == DIRECTORY_COUNT && dirs.Length == DIRECTORY_COUNT && frames != used
    }

    ghost function Now(): State
      requires Wired()
      reads this, procs, frames, used, dirs
    {
      State(procs[..], active, Memory(frames[..], free, used[..], dirs[..]), cr3)
    }

    constructor ()
      ensures Wired() && Now() == PowerOn()
      ensures fresh(procs) && fresh(frames) && fresh(used) && fresh(dirs)
    {
      procs := new Pcb[PROCESS_COUNT_MAX](_ => ZERO_PCB);
      frames := new bool[FRAME_COUNT](_ => false);
      used := new bool[DIRECTORY_COUNT](_ => false);
      dirs := new PageDir[DIRECTORY_COUNT](_ => BlankDir(PAGE_ENTRY_COUNT));
      active, lastPid, free, cr3 := 0, 0, FRAME_COUNT, KernelDir;
      resumed := ZERO_PCB.context;
      new;
      assert frames[..] == Falses(FRAME_COUNT) && used[..] == Falses(DIRECTORY_COUNT);
      assert procs[..] == ZeroProcs(PROCESS_COUNT_MAX) && dirs[..] == BlankDirs(DIRECTORY_COUNT);
    }

    // ---------- Searches ----------

    // process_list_get_inactive_index; -1 when the table is full.
    method GetInactiveIndex() returns (p: int)
      requires Wired()
      ensures p == if FirstInState(procs[..], 0, Inactive) == PROCESS_COUNT_MAX then -1
              else FirstInState(procs[..], 0, Inactive)
    {
      for i := 0 to PROCESS_COUNT_MAX
        invariant FirstInState(procs[..], i, Inactive) == FirstInState(procs[..], 0, Inactive)
      {
        if procs[i].state == Inactive {
          return i;
        }
      }
      return -1;
    }

    // process_get_current_running_pcb_pointer, as an index; -1 for NULL.
    method GetRunning() returns (p: int)
      requires Wired()
      ensures p == if RunningSlot(Now()) == PROCESS_COUNT_MAX then -1 else RunningSlot(Now())
    {
      for i := 0 to PROCESS_COUNT_MAX
        invariant FirstInState(procs[..], i, Running) == FirstInState(procs[..], 0, Running)
      {
        if procs[i].state == Running {
          return i;
        }
      }
      return -1;
    }

    // process_generate_new_pid
    method GenerateNewPid() returns (pid: nat)
      requires Wired()
      modifies this`lastPid
      ensures pid == if FirstInState(procs[..], 0, Inactive) == PROCESS_COUNT_MAX then old(lastPid)
              else FirstInState(procs[..], 0, Inactive)
      ensures lastPid == old(lastPid) + if FirstInState(procs[..], 0, Inactive) == PROCESS_COUNT_MAX then 1 else 0
    {
      for i := 0 to PROCESS_COUNT_MAX
        invariant FirstInState(procs[..], i, Inactive) == FirstInState(procs[..], 0, Inactive)
      {
        if procs[i].state == Inactive {
          return i;
        }
      }
      pid := lastPid;
      lastPid := lastPid + 1;
    }

    // ---------- Paging ----------

    // paging_allocate_check
    method AllocateCheck(amount: nat) returns (ok: bool)
      ensures ok == (free >= amount)
    {
      return free >= amount;
    }

    // update_page_directory_entry
    method UpdateEntry(i: nat, frame: nat, addr: nat)
      requires Wired() && i < DIRECTORY_COUNT
      modifies dirs
      ensures dirs[..] == old(dirs[..])[i := old(dirs[i])[PageIndex(addr) := UserPage(frame)]]
      ensures addr < 0x1_0000_0000 ==>
                dirs[i] == old(dirs[i])[addr / 0x40_0000 := Pde(true, true, true, true, frame)]
    {
      var d := dirs[i];
      dirs[i] := d[PageIndex(addr) := UserPage(frame)];
    }

    // paging_allocate_user_page_frame: the scan runs to 1024 over a map of 32, so a
    // positive count has to mean that there is an unmarked frame.
    method AllocateUserPageFrame(i: nat, addr: nat) returns (ok: bool)
      requires Wired() && i < DIRECTORY_COUNT
      requires free > 0 ==> FirstFalse(frames[..], 0) < FRAME_COUNT
      modifies this`free, frames, dirs
      ensures ok == (old(free) > 0)
      ensures ok ==> var m := old(Memory(frames[..], free, used[..], dirs[..]));
                     Memory(frames[..], free, used[..], dirs[..]) == WithFrame(m, i, FirstFalse(m.frames, 0), addr)
      ensures !ok ==> frames[..] == old(frames[..]) && free == old(free) && dirs[..] == old(dirs[..])
    {
      if free == 0 {
        return false;
      }
      var f := 0;
      while f < PAGE_ENTRY_COUNT
        invariant f <= FirstFalse(frames[..], 0) < FRAME_COUNT
        invariant FirstFalse(frames[..], f) == FirstFalse(frames[..], 0)
        invariant free == old(free) && frames[..] == old(frames[..]) && dirs[..] == old(dirs[..])
      {
        if !frames[f] {
          frames[f] := true;
          free := free - 1;
          UpdateEntry(i, f, addr);
          return true;
        }
        f := f + 1;
      }
      return false;
    }

    // paging_create_new_page_directory
    method CreatePageDirectory() returns (d: DirRef)
      requires Wired()
      modifies used, dirs
      ensures var m, i := old(Memory(frames[..], free, used[..], dirs[..])), FirstFalse(old(used[..]), 0);
              if i == DIRECTORY_COUNT then d == Null && used[..] == m.used && dirs[..] == m.dirs
              else d == UserDir(i) && Memory(frames[..], free, used[..], dirs[..]) == WithDirectory(m, i)
    {
      var i := 0;
      while i < DIRECTORY_COUNT
        invariant i <= DIRECTORY_COUNT
        invariant FirstFalse(used[..], i) == FirstFalse(used[..], 0)
      {
        if !used[i] {
          break;
        }
        i := i + 1;
      }
      if i == DIRECTORY_COUNT {
        return Null;
      }
      var table := dirs[i];
      dirs[i] := table[KERNEL_PAGE_INDEX := KERNEL_PAGE];
      used[i] := true;
      return UserDir(i);
    }

    // ---------- Processes ----------

    // Takes slot p for the request (process.c:107-115).
    method ClaimSlot(p: nat, r: Exec)
      requires Wired() && ExecOk(r) && p == FirstInState(procs[..], 0, Inactive) < PROCESS_COUNT_MAX
      modifies this`lastPid, procs
      ensures procs[..] == old(procs[..])[p := old(procs[p]).(name := r.name, pid := p, state := Waiting)]
      ensures lastPid == old(lastPid)
    {
      procs[p] := procs[p].(name := r.name);
      assert forall j | 0 <= j < PROCESS_COUNT_MAX :: procs[j].state == old(procs[j].state);
      var pid := GenerateNewPid();
      procs[p] := procs[p].(pid := pid);
      procs[p] := procs[p].(state := Waiting);
    }

    // Registers, flags and bookkeeping of a process that is ready to run (process.c:174-247).
    method Prepare(p: nat, entry: nat)
      requires Wired() && p < PROCESS_COUNT_MAX
      modifies this`active, procs
      ensures procs[..] == old(procs[..])[p := Start(old(procs[p]), entry)] && active == old(active) + 1
    {
      var b := procs[p];
      b := b.(addrs := b.addrs[0 := entry], pages := b.pages + 1);
      var cpu := b.context.cpu.(edi := 0, esi := 0, ebp := 0, esp := 0x40_0000 - 4, ebx := 0, edx := 0, ecx := 0,
                                eax := 0,
                                gs := USER_SEGMENT, fs := USER_SEGMENT, es := USER_SEGMENT, ds := USER_SEGMENT);
      b := b.(context := b.context.(cpu := cpu, eflags := b.context.eflags | 0x202, eip := 0));
      procs[p] := b;
      active := active + 1;
    }

    // The guards in front of any change, and the slot to take (process.c:75-97).
    method CheckGuards(r: Exec) returns (code: int, p: int)
      requires Wired() && ExecOk(r)
      ensures code == GuardCode(Now(), r)
      ensures code == 0 ==> p == FirstInState(procs[..], 0, Inactive) < PROCESS_COUNT_MAX
    {
      if active >= PROCESS_COUNT_MAX {
        return 1, -1;
      }
      if r.entry >= KERNEL_BASE {
        return 2, -1;
      }
      p := GetInactiveIndex();
      if p == -1 {
        return 1, p;
      }
      var needed := (r.size + PAGE_FRAME_SIZE + PAGE_FRAME_SIZE) % U32 / PAGE_FRAME_SIZE;
      var enough := AllocateCheck(needed);
      if !enough || needed > PROCESS_FRAMES_MAX {
        return 3, p;
      }
      return 0, p;
    }

    // Takes the slot and a page directory for it (process.c:107-131).
    method ClaimDirectory(p: nat, r: Exec) returns (directory: DirRef)
      requires Wired() && ExecOk(r) && p == FirstInState(procs[..], 0, Inactive) < PROCESS_COUNT_MAX
      modifies this`lastPid, procs, used, dirs
      ensures lastPid == old(lastPid)
      ensures var k := old(Claim(Now(), p, r));
              var i := FirstFalse(k.mem.used, 0);
              if i == DIRECTORY_COUNT then directory == Null && Now() == k
              else directory == UserDir(i) && Now() == SetDirectory(k, p, i)
    {
      ClaimSlot(p, r);
      directory := CreatePageDirectory();
      if directory != Null {
        procs[p] := procs[p].(context := procs[p].context.(dir := directory));
      }
    }

    // process_create_user_process; readCode is what reading the executable returns.
    method Create(r: Exec, readCode: int) returns (code: int)
      requires Wired() && KInv(Now()) && ExecOk(r)
      modifies this, procs, frames, used, dirs
      ensures (Now(), code) == old(K.Create(Now(), r, readCode == 0)) && resumed == old(resumed)
              && lastPid == old(lastPid)
    {
      hide KInv, GuardCode, FirstFalse, WithFrame, Start;
      FirstFrame(Now());
      var p;
      code, p := CheckGuards(r);
      if code != 0 {
        return;
      }
      var directory := ClaimDirectory(p, r);
      if directory == Null {
        return 3;
      }
      code := Load(p, directory.i, r, readCode);
    }

    // The part of creation that runs on the new page directory (process.c:143-247).
    method Load(p: nat, i: nat, r: Exec, readCode: int) returns (code: int)
      requires Wired() && ExecOk(r) && p < PROCESS_COUNT_MAX && i < DIRECTORY_COUNT
      requires free > 0 ==> FirstFalse(frames[..], 0) < FRAME_COUNT
      modifies this`cr3, this`free, this`active, procs, frames, dirs
      ensures var k := old(Now());
              if k.mem.free == 0 then code == 3 && Now() == k
              else var k3 := k.(mem := WithFrame(k.mem, i, FirstFalse(k.mem.frames, 0), r.entry));
                   if readCode != 0 then code == 4 && Now() == k3.(procs := k3.procs[p := ZERO_PCB])
                   else code == 0
                        && Now() == k3.(procs := k3.procs[p := Start(k3.procs[p], r.entry)], active := k.active + 1)
    {
      var currentPage := cr3;
      var ok := AllocateUserPageFrame(i, r.entry);
      if !ok {
        return 3;
      }
      cr3 := UserDir(i);
      if readCode != 0 {
        procs[p] := ZERO_PCB;
        cr3 := currentPage;
        return 4;
      }
      cr3 := currentPage;
      Prepare(p, r.entry);
      return 0;
    }

    lemma FirstFrame(k: State)
      requires KInv(k)
      ensures Shaped(k.mem) && k.mem.free <= FRAME_COUNT
      ensures k.mem.free > 0 ==> FirstFalse(k.mem.frames, 0) < FRAME_COUNT
    {
      FirstUnbuilt(k.mem);
    }

    // process_destroy
    method Destroy(pid: nat) returns (found: bool)
      requires Wired()
      modifies this`active, procs
      ensures (Now(), found) == old(K.Destroy(Now(), pid))
    {
      for i := 0 to PROCESS_COUNT_MAX
        invariant procs[..] == old(procs[..]) && active == old(active)
        invariant FirstPid(procs[..], i, pid) == FirstPid(procs[..], 0, pid)
      {
        if procs[i].pid == pid {
          procs[i] := ZERO_PCB;
          active := (active + U32 - 1) % U32;
          return true;
        }
      }
      return false;
    }

    // ---------- The scheduler ----------

    // scheduler_init
    method InitScheduler()
      requires Wired()
      modifies procs
      ensures Now() == old(K.InitScheduler(Now()))
    {
      var idx := 0;
      var i := 0;
      while i < PROCESS_COUNT_MAX
        invariant i <= PROCESS_COUNT_MAX && idx == 0
        invariant FirstInState(procs[..], i, Waiting) == FirstInState(procs[..], 0, Waiting)
      {
        if procs[i].state == Waiting {
          idx := i;
          break;
        }
        i := i + 1;
      }
      procs[idx] := procs[idx].(state := Running);
    }

    // scheduler_save_context_to_current_running_pcb
    method SaveContext(ctx: Context)
      requires Wired()
      modifies procs
      ensures var r := old(RunningSlot(Now()));
              procs[..] == if r == PROCESS_COUNT_MAX then old(procs[..])
                  else old(procs[..])[r := old(procs[..])[r].(context := ctx)]
    {
      var p := GetRunning();
      if p != -1 {
        procs[p] := procs[p].(context := ctx);
      }
    }

    // The cyclic search of the scheduler (scheduler.c:96-104).
    method FindNext(current: nat) returns (next: nat)
      requires Wired() && current < PROCESS_COUNT_MAX - 1
      ensures next == NextFrom(procs[..], current, current + 1) < PROCESS_COUNT_MAX
    {
      next := current + 1;
      while next != current && procs[next].state != Waiting
        invariant 0 <= next < PROCESS_COUNT_MAX
        invariant NextFrom(procs[..], current, next) == NextFrom(procs[..], current, current + 1)
        decreases Dist(next, current)
      {
        next := (next + 1) % PROCESS_COUNT_MAX;
      }
    }

    // scheduler_switch_to_next_process; a running slot 15 would be scanned past the table.
    method SwitchToNext()
      requires Wired() && RunningSlot(Now()) < PROCESS_COUNT_MAX - 1
      modifies this`cr3, this`resumed, procs
      ensures Now() == old(Switch(Now()))
      ensures resumed == procs[old(NextSlot(Now()))].context
    {
      var current := GetRunning();
      procs[current] := procs[current].(state := Waiting);
      assert procs[..] == old(procs[..])[current := old(procs[..])[current].(state := Waiting)];
      var next := FindNext(current);
      procs[next] := procs[next].(state := Running);
      cr3 := procs[next].context.dir;
      resumed := procs[next].context;
    }

    // The timer case of main_interrupt_handler.
    method TimerInterrupt(fr: Frame)
      requires Wired() && RunningSlot(Now()) < PROCESS_COUNT_MAX - 1
      modifies this`cr3, this`resumed, procs
      ensures Now() == old(K.Tick(Now(), fr))
      ensures resumed == procs[old(NextSlot(Now()))].context
    {
      var p := GetRunning();
      var ctx := Context(fr.cpu, fr.eflags, fr.eip, procs[p].context.dir);
      SameNext(Now(), fr);
      SaveContext(ctx);
      SwitchToNext();
    }

    // The exit call: the running process is marked inactive before its context is saved
    // (interrupt.c:137-147).
    method ExitProcess(fr: Frame)
      requires Wired() && RunningSlot(Now()) < PROCESS_COUNT_MAX
      modifies procs
      ensures Now() == old(K.Exit(Now(), fr))
    {
      var p := GetRunning();
      var ctx := Context(fr.cpu, fr.eflags, fr.eip, procs[p].context.dir);
      procs[p] := procs[p].(state := Inactive);
      assert procs[..] == old(procs[..])[p := old(procs[..])[p].(state := Inactive)];
      SaveContext(ctx);
    }
  }

  // The last steps of kernel_setup: the first process is created, the scheduler started, and the
  // first switch made.
  // The code of the creation is dropped, so a program that cannot be read goes unnoticed.
  method StartFirst(shell: Exec, readCode: int) returns (c: Computer)
    requires ExecOk(shell)
    ensures c.Wired()
    ensures Booted(c.Now()) <==> readCode == 0 && GuardCode(PowerOn(), shell) == 0
    ensures Booted(c.Now()) ==> RunsAt(c.Now(), shell.name, shell.entry)
  {
    hide KInv, Booted, RunsAt, GuardCode;
    c := new Computer();
    PowerOnOk(c.Now());
    Boot(c.Now(), shell, readCode == 0);
    if readCode == 0 && GuardCode(PowerOn(), shell) == 0 {
      BootRuns(c.Now(), shell);
    }
    var _ := c.Create(shell, readCode);
    c.InitScheduler();
    c.SwitchToNext();
  }
}
