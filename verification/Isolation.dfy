/**
 What creating and destroying processes keeps: the process table, the frame map
 and the page directories agree, and no two processes share a frame.
 */
module Isolation {
  import opened Bytes
  import opened Kernel

  function CountActive(procs: Procs, i: nat): nat
    requires i <= PROCESS_COUNT_MAX
    decreases PROCESS_COUNT_MAX - i
  {
    if i == PROCESS_COUNT_MAX then 0 else (if procs[i].state != Inactive then 1 else 0) + CountActive(procs, i + 1)
  }

  // Page directories and frames are handed out together, in order, and never come back.
  function Built(m: Memory): int {
    FRAME_COUNT - m.free
  }

  // The kernel's page, and at most one page of the process: frame i.
  ghost predicate DirOk(d: PageDir, i: nat) {
    && d[KERNEL_PAGE_INDEX] == KERNEL_PAGE
    && (forall v | 0 <= v < PAGE_ENTRY_COUNT && v != KERNEL_PAGE_INDEX :: d[v] == NO_PAGE || d[v] == UserPage(i))
    && (forall v, w | 0 <= v < w < PAGE_ENTRY_COUNT && v != KERNEL_PAGE_INDEX && w != KERNEL_PAGE_INDEX ::
          !d[v].present || !d[w].present)
  }

  ghost predicate Blank(d: PageDir) {
    forall v | 0 <= v < PAGE_ENTRY_COUNT :: d[v] == NO_PAGE
  }

  ghost predicate MemoryOk(m: Memory) {
    && Shaped(m) && 0 <= Built(m)
    && (forall i | 0 <= i < FRAME_COUNT :: m.frames[i] == (i < Built(m)))
    && (forall i | 0 <= i < DIRECTORY_COUNT :: m.used[i] == (i < Built(m)))
    && (forall i | 0 <= i < DIRECTORY_COUNT && i < Built(m) :: DirOk(m.dirs[i], i))
    && (forall i | 0 <= i < DIRECTORY_COUNT && Built(m) <= i :: Blank(m.dirs[i]))
  }

  ghost predicate PcbOk(k: State, s: nat)
    requires s < PROCESS_COUNT_MAX
  {
    var b := k.procs[s];
    if b.state == Inactive then b == ZERO_PCB
    else b.pid == s && b.context.dir.UserDir? && b.context.dir.i < Built(k.mem)
  }

  ghost predicate TableOk(k: State) {
    && (forall s | 0 <= s < PROCESS_COUNT_MAX :: PcbOk(k, s))
    && (forall s, t | 0 <= s < t < PROCESS_COUNT_MAX && k.procs[s].state != Inactive && k.procs[t].state != Inactive ::
          k.procs[s].context.dir != k.procs[t].context.dir)
    && k.active == CountActive(k.procs, 0)
  }

  ghost predicate KInv(k: State) {
    MemoryOk(k.mem) && TableOk(k)
  }

  // First fit finds the same number for the directory and for the frame.
  lemma FirstUnbuilt(m: Memory)
    requires MemoryOk(m)
    ensures Shaped(m) && 0 <= Built(m) <= FRAME_COUNT
    ensures FirstFalse(m.used, 0) == Built(m) == FirstFalse(m.frames, 0)
  {
    if Built(m) < FRAME_COUNT {
      assert !m.used[Built(m)] && !m.frames[Built(m)];
    }
  }

  lemma PidIsSlot(k: State)
    requires KInv(k)
    ensures forall s | 0 <= s < PROCESS_COUNT_MAX :: k.procs[s].pid == if k.procs[s].state == Inactive then 0 else s
  {
    forall s | 0 <= s < PROCESS_COUNT_MAX
      ensures k.procs[s].pid == if k.procs[s].state == Inactive then 0 else s
    {
      assert PcbOk(k, s);
    }
  }

  lemma {:induction false} CountUpdate(procs: Procs, i: nat, s: nat, b: Pcb)
    requires i <= PROCESS_COUNT_MAX && s < PROCESS_COUNT_MAX
    ensures CountActive(procs[s := b], i) == CountActive(procs, i)
              + if s < i then 0
                else (if b.state != Inactive then 1 else 0) - (if procs[s].state != Inactive then 1 else 0)
    decreases PROCESS_COUNT_MAX - i
  {
    if i == PROCESS_COUNT_MAX {
    } else {
      CountUpdate(procs, i + 1, s, b);
    }
  }

  lemma {:induction false} CountAtMost(procs: Procs, i: nat)
    requires i <= PROCESS_COUNT_MAX
    ensures CountActive(procs, i) <= PROCESS_COUNT_MAX - i
    ensures CountActive(procs, i) == PROCESS_COUNT_MAX - i <==>
            forall s | i <= s < PROCESS_COUNT_MAX :: procs[s].state != Inactive
    decreases PROCESS_COUNT_MAX - i
  {
    if i == PROCESS_COUNT_MAX {
    } else {
      CountAtMost(procs, i + 1);
    }
  }

  // Saved registers and the exchange of Running and Waiting do not matter to the table.
  ghost predicate SameTable(a: Procs, b: Procs) {
    forall s | 0 <= s < PROCESS_COUNT_MAX ::
      && (a[s].state == Inactive <==> b[s].state == Inactive) && (a[s].state == Inactive ==> b[s] == a[s])
      && b[s].pid == a[s].pid && b[s].context.dir == a[s].context.dir
  }

  lemma {:induction false} CountSame(a: Procs, b: Procs, i: nat)
    requires i <= PROCESS_COUNT_MAX && SameTable(a, b)
    ensures CountActive(a, i) == CountActive(b, i)
    decreases PROCESS_COUNT_MAX - i
  {
    if i == PROCESS_COUNT_MAX {
    } else {
      CountSame(a, b, i + 1);
    }
  }

  lemma PcbKept(k: State, k': State, s: nat)
    requires s < PROCESS_COUNT_MAX && PcbOk(k, s) && Built(k.mem) <= Built(k'.mem)
    requires (k.procs[s].state == Inactive <==> k'.procs[s].state == Inactive)
             && (k.procs[s].state == Inactive ==> k'.procs[s] == k.procs[s])
    requires k'.procs[s].pid == k.procs[s].pid && k'.procs[s].context.dir == k.procs[s].context.dir
    ensures PcbOk(k', s)
  {}

  lemma SameTableKeeps(k: State, k': State)
    requires KInv(k) && SameTable(k.procs, k'.procs) && k'.mem == k.mem && k'.active == k.active
    ensures KInv(k')
  {
    hide MemoryOk, PcbOk, CountActive;
    CountSame(k.procs, k'.procs, 0);
    forall s | 0 <= s < PROCESS_COUNT_MAX ensures PcbOk(k', s) {
      assert PcbOk(k, s);
      PcbKept(k, k', s);
    }
  }

  // ---------- Creating ----------

  // The request passes the guards although no frame is left.
  predicate FailsLate(k: State, r: Exec) {
    GuardCode(k, r) == 0 && k.mem.free == 0
  }

  // The late failures: only a size that wraps, asked for when no frame is left, gets past
  // the guards and then finds no page directory.
  lemma LateFailure(k: State, r: Exec, readOk: bool)
    requires KInv(k) && ExecOk(r)
    ensures var (k', code) := Create(k, r, readOk);
            code == 3 && k' != k <==> FailsLate(k, r)
    ensures FailsLate(k, r) ==> U32 - 2 * PAGE_FRAME_SIZE <= r.size < U32 - PAGE_FRAME_SIZE
  {
    hide MemoryOk;
    PidIsSlot(k);
    FirstUnbuilt(k.mem);
    if GuardCode(k, r) == 0 {
      var p := FirstInState(k.procs, 0, Inactive);
      assert Claim(k, p, r).procs[p].state != k.procs[p].state;
    }
  }

  // What a late failure leaves behind: a waiting process without a page directory that
  // the count does not know of.
  lemma HalfBuilt(k: State, r: Exec, readOk: bool)
    requires KInv(k) && ExecOk(r) && FailsLate(k, r)
    ensures var k', p := Create(k, r, readOk).0, FirstInState(k.procs, 0, Inactive);
            k'.procs[p].state == Waiting && k'.procs[p].context.dir == Null && k'.active != CountActive(k'.procs, 0)
  {
    PidIsSlot(k);
    var p := FirstInState(k.procs, 0, Inactive);
    assert PcbOk(k, p);
    FirstUnbuilt(k.mem);
    CountUpdate(k.procs, 0, p, Claim(k, p, r).procs[p]);
  }

  // The context of a new process.
  function FirstContext(k: State): Context
    requires Built(k.mem) >= 0
  {
    Context(START_CPU, 0x202, 0, UserDir(Built(k.mem)))
  }

  function NewPcb(k: State, p: nat, r: Exec): Pcb
    requires Built(k.mem) >= 0
  {
    Pcb(r.name, p, Waiting, FirstContext(k), [r.entry, 0, 0, 0, 0, 0, 0, 0], 1)
  }

  // The memory after one more directory and frame.
  function Grown(m: Memory, entry: nat): Memory
    requires Shaped(m) && 0 <= Built(m) < FRAME_COUNT
  {
    WithFrame(WithDirectory(m, Built(m)), Built(m), Built(m), entry)
  }

  // What creating a process does, in each of its outcomes but the late failure.
  lemma CreateDoes(k: State, r: Exec, readOk: bool)
    requires KInv(k) && ExecOk(r) && !FailsLate(k, r)
    ensures var (k', code) := Create(k, r, readOk);
            var p := FirstInState(k.procs, 0, Inactive);
            if GuardCode(k, r) != 0 then k' == k && code == GuardCode(k, r)
            else p < PROCESS_COUNT_MAX && 0 <= Built(k.mem) < FRAME_COUNT
                 && k'.mem == Grown(k.mem, r.entry) && k'.cr3 == k.cr3
                 && if readOk then code == 0 && k'.active == k.active + 1 && k'.procs == k.procs[p := NewPcb(k, p, r)]
                    else code == 4 && k'.active == k.active && k'.procs == k.procs
  {
    hide MemoryOk, FirstInState, CountActive, FirstFalse;
    PidIsSlot(k);
    if GuardCode(k, r) == 0 {
      var p := FirstInState(k.procs, 0, Inactive);
      assert PcbOk(k, p);
      FirstUnbuilt(k.mem);
      var n: nat := Built(k.mem);
      assert Start(ZERO_PCB.(name := r.name, pid := p, state := Waiting,
                             context := ZERO_PCB.context.(dir := UserDir(n))), r.entry) == NewPcb(k, p, r);
    }
  }

  lemma FullTable(k: State)
    requires KInv(k)
    ensures k.active <= 16
    ensures FirstInState(k.procs, 0, Inactive) == PROCESS_COUNT_MAX <==> k.active == 16
  {
    CountAtMost(k.procs, 0);
  }

  // When each return code of creation is given; n is the size in whole pages of 4 MiB, and
  // sizes from 0xFF800000 on wrap around.
  lemma CreateCodes(k: State, r: Exec, readOk: bool)
    requires KInv(k) && |r.name| == 8 && r.entry < 0x1_0000_0000 && r.size < 0x1_0000_0000
    ensures Shaped(k.mem) && ExecOk(r)
    ensures var code, n := Create(k, r, readOk).1, r.size / 0x40_0000;
            if k.active == 16 then code == 1
            else if r.entry >= 0xC000_0000 then code == 2
            else if k.mem.free == 0 || (r.size < 0xFF80_0000 && (n > 6 || n + 2 > k.mem.free)) then code == 3
            else if !readOk then code == 4
            else code == 0
  {
    FullTable(k);
    FirstUnbuilt(k.mem);
    NeededIs(r.size);
    LateFailure(k, r, readOk);
    hide MemoryOk, Create, Needed, FirstInState, CountActive;
    if GuardCode(k, r) == 0 && k.mem.free == 0 {
      LateCode(k, r, readOk);
    } else {
      CreateDoes(k, r, readOk);
    }
  }

  lemma LateCode(k: State, r: Exec, readOk: bool)
    requires KInv(k) && ExecOk(r) && FailsLate(k, r)
    ensures Shaped(k.mem) && Create(k, r, readOk).1 == 3
  {
    FirstUnbuilt(k.mem);
  }

  lemma NeededIs(size: nat)
    requires size < U32
    ensures Needed(size) == if size < 0xFF80_0000 then size / 0x40_0000 + 2 else size / 0x40_0000 - 1022
  {}

  // The page that addr lies in.
  lemma PageOf(addr: nat) returns (v: nat)
    requires addr < KERNEL_BASE
    ensures v < 768 && v == PageIndex(addr) && v * 0x40_0000 <= addr < (v + 1) * 0x40_0000
  {
    v := addr / 0x40_0000;
  }

  // What a new process has to run in: one page of 4 MiB of its own, at the address asked for,
  // on a frame that was free, next to the kernel's page, which is not the user's.
  lemma NewAddressSpace(k: State, r: Exec) returns (p: nat, i: nat, v: nat)
    requires KInv(k) && ExecOk(r) && Create(k, r, true).1 == 0
    ensures p < 16 && p == FirstInState(k.procs, 0, Inactive) && k.procs[p].state == Inactive
    ensures i < 32 && v < 768 && v * 0x40_0000 <= r.entry < (v + 1) * 0x40_0000
    ensures var k' := Create(k, r, true).0;
            && k'.procs[p].state == Waiting && k'.procs[p].context.dir == UserDir(i)
            && Shaped(k'.mem) && !k.mem.used[i] && k'.mem.used[i]
            && (forall j | 0 <= j < 32 && j != i :: k'.mem.dirs[j] == k.mem.dirs[j])
            && var d := k'.mem.dirs[i];
               && d[v] == Pde(true, true, true, true, d[v].frame)
               && d[768] == Pde(true, true, false, true, 0)
               && (forall w | 0 <= w < 1024 && w != v && w != 768 :: !d[w].present)
               && d[v].frame < 32 && !k.mem.frames[d[v].frame] && k'.mem.frames == k.mem.frames[d[v].frame := true]
  {
    p, i := FirstInState(k.procs, 0, Inactive), FirstFalse(k.mem.used, 0);
    FirstUnbuilt(k.mem);
    CreateCodes(k, r, true);
    CreateDoes(k, r, true);
    v := PageOf(r.entry);
    assert Blank(k.mem.dirs[i]);
    hide MemoryOk, Create, FirstInState, FirstFalse, PageIndex, TableOk;
  }

  // And what it starts with: at address 0, below the end of the first page, on the user's
  // segments and with interrupts on.
  lemma NewContext(k: State, r: Exec)
    requires KInv(k) && ExecOk(r) && Create(k, r, true).1 == 0
    ensures var k', p := Create(k, r, true).0, FirstInState(k.procs, 0, Inactive);
            p < 16 && var b := k'.procs[p];
            && b.name == r.name && b.pid == p && b.addrs == [r.entry, 0, 0, 0, 0, 0, 0, 0] && b.pages == 1
            && b.context.eip == 0 && b.context.eflags == 0x202
            && b.context.cpu == Cpu(0, 0, 0, 0x3F_FFFC, 0, 0, 0, 0, 0x23, 0x23, 0x23, 0x23)
  {
    CreateCodes(k, r, true);
    CreateDoes(k, r, true);
    hide MemoryOk, Create, FirstInState, TableOk;
  }

  lemma GrownMemory(m: Memory, entry: nat)
    requires MemoryOk(m) && Built(m) < FRAME_COUNT && entry < KERNEL_BASE
    ensures MemoryOk(Grown(m, entry))
  {
    var n: nat := Built(m);
    var d, d' := m.dirs[n], Grown(m, entry).dirs[n];
    assert Blank(d);
    assert PageIndex(entry) < KERNEL_PAGE_INDEX;
    assert DirOk(d', n);
  }

  lemma NewProcess(k: State, k': State, p: nat, r: Exec)
    requires KInv(k) && p < PROCESS_COUNT_MAX && k.procs[p].state == Inactive
    requires k'.mem.free == k.mem.free - 1 && k'.procs == k.procs[p := NewPcb(k, p, r)] && k'.active == k.active + 1
    ensures TableOk(k')
  {
    hide MemoryOk, CountActive;
    CountUpdate(k.procs, 0, p, NewPcb(k, p, r));
    forall s | 0 <= s < PROCESS_COUNT_MAX ensures PcbOk(k', s) {
      assert PcbOk(k, s);
    }
    forall s, t | 0 <= s < t < PROCESS_COUNT_MAX && k'.procs[s].state != Inactive && k'.procs[t].state != Inactive
      ensures k'.procs[s].context.dir != k'.procs[t].context.dir
    {
      assert PcbOk(k, s) && PcbOk(k, t);
    }
  }

  lemma CreateInTime(k: State, r: Exec, readOk: bool)
    requires KInv(k) && ExecOk(r) && !FailsLate(k, r)
    ensures KInv(Create(k, r, readOk).0)
  {
    CreateDoes(k, r, readOk);
    if GuardCode(k, r) == 0 {
      var k', p := Create(k, r, readOk).0, FirstInState(k.procs, 0, Inactive);
      GrownMemory(k.mem, r.entry);
      if readOk {
        NewProcess(k, k', p, r);
      } else {
        forall s | 0 <= s < PROCESS_COUNT_MAX ensures PcbOk(k', s) {
          assert PcbOk(k, s);
        }
      }
    }
  }

  // Creation keeps everything consistent for every size, unless it fails late.
  lemma CreateKeeps(k: State, r: Exec, readOk: bool)
    requires KInv(k) && ExecOk(r)
    ensures Shaped(k.mem)
    ensures KInv(Create(k, r, readOk).0) <==> !FailsLate(k, r)
  {
    hide MemoryOk;
    FirstUnbuilt(k.mem);
    if FailsLate(k, r) {
      HalfBuilt(k, r, readOk);
    } else {
      CreateInTime(k, r, readOk);
    }
  }

  // ---------- Destroying ----------

  lemma FoundByPid(k: State, pid: nat)
    requires KInv(k) && pid < PROCESS_COUNT_MAX && k.procs[pid].state != Inactive
    ensures FirstPid(k.procs, 0, pid) == pid && k.active > 0
  {
    hide MemoryOk;
    PidIsSlot(k);
    CountUpdate(k.procs, 0, pid, ZERO_PCB);
  }

  function Without(k: State, pid: nat): State
    requires pid < PROCESS_COUNT_MAX && k.active > 0
  {
    k.(procs := k.procs[pid := ZERO_PCB], active := k.active - 1)
  }

  lemma ClearedTable(k: State, pid: nat)
    requires KInv(k) && pid < PROCESS_COUNT_MAX && k.procs[pid].state != Inactive && k.active > 0
    ensures KInv(Without(k, pid))
  {
    hide MemoryOk, CountActive;
    var k' := Without(k, pid);
    CountUpdate(k.procs, 0, pid, ZERO_PCB);
    forall s | 0 <= s < PROCESS_COUNT_MAX ensures PcbOk(k', s) {
      assert PcbOk(k, s);
    }
  }

  // An active process goes by its own slot number; clearing it is exact.
  lemma DestroyActive(k: State, pid: nat)
    requires KInv(k) && pid < PROCESS_COUNT_MAX && k.procs[pid].state != Inactive
    ensures k.active > 0 && Destroy(k, pid) == (Without(k, pid), true) && KInv(Without(k, pid))
  {
    hide KInv;
    FoundByPid(k, pid);
    ClearedTable(k, pid);
    ActiveAtMost(k);
  }

  lemma ActiveAtMost(k: State)
    requires KInv(k)
    ensures k.active <= PROCESS_COUNT_MAX
  {
    CountAtMost(k.procs, 0);
  }

  // Destroying goes wrong for exactly one pid: 0, when slot 0 is inactive.  The unused
  // slot is then "destroyed" and the count is off.
  lemma DestroyKeepsIff(k: State, pid: nat)
    requires KInv(k)
    ensures KInv(Destroy(k, pid).0) <==> !(pid == 0 && k.procs[0].state == Inactive)
    ensures Destroy(k, pid).1 <==> pid == 0 || (pid < PROCESS_COUNT_MAX && k.procs[pid].state != Inactive)
  {
    hide MemoryOk, CountActive;
    PidIsSlot(k);
    if pid < PROCESS_COUNT_MAX && k.procs[pid].state != Inactive {
      DestroyActive(k, pid);
    } else if pid == 0 {
      CountUpdate(k.procs, 0, 0, ZERO_PCB);
      CountAtMost(k.procs, 0);
      assert k.procs[0].pid == 0 && FirstPid(k.procs, 0, 0) == 0;
    }
  }

  // ---------- Isolation ----------

  lemma PresentIsBuilt(m: Memory, i: nat, v: nat)
    requires MemoryOk(m) && i < DIRECTORY_COUNT && v < PAGE_ENTRY_COUNT && m.dirs[i][v].present
    ensures i < Built(m) && DirOk(m.dirs[i], i)
  {
    assert Built(m) <= i ==> Blank(m.dirs[i]);
  }

  // Two user pages never share a frame, within a directory or across directories.
  lemma FramesDisjoint(m: Memory, i: nat, v: nat, j: nat, w: nat)
    requires MemoryOk(m) && i < DIRECTORY_COUNT && j < DIRECTORY_COUNT && v < PAGE_ENTRY_COUNT && w < PAGE_ENTRY_COUNT
    requires m.dirs[i][v].present && m.dirs[i][v].user && m.dirs[j][w].present && m.dirs[j][w].user
    requires m.dirs[i][v].frame == m.dirs[j][w].frame
    ensures i == j && v == w
  {
    PresentIsBuilt(m, i, v);
    PresentIsBuilt(m, j, w);
  }

  // Page directories that processes have are built, and no two have the same one, whatever
  // the processes are doing and whether or not the counts are right.
  ghost predicate DirsApart(k: State) {
    && MemoryOk(k.mem)
    && (forall s | 0 <= s < PROCESS_COUNT_MAX && k.procs[s].context.dir.UserDir? ::
          k.procs[s].context.dir.i < Built(k.mem))
    && (forall s, t | 0 <= s < t < PROCESS_COUNT_MAX && k.procs[s].context.dir.UserDir?
                      && k.procs[t].context.dir.UserDir? ::
          k.procs[s].context.dir != k.procs[t].context.dir)
  }

  lemma ConsistentIsApart(k: State)
    requires KInv(k)
    ensures DirsApart(k)
    ensures forall s | 0 <= s < PROCESS_COUNT_MAX :: k.procs[s].state != Inactive <==> k.procs[s].context.dir.UserDir?
  {
    hide MemoryOk, CountActive;
    forall s | 0 <= s < PROCESS_COUNT_MAX
      ensures k.procs[s].state != Inactive <==> k.procs[s].context.dir.UserDir?
      ensures k.procs[s].context.dir.UserDir? ==> k.procs[s].context.dir.i < Built(k.mem)
    {
      assert PcbOk(k, s);
    }
  }

  // Two processes with page directories share no user frame, and both have the kernel's page.
  lemma ProcessesApart(k: State, s: nat, t: nat, v: nat, w: nat)
    requires DirsApart(k) && s < PROCESS_COUNT_MAX && t < PROCESS_COUNT_MAX && s != t
    requires v < PAGE_ENTRY_COUNT && w < PAGE_ENTRY_COUNT
    requires k.procs[s].context.dir.UserDir? && k.procs[t].context.dir.UserDir?
    ensures Shaped(k.mem) && k.procs[s].context.dir.i < DIRECTORY_COUNT && k.procs[t].context.dir.i < DIRECTORY_COUNT
    ensures k.mem.dirs[k.procs[s].context.dir.i][KERNEL_PAGE_INDEX] == KERNEL_PAGE
    ensures var a, b := k.mem.dirs[k.procs[s].context.dir.i][v], k.mem.dirs[k.procs[t].context.dir.i][w];
            a.present && a.user && b.present && b.user ==> a.frame != b.frame
  {
    var i, j := k.procs[s].context.dir.i, k.procs[t].context.dir.i;
    assert DirOk(k.mem.dirs[i], i) && DirOk(k.mem.dirs[j], j);
    assert i != j;
  }
}
