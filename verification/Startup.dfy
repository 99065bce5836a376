/** Bringing the machine up from its disk (src/kernel/kernel.c:17-47). */
module Startup {
  import opened Bytes
  import Layout
  import Forest
  import Refinement
  import Volume
  import Impostors
  import opened Driver
  import Kernel
  import Scheduling
  import opened Machine

  const SHELL_NAME: seq<Byte> := [115, 104, 101, 108, 108, 0, 0, 0]
  const SHELL_SIZE: nat := 0x10_0000

  // The request for the shell, as the driver and as process creation see it.
  function ShellRequest(): (r: Forest.Request)
    ensures Forest.NameOk(r) && r.parent == 2
  {
    Forest.Request(SHELL_NAME, Zeros(3), 2, SHELL_SIZE)
  }

  function ShellExec(): (r: Kernel.Exec)
    ensures Kernel.ExecOk(r) && Kernel.GuardCode(Scheduling.PowerOn(), r) == 0
  {
    Kernel.Exec(SHELL_NAME, 0, SHELL_SIZE)
  }

  lemma RootIsLegal(f: Forest.FileSystem)
    requires Forest.Inv(f)
    ensures Forest.Legal(f, ShellRequest())
  {
    if Forest.Impostor(f, 2) {
      Impostors.ImpostorIsNoDir(f, 2);
    }
  }

  // kernel_setup, on a disk that is unsigned or holds a consistent file system: the machine
  // comes up exactly when the shell can be read from it, and so never right after formatting.
  method KernelSetup(disk: array<Layout.Block>) returns (d: Fat32Driver, c: Computer)
    requires disk.Length == Layout.MAP_SIZE
    requires Volume.Signed(disk[..]) ==> Impostors.Mountable(disk[..])
    modifies disk
    ensures d.Valid() && d.disk == disk && c.Wired()
    ensures Forest.Inv(d.fs)
    ensures var shell := (2, Forest.Key([115, 104, 101, 108, 108, 0, 0, 0], [0, 0, 0]));
            Scheduling.Booted(c.Now()) <==>
            shell in Forest.TreeOf(d.fs) && Forest.TreeOf(d.fs)[shell].File?
                && Forest.TreeOf(d.fs)[shell].size <= 0x10_0000
    ensures Scheduling.Booted(c.Now()) ==> Scheduling.RunsAt(c.Now(), [115, 104, 101, 108, 108, 0, 0, 0], 0)
    ensures old(Volume.Signed(disk[..])) ==> disk[..] == old(disk[..])
    ensures !old(Volume.Signed(disk[..])) ==> d.fs == Volume.Formatted() && !Scheduling.Booted(c.Now())
  {
    hide Forest.Inv, Volume.OnDisk, Scheduling.Booted, Scheduling.RunsAt, ShellRequest, ShellExec,
         Forest.TreeOf, Forest.ReadCode, Volume.Formatted, Volume.Signed, Impostors.Mountable;
    d := new Fat32Driver(disk);
    d.Initialize();
    RootIsLegal(d.fs);
    var page := new Byte[Kernel.PAGE_FRAME_SIZE](_ => 0);
    ShellFits();
    var code := d.Read(ShellRequest(), page);
    c := StartFirst(ShellExec(), code);
    ShellStartsAt();
    FreshHasNoShell(d.fs);
    ShellIsThere(d.fs);
  }

  // The shell can be read exactly if a file by that name lies in the root and fits.
  lemma ShellIsThere(f: Forest.FileSystem)
    requires Forest.Inv(f)
    ensures var shell := (2, Forest.Key([115, 104, 101, 108, 108, 0, 0, 0], [0, 0, 0]));
            Forest.ReadCode(f, ShellRequest()) == 0 <==>
            shell in Forest.TreeOf(f) && Forest.TreeOf(f)[shell].File? && Forest.TreeOf(f)[shell].size <= 0x10_0000
  {
    Refinement.ReadCodes(f, ShellRequest());
    RootNames(f);
    hide Forest.Inv, Forest.TreeOf, Forest.ReadCode;
    assert ShellRequest().name == [115, 104, 101, 108, 108, 0, 0, 0] && Zeros(3) == [0, 0, 0];
  }

  lemma RootNames(f: Forest.FileSystem)
    requires Forest.Inv(f)
    ensures 2 in f.tabs && !Refinement.IsHeaderName(f.tabs[2], Forest.Key(SHELL_NAME, Zeros(3)))
  {
    assert SHELL_NAME[0] == 115 && Forest.ROOT_NAME[0] == 114 && Forest.DOT_DOT[0] == 46;
  }

  lemma ShellStartsAt()
    ensures ShellExec().name == [115, 104, 101, 108, 108, 0, 0, 0] && ShellExec().entry == 0
  {}

  lemma ShellFits()
    ensures Layout.CLUSTER_SIZE * Forest.Clusters(ShellRequest().bufferSize) <= Kernel.PAGE_FRAME_SIZE
  {}

  lemma FreshHasNoShell(f: Forest.FileSystem)
    ensures f == Volume.Formatted() ==> Forest.ReadCode(f, ShellRequest()) != 0
  {
    if f == Volume.Formatted() {
      Volume.FreshReadsNothing(f, ShellRequest());
    }
  }
}
