# A verified model of the kernel's file system, processes and terminal

This project models a small teaching kernel and proves what its parts promise:

* **The FAT driver** (`Bytes`, `Layout`, `Fat`, `Forest`, `Steps`, `Refinement`, `Volume`, `Requests`, `Impostors`,
  `Driver`, `DiskBytes`, `Runs`).
  `Driver.Fat32Driver` is the driver as the C code has it: a disk of 512 clusters, the cached allocation table and
  the one directory buffer are arrays that its methods update in place. A ghost value of type `Forest.FileSystem`
  says what the disk stands for: the table, every directory, and for each occupied slot the chain of clusters that
  it owns. `Forest.Inv` is the whole-disk invariant: chains are acyclic, pairwise disjoint and inside [3, 512), no
  cluster leaks, sizes and chain lengths agree, tables are canonical and without twins, and the directories form a
  tree rooted at cluster 2 whose slots 0 and 1 name the parent. `Volume.OnDisk` ties that value to the bytes.
  `Forest.TreeOf` is the simple form that the driver refines: a map from (directory, name, extension) to a file with
  its contents or to a folder.
* **The shell's use of it** (`Splitting`, `Paths`, `Shell`, `Queue`, `Search`, `FileNames`, `Transfer`,
  `Extremes`): printing and resolving paths, the breadth-first search over the circular queue, copying and moving.
* **Processes, frames and the scheduler** (`Kernel`, `Isolation`, `Separation`, `Scheduling`, `RoundRobin`, `Machine`,
  `Startup`).
  `Kernel` gives each step as a function on a value; `Machine.Computer` is the same thing as arrays updated in place,
  each method proved to do that step. Isolation, bounded waiting and fairness are proved of the steps and of all runs.
* **The text terminal** (`Terminal`) and **the tokenizer** (`Tokenizer`), each an in-place object that refines a pure
  function: the layout of a text in lines of 80 cells, and the split of a text at a delimiter.

Where the code falls short of its intent, the model keeps the code and the exact condition is proved:

* The parent check of the driver lets through more than directories. It admits exactly the live directories and the
  last clusters of files whose twelfth byte is 0x10 (`Volume.PassesIff`); on a new volume two ordinary writes are
  enough to go through one (`Volume.GuardFooled`, `Impostors.StrayWriteSucceeds`).
* The duplicate check compares all bytes of a name, but only those before its NUL are stored. So bytes after the NUL
  make twins (`Impostors.UnpaddedNeverClashes`, `Impostors.TwinCanBeMade`, `Extremes.TwinMade`).
* A successful write leaves a consistent file system on the disk exactly when its parent is no such impostor and the
  key that it stores is new and canonical (`Driver.Fat32Driver.Write`, `Impostors.CommitDecides`).
* Mounting trusts the signature: the driver ends up with a consistent file system exactly when the disk was unsigned
  or held one (`Driver.Fat32Driver.Initialize`). A signature alone is not enough (`Impostors.SignedIsNotEnough`), and a
  write through an impostor leaves it in place (`Impostors.StrayWriteStaysSigned`).
* Resolving a printed path leads back exactly when no name on the way is shadowed by an earlier slot
  (`Paths.ResolveNames`). A folder named ".." can be made, and is always shadowed (`Paths.DotDotIsShadowed`,
  `Paths.ShadowedExists`).
* The search visits every directory exactly when its ring of 100 stays below its capacity after each round
  (`Search.Find`). Otherwise it stops early, or overwrites what it had queued; 124 ordinary requests lead there
  (`Extremes.TooWide`).
* Moving a folder never moves what it holds. With the name of the directory itself, or "..", it makes an empty folder
  from nothing, or takes a file of that name away for it (`Transfer.MoveFolder`).
* Creating a process leaves the system schedulable exactly when it does not find the frames used up after its guards
  and does not take the sixteenth slot (`Scheduling.CreateIsSafeIff`, `Scheduling.FifteenIsTheLimit`). The former needs
  a size that wraps around 32 bits; it leaves a process half built (`Isolation.CreateKeeps`, `Isolation.HalfBuilt`), and
  can be brought about from every booted state (`Scheduling.LateFailureHappens`). The latter can be, too, with frames
  enough (`Scheduling.FifteenReached`).
* Destroying a process goes wrong for pid 0 when slot 0 is unused, and for the running process, and for no other pid
  (`Isolation.DestroyKeepsIff`, `Scheduling.DestroyIsSafeIff`). Slot 0 does get unused (`Scheduling.PidZeroBreaks`).
* The kernel drops the code of creating the shell. It comes up exactly when the shell can be read from the disk, and so
  never right after formatting (`Startup.KernelSetup`); otherwise an unused slot is switched to, on no page directory
  (`Scheduling.NoShell`).

None of the failures of the process table touches isolation: over every run, with late failures, exits, and any pid
destroyed, no two processes share a frame (`Separation.AlwaysApart`).

Documentation and code disagree in a few places, and the model follows the code: `read` returns -1 for a buffer that
is too small and 2 for a missing file, where the header announces 2 and 3; a folder's entry stores a size of 2048,
where the header says 0, and so does that of a file written with size 0; slot 0 of a directory is documented as an
entry about the directory itself, but its cluster is the parent's; the terminal is documented as 25 rows of 80 cells,
but has 100 rows in memory, scrolls at row 20, and clearing it zeroes 8004 bytes, half of that memory.

`dafny verify dfyconfig.toml` checks the project.

## Model

| member | source | states |
|---|---|---|
| `Layout.EntryRoundTrip` | src/header/filesystem/fat32.h:89-105 | decoding an encoded 32-byte entry gives every field back |
| `Layout.EntryRoundTripBack` | src/header/filesystem/fat32.h:89-105 | encoding what 32 bytes decode to gives the bytes back, so no byte is outside a field |
| `Layout.EntryBytesAt` | src/header/filesystem/fat32.h:89-105 | where each field lies in the 32 bytes, words with their low byte first |
| `Layout.TableRoundTrip` | src/header/filesystem/fat32.h:108-110 | decoding an encoded table of 64 entries gives the table back |
| `Layout.TableRoundTripBack` | src/header/filesystem/fat32.h:108-110 | encoding the table that a cluster decodes to gives the cluster back |
| `Layout.TableBytesAt` | src/header/filesystem/fat32.h:108-110 | entry i of a table is bytes 32i to 32i + 31 of its cluster |
| `Layout.LinksRoundTrip` | src/header/filesystem/fat32.h:65-67 | decoding an encoded allocation table gives all 512 links back |
| `Layout.LinkBytesAt` | src/header/filesystem/fat32.h:65-67 | link i of a table is the four bytes from 4i on, the low byte first |
| `Layout.AttributeByte` | src/header/filesystem/fat32.h:89-105 | the attribute that the parent check looks at is byte 11 of the cluster, which is also the top byte of link 2 |
| `Layout.LiveSharesBit` | src/code/filesystem/fat32.c:189 | for the two markers that entries ever carry, having a bit in common with 0xAA and equalling it are the same test |
| `Layout.BitsOfLive` | src/code/filesystem/fat32.c:189 | the test of read_directory is for a bit of 0b10101010 |
| `Bytes.StrCmp` | src/stdlib/string.c:85-99 | 0 exactly when the two fields agree up to their first NUL |
| `Bytes.MemCmp` | src/stdlib/string.c:21-32 | 0 exactly when all bytes agree, otherwise the sign of the first difference |
| `Bytes.CopyStringWithLength` | src/stdlib/string.c:48-54 | replaces the bytes up to the source's NUL and leaves the rest of the destination alone |
| `Bytes.CanonicalAgree` | src/code/filesystem/fat32.c:232-235 | on zero-padded fields comparing C strings and comparing bytes agree, so read and delete match the same names |
| `Bytes.CopyIntoZeros` | src/code/filesystem/fat32.c:378 | the copy that stops at NUL, over the zeroed name of an empty slot, yields exactly the zero-padded name |
| `Fat.FirstFitFree` | src/code/filesystem/fat32.c:334-348 | the clusters found are free, below 512 and in ascending order |
| `Fat.FirstFitFirst` | src/code/filesystem/fat32.c:339-348 | no free cluster below the last one found is passed over |
| `Fat.FirstFitCount` | src/code/filesystem/fat32.c:353-355 | the search finds n clusters, or all free ones when there are fewer than n: giving up means the disk is really too full |
| `Fat.LinkKeeps` | src/code/filesystem/fat32.c:399-421 | linking free clusters adds one chain and keeps all chains acyclic, disjoint and without leaks |
| `Fat.FreeKeeps` | src/code/filesystem/fat32.c:483-494 | freeing one chain keeps all others as they were, disjoint and without leaks |
| `Fat.FreeUndoesLink` | src/code/filesystem/fat32.c:399-421 | freeing a chain that was just linked restores the allocation table link by link |
| `Fat.ChainUnique` | src/code/filesystem/fat32.c:253-258 | two chains with the same head are the same: a chain is what following the links yields |
| `Fat.FreeCountScatter` | src/code/filesystem/fat32.c:399-421 | linking lowers, and freeing raises, the number of free clusters by the length of the chain |
| `Forest.FlattenBlocks` | src/code/filesystem/fat32.c:402-419 | the stored clusters of a file are its bytes followed by zeros up to the cluster boundary |
| `Forest.DirCluster` | src/code/filesystem/fat32.c:161-163 | the cluster of every directory ends its chain, and no slot but its own owns it |
| `Forest.TreeAt` | src/code/filesystem/fat32.c:282-297 | every occupied slot is a binding of the tree, and no other slot has its name |
| `Forest.TreeSlot` | src/code/filesystem/fat32.c:439-448 | every binding of the tree sits in an occupied slot with that name |
| `Steps.AddFileKeeps` | src/code/filesystem/fat32.c:360-422 | filling a free slot with a file keeps the whole-disk invariant |
| `Steps.AddFolderKeeps` | src/code/filesystem/fat32.c:360-422 | filling a free slot with a folder and its fresh table keeps the invariant, and the directory is new |
| `Steps.RemoveKeeps` | src/code/filesystem/fat32.c:470-498 | clearing a slot and freeing its chain keeps the invariant, provided a removed folder is empty |
| `Steps.FreshTableOk` | src/code/filesystem/fat32.c:30-49 | a new table is canonical: both header slots live, named and linked to the parent, all others empty |
| `Refinement.WriteRefines` | src/code/filesystem/fat32.c:264-425 | a successful write adds exactly one binding (the padded contents, or a new empty folder) and changes no other; a failed one changes nothing |
| `Refinement.StoreRefines` | src/code/filesystem/fat32.c:357-425 | whatever follows the NUL of the name, a write that stores a new key adds exactly that binding |
| `Refinement.PadCanonical` | src/stdlib/string.c:48-54 | the name stored is the zero-padded one that reads the same up to the NUL |
| `Refinement.WriteStoresAll` | src/code/filesystem/fat32.c:325-421 | a write of n bytes binds a file of n bytes with just these and zeros, in the fewest clusters that hold them, and takes that many; size 0 makes a folder, or with an extension a file of 2048 bytes |
| `Refinement.WriteCodes` | src/code/filesystem/fat32.c:264-355 | when write returns 2, 1 and -1, each exactly, in terms of the tree, the slots, and the bytes that the free clusters hold |
| `Refinement.DeleteRefines` | src/code/filesystem/fat32.c:427-502 | a successful delete removes exactly the named binding, and its directory if it was a folder; a failed one changes nothing |
| `Refinement.DeleteCodes` | src/code/filesystem/fat32.c:427-468 | when delete returns -1, 1, 2 and 0, each exactly: not a directory, no such name, a folder with children, otherwise |
| `Refinement.ReadCodes` | src/code/filesystem/fat32.c:220-262 | read is a lookup in the tree, with every return code, including the two header names that hide a binding |
| `Refinement.ReadDirectoryCodes` | src/code/filesystem/fat32.c:174-218 | read_directory is a lookup in the tree; the directory's own name and ".." lead to the parent |
| `Refinement.WriteThenDelete` | src/code/filesystem/fat32.c:264-502 | deleting what was just written succeeds and restores the allocation table and the tree |
| `Refinement.WriteTakes` | src/code/filesystem/fat32.c:325-355 | a write takes the fewest clusters that hold its bytes, one for a folder |
| `Refinement.DeleteReturns` | src/code/filesystem/fat32.c:485-494 | a delete gives back as many clusters as the object had |
| `Volume.PassesIff` | src/code/filesystem/fat32.c:161-171 | the parent check admits exactly the live directories and the file tails whose byte 11 is 0x10 |
| `Volume.WriteMakesImpostor` | src/code/filesystem/fat32.c:161-171 | any write of a file whose last cluster has 0x10 at byte 11 makes a cluster that passes and is no directory |
| `Volume.GuardFooled` | src/code/filesystem/fat32.c:161-171 | on a fresh volume a concrete write does so |
| `Volume.FormattedOk` | src/code/filesystem/fat32.c:81-114 | a fresh volume satisfies the invariant, binds no name and has 509 free clusters |
| `Volume.FormattedOnDisk` | src/code/filesystem/fat32.c:81-114 | the three clusters that formatting writes hold the fresh volume |
| `Volume.FreshReadsNothing` | src/kernel/kernel.c:29-39 | on a fresh volume no read succeeds, so the shell that the kernel starts is not there |
| `Volume.WrittenOnDisk` | src/code/filesystem/fat32.c:358-422 | the disk that a successful write leaves holds the file system that the write leads to |
| `Volume.DeletedOnDisk` | src/code/filesystem/fat32.c:473-498 | the disk that a successful delete leaves holds the new file system, and the freed clusters are zero |
| `Volume.ReadableChain` | src/code/filesystem/fat32.c:251-258 | the chain behind a readable entry ends, fits the request's clusters and holds the file's contents |
| `Requests.FirstReadableIs` | src/code/filesystem/fat32.c:232-235 | in a canonical table comparing C strings finds the slot that has the padded name and extension |
| `Requests.FirstListedIs` | src/code/filesystem/fat32.c:187-197 | in a canonical table testing for a common bit finds the slot that testing for equality finds |
| `Requests.RawWriteAgrees` | src/code/filesystem/fat32.c:264-355 | unless the parent is an impostor, the code of write computed from cache and disk is the one in terms of the file system |
| `Requests.RawReadAgrees` | src/code/filesystem/fat32.c:220-249 | the same for read, whose names end at their NUL |
| `Requests.RawReadDirectoryAgrees` | src/code/filesystem/fat32.c:174-212 | the same for read_directory, and the cluster that it goes on to read |
| `Requests.RawFindAgrees` | src/code/filesystem/fat32.c:427-450 | the same for the search of delete |
| `Impostors.StrayWriteBreaks` | src/code/filesystem/fat32.c:358-422 | filling a table outside the tree and linking clusters behind it leaves no consistent file system on the disk |
| `Impostors.StrayWriteStaysSigned` | src/code/filesystem/fat32.c:116-135 | after a write through an impostor the disk is still signed, though nothing consistent is on it |
| `Impostors.SignedIsNotEnough` | src/code/filesystem/fat32.c:116-135 | a signed disk whose allocation table is blank holds no file system |
| `Impostors.BadTableBreaks` | src/code/filesystem/fat32.c:360-422 | a write that leaves the parent's table with a twin, or not canonical, leaves no consistent file system |
| `Impostors.StoredTable` | src/code/filesystem/fat32.c:360-381 | what write stores is a good table exactly when the padded key is new and canonical |
| `Impostors.CommitDecides` | src/code/filesystem/fat32.c:357-424 | whether the disk that write commits holds a consistent file system, and which |
| `Impostors.UnpaddedNeverClashes` | src/code/filesystem/fat32.c:282-299 | the duplicate check never finds a name that has bytes after its NUL |
| `Impostors.TwinCanBeMade` | src/code/filesystem/fat32.c:282-299 | for every stored name shorter than seven bytes there is a request that passes the check and stores it again |
| `Impostors.StrayWriteSucceeds` | src/code/filesystem/fat32.c:161-171 | on a fresh volume one write makes an impostor through which the next write succeeds |
| `Driver.InitTable` | src/code/filesystem/fat32.c:30-49 | overwrites a table with the fresh one for that name and parent, whatever it held |
| `Driver.BlockCases` | src/code/filesystem/fat32.c:402-413 | the two cases of the loop, a padded tail and a full cluster, are the i-th cluster of the file |
| `Driver.TakeBlock` | src/code/filesystem/fat32.c:402-413 | picks the i-th cluster's bytes, padding the last |
| `Driver.Fat32Driver.Create` | src/code/filesystem/fat32.c:81-114 | afterwards the disk holds a fresh volume, and clusters from 3 up are untouched |
| `Driver.Fat32Driver.NewLinks` | src/code/filesystem/fat32.c:92-98 | the allocation table of a new volume, three reserved links and the rest free |
| `Driver.Fat32Driver.IsEmptyStorage` | src/code/filesystem/fat32.c:116-129 | true exactly when the signature is not there |
| `Driver.Fat32Driver.Initialize` | src/code/filesystem/fat32.c:131-159 | any disk: a signed one is left unchanged, any other is formatted, cache and buffer are loaded; the result is consistent exactly when the disk was unsigned or consistent |
| `Driver.Fat32Driver.GetDirTable` | src/code/filesystem/fat32.c:161-171 | the check as coded, and what the buffer then holds |
| `Driver.Fat32Driver.HasClash` | src/code/filesystem/fat32.c:282-299 | finds a live entry from slot 2 up with the name, and for a file also the extension |
| `Driver.Fat32Driver.FindFreeSlot` | src/code/filesystem/fat32.c:304-319 | the first slot that is not live, or 64 |
| `Driver.Fat32Driver.CollectFree` | src/code/filesystem/fat32.c:329-355 | the loop fills its array with the first-fit clusters |
| `Driver.Fat32Driver.StoreChain` | src/code/filesystem/fat32.c:399-421 | every cluster of the chain gets its block and its link, and nothing else changes |
| `Driver.Fat32Driver.FillSlot` | src/code/filesystem/fat32.c:360-381 | one slot of the buffered table becomes the new entry |
| `Driver.Fat32Driver.Commit` | src/code/filesystem/fat32.c:382-422 | the disk and the cached table after everything is written, in the order of the code |
| `Driver.Fat32Driver.Reserve` | src/code/filesystem/fat32.c:267-355 | the failing part of write, for any name and any parent below 512: the code, or the slot and the clusters to fill |
| `Driver.Fat32Driver.Fill` | src/code/filesystem/fat32.c:357-424 | the rest of write, for any name and any parent below 512: the disk and the cached table afterwards |
| `Driver.Fat32Driver.Write` | src/code/filesystem/fat32.c:264-425 | for any name and any parent below 512: a failure changes nothing; a success leaves a consistent disk exactly when the parent is no impostor and the stored key is new and canonical, and then is the specified step on disk, cache and file system |
| `Driver.Fat32Driver.FindEntry` | src/code/filesystem/fat32.c:439-448 | the first live entry from slot 2 up with that name and extension |
| `Driver.Fat32Driver.MayRemove` | src/code/filesystem/fat32.c:452-468 | a folder may go exactly when its table is empty; the parent's table is back in the buffer |
| `Driver.Fat32Driver.LocateRemovable` | src/code/filesystem/fat32.c:429-468 | the failing part of delete: the code, or the slot to clear; behind an impostor, that nothing is found |
| `Driver.Fat32Driver.ClearSlot` | src/code/filesystem/fat32.c:475-481 | one slot loses its marker, its name and its extension, byte by byte |
| `Driver.Fat32Driver.WipeChain` | src/code/filesystem/fat32.c:484-494 | the loop terminates, zeroes and frees exactly the clusters of the chain |
| `Driver.Fat32Driver.Unlink` | src/code/filesystem/fat32.c:473-498 | the disk and the cached table after everything is written, in the order of the code |
| `Driver.Fat32Driver.Delete` | src/code/filesystem/fat32.c:427-502 | for any name: keeps disk, cache and file system in agreement, does the specified step, zeroes every freed cluster, and leaves disk and cache alone when it fails, behind an impostor too |
| `Driver.Fat32Driver.FindReadable` | src/code/filesystem/fat32.c:232-246 | the first live slot whose name and extension agree with the request up to their NUL |
| `Driver.Fat32Driver.FindAny` | src/code/filesystem/fat32.c:187-197 | the first slot whose marker shares a bit and whose bytes agree with the request |
| `Driver.Fat32Driver.CopyChain` | src/code/filesystem/fat32.c:253-258 | the loop terminates and puts the clusters of the chain into the buffer in order |
| `Driver.Fat32Driver.LocateFile` | src/code/filesystem/fat32.c:220-249 | the failing part of read, for any name and any parent below 512: the code, or the slot of the file |
| `Driver.Fat32Driver.Read` | src/code/filesystem/fat32.c:220-262 | for any name: the specified code of the padded request; on success the buffer starts with the contents and is otherwise untouched; behind an impostor, the code of each failure |
| `Driver.Fat32Driver.LocateDirectory` | src/code/filesystem/fat32.c:174-212 | the failing part of read_directory, for any name and any parent below 512: the code, or the slot and the cluster behind it |
| `Driver.Fat32Driver.ReadDirectory` | src/code/filesystem/fat32.c:174-218 | for any name and parent below 512: the code, and the cluster found in the buffer; behind a directory, that is the table of the directory found |
| `DiskBytes.FreshTableBytes` | src/code/filesystem/fat32.c:30-49 | every byte of a new directory's cluster |
| `DiskBytes.FormattedBytes` | src/code/filesystem/fat32.c:10-114 | on a new volume the ends of the signature, every link and every byte of the root |
| `DiskBytes.WrittenBytes` | src/code/filesystem/fat32.c:360-382 | a write changes 32 bytes of the directory's cluster: name, extension, attribute, marker, the lowest free cluster and the size, each at its offset |
| `DiskBytes.DeletedBytes` | src/code/filesystem/fat32.c:473-498 | a delete zeroes name, extension and marker of the entry and no other byte of the directory's cluster |
| `DiskBytes.TargetBytes` | src/code/filesystem/fat32.c:208-215 | the cluster that read_directory goes on to read, from the bytes of the entry found, whatever the parent |
| `Runs.Step` | src/code/filesystem/fat32.c:174-502 | every operation keeps the invariant |
| `Runs.AlwaysConsistent` | src/code/filesystem/fat32.c:81-114 | from a fresh volume on, the disk is consistent after every run whose parents are no impostors and whose writes store new keys |
| `Runs.StepKeepsHeader` | src/code/filesystem/fat32.c:30-49 | the name and parent that a directory records for itself never change while it lives |
| `Runs.RunKeepsBinding` | src/code/filesystem/fat32.c:264-502 | over every run a binding stays as it is, in its directory, until that run deletes it |
| `Runs.WrittenIsRead` | src/code/filesystem/fat32.c:220-425 | after a successful write and any further operations that do not delete the file, read returns 0 and yields all n bytes written and fewer than 2048 zeros up to the cluster boundary |
| `Runs.OrdinaryIsLegal` | src/code/filesystem/fat32.c:174-502 | in a directory every request with padded names is legal, as long as the bytes are there and their number does not wrap |
| `Runs.DiskDetermines` | src/code/filesystem/fat32.c:131-159 | two consistent file systems on the same disk are equal: the bytes determine everything |
| `Runs.Remount` | src/code/filesystem/fat32.c:131-159 | initializing another driver on the disk of a working one finds the same file system and writes nothing |
| `Splitting.SplitAppend` | src/usermode/util.c:73-88 | splitting distributes over a delimiter between two texts |
| `Splitting.SplitRun` | src/usermode/util.c:73-88 | the run up to the next delimiter is the first part, and empty runs are dropped |
| `Paths.SplitPathText` | src/usermode/util.c:113-131 | splitting a printed path gives the names it was made of |
| `Paths.OnlyPathText` | src/usermode/util.c:97-134 | a printed path is the one text that splits into its names, starts with a slash, has no two in a row, and ends with none but for the root |
| `Paths.DescendOk` | src/usermode/cd.c:27-37 | one step of a descent leads to the parent or to a child whose home is the slot found, at most one level down |
| `Paths.StepIs` | src/usermode/cd.c:27-37 | one component resolves exactly if some slot from 1 up is live with that name and the earliest such slot is a directory, and then to the cluster in it |
| `Paths.DotDotIsParent` | src/usermode/cd.c:27-37 | ".." leads from a folder to the directory that it is in, and from the root to itself |
| `Paths.EntersFolder` | src/usermode/cd.c:27-37 | any other name leads only to a folder of that name, and does lead there unless another entry bears the name too |
| `Paths.KidHome` | src/usermode/find.c:73-75 | a live directory slot is the one home of the directory it leads to |
| `Paths.ResolveDepth` | src/usermode/cd.c:23-39 | n components lead at most n levels down |
| `Paths.ResolveNames` | src/usermode/util.c:97-134 | the names from the root to a directory resolve back to it exactly when none of them is shadowed by an earlier slot |
| `Paths.DotDotIsShadowed` | src/code/filesystem/fat32.c:282-299 | a folder named ".." that write makes exists, is shadowed by the parent link, and its path does not lead to it |
| `Paths.ShadowedExists` | src/code/filesystem/fat32.c:282-299 | on a fresh volume one request makes such a folder |
| `ShellState.PrintedParts` | src/usermode/util.c:57-91 | splitting the printed path into buffers of twelve bytes gives the eight-byte names back |
| `ShellState.PartNamesAre` | src/usermode/util.c:57-91 | of any path the first ten parts count, and of each part eight bytes, padded with zeros |
| `ShellState.ExtractDir` | src/usermode/util.c:57-91 | the buffers hold the first ten parts of the text, padded, and the count is right |
| `ShellState.JoinNodes` | src/usermode/util.c:123-131 | writes the collected names in reverse, separated by slashes, within 128 bytes |
| `ShellState.Shell.UpdateDirectoryTable` | src/usermode/user-shell.c:35-37 | reads the table of a directory into the shell |
| `ShellState.Shell.FindEntryName` | src/usermode/util.c:38-54 | the first live slot from 1 up with that name, or -1 |
| `ShellState.Shell.Walk` | src/usermode/cd.c:20-39 | the loop over components resolves the path, or fails exactly when it does not resolve |
| `ShellState.Shell.Cd` | src/usermode/cd.c:6-46 | enters the directory that the path resolves to, and stays where it is if there is none |
| `ShellState.GoUp` | src/usermode/cd.c:6-46 | `cd ..` ends in the directory that holds the current one, and at the root stays there |
| `ShellState.GoTo` | src/usermode/cd.c:6-46 | entering a printed path resolves its names from where the shell is |
| `ShellState.Shell.Climb` | src/usermode/util.c:113-120 | the climb over slot 0 terminates and collects the names from the directory up |
| `ShellState.Shell.PrintPath` | src/usermode/util.c:97-134 | prints the names from the root down and leaves the directory's own table loaded |
| `ShellState.PrintThenCd` | src/usermode/util.c:97-134 | entering the printed path of a directory from the root leads back to it exactly when no name is shadowed |
| `CircularQueue.PopFront` | src/usermode/find.c:33-42 | advancing the head, around the end if need be, drops the first element only |
| `CircularQueue.PushBack` | src/usermode/find.c:22-31 | advancing the tail of a queue that is not full appends the value |
| `CircularQueue.Queue.IsEmpty` | src/usermode/find.c:13-15 | true exactly when there are no elements |
| `CircularQueue.Queue.IsFull` | src/usermode/find.c:17-20 | true exactly when there are 100 elements |
| `CircularQueue.Queue.Enqueue` | src/usermode/find.c:22-31 | appends to the sequence of elements, or, when the ring is full, leaves the new one alone |
| `CircularQueue.Overwrite` | src/usermode/find.c:22-31 | appending to a full ring overwrites its head, and one element is left |
| `CircularQueue.PushAllKeeps` | src/usermode/find.c:71-76 | after appending several, the end of the whole sequence is left, and all of it exactly if there was room |
| `CircularQueue.Queue.Dequeue` | src/usermode/find.c:33-42 | takes the first element off the sequence |
| `Search.KidsAre` | src/usermode/find.c:71-76 | scanning a table yields each subdirectory once and nothing else |
| `Search.KidsInOrder` | src/usermode/find.c:71-76 | and in the order of the slots |
| `Search.HitsAre` | src/usermode/find.c:71-83 | scanning a table reports each live matching slot once and nothing else |
| `Search.ReportsAre` | src/usermode/find.c:61-85 | over distinct directories each due report is made once and no other |
| `Search.ReportsInOrder` | src/usermode/find.c:61-85 | the reports come in the order of the visits, and in each directory in the order of its slots |
| `Search.ReportsWanted` | src/usermode/find.c:71-83 | in terms of the tree: reported are just the bindings with the name, and that extension or none, each once |
| `Search.WalkStep` | src/usermode/find.c:61-85 | one round keeps: seen are the root and the children of what was visited, nothing twice, in order of depth |
| `Search.WalkFits` | src/usermode/find.c:97-99 | visited and queued directories together are never more than there are, so the queue of 100 is not exceeded |
| `Search.FewFit` | src/usermode/find.c:97-99 | a hundred directories never fill the queue, whatever their shape |
| `Search.WalkEnds` | src/usermode/find.c:97-99 | when the queue is empty every directory has been visited exactly once, level by level |
| `Search.StrollStep` | src/usermode/find.c:61-85 | one round, with room or without: what is seen is visited, queued or lost, and nothing twice |
| `Search.SearchStep` | src/usermode/find.c:61-99 | while nothing is lost the walk is the complete one; once something is, or the ring is full, it does not fit |
| `Search.SearchEnds` | src/usermode/find.c:97-101 | when the loop ends every directory was visited exactly if the search fits |
| `Search.VisitSlot` | src/usermode/find.c:72-83 | queues the slot's directory and reports the slot if it matches |
| `Search.ProcessFind` | src/usermode/find.c:61-85 | takes one directory from the queue, pushes its subdirectories, overwriting as the ring does, and reports its matches |
| `Search.Explore` | src/usermode/find.c:97-99 | the loop terminates, and has visited every directory exactly if the ring stays below its capacity after each round |
| `Search.Find` | src/usermode/find.c:87-106 | in the directories visited each binding with the name, and that extension or none, is reported exactly once with its path, in order of visit and slot, and nothing else; these are all directories if and only if the search fits, and then level by level; the shell is back where it was |
| `FileNames.ExtractFilename` | src/usermode/util.c:144-152 | what is in front of the first dot, terminated; the rest of the buffer stays |
| `FileNames.ExtractFileExtension` | src/usermode/util.c:154-174 | what is behind the last dot, or a terminator alone; the rest of the buffer stays |
| `FileNames.ExtractKey` | src/usermode/util.c:144-174 | into zeroed buffers the two yield the padded name and extension |
| `FileNames.KeyRoundTrip` | src/usermode/util.c:144-174 | a base and an extension joined by a dot are taken apart into the two again |
| `FileNames.KeyDropsMiddle` | src/usermode/util.c:144-174 | with more dots, what is between the first and the last is dropped |
| `FileNames.KeyOfPlain` | src/usermode/util.c:144-174 | a part without a dot is a name without an extension |
| `Transfer.CopyFile` | src/usermode/cp.c:82-136 | copying a file of one cluster adds the padded content under the target, keeps everything else and takes one cluster; otherwise nothing changes |
| `Transfer.MoveFile` | src/usermode/mv.c:163-213 | moving it also removes the source and conserves the free clusters; otherwise nothing changes |
| `Transfer.CopyFolder` | src/usermode/cp.c:106-129 | copying a folder key makes an empty folder under the target exactly when a folder or a header has the name and the target takes it |
| `Transfer.MoveFolder` | src/usermode/mv.c:187-213 | for every folder key and every outcome: nothing changes; or an empty folder is made under the target, and the source goes if it was an empty folder other than the target, or a file bearing a header's name; a header's name that binds nothing makes a folder from nothing |
| `Transfer.Fetch` | src/usermode/mv.c:163-195 | the first call reads the file or the directory into the zeroed buffer |
| `Transfer.CopyEntry` | src/usermode/cp.c:82-136 | read and write composed are the specified copy |
| `Transfer.MoveEntry` | src/usermode/mv.c:163-213 | read, write and delete composed are the specified move: the source goes only after the copy was written |
| `Transfer.LastKey` | src/usermode/mv.c:107-114 | the name and the extension come from the last part of the source |
| `Transfer.SourceText` | src/usermode/cp.c:23-62 | a path of names and a last part leads where the names lead and names what the part names; only a lone part that starts and ends with a dot names nothing |
| `Transfer.Endpoints` | src/usermode/mv.c:107-161 | the name is that of the last part, both paths are resolved, and it fails exactly when one does not resolve |
| `Transfer.CopyNamed` | src/usermode/cp.c:82-136 | the copy is made unless the source has neither a directory nor a name |
| `Transfer.Copy` | src/usermode/cp.c:5-150 | the command, from its two texts: copies what the last part names between the directories that the texts lead to, or changes nothing; the table of the current directory is loaded again |
| `Transfer.Move` | src/usermode/mv.c:98-226 | moves what the last part names between the directories that the split texts lead to, or changes nothing |
| `Transfer.MoveByPath` | src/usermode/mv.c:229-279 | the command, from its two texts, when the target has two parts or more |
| `Transfer.CopyByNames` | src/usermode/cp.c:5-150 | `cp ns/p ms` copies the key of p from where ns lead to where ms lead, or changes nothing when one does not lead anywhere |
| `Transfer.MoveByNames` | src/usermode/mv.c:98-279 | `mv ns/p ms`, for a target of two names or more, moves it likewise |
| `Extremes.TwinMade` | src/code/filesystem/fat32.c:282-299 | on a fresh volume two requests store the same name twice |
| `Extremes.TooWide` | src/usermode/find.c:97-99 | from a fresh volume a legal run leads to a file system that the search does not fit |
| `Isolation.FirstUnbuilt` | src/code/memory/paging.c:130-136 | used directories and marked frames are as many, so both searches find the same number |
| `Isolation.LateFailure` | src/code/process/process.c:125-157 | creation fails after its guards exactly when no frame is free and the guards still pass, which takes a size that wraps |
| `Isolation.HalfBuilt` | src/code/process/process.c:125-129 | such a failure leaves a waiting process without a directory that the count does not include |
| `Isolation.CreateDoes` | src/code/process/process.c:71-251 | for every size and in every outcome but the late failure: a guard's code with nothing changed, success with exactly one new process, or a failed read with the table restored |
| `Isolation.CreateCodes` | src/code/process/process.c:71-251 | when creation returns 1, 2, 3, 4 and 0, each exactly, in terms of the active count, the address, the size in pages of 4 MiB, wrap-around included, and the free frames |
| `Isolation.NewAddressSpace` | src/code/memory/paging.c:30-78 | a new process has one user page, present and writable, where it was asked for, on a frame that was free, and the kernel's page; no other entry of its directory is present, and no other directory changes |
| `Isolation.NewContext` | src/code/process/process.c:174-247 | the registers, flags, name and pid that a new process starts with |
| `Isolation.CreateKeeps` | src/code/process/process.c:71-251 | creation keeps the process table, the frame map and the directories consistent exactly when it does not fail late |
| `Isolation.DestroyActive` | src/code/process/process.c:253-263 | destroying an active pid clears exactly its own slot and lowers the count by one |
| `Isolation.DestroyKeepsIff` | src/code/process/process.c:253-263 | destroying keeps the table consistent unless the pid is 0 and slot 0 is unused; and when it reports success |
| `Isolation.FramesDisjoint` | src/code/memory/paging.c:56-78 | two present user entries that map the same frame are the same entry of the same directory, as long as the memory is consistent, whatever the process table says |
| `Isolation.ProcessesApart` | src/code/memory/paging.c:114-151 | two slots with page directories share no user frame, and entry 0x300 of each is the kernel mapping |
| `Separation.CreateShape` | src/code/process/process.c:71-251 | what creation does to memory and directories in all outcomes, late failure included |
| `Separation.ExitDoes` | src/code/cpu/interrupt.c:137-147 | after an exit nobody runs, the process is inactive with all else kept, and no other slot changes |
| `Separation.Step` | src/code/cpu/interrupt.c:137-197 | every create, destroy, timer, exit and start keeps directories apart, whatever pid or size is passed |
| `Separation.AlwaysApart` | src/code/memory/paging.c:56-151 | from power-on, over every such run, two slots with page directories share no user frame and have the kernel mapping |
| `Scheduling.NextNearest` | src/code/process/scheduler.c:96-104 | the cyclic search stops no later than at any waiting slot |
| `Scheduling.SwitchDoes` | src/code/process/scheduler.c:73-123 | a switch leaves exactly one running process, on its own directory, and only states change |
| `Scheduling.SwitchCloser` | src/code/process/scheduler.c:96-104 | the cyclic distance from the running slot to every waiting slot drops |
| `Scheduling.CreateDoesNotDisturb` | src/code/process/process.c:64-69 | a legal creation leaves slot 15 unused and the running process and CR3 as they were |
| `Scheduling.StartDoes` | src/code/process/scheduler.c:27-53 | starting the scheduler marks the first waiting slot, or slot 0 if none waits, and changes nothing else |
| `Scheduling.CreateIsSafeIff` | src/code/process/process.c:71-251 | the system stays schedulable exactly when creation neither fails late nor adds a sixteenth process |
| `Scheduling.FifteenIsTheLimit` | src/code/process/scheduler.c:96 | with a frame left, a further process is safe for the scheduler exactly when fewer than 15 are active |
| `Scheduling.FramesRunOut` | src/code/process/process.c:161-167 | from every booted state creations whose executable cannot be read use up all frames |
| `Scheduling.LateFailureHappens` | src/code/process/process.c:93-129 | from every booted state a legal run leads to one where a further request fails late and breaks the tables |
| `Scheduling.FifteenReached` | src/code/process/scheduler.c:96 | with frames enough, ordinary creations lead to fifteen active processes, and one more is not safe |
| `Scheduling.PidZeroBreaks` | src/code/process/process.c:253-263 | with one process in slot 0, a creation, a switch and a destruction lead to where destroying pid 0 breaks the table |
| `Scheduling.DestroyIsSafeIff` | src/code/process/process.c:253-263 | the system stays schedulable exactly when the pid is not the running one and not 0 with slot 0 unused |
| `Scheduling.TickDoes` | src/code/cpu/interrupt.c:188-197 | the timer saves, switches to the next slot and keeps exactly one running process |
| `Scheduling.Step` | src/code/cpu/interrupt.c:148-197 | every legal step keeps one running process on its own directory with the table consistent |
| `Scheduling.BoundedWait` | src/code/process/scheduler.c:73-123 | a waiting process runs within as many switches as it is slots away, at most 15, whatever else is created or destroyed |
| `Scheduling.RunResumes` | src/code/process/scheduler.c:55-123 | over every run the running process has the context it was last preempted or created with, and CR3 is its own directory |
| `Scheduling.DirectoryIsForLife` | src/code/process/process.c:131 | over every run that does not destroy it, a process stays alive on the page directory that it has |
| `Scheduling.Boot` | src/kernel/kernel.c:29-44 | creating the shell, starting the scheduler and switching once leads into a schedulable state exactly when the guards pass and the shell is read |
| `Scheduling.BootRuns` | src/kernel/kernel.c:29-44 | the first process is the program asked for, running in slot 0 on a directory that has a page where it was asked for |
| `Scheduling.NoShell` | src/kernel/kernel.c:39-44 | without a shell the switch resumes an unused slot, on no page directory |
| `RoundRobin.Successor` | src/code/process/scheduler.c:96-104 | the next process is the one after the running one among the active slots in ascending order, or the first |
| `RoundRobin.TakesTurns` | src/code/process/scheduler.c:73-123 | after n ticks the running process is the n-th in turn |
| `RoundRobin.OncePerRound` | src/code/process/scheduler.c:73-123 | with a fixed set of active processes each runs exactly once in every round of that many ticks |
| `Machine.Computer.GetInactiveIndex` | src/code/process/process.c:64-69 | the first inactive slot, or -1 |
| `Machine.Computer.GetRunning` | src/code/process/process.c:35-45 | the first running slot, or none |
| `Machine.Computer.GenerateNewPid` | src/code/process/process.c:20-27 | the first inactive slot, or the old counter when there is none |
| `Machine.Computer.UpdateEntry` | src/code/memory/paging.c:30-40 | the entry of the page that the address is in becomes the user mapping of the frame, and no other entry changes |
| `Machine.Computer.AllocateUserPageFrame` | src/code/memory/paging.c:56-78 | takes the first unmarked frame and maps it; the scan stays inside the map of 32 |
| `Machine.Computer.CreatePageDirectory` | src/code/memory/paging.c:114-151 | takes the first unused directory and installs the kernel entry, or returns NULL with nothing changed |
| `Machine.Computer.ClaimSlot` | src/code/process/process.c:107-115 | the new process's pid is the slot that it takes |
| `Machine.Computer.CheckGuards` | src/code/process/process.c:75-97 | the code of the first guard that fails, or the slot to take |
| `Machine.Computer.ClaimDirectory` | src/code/process/process.c:107-131 | the slot is taken even when there is no directory for it |
| `Machine.Computer.Load` | src/code/process/process.c:143-247 | allocation, read and preparation; CR3 is restored on every way out |
| `Machine.Computer.Prepare` | src/code/process/process.c:174-247 | the registers and flags of a new process, and the count |
| `Machine.Computer.Create` | src/code/process/process.c:71-251 | the arrays and the code are those of the specified step, in all outcomes |
| `Machine.Computer.Destroy` | src/code/process/process.c:253-263 | the arrays and the result are those of the specified step |
| `Machine.Computer.InitScheduler` | src/code/process/scheduler.c:27-53 | marks the first waiting slot as running, or slot 0 when none waits |
| `Machine.Computer.SaveContext` | src/code/process/scheduler.c:55-63 | stores the context in the running slot, if there is one |
| `Machine.Computer.FindNext` | src/code/process/scheduler.c:96-104 | the loop terminates at the first waiting slot after the current one, or at the current one |
| `Machine.Computer.SwitchToNext` | src/code/process/scheduler.c:73-123 | does the specified switch and resumes the context of the slot chosen |
| `Machine.Computer.TimerInterrupt` | src/code/cpu/interrupt.c:188-197 | does the specified tick and resumes the context of the slot chosen |
| `Machine.Computer.ExitProcess` | src/code/cpu/interrupt.c:137-147 | the running process is marked inactive and keeps its page directory; the context is saved to nobody, or to another that is marked running |
| `Machine.StartFirst` | src/kernel/kernel.c:39-44 | exactly one process runs, on its own directory, with the tables consistent, if and only if the program passed the guards and was read |
| `Startup.KernelSetup` | src/kernel/kernel.c:17-47 | from the disk: the machine comes up exactly when the root holds a file "shell" of at most 1 MiB, and then runs it at address 0; never after formatting; a signed disk is left unchanged |
| `Terminal.LayoutKeepsText` | src/code/text/framebuffer.c:93-136 | the layout, read back with a break after every line left short, is the text: cells in order, lines broken where they are full or the text breaks, and nowhere else |
| `Terminal.LayoutShowsText` | src/code/text/framebuffer.c:54-60 | read back, the cells of the layout have the characters of the text in their low bytes and its colours above |
| `Terminal.MarksDetermine` | src/code/text/framebuffer.c:93-136 | two layouts that read back the same are the same |
| `Terminal.OnlyLayout` | src/code/text/framebuffer.c:93-136 | the layout is the only one that reads back as the text |
| `Terminal.ScrollShows` | src/code/text/framebuffer.c:15-25 | copying rows 1 to 20 onto rows 0 to 19 is a true scroll, because row 20 was blank |
| `Terminal.PutShows` | src/code/text/framebuffer.c:109-136 | writing at the cursor shows the layout with one more cell |
| `Terminal.ShownCells` | src/code/text/framebuffer.c:109-136 | cell by cell, what the window of 21 rows of 80 holds |
| `Terminal.Framebuffer.ScrollUp` | src/code/text/framebuffer.c:15-25 | rows 1 to 20 move up by one, the last row of the memory is cleared, the others stay |
| `Terminal.Framebuffer.Clear` | src/code/text/framebuffer.c:138-142 | an empty page with the cursor at its start; cells from 4002 up stay |
| `Terminal.Framebuffer.Write` | src/code/text/framebuffer.c:54-60 | one cell gets the character in its low byte, the foreground above it and the background on top |
| `Terminal.Framebuffer.Newline` | src/code/text/framebuffer.c:93-107 | the window shows the layout with one more line; the rows below it, where the clock is drawn, stay |
| `Terminal.Framebuffer.Put` | src/code/text/framebuffer.c:109-136 | the window shows the layout with one more cell; the rows below it, where the clock is drawn, stay |
| `Terminal.Framebuffer.PutChar` | src/code/text/terminaltext.c:5-11 | the window shows the layout with the character typed |
| `Terminal.PrintPage` | src/code/text/framebuffer.c:93-142 | after clearing and printing any 7-bit text, the 21 rows of 80 cells hold the last lines of its layout and blanks; the layout has the text's characters and colours in order |
| `Tokenizer.Strtok.SkipDelimiters` | src/stdlib/string.c:127-130 | skips delimiters, never past the terminator, and loses no run |
| `Tokenizer.Strtok.RunEnd` | src/stdlib/string.c:138-142 | stops at the first delimiter or the terminator |
| `Tokenizer.Strtok.Cut` | src/stdlib/string.c:124-152 | returns the first run, terminated in place, and saves the rest; NULL when there is no run |
| `Tokenizer.Strtok.Next` | src/stdlib/string.c:112-153 | a call returns the first run of the new or the saved string, overwrites at most one delimiter, and answers NULL from the end on |
| `Tokenizer.Tokens` | src/stdlib/string.c:112-153 | repeated calls return exactly the maximal delimiter-free runs in order, then NULL, and change nothing but delimiters |

## Left out

- Port I/O, the interrupt controller, descriptor tables, the clock and all assembly. The disk is an array of clusters, as in src/helper/external-inserter.c:13-31, and a context switch records which context is resumed.
- The keyboard, the shell's prompt, colours, printed messages and the commands ls, ps, play, txt and clock.
- Driver.Fat32Driver.Delete: behind an impostor (`Volume.PassesIff`) only a search that fails is described. An entry found there is made of a file's bytes, and the code indexes tables of 512 with cluster numbers from it.
- Driver.Fat32Driver.LocateRemovable: the same.
- Driver.Fat32Driver.Read: behind an impostor only the failures are described, for the same reason.
- Driver.Fat32Driver.ReadDirectory: behind an impostor, requires that the cluster found is one that the disk has.
- Driver.Fat32Driver.Reserve, Fill, LocateFile, LocateDirectory and the four operations: require a parent below 512, since the code indexes its table with the parent unchecked.
- Driver.Fat32Driver.Write: requires that the size plus 2047 does not wrap, and does not model the stack that the array of cluster numbers takes.
- Driver.Fat32Driver.Read: requires a buffer rounded up to whole clusters, which is what the code writes.
- Runs.WrittenIsRead: excludes the two names that the search from slot 0 finds first, the directory's own and "..".
- Uninitialised buffers of the callers are taken as zero-filled, and return codes are whole numbers: the upper bytes that a system call leaves in an `int` are not modelled.
- Search.Find: takes the name and the extension apart; `FileNames.ExtractKey` is how the command gets them. A line that it prints is modelled as its path and slot.
- Transfer.Copy, Move, MoveByPath: require parts that the buffers hold, a base of at most 7 bytes and an extension of at most 3, and a source with at least one part; the code writes or reads past its buffers otherwise. Missing arguments only print a message.
- ShellState.ExtractDir: requires parts of at most 11 bytes, which is what its buffers hold.
- ShellState.Shell.Climb, PrintPath: require depth at most 10, which is the size of the array of names.
- Search.Find: requires that a directory with a match is at most 10 deep, which is what the printer's array holds. Which directories an overwritten ring leaves out is not described.
- rename in src/usermode/mv.c:6-96, and the choice between it and move for a target of one part.
- paging_free_user_page_frame and paging_free_page_directory: nothing that runs calls them, so frames and directories are never given back.
- Page faults (src/code/cpu/interrupt.c:198-209), whose last statement follows a switch that does not return. Runs that count processes or bound waiting leave out exit (`Machine.Computer.ExitProcess`), which does not lower the count and leaves nobody running; isolation covers it.
- Machine.Computer.Create: the outcome of reading the executable is a parameter; the wrap-around of the size is modelled, addresses of page directories are references.
- Isolation.FramesDisjoint: speaks of user frames only. The kernel's frame 0 is never marked, so the first process gets it.
- Startup.KernelSetup: requires that a signed disk holds a consistent file system; reading the shell is not described otherwise. The buffer that the shell is read to stands for the page of the new process.
- Machine.Computer.SwitchToNext: requires a running slot below 15; the scan from slot 15 would leave the table.
- framebuffer_scroll_down and backspace, which leave the layout; writes of the clock to row 21.
- Translation-lookaside buffer effects and the layout of C structures other than the directory entry and the allocation table.
