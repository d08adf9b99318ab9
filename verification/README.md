# A verified model of the kernel's stateful core

This project models the parts of the kernel that keep state across calls, and proves what each call and each run of
calls does to that state: the FAT file-system driver, the process table with its scheduler and page frames, the
shell's directory stack with `cd` and `find`, the string tokenizer, the decimal printer and parser, and the register
path through a timer interrupt.

Every step that the program takes is written once as a function on immutable values (`FatOps`, `Paging`,
`Processes`), and once more in the program's own form, as a class whose methods update arrays and fields in loops
(`DiskImage`, `FatDriver`, `KernelMachine`, `ProcessLoading`, `DirStack`, `ShellFinder`, `ShellCommands`, `Tokens`,
`Decimals`, `Registers`). Each method is proved equal to its function, and the properties are proved about the
functions.

## What is proved, in short

**File system.** A volume is `Consistent` when the cached table equals cluster 1 and the boot signature is there; the
chains of live entries are disjoint, end, and cover exactly the non-empty clusters; the directories form a tree with
correct first two slots; unused slots are zero; and names are unique in each directory. Its meaning is a map from
directories to maps from keys to files with their bytes or to directories (`FatView.View`).

- Formatting establishes the invariant; every legal run of write, delete, remount and reboot keeps it and is a run of
  the abstract file system; at any point of any run the disk alone, whatever the memory held, mounts to the same files.
- The files of a consistent disk are stated once more in its bytes alone (`FatBytes.DiskMeans`), offset by offset, so
  that what is written, formatted and read is the format of the packed structures.
- `write` and `delete` return exactly the codes of the abstract file system, and a refused call changes nothing.
- A write that reports success does not always store what it was given. It leaves a consistent volume that has gained
  exactly that file or directory if and only if: the name and extension are not all zeroes, there is room for the whole
  file (or one cluster for a directory), and a new directory is not called "root" below the root. The driver never
  tests the 0 that `get_empty_cluster` returns, and `init_directory_table` takes any "root" below the root for the
  root itself.
- A write followed by the delete of the same entry restores the allocation table and every cluster outside the chain.
- A write whose cluster count is 65535 never returns, because its 16-bit loop counter cannot exceed that number; every
  other write does.
- The driver counts clusters in single precision. The count is right if and only if the remainder of the size does
  not round away, hence for every size up to 2^24 and so for every file that fits; it is wrong at 2^24 + 1.
- `is_directory` terminates and is true exactly of the clusters of directories.

**Processes.** The running process and the queue form a ring that holds every scheduled live process once and the
first process twice, because `scheduler_init` queues the process it also marks as running. A tick rotates the ring.
The invariant (`KernelOk`) holds after boot and at every point of every legal run of ticks, creations and kills; so
the queue never overflows, and nobody waits longer than sixteen ticks. A creation reads its program through the file
system: its code is 4 exactly when it is not refused and the file system cannot read the program. As long as that does
not happen, live processes have distinct directories that map the kernel, share no frame, keep every entry of their
directory until they are killed, and are handed exactly the registers they were preempted with. After a failed load
the active directory stays switched; the next tick files the running process under it, and a kill of the failed
process clears it, the kernel's own mapping included. A kill is sound exactly when the process is neither the running
nor the first one and nobody else uses its directory. The two halves are joined in `SystemRuns`: file-system calls and
kernel steps in any order, on one disk.

**Shell.** `find` reports exactly the entries of a name, each once, in pre-order. `cd` resolves a path exactly as a
walk in the tree, except for one token: each "root" met in the root pushes the root once more, and `ShellPlaces` gives
the stack that any path leaves. A stack brings its directory's table back exactly when that directory has no extension.

**Interrupts.** Saving the registers at a timer interrupt and loading them again is the identity on a user state if
and only if its stack segment is the user data segment and the low two bits of `ds` are not both clear (or the two
stack pointers agree by chance).

## Modules

| module | contents |
|---|---|
| `Words`, `FatLayout`, `DiskImage` | bytes and words; entries, directory tables and allocation tables as bytes; the disk image |
| `Volumes`, `FatOps`, `Floats` | the volume and its invariant; what each call does to it; the cluster count |
| `AbsFiles` | the abstract file system |
| `FatChains`, `FatTree`, `FatView`, `FatPaths` | chains; the directory tree; the abstract file system of a volume; paths and subtrees |
| `FatWrite`, `FatDelete`, `FatRead`, `FatExact`, `FatRuns` | the calls, exact conditions, and runs |
| `FatBytes` | what all of this is in the bytes of the disk |
| `FatCalls`, `FatDriver` | the driver as it updates its state |
| `Paging`, `Processes`, `KernelSteps` | frames and directories; the process table; what each step keeps |
| `KernelRuns`, `KernelFair`, `KernelExact` | runs from boot; fairness and resumption; exactly when the guarantees fail |
| `KernelSpaces`, `KernelSupply` | the pages of a process over its life; the supply of page directories |
| `KernelMachine`, `ProcessLoading`, `KillCommand` | the kernel's own tables; creating a process from the disk; `kill` |
| `SystemRuns` | file system and kernel together |
| `Registers` | the register path through an interrupt |
| `ShellPaths`, `ShellFind`, `ShellCd`, `ShellPlaces` | the directory stack; what `find` reports; what `cd` resolves |
| `ShellLaws` | what the bytes of a path mean |
| `DirStack`, `ShellFinder`, `ShellNames`, `ShellCommands` | the stack, `find` and `cd` as they run |
| `Tokens`, `Decimals` | the tokenizer; printing and parsing numbers |

## Where the code differs from its own description

- `paging_free_page_directory` is described as marking the directory unused; it marks it used (src/paging/paging.c:194),
  so a directory is handed out once. Legal runs therefore need an unused directory for every creation, and
  `KernelSupply` says how many a run from boot can make.
- A kill removes one occurrence from the queue and does not reschedule. `KernelExact.DestroyExact` says exactly
  when that leaves a consistent kernel.
- The tokenizer keeps empty tokens: its test for them compares with a cursor that has already moved. A path that begins
  or ends with a slash, or has two in a row, is therefore always refused by `cd`.
- `find` prints a line for the root for every name that begins with "root", not only for "root".
- The kill call reports success for pid 0 whenever a slot of the process table is free; it then changes nothing.
- The stack comment in src/interrupt/intsetup.s:6-13 lists two slots at offset 16; the offsets that the code uses are
  the ones modelled.

## Model

| member | source | states |
|---|---|---|
| FatLayout.TableRoundTrip | src/header/filesystem/fat32.h:78-101 | a directory table survives being stored as 2048 bytes and read back |
| FatLayout.TableBytesOnto | src/header/filesystem/fat32.h:78-101 | every cluster is the image of exactly one table, so nothing on disk is lost by reading it as a table |
| FatLayout.FatRoundTrip | src/header/filesystem/fat32.h:112-117 | the allocation table survives being stored and loaded |
| FatLayout.FatBytesOnto | src/header/filesystem/fat32.h:112-117 | every cluster is the image of exactly one allocation table |
| FatBytes.TableBytes | src/header/filesystem/fat32.h:78-101 | every field of every slot lies at its offset in the cluster: name at 0, extension at 8, attribute at 11, user attribute at 12, the cluster's halves at 20 and 26, the size at 28, lowest byte first |
| FatBytes.SlotBytes | src/header/filesystem/fat32.h:32-33 | conversely a slot is read as live exactly when byte 12 is 0xAA and as a directory exactly when byte 11 is 0x10, and its name, cluster and size are those bytes |
| FatBytes.FatBytes | src/header/filesystem/fat32.h:53-56 | word i of the allocation table lies at byte 4i, lowest byte first |
| FatBytes.FatWords | src/header/filesystem/fat32.h:53-56 | and is read from there |
| FatBytes.DiskMeans | src/filesystem/fat32.c:651-670 | the files of a consistent disk are in its bytes: a directory at cluster d holds a name exactly when one of its slots from the third on, at byte 2048 d + 32 i, is live with that name; the item is that entry, and a file's bytes are what following its clusters through the table gives |
| FatBytes.FormatOnDisk | src/filesystem/fat32.c:225-244 | the bytes of a formatted disk: the signature, three words of the table, two entries for the root, and zeroes |
| DiskImage.Image.ReadBlocks | src/external/external-inserter.c:13-22 | exactly the named blocks are copied out; the rest of the caller's buffer keeps its bytes |
| DiskImage.Image.WriteBlocks | src/external/external-inserter.c:24-33 | exactly the named blocks change, to the caller's bytes |
| DiskImage.Image.WriteCluster | src/filesystem/fat32.c:262-265 | the byte image changes so that one cluster holds the data and every other cluster is as before |
| FatChains.FillClaims | src/filesystem/fat32.c:422-463 | with room for it, the write loop claims exactly the needed number of distinct free clusters, linked in order and ended, and stores the buffer there chunk by chunk |
| FatChains.LinkOverruns | src/filesystem/fat32.c:443-463 | without room the loop runs on into cluster 0 and the reserved entry 0 of the table is lost |
| FatChains.ChainUnique | src/filesystem/fat32.c:730-745 | the chain of a head is determined by the table |
| FatChains.ClearUndoesClaim | src/filesystem/fat32.c:730-745 | clearing the chain just claimed gives the table before the claim |
| Floats.CeilFloatExact | src/filesystem/fat32.c:747-754 | the single-precision count equals the exact one if and only if the remainder does not round away |
| Floats.NeededExact | src/filesystem/fat32.c:422 | the 16-bit count is exact for every size up to 2^24 |
| Floats.CeilFloatLosesAByte | src/filesystem/fat32.c:747-754 | 2^24 + 1 bytes are counted as 8192 clusters instead of 8193 |
| FatOps.LoopEnds | src/filesystem/fat32.c:425-463 | the 16-bit counter of the write loop exceeds the cluster count after some number of turns if and only if the count is not 65535, and then after exactly that many turns |
| FatCalls.ReturnsExact | src/filesystem/fat32.c:371-463 | a write returns if and only if it is refused, creates a directory, or has a count that the counter can exceed |
| FatCalls.EndlessWrite | src/filesystem/fat32.c:422-463 | every accepted write of 0x7FF_F800 bytes is counted as 65535 clusters and never leaves the loop |
| FatWrite.WriteCodeIsAbstract | src/filesystem/fat32.c:371-436 | write refuses exactly an unknown parent (2), a name already present (1) and a directory of 62 entries (-1) |
| FatWrite.MakeFileRefines | src/filesystem/fat32.c:419-463 | a file that fits leaves a consistent volume whose abstract file system has gained that file with the buffer's first bytes, and nothing else |
| FatWrite.MakeDirRefines | src/filesystem/fat32.c:389-417 | a directory that fits leaves a consistent volume that has gained one entry and one empty directory |
| FatDelete.DeleteCodeIsAbstract | src/filesystem/fat32.c:520-567 | on a directory, delete refuses exactly an absent name (1) and a directory with entries (2) |
| FatDelete.DeleteRefines | src/filesystem/fat32.c:520-567 | a successful delete leaves a consistent volume that has lost exactly that entry, and that directory if it was one |
| FatRead.ReadIsAbstract | src/filesystem/fat32.c:331-369 | read returns 0 exactly for a file whose bytes fit the buffer, and the chain it then follows holds those bytes |
| FatRead.ReadDirIsAbstract | src/filesystem/fat32.c:274-329 | read_directory succeeds exactly on the root's own name and on names of directories, and finds the directory of that name |
| FatRead.WriteThenRead | src/filesystem/fat32.c:331-463 | reading a file just written succeeds and gives back the bytes written |
| FatExact.ShapeUnique | src/filesystem/fat32.c:160-244 | a consistent volume has one layout: its directories, entries, chains and meaning are determined by its bytes |
| FatExact.WriteFileExact | src/filesystem/fat32.c:419-463 | a file write that reports success leaves a consistent volume if and only if the name is usable and there was room |
| FatExact.WriteDirExact | src/filesystem/fat32.c:389-417 | a directory creation that reports success leaves a consistent volume if and only if it fits, or replaces an empty root |
| FatRuns.WriteFileInserts | src/filesystem/fat32.c:419-463 | a file write that reports success leaves a consistent volume that has gained exactly that file if and only if it fits |
| FatRuns.WriteDirInserts | src/filesystem/fat32.c:389-417 | a directory creation that reports success leaves a consistent volume that has gained exactly that directory if and only if it fits; "root" in an empty root reports success and creates nothing |
| FatExact.ClashSteps | src/filesystem/fat32.c:180-206 | creating "root" in the root overwrites the root's table with an empty one and changes nothing else |
| FatRuns.FormatConsistent | src/filesystem/fat32.c:225-244 | any disk formats to a consistent volume with one empty root |
| FatRuns.RemountTransparent | src/filesystem/fat32.c:246-260 | mounting a consistent volume again changes neither the disk nor the cached table |
| FatRuns.RebootRestores | src/filesystem/fat32.c:246-260 | mounting the disk of a consistent volume gives that volume, whatever the memory held before |
| FatRuns.WriteFileThenDelete | src/filesystem/fat32.c:371-567 | writing a file and deleting it restores the table and every cluster that was not free |
| FatRuns.WriteDirThenDelete | src/filesystem/fat32.c:371-567 | the same for a directory |
| FatRuns.StepRefines | src/filesystem/fat32.c:371-567 | each legal command keeps the invariant and does what the abstract step says |
| FatRuns.RunRefines | src/filesystem/fat32.c:246-567 | every legal run of writes, deletes, remounts and reboots keeps the invariant and refines the abstract run, and its disk alone gives the volume back at its end |
| FatRuns.FormattedRun | src/filesystem/fat32.c:225-567 | in particular every legal run from a formatted disk |
| FatPaths.PathsAreUnique | src/filesystem/fat32.c:672-703 | every directory path from the root is the only path to its end |
| FatPaths.DirectoriesAreReachable | src/filesystem/fat32.c:672-703 | the directories of a consistent volume are exactly those reachable from the root |
| FatPaths.SiblingsDisjoint | src/filesystem/fat32.c:672-703 | subtrees of different entries of one directory have no directory in common |
| FatDriver.Driver.GetEmptyCluster | src/filesystem/fat32.c:569-591 | returns the lowest free cluster, or 0 exactly when there is none |
| FatDriver.Driver.AddEntry | src/filesystem/fat32.c:593-649 | fills the first free slot of the buffered table with the entry of the request, or fails on a full table |
| FatDriver.Driver.DirTableSearch | src/filesystem/fat32.c:651-670 | finds the first slot with the given key bytes, or leaves the caller's entry |
| FatDriver.Driver.IsDirectory | src/filesystem/fat32.c:672-703 | terminates, and is true exactly of the directories at or below the given one and of its parent |
| FatDriver.Driver.IsDirectoryFromRoot | src/filesystem/fat32.c:672-703 | from the root it is true exactly of the clusters of directories |
| FatDriver.Driver.IsDirectoryEmpty | src/filesystem/fat32.c:705-723 | true exactly when no slot from the third on is live |
| FatDriver.Driver.ClearCluster | src/filesystem/fat32.c:730-745 | the walk terminates and frees exactly that one chain |
| FatDriver.Driver.InitDirectoryTable | src/filesystem/fat32.c:160-216 | builds the table of a new directory, or the root's for the root's name below the root |
| FatDriver.Driver.CreateFat32 | src/filesystem/fat32.c:225-244 | formats the disk and leaves the driver in a consistent state with an empty root, and these bytes on the disk |
| FatDriver.Driver.Initialize | src/filesystem/fat32.c:246-260 | a disk that is consistent by itself is mounted unchanged, with its own files, whatever the cached table held; a disk without the signature is formatted; a signed one has its table loaded word by word |
| FatDriver.Driver.Write | src/filesystem/fat32.c:371-518 | the code in terms of the files, and the whole new state of every write that returns; it is consistent if and only if the write was refused or sound, a refusal changes nothing, and a legal write is an abstract step whose entry and data are in the bytes of the disk |
| FatDriver.Driver.Delete | src/filesystem/fat32.c:520-567 | the code in terms of the files, and the whole new state of a delete; always consistent, always an abstract step, and afterwards no slot of the directory holds the name |
| FatDriver.Driver.Read | src/filesystem/fat32.c:331-369 | not found is 3, a directory 1, a buffer too small 2; on success the buffer starts with the file's bytes, otherwise it is untouched |
| FatDriver.Driver.ReadDirectory | src/filesystem/fat32.c:274-329 | the code in terms of the files: -1 for a wrong size, 1 for a file, 2 for an absent name; on success the table of the directory found is copied out, otherwise the caller's is untouched |
| FatDriver.Driver.FillAll | src/filesystem/fat32.c:443-463 | whenever the loop with its 16-bit counter ends, it leaves table and disk as the recursive chain fill that FillClaims is about |
| Paging.AllocateKeeps | src/paging/paging.c:70-107 | allocation succeeds exactly while a frame is free, and then maps, in one entry only, a frame that nobody had; it leaks a frame exactly when that entry mapped one already |
| Paging.FreeKeeps | src/paging/paging.c:109-146 | freeing gives back exactly the frame of a present entry and changes no other; the bookkeeping stays right if and only if that entry is not the kernel's |
| Paging.NewDirectoryKeeps | src/paging/paging.c:148-180 | a new directory was unused, maps the kernel and nothing else, and touches no other directory |
| Paging.FreeDirectoryKeeps | src/paging/paging.c:182-202 | clearing a directory leaks exactly the frames that it still maps |
| KernelSteps.TickRotates | src/scheduler/scheduler.c:37-58 | a tick runs the head of the queue and rotates the ring by one |
| KernelSteps.TickKeeps | src/scheduler/scheduler.c:27-58 | a tick keeps every invariant of the kernel |
| KernelSteps.StartKeeps | src/process/process.c:55-136 | a successful creation keeps them, puts the process last in the ring and leaves the running one running |
| KernelSteps.FailedCreateKeeps | src/process/process.c:87-104 | a program that cannot be read leaves slot, directory and frame taken, all consistent |
| KernelSteps.DestroyKeeps | src/process/process.c:138-191 | a supported kill keeps the invariants of table, queue and pages and leaves the process nowhere in the queue |
| KernelSteps.DestroyMaps | src/process/process.c:181-184 | a kill keeps the kernel mapped in the active directory and in every live process's if and only if nobody else uses the directory that it clears |
| KernelRuns.BootExact | src/kernel.c:52-56 | at boot the shell is created if and only if the file system can read it; otherwise the queue that the scheduler starts from is empty |
| KernelRuns.BootOk | src/scheduler/scheduler.c:9-19 | boot ends with the first process running, queued once behind itself, and all invariants in force |
| KernelRuns.StepKeeps | src/process/process.c:55-191 | every step keeps the invariants, and the stronger ones under exactly the condition they depend on |
| KernelRuns.RunKeeps | src/process/process.c:55-191 | at every point of every legal run the invariants hold, and each stronger one under its condition on the run |
| KernelRuns.CreationsBounded | src/paging/paging.c:148-202 | from any state, a run makes exactly as many accepted creations as it uses up directories: none is ever given back |
| KernelRuns.BootedRun | src/process/process.c:55-191 | all of this from boot on: invariants, at most 31 creations, separate directories that map the kernel, no shared frame, and no leaked one |
| KernelSupply.SupplyExact | src/paging/paging.c:148-202 | after boot a creation finds a page directory if and only if fewer than 31 creations were accepted before it |
| KernelSupply.SupplyRunsOut | src/paging/paging.c:182-202 | there is a legal run after which the shell alone is left, nothing refuses another creation, and no directory can be found for it |
| KernelSpaces.KeepsAddressSpace | src/process/process.c:55-191 | as long as every program can be read, a process that is not killed keeps its directory and every entry of it, whatever else is created, killed or run |
| KernelSpaces.ResumesInPlace | src/scheduler/scheduler.c:27-57 | a preempted process is handed its registers again, with every page of its directory as it was |
| KernelSpaces.NewSpace | src/process/process.c:87-95 | a new process has exactly the page of its entry mapped, if a frame was free; so its stack is mapped if and only if the program lies below 4 MiB |
| KernelSpaces.StackStays | src/process/process.c:87-115 | a process created below 4 MiB with a frame free has its stack mapped as long as it lives |
| KernelSpaces.LoadCovered | src/process/process.c:93-97 | loading a program writes only to pages mapped for it if and only if a frame was free and its clusters do not cross a 4 MiB boundary |
| SystemRuns.SystemKeeps | src/process/process.c:97-104 | in every interleaving of file-system calls with ticks, loads, kills and restarts, disk and kernel stay consistent, and processes stay separate as long as every program to be loaded can be read from the disk as it is then |
| SystemRuns.SystemFromBoot | src/kernel.c:27-56 | the same from boot on, on any consistent disk that holds a shell |
| KernelRuns.FramesDisjoint | src/paging/paging.c:70-107 | two live processes never map a common user frame |
| KernelRuns.MarkedIffMapped | src/paging/paging.c:70-146 | with programs below 4 MiB a frame other than the kernel's is marked if and only if some directory maps it |
| KernelFair.NoStarvation | src/scheduler/scheduler.c:37-58 | a process at queue index j is dispatched by the (j+1)-th tick, in every interleaving with creations and kills of others |
| KernelFair.WithinSixteen | src/scheduler/pcbqueue.c:8-30 | every waiting process runs within sixteen ticks |
| KernelFair.SchedulePeriod | src/scheduler/scheduler.c:37-58 | without creations and kills the schedule has the length of the queue plus one as a period |
| KernelFair.ResumesExactly | src/scheduler/scheduler.c:27-57 | a preempted process keeps exactly its saved registers and directory while it waits, and the tick that dispatches it hands out exactly these and activates its directory |
| KernelFair.StartsExactly | src/process/process.c:106-128 | a new process is handed exactly the fixed start context, with its own directory, when it first runs |
| KernelExact.CreateExact | src/process/process.c:55-136 | a creation has code 4, switches the active directory for good and loses isolation if and only if it is not refused and the file system cannot read the program |
| KernelExact.FailedReadMergesDirectories | src/process/process.c:99-104 | after a failed read the next tick files the running process under the failed one's directory |
| KernelExact.FailedThenKilled | src/process/process.c:95-184 | killing the process that failed to load clears the directory that is still active, the kernel's mapping included |
| KernelExact.DestroyExact | src/process/process.c:138-191 | killing a live process keeps the tables consistent if and only if it is neither running nor the first, and the kernel mapped as well if and only if besides nobody else uses its directory |
| KernelExact.DestroyFirst | src/process/process.c:165-180 | killing the first process leaves a dead slot in the queue |
| KernelExact.CreateThenDestroy | src/process/process.c:55-191 | create and kill restore table, count, queue and active directory; the frames if and only if the program lies below 4 MiB or got no frame |
| KernelExact.NeededFramesExact | src/process/process.c:50-74 | the 32-bit computation for every size; it counts a program's frames and one more if and only if the size is at most 2^32 minus 8 MiB |
| KernelExact.RefusalsExact | src/process/process.c:55-79 | each refusal in terms of the state: no free slot (1), an entry in the kernel's part (2), too few clear frames or more than eight counted (3), for every size |
| KernelExact.FrameIsFound | src/process/process.c:74-93 | an accepted creation gets a frame if and only if one is free, and none can be free only for sizes whose count wraps to zero |
| KernelExact.NoFrameIsFound | src/process/process.c:74-93 | with no frame free the size 0xFFC0_0000 is accepted and the new process's page stays unmapped |
| KernelExact.KillCodeExact | src/interrupt/interrupt.c:175-196 | the kill call reports success exactly for live processes, and for 0 while a slot is free |
| KernelExact.KillAnswers | src/interrupt/interrupt.c:175-196 | the call answers 0 for a number that a live process has, or 0 while a slot is free, and 1 for every other |
| KernelMachine.PcbQueue.Enqueue | src/scheduler/pcbqueue.c:8-15 | appends at the end; a full queue drops the process silently |
| KernelMachine.PcbQueue.Dequeue | src/scheduler/pcbqueue.c:17-30 | takes the head and shifts the rest up |
| KernelMachine.PcbQueue.Remove | src/process/process.c:165-180 | removes the first occurrence only |
| KernelMachine.RemoveAt | src/process/process.c:165-180 | what is removed is the first occurrence, and the order of the rest is kept |
| KernelMachine.PageManager.AllocateUserPageFrame | src/paging/paging.c:70-107 | takes the first clear frame and maps it for the user, as AllocateKeeps requires; fails without a change when the count is zero |
| KernelMachine.PageManager.FreeUserPageFrame | src/paging/paging.c:109-146 | clears the frame that a present entry maps and the entry with it; fails without a change on an absent entry |
| KernelMachine.PageManager.CreateNewPageDirectory | src/paging/paging.c:148-180 | takes the first unused directory and maps the kernel in it; null when all are used |
| KernelMachine.PageManager.FreePageDirectory | src/paging/paging.c:182-202 | succeeds exactly on a directory of the list and clears it, leaving it marked as used |
| KernelMachine.Machine.TimerInterrupt | src/interrupt/interrupt.c:58-71 | saves, rotates and resumes; keeps the kernel's invariants |
| ProcessLoading.CreateUserProcess | src/process/process.c:55-136 | the whole new state and code of a creation that reads its program through the driver; on success the memory begins with the file's bytes |
| KernelMachine.Machine.DestroyProcess | src/process/process.c:138-191 | the whole new state of every kill of a process that exists, and exactly when it is consistent and maps the kernel everywhere |
| KernelMachine.Machine.KillCall | src/interrupt/interrupt.c:175-196 | for every pid: the specified code, the whole new state, and exactly when it is consistent |
| ProcessLoading.Boot | src/kernel.c:52-56 | from empty tables and a disk whose shell can be read, the kernel reaches the boot state in which every invariant holds |
| KillCommand.KilledNamesLive | src/shell/commands/commands.c:1455-1511 | a typed text that is found is the number of a live process, or zero |
| KillCommand.PrintedPidIsFound | src/shell/commands/commands.c:1455-1511 | the printed pid of every live process is found and names that process |
| KillCommand.Kill | src/shell/commands/commands.c:1455-1511 | from the text to the process table, for every text: invalid exactly if it is no signed number up to INT32_MAX, killed exactly if a live process has that number (or it is 0 and a slot is free), not found otherwise; exactly that process goes; the whole new state, and exactly when it is consistent |
| KillCommand.KilledSlots | src/process/process.c:138-191 | of the live processes a kill takes away exactly the one with that number |
| Registers.SaveThenResume | src/kernel-entrypoint.s:113-141 | loading what was saved is the identity if and only if the stack segment is the user's and `ds` is of ring 1 to 3 |
| Registers.PreemptedResumesIntact | src/interrupt/interrupt.c:54-72 | a process preempted in a user state is handed that state again after any legal run in which it waits |
| Registers.Processor.EnterHandler | src/interrupt/intsetup.s:5-54 | word by word from the top of the stack, the frame saves the user state, with the user's stack pointer patched in if `ds` is of ring 1 to 3 |
| Registers.Processor.LeaveHandler | src/interrupt/intsetup.s:56-72 | a handler that returns goes back to exactly the interrupted user state |
| Registers.Processor.ContextSwitch | src/kernel-entrypoint.s:113-141 | every word of the context reaches the register of its offset |
| Registers.Processor.SaveAndResume | src/interrupt/interrupt.c:54-72 | stub, handler and switch together are the identity on user states exactly under the condition of SaveThenResume |
| ShellPaths.TruePathIsStack | src/shell/datastructure/dirtablestack.c:8-13 | a stack that is a path in the tree is the one stack of its last directory |
| ShellPaths.PeekReads | src/shell/datastructure/dirtablestack.c:28-39 | on such a stack peek reads the table of the directory on top |
| ShellPaths.PeekExact | src/shell/datastructure/dirtablestack.c:28-39 | a directory's stack brings its table back if and only if the directory has no extension |
| ShellPaths.SearchableExact | src/shell/commands/commands.c:1289-1339 | the search reads the table of the directory it is in, at every directory and within its 128 places, if and only if the tree is one that Find accepts |
| ShellPaths.SearchableMeans | src/shell/datastructure/dirtablestack.c:8-39 | that is, if and only if no directory has an extension and none lies too deep |
| ShellFind.FindSound | src/shell/commands/commands.c:1289-1339 | every report is a live entry of that name in the searched subtree |
| ShellFind.FindComplete | src/shell/commands/commands.c:1289-1339 | every live entry of that name in the searched subtree is reported |
| ShellFind.FindSorted | src/shell/commands/commands.c:1289-1339 | reports come in strict pre-order of their slots |
| ShellFind.FindExact | src/shell/commands/commands.c:1253-1287 | over the whole tree, exactly the directories that hold the name are reported, each once |
| DirStack.DirTableStack.Push | src/shell/datastructure/dirtablestack.c:8-13 | the table's own cluster and name come on top |
| DirStack.DirTableStack.Pop | src/shell/datastructure/dirtablestack.c:15-26 | the top goes, unless it is the only element |
| DirStack.DirTableStack.Peek | src/shell/datastructure/dirtablestack.c:28-39 | the table found by the top's name in the directory below it; the caller's own table if there is none |
| DirStack.DirTableStack.DeepCopyFrom | src/shell/datastructure/dirtablestack.c:49-62 | the copy holds what the source holds, and the source is unchanged |
| ShellFind.LinesExact | src/shell/commands/commands.c:1289-1339 | a line with the path of a directory is printed exactly when that directory holds the name, no line twice and no other line |
| ShellFinder.Finder.FindHelper | src/shell/commands/commands.c:1289-1339 | prints exactly the specified lines, each with the path of its directory |
| ShellFinder.Finder.Find | src/shell/commands/commands.c:1253-1287 | the same from the root, so that of the lines added one with the path of a directory is there exactly when it holds the name; and one more line for names that begin with "root" |
| ShellCd.StepWalks | src/shell/commands/commands.c:219-256 | away from the root's own name, one token is followed if and only if the tree has that step, and the stack stays a true path |
| ShellCd.RootAgainStutters | src/shell/commands/commands.c:246-255 | a followed token leaves a stack that is no true path if and only if it is the root's name in the root |
| ShellCd.ResolveWalks | src/shell/commands/commands.c:197-261 | a path that does not meet the root's name in the root resolves exactly as a walk in the tree, and ends on the stack of the directory reached |
| ShellPlaces.ResolvePlaces | src/shell/commands/commands.c:197-261 | every path: each "root" met in the root leaves one more copy of the root below the stack, which one ".." takes away; with these copies counted, success and stack are exactly the walk's |
| ShellPlaces.PathPlace | src/shell/datastructure/dirtablestack.c:8-26 | every stack that cd can leave is a number of extra copies of the root below the stack of one directory |
| ShellPlaces.ResolveAgrees | src/shell/commands/commands.c:197-261 | cd and the walk in the tree agree on success if and only if the walk does not meet that name there, or the walk that counts the extra roots fails later |
| ShellPlaces.ShallowExact | src/shell/datastructure/dirtablestack.c:8-13 | a path keeps within the 128 places of the stack if and only if nowhere on it the extra roots and the depth of the directory make more than 127 |
| ShellPlaces.RootsPileUp | src/shell/commands/commands.c:246-255 | n tokens "root" in the root leave n more roots on the stack, so repeated calls outgrow it |
| ShellCd.ResolveKeepsPath | src/shell/commands/commands.c:197-261 | whatever its tokens, a path that is followed leaves a stack whose every top can be read |
| ShellLaws.DotPaths | src/shell/commands/commands.c:226-242 | the path ".." leaves the stack without its last element and fails when that is the only one; "." leaves it as it is |
| ShellLaws.PlainName | src/shell/utils/shellutils.c:31-52 | a token of up to eight bytes without a dot means those bytes padded with zeroes, and no extension |
| ShellLaws.DottedName | src/shell/utils/shellutils.c:31-52 | otherwise name and extension stand on the two sides of the first dot |
| ShellLaws.DottedFails | src/shell/commands/commands.c:240-244 | a token with bytes behind its first dot is refused, except ".." |
| ShellLaws.NameFollows | src/shell/commands/commands.c:246-255 | any other name is followed exactly to a directory of that name, which comes on top of the stack |
| ShellLaws.RootFollows | src/shell/commands/commands.c:246-255 | the name "root" is followed in the root itself, and puts the root on top once more |
| ShellLaws.SlashSplits | src/shell/commands/commands.c:208 | paths are split at the slashes |
| ShellLaws.PathInTwo | src/shell/commands/commands.c:197-261 | a path x/y leads where x and then y lead |
| ShellLaws.ThereAndBack | src/shell/commands/commands.c:226-255 | a directory's name followed by ".." leads back to the same stack |
| ShellCd.EmptyTokenFails | src/shell/commands/commands.c:197-261 | no path with an empty token is followed, wherever that token stands |
| ShellCd.SlashFails | src/shell/commands/commands.c:197-261 | so a path that is empty, begins or ends with a slash, or has two in a row is refused |
| ShellNames.ParseFileName | src/shell/utils/shellutils.c:31-52 | splits a name at its first dot into the two zero-padded buffers |
| ShellCommands.Cd | src/shell/commands/commands.c:197-261 | succeeds exactly when the path resolves and then leaves that stack, ".." dropping the last element and "." nothing; on failure the stack is unchanged |
| Tokens.SplitJoins | src/stdlib/string-lib.c:107-131 | there is one token more than delimiters, and joining them gives the text back |
| Tokens.SplitUndelimited | src/stdlib/string-lib.c:14-56 | no token holds a delimiter |
| Tokens.JoinSplits | src/stdlib/string-lib.c:107-131 | conversely, delimiter-free tokens joined by delimiters split into themselves |
| Tokens.EmptyTokenExact | src/stdlib/string-lib.c:107-131 | some token is empty if and only if the text is empty, begins or ends with a delimiter, or has two in a row |
| Tokens.Tokenizer.First | src/stdlib/string-lib.c:14-56 | starts on a new string and cuts its first token off in place |
| Tokens.Tokenizer.Next | src/stdlib/string-lib.c:14-56 | cuts the next token off in place, and reports the end exactly once |
| Tokens.Tokenizer.Parse | src/stdlib/string-lib.c:107-131 | fills one zero-padded row per token and none beyond; the string ends with exactly its delimiters zeroed |
| Tokens.StrNCopy | src/stdlib/string-lib.c:92-105 | the first n bytes of the row become the string, cut off or padded with zeroes; the rest of the row and the other rows are untouched |
| Decimals.NumeralValue | src/kernelutils/kernelutils.c:50-84 | the printed digits have the value of the number |
| Decimals.TextBytes | src/kernelutils/kernelutils.c:50-84 | the printed bytes: "-" before a negative number, then the digits "0" to "9", the units last |
| Decimals.PrintableExact | src/kernelutils/kernelutils.c:50-84 | a 32-bit number and its terminator fit the buffer if and only if it lies in [-999999999, INT32_MAX] |
| Decimals.Printer.IntToString | src/kernelutils/kernelutils.c:50-84 | the buffer holds the terminated text of the number: the byte 0x30 + d for a digit d, 0x2D first for a negative number, and no leading zero |
| Decimals.Printer.Flip | src/kernelutils/kernelutils.c:71-80 | the in-place reversal reverses that part of the buffer and keeps the rest |
| Decimals.NumberValue | src/shell/commands/commands.c:1455-1502 | a number's value, byte by byte: each digit adds to ten times what comes before, "-" negates and "+" does not |
| Decimals.ShortNumbers | src/shell/commands/commands.c:1463-1493 | a single byte is a number exactly if it is one of "0" to "9", and so it is after "-" and "+" |
| Decimals.ParsePid | src/shell/commands/commands.c:1455-1502 | accepts exactly an optional "-" or "+" and digits "0" to "9" of magnitude up to 2147483647, with the right value and no intermediate overflow |
| Decimals.ParsePrinted | src/shell/commands/commands.c:1455-1502 | parsing undoes printing |

## Left out

- FatDriver.Driver.Write: the caller's buffer must hold whole clusters, because the source copies whole clusters; a write that never returns (`FatCalls.ReturnsExact`) has no new state to describe.
- FatDriver.Driver.FillAll: is the loop for the counts for which it ends; `FatOps.LoopEnds` says which, and what the counter does otherwise.
- FatDriver.Driver.Read: the parent must be a directory of the volume, as for every caller in the shell; on other clusters the source interprets arbitrary bytes as a table, whose cluster numbers may lie outside the disk or form a cycle.
- FatDriver.Driver.ReadDirectory: the parent must be a directory of the volume, for the same reason.
- FatRead.ReadIsAbstract: the parent must be a directory of the volume, for the same reason.
- FatRead.ReadDirIsAbstract: the parent must be a directory of the volume, for the same reason.
- FatDriver.Driver.Delete: the parent cluster must lie on the disk; on a cluster that is no directory the source refuses, and the model does so too.
- ProcessLoading.CreateUserProcess: the parent must be a directory of the volume, the memory must hold whole clusters, and a directory must be left (the source uses the null that it gets otherwise, and `KernelSupply.SupplyExact` says when); a program whose clusters are not all mapped faults while it is loaded, and `KernelSpaces.LoadCovered` says which those are; the name and the memory fields of a process are not part of this model.
- ProcessLoading.Boot: needs a shell that can be read; `KernelRuns.BootExact` shows that otherwise the source's scheduler takes a process from an empty queue.
- KernelMachine.Machine.DestroyProcess: a pid that no slot holds is excluded, because the source then uses a null pointer; its only caller checks for it.
- KernelRuns.StepKeeps: runs contain only kills that are neither of the running nor of the first process, because `KernelExact.DestroyExact` shows that the others leave no consistent kernel; the reuse of page directories is not modelled, because the source never makes a freed one available again.
- ShellFinder.Finder.Find: needs directories without extension and at most 128 deep, because the stack keeps names only and has 128 places; below a directory with an extension the source searches a table it never read, and deeper trees overrun the stack (`ShellPaths.SearchableExact`, `SearchableMeans`).
- ShellFinder.Finder.FindHelper: needs the same as Find.
- ShellCommands.Cd: no prefix of the path may need more than the 128 places of the stack, which the source overruns (`ShellPlaces.ShallowExact` says which paths do, and `RootsPileUp` shows some); paths have at most twelve tokens of at most 127 bytes, names of at most eight and extensions of at most three, because the source's buffers have that size; the source parses each name twice and the first result is overwritten.
- Tokens.Tokenizer.Parse: more than twelve tokens or longer ones overrun the rows in the source and are excluded.
- Registers.Processor.SaveAndResume: descriptor checks, flags other than the zero flag, and the address-space switch itself are not modelled; the switch is the field `cr3` of the process model.
- Names and paths are reported as bytes with their padding, and `find` appends lines to a sequence instead of drawing characters.
- Port input and output, the disk controller, frame buffer, keyboard, timer and interrupt-controller programming, and the segment and interrupt descriptor tables.
- Flushes of the translation buffer (`invlpg`) and the set-up of the TSS.
- `ls`, `cat`, `ps`, `exec`, `clock` and `help`, which only display or pass on what is modelled here.
- Recursive `rm`: it deletes the files of a subdirectory under the parent's cluster number (src/shell/commands/commands.c:1145), so no clean contract holds.
- `cp` and `mv`: the copy writes a buffer that was never read (src/shell/commands/commands.c:761), so no clean contract holds.
- Crash consistency: the invariant is claimed after each call, not between the cluster writes of one call.
- The time stamps and the undelete flag of an entry are kept as raw bytes, which the driver never interprets.
