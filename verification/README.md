# Storage manager: a verified model

A Dafny model of the stateful parts of a Linux storage manager written in C: a kernel module that
counts device operations, a backup engine on hard links, an IPC server, a worker supervisor, a rate
sampler, the parsers of LVM listings and the device list of a RAID array. The operating system is a
small explicit model: an inode store, sets of open descriptors and of children, and a clock. What the
kernel, SQLite, rsync and the other external tools answer is an argument of the model unless an
assumption below fixes it, so each statement holds for every answer the assumptions allow.

Each part has a specification on values (functions, and state machines whose runs are sequences of
labelled steps), lemmas about every run of it, and classes and methods in the form of the C code that are
proved equal to the specification.

| file | what it models |
|---|---|
| `KernelStats.dfy` | `kernel_module/storage_stats.c`: find-or-create, the unlocked index read, update and reset, as steps of any number of threads |
| `HardLinkStore.dfy` | rsync with and without `--link-dest`, and `rm -rf`, over inodes shared by hard links |
| `BackupCatalogue.dfy` | creation, listing and keep-N cleanup on database rows and directories |
| `BackupRuns.dfy` | every history of creations and cleanups, and restore |
| `BackupCopies.dfy` | the same histories on plain copies instead of hard links |
| `BackupOrder.dfy` | the histories in which the clock advances between creations and every row is inserted |
| `BackupEngine.dfy` | the engine's entry points and the backup of an LVM snapshot |
| `IpcServer.dfy`, `IpcLoop.dfy` | the client table and the select loop |
| `Workers.dfy` | fork, record, reap, monitor and shut down, with SIGCHLD at any point |
| `WorkerLabels.dfy` | what the worker table shows, read off the labels of a run |
| `RateSampler.dfy` | rates from a remembered reading |
| `CommandOutput.dfy` | bounded capture of a command's output |
| `LvmListing.dfy`, `Decimals.dfy` | sscanf, strtok and the LVM listing parsers |
| `RaidDevices.dfy` | the lines of an mdadm listing and the sixteen device slots of a RAID status |
| `RaidSpare.dfy` | a listing of fifteen devices and a spare |
| `Common.dfy` | the option type, the machine word and clipped names |

## Findings

Some expected properties do not hold of the code. The model keeps the code as it is, and states exactly
when the property holds.

- The address of a newly created statistics slot is computed from `device_count` after the lock is
  released (kernel_module/storage_stats.c:69-70). An operation is credited to its own device exactly when
  its slot was found, or no other thread has created a slot before the read
  (`KernelStats.IndexReadIsOwnIff`, `KernelStats.CreditsOwnDeviceIff`, `KernelStats.CreditedOwnIff`); otherwise it goes to the other
  thread's device (`KernelStats.DisturbedWitness`). The totals over all slots are right in any case
  (`KernelStats.Conservation`).
- A device name over 63 bytes never matches its stored, clipped copy, so a later lookup creates a second
  slot of the same name (`KernelStats.LookupKeepsDistinctIff`, `KernelStats.LongNameWitness`), and the
  monitor never reports a rate for it (`RateSampler.RatedIffNameFits`, `RateSampler.TakenForItselfIff`). A
  device whose name is the clipped form of the one read before is taken for it, and gets the difference of
  the two devices' counters as its rate (`RateSampler.ClippedNameWitness`).
- A backup that reports success holds its source exactly when equal size and modification time meant equal
  content against the newest backup; in a new directory it never does for `BACKUP_DIFFERENTIAL` unless the
  source is empty: no rsync command is built for it and the buffer still holds the `mkdir` command
  (`BackupCatalogue.CreateFaithfulIff`). Both failures occur after any history
  (`BackupRuns.UnnoticedEditIsLost`, `BackupRuns.DifferentialIsEmpty`), and a history of each is given
  (`BackupRuns.UnnoticedEditWitness`, `BackupRuns.EmptyDifferentialWitness`). The newest row is used as the
  link-dest directory even if that backup failed; this does no harm to the new backup.
- Two creations with the same id, which names a second of local time, share a directory, and only the first
  has a row. It still shows what it did exactly when the quick check accepts its files for every file the
  second copies (`BackupCatalogue.SameSecondKeepsIff`); a history in which it does not is given
  (`BackupRuns.SameSecondWitness`).
- `daemon_shutdown` tests the pid of a slot and reads it again for `kill` (src/daemon.c:344-346, 353-356).
  Only workers are signalled exactly when no slot is vacated by the SIGCHLD handler in between; otherwise
  the pid is 0 and the daemon's whole process group is signalled (`Workers.OnlyWorkersSignalledIff`,
  `Workers.GroupSignalWitness`).
- A worker reaped between `fork` and the increment of `worker_count` leaves a busy slot with a dead pid
  until the next monitor pass (`Workers.WindowReapWitness`, `Workers.StaleSlots`). Slots are not reused, so
  the daemon forks at most ten workers in its life (`Workers.WorkersAreBounded`).
- A sample on the remembered device without the clock having advanced keeps whatever rates the caller's
  structure held before; in every other case the rates do not depend on it
  (`RateSampler.RatesIgnoreGivenIff`). Such a sample also swallows the operations since the reading before
  it, and so does a reading remembered while the clock was not positive (`RateSampler.OpsConserved`).
- `ipc_server_cleanup` leaves `num_clients` at its last value, which is then the number of active slots
  exactly when no client was active (`IpcServer.CleanupClosesEverythingOnce`); until then it always is.
- The first line of `mdadm --detail` names the array itself, and that name takes the first slot
  (`RaidDevices.ArrayNameTakesSlot`). With a device count below sixteen throughout, every device named is
  held exactly when there are at most fifteen besides (`RaidDevices.OthersHeldIff`), so an array of fifteen
  devices and a spare loses the spare (`RaidSpare.SpareIsLostWitness`). For an array of sixteen or more
  devices nothing is collected once the device count has been read (`RaidDevices.WideArrayStops`).

## Model

| member | source | states |
|---|---|---|
| `KernelStats.Conservation` | kernel_module/storage_stats.c:43-126 | in every interleaving of lookups, index reads, updates and resets, the sum over all slots of each counter is the total of the update sections executed since the last reset, and each slot's op_count is its reads plus its writes, modulo the word |
| `KernelStats.EveryRunIsSafe` | kernel_module/storage_stats.c:89-126 | each slot holds the tally of exactly the update sections executed on it since the last reset; indices held by threads stay inside the table |
| `KernelStats.NamesStayDistinct` | kernel_module/storage_stats.c:47-69 | with names of at most 63 bytes, stored names stay distinct in every interleaving, and a thread that has just created a slot finds its name in the newest one exactly when it was the last to create |
| `KernelStats.LookupKeepsDistinctIff` | kernel_module/storage_stats.c:50-68 | one lookup keeps names distinct if and only if it creates nothing, the name fits, or its clipped form is not stored yet |
| `KernelStats.LongNameWitness` | kernel_module/storage_stats.c:50-68 | a run of two lookups of one name of 64 bytes after which two slots hold the same name |
| `KernelStats.IndexReadIsOwnIff` | kernel_module/storage_stats.c:68-70 | the unlocked index read yields the thread's own device if and only if no other thread created a slot since |
| `KernelStats.CreditsOwnDeviceIff` | kernel_module/storage_stats.c:68-100 | per update section, in every interleaving: the slot about to be credited names the operation's own device if and only if it was found by the lookup or its index was read before any other creation |
| `KernelStats.CreditedOwnIff` | kernel_module/storage_stats.c:68-126 | in every interleaving: each operation since the last reset was credited to its own device if and only if each had its own index, whatever happened before the reset |
| `KernelStats.PerDeviceAttribution` | kernel_module/storage_stats.c:80-126 | in every interleaving in which the sections since the last reset had their own index, every tracked device holds exactly its own operations since then |
| `KernelStats.DisturbedWitness` | kernel_module/storage_stats.c:69-70 | a run of two threads after which one device has the other's write and its own slot is empty |
| `KernelStats.SerialUpdateRefinesMap` | kernel_module/storage_stats.c:78-102 | a call with no other thread inside updates a map from name to counters, capped at sixteen keys; a further device is dropped |
| `KernelStats.SerialRunsRefineMap` | kernel_module/storage_stats.c:78-126 | any sequence of such calls and resets is the map specification run on the same calls |
| `KernelStats.Average` | kernel_module/storage_stats.c:152-153 | the printed average is the floor of latency over operations, and 0 without operations |
| `KernelStats.StatsTable.FindOrCreate` | kernel_module/storage_stats.c:47-74 | the locked search and creation is the lookup of the state machine |
| `KernelStats.StatsTable.AddOperation` | kernel_module/storage_stats.c:89-102 | the second critical section is the update of the state machine |
| `KernelStats.StatsTable.UpdateStorageStats` | kernel_module/storage_stats.c:78-107 | a whole call refines the map specification, and reports whether the device is tracked |
| `KernelStats.StatsTable.ResetStats` | kernel_module/storage_stats.c:111-126 | the counters of the tracked slots are zero and nothing else changed |
| `KernelStats.StatsTable.Show` | kernel_module/storage_stats.c:140-174 | one row per tracked device in table order, with its operations and bytes each way, their totals modulo the word, and its average latency |
| `HardLinkStore.RemoveKeepsOthers` | src/backup_engine.c:624-625 | removing directories leaves every other directory as it was, whatever inodes they share |
| `HardLinkStore.RsyncKeepsOthers` | src/backup_engine.c:286-288 | a transfer leaves every directory but its target as it was |
| `HardLinkStore.RsyncView` | src/backup_engine.c:272-297 | whether or not its target existed, a transfer leaves it showing, for each path, what was there if the source lacks the path or the quick check accepts it, else the link-dest file if the quick check accepts that, else the source file |
| `HardLinkStore.TransferredIff` | src/backup_engine.c:286-288 | the target becomes the source if and only if it held no other file and equal size and time meant equal content, against the target where the quick check accepts it and against link-dest elsewhere |
| `HardLinkStore.MergedUnchangedIff` | src/backup_engine.c:286-288 | an existing directory shows the same after a transfer if and only if the quick check accepts what it shows for every file of the source |
| `HardLinkStore.OverlayReproducesIff` | src/backup_engine.c:574-576 | restoring into a directory reproduces every file of the backup if and only if the quick check is honest about what was there; other files survive; an empty directory becomes the backup |
| `BackupCatalogue.NewestFirstIsUnique` | src/backup_engine.c:403-405 | with distinct timestamps there is one listing, newest first |
| `BackupCatalogue.CreateKeepsViews` | src/backup_engine.c:245-357 | a creation leaves every other directory as it was |
| `BackupCatalogue.CreateFaithfulIff` | src/backup_engine.c:272-324 | a successful creation, in a new directory or not, holds exactly its source if and only if its directory held no other file and the quick check was honest about it and the newest backup; for a differential backup, if and only if its directory showed the source already |
| `BackupCatalogue.CreateReaches` | src/backup_engine.c:245-324 | a creation, successful or not, leaves every path the command does not reach as it was, and shows for every other path a file with the size and time of the source file |
| `BackupCatalogue.CreateRecords` | src/backup_engine.c:252-284 | a creation adds one row, unless the database is closed or has its id: id, time, kind and directory of the request, success as the command ended, and as parent a row as new as any for an incremental backup when there is one, none otherwise |
| `BackupCatalogue.SameSecondKeepsIff` | src/backup_engine.c:245-357 | a second creation with the id and directory of the first adds no row, and leaves the directory as it was if and only if the quick check accepts its files for every file copied |
| `BackupCatalogue.CleanupKeepsNewest` | src/backup_engine.c:602-637 | cleanup with a count k of at least 0 keeps min(n, k) rows, each at least as new as every removed one, for any order of ties |
| `BackupCatalogue.CleanupRemovesExactly` | src/backup_engine.c:619-637 | the directories removed are exactly those of the removed rows, and all others show what they showed |
| `BackupCatalogue.CleanupComposes` | src/backup_engine.c:602-642 | with distinct timestamps, cleaning with k1 and then k2 equals cleaning once with the smaller, rows, directories and inodes alike |
| `BackupRuns.EveryHistoryKeepsInv` | src/backup_engine.c:245-357 | over every sequence of creations and cleanups, ids and clock as they may be: row ids are distinct, every row and directory comes from a creation, every row has its directory, no hard link dangles, and a directory last written by a backup that reported success shows its source if and only if that backup was faithful when made |
| `BackupRuns.CreationIsRecorded` | src/backup_engine.c:276-352 | over every history, for each creation: its row says what its request says, its parent is a row as new as any there was just before it if it is incremental and there was one, and none otherwise; and the row is inserted unless its id was there |
| `BackupOrder.CatalogueIsSuffix` | src/backup_engine.c:276-290 | after any history with advancing timestamps and successful inserts the rows are a contiguous suffix of the creations; every row but the oldest has the one before it as its parent if it is incremental, and no parent otherwise; a recorded parent is the creation just before, so only the oldest row can name a missing one; ids may step back |
| `BackupOrder.ParentChainsEnd` | src/backup_engine.c:283-284 | parent chains end at a creation without a parent, through consecutive creations |
| `BackupRuns.KeptBackupsRestoreIff` | src/backup_engine.c:555-599 | after any history, with ids used again and the clock set back, a backup that reported success, whose row was kept and whose directory no later creation went into restores into an empty directory to exactly its source as it was at creation, if and only if it was faithful then, also when the backup it is linked with has been removed |
| `BackupCopies.HardLinksRefineCopies` | src/backup_engine.c:245-357 | after any history, hard-linked directories show exactly what they would if every backup were a copy of its own |
| `BackupCopies.RowsRestoreCopies` | src/backup_engine.c:555-599 | after any history, every row restores into an empty directory to its copy, also when its directory was written more than once |
| `BackupRuns.UnnoticedEditIsLost` | src/backup_engine.c:276-297 | after any history, an edit that keeps length and time is missing from the next incremental backup, which reports success |
| `BackupRuns.NoticedEditIsKept` | src/backup_engine.c:272-297 | after any history, a file that is new or changed its length or its time since the newest backup is restored from the next full or incremental backup as it was |
| `BackupRuns.DifferentialIsEmpty` | src/backup_engine.c:251-324 | after any history, a differential backup reports success and restores to an empty tree |
| `BackupRuns.UnnoticedEditWitness` | src/backup_engine.c:276-297 | a history of two backups, the second of which reports success and restores to the file of the first |
| `BackupRuns.EmptyDifferentialWitness` | src/backup_engine.c:251-324 | a history of one differential backup of a file, which reports success and restores to nothing |
| `BackupRuns.RepeatReplaces` | src/backup_engine.c:245-357 | after any history, a faithful full backup into the directory of a row adds no row and replaces what that row restores to |
| `BackupRuns.SameSecondWitness` | src/backup_engine.c:245-357 | a history of two full backups in one second: the first reported success, has the only row, and restores to the file of the second |
| `BackupEngine.Engine.CreateBackup` | src/backup_engine.c:245-357 | the code of a creation is the specified one, whose row, directory and parent the lemmas above describe, and its return code |
| `BackupEngine.Engine.CleanupOld` | src/backup_engine.c:602-642 | the cleanup loop, its early exits and its return code |
| `BackupRuns.RestoreMeans` | src/backup_engine.c:555-599 | a restore that runs leaves every file as in the backup or as it was; when it succeeds it reproduces every file of the backup if and only if the quick check is honest about the target, keeps the other files, and makes an empty target the backup |
| `BackupEngine.Engine.RestoreBackup` | src/backup_engine.c:555-599 | the code of a restore: an unknown id or a command that does not start leaves the target alone; otherwise the result is the restore of the histories, with what it means for the target |
| `BackupEngine.SnapshotHost.CreateWithSnapshot` | src/backup_engine.c:360-395 | on every path, also after calls that left something behind and over a mount point in use, the successful commands undo each other in bracket order; pending steps and snapshots are as before the call if and only if its undo commands succeed, and mounts if and only if the unmount does; once mounted, state and result are those of the inner backup |
| `BackupEngine.UndoneAreMatched` | src/backup_engine.c:360-395 | bracket order means that every removal has its creation and every unmount its mount before it, and what is pending are exactly those without |
| `IpcServer.EveryRunKeepsInv` | src/ipc_server.c:99-149 | over every run of rounds and disconnections, active slots hold distinct open descriptors, the open ones are exactly theirs, num_clients is their number from 0 to 64, and each connection is open and unanswered or closed once and answered at most once |
| `IpcServer.EveryAnswerIsRight` | src/ipc_server.c:167-215 | over every run, each answer follows its request on the same connection with its id, and the number in a status answer is the number of connections accepted and not closed when it was sent |
| `IpcServer.DisconnectCloses` | src/ipc_server.c:135-149 | a disconnection takes exactly the descriptor out of the active set and closes its connection once; one that is not active changes nothing |
| `IpcServer.RoundSets` | src/ipc_server.c:296-342 | one round makes the active set (active plus the newcomer if fewer than 64) minus the ready set, with num_clients its size, and the newcomer survives its round; a round in which select timed out changes nothing |
| `IpcServer.RoundClosesReady` | src/ipc_server.c:322-341 | a client found readable is closed in that round |
| `IpcServer.RoundAnswersRequests` | src/ipc_server.c:327-330 | a client found readable is answered once in that round if a whole request could be read from it, and not at all otherwise |
| `IpcServer.RoundAnswersReady` | src/ipc_server.c:327-334 | what that answer says, also after another client asked for shutdown: the number after "Clients:" is the size of the set of clients active at that moment, which are those at the start and the newcomer without the ready ones in earlier slots |
| `IpcServer.RoundRunning` | src/ipc_server.c:171-182 | the loop goes on after any round, one that timed out included, if and only if no ready client asked for shutdown in it |
| `IpcServer.AnswerIsWholeText` | src/ipc_server.c:167-215 | an answer carries the id of its request and its data is the whole text and its terminator, at most 8192 bytes; a status answer reads "Running:1 Clients:" and the number of clients and " Uptime:" and the uptime, both as decimals that read back as themselves, the uptime with its sign |
| `IpcServer.HandleFits` | src/ipc_server.c:190-215 | for any uptime, data_size is the length of the data with its terminator, or 0 with an error message |
| `IpcServer.CleanupClosesEverythingOnce` | src/ipc_server.c:77-92 | after cleanup no accepted descriptor is open and every connection ever accepted, refused ones included, has been closed exactly once; num_clients keeps its value, which is the number of active slots if and only if nobody was active |
| `IpcLoop.Server.AcceptClient` | src/ipc_server.c:99-133 | the first free slot is taken, or the connection is closed at once when there is none |
| `IpcLoop.Server.DisconnectClient` | src/ipc_server.c:135-149 | the slot holding the descriptor is closed, if there is one |
| `IpcLoop.Server.Watch` | src/ipc_server.c:297-309 | the watched set is the listening socket and the active clients, and max_fd is its largest member |
| `IpcLoop.Server.HandleRequest` | src/ipc_server.c:167-215 | dispatch and response are the specified ones, whose text the lemmas above read, and the effect of a shutdown request |
| `IpcLoop.Server.ServeReady` | src/ipc_server.c:321-342 | the serving loop is the specification of a round's second half |
| `IpcLoop.Server.RunRound` | src/ipc_server.c:296-342 | one turn of the loop, with the timeout case; max_fd is the largest watched descriptor and covers all that select may report |
| `IpcLoop.Server.Run` | src/ipc_server.c:292-346 | the loop is the rounds in sequence until the server stops |
| `IpcLoop.Server.CleanUp` | src/ipc_server.c:77-87 | every active slot is closed and nothing stays open |
| `Workers.EveryRunKeepsInv` | src/daemon.c:239-361 | in every state reachable by any timing of exits and of the handler, also between the test of a slot and the signal: the table and the children agree |
| `Workers.OneSlotPerChild` | src/daemon.c:276-300 | outside its fork-to-increment window, an unreaped child is in exactly one published slot, as busy |
| `Workers.StaleSlots` | src/daemon.c:247-263 | an occupied slot names a dead child if and only if that child was reaped in its own window; it is then the newest slot and the next monitor pass empties it |
| `Workers.MonitorRepairs` | src/daemon.c:306-329 | after a monitor pass the positive pids are exactly the unreaped children and the count returned is their number; slots of dead children are failed and empty, and every other slot is as it was |
| `Workers.WorkersAreBounded` | src/daemon_main.c:190-211 | in every run there are never more than 3 unreaped workers, and never more than 10 successful forks in all |
| `WorkerLabels.ForksAreSpaced` | src/daemon_main.c:189-211 | in every run there are at least 30 ticks of the main loop between two forks |
| `WorkerLabels.EmptySlots` | src/daemon.c:247-263 | over every run, read off its labels: a published slot is busy with the child of its fork or empty; it is idle if and only if the handler vacated it and its child exited normally; it is failed if its child was killed by a signal and the handler vacated it; a monitor pass changes no empty slot |
| `Workers.ShutdownReachesEveryone` | src/daemon.c:338-361 | when shutdown is over, every worker there was at its start was sent SIGTERM or reaped in the first loop before its signal, and every worker still running was sent SIGKILL |
| `Workers.OnlyWorkersSignalledIff` | src/daemon.c:343-359 | all signals of shutdown went to workers there were at its start if and only if no slot was vacated between its test and the use of its pid; otherwise the process group was signalled |
| `Workers.GroupSignalWitness` | src/daemon.c:344-346 | a run in which a worker is reaped between test and kill, and SIGTERM goes to the process group |
| `Workers.WindowReapWitness` | src/daemon.c:276-300 | a run that leaves a busy slot for a dead child |
| `Workers.Supervisor.ReapOne` | src/daemon.c:247-264 | exactly the published slot of the pid is vacated, idle after a normal exit and failed otherwise |
| `Workers.Supervisor.ReapZombies` | src/daemon.c:239-266 | every exited child is reaped and exactly the published slots of those children are vacated, idle after a normal exit and failed otherwise |
| `Workers.Supervisor.MonitorWorkers` | src/daemon.c:306-329 | slots of children that are gone become failed and empty, and the others are counted |
| `Workers.Supervisor.SpawnWorker` | src/daemon.c:268-304 | a full table or a failed fork changes nothing and returns -1; otherwise the next slot is busy with the new child |
| `RateSampler.OpsConserved` | src/monitor.c:163-185 | over any stretch of calls on one device, for any clock: final minus first operations is rate times time summed over the calls that report rates plus exactly what the other calls absorb |
| `RateSampler.BytesConserved` | src/monitor.c:163-185 | the same for bytes |
| `RateSampler.StretchOfRunConserved` | src/monitor.c:146-188 | in a run over any devices with any failed reads, the samples of every stretch of successful calls on one device are those of the two lemmas above, and rate times time plus what is absorbed adds up |
| `RateSampler.SteadyClockAbsorbsNothing` | src/monitor.c:163-165 | a positive clock that advances at every call absorbs nothing |
| `RateSampler.RatesIgnoreGivenIff` | src/monitor.c:163-182 | the sample does not depend on what the caller's structure held if and only if it is not a call on the remembered device with no time elapsed |
| `RateSampler.EverySample` | src/monitor.c:146-188 | every sample of every run over any devices and failed reads: its time is its clock; both rates are zero if no call succeeded before it, or the last one that did was at a clock that was not positive or on a device not taken for this one; they are the caller's if no time elapsed since; otherwise they are the gain of the counters since then, modulo the word, over the time |
| `RateSampler.TakenForItselfIff` | src/monitor.c:117-163 | names of at most 63 bytes are taken for themselves only, and a longer one never for itself |
| `RateSampler.ClippedNameWitness` | src/monitor.c:117-163 | two devices whose names share 63 bytes, of which the second gets the difference of the two as its rate |
| `RateSampler.RatedIffNameFits` | src/monitor.c:117-163 | on one device with a positive advancing clock and operations in between, a rate is reported if and only if the name has at most 63 bytes |
| `RateSampler.Sampler.GetCurrentPerformance` | src/monitor.c:146-188 | the sample and the remembered reading after a call; an unreadable device changes nothing |
| `CommandOutput.CaptureIsBoundedPrefix` | src/utils.c:88-99 | the capture leaves room for its terminator, is a prefix of any output without NUL, and is all of it if and only if the output is empty, or has no NUL and is at least two bytes shorter than the buffer |
| `CommandOutput.CaptureOfLines` | src/utils.c:90-98 | lines of at most 255 bytes, each cut at its first NUL, are captured whole or not at all, and as many from the front as fit |
| `CommandOutput.ExecuteCommand` | src/utils.c:73-115 | the accumulation loop for any output, with pieces cut at their first NUL, and the result for each way the command can end; a command that does not start, or a size of 0, leaves the buffer as it was |
| `LvmListing.ScanPrinted` | src/lvm_manager.c:73-75 | scanning a printed line, in any column layout, gives back its fields and no more |
| `LvmListing.ConvertSigned` | src/lvm_manager.c:73-75 | a sign before a number: plus changes nothing, minus negates, modulo the word for an unsigned field |
| `LvmListing.OddSigned` | src/lvm_manager.c:253-255 | a signed number is cut to its low 32 bits after it has saturated at 64 |
| `LvmListing.ListingRoundTrip` | src/lvm_manager.c:61-89 | for a listing of well-formed records with lines of at most 255 bytes, the parsed array is a prefix of the records, none garbled, of the length the array and the buffer allow; the buffer allows all if and only if the listing fits |
| `LvmListing.ParsedIsStored` | src/lvm_manager.c:69-89 | whatever the text, every record parsed is of the kind asked for, its names fit their buffers with terminators and its numbers their types |
| `LvmListing.DecodeColumns` | src/lvm_manager.c:77-85 | a record decodes from its columns, for physical volumes with is_allocated set if and only if there is a volume group |
| `LvmListing.FillArray` | src/lvm_manager.c:244-263 | the strtok loop fills the array with the accepted lines in order, up to its length |
| `LvmListing.List` | src/lvm_manager.c:388-431 | a command that fails gives an empty list and success |
| `LvmListing.Info` | src/lvm_manager.c:98-121 | the first record of the asked name, and for a logical volume of the asked group, among the first 32, or 64 for logical volumes, and -2 if and only if there is none |
| `LvmListing.InfoOfListing` | src/lvm_manager.c:436-459 | on the listing of at most that many well-formed records that fits the buffer, the first record with that name and group, and none if and only if no record has them |
| `Decimals.ValueOfDecimal` | src/lvm_manager.c:73-75 | a printed decimal reads back as itself |
| `RaidDevices.FirstOccurrencesInOrder` | src/raid_manager.c:144-157 | the i-th token held is a first occurrence, preceded by exactly the tokens held before it |
| `RaidDevices.FirstOccurrencesDistinct` | src/raid_manager.c:144-150 | no token is held twice |
| `RaidDevices.AddDevice` | src/raid_manager.c:142-157 | the two loops append a new token to the gap-free prefix, and do nothing for a token held already or when the slots are full |
| `RaidDevices.CollectDevices` | src/raid_manager.c:101-162 | for any lines, the slots end as the first at most 16 distinct tokens that reach the branch while num_devices is below 16, in order of first appearance |
| `RaidDevices.GetStatus` | src/raid_manager.c:74-162 | a missing array or a failing command gives its error and changes nothing; otherwise num_devices and the slots are those of the lines of the captured listing |
| `RaidDevices.WideArrayStops` | src/raid_manager.c:121-139 | once a count of 16 or more has been read, device lines add nothing |
| `RaidDevices.PathAloneIsDevice` | src/raid_manager.c:104-141 | a line that starts with /dev/ and has no white space is taken for a device, whole |
| `RaidDevices.TableRowIsDevice` | src/raid_manager.c:104-141 | a row of the device table is taken for the device in it, up to the white space behind its path |
| `RaidDevices.LabelledLinesNameNothing` | src/raid_manager.c:104-137 | a line with one of the six labels never names a device, and sets the count only with its own label and neither of the two tested before |
| `RaidDevices.CountLineIsRead` | src/raid_manager.c:121-122 | an indented count line sets num_devices to the number printed |
| `RaidDevices.FirstLineIsHeld` | src/raid_manager.c:137-157 | a device on the first line has the first slot, whatever follows |
| `RaidDevices.ArrayNameTakesSlot` | src/raid_manager.c:137-157 | a listing that opens with the array's own name has that name, colon included, in the first slot |
| `RaidDevices.OthersHeldIff` | src/raid_manager.c:137-157 | with such a first line and counts below 16, every device named is held if and only if at most 15 distinct ones are named besides |
| `RaidSpare.SpareIsLostWitness` | src/raid_manager.c:101-157 | the output of the command for fifteen devices and a spare, captured and parsed: the spare gets no slot |

## Assumptions

- Kernel statistics: each critical section and the unlocked read of `device_count` are atomic; words are 64
  bits wide.
- Backups: no backup directory lies inside another; trees hold regular files; a new inode number is one not
  in use. The database opens or not once and for all; an open one answers every SELECT, performs every DELETE,
  and refuses an INSERT only for a repeated id; `mkdir` and `rm -rf` succeed. Histories start with an empty
  open database. `BackupOrder.dfy` also takes each creation to have a later timestamp than those before
  and an id no row has. A restore is taken from a state such a history can reach.
- Snapshots: `lvcreate` refuses a name that exists, `lvremove` refuses a mounted snapshot, and `umount` takes
  away the latest mount on its point.
- IPC: `accept` returns a descriptor that is not open, as section 2.14 of POSIX.1-2017 XSH requires, and
  `select` reports only watched descriptors. A client is disconnected from outside between rounds only, not
  between `select` and the end of its round; nothing in the repository does it then.
- Workers: pids are not reused; `kill(pid, 0)` on a child fails only when the child has been reaped; one
  handler iteration and one monitor pass are atomic.

## Left out

- The main loop of `src/daemon_main.c` and the two loops of `daemon_shutdown` are steps of a state machine on
  values rather than methods, because the signal handler runs between their steps; the reap, monitor and
  spawn functions are methods.
- Sockets, shared memory, semaphores, message queues, the pid file, daemonizing and resource limits.
- The text of shell commands, and the mdadm, cryptsetup, setfacl and mkfs wrappers.
- `src/filesystem_ops.c`: creating, mounting, checking, repairing and resizing file systems by commands.
- `src/security_manager.c`: ACLs, LUKS volumes, file attributes and an append-only audit log.
- `src/performance_tuner.c`: reading and writing scheduler and vm settings in sysfs and procfs, and timing
  sequential transfers.
- `src/memory_manager.c`: swap files by commands, and the fields of `/proc/meminfo` and `/proc/swaps`.
- `cli/storage_cli.c`: argument parsing, printing and one request to the daemon per invocation.
- SHA-256 checksums, `du` sizes, error messages of rows, and truncation of paths over 255 bytes.
- A negative keep count of `backup_cleanup_old`, which reads before the list.
- The optional copy of the worker table out of `daemon_monitor_workers`, worker start times and task names.
- `latency_ms` and `active_requests` of a sample: the code only ever stores zeros in them.
- Floating-point rounding: rates are real numbers.
- Overflow of `loop_count` in the main loop.
- NULL arguments of the list, info, status and sampling functions.
- The level, state, failed and active counts and size that `raid_get_status` also reads; their lines are
  recognised and skipped.
- RaidDevices.CollectDevices: a token of 256 bytes or more is held whole, where the code overflows a buffer.
