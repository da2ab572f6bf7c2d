# AELBackup backup trigger, modelled in Dafny

AELBackup protects the system save file `SYSDATA.pcsave` of *Atelier Escha & Logy DX*. It watches the
save-data directory and copies the file to a rotating set of timestamped backups whenever it changes.
This project models the backup trigger logic of both versions of the program as pure functions over an
abstract environment, and proves properties of them.

- **`BackupManager`** (`manager.dfy`, module `Manager`) is the priming version. A change to any file whose
  name does not start with `SYSDATA` primes the manager. A later `SYSDATA*` change is then backed up. An
  unprimed `SYSDATA*` change is an anomaly: on the first event it restores backup 0, and it always takes a
  defensive backup. Every `SYSDATA*` change ends with `RemoveOldBackups`.
- **`Program`** (`legacy.dfy`, module `Legacy`) is the older single-handler version. It backs up on every
  notification, puts the new path at the front of the list and evicts from the tail.
- **Shared parts**:
  - `readiness.dfy` holds the 25-probe `IsFileReady` gate.
  - `rotation.dfy` holds the tail eviction loop.
  - `names.dfy` holds the name format `SYSDATA_yyyy_MM_dd_HH_mm_ss.pcsave.backup` and a parser for it.
  - `filesystem.dfy` holds the environment.

The environment is explicit:
- The file system is a `set<string>` of existing paths. `File.Copy` inserts into it and `File.Delete`
  removes from it.
- The watcher's `EnableRaisingEvents` is a `bool`.
- The clock is a `Moment`, which is the calendar fields of a `DateTime` truncated to the second. Each
  notification carries one.
- `IsFileReady` is an oracle: a `seq<bool>` of answers consumed one per call. Answers past the end read as
  "not ready".
- Every operation also returns its I/O as a trace of `Io` effects (`Probe`, `WatcherOff`, `Copy`,
  `WatcherOn`, `Delete`). Replaying the trace (`FilesAfter`, `WatcherAfter`) gives exactly the new state.
  So contracts can state what was *not* touched, that the copy happens while the watcher is off, and that
  every delete hits an existing file.

## Behaviour of the code as written

Some of this behaviour looks unintended; the model keeps it:

- `_isFirstEvent` is declared (`BackupManager.cs:26`) but never set to `true`. The constructor assigns
  neither flag. So from the state that `Run` starts events in, the restore branch (`BackupManager.cs:139-148`)
  is unreachable: `Manager.NeverRestoresFromStart`. The classifier is defined for any initial flag values,
  so the restore branch is still modelled and proved about (`Manager.FirstEventWithNoBackups`).
- `BackupManager.CreateBackup` never adds its file to `_currentBackups`. Rotation only trims the list loaded
  at startup, and the list only ever shrinks (`Manager.SessionBackups`).
- `RestoreBackup` copies nothing. It checks the index, passes the readiness gate and toggles the watcher.
- `RemoveOldBackups` runs after every `SYSDATA*` change, even when no backup was made. Non-`SYSDATA`
  changes never trim. So "at most `BackupCount` entries" holds after the first `SYSDATA*` change, or from the
  start if the loaded list is already within the count. It does not hold after every event.
- The readiness gate makes up to 25 calls with no delay between them.
- The classification is the prefix test `StartsWith("SYSDATA")`, not equality with `SYSDATA.pcsave`.
- `BackupManager` names its backups after `DateTime.UtcNow` (`BackupManager.cs:160`), `Program` after
  `DateTime.Now` (`Program.cs:102`). Both are the notification's clock reading in the model.
- The guards come in a different order in the two versions:
  - `BackupManager.CreateBackup` checks for an existing name *before* the readiness gate. A duplicate
    therefore makes no probe.
  - `Program.CreateBackup` checks readiness *first*. A duplicate still spends at least one probe.
- In `Program`, a count of 0 makes every backup get copied and then deleted at once
  (`Legacy.ZeroCountDeletesEveryBackup`).

## Model

| member | source | states |
|---|---|---|
| BackupNames.BackupFileName | AELBackup/BackupManager.cs:162 | a backup name is 41 characters: `SYSDATA_`, a four-digit year and five two-digit fields separated by `_`, then `.pcsave.backup`; it starts with `SYSDATA` |
| BackupNames.ParseOfFormat | AELBackup/BackupManager.cs:162 | parsing the name built from a reading gives back that reading: the fixed-width zero-padded format loses nothing |
| BackupNames.FormatOfParse | AELBackup/Program.cs:104 | any string that parses as a backup name is exactly the formatted name of the reading it parses to |
| BackupNames.NameInjective | AELBackup/Program.cs:104-109 | two readings give the same backup name if and only if they fall in the same second |
| FileSystem.BackupPathAtInjective | AELBackup/BackupManager.cs:162-163 | two backups land on the same path in the backup directory if and only if they are taken in the same second |
| FileSystem.StampOfPathRoundTrip | AELBackup/Program.cs:104-105 | a backup path names its reading, and any path that names a reading is that reading's backup path |
| FileSystem.GuardedCopyEffects | AELBackup/BackupManager.cs:183-192 | after a successful gate: the copy is made while the watcher is off, the watcher ends on, and exactly the destination file is added |
| FileSystem.GuardedToggleEffects | AELBackup/BackupManager.cs:236-242 | a successful restore switches the watcher off and on, leaves it on, and copies and deletes nothing |
| Readiness.WaitReady | AELBackup/BackupManager.cs:169-181 | the gate makes between 1 and 25 `IsFileReady` calls and stops at the first "ready"; it fails exactly when all 25 answers are "not ready", and then it has made all 25 |
| Readiness.ProbeUntilReady | AELBackup/Program.cs:88-100 | the source's down-counting loop succeeds exactly when one of the first 25 answers is "ready", and computes the same outcome and probe count as the gate |
| Rotation.Trim | AELBackup/BackupManager.cs:199-210 | rotation keeps the first `BackupCount` entries (a prefix of the list, within the count); a list within the count is left untouched with no I/O |
| Rotation.TrimEffects | AELBackup/BackupManager.cs:199-210 | the files that disappear are exactly those of the dropped tail entries; the trace holds only deletes, each of a dropped entry whose file exists; no other file is touched |
| Rotation.RemoveOldBackups | AELBackup/Program.cs:127-141 | the tail-eviction loop leaves at most `_backupCount` entries and produces exactly the result of rotation |
| Manager.Started | AELBackup/BackupManager.cs:28-70 | notifications start with both flags false (the constructor assigns neither) and the watcher enabled by `Run` |
| Manager.TargetIsPrefix | AELBackup/BackupManager.cs:121 | a name is handled as a SYSDATA change if and only if it is `SYSDATA` followed by anything; `SYSDATA.pcsave` and every backup name qualify |
| Manager.CreateBackup | AELBackup/BackupManager.cs:158-193 | if the computed name exists: nothing at all happens. Otherwise: one new file, the computed name, appears if and only if the gate succeeds, and the watcher ends on. On failure nothing changes. The list and the flags are never modified |
| Manager.CreateBackupEffects | AELBackup/BackupManager.cs:166-192 | the copy is made with the watcher off; there are at most 25 probes and at most one copy, and no probe when the name is taken |
| Manager.RestoreBackup | AELBackup/BackupManager.cs:215-245 | an index outside `[0, Count)` returns false with no probing and no change. Otherwise it succeeds if and only if the gate does. Only the watcher flag can change |
| Manager.RestoreBackupEffects | AELBackup/BackupManager.cs:217-242 | a restore never copies or deletes a file, makes at most 25 probes, and does no I/O at all for a bad index |
| Manager.RemoveOldBackups | AELBackup/BackupManager.cs:195-213 | the list becomes its first `BackupCount` entries and exactly the dropped entries' files disappear; flags and watcher are unchanged; a list within the count is left as it is |
| Manager.RemoveOldBackupsEffects | AELBackup/BackupManager.cs:199-210 | rotation's trace holds only deletes of dropped entries whose files exist, and it does not touch the watcher |
| Manager.HandleBackupTrigger | AELBackup/BackupManager.cs:113-156 | the first-event flag is false afterwards. A non-SYSDATA name only primes (no list, file or watcher change, no I/O). A SYSDATA name leaves the manager unprimed and the list trimmed to a prefix within the count. Its calls are exactly Restore(0), Create, RemoveOld when the change is unprimed and the captured first-event flag was set (the restore can succeed only with a backup listed), and exactly Create, RemoveOld otherwise |
| Manager.OnlyFirstEventRestores | AELBackup/BackupManager.cs:127-148 | a notification calls `RestoreBackup` if and only if it is an unprimed SYSDATA change and the captured first-event flag was set |
| Manager.CreateThenRotate | AELBackup/BackupManager.cs:150-155 | create then rotate copies exactly when the name is free and the file becomes ready; the files end as the old ones plus that copy minus the dropped entries' files; copies with the watcher off, deletes only existing files |
| Manager.TargetChangeIsBackedUp | AELBackup/BackupManager.cs:127-155 | every SYSDATA change, primed or not, first event or not, makes exactly one copy when its name is free and the file becomes ready on the answers left after any restore, and none otherwise; the files end as the old ones plus that copy minus the dropped entries' files |
| Manager.HandleBackupTriggerEffects | AELBackup/BackupManager.cs:113-156 | one notification: copies are made with the watcher off, and deletes hit existing files. At most one file appears, named after the notification's reading; only listed backups disappear. If the name already exists, no copy is made |
| Manager.FirstEventFlagClears | AELBackup/BackupManager.cs:117-118 | the first-event flag is set after a session if and only if it was set before and no notification arrived |
| Manager.NoRestoreOnceFlagClear | AELBackup/BackupManager.cs:139-148 | with the first-event flag clear, no sequence of notifications attempts a restore |
| Manager.NeverRestoresFromStart | AELBackup/BackupManager.cs:25-41 | from the all-false state the constructor and `Run` leave, `RestoreBackup` is never called |
| Manager.SessionAppend | AELBackup/BackupManager.cs:113-156 | handling one run of notifications and then another is handling the two runs joined: states chain, calls and I/O concatenate |
| Manager.SessionBackups | AELBackup/BackupManager.cs:154-155 | over a session the list is always a prefix of the initial list; it is within the count once any SYSDATA change has been handled, and otherwise it is unchanged |
| Manager.SessionFiles | AELBackup/BackupManager.cs:158-210 | over a session the file set changes only as the trace says. New files are backups named after notification readings; only initially listed backups disappear |
| Manager.PrimedSaveIsBackedUp | AELBackup/BackupManager.cs:121-134 | a non-SYSDATA change followed by a SYSDATA change (fresh name, file becomes ready) makes exactly one copy, consumes the priming and never restores |
| Manager.SameSecondIsDeduplicated | AELBackup/BackupManager.cs:165-167 | two SYSDATA changes in the same second make at most one copy between them, provided the name is not both missing on disk and among the entries rotation drops |
| Manager.FirstEventWithNoBackups | AELBackup/BackupManager.cs:139-151 | an unprimed first SYSDATA change with no backups attempts Restore(0), which fails, then still creates, then rotates; it copies exactly when the name is free and the file becomes ready on all the answers (the failed restore probes nothing), and the files gain exactly that copy |
| Manager.SecondUnprimedChangeIsDefensive | AELBackup/BackupManager.cs:127-152 | after a primed backup, a second SYSDATA change takes the anomaly path: create and rotate, never restore |
| Manager.LaterChangeIsBackedUp | AELBackup/BackupManager.cs:135-155 | after at least one notification, a SYSDATA change (the unprimed anomaly included) copies exactly when its name is free and the file becomes ready, and otherwise makes no copy |
| Manager.DroppedPathIsCopiedTwice | AELBackup/BackupManager.cs:150-210 | when the same-second name is a dropped list entry whose file is missing, two ready SYSDATA changes in that second copy it twice: rotation deletes the first copy |
| Legacy.CreateBackup | AELBackup/Program.cs:82-144 | gate failure: all 25 probes are made and nothing changes. Name taken: nothing changes. Otherwise the list becomes a prefix of `[new] + old` within the count, with the new path at index 0 when the count is positive; the dropped entries' files are deleted and the watcher ends on |
| Legacy.CreateBackupEffects | AELBackup/Program.cs:87-141 | every notification makes 1 to 25 probes, even a duplicate. A copy is made, with the watcher off, exactly when the gate succeeds and the name is free. Deletes are only of dropped entries whose files exist |
| Legacy.CopyThenEvict | AELBackup/Program.cs:111-141 | a successful backup's trace (copy with the watcher off, then eviction) makes one copy, leaves the watcher on, accounts for the whole change to the files and deletes only dropped entries' existing files |
| Legacy.InsertFront | AELBackup/Program.cs:124-141 | after insert-front and eviction the new entry is at index 0 when the count is positive, and its file survives unless it was already listed |
| Legacy.ZeroCountDeletesEveryBackup | AELBackup/Program.cs:124-141 | with a count of 0, a successful backup is copied and then deleted, and the list ends empty |
| Legacy.SessionWithinCount | AELBackup/Program.cs:127-141 | after a run the list is within the count, or it is still the initial list |
| Legacy.SameSecondIsDeduplicated | AELBackup/Program.cs:102-109 | two notifications in the same second make at most one copy between them, provided the new name is not both missing on disk and evicted at once by the first backup |
| Legacy.EvictedCopyIsCopiedAgain | AELBackup/Program.cs:102-141 | when the new name is missing on disk and evicted at once, two ready notifications in that second copy it twice |
| Legacy.KeptStayOnDisk | AELBackup/Program.cs:127-141 | on a newest-first list (which has no repeats), eviction never deletes the file of an entry it keeps |
| Legacy.AddKeepsNewestFirst | AELBackup/Program.cs:124-141 | putting a fresh backup newer than the head in front and evicting keeps the list strictly newest first with every listed file on disk |
| Legacy.CreateKeepsNewestFirst | AELBackup/Program.cs:102-141 | while the clock does not go back, a backup keeps the list strictly newest first (one backup per second) with every listed file on disk. The head is this reading's backup or the previous head |
| Legacy.SessionKeepsNewestFirst | AELBackup/Program.cs:102-124 | over a run whose clock never goes back, the list stays strictly newest first with every listed file on disk |

## Left out

- Launching the game and waiting for it is external-process plumbing and is left out: `Run`'s process start,
  the `HasExited` spin, the `GetProcessesByName` poll and `WaitForExit`. Only the list `Run` loads and the
  watcher it enables are modelled, through `Manager.Started`.
- `Main`'s console read loop and `ReadCommandLineArgs` (which only throws) are user-interface code.
- The `CommandLine` option attributes of `ManagerOptions` are left out. The backup directory and count are
  the plain parameters of `Config`.
- Startup directory creation and the `OrderByDescending(File.GetCreationTimeUtc)` scan are left out. The
  initial list and file set are inputs. The newest-first lemmas state their ordering assumption explicitly.
- The real `FileSystemWatcher` is left out: subscription, `Dispose`, the `*.pcsave` / `SYSDATA.pcsave`
  filters, and switching the watcher off when the game exits. A notification is a name, a change kind (which
  the logic ignores, as in the source), a clock reading and the readiness answers.
- Concurrency is left out: watcher callbacks run on the thread pool. Delivery is modelled as sequential, in
  order, one notification at a time.
- Console colour and log output are logging only.
- File contents and the inside of `IsFileReady` (`File.OpenRead`, `Length > 0`, the swallowed exception) are
  replaced by the readiness oracle.
- Exceptions from `File.Copy` or `File.Delete` are not modelled. Once the gate succeeds and the name is free,
  the copy is taken to succeed.
- `Path.Combine` is modelled as directory + `\` + name. Its rules for rooted names and trailing separators
  are not modelled.
- `StartsWith("SYSDATA")` is culture-sensitive in .NET. It is modelled as an ordinal prefix test.
- A notification carries one clock reading, which its create step uses; the restore step reads no clock.
- Day-of-month validity per month is not modelled (`InRange` allows day 31 in every month). Only the field
  widths matter to the name format.
- `Legacy.CreateKeepsNewestFirst`, `Legacy.SessionKeepsNewestFirst`: require that the clock does not go back.
  `DateTime.Now` is local time and can go back, for example at a daylight-saving change. The source does not
  guard against this.
- The backup count is a `nat`. `BackupCount` and `_backupCount` are `int`s, and a negative count makes the
  eviction loops (`BackupManager.cs:199-201`, `Program.cs:127-129`) empty the list and then throw at `[^1]`.
  That exception is not modelled.
- Manager.SameSecondIsDeduplicated: does not cover a name that is among the entries rotation drops while its
  file is missing. Then rotation deletes the first copy and the second change copies again, giving two copies
  (`Manager.DroppedPathIsCopiedTwice`).
- Legacy.SameSecondIsDeduplicated: does not cover a new name that is missing on disk and evicted at once
  (for example with a count of 0). Then the second notification copies again, giving two copies
  (`Legacy.EvictedCopyIsCopiedAgain`).
