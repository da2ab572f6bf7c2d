/**
  `BackupManager`, the priming version of the manager.

  Every change notification in the save-data directory goes through
  `HandleBackupTrigger`. A change to a file whose name does not start with
  "SYSDATA" primes the manager; a following SYSDATA change is then taken as the
  legitimate write that accompanies a save and is backed up. An unprimed SYSDATA
  change is an anomaly: on the first event it would trigger a restore of the
  newest backup, and in every case a defensive backup. Every SYSDATA change ends
  with a rotation of the backup list.

  The model follows the code as written: `_isFirstEvent` is never set to true
  (so the restore branch cannot run from the state the constructor leaves),
  `CreateBackup` never adds its new file to `_currentBackups` (so rotation only
  trims the list loaded at startup), `RestoreBackup` copies nothing, and the
  duplicate-name guard comes before the readiness gate.
 */
module Manager {
  import opened BackupNames
  import opened FileSystem
  import opened Readiness
  import opened Rotation

  /** The manager's mutable fields, plus the file system and the watcher it acts on. */
  datatype Manager = Manager(
    isPrimed: bool,
    isFirstEvent: bool,
    backups: seq<string>,
    files: set<string>,
    watcherOn: bool)

  /** An operation's outcome: the new state, its I/O, and the readiness answers it left for later calls. */
  datatype Done = Done(state: Manager, io: seq<Io>, rest: seq<bool>)

  datatype Restored = Restored(ok: bool, done: Done)

  datatype Evicted = Evicted(state: Manager, io: seq<Io>)

  /** The operations a notification sets off, in order. */
  datatype Op = Restore(index: int, ok: bool) | Create | RemoveOld

  datatype Handled = Handled(state: Manager, ops: seq<Op>, io: seq<Io>)

  /** None of the operations is a restore. */
  predicate NoRestore(ops: seq<Op>) {
    forall i :: 0 <= i < |ops| ==> !ops[i].Restore?
  }

  /**
    The state in which notifications start to arrive: both flags at their
    default `false` (the constructor assigns neither), the list loaded by `Run`,
    and the watcher enabled by `Run`.
   */
  function Started(backups: seq<string>, files: set<string>): (m: Manager)
    ensures !m.isPrimed && !m.isFirstEvent && m.watcherOn
  {
    Manager(false, false, backups, files, true)
  }

  /** The prefix that marks a change as one to the system save data. */
  const TargetPrefix: string := "SYSDATA"

  /** The classification test `args.Name.StartsWith("SYSDATA")`, as an ordinal prefix test. */
  predicate IsTarget(name: string) {
    |name| >= 7 && name[..7] == TargetPrefix
  }

  /**
    A name is classified as a SYSDATA change exactly when it is "SYSDATA"
    followed by anything: the system save file qualifies, and so does every
    backup name, and any other name that merely begins with those characters.
   */
  lemma TargetIsPrefix(name: string, t: Moment)
    ensures IsTarget(name) <==> exists rest :: name == TargetPrefix + rest
    ensures IsTarget(SystemSaveDataName)
    ensures IsTarget(BackupFileName(t))
  {
    if IsTarget(name) {
      assert name == TargetPrefix + name[7..];
    } else {
      forall rest ensures name != TargetPrefix + rest {
        assert (TargetPrefix + rest)[..7] == TargetPrefix;
      }
    }
    assert SystemSaveDataName[..7] == TargetPrefix;
  }

  /**
    `CreateBackup`: name the backup after the clock; if that file already
    exists do nothing at all; otherwise pass the readiness gate and copy the
    system save file with the watcher switched off. The backup list is never
    touched.
   */
  function CreateBackup(cfg: Config, m: Manager, now: Moment, probes: seq<bool>): (d: Done)
    ensures d.state.backups == m.backups
    ensures d.state.isPrimed == m.isPrimed && d.state.isFirstEvent == m.isFirstEvent
    ensures BackupPathAt(cfg, now) in m.files ==> d == Done(m, [], probes)
    ensures BackupPathAt(cfg, now) !in m.files ==>
      (d.state.files == m.files + {BackupPathAt(cfg, now)} <==> ReadyWithinBudget(probes))
    ensures d.state.files != m.files ==> d.state.watcherOn && |d.state.files - m.files| == 1
    ensures !ReadyWithinBudget(probes) ==> d.state == m
    ensures d.rest == Rest(probes, CountProbes(d.io))
  {
    var path := BackupPathAt(cfg, now);
    if path in m.files then Done(m, [], probes)
    else
      var w := WaitReady(probes);
      if !w.ready then
        ProbesAreInert(m.files, m.watcherOn, w.used);
        Done(m, Probes(w.used), Rest(probes, w.used))
      else
        GuardedCopyEffects(m.files, m.watcherOn, w.used, path);
        assert m.files + {path} - m.files == {path};
        Done(m.(files := m.files + {path}, watcherOn := true), GuardedCopy(w.used, path), Rest(probes, w.used))
  }

  /**
    The I/O of `CreateBackup` accounts for its whole effect on files and
    watcher; the copy happens with the watcher off; at most 25 probes and at
    most one copy are made, and none at all when the name is taken.
   */
  lemma CreateBackupEffects(cfg: Config, m: Manager, now: Moment, probes: seq<bool>)
    ensures var d := CreateBackup(cfg, m, now, probes);
      && d.state.files == FilesAfter(m.files, d.io)
      && d.state.watcherOn == WatcherAfter(m.watcherOn, d.io)
      && CopiesWhileOff(m.watcherOn, d.io)
      && DeletesOnlyPresent(m.files, d.io)
      && CountProbes(d.io) <= MaxProbes
      && CountCopies(d.io) <= 1
      && (BackupPathAt(cfg, now) in m.files ==> CountProbes(d.io) == 0)
      && CountCopies(d.io) == (if d.state.files == m.files then 0 else 1)
  {
    var path := BackupPathAt(cfg, now);
    var w := WaitReady(probes);
    if path !in m.files {
      if w.ready {
        GuardedCopyEffects(m.files, m.watcherOn, w.used, path);
      } else {
        ProbesAreInert(m.files, m.watcherOn, w.used);
        InertOnFiles(m.files, m.watcherOn, Probes(w.used));
      }
    } else {
      InertOnFiles(m.files, m.watcherOn, []);
    }
  }

  /**
    `RestoreBackup(index)`: an index outside the list fails at once, with no
    probing; otherwise the readiness gate decides, and on success the watcher
    is switched off and on again. No file is copied.
   */
  function RestoreBackup(m: Manager, index: int, probes: seq<bool>): (r: Restored)
    ensures index < 0 || index >= |m.backups| ==> !r.ok && r.done == Done(m, [], probes)
    ensures 0 <= index < |m.backups| ==> (r.ok <==> ReadyWithinBudget(probes))
    ensures r.done.state == m.(watcherOn := r.done.state.watcherOn)
    ensures r.ok ==> r.done.state.watcherOn
    ensures !r.ok ==> r.done.state == m
    ensures r.done.rest == Rest(probes, CountProbes(r.done.io))
  {
    if index < 0 || index >= |m.backups| then Restored(false, Done(m, [], probes))
    else
      var w := WaitReady(probes);
      if !w.ready then
        ProbesAreInert(m.files, m.watcherOn, w.used);
        Restored(false, Done(m, Probes(w.used), Rest(probes, w.used)))
      else
        GuardedToggleEffects(m.files, m.watcherOn, w.used);
        Restored(true, Done(m.(watcherOn := true), GuardedToggle(w.used), Rest(probes, w.used)))
  }

  lemma RestoreBackupEffects(m: Manager, index: int, probes: seq<bool>)
    ensures var d := RestoreBackup(m, index, probes).done;
      && d.state.files == FilesAfter(m.files, d.io)
      && d.state.watcherOn == WatcherAfter(m.watcherOn, d.io)
      && CopiesWhileOff(m.watcherOn, d.io)
      && DeletesOnlyPresent(m.files, d.io)
      && CountProbes(d.io) <= MaxProbes
      && CountCopies(d.io) == 0
      && (index < 0 || index >= |m.backups| ==> d.io == [])
  {
    var w := WaitReady(probes);
    if 0 <= index < |m.backups| {
      if w.ready {
        GuardedToggleEffects(m.files, m.watcherOn, w.used);
      } else {
        ProbesAreInert(m.files, m.watcherOn, w.used);
        InertOnFiles(m.files, m.watcherOn, Probes(w.used));
      }
    } else {
      InertOnFiles(m.files, m.watcherOn, []);
    }
  }

  /**
    `RemoveOldBackups`: trim the list to the configured count from the tail,
    deleting each dropped entry's file if it exists. A list already within the
    count is left as it is.
   */
  function RemoveOldBackups(cfg: Config, m: Manager): (e: Evicted)
    ensures |e.state.backups| <= cfg.capacity
    ensures e.state.backups == m.backups[..Min(|m.backups|, cfg.capacity)]
    ensures e.state.files == m.files - Elems(Dropped(m.backups, cfg.capacity))
    ensures e.state == m.(backups := e.state.backups, files := e.state.files)
    ensures |m.backups| <= cfg.capacity ==> e == Evicted(m, [])
  {
    var t := Trim(m.backups, m.files, cfg.capacity);
    TrimEffects(m.backups, m.files, cfg.capacity);
    Evicted(m.(backups := t.backups, files := t.files), t.io)
  }

  lemma RemoveOldBackupsEffects(cfg: Config, m: Manager)
    ensures var e := RemoveOldBackups(cfg, m);
      && e.state.files == FilesAfter(m.files, e.io)
      && DeletesOnlyPresent(m.files, e.io)
      && (forall i :: 0 <= i < |e.io| ==> e.io[i].Delete? && e.io[i].path in Dropped(m.backups, cfg.capacity))
      && CopiesWhileOff(m.watcherOn, e.io)
      && WatcherAfter(m.watcherOn, e.io) == m.watcherOn
      && CountProbes(e.io) == 0
      && CountCopies(e.io) == 0
  {
    var e := RemoveOldBackups(cfg, m);
    TrimEffects(m.backups, m.files, cfg.capacity);
    OnlyDeletes(m.watcherOn, e.io);
  }

  /**
    The calls every SYSDATA change ends with: `CreateBackup`, then
    `RemoveOldBackups`, with the priming flag cleared in between when
    `unprime` is set (the primed branch).
   */
  function CreateThenRemove(cfg: Config, m: Manager, now: Moment, probes: seq<bool>, unprime: bool): (e: Evicted)
    ensures e.state.isPrimed == (m.isPrimed && !unprime) && e.state.isFirstEvent == m.isFirstEvent
    ensures |e.state.backups| <= cfg.capacity && e.state.backups == m.backups[..Min(|m.backups|, cfg.capacity)]
  {
    var c := CreateBackup(cfg, m, now, probes);
    var e := RemoveOldBackups(cfg, if unprime then c.state.(isPrimed := false) else c.state);
    Evicted(e.state, c.io + e.io)
  }

  /**
    `HandleBackupTrigger`, the classifier. The first-event flag is captured and
    cleared; a non-SYSDATA name primes and stops; a primed SYSDATA change is
    backed up and consumes the priming; an unprimed one restores backup 0 if it
    is the first event, then takes a defensive backup; every SYSDATA change
    ends with rotation.
   */
  function HandleBackupTrigger(cfg: Config, m: Manager, ev: Event): (r: Handled)
    ensures !r.state.isFirstEvent
    ensures !IsTarget(ev.name) ==>
      r.state == m.(isPrimed := true, isFirstEvent := false) && r.ops == [] && r.io == []
    ensures IsTarget(ev.name) ==> !r.state.isPrimed
    ensures IsTarget(ev.name) && !m.isPrimed && m.isFirstEvent ==>
      |r.ops| == 3 && r.ops[0].Restore? && r.ops == [Restore(0, r.ops[0].ok), Create, RemoveOld]
      && (r.ops[0].ok ==> |m.backups| > 0)
    ensures IsTarget(ev.name) && !(!m.isPrimed && m.isFirstEvent) ==> r.ops == [Create, RemoveOld]
    ensures IsTarget(ev.name) ==>
      |r.state.backups| <= cfg.capacity && r.state.backups == m.backups[..Min(|m.backups|, cfg.capacity)]
  {
    var wasFirst := m.isFirstEvent;
    var m1 := m.(isFirstEvent := false);
    if !IsTarget(ev.name) then
      Handled(m1.(isPrimed := true), [], [])
    else if m1.isPrimed then
      var e := CreateThenRemove(cfg, m1, ev.now, ev.probes, true);
      Handled(e.state, [Create, RemoveOld], e.io)
    else if wasFirst then
      var rb := RestoreBackup(m1, 0, ev.probes);
      var e := CreateThenRemove(cfg, rb.done.state, ev.now, rb.done.rest, false);
      Handled(e.state, [Restore(0, rb.ok), Create, RemoveOld], rb.done.io + e.io)
    else
      var e := CreateThenRemove(cfg, m1, ev.now, ev.probes, false);
      Handled(e.state, [Create, RemoveOld], e.io)
  }

  /** A notification never adds to the list: it keeps a prefix of it. */
  lemma HandleKeepsPrefix(cfg: Config, m: Manager, ev: Event)
    ensures HandleBackupTrigger(cfg, m, ev).state.backups <= m.backups
  {
  }

  /** A notification sets off a restore exactly when it is an unprimed SYSDATA change on the first event. */
  lemma OnlyFirstEventRestores(cfg: Config, m: Manager, ev: Event)
    ensures NoRestore(HandleBackupTrigger(cfg, m, ev).ops) <==> !(IsTarget(ev.name) && !m.isPrimed && m.isFirstEvent)
  {
    var r := HandleBackupTrigger(cfg, m, ev);
    if IsTarget(ev.name) && !m.isPrimed && m.isFirstEvent {
      assert r.ops[0].Restore?;
    } else if IsTarget(ev.name) {
      assert r.ops == [Create, RemoveOld];
    }
  }

  /**
    What one notification does to the file system and the watcher: exactly
    what its I/O trace says, with every copy made while the watcher is off and
    every delete of an existing file. At most one file appears, the one named
    after the notification's clock reading, and only listed backups disappear.
   */
  lemma HandleBackupTriggerEffects(cfg: Config, m: Manager, ev: Event)
    ensures var r := HandleBackupTrigger(cfg, m, ev);
      && r.state.files == FilesAfter(m.files, r.io)
      && r.state.watcherOn == WatcherAfter(m.watcherOn, r.io)
      && CopiesWhileOff(m.watcherOn, r.io)
      && DeletesOnlyPresent(m.files, r.io)
      && CountCopies(r.io) <= 1
      && CountProbes(r.io) <= 2 * MaxProbes
      && r.state.files <= m.files + {BackupPathAt(cfg, ev.now)}
      && m.files - r.state.files <= Elems(m.backups)
      && (BackupPathAt(cfg, ev.now) in m.files ==> CountCopies(r.io) == 0)
      && (CountCopies(r.io) == 1 && BackupPathAt(cfg, ev.now) !in m.backups ==>
            BackupPathAt(cfg, ev.now) in r.state.files)
  {
    var m1 := m.(isFirstEvent := false);
    var path := BackupPathAt(cfg, ev.now);
    assert Elems(Dropped(m.backups, cfg.capacity)) <= Elems(m.backups);
    if !IsTarget(ev.name) {
      InertOnFiles(m.files, m.watcherOn, []);
    } else if m1.isPrimed || !m.isFirstEvent {
      CreateThenRotate(cfg, m1, ev.now, ev.probes, m1.isPrimed);
    } else {
      var rb := RestoreBackup(m1, 0, ev.probes);
      var e := CreateThenRemove(cfg, rb.done.state, ev.now, rb.done.rest, false);
      RestoreBackupEffects(m1, 0, ev.probes);
      CreateThenRotate(cfg, rb.done.state, ev.now, rb.done.rest, false);
      Compose(m.files, m.watcherOn, rb.done.io, e.io);
    }
  }

  /**
    A create followed by rotation, as every SYSDATA change ends: a copy is made
    exactly when the name is free and the file becomes ready, the file set ends
    as that backup added and the dropped entries' files removed, and the trace
    accounts for all of it.
   */
  lemma CreateThenRotate(cfg: Config, m0: Manager, now: Moment, probes: seq<bool>, unprime: bool)
    ensures var e := CreateThenRemove(cfg, m0, now, probes, unprime);
      var path := BackupPathAt(cfg, now);
      var copied := path !in m0.files && ReadyWithinBudget(probes);
      && CountCopies(e.io) == (if copied then 1 else 0)
      && e.state.files == (if copied then m0.files + {path} else m0.files) - Elems(Dropped(m0.backups, cfg.capacity))
      && e.state.files == FilesAfter(m0.files, e.io)
      && e.state.watcherOn == WatcherAfter(m0.watcherOn, e.io)
      && CopiesWhileOff(m0.watcherOn, e.io)
      && DeletesOnlyPresent(m0.files, e.io)
      && CountProbes(e.io) <= MaxProbes
  {
    var c := CreateBackup(cfg, m0, now, probes);
    var s := if unprime then c.state.(isPrimed := false) else c.state;
    CreateBackupEffects(cfg, m0, now, probes);
    RemoveOldBackupsEffects(cfg, s);
    Compose(m0.files, m0.watcherOn, c.io, RemoveOldBackups(cfg, s).io);
  }

  /**
    The readiness answers the create step of a SYSDATA change sees: on an
    unprimed first event, those the restore left over; otherwise all of them.
   */
  function CreateProbes(m: Manager, ev: Event): seq<bool> {
    if !m.isPrimed && m.isFirstEvent then RestoreBackup(m.(isFirstEvent := false), 0, ev.probes).done.rest
    else ev.probes
  }

  /**
    Every SYSDATA change, primed or not, first event or not, takes a backup:
    exactly one copy is made when the name is free and the file becomes ready
    in time, none otherwise, and the file set ends as the new backup added and
    the files of the entries rotation drops removed.
   */
  lemma TargetChangeIsBackedUp(cfg: Config, m: Manager, ev: Event)
    requires IsTarget(ev.name)
    ensures var r := HandleBackupTrigger(cfg, m, ev);
      var path := BackupPathAt(cfg, ev.now);
      var copied := path !in m.files && ReadyWithinBudget(CreateProbes(m, ev));
      && CountCopies(r.io) == (if copied then 1 else 0)
      && r.state.files == (if copied then m.files + {path} else m.files) - Elems(Dropped(m.backups, cfg.capacity))
  {
    if m.isPrimed || !m.isFirstEvent {
      NoRestoreIsBackedUp(cfg, m, ev);
    } else {
      RestoreThenBackedUp(cfg, m, ev);
    }
  }

  /** `TargetChangeIsBackedUp` for a change that does not restore: create and rotate on all the answers. */
  lemma NoRestoreIsBackedUp(cfg: Config, m: Manager, ev: Event)
    requires IsTarget(ev.name) && (m.isPrimed || !m.isFirstEvent)
    ensures var r := HandleBackupTrigger(cfg, m, ev);
      var path := BackupPathAt(cfg, ev.now);
      var copied := path !in m.files && ReadyWithinBudget(ev.probes);
      && CountCopies(r.io) == (if copied then 1 else 0)
      && r.state.files == (if copied then m.files + {path} else m.files) - Elems(Dropped(m.backups, cfg.capacity))
  {
    var m1 := m.(isFirstEvent := false);
    var e := CreateThenRemove(cfg, m1, ev.now, ev.probes, m1.isPrimed);
    assert HandleBackupTrigger(cfg, m, ev) == Handled(e.state, [Create, RemoveOld], e.io);
    CreateThenRotate(cfg, m1, ev.now, ev.probes, m1.isPrimed);
  }

  /** `TargetChangeIsBackedUp` for an unprimed first event: restore, then create and rotate on what is left. */
  lemma RestoreThenBackedUp(cfg: Config, m: Manager, ev: Event)
    requires IsTarget(ev.name) && !m.isPrimed && m.isFirstEvent
    ensures var r := HandleBackupTrigger(cfg, m, ev);
      var path := BackupPathAt(cfg, ev.now);
      var copied := path !in m.files && ReadyWithinBudget(CreateProbes(m, ev));
      && CountCopies(r.io) == (if copied then 1 else 0)
      && r.state.files == (if copied then m.files + {path} else m.files) - Elems(Dropped(m.backups, cfg.capacity))
  {
    var m1 := m.(isFirstEvent := false);
    var rb := RestoreBackup(m1, 0, ev.probes);
    var e := CreateThenRemove(cfg, rb.done.state, ev.now, rb.done.rest, false);
    RestoreThenRotate(cfg, m1, ev.now, ev.probes);
    assert HandleBackupTrigger(cfg, m, ev) == Handled(e.state, [Restore(0, rb.ok), Create, RemoveOld], rb.done.io + e.io);
    assert CreateProbes(m, ev) == rb.done.rest;
  }

  /** Restore backup 0, then create and rotate on the answers the restore left. */
  lemma RestoreThenRotate(cfg: Config, m1: Manager, now: Moment, probes: seq<bool>)
    ensures var rb := RestoreBackup(m1, 0, probes);
      var e := CreateThenRemove(cfg, rb.done.state, now, rb.done.rest, false);
      var path := BackupPathAt(cfg, now);
      var copied := path !in m1.files && ReadyWithinBudget(rb.done.rest);
      && CountCopies(rb.done.io + e.io) == (if copied then 1 else 0)
      && e.state.files == (if copied then m1.files + {path} else m1.files) - Elems(Dropped(m1.backups, cfg.capacity))
  {
    var rb := RestoreBackup(m1, 0, probes);
    var e := CreateThenRemove(cfg, rb.done.state, now, rb.done.rest, false);
    RestoreCopiesNothing(m1, probes, e.io);
    assert rb.done.state.files == m1.files && rb.done.state.backups == m1.backups;
    CreateThenRotate(cfg, rb.done.state, now, rb.done.rest, false);
  }

  /** A restore's I/O adds no copy to whatever follows it. */
  lemma RestoreCopiesNothing(m1: Manager, probes: seq<bool>, rest: seq<Io>)
    ensures CountCopies(RestoreBackup(m1, 0, probes).done.io + rest) == CountCopies(rest)
  {
    RestoreBackupEffects(m1, 0, probes);
    CountCopiesAppend(RestoreBackup(m1, 0, probes).done.io, rest);
  }

  /** The backup paths named after the clock readings of `events`. */
  function PathsOf(cfg: Config, events: seq<Event>): set<string> {
    set i | 0 <= i < |events| :: BackupPathAt(cfg, events[i].now)
  }

  /** Notifications handled one at a time by `step`, in delivery order, the results concatenated. */
  function Run(step: (Manager, Event) -> Handled, m: Manager, events: seq<Event>): Handled
    decreases |events|
  {
    if |events| == 0 then Handled(m, [], [])
    else
      var h := step(m, events[0]);
      var t := Run(step, h.state, events[1..]);
      Handled(t.state, h.ops + t.ops, h.io + t.io)
  }

  /** Running one notification is that notification's step. */
  lemma RunOne(step: (Manager, Event) -> Handled, m: Manager, ev: Event)
    ensures Run(step, m, [ev]) == step(m, ev)
  {
    var h := step(m, ev);
    assert [ev][1..] == [];
    assert h.ops + [] == h.ops && h.io + [] == h.io;
  }

  /** Running `xs` and then `ys` is running `xs + ys`. */
  lemma {:induction false} RunAppend(step: (Manager, Event) -> Handled, m: Manager, xs: seq<Event>, ys: seq<Event>)
    ensures var a := Run(step, m, xs);
      var b := Run(step, a.state, ys);
      Run(step, m, xs + ys) == Handled(b.state, a.ops + b.ops, a.io + b.io)
    decreases |xs|
  {
    if |xs| == 0 {
      assert xs + ys == ys;
    } else {
      var h := step(m, xs[0]);
      var a' := Run(step, h.state, xs[1..]);
      var b := Run(step, a'.state, ys);
      assert (xs + ys)[0] == xs[0] && (xs + ys)[1..] == xs[1..] + ys;
      RunAppend(step, h.state, xs[1..], ys);
      AppendAssoc(h.ops, a'.ops, b.ops);
      AppendAssoc(h.io, a'.io, b.io);
    }
  }

  /** A watch session: the notifications handled one at a time, in delivery order. */
  function Session(cfg: Config, m: Manager, events: seq<Event>): Handled
  {
    Run((s, ev) => HandleBackupTrigger(cfg, s, ev), m, events)
  }

  /** A session of one notification is that notification's handling. */
  lemma SessionOne(cfg: Config, m: Manager, ev: Event)
    ensures Session(cfg, m, [ev]) == HandleBackupTrigger(cfg, m, ev)
  {
    RunOne((s, e) => HandleBackupTrigger(cfg, s, e), m, ev);
  }

  /** A session of two notifications is their handlings one after the other. */
  lemma SessionTwo(cfg: Config, m: Manager, a: Event, b: Event)
    ensures var h1 := HandleBackupTrigger(cfg, m, a);
      var h2 := HandleBackupTrigger(cfg, h1.state, b);
      Session(cfg, m, [a, b]) == Handled(h2.state, h1.ops + h2.ops, h1.io + h2.io)
  {
    var h1 := HandleBackupTrigger(cfg, m, a);
    var h2 := HandleBackupTrigger(cfg, h1.state, b);
    assert [a, b][1..] == [b];
    SessionOne(cfg, h1.state, b);
  }

  /** Handling `xs` and then `ys` is handling `xs + ys`. */
  lemma SessionAppend(cfg: Config, m: Manager, xs: seq<Event>, ys: seq<Event>)
    ensures var a := Session(cfg, m, xs);
      var b := Session(cfg, a.state, ys);
      Session(cfg, m, xs + ys) == Handled(b.state, a.ops + b.ops, a.io + b.io)
  {
    RunAppend((s, ev) => HandleBackupTrigger(cfg, s, ev), m, xs, ys);
  }

  /** The first-event flag is false after any notification, and once false it stays false. */
  lemma {:induction false} FirstEventFlagClears(cfg: Config, m: Manager, events: seq<Event>)
    ensures Session(cfg, m, events).state.isFirstEvent <==> m.isFirstEvent && |events| == 0
    decreases |events|
  {
    if |events| > 0 {
      FirstEventFlagClears(cfg, HandleBackupTrigger(cfg, m, events[0]).state, events[1..]);
    }
  }

  /** With the first-event flag clear, no notification ever sets off a restore. */
  lemma {:induction false} NoRestoreOnceFlagClear(cfg: Config, m: Manager, events: seq<Event>)
    requires !m.isFirstEvent
    ensures NoRestore(Session(cfg, m, events).ops)
    decreases |events|
  {
    if |events| > 0 {
      var h := HandleBackupTrigger(cfg, m, events[0]);
      var t := Session(cfg, h.state, events[1..]);
      NoRestoreOnceFlagClear(cfg, h.state, events[1..]);
      assert Session(cfg, m, events).ops == h.ops + t.ops;
      OnlyFirstEventRestores(cfg, m, events[0]);
    }
  }

  /**
    From the state the constructor and `Run` leave, the restore branch is
    unreachable: no sequence of notifications ever calls `RestoreBackup`.
   */
  lemma NeverRestoresFromStart(cfg: Config, backups: seq<string>, files: set<string>, events: seq<Event>)
    ensures var r := Session(cfg, Started(backups, files), events);
      forall i :: 0 <= i < |r.ops| ==> !r.ops[i].Restore?
  {
    NoRestoreOnceFlagClear(cfg, Started(backups, files), events);
  }

  /**
    The backup list only ever loses entries from its tail (creating a backup
    never adds to it); it is within the configured count after any SYSDATA
    notification, and otherwise still the list the session started with.
   */
  lemma {:induction false} SessionBackups(cfg: Config, m: Manager, events: seq<Event>)
    ensures var r := Session(cfg, m, events);
      && r.state.backups <= m.backups
      && (|r.state.backups| <= cfg.capacity || r.state.backups == m.backups)
      && ((exists i :: 0 <= i < |events| && IsTarget(events[i].name)) ==> |r.state.backups| <= cfg.capacity)
    decreases |events|
  {
    if |events| > 0 {
      var h := HandleBackupTrigger(cfg, m, events[0]);
      SessionBackups(cfg, h.state, events[1..]);
      var r := Session(cfg, m, events);
      if exists i :: 0 <= i < |events| && IsTarget(events[i].name) {
        var i :| 0 <= i < |events| && IsTarget(events[i].name);
        if i > 0 {
          assert IsTarget(events[1..][i - 1].name);
        }
      }
    }
  }

  /**
    Over a whole session the file system changes only as the I/O trace says:
    copies are made with the watcher off, deletes hit existing files, new files
    are backups named after the notifications' clock readings, and only
    backups listed at the start disappear.
   */
  lemma {:induction false} SessionFiles(cfg: Config, m: Manager, events: seq<Event>)
    ensures var r := Session(cfg, m, events);
      && r.state.files == FilesAfter(m.files, r.io)
      && r.state.watcherOn == WatcherAfter(m.watcherOn, r.io)
      && CopiesWhileOff(m.watcherOn, r.io)
      && DeletesOnlyPresent(m.files, r.io)
      && r.state.files - m.files <= PathsOf(cfg, events)
      && m.files - r.state.files <= Elems(m.backups)
    decreases |events|
  {
    if |events| > 0 {
      var h := HandleBackupTrigger(cfg, m, events[0]);
      var t := Session(cfg, h.state, events[1..]);
      HandleBackupTriggerEffects(cfg, m, events[0]);
      SessionFiles(cfg, h.state, events[1..]);
      Compose(m.files, m.watcherOn, h.io, t.io);
      var here := PathsOf(cfg, events);
      var later := PathsOf(cfg, events[1..]);
      assert later <= here by {
        forall p | p in later ensures p in here {
          var i :| 0 <= i < |events[1..]| && p == BackupPathAt(cfg, events[1..][i].now);
          assert p == BackupPathAt(cfg, events[i + 1].now);
        }
      }
      assert BackupPathAt(cfg, events[0].now) in here;
      HandleKeepsPrefix(cfg, m, events[0]);
      PrefixElems(h.state.backups, m.backups);
    }
  }

  /**
    A save: a non-SYSDATA change followed by a SYSDATA change produces exactly
    one new backup, consumes the priming, and never restores. (The new backup
    survives rotation because it is never put on the list.)
   */
  lemma PrimedSaveIsBackedUp(cfg: Config, m: Manager, save: Event, sys: Event)
    requires !IsTarget(save.name) && IsTarget(sys.name)
    requires BackupPathAt(cfg, sys.now) !in m.files
    requires ReadyWithinBudget(sys.probes)
    ensures var r := Session(cfg, m, [save, sys]);
      && r.ops == [Create, RemoveOld]
      && !r.state.isPrimed
      && CountCopies(r.io) == 1
      && r.state.files == (m.files + {BackupPathAt(cfg, sys.now)}) - Elems(Dropped(m.backups, cfg.capacity))
  {
    var h1 := HandleBackupTrigger(cfg, m, save);
    var h2 := HandleBackupTrigger(cfg, h1.state, sys);
    SessionTwo(cfg, m, save, sys);
    assert h1.state == m.(isPrimed := true, isFirstEvent := false) && h1.io == [];
    assert CreateProbes(h1.state, sys) == sys.probes;
    TargetChangeIsBackedUp(cfg, h1.state, sys);
    CountCopiesAppend(h1.io, h2.io);
  }

  /**
    Two SYSDATA notifications in the same second make at most one copy between
    them: once the first has created the file, the second finds it and does
    nothing. This needs rotation not to delete that file in between, so the
    path must not be a dropped entry whose file is missing beforehand.
   */
  lemma SameSecondIsDeduplicated(cfg: Config, m: Manager, a: Event, b: Event)
    requires IsTarget(a.name) && IsTarget(b.name) && a.now == b.now
    requires !(BackupPathAt(cfg, a.now) in Dropped(m.backups, cfg.capacity) && BackupPathAt(cfg, a.now) !in m.files)
    ensures CountCopies(Session(cfg, m, [a, b]).io) <= 1
  {
    var h1 := HandleBackupTrigger(cfg, m, a);
    var h2 := HandleBackupTrigger(cfg, h1.state, b);
    SessionTwo(cfg, m, a, b);
    TargetChangeIsBackedUp(cfg, m, a);
    TargetChangeIsBackedUp(cfg, h1.state, b);
    CountCopiesAppend(h1.io, h2.io);
  }

  /**
    The case the previous lemma leaves out happens: when the computed path is
    listed among the entries rotation drops but its file is missing, the first
    notification copies it, rotation deletes it again, and the second copies it
    once more.
   */
  lemma DroppedPathIsCopiedTwice(cfg: Config, m: Manager, a: Event, b: Event)
    requires IsTarget(a.name) && IsTarget(b.name) && a.now == b.now
    requires BackupPathAt(cfg, a.now) in Dropped(m.backups, cfg.capacity) && BackupPathAt(cfg, a.now) !in m.files
    requires ReadyWithinBudget(CreateProbes(m, a)) && ReadyWithinBudget(b.probes)
    ensures CountCopies(Session(cfg, m, [a, b]).io) == 2
  {
    var h1 := HandleBackupTrigger(cfg, m, a);
    var h2 := HandleBackupTrigger(cfg, h1.state, b);
    SessionTwo(cfg, m, a, b);
    TargetChangeIsBackedUp(cfg, m, a);
    TargetChangeIsBackedUp(cfg, h1.state, b);
    CountCopiesAppend(h1.io, h2.io);
  }

  /**
    The anomaly on a first event (reachable only from a state whose first-event
    flag is set): with no backups the restore fails, and the defensive backup is
    still attempted after it, with all the readiness answers (the failed
    restore probes nothing), followed by rotation.
   */
  lemma FirstEventWithNoBackups(cfg: Config, m: Manager, ev: Event)
    requires m.isFirstEvent && !m.isPrimed && IsTarget(ev.name) && m.backups == []
    ensures var r := HandleBackupTrigger(cfg, m, ev);
      var path := BackupPathAt(cfg, ev.now);
      && r.ops == [Restore(0, false), Create, RemoveOld]
      && CountCopies(r.io) == (if path !in m.files && ReadyWithinBudget(ev.probes) then 1 else 0)
      && r.state.files == (if path !in m.files && ReadyWithinBudget(ev.probes) then m.files + {path} else m.files)
  {
    var r := HandleBackupTrigger(cfg, m, ev);
    assert CreateProbes(m, ev) == ev.probes;
    TargetChangeIsBackedUp(cfg, m, ev);
  }

  /**
    After a primed backup, a second SYSDATA change with no save in between
    takes the anomaly path: a defensive backup and rotation, never a restore.
    The defensive backup copies exactly when its name is free and the file
    becomes ready.
   */
  lemma SecondUnprimedChangeIsDefensive(cfg: Config, m: Manager, save: Event, sys: Event, again: Event)
    requires !IsTarget(save.name) && IsTarget(sys.name) && IsTarget(again.name)
    ensures Session(cfg, m, [save, sys, again]).ops == [Create, RemoveOld, Create, RemoveOld]
  {
    {
      var h1 := HandleBackupTrigger(cfg, m, save);
      var h2 := HandleBackupTrigger(cfg, h1.state, sys);
      var h3 := HandleBackupTrigger(cfg, h2.state, again);
      SessionTwo(cfg, m, save, sys);
      assert h1.ops == [];
      assert h2.ops == [Create, RemoveOld] by {
        assert |h2.ops| == 2;
      }
      assert h3.ops == [Create, RemoveOld] by {
        assert |h3.ops| == 2;
      }
      assert Session(cfg, m, [save, sys, again]).ops == (h1.ops + h2.ops) + h3.ops by {
        SessionOne(cfg, h2.state, again);
        SessionAppend(cfg, m, [save, sys], [again]);
        assert [save, sys] + [again] == [save, sys, again];
      }
    }
  }

  /**
    Every SYSDATA change after the first notification copies exactly when its
    name is free and the file becomes ready in time: the defensive backup of an
    unprimed change is as real as the backup of a primed one.
   */
  lemma LaterChangeIsBackedUp(cfg: Config, m: Manager, events: seq<Event>, ev: Event)
    requires |events| > 0 && IsTarget(ev.name)
    ensures var before := Session(cfg, m, events).state;
      var path := BackupPathAt(cfg, ev.now);
      CountCopies(HandleBackupTrigger(cfg, before, ev).io) ==
        (if path !in before.files && ReadyWithinBudget(ev.probes) then 1 else 0)
  {
    var before := Session(cfg, m, events).state;
    FirstEventFlagClears(cfg, m, events);
    assert CreateProbes(before, ev) == ev.probes;
    TargetChangeIsBackedUp(cfg, before, ev);
  }
}
