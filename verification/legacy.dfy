/**
  `Program`, the older single-handler version of the manager.

  It watches only the system save file and backs it up on every notification,
  with no priming: pass the readiness gate, name the backup after the clock,
  skip it if that file already exists, copy with the watcher switched off,
  put the new path at the front of the list, and evict from the tail until the
  list is within the configured count.

  Unlike `BackupManager`, it checks readiness BEFORE the duplicate name, so a
  duplicate notification still spends its probes.
 */
module Legacy {
  import opened BackupNames
  import opened FileSystem
  import opened Readiness
  import opened Rotation

  /** The static fields `_currentBackups` and the watcher, plus the file system. */
  datatype Legacy = Legacy(backups: seq<string>, files: set<string>, watcherOn: bool)

  datatype Outcome = Outcome(state: Legacy, io: seq<Io>)

  /** The `CreateBackup` event handler. */
  function CreateBackup(cfg: Config, s: Legacy, ev: Event): (r: Outcome)
    ensures !ReadyWithinBudget(ev.probes) ==> r == Outcome(s, Probes(MaxProbes))
    ensures BackupPathAt(cfg, ev.now) in s.files ==> r.state == s
    ensures ReadyWithinBudget(ev.probes) && BackupPathAt(cfg, ev.now) !in s.files ==>
      var path := BackupPathAt(cfg, ev.now);
      && r.state.watcherOn
      && r.state.backups == ([path] + s.backups)[..Min(|s.backups| + 1, cfg.capacity)]
      && r.state.files == (s.files + {path}) - Elems(Dropped([path] + s.backups, cfg.capacity))
      && (cfg.capacity >= 1 ==> r.state.backups[0] == path)
      && (cfg.capacity >= 1 && path !in s.backups ==> path in r.state.files)
    ensures |r.state.backups| <= cfg.capacity || r.state == s
  {
    var w := WaitReady(ev.probes);
    if !w.ready then Outcome(s, Probes(w.used))
    else
      var path := BackupPathAt(cfg, ev.now);
      if path in s.files then Outcome(s, Probes(w.used))
      else
        var t := Trim([path] + s.backups, s.files + {path}, cfg.capacity);
        InsertFront(path, s.backups, s.files, cfg.capacity);
        Outcome(Legacy(t.backups, t.files, true), GuardedCopy(w.used, path) + t.io)
  }

  /** Inserting at the front and then rotating keeps the new entry unless the count is zero. */
  lemma InsertFront(path: string, backups: seq<string>, files: set<string>, capacity: nat)
    ensures var t := Trim([path] + backups, files + {path}, capacity);
      && t.files == (files + {path}) - Elems(Dropped([path] + backups, capacity))
      && (capacity >= 1 ==> t.backups[0] == path)
      && (capacity >= 1 && path !in backups ==> path in t.files)
  {
    TrimEffects([path] + backups, files + {path}, capacity);
    if capacity >= 1 && path !in backups && |[path] + backups| > capacity {
      var d := Dropped([path] + backups, capacity);
      assert d == backups[capacity - 1..];
      assert path !in d;
    }
  }

  /**
    The I/O of one notification accounts for its whole effect: at least one and
    at most 25 probes whatever happens (readiness comes before the duplicate
    check), a copy only when the name is free and the file became ready, made
    with the watcher off, and deletes only of evicted entries whose file exists.
   */
  lemma CreateBackupEffects(cfg: Config, s: Legacy, ev: Event)
    ensures var r := CreateBackup(cfg, s, ev);
      var path := BackupPathAt(cfg, ev.now);
      && r.state.files == FilesAfter(s.files, r.io)
      && r.state.watcherOn == WatcherAfter(s.watcherOn, r.io)
      && CopiesWhileOff(s.watcherOn, r.io)
      && DeletesOnlyPresent(s.files, r.io)
      && 1 <= CountProbes(r.io) <= MaxProbes
      && CountCopies(r.io) == (if ReadyWithinBudget(ev.probes) && path !in s.files then 1 else 0)
      && (forall i :: 0 <= i < |r.io| && r.io[i].Delete? ==> r.io[i].path in Dropped([path] + s.backups, cfg.capacity))
  {
    var w := WaitReady(ev.probes);
    var path := BackupPathAt(cfg, ev.now);
    if !w.ready || path in s.files {
      ProbesAreInert(s.files, s.watcherOn, w.used);
      InertOnFiles(s.files, s.watcherOn, Probes(w.used));
    } else {
      CopyThenEvict(cfg.capacity, s, w.used, path);
    }
  }

  /**
    The I/O of a successful notification: the guarded copy, then rotation of
    the list with the new path in front. It accounts for the whole effect on
    the files, makes one copy with the watcher off, and deletes only evicted
    entries whose file exists.
   */
  lemma CopyThenEvict(capacity: nat, s: Legacy, used: nat, path: string)
    ensures var t := Trim([path] + s.backups, s.files + {path}, capacity);
      var io := GuardedCopy(used, path) + t.io;
      && t.files == FilesAfter(s.files, io)
      && WatcherAfter(s.watcherOn, io)
      && CopiesWhileOff(s.watcherOn, io)
      && DeletesOnlyPresent(s.files, io)
      && CountProbes(io) == used
      && CountCopies(io) == 1
      && (forall i :: 0 <= i < |io| && io[i].Delete? ==> io[i].path in Dropped([path] + s.backups, capacity))
  {
    var t := Trim([path] + s.backups, s.files + {path}, capacity);
    var g := GuardedCopy(used, path);
    assert t.files == FilesAfter(s.files, g + t.io) && WatcherAfter(s.watcherOn, g + t.io)
      && CopiesWhileOff(s.watcherOn, g + t.io) && DeletesOnlyPresent(s.files, g + t.io)
      && CountProbes(g + t.io) == used && CountCopies(g + t.io) == 1 by {
      GuardedCopyEffects(s.files, s.watcherOn, used, path);
      TrimEffects([path] + s.backups, s.files + {path}, capacity);
      OnlyDeletes(true, t.io);
      Compose(s.files, s.watcherOn, g, t.io);
    }
    assert forall i :: 0 <= i < |g + t.io| && (g + t.io)[i].Delete? ==>
        (g + t.io)[i].path in Dropped([path] + s.backups, capacity) by {
      TrimEffects([path] + s.backups, s.files + {path}, capacity);
      GuardedCopyKeeps(used, path);
      DeletesWithin(g, t.io, Dropped([path] + s.backups, capacity));
    }
  }

  /**
    With a count of zero every backup is created and at once evicted: the copy
    is made, the new file is deleted again, and the list ends empty.
   */
  lemma ZeroCountDeletesEveryBackup(cfg: Config, s: Legacy, ev: Event)
    requires cfg.capacity == 0
    requires ReadyWithinBudget(ev.probes) && BackupPathAt(cfg, ev.now) !in s.files
    ensures var r := CreateBackup(cfg, s, ev);
      && CountCopies(r.io) == 1
      && r.state.backups == []
      && BackupPathAt(cfg, ev.now) !in r.state.files
  {
    CreateBackupEffects(cfg, s, ev);
  }

  /** A run of the program: notifications handled one at a time, in delivery order. */
  function Session(cfg: Config, s: Legacy, events: seq<Event>): Outcome
    decreases |events|
  {
    if |events| == 0 then Outcome(s, [])
    else
      var h := CreateBackup(cfg, s, events[0]);
      var t := Session(cfg, h.state, events[1..]);
      Outcome(t.state, h.io + t.io)
  }

  /** The list is within the configured count after any backup, and stays so once it is. */
  lemma {:induction false} SessionWithinCount(cfg: Config, s: Legacy, events: seq<Event>)
    ensures var r := Session(cfg, s, events);
      |r.state.backups| <= cfg.capacity || r.state.backups == s.backups
    decreases |events|
  {
    if |events| > 0 {
      var h := CreateBackup(cfg, s, events[0]);
      SessionWithinCount(cfg, h.state, events[1..]);
    }
  }

  /** A session of two notifications is their handlings one after the other. */
  lemma SessionTwo(cfg: Config, s: Legacy, a: Event, b: Event)
    ensures var h := CreateBackup(cfg, s, a);
      var h2 := CreateBackup(cfg, h.state, b);
      Session(cfg, s, [a, b]) == Outcome(h2.state, h.io + h2.io)
  {
    var h := CreateBackup(cfg, s, a);
    var h2 := CreateBackup(cfg, h.state, b);
    assert Session(cfg, h.state, [b]) == Outcome(h2.state, h2.io) by {
      assert [b][1..] == [];
      assert h2.io + [] == h2.io;
    }
    assert [a, b][1..] == [b];
  }

  /**
    Two notifications in the same second make at most one backup: once the
    first has created the file, the second finds it and changes nothing (it
    still spends its readiness probes). This needs eviction not to delete that
    file in between, so a missing file must not be among the entries evicted
    once the new path is in front (which it always is with a count of zero).
   */
  lemma SameSecondIsDeduplicated(cfg: Config, s: Legacy, a: Event, b: Event)
    requires a.now == b.now
    requires var path := BackupPathAt(cfg, a.now);
      !(path !in s.files && path in Dropped([path] + s.backups, cfg.capacity))
    ensures var h := CreateBackup(cfg, s, a);
      var h2 := CreateBackup(cfg, h.state, b);
      && Session(cfg, s, [a, b]) == Outcome(h2.state, h.io + h2.io)
      && CountCopies(h.io) + CountCopies(h2.io) <= 1
  {
    var h := CreateBackup(cfg, s, a);
    SessionTwo(cfg, s, a, b);
    CreateBackupEffects(cfg, s, a);
    CreateBackupEffects(cfg, h.state, b);
  }

  /**
    The case the previous lemma leaves out happens: when the new path is
    evicted at once and its file was missing, the first notification copies
    it, eviction deletes it again, and the second copies it once more.
   */
  lemma EvictedCopyIsCopiedAgain(cfg: Config, s: Legacy, a: Event, b: Event)
    requires a.now == b.now && ReadyWithinBudget(a.probes) && ReadyWithinBudget(b.probes)
    requires var path := BackupPathAt(cfg, a.now);
      path !in s.files && path in Dropped([path] + s.backups, cfg.capacity)
    ensures var h := CreateBackup(cfg, s, a);
      var h2 := CreateBackup(cfg, h.state, b);
      && Session(cfg, s, [a, b]) == Outcome(h2.state, h.io + h2.io)
      && CountCopies(h.io) + CountCopies(h2.io) == 2
  {
    var h := CreateBackup(cfg, s, a);
    SessionTwo(cfg, s, a, b);
    CreateBackupEffects(cfg, s, a);
    CreateBackupEffects(cfg, h.state, b);
  }

  /**
    The list in the intended shape: every entry is a backup name, in strictly
    decreasing order of the reading it is named after (newest first, no two in
    the same second).
   */
  predicate NewestFirst(cfg: Config, l: seq<string>) {
    && (forall i :: 0 <= i < |l| ==> StampOfPath(cfg, l[i]).Some?)
    && (forall i, j :: 0 <= i < j < |l| ==> Earlier(StampOfPath(cfg, l[j]).value, StampOfPath(cfg, l[i]).value))
  }

  /** The list is newest first and every listed backup's file exists. */
  predicate Consistent(cfg: Config, s: Legacy) {
    NewestFirst(cfg, s.backups) && forall i :: 0 <= i < |s.backups| ==> s.backups[i] in s.files
  }

  /** The clock does not read earlier than the newest listed backup. */
  predicate NotBehind(cfg: Config, s: Legacy, now: Moment) {
    |s.backups| > 0 && StampOfPath(cfg, s.backups[0]).Some? ==>
      !Earlier(now, StampOfPath(cfg, s.backups[0]).value)
  }

  lemma PrependNewer(cfg: Config, t: Moment, l: seq<string>)
    requires NewestFirst(cfg, l)
    requires |l| > 0 ==> Earlier(StampOfPath(cfg, l[0]).value, t)
    ensures NewestFirst(cfg, [BackupPathAt(cfg, t)] + l)
  {
    var l' := [BackupPathAt(cfg, t)] + l;
    StampOfPathRoundTrip(cfg, t, "");
    forall j | 1 <= j < |l'|
      ensures Earlier(StampOfPath(cfg, l'[j]).value, t)
    {
      if j > 1 {
        EarlierIsStrictTotal(StampOfPath(cfg, l[j - 1]).value, StampOfPath(cfg, l[0]).value, t);
      }
    }
  }

  lemma NewestFirstPrefix(cfg: Config, l: seq<string>, k: nat)
    requires NewestFirst(cfg, l) && k <= |l|
    ensures NewestFirst(cfg, l[..k])
  {
  }

  /** Entries of a newest-first list are pairwise distinct. */
  lemma NewestFirstDistinct(cfg: Config, l: seq<string>, i: nat, j: nat)
    requires NewestFirst(cfg, l) && i < j < |l|
    ensures l[i] != l[j]
  {
    EarlierIsStrictTotal(StampOfPath(cfg, l[j]).value, StampOfPath(cfg, l[i]).value, StampOfPath(cfg, l[i]).value);
  }

  /** Rotation of a list without repeats never deletes the file of an entry it keeps. */
  lemma KeptStayOnDisk(cfg: Config, l: seq<string>, files: set<string>)
    requires NewestFirst(cfg, l)
    requires forall i :: 0 <= i < |l| ==> l[i] in files
    ensures var t := Trim(l, files, cfg.capacity);
      forall i :: 0 <= i < |t.backups| ==> t.backups[i] in t.files
  {
    var t := Trim(l, files, cfg.capacity);
    TrimEffects(l, files, cfg.capacity);
    var d := Dropped(l, cfg.capacity);
    forall i | 0 <= i < |t.backups|
      ensures t.backups[i] !in Elems(d)
    {
      forall k | 0 <= k < |d| ensures d[k] != l[i] {
        NewestFirstDistinct(cfg, l, i, cfg.capacity + k);
      }
    }
  }

  /** Putting a fresh, newer backup in front and rotating keeps the list newest first and on disk. */
  lemma AddKeepsNewestFirst(cfg: Config, s: Legacy, now: Moment)
    requires Consistent(cfg, s) && NotBehind(cfg, s, now) && BackupPathAt(cfg, now) !in s.files
    ensures var path := BackupPathAt(cfg, now);
      var t := Trim([path] + s.backups, s.files + {path}, cfg.capacity);
      NewestFirst(cfg, t.backups) && forall i :: 0 <= i < |t.backups| ==> t.backups[i] in t.files
  {
    var path := BackupPathAt(cfg, now);
    var l := [path] + s.backups;
    assert NewestFirst(cfg, l) by {
      if |s.backups| > 0 {
        var hd := StampOfPath(cfg, s.backups[0]).value;
        StampOfPathRoundTrip(cfg, now, s.backups[0]);
        EarlierIsStrictTotal(hd, now, now);
      }
      PrependNewer(cfg, now, s.backups);
    }
    NewestFirstPrefix(cfg, l, Min(|l|, cfg.capacity));
    KeptStayOnDisk(cfg, l, s.files + {path});
  }

  /**
    While the clock does not run backwards, a backup keeps the list newest
    first with at most one backup per second and every listed file on disk,
    and the newest entry is named after this notification's reading or is the
    previous newest entry.
   */
  lemma CreateKeepsNewestFirst(cfg: Config, s: Legacy, ev: Event)
    requires Consistent(cfg, s) && NotBehind(cfg, s, ev.now)
    ensures var r := CreateBackup(cfg, s, ev);
      && Consistent(cfg, r.state)
      && (|r.state.backups| > 0 ==>
            StampOfPath(cfg, r.state.backups[0]) == Some(ev.now) || (|s.backups| > 0 && r.state.backups[0] == s.backups[0]))
  {
    var path := BackupPathAt(cfg, ev.now);
    StampOfPathRoundTrip(cfg, ev.now, path);
    if ReadyWithinBudget(ev.probes) && path !in s.files {
      AddKeepsNewestFirst(cfg, s, ev.now);
    }
  }

  /** The clock readings of successive notifications never go backwards. */
  predicate ClockNeverBack(events: seq<Event>) {
    forall i, j :: 0 <= i < j < |events| ==> !Earlier(events[j].now, events[i].now)
  }

  /**
    Over a run whose clock never goes backwards (and starts no earlier than
    the newest listed backup), the list stays newest first, with at most one
    backup per second and every listed file on disk.
   */
  lemma {:induction false} SessionKeepsNewestFirst(cfg: Config, s: Legacy, events: seq<Event>)
    requires Consistent(cfg, s)
    requires ClockNeverBack(events)
    requires |events| > 0 ==> NotBehind(cfg, s, events[0].now)
    ensures Consistent(cfg, Session(cfg, s, events).state)
    decreases |events|
  {
    if |events| > 0 {
      var h := CreateBackup(cfg, s, events[0]);
      CreateKeepsNewestFirst(cfg, s, events[0]);
      if |events| > 1 {
        var e0, e1 := events[0].now, events[1].now;
        assert !Earlier(e1, e0);
        if |h.state.backups| > 0 {
          var hd := StampOfPath(cfg, h.state.backups[0]).value;
          if hd != e0 {
            EarlierIsStrictTotal(hd, e0, e1);
            EarlierIsStrictTotal(e1, e0, hd);
            EarlierIsStrictTotal(e0, e1, hd);
          }
        }
        assert NotBehind(cfg, h.state, e1);
      }
      SessionKeepsNewestFirst(cfg, h.state, events[1..]);
    }
  }
}
