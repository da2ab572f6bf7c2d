/**
  The environment both versions of the backup manager act on, made explicit.

  The file system is the set of paths that exist; the file-system watcher is a
  single "raising events" flag; the clock is a reading carried by each change
  notification; and `IsFileReady` is an oracle, a stream of answers consumed
  one per probe. Every operation reports the I/O it performs as a trace of
  `Io` effects, so that contracts can speak about the order of effects (the
  copy happens while the watcher is off) and about what was NOT touched (the
  new file set is exactly the old one with the trace replayed on it).
 */
module FileSystem {
  import opened BackupNames

  /** One observable effect on the environment. */
  datatype Io =
    | Probe                  // one call of IsFileReady on the system save file
    | WatcherOff             // EnableRaisingEvents = false
    | WatcherOn              // EnableRaisingEvents = true
    | Copy(dst: string)      // File.Copy of the system save file to dst
    | Delete(path: string)   // File.Delete(path)

  /** The file-system watcher's change kinds; none of them affects the logic. */
  datatype ChangeKind = Changed | Created | Deleted

  /** One delivered change notification together with the environment's answers while it is handled. */
  datatype Event = Event(name: string, kind: ChangeKind, now: Moment, probes: seq<bool>)

  /** The manager's configuration: where backups go and how many are kept. */
  datatype Config = Config(backupDir: string, capacity: nat)

  /** The file being protected. */
  const SystemSaveDataName: string := "SYSDATA.pcsave"

  const Separator: char := '\\'

  /** `Path.Combine(backupDir, name)` for a plain file name. */
  function BackupPath(cfg: Config, name: string): (p: string)
    ensures |p| == |cfg.backupDir| + 1 + |name|
    ensures p[|cfg.backupDir| + 1..] == name
  {
    cfg.backupDir + [Separator] + name
  }

  /** The path a backup taken at `now` goes to. */
  function BackupPathAt(cfg: Config, now: Moment): string {
    BackupPath(cfg, BackupFileName(now))
  }

  /** Two backups land on the same path exactly when they are taken in the same second. */
  lemma BackupPathAtInjective(cfg: Config, a: Moment, b: Moment)
    ensures BackupPathAt(cfg, a) == BackupPathAt(cfg, b) <==> a == b
  {
    var pa, pb := BackupPathAt(cfg, a), BackupPathAt(cfg, b);
    if pa == pb {
      assert pa[|cfg.backupDir| + 1..] == pb[|cfg.backupDir| + 1..];
    }
    NameInjective(a, b);
  }

  /** The reading a path in the backup directory is named after, if it is a backup name. */
  function StampOfPath(cfg: Config, p: string): Option<Moment> {
    var n := |cfg.backupDir| + 1;
    if |p| >= n && p[..n] == cfg.backupDir + [Separator] then ParseBackupFileName(p[n..]) else None
  }

  /** The backup path of a reading names that reading, and only backup paths name a reading. */
  lemma StampOfPathRoundTrip(cfg: Config, t: Moment, p: string)
    ensures StampOfPath(cfg, BackupPathAt(cfg, t)) == Some(t)
    ensures StampOfPath(cfg, p).Some? ==> BackupPathAt(cfg, StampOfPath(cfg, p).value) == p
  {
    var n := |cfg.backupDir| + 1;
    var q := BackupPathAt(cfg, t);
    assert q[..n] == cfg.backupDir + [Separator];
    ParseOfFormat(t);
    if StampOfPath(cfg, p).Some? {
      FormatOfParse(p[n..]);
      assert p == p[..n] + p[n..];
    }
  }

  /** `n` consecutive probes. */
  function Probes(n: nat): (io: seq<Io>)
    ensures |io| == n
    ensures forall i :: 0 <= i < n ==> io[i] == Probe
  {
    if n == 0 then [] else Probes(n - 1) + [Probe]
  }

  /** The set of paths after replaying a trace: copies create their destination, deletes remove their path. */
  function FilesAfter(files: set<string>, io: seq<Io>): set<string>
    decreases |io|
  {
    if |io| == 0 then files
    else
      var f := match io[0]
        case Copy(dst) => files + {dst}
        case Delete(p) => files - {p}
        case _ => files;
      FilesAfter(f, io[1..])
  }

  /** The watcher flag after replaying a trace. */
  function WatcherAfter(on: bool, io: seq<Io>): bool
    decreases |io|
  {
    if |io| == 0 then on
    else
      var w := match io[0]
        case WatcherOff => false
        case WatcherOn => true
        case _ => on;
      WatcherAfter(w, io[1..])
  }

  /** Every copy in the trace happens while the watcher is not raising events. */
  predicate CopiesWhileOff(on: bool, io: seq<Io>) {
    forall i :: 0 <= i < |io| && io[i].Copy? ==> !WatcherAfter(on, io[..i])
  }

  /** Every delete in the trace removes a file that exists at that moment. */
  predicate DeletesOnlyPresent(files: set<string>, io: seq<Io>) {
    forall i :: 0 <= i < |io| && io[i].Delete? ==> io[i].path in FilesAfter(files, io[..i])
  }

  function CountProbes(io: seq<Io>): nat {
    if |io| == 0 then 0 else (if io[0] == Probe then 1 else 0) + CountProbes(io[1..])
  }

  function CountCopies(io: seq<Io>): nat {
    if |io| == 0 then 0 else (if io[0].Copy? then 1 else 0) + CountCopies(io[1..])
  }

  lemma {:induction false} FilesAfterAppend(files: set<string>, a: seq<Io>, b: seq<Io>)
    ensures FilesAfter(files, a + b) == FilesAfter(FilesAfter(files, a), b)
    decreases |a|
  {
    if |a| > 0 {
      assert (a + b)[1..] == a[1..] + b;
      var f := match a[0]
        case Copy(dst) => files + {dst}
        case Delete(p) => files - {p}
        case _ => files;
      FilesAfterAppend(f, a[1..], b);
    } else {
      assert a + b == b;
    }
  }

  lemma {:induction false} WatcherAfterAppend(on: bool, a: seq<Io>, b: seq<Io>)
    ensures WatcherAfter(on, a + b) == WatcherAfter(WatcherAfter(on, a), b)
    decreases |a|
  {
    if |a| > 0 {
      assert (a + b)[1..] == a[1..] + b;
      var w := match a[0]
        case WatcherOff => false
        case WatcherOn => true
        case _ => on;
      WatcherAfterAppend(w, a[1..], b);
    } else {
      assert a + b == b;
    }
  }

  lemma {:induction false} CountProbesAppend(a: seq<Io>, b: seq<Io>)
    ensures CountProbes(a + b) == CountProbes(a) + CountProbes(b)
  {
    if |a| > 0 {
      assert (a + b)[1..] == a[1..] + b;
      CountProbesAppend(a[1..], b);
    } else {
      assert a + b == b;
    }
  }

  lemma {:induction false} CountCopiesAppend(a: seq<Io>, b: seq<Io>)
    ensures CountCopies(a + b) == CountCopies(a) + CountCopies(b)
  {
    if |a| > 0 {
      assert (a + b)[1..] == a[1..] + b;
      CountCopiesAppend(a[1..], b);
    } else {
      assert a + b == b;
    }
  }

  /** Probing touches neither the file set nor the watcher. */
  lemma {:induction false} ProbesAreInert(files: set<string>, on: bool, n: nat)
    ensures FilesAfter(files, Probes(n)) == files
    ensures WatcherAfter(on, Probes(n)) == on
    ensures CountProbes(Probes(n)) == n
    ensures CountCopies(Probes(n)) == 0
  {
    if n > 0 {
      ProbesAreInert(files, on, n - 1);
      FilesAfterAppend(files, Probes(n - 1), [Probe]);
      WatcherAfterAppend(on, Probes(n - 1), [Probe]);
      CountProbesAppend(Probes(n - 1), [Probe]);
      CountCopiesAppend(Probes(n - 1), [Probe]);
    }
  }

  lemma CopiesWhileOffAppend(on: bool, a: seq<Io>, b: seq<Io>)
    requires CopiesWhileOff(on, a)
    requires CopiesWhileOff(WatcherAfter(on, a), b)
    ensures CopiesWhileOff(on, a + b)
  {
    var ab := a + b;
    forall i | 0 <= i < |ab| && ab[i].Copy?
      ensures !WatcherAfter(on, ab[..i])
    {
      if i < |a| {
        assert ab[..i] == a[..i];
      } else {
        assert ab[..i] == a + b[..i - |a|];
        WatcherAfterAppend(on, a, b[..i - |a|]);
      }
    }
  }

  lemma DeletesOnlyPresentAppend(files: set<string>, a: seq<Io>, b: seq<Io>)
    requires DeletesOnlyPresent(files, a)
    requires DeletesOnlyPresent(FilesAfter(files, a), b)
    ensures DeletesOnlyPresent(files, a + b)
  {
    var ab := a + b;
    forall i | 0 <= i < |ab| && ab[i].Delete?
      ensures ab[i].path in FilesAfter(files, ab[..i])
    {
      if i < |a| {
        assert ab[..i] == a[..i];
      } else {
        assert ab[..i] == a + b[..i - |a|];
        FilesAfterAppend(files, a, b[..i - |a|]);
      }
    }
  }

  /** A trace with no copy and no delete leaves the file set alone and breaks neither trace property. */
  lemma {:induction false} InertOnFiles(files: set<string>, on: bool, io: seq<Io>)
    requires forall i :: 0 <= i < |io| ==> !io[i].Copy? && !io[i].Delete?
    ensures FilesAfter(files, io) == files
    ensures CopiesWhileOff(on, io)
    ensures DeletesOnlyPresent(files, io)
    ensures CountCopies(io) == 0
    decreases |io|
  {
    if |io| > 0 {
      InertOnFiles(files, on, io[1..]);
    }
  }

  /** The effects of a copy behind a successful readiness gate: the probes, then watcher off, copy, watcher on. */
  function GuardedCopy(used: nat, dst: string): seq<Io> {
    Probes(used) + [WatcherOff, Copy(dst), WatcherOn]
  }

  /** A trace with no deletes, then one whose deletes all hit `allowed`, deletes only from `allowed`. */
  /** A guarded copy deletes nothing. */
  lemma GuardedCopyKeeps(used: nat, dst: string)
    ensures forall i :: 0 <= i < |GuardedCopy(used, dst)| ==> !GuardedCopy(used, dst)[i].Delete?
  {
  }

  lemma DeletesWithin(a: seq<Io>, b: seq<Io>, allowed: seq<string>)
    requires forall i :: 0 <= i < |a| ==> !a[i].Delete?
    requires forall i :: 0 <= i < |b| && b[i].Delete? ==> b[i].path in allowed
    ensures forall i :: 0 <= i < |a + b| && (a + b)[i].Delete? ==> (a + b)[i].path in allowed
  {
    forall i | 0 <= i < |a + b| && (a + b)[i].Delete?
      ensures (a + b)[i].path in allowed
    {
      assert i >= |a| && (a + b)[i] == b[i - |a|];
    }
  }

  lemma GuardedCopyEffects(files: set<string>, on: bool, used: nat, dst: string)
    ensures FilesAfter(files, GuardedCopy(used, dst)) == files + {dst}
    ensures WatcherAfter(on, GuardedCopy(used, dst))
    ensures CopiesWhileOff(on, GuardedCopy(used, dst))
    ensures DeletesOnlyPresent(files, GuardedCopy(used, dst))
    ensures CountProbes(GuardedCopy(used, dst)) == used
    ensures CountCopies(GuardedCopy(used, dst)) == 1
  {
    var tail := [WatcherOff, Copy(dst), WatcherOn];
    var io := GuardedCopy(used, dst);
    ProbesAreInert(files, on, used);
    InertOnFiles(files, on, Probes(used));
    assert tail[1..] == [Copy(dst), WatcherOn] && tail[1..][1..] == [WatcherOn] && tail[1..][1..][1..] == [];
    assert FilesAfter(files, tail) == files + {dst} by {
      assert FilesAfter(files, tail) == FilesAfter(files, tail[1..]);
      assert FilesAfter(files, tail[1..]) == FilesAfter(files + {dst}, tail[1..][1..]);
      assert FilesAfter(files + {dst}, tail[1..][1..]) == FilesAfter(files + {dst}, []);
    }
    assert WatcherAfter(on, tail) by {
      assert WatcherAfter(on, tail) == WatcherAfter(false, tail[1..]);
      assert WatcherAfter(false, tail[1..]) == WatcherAfter(false, tail[1..][1..]);
      assert WatcherAfter(false, tail[1..][1..]) == WatcherAfter(true, []);
    }
    assert CountProbes(tail) == 0 by {
      assert CountProbes(tail) == CountProbes(tail[1..]) == CountProbes(tail[1..][1..]) == CountProbes([]);
    }
    assert CountCopies(tail) == 1 by {
      assert CountCopies(tail) == CountCopies(tail[1..]) == 1 + CountCopies(tail[1..][1..]);
      assert CountCopies(tail[1..][1..]) == CountCopies([]);
    }
    FilesAfterAppend(files, Probes(used), tail);
    WatcherAfterAppend(on, Probes(used), tail);
    CountProbesAppend(Probes(used), tail);
    CountCopiesAppend(Probes(used), tail);
    assert CopiesWhileOff(on, tail) by {
      forall i | 0 <= i < |tail| && tail[i].Copy?
        ensures !WatcherAfter(on, tail[..i])
      {
        assert i == 1 && tail[..1] == [WatcherOff];
        assert tail[..1][1..] == [];
      }
    }
    CopiesWhileOffAppend(on, Probes(used), tail);
    assert DeletesOnlyPresent(files, io);
  }

  /** The effects of a restore behind a successful readiness gate: the probes, then watcher off and on again. */
  function GuardedToggle(used: nat): seq<Io> {
    Probes(used) + [WatcherOff, WatcherOn]
  }

  lemma GuardedToggleEffects(files: set<string>, on: bool, used: nat)
    ensures FilesAfter(files, GuardedToggle(used)) == files
    ensures WatcherAfter(on, GuardedToggle(used))
    ensures CopiesWhileOff(on, GuardedToggle(used))
    ensures DeletesOnlyPresent(files, GuardedToggle(used))
    ensures CountProbes(GuardedToggle(used)) == used
    ensures CountCopies(GuardedToggle(used)) == 0
  {
    var tail := [WatcherOff, WatcherOn];
    ProbesAreInert(files, on, used);
    InertOnFiles(files, on, GuardedToggle(used));
    assert tail[1..] == [WatcherOn] && tail[1..][1..] == [];
    assert WatcherAfter(on, tail) by {
      assert WatcherAfter(on, tail) == WatcherAfter(false, tail[1..]);
      assert WatcherAfter(false, tail[1..]) == WatcherAfter(true, []);
    }
    assert CountProbes(tail) == 0 by {
      assert CountProbes(tail) == CountProbes(tail[1..]) == CountProbes([]);
    }
    WatcherAfterAppend(on, Probes(used), tail);
    CountProbesAppend(Probes(used), tail);
  }

  /** Replaying two traces one after the other. */
  lemma Compose(files: set<string>, on: bool, a: seq<Io>, b: seq<Io>)
    requires CopiesWhileOff(on, a) && CopiesWhileOff(WatcherAfter(on, a), b)
    requires DeletesOnlyPresent(files, a) && DeletesOnlyPresent(FilesAfter(files, a), b)
    ensures FilesAfter(files, a + b) == FilesAfter(FilesAfter(files, a), b)
    ensures WatcherAfter(on, a + b) == WatcherAfter(WatcherAfter(on, a), b)
    ensures CopiesWhileOff(on, a + b)
    ensures DeletesOnlyPresent(files, a + b)
    ensures CountCopies(a + b) == CountCopies(a) + CountCopies(b)
    ensures CountProbes(a + b) == CountProbes(a) + CountProbes(b)
  {
    FilesAfterAppend(files, a, b);
    WatcherAfterAppend(on, a, b);
    CopiesWhileOffAppend(on, a, b);
    DeletesOnlyPresentAppend(files, a, b);
    CountCopiesAppend(a, b);
    CountProbesAppend(a, b);
  }

  lemma {:induction false} OnlyDeletes(on: bool, io: seq<Io>)
    requires forall i :: 0 <= i < |io| ==> io[i].Delete?
    ensures CopiesWhileOff(on, io)
    ensures WatcherAfter(on, io) == on
    ensures CountProbes(io) == 0
    ensures CountCopies(io) == 0
    decreases |io|
  {
    if |io| > 0 {
      OnlyDeletes(on, io[1..]);
    }
  }
}
