/**
  Rotation of the in-memory backup list, newest first: while the list is longer
  than the configured count, take its last (oldest) entry, delete that file if
  it exists, and drop the entry. Both versions of the manager use the same loop.
 */
module Rotation {
  import opened FileSystem

  datatype Trimmed = Trimmed(backups: seq<string>, files: set<string>, io: seq<Io>)

  function Min(a: nat, b: nat): nat {
    if a <= b then a else b
  }

  /** The entries rotation removes from the tail of `backups`. */
  function Dropped(backups: seq<string>, capacity: nat): seq<string> {
    if |backups| <= capacity then [] else backups[capacity..]
  }

  function Elems(s: seq<string>): set<string> {
    set p | p in s
  }

  /** The entries of a prefix are entries of the whole list. */
  lemma PrefixElems(a: seq<string>, b: seq<string>)
    requires a <= b
    ensures Elems(a) <= Elems(b)
  {
    forall p | p in Elems(a) ensures p in Elems(b) {
      var k :| 0 <= k < |a| && a[k] == p;
      assert b[k] == p;
    }
  }

  /** Over the count, the dropped entries are those of the list without its last entry, then that entry. */
  lemma DroppedLast(backups: seq<string>, capacity: nat)
    requires |backups| > capacity
    ensures var front, last := backups[..|backups| - 1], backups[|backups| - 1];
      && Dropped(backups, capacity) == Dropped(front, capacity) + [last]
      && Elems(Dropped(backups, capacity)) == Elems(Dropped(front, capacity)) + {last}
  {
    var front, last := backups[..|backups| - 1], backups[|backups| - 1];
    assert Dropped(backups, capacity) == Dropped(front, capacity) + [last];
  }

  /**
    Rotation as a function of the list and the file set: the list keeps its
    first `capacity` entries, and the trace holds one delete per dropped entry
    whose file exists at that moment, oldest first.
   */
  function Trim(backups: seq<string>, files: set<string>, capacity: nat): (r: Trimmed)
    ensures |r.backups| <= capacity
    ensures r.backups == backups[..Min(|backups|, capacity)]
    ensures |backups| <= capacity ==> r == Trimmed(backups, files, [])
    decreases |backups|
  {
    if |backups| <= capacity then Trimmed(backups, files, [])
    else
      var last := backups[|backups| - 1];
      var del := if last in files then [Delete(last)] else [];
      var t := Trim(backups[..|backups| - 1], files - {last}, capacity);
      Trimmed(t.backups, t.files, del + t.io)
  }

  /** One step of rotation on the file system: delete `last` if it exists. */
  lemma DeleteIfPresent(files: set<string>, last: string)
    ensures var del := if last in files then [Delete(last)] else [];
      FilesAfter(files, del) == files - {last} && DeletesOnlyPresent(files, del)
  {
    if last in files {
      var del := [Delete(last)];
      assert del[1..] == [];
      assert del[..0] == [];
    }
  }

  /**
    What rotation does to the file system: the files that disappear are exactly
    those of the dropped entries, each delete removes a file that exists, and
    the new file set is the old one with the trace replayed on it.
   */
  lemma {:induction false} TrimEffects(backups: seq<string>, files: set<string>, capacity: nat)
    ensures var r := Trim(backups, files, capacity);
      && r.files == files - Elems(Dropped(backups, capacity))
      && r.files == FilesAfter(files, r.io)
      && DeletesOnlyPresent(files, r.io)
      && (forall i :: 0 <= i < |r.io| ==> r.io[i].Delete? && r.io[i].path in Dropped(backups, capacity))
    decreases |backups|
  {
    if |backups| > capacity {
      var front, last := backups[..|backups| - 1], backups[|backups| - 1];
      var del := if last in files then [Delete(last)] else [];
      var t := Trim(front, files - {last}, capacity);
      assert Trim(backups, files, capacity) == Trimmed(t.backups, t.files, del + t.io);
      TrimEffects(front, files - {last}, capacity);
      DroppedLast(backups, capacity);
      DeleteIfPresent(files, last);
      FilesAfterAppend(files, del, t.io);
      DeletesOnlyPresentAppend(files, del, t.io);
    }
  }

  /** Concatenation regroups; stated once so that the proofs using it need not find it among their other facts. */
  lemma AppendAssoc<T>(a: seq<T>, b: seq<T>, c: seq<T>)
    ensures a + (b + c) == (a + b) + c
  {
  }

  /** A rotation `t` still to run, after the effects `done` have already happened. */
  function After(done: seq<Io>, t: Trimmed): Trimmed {
    Trimmed(t.backups, t.files, done + t.io)
  }

  /** One iteration of rotation: delete the last entry's file if it exists, then rotate the rest. */
  lemma TrimStep(backups: seq<string>, files: set<string>, capacity: nat)
    requires |backups| > capacity
    ensures var last := backups[|backups| - 1];
      var del := if last in files then [Delete(last)] else [];
      Trim(backups, files, capacity) == After(del, Trim(backups[..|backups| - 1], files - {last}, capacity))
  {
  }

  /** The loop invariant of `RemoveOldBackups` survives one iteration. */
  lemma LoopStep(backups0: seq<string>, files0: set<string>, capacity: nat,
                 backups: seq<string>, files: set<string>, io: seq<Io>)
    requires |backups| > capacity
    requires Trim(backups0, files0, capacity) == After(io, Trim(backups, files, capacity))
    ensures var last := backups[|backups| - 1];
      var io' := if last in files then io + [Delete(last)] else io;
      Trim(backups0, files0, capacity) == After(io', Trim(backups[..|backups| - 1], files - {last}, capacity))
  {
    var last := backups[|backups| - 1];
    var del := if last in files then [Delete(last)] else [];
    var t := Trim(backups[..|backups| - 1], files - {last}, capacity);
    TrimStep(backups, files, capacity);
    AppendAssoc(io, del, t.io);
  }

  /** The loop as the source writes it, evicting from the tail with `_currentBackups[^1]`. */
  method RemoveOldBackups(backups0: seq<string>, files0: set<string>, capacity: nat)
    returns (backups: seq<string>, files: set<string>, io: seq<Io>)
    ensures |backups| <= capacity
    ensures Trimmed(backups, files, io) == Trim(backups0, files0, capacity)
  {
    backups, files, io := backups0, files0, [];
    while |backups| > capacity
      invariant Trim(backups0, files0, capacity) == After(io, Trim(backups, files, capacity))
      decreases |backups|
    {
      var toRemove := backups[|backups| - 1];
      LoopStep(backups0, files0, capacity, backups, files, io);
      if toRemove in files {
        io := io + [Delete(toRemove)];
      }
      files := files - {toRemove};
      backups := backups[..|backups| - 1];
    }
  }
}
