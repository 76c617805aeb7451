/** What a switch and a cleanup do to the directory that the current file names, with crashes at any point. */
module DirTheorems {
  import opened Common
  import opened DirSwitch

  // ----- Old or new -----

  /** In `dir` the current file is absent, if `old` is None, or names `old`, or names `db`. */
  ghost predicate OldOrNew(d: Disk, dir: Directory, hash: Hash, prior: Option<string>, db: string) {
    || (CURRENT !in dir && prior.None?)
    || (prior.Some? && Names(d, dir, hash, prior.value))
    || Names(d, dir, hash, db)
  }

  ghost predicate AllOldOrNew(s: State, hash: Hash, prior: Option<string>, db: string) {
    forall k :: 0 <= k < |s.disk.history| ==> OldOrNew(s.disk, s.disk.history[k], hash, prior, db)
  }

  /** The step belongs to a switch to `db`, or to anything but a switch. */
  predicate SwitchesTo(a: Action, db: string) {
    a.Create? ==> a.db == db
  }

  predicate IsSaving(pc: Pc) {
    pc.Created? || pc.HashWritten? || pc.NameWritten? || pc.Saved?
  }

  predicate PcFor(pc: Pc, db: string) {
    IsSaving(pc) || pc.Renamed? ==> pc.db == db
  }

  /** Files that some directory shows as current do not change. */
  lemma CurrentFileStays(s: State, a: Action, hash: Hash, dir: Directory, db: string)
    requires Inv(s, hash) && Enabled(s, a) && dir in s.disk.history && Names(s.disk, dir, hash, db)
    ensures Names(Next(s, a, hash).disk, dir, hash, db)
  {
    var k :| 0 <= k < |s.disk.history| && s.disk.history[k] == dir;
    if (a.WriteHash? || a.WriteName? || a.SyncFile?) || (a.Fail? && (s.pc.Created? || s.pc.HashWritten?)) {
      assert Private(s.disk, s.pc.inode);
      assert s.disk.history[k][CURRENT] != File(s.pc.inode);
    }
  }

  /** A directory that a step adds shows the current file of the one before it, but for the rename. */
  lemma NewDirectory(s: State, a: Action, hash: Hash, dir: Directory)
    requires Inv(s, hash) && Enabled(s, a) && dir in Next(s, a, hash).disk.history
    ensures dir in s.disk.history || a.Rename? || (CURRENT in dir <==> CURRENT in Dir(s.disk))
    ensures dir in s.disk.history || a.Rename? || (CURRENT in dir ==> dir[CURRENT] == Dir(s.disk)[CURRENT])
    ensures a.Rename? && dir !in s.disk.history ==> Names(Next(s, a, hash).disk, dir, hash, s.pc.db)
  {
  }

  lemma StepOldOrNew(s: State, a: Action, hash: Hash, prior: Option<string>, db: string)
    requires Inv(s, hash) && Enabled(s, a) && SwitchesTo(a, db) && PcFor(s.pc, db) && AllOldOrNew(s, hash, prior, db)
    ensures AllOldOrNew(Next(s, a, hash), hash, prior, db) && PcFor(Next(s, a, hash).pc, db)
  {
    var s' := Next(s, a, hash);
    forall k | 0 <= k < |s'.disk.history|
      ensures OldOrNew(s'.disk, s'.disk.history[k], hash, prior, db)
    {
      var dir := s'.disk.history[k];
      NewDirectory(s, a, hash, dir);
      if dir in s.disk.history {
        StaysOldOrNew(s, a, hash, dir, prior, db);
      } else if !a.Rename? {
        StaysOldOrNew(s, a, hash, Dir(s.disk), prior, db);
      }
    }
  }

  lemma StaysOldOrNew(s: State, a: Action, hash: Hash, dir: Directory, prior: Option<string>, db: string)
    requires Inv(s, hash) && Enabled(s, a) && dir in s.disk.history && AllOldOrNew(s, hash, prior, db)
    ensures OldOrNew(Next(s, a, hash).disk, dir, hash, prior, db)
  {
    var k :| 0 <= k < |s.disk.history| && s.disk.history[k] == dir;
    assert OldOrNew(s.disk, s.disk.history[k], hash, prior, db);
    if prior.Some? && Names(s.disk, dir, hash, prior.value) {
      CurrentFileStays(s, a, hash, dir, prior.value);
    } else if Names(s.disk, dir, hash, db) {
      CurrentFileStays(s, a, hash, dir, db);
    }
  }

  /**
   While the node switches from `prior` to `db`, and crashes and tries again, whatever comes back names `prior` or
   `db`.
   */
  lemma {:induction false} SwitchIsAtomic(s: State, run: seq<Action>, hash: Hash, prior: Option<string>, db: string)
    requires Inv(s, hash) && ValidRun(s, run, hash) && PcFor(s.pc, db) && AllOldOrNew(s, hash, prior, db)
    requires forall i :: 0 <= i < |run| ==> SwitchesTo(run[i], db)
    ensures AllOldOrNew(After(s, run, hash), hash, prior, db)
    decreases |run|
  {
    if |run| > 0 {
      StepOldOrNew(s, run[0], hash, prior, db);
      StepKeepsInv(s, run[0], hash);
      SwitchIsAtomic(Next(s, run[0], hash), run[1..], hash, prior, db);
    }
  }

  /** Once the replacing call has returned, only the new name can come back. */
  lemma ReplaceIsDurable(s: State, hash: Hash)
    requires Inv(s, hash) && s.pc.Renamed?
    ensures AllNamed(Next(s, SyncRename, hash), hash, s.pc.db)
  {
  }

  // ----- The named directory -----

  ghost predicate AllNamed(s: State, hash: Hash, db: string) {
    forall k :: 0 <= k < |s.disk.history| ==> Names(s.disk, s.disk.history[k], hash, db)
  }

  /** A name that neither of the two files has. */
  predicate IsDbName(db: string) {
    db != CURRENT && db != UPDATING
  }

  ghost predicate GoodNames(s: State) {
    forall db :: db in s.saved ==> IsDbName(db)
  }

  predicate GoodPc(pc: Pc) {
    IsSaving(pc) ==> IsDbName(pc.db)
  }

  lemma StepKeepsGoodNames(s: State, a: Action, hash: Hash)
    requires HasDir(s.disk) && Enabled(s, a) && (a.Create? ==> IsDbName(a.db)) && GoodNames(s) && GoodPc(s.pc)
    ensures GoodNames(Next(s, a, hash)) && GoodPc(Next(s, a, hash).pc)
  {
  }

  lemma NamesOnce(d: Disk, dir: Directory, hash: Hash, a: string, b: string)
    requires Names(d, dir, hash, a) && Names(d, dir, hash, b)
    ensures a == b
  {
    ContentReads(hash, a);
    ContentReads(hash, b);
  }

  lemma NamedIsSaved(s: State, dir: Directory, hash: Hash, db: string)
    requires AllCurrentOk(s, hash) && dir in s.disk.history && Names(s.disk, dir, hash, db)
    ensures db in s.saved
  {
    var k :| 0 <= k < |s.disk.history| && s.disk.history[k] == dir;
    assert CurrentOk(s, s.disk.history[k], hash);
    var db' :| db' in s.saved && Content(hash, db') == Content(hash, db);
    ContentReads(hash, db);
    ContentReads(hash, db');
  }

  /** Whether a directory that may come back names `db` does not change. */
  lemma NameStays(s: State, a: Action, hash: Hash, dir: Directory, db: string)
    requires Inv(s, hash) && Enabled(s, a) && dir in s.disk.history
    ensures Names(Next(s, a, hash).disk, dir, hash, db) <==> Names(s.disk, dir, hash, db)
  {
    var k :| 0 <= k < |s.disk.history| && s.disk.history[k] == dir;
    assert CurrentOk(s, s.disk.history[k], hash);
    if CURRENT in dir {
      var name :| name in s.saved && s.disk.inodes[dir[CURRENT].inode].data == Content(hash, name);
      assert Names(s.disk, dir, hash, name);
      CurrentFileStays(s, a, hash, dir, name);
      if Names(s.disk, dir, hash, db) {
        NamesOnce(s.disk, dir, hash, name, db);
      }
      if Names(Next(s, a, hash).disk, dir, hash, db) {
        NamesOnce(Next(s, a, hash).disk, dir, hash, name, db);
      }
    }
  }

  /** Directories with the same current file name the same. */
  lemma SameCurrentSameName(d: Disk, dir: Directory, dir': Directory, hash: Hash, db: string)
    requires CURRENT in dir <==> CURRENT in dir'
    requires CURRENT in dir ==> dir[CURRENT] == dir'[CURRENT]
    ensures Names(d, dir, hash, db) <==> Names(d, dir', hash, db)
  {
  }

  /** A step that is not a power loss takes away at most the temporary file, or what the cleanup is removing. */
  lemma OnlyCleanupRemoves(s: State, a: Action, hash: Hash, x: string)
    requires Inv(s, hash) && Enabled(s, a) && !a.PowerLoss? && x in Dir(s.disk) && x !in Dir(Next(s, a, hash).disk)
    ensures x == UPDATING || (a.RemoveNext? && s.pc.Cleaning? && x != s.pc.db)
  {
  }

  /** What the directory names after a step other than the rename, it named before, and holds it if it did. */
  lemma NamedStaysHeld(s: State, a: Action, hash: Hash, db: string)
    requires Inv(s, hash) && Enabled(s, a) && GoodNames(s) && !a.PowerLoss? && !a.Rename?
    requires Names(Next(s, a, hash).disk, Dir(Next(s, a, hash).disk), hash, db)
    ensures Names(s.disk, Dir(s.disk), hash, db)
    ensures db in Dir(s.disk) ==> db in Dir(Next(s, a, hash).disk)
  {
    var s' := Next(s, a, hash);
    SameCurrentSameName(s'.disk, Dir(s'.disk), Dir(s.disk), hash, db);
    NameStays(s, a, hash, Dir(s.disk), db);
    NamedIsSaved(s, Dir(s.disk), hash, db);
    if db in Dir(s.disk) && db !in Dir(s'.disk) {
      OnlyCleanupRemoves(s, a, hash, db);
      NamesOnce(s.disk, Dir(s.disk), hash, db, s.pc.db);
      assert false;
    }
  }

  /** What may come back after a step could come back before, or is what processes see now. */
  lemma ComesBack(s: State, a: Action, hash: Hash, i: nat)
    requires HasDir(s.disk) && Enabled(s, a) && i < |Next(s, a, hash).disk.history|
    ensures var h, h' := s.disk.history, Next(s, a, hash).disk.history;
      h'[i] in h || (!a.PowerLoss? && i == |h'| - 1)
    ensures var h, h' := s.disk.history, Next(s, a, hash).disk.history;
      |h'| > 1 ==> !a.PowerLoss? && |h| <= |h'| <= |h| + 1 && (i < |h| ==> h'[i] == h[i])
  {
  }

  /** Every directory that may come back holds the directory it names. */
  ghost predicate Held(s: State, hash: Hash) {
    forall k, db :: 0 <= k < |s.disk.history| && Names(s.disk, s.disk.history[k], hash, db) ==> db in s.disk.history[k]
  }

  /** The step saves only proper names and renames only when the new directory is there. */
  ghost predicate Prepared(s: State, a: Action)
    requires HasDir(s.disk)
  {
    (a.Create? ==> IsDbName(a.db)) && (a.Rename? && s.pc.Saved? ==> s.pc.db in Dir(s.disk))
  }

  ghost predicate PreparedRun(s: State, run: seq<Action>, hash: Hash)
    requires ValidRun(s, run, hash)
    decreases |run|
  {
    |run| > 0 ==> Prepared(s, run[0]) && PreparedRun(Next(s, run[0], hash), run[1..], hash)
  }

  lemma HeldBefore(s: State, hash: Hash, dir: Directory, db: string)
    requires Held(s, hash) && dir in s.disk.history && Names(s.disk, dir, hash, db)
    ensures db in dir
  {
    var k :| 0 <= k < |s.disk.history| && s.disk.history[k] == dir;
  }

  lemma RenameNames(s: State, hash: Hash)
    requires Inv(s, hash) && Enabled(s, Rename)
    ensures var s' := Next(s, Rename, hash); Names(s'.disk, Dir(s'.disk), hash, s.pc.db)
    ensures forall x :: x in Dir(s.disk) && x != UPDATING ==> x in Dir(Next(s, Rename, hash).disk)
  {
  }

  lemma StepKeepsHeld(s: State, a: Action, hash: Hash)
    requires Inv(s, hash) && Enabled(s, a) && GoodNames(s) && Held(s, hash) && Prepared(s, a)
    ensures Held(Next(s, a, hash), hash)
  {
    var s' := Next(s, a, hash);
    forall i: nat, db | i < |s'.disk.history| && Names(s'.disk, s'.disk.history[i], hash, db)
      ensures db in s'.disk.history[i]
    {
      var dir := s'.disk.history[i];
      ComesBack(s, a, hash, i);
      if dir in s.disk.history {
        NameStays(s, a, hash, dir, db);
        HeldBefore(s, hash, dir, db);
      } else if a.Rename? {
        RenameNames(s, hash);
        NamesOnce(s'.disk, dir, hash, db, s.pc.db);
      } else {
        NamedStaysHeld(s, a, hash, db);
        HeldBefore(s, hash, Dir(s.disk), db);
      }
    }
  }

  /**
   Through any run of switches, cleanups, failures, kills and power losses, a cleanup right after a rename that is
   not on disk yet included, every directory that may come back holds the database directory it names, if each
   switch is to a directory that is there.
   */
  lemma {:induction false} NamedDirectoryIsKept(s: State, run: seq<Action>, hash: Hash)
    requires Inv(s, hash) && ValidRun(s, run, hash) && PreparedRun(s, run, hash)
    requires GoodNames(s) && GoodPc(s.pc) && Held(s, hash)
    ensures Held(After(s, run, hash), hash)
    decreases |run|
  {
    if |run| > 0 {
      StepKeepsHeld(s, run[0], hash);
      StepKeepsGoodNames(s, run[0], hash);
      StepKeepsInv(s, run[0], hash);
      NamedDirectoryIsKept(Next(s, run[0], hash), run[1..], hash);
    }
  }

  lemma NamedDirectoryIsKeptFromInit(run: seq<Action>, hash: Hash)
    requires ValidRun(INIT, run, hash) && PreparedRun(INIT, run, hash)
    ensures Held(After(INIT, run, hash), hash)
  {
    InitInv(hash);
    NamedDirectoryIsKept(INIT, run, hash);
  }

  /** A step keeps every named directory if and only if it does not rename to a directory that is missing. */
  lemma StepKeepsHeldIff(s: State, a: Action, hash: Hash)
    requires Inv(s, hash) && Enabled(s, a) && GoodNames(s) && GoodPc(s.pc) && Held(s, hash)
    requires a.Create? ==> IsDbName(a.db)
    ensures Held(Next(s, a, hash), hash) <==> Prepared(s, a)
  {
    if Prepared(s, a) {
      StepKeepsHeld(s, a, hash);
    } else {
      RenameToMissing(s, hash);
    }
  }

  lemma RenameToMissing(s: State, hash: Hash)
    requires Inv(s, hash) && Enabled(s, Rename) && GoodPc(s.pc) && s.pc.db !in Dir(s.disk)
    ensures !Held(Next(s, Rename, hash), hash)
  {
    var d := Next(s, Rename, hash).disk;
    RenameNames(s, hash);
    assert d.history[|d.history| - 1] == Dir(d) && s.pc.db !in Dir(d);
  }

  /** The names that are saved are not those of the two files. */
  ghost predicate SavesDbNames(run: seq<Action>) {
    forall i :: 0 <= i < |run| && run[i].Create? ==> IsDbName(run[i].db)
  }

  ghost predicate HeldThroughout(s: State, run: seq<Action>, hash: Hash)
    requires ValidRun(s, run, hash)
    decreases |run|
  {
    Held(s, hash) && (|run| > 0 ==> HeldThroughout(Next(s, run[0], hash), run[1..], hash))
  }

  /** Over whole runs: the named directory is there at all times if and only if each switch is to one that is. */
  lemma {:induction false} HeldThroughoutIff(s: State, run: seq<Action>, hash: Hash)
    requires Inv(s, hash) && ValidRun(s, run, hash) && SavesDbNames(run)
    requires GoodNames(s) && GoodPc(s.pc) && Held(s, hash)
    ensures HeldThroughout(s, run, hash) <==> PreparedRun(s, run, hash)
    decreases |run|
  {
    if |run| > 0 {
      StepKeepsHeldIff(s, run[0], hash);
      if Prepared(s, run[0]) {
        StepKeepsGoodNames(s, run[0], hash);
        StepKeepsInv(s, run[0], hash);
        HeldThroughoutIff(Next(s, run[0], hash), run[1..], hash);
      } else {
        assert !Held(Next(s, run[0], hash), hash);
      }
    }
  }

  lemma HeldThroughoutFromInitIff(run: seq<Action>, hash: Hash)
    requires ValidRun(INIT, run, hash) && SavesDbNames(run)
    ensures HeldThroughout(INIT, run, hash) <==> PreparedRun(INIT, run, hash)
  {
    InitInv(hash);
    HeldThroughoutIff(INIT, run, hash);
  }

  lemma Prepend(s: State, a: Action, rest: seq<Action>, hash: Hash)
    requires HasDir(s.disk) && Enabled(s, a) && ValidRun(Next(s, a, hash), rest, hash)
    ensures ValidRun(s, [a] + rest, hash) && After(s, [a] + rest, hash) == After(Next(s, a, hash), rest, hash)
  {
    assert ([a] + rest)[1..] == rest;
  }

  /** The first three operations of a save on an empty disk. */
  lemma SaveOnEmptyDisk(db: string, hash: Hash, s: State)
    requires s == State(Disk([map[], map[UPDATING := File(0)]], map[0 := Inode(Content(hash, db), false)], 1),
                        NameWritten(db, 0), {})
    ensures ValidRun(INIT, [Create(db), WriteHash, WriteName], hash)
    ensures After(INIT, [Create(db), WriteHash, WriteName], hash) == s
  {
    var s1 := Next(INIT, Create(db), hash);
    var s2 := Next(s1, WriteHash, hash);
    assert s1.disk.inodes[0].data + Checksum(hash, db) == Checksum(hash, db);
    assert Next(s2, WriteName, hash) == s;
    Prepend(s2, WriteName, [], hash);
    Prepend(s1, WriteHash, [WriteName], hash);
    Prepend(INIT, Create(db), [WriteHash, WriteName], hash);
  }

  lemma {:induction false} RunsJoin(s: State, a: seq<Action>, b: seq<Action>, hash: Hash)
    requires ValidRun(s, a, hash) && ValidRun(After(s, a, hash), b, hash)
    ensures ValidRun(s, a + b, hash) && After(s, a + b, hash) == After(After(s, a, hash), b, hash)
    decreases |a|
  {
    if |a| == 0 {
      assert a + b == b;
    } else {
      assert (a + b)[1..] == a[1..] + b;
      RunsJoin(Next(s, a[0], hash), a[1..], b, hash);
    }
  }

  /** The second half of the switch. */
  lemma SwitchOnEmptyDisk(db: string, hash: Hash, s: State, s': State)
    requires s == State(Disk([map[], map[UPDATING := File(0)]], map[0 := Inode(Content(hash, db), false)], 1),
                        NameWritten(db, 0), {})
    requires s' == State(Disk([map[CURRENT := File(0)]], map[0 := Inode(Content(hash, db), true)], 1), Idle, {db})
    ensures ValidRun(s, [SyncFile, Rename, SyncRename, Kill], hash)
    ensures After(s, [SyncFile, Rename, SyncRename, Kill], hash) == s'
  {
    var s1 := Next(s, SyncFile, hash);
    var s2 := Next(s1, Rename, hash);
    assert Dir(s2.disk) == map[CURRENT := File(0)];
    var s3 := Next(s2, SyncRename, hash);
    assert Next(s3, Kill, hash) == s';
    Prepend(s3, Kill, [], hash);
    Prepend(s2, SyncRename, [Kill], hash);
    Prepend(s1, Rename, [SyncRename, Kill], hash);
    Prepend(s, SyncFile, [Rename, SyncRename, Kill], hash);
  }

  /** The operations of opening a node that has a current file, and crashes. */
  predicate CleansUp(a: Action) {
    a.RemoveUpdating? || a.ReadCurrent? || a.RemoveNext? || a.SyncDir? || a.Fail? || a.Kill? || a.PowerLoss?
  }

  /** Whatever comes back names `db` and does not hold it. */
  ghost predicate Missing(s: State, hash: Hash, db: string) {
    && HasDir(s.disk)
    && forall k :: 0 <= k < |s.disk.history| ==> Names(s.disk, s.disk.history[k], hash, db) && db !in s.disk.history[k]
  }

  /**
   A new node switches before its directory is created: a kill in between leaves a current file, safe on disk, that
   names a directory that is not there.
   */
  lemma KillBeforeCreation(db: string, hash: Hash)
    requires IsDbName(db)
    ensures var run := [Create(db), WriteHash, WriteName] + [SyncFile, Rename, SyncRename, Kill];
      && ValidRun(INIT, run, hash) && SavesDbNames(run)
      && Missing(After(INIT, run, hash), hash, db) && !Held(After(INIT, run, hash), hash)
  {
    var s := State(Disk([map[], map[UPDATING := File(0)]], map[0 := Inode(Content(hash, db), false)], 1),
                   NameWritten(db, 0), {});
    var s' := State(Disk([map[CURRENT := File(0)]], map[0 := Inode(Content(hash, db), true)], 1), Idle, {db});
    SaveOnEmptyDisk(db, hash, s);
    SwitchOnEmptyDisk(db, hash, s, s');
    RunsJoin(INIT, [Create(db), WriteHash, WriteName], [SyncFile, Rename, SyncRename, Kill], hash);
    assert Names(s'.disk, s'.disk.history[0], hash, db);
  }

  /** Reading gives that name then, and a look for the directory fails. */
  lemma MissingIsRead(s: State, hash: Hash, db: string)
    requires Missing(s, hash, db) && db != ""
    ensures GetCurrent(s.disk, hash) == Ok(db) && db !in Dir(s.disk)
  {
    ContentReads(hash, db);
    assert Names(s.disk, s.disk.history[|s.disk.history| - 1], hash, db);
  }

  lemma StepKeepsMissing(s: State, a: Action, hash: Hash, db: string)
    requires Inv(s, hash) && Enabled(s, a) && Missing(s, hash, db) && CleansUp(a)
    ensures Missing(Next(s, a, hash), hash, db)
  {
    var s' := Next(s, a, hash);
    forall i: nat | i < |s'.disk.history|
      ensures Names(s'.disk, s'.disk.history[i], hash, db) && db !in s'.disk.history[i]
    {
      ComesBack(s, a, hash, i);
      NameStays(s, a, hash, Dir(s.disk), db);
      if s'.disk.history[i] in s.disk.history {
        NameStays(s, a, hash, s'.disk.history[i], db);
      }
    }
  }

  /** However often the node is opened again after that, its cleanups do not help. */
  lemma {:induction false} MissingStaysMissing(s: State, run: seq<Action>, hash: Hash, db: string)
    requires Inv(s, hash) && ValidRun(s, run, hash) && Missing(s, hash, db)
    requires forall i :: 0 <= i < |run| ==> CleansUp(run[i])
    ensures Missing(After(s, run, hash), hash, db)
    decreases |run|
  {
    if |run| > 0 {
      StepKeepsMissing(s, run[0], hash, db);
      StepKeepsInv(s, run[0], hash);
      MissingStaysMissing(Next(s, run[0], hash), run[1..], hash, db);
    }
  }

  // ----- Switches to a directory that is created later -----

  /** If `dir` holds what it names and `later` names the same, `later` holds it. */
  ghost predicate Outlasts(d: Disk, dir: Directory, later: Directory, hash: Hash) {
    forall db :: db in dir && Names(d, dir, hash, db) && Names(d, later, hash, db) ==> db in later
  }

  /** Where a directory that may come back holds what it names, so do all later ones that name the same. */
  ghost predicate Lasting(s: State, hash: Hash) {
    forall i, j :: 0 <= i < j < |s.disk.history| ==> Outlasts(s.disk, s.disk.history[i], s.disk.history[j], hash)
  }

  /** The name being saved is not yet that of any directory that may come back. */
  ghost predicate NewName(s: State, hash: Hash) {
    IsSaving(s.pc) ==> forall dir :: dir in s.disk.history ==> !Names(s.disk, dir, hash, s.pc.db)
  }

  /** Names are random: each save takes one that no save had before. */
  ghost predicate Fresh(s: State, a: Action) {
    a.Create? ==> IsDbName(a.db) && a.db !in s.saved
  }

  ghost predicate FreshRun(s: State, run: seq<Action>, hash: Hash)
    requires ValidRun(s, run, hash)
    decreases |run|
  {
    |run| > 0 ==> Fresh(s, run[0]) && FreshRun(Next(s, run[0], hash), run[1..], hash)
  }

  lemma StepKeepsNewName(s: State, a: Action, hash: Hash)
    requires Inv(s, hash) && Enabled(s, a) && NewName(s, hash) && Fresh(s, a)
    ensures NewName(Next(s, a, hash), hash)
  {
    var s' := Next(s, a, hash);
    if IsSaving(s'.pc) {
      forall dir | dir in s'.disk.history
        ensures !Names(s'.disk, dir, hash, s'.pc.db)
      {
        var before := if dir in s.disk.history then dir else Dir(s.disk);
        NewDirectory(s, a, hash, dir);
        SameCurrentSameName(s'.disk, dir, before, hash, s'.pc.db);
        NameStays(s, a, hash, before, s'.pc.db);
        if a.Create? && Names(s.disk, before, hash, a.db) {
          NamedIsSaved(s, before, hash, a.db);
          assert false;
        }
      }
    }
  }

  lemma RenameNamesNew(s: State, hash: Hash, dir: Directory, db: string)
    requires Inv(s, hash) && Enabled(s, Rename) && NewName(s, hash) && dir in s.disk.history
    requires Names(s.disk, dir, hash, db)
    ensures var s' := Next(s, Rename, hash); !Names(s'.disk, Dir(s'.disk), hash, db)
  {
    RenameNames(s, hash);
    ContentReads(hash, db);
    ContentReads(hash, s.pc.db);
  }

  /** Two directories that were there before the step. */
  lemma StillOutlasts(s: State, a: Action, hash: Hash, dir: Directory, later: Directory)
    requires Inv(s, hash) && Enabled(s, a) && dir in s.disk.history && later in s.disk.history
    requires Outlasts(s.disk, dir, later, hash)
    ensures Outlasts(Next(s, a, hash).disk, dir, later, hash)
  {
    forall db | db in dir && Names(Next(s, a, hash).disk, dir, hash, db)
      && Names(Next(s, a, hash).disk, later, hash, db)
      ensures db in later
    {
      NameStays(s, a, hash, dir, db);
      NameStays(s, a, hash, later, db);
    }
  }

  /** A directory that was there before the step against the one that processes see after it. */
  lemma LastOutlasts(s: State, a: Action, hash: Hash, i: nat)
    requires Inv(s, hash) && Enabled(s, a) && GoodNames(s) && NewName(s, hash) && Lasting(s, hash) && !a.PowerLoss?
    requires i < |s.disk.history|
    ensures Outlasts(Next(s, a, hash).disk, s.disk.history[i], Dir(Next(s, a, hash).disk), hash)
  {
    var s', dir, last := Next(s, a, hash), s.disk.history[i], |s.disk.history| - 1;
    forall db | db in dir && Names(s'.disk, dir, hash, db)
      ensures Names(s'.disk, Dir(s'.disk), hash, db) ==> db in Dir(s'.disk)
    {
      NameStays(s, a, hash, dir, db);
      if a.Rename? {
        RenameNamesNew(s, hash, dir, db);
      } else if Names(s'.disk, Dir(s'.disk), hash, db) {
        NamedStaysHeld(s, a, hash, db);
        assert i < last ==> Outlasts(s.disk, s.disk.history[i], s.disk.history[last], hash);
      }
    }
  }

  lemma StepKeepsLasting(s: State, a: Action, hash: Hash)
    requires Inv(s, hash) && Enabled(s, a) && GoodNames(s) && NewName(s, hash) && Lasting(s, hash)
    ensures Lasting(Next(s, a, hash), hash)
  {
    var s' := Next(s, a, hash);
    var h, h' := s.disk.history, s'.disk.history;
    forall i: nat, j: nat | i < j < |h'|
      ensures Outlasts(s'.disk, h'[i], h'[j], hash)
    {
      ComesBack(s, a, hash, i);
      ComesBack(s, a, hash, j);
      if j < |h| {
        StillOutlasts(s, a, hash, h[i], h[j]);
      } else {
        LastOutlasts(s, a, hash, i);
      }
    }
  }

  /**
   Also when a switch comes before its directory is created, as on a new node: once a directory that may come back
   holds what it names, every later one that names the same does, through any run in which names are not reused.
   */
  lemma {:induction false} NamedDirectoryLasts(s: State, run: seq<Action>, hash: Hash)
    requires Inv(s, hash) && ValidRun(s, run, hash) && FreshRun(s, run, hash)
    requires GoodNames(s) && GoodPc(s.pc) && NewName(s, hash) && Lasting(s, hash)
    ensures Lasting(After(s, run, hash), hash)
    decreases |run|
  {
    if |run| > 0 {
      StepKeepsLasting(s, run[0], hash);
      StepKeepsNewName(s, run[0], hash);
      StepKeepsGoodNames(s, run[0], hash);
      StepKeepsInv(s, run[0], hash);
      NamedDirectoryLasts(Next(s, run[0], hash), run[1..], hash);
    }
  }

  lemma NamedDirectoryLastsFromInit(run: seq<Action>, hash: Hash)
    requires ValidRun(INIT, run, hash) && FreshRun(INIT, run, hash)
    ensures Lasting(After(INIT, run, hash), hash)
  {
    InitInv(hash);
    NamedDirectoryLasts(INIT, run, hash);
  }

  // ----- Cleanup -----

  lemma {:induction false} CleanupIsPrepared(s: State, run: seq<Action>, hash: Hash)
    requires ValidRun(s, run, hash) && forall i :: 0 <= i < |run| ==> CleansUp(run[i])
    ensures PreparedRun(s, run, hash)
    decreases |run|
  {
    if |run| > 0 {
      CleanupIsPrepared(Next(s, run[0], hash), run[1..], hash);
    }
  }

  /**
   Cleanups, interrupted by crashes and started again any number of times, whether or not the last rename is on disk.
   */
  lemma CleanupKeepsCurrent(s: State, run: seq<Action>, hash: Hash)
    requires Inv(s, hash) && ValidRun(s, run, hash) && GoodNames(s) && GoodPc(s.pc) && Held(s, hash)
    requires forall i :: 0 <= i < |run| ==> CleansUp(run[i])
    ensures Held(After(s, run, hash), hash)
  {
    CleanupIsPrepared(s, run, hash);
    NamedDirectoryIsKept(s, run, hash);
  }

  /** What the loop of a cleanup leaves. */
  function Leftover(dir: Directory, db: string, left: seq<string>): Directory {
    map x | x in dir && (x !in left || x == CURRENT || x == db) :: dir[x]
  }

  /** A loop turn takes the front of the list away. */
  lemma LeftoverStep(s: State, hash: Hash)
    requires HasDir(s.disk) && s.pc.Cleaning? && |s.pc.left| > 0
    ensures var s' := Next(s, RemoveNext, hash);
      && HasDir(s'.disk) && s'.pc == Cleaning(s.pc.db, s.pc.left[1..])
      && Leftover(Dir(s'.disk), s.pc.db, s.pc.left[1..]) == Leftover(Dir(s.disk), s.pc.db, s.pc.left)
  {
    assert s.pc.left == [s.pc.left[0]] + s.pc.left[1..];
  }

  /** If the current file were torn, a cleanup would read an empty name and keep nothing but that file. */
  lemma TornFileLosesEverything(s: State, files: seq<string>, hash: Hash)
    requires HasDir(s.disk) && Enabled(s, ReadCurrent(files))
    requires CURRENT in Dir(s.disk) && Dir(s.disk)[CURRENT].File? && Dir(s.disk)[CURRENT].inode in s.disk.inodes
    requires "" !in Dir(s.disk)
    requires var data := s.disk.inodes[Dir(s.disk)[CURRENT].inode].data;
      |data| > 8 && data[..8] != Checksum(hash, data[8..])
    ensures var s' := Next(s, ReadCurrent(files), hash);
      s'.pc == Cleaning("", files) && Leftover(Dir(s'.disk), "", files).Keys == {CURRENT}
  {
  }
}
