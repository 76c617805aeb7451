/**
 The switch of the current database directory, operation by operation, on a disk that can lose what has not
 been synced. Changes to the directory reach the disk in order, but any number of the last ones may be lost;
 a file that has not been synced may come back with any contents.
 */
module DirSwitch {
  import opened Common

  datatype Node = File(inode: nat) | Folder

  type Directory = map<string, Node>

  datatype Inode = Inode(data: string, synced: bool)

  /** `history` is the directory after each change since it was last synced; the last one is what processes see. */
  datatype Disk = Disk(history: seq<Directory>, inodes: map<nat, Inode>, next: nat)

  const CURRENT := "current"
  const UPDATING := "current.updating"

  /** A digest, of which the first eight bytes are used. MD5 has sixteen; a shorter one would be padded. */
  type Hash = string -> string

  function Checksum(hash: Hash, s: string): (sum: string)
    ensures |sum| == 8
  {
    (hash(s) + "        ")[..8]
  }

  function Content(hash: Hash, db: string): string {
    Checksum(hash, db) + db
  }

  /** Where the node is in SaveCurrentDBDirName, ReplaceCurrentDBFile or CleanupNodeDataDir. */
  datatype Pc =
    | Idle
    | Created(db: string, inode: nat)
    | HashWritten(db: string, inode: nat)
    | NameWritten(db: string, inode: nat)
    | Saved(db: string, inode: nat)
    | Renamed(db: string)
    | UpdatingRemoved
    | Cleaning(db: string, left: seq<string>)

  /** `saved` are the names of all saves that got past their fsync. */
  datatype State = State(disk: Disk, pc: Pc, saved: set<string>)

  datatype Action =
    | Create(db: string)
    | WriteHash
    | WriteName
    | SyncFile
    | Rename
    | SyncRename
    | RemoveUpdating
    | ReadCurrent(files: seq<string>)
    | RemoveNext
    | MakeFolder(name: string)
    | SyncDir
    | Fail(written: string)
    | Kill
    | PowerLoss(kept: nat, torn: nat -> string)

  const INIT := State(Disk([map[]], map[], 0), Idle, {})

  predicate HasDir(d: Disk) {
    |d.history| > 0
  }

  /** What processes see. */
  function Dir(d: Disk): Directory
    requires HasDir(d)
  {
    d.history[|d.history| - 1]
  }

  function Change(d: Disk, dir: Directory): Disk {
    d.(history := d.history + [dir])
  }

  function SyncedDir(d: Disk): Disk
    requires HasDir(d)
  {
    d.(history := [Dir(d)])
  }

  function Append(d: Disk, i: nat, data: string): Disk {
    if i in d.inodes then d.(inodes := d.inodes[i := Inode(d.inodes[i].data + data, false)]) else d
  }

  function Synced(d: Disk, i: nat): Disk {
    if i in d.inodes then d.(inodes := d.inodes[i := Inode(d.inodes[i].data, true)]) else d
  }

  datatype ReadError = NoFile | TooShort

  /** GetCurrentDBDirName: a wrong checksum gives an empty name and no error. */
  function GetCurrent(d: Disk, hash: Hash): Result<string, ReadError>
    requires HasDir(d)
  {
    if CURRENT !in Dir(d) || Dir(d)[CURRENT].Folder? || Dir(d)[CURRENT].inode !in d.inodes then Err(NoFile)
    else
      var data := d.inodes[Dir(d)[CURRENT].inode].data;
      if |data| <= 8 then Err(TooShort)
      else if data[..8] != Checksum(hash, data[8..]) then Ok("")
      else Ok(data[8..])
  }

  /** `files` lists a directory. */
  predicate Lists(files: seq<string>, dir: Directory) {
    (forall f :: f in files ==> f in dir) && (forall f :: f in dir ==> f in files)
  }

  predicate Enabled(s: State, a: Action)
    requires HasDir(s.disk)
  {
    match a
    case Create(_) => s.pc.Idle?
    case WriteHash => s.pc.Created?
    case WriteName => s.pc.HashWritten?
    case SyncFile => s.pc.NameWritten?
    case Rename => s.pc.Saved? && UPDATING in Dir(s.disk)
    case SyncRename => s.pc.Renamed?
    case RemoveUpdating => s.pc.Idle?
    case ReadCurrent(files) => s.pc.UpdatingRemoved? && Lists(files, Dir(s.disk))
    case RemoveNext => s.pc.Cleaning?
    case MakeFolder(name) => s.pc.Idle? && name != CURRENT && name != UPDATING && name !in Dir(s.disk)
    case SyncDir => true
    case Fail(_) => true
    case Kill => true
    case PowerLoss(kept, _) => kept < |s.disk.history|
  }

  function AfterLoss(d: Disk, kept: nat, torn: nat -> string): Disk
    requires kept < |d.history|
  {
    Disk([d.history[kept]], map i | i in d.inodes ::
      if d.inodes[i].synced then d.inodes[i] else Inode(torn(i), false), d.next)
  }

  function Next(s: State, a: Action, hash: Hash): State
    requires HasDir(s.disk) && Enabled(s, a)
  {
    var d, dir := s.disk, Dir(s.disk);
    match a
    case Create(db) =>
      var d' := Change(d, dir[UPDATING := File(d.next)]);
      s.(disk := d'.(inodes := d.inodes[d.next := Inode("", false)], next := d.next + 1), pc := Created(db, d.next))
    case WriteHash => s.(disk := Append(d, s.pc.inode, Checksum(hash, s.pc.db)), pc := HashWritten(s.pc.db, s.pc.inode))
    case WriteName => s.(disk := Append(d, s.pc.inode, s.pc.db), pc := NameWritten(s.pc.db, s.pc.inode))
    case SyncFile => State(Synced(d, s.pc.inode), Saved(s.pc.db, s.pc.inode), s.saved + {s.pc.db})
    case Rename => s.(disk := Change(d, (dir - {UPDATING})[CURRENT := dir[UPDATING]]), pc := Renamed(s.pc.db))
    case SyncRename => s.(disk := SyncedDir(d), pc := Idle)
    case RemoveUpdating => s.(disk := Change(d, dir - {UPDATING}), pc := UpdatingRemoved)
    case ReadCurrent(files) =>
      (match GetCurrent(d, hash)
       case Err(_) => s.(pc := Idle)
       case Ok(db) => s.(pc := Cleaning(db, files)))
    case RemoveNext =>
      if |s.pc.left| == 0 then s.(pc := Idle)
      else
        var x, pc := s.pc.left[0], Cleaning(s.pc.db, s.pc.left[1..]);
        if x == CURRENT || x == s.pc.db then s.(pc := pc) else s.(disk := Change(d, dir - {x}), pc := pc)
    case MakeFolder(name) => s.(disk := Change(d, dir[name := Folder]))
    case SyncDir => s.(disk := SyncedDir(d))
    case Fail(written) =>
      s.(disk := if s.pc.Created? || s.pc.HashWritten? then Append(d, s.pc.inode, written) else d, pc := Idle)
    case Kill => s.(pc := Idle)
    case PowerLoss(kept, torn) => s.(disk := AfterLoss(d, kept, torn), pc := Idle)
  }

  ghost predicate ValidRun(s: State, run: seq<Action>, hash: Hash)
    decreases |run|
  {
    HasDir(s.disk) && (|run| > 0 ==> Enabled(s, run[0]) && ValidRun(Next(s, run[0], hash), run[1..], hash))
  }

  ghost function After(s: State, run: seq<Action>, hash: Hash): State
    requires ValidRun(s, run, hash)
    decreases |run|
  {
    if |run| == 0 then s else After(Next(s, run[0], hash), run[1..], hash)
  }

  // ----- Never torn -----

  /** In directory `dir` the current file is absent or a synced file with the name of a finished save. */
  ghost predicate CurrentOk(s: State, dir: Directory, hash: Hash) {
    CURRENT in dir ==>
      && dir[CURRENT].File? && dir[CURRENT].inode in s.disk.inodes
      && var f := s.disk.inodes[dir[CURRENT].inode];
        f.synced && exists db :: db in s.saved && f.data == Content(hash, db)
  }

  ghost predicate AllCurrentOk(s: State, hash: Hash) {
    forall k :: 0 <= k < |s.disk.history| ==> CurrentOk(s, s.disk.history[k], hash)
  }

  ghost predicate InodesOk(d: Disk) {
    forall i :: i in d.inodes ==> i < d.next
  }

  /** The file being written is not the current file in any directory that may come back. */
  ghost predicate Private(d: Disk, i: nat) {
    i in d.inodes && forall k :: 0 <= k < |d.history| && CURRENT in d.history[k] ==> d.history[k][CURRENT] != File(i)
  }

  ghost predicate Updating(d: Disk, i: nat)
    requires HasDir(d)
  {
    UPDATING in Dir(d) && Dir(d)[UPDATING] == File(i)
  }

  /** In directory `dir` the current file holds exactly `db`. */
  ghost predicate Names(d: Disk, dir: Directory, hash: Hash, db: string) {
    && CURRENT in dir && dir[CURRENT].File? && dir[CURRENT].inode in d.inodes
    && d.inodes[dir[CURRENT].inode] == Inode(Content(hash, db), true)
  }

  ghost predicate PcOk(s: State, hash: Hash)
    requires HasDir(s.disk)
  {
    var d := s.disk;
    match s.pc
    case Created(db, i) => Private(d, i) && Updating(d, i) && d.inodes[i].data == ""
    case HashWritten(db, i) => Private(d, i) && Updating(d, i) && d.inodes[i].data == Checksum(hash, db)
    case NameWritten(db, i) => Private(d, i) && Updating(d, i) && d.inodes[i].data == Content(hash, db)
    case Saved(db, i) => i in d.inodes && Updating(d, i) && d.inodes[i] == Inode(Content(hash, db), true)
      && db in s.saved
    case Renamed(db) => Names(d, Dir(d), hash, db)
    case Cleaning(db, _) => Names(d, Dir(d), hash, db) && db != ""
    case _ => true
  }

  ghost predicate Inv(s: State, hash: Hash) {
    HasDir(s.disk) && InodesOk(s.disk) && AllCurrentOk(s, hash) && PcOk(s, hash)
  }

  lemma InitInv(hash: Hash)
    ensures Inv(INIT, hash)
  {
  }

  lemma WriteKeepsCurrent(s: State, s': State, hash: Hash, i: nat)
    requires AllCurrentOk(s, hash) && Private(s.disk, i)
    requires s'.disk.history == s.disk.history && s.saved <= s'.saved
    requires forall j :: j in s.disk.inodes ==>
      j in s'.disk.inodes && (j != i ==> s'.disk.inodes[j] == s.disk.inodes[j])
    ensures AllCurrentOk(s', hash)
  {
    forall k | 0 <= k < |s'.disk.history|
      ensures CurrentOk(s', s'.disk.history[k], hash)
    {
      assert CurrentOk(s, s.disk.history[k], hash);
    }
  }

  /** Directories with the same current file are as good as each other. */
  lemma NewDirKeepsCurrent(s: State, s': State, hash: Hash, dir: Directory)
    requires HasDir(s.disk) && AllCurrentOk(s, hash) && s'.disk.history == s.disk.history + [dir] && s'.saved == s.saved
    requires forall j :: j in s.disk.inodes ==> j in s'.disk.inodes && s'.disk.inodes[j] == s.disk.inodes[j]
    requires CurrentOk(s', dir, hash)
    ensures AllCurrentOk(s', hash)
  {
    forall k | 0 <= k < |s'.disk.history|
      ensures CurrentOk(s', s'.disk.history[k], hash)
    {
      if k < |s.disk.history| {
        assert CurrentOk(s, s.disk.history[k], hash);
      }
    }
  }

  predicate Saving(a: Action) {
    a.Create? || a.WriteHash? || a.WriteName? || a.SyncFile?
  }

  lemma SavingKeepsInv(s: State, a: Action, hash: Hash)
    requires Inv(s, hash) && Enabled(s, a) && Saving(a)
    ensures Inv(Next(s, a, hash), hash)
  {
    var s' := Next(s, a, hash);
    if a.Create? {
      assert CurrentOk(s, Dir(s.disk), hash);
      NewDirKeepsCurrent(s, s', hash, Dir(s.disk)[UPDATING := File(s.disk.next)]);
    } else {
      WriteKeepsCurrent(s, s', hash, s.pc.inode);
      if a.WriteHash? {
        assert "" + Checksum(hash, s.pc.db) == Checksum(hash, s.pc.db);
      }
    }
  }

  predicate Switching(a: Action) {
    a.Rename? || a.SyncRename? || a.RemoveUpdating? || a.ReadCurrent? || a.RemoveNext? || a.MakeFolder? || a.SyncDir?
  }

  lemma SyncKeepsInv(s: State, s': State, hash: Hash)
    requires Inv(s, hash) && s' == s.(disk := SyncedDir(s.disk))
    ensures Inv(s', hash)
  {
    assert CurrentOk(s, Dir(s.disk), hash);
  }

  lemma ContentReads(hash: Hash, db: string)
    ensures Content(hash, db)[..8] == Checksum(hash, db) && Content(hash, db)[8..] == db
  {
  }

  /** Reading a current file that is in order gives the name it holds, unless that is empty. */
  lemma ReadsWhatItNames(s: State, hash: Hash)
    requires HasDir(s.disk) && CurrentOk(s, Dir(s.disk), hash) && GetCurrent(s.disk, hash).Ok?
    ensures var db := GetCurrent(s.disk, hash).value; db in s.saved && db != "" && Names(s.disk, Dir(s.disk), hash, db)
  {
    var db :| db in s.saved && s.disk.inodes[Dir(s.disk)[CURRENT].inode].data == Content(hash, db);
    ContentReads(hash, db);
  }

  lemma ReadKeepsInv(s: State, files: seq<string>, hash: Hash)
    requires Inv(s, hash) && Enabled(s, ReadCurrent(files))
    ensures Inv(Next(s, ReadCurrent(files), hash), hash)
  {
    assert CurrentOk(s, Dir(s.disk), hash);
    if GetCurrent(s.disk, hash).Ok? {
      ReadsWhatItNames(s, hash);
    }
  }

  lemma RenameKeepsInv(s: State, hash: Hash)
    requires Inv(s, hash) && Enabled(s, Rename)
    ensures Inv(Next(s, Rename, hash), hash)
  {
    var s' := Next(s, Rename, hash);
    NewDirKeepsCurrent(s, s', hash, Dir(s'.disk));
  }

  /** Removing or adding a name other than the current file's. */
  lemma DirChangeKeepsInv(s: State, a: Action, hash: Hash)
    requires Inv(s, hash) && Enabled(s, a) && (a.RemoveUpdating? || a.RemoveNext? || a.MakeFolder?)
    ensures Inv(Next(s, a, hash), hash)
  {
    var s' := Next(s, a, hash);
    assert CurrentOk(s, Dir(s.disk), hash);
    if s'.disk != s.disk {
      NewDirKeepsCurrent(s, s', hash, Dir(s'.disk));
    }
  }

  lemma SwitchingKeepsInv(s: State, a: Action, hash: Hash)
    requires Inv(s, hash) && Enabled(s, a) && Switching(a)
    ensures Inv(Next(s, a, hash), hash)
  {
    if a.SyncDir? || a.SyncRename? {
      SyncKeepsInv(s, s.(disk := SyncedDir(s.disk)), hash);
    } else if a.ReadCurrent? {
      ReadKeepsInv(s, a.files, hash);
    } else if a.Rename? {
      RenameKeepsInv(s, hash);
    } else {
      DirChangeKeepsInv(s, a, hash);
    }
  }

  lemma CrashKeepsInv(s: State, a: Action, hash: Hash)
    requires Inv(s, hash) && Enabled(s, a) && (a.Fail? || a.Kill? || a.PowerLoss?)
    ensures Inv(Next(s, a, hash), hash)
  {
    var s' := Next(s, a, hash);
    match a
    case Fail(written) =>
      if s.pc.Created? || s.pc.HashWritten? {
        WriteKeepsCurrent(s, s', hash, s.pc.inode);
      }
    case Kill =>
    case PowerLoss(kept, torn) => assert CurrentOk(s, s.disk.history[kept], hash);
  }

  lemma StepKeepsInv(s: State, a: Action, hash: Hash)
    requires Inv(s, hash) && Enabled(s, a)
    ensures Inv(Next(s, a, hash), hash)
  {
    if Saving(a) {
      SavingKeepsInv(s, a, hash);
    } else if Switching(a) {
      SwitchingKeepsInv(s, a, hash);
    } else {
      CrashKeepsInv(s, a, hash);
    }
  }

  lemma {:induction false} RunKeepsInv(s: State, run: seq<Action>, hash: Hash)
    requires Inv(s, hash) && ValidRun(s, run, hash)
    ensures Inv(After(s, run, hash), hash)
    decreases |run|
  {
    if |run| > 0 {
      StepKeepsInv(s, run[0], hash);
      RunKeepsInv(Next(s, run[0], hash), run[1..], hash);
    }
  }

  /** Over every run, in every directory that a power loss may bring back, the current file is absent or whole. */
  lemma CurrentIsNeverTorn(run: seq<Action>, hash: Hash)
    requires ValidRun(INIT, run, hash)
    ensures AllCurrentOk(After(INIT, run, hash), hash)
  {
    InitInv(hash);
    RunKeepsInv(INIT, run, hash);
  }

  /**
   Reading the current file gives a name that was saved, or an error, and never the empty name of a failed checksum.
   */
  lemma ReadsASavedName(run: seq<Action>, hash: Hash)
    requires ValidRun(INIT, run, hash)
    ensures var s := After(INIT, run, hash);
      HasDir(s.disk) && (GetCurrent(s.disk, hash).Ok? ==>
        GetCurrent(s.disk, hash).value in s.saved && GetCurrent(s.disk, hash).value != "")
  {
    InitInv(hash);
    RunKeepsInv(INIT, run, hash);
    var s := After(INIT, run, hash);
    assert CurrentOk(s, Dir(s.disk), hash);
    if GetCurrent(s.disk, hash).Ok? {
      ReadsWhatItNames(s, hash);
    }
  }
}
