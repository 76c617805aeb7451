/** The functions of pebble/dir.go as they run: each performs a run of the operations above, any of which may fail. */
module DataDirs {
  import opened DirSwitch
  import opened DirTheorems

  lemma {:induction false} RunAppend(s: State, run: seq<Action>, a: Action, hash: Hash)
    requires ValidRun(s, run, hash) && HasDir(After(s, run, hash).disk) && Enabled(After(s, run, hash), a)
    requires HasDir(Next(After(s, run, hash), a, hash).disk)
    ensures ValidRun(s, run + [a], hash) && After(s, run + [a], hash) == Next(After(s, run, hash), a, hash)
    decreases |run|
  {
    if |run| == 0 {
      assert run + [a] == [a];
      assert [a][1..] == [];
    } else {
      assert (run + [a])[0] == run[0] && (run + [a])[1..] == run[1..] + [a];
      RunAppend(Next(s, run[0], hash), run[1..], a, hash);
    }
  }

  class DataDir {
    const hash: Hash
    var state: State
    /** Every operation since the directory was empty. */
    ghost var run: seq<Action>

    ghost predicate Valid()
      reads this
    {
      ValidRun(INIT, run, hash) && After(INIT, run, hash) == state && Inv(state, hash)
    }

    constructor (hash: Hash)
      ensures Valid() && state == INIT
    {
      this.hash := hash;
      state := INIT;
      run := [];
    }

    /** One operation on the disk. */
    method Do(a: Action)
      requires Valid() && Enabled(state, a)
      modifies this
      ensures Valid() && state == Next(old(state), a, hash) && run == old(run) + [a]
    {
      StepKeepsInv(state, a, hash);
      RunAppend(INIT, run, a, hash);
      state := Next(state, a, hash);
      run := run + [a];
    }

    /**
     An operation fails, a write perhaps after some bytes; the file is closed and the directory synced all the same.
     */
    method GiveUp()
      requires Valid()
      modifies this
      ensures Valid() && state.pc.Idle? && old(run) <= run
    {
      var written: string := *;
      Do(Fail(written));
      var syncs: bool := *;
      if syncs {
        Do(SyncDir);
      }
    }

    /** On success the name is on disk, whole, under the temporary name. */
    method SaveCurrentDBDirName(db: string) returns (ok: bool)
      requires Valid() && state.pc.Idle?
      modifies this
      ensures Valid() && old(run) <= run
      ensures if ok then state.pc.Saved? && state.pc.db == db && db in state.saved else state.pc.Idle?
    {
      var fails: bool := *;
      if fails {
        return false;
      }
      Do(Create(db));
      fails := *;
      if fails {
        GiveUp();
        return false;
      }
      Do(WriteHash);
      fails := *;
      if fails {
        GiveUp();
        return false;
      }
      Do(WriteName);
      fails := *;
      if fails {
        GiveUp();
        return false;
      }
      Do(SyncFile);
      fails := *;
      if !fails {
        Do(SyncDir);
      }
      return true;
    }

    /** On success every directory that may come back names the saved database. */
    method ReplaceCurrentDBFile() returns (ok: bool)
      requires Valid() && state.pc.Saved?
      modifies this
      ensures Valid() && old(run) <= run && state.pc.Idle?
      ensures ok ==> AllNamed(state, hash, old(state.pc.db))
    {
      var fails: bool := *;
      if fails {
        GiveUp();
        return false;
      }
      Do(Rename);
      fails := *;
      if fails {
        Do(Fail(""));
        return false;
      }
      ReplaceIsDurable(state, hash);
      Do(SyncRename);
      return true;
    }

    /** `run` went on with steps of a cleanup. */
    ghost predicate CleanedSince(before: seq<Action>)
      reads this
    {
      before <= run && forall i :: |before| <= i < |run| ==> CleansUp(run[i])
    }

    /** The deletion loop. */
    method RemoveListed() returns (ok: bool)
      requires Valid() && state.pc.Cleaning?
      modifies this
      ensures Valid() && CleanedSince(old(run)) && state.pc.Idle? && state.saved == old(state.saved)
      ensures ok ==> Dir(state.disk) == Leftover(Dir(old(state.disk)), old(state.pc.db), old(state.pc.left))
    {
      ghost var dir, db, files := Dir(state.disk), state.pc.db, state.pc.left;
      while |state.pc.left| > 0
        invariant Valid() && CleanedSince(old(run)) && state.pc.Cleaning? && state.pc.db == db
        invariant state.saved == old(state.saved)
        invariant Leftover(Dir(state.disk), db, state.pc.left) == Leftover(dir, db, files)
        decreases |state.pc.left|
      {
        var fails: bool := *;
        if fails {
          Do(Fail(""));
          return false;
        }
        LeftoverStep(state, hash);
        Do(RemoveNext);
      }
      assert Leftover(Dir(state.disk), db, []) == Dir(state.disk);
      Do(RemoveNext);
      return true;
    }

    /** On success nothing is left but the current file and the directory it names. */
    method CleanupNodeDataDir(files: seq<string>) returns (ok: bool)
      requires Valid() && state.pc.Idle? && Lists(files, Dir(state.disk) - {UPDATING})
      modifies this
      ensures Valid() && CleanedSince(old(run)) && state.pc.Idle?
      ensures ok ==> LeavesOnlyCurrent(old(state), state, hash)
    {
      var fails: bool := *;
      if fails {
        return false;
      }
      Do(RemoveUpdating);
      var current := GetCurrent(state.disk, hash);
      Do(ReadCurrent(files));
      if current.Err? {
        return false;
      }
      ReadsASavedName(run, hash);
      LeftoverOfAll(Dir(state.disk), current.value, files);
      ok := RemoveListed();
    }
  }

  /** After a cleanup the directory holds the current file, what that file names, and nothing else. */
  ghost predicate LeavesOnlyCurrent(s: State, s': State, hash: Hash)
    requires HasDir(s.disk) && HasDir(s'.disk)
  {
    GetCurrent(s.disk, hash).Ok? &&
    (var db := GetCurrent(s.disk, hash).value;
     db in s'.saved && db != "" && Dir(s'.disk).Keys == (Dir(s.disk).Keys - {UPDATING}) * {CURRENT, db})
  }

  lemma LeftoverOfAll(dir: Directory, db: string, files: seq<string>)
    requires Lists(files, dir)
    ensures Leftover(dir, db, files).Keys == dir.Keys * {CURRENT, db}
  {
  }
}
