/**
 The replacement script the wizard runs on the Raspberry Pi, command by command: under
 `set -e` a failing command ends the steps, and the EXIT trap then rolls back, cleans up,
 starts the container and chooses the exit code.
 */
module PiScript {
  import opened Disk
  import opened PiFiles

  const REPLACED := 0
  const FAILED_BEFORE_REPLACE := 10
  const FAILED_AFTER_REPLACE := 11
  const ROLLBACK_FAILED := 12
  const NO_DIRECTORY := 2 // the shell's own status when `cd` fails, before the trap is set

  type PiDrive = Drive<PiName>

  datatype Starter = ByScript | ByWizard

  /** What was on the disk when someone ran `docker start`, and who did. */
  datatype StartEvent = StartEvent(who: Starter, files: PiState)

  /** The backend's container: who started it on what, how often it was stopped, and what failed about it. */
  class Container {
    var running: bool
    ghost var starts: seq<StartEvent>
    ghost var stops: nat  // `docker stop` commands that worked
    ghost var faults: nat // docker commands that failed, lost connections, a backend that does not answer

    constructor (running: bool)
      ensures this.running == running && starts == [] && stops == 0 && faults == 0
    {
      this.running := running;
      starts, stops, faults := [], 0, 0;
    }

    method Start(ghost who: Starter, ghost files: PiState) returns (ok: bool)
      modifies this`running, this`starts, this`faults
      ensures starts == old(starts) + [StartEvent(who, files)]
      ensures faults == if ok then old(faults) else old(faults) + 1
      ensures ok ==> running
      ensures !ok ==> running == old(running)
    {
      starts := starts + [StartEvent(who, files)];
      if * {
        faults := faults + 1;
        return false;
      }
      running := true;
      return true;
    }

    /** A failed `docker stop` may have stopped it all the same. */
    method Stop() returns (ok: bool)
      modifies this`running, this`stops, this`faults
      ensures ok ==> !running && stops == old(stops) + 1 && faults == old(faults)
      ensures !ok ==> stops == old(stops) && faults == old(faults) + 1
    {
      running := false;
      ok := true;
      if * {
        running, faults := *, faults + 1;
        return false;
      }
      stops := stops + 1;
    }

    /** Something else that can go wrong: the connection, the backend's own start. */
    method Works() returns (ok: bool)
      modifies this`faults
      ensures faults == if ok then old(faults) else old(faults) + 1
    {
      ok := true;
      if * {
        ok, faults := false, faults + 1;
      }
    }
  }

  /** Every state of the run so far could have been cut off here without losing anything. */
  ghost predicate Traced(d: PiDrive, job: Job)
    reads d
  {
    d.Valid() && forall s :: s in d.seen ==> Reachable(s, job)
  }

  /** Nothing of the archive is left outside the live files. */
  ghost predicate NothingStaged(s: PiState) {
    forall f :: At(s, Staged(f)) == None
  }

  ghost predicate SameLive(s: PiState, t: PiState) {
    forall f :: At(s, Live(f)) == At(t, Live(f))
  }

  /**
   The database is the one of `start`, or there is no side file beside it: SQLite would replay the
   write-ahead log of one database into another.
   */
  ghost predicate NoStrayLog(s: PiState, start: PiState) {
    At(s, Live(Db)) == At(start, Live(Db)) || (At(s, Live(Wal)) == None && At(s, Live(Shm)) == None)
  }

  /** At no moment of the run is there a log beside another database than its own. */
  ghost predicate NeverStray(d: PiDrive, job: Job)
    reads d
  {
    forall s :: s in d.seen ==> NoStrayLog(s, job.pre)
  }

  /** The live files have changed in one go, if at all. */
  ghost predicate OneMove(seen: set<PiState>, before: set<PiState>, was: PiState, now: PiState) {
    forall s :: s in seen ==> s in before || SameLive(s, was) || SameLive(s, now)
  }

  lemma OneMoveNoStray(seen: set<PiState>, before: set<PiState>, was: PiState, now: PiState, start: PiState)
    requires OneMove(seen, before, was, now) && NoStrayLog(was, start) && NoStrayLog(now, start)
    requires forall s :: s in before ==> NoStrayLog(s, start)
    ensures forall s :: s in seen ==> NoStrayLog(s, start)
  {
  }

  lemma SavingHasOldDb(s: PiState, job: Job)
    requires AllSaving(s, job)
    ensures NoStrayLog(s, job.pre)
  {
    assert Saving(s, job, Db);
  }

  /** The copies of files `done` are complete, no other file has one yet, nothing else has moved. */
  ghost predicate Saved(s: PiState, job: Job, done: set<File>) {
    && RestUntouched(s, job) && done <= Targets(job.stores)
    && forall f ::
         && At(s, Live(f)) == Old(job, f)
         && At(s, Bak(f)) == (if f in done then Old(job, f) else None)
         && At(s, Rb(f)) == None
         && At(s, Staged(f)) == New(job, f)
  }

  lemma SavedIsSaving(s: PiState, job: Job, done: set<File>)
    requires Saved(s, job, done)
    ensures AllSaving(s, job)
  {
  }

  lemma SavedIsArmed(s: PiState, job: Job)
    requires Saved(s, job, Targets(job.stores))
    ensures AllArmed(s, job)
  {
  }

  ghost predicate SameFile(s: PiState, t: PiState, f: File) {
    && At(s, Live(f)) == At(t, Live(f)) && At(s, Bak(f)) == At(t, Bak(f))
    && At(s, Rb(f)) == At(t, Rb(f)) && At(s, Staged(f)) == At(t, Staged(f))
  }

  /** One file at a time changes, and only under its own names. */
  ghost predicate SameBut(s: PiState, t: PiState, f: File) {
    && (forall g :: g != f ==> SameFile(s, t, g))
    && (forall p :: At(s, Elsewhere(p)) == At(t, Elsewhere(p)))
  }

  lemma SavingStep(s: PiState, t: PiState, job: Job, f: File)
    requires AllSaving(s, job) && SameBut(s, t, f) && Saving(t, job, f)
    ensures AllSaving(t, job)
  {
    forall g | g != f ensures Saving(t, job, g) {
      assert Saving(s, job, g) && SameFile(s, t, g);
    }
  }

  lemma ArmedStep(s: PiState, t: PiState, job: Job, f: File)
    requires AllArmed(s, job) && SameBut(s, t, f) && ArmedOrIdle(t, job, f)
    ensures AllArmed(t, job)
  {
    forall g | g != f ensures ArmedOrIdle(t, job, g) {
      assert ArmedOrIdle(s, job, g) && SameFile(s, t, g);
    }
  }

  /* ------------------------------------------------------------ the steps */

  /** chmod or chown of one staged file, noted in `changed`: fails when there is no such file. */
  method Change(d: PiDrive, f: File) returns (ok: bool, ghost changed: set<File>)
    modifies d`faults
    ensures d.faults >= old(d.faults)
    ensures changed == if ok then {f} else {}
    ensures ok ==> Staged(f) in d.files && d.faults == old(d.faults)
    ensures !ok ==> Staged(f) !in d.files || d.faults > old(d.faults)
  {
    if Staged(f) !in d.files {
      return false, {};
    }
    ok := d.Check();
    changed := if ok then {f} else {};
  }

  /** chmod 600, then chown. */
  method Prepare(d: PiDrive, f: File) returns (ok: bool, ghost closed: set<File>, ghost owned: set<File>)
    modifies d`faults
    ensures d.faults >= old(d.faults)
    ensures ok ==> Staged(f) in d.files && d.faults == old(d.faults) && f in closed && f in owned
    ensures !ok ==> Staged(f) !in d.files || d.faults > old(d.faults)
  {
    closed, owned := {}, {};
    ok, closed := Change(d, f);
    if ok {
      ok, owned := Change(d, f);
    }
  }

  /** if [ -f live ]; then cp -p live live.bak.ts; fi */
  method SaveCopy(d: PiDrive, f: File, ghost job: Job, ghost done: set<File>) returns (ok: bool)
    requires f in Targets(job.stores) && f !in done
    requires Traced(d, job) && NeverStray(d, job) && Saved(d.files, job, done)
    modifies d
    ensures Traced(d, job) && NeverStray(d, job) && d.faults >= old(d.faults)
    ensures ok ==> Saved(d.files, job, done + {f}) && d.faults == old(d.faults)
    ensures !ok ==> AllSaving(d.files, job) && d.faults > old(d.faults)
  {
    SavedIsSaving(d.files, job, done);
    ghost var before := d.files;
    ok := true;
    if Live(f) in d.files {
      ok := d.Copy(Live(f), Bak(f));
      forall s | Writing(s, before, Bak(f), before[Live(f)])
        ensures AllSaving(s, job) && NoStrayLog(s, job.pre)
      {
        SavingStep(before, s, job, f);
        SavingHasOldDb(s, job);
      }
    }
  }

  /** All copies: the database and its side files first, then the stores. */
  method SaveAll(d: PiDrive, stores: seq<string>, ghost job: Job) returns (ok: bool)
    requires ValidJob(job) && stores == job.stores
    requires Traced(d, job) && NeverStray(d, job) && Saved(d.files, job, {})
    modifies d
    ensures Traced(d, job) && NeverStray(d, job) && d.faults >= old(d.faults)
    ensures ok ==> Saved(d.files, job, Targets(stores)) && d.faults == old(d.faults)
    ensures !ok ==> AllSaving(d.files, job) && d.faults > old(d.faults)
  {
    ok := SaveCopy(d, Db, job, {});
    if ok {
      ok := SaveCopy(d, Wal, job, {} + {Db});
      if ok {
        ok := SaveCopy(d, Shm, job, {} + {Db} + {Wal});
      }
    }
    if !ok {
      return;
    }
    assert {} + {Db} + {Wal} + {Shm} == FirstTargets(stores, 0);
    for i := 0 to |stores|
      invariant Traced(d, job) && NeverStray(d, job) && d.faults == old(d.faults)
      invariant Saved(d.files, job, FirstTargets(stores, i))
    {
      NextTarget(stores, i);
      ok := SaveCopy(d, Store(stores[i]), job, FirstTargets(stores, i));
      if !ok {
        return;
      }
    }
    NextTarget(stores, |stores|);
  }

  /** rm -f of one live file, with every copy in place. */
  method DropLive(d: PiDrive, f: File, ghost job: Job) returns (ok: bool)
    requires f in Targets(job.stores) && Traced(d, job) && AllArmed(d.files, job)
    modifies d
    ensures Traced(d, job) && AllArmed(d.files, job)
    ensures d.faults == if ok then old(d.faults) else old(d.faults) + 1
    ensures d.files == if ok then old(d.files) - {Live(f)} else old(d.files)
    ensures d.seen == old(d.seen) + {d.files}
  {
    ghost var before := d.files;
    ok := d.Remove(Live(f));
    assert ArmedOrIdle(before, job, f);
    ArmedStep(before, d.files, job, f);
  }

  /** mv -f restore-tmp/f data/f */
  method Install(d: PiDrive, f: File, ghost job: Job) returns (ok: bool)
    requires f in Targets(job.stores) && Traced(d, job) && AllArmed(d.files, job)
    modifies d
    ensures Traced(d, job) && AllArmed(d.files, job)
    ensures d.faults >= old(d.faults) && (ok ==> d.faults == old(d.faults))
    ensures ok ==> Staged(f) in old(d.files)
                   && d.files == (old(d.files) - {Staged(f)})[Live(f) := old(d.files)[Staged(f)]]
    ensures !ok ==> d.files == old(d.files) && (Staged(f) in d.files ==> d.faults > old(d.faults))
    ensures d.seen == old(d.seen) + {d.files}
  {
    ghost var before := d.files;
    ok := d.Rename(Staged(f), Live(f));
    assert ArmedOrIdle(before, job, f);
    ArmedStep(before, d.files, job, f);
  }

  /** The copies are whole; the files `done` already hold what the archive gives them. */
  ghost predicate Placed(s: PiState, job: Job, done: set<File>) {
    && AllArmed(s, job)
    && (forall f :: f in done ==> At(s, Live(f)) == New(job, f) && At(s, Staged(f)) == None)
    && (forall f :: f in Targets(job.stores) && f !in done ==> At(s, Staged(f)) == New(job, f))
  }

  ghost predicate Replacing(d: PiDrive, job: Job)
    reads d
  {
    Traced(d, job) && NeverStray(d, job) && AllArmed(d.files, job)
  }

  /** The side files are gone and `done` is in place. */
  ghost predicate Installing(d: PiDrive, job: Job, done: set<File>)
    reads d
  {
    && Traced(d, job) && NeverStray(d, job) && Placed(d.files, job, done)
    && Wal in done && Shm in done && New(job, Wal) == None && New(job, Shm) == None
  }

  method InstallNext(d: PiDrive, f: File, ghost job: Job, ghost done: set<File>) returns (ok: bool)
    requires f in Targets(job.stores) && f !in done && New(job, f).Some?
    requires Installing(d, job, done)
    modifies d
    ensures ok ==> Installing(d, job, done + {f}) && d.faults == old(d.faults)
    ensures !ok ==> Replacing(d, job) && d.faults > old(d.faults)
  {
    assert At(d.files, Staged(f)) == New(job, f);
    ok := Install(d, f, job);
  }

  /** rm -f of the side files: both are tried. */
  method DropSides(d: PiDrive, ghost job: Job) returns (ok: bool)
    requires ValidJob(job) && Traced(d, job) && AllArmed(d.files, job)
    modifies d
    ensures Traced(d, job) && AllArmed(d.files, job)
    ensures ok ==> d.files == old(d.files) - {Live(Wal), Live(Shm)} && d.faults == old(d.faults)
    ensures forall f :: f != Wal && f != Shm ==> At(d.files, Live(f)) == At(old(d.files), Live(f))
    ensures !ok ==> d.faults > old(d.faults)
    ensures old(NeverStray(d, job)) ==> NeverStray(d, job)
  {
    var noWal := DropLive(d, Wal, job);
    var noShm := DropLive(d, Shm, job);
    ok := noWal && noShm;
    assert ok ==> d.files == old(d.files) - {Live(Wal), Live(Shm)};
  }

  lemma AllPlaced(s: PiState, job: Job)
    requires Placed(s, job, Targets(job.stores)) && ValidJob(job)
    ensures LiveReplaced(s, job) && NothingStaged(s)
  {
    forall f
      ensures At(s, Live(f)) == if f in Targets(job.stores) then New(job, f) else Old(job, f)
      ensures At(s, Staged(f)) == None
    {
      assert ArmedOrIdle(s, job, f);
      assert f !in Targets(job.stores) ==> New(job, f) == None;
    }
  }

  /** The mv lines of the stores. */
  method InstallStores(d: PiDrive, stores: seq<string>, ghost job: Job) returns (ok: bool)
    requires Distinct(stores) && stores == job.stores
    requires forall i :: 0 <= i < |stores| ==> New(job, Store(stores[i])).Some?
    requires Installing(d, job, FirstTargets(stores, 0))
    modifies d
    ensures ok ==> Installing(d, job, Targets(stores)) && d.faults == old(d.faults)
    ensures !ok ==> Replacing(d, job) && d.faults > old(d.faults)
  {
    for i := 0 to |stores|
      invariant Installing(d, job, FirstTargets(stores, i)) && d.faults == old(d.faults)
    {
      NextTarget(stores, i);
      ok := InstallNext(d, Store(stores[i]), job, FirstTargets(stores, i));
      if !ok {
        return;
      }
    }
    NextTarget(stores, |stores|);
    ok := true;
  }

  /** The mv lines: the database, then the stores. */
  method InstallAll(d: PiDrive, stores: seq<string>, ghost job: Job) returns (ok: bool)
    requires ValidJob(job) && stores == job.stores && ArchiveStaged(job)
    requires Installing(d, job, {Wal, Shm})
    modifies d
    ensures Traced(d, job) && NeverStray(d, job) && AllArmed(d.files, job) && d.faults >= old(d.faults)
    ensures ok ==> LiveReplaced(d.files, job) && NothingStaged(d.files) && d.faults == old(d.faults)
    ensures !ok ==> d.faults > old(d.faults)
  {
    ok := InstallNext(d, Db, job, {Wal, Shm});
    if ok {
      assert {Wal, Shm} + {Db} == FirstTargets(stores, 0);
      ok := InstallStores(d, stores, job);
      if ok {
        AllPlaced(d.files, job);
      }
    }
  }

  /** From `replaced=1` to the end of the script. */
  method ReplaceAll(d: PiDrive, stores: seq<string>, ghost job: Job) returns (ok: bool)
    requires ValidJob(job) && stores == job.stores && ArchiveStaged(job)
    requires Traced(d, job) && NeverStray(d, job) && Saved(d.files, job, Targets(stores))
    modifies d
    ensures Traced(d, job) && NeverStray(d, job) && AllArmed(d.files, job) && d.faults >= old(d.faults)
    ensures ok ==> LiveReplaced(d.files, job) && NothingStaged(d.files) && d.faults == old(d.faults)
    ensures !ok ==> d.faults > old(d.faults)
  {
    SavedIsArmed(d.files, job);
    ok := DropSides(d, job);
    if ok {
      ok := InstallAll(d, stores, job);
    }
  }

  /* ------------------------------------------------------------- rollback */

  /** cp -p bak rb */
  method CopyBack(d: PiDrive, f: File, ghost job: Job) returns (ok: bool)
    requires f in Targets(job.stores) && Traced(d, job) && AllArmed(d.files, job)
    requires Bak(f) in d.files
    modifies d
    ensures Traced(d, job) && AllArmed(d.files, job)
    ensures SameLive(d.files, old(d.files)) && OneMove(d.seen, old(d.seen), old(d.files), d.files)
    ensures d.faults == if ok then old(d.faults) else old(d.faults) + 1
    ensures ok ==> At(d.files, Rb(f)) == Old(job, f)
  {
    ghost var before := d.files;
    assert ArmedOrIdle(before, job, f);
    ok := d.Copy(Bak(f), Rb(f));
    forall s | Writing(s, before, Rb(f), before[Bak(f)])
      ensures AllArmed(s, job)
    {
      ArmedStep(before, s, job, f);
    }
  }

  /** mv -f rb live */
  method MoveBack(d: PiDrive, f: File, ghost job: Job) returns (ok: bool)
    requires f in Targets(job.stores) && Traced(d, job) && AllArmed(d.files, job)
    requires Old(job, f).Some? && At(d.files, Rb(f)) == Old(job, f)
    modifies d
    ensures Traced(d, job) && AllArmed(d.files, job)
    ensures forall g :: g != f ==> At(d.files, Live(g)) == At(old(d.files), Live(g))
    ensures d.faults == if ok then old(d.faults) else old(d.faults) + 1
    ensures ok ==> At(d.files, Live(f)) == Old(job, f)
    ensures !ok ==> SameLive(d.files, old(d.files))
    ensures OneMove(d.seen, old(d.seen), old(d.files), d.files)
  {
    ghost var before := d.files;
    assert ArmedOrIdle(before, job, f);
    ok := d.Rename(Rb(f), Live(f));
    if ok {
      ArmedStep(before, d.files, job, f);
    }
  }

  /** The file is as it was; or the line failed, and it is as it was before that. */
  ghost predicate LineDone(ok: bool, s: PiState, was: PiState, job: Job, f: File) {
    && (forall g :: g != f ==> At(s, Live(g)) == At(was, Live(g)))
    && At(s, Live(f)) == if ok then Old(job, f) else At(was, Live(f))
  }

  /** cp -p bak rb && mv -f rb live: live is never half-written. */
  method PutBack(d: PiDrive, f: File, ghost job: Job) returns (ok: bool)
    requires f in Targets(job.stores) && Traced(d, job) && AllArmed(d.files, job)
    requires Bak(f) in d.files
    modifies d
    ensures Traced(d, job) && AllArmed(d.files, job)
    ensures LineDone(ok, d.files, old(d.files), job, f) && OneMove(d.seen, old(d.seen), old(d.files), d.files)
    ensures d.faults == if ok then old(d.faults) else old(d.faults) + 1
  {
    assert ArmedOrIdle(d.files, job, f);
    ok := CopyBack(d, f, job);
    if ok {
      ok := MoveBack(d, f, job);
    }
  }

  /** The line of the rollback for the database or a store. */
  method RollbackFile(d: PiDrive, f: File, ghost job: Job) returns (ok: bool)
    requires f in Targets(job.stores) && Traced(d, job) && AllArmed(d.files, job)
    modifies d
    ensures Traced(d, job) && AllArmed(d.files, job)
    ensures LineDone(ok, d.files, old(d.files), job, f) && OneMove(d.seen, old(d.seen), old(d.files), d.files)
    ensures d.faults == if ok then old(d.faults) else old(d.faults) + 1
  {
    assert ArmedOrIdle(d.files, job, f);
    if Bak(f) in d.files {
      ok := PutBack(d, f, job);
    } else {
      ok := DropLive(d, f, job);
    }
  }

  /** The line of the rollback for a side file, which the archive does not have. */
  method RollbackSide(d: PiDrive, f: File, ghost job: Job) returns (ok: bool)
    requires f in Targets(job.stores) && New(job, f) == None && Traced(d, job) && AllArmed(d.files, job)
    modifies d
    ensures Traced(d, job) && AllArmed(d.files, job)
    ensures LineDone(ok, d.files, old(d.files), job, f) && OneMove(d.seen, old(d.seen), old(d.files), d.files)
    ensures d.faults == if ok then old(d.faults) else old(d.faults) + 1
  {
    assert ArmedOrIdle(d.files, job, f);
    ok := true;
    if Bak(f) in d.files {
      ok := PutBack(d, f, job);
    }
  }

  /** Of the files `tried` all but those of `bad` are as they were; at most `n` are not. */
  ghost predicate BackBut(s: PiState, job: Job, tried: set<File>, bad: set<File>, n: int) {
    && |bad| <= n
    && forall f :: f in tried && f !in bad ==> At(s, Live(f)) == Old(job, f)
  }

  lemma NextLine(ok: bool, s: PiState, was: PiState, job: Job, tried: set<File>, bad: set<File>, n: int, f: File)
    requires BackBut(was, job, tried, bad, n) && LineDone(ok, s, was, job, f)
    ensures ok ==> BackBut(s, job, tried + {f}, bad, n)
    ensures !ok ==> BackBut(s, job, tried + {f}, bad + {f}, n + 1)
  {
  }

  lemma AllTried(s: PiState, job: Job, bad: set<File>, n: int)
    requires AllArmed(s, job) && BackBut(s, job, Targets(job.stores), bad, n)
    ensures forall f :: f !in bad ==> At(s, Live(f)) == Old(job, f)
  {
    forall f | f !in Targets(job.stores) ensures At(s, Live(f)) == Old(job, f) {
      assert ArmedOrIdle(s, job, f);
    }
  }

  /** How far the rollback is: `ok` so far, `tried` and `bad` as above, since there were `from` faults. */
  ghost predicate RollingBack(
    d: PiDrive, job: Job, ok: bool, tried: set<File>, bad: set<File>, from: nat, clean: bool)
    reads d
  {
    && Traced(d, job) && AllArmed(d.files, job) && d.faults >= from
    && BackBut(d.files, job, tried, bad, d.faults - from)
    && (if ok then bad == {} && d.faults == from else d.faults > from)
    && (ok && clean ==> NeverStray(d, job))
  }

  lemma LineNoStray(
    seen: set<PiState>, before: set<PiState>, was: PiState, now: PiState, job: Job, f: File, line: bool)
    requires OneMove(seen, before, was, now) && LineDone(line, now, was, job, f) && was in before
    requires f == Db || At(was, Live(Db)) == Old(job, Db)
    requires forall s :: s in before ==> NoStrayLog(s, job.pre)
    ensures forall s :: s in seen ==> NoStrayLog(s, job.pre)
  {
    if f == Db && !line {
      assert forall g :: At(now, Live(g)) == At(was, Live(g));
    }
    assert NoStrayLog(now, job.pre);
    OneMoveNoStray(seen, before, was, now, job.pre);
  }

  /** One line, after those for `tried`; that of the database comes when the side files are gone, or will not go. */
  method TryLine(
    d: PiDrive, f: File, so: bool,
    ghost job: Job, ghost tried: set<File>, ghost bad: set<File>, ghost from: nat, ghost clean: bool)
    returns (ok: bool, ghost more: set<File>)
    requires f in Targets(job.stores) && (f == Db || Db in tried) && (f == Wal || f == Shm ==> New(job, f) == None)
    requires f == Db && so ==> Live(Wal) !in d.files && Live(Shm) !in d.files
    requires RollingBack(d, job, so, tried, bad, from, clean)
    modifies d
    ensures RollingBack(d, job, ok, tried + {f}, more, from, clean)
  {
    ghost var was, seen, faults := d.files, d.seen, d.faults;
    var line;
    if f == Wal || f == Shm {
      line := RollbackSide(d, f, job);
    } else {
      line := RollbackFile(d, f, job);
    }
    NextLine(line, d.files, was, job, tried, bad, faults - from, f);
    ok, more := so && line, if line then bad else bad + {f};
    if ok && clean {
      LineNoStray(d.seen, seen, was, d.files, job, f, line);
    }
  }

  /** The lines of the stores. */
  method RollbackStores(
    d: PiDrive, stores: seq<string>, so: bool, ghost job: Job, ghost bad: set<File>, ghost from: nat, ghost clean: bool)
    returns (ok: bool, ghost more: set<File>)
    requires ValidJob(job) && stores == job.stores
    requires RollingBack(d, job, so, FirstTargets(stores, 0), bad, from, clean)
    modifies d
    ensures RollingBack(d, job, ok, Targets(stores), more, from, clean)
  {
    ok, more := so, bad;
    for i := 0 to |stores|
      invariant RollingBack(d, job, ok, FirstTargets(stores, i), more, from, clean)
    {
      NextTarget(stores, i);
      ok, more := TryLine(d, Store(stores[i]), ok, job, FirstTargets(stores, i), more, from, clean);
    }
    NextTarget(stores, |stores|);
  }

  /**
   rollback(): every line is tried, whatever became of those before it, so each failure costs one file at
   most; the result says whether all of them worked.
   */
  method Rollback(d: PiDrive, stores: seq<string>, ghost job: Job) returns (ok: bool, ghost bad: set<File>)
    requires ValidJob(job) && stores == job.stores && Traced(d, job) && AllArmed(d.files, job)
    modifies d
    ensures Traced(d, job) && AllArmed(d.files, job)
    ensures ok ==> LiveUntouched(d.files, job) && d.faults == old(d.faults)
    ensures !ok ==> d.faults > old(d.faults)
    ensures ok && old(NeverStray(d, job)) ==> NeverStray(d, job)
    ensures |bad| <= d.faults - old(d.faults) && forall f :: f !in bad ==> At(d.files, Live(f)) == Old(job, f)
  {
    ghost var from, clean := d.faults, NeverStray(d, job);
    ok := DropSides(d, job);
    ok, bad := TryLine(d, Db, ok, job, {}, {}, from, clean);
    ok, bad := TryLine(d, Wal, ok, job, {} + {Db}, bad, from, clean);
    ok, bad := TryLine(d, Shm, ok, job, {} + {Db} + {Wal}, bad, from, clean);
    assert {} + {Db} + {Wal} + {Shm} == FirstTargets(stores, 0);
    ok, bad := RollbackStores(d, stores, ok, job, bad, from, clean);
    AllTried(d.files, job, bad, d.faults - from);
  }

  /**
   A rollback that fails can leave a stray log: the line of the database does not work, those of the side
   files do, and the old write-ahead log is beside the new database. The script does not start the container then.
   */
  lemma FailedRollbackCanStray()
    ensures var job := Job(map[Live(Db) := [1], Live(Wal) := [2], Staged(Db) := [3]], []);
            var was: PiState := map[Live(Db) := [3], Bak(Db) := [1], Bak(Wal) := [2]];
            var now := was[Live(Wal) := [2]];
            && ValidJob(job) && AllArmed(was, job) && NoStrayLog(was, job.pre)
            && LineDone(false, was, was, job, Db) && LineDone(true, now, was, job, Wal)
            && AllArmed(now, job) && !NoStrayLog(now, job.pre)
  {
    var job := Job(map[Live(Db) := [1], Live(Wal) := [2], Staged(Db) := [3]], []);
    var was: PiState := map[Live(Db) := [3], Bak(Db) := [1], Bak(Wal) := [2]];
    var now := was[Live(Wal) := [2]];
    forall f ensures ArmedOrIdle(was, job, f) && ArmedOrIdle(now, job, f) {
      match f
      case Db =>
      case Wal =>
      case Shm =>
      case Store(_) =>
    }
  }

  /* ----------------------------------------------------- the whole script */

  /** test -s, chmod and chown of everything staged. */
  method PrepareAll(d: PiDrive, stores: seq<string>, ghost job: Job) returns (ok: bool, ghost ready: set<File>)
    requires d.files == job.pre && stores == job.stores
    modifies d`faults
    ensures d.faults >= old(d.faults)
    ensures ok ==> ArchiveReady(job) && d.faults == old(d.faults)
    ensures !ok ==> !ArchiveReady(job) || d.faults > old(d.faults)
    ensures ok ==> forall f :: f in Targets(stores) && f != Wal && f != Shm ==> f in ready
  {
    ready := {};
    if Staged(Db) !in d.files || d.files[Staged(Db)] == [] {
      assert New(job, Db) == None || New(job, Db) == Some([]);
      return false, {};
    }
    ghost var closed, owned;
    ok, closed, owned := Prepare(d, Db);
    if !ok {
      return;
    }
    ready := closed * owned;
    for i := 0 to |stores|
      invariant d.faults == old(d.faults)
      invariant Db in ready
      invariant forall j :: 0 <= j < i ==> Staged(Store(stores[j])) in d.files && Store(stores[j]) in ready
    {
      ok, closed, owned := Prepare(d, Store(stores[i]));
      if !ok {
        assert Staged(Store(stores[i])) !in d.files ==> New(job, Store(stores[i])) == None;
        return;
      }
      ready := ready + closed * owned;
    }
    ok := true;
  }

  /** The steps `set -e` guards; `replaced` is the script's flag when they end. */
  method Steps(d: PiDrive, stores: seq<string>, ghost job: Job) returns (ok: bool, replaced: bool)
    requires ValidJob(job) && stores == job.stores
    requires d.files == job.pre && d.Valid() && d.seen == {job.pre}
    modifies d
    ensures Traced(d, job) && NeverStray(d, job) && d.faults >= old(d.faults)
    // `set -e`: the first command that fails is the last one.
    ensures ok ==> d.faults == old(d.faults)
    ensures ok ==> replaced && LiveReplaced(d.files, job) && NothingStaged(d.files) && ArchiveReady(job)
    ensures !ok ==> !ArchiveReady(job) || d.faults > old(d.faults)
    ensures replaced ==> AllArmed(d.files, job) && ArchiveReady(job)
    ensures !replaced ==> AllSaving(d.files, job)
  {
    assert Saved(d.files, job, {});
    SavedIsSaving(d.files, job, {});
    replaced := false;
    ghost var ready;
    ok, ready := PrepareAll(d, stores, job);
    if !ok {
      return;
    }
    ok := SaveAll(d, stores, job);
    if !ok {
      return;
    }
    replaced := true;
    ok := ReplaceAll(d, stores, job);
  }

  /** rm -f of this run's copies after a failure that came before the replacement. */
  method DropCopies(d: PiDrive, stores: seq<string>, ghost job: Job)
    requires stores == job.stores && Traced(d, job) && NeverStray(d, job) && AllSaving(d.files, job)
    modifies d
    ensures Traced(d, job) && NeverStray(d, job) && AllSaving(d.files, job)
    ensures d.faults >= old(d.faults)
    ensures d.faults == old(d.faults) ==> forall f :: f in Targets(stores) ==> Bak(f) !in d.files
    ensures forall f :: Bak(f) in d.files ==> Bak(f) in old(d.files)
  {
    var files := Replaced(stores);
    for i := 0 to |files|
      invariant Traced(d, job) && NeverStray(d, job) && AllSaving(d.files, job) && d.faults >= old(d.faults)
      invariant d.faults == old(d.faults) ==> forall j :: 0 <= j < i ==> Bak(files[j]) !in d.files
      invariant forall f :: Bak(f) in d.files ==> Bak(f) in old(d.files)
    {
      ghost var before := d.files;
      assert Saving(before, job, files[i]);
      var _ := d.Remove(Bak(files[i]));
      SavingStep(before, d.files, job, files[i]);
      SavingHasOldDb(d.files, job);
    }
    forall f | d.faults == old(d.faults) && f in Targets(stores)
      ensures Bak(f) !in d.files
    {
      ReplacedHasAll(stores, f);
    }
  }

  lemma SavingIsUntouched(s: PiState, job: Job)
    requires AllSaving(s, job)
    ensures LiveUntouched(s, job)
    ensures (forall f :: f in Targets(job.stores) ==> Bak(f) !in s) && (forall n :: n in s ==> !n.Staged?) ==> Tidy(s)
  {
    forall f
      ensures At(s, Live(f)) == Old(job, f) && At(s, Rb(f)) == None
      ensures f !in Targets(job.stores) ==> At(s, Bak(f)) == None
    {
      assert Saving(s, job, f);
    }
  }

  lemma ReplacedHasAll(stores: seq<string>, f: File)
    requires f in Targets(stores)
    ensures exists i :: 0 <= i < |Replaced(stores)| && Replaced(stores)[i] == f
  {
    var files := Replaced(stores);
    match f
    case Db => assert files[0] == f;
    case Wal => assert files[1] == f;
    case Shm => assert files[2] == f;
    case Store(name) =>
      var i :| 0 <= i < |stores| && stores[i] == name;
      assert files[i + 3] == f;
  }

  lemma DroppingTheArchive(s: PiState, t: PiState, job: Job, staged: set<PiName>)
    requires Removing(t, s, staged) && forall n :: n in staged ==> n.Staged?
    ensures AllSaving(s, job) ==> AllSaving(t, job)
    ensures AllArmed(s, job) ==> AllArmed(t, job)
    ensures SameLive(t, s)
    ensures forall f :: At(t, Bak(f)) == At(s, Bak(f))
  {
    assert forall f :: At(t, Rb(f)) == At(s, Rb(f));
    assert forall f :: At(t, Staged(f)) == None || At(t, Staged(f)) == At(s, Staged(f));
    assert forall p :: At(t, Elsewhere(p)) == At(s, Elsewhere(p));
    if AllSaving(s, job) {
      forall f ensures Saving(t, job, f) {
        assert Saving(s, job, f);
      }
    }
    if AllArmed(s, job) {
      forall f ensures ArmedOrIdle(t, job, f) {
        assert ArmedOrIdle(s, job, f);
      }
    }
  }

  /** rm -rf data/restore-tmp */
  method DropArchive(d: PiDrive, ghost job: Job)
    requires Traced(d, job)
    modifies d
    ensures Traced(d, job)
    ensures AllSaving(old(d.files), job) ==> AllSaving(d.files, job)
    ensures AllArmed(old(d.files), job) ==> AllArmed(d.files, job)
    ensures SameLive(d.files, old(d.files))
    ensures forall f :: At(d.files, Bak(f)) == At(old(d.files), Bak(f))
    ensures old(NeverStray(d, job)) ==> NeverStray(d, job)
    ensures d.faults >= old(d.faults)
    ensures d.faults == old(d.faults) ==> forall n :: n in d.files ==> !n.Staged?
    ensures old(NothingStaged(d.files)) ==> d.faults == old(d.faults)
  {
    ghost var before := d.files;
    var staged := set n | n in d.files && n.Staged?;
    var _ := d.RemoveTree(staged);
    forall s | Removing(s, before, staged)
      ensures AllSaving(before, job) ==> AllSaving(s, job)
      ensures AllArmed(before, job) ==> AllArmed(s, job)
      ensures SameLive(s, before)
      ensures forall f :: At(s, Bak(f)) == At(before, Bak(f))
    {
      DroppingTheArchive(before, s, job, staged);
    }
  }

  /** What each exit code promises about the files. */
  ghost predicate CodeIsTrue(rc: int, s: PiState, job: Job) {
    && (rc == REPLACED ==> LiveReplaced(s, job) && AllArmed(s, job))
    && (rc == NO_DIRECTORY ==> s == job.pre)
    && (rc == FAILED_BEFORE_REPLACE ==> LiveUntouched(s, job) && AllSaving(s, job))
    && (rc == FAILED_AFTER_REPLACE ==> LiveUntouched(s, job) && AllArmed(s, job))
    && (rc == ROLLBACK_FAILED ==> AllArmed(s, job))
  }

  /** The EXIT trap: roll back or clean up, drop the archive, start the container unless that would be wrong. */
  method OnExit(d: PiDrive, c: Container, stores: seq<string>, ok: bool, replaced: bool, ghost job: Job)
    returns (rc: int, ghost bad: set<File>)
    requires ValidJob(job) && stores == job.stores && Traced(d, job) && NeverStray(d, job)
    requires ok ==> replaced && LiveReplaced(d.files, job) && NothingStaged(d.files)
    requires replaced ==> AllArmed(d.files, job)
    requires !replaced ==> AllSaving(d.files, job)
    modifies d, c
    ensures Traced(d, job) && CodeIsTrue(rc, d.files, job)
    ensures rc == if ok then REPLACED
                  else if !replaced then FAILED_BEFORE_REPLACE
                  else if rc == ROLLBACK_FAILED then ROLLBACK_FAILED
                  else FAILED_AFTER_REPLACE
    ensures d.faults >= old(d.faults)
    ensures rc == ROLLBACK_FAILED ==> d.faults > old(d.faults) && |bad| <= d.faults - old(d.faults)
    ensures rc == ROLLBACK_FAILED ==> forall f :: f !in bad ==> At(d.files, Live(f)) == Old(job, f)
    ensures rc != ROLLBACK_FAILED ==> NeverStray(d, job)
    ensures c.faults >= old(c.faults) && c.stops == old(c.stops)
    ensures c.running ==> old(c.running) || rc != ROLLBACK_FAILED
    ensures c.starts == old(c.starts) + if rc == ROLLBACK_FAILED then [] else [StartEvent(ByScript, d.files)]
    ensures d.faults == old(d.faults) ==> forall n :: n in d.files ==> !n.Staged?
    ensures d.faults == old(d.faults) && rc == FAILED_BEFORE_REPLACE ==> Tidy(d.files)
    ensures rc == REPLACED ==> d.faults == old(d.faults)
  {
    rc, bad := REPLACED, {};
    if !ok {
      if replaced {
        var back;
        back, bad := Rollback(d, stores, job);
        rc := if back then FAILED_AFTER_REPLACE else ROLLBACK_FAILED;
      } else {
        rc := FAILED_BEFORE_REPLACE;
        DropCopies(d, stores, job);
      }
    }
    DropArchive(d, job);
    if rc == FAILED_BEFORE_REPLACE {
      SavingIsUntouched(d.files, job);
    }
    if rc != ROLLBACK_FAILED {
      var _ := c.Start(ByScript, d.files);
    }
  }

  /** The script from `set -eu` to its exit code. */
  method RunScript(d: PiDrive, c: Container, stores: seq<string>, ghost job: Job)
    returns (rc: int, ghost bad: set<File>)
    requires ValidJob(job) && stores == job.stores
    requires d.files == job.pre && d.Valid() && d.seen == {job.pre}
    modifies d, c
    // Whatever failed and wherever it was cut off, nothing is lost; and the exit code is true.
    ensures Traced(d, job)
    ensures rc in {REPLACED, NO_DIRECTORY, FAILED_BEFORE_REPLACE, FAILED_AFTER_REPLACE, ROLLBACK_FAILED}
    ensures CodeIsTrue(rc, d.files, job)
    // It succeeds exactly with a whole archive and when no command fails; one failure alone never defeats the rollback.
    ensures rc == REPLACED <==> ArchiveReady(job) && d.faults == old(d.faults)
    // And if it does not, each failure after the first costs one file at most.
    ensures rc == ROLLBACK_FAILED ==> d.faults >= old(d.faults) + 2 && |bad| < d.faults - old(d.faults)
    ensures rc == ROLLBACK_FAILED ==> forall f :: f !in bad ==> At(d.files, Live(f)) == Old(job, f)
    // Unless it ends like that, no moment has the log of one database beside another.
    ensures rc != ROLLBACK_FAILED ==> NeverStray(d, job)
    // It cleans up after itself.
    ensures rc == REPLACED ==> forall n :: n in d.files ==> !n.Staged?
    ensures rc == FAILED_BEFORE_REPLACE && d.faults <= old(d.faults) + (if ArchiveReady(job) then 1 else 0) ==>
              Tidy(d.files)
    // The container is started once, on exactly these files, unless the outcome is 12 or the script never began.
    ensures c.starts == old(c.starts) +
                        if rc == ROLLBACK_FAILED || rc == NO_DIRECTORY then [] else [StartEvent(ByScript, d.files)]
    ensures c.running && !old(c.running) ==> c.starts != old(c.starts)
    ensures d.faults >= old(d.faults) && c.faults >= old(c.faults) && c.stops == old(c.stops)
  {
    bad := {};
    var here := d.Check();
    if !here {
      assert Saved(d.files, job, {});
      SavedIsSaving(d.files, job, {});
      return NO_DIRECTORY, {};
    }
    var ok, replaced := Steps(d, stores, job);
    rc, bad := OnExit(d, c, stores, ok, replaced, job);
  }
}
