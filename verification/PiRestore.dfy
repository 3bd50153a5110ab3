/**
 The wizard's side of the Raspberry Pi restore: check, stage the archive, stop the
 container, run the script, and decide who may start the container again.
 */
module PiRestore {
  import opened Disk
  import opened PiFiles
  import opened PiScript

  /** Contents of the unpacked archive: the database and the stores. */
  type Archive = map<File, Bytes>

  ghost predicate ValidArchive(archive: Archive, stores: seq<string>) {
    && Distinct(stores)
    && archive.Keys == Targets(stores) - {Wal, Shm}
  }

  datatype Outcome =
    | Refused         // a check failed, or the operator declined
    | StageFailed     // the archive did not get through, or is damaged
    | StopFailed
    | ScriptFailed(rc: int)
    | ConnectionLost  // while the script ran: nobody here knows how it ended
    | StartFailed
    | Unhealthy
    | Done

  /** Everything the operator's archive makes of the live files. */
  ghost predicate ArchiveLive(s: PiState, start: PiState, archive: Archive, stores: seq<string>) {
    forall f :: At(s, Live(f)) ==
                if f in Targets(stores) then (if f in archive then Some(archive[f]) else None) else At(start, Live(f))
  }

  /* -------------------------------------------------------- the space check */

  /** Sizes of the unpacked files. */
  function ArchiveBytes(archive: Archive, files: seq<File>): nat {
    if files == [] then 0
    else (if files[0] in archive then |archive[files[0]]| else 0) + ArchiveBytes(archive, files[1..])
  }

  lemma {:induction false} LiveBytesSnoc(s: PiState, files: seq<File>, f: File)
    ensures LiveBytes(s, files + [f]) == LiveBytes(s, files) + SizeAt(s, Live(f))
  {
    if files != [] {
      assert (files + [f])[1..] == files[1..] + [f];
      LiveBytesSnoc(s, files[1..], f);
    }
  }

  /** The shell loop that adds up what the script will copy. */
  method CountLive(d: PiDrive, files: seq<File>) returns (n: nat)
    ensures n == LiveBytes(d.files, files)
  {
    n := 0;
    for i := 0 to |files|
      invariant n == LiveBytes(d.files, files[..i])
    {
      assert files[..i + 1] == files[..i] + [files[i]];
      LiveBytesSnoc(d.files, files[..i], files[i]);
      if Live(files[i]) in d.files {
        n := n + |d.files[Live(files[i])]|;
      }
    }
    assert files[..|files|] == files;
  }

  /* ------------------------------------------------------------- staging */

  /** While the archive is on its way: live files untouched, no copies, at most the archive more on disk. */
  ghost predicate Staging(s: PiState, start: PiState, archive: Archive, f: File) {
    && At(s, Live(f)) == At(start, Live(f)) && At(s, Bak(f)) == None && At(s, Rb(f)) == None
    && SizeAt(s, Staged(f)) <= SizeAt(start, Staged(f)) + if f in archive then |archive[f]| else 0
  }

  ghost predicate AllStaging(s: PiState, start: PiState, archive: Archive) {
    && (forall f :: Staging(s, start, archive, f))
    && (forall p :: At(s, Elsewhere(p)) == At(start, Elsewhere(p)))
  }

  ghost predicate StagingTraced(d: PiDrive, start: PiState, archive: Archive)
    reads d
  {
    d.Valid() && forall s :: s in d.seen ==> AllStaging(s, start, archive)
  }

  /** Exactly the files `done` of the archive are on the Pi. */
  ghost predicate Delivered(s: PiState, archive: Archive, done: set<File>) {
    forall f :: At(s, Staged(f)) == if f in done && f in archive then Some(archive[f]) else None
  }

  lemma {:induction false} StagingSpace(s: PiState, start: PiState, archive: Archive, files: seq<File>)
    requires AllStaging(s, start, archive) && FreshStamp(start)
    ensures UsageOf(s, files) <= UsageOf(start, files) + ArchiveBytes(archive, files)
  {
    if files != [] {
      assert Staging(s, start, archive, files[0]);
      StagingSpace(s, start, archive, files[1..]);
    }
  }

  lemma StagingStep(s: PiState, t: PiState, start: PiState, archive: Archive, f: File)
    requires AllStaging(s, start, archive) && SameBut(s, t, f) && Staging(t, start, archive, f)
    ensures AllStaging(t, start, archive)
  {
    forall g | g != f ensures Staging(t, start, archive, g) {
      assert Staging(s, start, archive, g) && SameFile(s, t, g);
    }
  }

  lemma UnstagingStep(s: PiState, t: PiState, start: PiState, archive: Archive, staged: set<PiName>)
    requires AllStaging(s, start, archive) && Removing(t, s, staged) && forall n :: n in staged ==> n.Staged?
    ensures AllStaging(t, start, archive)
  {
    forall f ensures Staging(t, start, archive, f) {
      assert Staging(s, start, archive, f);
    }
  }

  /** rm -rf data/restore-tmp, before and after. */
  method ClearStaging(d: PiDrive, ghost start: PiState, archive: Archive) returns (ok: bool)
    requires StagingTraced(d, start, archive)
    modifies d
    ensures StagingTraced(d, start, archive)
    ensures ok ==> Delivered(d.files, archive, {})
    ensures d.faults == if ok then old(d.faults) else old(d.faults) + 1
  {
    ghost var before := d.files;
    var staged := set n | n in d.files && n.Staged?;
    ok := d.RemoveTree(staged);
    forall s | Removing(s, before, staged) ensures AllStaging(s, start, archive) {
      UnstagingStep(before, s, start, archive, staged);
    }
  }

  /** Upload one file and close its mode; if that fails the file is taken away again. */
  method Upload(d: PiDrive, f: File, ghost start: PiState, archive: Archive, ghost done: set<File>)
    returns (ok: bool, ghost written: bool, ghost closed: set<File>)
    requires f in archive && StagingTraced(d, start, archive) && Delivered(d.files, archive, done)
    modifies d
    ensures StagingTraced(d, start, archive)
    ensures ok ==> Delivered(d.files, archive, done + {f}) && d.faults == old(d.faults) && f in closed
    ensures d.faults >= old(d.faults) && (!ok ==> d.faults > old(d.faults))
    ensures !ok && written && d.faults == old(d.faults) + 1 ==> Staged(f) !in d.files
  {
    ghost var before := d.files;
    ok := d.Write(Staged(f), archive[f]);
    written, closed := ok, {};
    forall s | Writing(s, before, Staged(f), archive[f]) ensures AllStaging(s, start, archive) {
      assert Staging(before, start, archive, f);
      StagingStep(before, s, start, archive, f);
    }
    if ok {
      ok, closed := Change(d, f);
      if !ok {
        ghost var there := d.files;
        var _ := d.Remove(Staged(f));
        assert Staging(there, start, archive, f);
        StagingStep(there, d.files, start, archive, f);
      }
    }
  }

  /** Everything of the archive is uploaded, and closed to others. */
  method StageArchive(d: PiDrive, stores: seq<string>, ghost start: PiState, archive: Archive)
    returns (ok: bool, ghost closed: set<File>)
    requires ValidArchive(archive, stores) && StagingTraced(d, start, archive)
    modifies d
    ensures StagingTraced(d, start, archive)
    ensures ok ==> Delivered(d.files, archive, archive.Keys) && d.faults == old(d.faults) && archive.Keys <= closed
    ensures d.faults >= old(d.faults) && (!ok ==> d.faults > old(d.faults))
  {
    closed := {};
    ok := ClearStaging(d, start, archive);
    if ok {
      ok := d.Check(); // install -d
    }
    if !ok {
      return;
    }
    ghost var written;
    ok, written, closed := Upload(d, Db, start, archive, {});
    if !ok {
      return;
    }
    ghost var done := {Db};
    for i := 0 to |stores|
      invariant StagingTraced(d, start, archive) && Delivered(d.files, archive, done) && d.faults == old(d.faults)
      invariant done == {Db} + (set j | 0 <= j < i :: Store(stores[j])) && done <= closed
    {
      ghost var more;
      ok, written, more := Upload(d, Store(stores[i]), start, archive, done);
      if !ok {
        return;
      }
      closed := closed + more;
      done := done + {Store(stores[i])};
    }
    assert done == archive.Keys;
    ok := true;
  }

  /* ------------------------------------------------------------- the driver */

  /** The live files are all as they were, or all from the archive: what a running backend may find. */
  ghost predicate Untorn(s: PiState, start: PiState, archive: Archive, stores: seq<string>) {
    SameLive(s, start) || ArchiveLive(s, start, archive, stores)
  }

  /** The starts from the `from`-th on are right. */
  ghost predicate StartsAreSafe(
    starts: seq<StartEvent>, from: nat, start: PiState, archive: Archive, stores: seq<string>)
  {
    forall i :: from <= i < |starts| ==> Untorn(starts[i].files, start, archive, stores)
  }

  /** The archive's database is not empty. */
  ghost predicate HasDatabase(archive: Archive) {
    Db in archive && archive[Db] != []
  }

  /** A state seen at some moment of the run: nothing the backend had is lost, and the space asked for was enough. */
  ghost predicate Safe(s: PiState, start: PiState, archive: Archive, stores: seq<string>, free: nat) {
    && (forall f ::
          && (|| At(s, Live(f)) == At(start, Live(f))
              || At(s, Live(f)) == None
              || (f in archive && At(s, Live(f)) == Some(archive[f])))
          && (Live(f) in start ==> At(s, Live(f)) == At(start, Live(f)) || At(s, Bak(f)) == At(start, Live(f))))
    && UsageOf(s, Replaced(stores)) <= UsageOf(start, Replaced(stores)) + free
  }

  lemma StagingIsSafe(s: PiState, start: PiState, archive: Archive, stores: seq<string>, free: nat)
    requires AllStaging(s, start, archive) && FreshStamp(start)
    requires ArchiveBytes(archive, Replaced(stores)) <= free
    ensures Safe(s, start, archive, stores, free) && SameLive(s, start)
  {
    StagingSpace(s, start, archive, Replaced(stores));
    forall f ensures At(s, Live(f)) == At(start, Live(f)) {
      assert Staging(s, start, archive, f);
    }
  }

  lemma {:induction false} UsageHoldsLive(s: PiState, files: seq<File>)
    ensures LiveBytes(s, files) <= UsageOf(s, files)
  {
    if files != [] {
      UsageHoldsLive(s, files[1..]);
    }
  }

  lemma {:induction false} StagedIsArchive(s: PiState, archive: Archive, files: seq<File>)
    requires Delivered(s, archive, archive.Keys)
    ensures StagedBytes(s, files) == ArchiveBytes(archive, files)
  {
    if files != [] {
      assert At(s, Staged(files[0])) == if files[0] in archive then Some(archive[files[0]]) else None;
      StagedIsArchive(s, archive, files[1..]);
    }
  }

  lemma {:induction false} SameLiveBytes(s: PiState, t: PiState, files: seq<File>)
    requires SameLive(s, t)
    ensures LiveBytes(s, files) == LiveBytes(t, files)
  {
    if files != [] {
      assert At(s, Live(files[0])) == At(t, Live(files[0]));
      SameLiveBytes(s, t, files[1..]);
    }
  }

  /** The job the script is given once staging is done. */
  ghost predicate Handover(job: Job, start: PiState, archive: Archive, stores: seq<string>) {
    && job.stores == stores && AllStaging(job.pre, start, archive)
    && Delivered(job.pre, archive, archive.Keys)
  }

  lemma HandoverIsValid(job: Job, start: PiState, archive: Archive, stores: seq<string>)
    requires ValidArchive(archive, stores) && Handover(job, start, archive, stores)
    ensures ValidJob(job) && SameLive(job.pre, start)
    ensures forall f :: New(job, f) == if f in archive then Some(archive[f]) else None
  {
    forall f ensures At(job.pre, Live(f)) == At(start, Live(f)) {
      assert Staging(job.pre, start, archive, f);
    }
    forall f ensures At(job.pre, Bak(f)) == None && At(job.pre, Rb(f)) == None {
      assert Staging(job.pre, start, archive, f);
    }
    forall f | Staged(f) in job.pre ensures f in Targets(stores) && f != Wal && f != Shm {
      assert At(job.pre, Staged(f)) == if f in archive then Some(archive[f]) else None;
    }
  }

  lemma ReachableIsSafe(s: PiState, job: Job, start: PiState, archive: Archive, stores: seq<string>, free: nat)
    requires ValidArchive(archive, stores) && Handover(job, start, archive, stores) && Reachable(s, job)
    requires NeedBytes(LiveBytes(start, Replaced(stores)), ArchiveBytes(archive, Replaced(stores))) <= free
    ensures Safe(s, start, archive, stores, free)
  {
    var files := Replaced(stores);
    HandoverIsValid(job, start, archive, stores);
    SpaceBound(s, job, files);
    SameLiveBytes(job.pre, start, files);
    StagedIsArchive(job.pre, archive, files);
    UsageHoldsLive(start, files);
    forall f
      ensures LiveWhole(s, job, f) && OldKept(s, job, f)
      ensures Old(job, f) == At(start, Live(f)) && New(job, f) == if f in archive then Some(archive[f]) else None
    {
      NothingLost(s, job, f);
    }
  }

  lemma JobLive(s: PiState, job: Job, start: PiState, archive: Archive, stores: seq<string>)
    requires ValidArchive(archive, stores) && Handover(job, start, archive, stores)
    ensures LiveUntouched(s, job) ==> SameLive(s, start)
    ensures LiveReplaced(s, job) ==> ArchiveLive(s, start, archive, stores)
  {
    HandoverIsValid(job, start, archive, stores);
  }

  lemma ArmedCopies(s: PiState, job: Job, start: PiState, archive: Archive, stores: seq<string>)
    requires ValidArchive(archive, stores) && Handover(job, start, archive, stores) && AllArmed(s, job)
    ensures forall f :: f in Targets(stores) ==> At(s, Bak(f)) == At(start, Live(f))
  {
    HandoverIsValid(job, start, archive, stores);
    forall f | f in Targets(stores) ensures At(s, Bak(f)) == At(start, Live(f)) {
      assert ArmedOrIdle(s, job, f);
    }
  }

  /** What an exit code says of the files, as the driver sees them. */
  ghost predicate CodeSays(rc: int, s: PiState, start: PiState, archive: Archive, stores: seq<string>) {
    && rc in {REPLACED, NO_DIRECTORY, FAILED_BEFORE_REPLACE, FAILED_AFTER_REPLACE, ROLLBACK_FAILED}
    && (rc == REPLACED ==> ArchiveLive(s, start, archive, stores))
    && (rc == REPLACED || rc == ROLLBACK_FAILED ==> HasCopies(s, start, stores))
    && (rc != REPLACED && rc != ROLLBACK_FAILED ==> SameLive(s, start))
  }

  ghost predicate HasCopies(s: PiState, start: PiState, stores: seq<string>) {
    forall f :: f in Targets(stores) ==> At(s, Bak(f)) == At(start, Live(f))
  }

  ghost predicate AllSafe(
    seen: set<PiState>, start: PiState, archive: Archive, stores: seq<string>, free: nat)
  {
    forall s :: s in seen ==> Safe(s, start, archive, stores, free)
  }

  ghost predicate AllUntorn(seen: set<PiState>, start: PiState, archive: Archive, stores: seq<string>) {
    forall s :: s in seen ==> Untorn(s, start, archive, stores)
  }

  ghost predicate AllOld(seen: set<PiState>, start: PiState) {
    forall s :: s in seen ==> SameLive(s, start)
  }

  ghost predicate NoneStray(seen: set<PiState>, start: PiState) {
    forall s :: s in seen ==> NoStrayLog(s, start)
  }

  /** The script, in the driver's terms. */
  method ScriptOnPi(
    d: PiDrive, c: Container, stores: seq<string>, archive: Archive, ghost free: nat, ghost start: PiState)
    returns (rc: int)
    requires ValidArchive(archive, stores) && Handover(Job(d.files, stores), start, archive, stores)
    requires NeedBytes(LiveBytes(start, Replaced(stores)), ArchiveBytes(archive, Replaced(stores))) <= free
    requires d.seen == {d.files}
    modifies d, c
    ensures d.Valid() && AllSafe(d.seen, start, archive, stores, free)
    ensures CodeSays(rc, d.files, start, archive, stores)
    ensures rc != ROLLBACK_FAILED ==> NoneStray(d.seen, start)
    ensures rc == ROLLBACK_FAILED ==> d.faults >= old(d.faults) + 2
    ensures c.starts == old(c.starts) +
                        if rc == ROLLBACK_FAILED || rc == NO_DIRECTORY then [] else [StartEvent(ByScript, d.files)]
    ensures c.running && !old(c.running) ==> c.starts != old(c.starts)
    ensures c.stops == old(c.stops) && d.faults >= old(d.faults) && c.faults >= old(c.faults)
    ensures rc == REPLACED <==> HasDatabase(archive) && d.faults == old(d.faults)
  {
    ghost var job := Job(d.files, stores);
    HandoverIsValid(job, start, archive, stores);
    var code, _ := RunScript(d, c, stores, job);
    rc := code;
    JobLive(d.files, job, start, archive, stores);
    if AllArmed(d.files, job) {
      ArmedCopies(d.files, job, start, archive, stores);
    }
    forall s | s in d.seen ensures Safe(s, start, archive, stores, free) {
      ReachableIsSafe(s, job, start, archive, stores, free);
    }
    assert At(job.pre, Live(Db)) == At(start, Live(Db));
    assert rc != ROLLBACK_FAILED ==> forall s :: s in d.seen ==> NoStrayLog(s, job.pre);
  }

  /**
   The script over SSH. If the connection is lost it may have been killed at any moment, or have run to its end.
   `up` are the states in which the container may be running: all, unless it was stopped before.
   */
  method RunOverSsh(
    d: PiDrive, c: Container, stores: seq<string>, archive: Archive, ghost free: nat, ghost start: PiState)
    returns (rc: Option<int>, ghost up: set<PiState>)
    requires ValidArchive(archive, stores) && Handover(Job(d.files, stores), start, archive, stores)
    requires NeedBytes(LiveBytes(start, Replaced(stores)), ArchiveBytes(archive, Replaced(stores))) <= free
    requires d.seen == {d.files}
    modifies d, c
    ensures d.Valid() && AllSafe(d.seen, start, archive, stores, free)
    ensures rc.Some? ==> CodeSays(rc.value, d.files, start, archive, stores)
    ensures rc == Some(ROLLBACK_FAILED) ==> c.starts == old(c.starts)
    ensures old(c.starts) <= c.starts && StartsAreSafe(c.starts, |old(c.starts)|, start, archive, stores)
    ensures forall i :: |old(c.starts)| <= i < |c.starts| ==> c.starts[i].who == ByScript
    ensures up <= d.seen && (c.running ==> d.files in up)
    ensures !old(c.running) ==> AllUntorn(up, start, archive, stores)
    ensures c.stops == old(c.stops) && d.faults >= old(d.faults) && c.faults >= old(c.faults)
    // Unless the rollback failed, or that is not known, no moment has the log of one database beside another.
    ensures rc != Some(ROLLBACK_FAILED) && (rc == None ==> d.faults <= old(d.faults) + 1) ==> NoneStray(d.seen, start)
    ensures rc == Some(REPLACED) ==> HasDatabase(archive) && d.faults == old(d.faults)
    ensures HasDatabase(archive) && d.faults == old(d.faults) && c.faults == old(c.faults) ==> rc == Some(REPLACED)
  {
    var wasUp := c.running;
    var code := ScriptOnPi(d, c, stores, archive, free, start);
    up := if wasUp then d.seen else if c.running then {d.files} else {};
    rc := Some(code);
    var connected := c.Works();
    if !connected {
      rc := None;
      if * {
        d.CutOff();
        c.starts, c.running, up := old(c.starts), wasUp, if wasUp then d.seen else {};
      }
    }
  }

  method StartBack(c: Container, ghost files: PiState)
    modifies c`running, c`starts, c`faults
    ensures c.starts == old(c.starts) + [StartEvent(ByWizard, files)]
    ensures c.faults >= old(c.faults)
  {
    var _ := c.Start(ByWizard, files);
  }

  /** Stage the archive and check it; until here the backend has not been stopped. */
  method StageAndCheck(d: PiDrive, stores: seq<string>, archive: Archive, intact: bool, ghost free: nat)
    returns (outcome: Outcome, ghost observed: set<PiState>)
    requires ValidArchive(archive, stores) && FreshStamp(d.files) && d.seen == {d.files}
    requires ArchiveBytes(archive, Replaced(stores)) <= free
    modifies d
    ensures outcome.StageFailed? || outcome.Done?
    ensures observed == d.seen && StagingTraced(d, old(d.files), archive)
    ensures forall s :: s in observed ==> Safe(s, old(d.files), archive, stores, free) && SameLive(s, old(d.files))
    ensures outcome.Done? ==> Handover(Job(d.files, stores), old(d.files), archive, stores)
    ensures SameLive(d.files, old(d.files))
    ensures d.faults >= old(d.faults)
    ensures outcome.Done? ==> intact && d.faults == old(d.faults)
    ensures intact && d.faults == old(d.faults) ==> outcome.Done?
    ensures outcome.StageFailed? && d.faults <= old(d.faults) + (if intact then 1 else 0) ==> NothingStaged(d.files)
  {
    ghost var start := d.files;
    var ok, closed := StageArchive(d, stores, start, archive);
    if ok {
      ok := d.Check(); // PRAGMA integrity_check
      ok := ok && intact;
    }
    if !ok {
      var _ := ClearStaging(d, start, archive);
    }
    outcome := if ok then Done else StageFailed;
    observed := d.seen;
    forall s | s in observed ensures Safe(s, start, archive, stores, free) && SameLive(s, start) {
      StagingIsSafe(s, start, archive, stores, free);
    }
    forall f ensures At(d.files, Live(f)) == At(start, Live(f)) {
      assert Staging(d.files, start, archive, f);
    }
  }

  /** The container may have stopped halfway: take the archive away and start it again. */
  method StopFailure(
    d: PiDrive, c: Container, stores: seq<string>, archive: Archive, ghost free: nat, ghost start: PiState)
    requires ValidArchive(archive, stores) && FreshStamp(start) && StagingTraced(d, start, archive)
    requires ArchiveBytes(archive, Replaced(stores)) <= free
    modifies d, c`running, c`starts, c`faults
    ensures d.Valid() && SameLive(d.files, start)
    ensures AllSafe(d.seen, start, archive, stores, free) && AllOld(d.seen, start)
    ensures c.starts == old(c.starts) + [StartEvent(ByWizard, d.files)]
    ensures d.faults >= old(d.faults) && c.faults >= old(c.faults)
    ensures d.faults == old(d.faults) ==> NothingStaged(d.files)
  {
    var _ := ClearStaging(d, start, archive);
    StartBack(c, d.files);
    forall s | s in d.seen ensures Safe(s, start, archive, stores, free) && SameLive(s, start) {
      StagingIsSafe(s, start, archive, stores, free);
    }
  }

  /** docker start and the wait for /healthz, on the new files. */
  method StartNew(c: Container, healthy: bool, ghost files: PiState) returns (outcome: Outcome)
    modifies c`running, c`starts, c`faults
    ensures outcome.Done? || outcome.Unhealthy? || outcome.StartFailed?
    ensures c.starts == old(c.starts) + [StartEvent(ByWizard, files)]
    ensures outcome.Done? || outcome.Unhealthy? ==> c.running
    ensures outcome.StartFailed? <==> c.faults > old(c.faults)
    ensures c.faults >= old(c.faults)
    ensures outcome.Done? ==> healthy
    ensures outcome.Unhealthy? ==> !healthy
  {
    var started := c.Start(ByWizard, files);
    if !started {
      return StartFailed;
    }
    outcome := if healthy then Done else Unhealthy;
  }

  /** How the run ended, against the files and the container as they were at `start`. */
  ghost predicate EndsWell(
    outcome: Outcome, s: PiState, starts: seq<StartEvent>, before: nat,
    start: PiState, archive: Archive, stores: seq<string>)
    requires before <= |starts|
  {
    match outcome
    // Up to the stop nothing live changes and nobody touches the container.
    case Refused => SameLive(s, start) && |starts| == before
    case StageFailed => SameLive(s, start) && |starts| == before
    // Other failures put the old files back and try to start the container on them.
    case StopFailed => SameLive(s, start) && StartedLast(starts, before, s)
    case ScriptFailed(rc) =>
      // A failed rollback leaves everything to the operator, with a copy of every old file.
      if rc == ROLLBACK_FAILED then |starts| == before && HasCopies(s, start, stores)
      else SameLive(s, start) && StartedLast(starts, before, s)
    // A lost connection leaves the container to the script.
    case ConnectionLost => forall i :: before <= i < |starts| ==> starts[i].who == ByScript
    // Past the script the archive is in place, with the old files kept as copies.
    case _ =>
      ArchiveLive(s, start, archive, stores) && HasCopies(s, start, stores) && StartedLast(starts, before, s)
  }

  ghost predicate StartedLast(starts: seq<StartEvent>, before: nat, s: PiState) {
    |starts| > before && starts[|starts| - 1] == StartEvent(ByWizard, s)
  }

  /** The backend is stopped before anything of it is replaced. */
  ghost predicate FollowsStop(outcome: Outcome) {
    outcome.ScriptFailed? || outcome.ConnectionLost? || outcome.StartFailed? || outcome.Unhealthy? || outcome.Done?
  }

  /** The script has answered that it is done. */
  ghost predicate PastScript(outcome: Outcome) {
    outcome.StartFailed? || outcome.Unhealthy? || outcome.Done?
  }

  /** The rollback is not known to have worked: it failed, or two commands did and nobody saw how it ended. */
  ghost predicate RollbackInDoubt(outcome: Outcome, faults: int) {
    outcome == ScriptFailed(ROLLBACK_FAILED) || (outcome.ConnectionLost? && faults >= 2)
  }

  /** What the driver does about an exit code: who starts the container, and on what. */
  method Conclude(
    d: PiDrive, c: Container, code: int, healthy: bool, stores: seq<string>, ghost archive: Archive,
    ghost start: PiState)
    returns (outcome: Outcome)
    requires CodeSays(code, d.files, start, archive, stores)
    modifies c`running, c`starts, c`faults
    ensures old(c.starts) <= c.starts && StartsAreSafe(c.starts, |old(c.starts)|, start, archive, stores)
    ensures EndsWell(outcome, d.files, c.starts, |old(c.starts)|, start, archive, stores)
    ensures if code == REPLACED then outcome.Done? || outcome.Unhealthy? || outcome.StartFailed?
            else outcome == ScriptFailed(code)
    ensures code == ROLLBACK_FAILED ==> c.running == old(c.running)
    ensures code != ROLLBACK_FAILED ==> Untorn(d.files, start, archive, stores)
    ensures outcome.Done? ==> c.running
    ensures c.faults >= old(c.faults)
    ensures outcome.Done? ==> healthy
    ensures code == REPLACED && healthy && c.faults == old(c.faults) ==> outcome.Done?
  {
    if code == ROLLBACK_FAILED {
      outcome := ScriptFailed(code);
    } else if code == REPLACED {
      outcome := StartNew(c, healthy, d.files);
    } else {
      StartBack(c, d.files);
      outcome := ScriptFailed(code);
    }
  }

  /** Run the script and do what its end calls for. */
  method ReplaceWhileStopped(
    d: PiDrive, c: Container, stores: seq<string>, archive: Archive, healthy: bool, ghost free: nat,
    ghost start: PiState)
    returns (outcome: Outcome, ghost up: set<PiState>)
    requires ValidArchive(archive, stores) && Handover(Job(d.files, stores), start, archive, stores)
    requires NeedBytes(LiveBytes(start, Replaced(stores)), ArchiveBytes(archive, Replaced(stores))) <= free
    requires d.seen == {d.files} && !c.running
    modifies d, c
    ensures d.Valid() && AllSafe(d.seen, start, archive, stores, free)
    ensures old(c.starts) <= c.starts && StartsAreSafe(c.starts, |old(c.starts)|, start, archive, stores)
    ensures EndsWell(outcome, d.files, c.starts, |old(c.starts)|, start, archive, stores)
    ensures FollowsStop(outcome) && (outcome.Done? ==> c.running)
    ensures up <= d.seen && (c.running ==> d.files in up) && AllUntorn(up, start, archive, stores)
    ensures c.stops == old(c.stops) && d.faults >= old(d.faults) && c.faults >= old(c.faults)
    ensures !RollbackInDoubt(outcome, d.faults - old(d.faults)) ==> NoneStray(d.seen, start)
    ensures PastScript(outcome) ==> d.faults == old(d.faults)
    ensures outcome.Done? ==> healthy
    ensures HasDatabase(archive) && healthy && d.faults == old(d.faults) && c.faults == old(c.faults) ==> outcome.Done?
  {
    var rc;
    rc, up := RunOverSsh(d, c, stores, archive, free, start);
    match rc
    case None =>
      outcome := ConnectionLost;
    case Some(code) =>
      outcome := Conclude(d, c, code, healthy, stores, archive, start);
      up := if code == ROLLBACK_FAILED then up else up + {d.files};
  }

  /** Stop the container, run the script, start the container again where that is right. */
  method StopAndReplace(
    d: PiDrive, c: Container, stores: seq<string>, archive: Archive, healthy: bool, ghost free: nat,
    ghost start: PiState)
    returns (outcome: Outcome, ghost up: set<PiState>)
    requires ValidArchive(archive, stores) && FreshStamp(start) && StagingTraced(d, start, archive)
    requires Handover(Job(d.files, stores), start, archive, stores)
    requires NeedBytes(LiveBytes(start, Replaced(stores)), ArchiveBytes(archive, Replaced(stores))) <= free
    modifies d, c
    ensures d.Valid() && AllSafe(d.seen, start, archive, stores, free)
    ensures old(c.starts) <= c.starts && StartsAreSafe(c.starts, |old(c.starts)|, start, archive, stores)
    ensures EndsWell(outcome, d.files, c.starts, |old(c.starts)|, start, archive, stores)
    ensures outcome != Refused && outcome != StageFailed && (outcome.Done? ==> c.running)
    // `up` are the states in which the container may be running.
    ensures up <= d.seen && (c.running ==> d.files in up) && AllUntorn(up, start, archive, stores)
    ensures c.stops == old(c.stops) + if FollowsStop(outcome) then 1 else 0
    ensures outcome.StopFailed? ==> AllOld(d.seen, start)
    ensures d.faults >= old(d.faults) && c.faults >= old(c.faults)
    ensures !RollbackInDoubt(outcome, d.faults - old(d.faults)) ==> NoneStray(d.seen, start)
    ensures outcome.StopFailed? && d.faults == old(d.faults) ==> NothingStaged(d.files)
    ensures PastScript(outcome) ==> d.faults == old(d.faults)
    ensures outcome.Done? ==> healthy
    ensures HasDatabase(archive) && healthy && d.faults == old(d.faults) && c.faults == old(c.faults) ==> outcome.Done?
  {
    var stopped := c.Stop();
    if !stopped {
      StopFailure(d, c, stores, archive, free, start);
      return StopFailed, d.seen;
    }
    d.Observe();
    outcome, up := ReplaceWhileStopped(d, c, stores, archive, healthy, free, start);
  }

  /**
   Restore `archive` on the Pi. `agreed`: the operator wants it; `free`: the space the disk reports; `intact`:
   the archive's database passes the integrity check; `healthy`: the backend, once started, answers in time.
   */
  method RestoreBackupToPi(
    d: PiDrive, c: Container, archive: Archive, stores: seq<string>, agreed: bool, free: nat, intact: bool,
    healthy: bool)
    returns (outcome: Outcome, ghost observed: set<PiState>, ghost up: set<PiState>)
    requires ValidArchive(archive, stores) && FreshStamp(d.files)
    modifies d, c
    // At every moment every file the backend had is whole on the disk, and the disk holds the run.
    ensures d.files in observed
    ensures !outcome.Refused? ==> forall s :: s in observed ==> Safe(s, old(d.files), archive, stores, free)
    // The backend is stopped first: at every moment at which it may be running the live files are all the old ones
    // or all from the archive, and without a stop that worked they are the old ones at every moment.
    ensures up <= observed && (c.running ==> d.files in up) && (old(c.running) ==> old(d.files) in up)
    ensures forall s :: s in up ==> Untorn(s, old(d.files), archive, stores)
    ensures c.stops == old(c.stops) + if FollowsStop(outcome) then 1 else 0
    ensures c.stops == old(c.stops) ==> forall s :: s in observed ==> SameLive(s, old(d.files))
    // Nobody starts it over a half-replaced set, or beside a log that is not its database's.
    ensures old(c.starts) <= c.starts
    ensures StartsAreSafe(c.starts, |old(c.starts)|, old(d.files), archive, stores)
    ensures !RollbackInDoubt(outcome, d.faults - old(d.faults)) ==>
              forall s :: s in observed ==> NoStrayLog(s, old(d.files))
    ensures EndsWell(outcome, d.files, c.starts, |old(c.starts)|, old(d.files), archive, stores)
    ensures outcome.Refused? ==> d.files == old(d.files)
    ensures outcome.Refused? || outcome.StageFailed? ==> c.running == old(c.running)
    ensures outcome.Done? ==> c.running
    // It goes ahead only if that is wanted, with the space it needs and a database that passes the check,
    ensures !outcome.Refused? ==>
              && agreed
              && NeedBytes(LiveBytes(old(d.files), Replaced(stores)), ArchiveBytes(archive, Replaced(stores))) <= free
    ensures !outcome.Refused? && !outcome.StageFailed? ==> intact
    ensures outcome.Done? ==> healthy
    // and then just failures stop it: it is through with the script only if no command on the disk failed.
    // An archive that is not used is taken away again.
    ensures PastScript(outcome) ==> d.faults == old(d.faults)
    ensures d.faults >= old(d.faults) && c.faults >= old(c.faults)
    ensures agreed && intact && healthy && HasDatabase(archive)
            && d.faults == old(d.faults) && c.faults == old(c.faults)
            && NeedBytes(LiveBytes(old(d.files), Replaced(stores)), ArchiveBytes(archive, Replaced(stores))) <= free ==>
              outcome.Done?
    ensures outcome.StageFailed? && d.faults <= old(d.faults) + (if intact then 1 else 0) ==> NothingStaged(d.files)
    ensures outcome.StopFailed? && d.faults == old(d.faults) ==> NothingStaged(d.files)
  {
    ghost var start := d.files;
    d.Observe();
    observed, up := d.seen, d.seen;
    var live := CountLive(d, Replaced(stores));
    var ready := d.Check(); // preflight, connection
    if !ready || !agreed || free < NeedBytes(live, ArchiveBytes(archive, Replaced(stores))) {
      return Refused, observed, up;
    }
    ghost var more;
    outcome, more := StageAndCheck(d, stores, archive, intact, free);
    observed := observed + more;
    up := observed;
    if outcome.Done? {
      outcome, more := StopAndReplace(d, c, stores, archive, healthy, free, start);
      observed, up := observed + d.seen, up + more;
    }
  }
}
