/**
 The commands the wizard prints for putting the old files back by hand, and exactly when
 they do it.
 */
module PiHint {
  import opened Disk
  import opened PiFiles
  import opened PiScript

  function IsSide(f: File): bool { f == Wal || f == Shm }

  /** What the commands make of the live files of `s` when none of them fails. */
  function AfterHint(s: PiState, stores: seq<string>, f: File): Option<Bytes> {
    if f in Targets(stores) && Bak(f) in s then Some(s[Bak(f)])
    else if IsSide(f) then None
    else At(s, Live(f))
  }

  ghost predicate HintDone(t: PiState, s: PiState, stores: seq<string>) {
    forall f :: At(t, Live(f)) == AfterHint(s, stores, f)
  }

  ghost predicate SameCopies(t: PiState, s: PiState) {
    forall f :: At(t, Bak(f)) == At(s, Bak(f))
  }

  /** cp -p bak live, straight over the live file: without a copy it changes nothing. */
  method CopyLine(d: PiDrive, f: File)
    requires d.Valid()
    modifies d
    ensures d.Valid() && SameCopies(d.files, old(d.files))
    ensures forall s :: s in d.seen ==> s in old(d.seen) || SameCopies(s, old(d.files))
    ensures d.faults >= old(d.faults)
    ensures d.faults == old(d.faults) ==>
              At(d.files, Live(f)) == if Bak(f) in d.files then At(d.files, Bak(f)) else At(old(d.files), Live(f))
    ensures forall g :: g != f ==> At(d.files, Live(g)) == At(old(d.files), Live(g))
  {
    var _ := d.Copy(Bak(f), Live(f));
  }

  /** The commands between `docker stop` and `docker start`, each tried whatever became of the one before. */
  method RunHint(d: PiDrive, stores: seq<string>)
    requires d.Valid()
    modifies d
    // The copies stay as they are, so a failure or a crash on the way loses nothing and the commands can be repeated.
    ensures d.Valid() && SameCopies(d.files, old(d.files))
    ensures forall s :: s in d.seen ==> s in old(d.seen) || SameCopies(s, old(d.files))
    ensures d.faults >= old(d.faults)
    ensures d.faults == old(d.faults) ==> HintDone(d.files, old(d.files), stores)
  {
    ghost var before := d.files;
    var _ := d.Remove(Live(Wal));
    var _ := d.Remove(Live(Shm));
    var files := Replaced(stores);
    for i := 0 to |files|
      invariant d.Valid() && SameCopies(d.files, before)
      invariant forall s :: s in d.seen ==> s in old(d.seen) || SameCopies(s, before)
      invariant d.faults >= old(d.faults)
      invariant d.faults == old(d.faults) ==> forall f ::
                  At(d.files, Live(f)) ==
                  if f in files[..i] && Bak(f) in before then At(before, Bak(f))
                  else if IsSide(f) then None
                  else At(before, Live(f))
    {
      CopyLine(d, files[i]);
      assert files[..i + 1] == files[..i] + [files[i]];
      assert Bak(files[i]) in d.files <==> Bak(files[i]) in before by {
        assert At(d.files, Bak(files[i])) == At(before, Bak(files[i]));
      }
    }
    assert files[..|files|] == files;
    forall f ensures f in files <==> f in Targets(stores) {
      if f in Targets(stores) {
        ReplacedHasAll(stores, f);
      }
    }
  }

  /* ----------------------------------------------- when it brings everything back */

  /** Every file that existed before the restore is back, whole. */
  ghost predicate OldFilesBack(t: PiState, job: Job) {
    forall f :: Old(job, f).Some? ==> At(t, Live(f)) == Old(job, f)
  }

  /** Every file that existed has a whole copy, or has none yet and is not removed by the commands. */
  ghost predicate CopiesUsable(s: PiState, job: Job) {
    forall f :: f in Targets(job.stores) && Old(job, f).Some? ==>
      At(s, Bak(f)) == Old(job, f) || (At(s, Bak(f)) == None && !IsSide(f))
  }

  /** Wherever the script was cut off, the commands bring every old file back exactly when the copies are usable. */
  lemma HintRecoversIff(s: PiState, t: PiState, job: Job)
    requires ValidJob(job) && Reachable(s, job) && HintDone(t, s, job.stores)
    ensures OldFilesBack(t, job) <==> CopiesUsable(s, job)
  {
    forall f | f in Targets(job.stores) && Old(job, f).Some?
      ensures At(t, Live(f)) == Old(job, f) <==>
              At(s, Bak(f)) == Old(job, f) || (At(s, Bak(f)) == None && !IsSide(f))
    {
      assert Saving(s, job, f) || ArmedOrIdle(s, job, f);
      assert At(t, Live(f)) == AfterHint(s, job.stores, f);
    }
    forall f | f !in Targets(job.stores)
      ensures At(t, Live(f)) == Old(job, f)
    {
      assert Saving(s, job, f) || ArmedOrIdle(s, job, f);
      assert At(t, Live(f)) == AfterHint(s, job.stores, f);
    }
  }

  /** After exit code 12, as from any moment once replacement has begun, they bring every old file back. */
  lemma HintAfterReplacement(s: PiState, t: PiState, job: Job)
    requires ValidJob(job) && AllArmed(s, job) && HintDone(t, s, job.stores)
    ensures OldFilesBack(t, job)
    ensures LiveUntouched(t, job) <==> forall f :: !IsSide(f) && Old(job, f) == None ==> At(s, Live(f)) == None
  {
    forall f | f in Targets(job.stores) && Old(job, f).Some?
      ensures At(s, Bak(f)) == Old(job, f)
    {
      assert ArmedOrIdle(s, job, f);
    }
    HintRecoversIff(s, t, job);
    forall f | Old(job, f) == None
      ensures At(t, Live(f)) == if IsSide(f) then None else At(s, Live(f))
    {
      assert ArmedOrIdle(s, job, f);
      assert At(t, Live(f)) == AfterHint(s, job.stores, f);
    }
  }

  /** But cut off while a copy is being made, they write the half copy over the live database. */
  lemma HintOverHalfCopy()
    ensures var job := Job(map[Live(Db) := [1, 2], Staged(Db) := [3]], []);
            var s := job.pre[Bak(Db) := [1]];
            // the copy step may leave this state, as any other part of the copy
            && Writing(s, job.pre, Bak(Db), job.pre[Live(Db)])
            && ValidJob(job) && Reachable(s, job) && !CopiesUsable(s, job)
            && AfterHint(s, [], Db) == Some([1]) != Old(job, Db)
  {
    var job := Job(map[Live(Db) := [1, 2], Staged(Db) := [3]], []);
    var s := job.pre[Bak(Db) := [1]];
    assert [1] <= [1, 2] by {
      assert [1, 2][..1] == [1];
    }
    forall f ensures Saving(s, job, f) {
      if f == Db {
        assert At(s, Bak(f)) == Some([1]) && Old(job, f) == Some([1, 2]);
      }
    }
    assert AllSaving(s, job);
    assert At(s, Bak(Db)) == Some([1]);
  }

  /**
   Nor do they before any copy is made: they remove the write-ahead log, which has no copy yet, from a
   live database that nothing had touched.
   */
  lemma HintBeforeAnyCopy()
    ensures var job := Job(map[Live(Db) := [1], Live(Wal) := [2], Staged(Db) := [3]], []);
            && ValidJob(job) && Reachable(job.pre, job) && LiveUntouched(job.pre, job)
            && (forall f :: At(job.pre, Bak(f)) == None) && !CopiesUsable(job.pre, job)
            && AfterHint(job.pre, [], Db) == Old(job, Db)
            && AfterHint(job.pre, [], Wal) == None && Old(job, Wal) == Some([2])
  {
    var job := Job(map[Live(Db) := [1], Live(Wal) := [2], Staged(Db) := [3]], []);
    forall f ensures Saving(job.pre, job, f) {
    }
    assert AllSaving(job.pre, job);
    assert Wal in Targets(job.stores) && IsSide(Wal) && Old(job, Wal) == Some([2]);
  }

  /** Without a copy at all they leave the old files exactly when there were no side files. */
  lemma HintWithoutCopies(s: PiState, t: PiState, job: Job)
    requires ValidJob(job) && AllSaving(s, job) && HintDone(t, s, job.stores)
    requires forall f :: f in Targets(job.stores) ==> At(s, Bak(f)) == None
    ensures OldFilesBack(t, job) <==> Old(job, Wal) == None && Old(job, Shm) == None
  {
    HintRecoversIff(s, t, job);
    assert Wal in Targets(job.stores) && Shm in Targets(job.stores) && IsSide(Wal) && IsSide(Shm);
  }
}
