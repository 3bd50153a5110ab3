/**
 The files the Raspberry Pi restore works on, and what may be found under their names.
 A restore with stamp `ts` uses four names for each file it replaces; they are kept
 structured here, and `PiNames` shows that the strings of the script are all different.
 */
module PiFiles {
  import opened Disk

  /** What is replaced: the database, its two side files, and a JSON store by name. */
  datatype File = Db | Wal | Shm | Store(name: string)

  datatype PiName =
    | Live(file: File)        // data/<file>
    | Bak(file: File)         // data/<file>.bak.<ts>
    | Rb(file: File)          // data/<file>.rb.<ts>
    | Staged(file: File)      // data/restore-tmp/<file>
    | Elsewhere(path: string) // anything else on the Pi

  type PiState = Files<PiName>

  /** One run of the restore: the state in which it starts and the stores it replaces. */
  datatype Job = Job(pre: PiState, stores: seq<string>)

  function Targets(stores: seq<string>): (files: set<File>)
    ensures Db in files && Wal in files && Shm in files
    ensures forall f :: f in files && f.Store? ==> f.name in stores
    ensures forall i :: 0 <= i < |stores| ==> Store(stores[i]) in files
  {
    {Db, Wal, Shm} + set i | 0 <= i < |stores| :: Store(stores[i])
  }

  ghost predicate Distinct(names: seq<string>) {
    forall i, j :: 0 <= i < j < |names| ==> names[i] != names[j]
  }

  /** The database with its side files, and the first `n` stores. */
  function FirstTargets(stores: seq<string>, n: nat): set<File>
    requires n <= |stores|
  {
    if n == 0 then {Db, Wal, Shm} else FirstTargets(stores, n - 1) + {Store(stores[n - 1])}
  }

  lemma {:induction false} FirstTargetsAre(stores: seq<string>, n: nat)
    requires n <= |stores|
    ensures forall f :: f in FirstTargets(stores, n) <==>
              f == Db || f == Wal || f == Shm || exists i :: 0 <= i < n && f == Store(stores[i])
  {
    if n > 0 {
      FirstTargetsAre(stores, n - 1);
    }
  }

  /** The next store is another one, and with the last one they are all targets. */
  lemma NextTarget(stores: seq<string>, n: nat)
    requires n <= |stores| && Distinct(stores)
    ensures n < |stores| ==> Store(stores[n]) !in FirstTargets(stores, n) && Store(stores[n]) in Targets(stores)
    ensures n < |stores| ==> FirstTargets(stores, n + 1) == FirstTargets(stores, n) + {Store(stores[n])}
    ensures n == |stores| ==> FirstTargets(stores, n) == Targets(stores)
    ensures Db in FirstTargets(stores, n) && Wal in FirstTargets(stores, n) && Shm in FirstTargets(stores, n)
  {
    FirstTargetsAre(stores, n);
  }

  /** The stamp has not been used before. */
  ghost predicate FreshStamp(s: PiState) {
    forall n :: n in s ==> !n.Bak? && !n.Rb?
  }

  /** The archive holds the database itself, never its side files. */
  ghost predicate StagedFor(s: PiState, stores: seq<string>) {
    forall f :: Staged(f) in s ==> f in Targets(stores) && f != Wal && f != Shm
  }

  ghost predicate ValidJob(job: Job) {
    Distinct(job.stores) && FreshStamp(job.pre) && StagedFor(job.pre, job.stores)
  }

  function Old(job: Job, f: File): Option<Bytes> { At(job.pre, Live(f)) }

  function New(job: Job, f: File): Option<Bytes> { At(job.pre, Staged(f)) }

  /** The archive's database and every store are laid out, ready to be moved into place. */
  ghost predicate ArchiveStaged(job: Job) {
    forall f :: f in Targets(job.stores) && f != Wal && f != Shm ==> New(job, f).Some?
  }

  /** As `ArchiveStaged`, and the database is not empty: what the script itself checks. */
  ghost predicate ArchiveReady(job: Job) {
    ArchiveStaged(job) && New(job, Db) != Some([])
  }

  /** Nothing is left of the run but the live files: no copies, no unpacked archive. */
  ghost predicate Tidy(s: PiState) {
    forall n :: n in s ==> !n.Bak? && !n.Rb? && !n.Staged?
  }

  /* ------------------------------------------------ where the live set can be */

  /** Nothing the backend can see has changed: same files, same bytes, same files missing. */
  ghost predicate LiveUntouched(s: PiState, job: Job) {
    forall f :: At(s, Live(f)) == Old(job, f)
  }

  /** The archive is in place: database and stores from it, no side files, the rest as before. */
  ghost predicate LiveReplaced(s: PiState, job: Job) {
    forall f :: At(s, Live(f)) == if f in Targets(job.stores) then New(job, f) else Old(job, f)
  }

  /** No file outside this restore is read differently afterwards. */
  ghost predicate RestUntouched(s: PiState, job: Job) {
    forall p :: At(s, Elsewhere(p)) == At(job.pre, Elsewhere(p))
  }

  ghost predicate PartOf(b: Option<Bytes>, whole: Option<Bytes>) {
    b.None? || (whole.Some? && b.value <= whole.value)
  }

  /** Before the first replacement: live as it was, its copy missing, half-written or whole. */
  ghost predicate Saving(s: PiState, job: Job, f: File) {
    && At(s, Live(f)) == Old(job, f)
    && (if f in Targets(job.stores) then PartOf(At(s, Bak(f)), Old(job, f)) else At(s, Bak(f)) == None)
    && At(s, Rb(f)) == None
    && (At(s, Staged(f)) == None || At(s, Staged(f)) == New(job, f))
  }

  /** Once replacement has begun: the copy is whole, and live is the old file, the new one or gone. */
  ghost predicate Armed(s: PiState, job: Job, f: File) {
    && At(s, Bak(f)) == Old(job, f)
    && PartOf(At(s, Rb(f)), Old(job, f))
    && (|| (At(s, Live(f)) == New(job, f) && At(s, Staged(f)) == None)
        || ((At(s, Live(f)) == None || At(s, Live(f)) == Old(job, f))
            && (At(s, Staged(f)) == None || At(s, Staged(f)) == New(job, f))))
  }

  /** As `Armed`; a file this restore does not replace is as it was and has no copy. */
  ghost predicate ArmedOrIdle(s: PiState, job: Job, f: File) {
    if f in Targets(job.stores) then Armed(s, job, f) else Saving(s, job, f)
  }

  ghost predicate AllSaving(s: PiState, job: Job) {
    RestUntouched(s, job) && forall f :: Saving(s, job, f)
  }

  ghost predicate AllArmed(s: PiState, job: Job) {
    && RestUntouched(s, job)
    && forall f :: ArmedOrIdle(s, job, f)
  }

  /** Every state the script may leave behind, at whatever step it is cut off. */
  ghost predicate Reachable(s: PiState, job: Job) {
    AllSaving(s, job) || AllArmed(s, job)
  }

  /* ------------------------------------------------------- what that gives */

  /** A live file is whole-old, whole-new or missing: never a mixture, never a half. */
  ghost predicate LiveWhole(s: PiState, job: Job, f: File) {
    At(s, Live(f)) == None || At(s, Live(f)) == Old(job, f) || At(s, Live(f)) == New(job, f)
  }

  /** The bytes of a file that existed are still on the disk, whole, under one of its two names. */
  ghost predicate OldKept(s: PiState, job: Job, f: File) {
    Old(job, f).Some? ==> At(s, Live(f)) == Old(job, f) || At(s, Bak(f)) == Old(job, f)
  }

  lemma NothingLost(s: PiState, job: Job, f: File)
    requires Reachable(s, job)
    ensures LiveWhole(s, job, f) && OldKept(s, job, f)
  {
    assert Saving(s, job, f) || ArmedOrIdle(s, job, f);
  }

  /* ----------------------------------------------------------- disk space */

  /** Bytes one file takes under its four names. */
  function Usage(s: PiState, f: File): nat {
    SizeAt(s, Live(f)) + SizeAt(s, Bak(f)) + SizeAt(s, Rb(f)) + SizeAt(s, Staged(f))
  }

  function UsageOf(s: PiState, files: seq<File>): nat {
    if files == [] then 0 else Usage(s, files[0]) + UsageOf(s, files[1..])
  }

  /** The files the space check adds up, in its order. */
  function Replaced(stores: seq<string>): seq<File> {
    [Db, Wal, Shm] + seq(|stores|, i requires 0 <= i < |stores| => Store(stores[i]))
  }

  function LiveBytes(s: PiState, files: seq<File>): nat {
    if files == [] then 0 else SizeAt(s, Live(files[0])) + LiveBytes(s, files[1..])
  }

  function StagedBytes(s: PiState, files: seq<File>): nat {
    if files == [] then 0 else SizeAt(s, Staged(files[0])) + StagedBytes(s, files[1..])
  }

  /** The space asked for: a copy of all that is replaced, as much again for a rollback, and the archive. */
  function NeedBytes(live: nat, staged: nat): nat {
    2 * live + staged
  }

  lemma UsageBound(s: PiState, job: Job, f: File)
    requires Reachable(s, job)
    ensures Usage(s, f) <= 3 * SizeAt(job.pre, Live(f)) + SizeAt(job.pre, Staged(f))
  {
    assert Saving(s, job, f) || ArmedOrIdle(s, job, f);
  }

  /** From the first copy to the end of a rollback the restore never takes more than was asked for. */
  lemma {:induction false} SpaceBound(s: PiState, job: Job, files: seq<File>)
    requires Reachable(s, job)
    ensures UsageOf(s, files) <=
            LiveBytes(job.pre, files) + NeedBytes(LiveBytes(job.pre, files), StagedBytes(job.pre, files))
  {
    if files != [] {
      UsageBound(s, job, files[0]);
      SpaceBound(s, job, files[1..]);
    }
  }

  /** A file that is back, with its copy, the `.rb` of a move that failed and the archive's file still there. */
  ghost predicate LeftOver(s: PiState, job: Job, f: File) {
    At(s, Live(f)) == Old(job, f) && At(s, Bak(f)) == Old(job, f) && At(s, Rb(f)) == Old(job, f)
    && At(s, Staged(f)) == New(job, f)
  }

  /** The bound is not generous: a rollback whose every `mv` fails takes all of it. */
  lemma {:induction false} SpaceBoundIsTight(s: PiState, job: Job, files: seq<File>)
    requires forall f :: f in files ==> LeftOver(s, job, f)
    ensures forall f :: f in files ==> Armed(s, job, f)
    ensures UsageOf(s, files) ==
            LiveBytes(job.pre, files) + NeedBytes(LiveBytes(job.pre, files), StagedBytes(job.pre, files))
  {
    if files != [] {
      assert LeftOver(s, job, files[0]);
      SpaceBoundIsTight(s, job, files[1..]);
      assert forall f :: f in files ==> f == files[0] || f in files[1..];
    }
  }
}
