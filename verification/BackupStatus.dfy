/**
 The backup's status file: a section for each kind of archive, replaced as a whole by every
 run, which may fail at any step or be killed between any two.
 */
module BackupStatus {
  import opened Disk

  datatype Kind = Small | Full

  /** Times are seconds; `None` is the empty string. */
  datatype Section = Section(
    lastOKAt: Option<nat>, lastRunAt: Option<nat>, ok: bool, size: nat, file: string, telegram: string, offsite: string,
    error: string)

  datatype Status = Status(version: nat, small: Section, full: Section, verify: string, reviveKeyInBackup: bool)

  datatype File = Missing | Garbled | Parsed(status: Status)

  const NO_SECTION := Section(None, None, false, 0, "", "", "", "")
  const NO_STATUS := Status(0, NO_SECTION, NO_SECTION, "", false)

  const DELIVERY_ERROR := "error"
  const DELIVERY_OFF := "off"
  const RUN_UNFINISHED := "прогон не завершён"
  const INCLUDE_REVIVE_KEY := false

  /** What an update starts from: a missing or garbled file is a clean sheet. */
  function Loaded(f: File): Status {
    if f.Parsed? then f.status else NO_STATUS
  }

  function SectionOf(s: Status, k: Kind): Section {
    if k.Small? then s.small else s.full
  }

  function WithSection(s: Status, k: Kind, x: Section): Status {
    if k.Small? then s.(small := x) else s.(full := x)
  }

  datatype Options = Options(sendTelegram: bool, offsiteSCP: bool)

  /** What is recorded of the deliveries of a run that does not get there. */
  function DeliveryDefaults(o: Options, k: Kind): (string, string) {
    match k
    case Small => (if o.sendTelegram then DELIVERY_ERROR else DELIVERY_OFF, "")
    case Full => (DELIVERY_OFF, if o.offsiteSCP then DELIVERY_ERROR else DELIVERY_OFF)
  }

  const BOTH := [Small, Full]

  /** The kinds that --kind asks for; a wrong value stands for both, and is an error. */
  function KindsFor(kind: string): (kinds: seq<Kind>)
    ensures |kinds| == 1 || kinds == BOTH
  {
    if kind == "small" then [Small] else if kind == "full" then [Full] else BOTH
  }

  predicate KnownKind(kind: string) {
    kind in {"", "both", "small", "full"}
  }

  /** The outcome of one kind's run. */
  datatype Result = Result(file: string, size: nat, telegram: string, offsite: string, error: Option<string>)

  /** Where the run of one kind is killed: nowhere, before anything of it is written, or once the mark is. */
  datatype Kill = Never | AtOnce | AfterMark

  datatype Fate = Fate(result: Result, kill: Kill)

  /**
   One call of the command. `located`: the path of the status file is known; `why`: what is recorded if the run
   cannot begin; `prep`: what went wrong in the preparation common to all kinds, if anything did.
   */
  datatype Request = Request(
    kind: string, configured: bool, located: bool, why: string, prep: Option<string>, small: Fate, full: Fate)

  function FateOf(q: Request, k: Kind): Fate {
    if k.Small? then q.small else q.full
  }

  /** The section says how the run of its kind ended. */
  ghost predicate Recorded(s: Section, was: Section, k: Kind, r: Result, from: nat) {
    && s.file == r.file && s.size == r.size && s.telegram == r.telegram
    && s.offsite == (if k.Full? then r.offsite else "")
    && if r.error.None? then Done(s, from) && s.error == "" else NotDone(s, was, from) && s.error == r.error.value
  }

  /** The section names no archive, and only what was to be delivered as failed. */
  ghost predicate Undelivered(s: Section, k: Kind, o: Options) {
    && s.file == "" && s.size == 0
    && (k.Small? ==> s.telegram == (if o.sendTelegram then "error" else "off") && s.offsite == "")
    && (k.Full? ==> s.telegram == "off" && s.offsite == if o.offsiteSCP then "error" else "off")
  }

  ghost predicate HasError(q: Request, k: Kind) {
    q.prep.Some? || FateOf(q, k).result.error.Some?
  }

  /** The run can begin. */
  ghost predicate CanBegin(q: Request) {
    q.configured && (q.kind == "" || q.kind == "both" || q.kind == "small" || q.kind == "full")
  }

  /** The kind is one of those asked for; all are, unless just one is named. */
  ghost predicate IsAsked(k: Kind, q: Request) {
    && (q.kind == "small" ==> k == Small)
    && (q.kind == "full" ==> k == Full)
  }

  lemma KindsAreAsked(q: Request)
    ensures forall k :: k in KindsFor(q.kind) <==> IsAsked(k, q)
    ensures KnownKind(q.kind) && q.configured <==> CanBegin(q)
  {
    assert |"small"| != |"full"|;
    if q.kind == "small" {
      assert KindsFor(q.kind) == [Small];
    } else if q.kind == "full" {
      assert KindsFor(q.kind) == [Full];
    } else {
      forall k: Kind ensures k in BOTH {
        match k
        case Small => assert BOTH[0] == k;
        case Full => assert BOTH[1] == k;
      }
    }
  }

  function FailedEarly(s: Section, k: Kind, o: Options, at: nat, why: string): Section {
    Section(s.lastOKAt, Some(at), false, 0, "", DeliveryDefaults(o, k).0, DeliveryDefaults(o, k).1, why)
  }

  /* --------------------------------------------------------------- what a section says */

  /** OK is said only of the last run, and its time is that of the last success; no time is in the future. */
  ghost predicate Honest(s: Section, clock: nat) {
    && (s.ok ==> s.lastOKAt.Some? && s.lastOKAt == s.lastRunAt && s.error == [])
    && (s.lastOKAt.Some? ==> s.lastOKAt.value <= clock)
    && (s.lastRunAt.Some? ==> s.lastRunAt.value <= clock)
  }

  /** The run is not over, or did not succeed: the last success stays on record. */
  ghost predicate NotDone(s: Section, was: Section, from: nat) {
    !s.ok && s.lastOKAt == was.lastOKAt && s.lastRunAt.Some? && s.lastRunAt.value >= from
  }

  /** The run succeeded, not before `from`. */
  ghost predicate Done(s: Section, from: nat) {
    s.ok && s.lastRunAt.Some? && s.lastRunAt.value >= from && s.lastOKAt == s.lastRunAt
  }

  function AfterEarly(s: Section, k: Kind, kinds: seq<Kind>, o: Options, at: nat, why: string): Section {
    if k in kinds then FailedEarly(s, k, o, at, why) else s
  }

  lemma EarlySection(s: Section, k: Kind, kinds: seq<Kind>, o: Options, from: nat, at: nat, why: string)
    requires Honest(s, from) && from <= at
    ensures Honest(s, at) && Honest(AfterEarly(s, k, kinds, o, at, why), at)
    ensures k in kinds ==> NotDone(AfterEarly(s, k, kinds, o, at, why), s, from)
    ensures k in kinds ==> AfterEarly(s, k, kinds, o, at, why).error == why
    ensures k in kinds ==> Undelivered(AfterEarly(s, k, kinds, o, at, why), k, o)
  {
  }

  /** What a run that began at `from` may make of a section. */
  ghost predicate Follows(s: Section, was: Section, from: nat) {
    s == was || NotDone(s, was, from) || Done(s, from)
  }

  ghost predicate NoEarlier(a: Option<nat>, b: Option<nat>) {
    a.Some? ==> b.Some? && a.value <= b.value
  }

  /** Along any run the record of the last success does not go back. */
  lemma SuccessStays(s: Section, was: Section, from: nat)
    requires Honest(was, from) && Follows(s, was, from)
    ensures NoEarlier(was.lastOKAt, s.lastOKAt)
    ensures s.lastOKAt != was.lastOKAt ==> s.ok && s.lastOKAt.value >= from
  {
  }

  class StatusFile {
    var file: File
    var clock: nat
    ghost var faults: nat // writes of the file that failed

    constructor (file: File, clock: nat)
      ensures this.file == file && this.clock == clock && faults == 0
    {
      this.file, this.clock, faults := file, clock, 0;
    }

    ghost predicate Valid()
      reads this
    {
      forall k :: Honest(Sec(k), clock)
    }

    function Sec(k: Kind): Section
      reads this`file
    {
      SectionOf(Loaded(file), k)
    }

    /** The clock does not go back. */
    method Now() returns (t: nat)
      modifies this`clock
      ensures t == clock >= old(clock)
    {
      var d: nat :| true;
      clock := clock + d;
      t := clock;
    }

    /** Read, change and publish by one rename; a file that cannot be read is left alone. */
    method UpdateStatus(mutate: Status -> Status) returns (ok: bool)
      modifies this`file, this`faults
      ensures file == if ok then Parsed(mutate(Loaded(old(file))).(version := 1)) else old(file)
      ensures faults == if ok then old(faults) else old(faults) + 1
    {
      ok := *;
      if ok {
        file := Parsed(mutate(Loaded(file)).(version := 1));
      } else {
        faults := faults + 1;
      }
    }

    /** Replace one kind's section; the other section and the verification stay. */
    method Replace(k: Kind, x: Section, revive: Option<bool>) returns (ok: bool)
      modifies this`file, this`faults
      ensures !ok ==> file == old(file)
      ensures ok ==> Sec(k) == x && file.Parsed?
      ensures ok && revive.Some? ==> Loaded(file).reviveKeyInBackup == revive.value
      ensures forall other :: other != k ==> Sec(other) == old(Sec(other))
      ensures Loaded(file).verify == Loaded(old(file)).verify
      ensures faults == if ok then old(faults) else old(faults) + 1
    {
      ok := UpdateStatus((s: Status) =>
        WithSection(s, k, x).(reviveKeyInBackup := if revive.Some? then revive.value else s.reviveKeyInBackup));
    }

    method ReplaceBoth(small: Section, full: Section) returns (ok: bool)
      modifies this`file, this`faults
      ensures !ok ==> file == old(file)
      ensures ok ==> Sec(Small) == small && Sec(Full) == full
      ensures Loaded(file).verify == Loaded(old(file)).verify
      ensures faults == if ok then old(faults) else old(faults) + 1
    {
      ok := UpdateStatus((s: Status) => s.(small := small, full := full));
    }

    /** The mark of a run that has begun. */
    method WriteStartedMarker(k: Kind, o: Options) returns (ok: bool)
      requires Valid()
      modifies this
      ensures Valid() && clock >= old(clock)
      ensures ok ==> NotDone(Sec(k), old(Sec(k)), old(clock)) && Sec(k).error == RUN_UNFINISHED && Sec(k).size == 0
      ensures ok ==> Undelivered(Sec(k), k, o)
      ensures !ok ==> Sec(k) == old(Sec(k))
      ensures forall other :: other != k ==> Sec(other) == old(Sec(other))
      ensures Loaded(file).verify == Loaded(old(file)).verify
      ensures faults == if ok then old(faults) else old(faults) + 1
    {
      var at := Now();
      var d := DeliveryDefaults(o, k);
      ok := Replace(k, Section(Sec(k).lastOKAt, Some(at), false, 0, "", d.0, d.1, RUN_UNFINISHED), None);
    }

    /** The outcome of a run. */
    method WriteKindStatus(k: Kind, r: Result) returns (ok: bool)
      requires Valid()
      modifies this
      ensures Valid() && clock >= old(clock)
      ensures ok ==> Recorded(Sec(k), old(Sec(k)), k, r, old(clock))
      ensures ok ==> Loaded(file).reviveKeyInBackup == INCLUDE_REVIVE_KEY
      ensures !ok ==> Sec(k) == old(Sec(k))
      ensures forall other :: other != k ==> Sec(other) == old(Sec(other))
      ensures Loaded(file).verify == Loaded(old(file)).verify
      ensures faults == if ok then old(faults) else old(faults) + 1
    {
      var at := Now();
      var lastOK := if r.error.None? then Some(at) else Sec(k).lastOKAt;
      var offsite, error := if k.Full? then r.offsite else "", if r.error.None? then "" else r.error.value;
      var section := Section(lastOK, Some(at), r.error.None?, r.size, r.file, r.telegram, offsite, error);
      ok := Replace(k, section, Some(INCLUDE_REVIVE_KEY));
    }

    /** A run that could not begin: every kind asked for has failed, in one write. */
    method WriteEarlyFailure(kinds: seq<Kind>, o: Options, why: string) returns (ok: bool)
      requires Valid()
      modifies this
      ensures Valid() && clock >= old(clock)
      ensures forall k :: ok && k in kinds ==>
                NotDone(Sec(k), old(Sec(k)), old(clock)) && Sec(k).error == why && Undelivered(Sec(k), k, o)
      ensures forall k :: !ok || k !in kinds ==> Sec(k) == old(Sec(k))
      ensures Loaded(file).verify == Loaded(old(file)).verify
      ensures faults == if ok then old(faults) else old(faults) + 1
    {
      ghost var was, from := (Sec(Small), Sec(Full)), clock;
      assert Honest(was.0, from) && Honest(was.1, from);
      var at := Now();
      var small := AfterEarly(Sec(Small), Small, kinds, o, at, why);
      var full := AfterEarly(Sec(Full), Full, kinds, o, at, why);
      EarlySection(was.0, Small, kinds, o, from, at, why);
      EarlySection(was.1, Full, kinds, o, from, at, why);
      ok := ReplaceBoth(small, full);
    }

    /**
     One kind's run. If it is killed before the mark everything is as it was; after it the section says that
     the run is not finished, unless the mark could not be written.
     */
    method RunOne(k: Kind, o: Options, prep: Option<string>, fate: Fate)
      returns (killed: bool, written: bool, error: bool)
      requires Valid()
      modifies this
      ensures Valid() && clock >= old(clock)
      ensures killed <==> fate.kill != Never
      ensures error <==> !killed && (prep.Some? || fate.result.error.Some?)
      ensures Follows(Sec(k), old(Sec(k)), old(clock))
      ensures fate.kill == AtOnce || (killed && prep.Some?) ==> Sec(k) == old(Sec(k))
      ensures fate.kill == AfterMark && prep.None? && Sec(k) != old(Sec(k)) ==>
                Unfinished(k, old(Sec(k)), old(clock), o)
      ensures fate.kill == AfterMark && prep.None? && faults == old(faults) ==>
                Unfinished(k, old(Sec(k)), old(clock), o)
      ensures written ==> !killed && Outcome(k, old(Sec(k)), old(clock), o, prep, fate.result)
      ensures Sec(k).ok ==> Sec(k) == old(Sec(k)) || (prep.None? && fate.result.error.None?)
      ensures faults >= old(faults) && (!killed && !written ==> faults > old(faults))
      ensures forall other :: other != k ==> Sec(other) == old(Sec(other))
      ensures Loaded(file).verify == Loaded(old(file)).verify
    {
      killed, written, error := false, false, false;
      if fate.kill == AtOnce {
        return true, false, false;
      }
      var d := DeliveryDefaults(o, k);
      var r := if prep.None? then fate.result else Result("", 0, d.0, d.1, prep);
      if prep.None? {
        var _ := WriteStartedMarker(k, o);
      }
      if fate.kill == AfterMark {
        return true, false, false;
      }
      written := WriteKindStatus(k, r);
      error := r.error.Some?;
    }

    /** The section says that a run began and did not finish. */
    ghost predicate Unfinished(k: Kind, was: Section, from: nat, o: Options)
      reads this`file
    {
      NotDone(Sec(k), was, from) && Sec(k).error == RUN_UNFINISHED && Undelivered(Sec(k), k, o)
    }

    /** The section says how the run went; where the preparation failed, that. */
    ghost predicate Outcome(k: Kind, was: Section, from: nat, o: Options, prep: Option<string>, r: Result)
      reads this`file
    {
      if prep.None? then Recorded(Sec(k), was, k, r, from)
      else NotDone(Sec(k), was, from) && Sec(k).error == prep.value && Undelivered(Sec(k), k, o)
    }

    /** How far a run has got with one kind. */
    ghost predicate Progress(
      k: Kind, ran: bool, was: Section, from: nat, q: Request, o: Options, failed: bool, clean: bool)
      reads this`file
    {
      if !ran then Sec(k) == was
      else
        && FateOf(q, k).kill == Never && Follows(Sec(k), was, from)
        && (!failed ==> Done(Sec(k), from))
        && (clean ==> Outcome(k, was, from, o, q.prep, FateOf(q, k).result))
    }

    /** The kinds of `ran` are through. */
    ghost predicate InProgress(
      ran: set<Kind>, small: Section, full: Section, from: nat, base: nat, q: Request, o: Options, failed: bool)
      reads this
    {
      && Valid() && clock >= from && faults >= base
      && Progress(Small, Small in ran, small, from, q, o, failed, faults == base)
      && Progress(Full, Full in ran, full, from, q, o, failed, faults == base)
      && (faults == base ==> (failed <==> (Small in ran && HasError(q, Small)) || (Full in ran && HasError(q, Full))))
    }

    method NextKind(
      k: Kind, q: Request, o: Options, so: bool,
      ghost ran: set<Kind>, ghost small: Section, ghost full: Section, ghost from: nat, ghost base: nat)
      returns (dead: bool, failed: bool)
      requires InProgress(ran, small, full, from, base, q, o, so) && k !in ran
      modifies this
      ensures dead <==> FateOf(q, k).kill != Never
      ensures !dead ==> InProgress(ran + {k}, small, full, from, base, q, o, failed)
      ensures dead ==> Valid() && clock >= from && faults >= base && failed == so
      ensures Follows(Sec(Small), small, from) && Follows(Sec(Full), full, from)
      ensures forall other :: other != k ==> Sec(other) == old(Sec(other))
      ensures Loaded(file).verify == Loaded(old(file)).verify
    {
      var written, error;
      dead, written, error := RunOne(k, o, q.prep, FateOf(q, k));
      failed := so || (!dead && (error || !written));
    }

    /** The kinds, one after the other. */
    method RunKinds(kinds: seq<Kind>, q: Request, o: Options) returns (killed: bool, failed: bool)
      requires Valid() && (|kinds| == 1 || kinds == BOTH)
      modifies this
      ensures Valid() && clock >= old(clock) && faults >= old(faults)
      ensures forall k :: Follows(Sec(k), old(Sec(k)), old(clock))
      ensures forall k :: k !in kinds ==> Sec(k) == old(Sec(k))
      ensures killed <==> exists k :: k in kinds && FateOf(q, k).kill != Never
      ensures !killed && !failed ==> forall k :: k in kinds ==> Done(Sec(k), old(clock))
      ensures !killed && faults == old(faults) ==>
                && (forall k :: k in kinds ==> Outcome(k, old(Sec(k)), old(clock), o, q.prep, FateOf(q, k).result))
                && (failed <==> (Small in kinds && HasError(q, Small)) || (Full in kinds && HasError(q, Full)))
      ensures Small in kinds && q.small.kill != Never ==> Sec(Full) == old(Sec(Full))
      ensures Loaded(file).verify == Loaded(old(file)).verify
    {
      ghost var small, full, from, base := Sec(Small), Sec(Full), clock, faults;
      ghost var ran: set<Kind> := {};
      killed, failed := false, false;
      for i := 0 to |kinds|
        invariant InProgress(ran, small, full, from, base, q, o, failed)
        invariant forall k :: k in ran <==> k in kinds[..i]
        invariant Loaded(file).verify == Loaded(old(file)).verify
      {
        assert kinds[..i + 1] == kinds[..i] + [kinds[i]];
        assert i == 0 || (i == 1 && kinds[..i] == [Small] && kinds[i] == Full);
        killed, failed := NextKind(kinds[i], q, o, failed, ran, small, full, from, base);
        if killed {
          assert kinds[i] in kinds;
          return;
        }
        ran := ran + {kinds[i]};
      }
      assert kinds[..|kinds|] == kinds;
    }

    /**
     One run of the command: all kinds asked for, one after the other; the failure of one does not
     stop the other, and a kill stops both.
     */
    method RunBackup(q: Request, o: Options) returns (killed: bool, failed: bool)
      requires Valid()
      modifies this
      ensures Valid() && clock >= old(clock)
      ensures forall k :: Follows(Sec(k), old(Sec(k)), old(clock))
      ensures forall k :: !IsAsked(k, q) ==> Sec(k) == old(Sec(k))
      // A run that reports no failure leaves every kind it was asked for done.
      ensures !killed && !failed ==>
                CanBegin(q) && forall k :: IsAsked(k, q) ==> Done(Sec(k), old(clock))
      // One that cannot begin records that for every kind asked for, if it knows where.
      ensures !CanBegin(q) ==> !killed && failed
      ensures !CanBegin(q) ==> forall k :: Sec(k) == old(Sec(k)) || NotDone(Sec(k), old(Sec(k)), old(clock))
      ensures !CanBegin(q) && q.located && faults == old(faults) ==> forall k :: IsAsked(k, q) ==>
                NotDone(Sec(k), old(Sec(k)), old(clock)) && Sec(k).error == q.why && Undelivered(Sec(k), k, o)
      ensures !CanBegin(q) && !q.located ==> file == old(file)
      // One that is not killed records how each kind went, whatever became of the other.
      ensures CanBegin(q) && killed ==> exists k :: IsAsked(k, q) && FateOf(q, k).kill != Never
      ensures faults >= old(faults)
      ensures CanBegin(q) && !killed ==> forall k :: IsAsked(k, q) ==> FateOf(q, k).kill == Never
      ensures CanBegin(q) && !killed && faults == old(faults) ==> forall k :: IsAsked(k, q) ==>
                Outcome(k, old(Sec(k)), old(clock), o, q.prep, FateOf(q, k).result)
      ensures CanBegin(q) && !killed && faults == old(faults) ==>
                (failed <==> exists k :: IsAsked(k, q) && HasError(q, k))
      // The small archive comes first.
      ensures CanBegin(q) && IsAsked(Small, q) && q.small.kill != Never ==> Sec(Full) == old(Sec(Full))
      ensures Loaded(file).verify == Loaded(old(file)).verify
    {
      killed, failed := false, false;
      var kinds := KindsFor(q.kind);
      KindsAreAsked(q);
      if !q.configured || !KnownKind(q.kind) {
        failed := true;
        if q.located {
          var _ := WriteEarlyFailure(kinds, o, q.why);
        }
        return;
      }
      killed, failed := RunKinds(kinds, q, o);
    }

    /** Any number of runs, asked for anything and killed anywhere. */
    method Runs(asked: seq<Request>, o: Options)
      requires Valid()
      modifies this
      ensures Valid()
      ensures forall k :: NoEarlier(old(Sec(k)).lastOKAt, Sec(k).lastOKAt)
      ensures forall k :: (forall i :: 0 <= i < |asked| ==> !IsAsked(k, asked[i])) ==> Sec(k) == old(Sec(k))
      ensures Loaded(file).verify == Loaded(old(file)).verify
    {
      for i := 0 to |asked|
        invariant Valid()
        invariant forall k :: NoEarlier(old(Sec(k)).lastOKAt, Sec(k).lastOKAt)
        invariant forall k :: (forall j :: 0 <= j < i ==> !IsAsked(k, asked[j])) ==> Sec(k) == old(Sec(k))
        invariant Loaded(file).verify == Loaded(old(file)).verify
      {
        ghost var was, from := (Sec(Small), Sec(Full)), clock;
        var _, _ := RunBackup(asked[i], o);
        SuccessStays(Sec(Small), was.0, from);
        SuccessStays(Sec(Full), was.1, from);
      }
    }
  }
}
