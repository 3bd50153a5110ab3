/**
 The backend's update runner: swap the binary for a checked download, restart, and put the
 old one back when that fails; run again and again, with any failure and any crash.
 */
module Updater {
  import opened Disk
  import opened Text

  datatype BinName =
    | Path    // the binary that is started
    | Fresh   // path.new
    | Bak     // path.bak
    | Failed  // path.failed
    | Pending // the request
    | Status  // what became of the last request

  type BinState = Files<BinName>
  type BinDrive = Drive<BinName>

  const OK_STATUS: Bytes := [1]
  const ERR_STATUS: Bytes := [0]

  /** Only contents from `trusted` can be started or put back, and there is one to start or put back. */
  ghost predicate Sound(s: BinState, trusted: iset<Bytes>) {
    && (Path in s ==> s[Path] in trusted)
    && (Bak in s ==> s[Bak] in trusted)
    && (Failed in s ==> s[Failed] in trusted)
    && (Path in s || Bak in s)
  }

  /** The request and the record of the last one are as in `t`. */
  ghost predicate SameRequest(s: BinState, t: BinState) {
    At(s, Pending) == At(t, Pending) && At(s, Status) == At(t, Status)
  }

  /** `was` can be started, or is what a rollback puts back. */
  ghost predicate Holds(s: BinState, was: Bytes) {
    At(s, Path) == Some(was) || At(s, Bak) == Some(was)
  }

  /** What a run is watched for: the states seen before it, what it may start, the binary and request it found. */
  datatype Watch = Watch(before: set<BinState>, trusted: iset<Bytes>, was: Option<Bytes>, base: BinState)

  /** Sound, the request untouched, and still holding the binary that was there to begin with, if there was one. */
  ghost predicate Good(s: BinState, w: Watch) {
    Sound(s, w.trusted) && SameRequest(s, w.base) && (w.was.Some? ==> Holds(s, w.was.value))
  }

  /** Every state seen since the watch began is good. */
  ghost predicate Traced(d: BinDrive, w: Watch)
    reads d
  {
    && d.Valid() && w.before <= d.seen && Good(d.files, w)
    && forall s :: s in d.seen ==> s in w.before || Good(s, w)
  }

  /* ------------------------------------------- single commands, under the invariant */

  method Rm(d: BinDrive, name: BinName, ghost w: Watch)
    requires Traced(d, w) && Good(d.files - {name}, w)
    modifies d
    ensures Traced(d, w)
    ensures d.files == if d.faults == old(d.faults) then old(d.files) - {name} else old(d.files)
    ensures old(d.faults) <= d.faults <= old(d.faults) + 1
  {
    var _ := d.Remove(name);
  }

  method Mv(d: BinDrive, src: BinName, dst: BinName, ghost w: Watch)
    returns (ok: bool)
    requires src != dst && src in d.files && Traced(d, w)
    requires Good((d.files - {src})[dst := d.files[src]], w)
    modifies d
    ensures Traced(d, w)
    ensures d.files == if ok then (old(d.files) - {src})[dst := old(d.files)[src]] else old(d.files)
    ensures d.faults == if ok then old(d.faults) else old(d.faults) + 1
  {
    ok := d.Rename(src, dst);
  }

  /** Prepare `path.new` with the whole of `body`. */
  method WriteFresh(d: BinDrive, body: Bytes, ghost w: Watch)
    returns (ok: bool)
    requires Traced(d, w)
    modifies d
    ensures Traced(d, w)
    ensures forall n :: n != Fresh ==> At(d.files, n) == At(old(d.files), n)
    ensures ok ==> At(d.files, Fresh) == Some(body)
    ensures d.faults >= old(d.faults) && (!ok ==> d.faults > old(d.faults))
    ensures ok ==> d.faults <= old(d.faults) + 1
  {
    ok := d.Check(); // MkdirAll
    if !ok {
      return;
    }
    Rm(d, Fresh, w);
    ok := d.Write(Fresh, body);
  }

  /** Move the binary that is there to `.bak`. */
  method SetAside(d: BinDrive, ghost w: Watch)
    returns (ok: bool)
    requires Path in d.files && Traced(d, w) && (w.was.Some? ==> At(d.files, Path) == w.was)
    modifies d
    ensures Traced(d, w)
    ensures forall n :: n != Path && n != Bak ==> At(d.files, n) == At(old(d.files), n)
    ensures ok ==> Path !in d.files && At(d.files, Bak) == At(old(d.files), Path)
    ensures !ok ==> At(d.files, Path) == At(old(d.files), Path) && d.faults > old(d.faults)
    ensures d.faults >= old(d.faults) && (ok ==> d.faults <= old(d.faults) + 1)
  {
    Rm(d, Bak, w);
    ok := Mv(d, Path, Bak, w);
  }

  /** The new binary did not get its name: put the old one back, whatever happens to `path.new`. */
  method Compensate(d: BinDrive, ghost w: Watch)
    requires Traced(d, w)
    requires w.was.Some? ==> At(d.files, Bak) == w.was
    modifies d
    ensures Traced(d, w)
    ensures forall n :: n != Path && n != Bak && n != Fresh ==> At(d.files, n) == At(old(d.files), n)
    ensures d.faults >= old(d.faults)
    ensures d.faults == old(d.faults) ==> Fresh !in d.files
    ensures d.faults == old(d.faults) ==>
              At(d.files, Path) == At(old(d.files), if Bak in old(d.files) then Bak else Path)
  {
    Rm(d, Fresh, w);
    var there, _ := d.Stat(Bak);
    if there {
      var _ := Mv(d, Bak, Path, w);
    }
  }

  /** Put `body` in place of the binary, keeping the old one as `.bak`. */
  method SwapBackendBinary(d: BinDrive, body: Bytes, ghost w: Watch)
    returns (ok: bool, faithful: bool, ghost written: bool)
    requires Traced(d, w) && w.was == At(d.files, Path) && body in w.trusted
    modifies d
    // Nothing untrusted gets a name that is started; the request is not touched.
    ensures Traced(d, w.(was := None))
    ensures d.faults >= old(d.faults)
    // Done: the new one is in place and the old one is its backup.
    ensures ok ==> At(d.files, Path) == Some(body)
    ensures ok && faithful && w.was.Some? ==> At(d.files, Bak) == w.was
    // The old binary is never away from both names, and one failure alone leaves it where it was.
    ensures faithful ==> Traced(d, w)
    ensures w.was.Some? && !ok && d.faults == old(d.faults) + 1 ==> At(d.files, Path) == w.was
    ensures !ok || !faithful ==> d.faults > old(d.faults)
    // Only the removals and the look at the binary may fail without an error.
    ensures ok ==> d.faults <= old(d.faults) + 3
    // What was written is not left behind; a write that fails touches no other name.
    ensures !ok && written && d.faults == old(d.faults) + 1 ==> Fresh !in d.files
    ensures !written ==> !ok && forall n :: n != Fresh ==> At(d.files, n) == At(old(d.files), n)
  {
    faithful := true;
    ok := WriteFresh(d, body, w);
    written := ok;
    if !ok {
      return;
    }
    var there;
    there, faithful := d.Stat(Path);
    ghost var kept := if faithful then w else w.(was := None);
    if there {
      ok := SetAside(d, kept);
      if !ok {
        Rm(d, Fresh, kept);
        return;
      }
    }
    ok := Mv(d, Fresh, Path, kept);
    if !ok {
      Compensate(d, kept);
    }
  }

  /** Move whatever is at the binary's name out of the way of the backup. */
  method ClearPath(d: BinDrive, ghost w: Watch)
    returns (ok: bool)
    requires Bak in d.files && w.was == At(d.files, Bak) && Traced(d, w)
    modifies d
    ensures Traced(d, w)
    ensures forall n :: n != Path && n != Failed ==> At(d.files, n) == At(old(d.files), n)
    ensures d.faults >= old(d.faults)
    ensures d.faults == old(d.faults) ==> ok && Path !in d.files && At(d.files, Failed) == At(old(d.files), Path)
    ensures !ok ==> d.faults > old(d.faults) && At(d.files, Path) == At(old(d.files), Path)
    ensures ok ==> d.faults <= old(d.faults) + 2
  {
    Rm(d, Failed, w);
    var there, _ := d.Stat(Path);
    ok := true;
    if there {
      ok := Mv(d, Path, Failed, w);
    }
  }

  /** The backup did not get its name back: return what was there, if it was moved away. */
  method Reinstate(d: BinDrive, ghost w: Watch)
    requires Bak in d.files && w.was == At(d.files, Bak) && Traced(d, w)
    modifies d
    ensures Traced(d, w)
    ensures forall n :: n != Path && n != Failed ==> At(d.files, n) == At(old(d.files), n)
    ensures d.faults >= old(d.faults)
    ensures d.faults == old(d.faults) ==>
              At(d.files, Path) == At(old(d.files), if Failed in old(d.files) then Failed else Path)
  {
    var there, _ := d.Stat(Failed);
    if there {
      var _ := Mv(d, Failed, Path, w);
    }
  }

  /** Put the backup back; without one there is nothing to do. */
  method RollbackBackendBinary(d: BinDrive, ghost w: Watch) returns (ok: bool)
    requires Traced(d, w) && w.was == At(d.files, Bak)
    modifies d
    ensures Traced(d, w)
    ensures d.faults >= old(d.faults)
    ensures ok ==> Bak !in d.files && At(d.files, Path) == if w.was.Some? then w.was else At(old(d.files), Path)
    ensures d.faults == old(d.faults) ==> ok && (w.was.Some? ==> Failed !in d.files)
    // Only the removals and the look at the binary may fail without an error; one failure alone leaves what was there.
    ensures ok ==> d.faults <= old(d.faults) + 3
    ensures !ok ==> d.faults > old(d.faults)
    ensures !ok && d.faults == old(d.faults) + 1 ==> At(d.files, Path) == At(old(d.files), Path)
  {
    var there, sure := d.Stat(Bak);
    if !there {
      return sure;
    }
    ok := ClearPath(d, w);
    if !ok {
      return;
    }
    ok := Mv(d, Bak, Path, w);
    if ok {
      Rm(d, Failed, w);
    } else {
      Reinstate(d, w);
    }
  }

  /** A rollback right after a swap undoes it, whatever failed on the way, exactly when there was a binary at first. */
  method SwapAndRollBack(d: BinDrive, body: Bytes, ghost w: Watch) returns (swapped: bool, faithful: bool, back: bool)
    requires Traced(d, w) && w.was == At(d.files, Path) && body in w.trusted
    modifies d
    ensures swapped && faithful && back ==> (At(d.files, Path) == At(old(d.files), Path) <==> Path in old(d.files))
    ensures swapped && faithful && w.was.Some? ==> Traced(d, w)
    ensures d.faults >= old(d.faults) && (d.faults == old(d.faults) ==> swapped && faithful && back)
  {
    back := false;
    ghost var written;
    swapped, faithful, written := SwapBackendBinary(d, body, w);
    if swapped {
      ghost var after := Watch(d.seen, w.trusted, At(d.files, Bak), w.base);
      back := RollbackBackendBinary(d, after);
      assert faithful && w.was.Some? ==> forall s :: Good(s, after) ==> Good(s, w);
    }
  }

  /* ----------------------------------------------------------- the runner */

  /** The i-th line of checksums.txt names the asset, and no line before it does. */
  ghost predicate FirstNaming(lines: seq<string>, i: nat, asset: string) {
    && i < |lines| && Names(lines[i], asset)
    && forall j :: 0 <= j < i ==> !Names(lines[j], asset)
  }

  predicate Names(line: string, asset: string) {
    var fields := Fields(line);
    |fields| >= 2 && fields[1] == asset
  }

  /** `sum` is what checksums.txt promises for the asset. */
  ghost predicate Promises(checks: string, asset: string, sum: string) {
    exists i: nat :: FirstNaming(Split(checks, '\n'), i, asset) && sum == ToLower(Fields(Split(checks, '\n')[i])[0])
  }

  method ChecksumForAsset(checks: string, asset: string) returns (sum: Option<string>)
    ensures sum.Some? ==> Promises(checks, asset, sum.value)
    ensures sum.None? ==> forall line :: line in Split(checks, '\n') ==> !Names(line, asset)
  {
    var lines := Split(checks, '\n');
    for i := 0 to |lines|
      invariant forall j :: 0 <= j < i ==> !Names(lines[j], asset)
    {
      var fields := Fields(lines[i]);
      if |fields| >= 2 && fields[1] == asset {
        assert FirstNaming(lines, i, asset);
        return Some(ToLower(fields[0]));
      }
    }
    return None;
  }

  /** What the world offers one run of the runner. */
  datatype Round = Round(
    readable: bool,         // the request can be read
    valid: bool,            // the request parses and names an allowed version and origin
    checks: Option<string>, // checksums.txt, if it could be downloaded
    signed: bool,           // its signature is good, or none is required
    body: Option<Bytes>,    // the binary, if it could be downloaded
    restart: Option<bool>,  // the restart command's success, if there is one
    killed: bool,           // the runner is cut off on the way
    request: Option<Bytes>) // a request left behind afterwards

  /** A body whose sum is the one a good checksums.txt promised. */
  ghost predicate Vetted(r: Round, asset: string, sha256: Bytes -> string, body: Bytes) {
    r.checks.Some? && r.signed && Promises(r.checks.value, asset, sha256(body))
  }

  /** Everything the runner needs is there and in order. */
  ghost predicate GoodOffer(r: Round, asset: string, sha256: Bytes -> string) {
    r.readable && r.valid && r.restart != Some(false) && r.body.Some? && Vetted(r, asset, sha256, r.body.value)
  }

  /** The restart works and the body is vetted: only such a round may take the request and record "ok". */
  ghost predicate Approved(r: Round, asset: string, sha256: Bytes -> string) {
    r.restart != Some(false) && r.body.Some? && Vetted(r, asset, sha256, r.body.value)
  }

  /** What a round is to put in place, if it may put anything in place for good. */
  ghost function Goal(r: Round, asset: string, sha256: Bytes -> string): (goal: Option<Bytes>)
    ensures goal.Some? <==> Approved(r, asset, sha256)
  {
    if Approved(r, asset, sha256) then r.body else None
  }

  datatype Result =
    | Idle          // no request
    | Refused       // the request, the download or its checks were no good
    | SwapFailed
    | RestartFailed(rolledBack: bool)
    | Unfinished    // updated, but the request or the status could not be written
    | Updated

  /** The request goes, and "ok" is recorded after that, only with the goal of an approved round in place. */
  ghost predicate Honest(s: BinState, start: BinState, goal: Option<Bytes>) {
    && (Pending in start && Pending !in s ==> goal.Some? && At(s, Path) == goal)
    && (At(s, Status) == Some(OK_STATUS) && At(start, Status) != Some(OK_STATUS) ==>
          Pending !in s && goal.Some? && At(s, Path) == goal)
  }

  /** Every state seen in this run is sound and honest. */
  ghost predicate RunTraced(
    d: BinDrive, before: set<BinState>, start: BinState, trusted: iset<Bytes>, goal: Option<Bytes>)
    reads d
  {
    && d.Valid() && before <= d.seen && Sound(d.files, trusted)
    && forall s :: s in d.seen ==> s in before || (Sound(s, trusted) && Honest(s, start, goal))
  }

  /** Write `<pending>.last`; only a good outcome can ever read as "ok". */
  method WriteStatus(
    d: BinDrive, good: bool,
    ghost before: set<BinState>, ghost start: BinState, ghost trusted: iset<Bytes>, ghost goal: Option<Bytes>)
    returns (ok: bool)
    requires RunTraced(d, before, start, trusted, goal)
    requires good ==> Pending !in d.files && goal.Some? && At(d.files, Path) == goal
    requires !good ==> SameRequest(d.files, start)
    requires Pending in start
    modifies d
    ensures RunTraced(d, before, start, trusted, goal)
    ensures forall n :: n != Status ==> At(d.files, n) == At(old(d.files), n)
    ensures ok ==> At(d.files, Status) == Some(if good then OK_STATUS else ERR_STATUS)
    ensures d.faults == if ok then old(d.faults) else old(d.faults) + 1
  {
    ghost var there := d.files;
    var line := if good then OK_STATUS else ERR_STATUS;
    ok := d.Write(Status, line);
    forall s | Writing(s, there, Status, line)
      ensures Sound(s, trusted) && Honest(s, start, goal)
    {
      assert At(s, Pending) == At(there, Pending) && At(s, Path) == At(there, Path);
      assert s[Status] != [] ==> s[Status][0] == line[0];
    }
  }

  /** Fetch and check: a body comes out only if its sum is the one promised by a good checksums.txt. */
  method Download(r: Round, asset: string, sha256: Bytes -> string) returns (body: Option<Bytes>)
    ensures body.Some? ==> r.valid && body == r.body && Vetted(r, asset, sha256, body.value)
    ensures body.None? ==> !r.valid || r.body.None? || !Vetted(r, asset, sha256, r.body.value)
  {
    if !r.valid || r.checks.None? || !r.signed {
      return None;
    }
    var want := ChecksumForAsset(r.checks.value, asset);
    if want.None? {
      NothingPromised(r.checks.value, asset);
      return None;
    }
    if r.body.None? {
      return None;
    }
    if sha256(r.body.value) != want.value {
      OnePromise(r.checks.value, asset, want.value);
      return None;
    }
    return r.body;
  }

  lemma NothingPromised(checks: string, asset: string)
    requires forall line :: line in Split(checks, '\n') ==> !Names(line, asset)
    ensures forall sum :: !Promises(checks, asset, sum)
  {
    var lines := Split(checks, '\n');
    forall i | 0 <= i < |lines| ensures !Names(lines[i], asset) {
      assert lines[i] in lines;
    }
  }

  /** checksums.txt promises one sum for an asset at most. */
  lemma OnePromise(checks: string, asset: string, want: string)
    requires Promises(checks, asset, want)
    ensures forall sum :: Promises(checks, asset, sum) ==> sum == want
  {
    var lines := Split(checks, '\n');
    var i: nat :| FirstNaming(lines, i, asset) && want == ToLower(Fields(lines[i])[0]);
    forall j: nat | FirstNaming(lines, j, asset) ensures i == j {
    }
  }

  /** Past the swap: restart, and on failure put the old binary back. */
  method Restart(d: BinDrive, r: Round, ghost w: Watch) returns (ok: bool, rolledBack: bool)
    requires Traced(d, w) && w.was == At(d.files, Bak)
    modifies d
    ensures Traced(d, w)
    ensures d.faults >= old(d.faults)
    ensures ok <==> r.restart != Some(false)
    ensures ok ==> d.files == old(d.files)
    ensures !ok && rolledBack ==> At(d.files, Path) == if w.was.Some? then w.was else At(old(d.files), Path)
    ensures !ok && d.faults == old(d.faults) ==> rolledBack
  {
    ok, rolledBack := r.restart != Some(false), true;
    if !ok {
      rolledBack := RollbackBackendBinary(d, w);
    }
  }

  /** Take the request away and record success. */
  method Finish(
    d: BinDrive,
    ghost before: set<BinState>, ghost start: BinState, ghost trusted: iset<Bytes>, ghost goal: Option<Bytes>)
    returns (ok: bool)
    requires RunTraced(d, before, start, trusted, goal) && SameRequest(d.files, start)
    requires goal.Some? && At(d.files, Path) == goal && Pending in start
    modifies d
    ensures RunTraced(d, before, start, trusted, goal)
    ensures forall n :: n != Status && n != Pending ==> At(d.files, n) == At(old(d.files), n)
    ensures ok ==> Pending !in d.files && At(d.files, Status) == Some(OK_STATUS)
    ensures ok <==> d.faults == old(d.faults)
    ensures d.faults >= old(d.faults)
  {
    ok := d.Remove(Pending);
    if ok {
      ok := WriteStatus(d, true, before, start, trusted, goal);
      assert At(d.files, Pending) == None;
    }
  }

  lemma WatchedRun(d: BinDrive, w: Watch, before: set<BinState>, start: BinState, goal: Option<Bytes>)
    requires Traced(d, w) && SameRequest(w.base, start) && Pending in start
    requires before <= w.before
    requires forall s :: s in w.before ==> s in before || (Sound(s, w.trusted) && Honest(s, start, goal))
    ensures RunTraced(d, before, start, w.trusted, goal)
  {
    forall s | s in d.seen ensures s in before || (Sound(s, w.trusted) && Honest(s, start, goal)) {
      if s !in w.before {
        assert SameRequest(s, w.base);
        assert At(s, Pending) == At(start, Pending);
      }
    }
  }

  /** "err" is on record. */
  ghost predicate SaysErr(s: BinState) {
    At(s, Status) == Some(ERR_STATUS)
  }

  /** Past the download: swap, restart, and record how that went. */
  method Apply(d: BinDrive, r: Round, body: Bytes, ghost trusted: iset<Bytes>, ghost goal: Option<Bytes>)
    returns (res: Result)
    requires d.Valid() && Sound(d.files, trusted) && Pending in d.files && body in trusted
    requires r.restart != Some(false) ==> goal == Some(body)
    modifies d
    ensures RunTraced(d, old(d.seen), old(d.files), trusted, goal)
    ensures d.faults >= old(d.faults)
    ensures res.SwapFailed? || res.RestartFailed? || res.Unfinished? || res.Updated?
    ensures Pending !in d.files ==>
              (res.Updated? || res.Unfinished?) && r.restart != Some(false) && At(d.files, Path) == Some(body)
    ensures res.Updated? ==> Pending !in d.files && At(d.files, Status) == Some(OK_STATUS)
    ensures r.restart != Some(false) && d.faults == old(d.faults) ==> res.Updated?
    ensures res.SwapFailed? ==> d.faults > old(d.faults)
    ensures res.SwapFailed? && d.faults == old(d.faults) + 1 ==>
              SaysErr(d.files) && (Path in old(d.files) ==> At(d.files, Path) == At(old(d.files), Path))
    ensures res.RestartFailed? ==> r.restart == Some(false)
    ensures res.RestartFailed? && d.faults <= old(d.faults) + (if res.rolledBack then 0 else 1) ==> SaysErr(d.files)
    ensures res.RestartFailed? && res.rolledBack && d.faults == old(d.faults) && Path in old(d.files) ==>
              At(d.files, Path) == At(old(d.files), Path)
  {
    ghost var start, before := d.files, d.seen;
    ghost var w := Watch(before, trusted, At(d.files, Path), start);
    var ok, _, _ := SwapBackendBinary(d, body, w);
    WatchedRun(d, w.(was := None), before, start, goal);
    if !ok {
      var _ := WriteStatus(d, false, before, start, trusted, goal);
      return SwapFailed;
    }
    w := Watch(d.seen, trusted, At(d.files, Bak), start);
    var rolledBack;
    ok, rolledBack := Restart(d, r, w);
    WatchedRun(d, w, before, start, goal);
    if !ok {
      var _ := WriteStatus(d, false, before, start, trusted, goal);
      return RestartFailed(rolledBack);
    }
    ok := Finish(d, before, start, trusted, goal);
    res := if ok then Updated else Unfinished;
  }

  /** One run of the runner. */
  method RunBackendUpdateRunner(
    d: BinDrive, r: Round, asset: string, sha256: Bytes -> string, ghost trusted: iset<Bytes>)
    returns (res: Result)
    requires d.Valid() && Sound(d.files, trusted)
    requires forall b :: Vetted(r, asset, sha256, b) ==> b in trusted
    modifies d
    // At every crash state too: the request goes, and "ok" is recorded, only in a round whose body is vetted and
    // whose restart works, with that body in place.
    ensures RunTraced(d, old(d.seen), old(d.files), trusted, Goal(r, asset, sha256))
    ensures d.faults >= old(d.faults)
    ensures res.Idle? <==> Pending !in old(d.files)
    ensures res.Idle? ==> d.files == old(d.files)
    ensures Pending in old(d.files) && Pending !in d.files ==>
              (res.Updated? || res.Unfinished?) && Approved(r, asset, sha256) && At(d.files, Path) == r.body
    ensures res.Updated? ==> Pending !in d.files && At(d.files, Status) == Some(OK_STATUS)
    // A failure is recorded as one, unless that write fails too; a request that cannot be read is not recorded.
    ensures Pending in old(d.files) && !r.readable ==> res.Refused? && d.files == old(d.files)
    ensures res.Refused? && r.readable && d.faults == old(d.faults) ==> SaysErr(d.files)
    ensures res.SwapFailed? ==> d.faults > old(d.faults)
    ensures res.SwapFailed? && d.faults == old(d.faults) + 1 ==>
              SaysErr(d.files) && (Path in old(d.files) ==> At(d.files, Path) == At(old(d.files), Path))
    ensures res.RestartFailed? ==> r.restart == Some(false)
    ensures res.RestartFailed? && d.faults <= old(d.faults) + (if res.rolledBack then 0 else 1) ==> SaysErr(d.files)
    // A refused request changes nothing but the status; a failed restart puts the old binary back.
    ensures res.Refused? ==> forall n :: n != Status ==> At(d.files, n) == At(old(d.files), n)
    ensures res.RestartFailed? && res.rolledBack && d.faults == old(d.faults) && Path in old(d.files) ==>
              At(d.files, Path) == At(old(d.files), Path)
    // Nothing failing, a good offer is taken, and only what is no good is refused.
    ensures res.Refused? && d.faults == old(d.faults) ==>
              !r.readable || !r.valid || r.body.None? || !Vetted(r, asset, sha256, r.body.value)
    ensures Pending in old(d.files) && d.faults == old(d.faults) && GoodOffer(r, asset, sha256) ==> res.Updated?
  {
    ghost var start := d.files;
    ghost var before := d.seen;
    ghost var goal := Goal(r, asset, sha256);
    if Pending !in d.files {
      return Idle;
    }
    if !r.readable {
      return Refused;
    }
    var body := Download(r, asset, sha256);
    if body.None? {
      var _ := WriteStatus(d, false, before, start, trusted, goal);
      return Refused;
    }
    res := Apply(d, r, body.value, trusted, goal);
  }

  /** What may be started after these rounds: what was there at first, and what was vetted in one of them. */
  ghost function Trusted(start: BinState, rounds: seq<Round>, asset: string, sha256: Bytes -> string): iset<Bytes> {
    iset b | At(start, Path) == Some(b) || At(start, Bak) == Some(b) || At(start, Failed) == Some(b)
             || exists r :: r in rounds && Vetted(r, asset, sha256, b)
  }

  /** One round as it went: the state the run found, every state seen in it, and the one it left or was cut off in. */
  datatype Ran = Ran(start: BinState, seen: set<BinState>, end: BinState)

  /** At every moment of the round the request is gone, or "ok" newly recorded, only with its approved body in place. */
  ghost predicate RanHonestly(ran: Ran, r: Round, asset: string, sha256: Bytes -> string) {
    && ran.start in ran.seen && ran.end in ran.seen
    && forall s :: s in ran.seen ==> s == ran.start || Honest(s, ran.start, Goal(r, asset, sha256))
  }

  /** Nothing failing and nobody killing it, a round with a request and a good offer ends with that offer in place. */
  ghost predicate RanWell(ran: Ran, r: Round, asset: string, sha256: Bytes -> string) {
    Pending in ran.start && GoodOffer(r, asset, sha256) && !r.killed ==>
      At(ran.end, Path) == r.body && Pending !in ran.end && SaysOk(ran.end)
  }

  /** Between two rounds only the request changes. */
  ghost predicate OnlyAsked(s: BinState, t: BinState) {
    forall n :: n != Pending ==> At(s, n) == At(t, n)
  }

  /** "ok" is on record. */
  ghost predicate SaysOk(s: BinState) {
    At(s, Status) == Some(OK_STATUS)
  }

  ghost predicate SomeApproved(rounds: seq<Round>, asset: string, sha256: Bytes -> string) {
    exists r :: r in rounds && Approved(r, asset, sha256)
  }

  /** A round: the run, which may be killed, and what is asked for afterwards. */
  method OneRound(d: BinDrive, r: Round, asset: string, sha256: Bytes -> string, ghost trusted: iset<Bytes>)
    returns (ghost ran: Ran)
    requires Sound(d.files, trusted)
    requires forall b :: Vetted(r, asset, sha256, b) ==> b in trusted
    modifies d
    ensures d.files in d.seen
    ensures ran.start == old(d.files) && RanHonestly(ran, r, asset, sha256) && OnlyAsked(ran.end, d.files)
    ensures ran.seen <= d.seen
    ensures forall s :: s in d.seen ==> Sound(s, trusted) && (s in ran.seen || OnlyAsked(ran.end, s))
    ensures d.faults >= old(d.faults)
    ensures d.faults == old(d.faults) ==>
              RanWell(ran, r, asset, sha256) && (r.request.Some? ==> At(d.files, Pending) == r.request)
    ensures r.request.None? ==> d.files == ran.end
  {
    d.Observe();
    var _ := RunBackendUpdateRunner(d, r, asset, sha256, trusted);
    if r.killed {
      d.CutOff();
    }
    ran := Ran(old(d.files), d.seen, d.files);
    if r.request.Some? {
      var _ := d.Write(Pending, r.request.value);
    }
  }

  lemma OkNeedsApproval(ran: Ran, r: Round, asset: string, sha256: Bytes -> string, s: BinState)
    requires RanHonestly(ran, r, asset, sha256) && SaysOk(s) && !SaysOk(ran.start)
    requires s in ran.seen || OnlyAsked(ran.end, s)
    ensures Approved(r, asset, sha256)
  {
    if s !in ran.seen {
      assert SaysOk(ran.end);
    }
  }

  /** The rounds as they went, from `start` to `now`: each honest, with nothing but requests coming in between. */
  ghost predicate Chained(
    runs: seq<Ran>, rounds: seq<Round>, asset: string, sha256: Bytes -> string, start: BinState, now: BinState)
  {
    && |runs| == |rounds|
    && (forall i :: 0 <= i < |runs| ==> RanHonestly(runs[i], rounds[i], asset, sha256))
    && (forall i :: 0 < i < |runs| ==> OnlyAsked(runs[i - 1].end, runs[i].start))
    && if runs == [] then now == start else runs[0].start == start && OnlyAsked(runs[|runs| - 1].end, now)
  }

  lemma ChainedNext(
    runs: seq<Ran>, rounds: seq<Round>, asset: string, sha256: Bytes -> string, start: BinState,
    ran: Ran, r: Round, now: BinState)
    requires Chained(runs, rounds, asset, sha256, start, ran.start)
    requires RanHonestly(ran, r, asset, sha256) && OnlyAsked(ran.end, now)
    ensures Chained(runs + [ran], rounds + [r], asset, sha256, start, now)
  {
  }

  /** Any number of runs, each of which may fail, be killed anywhere, or be asked for more. */
  method RunForever(d: BinDrive, rounds: seq<Round>, asset: string, sha256: Bytes -> string)
    returns (ghost history: set<BinState>, ghost runs: seq<Ran>)
    requires Path in d.files || Bak in d.files
    modifies d
    ensures d.files in history
    // At every moment there is a binary to start or to put back, and it is one of the first ones or a vetted one.
    ensures forall s :: s in history ==> Sound(s, Trusted(old(d.files), rounds, asset, sha256))
    // In every round, at every moment, the request goes and "ok" is recorded only with an approved body in place,
    // and between the rounds only requests come in;
    ensures Chained(runs, rounds, asset, sha256, old(d.files), d.files)
    // so nothing ever says "ok" that did not at first, unless some round was approved.
    ensures forall s :: s in history && SaysOk(s) ==> SaysOk(old(d.files)) || SomeApproved(rounds, asset, sha256)
    // Nothing failing, every good offer that is asked for and not cut off is taken.
    ensures d.faults >= old(d.faults)
    ensures d.faults == old(d.faults) ==> forall i :: 0 <= i < |runs| ==> RanWell(runs[i], rounds[i], asset, sha256)
  {
    ghost var trusted := Trusted(d.files, rounds, asset, sha256);
    history, runs := {d.files}, [];
    for i := 0 to |rounds|
      invariant d.files in history
      invariant forall s :: s in history ==> Sound(s, trusted)
      invariant forall s :: s in history && SaysOk(s) ==> SaysOk(old(d.files)) || SomeApproved(rounds, asset, sha256)
      invariant Chained(runs, rounds[..i], asset, sha256, old(d.files), d.files)
      invariant d.faults >= old(d.faults)
      invariant d.faults == old(d.faults) ==> forall j :: 0 <= j < i ==> RanWell(runs[j], rounds[j], asset, sha256)
    {
      var r := rounds[i];
      assert r in rounds;
      ghost var ran := OneRound(d, r, asset, sha256, trusted);
      forall s | s in d.seen && SaysOk(s) && !SaysOk(ran.start) ensures SomeApproved(rounds, asset, sha256) {
        OkNeedsApproval(ran, r, asset, sha256, s);
      }
      ChainedNext(runs, rounds[..i], asset, sha256, old(d.files), ran, r, d.files);
      assert rounds[..i + 1] == rounds[..i] + [r];
      runs := runs + [ran];
      history := history + d.seen;
    }
    assert rounds[..|rounds|] == rounds;
  }
}
