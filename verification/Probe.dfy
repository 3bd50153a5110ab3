/**
 The external readiness probe: a script run every minute that keeps its memory in one line of
 text, and sends a message when the backend goes down and when it comes back. A message that
 is not delivered ends the run before the state is written.
 */
module Probe {
  import opened Disk
  import opened Numbers
  import opened Text

  /* ---------------------------------------------------------- numbers as text */

  /** The value of digits in $((...)): a leading zero makes them octal, and then 8 and 9 are errors. */
  function Amount(s: string): Option<nat>
    requires s != [] && AllDigits(s)
  {
    if s[0] != '0' || |s| == 1 then Some(Value(s, false))
    else if '8' in s || '9' in s then None
    else Some(Value(s, true))
  }

  lemma AmountOfDecimal(n: nat)
    ensures Amount(Decimal(n)) == Some(n)
  {
    ValueOfDecimal(n);
  }

  /* ------------------------------------------------------------ the state file */

  datatype Status = Up | Down

  function Word(s: Status): string {
    if s.Up? then "ok" else "down"
  }

  /** The line that write_state prints. */
  function StateText(s: Status, failures: nat): string {
    Word(s) + [' '] + Decimal(failures) + ['\n']
  }

  predicate IsBlank(c: char) { c == ' ' || c == '\t' }

  function DropBlanks(s: string): (r: string)
    ensures |r| <= |s| && (r == [] || !IsBlank(r[0]))
  {
    if s != [] && IsBlank(s[0]) then DropBlanks(s[1..]) else s
  }

  function DropEndBlanks(s: string): (r: string)
    ensures r <= s && (r == [] || !IsBlank(r[|r| - 1]))
  {
    if s != [] && IsBlank(s[|s| - 1]) then DropEndBlanks(s[..|s| - 1]) else s
  }

  function BlankFree(s: string): (n: nat)
    ensures n <= |s|
    ensures forall i :: 0 <= i < n ==> !IsBlank(s[i])
    ensures n < |s| ==> IsBlank(s[n])
  {
    if s == [] || IsBlank(s[0]) then 0 else 1 + BlankFree(s[1..])
  }

  /** read -r a b: of the first line, the first word and the rest without blanks around it. */
  function ReadTwo(text: string): (string, string) {
    var line := match Cut(text, '\n') case None => text case Some((first, _)) => first;
    var s := DropEndBlanks(DropBlanks(line));
    var n := BlankFree(s);
    (s[..n], DropBlanks(s[n..]))
  }

  function StatusOf(word: string): Status {
    if word == "down" then Down else Up
  }

  /** The saved count as digits; anything else counts as none. */
  function CountOf(word: string): (s: string)
    ensures s != [] && AllDigits(s)
  {
    if word != [] && AllDigits(word) then word else "0"
  }

  lemma FirstWord(a: string, rest: string)
    requires forall i :: 0 <= i < |a| ==> !IsBlank(a[i])
    requires rest != [] && IsBlank(rest[0])
    ensures BlankFree(a + rest) == |a|
  {
    var line := a + rest;
    assert line[|a|] == rest[0];
    assert forall i :: 0 <= i < |a| ==> line[i] == a[i];
  }

  lemma NothingToDrop(s: string)
    requires s != [] && !IsBlank(s[0]) && !IsBlank(s[|s| - 1])
    ensures DropEndBlanks(DropBlanks(s)) == s
  {
  }

  lemma DropOne(sep: char, b: string)
    requires IsBlank(sep) && b != [] && !IsBlank(b[0])
    ensures DropBlanks([sep] + b) == b
  {
    assert ([sep] + b)[1..] == b;
  }

  lemma ReadTwoBack(a: string, sep: char, b: string)
    requires a != [] && b != [] && IsBlank(sep)
    requires forall i :: 0 <= i < |a| ==> !IsBlank(a[i]) && a[i] != '\n'
    requires forall i :: 0 <= i < |b| ==> !IsBlank(b[i]) && b[i] != '\n'
    ensures ReadTwo(a + [sep] + b + ['\n']) == (a, b)
  {
    var line := a + [sep] + b;
    CutAt(line, '\n', []);
    assert line + ['\n'] + [] == line + ['\n'];
    assert line == a + ([sep] + b);
    FirstWord(a, [sep] + b);
    assert line[0] == a[0] && line[|line| - 1] == b[|b| - 1];
    NothingToDrop(line);
    DropOne(sep, b);
    assert line[..|a|] == a && line[|a|..] == [sep] + b;
  }

  /** What a state file says: up for how long, down for how long; a count that arithmetic refuses is none. */
  datatype Base = Base(status: Status, count: Option<nat>)

  function BaseOf(state: Option<string>): Base {
    match state
    case None => Base(Up, Some(0))
    case Some(text) => Base(StatusOf(ReadTwo(text).0), Amount(CountOf(ReadTwo(text).1)))
  }

  /** What one run writes the next run reads. */
  lemma StateReadsBack(s: Status, failures: nat)
    ensures BaseOf(Some(StateText(s, failures))) == Base(s, Some(failures))
  {
    ReadTwoBack(Word(s), ' ', Decimal(failures));
    AmountOfDecimal(failures);
  }

  /** Whatever else the first line of the file says stands for up, and any other count for none. */
  lemma OtherStateReads(word: string, sep: char, count: string)
    requires word != [] && count != [] && (sep == ' ' || sep == '\t')
    requires forall i :: 0 <= i < |word| ==> !IsBlank(word[i]) && word[i] != '\n'
    requires forall i :: 0 <= i < |count| ==> !IsBlank(count[i]) && count[i] != '\n'
    ensures var read := BaseOf(Some(word + [sep] + count + ['\n']));
            && (word != "down" ==> read.status == Up)
            && (!AllDigits(count) ==> read.count == Some(0))
  {
    ReadTwoBack(word, sep, count);
    assert Decimal(0) == "0";
    AmountOfDecimal(0);
  }

  /** A count with a leading zero is octal to the shell. */
  lemma OctalCounts()
    ensures Amount("010") == Some(8) && Amount("08") == None && Amount("09") == None && Amount("0") == Some(0)
    ensures BaseOf(Some([])) == BaseOf(None)
  {
    assert "010"[..2] == "01" && "01"[..1] == "0" && "0"[..0] == [];
    assert Value("0", true) == 0 && Value("01", true) == 1 && Value("010", true) == 8;
    assert '8' in "08" && '9' in "09";
    assert Decimal(0) == "0";
    AmountOfDecimal(0);
  }

  /* ------------------------------------------------------------------ the runs */

  datatype Message = DOWN | RECOVERED

  /** One run: what it found, what it tried to send, whether that was reported delivered, whether it wrote the state. */
  datatype Run = Run(ready: bool, told: Option<Message>, acked: bool, wrote: bool)

  /**
   Runs that found the backend not ready, since the last that found it ready, of those that wrote the
   state, on top of the count the state file began with.
   */
  function Streak(b: Base, runs: seq<Run>): Option<nat> {
    if runs == [] then b.count
    else
      var r, before := runs[|runs| - 1], Streak(b, runs[..|runs| - 1]);
      if !r.wrote then before
      else if r.ready then Some(0)
      else if before.Some? then Some(before.value + 1) else None
  }

  /** Down after two such runs, up again after one that found the backend ready. */
  function Saved(b: Base, runs: seq<Run>): Status {
    if runs == [] then b.status
    else
      var r := runs[|runs| - 1];
      if !r.wrote then Saved(b, runs[..|runs| - 1])
      else if r.ready || Streak(b, runs).None? || Streak(b, runs).value < 2 then Up
      else Down
  }

  /** What the state file says after these runs. */
  function Now(b: Base, runs: seq<Run>): Base {
    Base(Saved(b, runs), Streak(b, runs))
  }

  /** One more run that found `ready` and wrote the state. */
  function After(now: Base, ready: bool): Base {
    if ready then Base(Up, Some(0))
    else if now.count.None? then Base(Up, None)
    else Base(if now.count.value >= 1 then Down else Up, Some(now.count.value + 1))
  }

  lemma NowNext(b: Base, runs: seq<Run>, r: Run)
    ensures Now(b, runs + [r]) == if r.wrote then After(Now(b, runs), r.ready) else Now(b, runs)
  {
    assert (runs + [r])[..|runs|] == runs;
  }

  /** What the runs found. */
  function Found(runs: seq<Run>): seq<bool> {
    if runs == [] then [] else Found(runs[..|runs| - 1]) + [runs[|runs| - 1].ready]
  }

  /** What the runs tried to send. */
  function Sent(runs: seq<Run>): seq<Message> {
    if runs == [] then []
    else Sent(runs[..|runs| - 1]) + if runs[|runs| - 1].told.Some? then [runs[|runs| - 1].told.value] else []
  }

  /** The message a run is to send, from the history alone. */
  function Due(b: Base, before: seq<Run>, ready: bool): Option<Message> {
    if ready then (if Saved(b, before) == Down then Some(RECOVERED) else None)
    else if Streak(b, before).Some? && Streak(b, before).value >= 1 && Saved(b, before) != Down then Some(DOWN)
    else None
  }

  /** The run can get to writing the state: it found the backend ready, or the count can be added to. */
  ghost predicate CanCount(b: Base, before: seq<Run>, ready: bool) {
    ready || Streak(b, before).Some?
  }

  /** The run did what the history calls for, and wrote nothing after a message or an addition that failed. */
  ghost predicate Follows(b: Base, before: seq<Run>, r: Run) {
    && r.told == Due(b, before, r.ready)
    && (r.wrote ==> CanCount(b, before, r.ready) && (r.told.Some? ==> r.acked))
  }

  ghost predicate Legal(b: Base, runs: seq<Run>) {
    forall i :: 0 <= i < |runs| ==> Follows(b, runs[..i], runs[i])
  }

  lemma LegalNext(b: Base, runs: seq<Run>, r: Run)
    requires Legal(b, runs) && Follows(b, runs, r)
    ensures Legal(b, runs + [r])
  {
    var next := runs + [r];
    forall i | 0 <= i < |next| ensures Follows(b, next[..i], next[i]) {
      assert next[..i] == if i < |runs| then runs[..i] else runs;
    }
  }

  lemma LegalPrefix(b: Base, runs: seq<Run>, n: nat)
    requires Legal(b, runs) && n <= |runs|
    ensures Legal(b, runs[..n])
  {
    forall i | 0 <= i < n ensures Follows(b, runs[..n][..i], runs[..n][i]) {
      assert runs[..n][..i] == runs[..i];
    }
  }

  /** Some run has written the state. */
  ghost predicate Wrote(runs: seq<Run>) {
    exists i :: 0 <= i < |runs| && runs[i].wrote
  }

  /** What was written is right, whatever was there before: down for two runs at least, up for one at most. */
  lemma {:induction false} SavedIsRight(b: Base, runs: seq<Run>)
    requires Legal(b, runs) && Wrote(runs)
    ensures Streak(b, runs).Some?
    ensures Saved(b, runs) == Down <==> Streak(b, runs).value >= 2
  {
    var n := |runs| - 1;
    assert Follows(b, runs[..n], runs[n]);
    if !runs[n].wrote {
      LegalPrefix(b, runs, n);
      SavedIsRight(b, runs[..n]);
    }
  }

  /** Only messages can fail: a run that can count writes its state unless its message did not go out. */
  ghost predicate WritesSucceed(b: Base, runs: seq<Run>) {
    forall i :: 0 <= i < |runs| ==> WriteSucceeds(b, runs[..i], runs[i])
  }

  ghost predicate WriteSucceeds(b: Base, before: seq<Run>, r: Run) {
    r.wrote <==> CanCount(b, before, r.ready) && (r.told.None? || r.acked)
  }

  /** Every message was reported delivered. */
  ghost predicate AllDelivered(runs: seq<Run>) {
    forall i :: 0 <= i < |runs| && runs[i].told.Some? ==> runs[i].acked
  }

  lemma OneMore(b: Base, before: seq<Run>, r: Run)
    ensures AllDelivered(before) && (r.told.Some? ==> r.acked) ==> AllDelivered(before + [r])
    ensures WritesSucceed(b, before) && WriteSucceeds(b, before, r) ==> WritesSucceed(b, before + [r])
  {
    var runs := before + [r];
    if WritesSucceed(b, before) && WriteSucceeds(b, before, r) {
      forall i | 0 <= i < |runs| ensures WriteSucceeds(b, runs[..i], runs[i]) {
        assert runs[..i] == if i < |before| then before[..i] else before;
      }
    }
  }

  /** The script, with whatever the state file holds at first. */
  class Script {
    var state: Option<string>
    var sent: seq<Message> // every message handed to curl, delivered or not
    var runs: seq<Run>     // what each run did
    ghost var base: Base
    ghost var unsent: nat    // messages that were not reported delivered
    ghost var unwritten: nat // states that could not be written

    constructor (state: Option<string>)
      ensures Valid() && runs == [] && base == BaseOf(state) && unsent == 0 && unwritten == 0
    {
      this.state, sent, runs, base := state, [], [], BaseOf(state);
      unsent, unwritten := 0, 0;
    }

    /** The state file says what the history says. */
    ghost predicate Valid()
      reads this
    {
      Legal(base, runs) && sent == Sent(runs) && Says(state)
    }

    ghost predicate Says(text: Option<string>)
      reads this`base, this`runs
    {
      forall t :: t == text ==> BaseOf(t) == Now(base, runs)
    }

    method Load() returns (status: Status, failures: string)
      requires Valid()
      ensures status == Saved(base, runs)
      ensures failures != [] && AllDigits(failures) && Amount(failures) == Streak(base, runs)
    {
      assert BaseOf(state) == Now(base, runs);
      status, failures := Up, "0";
      if state.Some? {
        var words := ReadTwo(state.value);
        status, failures := StatusOf(words.0), CountOf(words.1);
      }
    }

    /** curl to Telegram: a failure may be reported of a message that did arrive. */
    method Notify(m: Message) returns (acked: bool)
      modifies this`sent, this`unsent
      ensures sent == old(sent) + [m]
      ensures unsent == if acked then old(unsent) else old(unsent) + 1
    {
      sent := sent + [m];
      acked := *;
      unsent := if acked then unsent else unsent + 1;
    }

    /** The text goes to a temporary file, which is renamed into place. */
    method WriteState(status: Status, failures: nat) returns (ok: bool)
      modifies this`state, this`unwritten
      ensures state == if ok then Some(StateText(status, failures)) else old(state)
      ensures unwritten == if ok then old(unwritten) else old(unwritten) + 1
    {
      ok := *;
      if ok {
        state := Some(StateText(status, failures));
      } else {
        unwritten := unwritten + 1;
      }
    }

    /** As the next run will read it. */
    method SaveState(next: Base) returns (ok: bool)
      requires next.count.Some?
      modifies this`state, this`unwritten
      ensures BaseOf(state) == if ok then next else old(BaseOf(state))
      ensures unwritten == if ok then old(unwritten) else old(unwritten) + 1
    {
      StateReadsBack(next.status, next.count.value);
      ok := WriteState(next.status, next.count.value);
    }

    method Record(r: Run)
      requires Legal(base, runs) && Follows(base, runs, r)
      modifies this`runs
      ensures runs == old(runs) + [r] && Legal(base, runs)
      ensures Now(base, runs) == if r.wrote then After(Now(base, old(runs)), r.ready) else Now(base, old(runs))
      ensures Found(runs) == Found(old(runs)) + [r.ready]
      ensures Sent(runs) == Sent(old(runs)) + if r.told.Some? then [r.told.value] else []
    {
      LegalNext(base, runs, r);
      NowNext(base, runs, r);
      assert (runs + [r])[..|runs|] == runs;
      runs := runs + [r];
    }

    /** Send what is due; if that fails the run is over. */
    method Tell(ready: bool, m: Message) returns (acked: bool)
      requires Valid() && Due(base, runs, ready) == Some(m)
      modifies this`sent, this`runs, this`unsent
      ensures unsent == if acked then old(unsent) else old(unsent) + 1
      ensures acked ==> runs == old(runs) && sent == old(sent) + [m]
      ensures !acked ==> Valid() && runs == old(runs) + [Run(ready, Some(m), false, false)]
      ensures !acked ==> Found(runs) == Found(old(runs)) + [ready]
      ensures !acked ==> AsFarAsItGot(old(runs), Run(ready, Some(m), false, false), false, true)
    {
      acked := Notify(m);
      if !acked {
        Record(Run(ready, Some(m), false, false));
      }
    }

    /** Write the state; with that the run is over. */
    method WriteAndFinish(ready: bool, told: Option<Message>, status: Status, failures: nat) returns (ghost r: Run)
      requires Legal(base, runs) && told == Due(base, runs, ready) && Says(state)
      requires sent == Sent(runs) + if told.Some? then [told.value] else []
      requires CanCount(base, runs, ready) && Base(status, Some(failures)) == After(Now(base, runs), ready)
      modifies this`state, this`runs, this`unwritten
      ensures Valid()
      ensures runs == old(runs) + [r] && Found(runs) == Found(old(runs)) + [ready]
      ensures unwritten >= old(unwritten) && AsFarAsItGot(old(runs), r, true, unwritten == old(unwritten))
    {
      var ok := SaveState(Base(status, Some(failures)));
      r := Run(ready, told, told.Some?, ok);
      Record(Run(ready, told, told.Some?, ok));
    }

    /** A message counts as delivered unless sending failed, and the state is written unless that failed. */
    ghost predicate AsFarAsItGot(before: seq<Run>, r: Run, allSent: bool, allWritten: bool)
      reads this`base
    {
      && (allSent && r.told.Some? ==> r.acked)
      && (allWritten ==> WriteSucceeds(base, before, r))
    }

    /** The backend is ready. */
    method WhenReady(status: Status) returns (ghost r: Run)
      requires Valid() && status == Saved(base, runs)
      modifies this`state, this`sent, this`runs, this`unsent, this`unwritten
      ensures Valid()
      ensures runs == old(runs) + [r] && Found(runs) == Found(old(runs)) + [true]
      ensures unsent >= old(unsent) && unwritten >= old(unwritten)
      ensures AsFarAsItGot(old(runs), r, unsent == old(unsent), unwritten == old(unwritten))
    {
      var told: Option<Message> := None;
      if status == Down {
        told := Some(RECOVERED);
        var acked := Tell(true, RECOVERED);
        if !acked {
          r := Run(true, Some(RECOVERED), false, false);
          return;
        }
      }
      r := WriteAndFinish(true, told, Up, 0);
    }

    /** The count cannot be added to. */
    method GiveUp() returns (ghost r: Run)
      requires Valid() && Streak(base, runs) == None
      modifies this`runs
      ensures Valid()
      ensures runs == old(runs) + [r] && Found(runs) == Found(old(runs)) + [false]
      ensures AsFarAsItGot(old(runs), r, true, true)
    {
      r := Run(false, None, false, false);
      Record(Run(false, None, false, false));
    }

    /** It is not; `saved` are the digits of the count so far. */
    method WhenNotReady(status: Status, saved: string) returns (ghost r: Run)
      requires Valid() && status == Saved(base, runs)
      requires saved != [] && AllDigits(saved) && Amount(saved) == Streak(base, runs)
      modifies this`state, this`sent, this`runs, this`unsent, this`unwritten
      ensures Valid()
      ensures runs == old(runs) + [r] && Found(runs) == Found(old(runs)) + [false]
      ensures unsent >= old(unsent) && unwritten >= old(unwritten)
      ensures AsFarAsItGot(old(runs), r, unsent == old(unsent), unwritten == old(unwritten))
    {
      if Amount(saved).None? { // the addition is an error, and `set -e` ends the run
        r := GiveUp();
        return;
      }
      var failures := Amount(saved).value + 1;
      if failures < 2 {
        r := WriteAndFinish(false, None, Up, failures);
        return;
      }
      var told: Option<Message> := None;
      if status != Down {
        told := Some(DOWN);
        var acked := Tell(false, DOWN);
        if !acked {
          r := Run(false, Some(DOWN), false, false);
          return;
        }
      }
      r := WriteAndFinish(false, told, Down, failures);
    }

    /** One run of the script. */
    method RunOnce(ready: bool) returns (ghost r: Run)
      requires Valid()
      modifies this`state, this`sent, this`runs, this`unsent, this`unwritten
      ensures Valid()
      ensures runs == old(runs) + [r] && Found(runs) == Found(old(runs)) + [ready]
      ensures unsent >= old(unsent) && unwritten >= old(unwritten)
      ensures AsFarAsItGot(old(runs), r, unsent == old(unsent), unwritten == old(unwritten))
    {
      var status, saved := Load();
      if ready {
        r := WhenReady(status);
      } else {
        r := WhenNotReady(status, saved);
      }
    }

    /** All runs so far, since there were `u` messages that failed and `w` writes. */
    ghost predicate Through(u: nat, w: nat)
      reads this
    {
      && Valid() && unsent >= u && unwritten >= w
      && (unsent == u ==> AllDelivered(runs))
      && (unwritten == w ==> WritesSucceed(base, runs))
    }

    method RunNext(ready: bool, ghost u: nat, ghost w: nat)
      requires Through(u, w)
      modifies this`state, this`sent, this`runs, this`unsent, this`unwritten
      ensures Through(u, w) && Found(runs) == Found(old(runs)) + [ready]
    {
      ghost var r := RunOnce(ready);
      OneMore(base, old(runs), r);
    }

    method RunAll(found: seq<bool>)
      requires runs == [] && Through(unsent, unwritten)
      modifies this`state, this`sent, this`runs, this`unsent, this`unwritten
      ensures Through(old(unsent), old(unwritten)) && Found(runs) == found
    {
      for i := 0 to |found|
        invariant Through(old(unsent), old(unwritten)) && Found(runs) == found[..i]
      {
        RunNext(found[i], old(unsent), old(unwritten));
        assert found[..i + 1] == found[..i] + [found[i]];
      }
      assert found[..|found|] == found;
    }
  }

  /** The timer, whatever is in the state file at first: what the runs send depends on that and the history alone. */
  method RunEveryMinute(state: Option<string>, found: seq<bool>)
    returns (runs: seq<Run>, sent: seq<Message>, ghost unsent: nat, ghost unwritten: nat)
    ensures Legal(BaseOf(state), runs) && Found(runs) == found && sent == Sent(runs)
    // Without a failed message all were delivered, and without a failed write every run that can count wrote its state.
    ensures unsent == 0 ==> AllDelivered(runs)
    ensures unwritten == 0 ==> WritesSucceed(BaseOf(state), runs)
  {
    var script := new Script(state);
    script.RunAll(found);
    return script.runs, script.sent, script.unsent, script.unwritten;
  }

  /* ------------------------------------------------------- what the operator sees */

  lemma WritesPrefix(b: Base, runs: seq<Run>, n: nat)
    requires WritesSucceed(b, runs) && n <= |runs|
    ensures WritesSucceed(b, runs[..n])
  {
    forall i | 0 <= i < n ensures WriteSucceeds(b, runs[..n][..i], runs[..n][i]) {
      assert runs[..n][..i] == runs[..i];
    }
  }

  /** The messages reported delivered, in order. */
  function Delivered(runs: seq<Run>): seq<Message> {
    if runs == [] then []
    else
      var r := runs[|runs| - 1];
      Delivered(runs[..|runs| - 1]) + if r.told.Some? && r.acked then [r.told.value] else []
  }

  /** DOWN and RECOVERED in turn; after a file that says down it begins with RECOVERED. */
  ghost predicate Alternating(b: Base, messages: seq<Message>) {
    forall k :: 0 <= k < |messages| ==> messages[k] == if (k % 2 == 0) == (b.status == Up) then DOWN else RECOVERED
  }

  /** The file says down for no run at all, which the script never writes. */
  ghost predicate SaysDownForNothing(b: Base) {
    b == Base(Down, Some(0))
  }

  /** The messages strictly alternate, however many of them fail on the way. */
  lemma {:induction false} MessagesAlternate(b: Base, runs: seq<Run>)
    requires !SaysDownForNothing(b) && Legal(b, runs) && WritesSucceed(b, runs)
    ensures Alternating(b, Delivered(runs))
    ensures Saved(b, runs) == Down <==> (|Delivered(runs)| % 2 == 0) == (b.status == Down)
    ensures Saved(b, runs) == Down ==> Streak(b, runs) != Some(0)
  {
    if runs != [] {
      var n := |runs| - 1;
      LegalPrefix(b, runs, n);
      WritesPrefix(b, runs, n);
      MessagesAlternate(b, runs[..n]);
      assert Follows(b, runs[..n], runs[n]) && WriteSucceeds(b, runs[..n], runs[n]);
    }
  }

  lemma OneRun(b: Base, r: Run)
    ensures Streak(b, [r]) ==
            if !r.wrote then b.count else if r.ready then Some(0)
            else if b.count.Some? then Some(b.count.value + 1) else None
    ensures Saved(b, [r]) ==
            if !r.wrote then b.status
            else if r.ready || b.count.None? || b.count.value < 1 then Up else Down
  {
    assert [r][..0] == [];
    assert Streak(b, []) == b.count && Saved(b, []) == b.status;
  }

  lemma DeliveredNext(runs: seq<Run>, r: Run)
    ensures Delivered(runs + [r]) == Delivered(runs) + if r.told.Some? && r.acked then [r.told.value] else []
  {
    assert (runs + [r])[..|runs|] == runs;
  }

  /** From such a file two runs that find the backend not ready send DOWN, where RECOVERED was to come first. */
  lemma DownForNothing(b: Base) returns (runs: seq<Run>)
    requires SaysDownForNothing(b)
    ensures Legal(b, runs) && WritesSucceed(b, runs) && !Alternating(b, Delivered(runs))
  {
    var first, second := Run(false, None, false, true), Run(false, Some(DOWN), true, true);
    OneRun(b, first);
    assert Follows(b, [], first) && WriteSucceeds(b, [], first);
    assert Follows(b, [first], second) && WriteSucceeds(b, [first], second);
    LegalNext(b, [], first);
    LegalNext(b, [first], second);
    runs := [first] + [second];
    assert [] + [first] == [first] && runs[..0] == [] && runs[..1] == [first];
    DeliveredNext([], first);
    DeliveredNext([first], second);
    assert Delivered(runs)[0] == DOWN;
  }

  /** So all histories alternate, exactly if the file does not say that. */
  lemma AlternateIff(b: Base)
    ensures (forall runs :: Legal(b, runs) && WritesSucceed(b, runs) ==> Alternating(b, Delivered(runs))) <==>
              !SaysDownForNothing(b)
  {
    if SaysDownForNothing(b) {
      var runs := DownForNothing(b);
    } else {
      forall runs | Legal(b, runs) && WritesSucceed(b, runs) ensures Alternating(b, Delivered(runs)) {
        MessagesAlternate(b, runs);
      }
    }
  }

  /**
   DOWN is sent by a run that found the backend not ready, right after another that did; only the
   first run can take that one from the state file.
   */
  lemma DownAfterTwo(b: Base, runs: seq<Run>, i: nat)
    requires Legal(b, runs) && WritesSucceed(b, runs)
    requires i < |runs| && runs[i].told == Some(DOWN)
    ensures !runs[i].ready
    ensures if i == 0 then b.count.Some? && b.count.value >= 1 else !runs[i - 1].ready
  {
    assert Follows(b, runs[..i], runs[i]);
    if i > 0 {
      assert Follows(b, runs[..i - 1], runs[i - 1]) && WriteSucceeds(b, runs[..i - 1], runs[i - 1]);
      assert runs[..i][..i - 1] == runs[..i - 1];
    }
  }

  /** Two runs in a row that find it not ready leave it down, if they get through; one that finds it ready, up. */
  lemma OutageIsTold(b: Base, runs: seq<Run>)
    requires Legal(b, runs) && |runs| >= 1 && runs[|runs| - 1].wrote
    ensures |runs| >= 2 && !runs[|runs| - 1].ready && !runs[|runs| - 2].ready && runs[|runs| - 2].wrote ==>
              Saved(b, runs) == Down
    ensures runs[|runs| - 1].ready ==> Saved(b, runs) == Up
  {
    var n := |runs| - 1;
    assert Follows(b, runs[..n], runs[n]);
    if n >= 1 {
      assert runs[..n][..n - 1] == runs[..n - 1];
      assert Follows(b, runs[..n - 1], runs[n - 1]);
    }
  }
}
