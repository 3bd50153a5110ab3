/**
 Trust on first use for AWG Manager certificates: the first fingerprint seen for a host is
 written to a text file and every later one must equal it.
 */
module Pins {
  import opened Disk
  import opened Text

  type PinMap = map<string, string>

  const ABOUT := " AWG Manager TLS cert pins"
  const FORM := " (TOFU): <host> sha256:<hex>"
  const HEADER := ['#'] + ABOUT + FORM

  /* ---------------------------------------------------------- the text form */

  /** What one line of the file pins, if anything. */
  function ParseLine(raw: string): Option<(string, string)> {
    var line := TrimSpace(raw);
    if line == [] || line[0] == '#' then None
    else
      match Cut(line, ' ')
      case None => None
      case Some((host, fp)) => Some((ToLower(TrimSpace(host)), TrimSpace(fp)))
  }

  type Entry = Option<(string, string)>

  function Parsed(lines: seq<string>): (entries: seq<Entry>)
    ensures |entries| == |lines| && forall i :: 0 <= i < |lines| ==> entries[i] == ParseLine(lines[i])
  {
    seq(|lines|, i requires 0 <= i < |lines| => ParseLine(lines[i]))
  }

  /** What the entries pin together: a later one for a host replaces an earlier one. */
  function Collect(entries: seq<Entry>): PinMap {
    if entries == [] then map[]
    else Pin(Collect(entries[..|entries| - 1]), entries[|entries| - 1])
  }

  function Pin(pins: PinMap, entry: Entry): PinMap {
    match entry
    case None => pins
    case Some((host, fp)) => pins[host := fp]
  }

  function PinsOf(file: Option<string>): PinMap {
    match file
    case None => map[]
    case Some(text) => Collect(Parsed(Split(text, '\n')))
  }

  function PinLine(host: string, fp: string): string {
    host + " " + fp
  }

  function PinLines(hosts: seq<string>, pins: PinMap): seq<string>
    requires forall h :: h in hosts ==> h in pins
  {
    if hosts == [] then [] else [PinLine(hosts[0], pins[hosts[0]])] + PinLines(hosts[1..], pins)
  }

  function PinText(hosts: seq<string>, pins: PinMap): string
    requires forall h :: h in hosts ==> h in pins
  {
    Terminated([HEADER] + PinLines(hosts, pins), '\n')
  }

  /** `hosts` lists the keys of `pins`, each once. */
  ghost predicate Lists(hosts: seq<string>, pins: PinMap) {
    && (forall h :: h in hosts <==> h in pins)
    && forall i, j :: 0 <= i < j < |hosts| ==> hosts[i] != hosts[j]
  }

  /* ------------------------------------------------------- what can be pinned */

  ghost predicate StorableHost(host: string) {
    host != [] && Trimmed(host) && IsLower(host) && ' ' !in host && '\n' !in host && host[0] != '#'
  }

  ghost predicate StorablePrint(fp: string) {
    fp != [] && Trimmed(fp) && '\n' !in fp
  }

  ghost predicate AllStorable(pins: PinMap) {
    forall h :: h in pins ==> StorableHost(h) && StorablePrint(pins[h])
  }

  lemma TrimmedChars(s: string)
    ensures forall c :: c in TrimSpace(s) ==> c in s
  {
    TrimLeftChars(s);
    var l := TrimLeft(s);
    assert TrimRight(l) <= l;
    forall c | c in TrimRight(l) ensures c in s {
      var i :| 0 <= i < |TrimRight(l)| && TrimRight(l)[i] == c;
      assert l[i] == c;
    }
  }

  lemma {:induction false} TrimLeftChars(s: string)
    ensures forall c :: c in TrimLeft(s) ==> c in s
  {
    if s != [] && IsSpace(s[0]) {
      TrimLeftChars(s[1..]);
      assert forall c :: c in s[1..] ==> c in s;
    }
  }

  lemma {:induction false} SplitChars(s: string, c: char)
    ensures forall part :: part in Split(s, c) ==> c !in part
  {
    if s != [] {
      SplitChars(s[1..], c);
      var rest := Split(s[1..], c);
      assert rest[0] in rest;
      forall part | part in Split(s, c) ensures c !in part {
        if s[0] == c {
          assert part in [[]] + rest;
        } else {
          assert part == [s[0]] + rest[0] || part in rest[1..];
          assert forall p :: p in rest[1..] ==> p in rest;
        }
      }
    }
  }

  lemma LowerKeeps(s: string)
    ensures forall c :: c in ToLower(s) && !('a' <= c <= 'z') ==> c in s
    ensures Trimmed(s) ==> Trimmed(ToLower(s))
  {
    var t := ToLower(s);
    forall c | c in t && !('a' <= c <= 'z') ensures c in s {
      var i :| 0 <= i < |t| && t[i] == c;
      assert s[i] == c;
    }
  }

  /** A trimmed line cut at its first space has a word on each side. */
  lemma CutOfTrimmed(line: string, host: string, fp: string)
    requires line != [] && Trimmed(line) && Cut(line, ' ') == Some((host, fp))
    ensures host != [] && !IsSpace(host[0]) && host[0] == line[0]
    ensures fp != [] && !IsSpace(fp[|fp| - 1])
    ensures forall c :: c in host || c in fp ==> c in line
  {
    assert line == host + [' '] + fp;
    assert line[|host|] == ' ';
    assert line[|line| - 1] == fp[|fp| - 1];
    assert forall i :: 0 <= i < |host| ==> host[i] == line[i];
    assert forall i :: 0 <= i < |fp| ==> fp[i] == line[|host| + 1 + i];
  }

  lemma TrimKeepsFirst(s: string)
    requires s != [] && !IsSpace(s[0])
    ensures TrimSpace(s) != [] && TrimSpace(s)[0] == s[0]
  {
    TrimRightKeeps(s);
  }

  lemma {:induction false} TrimRightKeeps(s: string)
    requires s != [] && !IsSpace(s[0])
    ensures TrimRight(s) != [] && TrimRight(s)[0] == s[0]
  {
    if IsSpace(s[|s| - 1]) {
      TrimRightKeeps(s[..|s| - 1]);
    }
  }

  lemma TrimKeepsLast(s: string)
    requires s != [] && !IsSpace(s[|s| - 1])
    ensures TrimSpace(s) != []
  {
    TrimLeftKeeps(s);
  }

  lemma {:induction false} TrimLeftKeeps(s: string)
    requires s != [] && !IsSpace(s[|s| - 1])
    ensures TrimLeft(s) != [] && TrimLeft(s)[|TrimLeft(s)| - 1] == s[|s| - 1]
  {
    if IsSpace(s[0]) {
      TrimLeftKeeps(s[1..]);
    }
  }

  /** Whatever a line says, it can only pin a storable host to a storable fingerprint. */
  lemma ParsedLineIsStorable(raw: string)
    requires '\n' !in raw
    ensures ParseLine(raw).Some? ==> StorableHost(ParseLine(raw).value.0) && StorablePrint(ParseLine(raw).value.1)
  {
    var line := TrimSpace(raw);
    TrimIsTrimmed(raw);
    TrimmedChars(raw);
    if line != [] && line[0] != '#' && Cut(line, ' ').Some? {
      var (host, fp) := Cut(line, ' ').value;
      CutOfTrimmed(line, host, fp);
      TrimKeepsFirst(host);
      TrimIsTrimmed(host);
      TrimmedChars(host);
      LowerKeeps(TrimSpace(host));
      ToLowerIsLower(TrimSpace(host));
      TrimKeepsLast(fp);
      TrimIsTrimmed(fp);
      TrimmedChars(fp);
    }
  }

  ghost predicate StorableEntry(entry: Entry) {
    entry.Some? ==> StorableHost(entry.value.0) && StorablePrint(entry.value.1)
  }

  lemma {:induction false} CollectedIsStorable(entries: seq<Entry>)
    requires forall i :: 0 <= i < |entries| ==> StorableEntry(entries[i])
    ensures AllStorable(Collect(entries))
  {
    if entries != [] {
      CollectedIsStorable(entries[..|entries| - 1]);
      assert StorableEntry(entries[|entries| - 1]);
    }
  }

  /** Only storable pins are ever read from a file, whatever is in it. */
  lemma FilePinsAreStorable(file: Option<string>)
    ensures AllStorable(PinsOf(file))
  {
    if file.Some? {
      var lines := Split(file.value, '\n');
      SplitChars(file.value, '\n');
      forall i | 0 <= i < |lines| ensures StorableEntry(ParseLine(lines[i])) {
        assert lines[i] in lines;
        ParsedLineIsStorable(lines[i]);
      }
      CollectedIsStorable(Parsed(lines));
    }
  }

  lemma PinLineRoundTrip(host: string, fp: string)
    requires StorableHost(host) && StorablePrint(fp)
    ensures '\n' !in PinLine(host, fp)
    ensures ParseLine(PinLine(host, fp)) == Some((host, fp))
  {
    var line := PinLine(host, fp);
    assert line == host + [' '] + fp;
    assert line[0] == host[0] && line[|line| - 1] == fp[|fp| - 1];
    TrimOfTrimmed(line);
    CutAt(host, ' ', fp);
    TrimOfTrimmed(host);
    TrimOfTrimmed(fp);
    ToLowerOfLower(host);
  }

  /* ------------------------------------------------- what a written file says */

  function Value(pins: PinMap, v: string): Option<string> {
    if v in pins then Some(pins[v]) else None
  }

  /** The last word of the entries on a host. */
  function LastFor(entries: seq<Entry>, v: string): Option<string> {
    if entries == [] then None
    else
      match entries[|entries| - 1]
      case Some((h, fp)) => if h == v then Some(fp) else LastFor(entries[..|entries| - 1], v)
      case None => LastFor(entries[..|entries| - 1], v)
  }

  lemma {:induction false} CollectIsLast(entries: seq<Entry>, v: string)
    ensures Value(Collect(entries), v) == LastFor(entries, v)
  {
    if entries != [] {
      CollectIsLast(entries[..|entries| - 1], v);
    }
  }

  lemma {:induction false} LastOfSum(a: seq<Entry>, b: seq<Entry>, v: string)
    ensures LastFor(a + b, v) == if LastFor(b, v).Some? then LastFor(b, v) else LastFor(a, v)
  {
    if b == [] {
      assert a + b == a;
    } else {
      var n := |b| - 1;
      LastOfSum(a, b[..n], v);
      assert (a + b)[..|a + b| - 1] == a + b[..n];
    }
  }

  /** What the line of one host says, however many lines it is. */
  function LineEntries(host: string, fp: string): seq<Entry> {
    Parsed(Split(PinLine(host, fp), '\n'))
  }

  function AllEntries(hosts: seq<string>, pins: PinMap): seq<Entry>
    requires forall h :: h in hosts ==> h in pins
  {
    if hosts == [] then [] else LineEntries(hosts[0], pins[hosts[0]]) + AllEntries(hosts[1..], pins)
  }

  lemma ParsedSum(a: seq<string>, b: seq<string>)
    ensures Parsed(a + b) == Parsed(a) + Parsed(b)
  {
  }

  lemma {:induction false} ParsedLines(hosts: seq<string>, pins: PinMap)
    requires forall h :: h in hosts ==> h in pins
    ensures Parsed(SplitAll(PinLines(hosts, pins), '\n')) == AllEntries(hosts, pins)
  {
    if hosts != [] {
      var line := PinLine(hosts[0], pins[hosts[0]]);
      assert PinLines(hosts, pins)[1..] == PinLines(hosts[1..], pins);
      ParsedLines(hosts[1..], pins);
      ParsedSum(Split(line, '\n'), SplitAll(PinLines(hosts[1..], pins), '\n'));
    }
  }

  lemma HeaderIsIdle()
    ensures ParseLine(HEADER) == None && '\n' !in HEADER
  {
    assert '\n' !in ABOUT && '\n' !in FORM;
    TrimKeepsFirst(HEADER);
  }

  lemma IdleAround(entries: seq<Entry>, v: string)
    ensures LastFor([None] + (entries + [None]), v) == LastFor(entries, v)
  {
    LastOfSum([None], entries + [None], v);
    LastOfSum(entries, [None], v);
  }

  lemma PartsOfText(header: string, lines: seq<string>)
    requires '\n' !in header
    ensures Split(Terminated([header] + lines, '\n'), '\n') == [header] + (SplitAll(lines, '\n') + [[]])
  {
    SplitTerminated([header] + lines, '\n');
    SplitOne(header, '\n');
    assert ([header] + lines)[1..] == lines;
  }

  lemma ParsedText(header: string, parts: seq<string>)
    requires ParseLine(header) == None
    ensures Parsed([header] + (parts + [[]])) == [None] + (Parsed(parts) + [None])
  {
    EmptyLineIsIdle();
    ParsedSum([header], parts + [[]]);
    ParsedSum(parts, [[]]);
    ParsedOne(header);
    ParsedOne([]);
  }

  lemma EmptyLineIsIdle()
    ensures ParseLine([]) == None
  {
  }

  lemma ParsedOne(line: string)
    ensures Parsed([line]) == [ParseLine(line)]
  {
  }

  /** What is read from a written file is what the lines of the hosts say, in the order of the file. */
  lemma FileValue(hosts: seq<string>, pins: PinMap, v: string)
    requires forall h :: h in hosts ==> h in pins
    ensures Value(PinsOf(Some(PinText(hosts, pins))), v) == LastFor(AllEntries(hosts, pins), v)
  {
    var lines := PinLines(hosts, pins);
    HeaderIsIdle();
    PartsOfText(HEADER, lines);
    ParsedText(HEADER, SplitAll(lines, '\n'));
    ParsedLines(hosts, pins);
    CollectIsLast(Parsed(Split(PinText(hosts, pins), '\n')), v);
    IdleAround(AllEntries(hosts, pins), v);
  }

  lemma StorableLine(host: string, fp: string)
    requires StorableHost(host) && StorablePrint(fp)
    ensures LineEntries(host, fp) == [Some((host, fp))]
  {
    PinLineRoundTrip(host, fp);
    SplitOne(PinLine(host, fp), '\n');
  }

  /** Storable hosts each say their own pin. */
  lemma {:induction false} StorableValues(hosts: seq<string>, pins: PinMap, v: string)
    requires forall h :: h in hosts ==> h in pins && StorableHost(h) && StorablePrint(pins[h])
    ensures LastFor(AllEntries(hosts, pins), v) == if v in hosts then Some(pins[v]) else None
  {
    if hosts != [] {
      var h := hosts[0];
      StorableLine(h, pins[h]);
      StorableValues(hosts[1..], pins, v);
      LastOfSum(LineEntries(h, pins[h]), AllEntries(hosts[1..], pins), v);
      assert LastFor([Some((h, pins[h]))], v) == if v == h then Some(pins[h]) else None;
      assert v in hosts <==> v == h || v in hosts[1..];
    }
  }

  lemma SameValues(a: PinMap, b: PinMap)
    requires forall v :: Value(a, v) == Value(b, v)
    ensures a == b
  {
    assert forall v :: v in a <==> v in b by {
      forall v ensures v in a <==> v in b {
        assert Value(a, v) == Value(b, v);
      }
    }
    forall v | v in a ensures a[v] == b[v] {
      assert Value(a, v) == Value(b, v);
    }
  }

  /** What is saved is what is loaded, exactly when every pin is storable. */
  lemma LoadOfSave(hosts: seq<string>, pins: PinMap)
    requires Lists(hosts, pins)
    ensures PinsOf(Some(PinText(hosts, pins))) == pins <==> AllStorable(pins)
  {
    if AllStorable(pins) {
      forall v ensures Value(PinsOf(Some(PinText(hosts, pins))), v) == Value(pins, v) {
        FileValue(hosts, pins, v);
        StorableValues(hosts, pins, v);
      }
      SameValues(PinsOf(Some(PinText(hosts, pins))), pins);
    } else {
      FilePinsAreStorable(Some(PinText(hosts, pins)));
    }
  }

  /* --------------------------------------------- adding any host, storable or not */

  lemma MoreEntries(first: seq<Entry>, a: seq<Entry>, b: seq<Entry>)
    ensures first + (a + b) == (first + a) + b
  {
  }

  lemma {:induction false} EntriesOfSum(a: seq<string>, b: seq<string>, pins: PinMap)
    requires (forall h :: h in a ==> h in pins) && (forall h :: h in b ==> h in pins)
    requires forall h :: h in a + b ==> h in pins
    ensures AllEntries(a + b, pins) == AllEntries(a, pins) + AllEntries(b, pins)
  {
    if a == [] {
      assert a + b == b;
    } else {
      assert (a + b)[0] == a[0] && (a + b)[1..] == a[1..] + b;
      EntriesOfSum(a[1..], b, pins);
      MoreEntries(LineEntries(a[0], pins[a[0]]), AllEntries(a[1..], pins), AllEntries(b, pins));
    }
  }

  /**
   What is on file for `v` after another host was added: its own pin if its line comes later, else what the
   added line says of it, else what there was.
   */
  function AfterAdding(pins: PinMap, host: string, fp: string, v: string): Option<string> {
    if v in pins && Before(host, v) then Some(pins[v])
    else if LastFor(LineEntries(host, fp), v).Some? then LastFor(LineEntries(host, fp), v)
    else Value(pins, v)
  }

  lemma EntriesAround(hosts: seq<string>, i: nat, pins: PinMap)
    requires i < |hosts| && forall h :: h in hosts ==> h in pins
    ensures AllEntries(hosts, pins) ==
            AllEntries(hosts[..i], pins) + (LineEntries(hosts[i], pins[hosts[i]]) + AllEntries(hosts[i + 1..], pins))
  {
    var rest := hosts[i..];
    assert rest[0] == hosts[i] && rest[1..] == hosts[i + 1..];
    assert hosts == hosts[..i] + rest;
    EntriesOfSum(hosts[..i], rest, pins);
  }

  lemma LastOfThree(a: seq<Entry>, b: seq<Entry>, c: seq<Entry>, v: string)
    ensures LastFor(a + (b + c), v) ==
            if LastFor(c, v).Some? then LastFor(c, v) else if LastFor(b, v).Some? then LastFor(b, v) else LastFor(a, v)
  {
    LastOfSum(a, b + c, v);
    LastOfSum(b, c, v);
  }

  /** For every host that is added, storable or not, and every host that is asked for. */
  lemma SavedWithAny(hosts: seq<string>, pins: PinMap, host: string, fp: string, v: string)
    requires AllStorable(pins) && host !in pins && Lists(hosts, pins[host := fp]) && Sorted(hosts)
    ensures Value(PinsOf(Some(PinText(hosts, pins[host := fp]))), v) == AfterAdding(pins, host, fp, v)
  {
    var all := pins[host := fp];
    assert host in hosts;
    var i :| 0 <= i < |hosts| && hosts[i] == host;
    FileValue(hosts, all, v);
    EntriesAround(hosts, i, all);
    LastOfThree(AllEntries(hosts[..i], all), LineEntries(host, fp), AllEntries(hosts[i + 1..], all), v);
    OtherHosts(hosts, i, v);
    Unchanged(hosts[..i], pins, host, fp, v);
    Unchanged(hosts[i + 1..], pins, host, fp, v);
    CompareTextOrder(host, v);
  }

  lemma Unchanged(some: seq<string>, pins: PinMap, host: string, fp: string, v: string)
    requires AllStorable(pins) && forall h :: h in some ==> h in pins && h != host
    ensures LastFor(AllEntries(some, pins[host := fp]), v) == if v in some then Some(pins[v]) else None
  {
    StorableValues(some, pins[host := fp], v);
  }

  lemma OtherHosts(hosts: seq<string>, i: nat, v: string)
    requires Sorted(hosts) && i < |hosts|
    ensures hosts[i] !in hosts[..i] && hosts[i] !in hosts[i + 1..]
    ensures v in hosts[i + 1..] <==> v in hosts && Before(hosts[i], v)
    ensures v in hosts[..i] <==> v in hosts && Before(v, hosts[i])
  {
    forall j | 0 <= j < |hosts| && j != i ensures hosts[j] != hosts[i] {
      CompareTextOrder(hosts[i], hosts[j]);
      assert Before(hosts[j], hosts[i]) || Before(hosts[i], hosts[j]);
    }
    CompareTextOrder(hosts[i], v);
    if v in hosts {
      var k :| 0 <= k < |hosts| && hosts[k] == v;
      CompareTextOrder(hosts[k], hosts[i]);
    }
  }

  /** How a host comes to the store: trimmed and in lower case. */
  ghost predicate IsKeyForm(host: string) {
    host != [] && Trimmed(host) && IsLower(host)
  }

  lemma HostKeyForm(host: string)
    ensures HostKey(host) == [] || IsKeyForm(HostKey(host))
  {
    TrimIsTrimmed(host);
    LowerKeeps(TrimSpace(host));
    ToLowerIsLower(TrimSpace(host));
  }

  lemma CommentLine(host: string, fp: string)
    requires IsKeyForm(host) && '\n' !in host && host[0] == '#' && StorablePrint(fp)
    ensures LineEntries(host, fp) == [None]
  {
    var line := PinLine(host, fp);
    assert line[0] == '#' && line[|line| - 1] == fp[|fp| - 1];
    TrimOfTrimmed(line);
    SplitOne(line, '\n');
  }

  /** The host whose pin the line of `host` says, and the pin it says, if there is a space in `host`. */
  function Victim(host: string): string {
    match Cut(host, ' ') case None => [] case Some((x, _)) => TrimSpace(x)
  }

  function VictimPrint(host: string, fp: string): string {
    match Cut(host, ' ') case None => [] case Some((_, y)) => TrimSpace(y + " " + fp)
  }

  lemma LowerPrefix(a: string, b: string)
    requires a <= b && IsLower(b)
    ensures ToLower(a) == a
  {
    ToLowerOfLower(a);
  }

  lemma TrimOfPart(x: string, host: string)
    requires x < host && x != [] && !IsSpace(x[0]) && IsLower(host)
    ensures TrimSpace(x) < host && ToLower(TrimSpace(x)) == TrimSpace(x)
  {
    assert TrimLeft(x) == x && TrimSpace(x) <= x;
    LowerPrefix(TrimSpace(x), host);
  }

  /** A space makes the line of a host one of another host, which comes before it. */
  lemma SpaceLine(host: string, fp: string)
    requires IsKeyForm(host) && '\n' !in host && host[0] != '#' && ' ' in host && StorablePrint(fp)
    ensures LineEntries(host, fp) == [Some((Victim(host), VictimPrint(host, fp)))]
    ensures Victim(host) < host
  {
    SpaceLineSays(host, fp);
    SplitOne(PinLine(host, fp), '\n');
    ParsedOne(PinLine(host, fp));
  }

  lemma SpaceLineSays(host: string, fp: string)
    requires IsKeyForm(host) && '\n' !in host && host[0] != '#' && ' ' in host && StorablePrint(fp)
    ensures ParseLine(PinLine(host, fp)) == Some((Victim(host), VictimPrint(host, fp)))
    ensures Victim(host) < host && '\n' !in PinLine(host, fp)
  {
    var (x, y) := Cut(host, ' ').value;
    var line := PinLine(host, fp);
    assert line == x + [' '] + (y + " " + fp);
    assert x != [] && x[0] == host[0] && line[0] == host[0] && line[|line| - 1] == fp[|fp| - 1];
    TrimOfTrimmed(line);
    CutAt(x, ' ', y + " " + fp);
    TrimOfPart(x, host);
  }

  lemma OneEntry(e: Entry, v: string)
    ensures LastFor([e], v) == if e.Some? && e.value.0 == v then Some(e.value.1) else None
  {
  }

  /** A line that speaks of `host` alone, or of none, leaves every other host as it was. */
  lemma HarmlessEntry(pins: PinMap, host: string, fp: string, e: Entry, v: string)
    requires LineEntries(host, fp) == [e] && (e.Some? ==> e.value.0 == host) && v != host
    ensures AfterAdding(pins, host, fp, v) == Value(pins, v)
  {
    OneEntry(e, v);
  }

  /** One that speaks of an earlier host leaves the others, and that one has what it says. */
  lemma OtherEntry(pins: PinMap, host: string, fp: string, victim: string, said: string, v: string)
    requires LineEntries(host, fp) == [Some((victim, said))] && victim < host
    ensures AfterAdding(pins, host, fp, v) == if v == victim then Some(said) else Value(pins, v)
  {
    OneEntry(Some((victim, said)), v);
    PrefixIsBefore(victim, host);
    CompareTextOrder(victim, host);
  }

  /**
   Adding a host without a newline keeps every other host's pin, and pins no other, exactly when it has
   no space or is a comment, or the host its line speaks of has just that pin already.
   */
  lemma OthersKeptIff(pins: PinMap, host: string, fp: string)
    requires AllStorable(pins) && IsKeyForm(host) && '\n' !in host && StorablePrint(fp)
    ensures (forall v :: v != host ==> AfterAdding(pins, host, fp, v) == Value(pins, v)) <==>
              ' ' !in host || host[0] == '#' || Value(pins, Victim(host)) == Some(VictimPrint(host, fp))
  {
    if host[0] == '#' {
      CommentLine(host, fp);
      forall v | v != host ensures AfterAdding(pins, host, fp, v) == Value(pins, v) {
        HarmlessEntry(pins, host, fp, None, v);
      }
    } else if ' ' !in host {
      StorableLine(host, fp);
      forall v | v != host ensures AfterAdding(pins, host, fp, v) == Value(pins, v) {
        HarmlessEntry(pins, host, fp, Some((host, fp)), v);
      }
    } else {
      SpaceLine(host, fp);
      forall v ensures AfterAdding(pins, host, fp, v) ==
                       if v == Victim(host) then Some(VictimPrint(host, fp)) else Value(pins, v) {
        OtherEntry(pins, host, fp, Victim(host), VictimPrint(host, fp), v);
      }
    }
  }

  /** A host called like another one, with a space and more behind it, takes that one's pin. */
  lemma LosesItsPin(pins: PinMap, victim: string, more: string, fp: string)
    requires AllStorable(pins) && StorablePrint(fp) && StorableHost(victim)
    requires more != [] && Trimmed(more) && IsLower(more) && '\n' !in more
    ensures var host := victim + [' '] + more;
            IsKeyForm(host) && AfterAdding(pins, host, fp, victim) == Some(more + " " + fp)
  {
    var host := victim + [' '] + more;
    assert host[0] == victim[0] && host[|host| - 1] == more[|more| - 1] && host[|victim|] == ' ';
    CutAt(victim, ' ', more);
    TrimOfTrimmed(victim);
    var said := more + " " + fp;
    assert said[0] == more[0] && said[|said| - 1] == fp[|fp| - 1];
    TrimOfTrimmed(said);
    SpaceLine(host, fp);
    PrefixIsBefore(victim, host);
    CompareTextOrder(victim, host);
  }

  const VICTIM := "victim"

  lemma VictimIsStorable()
    ensures StorableHost(VICTIM)
  {
  }

  /** So it is for `victim x`. */
  lemma VictimLosesItsPin(pins: PinMap, fp: string)
    requires AllStorable(pins) && StorablePrint(fp)
    ensures AfterAdding(pins, VICTIM + [' '] + "x", fp, VICTIM) == Some("x" + " " + fp)
  {
    VictimIsStorable();
    LosesItsPin(pins, VICTIM, "x", fp);
  }

  /* ---------------------------------------------------------------- the store */

  /** One call of `verify`: the host as given, and the fingerprint of the certificate shown. */
  datatype Call = Call(host: string, fp: string)

  datatype Verdict = Accepted | Mismatch | EmptyHost | StoreError

  function HostKey(host: string): string {
    ToLower(TrimSpace(host))
  }

  /** The same letter, or the small and the capital form of one. */
  ghost predicate SameLetter(c: char, d: char) {
    c == d || ('A' <= c <= 'Z' && d as int == c as int + 32) || ('A' <= d <= 'Z' && c as int == d as int + 32)
  }

  /** Two hosts share a key exactly when they agree, but for capitals, once white space around them is off. */
  lemma SameKeyIff(a: string, b: string)
    ensures HostKey(a) == HostKey(b) <==>
              var x, y := TrimSpace(a), TrimSpace(b);
              |x| == |y| && forall i :: 0 <= i < |x| ==> SameLetter(x[i], y[i])
  {
    var x, y := TrimSpace(a), TrimSpace(b);
    assert forall i :: 0 <= i < |x| ==> HostKey(a)[i] == Lower(x[i]);
    assert forall i :: 0 <= i < |y| ==> HostKey(b)[i] == Lower(y[i]);
    assert forall c, d :: SameLetter(c, d) <==> Lower(c) == Lower(d);
  }

  lemma SortedIsDistinct(hosts: seq<string>)
    requires Sorted(hosts)
    ensures forall i, j :: 0 <= i < j < |hosts| ==> hosts[i] != hosts[j]
  {
    forall i, j | 0 <= i < j < |hosts| ensures hosts[i] != hosts[j] {
      CompareTextOrder(hosts[i], hosts[j]);
      assert Before(hosts[i], hosts[j]);
    }
  }

  lemma FirstPinSaved(hosts: seq<string>, before: PinMap, host: string, fp: string, file: Option<string>)
    requires AllStorable(before) && host !in before && StorablePrint(fp)
    requires Lists(hosts, before[host := fp]) && Sorted(hosts) && file == Some(PinText(hosts, before[host := fp]))
    ensures forall v :: Value(PinsOf(file), v) == AfterAdding(before, host, fp, v)
    ensures StorableHost(host) ==> PinsOf(file) == before[host := fp]
  {
    forall v ensures Value(PinsOf(file), v) == AfterAdding(before, host, fp, v) {
      SavedWithAny(hosts, before, host, fp, v);
    }
    LoadOfSave(hosts, before[host := fp]);
  }

  class AwgmPinStore {
    var file: Option<string>
    ghost var faults: nat // reads and writes that failed

    constructor (file: Option<string>)
      ensures this.file == file && faults == 0
    {
      this.file, faults := file, 0;
    }

    /** Parse the file; a read error is reported. */
    method Load() returns (pins: Option<PinMap>)
      modifies this`faults
      ensures pins.Some? ==> pins.value == PinsOf(file)
      ensures faults == if pins.Some? then old(faults) else old(faults) + 1
    {
      if * {
        faults := faults + 1;
        return None;
      }
      if file.None? {
        return Some(map[]);
      }
      var lines := Split(file.value, '\n');
      var out: PinMap := map[];
      for i := 0 to |lines|
        invariant out == Collect(Parsed(lines)[..i])
      {
        assert Parsed(lines)[..i + 1][..i] == Parsed(lines)[..i];
        match ParseLine(lines[i])
        case None =>
        case Some((host, fp)) => out := out[host := fp];
      }
      assert Parsed(lines)[..|lines|] == Parsed(lines);
      return Some(out);
    }

    /** Write all pins, hosts in order, through a temporary file: the old text or the whole new one is left. */
    method Save(pins: PinMap) returns (ok: bool)
      modifies this
      ensures !ok ==> file == old(file)
      ensures faults == if ok then old(faults) else old(faults) + 1
      ensures ok ==> exists hosts :: Lists(hosts, pins) && Sorted(hosts) && file == Some(PinText(hosts, pins))
    {
      var hosts := SortStrings(pins.Keys);
      SortedIsDistinct(hosts);
      assert Lists(hosts, pins);
      if * {
        faults := faults + 1;
        return false;
      }
      file := Some(PinText(hosts, pins));
      return true;
    }

    /** Accept a first fingerprint and remember it; later ones must be the same. */
    method Verify(call: Call) returns (verdict: Verdict)
      requires StorablePrint(call.fp)
      modifies this
      ensures verdict == EmptyHost <==> HostKey(call.host) == []
      ensures verdict != Accepted ==> file == old(file)
      ensures faults == if verdict == StoreError then old(faults) + 1 else old(faults)
      // A pinned host: nothing is written, and the pinned fingerprint decides.
      ensures HostKey(call.host) in PinsOf(old(file)) ==>
                && file == old(file)
                && (verdict == Accepted ==> call.fp == PinsOf(file)[HostKey(call.host)])
                && (verdict == Mismatch ==> call.fp != PinsOf(file)[HostKey(call.host)])
      // A new host is no mismatch; whatever it is called, what is on file after it is accepted is known for every host;
      ensures HostKey(call.host) !in PinsOf(old(file)) ==> verdict != Mismatch
      ensures HostKey(call.host) !in PinsOf(old(file)) && verdict == Accepted ==>
                forall v :: Value(PinsOf(file), v) == AfterAdding(PinsOf(old(file)), HostKey(call.host), call.fp, v)
      // if the file can hold it, that is its pin, and nothing else changes.
      ensures HostKey(call.host) !in PinsOf(old(file)) && StorableHost(HostKey(call.host)) && verdict == Accepted ==>
                PinsOf(file) == PinsOf(old(file))[HostKey(call.host) := call.fp]
    {
      var host := HostKey(call.host);
      FilePinsAreStorable(file);
      if host == [] {
        return EmptyHost;
      }
      var loaded := Load();
      if loaded.None? {
        return StoreError;
      }
      var pins := loaded.value;
      if host in pins {
        return if pins[host] == call.fp then Accepted else Mismatch;
      }
      ghost var before := pins;
      pins := pins[host := call.fp];
      var saved := Save(pins);
      if !saved {
        return StoreError;
      }
      ghost var hosts :| Lists(hosts, pins) && Sorted(hosts) && file == Some(PinText(hosts, pins));
      FirstPinSaved(hosts, before, host, call.fp, file);
      return Accepted;
    }
  }

  /** `fp` is the fingerprint on file for this host. */
  ghost predicate Pinned(host: string, fp: string, pins: PinMap) {
    host in pins && pins[host] == fp
  }

  /** Every pin of `a` is in `b`, unchanged. */
  ghost predicate Extends(b: PinMap, a: PinMap) {
    forall h :: h in a ==> h in b && b[h] == a[h]
  }

  /** The host's own line is all that its pin can touch. */
  ghost predicate KeepsToItself(host: string) {
    ' ' !in host && '\n' !in host
  }

  /** One process contacts one host: it starts from the file and leaves the file. */
  method Connect(file: Option<string>, call: Call)
    returns (accepted: bool, after: Option<string>, host: string, ghost faults: nat)
    requires KeepsToItself(HostKey(call.host)) && StorablePrint(call.fp)
    ensures host == HostKey(call.host)
    ensures Extends(PinsOf(after), PinsOf(file))
    ensures accepted && StorableHost(host) ==> Pinned(host, call.fp, PinsOf(after))
    ensures faults == 0 && StorableHost(host) && Pinned(host, call.fp, PinsOf(after)) ==> accepted
    ensures faults == 0 && StorableHost(host) ==> host in PinsOf(after)
    ensures forall h :: h in PinsOf(after) && h != host ==> h in PinsOf(file)
  {
    host := HostKey(call.host);
    HostKeyForm(call.host);
    FilePinsAreStorable(file);
    var store := new AwgmPinStore(file);
    var verdict := store.Verify(call);
    accepted, after, faults := verdict == Accepted, store.file, store.faults;
    if accepted && host !in PinsOf(file) {
      OthersKeptIff(PinsOf(file), host, call.fp);
      forall h | h != host ensures Value(PinsOf(after), h) == Value(PinsOf(file), h) {
        assert AfterAdding(PinsOf(file), host, call.fp, h) == Value(PinsOf(file), h);
      }
      assert forall h :: h in PinsOf(file) ==> Value(PinsOf(after), h) == Value(PinsOf(file), h);
      assert forall h :: h in PinsOf(after) && h != host ==> Value(PinsOf(after), h) == Value(PinsOf(file), h);
    }
  }

  /** Accepted calls have their fingerprint on file, if their host can be, and only hosts that were called are new. */
  ghost predicate Consistent(
    hosts: seq<string>, fps: seq<string>, accepted: seq<bool>, pins: PinMap, start: PinMap, clean: bool)
  {
    && |hosts| == |fps| == |accepted| && Extends(pins, start)
    && (clean ==> forall i :: 0 <= i < |hosts| && StorableHost(hosts[i]) ==>
          hosts[i] in pins && (accepted[i] <==> pins[hosts[i]] == fps[i]))
    && (forall i :: 0 <= i < |hosts| && accepted[i] && StorableHost(hosts[i]) ==> Pinned(hosts[i], fps[i], pins))
    && (forall h :: h in pins && h !in start ==> h in hosts)
  }

  lemma ConsistentStep(
    hosts: seq<string>, fps: seq<string>, accepted: seq<bool>, pins: PinMap, start: PinMap,
    host: string, fp: string, ok: bool, next: PinMap, clean: bool, still: bool)
    requires Consistent(hosts, fps, accepted, pins, start, clean)
    requires still ==> clean && (StorableHost(host) ==> host in next && (ok <==> next[host] == fp))
    requires Extends(next, pins) && (ok && StorableHost(host) ==> Pinned(host, fp, next))
    requires forall h :: h in next && h != host ==> h in pins
    ensures Consistent(hosts + [host], fps + [fp], accepted + [ok], next, start, still)
  {
  }

  /** These are the pins of the file, whatever is in it. */
  ghost predicate Holds(file: Option<string>, pins: PinMap) {
    forall f :: f == file ==> PinsOf(f) == pins
  }

  /** The calls came under these keys, with these fingerprints. */
  ghost predicate CalledAs(calls: seq<Call>, hosts: seq<string>, fps: seq<string>) {
    && |hosts| == |fps| == |calls|
    && forall i :: 0 <= i < |calls| ==> hosts[i] == HostKey(calls[i].host) && fps[i] == calls[i].fp
  }

  lemma CalledNext(calls: seq<Call>, hosts: seq<string>, fps: seq<string>, call: Call)
    requires CalledAs(calls, hosts, fps)
    ensures CalledAs(calls + [call], hosts + [HostKey(call.host)], fps + [call.fp])
  {
  }

  method ConnectNext(
    file: Option<string>, call: Call, ghost before: seq<Call>, ghost hosts: seq<string>, ghost fps: seq<string>,
    ghost accepted: seq<bool>, ghost pins: PinMap, ghost start: PinMap, ghost clean: bool)
    returns (ok: bool, after: Option<string>, host: string, ghost next: PinMap, ghost faults: nat)
    requires KeepsToItself(HostKey(call.host)) && StorablePrint(call.fp)
    requires Holds(file, pins) && Consistent(hosts, fps, accepted, pins, start, clean)
    requires CalledAs(before, hosts, fps)
    ensures Holds(after, next) && CalledAs(before + [call], hosts + [host], fps + [call.fp])
    ensures Consistent(hosts + [host], fps + [call.fp], accepted + [ok], next, start, clean && faults == 0)
  {
    ok, after, host, faults := Connect(file, call);
    next := PinsOf(after);
    CalledNext(before, hosts, fps, call);
    ConsistentStep(hosts, fps, accepted, pins, start, host, call.fp, ok, next, clean, clean && faults == 0);
  }

  lemma SameVerdicts(
    hosts: seq<string>, fps: seq<string>, accepted: seq<bool>, pins: PinMap, start: PinMap, clean: bool)
    requires Consistent(hosts, fps, accepted, pins, start, clean)
    ensures forall i, j :: 0 <= i < j < |hosts| && accepted[i] && accepted[j] && hosts[i] == hosts[j] ==>
              StorableHost(hosts[i]) ==> fps[i] == fps[j]
  {
  }

  /** Any number of connections, by one process or by many one after another: only the file lasts between them. */
  method Connections(file: Option<string>, calls: seq<Call>)
    returns (accepted: seq<bool>, after: Option<string>, hosts: seq<string>, fps: seq<string>, ghost faults: nat)
    requires forall i :: 0 <= i < |calls| ==> KeepsToItself(HostKey(calls[i].host)) && StorablePrint(calls[i].fp)
    ensures CalledAs(calls, hosts, fps) && |accepted| == |calls|
    // Every accepted certificate of a host that can be on file is; what was pinned before stays; only hosts
    // that were called are new. If no read and no write fails, just the certificates that are the pinned ones
    // are accepted.
    ensures Consistent(hosts, fps, accepted, PinsOf(after), PinsOf(file), faults == 0)
    // So no two accepted certificates for such a host differ.
    ensures forall i, j :: 0 <= i < j < |hosts| && accepted[i] && accepted[j] && hosts[i] == hosts[j] ==>
              StorableHost(hosts[i]) ==> fps[i] == fps[j]
  {
    accepted, after, hosts, fps, faults := [], file, [], [], 0;
    ghost var start, pins := PinsOf(file), PinsOf(file);
    for n := 0 to |calls|
      invariant CalledAs(calls[..n], hosts, fps) && Holds(after, pins)
      invariant Consistent(hosts, fps, accepted, pins, start, faults == 0)
    {
      assert calls[..n + 1] == calls[..n] + [calls[n]];
      var ok, next, host, found, more := ConnectNext(
        after, calls[n], calls[..n], hosts, fps, accepted, pins, start, faults == 0);
      accepted, after, hosts, fps := accepted + [ok], next, hosts + [host], fps + [calls[n].fp];
      pins, faults := found, faults + more;
    }
    SameVerdicts(hosts, fps, accepted, pins, start, faults == 0);
    assert PinsOf(after) == pins && calls[..|calls|] == calls;
  }

  /** A host the file cannot hold is never pinned, so no certificate for it is ever compared. */
  lemma UnstorableIsNeverPinned(file: Option<string>, host: string)
    requires !StorableHost(HostKey(host))
    ensures HostKey(host) !in PinsOf(file)
  {
    FilePinsAreStorable(file);
  }
}
