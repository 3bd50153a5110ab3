/**
 The wizard's known_hosts file: trust on first use, forgetting an alias, and the rotation
 of a changed host key as one transaction. The file is its lines, and whether the last one is
 ended: what is appended to a line that is not becomes part of it.
 */
module KnownHosts {
  import opened Disk
  import opened Numbers
  import opened Text

  /* ------------------------------------------------------------- host names */

  predicate IsDigits(s: string) {
    s != [] && AllDigits(s)
  }

  /** strings.LastIndexByte */
  function LastIndex(s: string, c: char): (i: int)
    ensures -1 <= i < |s| && (i >= 0 ==> s[i] == c)
    ensures forall j :: i < j < |s| ==> s[j] != c
  {
    if s == [] then -1 else if s[|s| - 1] == c then |s| - 1 else LastIndex(s[..|s| - 1], c)
  }

  /** The first of the names in a column. */
  function FirstOf(column: string): string {
    match Cut(column, ',') case None => column case Some((first, _)) => first
  }

  /** A name without its port. */
  function HostOf(key: string): string {
    var close := if key != [] && key[0] == '[' then Cut(key[1..], ']') else None;
    if close.Some? then close.value.0
    else
      var i := LastIndex(key, ':');
      if i >= 0 && IsDigits(key[i + 1..]) && |key| - i - 1 <= 5 then key[..i] else key
  }

  /** The host part of the first column of a line. */
  function StripPort(column: string): string {
    HostOf(FirstOf(column))
  }

  const NO_PORT := "22"

  /** The lookup key of an alias: a bare one gets the port that never reaches the network. */
  function NormaliseHostKey(s: string): string {
    if ':' in s then s else s + [':'] + NO_PORT
  }

  /** The name under which lines for `alias` are found again. */
  function LookupName(alias: string): string {
    StripPort(NormaliseHostKey(alias))
  }

  /** What can stand for a port: one to five digits. */
  ghost predicate IsPort(p: string) {
    1 <= |p| <= 5 && forall i :: 0 <= i < |p| ==> '0' <= p[i] <= '9'
  }

  lemma {:induction false} LastColon(h: string, p: string)
    requires ':' !in p
    ensures LastIndex(h + [':'] + p, ':') == |h|
  {
    var key := h + [':'] + p;
    if p == [] {
      assert key == h + [':'];
    } else {
      var n := |p| - 1;
      assert key[..|key| - 1] == h + [':'] + p[..n] && key[|key| - 1] == p[n];
      LastColon(h, p[..n]);
    }
  }

  lemma HostAt(key: string, h: string, p: string)
    requires LastIndex(key, ':') == |h| && |h| < |key| && key[0] != '[' && key[..|h|] == h && key[|h| + 1..] == p
    ensures HostOf(key) == if IsPort(p) then h else key
  {
  }

  lemma OneName(name: string)
    requires ',' !in name
    ensures FirstOf(name) == name
  {
  }

  /** What comes after the last colon is taken off exactly if it can be a port. */
  lemma HostOfPort(h: string, p: string)
    requires ':' !in p && ',' !in p && ',' !in h && (h == [] || h[0] != '[')
    ensures StripPort(h + [':'] + p) == if IsPort(p) then h else h + [':'] + p
    ensures LookupName(h + [':'] + p) == StripPort(h + [':'] + p)
  {
    var key := h + [':'] + p;
    LastColon(h, p);
    assert key[|h|] == ':' && key[0] == if h == [] then ':' else h[0];
    assert key[|h| + 1..] == p && key[..|h|] == h;
    HostAt(key, h, p);
    OneName(key);
  }

  /** So two bare IPv6 addresses that differ in a last group of digits have one name. */
  lemma AddressesShareName(h: string, p: string, q: string)
    requires IsPort(p) && IsPort(q) && ',' !in h && (h == [] || h[0] != '[')
    ensures LookupName(h + [':'] + p) == h == LookupName(h + [':'] + q)
  {
    PortIsPlain(p);
    PortIsPlain(q);
    HostOfPort(h, p);
    HostOfPort(h, q);
  }

  lemma PortIsPlain(p: string)
    requires IsPort(p)
    ensures ':' !in p && ',' !in p
  {
  }

  /** A nickname is its own lookup name: the port that is added comes off again. */
  lemma NicknameIsItsOwnName(nick: string)
    requires ':' !in nick && ',' !in nick && (nick == [] || nick[0] != '[')
    ensures LookupName(nick) == nick
  {
    NoPortIsDialled();
    HostOfPort(nick, NO_PORT);
  }

  lemma NoPortIsDialled()
    ensures IsPort(NO_PORT) && ':' !in NO_PORT && ',' !in NO_PORT
  {
  }

  lemma NicknameStaysItself(nick: string)
    requires ':' !in nick && ',' !in nick && (nick == [] || nick[0] != '[')
    ensures StripPort(nick) == nick
  {
    OneName(nick);
    NoColon(nick);
  }

  lemma NoColon(key: string)
    requires ':' !in key && (key == [] || key[0] != '[')
    ensures HostOf(key) == key
  {
    assert LastIndex(key, ':') == -1;
  }

  /** Of an address in brackets it is what is in the brackets; of several names, the first. */
  lemma HostInBrackets(h: string, rest: string)
    requires ']' !in h && ',' !in h && ',' !in rest
    ensures StripPort(['['] + h + [']'] + rest) == h
  {
    var key := ['['] + h + [']'] + rest;
    assert key[1..] == h + [']'] + rest;
    CutAt(h, ']', rest);
    OneName(key);
  }

  lemma FirstName(name: string, rest: string)
    requires ',' !in name
    ensures StripPort(name + [','] + rest) == StripPort(name)
  {
    CutAt(name, ',', rest);
    OneName(name);
  }

  /* ------------------------------------------------------------------ lines */

  /** What a line says: nothing (blank, comment), or a host with a key, which may be missing. */
  datatype Entry = Idle | Entry(host: string, key: Option<string>)

  /** A line as it stands in the file, with what it says. */
  datatype Line = Line(raw: string, entry: Entry)

  /** The text of a file; `ended`: the last line has its newline. */
  datatype Content = Content(lines: seq<Line>, ended: bool)

  type HostFile = Option<Content>

  function EntryOf(raw: string): Entry {
    EntryOfTrimmed(TrimSpace(raw))
  }

  function EntryOfTrimmed(trim: string): Entry {
    if trim == [] || trim[0] == '#' then Idle
    else
      var fields := Fields(trim);
      if fields == [] then Idle
      else Entry(StripPort(fields[0]), if |fields| < 3 then None else Some(fields[1] + " " + fields[2]))
  }

  function Read(raw: string): Line {
    Line(raw, EntryOf(raw))
  }

  function LinesOf(file: HostFile): seq<Line> {
    if file.Some? then file.value.lines else []
  }

  /** A file written line by line. */
  function Whole(lines: seq<Line>): Content {
    Content(lines, true)
  }

  /** The file with a line put behind its text. */
  function Appended(c: Content, line: Line, ended: bool): Content {
    if c.lines == [] || c.ended then Content(c.lines + [line], ended)
    else
      var n := |c.lines| - 1;
      Content(c.lines[..n] + [Read(c.lines[n].raw + line.raw)], ended)
  }

  /** What is appended begins a line, or stands behind white space. */
  ghost predicate AtLineStart(c: Content) {
    c.lines == [] || c.ended || TrimSpace(c.lines[|c.lines| - 1].raw) == []
  }

  /** What the lines say is what is read from them. */
  ghost predicate AsRead(lines: seq<Line>) {
    forall l :: l in lines ==> l == Read(l.raw)
  }

  /** Every entry has a key: otherwise the file as a whole is refused. */
  predicate AllParse(lines: seq<Line>) {
    forall l :: l in lines && l.entry.Entry? ==> l.entry.key.Some?
  }

  /** The line is an entry of this host. */
  predicate IsFor(line: Line, host: string) {
    line.entry.Entry? && line.entry.host == host
  }

  predicate IsKey(line: Line, host: string, key: string) {
    line.entry == Entry(host, Some(key))
  }

  /** The lines that are not the host's, in order. */
  function Kept(lines: seq<Line>, host: string): seq<Line> {
    if lines == [] then []
    else
      var kept := Kept(lines[..|lines| - 1], host);
      if IsFor(lines[|lines| - 1], host) then kept else kept + [lines[|lines| - 1]]
  }

  /** The host has this key on file. */
  ghost predicate Records(lines: seq<Line>, host: string, key: string) {
    exists l :: l in lines && IsKey(l, host, key)
  }

  ghost predicate HasEntry(lines: seq<Line>, host: string) {
    exists l :: l in lines && IsFor(l, host)
  }

  lemma {:induction false} KeptLines(lines: seq<Line>, host: string)
    ensures |Kept(lines, host)| <= |lines|
    ensures forall l :: l in Kept(lines, host) <==> l in lines && !IsFor(l, host)
  {
    if lines != [] {
      KeptLines(lines[..|lines| - 1], host);
      assert lines == lines[..|lines| - 1] + [lines[|lines| - 1]];
    }
  }

  lemma {:induction false} NothingKeptAway(lines: seq<Line>, host: string)
    requires |Kept(lines, host)| == |lines|
    ensures Kept(lines, host) == lines
  {
    if lines != [] {
      KeptLines(lines[..|lines| - 1], host);
      NothingKeptAway(lines[..|lines| - 1], host);
    }
  }

  /** Taking a host's lines away leaves it without an entry and every other host with exactly its own. */
  lemma ForgetsOnlyThat(lines: seq<Line>, host: string)
    ensures !HasEntry(Kept(lines, host), host)
    ensures forall other, key :: other != host ==>
              (Records(Kept(lines, host), other, key) <==> Records(lines, other, key))
  {
    KeptLines(lines, host);
  }

  lemma KeptEntries(lines: seq<Line>, host: string)
    ensures forall h :: HasEntry(Kept(lines, host), h) ==> h != host && HasEntry(lines, h)
  {
    KeptLines(lines, host);
  }

  /** With a new line put at the end the host has that one key; nobody else's keys change. */
  lemma RotatedKeys(lines: seq<Line>, host: string, line: Line, key: string)
    requires IsKey(line, host, key)
    ensures forall k :: Records(Kept(lines, host) + [line], host, k) <==> k == key
    ensures forall other, k :: other != host ==>
              (Records(Kept(lines, host) + [line], other, k) <==> Records(lines, other, k))
  {
    KeptLines(lines, host);
    var after := Kept(lines, host) + [line];
    assert line in after;
    assert forall l :: l in after <==> l == line || (l in lines && !IsFor(l, host));
  }

  /** The line written for a host and a key, and what it says. */
  function KeyLine(host: string, key: string): Line {
    Line(host + " " + key, Entry(host, Some(key)))
  }

  lemma ThreeFields(a: string, b: string, c: string)
    requires IsWord(a) && IsWord(b) && IsWord(c)
    ensures var raw := a + " " + (b + " " + c);
            raw[0] == a[0] && TrimSpace(raw) == raw && Fields(raw) == [a, b, c]
  {
    var raw := a + [' '] + (b + [' '] + c);
    assert raw[0] == a[0] && raw[|raw| - 1] == c[|c| - 1];
    TrimOfTrimmed(raw);
    FieldsHead(a, b + [' '] + c);
    FieldsHead(b, c);
    FieldsWord(c);
  }

  /** A nickname: one word that is neither a comment nor an address. */
  ghost predicate IsNickname(host: string) {
    IsWord(host) && ':' !in host && ',' !in host && host[0] != '[' && host[0] != '#'
  }

  /** Such a line, read from the file again, says just that. */
  lemma KeyLineReads(host: string, kind: string, blob: string)
    requires IsNickname(host) && IsWord(kind) && IsWord(blob)
    ensures Read(KeyLine(host, kind + " " + blob).raw) == KeyLine(host, kind + " " + blob)
  {
    ThreeFields(host, kind, blob);
    NicknameStaysItself(host);
  }

  /** A nickname, and a key as it is marshalled: its kind and its blob. */
  ghost predicate IsPlain(host: string, key: string) {
    IsNickname(host) && exists kind, blob :: IsWord(kind) && IsWord(blob) && key == kind + " " + blob
  }

  lemma PlainLineReads(host: string, key: string)
    requires IsPlain(host, key)
    ensures var line := KeyLine(host, key); Read(line.raw) == line
    ensures var raw := KeyLine(host, key).raw; raw != [] && !IsSpace(raw[|raw| - 1])
  {
    var kind, blob :| IsWord(kind) && IsWord(blob) && key == kind + " " + blob;
    KeyLineReads(host, kind, blob);
    var raw := KeyLine(host, key).raw;
    assert raw[|raw| - 1] == blob[|blob| - 1];
  }

  /* ------------------------------------------------- appending to a file as it is */

  /** The host has just this key, and every other host the keys it had. */
  ghost predicate ReadsBack(before: seq<Line>, after: seq<Line>, host: string, key: string) {
    && (forall k :: Records(after, host, k) <==> k == key)
    && (forall other, k :: other != host ==> (Records(after, other, k) <==> Records(before, other, k)))
  }

  /** A comment stays one, and an entry the same host's, whatever is put behind it. */
  lemma EntryGrows(r: string, l: string)
    requires r <= l && r != [] && !IsSpace(r[0])
    ensures EntryOfTrimmed(r).Idle? ==> EntryOfTrimmed(l).Idle?
    ensures EntryOfTrimmed(r).Entry? && EntryOfTrimmed(r).key.Some? ==>
              EntryOfTrimmed(l).Entry? && EntryOfTrimmed(l).host == EntryOfTrimmed(r).host
  {
    assert l[0] == r[0];
    if r[0] != '#' {
      NotBlankHasFields(r);
      if |Fields(r)| >= 3 {
        FirstWordStays(r, l);
      }
    }
  }

  /** Behind white space a text says what it says alone; behind a comment or an entry it adds no entry of its own. */
  lemma ReadBehind(u: string, w: string)
    requires w != [] && !IsSpace(w[|w| - 1])
    ensures TrimSpace(u) == [] ==> EntryOf(u + w) == EntryOf(w)
    ensures TrimSpace(u) != [] && EntryOf(u).Idle? ==> EntryOf(u + w).Idle?
    ensures EntryOf(u).Entry? && EntryOf(u).key.Some? ==>
              EntryOf(u + w).Entry? && EntryOf(u + w).host == EntryOf(u).host
  {
    TrimOfSum(u, w);
    if TrimSpace(u) != [] {
      var r, l := TrimSpace(u), TrimLeft(u) + w;
      assert r <= l && r[0] == TrimLeft(u)[0];
      EntryGrows(r, l);
    }
  }

  lemma NotBlankHasFields(r: string)
    requires r != [] && !IsSpace(r[0])
    ensures Fields(r) != []
  {
    assert TrimLeft(r) == r;
  }

  lemma LinesBehind(front: seq<Line>, last: Line, line: Line, host: string, key: string)
    requires IsKey(line, host, key) && last.entry.Idle? && !HasEntry(front + [last], host)
    ensures ReadsBack(front + [last], front + [line], host, key)
  {
    var before, after := front + [last], front + [line];
    assert forall l :: l in after <==> l in front || l == line;
    assert forall l :: l in before <==> l in front || l == last;
    assert line in after;
    forall k | Records(after, host, k) ensures k == key {
      var l :| l in after && IsKey(l, host, k);
      assert l in front ==> IsFor(l, host);
    }
  }

  lemma LinesAdded(lines: seq<Line>, line: Line, host: string, key: string)
    requires IsKey(line, host, key) && !HasEntry(lines, host)
    ensures ReadsBack(lines, lines + [line], host, key)
  {
    var after := lines + [line];
    assert forall l :: l in after <==> l in lines || l == line;
    assert line in after;
    forall k | Records(after, host, k) ensures k == key {
      var l :| l in after && IsKey(l, host, k);
      assert l in lines ==> IsFor(l, host);
    }
  }

  /** Put behind a comment or an entry that is not ended, the new host is not on file. */
  lemma LostBehind(front: seq<Line>, last: Line, w: string, host: string, key: string)
    requires last == Read(last.raw) && TrimSpace(last.raw) != [] && (last.entry.Entry? ==> last.entry.key.Some?)
    requires w != [] && !IsSpace(w[|w| - 1]) && !HasEntry(front + [last], host)
    ensures !HasEntry(front + [Read(last.raw + w)], host)
  {
    var glued := Read(last.raw + w);
    ReadBehind(last.raw, w);
    assert last in front + [last];
    forall l | l in front + [glued] ensures !IsFor(l, host) {
      if l in front {
        assert l in front + [last];
      } else {
        assert IsFor(last, host) <==> IsFor(glued, host);
      }
    }
  }

  /**
   A first key that is appended is read back, with every other host's keys kept, exactly when the
   text before it ends its last line or leaves it blank.
   */
  lemma AppendReadsBackIff(c: Content, host: string, key: string)
    requires AsRead(c.lines) && AllParse(c.lines) && !HasEntry(c.lines, host) && IsPlain(host, key)
    ensures ReadsBack(c.lines, Appended(c, KeyLine(host, key), true).lines, host, key) <==> AtLineStart(c)
  {
    var line := KeyLine(host, key);
    PlainLineReads(host, key);
    if c.lines == [] || c.ended {
      LinesAdded(c.lines, line, host, key);
    } else {
      var front, last := c.lines[..|c.lines| - 1], c.lines[|c.lines| - 1];
      LastLine(c.lines);
      AppendBehindIff(front, last, line, host, key);
    }
  }

  lemma LastLine(lines: seq<Line>)
    requires AsRead(lines) && AllParse(lines) && lines != []
    ensures var last := lines[|lines| - 1];
            && last == Read(last.raw) && (last.entry.Entry? ==> last.entry.key.Some?)
            && lines == lines[..|lines| - 1] + [last]
  {
    assert lines[|lines| - 1] in lines;
  }

  lemma AppendBehindIff(front: seq<Line>, last: Line, line: Line, host: string, key: string)
    requires last == Read(last.raw) && (last.entry.Entry? ==> last.entry.key.Some?) && !HasEntry(front + [last], host)
    requires line == Read(line.raw) && IsKey(line, host, key) && line.raw != [] && !IsSpace(line.raw[|line.raw| - 1])
    ensures ReadsBack(front + [last], front + [Read(last.raw + line.raw)], host, key) <==> TrimSpace(last.raw) == []
  {
    var glued := Read(last.raw + line.raw);
    if TrimSpace(last.raw) == [] {
      ReadBehind(last.raw, line.raw);
      LinesBehind(front, last, glued, host, key);
    } else {
      LostBehind(front, last, line.raw, host, key);
      NoEntryNoKey(front + [glued], host, key);
    }
  }

  lemma NoEntryNoKey(lines: seq<Line>, host: string, key: string)
    requires !HasEntry(lines, host)
    ensures !Records(lines, host, key)
  {
    forall l | l in lines ensures !IsKey(l, host, key) {
      assert !IsFor(l, host);
    }
  }

  lemma FourFields(a: string, b: string, c: string, rest: string)
    requires IsWord(a) && IsWord(b) && IsWord(c) && rest != [] && !IsSpace(rest[|rest| - 1])
    ensures var raw := a + [' '] + (b + [' '] + (c + [' '] + rest));
            && raw[0] == a[0] && TrimSpace(raw) == raw
            && |Fields(raw)| >= 3 && Fields(raw)[0] == a && Fields(raw)[1] == b && Fields(raw)[2] == c
  {
    var raw := a + [' '] + (b + [' '] + (c + [' '] + rest));
    assert raw[|raw| - 1] == rest[|rest| - 1] && raw[0] == a[0];
    TrimOfTrimmed(raw);
    FieldsHead(a, b + [' '] + (c + [' '] + rest));
    FieldsHead(b, c + [' '] + rest);
    FieldsHead(c, rest);
  }

  lemma GluedRaw(host: string, kind: string, blob: string, next: string, nextKey: string)
    ensures KeyLine(host, kind + " " + blob).raw + KeyLine(next, nextKey).raw ==
            host + [' '] + (kind + [' '] + ((blob + next) + [' '] + nextKey))
  {
  }

  /** Behind another host's line that is not ended, the new key is lost and the other's is another one. */
  lemma GluedKey(host: string, kind: string, blob: string, next: string, nextKey: string)
    requires IsNickname(host) && IsWord(kind) && IsWord(blob) && IsNickname(next) && next != host
    requires nextKey != [] && !IsSpace(nextKey[|nextKey| - 1])
    ensures var glued := Read(KeyLine(host, kind + " " + blob).raw + KeyLine(next, nextKey).raw);
            && glued.entry == Entry(host, Some(kind + " " + (blob + next)))
            && !IsFor(glued, next) && !IsKey(glued, host, kind + " " + blob)
  {
    GluedRaw(host, kind, blob, next, nextKey);
    FourFields(host, kind, blob + next, nextKey);
    NicknameStaysItself(host);
    assert |kind + " " + (blob + next)| != |kind + " " + blob|;
  }

  lemma OneLine(line: Line, next: Line)
    ensures Appended(Content([line], false), next, true).lines == [Read(line.raw + next.raw)]
  {
    assert [line][..0] == [];
  }

  lemma GluedFile(host: string, kind: string, blob: string, next: string, nextKey: string)
    requires IsNickname(host) && IsWord(kind) && IsWord(blob) && IsNickname(next) && next != host
    requires nextKey != [] && !IsSpace(nextKey[|nextKey| - 1])
    ensures var c := Content([KeyLine(host, kind + " " + blob)], false);
            var after := Appended(c, KeyLine(next, nextKey), true).lines;
            !HasEntry(after, next) && !Records(after, host, kind + " " + blob)
  {
    OneLine(KeyLine(host, kind + " " + blob), KeyLine(next, nextKey));
    GluedKey(host, kind, blob, next, nextKey);
  }

  const ALICE := "alice"
  const BOB := "bob"
  const KIND := "ssh-ed25519"

  lemma AliceAndBob()
    ensures IsNickname(ALICE) && IsNickname(BOB) && IsWord(KIND) && IsWord("AAAA") && ALICE != BOB
  {
  }

  /** So alice's key and bob's are both gone when bob's is put behind alice's line without its newline. */
  lemma GluedAlice()
    ensures var c := Content([KeyLine(ALICE, KIND + " " + "AAAA")], false);
            var after := Appended(c, KeyLine(BOB, KIND + " " + "BBBB"), true).lines;
            !HasEntry(after, BOB) && !Records(after, ALICE, KIND + " " + "AAAA")
  {
    AliceAndBob();
    GluedBehind(KIND + " " + "BBBB");
  }

  lemma GluedBehind(key: string)
    requires IsNickname(ALICE) && IsNickname(BOB) && IsWord(KIND) && IsWord("AAAA") && ALICE != BOB
    requires key != [] && !IsSpace(key[|key| - 1])
    ensures var c := Content([KeyLine(ALICE, KIND + " " + "AAAA")], false);
            var after := Appended(c, KeyLine(BOB, key), true).lines;
            !HasEntry(after, BOB) && !Records(after, ALICE, KIND + " " + "AAAA")
  {
    GluedFile(ALICE, KIND, "AAAA", BOB, key);
  }

  /* ---------------------------------------------------------------- the file */

  /** How a presented key compares with what is on file. */
  datatype Check = KeyOk | KeyChanged | SameKeyElsewhere(host: string) | CheckError

  /** The first key of a host was taken: the line stands behind the text, and is read back exactly if that ended. */
  ghost predicate FirstKeyTaken(before: HostFile, after: HostFile, host: string, key: string, searched: bool) {
    && before.Some? && after == Some(Appended(before.value, KeyLine(host, key), true))
    && (searched ==> forall h :: !Records(LinesOf(before), h, key))
    && (AsRead(LinesOf(before)) && IsPlain(host, key) ==>
          (ReadsBack(LinesOf(before), LinesOf(after), host, key) <==> AtLineStart(before.value)))
  }

  class KnownHostsFile {
    var file: HostFile
    ghost var seen: set<HostFile> // every content the file has had
    ghost var faults: nat         // reads and writes that failed

    constructor (file: HostFile)
      ensures this.file == file && seen == {file} && faults == 0
    {
      this.file := file;
      seen, faults := {file}, 0;
    }

    /** Put a new content in place of the file by one rename of a finished temporary file. */
    method Commit(content: Content) returns (ok: bool)
      modifies this
      ensures file == if ok then Some(content) else old(file)
      ensures seen == old(seen) + {file}
      ensures faults == if ok then old(faults) else old(faults) + 1
    {
      ok := true;
      if * {
        ok, faults := false, faults + 1;
      } else {
        file := Some(content);
      }
      seen := seen + {file};
    }

    /** Take the host's lines away and append `add`, in one write; without either there is nothing to write. */
    method Rewrite(host: string, add: Option<Line>) returns (ok: bool, removed: nat)
      modifies this
      ensures host == [] ==> !ok
      ensures ok ==> removed + |Kept(LinesOf(old(file)), host)| == |LinesOf(old(file))|
      ensures ok && (removed > 0 || add.Some?) ==>
                file == Some(Whole(Kept(LinesOf(old(file)), host) + if add.Some? then [add.value] else []))
      ensures ok && removed == 0 && add.None? ==> file == old(file)
      ensures !ok ==> file == old(file) && removed == 0
      ensures seen == old(seen) || seen == old(seen) + {file}
      ensures host != [] ==> faults == if ok then old(faults) else old(faults) + 1
      ensures faults >= old(faults)
    {
      ok, removed := false, 0;
      if host == [] {
        return;
      }
      if * { // open, read or scan error
        faults := faults + 1;
        return;
      }
      var lines := LinesOf(file);
      var kept: seq<Line> := [];
      for i := 0 to |lines|
        invariant kept == Kept(lines[..i], host)
        invariant removed + |kept| == i
      {
        assert lines[..i + 1][..i] == lines[..i];
        if IsFor(lines[i], host) {
          removed := removed + 1;
        } else {
          kept := kept + [lines[i]];
        }
      }
      assert lines[..|lines|] == lines;
      if removed == 0 && add.None? {
        return true, 0;
      }
      if add.Some? {
        kept := kept + [add.value];
      }
      ok := Commit(Whole(kept));
      if !ok {
        removed := 0;
      } else {
        assert add.None? ==> kept == Kept(lines, host) + [];
      }
    }

    /** Forget a host: its lines go, the others stay as they were and in order. */
    method ForgetKnownHost(host: string) returns (ok: bool, removed: nat)
      modifies this
      ensures ok ==> LinesOf(file) == Kept(LinesOf(old(file)), host)
      ensures ok ==> removed + |LinesOf(file)| == |LinesOf(old(file))|
      ensures !ok ==> file == old(file)
      ensures host != [] ==> faults == if ok then old(faults) else old(faults) + 1
    {
      ok, removed := Rewrite(host, None);
      if ok && removed == 0 {
        NothingKeptAway(LinesOf(file), host);
      }
    }

    /** Replace whatever keys the host had by this line. */
    method ReplaceHostKey(host: string, line: Line) returns (ok: bool)
      modifies this
      ensures file == if ok then Some(Whole(Kept(LinesOf(old(file)), host) + [line])) else old(file)
      ensures seen == old(seen) || seen == old(seen) + {file}
      ensures host != [] ==> faults == if ok then old(faults) else old(faults) + 1
      ensures faults >= old(faults)
    {
      var done, _ := Rewrite(host, Some(line));
      ok := done;
    }

    /** Is the host on file, and with this key? */
    method Find(host: string, key: string) returns (known: bool, same: bool)
      ensures known <==> HasEntry(LinesOf(file), host)
      ensures same <==> Records(LinesOf(file), host, key)
    {
      var lines := LinesOf(file);
      known, same := false, false;
      for i := 0 to |lines|
        invariant known <==> exists l :: l in lines[..i] && IsFor(l, host)
        invariant same <==> exists l :: l in lines[..i] && IsKey(l, host, key)
      {
        assert lines[..i + 1] == lines[..i] + [lines[i]];
        known := known || IsFor(lines[i], host);
        same := same || IsKey(lines[i], host, key);
      }
      assert lines[..|lines|] == lines;
    }

    /** The host of the first line that has this key; a file that cannot be read to its end counts as having none. */
    method AliasForFingerprint(key: string) returns (host: Option<string>, ghost searched: bool)
      modifies this`faults
      ensures faults == if searched then old(faults) else old(faults) + 1
      ensures host.Some? ==> Records(LinesOf(file), host.value, key)
      ensures host.None? && searched ==> forall h :: !Records(LinesOf(file), h, key)
    {
      var lines := LinesOf(file);
      searched := true;
      for i := 0 to |lines|
        invariant searched && faults == old(faults)
        invariant forall l :: l in lines[..i] ==> !(l.entry.Entry? && l.entry.key == Some(key))
      {
        if * { // a read error, or a line that is too long
          faults := faults + 1;
          return None, false;
        }
        if lines[i].entry.Entry? && lines[i].entry.key == Some(key) {
          assert IsKey(lines[i], lines[i].entry.host, key);
          return Some(lines[i].entry.host), true;
        }
        assert lines[..i + 1] == lines[..i] + [lines[i]];
      }
      assert lines[..|lines|] == lines;
      return None, true;
    }

    /** Compare a presented key with those on file; a first one is appended, unless it is another host's. */
    method CheckOrAppend(host: string, key: string) returns (check: Check, ghost searched: bool)
      modifies this
      // A known host: nothing is written, and the key has to be one of its own.
      ensures HasEntry(LinesOf(old(file)), host) ==>
                && file == old(file) && seen == old(seen)
                && (check == KeyOk ==> Records(LinesOf(file), host, key))
                && (check == KeyChanged ==> !Records(LinesOf(file), host, key))
                && !check.SameKeyElsewhere?
      // An unknown one: a key that some host is found to have is refused; any other is put behind the text.
      ensures !HasEntry(LinesOf(old(file)), host) ==>
                check != KeyChanged && (check == KeyOk ==> FirstKeyTaken(old(file), file, host, key, searched))
      ensures check.SameKeyElsewhere? ==> file == old(file) && Records(LinesOf(file), check.host, key)
      ensures check == KeyOk || check == KeyChanged ==> file.Some? && AllParse(LinesOf(old(file)))
      // Nothing failing, every file that parses gives an answer.
      ensures faults >= old(faults) && (!searched ==> faults > old(faults))
      ensures old(file).Some? && AllParse(LinesOf(old(file))) && faults == old(faults) ==> check != CheckError
    {
      searched := true;
      if file.None? || !AllParse(file.value.lines) {
        check := CheckError;
        return;
      }
      if * { // the file cannot be read, or a key in it cannot be decoded
        check, faults := CheckError, faults + 1;
        return;
      }
      var known, same := Find(host, key);
      if known {
        check := if same then KeyOk else KeyChanged;
        return;
      }
      var other;
      other, searched := AliasForFingerprint(key);
      if other.Some? {
        check := SameKeyElsewhere(other.value);
        return;
      }
      if IsPlain(host, key) && AsRead(file.value.lines) {
        AppendReadsBackIff(file.value, host, key);
      }
      check := Append(KeyLine(host, key));
    }

    /** Put a line behind the text of the file, however that ends; a write that breaks off may leave part of it. */
    method Append(line: Line) returns (check: Check)
      requires file.Some?
      modifies this
      ensures check == KeyOk || check == CheckError
      ensures check == KeyOk ==> file == Some(Appended(old(file).value, line, true))
      ensures check == CheckError ==>
                || file == old(file)
                || exists part :: 0 < part <= |line.raw| &&
                     file == Some(Appended(old(file).value, Read(line.raw[..part]), false))
      ensures seen == old(seen) + {file}
      ensures faults == if check == KeyOk then old(faults) else old(faults) + 1
    {
      check := KeyOk;
      if * {
        file := Some(Appended(file.value, line, true));
      } else {
        check, faults := CheckError, faults + 1;
        var part: nat :| part <= |line.raw|;
        if part > 0 {
          file := Some(Appended(file.value, Read(line.raw[..part]), false));
        }
      }
      seen := seen + {file};
    }

    method Snapshot() returns (snap: HostFile)
      modifies this`faults
      ensures snap.Some? ==> file == snap
      ensures faults >= old(faults) && (faults == old(faults) ==> snap == file)
    {
      snap := file;
      if * {
        snap, faults := None, faults + 1;
      }
    }

    method Restore(snap: Content) returns (ok: bool)
      modifies this
      ensures file == if ok then Some(snap) else old(file)
      ensures seen == old(seen) + {file}
      ensures faults == if ok then old(faults) else old(faults) + 1
    {
      ok := Commit(snap);
    }
  }

  /* ------------------------------------------------------- forgetting everything */

  /** Every named host on file, each once, in order. */
  method ListKnownHostAliases(lines: seq<Line>) returns (aliases: seq<string>)
    ensures Sorted(aliases)
    ensures forall h :: h in aliases <==> h != [] && HasEntry(lines, h)
  {
    var found: set<string> := {};
    for i := 0 to |lines|
      invariant forall h :: h in found <==> h != [] && HasEntry(lines[..i], h)
    {
      assert lines[..i + 1] == lines[..i] + [lines[i]];
      if lines[i].entry.Entry? && lines[i].entry.host != [] {
        assert IsFor(lines[i], lines[i].entry.host);
        found := found + {lines[i].entry.host};
      }
    }
    assert lines[..|lines|] == lines;
    aliases := SortStrings(found);
  }

  /** A line that no alias of the list stands for: blank, a comment, an entry with an empty name. */
  predicate IsNameless(l: Line) {
    !(l.entry.Entry? && l.entry.host != [])
  }

  function Nameless(lines: seq<Line>): seq<Line> {
    if lines == [] then []
    else
      var rest := Nameless(lines[..|lines| - 1]);
      if IsNameless(lines[|lines| - 1]) then rest + [lines[|lines| - 1]] else rest
  }

  lemma {:induction false} NamelessOfKept(lines: seq<Line>, host: string)
    requires host != []
    ensures Nameless(Kept(lines, host)) == Nameless(lines)
  {
    if lines != [] {
      NamelessOfKept(lines[..|lines| - 1], host);
      var kept := Kept(lines[..|lines| - 1], host);
      assert (kept + [lines[|lines| - 1]])[..|kept|] == kept;
    }
  }

  lemma {:induction false} NoHostIsNameless(lines: seq<Line>)
    requires forall i :: 0 <= i < |lines| ==> IsNameless(lines[i])
    ensures Nameless(lines) == lines
  {
    if lines != [] {
      NoHostIsNameless(lines[..|lines| - 1]);
      assert lines == lines[..|lines| - 1] + [lines[|lines| - 1]];
    }
  }

  /** No other named host is on file. */
  ghost predicate OnlyThese(lines: seq<Line>, names: seq<string>) {
    forall h :: h != [] && HasEntry(lines, h) ==> h in names
  }

  lemma OneLess(lines: seq<Line>, names: seq<string>, i: nat)
    requires i < |names| && OnlyThese(lines, names[i..])
    ensures OnlyThese(Kept(lines, names[i]), names[i + 1..])
  {
    KeptEntries(lines, names[i]);
    assert names[i..] == [names[i]] + names[i + 1..];
  }

  lemma NoneLeft(lines: seq<Line>)
    requires OnlyThese(lines, [])
    ensures Nameless(lines) == lines
  {
    forall i | 0 <= i < |lines| ensures IsNameless(lines[i]) {
      var l := lines[i];
      if !IsNameless(l) {
        assert l in lines && IsFor(l, l.entry.host);
        assert HasEntry(lines, l.entry.host);
        assert false;
      }
    }
    NoHostIsNameless(lines);
  }

  /** Forget every alias on the list: what is left are the nameless lines, in order. */
  method ForgetAll(kh: KnownHostsFile) returns (ok: bool)
    modifies kh
    ensures ok ==> LinesOf(kh.file) == Nameless(LinesOf(old(kh.file)))
    ensures Nameless(LinesOf(kh.file)) == Nameless(LinesOf(old(kh.file)))
    ensures kh.faults == old(kh.faults) ==> ok
  {
    var aliases := ListKnownHostAliases(LinesOf(kh.file));
    assert aliases[0..] == aliases;
    for i := 0 to |aliases|
      invariant Nameless(LinesOf(kh.file)) == Nameless(LinesOf(old(kh.file)))
      invariant OnlyThese(LinesOf(kh.file), aliases[i..])
      invariant kh.faults >= old(kh.faults)
    {
      ghost var lines := LinesOf(kh.file);
      assert aliases[i] in aliases;
      var done, _ := kh.ForgetKnownHost(aliases[i]);
      ok := done;
      if !ok {
        return;
      }
      NamelessOfKept(lines, aliases[i]);
      OneLess(lines, aliases, i);
    }
    NoneLeft(LinesOf(kh.file));
    ok := true;
  }

  /* --------------------------------------------------------------- rotation */

  /** What happens around one managed connection. */
  datatype World = World(
    online: bool,             // the router can be connected to
    login: bool,              // and accepts the password under a key that is good
    firstKey: string,         // the key the router presents at first
    captured: Option<string>, // the key seen by the probe that sends no password
    confirmed: bool,          // the operator entered the new fingerprint
    secondKey: string,        // the key presented at the checked connection
    reachable: bool,          // the checked connection comes up
    wantMac: Option<string>,  // the pinned MAC, normalised, if one is pinned
    mac: string,              // the MAC read from the router; empty: unreadable
    otherAgent: bool,         // the router hosts an agent of another name
    targetConfirmed: bool)

  datatype Managed =
    | Connected         // under a key that was on file
    | Rotated           // under the new key
    | Refused           // nothing was replaced
    | RolledBack
    | RollbackFailed

  /** The file with the confirmed key in place of the old ones. */
  function RotatedFile(file: HostFile, host: string, key: string): HostFile {
    Some(Whole(Kept(LinesOf(file), host) + [KeyLine(host, key)]))
  }

  lemma RotatedRecords(file: HostFile, host: string, key: string)
    ensures HasEntry(LinesOf(RotatedFile(file, host, key)), host)
    ensures forall k :: Records(LinesOf(RotatedFile(file, host, key)), host, k) <==> k == key
  {
    var line := KeyLine(host, key);
    var after := Kept(LinesOf(file), host) + [line];
    assert line in after && IsFor(line, host);
    RotatedKeys(LinesOf(file), host, line, key);
  }

  lemma RotatedParses(file: HostFile, host: string, key: string)
    requires AllParse(LinesOf(file))
    ensures AllParse(LinesOf(RotatedFile(file, host, key)))
  {
    KeptLines(LinesOf(file), host);
  }

  /** The checks made under the new key, in their order. */
  method PassesChecks(w: World) returns (passed: bool)
    ensures passed <==>
              && w.reachable && !w.otherAgent && w.targetConfirmed
              && (w.wantMac.Some? ==> w.mac != [] && w.mac == w.wantMac.value)
  {
    if !w.reachable {
      return false;
    }
    if w.wantMac.Some? {
      if w.mac == [] { // unreadable
        return false;
      }
      if w.mac != w.wantMac.value {
        return false;
      }
    }
    if w.otherAgent {
      return false;
    }
    return w.targetConfirmed;
  }

  /** The operator typed the fingerprint of the key that the probe saw. */
  ghost predicate Confirmed(w: World) {
    w.captured.Some? && w.confirmed
  }

  /** What the file may hold during a connection to a host that is on file. */
  ghost predicate MayBeSeen(f: HostFile, before: HostFile, host: string, w: World) {
    && HasEntry(LinesOf(f), host)
    && (f == before || (Confirmed(w) && f == RotatedFile(before, host, w.captured.value)))
  }

  /** Undo a replacement that is not to stand. */
  method Rollback(kh: KnownHostsFile, snap: Content) returns (r: Managed)
    modifies kh
    ensures kh.file == if r == RolledBack then Some(snap) else old(kh.file)
    ensures r == RolledBack || r == RollbackFailed
    ensures kh.seen == old(kh.seen) + {kh.file}
    ensures kh.faults == if r == RolledBack then old(kh.faults) else old(kh.faults) + 1
  {
    var back := kh.Restore(snap);
    r := if back then RolledBack else RollbackFailed;
  }

  /** From the confirmed key on: replace it, connect, check, and undo the replacement if anything is wrong. */
  method Rotate(kh: KnownHostsFile, host: string, key: string, w: World) returns (r: Managed, sent: seq<string>)
    requires HasEntry(LinesOf(kh.file), host)
    modifies kh
    ensures forall f :: f in kh.seen ==>
              f in old(kh.seen) || f == old(kh.file) || f == RotatedFile(old(kh.file), host, key)
    ensures r == Refused || r == RolledBack ==> kh.file == old(kh.file)
    ensures r == RollbackFailed ==> kh.file == old(kh.file) || kh.file == RotatedFile(old(kh.file), host, key)
    ensures r == Rotated ==> kh.file == RotatedFile(old(kh.file), host, key) && sent == [key]
    // The new key stands only if the router presents it again and everything else about it is right; nothing
    // failing, it then does, and anything else is undone.
    ensures r == Rotated ==> w.secondKey == key && w.reachable && !w.otherAgent && w.targetConfirmed
    ensures r == Rotated && w.wantMac.Some? ==> w.mac != [] && w.mac == w.wantMac.value
    ensures r == Refused ==> kh.seen == old(kh.seen) && sent == []
    ensures kh.faults >= old(kh.faults)
    ensures kh.faults == old(kh.faults) && host != [] && AllParse(LinesOf(old(kh.file))) ==>
              r == if w.secondKey == key && w.reachable && !w.otherAgent && w.targetConfirmed
                      && (w.wantMac.Some? ==> w.mac != [] && w.mac == w.wantMac.value)
                   then Rotated else RolledBack
    ensures forall k :: k in sent ==> k == key
    ensures r != Connected
  {
    sent := [];
    var snap := kh.Snapshot();
    if snap.None? {
      r := Refused;
      return;
    }
    var replaced := kh.ReplaceHostKey(host, KeyLine(host, key));
    if !replaced {
      r := Rollback(kh, snap.value);
      return;
    }
    RotatedRecords(old(kh.file), host, key);
    if AllParse(LinesOf(old(kh.file))) {
      RotatedParses(old(kh.file), host, key);
    }
    var second, _ := kh.CheckOrAppend(host, w.secondKey);
    if second != KeyOk {
      r := Rollback(kh, snap.value);
      return;
    }
    sent := [w.secondKey];
    var passed := PassesChecks(w);
    if !passed {
      r := Rollback(kh, snap.value);
      return;
    }
    r := Rotated;
  }

  /** What comes of a connection when no read and no write fails. */
  ghost function Answer(w: World, host: string, lines: seq<Line>): Managed {
    if !w.online then Refused
    else if !HasEntry(lines, host) then
      if (forall h :: !Records(lines, h, w.firstKey)) && w.login then Connected else Refused
    else if Records(lines, host, w.firstKey) then if w.login then Connected else Refused
    else if w.captured.None? || !w.confirmed then Refused
    else if w.secondKey != w.captured.value || !w.reachable || w.otherAgent || !w.targetConfirmed then RolledBack
    else if w.wantMac.Some? && (w.mac == [] || w.mac != w.wantMac.value) then RolledBack
    else Rotated
  }

  /**
   Connect; when the host key has changed, ask, and rotate only if the operator confirms the new one.
   `sent` are the host keys under which the password was handed over.
   */
  method ConnectAgentSSHManaged(kh: KnownHostsFile, host: string, w: World)
    returns (r: Managed, sent: seq<string>, ghost searched: bool)
    modifies kh
    // A host on file: the file is at every moment the old one or the finished new one, so it never
    // lacks a key for the host,
    ensures HasEntry(LinesOf(old(kh.file)), host) ==>
              forall f :: f in kh.seen ==> f in old(kh.seen) || MayBeSeen(f, old(kh.file), host, w)
    // and only a rotation, or a rollback that failed and is reported, leaves it changed.
    ensures HasEntry(LinesOf(old(kh.file)), host) && r != Rotated && r != RollbackFailed ==> kh.file == old(kh.file)
    ensures r == Rotated ==> Confirmed(w) && kh.file == RotatedFile(old(kh.file), host, w.captured.value)
    ensures r == Rotated ==> sent == [w.captured.value] && w.secondKey == w.captured.value
    ensures r == Rotated ==> w.reachable && !w.otherAgent && w.targetConfirmed
    ensures r == Rotated && w.wantMac.Some? ==> w.mac != [] && w.mac == w.wantMac.value
    // Nothing failing, the login goes through under a key on file and under the first key of a host, unless that
    // is another's, and a changed key is rotated if all that is so.
    ensures kh.faults == old(kh.faults) && old(kh.file).Some? && AllParse(LinesOf(old(kh.file))) && host != [] ==>
              r == Answer(w, host, LinesOf(old(kh.file)))
    // A host not on file: nothing is rotated, and the password goes out only after its first key was put behind
    // the text, which is read back, with all other hosts' keys, exactly if the text before ended its last line.
    ensures !HasEntry(LinesOf(old(kh.file)), host) ==> r == Connected || r == Refused
    ensures !HasEntry(LinesOf(old(kh.file)), host) && sent != [] ==>
              FirstKeyTaken(old(kh.file), kh.file, host, w.firstKey, searched)
    // Whatever comes of it, the password goes to a key on file, to the very key the operator confirmed,
    // or to the first key of a host that had none.
    ensures forall k :: k in sent ==>
              if HasEntry(LinesOf(old(kh.file)), host)
              then Records(LinesOf(old(kh.file)), host, k) || (Confirmed(w) && k == w.captured.value)
              else k == w.firstKey
    ensures r == Connected ==> sent == [w.firstKey]
  {
    searched, sent := true, [];
    if !w.online {
      r := Refused;
      return;
    }
    var first;
    first, searched := kh.CheckOrAppend(host, w.firstKey);
    if first == KeyOk {
      sent := [w.firstKey];
      r := if w.login then Connected else Refused;
      return;
    }
    if first != KeyChanged {
      r := Refused;
      return;
    }
    if w.captured.None? || !w.confirmed {
      r := Refused;
      return;
    }
    RotatedRecords(kh.file, host, w.captured.value);
    r, sent := Rotate(kh, host, w.captured.value, w);
  }
}
