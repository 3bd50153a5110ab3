/**
 Reconciling the wizard's list of agents with the backend's: MergeAgents, what is pushed for
 an agent, and how the two normalised fields keep their meaning on the way.
 */
module Merge {
  import opened Disk
  import opened Text

  datatype Agent = Agent(
    nickname: string, host: string, port: int, user: string, arch: string, threadID: int, kind: string,
    ring: string, lastDeploy: string, lastDeployedVersion: string, pendingVersion: string, pendingSince: string,
    deployMode: string, awgmURL: string, awgmAuth: string, expectedMAC: string, preferredIface: string)

  datatype Remote = Remote(
    nickname: string, host: string, port: int, user: string, arch: string, threadID: int, kind: string,
    ring: string, lastDeploy: string, lastDeployedVersion: string, pendingVersion: string, pendingSince: string,
    deployMode: string, awgmURL: string, awgmAuth: string, expectedMAC: string)

  /* ---------------------------------------------------------- normalised fields */

  function Without(s: string, c: char): (r: string)
    ensures c !in r && forall x :: x in r ==> x in s
  {
    if s == [] then [] else if s[0] == c then Without(s[1..], c) else [s[0]] + Without(s[1..], c)
  }

  function NormalizeMACPin(s: string): string {
    Without(Without(TrimSpace(ToLower(s)), ':'), '-')
  }

  function TrimSlashes(s: string): (r: string)
    ensures r <= s && (r == [] || r[|r| - 1] != '/')
    ensures forall i :: |r| <= i < |s| ==> s[i] == '/'
  {
    if s != [] && s[|s| - 1] == '/' then TrimSlashes(s[..|s| - 1]) else s
  }

  predicate HasScheme(s: string) {
    |s| >= 3 && (s[..3] == "://" || HasScheme(s[1..]))
  }

  const HTTPS := "https://"

  function NormalizeAWGMURL(s: string): string {
    var raw := TrimSpace(s);
    if raw == [] then []
    else TrimSlashes(if HasScheme(raw) then raw else HTTPS + raw)
  }

  lemma {:induction false} WithoutNothing(s: string, c: char)
    ensures Without(s, c) == s <==> c !in s
    ensures |Without(s, c)| <= |s|
  {
    if s != [] {
      WithoutNothing(s[1..], c);
    }
  }

  lemma TrimSpaceOf(s: string)
    ensures forall x :: x in TrimSpace(s) ==> x in s
    ensures TrimSpace(s) == s <==> Trimmed(s)
    ensures |TrimSpace(s)| <= |s| && (TrimSpace(s) == s || |TrimSpace(s)| < |s|)
  {
    ShorterIfTrimmed(s);
    TrimmedFrom(s);
    TrimIsTrimmed(s);
    if Trimmed(s) {
      TrimOfTrimmed(s);
    }
  }

  lemma ShorterIfTrimmed(s: string)
    ensures |TrimLeft(s)| == |s| ==> TrimLeft(s) == s
    ensures |TrimRight(s)| == |s| ==> TrimRight(s) == s
  {
  }

  lemma {:induction false} TrimmedFrom(s: string)
    ensures forall x :: x in TrimLeft(s) ==> x in s
    ensures forall x :: x in TrimRight(s) ==> x in s
  {
    if s != [] && IsSpace(s[0]) {
      TrimmedFrom(s[1..]);
    }
  }

  lemma PinIsLower(s: string)
    ensures var n := NormalizeMACPin(s); ':' !in n && '-' !in n && IsLower(n)
  {
    ToLowerIsLower(s);
    var t := TrimSpace(ToLower(s));
    TrimSpaceOf(ToLower(s));
    var n := NormalizeMACPin(s);
    assert forall x :: x in n ==> x in ToLower(s);
    assert forall i :: 0 <= i < |n| ==> n[i] in n;
    assert IsLower(n);
  }

  /** Normalising a pin again changes it exactly when the first time left white space at an end (` a`, from `: a`). */
  lemma PinIsStable(s: string)
    ensures NormalizeMACPin(NormalizeMACPin(s)) == NormalizeMACPin(s) <==> Trimmed(NormalizeMACPin(s))
  {
    var n := NormalizeMACPin(s);
    PinIsLower(s);
    ToLowerOfLower(n);
    TrimSpaceOf(n);
    var t := TrimSpace(n);
    WithoutNothing(t, ':');
    WithoutNothing(t, '-');
  }

  lemma {:induction false} SchemeAt(s: string, i: nat)
    requires i + 3 <= |s| && s[i] == ':' && s[i + 1] == '/' && s[i + 2] == '/'
    ensures HasScheme(s)
  {
    if i == 0 {
      assert s[..3] == "://";
    } else {
      SchemeAt(s[1..], i - 1);
    }
  }

  /** A text without a scheme is never its own normal form. */
  lemma SchemeIsAdded(u: string)
    requires u != [] && !HasScheme(TrimSpace(u))
    ensures NormalizeAWGMURL(u) != u
  {
    var raw := TrimSpace(u);
    var full := HTTPS + raw;
    if raw != [] && TrimSlashes(full) == u {
      assert u[0] == full[0] == 'h';
      assert raw <= u <= full;
      if |raw| >= 8 {
        assert raw[5] == HTTPS[5] && raw[6] == HTTPS[6] && raw[7] == HTTPS[7];
        SchemeAt(raw, 5);
        assert false;
      }
    }
  }

  lemma SlashesAtEnd(t: string)
    requires t != []
    ensures TrimSlashes(t) == t <==> t[|t| - 1] != '/'
  {
  }

  lemma SchemeIsKept(u: string)
    requires u != [] && HasScheme(TrimSpace(u))
    ensures NormalizeAWGMURL(u) == u <==> Trimmed(u) && u[|u| - 1] != '/'
  {
    TrimSpaceOf(u);
    var raw := TrimSpace(u);
    var t := TrimSlashes(raw);
    assert NormalizeAWGMURL(u) == t;
    if raw == u {
      SlashesAtEnd(u);
    } else {
      assert |t| <= |raw| < |u|;
    }
  }

  /** The URLs that normalising leaves alone: empty, or trimmed, with a scheme and no slash at the end. */
  lemma URLIsStable(u: string)
    ensures NormalizeAWGMURL(u) == u <==> u == [] || (Trimmed(u) && HasScheme(u) && u[|u| - 1] != '/')
  {
    if u != [] {
      if HasScheme(TrimSpace(u)) {
        SchemeIsKept(u);
      } else {
        SchemeIsAdded(u);
        TrimSpaceOf(u);
      }
    }
  }

  /** A bare host gets the scheme that is meant, and a slash at the end makes no difference. */
  lemma URLOfHost(u: string)
    requires u != [] && Trimmed(u) && u[|u| - 1] != '/'
    ensures NormalizeAWGMURL(u) == if HasScheme(u) then u else HTTPS + u
    ensures NormalizeAWGMURL(u + ['/']) == NormalizeAWGMURL(u)
  {
    SchemeBefore(u);
    SlashedIsTrimmed(u);
    var h := if HasScheme(u) then [] else HTTPS;
    URLWith(u, h);
    assert [] + u == u;
  }

  lemma URLWith(u: string, h: string)
    requires u != [] && Trimmed(u) && u[|u| - 1] != '/' && Trimmed(u + ['/'])
    requires HasScheme(u + ['/']) == HasScheme(u) && h == if HasScheme(u) then [] else HTTPS
    ensures NormalizeAWGMURL(u) == h + u == NormalizeAWGMURL(u + ['/'])
  {
    URLOfTrimmed(u, h, HasScheme(u));
    URLOfTrimmed(u + ['/'], h, HasScheme(u));
    SlashOff(h, u);
  }

  lemma SlashedIsTrimmed(u: string)
    requires u != [] && Trimmed(u)
    ensures Trimmed(u + ['/'])
  {
    var slashed := u + ['/'];
    assert slashed[0] == u[0] && slashed[|slashed| - 1] == '/';
  }

  lemma URLOfTrimmed(u: string, h: string, scheme: bool)
    requires u != [] && Trimmed(u) && HasScheme(u) == scheme && h == if scheme then [] else HTTPS
    ensures NormalizeAWGMURL(u) == TrimSlashes(h + u)
  {
    TrimOfTrimmed(u);
    assert [] + u == u;
  }

  lemma SlashOff(h: string, u: string)
    requires u != [] && u[|u| - 1] != '/'
    ensures TrimSlashes(h + (u + ['/'])) == h + u && TrimSlashes(h + u) == h + u
  {
    var t, s := h + u, h + (u + ['/']);
    assert t[|t| - 1] == u[|u| - 1] && s[|s| - 1] == '/' && s[..|s| - 1] == t;
  }

  /** A slash at the end makes no scheme of what was none. */
  lemma {:induction false} SchemeBefore(u: string)
    requires u != [] && u[|u| - 1] != '/'
    ensures HasScheme(u + ['/']) <==> HasScheme(u)
  {
    var t := u + ['/'];
    if |u| >= 3 {
      assert t[..3] == u[..3] && t[1..] == u[1..] + ['/'];
      SchemeBefore(u[1..]);
    } else if |u| == 2 {
      assert t[2] == '/' && t[1] == u[1];
      assert t[..3][1] == u[1];
    }
  }

  /* -------------------------------------------------------------------- one agent */

  /** `theirs` if there is one. */
  function Prefer(theirs: string, ours: string): string {
    if theirs != [] then theirs else ours
  }

  function PreferNum(theirs: int, ours: int): int {
    if theirs != 0 then theirs else ours
  }

  /** The pins name different routers. */
  predicate PinsClash(a: Agent, r: Remote) {
    var ours, theirs := NormalizeMACPin(a.expectedMAC), NormalizeMACPin(r.expectedMAC);
    ours != [] && theirs != [] && ours != theirs
  }

  predicate HostsDiffer(a: Agent, r: Remote) {
    a.host != [] && r.host != [] && a.host != r.host
  }

  function MergedPin(a: Agent, r: Remote): string {
    if r.expectedMAC == [] then a.expectedMAC
    else if NormalizeMACPin(a.expectedMAC) == [] then NormalizeMACPin(r.expectedMAC)
    else if PinsClash(a, r) then NormalizeMACPin(a.expectedMAC)
    else a.expectedMAC
  }

  function MergedURL(a: Agent, r: Remote): string {
    if r.awgmURL != [] then NormalizeAWGMURL(r.awgmURL) else a.awgmURL
  }

  function WithAccess(a: Agent, r: Remote): Agent {
    a.(host := Prefer(r.host, a.host), port := PreferNum(r.port, a.port), user := Prefer(r.user, a.user),
       arch := Prefer(r.arch, a.arch))
  }

  function WithDeploy(a: Agent, r: Remote): Agent {
    a.(threadID := PreferNum(r.threadID, a.threadID), kind := Prefer(r.kind, a.kind),
       lastDeployedVersion := Prefer(r.lastDeployedVersion, a.lastDeployedVersion), ring := Prefer(r.ring, a.ring),
       pendingVersion := r.pendingVersion, pendingSince := r.pendingSince,
       lastDeploy := Prefer(r.lastDeploy, a.lastDeploy))
  }

  function WithManager(a: Agent, r: Remote, url: string, pin: string): Agent {
    a.(deployMode := Prefer(r.deployMode, a.deployMode), awgmURL := url, awgmAuth := Prefer(r.awgmAuth, a.awgmAuth),
       expectedMAC := pin)
  }

  /** An agent that both sides have. */
  function Reconciled(a: Agent, r: Remote): Agent {
    WithAccess(WithManager(WithDeploy(a, r), r, MergedURL(a, r), MergedPin(a, r)), r)
  }

  /** An agent that only the backend has. */
  function FromRemote(r: Remote): Agent {
    Agent(r.nickname, r.host, r.port, r.user, r.arch, r.threadID, r.kind, r.ring, r.lastDeploy, r.lastDeployedVersion,
          r.pendingVersion, r.pendingSince, r.deployMode, NormalizeAWGMURL(r.awgmURL), r.awgmAuth,
          NormalizeMACPin(r.expectedMAC), [])
  }

  /** What is pushed for an agent. */
  function AgentStateToRemote(a: Agent): Remote {
    Remote(a.nickname, a.host, a.port, a.user, a.arch, a.threadID, a.kind, a.ring, a.lastDeploy, a.lastDeployedVersion,
           a.pendingVersion, a.pendingSince, a.deployMode, NormalizeAWGMURL(a.awgmURL), a.awgmAuth,
           NormalizeMACPin(a.expectedMAC))
  }

  /** A pin is never replaced by that of another router: it stays, or is normalised where the backend's differs. */
  lemma PinStays(a: Agent, r: Remote)
    requires NormalizeMACPin(a.expectedMAC) != []
    ensures Reconciled(a, r).expectedMAC == if PinsClash(a, r) then NormalizeMACPin(a.expectedMAC) else a.expectedMAC
  {
  }

  /** White space left at an end of a normalised pin does no harm in a second merge. */
  ghost predicate StablePair(a: Agent, r: Remote) {
    var ours, theirs := NormalizeMACPin(a.expectedMAC), NormalizeMACPin(r.expectedMAC);
    || (ours == [] && StablePin(theirs))
    || (ours != [] && (theirs == [] || theirs == ours || Trimmed(ours) || NormalizeMACPin(ours) == theirs))
  }

  /** It is trimmed, or nothing is left of it. */
  ghost predicate StablePin(pin: string) {
    Trimmed(pin) || NormalizeMACPin(pin) == []
  }

  /** Merging the same entry again changes nothing exactly for a stable pair of pins; hosts agree in any case. */
  lemma ReconciledTwice(a: Agent, r: Remote)
    ensures Reconciled(Reconciled(a, r), r) == Reconciled(a, r) <==> StablePair(a, r)
    ensures !HostsDiffer(Reconciled(a, r), r)
  {
    PinIsStable(a.expectedMAC);
    PinIsStable(r.expectedMAC);
    PinTwice(a, r);
    OnlyPinMoves(a, r);
  }

  lemma PinTwice(a: Agent, r: Remote)
    ensures MergedPin(Reconciled(a, r), r) == MergedPin(a, r) <==> StablePair(a, r)
  {
    PinIsStable(a.expectedMAC);
    PinIsStable(r.expectedMAC);
  }

  lemma OnlyPinMoves(a: Agent, r: Remote)
    ensures Reconciled(Reconciled(a, r), r) == Reconciled(a, r).(expectedMAC := MergedPin(Reconciled(a, r), r))
  {
  }

  /** It does happen: the pin `: a` is normalised to ` a`, and that to `a` by the next merge. */
  lemma PinMovesTwice(a: Agent, r: Remote)
    requires a.expectedMAC == [] && r.expectedMAC == ": a"
    ensures Reconciled(a, r).expectedMAC == " a" && Reconciled(Reconciled(a, r), r).expectedMAC == "a"
  {
    PinOfColon();
    PinOfSpace();
  }

  lemma PinOfColon()
    ensures NormalizeMACPin(": a") == " a"
  {
    var s := ": a";
    ToLowerOfLower(s);
    TrimOfTrimmed(s);
    assert s[1..] == " a" && " a"[1..] == "a";
    WithoutNothing(" a", ':');
    WithoutNothing(" a", '-');
  }

  lemma PinOfSpace()
    ensures NormalizeMACPin(" a") == "a"
  {
    var s := " a";
    ToLowerOfLower(s);
    assert s[1..] == "a";
    assert TrimSpace(s) == "a";
    WithoutNothing("a", ':');
    WithoutNothing("a", '-');
  }

  /** Pulling what was just pushed gives the agent back exactly when its URL and pin survive their normalising. */
  lemma PullUndoesPush(a: Agent)
    ensures Reconciled(a, AgentStateToRemote(a)) == a <==>
              && (NormalizeAWGMURL(a.awgmURL) == [] || NormalizeAWGMURL(NormalizeAWGMURL(a.awgmURL)) == a.awgmURL)
              && (Trimmed(NormalizeMACPin(a.expectedMAC)) || NormalizeMACPin(NormalizeMACPin(a.expectedMAC)) == []
                  || NormalizeMACPin(a.expectedMAC) == a.expectedMAC)
    ensures !HostsDiffer(a, AgentStateToRemote(a))
    ensures PinsClash(a, AgentStateToRemote(a)) ==> !Trimmed(NormalizeMACPin(a.expectedMAC))
  {
    PinIsStable(a.expectedMAC);
  }

  /** URL and pin are what is left of them after being normalised on the way out and on the way back. */
  ghost predicate ComesBack(a: Agent) {
    && NormalizeAWGMURL(NormalizeAWGMURL(a.awgmURL)) == a.awgmURL
    && NormalizeMACPin(NormalizeMACPin(a.expectedMAC)) == a.expectedMAC
  }

  lemma BackFromRemote(a: Agent)
    ensures FromRemote(AgentStateToRemote(a)) == a.(preferredIface := []) <==> ComesBack(a)
  {
  }

  /* -------------------------------------------------------------------- the lists */

  datatype Merged = Merged(agents: seq<Agent>, added: seq<string>, divergent: seq<string>, macConflicts: seq<string>)

  /** The index byNick holds: the last entry of that name. */
  function Find(agents: seq<Agent>, nick: string): (i: Option<nat>)
    ensures i.Some? ==> i.value < |agents| && agents[i.value].nickname == nick
    ensures i.None? ==> forall a :: a in agents ==> a.nickname != nick
  {
    if agents == [] then None
    else if agents[|agents| - 1].nickname == nick then Some(|agents| - 1)
    else Find(agents[..|agents| - 1], nick)
  }

  /** One entry of the backend's list. */
  function Step(local: seq<Agent>, m: Merged, r: Remote): Merged
    requires |m.agents| >= |local|
  {
    match Find(local, r.nickname)
    case None => m.(agents := m.agents + [FromRemote(r)], added := m.added + [r.nickname])
    case Some(i) =>
      Merged(m.agents[i := Reconciled(m.agents[i], r)], m.added,
             m.divergent + if HostsDiffer(m.agents[i], r) then [r.nickname] else [],
             m.macConflicts + if PinsClash(m.agents[i], r) then [r.nickname] else [])
  }

  function Merge(local: seq<Agent>, remote: seq<Remote>): (m: Merged)
    ensures |m.agents| >= |local| && forall i :: 0 <= i < |local| ==> m.agents[i].nickname == local[i].nickname
  {
    if remote == [] then Merged(local, [], [], [])
    else Step(local, Merge(local, remote[..|remote| - 1]), remote[|remote| - 1])
  }

  method IndexByName(local: seq<Agent>) returns (byNick: map<string, nat>)
    ensures forall nick :: nick in byNick <==> Find(local, nick).Some?
    ensures forall nick :: nick in byNick ==> Find(local, nick) == Some(byNick[nick])
  {
    byNick := map[];
    for i := 0 to |local|
      invariant forall nick :: nick in byNick <==> Find(local[..i], nick).Some?
      invariant forall nick :: nick in byNick ==> Find(local[..i], nick) == Some(byNick[nick])
    {
      assert local[..i + 1][..i] == local[..i];
      byNick := byNick[local[i].nickname := i];
    }
    assert local[..|local|] == local;
  }

  method MergePin(a: Agent, r: Remote) returns (pin: string, conflict: bool)
    ensures pin == MergedPin(a, r) && conflict == PinsClash(a, r)
  {
    pin, conflict := a.expectedMAC, false;
    if r.expectedMAC != [] {
      var remoteMAC, localMAC := NormalizeMACPin(r.expectedMAC), NormalizeMACPin(a.expectedMAC);
      if localMAC == [] {
        pin := remoteMAC;
      } else if remoteMAC != [] && localMAC != remoteMAC {
        pin, conflict := localMAC, true;
      }
    }
  }

  method UpdateDeploy(was: Agent, r: Remote) returns (a: Agent)
    ensures a == WithDeploy(was, r)
  {
    a := was;
    if r.threadID != 0 { a := a.(threadID := r.threadID); }
    if r.kind != [] { a := a.(kind := r.kind); }
    if r.lastDeployedVersion != [] { a := a.(lastDeployedVersion := r.lastDeployedVersion); }
    if r.ring != [] { a := a.(ring := r.ring); }
    a := a.(pendingVersion := r.pendingVersion, pendingSince := r.pendingSince);
    if r.lastDeploy != [] { a := a.(lastDeploy := r.lastDeploy); }
  }

  method UpdateManager(was: Agent, r: Remote) returns (a: Agent, conflict: bool)
    ensures a == WithManager(was, r, MergedURL(was, r), MergedPin(was, r)) && conflict == PinsClash(was, r)
  {
    a := was;
    if r.deployMode != [] { a := a.(deployMode := r.deployMode); }
    if r.awgmURL != [] { a := a.(awgmURL := NormalizeAWGMURL(r.awgmURL)); }
    if r.awgmAuth != [] { a := a.(awgmAuth := r.awgmAuth); }
    var pin, clash := MergePin(was, r);
    a, conflict := a.(expectedMAC := pin), clash;
  }

  method UpdateAccess(was: Agent, r: Remote) returns (a: Agent, divergent: bool)
    ensures a == WithAccess(was, r) && divergent == HostsDiffer(was, r)
  {
    a, divergent := was, false;
    if r.host != [] {
      divergent := a.host != [] && a.host != r.host;
      a := a.(host := r.host);
    }
    if r.port != 0 { a := a.(port := r.port); }
    if r.user != [] { a := a.(user := r.user); }
    if r.arch != [] { a := a.(arch := r.arch); }
  }

  /** The field by field update of an agent that both sides have. */
  method Reconcile(was: Agent, r: Remote) returns (a: Agent, divergent: bool, conflict: bool)
    ensures a == Reconciled(was, r) && divergent == HostsDiffer(was, r) && conflict == PinsClash(was, r)
  {
    a := UpdateDeploy(was, r);
    a, conflict := UpdateManager(a, r);
    a, divergent := UpdateAccess(a, r);
  }

  /** The loop of MergeAgents: entries are changed in place, new ones appended. */
  method MergeAgents(local: seq<Agent>, remote: seq<Remote>) returns (m: Merged)
    ensures m == Merge(local, remote)
  {
    var byNick := IndexByName(local);
    m := Merged(local, [], [], []);
    for k := 0 to |remote|
      invariant m == Merge(local, remote[..k])
    {
      assert remote[..k + 1][..k] == remote[..k];
      var r := remote[k];
      if r.nickname !in byNick {
        m := m.(agents := m.agents + [FromRemote(r)], added := m.added + [r.nickname]);
      } else {
        var idx := byNick[r.nickname];
        var a, differ, clash := Reconcile(m.agents[idx], r);
        m := Merged(m.agents[idx := a], m.added, m.divergent + if differ then [r.nickname] else [],
                    m.macConflicts + if clash then [r.nickname] else []);
      }
    }
    assert remote[..|remote|] == remote;
  }

  function Nicks(agents: seq<Agent>): seq<string> {
    seq(|agents|, i requires 0 <= i < |agents| => agents[i].nickname)
  }

  ghost predicate Distinct(names: seq<string>) {
    forall i, j :: 0 <= i < j < |names| ==> names[i] != names[j]
  }

  function RemoteNicks(remote: seq<Remote>): seq<string> {
    seq(|remote|, i requires 0 <= i < |remote| => remote[i].nickname)
  }

  /** The names only the backend has, in its order. */
  function OnlyRemote(local: seq<Agent>, remote: seq<Remote>): seq<string> {
    if remote == [] then []
    else
      var rest := OnlyRemote(local, remote[..|remote| - 1]);
      var nick := remote[|remote| - 1].nickname;
      if Find(local, nick).None? then rest + [nick] else rest
  }

  lemma NamesOfUpdate(agents: seq<Agent>, i: nat, a: Agent)
    requires i < |agents| && a.nickname == agents[i].nickname
    ensures Nicks(agents[i := a]) == Nicks(agents)
  {
  }

  lemma NamesOfAppend(agents: seq<Agent>, a: Agent)
    ensures Nicks(agents + [a]) == Nicks(agents) + [a.nickname]
  {
  }

  /** The local order comes first, then the names only the backend has; those are the ones reported as added. */
  lemma {:induction false} NamesOfMerge(local: seq<Agent>, remote: seq<Remote>)
    ensures Nicks(Merge(local, remote).agents) == Nicks(local) + OnlyRemote(local, remote)
    ensures Merge(local, remote).added == OnlyRemote(local, remote)
  {
    if remote != [] {
      var last := remote[|remote| - 1];
      NamesOfMerge(local, remote[..|remote| - 1]);
      var m := Merge(local, remote[..|remote| - 1]);
      match Find(local, last.nickname)
      case None => NamesOfAppend(m.agents, FromRemote(last));
      case Some(i) => NamesOfUpdate(m.agents, i, Reconciled(m.agents[i], last));
    }
  }

  /** The backend's entry of that name; with distinct names the only one. */
  function Lookup(remote: seq<Remote>, nick: string): (r: Option<Remote>)
    ensures r.Some? ==> r.value in remote && r.value.nickname == nick
    ensures r.None? ==> forall x :: x in remote ==> x.nickname != nick
  {
    if remote == [] then None
    else if remote[|remote| - 1].nickname == nick then Some(remote[|remote| - 1])
    else Lookup(remote[..|remote| - 1], nick)
  }

  lemma FindDistinct(agents: seq<Agent>, i: nat)
    requires i < |agents| && Distinct(Nicks(agents))
    ensures Find(agents, agents[i].nickname) == Some(i)
  {
    var nicks := Nicks(agents);
    var j := Find(agents, agents[i].nickname).value;
    assert nicks[i] == agents[i].nickname && nicks[j] == agents[j].nickname;
  }

  lemma DistinctFront(remote: seq<Remote>)
    requires remote != [] && Distinct(RemoteNicks(remote))
    ensures var n := |remote| - 1;
            Distinct(RemoteNicks(remote[..n])) && Lookup(remote[..n], remote[n].nickname).None?
  {
    var n := |remote| - 1;
    var all, front := RemoteNicks(remote), RemoteNicks(remote[..n]);
    assert all[n] == remote[n].nickname;
    forall i | 0 <= i < n ensures front[i] == all[i] && remote[..n][i].nickname != remote[n].nickname {
      assert all[i] == remote[i].nickname;
    }
  }

  lemma {:induction false} LookupDistinct(remote: seq<Remote>, k: nat)
    requires k < |remote| && Distinct(RemoteNicks(remote))
    ensures Lookup(remote, remote[k].nickname) == Some(remote[k])
  {
    var n := |remote| - 1;
    if k < n {
      DistinctFront(remote);
      LookupDistinct(remote[..n], k);
    }
  }

  /** What the merge makes of a local entry. */
  function Outcome(a: Agent, r: Option<Remote>): Agent {
    if r.Some? then Reconciled(a, r.value) else a
  }

  /** A local entry stays where it is: as it was if the backend has none of its name, else reconciled with that one. */
  lemma {:induction false} LocalEntry(local: seq<Agent>, remote: seq<Remote>, i: nat)
    requires i < |local| && Distinct(Nicks(local)) && Distinct(RemoteNicks(remote))
    ensures Merge(local, remote).agents[i] == Outcome(local[i], Lookup(remote, local[i].nickname))
  {
    if remote != [] {
      var n := |remote| - 1;
      DistinctFront(remote);
      LocalEntry(local, remote[..n], i);
      FindDistinct(local, i);
    }
  }

  /**
   Field by field: what the backend knows replaces what the wizard has, an empty field of the backend's changes
   nothing, but the pending version is the backend's in any case and the cached interface the wizard's.
   */
  lemma FieldsOfMerge(local: seq<Agent>, remote: seq<Remote>, i: nat)
    requires i < |local| && Distinct(Nicks(local)) && Distinct(RemoteNicks(remote))
    requires Lookup(remote, local[i].nickname).Some?
    ensures var was, r, a := local[i], Lookup(remote, local[i].nickname).value, Merge(local, remote).agents[i];
            && a.nickname == was.nickname && a.preferredIface == was.preferredIface
            && (if r.host == "" then a.host == was.host else a.host == r.host)
            && (if r.port == 0 then a.port == was.port else a.port == r.port)
            && (if r.user == "" then a.user == was.user else a.user == r.user)
            && (if r.arch == "" then a.arch == was.arch else a.arch == r.arch)
            && (if r.threadID == 0 then a.threadID == was.threadID else a.threadID == r.threadID)
            && (if r.kind == "" then a.kind == was.kind else a.kind == r.kind)
            && (if r.ring == "" then a.ring == was.ring else a.ring == r.ring)
            && (if r.lastDeploy == "" then a.lastDeploy == was.lastDeploy else a.lastDeploy == r.lastDeploy)
            && (if r.lastDeployedVersion == "" then a.lastDeployedVersion == was.lastDeployedVersion
                else a.lastDeployedVersion == r.lastDeployedVersion)
            && a.pendingVersion == r.pendingVersion && a.pendingSince == r.pendingSince
            && (if r.deployMode == "" then a.deployMode == was.deployMode else a.deployMode == r.deployMode)
            && (if r.awgmAuth == "" then a.awgmAuth == was.awgmAuth else a.awgmAuth == r.awgmAuth)
            && (if r.awgmURL == "" then a.awgmURL == was.awgmURL else a.awgmURL == NormalizeAWGMURL(r.awgmURL))
  {
    LocalEntry(local, remote, i);
  }

  lemma StepKeeps(local: seq<Agent>, m: Merged, r: Remote, j: nat)
    requires |m.agents| >= |local| && |local| <= j < |Step(local, m, r).agents|
    ensures j < |m.agents| ==> Step(local, m, r).agents[j] == m.agents[j]
    ensures j >= |m.agents| ==> Step(local, m, r).agents[j] == FromRemote(r)
  {
  }

  /** The entry is the backend's one of its name. */
  ghost predicate IsAdded(a: Agent, remote: seq<Remote>) {
    var r := Lookup(remote, a.nickname);
    r.Some? && a == FromRemote(r.value)
  }

  lemma StaysAdded(a: Agent, remote: seq<Remote>)
    requires remote != [] && Distinct(RemoteNicks(remote))
    requires IsAdded(a, remote[..|remote| - 1]) || a == FromRemote(remote[|remote| - 1])
    ensures IsAdded(a, remote)
  {
    DistinctFront(remote);
  }

  /** Every added entry is the backend's entry of its name. */
  lemma {:induction false} AddedEntry(local: seq<Agent>, remote: seq<Remote>, j: nat)
    requires |local| <= j < |Merge(local, remote).agents|
    requires Distinct(RemoteNicks(remote))
    ensures IsAdded(Merge(local, remote).agents[j], remote)
  {
    if remote != [] {
      var n := |remote| - 1;
      DistinctFront(remote);
      var m := Merge(local, remote[..n]);
      StepKeeps(local, m, remote[n], j);
      if j < |m.agents| {
        AddedEntry(local, remote[..n], j);
      }
      StaysAdded(Merge(local, remote).agents[j], remote);
    }
  }

  /** A name is reported as divergent exactly when both sides know a host for it and they differ. */
  lemma {:induction false} DivergentNames(local: seq<Agent>, remote: seq<Remote>, nick: string)
    requires Distinct(Nicks(local)) && Distinct(RemoteNicks(remote))
    ensures nick in Merge(local, remote).divergent <==>
              var i, r := Find(local, nick), Lookup(remote, nick);
              i.Some? && r.Some? && HostsDiffer(local[i.value], r.value)
  {
    if remote != [] {
      var n := |remote| - 1;
      DistinctFront(remote);
      DivergentNames(local, remote[..n], nick);
      var i := Find(local, remote[n].nickname);
      if i.Some? {
        LocalEntry(local, remote[..n], i.value);
      }
    }
  }

  /** A name is reported as a conflict exactly when both sides pin a router for it and the pins clash. */
  lemma {:induction false} ConflictNames(local: seq<Agent>, remote: seq<Remote>, nick: string)
    requires Distinct(Nicks(local)) && Distinct(RemoteNicks(remote))
    ensures nick in Merge(local, remote).macConflicts <==>
              var i, r := Find(local, nick), Lookup(remote, nick);
              i.Some? && r.Some? && PinsClash(local[i.value], r.value)
  {
    if remote != [] {
      var n := |remote| - 1;
      DistinctFront(remote);
      ConflictNames(local, remote[..n], nick);
      var i := Find(local, remote[n].nickname);
      if i.Some? {
        LocalEntry(local, remote[..n], i.value);
      }
    }
  }

  /** Whatever the backend says, a pinned router stays pinned: the pin is kept, or normalised where it clashes. */
  lemma PinsSurvive(local: seq<Agent>, remote: seq<Remote>, i: nat)
    requires i < |local| && NormalizeMACPin(local[i].expectedMAC) != []
    requires Distinct(Nicks(local)) && Distinct(RemoteNicks(remote))
    ensures var m := Merge(local, remote);
            m.agents[i].expectedMAC ==
            if local[i].nickname in m.macConflicts then NormalizeMACPin(local[i].expectedMAC) else local[i].expectedMAC
  {
    LocalEntry(local, remote, i);
    ConflictNames(local, remote, local[i].nickname);
    FindDistinct(local, i);
    var r := Lookup(remote, local[i].nickname);
    if r.Some? {
      PinStays(local[i], r.value);
    }
  }

  lemma {:induction false} OnlyRemoteNames(local: seq<Agent>, remote: seq<Remote>)
    ensures forall nick :: nick in OnlyRemote(local, remote) <==> nick in RemoteNicks(remote) && Find(local, nick).None?
    ensures Distinct(RemoteNicks(remote)) ==> Distinct(OnlyRemote(local, remote))
  {
    if remote != [] {
      var n := |remote| - 1;
      OnlyRemoteNames(local, remote[..n]);
      assert RemoteNicks(remote) == RemoteNicks(remote[..n]) + [remote[n].nickname];
      if Distinct(RemoteNicks(remote)) {
        DistinctFront(remote);
        forall i | 0 <= i < n ensures RemoteNicks(remote[..n])[i] != remote[n].nickname {
          assert RemoteNicks(remote)[i] == RemoteNicks(remote[..n])[i];
        }
      }
    }
  }

  lemma FindAppended(agents: seq<Agent>, a: Agent, nick: string)
    ensures Find(agents + [a], nick).Some? <==> Find(agents, nick).Some? || a.nickname == nick
  {
    assert (agents + [a])[..|agents|] == agents;
  }

  lemma FindUpdated(agents: seq<Agent>, i: nat, a: Agent, nick: string)
    requires i < |agents| && a.nickname == agents[i].nickname
    ensures Find(agents[i := a], nick).Some? <==> Find(agents, nick).Some?
  {
    var after := agents[i := a];
    if Find(agents, nick).Some? {
      assert after[Find(agents, nick).value] in after;
    }
    if Find(after, nick).Some? {
      assert agents[Find(after, nick).value] in agents;
    }
  }

  /** The merged names are those of both sides. */
  lemma {:induction false} UnionOfNames(local: seq<Agent>, remote: seq<Remote>, nick: string)
    ensures Find(Merge(local, remote).agents, nick).Some? <==> Find(local, nick).Some? || Lookup(remote, nick).Some?
  {
    if remote != [] {
      var n := |remote| - 1;
      UnionOfNames(local, remote[..n], nick);
      var m := Merge(local, remote[..n]);
      match Find(local, remote[n].nickname)
      case None => FindAppended(m.agents, FromRemote(remote[n]), nick);
      case Some(i) => FindUpdated(m.agents, i, Reconciled(m.agents[i], remote[n]), nick);
    }
  }

  /** And each of them comes once. */
  lemma NamesOnce(local: seq<Agent>, remote: seq<Remote>)
    requires Distinct(Nicks(local)) && Distinct(RemoteNicks(remote))
    ensures Distinct(Nicks(Merge(local, remote).agents))
  {
    NamesOfMerge(local, remote);
    OnlyRemoteNames(local, remote);
    var mine, theirs := Nicks(local), OnlyRemote(local, remote);
    forall i, j | 0 <= i < |mine| && 0 <= j < |theirs| ensures mine[i] != theirs[j] {
      assert theirs[j] in theirs;
      assert local[i] in local;
    }
  }

  /** The pins of this entry of the merged list do not move in a second merge. */
  ghost predicate StableEntry(local: seq<Agent>, remote: seq<Remote>, j: nat) {
    var m := Merge(local, remote);
    if j < |local| then
      var r := Lookup(remote, local[j].nickname);
      r.Some? ==> StablePair(local[j], r.value)
    else if j < |m.agents| then
      var r := Lookup(remote, m.agents[j].nickname);
      r.Some? ==> StablePin(NormalizeMACPin(r.value.expectedMAC))
    else true
  }

  /** Every entry on both sides has a stable pair of pins, and every entry of the backend alone a stable pin. */
  ghost predicate StableMerge(local: seq<Agent>, remote: seq<Remote>) {
    && (forall i :: 0 <= i < |local| && Lookup(remote, local[i].nickname).Some? ==>
          StablePair(local[i], Lookup(remote, local[i].nickname).value))
    && (forall k :: 0 <= k < |remote| && Find(local, remote[k].nickname).None? ==>
          StablePin(NormalizeMACPin(remote[k].expectedMAC)))
  }

  lemma AddedIsOnlyRemote(local: seq<Agent>, remote: seq<Remote>, j: nat) returns (k: nat)
    requires Distinct(RemoteNicks(remote)) && |local| <= j < |Merge(local, remote).agents|
    requires Distinct(Nicks(Merge(local, remote).agents))
    ensures k < |remote| && Find(local, remote[k].nickname).None?
    ensures Lookup(remote, Merge(local, remote).agents[j].nickname) == Some(remote[k])
  {
    AddedEntry(local, remote, j);
    var m := Merge(local, remote);
    var r := Lookup(remote, m.agents[j].nickname).value;
    k :| 0 <= k < |remote| && remote[k] == r;
    if Find(local, r.nickname).Some? {
      NotTwice(local, m.agents, Find(local, r.nickname).value, j);
    }
  }

  lemma NotTwice(local: seq<Agent>, agents: seq<Agent>, i: nat, j: nat)
    requires i < |local| <= j < |agents| && Distinct(Nicks(agents)) && agents[i].nickname == local[i].nickname
    ensures agents[j].nickname != local[i].nickname
  {
    assert Nicks(agents)[i] != Nicks(agents)[j];
  }

  lemma OnlyRemoteIsAdded(local: seq<Agent>, remote: seq<Remote>, k: nat) returns (j: nat)
    requires Distinct(RemoteNicks(remote)) && k < |remote| && Find(local, remote[k].nickname).None?
    ensures |local| <= j < |Merge(local, remote).agents|
    ensures Lookup(remote, Merge(local, remote).agents[j].nickname) == Some(remote[k])
  {
    var m := Merge(local, remote);
    UnionOfNames(local, remote, remote[k].nickname);
    LookupDistinct(remote, k);
    j := Find(m.agents, remote[k].nickname).value;
  }

  /** The condition on the two lists says just that every entry is stable. */
  lemma StableEntries(local: seq<Agent>, remote: seq<Remote>)
    requires Distinct(Nicks(local)) && Distinct(RemoteNicks(remote))
    ensures StableMerge(local, remote) <==>
              forall j :: 0 <= j < |Merge(local, remote).agents| ==> StableEntry(local, remote, j)
  {
    var m := Merge(local, remote);
    NamesOnce(local, remote);
    if StableMerge(local, remote) {
      forall j | 0 <= j < |m.agents| ensures StableEntry(local, remote, j) {
        if j >= |local| {
          var k := AddedIsOnlyRemote(local, remote, j);
        }
      }
    }
    if forall j :: 0 <= j < |m.agents| ==> StableEntry(local, remote, j) {
      forall i | 0 <= i < |local| && Lookup(remote, local[i].nickname).Some?
        ensures StablePair(local[i], Lookup(remote, local[i].nickname).value)
      {
        assert StableEntry(local, remote, i);
      }
      forall k | 0 <= k < |remote| && Find(local, remote[k].nickname).None?
        ensures StablePin(NormalizeMACPin(remote[k].expectedMAC))
      {
        var j := OnlyRemoteIsAdded(local, remote, k);
        assert StableEntry(local, remote, j);
      }
    }
  }

  /**
   Merging the same answer of the backend again adds nothing and reports no divergence, and it
   changes nothing exactly when all pins are stable.
   */
  lemma MergeAgain(local: seq<Agent>, remote: seq<Remote>)
    requires Distinct(Nicks(local)) && Distinct(RemoteNicks(remote))
    ensures var m := Merge(local, remote);
            var again := Merge(m.agents, remote);
            && again.added == [] && again.divergent == []
            && (again.agents == m.agents <==> StableMerge(local, remote))
  {
    var m := Merge(local, remote);
    var again := Merge(m.agents, remote);
    NamesOnce(local, remote);
    forall k | 0 <= k < |remote| ensures Find(m.agents, remote[k].nickname).Some? {
      UnionOfNames(local, remote, remote[k].nickname);
      LookupDistinct(remote, k);
    }
    NothingNew(m.agents, remote);
    forall j | 0 <= j < |m.agents| ensures again.agents[j] == m.agents[j] <==> StableEntry(local, remote, j) {
      LocalEntry(m.agents, remote, j);
      SettledEntry(local, remote, j);
    }
    StableEntries(local, remote);
    NoDivergence(local, remote);
  }

  lemma NoDivergence(local: seq<Agent>, remote: seq<Remote>)
    requires Distinct(Nicks(local)) && Distinct(RemoteNicks(remote))
    requires Distinct(Nicks(Merge(local, remote).agents))
    ensures Merge(Merge(local, remote).agents, remote).divergent == []
  {
    var m := Merge(local, remote);
    var again := Merge(m.agents, remote);
    if again.divergent != [] {
      var nick := again.divergent[0];
      DivergentNames(m.agents, remote, nick);
      SettledEntry(local, remote, Find(m.agents, nick).value);
    }
  }

  lemma {:induction false} NothingNew(agents: seq<Agent>, remote: seq<Remote>)
    requires forall k :: 0 <= k < |remote| ==> Find(agents, remote[k].nickname).Some?
    ensures Merge(agents, remote).added == [] && |Merge(agents, remote).agents| == |agents|
  {
    if remote != [] {
      NothingNew(agents, remote[..|remote| - 1]);
    }
  }

  /** An entry that has been through the merge keeps its host in another one, and all else exactly if it is stable. */
  lemma SettledEntry(local: seq<Agent>, remote: seq<Remote>, j: nat)
    requires Distinct(Nicks(local)) && Distinct(RemoteNicks(remote))
    requires j < |Merge(local, remote).agents|
    ensures var a := Merge(local, remote).agents[j];
            var r := Lookup(remote, a.nickname);
            (Outcome(a, r) == a <==> StableEntry(local, remote, j)) && (r.Some? ==> !HostsDiffer(a, r.value))
  {
    if j < |local| {
      LocalEntry(local, remote, j);
      var r := Lookup(remote, local[j].nickname);
      if r.Some? {
        ReconciledTwice(local[j], r.value);
      }
    } else {
      AddedEntry(local, remote, j);
      var a := Merge(local, remote).agents[j];
      AddedTwice(Lookup(remote, a.nickname).value);
    }
  }

  lemma AddedTwice(r: Remote)
    ensures Reconciled(FromRemote(r), r) == FromRemote(r) <==> StablePin(NormalizeMACPin(r.expectedMAC))
    ensures !HostsDiffer(FromRemote(r), r)
  {
    PinIsStable(r.expectedMAC);
    AddedPinTwice(r);
    AddedOnlyPinMoves(r);
  }

  lemma AddedPinTwice(r: Remote)
    ensures MergedPin(FromRemote(r), r) == NormalizeMACPin(r.expectedMAC) <==> StablePin(NormalizeMACPin(r.expectedMAC))
  {
    PinIsStable(r.expectedMAC);
  }

  lemma AddedOnlyPinMoves(r: Remote)
    ensures Reconciled(FromRemote(r), r) == FromRemote(r).(expectedMAC := MergedPin(FromRemote(r), r))
  {
    URLOfNothing();
  }

  lemma URLOfNothing()
    ensures NormalizeAWGMURL([]) == []
  {
  }

  function Pushed(agents: seq<Agent>): seq<Remote> {
    seq(|agents|, i requires 0 <= i < |agents| => AgentStateToRemote(agents[i]))
  }

  ghost predicate NormalForm(a: Agent) {
    NormalizeAWGMURL(a.awgmURL) == a.awgmURL && NormalizeMACPin(a.expectedMAC) == a.expectedMAC
  }

  lemma PulledEntry(fleet: seq<Agent>, remote: seq<Remote>, i: nat)
    requires i < |fleet| && i < |remote| && remote[i] == AgentStateToRemote(fleet[i])
    requires Distinct(Nicks(fleet)) && Distinct(RemoteNicks(remote))
    requires NormalForm(fleet[i])
    ensures Merge(fleet, remote).agents[i] == fleet[i]
  {
    LocalEntry(fleet, remote, i);
    LookupDistinct(remote, i);
    PullUndoesPush(fleet[i]);
  }

  lemma NothingAdded(fleet: seq<Agent>, remote: seq<Remote>)
    requires |remote| == |fleet| && Distinct(Nicks(fleet))
    requires forall i :: 0 <= i < |fleet| ==> remote[i].nickname == fleet[i].nickname
    ensures Merge(fleet, remote).added == [] && |Merge(fleet, remote).agents| == |fleet|
  {
    forall k | 0 <= k < |remote| ensures Find(fleet, remote[k].nickname).Some? {
      FindDistinct(fleet, k);
    }
    NothingNew(fleet, remote);
  }

  lemma SameList(a: seq<Agent>, b: seq<Agent>)
    requires |a| == |b| && forall i :: 0 <= i < |a| ==> a[i] == b[i]
    ensures a == b
  {
  }

  lemma PulledFleet(fleet: seq<Agent>, remote: seq<Remote>)
    requires |remote| == |fleet| && forall i :: 0 <= i < |fleet| ==> remote[i] == AgentStateToRemote(fleet[i])
    requires Distinct(Nicks(fleet)) && Distinct(RemoteNicks(remote))
    requires forall i :: 0 <= i < |fleet| ==> NormalForm(fleet[i])
    requires |Merge(fleet, remote).agents| == |fleet|
    ensures Merge(fleet, remote).agents == fleet
  {
    var agents := Merge(fleet, remote).agents;
    forall i | 0 <= i < |fleet| ensures agents[i] == fleet[i] {
      PulledEntry(fleet, remote, i);
    }
    SameList(agents, fleet);
  }

  /** Pushing a whole fleet and pulling it gives exactly the fleet, provided URLs and pins are in normal form. */
  lemma FleetRoundTrip(fleet: seq<Agent>)
    requires Distinct(Nicks(fleet))
    requires forall i :: 0 <= i < |fleet| ==> NormalForm(fleet[i])
    ensures Merge(fleet, Pushed(fleet)) == Merged(fleet, [], [], [])
  {
    var remote := Pushed(fleet);
    assert RemoteNicks(remote) == Nicks(fleet);
    NothingAdded(fleet, remote);
    PulledFleet(fleet, remote);
    NoReports(fleet, remote);
  }

  function AllFromRemote(remote: seq<Remote>): seq<Agent> {
    seq(|remote|, i requires 0 <= i < |remote| => FromRemote(remote[i]))
  }

  lemma AllFromRemoteNext(front: seq<Remote>, r: Remote)
    ensures AllFromRemote(front + [r]) == AllFromRemote(front) + [FromRemote(r)]
    ensures RemoteNicks(front + [r]) == RemoteNicks(front) + [r.nickname]
  {
  }

  /** Merging into the empty list takes every entry as it comes. */
  ghost predicate TakenAsIs(remote: seq<Remote>) {
    Merge([], remote) == Merged(AllFromRemote(remote), RemoteNicks(remote), [], [])
  }

  lemma {:induction false} MergeIntoNothing(remote: seq<Remote>)
    ensures TakenAsIs(remote)
  {
    if remote == [] {
      assert AllFromRemote([]) == [] && RemoteNicks([]) == [];
    } else {
      var front, last := remote[..|remote| - 1], remote[|remote| - 1];
      MergeIntoNothing(front);
      IntoNothingNext(front, last, remote);
    }
  }

  lemma IntoNothingNext(front: seq<Remote>, last: Remote, remote: seq<Remote>)
    requires TakenAsIs(front) && remote == front + [last]
    ensures TakenAsIs(remote)
  {
    AllFromRemoteNext(front, last);
    assert remote[..|front|] == front && remote[|front|] == last;
    assert Merge([], remote) == Step([], Merge([], front), last);
  }

  /** The fleet without the interfaces that only the wizard remembers. */
  function WithoutInterfaces(fleet: seq<Agent>): seq<Agent> {
    seq(|fleet|, i requires 0 <= i < |fleet| => fleet[i].(preferredIface := []))
  }

  /** A wizard that lost its list gets the fleet back, but for cached interfaces, exactly if URLs and pins come back. */
  lemma PullAfterLoss(fleet: seq<Agent>)
    ensures Merge([], Pushed(fleet)).agents == WithoutInterfaces(fleet) <==>
              forall i :: 0 <= i < |fleet| ==> ComesBack(fleet[i])
    ensures Merge([], Pushed(fleet)).added == Nicks(fleet)
  {
    var remote := Pushed(fleet);
    MergeIntoNothing(remote);
    assert RemoteNicks(remote) == Nicks(fleet);
    var back, want := AllFromRemote(remote), WithoutInterfaces(fleet);
    forall i | 0 <= i < |fleet| ensures back[i] == want[i] <==> ComesBack(fleet[i]) {
      BackFromRemote(fleet[i]);
    }
    if back == want {
      forall i | 0 <= i < |fleet| ensures ComesBack(fleet[i]) {
        assert back[i] == want[i];
      }
    }
  }

  lemma FirstIsIn(names: seq<string>)
    ensures names == [] || names[0] in names
  {
  }

  lemma NoReports(fleet: seq<Agent>, remote: seq<Remote>)
    requires |remote| == |fleet| && forall i :: 0 <= i < |fleet| ==> remote[i] == AgentStateToRemote(fleet[i])
    requires Distinct(Nicks(fleet)) && Distinct(RemoteNicks(remote))
    requires forall i :: 0 <= i < |fleet| ==> NormalForm(fleet[i])
    ensures Merge(fleet, remote).divergent == [] && Merge(fleet, remote).macConflicts == []
  {
    forall nick ensures nick !in Merge(fleet, remote).divergent && nick !in Merge(fleet, remote).macConflicts {
      DivergentNames(fleet, remote, nick);
      ConflictNames(fleet, remote, nick);
      if Find(fleet, nick).Some? {
        var i := Find(fleet, nick).value;
        LookupDistinct(remote, i);
        PullUndoesPush(fleet[i]);
      }
    }
    var m := Merge(fleet, remote);
    FirstIsIn(m.divergent);
    FirstIsIn(m.macConflicts);
  }
}
