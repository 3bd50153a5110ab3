/**
 Giving a router's agent a new token through AWG Manager: the wizard stages the token, writes
 it on the router without starting the agent, tells the backend its hash, and only then starts
 the agent. A router that was never deployed is enrolled in one phase instead.
 */
module TokenCommit {
  import opened Disk
  import opened Text

  /* ------------------------------------------------------- the names of the secrets */

  function Upper(c: char): char {
    if 'a' <= c <= 'z' then (c as int - 32) as char else c
  }

  function ToUpper(s: string): (r: string)
    ensures |r| == |s| && forall i :: 0 <= i < |s| ==> r[i] == Upper(s[i])
  {
    if s == [] then [] else [Upper(s[0])] + ToUpper(s[1..])
  }

  const PREFIX := "WG_AGENT_TOKEN_"
  const STAGED := "_STAGED"
  const STAGED_NICK := "_staged"

  /** The name under which an agent's token is kept. */
  function TokenName(nick: string): string {
    PREFIX + ToUpper(nick)
  }

  function StagedName(name: string): string {
    name + STAGED
  }

  lemma PrefixOff(prefix: string, a: string, b: string)
    ensures prefix + a == prefix + b <==> a == b
  {
    assert (prefix + a)[|prefix|..] == a && (prefix + b)[|prefix|..] == b;
  }

  lemma UpperOfLower(a: string, b: string)
    requires IsLower(a) && IsLower(b)
    ensures ToUpper(a) == ToUpper(b) <==> a == b
  {
    if ToUpper(a) == ToUpper(b) {
      forall i | 0 <= i < |a| ensures a[i] == b[i] {
        assert ToUpper(a)[i] == Upper(a[i]) && ToUpper(b)[i] == Upper(b[i]);
      }
    }
  }

  /** Two agents keep their tokens apart. */
  lemma TokenNamesDiffer(a: string, b: string)
    requires IsLower(a) && IsLower(b)
    ensures TokenName(a) == TokenName(b) <==> a == b
  {
    PrefixOff(PREFIX, ToUpper(a), ToUpper(b));
    UpperOfLower(a, b);
  }

  lemma UpperOfSum(a: string, b: string)
    ensures ToUpper(a + b) == ToUpper(a) + ToUpper(b)
  {
    forall i | 0 <= i < |a + b| ensures ToUpper(a + b)[i] == (ToUpper(a) + ToUpper(b))[i] {
      assert (a + b)[i] == if i < |a| then a[i] else b[i - |a|];
    }
  }

  lemma SumOfThree(a: string, b: string, c: string)
    ensures a + b + c == a + (b + c)
  {
  }

  lemma NameWithSuffix(a: string, b: string, prefix: string, low: string, suffix: string)
    requires IsLower(a) && IsLower(b) && IsLower(low) && ToUpper(low) == suffix
    ensures prefix + ToUpper(a) + suffix == prefix + ToUpper(b) <==> b == a + low
  {
    var whole := a + low;
    assert ToUpper(whole) == ToUpper(a) + suffix by {
      UpperOfSum(a, low);
    }
    SumOfThree(prefix, ToUpper(a), suffix);
    PrefixOff(prefix, ToUpper(whole), ToUpper(b));
    assert IsLower(whole);
    UpperOfLower(whole, b);
  }

  /**
   A token being staged shares its name with another agent's token exactly when that agent's nickname
   is the same with `_staged` at the end.
   */
  lemma StagedNameIsTaken(a: string, b: string)
    requires IsLower(a) && IsLower(b)
    ensures StagedName(TokenName(a)) == TokenName(b) <==> b == a + STAGED_NICK
  {
    assert ToUpper(STAGED_NICK) == STAGED;
    NameWithSuffix(a, b, PREFIX, STAGED_NICK, STAGED);
  }

  /* ----------------------------------------------------------------- the secret cache */

  type Secrets = map<string, string>

  /** The cache file, and what this process holds of it. */
  datatype Cache = Cache(memory: Secrets, disk: Secrets)

  /** Storing a value: the process has it, and if the write succeeds the file is all the process has. */
  function Stored(c: Cache, name: string, token: string, written: bool): Cache {
    var memory := c.memory[name := token];
    Cache(memory, if written then memory else c.disk)
  }

  /** The token can be read back from the file, under its own name or the staged one. */
  ghost predicate OnDisk(disk: Secrets, name: string, token: string) {
    (name in disk && disk[name] == token) || (StagedName(name) in disk && disk[StagedName(name)] == token)
  }

  ghost predicate Holds(s: Secrets, name: string, token: string) {
    name in s && s[name] == token
  }

  /**
   Staging the next token keeps the present one on disk exactly when this process has it under
   its own name: a token that the last run got no further than staging is forgotten.
   */
  lemma StagingKeeps(c: Cache, name: string, token: string, next: string)
    requires next != token
    ensures OnDisk(Stored(c, StagedName(name), next, true).disk, name, token) <==> Holds(c.memory, name, token)
  {
    assert |StagedName(name)| > |name|;
  }

  /* ---------------------------------------------------------------------- the install */

  datatype SetResult = Saved | CacheDisabled | WriteFailed

  datatype Event =
    | Bootstrapped(token: string)                     // the router is known to have the token
    | HashSet(digest: string)
    | Started(token: string, known: Option<string>)   // the agent starts with this token; the backend's hash then

  /** What survives the wizard: the hash, the cache file, what the operator was shown, the router's configuration. */
  datatype Snapshot = Snapshot(hash: Option<string>, disk: Secrets, shown: set<string>, config: Option<string>)

  ghost predicate Recoverable(s: Snapshot, name: string, token: string) {
    OnDisk(s.disk, name, token) || token in s.shown
  }

  datatype Outcome =
    | Refused        // before a token existed
    | NotStaged      // the staged token could not be written
    | NotSaved       // one phase: the enrolled token could not be written
    | Failed | Deferred
    | CommitFailed
    | StartFailed | Unconfirmed | Done

  ghost predicate Has(log: seq<Event>, from: nat, token: string) {
    exists j :: from <= j < |log| && log[j] == Bootstrapped(token)
  }

  /** What may happen next in a two-phase install that began at `from`. */
  ghost predicate MayFollow(log: seq<Event>, from: nat, token: string, digest: string -> string, e: Event) {
    match e
    case Bootstrapped(t) => t == token
    case HashSet(d) => d == digest(token) && Has(log, from, token)
    case Started(t, known) => known == Some(digest(t))
  }

  ghost predicate Ordered(log: seq<Event>, from: nat, token: string, digest: string -> string) {
    from <= |log| && forall i :: from <= i < |log| ==> MayFollow(log[..i], from, token, digest, log[i])
  }

  lemma OrderedNext(log: seq<Event>, from: nat, token: string, digest: string -> string, e: Event)
    requires Ordered(log, from, token, digest) && MayFollow(log, from, token, digest, e)
    ensures Ordered(log + [e], from, token, digest)
    ensures e == Bootstrapped(token) || Has(log, from, token) ==> Has(log + [e], from, token)
  {
    var next := log + [e];
    forall i | from <= i < |next| ensures MayFollow(next[..i], from, token, digest, next[i]) {
      assert next[..i] == if i < |log| then log[..i] else log;
    }
    assert next[|log|] == e;
    if Has(log, from, token) {
      var j :| from <= j < |log| && log[j] == Bootstrapped(token);
      assert next[j] == log[j];
    }
  }

  class Install {
    const nick: string
    const name: string // of the token's secret
    const cacheOff: bool
    const digest: string -> string
    var hash: Option<string> // users.token_hash; None: the backend has no such agent
    var env: Option<string>
    var cache: Cache
    var shown: set<string>
    var config: Option<string> // the token in the agent's configuration on the router
    ghost var log: seq<Event>
    ghost var seen: set<Snapshot> // every state a crash of the wizard can leave
    ghost var faults: nat         // what failed, or was called off

    constructor (nick: string, cacheOff: bool, digest: string -> string, hash: Option<string>, env: Option<string>,
                 cache: Cache, config: Option<string>)
      ensures this.nick == nick && name == TokenName(nick) && this.cacheOff == cacheOff && this.digest == digest
      ensures this.hash == hash && this.env == env && this.cache == cache && this.config == config
      ensures shown == {} && log == [] && faults == 0 && seen == {Snapshot(hash, cache.disk, {}, config)}
    {
      this.nick, name := nick, TokenName(nick);
      this.cacheOff, this.digest, this.hash, this.env := cacheOff, digest, hash, env;
      this.cache, this.config, this.shown, this.log, faults := cache, config, {}, [], 0;
      seen := {Snapshot(hash, cache.disk, {}, config)};
    }

    ghost function Now(): Snapshot
      reads this`hash, this`cache, this`shown, this`config
    {
      Snapshot(hash, cache.disk, shown, config)
    }

    /** The present token is safe with this process and with those after it. */
    ghost predicate Settled(current: string)
      reads this`cache, this`shown
    {
      current in shown || (Holds(cache.disk, name, current) && (cacheOff || Holds(cache.memory, name, current)))
    }

    /** In this state the old token is known if it was before; or the new one is, and the router has it. */
    ghost predicate Sound(s: Snapshot, before: Option<string>, current: Option<string>, token: string) {
      || (s.hash == before && (current.None? || Recoverable(s, name, current.value)))
      || (s.hash == Some(digest(token)) && Recoverable(s, name, token) && s.config == Some(token))
    }

    /** Every state since `was` is sound. */
    ghost predicate NeverLost(was: set<Snapshot>, before: Option<string>, current: Option<string>, token: string)
      reads this`hash, this`cache, this`shown, this`config, this`seen
    {
      && (forall s :: s in seen ==> s in was || Sound(s, before, current, token))
      && Sound(Now(), before, current, token)
    }

    /**
     Since `from`, the hash was set only after the router had the token, and the agent started only
     with a token the backend knew.
     */
    ghost predicate InOrder(from: nat, token: string)
      reads this`log
    {
      Ordered(log, from, token, digest)
    }

    /** A value goes into the cache; without a cache the operator is shown it. */
    method Save(key: string, token: string) returns (r: SetResult)
      modifies this`cache, this`shown, this`seen, this`faults
      ensures faults == if r == WriteFailed then old(faults) + 1 else old(faults)
      ensures cache == Stored(old(cache), key, token, r == Saved)
      ensures shown == if r == CacheDisabled then old(shown) + {token} else old(shown)
      ensures r == CacheDisabled <==> cacheOff
      ensures seen == old(seen) + {Now()}
    {
      if cacheOff {
        r := CacheDisabled;
        shown := shown + {token};
      } else if * {
        r := Saved;
      } else {
        r, faults := WriteFailed, faults + 1;
      }
      cache := Stored(cache, key, token, r == Saved);
      seen := seen + {Now()};
    }

    /** UPDATE users: reported done only if one row changed; it may be done and reported failed. */
    method UpdateHash(token: string, ghost from: nat) returns (ok: bool)
      requires InOrder(from, token) && Has(log, from, token)
      modifies this`hash, this`seen, this`log, this`faults
      ensures InOrder(from, token)
      ensures faults >= old(faults) && (!ok && old(hash).Some? ==> faults > old(faults))
      ensures hash == old(hash) || (old(hash).Some? && hash == Some(digest(token)))
      ensures ok ==> hash == Some(digest(token))
      ensures hash != old(hash) ==> log == old(log) + [HashSet(digest(token))]
      ensures seen == old(seen) + {Now()}
    {
      ok := false;
      if hash.Some? {
        if * {
          hash := Some(digest(token));
          OrderedNext(log, from, token, digest, HashSet(digest(token)));
          log := log + [HashSet(digest(token))];
          if * {
            ok := true;
          }
        }
        faults := if ok then faults else faults + 1;
      }
      seen := seen + {Now()};
    }

    /** The bootstrap script on the router: the configuration is replaced by one rename, the start comes last. */
    method Bootstrap(token: string, deferStart: bool, ghost from: nat) returns (ok: bool)
      requires InOrder(from, token)
      requires deferStart || hash == Some(digest(token))
      modifies this`config, this`log, this`seen, this`faults
      ensures InOrder(from, token)
      ensures faults >= old(faults) && (!ok ==> faults > old(faults))
      ensures faults == old(faults) && !deferStart ==> Started(token, hash) in log
      ensures seen == old(seen) + {Now()}
      ensures ok ==> config == Some(token) && Has(log, from, token)
      ensures config == old(config) || config == Some(token)
    {
      ok := false;
      if * {
        config := Some(token);
        if !deferStart {
          if * {
            OrderedNext(log, from, token, digest, Started(token, hash));
            log := log + [Started(token, hash)];
            assert log[|log| - 1] == Started(token, hash);
          } else {
            faults := faults + 1;
          }
        }
        if * {
          ok := true;
          OrderedNext(log, from, token, digest, Bootstrapped(token));
          log := log + [Bootstrapped(token)];
        }
      }
      faults := if ok then faults else faults + 1;
      seen := seen + {Now()};
    }

    /** The start script: the agent comes up with the token in its configuration. */
    method Start(token: string, ghost from: nat) returns (ok: bool)
      requires config == Some(token) && hash == Some(digest(token)) && InOrder(from, token)
      modifies this`log, this`faults
      ensures InOrder(from, token)
      ensures faults == if ok then old(faults) else old(faults) + 1
      ensures ok ==> Started(token, hash) in log
    {
      ok := false;
      if * {
        var e := Started(config.value, hash);
        OrderedNext(log, from, token, digest, e);
        log := log + [e];
        assert log[|log| - 1] == e;
        if * {
          ok := true;
        }
      }
      faults := if ok then faults else faults + 1;
    }

    /** Ask for access, probe, bootstrap; the operator may correct the access or retry, `patience` times. */
    method BootstrapUntilDone(token: string, deferStart: bool, patience: nat, ghost from: nat)
      returns (r: Option<Outcome>)
      requires InOrder(from, token)
      requires deferStart || hash == Some(digest(token))
      modifies this`config, this`log, this`seen, this`faults
      ensures faults >= old(faults) && (patience > 0 && r.Some? ==> faults > old(faults))
      ensures faults == old(faults) && r.None? && !deferStart ==> Started(token, hash) in log
      ensures forall s :: s in seen ==> s in old(seen) || (s.hash == hash && s.disk == cache.disk && s.shown == shown)
      ensures InOrder(from, token)
      ensures r.None? ==> config == Some(token) && Has(log, from, token)
      ensures r.Some? ==> r.value == Failed || r.value == Deferred
      ensures config == old(config) || config == Some(token)
    {
      var left := patience;
      while left > 0
        invariant InOrder(from, token)
        invariant forall s :: s in seen ==>
                    s in old(seen) || (s.hash == hash && s.disk == cache.disk && s.shown == shown)
        invariant config == old(config) || config == Some(token)
        invariant faults >= old(faults) && (left < patience ==> faults > old(faults))
      {
        if * { // cancelled at the prompt
          faults := faults + 1;
          return Some(Failed);
        }
        if * { // the probe, the release or its checksums are not to be had
          faults := faults + 1;
          if * {
            return Some(Failed);
          } else if * {
            return Some(Deferred);
          }
        } else {
          var ok := Bootstrap(token, deferStart, from);
          if ok {
            return None;
          }
          if * {
            return Some(Failed);
          } else if * {
            return Some(Deferred);
          }
        }
        left := left - 1;
      }
      return Some(Failed);
    }

    /** Phase two: the hash, then the token under its own name. */
    method Commit(token: string, ghost from: nat, ghost current: Option<string>) returns (committed: bool)
      requires Recoverable(Now(), name, token) && config == Some(token)
      requires current.Some? ==> Recoverable(Now(), name, current.value)
      requires InOrder(from, token) && Has(log, from, token)
      modifies this`hash, this`cache, this`shown, this`seen, this`log, this`faults
      ensures InOrder(from, token)
      ensures faults >= old(faults) && (!committed && old(hash).Some? ==> faults > old(faults))
      ensures committed ==> hash == Some(digest(token)) && Settled(token)
      ensures NeverLost(old(seen), old(hash), current, token)
    {
      var updated := UpdateHash(token, from);
      if !updated {
        return false;
      }
      assert StagedName(name) != name by {
        assert |StagedName(name)| > |name|;
      }
      var saved := Save(name, token);
      return saved != WriteFailed;
    }

    /** The token becomes the process's own and goes into the cache under the staged name. */
    method Stage(token: string, ghost current: Option<string>) returns (ok: bool)
      requires current.Some? ==> Settled(current.value)
      modifies this`env, this`cache, this`shown, this`seen, this`faults
      ensures faults == if ok then old(faults) else old(faults) + 1
      ensures env == Some(token)
      ensures ok ==> Recoverable(Now(), name, token)
      ensures current.Some? ==> Settled(current.value)
      ensures NeverLost(old(seen), hash, current, token)
    {
      env := Some(token);
      assert StagedName(name) != name by {
        assert |StagedName(name)| > |name|;
      }
      var staged := Save(StagedName(name), token);
      ok := staged != WriteFailed;
    }

    /** The second half: commit, then start. */
    method CommitAndStart(token: string, heard: bool, ghost from: nat, ghost current: Option<string>)
      returns (r: Outcome)
      requires Recoverable(Now(), name, token) && config == Some(token)
      requires current.Some? ==> Recoverable(Now(), name, current.value)
      requires InOrder(from, token) && Has(log, from, token)
      modifies this`hash, this`cache, this`shown, this`seen, this`log, this`faults
      ensures faults >= old(faults)
      ensures old(hash).Some? && faults == old(faults) ==> r == if heard then Done else Unconfirmed
      ensures r == Done ==> heard
      ensures r in {CommitFailed, StartFailed, Unconfirmed, Done}
      ensures r != CommitFailed ==> hash == Some(digest(token)) && Settled(token)
      ensures r == Unconfirmed || r == Done ==> Started(token, hash) in log
      ensures InOrder(from, token)
      ensures NeverLost(old(seen), old(hash), current, token)
    {
      var committed := Commit(token, from, current);
      if !committed {
        return CommitFailed;
      }
      var up := Start(token, from);
      if !up {
        return StartFailed;
      }
      r := Done;
      if !heard {
        r := Unconfirmed;
      }
    }

    /**
     The two-phase way, from a fresh token on. `heard`: the agent is heard of in time; `current` is the agent's
     present token, if known to be settled.
     */
    method TwoPhase(token: string, patience: nat, heard: bool, ghost current: Option<string>) returns (r: Outcome)
      requires current.Some? ==> Settled(current.value)
      modifies this
      ensures r in {NotStaged, Failed, Deferred, CommitFailed, StartFailed, Unconfirmed, Done}
      // Only a commit changes the hash, to that of a token the router already has; the agent starts after it.
      ensures r in {NotStaged, Failed, Deferred} ==> hash == old(hash)
      ensures r in {StartFailed, Unconfirmed, Done} ==> hash == Some(digest(token)) && config == Some(token)
      ensures r in {Unconfirmed, Done} ==> Started(token, hash) in log
      ensures InOrder(|old(log)|, token)
      // At no moment is the token whose hash the backend has nowhere to be found.
      ensures NeverLost(old(seen), old(hash), current, token)
      ensures r in {NotStaged, Failed, Deferred} && current.Some? ==> Settled(current.value)
      ensures r in {StartFailed, Unconfirmed, Done} ==> Settled(token)
      // The process forgets the token unless it was committed; but not when staging it failed.
      ensures r in {Failed, Deferred, CommitFailed} ==> env == old(env)
      ensures r in {NotStaged, StartFailed, Unconfirmed, Done} ==> env == Some(token)
      // An agent the backend knows gets its token unless something fails.
      ensures faults >= old(faults)
      ensures old(hash).Some? && patience > 0 && faults == old(faults) ==> r == if heard then Done else Unconfirmed
      ensures r == Done ==> heard
    {
      ghost var from := |log|;
      var oldEnv := env;
      var staged := Stage(token, current);
      if !staged {
        return NotStaged;
      }
      var stopped := BootstrapUntilDone(token, true, patience, from);
      if stopped.Some? {
        env := oldEnv;
        return stopped.value;
      }
      r := CommitAndStart(token, heard, from, current);
      if r == CommitFailed {
        env := oldEnv;
      }
    }

    /** A new wizard process: it knows what the cache file holds. */
    method Reopen(env: Option<string>)
      modifies this`env, this`cache
      ensures this.env == env
      ensures cache == Cache(if cacheOff then map[] else old(cache).disk, old(cache).disk)
    {
      this.env := env;
      cache := Cache(if cacheOff then map[] else cache.disk, cache.disk);
    }

    /**
     Any number of installs, in one process or in several, up to and with the first commit that
     breaks off: the token whose hash the backend has can always be found again.
     */
    method Installs(tokens: seq<string>, patience: nat, ghost current: string) returns (halfway: bool)
      requires hash == Some(digest(current)) && Settled(current) && Recoverable(Now(), name, current)
      modifies this
      ensures forall s :: s in seen ==> s in old(seen) || Findable(s, {current} + set t | t in tokens)
      ensures !halfway ==> Findable(Now(), {current} + set t | t in tokens)
      // Nothing failing, the last token is the one the backend knows.
      ensures tokens != [] && patience > 0 && faults == old(faults) ==>
                !halfway && hash == Some(digest(tokens[|tokens| - 1]))
    {
      ghost var all := {current} + set t | t in tokens;
      ghost var present := current;
      halfway := false;
      for i := 0 to |tokens|
        invariant present in all && hash == Some(digest(present)) && Settled(present)
        invariant forall s :: s in seen ==> s in old(seen) || Findable(s, all)
        invariant faults >= old(faults)
        invariant i > 0 && patience > 0 && faults == old(faults) ==> present == tokens[i - 1]
      {
        if * {
          Reopen(None);
        }
        ghost var before := hash;
        var heard: bool := *;
        var r := TwoPhase(tokens[i], patience, heard, Some(present));
        assert forall s :: Sound(s, before, Some(present), tokens[i]) ==> Findable(s, all);
        if r == CommitFailed {
          return true;
        }
        if r in {StartFailed, Unconfirmed, Done} {
          present := tokens[i];
        }
      }
    }

    /** The hash is that of one of these tokens, which can be found again. */
    ghost predicate Findable(s: Snapshot, tokens: set<string>) {
      exists t :: t in tokens && s.hash == Some(digest(t)) && Recoverable(s, name, t)
    }

    /**
     The one-phase way: the backend chooses the token and knows its hash at once. Every later exit
     has the token on disk or shown, except that a cache that cannot be written loses it.
     */
    method OnePhase(token: string, patience: nat, heard: bool) returns (r: Outcome)
      modifies this
      ensures r in {Refused, NotSaved, Failed, Deferred, Unconfirmed, Done}
      ensures r != Refused ==> hash == Some(digest(token))
      ensures r in {Failed, Deferred, Unconfirmed, Done} ==> Settled(token) && env == Some(token)
      ensures r in {Unconfirmed, Done} ==> config == Some(token)
      ensures faults >= old(faults)
      ensures patience > 0 && faults == old(faults) ==> r == if heard then Done else Unconfirmed
      ensures r == Done ==> heard
      ensures (r == Done || r == Unconfirmed) && faults == old(faults) ==> Started(token, hash) in log
      ensures r == NotSaved ==> cache.disk == old(cache.disk) && shown == old(shown) && env == old(env)
      ensures InOrder(|old(log)|, token)
    {
      ghost var from := |log|;
      if * {
        faults := faults + 1;
        return Refused;
      }
      hash := Some(digest(token));
      seen := seen + {Now()};
      if * { // the answer was lost
        faults := faults + 1;
        return Refused;
      }
      var saved := Save(name, token);
      if saved == WriteFailed {
        return NotSaved;
      }
      env := Some(token);
      var stopped := BootstrapUntilDone(token, false, patience, from);
      if stopped.Some? {
        return stopped.value;
      }
      r := Done;
      if !heard {
        r := Unconfirmed;
      }
    }

    /** The token this process would use: the environment's, else the cache's. */
    function TokenInUse(): string
      reads this`env, this`cache
    {
      if env.Some? && env.value != [] then env.value
      else if name in cache.memory then cache.memory[name] else []
    }

    /**
     The agent has a name and is known: it was deployed, or the environment has a token for it, or, if that has none at
     all, the cache has one. Tokens of white space are none.
     */
    ghost predicate Known(version: string)
      reads this`env, this`cache
    {
      && TrimSpace(nick) != []
      && (|| TrimSpace(version) != []
          || (env.Some? && TrimSpace(env.value) != [])
          || ((env.None? || env.value == []) && name in cache.memory && TrimSpace(cache.memory[name]) != []))
    }

    /** A known agent is never enrolled anew: it gets its token in two phases, any other in one. */
    method Enrol(version: string, token: string, patience: nat, heard: bool) returns (r: Outcome)
      modifies this
      ensures old(Known(version)) ==>
                && (r in {Refused, NotStaged, Failed, Deferred} ==> hash == old(hash))
                && (old(hash).None? ==> r == Refused)
                && NeverLost(old(seen), old(hash), None, token)
      ensures r in {StartFailed, Unconfirmed, Done} ==>
                hash == Some(digest(token)) && Settled(token) && config == Some(token)
      ensures InOrder(|old(log)|, token)
      ensures !old(Known(version)) ==> r in {Refused, NotSaved, Failed, Deferred, Unconfirmed, Done}
      ensures faults >= old(faults)
      ensures patience > 0 && faults == old(faults) ==>
                r == if old(Known(version)) && old(hash).None? then Refused else if heard then Done else Unconfirmed
      ensures r == Done ==> heard
      ensures (r == Done || r == Unconfirmed) && faults == old(faults) ==> Started(token, hash) in log
    {
      if TrimSpace(nick) != [] && (TrimSpace(version) != [] || TrimSpace(TokenInUse()) != []) {
        if hash.None? {
          return Refused;
        }
        if * { // the backend cannot be asked
          faults := faults + 1;
          return Refused;
        }
        r := TwoPhase(token, patience, heard, None);
      } else {
        r := OnePhase(token, patience, heard);
      }
    }
  }
}
