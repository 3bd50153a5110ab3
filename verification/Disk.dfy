/**
 A file system that may fail, or lose power, at any step.

 `Disk` is one directory tree seen as a map from names to whole file contents. Every
 command is a method that may fail; which ones do is left open, so what is proved of
 a caller holds for every pattern of failures. Two fields record what the caller
 cannot see: `seen` holds every state in which power could have been lost, half-written
 files included, as far as finished commands are durable; `faults` counts the failures
 that were injected.
 */
module Disk {

  newtype Byte = x: int | 0 <= x < 256

  type Bytes = seq<Byte>

  datatype Option<+T> = None | Some(value: T)

  type Files<!Name> = map<Name, Bytes>

  /** What a name holds, `None` when there is no such file. */
  function At<Name>(files: Files<Name>, name: Name): Option<Bytes> {
    if name in files then Some(files[name]) else None
  }

  /** Bytes taken by one name. */
  function SizeAt<Name>(files: Files<Name>, name: Name): nat {
    if name in files then |files[name]| else 0
  }

  /** `s` is `files` while `body` is being written over `name`: any prefix may be there. */
  ghost predicate Writing<Name(!new)>(s: Files<Name>, files: Files<Name>, name: Name, body: Bytes) {
    name in s && s[name] <= body && s == files[name := s[name]]
  }

  /** `s` is `files` with some, all or none of `names` removed. */
  ghost predicate Removing<Name(!new)>(s: Files<Name>, files: Files<Name>, names: set<Name>) {
    && (forall n :: n in s ==> n in files && s[n] == files[n])
    && (forall n :: n in files && n !in names ==> n in s)
  }

  class Drive<Name(==,!new)> {
    var files: Files<Name>
    var seen: set<Files<Name>>
    ghost var faults: nat

    constructor (files: Files<Name>)
      ensures this.files == files && seen == {files} && faults == 0
    {
      this.files := files;
      seen := {files};
      faults := 0;
    }

    /** The state on disk is one that could be found after a power loss. */
    predicate Valid()
      reads this
    {
      files in seen
    }

    /** Start observing afresh from the present state. */
    method Observe()
      modifies this`seen
      ensures seen == {files}
    {
      seen := {files};
    }

    /** The commands were killed, or power was lost, at some moment of the observed run. */
    method CutOff()
      requires Valid()
      modifies this`files
      ensures Valid()
    {
      var s :| s in seen;
      files := s;
    }

    /** A command that changes no contents: cd, chmod, chown, test, mkdir -p. */
    method Check() returns (ok: bool)
      modifies this`faults
      ensures faults == if ok then old(faults) else old(faults) + 1
    {
      ok := true;
      if * {
        ok, faults := false, faults + 1;
      }
    }

    /** os.Stat: it may fail for another reason than a missing file, which `faithful` tells apart. */
    method Stat(name: Name) returns (there: bool, faithful: bool)
      modifies this`faults
      ensures there ==> name in files
      ensures faithful ==> (there <==> name in files) && faults == old(faults)
      ensures !faithful ==> !there && faults == old(faults) + 1
    {
      there, faithful := name in files, true;
      if * {
        there, faithful, faults := false, false, faults + 1;
      }
    }

    /** Write `body` over `name`; a failure may leave any prefix of it, or leave `name` alone. */
    method Write(name: Name, body: Bytes) returns (ok: bool)
      requires Valid()
      modifies this
      ensures Valid()
      ensures faults == if ok then old(faults) else old(faults) + 1
      ensures ok ==> files == old(files)[name := body]
      ensures !ok ==> files == old(files) || Writing(files, old(files), name, body)
      ensures forall s :: s in seen ==> s in old(seen) || Writing(s, old(files), name, body)
      ensures old(seen) <= seen
    {
      var before := files;
      if * {
        faults := faults + 1;
        return false;
      }
      seen := seen + set k | 0 <= k <= |body| :: before[name := body[..k]];
      if * {
        var k: nat :| k <= |body|;
        files := files[name := body[..k]];
        faults := faults + 1;
        return false;
      }
      files := files[name := body];
      assert body == body[..|body|];
      return true;
    }

    /** cp: as `Write`, of what `src` holds; without `src` it does nothing and fails. */
    method Copy(src: Name, dst: Name) returns (ok: bool)
      requires Valid() && src != dst
      modifies this
      ensures Valid()
      ensures src !in old(files) ==> !ok && files == old(files) && seen == old(seen) && faults == old(faults)
      ensures src in old(files) ==>
                && faults == (if ok then old(faults) else old(faults) + 1)
                && (ok ==> files == old(files)[dst := old(files)[src]])
                && (!ok ==> files == old(files) || Writing(files, old(files), dst, old(files)[src]))
                && forall s :: s in seen ==> s in old(seen) || Writing(s, old(files), dst, old(files)[src])
      ensures old(seen) <= seen
    {
      if src !in files {
        return false;
      }
      ok := Write(dst, files[src]);
    }

    /** mv -f, os.Rename: all at once or not at all. */
    method Rename(src: Name, dst: Name) returns (ok: bool)
      requires Valid() && src != dst
      modifies this
      ensures Valid()
      ensures src !in old(files) ==> !ok && files == old(files) && faults == old(faults)
      ensures src in old(files) ==> faults == if ok then old(faults) else old(faults) + 1
      ensures ok ==> src in old(files) && files == (old(files) - {src})[dst := old(files)[src]]
      ensures !ok ==> files == old(files)
      ensures seen == old(seen) + {files}
    {
      ok := src in files;
      if ok {
        if * {
          ok, faults := false, faults + 1;
        } else {
          files := (files - {src})[dst := files[src]];
        }
      }
      seen := seen + {files};
    }

    /** rm -f, os.Remove with a missing file accepted. */
    method Remove(name: Name) returns (ok: bool)
      requires Valid()
      modifies this
      ensures Valid()
      ensures faults == if ok then old(faults) else old(faults) + 1
      ensures files == if ok then old(files) - {name} else old(files)
      ensures seen == old(seen) + {files}
    {
      ok := true;
      if * {
        ok, faults := false, faults + 1;
      } else {
        files := files - {name};
      }
      seen := seen + {files};
    }

    /** rm -rf of a directory holding `names`: they go in no promised order, and a failure may keep any of them. */
    method RemoveTree(names: set<Name>) returns (ok: bool)
      requires Valid()
      modifies this
      ensures Valid()
      ensures faults == if ok then old(faults) else old(faults) + 1
      ensures Removing(files, old(files), names)
      ensures ok ==> files == old(files) - names
      ensures names == {} ==> ok
      ensures forall s :: s in seen ==> s in old(seen) || Removing(s, old(files), names)
      ensures old(seen) <= seen
    {
      ghost var before := files;
      var left := names;
      while left != {}
        invariant left <= names
        invariant files == before - (names - left)
        invariant Valid() && old(seen) <= seen
        invariant forall s :: s in seen ==> s in old(seen) || Removing(s, before, names)
        invariant faults == old(faults)
        decreases left
      {
        if * {
          faults := faults + 1;
          return false;
        }
        var n :| n in left;
        files, left := files - {n}, left - {n};
        seen := seen + {files};
      }
      assert names - left == names;
      return true;
    }
  }
}
