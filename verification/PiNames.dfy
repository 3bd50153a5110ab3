/**
 The strings the restore script uses for its files, and that no two files share one.
 */
module PiNames {
  import opened PiFiles

  const DATA := "data/"
  const TMP := "data/restore-tmp/"
  const DB := "state.db"
  const WAL := "-wal"
  const SHM := "-shm"
  const JSON := ".json"
  const BAK := ".bak."
  const RB := ".rb."

  /** A stamp as `time.Format` writes it: 20060102T150405Z. */
  predicate IsStamp(ts: string) {
    |ts| == 16 && ts[15] == 'Z' && '/' !in ts
  }

  /** The name of a store: one plain component that ends in .json. */
  predicate IsStore(name: string) {
    |name| > |JSON| && name[|name| - |JSON|..] == JSON && '/' !in name
  }

  predicate Plain(f: File) {
    f.Store? ==> IsStore(f.name)
  }

  function FileName(f: File): string {
    match f
    case Db => DB
    case Wal => DB + WAL
    case Shm => DB + SHM
    case Store(name) => name
  }

  /** The script's string for a name; what is elsewhere has its own. */
  function PathOf(n: PiName, ts: string): string {
    match n
    case Live(f) => DATA + FileName(f)
    case Staged(f) => TMP + FileName(f)
    case Rb(f) => DATA + FileName(f) + RB + ts
    case Bak(Wal) => DATA + DB + BAK + ts + WAL
    case Bak(Shm) => DATA + DB + BAK + ts + SHM
    case Bak(f) => DATA + FileName(f) + BAK + ts
    case Elsewhere(path) => path
  }

  predicate Restored(n: PiName) {
    !n.Elsewhere? && Plain(n.file)
  }

  /** The file names all end differently, or as stores. */
  lemma FileNamesDiffer(f: File, g: File)
    requires Plain(f) && Plain(g)
    ensures FileName(f) == FileName(g) ==> f == g
    ensures FileName(f) != [] && '/' !in FileName(f)
    ensures FileName(f)[|FileName(f)| - 1] in {'b', 'l', 'm', 'n'}
  {
    LastOfName(f);
    LastOfName(g);
  }

  lemma LastOfName(f: File)
    requires Plain(f)
    ensures var s := FileName(f);
            && s != [] && '/' !in s
            && s[|s| - 1] == match f { case Db => 'b' case Wal => 'l' case Shm => 'm' case Store(_) => 'n' }
  {
    if f.Store? {
      var tail := f.name[|f.name| - |JSON|..];
      assert tail[4] == f.name[|f.name| - 1];
    }
  }

  lemma Cancel(p: string, a: string, b: string, s: string)
    ensures p + a + s == p + b + s <==> a == b
  {
    if p + a + s == p + b + s {
      assert |a| == |b|;
      assert (p + a + s)[|p|..|p| + |a|] == a && (p + b + s)[|p|..|p| + |b|] == b;
    }
  }

  lemma CancelPrefix(p: string, a: string, b: string)
    ensures p + a == p + b <==> a == b
  {
    if p + a == p + b {
      assert (p + a)[|p|..] == a && (p + b)[|p|..] == b;
    }
  }

  lemma EndsInStamp(front: string, mark: string, ts: string)
    requires IsStamp(ts) && |mark| > 1
    ensures var p := front + mark + ts;
            p[|p| - 1] == 'Z' && p[|p| - 18] == mark[|mark| - 2]
  {
  }

  lemma NoSlash(a: string, b: string)
    requires '/' !in a && '/' !in b
    ensures '/' !in a + b
  {
  }

  /** A path below data/ itself, by what follows that. */
  predicate Flat(p: string) {
    |p| >= |DATA| && '/' !in p[|DATA|..]
  }

  lemma IsFlat(rest: string)
    requires '/' !in rest
    ensures Flat(DATA + rest)
  {
    assert (DATA + rest)[|DATA|..] == rest;
  }

  lemma StagedIsNotFlat(f: File, ts: string)
    ensures !Flat(PathOf(Staged(f), ts))
  {
    var p := PathOf(Staged(f), ts);
    assert p[16] == TMP[16] == '/' && p[|DATA|..][11] == p[16];
  }

  lemma LiveMarks(f: File, ts: string)
    requires Plain(f)
    ensures var p := PathOf(Live(f), ts);
            Flat(p) && p[|p| - 1] == FileName(f)[|FileName(f)| - 1] && |p| == |DATA| + |FileName(f)|
  {
    FileNamesDiffer(f, f);
    IsFlat(FileName(f));
  }

  lemma RbMarks(f: File, ts: string)
    requires Plain(f) && IsStamp(ts)
    ensures var p := PathOf(Rb(f), ts);
            Flat(p) && p[|p| - 1] == 'Z' && p[|p| - 18] == 'b'
  {
    FileNamesDiffer(f, f);
    EndsInStamp(DATA + FileName(f), RB, ts);
    NoSlash(FileName(f), RB);
    NoSlash(FileName(f) + RB, ts);
    IsFlat(FileName(f) + RB + ts);
    assert DATA + FileName(f) + RB + ts == DATA + (FileName(f) + RB + ts);
  }

  lemma BakMarks(f: File, ts: string)
    requires Plain(f) && IsStamp(ts) && f != Wal && f != Shm
    ensures var p := PathOf(Bak(f), ts);
            Flat(p) && p[|p| - 1] == 'Z' && p[|p| - 18] == 'k'
  {
    FileNamesDiffer(f, f);
    EndsInStamp(DATA + FileName(f), BAK, ts);
    NoSlash(FileName(f), BAK);
    NoSlash(FileName(f) + BAK, ts);
    IsFlat(FileName(f) + BAK + ts);
    assert DATA + FileName(f) + BAK + ts == DATA + (FileName(f) + BAK + ts);
  }

  lemma SideBakMarks(f: File, ts: string)
    requires IsStamp(ts) && (f == Wal || f == Shm)
    ensures var p := PathOf(Bak(f), ts);
            Flat(p) && |p| == 38 && p[37] == if f == Wal then 'l' else 'm'
  {
    var side := if f == Wal then WAL else SHM;
    var front := DB + BAK + ts;
    NoSlash(DB + BAK, ts);
    NoSlash(front, side);
    IsFlat(front + side);
    assert PathOf(Bak(f), ts) == DATA + (front + side);
    assert |front + side| == 33 && (front + side)[32] == side[3];
  }

  /** The sorts of names, as their strings tell them apart. */
  function Sort(n: PiName): nat
    requires !n.Elsewhere?
  {
    match n
    case Staged(_) => 0
    case Live(_) => 1
    case Rb(_) => 2
    case Bak(f) => if f == Wal || f == Shm then 4 else 3
  }

  function SortOf(p: string): nat {
    if !Flat(p) then 0
    else if |p| == 38 && p[37] in {'l', 'm'} then 4
    else if |p| >= 18 && p[|p| - 1] == 'Z' then (if p[|p| - 18] == 'k' then 3 else 2)
    else 1
  }

  lemma SortIsVisible(n: PiName, ts: string)
    requires Restored(n) && IsStamp(ts)
    ensures SortOf(PathOf(n, ts)) == Sort(n)
  {
    match n
    case Staged(f) => StagedIsNotFlat(f, ts);
    case Live(f) =>
      LiveMarks(f, ts);
      LastOfName(f);
    case Rb(f) => RbMarks(f, ts);
    case Bak(f) =>
      if f == Wal || f == Shm {
        SideBakMarks(f, ts);
      } else {
        BakMarks(f, ts);
      }
  }

  /** No two names of one restore are the same string. */
  lemma PathsDiffer(a: PiName, b: PiName, ts: string)
    requires Restored(a) && Restored(b) && IsStamp(ts)
    ensures PathOf(a, ts) == PathOf(b, ts) <==> a == b
  {
    SortIsVisible(a, ts);
    SortIsVisible(b, ts);
    if PathOf(a, ts) == PathOf(b, ts) {
      FileNamesDiffer(a.file, b.file);
      match a
      case Staged(_) => CancelPrefix(TMP, FileName(a.file), FileName(b.file));
      case Live(_) => CancelPrefix(DATA, FileName(a.file), FileName(b.file));
      case Rb(_) => CancelBoth(FileName(a.file), FileName(b.file), RB, ts);
      case Bak(_) =>
        if Sort(a) == 4 {
          SideBakMarks(a.file, ts);
          SideBakMarks(b.file, ts);
        } else {
          CancelBoth(FileName(a.file), FileName(b.file), BAK, ts);
        }
    }
  }

  lemma CancelBoth(a: string, b: string, mark: string, ts: string)
    requires DATA + a + mark + ts == DATA + b + mark + ts
    ensures a == b
  {
    assert DATA + a + mark + ts == DATA + a + (mark + ts) && DATA + b + mark + ts == DATA + b + (mark + ts);
    Cancel(DATA, a, b, mark + ts);
  }
}
