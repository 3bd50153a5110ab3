/**
 Unpacking a backup archive into a directory: which members are accepted, what is there after
 an error, and how much can be written. Decryption, gzip and tar are a list of members that may break off.
 */
module Extract {
  import opened Disk

  const MAX_INT64: int := 0x7FFF_FFFF_FFFF_FFFF
  const TWO_TO_64: int := 0x1_0000_0000_0000_0000

  /** int64 addition of two values in range wraps around. */
  function WrapAdd(a: int, b: int): int {
    var s := a + b;
    if s > MAX_INT64 then s - TWO_TO_64 else s
  }

  type Size = n: nat | n <= MAX_INT64

  /** A tar entry: `declared` is the size in its header; the data may break off before that. */
  datatype Item = Item(name: string, regular: bool, declared: Size, body: Bytes, whole: bool)

  /** The decrypted stream: its entries, whether reading breaks off after them, whether the rest checks out. */
  datatype Archive = Archive(items: seq<Item>, broken: bool, tailOk: bool)

  /** filepath.Base */
  function Base(name: string): string {
    if name == [] then "."
    else if name[|name| - 1] == '/' then (if |name| == 1 then "/" else Base(name[..|name| - 1]))
    else LastPart(name)
  }

  function LastPart(name: string): string {
    if name == [] || name[|name| - 1] == '/' then [] else LastPart(name[..|name| - 1]) + [name[|name| - 1]]
  }

  /** The check on a member's name. */
  predicate Suspect(name: string) {
    name == [] || name != Base(name) || name[0] == '.' || '/' in name || '\\' in name
  }

  /** It refuses exactly the names that are not one plain path component, hidden ones included. */
  lemma {:induction false} SuspectNames(name: string)
    ensures Suspect(name) <==> name == [] || name[0] == '.' || '/' in name || '\\' in name
  {
    if name != [] && '/' !in name {
      LastPartOfPlain(name);
    }
  }

  lemma {:induction false} LastPartOfPlain(name: string)
    requires '/' !in name
    ensures LastPart(name) == name
  {
    if name != [] {
      LastPartOfPlain(name[..|name| - 1]);
    }
  }

  /* ------------------------------------------------------------- the size limit */

  function Sum(sizes: seq<Size>): nat {
    if sizes == [] then 0 else Sum(sizes[..|sizes| - 1]) + sizes[|sizes| - 1]
  }

  /** The counter of the loop: a wrapping sum. */
  function Total(sizes: seq<Size>): int {
    if sizes == [] then 0 else WrapAdd(Total(sizes[..|sizes| - 1]), sizes[|sizes| - 1])
  }

  /** The check after each member passes. */
  ghost predicate PassesLimit(sizes: seq<Size>, limit: Size) {
    forall n :: 0 <= n <= |sizes| ==> Within(sizes, n, limit)
  }

  ghost predicate Within(sizes: seq<Size>, n: nat, limit: Size)
    requires n <= |sizes|
  {
    limit == 0 || Total(sizes[..n]) <= limit
  }

  /** Some member takes the sum from within the limit to beyond int64. */
  ghost predicate Overflows(sizes: seq<Size>, limit: Size) {
    exists k :: 0 <= k < |sizes| && Sum(sizes[..k]) <= limit && Sum(sizes[..k + 1]) > MAX_INT64
  }

  lemma {:induction false} SumGrows(sizes: seq<Size>, k: nat)
    requires k <= |sizes|
    ensures Sum(sizes[..k]) <= Sum(sizes)
  {
    if k == |sizes| {
      assert sizes[..k] == sizes;
    } else {
      SumGrows(sizes[..|sizes| - 1], k);
      assert sizes[..|sizes| - 1][..k] == sizes[..k];
    }
  }

  lemma PassesFront(sizes: seq<Size>, limit: Size)
    requires sizes != [] && PassesLimit(sizes, limit)
    ensures PassesLimit(sizes[..|sizes| - 1], limit)
  {
    var front := sizes[..|sizes| - 1];
    forall n | 0 <= n <= |front| ensures Within(front, n, limit) {
      assert Within(sizes, n, limit) && front[..n] == sizes[..n];
    }
  }

  lemma OverflowsFront(sizes: seq<Size>, limit: Size)
    requires sizes != [] && Overflows(sizes[..|sizes| - 1], limit)
    ensures Overflows(sizes, limit)
  {
    var front := sizes[..|sizes| - 1];
    var k :| 0 <= k < |front| && Sum(front[..k]) <= limit && Sum(front[..k + 1]) > MAX_INT64;
    assert front[..k] == sizes[..k] && front[..k + 1] == sizes[..k + 1];
  }

  lemma {:induction false} NoOverflowNoExcess(sizes: seq<Size>, limit: Size)
    requires limit > 0 && PassesLimit(sizes, limit) && !Overflows(sizes, limit)
    ensures Total(sizes) == Sum(sizes) <= limit
  {
    if sizes != [] {
      var n := |sizes| - 1;
      var front := sizes[..n];
      PassesFront(sizes, limit);
      if Overflows(front, limit) {
        OverflowsFront(sizes, limit);
      }
      NoOverflowNoExcess(front, limit);
      assert sizes[..n + 1] == sizes && Within(sizes, n + 1, limit);
    }
  }

  /** Members that pass the check are within the limit exactly when none of them took the sum beyond int64. */
  lemma LimitHoldsIff(sizes: seq<Size>, limit: Size)
    requires limit > 0 && PassesLimit(sizes, limit)
    ensures Sum(sizes) <= limit <==> !Overflows(sizes, limit)
  {
    if Overflows(sizes, limit) {
      var k :| 0 <= k < |sizes| && Sum(sizes[..k]) <= limit && Sum(sizes[..k + 1]) > MAX_INT64;
      SumGrows(sizes, k + 1);
    } else {
      NoOverflowNoExcess(sizes, limit);
    }
  }

  /** One declared size near the end of int64 is enough to pass a limit of ten bytes. */
  lemma LimitCanBePassed()
    ensures PassesLimit([5, MAX_INT64], 10) && Sum([5, MAX_INT64]) > 10
  {
    var sizes: seq<Size> := [5, MAX_INT64];
    assert sizes[..0] == [] && sizes[..1] == [5] && sizes[..2] == sizes;
    assert Total([5]) == 5;
    forall n | 0 <= n <= 2 ensures Within(sizes, n, 10) {
      assert n == 0 || n == 1 || n == 2;
    }
  }

  /** Members whose declared sizes stay below the gap are within the limit if they pass the check. */
  lemma SmallSizesKeepLimit(sizes: seq<Size>, limit: Size)
    requires limit > 0 && PassesLimit(sizes, limit)
    requires forall k :: 0 <= k < |sizes| ==> sizes[k] <= MAX_INT64 - limit
    ensures Sum(sizes) <= limit
  {
    forall k | 0 <= k < |sizes| && Sum(sizes[..k]) <= limit ensures Sum(sizes[..k + 1]) <= MAX_INT64 {
      assert sizes[..k + 1][..k] == sizes[..k];
    }
    LimitHoldsIff(sizes, limit);
  }

  /* ------------------------------------------------------------------ extraction */

  datatype Error =
    | BrokenTar | SuspectPath(name: string) | DuplicateMember(name: string) | TooLarge
    | CannotCreate(name: string) | CannotExtract(name: string) | BadTail

  /** The regular members, in order. */
  function Members(items: seq<Item>): seq<Item> {
    if items == [] then []
    else
      var rest := Members(items[..|items| - 1]);
      if items[|items| - 1].regular then rest + [items[|items| - 1]] else rest
  }

  function Names(members: seq<Item>): seq<string> {
    seq(|members|, i requires 0 <= i < |members| => members[i].name)
  }

  function Sizes(members: seq<Item>): seq<Size> {
    seq(|members|, i requires 0 <= i < |members| => members[i].declared)
  }

  /** `files` with the members written into it. */
  function Unpacked(files: Files<string>, members: seq<Item>): Files<string> {
    if members == [] then files
    else Unpacked(files, members[..|members| - 1])[members[|members| - 1].name := members[|members| - 1].body]
  }

  ghost predicate Distinct(names: seq<string>) {
    forall i, j :: 0 <= i < j < |names| ==> names[i] != names[j]
  }

  /** Each name is plain and comes once, and they are just the files that came to `before`. */
  ghost predicate JustThese(names: seq<string>, before: Files<string>, after: Files<string>) {
    && Distinct(names)
    && (forall n :: n in names ==> !Suspect(n) && n !in before && n in after)
    && (forall n :: n in after && n !in names ==> n in before)
    && (forall n :: n in before ==> n in after && after[n] == before[n])
  }

  /** O_CREATE|O_EXCL: there is a new empty file, or nothing has changed. */
  method CreateNew(d: Drive<string>, name: string) returns (ok: bool)
    requires d.Valid()
    modifies d
    ensures d.Valid()
    ensures ok ==> name !in old(d.files) && d.files == old(d.files)[name := []]
    ensures !ok ==> d.files == old(d.files)
    ensures !ok ==> name in old(d.files) || d.faults > old(d.faults)
    ensures d.faults >= old(d.faults) && (ok ==> d.faults == old(d.faults))
  {
    if name in d.files {
      return false;
    }
    ok := d.Check();
    if ok {
      d.files := d.files[name := []];
      d.seen := d.seen + {d.files};
    }
  }

  /** Copy the member's data into its file. */
  method Fill(d: Drive<string>, item: Item) returns (ok: bool)
    requires d.Valid() && item.name in d.files
    modifies d
    ensures d.Valid()
    ensures ok ==> item.whole && d.files == old(d.files)[item.name := item.body]
    ensures !ok ==> item.name in d.files && d.files - {item.name} == old(d.files) - {item.name}
    ensures !ok ==> !item.whole || d.faults > old(d.faults)
    ensures d.faults >= old(d.faults) && (ok ==> d.faults == old(d.faults))
  {
    ok := d.Write(item.name, item.body);
    ok := ok && item.whole;
  }

  method ExtractMember(d: Drive<string>, item: Item) returns (made: bool, filled: bool)
    requires d.Valid()
    modifies d
    ensures d.Valid() && d.faults >= old(d.faults)
    ensures made ==> item.name !in old(d.files) && item.name in d.files && d.files - {item.name} == old(d.files)
    ensures !made ==> d.files == old(d.files) && !filled && (item.name in d.files || d.faults > old(d.faults))
    ensures filled ==> d.faults == old(d.faults)
    ensures filled ==> item.whole && d.files == old(d.files)[item.name := item.body]
    ensures made && !filled ==> !item.whole || d.faults > old(d.faults)
  {
    filled := false;
    made := CreateNew(d, item.name);
    if made {
      filled := Fill(d, item);
    }
  }

  /** What extraction promises of the names it returns, on success and on every error. */
  ghost predicate Created(
    items: seq<Item>, limit: Size, names: seq<string>, before: Files<string>, after: Files<string>)
  {
    && |names| <= |Members(items)| && names == Names(Members(items))[..|names|]
    && JustThese(names, before, after)
    && PassesLimit(Sizes(Members(items))[..|names|], limit)
  }

  lemma MembersNext(items: seq<Item>, i: nat)
    requires i < |items|
    ensures items[i].regular ==> Members(items[..i + 1]) == Members(items[..i]) + [items[i]]
    ensures !items[i].regular ==> Members(items[..i + 1]) == Members(items[..i])
  {
    assert items[..i + 1][..i] == items[..i];
  }

  lemma {:induction false} MembersPrefix(items: seq<Item>, i: nat)
    requires i <= |items|
    ensures Members(items[..i]) <= Members(items)
    decreases |items| - i
  {
    if i < |items| {
      MembersNext(items, i);
      MembersPrefix(items, i + 1);
    } else {
      assert items[..i] == items;
    }
  }

  lemma JustTheseMore(names: seq<string>, n: string, before: Files<string>, was: Files<string>, after: Files<string>)
    requires JustThese(names, before, was) && !Suspect(n) && n !in was
    requires n in after && after - {n} == was
    ensures JustThese(names + [n], before, after)
  {
    assert forall m :: m in was ==> m in after && after[m] == (after - {n})[m];
    assert forall m :: m in after ==> m == n || m in after - {n};
  }

  lemma PassesMore(sizes: seq<Size>, s: Size, limit: Size)
    requires PassesLimit(sizes, limit) && (limit == 0 || WrapAdd(Total(sizes), s) <= limit)
    ensures PassesLimit(sizes + [s], limit)
  {
    var more := sizes + [s];
    assert more[..|sizes|] == sizes;
    forall n | 0 <= n <= |more| ensures Within(more, n, limit) {
      if n <= |sizes| {
        assert Within(sizes, n, limit) && more[..n] == sizes[..n];
      } else {
        assert more[..n] == more;
      }
    }
  }

  /** The loop's state after the first `i` entries. */
  ghost predicate After(items: seq<Item>, i: nat, limit: Size, names: seq<string>, total: int, before: Files<string>,
                        after: Files<string>)
    requires i <= |items|
  {
    var done := Members(items[..i]);
    && names == Names(done) && total == Total(Sizes(done)) && PassesLimit(Sizes(done), limit)
    && JustThese(names, before, after) && after == Unpacked(before, done)
    && forall m :: m in done ==> m.whole
  }

  lemma AfterIsCreated(items: seq<Item>, i: nat, limit: Size, names: seq<string>, total: int, before: Files<string>,
                       after: Files<string>)
    requires i <= |items| && After(items, i, limit, names, total, before, after)
    ensures Created(items, limit, names, before, after)
  {
    MembersPrefix(items, i);
    var done, all := Members(items[..i]), Members(items);
    assert Sizes(all)[..|names|] == Sizes(done) && Names(all)[..|names|] == Names(done);
  }

  /** An entry that is no regular file changes nothing. */
  lemma AfterSkip(items: seq<Item>, i: nat, limit: Size, names: seq<string>, total: int, before: Files<string>,
                  after: Files<string>)
    requires i < |items| && After(items, i, limit, names, total, before, after) && !items[i].regular
    ensures After(items, i + 1, limit, names, total, before, after)
  {
    MembersNext(items, i);
  }

  /** One more member, completely written. */
  lemma AfterMember(items: seq<Item>, i: nat, limit: Size, names: seq<string>, total: int, before: Files<string>,
                    was: Files<string>, after: Files<string>)
    requires i < |items| && After(items, i, limit, names, total, before, was) && items[i].regular
    requires !Suspect(items[i].name) && items[i].name !in was && items[i].whole
    requires limit == 0 || WrapAdd(total, items[i].declared) <= limit
    requires after == was[items[i].name := items[i].body]
    ensures After(items, i + 1, limit, names + [items[i].name], WrapAdd(total, items[i].declared), before, after)
  {
    MembersNext(items, i);
    var done := Members(items[..i]);
    var next := Members(items[..i + 1]);
    assert next[..|done|] == done;
    assert Sizes(next) == Sizes(done) + [items[i].declared] && Names(next) == names + [items[i].name];
    assert Sizes(next)[..|done|] == Sizes(done);
    PassesMore(Sizes(done), items[i].declared, limit);
    assert after - {items[i].name} == was;
    JustTheseMore(names, items[i].name, before, was, after);
  }

  /** One more member, created but not completely written: the error that ends the loop. */
  lemma CreatedPart(items: seq<Item>, i: nat, limit: Size, names: seq<string>, total: int, before: Files<string>,
                    was: Files<string>, after: Files<string>)
    requires i < |items| && After(items, i, limit, names, total, before, was) && items[i].regular
    requires !Suspect(items[i].name) && items[i].name !in was
    requires limit == 0 || WrapAdd(total, items[i].declared) <= limit
    requires items[i].name in after && after - {items[i].name} == was
    ensures Created(items, limit, names + [items[i].name], before, after)
  {
    MembersNext(items, i);
    MembersPrefix(items, i + 1);
    var done, next, all := Members(items[..i]), Members(items[..i + 1]), Members(items);
    assert Sizes(all)[..|next|] == Sizes(done) + [items[i].declared];
    assert Names(all)[..|next|] == names + [items[i].name];
    PassesMore(Sizes(done), items[i].declared, limit);
    JustTheseMore(names, items[i].name, before, was, after);
  }

  /** Nothing is wrong with the archive, and nothing in the directory is in its way. */
  ghost predicate Acceptable(archive: Archive, limit: Size, before: Files<string>) {
    && !archive.broken && archive.tailOk
    && Distinct(Names(Members(archive.items)))
    && (forall m :: m in Members(archive.items) ==> !Suspect(m.name) && m.whole && m.name !in before)
    && PassesLimit(Sizes(Members(archive.items)), limit)
  }

  /** The entry at hand is the member that comes next, and `total` the counter of those before it. */
  lemma NextMember(items: seq<Item>, i: nat, limit: Size, names: seq<string>, total: int, before: Files<string>,
                   after: Files<string>)
    requires i < |items| && items[i].regular && After(items, i, limit, names, total, before, after)
    ensures |names| < |Members(items)| && Members(items)[|names|] == items[i]
    ensures Total(Sizes(Members(items))[..|names|]) == total
  {
    MembersNext(items, i);
    MembersPrefix(items, i + 1);
    var done, next, all := Members(items[..i]), Members(items[..i + 1]), Members(items);
    assert next == done + [items[i]] && next <= all && |names| == |done|;
    assert all[|done|] == next[|done|];
    assert Sizes(all)[..|names|] == Sizes(done);
  }

  /** A refusal is true of the member that comes next; `faulty`: a command of the disk has failed. */
  ghost predicate RefusalIsTrue(
    err: Error, members: seq<Item>, names: seq<string>, limit: Size, after: Files<string>, faulty: bool)
  {
    match err
    case SuspectPath(n) => |names| < |members| && members[|names|].name == n && Suspect(n)
    case DuplicateMember(n) => |names| < |members| && members[|names|].name == n && n in names
    case TooLarge =>
      && |names| < |members| && limit > 0
      && WrapAdd(Total(Sizes(members)[..|names|]), members[|names|].declared) > limit
    case CannotCreate(n) => |names| < |members| && members[|names|].name == n && (n in after || faulty)
    case CannotExtract(n) =>
      && 0 < |names| <= |members| && names[|names| - 1] == n == members[|names| - 1].name
      && (!members[|names| - 1].whole || faulty)
    case _ => true
  }

  lemma StillTrue(err: Error, members: seq<Item>, names: seq<string>, limit: Size, after: Files<string>, faulty: bool)
    requires RefusalIsTrue(err, members, names, limit, after, faulty)
    ensures RefusalIsTrue(err, members, names, limit, after, true)
  {
  }

  /** What the checks refuse, and a file that cannot be created, are true of the next member. */
  lemma TrueOfNext(archive: Archive, i: nat, limit: Size, names: seq<string>, total: int, before: Files<string>,
                   after: Files<string>, err: Error, faulty: bool)
    requires i < |archive.items| && archive.items[i].regular
    requires After(archive.items, i, limit, names, total, before, after)
    requires var item := archive.items[i];
             || (err == SuspectPath(item.name) && Suspect(item.name))
             || (err == DuplicateMember(item.name) && item.name in names)
             || (err == TooLarge && limit > 0 && WrapAdd(total, item.declared) > limit)
             || (err == CannotCreate(item.name) && (item.name in after || faulty))
    ensures RefusalIsTrue(err, Members(archive.items), names, limit, after, faulty)
  {
    NextMember(archive.items, i, limit, names, total, before, after);
  }

  /** And a member that could not be filled is the last of the names. */
  lemma TrueOfLast(archive: Archive, i: nat, limit: Size, names: seq<string>, total: int, before: Files<string>,
                   was: Files<string>, after: Files<string>, faulty: bool)
    requires i < |archive.items| && archive.items[i].regular
    requires After(archive.items, i, limit, names, total, before, was)
    requires !archive.items[i].whole || faulty
    ensures var name := archive.items[i].name;
            RefusalIsTrue(CannotExtract(name), Members(archive.items), names + [name], limit, after, faulty)
  {
    NextMember(archive.items, i, limit, names, total, before, was);
  }

  /** The next member of an acceptable archive passes every check. */
  lemma FitsNext(archive: Archive, i: nat, limit: Size, names: seq<string>, total: int, before: Files<string>,
                 after: Files<string>)
    requires i < |archive.items| && archive.items[i].regular && Acceptable(archive, limit, before)
    requires After(archive.items, i, limit, names, total, before, after)
    ensures var item := archive.items[i];
            && !Suspect(item.name) && item.name !in names && item.name !in after && item.whole
            && (limit == 0 || WrapAdd(total, item.declared) <= limit)
  {
    var items, item := archive.items, archive.items[i];
    var done, next, all := Members(items[..i]), Members(items[..i + 1]), Members(items);
    MembersNext(items, i);
    MembersPrefix(items, i + 1);
    assert next == done + [item] && next <= all;
    assert all[|done|] == item && item in all;
    forall k | 0 <= k < |names| ensures names[k] != item.name {
      assert Names(all)[k] == names[k] && Names(all)[|done|] == item.name;
    }
    assert Within(Sizes(all), |next|, limit);
    assert Sizes(all)[..|next|] == Sizes(done) + [item.declared];
    assert (Sizes(done) + [item.declared])[..|done|] == Sizes(done);
  }

  /** The checks on a member, in their order, before anything is created for it. */
  method CheckMember(item: Item, seen: set<string>, total: int, limit: Size) returns (err: Option<Error>)
    ensures err.None? <==>
              && !Suspect(item.name) && item.name !in seen
              && (limit == 0 || WrapAdd(total, item.declared) <= limit)
    ensures err.Some? ==>
              || (err.value == SuspectPath(item.name) && Suspect(item.name))
              || (err.value == DuplicateMember(item.name) && item.name in seen)
              || (err.value == TooLarge && limit > 0 && WrapAdd(total, item.declared) > limit)
  {
    if Suspect(item.name) {
      return Some(SuspectPath(item.name));
    }
    if item.name in seen {
      return Some(DuplicateMember(item.name));
    }
    if limit > 0 && WrapAdd(total, item.declared) > limit {
      return Some(TooLarge);
    }
    return None;
  }

  /** One regular entry: check it, create its file, fill it. */
  method TakeMember(d: Drive<string>, archive: Archive, i: nat, limit: Size, names: seq<string>, seen: set<string>,
                    total: int, ghost before: Files<string>) returns (more: seq<string>, err: Option<Error>)
    requires d.Valid() && i < |archive.items| && archive.items[i].regular
    requires After(archive.items, i, limit, names, total, before, d.files)
    requires forall n :: n in seen <==> n in names
    modifies d
    ensures d.Valid() && d.faults >= old(d.faults)
    ensures err.None? ==>
              && more == names + [archive.items[i].name]
              && After(archive.items, i + 1, limit, more, WrapAdd(total, archive.items[i].declared), before, d.files)
    ensures err.Some? ==>
              && Created(archive.items, limit, more, before, d.files)
              && RefusalIsTrue(err.value, Members(archive.items), more, limit, d.files, d.faults > old(d.faults))
    ensures Acceptable(archive, limit, before) && d.faults == old(d.faults) ==> err.None?
    ensures err.None? ==> d.faults == old(d.faults)
  {
    var items, item := archive.items, archive.items[i];
    if Acceptable(archive, limit, before) {
      FitsNext(archive, i, limit, names, total, before, d.files);
    }
    more := names;
    err := CheckMember(item, seen, total, limit);
    if err.Some? {
      TrueOfNext(archive, i, limit, names, total, before, d.files, err.value, false);
      AfterIsCreated(items, i, limit, names, total, before, d.files);
      return;
    }
    ghost var was := d.files;
    var made, filled := ExtractMember(d, item);
    ghost var faulty := d.faults > old(d.faults);
    if !made {
      err := Some(CannotCreate(item.name));
      TrueOfNext(archive, i, limit, names, total, before, d.files, err.value, faulty);
      AfterIsCreated(items, i, limit, names, total, before, d.files);
      return;
    }
    more := names + [item.name];
    if !filled {
      CreatedPart(items, i, limit, names, total, before, was, d.files);
      TrueOfLast(archive, i, limit, names, total, before, was, d.files, faulty);
      err := Some(CannotExtract(item.name));
      return;
    }
    AfterMember(items, i, limit, names, total, before, was, d.files);
  }

  /** The extraction loop. */
  method ExtractEncryptedArchive(d: Drive<string>, archive: Archive, limit: Size)
    returns (names: seq<string>, err: Option<Error>)
    requires d.Valid()
    modifies d
    ensures d.Valid() && d.faults >= old(d.faults)
    // The names are those of the files created, on every exit: a beginning of the members, within the limit.
    ensures Created(archive.items, limit, names, old(d.files), d.files)
    // Without an error that is the whole archive, and nothing but a fault of the disk stops an acceptable one.
    ensures err.None? <==> Acceptable(archive, limit, old(d.files)) && d.faults == old(d.faults)
    ensures err.Some? ==>
              RefusalIsTrue(err.value, Members(archive.items), names, limit, d.files, d.faults > old(d.faults))
    ensures err.None? ==> names == Names(Members(archive.items))
    ensures err.None? ==> d.files == Unpacked(old(d.files), Members(archive.items))
  {
    var items := archive.items;
    ghost var before := d.files;
    var seen: set<string> := {};
    var total := 0;
    names, err := [], None;
    for i := 0 to |items|
      invariant d.Valid()
      invariant After(items, i, limit, names, total, before, d.files)
      invariant forall n :: n in seen <==> n in names
      invariant d.faults == old(d.faults) && err.None?
    {
      if !items[i].regular {
        AfterSkip(items, i, limit, names, total, before, d.files);
        continue;
      }
      ghost var faults := d.faults;
      names, err := TakeMember(d, archive, i, limit, names, seen, total, before);
      if err.Some? {
        if d.faults > old(d.faults) {
          StillTrue(err.value, Members(items), names, limit, d.files, d.faults > faults);
        }
        return;
      }
      seen := seen + {items[i].name};
      total := WrapAdd(total, items[i].declared);
    }
    AfterIsCreated(items, |items|, limit, names, total, before, d.files);
    assert items[..|items|] == items;
    AllTaken(archive, limit, names, total, before, d.files);
    if archive.broken {
      return names, Some(BrokenTar);
    }
    if !archive.tailOk {
      return names, Some(BadTail);
    }
  }

  /** An archive of which every member was taken is acceptable, if its end is. */
  lemma AllTaken(archive: Archive, limit: Size, names: seq<string>, total: int, before: Files<string>,
                 after: Files<string>)
    requires After(archive.items, |archive.items|, limit, names, total, before, after)
    ensures !archive.broken && archive.tailOk ==> Acceptable(archive, limit, before)
  {
    assert archive.items[..|archive.items|] == archive.items;
    var members := Members(archive.items);
    forall m | m in members ensures !Suspect(m.name) && m.whole && m.name !in before {
      var i :| 0 <= i < |members| && members[i] == m;
      assert names[i] == m.name && names[i] in names;
    }
  }

  /** Remove what was created; errors are ignored, but noted here. */
  method TakeAway(d: Drive<string>, names: seq<string>) returns (removed: bool)
    requires d.Valid()
    modifies d
    ensures d.faults >= old(d.faults) && (d.faults == old(d.faults) ==> removed)
    ensures removed ==> forall n :: n in d.files ==> n in old(d.files) && n !in names
  {
    removed := true;
    for i := 0 to |names|
      invariant d.Valid() && d.faults >= old(d.faults) && (d.faults == old(d.faults) ==> removed)
      invariant removed ==> forall n :: n in d.files ==> n in old(d.files) && n !in names[..i]
    {
      assert names[..i + 1] == names[..i] + [names[i]];
      var gone := d.Remove(names[i]);
      removed := removed && gone;
    }
    assert names[..|names|] == names;
  }

  lemma NothingLeft(names: seq<string>, made: Files<string>, left: Files<string>)
    requires JustThese(names, map[], made)
    requires forall n :: n in left ==> n in made && n !in names
    ensures left == map[]
  {
    assert left.Keys == {};
  }

  /** backup extract: into an empty directory; after an error what was created is taken away again. */
  method RunBackupExtract(d: Drive<string>, archive: Archive) returns (err: bool, removed: bool)
    requires d.Valid()
    modifies d
    ensures !err ==> old(d.files) == map[] && d.files == Unpacked(map[], Members(archive.items))
    ensures err && removed ==> d.files == old(d.files)
    ensures old(d.files) != map[] ==> err && removed && d.files == old(d.files)
    // Just a good archive is unpacked, into an empty directory and if nothing fails; after an error it is empty again.
    ensures d.faults >= old(d.faults)
    ensures !err <==> d.faults == old(d.faults) && old(d.files) == map[] && Acceptable(archive, 0, map[])
    ensures d.faults == old(d.faults) ==> removed
  {
    var listed := d.Check();
    if !listed || d.files != map[] {
      return true, true;
    }
    var names, failed := ExtractEncryptedArchive(d, archive, 0);
    if failed.None? {
      return false, true;
    }
    ghost var made := d.files;
    removed := TakeAway(d, names);
    err := true;
    if removed {
      NothingLeft(names, made, d.files);
    }
  }
}
