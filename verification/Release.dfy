/**
 Which release the wizard takes: tags ordered by version and release candidate number, the
 newest of a list by publication time, and the running release if it is newer than that.
 */
module Release {
  import opened Disk
  import opened Numbers
  import opened RunningBest
  import opened Text

  const MAX_INT: int := 0x7FFF_FFFF_FFFF_FFFF
  const FINAL: nat := 0x4000_0000

  /* ------------------------------------------------------------------- ranks */

  /** Major, minor and patch number, and the number of the candidate or, for a final release, 2^30. */
  datatype Rank = Rank(major: nat, minor: nat, patch: nat, rc: nat) {
    function At(i: nat): nat
      requires i < 4
    {
      if i == 0 then major else if i == 1 then minor else if i == 2 then patch else rc
    }
  }

  /** strings.TrimPrefix(s, "v") */
  function WithoutV(s: string): string {
    if s != [] && s[0] == 'v' then s[1..] else s
  }

  /** strings.Cut(s, "-rc"): what is before and after the first, if there is one. */
  function CutRC(s: string): (r: Option<(string, string)>)
    ensures r.Some? ==> s == r.value.0 + "-rc" + r.value.1
  {
    if |s| < 3 then None
    else if s[0] == '-' && s[1] == 'r' && s[2] == 'c' then Some(([], s[3..]))
    else
      match CutRC(s[1..])
      case None => None
      case Some((a, b)) => Some(([s[0]] + a, b))
  }

  /** strings.Contains(tag, "-rc") */
  predicate HasRC(tag: string) {
    CutRC(tag).Some?
  }

  function ParseNumber(s: string): Option<nat> {
    if s == [] || !AllDigits(s) then None
    else if Value(s, false) <= MAX_INT then Some(Value(s, false)) else None
  }

  function ParseMain(main: string, rc: Option<nat>): Option<Rank> {
    var parts := Split(main, '.');
    if |parts| != 3 then None
    else
      var major, minor, patch := ParseNumber(parts[0]), ParseNumber(parts[1]), ParseNumber(parts[2]);
      if major.None? || minor.None? || patch.None? || rc.None? then None
      else Some(Rank(major.value, minor.value, patch.value, rc.value))
  }

  function ParseReleaseTagRank(tag: string): Option<Rank> {
    var bare := WithoutV(TrimSpace(tag));
    match CutRC(bare)
    case None => ParseMain(bare, Some(FINAL))
    case Some((main, rc)) => ParseMain(main, ParseNumber(rc))
  }

  function MainOf(major: nat, minor: nat, patch: nat): string {
    Decimal(major) + ['.'] + (Decimal(minor) + ['.'] + Decimal(patch))
  }

  /** The tag of a version. */
  function TagOf(major: nat, minor: nat, patch: nat, rc: Option<nat>): string {
    var main := MainOf(major, minor, patch);
    "v" + (if rc.Some? then main + "-rc" + Decimal(rc.value) else main)
  }

  lemma {:induction false} NoDashNoRC(s: string)
    requires '-' !in s
    ensures CutRC(s) == None
  {
    if |s| >= 3 {
      NoDashNoRC(s[1..]);
    }
  }

  lemma {:induction false} CutRCAt(a: string, b: string)
    requires '-' !in a
    ensures CutRC(a + "-rc" + b) == Some((a, b))
  {
    var s := a + "-rc" + b;
    if a == [] {
      assert s[3..] == b;
    } else {
      assert s[1..] == a[1..] + "-rc" + b;
      CutRCAt(a[1..], b);
      assert [s[0]] + a[1..] == a;
    }
  }

  lemma SplitInThree(a: string, b: string, c: string)
    requires '.' !in a && '.' !in b && '.' !in c
    ensures Split(a + ['.'] + (b + ['.'] + c), '.') == [a, b, c]
  {
    SplitSum(a, '.', b + ['.'] + c);
    SplitSum(b, '.', c);
    SplitOne(a, '.');
    SplitOne(b, '.');
    SplitOne(c, '.');
  }

  lemma DigitsOnly(s: string)
    requires AllDigits(s)
    ensures '.' !in s && '-' !in s && forall i :: 0 <= i < |s| ==> !IsSpace(s[i])
  {
  }

  lemma MainRoundTrip(major: nat, minor: nat, patch: nat, rc: Option<nat>)
    ensures ParseMain(MainOf(major, minor, patch), rc) ==
            if rc.Some? && Fits(major) && Fits(minor) && Fits(patch) then Some(Rank(major, minor, patch, rc.value))
            else None
  {
    NumberRoundTrip(major);
    NumberRoundTrip(minor);
    NumberRoundTrip(patch);
    DigitsOnly(Decimal(major));
    DigitsOnly(Decimal(minor));
    DigitsOnly(Decimal(patch));
    SplitInThree(Decimal(major), Decimal(minor), Decimal(patch));
  }

  lemma MainIsPlain(major: nat, minor: nat, patch: nat)
    ensures var main := MainOf(major, minor, patch);
            main != [] && '-' !in main && !IsSpace(main[|main| - 1])
  {
    DigitsOnly(Decimal(major));
    DigitsOnly(Decimal(minor));
    DigitsOnly(Decimal(patch));
  }

  lemma BareTag(body: string)
    requires body != [] && !IsSpace(body[|body| - 1])
    ensures WithoutV(TrimSpace("v" + body)) == body
  {
    var tag := "v" + body;
    assert tag[|tag| - 1] == body[|body| - 1];
    TrimOfTrimmed(tag);
  }

  lemma CandidateTag(main: string, d: string)
    requires '-' !in main && d != [] && !IsSpace(d[|d| - 1])
    ensures CutRC(WithoutV(TrimSpace("v" + (main + "-rc" + d)))) == Some((main, d))
  {
    var body := main + "-rc" + d;
    assert body[|body| - 1] == d[|d| - 1];
    BareTag(body);
    CutRCAt(main, d);
  }

  lemma CandidateHasRC(main: string, d: string)
    requires '-' !in main
    ensures HasRC("v" + (main + "-rc" + d))
  {
    CutRCAt("v" + main, d);
    assert "v" + (main + "-rc" + d) == ("v" + main) + "-rc" + d;
  }

  lemma FinalTag(main: string)
    requires '-' !in main && main != [] && !IsSpace(main[|main| - 1])
    ensures WithoutV(TrimSpace("v" + main)) == main && CutRC(main) == None && !HasRC("v" + main)
  {
    BareTag(main);
    NoDashNoRC(main);
    NoDashNoRC("v" + main);
  }

  /** The number can be held in an int64. */
  ghost predicate Fits(n: nat) {
    n <= 0x7FFF_FFFF_FFFF_FFFF
  }

  lemma NumberRoundTrip(n: nat)
    ensures ParseNumber(Decimal(n)) == if Fits(n) then Some(n) else None
    ensures !IsSpace(Decimal(n)[|Decimal(n)| - 1])
  {
    ValueOfDecimal(n);
    DigitsOnly(Decimal(n));
  }

  /** A version's tag is parsed back to the version exactly if its numbers fit, and is no version otherwise. */
  lemma TagRoundTrip(major: nat, minor: nat, patch: nat, rc: Option<nat>)
    ensures ParseReleaseTagRank(TagOf(major, minor, patch, rc)) ==
            if Fits(major) && Fits(minor) && Fits(patch) && (rc.Some? ==> Fits(rc.value))
            then Some(Rank(major, minor, patch, if rc.Some? then rc.value else FINAL)) else None
    ensures HasRC(TagOf(major, minor, patch, rc)) <==> rc.Some?
  {
    var main := MainOf(major, minor, patch);
    MainIsPlain(major, minor, patch);
    if rc.Some? {
      NumberRoundTrip(rc.value);
      CandidateTag(main, Decimal(rc.value));
      CandidateHasRC(main, Decimal(rc.value));
      MainRoundTrip(major, minor, patch, ParseNumber(Decimal(rc.value)));
    } else {
      FinalTag(main);
      MainRoundTrip(major, minor, patch, Some(FINAL));
    }
  }

  /** The `v` may be left out. */
  lemma VIsOptional(tag: string)
    requires Trimmed(tag) && tag != [] && tag[0] != 'v'
    ensures ParseReleaseTagRank("v" + tag) == ParseReleaseTagRank(tag)
  {
    BareTag(tag);
    TrimOfTrimmed(tag);
  }

  /** An empty number is none. */
  lemma MissingMinor(major: string, patch: string, rc: Option<nat>)
    requires '.' !in major && '.' !in patch
    ensures ParseMain(major + ['.'] + ([] + ['.'] + patch), rc) == None
  {
    SplitInThree(major, [], patch);
  }

  /* ------------------------------------------------------------------- order */

  /** The order of versions: which is higher at the first of the four numbers that differs. */
  function CompareFrom(a: Rank, b: Rank, i: nat): int
    requires i <= 4
    decreases 4 - i
  {
    if i == 4 then 0
    else if a.At(i) > b.At(i) then 1
    else if a.At(i) < b.At(i) then -1
    else CompareFrom(a, b, i + 1)
  }

  function Compare(a: string, b: string): int {
    match (ParseReleaseTagRank(a), ParseReleaseTagRank(b))
    case (Some(av), Some(bv)) => CompareFrom(av, bv, 0)
    case _ => CompareText(a, b)
  }

  method CompareReleaseTags(a: string, b: string) returns (r: int)
    ensures r == Compare(a, b)
  {
    var av, bv := ParseReleaseTagRank(a), ParseReleaseTagRank(b);
    if av.None? || bv.None? {
      return CompareText(a, b);
    }
    for i := 0 to 4
      invariant CompareFrom(av.value, bv.value, 0) == CompareFrom(av.value, bv.value, i)
    {
      if av.value.At(i) > bv.value.At(i) {
        return 1;
      }
      if av.value.At(i) < bv.value.At(i) {
        return -1;
      }
    }
    return 0;
  }

  /** On ranks: equal only to itself, opposite when turned round, transitive. */
  lemma RankOrder(a: Rank, b: Rank, c: Rank)
    ensures CompareFrom(a, b, 0) == 0 <==> a == b
    ensures CompareFrom(b, a, 0) == -CompareFrom(a, b, 0)
    ensures CompareFrom(a, b, 0) >= 0 && CompareFrom(b, c, 0) >= 0 ==> CompareFrom(a, c, 0) >= 0
    ensures CompareFrom(a, b, 0) > 0 && CompareFrom(b, c, 0) >= 0 ==> CompareFrom(a, c, 0) > 0
  {
    RankOrderIsLexical(a, b);
    RankOrderIsLexical(b, c);
    RankOrderIsLexical(a, c);
    RankOrderIsLexical(b, a);
  }

  lemma RankOrderIsLexical(a: Rank, b: Rank)
    ensures CompareFrom(a, b, 0) == if Above(a, b) then 1 else if Above(b, a) then -1 else 0
  {
    assert CompareFrom(a, b, 3) == if a.rc > b.rc then 1 else if a.rc < b.rc then -1 else 0;
  }

  ghost predicate Above(a: Rank, b: Rank) {
    || a.major > b.major
    || (a.major == b.major && a.minor > b.minor)
    || (a.major == b.major && a.minor == b.minor && a.patch > b.patch)
    || (a.major == b.major && a.minor == b.minor && a.patch == b.patch && a.rc > b.rc)
  }

  /** A final release is above a candidate of its version exactly when the candidate's number is below 2^30. */
  lemma FinalAboveCandidate(major: nat, minor: nat, patch: nat, rc: nat)
    requires major <= MAX_INT && minor <= MAX_INT && patch <= MAX_INT && rc <= MAX_INT
    ensures Compare(TagOf(major, minor, patch, None), TagOf(major, minor, patch, Some(rc))) > 0 <==> rc < FINAL
  {
    TagRoundTrip(major, minor, patch, None);
    TagRoundTrip(major, minor, patch, Some(rc));
    RankOrderIsLexical(Rank(major, minor, patch, FINAL), Rank(major, minor, patch, rc));
  }

  /** For parsable tags `Compare` is a total order of their ranks. */
  lemma TagOrder(a: string, b: string, c: string)
    requires ParseReleaseTagRank(a).Some? && ParseReleaseTagRank(b).Some? && ParseReleaseTagRank(c).Some?
    ensures Compare(a, b) == 0 <==> ParseReleaseTagRank(a) == ParseReleaseTagRank(b)
    ensures Compare(b, a) == -Compare(a, b)
    ensures Compare(a, b) >= 0 && Compare(b, c) >= 0 ==> Compare(a, c) >= 0
    ensures Compare(a, b) > 0 && Compare(b, c) >= 0 ==> Compare(a, c) > 0
  {
    RankOrder(ParseReleaseTagRank(a).value, ParseReleaseTagRank(b).value, ParseReleaseTagRank(c).value);
  }

  /* -------------------------------------------------------------- running release */

  predicate SameMain(a: Rank, b: Rank) {
    a.major == b.major && a.minor == b.minor && a.patch == b.patch
  }

  method ShouldPreferRunningRelease(latest: string, running: string) returns (prefer: bool)
    // Only what is newer is preferred,
    ensures prefer ==> Compare(running, latest) > 0
    // and everything newer is, but a final release over a candidate of the same version.
    ensures prefer <==>
              && Compare(running, latest) > 0 && running != [] && running[0] == 'v'
              && !FinalOverCandidate(running, latest)
  {
    if running == [] || running[0] != 'v' {
      return false;
    }
    var l, r := ParseReleaseTagRank(latest), ParseReleaseTagRank(running);
    if l.None? || r.None? {
      var c := CompareReleaseTags(running, latest);
      return c > 0;
    }
    RankOrderIsLexical(r.value, l.value);
    var main := CompareMain(r.value, l.value);
    if main != 0 {
      return main > 0;
    }
    return HasRC(running) && HasRC(latest) && r.value.rc > l.value.rc;
  }

  /** The loop over major, minor and patch number. */
  method CompareMain(r: Rank, l: Rank) returns (c: int)
    ensures c == 0 <==> SameMain(r, l)
    ensures c > 0 ==> Above(r, l)
    ensures c < 0 ==> Above(l, r)
  {
    for i := 0 to 3
      invariant i >= 1 ==> r.major == l.major
      invariant i >= 2 ==> r.minor == l.minor
      invariant i >= 3 ==> r.patch == l.patch
    {
      if r.At(i) > l.At(i) {
        return 1;
      }
      if r.At(i) < l.At(i) {
        return -1;
      }
    }
    return 0;
  }

  /** Both parse, to the same version, and not both are candidates. */
  ghost predicate FinalOverCandidate(running: string, latest: string) {
    match (ParseReleaseTagRank(running), ParseReleaseTagRank(latest))
    case (Some(r), Some(l)) => SameMain(r, l) && !(HasRC(running) && HasRC(latest))
    case _ => false
  }

  /* ------------------------------------------------------------------ newest release */

  /** `at` is the time of publication; zero when it is not known. */
  datatype Release = Release(tag: string, at: nat)

  predicate SameRCSeries(a: string, b: string) {
    match (ParseReleaseTagRank(a), ParseReleaseTagRank(b))
    case (Some(ar), Some(br)) => HasRC(a) && HasRC(b) && SameMain(ar, br)
    case _ => false
  }

  predicate NewerForOperator(a: Release, b: Release) {
    if SameRCSeries(a.tag, b.tag) then Compare(a.tag, b.tag) > 0
    else if a.at > b.at then true
    else if a.at < b.at then false
    else Compare(a.tag, b.tag) > 0
  }

  function Newest(list: seq<Release>): Release
    requires list != []
  {
    Best(list, NewerForOperator)
  }

  method NewestReleaseByTag(list: seq<Release>) returns (best: Release)
    requires list != []
    ensures best == Newest(list)
  {
    best := list[0];
    for i := 1 to |list|
      invariant best == Newest(list[..i])
    {
      assert list[..i + 1][..i] == list[..i];
      if NewerForOperator(list[i], best) {
        best := list[i];
      }
    }
    assert list[..|list|] == list;
  }

  /** The times differ, and within a series of candidates the later one has the higher number. */
  ghost predicate DatedApart(a: Release, b: Release) {
    a.at != b.at && (SameRCSeries(a.tag, b.tag) ==> (Compare(a.tag, b.tag) > 0 <==> a.at > b.at))
  }

  ghost predicate WellDated(list: seq<Release>) {
    forall a, b :: a in list && b in list && a != b ==> DatedApart(a, b)
  }

  lemma NewerIsLater(a: Release, b: Release)
    requires DatedApart(a, b)
    ensures NewerForOperator(a, b) <==> a.at > b.at
  {
  }

  /** No release of the list is later. */
  ghost predicate Latest(r: Release, list: seq<Release>) {
    r in list && forall x :: x in list ==> x == r || x.at < r.at
  }

  /** A release of the list that is newer than every other. */
  ghost predicate NewerThanAll(w: Release, list: seq<Release>) {
    w in list && forall x :: x in list && x != w ==> NewerForOperator(w, x) && !NewerForOperator(x, w)
  }

  /** The list in any order gives the same release exactly when some release in it is newer than every other. */
  lemma NewestOfAnyOrderIff(list: seq<Release>)
    requires list != []
    ensures (forall other :: Reordered(other, list) ==> SameNewest(other, list)) <==> exists w :: NewerThanAll(w, list)
    ensures forall w :: NewerThanAll(w, list) ==> Newest(list) == w
  {
    OrderIrrelevantIff(list, NewerForOperator);
    forall w ensures NewerThanAll(w, list) <==> Champion(w, list, NewerForOperator) {
    }
    forall w | NewerThanAll(w, list) ensures Newest(list) == w {
      ChampionIsBest(list, NewerForOperator, w);
    }
    forall other ensures SameNewest(other, list) <==> SameBest(other, list, NewerForOperator) {
    }
  }

  ghost predicate SameNewest(other: seq<Release>, list: seq<Release>) {
    other != [] && list != [] && Newest(other) == Newest(list)
  }

  lemma LatestIsNewer(list: seq<Release>, w: Release)
    requires WellDated(list) && Latest(w, list)
    ensures NewerThanAll(w, list)
  {
    forall x | x in list && x != w ensures NewerForOperator(w, x) && !NewerForOperator(x, w) {
      assert DatedApart(w, x) && DatedApart(x, w);
      NewerIsLater(w, x);
      NewerIsLater(x, w);
    }
  }

  lemma {:induction false} SomeLatest(list: seq<Release>) returns (w: Release)
    requires list != [] && WellDated(list)
    ensures Latest(w, list)
  {
    w := list[0];
    if |list| > 1 {
      var front, last := list[..|list| - 1], list[|list| - 1];
      assert last in list && forall r :: r in front ==> r in list;
      w := SomeLatest(front);
      assert list == front + [last];
      assert w != last ==> DatedApart(w, last);
      if last.at > w.at {
        w := last;
      }
    }
  }

  /** Of a well dated list the last published release is taken, in whatever order it comes. */
  lemma NewestOfAnyOrder(list: seq<Release>, other: seq<Release>)
    requires list != [] && WellDated(list) && Reordered(other, list)
    ensures SameNewest(other, list) && Latest(Newest(list), list)
  {
    var w := SomeLatest(list);
    LatestIsNewer(list, w);
    NewestOfAnyOrderIff(list);
  }

  lemma NewestIsLatest(list: seq<Release>)
    requires list != [] && WellDated(list)
    ensures Latest(Newest(list), list)
  {
    NewestOfAnyOrder(list, list);
  }

  /** Of two published at the same time, or at times that are not known, the one with the higher tag is newer. */
  lemma HigherTagAtEqualTimes(a: Release, b: Release)
    requires a.at == b.at
    ensures NewerForOperator(a, b) <==> Compare(a.tag, b.tag) > 0
  {
  }

  lemma OrderAtEqualTimes(a: Release, b: Release, c: Release)
    requires a.at == b.at == c.at
    requires ParseReleaseTagRank(a.tag).Some? && ParseReleaseTagRank(b.tag).Some? && ParseReleaseTagRank(c.tag).Some?
    ensures NewerForOperator(a, b) ==> !NewerForOperator(b, a)
    ensures !NewerForOperator(a, b) && !NewerForOperator(b, c) ==> !NewerForOperator(a, c)
    ensures !NewerForOperator(a, b) ==> Compare(b.tag, a.tag) >= 0
  {
    HigherTagAtEqualTimes(a, b);
    HigherTagAtEqualTimes(b, a);
    HigherTagAtEqualTimes(b, c);
    HigherTagAtEqualTimes(a, c);
    TagOrder(a.tag, b.tag, c.tag);
    TagOrder(c.tag, b.tag, a.tag);
    TagOrder(a.tag, c.tag, a.tag);
  }

  /** Published at that time, with a tag that parses. */
  ghost predicate TaggedAt(r: Release, at: nat) {
    r.at == at && ParseReleaseTagRank(r.tag).Some?
  }

  /** Of a list all published at one time, with tags that parse, the highest tag is taken. */
  lemma HighestTag(list: seq<Release>, at: nat)
    requires list != [] && forall r :: r in list ==> TaggedAt(r, at)
    ensures Newest(list) in list
    ensures forall x :: x in list ==> Compare(Newest(list).tag, x.tag) >= 0
  {
    forall x, y, z | x in list && y in list && z in list
      ensures NewerForOperator(x, y) ==> !NewerForOperator(y, x)
      ensures !NewerForOperator(x, y) && !NewerForOperator(y, z) ==> !NewerForOperator(x, z)
      ensures !NewerForOperator(x, y) ==> Compare(y.tag, x.tag) >= 0
    {
      assert TaggedAt(x, at) && TaggedAt(y, at) && TaggedAt(z, at);
      OrderAtEqualTimes(x, y, z);
    }
    NothingIsNewer(list, NewerForOperator);
  }

  lemma NewestOfTwo(a: Release, b: Release)
    ensures Newest([a, b]) == if NewerForOperator(b, a) then b else a
  {
    BestNext([a], b, NewerForOperator);
    assert [a] + [b] == [a, b];
  }

  lemma NewestOfThree(a: Release, b: Release, c: Release)
    ensures Newest([a, b, c]) == if NewerForOperator(c, Newest([a, b])) then c else Newest([a, b])
  {
    BestNext([a, b], c, NewerForOperator);
    assert [a, b] + [c] == [a, b, c];
  }

  /** Each release is newer than the next: which one is taken depends on where the list begins. */
  lemma OrderCanMatter(first: Release, second: Release, other: Release)
    requires NewerForOperator(second, first) && NewerForOperator(first, other) && NewerForOperator(other, second)
    requires !NewerForOperator(second, other)
    ensures Newest([first, second, other]) == other && Newest([other, second, first]) == first
  {
    NewestOfTwo(first, second);
    NewestOfThree(first, second, other);
    NewestOfTwo(other, second);
    NewestOfThree(other, second, first);
  }

  lemma PairRanks(a: string, b: string, ar: Rank, br: Rank)
    requires ParseReleaseTagRank(a) == Some(ar) && ParseReleaseTagRank(b) == Some(br)
    ensures SameRCSeries(a, b) <==> HasRC(a) && HasRC(b) && SameMain(ar, br)
    ensures Compare(a, b) == if Above(ar, br) then 1 else if Above(br, ar) then -1 else 0
  {
    RankOrderIsLexical(ar, br);
  }

  /** Three releases that come after one another in a circle. */
  lemma Circle(first: Release, second: Release, other: Release)
    requires SameRCSeries(second.tag, first.tag) && Compare(second.tag, first.tag) > 0
    requires !SameRCSeries(first.tag, other.tag)
    requires !SameRCSeries(other.tag, second.tag) && !SameRCSeries(second.tag, other.tag)
    requires second.at < other.at < first.at
    ensures Newest([first, second, other]) == other && Newest([other, second, first]) == first
  {
    OrderCanMatter(first, second, other);
  }

  /** That happens: v1.0.0-rc1 published again after v1.0.0-rc2, and v2.0.0 between the two. */
  lemma RepublishedCandidate() returns (first: Release, second: Release, other: Release)
    ensures first.tag == TagOf(1, 0, 0, Some(1)) && second.tag == TagOf(1, 0, 0, Some(2))
    ensures other.tag == TagOf(2, 0, 0, None)
    ensures Newest([first, second, other]) != Newest([other, second, first])
  {
    first, second := Release(TagOf(1, 0, 0, Some(1)), 3), Release(TagOf(1, 0, 0, Some(2)), 1);
    other := Release(TagOf(2, 0, 0, None), 2);
    TagRoundTrip(1, 0, 0, Some(1));
    TagRoundTrip(1, 0, 0, Some(2));
    TagRoundTrip(2, 0, 0, None);
    PairRanks(second.tag, first.tag, Rank(1, 0, 0, 2), Rank(1, 0, 0, 1));
    PairRanks(first.tag, other.tag, Rank(1, 0, 0, 1), Rank(2, 0, 0, FINAL));
    PairRanks(other.tag, second.tag, Rank(2, 0, 0, FINAL), Rank(1, 0, 0, 2));
    PairRanks(second.tag, other.tag, Rank(1, 0, 0, 2), Rank(2, 0, 0, FINAL));
    Circle(first, second, other);
  }
}
