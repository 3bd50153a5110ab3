/**
 The string functions of Go's `strings` package that the modelled files use, on
 characters. White space is the Unicode set Go trims; upper case is ASCII only.
 */
module Text {
  import opened Disk

  predicate IsSpace(c: char) {
    c in {'\t', '\n', '\U{0B}', '\U{0C}', '\r', ' ', '\U{85}', '\U{A0}', '\U{1680}', '\U{2028}', '\U{2029}',
          '\U{202F}', '\U{205F}', '\U{3000}'} || '\U{2000}' <= c <= '\U{200A}'
  }

  function TrimLeft(s: string): (r: string)
    ensures |r| <= |s| && (r == [] || !IsSpace(r[0]))
  {
    if s != [] && IsSpace(s[0]) then TrimLeft(s[1..]) else s
  }

  function TrimRight(s: string): (r: string)
    ensures r <= s && (r == [] || !IsSpace(r[|r| - 1]))
  {
    if s != [] && IsSpace(s[|s| - 1]) then TrimRight(s[..|s| - 1]) else s
  }

  /** strings.TrimSpace */
  function TrimSpace(s: string): string {
    TrimRight(TrimLeft(s))
  }

  /** No white space at either end. */
  predicate Trimmed(s: string) {
    s == [] || (!IsSpace(s[0]) && !IsSpace(s[|s| - 1]))
  }

  lemma TrimOfTrimmed(s: string)
    requires Trimmed(s)
    ensures TrimSpace(s) == s
  {
  }

  lemma TrimIsTrimmed(s: string)
    ensures Trimmed(TrimSpace(s))
  {
    var l := TrimLeft(s);
    var r := TrimRight(l);
    if r != [] {
      assert r[0] == l[0];
    }
  }

  predicate AllSpace(s: string) {
    forall i :: 0 <= i < |s| ==> IsSpace(s[i])
  }

  lemma {:induction false} TrimLeftIs(pre: string, x: string)
    requires AllSpace(pre) && (x == [] || !IsSpace(x[0]))
    ensures TrimLeft(pre + x) == x
  {
    if pre == [] {
      assert pre + x == x;
    } else {
      assert (pre + x)[1..] == pre[1..] + x;
      TrimLeftIs(pre[1..], x);
    }
  }

  lemma {:induction false} TrimRightIs(x: string, post: string)
    requires AllSpace(post) && (x == [] || !IsSpace(x[|x| - 1]))
    ensures TrimRight(x + post) == x
  {
    if post == [] {
      assert x + post == x;
    } else {
      var n := |post| - 1;
      assert (x + post)[..|x + post| - 1] == x + post[..n];
      TrimRightIs(x, post[..n]);
    }
  }

  /** Trimming takes off just the white space around a text. */
  lemma TrimSpaceIs(pre: string, x: string, post: string)
    requires AllSpace(pre) && AllSpace(post) && Trimmed(x)
    ensures TrimSpace(pre + x + post) == x
  {
    if x == [] {
      assert pre + x + post == (pre + post) + [];
      TrimLeftIs(pre + post, []);
    } else {
      assert pre + x + post == pre + (x + post);
      TrimLeftIs(pre, x + post);
      TrimRightIs(x, post);
    }
  }

  /** strings.Split(s, c) for one separator character. */
  function Split(s: string, c: char): (parts: seq<string>)
    ensures |parts| >= 1
  {
    if s == [] then [[]]
    else
      var rest := Split(s[1..], c);
      if s[0] == c then [[]] + rest else [[s[0]] + rest[0]] + rest[1..]
  }

  /** Each part followed by the separator: how the files are written line by line. */
  function Terminated(lines: seq<string>, c: char): string {
    if lines == [] then [] else lines[0] + [c] + Terminated(lines[1..], c)
  }

  lemma JoinFirst(head: seq<string>, a: seq<string>, b: seq<string>)
    requires a != []
    ensures head + (a + b)[1..] == (head + a[1..]) + b
    ensures head + (a + b) == (head + a) + b
  {
  }

  /** Splitting a text with a separator in it is splitting what is before and what is after. */
  lemma {:induction false} SplitSum(a: string, c: char, b: string)
    ensures Split(a + [c] + b, c) == Split(a, c) + Split(b, c)
  {
    var s := a + [c] + b;
    if a == [] {
      assert s[1..] == b;
    } else {
      var first, rest := Split(a[1..], c), Split(b, c);
      SplitSum(a[1..], c, b);
      assert s[1..] == a[1..] + [c] + b && s[0] == a[0];
      assert Split(s[1..], c) == first + rest;
      JoinFirst(if a[0] == c then [[]] else [[a[0]] + first[0]], first, rest);
    }
  }

  lemma {:induction false} SplitOne(line: string, c: char)
    requires c !in line
    ensures Split(line, c) == [line]
  {
    if line != [] {
      SplitOne(line[1..], c);
      assert [line[0]] + line[1..] == line;
    }
  }

  /** The parts of lines that may hold separators themselves. */
  function SplitAll(lines: seq<string>, c: char): seq<string> {
    if lines == [] then [] else Split(lines[0], c) + SplitAll(lines[1..], c)
  }

  /** Splitting what was written line by line gives the parts of the lines, and an empty one at the end. */
  lemma {:induction false} SplitTerminated(lines: seq<string>, c: char)
    ensures Split(Terminated(lines, c), c) == SplitAll(lines, c) + [[]]
  {
    if lines != [] {
      assert Terminated(lines, c) == lines[0] + [c] + Terminated(lines[1..], c);
      SplitSum(lines[0], c, Terminated(lines[1..], c));
      SplitTerminated(lines[1..], c);
    }
  }

  /** Length of the leading run of characters that are not white space. */
  function WordLen(s: string): (n: nat)
    ensures n <= |s|
    ensures forall i :: 0 <= i < n ==> !IsSpace(s[i])
    ensures n < |s| ==> IsSpace(s[n])
  {
    if s == [] || IsSpace(s[0]) then 0 else 1 + WordLen(s[1..])
  }

  /** strings.Fields */
  function Fields(s: string): (words: seq<string>)
    ensures forall w :: w in words ==> w != [] && forall i :: 0 <= i < |w| ==> !IsSpace(w[i])
    decreases |s|
  {
    var t := TrimLeft(s);
    if t == [] then []
    else
      var n := WordLen(t);
      [t[..n]] + Fields(t[n..])
  }

  /** Not empty, and no white space in it. */
  predicate IsWord(w: string) {
    w != [] && forall i :: 0 <= i < |w| ==> !IsSpace(w[i])
  }

  lemma {:induction false} WordLenIs(w: string, rest: string)
    requires forall i :: 0 <= i < |w| ==> !IsSpace(w[i])
    requires rest == [] || IsSpace(rest[0])
    ensures WordLen(w + rest) == |w|
  {
    if w == [] {
      assert w + rest == rest;
    } else {
      assert (w + rest)[1..] == w[1..] + rest;
      WordLenIs(w[1..], rest);
    }
  }

  lemma FieldsHead(w: string, rest: string)
    requires IsWord(w)
    ensures Fields(w + [' '] + rest) == [w] + Fields(rest)
  {
    var s := w + [' '] + rest;
    assert s == w + ([' '] + rest) && s[0] == w[0];
    WordLenIs(w, [' '] + rest);
    assert s[..|w|] == w && s[|w|..] == [' '] + rest;
    assert ([' '] + rest)[1..] == rest;
    assert TrimLeft([' '] + rest) == TrimLeft(rest);
  }

  lemma FieldsWord(w: string)
    requires IsWord(w)
    ensures Fields(w) == [w]
  {
    WordLenIs(w, []);
    assert w + [] == w && w[..|w|] == w && w[|w|..] == [];
  }

  /** strings.Cut at the first `c`. */
  function Cut(s: string, c: char): (r: Option<(string, string)>)
    ensures r.Some? ==> s == r.value.0 + [c] + r.value.1 && c !in r.value.0
    ensures r.None? ==> c !in s
  {
    if s == [] then None
    else if s[0] == c then Some(([], s[1..]))
    else
      match Cut(s[1..], c)
      case None => None
      case Some((a, b)) => Some(([s[0]] + a, b))
  }

  lemma {:induction false} CutAt(a: string, c: char, b: string)
    requires c !in a
    ensures Cut(a + [c] + b, c) == Some((a, b))
  {
    var s := a + [c] + b;
    if a == [] {
      assert s[1..] == b;
    } else {
      assert s[1..] == a[1..] + [c] + b;
      CutAt(a[1..], c, b);
      assert s[0] == a[0] && [a[0]] + a[1..] == a;
    }
  }

  function Lower(c: char): char {
    if 'A' <= c <= 'Z' then (c as int + 32) as char else c
  }

  /** strings.ToLower */
  function ToLower(s: string): (r: string)
    ensures |r| == |s| && forall i :: 0 <= i < |s| ==> r[i] == Lower(s[i])
  {
    if s == [] then [] else [Lower(s[0])] + ToLower(s[1..])
  }

  predicate IsLower(s: string) {
    forall i :: 0 <= i < |s| ==> !('A' <= s[i] <= 'Z')
  }

  lemma ToLowerOfLower(s: string)
    requires IsLower(s)
    ensures ToLower(s) == s
  {
  }

  lemma ToLowerIsLower(s: string)
    ensures IsLower(ToLower(s))
  {
  }

  /* ----------------------------------------------- white space inside a longer text */

  lemma {:induction false} TrimLeftOfSum(u: string, w: string)
    ensures TrimLeft(u) != [] ==> TrimLeft(u + w) == TrimLeft(u) + w
    ensures TrimLeft(u) == [] ==> TrimLeft(u + w) == TrimLeft(w)
  {
    if u == [] {
      assert u + w == w;
    } else {
      assert (u + w)[0] == u[0] && (u + w)[1..] == u[1..] + w;
      if IsSpace(u[0]) {
        TrimLeftOfSum(u[1..], w);
      }
    }
  }

  lemma {:induction false} TrimRightNone(s: string)
    ensures TrimRight(s) == [] ==> forall i :: 0 <= i < |s| ==> IsSpace(s[i])
  {
    if s != [] && IsSpace(s[|s| - 1]) {
      TrimRightNone(s[..|s| - 1]);
    }
  }

  /** A text put after another and ending in a word: only what comes before it can be trimmed. */
  lemma TrimOfSum(u: string, w: string)
    requires w != [] && !IsSpace(w[|w| - 1])
    ensures TrimSpace(u) == [] ==> TrimSpace(u + w) == TrimSpace(w)
    ensures TrimSpace(u) != [] ==> TrimSpace(u + w) == TrimLeft(u) + w && TrimSpace(u) <= TrimLeft(u)
  {
    TrimLeftOfSum(u, w);
    var l := TrimLeft(u);
    if TrimSpace(u) == [] {
      TrimRightNone(l);
      assert l == [];
    } else {
      assert (l + w)[|l + w| - 1] == w[|w| - 1];
    }
  }

  /** The first of several words stays the first word, whatever is put behind the text. */
  lemma FirstWordStays(r: string, l: string)
    requires r <= l && r != [] && !IsSpace(r[0]) && |Fields(r)| >= 2
    ensures Fields(l) != [] && Fields(l)[0] == Fields(r)[0]
  {
    var n := WordLen(r);
    assert TrimLeft(r) == r;
    assert l == l[..n] + l[n..] && l[..n] == r[..n] && l[n] == r[n];
    WordLenIs(l[..n], l[n..]);
    assert TrimLeft(l) == l;
  }

  /* ---------------------------------------------------------------------- order */

  /** strings.Compare */
  function CompareText(a: string, b: string): int {
    if a == [] && b == [] then 0
    else if a == [] then -1
    else if b == [] then 1
    else if a[0] < b[0] then -1
    else if a[0] > b[0] then 1
    else CompareText(a[1..], b[1..])
  }

  predicate Before(a: string, b: string) {
    CompareText(a, b) < 0
  }

  lemma {:induction false} CompareTextOrder(a: string, b: string)
    ensures CompareText(a, b) == 0 <==> a == b
    ensures CompareText(b, a) == -CompareText(a, b)
  {
    if a != [] && b != [] && a[0] == b[0] {
      CompareTextOrder(a[1..], b[1..]);
      assert a == [a[0]] + a[1..] && b == [b[0]] + b[1..];
    }
  }

  lemma {:induction false} BeforeTransitive(a: string, b: string, c: string)
    requires Before(a, b) && Before(b, c)
    ensures Before(a, c)
  {
    if a != [] && b != [] && c != [] && a[0] == b[0] == c[0] {
      BeforeTransitive(a[1..], b[1..], c[1..]);
    }
  }

  /** A text comes before any longer one that begins with it. */
  lemma {:induction false} PrefixIsBefore(a: string, b: string)
    requires a < b
    ensures Before(a, b)
  {
    if a != [] {
      PrefixIsBefore(a[1..], b[1..]);
    }
  }

  /** They are the same up to the i-th character, and there the first has the smaller one. */
  predicate SmallerAt(a: string, b: string, i: nat) {
    i < |a| && i < |b| && a[..i] == b[..i] && a[i] < b[i]
  }

  /** A text comes before another exactly if it is a beginning of it, or has the smaller character where they differ. */
  lemma {:induction false} BeforeIff(a: string, b: string)
    ensures Before(a, b) <==> a < b || exists i :: SmallerAt(a, b, i)
  {
    if a != [] && b != [] && a[0] == b[0] {
      var x, y := a[1..], b[1..];
      BeforeIff(x, y);
      assert a == [a[0]] + x && b == [b[0]] + y;
      assert x < y <==> a < b;
      forall i: nat ensures SmallerAt(x, y, i) <==> SmallerAt(a, b, i + 1) {
        if i < |x| && i < |y| {
          assert a[..i + 1] == [a[0]] + x[..i] && b[..i + 1] == [b[0]] + y[..i];
          assert x[..i] == a[..i + 1][1..] && y[..i] == b[..i + 1][1..];
        }
      }
      forall i: nat | SmallerAt(a, b, i) ensures i > 0 && SmallerAt(x, y, i - 1) {
        assert i > 0;
      }
    } else if a != [] && b != [] {
      assert a[..0] == b[..0];
      assert a[0] < b[0] ==> SmallerAt(a, b, 0);
    }
  }

  /** In order, each once. */
  ghost predicate Sorted(list: seq<string>) {
    forall i, j :: 0 <= i < j < |list| ==> Before(list[i], list[j])
  }

  method InsertSorted(list: seq<string>, x: string) returns (r: seq<string>)
    requires Sorted(list) && x !in list
    ensures Sorted(r) && forall y :: y in r <==> y == x || y in list
  {
    var k := 0;
    while k < |list| && Before(list[k], x)
      invariant k <= |list| && forall i :: 0 <= i < k ==> Before(list[i], x)
    {
      k := k + 1;
    }
    forall j | k <= j < |list| ensures Before(x, list[j]) {
      CompareTextOrder(list[k], x);
      assert list[k] in list;
      if k < j {
        BeforeTransitive(x, list[k], list[j]);
      }
    }
    r := list[..k] + [x] + list[k..];
    assert list == list[..k] + list[k..];
  }

  /** sort.Strings, of the members of a set. */
  method SortStrings(names: set<string>) returns (list: seq<string>)
    ensures Sorted(list) && forall x :: x in list <==> x in names
  {
    list := [];
    var left := names;
    while left != {}
      invariant left <= names && Sorted(list)
      invariant forall x :: x in list <==> x in names && x !in left
      decreases left
    {
      var x :| x in left;
      list := InsertSorted(list, x);
      left := left - {x};
    }
  }
}
