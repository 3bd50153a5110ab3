/**
 The running best of a list under any relation: an element is kept until a later one is newer.
 Exactly when the order of the list cannot matter.
 */
module RunningBest {

  function Best<T>(list: seq<T>, newer: (T, T) -> bool): T
    requires list != []
  {
    if |list| == 1 then list[0]
    else
      var best := Best(list[..|list| - 1], newer);
      if newer(list[|list| - 1], best) then list[|list| - 1] else best
  }

  lemma BestNext<T>(front: seq<T>, x: T, newer: (T, T) -> bool)
    requires front != []
    ensures Best(front + [x], newer) == if newer(x, Best(front, newer)) then x else Best(front, newer)
  {
    assert (front + [x])[..|front|] == front;
  }

  /**
   Of two elements at most one is newer, and what is not newer than another is not newer than what that one is
   not newer than either.
   */
  ghost predicate WeakOrder<T>(list: seq<T>, newer: (T, T) -> bool) {
    && (forall x, y :: x in list && y in list && newer(x, y) ==> !newer(y, x))
    && (forall x, y, z :: x in list && y in list && z in list && !newer(x, y) && !newer(y, z) ==> !newer(x, z))
  }

  /** Then nothing is newer than the best. */
  lemma {:induction false} NothingIsNewer<T>(list: seq<T>, newer: (T, T) -> bool)
    requires list != [] && WeakOrder(list, newer)
    ensures Best(list, newer) in list && forall x :: x in list ==> !newer(x, Best(list, newer))
  {
    BestIsMember(list, newer);
    if |list| > 1 {
      var front, last := list[..|list| - 1], list[|list| - 1];
      assert list == front + [last];
      NothingIsNewer(front, newer);
      var best := Best(front, newer);
      assert best in list && last in list && !newer(best, best);
      forall x | x in list ensures !newer(x, Best(list, newer)) {
        if x in front {
          assert !newer(x, best);
        } else {
          assert x == last;
        }
      }
    }
  }

  /** It is newer than every other element, and none is newer than it. */
  ghost predicate Champion<T>(w: T, list: seq<T>, newer: (T, T) -> bool) {
    w in list && forall x :: x in list && x != w ==> newer(w, x) && !newer(x, w)
  }

  ghost predicate Reordered<T>(other: seq<T>, list: seq<T>) {
    multiset(other) == multiset(list)
  }

  ghost predicate SameBest<T>(other: seq<T>, list: seq<T>, newer: (T, T) -> bool) {
    other != [] && list != [] && Best(other, newer) == Best(list, newer)
  }

  /** Whatever order the elements come in, the same one is best. */
  ghost predicate OrderIrrelevant<T(!new)>(list: seq<T>, newer: (T, T) -> bool) {
    forall other: seq<T> :: Reordered(other, list) ==> SameBest(other, list, newer)
  }

  lemma {:induction false} ChampionIsBest<T>(list: seq<T>, newer: (T, T) -> bool, w: T)
    requires Champion(w, list, newer)
    ensures list != [] && Best(list, newer) == w
  {
    if |list| > 1 {
      var n := |list| - 1;
      BestIsMember(list[..n], newer);
      if w in list[..n] {
        ChampionIsBest(list[..n], newer, w);
      }
    }
  }

  lemma {:induction false} BestIsMember<T>(list: seq<T>, newer: (T, T) -> bool)
    requires list != []
    ensures Best(list, newer) in list
  {
    if |list| > 1 {
      BestIsMember(list[..|list| - 1], newer);
    }
  }

  /** What is best at the end, and does not come in `b`, was best before it and is beaten by nothing in it. */
  lemma {:induction false} FirstSurvives<T>(a: seq<T>, b: seq<T>, newer: (T, T) -> bool, w: T)
    requires a != [] && w !in b && Best(a + b, newer) == w
    ensures Best(a, newer) == w && forall x :: x in b ==> !newer(x, w)
  {
    if b == [] {
      assert a + b == a;
    } else {
      var n := |b| - 1;
      assert b == b[..n] + [b[n]] && a + b == (a + b[..n]) + [b[n]];
      BestNext(a + b[..n], b[n], newer);
      FirstSurvives(a, b[..n], newer, w);
    }
  }

  lemma {:induction false} StaysFirst<T>(x: T, copies: seq<T>, newer: (T, T) -> bool, w: T)
    requires !newer(w, x) && forall i :: 0 <= i < |copies| ==> copies[i] == w
    ensures Best([x] + copies, newer) == x
  {
    if copies == [] {
      assert [x] + copies == [x];
    } else {
      var n := |copies| - 1;
      StaysFirst(x, copies[..n], newer, w);
      assert [x] + copies == ([x] + copies[..n]) + [copies[n]];
      BestNext([x] + copies[..n], copies[n], newer);
    }
  }

  /** The elements that are `w`, or those that are not, in order. */
  function Those<T(==)>(list: seq<T>, w: T, equal: bool): (r: seq<T>)
    ensures forall i :: 0 <= i < |r| ==> (r[i] == w) == equal
  {
    if list == [] then []
    else
      var rest := Those(list[..|list| - 1], w, equal);
      if (list[|list| - 1] == w) == equal then rest + [list[|list| - 1]] else rest
  }

  lemma {:induction false} SplitThose<T>(list: seq<T>, w: T)
    ensures multiset(Those(list, w, true)) + multiset(Those(list, w, false)) == multiset(list)
  {
    if list != [] {
      var n := |list| - 1;
      SplitThose(list[..n], w);
      assert list == list[..n] + [list[n]];
    }
  }

  lemma SameElements<T>(a: seq<T>, b: seq<T>)
    requires multiset(a) == multiset(b)
    ensures forall x :: x in a <==> x in b
  {
    forall x ensures x in a <==> x in b {
      assert x in a <==> x in multiset(a);
      assert x in b <==> x in multiset(b);
    }
  }

  /** If the order does not matter, no other element is newer than the best: it could come right after it. */
  lemma NothingBeatsIt<T(!new)>(list: seq<T>, newer: (T, T) -> bool, x: T)
    requires list != [] && OrderIrrelevant(list, newer) && x in list && x != Best(list, newer)
    ensures !newer(x, Best(list, newer))
  {
    var w := Best(list, newer);
    var copies, others := Those(list, w, true), Those(list, w, false);
    SplitThose(list, w);
    BestIsMember(list, newer);
    SameElements(copies + others, list);
    assert copies != [] by {
      assert w in copies + others;
    }
    assert x in copies + others;
    assert Reordered(copies + others, list) && SameBest(copies + others, list, newer);
    FirstSurvives(copies, others, newer, w);
  }

  lemma TakeOut<T>(list: seq<T>, x: T) returns (rest: seq<T>)
    requires x in list
    ensures multiset([x]) + multiset(rest) == multiset(list)
    ensures forall y :: y in rest ==> y in list
  {
    var i :| 0 <= i < |list| && list[i] == x;
    rest := list[..i] + list[i + 1..];
    assert list == list[..i] + ([x] + list[i + 1..]);
  }

  lemma ThreeParts<T>(x: T, copies: seq<T>, rest: seq<T>, others: seq<T>, list: seq<T>)
    requires multiset([x]) + multiset(rest) == multiset(others)
    requires multiset(copies) + multiset(others) == multiset(list)
    ensures Reordered(([x] + copies) + rest, list)
  {
    assert multiset(([x] + copies) + rest) == multiset([x]) + multiset(copies) + multiset(rest);
  }

  /** The list with `x` first, then all copies of `w`, then the rest. */
  lemma PutBefore<T>(list: seq<T>, w: T, x: T) returns (copies: seq<T>, rest: seq<T>)
    requires x in list && x != w
    ensures Reordered(([x] + copies) + rest, list)
    ensures w !in rest && forall i :: 0 <= i < |copies| ==> copies[i] == w
  {
    copies := Those(list, w, true);
    var others := Those(list, w, false);
    SplitThose(list, w);
    SameElements(copies + others, list);
    assert x in copies + others;
    rest := TakeOut(others, x);
    ThreeParts(x, copies, rest, others, list);
  }

  /** And it is newer than every other: that one could come right before it. */
  lemma ItBeatsAll<T(!new)>(list: seq<T>, newer: (T, T) -> bool, x: T)
    requires list != [] && OrderIrrelevant(list, newer) && x in list && x != Best(list, newer)
    ensures newer(Best(list, newer), x)
  {
    var w := Best(list, newer);
    var copies, rest := PutBefore(list, w, x);
    assert SameBest(([x] + copies) + rest, list, newer);
    FirstSurvives([x] + copies, rest, newer, w);
    if !newer(w, x) {
      StaysFirst(x, copies, newer, w);
    }
  }

  lemma ChampionSettles<T(!new)>(list: seq<T>, newer: (T, T) -> bool, w: T)
    requires Champion(w, list, newer)
    ensures list != [] && OrderIrrelevant(list, newer) && Best(list, newer) == w
  {
    ChampionIsBest(list, newer, w);
    forall other: seq<T> | Reordered(other, list) ensures SameBest(other, list, newer) {
      SameElements(other, list);
      ChampionIsBest(other, newer, w);
    }
  }

  /** The order does not matter exactly when there is a champion. */
  lemma OrderIrrelevantIff<T(!new)>(list: seq<T>, newer: (T, T) -> bool)
    requires list != []
    ensures OrderIrrelevant(list, newer) <==> exists w :: Champion(w, list, newer)
  {
    if OrderIrrelevant(list, newer) {
      var w := Best(list, newer);
      BestIsMember(list, newer);
      forall x | x in list && x != w ensures newer(w, x) && !newer(x, w) {
        ItBeatsAll(list, newer, x);
        NothingBeatsIt(list, newer, x);
      }
      assert Champion(w, list, newer);
    }
    if exists w :: Champion(w, list, newer) {
      var w :| Champion(w, list, newer);
      ChampionSettles(list, newer, w);
    }
  }
}
