/** A stable sort, and what stability is worth. Python's `sorted` and `list.sort` are stable. */
module Sorting {

  function Insert<T>(x: T, s: seq<T>, leq: (T, T) -> bool): seq<T> {
    if s == [] then [x]
    else if leq(x, s[0]) then [x] + s
    else [s[0]] + Insert(x, s[1..], leq)
  }

  function StableSort<T>(s: seq<T>, leq: (T, T) -> bool): seq<T> {
    if s == [] then [] else Insert(s[0], StableSort(s[1..], leq), leq)
  }

  ghost predicate TotalPreorder<T(!new)>(leq: (T, T) -> bool) {
    && (forall x, y :: leq(x, y) || leq(y, x))
    && (forall x, y, z :: leq(x, y) && leq(y, z) ==> leq(x, z))
  }

  ghost predicate Pairwise<T>(s: seq<T>, rel: (T, T) -> bool) {
    forall i, j :: 0 <= i < j < |s| ==> rel(s[i], s[j])
  }

  /** In order of `leq`, and where `leq` ties, in the order `tie` says. */
  ghost predicate SortedWith<T>(s: seq<T>, leq: (T, T) -> bool, tie: (T, T) -> bool) {
    forall i, j :: 0 <= i < j < |s| ==> leq(s[i], s[j]) && (leq(s[j], s[i]) ==> tie(s[i], s[j]))
  }

  lemma {:induction false} InsertElements<T(!new)>(x: T, s: seq<T>, leq: (T, T) -> bool)
    ensures multiset(Insert(x, s, leq)) == multiset([x] + s)
    ensures |Insert(x, s, leq)| == |s| + 1
  {
    if s != [] && !leq(x, s[0]) {
      InsertElements(x, s[1..], leq);
      assert s == [s[0]] + s[1..];
    }
  }

  lemma {:induction false} SortElements<T(!new)>(s: seq<T>, leq: (T, T) -> bool)
    ensures multiset(StableSort(s, leq)) == multiset(s)
    ensures |StableSort(s, leq)| == |s|
  {
    if s != [] {
      SortElements(s[1..], leq);
      InsertElements(s[0], StableSort(s[1..], leq), leq);
      assert s == [s[0]] + s[1..];
    }
  }

  lemma MembersOf<T(!new)>(a: seq<T>, b: seq<T>)
    requires multiset(a) == multiset(b)
    ensures forall x :: x in a <==> x in b
  {
    forall x
      ensures x in a <==> x in b
    {
      assert x in a <==> x in multiset(a);
      assert x in b <==> x in multiset(b);
    }
  }

  lemma {:induction false} InsertSorts<T(!new)>(x: T, s: seq<T>, leq: (T, T) -> bool, tie: (T, T) -> bool)
    requires TotalPreorder(leq) && SortedWith(s, leq, tie)
    requires forall y :: y in s ==> tie(x, y)
    ensures SortedWith(Insert(x, s, leq), leq, tie)
  {
    if s == [] {
    } else if leq(x, s[0]) {
      forall j | 0 <= j < |s|
        ensures leq(x, s[j]) && tie(x, s[j])
      {
        assert leq(s[0], s[0]) && leq(s[0], s[j]);
      }
      assert SortedWith([x] + s, leq, tie);
    } else {
      InsertSorts(x, s[1..], leq, tie);
      var rest := Insert(x, s[1..], leq);
      InsertElements(x, s[1..], leq);
      MembersOf(rest, [x] + s[1..]);
      forall j | 0 <= j < |rest|
        ensures leq(s[0], rest[j]) && (leq(rest[j], s[0]) ==> tie(s[0], rest[j]))
      {
        assert rest[j] in rest && rest[j] in [x] + s[1..];
        if rest[j] != x {
          var k :| 0 <= k < |s[1..]| && s[1..][k] == rest[j];
          assert rest[j] == s[k + 1];
        }
      }
      assert SortedWith([s[0]] + rest, leq, tie);
    }
  }

  /** A stable pass keeps, among equals, whatever held between earlier and later elements. */
  lemma {:induction false} SortSorts<T(!new)>(s: seq<T>, leq: (T, T) -> bool, tie: (T, T) -> bool)
    requires TotalPreorder(leq) && Pairwise(s, tie)
    ensures SortedWith(StableSort(s, leq), leq, tie)
  {
    if s != [] {
      SortSorts(s[1..], leq, tie);
      SortElements(s[1..], leq);
      MembersOf(StableSort(s[1..], leq), s[1..]);
      InsertSorts(s[0], StableSort(s[1..], leq), leq, tie);
    }
  }

  lemma {:induction false} InsertKeepsPairwise<T(!new)>(x: T, s: seq<T>, leq: (T, T) -> bool, rel: (T, T) -> bool)
    requires Pairwise(s, rel) && forall y :: y in s ==> rel(x, y) && rel(y, x)
    ensures Pairwise(Insert(x, s, leq), rel)
  {
    if s != [] && !leq(x, s[0]) {
      InsertKeepsPairwise(x, s[1..], leq, rel);
      InsertElements(x, s[1..], leq);
      var rest := Insert(x, s[1..], leq);
      MembersOf(rest, [x] + s[1..]);
      forall j | 0 <= j < |rest|
        ensures rel(s[0], rest[j])
      {
        assert rest[j] in rest && rest[j] in [x] + s[1..];
        if rest[j] != x {
          var k :| 0 <= k < |s[1..]| && s[1..][k] == rest[j];
          assert rest[j] == s[k + 1];
        }
      }
    }
  }

  lemma {:induction false} SortKeepsPairwise<T(!new)>(s: seq<T>, leq: (T, T) -> bool, rel: (T, T) -> bool)
    requires Pairwise(s, rel) && forall x, y :: x in s && y in s && rel(x, y) ==> rel(y, x)
    ensures Pairwise(StableSort(s, leq), rel)
  {
    if s != [] {
      SortKeepsPairwise(s[1..], leq, rel);
      SortElements(s[1..], leq);
      MembersOf(StableSort(s[1..], leq), s[1..]);
      forall y | y in StableSort(s[1..], leq)
        ensures rel(s[0], y) && rel(y, s[0])
      {
        assert y in s[1..];
        var k :| 0 <= k < |s[1..]| && s[1..][k] == y;
        assert s[k + 1] == y;
      }
      InsertKeepsPairwise(s[0], StableSort(s[1..], leq), leq, rel);
    }
  }

  lemma {:induction false} SortOfSorted<T(!new)>(s: seq<T>, leq: (T, T) -> bool)
    requires Pairwise(s, leq)
    ensures StableSort(s, leq) == s
  {
    if s != [] {
      SortOfSorted(s[1..], leq);
    }
  }

  ghost predicate Strict<T>(s: seq<T>, leq: (T, T) -> bool) {
    forall i, j :: 0 <= i < j < |s| ==> !leq(s[j], s[i])
  }

  lemma HeadsAgree<T(!new)>(a: seq<T>, b: seq<T>, leq: (T, T) -> bool)
    requires a != [] && b != [] && multiset(a) == multiset(b)
    requires Pairwise(a, leq) && Strict(a, leq) && Pairwise(b, leq) && Strict(b, leq)
    ensures a[0] == b[0]
  {
    MembersOf(a, b);
    assert a[0] in b && b[0] in a;
    var i :| 0 <= i < |b| && b[i] == a[0];
    var j :| 0 <= j < |a| && a[j] == b[0];
    assert i == 0 || j == 0;
  }

  /** Two orderings of the same elements, both strictly sorted, are the same ordering. */
  lemma {:induction false} StrictOrderIsUnique<T(!new)>(a: seq<T>, b: seq<T>, leq: (T, T) -> bool)
    requires multiset(a) == multiset(b)
    requires Pairwise(a, leq) && Strict(a, leq) && Pairwise(b, leq) && Strict(b, leq)
    ensures a == b
  {
    assert |a| == |multiset(a)| == |multiset(b)| == |b|;
    if a != [] {
      HeadsAgree(a, b, leq);
      assert a == [a[0]] + a[1..] && b == [b[0]] + b[1..];
      assert multiset(a[1..]) == multiset(a) - multiset{a[0]};
      assert multiset(b[1..]) == multiset(b) - multiset{b[0]};
      StrictOrderIsUnique(a[1..], b[1..], leq);
    }
  }
}
