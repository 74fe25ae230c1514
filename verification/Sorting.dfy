/** The standard library's stable sort, as an insertion sort: whatever its algorithm, a stable
    sort has one result. */
module Sorting {

  ghost predicate TotalPreorder<A(!new)>(le: (A, A) -> bool) {
    && (forall x, y :: le(x, y) || le(y, x))
    && (forall x, y, z :: le(x, y) && le(y, z) ==> le(x, z))
  }

  function Insert<A(!new)>(le: (A, A) -> bool, x: A, s: seq<A>): seq<A> {
    if s == [] then [x]
    else if le(x, s[0]) then [x] + s
    else [s[0]] + Insert(le, x, s[1..])
  }

  function SortBy<A(!new)>(le: (A, A) -> bool, s: seq<A>): seq<A> {
    if s == [] then [] else Insert(le, s[0], SortBy(le, s[1..]))
  }

  ghost predicate SortedBy<A(!new)>(le: (A, A) -> bool, s: seq<A>) {
    forall i, j | 0 <= i < j < |s| :: le(s[i], s[j])
  }

  function Filter<A(!new)>(p: A -> bool, s: seq<A>): (r: seq<A>)
    ensures forall x :: x in r <==> x in s && p(x)
  {
    if s == [] then [] else (if p(s[0]) then [s[0]] else []) + Filter(p, s[1..])
  }

  lemma {:induction false} FilterPush<A(!new)>(p: A -> bool, s: seq<A>, x: A)
    ensures Filter(p, s + [x]) == Filter(p, s) + if p(x) then [x] else []
    decreases |s|
  {
    if s != [] {
      FilterPush(p, s[1..], x);
      assert (s + [x])[1..] == s[1..] + [x];
    }
  }

  lemma {:induction false} InsertPermutes<A(!new)>(le: (A, A) -> bool, x: A, s: seq<A>)
    ensures multiset(Insert(le, x, s)) == multiset(s) + multiset{x}
    decreases |s|
  {
    if s != [] {
      assert s == [s[0]] + s[1..];
      if !le(x, s[0]) {
        InsertPermutes(le, x, s[1..]);
      }
    }
  }

  lemma {:induction false} SortPermutes<A(!new)>(le: (A, A) -> bool, s: seq<A>)
    ensures multiset(SortBy(le, s)) == multiset(s)
    decreases |s|
  {
    if s != [] {
      assert s == [s[0]] + s[1..];
      SortPermutes(le, s[1..]);
      InsertPermutes(le, s[0], SortBy(le, s[1..]));
    }
  }

  lemma SameMembers<A(!new)>(s: seq<A>, t: seq<A>)
    requires multiset(s) == multiset(t)
    ensures forall x :: x in s <==> x in t
    ensures |s| == |t|
  {
    forall x ensures x in s <==> x in t {
      assert x in s <==> x in multiset(s);
    }
    assert |multiset(s)| == |s| && |multiset(t)| == |t|;
  }

  lemma {:induction false} InsertSorts<A(!new)>(le: (A, A) -> bool, x: A, s: seq<A>)
    requires TotalPreorder(le) && SortedBy(le, s)
    ensures SortedBy(le, Insert(le, x, s))
    decreases |s|
  {
    if s != [] && !le(x, s[0]) {
      InsertSorts(le, x, s[1..]);
      var rest := Insert(le, x, s[1..]);
      InsertPermutes(le, x, s[1..]);
      forall y | y in rest ensures le(s[0], y) {
        assert y in multiset(rest);
      }
    }
  }

  lemma {:induction false} SortSorts<A(!new)>(le: (A, A) -> bool, s: seq<A>)
    requires TotalPreorder(le)
    ensures SortedBy(le, SortBy(le, s))
    decreases |s|
  {
    if s != [] {
      SortSorts(le, s[1..]);
      InsertSorts(le, s[0], SortBy(le, s[1..]));
    }
  }

  /** Stability: elements that compare alike keep the order they had. */
  lemma {:induction false} SortIsStable<A(!new)>(le: (A, A) -> bool, s: seq<A>, p: A -> bool)
    requires forall x, y | x in s && y in s && p(x) && p(y) :: le(x, y)
    ensures Filter(p, SortBy(le, s)) == Filter(p, s)
    decreases |s|
  {
    if s != [] {
      SortIsStable(le, s[1..], p);
      SortPermutes(le, s[1..]);
      SameMembers(SortBy(le, s[1..]), s[1..]);
      InsertStable(le, s[0], SortBy(le, s[1..]), p);
    }
  }

  lemma {:induction false} InsertStable<A(!new)>(le: (A, A) -> bool, x: A, s: seq<A>, p: A -> bool)
    requires forall y | y in s && p(x) && p(y) :: le(x, y)
    ensures Filter(p, Insert(le, x, s)) == (if p(x) then [x] else []) + Filter(p, s)
    decreases |s|
  {
    if s == [] {
    } else if le(x, s[0]) {
      assert ([x] + s)[1..] == s;
    } else {
      assert s[0] in s;
      InsertStable(le, x, s[1..], p);
      assert ([s[0]] + Insert(le, x, s[1..]))[1..] == Insert(le, x, s[1..]);
    }
  }

  /** Two sorted lists of the same elements are equal when no two of them compare alike. */
  lemma {:induction false} SortedUnique<A(!new)>(le: (A, A) -> bool, s: seq<A>, t: seq<A>)
    requires TotalPreorder(le) && SortedBy(le, s) && SortedBy(le, t)
    requires multiset(s) == multiset(t)
    requires forall x, y | x in s && y in s && le(x, y) && le(y, x) :: x == y
    ensures s == t
    decreases |s|
  {
    SameMembers(s, t);
    if s != [] {
      FirstIsLeast(le, s, t[0]);
      FirstIsLeast(le, t, s[0]);
      SameTail(s, t);
      SortedUnique(le, s[1..], t[1..]);
    }
  }

  lemma FirstIsLeast<A(!new)>(le: (A, A) -> bool, s: seq<A>, x: A)
    requires TotalPreorder(le) && SortedBy(le, s) && x in s
    ensures le(s[0], x)
  {
  }

  lemma SameTail<A(!new)>(s: seq<A>, t: seq<A>)
    requires s != [] && t != [] && s[0] == t[0] && multiset(s) == multiset(t)
    ensures multiset(s[1..]) == multiset(t[1..])
  {
    assert s == [s[0]] + s[1..] && t == [t[0]] + t[1..];
    assert multiset(s[1..]) == multiset(s) - multiset{s[0]};
    assert multiset(t[1..]) == multiset(t) - multiset{t[0]};
  }
}
