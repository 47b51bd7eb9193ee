/** Ordering by name, and the sort every scheduler output goes through. */
module Sorting {

  /** Order of two names: by code point, a proper prefix first. */
  predicate NameLeq(a: string, b: string) {
    a == [] || (b != [] && (a[0] < b[0] || (a[0] == b[0] && NameLeq(a[1..], b[1..]))))
  }

  lemma {:induction false} NameLeqTotal(a: string, b: string)
    ensures NameLeq(a, b) || NameLeq(b, a)
  {
    if a != [] && b != [] && a[0] == b[0] {
      NameLeqTotal(a[1..], b[1..]);
    }
  }

  lemma {:induction false} NameLeqTransitive(a: string, b: string, c: string)
    requires NameLeq(a, b) && NameLeq(b, c)
    ensures NameLeq(a, c)
  {
    if a != [] && a[0] == b[0] == c[0] {
      NameLeqTransitive(a[1..], b[1..], c[1..]);
    }
  }

  ghost predicate TotalPreorder<T(!new)>(leq: (T, T) -> bool) {
    && (forall x, y :: leq(x, y) || leq(y, x))
    && (forall x, y, z :: leq(x, y) && leq(y, z) ==> leq(x, z))
  }

  lemma NamesAreOrdered()
    ensures TotalPreorder(NameLeq)
  {
    forall x, y ensures NameLeq(x, y) || NameLeq(y, x) {
      NameLeqTotal(x, y);
    }
    forall x, y, z | NameLeq(x, y) && NameLeq(y, z) ensures NameLeq(x, z) {
      NameLeqTransitive(x, y, z);
    }
  }

  ghost predicate SortedBy<T>(leq: (T, T) -> bool, s: seq<T>) {
    forall i, j :: 0 <= i < j < |s| ==> leq(s[i], s[j])
  }

  ghost predicate Distinct<T>(s: seq<T>) {
    forall i, j :: 0 <= i < j < |s| ==> s[i] != s[j]
  }

  lemma DistinctAppend<T>(a: seq<T>, b: seq<T>)
    requires Distinct(a) && Distinct(b)
    requires forall x :: x in a ==> x !in b
    ensures Distinct(a + b)
  {
    var s := a + b;
    forall i, j | 0 <= i < j < |s| ensures s[i] != s[j] {
      if i < |a| <= j {
        assert s[i] in a && s[j] in b;
      }
    }
  }

  function Insert<T(!new)>(leq: (T, T) -> bool, x: T, s: seq<T>): (r: seq<T>)
    requires TotalPreorder(leq) && SortedBy(leq, s)
    ensures SortedBy(leq, r) && multiset(r) == multiset(s) + multiset{x}
  {
    if s == [] then
      [x]
    else if leq(x, s[0]) then
      [x] + s
    else
      var rest := Insert(leq, x, s[1..]);
      assert s == [s[0]] + s[1..];
      SmallestFirst(leq, s[0], x, s[1..], rest);
      [s[0]] + rest
  }

  lemma SmallestFirst<T(!new)>(leq: (T, T) -> bool, first: T, x: T, tail: seq<T>, rest: seq<T>)
    requires TotalPreorder(leq) && SortedBy(leq, rest) && SortedBy(leq, [first] + tail) && !leq(x, first)
    requires multiset(rest) == multiset(tail) + multiset{x}
    ensures SortedBy(leq, [first] + rest)
  {
    forall k | 0 <= k < |rest| ensures leq(first, rest[k]) {
      assert leq(first, x) || leq(x, first);
      assert rest[k] in multiset(rest);
      if rest[k] != x {
        assert rest[k] in multiset(tail);
        assert rest[k] in tail;
        var i :| 0 <= i < |tail| && tail[i] == rest[k];
        assert ([first] + tail)[0] == first && ([first] + tail)[i + 1] == rest[k];
      }
    }
  }

  function Sort<T(!new)>(leq: (T, T) -> bool, s: seq<T>): (r: seq<T>)
    requires TotalPreorder(leq)
    ensures SortedBy(leq, r) && multiset(r) == multiset(s)
  {
    if s == [] then
      []
    else
      assert s == [s[0]] + s[1..];
      Insert(leq, s[0], Sort(leq, s[1..]))
  }

  /** A rearrangement keeps length, members and distinctness. */
  lemma SamePermutation<T>(r: seq<T>, s: seq<T>)
    requires multiset(r) == multiset(s)
    ensures |r| == |s|
    ensures forall x :: x in r <==> x in s
    ensures Distinct(s) ==> Distinct(r)
  {
    assert |multiset(r)| == |r| && |multiset(s)| == |s|;
    forall x ensures x in r <==> x in s {
      assert x in r <==> x in multiset(r);
      assert x in s <==> x in multiset(s);
    }
    if Distinct(s) {
      forall i, j | 0 <= i < j < |r| ensures r[i] != r[j] {
        DistinctCount(s, r[i]);
        RepeatedCount(r, i, j);
      }
    }
  }

  lemma {:induction false} DistinctCount<T>(s: seq<T>, x: T)
    requires Distinct(s)
    ensures multiset(s)[x] <= 1
  {
    if s != [] {
      assert s == [s[0]] + s[1..];
      DistinctCount(s[1..], x);
      if x == s[0] {
        assert x !in s[1..];
        assert multiset(s[1..])[x] == 0;
      }
    }
  }

  lemma RepeatedCount<T>(s: seq<T>, i: nat, j: nat)
    requires i < j < |s|
    ensures s[i] == s[j] ==> multiset(s)[s[i]] >= 2
  {
    assert s == s[..i] + [s[i]] + s[i + 1..j] + [s[j]] + s[j + 1..];
  }
}
