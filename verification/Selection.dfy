/** The elements of a sequence that meet a test, in order. */
module Selection {
  import opened Sorting

  function Select<T>(s: seq<T>, keep: T -> bool): (r: seq<T>) {
    if s == [] then [] else First(s[0], keep) + Select(s[1..], keep)
  }

  function First<T>(x: T, keep: T -> bool): (r: seq<T>) {
    if keep(x) then [x] else []
  }

  lemma {:induction false} SelectJoin<T>(a: seq<T>, b: seq<T>, keep: T -> bool)
    ensures Select(a + b, keep) == Select(a, keep) + Select(b, keep)
  {
    if a == [] {
      assert a + b == b;
    } else {
      hide First;
      var first, rest, after := First(a[0], keep), Select(a[1..], keep), Select(b, keep);
      assert (a + b)[0] == a[0] && (a + b)[1..] == a[1..] + b;
      SelectJoin(a[1..], b, keep);
      Regroup(first, rest, after);
    }
  }

  lemma Regroup<T>(a: seq<T>, b: seq<T>, c: seq<T>)
    ensures a + (b + c) == (a + b) + c
  {
  }

  lemma {:induction false} SelectMembers<T>(s: seq<T>, keep: T -> bool, x: T)
    ensures x in Select(s, keep) <==> x in s && keep(x)
  {
    if s != [] {
      assert s == [s[0]] + s[1..];
      SelectMembers(s[1..], keep, x);
    }
  }

  lemma {:induction false} SelectDistinct<T>(s: seq<T>, keep: T -> bool)
    requires Distinct(s)
    ensures Distinct(Select(s, keep))
  {
    if s != [] {
      assert s == [s[0]] + s[1..];
      SelectDistinct(s[1..], keep);
      SelectMembers(s[1..], keep, s[0]);
      DistinctAppend(First(s[0], keep), Select(s[1..], keep));
    }
  }
}
