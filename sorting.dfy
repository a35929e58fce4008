/** In-place sorting under a total preorder, as `sort.Sort(sort.Reverse(...))`
    does it: no stability is promised, only a non-increasing permutation. */
module Sorting {
  /** `s` is non-increasing under `le`: every element is `le` every earlier one. */
  ghost predicate SortedDesc<T>(s: seq<T>, le: (T, T) -> bool) {
    forall i, j :: 0 <= i < j < |s| ==> le(s[j], s[i])
  }

  ghost predicate IsTotal<T(!new)>(le: (T, T) -> bool) {
    forall x, y :: le(x, y) || le(y, x)
  }

  ghost predicate IsTransitive<T(!new)>(le: (T, T) -> bool) {
    forall x, y, z :: le(x, y) && le(y, z) ==> le(x, z)
  }

  /** Insertion sort into non-increasing order by adjacent swaps. */
  method SortDescending<T(!new)>(a: array<T>, le: (T, T) -> bool)
    requires IsTotal(le) && IsTransitive(le)
    modifies a
    ensures SortedDesc(a[..], le)
    ensures multiset(a[..]) == old(multiset(a[..]))
  {
    var i := 0;
    while i < a.Length
      invariant 0 <= i <= a.Length
      invariant forall p, q :: 0 <= p < q < i ==> le(a[q], a[p])
      invariant multiset(a[..]) == old(multiset(a[..]))
    {
      var j := i;
      while j > 0 && !le(a[j], a[j - 1])
        invariant 0 <= j <= i
        invariant forall p, q :: 0 <= p < q <= i && p != j && q != j ==> le(a[q], a[p])
        invariant forall q :: j < q <= i ==> le(a[q], a[j])
        invariant multiset(a[..]) == old(multiset(a[..]))
      {
        a[j - 1], a[j] := a[j], a[j - 1];
        j := j - 1;
      }
      i := i + 1;
    }
  }

  /** Sorts a copy of `s` in place and returns it, as sorting a slice that
      nothing else refers to does. */
  method SortedDescending<T(!new)>(s: seq<T>, le: (T, T) -> bool) returns (r: seq<T>)
    requires IsTotal(le) && IsTransitive(le)
    ensures SortedDesc(r, le)
    ensures multiset(r) == multiset(s)
  {
    var a := new T[|s|](i requires 0 <= i < |s| => s[i]);
    assert a[..] == s;
    SortDescending(a, le);
    r := a[..];
  }

  // ---- A functional reference sort ----

  /** Inserts `x` before the first element that ranks at or below it. */
  ghost function InsertBy<T>(x: T, s: seq<T>, le: (T, T) -> bool): (r: seq<T>)
    ensures multiset(r) == multiset(s) + multiset{x}
  {
    if s == [] || le(s[0], x) then [x] + s
    else
      assert s == [s[0]] + s[1..];
      [s[0]] + InsertBy(x, s[1..], le)
  }

  lemma {:induction false} InsertBySorted<T(!new)>(x: T, s: seq<T>, le: (T, T) -> bool)
    requires IsTotal(le) && IsTransitive(le)
    requires SortedDesc(s, le)
    ensures SortedDesc(InsertBy(x, s, le), le)
  {
    if s != [] && !le(s[0], x) {
      InsertBySorted(x, s[1..], le);
      var r := InsertBy(x, s[1..], le);
      TailBelowHead(s, le);
      forall y | y in r
        ensures le(y, s[0])
      {
        assert y in multiset(r);
        if y != x {
          assert y in multiset(s[1..]);
        }
      }
      SortedCons(s[0], r, le);
    }
  }

  /** In a descending order every later element ranks at or below the
      head. */
  lemma TailBelowHead<T>(s: seq<T>, le: (T, T) -> bool)
    requires s != [] && SortedDesc(s, le)
    ensures forall y | y in s[1..] :: le(y, s[0])
  {
    forall y | y in s[1..] ensures le(y, s[0]) {
      var k :| 0 <= k < |s[1..]| && s[1..][k] == y;
      assert s[k + 1] == y;
    }
  }

  /** A head above every element of a descending order extends it. */
  lemma SortedCons<T>(h: T, r: seq<T>, le: (T, T) -> bool)
    requires SortedDesc(r, le)
    requires forall y | y in r :: le(y, h)
    ensures SortedDesc([h] + r, le)
  {
    var t := [h] + r;
    forall i, j | 0 <= i < j < |t|
      ensures le(t[j], t[i])
    {
      assert t[j] == r[j - 1];
      if i == 0 {
        assert r[j - 1] in r;
      } else {
        assert t[i] == r[i - 1];
      }
    }
  }

  /** Insertion sort, descending under `le`. */
  ghost function SortBy<T>(s: seq<T>, le: (T, T) -> bool): seq<T>
  {
    if s == [] then [] else InsertBy(s[0], SortBy(s[1..], le), le)
  }

  /** Every list has a non-increasing permutation. */
  lemma {:induction false} SortBySorts<T(!new)>(s: seq<T>, le: (T, T) -> bool)
    requires IsTotal(le) && IsTransitive(le)
    ensures SortedDesc(SortBy(s, le), le)
    ensures multiset(SortBy(s, le)) == multiset(s)
  {
    if s != [] {
      SortBySorts(s[1..], le);
      InsertBySorted(s[0], SortBy(s[1..], le), le);
      assert s == [s[0]] + s[1..];
    }
  }
}
