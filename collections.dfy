/** Order-preserving filtering of sequences, defined from the last element
    so that it follows a loop that appends. */
module Collections {
  /** The elements satisfying `p`, in order. */
  function Filter<T>(s: seq<T>, p: T -> bool): (r: seq<T>)
    ensures |r| <= |s|
    ensures forall x | x in r :: x in s && p(x)
  {
    if s == [] then []
    else Filter(s[..|s| - 1], p) + (if p(s[|s| - 1]) then [s[|s| - 1]] else [])
  }

  /** The elements not satisfying `p`, in order. */
  function Reject<T>(s: seq<T>, p: T -> bool): (r: seq<T>)
    ensures |r| <= |s|
    ensures forall x | x in r :: x in s && !p(x)
  {
    if s == [] then []
    else Reject(s[..|s| - 1], p) + (if !p(s[|s| - 1]) then [s[|s| - 1]] else [])
  }

  /** Filtering and rejecting split a sequence into two parts that together
      hold every element exactly as often. */
  lemma {:induction false} FilterRejectPermutation<T>(s: seq<T>, p: T -> bool)
    ensures multiset(Filter(s, p)) + multiset(Reject(s, p)) == multiset(s)
  {
    if s != [] {
      var init, last := s[..|s| - 1], s[|s| - 1];
      FilterRejectPermutation(init, p);
      assert s == init + [last];
      if p(last) {
        assert multiset(Filter(s, p)) == multiset(Filter(init, p)) + multiset{last};
        assert Reject(s, p) == Reject(init, p);
      } else {
        assert multiset(Reject(s, p)) == multiset(Reject(init, p)) + multiset{last};
        assert Filter(s, p) == Filter(init, p);
      }
    }
  }

  /** The images under `f` of the elements satisfying `p`, in order. */
  function FilterMap<T, U>(s: seq<T>, p: T -> bool, f: T -> U): (r: seq<U>)
    ensures |r| <= |s|
  {
    if s == [] then []
    else FilterMap(s[..|s| - 1], p, f) + (if p(s[|s| - 1]) then [f(s[|s| - 1])] else [])
  }

  /** Consecutive blocks map to consecutive blocks: order is kept. */
  lemma {:induction false} FilterMapAppend<T, U>(a: seq<T>, b: seq<T>, p: T -> bool, f: T -> U)
    ensures FilterMap(a + b, p, f) == FilterMap(a, p, f) + FilterMap(b, p, f)
    decreases |b|
  {
    if b == [] {
      assert a + b == a;
    } else {
      var init := b[..|b| - 1];
      FilterMapAppend(a, init, p, f);
      assert (a + b)[..|a + b| - 1] == a + init;
      assert (a + b)[|a + b| - 1] == b[|b| - 1];
    }
  }

  /** Every image comes from an element satisfying `p`, and every such
      element contributes its image. */
  lemma {:induction false} FilterMapMembers<T, U>(s: seq<T>, p: T -> bool, f: T -> U)
    ensures forall y | y in FilterMap(s, p, f) :: exists x :: x in s && p(x) && y == f(x)
    ensures forall x | x in s && p(x) :: f(x) in FilterMap(s, p, f)
  {
    if s != [] {
      var init, last := s[..|s| - 1], s[|s| - 1];
      FilterMapMembers(init, p, f);
      assert s == init + [last];
      forall y | y in FilterMap(s, p, f)
        ensures exists x :: x in s && p(x) && y == f(x)
      {
        if y in FilterMap(init, p, f) {
          var x :| x in init && p(x) && y == f(x);
          assert x in s;
        } else {
          assert last in s && p(last) && y == f(last);
        }
      }
    }
  }

  /** One more element extends the filtered images by its own image, if any. */
  lemma FilterMapStep<T, U>(s: seq<T>, i: nat, p: T -> bool, f: T -> U)
    requires i < |s|
    ensures FilterMap(s[..i + 1], p, f) == FilterMap(s[..i], p, f) + (if p(s[i]) then [f(s[i])] else [])
  {
    assert s[..i + 1][..i] == s[..i];
  }
}
