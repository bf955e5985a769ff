/** Facts about finite sequences used by the column and index checks. */
module Lists {

  /** No element occurs twice. */
  predicate Distinct<T(==)>(s: seq<T>) {
    forall i, j :: 0 <= i < j < |s| ==> s[i] != s[j]
  }

  lemma DistinctCons<T>(x: T, s: seq<T>)
    requires Distinct(s) && x !in s
    ensures Distinct([x] + s)
  {
    forall i, j | 0 <= i < j < |[x] + s| ensures ([x] + s)[i] != ([x] + s)[j] {
      assert ([x] + s)[j] == s[j - 1];
      if 0 < i {
        assert ([x] + s)[i] == s[i - 1];
      }
    }
  }

  /** `a` is obtained from `b` by deleting some elements and keeping the rest in order. */
  ghost predicate IsSubsequence<T>(a: seq<T>, b: seq<T>)
    decreases |b|
  {
    if b == [] then a == []
    else IsSubsequence(a, b[1..]) || (a != [] && a[0] == b[0] && IsSubsequence(a[1..], b[1..]))
  }

  /** The elements of `s` that do not occur in `t`, in their order in `s`:
      Python's `[x for x in s if x not in t]`. */
  function Without<T(==, !new)>(s: seq<T>, t: seq<T>): (r: seq<T>)
    ensures forall x :: x in r <==> x in s && x !in t
    ensures IsSubsequence(r, s)
  {
    if s == [] then []
    else if s[0] in t then Without(s[1..], t)
    else
      var rest := Without(s[1..], t);
      assert ([s[0]] + rest)[1..] == rest;
      [s[0]] + rest
  }

  lemma {:induction false} WithoutMultiplicity<T(!new)>(s: seq<T>, t: seq<T>, x: T)
    ensures multiset(Without(s, t))[x] == if x in t then 0 else multiset(s)[x]
  {
    if s != [] {
      assert s == [s[0]] + s[1..];
      WithoutMultiplicity(s[1..], t, x);
    }
  }

  lemma {:induction false} DistinctMultiplicity<T>(s: seq<T>, x: T)
    requires Distinct(s)
    ensures multiset(s)[x] == if x in s then 1 else 0
  {
    if s != [] {
      assert s == [s[0]] + s[1..];
      assert Distinct(s[1..]);
      DistinctMultiplicity(s[1..], x);
    }
  }

  /** Removing a distinct sub-collection `t` from a distinct `s` leaves exactly the rest of `s`. */
  lemma WithoutSplits<T(!new)>(s: seq<T>, t: seq<T>)
    requires Distinct(s) && Distinct(t)
    requires forall x :: x in t ==> x in s
    ensures multiset(t) + multiset(Without(s, t)) == multiset(s)
    ensures |t| + |Without(s, t)| == |s|
  {
    forall x ensures (multiset(t) + multiset(Without(s, t)))[x] == multiset(s)[x] {
      WithoutMultiplicity(s, t, x);
      DistinctMultiplicity(s, x);
      DistinctMultiplicity(t, x);
    }
    assert multiset(t) + multiset(Without(s, t)) == multiset(s);
    assert |multiset(t) + multiset(Without(s, t))| == |multiset(s)|;
  }

  lemma {:induction false} DistinctWithout<T(!new)>(s: seq<T>, t: seq<T>)
    requires Distinct(s)
    ensures Distinct(Without(s, t))
  {
    if s != [] {
      assert Distinct(s[1..]);
      DistinctWithout(s[1..], t);
      if s[0] !in t {
        assert s[0] !in s[1..];
      }
    }
  }

  lemma {:induction false} WithoutAppend<T(!new)>(a: seq<T>, b: seq<T>, t: seq<T>)
    ensures Without(a + b, t) == Without(a, t) + Without(b, t)
  {
    if a != [] {
      assert (a + b)[1..] == a[1..] + b;
      WithoutAppend(a[1..], b, t);
    } else {
      assert a + b == b;
    }
  }

  lemma {:induction false} WithoutDisjoint<T(!new)>(s: seq<T>, t: seq<T>)
    requires forall x :: x in s ==> x !in t
    ensures Without(s, t) == s
  {
    if s != [] {
      WithoutDisjoint(s[1..], t);
      assert [s[0]] + s[1..] == s;
    }
  }

  lemma WithoutEmpty<T(!new)>(s: seq<T>, t: seq<T>)
    ensures Without(s, t) == [] <==> forall x :: x in s ==> x in t
  {
    if Without(s, t) != [] {
      assert Without(s, t)[0] in Without(s, t);
    }
  }

  lemma {:induction false} SubsequenceLength<T>(a: seq<T>, b: seq<T>)
    requires IsSubsequence(a, b)
    ensures |a| <= |b|
    decreases |b|
  {
    if b != [] {
      if IsSubsequence(a, b[1..]) {
        SubsequenceLength(a, b[1..]);
      } else {
        SubsequenceLength(a[1..], b[1..]);
      }
    }
  }
}
