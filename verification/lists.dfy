/** Sequence facts behind the game's ArrayList bookkeeping: `remove(int)` on a list,
    lists without repeated elements, and counting the elements that satisfy a test. */
module Lists {

  /** `list.remove(k)`: the element at position `k` leaves, the later ones move up. */
  function RemoveAt<T>(s: seq<T>, k: int): (r: seq<T>)
    requires 0 <= k < |s|
    ensures |r| == |s| - 1
    ensures forall i :: 0 <= i < k ==> r[i] == s[i]
    ensures forall i :: k <= i < |r| ==> r[i] == s[i + 1]
  {
    s[..k] + s[k + 1..]
  }

  ghost predicate Distinct<T>(s: seq<T>)
  {
    forall i, j :: 0 <= i < j < |s| ==> s[i] != s[j]
  }

  /** The number of elements of `s` that pass `test`. */
  function CountWhere<T>(s: seq<T>, test: T -> bool): (n: nat)
    ensures n <= |s|
    ensures n == 0 <==> forall i :: 0 <= i < |s| ==> !test(s[i])
  {
    if s == [] then 0
    else CountWhere(s[..|s| - 1], test) + (if test(s[|s| - 1]) then 1 else 0)
  }

  /** Removing one element keeps the rest distinct, and what remains is exactly the
      other elements. */
  lemma RemoveAtDistinct<T>(s: seq<T>, k: int)
    requires 0 <= k < |s| && Distinct(s)
    ensures Distinct(RemoveAt(s, k))
    ensures forall x :: x in RemoveAt(s, k) <==> x in s && x != s[k]
  {
    var r := RemoveAt(s, k);
    forall x | x in s && x != s[k]
      ensures x in r
    {
      var i :| 0 <= i < |s| && s[i] == x;
      if i < k { assert r[i] == x; } else { assert r[i - 1] == x; }
    }
  }

  /** What remains after a removal was already in the list, and only the removed
      position is lost. */
  lemma RemoveAtMembers<T>(s: seq<T>, k: int)
    requires 0 <= k < |s|
    ensures forall x :: x in RemoveAt(s, k) ==> x in s
    ensures forall x :: x in s && x != s[k] ==> x in RemoveAt(s, k)
  {
    var r := RemoveAt(s, k);
    forall x | x in r
      ensures x in s
    {
      var i :| 0 <= i < |r| && r[i] == x;
      if i < k { assert s[i] == x; } else { assert s[i + 1] == x; }
    }
    forall x | x in s && x != s[k]
      ensures x in r
    {
      var i :| 0 <= i < |s| && s[i] == x;
      if i < k { assert r[i] == x; } else { assert r[i - 1] == x; }
    }
  }

  /** Removing from the second part of a concatenation. */
  lemma RemoveAtShift<T>(a: seq<T>, b: seq<T>, k: int)
    requires 0 <= k < |b|
    ensures a + RemoveAt(b, k) == RemoveAt(a + b, |a| + k)
  {
    assert (a + b)[..|a| + k] == a + b[..k];
    assert (a + b)[|a| + k + 1..] == b[k + 1..];
  }

  lemma RemoveAtAppend<T>(a: seq<T>, b: seq<T>, k: int)
    requires 0 <= k < |a|
    ensures RemoveAt(a, k) + b == RemoveAt(a + b, k)
  {
    assert (a + b)[..k] == a[..k];
    assert (a + b)[k + 1..] == a[k + 1..] + b;
  }

  /** Distinct means every element occurs at most once. */
  lemma {:induction false} DistinctCounts<T>(s: seq<T>)
    ensures Distinct(s) <==> forall x :: multiset(s)[x] <= 1
  {
    if s == [] {
    } else {
      var t := s[..|s| - 1];
      var last := s[|s| - 1];
      assert s == t + [last];
      DistinctCounts(t);
      if Distinct(s) {
        assert Distinct(t);
        assert last !in t;
      } else {
        var i, j :| 0 <= i < j < |s| && s[i] == s[j];
        assert multiset(s) == multiset(t) + multiset{last};
        if j < |s| - 1 {
          assert t[i] == t[j];
          var x :| multiset(t)[x] > 1;
          assert multiset(s)[x] > 1;
        } else {
          assert t[i] == last;
          assert multiset(s)[last] == multiset(t)[last] + 1;
        }
      }
    }
  }

  /** Rearranging a list without repetitions leaves it without repetitions. */
  lemma DistinctPermutation<T>(a: seq<T>, b: seq<T>)
    requires Distinct(a) && multiset(a) == multiset(b)
    ensures Distinct(b)
  {
    DistinctCounts(a);
    DistinctCounts(b);
  }

  lemma {:induction false} CountWhereAppend<T>(a: seq<T>, b: seq<T>, test: T -> bool)
    ensures CountWhere(a + b, test) == CountWhere(a, test) + CountWhere(b, test)
    decreases |b|
  {
    if b == [] {
      assert a + b == a;
    } else {
      var c := b[..|b| - 1];
      assert (a + b)[..|a + b| - 1] == a + c;
      CountWhereAppend(a, c, test);
    }
  }

  /** Removing the element at `k` lowers the count by one exactly when that element
      passes the test. */
  lemma {:induction false} CountWhereRemoveAt<T>(s: seq<T>, k: int, test: T -> bool)
    requires 0 <= k < |s|
    ensures CountWhere(s, test) == CountWhere(RemoveAt(s, k), test) + (if test(s[k]) then 1 else 0)
  {
    var front := s[..|s| - 1];
    if k == |s| - 1 {
      assert RemoveAt(s, k) == front;
    } else {
      var r := RemoveAt(s, k);
      assert r[..|r| - 1] == RemoveAt(front, k);
      CountWhereRemoveAt(front, k, test);
    }
  }

  /** The elements of `s` that are not in `gone`, in their order in `s`. */
  function Without<T(==)>(s: seq<T>, gone: set<T>): (r: seq<T>)
    ensures |r| <= |s|
  {
    if s == [] then []
    else Without(s[..|s| - 1], gone) + (if s[|s| - 1] in gone then [] else [s[|s| - 1]])
  }

  /** What `Without` keeps is exactly the elements outside `gone`. */
  lemma {:induction false} WithoutMembers<T>(s: seq<T>, gone: set<T>)
    ensures forall x :: x in Without(s, gone) <==> x in s && x !in gone
  {
    if s != [] {
      var front := s[..|s| - 1];
      assert s == front + [s[|s| - 1]];
      WithoutMembers(front, gone);
    }
  }

  /** Taking nothing out leaves the sequence as it is. */
  lemma {:induction false} WithoutNothing<T>(s: seq<T>)
    ensures Without(s, {}) == s
  {
    if s != [] {
      var front := s[..|s| - 1];
      assert s == front + [s[|s| - 1]];
      WithoutNothing(front);
    }
  }

  /** Adding to `gone` an element that `s` does not hold changes nothing. */
  lemma {:induction false} WithoutAbsent<T>(s: seq<T>, gone: set<T>, x: T)
    requires x !in s
    ensures Without(s, gone + {x}) == Without(s, gone)
  {
    if s != [] {
      var front := s[..|s| - 1];
      assert s == front + [s[|s| - 1]];
      WithoutAbsent(front, gone, x);
    }
  }

  /** Removing, by position, one more element from what `Without` kept is the same
      as adding that element to `gone`: a removal by index keeps the order of the
      rest. */
  lemma {:induction false} WithoutRemoveAt<T>(s: seq<T>, gone: set<T>, k: int)
    requires Distinct(s) && 0 <= k < |Without(s, gone)|
    ensures RemoveAt(Without(s, gone), k) == Without(s, gone + {Without(s, gone)[k]})
  {
    var kept := Without(s, gone);
    var x := kept[k];
    var front := s[..|s| - 1];
    var last := s[|s| - 1];
    assert s == front + [last];
    var keptFront := Without(front, gone);
    assert Distinct(front);
    WithoutMembers(front, gone);
    if last == x {
      assert last !in front;
      WithoutAbsent(front, gone, x);
      assert kept == keptFront + [x];
      assert x !in keptFront;
    } else if last in gone {
      assert kept == keptFront;
      WithoutRemoveAt(front, gone, k);
    } else {
      assert kept == keptFront + [last];
      assert k < |keptFront|;
      WithoutRemoveAt(front, gone, k);
      RemoveAtAppend(keptFront, [last], k);
    }
  }
}
