/** Filtering, order and multiplicity of sequences. */
module Sequences {

  /** The elements satisfying `p`, in order, each as often as it occurs. */
  function Filter<T>(s: seq<T>, p: T -> bool): seq<T> {
    if s == [] then [] else
    var n := |s| - 1;
    if p(s[n]) then Filter(s[..n], p) + [s[n]] else Filter(s[..n], p)
  }

  function Count<T>(s: seq<T>, p: T -> bool): nat {
    if s == [] then 0 else Count(s[..|s| - 1], p) + if p(s[|s| - 1]) then 1 else 0
  }

  function Map<S, T>(s: seq<S>, f: S -> T): (r: seq<T>)
    ensures |r| == |s|
    ensures forall i :: 0 <= i < |s| ==> r[i] == f(s[i])
  {
    seq(|s|, i requires 0 <= i < |s| => f(s[i]))
  }

  /** Where `key` occurs in `keys`, counted from `base`, in order. */
  function RowsOf<K(==)>(keys: seq<K>, base: nat, key: K): seq<nat> {
    if keys == [] then [] else
    var n := |keys| - 1;
    RowsOf(keys[..n], base, key) + if keys[n] == key then [base + n] else []
  }

  /** The longest beginning of at most `count` elements. */
  function Take<T>(s: seq<T>, count: nat): (r: seq<T>)
    ensures r <= s && |r| <= count && (|r| == count || r == s)
  {
    if |s| > count then s[..count] else s
  }

  ghost predicate Ascending(s: seq<nat>) {
    forall i, j :: 0 <= i < j < |s| ==> s[i] < s[j]
  }

  ghost predicate NoDuplicates<T>(s: seq<T>) {
    forall i, j :: 0 <= i < j < |s| ==> s[i] != s[j]
  }

  lemma {:induction false} FilterAppend<T>(a: seq<T>, b: seq<T>, p: T -> bool)
    ensures Filter(a + b, p) == Filter(a, p) + Filter(b, p)
  {
    if b == [] {
      assert a + b == a;
    } else {
      var n := |b| - 1;
      assert (a + b)[..|a + b| - 1] == a + b[..n];
      FilterAppend(a, b[..n], p);
    }
  }

  lemma {:induction false} FilterMember<T>(s: seq<T>, p: T -> bool, x: T)
    ensures x in Filter(s, p) <==> x in s && p(x)
  {
    if s == [] {
    } else {
      var n := |s| - 1;
      FilterMember(s[..n], p, x);
      assert s == s[..n] + [s[n]];
    }
  }

  lemma {:induction false} FilterAgree<T>(s: seq<T>, p: T -> bool, q: T -> bool)
    requires forall x :: x in s ==> p(x) == q(x)
    ensures Filter(s, p) == Filter(s, q)
  {
    if s == [] {
    } else {
      FilterAgree(s[..|s| - 1], p, q);
    }
  }

  lemma {:induction false} FilterFilter<T>(s: seq<T>, p: T -> bool, q: T -> bool)
    requires forall x :: x in s && q(x) ==> p(x)
    ensures Filter(Filter(s, p), q) == Filter(s, q)
  {
    if s == [] {
    } else {
      var n := |s| - 1;
      FilterFilter(s[..n], p, q);
      if p(s[n]) {
        assert (Filter(s[..n], p) + [s[n]])[..|Filter(s[..n], p)|] == Filter(s[..n], p);
      }
    }
  }

  lemma {:induction false} FilterNone<T>(s: seq<T>, p: T -> bool)
    requires forall x :: x in s ==> !p(x)
    ensures Filter(s, p) == []
  {
    if s == [] {
    } else {
      FilterNone(s[..|s| - 1], p);
    }
  }

  /** If every element satisfying `p` satisfies exactly one of `q` and `r`, the counts add up. */
  lemma {:induction false} CountSplit<T>(s: seq<T>, p: T -> bool, q: T -> bool, r: T -> bool)
    requires forall x :: x in s ==> (p(x) <==> q(x) || r(x)) && !(q(x) && r(x))
    ensures Count(s, p) == Count(s, q) + Count(s, r)
  {
    if s == [] {
    } else {
      CountSplit(s[..|s| - 1], p, q, r);
    }
  }

  lemma {:induction false} CountAppend<T>(a: seq<T>, b: seq<T>, p: T -> bool)
    ensures Count(a + b, p) == Count(a, p) + Count(b, p)
  {
    if b == [] {
      assert a + b == a;
    } else {
      var n := |b| - 1;
      assert (a + b)[..|a + b| - 1] == a + b[..n];
      CountAppend(a, b[..n], p);
    }
  }

  lemma {:induction false} CountAll<T>(s: seq<T>, p: T -> bool)
    requires forall x :: x in s ==> p(x)
    ensures Count(s, p) == |s|
  {
    if s == [] {
    } else {
      CountAll(s[..|s| - 1], p);
    }
  }

  lemma {:induction false} CountMonotone<T>(s: seq<T>, p: T -> bool, q: T -> bool)
    requires forall x :: x in s && p(x) ==> q(x)
    ensures Count(s, p) <= Count(s, q) <= |s|
  {
    if s == [] {
    } else {
      CountMonotone(s[..|s| - 1], p, q);
    }
  }

  lemma {:induction false} CountNone<T>(s: seq<T>, p: T -> bool)
    ensures Count(s, p) == 0 <==> forall x :: x in s ==> !p(x)
  {
    if s == [] {
    } else {
      CountNone(s[..|s| - 1], p);
      assert s == s[..|s| - 1] + [s[|s| - 1]];
    }
  }

  lemma {:induction false} FilterAscending(s: seq<nat>, p: nat -> bool)
    requires Ascending(s)
    ensures Ascending(Filter(s, p))
  {
    if s == [] {
    } else {
      var n := |s| - 1;
      FilterAscending(s[..n], p);
      var kept := Filter(s[..n], p);
      forall i | 0 <= i < |kept| ensures kept[i] < s[n] {
        FilterMember(s[..n], p, kept[i]);
      }
    }
  }

  /** Two lists laid out by one asymmetric relation with the same elements are the same list. */
  lemma {:induction false} ArrangementUnique<T>(a: seq<T>, b: seq<T>, before: (T, T) -> bool)
    requires forall x, y :: before(x, y) ==> !before(y, x)
    requires forall i, j :: 0 <= i < j < |a| ==> before(a[i], a[j])
    requires forall i, j :: 0 <= i < j < |b| ==> before(b[i], b[j])
    requires forall x :: x in a <==> x in b
    ensures a == b
  {
    assert (a != [] ==> a[0] in b) && (b != [] ==> b[0] in a);
    if a == [] {
    } else {
      var first, other := a[0], b[0];
      var j :| 0 <= j < |b| && b[j] == first;
      var i :| 0 <= i < |a| && a[i] == other;
      assert i == 0 || before(first, other);
      assert j == 0 || before(other, first);
      forall x ensures x in a[1..] <==> x in b[1..] {
        if x in a[1..] {
          var k :| 1 <= k < |a| && a[k] == x;
          assert before(a[0], a[k]);
          assert x in b;
        }
        if x in b[1..] {
          var k :| 1 <= k < |b| && b[k] == x;
          assert before(b[0], b[k]);
          assert x in a;
        }
      }
      ArrangementUnique(a[1..], b[1..], before);
      assert a == [a[0]] + a[1..] && b == [b[0]] + b[1..];
    }
  }

  lemma AscendingUnique(a: seq<nat>, b: seq<nat>)
    requires Ascending(a) && Ascending(b)
    requires forall x :: x in a <==> x in b
    ensures a == b
  {
    ArrangementUnique(a, b, (x: nat, y: nat) => x < y);
  }

  /** Where an element occurs twice, its multiplicity is at least two. */
  lemma TwiceInMultiset<T>(s: seq<T>, i: nat, j: nat)
    requires i < j < |s| && s[i] == s[j]
    ensures multiset(s)[s[i]] >= 2
  {
    assert s == s[..j] + [s[j]] + s[j + 1..];
    assert s[i] in s[..j];
    assert multiset(s) == multiset(s[..j]) + multiset([s[j]]) + multiset(s[j + 1..]);
  }

  lemma {:induction false} OnceInMultiset<T>(s: seq<T>)
    requires NoDuplicates(s)
    ensures forall x :: multiset(s)[x] <= 1
  {
    if s == [] {
    } else {
      var n := |s| - 1;
      OnceInMultiset(s[..n]);
      assert s == s[..n] + [s[n]];
      assert multiset(s) == multiset(s[..n]) + multiset([s[n]]);
      assert s[n] !in s[..n];
    }
  }

  /** Rearranging a list keeps its elements and, if it had none, adds no repetition. */
  lemma PermutationFacts<T>(a: seq<T>, b: seq<T>)
    requires multiset(a) == multiset(b)
    ensures |a| == |b|
    ensures forall x :: x in a <==> x in b
    ensures NoDuplicates(a) ==> NoDuplicates(b)
  {
    assert |multiset(a)| == |multiset(b)|;
    forall x ensures x in a <==> x in b {
      assert x in multiset(a) <==> x in multiset(b);
    }
    if NoDuplicates(a) {
      OnceInMultiset(a);
      forall i, j | 0 <= i < j < |b| ensures b[i] != b[j] {
        if b[i] == b[j] { TwiceInMultiset(b, i, j); }
      }
    }
  }

  lemma {:induction false} RowsOfMembers<K>(keys: seq<K>, base: nat, key: K)
    ensures Ascending(RowsOf(keys, base, key))
    ensures forall id :: id in RowsOf(keys, base, key) <==> base <= id < base + |keys| && keys[id - base] == key
  {
    if keys == [] {
    } else {
      var n := |keys| - 1;
      RowsOfMembers(keys[..n], base, key);
      var rest := RowsOf(keys[..n], base, key);
      forall i | 0 <= i < |rest| ensures rest[i] < base + n {
        assert rest[i] in rest;
      }
      forall id | base <= id < base + |keys| && keys[id - base] == key
        ensures id in RowsOf(keys, base, key)
      {
        if id < base + n { assert keys[..n][id - base] == key; }
      }
    }
  }

  lemma {:induction false} NoRowsOf<K>(keys: seq<K>, base: nat, key: K)
    ensures key !in keys ==> RowsOf(keys, base, key) == []
  {
    if keys == [] {
    } else {
      NoRowsOf(keys[..|keys| - 1], base, key);
    }
  }
}
