/** The stable sort behind top-k: a reference, the algorithm, and why only one answer is possible. */
module StableSorts {
  import opened Sequences

  /** Put `x` behind everything it does not precede, counting from the end. */
  function Insert<T>(s: seq<T>, x: T, before: (T, T) -> bool): seq<T> {
    var n := |s| - 1;
    if s != [] && before(x, s[n]) then Insert(s[..n], x, before) + [s[n]] else s + [x]
  }

  function StableSort<T>(s: seq<T>, before: (T, T) -> bool): seq<T> {
    if s == [] then [] else Insert(StableSort(s[..|s| - 1], before), s[|s| - 1], before)
  }

  ghost predicate Asymmetric<T>(before: (T, T) -> bool, s: seq<T>) {
    forall x, y :: x in s && y in s && before(x, y) ==> !before(y, x)
  }

  /** `before` is a strict weak order on the elements of `s`. */
  ghost predicate Orders<T>(before: (T, T) -> bool, s: seq<T>) {
    && Asymmetric(before, s)
    && (forall x, y, z :: x in s && y in s && z in s && before(x, z) ==> before(x, y) || before(y, z))
  }

  ghost predicate Sorted<T>(s: seq<T>, before: (T, T) -> bool) {
    forall i, j :: 0 <= i < j < |s| ==> !before(s[j], s[i])
  }

  /** The elements that `before` cannot tell from `x`. */
  function TiedWith<T>(x: T, before: (T, T) -> bool): T -> bool {
    (y: T) => !before(x, y) && !before(y, x)
  }

  /** A sorted rearrangement in which tied elements keep the order they came in. */
  ghost predicate StablySorted<T>(input: seq<T>, output: seq<T>, before: (T, T) -> bool) {
    && multiset(output) == multiset(input)
    && Sorted(output, before)
    && forall x :: x in input ==> Filter(output, TiedWith(x, before)) == Filter(input, TiedWith(x, before))
  }

  lemma {:induction false} InsertElements<T>(s: seq<T>, x: T, before: (T, T) -> bool)
    ensures multiset(Insert(s, x, before)) == multiset(s) + multiset{x}
  {
    var n := |s| - 1;
    if s == [] || !before(x, s[n]) {
    } else {
      InsertElements(s[..n], x, before);
      assert s == s[..n] + [s[n]];
    }
  }

  lemma {:induction false} InsertKeepsClass<T>(s: seq<T>, x: T, before: (T, T) -> bool, c: T)
    requires Orders(before, s + [x] + [c])
    ensures Filter(Insert(s, x, before), TiedWith(c, before)) == Filter(s + [x], TiedWith(c, before))
  {
    var n := |s| - 1;
    assert (s + [x])[..|s|] == s;
    if s == [] || !before(x, s[n]) {
    } else {
      var all := s + [x] + [c];
      assert x in all && c in all && s[n] in all;
      assert forall y :: y in s[..n] + [x] + [c] ==> y in all;
      InsertKeepsClass(s[..n], x, before, c);
      assert (s[..n] + [x])[..n] == s[..n];
      var moved := Insert(s[..n], x, before);
      assert (moved + [s[n]])[..|moved|] == moved;
    }
  }

  lemma InsertMembers<T>(s: seq<T>, x: T, before: (T, T) -> bool, i: nat)
    requires i < |Insert(s, x, before)|
    ensures Insert(s, x, before)[i] in s + [x]
  {
    InsertElements(s, x, before);
    assert Insert(s, x, before)[i] in multiset(Insert(s, x, before));
  }

  lemma {:induction false} InsertKeepsSorted<T>(s: seq<T>, x: T, before: (T, T) -> bool)
    requires Orders(before, s + [x]) && Sorted(s, before)
    ensures Sorted(Insert(s, x, before), before)
  {
    var n := |s| - 1;
    if s != [] && before(x, s[n]) {
      var init, y := s[..n], s[n];
      var r := Insert(init, x, before);
      assert forall z :: z in init + [x] ==> z in s + [x];
      InsertKeepsSorted(init, x, before);
      forall i | 0 <= i < |r| ensures !before(y, r[i]) {
        InsertMembers(init, x, before, i);
        assert x in s + [x] && y in s + [x];
      }
    } else {
      forall i | 0 <= i < |s| ensures !before(x, s[i]) {
        assert s[i] in s + [x] && x in s + [x] && s[n] in s + [x];
      }
    }
  }

  /** The reference sorts stably whenever `before` is a strict weak order on the input. */
  lemma {:induction false} StableSortSorts<T>(s: seq<T>, before: (T, T) -> bool)
    requires Orders(before, s)
    ensures StablySorted(s, StableSort(s, before), before)
  {
    if s == [] {
    } else {
      var init, x := s[..|s| - 1], s[|s| - 1];
      StableSortSorts(init, before);
      assert s == init + [x];
      InsertStable(init, x, StableSort(init, before), before);
    }
  }

  lemma InsertStable<T>(init: seq<T>, x: T, rest: seq<T>, before: (T, T) -> bool)
    requires Orders(before, init + [x]) && StablySorted(init, rest, before)
    ensures StablySorted(init + [x], Insert(rest, x, before), before)
  {
    PermutationFacts(init, rest);
    assert forall y :: y in rest + [x] ==> y in init + [x];
    InsertKeepsSorted(rest, x, before);
    InsertElements(rest, x, before);
    forall c | c in init + [x]
      ensures Filter(Insert(rest, x, before), TiedWith(c, before)) == Filter(init + [x], TiedWith(c, before))
    {
      assert forall y :: y in rest + [x] + [c] ==> y in init + [x];
      InsertKeepsClass(rest, x, before, c);
      FilterAppend(rest, [x], TiedWith(c, before));
      FilterAppend(init, [x], TiedWith(c, before));
      ClassAlreadySorted(init, x, rest, before, c);
    }
  }

  /** Stability so far also covers a class whose only representative may be the next element. */
  lemma ClassAlreadySorted<T>(init: seq<T>, x: T, rest: seq<T>, before: (T, T) -> bool, c: T)
    requires c in init + [x] && Orders(before, init + [x])
    requires StablySorted(init, rest, before)
    ensures Filter(init, TiedWith(c, before)) == Filter(rest, TiedWith(c, before))
  {
    PermutationFacts(init, rest);
    assert forall y :: y in init ==> y in init + [x];
    if d :| d in init && TiedWith(c, before)(d) {
      FilterAgree(init, TiedWith(c, before), TiedWith(d, before));
      FilterAgree(rest, TiedWith(c, before), TiedWith(d, before));
    } else {
      FilterNone(init, TiedWith(c, before));
      FilterNone(rest, TiedWith(c, before));
    }
  }

  /** Sorted and stable leave no freedom: every such arrangement is the reference. */
  lemma StableSortUnique<T(!new)>(s: seq<T>, output: seq<T>, before: (T, T) -> bool)
    requires Orders(before, s) && StablySorted(s, output, before)
    ensures output == StableSort(s, before)
  {
    var reference := StableSort(s, before);
    StableSortSorts(s, before);
    PermutationFacts(s, output);
    PermutationFacts(s, reference);
    assert forall x :: x in output || x in reference ==> x in s;
    SortedClassesUnique(output, reference, before);
  }

  ghost predicate SameClasses<T(!new)>(a: seq<T>, b: seq<T>, before: (T, T) -> bool) {
    forall x :: x in a || x in b ==> Filter(a, TiedWith(x, before)) == Filter(b, TiedWith(x, before))
  }

  lemma {:induction false} SortedClassesUnique<T(!new)>(a: seq<T>, b: seq<T>, before: (T, T) -> bool)
    requires Asymmetric(before, a) && Asymmetric(before, b)
    requires Sorted(a, before) && Sorted(b, before) && SameClasses(a, b, before)
    ensures a == b
  {
    SameClassesMembers(a, b, before);
    assert (a != [] ==> a[0] in b) && (b != [] ==> b[0] in a);
    if a == [] {
    } else {
      var init, x, init', y := a[..|a| - 1], a[|a| - 1], b[..|b| - 1], b[|b| - 1];
      assert a == init + [x] && b == init' + [y];
      OrderOfInit(init, x, before);
      OrderOfInit(init', y, before);
      LastIsLargest(init, x, init', y, before);
      SameClassesInit(init, init', x, before);
      SortedClassesUnique(init, init', before);
    }
  }

  lemma OrderOfInit<T>(a: seq<T>, x: T, before: (T, T) -> bool)
    requires Asymmetric(before, a + [x]) && Sorted(a + [x], before)
    ensures Asymmetric(before, a) && Sorted(a, before)
  {
    assert forall y :: y in a ==> y in a + [x];
    forall i, j | 0 <= i < j < |a| ensures !before(a[j], a[i]) {
      assert (a + [x])[i] == a[i] && (a + [x])[j] == a[j];
    }
  }

  lemma SameClassesMembers<T(!new)>(a: seq<T>, b: seq<T>, before: (T, T) -> bool)
    requires Asymmetric(before, a) && Asymmetric(before, b) && SameClasses(a, b, before)
    ensures forall x :: x in a <==> x in b
  {
    forall x ensures x in a <==> x in b {
      FilterMember(a, TiedWith(x, before), x);
      FilterMember(b, TiedWith(x, before), x);
    }
  }

  lemma SameClassesInit<T(!new)>(a: seq<T>, b: seq<T>, x: T, before: (T, T) -> bool)
    requires SameClasses(a + [x], b + [x], before)
    ensures SameClasses(a, b, before)
  {
    forall c | c in a || c in b
      ensures Filter(a, TiedWith(c, before)) == Filter(b, TiedWith(c, before))
    {
      assert c in a + [x] || c in b + [x];
      assert Filter(a + [x], TiedWith(c, before)) == Filter(b + [x], TiedWith(c, before));
      FilterAppend(a, [x], TiedWith(c, before));
      FilterAppend(b, [x], TiedWith(c, before));
      var p, q, r := Filter(a, TiedWith(c, before)), Filter(b, TiedWith(c, before)), Filter([x], TiedWith(c, before));
      assert p == (p + r)[..|p + r| - |r|] && q == (q + r)[..|q + r| - |r|];
    }
  }

  lemma LastIsLargest<T>(a: seq<T>, x: T, b: seq<T>, y: T, before: (T, T) -> bool)
    requires Asymmetric(before, a + [x]) && y in a + [x] && x in b + [y]
    requires Sorted(a + [x], before) && Sorted(b + [y], before)
    requires Filter(a + [x], TiedWith(x, before)) == Filter(b + [y], TiedWith(x, before))
    ensures x == y
  {
    var s, t := a + [x], b + [y];
    var i :| 0 <= i < |s| && s[i] == y;
    var j :| 0 <= j < |t| && t[j] == x;
    assert x in s && (i == |a| || !before(x, y));
    assert j == |b| || !before(y, x);
    FilterAppend(a, [x], TiedWith(x, before));
    FilterAppend(b, [y], TiedWith(x, before));
    var f := Filter(s, TiedWith(x, before));
    assert f[|f| - 1] == x;
  }

  lemma {:induction false} InsertAt<T>(s: seq<T>, x: T, before: (T, T) -> bool, j: nat)
    requires j <= |s|
    requires forall i :: j <= i < |s| ==> before(x, s[i])
    requires j == 0 || !before(x, s[j - 1])
    ensures Insert(s, x, before) == s[..j] + [x] + s[j..]
  {
    if j == |s| {
      assert s[..j] == s && s[j..] == [];
    } else {
      var n := |s| - 1;
      InsertAt(s[..n], x, before, j);
      assert s[..n][..j] == s[..j] && s[..n][j..] + [s[n]] == s[j..];
    }
  }

  /** An insertion sort stands for the library's stable sort; any stable sort returns this list. */
  method SortStably<T>(input: seq<T>, before: (T, T) -> bool) returns (sorted: seq<T>)
    ensures sorted == StableSort(input, before)
  {
    sorted := [];
    for i := 0 to |input|
      invariant sorted == StableSort(input[..i], before)
    {
      var j := |sorted|;
      while j > 0 && before(input[i], sorted[j - 1])
        invariant 0 <= j <= |sorted|
        invariant forall k :: j <= k < |sorted| ==> before(input[i], sorted[k])
      {
        j := j - 1;
      }
      InsertAt(sorted, input[i], before, j);
      sorted := sorted[..j] + [input[i]] + sorted[j..];
      assert input[..i + 1][..i] == input[..i];
    }
    assert input[..|input|] == input;
  }
}
