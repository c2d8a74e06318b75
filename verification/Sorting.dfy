/** Python's stable `sorted`, for any total preorder. */
module Sorting {

  ghost predicate TotalPreorder<T(!new)>(le: (T, T) -> bool) {
    && (forall x, y :: le(x, y) || le(y, x))
    && (forall x, y, z :: le(x, y) && le(y, z) ==> le(x, z))
  }

  /** No two distinct members of s share a key. */
  ghost predicate DistinctKeys<T(!new)>(s: seq<T>, le: (T, T) -> bool) {
    forall x, y :: x in s && y in s && le(x, y) && le(y, x) ==> x == y
  }

  ghost predicate Distinct<T>(s: seq<T>) {
    forall i, j :: 0 <= i < j < |s| ==> s[i] != s[j]
  }

  ghost predicate Ordered<T>(s: seq<T>, le: (T, T) -> bool) {
    forall i, j :: 0 <= i < j < |s| ==> le(s[i], s[j])
  }

  function Insert<T>(x: T, s: seq<T>, le: (T, T) -> bool): seq<T> {
    if s == [] || le(x, s[0]) then [x] + s
    else [s[0]] + Insert(x, s[1..], le)
  }

  function Sort<T>(s: seq<T>, le: (T, T) -> bool): seq<T> {
    if s == [] then [] else Insert(s[0], Sort(s[1..], le), le)
  }

  lemma {:induction false} InsertKeepsElements<T>(x: T, s: seq<T>, le: (T, T) -> bool)
    ensures multiset(Insert(x, s, le)) == multiset(s) + multiset{x}
  {
    if s != [] && !le(x, s[0]) {
      InsertKeepsElements(x, s[1..], le);
      assert s == [s[0]] + s[1..];
    }
  }

  lemma SameMembers<T>(a: seq<T>, b: seq<T>)
    requires multiset(a) == multiset(b)
    ensures forall x :: x in a <==> x in b
    ensures |a| == |b|
  {
    assert forall x :: x in a <==> x in multiset(a);
    assert forall x :: x in b <==> x in multiset(b);
    assert |multiset(a)| == |a| && |multiset(b)| == |b|;
  }

  lemma {:induction false} InsertKeepsOrder<T(!new)>(x: T, s: seq<T>, le: (T, T) -> bool)
    requires TotalPreorder(le) && Ordered(s, le)
    ensures Ordered(Insert(x, s, le), le)
  {
    if s == [] {
    } else if le(x, s[0]) {
      var r := [x] + s;
      forall i, j | 0 <= i < j < |r| ensures le(r[i], r[j]) {
        if i == 0 && j > 1 { assert le(s[0], s[j - 1]); }
      }
    } else {
      var rest := Insert(x, s[1..], le);
      InsertKeepsOrder(x, s[1..], le);
      InsertKeepsElements(x, s[1..], le);
      var r := [s[0]] + rest;
      forall j | 0 <= j < |rest| ensures le(s[0], rest[j]) {
        assert rest[j] in multiset(rest);
        assert rest[j] == x || rest[j] in s[1..];
      }
    }
  }

  lemma {:induction false} SortKeepsElements<T>(s: seq<T>, le: (T, T) -> bool)
    ensures multiset(Sort(s, le)) == multiset(s)
  {
    if s != [] {
      SortKeepsElements(s[1..], le);
      InsertKeepsElements(s[0], Sort(s[1..], le), le);
      assert s == [s[0]] + s[1..];
    }
  }

  lemma {:induction false} SortIsOrderedPermutation<T(!new)>(s: seq<T>, le: (T, T) -> bool)
    requires TotalPreorder(le)
    ensures Ordered(Sort(s, le), le)
    ensures multiset(Sort(s, le)) == multiset(s)
  {
    SortKeepsElements(s, le);
    if s != [] {
      SortIsOrderedPermutation(s[1..], le);
      InsertKeepsOrder(s[0], Sort(s[1..], le), le);
    }
  }

  lemma {:induction false} CountOfDistinct<T>(s: seq<T>, x: T)
    requires Distinct(s)
    ensures multiset(s)[x] == if x in s then 1 else 0
  {
    if s != [] {
      CountOfDistinct(s[1..], x);
      assert s == [s[0]] + s[1..];
    }
  }

  lemma SameMembersSameMultiset<T(!new)>(a: seq<T>, b: seq<T>)
    requires Distinct(a) && Distinct(b)
    requires forall x :: x in a <==> x in b
    ensures multiset(a) == multiset(b)
  {
    forall x
      ensures multiset(a)[x] == multiset(b)[x]
    {
      CountOfDistinct(a, x);
      CountOfDistinct(b, x);
    }
  }

  lemma CountedTwice<T>(s: seq<T>, i: nat, j: nat)
    requires i < j < |s| && s[i] == s[j]
    ensures multiset(s)[s[i]] >= 2
  {
    assert s == s[..j] + s[j..];
    assert multiset(s) == multiset(s[..j]) + multiset(s[j..]);
    assert s[..j][i] == s[i] && s[j..][0] == s[i];
    assert s[i] in multiset(s[..j]) && s[i] in multiset(s[j..]);
  }

  lemma PermutationKeepsDistinct<T>(a: seq<T>, b: seq<T>)
    requires Distinct(a) && multiset(a) == multiset(b)
    ensures Distinct(b)
  {
    forall i: nat, j: nat | i < j < |b|
      ensures b[i] != b[j]
    {
      CountOfDistinct(a, b[i]);
      if b[i] == b[j] {
        CountedTwice(b, i, j);
      }
    }
  }

  lemma LeastFirst<T(!new)>(a: seq<T>, b: seq<T>, le: (T, T) -> bool)
    requires Ordered(a, le) && b != [] && b[0] in a
    ensures a != [] && (a[0] == b[0] || le(a[0], b[0]))
  {
    var j :| 0 <= j < |a| && a[j] == b[0];
    assert j == 0 || le(a[0], a[j]);
  }

  lemma HeadAndTail<T>(a: seq<T>)
    requires a != []
    ensures multiset(a[1..]) == multiset(a) - multiset{a[0]}
    ensures a == [a[0]] + a[1..]
  {
    assert a == [a[0]] + a[1..];
    assert multiset(a) == multiset{a[0]} + multiset(a[1..]);
    assert multiset{a[0]} + multiset(a[1..]) - multiset{a[0]} == multiset(a[1..]);
  }

  lemma {:induction false} OrderedPermutationIsUnique<T(!new)>(a: seq<T>, b: seq<T>, le: (T, T) -> bool)
    requires Ordered(a, le) && Ordered(b, le) && multiset(a) == multiset(b)
    requires DistinctKeys(a, le)
    ensures a == b
    decreases |a|
  {
    SameMembers(a, b);
    if a != [] {
      LeastFirst(a, b, le);
      LeastFirst(b, a, le);
      HeadAndTail(a);
      HeadAndTail(b);
      assert a[0] == b[0];
      assert multiset(a[1..]) == multiset(b[1..]);
      assert DistinctKeys(a[1..], le) by {
        assert forall x :: x in a[1..] ==> x in a;
      }
      OrderedPermutationIsUnique(a[1..], b[1..], le);
    }
  }

  lemma PrefixExtends<T>(s: seq<T>, k: nat)
    requires k < |s|
    ensures s[..k + 1] == s[..k] + [s[k]]
  {
  }

  /** Sorting erases the input order whenever keys are distinct. */
  lemma SortIgnoresInputOrder<T(!new)>(a: seq<T>, b: seq<T>, le: (T, T) -> bool)
    requires TotalPreorder(le) && DistinctKeys(a, le)
    requires multiset(a) == multiset(b)
    ensures Sort(a, le) == Sort(b, le)
  {
    SortIsOrderedPermutation(a, le);
    SortIsOrderedPermutation(b, le);
    SameMembers(a, Sort(a, le));
    OrderedPermutationIsUnique(Sort(a, le), Sort(b, le), le);
  }

  lemma {:induction false} SortOfOrdered<T>(s: seq<T>, le: (T, T) -> bool)
    requires Ordered(s, le)
    ensures Sort(s, le) == s
  {
    if s != [] {
      SortOfOrdered(s[1..], le);
      assert s == [s[0]] + s[1..];
    }
  }

  function Apply<T, U>(f: T -> U, s: seq<T>): seq<U> {
    if s == [] then [] else [f(s[0])] + Apply(f, s[1..])
  }

  lemma {:induction false} ApplyAt<T, U>(f: T -> U, s: seq<T>)
    ensures |Apply(f, s)| == |s| && forall i :: 0 <= i < |s| ==> Apply(f, s)[i] == f(s[i])
  {
    if s != [] {
      ApplyAt(f, s[1..]);
    }
  }

  lemma {:induction false} ApplyConcat<T, U>(f: T -> U, s: seq<T>, t: seq<T>)
    ensures Apply(f, s + t) == Apply(f, s) + Apply(f, t)
  {
    if s == [] {
      assert s + t == t;
    } else {
      assert (s + t)[1..] == s[1..] + t;
      ApplyConcat(f, s[1..], t);
    }
  }

  lemma {:induction false} ApplyPermutation<T, U>(f: T -> U, s: seq<T>, t: seq<T>)
    requires multiset(s) == multiset(t)
    ensures multiset(Apply(f, s)) == multiset(Apply(f, t))
  {
    SameMembers(s, t);
    if s != [] {
      assert s[0] in s;
      var i :| 0 <= i < |t| && t[i] == s[0];
      var rest := t[..i] + t[i + 1..];
      TakeOut(t, i);
      HeadAndTail(s);
      ApplyPermutation(f, s[1..], rest);
      ApplyTakeOut(f, t, i);
    }
  }

  lemma TakeOut<T>(t: seq<T>, i: nat)
    requires i < |t|
    ensures multiset(t[..i] + t[i + 1..]) == multiset(t) - multiset{t[i]}
  {
    assert t == t[..i] + [t[i]] + t[i + 1..];
    assert multiset(t) == multiset(t[..i] + t[i + 1..]) + multiset{t[i]};
  }

  lemma ApplyHead<T, U>(f: T -> U, x: T, s: seq<T>)
    ensures Apply(f, [x] + s) == [f(x)] + Apply(f, s)
  {
    assert ([x] + s)[1..] == s;
  }

  lemma Around<T>(a: seq<T>, x: T, b: seq<T>)
    ensures multiset(a + ([x] + b)) == multiset(a + b) + multiset{x}
  {
  }

  lemma ApplyTakeOut<T, U>(f: T -> U, t: seq<T>, i: nat)
    requires i < |t|
    ensures multiset(Apply(f, t)) == multiset(Apply(f, t[..i] + t[i + 1..])) + multiset{f(t[i])}
  {
    var a, x, b := t[..i], t[i], t[i + 1..];
    assert t == a + ([x] + b);
    ApplyConcat(f, a, [x] + b);
    ApplyHead(f, x, b);
    ApplyConcat(f, a, b);
    Around(Apply(f, a), f(x), Apply(f, b));
  }

  lemma {:induction false} InsertApply<T, U>(f: T -> U, x: T, s: seq<T>, le: (T, T) -> bool, me: (U, U) -> bool)
    requires forall y :: y in s ==> (le(x, y) <==> me(f(x), f(y)))
    ensures Apply(f, Insert(x, s, le)) == Insert(f(x), Apply(f, s), me)
  {
    if s != [] && !le(x, s[0]) {
      InsertApply(f, x, s[1..], le, me);
      assert ([s[0]] + Insert(x, s[1..], le))[1..] == Insert(x, s[1..], le);
    } else {
      assert ([x] + s)[1..] == s;
    }
  }

  /** Sorting by a key and reading the keys is sorting the keys. */
  lemma {:induction false} SortApply<T, U>(f: T -> U, s: seq<T>, le: (T, T) -> bool, me: (U, U) -> bool)
    requires forall x, y :: x in s && y in s ==> (le(x, y) <==> me(f(x), f(y)))
    ensures Apply(f, Sort(s, le)) == Sort(Apply(f, s), me)
  {
    if s != [] {
      SortApply(f, s[1..], le, me);
      SortKeepsElements(s[1..], le);
      var sorted := Sort(s[1..], le);
      assert multiset(sorted) == multiset(s[1..]);
      forall y | y in sorted ensures le(s[0], y) <==> me(f(s[0]), f(y)) {
        assert y in multiset(sorted);
        assert s[0] in s && y in s[1..];
      }
      InsertApply(f, s[0], sorted, le, me);
    }
  }

  // ---------------------------------------------------------------------
  // Tuples compared entry by entry
  // ---------------------------------------------------------------------

  predicate LexLe(a: seq<int>, b: seq<int>)
    requires |a| == |b|
  {
    a == [] || a[0] < b[0] || (a[0] == b[0] && LexLe(a[1..], b[1..]))
  }

  lemma {:induction false} LexIsTotal(a: seq<int>, b: seq<int>)
    requires |a| == |b|
    ensures LexLe(a, b) || LexLe(b, a)
  {
    if a != [] && a[0] == b[0] {
      LexIsTotal(a[1..], b[1..]);
    }
  }

  lemma {:induction false} LexIsTransitive(a: seq<int>, b: seq<int>, c: seq<int>)
    requires |a| == |b| == |c| && LexLe(a, b) && LexLe(b, c)
    ensures LexLe(a, c)
  {
    if a != [] && a[0] == b[0] == c[0] {
      LexIsTransitive(a[1..], b[1..], c[1..]);
    }
  }
}
