/** A dictionary of lists filled by a loop: groups in arrival
    order, keys in the order they first arrive. */
module Grouping {
  function Filter<T, K(==)>(s: seq<T>, key: T -> K, k: K): seq<T> {
    if s == [] then []
    else
      var rest := Filter(s[..|s| - 1], key, k);
      if key(s[|s| - 1]) == k then rest + [s[|s| - 1]] else rest
  }

  function Keys<T, K(==)>(s: seq<T>, key: T -> K): seq<K> {
    if s == [] then []
    else
      var rest := Keys(s[..|s| - 1], key);
      if key(s[|s| - 1]) in rest then rest else rest + [key(s[|s| - 1])]
  }

  function Grouped<T, K>(s: seq<T>, key: T -> K): map<K, seq<T>> {
    map k | k in Keys(s, key) :: Filter(s, key, k)
  }

  lemma GroupAt<T, K>(s: seq<T>, key: T -> K, keys: seq<K>, groups: map<K, seq<T>>, i: nat)
    requires keys == Keys(s, key) && groups == Grouped(s, key) && i < |keys|
    ensures keys[i] in groups && groups[keys[i]] == Filter(s, key, keys[i])
  {
    assert keys[i] in keys;
  }

  function Append<T, K>(groups: map<K, seq<T>>, k: K, x: T): map<K, seq<T>> {
    groups[k := (if k in groups then groups[k] else []) + [x]]
  }

  function AppendAll<T, K>(groups: map<K, seq<T>>, s: seq<T>, key: T -> K): map<K, seq<T>> {
    if s == [] then groups
    else Append(AppendAll(groups, s[..|s| - 1], key), key(s[|s| - 1]), s[|s| - 1])
  }

  lemma {:induction false} FilterMembers<T, K>(s: seq<T>, key: T -> K, k: K)
    ensures forall x :: x in Filter(s, key, k) <==> x in s && key(x) == k
  {
    if s != [] {
      FilterMembers(s[..|s| - 1], key, k);
      assert s == s[..|s| - 1] + [s[|s| - 1]];
    }
  }

  lemma {:induction false} FilterCounts<T, K>(s: seq<T>, key: T -> K, k: K, x: T)
    ensures multiset(Filter(s, key, k))[x] == if key(x) == k then multiset(s)[x] else 0
  {
    if s != [] {
      FilterCounts(s[..|s| - 1], key, k, x);
      assert s == s[..|s| - 1] + [s[|s| - 1]];
    }
  }

  lemma FilterPermutation<T(!new), K>(s: seq<T>, t: seq<T>, key: T -> K, k: K)
    requires multiset(s) == multiset(t)
    ensures multiset(Filter(s, key, k)) == multiset(Filter(t, key, k))
  {
    forall x ensures multiset(Filter(s, key, k))[x] == multiset(Filter(t, key, k))[x] {
      FilterCounts(s, key, k, x);
      FilterCounts(t, key, k, x);
    }
  }

  lemma {:induction false} KeysMembers<T(!new), K(!new)>(s: seq<T>, key: T -> K)
    ensures forall k :: k in Keys(s, key) <==> exists x :: x in s && key(x) == k
  {
    if s != [] {
      KeysMembers(s[..|s| - 1], key);
      assert s == s[..|s| - 1] + [s[|s| - 1]];
    }
  }

  lemma GroupsFound<T(!new), K(!new)>(s: seq<T>, key: T -> K, k: K)
    requires k in Keys(s, key)
    ensures Filter(s, key, k) != []
  {
    KeysMembers(s, key);
    FilterMembers(s, key, k);
    var x :| x in s && key(x) == k;
    assert x in Filter(s, key, k);
  }

  lemma {:induction false} NothingToFilter<T, K>(s: seq<T>, key: T -> K, k: K)
    requires k !in Keys(s, key)
    ensures Filter(s, key, k) == []
  {
    if s != [] {
      NothingToFilter(s[..|s| - 1], key, k);
    }
  }

  lemma {:induction false} OneGroup<T(!new), K>(s: seq<T>, key: T -> K, k: K)
    requires forall x :: x in s ==> key(x) == k
    ensures Filter(s, key, k) == s
    ensures Keys(s, key) == if s == [] then [] else [k]
  {
    if s != [] {
      var front := s[..|s| - 1];
      assert s == front + [s[|s| - 1]];
      assert s[|s| - 1] in s;
      OneGroup(front, key, k);
    }
  }

  lemma {:induction false} FilterConcat<T, K>(s: seq<T>, t: seq<T>, key: T -> K, k: K)
    ensures Filter(s + t, key, k) == Filter(s, key, k) + Filter(t, key, k)
  {
    if t == [] {
      assert s + t == s;
    } else {
      FilterConcat(s, t[..|t| - 1], key, k);
      assert (s + t)[..|s + t| - 1] == s + t[..|t| - 1];
    }
  }

  /** The only member of its key is the whole group. */
  lemma {:induction false} FilterUnique<T, K>(s: seq<T>, key: T -> K, i: nat)
    requires i < |s| && forall j :: 0 <= j < |s| && j != i ==> key(s[j]) != key(s[i])
    ensures Filter(s, key, key(s[i])) == [s[i]]
  {
    var front := s[..|s| - 1];
    if i < |s| - 1 {
      FilterUnique(front, key, i);
    } else {
      FilterNone(front, key, key(s[i]));
    }
  }

  lemma {:induction false} FilterNone<T, K>(s: seq<T>, key: T -> K, k: K)
    requires forall j :: 0 <= j < |s| ==> key(s[j]) != k
    ensures Filter(s, key, k) == []
  {
    if s != [] {
      FilterNone(s[..|s| - 1], key, k);
    }
  }

  lemma GroupedAppend<T, K>(s: seq<T>, key: T -> K, x: T)
    ensures Grouped(s + [x], key) == Append(Grouped(s, key), key(x), x)
    ensures Keys(s + [x], key) == if key(x) in Keys(s, key) then Keys(s, key) else Keys(s, key) + [key(x)]
  {
    assert (s + [x])[..|s + [x]| - 1] == s;
    if key(x) !in Keys(s, key) {
      NothingToFilter(s, key, key(x));
    }
  }

  /** Appending one by one builds the grouping of the whole. */
  lemma {:induction false} GroupedAppendAll<T, K>(s: seq<T>, t: seq<T>, key: T -> K)
    ensures AppendAll(Grouped(s, key), t, key) == Grouped(s + t, key)
  {
    if t == [] {
      assert s + t == s;
    } else {
      var front := t[..|t| - 1];
      GroupedAppendAll(s, front, key);
      GroupedAppend(s + front, key, t[|t| - 1]);
      assert s + t == (s + front) + [t[|t| - 1]];
    }
  }

  lemma {:induction false} AppendAllConcat<T, K>(groups: map<K, seq<T>>, s: seq<T>, t: seq<T>, key: T -> K)
    ensures AppendAll(AppendAll(groups, s, key), t, key) == AppendAll(groups, s + t, key)
  {
    if t == [] {
      assert s + t == s;
    } else {
      AppendAllConcat(groups, s, t[..|t| - 1], key);
      assert (s + t)[..|s + t| - 1] == s + t[..|t| - 1];
    }
  }

  method GroupBy<T, K(==)>(s: seq<T>, key: T -> K) returns (keys: seq<K>, groups: map<K, seq<T>>)
    ensures keys == Keys(s, key) && groups == Grouped(s, key)
  {
    keys, groups := [], map[];
    var i := 0;
    while i < |s|
      invariant 0 <= i <= |s|
      invariant keys == Keys(s[..i], key) && groups == Grouped(s[..i], key)
    {
      assert s[..i + 1] == s[..i] + [s[i]];
      GroupedAppend(s[..i], key, s[i]);
      var k := key(s[i]);
      if k !in groups {
        keys := keys + [k];
      }
      groups := Append(groups, k, s[i]);
      i := i + 1;
    }
    assert s[..|s|] == s;
  }
}
