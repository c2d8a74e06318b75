/** Sets of integers in ascending order. */
module IntegerSets {
  ghost predicate Ascending(s: seq<int>) {
    forall i, j :: 0 <= i < j < |s| ==> s[i] < s[j]
  }

  function Least(s: set<int>): (m: int)
    requires s != {}
    ensures m in s && forall x :: x in s ==> m <= x
  {
    LeastExists(s);
    var m :| m in s && forall x :: x in s ==> m <= x;
    m
  }

  lemma HasMember(s: set<int>)
    requires s != {}
    ensures exists x :: x in s
  {
    if forall x :: x !in s { assert false; }
  }

  lemma {:induction false} LeastExists(s: set<int>)
    requires s != {}
    ensures exists m :: m in s && forall x :: x in s ==> m <= x
    decreases s
  {
    HasMember(s);
    var x :| x in s;
    var below := set z | z in s && z < x;
    if below == {} {
      forall z | z in s
        ensures x <= z
      {
        assert z !in below;
      }
    } else {
      LeastExists(below);
      var m :| m in below && forall z :: z in below ==> m <= z;
      forall z | z in s
        ensures m <= z
      {
        assert z < x ==> z in below;
      }
    }
  }

  function SortedSet(s: set<int>): (r: seq<int>)
    ensures Ascending(r)
    ensures forall x :: x in r <==> x in s
  {
    if s == {} then []
    else
      var m := Least(s);
      [m] + SortedSet(s - {m})
  }
}
