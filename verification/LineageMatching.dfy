/** Which observations the SEC lineage reconciliation may pair (sec_ingestion.py),
    in terms of signatures, component keys and lineages alone. */
module LineageMatching {
  import opened Wrappers
  import opened LineageReconciliation

  /** Some component hash of the two observations is the same. */
  ghost predicate HaveKeyInCommon(p: Item, c: Cell) {
    exists k :: k in p.keys && k in c.keys
  }

  ghost predicate SignatureIsNew(previous: seq<Item>, c: Cell) {
    forall j :: 0 <= j < |previous| ==> c.signature != Some(previous[j].signature)
  }

  ghost predicate SignatureIsGone(p: Item, current: seq<Cell>) {
    forall i :: 0 <= i < |current| ==> current[i].signature != Some(p.signature)
  }

  /** j and i have a key in common, and neither has one in common with another
      observation that exact matching left over. */
  ghost predicate OnlyEachOther(previous: seq<Item>, current: seq<Cell>, left: set<nat>, open: set<nat>, j: nat,
                                i: nat) {
    && j in left && i in open && j < |previous| && i < |current|
    && HaveKeyInCommon(previous[j], current[i])
    && (forall i' :: i' in open && i' < |current| && HaveKeyInCommon(previous[j], current[i']) ==> i' == i)
    && (forall j' :: j' in left && j' < |previous| && HaveKeyInCommon(previous[j'], current[i]) ==> j' == j)
  }

  lemma ShareMeansCommonKey(p: Item, c: Cell)
    ensures Share(p, c) <==> HaveKeyInCommon(p, c)
  {
    if k :| k in p.keys && k in c.keys {
      assert k in p.keys * c.keys;
    }
    if Share(p, c) {
      var k :| k in p.keys * c.keys;
      assert k in p.keys && k in c.keys;
    }
  }

  /** What exact matching leaves is paired exactly where a common key singles the
      two observations out. */
  lemma MutualMatchExactly(previous: seq<Item>, current: seq<Cell>, le: (Lineage, Lineage) -> bool, j: nat, i: nat)
    ensures MutualMatch(previous, current, le, j, i) <==>
      OnlyEachOther(previous, current, LeftOld(previous, current, le), OpenNew(previous, current, le), j, i)
  {
    var left, open := LeftOld(previous, current, le), OpenNew(previous, current, le);
    forall x, y | 0 <= x < |previous| && 0 <= y < |current|
      ensures Share(previous[x], current[y]) <==> HaveKeyInCommon(previous[x], current[y]) {
      ShareMeansCommonKey(previous[x], current[y]);
    }
    forall x: nat, y: nat
      ensures Edge(previous, current, left, open, x, y) <==>
        x in left && y in open && x < |previous| && y < |current| && HaveKeyInCommon(previous[x], current[y]) {
    }
  }

  /** An observation whose signature is on one side only is left to the keys. */
  lemma UnrepeatedIsLeftOver(previous: seq<Item>, current: seq<Cell>, le: (Lineage, Lineage) -> bool)
    ensures forall j: nat :: j < |previous| && SignatureIsGone(previous[j], current) ==>
      j in LeftOld(previous, current, le)
    ensures forall i: nat :: i < |current| && SignatureIsNew(previous, current[i]) ==>
      i in OpenNew(previous, current, le)
  {
    forall j: nat, i: nat | Exact(previous, current, le, j, i)
      ensures j < |previous| && i < |current| && current[i].signature == Some(previous[j].signature) {
      ExactIsFunctional(previous, current, le, j, i, j, i);
    }
  }

  /** Nothing that exact matching leaves on one side has its signature left on the other. */
  lemma NoSignatureLeftOnBothSides(previous: seq<Item>, current: seq<Cell>, le: (Lineage, Lineage) -> bool, j: nat,
                                   i: nat)
    requires j in LeftOld(previous, current, le) && i in OpenNew(previous, current, le)
    ensures current[i].signature != Some(previous[j].signature)
  {
    if current[i].signature == Some(previous[j].signature) {
      var s := previous[j].signature;
      SortedOldIndexes(previous, s, le);
      NewIndexesAscend(current, s);
      var olds, news := SortedOld(previous, s, le), NewIndexes(current, s);
      var x: nat :| x < |olds| && olds[x] == j;
      var y: nat :| y < |news| && news[y] == i;
      if x < |news| {
        assert ExactAt(previous, current, le, s, x, j, news[x]);
        assert Exact(previous, current, le, j, news[x]);
        assert HasExactNew(previous, current, le, j);
      } else {
        assert ExactAt(previous, current, le, s, y, olds[y], i);
        assert Exact(previous, current, le, olds[y], i);
        assert HasExactOld(previous, current, le, i);
      }
    }
  }

  /** Why an accepted observation carries an old lineage: one signature, a key in
      common, or nothing else left to continue on either side. */
  ghost predicate HasReason(previous: seq<Item>, current: seq<Cell>, le: (Lineage, Lineage) -> bool, j: nat, i: nat) {
    && j < |previous| && i < |current|
    && (|| current[i].signature == Some(previous[j].signature)
        || HaveKeyInCommon(previous[j], current[i])
        || ((forall j' :: 0 <= j' < |previous| && j' != j ==> HasSuccessor(previous, current, le, j'))
            && (forall i' :: 0 <= i' < |current| && i' != i ==> HasPredecessor(previous, current, le, i'))))
  }

  ghost predicate HasSuccessor(previous: seq<Item>, current: seq<Cell>, le: (Lineage, Lineage) -> bool, j: nat) {
    exists i :: Continues(previous, current, le, j, i)
  }

  lemma ContinuedForAReason(previous: seq<Item>, current: seq<Cell>, le: (Lineage, Lineage) -> bool, j: nat, i: nat)
    requires Continues(previous, current, le, j, i)
    ensures HasReason(previous, current, le, j, i)
  {
    var left, open := LeftOld(previous, current, le), OpenNew(previous, current, le);
    ContinuesIsFunctional(previous, current, le, j, i, j, i);
    if Exact(previous, current, le, j, i) {
      ExactIsFunctional(previous, current, le, j, i, j, i);
    } else if MutualMatch(previous, current, le, j, i) {
      MutualMatchExactly(previous, current, le, j, i);
    } else {
      forall x: nat | x < |previous| && x != j ensures HasSuccessor(previous, current, le, x) {
        assert x !in OldRemainder(previous, current, le);
        if x in left {
          var y :| Isolated(previous, current, left, open, x, y);
          assert Continues(previous, current, le, x, y);
        } else {
          var y :| Exact(previous, current, le, x, y);
          assert Continues(previous, current, le, x, y);
        }
      }
      forall y: nat | y < |current| && y != i ensures HasPredecessor(previous, current, le, y) {
        assert y !in NewRemainder(previous, current, le);
        if y in open {
          var x :| Isolated(previous, current, left, open, x, y);
          assert Continues(previous, current, le, x, y);
        } else {
          var x :| Exact(previous, current, le, x, y);
          assert Continues(previous, current, le, x, y);
        }
      }
    }
  }

  /** The lineages of the previous snapshot are distinct and all used. */
  ghost predicate Taken(previous: seq<Item>, used: set<Lineage>) {
    && (forall j, k :: 0 <= j < k < |previous| ==> previous[j].lineage != previous[k].lineage)
    && (forall j :: 0 <= j < |previous| ==> previous[j].lineage in used)
  }

  /** No observation takes over an old lineage without a reason to. */
  lemma KeptLineageHasReason(previous: seq<Item>, current: seq<Cell>, used: set<Lineage>,
                             le: (Lineage, Lineage) -> bool, names: seq<Lineage>, j: nat, i: nat)
    requires NamesGroup(previous, current, used, le, names) && Taken(previous, used)
    requires j < |previous| && i < |current| && names[i] == previous[j].lineage
    ensures Continues(previous, current, le, j, i) && HasReason(previous, current, le, j, i)
  {
    assert NamesCell(previous, current, used, le, i, names[i]);
    if j': nat :| Continues(previous, current, le, j', i) {
      assert j' < j || j < j' || j' == j;
    }
    ContinuedForAReason(previous, current, le, j, i);
  }

  /** An observation restated so that its signature changed keeps its lineage
      when a component that did not change singles it out. */
  lemma CommonKeyKeepsLineage(previous: seq<Item>, current: seq<Cell>, used: set<Lineage>,
                              le: (Lineage, Lineage) -> bool, names: seq<Lineage>, j: nat, i: nat)
    requires NamesGroup(previous, current, used, le, names) && j < |previous| && i < |current|
    requires SignatureIsGone(previous[j], current) && SignatureIsNew(previous, current[i])
    requires HaveKeyInCommon(previous[j], current[i])
    requires forall i' :: i' in OpenNew(previous, current, le) && HaveKeyInCommon(previous[j], current[i']) ==> i' == i
    requires forall j' :: j' in LeftOld(previous, current, le) && HaveKeyInCommon(previous[j'], current[i]) ==> j' == j
    ensures names[i] == previous[j].lineage
  {
    UnrepeatedIsLeftOver(previous, current, le);
    MutualMatchExactly(previous, current, le, j, i);
    assert NamesCell(previous, current, used, le, i, names[i]);
    assert Continues(previous, current, le, j, i);
  }

  /** With no signature on both sides nothing is matched exactly. */
  ghost predicate NoSignatureInCommon(previous: seq<Item>, current: seq<Cell>) {
    forall j, i :: 0 <= j < |previous| && 0 <= i < |current| ==> current[i].signature != Some(previous[j].signature)
  }

  function Positions(n: nat): (r: set<nat>)
    ensures forall i: nat :: i in r <==> i < n
    ensures |r| == n
    ensures n == 1 ==> r == {0}
  {
    if n == 0 then {} else Positions(n - 1) + {n - 1}
  }

  lemma AllLeftOver(previous: seq<Item>, current: seq<Cell>, le: (Lineage, Lineage) -> bool)
    requires NoSignatureInCommon(previous, current)
    ensures LeftOld(previous, current, le) == Positions(|previous|)
    ensures OpenNew(previous, current, le) == Positions(|current|)
  {
    UnrepeatedIsLeftOver(previous, current, le);
    forall j: nat | j < |previous| ensures j in LeftOld(previous, current, le) {
      assert SignatureIsGone(previous[j], current);
    }
    forall i: nat | i < |current| ensures i in OpenNew(previous, current, le) {
      assert SignatureIsNew(previous, current[i]);
    }
  }

  /** Every observation was restated at once, each with a component of its own
      left as it was. */
  ghost predicate Restated(previous: seq<Item>, current: seq<Cell>) {
    && |previous| == |current|
    && (forall i :: 0 <= i < |current| ==> current[i].signature.Some?)
    && NoSignatureInCommon(previous, current)
    && (forall j, i :: 0 <= j < |previous| && 0 <= i < |current| ==>
          (HaveKeyInCommon(previous[j], current[i]) <==> j == i))
  }

  lemma RestatedContinues(previous: seq<Item>, current: seq<Cell>, le: (Lineage, Lineage) -> bool)
    requires Restated(previous, current)
    ensures forall i: nat :: i < |current| ==> Continues(previous, current, le, i, i)
    ensures !Unresolvable(previous, current, le)
  {
    AllLeftOver(previous, current, le);
    forall i: nat | i < |current| ensures MutualMatch(previous, current, le, i, i) {
      MutualMatchExactly(previous, current, le, i, i);
    }
    forall j: nat ensures j !in OldRemainder(previous, current, le) {
      assert j < |previous| ==> MutualMatch(previous, current, le, j, j);
    }
    assert OldRemainder(previous, current, le) == {};
  }

  /** However many observations are restated at once, the group is accepted and
      every one of them keeps its lineage. */
  method ReconcileRestated(previous: seq<Item>, current: seq<Cell>, used: set<Lineage>, le: (Lineage, Lineage) -> bool)
    returns (r: Result<seq<Lineage>, LineageError>)
    requires Restated(previous, current)
    ensures r.Ok? && |r.value| == |previous|
    ensures forall i :: 0 <= i < |previous| ==> r.value[i] == previous[i].lineage
  {
    r := ReconcileGroup(previous, current, used, le);
    RestatedContinues(previous, current, le);
    forall i | 0 <= i < |previous| ensures r.value[i] == previous[i].lineage {
      assert NamesCell(previous, current, used, le, i, r.value[i]);
    }
  }

  /** Two values restated in one snapshot: each observation's hash without its
      value is unchanged, its other hashes are new. */
  method ReconcileTwoRestatements(a: Item, b: Item, x: Cell, y: Cell, used: set<Lineage>,
                                  le: (Lineage, Lineage) -> bool)
    returns (r: Result<seq<Lineage>, LineageError>)
    requires x.signature.Some? && y.signature.Some?
    requires {a.signature, b.signature} !! {x.signature.value, y.signature.value}
    requires exists va, ua, pa, vb, ub, pb, ux, px, uy, py ::
      && a.keys == {va, ua, pa} && b.keys == {vb, ub, pb}
      && x.keys == {va, ux, px} && y.keys == {vb, uy, py}
      && {va, ua, pa} !! {vb, uy, py} && {vb, ub, pb} !! {va, ux, px}
    ensures r == Ok([a.lineage, b.lineage])
  {
    assert HaveKeyInCommon(a, x) && HaveKeyInCommon(b, y) && !HaveKeyInCommon(a, y) && !HaveKeyInCommon(b, x);
    var previous, current := [a, b], [x, y];
    r := ReconcileRestated(previous, current, used, le);
    assert r.value == [r.value[0], r.value[1]];
  }

  /** Observations with neither signatures nor keys in common: a lone one on each
      side is taken to be the same, and otherwise the group is refused. */
  lemma NothingInCommon(previous: seq<Item>, current: seq<Cell>, le: (Lineage, Lineage) -> bool)
    requires NoSignatureInCommon(previous, current)
    requires forall j, i :: 0 <= j < |previous| && 0 <= i < |current| ==> !HaveKeyInCommon(previous[j], current[i])
    ensures Ambiguous(previous, current, le) <==>
      |previous| > 0 && |current| > 0 && (|previous| > 1 || |current| > 1)
    ensures |previous| == |current| == 1 ==> Continues(previous, current, le, 0, 0)
  {
    AllLeftOver(previous, current, le);
    var left, open := LeftOld(previous, current, le), OpenNew(previous, current, le);
    forall j: nat, i: nat ensures !MutualMatch(previous, current, le, j, i) {
      MutualMatchExactly(previous, current, le, j, i);
    }
    assert OldRemainder(previous, current, le) == left && NewRemainder(previous, current, le) == open;
  }

  // ---------------------------------------------------------------------
  // Over a whole history
  // ---------------------------------------------------------------------

  /** One group of one snapshot restated in the next, observation by observation. */
  ghost predicate RestatedCells(before: seq<Cell>, after: seq<Cell>) {
    && |before| == |after|
    && (forall i :: 0 <= i < |before| ==> before[i].signature.Some? && after[i].signature.Some?)
    && (forall j, i :: 0 <= j < |before| && 0 <= i < |after| ==> before[j].signature != after[i].signature)
    && (forall j, i :: 0 <= j < |before| && 0 <= i < |after| ==>
          ((exists k :: k in before[j].keys && k in after[i].keys) <==> j == i))
  }

  /** After any accepted history, a group that is restated observation by
      observation is accepted and keeps all of its lineages. */
  lemma RestatementKeepsLineages(history: History, before: seq<Observation>, after: seq<Observation>, g: Group,
                                 le: (Lineage, Lineage) -> bool)
    requires Accepted(history + [before], g, le)
    requires RestatedCells(CellsIn(before, g), CellsIn(after, g))
    ensures Accepted(history + [before] + [after], g, le)
    ensures CellsIn(before, g) != [] ==>
      NamesOf(TrailOf(history + [before], g, le), CellsIn(after, g), le)
      == NamesOf(TrailOf(history, g, le), CellsIn(before, g), le)
  {
    var cells, next := CellsIn(before, g), CellsIn(after, g);
    HistoryGrows(history, before, g, le);
    HistoryGrows(history + [before], after, g, le);
    if cells != [] {
      var names := NamesOf(TrailOf(history, g, le), cells, le);
      RestatedNames(TrailOf(history + [before], g, le), cells, names, next, le);
    }
  }

  lemma RestatedNames(t: Trail, before: seq<Cell>, names: seq<Lineage>, after: seq<Cell>,
                      le: (Lineage, Lineage) -> bool)
    requires RestatedCells(before, after) && |names| == |before| && t.items == ItemsFor(before, names)
    ensures !Unresolvable(t.items, after, le)
    ensures NamesOf(t, after, le) == names
  {
    RestatedContinues(t.items, after, le);
    forall i: nat | i < |after| ensures NameAt(t, after, le, i) == names[i] {
      assert i < |t.items| && Continues(t.items, after, le, i, i);
      var j: nat :| j < |t.items| && Continues(t.items, after, le, j, i)
        && NameAt(t, after, le, i) == t.items[j].lineage;
      ContinuesIsFunctional(t.items, after, le, j, i, i, i);
    }
  }
}
