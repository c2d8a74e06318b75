/** What the reconciliation of SEC observation lineages keeps over whole
    sequences of snapshots (sec_ingestion.py): distinct lineages, lineages that
    are never handed out again, and the parts of the input that do not matter. */
module LineageIdentity {
  import opened Wrappers
  import opened Sorting
  import opened LineageReconciliation

  // ---------------------------------------------------------------------
  // Provisional names
  // ---------------------------------------------------------------------

  /** One raw observation: a group when it carries an accession, the hash of its
      whole content, and whether the inspection keeps it. */
  datatype Raw = Raw(group: Option<Group>, signature: string, keys: set<string>, kept: bool)

  predicate SameOwner(a: Raw, b: Raw) {
    a.group.Some? && a.group == b.group && a.signature == b.signature
  }

  /** How many of the first n raw observations repeat r. */
  function Occurrences(raws: seq<Raw>, n: nat, r: Raw): nat
    requires n <= |raws|
  {
    if n == 0 then 0 else Occurrences(raws, n - 1, r) + if SameOwner(raws[n - 1], r) then 1 else 0
  }

  function Labelling(raws: seq<Raw>, i: nat): Observation
    requires i < |raws|
  {
    var r := raws[i];
    var name := if r.group.None? then None else Some(Lineage(r.group.value, r.signature, Occurrences(raws, i, r)));
    Observation(name, Some(r.signature), r.keys)
  }

  function Inspected(raws: seq<Raw>, n: nat): seq<Observation>
    requires n <= |raws|
  {
    if n == 0 then [] else Inspected(raws, n - 1) + if raws[n - 1].kept then [Labelling(raws, n - 1)] else []
  }

  /** `_raw_observation_provenance` over one snapshot, with its dictionary of counts. */
  method Inspect(raws: seq<Raw>) returns (snapshot: seq<Observation>)
    ensures snapshot == Inspected(raws, |raws|)
  {
    var counts: map<(Group, string), nat> := map[];
    snapshot := [];
    for i := 0 to |raws|
      invariant snapshot == Inspected(raws, i)
      invariant forall r: Raw :: r.group.Some? ==>
        Occurrences(raws, i, r) == if (r.group.value, r.signature) in counts
          then counts[(r.group.value, r.signature)] else 0
    {
      var r := raws[i];
      var name: Option<Lineage> := None;
      if r.group.Some? {
        var owner := (r.group.value, r.signature);
        var occurrence := if owner in counts then counts[owner] else 0;
        counts := counts[owner := occurrence + 1];
        name := Some(Lineage(r.group.value, r.signature, occurrence));
      }
      if r.kept {
        snapshot := snapshot + [Observation(name, Some(r.signature), r.keys)];
      }
    }
  }

  /** Provisional names carry their signature and are pairwise distinct. */
  ghost predicate Labelled(snapshot: seq<Observation>) {
    && (forall i :: 0 <= i < |snapshot| && snapshot[i].provisional.Some? ==>
          snapshot[i].signature == Some(snapshot[i].provisional.value.signature))
    && (forall i, k :: 0 <= i < k < |snapshot| && snapshot[i].provisional.Some? ==>
          snapshot[i].provisional != snapshot[k].provisional)
  }

  lemma {:induction false} OccurrencesGrow(raws: seq<Raw>, m: nat, n: nat, r: Raw)
    requires m < n <= |raws| && SameOwner(raws[m], r)
    ensures Occurrences(raws, m, r) < Occurrences(raws, n, r)
  {
    if m < n - 1 {
      OccurrencesGrow(raws, m, n - 1, r);
    }
  }

  lemma {:induction false} InspectedFrom(raws: seq<Raw>, n: nat, i: nat)
    requires n <= |raws| && i < |Inspected(raws, n)|
    ensures exists m :: 0 <= m < n && Inspected(raws, n)[i] == Labelling(raws, m)
  {
    var front := Inspected(raws, n - 1);
    if i < |front| {
      InspectedFrom(raws, n - 1, i);
      var m :| 0 <= m < n - 1 && front[i] == Labelling(raws, m);
      assert Inspected(raws, n)[i] == Labelling(raws, m);
    } else {
      assert Inspected(raws, n)[i] == Labelling(raws, n - 1);
    }
  }

  /** Whatever the raw observations are, the inspection labels them apart. */
  lemma {:induction false} InspectedIsLabelled(raws: seq<Raw>, n: nat)
    requires n <= |raws|
    ensures Labelled(Inspected(raws, n))
  {
    if n > 0 {
      var front := Inspected(raws, n - 1);
      InspectedIsLabelled(raws, n - 1);
      forall i | 0 <= i < |front| && front[i].provisional.Some? && raws[n - 1].kept
        ensures front[i].provisional != Labelling(raws, n - 1).provisional
      {
        InspectedFrom(raws, n - 1, i);
        var m :| 0 <= m < n - 1 && front[i] == Labelling(raws, m);
        if SameOwner(raws[m], raws[n - 1]) {
          OccurrencesGrow(raws, m, n - 1, raws[m]);
          SameOccurrences(raws, n - 1, raws[m], raws[n - 1]);
        }
      }
    }
  }

  lemma {:induction false} SameOccurrences(raws: seq<Raw>, n: nat, a: Raw, b: Raw)
    requires n <= |raws| && SameOwner(a, b)
    ensures Occurrences(raws, n, a) == Occurrences(raws, n, b)
  {
    if n > 0 {
      SameOccurrences(raws, n - 1, a, b);
    }
  }

  // ---------------------------------------------------------------------
  // When lineages are distinct
  // ---------------------------------------------------------------------

  /** b carries the least number from 1 up that no used name of a's signature has. */
  predicate NextFree(used: set<Lineage>, a: Lineage, b: Lineage) {
    && b.occurrence >= 1 && b !in used
    && forall n :: 1 <= n < b.occurrence ==> Lineage(a.group, a.signature, n) in used
  }

  /** Two provisional names of one signature that are resolved to one name: both
      are taken, or one is and the next free number is the other's. */
  predicate Clash(used: set<Lineage>, a: Lineage, b: Lineage) {
    || (a in used && b in used)
    || (a in used && NextFree(used, a, b))
    || (b in used && NextFree(used, b, a))
  }

  lemma FreshNamesClash(used: set<Lineage>, a: Lineage, b: Lineage)
    requires a != b
    ensures FreshName(used, a, a.signature) == FreshName(used, b, b.signature) <==>
      a.group == b.group && a.signature == b.signature && Clash(used, a, b)
  {
    var x, y := FirstFree(used, a.group, a.signature, 1), FirstFree(used, b.group, b.signature, 1);
    assert x == Lineage(a.group, a.signature, x.occurrence) && y == Lineage(b.group, b.signature, y.occurrence);
    if a.group == b.group && a.signature == b.signature {
      assert b == Lineage(a.group, a.signature, b.occurrence) && a == Lineage(a.group, a.signature, a.occurrence);
      assert a in used && b !in used ==> (NextFree(used, a, b) <==> x == b);
      assert b in used && a !in used ==> (NextFree(used, b, a) <==> x == a);
    }
  }

  ghost predicate LabelledCells(g: Group, current: seq<Cell>) {
    && CellsOfGroup(g, current)
    && (forall i :: 0 <= i < |current| ==> current[i].signature == Some(current[i].provisional.signature))
    && (forall i, k :: 0 <= i < k < |current| ==> current[i].provisional != current[k].provisional)
  }

  lemma LabelledGroup(snapshot: seq<Observation>, g: Group)
    requires Labelled(snapshot)
    ensures LabelledCells(g, CellsIn(snapshot, g))
  {
    var current := CellsIn(snapshot, g);
    CellsInGroup(snapshot, g);
    forall i | 0 <= i < |current| ensures current[i].signature == Some(current[i].provisional.signature) {
      var x := IndexOfCell(snapshot, g, i);
    }
    forall i, k | 0 <= i < k < |current| ensures current[i].provisional != current[k].provisional {
      var x := IndexOfCell(snapshot, g, i);
      var y := IndexOfCell(snapshot, g, k);
      if y < x {
        RankAscends(snapshot, g, y, x);
      }
    }
  }

  /** The group's last lineages are distinct and all used. */
  ghost predicate Clear(t: Trail) {
    && (forall j, k :: 0 <= j < k < |t.items| ==> t.items[j].lineage != t.items[k].lineage)
    && (forall j :: 0 <= j < |t.items| ==> t.items[j].lineage in t.used)
  }

  /** Two observations that continue none resolve to one name. */
  predicate Doubles(t: Trail, current: seq<Cell>, i: nat, k: nat)
    requires i < |current| && k < |current|
  {
    current[i].provisional.signature == current[k].provisional.signature
      && Clash(t.used, current[i].provisional, current[k].provisional)
  }

  ghost predicate Collides(t: Trail, current: seq<Cell>, le: (Lineage, Lineage) -> bool) {
    exists i: nat, k: nat :: i < k < |current| && !HasOldName(t, current, le, i) && !HasOldName(t, current, le, k)
                             && Doubles(t, current, i, k)
  }

  lemma OldName(t: Trail, current: seq<Cell>, le: (Lineage, Lineage) -> bool, i: nat) returns (j: nat)
    requires i < |current| && HasOldName(t, current, le, i)
    ensures j < |t.items| && Continues(t.items, current, le, j, i) && NameAt(t, current, le, i) == t.items[j].lineage
  {
    j :| j < |t.items| && Continues(t.items, current, le, j, i) && NameAt(t, current, le, i) == t.items[j].lineage;
  }

  lemma TwoNames(g: Group, t: Trail, current: seq<Cell>, le: (Lineage, Lineage) -> bool, i: nat, k: nat)
    requires LabelledCells(g, current) && Clear(t) && i < k < |current|
    ensures NameAt(t, current, le, i) == NameAt(t, current, le, k) <==>
      !HasOldName(t, current, le, i) && !HasOldName(t, current, le, k) && Doubles(t, current, i, k)
  {
    var a, b := current[i].provisional, current[k].provisional;
    FreshNamesClash(t.used, a, b);
    if HasOldName(t, current, le, i) {
      var j := OldName(t, current, le, i);
      if HasOldName(t, current, le, k) {
        var m := OldName(t, current, le, k);
        ContinuesIsFunctional(t.items, current, le, j, i, m, k);
        assert j < m || m < j;
      }
    } else if HasOldName(t, current, le, k) {
      var m := OldName(t, current, le, k);
    }
  }

  /** Within one group of one snapshot lineages are distinct exactly when no two
      observations that continue none clash. */
  lemma NamesAreDistinctExactly(g: Group, t: Trail, current: seq<Cell>, le: (Lineage, Lineage) -> bool)
    requires LabelledCells(g, current) && Clear(t)
    ensures Distinct(NamesOf(t, current, le)) <==> !Collides(t, current, le)
  {
    forall i: nat, k: nat | i < k < |current|
      ensures NameAt(t, current, le, i) == NameAt(t, current, le, k) <==>
        !HasOldName(t, current, le, i) && !HasOldName(t, current, le, k) && Doubles(t, current, i, k)
    {
      TwoNames(g, t, current, le, i, k);
    }
    var names := NamesOf(t, current, le);
    if Collides(t, current, le) {
      var i: nat, k: nat :| i < k < |current| && !HasOldName(t, current, le, i) && !HasOldName(t, current, le, k)
                            && Doubles(t, current, i, k);
      assert names[i] == names[k];
    }
  }

  lemma AdvanceKeepsClear(t: Trail, current: seq<Cell>, le: (Lineage, Lineage) -> bool)
    requires Clear(t) && Advance(t, current, le).Some? && Distinct(NamesOf(t, current, le))
    ensures Clear(Advance(t, current, le).value)
  {
    if current != [] {
      var names := NamesOf(t, current, le);
      forall j | 0 <= j < |names| ensures names[j] in Members(names) {}
    }
  }

  ghost predicate LabelledAll(inspections: History) {
    forall n :: 0 <= n < |inspections| ==> Labelled(inspections[n])
  }

  /** Resolved lineages of one vintage are pairwise distinct, over all groups. */
  ghost predicate VintageIsDistinct(history: History, snapshot: seq<Observation>, le: (Lineage, Lineage) -> bool) {
    forall i: nat, k: nat :: i < k < |snapshot| && snapshot[i].provisional.Some? && snapshot[k].provisional.Some? ==>
      Resolved(history, snapshot, le, i) != Resolved(history, snapshot, le, k)
  }

  lemma AdvanceStaysInGroup(g: Group, t: Trail, current: seq<Cell>, le: (Lineage, Lineage) -> bool)
    requires CellsOfGroup(g, current) && ItemsOfGroup(g, t.items) && Advance(t, current, le).Some?
    ensures ItemsOfGroup(g, Advance(t, current, le).value.items)
  {
    NamesStayInGroup(g, t, current, le);
  }

  lemma {:induction false} TrailStaysInGroup(history: History, g: Group, le: (Lineage, Lineage) -> bool)
    ensures ItemsOfGroup(g, TrailOf(history, g, le).items)
  {
    if history != [] && Accepted(history, g, le) {
      var n := |history| - 1;
      assert history == history[..n] + [history[n]];
      HistoryGrows(history[..n], history[n], g, le);
      TrailStaysInGroup(history[..n], g, le);
      CellsInGroup(history[n], g);
      AdvanceStaysInGroup(g, TrailOf(history[..n], g, le), CellsIn(history[n], g), le);
    }
  }

  lemma ResolvedInGroup(history: History, snapshot: seq<Observation>, le: (Lineage, Lineage) -> bool, i: nat)
    requires i < |snapshot| && snapshot[i].provisional.Some?
    ensures var g := snapshot[i].provisional.value.group;
      var r := Rank(snapshot, g, i);
      && r < |CellsIn(snapshot, g)|
      && Resolved(history, snapshot, le, i) == Some(NamesOf(TrailOf(history, g, le), CellsIn(snapshot, g), le)[r])
      && Resolved(history, snapshot, le, i).value.group == g
  {
    var g := snapshot[i].provisional.value.group;
    RankedCell(snapshot, g, i);
    CellsInGroup(snapshot, g);
    TrailStaysInGroup(history, g, le);
    NamesStayInGroup(g, TrailOf(history, g, le), CellsIn(snapshot, g), le);
  }

  ghost predicate GroupIsDistinct(history: History, snapshot: seq<Observation>, g: Group,
                                  le: (Lineage, Lineage) -> bool) {
    Distinct(NamesOf(TrailOf(history, g, le), CellsIn(snapshot, g), le))
  }

  lemma DistinctByGroup(history: History, snapshot: seq<Observation>, le: (Lineage, Lineage) -> bool)
    ensures VintageIsDistinct(history, snapshot, le) <==> forall g :: GroupIsDistinct(history, snapshot, g, le)
  {
    if VintageIsDistinct(history, snapshot, le) {
      forall g ensures GroupIsDistinct(history, snapshot, g, le) {
        GroupOfDistinct(history, snapshot, g, le);
      }
    }
    if forall g :: GroupIsDistinct(history, snapshot, g, le) {
      forall i: nat, k: nat | i < k < |snapshot| && snapshot[i].provisional.Some? && snapshot[k].provisional.Some?
        ensures Resolved(history, snapshot, le, i) != Resolved(history, snapshot, le, k)
      {
        ResolvedInGroup(history, snapshot, le, i);
        ResolvedInGroup(history, snapshot, le, k);
        var g := snapshot[i].provisional.value.group;
        RankAscends(snapshot, g, i, k);
        assert GroupIsDistinct(history, snapshot, g, le);
      }
    }
  }

  lemma GroupOfDistinct(history: History, snapshot: seq<Observation>, g: Group, le: (Lineage, Lineage) -> bool)
    requires VintageIsDistinct(history, snapshot, le)
    ensures GroupIsDistinct(history, snapshot, g, le)
  {
    var names := NamesOf(TrailOf(history, g, le), CellsIn(snapshot, g), le);
    forall i: nat, k: nat | i < k < |names| ensures names[i] != names[k] {
      var x := IndexOfCell(snapshot, g, i);
      var y := IndexOfCell(snapshot, g, k);
      ResolvedInGroup(history, snapshot, le, x);
      ResolvedInGroup(history, snapshot, le, y);
      if y < x {
        RankAscends(snapshot, g, y, x);
      }
    }
  }

  /** Some group of the n-th snapshot holds two clashing observations. */
  ghost predicate CollidesAt(inspections: History, n: nat, g: Group, le: (Lineage, Lineage) -> bool)
    requires n < |inspections|
  {
    Collides(TrailOf(inspections[..n], g, le), CellsIn(inspections[n], g), le)
  }

  lemma NextTrail(inspections: History, n: nat, g: Group, le: (Lineage, Lineage) -> bool)
    requires n < |inspections| && Accepted(inspections, g, le)
    ensures Advance(TrailOf(inspections[..n], g, le), CellsIn(inspections[n], g), le) ==
      Some(TrailOf(inspections[..n + 1], g, le))
  {
    if !Accepted(inspections[..n + 1], g, le) {
      RefusalPersists(inspections, n + 1, g, le);
    }
    PrefixExtends(inspections, n);
    HistoryGrows(inspections[..n], inspections[n], g, le);
  }

  ghost predicate DistinctAt(inspections: History, n: nat, g: Group, le: (Lineage, Lineage) -> bool)
    requires n < |inspections|
  {
    GroupIsDistinct(inspections[..n], inspections[n], g, le)
  }

  lemma DistinctNext(inspections: History, n: nat, g: Group, le: (Lineage, Lineage) -> bool)
    requires LabelledAll(inspections) && Accepted(inspections, g, le) && n < |inspections|
    requires Clear(TrailOf(inspections[..n], g, le))
    ensures DistinctAt(inspections, n, g, le) <==> !CollidesAt(inspections, n, g, le)
    ensures DistinctAt(inspections, n, g, le) ==> Clear(TrailOf(inspections[..n + 1], g, le))
  {
    LabelledGroup(inspections[n], g);
    NamesAreDistinctExactly(g, TrailOf(inspections[..n], g, le), CellsIn(inspections[n], g), le);
    if DistinctAt(inspections, n, g, le) {
      NextTrail(inspections, n, g, le);
      AdvanceKeepsClear(TrailOf(inspections[..n], g, le), CellsIn(inspections[n], g), le);
    }
  }

  /** While the state is clear a snapshot is good exactly when it is not bad, and
      a good one leaves the state clear: then all are good exactly when none is bad. */
  lemma {:induction false} GoodUnlessBad(clear: seq<bool>, good: seq<bool>, bad: seq<bool>, n: nat)
    requires |clear| == |good| + 1 && |good| == |bad| && n <= |good| && clear[0]
    requires forall k :: 0 <= k < n && clear[k] ==> (good[k] <==> !bad[k]) && (good[k] ==> clear[k + 1])
    ensures (forall k :: 0 <= k < n ==> good[k]) <==> (forall k :: 0 <= k < n ==> !bad[k])
    ensures (forall k :: 0 <= k < n ==> good[k]) ==> clear[n]
  {
    if n > 0 {
      GoodUnlessBad(clear, good, bad, n - 1);
    }
  }

  lemma GroupDistinctExactly(inspections: History, g: Group, le: (Lineage, Lineage) -> bool)
    requires LabelledAll(inspections) && Accepted(inspections, g, le)
    ensures (forall n :: 0 <= n < |inspections| ==> DistinctAt(inspections, n, g, le))
       <==> (forall n :: 0 <= n < |inspections| ==> !CollidesAt(inspections, n, g, le))
  {
    var size := |inspections|;
    var clear := seq(size + 1, n requires 0 <= n <= size => Clear(TrailOf(inspections[..n], g, le)));
    var good := seq(size, n requires 0 <= n < size => DistinctAt(inspections, n, g, le));
    var bad := seq(size, n requires 0 <= n < size => CollidesAt(inspections, n, g, le));
    forall k | 0 <= k < size && clear[k] ensures (good[k] <==> !bad[k]) && (good[k] ==> clear[k + 1]) {
      DistinctNext(inspections, k, g, le);
    }
    assert clear[0] by { StartsClear(inspections, g, le); }
    GoodUnlessBad(clear, good, bad, size);
    assert forall n :: 0 <= n < size ==> (good[n] <==> DistinctAt(inspections, n, g, le));
    assert forall n :: 0 <= n < size ==> (bad[n] <==> CollidesAt(inspections, n, g, le));
  }

  lemma StartsClear(inspections: History, g: Group, le: (Lineage, Lineage) -> bool)
    ensures Clear(TrailOf(inspections[..0], g, le))
  {
    assert inspections[..0] == [] && TraceOf([], g) == [];
  }

  ghost predicate AllVintagesDistinct(inspections: History, le: (Lineage, Lineage) -> bool) {
    forall n :: 0 <= n < |inspections| ==> VintageIsDistinct(inspections[..n], inspections[n], le)
  }

  ghost predicate NoneCollides(inspections: History, le: (Lineage, Lineage) -> bool) {
    forall n, g :: 0 <= n < |inspections| ==> !CollidesAt(inspections, n, g, le)
  }

  /** Over any accepted sequence of snapshots, repeated signatures included:
      every vintage's lineages are pairwise distinct exactly when no snapshot
      holds two clashing observations. */
  lemma VintagesAreDistinctExactly(inspections: History, le: (Lineage, Lineage) -> bool)
    requires LabelledAll(inspections) && forall g :: Accepted(inspections, g, le)
    ensures AllVintagesDistinct(inspections, le) <==> NoneCollides(inspections, le)
  {
    if AllVintagesDistinct(inspections, le) {
      forall n, g | 0 <= n < |inspections| ensures !CollidesAt(inspections, n, g, le) {
        forall m | 0 <= m < |inspections| ensures DistinctAt(inspections, m, g, le) {
          DistinctByGroup(inspections[..m], inspections[m], le);
        }
        GroupDistinctExactly(inspections, g, le);
      }
    }
    if NoneCollides(inspections, le) {
      forall n | 0 <= n < |inspections| ensures VintageIsDistinct(inspections[..n], inspections[n], le) {
        forall g ensures GroupIsDistinct(inspections[..n], inspections[n], g, le) {
          GroupDistinctExactly(inspections, g, le);
          assert DistinctAt(inspections, n, g, le);
        }
        DistinctByGroup(inspections[..n], inspections[n], le);
      }
    }
  }

  // ---------------------------------------------------------------------
  // Each signature once per group and snapshot
  // ---------------------------------------------------------------------

  /** Each signature at most once per group, under its first provisional name. */
  ghost predicate WellNamed(snapshot: seq<Observation>) {
    && (forall i :: 0 <= i < |snapshot| && snapshot[i].provisional.Some? ==>
          && snapshot[i].signature == Some(snapshot[i].provisional.value.signature)
          && snapshot[i].provisional.value.occurrence == 0)
    && Labelled(snapshot)
  }

  /** Raw observations that never repeat a signature in a group are well named. */
  lemma {:induction false} OnceIsWellNamed(raws: seq<Raw>, n: nat)
    requires n <= |raws| && forall i, k :: 0 <= i < k < n ==> !SameOwner(raws[i], raws[k])
    ensures WellNamed(Inspected(raws, n))
  {
    InspectedIsLabelled(raws, n);
    forall i | 0 <= i < |Inspected(raws, n)| && Inspected(raws, n)[i].provisional.Some?
      ensures Inspected(raws, n)[i].provisional.value.occurrence == 0
    {
      InspectedFrom(raws, n, i);
      var m :| 0 <= m < n && Inspected(raws, n)[i] == Labelling(raws, m);
      NoneEarlier(raws, m, raws[m]);
    }
  }

  lemma {:induction false} NoneEarlier(raws: seq<Raw>, n: nat, r: Raw)
    requires n <= |raws| && forall k :: 0 <= k < n ==> !SameOwner(raws[k], r)
    ensures Occurrences(raws, n, r) == 0
  {
    if n > 0 {
      NoneEarlier(raws, n - 1, r);
    }
  }

  ghost predicate WellNamedAll(inspections: History) {
    forall n :: 0 <= n < |inspections| ==> WellNamed(inspections[n])
  }

  ghost predicate OnceCells(g: Group, current: seq<Cell>) {
    LabelledCells(g, current) && forall i :: 0 <= i < |current| ==> current[i].provisional.occurrence == 0
  }

  lemma OnceGroup(snapshot: seq<Observation>, g: Group)
    requires WellNamed(snapshot)
    ensures OnceCells(g, CellsIn(snapshot, g))
  {
    LabelledGroup(snapshot, g);
  }

  lemma SignatureNamesCell(g: Group, current: seq<Cell>, i: nat, k: nat)
    requires OnceCells(g, current) && i < |current| && k < |current|
    ensures current[i].signature == current[k].signature ==> i == k
  {
    var a, b := current[i].provisional, current[k].provisional;
    assert a == Lineage(g, a.signature, 0) && b == Lineage(g, b.signature, 0);
  }

  /** With each signature once, lineages are always distinct. */
  lemma OnceEachIsDistinct(inspections: History, le: (Lineage, Lineage) -> bool)
    requires WellNamedAll(inspections) && forall g :: Accepted(inspections, g, le)
    ensures AllVintagesDistinct(inspections, le)
  {
    forall n, g | 0 <= n < |inspections| ensures !CollidesAt(inspections, n, g, le) {
      var current := CellsIn(inspections[n], g);
      OnceGroup(inspections[n], g);
      forall i: nat, k: nat | i < k < |current| ensures current[i].signature != current[k].signature {
        SignatureNamesCell(g, current, i, k);
      }
    }
    VintagesAreDistinctExactly(inspections, le);
  }

  // ---------------------------------------------------------------------
  // Retired lineages
  // ---------------------------------------------------------------------

  /** One snapshot's effect on one group's live and used lineages: each name is
      live or never used before, and the named ones become the live ones. */
  ghost predicate Link(live: seq<Lineage>, used: set<Lineage>, names: seq<Lineage>, live': seq<Lineage>,
                       used': set<Lineage>) {
    && (forall l :: l in names ==> l in live || l !in used)
    && live' == (if names == [] then live else names)
    && (forall l :: l in used' <==> l in used || l in names)
  }

  datatype Chain = Chain(live: seq<seq<Lineage>>, used: seq<set<Lineage>>, names: seq<seq<Lineage>>)

  ghost predicate Linked(c: Chain) {
    && |c.live| == |c.used| == |c.names| + 1
    && forall n :: 0 <= n < |c.names| ==> Link(c.live[n], c.used[n], c.names[n], c.live[n + 1], c.used[n + 1])
  }

  lemma {:induction false} StaysUsed(c: Chain, m: nat, n: nat, l: Lineage)
    requires Linked(c) && m <= n <= |c.names| && l in c.used[m]
    ensures l in c.used[n]
  {
    if m < n {
      StaysUsed(c, m, n - 1, l);
    }
  }

  /** A used lineage that is not live stays so: it is never named again. */
  lemma {:induction false} RetiredForever(c: Chain, n: nat, q: nat, l: Lineage)
    requires Linked(c) && n <= q <= |c.names| && l in c.used[n] && l !in c.live[n]
    ensures l in c.used[q] && l !in c.live[q]
    ensures forall k :: n <= k < q ==> l !in c.names[k]
  {
    if n < q {
      RetiredForever(c, n, q - 1, l);
    }
  }

  lemma DroppedIsGone(c: Chain, m: nat, n: nat, q: nat, l: Lineage)
    requires Linked(c) && m < n < q < |c.names|
    requires l in c.names[m] && c.names[n] != [] && l !in c.names[n]
    ensures l !in c.names[q]
  {
    StaysUsed(c, m + 1, n + 1, l);
    RetiredForever(c, n + 1, q + 1, l);
  }

  ghost function Lineages(items: seq<Item>): (r: seq<Lineage>)
    ensures |r| == |items| && forall j :: 0 <= j < |r| ==> r[j] == items[j].lineage
  {
    seq(|items|, j requires 0 <= j < |items| => items[j].lineage)
  }

  lemma AdvanceLinks(t: Trail, current: seq<Cell>, le: (Lineage, Lineage) -> bool)
    requires Advance(t, current, le).Some?
    ensures var u := Advance(t, current, le).value;
      Link(Lineages(t.items), t.used, NamesOf(t, current, le), Lineages(u.items), u.used)
  {
    var names := NamesOf(t, current, le);
    forall i | 0 <= i < |names| ensures names[i] in Lineages(t.items) || names[i] !in t.used {
      if HasOldName(t, current, le, i) {
        var j := OldName(t, current, le, i);
        assert Lineages(t.items)[j] == names[i];
      }
    }
    if current != [] {
      assert Lineages(ItemsFor(current, names)) == names;
    }
  }

  /** One group's part of the whole sequence. */
  ghost function ChainOf(inspections: History, g: Group, le: (Lineage, Lineage) -> bool): Chain {
    Chain(seq(|inspections| + 1,
      n requires 0 <= n <= |inspections| => Lineages(TrailOf(inspections[..n], g, le).items)),
          seq(|inspections| + 1, n requires 0 <= n <= |inspections| => TrailOf(inspections[..n], g, le).used),
          seq(|inspections|, n requires 0 <= n < |inspections| =>
            NamesOf(TrailOf(inspections[..n], g, le), CellsIn(inspections[n], g), le)))
  }

  lemma ChainIsLinked(inspections: History, g: Group, le: (Lineage, Lineage) -> bool)
    requires Accepted(inspections, g, le)
    ensures Linked(ChainOf(inspections, g, le))
  {
    var c := ChainOf(inspections, g, le);
    forall n | 0 <= n < |inspections| ensures Link(c.live[n], c.used[n], c.names[n], c.live[n + 1], c.used[n + 1]) {
      NextTrail(inspections, n, g, le);
      AdvanceLinks(TrailOf(inspections[..n], g, le), CellsIn(inspections[n], g), le);
    }
  }

  /** Some observation of the snapshot that follows `history` resolves to l. */
  ghost predicate Carries(history: History, snapshot: seq<Observation>, l: Lineage, le: (Lineage, Lineage) -> bool) {
    exists i: nat :: i < |snapshot| && Resolved(history, snapshot, le, i) == Some(l)
  }

  lemma CarriesIsNamed(history: History, snapshot: seq<Observation>, l: Lineage, le: (Lineage, Lineage) -> bool)
    ensures Carries(history, snapshot, l, le) <==>
      l in NamesOf(TrailOf(history, l.group, le), CellsIn(snapshot, l.group), le)
  {
    var names := NamesOf(TrailOf(history, l.group, le), CellsIn(snapshot, l.group), le);
    if i: nat :| i < |snapshot| && Resolved(history, snapshot, le, i) == Some(l) {
      ResolvedInGroup(history, snapshot, le, i);
      assert names[Rank(snapshot, l.group, i)] == l;
    }
    if l in names {
      var k :| 0 <= k < |names| && names[k] == l;
      var i := IndexOfCell(snapshot, l.group, k);
      ResolvedInGroup(history, snapshot, le, i);
    }
  }

  lemma CarriesAt(inspections: History, n: nat, l: Lineage, le: (Lineage, Lineage) -> bool)
    requires n < |inspections|
    ensures Carries(inspections[..n], inspections[n], l, le) <==> l in ChainOf(inspections, l.group, le).names[n]
    ensures |CellsIn(inspections[n], l.group)| == |ChainOf(inspections, l.group, le).names[n]|
  {
    CarriesIsNamed(inspections[..n], inspections[n], l, le);
  }

  /** A lineage handed out once and missing from a later vintage of its group is
      never handed out again, repeated signatures or not. */
  lemma DroppedLineageNeverReturns(inspections: History, m: nat, n: nat, q: nat, l: Lineage,
                                   le: (Lineage, Lineage) -> bool)
    requires Accepted(inspections, l.group, le) && m < n < q < |inspections|
    requires Carries(inspections[..m], inspections[m], l, le)
    requires CellsIn(inspections[n], l.group) != [] && !Carries(inspections[..n], inspections[n], l, le)
    ensures !Carries(inspections[..q], inspections[q], l, le)
  {
    CarriesAt(inspections, m, l, le);
    CarriesAt(inspections, n, l, le);
    CarriesAt(inspections, q, l, le);
    ChainIsLinked(inspections, l.group, le);
    DroppedIsGone(ChainOf(inspections, l.group, le), m, n, q, l);
  }

  // ---------------------------------------------------------------------
  // A collision
  // ---------------------------------------------------------------------

  function Seen(g: Group, signature: string, keysOf: string -> set<string>): Raw {
    Raw(Some(g), signature, keysOf(signature), true)
  }

  /** a, then b in its place, then b with a back twice. */
  function Reversion(g: Group, keysOf: string -> set<string>): seq<seq<Raw>> {
    [[Seen(g, "a", keysOf)], [Seen(g, "b", keysOf)], [Seen(g, "b", keysOf), Seen(g, "a", keysOf), Seen(g, "a", keysOf)]]
  }

  function Observed(g: Group, signature: string, occurrence: nat, keysOf: string -> set<string>): Observation {
    Observation(Some(Lineage(g, signature, occurrence)), Some(signature), keysOf(signature))
  }

  function ReversionSnapshots(g: Group, keysOf: string -> set<string>): History {
    [[Observed(g, "a", 0, keysOf)], [Observed(g, "b", 0, keysOf)],
      [Observed(g, "b", 0, keysOf), Observed(g, "a", 0, keysOf), Observed(g, "a", 1, keysOf)]]
  }

  lemma InspectOne(r: Raw)
    requires r.group.Some? && r.kept
    ensures Inspected([r], 1) == [Observation(Some(Lineage(r.group.value, r.signature, 0)), Some(r.signature), r.keys)]
  {
    assert Inspected([r], 0) == [];
  }

  lemma InspectThree(g: Group, keysOf: string -> set<string>)
    ensures Inspected(Reversion(g, keysOf)[2], 3) == ReversionSnapshots(g, keysOf)[2]
  {
    var raws := Reversion(g, keysOf)[2];
    assert Occurrences(raws, 0, raws[0]) == 0;
    assert Occurrences(raws, 1, raws[1]) == Occurrences(raws, 0, raws[1]) == 0;
    assert Occurrences(raws, 2, raws[2]) == Occurrences(raws, 1, raws[2]) + 1 == Occurrences(raws, 0, raws[2]) + 1 == 1;
    assert Inspected(raws, 1) == [Observed(g, "b", 0, keysOf)];
    assert Inspected(raws, 2) == [Observed(g, "b", 0, keysOf), Observed(g, "a", 0, keysOf)];
  }

  lemma ReversionIsInspected(g: Group, keysOf: string -> set<string>)
    ensures forall n :: 0 <= n < 3 ==>
      ReversionSnapshots(g, keysOf)[n] == Inspected(Reversion(g, keysOf)[n], |Reversion(g, keysOf)[n]|)
    ensures LabelledAll(ReversionSnapshots(g, keysOf))
  {
    InspectOne(Seen(g, "a", keysOf));
    InspectOne(Seen(g, "b", keysOf));
    InspectThree(g, keysOf);
    forall n | 0 <= n < 3
      ensures ReversionSnapshots(g, keysOf)[n] == Inspected(Reversion(g, keysOf)[n], |Reversion(g, keysOf)[n]|)
        && Labelled(ReversionSnapshots(g, keysOf)[n])
    {
      InspectedIsLabelled(Reversion(g, keysOf)[n], |Reversion(g, keysOf)[n]|);
    }
  }

  lemma AdvanceOne(t: Trail, cell: Cell, le: (Lineage, Lineage) -> bool)
    requires cell.signature.Some? && !Ambiguous(t.items, [cell], le)
    ensures var name := NameAt(t, [cell], le, 0);
      Advance(t, [cell], le) == Some(Trail([Item(name, cell.signature.value, cell.keys)], t.used + {name}))
  {
    var name := NameAt(t, [cell], le, 0);
    assert NamesOf(t, [cell], le) == [name];
    assert Members([name]) == {name};
    assert ItemsFor([cell], [name]) == [Item(name, cell.signature.value, cell.keys)];
  }

  lemma FirstOfAll(cell: Cell, le: (Lineage, Lineage) -> bool)
    requires cell.signature.Some?
    ensures Advance(Trail([], {}), [cell], le) ==
      Some(Trail([Item(cell.provisional, cell.signature.value, cell.keys)], {cell.provisional}))
  {
    assert LeftOld([], [cell], le) == {};
    assert OldRemainder([], [cell], le) == {};
    AdvanceOne(Trail([], {}), cell, le);
    assert {} + {cell.provisional} == {cell.provisional};
  }

  /** One old and one new observation always continue. */
  lemma OneToOne(item: Item, cell: Cell, le: (Lineage, Lineage) -> bool)
    ensures Continues([item], [cell], le, 0, 0) && !Ambiguous([item], [cell], le)
  {
    var left, open := LeftOld([item], [cell], le), OpenNew([item], [cell], le);
    if j: nat, i: nat :| Exact([item], [cell], le, j, i) {
      ExactIsFunctional([item], [cell], le, j, i, j, i);
      assert HasExactNew([item], [cell], le, 0);
      assert left == {};
    } else {
      assert left == {0} && open == {0};
      var restOld, restNew := RestOld([item], [cell], left, open), RestNew([item], [cell], left, open);
      if Isolated([item], [cell], left, open, 0, 0) {
        assert restOld == {};
      } else {
        assert restOld == {0} && restNew == {0};
      }
    }
  }

  lemma Replaced(item: Item, cell: Cell, le: (Lineage, Lineage) -> bool)
    requires cell.signature.Some?
    ensures Advance(Trail([item], {item.lineage}), [cell], le) ==
      Some(Trail([Item(item.lineage, cell.signature.value, cell.keys)], {item.lineage}))
  {
    var t := Trail([item], {item.lineage});
    OneToOne(item, cell, le);
    assert HasOldName(t, [cell], le, 0);
    var j := OldName(t, [cell], le, 0);
    AdvanceOne(t, cell, le);
    assert {item.lineage} + {item.lineage} == {item.lineage};
  }

  lemma OnlyFirst(t: Trail, current: seq<Cell>, le: (Lineage, Lineage) -> bool, i: nat)
    requires |t.items| == 1 && 0 < i < |current| && Continues(t.items, current, le, 0, 0)
    ensures !HasOldName(t, current, le, i)
  {
    if HasOldName(t, current, le, i) {
      var j := OldName(t, current, le, i);
      ContinuesIsFunctional(t.items, current, le, 0, 0, j, i);
    }
  }

  lemma BackAlone(previous: seq<Item>, current: seq<Cell>, le: (Lineage, Lineage) -> bool)
    requires |previous| == 1 && Exact(previous, current, le, 0, 0)
    ensures !Ambiguous(previous, current, le)
  {
    forall j | 0 <= j < |previous| ensures HasExactNew(previous, current, le, j) {}
    AllMatched(previous, current, le);
  }

  /** One observation is back, and two unmatched ones clash behind it. */
  lemma ClashBehind(t: Trail, current: seq<Cell>, le: (Lineage, Lineage) -> bool)
    requires |t.items| == 1 && |current| == 3 && Continues(t.items, current, le, 0, 0) && Doubles(t, current, 1, 2)
    ensures Collides(t, current, le)
  {
    OnlyFirst(t, current, le, 1);
    OnlyFirst(t, current, le, 2);
  }

  /** With b back and a twice behind it, both a's come to the same name. */
  lemma BackTwice(g: Group, keysOf: string -> set<string>, le: (Lineage, Lineage) -> bool)
    ensures var t := Trail([Item(Lineage(g, "a", 0), "b", keysOf("b"))], {Lineage(g, "a", 0)});
      var current := CellsIn(ReversionSnapshots(g, keysOf)[2], g);
      current != [] && !Unresolvable(t.items, current, le) && Collides(t, current, le)
  {
    var t := Trail([Item(Lineage(g, "a", 0), "b", keysOf("b"))], {Lineage(g, "a", 0)});
    CellsOfThree(g, keysOf);
    var current := CellsIn(ReversionSnapshots(g, keysOf)[2], g);
    assert NextFree(t.used, current[1].provisional, current[2].provisional);
    OnlyOccurrence(t.items, current, le, 0, 0);
    BackAlone(t.items, current, le);
    ClashBehind(t, current, le);
  }

  lemma CellsOfOne(o: Observation, g: Group)
    requires InGroup(o, g)
    ensures CellsIn([o], g) == [CellOf(o)]
  {
    assert CellsIn([o][..0], g) == [];
  }

  lemma CellsOfThree(g: Group, keysOf: string -> set<string>)
    ensures var snapshot := ReversionSnapshots(g, keysOf)[2];
      CellsIn(snapshot, g) == [CellOf(snapshot[0]), CellOf(snapshot[1]), CellOf(snapshot[2])]
  {
    var snapshot := ReversionSnapshots(g, keysOf)[2];
    assert snapshot[..2] == [snapshot[0], snapshot[1]] && snapshot[..2][..1] == [snapshot[0]];
    assert CellsIn([snapshot[0]], g) == [CellOf(snapshot[0])];
    assert CellsIn(snapshot[..2], g) == [CellOf(snapshot[0]), CellOf(snapshot[1])];
  }

  lemma AllMatched(previous: seq<Item>, current: seq<Cell>, le: (Lineage, Lineage) -> bool)
    requires forall j :: 0 <= j < |previous| ==> HasExactNew(previous, current, le, j)
    ensures !Ambiguous(previous, current, le)
  {
    assert LeftOld(previous, current, le) == {};
    assert OldRemainder(previous, current, le) == {};
  }

  /** The one occurrence of a signature on either side is matched exactly. */
  lemma OnlyOccurrence(previous: seq<Item>, current: seq<Cell>, le: (Lineage, Lineage) -> bool, j: nat, i: nat)
    requires j < |previous| && i < |current| && current[i].signature == Some(previous[j].signature)
    requires forall x :: 0 <= x < |previous| && previous[x].signature == previous[j].signature ==> x == j
    requires forall x :: 0 <= x < |current| && current[x].signature == current[i].signature ==> x == i
    ensures Exact(previous, current, le, j, i)
  {
    var s := previous[j].signature;
    SortedOldIndexes(previous, s, le);
    NewIndexesAscend(current, s);
    var olds, news := SortedOld(previous, s, le), NewIndexes(current, s);
    assert j in olds && i in news;
    assert olds[0] in olds && news[0] in news;
    assert ExactAt(previous, current, le, s, 0, j, i);
  }

  lemma ReversionRuns(g: Group, h: Group, keysOf: string -> set<string>, le: (Lineage, Lineage) -> bool)
    ensures Accepted(ReversionSnapshots(g, keysOf), h, le) && CollidesAt(ReversionSnapshots(g, keysOf), 2, g, le)
  {
    var all := ReversionSnapshots(g, keysOf);
    ReversionStarts(g, keysOf, le);
    BackTwice(g, keysOf, le);
    assert all[..2] == [all[0], all[1]];
    assert all == all[..2] + [all[2]];
    HistoryGrows(all[..2], all[2], g, le);
    if h != g {
      Elsewhere(g, h, keysOf, le);
    }
  }

  lemma ReversionStarts(g: Group, keysOf: string -> set<string>, le: (Lineage, Lineage) -> bool)
    ensures var all := ReversionSnapshots(g, keysOf);
      && Accepted([all[0], all[1]], g, le)
      && TrailOf([all[0], all[1]], g, le) == Trail([Item(Lineage(g, "a", 0), "b", keysOf("b"))], {Lineage(g, "a", 0)})
  {
    var all := ReversionSnapshots(g, keysOf);
    var a, b := CellOf(all[0][0]), CellOf(all[1][0]);
    CellsOfOne(all[0][0], g);
    CellsOfOne(all[1][0], g);
    assert TraceOf([], g) == [];
    assert [] + [all[0]] == [all[0]] && [all[0]] + [all[1]] == [all[0], all[1]];
    FirstOfAll(a, le);
    HistoryGrows([], all[0], g, le);
    Replaced(Item(a.provisional, "a", keysOf("a")), b, le);
    HistoryGrows([all[0]], all[1], g, le);
  }

  lemma Elsewhere(g: Group, h: Group, keysOf: string -> set<string>, le: (Lineage, Lineage) -> bool)
    requires h != g
    ensures Accepted(ReversionSnapshots(g, keysOf), h, le)
  {
    var all := ReversionSnapshots(g, keysOf);
    var trace := TraceOf(all, h);
    forall n | 0 <= n < 3 ensures trace[n] == [] {
      if CellsIn(all[n], h) != [] {
        var i := IndexOfCell(all[n], h, 0);
      }
    }
    NothingRuns(trace, le);
  }

  lemma {:induction false} NothingRuns(trace: seq<seq<Cell>>, le: (Lineage, Lineage) -> bool)
    requires forall n :: 0 <= n < |trace| ==> trace[n] == []
    ensures Run(trace, le) == Some(Trail([], {}))
  {
    if trace != [] {
      NothingRuns(trace[..|trace| - 1], le);
    }
  }

  /** Inspected snapshots that are accepted and whose last vintage names two
      observations alike. */
  lemma RepeatsCanCollide(g: Group, keysOf: string -> set<string>, le: (Lineage, Lineage) -> bool)
    ensures var all := ReversionSnapshots(g, keysOf);
      && (forall n :: 0 <= n < 3 ==> all[n] == Inspected(Reversion(g, keysOf)[n], |Reversion(g, keysOf)[n]|))
      && LabelledAll(all) && (forall h :: Accepted(all, h, le))
      && !VintageIsDistinct(all[..2], all[2], le)
  {
    ReversionIsInspected(g, keysOf);
    forall h ensures Accepted(ReversionSnapshots(g, keysOf), h, le) {
      ReversionRuns(g, h, keysOf, le);
    }
    ReversionDoubles(g, keysOf, le);
  }

  lemma ReversionDoubles(g: Group, keysOf: string -> set<string>, le: (Lineage, Lineage) -> bool)
    ensures !VintageIsDistinct(ReversionSnapshots(g, keysOf)[..2], ReversionSnapshots(g, keysOf)[2], le)
  {
    ReversionIsInspected(g, keysOf);
    ReversionRuns(g, g, keysOf, le);
    ReversionIsClear(g, keysOf, le);
    DistinctNext(ReversionSnapshots(g, keysOf), 2, g, le);
    DistinctByGroup(ReversionSnapshots(g, keysOf)[..2], ReversionSnapshots(g, keysOf)[2], le);
  }

  lemma ReversionIsClear(g: Group, keysOf: string -> set<string>, le: (Lineage, Lineage) -> bool)
    ensures Clear(TrailOf(ReversionSnapshots(g, keysOf)[..2], g, le))
  {
    var all := ReversionSnapshots(g, keysOf);
    assert all[..2] == [all[0], all[1]];
    ReversionStarts(g, keysOf, le);
  }
}
