/** Threading stable lineages through ordered snapshots of unlabelled SEC
    observations (`reconcile_sec_observation_lineages`, sec_ingestion.py).

    A lineage's fourth component, the text `signature:n`, is the pair of its
    parts; signatures and component hashes are opaque values. */
module LineageReconciliation {
  import opened Wrappers
  import opened Sorting

  datatype Group = Group(taxonomy: string, concept: string, accession: string)

  datatype Lineage = Lineage(group: Group, signature: string, occurrence: nat)

  /** One observation of a snapshot, inside the group of its provisional lineage. */
  datatype Cell = Cell(provisional: Lineage, signature: Option<string>, keys: set<string>)

  /** One resolved observation of the previous snapshot of a group. */
  datatype Item = Item(lineage: Lineage, signature: string, keys: set<string>)

  datatype LineageError = AmbiguousOrUnreconcilable

  // ---------------------------------------------------------------------
  // Fresh names
  // ---------------------------------------------------------------------

  ghost function UsedFrom(used: set<Lineage>, group: Group, signature: string, suffix: nat): set<Lineage> {
    set l | l in used && l.group == group && l.signature == signature && l.occurrence >= suffix
  }

  function FirstFree(used: set<Lineage>, group: Group, signature: string, suffix: nat): (name: Lineage)
    ensures name !in used && name.group == group && name.signature == signature && name.occurrence >= suffix
    ensures forall n :: suffix <= n < name.occurrence ==> Lineage(group, signature, n) in used
    decreases |UsedFrom(used, group, signature, suffix)|
  {
    var name := Lineage(group, signature, suffix);
    if name !in used then name
    else
      assert UsedFrom(used, group, signature, suffix + 1) == UsedFrom(used, group, signature, suffix) - {name};
      FirstFree(used, group, signature, suffix + 1)
  }

  /** The provisional name if it is free, else the first free suffix from 1 up. */
  function FreshName(used: set<Lineage>, provisional: Lineage, signature: string): (name: Lineage)
    ensures name !in used
    ensures name == provisional || (name.group == provisional.group && name.signature == signature)
  {
    if provisional !in used then provisional else FirstFree(used, provisional.group, signature, 1)
  }

  /** Only names of the same group matter. */
  lemma {:induction false} FirstFreeIsLocal(a: set<Lineage>, b: set<Lineage>, group: Group, signature: string,
                                            suffix: nat)
    requires forall l: Lineage :: l.group == group ==> (l in a <==> l in b)
    ensures FirstFree(a, group, signature, suffix) == FirstFree(b, group, signature, suffix)
  {
    var x := FirstFree(a, group, signature, suffix);
    var y := FirstFree(b, group, signature, suffix);
    assert x !in b && y !in a;
    assert x == Lineage(group, signature, x.occurrence) && y == Lineage(group, signature, y.occurrence);
  }

  // ---------------------------------------------------------------------
  // One group, over indexes: exact matches, isolated edges, sole remainder
  // ---------------------------------------------------------------------

  function OldIndexes(previous: seq<Item>, signature: string): seq<nat> {
    if previous == [] then []
    else
      var n := |previous| - 1;
      OldIndexes(previous[..n], signature) + if previous[n].signature == signature then [n] else []
  }

  function NewIndexes(current: seq<Cell>, signature: string): seq<nat> {
    if current == [] then []
    else
      var n := |current| - 1;
      NewIndexes(current[..n], signature) + if current[n].signature == Some(signature) then [n] else []
  }

  lemma {:induction false} OldIndexesAscend(previous: seq<Item>, signature: string)
    ensures forall j :: j in OldIndexes(previous, signature) <==>
      0 <= j < |previous| && previous[j].signature == signature
    ensures Distinct(OldIndexes(previous, signature))
  {
    if previous != [] {
      var n := |previous| - 1;
      OldIndexesAscend(previous[..n], signature);
      var rest := OldIndexes(previous[..n], signature);
      assert forall x :: 0 <= x < |rest| ==> rest[x] in rest;
    }
  }

  lemma {:induction false} NewIndexesAscend(current: seq<Cell>, signature: string)
    ensures forall i :: i in NewIndexes(current, signature) <==>
      0 <= i < |current| && current[i].signature == Some(signature)
    ensures Distinct(NewIndexes(current, signature))
  {
    if current != [] {
      var n := |current| - 1;
      NewIndexesAscend(current[..n], signature);
      var rest := NewIndexes(current[..n], signature);
      assert forall x :: 0 <= x < |rest| ==> rest[x] in rest;
    }
  }

  /** Old occurrences of one signature in lineage order. */
  function SortedOld(previous: seq<Item>, signature: string, le: (Lineage, Lineage) -> bool): seq<nat> {
    Sort(OldIndexes(previous, signature),
         (x: nat, y: nat) => x < |previous| && y < |previous| && le(previous[x].lineage, previous[y].lineage))
  }

  lemma SortedOldIndexes(previous: seq<Item>, signature: string, le: (Lineage, Lineage) -> bool)
    ensures forall j :: j in SortedOld(previous, signature, le) <==>
      0 <= j < |previous| && previous[j].signature == signature
    ensures forall x, y :: 0 <= x < y < |SortedOld(previous, signature, le)| ==>
      SortedOld(previous, signature, le)[x] != SortedOld(previous, signature, le)[y]
    ensures |SortedOld(previous, signature, le)| == |OldIndexes(previous, signature)|
  {
    var byLineage := (x: nat, y: nat) => x < |previous| && y < |previous|
      && le(previous[x].lineage, previous[y].lineage);
    var indexes := OldIndexes(previous, signature);
    OldIndexesAscend(previous, signature);
    SortKeepsElements(indexes, byLineage);
    SameMembers(indexes, Sort(indexes, byLineage));
    PermutationKeepsDistinct(indexes, Sort(indexes, byLineage));
  }

  /** The k-th old and the k-th new occurrence of one signature. */
  predicate ExactAt(previous: seq<Item>, current: seq<Cell>, le: (Lineage, Lineage) -> bool, s: string, k: nat,
                    j: nat, i: nat) {
    && k < |SortedOld(previous, s, le)| && k < |NewIndexes(current, s)|
    && SortedOld(previous, s, le)[k] == j && NewIndexes(current, s)[k] == i
  }

  ghost predicate Exact(previous: seq<Item>, current: seq<Cell>, le: (Lineage, Lineage) -> bool, j: nat, i: nat) {
    exists s, k :: ExactAt(previous, current, le, s, k, j, i)
  }

  ghost predicate HasExactNew(previous: seq<Item>, current: seq<Cell>, le: (Lineage, Lineage) -> bool, j: nat) {
    exists i :: Exact(previous, current, le, j, i)
  }

  ghost predicate HasExactOld(previous: seq<Item>, current: seq<Cell>, le: (Lineage, Lineage) -> bool, i: nat) {
    exists j :: Exact(previous, current, le, j, i)
  }

  ghost function LeftOld(previous: seq<Item>, current: seq<Cell>, le: (Lineage, Lineage) -> bool): set<nat> {
    set j: nat | j < |previous| && !HasExactNew(previous, current, le, j)
  }

  ghost function OpenNew(previous: seq<Item>, current: seq<Cell>, le: (Lineage, Lineage) -> bool): set<nat> {
    set i: nat | i < |current| && !HasExactOld(previous, current, le, i)
  }

  /** `_raw_observations_share_stable_components`. */
  predicate Share(p: Item, c: Cell) {
    p.keys != {} && c.keys != {} && p.keys * c.keys != {}
  }

  predicate Edge(previous: seq<Item>, current: seq<Cell>, left: set<nat>, open: set<nat>, j: nat, i: nat) {
    && j in left && i in open && j < |previous| && i < |current|
    && Share(previous[j], current[i])
  }

  /** An edge whose two ends have no other edge. */
  ghost predicate Isolated(previous: seq<Item>, current: seq<Cell>, left: set<nat>, open: set<nat>, j: nat, i: nat) {
    && Edge(previous, current, left, open, j, i)
    && (forall i' :: Edge(previous, current, left, open, j, i') ==> i' == i)
    && (forall j' :: Edge(previous, current, left, open, j', i) ==> j' == j)
  }

  ghost function RestOld(previous: seq<Item>, current: seq<Cell>, left: set<nat>, open: set<nat>): set<nat> {
    set j | j in left && forall i :: !Isolated(previous, current, left, open, j, i)
  }

  ghost function RestNew(previous: seq<Item>, current: seq<Cell>, left: set<nat>, open: set<nat>): set<nat> {
    set i | i in open && forall j :: !Isolated(previous, current, left, open, j, i)
  }

  /** Removing every isolated edge creates none, so one round finds all the pairs. */
  lemma NoSecondRound(previous: seq<Item>, current: seq<Cell>, left: set<nat>, open: set<nat>, j: nat, i: nat)
    ensures !Isolated(previous, current, RestOld(previous, current, left, open),
      RestNew(previous, current, left, open), j, i)
  {
    var restOld, restNew := RestOld(previous, current, left, open), RestNew(previous, current, left, open);
    if j in restOld && i in restNew && Edge(previous, current, left, open, j, i) {
      assert !Isolated(previous, current, left, open, j, i);
      if i' :| Edge(previous, current, left, open, j, i') && i' != i {
        assert Edge(previous, current, restOld, restNew, j, i');
      } else {
        var j' :| Edge(previous, current, left, open, j', i) && j' != j;
        assert Edge(previous, current, restOld, restNew, j', i);
      }
    }
  }

  // ---------------------------------------------------------------------
  // One group: the algorithm
  // ---------------------------------------------------------------------

  /** `owner` records, for the signatures already handled, which old occurrence each new one continues. */
  ghost predicate OwnsExact(previous: seq<Item>, current: seq<Cell>, le: (Lineage, Lineage) -> bool,
                            handled: set<string>, owner: map<nat, nat>) {
    && (forall i :: i in owner ==> Exact(previous, current, le, owner[i], i))
    && (forall s, k, j, i :: ExactAt(previous, current, le, s, k, j, i) && s in handled ==> i in owner)
    && (forall i :: i in owner ==> i < |current| && current[i].signature.Some? && current[i].signature.value in handled)
  }

  lemma ExactAtSignature(previous: seq<Item>, current: seq<Cell>, le: (Lineage, Lineage) -> bool, s: string, k: nat,
                         j: nat, i: nat)
    requires ExactAt(previous, current, le, s, k, j, i)
    ensures j < |previous| && previous[j].signature == s
    ensures i < |current| && current[i].signature == Some(s)
  {
    SortedOldIndexes(previous, s, le);
    NewIndexesAscend(current, s);
    assert i in NewIndexes(current, s) && j in SortedOld(previous, s, le);
  }

  lemma SamePosition(previous: seq<Item>, current: seq<Cell>, le: (Lineage, Lineage) -> bool, s: string, k: nat,
                     j: nat, i: nat, k': nat, j': nat, i': nat)
    requires ExactAt(previous, current, le, s, k, j, i) && ExactAt(previous, current, le, s, k', j', i')
    ensures i == i' <==> j == j'
  {
    SortedOldIndexes(previous, s, le);
    NewIndexesAscend(current, s);
    if k < k' {
    } else if k' < k {
    }
  }

  /** An old occurrence continues as at most one new one, and conversely. */
  lemma ExactIsFunctional(previous: seq<Item>, current: seq<Cell>, le: (Lineage, Lineage) -> bool, j: nat, i: nat,
                          j': nat, i': nat)
    requires Exact(previous, current, le, j, i) && Exact(previous, current, le, j', i')
    ensures j < |previous| && i < |current| && current[i].signature == Some(previous[j].signature)
    ensures i == i' <==> j == j'
  {
    var s, k: nat :| ExactAt(previous, current, le, s, k, j, i);
    var s', k': nat :| ExactAt(previous, current, le, s', k', j', i');
    ExactAtSignature(previous, current, le, s, k, j, i);
    ExactAtSignature(previous, current, le, s', k', j', i');
    if s == s' {
      SamePosition(previous, current, le, s, k, j, i, k', j', i');
    }
  }

  method ExactMatches(previous: seq<Item>, current: seq<Cell>, le: (Lineage, Lineage) -> bool)
    returns (owner: map<nat, nat>)
    ensures forall i :: i in owner ==> i < |current| && Exact(previous, current, le, owner[i], i)
    ensures forall i :: i in owner <==> HasExactOld(previous, current, le, i)
  {
    var common := (set p | p in previous :: p.signature) * (set c | c in current
      && c.signature.Some? :: c.signature.value);
    var todo := common;
    owner := map[];
    while todo != {}
      invariant todo <= common
      invariant OwnsExact(previous, current, le, common - todo, owner)
    {
      var s :| s in todo;
      ghost var handled := common - todo;
      owner := MatchSignature(previous, current, le, handled, s, owner);
      todo := todo - {s};
      assert common - todo == handled + {s};
    }
    assert common - todo == common;
    ExactCovered(previous, current, le, common, owner);
  }

  lemma ExactCovered(previous: seq<Item>, current: seq<Cell>, le: (Lineage, Lineage) -> bool, common: set<string>,
                     owner: map<nat, nat>)
    requires common ==
      (set p | p in previous :: p.signature) * (set c | c in current && c.signature.Some? :: c.signature.value)
    requires OwnsExact(previous, current, le, common, owner)
    ensures forall i :: i in owner ==> i < |current| && Exact(previous, current, le, owner[i], i)
    ensures forall i :: i in owner <==> HasExactOld(previous, current, le, i)
  {
    forall i: nat | HasExactOld(previous, current, le, i) ensures i in owner {
      var j: nat :| Exact(previous, current, le, j, i);
      var s, k: nat :| ExactAt(previous, current, le, s, k, j, i);
      SortedOldIndexes(previous, s, le);
      NewIndexesAscend(current, s);
      assert j in SortedOld(previous, s, le) && i in NewIndexes(current, s);
      assert previous[j] in previous && current[i] in current;
      assert s in common;
    }
  }

  method MatchSignature(previous: seq<Item>, current: seq<Cell>, le: (Lineage, Lineage) -> bool,
                        ghost handled: set<string>, s: string, before: map<nat, nat>) returns (owner: map<nat, nat>)
    requires OwnsExact(previous, current, le, handled, before)
    ensures OwnsExact(previous, current, le, handled + {s}, owner)
  {
    var oldIndexes := SortedOld(previous, s, le);
    var newIndexes := NewIndexes(current, s);
    owner := Zip(oldIndexes, newIndexes, before);
    ghost var n := if |oldIndexes| <= |newIndexes| then |oldIndexes| else |newIndexes|;
    ZippedOwns(previous, current, le, handled, s, before, n);
  }

  function ZipInto(before: map<nat, nat>, olds: seq<nat>, news: seq<nat>, n: nat): map<nat, nat>
    requires n <= |olds| && n <= |news|
  {
    if n == 0 then before else ZipInto(before, olds, news, n - 1)[news[n - 1] := olds[n - 1]]
  }

  method Zip(olds: seq<nat>, news: seq<nat>, before: map<nat, nat>) returns (owner: map<nat, nat>)
    ensures owner == ZipInto(before, olds, news, if |olds| <= |news| then |olds| else |news|)
  {
    owner := before;
    var k := 0;
    while k < |olds| && k < |news|
      invariant k <= |olds| && k <= |news|
      invariant owner == ZipInto(before, olds, news, k)
    {
      owner := owner[news[k] := olds[k]];
      k := k + 1;
    }
  }

  /** The entry i to j was there before or is one of the first n pairs. */
  predicate FromZip(before: map<nat, nat>, olds: seq<nat>, news: seq<nat>, n: nat, j: nat, i: nat)
    requires n <= |olds| && n <= |news|
  {
    (i in before && before[i] == j) || exists k :: 0 <= k < n && news[k] == i && olds[k] == j
  }

  lemma {:induction false} ZipEntries(before: map<nat, nat>, olds: seq<nat>, news: seq<nat>, n: nat)
    requires n <= |olds| && n <= |news|
    ensures var zipped := ZipInto(before, olds, news, n);
      && (forall i :: i in before ==> i in zipped)
      && (forall k :: 0 <= k < n ==> news[k] in zipped)
      && (forall i :: i in zipped ==> FromZip(before, olds, news, n, zipped[i], i))
  {
    if n > 0 {
      ZipEntries(before, olds, news, n - 1);
      var shorter, zipped := ZipInto(before, olds, news, n - 1), ZipInto(before, olds, news, n);
      forall i | i in zipped ensures FromZip(before, olds, news, n, zipped[i], i) {
        if i != news[n - 1] {
          assert i in shorter && FromZip(before, olds, news, n - 1, shorter[i], i);
        } else {
          assert zipped[i] == olds[n - 1];
        }
      }
    }
  }

  ghost predicate OwnedExactly(previous: seq<Item>, current: seq<Cell>, le: (Lineage, Lineage) -> bool,
                               handled: set<string>, j: nat, i: nat) {
    i < |current| && Exact(previous, current, le, j, i) && current[i].signature.Some?
      && current[i].signature.value in handled
  }

  lemma PairIsExact(previous: seq<Item>, current: seq<Cell>, le: (Lineage, Lineage) -> bool, handled: set<string>,
                    s: string, k: nat)
    requires s in handled && k < |SortedOld(previous, s, le)| && k < |NewIndexes(current, s)|
    ensures OwnedExactly(previous, current, le, handled, SortedOld(previous, s, le)[k], NewIndexes(current, s)[k])
  {
    var j, i := SortedOld(previous, s, le)[k], NewIndexes(current, s)[k];
    assert ExactAt(previous, current, le, s, k, j, i);
    ExactAtSignature(previous, current, le, s, k, j, i);
  }

  lemma EntryIsExact(previous: seq<Item>, current: seq<Cell>, le: (Lineage, Lineage) -> bool, handled: set<string>,
                     s: string, before: map<nat, nat>, n: nat, j: nat, i: nat)
    requires OwnsExact(previous, current, le, handled, before)
    requires n <= |SortedOld(previous, s, le)| && n <= |NewIndexes(current, s)|
    requires FromZip(before, SortedOld(previous, s, le), NewIndexes(current, s), n, j, i)
    ensures OwnedExactly(previous, current, le, handled + {s}, j, i)
  {
    if !(i in before && before[i] == j) {
      var k :| 0 <= k < n && NewIndexes(current, s)[k] == i && SortedOld(previous, s, le)[k] == j;
      PairIsExact(previous, current, le, handled + {s}, s, k);
    }
  }

  lemma ZippedOwns(previous: seq<Item>, current: seq<Cell>, le: (Lineage, Lineage) -> bool, handled: set<string>,
                   s: string, before: map<nat, nat>, n: nat)
    requires OwnsExact(previous, current, le, handled, before)
    requires var olds, news := SortedOld(previous, s, le), NewIndexes(current, s);
      n == if |olds| <= |news| then |olds| else |news|
    ensures OwnsExact(previous, current, le, handled + {s},
      ZipInto(before, SortedOld(previous, s, le), NewIndexes(current, s), n))
  {
    var olds, news := SortedOld(previous, s, le), NewIndexes(current, s);
    var owner := ZipInto(before, olds, news, n);
    ZipEntries(before, olds, news, n);
    forall i | i in owner ensures OwnedExactly(previous, current, le, handled + {s}, owner[i], i) {
      EntryIsExact(previous, current, le, handled, s, before, n, owner[i], i);
    }
    forall t, k: nat, j: nat, i: nat | ExactAt(previous, current, le, t, k, j, i) && t in handled + {s}
      ensures i in owner {
      if t == s {
        assert k < n && news[k] == i;
      }
    }
  }

  function CandidatesOfOld(previous: seq<Item>, current: seq<Cell>, open: set<nat>, j: nat): set<nat> {
    set i | i in open && i < |current| && j < |previous| && Share(previous[j], current[i])
  }

  function CandidatesOfNew(previous: seq<Item>, current: seq<Cell>, left: set<nat>, i: nat): set<nat> {
    set j | j in left && j < |previous| && i < |current| && Share(previous[j], current[i])
  }

  function UniquePairs(previous: seq<Item>, current: seq<Cell>, left: set<nat>,
                       open: set<nat>): (pairs: set<(nat, nat)>)
  {
    set j, i | j in left && i in open
               && CandidatesOfOld(previous, current, open, j) == {i}
                    && CandidatesOfNew(previous, current, left, i) == {j}
             :: (j, i)
  }

  lemma UniquePairsAreIsolated(previous: seq<Item>, current: seq<Cell>, left: set<nat>, open: set<nat>, j: nat, i: nat)
    ensures (j, i) in UniquePairs(previous, current, left, open) <==> Isolated(previous, current, left, open, j, i)
  {
    var olds, news := CandidatesOfNew(previous, current, left, i), CandidatesOfOld(previous, current, open, j);
    if Isolated(previous, current, left, open, j, i) {
      assert Edge(previous, current, left, open, j, i);
      forall x | x in news ensures x == i { assert Edge(previous, current, left, open, j, x); }
      forall x | x in olds ensures x == j { assert Edge(previous, current, left, open, x, i); }
      assert news == {i} && olds == {j};
    }
    if news == {i} && olds == {j} && j in left && i in open {
      assert i in news && j in olds;
      forall x | Edge(previous, current, left, open, j, x) ensures x == i { assert x in news; }
      forall x | Edge(previous, current, left, open, x, i) ensures x == j { assert x in olds; }
    }
  }

  ghost predicate AfterOneRound(previous: seq<Item>, current: seq<Cell>, left: set<nat>, open: set<nat>,
                                pairs: set<(nat, nat)>, restOld: set<nat>, restNew: set<nat>) {
    && (forall j: nat, i: nat :: (j, i) in pairs <==> Isolated(previous, current, left, open, j, i))
    && restOld == RestOld(previous, current, left, open)
    && restNew == RestNew(previous, current, left, open)
  }

  function Firsts(pairs: set<(nat, nat)>): set<nat> {
    set p | p in pairs :: p.0
  }

  function Seconds(pairs: set<(nat, nat)>): set<nat> {
    set p | p in pairs :: p.1
  }

  lemma RoundFindsAll(previous: seq<Item>, current: seq<Cell>, left: set<nat>, open: set<nat>)
    ensures
      var found := UniquePairs(previous, current, left, open);
      AfterOneRound(previous, current, left, open, found, left - Firsts(found), open - Seconds(found))
  {
    var found := UniquePairs(previous, current, left, open);
    forall j: nat, i: nat ensures (j, i) in found <==> Isolated(previous, current, left, open, j, i) {
      UniquePairsAreIsolated(previous, current, left, open, j, i);
    }
    forall j: nat ensures j in Firsts(found) <==> exists i: nat :: Isolated(previous, current, left, open, j, i) {
      if i: nat :| Isolated(previous, current, left, open, j, i) {
        assert (j, i) in found;
      }
    }
    forall i: nat ensures i in Seconds(found) <==> exists j: nat :: Isolated(previous, current, left, open, j, i) {
      if j: nat :| Isolated(previous, current, left, open, j, i) {
        assert (j, i) in found;
      }
    }
  }

  lemma SecondRoundIsEmpty(previous: seq<Item>, current: seq<Cell>, left: set<nat>, open: set<nat>)
    ensures UniquePairs(previous, current, RestOld(previous, current, left, open),
      RestNew(previous, current, left, open)) == {}
  {
    var restOld, restNew := RestOld(previous, current, left, open), RestNew(previous, current, left, open);
    forall j: nat, i: nat ensures (j, i) !in UniquePairs(previous, current, restOld, restNew) {
      UniquePairsAreIsolated(previous, current, restOld, restNew, j, i);
      NoSecondRound(previous, current, left, open, j, i);
    }
  }

  /** The mutual-uniqueness loop pairs exactly the isolated edges. */
  method MutuallyUnique(previous: seq<Item>, current: seq<Cell>, left: set<nat>, open: set<nat>)
    returns (pairs: set<(nat, nat)>, restOld: set<nat>, restNew: set<nat>)
    ensures AfterOneRound(previous, current, left, open, pairs, restOld, restNew)
  {
    pairs, restOld, restNew := {}, left, open;
    RoundFindsAll(previous, current, left, open);
    SecondRoundIsEmpty(previous, current, left, open);
    ghost var first := true;
    while restOld != {} && restNew != {}
      invariant first ==> pairs == {} && restOld == left && restNew == open
      invariant !first ==> AfterOneRound(previous, current, left, open, pairs, restOld, restNew)
      decreases first
    {
      var found := UniquePairs(previous, current, restOld, restNew);
      if found == {} { break; }
      pairs := pairs + found;
      restOld := restOld - Firsts(found);
      restNew := restNew - Seconds(found);
      first := false;
    }
    assert first ==> UniquePairs(previous, current, left, open) == {};
  }

  ghost predicate MutualMatch(previous: seq<Item>, current: seq<Cell>, le: (Lineage, Lineage) -> bool, j: nat, i: nat) {
    Isolated(previous, current, LeftOld(previous, current, le), OpenNew(previous, current, le), j, i)
  }

  ghost function OldRemainder(previous: seq<Item>, current: seq<Cell>, le: (Lineage, Lineage) -> bool): set<nat> {
    RestOld(previous, current, LeftOld(previous, current, le), OpenNew(previous, current, le))
  }

  ghost function NewRemainder(previous: seq<Item>, current: seq<Cell>, le: (Lineage, Lineage) -> bool): set<nat> {
    RestNew(previous, current, LeftOld(previous, current, le), OpenNew(previous, current, le))
  }

  /** The new occurrence i continues the old occurrence j. */
  ghost predicate Continues(previous: seq<Item>, current: seq<Cell>, le: (Lineage, Lineage) -> bool, j: nat, i: nat) {
    || Exact(previous, current, le, j, i)
    || MutualMatch(previous, current, le, j, i)
    || (OldRemainder(previous, current, le) == {j} && NewRemainder(previous, current, le) == {i})
  }

  ghost predicate Ambiguous(previous: seq<Item>, current: seq<Cell>, le: (Lineage, Lineage) -> bool) {
    var restOld, restNew := OldRemainder(previous, current, le), NewRemainder(previous, current, le);
    restOld != {} && restNew != {} && !(|restOld| == 1 && |restNew| == 1)
  }

  ghost predicate HasPredecessor(previous: seq<Item>, current: seq<Cell>, le: (Lineage, Lineage) -> bool, i: nat) {
    exists j :: Continues(previous, current, le, j, i)
  }

  /** Continued occurrences keep their lineage and every other one is freshly named. */
  ghost predicate NamesGroup(previous: seq<Item>, current: seq<Cell>, used: set<Lineage>,
                             le: (Lineage, Lineage) -> bool, names: seq<Lineage>) {
    && |names| == |current|
    && (forall i :: 0 <= i < |current| ==> NamesCell(previous, current, used, le, i, names[i]))
  }

  ghost predicate NamesCell(previous: seq<Item>, current: seq<Cell>, used: set<Lineage>,
                            le: (Lineage, Lineage) -> bool, i: nat, name: Lineage)
    requires i < |current|
  {
    && current[i].signature.Some?
    && (forall j: nat :: Continues(previous, current, le, j, i) ==> j < |previous| && name == previous[j].lineage)
    && (!HasPredecessor(previous, current, le, i) ==>
          name == FreshName(used, current[i].provisional, current[i].signature.value))
  }

  /** No two old occurrences continue as one, and none continues as two. */
  lemma ContinuesIsFunctional(previous: seq<Item>, current: seq<Cell>, le: (Lineage, Lineage) -> bool, j: nat, i: nat,
                              j': nat, i': nat)
    requires Continues(previous, current, le, j, i) && Continues(previous, current, le, j', i')
    ensures j < |previous| && i < |current|
    ensures i == i' <==> j == j'
  {
    var left, open := LeftOld(previous, current, le), OpenNew(previous, current, le);
    if Exact(previous, current, le, j, i) {
      assert HasExactNew(previous, current, le, j) && HasExactOld(previous, current, le, i);
      ExactIsFunctional(previous, current, le, j, i, j, i);
    } else {
      assert j in left && i in open by { RemainderIsOpen(previous, current, left, open, j, i); }
    }
    if Exact(previous, current, le, j', i') {
      assert HasExactNew(previous, current, le, j') && HasExactOld(previous, current, le, i');
      if Exact(previous, current, le, j, i) { ExactIsFunctional(previous, current, le, j, i, j', i'); }
    } else {
      assert j' in left && i' in open by { RemainderIsOpen(previous, current, left, open, j', i'); }
      if !Exact(previous, current, le, j, i) {
        UnmatchedIsFunctional(previous, current, left, open, j, i, j', i');
      }
    }
  }

  ghost predicate ContinuesOpen(previous: seq<Item>, current: seq<Cell>, left: set<nat>, open: set<nat>, j: nat,
                                i: nat) {
    || Isolated(previous, current, left, open, j, i)
    || (RestOld(previous, current, left, open) == {j} && RestNew(previous, current, left, open) == {i})
  }

  lemma RemainderIsOpen(previous: seq<Item>, current: seq<Cell>, left: set<nat>, open: set<nat>, j: nat, i: nat)
    requires ContinuesOpen(previous, current, left, open, j, i)
    ensures j in left && i in open
  {
    if !Isolated(previous, current, left, open, j, i) {
      assert j in RestOld(previous, current, left, open) && i in RestNew(previous, current, left, open);
    }
  }

  lemma UnmatchedIsFunctional(previous: seq<Item>, current: seq<Cell>, left: set<nat>, open: set<nat>, j: nat, i: nat,
                              j': nat, i': nat)
    requires ContinuesOpen(previous, current, left, open, j, i) && ContinuesOpen(previous, current, left, open, j', i')
    ensures i == i' <==> j == j'
  {
    if Isolated(previous, current, left, open, j, i) {
      assert j !in RestOld(previous, current, left, open) && i !in RestNew(previous, current, left, open);
    }
    if Isolated(previous, current, left, open, j', i') {
      assert j' !in RestOld(previous, current, left, open) && i' !in RestNew(previous, current, left, open);
    }
  }

  ghost predicate OwnsAll(previous: seq<Item>, current: seq<Cell>, le: (Lineage, Lineage) -> bool, owner: map<nat,
                          nat>) {
    && (forall i :: i in owner ==> Continues(previous, current, le, owner[i], i))
    && (forall i :: HasPredecessor(previous, current, le, i) ==> i in owner)
  }

  method Owners(previous: seq<Item>, current: seq<Cell>, le: (Lineage, Lineage) -> bool)
    returns (ambiguous: bool, owner: map<nat, nat>)
    ensures ambiguous <==> Ambiguous(previous, current, le)
    ensures !ambiguous ==> OwnsAll(previous, current, le, owner)
  {
    owner := ExactMatches(previous, current, le);
    var left := set j: nat | j < |previous| && j !in owner.Values;
    var open := set i: nat | i < |current| && i !in owner;
    OwnerLeavesTheRest(previous, current, le, owner, left, open);
    var pairs, restOld, restNew := MutuallyUnique(previous, current, left, open);
    var todo := pairs;
    while todo != {}
      invariant todo <= pairs
      invariant forall i :: i in owner ==> Exact(previous, current, le, owner[i], i) || (owner[i], i) in pairs
      invariant forall i :: HasExactOld(previous, current, le, i) ==> i in owner
      invariant forall p :: p in pairs - todo ==> p.1 in owner
    {
      var p :| p in todo;
      owner := owner[p.1 := p.0];
      todo := todo - {p};
    }
    if |restOld| == 1 && |restNew| == 1 {
      var j :| j in restOld;
      var i :| i in restNew;
      assert restOld == {j} by { SingletonOf(restOld, j); }
      assert restNew == {i} by { SingletonOf(restNew, i); }
      owner := owner[i := j];
      ambiguous := false;
    } else {
      ambiguous := restOld != {} && restNew != {};
    }
    if !ambiguous {
      forall i: nat | HasPredecessor(previous, current, le, i) ensures i in owner {
        var j: nat :| Continues(previous, current, le, j, i);
        if Exact(previous, current, le, j, i) {
          assert HasExactOld(previous, current, le, i);
        } else if Isolated(previous, current, left, open, j, i) {
          assert (j, i) in pairs;
        }
      }
    }
  }

  lemma SingletonOf(s: set<nat>, x: nat)
    requires |s| == 1 && x in s
    ensures s == {x}
  {
    assert |s - {x}| == 0;
  }

  lemma OwnerLeavesTheRest(previous: seq<Item>, current: seq<Cell>, le: (Lineage, Lineage) -> bool, owner: map<nat,
                           nat>, left: set<nat>, open: set<nat>)
    requires forall i :: i in owner ==> i < |current| && Exact(previous, current, le, owner[i], i)
    requires forall i :: i in owner <==> HasExactOld(previous, current, le, i)
    requires left == set j: nat | j < |previous| && j !in owner.Values
    requires open == set i: nat | i < |current| && i !in owner
    ensures left == LeftOld(previous, current, le) && open == OpenNew(previous, current, le)
  {
    forall j: nat ensures j in owner.Values <==> HasExactNew(previous, current, le, j) {
      if i: nat :| Exact(previous, current, le, j, i) {
        assert HasExactOld(previous, current, le, i);
        ExactIsFunctional(previous, current, le, j, i, owner[i], i);
        assert owner[i] == j;
      }
    }
  }

  /** A group is refused when it is ambiguous or holds an observation without a signature. */
  ghost predicate Unresolvable(previous: seq<Item>, current: seq<Cell>, le: (Lineage, Lineage) -> bool) {
    Ambiguous(previous, current, le) || exists c :: c in current && c.signature.None?
  }

  lemma OwnersInRange(previous: seq<Item>, current: seq<Cell>, le: (Lineage, Lineage) -> bool, owner: map<nat, nat>)
    requires OwnsAll(previous, current, le, owner)
    ensures InRange(previous, current, owner)
  {
    forall i | i in owner ensures i < |current| && owner[i] < |previous| {
      ContinuesIsFunctional(previous, current, le, owner[i], i, owner[i], i);
    }
  }

  predicate InRange(previous: seq<Item>, current: seq<Cell>, owner: map<nat, nat>) {
    forall i :: i in owner ==> i < |current| && owner[i] < |previous|
  }

  predicate Signed(current: seq<Cell>) {
    forall c :: c in current ==> c.signature.Some?
  }

  /** The lineage of the owner, or a fresh name. */
  function NameFrom(previous: seq<Item>, current: seq<Cell>, used: set<Lineage>, owner: map<nat, nat>, i: nat): Lineage
    requires InRange(previous, current, owner) && i < |current|
  {
    if i in owner then previous[owner[i]].lineage
    else FreshName(used, current[i].provisional, current[i].signature.GetOr(""))
  }

  ghost predicate AreNamesFrom(previous: seq<Item>, current: seq<Cell>, used: set<Lineage>, owner: map<nat, nat>,
                               names: seq<Lineage>)
    requires InRange(previous, current, owner)
  {
    && |names| == |current|
    && forall i :: 0 <= i < |current| ==> names[i] == NameFrom(previous, current, used, owner, i)
  }

  lemma NameFromOwner(previous: seq<Item>, current: seq<Cell>, used: set<Lineage>, le: (Lineage, Lineage) -> bool,
                      owner: map<nat, nat>, i: nat)
    requires OwnsAll(previous, current, le, owner) && InRange(previous, current, owner)
    requires i < |current| && current[i].signature.Some?
    ensures NamesCell(previous, current, used, le, i, NameFrom(previous, current, used, owner, i))
  {
    forall j: nat | Continues(previous, current, le, j, i) ensures i in owner && j == owner[i] {
      assert HasPredecessor(previous, current, le, i);
      ContinuesIsFunctional(previous, current, le, j, i, owner[i], i);
    }
    if i in owner {
      assert HasPredecessor(previous, current, le, i);
    }
  }

  lemma NamesFromOwners(previous: seq<Item>, current: seq<Cell>, used: set<Lineage>, le: (Lineage, Lineage) -> bool,
                        owner: map<nat, nat>, names: seq<Lineage>)
    requires OwnsAll(previous, current, le, owner) && InRange(previous, current, owner) && Signed(current)
    requires AreNamesFrom(previous, current, used, owner, names)
    ensures NamesGroup(previous, current, used, le, names)
  {
    forall i | 0 <= i < |current| ensures NamesCell(previous, current, used, le, i, names[i]) {
      assert current[i] in current;
      NameFromOwner(previous, current, used, le, owner, i);
    }
  }

  /** The naming loop; an observation without a signature stops it. */
  method NameAll(previous: seq<Item>, current: seq<Cell>, used: set<Lineage>, owner: map<nat, nat>)
    returns (r: Result<seq<Lineage>, LineageError>)
    requires InRange(previous, current, owner)
    ensures r.Ok? <==> Signed(current)
    ensures r.Ok? ==> AreNamesFrom(previous, current, used, owner, r.value)
  {
    var names: seq<Lineage> := [];
    for i := 0 to |current|
      invariant |names| == i
      invariant forall k :: 0 <= k < i ==> current[k].signature.Some?
      invariant forall k :: 0 <= k < i ==> names[k] == NameFrom(previous, current, used, owner, k)
    {
      if current[i].signature.None? {
        assert current[i] in current;
        return Err(AmbiguousOrUnreconcilable);
      }
      names := names + [NameFrom(previous, current, used, owner, i)];
    }
    r := Ok(names);
  }

  /** One group of one snapshot. */
  method ReconcileGroup(previous: seq<Item>, current: seq<Cell>, used: set<Lineage>, le: (Lineage, Lineage) -> bool)
    returns (r: Result<seq<Lineage>, LineageError>)
    ensures r.Err? <==> Unresolvable(previous, current, le)
    ensures r.Ok? ==> NamesGroup(previous, current, used, le, r.value)
  {
    var ambiguous, owner := Owners(previous, current, le);
    if ambiguous { return Err(AmbiguousOrUnreconcilable); }
    OwnersInRange(previous, current, le, owner);
    r := NameAll(previous, current, used, owner);
    if r.Ok? {
      NamesFromOwners(previous, current, used, le, owner, r.value);
    }
  }

  // ---------------------------------------------------------------------
  // One group over its whole history
  // ---------------------------------------------------------------------

  /** What the reconciliation carries from snapshot to snapshot for one group. */
  datatype Trail = Trail(items: seq<Item>, used: set<Lineage>)

  ghost predicate HasOldName(t: Trail, current: seq<Cell>, le: (Lineage, Lineage) -> bool, i: nat) {
    exists j: nat :: j < |t.items| && Continues(t.items, current, le, j, i)
  }

  ghost function NameAt(t: Trail, current: seq<Cell>, le: (Lineage, Lineage) -> bool, i: nat): Lineage
    requires i < |current|
  {
    if HasOldName(t, current, le, i) then
      var j: nat :| j < |t.items| && Continues(t.items, current, le, j, i);
      t.items[j].lineage
    else FreshName(t.used, current[i].provisional, current[i].signature.GetOr(""))
  }

  ghost function NamesOf(t: Trail, current: seq<Cell>, le: (Lineage, Lineage) -> bool): (names: seq<Lineage>)
    ensures |names| == |current| && forall i :: 0 <= i < |current| ==> names[i] == NameAt(t, current, le, i)
  {
    seq(|current|, i requires 0 <= i < |current| => NameAt(t, current, le, i))
  }

  function ItemsFor(current: seq<Cell>, names: seq<Lineage>): (r: seq<Item>)
    requires |names| == |current|
    ensures |r| == |current|
    ensures forall k :: 0 <= k < |r| ==> r[k] == Item(names[k], current[k].signature.GetOr(""), current[k].keys)
  {
    seq(|current|, k requires 0 <= k < |current| => Item(names[k], current[k].signature.GetOr(""), current[k].keys))
  }

  ghost function Members<T(!new)>(s: seq<T>): set<T> {
    set x | x in s
  }

  /** A snapshot without the group keeps its trail. */
  ghost function Advance(t: Trail, current: seq<Cell>, le: (Lineage, Lineage) -> bool): Option<Trail> {
    if current == [] then Some(t)
    else if Unresolvable(t.items, current, le) then None
    else
      var names := NamesOf(t, current, le);
      Some(Trail(ItemsFor(current, names), t.used + Members(names)))
  }

  ghost function Run(history: seq<seq<Cell>>, le: (Lineage, Lineage) -> bool): Option<Trail> {
    if history == [] then Some(Trail([], {}))
    else
      match Run(history[..|history| - 1], le)
      case None => None
      case Some(t) => Advance(t, history[|history| - 1], le)
  }

  ghost predicate AgreeOn(g: Group, a: set<Lineage>, b: set<Lineage>) {
    forall l: Lineage :: l.group == g ==> (l in a <==> l in b)
  }

  ghost predicate CellsOfGroup(g: Group, current: seq<Cell>) {
    forall i :: 0 <= i < |current| ==> current[i].provisional.group == g
  }

  /** The names the algorithm assigned are the ones the trail determines: names
      of other groups do not matter. */
  lemma NamesAreDetermined(g: Group, t: Trail, current: seq<Cell>, used: set<Lineage>, le: (Lineage, Lineage) -> bool,
                           names: seq<Lineage>)
    requires CellsOfGroup(g, current) && AgreeOn(g, used, t.used)
    requires NamesGroup(t.items, current, used, le, names)
    ensures names == NamesOf(t, current, le)
  {
    forall i | 0 <= i < |current| ensures names[i] == NameAt(t, current, le, i) {
      assert NamesCell(t.items, current, used, le, i, names[i]);
      if HasOldName(t, current, le, i) {
        var j: nat :| j < |t.items| && Continues(t.items, current, le, j, i)
          && NameAt(t, current, le, i) == t.items[j].lineage;
      } else {
        assert !HasPredecessor(t.items, current, le, i);
        FirstFreeIsLocal(used, t.used, g, current[i].signature.value, 1);
      }
    }
  }

  ghost predicate ItemsOfGroup(g: Group, items: seq<Item>) {
    forall j :: 0 <= j < |items| ==> items[j].lineage.group == g
  }

  lemma NamesStayInGroup(g: Group, t: Trail, current: seq<Cell>, le: (Lineage, Lineage) -> bool)
    requires CellsOfGroup(g, current) && ItemsOfGroup(g, t.items)
    ensures forall i :: 0 <= i < |current| ==> NameAt(t, current, le, i).group == g
    ensures ItemsOfGroup(g, ItemsFor(current, NamesOf(t, current, le)))
  {
  }

  // ---------------------------------------------------------------------
  // Snapshots
  // ---------------------------------------------------------------------

  datatype Observation = Observation(provisional: Option<Lineage>, signature: Option<string>, keys: set<string>)

  predicate InGroup(o: Observation, g: Group) {
    o.provisional.Some? && o.provisional.value.group == g
  }

  function CellOf(o: Observation): Cell
    requires o.provisional.Some?
  {
    Cell(o.provisional.value, o.signature, o.keys)
  }

  /** Positions of one group's observations, ascending. */
  function IndexesOf(snapshot: seq<Observation>, g: Group): seq<nat> {
    if snapshot == [] then []
    else
      var n := |snapshot| - 1;
      IndexesOf(snapshot[..n], g) + if InGroup(snapshot[n], g) then [n] else []
  }

  lemma {:induction false} IndexesAscend(snapshot: seq<Observation>, g: Group)
    ensures forall i :: i in IndexesOf(snapshot, g) <==> 0 <= i < |snapshot| && InGroup(snapshot[i], g)
    ensures forall x, y :: 0 <= x < y < |IndexesOf(snapshot, g)| ==>
      IndexesOf(snapshot, g)[x] < IndexesOf(snapshot, g)[y]
  {
    if snapshot != [] {
      var n := |snapshot| - 1;
      var rest := IndexesOf(snapshot[..n], g);
      IndexesAscend(snapshot[..n], g);
      assert forall x :: 0 <= x < |rest| ==> rest[x] in rest;
    }
  }

  /** The observations of one group, in snapshot order. */
  function CellsIn(snapshot: seq<Observation>, g: Group): seq<Cell> {
    if snapshot == [] then []
    else
      var last := snapshot[|snapshot| - 1];
      CellsIn(snapshot[..|snapshot| - 1], g) + if InGroup(last, g) then [CellOf(last)] else []
  }

  lemma {:induction false} CellsInGroup(snapshot: seq<Observation>, g: Group)
    ensures CellsOfGroup(g, CellsIn(snapshot, g))
  {
    if snapshot != [] {
      CellsInGroup(snapshot[..|snapshot| - 1], g);
    }
  }

  /** How many observations of the group come before position i. */
  function Rank(snapshot: seq<Observation>, g: Group, i: nat): nat
    requires i <= |snapshot|
  {
    |CellsIn(snapshot[..i], g)|
  }

  lemma {:induction false} RankedCell(snapshot: seq<Observation>, g: Group, i: nat)
    requires i < |snapshot| && InGroup(snapshot[i], g)
    ensures Rank(snapshot, g, i) < |CellsIn(snapshot, g)|
    ensures CellsIn(snapshot, g)[Rank(snapshot, g, i)] == CellOf(snapshot[i])
  {
    var n := |snapshot| - 1;
    if i < n {
      assert snapshot[..n][..i] == snapshot[..i];
      RankedCell(snapshot[..n], g, i);
    }
  }

  lemma {:induction false} RankAscends(snapshot: seq<Observation>, g: Group, i: nat, k: nat)
    requires i < k <= |snapshot| && InGroup(snapshot[i], g)
    ensures Rank(snapshot, g, i) < Rank(snapshot, g, k)
  {
    assert snapshot[..k][..i] == snapshot[..i];
    RankedCell(snapshot[..k], g, i);
  }

  lemma {:induction false} IndexOfCell(snapshot: seq<Observation>, g: Group, k: nat) returns (i: nat)
    requires k < |CellsIn(snapshot, g)|
    ensures i < |snapshot| && InGroup(snapshot[i], g) && Rank(snapshot, g, i) == k
    ensures CellsIn(snapshot, g)[k] == CellOf(snapshot[i])
  {
    var n := |snapshot| - 1;
    if k < |CellsIn(snapshot[..n], g)| {
      i := IndexOfCell(snapshot[..n], g, k);
      assert snapshot[..n][..i] == snapshot[..i];
    } else {
      i := n;
    }
  }

  /** The k-th position holds the k-th of the group's observations. */
  ghost predicate RankedAt(snapshot: seq<Observation>, g: Group, k: nat, i: nat) {
    i < |snapshot| && InGroup(snapshot[i], g) && Rank(snapshot, g, i) == k
  }

  lemma {:induction false} IndexesAreRanked(snapshot: seq<Observation>, g: Group)
    ensures |IndexesOf(snapshot, g)| == |CellsIn(snapshot, g)|
    ensures forall k :: 0 <= k < |IndexesOf(snapshot, g)| ==> RankedAt(snapshot, g, k, IndexesOf(snapshot, g)[k])
  {
    if snapshot != [] {
      var n := |snapshot| - 1;
      IndexesAreRanked(snapshot[..n], g);
      var front := IndexesOf(snapshot[..n], g);
      forall k | 0 <= k < |front| ensures RankedAt(snapshot, g, k, front[k]) {
        assert RankedAt(snapshot[..n], g, k, front[k]);
        assert snapshot[..n][..front[k]] == snapshot[..front[k]];
      }
    }
  }

  type History = seq<seq<Observation>>

  function TraceOf(history: History, g: Group): (r: seq<seq<Cell>>)
    ensures |r| == |history| && forall k :: 0 <= k < |history| ==> r[k] == CellsIn(history[k], g)
  {
    seq(|history|, k requires 0 <= k < |history| => CellsIn(history[k], g))
  }

  ghost predicate Accepted(history: History, g: Group, le: (Lineage, Lineage) -> bool) {
    Run(TraceOf(history, g), le).Some?
  }

  ghost function TrailOf(history: History, g: Group, le: (Lineage, Lineage) -> bool): Trail {
    Run(TraceOf(history, g), le).GetOr(Trail([], {}))
  }

  /** The lineage of one observation of the snapshot that follows `history`. */
  ghost function Resolved(history: History, snapshot: seq<Observation>, le: (Lineage, Lineage) -> bool,
                          i: nat): Option<Lineage>
    requires i < |snapshot|
  {
    match snapshot[i].provisional
    case None => None
    case Some(l) =>
      RankedCell(snapshot, l.group, i);
      Some(NameAt(TrailOf(history, l.group, le), CellsIn(snapshot, l.group), le, Rank(snapshot, l.group, i)))
  }

  lemma HistoryGrows(history: History, snapshot: seq<Observation>, g: Group, le: (Lineage, Lineage) -> bool)
    ensures Accepted(history + [snapshot], g, le) <==>
      Accepted(history, g, le) && Advance(TrailOf(history, g, le), CellsIn(snapshot, g), le).Some?
    ensures Accepted(history + [snapshot], g, le) ==>
      TrailOf(history + [snapshot], g, le) == Advance(TrailOf(history, g, le), CellsIn(snapshot, g), le).value
  {
    var grown := TraceOf(history + [snapshot], g);
    assert grown[..|grown| - 1] == TraceOf(history, g);
  }

  // ---------------------------------------------------------------------
  // The snapshot loop
  // ---------------------------------------------------------------------

  type Active = map<Group, seq<Item>>

  function Lookup(active: Active, g: Group): seq<Item> {
    if g in active then active[g] else []
  }

  /** The running dictionary and set hold one group's trail. */
  ghost predicate TracksGroup(g: Group, t: Trail, previous: seq<Item>, used: set<Lineage>) {
    previous == t.items && AgreeOn(g, used, t.used) && ItemsOfGroup(g, previous)
  }

  ghost predicate Tracks(history: History, active: Active, used: set<Lineage>, le: (Lineage, Lineage) -> bool) {
    forall g :: Accepted(history, g, le) && TracksGroup(g, TrailOf(history, g, le), Lookup(active, g), used)
  }

  method Place(resolved: seq<Option<Lineage>>, indexes: seq<nat>, names: seq<Lineage>)
    returns (placed: seq<Option<Lineage>>)
    requires |names| == |indexes|
    requires forall k :: 0 <= k < |indexes| ==> indexes[k] < |resolved|
    requires forall x, y :: 0 <= x < y < |indexes| ==> indexes[x] < indexes[y]
    ensures |placed| == |resolved|
    ensures forall k :: 0 <= k < |indexes| ==> placed[indexes[k]] == Some(names[k])
    ensures forall i :: 0 <= i < |resolved| && i !in indexes ==> placed[i] == resolved[i]
  {
    placed := resolved;
    for k := 0 to |indexes|
      invariant |placed| == |resolved|
      invariant forall m :: 0 <= m < k ==> placed[indexes[m]] == Some(names[m])
      invariant forall i :: 0 <= i < |resolved| && i !in indexes ==> placed[i] == resolved[i]
    {
      placed := placed[indexes[k] := Some(names[k])];
    }
  }

  /** The observations of one group carry the lineages their history determines. */
  ghost predicate PlacedGroup(history: History, snapshot: seq<Observation>, g: Group, resolved: seq<Option<Lineage>>,
                              le: (Lineage, Lineage) -> bool)
    requires |resolved| == |snapshot|
  {
    forall i :: 0 <= i < |snapshot| && InGroup(snapshot[i], g) ==> resolved[i] == Resolved(history, snapshot, le, i)
  }

  ghost predicate GroupDone(history: History, snapshot: seq<Observation>, g: Group, next: Active, used: set<Lineage>,
                            resolved: seq<Option<Lineage>>, le: (Lineage, Lineage) -> bool)
    requires |resolved| == |snapshot|
  {
    && Accepted(history + [snapshot], g, le) && g in next
    && TracksGroup(g, TrailOf(history + [snapshot], g, le), next[g], used)
    && PlacedGroup(history, snapshot, g, resolved, le)
  }

  /** One accepted group, with everything the loop must know about it. */
  lemma OneGroupDone(history: History, snapshot: seq<Observation>, active: Active, start: set<Lineage>,
                     used: set<Lineage>,
                     le: (Lineage, Lineage) -> bool, g: Group, names: seq<Lineage>)
    requires Tracks(history, active, start, le) && AgreeOn(g, used, start) && CellsIn(snapshot, g) != []
    requires !Unresolvable(Lookup(active, g), CellsIn(snapshot, g), le)
    requires NamesGroup(Lookup(active, g), CellsIn(snapshot, g), used, le, names)
    ensures Accepted(history + [snapshot], g, le)
    ensures names == NamesOf(TrailOf(history, g, le), CellsIn(snapshot, g), le)
    ensures TracksGroup(g, TrailOf(history + [snapshot], g, le), ItemsFor(CellsIn(snapshot, g), names),
      used + Members(names))
    ensures forall l :: l in names ==> l.group == g
  {
    var t, current := TrailOf(history, g, le), CellsIn(snapshot, g);
    assert TracksGroup(g, t, Lookup(active, g), start);
    CellsInGroup(snapshot, g);
    NamesAreDetermined(g, t, current, used, le, names);
    NamesStayInGroup(g, t, current, le);
    HistoryGrows(history, snapshot, g, le);
  }

  lemma OneGroupRefused(history: History, snapshot: seq<Observation>, active: Active, start: set<Lineage>,
                        le: (Lineage, Lineage) -> bool, g: Group)
    requires Tracks(history, active, start, le) && CellsIn(snapshot, g) != []
    requires Unresolvable(Lookup(active, g), CellsIn(snapshot, g), le)
    ensures !Accepted(history + [snapshot], g, le)
  {
    assert TracksGroup(g, TrailOf(history, g, le), Lookup(active, g), start);
    HistoryGrows(history, snapshot, g, le);
  }

  ghost predicate Partial(history: History, snapshot: seq<Observation>, start: set<Lineage>, groups: set<Group>,
                          todo: set<Group>,
                          next: Active, used: set<Lineage>, resolved: seq<Option<Lineage>>,
                            le: (Lineage, Lineage) -> bool)
    requires |resolved| == |snapshot|
  {
    && (forall g :: g in groups && g !in todo ==> GroupDone(history, snapshot, g, next, used, resolved, le))
    && (forall g :: g in todo || g !in groups ==> g !in next && AgreeOn(g, used, start))
    && (forall i :: 0 <= i < |snapshot| && snapshot[i].provisional.None? ==> resolved[i] == None)
  }

  lemma PartialAdvances(history: History, snapshot: seq<Observation>, start: set<Lineage>, groups: set<Group>,
                        todo: set<Group>,
                        next: Active, used: set<Lineage>, resolved: seq<Option<Lineage>>,
                          le: (Lineage, Lineage) -> bool,
                        g: Group, items: seq<Item>, names: seq<Lineage>, placed: seq<Option<Lineage>>)
    requires |resolved| == |snapshot| == |placed| && g in todo && todo <= groups
    requires Partial(history, snapshot, start, groups, todo, next, used, resolved, le)
    requires Accepted(history + [snapshot], g, le)
    requires TracksGroup(g, TrailOf(history + [snapshot], g, le), items, used + Members(names))
    requires forall l :: l in names ==> l.group == g
    requires PlacedGroup(history, snapshot, g, placed, le)
    requires forall i :: 0 <= i < |snapshot| && !InGroup(snapshot[i], g) ==> placed[i] == resolved[i]
    ensures Partial(history, snapshot, start, groups, todo - {g}, next[g := items], used + Members(names), placed, le)
  {
    var used', next' := used + Members(names), next[g := items];
    forall h | h in groups && h !in todo - {g} ensures GroupDone(history, snapshot, h, next', used', placed, le) {
      if h != g {
        assert GroupDone(history, snapshot, h, next, used, resolved, le);
        assert AgreeOn(h, used', used);
      }
    }
    forall h | h in todo - {g} || h !in groups ensures h !in next' && AgreeOn(h, used', start) {
      assert AgreeOn(h, used, start);
    }
  }

  ghost predicate SnapshotReconciled(history: History, snapshot: seq<Observation>, le: (Lineage, Lineage) -> bool,
                                     r: Result<(seq<Option<Lineage>>, Active, set<Lineage>), LineageError>) {
    match r
    case Err(_) => exists g :: !Accepted(history + [snapshot], g, le)
    case Ok((resolved, active, used)) =>
      ResolvedAs(history, snapshot, resolved, le) && Tracks(history + [snapshot], active, used, le)
  }

  ghost predicate ResolvedAs(history: History, snapshot: seq<Observation>, resolved: seq<Option<Lineage>>,
                             le: (Lineage, Lineage) -> bool) {
    && |resolved| == |snapshot|
    && forall i :: 0 <= i < |snapshot| ==> resolved[i] == Resolved(history, snapshot, le, i)
  }

  /** One snapshot, group by group. */
  method ReconcileSnapshot(ghost history: History, snapshot: seq<Observation>, active: Active, start: set<Lineage>,
                           le: (Lineage, Lineage) -> bool)
    returns (r: Result<(seq<Option<Lineage>>, Active, set<Lineage>), LineageError>)
    requires Tracks(history, active, start, le)
    ensures SnapshotReconciled(history, snapshot, le, r)
  {
    var resolved: seq<Option<Lineage>> := seq(|snapshot|, _ => None);
    var groups := set o | o in snapshot && o.provisional.Some? :: o.provisional.value.group;
    var todo := groups;
    var next: Active := map[];
    var used := start;
    while todo != {}
      invariant todo <= groups && |resolved| == |snapshot|
      invariant Partial(history, snapshot, start, groups, todo, next, used, resolved, le)
    {
      var g :| g in todo;
      GroupIsPresent(snapshot, g);
      var current := CellsIn(snapshot, g);
      var outcome := ReconcileGroup(Lookup(active, g), current, used, le);
      if outcome.Err? {
        OneGroupRefused(history, snapshot, active, start, le, g);
        return Err(outcome.error);
      }
      var names := outcome.value;
      IndexesAreRanked(snapshot, g);
      IndexesAscend(snapshot, g);
      assert forall k :: 0 <= k < |IndexesOf(snapshot, g)| ==> RankedAt(snapshot, g, k, IndexesOf(snapshot, g)[k]);
      var placed := Place(resolved, IndexesOf(snapshot, g), names);
      OneGroupDone(history, snapshot, active, start, used, le, g, names);
      PlacedIsResolved(history, snapshot, g, names, resolved, placed, le);
      PartialAdvances(history, snapshot, start, groups, todo, next, used, resolved, le, g, ItemsFor(current, names),
        names, placed);
      resolved := placed;
      used := used + set l | l in names;
      next := next[g := ItemsFor(current, names)];
      todo := todo - {g};
    }
    SnapshotTracks(history, snapshot, active, start, groups, next, used, resolved, le);
    r := Ok((resolved, active + next, used));
  }

  lemma GroupIsPresent(snapshot: seq<Observation>, g: Group)
    requires exists o :: o in snapshot && InGroup(o, g)
    ensures CellsIn(snapshot, g) != []
  {
    var o :| o in snapshot && InGroup(o, g);
    var i :| 0 <= i < |snapshot| && snapshot[i] == o;
    RankedCell(snapshot, g, i);
  }

  lemma PlacedIsResolved(history: History, snapshot: seq<Observation>, g: Group, names: seq<Lineage>,
                         resolved: seq<Option<Lineage>>, placed: seq<Option<Lineage>>, le: (Lineage, Lineage) -> bool)
    requires |placed| == |resolved| == |snapshot|
    requires names == NamesOf(TrailOf(history, g, le), CellsIn(snapshot, g), le)
    requires var indexes := IndexesOf(snapshot, g);
      && |indexes| == |names|
      && (forall k :: 0 <= k < |indexes| ==> indexes[k] < |placed| && placed[indexes[k]] == Some(names[k]))
      && (forall i :: 0 <= i < |resolved| && i !in indexes ==> placed[i] == resolved[i])
    ensures PlacedGroup(history, snapshot, g, placed, le)
    ensures forall i :: 0 <= i < |snapshot| && !InGroup(snapshot[i], g) ==> placed[i] == resolved[i]
  {
    IndexesAscend(snapshot, g);
    forall i | 0 <= i < |snapshot| && InGroup(snapshot[i], g) ensures placed[i] == Resolved(history, snapshot, le, i) {
      IndexesAreRanked(snapshot, g);
      var k: nat :| k < |names| && IndexesOf(snapshot, g)[k] == i;
      assert RankedAt(snapshot, g, k, i);
    }
  }

  lemma SnapshotTracks(history: History, snapshot: seq<Observation>, active: Active, start: set<Lineage>,
                       groups: set<Group>,
                       next: Active, used: set<Lineage>, resolved: seq<Option<Lineage>>, le: (Lineage, Lineage) -> bool)
    requires Tracks(history, active, start, le) && |resolved| == |snapshot|
    requires groups == set o | o in snapshot && o.provisional.Some? :: o.provisional.value.group
    requires Partial(history, snapshot, start, groups, {}, next, used, resolved, le)
    ensures SnapshotReconciled(history, snapshot, le, Ok((resolved, active + next, used)))
  {
    forall i | 0 <= i < |snapshot| ensures resolved[i] == Resolved(history, snapshot, le, i) {
      if snapshot[i].provisional.Some? {
        var g := snapshot[i].provisional.value.group;
        assert snapshot[i] in snapshot && g in groups;
        assert GroupDone(history, snapshot, g, next, used, resolved, le);
      }
    }
    forall g ensures Accepted(history + [snapshot], g, le)
                  && TracksGroup(g, TrailOf(history + [snapshot], g, le), Lookup(active + next, g), used)
    {
      HistoryGrows(history, snapshot, g, le);
      if g in groups {
        assert GroupDone(history, snapshot, g, next, used, resolved, le);
      } else {
        PresentGroup(snapshot, groups, g);
        assert TracksGroup(g, TrailOf(history, g, le), Lookup(active, g), start);
        assert AgreeOn(g, used, start);
      }
    }
  }

  lemma PresentGroup(snapshot: seq<Observation>, groups: set<Group>, g: Group)
    requires groups == set o | o in snapshot && o.provisional.Some? :: o.provisional.value.group
    ensures CellsIn(snapshot, g) != [] ==> g in groups
  {
    if CellsIn(snapshot, g) != [] {
      var i := IndexOfCell(snapshot, g, 0);
      assert snapshot[i] in snapshot;
    }
  }

  lemma {:induction false} RefusalPersists(history: History, n: nat, g: Group, le: (Lineage, Lineage) -> bool)
    requires n <= |history| && !Accepted(history[..n], g, le)
    ensures !Accepted(history, g, le)
  {
    if n < |history| {
      var m := |history| - 1;
      assert history[..m][..n] == history[..n];
      RefusalPersists(history[..m], n, g, le);
      assert history == history[..m] + [history[m]];
      HistoryGrows(history[..m], history[m], g, le);
    } else {
      assert history[..n] == history;
    }
  }

  /** Each of the first n snapshots carries the lineages that the ones before it determine. */
  ghost predicate VintagesAre(inspections: History, n: nat, vintages: seq<seq<Option<Lineage>>>,
                              le: (Lineage, Lineage) -> bool) {
    && |vintages| == n <= |inspections|
    && forall k :: 0 <= k < n ==> ResolvedAs(inspections[..k], inspections[k], vintages[k], le)
  }

  lemma NextVintage(inspections: History, n: nat, vintages: seq<seq<Option<Lineage>>>, vintage: seq<Option<Lineage>>,
                    le: (Lineage, Lineage) -> bool)
    requires n < |inspections| && VintagesAre(inspections, n, vintages, le)
    requires ResolvedAs(inspections[..n], inspections[n], vintage, le)
    ensures VintagesAre(inspections, n + 1, vintages + [vintage], le)
  {
  }

  lemma RefusedByPrefix(inspections: History, n: nat, le: (Lineage, Lineage) -> bool)
    requires n <= |inspections| && exists g :: !Accepted(inspections[..n], g, le)
    ensures exists g :: !Accepted(inspections, g, le)
  {
    var g :| !Accepted(inspections[..n], g, le);
    RefusalPersists(inspections, n, g, le);
  }

  lemma NothingYet(le: (Lineage, Lineage) -> bool)
    ensures Tracks([], map[], {}, le)
  {
  }

  /** `reconcile_sec_observation_lineages`: refused exactly when some group of
      some snapshot is; otherwise every vintage carries the lineages that the
      snapshots before it determine. */
  method Reconcile(inspections: History, le: (Lineage, Lineage) -> bool)
    returns (r: Result<seq<seq<Option<Lineage>>>, LineageError>)
    ensures r.Err? <==> exists g :: !Accepted(inspections, g, le)
    ensures r.Ok? ==> VintagesAre(inspections, |inspections|, r.value, le)
  {
    var active: Active := map[];
    var used: set<Lineage> := {};
    var vintages: seq<seq<Option<Lineage>>> := [];
    NothingYet(le);
    for k := 0 to |inspections|
      invariant Tracks(inspections[..k], active, used, le)
      invariant VintagesAre(inspections, k, vintages, le)
    {
      PrefixExtends(inspections, k);
      var outcome := ReconcileSnapshot(inspections[..k], inspections[k], active, used, le);
      if outcome.Err? {
        RefusedByPrefix(inspections, k + 1, le);
        return Err(outcome.error);
      }
      NextVintage(inspections, k, vintages, outcome.value.0, le);
      vintages := vintages + [outcome.value.0];
      active, used := outcome.value.1, outcome.value.2;
    }
    assert inspections[..|inspections|] == inspections;
    r := Ok(vintages);
  }
}
