/** What the reconciliation of SEC observation lineages does not depend on
    (sec_ingestion.py): the positions of a snapshot's observations, repeated
    signatures included, and whether an unchanged snapshot is seen again. */
module LineageOrder {
  import opened Wrappers
  import opened Sorting
  import opened Grouping
  import opened LineageReconciliation
  import opened LineageIdentity

  // ---------------------------------------------------------------------
  // Two frames of one group that differ in positions only
  // ---------------------------------------------------------------------

  /** The last observations of a group and its observations now. */
  datatype Frame = Frame(previous: seq<Item>, current: seq<Cell>)

  /** Where each position of one frame is in the other, and back. */
  datatype Renumbering = Renumbering(item: seq<nat>, itemBack: seq<nat>, cell: seq<nat>, cellBack: seq<nat>)
  {
    function Inverse(): Renumbering {
      Renumbering(itemBack, item, cellBack, cell)
    }
  }

  ghost predicate Inverses(f: seq<nat>, h: seq<nat>) {
    && |f| == |h|
    && forall x: nat :: x < |f| ==> f[x] < |f| && h[x] < |f| && h[f[x]] == x && f[h[x]] == x
  }

  ghost predicate SameContents(a: Frame, b: Frame, r: Renumbering) {
    && Inverses(r.item, r.itemBack) && |r.item| == |a.previous| == |b.previous|
    && Inverses(r.cell, r.cellBack) && |r.cell| == |a.current| == |b.current|
    && (forall j: nat :: j < |a.previous| ==> b.previous[r.item[j]] == a.previous[j])
    && (forall i: nat :: i < |a.current| ==> b.current[r.cell[i]] == a.current[i])
  }

  /** The frames hold the same, and exact matches correspond. */
  ghost predicate Corresponds(a: Frame, b: Frame, r: Renumbering, le: (Lineage, Lineage) -> bool) {
    && SameContents(a, b, r)
    && forall j: nat, i: nat :: j < |a.previous| && i < |a.current| ==>
         (Exact(a.previous, a.current, le, j, i) <==> Exact(b.previous, b.current, le, r.item[j], r.cell[i]))
  }

  lemma CorrespondsBack(a: Frame, b: Frame, r: Renumbering, le: (Lineage, Lineage) -> bool)
    requires Corresponds(a, b, r, le)
    ensures Corresponds(b, a, r.Inverse(), le)
  {
    forall j: nat, i: nat | j < |b.previous| && i < |b.current|
      ensures Exact(b.previous, b.current, le, j, i) <==> Exact(a.previous, a.current, le, r.itemBack[j], r.cellBack[i])
    {
      assert r.item[r.itemBack[j]] == j && r.cell[r.cellBack[i]] == i;
    }
  }

  lemma LeftCorresponds(a: Frame, b: Frame, r: Renumbering, le: (Lineage, Lineage) -> bool, j: nat)
    requires Corresponds(a, b, r, le) && j in LeftOld(a.previous, a.current, le)
    ensures r.item[j] in LeftOld(b.previous, b.current, le)
  {
    if i: nat :| Exact(b.previous, b.current, le, r.item[j], i) {
      ExactIsFunctional(b.previous, b.current, le, r.item[j], i, r.item[j], i);
      assert r.cell[r.cellBack[i]] == i;
      assert Exact(a.previous, a.current, le, j, r.cellBack[i]);
      assert HasExactNew(a.previous, a.current, le, j);
    }
  }

  lemma OpenCorresponds(a: Frame, b: Frame, r: Renumbering, le: (Lineage, Lineage) -> bool, i: nat)
    requires Corresponds(a, b, r, le) && i in OpenNew(a.previous, a.current, le)
    ensures r.cell[i] in OpenNew(b.previous, b.current, le)
  {
    if j: nat :| Exact(b.previous, b.current, le, j, r.cell[i]) {
      ExactIsFunctional(b.previous, b.current, le, j, r.cell[i], j, r.cell[i]);
      assert r.item[r.itemBack[j]] == j;
      assert Exact(a.previous, a.current, le, r.itemBack[j], i);
      assert HasExactOld(a.previous, a.current, le, i);
    }
  }

  /** What the exact phase left in a frame. */
  ghost predicate Joined(a: Frame, le: (Lineage, Lineage) -> bool, j: nat, i: nat) {
    Edge(a.previous, a.current, LeftOld(a.previous, a.current, le), OpenNew(a.previous, a.current, le), j, i)
  }

  lemma EdgeCorresponds(a: Frame, b: Frame, r: Renumbering, le: (Lineage, Lineage) -> bool, j: nat, i: nat)
    requires Corresponds(a, b, r, le) && Joined(a, le, j, i)
    ensures Joined(b, le, r.item[j], r.cell[i])
  {
    LeftCorresponds(a, b, r, le, j);
    OpenCorresponds(a, b, r, le, i);
  }

  lemma IsolatedCorresponds(a: Frame, b: Frame, r: Renumbering, le: (Lineage, Lineage) -> bool, j: nat, i: nat)
    requires Corresponds(a, b, r, le) && MutualMatch(a.previous, a.current, le, j, i)
    ensures j < |a.previous| && i < |a.current| && MutualMatch(b.previous, b.current, le, r.item[j], r.cell[i])
  {
    var left, open := LeftOld(b.previous, b.current, le), OpenNew(b.previous, b.current, le);
    assert Joined(a, le, j, i);
    EdgeCorresponds(a, b, r, le, j, i);
    CorrespondsBack(a, b, r, le);
    forall x: nat | Edge(b.previous, b.current, left, open, r.item[j], x) ensures x == r.cell[i] {
      EdgeCorresponds(b, a, r.Inverse(), le, r.item[j], x);
      assert Joined(a, le, j, r.cellBack[x]);
    }
    forall y: nat | Edge(b.previous, b.current, left, open, y, r.cell[i]) ensures y == r.item[j] {
      EdgeCorresponds(b, a, r.Inverse(), le, y, r.cell[i]);
      assert Joined(a, le, r.itemBack[y], i);
    }
  }

  lemma OldRestCorresponds(a: Frame, b: Frame, r: Renumbering, le: (Lineage, Lineage) -> bool, j: nat)
    requires Corresponds(a, b, r, le) && j in OldRemainder(a.previous, a.current, le)
    ensures j < |a.previous| && r.item[j] in OldRemainder(b.previous, b.current, le)
  {
    LeftCorresponds(a, b, r, le, j);
    CorrespondsBack(a, b, r, le);
    var left, open := LeftOld(b.previous, b.current, le), OpenNew(b.previous, b.current, le);
    forall i: nat ensures !Isolated(b.previous, b.current, left, open, r.item[j], i) {
      if MutualMatch(b.previous, b.current, le, r.item[j], i) {
        IsolatedCorresponds(b, a, r.Inverse(), le, r.item[j], i);
      }
    }
  }

  lemma NewRestCorresponds(a: Frame, b: Frame, r: Renumbering, le: (Lineage, Lineage) -> bool, i: nat)
    requires Corresponds(a, b, r, le) && i in NewRemainder(a.previous, a.current, le)
    ensures i < |a.current| && r.cell[i] in NewRemainder(b.previous, b.current, le)
  {
    OpenCorresponds(a, b, r, le, i);
    CorrespondsBack(a, b, r, le);
    var left, open := LeftOld(b.previous, b.current, le), OpenNew(b.previous, b.current, le);
    forall j: nat ensures !Isolated(b.previous, b.current, left, open, j, r.cell[i]) {
      if MutualMatch(b.previous, b.current, le, j, r.cell[i]) {
        IsolatedCorresponds(b, a, r.Inverse(), le, j, r.cell[i]);
      }
    }
  }

  ghost predicate Sole(a: Frame, le: (Lineage, Lineage) -> bool, j: nat, i: nat) {
    OldRemainder(a.previous, a.current, le) == {j} && NewRemainder(a.previous, a.current, le) == {i}
  }

  lemma SoleCorresponds(a: Frame, b: Frame, r: Renumbering, le: (Lineage, Lineage) -> bool, j: nat, i: nat)
    requires Corresponds(a, b, r, le) && Sole(a, le, j, i)
    ensures j < |a.previous| && i < |a.current| && Sole(b, le, r.item[j], r.cell[i])
  {
    assert j in OldRemainder(a.previous, a.current, le) && i in NewRemainder(a.previous, a.current, le);
    OldRestCorresponds(a, b, r, le, j);
    NewRestCorresponds(a, b, r, le, i);
    CorrespondsBack(a, b, r, le);
    forall x: nat | x in OldRemainder(b.previous, b.current, le) ensures x == r.item[j] {
      OldRestCorresponds(b, a, r.Inverse(), le, x);
    }
    forall y: nat | y in NewRemainder(b.previous, b.current, le) ensures y == r.cell[i] {
      NewRestCorresponds(b, a, r.Inverse(), le, y);
    }
  }

  lemma ContinuesCorresponds(a: Frame, b: Frame, r: Renumbering, le: (Lineage, Lineage) -> bool, j: nat, i: nat)
    requires Corresponds(a, b, r, le) && Continues(a.previous, a.current, le, j, i)
    ensures j < |a.previous| && i < |a.current| && Continues(b.previous, b.current, le, r.item[j], r.cell[i])
  {
    ContinuesIsFunctional(a.previous, a.current, le, j, i, j, i);
    if MutualMatch(a.previous, a.current, le, j, i) {
      IsolatedCorresponds(a, b, r, le, j, i);
    } else if !Exact(a.previous, a.current, le, j, i) {
      SoleCorresponds(a, b, r, le, j, i);
    }
  }

  lemma AmbiguityCorresponds(a: Frame, b: Frame, r: Renumbering, le: (Lineage, Lineage) -> bool)
    requires Corresponds(a, b, r, le) && Ambiguous(a.previous, a.current, le)
    ensures Ambiguous(b.previous, b.current, le)
  {
    var restOld, restNew := OldRemainder(b.previous, b.current, le), NewRemainder(b.previous, b.current, le);
    var j :| j in OldRemainder(a.previous, a.current, le);
    var i :| i in NewRemainder(a.previous, a.current, le);
    OldRestCorresponds(a, b, r, le, j);
    NewRestCorresponds(a, b, r, le, i);
    if |restOld| == 1 && |restNew| == 1 {
      SingletonOf(restOld, r.item[j]);
      SingletonOf(restNew, r.cell[i]);
      CorrespondsBack(a, b, r, le);
      SoleCorresponds(b, a, r.Inverse(), le, r.item[j], r.cell[i]);
    }
  }

  /** An observation gets the same name in either frame. */
  lemma NameCorresponds(a: Frame, b: Frame, r: Renumbering, used: set<Lineage>, le: (Lineage, Lineage) -> bool, i: nat)
    requires Corresponds(a, b, r, le) && i < |a.current|
    ensures NameAt(Trail(b.previous, used), b.current, le, r.cell[i]) ==
      NameAt(Trail(a.previous, used), a.current, le, i)
  {
    var t, u := Trail(a.previous, used), Trail(b.previous, used);
    if HasOldName(t, a.current, le, i) {
      OldNameCorresponds(a, b, r, used, le, i);
    } else if HasOldName(u, b.current, le, r.cell[i]) {
      CorrespondsBack(a, b, r, le);
      OldNameCorresponds(b, a, r.Inverse(), used, le, r.cell[i]);
    }
  }

  lemma OldNameCorresponds(a: Frame, b: Frame, r: Renumbering, used: set<Lineage>, le: (Lineage, Lineage) -> bool,
                           i: nat)
    requires Corresponds(a, b, r, le) && i < |a.current| && HasOldName(Trail(a.previous, used), a.current, le, i)
    ensures HasOldName(Trail(b.previous, used), b.current, le, r.cell[i])
    ensures NameAt(Trail(b.previous, used), b.current, le, r.cell[i]) ==
      NameAt(Trail(a.previous, used), a.current, le, i)
  {
    var j := OldName(Trail(a.previous, used), a.current, le, i);
    ContinuesCorresponds(a, b, r, le, j, i);
    assert HasOldName(Trail(b.previous, used), b.current, le, r.cell[i]);
    var m := OldName(Trail(b.previous, used), b.current, le, r.cell[i]);
    ContinuesIsFunctional(b.previous, b.current, le, r.item[j], r.cell[i], m, r.cell[i]);
  }

  // ---------------------------------------------------------------------
  // Positions class by class
  // ---------------------------------------------------------------------

  function IndexIn(s: seq<nat>, x: nat): (k: nat)
    requires x in s
    ensures k < |s| && s[k] == x
  {
    if s[0] == x then 0 else 1 + IndexIn(s[1..], x)
  }

  /** p lists, for every class, the positions below n that are of that class. */
  ghost predicate Classes(p: string -> seq<nat>, of: nat -> string, n: nat) {
    && (forall j: nat :: j < n ==> j in p(of(j)))
    && (forall s :: IsClass(p(s), of, n, s))
  }

  ghost predicate IsClass(places: seq<nat>, of: nat -> string, n: nat, s: string) {
    (forall k :: 0 <= k < |places| ==> places[k] < n && of(places[k]) == s) && Distinct(places)
  }

  ghost predicate SameSizes(p: string -> seq<nat>, q: string -> seq<nat>) {
    forall s :: |p(s)| == |q(s)|
  }

  /** The position that has in q's class the place that j has in p's. */
  ghost function Moved(p: string -> seq<nat>, q: string -> seq<nat>, of: nat -> string, n: nat, j: nat): (x: nat)
    requires Classes(p, of, n) && SameSizes(p, q) && j < n
    ensures exists k: nat :: k < |p(of(j))| && p(of(j))[k] == j && q(of(j))[k] == x
  {
    q(of(j))[IndexIn(p(of(j)), j)]
  }

  ghost function Transfer(p: string -> seq<nat>, q: string -> seq<nat>, of: nat -> string, n: nat): (f: seq<nat>)
    requires Classes(p, of, n) && SameSizes(p, q)
    ensures |f| == n && forall j: nat :: j < n ==> f[j] == Moved(p, q, of, n, j)
  {
    seq(n, j requires 0 <= j < n => Moved(p, q, of, n, j))
  }

  lemma MovedAt(p: string -> seq<nat>, q: string -> seq<nat>, of: nat -> string, n: nat, s: string, k: nat)
    requires Classes(p, of, n) && SameSizes(p, q) && k < |p(s)|
    ensures p(s)[k] < n && Moved(p, q, of, n, p(s)[k]) == q(s)[k]
  {
    var j := p(s)[k];
    assert IsClass(p(s), of, n, s);
    var m := IndexIn(p(s), j);
    assert m == k;
  }

  lemma MovedBack(p: string -> seq<nat>, q: string -> seq<nat>, of: nat -> string, at: nat -> string, n: nat, j: nat)
    requires Classes(p, of, n) && Classes(q, at, n) && SameSizes(p, q) && j < n
    ensures Moved(p, q, of, n, j) < n && Moved(q, p, at, n, Moved(p, q, of, n, j)) == j
  {
    var s := of(j);
    var k: nat :| k < |p(s)| && p(s)[k] == j && q(s)[k] == Moved(p, q, of, n, j);
    MovedAt(q, p, at, n, s, k);
  }

  lemma TransferInverses(p: string -> seq<nat>, q: string -> seq<nat>, of: nat -> string, at: nat -> string, n: nat)
    requires Classes(p, of, n) && Classes(q, at, n) && SameSizes(p, q)
    ensures Inverses(Transfer(p, q, of, n), Transfer(q, p, at, n))
  {
    forall x: nat | x < n
      ensures Transfer(p, q, of, n)[x] < n && Transfer(q, p, at, n)[Transfer(p, q, of, n)[x]] == x
      ensures Transfer(q, p, at, n)[x] < n && Transfer(p, q, of, n)[Transfer(q, p, at, n)[x]] == x
    {
      MovedBack(p, q, of, at, n, x);
      MovedBack(q, p, at, of, n, x);
    }
  }

  // ---------------------------------------------------------------------
  // The classes of a frame
  // ---------------------------------------------------------------------

  ghost predicate TotalOrder(le: (Lineage, Lineage) -> bool) {
    TotalPreorder(le) && forall x, y :: le(x, y) && le(y, x) ==> x == y
  }

  /** The stable components are hashed from what the signature hashes. */
  ghost predicate KeysFollow(items: seq<Item>, keysOf: string -> set<string>) {
    forall p :: p in items ==> p.keys == keysOf(p.signature)
  }

  /** Provisional names are distinct, and repeats are numbered in order. */
  ghost predicate NumberedCells(g: Group, current: seq<Cell>) {
    && LabelledCells(g, current)
    && forall i, k :: 0 <= i < k < |current| && current[i].signature == current[k].signature ==>
         current[i].provisional.occurrence < current[k].provisional.occurrence
  }

  function NoItem(): Item {
    Item(Lineage(Group("", "", ""), "", 0), "", {})
  }

  function ItemAt(items: seq<Item>): nat -> Item {
    (j: nat) => if j < |items| then items[j] else NoItem()
  }

  function NoCell(): Cell {
    Cell(Lineage(Group("", "", ""), "", 0), None, {})
  }

  function CellAt(current: seq<Cell>): nat -> Cell {
    (i: nat) => if i < |current| then current[i] else NoCell()
  }

  function SignatureOf(p: Item): string { p.signature }

  function CellSignature(c: Cell): string { c.signature.GetOr("") }

  function ByLineage(le: (Lineage, Lineage) -> bool): (Item, Item) -> bool {
    (p: Item, q: Item) => le(p.lineage, q.lineage)
  }

  predicate ByOccurrence(c: Cell, d: Cell) {
    c.provisional.occurrence <= d.provisional.occurrence
  }

  ghost predicate AllSigned(current: seq<Cell>) {
    forall c :: c in current ==> c.signature.Some?
  }

  lemma {:induction false} OldIndexesFilter(items: seq<Item>, n: nat, s: string)
    requires n <= |items|
    ensures Apply(ItemAt(items), OldIndexes(items[..n], s)) == Filter(items[..n], SignatureOf, s)
  {
    if n > 0 {
      assert items[..n][..n - 1] == items[..n - 1];
      OldIndexesFilter(items, n - 1, s);
      var last: seq<nat> := [n - 1];
      ApplyConcat<nat, Item>(ItemAt(items), OldIndexes(items[..n - 1], s), last);
      assert Apply<nat, Item>(ItemAt(items), last) == [items[n - 1]];
      assert OldIndexes(items[..n], s) ==
        if items[n - 1].signature == s then OldIndexes(items[..n - 1], s) + last else OldIndexes(items[..n - 1], s);
    }
  }

  lemma {:induction false} NewIndexesFilter(current: seq<Cell>, n: nat, s: string)
    requires n <= |current| && AllSigned(current)
    ensures Apply(CellAt(current), NewIndexes(current[..n], s)) == Filter(current[..n], CellSignature, s)
  {
    if n > 0 {
      assert current[..n][..n - 1] == current[..n - 1];
      assert current[n - 1] in current;
      NewIndexesFilter(current, n - 1, s);
      var last: seq<nat> := [n - 1];
      ApplyConcat<nat, Cell>(CellAt(current), NewIndexes(current[..n - 1], s), last);
      assert Apply<nat, Cell>(CellAt(current), last) == [current[n - 1]];
      assert NewIndexes(current[..n], s) == if current[n - 1].signature == Some(s)
        then NewIndexes(current[..n - 1], s) + last else NewIndexes(current[..n - 1], s);
    }
  }

  /** The old occurrences of one signature in lineage order, as items. */
  lemma OldClassIsSorted(items: seq<Item>, s: string, le: (Lineage, Lineage) -> bool)
    ensures Apply(ItemAt(items), SortedOld(items, s, le)) == Sort(Filter(items, SignatureOf, s), ByLineage(le))
  {
    var byLineage := (x: nat, y: nat) => x < |items| && y < |items| && le(items[x].lineage, items[y].lineage);
    OldIndexesAscend(items, s);
    SortApply(ItemAt(items), OldIndexes(items, s), byLineage, ByLineage(le));
    OldIndexesFilter(items, |items|, s);
    assert items[..|items|] == items;
  }

  lemma ByLineageIsTotal(le: (Lineage, Lineage) -> bool)
    requires TotalOrder(le)
    ensures TotalPreorder(ByLineage(le))
  {
    var me := ByLineage(le);
    forall p, q ensures me(p, q) || me(q, p) {
      assert le(p.lineage, q.lineage) || le(q.lineage, p.lineage);
    }
    forall p, q, r | me(p, q) && me(q, r) ensures me(p, r) {
      assert le(p.lineage, q.lineage) && le(q.lineage, r.lineage);
    }
  }

  lemma OldClassesAgree(t: seq<Item>, u: seq<Item>, s: string, le: (Lineage, Lineage) -> bool,
                        keysOf: string -> set<string>)
    requires multiset(t) == multiset(u) && KeysFollow(t, keysOf) && TotalOrder(le)
    ensures Apply(ItemAt(t), SortedOld(t, s, le)) == Apply(ItemAt(u), SortedOld(u, s, le))
    ensures |SortedOld(t, s, le)| == |SortedOld(u, s, le)|
  {
    var f := Filter(t, SignatureOf, s);
    OldClassIsSorted(t, s, le);
    OldClassIsSorted(u, s, le);
    FilterPermutation(t, u, SignatureOf, s);
    FilterMembers(t, SignatureOf, s);
    forall p, q | p in f && q in f && ByLineage(le)(p, q) && ByLineage(le)(q, p) ensures p == q {
      assert p in t && q in t;
    }
    ByLineageIsTotal(le);
    SortIgnoresInputOrder(f, Filter(u, SignatureOf, s), ByLineage(le));
    ApplyAt(ItemAt(t), SortedOld(t, s, le));
    ApplyAt(ItemAt(u), SortedOld(u, s, le));
  }

  lemma {:induction false} ClassInOrder(g: Group, current: seq<Cell>, n: nat, s: string)
    requires n <= |current| && NumberedCells(g, current)
    ensures Ordered(Filter(current[..n], CellSignature, s), ByOccurrence)
  {
    if n > 0 {
      assert current[..n][..n - 1] == current[..n - 1];
      var rest := Filter(current[..n - 1], CellSignature, s);
      ClassInOrder(g, current, n - 1, s);
      FilterMembers(current[..n - 1], CellSignature, s);
      forall c | c in rest && CellSignature(current[n - 1]) == s ensures ByOccurrence(c, current[n - 1]) {
        var i :| 0 <= i < n - 1 && current[..n - 1][i] == c;
        assert current[i] == c && current[i].signature == current[n - 1].signature;
      }
      assert forall x :: 0 <= x < |rest| ==> rest[x] in rest;
    }
  }

  lemma ClassKeysDiffer(g: Group, c: seq<Cell>, s: string)
    requires NumberedCells(g, c)
    ensures DistinctKeys(Filter(c, CellSignature, s), ByOccurrence)
  {
    var f := Filter(c, CellSignature, s);
    FilterMembers(c, CellSignature, s);
    forall x, y | x in f && y in f && ByOccurrence(x, y) && ByOccurrence(y, x) ensures x == y {
      var i :| 0 <= i < |c| && c[i] == x;
      var k :| 0 <= k < |c| && c[k] == y;
      assert i < k || k < i || i == k;
    }
  }

  lemma NewClassesAgree(g: Group, c: seq<Cell>, d: seq<Cell>, s: string)
    requires NumberedCells(g, c) && NumberedCells(g, d) && multiset(c) == multiset(d)
    ensures Apply(CellAt(c), NewIndexes(c, s)) == Apply(CellAt(d), NewIndexes(d, s))
    ensures |NewIndexes(c, s)| == |NewIndexes(d, s)|
  {
    var f := Filter(c, CellSignature, s);
    assert c[..|c|] == c && d[..|d|] == d;
    NewIndexesFilter(c, |c|, s);
    NewIndexesFilter(d, |d|, s);
    ClassInOrder(g, c, |c|, s);
    ClassInOrder(g, d, |d|, s);
    FilterPermutation(c, d, CellSignature, s);
    ClassKeysDiffer(g, c, s);
    OrderedPermutationIsUnique(f, Filter(d, CellSignature, s), ByOccurrence);
    ApplyAt(CellAt(c), NewIndexes(c, s));
    ApplyAt(CellAt(d), NewIndexes(d, s));
  }

  function OldPositions(items: seq<Item>, le: (Lineage, Lineage) -> bool): string -> seq<nat> {
    s => SortedOld(items, s, le)
  }

  function NewPositions(current: seq<Cell>): string -> seq<nat> {
    s => NewIndexes(current, s)
  }

  function OldSignature(items: seq<Item>): nat -> string {
    (j: nat) => if j < |items| then items[j].signature else ""
  }

  function NewSignature(current: seq<Cell>): nat -> string {
    (i: nat) => if i < |current| then CellSignature(current[i]) else ""
  }

  lemma OldPositionsAreClasses(items: seq<Item>, le: (Lineage, Lineage) -> bool)
    ensures Classes(OldPositions(items, le), OldSignature(items), |items|)
  {
    var p, of := OldPositions(items, le), OldSignature(items);
    forall s ensures IsClass(p(s), of, |items|, s) {
      SortedOldIndexes(items, s, le);
      assert forall k :: 0 <= k < |p(s)| ==> p(s)[k] in SortedOld(items, s, le);
    }
    forall j: nat | j < |items| ensures j in p(of(j)) {
      SortedOldIndexes(items, items[j].signature, le);
    }
  }

  lemma NewPositionsAreClasses(current: seq<Cell>)
    requires AllSigned(current)
    ensures Classes(NewPositions(current), NewSignature(current), |current|)
  {
    var p, of := NewPositions(current), NewSignature(current);
    forall s ensures IsClass(p(s), of, |current|, s) {
      NewIndexesAscend(current, s);
      assert forall k :: 0 <= k < |p(s)| ==> p(s)[k] in NewIndexes(current, s);
    }
    forall i: nat | i < |current| ensures i in p(of(i)) {
      assert current[i] in current;
      NewIndexesAscend(current, current[i].signature.value);
    }
  }

  /** The same observations before and now, in whatever positions. */
  ghost predicate Shuffled(g: Group, a: Frame, b: Frame, keysOf: string -> set<string>) {
    && multiset(a.previous) == multiset(b.previous) && KeysFollow(a.previous, keysOf)
    && multiset(a.current) == multiset(b.current) && NumberedCells(g, a.current) && NumberedCells(g, b.current)
  }

  lemma ShuffledBack(g: Group, a: Frame, b: Frame, keysOf: string -> set<string>)
    requires Shuffled(g, a, b, keysOf)
    ensures Shuffled(g, b, a, keysOf)
  {
    SameMembers(a.previous, b.previous);
  }

  lemma ShuffledClasses(g: Group, a: Frame, b: Frame, le: (Lineage, Lineage) -> bool, keysOf: string -> set<string>)
    requires Shuffled(g, a, b, keysOf) && TotalOrder(le)
    ensures |a.previous| == |b.previous| && |a.current| == |b.current|
    ensures SameSizes(OldPositions(a.previous, le), OldPositions(b.previous, le))
    ensures SameSizes(NewPositions(a.current), NewPositions(b.current))
    ensures Classes(OldPositions(a.previous, le), OldSignature(a.previous), |a.previous|)
    ensures Classes(NewPositions(a.current), NewSignature(a.current), |a.current|)
  {
    SameMembers(a.previous, b.previous);
    SameMembers(a.current, b.current);
    OldPositionsAreClasses(a.previous, le);
    SignedCells(g, a.current);
    NewPositionsAreClasses(a.current);
    forall s ensures |OldPositions(a.previous, le)(s)| == |OldPositions(b.previous, le)(s)| {
      OldClassesAgree(a.previous, b.previous, s, le, keysOf);
    }
    forall s ensures |NewPositions(a.current)(s)| == |NewPositions(b.current)(s)| {
      NewClassesAgree(g, a.current, b.current, s);
    }
  }

  lemma SignedCells(g: Group, current: seq<Cell>)
    requires LabelledCells(g, current)
    ensures AllSigned(current)
  {
  }

  ghost function ItemMoves(a: Frame, b: Frame, le: (Lineage, Lineage) -> bool): seq<nat>
    requires Classes(OldPositions(a.previous, le), OldSignature(a.previous), |a.previous|)
    requires SameSizes(OldPositions(a.previous, le), OldPositions(b.previous, le))
  {
    Transfer(OldPositions(a.previous, le), OldPositions(b.previous, le), OldSignature(a.previous), |a.previous|)
  }

  ghost function CellMoves(a: Frame, b: Frame): seq<nat>
    requires Classes(NewPositions(a.current), NewSignature(a.current), |a.current|)
    requires SameSizes(NewPositions(a.current), NewPositions(b.current))
  {
    Transfer(NewPositions(a.current), NewPositions(b.current), NewSignature(a.current), |a.current|)
  }

  /** Exact matches pair equal places of one class, so they move along. */
  lemma ExactMoves(g: Group, a: Frame, b: Frame, le: (Lineage, Lineage) -> bool, keysOf: string -> set<string>,
                   j: nat, i: nat)
    requires Shuffled(g, a, b, keysOf) && TotalOrder(le) && Exact(a.previous, a.current, le, j, i)
    ensures Classes(OldPositions(a.previous, le), OldSignature(a.previous), |a.previous|)
      && SameSizes(OldPositions(a.previous, le), OldPositions(b.previous, le))
      && Classes(NewPositions(a.current), NewSignature(a.current), |a.current|)
      && SameSizes(NewPositions(a.current), NewPositions(b.current))
    ensures j < |a.previous| && i < |a.current|
    ensures Exact(b.previous, b.current, le, ItemMoves(a, b, le)[j], CellMoves(a, b)[i])
  {
    ShuffledClasses(g, a, b, le, keysOf);
    var s, k: nat :| ExactAt(a.previous, a.current, le, s, k, j, i);
    MovedAt(OldPositions(a.previous, le), OldPositions(b.previous, le), OldSignature(a.previous), |a.previous|, s, k);
    MovedAt(NewPositions(a.current), NewPositions(b.current), NewSignature(a.current), |a.current|, s, k);
    assert k < |OldPositions(b.previous, le)(s)| && k < |NewPositions(b.current)(s)|;
    assert ExactAt(b.previous, b.current, le, s, k, ItemMoves(a, b, le)[j], CellMoves(a, b)[i]);
  }

  lemma ItemMovesKeep(g: Group, a: Frame, b: Frame, le: (Lineage, Lineage) -> bool, keysOf: string -> set<string>,
                      j: nat)
    requires Shuffled(g, a, b, keysOf) && TotalOrder(le) && j < |a.previous|
    requires Classes(OldPositions(a.previous, le), OldSignature(a.previous), |a.previous|)
      && SameSizes(OldPositions(a.previous, le), OldPositions(b.previous, le))
    ensures ItemMoves(a, b, le)[j] < |b.previous| && b.previous[ItemMoves(a, b, le)[j]] == a.previous[j]
  {
    var p, q, s := OldPositions(a.previous, le), OldPositions(b.previous, le), OldSignature(a.previous)(j);
    var k: nat :| k < |p(s)| && p(s)[k] == j && q(s)[k] == ItemMoves(a, b, le)[j];
    OldClassesAgree(a.previous, b.previous, s, le, keysOf);
    OldPositionsAreClasses(b.previous, le);
    assert IsClass(q(s), OldSignature(b.previous), |b.previous|, s);
    SameItemThere(a.previous, b.previous, p(s), q(s), k);
  }

  lemma SameItemThere(t: seq<Item>, u: seq<Item>, p: seq<nat>, q: seq<nat>, k: nat)
    requires Apply(ItemAt(t), p) == Apply(ItemAt(u), q) && k < |p| && k < |q| && p[k] < |t| && q[k] < |u|
    ensures u[q[k]] == t[p[k]]
  {
    ApplyAt(ItemAt(t), p);
    ApplyAt(ItemAt(u), q);
    assert ItemAt(t)(p[k]) == ItemAt(u)(q[k]);
  }

  lemma SameCellThere(c: seq<Cell>, d: seq<Cell>, p: seq<nat>, q: seq<nat>, k: nat)
    requires Apply(CellAt(c), p) == Apply(CellAt(d), q) && k < |p| && k < |q| && p[k] < |c| && q[k] < |d|
    ensures d[q[k]] == c[p[k]]
  {
    ApplyAt(CellAt(c), p);
    ApplyAt(CellAt(d), q);
    assert CellAt(c)(p[k]) == CellAt(d)(q[k]);
  }

  lemma CellMovesKeep(g: Group, a: Frame, b: Frame, i: nat)
    requires NumberedCells(g, a.current) && NumberedCells(g, b.current) && multiset(a.current) == multiset(b.current)
    requires i < |a.current|
    requires Classes(NewPositions(a.current), NewSignature(a.current), |a.current|)
      && SameSizes(NewPositions(a.current), NewPositions(b.current))
    ensures CellMoves(a, b)[i] < |b.current| && b.current[CellMoves(a, b)[i]] == a.current[i]
  {
    var p, q, s := NewPositions(a.current), NewPositions(b.current), NewSignature(a.current)(i);
    var k: nat :| k < |p(s)| && p(s)[k] == i && q(s)[k] == CellMoves(a, b)[i];
    NewClassesAgree(g, a.current, b.current, s);
    SignedCells(g, b.current);
    NewPositionsAreClasses(b.current);
    assert IsClass(q(s), NewSignature(b.current), |b.current|, s);
    SameCellThere(a.current, b.current, p(s), q(s), k);
  }

  /** Frames that hold the same correspond, place by place in every class. */
  lemma ShuffledCorresponds(g: Group, a: Frame, b: Frame, le: (Lineage, Lineage) -> bool, keysOf: string -> set<string>)
    returns (r: Renumbering)
    requires Shuffled(g, a, b, keysOf) && TotalOrder(le)
    ensures Corresponds(a, b, r, le)
  {
    ShuffledBack(g, a, b, keysOf);
    ShuffledClasses(g, a, b, le, keysOf);
    ShuffledClasses(g, b, a, le, keysOf);
    r := Renumbering(ItemMoves(a, b, le), ItemMoves(b, a, le), CellMoves(a, b), CellMoves(b, a));
    TransferInverses(OldPositions(a.previous, le), OldPositions(b.previous, le), OldSignature(a.previous),
      OldSignature(b.previous), |a.previous|);
    TransferInverses(NewPositions(a.current), NewPositions(b.current), NewSignature(a.current),
      NewSignature(b.current), |a.current|);
    forall j: nat | j < |a.previous| ensures b.previous[r.item[j]] == a.previous[j] {
      ItemMovesKeep(g, a, b, le, keysOf, j);
    }
    forall i: nat | i < |a.current| ensures b.current[r.cell[i]] == a.current[i] {
      CellMovesKeep(g, a, b, i);
    }
    forall j: nat, i: nat | j < |a.previous| && i < |a.current|
      ensures Exact(a.previous, a.current, le, j, i) <==> Exact(b.previous, b.current, le, r.item[j], r.cell[i])
    {
      if Exact(a.previous, a.current, le, j, i) {
        ExactMoves(g, a, b, le, keysOf, j, i);
      }
      if Exact(b.previous, b.current, le, r.item[j], r.cell[i]) {
        ExactMoves(g, b, a, le, keysOf, r.item[j], r.cell[i]);
      }
    }
  }

  // ---------------------------------------------------------------------
  // One step over shuffled observations
  // ---------------------------------------------------------------------

  /** The same live observations and used names, in whatever order. */
  ghost predicate SameTrail(t: Trail, u: Trail, keysOf: string -> set<string>) {
    multiset(t.items) == multiset(u.items) && t.used == u.used && KeysFollow(t.items, keysOf)
  }

  ghost predicate CellKeysFollow(current: seq<Cell>, keysOf: string -> set<string>) {
    forall c :: c in current ==> c.keys == keysOf(CellSignature(c))
  }

  function PlaceOf(current: seq<Cell>, c: Cell): (i: nat)
    requires c in current
    ensures i < |current| && current[i] == c
  {
    if current[0] == c then 0 else 1 + PlaceOf(current[1..], c)
  }

  /** What an observation becomes, as a function of the observation alone. */
  ghost function Becomes(t: Trail, current: seq<Cell>, le: (Lineage, Lineage) -> bool): Cell -> Item {
    (c: Cell) => if c in current then Item(NameAt(t, current, le, PlaceOf(current, c)), CellSignature(c), c.keys)
      else NoItem()
  }

  lemma SamePlace(g: Group, current: seq<Cell>, i: nat, k: nat)
    requires LabelledCells(g, current) && i < |current| && k < |current| && current[i] == current[k]
    ensures i == k
  {
    assert i < k || k < i || i == k;
  }

  lemma NextItemsAre(g: Group, t: Trail, current: seq<Cell>, le: (Lineage, Lineage) -> bool)
    requires LabelledCells(g, current)
    ensures ItemsFor(current, NamesOf(t, current, le)) == Apply(Becomes(t, current, le), current)
  {
    var items := ItemsFor(current, NamesOf(t, current, le));
    ApplyAt(Becomes(t, current, le), current);
    forall i: nat | i < |current| ensures items[i] == Becomes(t, current, le)(current[i]) {
      assert current[i] in current;
      SamePlace(g, current, PlaceOf(current, current[i]), i);
    }
  }

  lemma BecomesAlike(g: Group, t: Trail, u: Trail, c: seq<Cell>, d: seq<Cell>, r: Renumbering,
                     le: (Lineage, Lineage) -> bool, x: Cell)
    requires Corresponds(Frame(t.items, c), Frame(u.items, d), r, le) && t.used == u.used
    requires LabelledCells(g, c) && LabelledCells(g, d) && x in c
    ensures x in d && Becomes(t, c, le)(x) == Becomes(u, d, le)(x)
  {
    var i := PlaceOf(c, x);
    assert d[r.cell[i]] == x;
    SamePlace(g, d, PlaceOf(d, x), r.cell[i]);
    NameCorresponds(Frame(t.items, c), Frame(u.items, d), r, t.used, le, i);
  }

  lemma {:induction false} ApplyAlike<T, U>(f: T -> U, h: T -> U, s: seq<T>)
    requires forall x :: x in s ==> f(x) == h(x)
    ensures Apply(f, s) == Apply(h, s)
  {
    if s != [] {
      ApplyAlike(f, h, s[1..]);
    }
  }

  lemma NextItemsShuffled(g: Group, t: Trail, u: Trail, c: seq<Cell>, d: seq<Cell>, r: Renumbering,
                          le: (Lineage, Lineage) -> bool)
    requires Corresponds(Frame(t.items, c), Frame(u.items, d), r, le) && t.used == u.used
    requires LabelledCells(g, c) && LabelledCells(g, d) && multiset(c) == multiset(d)
    ensures multiset(ItemsFor(c, NamesOf(t, c, le))) == multiset(ItemsFor(d, NamesOf(u, d, le)))
  {
    NextItemsAre(g, t, c, le);
    NextItemsAre(g, u, d, le);
    SameMembers(c, d);
    forall x | x in d ensures Becomes(t, c, le)(x) == Becomes(u, d, le)(x) {
      BecomesAlike(g, t, u, c, d, r, le, x);
    }
    ApplyAlike(Becomes(t, c, le), Becomes(u, d, le), d);
    ApplyPermutation(Becomes(t, c, le), c, d);
  }

  lemma NextNamesShuffled(t: Trail, u: Trail, c: seq<Cell>, d: seq<Cell>, r: Renumbering,
                          le: (Lineage, Lineage) -> bool)
    requires Corresponds(Frame(t.items, c), Frame(u.items, d), r, le) && t.used == u.used
    ensures Members(NamesOf(t, c, le)) == Members(NamesOf(u, d, le))
  {
    var names, others := NamesOf(t, c, le), NamesOf(u, d, le);
    forall i: nat | i < |c| ensures r.cell[i] < |d| && others[r.cell[i]] == names[i] {
      NameCorresponds(Frame(t.items, c), Frame(u.items, d), r, t.used, le, i);
    }
    forall m: nat | m < |d| ensures others[m] in names {
      assert r.cell[r.cellBack[m]] == m && names[r.cellBack[m]] == others[m];
    }
    forall i: nat | i < |c| ensures names[i] in others {
      assert others[r.cell[i]] == names[i];
    }
  }

  lemma ResolvableAlike(g: Group, t: Trail, u: Trail, c: seq<Cell>, d: seq<Cell>, r: Renumbering,
                        le: (Lineage, Lineage) -> bool)
    requires Corresponds(Frame(t.items, c), Frame(u.items, d), r, le) && LabelledCells(g, c) && LabelledCells(g, d)
    ensures Unresolvable(t.items, c, le) <==> Unresolvable(u.items, d, le)
  {
    SignedCells(g, c);
    SignedCells(g, d);
    if Ambiguous(t.items, c, le) {
      AmbiguityCorresponds(Frame(t.items, c), Frame(u.items, d), r, le);
    }
    CorrespondsBack(Frame(t.items, c), Frame(u.items, d), r, le);
    if Ambiguous(u.items, d, le) {
      AmbiguityCorresponds(Frame(u.items, d), Frame(t.items, c), r.Inverse(), le);
    }
  }

  lemma NextKeysFollow(t: Trail, current: seq<Cell>, le: (Lineage, Lineage) -> bool, keysOf: string -> set<string>)
    requires CellKeysFollow(current, keysOf)
    ensures KeysFollow(ItemsFor(current, NamesOf(t, current, le)), keysOf)
  {
    var items := ItemsFor(current, NamesOf(t, current, le));
    forall p | p in items ensures p.keys == keysOf(p.signature) {
      var i :| 0 <= i < |items| && items[i] == p;
      assert current[i] in current;
    }
  }

  lemma AdvanceShuffled(g: Group, t: Trail, u: Trail, c: seq<Cell>, d: seq<Cell>, le: (Lineage, Lineage) -> bool,
                        keysOf: string -> set<string>)
    requires SameTrail(t, u, keysOf) && TotalOrder(le) && CellKeysFollow(c, keysOf)
    requires NumberedCells(g, c) && NumberedCells(g, d) && multiset(c) == multiset(d)
    ensures Advance(t, c, le).Some? <==> Advance(u, d, le).Some?
    ensures Advance(t, c, le).Some? ==> SameTrail(Advance(t, c, le).value, Advance(u, d, le).value, keysOf)
  {
    SameMembers(c, d);
    var r := ShuffledCorresponds(g, Frame(t.items, c), Frame(u.items, d), le, keysOf);
    ResolvableAlike(g, t, u, c, d, r, le);
    NextItemsShuffled(g, t, u, c, d, r, le);
    NextNamesShuffled(t, u, c, d, r, le);
    NextKeysFollow(t, c, le, keysOf);
  }

  // ---------------------------------------------------------------------
  // Snapshots in any order
  // ---------------------------------------------------------------------

  /** Labelled apart, repeats numbered in order, components following content. */
  ghost predicate Regular(snapshot: seq<Observation>, keysOf: string -> set<string>) {
    && Labelled(snapshot)
    && (forall i, k :: 0 <= i < k < |snapshot| && SameClass(snapshot[i], snapshot[k]) ==>
          snapshot[i].provisional.value.occurrence < snapshot[k].provisional.value.occurrence)
    && (forall i :: 0 <= i < |snapshot| && snapshot[i].provisional.Some? ==>
          snapshot[i].keys == keysOf(snapshot[i].provisional.value.signature))
  }

  /** One group and one signature. */
  predicate SameClass(o: Observation, q: Observation) {
    o.provisional.Some? && q.provisional.Some? && o.provisional.value.group == q.provisional.value.group
    && o.provisional.value.signature == q.provisional.value.signature
  }

  ghost predicate SameLabelled(a: seq<Observation>, b: seq<Observation>) {
    forall o: Observation :: o.provisional.Some? ==> (o in a <==> o in b)
  }

  lemma RegularGroup(snapshot: seq<Observation>, g: Group, keysOf: string -> set<string>)
    requires Regular(snapshot, keysOf)
    ensures NumberedCells(g, CellsIn(snapshot, g)) && CellKeysFollow(CellsIn(snapshot, g), keysOf)
  {
    var current := CellsIn(snapshot, g);
    LabelledGroup(snapshot, g);
    forall i: nat, k: nat | i < k < |current| && current[i].signature == current[k].signature
      ensures current[i].provisional.occurrence < current[k].provisional.occurrence
    {
      var x := IndexOfCell(snapshot, g, i);
      var y := IndexOfCell(snapshot, g, k);
      if y < x {
        RankAscends(snapshot, g, y, x);
      }
      assert SameClass(snapshot[x], snapshot[y]);
    }
    forall c | c in current ensures c.keys == keysOf(CellSignature(c)) {
      var k: nat :| k < |current| && current[k] == c;
      var x := IndexOfCell(snapshot, g, k);
    }
  }

  lemma LabelledCellsAreDistinct(g: Group, current: seq<Cell>)
    requires LabelledCells(g, current)
    ensures Distinct(current)
  {
  }

  lemma CellsThere(a: seq<Observation>, b: seq<Observation>, g: Group)
    requires SameLabelled(a, b)
    ensures forall c :: c in CellsIn(a, g) ==> c in CellsIn(b, g)
  {
    forall c | c in CellsIn(a, g) ensures c in CellsIn(b, g) {
      var k: nat :| k < |CellsIn(a, g)| && CellsIn(a, g)[k] == c;
      var x := IndexOfCell(a, g, k);
      assert a[x] in b;
      var y :| 0 <= y < |b| && b[y] == a[x];
      RankedCell(b, g, y);
    }
  }

  lemma CellsShuffled(a: seq<Observation>, b: seq<Observation>, g: Group)
    requires Labelled(a) && Labelled(b) && SameLabelled(a, b)
    ensures multiset(CellsIn(a, g)) == multiset(CellsIn(b, g))
  {
    LabelledGroup(a, g);
    LabelledGroup(b, g);
    LabelledCellsAreDistinct(g, CellsIn(a, g));
    LabelledCellsAreDistinct(g, CellsIn(b, g));
    CellsThere(a, b, g);
    CellsThere(b, a, g);
    SameMembersSameMultiset(CellsIn(a, g), CellsIn(b, g));
  }

  ghost predicate RegularAll(a: History, keysOf: string -> set<string>) {
    forall n :: 0 <= n < |a| ==> Regular(a[n], keysOf)
  }

  /** The same labelled observations in every snapshot, in whatever positions. */
  ghost predicate Reordered(a: History, b: History) {
    |a| == |b| && forall n :: 0 <= n < |a| ==> SameLabelled(a[n], b[n])
  }

  lemma ReorderedStep(a: History, b: History, s: seq<Observation>, q: seq<Observation>, g: Group,
                      le: (Lineage, Lineage) -> bool, keysOf: string -> set<string>)
    requires TotalOrder(le) && Regular(s, keysOf) && Regular(q, keysOf) && SameLabelled(s, q)
    requires Accepted(a, g, le) <==> Accepted(b, g, le)
    requires SameTrail(TrailOf(a, g, le), TrailOf(b, g, le), keysOf)
    ensures Accepted(a + [s], g, le) <==> Accepted(b + [q], g, le)
    ensures SameTrail(TrailOf(a + [s], g, le), TrailOf(b + [q], g, le), keysOf)
  {
    HistoryGrows(a, s, g, le);
    HistoryGrows(b, q, g, le);
    RegularGroup(s, g, keysOf);
    RegularGroup(q, g, keysOf);
    CellsShuffled(s, q, g);
    AdvanceShuffled(g, TrailOf(a, g, le), TrailOf(b, g, le), CellsIn(s, g), CellsIn(q, g), le, keysOf);
  }

  /** Both orders are accepted or refused alike and leave the same live lineages. */
  lemma {:induction false} ReorderedTrails(a: History, b: History, g: Group, le: (Lineage, Lineage) -> bool,
                                           keysOf: string -> set<string>)
    requires TotalOrder(le) && RegularAll(a, keysOf) && RegularAll(b, keysOf) && Reordered(a, b)
    ensures Accepted(a, g, le) <==> Accepted(b, g, le)
    ensures SameTrail(TrailOf(a, g, le), TrailOf(b, g, le), keysOf)
  {
    if a == [] {
      assert TraceOf(a, g) == [] && TraceOf(b, g) == [];
    } else {
      var n := |a| - 1;
      assert a == a[..n] + [a[n]] && b == b[..n] + [b[n]];
      ReorderedTrails(a[..n], b[..n], g, le, keysOf);
      ReorderedStep(a[..n], b[..n], a[n], b[n], g, le, keysOf);
    }
  }

  lemma ReorderedName(a: History, b: History, s: seq<Observation>, q: seq<Observation>, i: nat, k: nat,
                      le: (Lineage, Lineage) -> bool, keysOf: string -> set<string>)
    requires TotalOrder(le) && RegularAll(a, keysOf) && RegularAll(b, keysOf) && Reordered(a, b)
    requires Regular(s, keysOf) && Regular(q, keysOf) && SameLabelled(s, q)
    requires i < |s| && k < |q| && s[i].provisional.Some? && s[i].provisional == q[k].provisional
    ensures Resolved(a, s, le, i) == Resolved(b, q, le, k)
  {
    var g := s[i].provisional.value.group;
    var t, u, c, d := TrailOf(a, g, le), TrailOf(b, g, le), CellsIn(s, g), CellsIn(q, g);
    ReorderedTrails(a, b, g, le, keysOf);
    RegularGroup(s, g, keysOf);
    RegularGroup(q, g, keysOf);
    CellsShuffled(s, q, g);
    RankedCell(s, g, i);
    RankedCell(q, g, k);
    var r := ShuffledCorresponds(g, Frame(t.items, c), Frame(u.items, d), le, keysOf);
    NameCorresponds(Frame(t.items, c), Frame(u.items, d), r, t.used, le, Rank(s, g, i));
    SameLabel(g, d, r.cell[Rank(s, g, i)], Rank(q, g, k));
  }

  lemma SameLabel(g: Group, current: seq<Cell>, i: nat, k: nat)
    requires LabelledCells(g, current) && i < |current| && k < |current|
    requires current[i].provisional == current[k].provisional
    ensures i == k
  {
    assert i < k || k < i || i == k;
  }

  /** The positions of a snapshot's observations carry no evidence, repeats
      included: sequences whose snapshots hold the same labelled observations in
      any positions are accepted alike, and resolve each of them to one lineage. */
  lemma OrderIsIrrelevant(a: History, b: History, n: nat, i: nat, k: nat, le: (Lineage, Lineage) -> bool,
                          keysOf: string -> set<string>)
    requires TotalOrder(le) && RegularAll(a, keysOf) && RegularAll(b, keysOf) && Reordered(a, b)
    requires n < |a| && i < |a[n]| && k < |b[n]| && a[n][i].provisional.Some?
      && a[n][i].provisional == b[n][k].provisional
    ensures forall g :: Accepted(a, g, le) <==> Accepted(b, g, le)
    ensures Resolved(a[..n], a[n], le, i) == Resolved(b[..n], b[n], le, k)
  {
    forall g ensures Accepted(a, g, le) <==> Accepted(b, g, le) {
      ReorderedTrails(a, b, g, le, keysOf);
    }
    ReorderedName(a[..n], b[..n], a[n], b[n], i, k, le, keysOf);
  }

  // ---------------------------------------------------------------------
  // Raw observations in any order
  // ---------------------------------------------------------------------

  /** Equal content is kept or dropped alike, and has its own components. */
  ghost predicate ContentDecides(raws: seq<Raw>, keysOf: string -> set<string>) {
    && (forall r, q :: r in raws && q in raws && SameOwner(r, q) ==> r.kept == q.kept)
    && (forall r :: r in raws ==> r.keys == keysOf(r.signature))
  }

  lemma {:induction false} InspectedIsRegular(raws: seq<Raw>, n: nat, keysOf: string -> set<string>)
    requires n <= |raws| && ContentDecides(raws, keysOf)
    ensures Regular(Inspected(raws, n), keysOf)
  {
    InspectedIsLabelled(raws, n);
    if n > 0 {
      var front := Inspected(raws, n - 1);
      InspectedIsRegular(raws, n - 1, keysOf);
      assert raws[n - 1] in raws;
      forall i | 0 <= i < |front| && raws[n - 1].kept && SameClass(front[i], Labelling(raws, n - 1))
        ensures front[i].provisional.value.occurrence < Occurrences(raws, n - 1, raws[n - 1])
      {
        InspectedFrom(raws, n - 1, i);
        var m :| 0 <= m < n - 1 && front[i] == Labelling(raws, m);
        OccurrencesGrow(raws, m, n - 1, raws[m]);
        SameOccurrences(raws, n - 1, raws[m], raws[n - 1]);
      }
    }
  }

  function OwnedLike(r: Raw): Raw -> bool {
    (q: Raw) => SameOwner(q, r)
  }

  lemma {:induction false} OccurrencesAreCounted(raws: seq<Raw>, n: nat, r: Raw)
    requires n <= |raws|
    ensures Occurrences(raws, n, r) == |Filter(raws[..n], OwnedLike(r), true)|
  {
    if n > 0 {
      assert raws[..n][..n - 1] == raws[..n - 1];
      OccurrencesAreCounted(raws, n - 1, r);
    }
  }

  lemma OccurrencesIgnoreOrder(a: seq<Raw>, b: seq<Raw>, r: Raw)
    requires multiset(a) == multiset(b)
    ensures Occurrences(a, |a|, r) == Occurrences(b, |b|, r)
  {
    assert a[..|a|] == a && b[..|b|] == b;
    OccurrencesAreCounted(a, |a|, r);
    OccurrencesAreCounted(b, |b|, r);
    FilterPermutation(a, b, OwnedLike(r), true);
    SameMembers(Filter(a, OwnedLike(r), true), Filter(b, OwnedLike(r), true));
  }

  /** Every number below the count is the number of some repeat. */
  lemma {:induction false} OccurrenceAt(raws: seq<Raw>, n: nat, r: Raw, k: nat) returns (m: nat)
    requires n <= |raws| && k < Occurrences(raws, n, r)
    ensures m < n && SameOwner(raws[m], r) && Occurrences(raws, m, r) == k
  {
    if k < Occurrences(raws, n - 1, r) {
      m := OccurrenceAt(raws, n - 1, r, k);
    } else {
      m := n - 1;
    }
  }

  lemma {:induction false} KeptIsInspected(raws: seq<Raw>, n: nat, m: nat)
    requires m < n <= |raws| && raws[m].kept
    ensures Labelling(raws, m) in Inspected(raws, n)
  {
    if m < n - 1 {
      KeptIsInspected(raws, n - 1, m);
    }
  }

  lemma {:induction false} InspectedIsKept(raws: seq<Raw>, n: nat, o: Observation) returns (m: nat)
    requires n <= |raws| && o in Inspected(raws, n)
    ensures m < n && raws[m].kept && Labelling(raws, m) == o
  {
    if o in Inspected(raws, n - 1) {
      m := InspectedIsKept(raws, n - 1, o);
    } else {
      m := n - 1;
    }
  }

  lemma LabelledThere(a: seq<Raw>, b: seq<Raw>, keysOf: string -> set<string>, o: Observation)
    requires multiset(a) == multiset(b) && ContentDecides(a, keysOf) && o.provisional.Some? && o in Inspected(a, |a|)
    ensures o in Inspected(b, |b|)
  {
    SameMembers(a, b);
    var m := InspectedIsKept(a, |a|, o);
    var r := a[m];
    OccurrencesGrow(a, m, |a|, r);
    OccurrencesIgnoreOrder(a, b, r);
    var x := OccurrenceAt(b, |b|, r, Occurrences(a, m, r));
    assert b[x] in a && r in a;
    SameOccurrences(b, x, b[x], r);
    KeptIsInspected(b, |b|, x);
  }

  function InspectedAll(raws: seq<seq<Raw>>): History {
    seq(|raws|, n requires 0 <= n < |raws| => Inspected(raws[n], |raws[n]|))
  }

  ghost predicate RawReordered(x: seq<seq<Raw>>, y: seq<seq<Raw>>, keysOf: string -> set<string>) {
    |x| == |y| && forall n :: 0 <= n < |x| ==> multiset(x[n]) == multiset(y[n]) && ContentDecides(x[n], keysOf)
  }

  lemma RawReorderedIsRegular(x: seq<seq<Raw>>, y: seq<seq<Raw>>, keysOf: string -> set<string>)
    requires RawReordered(x, y, keysOf)
    ensures RegularAll(InspectedAll(x), keysOf) && RegularAll(InspectedAll(y), keysOf)
    ensures Reordered(InspectedAll(x), InspectedAll(y))
  {
    forall n | 0 <= n < |x|
      ensures Regular(InspectedAll(x)[n], keysOf) && Regular(InspectedAll(y)[n], keysOf)
      ensures SameLabelled(InspectedAll(x)[n], InspectedAll(y)[n])
    {
      SameMembers(x[n], y[n]);
      InspectedIsRegular(x[n], |x[n]|, keysOf);
      InspectedIsRegular(y[n], |y[n]|, keysOf);
      forall o: Observation | o.provisional.Some? ensures o in InspectedAll(x)[n] <==> o in InspectedAll(y)[n] {
        if o in InspectedAll(x)[n] {
          LabelledThere(x[n], y[n], keysOf, o);
        } else if o in InspectedAll(y)[n] {
          LabelledThere(y[n], x[n], keysOf, o);
        }
      }
    }
  }

  /** For the raw observations of every snapshot in any order: the sequences are
      accepted alike, and the k-th repeat of a content gets one lineage. */
  lemma RawOrderIsIrrelevant(x: seq<seq<Raw>>, y: seq<seq<Raw>>, n: nat, i: nat, k: nat,
                             le: (Lineage, Lineage) -> bool, keysOf: string -> set<string>)
    requires TotalOrder(le) && RawReordered(x, y, keysOf)
    requires n < |x| && i < |InspectedAll(x)[n]| && k < |InspectedAll(y)[n]|
    requires InspectedAll(x)[n][i].provisional.Some?
    requires InspectedAll(x)[n][i].provisional == InspectedAll(y)[n][k].provisional
    ensures forall g :: Accepted(InspectedAll(x), g, le) <==> Accepted(InspectedAll(y), g, le)
    ensures Resolved(InspectedAll(x)[..n], InspectedAll(x)[n], le, i) ==
      Resolved(InspectedAll(y)[..n], InspectedAll(y)[n], le, k)
  {
    RawReorderedIsRegular(x, y, keysOf);
    OrderIsIrrelevant(InspectedAll(x), InspectedAll(y), n, i, k, le, keysOf);
  }

  // ---------------------------------------------------------------------
  // An unchanged snapshot
  // ---------------------------------------------------------------------

  function NameIn(names: seq<Lineage>): nat -> Lineage {
    (i: nat) => if i < |names| then names[i] else NoItem().lineage
  }

  /** The lineages of the repeats of one signature, in snapshot order. */
  function ClassNames(names: seq<Lineage>, current: seq<Cell>, s: string): seq<Lineage> {
    Apply(NameIn(names), NewIndexes(current, s))
  }

  /** The items are the observations under their names. */
  ghost predicate CarriesOver(items: seq<Item>, current: seq<Cell>, names: seq<Lineage>) {
    |items| == |current| == |names| &&
    forall i :: 0 <= i < |current| ==> items[i].lineage == names[i] && current[i].signature == Some(items[i].signature)
  }

  lemma {:induction false} SameIndexes(items: seq<Item>, current: seq<Cell>, names: seq<Lineage>, n: nat, s: string)
    requires CarriesOver(items, current, names) && n <= |items|
    ensures OldIndexes(items[..n], s) == NewIndexes(current[..n], s)
  {
    if n > 0 {
      assert items[..n][..n - 1] == items[..n - 1] && current[..n][..n - 1] == current[..n - 1];
      SameIndexes(items, current, names, n - 1, s);
    }
  }

  lemma ClassSizes(items: seq<Item>, current: seq<Cell>, names: seq<Lineage>, s: string, le: (Lineage, Lineage) -> bool)
    requires CarriesOver(items, current, names)
    ensures OldIndexes(items, s) == NewIndexes(current, s) && |SortedOld(items, s, le)| == |NewIndexes(current, s)|
    ensures multiset(SortedOld(items, s, le)) == multiset(NewIndexes(current, s))
  {
    assert items[..|items|] == items && current[..|current|] == current;
    SameIndexes(items, current, names, |items|, s);
    SortedOldIndexes(items, s, le);
    SortKeepsElements(OldIndexes(items, s),
      (x: nat, y: nat) => x < |items| && y < |items| && le(items[x].lineage, items[y].lineage));
  }

  /** The k-th repeat continues the k-th of the last lineages in their order. */
  lemma RepeatContinues(t: Trail, current: seq<Cell>, names: seq<Lineage>, s: string, k: nat,
                        le: (Lineage, Lineage) -> bool)
    requires CarriesOver(t.items, current, names) && k < |NewIndexes(current, s)|
    ensures k < |SortedOld(t.items, s, le)|
    ensures var i, j := NewIndexes(current, s)[k], SortedOld(t.items, s, le)[k];
      && i < |current| && j < |names| && Exact(t.items, current, le, j, i)
      && NameAt(t, current, le, i) == names[j]
  {
    ClassSizes(t.items, current, names, s, le);
    var i, j := NewIndexes(current, s)[k], SortedOld(t.items, s, le)[k];
    assert ExactAt(t.items, current, le, s, k, j, i);
    assert Exact(t.items, current, le, j, i) && Continues(t.items, current, le, j, i);
    ExactAtSignature(t.items, current, le, s, k, j, i);
    assert HasOldName(t, current, le, i);
    var m := OldName(t, current, le, i);
    ContinuesIsFunctional(t.items, current, le, j, i, m, i);
  }

  lemma RepeatedClass(t: Trail, current: seq<Cell>, names: seq<Lineage>, s: string, le: (Lineage, Lineage) -> bool)
    requires CarriesOver(t.items, current, names)
    ensures multiset(ClassNames(NamesOf(t, current, le), current, s)) == multiset(ClassNames(names, current, s))
  {
    var places, sorted := NewIndexes(current, s), SortedOld(t.items, s, le);
    ClassSizes(t.items, current, names, s, le);
    ApplyAt(NameIn(NamesOf(t, current, le)), places);
    ApplyAt(NameIn(names), sorted);
    forall k: nat | k < |places|
      ensures NameIn(NamesOf(t, current, le))(places[k]) == NameIn(names)(sorted[k])
    {
      RepeatContinues(t, current, names, s, k, le);
    }
    assert Apply(NameIn(NamesOf(t, current, le)), places) == Apply(NameIn(names), sorted);
    ApplyPermutation(NameIn(names), sorted, places);
  }

  lemma RepeatIsMatched(t: Trail, current: seq<Cell>, names: seq<Lineage>, le: (Lineage, Lineage) -> bool, j: nat)
    requires CarriesOver(t.items, current, names) && j < |t.items|
    ensures HasExactNew(t.items, current, le, j)
  {
    var s := t.items[j].signature;
    ClassSizes(t.items, current, names, s, le);
    SortedOldIndexes(t.items, s, le);
    assert j in SortedOld(t.items, s, le);
    var k: nat :| k < |SortedOld(t.items, s, le)| && SortedOld(t.items, s, le)[k] == j;
    RepeatContinues(t, current, names, s, k, le);
  }

  lemma RepeatIsNamed(t: Trail, current: seq<Cell>, names: seq<Lineage>, le: (Lineage, Lineage) -> bool, i: nat)
    requires CarriesOver(t.items, current, names) && i < |current|
    ensures NameAt(t, current, le, i) in names
  {
    var s := current[i].signature.value;
    NewIndexesAscend(current, s);
    var k: nat :| k < |NewIndexes(current, s)| && NewIndexes(current, s)[k] == i;
    RepeatContinues(t, current, names, s, k, le);
  }

  lemma NextCarriesOver(t: Trail, current: seq<Cell>, le: (Lineage, Lineage) -> bool)
    requires current != [] && Advance(t, current, le).Some?
    ensures var next := Advance(t, current, le).value;
      CarriesOver(next.items, current, NamesOf(t, current, le)) && Members(NamesOf(t, current, le)) <= next.used
    ensures AllSigned(current)
  {
    forall i | 0 <= i < |current| ensures current[i].signature.Some? {
      assert current[i] in current;
    }
  }

  /** The same observations again, repeats included, are accepted, use no new name,
      and every signature keeps its lineages. */
  lemma UnchangedSnapshotRepeats(t: Trail, current: seq<Cell>, le: (Lineage, Lineage) -> bool)
    requires Advance(t, current, le).Some?
    ensures var next := Advance(t, current, le).value;
      && Advance(next, current, le).Some? && Advance(next, current, le).value.used == next.used
      && forall s :: multiset(ClassNames(NamesOf(next, current, le), current, s))
                  == multiset(ClassNames(NamesOf(t, current, le), current, s))
  {
    var next, names := Advance(t, current, le).value, NamesOf(t, current, le);
    if current == [] {
      assert forall s :: NewIndexes(current, s) == [];
    } else {
      NextCarriesOver(t, current, le);
      forall s ensures multiset(ClassNames(NamesOf(next, current, le), current, s)) ==
        multiset(ClassNames(names, current, s)) {
        RepeatedClass(next, current, names, s, le);
      }
      RepeatAdvances(next, current, names, le);
    }
  }

  lemma RepeatAdvances(t: Trail, current: seq<Cell>, names: seq<Lineage>, le: (Lineage, Lineage) -> bool)
    requires CarriesOver(t.items, current, names) && Members(names) <= t.used && AllSigned(current)
    ensures Advance(t, current, le).Some? && Advance(t, current, le).value.used == t.used
  {
    forall j: nat | j < |t.items| ensures HasExactNew(t.items, current, le, j) {
      RepeatIsMatched(t, current, names, le, j);
    }
    AllMatched(t.items, current, le);
    forall i: nat | i < |current| ensures NamesOf(t, current, le)[i] in t.used {
      RepeatIsNamed(t, current, names, le, i);
    }
    assert Members(NamesOf(t, current, le)) <= t.used;
    assert t.used + Members(NamesOf(t, current, le)) == t.used;
  }

  /** The lineages of one signature's repeats in the snapshot after `history`. */
  ghost function ClassLineages(history: History, snapshot: seq<Observation>, g: Group, s: string,
                               le: (Lineage, Lineage) -> bool): seq<Lineage> {
    ClassNames(NamesOf(TrailOf(history, g, le), CellsIn(snapshot, g), le), CellsIn(snapshot, g), s)
  }

  /** A snapshot identical to the one before it is accepted, and the repeats of
      each signature get the lineages they had, as a multiset. */
  lemma RepeatedSnapshotRepeatsLineages(history: History, snapshot: seq<Observation>, le: (Lineage, Lineage) -> bool)
    requires forall g :: Accepted(history + [snapshot], g, le)
    ensures forall g :: Accepted(history + [snapshot] + [snapshot], g, le)
    ensures forall g, s :: multiset(ClassLineages(history + [snapshot], snapshot, g, s, le))
                        == multiset(ClassLineages(history, snapshot, g, s, le))
  {
    forall g ensures Accepted(history + [snapshot] + [snapshot], g, le) {
      RepeatedGroup(history, snapshot, g, le);
    }
    forall g, s ensures multiset(ClassLineages(history + [snapshot], snapshot, g, s, le))
                     == multiset(ClassLineages(history, snapshot, g, s, le))
    {
      RepeatedGroup(history, snapshot, g, le);
    }
  }

  lemma RepeatedGroup(history: History, snapshot: seq<Observation>, g: Group, le: (Lineage, Lineage) -> bool)
    requires Accepted(history + [snapshot], g, le)
    ensures Accepted(history + [snapshot] + [snapshot], g, le)
    ensures forall s :: multiset(ClassLineages(history + [snapshot], snapshot, g, s, le))
                     == multiset(ClassLineages(history, snapshot, g, s, le))
  {
    HistoryGrows(history, snapshot, g, le);
    HistoryGrows(history + [snapshot], snapshot, g, le);
    UnchangedSnapshotRepeats(TrailOf(history, g, le), CellsIn(snapshot, g), le);
  }

  /** These are the resolved lineages of the observations that carry the signature. */
  lemma ClassLineageIsResolved(history: History, snapshot: seq<Observation>, g: Group, s: string, k: nat,
                               le: (Lineage, Lineage) -> bool) returns (i: nat)
    requires k < |ClassLineages(history, snapshot, g, s, le)|
    ensures i < |snapshot| && InGroup(snapshot[i], g) && snapshot[i].signature == Some(s)
    ensures Resolved(history, snapshot, le, i) == Some(ClassLineages(history, snapshot, g, s, le)[k])
  {
    var current := CellsIn(snapshot, g);
    var names := NamesOf(TrailOf(history, g, le), current, le);
    ApplyAt(NameIn(names), NewIndexes(current, s));
    NewIndexesAscend(current, s);
    var x := NewIndexes(current, s)[k];
    assert x in NewIndexes(current, s);
    i := IndexOfCell(snapshot, g, x);
    ResolvedInGroup(history, snapshot, le, i);
  }

  predicate Repeats(q: Observation, o: Observation) {
    q.provisional.Some? && o.provisional.Some? && q.provisional.value.group == o.provisional.value.group
    && q.signature == o.signature
  }

  /** So an observation whose signature occurs once in its group keeps its lineage. */
  lemma OnceKeepsLineage(history: History, snapshot: seq<Observation>, i: nat, le: (Lineage, Lineage) -> bool)
    requires i < |snapshot| && snapshot[i].provisional.Some? && snapshot[i].signature.Some?
    requires Accepted(history + [snapshot], snapshot[i].provisional.value.group, le)
    requires forall k :: 0 <= k < |snapshot| && Repeats(snapshot[k], snapshot[i]) ==> k == i
    ensures Resolved(history + [snapshot], snapshot, le, i) == Resolved(history, snapshot, le, i)
  {
    var g, s := snapshot[i].provisional.value.group, snapshot[i].signature.value;
    RepeatedGroup(history, snapshot, g, le);
    var before, after := ClassLineages(history, snapshot, g, s, le),
      ClassLineages(history + [snapshot], snapshot, g, s, le);
    SameMembers(before, after);
    ClassIsThere(history, snapshot, i, le);
    var x := ClassLineageIsResolved(history, snapshot, g, s, 0, le);
    var y := ClassLineageIsResolved(history + [snapshot], snapshot, g, s, 0, le);
    assert after[0] in after && after[0] in before;
    var k: nat :| k < |before| && before[k] == after[0];
    var z := ClassLineageIsResolved(history, snapshot, g, s, k, le);
  }

  lemma ClassIsThere(history: History, snapshot: seq<Observation>, i: nat, le: (Lineage, Lineage) -> bool)
    requires i < |snapshot| && snapshot[i].provisional.Some? && snapshot[i].signature.Some?
    ensures ClassLineages(history, snapshot, snapshot[i].provisional.value.group, snapshot[i].signature.value, le) != []
  {
    var g, s := snapshot[i].provisional.value.group, snapshot[i].signature.value;
    var current := CellsIn(snapshot, g);
    RankedCell(snapshot, g, i);
    NewIndexesAscend(current, s);
    assert Rank(snapshot, g, i) in NewIndexes(current, s);
    ApplyAt(NameIn(NamesOf(TrailOf(history, g, le), current, le)), NewIndexes(current, s));
  }
}
