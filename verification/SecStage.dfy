/** Which reference lists the SEC stage verifier accepts, said of the references
    and the stored rows they name (sec_refresh_validation.py). */
module SecStage {
  import opened Wrappers
  import opened Sorting
  import opened IntegerSets
  import opened SecClosure

  /** One company's references: its submissions, its history files, its facts. */
  datatype Block = Block(submissions: AssetRef, history: seq<AssetRef>, facts: AssetRef) {
    function Refs(): seq<AssetRef> {
      [submissions] + history + [facts]
    }
  }

  function Layout(blocks: seq<Block>): seq<AssetRef> {
    if blocks == [] then [] else Layout(blocks[..|blocks| - 1]) + blocks[|blocks| - 1].Refs()
  }

  /** The reference names a stored row of that kind and CIK, with the row's own
      checksum, and the row was available and retrieved by the cutoff. */
  predicate Names(ref: AssetRef, kind: Kind, cik: Cik, table: Table, cutoff: Instant) {
    && ref.kind == kind && ref.subject == cik
    && ref.id < |table| && table[ref.id].kind == kind && table[ref.id].subject == cik && table[ref.id].sha == ref.sha
    && table[ref.id].availableAt <= cutoff && table[ref.id].retrievedAt <= cutoff
  }

  /** One reference for every listed filename, in ascending filename order. */
  ghost predicate HistoryIs(history: seq<AssetRef>, cik: Cik, names: seq<Filename>, table: Table, cutoff: Instant) {
    && (forall i :: 0 <= i < |history| ==> Names(history[i], History, cik, table, cutoff))
    && (forall i :: 0 <= i < |history| ==> table[history[i].id].filename.Some?)
    && (forall i, k :: 0 <= i < k < |history| ==>
          table[history[i].id].filename.value < table[history[k].id].filename.value)
    && (forall n :: n in names <==> exists i :: 0 <= i < |history| && table[history[i].id].filename == Some(n))
  }

  ghost predicate BlockFits(b: Block, cik: Cik, files: Listing, table: Table, cutoff: Instant) {
    && Names(b.submissions, Submissions, cik, table, cutoff) && Names(b.facts, CompanyFacts, cik, table, cutoff)
    && files(b.submissions.sha).Some?
    && HistoryIs(b.history, cik, files(b.submissions.sha).value, table, cutoff)
  }

  /** The mapping's own reference first, then one block for every CIK in their order. */
  ghost predicate Lays(refs: seq<AssetRef>, mapping: Asset, ciks: seq<Cik>, files: Listing, table: Table,
                       cutoff: Instant, blocks: seq<Block>) {
    && |blocks| == |ciks|
    && (forall i :: 0 <= i < |ciks| ==> BlockFits(blocks[i], ciks[i], files, table, cutoff))
    && |refs| == 1 + |Layout(blocks)| && refs[1..] == Layout(blocks)
    && refs[0].id == mapping.id && refs[0].kind == mapping.kind && refs[0].subject == mapping.subject
    && refs[0].sha == mapping.sha
  }

  ghost predicate StageAccepts(refs: seq<AssetRef>, mapping: Asset, ciks: seq<Cik>, files: Listing, table: Table,
                               cutoff: Instant) {
    && mapping.availableAt <= cutoff && mapping.retrievedAt <= cutoff
    && exists blocks :: Lays(refs, mapping, ciks, files, table, cutoff, blocks)
  }

  // ---------------------------------------------------------------------
  // From companies to blocks
  // ---------------------------------------------------------------------

  function BlockOf(c: Company): Block {
    Block(RefFor(c.submissions), RefsOf(c.history), RefFor(c.facts))
  }

  lemma StoredIsNamed(a: Asset, table: Table, cutoff: Instant)
    requires Stored(table, a) && a.availableAt <= cutoff && a.retrievedAt <= cutoff
    ensures Names(RefFor(a), a.kind, a.subject, table, cutoff) && table[RefFor(a).id] == a
  {
  }

  /** History files admitted in filename order. */
  ghost predicate FilesInOrder(history: seq<Asset>, cik: Cik, sorted: seq<int>, table: Table, cutoff: Instant) {
    && |history| == |sorted|
    && forall i :: 0 <= i < |history| ==>
         && history[i].kind == History && history[i].subject == cik && history[i].filename == Some(sorted[i])
         && Stored(table, history[i]) && history[i].availableAt <= cutoff && history[i].retrievedAt <= cutoff
  }

  lemma FittingHistory(history: seq<Asset>, cik: Cik, names: seq<Filename>, table: Table, cutoff: Instant)
    requires FilesInOrder(history, cik, SortedNames(names), table, cutoff)
    ensures HistoryIs(RefsOf(history), cik, names, table, cutoff)
  {
    var refs, sorted := RefsOf(history), SortedNames(names);
    SortedNamesMembers(names);
    NamesAscend(names);
    forall i | 0 <= i < |refs|
      ensures Names(refs[i], History, cik, table, cutoff) && table[refs[i].id].filename == Some(sorted[i])
    {
      StoredIsNamed(history[i], table, cutoff);
    }
    forall n | n in names ensures exists i :: 0 <= i < |refs| && table[refs[i].id].filename == Some(n) {
      var i :| 0 <= i < |sorted| && sorted[i] == n;
      assert table[refs[i].id].filename == Some(n);
    }
  }

  lemma FittingBlock(c: Company, cik: Cik, files: Listing, table: Table, cutoff: Instant)
    requires CompanyFits(c, cik, files) && Admitted(c.Assets(), table, cutoff)
    ensures BlockFits(BlockOf(c), cik, files, table, cutoff)
  {
    assert c.submissions in c.Assets() && c.facts in c.Assets();
    forall i | 0 <= i < |c.history| ensures c.history[i] in c.Assets() {
      assert c.Assets()[i + 1] == c.history[i];
    }
    FittingHistory(c.history, cik, files(c.submissions.sha).value, table, cutoff);
  }

  lemma BlockRefs(c: Company)
    ensures BlockOf(c).Refs() == RefsOf(c.Assets())
  {
  }

  lemma {:induction false} LayoutIsRefs(companies: seq<Company>, blocks: seq<Block>)
    requires BlocksAre(blocks, companies)
    ensures Layout(blocks) == RefsOf(AssetsOf(companies))
  {
    if companies != [] {
      var n := |companies| - 1;
      LayoutIsRefs(companies[..n], blocks[..n]);
      BlockRefs(companies[n]);
    }
  }

  lemma {:induction false} CompanyWithin(companies: seq<Company>, i: nat, a: Asset)
    requires i < |companies| && a in companies[i].Assets()
    ensures a in AssetsOf(companies)
  {
    if i < |companies| - 1 {
      CompanyWithin(companies[..|companies| - 1], i, a);
    }
  }

  lemma CanonicalLays(refs: seq<AssetRef>, mapping: Asset, ciks: seq<Cik>, companies: seq<Company>, files: Listing,
                      table: Table, cutoff: Instant)
    requires Canonical(refs, mapping, ciks, companies, files) && Admitted(AssetsOf(companies), table, cutoff)
    ensures exists blocks :: Lays(refs, mapping, ciks, files, table, cutoff, blocks)
  {
    var blocks := seq(|companies|, i requires 0 <= i < |companies| => BlockOf(companies[i]));
    forall i | 0 <= i < |ciks| ensures BlockFits(blocks[i], ciks[i], files, table, cutoff) {
      forall a | a in companies[i].Assets() ensures a in AssetsOf(companies) { CompanyWithin(companies, i, a); }
      FittingBlock(companies[i], ciks[i], files, table, cutoff);
    }
    LayoutIsRefs(companies, blocks);
    assert Lays(refs, mapping, ciks, files, table, cutoff, blocks);
  }

  // ---------------------------------------------------------------------
  // From blocks to companies
  // ---------------------------------------------------------------------

  ghost predicate SameElements(a: seq<int>, b: seq<int>) {
    forall x :: x in a <==> x in b
  }

  lemma {:induction false} AscendingIsUnique(a: seq<int>, b: seq<int>)
    requires Ascending(a) && Ascending(b) && SameElements(a, b)
    ensures a == b
  {
    assert a != [] ==> a[|a| - 1] in a;
    assert b != [] ==> b[|b| - 1] in b;
    if a != [] && b != [] {
      FrontOf(a);
      FrontOf(b);
      var front, rest := a[..|a| - 1], b[..|b| - 1];
      assert a[|a| - 1] in b && b[|b| - 1] in a;
      assert a[|a| - 1] == b[|b| - 1];
      assert SameElements(front, rest) by {
        forall x ensures x in front <==> x in rest {
          assert x in front <==> x in a && x != a[|a| - 1];
          assert x in rest <==> x in b && x != b[|b| - 1];
        }
      }
      AscendingIsUnique(front, rest);
    }
  }

  lemma FrontOf(a: seq<int>)
    requires Ascending(a) && a != []
    ensures a == a[..|a| - 1] + [a[|a| - 1]]
    ensures forall x :: x in a[..|a| - 1] <==> x in a && x != a[|a| - 1]
    ensures forall x :: x in a ==> x <= a[|a| - 1]
  {
    assert a == a[..|a| - 1] + [a[|a| - 1]];
  }

  function NameAt(ref: AssetRef, table: Table): int {
    if ref.id < |table| && table[ref.id].filename.Some? then table[ref.id].filename.value else 0
  }

  function NamesAt(history: seq<AssetRef>, table: Table): (names: seq<int>)
    ensures |names| == |history| && forall i :: 0 <= i < |history| ==> names[i] == NameAt(history[i], table)
  {
    seq(|history|, i requires 0 <= i < |history| => NameAt(history[i], table))
  }

  lemma NamesOfHistory(history: seq<AssetRef>, cik: Cik, names: seq<Filename>, table: Table, cutoff: Instant)
    requires HistoryIs(history, cik, names, table, cutoff)
    ensures Ascending(NamesAt(history, table)) && SameElements(NamesAt(history, table), SortedNames(names))
    ensures forall i :: 0 <= i < |history| ==> table[history[i].id].filename == Some(NamesAt(history, table)[i])
  {
    var found := NamesAt(history, table);
    SortedNamesMembers(names);
    forall x ensures x in found <==> x in SortedNames(names) {
      if x in names {
        var i :| 0 <= i < |history| && table[history[i].id].filename == Some(x);
        assert found[i] == x;
      }
    }
  }

  lemma HistoryNames(history: seq<AssetRef>, cik: Cik, names: seq<Filename>, table: Table, cutoff: Instant)
    requires HistoryIs(history, cik, names, table, cutoff)
    ensures |history| == |SortedNames(names)|
    ensures forall i :: 0 <= i < |history| ==> table[history[i].id].filename == Some(SortedNames(names)[i])
  {
    NamesOfHistory(history, cik, names, table, cutoff);
    NamesAscend(names);
    AscendingIsUnique(NamesAt(history, table), SortedNames(names));
  }

  /** The rows a fitting block names make up a company. */
  lemma BlockNames(b: Block, cik: Cik, files: Listing, table: Table, cutoff: Instant) returns (c: Company)
    requires ValidTable(table) && BlockFits(b, cik, files, table, cutoff)
    ensures CompanyFits(c, cik, files) && Admitted(c.Assets(), table, cutoff) && BlockOf(c) == b
  {
    var history := seq(|b.history|, i requires 0 <= i < |b.history| =>
      if b.history[i].id < |table| then table[b.history[i].id] else table[b.facts.id]);
    c := Company(table[b.submissions.id], history, table[b.facts.id]);
    HistoryNames(b.history, cik, files(b.submissions.sha).value, table, cutoff);
    forall i | 0 <= i < |history| ensures RefFor(history[i]) == b.history[i] {
      assert Names(b.history[i], History, cik, table, cutoff);
    }
    forall a | a in c.Assets() ensures Stored(table, a) && a.availableAt <= cutoff && a.retrievedAt <= cutoff {
      if a in history {
        var i :| 0 <= i < |history| && history[i] == a;
        assert Names(b.history[i], History, cik, table, cutoff);
      }
    }
    assert RefsOf(c.history) == b.history;
  }

  ghost predicate BlocksFit(blocks: seq<Block>, ciks: seq<Cik>, files: Listing, table: Table, cutoff: Instant) {
    |blocks| == |ciks| && forall i :: 0 <= i < |ciks| ==> BlockFits(blocks[i], ciks[i], files, table, cutoff)
  }

  ghost predicate BlocksAre(blocks: seq<Block>, companies: seq<Company>) {
    |blocks| == |companies| && forall i :: 0 <= i < |companies| ==> blocks[i] == BlockOf(companies[i])
  }

  lemma AdmittedTogether(front: seq<Company>, c: Company, table: Table, cutoff: Instant)
    requires Admitted(AssetsOf(front), table, cutoff) && Admitted(c.Assets(), table, cutoff)
    ensures Admitted(AssetsOf(front + [c]), table, cutoff)
  {
    assert (front + [c])[..|front|] == front;
  }

  lemma {:induction false} BlocksName(blocks: seq<Block>, ciks: seq<Cik>, files: Listing, table: Table, cutoff: Instant)
    returns (companies: seq<Company>)
    requires ValidTable(table) && BlocksFit(blocks, ciks, files, table, cutoff)
    ensures AllFit(companies, ciks, files) && Admitted(AssetsOf(companies), table, cutoff)
    ensures BlocksAre(blocks, companies)
  {
    companies := [];
    if blocks != [] {
      var n := |blocks| - 1;
      FrontFits(blocks, ciks, files, table, cutoff);
      var front := BlocksName(blocks[..n], ciks[..n], files, table, cutoff);
      var c := BlockNames(blocks[n], ciks[n], files, table, cutoff);
      AdmittedTogether(front, c, table, cutoff);
      OneMoreFits(blocks, ciks, files, front, c);
      companies := front + [c];
    }
  }

  lemma OneMoreFits(blocks: seq<Block>, ciks: seq<Cik>, files: Listing, front: seq<Company>, c: Company)
    requires blocks != [] && |blocks| == |ciks|
    requires AllFit(front, ciks[..|ciks| - 1], files) && BlocksAre(blocks[..|blocks| - 1], front)
    requires CompanyFits(c, ciks[|ciks| - 1], files) && blocks[|blocks| - 1] == BlockOf(c)
    ensures AllFit(front + [c], ciks, files) && BlocksAre(blocks, front + [c])
  {
  }

  lemma FrontFits(blocks: seq<Block>, ciks: seq<Cik>, files: Listing, table: Table, cutoff: Instant)
    requires BlocksFit(blocks, ciks, files, table, cutoff) && blocks != []
    ensures BlocksFit(blocks[..|blocks| - 1], ciks[..|ciks| - 1], files, table, cutoff)
    ensures BlockFits(blocks[|blocks| - 1], ciks[|ciks| - 1], files, table, cutoff)
  {
  }

  lemma ListIs(refs: seq<AssetRef>, mapping: Asset, body: seq<AssetRef>)
    requires refs != [] && refs[1..] == body && refs[0] == RefFor(mapping)
    ensures refs == [RefFor(mapping)] + body
  {
  }

  lemma LaysCanonical(refs: seq<AssetRef>, mapping: Asset, ciks: seq<Cik>, blocks: seq<Block>, files: Listing,
                      table: Table, cutoff: Instant)
    requires ValidTable(table) && Lays(refs, mapping, ciks, files, table, cutoff, blocks)
    ensures exists companies ::
      Canonical(refs, mapping, ciks, companies, files) && Admitted(AssetsOf(companies), table, cutoff)
  {
    var companies := BlocksName(blocks, ciks, files, table, cutoff);
    LayoutIsRefs(companies, blocks);
    ListIs(refs, mapping, RefsOf(AssetsOf(companies)));
    assert Canonical(refs, mapping, ciks, companies, files);
  }

  /** The stage verifier accepts exactly the lists laid out in blocks. */
  lemma StageByBlocks(refs: seq<AssetRef>, mapping: Asset, ciks: seq<Cik>, files: Listing, table: Table,
                      cutoff: Instant)
    requires ValidTable(table)
    ensures StageHolds(refs, mapping, ciks, files, table, cutoff) <==>
      StageAccepts(refs, mapping, ciks, files, table, cutoff)
  {
    if StageHolds(refs, mapping, ciks, files, table, cutoff) {
      var companies :| Canonical(refs, mapping, ciks, companies, files)
        && Admitted(AssetsOf(companies), table, cutoff);
      CanonicalLays(refs, mapping, ciks, companies, files, table, cutoff);
    }
    if StageAccepts(refs, mapping, ciks, files, table, cutoff) {
      var blocks :| Lays(refs, mapping, ciks, files, table, cutoff, blocks);
      LaysCanonical(refs, mapping, ciks, blocks, files, table, cutoff);
    }
  }
}
