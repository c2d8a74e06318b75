/** What the liquidity producer and its verifier promise, said of the provider's
    answers, the receipts and the entries alone (liquidity_evidence.py): which
    failures stop the plan, what each entry reports, and which batches pass. */
module LiquidityOutcome {
  import opened Wrappers
  import opened Sorting
  import opened LiquidityEvidence

  // ---------------------------------------------------------------------
  // One symbol's two requests
  // ---------------------------------------------------------------------

  /** Both responses of the symbol were stored. */
  predicate Pair(world: World, symbol: Symbol, a: Asset, b: Asset) {
    world.fetch(symbol, Splits) == Stored(a) && world.fetch(symbol, Unadjusted) == Stored(b)
  }

  predicate Fails(fetch: Fetch, failure: Failure) {
    fetch == KeyFails(failure) || fetch == ResponseFails(failure)
  }

  /** The canary's stored pair could not be read back. */
  ghost predicate ControlFails(world: World, failure: Failure) {
    exists a: Asset, b: Asset :: Pair(world, "NVDA", a, b) && world.control(a, b) == Some(failure)
  }

  /** The failure that ends a symbol's turn: of its split request, of its unadjusted
      request after a stored split, or of reading the control pair back. */
  ghost predicate Raises(world: World, symbol: Symbol, failure: Failure) {
    || Fails(world.fetch(symbol, Splits), failure)
    || (world.fetch(symbol, Splits).Stored? && Fails(world.fetch(symbol, Unadjusted), failure))
    || (symbol == "NVDA" && ControlFails(world, failure))
  }

  ghost predicate CanaryPasses(world: World) {
    exists a: Asset, b: Asset :: Pair(world, "NVDA", a, b) && world.control(a, b).None? && world.assess(a, b) == Matched
  }

  lemma TurnByFields(plan: Plan, world: World, symbol: Symbol)
    ensures forall f :: Try(plan, world, symbol).raised == Some(f) <==> Raises(world, symbol, f)
    ensures forall a: Asset :: Try(plan, world, symbol).split == Some(a) <==> world.fetch(symbol, Splits) == Stored(a)
    ensures forall b: Asset :: Try(plan, world, symbol).unadjusted == Some(b) <==>
      exists a: Asset :: Pair(world, symbol, a, b)
  {
    forall f ensures Try(plan, world, symbol).raised == Some(f) <==> Raises(world, symbol, f) {
      if world.fetch(symbol, Splits).Stored? && world.fetch(symbol, Unadjusted).Stored? {
        assert Pair(world, symbol, world.fetch(symbol, Splits).asset, world.fetch(symbol, Unadjusted).asset);
      }
    }
    forall b: Asset ensures Try(plan, world, symbol).unadjusted == Some(b) <==>
      exists a: Asset :: Pair(world, symbol, a, b) {
      if Try(plan, world, symbol).unadjusted == Some(b) {
        assert Pair(world, symbol, world.fetch(symbol, Splits).asset, b);
      }
    }
  }

  lemma CanaryByFields(plan: Plan, world: World)
    ensures ControlMatched(plan, world) <==> CanaryPasses(world)
  {
    if ControlMatched(plan, world) {
      var a, b := world.fetch("NVDA", Splits).asset, world.fetch("NVDA", Unadjusted).asset;
      assert Pair(world, "NVDA", a, b);
    }
  }

  /** No further symbol is requested after a quota or configuration failure, nor
      after a canary that did not match; a verification failure or an exception
      of another kind leaves the producer. */
  lemma StopsByFields(plan: Plan, world: World, symbol: Symbol)
    ensures Stops(plan, world, symbol) <==>
      || Raises(world, symbol, Quota) || Raises(world, symbol, Configuration) || Raises(world, symbol, Verification)
      || Raises(world, symbol, Uncaught) || Raises(world, symbol, UnclosedReceipts)
      || (symbol == "NVDA" && !CanaryPasses(world))
    ensures Escapes(plan, world, symbol) <==>
      Raises(world, symbol, Verification) || Raises(world, symbol, Uncaught) || Raises(world, symbol, UnclosedReceipts)
  {
    TurnByFields(plan, world, symbol);
    CanaryByFields(plan, world);
  }

  // ---------------------------------------------------------------------
  // What a returning run reports
  // ---------------------------------------------------------------------

  predicate WitnessIsListed(plan: Plan) {
    "NVDA" in plan.requested && "NVDA" in plan.listed
  }

  /** The symbols that are requested: listed ones, the canary first, up to the first stop. */
  ghost predicate IsRequested(plan: Plan, world: World, symbol: Symbol) {
    && world.preflight.None? && WitnessIsListed(plan) && symbol in plan.requested && symbol in plan.listed
    && forall other :: other in plan.requested && other in plan.listed && ComesBefore(plan, other, symbol) ==>
         !Stops(plan, world, other)
  }

  /** The canary comes before every other symbol, and those come in requested order. */
  ghost predicate ComesBefore(plan: Plan, a: Symbol, b: Symbol) {
    b != "NVDA" && a != b && (a == "NVDA" || Ahead(plan.requested, a, b))
  }

  ghost predicate Ahead(xs: seq<Symbol>, a: Symbol, b: Symbol) {
    exists i, k :: 0 <= i < k < |xs| && xs[i] == a && xs[k] == b
  }

  lemma {:induction false} KeptInOrder(xs: seq<Symbol>, p: Symbol -> bool, a: Symbol, b: Symbol)
    requires p(a) && p(b)
    ensures Ahead(Keep(xs, p), a, b) <==> Ahead(xs, a, b)
  {
    if xs != [] {
      var rest := xs[1..];
      KeptInOrder(rest, p, a, b);
      AheadOrFirst(xs, a, b);
      if p(xs[0]) {
        AheadOrFirst(Keep(xs, p), a, b);
        assert Keep(xs, p)[1..] == Keep(rest, p);
      }
    }
  }

  lemma AheadOrFirst(xs: seq<Symbol>, a: Symbol, b: Symbol)
    requires xs != []
    ensures Ahead(xs, a, b) <==> Ahead(xs[1..], a, b) || (xs[0] == a && b in xs[1..])
  {
    if Ahead(xs, a, b) {
      var i, k :| 0 <= i < k < |xs| && xs[i] == a && xs[k] == b;
      assert xs[1..][k - 1] == b;
      assert i > 0 ==> xs[1..][i - 1] == a;
    }
    if Ahead(xs[1..], a, b) {
      var i, k :| 0 <= i < k < |xs[1..]| && xs[1..][i] == a && xs[1..][k] == b;
      assert xs[i + 1] == a && xs[k + 1] == b;
    }
    if xs[0] == a && b in xs[1..] {
      var k :| 0 <= k < |xs[1..]| && xs[1..][k] == b;
      assert xs[k + 1] == b;
    }
  }

  lemma OrderIsDistinct(plan: Plan)
    requires plan.Valid()
    ensures Distinct(plan.Listings()) && Distinct(WitnessFirst(plan.Listings()))
  {
    KeepDistinct(plan.requested, s => s in plan.listed);
    CanaryThenDistinct(plan.Listings());
  }

  lemma CanaryThenDistinct(listings: seq<Symbol>)
    requires Distinct(listings)
    ensures Distinct(WitnessFirst(listings))
  {
    var others, order := Keep(listings, s => s != WITNESS), WitnessFirst(listings);
    KeepDistinct(listings, s => s != WITNESS);
    forall i, j | 0 <= i < j < |order| ensures order[i] != order[j] {
      assert order[j] == others[j - 1] && others[j - 1] in others;
      assert i > 0 ==> order[i] == others[i - 1];
    }
  }

  lemma CanaryAhead(listings: seq<Symbol>, a: Symbol, b: Symbol)
    requires a in listings && b in listings && (a == WITNESS || b == WITNESS)
    ensures Ahead(WitnessFirst(listings), a, b) <==> a == WITNESS && b != WITNESS
  {
    var others, order := Keep(listings, s => s != WITNESS), WitnessFirst(listings);
    assert order[1..] == others;
    AheadOrFirst(order, a, b);
    if Ahead(others, a, b) {
      AheadAreMembers(others, a, b);
    }
  }

  lemma OthersAhead(plan: Plan, a: Symbol, b: Symbol)
    requires a in plan.Listings() && b in plan.Listings() && a != WITNESS && b != WITNESS
    ensures Ahead(WitnessFirst(plan.Listings()), a, b) <==> Ahead(plan.requested, a, b)
  {
    var order := WitnessFirst(plan.Listings());
    assert order[1..] == Keep(plan.Listings(), s => s != WITNESS);
    AheadOrFirst(order, a, b);
    KeptInOrder(plan.requested, s => s in plan.listed, a, b);
    KeptInOrder(plan.Listings(), s => s != WITNESS, a, b);
  }

  /** The request order lists the canary first and the others as they were requested. */
  lemma OrderOfRequests(plan: Plan, a: Symbol, b: Symbol)
    requires plan.Valid() && a in plan.Listings() && b in plan.Listings()
    ensures Ahead(WitnessFirst(plan.Listings()), a, b) <==> ComesBefore(plan, a, b)
  {
    if a == WITNESS || b == WITNESS {
      CanaryAhead(plan.Listings(), a, b);
    } else {
      OthersAhead(plan, a, b);
      if Ahead(plan.requested, a, b) {
        DistinctAhead(plan.requested, a, b);
      }
    }
  }

  lemma AheadAt(order: seq<Symbol>, i: nat, a: Symbol)
    requires Distinct(order) && i < |order|
    ensures Ahead(order, a, order[i]) <==> exists j :: 0 <= j < i && order[j] == a
  {
    if Ahead(order, a, order[i]) {
      var j, k :| 0 <= j < k < |order| && order[j] == a && order[k] == order[i];
      assert k < i || i < k || k == i;
    }
  }

  lemma ListedMembers(plan: Plan)
    requires WitnessIsListed(plan)
    ensures forall s :: s in WitnessFirst(plan.Listings()) <==> s in plan.requested && s in plan.listed
  {
    var others := Keep(plan.Listings(), s => s != WITNESS);
    assert forall s :: s in WitnessFirst(plan.Listings()) <==> s == WITNESS || s in others;
  }

  /** Which symbols are requested. */
  lemma RequestedByFields(plan: Plan, world: World, symbol: Symbol)
    requires plan.Valid()
    ensures symbol in Attempted(plan, world) <==> IsRequested(plan, world, symbol)
  {
    AttemptedAreListed(plan, world);
    if world.preflight.None? && WitnessIsListed(plan) && symbol in plan.requested && symbol in plan.listed {
      var order := WitnessFirst(plan.Listings());
      OrderIsDistinct(plan);
      ListedMembers(plan);
      var i: nat :| i < |order| && order[i] == symbol;
      RequestedExactly(plan, world, i);
      forall other | other in plan.requested && other in plan.listed
        ensures ComesBefore(plan, other, symbol) <==> exists j :: 0 <= j < i && order[j] == other
      {
        OrderOfRequests(plan, other, symbol);
        AheadAt(order, i, other);
      }
      forall j | 0 <= j < i ensures order[j] in plan.requested && order[j] in plan.listed {
        assert order[j] in order;
      }
    }
  }

  lemma DistinctAhead(xs: seq<Symbol>, a: Symbol, b: Symbol)
    requires Distinct(xs) && Ahead(xs, a, b)
    ensures a != b
  {
  }

  lemma AheadAreMembers(xs: seq<Symbol>, a: Symbol, b: Symbol)
    requires Ahead(xs, a, b)
    ensures a in xs && b in xs
  {
  }

  function StartFor(plan: Plan, symbol: Symbol, mode: Mode): Date {
    match mode
    case Splits => plan.historyStart
    case Unadjusted => if symbol == "NVDA" then plan.witnessStart else plan.firstSession
  }

  /** A receipt is left for every request whose key could be had, with what it stored. */
  predicate Receives(plan: Plan, fetch: Fetch, r: Receipt) {
    && !fetch.KeyFails? && r.start == StartFor(plan, r.symbol, r.mode) && r.end == plan.target
    && r.asset == if fetch.Stored? then Some(fetch.asset) else None
  }

  /** The receipts of a requested symbol: one of its split request, and after a
      stored split one of its unadjusted request. */
  predicate IsReceipt(plan: Plan, world: World, r: Receipt) {
    && Receives(plan, world.fetch(r.symbol, r.mode), r)
    && (r.mode == Unadjusted ==> world.fetch(r.symbol, Splits).Stored?)
  }

  lemma TurnReceipts(plan: Plan, world: World, r: Receipt)
    ensures r in Try(plan, world, r.symbol).receipts <==> IsReceipt(plan, world, r)
  {
  }

  lemma ReceiptsByFields(plan: Plan, world: World, r: Receipt)
    requires plan.Valid()
    ensures r in ReceiptsOf(plan, world, Attempted(plan, world)) <==>
      IsRequested(plan, world, r.symbol) && IsReceipt(plan, world, r)
  {
    ReceiptsByTrial(plan, world, Attempted(plan, world), r);
    RequestedByFields(plan, world, r.symbol);
    TurnReceipts(plan, world, r);
  }

  /** What the entry of a symbol says of the provider's answers. */
  ghost predicate Reports(plan: Plan, world: World, e: Entry) {
    && (e.listed <==> e.symbol in plan.listed)
    && if IsRequested(plan, world, e.symbol) then
         && (forall a: Asset :: e.split == Some(a) <==> world.fetch(e.symbol, Splits) == Stored(a))
         && (forall b: Asset :: e.unadjusted == Some(b) <==> exists a: Asset :: Pair(world, e.symbol, a, b))
         && (Raises(world, e.symbol, Quota) ==> e.reasons == [QuotaUnavailable])
         && (Raises(world, e.symbol, Configuration) ==> e.reasons == [ProviderUnavailable])
         && (Raises(world, e.symbol, Provider) || Raises(world, e.symbol, Value) ==> e.reasons == [PayloadInvalid])
         && (e.reasons == [] <==> forall f :: !Raises(world, e.symbol, f))
       else
         && e.split.None? && e.unadjusted.None?
         && (e.listed && world.preflight == Some(Quota) ==> e.reasons == [QuotaUnavailable])
         && (e.listed && world.preflight == Some(Configuration) ==> e.reasons == [ProviderUnavailable])
         && (!e.listed || world.preflight.None? ==> e.reasons == [])
  }

  lemma EntryByFields(plan: Plan, world: World, symbol: Symbol)
    requires plan.Valid()
    ensures Reports(plan, world, EntryOf(plan, world, symbol)) && EntryOf(plan, world, symbol).symbol == symbol
  {
    RequestedByFields(plan, world, symbol);
    if IsRequested(plan, world, symbol) {
      TurnByFields(plan, world, symbol);
      var raised := Try(plan, world, symbol).raised;
      assert raised.Some? ==> Raises(world, symbol, raised.value);
    }
  }

  predicate Leaving(failure: Failure) {
    failure == Verification || failure == Uncaught || failure == UnclosedReceipts
  }

  /** The exception that leaves the producer: of a preflight that is neither a
      quota nor a configuration failure, or a requested symbol's that is not recorded. */
  ghost predicate Aborts(plan: Plan, world: World, failure: Failure) {
    || (world.preflight == Some(failure) && failure != Quota && failure != Configuration
        && exists s :: s in plan.requested && s in plan.listed)
    || (Leaving(failure) && exists s :: IsRequested(plan, world, s) && Raises(world, s, failure))
  }

  lemma {:induction false} StopIsLast(plan: Plan, world: World, order: seq<Symbol>, symbol: Symbol)
    requires symbol in Until(plan, world, order) && Stops(plan, world, symbol)
    ensures symbol == Last(Until(plan, world, order))
  {
    if !Stops(plan, world, order[0]) {
      StopIsLast(plan, world, order[1..], symbol);
    }
  }

  ghost predicate SomeLeaves(plan: Plan, world: World, failure: Failure) {
    Leaving(failure) && exists s :: IsRequested(plan, world, s) && Raises(world, s, failure)
  }

  ghost predicate LeavesWith(plan: Plan, world: World, failure: Failure) {
    Escaped(plan, world) && Try(plan, world, Last(Attempted(plan, world))).raised == Some(failure)
  }

  lemma EscapeOfLast(plan: Plan, world: World, failure: Failure)
    requires plan.Valid() && LeavesWith(plan, world, failure)
    ensures SomeLeaves(plan, world, failure)
  {
    var last := Last(Attempted(plan, world));
    RequestedByFields(plan, world, last);
    TurnByFields(plan, world, last);
  }

  lemma EscapeOfSome(plan: Plan, world: World, failure: Failure, symbol: Symbol)
    requires plan.Valid() && IsRequested(plan, world, symbol) && Leaving(failure) && Raises(world, symbol, failure)
    ensures LeavesWith(plan, world, failure)
  {
    RequestedByFields(plan, world, symbol);
    TurnByFields(plan, world, symbol);
    StopIsLast(plan, world, WitnessFirst(plan.Listings()), symbol);
  }

  lemma EscapeByFields(plan: Plan, world: World, failure: Failure)
    requires plan.Valid()
    ensures LeavesWith(plan, world, failure) <==> SomeLeaves(plan, world, failure)
  {
    if LeavesWith(plan, world, failure) {
      EscapeOfLast(plan, world, failure);
    }
    if SomeLeaves(plan, world, failure) {
      var s :| IsRequested(plan, world, s) && Raises(world, s, failure);
      EscapeOfSome(plan, world, failure, s);
    }
  }

  lemma AbortsByFields(plan: Plan, world: World, failure: Failure)
    requires plan.Valid()
    ensures Leaves(plan, world) == Some(failure) <==> Aborts(plan, world, failure)
  {
    if plan.Listings() != [] {
      assert plan.Listings()[0] in plan.Listings();
    }
    EscapeByFields(plan, world, failure);
    assert world.preflight.Some? ==> !Escaped(plan, world) && !SomeLeaves(plan, world, failure);
    assert Escaped(plan, world) ==> Try(plan, world, Last(Attempted(plan, world))).raised.Some?;
  }

  /** One whole acquisition from an attempt without receipts: it is left with the
      exception that aborts it, or every requested symbol has its entry and
      exactly the receipts of the requests that were made. */
  method AcquireAndReport(acquisition: Acquisition, plan: Plan, world: World)
    returns (result: Result<seq<Entry>, Failure>)
    requires plan.Valid() && acquisition.receipts == []
    requires acquisition.freshSplits == map[] && acquisition.freshOthers == map[] && acquisition.failures == map[]
    modifies acquisition
    ensures forall f :: result == Err(f) <==> Aborts(plan, world, f)
    ensures result.Ok? ==>
      && |result.value| == |plan.requested|
      && (forall i :: 0 <= i < |result.value| ==>
            result.value[i].symbol == plan.requested[i] && Reports(plan, world, result.value[i]))
      && (forall r :: r in acquisition.receipts <==> IsRequested(plan, world, r.symbol) && IsReceipt(plan, world, r))
  {
    result := acquisition.AcquirePairs(plan, world);
    forall f ensures Leaves(plan, world) == Some(f) <==> Aborts(plan, world, f) {
      AbortsByFields(plan, world, f);
    }
    forall s ensures Reports(plan, world, EntryOf(plan, world, s)) && EntryOf(plan, world, s).symbol == s {
      EntryByFields(plan, world, s);
    }
    forall r ensures r in ReceiptsOf(plan, world, Attempted(plan, world)) <==>
        IsRequested(plan, world, r.symbol) && IsReceipt(plan, world, r) {
      ReceiptsByFields(plan, world, r);
    }
  }

  // ---------------------------------------------------------------------
  // Which batches pass
  // ---------------------------------------------------------------------

  /** The receipts of a batch: within the captured scope, none twice, the canary's
      first and then in requested order, and an unadjusted one right after the
      split it belongs to. */
  ghost predicate InPlan(plan: Plan, receipts: seq<Receipt>) {
    && (forall i :: 0 <= i < |receipts| ==>
          && receipts[i].symbol in plan.requested && receipts[i].end == plan.target
          && receipts[i].start == StartFor(plan, receipts[i].symbol, receipts[i].mode))
    && (forall i, k :: 0 <= i < k < |receipts| ==>
          if receipts[i].symbol == receipts[k].symbol then receipts[i].mode == Splits && receipts[k].mode == Unadjusted
          else ComesBefore(plan, receipts[i].symbol, receipts[k].symbol))
    && (forall k :: 0 <= k < |receipts| && receipts[k].mode == Unadjusted ==>
          && k > 0 && receipts[k - 1].symbol == receipts[k].symbol
          && receipts[k - 1].mode == Splits && receipts[k - 1].asset.Some?)
  }

  lemma RankIsOrder(plan: Plan, a: Symbol, b: Symbol)
    requires plan.Valid() && a in plan.requested && b in plan.requested && a != b
    ensures Rank(plan, a) < Rank(plan, b) <==> ComesBefore(plan, a, b)
  {
    var order := WitnessFirst(plan.requested);
    CanaryThenDistinct(plan.requested);
    PositionAhead(order, a, b);
    if a == WITNESS || b == WITNESS {
      CanaryAhead(plan.requested, a, b);
    } else {
      assert order[1..] == Keep(plan.requested, s => s != WITNESS);
      AheadOrFirst(order, a, b);
      KeptInOrder(plan.requested, s => s != WITNESS, a, b);
    }
  }

  lemma PositionAhead(xs: seq<Symbol>, a: Symbol, b: Symbol)
    requires Distinct(xs) && a in xs && b in xs
    ensures Position(xs, a) < Position(xs, b) <==> Ahead(xs, a, b)
  {
    if Ahead(xs, a, b) {
      var i, k :| 0 <= i < k < |xs| && xs[i] == a && xs[k] == b;
      assert xs[Position(xs, a)] == xs[i] && xs[Position(xs, b)] == xs[k];
      assert Position(xs, a) == i && Position(xs, b) == k;
    }
  }

  lemma SameRankIsSame(plan: Plan, a: Symbol, b: Symbol)
    requires a in plan.requested && b in plan.requested && Rank(plan, a) == Rank(plan, b)
    ensures a == b
  {
  }

  /** The ranks never fall along accepted receipts. */
  lemma {:induction false} RanksAscend(plan: Plan, receipts: seq<Receipt>, i: nat, k: nat)
    requires ReceiptsHold(plan, receipts) && i <= k < |receipts|
    ensures receipts[i].symbol in plan.requested && receipts[k].symbol in plan.requested
    ensures Rank(plan, receipts[i].symbol) <= Rank(plan, receipts[k].symbol)
  {
    assert ReceiptHolds(plan, receipts, i) && ReceiptHolds(plan, receipts, k);
    if i < k {
      RanksAscend(plan, receipts, i, k - 1);
    }
  }

  lemma PairInPlan(plan: Plan, receipts: seq<Receipt>, i: nat, k: nat)
    requires plan.Valid() && ReceiptsHold(plan, receipts) && i < k < |receipts|
    ensures if receipts[i].symbol == receipts[k].symbol then receipts[i].mode == Splits
      && receipts[k].mode == Unadjusted
      else ComesBefore(plan, receipts[i].symbol, receipts[k].symbol)
  {
    var a, b := receipts[i], receipts[k];
    RanksAscend(plan, receipts, i, k);
    assert ReceiptHolds(plan, receipts, i) && ReceiptHolds(plan, receipts, k) && !SameKey(a, b);
    if a.symbol == b.symbol {
      forall j | 0 <= j < i && AcquiredSplit(receipts[j], a.symbol) ensures b.mode != Splits {
        assert !SameKey(receipts[j], b);
      }
    } else {
      if Rank(plan, a.symbol) == Rank(plan, b.symbol) {
        SameRankIsSame(plan, a.symbol, b.symbol);
      }
      RankIsOrder(plan, a.symbol, b.symbol);
    }
  }

  lemma SplitIsNext(plan: Plan, receipts: seq<Receipt>, k: nat)
    requires plan.Valid() && ReceiptsHold(plan, receipts) && k < |receipts| && receipts[k].mode == Unadjusted
    ensures k > 0 && receipts[k - 1].symbol == receipts[k].symbol && receipts[k - 1].mode == Splits
    ensures receipts[k - 1].asset.Some?
  {
    assert ReceiptHolds(plan, receipts, k);
    var j :| 0 <= j < k && AcquiredSplit(receipts[j], receipts[k].symbol);
    RanksAscend(plan, receipts, j, k - 1);
    RanksAscend(plan, receipts, k - 1, k);
    SameRankIsSame(plan, receipts[k - 1].symbol, receipts[k].symbol);
    PairInPlan(plan, receipts, k - 1, k);
    if j < k - 1 {
      PairInPlan(plan, receipts, j, k - 1);
    }
  }

  lemma InPlanHolds(plan: Plan, receipts: seq<Receipt>, i: nat)
    requires plan.Valid() && InPlan(plan, receipts) && i < |receipts|
    ensures ReceiptHolds(plan, receipts, i)
  {
    var r := receipts[i];
    if i > 0 && receipts[i - 1].symbol != r.symbol {
      RankIsOrder(plan, receipts[i - 1].symbol, r.symbol);
    }
    if r.mode == Unadjusted {
      assert AcquiredSplit(receipts[i - 1], r.symbol);
    }
  }

  /** The receipt checks accept exactly the receipts that are in plan. */
  lemma AcceptedReceiptsByFields(plan: Plan, receipts: seq<Receipt>)
    requires plan.Valid()
    ensures ReceiptsHold(plan, receipts) <==> InPlan(plan, receipts)
  {
    if ReceiptsHold(plan, receipts) {
      forall i | 0 <= i < |receipts|
        ensures receipts[i].symbol in plan.requested && receipts[i].end == plan.target
        ensures receipts[i].start == StartFor(plan, receipts[i].symbol, receipts[i].mode) {
        assert ReceiptHolds(plan, receipts, i);
      }
      forall i, k | 0 <= i < k < |receipts|
        ensures if receipts[i].symbol == receipts[k].symbol
                then receipts[i].mode == Splits && receipts[k].mode == Unadjusted
                else ComesBefore(plan, receipts[i].symbol, receipts[k].symbol) {
        PairInPlan(plan, receipts, i, k);
      }
      forall k | 0 <= k < |receipts| && receipts[k].mode == Unadjusted
        ensures k > 0 && receipts[k - 1].symbol == receipts[k].symbol
             && receipts[k - 1].mode == Splits && receipts[k - 1].asset.Some? {
        SplitIsNext(plan, receipts, k);
      }
    }
    if InPlan(plan, receipts) {
      forall i: nat | i < |receipts| ensures ReceiptHolds(plan, receipts, i) {
        InPlanHolds(plan, receipts, i);
      }
    }
  }

  /** Some receipt says that this asset was acquired for the symbol in this mode. */
  ghost predicate Acquired(receipts: seq<Receipt>, symbol: Symbol, mode: Mode, asset: Asset) {
    exists i :: 0 <= i < |receipts| && receipts[i].symbol == symbol && receipts[i].mode == mode
                && receipts[i].asset == Some(asset)
  }

  /** An entry cites exactly what was acquired for it, and only a listed one cites anything. */
  ghost predicate CitesAcquired(receipts: seq<Receipt>, e: Entry) {
    && (forall a: Asset :: e.split == Some(a) <==> Acquired(receipts, e.symbol, Splits, a))
    && (forall b: Asset :: e.unadjusted == Some(b) <==> Acquired(receipts, e.symbol, Unadjusted, b))
    && (e.split.Some? || e.unadjusted.Some? ==> e.listed)
  }

  lemma SourceByFields(receipts: seq<Receipt>, e: Entry, mode: Mode, source: Option<Asset>)
    requires KeyedApart(receipts)
    ensures SourceHolds(receipts, e, mode, source) <==>
      (forall a: Asset :: source == Some(a) <==> Acquired(receipts, e.symbol, mode, a)) && (source.Some? ==> e.listed)
  {
    if SourceHolds(receipts, e, mode, source) {
      forall a: Asset ensures source == Some(a) <==> Acquired(receipts, e.symbol, mode, a) {
        if Acquired(receipts, e.symbol, mode, a) {
          var i :| 0 <= i < |receipts| && receipts[i].symbol == e.symbol && receipts[i].mode == mode
            && receipts[i].asset == Some(a);
          assert receipts[i] in receipts;
          if source.Some? {
            var r :| r in receipts && r.symbol == e.symbol && r.mode == mode && r.asset == source;
            var k :| 0 <= k < |receipts| && receipts[k] == r;
            assert i < k || k < i || i == k;
          }
        }
      }
    } else if source.None? {
      var r :| r in receipts && r.symbol == e.symbol && r.mode == mode && r.asset.Some?;
      var k :| 0 <= k < |receipts| && receipts[k] == r;
      assert Acquired(receipts, e.symbol, mode, r.asset.value);
    } else if Acquired(receipts, e.symbol, mode, source.value) {
      var i :| 0 <= i < |receipts| && receipts[i].symbol == e.symbol && receipts[i].mode == mode
        && receipts[i].asset == source;
      assert receipts[i] in receipts;
    }
  }

  /** A canary pair that matches, received before anything else. */
  ghost predicate CanaryProven(world: World, receipts: seq<Receipt>) {
    exists a: Asset, b: Asset ::
      && Acquired(receipts, "NVDA", Splits, a) && Acquired(receipts, "NVDA", Unadjusted, b)
      && world.assess(a, b) == Matched && receipts[0].symbol == "NVDA"
  }

  /** A batch that passes: one entry for each requested symbol in order, citing
      what was acquired for it, receipts in plan, and no symbol but the canary
      requested unless the canary's pair matched first. */
  ghost predicate Passes(plan: Plan, world: World, receipts: seq<Receipt>, entries: seq<Entry>) {
    && EachCites(plan, receipts, entries) && InPlan(plan, receipts)
    && ((exists i :: 0 <= i < |receipts| && receipts[i].symbol != "NVDA") ==> CanaryProven(world, receipts))
  }

  // ---------------------------------------------------------------------
  // The verifier accepts exactly those
  // ---------------------------------------------------------------------

  function KeysOf(receipts: seq<Receipt>): set<(Symbol, Mode)> {
    if receipts == [] then {}
    else
      var last := receipts[|receipts| - 1];
      KeysOf(receipts[..|receipts| - 1]) + {(last.symbol, last.mode)}
  }

  lemma {:induction false} KeysMembers(receipts: seq<Receipt>, key: (Symbol, Mode))
    requires key in KeysOf(receipts)
    ensures exists i :: 0 <= i < |receipts| && key == (receipts[i].symbol, receipts[i].mode)
  {
    var front := receipts[..|receipts| - 1];
    if key in KeysOf(front) {
      KeysMembers(front, key);
      var i :| 0 <= i < |front| && key == (front[i].symbol, front[i].mode);
      assert receipts[i] == front[i];
    }
  }

  ghost predicate KeyedApart(receipts: seq<Receipt>) {
    forall i, k :: 0 <= i < k < |receipts| ==> !SameKey(receipts[i], receipts[k])
  }

  lemma {:induction false} KeysCount(receipts: seq<Receipt>)
    requires KeyedApart(receipts)
    ensures |KeysOf(receipts)| == |receipts|
  {
    if receipts != [] {
      var front, last := receipts[..|receipts| - 1], receipts[|receipts| - 1];
      KeysCount(front);
      if (last.symbol, last.mode) in KeysOf(front) {
        KeysMembers(front, (last.symbol, last.mode));
        assert false;
      }
    }
  }

  function BothModes(symbols: seq<Symbol>): (keys: set<(Symbol, Mode)>)
    ensures |keys| <= 2 * |symbols|
    ensures forall s :: s in symbols ==> (s, Splits) in keys && (s, Unadjusted) in keys
  {
    if symbols == [] then {}
    else
      var front, last := symbols[..|symbols| - 1], symbols[|symbols| - 1];
      assert symbols == front + [last];
      var two := {(last, Splits), (last, Unadjusted)};
      assert |two| == 2;
      BothModes(front) + two
  }

  lemma SmallerSet(s: set<(Symbol, Mode)>, t: set<(Symbol, Mode)>)
    requires s <= t
    ensures |s| <= |t|
  {
    assert t == s + (t - s);
  }

  lemma InPlanIsDistinct(plan: Plan, receipts: seq<Receipt>)
    requires InPlan(plan, receipts)
    ensures KeyedApart(receipts)
  {
    forall i, k | 0 <= i < k < |receipts| ensures !SameKey(receipts[i], receipts[k]) {
      assert receipts[i].symbol == receipts[k].symbol ==> receipts[i].mode != receipts[k].mode;
    }
  }

  /** Receipts in plan are never more than two for each requested symbol. */
  lemma PlanIsBounded(plan: Plan, receipts: seq<Receipt>)
    requires InPlan(plan, receipts)
    ensures |receipts| <= 2 * |plan.requested|
  {
    InPlanIsDistinct(plan, receipts);
    KeysCount(receipts);
    forall key | key in KeysOf(receipts) ensures key in BothModes(plan.requested) {
      KeysMembers(receipts, key);
    }
    SmallerSet(KeysOf(receipts), BothModes(plan.requested));
  }

  lemma EntriesByFields(plan: Plan, receipts: seq<Receipt>, entries: seq<Entry>)
    requires InPlan(plan, receipts)
    ensures (forall e :: e in entries ==> EntryHolds(receipts, e)) <==>
      (forall i :: 0 <= i < |entries| ==> CitesAcquired(receipts, entries[i]))
  {
    InPlanIsDistinct(plan, receipts);
    forall e ensures EntryHolds(receipts, e) <==> CitesAcquired(receipts, e) {
      SourceByFields(receipts, e, Splits, e.split);
      SourceByFields(receipts, e, Unadjusted, e.unadjusted);
    }
    forall i | 0 <= i < |entries| ensures entries[i] in entries {}
  }

  lemma OnePerSymbol(plan: Plan, entries: seq<Entry>, x: Entry, y: Entry)
    requires plan.Valid() && |entries| == |plan.requested| && x in entries && y in entries && x.symbol == y.symbol
    requires forall i :: 0 <= i < |entries| ==> entries[i].symbol == plan.requested[i]
    ensures x == y
  {
    var i :| 0 <= i < |entries| && entries[i] == x;
    var k :| 0 <= k < |entries| && entries[k] == y;
    assert plan.requested[i] == plan.requested[k];
    assert i < k || k < i || i == k;
  }

  lemma {:induction false} NoPair(entries: seq<Entry>, symbol: Symbol)
    requires forall e :: e in entries ==> e.symbol != symbol
    ensures PairOf(entries, symbol) == (None, None)
  {
    if entries != [] {
      var front := entries[..|entries| - 1];
      assert forall e :: e in front ==> e in entries;
      assert entries[|entries| - 1] in entries;
      NoPair(front, symbol);
    }
  }

  /** The pair that is replayed is the acquired one. */
  lemma ReplayedPair(plan: Plan, world: World, receipts: seq<Receipt>, entries: seq<Entry>)
    requires plan.Valid() && |entries| == |plan.requested|
    requires forall i :: 0 <= i < |entries| ==>
      entries[i].symbol == plan.requested[i] && CitesAcquired(receipts, entries[i])
    requires forall i :: 0 <= i < |receipts| ==> receipts[i].symbol in plan.requested
    ensures Replayed(world, PairOf(entries, WITNESS)) == Matched <==>
      exists a: Asset, b: Asset ::
        Acquired(receipts, WITNESS, Splits, a) && Acquired(receipts, WITNESS, Unadjusted, b)
        && world.assess(a, b) == Matched
  {
    if WITNESS in plan.requested {
      var i :| 0 <= i < |plan.requested| && plan.requested[i] == WITNESS;
      var e := entries[i];
      assert e in entries && CitesAcquired(receipts, e);
      forall x, y | x in entries && y in entries && x.symbol == y.symbol ensures x == y {
        OnePerSymbol(plan, entries, x, y);
      }
      PairOfEntry(entries, e);
    } else {
      forall e | e in entries ensures e.symbol != WITNESS {
        var i :| 0 <= i < |entries| && entries[i] == e;
        assert entries[i].symbol in plan.requested;
      }
      NoPair(entries, WITNESS);
      assert forall m, a: Asset :: !Acquired(receipts, WITNESS, m, a);
    }
  }

  ghost predicate EachCites(plan: Plan, receipts: seq<Receipt>, entries: seq<Entry>) {
    && |entries| == |plan.requested|
    && forall i :: 0 <= i < |entries| ==> entries[i].symbol == plan.requested[i] && CitesAcquired(receipts, entries[i])
  }

  lemma WitnessByFields(plan: Plan, world: World, receipts: seq<Receipt>, entries: seq<Entry>)
    requires plan.Valid() && InPlan(plan, receipts)
    ensures EachCites(plan, receipts, entries) ==>
      (WitnessHolds(world, receipts, entries) <==>
        ((exists i :: 0 <= i < |receipts| && receipts[i].symbol != "NVDA") ==> CanaryProven(world, receipts)))
  {
    assert (exists r :: r in receipts && r.symbol != WITNESS)
      <==> exists i :: 0 <= i < |receipts| && receipts[i].symbol != "NVDA";
    if EachCites(plan, receipts, entries) {
      ReplayedPair(plan, world, receipts, entries);
    }
  }

  /** The verifier accepts exactly the batches that pass. */
  lemma AcceptedByFields(plan: Plan, world: World, receipts: seq<Receipt>, entries: seq<Entry>)
    requires plan.Valid()
    ensures BatchHolds(plan, world, receipts, entries) <==> Passes(plan, world, receipts, entries)
  {
    AcceptedReceiptsByFields(plan, receipts);
    if InPlan(plan, receipts) {
      PlanIsBounded(plan, receipts);
      EntriesByFields(plan, receipts, entries);
      WitnessByFields(plan, world, receipts, entries);
    }
  }
}
