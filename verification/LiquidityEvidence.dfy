/** The bounded liquidity request plan and the batch verifier that replays it
    (liquidity_evidence.py): whatever the provider does, the receipts and
    entries the producer leaves behind pass the verifier's checks.

    Dates are day numbers; stored assets are opaque identities; the mode witness
    is a function of the two stored control responses. */
module LiquidityEvidence {
  import opened Wrappers
  import opened Sorting

  type Symbol = string
  type Date = int
  type Asset = nat

  const WITNESS: Symbol := "NVDA"

  datatype Mode = Splits | Unadjusted

  datatype Receipt = Receipt(symbol: Symbol, mode: Mode, start: Date, end: Date, asset: Option<Asset>)

  datatype Reason = QuotaUnavailable | ProviderUnavailable | PayloadInvalid

  datatype Entry = Entry(symbol: Symbol, listed: bool, split: Option<Asset>, unadjusted: Option<Asset>,
    reasons: seq<Reason>)

  datatype WitnessStatus = Matched | Unavailable | Failed

  /** The exception classes the producer tells apart. */
  datatype Failure = Quota | Configuration | Provider | Verification | Value | Uncaught | UnclosedReceipts

  datatype Fetch = KeyFails(failure: Failure) | ResponseFails(failure: Failure) | Stored(asset: Asset)

  /** Everything the provider decides. */
  datatype World = World(
    preflight: Option<Failure>,
    fetch: (Symbol, Mode) -> Fetch,
    control: (Asset, Asset) -> Option<Failure>,
    assess: (Asset, Asset) -> WitnessStatus)

  /** The captured plan. `listed` are the symbols with an accepted listing. */
  datatype Plan = Plan(
    requested: seq<Symbol>,
    listed: set<Symbol>,
    historyStart: Date,
    witnessStart: Date,
    firstSession: Date,
    target: Date)
  {
    ghost predicate Valid() {
      Distinct(requested)
    }

    /** The listing mapping's keys, in the order the requested symbols add them. */
    function Listings(): seq<Symbol> {
      Keep(requested, s => s in listed)
    }

    function StartOf(symbol: Symbol, mode: Mode): Date {
      if mode == Splits then historyStart
      else if symbol == WITNESS then witnessStart
      else firstSession
    }
  }

  // ---------------------------------------------------------------------
  // Orders
  // ---------------------------------------------------------------------

  function Keep(xs: seq<Symbol>, p: Symbol -> bool): (kept: seq<Symbol>)
    ensures forall x :: x in kept <==> x in xs && p(x)
    ensures |kept| <= |xs|
  {
    if xs == [] then []
    else if p(xs[0]) then [xs[0]] + Keep(xs[1..], p)
    else Keep(xs[1..], p)
  }

  /** The witness, then the distinct `xs` other than the witness. */
  function WitnessFirst(xs: seq<Symbol>): seq<Symbol> {
    [WITNESS] + Keep(xs, s => s != WITNESS)
  }

  function Position(xs: seq<Symbol>, x: Symbol): (i: nat)
    requires x in xs
    ensures i < |xs| && xs[i] == x
  {
    if xs[0] == x then 0 else 1 + Position(xs[1..], x)
  }

  lemma {:induction false} KeepDistinct(xs: seq<Symbol>, p: Symbol -> bool)
    requires Distinct(xs)
    ensures Distinct(Keep(xs, p))
  {
    if xs != [] {
      KeepDistinct(xs[1..], p);
      assert forall x :: x in xs[1..] ==> x != xs[0];
    }
  }

  lemma {:induction false} KeepCommutes(xs: seq<Symbol>, p: Symbol -> bool, q: Symbol -> bool)
    ensures Keep(Keep(xs, p), q) == Keep(Keep(xs, q), p)
  {
    if xs != [] {
      KeepCommutes(xs[1..], p, q);
      assert p(xs[0]) ==> Keep(xs, p)[1..] == Keep(xs[1..], p);
      assert q(xs[0]) ==> Keep(xs, q)[1..] == Keep(xs[1..], q);
    }
  }

  /** `ys` visits members of `xs` in `xs`'s own order. */
  ghost predicate Follows(ys: seq<Symbol>, xs: seq<Symbol>) {
    && (forall y :: y in ys ==> y in xs)
    && (forall i, j :: 0 <= i < j < |ys| ==> Position(xs, ys[i]) < Position(xs, ys[j]))
  }

  lemma {:induction false} KeepFollows(xs: seq<Symbol>, p: Symbol -> bool)
    requires Distinct(xs)
    ensures Follows(Keep(xs, p), xs)
  {
    if xs != [] {
      KeepFollows(xs[1..], p);
      assert forall x :: x in xs[1..] ==> x != xs[0] && Position(xs, x) == 1 + Position(xs[1..], x);
    }
  }

  lemma WitnessFirstFollows(plan: Plan)
    requires plan.Valid()
    ensures WITNESS in plan.listed && WITNESS in plan.requested ==>
      Follows(WitnessFirst(plan.Listings()), WitnessFirst(plan.requested))
  {
    var order := WitnessFirst(plan.requested);
    KeepDistinct(plan.requested, s => s != WITNESS);
    var others := Keep(plan.requested, s => s != WITNESS);
    assert forall x :: x in others ==> x != WITNESS;
    forall i, j | 0 <= i < j < |order|
      ensures order[i] != order[j]
    {
      assert order[j] == others[j - 1] && others[j - 1] in others;
      assert i > 0 ==> order[i] == others[i - 1];
    }
    if WITNESS in plan.listed {
      KeepFollows(order, s => s in plan.listed);
      KeepCommutes(plan.requested, s => s in plan.listed, s => s != WITNESS);
      assert order[1..] == Keep(plan.requested, s => s != WITNESS);
    }
  }

  // ---------------------------------------------------------------------
  // What a run of the plan leaves behind
  // ---------------------------------------------------------------------

  /** One symbol's turn: its receipts, its stored pair, and what it raised. */
  datatype Trial = Trial(receipts: seq<Receipt>, split: Option<Asset>, unadjusted: Option<Asset>,
    raised: Option<Failure>)

  function ReceiptOf(plan: Plan, symbol: Symbol, mode: Mode, asset: Option<Asset>): Receipt {
    Receipt(symbol, mode, plan.StartOf(symbol, mode), plan.target, asset)
  }

  function Try(plan: Plan, world: World, symbol: Symbol): Trial {
    match world.fetch(symbol, Splits)
    case KeyFails(f) => Trial([], None, None, Some(f))
    case ResponseFails(f) => Trial([ReceiptOf(plan, symbol, Splits, None)], None, None, Some(f))
    case Stored(a) =>
      var first := ReceiptOf(plan, symbol, Splits, Some(a));
      match world.fetch(symbol, Unadjusted)
      case KeyFails(f) => Trial([first], Some(a), None, Some(f))
      case ResponseFails(f) => Trial([first, ReceiptOf(plan, symbol, Unadjusted, None)], Some(a), None, Some(f))
      case Stored(b) =>
        Trial([first, ReceiptOf(plan, symbol, Unadjusted, Some(b))], Some(a), Some(b),
              if symbol == WITNESS then world.control(a, b) else None)
  }

  /** The control pair was stored, read back and matched. */
  predicate ControlMatched(plan: Plan, world: World) {
    var trial := Try(plan, world, WITNESS);
    trial.raised.None? && trial.split.Some? && trial.unadjusted.Some?
    && world.assess(trial.split.value, trial.unadjusted.value) == Matched
  }

  predicate Halts(failure: Failure) {
    failure == Quota || failure == Configuration
  }

  /** Failures the loop records; the others leave `acquire_liquidity_pairs`. */
  predicate Caught(failure: Failure) {
    Halts(failure) || failure == Provider || failure == Value
  }

  predicate Escapes(plan: Plan, world: World, symbol: Symbol) {
    var trial := Try(plan, world, symbol);
    trial.raised.Some? && !Caught(trial.raised.value)
  }

  /** After this symbol no further request is made. */
  predicate Stops(plan: Plan, world: World, symbol: Symbol) {
    var trial := Try(plan, world, symbol);
    || (trial.raised.Some? && (Halts(trial.raised.value) || !Caught(trial.raised.value)))
    || (symbol == WITNESS && !ControlMatched(plan, world))
  }

  /** The requests go down the order up to and including the first stop. */
  function Until(plan: Plan, world: World, order: seq<Symbol>): seq<Symbol> {
    if order == [] then []
    else if Stops(plan, world, order[0]) then [order[0]]
    else [order[0]] + Until(plan, world, order[1..])
  }

  /** The symbols requested at all. */
  function Attempted(plan: Plan, world: World): seq<Symbol> {
    if WITNESS !in plan.Listings() || world.preflight.Some? then []
    else Until(plan, world, WitnessFirst(plan.Listings()))
  }

  function ReceiptsOf(plan: Plan, world: World, symbols: seq<Symbol>): seq<Receipt> {
    if symbols == [] then []
    else ReceiptsOf(plan, world, symbols[..|symbols| - 1]) + Try(plan, world, symbols[|symbols| - 1]).receipts
  }

  /** The exception that leaves the producer, if any. */
  function Leaves(plan: Plan, world: World): Option<Failure> {
    var attempted := Attempted(plan, world);
    if plan.Listings() != [] && world.preflight.Some? && !Halts(world.preflight.value) then world.preflight
    else if Escaped(plan, world) then Try(plan, world, Last(attempted)).raised
    else None
  }

  function ReasonFor(failure: Failure): Reason {
    match failure
    case Quota => QuotaUnavailable
    case Configuration => ProviderUnavailable
    case _ => PayloadInvalid
  }

  function EntryOf(plan: Plan, world: World, symbol: Symbol): Entry {
    if symbol in Attempted(plan, world) then
      var trial := Try(plan, world, symbol);
      Entry(symbol, true, trial.split, trial.unadjusted,
            if trial.raised.Some? then [ReasonFor(trial.raised.value)] else [])
    else if symbol in plan.listed && world.preflight.Some? then
      Entry(symbol, true, None, None, [ReasonFor(world.preflight.value)])
    else
      Entry(symbol, symbol in plan.listed, None, None, [])
  }

  // ---------------------------------------------------------------------
  // The producer
  // ---------------------------------------------------------------------

  /** The receipts and the dictionaries the producer fills. */
  datatype Books = Books(
    receipts: seq<Receipt>,
    splits: map<Symbol, Asset>,
    others: map<Symbol, Asset>,
    failures: map<Symbol, Reason>)

  function Put<V>(m: map<Symbol, V>, key: Symbol, value: Option<V>): map<Symbol, V> {
    if value.Some? then m[key := value.value] else m
  }

  function Blame(trial: Trial): Option<Reason> {
    if trial.raised.Some? then Some(ReasonFor(trial.raised.value)) else None
  }

  function Write(books: Books, symbol: Symbol, trial: Trial): Books {
    Books(
      books.receipts + trial.receipts,
      Put(books.splits, symbol, trial.split),
      Put(books.others, symbol, trial.unadjusted),
      Put(books.failures, symbol, Blame(trial)))
  }

  predicate Says<V(==)>(m: map<Symbol, V>, key: Symbol, value: Option<V>) {
    if value.Some? then key in m && m[key] == value.value else key !in m
  }

  /** The books after exactly the symbols `tried`. */
  ghost predicate Kept(plan: Plan, world: World, tried: seq<Symbol>, books: Books) {
    && books.receipts == ReceiptsOf(plan, world, tried)
    && (forall s :: Says(books.splits, s, if s in tried then Try(plan, world, s).split else None))
    && (forall s :: Says(books.others, s, if s in tried then Try(plan, world, s).unadjusted else None))
    && (forall s :: Says(books.failures, s,
         if s in tried then Blame(Try(plan, world, s))
         else if s in plan.Listings() && world.preflight.Some? then Some(ReasonFor(world.preflight.value))
         else None))
  }

  function Last(xs: seq<Symbol>): Symbol
    requires xs != []
  {
    xs[|xs| - 1]
  }

  predicate Escaped(plan: Plan, world: World) {
    Attempted(plan, world) != [] && Escapes(plan, world, Last(Attempted(plan, world)))
  }

  function EntriesOf(plan: Plan, world: World): seq<Entry> {
    seq(|plan.requested|, i requires 0 <= i < |plan.requested| => EntryOf(plan, world, plan.requested[i]))
  }

  /** One returned entry, read off the producer's dictionaries. */
  function Answer(symbol: Symbol, listings: seq<Symbol>, books: Books): Entry {
    Entry(symbol, symbol in listings,
          if symbol in books.splits then Some(books.splits[symbol]) else None,
          if symbol in books.others then Some(books.others[symbol]) else None,
          if symbol in books.failures then [books.failures[symbol]] else [])
  }

  /** After `i` symbols: everything up to here was tried, or the plan stopped. */
  ghost predicate Progress(plan: Plan, world: World, order: seq<Symbol>, i: nat, enabled: bool, tried: seq<Symbol>) {
    && i <= |order|
    && (tried != [] ==> !Escapes(plan, world, Last(tried)))
    && if enabled then
         && (world.preflight.None? || plan.Listings() == [])
         && (i > 0 ==> WITNESS in plan.Listings())
         && tried == order[..i]
         && (WITNESS in plan.Listings() ==> Attempted(plan, world) == tried + Until(plan, world, order[i..]))
       else Attempted(plan, world) == tried
  }

  lemma Starting(plan: Plan, world: World, permitted: bool)
    requires permitted <==> world.preflight.None? || plan.Listings() == []
    ensures Progress(plan, world, WitnessFirst(plan.Listings()), 0, permitted, [])
  {
    var order := WitnessFirst(plan.Listings());
    assert order[0..] == order;
    if permitted && WITNESS in plan.Listings() {
      assert [] + Until(plan, world, order) == Until(plan, world, order);
    }
  }

  lemma NotTrying(plan: Plan, world: World, order: seq<Symbol>, i: nat, enabled: bool, tried: seq<Symbol>)
    requires order == WitnessFirst(plan.Listings()) && i < |order|
    requires Progress(plan, world, order, i, enabled, tried)
    requires !enabled || order[i] !in plan.Listings()
    ensures enabled ==> order[i] == WITNESS
    ensures Progress(plan, world, order, i + 1, false, tried)
  {
    OrderedAreListed(plan, i);
  }

  lemma OrderedAreListed(plan: Plan, i: nat)
    requires i < |WitnessFirst(plan.Listings())|
    ensures var symbol := WitnessFirst(plan.Listings())[i];
      symbol == WITNESS || symbol in plan.Listings()
  {
    var others := Keep(plan.Listings(), s => s != WITNESS);
    if i > 0 {
      assert others[i - 1] in others;
    }
  }

  lemma Finishing(plan: Plan, world: World, order: seq<Symbol>, enabled: bool, tried: seq<Symbol>)
    requires order == WitnessFirst(plan.Listings())
    requires Progress(plan, world, order, |order|, enabled, tried)
    ensures Attempted(plan, world) == tried && !Escaped(plan, world)
  {
    if enabled {
      assert order[|order|..] == [];
    }
  }

  lemma TryingNext(plan: Plan, world: World, order: seq<Symbol>, i: nat, tried: seq<Symbol>)
    requires order == WitnessFirst(plan.Listings()) && i < |order|
    requires Progress(plan, world, order, i, true, tried) && order[i] in plan.Listings()
    ensures Stops(plan, world, order[i]) ==> Attempted(plan, world) == tried + [order[i]]
    ensures !Escapes(plan, world, order[i]) ==>
      Progress(plan, world, order, i + 1, !Stops(plan, world, order[i]), tried + [order[i]])
  {
    var symbol := order[i];
    var next := tried + [symbol];
    assert order[i..][0] == symbol && order[i..][1..] == order[i + 1..];
    if !Stops(plan, world, symbol) {
      assert tried + ([symbol] + Until(plan, world, order[i + 1..])) == next + Until(plan, world, order[i + 1..]);
    }
  }

  lemma WritingNext(plan: Plan, world: World, tried: seq<Symbol>, symbol: Symbol, books: Books)
    requires Kept(plan, world, tried, books) && symbol in plan.Listings() && world.preflight.None?
    ensures Kept(plan, world, tried + [symbol], Write(books, symbol, Try(plan, world, symbol)))
  {
    var next := tried + [symbol];
    var trial := Try(plan, world, symbol);
    var later := Write(books, symbol, trial);
    assert next[..|next| - 1] == tried;
    forall s
      ensures Says(later.splits, s, if s in next then Try(plan, world, s).split else None)
      ensures Says(later.others, s, if s in next then Try(plan, world, s).unadjusted else None)
      ensures Says(later.failures, s,
                if s in next then Blame(Try(plan, world, s))
                else if s in plan.Listings() && world.preflight.Some? then Some(ReasonFor(world.preflight.value))
                else None)
    {
      assert Says(books.splits, s, if s in tried then Try(plan, world, s).split else None);
      assert Says(books.others, s, if s in tried then Try(plan, world, s).unadjusted else None);
      assert Says(books.failures, s, if s in tried then Blame(Try(plan, world, s)) else None);
    }
  }

  lemma EntryMatches(plan: Plan, world: World, books: Books, s: Symbol)
    requires Kept(plan, world, Attempted(plan, world), books) && s in plan.requested
    ensures Answer(s, plan.Listings(), books) == EntryOf(plan, world, s)
  {
    AttemptedAreListed(plan, world);
    var tried := Attempted(plan, world);
    assert Says(books.splits, s, if s in tried then Try(plan, world, s).split else None);
    assert Says(books.others, s, if s in tried then Try(plan, world, s).unadjusted else None);
    assert Says(books.failures, s,
         if s in tried then Blame(Try(plan, world, s))
         else if s in plan.Listings() && world.preflight.Some? then Some(ReasonFor(world.preflight.value))
         else None);
  }

  lemma {:induction false} UntilIsPrefix(plan: Plan, world: World, order: seq<Symbol>)
    ensures Until(plan, world, order) <= order
    ensures forall i :: 0 <= i < |Until(plan, world, order)| - 1 ==> !Stops(plan, world, order[i])
    ensures order != [] ==> Until(plan, world, order) != []
  {
    if order != [] && !Stops(plan, world, order[0]) {
      UntilIsPrefix(plan, world, order[1..]);
      forall i | 0 <= i < |Until(plan, world, order)| - 1
        ensures !Stops(plan, world, order[i])
      {
        if i > 0 {
          assert order[i] == order[1..][i - 1];
        }
      }
    }
  }

  lemma AttemptedAreListed(plan: Plan, world: World)
    ensures forall s :: s in Attempted(plan, world) ==> s in plan.Listings()
  {
    var order := WitnessFirst(plan.Listings());
    UntilIsPrefix(plan, world, order);
    assert forall s :: s in Attempted(plan, world) ==> s in order;
  }

  /** The acquisition job and the dictionaries the producer fills. */
  class Acquisition {
    var receipts: seq<Receipt>
    var freshSplits: map<Symbol, Asset>
    var freshOthers: map<Symbol, Asset>
    var failures: map<Symbol, Reason>

    constructor (receipts: seq<Receipt>)
      ensures this.receipts == receipts && freshSplits == map[] && freshOthers == map[] && failures == map[]
    {
      this.receipts, freshSplits, freshOthers, failures := receipts, map[], map[], map[];
    }

    /** One request: the receipt is stored before the response is known. */
    method Acquire(plan: Plan, world: World, symbol: Symbol, mode: Mode) returns (result: Result<Asset, Failure>)
      modifies this`receipts
      ensures match world.fetch(symbol, mode)
        case KeyFails(f) => result == Err(f) && receipts == old(receipts)
        case ResponseFails(f) => result == Err(f) && receipts == old(receipts) + [ReceiptOf(plan, symbol, mode, None)]
        case Stored(a) => result == Ok(a) && receipts == old(receipts) + [ReceiptOf(plan, symbol, mode, Some(a))]
    {
      var answer := world.fetch(symbol, mode);
      if answer.KeyFails? {
        return Err(answer.failure);
      }
      receipts := receipts + [Receipt(symbol, mode, plan.StartOf(symbol, mode), plan.target, None)];
      if answer.ResponseFails? {
        return Err(answer.failure);
      }
      var last := |receipts| - 1;
      receipts := receipts[last := receipts[last].(asset := Some(answer.asset))];
      return Ok(answer.asset);
    }

    ghost function Now(): Books
      reads this
    {
      Books(receipts, freshSplits, freshOthers, failures)
    }

    /** The try block of one symbol. */
    method TrySymbol(plan: Plan, world: World, symbol: Symbol)
      returns (raised: Option<Failure>, status: WitnessStatus)
      modifies this`receipts, this`freshSplits, this`freshOthers
      ensures raised == Try(plan, world, symbol).raised
      ensures Now() == Write(old(Now()), symbol, Try(plan, world, symbol)).(failures := old(failures))
      ensures symbol == WITNESS ==> (status == Matched <==> ControlMatched(plan, world))
    {
      status := Unavailable;
      var split := Acquire(plan, world, symbol, Splits);
      if split.Err? {
        return Some(split.error), status;
      }
      freshSplits := freshSplits[symbol := split.value];
      var other := Acquire(plan, world, symbol, Unadjusted);
      if other.Err? {
        return Some(other.error), status;
      }
      freshOthers := freshOthers[symbol := other.value];
      if symbol == WITNESS {
        var unreadable := world.control(split.value, other.value);
        if unreadable.Some? {
          return unreadable, status;
        }
        status := world.assess(split.value, other.value);
      }
      return None, status;
    }

    /** One symbol's turn, with the except clauses: what escapes, and whether to go on. */
    method Turn(plan: Plan, world: World, symbol: Symbol) returns (escaped: Option<Failure>, goOn: bool)
      modifies this
      ensures escaped.Some? <==> Escapes(plan, world, symbol)
      ensures escaped.Some? ==> escaped == Try(plan, world, symbol).raised
      ensures escaped.None? ==> goOn == !Stops(plan, world, symbol)
      ensures escaped.None? ==> Now() == Write(old(Now()), symbol, Try(plan, world, symbol))
    {
      var raised, status := TrySymbol(plan, world, symbol);
      goOn := true;
      if raised.Some? {
        if !Caught(raised.value) {
          return raised, false;
        }
        failures := failures[symbol := ReasonFor(raised.value)];
        if Halts(raised.value) {
          goOn := false;
        }
      }
      if symbol == WITNESS && status != Matched {
        goOn := false;
      }
      escaped := None;
    }

    /** The loop over the request order. */
    method RequestAll(plan: Plan, world: World, permitted: bool) returns (left: Option<Failure>)
      requires permitted <==> world.preflight.None? || plan.Listings() == []
      requires Kept(plan, world, [], Now())
      modifies this
      ensures left.Some? <==> Escaped(plan, world)
      ensures left.Some? ==> left == Try(plan, world, Last(Attempted(plan, world))).raised
      ensures left.None? ==> Kept(plan, world, Attempted(plan, world), Now())
    {
      var listings := plan.Listings();
      var order := WitnessFirst(listings);
      var enabled := permitted;
      ghost var tried: seq<Symbol> := [];
      Starting(plan, world, permitted);
      var i: nat := 0;
      while i < |order|
        invariant i <= |order|
        invariant Progress(plan, world, order, i, enabled, tried)
        invariant Kept(plan, world, tried, Now())
      {
        var symbol := order[i];
        if symbol !in listings || !enabled {
          NotTrying(plan, world, order, i, enabled, tried);
        }
        if symbol == WITNESS && symbol !in listings {
          enabled := false;
        }
        if symbol in listings && enabled {
          TryingNext(plan, world, order, i, tried);
          WritingNext(plan, world, tried, symbol, Now());
          var escaped;
          escaped, enabled := Turn(plan, world, symbol);
          if escaped.Some? {
            return escaped;
          }
          tried := tried + [symbol];
        }
        i := i + 1;
      }
      Finishing(plan, world, order, enabled, tried);
      return None;
    }

    /** `acquire_liquidity_pairs`. */
    method AcquirePairs(plan: Plan, world: World) returns (result: Result<seq<Entry>, Failure>)
      requires freshSplits == map[] && freshOthers == map[] && failures == map[]
      modifies this
      ensures old(receipts) != [] ==> result == Err(UnclosedReceipts) && receipts == old(receipts)
      ensures old(receipts) == [] ==> match Leaves(plan, world)
        case Some(failure) => result == Err(failure)
        case None =>
          && receipts == ReceiptsOf(plan, world, Attempted(plan, world))
          && result == Ok(EntriesOf(plan, world))
    {
      if receipts != [] {
        return Err(UnclosedReceipts);
      }
      var listings := plan.Listings();
      var enabled := true;
      if listings != [] && world.preflight.Some? {
        if !Halts(world.preflight.value) {
          return Err(world.preflight.value);
        }
        enabled := false;
        failures := map s | s in listings :: ReasonFor(world.preflight.value);
      }
      var left := RequestAll(plan, world, enabled);
      if left.Some? {
        return Err(left.value);
      }
      var books := Books(receipts, freshSplits, freshOthers, failures);
      forall s | s in plan.requested
        ensures Answer(s, listings, books) == EntryOf(plan, world, s)
      {
        EntryMatches(plan, world, books, s);
      }
      var entries := seq(|plan.requested|,
        k requires 0 <= k < |plan.requested| => Answer(plan.requested[k], listings, books));
      assert entries == EntriesOf(plan, world);
      return Ok(entries);
    }
  }

  // ---------------------------------------------------------------------
  // The verifier
  // ---------------------------------------------------------------------

  predicate SameKey(a: Receipt, b: Receipt) {
    a.symbol == b.symbol && a.mode == b.mode
  }

  /** The receipt's own scope, whatever surrounds it. */
  predicate InScope(plan: Plan, r: Receipt) {
    r.symbol in plan.requested && r.end == plan.target && r.start == plan.StartOf(r.symbol, r.mode)
  }

  lemma RequestedIsOrdered(plan: Plan, symbol: Symbol)
    requires symbol in plan.requested
    ensures symbol in WitnessFirst(plan.requested)
  {
    assert symbol == WITNESS || symbol in Keep(plan.requested, s => s != WITNESS);
  }

  function Rank(plan: Plan, symbol: Symbol): nat
    requires symbol in plan.requested
  {
    RequestedIsOrdered(plan, symbol);
    Position(WitnessFirst(plan.requested), symbol)
  }

  predicate AcquiredSplit(r: Receipt, symbol: Symbol) {
    r.symbol == symbol && r.mode == Splits && r.asset.Some?
  }

  /** Receipt `i` against the receipts before it. */
  ghost predicate ReceiptHolds(plan: Plan, receipts: seq<Receipt>, i: nat)
    requires i < |receipts|
  {
    var r := receipts[i];
    && InScope(plan, r)
    && (forall j :: 0 <= j < i ==> !SameKey(receipts[j], r))
    && (i > 0 && receipts[i - 1].symbol in plan.requested ==>
         Rank(plan, receipts[i - 1].symbol) <= Rank(plan, r.symbol))
    && (r.mode == Unadjusted ==> exists j :: 0 <= j < i && AcquiredSplit(receipts[j], r.symbol))
  }

  ghost predicate ReceiptsHold(plan: Plan, receipts: seq<Receipt>) {
    forall i: nat :: i < |receipts| ==> ReceiptHolds(plan, receipts, i)
  }

  /** A source is cited iff the matching receipt acquired exactly it. */
  ghost predicate SourceHolds(receipts: seq<Receipt>, e: Entry, mode: Mode, source: Option<Asset>) {
    match source
    case None => forall r :: r in receipts && r.symbol == e.symbol && r.mode == mode ==> r.asset.None?
    case Some(a) => e.listed && exists r ::
      r in receipts && r.symbol == e.symbol && r.mode == mode && r.asset == Some(a)
  }

  ghost predicate EntryHolds(receipts: seq<Receipt>, e: Entry) {
    SourceHolds(receipts, e, Splits, e.split) && SourceHolds(receipts, e, Unadjusted, e.unadjusted)
  }

  /** The pair the verifier resolves for a symbol: the last entry's, as in a dictionary. */
  function PairOf(entries: seq<Entry>, symbol: Symbol): (Option<Asset>, Option<Asset>) {
    if entries == [] then (None, None)
    else
      var last := entries[|entries| - 1];
      if last.symbol == symbol then (last.split, last.unadjusted) else PairOf(entries[..|entries| - 1], symbol)
  }

  function Replayed(world: World, pair: (Option<Asset>, Option<Asset>)): WitnessStatus {
    if pair.0.Some? && pair.1.Some? then world.assess(pair.0.value, pair.1.value) else Unavailable
  }

  ghost predicate WitnessHolds(world: World, receipts: seq<Receipt>, entries: seq<Entry>) {
    (exists r :: r in receipts && r.symbol != WITNESS) ==>
      Replayed(world, PairOf(entries, WITNESS)) == Matched && receipts[0].symbol == WITNESS
  }

  ghost predicate BatchHolds(plan: Plan, world: World, receipts: seq<Receipt>, entries: seq<Entry>) {
    && |entries| == |plan.requested|
    && (forall i :: 0 <= i < |entries| ==> entries[i].symbol == plan.requested[i])
    && ReceiptsHold(plan, receipts)
    && |receipts| <= 2 * |plan.requested|
    && (forall e :: e in entries ==> EntryHolds(receipts, e))
    && WitnessHolds(world, receipts, entries)
  }

  ghost predicate Keyed(receipts: seq<Receipt>, keyed: map<(Symbol, Mode), Receipt>) {
    && (forall r :: r in receipts ==> (r.symbol, r.mode) in keyed && keyed[(r.symbol, r.mode)] == r)
    && (forall k :: k in keyed ==> keyed[k] in receipts && (keyed[k].symbol, keyed[k].mode) == k)
  }

  /** The loop's dictionary and position after the first `i` receipts. */
  ghost predicate Walked(plan: Plan, receipts: seq<Receipt>, i: nat, keyed: map<(Symbol, Mode), Receipt>,
                         lastPosition: int) {
    && i <= |receipts|
    && (forall k: nat :: k < i ==> ReceiptHolds(plan, receipts, k))
    && Keyed(receipts[..i], keyed)
    && lastPosition == LastRank(plan, receipts, i)
  }

  lemma WalkOn(plan: Plan, receipts: seq<Receipt>, i: nat, keyed: map<(Symbol, Mode), Receipt>, lastPosition: int)
    requires i < |receipts| && Walked(plan, receipts, i, keyed, lastPosition) && ReceiptHolds(plan, receipts, i)
    ensures var r := receipts[i];
      Walked(plan, receipts, i + 1, keyed[(r.symbol, r.mode) := r], Rank(plan, r.symbol))
  {
    KeyTaken(receipts, i, keyed);
  }

  /** The receipt loop of `_batch_document`. */
  method VerifyReceipts(plan: Plan, receipts: seq<Receipt>) returns (ok: bool, keyed: map<(Symbol, Mode), Receipt>)
    ensures ok <==> ReceiptsHold(plan, receipts)
    ensures ok ==> Keyed(receipts, keyed)
  {
    keyed := map[];
    var lastPosition: int := -1;
    var i: nat := 0;
    while i < |receipts|
      invariant Walked(plan, receipts, i, keyed, lastPosition)
    {
      ok := VerifyReceipt(plan, receipts, i, keyed, lastPosition);
      if !ok {
        return;
      }
      WalkOn(plan, receipts, i, keyed, lastPosition);
      var r := receipts[i];
      lastPosition := Rank(plan, r.symbol);
      keyed := keyed[(r.symbol, r.mode) := r];
      i := i + 1;
    }
    assert receipts[..|receipts|] == receipts;
    ok := true;
  }

  function LastRank(plan: Plan, receipts: seq<Receipt>, i: nat): int
    requires i <= |receipts|
  {
    if i > 0 && receipts[i - 1].symbol in plan.requested then Rank(plan, receipts[i - 1].symbol) else -1
  }

  method VerifyReceipt(plan: Plan, receipts: seq<Receipt>, i: nat, keyed: map<(Symbol, Mode), Receipt>,
                       lastPosition: int)
    returns (ok: bool)
    requires i < |receipts| && Keyed(receipts[..i], keyed) && lastPosition == LastRank(plan, receipts, i)
    ensures ok <==> ReceiptHolds(plan, receipts, i)
  {
    var r := receipts[i];
    KeyTaken(receipts, i, keyed);
    if r.symbol !in plan.requested || r.end != plan.target || (r.symbol, r.mode) in keyed {
      return false;
    }
    var position := Rank(plan, r.symbol);
    if position < lastPosition || r.start != plan.StartOf(r.symbol, r.mode) {
      return false;
    }
    if r.mode == Unadjusted && ((r.symbol, Splits) !in keyed || keyed[(r.symbol, Splits)].asset.None?) {
      return false;
    }
    return true;
  }

  /** What the dictionary of earlier receipts says about receipt `i`. */
  lemma KeyTaken(receipts: seq<Receipt>, i: nat, keyed: map<(Symbol, Mode), Receipt>)
    requires i < |receipts| && Keyed(receipts[..i], keyed)
    ensures var r := receipts[i];
      && ((r.symbol, r.mode) in keyed <==> exists j :: 0 <= j < i && SameKey(receipts[j], r))
      && ((r.symbol, Splits) in keyed && keyed[(r.symbol, Splits)].asset.Some? <==>
           exists j :: 0 <= j < i && AcquiredSplit(receipts[j], r.symbol))
      && ((r.symbol, r.mode) !in keyed ==> Keyed(receipts[..i + 1], keyed[(r.symbol, r.mode) := r]))
  {
    var r := receipts[i];
    var before := receipts[..i];
    assert receipts[..i + 1] == before + [r];
    if (r.symbol, r.mode) in keyed {
      var j :| 0 <= j < i && before[j] == keyed[(r.symbol, r.mode)];
      assert SameKey(receipts[j], r);
    }
    if j :| 0 <= j < i && SameKey(receipts[j], r) {
      assert receipts[j] in before;
    }
    if (r.symbol, Splits) in keyed {
      var j :| 0 <= j < i && before[j] == keyed[(r.symbol, Splits)];
      assert receipts[j] == before[j];
    }
    if j :| 0 <= j < i && AcquiredSplit(receipts[j], r.symbol) {
      assert receipts[j] in before;
    }
  }

  /** The source checks of one entry, for both modes. */
  method VerifySource(receipts: seq<Receipt>, keyed: map<(Symbol, Mode), Receipt>, e: Entry, mode: Mode,
                      source: Option<Asset>)
    returns (ok: bool)
    requires Keyed(receipts, keyed)
    ensures ok <==> SourceHolds(receipts, e, mode, source)
  {
    var receipt := if (e.symbol, mode) in keyed then Some(keyed[(e.symbol, mode)]) else None;
    if source.None? {
      ok := !(receipt.Some? && receipt.value.asset.Some?);
    } else {
      ok := !(!e.listed || receipt.None? || receipt.value.asset != source);
    }
  }

  /** The receipt, entry and witness checks of `_batch_document`. */
  method VerifyBatch(plan: Plan, world: World, receipts: seq<Receipt>, entries: seq<Entry>) returns (ok: bool)
    ensures ok <==> BatchHolds(plan, world, receipts, entries)
  {
    var scoped := ScopeHolds(plan, entries);
    var accepted, keyed := VerifyReceipts(plan, receipts);
    if !scoped || !accepted || |receipts| > 2 * |plan.requested| {
      return false;
    }
    var parsed: map<Symbol, (Option<Asset>, Option<Asset>)> := map[];
    var i: nat := 0;
    while i < |entries|
      invariant i <= |entries|
      invariant forall k :: 0 <= k < i ==> EntryHolds(receipts, entries[k])
      invariant PairOf(entries[..i], WITNESS) == if WITNESS in parsed then parsed[WITNESS] else (None, None)
    {
      var e := entries[i];
      assert entries[..i + 1][..i] == entries[..i];
      var splitOk := VerifySource(receipts, keyed, e, Splits, e.split);
      var otherOk := VerifySource(receipts, keyed, e, Unadjusted, e.unadjusted);
      if !splitOk || !otherOk {
        assert e in entries && !EntryHolds(receipts, e);
        return false;
      }
      parsed := parsed[e.symbol := (e.split, e.unadjusted)];
      i := i + 1;
    }
    assert entries[..|entries|] == entries;
    var status := Replayed(world, if WITNESS in parsed then parsed[WITNESS] else (None, None));
    var others := exists k :: 0 <= k < |receipts| && receipts[k].symbol != WITNESS;
    assert others <==> exists r :: r in receipts && r.symbol != WITNESS;
    return !(others && (status != Matched || receipts == [] || receipts[0].symbol != WITNESS));
  }

  method ScopeHolds(plan: Plan, entries: seq<Entry>) returns (ok: bool)
    ensures ok <==> |entries| == |plan.requested| && forall i :: 0 <= i < |entries| ==>
      entries[i].symbol == plan.requested[i]
  {
    ok := |entries| == |plan.requested| && forall i :: 0 <= i < |entries| ==> entries[i].symbol == plan.requested[i];
  }

  // ---------------------------------------------------------------------
  // The producer satisfies the verifier
  // ---------------------------------------------------------------------

  lemma AppendHolds(plan: Plan, receipts: seq<Receipt>, r: Receipt)
    requires ReceiptsHold(plan, receipts) && InScope(plan, r)
    requires forall x :: x in receipts ==>
      !SameKey(x, r) && x.symbol in plan.requested && Rank(plan, x.symbol) <= Rank(plan, r.symbol)
    requires r.mode == Unadjusted ==> exists x :: x in receipts && AcquiredSplit(x, r.symbol)
    ensures ReceiptsHold(plan, receipts + [r])
  {
    var longer := receipts + [r];
    forall i: nat | i < |longer|
      ensures ReceiptHolds(plan, longer, i)
    {
      if i < |receipts| {
        assert ReceiptHolds(plan, receipts, i);
        assert receipts == longer[..|receipts|];
      } else if r.mode == Unadjusted {
        var x :| x in receipts && AcquiredSplit(x, r.symbol);
        var j :| 0 <= j < |receipts| && receipts[j] == x;
        assert longer[j] == x;
      }
    }
  }

  lemma TurnHolds(plan: Plan, world: World, receipts: seq<Receipt>, symbol: Symbol)
    requires ReceiptsHold(plan, receipts) && symbol in plan.requested
    requires forall x :: x in receipts ==> x.symbol in plan.requested && Rank(plan, x.symbol) < Rank(plan, symbol)
    ensures ReceiptsHold(plan, receipts + Try(plan, world, symbol).receipts)
  {
    var mine := Try(plan, world, symbol).receipts;
    if |mine| >= 1 {
      AppendHolds(plan, receipts, mine[0]);
      if |mine| == 2 {
        assert mine[0] in receipts + [mine[0]] && AcquiredSplit(mine[0], symbol);
        AppendHolds(plan, receipts + [mine[0]], mine[1]);
        assert receipts + [mine[0]] + [mine[1]] == receipts + mine;
      } else {
        assert receipts + [mine[0]] == receipts + mine;
      }
    } else {
      assert receipts + mine == receipts;
    }
  }

  /** Requested symbols, each at most once, in request order. */
  ghost predicate Ranked(plan: Plan, tried: seq<Symbol>) {
    && (forall s :: s in tried ==> s in plan.requested)
    && (forall i, j :: 0 <= i < j < |tried| ==> Rank(plan, tried[i]) < Rank(plan, tried[j]))
  }

  lemma {:induction false} ReceiptsByTrial(plan: Plan, world: World, tried: seq<Symbol>, r: Receipt)
    ensures r in ReceiptsOf(plan, world, tried) <==> r.symbol in tried && r in Try(plan, world, r.symbol).receipts
  {
    if tried != [] {
      var front := tried[..|tried| - 1];
      assert tried == front + [tried[|tried| - 1]];
      ReceiptsByTrial(plan, world, front, r);
    }
  }

  lemma {:induction false} TwoPerSymbol(plan: Plan, world: World, tried: seq<Symbol>)
    ensures |ReceiptsOf(plan, world, tried)| <= 2 * |tried|
  {
    if tried != [] {
      TwoPerSymbol(plan, world, tried[..|tried| - 1]);
    }
  }

  lemma EarlierRanks(plan: Plan, world: World, front: seq<Symbol>, last: Symbol, x: Receipt)
    requires Ranked(plan, front + [last]) && x in ReceiptsOf(plan, world, front)
    ensures x.symbol in plan.requested && last in plan.requested && Rank(plan, x.symbol) < Rank(plan, last)
  {
    var tried := front + [last];
    ReceiptsByTrial(plan, world, front, x);
    var i :| 0 <= i < |front| && front[i] == x.symbol;
    assert tried[i] == x.symbol && tried[|front|] == last;
    assert tried[i] in tried && tried[|front|] in tried;
  }

  lemma {:induction false} RunHolds(plan: Plan, world: World, tried: seq<Symbol>)
    requires Ranked(plan, tried)
    ensures ReceiptsHold(plan, ReceiptsOf(plan, world, tried))
  {
    if tried != [] {
      var front := tried[..|tried| - 1];
      var last := tried[|tried| - 1];
      assert tried == front + [last];
      assert last in tried;
      assert Ranked(plan, front) by {
        assert forall s :: s in front ==> s in tried;
      }
      RunHolds(plan, world, front);
      var before := ReceiptsOf(plan, world, front);
      forall x | x in before
        ensures x.symbol in plan.requested && Rank(plan, x.symbol) < Rank(plan, last)
      {
        EarlierRanks(plan, world, front, last, x);
      }
      TurnHolds(plan, world, before, last);
    }
  }

  /** Attempted symbols are requested ones in request order. */
  lemma AttemptedInOrder(plan: Plan, world: World)
    requires plan.Valid()
    ensures Ranked(plan, Attempted(plan, world))
  {
    var tried := Attempted(plan, world);
    var order := WitnessFirst(plan.Listings());
    AttemptedAreListed(plan, world);
    UntilIsPrefix(plan, world, order);
    if tried != [] {
      WitnessFirstFollows(plan);
      assert forall i :: 0 <= i < |tried| ==> tried[i] == order[i];
    }
  }

  /** The canary is tried first, and nothing is tried after it unless it matched. */
  lemma AttemptedControl(plan: Plan, world: World)
    ensures var tried := Attempted(plan, world);
      && (tried != [] ==> tried[0] == WITNESS && WITNESS in plan.requested)
      && (|tried| > 1 ==> ControlMatched(plan, world))
      && |tried| <= |plan.Listings()| <= |plan.requested|
  {
    var order := WitnessFirst(plan.Listings());
    UntilIsPrefix(plan, world, order);
    if Attempted(plan, world) != [] {
      KeepDrops(plan.Listings(), WITNESS);
      if |Attempted(plan, world)| > 1 {
        assert !Stops(plan, world, order[0]);
      }
    }
  }

  lemma ReceiptsAreTheirs(plan: Plan, world: World)
    requires plan.Valid()
    ensures var receipts := ReceiptsOf(plan, world, Attempted(plan, world));
      && ReceiptsHold(plan, receipts)
      && (forall r :: r in receipts <==> r.symbol in Attempted(plan, world) && r in Try(plan, world, r.symbol).receipts)
      && |receipts| <= 2 * |plan.Listings()| <= 2 * |plan.requested|
  {
    AttemptedInOrder(plan, world);
    AttemptedControl(plan, world);
    RunHolds(plan, world, Attempted(plan, world));
    TwoPerSymbol(plan, world, Attempted(plan, world));
    forall r
      ensures r in ReceiptsOf(plan, world, Attempted(plan, world)) <==>
        r.symbol in Attempted(plan, world) && r in Try(plan, world, r.symbol).receipts
    {
      ReceiptsByTrial(plan, world, Attempted(plan, world), r);
    }
  }

  /** A receipt for another symbol means the canary came first and matched. */
  lemma OtherRequested(plan: Plan, world: World, r: Receipt)
    requires plan.Valid() && r in ReceiptsOf(plan, world, Attempted(plan, world)) && r.symbol != WITNESS
    ensures ControlMatched(plan, world) && WITNESS in plan.requested && WITNESS in Attempted(plan, world)
    ensures |ReceiptsOf(plan, world, Attempted(plan, world))| >= 2
    ensures ReceiptsOf(plan, world, Attempted(plan, world))[..2] == Try(plan, world, WITNESS).receipts
  {
    ReceiptsAreTheirs(plan, world);
    AttemptedControl(plan, world);
    var tried := Attempted(plan, world);
    var i :| 0 <= i < |tried| && tried[i] == r.symbol;
    FirstReceiptIsControl(plan, world, tried);
  }

  lemma {:induction false} KeepDrops(xs: seq<Symbol>, x: Symbol)
    requires x in xs && x == WITNESS
    ensures |Keep(xs, s => s != WITNESS)| < |xs|
  {
    if xs[0] != x {
      KeepDrops(xs[1..], x);
    }
  }

  lemma EntryOfHolds(plan: Plan, world: World, symbol: Symbol, receipts: seq<Receipt>)
    requires forall r :: r in receipts <==>
      r.symbol in Attempted(plan, world) && r in Try(plan, world, r.symbol).receipts
    ensures EntryHolds(receipts, EntryOf(plan, world, symbol))
  {
    var trial := Try(plan, world, symbol);
    if symbol in Attempted(plan, world) {
      assert forall r :: r in trial.receipts ==> r in receipts;
      if trial.split.Some? {
        assert trial.receipts[0] in receipts;
      }
      if trial.unadjusted.Some? {
        assert trial.receipts[1] in receipts;
      }
    }
  }

  lemma {:induction false} PairOfEntry(entries: seq<Entry>, e: Entry)
    requires e in entries
    requires forall x, y :: x in entries && y in entries && x.symbol == y.symbol ==> x == y
    ensures PairOf(entries, e.symbol) == (e.split, e.unadjusted)
  {
    var last := entries[|entries| - 1];
    var front := entries[..|entries| - 1];
    assert last in entries;
    assert entries == front + [last];
    if last.symbol != e.symbol {
      assert e in front;
      assert forall x :: x in front ==> x in entries;
      PairOfEntry(front, e);
    }
  }

  lemma ControlReplays(plan: Plan, world: World)
    requires WITNESS in Attempted(plan, world) && WITNESS in plan.requested && ControlMatched(plan, world)
    ensures Replayed(world, PairOf(EntriesOf(plan, world), WITNESS)) == Matched
  {
    var entries := EntriesOf(plan, world);
    var i :| 0 <= i < |plan.requested| && plan.requested[i] == WITNESS;
    assert entries[i] == EntryOf(plan, world, WITNESS);
    assert forall x :: x in entries ==> x == EntryOf(plan, world, x.symbol);
    PairOfEntry(entries, entries[i]);
  }

  /** Whatever pattern of quota, configuration, payload and value failures the
      provider shows, if the producer returns then its receipts and entries
      pass every receipt, entry and witness check of the verifier. */
  lemma ProducerSatisfiesVerifier(plan: Plan, world: World)
    requires plan.Valid()
    ensures BatchHolds(plan, world, ReceiptsOf(plan, world, Attempted(plan, world)), EntriesOf(plan, world))
    ensures |ReceiptsOf(plan, world, Attempted(plan, world))| <= 2 * |plan.Listings()|
  {
    var receipts := ReceiptsOf(plan, world, Attempted(plan, world));
    var entries := EntriesOf(plan, world);
    ReceiptsAreTheirs(plan, world);
    EntriesHold(plan, world, receipts);
    WitnessStands(plan, world);
  }

  lemma EntriesHold(plan: Plan, world: World, receipts: seq<Receipt>)
    requires forall r :: r in receipts <==>
      r.symbol in Attempted(plan, world) && r in Try(plan, world, r.symbol).receipts
    ensures forall e :: e in EntriesOf(plan, world) ==> EntryHolds(receipts, e)
  {
    forall e | e in EntriesOf(plan, world)
      ensures EntryHolds(receipts, e)
    {
      EntryOfHolds(plan, world, e.symbol, receipts);
    }
  }

  lemma WitnessStands(plan: Plan, world: World)
    requires plan.Valid()
    ensures WitnessHolds(world, ReceiptsOf(plan, world, Attempted(plan, world)), EntriesOf(plan, world))
  {
    var receipts := ReceiptsOf(plan, world, Attempted(plan, world));
    if r :| r in receipts && r.symbol != WITNESS {
      OtherRequested(plan, world, r);
      ControlReplays(plan, world);
      assert receipts[0] == receipts[..2][0];
    }
  }

  lemma {:induction false} FirstReceiptIsControl(plan: Plan, world: World, tried: seq<Symbol>)
    requires tried != [] && tried[0] == WITNESS && ControlMatched(plan, world)
    ensures |ReceiptsOf(plan, world, tried)| >= 2
    ensures ReceiptsOf(plan, world, tried)[..2] == Try(plan, world, WITNESS).receipts
  {
    if |tried| > 1 {
      FirstReceiptIsControl(plan, world, tried[..|tried| - 1]);
    } else {
      assert tried[..0] == [];
    }
  }

  /** A request for any other symbol comes after the canary's complete, matched pair. */
  lemma CanaryComesFirst(plan: Plan, world: World, i: nat)
    requires plan.Valid()
    requires i < |ReceiptsOf(plan, world, Attempted(plan, world))|
    requires ReceiptsOf(plan, world, Attempted(plan, world))[i].symbol != WITNESS
    ensures var receipts := ReceiptsOf(plan, world, Attempted(plan, world));
      && i >= 2
      && receipts[0].symbol == receipts[1].symbol == WITNESS
      && receipts[0].mode == Splits && receipts[1].mode == Unadjusted
      && receipts[0].asset.Some? && receipts[1].asset.Some?
      && world.assess(receipts[0].asset.value, receipts[1].asset.value) == Matched
  {
    var receipts := ReceiptsOf(plan, world, Attempted(plan, world));
    assert receipts[i] in receipts;
    OtherRequested(plan, world, receipts[i]);
    assert receipts[0] == receipts[..2][0] && receipts[1] == receipts[..2][1];
  }

  /** Exactly which symbols are requested: those no earlier stop precedes. */
  lemma RequestedExactly(plan: Plan, world: World, i: nat)
    requires plan.Valid() && i < |WitnessFirst(plan.Listings())|
    ensures var order := WitnessFirst(plan.Listings());
      order[i] in Attempted(plan, world) <==>
        WITNESS in plan.Listings() && world.preflight.None? && forall j :: 0 <= j < i ==> !Stops(plan, world, order[j])
  {
    var order := WitnessFirst(plan.Listings());
    if WITNESS in plan.Listings() && world.preflight.None? {
      WitnessFirstFollows(plan);
      UntilExactly(plan, world, order, i);
    }
  }

  lemma {:induction false} UntilExactly(plan: Plan, world: World, order: seq<Symbol>, i: nat)
    requires i < |order| && Distinct(order)
    ensures order[i] in Until(plan, world, order) <==> forall j :: 0 <= j < i ==> !Stops(plan, world, order[j])
  {
    if i > 0 && !Stops(plan, world, order[0]) {
      UntilExactly(plan, world, order[1..], i - 1);
      assert forall j :: 0 < j < i ==> order[j] == order[1..][j - 1];
    }
  }
}
