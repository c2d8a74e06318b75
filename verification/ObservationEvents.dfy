/** Content-addressed payloads and the append-only record of when their exact
    bytes were observed (sec_ingestion.py, data/models.py): one instant names
    one content, and recovery replays the newest observation, not the newest
    asset.

    A stream is a (kind, subject) pair; for history files the subject includes
    the filename. Checksums stand for the bytes. */
module ObservationEvents {
  import opened Wrappers

  type Sha = nat
  type Instant = int

  datatype Stream = Stream(kind: string, subject: string)

  datatype Asset = Asset(id: nat, stream: Stream, sha: Sha, retrievedAt: Instant)

  datatype Event = Event(stream: Stream, sha: Sha, asset: nat, observedAt: Instant)

  /** One provider response. */
  datatype Retrieval = Retrieval(stream: Stream, sha: Sha, at: Instant)

  datatype Store = Store(assets: seq<Asset>, events: seq<Event>)

  datatype ObservationError = TwoContentsAtOneInstant

  // ---------------------------------------------------------------------
  // What the tables hold
  // ---------------------------------------------------------------------

  predicate Holds(assets: seq<Asset>, i: nat, r: Retrieval) {
    i < |assets| && assets[i].stream == r.stream && assets[i].sha == r.sha
  }

  predicate ClaimsInstant(e: Event, r: Retrieval) {
    e.stream == r.stream && e.observedAt == r.at
  }

  /** `unique_source_observation_instant`. */
  ghost predicate UniqueInstants(events: seq<Event>) {
    forall i, j :: 0 <= i < j < |events| ==>
      !(events[i].stream == events[j].stream && events[i].observedAt == events[j].observedAt)
  }

  /** Every event certifies bytes its own asset holds. */
  predicate Certifies(assets: seq<Asset>, e: Event) {
    e.asset < |assets| && assets[e.asset].stream == e.stream && assets[e.asset].sha == e.sha
  }

  ghost predicate Valid(s: Store) {
    && (forall i :: 0 <= i < |s.assets| ==> s.assets[i].id == i)
    && UniqueInstants(s.events)
    && (forall e :: e in s.events ==> Certifies(s.assets, e))
  }

  /** The stored asset that already holds these bytes. */
  function FindAt(assets: seq<Asset>, r: Retrieval): (i: Option<nat>)
    ensures i.Some? ==> Holds(assets, i.value, r)
    ensures i.None? ==> forall k: nat :: !Holds(assets, k, r)
  {
    if assets == [] then None
    else
      var before := FindAt(assets[..|assets| - 1], r);
      assert forall k: nat :: k < |assets| - 1 ==> Holds(assets[..|assets| - 1], k, r) == Holds(assets, k, r);
      if before.Some? then before
      else if Holds(assets, |assets| - 1, r) then Some(|assets| - 1)
      else None
  }

  /** The event that already claims this instant. */
  function EventAt(events: seq<Event>, stream: Stream, at: Instant): (e: Option<Event>)
    ensures e.Some? ==> e.value in events && e.value.stream == stream && e.value.observedAt == at
  {
    if events == [] then None
    else
      var before := EventAt(events[..|events| - 1], stream, at);
      var last := events[|events| - 1];
      if before.Some? then before
      else if last.stream == stream && last.observedAt == at then Some(last)
      else None
  }

  lemma {:induction false} EventAtFinds(events: seq<Event>, stream: Stream, at: Instant)
    ensures EventAt(events, stream, at).None? <==> forall e :: e in events ==>
      !(e.stream == stream && e.observedAt == at)
  {
    if events != [] {
      EventAtFinds(events[..|events| - 1], stream, at);
      assert events == events[..|events| - 1] + [events[|events| - 1]];
    }
  }

  /** Other bytes already own this instant. */
  predicate Refuses(s: Store, r: Retrieval) {
    var e := EventAt(s.events, r.stream, r.at);
    e.Some? && e.value.sha != r.sha
  }

  /** The tables after one retrieval: unchanged when the instant is claimed. */
  function Observing(s: Store, r: Retrieval): Store {
    if EventAt(s.events, r.stream, r.at).Some? then s
    else
      match FindAt(s.assets, r)
      case Some(asset) => s.(events := s.events + [Event(r.stream, r.sha, asset, r.at)])
      case None =>
        Store(s.assets + [Asset(|s.assets|, r.stream, r.sha, r.at)],
              s.events + [Event(r.stream, r.sha, |s.assets|, r.at)])
  }

  /** The tables, and the transaction that persists one payload. */
  class Observations {
    var assets: seq<Asset>
    var events: seq<Event>

    ghost function Now(): Store
      reads this
    {
      Store(assets, events)
    }

    constructor ()
      ensures Now() == Store([], [])
    {
      assets, events := [], [];
    }

    method FindAsset(r: Retrieval) returns (found: Option<nat>)
      ensures found == FindAt(assets, r)
    {
      found := None;
      var i: nat := 0;
      while i < |assets|
        invariant i <= |assets|
        invariant found == FindAt(assets[..i], r)
      {
        assert assets[..i + 1][..i] == assets[..i];
        if found.None? && Holds(assets, i, r) {
          found := Some(i);
        }
        i := i + 1;
      }
      assert assets[..|assets|] == assets;
    }

    method FindEvent(r: Retrieval) returns (found: Option<Event>)
      ensures found == EventAt(events, r.stream, r.at)
    {
      found := None;
      var i := 0;
      while i < |events|
        invariant 0 <= i <= |events|
        invariant found == EventAt(events[..i], r.stream, r.at)
      {
        assert events[..i + 1][..i] == events[..i];
        if found.None? && ClaimsInstant(events[i], r) {
          found := Some(events[i]);
        }
        i := i + 1;
      }
      assert events[..|events|] == events;
    }

    /** `_persist_payload` with `_record_observation_event`: the insert claims the
        instant; a repeat of the same bytes is a no-op and other bytes are
        refused, rolling a new asset back. */
    method Persist(r: Retrieval) returns (error: Option<ObservationError>)
      requires Valid(Now())
      modifies this
      ensures Valid(Now()) && Now() == Observing(old(Now()), r)
      ensures error.Some? <==> Refuses(old(Now()), r)
    {
      ObservingKeepsValid(Now(), r);
      var existing := FindAsset(r);
      var committed := FindEvent(r);
      if committed.Some? {
        return if committed.value.sha != r.sha then Some(TwoContentsAtOneInstant) else None;
      }
      var asset: nat;
      if existing.Some? {
        asset := existing.value;
      } else {
        asset := |assets|;
        assets := assets + [Asset(|assets|, r.stream, r.sha, r.at)];
      }
      events := events + [Event(r.stream, r.sha, asset, r.at)];
      error := None;
    }

    /** `_latest_observed_companyfacts`: the newest event, else the newest asset. */
    method LatestObserved(stream: Stream) returns (sha: Option<Sha>, observedAt: Instant)
      requires Valid(Now())
      ensures match NewestEvent(events, stream)
        case Some(e) => sha == Some(e.sha) && observedAt == e.observedAt
        case None =>
          match NewestAsset(assets, stream)
          case Some(a) => sha == Some(a.sha) && observedAt == a.retrievedAt
          case None => sha == None
    {
      var newest: Option<Event> := None;
      var i := 0;
      while i < |events|
        invariant 0 <= i <= |events|
        invariant newest == NewestEvent(events[..i], stream)
      {
        assert events[..i + 1][..i] == events[..i];
        if events[i].stream == stream && (newest.None? || events[i].observedAt > newest.value.observedAt) {
          newest := Some(events[i]);
        }
        i := i + 1;
      }
      assert events[..|events|] == events;
      if newest.Some? {
        return Some(newest.value.sha), newest.value.observedAt;
      }
      var legacy: Option<Asset> := None;
      i := 0;
      while i < |assets|
        invariant 0 <= i <= |assets|
        invariant legacy == NewestAsset(assets[..i], stream)
      {
        assert assets[..i + 1][..i] == assets[..i];
        if assets[i].stream == stream && (legacy.None? || assets[i].retrievedAt > legacy.value.retrievedAt) {
          legacy := Some(assets[i]);
        }
        i := i + 1;
      }
      assert assets[..|assets|] == assets;
      if legacy.Some? {
        return Some(legacy.value.sha), legacy.value.retrievedAt;
      }
      return None, 0;
    }
  }

  lemma ObservingKeepsValid(s: Store, r: Retrieval)
    requires Valid(s)
    ensures Valid(Observing(s, r))
  {
    EventAtFinds(s.events, r.stream, r.at);
    var later := Observing(s, r);
    forall e | e in later.events
      ensures Certifies(later.assets, e)
    {
      assert e in s.events ==> Certifies(s.assets, e);
    }
    forall i, j | 0 <= i < j < |later.events|
      ensures !(later.events[i].stream == later.events[j].stream
        && later.events[i].observedAt == later.events[j].observedAt)
    {
      assert later.events[i] in s.events;
    }
  }

  function NewestEvent(events: seq<Event>, stream: Stream): Option<Event> {
    if events == [] then None
    else
      var before := NewestEvent(events[..|events| - 1], stream);
      var e := events[|events| - 1];
      if e.stream == stream && (before.None? || e.observedAt > before.value.observedAt) then Some(e) else before
  }

  lemma {:induction false} NewestIsNewest(events: seq<Event>, stream: Stream)
    ensures var newest := NewestEvent(events, stream);
      match newest
      case None => forall e :: e in events ==> e.stream != stream
      case Some(top) =>
        && top in events && top.stream == stream
        && forall e :: e in events && e.stream == stream ==> e.observedAt <= top.observedAt
  {
    if events != [] {
      NewestIsNewest(events[..|events| - 1], stream);
      assert events == events[..|events| - 1] + [events[|events| - 1]];
    }
  }

  function NewestAsset(assets: seq<Asset>, stream: Stream): Option<Asset> {
    if assets == [] then None
    else
      var before := NewestAsset(assets[..|assets| - 1], stream);
      var a := assets[|assets| - 1];
      if a.stream == stream && (before.None? || a.retrievedAt > before.value.retrievedAt) then Some(a) else before
  }

  lemma {:induction false} NewestAssetIsNewest(assets: seq<Asset>, stream: Stream)
    ensures match NewestAsset(assets, stream)
      case None => forall a :: a in assets ==> a.stream != stream
      case Some(top) =>
        && top in assets && top.stream == stream
        && forall a :: a in assets && a.stream == stream ==> a.retrievedAt <= top.retrievedAt
  {
    if assets != [] {
      NewestAssetIsNewest(assets[..|assets| - 1], stream);
      assert assets == assets[..|assets| - 1] + [assets[|assets| - 1]];
    }
  }

  // ---------------------------------------------------------------------
  // Every serialisation of writers
  // ---------------------------------------------------------------------

  /** The tables after these retrievals, refused ones included, from nothing.
      Racing inserts are serialised by the uniqueness constraint. */
  function Run(retrievals: seq<Retrieval>): Store {
    if retrievals == [] then Store([], [])
    else Observing(Run(retrievals[..|retrievals| - 1]), retrievals[|retrievals| - 1])
  }

  /** In every reachable store one instant names one content, and every event
      certifies bytes its asset holds. */
  lemma {:induction false} OneContentPerInstant(retrievals: seq<Retrieval>)
    ensures Valid(Run(retrievals))
  {
    if retrievals != [] {
      OneContentPerInstant(retrievals[..|retrievals| - 1]);
      ObservingKeepsValid(Run(retrievals[..|retrievals| - 1]), retrievals[|retrievals| - 1]);
    }
  }

  /** The bytes of the first retrieval of a stream at an instant. */
  function FirstAt(retrievals: seq<Retrieval>, stream: Stream, at: Instant): Option<Sha> {
    if retrievals == [] then None
    else
      var before := FirstAt(retrievals[..|retrievals| - 1], stream, at);
      var last := retrievals[|retrievals| - 1];
      if before.Some? then before
      else if last.stream == stream && last.at == at then Some(last.sha)
      else None
  }

  function ShaOf(e: Option<Event>): Option<Sha> {
    if e.Some? then Some(e.value.sha) else None
  }

  lemma EventAtNext(events: seq<Event>, e: Event, stream: Stream, at: Instant)
    ensures EventAt(events + [e], stream, at) ==
      if EventAt(events, stream, at).Some? then EventAt(events, stream, at)
      else if e.stream == stream && e.observedAt == at then Some(e) else None
  {
    assert (events + [e])[..|events|] == events;
  }

  /** Observing claims an instant only when nothing had. */
  lemma ObservedAt(s: Store, r: Retrieval, stream: Stream, at: Instant)
    ensures ShaOf(EventAt(Observing(s, r).events, stream, at)) ==
      if EventAt(s.events, stream, at).Some? then ShaOf(EventAt(s.events, stream, at))
      else if r.stream == stream && r.at == at then Some(r.sha) else None
  {
    if EventAt(s.events, r.stream, r.at).None? {
      var asset := if FindAt(s.assets, r).Some? then FindAt(s.assets, r).value else |s.assets|;
      assert Observing(s, r).events == s.events + [Event(r.stream, r.sha, asset, r.at)];
      EventAtNext(s.events, Event(r.stream, r.sha, asset, r.at), stream, at);
    }
  }

  lemma {:induction false} InstantNamesFirst(retrievals: seq<Retrieval>, stream: Stream, at: Instant)
    ensures ShaOf(EventAt(Run(retrievals).events, stream, at)) == FirstAt(retrievals, stream, at)
  {
    if retrievals != [] {
      var front := retrievals[..|retrievals| - 1];
      InstantNamesFirst(front, stream, at);
      ObservedAt(Run(front), retrievals[|retrievals| - 1], stream, at);
    }
  }

  /** A retrieval is refused exactly when an earlier one of its stream, at its
      very instant, carried other bytes. */
  lemma RefusedExactly(retrievals: seq<Retrieval>, r: Retrieval)
    ensures Refuses(Run(retrievals), r) <==>
      FirstAt(retrievals, r.stream, r.at).Some? && FirstAt(retrievals, r.stream, r.at) != Some(r.sha)
  {
    InstantNamesFirst(retrievals, r.stream, r.at);
  }

  lemma {:induction false} FirstAtFinds(retrievals: seq<Retrieval>, stream: Stream, at: Instant)
    ensures FirstAt(retrievals, stream, at).Some? <==> exists r :: r in retrievals && r.stream == stream && r.at == at
    ensures FirstAt(retrievals, stream, at).Some? ==>
      exists r :: r in retrievals && r.stream == stream && r.at == at && r.sha == FirstAt(retrievals, stream, at).value
  {
    if retrievals != [] {
      var front := retrievals[..|retrievals| - 1];
      FirstAtFinds(front, stream, at);
      assert retrievals == front + [retrievals[|retrievals| - 1]];
      if FirstAt(front, stream, at).Some? {
        var r :| r in front && r.stream == stream && r.at == at && r.sha == FirstAt(front, stream, at).value;
        assert r in retrievals;
      }
    }
  }

  /** `at` is the latest instant the stream was retrieved. */
  ghost predicate LatestRetrieval(retrievals: seq<Retrieval>, stream: Stream, at: Instant) {
    && (exists r :: r in retrievals && r.stream == stream && r.at == at)
    && (forall r :: r in retrievals && r.stream == stream ==> r.at <= at)
  }

  lemma EventsAreRetrievals(retrievals: seq<Retrieval>, stream: Stream, at: Instant)
    ensures (exists e :: e in Run(retrievals).events && e.stream == stream && e.observedAt == at) <==>
      exists r :: r in retrievals && r.stream == stream && r.at == at
  {
    InstantNamesFirst(retrievals, stream, at);
    EventAtFinds(Run(retrievals).events, stream, at);
    FirstAtFinds(retrievals, stream, at);
  }

  /** Recovery returns the content of the newest retrieval, at its own instant,
      whichever asset happens to hold those bytes. */
  lemma RecoveryIsNewestRetrieval(retrievals: seq<Retrieval>, stream: Stream)
    ensures match NewestEvent(Run(retrievals).events, stream)
      case None => forall r :: r in retrievals ==> r.stream != stream
      case Some(e) =>
        && LatestRetrieval(retrievals, stream, e.observedAt)
        && Some(e.sha) == FirstAt(retrievals, stream, e.observedAt)
  {
    var events := Run(retrievals).events;
    NewestIsNewest(events, stream);
    forall r | r in retrievals && r.stream == stream
      ensures exists e :: e in events && e.stream == stream && e.observedAt == r.at
    {
      EventsAreRetrievals(retrievals, stream, r.at);
    }
    var newest := NewestEvent(events, stream);
    if newest.Some? {
      EventsAreRetrievals(retrievals, stream, newest.value.observedAt);
      InstantNamesFirst(retrievals, stream, newest.value.observedAt);
      OneContentPerInstant(retrievals);
      SameEvent(events, newest.value);
    }
  }

  lemma SameEvent(events: seq<Event>, e: Event)
    requires UniqueInstants(events) && e in events
    ensures EventAt(events, e.stream, e.observedAt) == Some(e)
  {
    EventAtFinds(events, e.stream, e.observedAt);
    var f := EventAt(events, e.stream, e.observedAt).value;
    var i :| 0 <= i < |events| && events[i] == e;
    var j :| 0 <= j < |events| && events[j] == f;
    DistinctInstants(events, i, j);
  }

  lemma DistinctInstants(events: seq<Event>, i: int, j: int)
    requires UniqueInstants(events) && 0 <= i < |events| && 0 <= j < |events|
    requires events[i].stream == events[j].stream && events[i].observedAt == events[j].observedAt
    ensures i == j
  {
  }

  /** No two retrievals of a stream report different bytes at one instant. */
  ghost predicate Consistent(retrievals: seq<Retrieval>) {
    forall r, q :: r in retrievals && q in retrievals && r.stream == q.stream && r.at == q.at ==> r.sha == q.sha
  }

  /** The recovered content and instant do not depend on the order in which
      consistent retrievals were recorded, nor on repeats. */
  lemma RecoveryIgnoresOrder(a: seq<Retrieval>, b: seq<Retrieval>, stream: Stream)
    requires Consistent(a) && forall r :: r in a <==> r in b
    ensures var x, y := NewestEvent(Run(a).events, stream), NewestEvent(Run(b).events, stream);
      && (x.Some? <==> y.Some?)
      && (x.Some? ==> x.value.sha == y.value.sha && x.value.observedAt == y.value.observedAt)
  {
    RecoveryIsNewestRetrieval(a, stream);
    RecoveryIsNewestRetrieval(b, stream);
    var x, y := NewestEvent(Run(a).events, stream), NewestEvent(Run(b).events, stream);
    if x.Some? && y.Some? {
      FirstAtFinds(a, stream, x.value.observedAt);
      FirstAtFinds(b, stream, y.value.observedAt);
    }
  }

  /** After a reversion 100, 101, 100 the newest asset is the superseded one;
      recovery still returns what was observed last. */
  lemma NewestAssetIsStaleAfterReversion(stream: Stream, first: Sha, second: Sha, t0: Instant, t1: Instant, t2: Instant)
    requires first != second && t0 < t1 < t2
    ensures var s := Run([Retrieval(stream, first, t0), Retrieval(stream, second, t1), Retrieval(stream, first, t2)]);
      && NewestEvent(s.events, stream).Some? && NewestEvent(s.events, stream).value.sha == first
      && NewestAsset(s.assets, stream).Some? && NewestAsset(s.assets, stream).value.sha == second
  {
    var r0, r1, r2 := Retrieval(stream, first, t0), Retrieval(stream, second, t1), Retrieval(stream, first, t2);
    var a0, a1 := Asset(0, stream, first, t0), Asset(1, stream, second, t1);
    var e0, e1, e2 := Event(stream, first, 0, t0), Event(stream, second, 1, t1), Event(stream, first, 0, t2);
    RunOfThree(r0, r1, r2);
    FirstObservation(r0, a0, e0);
    ChangedContent(r1, a0, a1, e0, e1);
    RevertedContent(r2, a0, a1, e0, e1, e2);
    assert [a0, a1][..1] == [a0] && [a0][..0] == [];
    assert [e0, e1, e2][..2] == [e0, e1] && [e0, e1][..1] == [e0] && [e0][..0] == [];
    assert NewestEvent([e0], stream) == Some(e0);
    assert NewestEvent([e0, e1], stream) == Some(e1);
    assert NewestAsset([a0], stream) == Some(a0);
  }

  lemma RunOfThree(x: Retrieval, y: Retrieval, z: Retrieval)
    ensures Run([x, y, z]) == Observing(Observing(Observing(Store([], []), x), y), z)
  {
    assert [x, y, z][..2] == [x, y] && [x, y][..1] == [x] && [x][..0] == [];
    assert Run([x]) == Observing(Run([]), x);
    assert Run([x, y]) == Observing(Run([x]), y);
  }

  lemma FirstObservation(r: Retrieval, a: Asset, e: Event)
    requires a == Asset(0, r.stream, r.sha, r.at) && e == Event(r.stream, r.sha, 0, r.at)
    ensures Observing(Store([], []), r) == Store([a], [e])
  {
    assert EventAt([], r.stream, r.at) == None && FindAt([], r) == None;
    assert [] + [a] == [a] && [] + [e] == [e];
  }

  lemma ChangedContent(r: Retrieval, a0: Asset, a1: Asset, e0: Event, e1: Event)
    requires a0.sha != r.sha && e0.observedAt != r.at
    requires a1 == Asset(1, r.stream, r.sha, r.at) && e1 == Event(r.stream, r.sha, 1, r.at)
    ensures Observing(Store([a0], [e0]), r) == Store([a0, a1], [e0, e1])
  {
    EventAtFinds([e0], r.stream, r.at);
    assert FindAt([a0], r) == None;
    assert [a0] + [a1] == [a0, a1] && [e0] + [e1] == [e0, e1];
  }

  lemma RevertedContent(r: Retrieval, a0: Asset, a1: Asset, e0: Event, e1: Event, e2: Event)
    requires a0.stream == r.stream && a0.sha == r.sha && a1.sha != r.sha
    requires e0.observedAt != r.at && e1.observedAt != r.at && e2 == Event(r.stream, r.sha, 0, r.at)
    ensures Observing(Store([a0, a1], [e0, e1]), r) == Store([a0, a1], [e0, e1, e2])
  {
    EventAtFinds([e0, e1], r.stream, r.at);
    assert Holds([a0, a1], 0, r) && !Holds([a0, a1], 1, r);
    assert FindAt([a0, a1], r) == Some(0);
    assert [e0, e1] + [e2] == [e0, e1, e2];
  }
}
