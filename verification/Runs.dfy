/** The invariants hold at every moment of every run, deaths included. */
module Runs {
  import opened Wrappers
  import opened Ids
  import opened Stores
  import opened Protocol
  import opened Changes
  import opened World
  import opened Invariants
  import opened Preservation

  /** An id that is issued was drawn, and for no ticket before. */
  ghost predicate DrawnFor(change: Change, w: World) {
    change.Issue? ==>
      change.upload in w.hist.spent && change.upload !in w.hist.issued && RemoveStaging(change.upload) !in w.pending
  }

  lemma DecisionsIssueWhatWasDrawn(site: Site, w: World, op: Op)
    requires Inv(site, w) && Fresh(op, w.hist)
    ensures DrawnFor(Decide(site, w.now, w.store, op).change, w.(hist := Drawing(op, w.hist)))
  {
  }

  lemma DrawingKeepsInv(site: Site, w: World, op: Op)
    requires Inv(site, w)
    ensures Inv(site, w.(hist := Drawing(op, w.hist)))
  {
    var hist := Drawing(op, w.hist);
    assert PlacesOk(w.store.shelf, w.store.rec, hist) by {
      forall u <- hist.places | u !in hist.gone ensures StandsAsMade(w.store.shelf, w.store.rec, hist, u) {
        assert StandsAsMade(w.store.shelf, w.store.rec, w.hist, u);
      }
    }
    assert ItemsMade(w.store.shelf, w.store.rec.Live(), hist) by {
      forall g, id | g in w.store.rec.Live() && id in w.store.shelf.Items(g) ensures MadeBySomeone(hist, (g, id)) {
        assert MadeBySomeone(w.hist, (g, id));
      }
    }
  }

  lemma MakingKeepsInv(site: Site, w: World, change: Change)
    requires Inv(site, w) && Justified(site, w.now, w.store, change) && DrawnFor(change, w)
    requires w.up || change.Reconcile?
    ensures Inv(site, Making(change, w).(up := w.up || change.Reconcile?))
  {
    KeepsGenerations(site, w.now, w.store, w.pending, change);
    KeepsUploads(site, w.now, w.store, w.hist, change);
    KeepsStaging(site, w.now, w.store, w.pending, w.hist, change);
    KeepsContent(site, w.now, w.store, w.hist, change);
    KeepsOneTicket(site, w.now, w.store, change);
    KeepsDeduplicated(site, w.now, w.store, change);
    KeepsHonest(site, w.now, w.store, w.hist, change);
    KeepsKeys(site, w.now, w.store, w.pending, change);
    KeepsState(site, w.now, w.store, change);
    KeepsMakers(site, w.now, w.store, w.pending, w.hist, change);
    KeepsSeals(site, w.now, w.store, w.hist, change);
    if change.Reconcile? {
      ReconcileMakesBooks(change.now, w.store);
    } else if w.up {
      KeepsBooks(site, w.now, w.store, w.pending, change);
    }
  }

  lemma HalfMakingKeepsInv(site: Site, w: World, change: Change)
    requires Inv(site, w) && Justified(site, w.now, w.store, change) && DrawnFor(change, w)
    ensures Inv(site, HalfMaking(change, w))
  {
    HalfKeepsGenerations(site, w.now, w.store, w.pending, change);
    KeepsPlaces(site, w.now, w.store, w.hist, change);
    KeepsContent(site, w.now, w.store, w.hist, change);
    KeepsDeduplicated(site, w.now, w.store, change);
    KeepsHonest(site, w.now, w.store, w.hist, change);
    HalfKeepsKeys(site, w.now, w.store, w.pending, change);
    HalfKeepsMakers(site, w.now, w.store, w.pending, w.hist, change);
    assert StagingOk(ShelfAfter(change, w.store.shelf), w.store.rec, {}, AfterShelfStep(change, w.hist));
  }

  /** A destructive step touches nothing the record points to. */
  lemma CleaningSparesLive(st: Store, pending: set<Cleanup>, hist: History, c: Cleanup)
    requires GenerationsOk(st, pending) && StagingOk(st.shelf, st.rec, pending, hist) && c in pending
    ensures forall g <- st.rec.Live() :: CleanedUp(c, st.shelf).Items(g) == st.shelf.Items(g)
    ensures forall u <- st.rec.tickets :: u in CleanedUp(c, st.shelf).staging <==> u in st.shelf.staging
    ensures forall u <- st.rec.tickets | u in st.shelf.staging ::
      CleanedUp(c, st.shelf).staging[u] == st.shelf.staging[u]
  {
  }

  /** What is known of live items carries over to a shelf with the same ones. */
  lemma SameLiveItems(site: Site, st: Store, shelf: Shelf, hist: History)
    requires KeysOk(st) && MakersOk(st, hist)
    requires forall g <- st.rec.Live() :: shelf.Items(g) == st.shelf.Items(g)
    ensures KeysOk(Store(shelf, st.rec)) && MakersOk(Store(shelf, st.rec), hist)
    ensures BooksOk(st) ==> BooksOk(Store(shelf, st.rec))
  {
    forall u <- hist.places | u !in hist.gone ensures StandsAsMade(shelf, st.rec, hist, u) {
      assert StandsAsMade(st.shelf, st.rec, hist, u);
    }
    forall g, id | g in st.rec.Live() && id in shelf.Items(g) ensures MadeBySomeone(hist, (g, id)) {
      assert id in st.shelf.Items(g);
    }
  }

  lemma CleaningKeepsInv(site: Site, w: World, c: Cleanup)
    requires Inv(site, w) && c in w.pending
    ensures Inv(site, Next(site, w, Clean(c)))
  {
    var shelf := CleanedUp(c, w.store.shelf);
    CleaningSparesLive(w.store, w.pending, w.hist, c);
    SameLiveItems(site, w.store, shelf, w.hist);
  }

  lemma WritingKeepsInv(site: Site, w: World, upload: UploadId, hashed: bool, content: Option<seq<byte>>)
    requires Inv(site, w) && w.up && upload in w.hist.issued
    requires content.Some? ==> |content.value| <= w.hist.issued[upload].request.size
    ensures Inv(site, w.(store := Store(Written(site, w.store.shelf, upload, hashed, content), w.store.rec)))
  {
    var shelf := Written(site, w.store.shelf, upload, hashed, content);
    SameLiveItems(site, w.store, shelf, w.hist);
  }

  lemma RevivingKeepsInv(site: Site, w: World, upload: UploadId)
    requires Inv(site, w) && w.up && upload in w.store.rec.tickets
    ensures Inv(site, w.(store := Store(Create(w.store.shelf, upload), w.store.rec)))
  {
    SameLiveItems(site, w.store, Create(w.store.shelf, upload), w.hist);
  }

  lemma NextKeepsInv(site: Site, w: World, e: Event)
    requires Inv(site, w) && Enabled(w, e)
    ensures Inv(site, Next(site, w, e))
  {
    match e
    case Do(op) =>
      DrawingKeepsInv(site, w, op);
      DecisionsIssueWhatWasDrawn(site, w, op);
      DecisionsAreJustified(site, w.now, w.store, op);
      MakingKeepsInv(site, w.(hist := Drawing(op, w.hist)), Decide(site, w.now, w.store, op).change);
    case DieInside(op) =>
      DrawingKeepsInv(site, w, op);
      DecisionsIssueWhatWasDrawn(site, w, op);
      DecisionsAreJustified(site, w.now, w.store, op);
      HalfMakingKeepsInv(site, w.(hist := Drawing(op, w.hist)), Decide(site, w.now, w.store, op).change);
    case Open =>
      MakingKeepsInv(site, w, Reconcile(w.now));
    case Write(upload, content) =>
      WritingKeepsInv(site, w, upload, ChecksContent(site, w.hist.issued[upload].request), content);
    case DieWriting(upload, some) => WritingKeepsInv(site, w, upload, false, Some(some));
    case Revive(upload) => RevivingKeepsInv(site, w, upload);
    case Clean(c) => CleaningKeepsInv(site, w, c);
    case _ =>
  }

  lemma InitialHasInv(site: Site, w: World)
    requires Initial(w)
    ensures Inv(site, w)
  {
  }

  /** Safety over whole runs. */
  lemma {:induction false} RunKeepsInv(site: Site, w: World, events: seq<Event>)
    requires Inv(site, w) && Possible(site, w, events)
    ensures Inv(site, End(site, w, events))
    decreases |events|
  {
    if events != [] {
      NextKeepsInv(site, w, events[0]);
      RunKeepsInv(site, Next(site, w, events[0]), events[1..]);
    }
  }

  lemma ReachableHasInv(site: Site, w: World)
    requires Reachable(site, w)
    ensures Inv(site, w)
  {
    var start, events :| Initial(start) && Possible(site, start, events) && End(site, start, events) == w;
    InitialHasInv(site, start);
    RunKeepsInv(site, start, events);
  }

  // === runs in pieces ===

  lemma {:induction false} RunInTwo(site: Site, w: World, first: seq<Event>, rest: seq<Event>)
    ensures Possible(site, w, first + rest) <==>
      Possible(site, w, first) && Possible(site, End(site, w, first), rest)
    ensures Possible(site, w, first + rest) ==>
      End(site, w, first + rest) == End(site, End(site, w, first), rest)
    decreases |first|
  {
    if first == [] {
      assert first + rest == rest;
    } else {
      assert (first + rest)[0] == first[0] && (first + rest)[1..] == first[1..] + rest;
      if Enabled(w, first[0]) {
        RunInTwo(site, Next(site, w, first[0]), first[1..], rest);
      }
    }
  }

  lemma ReachableThen(site: Site, w: World, events: seq<Event>)
    requires Reachable(site, w) && Possible(site, w, events)
    ensures Reachable(site, End(site, w, events))
  {
    var start, before :| Initial(start) && Possible(site, start, before) && End(site, start, before) == w;
    RunInTwo(site, start, before, events);
  }

  lemma OneMore(site: Site, w: World, e: Event)
    requires Reachable(site, w) && Enabled(w, e)
    ensures Reachable(site, Next(site, w, e))
  {
    var next := Next(site, w, e);
    assert [e][0] == e && [e][1..] == [];
    assert Possible(site, next, []) && End(site, next, []) == next;
    assert Possible(site, w, [e]);
    assert End(site, w, [e]) == End(site, next, [e][1..]);
    ReachableThen(site, w, [e]);
  }

  lemma TimeGoesOn(site: Site, w: World, e: Event)
    requires Enabled(w, e)
    ensures w.now <= Next(site, w, e).now
  {
  }

  lemma {:induction false} TimeGoesOnOverRuns(site: Site, w: World, events: seq<Event>)
    requires Possible(site, w, events)
    ensures w.now <= End(site, w, events).now
    decreases |events|
  {
    if events != [] {
      TimeGoesOn(site, w, events[0]);
      TimeGoesOnOverRuns(site, Next(site, w, events[0]), events[1..]);
    }
  }
}
