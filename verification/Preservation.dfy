/** Every change, whole or cut short by a death, keeps every invariant. */
module Preservation {
  import opened Wrappers
  import opened Ids
  import opened Sums
  import opened Stores
  import opened Protocol
  import opened Changes
  import opened World
  import opened Invariants

  lemma KeepsLiveNumbers(site: Site, now: nat, st: Store, pending: set<Cleanup>, change: Change)
    requires GenerationsOk(st, pending) && Justified(site, now, st, change)
    ensures var rec := RecordAfter(change, st.shelf, st.rec);
      LiveApart(rec) && BelowNext(rec.Live(), rec.nextGeneration)
  {
    LiveFromBefore(site, now, st, pending, change);
  }

  /** What is live after a change was live before it, or is the next number. */
  lemma LiveFromBefore(site: Site, now: nat, st: Store, pending: set<Cleanup>, change: Change)
    requires GenerationsOk(st, pending) && Justified(site, now, st, change)
    ensures forall g <- RecordAfter(change, st.shelf, st.rec).Live() :: g in st.rec.Live() || g == st.rec.nextGeneration
  {
  }

  lemma KeepsUsedNumbers(site: Site, now: nat, st: Store, pending: set<Cleanup>, change: Change)
    requires GenerationsOk(st, pending) && Justified(site, now, st, change)
    ensures var rec := RecordAfter(change, st.shelf, st.rec);
      BelowNext(rec.used.Keys, rec.nextGeneration) && st.rec.nextGeneration <= rec.nextGeneration
  {
  }

  lemma KeepsRecordNumbers(site: Site, now: nat, st: Store, pending: set<Cleanup>, change: Change)
    requires GenerationsOk(st, pending) && Justified(site, now, st, change)
    ensures var rec := RecordAfter(change, st.shelf, st.rec);
      LiveApart(rec) && BelowNext(rec.Live(), rec.nextGeneration) && BelowNext(rec.used.Keys, rec.nextGeneration)
      && st.rec.nextGeneration <= rec.nextGeneration
      && (forall g <- rec.Live() :: g in st.rec.Live() || g == st.rec.nextGeneration)
  {
    LiveFromBefore(site, now, st, pending, change);
    KeepsLiveNumbers(site, now, st, pending, change);
    KeepsUsedNumbers(site, now, st, pending, change);
  }

  lemma KeepsShelfNumbers(site: Site, now: nat, st: Store, pending: set<Cleanup>, change: Change)
    requires GenerationsOk(st, pending) && Justified(site, now, st, change)
    ensures BelowNext(ShelfAfter(change, st.shelf).generations.Keys, st.rec.nextGeneration)
  {
  }

  /** What a change asks to drop was on the shelf, and is not live after it. */
  lemma AsksForRubbish(site: Site, now: nat, st: Store, pending: set<Cleanup>, change: Change)
    requires GenerationsOk(st, pending) && Justified(site, now, st, change)
    ensures DropsOnlyRubbish(Asked(change, st.shelf, st.rec), RecordAfter(change, st.shelf, st.rec).Live(),
      st.rec.nextGeneration)
  {
    if change.Sweep? || change.Reconcile? {
      SweepAsksForRubbish(st, pending, change);
    }
  }

  lemma SweepAsksForRubbish(st: Store, pending: set<Cleanup>, change: Change)
    requires GenerationsOk(st, pending) && (change.Sweep? || change.Reconcile?)
    ensures DropsOnlyRubbish(Asked(change, st.shelf, st.rec), RecordAfter(change, st.shelf, st.rec).Live(),
      st.rec.nextGeneration)
  {
    assert RecordAfter(change, st.shelf, st.rec).Live() == st.rec.Live();
  }

  lemma KeepsGenerations(site: Site, now: nat, st: Store, pending: set<Cleanup>, change: Change)
    requires GenerationsOk(st, pending) && Justified(site, now, st, change)
    ensures GenerationsOk(Apply(change, st), pending + Asked(change, st.shelf, st.rec))
  {
    KeepsRecordNumbers(site, now, st, pending, change);
    KeepsShelfNumbers(site, now, st, pending, change);
    AsksForRubbish(site, now, st, pending, change);
  }

  lemma HalfKeepsGenerations(site: Site, now: nat, st: Store, pending: set<Cleanup>, change: Change)
    requires GenerationsOk(st, pending) && Justified(site, now, st, change)
    ensures GenerationsOk(Store(ShelfAfter(change, st.shelf), st.rec), {})
  {
  }

  lemma KeepsUploads(site: Site, now: nat, st: Store, hist: History, change: Change)
    requires UploadsOk(st.rec, hist) && Justified(site, now, st, change)
    requires change.Issue? ==> change.upload in hist.spent && change.upload !in hist.issued
    ensures UploadsOk(RecordAfter(change, st.shelf, st.rec), AfterRecord(change, st.rec, AfterShelfStep(change, hist)))
  {
  }

  lemma AsksToRemove(site: Site, now: nat, st: Store, hist: History, change: Change)
    requires st.shelf.staging.Keys <= hist.spent && UploadsOk(st.rec, hist) && Justified(site, now, st, change)
    ensures forall u :: RemoveStaging(u) in Asked(change, st.shelf, st.rec) ==>
      u in hist.spent && u !in RecordAfter(change, st.shelf, st.rec).tickets
  {
  }

  lemma KeepsPlaces(site: Site, now: nat, st: Store, hist: History, change: Change)
    requires forall u <- st.rec.tickets :: u in st.shelf.staging || u in hist.places
    requires Justified(site, now, st, change)
    ensures forall u <- RecordAfter(change, st.shelf, st.rec).tickets ::
      u in ShelfAfter(change, st.shelf).staging || u in AfterShelfStep(change, hist).places
  {
  }

  lemma KeepsStaging(site: Site, now: nat, st: Store, pending: set<Cleanup>, hist: History, change: Change)
    requires StagingOk(st.shelf, st.rec, pending, hist) && UploadsOk(st.rec, hist) && Justified(site, now, st, change)
    requires change.Issue? ==> change.upload in hist.spent && RemoveStaging(change.upload) !in pending
    ensures StagingOk(ShelfAfter(change, st.shelf), RecordAfter(change, st.shelf, st.rec),
                      pending + Asked(change, st.shelf, st.rec),
                      AfterRecord(change, st.rec, AfterShelfStep(change, hist)))
  {
    AsksToRemove(site, now, st, hist, change);
    KeepsPlaces(site, now, st, hist, change);
    var after := AfterRecord(change, st.rec, AfterShelfStep(change, hist));
    assert after.spent == hist.spent && after.places == AfterShelfStep(change, hist).places;
    assert ShelfAfter(change, st.shelf).staging.Keys <= hist.spent;
    assert forall u <- RecordAfter(change, st.shelf, st.rec).tickets ::
      u in st.rec.tickets || (change.Issue? && u == change.upload);
  }

  lemma KeepsContent(site: Site, now: nat, st: Store, hist: History, change: Change)
    requires ContentOk(site, st.shelf.staging, hist.issued) && UploadsOk(st.rec, hist)
    requires Justified(site, now, st, change)
    requires change.Issue? ==> change.upload !in hist.issued
    ensures ContentOk(site, ShelfAfter(change, st.shelf).staging,
      AfterRecord(change, st.rec, AfterShelfStep(change, hist)).issued)
    ensures ContentOk(site, ShelfAfter(change, st.shelf).staging, hist.issued)
  {
    PlacesAfter(change, st.shelf);
    IssuedAfter(change, st.rec, hist);
  }

  /** A change's shelf step makes an empty place at most, and fills none. */
  lemma PlacesAfter(change: Change, shelf: Shelf)
    ensures forall u <- ShelfAfter(change, shelf).staging ::
      (u in shelf.staging && ShelfAfter(change, shelf).staging[u] == shelf.staging[u])
      || ((change.Issue? || change.Restage?) && u == change.upload
           && ShelfAfter(change, shelf).staging[u] == EMPTY_PLACE)
  {
  }

  lemma IssuedAfter(change: Change, rec: WorkspaceRecord, hist: History)
    ensures AfterRecord(change, rec, AfterShelfStep(change, hist)).issued
      == if change.Issue? then hist.issued[change.upload := change.ticket] else hist.issued
  {
  }

  lemma KeepsOneTicket(site: Site, now: nat, st: Store, change: Change)
    requires OneTicketEach(st.rec.tickets, now) && Justified(site, now, st, change)
    ensures OneTicketEach(RecordAfter(change, st.shelf, st.rec).tickets, now)
  {
    if change.Issue? {
      assert forall u <- st.rec.tickets | IsLive(st.rec.tickets[u], now) ::
        !Answers(st.rec.tickets[u], change.ticket.owner, change.ticket.request)
        by {
          forall u <- st.rec.tickets | IsLive(st.rec.tickets[u], now)
            ensures !Answers(st.rec.tickets[u], change.ticket.owner, change.ticket.request)
          {
            assert u !in LiveTicketsFor(st.rec, now, change.ticket.owner, change.ticket.request);
          }
        }
    }
  }

  lemma KeepsDeduplicated(site: Site, now: nat, st: Store, change: Change)
    requires Deduplicated(st.shelf) && Justified(site, now, st, change)
    ensures Deduplicated(ShelfAfter(change, st.shelf))
  {
    if change.Publish? {
      var items := st.shelf.Items(change.generation);
      forall id <- items ensures id.ContentKey() != change.id.ContentKey() {
        assert id !in WithKey(items, change.id.ContentKey());
      }
    }
  }

  lemma KeepsHonest(site: Site, now: nat, st: Store, hist: History, change: Change)
    requires AllHonest(site, st.shelf) && ContentOk(site, st.shelf.staging, hist.issued)
    requires Justified(site, now, st, change)
    ensures AllHonest(site, ShelfAfter(change, st.shelf))
  {
  }

  predicate ChangesItems(change: Change) { change.Publish? || change.Remove? }

  lemma ItemChangeKeepsKeys(site: Site, now: nat, st: Store, pending: set<Cleanup>, change: Change)
    requires KeysOk(st) && GenerationsOk(st, pending) && StateOk(st.rec) && Justified(site, now, st, change)
    requires ChangesItems(change)
    ensures KeysOk(Apply(change, st))
  {
  }

  lemma RecordChangeKeepsKeys(site: Site, now: nat, st: Store, pending: set<Cleanup>, change: Change)
    requires KeysOk(st) && GenerationsOk(st, pending) && StateOk(st.rec) && Justified(site, now, st, change)
    requires !ChangesItems(change)
    ensures KeysOk(Apply(change, st))
  {
    assert ShelfAfter(change, st.shelf).generations == st.shelf.generations;
  }

  lemma KeepsKeys(site: Site, now: nat, st: Store, pending: set<Cleanup>, change: Change)
    requires KeysOk(st) && GenerationsOk(st, pending) && StateOk(st.rec) && Justified(site, now, st, change)
    ensures KeysOk(Apply(change, st))
  {
    if ChangesItems(change) {
      ItemChangeKeepsKeys(site, now, st, pending, change);
    } else {
      RecordChangeKeepsKeys(site, now, st, pending, change);
    }
  }

  lemma HalfKeepsKeys(site: Site, now: nat, st: Store, pending: set<Cleanup>, change: Change)
    requires KeysOk(st) && GenerationsOk(st, pending) && StateOk(st.rec) && Justified(site, now, st, change)
    ensures KeysOk(Store(ShelfAfter(change, st.shelf), st.rec))
  {
  }

  lemma KeepsState(site: Site, now: nat, st: Store, change: Change)
    requires StateOk(st.rec) && Justified(site, now, st, change)
    ensures StateOk(RecordAfter(change, st.shelf, st.rec))
  {
  }

  // === who made what ===

  /** An item an upload published and that has not left stands where that
      upload would publish now. */
  lemma StandsInTarget(st: Store, pending: set<Cleanup>, hist: History, upload: UploadId, generation: nat)
    requires MakersOk(st, hist) && UploadsOk(st.rec, hist) && KeysOk(st) && StateOk(st.rec)
      && GenerationsOk(st, pending)
    requires upload in st.rec.tickets && Targets(st.rec, st.rec.tickets[upload].request, generation)
    requires upload in hist.places && upload !in hist.gone
    ensures hist.places[upload] == (generation, st.rec.tickets[upload].request.id)
  {
    var item := st.shelf.Items(hist.places[upload].0)[hist.places[upload].1];
    assert item.envelope.under == st.rec.tickets[upload].request.expectedKeyId;
  }

  lemma PublishKeepsMakers(site: Site, now: nat, st: Store, pending: set<Cleanup>, hist: History, change: Change)
    requires MakersOk(st, hist) && UploadsOk(st.rec, hist) && KeysOk(st) && StateOk(st.rec)
      && GenerationsOk(st, pending)
    requires change.Publish? && Justified(site, now, st, change)
    ensures MakersOk(Store(ShelfAfter(change, st.shelf), st.rec), AfterShelfStep(change, hist))
  {
    var items := st.shelf.Items(change.generation);
    assert change.id !in WithKey(items, change.id.ContentKey());
    assert change.id !in items;
    if change.upload in hist.places && change.upload !in hist.gone {
      StandsInTarget(st, pending, hist, change.upload, change.generation);
    }
    PublishedStands(st, hist, change);
    PublishedMade(st, hist, change);
  }

  ghost predicate PublishesAnew(st: Store, hist: History, change: Change) {
    && change.Publish?
    && change.upload in st.shelf.staging && change.upload in hist.issued
    && change.id == hist.issued[change.upload].request.id
    && change.envelope.under == hist.issued[change.upload].request.expectedKeyId
    && |st.shelf.staging[change.upload].content| == hist.issued[change.upload].request.size
    && (st.rec.state.Rewriting? && change.generation == st.rec.state.session.stagedGeneration ==>
          hist.issued[change.upload].request.inRewrite)
    && change.generation in st.rec.Live()
    && change.id !in st.shelf.Items(change.generation)
    && (change.upload in hist.places ==> change.upload in hist.gone)
  }

  lemma PublishedStands(st: Store, hist: History, change: Change)
    requires PlacesOk(st.shelf, st.rec, hist) && PublishesAnew(st, hist, change)
    ensures PlacesOk(ShelfAfter(change, st.shelf), st.rec, AfterShelfStep(change, hist))
  {
    var shelf, after := ShelfAfter(change, st.shelf), AfterShelfStep(change, hist);
    forall u <- after.places
      ensures u in after.issued && after.places[u].1 == after.issued[u].request.id
      ensures u !in after.gone ==> StandsAsMade(shelf, st.rec, after, u)
    {
      if u != change.upload && u !in hist.gone {
        assert StandsAsMade(st.shelf, st.rec, hist, u);
        assert hist.places[u] != (change.generation, change.id);
      }
    }
  }

  lemma PublishedMade(st: Store, hist: History, change: Change)
    requires ItemsMade(st.shelf, st.rec.Live(), hist) && PublishesAnew(st, hist, change)
    ensures ItemsMade(ShelfAfter(change, st.shelf), st.rec.Live(), AfterShelfStep(change, hist))
  {
    var shelf, after := ShelfAfter(change, st.shelf), AfterShelfStep(change, hist);
    forall g, id | g in st.rec.Live() && id in shelf.Items(g) ensures MadeBySomeone(after, (g, id)) {
      if (g, id) != (change.generation, change.id) {
        assert id in st.shelf.Items(g);
        assert MadeBySomeone(hist, (g, id));
      }
    }
  }

  lemma RemoveKeepsMakers(site: Site, now: nat, st: Store, hist: History, change: Change)
    requires MakersOk(st, hist) && change.Remove? && Justified(site, now, st, change)
    ensures MakersOk(Store(ShelfAfter(change, st.shelf), st.rec), AfterShelfStep(change, hist))
  {
    assert change.generation in st.rec.Live();
    assert (change.generation, change.id) in hist.makers;
  }

  /** New live generations are empty, and what was placed in a generation
      that is no longer live is gone: then the makers are known as before. */
  lemma MakersCarryOver(shelf: Shelf, rec: WorkspaceRecord, after: WorkspaceRecord, hist: History, later: History,
          left: set<nat>)
    requires MakersOk(Store(shelf, rec), hist)
    requires rec.Live() - left <= after.Live()
    requires forall g <- after.Live() :: g in rec.Live() - left || shelf.Items(g) == map[]
    requires later.places == hist.places && later.makers == hist.makers
    requires forall u <- hist.issued :: u in later.issued && later.issued[u] == hist.issued[u]
    requires forall u <- hist.gone :: u in later.gone
    requires forall u <- hist.places :: u !in hist.gone ==> (u in later.gone <==> hist.places[u].0 in left)
    requires after.state.Rewriting? ==>
      var staged := after.state.session.stagedGeneration;
      shelf.Items(staged) == map[] || (rec.state.Rewriting? && staged == rec.state.session.stagedGeneration)
    ensures MakersOk(Store(shelf, after), later)
  {
    forall u <- later.places | u !in later.gone ensures StandsAsMade(shelf, after, later, u) {
      assert StandsAsMade(shelf, rec, hist, u);
    }
    forall g, id | g in after.Live() && id in shelf.Items(g) ensures MadeBySomeone(later, (g, id)) {
      assert MadeBySomeone(hist, (g, id));
    }
  }

  /** The record's part of any change keeps what is known of the makers. */
  lemma RecordKeepsMakers(site: Site, now: nat, st: Store, shelf: Shelf, pending: set<Cleanup>, hist: History,
          change: Change)
    requires GenerationsOk(st, pending) && StateOk(st.rec) && MakersOk(Store(shelf, st.rec), hist)
    requires BelowNext(shelf.generations.Keys, st.rec.nextGeneration)
    requires Justified(site, now, st, change)
    requires change.Issue? ==> change.upload !in hist.issued
    ensures MakersOk(Store(shelf, RecordAfter(change, st.shelf, st.rec)), AfterRecord(change, st.rec, hist))
  {
    var rec, later := RecordAfter(change, st.shelf, st.rec), AfterRecord(change, st.rec, hist);
    var left := Leaves(change, st.rec);
    KeepsRecordNumbers(site, now, st, pending, change);
    LiveAfter(site, now, st, pending, change);
    assert st.rec.nextGeneration !in shelf.generations;
    MakersCarryOver(shelf, st.rec, rec, hist, later, left);
  }

  /** The generation that is no longer live after a change. */
  function Leaves(change: Change, rec: WorkspaceRecord): set<nat> {
    match change
    case Switch => {rec.generation}
    case EndAborted => if rec.state.Rewriting? then {rec.state.session.stagedGeneration} else {}
    case _ => {}
  }

  lemma LiveAfter(site: Site, now: nat, st: Store, pending: set<Cleanup>, change: Change)
    requires GenerationsOk(st, pending) && StateOk(st.rec) && Justified(site, now, st, change)
    ensures var live := RecordAfter(change, st.shelf, st.rec).Live();
      st.rec.Live() - Leaves(change, st.rec) <= live
      && forall g <- live :: g in st.rec.Live() - Leaves(change, st.rec) || g == st.rec.nextGeneration
  {
  }

  lemma HalfKeepsMakers(site: Site, now: nat, st: Store, pending: set<Cleanup>, hist: History, change: Change)
    requires MakersOk(st, hist) && UploadsOk(st.rec, hist) && KeysOk(st) && StateOk(st.rec)
      && GenerationsOk(st, pending)
    requires Justified(site, now, st, change)
    ensures MakersOk(Store(ShelfAfter(change, st.shelf), st.rec), AfterShelfStep(change, hist))
  {
    if change.Publish? {
      PublishKeepsMakers(site, now, st, pending, hist, change);
    } else if change.Remove? {
      RemoveKeepsMakers(site, now, st, hist, change);
    } else {
      assert ShelfAfter(change, st.shelf).generations == st.shelf.generations;
    }
  }

  lemma KeepsMakers(site: Site, now: nat, st: Store, pending: set<Cleanup>, hist: History, change: Change)
    requires MakersOk(st, hist) && UploadsOk(st.rec, hist) && KeysOk(st) && StateOk(st.rec)
      && GenerationsOk(st, pending)
    requires Justified(site, now, st, change)
    requires change.Issue? ==> change.upload !in hist.issued
    ensures MakersOk(Apply(change, st), AfterRecord(change, st.rec, AfterShelfStep(change, hist)))
  {
    HalfKeepsMakers(site, now, st, pending, hist, change);
    KeepsShelfNumbers(site, now, st, pending, change);
    assert UploadsOk(st.rec, AfterShelfStep(change, hist));
    RecordKeepsMakers(site, now, st, ShelfAfter(change, st.shelf), pending, AfterShelfStep(change, hist), change);
  }

  lemma KeepsSeals(site: Site, now: nat, st: Store, hist: History, change: Change)
    requires SealsOk(st.rec, hist) && Justified(site, now, st, change)
    ensures SealsOk(RecordAfter(change, st.shelf, st.rec), AfterRecord(change, st.rec, AfterShelfStep(change, hist)))
  {
  }

  // === the books ===

  lemma PublishKeepsBooks(site: Site, now: nat, st: Store, change: Change)
    requires BooksOk(st) && change.Publish? && Justified(site, now, st, change)
    ensures BooksOk(Apply(change, st))
  {
    var items := st.shelf.Items(change.generation);
    assert change.id !in WithKey(items, change.id.ContentKey());
    BytesOfPutIn(items, change.id, Item(st.shelf.staging[change.upload].content, change.envelope));
    assert change.generation in st.rec.Live();
  }

  lemma RemoveKeepsBooks(site: Site, now: nat, st: Store, change: Change)
    requires BooksOk(st) && change.Remove? && Justified(site, now, st, change)
    ensures BooksOk(Apply(change, st))
  {
    BytesOfTakeOut(st.shelf.Items(change.generation), change.id);
    assert change.generation in st.rec.Live();
  }

  lemma NoBytes(shelf: Shelf, generation: nat)
    requires shelf.Items(generation) == map[]
    ensures shelf.Bytes(generation) == 0
  {
  }

  lemma UsedAfter(site: Site, now: nat, st: Store, pending: set<Cleanup>, change: Change, g: nat)
    requires GenerationsOk(st, pending) && Justified(site, now, st, change)
    requires !change.Publish? && !change.Remove?
    requires g in RecordAfter(change, st.shelf, st.rec).Live()
    ensures var used := RecordAfter(change, st.shelf, st.rec).UsedOf(g);
      used == st.rec.UsedOf(g) || used == st.shelf.Bytes(g)
  {
  }

  lemma RecordKeepsBooks(site: Site, now: nat, st: Store, pending: set<Cleanup>, change: Change)
    requires BooksOk(st) && GenerationsOk(st, pending) && StateOk(st.rec) && Justified(site, now, st, change)
    requires !change.Publish? && !change.Remove?
    ensures BooksOk(Apply(change, st))
  {
    LiveAfter(site, now, st, pending, change);
    NoBytes(st.shelf, st.rec.nextGeneration);
    var shelf, rec := ShelfAfter(change, st.shelf), RecordAfter(change, st.shelf, st.rec);
    assert shelf.generations == st.shelf.generations;
    forall g <- rec.Live() ensures rec.UsedOf(g) == shelf.Bytes(g) {
      UsedAfter(site, now, st, pending, change, g);
      assert shelf.Items(g) == st.shelf.Items(g);
    }
  }

  lemma KeepsBooks(site: Site, now: nat, st: Store, pending: set<Cleanup>, change: Change)
    requires BooksOk(st) && GenerationsOk(st, pending) && StateOk(st.rec) && Justified(site, now, st, change)
    ensures BooksOk(Apply(change, st))
  {
    if change.Publish? {
      PublishKeepsBooks(site, now, st, change);
    } else if change.Remove? {
      RemoveKeepsBooks(site, now, st, change);
    } else {
      RecordKeepsBooks(site, now, st, pending, change);
    }
  }

  /** Reconciling needs no books to begin with. */
  lemma ReconcileMakesBooks(now: nat, st: Store)
    ensures BooksOk(Apply(Reconcile(now), st))
  {
  }
}
