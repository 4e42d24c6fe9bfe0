/** What holds in every reachable world. Each predicate reads only what it is
    about; `Inv` is their conjunction. */
module Invariants {
  import opened Wrappers
  import opened Ids
  import opened Stores
  import opened Protocol
  import opened World

  // === generations are never used twice ===

  ghost predicate LiveApart(rec: WorkspaceRecord) {
    && (rec.plain.Some? ==> rec.plain.value != rec.generation)
    && (rec.state.Rewriting? ==>
          var staged := rec.state.session.stagedGeneration;
          staged != rec.generation && rec.plain != Some(staged))
  }

  ghost predicate BelowNext(generations: set<nat>, next: nat) {
    forall g <- generations :: g < next
  }

  ghost predicate DropsOnlyRubbish(pending: set<Cleanup>, live: set<nat>, next: nat) {
    forall g: nat :: DropGeneration(g) in pending ==> g < next && g !in live
  }

  ghost predicate GenerationsOk(st: Store, pending: set<Cleanup>) {
    && LiveApart(st.rec)
    && BelowNext(st.rec.Live(), st.rec.nextGeneration)
    && BelowNext(st.rec.used.Keys, st.rec.nextGeneration)
    && BelowNext(st.shelf.generations.Keys, st.rec.nextGeneration)
    && DropsOnlyRubbish(pending, st.rec.Live(), st.rec.nextGeneration)
  }

  // === uploads ===

  ghost predicate UploadsOk(rec: WorkspaceRecord, hist: History) {
    && (forall u <- rec.tickets :: u in hist.issued && hist.issued[u] == rec.tickets[u] && u !in hist.outcomes)
    && (forall u <- rec.tombstones ::
          u in hist.outcomes && u in hist.issued && hist.outcomes[u] == rec.tombstones[u].outcome
          && hist.issued[u].owner == rec.tombstones[u].owner)
    && hist.outcomes.Keys <= hist.issued.Keys
    && hist.issued.Keys <= hist.spent
  }

  ghost predicate StagingOk(shelf: Shelf, rec: WorkspaceRecord, pending: set<Cleanup>, hist: History) {
    && shelf.staging.Keys <= hist.spent
    && (forall u :: RemoveStaging(u) in pending ==> u in hist.spent && u !in rec.tickets)
    && (forall u <- rec.tickets :: u in shelf.staging || u in hist.places)
  }

  /** What is staged is no more than was announced, and a digest is that of the content. */
  ghost predicate ContentOk(site: Site, staging: map<UploadId, Staged>, issued: map<UploadId, Ticket>) {
    forall u <- staging ::
      && (u in issued ==> |staging[u].content| <= issued[u].request.size)
      && (u !in issued ==> staging[u] == EMPTY_PLACE)
      && (staging[u].digest.Some? ==> staging[u].digest.value == site.sha256(staging[u].content))
  }

  ghost predicate OneTicketEach(tickets: map<UploadId, Ticket>, now: nat) {
    forall u <- tickets, v <- tickets |
      && IsLive(tickets[u], now) && IsLive(tickets[v], now)
      && tickets[u].owner == tickets[v].owner && tickets[u].request == tickets[v].request
      :: u == v
  }

  // === items ===

  /** At most one item of a content key. */
  ghost predicate OneEach(items: map<ItemId, Item>) {
    forall a, b :: a in items && b in items && a.ContentKey() == b.ContentKey() ==> a == b
  }

  ghost predicate Deduplicated(shelf: Shelf) {
    forall g <- shelf.generations :: OneEach(shelf.generations[g])
  }

  /** A plaintext item is what its id says. */
  ghost predicate HonestItem(site: Site, id: ItemId, item: Item) {
    site.limits.checkPlaintextContent && item.envelope.under.None? ==>
      id.ContentKey() == Hex(site.sha256(item.content))[..12]
      && var said := site.said(item.envelope.meta);
         said.Some? && said.value.size == Some(|item.content|)
         && said.value.sha256 == Some(Hex(site.sha256(item.content)))
  }

  ghost predicate HonestItems(site: Site, items: map<ItemId, Item>) {
    forall id <- items :: HonestItem(site, id, items[id])
  }

  ghost predicate AllHonest(site: Site, shelf: Shelf) {
    forall g <- shelf.generations :: HonestItems(site, shelf.generations[g])
  }

  ghost predicate AllUnder(items: map<ItemId, Item>, key: Option<KeyId>) {
    forall id <- items :: items[id].envelope.under == key
  }

  /** Every live generation is under one key: the one its readers go by. */
  ghost predicate KeysOk(st: Store) {
    && AllUnder(st.shelf.Items(st.rec.generation), st.rec.SealKey())
    && (st.rec.plain.Some? ==> AllUnder(st.shelf.Items(st.rec.plain.value), None))
    && (st.rec.state.Rewriting? ==>
          AllUnder(st.shelf.Items(st.rec.state.session.stagedGeneration), Some(st.rec.state.session.next.keyId)))
  }

  ghost predicate StateOk(rec: WorkspaceRecord) {
    && (rec.plain.Some? ==> rec.Seal().Some?)
    && (rec.state.Rewriting? ==>
          var s := rec.state.session;
          && s.next.keyId !in rec.endedRewrites
          && rec.SealKey() != Some(s.next.keyId)
          && (s.kind.Migrate? <==> s.prior.None?))
    && (forall u <- rec.tickets :: rec.tickets[u].request.inRewrite ==>
          rec.state.Rewriting? && rec.tickets[u].request.expectedKeyId == Some(rec.state.session.next.keyId))
  }

  // === who made what ===

  ghost predicate Stands(shelf: Shelf, rec: WorkspaceRecord, place: (nat, ItemId)) {
    place.0 in rec.Live() && place.1 in shelf.Items(place.0)
  }

  /** What an upload published and nothing took away still stands, by it. */
  ghost predicate StandsAsMade(shelf: Shelf, rec: WorkspaceRecord, hist: History, u: UploadId)
    requires u in hist.places && u in hist.issued
  {
    var place := hist.places[u];
    && Stands(shelf, rec, place)
    && place in hist.makers && hist.makers[place] == u
    && shelf.Items(place.0)[place.1].envelope.under == hist.issued[u].request.expectedKeyId
    && |shelf.Items(place.0)[place.1].content| == hist.issued[u].request.size
    && (rec.state.Rewriting? && place.0 == rec.state.session.stagedGeneration ==> hist.issued[u].request.inRewrite)
  }

  ghost predicate PlacesOk(shelf: Shelf, rec: WorkspaceRecord, hist: History) {
    forall u <- hist.places ::
      && u in hist.issued
      && hist.places[u].1 == hist.issued[u].request.id
      && (u !in hist.gone ==> StandsAsMade(shelf, rec, hist, u))
  }

  ghost predicate MadeBySomeone(hist: History, place: (nat, ItemId)) {
    && place in hist.makers
    && hist.makers[place] in hist.places && hist.places[hist.makers[place]] == place
    && hist.makers[place] !in hist.gone
  }

  ghost predicate ItemsMade(shelf: Shelf, live: set<nat>, hist: History) {
    forall g: nat, id :: g in live && id in shelf.Items(g) ==> MadeBySomeone(hist, (g, id))
  }

  ghost predicate MakersOk(st: Store, hist: History) {
    PlacesOk(st.shelf, st.rec, hist) && ItemsMade(st.shelf, st.rec.Live(), hist)
  }

  // === the keys there were ===

  /** A ticket was issued under a key the workspace was under; and a workspace
      without a key never had one. */
  ghost predicate SealsOk(rec: WorkspaceRecord, hist: History) {
    && rec.SealKey() in hist.seals
    && (rec.SealKey() == None ==> hist.seals == {None})
    && (forall u <- rec.tickets ::
         !rec.tickets[u].request.inRewrite ==> rec.tickets[u].request.expectedKeyId in hist.seals)
  }

  // === the books ===

  ghost predicate BooksOk(st: Store) {
    forall g <- st.rec.Live() :: st.rec.UsedOf(g) == st.shelf.Bytes(g)
  }

  // === all of it ===

  ghost predicate Inv(site: Site, w: World) {
    && GenerationsOk(w.store, w.pending)
    && UploadsOk(w.store.rec, w.hist)
    && StagingOk(w.store.shelf, w.store.rec, w.pending, w.hist)
    && ContentOk(site, w.store.shelf.staging, w.hist.issued)
    && OneTicketEach(w.store.rec.tickets, w.now)
    && Deduplicated(w.store.shelf)
    && AllHonest(site, w.store.shelf)
    && KeysOk(w.store)
    && StateOk(w.store.rec)
    && MakersOk(w.store, w.hist)
    && SealsOk(w.store.rec, w.hist)
    && (!w.up ==> w.pending == {})
    && (w.up ==> BooksOk(w.store))
  }
}
