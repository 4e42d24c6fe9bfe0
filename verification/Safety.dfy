/** What holds in every reachable world, said for readers: late clean-ups do
    no harm, content is stored once, and every item is under its key. */
module Safety {
  import opened Wrappers
  import opened Ids
  import opened Stores
  import opened Protocol
  import opened Changes
  import opened World
  import opened Invariants
  import opened Preservation
  import opened Runs

  // === clean-ups ===

  /** However late a pending clean-up runs, and whatever ran since it was
      asked for, it destroys nothing the record points to. */
  lemma CleanupsAreSafe(site: Site, w: World, c: Cleanup)
    requires Reachable(site, w) && c in w.pending
    ensures forall g <- w.store.rec.Live() :: CleanedUp(c, w.store.shelf).Items(g) == w.store.shelf.Items(g)
    ensures forall u <- w.store.rec.tickets | u in w.store.shelf.staging ::
      u in CleanedUp(c, w.store.shelf).staging && CleanedUp(c, w.store.shelf).staging[u] == w.store.shelf.staging[u]
  {
    ReachableHasInv(site, w);
    CleaningSparesLive(w.store, w.pending, w.hist, c);
  }

  /** A number, once dropped or asked to be dropped, is never live again. */
  lemma {:induction false} NumbersAreNotReused(site: Site, w: World, events: seq<Event>, generation: nat)
    requires Inv(site, w) && Possible(site, w, events)
    requires generation < w.store.rec.nextGeneration && generation !in w.store.rec.Live()
    ensures generation !in End(site, w, events).store.rec.Live()
    decreases |events|
  {
    if events != [] {
      var e := events[0];
      if e.Do? {
        DecisionsAreJustified(site, w.now, w.store, e.op);
        KeepsRecordNumbers(site, w.now, w.store, w.pending, Decide(site, w.now, w.store, e.op).change);
      } else if e.Open? {
        KeepsRecordNumbers(site, w.now, w.store, w.pending, Reconcile(w.now));
      }
      NextKeepsInv(site, w, e);
      NumbersAreNotReused(site, Next(site, w, e), events[1..], generation);
    }
  }

  /** The next generation of a rewrite or a fresh start is born empty, with
      nothing on the books and no drop of it pending. */
  lemma NextGenerationIsBornEmpty(site: Site, w: World)
    requires Reachable(site, w)
    ensures var next := w.store.rec.nextGeneration;
      && next !in w.store.shelf.generations && next !in w.store.rec.used
      && DropGeneration(next) !in w.pending && next !in w.store.rec.Live()
  {
    ReachableHasInv(site, w);
  }

  // === deduplication ===

  /** Content is stored once in a generation, so looking for it finds the
      only item there is. */
  lemma FindsTheOnlyOne(site: Site, w: World, generation: nat, key: string)
    requires Reachable(site, w)
    ensures var items := w.store.shelf.Items(generation);
      && (forall id :: FindIn(items, key) == Some(id) <==> id in items && id.ContentKey() == key)
      && OneEach(items)
  {
    ReachableHasInv(site, w);
    var items := w.store.shelf.Items(generation);
    assert OneEach(items);
    forall id | id in items && id.ContentKey() == key ensures FindIn(items, key) == Some(id) {
      assert id in WithKey(items, key);
    }
  }

  /** A commit that publishes always makes the item: the answer of the shelf's
      `publish`, which the rule does not look at, is always yes. */
  lemma PublishAlwaysTakes(site: Site, w: World, caller: Caller, upload: UploadId)
    requires CommitUpload(site, w.now, w.store, caller, upload).change.Publish?
    ensures var change := CommitUpload(site, w.now, w.store, caller, upload).change;
      var shelf := ShelfAfter(change, w.store.shelf);
      && upload in w.store.shelf.staging && change.id !in w.store.shelf.Items(change.generation)
      && change.id in shelf.Items(change.generation)
      && shelf.Items(change.generation)[change.id] == Item(w.store.shelf.staging[upload].content, change.envelope)
      && upload !in shelf.staging
  {
    var change := CommitUpload(site, w.now, w.store, caller, upload).change;
    assert change.id !in WithKey(w.store.shelf.Items(change.generation), change.id.ContentKey());
  }

  // === keys ===

  /** Every item a reader can reach is under the key it is read with; tickets
      of a rewrite exist only during it. */
  lemma KeysAreHomogeneous(site: Site, w: World)
    requires Reachable(site, w)
    ensures KeysOk(w.store) && StateOk(w.store.rec)
  {
    ReachableHasInv(site, w);
  }

  /** Sealed, and with a plain partition that only loses items. */
  ghost predicate NoLooser(w: World, later: World) {
    && (w.store.rec.Seal().Some? ==> later.store.rec.Seal().Some?)
    && (w.store.rec.plain.Some? ==>
          && later.store.rec.plain == w.store.rec.plain
          && var g := w.store.rec.plain.value;
             forall id <- later.store.shelf.Items(g) ::
               id in w.store.shelf.Items(g) && later.store.shelf.Items(g)[id] == w.store.shelf.Items(g)[id])
  }

  lemma ChangeIsNoLooser(site: Site, now: nat, st: Store, pending: set<Cleanup>, change: Change)
    requires GenerationsOk(st, pending) && StateOk(st.rec) && Justified(site, now, st, change)
    ensures st.rec.Seal().Some? ==> RecordAfter(change, st.shelf, st.rec).Seal().Some?
    ensures st.rec.plain.Some? ==> RecordAfter(change, st.shelf, st.rec).plain == st.rec.plain
    ensures st.rec.plain.Some? ==>
      forall id <- ShelfAfter(change, st.shelf).Items(st.rec.plain.value) ::
        id in st.shelf.Items(st.rec.plain.value)
        && ShelfAfter(change, st.shelf).Items(st.rec.plain.value)[id] == st.shelf.Items(st.rec.plain.value)[id]
  {
  }

  lemma StepIsNoLooser(site: Site, w: World, e: Event)
    requires Inv(site, w) && Enabled(w, e)
    ensures NoLooser(w, Next(site, w, e))
  {
    match e
    case Do(op) =>
      DecisionsAreJustified(site, w.now, w.store, op);
      ChangeIsNoLooser(site, w.now, w.store, w.pending, Decide(site, w.now, w.store, op).change);
    case DieInside(op) =>
      DecisionsAreJustified(site, w.now, w.store, op);
      ChangeIsNoLooser(site, w.now, w.store, w.pending, Decide(site, w.now, w.store, op).change);
    case _ =>
  }

  /** A sealed workspace never becomes plaintext again; the plain partition,
      once set aside, stays the same generation and only loses items. */
  lemma {:induction false} SealedForGood(site: Site, w: World, events: seq<Event>)
    requires Inv(site, w) && Possible(site, w, events)
    ensures NoLooser(w, End(site, w, events))
    decreases |events|
  {
    if events != [] {
      StepIsNoLooser(site, w, events[0]);
      NextKeepsInv(site, w, events[0]);
      SealedForGood(site, Next(site, w, events[0]), events[1..]);
    }
  }

  // === honest plaintext ===

  /** With the check on, an item under no key has the content its id and its
      `meta` name, and the size that was announced for it. */
  lemma PlaintextIsHonest(site: Site, w: World, generation: nat, id: ItemId)
    requires Reachable(site, w) && site.limits.checkPlaintextContent
    requires generation in w.store.rec.Live() && id in w.store.shelf.Items(generation)
    requires w.store.shelf.Items(generation)[id].envelope.under == None
    ensures var item := w.store.shelf.Items(generation)[id];
      && id.ContentKey() == Hex(site.sha256(item.content))[..12]
      && site.said(item.envelope.meta).Some?
      && site.said(item.envelope.meta).value.sha256 == Some(Hex(site.sha256(item.content)))
      && site.said(item.envelope.meta).value.size == Some(|item.content|)
      && exists u <- w.hist.issued ::
           w.hist.issued[u].request.id == id && w.hist.issued[u].request.size == |item.content|
  {
    ReachableHasInv(site, w);
    var item := w.store.shelf.Items(generation)[id];
    assert HonestItems(site, w.store.shelf.Items(generation));
    assert HonestItem(site, id, item);
    assert MadeBySomeone(w.hist, (generation, id));
    var maker := w.hist.makers[(generation, id)];
    assert StandsAsMade(w.store.shelf, w.store.rec, w.hist, maker);
    assert w.hist.issued[maker].request.id == id;
  }
}
