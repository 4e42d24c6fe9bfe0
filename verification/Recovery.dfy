/** A death at any point, then `Engine::open` and its clean-ups: the books are
    right, no rubbish is left, readers see the items from before or after the
    interrupted operation, and sending it again answers what was missed. */
module Recovery {
  import opened Wrappers
  import opened Ids
  import opened Stores
  import opened Protocol
  import opened Changes
  import opened World
  import opened Invariants
  import opened Runs

  /** What readers of items see: the workspace's items and the plain ones. */
  datatype Partitions = Partitions(current: map<ItemId, Item>, plain: Option<map<ItemId, Item>>)

  function PartitionsOf(st: Store): Partitions {
    Partitions(st.shelf.Items(st.rec.generation),
               if st.rec.plain.Some? then Some(st.shelf.Items(st.rec.plain.value)) else None)
  }

  predicate Quiet(e: Event) { !e.Do? && !e.DieInside? }

  /** Nothing but time, deaths, restarts and clean-ups. */
  predicate Silent(e: Event) { Quiet(e) && !e.Write? && !e.DieWriting? && !e.Revive? }

  predicate Cleaning(e: Event) { e.Clean? || e.Tick? }

  ghost predicate Repaired(st: Store) {
    && BooksOk(st)
    && (forall g <- st.shelf.generations :: st.shelf.generations[g] == map[] || g in st.rec.Live())
    && (forall u <- st.shelf.staging :: u in st.rec.tickets)
  }

  // === quiet events ===

  lemma QuietStepKeepsPartitions(site: Site, w: World, e: Event)
    requires Inv(site, w) && Enabled(w, e) && Quiet(e)
    ensures PartitionsOf(Next(site, w, e).store) == PartitionsOf(w.store)
  {
    if e.Clean? {
      CleaningSparesLive(w.store, w.pending, w.hist, e.cleanup);
    }
  }

  lemma {:induction false} QuietRunKeepsPartitions(site: Site, w: World, events: seq<Event>)
    requires Inv(site, w) && Possible(site, w, events) && forall e <- events :: Quiet(e)
    ensures PartitionsOf(End(site, w, events).store) == PartitionsOf(w.store)
    decreases |events|
  {
    if events != [] {
      QuietStepKeepsPartitions(site, w, events[0]);
      NextKeepsInv(site, w, events[0]);
      QuietRunKeepsPartitions(site, Next(site, w, events[0]), events[1..]);
    }
  }

  // === opening finds all the rubbish ===

  ghost predicate RubbishIsPending(w: World) {
    && (forall g <- w.store.shelf.generations ::
          w.store.shelf.generations[g] == map[] || g in w.store.rec.Live() || DropGeneration(g) in w.pending)
    && (forall u <- w.store.shelf.staging :: u in w.store.rec.tickets || RemoveStaging(u) in w.pending)
  }

  lemma OpeningFindsRubbish(site: Site, w: World)
    requires Enabled(w, Open)
    ensures RubbishIsPending(Next(site, w, Open))
  {
    var asked := AskedBySweep(w.store.shelf, w.store.rec, w.now);
    forall g <- w.store.shelf.generations | w.store.shelf.generations[g] != map[] && g !in w.store.rec.Live()
      ensures DropGeneration(g) in asked
    {
      assert g in Orphans(w.store.shelf, w.store.rec);
    }
    forall u <- w.store.shelf.staging | u !in Next(site, w, Open).store.rec.tickets
      ensures RemoveStaging(u) in asked
    {
      assert u in Abandoned(w.store.shelf, w.store.rec, w.now);
    }
    assert Next(site, w, Open).store.rec.Live() == w.store.rec.Live();
  }

  lemma CleaningStepLeavesNoRubbish(site: Site, w: World, e: Event)
    requires RubbishIsPending(w) && Enabled(w, e) && Cleaning(e)
    ensures RubbishIsPending(Next(site, w, e))
  {
    if e.Clean? {
      var shelf := CleanedUp(e.cleanup, w.store.shelf);
      forall g <- shelf.generations | shelf.generations[g] != map[] && g !in w.store.rec.Live()
        ensures DropGeneration(g) in w.pending - {e.cleanup}
      {
        assert g in w.store.shelf.generations && DropGeneration(g) in w.pending;
      }
    }
  }

  lemma {:induction false} CleaningLeavesNoRubbish(site: Site, w: World, events: seq<Event>)
    requires Inv(site, w) && w.up && RubbishIsPending(w)
    requires Possible(site, w, events) && forall e <- events :: Cleaning(e)
    ensures var end := End(site, w, events); RubbishIsPending(end) && end.up && Inv(site, end)
    decreases |events|
  {
    if events != [] {
      NextKeepsInv(site, w, events[0]);
      CleaningStepLeavesNoRubbish(site, w, events[0]);
      CleaningLeavesNoRubbish(site, Next(site, w, events[0]), events[1..]);
    }
  }

  /** Whatever state the stores were left in, opening and its clean-ups leave
      none of it, and change nothing a reader sees. */
  lemma OpeningRepairs(site: Site, w: World, cleans: seq<Event>)
    requires Inv(site, w) && Enabled(w, Open)
    requires Possible(site, Next(site, w, Open), cleans) && forall e <- cleans :: Cleaning(e)
    requires End(site, Next(site, w, Open), cleans).pending == {}
    ensures Repaired(End(site, Next(site, w, Open), cleans).store)
    ensures PartitionsOf(End(site, Next(site, w, Open), cleans).store) == PartitionsOf(w.store)
  {
    var reopened := Next(site, w, Open);
    NextKeepsInv(site, w, Open);
    OpeningFindsRubbish(site, w);
    CleaningLeavesNoRubbish(site, reopened, cleans);
    QuietStepKeepsPartitions(site, w, Open);
    QuietRunKeepsPartitions(site, reopened, cleans);
  }

  // === the interrupted operation ===

  /** What readers see after a shelf step without its record is what they saw
      before the operation or what they would have seen after it. */
  lemma HalfIsBeforeOrAfter(site: Site, w: World, op: Op)
    requires Inv(site, w) && Enabled(w, DieInside(op))
    ensures var half := PartitionsOf(Next(site, w, DieInside(op)).store);
      half == PartitionsOf(w.store) || half == PartitionsOf(Next(site, w, Do(op)).store)
  {
    DecisionsAreJustified(site, w.now, w.store, op);
  }

  /** The main result on deaths. `first` is the operation, either cut short
      inside its transaction or completed, or nothing of it at all; `between`
      is every further death, lost clean-up, reopening and passing of time;
      then comes a last opening and its clean-ups. */
  lemma CrashRecovery(site: Site, w: World, op: Op, first: Event, between: seq<Event>, cleans: seq<Event>)
    requires Reachable(site, w) && Enabled(w, Do(op))
    requires first in {Stop, DieInside(op), Do(op)}
    requires (forall e <- between :: Quiet(e)) && (forall e <- cleans :: Cleaning(e))
    requires Possible(site, w, [first] + between + [Open] + cleans)
    requires End(site, w, [first] + between + [Open] + cleans).pending == {}
    ensures var end := End(site, w, [first] + between + [Open] + cleans).store;
      && Repaired(end)
      && (PartitionsOf(end) == PartitionsOf(w.store) || PartitionsOf(end) == PartitionsOf(Next(site, w, Do(op)).store))
  {
    ReachableHasInv(site, w);
    var died := Next(site, w, first);
    RunInTwo(site, w, [first] + between + [Open], cleans);
    RunInTwo(site, w, [first] + between, [Open]);
    RunInTwo(site, w, [first], between);
    var down := End(site, w, [first] + between);
    assert End(site, w, [first]) == died by {
      assert [first][1..] == [];
    }
    assert End(site, down, [Open]) == Next(site, down, Open) by {
      assert [Open][1..] == [];
    }
    NextKeepsInv(site, w, first);
    RunKeepsInv(site, died, between);
    QuietRunKeepsPartitions(site, died, between);
    OpeningRepairs(site, down, cleans);
    if first == DieInside(op) {
      HalfIsBeforeOrAfter(site, w, op);
    }
  }
}
