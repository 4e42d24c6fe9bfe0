/** A workspace over time: the two stores, the clock, the destructive steps
    still pending, and whether the process is up. Events are what can happen
    to it, deaths included; `Next` is what each does.

    What the code relies on and does not check is built into `Enabled`:
    upload ids are drawn only once, the clock does not go back, and a staged
    write takes effect before or after a transaction, never inside one. */
module World {
  import opened Wrappers
  import opened Ids
  import opened Stores
  import opened Protocol

  /** What has happened, as nobody in the system remembers it. */
  datatype History = History(
    spent: set<UploadId>,                       // ids ever drawn
    issued: map<UploadId, Ticket>,              // tickets ever recorded
    outcomes: map<UploadId, PutOutcome>,        // outcomes ever recorded
    places: map<UploadId, (nat, ItemId)>,       // where an upload was last published
    makers: map<(nat, ItemId), UploadId>,       // which upload last made an item
    gone: set<UploadId>,                        // uploads whose item has left the workspace
    seals: set<Option<KeyId>>)                  // keys the workspace was ever under

  const NO_HISTORY := History({}, map[], map[], map[], map[], {}, {None})

  datatype World = World(store: Store, now: nat, pending: set<Cleanup>, up: bool, hist: History)

  datatype Event =
    /** A transaction from start to commit. Its clean-ups are then pending. */
    | Do(op: Op)
    /** A transaction that dies after its shelf step, before its commit. */
    | DieInside(op: Op)
    /** A death anywhere else: pending clean-ups are lost. */
    | Stop
    /** The process starts again: `Engine::open`. */
    | Open
    /** Content sent to a staging place takes effect; `None` when it broke off. */
    | Write(upload: UploadId, content: Option<seq<byte>>)
    /** A death while content arrives: some of it is there, without a digest. */
    | DieWriting(upload: UploadId, some: seq<byte>)
    /** A transfer finds the directory of a place whose making died, which the
        shelf holds nothing of, and makes it a place. */
    | Revive(upload: UploadId)
    /** One pending clean-up is taken, or fails and is left to the janitor. */
    | Clean(cleanup: Cleanup)
    | Lose(cleanup: Cleanup)
    | Tick(seconds: nat)

  predicate Fresh(op: Op, hist: History) {
    op.OpBeginUpload? ==> op.drawn !in hist.spent
  }

  ghost predicate Enabled(w: World, e: Event) {
    match e
    case Do(op) => w.up && Fresh(op, w.hist)
    case DieInside(op) => w.up && Fresh(op, w.hist)
    case Stop => true
    case Open => !w.up
    case Write(upload, content) =>
      w.up && upload in w.hist.issued
      && (content.Some? ==> |content.value| <= w.hist.issued[upload].request.size)
    case DieWriting(upload, some) =>
      w.up && upload in w.hist.issued && |some| <= w.hist.issued[upload].request.size
    case Revive(upload) => w.up && upload in w.store.rec.tickets
    case Clean(c) => c in w.pending
    case Lose(c) => c in w.pending
    case Tick(_) => true
  }

  // === what history keeps of a change ===

  /** The part of history a change's shelf step makes. */
  function AfterShelfStep(change: Change, hist: History): History {
    match change
    case Publish(upload, generation, id, _, _, _) =>
      hist.(places := hist.places[upload := (generation, id)],
            makers := hist.makers[(generation, id) := upload],
            gone := hist.gone - {upload})
    case Remove(generation, id) =>
      if (generation, id) in hist.makers then hist.(gone := hist.gone + {hist.makers[(generation, id)]}) else hist
    case _ => hist
  }

  function PlacedIn(hist: History, generation: nat): set<UploadId> {
    set u | u in hist.places && hist.places[u].0 == generation
  }

  /** The part its record makes. `rec` is the record before. */
  function AfterRecord(change: Change, rec: WorkspaceRecord, hist: History): History {
    match change
    case Issue(upload, ticket) => hist.(issued := hist.issued[upload := ticket])
    case Publish(upload, _, _, _, _, stone) => hist.(outcomes := hist.outcomes[upload := stone.outcome])
    case Finish(upload, stone) => hist.(outcomes := hist.outcomes[upload := stone.outcome])
    case Repair(upload, _, stone) => hist.(outcomes := hist.outcomes[upload := stone.outcome])
    case Settle(seal) => hist.(seals := hist.seals + {Some(seal.keyId)})
    case SetAside(seal) => hist.(seals := hist.seals + {Some(seal.keyId)})
    case Switch =>
      if rec.state.Settled? then hist
      else hist.(gone := hist.gone + PlacedIn(hist, rec.generation),
                 seals := hist.seals + {Some(rec.state.session.next.keyId)})
    case EndAborted =>
      if rec.state.Settled? then hist
      else hist.(gone := hist.gone + PlacedIn(hist, rec.state.session.stagedGeneration))
    case _ => hist
  }

  function Drawing(op: Op, hist: History): History {
    if op.OpBeginUpload? then hist.(spent := hist.spent + {op.drawn}) else hist
  }

  // === what an event does ===

  /** The world after a change is made whole. */
  ghost function Making(change: Change, w: World): World {
    w.(store := Apply(change, w.store),
       pending := w.pending + Asked(change, w.store.shelf, w.store.rec),
       hist := AfterRecord(change, w.store.rec, AfterShelfStep(change, w.hist)))
  }

  /** The world after only its shelf step, the process dead. */
  ghost function HalfMaking(change: Change, w: World): World {
    w.(store := Store(ShelfAfter(change, w.store.shelf), w.store.rec),
       pending := {}, up := false,
       hist := AfterShelfStep(change, w.hist))
  }

  ghost function Next(site: Site, w: World, e: Event): World
    requires Enabled(w, e)
  {
    match e
    case Do(op) =>
      var drawn := w.(hist := Drawing(op, w.hist));
      Making(Decide(site, w.now, w.store, op).change, drawn)
    case DieInside(op) =>
      var drawn := w.(hist := Drawing(op, w.hist));
      HalfMaking(Decide(site, w.now, w.store, op).change, drawn)
    case Stop => w.(pending := {}, up := false)
    case Open => Making(Reconcile(w.now), w).(up := true)
    case Write(upload, content) =>
      var hashed := ChecksContent(site, w.hist.issued[upload].request);
      w.(store := Store(Written(site, w.store.shelf, upload, hashed, content), w.store.rec))
    case DieWriting(upload, some) =>
      w.(store := Store(Written(site, w.store.shelf, upload, false, Some(some)), w.store.rec),
         pending := {}, up := false)
    case Revive(upload) => w.(store := Store(Create(w.store.shelf, upload), w.store.rec))
    case Clean(c) =>
      w.(store := Store(CleanedUp(c, w.store.shelf), w.store.rec), pending := w.pending - {c})
    case Lose(c) => w.(pending := w.pending - {c})
    case Tick(seconds) => w.(now := w.now + seconds)
  }

  /** What the event answers, if anyone is left to be answered. */
  ghost function AnswerTo(site: Site, w: World, e: Event): Option<Answer> {
    if e.Do? then Some(Decide(site, w.now, w.store, e.op).answer) else None
  }

  /** A new workspace, before it is first opened. */
  predicate Initial(w: World) {
    w.store == Store(EMPTY_SHELF, NEW_RECORD) && w.pending == {} && !w.up && w.hist == NO_HISTORY
  }

  ghost predicate Possible(site: Site, w: World, events: seq<Event>)
    decreases |events|
  {
    events == [] || (Enabled(w, events[0]) && Possible(site, Next(site, w, events[0]), events[1..]))
  }

  /** Where a run ends. */
  ghost function End(site: Site, w: World, events: seq<Event>): World
    requires Possible(site, w, events)
    decreases |events|
  {
    if events == [] then w else End(site, Next(site, w, events[0]), events[1..])
  }

  /** Some run of a new workspace ends in `w`. */
  ghost predicate Reachable(site: Site, w: World) {
    exists start: World, events: seq<Event> ::
      Initial(start) && Possible(site, start, events) && End(site, start, events) == w
  }
}
