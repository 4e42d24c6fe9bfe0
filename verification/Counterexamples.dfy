/** Runs that show where the code does not do what its comments promise. */
module Counterexamples {
  import opened Wrappers
  import opened Ids
  import opened Sums
  import opened Stores
  import opened Protocol
  import opened Changes
  import opened World
  import opened Invariants
  import opened Runs
  import opened Engines
  import opened Outcomes

  // === a repaired commit may claim another's item ===

  const FIRST := Caller(ApiKeyId("0000000000a1"), ReadWrite)
  const SECOND := Caller(ApiKeyId("0000000000a2"), ReadWrite)
  const ONE := UploadId("00000000000000000000000000000001")
  const TWO := UploadId("00000000000000000000000000000002")
  const K1 := KeyId("a1")
  const ID := ItemId("68000000-e3b0c44298fc")
  const EMPTY_FILE := UploadRequest(ID, [], 0, Some(K1), false)

  function TicketOf(site: Site, caller: Caller): Ticket {
    Ticket(caller.key, EMPTY_FILE, site.limits.stagingSecs)
  }

  function StoneOf(site: Site, caller: Caller): Tombstone {
    Tombstone(caller.key, PutOutcome(ID, true, false), site.limits.stagingSecs)
  }

  const START := World(Store(EMPTY_SHELF, NEW_RECORD), 0, {}, false, NO_HISTORY)
  const PLACE := (0 as nat, ID)
  const ITEM := Item([], Envelope([], Some(K1), 0))
  const BOOKED := NEW_RECORD.(used := map[0 := 0])
  const SEALED := BOOKED.(state := Settled(Some(Seal(K1, []))))

  function Opened(): World { START.(store := Store(EMPTY_SHELF, BOOKED), up := true) }

  function SealedAtFirst(): World {
    World(Store(EMPTY_SHELF, SEALED), 0, {}, true, NO_HISTORY.(seals := {None, Some(K1)}))
  }

  function BegunByFirst(site: Site): World {
    World(Store(Shelf(map[ONE := EMPTY_PLACE], map[]), SEALED.(tickets := map[ONE := TicketOf(site, FIRST)])),
          0, {}, true,
          SealedAtFirst().hist.(spent := {ONE}, issued := map[ONE := TicketOf(site, FIRST)]))
  }

  function DeadInCommit(site: Site): World {
    var w := BegunByFirst(site);
    w.(store := Store(Shelf(map[], map[0 := map[ID := ITEM]]), w.store.rec), up := false,
       hist := w.hist.(places := map[ONE := PLACE], makers := map[PLACE := ONE]))
  }

  function Reopened(site: Site): World { DeadInCommit(site).(up := true) }

  function Deleted(site: Site): World {
    var w := Reopened(site);
    w.(store := Store(Shelf(map[], map[0 := map[]]), w.store.rec), hist := w.hist.(gone := {ONE}))
  }

  function BegunBySecond(site: Site): World {
    var w := Deleted(site);
    w.(store := Store(Shelf(map[TWO := EMPTY_PLACE], map[0 := map[]]),
                      w.store.rec.(tickets := w.store.rec.tickets[TWO := TicketOf(site, SECOND)])),
       hist := w.hist.(spent := {ONE, TWO}, issued := w.hist.issued[TWO := TicketOf(site, SECOND)]))
  }

  function CommittedBySecond(site: Site): World {
    var w := BegunBySecond(site);
    World(Store(Shelf(map[], map[0 := map[ID := ITEM]]),
                SEALED.(tickets := map[ONE := TicketOf(site, FIRST)], tombstones := map[TWO := StoneOf(site, SECOND)])),
          0, {RemoveStaging(TWO)}, true,
          w.hist.(places := w.hist.places[TWO := PLACE], makers := map[PLACE := TWO],
                  outcomes := map[TWO := PutOutcome(ID, true, false)]))
  }

  predicate Plausible(site: Site) {
    site.limits.stagingSecs >= 1
  }

  lemma NoBytes(shelf: Shelf)
    requires shelf.generations == map[] || shelf.generations == map[0 := map[ID := ITEM]]
    ensures shelf.Bytes(0) == 0
  {
    var none: map<ItemId, Item> := map[];
    assert (map id | id in none :: |none[id].content|) == map[];
    BytesOfPutIn(none, ID, ITEM);
    assert none[ID := ITEM] == map[ID := ITEM];
  }

  predicate NothingToRepair(st: Store) {
    && st.rec.Live() == {0} && st.rec.used.Keys <= {0} && st.rec.tombstones == map[]
    && (forall u <- st.rec.tickets :: st.rec.tickets[u].expiresAt > 0)
    && st.shelf.staging == map[]
    && (st.shelf.generations == map[] || st.shelf.generations == map[0 := map[ID := ITEM]])
  }

  lemma ReconcilesToItself(st: Store)
    requires NothingToRepair(st)
    ensures Apply(Reconcile(0), st) == Store(st.shelf, st.rec.(used := map[0 := 0]))
    ensures Asked(Reconcile(0), st.shelf, st.rec) == {}
  {
    NoBytes(st.shelf);
    assert Orphans(st.shelf, st.rec) == {} && Abandoned(st.shelf, st.rec, 0) == {};
    assert Recounted(st.shelf, st.rec).used == map[0 := 0];
    assert Unexpired(st.rec, 0) == st.rec;
  }

  /** Opening a workspace with nothing to repair. */
  lemma OpensCleanly(site: Site, w: World)
    requires !w.up && w.now == 0 && w.pending == {} && NothingToRepair(w.store)
    ensures Enabled(w, Open)
    ensures Next(site, w, Open) == w.(store := Store(w.store.shelf, w.store.rec.(used := map[0 := 0])), up := true)
  {
    ReconcilesToItself(w.store);
  }

  lemma Begins(site: Site, st: Store, caller: Caller, drawn: UploadId)
    requires Plausible(site) && caller.role == ReadWrite
    requires st.rec.state == SEALED.state && UsedBytes(st.rec) == 0 && Reserved(st.rec.tickets, 0, false) == 0
    requires st.shelf.Items(st.rec.generation) == map[] && LiveTicketsFor(st.rec, 0, caller.key, EMPTY_FILE) == {}
    ensures BeginUpload(site, 0, st, caller, EMPTY_FILE, drawn).change == Issue(drawn, TicketOf(site, caller))
  {
  }

  lemma Commits(site: Site, st: Store, caller: Caller, upload: UploadId)
    requires Plausible(site) && st.rec.state == SEALED.state && st.rec.generation == 0 && st.rec.tombstones == map[]
    requires upload in st.rec.tickets && st.rec.tickets[upload] == TicketOf(site, caller)
    requires upload in st.shelf.staging && st.shelf.staging[upload] == EMPTY_PLACE && st.shelf.Items(0) == map[]
    ensures CommitUpload(site, 0, st, caller, upload).change
      == Publish(upload, 0, ID, ITEM.envelope, 0, StoneOf(site, caller))
  {
  }

  lemma FirstBegins(site: Site)
    requires Plausible(site)
    ensures var op := OpBeginUpload(FIRST, EMPTY_FILE, ONE);
      Enabled(SealedAtFirst(), Do(op)) && Next(site, SealedAtFirst(), Do(op)) == BegunByFirst(site)
  {
    assert Promised(map[], 0, false) == map[];
    Begins(site, SealedAtFirst().store, FIRST, ONE);
  }

  lemma FirstDies(site: Site)
    requires Plausible(site)
    ensures var op := OpCommitUpload(FIRST, ONE);
      Enabled(BegunByFirst(site), DieInside(op)) && Next(site, BegunByFirst(site), DieInside(op)) == DeadInCommit(site)
  {
    var w := BegunByFirst(site);
    Commits(site, w.store, FIRST, ONE);
    var change := CommitUpload(site, 0, w.store, FIRST, ONE).change;
    assert ShelfAfter(change, w.store.shelf) == DeadInCommit(site).store.shelf;
    assert HalfMaking(change, w) == DeadInCommit(site);
  }

  lemma SecondDeletes(site: Site)
    ensures var op := OpDeleteItem(SECOND, Current, ID, Some(K1));
      Enabled(Reopened(site), Do(op)) && Next(site, Reopened(site), Do(op)) == Deleted(site)
  {
    var w := Reopened(site);
    assert DeleteItem(w.store, SECOND, Current, ID, Some(K1)).change == Remove(0, ID);
    assert Apply(Remove(0, ID), w.store) == Deleted(site).store;
    assert Making(Remove(0, ID), w) == Deleted(site);
  }

  lemma SecondBegins(site: Site)
    requires Plausible(site)
    ensures var op := OpBeginUpload(SECOND, EMPTY_FILE, TWO);
      Enabled(Deleted(site), Do(op)) && Next(site, Deleted(site), Do(op)) == BegunBySecond(site)
  {
    var w := Deleted(site);
    var promised := Promised(w.store.rec.tickets, 0, false);
    SumTakeOut(promised, ONE);
    assert promised - {ONE} == map[];
    Begins(site, w.store, SECOND, TWO);
  }

  lemma SecondCommits(site: Site)
    requires Plausible(site)
    ensures var op := OpCommitUpload(SECOND, TWO);
      Enabled(BegunBySecond(site), Do(op)) && Next(site, BegunBySecond(site), Do(op)) == CommittedBySecond(site)
  {
    var w := BegunBySecond(site);
    Commits(site, w.store, SECOND, TWO);
    var change := Publish(TWO, 0, ID, ITEM.envelope, 0, StoneOf(site, SECOND));
    DoMakes(site, w, OpCommitUpload(SECOND, TWO), change);
    SecondPublishes(site, change);
  }

  lemma SecondPublishes(site: Site, change: Change)
    requires change == Publish(TWO, 0, ID, ITEM.envelope, 0, StoneOf(site, SECOND))
    ensures Making(change, BegunBySecond(site)) == CommittedBySecond(site)
  {
    SecondBooks(site, change);
    assert ShelfAfter(change, BegunBySecond(site).store.shelf) == CommittedBySecond(site).store.shelf;
  }

  lemma SecondBooks(site: Site, change: Change)
    requires change == Publish(TWO, 0, ID, ITEM.envelope, 0, StoneOf(site, SECOND))
    ensures var w := BegunBySecond(site);
      RecordAfter(change, w.store.shelf, w.store.rec) == CommittedBySecond(site).store.rec
  {
  }

  lemma DoMakes(site: Site, w: World, op: Op, change: Change)
    requires Enabled(w, Do(op)) && !op.OpBeginUpload? && Decide(site, w.now, w.store, op).change == change
    ensures Next(site, w, Do(op)) == Making(change, w)
  {
  }

  lemma OpenIsReachable(site: Site)
    ensures Reachable(site, Opened())
  {
    assert Initial(START);
    assert Possible(site, START, []) && End(site, START, []) == START;
    OpensCleanly(site, START);
    OneMore(site, START, Open);
  }

  lemma SealedIsReachable(site: Site)
    ensures Reachable(site, SealedAtFirst())
  {
    var op := OpEnableEncryption(FIRST, Seal(K1, []));
    OpenIsReachable(site);
    assert EnableEncryption(Opened().store, FIRST, Seal(K1, [])).change == Settle(Seal(K1, []));
    assert Next(site, Opened(), Do(op)) == SealedAtFirst();
    OneMore(site, Opened(), Do(op));
  }

  lemma DeathIsReachable(site: Site)
    requires Plausible(site)
    ensures Reachable(site, DeadInCommit(site))
  {
    SealedIsReachable(site);
    FirstBegins(site);
    OneMore(site, SealedAtFirst(), Do(OpBeginUpload(FIRST, EMPTY_FILE, ONE)));
    FirstDies(site);
    OneMore(site, BegunByFirst(site), DieInside(OpCommitUpload(FIRST, ONE)));
  }

  lemma SecondBeginIsReachable(site: Site)
    requires Plausible(site) && Reachable(site, DeadInCommit(site))
    ensures Reachable(site, BegunBySecond(site))
  {
    OpensCleanly(site, DeadInCommit(site));
    OneMore(site, DeadInCommit(site), Open);
    SecondDeletes(site);
    OneMore(site, Reopened(site), Do(OpDeleteItem(SECOND, Current, ID, Some(K1))));
    SecondBegins(site);
    OneMore(site, Deleted(site), Do(OpBeginUpload(SECOND, EMPTY_FILE, TWO)));
  }

  lemma ClaimsAnothers(site: Site)
    requires Plausible(site)
    ensures var decision := CommitUpload(site, 0, CommittedBySecond(site).store, FIRST, ONE);
      decision.change.Repair? && decision.answer == Finished(PutOutcome(ID, true, false))
  {
  }

  /** The comment on the repair branch says that a staging place that is gone
      beside an item of the right id and size is this upload's own doing. It
      need not be: here the item was deleted and uploaded again by another,
      and the first caller's repeated commit is answered that it created it. */
  lemma RepairMayClaimAnothers(site: Site)
    requires Plausible(site)
    ensures exists w ::
      && Reachable(site, w) && w.up
      && CommitUpload(site, w.now, w.store, FIRST, ONE).change.Repair?
      && CommitUpload(site, w.now, w.store, FIRST, ONE).answer == Finished(PutOutcome(ID, true, false))
      && PLACE in w.hist.makers && w.hist.makers[PLACE] == TWO
  {
    DeathIsReachable(site);
    SecondBeginIsReachable(site);
    SecondCommits(site);
    OneMore(site, BegunBySecond(site), Do(OpCommitUpload(SECOND, TWO)));
    ClaimsAnothers(site);
  }

  // === the quota ===

  const OLD := UploadId("00000000000000000000000000000003")
  const K2 := KeyId("a2")
  const K3 := KeyId("a3")
  const OTHER := ItemId("68000001-0123456789ab")

  /** A workspace in its first second: its record but for the outcomes it
      remembers, the ids its generations hold, and the upload ids drawn. */
  ghost predicate Is(site: Site, w: World, rec: WorkspaceRecord, held: map<nat, set<ItemId>>, spent: set<UploadId>) {
    && Reachable(site, w) && w.up && w.now == 0 && w.hist.spent == spent
    && w.store.rec == rec.(tombstones := w.store.rec.tombstones)
    && rec.tickets.Keys <= w.store.shelf.staging.Keys
    && forall h: nat :: w.store.shelf.Items(h).Keys == HeldIn(held, h)
  }

  function HeldIn(held: map<nat, set<ItemId>>, generation: nat): set<ItemId> {
    if generation in held then held[generation] else {}
  }

  function TicketFor(site: Site, request: UploadRequest): Ticket {
    Ticket(FIRST.key, request, site.limits.stagingSecs)
  }

  predicate NoneLike(held: map<nat, set<ItemId>>, g: nat, id: ItemId) {
    forall other <- HeldIn(held, g) :: other.ContentKey() != id.ContentKey()
  }

  lemma FindsNone(site: Site, w: World, rec: WorkspaceRecord, held: map<nat, set<ItemId>>, spent: set<UploadId>,
          g: nat, id: ItemId)
    requires Is(site, w, rec, held, spent) && NoneLike(held, g, id)
    ensures FindIn(w.store.shelf.Items(g), id.ContentKey()).None?
  {
    assert w.store.shelf.Items(g).Keys == HeldIn(held, g);
    assert WithKey(w.store.shelf.Items(g), id.ContentKey()) == {};
  }

  /** An upload that the record leaves room for is begun. */
  lemma BeginsUpload(site: Site, w: World, rec: WorkspaceRecord, held: map<nat, set<ItemId>>, spent: set<UploadId>,
                     request: UploadRequest, drawn: UploadId, g: nat) returns (later: World)
    requires Is(site, w, rec, held, spent) && drawn !in spent && drawn !in rec.tickets
    requires UploadTarget(rec, FIRST, request) == Ok(g) && NoneLike(held, g, request.id)
    requires LiveTicketsFor(rec, 0, FIRST.key, request) == {}
    requires site.limits.maxItemBytes.Some? ==> request.size <= site.limits.maxItemBytes.value
    requires SaturatingAdd(Held(rec, 0, g, request.inRewrite), request.size) <= site.limits.quotaBytes
    ensures Is(site, later, rec.(tickets := rec.tickets[drawn := TicketFor(site, request)]), held, spent + {drawn})
  {
    var op := OpBeginUpload(FIRST, request, drawn);
    FindsNone(site, w, rec, held, spent, g, request.id);
    BeginIssues(site, w.store, rec, request, drawn, g);
    OneMore(site, w, Do(op));
    later := Next(site, w, Do(op));
    assert later.store.shelf.generations == w.store.shelf.generations;
    assert forall h: nat :: later.store.shelf.Items(h) == w.store.shelf.Items(h);
  }

  lemma BeginIssues(site: Site, st: Store, rec: WorkspaceRecord, request: UploadRequest, drawn: UploadId, g: nat)
    requires st.rec == rec.(tombstones := st.rec.tombstones)
    requires UploadTarget(rec, FIRST, request) == Ok(g) && FindIn(st.shelf.Items(g), request.id.ContentKey()).None?
    requires LiveTicketsFor(rec, 0, FIRST.key, request) == {}
    requires site.limits.maxItemBytes.Some? ==> request.size <= site.limits.maxItemBytes.value
    requires SaturatingAdd(Held(rec, 0, g, request.inRewrite), request.size) <= site.limits.quotaBytes
    ensures BeginUpload(site, 0, st, FIRST, request, drawn).change == Issue(drawn, TicketFor(site, request))
  {
    assert Held(st.rec, 0, g, request.inRewrite) == Held(rec, 0, g, request.inRewrite);
    assert LiveTicketsFor(st.rec, 0, FIRST.key, request) == {};
  }

  /** What `meta` and the id say of a plaintext upload is so. */
  ghost predicate Describes(site: Site, id: ItemId, meta: seq<byte>, content: seq<byte>) {
    var sha := Hex(site.sha256(content));
    site.said(meta) == Some(Said(Some(sha), Some(|content|))) && id.ContentKey() == sha[..12]
  }

  /** Its content arrives. */
  lemma Writes(site: Site, w: World, rec: WorkspaceRecord, held: map<nat, set<ItemId>>, spent: set<UploadId>,
               upload: UploadId, content: seq<byte>) returns (later: World)
    requires Is(site, w, rec, held, spent) && upload in rec.tickets && |content| == rec.tickets[upload].request.size
    ensures Is(site, later, rec, held, spent)
    ensures var request := rec.tickets[upload].request;
      later.store.shelf.staging[upload]
        == Staged(content, if ChecksContent(site, request) then Some(site.sha256(content)) else None)
  {
    ReachableHasInv(site, w);
    OneMore(site, w, Write(upload, Some(content)));
    later := Next(site, w, Write(upload, Some(content)));
    assert forall h: nat :: later.store.shelf.Items(h) == w.store.shelf.Items(h);
  }

  lemma CommitPublishes(site: Site, w: World, rec: WorkspaceRecord, held: map<nat, set<ItemId>>, spent: set<UploadId>,
                        upload: UploadId, content: seq<byte>, g: nat) returns (change: Change)
    requires Plausible(site) && Is(site, w, rec, held, spent)
    requires upload in rec.tickets && rec.tickets[upload] == TicketFor(site, rec.tickets[upload].request)
    requires var request := rec.tickets[upload].request;
      && UploadTarget(rec, FIRST, request) == Ok(g) && NoneLike(held, g, request.id) && |content| == request.size
      && (ChecksContent(site, request) ==> Describes(site, request.id, request.meta, content))
      && w.store.shelf.staging[upload]
           == Staged(content, if ChecksContent(site, request) then Some(site.sha256(content)) else None)
    ensures change == CommitUpload(site, 0, w.store, FIRST, upload).change && change.Publish? && change.upload == upload
    ensures change.generation == g && change.id == rec.tickets[upload].request.id && change.size == |content|
  {
    ReachableHasInv(site, w);
    assert upload in w.store.rec.tickets && upload !in w.store.rec.tombstones;
    FindsNone(site, w, rec, held, spent, g, rec.tickets[upload].request.id);
    change := CommitUpload(site, 0, w.store, FIRST, upload).change;
  }

  /** It is committed. */
  lemma CommitsUpload(site: Site, w: World, rec: WorkspaceRecord, held: map<nat, set<ItemId>>, spent: set<UploadId>,
                      upload: UploadId, content: seq<byte>, g: nat) returns (later: World)
    requires Plausible(site) && Is(site, w, rec, held, spent)
    requires upload in rec.tickets && rec.tickets[upload] == TicketFor(site, rec.tickets[upload].request)
    requires var request := rec.tickets[upload].request;
      && UploadTarget(rec, FIRST, request) == Ok(g) && NoneLike(held, g, request.id) && |content| == request.size
      && (ChecksContent(site, request) ==> Describes(site, request.id, request.meta, content))
    ensures Is(site, later, Kept(rec, upload, g), held[g := HeldIn(held, g) + {rec.tickets[upload].request.id}], spent)
  {
    var w1 := Writes(site, w, rec, held, spent, upload, content);
    var change := CommitPublishes(site, w1, rec, held, spent, upload, content, g);
    OneMore(site, w1, Do(OpCommitUpload(FIRST, upload)));
    DoIsMaking(site, w1, OpCommitUpload(FIRST, upload));
    later := Next(site, w1, Do(OpCommitUpload(FIRST, upload)));
    KeepsOne(site, w1, rec, held, spent, change, later);
  }

  lemma KeepsOne(site: Site, w: World, rec: WorkspaceRecord, held: map<nat, set<ItemId>>, spent: set<UploadId>,
          change: Change, later: World)
    requires Is(site, w, rec, held, spent) && change.Publish? && change.upload in rec.tickets
    requires change.id == rec.tickets[change.upload].request.id && NoneLike(held, change.generation, change.id)
    requires change.size == rec.tickets[change.upload].request.size
    requires Reachable(site, later) && later.up && later.now == 0 && later.hist.spent == spent
    requires later.store == Apply(change, w.store)
    ensures Is(site, later, Kept(rec, change.upload, change.generation),
               held[change.generation := HeldIn(held, change.generation) + {change.id}], spent)
  {
    assert w.store.shelf.Items(change.generation).Keys == HeldIn(held, change.generation);
    PublishAdds(w.store.shelf, change);
    PublishBooks(w.store.rec, rec, w.store.shelf, change);
  }

  lemma PublishBooks(before: WorkspaceRecord, rec: WorkspaceRecord, shelf: Shelf, change: Change)
    requires before == rec.(tombstones := before.tombstones) && change.Publish? && change.upload in rec.tickets
    requires change.size == rec.tickets[change.upload].request.size
    ensures var later := RecordAfter(change, shelf, before);
      later == Kept(rec, change.upload, change.generation).(tombstones := later.tombstones)
  {
  }

  /** The record once an upload is an item of a generation. */
  function Kept(rec: WorkspaceRecord, upload: UploadId, g: nat): WorkspaceRecord
    requires upload in rec.tickets
  {
    rec.(tickets := rec.tickets - {upload}, used := rec.used[g := rec.UsedOf(g) + rec.tickets[upload].request.size])
  }

  lemma PublishAdds(shelf: Shelf, change: Change)
    requires change.Publish? && change.upload in shelf.staging && change.id !in shelf.Items(change.generation)
    ensures var later := ShelfAfter(change, shelf);
      && later.staging.Keys == shelf.staging.Keys - {change.upload}
      && forall h: nat :: later.Items(h).Keys
           == if h == change.generation then shelf.Items(h).Keys + {change.id} else shelf.Items(h).Keys
  {
  }

  lemma Uploads(site: Site, w: World, rec: WorkspaceRecord, held: map<nat, set<ItemId>>, spent: set<UploadId>,
                request: UploadRequest, drawn: UploadId, content: seq<byte>, g: nat) returns (later: World)
    requires Plausible(site) && Is(site, w, rec, held, spent) && drawn !in spent && drawn !in rec.tickets
    requires UploadTarget(rec, FIRST, request) == Ok(g) && NoneLike(held, g, request.id)
    requires LiveTicketsFor(rec, 0, FIRST.key, request) == {}
    requires site.limits.maxItemBytes.Some? ==> request.size <= site.limits.maxItemBytes.value
    requires SaturatingAdd(Held(rec, 0, g, request.inRewrite), request.size) <= site.limits.quotaBytes
    requires |content| == request.size
    requires ChecksContent(site, request) ==> Describes(site, request.id, request.meta, content)
    ensures Is(site, later, rec.(used := rec.used[g := rec.UsedOf(g) + request.size]),
               held[g := HeldIn(held, g) + {request.id}], spent + {drawn})
  {
    var begun := rec.(tickets := rec.tickets[drawn := TicketFor(site, request)]);
    var w1 := BeginsUpload(site, w, rec, held, spent, request, drawn, g);
    SameTarget(rec, begun, FIRST, request);
    KeptAgain(rec, drawn, TicketFor(site, request), g);
    later := CommitsUpload(site, w1, begun, held, spent + {drawn}, drawn, content, g);
  }

  lemma KeptAgain(rec: WorkspaceRecord, drawn: UploadId, ticket: Ticket, g: nat)
    requires drawn !in rec.tickets
    ensures Kept(rec.(tickets := rec.tickets[drawn := ticket]), drawn, g)
      == rec.(used := rec.used[g := rec.UsedOf(g) + ticket.request.size])
  {
    assert rec.tickets[drawn := ticket] - {drawn} == rec.tickets;
  }

  // === rotations ===

  function Rotating(site: Site, rec: WorkspaceRecord, to: KeyId): WorkspaceRecord
    requires rec.state.Settled?
  {
    rec.(state := Rewriting(Session(
           Rotate, rec.state.seal, Seal(to, []), FIRST.key, site.limits.leaseSecs, rec.nextGeneration)),
         nextGeneration := rec.nextGeneration + 1)
  }

  lemma Rotates(site: Site, w: World, rec: WorkspaceRecord, held: map<nat, set<ItemId>>, spent: set<UploadId>,
          to: KeyId)
    returns (later: World)
    requires Is(site, w, rec, held, spent) && rec.state.Settled? && rec.SealKey().Some? && rec.SealKey() != Some(to)
    requires rec.endedRewrites == {}
    ensures Is(site, later, Rotating(site, rec, to), held, spent)
  {
    var op := OpBeginRewrite(FIRST, RewriteRequest(Rotate, rec.SealKey(), to, []));
    MayRotate(site, w.store, rec, to);
    OneMore(site, w, Do(op));
    DoMakes(site, w, op, OpenSession(Rotating(site, rec, to).state.session));
    later := Next(site, w, Do(op));
    assert later.store.shelf == w.store.shelf;
  }

  lemma MayRotate(site: Site, st: Store, rec: WorkspaceRecord, to: KeyId)
    requires st.rec == rec.(tombstones := st.rec.tombstones) && rec.state.Settled? && rec.endedRewrites == {}
    requires rec.SealKey().Some? && rec.SealKey() != Some(to)
    ensures Decide(site, 0, st, OpBeginRewrite(FIRST, RewriteRequest(Rotate, rec.SealKey(), to, []))).change
      == OpenSession(Rotating(site, rec, to).state.session)
  {
  }

  function Switched(rec: WorkspaceRecord): WorkspaceRecord
    requires rec.state.Rewriting?
  {
    rec.(state := Settled(Some(rec.state.session.next)), generation := rec.state.session.stagedGeneration,
         used := rec.used - {rec.generation})
  }

  lemma MaySwitch(site: Site, w: World, rec: WorkspaceRecord, held: map<nat, set<ItemId>>, spent: set<UploadId>)
    requires Is(site, w, rec, held, spent) && rec.state.Rewriting? && rec.state.session.holder == FIRST.key
    requires |HeldIn(held, rec.state.session.stagedGeneration)| == |HeldIn(held, rec.generation)|
    ensures Decide(site, 0, w.store, OpCommitRewrite(FIRST, rec.state.session.next.keyId)).change == Switch
  {
    SameCount(w.store.shelf.Items(rec.state.session.stagedGeneration),
      HeldIn(held, rec.state.session.stagedGeneration));
    SameCount(w.store.shelf.Items(rec.generation), HeldIn(held, rec.generation));
  }

  lemma Switches(site: Site, w: World, rec: WorkspaceRecord, held: map<nat, set<ItemId>>, spent: set<UploadId>)
    returns (later: World)
    requires Is(site, w, rec, held, spent) && rec.state.Rewriting? && rec.state.session.holder == FIRST.key
    requires |HeldIn(held, rec.state.session.stagedGeneration)| == |HeldIn(held, rec.generation)|
    requires forall u <- rec.tickets :: !rec.tickets[u].request.inRewrite
    ensures Is(site, later, Switched(rec), held, spent)
  {
    var op := OpCommitRewrite(FIRST, rec.state.session.next.keyId);
    MaySwitch(site, w, rec, held, spent);
    OneMore(site, w, Do(op));
    DoMakes(site, w, op, Switch);
    later := Next(site, w, Do(op));
    SwitchLeaves(site, w, rec, held, spent, later);
  }

  lemma SwitchLeaves(site: Site, w: World, rec: WorkspaceRecord, held: map<nat, set<ItemId>>, spent: set<UploadId>,
          later: World)
    requires Is(site, w, rec, held, spent) && rec.state.Rewriting? && later == Making(Switch, w)
      && Reachable(site, later)
    requires forall u <- rec.tickets :: !rec.tickets[u].request.inRewrite
    ensures Is(site, later, Switched(rec), held, spent)
  {
    SwitchBooks(w.store.rec, rec, w.store.shelf);
    assert later.store.shelf == w.store.shelf;
  }

  lemma SwitchBooks(before: WorkspaceRecord, rec: WorkspaceRecord, shelf: Shelf)
    requires before == rec.(tombstones := before.tombstones) && rec.state.Rewriting?
    requires forall u <- rec.tickets :: !rec.tickets[u].request.inRewrite
    ensures RecordAfter(Switch, shelf, before) == Switched(rec).(tombstones := before.tombstones)
  {
    assert WithoutRewriteTickets(rec.tickets) == rec.tickets;
  }

  lemma SameCount(items: map<ItemId, Item>, ids: set<ItemId>)
    requires items.Keys == ids
    ensures |items| == |ids|
  {
    assert |items| == |items.Keys|;
  }

  lemma NothingReserved(now: nat, inRewrite: bool)
    ensures Reserved(map[], now, inRewrite) == 0
  {
    assert Promised(map[], now, inRewrite) == map[];
  }

  lemma NoneInRewrite(rec: WorkspaceRecord, request: UploadRequest)
    requires (forall u <- rec.tickets :: !rec.tickets[u].request.inRewrite) && request.inRewrite
    ensures Reserved(rec.tickets, 0, true) == 0 && LiveTicketsFor(rec, 0, FIRST.key, request) == {}
  {
    assert Promised(rec.tickets, 0, true) == map[];
  }

  /** A rotation of one item, as large as the quota afterwards. */
  lemma RotatesFull(site: Site, w: World, rec: WorkspaceRecord, held: map<nat, set<ItemId>>, spent: set<UploadId>,
                    to: KeyId, drawn: UploadId) returns (later: World)
    requires Roomy(site) && Is(site, w, rec, held, spent) && drawn !in spent && drawn !in rec.tickets
    requires rec.state.Settled? && rec.SealKey().Some? && rec.SealKey() != Some(to) && rec.endedRewrites == {}
    requires rec.nextGeneration !in rec.used && rec.nextGeneration !in held
    requires forall u <- rec.tickets :: !rec.tickets[u].request.inRewrite
    ensures Is(site, later, Filled(site, Rotating(site, rec, to), rec.nextGeneration), held[rec.nextGeneration := {ID}],
      spent + {drawn})
  {
    var quota := site.limits.quotaBytes;
    var request := UploadRequest(ID, [], quota, Some(to), true);
    var rotating := Rotating(site, rec, to);
    var w1 := Rotates(site, w, rec, held, spent, to);
    NoneInRewrite(rotating, request);
    later := Uploads(site, w1, rotating, held, spent, request, drawn, seq(quota, _ => 0), rec.nextGeneration);
  }

  function Filled(site: Site, rec: WorkspaceRecord, g: nat): WorkspaceRecord {
    rec.(used := rec.used[g := site.limits.quotaBytes])
  }

  /** Limits under which one item may be as large as the quota. */
  predicate Roomy(site: Site) {
    && Plausible(site) && site.limits.quotaBytes <= U64_MAX
    && (site.limits.maxItemBytes.Some? ==> site.limits.quotaBytes <= site.limits.maxItemBytes.value)
  }

  // === with plain items ===

  /** A plaintext item fills the workspace. */
  lemma FillsPlain(site: Site, id: ItemId, meta: seq<byte>, content: seq<byte>) returns (w: World)
    requires Roomy(site) && |content| == site.limits.quotaBytes && Describes(site, id, meta, content)
    ensures Is(site, w, NEW_RECORD.(used := map[0 := site.limits.quotaBytes]), map[0 := {id}], {ONE})
  {
    OpenIsReachable(site);
    NothingReserved(0, false);
    assert Is(site, Opened(), BOOKED, map[], {});
    w := Uploads(site, Opened(), BOOKED, map[], {}, UploadRequest(id, meta, |content|, None, false), ONE, content, 0);
    assert BOOKED.used[0 := site.limits.quotaBytes] == map[0 := site.limits.quotaBytes];
    assert {ONE} == {} + {ONE};
  }

  /** The full workspace is set aside and a new one begun over it. */
  lemma StartsAfresh(site: Site, w: World, id: ItemId) returns (later: World)
    requires Is(site, w, NEW_RECORD.(used := map[0 := site.limits.quotaBytes]), map[0 := {id}], {ONE})
    ensures Is(site, later, Afresh(site), map[0 := {id}], {ONE})
  {
    var op := OpFreshStart(FIRST, Seal(K1, []));
    assert id in w.store.shelf.Items(0);
    assert FreshStart(w.store, FIRST, Seal(K1, [])).change == SetAside(Seal(K1, []));
    OneMore(site, w, Do(op));
    later := Next(site, w, Do(op));
  }

  function Afresh(site: Site): WorkspaceRecord {
    NEW_RECORD.(state := Settled(Some(Seal(K1, []))), plain := Some(0), generation := 1, nextGeneration := 2,
                used := map[0 := site.limits.quotaBytes])
  }

  function Rotated(site: Site): WorkspaceRecord {
    NEW_RECORD.(state := Settled(Some(Seal(K2, []))), plain := Some(0), generation := 2, nextGeneration := 3,
                used := map[0 := site.limits.quotaBytes, 2 := site.limits.quotaBytes])
  }

  /** Over plain items that fill the quota, an empty item is kept. */
  lemma KeepsEmptyBesidePlain(site: Site, w: World, id: ItemId) returns (later: World)
    requires Roomy(site) && Is(site, w, Afresh(site), map[0 := {id}], {ONE})
    ensures Is(site, later, Afresh(site).(used := map[0 := site.limits.quotaBytes, 1 := 0]), map[0 := {id}, 1 := {ID}],
      {ONE, TWO})
  {
    NothingReserved(0, false);
    later := Uploads(site, w, Afresh(site), map[0 := {id}], {ONE},
                     UploadRequest(ID, [], 0, Some(K1), false), TWO, [], 1);
    assert {} + {ID} == {ID} && map[0 := {id}][1 := {ID}] == map[0 := {id}, 1 := {ID}] && {ONE} + {TWO} == {ONE, TWO};
    assert Afresh(site).used[1 := 0] == map[0 := site.limits.quotaBytes, 1 := 0];
  }

  /** And rewritten as large as the quota. */
  lemma RewritesBesidePlain(site: Site, w: World, id: ItemId) returns (later: World)
    requires Roomy(site)
    requires Is(site, w, Afresh(site).(used := map[0 := site.limits.quotaBytes, 1 := 0]), map[0 := {id}, 1 := {ID}],
      {ONE, TWO})
    ensures Is(site, later, Rotated(site), map[0 := {id}, 1 := {ID}, 2 := {ID}], {ONE, TWO, OLD})
  {
    var rec := Afresh(site).(used := map[0 := site.limits.quotaBytes, 1 := 0]);
    var held := map[0 := {id}, 1 := {ID}, 2 := {ID}];
    var staged := RotatesFull(site, w, rec, map[0 := {id}, 1 := {ID}], {ONE, TWO}, K2, OLD);
    assert map[0 := {id}, 1 := {ID}][2 := {ID}] == held && {ONE, TWO} + {OLD} == {ONE, TWO, OLD};
    later := Switches(site, staged, Filled(site, Rotating(site, rec, K2), 2), held, {ONE, TWO, OLD});
    RotatedBooks(site, rec);
  }

  lemma RotatedBooks(site: Site, rec: WorkspaceRecord)
    requires rec == Afresh(site).(used := map[0 := site.limits.quotaBytes, 1 := 0])
    ensures Switched(Filled(site, Rotating(site, rec, K2), 2)) == Rotated(site)
  {
  }

  lemma FillsTwice(site: Site, id: ItemId, meta: seq<byte>, content: seq<byte>) returns (w: World)
    requires Roomy(site) && |content| == site.limits.quotaBytes && Describes(site, id, meta, content)
    ensures Is(site, w, Rotated(site), map[0 := {id}, 1 := {ID}, 2 := {ID}], {ONE, TWO, OLD})
  {
    var full := FillsPlain(site, id, meta, content);
    var afresh := StartsAfresh(site, full, id);
    var kept := KeepsEmptyBesidePlain(site, afresh, id);
    w := RewritesBesidePlain(site, kept, id);
  }

  /** The comment on reservations says that a workspace can hold twice its
      quota only while a rewrite is open. With plain items as large as the
      quota, set aside, it holds twice its quota with none open, and three
      times with one: as much as it ever can. */
  lemma PlainItemsMayDoubleTheQuota(site: Site, id: ItemId, meta: seq<byte>, content: seq<byte>)
    requires Roomy(site) && |content| == site.limits.quotaBytes && Describes(site, id, meta, content)
    ensures exists w ::
      Reachable(site, w) && w.up && w.store.rec.state.Settled? && UsedBytes(w.store.rec) == 2 * site.limits.quotaBytes
    ensures exists w ::
      Reachable(site, w) && w.up && w.store.rec.state.Rewriting? && UsedBytes(w.store.rec) == 3 * site.limits.quotaBytes
  {
    var w := FillsTwice(site, id, meta, content);
    assert UsedBytes(w.store.rec) == 2 * site.limits.quotaBytes;
    var four := UploadId("00000000000000000000000000000004");
    var staged := RotatesFull(site, w, Rotated(site), map[0 := {id}, 1 := {ID}, 2 := {ID}], {ONE, TWO, OLD}, K3, four);
    assert UsedBytes(staged.store.rec) == 3 * site.limits.quotaBytes;
  }

  // === without plain items ===

  function OldRequest(site: Site): UploadRequest { UploadRequest(OTHER, [], site.limits.quotaBytes, Some(K1), false) }

  function UnderK2(site: Site): WorkspaceRecord {
    NEW_RECORD.(state := Settled(Some(Seal(K2, []))), generation := 1, nextGeneration := 2, used := map[],
                tickets := map[OLD := TicketFor(site, OldRequest(site))])
  }

  /** An upload as large as the quota is begun, and the workspace rotated. */
  lemma BeginsOld(site: Site) returns (w: World)
    requires Roomy(site)
    ensures Is(site, w, UnderK2(site), map[], {OLD})
  {
    SealedIsReachable(site);
    NothingReserved(0, false);
    assert Is(site, SealedAtFirst(), SEALED, map[], {});
    var begun := BeginsUpload(site, SealedAtFirst(), SEALED, map[], {}, OldRequest(site), OLD, 0);
    var rec := SEALED.(tickets := map[OLD := TicketFor(site, OldRequest(site))]);
    assert {} + {OLD} == {OLD} && SEALED.tickets[OLD := TicketFor(site, OldRequest(site))] == rec.tickets;
    var rotating := Rotates(site, begun, rec, map[], {OLD}, K2);
    w := Switches(site, rotating, Rotating(site, rec, K2), map[], {OLD});
    assert Switched(Rotating(site, rec, K2)) == UnderK2(site);
  }

  function BackUnderK1(site: Site): WorkspaceRecord {
    UnderK2(site).(state := Settled(Some(Seal(K1, []))), generation := 2, nextGeneration := 3,
                   used := map[2 := site.limits.quotaBytes])
  }

  /** An empty item is kept under the second key. */
  lemma KeepsEmptyBesideOld(site: Site, w: World) returns (later: World)
    requires Roomy(site) && Is(site, w, UnderK2(site), map[], {OLD})
    ensures Is(site, later, UnderK2(site).(used := map[1 := 0]), map[1 := {ID}], {OLD, ONE})
  {
    OldIsReserved(site);
    later := Uploads(site, w, UnderK2(site), map[], {OLD}, UploadRequest(ID, [], 0, Some(K2), false), ONE, [], 1);
    assert {} + {ID} == {ID} && map[][1 := {ID}] == map[1 := {ID}] && {OLD} + {ONE} == {OLD, ONE};
  }

  /** It is rewritten as large as the quota, and the workspace is back under
      its first key. */
  lemma RotatesBack(site: Site, w: World) returns (later: World)
    requires Roomy(site) && Is(site, w, UnderK2(site).(used := map[1 := 0]), map[1 := {ID}], {OLD, ONE})
    ensures Is(site, later, BackUnderK1(site), map[1 := {ID}, 2 := {ID}], {OLD, ONE, TWO})
  {
    var rec := UnderK2(site).(used := map[1 := 0]);
    var held := map[1 := {ID}, 2 := {ID}];
    var staged := RotatesFull(site, w, rec, map[1 := {ID}], {OLD, ONE}, K1, TWO);
    assert map[1 := {ID}][2 := {ID}] == held && {OLD, ONE} + {TWO} == {OLD, ONE, TWO};
    later := Switches(site, staged, Filled(site, Rotating(site, rec, K1), 2), held, {OLD, ONE, TWO});
    BackBooks(site, rec);
  }

  lemma BackBooks(site: Site, rec: WorkspaceRecord)
    requires rec == UnderK2(site).(used := map[1 := 0])
    ensures Switched(Filled(site, Rotating(site, rec, K1), 2)) == BackUnderK1(site)
  {
  }

  lemma OldIsReserved(site: Site)
    requires Plausible(site)
    ensures Reserved(UnderK2(site).tickets, 0, false) == site.limits.quotaBytes
  {
    var promised := Promised(UnderK2(site).tickets, 0, false);
    SumTakeOut(promised, OLD);
    assert promised - {OLD} == map[];
  }

  /** Nor does it take plain items: an upload as large as the quota, begun
      under the first key and committed when the workspace is back under it. */
  lemma FormerKeyMayDoubleTheQuota(site: Site)
    requires Roomy(site)
    ensures exists w ::
      && Reachable(site, w) && w.up && w.store.rec.state.Settled? && w.store.rec.plain.None?
      && UsedBytes(w.store.rec) == 2 * site.limits.quotaBytes
  {
    var under := BeginsOld(site);
    var kept := KeepsEmptyBesideOld(site, under);
    var back := RotatesBack(site, kept);
    assert NoneLike(map[1 := {ID}, 2 := {ID}], 2, OTHER) by {
      assert ID.ContentKey() == "e3b0c44298fc" && OTHER.ContentKey() == "0123456789ab";
    }
    var w := CommitsUpload(site, back, BackUnderK1(site), map[1 := {ID}, 2 := {ID}], {OLD, ONE, TWO}, OLD,
      seq(site.limits.quotaBytes, _ => 0), 2);
    assert UsedBytes(w.store.rec) == 2 * site.limits.quotaBytes;
  }
}
