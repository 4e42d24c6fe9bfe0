/** The engine over the filesystem shelf: a workspace over time whose shelf is a
    directory tree, with deaths between any two changes of it. Every run of it
    is a run of the world, whose shelf is the one in memory. */
module FsWorlds {
  import opened Wrappers
  import opened Ids
  import opened Stores
  import opened Protocol
  import opened Changes
  import opened World
  import opened Invariants
  import opened Runs
  import opened MemoryShelves
  import opened ShelfCalls
  import opened FsTrees
  import opened FsCalls
  import Recovery

  // === a workspace on files ===

  datatype FsWorld = FsWorld(
    tree: Tree, rec: WorkspaceRecord, now: nat, pending: set<Cleanup>, up: bool,
    spent: set<UploadId>)                       // ids ever drawn

  datatype FsEvent =
    /** A transaction from start to commit. */
    | Transact(op: Op, bin: nat)
    /** One that dies after so many changes of its shelf call, uncommitted. */
    | DieInCall(op: Op, bin: nat, changes: nat)
    | Send(caller: Caller, upload: UploadId, chunks: seq<Chunk>)
    | DieInSend(caller: Caller, upload: UploadId, chunks: seq<Chunk>, changes: nat)
    | CleanUp(cleanup: Cleanup, bin: nat)
    | DieInCleanUp(cleanup: Cleanup, bin: nat, changes: nat)
    | LeaveOut(cleanup: Cleanup)
    | Halt
    /** The shelf is opened, and then the engine. */
    | Start
    /** An opening that dies on the way, this much of it done. */
    | DieInStart(left: Tree)
    | Wait(seconds: nat)

  ghost function StoreOf(f: FsWorld): Store { Store(ShelfOf(f.tree), f.rec) }

  /** The one call a change makes of the shelf, inside the transaction. */
  function CallOf(change: Change): Option<Call> {
    match change
    case Restage(u) => Some(StageCreate(u))
    case Issue(u, _) => Some(StageCreate(u))
    case Publish(u, g, id, envelope, _, _) => Some(PublishItem(u, g, id, envelope))
    case Remove(g, id) => Some(RemoveItem(g, id))
    case _ => None
  }

  function CleanUpCall(c: Cleanup): Call {
    match c
    case DropGeneration(g) => DropItems(g)
    case RemoveStaging(u) => StageRemove(u)
  }

  /** What content is sent with, if it is looked at. */
  function SendCall(site: Site, f: FsWorld, caller: Caller, upload: UploadId, chunks: seq<Chunk>): Option<Call> {
    var live := LiveTicket(f.rec, f.now, caller, upload);
    if Remembered(f.rec, f.now, caller, upload).Some? || live.None? then None
    else Some(StageWrite(upload, chunks, live.value.request.size, ChecksContent(site, live.value.request)))
  }

  ghost function CallSteps(site: Site, t: Tree, call: Option<Call>, bin: nat): seq<FsStep> {
    if call.None? then [] else StepsOf(site.sha256, t, call.value, bin)
  }

  /** The tree after a call, or after the first of its changes. */
  ghost function Made(site: Site, t: Tree, call: Option<Call>, bin: nat): Tree {
    AfterAll(t, CallSteps(site, t, call, bin))
  }

  ghost function MadeInPart(site: Site, t: Tree, call: Option<Call>, bin: nat, n: nat): Tree {
    var steps := CallSteps(site, t, call, bin);
    AfterAll(t, if n < |steps| then steps[..n] else steps)
  }

  /** Bare places without a live ticket: the shelf lists them too. */
  function BareAbandoned(t: Tree, rec: WorkspaceRecord, now: nat): set<UploadId> {
    set u | u in Bare(t) && !(u in rec.tickets && rec.tickets[u].expiresAt > now)
  }

  ghost function AskedOfFiles(change: Change, t: Tree, rec: WorkspaceRecord): set<Cleanup> {
    Asked(change, ShelfOf(t), rec) + RemoveAll(
      match change
      case Sweep(now) => BareAbandoned(t, rec, now)
      case Reconcile(now) => BareAbandoned(t, rec, now)
      case _ => {})
  }

  function Drawn(op: Op): set<UploadId> {
    if op.OpBeginUpload? then {op.drawn} else {}
  }

  ghost predicate FsEnabled(f: FsWorld, e: FsEvent) {
    match e
    case Transact(op, _) => f.up && Drawn(op) !! f.spent
    case DieInCall(op, _, _) => f.up && Drawn(op) !! f.spent
    case Send(_, _, _) => f.up
    case DieInSend(_, _, _, _) => f.up
    case CleanUp(c, _) => c in f.pending
    case DieInCleanUp(c, _, _) => c in f.pending
    case LeaveOut(c) => c in f.pending
    case Start => !f.up
    case DieInStart(left) => !f.up && PartlyOpened(f.tree, left)
    case _ => true
  }

  ghost function ChangeOf(site: Site, f: FsWorld, op: Op): Change {
    Decide(site, f.now, StoreOf(f), op).change
  }

  /** What the operation answers: a sweep counts the bare places too. */
  ghost function AnswerOfFiles(site: Site, f: FsWorld, op: Op): Answer {
    if op.OpCleanStaging?
    then Swept(|Abandoned(ShelfOf(f.tree), f.rec, f.now)| + |BareAbandoned(f.tree, f.rec, f.now)|)
    else Decide(site, f.now, StoreOf(f), op).answer
  }

  ghost function FsNext(site: Site, f: FsWorld, e: FsEvent): FsWorld {
    match e
    case Transact(op, bin) =>
      var change := ChangeOf(site, f, op);
      f.(tree := Made(site, f.tree, CallOf(change), bin), rec := RecordAfter(change, ShelfOf(f.tree), f.rec),
         pending := f.pending + AskedOfFiles(change, f.tree, f.rec), spent := f.spent + Drawn(op))
    case DieInCall(op, bin, n) =>
      f.(tree := MadeInPart(site, f.tree, CallOf(ChangeOf(site, f, op)), bin, n),
         pending := {}, up := false, spent := f.spent + Drawn(op))
    case Send(caller, upload, chunks) =>
      f.(tree := Made(site, f.tree, SendCall(site, f, caller, upload, chunks), 0))
    case DieInSend(caller, upload, chunks, n) =>
      f.(tree := MadeInPart(site, f.tree, SendCall(site, f, caller, upload, chunks), 0, n), pending := {}, up := false)
    case CleanUp(c, bin) =>
      f.(tree := Made(site, f.tree, Some(CleanUpCall(c)), bin), pending := f.pending - {c})
    case DieInCleanUp(c, bin, n) =>
      f.(tree := MadeInPart(site, f.tree, Some(CleanUpCall(c)), bin, n), pending := {}, up := false)
    case LeaveOut(c) => f.(pending := f.pending - {c})
    case Halt => f.(pending := {}, up := false)
    case Start =>
      var t := Opened(f.tree);
      f.(tree := t, rec := RecordAfter(Reconcile(f.now), ShelfOf(t), f.rec),
         pending := AskedOfFiles(Reconcile(f.now), t, f.rec), up := true)
    case DieInStart(left) => f.(tree := left)
    case Wait(seconds) => f.(now := f.now + seconds)
  }

  // === what the two have in common ===

  ghost predicate NoHollow(t: Tree) { forall p :: !HollowAt(t, p) }

  /** What is pending here and not in the world: bare places, which the world
      knows nothing of, to be removed. */
  ghost predicate OnlyBare(f: FsWorld, w: World) {
    forall c <- f.pending ::
      c in w.pending
      || (c.RemoveStaging? && c.upload in f.spent && c.upload !in f.rec.tickets && c.upload !in w.store.shelf.staging)
  }

  ghost predicate Sim(site: Site, f: FsWorld, w: World) {
    && f.rec == w.store.rec && f.now == w.now && f.up == w.up
    && Sound(site.sha256, Opened(f.tree)) && (f.up ==> Opened(f.tree) == f.tree)
    && Alike(ShelfOf(Opened(f.tree)), w.store.shelf) && NoHollow(f.tree)
    && w.hist.spent <= f.spent && Bare(f.tree) <= f.spent
    && w.pending <= f.pending && OnlyBare(f, w) && (!f.up ==> f.pending == {})
  }

  // === decisions on shelves that are alike ===

  lemma AlikeShelves(change: Change, a: Shelf, b: Shelf)
    requires Alike(a, b)
    ensures Alike(ShelfAfter(change, a), ShelfAfter(change, b))
  {
    forall h: nat ensures ShelfAfter(change, a).Items(h) == ShelfAfter(change, b).Items(h) {
      assert a.Items(h) == b.Items(h);
      if change.Publish? || change.Remove? {
        assert a.Items(change.generation) == b.Items(change.generation);
      }
    }
  }

  lemma AlikeOrphans(a: Shelf, b: Shelf, rec: WorkspaceRecord)
    requires Alike(a, b)
    ensures Orphans(a, rec) == Orphans(b, rec)
  {
    forall g: nat ensures g in Orphans(a, rec) <==> g in Orphans(b, rec) {
      assert a.Items(g) == b.Items(g);
    }
  }

  lemma AlikeBooks(a: Shelf, b: Shelf, rec: WorkspaceRecord)
    requires Alike(a, b)
    ensures Recounted(a, rec) == Recounted(b, rec)
  {
    assert forall g <- rec.Live() :: a.Bytes(g) == b.Bytes(g);
  }

  lemma AlikeRecords(change: Change, a: Shelf, b: Shelf, rec: WorkspaceRecord)
    requires Alike(a, b)
    ensures RecordAfter(change, a, rec) == RecordAfter(change, b, rec)
    ensures Asked(change, a, rec) == Asked(change, b, rec)
  {
    AlikeOrphans(a, b, rec);
    match change
    case Reconcile(now) =>
      AlikeBooks(a, b, rec);
      AlikeOrphans(a, b, Recounted(a, rec));
    case _ =>
  }

  lemma AlikeViews(a: Shelf, b: Shelf, rec: WorkspaceRecord)
    requires Alike(a, b)
    ensures Protocol.View(Store(a, rec)) == Protocol.View(Store(b, rec))
    ensures ViewSession(Store(a, rec)) == ViewSession(Store(b, rec))
  {
  }

  /** What a change leaves is shown alike. */
  lemma AlikeApplied(change: Change, a: Shelf, b: Shelf, rec: WorkspaceRecord)
    requires Alike(a, b)
    ensures Changed(change, Store(a, rec)) == Changed(change, Store(b, rec))
    ensures AnswerSession(Apply(change, Store(a, rec))) == AnswerSession(Apply(change, Store(b, rec)))
  {
    AlikeShelves(change, a, b);
    AlikeRecords(change, a, b, rec);
    AlikeViews(ShelfAfter(change, a), ShelfAfter(change, b), RecordAfter(change, a, rec));
  }

  predicate OnUploads(op: Op) {
    op.OpBeginUpload? || op.OpCommitUpload? || op.OpAbortUpload? || op.OpDeleteItem? || op.OpCleanStaging?
      || op.OpReconcile?
  }

  lemma AlikeDecidesUploads(site: Site, now: nat, a: Shelf, b: Shelf, rec: WorkspaceRecord, op: Op)
    requires Alike(a, b) && OnUploads(op)
    ensures Decide(site, now, Store(a, rec), op) == Decide(site, now, Store(b, rec), op)
  {
    AlikeOrphans(a, b, rec);
  }

  lemma AlikeDecidesSeals(site: Site, now: nat, a: Shelf, b: Shelf, rec: WorkspaceRecord, op: Op)
    requires Alike(a, b) && (op.OpEnableEncryption? || op.OpFreshStart? || op.OpReplaceHeader?)
    ensures Decide(site, now, Store(a, rec), op) == Decide(site, now, Store(b, rec), op)
  {
    AlikeApplied(Nothing, a, b, rec);
    AlikeApplied(Settle(op.seal), a, b, rec);
    AlikeApplied(SetAside(op.seal), a, b, rec);
    assert a.Items(rec.generation) == b.Items(rec.generation);
  }

  /** A change, and the session it leaves as its answer. */
  ghost function WithSession(change: Change, st: Store): Decision {
    Decision(change, AnswerSession(Apply(change, st)))
  }

  lemma AlikeWithSession(change: Change, a: Shelf, b: Shelf, rec: WorkspaceRecord)
    requires Alike(a, b)
    ensures WithSession(change, Store(a, rec)) == WithSession(change, Store(b, rec))
  {
    AlikeApplied(change, a, b, rec);
  }

  lemma RenewsWithSession(site: Site, now: nat, st: Store, caller: Caller)
    ensures Renewed(site, now, st, caller) == WithSession(Renew(caller.key, now + site.limits.leaseSecs), st)
  {
    var change := Renew(caller.key, now + site.limits.leaseSecs);
    var left := Apply(change, st);
    assert Renewed(site, now, st, caller) == Decision(change, AnswerSession(left));
  }

  lemma AlikeRenewed(site: Site, now: nat, a: Shelf, b: Shelf, rec: WorkspaceRecord, caller: Caller)
    requires Alike(a, b)
    ensures Renewed(site, now, Store(a, rec), caller) == Renewed(site, now, Store(b, rec), caller)
  {
    RenewsWithSession(site, now, Store(a, rec), caller);
    RenewsWithSession(site, now, Store(b, rec), caller);
    AlikeWithSession(Renew(caller.key, now + site.limits.leaseSecs), a, b, rec);
  }

  predicate MayBegin(rec: WorkspaceRecord, caller: Caller, r: RewriteRequest)
    requires rec.state.Settled?
  {
    && caller.role == ReadWrite && r.kind.Migrate? == rec.state.seal.None? && r.newKeyId !in rec.endedRewrites
    && rec.SealKey() == r.expectedKeyId && rec.SealKey() != Some(r.newKeyId)
  }

  lemma OpensWithSession(site: Site, now: nat, st: Store, caller: Caller, r: RewriteRequest, session: Session)
    requires st.rec.state.Settled? && MayBegin(st.rec, caller, r)
    requires session == Session(r.kind, st.rec.state.seal, Seal(r.newKeyId, r.newHeader), caller.key,
                                now + site.limits.leaseSecs, st.rec.nextGeneration)
    ensures BeginRewrite(site, now, st, caller, r) == WithSession(OpenSession(session), st)
  {
  }

  lemma RefusesAlike(site: Site, now: nat, a: Shelf, b: Shelf, rec: WorkspaceRecord, caller: Caller, r: RewriteRequest)
    requires rec.state.Settled? && !MayBegin(rec, caller, r)
    ensures BeginRewrite(site, now, Store(a, rec), caller, r) == BeginRewrite(site, now, Store(b, rec), caller, r)
  {
  }

  lemma AlikeBegins(site: Site, now: nat, a: Shelf, b: Shelf, rec: WorkspaceRecord, caller: Caller, r: RewriteRequest)
    requires Alike(a, b)
    ensures BeginRewrite(site, now, Store(a, rec), caller, r) == BeginRewrite(site, now, Store(b, rec), caller, r)
  {
    if rec.state.Rewriting? {
      AlikeRenewed(site, now, a, b, rec, caller);
    } else if MayBegin(rec, caller, r) {
      var session := Session(r.kind, rec.state.seal, Seal(r.newKeyId, r.newHeader), caller.key,
                             now + site.limits.leaseSecs, rec.nextGeneration);
      OpensWithSession(site, now, Store(a, rec), caller, r, session);
      OpensWithSession(site, now, Store(b, rec), caller, r, session);
      AlikeWithSession(OpenSession(session), a, b, rec);
    } else {
      RefusesAlike(site, now, a, b, rec, caller, r);
    }
  }

  lemma AlikeKeeps(site: Site, now: nat, a: Shelf, b: Shelf, rec: WorkspaceRecord, caller: Caller)
    requires Alike(a, b)
    ensures HeartbeatRewrite(site, now, Store(a, rec), caller) == HeartbeatRewrite(site, now, Store(b, rec), caller)
    ensures TakeOverRewrite(site, now, Store(a, rec), caller) == TakeOverRewrite(site, now, Store(b, rec), caller)
  {
    AlikeRenewed(site, now, a, b, rec, caller);
  }

  lemma AlikeDecidesLeases(site: Site, now: nat, a: Shelf, b: Shelf, rec: WorkspaceRecord, op: Op)
    requires Alike(a, b) && (op.OpBeginRewrite? || op.OpHeartbeatRewrite? || op.OpTakeOverRewrite?)
    ensures Decide(site, now, Store(a, rec), op) == Decide(site, now, Store(b, rec), op)
  {
    if op.OpBeginRewrite? {
      AlikeBegins(site, now, a, b, rec, op.caller, op.rewrite);
    } else {
      AlikeKeeps(site, now, a, b, rec, op.caller);
    }
  }

  lemma AlikeCommits(a: Shelf, b: Shelf, rec: WorkspaceRecord, caller: Caller, key: KeyId)
    requires Alike(a, b)
    ensures CommitRewrite(Store(a, rec), caller, key) == CommitRewrite(Store(b, rec), caller, key)
  {
    AlikeApplied(Nothing, a, b, rec);
    AlikeApplied(Switch, a, b, rec);
    assert a.Items(rec.generation) == b.Items(rec.generation);
    if rec.state.Rewriting? {
      assert a.Items(rec.state.session.stagedGeneration) == b.Items(rec.state.session.stagedGeneration);
    }
  }

  lemma AlikeDecidesEnds(site: Site, now: nat, a: Shelf, b: Shelf, rec: WorkspaceRecord, op: Op)
    requires Alike(a, b) && (op.OpCommitRewrite? || op.OpAbortRewrite? || op.OpOperatorAbort?)
    ensures Decide(site, now, Store(a, rec), op) == Decide(site, now, Store(b, rec), op)
  {
    if op.OpCommitRewrite? {
      AlikeCommits(a, b, rec, op.caller, op.newKeyId);
    } else {
      AlikeApplied(Nothing, a, b, rec);
      AlikeApplied(Change.EndAborted, a, b, rec);
    }
  }

  /** The rules look at a shelf only through what is alike. */
  lemma AlikeDecides(site: Site, now: nat, a: Shelf, b: Shelf, rec: WorkspaceRecord, op: Op)
    requires Alike(a, b)
    ensures Decide(site, now, Store(a, rec), op) == Decide(site, now, Store(b, rec), op)
  {
    if OnUploads(op) {
      AlikeDecidesUploads(site, now, a, b, rec, op);
    } else if op.OpEnableEncryption? || op.OpFreshStart? || op.OpReplaceHeader? {
      AlikeDecidesSeals(site, now, a, b, rec, op);
    } else if op.OpBeginRewrite? || op.OpHeartbeatRewrite? || op.OpTakeOverRewrite? {
      AlikeDecidesLeases(site, now, a, b, rec, op);
    } else {
      AlikeDecidesEnds(site, now, a, b, rec, op);
    }
  }

  // === runs of the world, step by step ===

  lemma NoEvents(site: Site, w: World)
    ensures Possible(site, w, []) && End(site, w, []) == w
  {
  }

  lemma Appended(site: Site, w: World, events: seq<Event>, e: Event)
    requires Possible(site, w, events) && Enabled(End(site, w, events), e)
    ensures Possible(site, w, events + [e]) && End(site, w, events + [e]) == Next(site, End(site, w, events), e)
  {
    One(site, End(site, w, events), e);
    RunInTwo(site, w, events, [e]);
  }

  lemma One(site: Site, w: World, e: Event)
    requires Enabled(w, e)
    ensures Possible(site, w, [e]) && End(site, w, [e]) == Next(site, w, e)
  {
    assert [e][1..] == [];
  }

  // === transactions ===

  /** A call that a decision makes parts from the shelf in memory nowhere: what
      is published is staged, and nothing is in its way. */
  lemma DecidedCallAgrees(site: Site, t: Tree, rec: WorkspaceRecord, now: nat, op: Op)
    requires NoHollow(t)
    ensures var change := Decide(site, now, Store(ShelfOf(t), rec), op).change;
      && (change.Publish? ==> change.upload in ShelfOf(t).staging)
      && match CallOf(change)
         case None => ShelfAfter(change, ShelfOf(t)) == ShelfOf(t)
         case Some(call) =>
           && !Diverges(ViewOf(t), call) && ViewReplies(ViewOf(t), call) == Replies(ShelfOf(t), call)
           && ShelfAfter(change, ShelfOf(t)) == LeftAs(site.sha256, ShelfOf(t), call)
  {
    var change := Decide(site, now, Store(ShelfOf(t), rec), op).change;
    DecisionsAreJustified(site, now, Store(ShelfOf(t), rec), op);
    JustifiedCallAgrees(site, t, rec, now, change);
  }

  lemma JustifiedCallAgrees(site: Site, t: Tree, rec: WorkspaceRecord, now: nat, change: Change)
    requires NoHollow(t) && Justified(site, now, Store(ShelfOf(t), rec), change)
    ensures change.Publish? ==> change.upload in ShelfOf(t).staging
    ensures match CallOf(change)
      case None => ShelfAfter(change, ShelfOf(t)) == ShelfOf(t)
      case Some(call) =>
        && !Diverges(ViewOf(t), call) && ViewReplies(ViewOf(t), call) == Replies(ShelfOf(t), call)
        && ShelfAfter(change, ShelfOf(t)) == LeftAs(site.sha256, ShelfOf(t), call)
  {
    TreesAreApart(t);
    if CallOf(change).Some? {
      assert (change.Publish? ==> !HollowAt(t, (change.generation, change.id)));
      DivergesExactly(site.sha256, ViewOf(t), CallOf(change).value);
    }
  }

  /** What a view becomes by a call that does not part from the shelf in memory. */
  lemma CallLeavesNoHollow(sha256: seq<byte> -> Digest, v: FsTrees.View, call: Call)
    requires v.hollow == iset{} && !(call.PublishItem? && call.upload in v.bare)
    ensures ViewLeft(sha256, v, call).hollow == iset{} && ViewLeft(sha256, v, call).bare <= v.bare
  {
  }

  lemma NothingHollow(t: Tree)
    ensures NoHollow(t) <==> ViewOf(t).hollow == iset{}
  {
    forall p ensures p in ViewOf(t).hollow <==> HollowAt(t, p) {
    }
  }

  /** The tree after a call, as the simulation needs it. */
  lemma CallMakes(site: Site, t: Tree, call: Call, bin: nat)
    requires Sound(site.sha256, t) && NoHollow(t) && !(call.PublishItem? && call.upload in Bare(t))
    ensures var s := Made(site, t, Some(call), bin);
      && Sound(site.sha256, s) && Opened(s) == s && NoHollow(s) && Bare(s) <= Bare(t)
      && Shows(s, ViewLeft(site.sha256, ViewOf(t), call))
  {
    var s := Made(site, t, Some(call), bin);
    EveryCallIsSafe(site.sha256, t, call, bin);
    OpenedSound(site.sha256, s);
    NothingHollow(t);
    CallLeavesNoHollow(site.sha256, ViewOf(t), call);
    NothingHollow(s);
  }

  // === transactions, simulated ===

  /** What a decision changes, by files and in memory. */
  lemma DecidesAlike(site: Site, f: FsWorld, w: World, op: Op)
    requires Sim(site, f, w) && f.up
    ensures Decide(site, f.now, StoreOf(f), op) == Decide(site, w.now, w.store, op)
    ensures var change := ChangeOf(site, f, op);
      && RecordAfter(change, ShelfOf(f.tree), f.rec) == RecordAfter(change, w.store.shelf, w.store.rec)
      && Asked(change, ShelfOf(f.tree), f.rec) == Asked(change, w.store.shelf, w.store.rec)
      && Alike(ShelfAfter(change, ShelfOf(f.tree)), ShelfAfter(change, w.store.shelf))
  {
    AlikeDecides(site, f.now, ShelfOf(f.tree), w.store.shelf, f.rec, op);
    AlikeRecords(ChangeOf(site, f, op), ShelfOf(f.tree), w.store.shelf, f.rec);
    AlikeShelves(ChangeOf(site, f, op), ShelfOf(f.tree), w.store.shelf);
  }

  lemma AlikeThen(a: Shelf, b: Shelf, c: Shelf)
    requires Alike(a, b) && Alike(b, c)
    ensures Alike(a, c)
  {
  }

  /** The tree after the shelf call of a decision. */
  lemma DecisionMakes(site: Site, f: FsWorld, w: World, op: Op, bin: nat)
    requires Sim(site, f, w) && f.up && Inv(site, w)
    ensures var change := ChangeOf(site, f, op); var t := Made(site, f.tree, CallOf(change), bin);
      && Sound(site.sha256, t) && Opened(t) == t && NoHollow(t) && Bare(t) <= Bare(f.tree)
      && Alike(ShelfOf(t), ShelfAfter(change, w.store.shelf))
  {
    var change := ChangeOf(site, f, op);
    var t := Made(site, f.tree, CallOf(change), bin);
    DecidesAlike(site, f, w, op);
    DecidedCallAgrees(site, f.tree, f.rec, f.now, op);
    if CallOf(change).Some? {
      TreesAreApart(f.tree);
      CallMakes(site, f.tree, CallOf(change).value, bin);
      DivergesExactly(site.sha256, ViewOf(f.tree), CallOf(change).value);
      AlikeThen(ShelfOf(t), ShelfAfter(change, ShelfOf(f.tree)), ShelfAfter(change, w.store.shelf));
    }
  }

  /** Who holds a ticket after a transaction held one before, or drew its id. */
  lemma TicketsAreOldOrDrawn(site: Site, now: nat, st: Store, op: Op)
    ensures var change := Decide(site, now, st, op).change;
      && RecordAfter(change, st.shelf, st.rec).tickets.Keys <= st.rec.tickets.Keys + Drawn(op)
      && ShelfAfter(change, st.shelf).staging.Keys <= st.shelf.staging.Keys + st.rec.tickets.Keys + Drawn(op)
  {
    DecisionsAreJustified(site, now, st, op);
    IssuesWhatItDrew(site, now, st, op);
  }

  lemma IssuesWhatItDrew(site: Site, now: nat, st: Store, op: Op)
    ensures var change := Decide(site, now, st, op).change;
      change.Issue? ==> op.OpBeginUpload? && change.upload == op.drawn
  {
  }

  lemma SweepsAtItsTime(site: Site, now: nat, st: Store, op: Op)
    ensures var change := Decide(site, now, st, op).change;
      (change.Sweep? || change.Reconcile?) ==>
        change.now == now
        && forall u <- RecordAfter(change, st.shelf, st.rec).tickets ::
             u in st.rec.tickets && st.rec.tickets[u].expiresAt > now
  {
    DecisionsAreJustified(site, now, st, op);
  }

  lemma TransactionPending(site: Site, f: FsWorld, w: World, op: Op, bin: nat)
    requires Sim(site, f, w) && FsEnabled(f, Transact(op, bin)) && Inv(site, w) && Enabled(w, Do(op))
    ensures var f', w' := FsNext(site, f, Transact(op, bin)), Next(site, w, Do(op));
      w'.pending <= f'.pending && OnlyBare(f', w')
  {
    var change := ChangeOf(site, f, op);
    var f', w' := FsNext(site, f, Transact(op, bin)), Next(site, w, Do(op));
    DecidesAlike(site, f, w, op);
    TicketsAreOldOrDrawn(site, w.now, w.store, op);
    SweepsAtItsTime(site, w.now, w.store, op);
    TreesAreApart(f.tree);
    forall c <- f'.pending | c !in w'.pending
      ensures c.RemoveStaging? && c.upload in f'.spent && c.upload !in f'.rec.tickets
        && c.upload !in w'.store.shelf.staging
    {
      if c in f.pending {
        assert c !in w.pending;
      } else {
        assert change.Sweep? || change.Reconcile?;
        assert c.RemoveStaging? && c.upload in BareAbandoned(f.tree, f.rec, change.now);
      }
    }
  }

  /** What a transaction leaves in the world, as far as the simulation looks. */
  lemma WorldAfterDo(site: Site, w: World, op: Op)
    requires Enabled(w, Do(op))
    ensures var change, next := Decide(site, w.now, w.store, op).change, Next(site, w, Do(op));
      && next.store == Store(ShelfAfter(change, w.store.shelf), RecordAfter(change, w.store.shelf, w.store.rec))
      && next.now == w.now && next.up == w.up && next.hist.spent == w.hist.spent + Drawn(op)
  {
    var change := Decide(site, w.now, w.store, op).change;
    HistorySpends(change, w.store.rec, Drawing(op, w.hist));
  }

  lemma HistorySpends(change: Change, rec: WorkspaceRecord, hist: History)
    ensures AfterRecord(change, rec, AfterShelfStep(change, hist)).spent == hist.spent
    ensures AfterShelfStep(change, hist).spent == hist.spent
  {
  }

  lemma TransactSimulates(site: Site, f: FsWorld, w: World, op: Op, bin: nat)
    requires Sim(site, f, w) && FsEnabled(f, Transact(op, bin)) && Inv(site, w)
    ensures Enabled(w, Do(op)) && Sim(site, FsNext(site, f, Transact(op, bin)), Next(site, w, Do(op)))
  {
    DecidesAlike(site, f, w, op);
    DecisionMakes(site, f, w, op, bin);
    assert op.OpBeginUpload? ==> op.drawn in Drawn(op);
    TransactionPending(site, f, w, op, bin);
    WorldAfterDo(site, w, op);
  }

  // === deaths inside a transaction, simulated ===

  /** What the first changes of a call leave, when the shelf is opened again. */
  ghost predicate LeftByDeath(site: Site, t: Tree, call: Call, s: Tree, left: FsTrees.View) {
    && Sound(site.sha256, Opened(s)) && NoHollow(s) && Bare(s) == left.bare
    && MayLeave(site.sha256, ViewOf(t), call, left) && Alike(ShelfOf(Opened(s)), left.shelf)
  }

  lemma CallDies(site: Site, t: Tree, call: Call, bin: nat, n: nat) returns (left: FsTrees.View)
    requires Sound(site.sha256, t) && NoHollow(t) && !(call.PublishItem? && call.upload in Bare(t))
    ensures LeftByDeath(site, t, call, MadeInPart(site, t, Some(call), bin, n), left)
  {
    var steps := CallSteps(site, t, Some(call), bin);
    var k := if n < |steps| then n else |steps|;
    var s := AfterAll(t, steps[..k]);
    assert steps[..|steps|] == steps;
    EveryCallIsSafe(site.sha256, t, call, bin);
    assert DeathIsSafe(site.sha256, t, call, s);
    left :| MayLeave(site.sha256, ViewOf(t), call, left) && Shows(Opened(s), left);
    NothingHollow(t);
    CallLeavesNoHollow(site.sha256, ViewOf(t), call);
    NothingHollow(Opened(s));
    assert forall p :: HollowAt(s, p) <==> HollowAt(Opened(s), p);
  }

  /** The process is gone, and the tree is as it was left. */
  ghost predicate DownWith(f: FsWorld, s: Tree, spent: set<UploadId>, next: FsWorld) {
    next == f.(tree := s, pending := {}, up := false, spent := spent)
  }

  /** A death that leaves the world's shelf as it is. */
  lemma StopSimulates(site: Site, f: FsWorld, w: World, s: Tree, spent: set<UploadId>, next: FsWorld)
    requires f.rec == w.store.rec && f.now == w.now && w.hist.spent <= spent
    requires Sound(site.sha256, Opened(s)) && NoHollow(s) && Bare(s) <= spent
      && Alike(ShelfOf(Opened(s)), w.store.shelf)
    requires DownWith(f, s, spent, next)
    ensures Enabled(w, Stop) && Sim(site, next, Next(site, w, Stop))
  {
  }

  lemma DieInsideSimulates(site: Site, f: FsWorld, w: World, op: Op, s: Tree, spent: set<UploadId>, next: FsWorld)
    requires f.rec == w.store.rec && f.now == w.now && w.hist.spent + Drawn(op) <= spent && Enabled(w, DieInside(op))
    requires Sound(site.sha256, Opened(s)) && NoHollow(s) && Bare(s) <= spent
    requires Alike(ShelfOf(Opened(s)), ShelfAfter(Decide(site, w.now, w.store, op).change, w.store.shelf))
    requires DownWith(f, s, spent, next)
    ensures Sim(site, next, Next(site, w, DieInside(op)))
  {
    HistorySpends(Decide(site, w.now, w.store, op).change, w.store.rec, Drawing(op, w.hist));
  }

  /** What may be bare after it: what was, or what was to be made. */
  lemma BareIsSpent(site: Site, f: FsWorld, w: World, op: Op, left: FsTrees.View)
    requires Sim(site, f, w) && f.up && Inv(site, w) && CallOf(ChangeOf(site, f, op)).Some? && NoHollow(f.tree)
    requires MayLeave(site.sha256, ViewOf(f.tree), CallOf(ChangeOf(site, f, op)).value, left)
    requires !(ChangeOf(site, f, op).Publish? && ChangeOf(site, f, op).upload in Bare(f.tree))
    ensures left.bare <= f.spent + Drawn(op)
  {
    var change := ChangeOf(site, f, op);
    var call := CallOf(change).value;
    DecisionsAreJustified(site, f.now, StoreOf(f), op);
    IssuesWhatItDrew(site, f.now, StoreOf(f), op);
    NothingHollow(f.tree);
    CallLeavesNoHollow(site.sha256, ViewOf(f.tree), call);
    if call.StageCreate? {
      assert call.upload in f.rec.tickets || call.upload in Drawn(op);
    }
  }

  lemma DieInCallSimulates(site: Site, f: FsWorld, w: World, op: Op, bin: nat, n: nat) returns (e: Event)
    requires Sim(site, f, w) && FsEnabled(f, DieInCall(op, bin, n)) && Inv(site, w)
    ensures e == Stop || e == DieInside(op)
    ensures Enabled(w, e) && Sim(site, FsNext(site, f, DieInCall(op, bin, n)), Next(site, w, e))
  {
    var change, next := ChangeOf(site, f, op), FsNext(site, f, DieInCall(op, bin, n));
    var spent := f.spent + Drawn(op);
    assert op.OpBeginUpload? ==> op.drawn in Drawn(op);
    DecidesAlike(site, f, w, op);
    DecidedCallAgrees(site, f.tree, f.rec, f.now, op);
    TreesAreApart(f.tree);
    if CallOf(change).None? {
      e := Stop;
      StopSimulates(site, f, w, f.tree, spent, next);
    } else {
      var call := CallOf(change).value;
      var left := CallDies(site, f.tree, call, bin, n);
      BareIsSpent(site, f, w, op, left);
      e := DeathInCall(site, f, w, op, MadeInPart(site, f.tree, Some(call), bin, n), left, next);
    }
  }

  lemma DeathInCall(site: Site, f: FsWorld, w: World, op: Op, s: Tree, left: FsTrees.View, next: FsWorld)
    returns (e: Event)
    requires f.rec == w.store.rec && f.now == w.now && Enabled(w, DieInside(op)) && w.hist.spent <= f.spent
    requires Alike(ShelfOf(f.tree), w.store.shelf) && Apart(ViewOf(f.tree))
    requires var change := Decide(site, w.now, w.store, op).change;
      && CallOf(change).Some? && LeftByDeath(site, f.tree, CallOf(change).value, s, left)
      && !Diverges(ViewOf(f.tree), CallOf(change).value)
      && ShelfAfter(change, ShelfOf(f.tree)) == LeftAs(site.sha256, ShelfOf(f.tree), CallOf(change).value)
      && Alike(ShelfAfter(change, ShelfOf(f.tree)), ShelfAfter(change, w.store.shelf))
    requires left.bare <= f.spent + Drawn(op) && DownWith(f, s, f.spent + Drawn(op), next)
    ensures (e == Stop || e == DieInside(op)) && Enabled(w, e) && Sim(site, next, Next(site, w, e))
  {
    var change := Decide(site, w.now, w.store, op).change;
    var call := CallOf(change).value;
    DivergesExactly(site.sha256, ViewOf(f.tree), call);
    if left == ViewLeft(site.sha256, ViewOf(f.tree), call) {
      e := DieInside(op);
      AlikeThen(ShelfOf(Opened(s)), left.shelf, ShelfAfter(change, w.store.shelf));
      DieInsideSimulates(site, f, w, op, s, f.spent + Drawn(op), next);
    } else {
      e := Stop;
      AlikeThen(ShelfOf(Opened(s)), left.shelf, w.store.shelf);
      StopSimulates(site, f, w, s, f.spent + Drawn(op), next);
    }
  }

  // === content, simulated ===

  /** Content goes only to the place of a live ticket, of the size announced there. */
  lemma SendsToTickets(site: Site, f: FsWorld, w: World, caller: Caller, upload: UploadId, chunks: seq<Chunk>)
    requires Sim(site, f, w) && Inv(site, w) && SendCall(site, f, caller, upload, chunks).Some?
    ensures upload in w.store.rec.tickets && upload in w.hist.issued
    ensures var request := w.hist.issued[upload].request;
      SendCall(site, f, caller, upload, chunks).value
      == StageWrite(upload, chunks, request.size, ChecksContent(site, request))
  {
  }

  /** The world with a place made, where there was none. */
  ghost function WithPlace(w: World, upload: UploadId): World {
    w.(store := Store(Create(w.store.shelf, upload), w.store.rec))
  }

  lemma PlaceIsThere(site: Site, w: World, upload: UploadId) returns (events: seq<Event>)
    requires w.up && upload in w.store.rec.tickets
    ensures Possible(site, w, events) && End(site, w, events) == WithPlace(w, upload)
    ensures forall e <- events :: Recovery.Quiet(e)
  {
    if upload in w.store.shelf.staging {
      events := [];
      assert WithPlace(w, upload) == w;
    } else {
      events := [Revive(upload)];
      One(site, w, Revive(upload));
    }
  }

  /** The shelf with another content in a place. */
  ghost function Replaced(shelf: Shelf, upload: UploadId, staged: Staged): Shelf {
    shelf.(staging := shelf.staging[upload := staged])
  }

  lemma AlikeReplaced(a: Shelf, b: Shelf, upload: UploadId, staged: Staged)
    requires Alike(a, b)
    ensures Alike(Replaced(a, upload, staged), Replaced(b, upload, staged))
    ensures Replaced(Create(b, upload), upload, staged) == Replaced(b, upload, staged)
  {
    assert forall h: nat :: a.Items(h) == b.Items(h) ==>
      Replaced(a, upload, staged).Items(h) == Replaced(b, upload, staged).Items(h);
  }

  lemma WrittenWhole(site: Site, shelf: Shelf, upload: UploadId, chunks: seq<Chunk>, announced: nat, hashed: bool)
    requires upload in shelf.staging
    ensures Written(site, shelf, upload, hashed, KeptOf(Arriving(chunks)(announced)))
            == Replaced(shelf, upload, LeftBy(site.sha256, chunks, announced, hashed))
  {
  }

  /** A transfer that takes effect, in the world. */
  lemma WriteInWorld(site: Site, w: World, upload: UploadId, chunks: seq<Chunk>) returns (events: seq<Event>)
    requires w.up && upload in w.store.rec.tickets && upload in w.hist.issued
    ensures Possible(site, w, events) && forall e <- events :: Recovery.Quiet(e)
    ensures var request := w.hist.issued[upload].request;
      var staged := LeftBy(site.sha256, chunks, request.size, ChecksContent(site, request));
      End(site, w, events) == w.(store := Store(Replaced(w.store.shelf, upload, staged), w.store.rec))
  {
    var request := w.hist.issued[upload].request;
    var kept := KeptOf(Arriving(chunks)(request.size));
    var places := PlaceIsThere(site, w, upload);
    WrittenWhole(site, Create(w.store.shelf, upload), upload, chunks, request.size, ChecksContent(site, request));
    Appended(site, w, places, Write(upload, kept));
    events := places + [Write(upload, kept)];
  }

  /** One that a death cuts short. */
  lemma DieWritingInWorld(site: Site, w: World, upload: UploadId, some: seq<byte>) returns (events: seq<Event>)
    requires w.up && upload in w.store.rec.tickets && upload in w.hist.issued
    requires |some| <= w.hist.issued[upload].request.size
    ensures Possible(site, w, events) && forall e <- events :: Recovery.Quiet(e)
    ensures End(site, w, events) ==
      w.(store := Store(Replaced(w.store.shelf, upload, Staged(some, None)), w.store.rec), pending := {}, up := false)
  {
    var places := PlaceIsThere(site, w, upload);
    Appended(site, w, places, DieWriting(upload, some));
    events := places + [DieWriting(upload, some)];
  }

  /** The tree of a running workspace changes, and a place of a ticket with it. */
  lemma PlaceChanges(site: Site, f: FsWorld, w: World, t: Tree, upload: UploadId, staged: Staged)
    requires Sim(site, f, w) && f.up && upload in f.rec.tickets
    requires Sound(site.sha256, t) && Opened(t) == t && NoHollow(t) && Bare(t) <= Bare(f.tree)
    requires Alike(ShelfOf(t), Replaced(w.store.shelf, upload, staged))
    ensures Sim(site, f.(tree := t), w.(store := Store(Replaced(w.store.shelf, upload, staged), w.store.rec)))
  {
  }

  lemma SendSimulates(site: Site, f: FsWorld, w: World, caller: Caller, upload: UploadId, chunks: seq<Chunk>)
    returns (events: seq<Event>)
    requires Sim(site, f, w) && f.up && Inv(site, w)
    ensures Possible(site, w, events) && forall e <- events :: Recovery.Quiet(e)
    ensures Sim(site, FsNext(site, f, Send(caller, upload, chunks)), End(site, w, events))
  {
    var call := SendCall(site, f, caller, upload, chunks);
    events := [];
    NoEvents(site, w);
    if call.Some? {
      var t := Made(site, f.tree, call, 0);
      SendsToTickets(site, f, w, caller, upload, chunks);
      CallMakes(site, f.tree, call.value, 0);
      TreesAreApart(f.tree);
      if upload in Bare(f.tree) || upload in ShelfOf(f.tree).staging {
        events := WriteInWorld(site, w, upload, chunks);
        var staged := LeftBy(site.sha256, chunks, call.value.announced, call.value.hashed);
        AlikeReplaced(ShelfOf(f.tree), w.store.shelf, upload, staged);
        AlikeThen(ShelfOf(t), Replaced(ShelfOf(f.tree), upload, staged), Replaced(w.store.shelf, upload, staged));
        PlaceChanges(site, f, w, t, upload, staged);
      } else {
        AlikeThen(ShelfOf(t), ShelfOf(f.tree), w.store.shelf);
      }
    }
  }

  lemma SomeIsAnnounced(site: Site, f: FsWorld, w: World, call: Call, some: seq<byte>)
    requires Sim(site, f, w) && f.up && Inv(site, w) && call.StageWrite? && IsSome(ViewOf(f.tree), call, some)
    requires call.upload in w.hist.issued && call.announced == w.hist.issued[call.upload].request.size
    ensures |some| <= call.announced
  {
    assert ShelfOf(f.tree).staging == w.store.shelf.staging;
  }

  /** A death of one transfer, whatever the change of the tree it comes after. */
  lemma DeathInSend(site: Site, f: FsWorld, w: World, call: Call, chunks: seq<Chunk>, s: Tree, left: FsTrees.View,
          next: FsWorld)
    returns (events: seq<Event>)
    requires Sim(site, f, w) && f.up && Inv(site, w) && call.StageWrite?
    requires call.upload in w.store.rec.tickets && call.upload in w.hist.issued
    requires var request := w.hist.issued[call.upload].request;
      call == StageWrite(call.upload, chunks, request.size, ChecksContent(site, request))
    requires LeftByDeath(site, f.tree, call, s, left) && DownWith(f, s, f.spent, next)
    ensures Possible(site, w, events) && forall e <- events :: Recovery.Quiet(e)
    ensures Sim(site, next, End(site, w, events))
  {
    var v, u := ViewOf(f.tree), call.upload;
    if left == v || left == ViewLeft(site.sha256, v, call) == v {
      events := [Stop];
      One(site, w, Stop);
      AlikeThen(ShelfOf(Opened(s)), left.shelf, w.store.shelf);
      StopSimulates(site, f, w, s, f.spent, next);
    } else if left == ViewLeft(site.sha256, v, call) {
      var staged := LeftBy(site.sha256, chunks, call.announced, call.hashed);
      var writes := WriteInWorld(site, w, u, chunks);
      var written := End(site, w, writes);
      Appended(site, w, writes, Stop);
      events := writes + [Stop];
      AlikeReplaced(ShelfOf(f.tree), w.store.shelf, u, staged);
      AlikeThen(ShelfOf(Opened(s)), Replaced(ShelfOf(f.tree), u, staged), written.store.shelf);
      StopSimulates(site, f, written, s, f.spent, next);
    } else {
      var some: seq<byte> :| IsSome(v, call, some) && left == WithContent(v, u, some);
      SomeIsAnnounced(site, f, w, call, some);
      events := DieWritingInWorld(site, w, u, some);
      AlikeReplaced(ShelfOf(f.tree), w.store.shelf, u, Staged(some, None));
      AlikeThen(ShelfOf(Opened(s)), Replaced(ShelfOf(f.tree), u, Staged(some, None)),
                Replaced(w.store.shelf, u, Staged(some, None)));
    }
  }

  lemma DieInSendSimulates(site: Site, f: FsWorld, w: World, caller: Caller, upload: UploadId, chunks: seq<Chunk>,
          n: nat)
    returns (events: seq<Event>)
    requires Sim(site, f, w) && f.up && Inv(site, w)
    ensures Possible(site, w, events) && forall e <- events :: Recovery.Quiet(e)
    ensures Sim(site, FsNext(site, f, DieInSend(caller, upload, chunks, n)), End(site, w, events))
  {
    var call, next := SendCall(site, f, caller, upload, chunks), FsNext(site, f, DieInSend(caller, upload, chunks, n));
    if call.None? {
      events := [Stop];
      One(site, w, Stop);
      StopSimulates(site, f, w, f.tree, f.spent, next);
    } else {
      SendsToTickets(site, f, w, caller, upload, chunks);
      var left := CallDies(site, f.tree, call.value, 0, n);
      events := DeathInSend(site, f, w, call.value, chunks, MadeInPart(site, f.tree, call, 0, n), left, next);
    }
  }

  // === clean-ups, simulated ===

  lemma CleanUpSimulates(site: Site, f: FsWorld, w: World, c: Cleanup, bin: nat) returns (events: seq<Event>)
    requires Sim(site, f, w) && c in f.pending
    ensures Possible(site, w, events) && forall e <- events :: Recovery.Cleaning(e)
    ensures Sim(site, FsNext(site, f, CleanUp(c, bin)), End(site, w, events))
  {
    var call := CleanUpCall(c);
    CallMakes(site, f.tree, call, bin);
    LeftAlike(site.sha256, ShelfOf(f.tree), w.store.shelf, call);
    if c in w.pending {
      events := [Clean(c)];
      One(site, w, Clean(c));
    } else {
      events := [];
      NoEvents(site, w);
      assert w.store.shelf.staging - {c.upload} == w.store.shelf.staging;
    }
  }

  /** What a clean-up that died leaves: all of it or nothing. */
  lemma CleanUpLeaves(site: Site, f: FsWorld, w: World, c: Cleanup, left: FsTrees.View)
    requires Sim(site, f, w) && f.up && c in f.pending && MayLeave(site.sha256, ViewOf(f.tree), CleanUpCall(c), left)
    ensures left.bare <= f.spent
    ensures Alike(left.shelf, w.store.shelf) || (c in w.pending && Alike(left.shelf, CleanedUp(c, w.store.shelf)))
  {
    var call := CleanUpCall(c);
    LeftAlike(site.sha256, ShelfOf(f.tree), w.store.shelf, call);
    assert c !in w.pending ==> w.store.shelf.staging - {c.upload} == w.store.shelf.staging;
  }

  lemma DieInCleanUpSimulates(site: Site, f: FsWorld, w: World, c: Cleanup, bin: nat, n: nat)
    returns (events: seq<Event>)
    requires Sim(site, f, w) && c in f.pending
    ensures Possible(site, w, events) && forall e <- events :: Recovery.Quiet(e)
    ensures Sim(site, FsNext(site, f, DieInCleanUp(c, bin, n)), End(site, w, events))
  {
    var call, next := CleanUpCall(c), FsNext(site, f, DieInCleanUp(c, bin, n));
    var s := MadeInPart(site, f.tree, Some(call), bin, n);
    var left := CallDies(site, f.tree, call, bin, n);
    CleanUpLeaves(site, f, w, c, left);
    if Alike(left.shelf, w.store.shelf) {
      events := [Stop];
      One(site, w, Stop);
      AlikeThen(ShelfOf(Opened(s)), left.shelf, w.store.shelf);
      StopSimulates(site, f, w, s, f.spent, next);
    } else {
      events := CleanAndStop(site, f, w, c, s, left, next);
    }
  }

  lemma CleanAndStop(site: Site, f: FsWorld, w: World, c: Cleanup, s: Tree, left: FsTrees.View, next: FsWorld)
    returns (events: seq<Event>)
    requires f.rec == w.store.rec && f.now == w.now && c in w.pending && w.hist.spent <= f.spent
    requires Sound(site.sha256, Opened(s)) && NoHollow(s) && Bare(s) <= f.spent && DownWith(f, s, f.spent, next)
    requires Alike(ShelfOf(Opened(s)), left.shelf) && Alike(left.shelf, CleanedUp(c, w.store.shelf))
    ensures Possible(site, w, events) && forall e <- events :: Recovery.Quiet(e)
    ensures Sim(site, next, End(site, w, events))
  {
    var cleaned := Next(site, w, Clean(c));
    One(site, w, Clean(c));
    Appended(site, w, [Clean(c)], Stop);
    events := [Clean(c)] + [Stop];
    AlikeThen(ShelfOf(Opened(s)), left.shelf, cleaned.store.shelf);
    StopSimulates(site, f, cleaned, s, f.spent, next);
  }

  lemma LeaveOutSimulates(site: Site, f: FsWorld, w: World, c: Cleanup) returns (events: seq<Event>)
    requires Sim(site, f, w) && c in f.pending
    ensures Possible(site, w, events) && forall e <- events :: Recovery.Quiet(e)
    ensures Sim(site, FsNext(site, f, LeaveOut(c)), End(site, w, events))
  {
    if c in w.pending {
      events := [Lose(c)];
      One(site, w, Lose(c));
    } else {
      events := [];
      NoEvents(site, w);
    }
  }

  lemma StartSimulates(site: Site, f: FsWorld, w: World)
    requires Sim(site, f, w) && !f.up && Inv(site, w)
    ensures Enabled(w, Open) && Sim(site, FsNext(site, f, Start), Next(site, w, Open))
  {
    var t := Opened(f.tree);
    AlikeRecords(Reconcile(f.now), ShelfOf(t), w.store.shelf, f.rec);
    OpenedSound(site.sha256, t);
    TreesAreApart(t);
    assert Bare(t) == Bare(f.tree);
    assert forall p :: HollowAt(t, p) <==> HollowAt(f.tree, p);
    HistorySpends(Reconcile(w.now), w.store.rec, w.hist);
  }

  lemma DieInStartSimulates(site: Site, f: FsWorld, w: World, left: Tree)
    requires Sim(site, f, w) && FsEnabled(f, DieInStart(left))
    ensures Sim(site, FsNext(site, f, DieInStart(left)), w)
  {
    OpeningIsFinished(f.tree, left);
    assert Bare(left) == Bare(f.tree);
    assert forall p :: HollowAt(left, p) <==> HollowAt(f.tree, p);
  }

  // === any step, any run ===

  predicate FsCleaning(e: FsEvent) { e.CleanUp? || e.Wait? }

  predicate FsQuiet(e: FsEvent) { !e.Transact? && !e.DieInCall? }

  /** What an event on files is in the world. */
  ghost predicate StandsFor(e: FsEvent, events: seq<Event>) {
    && (e.Transact? ==> events == [Do(e.op)])
    && (e.DieInCall? ==> events == [Stop] || events == [DieInside(e.op)])
    && (e.Start? ==> events == [Open])
    && (FsQuiet(e) ==> forall x <- events :: Recovery.Quiet(x))
    && (FsCleaning(e) ==> forall x <- events :: Recovery.Cleaning(x))
  }

  lemma TransactionSimulates(site: Site, f: FsWorld, w: World, e: FsEvent) returns (one: Event)
    requires Sim(site, f, w) && FsEnabled(f, e) && Inv(site, w) && !FsQuiet(e)
    ensures one == Do(e.op) || (e.DieInCall? && one in {Stop, DieInside(e.op)})
    ensures e.Transact? ==> one == Do(e.op)
    ensures Enabled(w, one) && Sim(site, FsNext(site, f, e), Next(site, w, one))
  {
    if e.Transact? {
      TransactSimulates(site, f, w, e.op, e.bin);
      one := Do(e.op);
    } else {
      one := DieInCallSimulates(site, f, w, e.op, e.bin, e.changes);
    }
  }

  lemma ProcessSimulates(site: Site, f: FsWorld, w: World, e: FsEvent) returns (one: Event)
    requires Sim(site, f, w) && FsEnabled(f, e) && Inv(site, w) && (e.Halt? || e.Start? || e.Wait?)
    ensures one == if e.Halt? then Stop else if e.Start? then Open else Tick(e.seconds)
    ensures Enabled(w, one) && Sim(site, FsNext(site, f, e), Next(site, w, one))
  {
    if e.Halt? {
      StopSimulates(site, f, w, f.tree, f.spent, FsNext(site, f, Halt));
      one := Stop;
    } else if e.Start? {
      StartSimulates(site, f, w);
      one := Open;
    } else {
      one := Tick(e.seconds);
    }
  }

  /** Content, clean-ups and openings that die. */
  lemma ShelfStepSimulates(site: Site, f: FsWorld, w: World, e: FsEvent) returns (events: seq<Event>)
    requires Sim(site, f, w) && FsEnabled(f, e) && Inv(site, w) && FsQuiet(e) && !(e.Halt? || e.Start? || e.Wait?)
    ensures Possible(site, w, events) && Sim(site, FsNext(site, f, e), End(site, w, events))
    ensures forall x <- events :: Recovery.Quiet(x) && (e.CleanUp? ==> Recovery.Cleaning(x))
  {
    match e
    case Send(caller, upload, chunks) => events := SendSimulates(site, f, w, caller, upload, chunks);
    case DieInSend(caller, upload, chunks, n) => events := DieInSendSimulates(site, f, w, caller, upload, chunks, n);
    case CleanUp(c, bin) => events := CleanUpSimulates(site, f, w, c, bin);
    case DieInCleanUp(c, bin, n) => events := DieInCleanUpSimulates(site, f, w, c, bin, n);
    case LeaveOut(c) => events := LeaveOutSimulates(site, f, w, c);
    case DieInStart(left) =>
      DieInStartSimulates(site, f, w, left);
      NoEvents(site, w);
      events := [];
  }

  /** Any event on files is some events of the world. */
  lemma StepSimulates(site: Site, f: FsWorld, w: World, e: FsEvent) returns (events: seq<Event>)
    requires Sim(site, f, w) && FsEnabled(f, e) && Inv(site, w)
    ensures Possible(site, w, events) && Sim(site, FsNext(site, f, e), End(site, w, events)) && StandsFor(e, events)
  {
    if !FsQuiet(e) {
      var one := TransactionSimulates(site, f, w, e);
      One(site, w, one);
      events := [one];
    } else if e.Halt? || e.Start? || e.Wait? {
      var one := ProcessSimulates(site, f, w, e);
      One(site, w, one);
      events := [one];
    } else {
      events := ShelfStepSimulates(site, f, w, e);
    }
  }

  ghost predicate FsPossible(site: Site, f: FsWorld, es: seq<FsEvent>)
    decreases |es|
  {
    es == [] || (FsEnabled(f, es[0]) && FsPossible(site, FsNext(site, f, es[0]), es[1..]))
  }

  ghost function FsEnd(site: Site, f: FsWorld, es: seq<FsEvent>): FsWorld
    decreases |es|
  {
    if es == [] then f else FsEnd(site, FsNext(site, f, es[0]), es[1..])
  }

  /** A new workspace on an empty directory, before it is first opened. */
  predicate FsInitial(f: FsWorld) {
    f.tree == NO_TREE && f.rec == NEW_RECORD && f.pending == {} && !f.up && f.spent == {}
  }

  ghost predicate FsReachable(site: Site, f: FsWorld) {
    exists start: FsWorld, es: seq<FsEvent> ::
      FsInitial(start) && FsPossible(site, start, es) && FsEnd(site, start, es) == f
  }

  /** Any run on files is a run of the world. */
  lemma {:induction false} RunSimulates(site: Site, f: FsWorld, w: World, es: seq<FsEvent>) returns (events: seq<Event>)
    requires Sim(site, f, w) && Inv(site, w) && FsPossible(site, f, es)
    ensures Possible(site, w, events) && Inv(site, End(site, w, events))
      && Sim(site, FsEnd(site, f, es), End(site, w, events))
    ensures (forall e <- es :: FsQuiet(e)) ==> forall x <- events :: Recovery.Quiet(x)
    ensures (forall e <- es :: FsCleaning(e)) ==> forall x <- events :: Recovery.Cleaning(x)
    decreases |es|
  {
    if es == [] {
      events := [];
      NoEvents(site, w);
    } else {
      var first := StepSimulates(site, f, w, es[0]);
      var next := End(site, w, first);
      RunKeepsInv(site, w, first);
      var rest := RunSimulates(site, FsNext(site, f, es[0]), next, es[1..]);
      RunInTwo(site, w, first, rest);
      events := first + rest;
    }
  }

  lemma NewIsSimulated(site: Site, f: FsWorld) returns (w: World)
    requires FsInitial(f)
    ensures Initial(w) && Sim(site, f, w)
  {
    w := World(Store(EMPTY_SHELF, NEW_RECORD), f.now, {}, false, NO_HISTORY);
  }

  /** The files decide on the same change, and answer alike; the answer of a
      sweep counts what is bare besides. */
  ghost predicate ActsAs(site: Site, f: FsWorld, w: World, op: Op) {
    && ChangeOf(site, f, op) == Decide(site, w.now, w.store, op).change
    && AnswerOfFiles(site, f, op) ==
         if op.OpCleanStaging?
         then Swept(|Abandoned(w.store.shelf, w.store.rec, w.now)| + |BareAbandoned(f.tree, f.rec, f.now)|)
         else Decide(site, w.now, w.store, op).answer
  }

  lemma FilesActAs(site: Site, f: FsWorld, w: World, op: Op)
    requires Sim(site, f, w) && f.up
    ensures ActsAs(site, f, w, op)
  {
    AlikeDecides(site, f.now, ShelfOf(f.tree), w.store.shelf, f.rec, op);
  }

  /** The main result: whatever a workspace on files went through, some run of
      the world, whose shelf is the one in memory, went through it alike, and
      does every operation as the files do. */
  lemma FilesRefineMemory(site: Site, f: FsWorld) returns (w: World)
    requires FsReachable(site, f)
    ensures Reachable(site, w) && Inv(site, w) && Sim(site, f, w)
    ensures f.up ==> forall op: Op :: ActsAs(site, f, w, op)
  {
    var start, es :| FsInitial(start) && FsPossible(site, start, es) && FsEnd(site, start, es) == f;
    var begun := NewIsSimulated(site, start);
    InitialHasInv(site, begun);
    var events := RunSimulates(site, start, begun, es);
    w := End(site, begun, events);
    if f.up {
      forall op: Op ensures ActsAs(site, f, w, op) {
        FilesActAs(site, f, w, op);
      }
    }
  }

  // === what holds of every workspace on files ===

  lemma AlikeIsSafe(site: Site, a: Shelf, b: Shelf, rec: WorkspaceRecord)
    requires Alike(a, b)
    ensures KeysOk(Store(b, rec)) ==> KeysOk(Store(a, rec))
    ensures Deduplicated(b) ==> Deduplicated(a)
    ensures AllHonest(site, b) ==> AllHonest(site, a)
    ensures BooksOk(Store(b, rec)) ==> BooksOk(Store(a, rec))
    ensures Recovery.Repaired(Store(b, rec)) ==> Recovery.Repaired(Store(a, rec))
    ensures Recovery.PartitionsOf(Store(a, rec)) == Recovery.PartitionsOf(Store(b, rec))
  {
    forall g: nat | g in a.generations
      ensures a.generations[g] == map[] || (g in b.generations && b.generations[g] == a.generations[g])
    {
      assert a.Items(g) == b.Items(g);
    }
  }

  /** No directory is ever in the way of an item; and in a running workspace
      keys, content keys, plaintext and books are right on files as well. */
  lemma FilesAreSafe(site: Site, f: FsWorld)
    requires FsReachable(site, f)
    ensures NoHollow(f.tree)
    ensures f.up ==> var st := StoreOf(f);
      KeysOk(st) && Deduplicated(st.shelf) && AllHonest(site, st.shelf) && BooksOk(st)
  {
    var w := FilesRefineMemory(site, f);
    AlikeIsSafe(site, ShelfOf(Opened(f.tree)), w.store.shelf, f.rec);
  }

  // === recovery on files ===

  lemma {:induction false} FsRunInTwo(site: Site, f: FsWorld, first: seq<FsEvent>, rest: seq<FsEvent>)
    ensures FsPossible(site, f, first + rest) <==>
      FsPossible(site, f, first) && FsPossible(site, FsEnd(site, f, first), rest)
    ensures FsEnd(site, f, first + rest) == FsEnd(site, FsEnd(site, f, first), rest)
    decreases |first|
  {
    if first == [] {
      assert first + rest == rest;
    } else {
      assert (first + rest)[0] == first[0] && (first + rest)[1..] == first[1..] + rest;
      FsRunInTwo(site, FsNext(site, f, first[0]), first[1..], rest);
    }
  }

  lemma FsOne(site: Site, f: FsWorld, e: FsEvent)
    ensures FsPossible(site, f, [e]) <==> FsEnabled(f, e)
    ensures FsEnd(site, f, [e]) == FsNext(site, f, e)
  {
    assert [e][1..] == [];
  }

  /** The process is up, and every bare place is some ticket's or to be removed. */
  ghost predicate BareIsPending(f: FsWorld) {
    f.up && forall u <- Bare(f.tree) :: u in f.rec.tickets || RemoveStaging(u) in f.pending
  }

  lemma StartFindsBare(site: Site, f: FsWorld)
    ensures BareIsPending(FsNext(site, f, Start))
  {
    var next := FsNext(site, f, Start);
    forall u <- Bare(next.tree) | u !in next.rec.tickets ensures RemoveStaging(u) in next.pending {
      assert u in BareAbandoned(next.tree, f.rec, f.now);
    }
  }

  lemma CleaningKeepsBarePending(site: Site, f: FsWorld, w: World, e: FsEvent)
    requires Sim(site, f, w) && BareIsPending(f) && FsEnabled(f, e) && FsCleaning(e)
    ensures BareIsPending(FsNext(site, f, e))
  {
    if e.CleanUp? {
      CallMakes(site, f.tree, CleanUpCall(e.cleanup), e.bin);
    }
  }

  lemma {:induction false} CleaningLeavesNoBare(site: Site, f: FsWorld, w: World, es: seq<FsEvent>)
    requires Sim(site, f, w) && Inv(site, w) && BareIsPending(f) && FsPossible(site, f, es)
    requires forall e <- es :: FsCleaning(e)
    ensures BareIsPending(FsEnd(site, f, es))
    decreases |es|
  {
    if es != [] {
      var events := StepSimulates(site, f, w, es[0]);
      RunKeepsInv(site, w, events);
      CleaningKeepsBarePending(site, f, w, es[0]);
      CleaningLeavesNoBare(site, FsNext(site, f, es[0]), End(site, w, events), es[1..]);
    }
  }

  lemma FirstSimulates(site: Site, f: FsWorld, w: World, first: FsEvent) returns (one: Event)
    requires Sim(site, f, w) && Inv(site, w) && FsPossible(site, f, [first])
    requires first.Halt? || first.Transact? || first.DieInCall?
    ensures one == Stop || (!first.Halt? && one in {Do(first.op), DieInside(first.op)})
    ensures Possible(site, w, [one]) && Inv(site, End(site, w, [one]))
    ensures Sim(site, FsEnd(site, f, [first]), End(site, w, [one]))
  {
    FsOne(site, f, first);
    if first.Halt? {
      one := ProcessSimulates(site, f, w, first);
    } else {
      one := TransactionSimulates(site, f, w, first);
    }
    One(site, w, one);
    NextKeepsInv(site, w, one);
  }

  lemma StartAndCleaningSimulate(site: Site, f: FsWorld, w: World, cleans: seq<FsEvent>) returns (cleaning: seq<Event>)
    requires Sim(site, f, w) && Inv(site, w) && FsPossible(site, f, [Start] + cleans)
    requires forall e <- cleans :: FsCleaning(e)
    ensures Possible(site, w, [Open] + cleaning) && forall e <- cleaning :: Recovery.Cleaning(e)
    ensures Sim(site, FsEnd(site, f, [Start] + cleans), End(site, w, [Open] + cleaning))
    ensures BareIsPending(FsEnd(site, f, [Start] + cleans))
  {
    FsRunInTwo(site, f, [Start], cleans);
    FsOne(site, f, Start);
    StartSimulates(site, f, w);
    StartFindsBare(site, f);
    One(site, w, Open);
    NextKeepsInv(site, w, Open);
    var started, begun := FsNext(site, f, Start), Next(site, w, Open);
    cleaning := RunSimulates(site, started, begun, cleans);
    CleaningLeavesNoBare(site, started, begun, cleans);
    RunInTwo(site, w, [Open], cleaning);
  }

  lemma FsInParts(site: Site, f: FsWorld, first: FsEvent, between: seq<FsEvent>, cleans: seq<FsEvent>)
    requires FsPossible(site, f, [first] + between + [Start] + cleans)
    ensures FsPossible(site, f, [first])
    ensures var f1 := FsEnd(site, f, [first]); var f2 := FsEnd(site, f1, between);
      && FsPossible(site, f1, between) && FsPossible(site, f2, [Start] + cleans)
      && FsEnd(site, f, [first] + between + [Start] + cleans) == FsEnd(site, f2, [Start] + cleans)
  {
    assert [first] + between + [Start] + cleans == [first] + (between + ([Start] + cleans));
    FsRunInTwo(site, f, [first], between + ([Start] + cleans));
    FsRunInTwo(site, FsEnd(site, f, [first]), between, [Start] + cleans);
  }

  lemma InThree(site: Site, w: World, first: seq<Event>, second: seq<Event>, third: seq<Event>)
    requires Possible(site, w, first) && Possible(site, End(site, w, first), second)
    requires Possible(site, End(site, End(site, w, first), second), third)
    ensures Possible(site, w, first + second + third)
    ensures End(site, w, first + second + third) == End(site, End(site, End(site, w, first), second), third)
  {
    RunInTwo(site, w, first, second);
    RunInTwo(site, w, first + second, third);
  }

  lemma OfParts(site: Site, w: World, one: Event, quiet: seq<Event>, cleaning: seq<Event>)
    requires Possible(site, w, [one]) && Possible(site, End(site, w, [one]), quiet)
    requires Possible(site, End(site, End(site, w, [one]), quiet), [Open] + cleaning)
    ensures Possible(site, w, [one] + quiet + [Open] + cleaning)
    ensures End(site, w, [one] + quiet + [Open] + cleaning)
            == End(site, End(site, End(site, w, [one]), quiet), [Open] + cleaning)
  {
    var last := [Open] + cleaning;
    InThree(site, w, [one], quiet, last);
    assert [one] + quiet + [Open] + cleaning == [one] + quiet + last;
  }

  /** The events of the world that stand for a death, what comes of it, a last
      start and its clean-ups. */
  lemma RecoverySimulates(site: Site, f: FsWorld, w: World, first: FsEvent, between: seq<FsEvent>, cleans: seq<FsEvent>)
    returns (one: Event, quiet: seq<Event>, cleaning: seq<Event>)
    requires Sim(site, f, w) && Inv(site, w) && (first.Halt? || first.Transact? || first.DieInCall?)
    requires (forall e <- between :: FsQuiet(e)) && (forall e <- cleans :: FsCleaning(e))
    requires FsPossible(site, f, [first] + between + [Start] + cleans)
    ensures one == Stop || (!first.Halt? && one in {Do(first.op), DieInside(first.op)})
    ensures (forall e <- quiet :: Recovery.Quiet(e)) && (forall e <- cleaning :: Recovery.Cleaning(e))
    ensures var events := [one] + quiet + [Open] + cleaning;
      Possible(site, w, events) && Sim(site, FsEnd(site, f, [first] + between + [Start] + cleans), End(site, w, events))
    ensures BareIsPending(FsEnd(site, f, [first] + between + [Start] + cleans))
  {
    FsInParts(site, f, first, between, cleans);
    one := FirstSimulates(site, f, w, first);
    var f1, w1 := FsEnd(site, f, [first]), End(site, w, [one]);
    quiet := RunSimulates(site, f1, w1, between);
    cleaning := StartAndCleaningSimulate(site, FsEnd(site, f1, between), End(site, w1, quiet), cleans);
    OfParts(site, w, one, quiet, cleaning);
  }

  lemma PartitionsAlike(site: Site, f: FsWorld, w: World, op: Op)
    requires Sim(site, f, w) && f.up && Enabled(w, Do(op))
    ensures Recovery.PartitionsOf(StoreOf(f)) == Recovery.PartitionsOf(w.store)
    ensures Recovery.PartitionsOf(Apply(ChangeOf(site, f, op), StoreOf(f)))
            == Recovery.PartitionsOf(Next(site, w, Do(op)).store)
  {
    var change := ChangeOf(site, f, op);
    DecidesAlike(site, f, w, op);
    WorldAfterDo(site, w, op);
    AlikeIsSafe(site, ShelfOf(f.tree), w.store.shelf, f.rec);
    AlikeIsSafe(site, ShelfAfter(change, ShelfOf(f.tree)), ShelfAfter(change, w.store.shelf),
                RecordAfter(change, ShelfOf(f.tree), f.rec));
  }

  /** A death between any two changes of the tree, or none, then any further
      deaths, transfers and restarts, and a last start with its clean-ups: the
      books are those of the files, every directory under `staging/` is some
      ticket's, no item is left that nothing points to, and readers see what
      they saw before the operation or what they would have seen after it. */
  lemma FilesRecover(site: Site, f: FsWorld, op: Op, first: FsEvent, between: seq<FsEvent>, cleans: seq<FsEvent>)
    requires FsReachable(site, f) && f.up && Drawn(op) !! f.spent
    requires first.Halt? || ((first.Transact? || first.DieInCall?) && first.op == op)
    requires (forall e <- between :: FsQuiet(e)) && (forall e <- cleans :: FsCleaning(e))
    requires FsPossible(site, f, [first] + between + [Start] + cleans)
    requires FsEnd(site, f, [first] + between + [Start] + cleans).pending == {}
    ensures var end := FsEnd(site, f, [first] + between + [Start] + cleans);
      var was, now := Recovery.PartitionsOf(StoreOf(f)), Recovery.PartitionsOf(StoreOf(end));
      && Recovery.Repaired(StoreOf(end)) && end.tree.places.Keys <= end.rec.tickets.Keys
      && (now == was || now == Recovery.PartitionsOf(Apply(ChangeOf(site, f, op), StoreOf(f))))
  {
    var w := FilesRefineMemory(site, f);
    assert op.OpBeginUpload? ==> op.drawn in Drawn(op);
    PartitionsAlike(site, f, w, op);
    var one, quiet, cleaning := RecoverySimulates(site, f, w, first, between, cleans);
    Recovery.CrashRecovery(site, w, op, one, quiet, cleaning);
    RecoveredAlike(site, FsEnd(site, f, [first] + between + [Start] + cleans),
                   End(site, w, [one] + quiet + [Open] + cleaning));
  }

  lemma RecoveredAlike(site: Site, f: FsWorld, w: World)
    requires Sim(site, f, w) && f.pending == {} && BareIsPending(f) && Recovery.Repaired(w.store)
    ensures Recovery.Repaired(StoreOf(f)) && f.tree.places.Keys <= f.rec.tickets.Keys
    ensures Recovery.PartitionsOf(StoreOf(f)) == Recovery.PartitionsOf(w.store)
  {
    AlikeIsSafe(site, ShelfOf(f.tree), w.store.shelf, f.rec);
    forall u <- f.tree.places ensures u in f.rec.tickets {
      assert u in Bare(f.tree) || u in ShelfOf(f.tree).staging;
    }
  }
}
