/** What every operation, of whatever caller, can change, and under which
    conditions: the only facts about the decisions that the invariants need. */
module Changes {
  import opened Wrappers
  import opened Ids
  import opened Stores
  import opened Protocol

  /** `generation` is where uploads like `request` are published now. */
  predicate Targets(rec: WorkspaceRecord, request: UploadRequest, generation: nat) {
    if request.inRewrite then
      rec.state.Rewriting? && request.expectedKeyId == Some(rec.state.session.next.keyId)
      && generation == rec.state.session.stagedGeneration
    else
      rec.state.Settled? && rec.SealKey() == request.expectedKeyId && generation == rec.generation
  }

  ghost predicate MayIssue(site: Site, now: nat, st: Store, upload: UploadId, ticket: Ticket) {
    var request := ticket.request;
    && LiveTicketsFor(st.rec, now, ticket.owner, request) == {}
    && ticket.expiresAt == now + site.limits.stagingSecs
    && (site.limits.maxItemBytes.Some? ==> request.size <= site.limits.maxItemBytes.value)
    && exists generation :: Targets(st.rec, request, generation) && HasRoom(site, now, st.rec, generation, request)
  }

  ghost predicate HasRoom(site: Site, now: nat, rec: WorkspaceRecord, generation: nat, request: UploadRequest) {
    SaturatingAdd(Held(rec, now, generation, request.inRewrite), request.size) <= site.limits.quotaBytes
  }

  predicate Finishes(site: Site, now: nat, st: Store, upload: UploadId, stone: Tombstone) {
    && upload in st.rec.tickets
    && IsLive(st.rec.tickets[upload], now)
    && stone.owner == st.rec.tickets[upload].owner
    && stone.outcome.staged == st.rec.tickets[upload].request.inRewrite
    && stone.expiresAt == now + site.limits.stagingSecs
  }

  predicate MayPublish(site: Site, now: nat, st: Store, upload: UploadId, generation: nat, id: ItemId,
          envelope: Envelope, size: nat, stone: Tombstone)
  {
    && Finishes(site, now, st, upload, stone)
    && upload in st.shelf.staging
    && var request := st.rec.tickets[upload].request;
    && Targets(st.rec, request, generation)
    && id == request.id == stone.outcome.id && stone.outcome.created
    && size == request.size == |st.shelf.staging[upload].content|
    && envelope == Envelope(request.meta, request.expectedKeyId, now)
    && (ChecksContent(site, request) ==> Honest(site, st.shelf, upload, request))
    && WithKey(st.shelf.Items(generation), id.ContentKey()) == {}
  }

  predicate MayRepair(site: Site, now: nat, st: Store, upload: UploadId, generation: nat, stone: Tombstone) {
    && Finishes(site, now, st, upload, stone)
    && var request := st.rec.tickets[upload].request;
    && Targets(st.rec, request, generation)
    && LooksPublished(st.shelf, upload, generation, request)
    && stone.outcome.id == request.id && stone.outcome.created
  }

  predicate MayOpen(rec: WorkspaceRecord, session: Session) {
    && rec.state.Settled?
    && session.prior == rec.state.seal
    && (session.kind.Migrate? <==> session.prior.None?)
    && session.next.keyId !in rec.endedRewrites
    && rec.SealKey() != Some(session.next.keyId)
    && session.stagedGeneration == rec.nextGeneration
  }

  /** The conditions under which a change is ever made. */
  ghost predicate Justified(site: Site, now: nat, st: Store, change: Change) {
    match change
    case Nothing => true
    case GiveUp(uploads) => uploads <= st.rec.tickets.Keys
    case Restage(upload) => upload in st.rec.tickets
    case Issue(upload, ticket) => MayIssue(site, now, st, upload, ticket)
    case Publish(upload, generation, id, envelope, size, stone) =>
      MayPublish(site, now, st, upload, generation, id, envelope, size, stone)
    case Finish(upload, stone) =>
      Finishes(site, now, st, upload, stone) && !stone.outcome.created
    case Repair(upload, generation, stone) => MayRepair(site, now, st, upload, generation, stone)
    case Remove(generation, id) =>
      st.rec.state.Settled? && (generation == st.rec.generation || Some(generation) == st.rec.plain)
      && id in st.shelf.Items(generation)
    case Settle(seal) =>
      st.rec.state.Settled? &&
      (st.rec.SealKey() == Some(seal.keyId)
       || (st.rec.state.seal.None? && st.shelf.Items(st.rec.generation) == map[]))
    case SetAside(_) =>
      st.rec.state == Settled(None) && st.shelf.Items(st.rec.generation) != map[]
    case OpenSession(session) => MayOpen(st.rec, session)
    case Renew(_, lease) => st.rec.state.Rewriting? && lease == now + site.limits.leaseSecs
    case Switch =>
      st.rec.state.Rewriting?
      && |st.shelf.Items(st.rec.state.session.stagedGeneration)| == |st.shelf.Items(st.rec.generation)|
    case EndAborted => st.rec.state.Rewriting?
    case Sweep(at) => at == now
    case Reconcile(at) => at == now
  }

  lemma TargetsWhatItTargets(rec: WorkspaceRecord, caller: Caller, request: UploadRequest)
    ensures UploadTarget(rec, caller, request).Ok? ==> Targets(rec, request, UploadTarget(rec, caller, request).value)
  {
  }

  lemma BeginIsJustified(site: Site, now: nat, st: Store, caller: Caller, request: UploadRequest, drawn: UploadId)
    ensures Justified(site, now, st, BeginUpload(site, now, st, caller, request, drawn).change)
  {
    TargetsWhatItTargets(st.rec, caller, request);
    var change := BeginUpload(site, now, st, caller, request, drawn).change;
    if change.Issue? {
      var generation := UploadTarget(st.rec, caller, request).value;
      assert HasRoom(site, now, st.rec, generation, request);
    }
  }

  lemma CommitIsJustified(site: Site, now: nat, st: Store, caller: Caller, upload: UploadId)
    ensures Justified(site, now, st, CommitUpload(site, now, st, caller, upload).change)
  {
    if LiveTicket(st.rec, now, caller, upload).Some? {
      TargetsWhatItTargets(st.rec, caller, st.rec.tickets[upload].request);
    }
  }

  /** No operation makes a change outside its conditions. */
  lemma DecisionsAreJustified(site: Site, now: nat, st: Store, op: Op)
    ensures Justified(site, now, st, Decide(site, now, st, op).change)
  {
    match op
    case OpBeginUpload(caller, request, drawn) => BeginIsJustified(site, now, st, caller, request, drawn);
    case OpCommitUpload(caller, upload) => CommitIsJustified(site, now, st, caller, upload);
    case _ =>
  }

  predicate ByReader(op: Op) {
    match op
    case OpOperatorAbort(_) => false
    case OpCleanStaging => false
    case OpReconcile => false
    case _ => op.caller.role == ReadOnly
  }

  /** A key that may only read changes nothing, but for uploads of its own,
      and it is given none. */
  lemma ReadersAreRefused(site: Site, now: nat, st: Store, op: Op)
    requires ByReader(op)
    ensures op.OpCommitUpload? || op.OpAbortUpload? || Decide(site, now, st, op) == Refusal(ForbiddenRole)
    ensures (forall u <- st.rec.tickets :: st.rec.tickets[u].owner != op.caller.key) ==>
      Decide(site, now, st, op).change == Nothing
  {
  }
}
