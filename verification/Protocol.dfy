/** The rules as decisions: what each operation, given both stores, changes
    and answers. A decision names its change; `Apply` is what the change does
    to the stores, its shelf step first and its record second, and `Asked`
    which destructive steps it leaves for after the commit. The imperative
    rules in `Rules` are proved to do exactly this. */
module Protocol {
  import opened Wrappers
  import opened Ids
  import opened Sums
  import opened Stores

  // === answers ===

  datatype SessionView = SessionView(
    kind: RewriteKind, holder: ApiKeyId, leaseExpiresAt: nat, newKeyId: KeyId,
    newHeader: seq<byte>, stagedIds: seq<ItemId>, sourceItems: nat)

  datatype EncryptionState = Plaintext | Sealed | InRewrite

  datatype EncryptionView = EncryptionView(
    state: EncryptionState, keyId: Option<KeyId>, header: Option<seq<byte>>,
    rewrite: Option<SessionView>)

  datatype Answer =
    | Refused(error: ApiError)
    | Begun(upload: UploadId, expiresAt: nat)
    | Finished(outcome: PutOutcome)
    | Removed(item: StoredItem)
    | Encryption(view: EncryptionView)
    | SessionOpen(session: SessionView)
    | Swept(places: nat)
    | Done

  function ViewSession(st: Store): Option<SessionView> {
    match st.rec.state
    case Settled(_) => None
    case Rewriting(s) => Some(SessionView(
      s.kind, s.holder, s.leaseExpiresAt, s.next.keyId, s.next.header,
      NewestFirst(st.shelf.Items(s.stagedGeneration).Keys),
      |st.shelf.Items(st.rec.generation)|))
  }

  function View(st: Store): EncryptionView {
    var seal := st.rec.Seal();
    EncryptionView(
      if st.rec.state.Rewriting? then InRewrite else if seal.Some? then Sealed else Plaintext,
      if seal.Some? then Some(seal.value.keyId) else None,
      if seal.Some? then Some(seal.value.header) else None,
      ViewSession(st))
  }

  function AnswerSession(st: Store): Answer {
    match ViewSession(st)
    case Some(view) => SessionOpen(view)
    case None => Refused(NotFound)
  }

  // === changes ===

  datatype Change =
    | Nothing
    /** Tickets that are given up; their staging places go. */
    | GiveUp(uploads: set<UploadId>)
    /** The staging place of a ticket that exists is made again. */
    | Restage(upload: UploadId)
    | Issue(upload: UploadId, ticket: Ticket)
    /** A staged upload becomes an item, and its outcome is recorded. */
    | Publish(upload: UploadId, generation: nat, id: ItemId, envelope: Envelope, size: nat, stone: Tombstone)
    /** An outcome is recorded without a publish: the content was there. */
    | Finish(upload: UploadId, stone: Tombstone)
    /** An outcome is recorded for a publish that never was. */
    | Repair(upload: UploadId, generation: nat, stone: Tombstone)
    | Remove(generation: nat, id: ItemId)
    | Settle(seal: Seal)
    | SetAside(seal: Seal)
    | OpenSession(session: Session)
    | Renew(holder: ApiKeyId, leaseExpiresAt: nat)
    | Switch
    | EndAborted
    | Sweep(now: nat)
    | Reconcile(now: nat)

  datatype Decision = Decision(change: Change, answer: Answer)

  function Refusal(error: ApiError): Decision { Decision(Nothing, Refused(error)) }

  /** The one shelf step a change takes, inside the transaction. */
  function ShelfAfter(change: Change, shelf: Shelf): Shelf {
    match change
    case Restage(upload) => Create(shelf, upload)
    case Issue(upload, _) => Create(shelf, upload)
    case Publish(upload, generation, id, envelope, _, _) => Published(shelf, upload, generation, id, envelope)
    case Remove(generation, id) =>
      shelf.(generations := shelf.generations[generation := shelf.Items(generation) - {id}])
    case _ => shelf
  }

  function Create(shelf: Shelf, upload: UploadId): Shelf {
    if upload in shelf.staging then shelf
    else shelf.(staging := shelf.staging[upload := EMPTY_PLACE])
  }

  /** The shelf never replaces an item: a second publish of an id changes nothing. */
  function Published(shelf: Shelf, upload: UploadId, generation: nat, id: ItemId, envelope: Envelope): Shelf {
    if upload !in shelf.staging || id in shelf.Items(generation) then shelf
    else
      var item := Item(shelf.staging[upload].content, envelope);
      Shelf(shelf.staging - {upload},
            shelf.generations[generation := shelf.Items(generation)[id := item]])
  }

  function Finishing(rec: WorkspaceRecord, upload: UploadId, stone: Tombstone): WorkspaceRecord {
    rec.(tickets := rec.tickets - {upload}, tombstones := rec.tombstones[upload := stone])
  }

  function WithoutRewriteTickets(tickets: map<UploadId, Ticket>): map<UploadId, Ticket> {
    map u | u in tickets && !tickets[u].request.inRewrite :: tickets[u]
  }

  function RewriteTickets(tickets: map<UploadId, Ticket>): set<UploadId> {
    set u | u in tickets && tickets[u].request.inRewrite
  }

  function Unexpired(rec: WorkspaceRecord, now: nat): WorkspaceRecord {
    rec.(tickets := map u | u in rec.tickets && rec.tickets[u].expiresAt > now :: rec.tickets[u],
         tombstones := map u | u in rec.tombstones && rec.tombstones[u].expiresAt > now :: rec.tombstones[u])
  }

  /** Generations on the shelf that hold items and that nothing points to. */
  function Orphans(shelf: Shelf, rec: WorkspaceRecord): set<nat> {
    set g | g in shelf.generations && shelf.generations[g] != map[] && g !in rec.Live()
  }

  function SweptRecord(shelf: Shelf, rec: WorkspaceRecord, now: nat): WorkspaceRecord {
    Unexpired(rec, now).(used := rec.used - Orphans(shelf, rec))
  }

  /** The books as the shelf has them. */
  ghost function Recounted(shelf: Shelf, rec: WorkspaceRecord): WorkspaceRecord {
    rec.(used := map g | g in rec.used.Keys + rec.Live() :: if g in rec.Live() then shelf.Bytes(g) else rec.used[g])
  }

  /** The record as a change leaves it. `shelf` is the shelf before. */
  ghost function RecordAfter(change: Change, shelf: Shelf, rec: WorkspaceRecord): WorkspaceRecord {
    match change
    case Nothing => rec
    case GiveUp(uploads) => rec.(tickets := rec.tickets - uploads)
    case Restage(_) => rec
    case Issue(upload, ticket) => rec.(tickets := rec.tickets[upload := ticket])
    case Publish(upload, generation, _, _, size, stone) =>
      Finishing(rec, upload, stone).(used := rec.used[generation := rec.UsedOf(generation) + size])
    case Finish(upload, stone) => Finishing(rec, upload, stone)
    case Repair(upload, generation, stone) =>
      Finishing(rec, upload, stone).(used := rec.used[generation := shelf.Bytes(generation)])
    case Remove(generation, id) =>
      var size := if id in shelf.Items(generation) then |shelf.Items(generation)[id].content| else 0;
      rec.(used := rec.used[generation := SaturatingSub(rec.UsedOf(generation), size)])
    case Settle(seal) => rec.(state := Settled(Some(seal)))
    case SetAside(seal) =>
      rec.(state := Settled(Some(seal)), plain := Some(rec.generation),
           generation := rec.nextGeneration, nextGeneration := rec.nextGeneration + 1)
    case OpenSession(session) =>
      rec.(state := Rewriting(session), nextGeneration := rec.nextGeneration + 1)
    case Renew(holder, lease) =>
      if rec.state.Settled? then rec
      else rec.(state := Rewriting(rec.state.session.(holder := holder, leaseExpiresAt := lease)))
    case Switch =>
      if rec.state.Settled? then rec
      else rec.(state := Settled(Some(rec.state.session.next)),
                generation := rec.state.session.stagedGeneration,
                used := rec.used - {rec.generation},
                tickets := WithoutRewriteTickets(rec.tickets))
    case EndAborted =>
      if rec.state.Settled? then rec
      else rec.(state := Settled(rec.state.session.prior),
                used := rec.used - {rec.state.session.stagedGeneration},
                tickets := WithoutRewriteTickets(rec.tickets),
                endedRewrites := rec.endedRewrites + {rec.state.session.next.keyId})
    case Sweep(now) => SweptRecord(shelf, rec, now)
    case Reconcile(now) => SweptRecord(shelf, Recounted(shelf, rec), now)
  }

  function RemoveAll(uploads: set<UploadId>): set<Cleanup> {
    set u | u in uploads :: RemoveStaging(u)
  }

  /** Staging places whose upload has no unexpired ticket. */
  function Abandoned(shelf: Shelf, rec: WorkspaceRecord, now: nat): set<UploadId> {
    set u | u in shelf.staging && !(u in rec.tickets && rec.tickets[u].expiresAt > now)
  }

  /** The destructive steps a change asks for. */
  function Asked(change: Change, shelf: Shelf, rec: WorkspaceRecord): set<Cleanup> {
    match change
    case GiveUp(uploads) => RemoveAll(uploads)
    case Publish(upload, _, _, _, _, _) => {RemoveStaging(upload)}
    case Finish(upload, _) => {RemoveStaging(upload)}
    case Repair(upload, _, _) => {RemoveStaging(upload)}
    case Switch => {DropGeneration(rec.generation)} + RemoveAll(RewriteTickets(rec.tickets))
    case EndAborted =>
      if rec.state.Settled? then {}
      else {DropGeneration(rec.state.session.stagedGeneration)} + RemoveAll(RewriteTickets(rec.tickets))
    case Sweep(now) => AskedBySweep(shelf, rec, now)
    case Reconcile(now) => AskedBySweep(shelf, rec, now)
    case _ => {}
  }

  function AskedBySweep(shelf: Shelf, rec: WorkspaceRecord, now: nat): set<Cleanup> {
    RemoveAll(Abandoned(shelf, rec, now)) + (set g | g in Orphans(shelf, rec) :: DropGeneration(g))
  }

  ghost function Apply(change: Change, st: Store): Store {
    Store(ShelfAfter(change, st.shelf), RecordAfter(change, st.shelf, st.rec))
  }

  /** A destructive step taken. */
  function CleanedUp(c: Cleanup, shelf: Shelf): Shelf {
    match c
    case DropGeneration(g) => shelf.(generations := shelf.generations - {g})
    case RemoveStaging(u) => shelf.(staging := shelf.staging - {u})
  }

  // === looking things up ===

  function WithKey(items: map<ItemId, Item>, key: string): set<ItemId> {
    set id | id in items && id.ContentKey() == key
  }

  /** The oldest item of some generation with a content key. */
  function FindIn(items: map<ItemId, Item>, key: string): Option<ItemId> {
    if WithKey(items, key) == {} then None else Some(Oldest(WithKey(items, key)))
  }

  predicate IsLive(ticket: Ticket, now: nat) { ticket.expiresAt > now }

  function LiveTicket(rec: WorkspaceRecord, now: nat, caller: Caller, upload: UploadId): Option<Ticket> {
    if upload in rec.tickets && rec.tickets[upload].owner == caller.key && IsLive(rec.tickets[upload], now)
    then Some(rec.tickets[upload]) else None
  }

  function Remembered(rec: WorkspaceRecord, now: nat, caller: Caller, upload: UploadId): Option<PutOutcome> {
    if upload in rec.tombstones && rec.tombstones[upload].owner == caller.key && rec.tombstones[upload].expiresAt > now
    then Some(rec.tombstones[upload].outcome) else None
  }

  predicate Answers(ticket: Ticket, owner: ApiKeyId, request: UploadRequest) {
    ticket.owner == owner && ticket.request == request
  }

  function TicketsFor(rec: WorkspaceRecord, owner: ApiKeyId, request: UploadRequest): set<UploadId> {
    set u | u in rec.tickets && Answers(rec.tickets[u], owner, request)
  }

  function LiveTicketsFor(rec: WorkspaceRecord, now: nat, owner: ApiKeyId, request: UploadRequest): set<UploadId> {
    set u | u in rec.tickets && Answers(rec.tickets[u], owner, request) && IsLive(rec.tickets[u], now)
  }

  function Promised(tickets: map<UploadId, Ticket>, now: nat, inRewrite: bool): map<UploadId, nat> {
    map u | u in tickets && IsLive(tickets[u], now) && tickets[u].request.inRewrite == inRewrite
      :: tickets[u].request.size
  }

  /** The sizes of live uploads, added up, of one of the two sorts. */
  ghost function Reserved(tickets: map<UploadId, Ticket>, now: nat, inRewrite: bool): nat {
    Sum(Promised(tickets, now, inRewrite))
  }

  /** Bytes on the books for every generation the workspace points to. */
  function UsedBytes(rec: WorkspaceRecord): nat {
    rec.UsedOf(rec.generation)
    + (if rec.plain.Some? then rec.UsedOf(rec.plain.value) else 0)
    + (if rec.state.Rewriting? then rec.UsedOf(rec.state.session.stagedGeneration) else 0)
  }

  function StagedBytes(rec: WorkspaceRecord): nat {
    if rec.state.Rewriting? then rec.UsedOf(rec.state.session.stagedGeneration) else 0
  }

  /** What the quota is compared with before a request's own size is added. */
  ghost function Held(rec: WorkspaceRecord, now: nat, generation: nat, inRewrite: bool): nat {
    if inRewrite then SaturatingAdd(rec.UsedOf(generation), Reserved(rec.tickets, now, true))
    else SaturatingAdd(UsedBytes(rec) - StagedBytes(rec), Reserved(rec.tickets, now, false))
  }

  function CheckWritable(rec: WorkspaceRecord, expected: Option<KeyId>): Result<(), ApiError> {
    match rec.state
    case Rewriting(_) => Err(RewriteInProgress)
    case Settled(_) => if rec.SealKey() == expected then Ok(()) else Err(KeyIdMismatch)
  }

  function HeldSession(rec: WorkspaceRecord, caller: Caller): Result<Session, ApiError> {
    match rec.state
    case Settled(_) => Err(NotFound)
    case Rewriting(s) => if s.holder != caller.key then Err(LeaseHeld) else Ok(s)
  }

  /** The generation an upload goes to, if it may go anywhere. */
  function UploadTarget(rec: WorkspaceRecord, caller: Caller, request: UploadRequest): Result<nat, ApiError> {
    if request.inRewrite then
      match HeldSession(rec, caller)
      case Err(e) => Err(e)
      case Ok(s) => if request.expectedKeyId != Some(s.next.keyId) then Err(KeyIdMismatch) else Ok(s.stagedGeneration)
    else
      match CheckWritable(rec, request.expectedKeyId)
      case Err(e) => Err(e)
      case Ok(_) => Ok(rec.generation)
  }

  function GenerationOf(rec: WorkspaceRecord, partition: Partition): Option<nat> {
    match partition
    case Current => Some(rec.generation)
    case Plain => rec.plain
  }

  // === uploads ===

  ghost function BeginUpload(site: Site, now: nat, st: Store, caller: Caller, request: UploadRequest,
          drawn: UploadId): Decision
  {
    if caller.role == ReadOnly then Refusal(ForbiddenRole)
    else match UploadTarget(st.rec, caller, request)
      case Err(e) => Refusal(e)
      case Ok(generation) =>
        var live := LiveTicketsFor(st.rec, now, caller.key, request);
        var found := FindIn(st.shelf.Items(generation), request.id.ContentKey());
        if site.limits.maxItemBytes.Some? && request.size > site.limits.maxItemBytes.value then Refusal(ItemTooLarge)
        else if found.Some? then
          Decision(GiveUp(TicketsFor(st.rec, caller.key, request)),
                   Finished(PutOutcome(found.value, false, request.inRewrite)))
        else if live != {} then
          var upload :| upload in live;
          Decision(Restage(upload), Begun(upload, st.rec.tickets[upload].expiresAt))
        else if
          SaturatingAdd(Held(st.rec, now, generation, request.inRewrite), request.size) > site.limits.quotaBytes
        then
          Refusal(QuotaExceeded)
        else
          var ticket := Ticket(caller.key, request, now + site.limits.stagingSecs);
          Decision(Issue(drawn, ticket), Begun(drawn, ticket.expiresAt))
  }

  predicate ChecksContent(site: Site, request: UploadRequest) {
    site.limits.checkPlaintextContent && request.expectedKeyId.None?
  }

  /** Whether a plaintext upload is what its `meta` and its id say. */
  predicate Honest(site: Site, shelf: Shelf, upload: UploadId, request: UploadRequest) {
    var said := site.said(request.meta);
    said.Some? && upload in shelf.staging && shelf.staging[upload].digest.Some? &&
    var sha := Hex(shelf.staging[upload].digest.value);
    said.value.sha256 == Some(sha) && said.value.size == Some(request.size)
    && request.id.ContentKey() == sha[..12]
  }

  function Outcome(site: Site, now: nat, ticket: Ticket, id: ItemId, created: bool): Tombstone {
    Tombstone(ticket.owner, PutOutcome(id, created, ticket.request.inRewrite), now + site.limits.stagingSecs)
  }

  /** No staging place, but in the target an item with this id and this size. */
  predicate LooksPublished(shelf: Shelf, upload: UploadId, generation: nat, request: UploadRequest) {
    upload !in shelf.staging
    && request.id in shelf.Items(generation)
    && |shelf.Items(generation)[request.id].content| == request.size
  }

  function CommitUpload(site: Site, now: nat, st: Store, caller: Caller, upload: UploadId): Decision {
    var remembered := Remembered(st.rec, now, caller, upload);
    var live := LiveTicket(st.rec, now, caller, upload);
    if remembered.Some? then Decision(Nothing, Finished(remembered.value))
    else if live.None? then Refusal(NotFound)
    else
      var request := live.value.request;
      match UploadTarget(st.rec, caller, request)
      case Err(e) => Refusal(e)
      case Ok(generation) =>
        if LooksPublished(st.shelf, upload, generation, request) then
          var stone := Outcome(site, now, live.value, request.id, true);
          Decision(Repair(upload, generation, stone), Finished(stone.outcome))
        else if !(upload in st.shelf.staging && |st.shelf.staging[upload].content| == request.size) then
          Refusal(ContentMismatch)
        else if ChecksContent(site, request) && !Honest(site, st.shelf, upload, request) then
          Refusal(ContentMismatch)
        else
          match FindIn(st.shelf.Items(generation), request.id.ContentKey())
          case Some(id) =>
            var stone := Outcome(site, now, live.value, id, false);
            Decision(Finish(upload, stone), Finished(stone.outcome))
          case None =>
            var stone := Outcome(site, now, live.value, request.id, true);
            var envelope := Envelope(request.meta, request.expectedKeyId, now);
            Decision(Publish(upload, generation, request.id, envelope, request.size, stone), Finished(stone.outcome))
  }

  /** Content sent to an upload replaces what was there; a transfer that broke
      off leaves the place empty; without a staging place there is no effect. */
  ghost function Written(site: Site, shelf: Shelf, upload: UploadId, hashed: bool, content: Option<seq<byte>>): Shelf {
    if upload !in shelf.staging then shelf
    else
      var place := match content
        case Some(bytes) => Staged(bytes, if hashed then Some(site.sha256(bytes)) else None)
        case None => EMPTY_PLACE;
      shelf.(staging := shelf.staging[upload := place])
  }

  /** What comes of a transfer that may be so many bytes long. */
  datatype Sent = Whole(content: seq<byte>) | TooLong | BrokenOff

  /** What is kept of it. */
  function KeptOf(sent: Sent): Option<seq<byte>> {
    if sent.Whole? then Some(sent.content) else None
  }

  /** Content sent to an upload, outside any transaction: the answer, and the
      shelf as it is left. `sent` tells what arrives, by the size announced. */
  ghost function Put(site: Site, now: nat, st: Store, caller: Caller, upload: UploadId, sent: nat -> Sent)
    : (Result<(), ApiError>, Shelf)
  {
    var live := LiveTicket(st.rec, now, caller, upload);
    if Remembered(st.rec, now, caller, upload).Some? then (Ok(()), st.shelf)
    else if live.None? || upload !in st.shelf.staging then (Err(NotFound), st.shelf)
    else
      var request := live.value.request;
      var came := sent(request.size);
      var answer := match came
        case Whole(_) => Ok(())
        case TooLong => Err(ContentMismatch)
        case BrokenOff => Err(InvalidRequest);
      (answer, Written(site, st.shelf, upload, ChecksContent(site, request), KeptOf(came)))
  }

  function AbortUpload(st: Store, caller: Caller, upload: UploadId): Decision {
    if upload in st.rec.tickets && st.rec.tickets[upload].owner == caller.key
    then Decision(GiveUp({upload}), Done) else Decision(Nothing, Done)
  }

  function CleanStaging(now: nat, st: Store): Decision {
    Decision(Sweep(now), Swept(|Abandoned(st.shelf, st.rec, now)|))
  }

  // === items and settled encryption ===

  function DeleteItem(st: Store, caller: Caller, partition: Partition, id: ItemId, expected: Option<KeyId>): Decision {
    if caller.role == ReadOnly then Refusal(ForbiddenRole)
    else match CheckWritable(st.rec, expected)
      case Err(e) => Refusal(e)
      case Ok(_) =>
        var generation := GenerationOf(st.rec, partition);
        if generation.None? || id !in st.shelf.Items(generation.value) then Refusal(NotFound)
        else Decision(Remove(generation.value, id), Removed(AsStored(st.shelf.Items(generation.value)[id])))
  }

  /** `Ok(true)` for a replay, `Ok(false)` for a plaintext workspace. */
  function MaySettle(rec: WorkspaceRecord, caller: Caller, keyId: KeyId): Result<bool, ApiError> {
    if caller.role == ReadOnly then Err(ForbiddenRole)
    else match rec.state
      case Rewriting(_) => Err(RewriteInProgress)
      case Settled(Some(seal)) => if seal.keyId == keyId then Ok(true) else Err(KeyIdMismatch)
      case Settled(None) => Ok(false)
  }

  ghost function Changed(change: Change, st: Store): Decision {
    Decision(change, Encryption(View(Apply(change, st))))
  }

  ghost function EnableEncryption(st: Store, caller: Caller, seal: Seal): Decision {
    match MaySettle(st.rec, caller, seal.keyId)
    case Err(e) => Refusal(e)
    case Ok(replay) =>
      if replay then Changed(Nothing, st)
      else if st.shelf.Items(st.rec.generation) != map[] then Refusal(InvalidRequest)
      else Changed(Settle(seal), st)
  }

  ghost function FreshStart(st: Store, caller: Caller, seal: Seal): Decision {
    match MaySettle(st.rec, caller, seal.keyId)
    case Err(e) => Refusal(e)
    case Ok(replay) =>
      if replay then Changed(Nothing, st)
      else if st.shelf.Items(st.rec.generation) != map[] then Changed(SetAside(seal), st)
      else Changed(Settle(seal), st)
  }

  ghost function ReplaceHeader(st: Store, caller: Caller, seal: Seal): Decision {
    if caller.role == ReadOnly then Refusal(ForbiddenRole)
    else match st.rec.state
      case Rewriting(_) => Refusal(RewriteInProgress)
      case Settled(None) => Refusal(InvalidRequest)
      case Settled(Some(current)) =>
        if current.keyId != seal.keyId then Refusal(KeyIdMismatch) else Changed(Settle(seal), st)
  }

  // === the rewrite session ===

  datatype RewriteRequest = RewriteRequest(
    kind: RewriteKind, expectedKeyId: Option<KeyId>, newKeyId: KeyId, newHeader: seq<byte>)

  ghost function Renewed(site: Site, now: nat, st: Store, caller: Caller): Decision {
    var change := Renew(caller.key, now + site.limits.leaseSecs);
    Decision(change, AnswerSession(Apply(change, st)))
  }

  ghost function BeginRewrite(site: Site, now: nat, st: Store, caller: Caller, r: RewriteRequest): Decision {
    if caller.role == ReadOnly then Refusal(ForbiddenRole)
    else match st.rec.state
      case Rewriting(s) =>
        if s.holder == caller.key && s.kind == r.kind && s.next.keyId == r.newKeyId
        then Renewed(site, now, st, caller) else Refusal(RewriteInProgress)
      case Settled(prior) =>
        if r.kind.Migrate? != prior.None? then Refusal(InvalidRequest)
        else if r.newKeyId in st.rec.endedRewrites then Refusal(RewriteEnded)
        else if st.rec.SealKey() != r.expectedKeyId then Refusal(KeyIdMismatch)
        else if st.rec.SealKey() == Some(r.newKeyId) then Refusal(InvalidRequest)
        else
          var change := OpenSession(Session(
            r.kind, prior, Seal(r.newKeyId, r.newHeader), caller.key,
            now + site.limits.leaseSecs, st.rec.nextGeneration));
          Decision(change, AnswerSession(Apply(change, st)))
  }

  ghost function HeartbeatRewrite(site: Site, now: nat, st: Store, caller: Caller): Decision {
    if caller.role == ReadOnly then Refusal(ForbiddenRole)
    else match HeldSession(st.rec, caller)
      case Err(e) => Refusal(e)
      case Ok(_) => Renewed(site, now, st, caller)
  }

  ghost function TakeOverRewrite(site: Site, now: nat, st: Store, caller: Caller): Decision {
    if caller.role == ReadOnly then Refusal(ForbiddenRole)
    else match st.rec.state
      case Settled(_) => Refusal(NotFound)
      case Rewriting(s) =>
        if s.holder != caller.key && s.leaseExpiresAt > now then Refusal(LeaseHeld)
        else Renewed(site, now, st, caller)
  }

  /** Staged items are read by the holder alone. */
  function StagedItemIds(st: Store, caller: Caller): Result<seq<ItemId>, ApiError> {
    match HeldSession(st.rec, caller)
    case Err(e) => Err(e)
    case Ok(s) => Ok(NewestFirst(st.shelf.Items(s.stagedGeneration).Keys))
  }

  function StagedItem(st: Store, caller: Caller, id: ItemId): Result<Item, ApiError> {
    match HeldSession(st.rec, caller)
    case Err(e) => Err(e)
    case Ok(s) =>
      var items := st.shelf.Items(s.stagedGeneration);
      if id in items then Ok(items[id]) else Err(NotFound)
  }

  ghost function CommitRewrite(st: Store, caller: Caller, newKeyId: KeyId): Decision {
    if caller.role == ReadOnly then Refusal(ForbiddenRole)
    else match st.rec.state
      case Settled(_) => if st.rec.SealKey() == Some(newKeyId) then Changed(Nothing, st) else Refusal(NotFound)
      case Rewriting(s) =>
        var staged, source := |st.shelf.Items(s.stagedGeneration)|, |st.shelf.Items(st.rec.generation)|;
        if s.holder != caller.key then Refusal(LeaseHeld)
        else if s.next.keyId != newKeyId then Refusal(KeyIdMismatch)
        else if staged != source then Refusal(RewriteIncomplete(staged, source))
        else Changed(Switch, st)
  }

  ghost function AbortRewrite(st: Store, caller: Caller, newKeyId: KeyId): Decision {
    if caller.role == ReadOnly then Refusal(ForbiddenRole)
    else match st.rec.state
      case Settled(_) => Changed(Nothing, st)
      case Rewriting(s) =>
        if s.holder != caller.key then Refusal(LeaseHeld)
        else if s.next.keyId != newKeyId then Refusal(KeyIdMismatch)
        else Changed(EndAborted, st)
  }

  ghost function OperatorAbort(now: nat, st: Store, force: bool): Decision {
    match st.rec.state
    case Settled(_) => Refusal(NotFound)
    case Rewriting(s) => if !force && s.leaseExpiresAt > now then Refusal(LeaseHeld) else Changed(EndAborted, st)
  }

  // === every operation ===

  datatype Op =
    | OpBeginUpload(caller: Caller, request: UploadRequest, drawn: UploadId)
    | OpCommitUpload(caller: Caller, upload: UploadId)
    | OpAbortUpload(caller: Caller, upload: UploadId)
    | OpDeleteItem(caller: Caller, partition: Partition, id: ItemId, expected: Option<KeyId>)
    | OpEnableEncryption(caller: Caller, seal: Seal)
    | OpFreshStart(caller: Caller, seal: Seal)
    | OpReplaceHeader(caller: Caller, seal: Seal)
    | OpBeginRewrite(caller: Caller, rewrite: RewriteRequest)
    | OpHeartbeatRewrite(caller: Caller)
    | OpTakeOverRewrite(caller: Caller)
    | OpCommitRewrite(caller: Caller, newKeyId: KeyId)
    | OpAbortRewrite(caller: Caller, newKeyId: KeyId)
    | OpOperatorAbort(force: bool)
    | OpCleanStaging
    | OpReconcile

  ghost function Decide(site: Site, now: nat, st: Store, op: Op): Decision {
    match op
    case OpBeginUpload(caller, request, drawn) => BeginUpload(site, now, st, caller, request, drawn)
    case OpCommitUpload(caller, upload) => CommitUpload(site, now, st, caller, upload)
    case OpAbortUpload(caller, upload) => AbortUpload(st, caller, upload)
    case OpDeleteItem(caller, partition, id, expected) => DeleteItem(st, caller, partition, id, expected)
    case OpEnableEncryption(caller, seal) => EnableEncryption(st, caller, seal)
    case OpFreshStart(caller, seal) => FreshStart(st, caller, seal)
    case OpReplaceHeader(caller, seal) => ReplaceHeader(st, caller, seal)
    case OpBeginRewrite(caller, rewrite) => BeginRewrite(site, now, st, caller, rewrite)
    case OpHeartbeatRewrite(caller) => HeartbeatRewrite(site, now, st, caller)
    case OpTakeOverRewrite(caller) => TakeOverRewrite(site, now, st, caller)
    case OpCommitRewrite(caller, newKeyId) => CommitRewrite(st, caller, newKeyId)
    case OpAbortRewrite(caller, newKeyId) => AbortRewrite(st, caller, newKeyId)
    case OpOperatorAbort(force) => OperatorAbort(now, st, force)
    case OpCleanStaging => CleanStaging(now, st)
    case OpReconcile => Decision(Reconcile(now), Done)
  }
}
