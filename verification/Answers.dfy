/** The requests on uploads, items and settled encryption: exactly when each is
    answered what, and what it leaves of the stores, in terms of the record and
    the shelf. */
module Answers {
  import opened Wrappers
  import opened Ids
  import opened Sums
  import opened Stores
  import opened Protocol
  import opened Changes
  import opened World
  import opened Invariants
  import opened Preservation
  import opened Runs
  import opened MemoryShelves
  import opened Shown
  import Quota

  // === where an upload goes ===

  /** The generation an upload of the caller is published in now. */
  predicate GoesTo(rec: WorkspaceRecord, caller: Caller, request: UploadRequest, generation: nat) {
    match rec.state
    case Settled(seal) =>
      !request.inRewrite && request.expectedKeyId == KeyIn(seal) && generation == rec.generation
    case Rewriting(session) =>
      && request.inRewrite && session.holder == caller.key && request.expectedKeyId == Some(session.next.keyId)
      && generation == session.stagedGeneration
  }

  /** Why it goes nowhere. */
  predicate GoesNowhere(rec: WorkspaceRecord, caller: Caller, request: UploadRequest, error: ApiError) {
    match rec.state
    case Settled(seal) =>
      if request.inRewrite then error == NotFound
      else request.expectedKeyId != KeyIn(seal) && error == KeyIdMismatch
    case Rewriting(session) =>
      if !request.inRewrite then error == RewriteInProgress
      else if session.holder != caller.key then error == LeaseHeld
      else request.expectedKeyId != Some(session.next.keyId) && error == KeyIdMismatch
  }

  lemma TargetExactly(rec: WorkspaceRecord, caller: Caller, request: UploadRequest)
    ensures forall g: nat :: UploadTarget(rec, caller, request) == Ok(g) <==> GoesTo(rec, caller, request, g)
    ensures forall e: ApiError :: UploadTarget(rec, caller, request) == Err(e) <==> GoesNowhere(rec, caller, request, e)
  {
  }

  /** An item with the content key is there. */
  ghost predicate HasContent(items: map<ItemId, Item>, key: string) {
    exists id <- items :: id.ContentKey() == key
  }

  /** The oldest of the items with the content key. */
  ghost predicate IsOldestOf(items: map<ItemId, Item>, key: string, id: ItemId) {
    && id in items && id.ContentKey() == key
    && forall other <- items :: other.ContentKey() == key ==> other == id || Older(id, other)
  }

  lemma FoundExactly(items: map<ItemId, Item>, key: string)
    ensures FindIn(items, key).Some? <==> HasContent(items, key)
    ensures FindIn(items, key).Some? ==> IsOldestOf(items, key, FindIn(items, key).value)
  {
    var found := WithKey(items, key);
    if id :| id in items && id.ContentKey() == key {
      assert id in found;
    }
    if found != {} {
      assert forall other <- items :: other.ContentKey() == key ==> other in found;
      assert IsOldest(Oldest(found), found);
    }
  }

  // === beginning an upload ===

  predicate SameRequest(ticket: Ticket, caller: Caller, request: UploadRequest) {
    ticket.owner == caller.key && ticket.request == request
  }

  /** The tickets but for those of the caller for the same request. */
  function TicketsWithout(tickets: map<UploadId, Ticket>, caller: Caller, request: UploadRequest)
    : map<UploadId, Ticket>
  {
    map u | u in tickets && !SameRequest(tickets[u], caller, request) :: tickets[u]
  }

  ghost predicate IsLiveTicket(rec: WorkspaceRecord, now: nat, caller: Caller, request: UploadRequest, u: UploadId) {
    u in rec.tickets && SameRequest(rec.tickets[u], caller, request) && now < rec.tickets[u].expiresAt
  }

  predicate TooLarge(site: Site, request: UploadRequest) {
    site.limits.maxItemBytes.Some? && request.size > site.limits.maxItemBytes.value
  }

  /** The staging place as it is, or an empty one. */
  ghost predicate PlaceMade(shelf: Shelf, left: Shelf, upload: UploadId) {
    && left.generations == shelf.generations
    && left.staging == if upload in shelf.staging then shelf.staging else shelf.staging[upload := Staged([], None)]
  }

  /** Whom nothing is begun for, and why. */
  lemma BeginRefusedExactly(site: Site, now: nat, st: Store, caller: Caller, request: UploadRequest, drawn: UploadId)
    ensures var op := OpBeginUpload(caller, request, drawn);
      var answer, left := Answered(site, now, st, op), Left(site, now, st, op);
      && (answer == Refused(ForbiddenRole) <==> caller.role == ReadOnly)
      && (forall e :: e in {NotFound, LeaseHeld, RewriteInProgress, KeyIdMismatch} ==>
            (answer == Refused(e) <==> caller.role == ReadWrite && GoesNowhere(st.rec, caller, request, e)))
      && (answer == Refused(ItemTooLarge) <==>
            caller.role == ReadWrite && (exists g :: GoesTo(st.rec, caller, request, g)) && TooLarge(site, request))
      && (answer.Refused? ==> left == st)
  {
    TargetExactly(st.rec, caller, request);
    if UploadTarget(st.rec, caller, request).Ok? {
      assert GoesTo(st.rec, caller, request, UploadTarget(st.rec, caller, request).value);
    }
  }

  /** Content that is stored where it would go is answered with the oldest item
      of it, as not created, and the tickets held for it are given up. */
  lemma BeginStoredExactly(site: Site, now: nat, st: Store, caller: Caller, request: UploadRequest, drawn: UploadId,
          generation: nat)
    requires caller.role == ReadWrite && GoesTo(st.rec, caller, request, generation) && !TooLarge(site, request)
    ensures var op, key := OpBeginUpload(caller, request, drawn), request.id.ContentKey();
      var items, answer := st.shelf.Items(generation), Answered(site, now, st, op);
      && (answer.Finished? <==> HasContent(items, key))
      && (answer.Finished? ==>
            && IsOldestOf(items, key, answer.outcome.id) && !answer.outcome.created
            && answer.outcome.staged == request.inRewrite
            && Left(site, now, st, op) ==
                 Store(st.shelf, st.rec.(tickets := TicketsWithout(st.rec.tickets, caller, request))))
  {
    TargetExactly(st.rec, caller, request);
    FoundExactly(st.shelf.Items(generation), request.id.ContentKey());
    var mine := TicketsFor(st.rec, caller.key, request);
    assert st.rec.tickets - mine == TicketsWithout(st.rec.tickets, caller, request);
  }

  /** A request that is under way is answered its ticket again, and its place
      is there again if it went missing. */
  lemma BeginAgainExactly(site: Site, now: nat, st: Store, caller: Caller, request: UploadRequest, drawn: UploadId,
          generation: nat)
    requires caller.role == ReadWrite && GoesTo(st.rec, caller, request, generation) && !TooLarge(site, request)
    requires !HasContent(st.shelf.Items(generation), request.id.ContentKey())
    requires exists u :: IsLiveTicket(st.rec, now, caller, request, u)
    ensures var op := OpBeginUpload(caller, request, drawn);
      var answer, left := Answered(site, now, st, op), Left(site, now, st, op);
      && answer.Begun? && IsLiveTicket(st.rec, now, caller, request, answer.upload)
      && answer.expiresAt == st.rec.tickets[answer.upload].expiresAt
      && left.rec == st.rec && PlaceMade(st.shelf, left.shelf, answer.upload)
  {
    TargetExactly(st.rec, caller, request);
    FoundExactly(st.shelf.Items(generation), request.id.ContentKey());
    var u :| IsLiveTicket(st.rec, now, caller, request, u);
    assert u in LiveTicketsFor(st.rec, now, caller.key, request);
  }

  /** The sizes of the live uploads of one sort. */
  ghost predicate ArePromised(promised: map<UploadId, nat>, tickets: map<UploadId, Ticket>, now: nat, inRewrite: bool) {
    && (forall u :: u in promised <==>
          u in tickets && now < tickets[u].expiresAt && tickets[u].request.inRewrite == inRewrite)
    && forall u <- promised :: promised[u] == tickets[u].request.size
  }

  lemma PromisedExactly(promised: map<UploadId, nat>, tickets: map<UploadId, Ticket>, now: nat, inRewrite: bool)
    requires ArePromised(promised, tickets, now, inRewrite)
    ensures Reserved(tickets, now, inRewrite) == Sum(promised)
  {
    assert promised == Promised(tickets, now, inRewrite);
  }

  /** A ticket is issued, for so long, and an empty place made. */
  ghost predicate Issued(site: Site, now: nat, st: Store, left: Store, caller: Caller, request: UploadRequest,
          u: UploadId)
  {
    && left.rec == st.rec.(tickets := st.rec.tickets[u := Ticket(caller.key, request, now + site.limits.stagingSecs)])
    && PlaceMade(st.shelf, left.shelf, u)
  }

  lemma NothingUnderWay(rec: WorkspaceRecord, now: nat, caller: Caller, request: UploadRequest)
    requires forall u :: !IsLiveTicket(rec, now, caller, request, u)
    ensures LiveTicketsFor(rec, now, caller.key, request) == {}
  {
    forall u ensures u !in LiveTicketsFor(rec, now, caller.key, request) {
      assert !IsLiveTicket(rec, now, caller, request, u);
    }
  }

  /** An upload that is neither stored nor under way is begun exactly when what
      is stored, what is promised and its own size are within the quota; with
      the largest quota there is, always. */
  lemma BeginNewExactly(site: Site, w: World, caller: Caller, request: UploadRequest, drawn: UploadId,
          generation: nat, promised: map<UploadId, nat>)
    requires Reachable(site, w) && w.up && site.limits.quotaBytes <= U64_MAX
    requires caller.role == ReadWrite && GoesTo(w.store.rec, caller, request, generation) && !TooLarge(site, request)
    requires !HasContent(w.store.shelf.Items(generation), request.id.ContentKey())
    requires forall u :: !IsLiveTicket(w.store.rec, w.now, caller, request, u)
    requires ArePromised(promised, w.store.rec.tickets, w.now, request.inRewrite)
    ensures var op, plain := OpBeginUpload(caller, request, drawn), w.store.rec.plain;
      var answer, left := Answered(site, w.now, w.store, op), Left(site, w.now, w.store, op);
      var stored := w.store.shelf.Bytes(generation)
                    + if request.inRewrite || plain.None? then 0 else w.store.shelf.Bytes(plain.value);
      if site.limits.quotaBytes < U64_MAX && stored + Sum(promised) + request.size > site.limits.quotaBytes
      then answer == Refused(QuotaExceeded) && left == w.store
      else answer == Begun(drawn, w.now + site.limits.stagingSecs)
           && Issued(site, w.now, w.store, left, caller, request, drawn)
  {
    TargetExactly(w.store.rec, caller, request);
    FoundExactly(w.store.shelf.Items(generation), request.id.ContentKey());
    PromisedExactly(promised, w.store.rec.tickets, w.now, request.inRewrite);
    NothingUnderWay(w.store.rec, w.now, caller, request);
    if site.limits.quotaBytes < U64_MAX {
      Quota.QuotaRefusesExactly(site, w, caller, request, drawn, generation);
    } else {
      Quota.LargestQuotaRefusesNothing(site, w.now, w.store, caller, request, drawn);
    }
  }

  /** In a reachable state the item that is answered is the only one with the
      content, and a begin answers one exactly when there is one. */
  lemma BeginFindsTheItem(site: Site, w: World, caller: Caller, request: UploadRequest, drawn: UploadId)
    requires Reachable(site, w)
    ensures var answer := Answered(site, w.now, w.store, OpBeginUpload(caller, request, drawn));
      && (answer.Finished? <==>
            caller.role == ReadWrite && !TooLarge(site, request) && exists g: nat ::
              GoesTo(w.store.rec, caller, request, g) && HasContent(w.store.shelf.Items(g), request.id.ContentKey()))
      && (answer.Finished? ==> !answer.outcome.created && exists g: nat ::
            GoesTo(w.store.rec, caller, request, g)
            && IsOnly(w.store.shelf.Items(g), request.id.ContentKey(), answer.outcome.id))
  {
    BeginRefusedExactly(site, w.now, w.store, caller, request, drawn);
    TargetExactly(w.store.rec, caller, request);
    var target := UploadTarget(w.store.rec, caller, request);
    if caller.role == ReadWrite && target.Ok? && !TooLarge(site, request) {
      BeginStoredExactly(site, w.now, w.store, caller, request, drawn, target.value);
      OldestIsOnly(site, w, target.value, request.id.ContentKey());
    }
  }

  ghost predicate IsOnly(items: map<ItemId, Item>, key: string, id: ItemId) {
    && id in items && id.ContentKey() == key
    && forall other <- items :: other.ContentKey() == key ==> other == id
  }

  lemma OldestIsOnly(site: Site, w: World, generation: nat, key: string)
    requires Reachable(site, w)
    ensures forall id ::
      IsOldestOf(w.store.shelf.Items(generation), key, id) ==> IsOnly(w.store.shelf.Items(generation), key, id)
  {
    ReachableHasInv(site, w);
    assert OneEach(w.store.shelf.Items(generation));
  }

  // === committing an upload ===

  predicate IsRemembered(rec: WorkspaceRecord, now: nat, caller: Caller, upload: UploadId) {
    upload in rec.tombstones && rec.tombstones[upload].owner == caller.key && now < rec.tombstones[upload].expiresAt
  }

  predicate IsUnderWay(rec: WorkspaceRecord, now: nat, caller: Caller, upload: UploadId) {
    upload in rec.tickets && rec.tickets[upload].owner == caller.key && now < rec.tickets[upload].expiresAt
  }

  /** The `meta` of the request says the hash and the size of what is staged,
      and the id begins the hash. */
  ghost predicate SaysWhatIsStaged(site: Site, staged: Staged, request: UploadRequest) {
    && staged.digest.Some? && site.said(request.meta).Some?
    && var said, hash := site.said(request.meta).value, Hex(staged.digest.value);
    said.sha256 == Some(hash) && said.size == Some(request.size) && request.id.ContentKey() == hash[..12]
  }

  /** All of the content is staged, and checked where the server can. */
  ghost predicate IsAllThere(site: Site, shelf: Shelf, upload: UploadId, request: UploadRequest) {
    && upload in shelf.staging && |shelf.staging[upload].content| == request.size
    && (site.limits.checkPlaintextContent && request.expectedKeyId.None? ==>
          SaysWhatIsStaged(site, shelf.staging[upload], request))
  }

  /** The place is gone, and the item of the request is there in its size. */
  predicate WasPublished(shelf: Shelf, upload: UploadId, generation: nat, request: UploadRequest) {
    && upload !in shelf.staging && request.id in shelf.Items(generation)
    && |shelf.Items(generation)[request.id].content| == request.size
  }

  /** What every commit that ends an upload does to the record, but for the books. */
  predicate EndsUpload(site: Site, now: nat, rec: WorkspaceRecord, left: WorkspaceRecord, upload: UploadId,
          owner: ApiKeyId, outcome: PutOutcome)
  {
    left == rec.(tickets := rec.tickets - {upload}, used := left.used,
                 tombstones := rec.tombstones[upload := Tombstone(owner, outcome, now + site.limits.stagingSecs)])
  }

  /** The staged content becomes the item, and the place goes. */
  ghost predicate ItemMade(now: nat, shelf: Shelf, left: Shelf, upload: UploadId, generation: nat,
          request: UploadRequest)
    requires upload in shelf.staging
  {
    var item := Item(shelf.staging[upload].content, Envelope(request.meta, request.expectedKeyId, now));
    left == Shelf(shelf.staging - {upload},
                  shelf.generations[generation := shelf.Items(generation)[request.id := item]])
  }

  /** Of an upload that is over, or that never was the caller's. */
  lemma CommitAgainExactly(site: Site, now: nat, st: Store, caller: Caller, upload: UploadId)
    requires IsRemembered(st.rec, now, caller, upload) || !IsUnderWay(st.rec, now, caller, upload)
    ensures var op := OpCommitUpload(caller, upload);
      && Left(site, now, st, op) == st
      && Answered(site, now, st, op) ==
           if IsRemembered(st.rec, now, caller, upload) then Finished(st.rec.tombstones[upload].outcome)
           else Refused(NotFound)
  {
  }

  /** Of one that goes nowhere any more. */
  lemma CommitNowhereExactly(site: Site, now: nat, st: Store, caller: Caller, upload: UploadId, error: ApiError)
    requires !IsRemembered(st.rec, now, caller, upload) && IsUnderWay(st.rec, now, caller, upload)
    requires GoesNowhere(st.rec, caller, st.rec.tickets[upload].request, error)
    ensures var op := OpCommitUpload(caller, upload);
      Left(site, now, st, op) == st && Answered(site, now, st, op) == Refused(error)
  {
    TargetExactly(st.rec, caller, st.rec.tickets[upload].request);
  }

  /** An upload is finished exactly when its content is all there, or its item
      is and its place is not; and is mismatched otherwise. */
  lemma CommitExactly(site: Site, now: nat, st: Store, caller: Caller, upload: UploadId, generation: nat)
    requires !IsRemembered(st.rec, now, caller, upload) && IsUnderWay(st.rec, now, caller, upload)
    requires GoesTo(st.rec, caller, st.rec.tickets[upload].request, generation)
    ensures var op, request := OpCommitUpload(caller, upload), st.rec.tickets[upload].request;
      var answer, left := Answered(site, now, st, op), Left(site, now, st, op);
      && (answer.Finished? <==>
            WasPublished(st.shelf, upload, generation, request) || IsAllThere(site, st.shelf, upload, request))
      && (if answer.Finished? then EndsUpload(site, now, st.rec, left.rec, upload, caller.key, answer.outcome)
          else answer == Refused(ContentMismatch) && left == st)
  {
    TargetExactly(st.rec, caller, st.rec.tickets[upload].request);
  }

  /** It is answered as created when its item is there already or nothing has
      its content, and with the oldest item of its content otherwise. */
  lemma CommitOutcomeExactly(site: Site, now: nat, st: Store, caller: Caller, upload: UploadId, generation: nat)
    requires !IsRemembered(st.rec, now, caller, upload) && IsUnderWay(st.rec, now, caller, upload)
    requires GoesTo(st.rec, caller, st.rec.tickets[upload].request, generation)
    requires var request := st.rec.tickets[upload].request;
      WasPublished(st.shelf, upload, generation, request) || IsAllThere(site, st.shelf, upload, request)
    ensures var op, request := OpCommitUpload(caller, upload), st.rec.tickets[upload].request;
      var answer, left := Answered(site, now, st, op), Left(site, now, st, op);
      var items, published := st.shelf.Items(generation), WasPublished(st.shelf, upload, generation, request);
      && answer.Finished? && answer.outcome.staged == request.inRewrite
      && (answer.outcome.created <==> published || !HasContent(items, request.id.ContentKey()))
      && (if answer.outcome.created then answer.outcome.id == request.id
          else IsOldestOf(items, request.id.ContentKey(), answer.outcome.id))
      && (if answer.outcome.created && !published
          then ItemMade(now, st.shelf, left.shelf, upload, generation, request) else left.shelf == st.shelf)
      && left.rec.used == if published then st.rec.used[generation := st.shelf.Bytes(generation)]
                          else if answer.outcome.created
                          then st.rec.used[generation := st.rec.UsedOf(generation) + request.size]
                          else st.rec.used
  {
    var request := st.rec.tickets[upload].request;
    TargetExactly(st.rec, caller, request);
    FoundExactly(st.shelf.Items(generation), request.id.ContentKey());
    if !HasContent(st.shelf.Items(generation), request.id.ContentKey()) {
      assert request.id !in st.shelf.Items(generation);
    }
  }

  /** A commit that ends the upload found where it goes. */
  lemma CommitGoes(site: Site, now: nat, st: Store, caller: Caller, upload: UploadId) returns (generation: nat)
    requires Answered(site, now, st, OpCommitUpload(caller, upload)).Finished?
    requires !IsRemembered(st.rec, now, caller, upload)
    ensures IsUnderWay(st.rec, now, caller, upload)
    ensures var request := st.rec.tickets[upload].request;
      && GoesTo(st.rec, caller, request, generation)
      && (WasPublished(st.shelf, upload, generation, request) || IsAllThere(site, st.shelf, upload, request))
  {
    generation := 0;
    if !IsUnderWay(st.rec, now, caller, upload) {
      CommitAgainExactly(site, now, st, caller, upload);
    } else {
      var target := UploadTarget(st.rec, caller, st.rec.tickets[upload].request);
      TargetExactly(st.rec, caller, st.rec.tickets[upload].request);
      if target.Err? {
        CommitNowhereExactly(site, now, st, caller, upload, target.error);
      } else {
        generation := target.value;
        CommitExactly(site, now, st, caller, upload, generation);
      }
    }
  }

  lemma OutcomeIsThere(site: Site, now: nat, st: Store, caller: Caller, upload: UploadId, generation: nat)
    requires !IsRemembered(st.rec, now, caller, upload) && IsUnderWay(st.rec, now, caller, upload)
    requires GoesTo(st.rec, caller, st.rec.tickets[upload].request, generation)
    requires var request := st.rec.tickets[upload].request;
      WasPublished(st.shelf, upload, generation, request) || IsAllThere(site, st.shelf, upload, request)
    ensures var op, request := OpCommitUpload(caller, upload), st.rec.tickets[upload].request;
      var answer := Answered(site, now, st, op);
      && answer.Finished? && answer.outcome.id in Left(site, now, st, op).shelf.Items(generation)
      && answer.outcome.id.ContentKey() == request.id.ContentKey()
  {
    CommitOutcomeExactly(site, now, st, caller, upload, generation);
  }

  /** In a reachable state what a commit answers, when it ends the upload, is
      then the only item with the content where the upload goes. */
  lemma CommitNamesTheItem(site: Site, w: World, caller: Caller, upload: UploadId) returns (generation: nat)
    requires Reachable(site, w) && w.up
    requires Answered(site, w.now, w.store, OpCommitUpload(caller, upload)).Finished?
    requires !IsRemembered(w.store.rec, w.now, caller, upload)
    ensures var op := OpCommitUpload(caller, upload);
      && IsUnderWay(w.store.rec, w.now, caller, upload)
      && var request := w.store.rec.tickets[upload].request;
      && GoesTo(w.store.rec, caller, request, generation)
      && IsOnly(Left(site, w.now, w.store, op).shelf.Items(generation), request.id.ContentKey(),
                Answered(site, w.now, w.store, op).outcome.id)
  {
    var op := OpCommitUpload(caller, upload);
    generation := CommitGoes(site, w.now, w.store, caller, upload);
    OutcomeIsThere(site, w.now, w.store, caller, upload, generation);
    LeftIsDeduplicated(site, w, op, generation);
  }

  lemma LeftIsDeduplicated(site: Site, w: World, op: Op, generation: nat)
    requires Reachable(site, w)
    ensures OneEach(Left(site, w.now, w.store, op).shelf.Items(generation))
  {
    ReachableHasInv(site, w);
    DecisionsAreJustified(site, w.now, w.store, op);
    KeepsDeduplicated(site, w.now, w.store, Decide(site, w.now, w.store, op).change);
  }

  // === aborting an upload, and content ===

  /** An abort is always answered that it is done; the upload is given up if it
      is the caller's. */
  lemma AbortUploadExactly(site: Site, now: nat, st: Store, caller: Caller, upload: UploadId)
    ensures var op, tickets := OpAbortUpload(caller, upload), st.rec.tickets;
      var own := upload in tickets && tickets[upload].owner == caller.key;
      && Answered(site, now, st, op) == Done
      && Left(site, now, st, op) == Store(st.shelf, st.rec.(tickets := if own then tickets - {upload} else tickets))
  {
  }

  /** What is staged by content that comes: all of it, hashed where it will be
      checked, or nothing when it is too long or breaks off. */
  ghost function StagedBy(site: Site, chunks: seq<Chunk>, request: UploadRequest): Staged {
    var all := Yield(chunks);
    if |all| > request.size || Breaks(chunks) then Staged([], None)
    else Staged(all, if site.limits.checkPlaintextContent && request.expectedKeyId.None?
                     then Some(site.sha256(all)) else None)
  }

  /** Content is taken in exactly for an upload of the caller that is under way
      and has a place, and only when it is whole and no longer than announced;
      it is acknowledged, and not taken in, once a commit is remembered. */
  lemma ContentExactly(site: Site, now: nat, st: Store, caller: Caller, upload: UploadId, chunks: seq<Chunk>)
    ensures var (answer, shelf) := Put(site, now, st, caller, upload, Arriving(chunks));
      if IsRemembered(st.rec, now, caller, upload) then answer == Ok(()) && shelf == st.shelf
      else if !IsUnderWay(st.rec, now, caller, upload) || upload !in st.shelf.staging
      then answer == Err(NotFound) && shelf == st.shelf
      else
        var request := st.rec.tickets[upload].request;
        && shelf == st.shelf.(staging := st.shelf.staging[upload := StagedBy(site, chunks, request)])
        && (answer == Ok(()) <==> |Yield(chunks)| <= request.size && !Breaks(chunks))
        && (answer == Err(ContentMismatch) <==> |Yield(chunks)| > request.size)
        && (answer == Err(InvalidRequest) <==> |Yield(chunks)| <= request.size && Breaks(chunks))
  {
  }

  // === deleting an item ===

  /** The generation a partition is, if there is one. */
  predicate IsPartition(rec: WorkspaceRecord, partition: Partition, generation: nat) {
    match partition
    case Current => generation == rec.generation
    case Plain => rec.plain == Some(generation)
  }

  predicate IsIn(st: Store, partition: Partition, id: ItemId, generation: nat) {
    IsPartition(st.rec, partition, generation) && id in st.shelf.Items(generation)
  }

  /** The workspace is settled under the key the caller expects, and the caller
      may write. */
  predicate MayWrite(rec: WorkspaceRecord, caller: Caller, expected: Option<KeyId>) {
    caller.role == ReadWrite && rec.state.Settled? && KeyIn(rec.state.seal) == expected
  }

  /** An item is deleted, and answered, exactly when the caller may write under
      the key it names and the partition holds the item. */
  lemma DeleteExactly(site: Site, now: nat, st: Store, caller: Caller, partition: Partition, id: ItemId,
          expected: Option<KeyId>)
    ensures var op, rec := OpDeleteItem(caller, partition, id, expected), st.rec;
      var answer, left := Answered(site, now, st, op), Left(site, now, st, op);
      && (answer.Removed? <==> MayWrite(rec, caller, expected) && exists g: nat :: IsIn(st, partition, id, g))
      && (!answer.Removed? ==> left == st)
      && (answer == Refused(ForbiddenRole) <==> caller.role == ReadOnly)
      && (answer == Refused(RewriteInProgress) <==> caller.role == ReadWrite && rec.state.Rewriting?)
      && (answer == Refused(KeyIdMismatch) <==>
            caller.role == ReadWrite && rec.state.Settled? && KeyIn(rec.state.seal) != expected)
      && (answer == Refused(NotFound) <==>
            MayWrite(rec, caller, expected) && forall g: nat :: !IsIn(st, partition, id, g))
  {
    var g := if partition.Current? then st.rec.generation else if st.rec.plain.Some? then st.rec.plain.value else 0;
    assert forall h: nat :: IsPartition(st.rec, partition, h) ==> h == g;
    assert IsIn(st, partition, id, g) <==> exists h: nat :: IsIn(st, partition, id, h);
  }

  /** Precisely that item goes, of that generation, and its bytes from the books. */
  lemma DeletesPrecisely(site: Site, now: nat, st: Store, caller: Caller, partition: Partition, id: ItemId,
          expected: Option<KeyId>, generation: nat)
    requires MayWrite(st.rec, caller, expected) && IsIn(st, partition, id, generation)
    ensures var op := OpDeleteItem(caller, partition, id, expected);
      var item, left := st.shelf.Items(generation)[id], Left(site, now, st, op);
      && Answered(site, now, st, op) == Removed(StoredItem(|item.content|, item.envelope))
      && left.shelf == st.shelf.(generations := st.shelf.generations[generation := st.shelf.Items(generation) - {id}])
      && left.rec == st.rec.(used := left.rec.used)
      && left.rec.used == st.rec.used[generation := left.rec.UsedOf(generation)]
      && left.rec.UsedOf(generation) ==
           if st.rec.UsedOf(generation) < |item.content| then 0 else st.rec.UsedOf(generation) - |item.content|
  {
  }

  /** In a reachable state the two partitions are different generations, and
      whatever comes of a deletion from one, the other keeps its items. */
  lemma PartitionsLoseTheirOwn(site: Site, w: World, caller: Caller, partition: Partition, id: ItemId,
          expected: Option<KeyId>)
    requires Reachable(site, w)
    ensures forall g: nat :: !(IsPartition(w.store.rec, Current, g) && IsPartition(w.store.rec, Plain, g))
    ensures var left := Left(site, w.now, w.store, OpDeleteItem(caller, partition, id, expected));
      forall g: nat :: !IsPartition(w.store.rec, partition, g) ==> left.shelf.Items(g) == w.store.shelf.Items(g)
  {
    ReachableHasInv(site, w);
  }

  // === settled encryption ===

  /** The change of the seal alone. */
  ghost predicate Resealed(st: Store, left: Store, seal: Seal) {
    left == Store(st.shelf, st.rec.(state := Settled(Some(seal))))
  }

  /** The current items become the plain partition, and the next generation,
      which is new, becomes current. */
  ghost predicate SetAsideUnder(st: Store, left: Store, seal: Seal) {
    left == Store(st.shelf, st.rec.(
      state := Settled(Some(seal)), plain := Some(st.rec.generation),
      generation := st.rec.nextGeneration, nextGeneration := st.rec.nextGeneration + 1))
  }

  predicate IsPlaintext(rec: WorkspaceRecord) { rec.state == Settled(None) }

  predicate IsSealedUnder(rec: WorkspaceRecord, key: KeyId) {
    rec.state.Settled? && KeyIn(rec.state.seal) == Some(key)
  }

  predicate IsSealedOtherwise(rec: WorkspaceRecord, key: KeyId) {
    rec.state.Settled? && rec.state.seal.Some? && rec.state.seal.value.keyId != key
  }

  predicate HoldsNothing(st: Store) { st.shelf.Items(st.rec.generation) == map[] }

  /** The refusals that sealing and a fresh start share. */
  ghost predicate RefusesToSettle(answer: Answer, rec: WorkspaceRecord, caller: Caller, key: KeyId) {
    && (answer == Refused(ForbiddenRole) <==> caller.role == ReadOnly)
    && (answer == Refused(RewriteInProgress) <==> caller.role == ReadWrite && rec.state.Rewriting?)
    && (answer == Refused(KeyIdMismatch) <==> caller.role == ReadWrite && IsSealedOtherwise(rec, key))
  }

  /** A plaintext workspace without items is sealed; one that is sealed under
      the key is shown again, header and all as they are. */
  lemma EnableExactly(site: Site, now: nat, st: Store, caller: Caller, seal: Seal)
    ensures var op, rec := OpEnableEncryption(caller, seal), st.rec;
      var answer, left := Answered(site, now, st, op), Left(site, now, st, op);
      && RefusesToSettle(answer, rec, caller, seal.keyId)
      && (answer == Refused(InvalidRequest) <==> caller.role == ReadWrite && IsPlaintext(rec) && !HoldsNothing(st))
      && (answer.Encryption? <==>
            caller.role == ReadWrite
            && (IsSealedUnder(rec, seal.keyId) || (IsPlaintext(rec) && HoldsNothing(st))))
      && (if answer.Encryption? && IsPlaintext(rec) then Resealed(st, left, seal) else left == st)
      && (answer.Encryption? ==> ShowsEncryption(answer.view, left))
  {
    ChangedIsShown(Nothing, st);
    ChangedIsShown(Settle(seal), st);
    var decision := EnableEncryption(st, caller, seal);
    assert decision in {Changed(Nothing, st), Changed(Settle(seal), st)}
           || (decision.answer.Refused? && decision.change == Nothing);
  }

  /** A plaintext workspace is sealed, its items, if any, set aside. */
  lemma FreshStartExactly(site: Site, now: nat, st: Store, caller: Caller, seal: Seal)
    ensures var op, rec := OpFreshStart(caller, seal), st.rec;
      var answer, left := Answered(site, now, st, op), Left(site, now, st, op);
      && RefusesToSettle(answer, rec, caller, seal.keyId)
      && (answer.Encryption? <==>
            caller.role == ReadWrite && (IsSealedUnder(rec, seal.keyId) || IsPlaintext(rec)))
      && (if !answer.Encryption? || !IsPlaintext(rec) then left == st
          else if HoldsNothing(st) then Resealed(st, left, seal)
          else SetAsideUnder(st, left, seal))
      && (answer.Encryption? ==> ShowsEncryption(answer.view, left))
  {
    ChangedIsShown(Nothing, st);
    ChangedIsShown(Settle(seal), st);
    ChangedIsShown(SetAside(seal), st);
    var decision := FreshStart(st, caller, seal);
    assert decision in {Changed(Nothing, st), Changed(Settle(seal), st), Changed(SetAside(seal), st)}
           || (decision.answer.Refused? && decision.change == Nothing);
  }

  /** The header is the new one afterwards, exactly when the workspace is
      sealed under the key that is named. */
  lemma ReplaceHeaderExactly(site: Site, now: nat, st: Store, caller: Caller, seal: Seal)
    ensures var op, rec := OpReplaceHeader(caller, seal), st.rec;
      var answer, left := Answered(site, now, st, op), Left(site, now, st, op);
      && RefusesToSettle(answer, rec, caller, seal.keyId)
      && (answer == Refused(InvalidRequest) <==> caller.role == ReadWrite && IsPlaintext(rec))
      && (answer.Encryption? <==> caller.role == ReadWrite && IsSealedUnder(rec, seal.keyId))
      && (if answer.Encryption?
          then Resealed(st, left, seal) && ShowsEncryption(answer.view, left) && answer.view.header == Some(seal.header)
          else left == st)
  {
    ChangedIsShown(Settle(seal), st);
    var decision := ReplaceHeader(st, caller, seal);
    assert decision == Changed(Settle(seal), st) || (decision.answer.Refused? && decision.change == Nothing);
  }

  // === sweeping ===

  /** Nothing that has expired is left. */
  ghost predicate Forgotten(now: nat, rec: WorkspaceRecord, left: WorkspaceRecord) {
    && (forall u :: u in left.tickets <==> u in rec.tickets && now < rec.tickets[u].expiresAt)
    && (forall u <- left.tickets :: left.tickets[u] == rec.tickets[u])
    && (forall u :: u in left.tombstones <==> u in rec.tombstones && now < rec.tombstones[u].expiresAt)
    && (forall u <- left.tombstones :: left.tombstones[u] == rec.tombstones[u])
    && left == rec.(used := left.used, tickets := left.tickets, tombstones := left.tombstones)
  }

  /** A generation the record points to. */
  predicate IsPointedTo(rec: WorkspaceRecord, g: nat) {
    g == rec.generation || rec.plain == Some(g) || (rec.state.Rewriting? && rec.state.session.stagedGeneration == g)
  }

  ghost predicate IsRubbish(st: Store, g: nat) {
    st.shelf.Items(g) != map[] && !IsPointedTo(st.rec, g)
  }

  lemma OrphansAreRubbish(st: Store)
    ensures forall g: nat :: g in Orphans(st.shelf, st.rec) <==> IsRubbish(st, g)
  {
  }

  lemma SweptIsForgotten(shelf: Shelf, rec: WorkspaceRecord, now: nat)
    ensures Forgotten(now, rec, SweptRecord(shelf, rec, now))
    ensures SweptRecord(shelf, rec, now).used == rec.used - Orphans(shelf, rec)
  {
  }

  lemma RecountedBooks(shelf: Shelf, rec: WorkspaceRecord, now: nat)
    ensures var recounted := Recounted(shelf, rec);
      && recounted == rec.(used := recounted.used) && Orphans(shelf, recounted) == Orphans(shelf, rec)
      && (forall g: nat :: g in recounted.used <==> IsPointedTo(rec, g) || g in rec.used)
      && (forall g <- recounted.used ::
            recounted.used[g] == if IsPointedTo(rec, g) then shelf.Bytes(g) else rec.used[g])
  {
  }

  /** A sweep forgets what has expired and the books of rubbish, and answers how
      many places are no live upload's. */
  lemma SweepExactly(site: Site, now: nat, st: Store, abandoned: set<UploadId>)
    requires forall u :: u in abandoned <==>
      u in st.shelf.staging && !(u in st.rec.tickets && now < st.rec.tickets[u].expiresAt)
    ensures var left := Left(site, now, st, OpCleanStaging);
      && Answered(site, now, st, OpCleanStaging) == Swept(|abandoned|)
      && left.shelf == st.shelf && Forgotten(now, st.rec, left.rec)
      && (forall g: nat :: g in left.rec.used <==> g in st.rec.used && !IsRubbish(st, g))
      && (forall g <- left.rec.used :: left.rec.used[g] == st.rec.used[g])
  {
    assert abandoned == Abandoned(st.shelf, st.rec, now);
    OrphansAreRubbish(st);
    SweptIsForgotten(st.shelf, st.rec, now);
  }

  /** Reconciling also takes the books of what is pointed to from the shelf. */
  lemma ReconcileExactly(site: Site, now: nat, st: Store)
    ensures var left := Left(site, now, st, OpReconcile);
      && Answered(site, now, st, OpReconcile) == Done
      && left.shelf == st.shelf && Forgotten(now, st.rec, left.rec)
      && (forall g: nat :: g in left.rec.used <==> IsPointedTo(st.rec, g) || (g in st.rec.used && !IsRubbish(st, g)))
      && (forall g <- left.rec.used ::
            left.rec.used[g] == if IsPointedTo(st.rec, g) then st.shelf.Bytes(g) else st.rec.used[g])
  {
    OrphansAreRubbish(st);
    RecountedBooks(st.shelf, st.rec, now);
    SweptIsForgotten(st.shelf, Recounted(st.shelf, st.rec), now);
    ForgottenOfRecounted(now, st.rec, Recounted(st.shelf, st.rec), Left(site, now, st, OpReconcile).rec);
  }

  lemma ForgottenOfRecounted(now: nat, rec: WorkspaceRecord, recounted: WorkspaceRecord, left: WorkspaceRecord)
    requires recounted == rec.(used := recounted.used) && Forgotten(now, recounted, left)
    ensures Forgotten(now, rec, left)
  {
  }

  // === what is asked to be removed ===

  predicate IsSweep(op: Op) { op.OpCleanStaging? || op.OpReconcile? }

  lemma ChangeAsksExactly(site: Site, now: nat, st: Store, change: Change)
    requires Justified(site, now, st, change) && !change.Sweep? && !change.Reconcile?
    requires LiveApart(st.rec) && StateOk(st.rec)
    ensures var left := RecordAfter(change, st.shelf, st.rec);
      && (forall u :: RemoveStaging(u) in Asked(change, st.shelf, st.rec) <==>
            u in st.rec.tickets && u !in left.tickets)
      && (forall g: nat :: DropGeneration(g) in Asked(change, st.shelf, st.rec) <==>
            IsPointedTo(st.rec, g) && !IsPointedTo(left, g))
  {
  }

  lemma DoPends(site: Site, w: World, op: Op)
    requires Enabled(w, Do(op))
    ensures var change, next := Decide(site, w.now, w.store, op).change, Next(site, w, Do(op));
      && next.pending == w.pending + Asked(change, w.store.shelf, w.store.rec)
      && next.store.rec == RecordAfter(change, w.store.shelf, w.store.rec)
      && (change.Sweep? || change.Reconcile? <==> IsSweep(op))
  {
  }

  /** Every operation but a sweep asks for exactly this to be removed: the
      places of the tickets that go with it, and the generation it stops
      pointing to. */
  lemma AsksExactly(site: Site, w: World, op: Op)
    requires Reachable(site, w) && Enabled(w, Do(op)) && !IsSweep(op)
    ensures var next := Next(site, w, Do(op)); var rec, left := w.store.rec, next.store.rec;
      && (forall u :: RemoveStaging(u) in next.pending <==>
            RemoveStaging(u) in w.pending || (u in rec.tickets && u !in left.tickets))
      && (forall g: nat :: DropGeneration(g) in next.pending <==>
            DropGeneration(g) in w.pending || (IsPointedTo(rec, g) && !IsPointedTo(left, g)))
  {
    ReachableHasInv(site, w);
    DecisionsAreJustified(site, w.now, w.store, op);
    DoPends(site, w, op);
    ChangeAsksExactly(site, w.now, w.store, Decide(site, w.now, w.store, op).change);
  }

  lemma SweepingAsksExactly(st: Store, change: Change)
    requires change.Sweep? || change.Reconcile?
    ensures var left := RecordAfter(change, st.shelf, st.rec);
      && (forall u :: RemoveStaging(u) in Asked(change, st.shelf, st.rec) <==>
            u in st.shelf.staging && u !in left.tickets)
      && (forall g: nat :: DropGeneration(g) in Asked(change, st.shelf, st.rec) <==> IsRubbish(st, g))
  {
  }

  /** A sweep asks for every place without a ticket and all rubbish. */
  lemma SweepAsksExactly(site: Site, w: World, op: Op)
    requires Enabled(w, Do(op)) && IsSweep(op)
    ensures var next := Next(site, w, Do(op));
      && (forall u :: RemoveStaging(u) in next.pending <==>
            RemoveStaging(u) in w.pending || (u in w.store.shelf.staging && u !in next.store.rec.tickets))
      && (forall g: nat :: DropGeneration(g) in next.pending <==>
            DropGeneration(g) in w.pending || IsRubbish(w.store, g))
  {
    DoPends(site, w, op);
    SweepingAsksExactly(w.store, Decide(site, w.now, w.store, op).change);
  }
}
