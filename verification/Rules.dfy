/** The rules as methods that change a record's fields and a shelf in place,
    each proved to make the change that `Protocol` decides and to give its
    answer. */
module Rules {
  import opened Wrappers
  import opened Ids
  import opened Sums
  import opened Stores
  import opened Protocol
  import opened World
  import opened Invariants
  import opened MemoryShelves
  import opened Shown

  ghost function AsSet(after: seq<Cleanup>): set<Cleanup> {
    set c | c in after
  }

  lemma AsSetGrows(after: seq<Cleanup>, c: Cleanup)
    ensures AsSet(after + [c]) == AsSet(after) + {c}
  {
  }

  lemma RemoveAllGrows(uploads: set<UploadId>, upload: UploadId)
    ensures RemoveAll(uploads + {upload}) == RemoveAll(uploads) + {RemoveStaging(upload)}
  {
  }

  /** `found` is the last of `list` with the key. */
  ghost predicate IsLastMatch(list: seq<ItemId>, key: string, found: Option<ItemId>) {
    match found
    case None => forall j :: 0 <= j < |list| ==> list[j].ContentKey() != key
    case Some(id) =>
      id.ContentKey() == key
      && exists i :: 0 <= i < |list| && list[i] == id && forall j :: i < j < |list| ==> list[j].ContentKey() != key
  }

  method LastMatch(list: seq<ItemId>, key: string) returns (found: Option<ItemId>)
    ensures IsLastMatch(list, key, found)
  {
    var i := |list|;
    while i > 0
      invariant 0 <= i <= |list|
      invariant forall j :: i <= j < |list| ==> list[j].ContentKey() != key
    {
      i := i - 1;
      if list[i].ContentKey() == key {
        return Some(list[i]);
      }
    }
    return None;
  }

  /** In a descending list the last match is older than the others. */
  lemma LastIsOlder(list: seq<ItemId>, key: string, i: nat, j: nat)
    requires forall a, b :: 0 <= a < b < |list| ==> Older(list[b], list[a])
    requires i < |list| && j < |list| && list[j].ContentKey() == key
    requires forall k :: i < k < |list| ==> list[k].ContentKey() != key
    ensures i == j || Older(list[i], list[j])
  {
  }

  lemma LastIsOldest(list: seq<ItemId>, key: string, id: ItemId)
    requires forall a, b :: 0 <= a < b < |list| ==> Older(list[b], list[a])
    requires IsLastMatch(list, key, Some(id))
    ensures id in list && forall other <- list :: other.ContentKey() == key ==> other == id || Older(id, other)
  {
    var i :| 0 <= i < |list| && list[i] == id && forall j :: i < j < |list| ==> list[j].ContentKey() != key;
    forall other <- list | other.ContentKey() == key ensures other == id || Older(id, other) {
      var j :| 0 <= j < |list| && list[j] == other;
      LastIsOlder(list, key, i, j);
    }
  }

  lemma SearchFinds(items: map<ItemId, Item>, list: seq<ItemId>, key: string, found: Option<ItemId>)
    requires list == NewestFirst(items.Keys) && IsLastMatch(list, key, found)
    ensures FindIn(items, key) == found
  {
    var matching := WithKey(items, key);
    if found.None? {
      forall id <- items ensures id.ContentKey() != key {
        assert id in list;
      }
      assert matching == {};
    } else {
      NewestFirstSorted(items.Keys);
      LastIsOldest(list, key, found.value);
      assert found.value in matching;
      OldestUnique(matching, found.value, Oldest(matching));
    }
  }

  /** The books, as far as some generations have been counted. */
  ghost function PartlyCounted(shelf: Shelf, used: map<nat, nat>, counted: set<nat>): map<nat, nat> {
    map g | g in used.Keys + counted :: if g in counted then shelf.Bytes(g) else used[g]
  }

  lemma CountOneMore(shelf: Shelf, used: map<nat, nat>, counted: set<nat>, g: nat)
    ensures PartlyCounted(shelf, used, counted)[g := shelf.Bytes(g)] == PartlyCounted(shelf, used, counted + {g})
  {
  }

  lemma ReconcileIsRecountAndSweep(st: Store, now: nat)
    ensures var recounted := Store(st.shelf, Recounted(st.shelf, st.rec));
      && Apply(Reconcile(now), st) == Apply(Sweep(now), recounted)
      && Asked(Reconcile(now), st.shelf, st.rec) == Asked(Sweep(now), recounted.shelf, recounted.rec)
  {
  }

  lemma EndIsSettleAndDrop(st: Store)
    requires st.rec.state.Rewriting?
    ensures var session := st.rec.state.session;
      Apply(EndAborted, st) == Store(st.shelf, st.rec.(
        state := Settled(session.prior), used := st.rec.used - {session.stagedGeneration},
        tickets := WithoutRewriteTickets(st.rec.tickets), endedRewrites := st.rec.endedRewrites + {session.next.keyId}))
  {
  }

  lemma SwitchIsPointAndDrop(st: Store)
    requires st.rec.state.Rewriting?
    ensures var session := st.rec.state.session;
      Apply(Switch, st) == Store(st.shelf, st.rec.(
        state := Settled(Some(session.next)), generation := session.stagedGeneration,
        used := st.rec.used - {st.rec.generation}, tickets := WithoutRewriteTickets(st.rec.tickets)))
  {
  }

  lemma SweepIsForgetAndDrop(st: Store, now: nat)
    ensures var forgot := Unexpired(st.rec, now);
      && Apply(Sweep(now), st) == Store(st.shelf, forgot.(used := st.rec.used - Orphans(st.shelf, st.rec)))
      && Orphans(st.shelf, forgot) == Orphans(st.shelf, st.rec)
      && Abandoned(st.shelf, st.rec, now) == set u | u in st.shelf.staging && u !in forgot.tickets
  {
  }

  /** The server's source of upload ids: an endless sequence and how far it
      has been drawn. */
  class IdSource {
    const ids: nat -> UploadId
    var drawn: nat

    constructor (ids: nat -> UploadId)
    {
      this.ids := ids;
      drawn := 0;
    }

    /** At `k` comes an id that is not among `known`. */
    ghost predicate OffersAt(k: nat, known: set<UploadId>)
      reads this
    {
      drawn <= k && ids(k) !in known
    }

    method Draw() returns (id: UploadId)
      modifies this
      ensures drawn == old(drawn) + 1 && id == ids(old(drawn))
    {
      id := ids(drawn);
      drawn := drawn + 1;
    }
  }

  class Rules {
    var state: State
    var generation: nat
    var plain: Option<nat>
    var nextGeneration: nat
    var used: map<nat, nat>
    var tickets: map<UploadId, Ticket>
    var tombstones: map<UploadId, Tombstone>
    var endedRewrites: set<KeyId>
    /** The destructive steps asked for so far, in order. */
    var after: seq<Cleanup>
    const shelf: MemoryShelf
    const source: IdSource
    const site: Site
    const now: nat

    /** The rules over a copy of the record. */
    constructor (rec: WorkspaceRecord, shelf: MemoryShelf, source: IdSource, site: Site, now: nat)
      ensures Record() == rec && after == []
      ensures this.shelf == shelf && this.source == source && this.site == site && this.now == now
    {
      state, generation, plain := rec.state, rec.generation, rec.plain;
      nextGeneration, used := rec.nextGeneration, rec.used;
      tickets, tombstones, endedRewrites := rec.tickets, rec.tombstones, rec.endedRewrites;
      after := [];
      this.shelf, this.source, this.site, this.now := shelf, source, site, now;
    }

    function Record(): WorkspaceRecord
      reads this
    {
      WorkspaceRecord(state, generation, plain, nextGeneration, used, tickets, tombstones, endedRewrites)
    }

    function Stores(): Store
      reads this, shelf
    {
      Store(shelf.Contents(), Record())
    }

    /** The stores and the asked clean-ups are what `change` makes of what they were. */
    twostate predicate Makes(change: Change)
      reads this, shelf
    {
      && Stores() == Apply(change, old(Stores()))
      && AsSet(after) == AsSet(old(after)) + Asked(change, old(shelf.Contents()), old(Record()))
    }

    // === queries ===

    method ShowSession() returns (view: Option<SessionView>)
      ensures view == ViewSession(Stores())
    {
      match state
      case Settled(_) => view := None;
      case Rewriting(s) =>
        var staged := shelf.ListIds(s.stagedGeneration);
        var source := shelf.ListIds(generation);
        view := Some(SessionView(s.kind, s.holder, s.leaseExpiresAt, s.next.keyId, s.next.header, staged, |source|));
    }

    method ShowEncryption() returns (view: EncryptionView)
      ensures view == View(Stores()) && ShowsEncryption(view, Stores())
    {
      EncryptionIsShown(Stores());
      var session := ShowSession();
      var seal := Record().Seal();
      view := EncryptionView(
        match state case Rewriting(_) => InRewrite case Settled(_) => if seal.Some? then Sealed else Plaintext,
        match seal case Some(s) => Some(s.keyId) case None => None,
        match seal case Some(s) => Some(s.header) case None => None,
        session);
    }

    /** The oldest item of a generation with a content key: the last match of
        the ids, newest first. */
    method FindOldest(generation: nat, key: string) returns (found: Option<ItemId>)
      ensures found == FindIn(shelf.Contents().Items(generation), key)
    {
      var list := shelf.ListIds(generation);
      found := LastMatch(list, key);
      SearchFinds(shelf.Contents().Items(generation), list, key, found);
    }

    /** Goes through the tickets and adds up the sizes of one sort. */
    method ReservedBy(inRewrite: bool) returns (total: nat)
      ensures total == Reserved(tickets, now, inRewrite)
    {
      ghost var promised := Promised(tickets, now, inRewrite);
      var left := tickets.Keys;
      total := 0;
      assert promised == map u | u in promised && u in left :: promised[u];
      while left != {}
        invariant left <= tickets.Keys
        invariant Sum(promised) == total + Sum(map u | u in promised && u in left :: promised[u])
        decreases left
      {
        var upload :| upload in left;
        ghost var rest := map u | u in promised && u in left :: promised[u];
        var ticket := tickets[upload];
        if ticket.expiresAt > now && ticket.request.inRewrite == inRewrite {
          SumTakeOut(rest, upload);
          total := total + ticket.request.size;
        }
        left := left - {upload};
        assert (map u | u in promised && u in left :: promised[u])
            == if upload in rest then rest - {upload} else rest;
      }
    }

    // === uploads ===

    method Ask(c: Cleanup)
      modifies this`after
      ensures AsSet(after) == AsSet(old(after)) + {c}
    {
      AsSetGrows(after, c);
      after := after + [c];
    }

    /** Gives up some uploads: their tickets go, and their places are to. */
    method GiveUpAll(uploads: set<UploadId>)
      requires uploads <= tickets.Keys
      modifies this`tickets, this`after
      ensures tickets == old(tickets) - uploads
      ensures AsSet(after) == AsSet(old(after)) + RemoveAll(uploads)
    {
      var left := uploads;
      while left != {}
        invariant left <= uploads
        invariant tickets == old(tickets) - (uploads - left)
        invariant AsSet(after) == AsSet(old(after)) + RemoveAll(uploads - left)
        decreases left
      {
        var upload :| upload in left;
        tickets := tickets - {upload};
        Ask(RemoveStaging(upload));
        RemoveAllGrows(uploads - left, upload);
        assert uploads - (left - {upload}) == uploads - left + {upload};
        left := left - {upload};
      }
      assert uploads - left == uploads;
    }

    method BeginUpload(caller: Caller, request: UploadRequest, ghost k: nat)
      returns (result: Result<Answer, ApiError>, ghost drawn: UploadId)
      requires OneTicketEach(tickets, now) && source.OffersAt(k, tickets.Keys + tombstones.Keys)
      modifies this`tickets, this`after, shelf, source
      ensures drawn !in old(tickets) && drawn !in old(tombstones)
      ensures var decision := Protocol.BeginUpload(site, now, old(Stores()), caller, request, drawn);
        Makes(decision.change) && IsAnswer(result, decision.answer)
    {
      drawn := source.ids(k);
      if caller.role == ReadOnly {
        return Err(ForbiddenRole), drawn;
      }
      var target := UploadTarget(Record(), caller, request);
      if target.Err? {
        return Err(target.error), drawn;
      }
      var generation := target.value;
      if site.limits.maxItemBytes.Some? && request.size > site.limits.maxItemBytes.value {
        return Err(ItemTooLarge), drawn;
      }
      result, drawn := BeginInto(caller, request, generation, k);
    }

    /** A begin that goes to this generation: it may be stored there already. */
    method BeginInto(caller: Caller, request: UploadRequest, generation: nat, ghost k: nat)
      returns (result: Result<Answer, ApiError>, ghost drawn: UploadId)
      requires OneTicketEach(tickets, now) && source.OffersAt(k, tickets.Keys + tombstones.Keys)
      requires caller.role == ReadWrite && UploadTarget(Record(), caller, request) == Ok(generation)
      requires site.limits.maxItemBytes.Some? ==> request.size <= site.limits.maxItemBytes.value
      modifies this`tickets, this`after, shelf, source
      ensures drawn !in old(tickets) && drawn !in old(tombstones)
      ensures var decision := Protocol.BeginUpload(site, now, old(Stores()), caller, request, drawn);
        Makes(decision.change) && IsAnswer(result, decision.answer)
    {
      drawn := source.ids(k);
      ghost var before := Stores();
      var found := FindOldest(generation, request.id.ContentKey());
      if found.Some? {
        GiveUpAll(TicketsFor(Record(), caller.key, request));
        return Ok(Finished(PutOutcome(found.value, false, request.inRewrite))), drawn;
      }
      result, drawn := BeginUnstored(caller, request, generation, k);
      BeginsUnstored(site, now, before, caller, request, drawn, generation);
    }

    /** A begin that nothing refuses and for which nothing is stored yet. */
    method BeginUnstored(caller: Caller, request: UploadRequest, generation: nat, ghost k: nat)
      returns (result: Result<Answer, ApiError>, ghost drawn: UploadId)
      requires OneTicketEach(tickets, now) && source.OffersAt(k, tickets.Keys + tombstones.Keys)
      modifies this`tickets, this`after, shelf, source
      ensures drawn !in old(tickets) && drawn !in old(tombstones)
      ensures var live := LiveTicketsFor(old(Record()), now, caller.key, request);
        var ticket := Ticket(caller.key, request, now + site.limits.stagingSecs);
        if live != {} then
          forall u <- live :: Makes(Restage(u)) && result == Ok(Begun(u, old(tickets)[u].expiresAt))
        else if
          SaturatingAdd(Held(old(Record()), now, generation, request.inRewrite), request.size)
          > site.limits.quotaBytes
        then
          Makes(Change.Nothing) && result == Err(QuotaExceeded)
        else Makes(Change.Issue(drawn, ticket)) && result == Ok(Begun(drawn, ticket.expiresAt))
    {
      drawn := source.ids(k);
      var live := LiveTicketsFor(Record(), now, caller.key, request);
      if live != {} {
        var upload :| upload in live;
        assert forall u <- live :: u == upload;
        shelf.StageCreate(upload);
        return Ok(Begun(upload, tickets[upload].expiresAt)), drawn;
      }
      var held := HeldBefore(generation, request.inRewrite);
      if SaturatingAdd(held, request.size) > site.limits.quotaBytes {
        return Err(QuotaExceeded), drawn;
      }
      var upload := UnknownId(k);
      drawn := upload;
      Issue(upload, Ticket(caller.key, request, now + site.limits.stagingSecs));
      return Ok(Begun(upload, now + site.limits.stagingSecs)), drawn;
    }

    method Issue(upload: UploadId, ticket: Ticket)
      modifies this`tickets, shelf
      ensures Makes(Change.Issue(upload, ticket))
    {
      shelf.StageCreate(upload);
      tickets := tickets[upload := ticket];
    }

    /** What the request's own size is added to. */
    method HeldBefore(generation: nat, inRewrite: bool) returns (held: nat)
      ensures held == Held(Record(), now, generation, inRewrite)
    {
      var promised := ReservedBy(inRewrite);
      if inRewrite {
        var staged := if generation in used then used[generation] else 0;
        held := SaturatingAdd(staged, promised);
      } else {
        held := SaturatingAdd(UsedBytes(Record()) - StagedBytes(Record()), promised);
      }
    }

    /** Draws until an id comes that names no upload and no remembered outcome. */
    method UnknownId(ghost k: nat) returns (upload: UploadId)
      requires source.OffersAt(k, tickets.Keys + tombstones.Keys)
      modifies source
      ensures upload !in tickets && upload !in tombstones
    {
      upload := source.Draw();
      while upload in tickets || upload in tombstones
        invariant source.drawn <= k || (upload !in tickets && upload !in tombstones)
        decreases k - source.drawn
      {
        upload := source.Draw();
      }
    }

    /** Takes content in for a ticket; a commit that is remembered makes it a no-op. */
    method PutUploadContent(caller: Caller, upload: UploadId, content: Reader) returns (result: Result<(), ApiError>)
      requires content != this as object && content != shelf as object
      modifies shelf, content
      ensures (result, shelf.Contents()) == Put(site, now, old(Stores()), caller, upload, Arriving(old(content.chunks)))
    {
      if Remembered(Record(), now, caller, upload).Some? {
        return Ok(());
      }
      var ticket := LiveTicket(Record(), now, caller, upload);
      if ticket.None? {
        return Err(NotFound);
      }
      var request := ticket.value.request;
      var written := shelf.StageWrite(upload, content, request.size, ChecksContent(site, request), site);
      match written
      case Ok(_) => return Ok(());
      case Err(e) => return Err(e);
    }

    method CommitUpload(caller: Caller, upload: UploadId) returns (result: Result<Answer, ApiError>)
      modifies this, shelf
      ensures var decision := Protocol.CommitUpload(site, now, old(Stores()), caller, upload);
        Makes(decision.change) && IsAnswer(result, decision.answer)
    {
      var remembered := Remembered(Record(), now, caller, upload);
      if remembered.Some? {
        return Ok(Finished(remembered.value));
      }
      var live := LiveTicket(Record(), now, caller, upload);
      if live.None? {
        return Err(NotFound);
      }
      var ticket := live.value;
      var target := UploadTarget(Record(), caller, ticket.request);
      if target.Err? {
        return Err(target.error);
      }
      var generation := target.value;
      if upload !in shelf.staging {
        var items := shelf.Contents().Items(generation);
        if ticket.request.id in items && |items[ticket.request.id].content| == ticket.request.size {
          var outcome := FinishPublished(upload, ticket, generation);
          return Ok(Finished(outcome));
        }
      }
      if !(upload in shelf.staging && |shelf.staging[upload].content| == ticket.request.size) {
        return Err(ContentMismatch);
      }
      if ChecksContent(site, ticket.request) && !Honest(site, shelf.Contents(), upload, ticket.request) {
        return Err(ContentMismatch);
      }
      var outcome := PublishOrFind(upload, ticket, generation);
      return Ok(Finished(outcome));
    }

    /** Publishes the staged upload, unless its content is there already. */
    method PublishOrFind(upload: UploadId, ticket: Ticket, generation: nat) returns (outcome: PutOutcome)
      requires upload in shelf.staging
      modifies this, shelf
      ensures var request := ticket.request;
        match FindIn(old(shelf.Contents()).Items(generation), request.id.ContentKey())
        case Some(id) =>
          var stone := Outcome(site, now, ticket, id, false);
          outcome == stone.outcome && Makes(Finish(upload, stone))
        case None =>
          var stone := Outcome(site, now, ticket, request.id, true);
          var envelope := Envelope(request.meta, request.expectedKeyId, now);
          outcome == stone.outcome
            && Makes(Change.Publish(upload, generation, request.id, envelope, request.size, stone))
    {
      var existing := FindOldest(generation, ticket.request.id.ContentKey());
      match existing
      case Some(id) =>
        outcome := FinishUpload(upload, ticket, id, false);
      case None =>
        var envelope := Envelope(ticket.request.meta, ticket.request.expectedKeyId, now);
        var _ := shelf.Publish(upload, generation, ticket.request.id, envelope);
        AddUsed(generation, ticket.request.size);
        outcome := FinishUpload(upload, ticket, ticket.request.id, true);
    }

    /** Ends an upload whose item is there, and takes the books from the shelf. */
    method FinishPublished(upload: UploadId, ticket: Ticket, generation: nat) returns (outcome: PutOutcome)
      modifies this
      ensures var stone := Outcome(site, now, ticket, ticket.request.id, true);
        outcome == stone.outcome && Makes(Repair(upload, generation, stone))
    {
      var bytes := shelf.CountBytes(generation);
      used := used[generation := bytes];
      outcome := FinishUpload(upload, ticket, ticket.request.id, true);
    }

    method AddUsed(generation: nat, bytes: nat)
      modifies this`used
      ensures used == old(used)[generation := old(Record()).UsedOf(generation) + bytes]
    {
      var before := if generation in used then used[generation] else 0;
      used := used[generation := before + bytes];
    }

    method FinishUpload(upload: UploadId, ticket: Ticket, id: ItemId, created: bool) returns (outcome: PutOutcome)
      modifies this`tickets, this`tombstones, this`after
      ensures outcome == PutOutcome(id, created, ticket.request.inRewrite)
      ensures Record() == Finishing(old(Record()), upload, Outcome(site, now, ticket, id, created))
      ensures AsSet(after) == AsSet(old(after)) + {RemoveStaging(upload)}
    {
      outcome := PutOutcome(id, created, ticket.request.inRewrite);
      Ask(RemoveStaging(upload));
      tickets := tickets - {upload};
      tombstones := tombstones[upload := Tombstone(ticket.owner, outcome, now + site.limits.stagingSecs)];
    }

    method AbortUpload(caller: Caller, upload: UploadId)
      modifies this`tickets, this`after
      ensures Makes(Protocol.AbortUpload(old(Stores()), caller, upload).change)
    {
      if upload in tickets && tickets[upload].owner == caller.key {
        tickets := tickets - {upload};
        Ask(RemoveStaging(upload));
      }
    }

    /** Removes every ticket of the sort that goes with a session. */
    method DropRewriteUploads()
      modifies this`tickets, this`after
      ensures tickets == WithoutRewriteTickets(old(tickets))
      ensures AsSet(after) == AsSet(old(after)) + RemoveAll(RewriteTickets(old(tickets)))
    {
      GiveUpAll(RewriteTickets(tickets));
    }

    /** The books as the shelf has them, then `cleanStaging`. */
    method Reconcile()
      modifies this
      ensures Makes(Change.Reconcile(now))
    {
      ReconcileIsRecountAndSweep(Stores(), now);
      RecountBooks();
      var _ := CleanStaging();
    }

    method RecountBooks()
      modifies this`used
      ensures Record() == Recounted(shelf.Contents(), old(Record()))
    {
      var live := Record().Live();
      ghost var before := used;
      var left := live;
      assert used == PartlyCounted(shelf.Contents(), before, live - left);
      while left != {}
        invariant left <= live
        invariant used == PartlyCounted(shelf.Contents(), before, live - left)
        decreases left
      {
        var g :| g in left;
        var bytes := shelf.CountBytes(g);
        CountOneMore(shelf.Contents(), before, live - left, g);
        assert live - left + {g} == live - (left - {g});
        used := used[g := bytes];
        left := left - {g};
      }
      assert live - left == live;
    }

    /** Drops expired tickets and outcomes, and asks for every staging place
        without a ticket and every unpointed generation to go. */
    method CleanStaging() returns (removed: nat)
      modifies this
      ensures Makes(Sweep(now))
      ensures removed == |Abandoned(old(shelf.Contents()), old(Record()), now)|
    {
      tickets := map u | u in tickets && tickets[u].expiresAt > now :: tickets[u];
      tombstones := map u | u in tombstones && tombstones[u].expiresAt > now :: tombstones[u];
      SweepIsForgetAndDrop(old(Stores()), now);
      assert Record() == Unexpired(old(Record()), now);
      removed := AskForAbandoned();
      AskForOrphans();
    }

    method AskForAbandoned() returns (removed: nat)
      modifies this`after
      ensures var abandoned := set u | u in shelf.staging && u !in tickets;
        AsSet(after) == AsSet(old(after)) + RemoveAll(abandoned) && removed == |abandoned|
    {
      removed := 0;
      var left := shelf.staging.Keys;
      ghost var abandoned: set<UploadId> := {};
      while left != {}
        invariant left <= shelf.staging.Keys
        invariant abandoned == set u | u in shelf.staging && u !in tickets && u !in left
        invariant AsSet(after) == AsSet(old(after)) + RemoveAll(abandoned) && removed == |abandoned|
        decreases left
      {
        var upload :| upload in left;
        left := left - {upload};
        if upload !in tickets {
          assert upload !in abandoned;
          Ask(RemoveStaging(upload));
          removed := removed + 1;
          RemoveAllGrows(abandoned, upload);
          abandoned := abandoned + {upload};
        }
      }
      assert abandoned == set u | u in shelf.staging && u !in tickets;
    }

    method AskForOrphans()
      modifies this`after, this`used
      ensures var orphans := Orphans(shelf.Contents(), old(Record()));
        && AsSet(after) == AsSet(old(after)) + (set g | g in orphans :: DropGeneration(g))
        && used == old(used) - orphans
    {
      var live := Record().Live();
      var left := set g | g in shelf.generations && shelf.generations[g] != map[];
      ghost var held := left;
      ghost var orphans: set<nat> := {};
      while left != {}
        invariant left <= held
        invariant orphans == set g | g in held && g !in live && g !in left
        invariant AsSet(after) == AsSet(old(after)) + set g | g in orphans :: DropGeneration(g)
        invariant used == old(used) - orphans
        decreases left
      {
        var g :| g in left;
        left := left - {g};
        if g !in live {
          Ask(DropGeneration(g));
          used := used - {g};
          assert (set h | h in orphans + {g} :: Cleanup.DropGeneration(h))
              == (set h | h in orphans :: Cleanup.DropGeneration(h)) + {Cleanup.DropGeneration(g)};
          orphans := orphans + {g};
        }
      }
      assert orphans == Orphans(shelf.Contents(), old(Record()));
    }

    // === items and settled encryption ===

    method DeleteItem(caller: Caller, partition: Partition, id: ItemId, expected: Option<KeyId>)
      returns (result: Result<Answer, ApiError>)
      modifies this`used, shelf
      ensures var decision := Protocol.DeleteItem(old(Stores()), caller, partition, id, expected);
        Makes(decision.change) && IsAnswer(result, decision.answer)
    {
      if caller.role == ReadOnly {
        return Err(ForbiddenRole);
      }
      var writable := CheckWritable(Record(), expected);
      if writable.Err? {
        return Err(writable.error);
      }
      var target := GenerationOf(Record(), partition);
      if target.None? {
        return Err(NotFound);
      }
      var g := target.value;
      var removed := shelf.Remove(g, id);
      if removed.None? {
        return Err(NotFound);
      }
      var before := if g in used then used[g] else 0;
      used := used[g := SaturatingSub(before, removed.value.size)];
      return Ok(Removed(removed.value));
    }

    method EnableEncryption(caller: Caller, seal: Seal) returns (result: Result<Answer, ApiError>)
      modifies this`state
      ensures var decision := Protocol.EnableEncryption(old(Stores()), caller, seal);
        Makes(decision.change) && IsAnswer(result, decision.answer)
    {
      var may := MaySettle(Record(), caller, seal.keyId);
      if may.Err? {
        return Err(may.error);
      }
      if may.value {
        var view := ShowEncryption();
        return Ok(Encryption(view));
      }
      var list := shelf.ListIds(generation);
      assert |list| == |shelf.Contents().Items(generation)|;
      if |list| != 0 {
        return Err(InvalidRequest);
      }
      result := SettleUnder(seal);
    }

    method FreshStart(caller: Caller, seal: Seal) returns (result: Result<Answer, ApiError>)
      modifies this`state, this`plain, this`generation, this`nextGeneration
      ensures var decision := Protocol.FreshStart(old(Stores()), caller, seal);
        Makes(decision.change) && IsAnswer(result, decision.answer)
    {
      var may := MaySettle(Record(), caller, seal.keyId);
      if may.Err? {
        return Err(may.error);
      }
      if may.value {
        var view := ShowEncryption();
        return Ok(Encryption(view));
      }
      var list := shelf.ListIds(generation);
      assert |list| == |shelf.Contents().Items(generation)|;
      if |list| != 0 {
        result := SetItemsAside(seal);
      } else {
        result := SettleUnder(seal);
      }
    }

    method SettleUnder(seal: Seal) returns (result: Result<Answer, ApiError>)
      modifies this`state
      ensures Makes(Settle(seal)) && result == Ok(Encryption(View(Stores())))
    {
      state := Settled(Some(seal));
      var view := ShowEncryption();
      return Ok(Encryption(view));
    }

    /** What was current is pointed to as plain, and the next generation as current. */
    method SetItemsAside(seal: Seal) returns (result: Result<Answer, ApiError>)
      modifies this`state, this`plain, this`generation, this`nextGeneration
      ensures Makes(SetAside(seal)) && result == Ok(Encryption(View(Stores())))
    {
      plain := Some(generation);
      generation := nextGeneration;
      nextGeneration := nextGeneration + 1;
      state := Settled(Some(seal));
      var view := ShowEncryption();
      return Ok(Encryption(view));
    }

    method ReplaceHeader(caller: Caller, expected: KeyId, header: seq<byte>) returns (result: Result<Answer, ApiError>)
      modifies this`state
      ensures var decision := Protocol.ReplaceHeader(old(Stores()), caller, Seal(expected, header));
        Makes(decision.change) && IsAnswer(result, decision.answer)
    {
      if caller.role == ReadOnly {
        return Err(ForbiddenRole);
      }
      match state
      case Rewriting(_) => return Err(RewriteInProgress);
      case Settled(None) => return Err(InvalidRequest);
      case Settled(Some(seal)) =>
        if seal.keyId != expected {
          return Err(KeyIdMismatch);
        }
        result := SettleUnder(seal.(header := header));
    }

    // === the rewrite session ===

    method RenewLease(holder: ApiKeyId)
      modifies this`state
      ensures Makes(Renew(holder, now + site.limits.leaseSecs))
    {
      match state
      case Settled(_) =>
      case Rewriting(session) =>
        state := Rewriting(session.(holder := holder, leaseExpiresAt := now + site.limits.leaseSecs));
    }

    method AnswerWithSession() returns (result: Result<Answer, ApiError>)
      ensures IsAnswer(result, AnswerSession(Stores()))
    {
      var view := ShowSession();
      match view
      case Some(session) => return Ok(SessionOpen(session));
      case None => return Err(NotFound);
    }

    /** The common end of a heartbeat, of a take-over and of a begin that is
        repeated. */
    method RenewAndShow(caller: Caller) returns (result: Result<Answer, ApiError>)
      modifies this`state
      ensures var decision := Renewed(site, now, old(Stores()), caller);
        Makes(decision.change) && IsAnswer(result, decision.answer)
    {
      ghost var decision := Renewed(site, now, Stores(), caller);
      RenewLease(caller.key);
      assert Makes(decision.change);
      result := AnswerWithSession();
      assert IsAnswer(result, decision.answer);
    }

    /** Records the session and uses up one generation number. */
    method OpenNext(session: Session) returns (result: Result<Answer, ApiError>)
      requires session.stagedGeneration == nextGeneration
      modifies this`state, this`nextGeneration
      ensures Makes(OpenSession(session)) && IsAnswer(result, AnswerSession(Stores()))
    {
      nextGeneration := nextGeneration + 1;
      state := Rewriting(session);
      result := AnswerWithSession();
    }

    method BeginRewrite(caller: Caller, r: RewriteRequest) returns (result: Result<Answer, ApiError>)
      modifies this`state, this`nextGeneration
      ensures var decision := Protocol.BeginRewrite(site, now, old(Stores()), caller, r);
        Makes(decision.change) && IsAnswer(result, decision.answer)
    {
      if caller.role == ReadOnly {
        return Err(ForbiddenRole);
      }
      match state
      case Rewriting(session) =>
        if !(session.holder == caller.key && session.kind == r.kind && session.next.keyId == r.newKeyId) {
          return Err(RewriteInProgress);
        }
        result := RenewAndShow(caller);
      case Settled(prior) =>
        result := BeginOnSettled(caller, r, prior);
    }

    method BeginOnSettled(caller: Caller, r: RewriteRequest, prior: Option<Seal>)
      returns (result: Result<Answer, ApiError>)
      requires state == Settled(prior) && caller.role == ReadWrite
      modifies this`state, this`nextGeneration
      ensures var decision := Protocol.BeginRewrite(site, now, old(Stores()), caller, r);
        Makes(decision.change) && IsAnswer(result, decision.answer)
    {
      if r.kind.Migrate? != prior.None? {
        return Err(InvalidRequest);
      }
      if r.newKeyId in endedRewrites {
        return Err(RewriteEnded);
      }
      if Record().SealKey() != r.expectedKeyId {
        return Err(KeyIdMismatch);
      }
      if Record().SealKey() == Some(r.newKeyId) {
        return Err(InvalidRequest);
      }
      var session := Session(
        r.kind, prior, Seal(r.newKeyId, r.newHeader), caller.key, now + site.limits.leaseSecs, nextGeneration);
      OpensWhenNothingRefuses(site, now, Stores(), caller, r, session);
      result := OpenNext(session);
    }

    method HeartbeatRewrite(caller: Caller) returns (result: Result<Answer, ApiError>)
      modifies this`state
      ensures var decision := Protocol.HeartbeatRewrite(site, now, old(Stores()), caller);
        Makes(decision.change) && IsAnswer(result, decision.answer)
    {
      if caller.role == ReadOnly {
        return Err(ForbiddenRole);
      }
      var held := HeldSession(Record(), caller);
      if held.Err? {
        return Err(held.error);
      }
      result := RenewAndShow(caller);
    }

    method TakeOverRewrite(caller: Caller) returns (result: Result<Answer, ApiError>)
      modifies this`state
      ensures var decision := Protocol.TakeOverRewrite(site, now, old(Stores()), caller);
        Makes(decision.change) && IsAnswer(result, decision.answer)
    {
      if caller.role == ReadOnly {
        return Err(ForbiddenRole);
      }
      match state
      case Settled(_) => return Err(NotFound);
      case Rewriting(session) =>
        if session.holder != caller.key && session.leaseExpiresAt > now {
          return Err(LeaseHeld);
        }
        result := RenewAndShow(caller);
    }

    method StagedItemIds(caller: Caller) returns (result: Result<seq<ItemId>, ApiError>)
      ensures result == Protocol.StagedItemIds(Stores(), caller)
    {
      var held := HeldSession(Record(), caller);
      if held.Err? {
        return Err(held.error);
      }
      var list := shelf.ListIds(held.value.stagedGeneration);
      return Ok(list);
    }

    method StagedItem(caller: Caller, id: ItemId) returns (result: Result<Item, ApiError>)
      ensures result == Protocol.StagedItem(Stores(), caller, id)
    {
      var held := HeldSession(Record(), caller);
      if held.Err? {
        return Err(held.error);
      }
      var item := shelf.Get(held.value.stagedGeneration, id);
      match item
      case Some(found) => return Ok(found);
      case None => return Err(NotFound);
    }

    method CommitRewrite(caller: Caller, newKeyId: KeyId) returns (result: Result<Answer, ApiError>)
      modifies this
      ensures var decision := Protocol.CommitRewrite(old(Stores()), caller, newKeyId);
        Makes(decision.change) && IsAnswer(result, decision.answer)
    {
      if caller.role == ReadOnly {
        return Err(ForbiddenRole);
      }
      match state
      case Settled(_) =>
        if Record().SealKey() != Some(newKeyId) {
          return Err(NotFound);
        }
        var view := ShowEncryption();
        return Ok(Encryption(view));
      case Rewriting(session) =>
        if session.holder != caller.key {
          return Err(LeaseHeld);
        }
        if session.next.keyId != newKeyId {
          return Err(KeyIdMismatch);
        }
        var stagedIds := shelf.ListIds(session.stagedGeneration);
        var sourceIds := shelf.ListIds(generation);
        if |stagedIds| != |sourceIds| {
          return Err(RewriteIncomplete(|stagedIds|, |sourceIds|));
        }
        result := SwitchOver(session);
    }

    /** One assignment each for the pointer and the seal, in one transaction. */
    method SwitchOver(session: Session) returns (result: Result<Answer, ApiError>)
      requires state == Rewriting(session)
      modifies this
      ensures Makes(Switch) && result == Ok(Encryption(View(Stores())))
    {
      var before := generation;
      generation := session.stagedGeneration;
      state := Settled(Some(session.next));
      used := used - {before};
      Ask(DropGeneration(before));
      DropRewriteUploads();
      SwitchIsPointAndDrop(old(Stores()));
      assert Stores() == Apply(Switch, old(Stores()));
      var view := ShowEncryption();
      return Ok(Encryption(view));
    }

    method AbortRewrite(caller: Caller, newKeyId: KeyId) returns (result: Result<Answer, ApiError>)
      modifies this
      ensures var decision := Protocol.AbortRewrite(old(Stores()), caller, newKeyId);
        Makes(decision.change) && IsAnswer(result, decision.answer)
    {
      if caller.role == ReadOnly {
        return Err(ForbiddenRole);
      }
      match state
      case Settled(_) =>
        var view := ShowEncryption();
        return Ok(Encryption(view));
      case Rewriting(session) =>
        if session.holder != caller.key {
          return Err(LeaseHeld);
        }
        if session.next.keyId != newKeyId {
          return Err(KeyIdMismatch);
        }
        result := EndAborted(session);
    }

    method EndAborted(session: Session) returns (result: Result<Answer, ApiError>)
      requires state == Rewriting(session)
      modifies this
      ensures Makes(Change.EndAborted) && result == Ok(Encryption(View(Stores())))
    {
      SettleAsBefore(session);
      var view := ShowEncryption();
      return Ok(Encryption(view));
    }

    method SettleAsBefore(session: Session)
      requires state == Rewriting(session)
      modifies this
      ensures Makes(Change.EndAborted)
    {
      endedRewrites := endedRewrites + {session.next.keyId};
      state := Settled(session.prior);
      used := used - {session.stagedGeneration};
      Ask(DropGeneration(session.stagedGeneration));
      DropRewriteUploads();
      EndIsSettleAndDrop(old(Stores()));
    }

    method OperatorAbort(force: bool) returns (result: Result<Answer, ApiError>)
      modifies this
      ensures var decision := Protocol.OperatorAbort(now, old(Stores()), force);
        Makes(decision.change) && IsAnswer(result, decision.answer)
    {
      match state
      case Settled(_) => return Err(NotFound);
      case Rewriting(session) =>
        if !force && session.leaseExpiresAt > now {
          return Err(LeaseHeld);
        }
        result := EndAborted(session);
    }
  }

  lemma BeginsUnstored(site: Site, now: nat, st: Store, caller: Caller, request: UploadRequest, drawn: UploadId,
          generation: nat)
    requires caller.role == ReadWrite && UploadTarget(st.rec, caller, request) == Ok(generation)
    requires site.limits.maxItemBytes.Some? ==> request.size <= site.limits.maxItemBytes.value
    requires FindIn(st.shelf.Items(generation), request.id.ContentKey()).None?
    ensures var decision := Protocol.BeginUpload(site, now, st, caller, request, drawn);
      var live := LiveTicketsFor(st.rec, now, caller.key, request);
      var ticket := Ticket(caller.key, request, now + site.limits.stagingSecs);
      if live != {} then
        exists u <- live :: decision == Decision(Restage(u), Begun(u, st.rec.tickets[u].expiresAt))
      else if
        SaturatingAdd(Held(st.rec, now, generation, request.inRewrite), request.size) > site.limits.quotaBytes
      then
        decision == Refusal(QuotaExceeded)
      else decision == Decision(Change.Issue(drawn, ticket), Begun(drawn, ticket.expiresAt))
  {
  }

  lemma OpensWhenNothingRefuses(site: Site, now: nat, st: Store, caller: Caller, r: RewriteRequest, session: Session)
    requires caller.role == ReadWrite && st.rec.state.Settled?
    requires r.kind.Migrate? == st.rec.state.seal.None? && r.newKeyId !in st.rec.endedRewrites
    requires st.rec.SealKey() == r.expectedKeyId && st.rec.SealKey() != Some(r.newKeyId)
    requires session == Session(r.kind, st.rec.state.seal, Seal(r.newKeyId, r.newHeader), caller.key,
                                now + site.limits.leaseSecs, st.rec.nextGeneration)
    ensures Protocol.BeginRewrite(site, now, st, caller, r)
      == Decision(OpenSession(session), AnswerSession(Apply(OpenSession(session), st)))
  {
  }

  /** A rule's result is the answer that was decided. */
  ghost predicate IsAnswer(result: Result<Answer, ApiError>, answer: Answer) {
    match answer
    case Refused(e) => result == Err(e)
    case _ => result == Ok(answer)
  }
}
