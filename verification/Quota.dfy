/** The quota over whole runs, deaths included: what is stored, plus what has
    been promised and not yet published, stays within it. */
module Quota {
  import opened Wrappers
  import opened Ids
  import opened Sums
  import opened Stores
  import opened Protocol
  import opened Changes
  import opened World
  import opened Invariants
  import opened Preservation
  import opened Runs

  /** The promises that are counted together. */
  datatype Kind =
    | ForRewrite      // uploads of the open rewrite
    | Ordinary        // all the others
    | ForCurrent      // those of the others that are under the workspace's key

  predicate Counts(kind: Kind, rec: WorkspaceRecord, request: UploadRequest) {
    match kind
    case ForRewrite => request.inRewrite
    case Ordinary => !request.inRewrite
    case ForCurrent => !request.inRewrite && request.expectedKeyId == rec.SealKey()
  }

  /** The item an upload published stands, though no record says so yet. */
  predicate Standing(hist: History, u: UploadId) { u in hist.places && u !in hist.gone }

  /** Live uploads that may still publish. */
  function Owing(kind: Kind, rec: WorkspaceRecord, now: nat, hist: History): set<UploadId> {
    set u | u in rec.tickets && IsLive(rec.tickets[u], now) && Counts(kind, rec, rec.tickets[u].request)
      && !Standing(hist, u)
  }

  function Sizes(tickets: map<UploadId, Ticket>, owing: set<UploadId>): map<UploadId, nat> {
    map u | u in owing && u in tickets :: tickets[u].request.size
  }

  ghost function Owed(kind: Kind, rec: WorkspaceRecord, now: nat, hist: History): nat {
    Sum(Sizes(rec.tickets, Owing(kind, rec, now, hist)))
  }

  // === how promises change ===

  ghost predicate SameTickets(rec: WorkspaceRecord, later: WorkspaceRecord, owing: set<UploadId>) {
    forall u <- owing :: u in rec.tickets && u in later.tickets && later.tickets[u] == rec.tickets[u]
  }

  lemma OwedShrinks(kind: Kind, rec: WorkspaceRecord, now: nat, hist: History, later: WorkspaceRecord, then_: nat,
          after: History)
    requires Owing(kind, later, then_, after) <= Owing(kind, rec, now, hist)
    requires SameTickets(rec, later, Owing(kind, later, then_, after))
    ensures Owed(kind, later, then_, after) <= Owed(kind, rec, now, hist)
  {
    SumMonotone(Sizes(later.tickets, Owing(kind, later, then_, after)),
      Sizes(rec.tickets, Owing(kind, rec, now, hist)));
  }

  /** One more upload may publish. */
  lemma OwedGrowsByOne(kind: Kind, rec: WorkspaceRecord, now: nat, hist: History, later: WorkspaceRecord, then_: nat,
          after: History, u: UploadId)
    requires u in later.tickets
    requires Owing(kind, later, then_, after) - {u} <= Owing(kind, rec, now, hist)
    requires SameTickets(rec, later, Owing(kind, later, then_, after) - {u})
    ensures Owed(kind, later, then_, after) <= Owed(kind, rec, now, hist) + later.tickets[u].request.size
  {
    var sizes := Sizes(later.tickets, Owing(kind, later, then_, after));
    if u in sizes {
      SumTakeOut(sizes, u);
    }
    assert u !in sizes ==> sizes - {u} == sizes;
    SumMonotone(sizes - {u}, Sizes(rec.tickets, Owing(kind, rec, now, hist)));
  }

  /** One upload no longer may. */
  lemma OwedDropsByOne(kind: Kind, rec: WorkspaceRecord, now: nat, hist: History, later: WorkspaceRecord, then_: nat,
          after: History, u: UploadId)
    requires u in Owing(kind, rec, now, hist)
    requires Owing(kind, later, then_, after) <= Owing(kind, rec, now, hist) - {u}
    requires SameTickets(rec, later, Owing(kind, later, then_, after))
    ensures Owed(kind, later, then_, after) + rec.tickets[u].request.size <= Owed(kind, rec, now, hist)
  {
    var sizes := Sizes(rec.tickets, Owing(kind, rec, now, hist));
    SumTakeOut(sizes, u);
    SumMonotone(Sizes(later.tickets, Owing(kind, later, then_, after)), sizes - {u});
  }

  lemma NothingOwed(kind: Kind, rec: WorkspaceRecord, now: nat, hist: History)
    requires Owing(kind, rec, now, hist) == {}
    ensures Owed(kind, rec, now, hist) == 0
  {
  }

  /** What is owed is reserved. */
  lemma OwedIsReserved(rec: WorkspaceRecord, now: nat, hist: History)
    ensures Owed(ForRewrite, rec, now, hist) <= Reserved(rec.tickets, now, true)
    ensures Owed(Ordinary, rec, now, hist) <= Reserved(rec.tickets, now, false)
    ensures Owed(ForCurrent, rec, now, hist) <= Reserved(rec.tickets, now, false)
  {
    SumMonotone(Sizes(rec.tickets, Owing(ForRewrite, rec, now, hist)), Promised(rec.tickets, now, true));
    SumMonotone(Sizes(rec.tickets, Owing(Ordinary, rec, now, hist)), Promised(rec.tickets, now, false));
    SumMonotone(Sizes(rec.tickets, Owing(ForCurrent, rec, now, hist)), Promised(rec.tickets, now, false));
  }

  /** The saturating comparison the code makes is the true one, unless the
      quota is the largest number there is. */
  lemma SaturatingIsTrue(a: nat, b: nat, size: nat, quota: nat)
    requires quota < U64_MAX
    ensures SaturatingAdd(SaturatingAdd(a, b), size) <= quota <==> a + b + size <= quota
  {
  }

  /** With that quota no upload is ever refused for it. */
  lemma LargestQuotaRefusesNothing(site: Site, now: nat, st: Store, caller: Caller, request: UploadRequest,
          drawn: UploadId)
    requires site.limits.quotaBytes == U64_MAX
    ensures BeginUpload(site, now, st, caller, request, drawn).answer != Refused(QuotaExceeded)
  {
  }

  /** With any other, an upload that meets nothing else in its way is refused
      exactly when the bytes on the shelf, those promised and its own are more
      than the quota. */
  lemma QuotaRefusesExactly(site: Site, w: World, caller: Caller, request: UploadRequest, drawn: UploadId,
          generation: nat)
    requires Reachable(site, w) && w.up && site.limits.quotaBytes < U64_MAX
    requires caller.role == ReadWrite && UploadTarget(w.store.rec, caller, request) == Ok(generation)
    requires site.limits.maxItemBytes.Some? ==> request.size <= site.limits.maxItemBytes.value
    requires FindIn(w.store.shelf.Items(generation), request.id.ContentKey()).None?
    requires LiveTicketsFor(w.store.rec, w.now, caller.key, request) == {}
    ensures var stored := w.store.shelf.Bytes(generation)
      + (if request.inRewrite then 0 else Stored(w, w.store.rec.plain));
      var answer := BeginUpload(site, w.now, w.store, caller, request, drawn).answer;
      if stored + Reserved(w.store.rec.tickets, w.now, request.inRewrite) + request.size > site.limits.quotaBytes
      then answer == Refused(QuotaExceeded)
      else answer == Begun(drawn, w.now + site.limits.stagingSecs)
  {
    var rec := w.store.rec;
    ReachableHasInv(site, w);
    TargetsWhatItTargets(rec, caller, request);
    assert generation in rec.Live() && (rec.plain.Some? ==> rec.plain.value in rec.Live());
    assert !request.inRewrite ==> generation == rec.generation && StagedBytes(rec) == 0;
    var stored := w.store.shelf.Bytes(generation) + (if request.inRewrite then 0 else Stored(w, rec.plain));
    SaturatingIsTrue(stored, Reserved(rec.tickets, w.now, request.inRewrite), request.size, site.limits.quotaBytes);
  }

  // === the bounds ===

  ghost function Stored(w: World, generation: Option<nat>): nat {
    if generation.None? then 0 else w.store.shelf.Bytes(generation.value)
  }

  function StagedGeneration(rec: WorkspaceRecord): Option<nat> {
    if rec.state.Rewriting? then Some(rec.state.session.stagedGeneration) else None
  }

  /** The staged generation, with what may still go into it. */
  ghost function StagedTotal(w: World): nat {
    Stored(w, StagedGeneration(w.store.rec)) + Owed(ForRewrite, w.store.rec, w.now, w.hist)
  }

  /** The current generation, with what may still go into it. */
  ghost function CurrentTotal(w: World): nat {
    Stored(w, Some(w.store.rec.generation)) + Owed(ForCurrent, w.store.rec, w.now, w.hist)
  }

  /** Current and plain items with every ordinary promise. */
  ghost function OrdinaryTotal(w: World): nat {
    Stored(w, Some(w.store.rec.generation)) + Stored(w, w.store.rec.plain) + Owed(Ordinary, w.store.rec, w.now, w.hist)
  }

  /** Current and plain items, with what may still be committed into the
      current generation: what is left of the workspace when no rewrite is open. */
  ghost function SettledTotal(w: World): nat {
    CurrentTotal(w) + Stored(w, w.store.rec.plain)
  }

  /** Nothing stored and nothing that may be has grown. */
  ghost predicate NoMore(w: World, w': World) {
    && StagedTotal(w') <= StagedTotal(w) && CurrentTotal(w') <= CurrentTotal(w)
    && OrdinaryTotal(w') <= OrdinaryTotal(w) && Stored(w', w'.store.rec.plain) <= Stored(w, w.store.rec.plain)
  }

  // === promises under a key ===

  ghost predicate IsUnder(ticket: Ticket, now: nat, keys: iset<Option<KeyId>>) {
    IsLive(ticket, now) && !ticket.request.inRewrite && ticket.request.expectedKeyId in keys
  }

  ghost function PromisedUnder(tickets: map<UploadId, Ticket>, now: nat, keys: iset<Option<KeyId>>): map<UploadId, nat>
  {
    map u | u in tickets && IsUnder(tickets[u], now, keys) :: tickets[u].request.size
  }

  /** Bytes promised to live ordinary uploads under one of these keys. */
  ghost function ReservedUnder(tickets: map<UploadId, Ticket>, now: nat, keys: iset<Option<KeyId>>): nat {
    Sum(PromisedUnder(tickets, now, keys))
  }

  lemma ReservedUnderIsReserved(tickets: map<UploadId, Ticket>, now: nat, keys: iset<Option<KeyId>>)
    ensures ReservedUnder(tickets, now, keys) <= Reserved(tickets, now, false)
  {
    SumMonotone(PromisedUnder(tickets, now, keys), Promised(tickets, now, false));
  }

  lemma FewerAreReserved(tickets: map<UploadId, Ticket>, now: nat, keys: iset<Option<KeyId>>,
          later: map<UploadId, Ticket>, then_: nat, more: iset<Option<KeyId>>)
    requires now <= then_ && keys <= more
    requires forall u <- later :: u in tickets && later[u] == tickets[u]
    ensures ReservedUnder(later, then_, keys) <= ReservedUnder(tickets, now, more)
  {
    SumMonotone(PromisedUnder(later, then_, keys), PromisedUnder(tickets, now, more));
  }

  // === a publish, whole or half ===

  /** What was promised becomes stored. */
  lemma PublishOwing(site: Site, w: World, change: Change, w': World, kind: Kind)
    requires Inv(site, w) && change.Publish? && Justified(site, w.now, w.store, change)
    requires w' == Making(change, w) || w' == HalfMaking(change, w)
    ensures Owed(kind, w'.store.rec, w'.now, w'.hist) <= Owed(kind, w.store.rec, w.now, w.hist)
    ensures Counts(kind, w.store.rec, w.store.rec.tickets[change.upload].request) ==>
      Owed(kind, w'.store.rec, w'.now, w'.hist) + change.size <= Owed(kind, w.store.rec, w.now, w.hist)
  {
    var u := change.upload;
    PublishTakesOffOwing(site, w, change, w', kind);
    if Counts(kind, w.store.rec, w.store.rec.tickets[u].request) {
      OwedDropsByOne(kind, w.store.rec, w.now, w.hist, w'.store.rec, w'.now, w'.hist, u);
    } else {
      OwedShrinks(kind, w.store.rec, w.now, w.hist, w'.store.rec, w'.now, w'.hist);
    }
  }

  lemma PublishTakesOffOwing(site: Site, w: World, change: Change, w': World, kind: Kind)
    requires Inv(site, w) && change.Publish? && Justified(site, w.now, w.store, change)
    requires w' == Making(change, w) || w' == HalfMaking(change, w)
    ensures var before, after := Owing(kind, w.store.rec, w.now, w.hist), Owing(kind, w'.store.rec, w'.now, w'.hist);
      && after <= before - {change.upload} && SameTickets(w.store.rec, w'.store.rec, after)
      && (Counts(kind, w.store.rec, w.store.rec.tickets[change.upload].request) ==> change.upload in before)
  {
    PublisherWasNotStanding(site, w, change);
    assert w'.hist.places == w.hist.places[change.upload := (change.generation, change.id)];
    assert w'.hist.gone == w.hist.gone - {change.upload};
  }

  /** What is published now does not stand already. */
  lemma PublisherWasNotStanding(site: Site, w: World, change: Change)
    requires Inv(site, w) && change.Publish? && Justified(site, w.now, w.store, change)
    ensures !Standing(w.hist, change.upload)
  {
    assert change.id !in WithKey(w.store.shelf.Items(change.generation), change.id.ContentKey());
    if Standing(w.hist, change.upload) {
      StandsInTarget(w.store, w.pending, w.hist, change.upload, change.generation);
    }
  }

  lemma PublishStores(site: Site, w: World, change: Change, g: nat)
    requires Inv(site, w) && change.Publish? && Justified(site, w.now, w.store, change)
    ensures ShelfAfter(change, w.store.shelf).Bytes(g)
      == w.store.shelf.Bytes(g) + if g == change.generation then change.size else 0
  {
    var items := w.store.shelf.Items(change.generation);
    assert change.id !in WithKey(items, change.id.ContentKey());
    BytesOfPutIn(items, change.id, Item(w.store.shelf.staging[change.upload].content, change.envelope));
  }

  lemma PublishStored(site: Site, w: World, change: Change, w': World, g: Option<nat>)
    requires Inv(site, w) && change.Publish? && Justified(site, w.now, w.store, change)
    requires w' == Making(change, w) || w' == HalfMaking(change, w)
    ensures Stored(w', g) == Stored(w, g) + if g == Some(change.generation) then change.size else 0
  {
    if g.Some? {
      PublishStores(site, w, change, g.value);
    }
  }

  lemma PublishKeepsStaged(site: Site, w: World, change: Change, w': World)
    requires Inv(site, w) && change.Publish? && Justified(site, w.now, w.store, change)
    requires w' == Making(change, w) || w' == HalfMaking(change, w)
    ensures StagedTotal(w') <= StagedTotal(w) && Stored(w', w'.store.rec.plain) <= Stored(w, w.store.rec.plain)
  {
    PublishOwing(site, w, change, w', ForRewrite);
    PublishStored(site, w, change, w', w.store.rec.plain);
    PublishStored(site, w, change, w', StagedGeneration(w.store.rec));
  }

  lemma PublishKeepsCurrent(site: Site, w: World, change: Change, w': World)
    requires Inv(site, w) && change.Publish? && Justified(site, w.now, w.store, change)
    requires w' == Making(change, w) || w' == HalfMaking(change, w)
    ensures CurrentTotal(w') <= CurrentTotal(w)
  {
    PublishOwing(site, w, change, w', ForCurrent);
    PublishStored(site, w, change, w', Some(w.store.rec.generation));
  }

  lemma PublishKeepsOrdinary(site: Site, w: World, change: Change, w': World)
    requires Inv(site, w) && change.Publish? && Justified(site, w.now, w.store, change)
    requires w' == Making(change, w) || w' == HalfMaking(change, w)
    ensures OrdinaryTotal(w') <= OrdinaryTotal(w)
  {
    PublishOwing(site, w, change, w', Ordinary);
    PublishStored(site, w, change, w', Some(w.store.rec.generation));
    PublishStored(site, w, change, w', w.store.rec.plain);
  }

  lemma PublishKeepsTotals(site: Site, w: World, change: Change, w': World)
    requires Inv(site, w) && change.Publish? && Justified(site, w.now, w.store, change)
    requires w' == Making(change, w) || w' == HalfMaking(change, w)
    ensures NoMore(w, w')
  {
    PublishKeepsStaged(site, w, change, w');
    PublishKeepsCurrent(site, w, change, w');
    PublishKeepsOrdinary(site, w, change, w');
  }

  // === a removal, whole or half ===

  /** What was stored becomes owed again at most, if its upload never heard. */
  lemma RemoveOwing(site: Site, w: World, change: Change, w': World, kind: Kind)
    requires Inv(site, w) && change.Remove? && Justified(site, w.now, w.store, change)
    requires w' == Making(change, w) || w' == HalfMaking(change, w)
    ensures var item := w.store.shelf.Items(change.generation)[change.id];
      && Owed(kind, w'.store.rec, w'.now, w'.hist) <= Owed(kind, w.store.rec, w.now, w.hist) + |item.content|
      && (kind == ForRewrite || (kind == ForCurrent && item.envelope.under != w.store.rec.SealKey()) ==>
            Owed(kind, w'.store.rec, w'.now, w'.hist) <= Owed(kind, w.store.rec, w.now, w.hist))
  {
    var item := w.store.shelf.Items(change.generation)[change.id];
    assert MadeBySomeone(w.hist, (change.generation, change.id));
    var maker := w.hist.makers[(change.generation, change.id)];
    assert StandsAsMade(w.store.shelf, w.store.rec, w.hist, maker);
    assert w'.hist.places == w.hist.places && w'.hist.gone == w.hist.gone + {maker};
    assert w'.store.rec.tickets == w.store.rec.tickets && w'.store.rec.state == w.store.rec.state;
    assert Owing(kind, w'.store.rec, w'.now, w'.hist) - {maker} <= Owing(kind, w.store.rec, w.now, w.hist);
    if maker in w.store.rec.tickets && Counts(kind, w.store.rec, w.store.rec.tickets[maker].request) {
      OwedGrowsByOne(kind, w.store.rec, w.now, w.hist, w'.store.rec, w'.now, w'.hist, maker);
    } else {
      OwedShrinks(kind, w.store.rec, w.now, w.hist, w'.store.rec, w'.now, w'.hist);
    }
  }

  lemma RemoveStores(site: Site, w: World, change: Change, g: nat)
    requires change.Remove? && Justified(site, w.now, w.store, change)
    ensures var item := w.store.shelf.Items(change.generation)[change.id];
      w.store.shelf.Bytes(g)
      == ShelfAfter(change, w.store.shelf).Bytes(g) + if g == change.generation then |item.content| else 0
  {
    BytesOfTakeOut(w.store.shelf.Items(change.generation), change.id);
  }

  lemma RemoveKeepsTotals(site: Site, w: World, change: Change, w': World)
    requires Inv(site, w) && change.Remove? && Justified(site, w.now, w.store, change)
    requires w' == Making(change, w) || w' == HalfMaking(change, w)
    ensures NoMore(w, w')
  {
    RemoveOwing(site, w, change, w', ForRewrite);
    RemoveOwing(site, w, change, w', ForCurrent);
    RemoveOwing(site, w, change, w', Ordinary);
    RemoveStores(site, w, change, w.store.rec.generation);
    if w.store.rec.plain.Some? {
      RemoveStores(site, w, change, w.store.rec.plain.value);
    }
  }

  // === a ticket ===

  lemma IssueOwing(site: Site, w: World, change: Change, kind: Kind)
    requires Inv(site, w) && change.Issue? && Justified(site, w.now, w.store, change)
    ensures var w' := Making(change, w);
      && Owed(kind, w'.store.rec, w'.now, w'.hist)
         <= Owed(kind, w.store.rec, w.now, w.hist) + change.ticket.request.size
      && (!Counts(kind, w.store.rec, change.ticket.request) && change.upload !in w.store.rec.tickets ==>
            Owed(kind, w'.store.rec, w'.now, w'.hist) <= Owed(kind, w.store.rec, w.now, w.hist))
  {
    var w' := Making(change, w);
    OwedGrowsByOne(kind, w.store.rec, w.now, w.hist, w'.store.rec, w'.now, w'.hist, change.upload);
    if !Counts(kind, w.store.rec, change.ticket.request) && change.upload !in w.store.rec.tickets {
      OwedShrinks(kind, w.store.rec, w.now, w.hist, w'.store.rec, w'.now, w'.hist);
    }
  }

  /** A ticket is issued only when what is on the books and promised beside it
      leaves room for it. */
  lemma IssueReserves(site: Site, w: World, change: Change)
    requires Inv(site, w) && w.up && change.Issue? && Justified(site, w.now, w.store, change)
    requires site.limits.quotaBytes < U64_MAX
    ensures var request := change.ticket.request;
      if request.inRewrite
      then
        Stored(w, StagedGeneration(w.store.rec)) + Reserved(w.store.rec.tickets, w.now, true) + request.size
        <= site.limits.quotaBytes
      else Stored(w, Some(w.store.rec.generation)) + Stored(w, w.store.rec.plain)
           + Reserved(w.store.rec.tickets, w.now, false) + request.size <= site.limits.quotaBytes
  {
    var request := change.ticket.request;
    var generation :| Targets(w.store.rec, request, generation)
      && HasRoom(site, w.now, w.store.rec, generation, request);
    assert generation in w.store.rec.Live() && w.store.rec.generation in w.store.rec.Live();
    var stored := if request.inRewrite then w.store.rec.UsedOf(generation)
      else UsedBytes(w.store.rec) - StagedBytes(w.store.rec);
    SaturatingIsTrue(stored, Reserved(w.store.rec.tickets, w.now, request.inRewrite), request.size,
      site.limits.quotaBytes);
    if w.store.rec.plain.Some? {
      assert w.store.rec.plain.value in w.store.rec.Live();
    }
  }

  lemma IssueHasRoom(site: Site, w: World, change: Change)
    requires Inv(site, w) && w.up && change.Issue? && Justified(site, w.now, w.store, change)
    requires site.limits.quotaBytes < U64_MAX
    ensures var size := change.ticket.request.size;
      if change.ticket.request.inRewrite then StagedTotal(w) + size <= site.limits.quotaBytes
      else OrdinaryTotal(w) + size <= site.limits.quotaBytes && SettledTotal(w) + size <= site.limits.quotaBytes
  {
    IssueReserves(site, w, change);
    OwedIsReserved(w.store.rec, w.now, w.hist);
  }

  lemma IssueStoresNothing(w: World, change: Change, g: Option<nat>)
    requires change.Issue?
    ensures Stored(Making(change, w), g) == Stored(w, g)
  {
  }

  lemma IssueKeepsWithin(site: Site, w: World, change: Change)
    requires Inv(site, w) && w.up && change.Issue? && Justified(site, w.now, w.store, change)
    requires change.upload !in w.store.rec.tickets && site.limits.quotaBytes < U64_MAX
    ensures var w' := Making(change, w);
      && StagedTotal(w') <= (if change.ticket.request.inRewrite then site.limits.quotaBytes else StagedTotal(w))
      && SettledTotal(w') <= (if change.ticket.request.inRewrite then SettledTotal(w) else site.limits.quotaBytes)
      && OrdinaryTotal(w') <= (if change.ticket.request.inRewrite then OrdinaryTotal(w) else site.limits.quotaBytes)
      && Stored(w', w'.store.rec.plain) == Stored(w, w.store.rec.plain)
  {
    IssueHasRoom(site, w, change);
    IssueOwing(site, w, change, ForRewrite);
    IssueOwing(site, w, change, ForCurrent);
    IssueOwing(site, w, change, Ordinary);
    IssueStoresNothing(w, change, Some(w.store.rec.generation));
    IssueStoresNothing(w, change, w.store.rec.plain);
    IssueStoresNothing(w, change, StagedGeneration(w.store.rec));
  }

  // === every other change ===

  /** Changes of the record alone that leave the workspace's key as it is. */
  predicate Plainly(change: Change) {
    !change.Publish? && !change.Remove? && !change.Issue? && !change.Settle? && !change.SetAside? && !change.Switch?
  }

  /** No ordinary upload stands in a staged generation. */
  lemma StagedIsByRewrite(site: Site, w: World, u: UploadId)
    requires Inv(site, w) && w.store.rec.state.Rewriting? && Standing(w.hist, u)
    requires w.hist.places[u].0 == w.store.rec.state.session.stagedGeneration
    ensures w.hist.issued[u].request.inRewrite
  {
    assert StandsAsMade(w.store.shelf, w.store.rec, w.hist, u);
  }

  lemma PlainlyOwing(site: Site, w: World, change: Change, kind: Kind)
    requires Inv(site, w) && Plainly(change) && Justified(site, w.now, w.store, change)
    ensures var w' := Making(change, w);
      Owing(kind, w'.store.rec, w'.now, w'.hist) <= Owing(kind, w.store.rec, w.now, w.hist)
      && SameTickets(w.store.rec, w'.store.rec, Owing(kind, w'.store.rec, w'.now, w'.hist))
  {
    var w' := Making(change, w);
    forall u <- Owing(kind, w'.store.rec, w'.now, w'.hist) ensures u in Owing(kind, w.store.rec, w.now, w.hist) {
      if change.EndAborted? && Standing(w.hist, u) && !Standing(w'.hist, u) {
        StagedIsByRewrite(site, w, u);
      }
    }
  }

  lemma PlainlyKeepsTotals(site: Site, w: World, change: Change)
    requires Inv(site, w) && Plainly(change) && Justified(site, w.now, w.store, change)
    ensures NoMore(w, Making(change, w))
  {
    var w' := Making(change, w);
    PlainlyOwing(site, w, change, ForRewrite);
    PlainlyOwing(site, w, change, ForCurrent);
    PlainlyOwing(site, w, change, Ordinary);
    OwedShrinks(ForRewrite, w.store.rec, w.now, w.hist, w'.store.rec, w'.now, w'.hist);
    OwedShrinks(ForCurrent, w.store.rec, w.now, w.hist, w'.store.rec, w'.now, w'.hist);
    OwedShrinks(Ordinary, w.store.rec, w.now, w.hist, w'.store.rec, w'.now, w'.hist);
    if change.OpenSession? {
      NoBytes(w.store.shelf, w.store.rec.nextGeneration);
    }
  }

  lemma NoRewriteNoPromise(site: Site, w: World)
    requires Inv(site, w) && w.store.rec.state.Settled?
    ensures StagedTotal(w) == 0
  {
    NothingOwed(ForRewrite, w.store.rec, w.now, w.hist);
  }

  /** A workspace sealed, its header replaced, or its items set aside. */
  lemma SealingKeepsTotals(site: Site, w: World, change: Change)
    requires Inv(site, w) && w.up && (change.Settle? || change.SetAside?) && Justified(site, w.now, w.store, change)
    requires Inv(site, Making(change, w))
    ensures var w' := Making(change, w);
      && StagedTotal(w') == 0 && OrdinaryTotal(w') <= OrdinaryTotal(w) && SettledTotal(w') <= SettledTotal(w)
      && Stored(w', w'.store.rec.plain) <= (if change.SetAside? then CurrentTotal(w) else Stored(w, w.store.rec.plain))
  {
    NoRewriteNoPromise(site, Making(change, w));
    if change.Settle? {
      SettlingKeepsTotals(site, w, change);
    } else {
      SettingAsideKeepsTotals(site, w, change);
    }
  }

  lemma SettlingKeepsTotals(site: Site, w: World, change: Change)
    requires Inv(site, w) && w.up && change.Settle? && Justified(site, w.now, w.store, change)
    ensures var w' := Making(change, w);
      && OrdinaryTotal(w') <= OrdinaryTotal(w) && CurrentTotal(w') <= CurrentTotal(w)
      && Stored(w', w'.store.rec.plain) == Stored(w, w.store.rec.plain)
  {
    var w' := Making(change, w);
    OwedShrinks(Ordinary, w.store.rec, w.now, w.hist, w'.store.rec, w'.now, w'.hist);
    if w.store.rec.SealKey() == Some(change.seal.keyId) {
      OwedShrinks(ForCurrent, w.store.rec, w.now, w.hist, w'.store.rec, w'.now, w'.hist);
    } else {
      assert w.store.rec.SealKey() == None;
      NothingOwed(ForCurrent, w'.store.rec, w'.now, w'.hist);
    }
  }

  lemma SettingAsideKeepsTotals(site: Site, w: World, change: Change)
    requires Inv(site, w) && w.up && change.SetAside? && Justified(site, w.now, w.store, change)
    ensures var w' := Making(change, w);
      && OrdinaryTotal(w') <= OrdinaryTotal(w) && CurrentTotal(w') == 0
      && Stored(w', w'.store.rec.plain) <= CurrentTotal(w)
  {
    var w' := Making(change, w);
    OwedShrinks(Ordinary, w.store.rec, w.now, w.hist, w'.store.rec, w'.now, w'.hist);
    NoBytes(w.store.shelf, w.store.rec.nextGeneration);
    NothingOwed(ForCurrent, w'.store.rec, w'.now, w'.hist);
  }

  // === the commit of a rewrite ===

  /** What the workspace is left with by the commit of its open rewrite, read
      off the record before: the staged and the plain bytes on the books, and
      what is promised to ordinary uploads under the key that comes next. */
  ghost function LeftByCommit(rec: WorkspaceRecord, now: nat): nat
    requires rec.state.Rewriting?
  {
    rec.UsedOf(rec.state.session.stagedGeneration)
    + (if rec.plain.Some? then rec.UsedOf(rec.plain.value) else 0)
    + ReservedUnder(rec.tickets, now, iset{Some(rec.state.session.next.keyId)})
  }

  /** No ordinary upload under the next key has published what still stands. */
  lemma NoneStandsUnderNext(st: Store, hist: History, u: UploadId)
    requires KeysOk(st) && StateOk(st.rec) && PlacesOk(st.shelf, st.rec, hist) && st.rec.state.Rewriting?
    requires u in hist.issued && !hist.issued[u].request.inRewrite
    requires hist.issued[u].request.expectedKeyId == Some(st.rec.state.session.next.keyId)
    ensures !Standing(hist, u)
  {
  }

  ghost predicate NoneUnderNextStands(rec: WorkspaceRecord, hist: History)
    requires rec.state.Rewriting?
  {
    forall u <- rec.tickets ::
      !rec.tickets[u].request.inRewrite && rec.tickets[u].request.expectedKeyId == Some(rec.state.session.next.keyId)
      ==> !Standing(hist, u)
  }

  lemma OwedUnderNext(shelf: Shelf, rec: WorkspaceRecord, now: nat, hist: History, after: History)
    requires rec.state.Rewriting? && NoneUnderNextStands(rec, hist)
    requires after.places == hist.places && hist.gone <= after.gone
    ensures Owed(ForCurrent, RecordAfter(Switch, shelf, rec), now, after)
      == ReservedUnder(rec.tickets, now, iset{Some(rec.state.session.next.keyId)})
  {
    var later := RecordAfter(Switch, shelf, rec);
    var sizes := Sizes(later.tickets, Owing(ForCurrent, later, now, after));
    var promised := PromisedUnder(rec.tickets, now, iset{Some(rec.state.session.next.keyId)});
    assert forall u <- promised :: !Standing(hist, u);
    assert sizes == promised;
  }

  lemma OwedAfterCommit(site: Site, w: World)
    requires Inv(site, w) && w.store.rec.state.Rewriting?
    ensures var w' := Making(Switch, w);
      Owed(ForCurrent, w'.store.rec, w'.now, w'.hist)
      == ReservedUnder(w.store.rec.tickets, w.now, iset{Some(w.store.rec.state.session.next.keyId)})
  {
    forall u <- w.store.rec.tickets | !w.store.rec.tickets[u].request.inRewrite
        && w.store.rec.tickets[u].request.expectedKeyId == Some(w.store.rec.state.session.next.keyId)
      ensures !Standing(w.hist, u)
    {
      NoneStandsUnderNext(w.store, w.hist, u);
    }
    OwedUnderNext(w.store.shelf, w.store.rec, w.now, w.hist, Making(Switch, w).hist);
  }

  /** At the commit of a rewrite the total becomes exactly what the record
      before it said, whatever the keys are. */
  lemma CommitLeavesExactly(site: Site, w: World, op: Op)
    requires Reachable(site, w) && w.up && Enabled(w, Do(op))
    requires op.OpCommitRewrite? && Decide(site, w.now, w.store, op).change.Switch?
    ensures w.store.rec.state.Rewriting?
    ensures var w' := Next(site, w, Do(op)); var quota := site.limits.quotaBytes;
      && SettledTotal(w') == LeftByCommit(w.store.rec, w.now)
      && (SettledTotal(w') <= quota <==> LeftByCommit(w.store.rec, w.now) <= quota)
      && UsedBytes(w'.store.rec) + ReservedUnder(w'.store.rec.tickets, w'.now, iset{w'.store.rec.SealKey()})
         == LeftByCommit(w.store.rec, w.now)
  {
    ReachableHasInv(site, w);
    SwitchesByCommit(site, w.now, w.store, op);
    SwitchLeavesExactly(site, w);
    BooksAfterSwitch(w.store.rec, w.now, w.store.shelf);
    assert Next(site, w, Do(op)) == Making(Switch, w);
  }

  lemma BooksAfterSwitch(rec: WorkspaceRecord, now: nat, shelf: Shelf)
    requires rec.state.Rewriting? && LiveApart(rec)
    ensures var later := RecordAfter(Switch, shelf, rec);
      UsedBytes(later) + ReservedUnder(later.tickets, now, iset{later.SealKey()}) == LeftByCommit(rec, now)
  {
    var later := RecordAfter(Switch, shelf, rec);
    assert PromisedUnder(later.tickets, now, iset{later.SealKey()})
        == PromisedUnder(rec.tickets, now, iset{Some(rec.state.session.next.keyId)});
  }

  lemma SwitchLeavesExactly(site: Site, w: World)
    requires Inv(site, w) && w.up && w.store.rec.state.Rewriting?
    ensures var w' := Making(Switch, w);
      && SettledTotal(w') == LeftByCommit(w.store.rec, w.now)
      && Stored(w', w'.store.rec.plain) == Stored(w, w.store.rec.plain)
  {
    OwedAfterCommit(site, w);
    assert w.store.rec.state.session.stagedGeneration in w.store.rec.Live();
    assert w.store.rec.plain.Some? ==> w.store.rec.plain.value in w.store.rec.Live();
  }

  // === every other event ===

  function Max(a: nat, b: nat): nat { if a < b then b else a }

  ghost const KEYS: iset<Option<KeyId>> := iset key: Option<KeyId> | key.Some?

  /** Plain items with every ordinary promise under some key. */
  ghost function PlainTotal(w: World): nat {
    Stored(w, w.store.rec.plain) + ReservedUnder(w.store.rec.tickets, w.now, KEYS)
  }

  /** What a change does to the totals, to whatever key a rewrite is: only the
      commit of one may raise what the workspace is left with above the quota. */
  ghost predicate TotalsBound(site: Site, w: World, w': World, switches: bool) {
    && StagedTotal(w') <= Max(StagedTotal(w), site.limits.quotaBytes)
    && (!switches ==> OrdinaryTotal(w') <= Max(OrdinaryTotal(w), site.limits.quotaBytes))
    && (!switches ==> SettledTotal(w') <= Max(SettledTotal(w), site.limits.quotaBytes))
  }

  ghost predicate PlainBound(site: Site, w: World, w': World) {
    || PlainTotal(w') <= Max(PlainTotal(w), site.limits.quotaBytes)
    || (w.store.rec.SealKey() == None && PlainTotal(w') <= SettledTotal(w))
  }

  lemma TicketsOnlyGo(site: Site, now: nat, st: Store, change: Change)
    requires Justified(site, now, st, change) && !change.Issue?
    ensures var later := RecordAfter(change, st.shelf, st.rec).tickets;
      forall u <- later :: u in st.rec.tickets && later[u] == st.rec.tickets[u]
  {
  }

  lemma NoKeyNoPromise(site: Site, w: World)
    requires Inv(site, w) && w.store.rec.SealKey() == None
    ensures ReservedUnder(w.store.rec.tickets, w.now, KEYS) == 0
  {
    assert PromisedUnder(w.store.rec.tickets, w.now, KEYS) == map[];
  }

  lemma ChangeReservesNoMore(site: Site, w: World, change: Change, w': World)
    requires Justified(site, w.now, w.store, change) && !change.Issue?
    requires w' == Making(change, w) || w' == HalfMaking(change, w)
    ensures ReservedUnder(w'.store.rec.tickets, w'.now, KEYS) <= ReservedUnder(w.store.rec.tickets, w.now, KEYS)
  {
    TicketsOnlyGo(site, w.now, w.store, change);
    FewerAreReserved(w.store.rec.tickets, w.now, KEYS, w'.store.rec.tickets, w'.now, KEYS);
  }

  lemma SealingBoundsPlain(site: Site, w: World, change: Change)
    requires Inv(site, w) && Justified(site, w.now, w.store, change) && (change.Settle? || change.SetAside?)
    requires var w' := Making(change, w);
      Stored(w', w'.store.rec.plain) <= if change.SetAside? then CurrentTotal(w) else Stored(w, w.store.rec.plain)
    ensures PlainBound(site, w, Making(change, w))
  {
    ChangeReservesNoMore(site, w, change, Making(change, w));
    if change.SetAside? {
      NoKeyNoPromise(site, w);
    }
  }

  lemma NoMoreIsBound(site: Site, w: World, w': World)
    requires NoMore(w, w')
    requires ReservedUnder(w'.store.rec.tickets, w'.now, KEYS) <= ReservedUnder(w.store.rec.tickets, w.now, KEYS)
    ensures TotalsBound(site, w, w', false) && PlainBound(site, w, w')
  {
  }

  lemma ItemChangeBound(site: Site, w: World, change: Change, w': World)
    requires Inv(site, w) && Justified(site, w.now, w.store, change) && (change.Publish? || change.Remove?)
    requires w' == Making(change, w) || w' == HalfMaking(change, w)
    ensures TotalsBound(site, w, w', false) && PlainBound(site, w, w')
  {
    if change.Publish? {
      PublishKeepsTotals(site, w, change, w');
    } else {
      RemoveKeepsTotals(site, w, change, w');
    }
    ChangeReservesNoMore(site, w, change, w');
    NoMoreIsBound(site, w, w');
  }

  lemma CommitIsBound(site: Site, w: World, w': World)
    requires StagedTotal(w') == 0 && Stored(w', w'.store.rec.plain) == Stored(w, w.store.rec.plain)
    requires ReservedUnder(w'.store.rec.tickets, w'.now, KEYS) <= ReservedUnder(w.store.rec.tickets, w.now, KEYS)
    ensures TotalsBound(site, w, w', true) && PlainBound(site, w, w')
  {
  }

  lemma SwitchBound(site: Site, w: World)
    requires Inv(site, w) && w.up && Justified(site, w.now, w.store, Switch)
    requires Inv(site, Making(Switch, w))
    ensures TotalsBound(site, w, Making(Switch, w), true) && PlainBound(site, w, Making(Switch, w))
  {
    NoRewriteNoPromise(site, Making(Switch, w));
    SwitchLeavesExactly(site, w);
    ChangeReservesNoMore(site, w, Switch, Making(Switch, w));
    CommitIsBound(site, w, Making(Switch, w));
  }

  lemma SealingIsBound(site: Site, w: World, w': World)
    requires StagedTotal(w') == 0 && OrdinaryTotal(w') <= OrdinaryTotal(w) && SettledTotal(w') <= SettledTotal(w)
    ensures TotalsBound(site, w, w', false)
  {
  }

  lemma SealingBound(site: Site, w: World, change: Change)
    requires Inv(site, w) && w.up && Justified(site, w.now, w.store, change) && (change.Settle? || change.SetAside?)
    requires Inv(site, Making(change, w))
    ensures TotalsBound(site, w, Making(change, w), false) && PlainBound(site, w, Making(change, w))
  {
    SealingKeepsTotals(site, w, change);
    SealingIsBound(site, w, Making(change, w));
    SealingBoundsPlain(site, w, change);
  }

  lemma TicketBound(site: Site, w: World, change: Change)
    requires Inv(site, w) && w.up && site.limits.quotaBytes < U64_MAX
    requires change.Issue? && Justified(site, w.now, w.store, change) && change.upload !in w.store.rec.tickets
    ensures TotalsBound(site, w, Making(change, w), false)
  {
    IssueKeepsWithin(site, w, change);
  }

  lemma ReservedWithOneMore(tickets: map<UploadId, Ticket>, now: nat, keys: iset<Option<KeyId>>, u: UploadId,
          ticket: Ticket)
    requires u !in tickets
    ensures ReservedUnder(tickets[u := ticket], now, keys)
      == ReservedUnder(tickets, now, keys) + if IsUnder(ticket, now, keys) then ticket.request.size else 0
  {
    var before, after := PromisedUnder(tickets, now, keys), PromisedUnder(tickets[u := ticket], now, keys);
    if IsUnder(ticket, now, keys) {
      assert after == before[u := ticket.request.size];
      SumPutIn(before, u, ticket.request.size);
    } else {
      assert after == before;
    }
  }

  lemma TicketBoundsPlain(site: Site, w: World, change: Change)
    requires Inv(site, w) && w.up && site.limits.quotaBytes < U64_MAX
    requires change.Issue? && Justified(site, w.now, w.store, change) && change.upload !in w.store.rec.tickets
    ensures PlainBound(site, w, Making(change, w))
  {
    IssueReserves(site, w, change);
    IssueStoresNothing(w, change, w.store.rec.plain);
    ReservedWithOneMore(w.store.rec.tickets, w.now, KEYS, change.upload, change.ticket);
    ReservedUnderIsReserved(w.store.rec.tickets, w.now, KEYS);
  }

  lemma PlainChangeBound(site: Site, w: World, change: Change)
    requires Inv(site, w) && Plainly(change) && Justified(site, w.now, w.store, change)
    ensures TotalsBound(site, w, Making(change, w), false) && PlainBound(site, w, Making(change, w))
  {
    PlainlyKeepsTotals(site, w, change);
    ChangeReservesNoMore(site, w, change, Making(change, w));
    NoMoreIsBound(site, w, Making(change, w));
  }

  lemma ChangeBound(site: Site, w: World, change: Change)
    requires Inv(site, w) && (w.up || change.Reconcile?) && site.limits.quotaBytes < U64_MAX
    requires Justified(site, w.now, w.store, change) && DrawnFor(change, w)
    ensures TotalsBound(site, w, Making(change, w), change.Switch?) && PlainBound(site, w, Making(change, w))
  {
    if change.Publish? || change.Remove? {
      ItemChangeBound(site, w, change, Making(change, w));
    } else if change.Issue? {
      TicketBound(site, w, change);
      TicketBoundsPlain(site, w, change);
    } else if Plainly(change) {
      PlainChangeBound(site, w, change);
    } else {
      MakingKeepsInv(site, w, change);
      if change.Switch? {
        SwitchBound(site, w);
      } else {
        SealingBound(site, w, change);
      }
    }
  }

  lemma HalfBound(site: Site, w: World, change: Change)
    requires Inv(site, w) && Justified(site, w.now, w.store, change)
    ensures TotalsBound(site, w, HalfMaking(change, w), false) && PlainBound(site, w, HalfMaking(change, w))
  {
    if change.Publish? || change.Remove? {
      ItemChangeBound(site, w, change, HalfMaking(change, w));
    } else {
      HalfChangesNoTotal(w, change);
      SameTotalsBound(site, w, HalfMaking(change, w));
    }
  }

  lemma SameTotalsBound(site: Site, w: World, w': World)
    requires SameTotals(w, w')
    ensures TotalsBound(site, w, w', false) && PlainBound(site, w, w')
  {
  }

  /** The same bytes on the shelf and the same promises. */
  ghost predicate SameTotals(w: World, w': World) {
    && StagedTotal(w') == StagedTotal(w) && OrdinaryTotal(w') == OrdinaryTotal(w)
    && SettledTotal(w') == SettledTotal(w) && PlainTotal(w') == PlainTotal(w)
  }

  lemma HalfChangesNoTotal(w: World, change: Change)
    requires !change.Publish? && !change.Remove?
    ensures SameTotals(w, HalfMaking(change, w))
  {
    var w' := HalfMaking(change, w);
    assert w'.store.shelf.generations == w.store.shelf.generations && w'.store.rec == w.store.rec && w'.hist == w.hist;
  }

  lemma DrawingChangesNoTotal(w: World, op: Op)
    ensures SameTotals(w, w.(hist := Drawing(op, w.hist)))
  {
    var w' := w.(hist := Drawing(op, w.hist));
    assert Owing(ForRewrite, w'.store.rec, w'.now, w'.hist) == Owing(ForRewrite, w.store.rec, w.now, w.hist);
    assert Owing(Ordinary, w'.store.rec, w'.now, w'.hist) == Owing(Ordinary, w.store.rec, w.now, w.hist);
    assert Owing(ForCurrent, w'.store.rec, w'.now, w'.hist) == Owing(ForCurrent, w.store.rec, w.now, w.hist);
  }

  lemma UpChangesNoTotal(w: World)
    ensures SameTotals(w, w.(up := true))
  {
  }

  /** What is left of the events moves no item and no promise. */
  predicate Idle(e: Event) { !e.Do? && !e.DieInside? && !e.Open? }

  lemma IdleLeavesLive(site: Site, w: World, e: Event)
    requires Inv(site, w) && Enabled(w, e) && Idle(e)
    ensures var w' := Next(site, w, e);
      && w'.store.rec == w.store.rec && w'.hist == w.hist && w.now <= w'.now
      && forall g <- w.store.rec.Live() :: w'.store.shelf.Items(g) == w.store.shelf.Items(g)
  {
    if e.Clean? {
      CleaningSparesLive(w.store, w.pending, w.hist, e.cleanup);
    }
  }

  lemma TimeOwesLess(kind: Kind, rec: WorkspaceRecord, now: nat, hist: History, later: nat)
    requires now <= later
    ensures Owed(kind, rec, later, hist) <= Owed(kind, rec, now, hist)
  {
    OwedShrinks(kind, rec, now, hist, rec, later, hist);
  }

  lemma TotalsOfLive(site: Site, w: World, w': World)
    requires w'.store.rec == w.store.rec && w'.hist == w.hist && w.now <= w'.now
    requires forall g <- w.store.rec.Live() :: w'.store.shelf.Items(g) == w.store.shelf.Items(g)
    ensures TotalsBound(site, w, w', false) && PlainBound(site, w, w')
  {
    TimeOwesLess(ForRewrite, w.store.rec, w.now, w.hist, w'.now);
    TimeOwesLess(ForCurrent, w.store.rec, w.now, w.hist, w'.now);
    TimeOwesLess(Ordinary, w.store.rec, w.now, w.hist, w'.now);
    FewerAreReserved(w.store.rec.tickets, w.now, KEYS, w'.store.rec.tickets, w'.now, KEYS);
    SameStored(w, w');
  }

  lemma SameStored(w: World, w': World)
    requires w'.store.rec == w.store.rec
    requires forall g <- w.store.rec.Live() :: w'.store.shelf.Items(g) == w.store.shelf.Items(g)
    ensures Stored(w', StagedGeneration(w.store.rec)) == Stored(w, StagedGeneration(w.store.rec))
    ensures Stored(w', w.store.rec.plain) == Stored(w, w.store.rec.plain)
    ensures Stored(w', Some(w.store.rec.generation)) == Stored(w, Some(w.store.rec.generation))
  {
    assert w.store.rec.generation in w.store.rec.Live();
  }

  predicate CommitsRewrite(e: Event) { e.Do? && e.op.OpCommitRewrite? }

  /** The event is a commit that makes the staged items the current ones. */
  ghost predicate Switching(site: Site, w: World, e: Event) {
    CommitsRewrite(e) && Decide(site, w.now, w.store, e.op).change.Switch?
  }

  lemma SwitchesByCommit(site: Site, now: nat, st: Store, op: Op)
    ensures Decide(site, now, st, op).change.Switch? ==> op.OpCommitRewrite? && st.rec.state.Rewriting?
  {
  }

  /** Every event but the commit of a rewrite keeps each total within the
      quota if it was, and no event raises it otherwise. */
  lemma StepBound(site: Site, w: World, e: Event)
    requires Inv(site, w) && Enabled(w, e) && site.limits.quotaBytes < U64_MAX
    ensures TotalsBound(site, w, Next(site, w, e), Switching(site, w, e)) && PlainBound(site, w, Next(site, w, e))
  {
    match e
    case Do(op) => DoBound(site, w, op);
    case DieInside(op) => DieBound(site, w, op);
    case Open =>
      ChangeBound(site, w, Reconcile(w.now));
      UpChangesNoTotal(Making(Reconcile(w.now), w));
    case _ =>
      IdleLeavesLive(site, w, e);
      TotalsOfLive(site, w, Next(site, w, e));
  }

  lemma DoBound(site: Site, w: World, op: Op)
    requires Inv(site, w) && Enabled(w, Do(op)) && site.limits.quotaBytes < U64_MAX
    ensures TotalsBound(site, w, Next(site, w, Do(op)), Switching(site, w, Do(op)))
      && PlainBound(site, w, Next(site, w, Do(op)))
  {
    DrawingKeepsInv(site, w, op);
    DecisionsIssueWhatWasDrawn(site, w, op);
    DecisionsAreJustified(site, w.now, w.store, op);
    SwitchesByCommit(site, w.now, w.store, op);
    DrawingChangesNoTotal(w, op);
    ChangeBound(site, w.(hist := Drawing(op, w.hist)), Decide(site, w.now, w.store, op).change);
  }

  lemma DieBound(site: Site, w: World, op: Op)
    requires Inv(site, w) && Enabled(w, DieInside(op))
    ensures TotalsBound(site, w, Next(site, w, DieInside(op)), false)
      && PlainBound(site, w, Next(site, w, DieInside(op)))
  {
    DrawingKeepsInv(site, w, op);
    DecisionsAreJustified(site, w.now, w.store, op);
    DrawingChangesNoTotal(w, op);
    HalfBound(site, w.(hist := Drawing(op, w.hist)), Decide(site, w.now, w.store, op).change);
  }

  // === over runs ===

  /** Whenever a rewrite is committed, the record before leaves room. */
  ghost predicate CommitsFit(site: Site, w: World, events: seq<Event>)
    requires Possible(site, w, events)
    decreases |events|
  {
    events == []
    || ((Switching(site, w, events[0]) && w.store.rec.state.Rewriting? ==>
           LeftByCommit(w.store.rec, w.now) <= site.limits.quotaBytes)
        && CommitsFit(site, Next(site, w, events[0]), events[1..]))
  }

  /** At every point of the run, what the workspace would be left with fits. */
  ghost predicate AlwaysFits(site: Site, w: World, events: seq<Event>)
    requires Possible(site, w, events)
    decreases |events|
  {
    SettledTotal(w) <= site.limits.quotaBytes
    && (events == [] || AlwaysFits(site, Next(site, w, events[0]), events[1..]))
  }

  lemma SwitchingLeavesExactly(site: Site, w: World, e: Event)
    requires Inv(site, w) && Enabled(w, e) && Switching(site, w, e)
    ensures w.store.rec.state.Rewriting? && SettledTotal(Next(site, w, e)) == LeftByCommit(w.store.rec, w.now)
    ensures Stored(Next(site, w, e), Next(site, w, e).store.rec.plain) == Stored(w, w.store.rec.plain)
  {
    SwitchesByCommit(site, w.now, w.store, e.op);
    SwitchLeavesExactly(site, w);
    assert Next(site, w, e) == Making(Switch, w);
  }

  /** The exact condition, over runs: what the workspace is left with always
      fits if and only if it does whenever a rewrite is committed. */
  lemma {:induction false} FitsExactly(site: Site, w: World, events: seq<Event>)
    requires Inv(site, w) && SettledTotal(w) <= site.limits.quotaBytes < U64_MAX && Possible(site, w, events)
    ensures CommitsFit(site, w, events) <==> AlwaysFits(site, w, events)
    decreases |events|
  {
    if events != [] {
      var next := Next(site, w, events[0]);
      NextKeepsInv(site, w, events[0]);
      if Switching(site, w, events[0]) {
        SwitchingLeavesExactly(site, w, events[0]);
      } else {
        StepBound(site, w, events[0]);
      }
      if SettledTotal(next) <= site.limits.quotaBytes {
        FitsExactly(site, next, events[1..]);
      }
    }
  }

  /** Staged items fit in any case. */
  lemma {:induction false} StagedOverRuns(site: Site, w: World, events: seq<Event>)
    requires Inv(site, w) && site.limits.quotaBytes < U64_MAX && Possible(site, w, events)
    ensures StagedTotal(End(site, w, events)) <= Max(StagedTotal(w), site.limits.quotaBytes)
    decreases |events|
  {
    if events != [] {
      StepBound(site, w, events[0]);
      NextKeepsInv(site, w, events[0]);
      StagedOverRuns(site, Next(site, w, events[0]), events[1..]);
    }
  }

  lemma {:induction false} FitsAtTheEnd(site: Site, w: World, events: seq<Event>)
    requires Possible(site, w, events) && AlwaysFits(site, w, events)
    ensures SettledTotal(End(site, w, events)) <= site.limits.quotaBytes
    decreases |events|
  {
    if events != [] {
      FitsAtTheEnd(site, Next(site, w, events[0]), events[1..]);
    }
  }

  /** All bytes of the generations the workspace points to. */
  ghost function AllStored(w: World): nat {
    Stored(w, Some(w.store.rec.generation)) + Stored(w, w.store.rec.plain) + Stored(w, StagedGeneration(w.store.rec))
  }

  lemma BooksAreStored(site: Site, w: World)
    requires Inv(site, w) && w.up
    ensures UsedBytes(w.store.rec) == AllStored(w)
  {
    assert w.store.rec.generation in w.store.rec.Live();
    assert w.store.rec.plain.Some? ==> w.store.rec.plain.value in w.store.rec.Live();
    assert w.store.rec.state.Rewriting? ==> w.store.rec.state.session.stagedGeneration in w.store.rec.Live();
  }

  lemma NewIsEmpty(site: Site, w: World)
    requires Initial(w)
    ensures Inv(site, w) && SettledTotal(w) == 0 && StagedTotal(w) == 0 && PlainTotal(w) == 0
  {
    InitialHasInv(site, w);
    NothingOwed(ForRewrite, w.store.rec, w.now, w.hist);
    NothingOwed(ForCurrent, w.store.rec, w.now, w.hist);
    NoKeyNoPromise(site, w);
    NoBytes(w.store.shelf, 0);
  }

  /** The main result on quotas: of a new workspace, whatever its keys and
      whatever dies in between, the promise of the code holds as long as each
      rewrite that is committed leaves room. A settled workspace is within its
      quota, one with an open rewrite within twice its quota. */
  lemma QuotaOverRuns(site: Site, w: World, events: seq<Event>)
    requires Initial(w) && site.limits.quotaBytes < U64_MAX && Possible(site, w, events)
    requires CommitsFit(site, w, events)
    ensures var end := End(site, w, events); var quota := site.limits.quotaBytes;
      && StagedTotal(end) <= quota && SettledTotal(end) <= quota
      && AllStored(end) <= (if end.store.rec.state.Settled? then quota else 2 * quota)
      && (end.up ==> UsedBytes(end.store.rec) == AllStored(end))
  {
    NewIsEmpty(site, w);
    FitsExactly(site, w, events);
    FitsAtTheEnd(site, w, events);
    StagedOverRuns(site, w, events);
    RunKeepsInv(site, w, events);
    if End(site, w, events).up {
      BooksAreStored(site, End(site, w, events));
    }
  }

  // === rewrites to new keys ===

  /** Every rewrite that is begun is to a key the workspace was never under. */
  predicate ToNewKeys(w: World, e: Event) {
    e.Do? && e.op.OpBeginRewrite? ==> Some(e.op.rewrite.newKeyId) !in w.hist.seals
  }

  ghost predicate AllToNewKeys(site: Site, w: World, events: seq<Event>)
    requires Possible(site, w, events)
    decreases |events|
  {
    events == [] || (ToNewKeys(w, events[0]) && AllToNewKeys(site, Next(site, w, events[0]), events[1..]))
  }

  /** An open rewrite is to a key the workspace was never under. */
  ghost predicate NewKeyNext(w: World) {
    w.store.rec.state.Rewriting? ==> Some(w.store.rec.state.session.next.keyId) !in w.hist.seals
  }

  lemma NewKeyStays(site: Site, w: World, e: Event)
    requires NewKeyNext(w) && Enabled(w, e) && ToNewKeys(w, e)
    ensures NewKeyNext(Next(site, w, e))
  {
    if e.Do? {
      DecisionsAreJustified(site, w.now, w.store, e.op);
      OpensToNewKey(site, w, e.op);
      NewKeyStaysNew(site, w.(hist := Drawing(e.op, w.hist)), Decide(site, w.now, w.store, e.op).change);
    }
  }

  lemma OpensToNewKey(site: Site, w: World, op: Op)
    requires ToNewKeys(w, Do(op))
    ensures var change := Decide(site, w.now, w.store, op).change;
      change.OpenSession? ==> Some(change.session.next.keyId) !in w.hist.seals
  {
  }

  lemma NewKeyStaysNew(site: Site, w: World, change: Change)
    requires NewKeyNext(w) && Justified(site, w.now, w.store, change)
    requires change.OpenSession? ==> Some(change.session.next.keyId) !in w.hist.seals
    ensures NewKeyNext(Making(change, w))
  {
  }

  lemma PlainStaysSet(site: Site, w: World, e: Event)
    requires Enabled(w, e) && w.store.rec.plain.Some?
    ensures Next(site, w, e).store.rec.plain.Some?
  {
  }

  lemma {:induction false} PlainStaysSetOverRuns(site: Site, w: World, events: seq<Event>)
    requires Possible(site, w, events) && w.store.rec.plain.Some?
    ensures End(site, w, events).store.rec.plain.Some?
    decreases |events|
  {
    if events != [] {
      PlainStaysSet(site, w, events[0]);
      PlainStaysSetOverRuns(site, Next(site, w, events[0]), events[1..]);
    }
  }

  lemma NewKeyFits(site: Site, w: World, e: Event)
    requires Inv(site, w) && w.up && w.store.rec.state.Rewriting? && NewKeyNext(w) && w.store.rec.plain.None?
    ensures LeftByCommit(w.store.rec, w.now) <= StagedTotal(w)
  {
    var rec := w.store.rec;
    assert PromisedUnder(rec.tickets, w.now, iset{Some(rec.state.session.next.keyId)}) == map[];
    assert rec.state.session.stagedGeneration in rec.Live();
  }

  /** Without plain items, rewrites to new keys always leave room. */
  lemma {:induction false} NewKeysFit(site: Site, w: World, events: seq<Event>)
    requires Inv(site, w) && NewKeyNext(w) && StagedTotal(w) <= site.limits.quotaBytes < U64_MAX
    requires Possible(site, w, events) && AllToNewKeys(site, w, events) && End(site, w, events).store.rec.plain.None?
    ensures CommitsFit(site, w, events)
    decreases |events|
  {
    if events != [] {
      if w.store.rec.plain.Some? {
        PlainStaysSetOverRuns(site, w, events);
      }
      if Switching(site, w, events[0]) && w.store.rec.state.Rewriting? {
        NewKeyFits(site, w, events[0]);
      }
      StepBound(site, w, events[0]);
      NextKeepsInv(site, w, events[0]);
      NewKeyStays(site, w, events[0]);
      NewKeysFit(site, Next(site, w, events[0]), events[1..]);
    }
  }

  lemma NewKeysKeepQuota(site: Site, w: World, events: seq<Event>)
    requires Initial(w) && site.limits.quotaBytes < U64_MAX && Possible(site, w, events)
    requires AllToNewKeys(site, w, events) && End(site, w, events).store.rec.plain.None?
    ensures var end := End(site, w, events); var quota := site.limits.quotaBytes;
      && AllStored(end) <= (if end.store.rec.state.Settled? then quota else 2 * quota)
      && (end.up ==> UsedBytes(end.store.rec) == AllStored(end))
  {
    NewIsEmpty(site, w);
    NewKeysFit(site, w, events);
    QuotaOverRuns(site, w, events);
  }

  // === whatever the keys ===

  /** No total is more than the quota above what it should be. */
  ghost predicate NeverOverTwice(site: Site, w: World) {
    var quota := site.limits.quotaBytes;
    && StagedTotal(w) <= quota && PlainTotal(w) <= quota
    && SettledTotal(w) <= (if w.store.rec.SealKey() == None then quota else 2 * quota)
  }

  lemma NextUnderNoKey(site: Site, w: World, e: Event)
    requires Inv(site, w) && Enabled(w, e)
    ensures Next(site, w, e).store.rec.SealKey() == None ==> w.store.rec.SealKey() == None && !Switching(site, w, e)
  {
    if e.Do? {
      DecisionsAreJustified(site, w.now, w.store, e.op);
    }
  }

  lemma CommitLeavesTwice(site: Site, w: World)
    requires Inv(site, w) && w.up && w.store.rec.state.Rewriting?
    ensures LeftByCommit(w.store.rec, w.now) <= StagedTotal(w) + PlainTotal(w)
  {
    var rec := w.store.rec;
    FewerAreReserved(rec.tickets, w.now, iset{Some(rec.state.session.next.keyId)}, rec.tickets, w.now, KEYS);
    assert rec.state.session.stagedGeneration in rec.Live();
    assert rec.plain.Some? ==> rec.plain.value in rec.Live();
  }

  lemma CommitNeverOverTwice(site: Site, w: World, e: Event)
    requires Inv(site, w) && Enabled(w, e) && NeverOverTwice(site, w) && Switching(site, w, e)
    ensures SettledTotal(Next(site, w, e)) <= 2 * site.limits.quotaBytes
  {
    SwitchingLeavesExactly(site, w, e);
    CommitLeavesTwice(site, w);
  }

  lemma StepNeverOverTwice(site: Site, w: World, e: Event)
    requires Inv(site, w) && Enabled(w, e) && site.limits.quotaBytes < U64_MAX && NeverOverTwice(site, w)
    ensures NeverOverTwice(site, Next(site, w, e))
  {
    StepBound(site, w, e);
    NextUnderNoKey(site, w, e);
    if Switching(site, w, e) {
      CommitNeverOverTwice(site, w, e);
    }
  }

  lemma {:induction false} RunNeverOverTwice(site: Site, w: World, events: seq<Event>)
    requires Inv(site, w) && Possible(site, w, events) && site.limits.quotaBytes < U64_MAX && NeverOverTwice(site, w)
    ensures NeverOverTwice(site, End(site, w, events)) && Inv(site, End(site, w, events))
    decreases |events|
  {
    if events != [] {
      StepNeverOverTwice(site, w, events[0]);
      NextKeepsInv(site, w, events[0]);
      RunNeverOverTwice(site, Next(site, w, events[0]), events[1..]);
    }
  }

  /** In every run, to whatever keys its rewrites are and whether they leave
      room or not: three times the quota at the most, and twice once settled. */
  lemma ThreeTimesAtMost(site: Site, w: World)
    requires Reachable(site, w) && site.limits.quotaBytes < U64_MAX
    ensures var quota := site.limits.quotaBytes;
      && AllStored(w) <= (if w.store.rec.state.Settled? then 2 * quota else 3 * quota)
      && StagedTotal(w) <= quota && SettledTotal(w) <= 2 * quota
      && (w.up ==> UsedBytes(w.store.rec) == AllStored(w))
  {
    var start, events :| Initial(start) && Possible(site, start, events) && End(site, start, events) == w;
    NewIsEmpty(site, start);
    RunNeverOverTwice(site, start, events);
    if w.up {
      BooksAreStored(site, w);
    }
  }

  // === without deaths ===

  /** No published upload waits for its record. */
  ghost predicate NoneHalfDone(w: World) {
    forall u <- w.store.rec.tickets :: u !in w.hist.places
  }

  lemma NoneIsHalfDoneWithoutDeath(site: Site, w: World, e: Event)
    requires Inv(site, w) && Enabled(w, e) && NoneHalfDone(w) && !e.DieInside?
    ensures NoneHalfDone(Next(site, w, e))
  {
    if e.Do? {
      DecisionsAreJustified(site, w.now, w.store, e.op);
      DecisionsIssueWhatWasDrawn(site, w, e.op);
      ChangeLeavesNoneHalfDone(site, w.(hist := Drawing(e.op, w.hist)), Decide(site, w.now, w.store, e.op).change);
    }
  }

  lemma ChangeLeavesNoneHalfDone(site: Site, w: World, change: Change)
    requires NoneHalfDone(w) && Justified(site, w.now, w.store, change)
    requires change.Issue? ==> change.upload !in w.hist.places
    ensures NoneHalfDone(Making(change, w))
  {
  }

  lemma {:induction false} NoneHalfDoneOverRuns(site: Site, w: World, events: seq<Event>)
    requires Inv(site, w) && NoneHalfDone(w)
    requires Possible(site, w, events) && forall e <- events :: !e.DieInside?
    ensures NoneHalfDone(End(site, w, events))
    decreases |events|
  {
    if events != [] {
      NextKeepsInv(site, w, events[0]);
      NoneIsHalfDoneWithoutDeath(site, w, events[0]);
      NoneHalfDoneOverRuns(site, Next(site, w, events[0]), events[1..]);
    }
  }

  lemma OwedIsPromised(rec: WorkspaceRecord, now: nat, hist: History)
    requires forall u <- rec.tickets :: u !in hist.places
    ensures Owed(ForRewrite, rec, now, hist) == Reserved(rec.tickets, now, true)
    ensures Owed(ForCurrent, rec, now, hist) == ReservedUnder(rec.tickets, now, iset{rec.SealKey()})
  {
    assert Sizes(rec.tickets, Owing(ForRewrite, rec, now, hist)) == Promised(rec.tickets, now, true);
    assert Sizes(rec.tickets, Owing(ForCurrent, rec, now, hist))
      == PromisedUnder(rec.tickets, now, iset{rec.SealKey()});
  }

  lemma BooksAreTotals(site: Site, w: World)
    requires Inv(site, w) && w.up && NoneHalfDone(w)
    ensures StagedTotal(w) == StagedBytes(w.store.rec) + Reserved(w.store.rec.tickets, w.now, true)
    ensures SettledTotal(w)
      == UsedBytes(w.store.rec) - StagedBytes(w.store.rec)
        + ReservedUnder(w.store.rec.tickets, w.now, iset{w.store.rec.SealKey()})
  {
    OwedIsPromised(w.store.rec, w.now, w.hist);
    BooksAreStored(site, w);
    assert w.store.rec.state.Rewriting? ==> w.store.rec.state.session.stagedGeneration in w.store.rec.Live();
  }

  /** In a run without deaths inside transactions the books and the promises
      on record obey the same bounds, under the same condition. */
  lemma BooksOverRunsWithoutDeath(site: Site, w: World, events: seq<Event>)
    requires Initial(w) && site.limits.quotaBytes < U64_MAX && Possible(site, w, events)
    requires (forall e <- events :: !e.DieInside?) && End(site, w, events).up
    ensures var end := End(site, w, events); var rec := end.store.rec;
      && StagedBytes(rec) + Reserved(rec.tickets, end.now, true) <= site.limits.quotaBytes
      && (CommitsFit(site, w, events) ==>
            UsedBytes(rec) - StagedBytes(rec) + ReservedUnder(rec.tickets, end.now, iset{rec.SealKey()})
            <= site.limits.quotaBytes)
  {
    NewIsEmpty(site, w);
    StagedOverRuns(site, w, events);
    RunKeepsInv(site, w, events);
    NoneHalfDoneOverRuns(site, w, events);
    BooksAreTotals(site, End(site, w, events));
    if CommitsFit(site, w, events) {
      QuotaOverRuns(site, w, events);
    }
  }
}
