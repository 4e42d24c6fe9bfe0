/** The engine: a ledger of records, exclusive and all or nothing, and the
    transaction around every rule, with the destructive steps after it. */
module Engines {
  import opened Wrappers
  import opened Ids
  import opened Stores
  import opened Protocol
  import opened World
  import opened Invariants
  import opened MemoryShelves
  import opened Rules
  import opened Runs

  // === the ledger ===

  /** A ledger in memory. */
  class MemoryLedger {
    var records: map<WorkspaceId, WorkspaceRecord>

    constructor ()
      ensures records == map[]
    {
      records := map[];
    }

    method Create(workspace: WorkspaceId)
      modifies this
      ensures records == if workspace in old(records) then old(records) else old(records)[workspace := NEW_RECORD]
    {
      if workspace !in records {
        records := records[workspace := NEW_RECORD];
      }
    }

    /** A copy of the record. */
    method Load(workspace: WorkspaceId) returns (record: Result<WorkspaceRecord, ApiError>)
      ensures record == if workspace in records then Ok(records[workspace]) else Err(NotFound)
    {
      if workspace in records {
        return Ok(records[workspace]);
      }
      return Err(NotFound);
    }

    /** The end of a transaction: the copy takes the record's place. */
    method Commit(workspace: WorkspaceId, record: WorkspaceRecord)
      modifies this
      ensures records == old(records)[workspace := record]
    {
      records := records[workspace := record];
    }
  }

  // === all clean-ups ===

  /** A shelf after some destructive steps, in whatever order. */
  function AllCleaned(cleanups: set<Cleanup>, shelf: Shelf): Shelf {
    Shelf(map u | u in shelf.staging && RemoveStaging(u) !in cleanups :: shelf.staging[u],
          map g | g in shelf.generations && DropGeneration(g) !in cleanups :: shelf.generations[g])
  }

  lemma CleanedNothing(shelf: Shelf)
    ensures AllCleaned({}, shelf) == shelf
  {
  }

  lemma CleanedOneMore(cleanups: set<Cleanup>, c: Cleanup, shelf: Shelf)
    ensures CleanedUp(c, AllCleaned(cleanups, shelf)) == AllCleaned(cleanups + {c}, shelf)
  {
  }

  lemma CleanedFirst(c: Cleanup, rest: set<Cleanup>, shelf: Shelf)
    ensures AllCleaned(rest, CleanedUp(c, shelf)) == AllCleaned(rest + {c}, shelf)
  {
  }

  // === the engine ===

  /** The operation that was decided: a begin carries the id it drew. */
  function WithDrawn(op: Op, drawn: UploadId): Op {
    if op.OpBeginUpload? then op.(drawn := drawn) else op
  }

  /** A refusal leaves both stores as they were. */
  lemma RefusalsChangeNothing(site: Site, now: nat, st: Store, op: Op)
    requires Decide(site, now, st, op).answer.Refused?
    ensures Decide(site, now, st, op).change == Nothing
  {
  }

  /** Runs the rule of an upload operation. */
  method RunUpload(rules: Rules, op: Op, ghost k: nat) returns (result: Result<Answer, ApiError>, ghost drawn: UploadId)
    requires op.OpBeginUpload? || op.OpCommitUpload? || op.OpAbortUpload? || op.OpCleanStaging? || op.OpReconcile?
    requires OneTicketEach(rules.tickets, rules.now)
      && rules.source.OffersAt(k, rules.tickets.Keys + rules.tombstones.Keys)
    modifies rules, rules.shelf, rules.source
    ensures drawn !in old(rules.tickets) && drawn !in old(rules.tombstones)
    ensures var decision := Decide(rules.site, rules.now, old(rules.Stores()), WithDrawn(op, drawn));
      rules.Makes(decision.change) && IsAnswer(result, decision.answer)
  {
    drawn := rules.source.ids(k);
    match op
    case OpBeginUpload(caller, request, _) => result, drawn := rules.BeginUpload(caller, request, k);
    case OpCommitUpload(caller, upload) => result := rules.CommitUpload(caller, upload);
    case OpAbortUpload(caller, upload) => rules.AbortUpload(caller, upload); result := Ok(Done);
    case OpCleanStaging => var removed := rules.CleanStaging(); result := Ok(Swept(removed));
    case OpReconcile => rules.Reconcile(); result := Ok(Done);
  }

  /** Runs the rule of any other operation. */
  method RunOther(rules: Rules, op: Op) returns (result: Result<Answer, ApiError>)
    requires !(op.OpBeginUpload? || op.OpCommitUpload? || op.OpAbortUpload? || op.OpCleanStaging? || op.OpReconcile?)
    modifies rules, rules.shelf
    ensures var decision := Decide(rules.site, rules.now, old(rules.Stores()), op);
      rules.Makes(decision.change) && IsAnswer(result, decision.answer)
  {
    match op
    case OpDeleteItem(caller, partition, id, expected) => result := rules.DeleteItem(caller, partition, id, expected);
    case OpEnableEncryption(caller, seal) => result := rules.EnableEncryption(caller, seal);
    case OpFreshStart(caller, seal) => result := rules.FreshStart(caller, seal);
    case OpReplaceHeader(caller, seal) => result := rules.ReplaceHeader(caller, seal.keyId, seal.header);
    case OpBeginRewrite(caller, rewrite) => result := rules.BeginRewrite(caller, rewrite);
    case OpHeartbeatRewrite(caller) => result := rules.HeartbeatRewrite(caller);
    case OpTakeOverRewrite(caller) => result := rules.TakeOverRewrite(caller);
    case OpCommitRewrite(caller, newKeyId) => result := rules.CommitRewrite(caller, newKeyId);
    case OpAbortRewrite(caller, newKeyId) => result := rules.AbortRewrite(caller, newKeyId);
    case OpOperatorAbort(force) => result := rules.OperatorAbort(force);
  }

  class Engine {
    const shelf: MemoryShelf
    const ledger: MemoryLedger
    const source: IdSource
    const workspace: WorkspaceId
    const site: Site

    constructor (shelf: MemoryShelf, ledger: MemoryLedger, source: IdSource, workspace: WorkspaceId, site: Site)
      ensures this.shelf == shelf && this.ledger == ledger && this.source == source
      ensures this.workspace == workspace && this.site == site
    {
      this.shelf, this.ledger, this.source := shelf, ledger, source;
      this.workspace, this.site := workspace, site;
    }

    /** Both stores of this engine's workspace. */
    function Stores(): Store
      requires workspace in ledger.records
      reads shelf, ledger
    {
      Store(shelf.Contents(), ledger.records[workspace])
    }

    /** Takes the destructive steps a rule left, in the order it left them. */
    method CleanUp(after: seq<Cleanup>)
      modifies shelf
      ensures shelf.Contents() == AllCleaned(AsSet(after), old(shelf.Contents()))
    {
      var i := 0;
      CleanedNothing(shelf.Contents());
      assert AsSet(after[..0]) == {};
      while i < |after|
        invariant 0 <= i <= |after|
        invariant shelf.Contents() == AllCleaned(AsSet(after[..i]), old(shelf.Contents()))
      {
        match after[i] {
          case DropGeneration(generation) => shelf.DropGeneration(generation);
          case RemoveStaging(upload) => shelf.StageRemove(upload);
        }
        CleanedOneMore(AsSet(after[..i]), after[i], old(shelf.Contents()));
        assert after[..i + 1] == after[..i] + [after[i]];
        AsSetGrows(after[..i], after[i]);
        i := i + 1;
      }
      assert after[..i] == after;
    }

    /** Runs one rule on a copy of the record. */
    method RunRule(rec: WorkspaceRecord, op: Op, now: nat, ghost k: nat)
      returns (result: Result<Answer, ApiError>, changed: WorkspaceRecord, after: seq<Cleanup>, ghost drawn: UploadId)
      requires OneTicketEach(rec.tickets, now) && source.OffersAt(k, rec.tickets.Keys + rec.tombstones.Keys)
      modifies shelf, source
      ensures drawn !in rec.tickets && drawn !in rec.tombstones
      ensures var st := Store(old(shelf.Contents()), rec);
        var decision := Decide(site, now, st, WithDrawn(op, drawn));
        && IsAnswer(result, decision.answer)
        && Store(shelf.Contents(), changed) == Apply(decision.change, st)
        && AsSet(after) == Asked(decision.change, st.shelf, st.rec)
    {
      var rules := new Rules(rec, shelf, source, site, now);
      assert rules.Stores() == Store(old(shelf.Contents()), rec) && AsSet(rules.after) == {};
      if op.OpBeginUpload? || op.OpCommitUpload? || op.OpAbortUpload? || op.OpCleanStaging? || op.OpReconcile? {
        result, drawn := RunUpload(rules, op, k);
      } else {
        drawn := source.ids(k);
        result := RunOther(rules, op);
      }
      changed, after := rules.Record(), rules.after;
    }

    /** One rule as a transaction: a refusal drops the record it worked on, a
        success stores it, and only then are the clean-ups taken. */
    method Write(op: Op, now: nat, ghost k: nat) returns (result: Result<Answer, ApiError>, ghost drawn: UploadId)
      requires workspace in ledger.records ==>
        OneTicketEach(ledger.records[workspace].tickets, now)
        && source.OffersAt(k, ledger.records[workspace].tickets.Keys + ledger.records[workspace].tombstones.Keys)
      modifies shelf, ledger, source
      ensures workspace !in old(ledger.records) ==>
        result == Err(NotFound) && ledger.records == old(ledger.records) && shelf.Contents() == old(shelf.Contents())
      ensures workspace in old(ledger.records) ==>
        var st := old(Stores());
        var decision := Decide(site, now, st, WithDrawn(op, drawn));
        && drawn !in st.rec.tickets && drawn !in st.rec.tombstones
        && IsAnswer(result, decision.answer)
        && ledger.records == old(ledger.records)[workspace := RecordAfter(decision.change, st.shelf, st.rec)]
        && shelf.Contents()
             == AllCleaned(Asked(decision.change, st.shelf, st.rec), ShelfAfter(decision.change, st.shelf))
    {
      var loaded := ledger.Load(workspace);
      if loaded.Err? {
        drawn := source.ids(k);
        return Err(loaded.error), drawn;
      }
      ghost var st := Stores();
      var changed, after;
      result, changed, after, drawn := RunRule(loaded.value, op, now, k);
      if result.Err? {
        RefusalsChangeNothing(site, now, st, WithDrawn(op, drawn));
        CleanedNothing(st.shelf);
        return;
      }
      ledger.Commit(workspace, changed);
      CleanUp(after);
    }

    /** Makes the record of a workspace seen for the first time, then runs the
        repairs. */
    method Open(now: nat, ghost k: nat) returns (result: Result<Answer, ApiError>)
      requires var rec := if workspace in ledger.records then ledger.records[workspace] else NEW_RECORD;
        OneTicketEach(rec.tickets, now) && source.OffersAt(k, rec.tickets.Keys + rec.tombstones.Keys)
      modifies shelf, ledger, source
      ensures var rec := if workspace in old(ledger.records) then old(ledger.records)[workspace] else NEW_RECORD;
        var shelfBefore := old(shelf.Contents());
        && result == Ok(Done)
        && ledger.records == old(ledger.records)[workspace := RecordAfter(Reconcile(now), shelfBefore, rec)]
        && shelf.Contents() == AllCleaned(Asked(Reconcile(now), shelfBefore, rec), shelfBefore)
    {
      ledger.Create(workspace);
      ghost var drawn;
      result, drawn := Write(OpReconcile, now, k);
    }

    /** `putUploadContent` runs outside any transaction, on a copy of the record. */
    method PutUploadContent(caller: Caller, upload: UploadId, content: Reader, now: nat)
      returns (result: Result<(), ApiError>)
      requires content != shelf as object && workspace in ledger.records
      modifies shelf, content
      ensures ledger.records == old(ledger.records)
      ensures (result, shelf.Contents()) == Put(site, now, old(Stores()), caller, upload, Arriving(old(content.chunks)))
    {
      var loaded := ledger.Load(workspace);
      var rules := new Rules(loaded.value, shelf, source, site, now);
      result := rules.PutUploadContent(caller, upload, content);
    }
  }

  // === the engine's transactions are runs of the world ===

  function Cleans(list: seq<Cleanup>): seq<Event> {
    seq(|list|, i requires 0 <= i < |list| => Clean(list[i]))
  }

  predicate Distinct(list: seq<Cleanup>) {
    forall i, j :: 0 <= i < j < |list| ==> list[i] != list[j]
  }

  /** Taking pending clean-ups one by one, in any order, removes them all. */
  lemma {:induction false} CleaningAll(site: Site, w: World, list: seq<Cleanup>)
    requires Distinct(list) && AsSet(list) <= w.pending
    ensures Possible(site, w, Cleans(list))
    ensures End(site, w, Cleans(list)) == w.(
      store := Store(AllCleaned(AsSet(list), w.store.shelf), w.store.rec), pending := w.pending - AsSet(list))
    decreases |list|
  {
    if list == [] {
      CleanedNothing(w.store.shelf);
      assert AsSet(list) == {};
    } else {
      var next := Next(site, w, Clean(list[0]));
      assert Cleans(list)[1..] == Cleans(list[1..]);
      assert AsSet(list) == AsSet(list[1..]) + {list[0]};
      assert list[0] !in AsSet(list[1..]);
      CleaningAll(site, next, list[1..]);
      CleanedFirst(list[0], AsSet(list[1..]), w.store.shelf);
    }
  }

  /** What `Write` leaves is what a run of the world leaves: the transaction,
      then its clean-ups in any order, whatever others have left pending. */
  lemma WriteIsARun(site: Site, w: World, op: Op, list: seq<Cleanup>)
    requires Reachable(site, w) && Enabled(w, Do(op))
    requires Distinct(list) && AsSet(list) == Asked(Decide(site, w.now, w.store, op).change, w.store.shelf, w.store.rec)
    ensures var change := Decide(site, w.now, w.store, op).change;
      && Possible(site, Next(site, w, Do(op)), Cleans(list))
      && var end := End(site, Next(site, w, Do(op)), Cleans(list));
      && Reachable(site, end)
      && end.store == Store(AllCleaned(AsSet(list), ShelfAfter(change, w.store.shelf)),
           RecordAfter(change, w.store.shelf, w.store.rec))
      && end.pending == w.pending - AsSet(list) && end.up
  {
    var first := Next(site, w, Do(op));
    DoIsMaking(site, w, op);
    CleaningAll(site, first, list);
    RunInTwo(site, w, [Do(op)], Cleans(list));
    ReachableThen(site, w, [Do(op)] + Cleans(list));
  }

  /** What `Open` leaves, of a workspace that is down or new, is what a run
      leaves: the opening, then its clean-ups in any order. */
  lemma OpenIsARun(site: Site, w: World, list: seq<Cleanup>)
    requires Reachable(site, w) && Enabled(w, Open)
    requires Distinct(list) && AsSet(list) == Asked(Reconcile(w.now), w.store.shelf, w.store.rec)
    ensures Possible(site, Next(site, w, Open), Cleans(list))
    ensures var end := End(site, Next(site, w, Open), Cleans(list));
      && Reachable(site, end)
      && end.store
           == Store(AllCleaned(AsSet(list), w.store.shelf), RecordAfter(Reconcile(w.now), w.store.shelf, w.store.rec))
      && end.pending == {} && end.up
  {
    ReachableHasInv(site, w);
    CleaningAll(site, Next(site, w, Open), list);
    assert [Open][1..] == [];
    assert Possible(site, w, [Open]) && End(site, w, [Open]) == Next(site, w, Open);
    RunInTwo(site, w, [Open], Cleans(list));
    ReachableThen(site, w, [Open] + Cleans(list));
  }

  lemma DoIsMaking(site: Site, w: World, op: Op)
    requires Enabled(w, Do(op))
    ensures var change := Decide(site, w.now, w.store, op).change;
      var first := Next(site, w, Do(op));
      && first.store == Apply(change, w.store) && first.up
      && first.pending == w.pending + Asked(change, w.store.shelf, w.store.rec)
    ensures Possible(site, w, [Do(op)]) && End(site, w, [Do(op)]) == Next(site, w, Do(op))
  {
    assert [Do(op)][1..] == [];
  }
}
