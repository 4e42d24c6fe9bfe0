/** The requests around a rewrite: which of them are granted, which refused and
    why, and what each leaves of the stores, in terms of the record; and what
    everybody is shown while one is open, over every run. */
module Sessions {
  import opened Wrappers
  import opened Ids
  import opened Stores
  import opened Protocol
  import opened Changes
  import opened World
  import opened Invariants
  import opened Runs
  import opened Rewrites
  import opened Shown

  /** That is what a transaction of a run does. */
  lemma AnswersInRuns(site: Site, w: World, op: Op)
    requires Enabled(w, Do(op))
    ensures AnswerTo(site, w, Do(op)) == Some(Answered(site, w.now, w.store, op))
    ensures Next(site, w, Do(op)).store == Left(site, w.now, w.store, op)
  {
    DoApplies(site, w, op);
  }

  // === who may do what ===

  predicate Holds(rec: WorkspaceRecord, key: ApiKeyId) {
    rec.state.Rewriting? && rec.state.session.holder == key
  }

  predicate AnotherHolds(rec: WorkspaceRecord, key: ApiKeyId) {
    rec.state.Rewriting? && rec.state.session.holder != key
  }

  predicate LeaseRuns(rec: WorkspaceRecord, now: nat) {
    rec.state.Rewriting? && now < rec.state.session.leaseExpiresAt
  }

  /** The open session is held by the key for so long from now, and nothing
      else is different. */
  ghost predicate LeasedTo(site: Site, now: nat, st: Store, left: Store, key: ApiKeyId) {
    && st.rec.state.Rewriting? && left.shelf == st.shelf
    && left.rec == st.rec.(
         state := Rewriting(st.rec.state.session.(holder := key, leaseExpiresAt := now + site.limits.leaseSecs)))
  }

  /** A granted renewal and what it answers, or no change at all. */
  ghost predicate RenewsOr(site: Site, now: nat, st: Store, op: Op, key: ApiKeyId, granted: bool) {
    var answer, left := Answered(site, now, st, op), Left(site, now, st, op);
    && (answer.SessionOpen? <==> granted)
    && if granted then LeasedTo(site, now, st, left, key) && ShowsSession(answer.session, left)
       else answer.Refused? && left == st
  }

  lemma RenewalIsShown(site: Site, now: nat, st: Store, caller: Caller)
    requires st.rec.state.Rewriting?
    ensures var renewed := Renewed(site, now, st, caller); var left := Apply(renewed.change, st);
      && LeasedTo(site, now, st, left, caller.key)
      && renewed.answer.SessionOpen? && ShowsSession(renewed.answer.session, left)
  {
    SessionIsShown(Apply(Renewed(site, now, st, caller).change, st));
  }

  // === renewing ===

  /** A take-over is granted exactly when a session is open, the caller may
      write, and it is the holder or the lease is over. */
  lemma TakeOverExactly(site: Site, now: nat, st: Store, caller: Caller)
    ensures var op, rec := OpTakeOverRewrite(caller), st.rec; var answer := Answered(site, now, st, op);
      && RenewsOr(site, now, st, op, caller.key,
           caller.role == ReadWrite && rec.state.Rewriting?
           && (Holds(rec, caller.key) || rec.state.session.leaseExpiresAt <= now))
      && (answer == Refused(ForbiddenRole) <==> caller.role == ReadOnly)
      && (answer == Refused(NotFound) <==> caller.role == ReadWrite && rec.state.Settled?)
      && (answer == Refused(LeaseHeld) <==>
            caller.role == ReadWrite && AnotherHolds(rec, caller.key) && LeaseRuns(rec, now))
  {
    if st.rec.state.Rewriting? {
      RenewalIsShown(site, now, st, caller);
    }
  }

  /** A heartbeat exactly when the caller may write and holds the session. */
  lemma HeartbeatExactly(site: Site, now: nat, st: Store, caller: Caller)
    ensures var op, rec := OpHeartbeatRewrite(caller), st.rec; var answer := Answered(site, now, st, op);
      && RenewsOr(site, now, st, op, caller.key, caller.role == ReadWrite && Holds(rec, caller.key))
      && (answer == Refused(ForbiddenRole) <==> caller.role == ReadOnly)
      && (answer == Refused(NotFound) <==> caller.role == ReadWrite && rec.state.Settled?)
      && (answer == Refused(LeaseHeld) <==> caller.role == ReadWrite && AnotherHolds(rec, caller.key))
  {
    if st.rec.state.Rewriting? {
      RenewalIsShown(site, now, st, caller);
    }
  }

  // === beginning ===

  /** The request names the open session of its caller. */
  predicate Repeats(rec: WorkspaceRecord, caller: Caller, r: RewriteRequest) {
    Holds(rec, caller.key) && rec.state.session.kind == r.kind && rec.state.session.next.keyId == r.newKeyId
  }

  /** A plaintext workspace is migrated, a sealed one rotated. */
  predicate KindFits(seal: Option<Seal>, kind: RewriteKind) {
    match kind
    case Migrate => seal == None
    case Rotate => seal != None
  }

  predicate MayOpenTo(rec: WorkspaceRecord, r: RewriteRequest) {
    && rec.state.Settled? && KindFits(rec.state.seal, r.kind) && r.newKeyId !in rec.endedRewrites
    && KeyIn(rec.state.seal) == r.expectedKeyId && KeyIn(rec.state.seal) != Some(r.newKeyId)
  }

  /** Sent again by the holder it renews the lease. */
  lemma BeginAgainExactly(site: Site, now: nat, st: Store, caller: Caller, r: RewriteRequest)
    requires st.rec.state.Rewriting?
    ensures var op, rec := OpBeginRewrite(caller, r), st.rec; var answer := Answered(site, now, st, op);
      && RenewsOr(site, now, st, op, caller.key, caller.role == ReadWrite && Repeats(rec, caller, r))
      && (answer == Refused(ForbiddenRole) <==> caller.role == ReadOnly)
      && (answer == Refused(RewriteInProgress) <==> caller.role == ReadWrite && !Repeats(rec, caller, r))
  {
    RenewalIsShown(site, now, st, caller);
  }

  /** The session a settled workspace is opened to; nothing else is different. */
  ghost predicate OpenedTo(site: Site, now: nat, st: Store, left: Store, caller: Caller, r: RewriteRequest) {
    && st.rec.state.Settled? && left.shelf == st.shelf
    && left.rec == st.rec.(
         state := Rewriting(Session(r.kind, st.rec.state.seal, Seal(r.newKeyId, r.newHeader), caller.key,
                                    now + site.limits.leaseSecs, st.rec.nextGeneration)),
         nextGeneration := st.rec.nextGeneration + 1)
  }

  /** Of a settled workspace a rewrite is opened exactly when its kind fits,
      the key named is the current one, and the next is another that no
      aborted rewrite was to. */
  lemma BeginExactly(site: Site, now: nat, st: Store, caller: Caller, r: RewriteRequest)
    requires st.rec.state.Settled?
    ensures var op, rec := OpBeginRewrite(caller, r), st.rec;
      var answer, left := Answered(site, now, st, op), Left(site, now, st, op);
      && (answer.SessionOpen? <==> caller.role == ReadWrite && MayOpenTo(rec, r))
      && (if answer.SessionOpen? then OpenedTo(site, now, st, left, caller, r) && ShowsSession(answer.session, left)
          else left == st)
  {
    SessionIsShown(Left(site, now, st, OpBeginRewrite(caller, r)));
  }

  lemma BeginRefusedExactly(site: Site, now: nat, st: Store, caller: Caller, r: RewriteRequest)
    requires st.rec.state.Settled?
    ensures var rec, seal := st.rec, st.rec.state.seal;
      var answer := Answered(site, now, st, OpBeginRewrite(caller, r));
      && (answer == Refused(ForbiddenRole) <==> caller.role == ReadOnly)
      && (answer == Refused(RewriteEnded) <==>
            caller.role == ReadWrite && KindFits(seal, r.kind) && r.newKeyId in rec.endedRewrites)
      && (answer == Refused(KeyIdMismatch) <==>
            caller.role == ReadWrite && KindFits(seal, r.kind) && r.newKeyId !in rec.endedRewrites
            && KeyIn(seal) != r.expectedKeyId)
      && (answer == Refused(InvalidRequest) <==>
            caller.role == ReadWrite
            && (!KindFits(seal, r.kind)
                || (r.newKeyId !in rec.endedRewrites && KeyIn(seal) == r.expectedKeyId == Some(r.newKeyId))))
  {
  }

  // === ending ===

  /** Tickets that are not of a rewrite. */
  function OrdinaryTickets(tickets: map<UploadId, Ticket>): map<UploadId, Ticket> {
    map u | u in tickets && !tickets[u].request.inRewrite :: tickets[u]
  }

  /** Current is what was staged, under the key it was staged for. */
  ghost predicate SwitchedOver(st: Store, left: Store) {
    && st.rec.state.Rewriting? && left.shelf == st.shelf
    && left.rec == st.rec.(
         state := Settled(Some(st.rec.state.session.next)), generation := st.rec.state.session.stagedGeneration,
         used := st.rec.used - {st.rec.generation}, tickets := OrdinaryTickets(st.rec.tickets))
  }

  /** All is as before the session, and its key is ended. */
  ghost predicate GivenUp(st: Store, left: Store) {
    && st.rec.state.Rewriting? && left.shelf == st.shelf
    && left.rec == st.rec.(
         state := Settled(st.rec.state.session.prior), used := st.rec.used - {st.rec.state.session.stagedGeneration},
         tickets := OrdinaryTickets(st.rec.tickets),
         endedRewrites := st.rec.endedRewrites + {st.rec.state.session.next.keyId})
  }

  function StagedCount(st: Store): nat
    requires st.rec.state.Rewriting?
  {
    |st.shelf.Items(st.rec.state.session.stagedGeneration)|
  }

  function SourceCount(st: Store): nat { |st.shelf.Items(st.rec.generation)| }

  /** The caller may write and holds the session to that key. */
  predicate HoldsTo(rec: WorkspaceRecord, caller: Caller, key: KeyId) {
    caller.role == ReadWrite && Holds(rec, caller.key) && rec.state.session.next.keyId == key
  }

  lemma SwitchIsShown(st: Store)
    requires st.rec.state.Rewriting?
    ensures SwitchedOver(st, Apply(Switch, st)) && ShowsEncryption(View(Apply(Switch, st)), Apply(Switch, st))
  {
    EncryptionIsShown(Apply(Switch, st));
  }

  lemma EndIsShown(st: Store)
    requires st.rec.state.Rewriting?
    ensures GivenUp(st, Apply(EndAborted, st)) && ShowsEncryption(View(Apply(EndAborted, st)), Apply(EndAborted, st))
  {
    EncryptionIsShown(Apply(EndAborted, st));
  }

  /** A rewrite is committed exactly when its holder names its key and as many
      items are staged as there are. */
  lemma CommitExactly(site: Site, now: nat, st: Store, caller: Caller, key: KeyId)
    requires st.rec.state.Rewriting?
    ensures var op := OpCommitRewrite(caller, key);
      var answer, left := Answered(site, now, st, op), Left(site, now, st, op);
      && (answer.Encryption? <==> HoldsTo(st.rec, caller, key) && StagedCount(st) == SourceCount(st))
      && (if answer.Encryption? then SwitchedOver(st, left) && ShowsEncryption(answer.view, left) else left == st)
  {
    var decision := CommitRewrite(st, caller, key);
    SwitchIsShown(st);
    assert decision == Changed(Switch, st) || (decision.answer.Refused? && decision.change == Nothing);
  }

  /** One that is done is shown again, to whoever names its key. */
  lemma CommitAgainExactly(site: Site, now: nat, st: Store, caller: Caller, key: KeyId)
    requires st.rec.state.Settled?
    ensures var op := OpCommitRewrite(caller, key);
      var answer, left := Answered(site, now, st, op), Left(site, now, st, op);
      && (answer.Encryption? <==> caller.role == ReadWrite && KeyIn(st.rec.state.seal) == Some(key))
      && left == st && (answer.Encryption? ==> ShowsEncryption(answer.view, left))
  {
    ChangedIsShown(Nothing, st);
  }

  lemma CommitRefusedExactly(site: Site, now: nat, st: Store, caller: Caller, key: KeyId)
    ensures var rec := st.rec; var answer := Answered(site, now, st, OpCommitRewrite(caller, key));
      && (answer == Refused(ForbiddenRole) <==> caller.role == ReadOnly)
      && (answer == Refused(NotFound) <==>
            caller.role == ReadWrite && rec.state.Settled? && KeyIn(rec.state.seal) != Some(key))
      && (answer == Refused(LeaseHeld) <==> caller.role == ReadWrite && AnotherHolds(rec, caller.key))
      && (answer == Refused(KeyIdMismatch) <==>
            caller.role == ReadWrite && Holds(rec, caller.key) && rec.state.session.next.keyId != key)
      && (forall staged: nat, source: nat :: answer == Refused(RewriteIncomplete(staged, source)) <==>
            HoldsTo(rec, caller, key) && staged == StagedCount(st) && source == SourceCount(st) && staged != source)
  {
  }

  /** A rewrite is aborted exactly when its holder names its key. */
  lemma AbortExactly(site: Site, now: nat, st: Store, caller: Caller, key: KeyId)
    requires st.rec.state.Rewriting?
    ensures var op := OpAbortRewrite(caller, key);
      var answer, left := Answered(site, now, st, op), Left(site, now, st, op);
      && (answer.Encryption? <==> HoldsTo(st.rec, caller, key))
      && (if answer.Encryption? then GivenUp(st, left) && ShowsEncryption(answer.view, left) else left == st)
      && (answer == Refused(ForbiddenRole) <==> caller.role == ReadOnly)
      && (answer == Refused(LeaseHeld) <==> caller.role == ReadWrite && AnotherHolds(st.rec, caller.key))
      && (answer == Refused(KeyIdMismatch) <==>
            caller.role == ReadWrite && Holds(st.rec, caller.key) && st.rec.state.session.next.keyId != key)
  {
    EndIsShown(st);
    var decision := AbortRewrite(st, caller, key);
    assert decision == Changed(Change.EndAborted, st) || (decision.answer.Refused? && decision.change == Nothing);
  }

  /** With none open the abort only shows what there is. */
  lemma AbortAgainExactly(site: Site, now: nat, st: Store, caller: Caller, key: KeyId)
    requires st.rec.state.Settled?
    ensures var op := OpAbortRewrite(caller, key);
      var answer, left := Answered(site, now, st, op), Left(site, now, st, op);
      && left == st && (answer.Encryption? <==> caller.role == ReadWrite)
      && (if answer.Encryption? then ShowsEncryption(answer.view, left) else answer == Refused(ForbiddenRole))
  {
    ChangedIsShown(Nothing, st);
  }

  /** The operator ends a session whose lease is over, or any by force. */
  lemma OperatorAbortExactly(site: Site, now: nat, st: Store, force: bool)
    ensures var op, rec := OpOperatorAbort(force), st.rec;
      var answer, left := Answered(site, now, st, op), Left(site, now, st, op);
      && (answer.Encryption? <==> rec.state.Rewriting? && (force || rec.state.session.leaseExpiresAt <= now))
      && (if answer.Encryption? then GivenUp(st, left) && ShowsEncryption(answer.view, left) else left == st)
      && (answer == Refused(NotFound) <==> rec.state.Settled?)
      && (answer == Refused(LeaseHeld) <==> LeaseRuns(rec, now) && !force)
  {
    if st.rec.state.Rewriting? {
      EndIsShown(st);
    }
  }

  // === reading what is staged ===

  /** The holder, and nobody else, reads the staged items as they are. */
  lemma StagedReadsExactly(st: Store, caller: Caller, id: ItemId)
    ensures var item, list, rec := StagedItem(st, caller, id), StagedItemIds(st, caller), st.rec;
      && (forall found :: item == Ok(found) <==>
            Holds(rec, caller.key) && id in st.shelf.Items(rec.state.session.stagedGeneration)
            && st.shelf.Items(rec.state.session.stagedGeneration)[id] == found)
      && (item == Err(LeaseHeld) <==> AnotherHolds(rec, caller.key))
      && (item == Err(NotFound) <==>
            || rec.state.Settled?
            || (Holds(rec, caller.key) && id !in st.shelf.Items(rec.state.session.stagedGeneration)))
      && (list.Ok? <==> Holds(rec, caller.key))
      && (list.Ok? ==> ListsNewestFirst(list.value, st.shelf.Items(rec.state.session.stagedGeneration)))
      && (list == Err(LeaseHeld) <==> AnotherHolds(rec, caller.key)) && (list == Err(NotFound) <==> rec.state.Settled?)
  {
    if st.rec.state.Rewriting? {
      NewestFirstSorted(st.shelf.Items(st.rec.state.session.stagedGeneration).Keys);
    }
  }

  // === what is shown in every reachable state ===

  /** Every current item is under the key shown, none when none is shown; and
      every staged one under the key the session is to. */
  lemma ReadersAreShownTheirKey(site: Site, w: World)
    requires Reachable(site, w)
    ensures var view := View(w.store);
      && ShowsEncryption(view, w.store)
      && (forall id <- w.store.shelf.Items(w.store.rec.generation) ::
            w.store.shelf.Items(w.store.rec.generation)[id].envelope.under == view.keyId)
      && (view.rewrite.Some? ==>
            forall id <- view.rewrite.value.stagedIds ::
              var staged := w.store.shelf.Items(w.store.rec.state.session.stagedGeneration);
              id in staged && staged[id].envelope.under == Some(view.rewrite.value.newKeyId))
  {
    ReachableHasInv(site, w);
    EncryptionIsShown(w.store);
  }

  /** As long as a session is open it is of this kind and to this seal. */
  ghost predicate OfTerms(staged: nat, kind: RewriteKind, next: Seal, rec: WorkspaceRecord) {
    && staged < rec.nextGeneration
    && (rec.state.Rewriting? && rec.state.session.stagedGeneration == staged ==>
          rec.state.session.kind == kind && rec.state.session.next == next)
  }

  lemma ChangeKeepsTerms(site: Site, now: nat, st: Store, change: Change, staged: nat, kind: RewriteKind, next: Seal)
    requires Justified(site, now, st, change) && OfTerms(staged, kind, next, st.rec)
    ensures OfTerms(staged, kind, next, RecordAfter(change, st.shelf, st.rec))
  {
  }

  lemma {:induction false} RunKeepsTerms(site: Site, w: World, events: seq<Event>,
          staged: nat, kind: RewriteKind, next: Seal)
    requires Possible(site, w, events) && OfTerms(staged, kind, next, w.store.rec)
    ensures OfTerms(staged, kind, next, End(site, w, events).store.rec)
    decreases |events|
  {
    if events != [] {
      if events[0].Do? {
        DecisionsAreJustified(site, w.now, w.store, events[0].op);
        ChangeKeepsTerms(site, w.now, w.store, Decide(site, w.now, w.store, events[0].op).change, staged, kind, next);
      }
      RunKeepsTerms(site, Next(site, w, events[0]), events[1..], staged, kind, next);
    }
  }

  /** What is shown while a rewrite is open, over every run since it was begun:
      key and header of before, for readers, with the items of before; and the
      kind, the key and the header it was begun with. */
  lemma ShownAsBegun(site: Site, w: World, caller: Caller, r: RewriteRequest, events: seq<Event>)
    requires Reachable(site, w) && w.store.rec.state.Settled? && Enabled(w, Do(OpBeginRewrite(caller, r)))
    requires Answered(site, w.now, w.store, OpBeginRewrite(caller, r)).SessionOpen?
    requires Possible(site, Next(site, w, Do(OpBeginRewrite(caller, r))), events)
    requires var rec := End(site, Next(site, w, Do(OpBeginRewrite(caller, r))), events).store.rec;
      rec.state.Rewriting? && rec.state.session.stagedGeneration == w.store.rec.nextGeneration
    ensures var end := End(site, Next(site, w, Do(OpBeginRewrite(caller, r))), events).store;
      var view, seal := View(end), w.store.rec.state.seal;
      && view.state == InRewrite && view.keyId == KeyIn(seal) && view.header == HeaderIn(seal)
      && end.shelf.Items(end.rec.generation) == w.store.shelf.Items(w.store.rec.generation)
      && view.rewrite.Some? && view.rewrite.value.kind == r.kind
      && view.rewrite.value.newKeyId == r.newKeyId && view.rewrite.value.newHeader == r.newHeader
      && view.rewrite.value.sourceItems == |w.store.shelf.Items(w.store.rec.generation)|
  {
    var first := Next(site, w, Do(OpBeginRewrite(caller, r)));
    var staged := w.store.rec.nextGeneration;
    ReachableHasInv(site, w);
    BeginningReaches(site, w, caller, r);
    NextKeepsInv(site, w, Do(OpBeginRewrite(caller, r)));
    RunKeepsSource(site, w.store, staged, r.newKeyId, first, events);
    BeginExactly(site, w.now, w.store, caller, r);
    AnswersInRuns(site, w, OpBeginRewrite(caller, r));
    RunKeepsTerms(site, first, events, staged, r.kind, Seal(r.newKeyId, r.newHeader));
    EncryptionIsShown(End(site, first, events).store);
  }
}
