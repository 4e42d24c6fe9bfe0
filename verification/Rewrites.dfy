/** Rewrite sessions over whole runs: aborting one undoes it, and until its
    lease is over it is its holder's alone. */
module Rewrites {
  import opened Wrappers
  import opened Ids
  import opened Stores
  import opened Protocol
  import opened Changes
  import opened World
  import opened Invariants
  import opened Runs

  // === an abort conserves ===

  /** The session whose staged generation is `staged` is open, over the
      workspace as it was in `before`. */
  ghost predicate OpenOver(before: Store, staged: nat, key: KeyId, st: Store) {
    && st.rec.state.Rewriting? && st.rec.state.session.stagedGeneration == staged
    && before.rec.state == Settled(st.rec.state.session.prior)
    && st.rec.state.session.next.keyId == key
    && st.rec.generation == before.rec.generation && st.rec.plain == before.rec.plain
    && (forall g <- before.rec.Live() :: st.shelf.Items(g) == before.shelf.Items(g))
  }

  /** Either that session is open so, or it has ended for good. */
  ghost predicate OpenOrOver(before: Store, staged: nat, key: KeyId, st: Store) {
    && staged < st.rec.nextGeneration
    && (st.rec.state.Rewriting? && st.rec.state.session.stagedGeneration == staged ==>
          OpenOver(before, staged, key, st))
  }

  lemma ChangeKeepsSource(site: Site, now: nat, before: Store, staged: nat, key: KeyId, st: Store,
          pending: set<Cleanup>, change: Change)
    requires GenerationsOk(st, pending) && StateOk(st.rec) && Justified(site, now, st, change)
    requires OpenOrOver(before, staged, key, st)
    ensures OpenOrOver(before, staged, key, Apply(change, st))
  {
    ChangeGrows(site, now, st, change);
    if st.rec.state.Rewriting? && st.rec.state.session.stagedGeneration == staged {
      RewriteLeavesSource(site, now, st, pending, change);
      assert before.rec.Live() <= st.rec.Live();
    }
  }

  /** While a session is open no change, whole or half, touches a live
      generation other than the staged one, or the pointers. */
  lemma RewriteLeavesSource(site: Site, now: nat, st: Store, pending: set<Cleanup>, change: Change)
    requires GenerationsOk(st, pending) && StateOk(st.rec) && Justified(site, now, st, change)
    requires st.rec.state.Rewriting?
    ensures forall g <- st.rec.Live() | g != st.rec.state.session.stagedGeneration ::
      ShelfAfter(change, st.shelf).Items(g) == st.shelf.Items(g)
    ensures var rec := RecordAfter(change, st.shelf, st.rec);
      rec.state.Rewriting? ==>
        && rec.generation == st.rec.generation && rec.plain == st.rec.plain
        && rec.state.session.stagedGeneration == st.rec.state.session.stagedGeneration
        && rec.state.session.prior == st.rec.state.session.prior
        && rec.state.session.next == st.rec.state.session.next
  {
  }

  lemma HalfChangeKeepsSource(site: Site, now: nat, before: Store, staged: nat, key: KeyId, st: Store,
          pending: set<Cleanup>, change: Change)
    requires GenerationsOk(st, pending) && StateOk(st.rec) && Justified(site, now, st, change)
    requires OpenOrOver(before, staged, key, st)
    ensures OpenOrOver(before, staged, key, Store(ShelfAfter(change, st.shelf), st.rec))
  {
    if st.rec.state.Rewriting? && st.rec.state.session.stagedGeneration == staged {
      RewriteLeavesSource(site, now, st, pending, change);
      assert before.rec.Live() <= st.rec.Live();
    }
  }

  lemma StepKeepsSource(site: Site, before: Store, staged: nat, key: KeyId, w: World, e: Event)
    requires Inv(site, w) && Enabled(w, e) && OpenOrOver(before, staged, key, w.store)
    ensures OpenOrOver(before, staged, key, Next(site, w, e).store)
  {
    match e
    case Do(op) =>
      DecisionsAreJustified(site, w.now, w.store, op);
      ChangeKeepsSource(site, w.now, before, staged, key, w.store, w.pending, Decide(site, w.now, w.store, op).change);
    case DieInside(op) =>
      DecisionsAreJustified(site, w.now, w.store, op);
      HalfChangeKeepsSource(site, w.now, before, staged, key, w.store, w.pending,
        Decide(site, w.now, w.store, op).change);
    case Clean(c) =>
      CleaningSparesLive(w.store, w.pending, w.hist, c);
    case _ =>
  }

  lemma {:induction false} RunKeepsSource(site: Site, before: Store, staged: nat, key: KeyId, w: World,
          events: seq<Event>)
    requires Inv(site, w) && Possible(site, w, events) && OpenOrOver(before, staged, key, w.store)
    ensures OpenOrOver(before, staged, key, End(site, w, events).store)
    decreases |events|
  {
    if events != [] {
      StepKeepsSource(site, before, staged, key, w, events[0]);
      NextKeepsInv(site, w, events[0]);
      RunKeepsSource(site, before, staged, key, Next(site, w, events[0]), events[1..]);
    }
  }

  /** What a successful `beginRewrite` of a settled workspace changes. */
  lemma BeginningOpens(site: Site, now: nat, st: Store, caller: Caller, r: RewriteRequest)
    requires st.rec.state.Settled? && BeginRewrite(site, now, st, caller, r).answer.SessionOpen?
    ensures var change := BeginRewrite(site, now, st, caller, r).change;
      change.OpenSession? && change.session.prior == st.rec.state.seal
      && change.session.stagedGeneration == st.rec.nextGeneration && change.session.next.keyId == r.newKeyId
  {
  }

  lemma OpeningIsOver(st: Store, session: Session)
    requires st.rec.state == Settled(session.prior) && session.stagedGeneration == st.rec.nextGeneration
    ensures OpenOrOver(st, session.stagedGeneration, session.next.keyId, Apply(OpenSession(session), st))
  {
  }

  predicate IsAbort(op: Op) { op.OpAbortRewrite? || op.OpOperatorAbort? }

  lemma AbortEndsIt(site: Site, now: nat, before: Store, staged: nat, key: KeyId, st: Store, op: Op)
    requires IsAbort(op) && OpenOver(before, staged, key, st)
    requires !Decide(site, now, st, op).answer.Refused?
    ensures Decide(site, now, st, op).change == EndAborted
    ensures Decide(site, now, st, op).answer == Encryption(View(Apply(EndAborted, st)))
    ensures var after := Apply(EndAborted, st);
      && after.rec.state == before.rec.state
      && after.rec.generation == before.rec.generation && after.rec.plain == before.rec.plain
      && key in after.rec.endedRewrites
      && View(after) == View(before)
      && forall g <- before.rec.Live() :: after.shelf.Items(g) == before.shelf.Items(g)
  {
  }

  lemma AbortRestores(site: Site, before: Store, staged: nat, key: KeyId, w: World, abort: Op)
    requires IsAbort(abort) && OpenOver(before, staged, key, w.store) && Enabled(w, Do(abort))
    requires !Decide(site, w.now, w.store, abort).answer.Refused?
    ensures var after := Next(site, w, Do(abort)).store;
      && after.rec.state == before.rec.state
      && after.rec.generation == before.rec.generation && after.rec.plain == before.rec.plain
      && key in after.rec.endedRewrites
      && View(after) == View(before)
      && forall g <- before.rec.Live() :: after.shelf.Items(g) == before.shelf.Items(g)
  {
    AbortEndsIt(site, w.now, before, staged, key, w.store, abort);
    assert Next(site, w, Do(abort)).store == Apply(EndAborted, w.store);
  }

  lemma BeginningReaches(site: Site, w: World, caller: Caller, r: RewriteRequest)
    requires w.store.rec.state.Settled? && Enabled(w, Do(OpBeginRewrite(caller, r)))
    requires BeginRewrite(site, w.now, w.store, caller, r).answer.SessionOpen?
    ensures OpenOrOver(w.store, w.store.rec.nextGeneration, r.newKeyId,
      Next(site, w, Do(OpBeginRewrite(caller, r))).store)
  {
    BeginningOpens(site, w.now, w.store, caller, r);
    OpeningIsOver(w.store, BeginRewrite(site, w.now, w.store, caller, r).change.session);
    BeginningApplies(site, w, caller, r);
  }

  lemma BeginningApplies(site: Site, w: World, caller: Caller, r: RewriteRequest)
    requires Enabled(w, Do(OpBeginRewrite(caller, r)))
    ensures Next(site, w, Do(OpBeginRewrite(caller, r))).store
      == Apply(BeginRewrite(site, w.now, w.store, caller, r).change, w.store)
  {
    DoApplies(site, w, OpBeginRewrite(caller, r));
  }

  lemma DoApplies(site: Site, w: World, op: Op)
    requires Enabled(w, Do(op))
    ensures Next(site, w, Do(op)).store == Apply(Decide(site, w.now, w.store, op).change, w.store)
  {
  }

  /** The main result on aborts: whatever happened since the session was
      opened, by whomever, deaths and take-overs included, an abort of it
      leaves state, pointers, view and items as before it was opened. */
  lemma AbortConserves(site: Site, w: World, caller: Caller, r: RewriteRequest, events: seq<Event>, abort: Op)
    requires Reachable(site, w) && w.store.rec.state.Settled? && Enabled(w, Do(OpBeginRewrite(caller, r)))
    requires BeginRewrite(site, w.now, w.store, caller, r).answer.SessionOpen?
    requires Possible(site, Next(site, w, Do(OpBeginRewrite(caller, r))), events)
    requires IsAbort(abort)
    requires var end := End(site, Next(site, w, Do(OpBeginRewrite(caller, r))), events);
      && Enabled(end, Do(abort)) && !Decide(site, end.now, end.store, abort).answer.Refused?
      && end.store.rec.state.Rewriting?
      && end.store.rec.state.session.stagedGeneration == w.store.rec.nextGeneration
    ensures var end := End(site, Next(site, w, Do(OpBeginRewrite(caller, r))), events);
      var after := Next(site, end, Do(abort)).store;
      && after.rec.state == w.store.rec.state
      && after.rec.generation == w.store.rec.generation && after.rec.plain == w.store.rec.plain
      && r.newKeyId in after.rec.endedRewrites
      && View(after) == View(w.store)
      && forall g <- w.store.rec.Live() :: after.shelf.Items(g) == w.store.shelf.Items(g)
  {
    ReachableHasInv(site, w);
    var first := Next(site, w, Do(OpBeginRewrite(caller, r)));
    BeginningReaches(site, w, caller, r);
    NextKeepsInv(site, w, Do(OpBeginRewrite(caller, r)));
    RunKeepsSource(site, w.store, w.store.rec.nextGeneration, r.newKeyId, first, events);
    AbortRestores(site, w.store, w.store.rec.nextGeneration, r.newKeyId, End(site, first, events), abort);
  }

  // === an aborted key is ended for good ===

  lemma ChangeKeepsEnded(change: Change, st: Store, key: KeyId)
    requires key in st.rec.endedRewrites
    ensures key in RecordAfter(change, st.shelf, st.rec).endedRewrites
  {
  }

  lemma {:induction false} EndedStaysEnded(site: Site, w: World, events: seq<Event>, key: KeyId)
    requires Possible(site, w, events) && key in w.store.rec.endedRewrites
    ensures key in End(site, w, events).store.rec.endedRewrites
    decreases |events|
  {
    if events != [] {
      var e := events[0];
      if e.Do? {
        ChangeKeepsEnded(Decide(site, w.now, w.store, e.op).change, w.store, key);
      }
      EndedStaysEnded(site, Next(site, w, e), events[1..], key);
    }
  }

  /** The key id of an aborted rewrite never opens a session again. */
  lemma AbortedKeyNeverOpens(site: Site, w: World, events: seq<Event>, caller: Caller, r: RewriteRequest)
    requires Reachable(site, w) && Possible(site, w, events)
    requires r.newKeyId in w.store.rec.endedRewrites
    ensures var end := End(site, w, events);
      BeginRewrite(site, end.now, end.store, caller, r).answer.Refused?
  {
    ReachableHasInv(site, w);
    RunKeepsInv(site, w, events);
    EndedStaysEnded(site, w, events, r.newKeyId);
  }

  // === the lease ===

  function By(op: Op): Option<ApiKeyId> {
    match op
    case OpOperatorAbort(_) => None
    case OpCleanStaging => None
    case OpReconcile => None
    case _ => Some(op.caller.key)
  }

  predicate ByOthers(op: Op, holder: ApiKeyId) {
    By(op) != Some(holder) && op != OpOperatorAbort(true)
  }

  predicate OthersOnly(e: Event, holder: ApiKeyId) {
    match e
    case Do(op) => ByOthers(op, holder)
    case DieInside(op) => ByOthers(op, holder)
    case _ => true
  }

  /** What a change of anyone but the holder may be: unless the lease has
      expired, one that gives up or sweeps uploads. */
  predicate IsOthers(change: Change, op: Op, expired: bool) {
    || change.Nothing? || change.GiveUp? || change.Sweep? || change.Reconcile?
    || (expired && ((change.Renew? && op.OpTakeOverRewrite? && change.holder == op.caller.key)
                    || (change.EndAborted? && op.OpOperatorAbort?)))
  }

  /** All that anyone but the holder can do while a session is open. */
  lemma WhatOthersCanDo(site: Site, now: nat, st: Store, op: Op)
    requires st.rec.state.Rewriting? && ByOthers(op, st.rec.state.session.holder)
    ensures IsOthers(Decide(site, now, st, op).change, op, st.rec.state.session.leaseExpiresAt <= now)
  {
  }

  lemma OthersTouchNothing(change: Change, op: Op, st: Store)
    requires IsOthers(change, op, false)
    ensures ShelfAfter(change, st.shelf) == st.shelf
    ensures RecordAfter(change, st.shelf, st.rec).state == st.rec.state
  {
  }

  lemma OthersLeaveSession(site: Site, w: World, e: Event)
    requires Inv(site, w) && Enabled(w, e) && w.store.rec.state.Rewriting?
    requires OthersOnly(e, w.store.rec.state.session.holder) && w.now < w.store.rec.state.session.leaseExpiresAt
    ensures var next := Next(site, w, e);
      next.store.rec.state == w.store.rec.state
      && next.store.shelf.Items(w.store.rec.state.session.stagedGeneration)
         == w.store.shelf.Items(w.store.rec.state.session.stagedGeneration)
  {
    if e.Do? || e.DieInside? {
      OperationsLeaveSession(site, w, e);
    } else {
      OtherEventsLeaveSession(site, w, e);
    }
  }

  lemma OtherEventsLeaveSession(site: Site, w: World, e: Event)
    requires Inv(site, w) && Enabled(w, e) && w.store.rec.state.Rewriting? && !e.Do? && !e.DieInside?
    ensures var next := Next(site, w, e);
      next.store.rec.state == w.store.rec.state
      && next.store.shelf.Items(w.store.rec.state.session.stagedGeneration)
         == w.store.shelf.Items(w.store.rec.state.session.stagedGeneration)
  {
    if e.Clean? {
      CleaningSparesLive(w.store, w.pending, w.hist, e.cleanup);
    }
  }

  lemma OperationsLeaveSession(site: Site, w: World, e: Event)
    requires Inv(site, w) && Enabled(w, e) && w.store.rec.state.Rewriting? && (e.Do? || e.DieInside?)
    requires OthersOnly(e, w.store.rec.state.session.holder) && w.now < w.store.rec.state.session.leaseExpiresAt
    ensures var next := Next(site, w, e);
      next.store.rec.state == w.store.rec.state
      && next.store.shelf.Items(w.store.rec.state.session.stagedGeneration)
         == w.store.shelf.Items(w.store.rec.state.session.stagedGeneration)
  {
    WhatOthersCanDo(site, w.now, w.store, e.op);
    OthersTouchNothing(Decide(site, w.now, w.store, e.op).change, e.op, w.store);
  }

  lemma {:induction false} OthersLeaveSessionOverRuns(site: Site, w: World, events: seq<Event>)
    requires Inv(site, w) && Possible(site, w, events) && w.store.rec.state.Rewriting?
    requires forall e <- events :: OthersOnly(e, w.store.rec.state.session.holder)
    requires End(site, w, events).now < w.store.rec.state.session.leaseExpiresAt
    ensures var end := End(site, w, events);
      end.store.rec.state == w.store.rec.state
      && end.store.shelf.Items(w.store.rec.state.session.stagedGeneration)
         == w.store.shelf.Items(w.store.rec.state.session.stagedGeneration)
    decreases |events|
  {
    if events != [] {
      TimeGoesOnOverRuns(site, w, events);
      NextKeepsInv(site, w, events[0]);
      OthersLeaveSession(site, w, events[0]);
      OthersLeaveSessionOverRuns(site, Next(site, w, events[0]), events[1..]);
    }
  }

  /** What every answer with a session means: its caller holds a lease that
      runs for `leaseSecs` from now. */
  lemma RenewingRenews(site: Site, now: nat, st: Store, op: Op)
    requires op.OpBeginRewrite? || op.OpHeartbeatRewrite? || op.OpTakeOverRewrite?
    requires Decide(site, now, st, op).answer.SessionOpen?
    ensures var after := Apply(Decide(site, now, st, op).change, st);
      && after.rec.state.Rewriting?
      && after.rec.state.session.holder == op.caller.key
      && after.rec.state.session.leaseExpiresAt == now + site.limits.leaseSecs
  {
    SessionsAreLeased(site, now, st, op);
    LeasingLeases(site, now, st, op, Decide(site, now, st, op).change);
  }

  lemma SessionsAreLeased(site: Site, now: nat, st: Store, op: Op)
    requires op.OpBeginRewrite? || op.OpHeartbeatRewrite? || op.OpTakeOverRewrite?
    requires Decide(site, now, st, op).answer.SessionOpen?
    ensures LeasesToCaller(site, now, st, op, Decide(site, now, st, op).change)
  {
    if op.OpBeginRewrite? && st.rec.state.Settled? {
      BeginningOpens(site, now, st, op.caller, op.rewrite);
    }
  }

  lemma LeasingLeases(site: Site, now: nat, st: Store, op: Op, change: Change)
    requires op.OpBeginRewrite? || op.OpHeartbeatRewrite? || op.OpTakeOverRewrite?
    requires LeasesToCaller(site, now, st, op, change)
    ensures var after := RecordAfter(change, st.shelf, st.rec);
      && after.state.Rewriting? && after.state.session.holder == op.caller.key
      && after.state.session.leaseExpiresAt == now + site.limits.leaseSecs
  {
  }

  predicate LeasesToCaller(site: Site, now: nat, st: Store, op: Op, change: Change)
    requires op.OpBeginRewrite? || op.OpHeartbeatRewrite? || op.OpTakeOverRewrite?
  {
    var lease := now + site.limits.leaseSecs;
    || (change.OpenSession? && change.session.holder == op.caller.key && change.session.leaseExpiresAt == lease)
    || (change == Renew(op.caller.key, lease) && st.rec.state.Rewriting?)
  }

  /** The main result on leases: from any renewal until `leaseSecs` later,
      whatever everybody else does, deaths included but an operator's force
      apart, the session and what it staged stay exactly as they are. */
  lemma LeaseIsExclusive(site: Site, w: World, op: Op, events: seq<Event>)
    requires Reachable(site, w) && Enabled(w, Do(op))
    requires op.OpBeginRewrite? || op.OpHeartbeatRewrite? || op.OpTakeOverRewrite?
    requires Decide(site, w.now, w.store, op).answer.SessionOpen?
    requires Possible(site, Next(site, w, Do(op)), events) && forall e <- events :: OthersOnly(e, op.caller.key)
    requires End(site, Next(site, w, Do(op)), events).now < w.now + site.limits.leaseSecs
    ensures var first, end := Next(site, w, Do(op)), End(site, Next(site, w, Do(op)), events);
      && first.store.rec.state.Rewriting? && first.store.rec.state.session.holder == op.caller.key
      && end.store.rec.state == first.store.rec.state
      && end.store.shelf.Items(first.store.rec.state.session.stagedGeneration)
         == first.store.shelf.Items(first.store.rec.state.session.stagedGeneration)
  {
    ReachableHasInv(site, w);
    RenewingRenews(site, w.now, w.store, op);
    NextKeepsInv(site, w, Do(op));
    OthersLeaveSessionOverRuns(site, Next(site, w, Do(op)), events);
  }

  // === take-overs ===

  /** The holder changes only when another takes over, at or after expiry. */
  lemma HolderChangesByTakeOver(site: Site, w: World, e: Event)
    requires Enabled(w, e) && w.store.rec.state.Rewriting?
    requires var next := Next(site, w, e).store.rec.state;
      next.Rewriting? && next.session.holder != w.store.rec.state.session.holder
    ensures e.Do? && e.op.OpTakeOverRewrite? && e.op.caller.role == ReadWrite
    ensures e.op.caller.key == Next(site, w, e).store.rec.state.session.holder
    ensures w.store.rec.state.session.leaseExpiresAt <= w.now
  {
    if e.Do? {
      if ByOthers(e.op, w.store.rec.state.session.holder) {
        WhatOthersCanDo(site, w.now, w.store, e.op);
      } else {
        HolderKeepsHolding(site, w.now, w.store, e.op);
      }
    } else {
      OnlyOperationsChangeState(site, w, e);
    }
  }

  lemma OnlyOperationsChangeState(site: Site, w: World, e: Event)
    requires Enabled(w, e) && !e.Do?
    ensures Next(site, w, e).store.rec.state == w.store.rec.state
  {
  }

  lemma HolderKeepsHolding(site: Site, now: nat, st: Store, op: Op)
    requires st.rec.state.Rewriting? && !ByOthers(op, st.rec.state.session.holder)
    ensures var after := RecordAfter(Decide(site, now, st, op).change, st.shelf, st.rec).state;
      after.Rewriting? ==> after.session.holder == st.rec.state.session.holder
  {
    DecisionsAreJustified(site, now, st, op);
    RenewsForItsCaller(site, now, st, op);
    OnlyRenewingChangesHolder(site, now, st, Decide(site, now, st, op).change);
  }

  lemma RenewsForItsCaller(site: Site, now: nat, st: Store, op: Op)
    ensures var change := Decide(site, now, st, op).change;
      change.Renew? ==> By(op) == Some(change.holder)
  {
  }

  lemma OnlyRenewingChangesHolder(site: Site, now: nat, st: Store, change: Change)
    requires st.rec.state.Rewriting? && Justified(site, now, st, change)
    ensures var after := RecordAfter(change, st.shelf, st.rec).state;
      after.Rewriting? ==> after.session.holder == if change.Renew? then change.holder else st.rec.state.session.holder
  {
  }

  predicate TakesOver(e: Event, key: ApiKeyId) { e.Do? && e.op.OpTakeOverRewrite? && e.op.caller.key == key }

  predicate HeldByOther(rec: WorkspaceRecord, staged: nat, former: ApiKeyId) {
    && staged < rec.nextGeneration
    && (rec.state.Rewriting? && rec.state.session.stagedGeneration == staged ==> rec.state.session.holder != former)
  }

  lemma StepLeavesFormerOut(site: Site, w: World, e: Event, staged: nat, former: ApiKeyId)
    requires Inv(site, w) && Enabled(w, e) && !TakesOver(e, former) && HeldByOther(w.store.rec, staged, former)
    ensures HeldByOther(Next(site, w, e).store.rec, staged, former)
  {
    NumbersGrow(site, w, e);
    var now, later := w.store.rec.state, Next(site, w, e).store.rec.state;
    if now.Rewriting? && later.Rewriting? && now.session.holder != later.session.holder {
      HolderChangesByTakeOver(site, w, e);
    }
  }

  /** Who does not hold a session stays out of it until it takes over itself. */
  lemma {:induction false} FormerHolderStaysOut(site: Site, w: World, events: seq<Event>, staged: nat, former: ApiKeyId)
    requires Inv(site, w) && Possible(site, w, events) && forall e <- events :: !TakesOver(e, former)
    requires HeldByOther(w.store.rec, staged, former)
    ensures HeldByOther(End(site, w, events).store.rec, staged, former)
    decreases |events|
  {
    if events != [] {
      NextKeepsInv(site, w, events[0]);
      StepLeavesFormerOut(site, w, events[0], staged, former);
      FormerHolderStaysOut(site, Next(site, w, events[0]), events[1..], staged, former);
    }
  }

  /** Generation numbers grow, and a session that was not open before has the
      newest of them. */
  lemma NumbersGrow(site: Site, w: World, e: Event)
    requires Inv(site, w) && Enabled(w, e)
    ensures var rec := Next(site, w, e).store.rec;
      && w.store.rec.nextGeneration <= rec.nextGeneration
      && (rec.state.Rewriting? ==>
            rec.state.session.stagedGeneration ==
              if w.store.rec.state.Rewriting? then w.store.rec.state.session.stagedGeneration
              else w.store.rec.nextGeneration)
  {
    if e.Do? {
      DecisionsAreJustified(site, w.now, w.store, e.op);
      ChangeGrows(site, w.now, w.store, Decide(site, w.now, w.store, e.op).change);
    }
  }

  lemma ChangeGrows(site: Site, now: nat, st: Store, change: Change)
    requires Justified(site, now, st, change)
    ensures var rec := RecordAfter(change, st.shelf, st.rec);
      && st.rec.nextGeneration <= rec.nextGeneration
      && (rec.state.Rewriting? ==>
            rec.state.session.stagedGeneration ==
              if st.rec.state.Rewriting? then st.rec.state.session.stagedGeneration else st.rec.nextGeneration)
  {
  }

  /** Requests of a session, as anyone may send them. */
  predicate OfSession(op: Op, now: nat, rec: WorkspaceRecord)
    requires rec.state.Rewriting?
  {
    match op
    case OpBeginUpload(_, request, _) => request.inRewrite
    case OpCommitUpload(_, upload) => upload in rec.tickets
    case OpBeginRewrite(_, _) => true
    case OpHeartbeatRewrite(_) => true
    case OpTakeOverRewrite(_) => rec.state.session.leaseExpiresAt > now
    case OpCommitRewrite(_, _) => true
    case OpAbortRewrite(_, _) => true
    case _ => false
  }

  /** Who does not hold the session is refused all of it: also commits of
      uploads it began while it did, and to read what is staged. */
  lemma NonHolderIsRefused(site: Site, w: World, op: Op, reader: Caller, id: ItemId)
    requires Reachable(site, w) && w.store.rec.state.Rewriting? && OfSession(op, w.now, w.store.rec)
    requires op.caller.key != w.store.rec.state.session.holder && reader.key != w.store.rec.state.session.holder
    ensures Decide(site, w.now, w.store, op).answer.Refused?
    ensures StagedItem(w.store, reader, id).Err? && StagedItemIds(w.store, reader).Err?
  {
    ReachableHasInv(site, w);
  }
}
