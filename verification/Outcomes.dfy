/** One outcome for each upload, however often its commit is sent and whatever
    dies in between; and whose item a repaired commit claims. */
module Outcomes {
  import opened Wrappers
  import opened Ids
  import opened Stores
  import opened Protocol
  import opened Changes
  import opened World
  import opened Invariants
  import opened Preservation
  import opened Runs
  import opened Recovery

  // === outcomes stay ===

  lemma ChangeKeepsOutcomes(site: Site, now: nat, st: Store, hist: History, change: Change, upload: UploadId)
    requires UploadsOk(st.rec, hist) && Justified(site, now, st, change) && upload in hist.outcomes
    ensures var later := AfterRecord(change, st.rec, AfterShelfStep(change, hist));
      upload in later.outcomes && later.outcomes[upload] == hist.outcomes[upload]
  {
  }

  lemma OutcomeStays(site: Site, w: World, e: Event, upload: UploadId)
    requires Inv(site, w) && Enabled(w, e) && upload in w.hist.outcomes
    ensures var later := Next(site, w, e).hist;
      upload in later.outcomes && later.outcomes[upload] == w.hist.outcomes[upload]
  {
    if e.Do? {
      OutcomeStaysByOperation(site, w, e.op, upload);
    }
  }

  lemma OutcomeStaysByOperation(site: Site, w: World, op: Op, upload: UploadId)
    requires Inv(site, w) && Enabled(w, Do(op)) && upload in w.hist.outcomes
    ensures var later := Next(site, w, Do(op)).hist;
      upload in later.outcomes && later.outcomes[upload] == w.hist.outcomes[upload]
  {
    DecisionsAreJustified(site, w.now, w.store, op);
    ChangeKeepsOutcomes(site, w.now, w.store, Drawing(op, w.hist), Decide(site, w.now, w.store, op).change, upload);
  }

  lemma ChangeKeepsStone(site: Site, now: nat, st: Store, hist: History, change: Change, upload: UploadId)
    requires UploadsOk(st.rec, hist) && Justified(site, now, st, change)
    requires upload in st.rec.tombstones && st.rec.tombstones[upload].expiresAt > now
    ensures var rec := RecordAfter(change, st.shelf, st.rec);
      upload in rec.tombstones && rec.tombstones[upload] == st.rec.tombstones[upload]
  {
  }

  /** A remembered outcome is kept until it expires. */
  lemma StoneStays(site: Site, w: World, e: Event, upload: UploadId)
    requires Inv(site, w) && Enabled(w, e) && upload in w.store.rec.tombstones
    requires w.store.rec.tombstones[upload].expiresAt > w.now
    ensures var rec := Next(site, w, e).store.rec;
      upload in rec.tombstones && rec.tombstones[upload] == w.store.rec.tombstones[upload]
  {
    match e
    case Do(op) =>
      DecisionsAreJustified(site, w.now, w.store, op);
      ChangeKeepsStone(site, w.now, w.store, w.hist, Decide(site, w.now, w.store, op).change, upload);
    case _ =>
  }

  lemma {:induction false} OutcomeStaysOverRuns(site: Site, w: World, events: seq<Event>, upload: UploadId)
    requires Inv(site, w) && Possible(site, w, events) && upload in w.hist.outcomes
    ensures var end := End(site, w, events);
      && Inv(site, end)
      && upload in end.hist.outcomes && end.hist.outcomes[upload] == w.hist.outcomes[upload]
      && (upload in w.store.rec.tombstones && w.store.rec.tombstones[upload].expiresAt > end.now ==>
            upload in end.store.rec.tombstones && end.store.rec.tombstones[upload] == w.store.rec.tombstones[upload])
    decreases |events|
  {
    if events != [] {
      var next := Next(site, w, events[0]);
      NextKeepsInv(site, w, events[0]);
      OutcomeStays(site, w, events[0], upload);
      TimeGoesOn(site, w, events[0]);
      TimeGoesOnOverRuns(site, next, events[1..]);
      if upload in w.store.rec.tombstones && w.store.rec.tombstones[upload].expiresAt > End(site, w, events).now {
        StoneStays(site, w, events[0], upload);
      }
      OutcomeStaysOverRuns(site, next, events[1..], upload);
    }
  }

  /** What a commit that answers an outcome does. */
  lemma CommitFinishes(site: Site, now: nat, st: Store, caller: Caller, upload: UploadId, outcome: PutOutcome)
    requires CommitUpload(site, now, st, caller, upload).answer == Finished(outcome)
    ensures var change := CommitUpload(site, now, st, caller, upload).change;
      || (change == Nothing && Remembered(st.rec, now, caller, upload) == Some(outcome))
      || ((change.Publish? || change.Finish? || change.Repair?) && change.upload == upload
          && change.stone.outcome == outcome && change.stone.owner == caller.key
          && change.stone.expiresAt == now + site.limits.stagingSecs)
  {
  }

  lemma CommitRecords(site: Site, w: World, caller: Caller, upload: UploadId, outcome: PutOutcome)
    requires UploadsOk(w.store.rec, w.hist) && Enabled(w, Do(OpCommitUpload(caller, upload)))
    requires CommitUpload(site, w.now, w.store, caller, upload).answer == Finished(outcome)
    ensures var next := Making(CommitUpload(site, w.now, w.store, caller, upload).change, w);
      && upload in next.hist.outcomes && next.hist.outcomes[upload] == outcome
      && upload in next.store.rec.tombstones && next.store.rec.tombstones[upload].owner == caller.key
      && next.store.rec.tombstones[upload].outcome == outcome
      && (upload in w.store.rec.tickets ==>
            next.store.rec.tombstones[upload].expiresAt == w.now + site.limits.stagingSecs)
  {
    CommitFinishes(site, w.now, w.store, caller, upload, outcome);
  }

  lemma CommitAnswers(site: Site, now: nat, st: Store, hist: History, caller: Caller, upload: UploadId)
    requires UploadsOk(st.rec, hist) && upload in hist.outcomes
    ensures var answer := CommitUpload(site, now, st, caller, upload).answer;
      && (answer == Finished(hist.outcomes[upload]) || answer == Refused(NotFound))
      && (Remembered(st.rec, now, caller, upload).Some? ==> answer == Finished(hist.outcomes[upload]))
  {
  }

  /** Once a commit has answered an outcome, every later commit of that upload,
      by anyone and after anything, answers the same outcome or that it knows
      of none; and its owner is answered the outcome until it expires. */
  lemma OneOutcome(site: Site, w: World, caller: Caller, upload: UploadId, outcome: PutOutcome, events: seq<Event>,
          again: Caller)
    requires Reachable(site, w) && Enabled(w, Do(OpCommitUpload(caller, upload)))
    requires AnswerTo(site, w, Do(OpCommitUpload(caller, upload))) == Some(Finished(outcome))
    requires Possible(site, Next(site, w, Do(OpCommitUpload(caller, upload))), events)
    ensures var first := Next(site, w, Do(OpCommitUpload(caller, upload)));
      var end := End(site, first, events);
      var answer := Decide(site, end.now, end.store, OpCommitUpload(again, upload)).answer;
      && (answer == Finished(outcome) || answer == Refused(NotFound))
      && (again.key == caller.key && end.now < first.store.rec.tombstones[upload].expiresAt ==>
           answer == Finished(outcome))
      && (upload in w.store.rec.tickets ==>
            first.store.rec.tombstones[upload].expiresAt == w.now + site.limits.stagingSecs)
  {
    ReachableHasInv(site, w);
    CommitRecords(site, w, caller, upload, outcome);
    NextKeepsInv(site, w, Do(OpCommitUpload(caller, upload)));
    OutcomeStaysOverRuns(site, Next(site, w, Do(OpCommitUpload(caller, upload))), events, upload);
    var end := End(site, Next(site, w, Do(OpCommitUpload(caller, upload))), events);
    CommitAnswers(site, end.now, end.store, end.hist, again, upload);
  }

  /** A finished upload is given no other outcome to remember. */
  lemma ChangeMakesNoStone(site: Site, now: nat, st: Store, hist: History, change: Change, upload: UploadId)
    requires UploadsOk(st.rec, hist) && Justified(site, now, st, change) && upload in hist.outcomes
    ensures var rec := RecordAfter(change, st.shelf, st.rec);
      upload in rec.tombstones ==> upload in st.rec.tombstones && rec.tombstones[upload] == st.rec.tombstones[upload]
  {
  }

  lemma NoNewStone(site: Site, w: World, e: Event, upload: UploadId)
    requires Inv(site, w) && Enabled(w, e) && upload in w.hist.outcomes
    ensures var rec := Next(site, w, e).store.rec;
      upload in rec.tombstones ==>
        upload in w.store.rec.tombstones && rec.tombstones[upload] == w.store.rec.tombstones[upload]
  {
    if e.Do? {
      DecisionsAreJustified(site, w.now, w.store, e.op);
      ChangeMakesNoStone(site, w.now, w.store, w.hist, Decide(site, w.now, w.store, e.op).change, upload);
    }
  }

  lemma {:induction false} NoNewStoneOverRuns(site: Site, w: World, events: seq<Event>, upload: UploadId)
    requires Inv(site, w) && Possible(site, w, events) && upload in w.hist.outcomes
    ensures var rec := End(site, w, events).store.rec;
      upload in rec.tombstones ==>
        upload in w.store.rec.tombstones && rec.tombstones[upload] == w.store.rec.tombstones[upload]
    decreases |events|
  {
    if events != [] {
      NextKeepsInv(site, w, events[0]);
      OutcomeStays(site, w, events[0], upload);
      NoNewStone(site, w, events[0], upload);
      NoNewStoneOverRuns(site, Next(site, w, events[0]), events[1..], upload);
    }
  }

  /** Content sent after a commit that answered is not looked at, whatever
      happened since: it changes nothing, and its sender is told that all is
      well as long as the outcome is kept, and then that there is no such
      upload. */
  lemma ContentAfterCommit(site: Site, w: World, caller: Caller, upload: UploadId, outcome: PutOutcome,
          events: seq<Event>, sent: nat -> Sent)
    requires Reachable(site, w) && Enabled(w, Do(OpCommitUpload(caller, upload)))
    requires AnswerTo(site, w, Do(OpCommitUpload(caller, upload))) == Some(Finished(outcome))
    requires Possible(site, Next(site, w, Do(OpCommitUpload(caller, upload))), events)
    ensures var first := Next(site, w, Do(OpCommitUpload(caller, upload)));
      var end := End(site, first, events);
      var kept := end.now < first.store.rec.tombstones[upload].expiresAt;
      Put(site, end.now, end.store, caller, upload, sent) == (if kept then Ok(()) else Err(NotFound), end.store.shelf)
  {
    var first := Next(site, w, Do(OpCommitUpload(caller, upload)));
    ReachableHasInv(site, w);
    CommitRecords(site, w, caller, upload, outcome);
    NextKeepsInv(site, w, Do(OpCommitUpload(caller, upload)));
    OutcomeStaysOverRuns(site, first, events, upload);
    NoNewStoneOverRuns(site, first, events, upload);
    FinishedTakesNoContent(site, End(site, first, events), caller, upload, sent);
  }

  lemma FinishedTakesNoContent(site: Site, w: World, caller: Caller, upload: UploadId, sent: nat -> Sent)
    requires UploadsOk(w.store.rec, w.hist) && upload in w.hist.outcomes
    ensures var put := Put(site, w.now, w.store, caller, upload, sent);
      && put.1 == w.store.shelf
      && put.0 == if Remembered(w.store.rec, w.now, caller, upload).Some? then Ok(()) else Err(NotFound)
  {
  }

  // === retrying after a death ===

  /** An unexpired upload, its staging place and everything its commit looks
      at are as they were. */
  ghost predicate SameForCommit(w: World, later: World, upload: UploadId) {
    && upload in w.store.rec.tickets && upload in later.store.rec.tickets
    && later.store.rec.tickets[upload] == w.store.rec.tickets[upload]
    && later.store.rec.state == w.store.rec.state
    && later.store.rec.generation == w.store.rec.generation
    && later.store.rec.plain == w.store.rec.plain
    && (upload in later.store.shelf.staging <==> upload in w.store.shelf.staging)
    && (upload in w.store.shelf.staging ==> later.store.shelf.staging[upload] == w.store.shelf.staging[upload])
    && (forall g <- w.store.rec.Live() :: later.store.shelf.Items(g) == w.store.shelf.Items(g))
  }

  lemma SilenceStepKeeps(site: Site, w: World, e: Event, upload: UploadId)
    requires Inv(site, w) && Enabled(w, e) && Silent(e)
    requires upload in w.store.rec.tickets && IsLive(w.store.rec.tickets[upload], w.now)
    ensures SameForCommit(w, Next(site, w, e), upload)
  {
    if e.Clean? {
      CleaningSparesLive(w.store, w.pending, w.hist, e.cleanup);
    }
  }

  lemma {:induction false} SilenceKeeps(site: Site, w: World, events: seq<Event>, upload: UploadId)
    requires Inv(site, w) && Possible(site, w, events) && forall e <- events :: Silent(e)
    requires upload in w.store.rec.tickets && IsLive(w.store.rec.tickets[upload], End(site, w, events).now)
    ensures SameForCommit(w, End(site, w, events), upload) && Inv(site, End(site, w, events))
    decreases |events|
  {
    TimeGoesOnOverRuns(site, w, events);
    if events != [] {
      NextKeepsInv(site, w, events[0]);
      SilenceStepKeeps(site, w, events[0], upload);
      SilenceKeeps(site, Next(site, w, events[0]), events[1..], upload);
    }
  }

  lemma SameTarget(rec: WorkspaceRecord, later: WorkspaceRecord, caller: Caller, request: UploadRequest)
    requires later.state == rec.state && later.generation == rec.generation
    ensures UploadTarget(later, caller, request) == UploadTarget(rec, caller, request)
    ensures UploadTarget(rec, caller, request).Ok? ==> UploadTarget(rec, caller, request).value in rec.Live()
  {
  }

  /** After a publish that was not recorded, the commit is repaired. */
  lemma HalfPublishIsRepaired(site: Site, now: nat, st: Store, caller: Caller, upload: UploadId, generation: nat)
    requires upload !in st.rec.tombstones && LiveTicket(st.rec, now, caller, upload).Some?
    requires UploadTarget(st.rec, caller, st.rec.tickets[upload].request) == Ok(generation)
    requires LooksPublished(st.shelf, upload, generation, st.rec.tickets[upload].request)
    ensures var request := st.rec.tickets[upload].request;
      CommitUpload(site, now, st, caller, upload).answer == Finished(PutOutcome(request.id, true, request.inRewrite))
  {
  }

  /** A commit looks at the ticket, the target's items and the staging place only. */
  lemma SameViewSameAnswer(site: Site, now: nat, st: Store, later: nat, other: Store, caller: Caller, upload: UploadId,
          generation: nat)
    requires upload !in st.rec.tombstones && upload !in other.rec.tombstones
    requires LiveTicket(st.rec, now, caller, upload).Some?
    requires LiveTicket(other.rec, later, caller, upload) == LiveTicket(st.rec, now, caller, upload)
    requires UploadTarget(st.rec, caller, st.rec.tickets[upload].request) == Ok(generation)
    requires UploadTarget(other.rec, caller, st.rec.tickets[upload].request) == Ok(generation)
    requires other.shelf.Items(generation) == st.shelf.Items(generation)
    requires upload in other.shelf.staging <==> upload in st.shelf.staging
    requires upload in st.shelf.staging ==> other.shelf.staging[upload] == st.shelf.staging[upload]
    ensures CommitUpload(site, later, other, caller, upload).answer
      == CommitUpload(site, now, st, caller, upload).answer
  {
  }

  /** What is left by a commit that died answers as that commit would have. */
  lemma HalfCommitAnswersAlike(site: Site, w: World, later: World, caller: Caller, upload: UploadId,
          outcome: PutOutcome)
    requires Inv(site, w) && CommitUpload(site, w.now, w.store, caller, upload).answer == Finished(outcome)
    requires upload in w.store.rec.tickets
    requires SameForCommit(HalfMaking(CommitUpload(site, w.now, w.store, caller, upload).change, w), later, upload)
    requires IsLive(w.store.rec.tickets[upload], later.now) && UploadsOk(later.store.rec, later.hist)
    ensures CommitUpload(site, later.now, later.store, caller, upload).answer == Finished(outcome)
  {
    CommitIsJustified(site, w.now, w.store, caller, upload);
    CommitFinishes(site, w.now, w.store, caller, upload, outcome);
    var change := CommitUpload(site, w.now, w.store, caller, upload).change;
    var request := w.store.rec.tickets[upload].request;
    SameTarget(w.store.rec, later.store.rec, caller, request);
    var generation := UploadTarget(w.store.rec, caller, request).value;
    if change.Publish? {
      PublishedIsThere(site, w.now, w.store, change);
      HalfPublishIsRepaired(site, later.now, later.store, caller, upload, generation);
    } else {
      SameViewSameAnswer(site, w.now, w.store, later.now, later.store, caller, upload, generation);
    }
  }

  lemma PublishedIsThere(site: Site, now: nat, st: Store, change: Change)
    requires change.Publish? && Justified(site, now, st, change)
    ensures LooksPublished(ShelfAfter(change, st.shelf), change.upload, change.generation,
      st.rec.tickets[change.upload].request)
  {
    assert change.id !in WithKey(st.shelf.Items(change.generation), change.id.ContentKey());
  }

  /** A commit that died after its publish, or before it, and is sent again
      while its ticket lives, answers what it would have answered. */
  lemma RetryAnswersAlike(site: Site, w: World, caller: Caller, upload: UploadId, outcome: PutOutcome,
          silence: seq<Event>)
    requires Reachable(site, w) && Enabled(w, DieInside(OpCommitUpload(caller, upload)))
    requires Decide(site, w.now, w.store, OpCommitUpload(caller, upload)).answer == Finished(outcome)
    requires upload in w.store.rec.tickets
    requires Possible(site, Next(site, w, DieInside(OpCommitUpload(caller, upload))), silence)
    requires forall e <- silence :: Silent(e)
    requires IsLive(w.store.rec.tickets[upload],
      End(site, Next(site, w, DieInside(OpCommitUpload(caller, upload))), silence).now)
    ensures var end := End(site, Next(site, w, DieInside(OpCommitUpload(caller, upload))), silence);
      Decide(site, end.now, end.store, OpCommitUpload(caller, upload)).answer == Finished(outcome)
  {
    var died := Next(site, w, DieInside(OpCommitUpload(caller, upload)));
    ReachableHasInv(site, w);
    NextKeepsInv(site, w, DieInside(OpCommitUpload(caller, upload)));
    SilenceKeeps(site, died, silence, upload);
    HalfCommitAnswersAlike(site, w, End(site, died, silence), caller, upload, outcome);
  }

  // === whose item a repair claims ===

  lemma ClaimsItsOwn(site: Site, w: World, caller: Caller, upload: UploadId)
    requires Inv(site, w) && Decide(site, w.now, w.store, OpCommitUpload(caller, upload)).change.Repair?
    ensures var change := Decide(site, w.now, w.store, OpCommitUpload(caller, upload)).change;
      var place := (change.generation, w.store.rec.tickets[upload].request.id);
      && change.upload == upload && upload in w.hist.places && place in w.hist.makers
      && (w.hist.makers[place] == upload <==> upload !in w.hist.gone)
  {
    CommitIsJustified(site, w.now, w.store, caller, upload);
    var change := Decide(site, w.now, w.store, OpCommitUpload(caller, upload)).change;
    var request := w.store.rec.tickets[upload].request;
    assert change.generation in w.store.rec.Live() && request.id in w.store.shelf.Items(change.generation);
    assert MadeBySomeone(w.hist, (change.generation, request.id));
    if upload !in w.hist.gone {
      StandsInTarget(w.store, w.pending, w.hist, upload, change.generation);
      assert StandsAsMade(w.store.shelf, w.store.rec, w.hist, upload);
    }
  }

  /** A repaired commit did publish, once. The item it claims is its own
      exactly when that item has not left the workspace since. */
  lemma RepairClaimsItsOwn(site: Site, w: World, caller: Caller, upload: UploadId)
    requires Reachable(site, w) && Decide(site, w.now, w.store, OpCommitUpload(caller, upload)).change.Repair?
    ensures var change := Decide(site, w.now, w.store, OpCommitUpload(caller, upload)).change;
      var place := (change.generation, w.store.rec.tickets[upload].request.id);
      && change.upload == upload && upload in w.hist.places && place in w.hist.makers
      && (w.hist.makers[place] == upload <==> upload !in w.hist.gone)
  {
    ReachableHasInv(site, w);
    ClaimsItsOwn(site, w, caller, upload);
  }

  // === when an item has left ===

  /** The event deletes the item at this place, whether or not it dies before
      it is recorded. */
  ghost predicate Deletes(site: Site, w: World, op: Op, place: (nat, ItemId)) {
    && op.OpDeleteItem? && op.id == place.1
    && (match op.partition
        case Current => place.0 == w.store.rec.generation
        case Plain => w.store.rec.plain == Some(place.0))
    && !Decide(site, w.now, w.store, op).answer.Refused?
  }

  /** The operation ends a generation: a committed rewrite the current one, an
      aborted one the staged one. */
  ghost predicate EndsGeneration(site: Site, w: World, op: Op, generation: nat) {
    && w.store.rec.state.Rewriting? && !Decide(site, w.now, w.store, op).answer.Refused?
    && (if op.OpCommitRewrite? then generation == w.store.rec.generation
        else (op.OpAbortRewrite? || op.OpOperatorAbort?) && generation == w.store.rec.state.session.stagedGeneration)
  }

  ghost predicate TakesAway(site: Site, w: World, e: Event, place: (nat, ItemId)) {
    match e
    case Do(op) => Deletes(site, w, op, place) || EndsGeneration(site, w, op, place.0)
    case DieInside(op) => Deletes(site, w, op, place)
    case _ => false
  }

  ghost predicate PublishesAgain(site: Site, w: World, e: Event, u: UploadId) {
    && (e.Do? || e.DieInside?)
    && var change := Decide(site, w.now, w.store, e.op).change;
       change.Publish? && change.upload == u
  }

  lemma RemoveTakesMaker(site: Site, w: World, change: Change, u: UploadId)
    requires Inv(site, w) && Justified(site, w.now, w.store, change) && change.Remove?
    requires u in w.hist.places && u !in w.hist.gone
    ensures u in AfterShelfStep(change, w.hist).gone <==> w.hist.places[u] == (change.generation, change.id)
  {
    assert StandsAsMade(w.store.shelf, w.store.rec, w.hist, u);
    assert MadeBySomeone(w.hist, (change.generation, change.id));
  }

  /** The same of a change. */
  predicate Ends(rec: WorkspaceRecord, change: Change, generation: nat) {
    rec.state.Rewriting?
    && ((change.Switch? && generation == rec.generation)
        || (change.EndAborted? && generation == rec.state.session.stagedGeneration))
  }

  lemma DeletesExactly(site: Site, w: World, op: Op, place: (nat, ItemId))
    ensures var change := Decide(site, w.now, w.store, op).change;
      Deletes(site, w, op, place) <==> change == Remove(place.0, place.1)
  {
  }

  lemma EndsExactly(site: Site, w: World, op: Op, generation: nat)
    requires StateOk(w.store.rec)
    ensures EndsGeneration(site, w, op, generation) <==>
      Ends(w.store.rec, Decide(site, w.now, w.store, op).change, generation)
  {
  }

  /** `u` stays published where it was, and is gone if it was or if `taken`. */
  ghost predicate GoneIf(hist: History, later: History, u: UploadId, taken: bool)
    requires u in hist.places
  {
    u in later.places && later.places[u] == hist.places[u] && (u in later.gone <==> u in hist.gone || taken)
  }

  lemma ShelfStepTakes(site: Site, w: World, change: Change, u: UploadId)
    requires Inv(site, w) && Justified(site, w.now, w.store, change) && u in w.hist.places
    requires change.Publish? ==> change.upload != u
    ensures GoneIf(w.hist, AfterShelfStep(change, w.hist), u, change == Remove(w.hist.places[u].0, w.hist.places[u].1))
  {
    if change.Remove? && u !in w.hist.gone {
      RemoveTakesMaker(site, w, change, u);
    }
  }

  lemma RecordTakes(change: Change, rec: WorkspaceRecord, hist: History, u: UploadId)
    requires u in hist.places
    ensures GoneIf(hist, AfterRecord(change, rec, hist), u, Ends(rec, change, hist.places[u].0))
  {
  }

  /** An item leaves the workspace exactly when it is deleted or its generation
      is ended; and one that has left stays away until it is published again. */
  lemma GoneExactly(site: Site, w: World, e: Event, u: UploadId)
    requires Inv(site, w) && Enabled(w, e) && u in w.hist.places && !PublishesAgain(site, w, e, u)
    ensures GoneIf(w.hist, Next(site, w, e).hist, u, TakesAway(site, w, e, w.hist.places[u]))
  {
    if e.Do? || e.DieInside? {
      GoneByOperation(site, w, e, u);
    }
  }

  lemma GoneByOperation(site: Site, w: World, e: Event, u: UploadId)
    requires Inv(site, w) && Enabled(w, e) && (e.Do? || e.DieInside?) && u in w.hist.places
      && !PublishesAgain(site, w, e, u)
    ensures GoneIf(w.hist, Next(site, w, e).hist, u, TakesAway(site, w, e, w.hist.places[u]))
  {
    var change := Decide(site, w.now, w.store, e.op).change;
    var drawn := w.(hist := Drawing(e.op, w.hist));
    DrawingKeepsInv(site, w, e.op);
    DecisionsAreJustified(site, w.now, w.store, e.op);
    DeletesExactly(site, w, e.op, w.hist.places[u]);
    EndsExactly(site, w, e.op, w.hist.places[u].0);
    ShelfStepTakes(site, drawn, change, u);
    RecordTakes(change, w.store.rec, AfterShelfStep(change, drawn.hist), u);
  }

  /** Some event of the run takes the place away. */
  ghost predicate TakenAway(site: Site, w: World, events: seq<Event>, place: (nat, ItemId))
    requires Possible(site, w, events)
    decreases |events|
  {
    events != []
      && (TakesAway(site, w, events[0], place) || TakenAway(site, Next(site, w, events[0]), events[1..], place))
  }

  ghost predicate NeverAgain(site: Site, w: World, events: seq<Event>, u: UploadId)
    requires Possible(site, w, events)
    decreases |events|
  {
    events == []
      || (!PublishesAgain(site, w, events[0], u) && NeverAgain(site, Next(site, w, events[0]), events[1..], u))
  }

  lemma {:induction false} GoneOverRuns(site: Site, w: World, events: seq<Event>, u: UploadId)
    requires Inv(site, w) && Possible(site, w, events) && u in w.hist.places && NeverAgain(site, w, events, u)
    ensures var end := End(site, w, events);
      GoneIf(w.hist, end.hist, u, TakenAway(site, w, events, w.hist.places[u]))
    decreases |events|
  {
    if events != [] {
      GoneExactly(site, w, events[0], u);
      NextKeepsInv(site, w, events[0]);
      GoneOverRuns(site, Next(site, w, events[0]), events[1..], u);
    }
  }

  lemma PublishedIsNotGone(site: Site, w: World, e: Event, u: UploadId)
    requires Enabled(w, e) && PublishesAgain(site, w, e, u)
    ensures var change := Decide(site, w.now, w.store, e.op).change; var hist := Next(site, w, e).hist;
      u in hist.places && hist.places[u] == (change.generation, change.id) && u !in hist.gone
  {
  }

  /** The condition in events: since the last publish of the upload, a repair
      claims its own item exactly when nothing has deleted that item nor ended
      its generation. */
  lemma RepairClaimsWhatStayed(site: Site, w: World, e: Event, events: seq<Event>, caller: Caller, upload: UploadId)
    requires Reachable(site, w) && Enabled(w, e) && PublishesAgain(site, w, e, upload)
    requires Possible(site, Next(site, w, e), events) && NeverAgain(site, Next(site, w, e), events, upload)
    requires var end := End(site, Next(site, w, e), events);
      Decide(site, end.now, end.store, OpCommitUpload(caller, upload)).change.Repair?
    ensures var published := Decide(site, w.now, w.store, e.op).change;
      var end := End(site, Next(site, w, e), events);
      var repair := Decide(site, end.now, end.store, OpCommitUpload(caller, upload)).change;
      var claimed := (repair.generation, end.store.rec.tickets[upload].request.id);
      && claimed in end.hist.makers
      && (end.hist.makers[claimed] == upload
          <==> !TakenAway(site, Next(site, w, e), events, (published.generation, published.id)))
  {
    ReachableHasInv(site, w);
    NextKeepsInv(site, w, e);
    PublishedIsNotGone(site, w, e, upload);
    GoneOverRuns(site, Next(site, w, e), events, upload);
    RunKeepsInv(site, Next(site, w, e), events);
    ClaimsItsOwn(site, End(site, Next(site, w, e), events), caller, upload);
  }

  /** Without a death there is nothing to repair. */
  ghost predicate NothingLost(w: World) {
    forall u <- w.store.rec.tickets :: u in w.store.shelf.staging
  }

  lemma ChangeLosesNothing(site: Site, now: nat, st: Store, change: Change)
    requires Justified(site, now, st, change) && forall u <- st.rec.tickets :: u in st.shelf.staging
    ensures forall u <- RecordAfter(change, st.shelf, st.rec).tickets :: u in ShelfAfter(change, st.shelf).staging
    ensures !change.Repair?
  {
  }

  lemma NothingIsLostWithoutDeath(site: Site, w: World, e: Event)
    requires Inv(site, w) && Enabled(w, e) && NothingLost(w) && !e.DieInside?
    ensures NothingLost(Next(site, w, e))
    ensures e.Do? ==> !Decide(site, w.now, w.store, e.op).change.Repair?
  {
    if e.Do? {
      DecisionsAreJustified(site, w.now, w.store, e.op);
      ChangeLosesNothing(site, w.now, w.store, Decide(site, w.now, w.store, e.op).change);
    }
  }

  lemma {:induction false} NoDeathNoRepair(site: Site, w: World, events: seq<Event>, op: Op)
    requires Inv(site, w) && NothingLost(w) && Possible(site, w, events) && forall e <- events :: !e.DieInside?
    requires End(site, w, events).up && Fresh(op, End(site, w, events).hist)
    ensures var end := End(site, w, events); !Decide(site, end.now, end.store, op).change.Repair?
    decreases |events|
  {
    if events == [] {
      NothingIsLostWithoutDeath(site, w, Do(op));
    } else {
      NextKeepsInv(site, w, events[0]);
      NothingIsLostWithoutDeath(site, w, events[0]);
      NoDeathNoRepair(site, Next(site, w, events[0]), events[1..], op);
    }
  }
}
