/** Requests that are repeated: while the clock stands still, a second one is
    answered as the first was and leaves everything as it is. */
module Replays {
  import opened Wrappers
  import opened Ids
  import opened Stores
  import opened Protocol
  import opened Changes
  import opened World
  import opened Invariants
  import opened Runs

  /** The operations that answer a replay as they answered at first; sending
      content, which is outside any transaction, is the twelfth of them. */
  predicate Repeatable(op: Op) {
    !op.OpDeleteItem? && !op.OpOperatorAbort? && !op.OpCleanStaging? && !op.OpReconcile?
  }

  /** The same request; only an id it may draw differs. */
  predicate SameRequest(op: Op, again: Op) {
    if op.OpBeginUpload? then
      again.OpBeginUpload? && again.caller == op.caller && again.request == op.request
    else again == op
  }

  /** Stores that differ at most by clean-ups. */
  ghost predicate Alike(st: Store, other: Store) {
    && other.rec == st.rec
    && (forall g <- st.rec.Live() :: other.shelf.Items(g) == st.shelf.Items(g))
    && (forall u <- st.rec.tickets :: u in st.shelf.staging ==>
          u in other.shelf.staging && other.shelf.staging[u] == st.shelf.staging[u])
  }

  /** `again` is answered `answer` and changes nothing. */
  ghost predicate JustAnswers(site: Site, now: nat, st: Store, again: Op, answer: Answer) {
    Decide(site, now, st, again).answer == answer && Apply(Decide(site, now, st, again).change, st) == st
  }

  lemma AlikeViews(st: Store, other: Store)
    requires Alike(st, other)
    ensures View(other) == View(st) && ViewSession(other) == ViewSession(st)
  {
  }

  // === uploads ===

  lemma FoundAgain(site: Site, now: nat, st: Store, caller: Caller, request: UploadRequest, drawn: UploadId,
          other: Store, drawnAgain: UploadId)
    requires BeginUpload(site, now, st, caller, request, drawn).change.GiveUp?
    requires Alike(Apply(BeginUpload(site, now, st, caller, request, drawn).change, st), other)
    ensures BeginUpload(site, now, other, caller, request, drawnAgain)
      == Decision(GiveUp({}), BeginUpload(site, now, st, caller, request, drawn).answer)
  {
    var after := Apply(BeginUpload(site, now, st, caller, request, drawn).change, st);
    assert TicketsFor(after.rec, caller.key, request) == {};
    assert UploadTarget(after.rec, caller, request) == UploadTarget(st.rec, caller, request);
    TargetsWhatItTargets(st.rec, caller, request);
  }

  lemma TicketAgain(site: Site, now: nat, st: Store, caller: Caller, request: UploadRequest, drawn: UploadId,
          other: Store, drawnAgain: UploadId)
    requires OneTicketEach(st.rec.tickets, now) && site.limits.stagingSecs >= 1 && drawn !in st.rec.tickets
    requires BeginUpload(site, now, st, caller, request, drawn).answer.Begun?
    requires Alike(Apply(BeginUpload(site, now, st, caller, request, drawn).change, st), other)
    ensures var upload := BeginUpload(site, now, st, caller, request, drawn).answer.upload;
      && upload in other.rec.tickets && upload in other.shelf.staging
      && BeginUpload(site, now, other, caller, request, drawnAgain)
         == Decision(Restage(upload), BeginUpload(site, now, st, caller, request, drawn).answer)
  {
    var upload := BeginUpload(site, now, st, caller, request, drawn).answer.upload;
    var generation := BegunIsLive(site, now, st, caller, request, drawn, other);
    LiveIsAnswered(site, now, other, caller, request, drawnAgain, upload, generation);
  }

  /** A begin that gave a ticket leaves exactly that one live for its request. */
  lemma BegunIsLive(site: Site, now: nat, st: Store, caller: Caller, request: UploadRequest, drawn: UploadId,
          other: Store)
    returns (generation: nat)
    requires OneTicketEach(st.rec.tickets, now) && site.limits.stagingSecs >= 1 && drawn !in st.rec.tickets
    requires BeginUpload(site, now, st, caller, request, drawn).answer.Begun?
    requires Alike(Apply(BeginUpload(site, now, st, caller, request, drawn).change, st), other)
    ensures var answer := BeginUpload(site, now, st, caller, request, drawn).answer;
      && LiveTicketsFor(other.rec, now, caller.key, request) == {answer.upload} && answer.upload in other.shelf.staging
      && other.rec.tickets[answer.upload].expiresAt == answer.expiresAt
    ensures UploadTarget(other.rec, caller, request) == Ok(generation)
    ensures FindIn(other.shelf.Items(generation), request.id.ContentKey()).None? && caller.role == ReadWrite
    ensures site.limits.maxItemBytes.Some? ==> request.size <= site.limits.maxItemBytes.value
  {
    generation := BegunTarget(site, now, st, caller, request, drawn);
    OnlyOneIsLive(site, now, st, caller, request, drawn, other);
  }

  lemma BegunTarget(site: Site, now: nat, st: Store, caller: Caller, request: UploadRequest, drawn: UploadId)
    returns (generation: nat)
    requires BeginUpload(site, now, st, caller, request, drawn).answer.Begun?
    ensures UploadTarget(st.rec, caller, request) == Ok(generation) && generation in st.rec.Live()
    ensures FindIn(st.shelf.Items(generation), request.id.ContentKey()).None? && caller.role == ReadWrite
    ensures site.limits.maxItemBytes.Some? ==> request.size <= site.limits.maxItemBytes.value
  {
    TargetsWhatItTargets(st.rec, caller, request);
    generation := UploadTarget(st.rec, caller, request).value;
  }

  lemma OnlyOneIsLive(site: Site, now: nat, st: Store, caller: Caller, request: UploadRequest, drawn: UploadId,
          other: Store)
    requires OneTicketEach(st.rec.tickets, now) && site.limits.stagingSecs >= 1 && drawn !in st.rec.tickets
    requires BeginUpload(site, now, st, caller, request, drawn).answer.Begun?
    requires Alike(Apply(BeginUpload(site, now, st, caller, request, drawn).change, st), other)
    ensures var answer := BeginUpload(site, now, st, caller, request, drawn).answer;
      && LiveTicketsFor(other.rec, now, caller.key, request) == {answer.upload} && answer.upload in other.shelf.staging
      && other.rec.tickets[answer.upload].expiresAt == answer.expiresAt
  {
    var upload := BeginUpload(site, now, st, caller, request, drawn).answer.upload;
    var live := LiveTicketsFor(other.rec, now, caller.key, request);
    assert upload in live;
    assert live <= LiveTicketsFor(st.rec, now, caller.key, request) + {upload};
    assert live == {upload};
  }

  lemma LiveIsAnswered(site: Site, now: nat, st: Store, caller: Caller, request: UploadRequest, drawn: UploadId,
          upload: UploadId, generation: nat)
    requires caller.role == ReadWrite && UploadTarget(st.rec, caller, request) == Ok(generation)
    requires site.limits.maxItemBytes.Some? ==> request.size <= site.limits.maxItemBytes.value
    requires FindIn(st.shelf.Items(generation), request.id.ContentKey()).None?
    requires LiveTicketsFor(st.rec, now, caller.key, request) == {upload}
    ensures upload in st.rec.tickets
    ensures BeginUpload(site, now, st, caller, request, drawn)
      == Decision(Restage(upload), Begun(upload, st.rec.tickets[upload].expiresAt))
  {
    assert upload in LiveTicketsFor(st.rec, now, caller.key, request);
  }

  lemma BeginUploadReplays(site: Site, now: nat, st: Store, op: Op, again: Op, other: Store)
    requires OneTicketEach(st.rec.tickets, now) && site.limits.stagingSecs >= 1
    requires op.OpBeginUpload? && op.drawn !in st.rec.tickets && SameRequest(op, again)
    requires !BeginUpload(site, now, st, op.caller, op.request, op.drawn).answer.Refused?
    requires Alike(Apply(BeginUpload(site, now, st, op.caller, op.request, op.drawn).change, st), other)
    ensures JustAnswers(site, now, other, again, BeginUpload(site, now, st, op.caller, op.request, op.drawn).answer)
  {
    if BeginUpload(site, now, st, op.caller, op.request, op.drawn).change.GiveUp? {
      FoundAgain(site, now, st, op.caller, op.request, op.drawn, other, again.drawn);
    } else {
      TicketAgain(site, now, st, op.caller, op.request, op.drawn, other, again.drawn);
    }
  }

  /** A commit that succeeds is remembered with what it answered. */
  lemma CommittingIsRemembered(site: Site, now: nat, st: Store, caller: Caller, upload: UploadId)
    requires site.limits.stagingSecs >= 1 && !CommitUpload(site, now, st, caller, upload).answer.Refused?
    ensures var decision := CommitUpload(site, now, st, caller, upload);
      decision.answer.Finished?
      && Remembered(RecordAfter(decision.change, st.shelf, st.rec), now, caller, upload)
           == Some(decision.answer.outcome)
  {
  }

  lemma CommitUploadReplays(site: Site, now: nat, st: Store, caller: Caller, upload: UploadId, other: Store)
    requires site.limits.stagingSecs >= 1
    requires !CommitUpload(site, now, st, caller, upload).answer.Refused?
    requires Alike(Apply(CommitUpload(site, now, st, caller, upload).change, st), other)
    ensures CommitUpload(site, now, other, caller, upload)
      == Decision(Nothing, CommitUpload(site, now, st, caller, upload).answer)
  {
    CommittingIsRemembered(site, now, st, caller, upload);
  }

  // === the rest ===

  /** A lease that was renewed this second is renewed to the same second. */
  ghost predicate JustRenewed(site: Site, now: nat, rec: WorkspaceRecord, caller: Caller) {
    && rec.state.Rewriting? && rec.state.session.holder == caller.key
    && rec.state.session.leaseExpiresAt == now + site.limits.leaseSecs
  }

  lemma RenewingTwice(site: Site, now: nat, st: Store, caller: Caller)
    requires JustRenewed(site, now, st.rec, caller)
    ensures Apply(Renewed(site, now, st, caller).change, st) == st
    ensures Renewed(site, now, st, caller).answer == AnswerSession(st)
  {
  }

  lemma BeginningLeases(site: Site, now: nat, st: Store, caller: Caller, r: RewriteRequest)
    requires !BeginRewrite(site, now, st, caller, r).answer.Refused?
    ensures var decision := BeginRewrite(site, now, st, caller, r); var after := Apply(decision.change, st);
      && JustRenewed(site, now, after.rec, caller) && decision.answer == AnswerSession(after)
      && after.rec.state.session.kind == r.kind && after.rec.state.session.next.keyId == r.newKeyId
  {
  }

  lemma BeginRewriteReplays(site: Site, now: nat, st: Store, caller: Caller, r: RewriteRequest, other: Store)
    requires !BeginRewrite(site, now, st, caller, r).answer.Refused?
    requires Alike(Apply(BeginRewrite(site, now, st, caller, r).change, st), other)
    ensures BeginRewrite(site, now, other, caller, r).answer == BeginRewrite(site, now, st, caller, r).answer
    ensures Apply(BeginRewrite(site, now, other, caller, r).change, other) == other
  {
    var after := Apply(BeginRewrite(site, now, st, caller, r).change, st);
    BeginningLeases(site, now, st, caller, r);
    AlikeViews(after, other);
    RenewingTwice(site, now, other, caller);
    assert BeginRewrite(site, now, other, caller, r) == Renewed(site, now, other, caller);
  }

  lemma HeartbeatReplays(site: Site, now: nat, st: Store, caller: Caller, other: Store)
    requires !HeartbeatRewrite(site, now, st, caller).answer.Refused?
    requires Alike(Apply(HeartbeatRewrite(site, now, st, caller).change, st), other)
    ensures HeartbeatRewrite(site, now, other, caller).answer == HeartbeatRewrite(site, now, st, caller).answer
    ensures Apply(HeartbeatRewrite(site, now, other, caller).change, other) == other
  {
    AlikeViews(Apply(HeartbeatRewrite(site, now, st, caller).change, st), other);
    RenewingTwice(site, now, other, caller);
    assert HeartbeatRewrite(site, now, other, caller) == Renewed(site, now, other, caller);
  }

  lemma TakeOverReplays(site: Site, now: nat, st: Store, caller: Caller, other: Store)
    requires !TakeOverRewrite(site, now, st, caller).answer.Refused?
    requires Alike(Apply(TakeOverRewrite(site, now, st, caller).change, st), other)
    ensures TakeOverRewrite(site, now, other, caller).answer == TakeOverRewrite(site, now, st, caller).answer
    ensures Apply(TakeOverRewrite(site, now, other, caller).change, other) == other
  {
    AlikeViews(Apply(TakeOverRewrite(site, now, st, caller).change, st), other);
    RenewingTwice(site, now, other, caller);
    assert TakeOverRewrite(site, now, other, caller) == Renewed(site, now, other, caller);
  }

  lemma EnableEncryptionReplays(st: Store, caller: Caller, seal: Seal, other: Store)
    requires !EnableEncryption(st, caller, seal).answer.Refused?
    requires Alike(Apply(EnableEncryption(st, caller, seal).change, st), other)
    ensures EnableEncryption(other, caller, seal) == Decision(Nothing, EnableEncryption(st, caller, seal).answer)
  {
    EnablingSeals(st, caller, seal);
    AlikeViews(Apply(EnableEncryption(st, caller, seal).change, st), other);
    assert Apply(Nothing, other) == other;
  }

  lemma EnablingSeals(st: Store, caller: Caller, seal: Seal)
    requires !EnableEncryption(st, caller, seal).answer.Refused?
    ensures var decision := EnableEncryption(st, caller, seal); var after := Apply(decision.change, st);
      && MaySettle(after.rec, caller, seal.keyId) == Ok(true) && decision.answer == Encryption(View(after))
  {
  }

  lemma FreshStartReplays(st: Store, caller: Caller, seal: Seal, other: Store)
    requires !FreshStart(st, caller, seal).answer.Refused?
    requires Alike(Apply(FreshStart(st, caller, seal).change, st), other)
    ensures FreshStart(other, caller, seal) == Decision(Nothing, FreshStart(st, caller, seal).answer)
  {
    var after := Apply(FreshStart(st, caller, seal).change, st);
    FreshStartSeals(st, caller, seal);
    AlikeViews(after, other);
    assert Apply(Nothing, other) == other;
  }

  lemma FreshStartSeals(st: Store, caller: Caller, seal: Seal)
    requires !FreshStart(st, caller, seal).answer.Refused?
    ensures var decision := FreshStart(st, caller, seal); var after := Apply(decision.change, st);
      && MaySettle(after.rec, caller, seal.keyId) == Ok(true) && decision.answer == Encryption(View(after))
  {
  }

  lemma ReplaceHeaderReplays(st: Store, caller: Caller, seal: Seal, other: Store)
    requires !ReplaceHeader(st, caller, seal).answer.Refused?
    requires Alike(Apply(ReplaceHeader(st, caller, seal).change, st), other)
    ensures ReplaceHeader(other, caller, seal).answer == ReplaceHeader(st, caller, seal).answer
    ensures Apply(ReplaceHeader(other, caller, seal).change, other) == other
  {
    AlikeViews(Apply(ReplaceHeader(st, caller, seal).change, st), other);
    assert Apply(Settle(seal), other) == other;
  }

  /** Without a session, both ends of one only answer. */
  lemma EndsOnlyAnswer(st: Store, caller: Caller, key: KeyId)
    requires st.rec.state.Settled? && caller.role == ReadWrite
    ensures AbortRewrite(st, caller, key) == Decision(Nothing, Encryption(View(st)))
    ensures st.rec.SealKey() == Some(key) ==> CommitRewrite(st, caller, key) == Decision(Nothing, Encryption(View(st)))
  {
    assert Apply(Nothing, st) == st;
  }

  lemma CommitRewriteReplays(st: Store, caller: Caller, key: KeyId, other: Store)
    requires !CommitRewrite(st, caller, key).answer.Refused?
    requires Alike(Apply(CommitRewrite(st, caller, key).change, st), other)
    ensures CommitRewrite(other, caller, key) == Decision(Nothing, CommitRewrite(st, caller, key).answer)
  {
    var after := Apply(CommitRewrite(st, caller, key).change, st);
    CommittingSettles(st, caller, key);
    AlikeViews(after, other);
    EndsOnlyAnswer(other, caller, key);
  }

  lemma CommittingSettles(st: Store, caller: Caller, key: KeyId)
    requires !CommitRewrite(st, caller, key).answer.Refused?
    ensures var decision := CommitRewrite(st, caller, key); var after := Apply(decision.change, st);
      && after.rec.state.Settled? && after.rec.SealKey() == Some(key) && caller.role == ReadWrite
      && decision.answer == Encryption(View(after))
  {
  }

  lemma AbortRewriteReplays(st: Store, caller: Caller, key: KeyId, other: Store)
    requires !AbortRewrite(st, caller, key).answer.Refused?
    requires Alike(Apply(AbortRewrite(st, caller, key).change, st), other)
    ensures AbortRewrite(other, caller, key) == Decision(Nothing, AbortRewrite(st, caller, key).answer)
  {
    var after := Apply(AbortRewrite(st, caller, key).change, st);
    assert after.rec.state.Settled?;
    assert AbortRewrite(st, caller, key).answer == Encryption(View(after));
    AlikeViews(after, other);
    EndsOnlyAnswer(other, caller, key);
  }

  lemma AbortUploadReplays(site: Site, now: nat, st: Store, caller: Caller, upload: UploadId, other: Store)
    requires Alike(Apply(AbortUpload(st, caller, upload).change, st), other)
    ensures AbortUpload(other, caller, upload) == Decision(Nothing, Done)
  {
  }

  lemma ReplayJustAnswers(site: Site, now: nat, st: Store, op: Op, again: Op, other: Store)
    requires OneTicketEach(st.rec.tickets, now) && site.limits.stagingSecs >= 1
    requires Repeatable(op) && SameRequest(op, again) && (op.OpBeginUpload? ==> op.drawn !in st.rec.tickets)
    requires !Decide(site, now, st, op).answer.Refused?
    requires Alike(Apply(Decide(site, now, st, op).change, st), other)
    ensures JustAnswers(site, now, other, again, Decide(site, now, st, op).answer)
  {
    match op
    case OpBeginUpload(_, _, _) => BeginUploadReplays(site, now, st, op, again, other);
    case OpCommitUpload(caller, upload) => CommitUploadReplays(site, now, st, caller, upload, other);
    case OpAbortUpload(caller, upload) => AbortUploadReplays(site, now, st, caller, upload, other);
    case OpEnableEncryption(caller, seal) => EnableEncryptionReplays(st, caller, seal, other);
    case OpFreshStart(caller, seal) => FreshStartReplays(st, caller, seal, other);
    case OpReplaceHeader(caller, seal) => ReplaceHeaderReplays(st, caller, seal, other);
    case OpBeginRewrite(caller, rewrite) => BeginRewriteReplays(site, now, st, caller, rewrite, other);
    case OpHeartbeatRewrite(caller) => HeartbeatReplays(site, now, st, caller, other);
    case OpTakeOverRewrite(caller) => TakeOverReplays(site, now, st, caller, other);
    case OpCommitRewrite(caller, key) => CommitRewriteReplays(st, caller, key, other);
    case OpAbortRewrite(caller, key) => AbortRewriteReplays(st, caller, key, other);
  }

  lemma {:induction false} CleanupsLeaveAlike(site: Site, w: World, cleans: seq<Event>)
    requires Inv(site, w) && Possible(site, w, cleans) && forall e <- cleans :: e.Clean?
    ensures var end := End(site, w, cleans);
      Alike(w.store, end.store) && end.now == w.now && Inv(site, end)
    decreases |cleans|
  {
    if cleans != [] {
      CleaningSparesLive(w.store, w.pending, w.hist, cleans[0].cleanup);
      NextKeepsInv(site, w, cleans[0]);
      CleanupsLeaveAlike(site, Next(site, w, cleans[0]), cleans[1..]);
    }
  }

  /** The main result on replays: any of these operations that succeeded,
      sent again after any clean-ups, answers the same and changes nothing. */
  lemma ReplayIsIdempotent(site: Site, w: World, op: Op, cleans: seq<Event>, again: Op)
    requires Reachable(site, w) && Enabled(w, Do(op)) && site.limits.stagingSecs >= 1
    requires Repeatable(op) && SameRequest(op, again)
    requires !Decide(site, w.now, w.store, op).answer.Refused?
    requires Possible(site, Next(site, w, Do(op)), cleans) && forall e <- cleans :: e.Clean?
    requires Enabled(End(site, Next(site, w, Do(op)), cleans), Do(again))
    ensures var end := End(site, Next(site, w, Do(op)), cleans);
      && AnswerTo(site, end, Do(again)) == AnswerTo(site, w, Do(op))
      && Next(site, end, Do(again)).store == end.store
  {
    ReachableHasInv(site, w);
    NextKeepsInv(site, w, Do(op));
    CleanupsLeaveAlike(site, Next(site, w, Do(op)), cleans);
    ReplayJustAnswers(site, w.now, w.store, op, again, End(site, Next(site, w, Do(op)), cleans).store);
  }

  // === content ===

  /** Whatever was written before, the last that is written stays. */
  lemma WrittenTwice(site: Site, shelf: Shelf, upload: UploadId, hashed: bool, content: Option<seq<byte>>,
          first: Option<seq<byte>>)
    ensures Written(site, Written(site, shelf, upload, hashed, first), upload, hashed, content)
      == Written(site, shelf, upload, hashed, content)
  {
    if upload in shelf.staging {
      assert Written(site, shelf, upload, hashed, first).staging[upload := EMPTY_PLACE]
        == shelf.staging[upload := EMPTY_PLACE];
      assert Written(site, Written(site, shelf, upload, hashed, first), upload, hashed, content).staging
          == Written(site, shelf, upload, hashed, content).staging;
    }
  }

  /** Sending content is the twelfth: sent again, after any other attempt and
      later, as long as the ticket and the outcome are what they were, it
      answers and leaves what it would have at first. */
  lemma ContentSentAgain(site: Site, now: nat, st: Store, caller: Caller, upload: UploadId, sent: nat -> Sent,
                         before: nat -> Sent, later: nat)
    requires LiveTicket(st.rec, later, caller, upload) == LiveTicket(st.rec, now, caller, upload)
    requires Remembered(st.rec, later, caller, upload) == Remembered(st.rec, now, caller, upload)
    ensures var attempted := Store(Put(site, now, st, caller, upload, before).1, st.rec);
      Put(site, later, attempted, caller, upload, sent) == Put(site, now, st, caller, upload, sent)
  {
    var live := LiveTicket(st.rec, now, caller, upload);
    if Remembered(st.rec, now, caller, upload).None? && live.Some? && upload in st.shelf.staging {
      var request := live.value.request;
      WrittenTwice(site, st.shelf, upload, ChecksContent(site, request), KeptOf(sent(request.size)),
        KeptOf(before(request.size)));
    }
  }

  /** In particular the second of two alike changes nothing. */
  lemma ContentSentTwice(site: Site, now: nat, st: Store, caller: Caller, upload: UploadId, sent: nat -> Sent)
    ensures var first := Put(site, now, st, caller, upload, sent);
      Put(site, now, Store(first.1, st.rec), caller, upload, sent) == first
  {
    ContentSentAgain(site, now, st, caller, upload, sent, sent, now);
  }
}
