/** An operation as its caller sees it, and what is shown of the encryption and
    of an open rewrite, field by field, in terms of the record and the shelf. */
module Shown {
  import opened Wrappers
  import opened Ids
  import opened Stores
  import opened Protocol

  // === an operation, from outside ===

  ghost function Answered(site: Site, now: nat, st: Store, op: Op): Answer {
    Decide(site, now, st, op).answer
  }

  /** The stores as the operation leaves them. */
  ghost function Left(site: Site, now: nat, st: Store, op: Op): Store {
    Apply(Decide(site, now, st, op).change, st)
  }

  // === field by field ===

  function KeyIn(seal: Option<Seal>): Option<KeyId> {
    if seal.Some? then Some(seal.value.keyId) else None
  }

  function HeaderIn(seal: Option<Seal>): Option<seq<byte>> {
    if seal.Some? then Some(seal.value.header) else None
  }

  /** The ids of these items, each once, newest first. */
  ghost predicate ListsNewestFirst(list: seq<ItemId>, items: map<ItemId, Item>) {
    && (forall id :: id in list <==> id in items)
    && forall i, j :: 0 <= i < j < |list| ==> Older(list[j], list[i])
  }

  ghost predicate ShowsSession(view: SessionView, st: Store) {
    && st.rec.state.Rewriting?
    && var session := st.rec.state.session;
    && view.kind == session.kind && view.holder == session.holder && view.leaseExpiresAt == session.leaseExpiresAt
    && view.newKeyId == session.next.keyId && view.newHeader == session.next.header
    && ListsNewestFirst(view.stagedIds, st.shelf.Items(session.stagedGeneration))
    && view.sourceItems == |st.shelf.Items(st.rec.generation)|
  }

  /** During a rewrite key and header are those of before it. */
  ghost predicate ShowsEncryption(view: EncryptionView, st: Store) {
    match st.rec.state
    case Settled(seal) =>
      && view.state == (if seal.Some? then Sealed else Plaintext)
      && view.keyId == KeyIn(seal) && view.header == HeaderIn(seal) && view.rewrite == None
    case Rewriting(session) =>
      && view.state == InRewrite
      && view.keyId == KeyIn(session.prior) && view.header == HeaderIn(session.prior)
      && view.rewrite.Some? && ShowsSession(view.rewrite.value, st)
  }

  // === what is shown ===

  lemma SessionIsShown(st: Store)
    ensures match ViewSession(st)
      case None => st.rec.state.Settled?
      case Some(view) => ShowsSession(view, st)
  {
    if st.rec.state.Rewriting? {
      NewestFirstSorted(st.shelf.Items(st.rec.state.session.stagedGeneration).Keys);
    }
  }

  lemma EncryptionIsShown(st: Store)
    ensures ShowsEncryption(View(st), st)
  {
    SessionIsShown(st);
  }

  /** What a change leaves is what its answer shows. */
  lemma ChangedIsShown(change: Change, st: Store)
    ensures Changed(change, st).change == change && Changed(change, st).answer.Encryption?
    ensures ShowsEncryption(Changed(change, st).answer.view, Apply(change, st))
    ensures Apply(Nothing, st) == st
  {
    EncryptionIsShown(Apply(change, st));
  }
}
