/** API keys: what an operator's commands do to them, and what the history of
    those commands says a key is good for. */
module Controls {
  import opened Wrappers
  import opened Ids
  import opened Stores

  const I64_MAX := 0x7FFF_FFFF_FFFF_FFFF
  const LAST_USE_EVERY_SECS := 60

  function Least(a: nat, b: nat): nat { if a < b then a else b }

  /** A number as the database can hold it. */
  function ToDb(number: nat): nat { if number > I64_MAX then I64_MAX else number }

  datatype Key = Key(
    workspace: WorkspaceId, secret: Digest, device: string, role: Role, createdAt: nat,
    expiresAt: Option<nat>, revokedAt: Option<nat>, lastUsedAt: Option<nat>)

  type Keys = map<ApiKeyId, Key>

  datatype KeyState = Active | Expired | Revoked

  predicate IsPast(at: Option<nat>, now: nat) { at.Some? && at.value <= now }

  /** A key that is both counts as revoked. */
  function StateOf(key: Key, now: nat): KeyState {
    if key.revokedAt.Some? then KeyState.Revoked
    else if IsPast(key.expiresAt, now) then Expired
    else Active
  }

  datatype ControlError = NoSuchWorkspace(name: string) | NoSuchKey(id: ApiKeyId)

  datatype AuthError = Unauthenticated | KeyRevoked | KeyExpired

  // === the history of a key ring ===

  /** What a command that succeeded did. */
  datatype Entry =
    | Created(id: ApiKeyId, key: Key)
    | Extended(id: ApiKeyId, expiresAt: Option<nat>)
    | RevokedAt(id: ApiKeyId, at: nat)
    | Deleted(id: ApiKeyId)
    | Pruned(ids: set<ApiKeyId>, before: nat)
    | WorkspaceDeleted(workspace: WorkspaceId)
    | Used(id: ApiKeyId, at: nat)

  /** The second pruning goes by: that of the revocation, if there was one. */
  function EndedAt(key: Key): Option<nat> {
    if key.revokedAt.Some? then key.revokedAt else key.expiresAt
  }

  function Prunable(keys: Keys, before: nat): set<ApiKeyId> {
    set id | id in keys && IsPast(EndedAt(keys[id]), before)
  }

  function After(keys: Keys, e: Entry): Keys {
    match e
    case Created(id, key) => keys[id := key]
    case Extended(id, expiresAt) => if id in keys then keys[id := keys[id].(expiresAt := expiresAt)] else keys
    case RevokedAt(id, at) =>
      if id in keys && keys[id].revokedAt.None? then keys[id := keys[id].(revokedAt := Some(at))] else keys
    case Deleted(id) => keys - {id}
    case Pruned(ids, _) => keys - ids
    case WorkspaceDeleted(w) => map id | id in keys && keys[id].workspace != w :: keys[id]
    case Used(id, at) => if id in keys then keys[id := keys[id].(lastUsedAt := Some(at))] else keys
  }

  predicate MayFollow(keys: Keys, e: Entry) {
    match e
    case Created(id, key) => id !in keys && key.revokedAt.None?
    case Pruned(ids, before) => ids == Prunable(keys, before)
    case WorkspaceDeleted(_) => true
    case _ => e.id in keys
  }

  /** The keys a history leaves. */
  function Replay(log: seq<Entry>): Keys {
    if log == [] then map[] else After(Replay(log[..|log| - 1]), log[|log| - 1])
  }

  predicate Happened(log: seq<Entry>) {
    log == [] || (Happened(log[..|log| - 1]) && MayFollow(Replay(log[..|log| - 1]), log[|log| - 1]))
  }

  // === what a history says ===

  predicate Removes(e: Entry, id: ApiKeyId, workspace: WorkspaceId) {
    match e
    case Deleted(i) => i == id
    case Pruned(ids, _) => id in ids
    case WorkspaceDeleted(w) => w == workspace
    case _ => false
  }

  /** Entry `i` created the key, and nothing since removed it. */
  ghost predicate IsCreation(log: seq<Entry>, id: ApiKeyId, i: nat) {
    && i < |log| && log[i].Created? && log[i].id == id
    && forall j :: i < j < |log| ==> !Removes(log[j], id, log[i].key.workspace)
  }

  ghost predicate RevokedSince(log: seq<Entry>, id: ApiKeyId, i: nat) {
    exists j :: i < j < |log| && IsRevocation(log[j], id)
  }

  predicate IsRevocation(e: Entry, id: ApiKeyId) { e.RevokedAt? && e.id == id }

  predicate IsExtension(e: Entry, id: ApiKeyId) { e.Extended? && e.id == id }

  /** The expiry that was given last: by an extension, or at the creation. */
  ghost predicate IsExpiry(log: seq<Entry>, id: ApiKeyId, i: nat, expiry: Option<nat>)
    requires i < |log| && log[i].Created?
  {
    || (log[i].key.expiresAt == expiry && forall k :: i < k < |log| ==> !IsExtension(log[k], id))
    || exists j :: i < j < |log| && IsLastExtension(log, id, j, expiry)
  }

  ghost predicate IsLastExtension(log: seq<Entry>, id: ApiKeyId, j: nat, expiry: Option<nat>)
    requires j < |log|
  {
    IsExtension(log[j], id) && log[j].expiresAt == expiry && forall k :: j < k < |log| ==> !IsExtension(log[k], id)
  }

  /** The date of the first revocation since. */
  ghost predicate IsFirstRevocation(log: seq<Entry>, id: ApiKeyId, i: nat, at: nat) {
    exists j :: i < j < |log| && IsRevocation(log[j], id) && log[j].at == at
      && forall k :: i < k < j ==> !IsRevocation(log[k], id)
  }

  /** What the row of a key says is what its history says. */
  ghost predicate Tells(log: seq<Entry>, id: ApiKeyId, i: nat, key: Key)
    requires i < |log| && log[i].Created?
  {
    && key.workspace == log[i].key.workspace && key.secret == log[i].key.secret
    && key.role == log[i].key.role && key.device == log[i].key.device
    && IsExpiry(log, id, i, key.expiresAt)
    && (match key.revokedAt
        case None => !RevokedSince(log, id, i)
        case Some(at) => IsFirstRevocation(log, id, i, at))
  }

  /** One creation at most stands for a key, and its row is what that says. */
  ghost predicate Agrees(log: seq<Entry>, keys: Keys, id: ApiKeyId) {
    if id in keys then exists i: nat :: StandsFor(log, id, i) && Tells(log, id, i, keys[id])
    else NoneStands(log, id)
  }

  ghost predicate StandsFor(log: seq<Entry>, id: ApiKeyId, i: nat) {
    IsCreation(log, id, i) && forall j: nat :: IsCreation(log, id, j) ==> j == i
  }

  ghost predicate NoneStands(log: seq<Entry>, id: ApiKeyId) {
    forall i: nat :: !IsCreation(log, id, i)
  }

  /** An entry about other keys tells nothing new. */
  lemma TellsStill(log: seq<Entry>, e: Entry, id: ApiKeyId, i: nat, key: Key)
    requires IsCreation(log, id, i) && Tells(log, id, i, key)
    requires !Removes(e, id, log[i].key.workspace) && !IsRevocation(e, id) && !IsExtension(e, id)
    ensures IsCreation(log + [e], id, i) && Tells(log + [e], id, i, key)
  {
    ExpiryStill(log, e, id, i, key.expiresAt);
    RevocationStill(log, e, id, i);
  }

  lemma ExpiryStill(log: seq<Entry>, e: Entry, id: ApiKeyId, i: nat, expiry: Option<nat>)
    requires i < |log| && log[i].Created? && IsExpiry(log, id, i, expiry) && !IsExtension(e, id)
    ensures IsExpiry(log + [e], id, i, expiry)
  {
    if exists j :: i < j < |log| && IsLastExtension(log, id, j, expiry) {
      var j :| i < j < |log| && IsLastExtension(log, id, j, expiry);
      assert IsLastExtension(log + [e], id, j, expiry);
    }
  }

  lemma RevocationStill(log: seq<Entry>, e: Entry, id: ApiKeyId, i: nat)
    ensures RevokedSince(log, id, i) ==> RevokedSince(log + [e], id, i)
    ensures RevokedSince(log + [e], id, i) && !IsRevocation(e, id) ==> RevokedSince(log, id, i)
    ensures forall at: nat :: IsFirstRevocation(log, id, i, at) ==> IsFirstRevocation(log + [e], id, i, at)
  {
    forall at: nat | IsFirstRevocation(log, id, i, at) ensures IsFirstRevocation(log + [e], id, i, at) {
      var j :| i < j < |log| && IsRevocation(log[j], id) && log[j].at == at
        && forall k :: i < k < j ==> !IsRevocation(log[k], id);
      assert (log + [e])[j] == log[j];
    }
    if RevokedSince(log, id, i) {
      var j :| i < j < |log| && IsRevocation(log[j], id);
      assert (log + [e])[j] == log[j];
    }
  }

  lemma CreationBefore(log: seq<Entry>, e: Entry, id: ApiKeyId, i: nat)
    requires i < |log|
    ensures IsCreation(log + [e], id, i) <==> IsCreation(log, id, i) && !Removes(e, id, log[i].key.workspace)
  {
    if IsCreation(log + [e], id, i) {
      forall j | i < j < |log| ensures !Removes(log[j], id, log[i].key.workspace) {
        assert (log + [e])[j] == log[j];
      }
      assert (log + [e])[|log|] == e;
    }
  }

  lemma CreationNow(log: seq<Entry>, e: Entry, id: ApiKeyId)
    ensures IsCreation(log + [e], id, |log|) <==> e.Created? && e.id == id
  {
    assert (log + [e])[|log|] == e;
  }

  lemma StandsStill(log: seq<Entry>, e: Entry, id: ApiKeyId, i: nat)
    requires StandsFor(log, id, i) && !Removes(e, id, log[i].key.workspace) && !(e.Created? && e.id == id)
    ensures StandsFor(log + [e], id, i)
  {
    CreationBefore(log, e, id, i);
    CreationNow(log, e, id);
    forall j: nat | IsCreation(log + [e], id, j) ensures j == i {
      if j < |log| {
        CreationBefore(log, e, id, j);
      }
    }
  }

  lemma NoneStandsStill(log: seq<Entry>, e: Entry, id: ApiKeyId)
    requires !(e.Created? && e.id == id)
    requires NoneStands(log, id) || exists i: nat :: StandsFor(log, id, i) && Removes(e, id, log[i].key.workspace)
    ensures NoneStands(log + [e], id)
  {
    CreationNow(log, e, id);
    forall j: nat ensures !IsCreation(log + [e], id, j) {
      if j < |log| {
        CreationBefore(log, e, id, j);
      }
    }
  }

  lemma NewcomerAgrees(log: seq<Entry>, id: ApiKeyId, key: Key)
    requires NoneStands(log, id) && key.revokedAt.None?
    ensures var e := Created(id, key); StandsFor(log + [e], id, |log|) && Tells(log + [e], id, |log|, key)
  {
    var e := Created(id, key);
    CreationNow(log, e, id);
    forall j: nat | IsCreation(log + [e], id, j) ensures j == |log| {
      if j < |log| {
        CreationBefore(log, e, id, j);
      }
    }
  }

  lemma ExtendedAgrees(log: seq<Entry>, id: ApiKeyId, i: nat, key: Key, expiry: Option<nat>)
    requires StandsFor(log, id, i) && Tells(log, id, i, key)
    ensures var e := Extended(id, expiry);
      StandsFor(log + [e], id, i) && Tells(log + [e], id, i, key.(expiresAt := expiry))
  {
    var e := Extended(id, expiry);
    StandsStill(log, e, id, i);
    RevocationStill(log, e, id, i);
    assert IsLastExtension(log + [e], id, |log|, expiry);
  }

  lemma RevokedAgrees(log: seq<Entry>, id: ApiKeyId, i: nat, key: Key, at: nat)
    requires StandsFor(log, id, i) && Tells(log, id, i, key)
    ensures var e := RevokedAt(id, at);
      StandsFor(log + [e], id, i)
        && Tells(log + [e], id, i, if key.revokedAt.None? then key.(revokedAt := Some(at)) else key)
  {
    var e := RevokedAt(id, at);
    StandsStill(log, e, id, i);
    ExpiryStill(log, e, id, i, key.expiresAt);
    RevocationStill(log, e, id, i);
    if key.revokedAt.None? {
      assert IsRevocation((log + [e])[|log|], id);
      assert IsFirstRevocation(log + [e], id, i, at);
    }
  }

  lemma EntryKeepsAgreeing(log: seq<Entry>, e: Entry, id: ApiKeyId)
    requires Agrees(log, Replay(log), id) && MayFollow(Replay(log), e)
    ensures Agrees(log + [e], After(Replay(log), e), id)
  {
    var keys := Replay(log);
    if id !in keys {
      if e.Created? && e.id == id {
        NewcomerAgrees(log, id, e.key);
      } else {
        NoneStandsStill(log, e, id);
      }
    } else {
      var i: nat :| StandsFor(log, id, i) && Tells(log, id, i, keys[id]);
      if Removes(e, id, keys[id].workspace) {
        NoneStandsStill(log, e, id);
      } else if IsExtension(e, id) {
        ExtendedAgrees(log, id, i, keys[id], e.expiresAt);
      } else if IsRevocation(e, id) {
        RevokedAgrees(log, id, i, keys[id], e.at);
      } else {
        StandsStill(log, e, id, i);
        TellsStill(log, e, id, i, After(keys, e)[id]);
      }
    }
  }

  lemma {:induction false} HistoryTells(log: seq<Entry>, id: ApiKeyId)
    requires Happened(log)
    ensures Agrees(log, Replay(log), id)
    decreases |log|
  {
    if log != [] {
      var n := |log| - 1;
      HistoryTells(log[..n], id);
      EntryKeepsAgreeing(log[..n], log[n], id);
      assert log[..n] + [log[n]] == log;
    }
  }

  // === authentication ===

  function Verdict(keys: Keys, id: ApiKeyId, secret: Digest, now: nat): Result<Key, AuthError> {
    if id !in keys || keys[id].secret != secret then Err(Unauthenticated)
    else if keys[id].revokedAt.Some? then Err(KeyRevoked)
    else if IsPast(keys[id].expiresAt, now) then Err(KeyExpired)
    else Ok(keys[id])
  }

  /** It is past at its own second. */
  predicate RunsOut(expiry: Option<nat>, now: nat) { expiry.Some? && expiry.value <= now }

  /** Entry `i` created the key with this secret. */
  ghost predicate MadeWith(log: seq<Entry>, id: ApiKeyId, secret: Digest, i: nat) {
    IsCreation(log, id, i) && log[i].key.secret == secret
  }

  /** The main result on keys: a secret is accepted exactly when the history
      holds the creation of its key, no removal and no revocation since, and
      the expiry given last is absent or to come; refused as revoked or expired
      only to whoever has the secret, and to everybody else as unknown. */
  lemma AcceptsExactly(log: seq<Entry>, id: ApiKeyId, secret: Digest, now: nat)
    requires Happened(log)
    ensures Verdict(Replay(log), id, secret, now).Ok? <==>
      exists i: nat :: MadeWith(log, id, secret, i) && !RevokedSince(log, id, i)
        && exists expiry :: IsExpiry(log, id, i, expiry) && !RunsOut(expiry, now)
    ensures Verdict(Replay(log), id, secret, now) == Err(KeyRevoked) <==>
      exists i: nat :: MadeWith(log, id, secret, i) && RevokedSince(log, id, i)
    ensures Verdict(Replay(log), id, secret, now) == Err(KeyExpired) <==>
      exists i: nat :: MadeWith(log, id, secret, i) && !RevokedSince(log, id, i)
        && exists expiry :: IsExpiry(log, id, i, expiry) && RunsOut(expiry, now)
    ensures Verdict(Replay(log), id, secret, now) == Err(Unauthenticated) <==>
      forall i: nat :: !MadeWith(log, id, secret, i)
  {
    HistoryTells(log, id);
    if id in Replay(log) {
      var key := Replay(log)[id];
      var i: nat :| StandsFor(log, id, i) && Tells(log, id, i, key);
      assert key.secret == secret ==> MadeWith(log, id, secret, i);
      RevokedIsRevoked(log, id, i, key);
      forall expiry | IsExpiry(log, id, i, expiry) ensures expiry == key.expiresAt {
        OneExpiry(log, id, i, expiry, key.expiresAt);
      }
    }
  }

  /** Who is accepted is answered the workspace, the role and the device the
      key was created with. */
  lemma AcceptedAsCreated(log: seq<Entry>, id: ApiKeyId, secret: Digest, now: nat, i: nat)
    requires Happened(log) && Verdict(Replay(log), id, secret, now).Ok? && IsCreation(log, id, i)
    ensures var key, made := Verdict(Replay(log), id, secret, now).value, log[i].key;
      key.workspace == made.workspace && key.role == made.role && key.device == made.device && key.secret == secret
  {
    HistoryTells(log, id);
  }

  lemma RevokedIsRevoked(log: seq<Entry>, id: ApiKeyId, i: nat, key: Key)
    requires i < |log| && log[i].Created? && Tells(log, id, i, key)
    ensures key.revokedAt.Some? <==> RevokedSince(log, id, i)
  {
  }

  lemma OneExpiry(log: seq<Entry>, id: ApiKeyId, i: nat, a: Option<nat>, b: Option<nat>)
    requires StandsFor(log, id, i) && IsExpiry(log, id, i, a) && IsExpiry(log, id, i, b)
    ensures a == b
  {
  }

  // === how long a key is good for ===

  /** So many seconds from now, as far as the database can hold the number;
      without a period, for ever. */
  predicate EndsAfter(now: nat, expiresIn: Option<nat>, expiresAt: Option<nat>) {
    match expiresIn
    case None => expiresAt == None
    case Some(secs) =>
      if now + secs < 0x8000_0000_0000_0000 then expiresAt == Some(now + secs)
      else expiresAt == Some(0x7FFF_FFFF_FFFF_FFFF)
  }

  /** Its second has not come. */
  predicate IsBeforeEnd(now: nat, expiresIn: Option<nat>, later: nat) {
    match expiresIn
    case None => true
    case Some(secs) => later < now + secs && later < 0x7FFF_FFFF_FFFF_FFFF
  }

  /** An entry that leaves the key as it is. */
  predicate LeavesAlone(e: Entry, id: ApiKeyId, workspace: WorkspaceId) {
    !Removes(e, id, workspace) && !IsRevocation(e, id) && !IsExtension(e, id) && !(e.Created? && e.id == id)
  }

  lemma {:induction false} LeftAlone(keys: Keys, log: seq<Entry>, more: seq<Entry>, id: ApiKeyId)
    requires keys == Replay(log) && id in keys
    requires forall e <- more :: LeavesAlone(e, id, keys[id].workspace)
    ensures var later := Replay(log + more);
      id in later && later[id] == keys[id].(lastUsedAt := later[id].lastUsedAt)
    decreases |more|
  {
    if more == [] {
      assert log + more == log;
    } else {
      var n := |more| - 1;
      LeftAlone(keys, log, more[..n], id);
      assert LeavesAlone(more[n], id, keys[id].workspace);
      assert (log + more)[..|log + more| - 1] == log + more[..n] && (log + more)[|log + more| - 1] == more[n];
    }
  }

  /** A key that was created or extended for so long, and left alone since, is
      accepted exactly before that second, as long as it is not revoked. */
  lemma AcceptedUntilItsEnd(log: seq<Entry>, more: seq<Entry>, id: ApiKeyId, now: nat, expiresIn: Option<nat>,
          later: nat)
    requires id in Replay(log) && Replay(log)[id].revokedAt.None?
    requires EndsAfter(now, expiresIn, Replay(log)[id].expiresAt)
    requires forall e <- more :: LeavesAlone(e, id, Replay(log)[id].workspace)
    ensures var verdict := Verdict(Replay(log + more), id, Replay(log)[id].secret, later);
      if IsBeforeEnd(now, expiresIn, later)
      then verdict.Ok? && verdict.value.role == Replay(log)[id].role
           && verdict.value.workspace == Replay(log)[id].workspace
      else verdict == Err(KeyExpired)
  {
    LeftAlone(Replay(log), log, more, id);
  }

  /** What an operator is shown is what the holder of the secret is told. */
  lemma StateIsWhatIsAnswered(keys: Keys, id: ApiKeyId, now: nat)
    requires id in keys
    ensures StateOf(keys[id], now) ==
      match Verdict(keys, id, keys[id].secret, now)
      case Ok(_) => Active
      case Err(KeyRevoked) => KeyState.Revoked
      case Err(_) => Expired
  {
  }

  // === revoking and pruning ===

  lemma EntryKeepsRevocation(keys: Keys, e: Entry, id: ApiKeyId)
    requires id in keys && keys[id].revokedAt.Some? && MayFollow(keys, e) && id in After(keys, e)
    ensures After(keys, e)[id].revokedAt == keys[id].revokedAt
  {
  }

  /** Nothing brings a revoked key back, and the date it was revoked stays:
      whatever is done, its row is as it was or was removed. */
  lemma {:induction false} RevokedForGood(log: seq<Entry>, more: seq<Entry>, id: ApiKeyId, at: nat)
    requires Happened(log + more) && Happened(log)
    requires id in Replay(log) && Replay(log)[id].revokedAt == Some(at)
    requires forall e <- more :: !(e.Created? && e.id == id)
    ensures id in Replay(log + more) ==> Replay(log + more)[id].revokedAt == Some(at)
    ensures forall secret, now :: !Verdict(Replay(log + more), id, secret, now).Ok?
    decreases |more|
  {
    if more == [] {
      assert log + more == log;
    } else {
      var n := |more| - 1;
      var before := log + more[..n];
      assert (log + more)[..|log + more| - 1] == before && (log + more)[|log + more| - 1] == more[n];
      RevokedForGood(log, more[..n], id, at);
      if id in Replay(before) {
        if id in Replay(log + more) {
          EntryKeepsRevocation(Replay(before), more[n], id);
        }
      }
    }
  }

  /** Pruning removes no key that is good for anything now. */
  lemma PruneSparesActive(keys: Keys, now: nat, olderThan: nat, id: ApiKeyId)
    requires id in keys && StateOf(keys[id], now) == Active
    ensures id in After(keys,
      Pruned(Prunable(keys, ToDb(SaturatingSub(now, olderThan))), ToDb(SaturatingSub(now, olderThan))))
  {
  }

  /** A key that expired or was revoked long enough ago, as the command says. */
  predicate LongEnded(key: Key, before: nat) {
    IsPast(key.expiresAt, before) || IsPast(key.revokedAt, before)
  }

  /** The command's words and its deed differ for a key that was revoked
      since, however long before it had expired: that is kept. */
  lemma PrunesUnlessRevokedSince(keys: Keys, before: nat, id: ApiKeyId)
    requires id in keys
    ensures (id in Prunable(keys, before) <==> LongEnded(keys[id], before))
      <==> !(IsPast(keys[id].expiresAt, before) && keys[id].revokedAt.Some? && keys[id].revokedAt.value > before)
  {
  }

  /** What is pruned, in the key's own fields. */
  predicate EndedBy(key: Key, second: nat) {
    if key.revokedAt.Some? then key.revokedAt.value <= second
    else key.expiresAt.Some? && key.expiresAt.value <= second
  }

  lemma PrunableExactly(keys: Keys, second: nat)
    ensures forall id :: id in Prunable(keys, second) <==> id in keys && EndedBy(keys[id], second)
  {
  }

  lemma PruneKeepsLateRevocation()
    ensures var key := Key(WorkspaceId("w"), seq(32, _ => 0), "", ReadWrite, 0, Some(10), Some(50), None);
      LongEnded(key, 20) && ApiKeyId("k") !in Prunable(map[ApiKeyId("k") := key], 20)
  {
  }

  // === the commands ===

  /** A source of new keys: their ids and the hashes of their secrets. */
  class KeySource {
    const keys: nat -> (ApiKeyId, Digest)
    var drawn: nat

    constructor (keys: nat -> (ApiKeyId, Digest))
    {
      this.keys := keys;
      drawn := 0;
    }

    method Draw() returns (key: (ApiKeyId, Digest))
      modifies this
      ensures drawn == old(drawn) + 1 && key == keys(old(drawn))
    {
      key := keys(drawn);
      drawn := drawn + 1;
    }
  }

  /** The second at which a key made or extended now runs out, if it does. */
  function ExpiryFrom(now: nat, expiresIn: Option<nat>): Option<nat> {
    match expiresIn
    case None => None
    case Some(secs) => Some(ToDb(SaturatingAdd(now, secs)))
  }

  function NewKey(workspace: WorkspaceId, secret: Digest, device: string, role: Role, expiresIn: Option<nat>,
          now: nat): Key
  {
    Key(workspace, secret, device, role, ToDb(now), ExpiryFrom(now, expiresIn), None, None)
  }

  /** A row that was just made, of what was asked for and drawn. */
  predicate IsNewKey(key: Key, workspace: WorkspaceId, secret: Digest, device: string, role: Role,
          expiresIn: Option<nat>, now: nat)
  {
    && key.workspace == workspace && key.secret == secret && key.device == device && key.role == role
    && key.createdAt == Least(now, 0x7FFF_FFFF_FFFF_FFFF) && EndsAfter(now, expiresIn, key.expiresAt)
    && key.revokedAt == None && key.lastUsedAt == None
  }

  /** The three statements a single key's row is changed with. */
  datatype Statement = SetExpiry | CoalesceRevoked | DeleteIfNull

  class Control {
    var workspaces: map<string, WorkspaceId>
    var keys: Keys
    ghost var log: seq<Entry>

    ghost predicate Valid()
      reads this
    {
      Happened(log) && keys == Replay(log)
    }

    /** One more entry, which did what the table shows. */
    twostate predicate Entered(e: Entry)
      reads this
    {
      log == old(log) + [e] && keys == After(old(keys), e) && workspaces == old(workspaces)
    }

    constructor ()
      ensures Valid() && keys == map[] && workspaces == map[]
    {
      workspaces, keys, log := map[], map[], [];
    }

    method CreateKey(workspace: string, device: string, role: Role, expiresIn: Option<nat>, now: nat,
            source: KeySource, ghost k: nat)
      returns (result: Result<ApiKeyId, ControlError>, ghost secret: Digest)
      requires Valid() && source.drawn <= k && source.keys(k).0 !in keys
      modifies this, source
      ensures Valid()
      ensures result.Err? <==> workspace !in old(workspaces)
      ensures result.Err? ==> result.error == NoSuchWorkspace(workspace) && log == old(log) && keys == old(keys)
      ensures result.Ok? ==> result.value !in old(keys)
      ensures result.Ok? ==>
        Entered(Created(result.value, NewKey(old(workspaces)[workspace], secret, device, role, expiresIn, now)))
      ensures result.Ok? ==>
        && result.value in keys && keys == old(keys)[result.value := keys[result.value]]
        && IsNewKey(keys[result.value], old(workspaces)[workspace], secret, device, role, expiresIn, now)
        && old(source.drawn) < source.drawn && source.keys(source.drawn - 1) == (result.value, secret)
    {
      secret := source.keys(k).1;
      if workspace !in workspaces {
        return Err(NoSuchWorkspace(workspace)), secret;
      }
      var candidate := source.Draw();
      while candidate.0 in keys
        invariant source.drawn <= k || candidate.0 !in keys
        invariant old(source.drawn) < source.drawn && candidate == source.keys(source.drawn - 1)
        decreases k - source.drawn
        modifies source
      {
        candidate := source.Draw();
      }
      var key := NewKey(workspaces[workspace], candidate.1, device, role, expiresIn, now);
      secret := candidate.1;
      keys := keys[candidate.0 := key];
      Enter(Created(candidate.0, key));
      return Ok(candidate.0), secret;
    }

    /** The ghost log catches up with the table. */
    ghost method Enter(e: Entry)
      requires Happened(log) && MayFollow(Replay(log), e) && keys == After(Replay(log), e)
      modifies this`log
      ensures Valid() && log == old(log) + [e]
    {
      log := log + [e];
      assert log[..|log| - 1] == old(log);
    }

    /** What every command on an existing key comes down to. */
    method ChangeKey(id: ApiKeyId, statement: Statement, value: Option<nat>) returns (result: Result<Key, ControlError>)
      requires statement.CoalesceRevoked? ==> value.Some?
      modifies this`keys
      ensures result == if id in old(keys) then Ok(if id in keys then keys[id] else old(keys)[id])
        else Err(NoSuchKey(id))
      ensures keys == if id !in old(keys) then old(keys) else
        match statement
        case SetExpiry => After(old(keys), Extended(id, value))
        case CoalesceRevoked => After(old(keys), RevokedAt(id, value.value))
        case DeleteIfNull => if value.None? then After(old(keys), Deleted(id)) else old(keys)
    {
      if id !in keys {
        return Err(NoSuchKey(id));
      }
      var before := keys[id];
      match statement {
        case SetExpiry => keys := keys[id := before.(expiresAt := value)];
        case CoalesceRevoked =>
          keys := keys[id := before.(revokedAt := if before.revokedAt.Some? then before.revokedAt else value)];
        case DeleteIfNull =>
          if value.None? {
            keys := keys - {id};
          }
      }
      return Ok(if id in keys then keys[id] else before);
    }

    method ExtendKey(id: ApiKeyId, expiresIn: Option<nat>, now: nat) returns (result: Result<Key, ControlError>)
      requires Valid()
      modifies this
      ensures Valid() && (result.Ok? <==> id in old(keys))
      ensures if result.Ok?
        then Entered(Extended(id, ExpiryFrom(now, expiresIn)))
             && result == Ok(keys[id])
        else result == Err(NoSuchKey(id)) && log == old(log) && keys == old(keys)
      ensures result.Ok? ==>
        && keys == old(keys)[id := old(keys)[id].(expiresAt := keys[id].expiresAt)]
        && EndsAfter(now, expiresIn, keys[id].expiresAt)
    {
      var at := ExpiryFrom(now, expiresIn);
      result := ChangeKey(id, SetExpiry, at);
      if result.Ok? {
        Enter(Extended(id, at));
      }
    }

    method RevokeKey(id: ApiKeyId, now: nat) returns (result: Result<Key, ControlError>)
      requires Valid()
      modifies this
      ensures Valid() && (result.Ok? <==> id in old(keys))
      ensures if result.Ok? then Entered(RevokedAt(id, ToDb(now))) && result == Ok(keys[id])
        else result == Err(NoSuchKey(id)) && log == old(log) && keys == old(keys)
      ensures result.Ok? ==>
        var before := old(keys)[id];
        keys == if before.revokedAt.Some? then old(keys) else old(keys)[id := before.(revokedAt := keys[id].revokedAt)]
      ensures result.Ok? && old(keys)[id].revokedAt.None? ==> EndsAfter(now, Some(0), keys[id].revokedAt)
    {
      result := ChangeKey(id, CoalesceRevoked, Some(ToDb(now)));
      if result.Ok? {
        Enter(RevokedAt(id, ToDb(now)));
      }
    }

    method DeleteKey(id: ApiKeyId) returns (result: Result<Key, ControlError>)
      requires Valid()
      modifies this
      ensures Valid() && (result.Ok? <==> id in old(keys))
      ensures result.Ok? ==> keys == old(keys) - {id}
      ensures if result.Ok? then Entered(Deleted(id)) && result == Ok(old(keys)[id])
        else result == Err(NoSuchKey(id)) && log == old(log) && keys == old(keys)
    {
      result := ChangeKey(id, DeleteIfNull, None);
      if result.Ok? {
        Enter(Deleted(id));
      }
    }

    method PruneKeys(olderThan: nat, now: nat) returns (pruned: nat)
      requires Valid()
      modifies this
      ensures Valid()
      ensures var before := ToDb(SaturatingSub(now, olderThan));
        Entered(Pruned(Prunable(old(keys), before), before)) && pruned == |Prunable(old(keys), before)|
      ensures var second := if now < olderThan then 0 else Least(now - olderThan, 0x7FFF_FFFF_FFFF_FFFF);
        && (forall id :: id in keys <==> id in old(keys) && !EndedBy(old(keys)[id], second))
        && (forall id <- keys :: keys[id] == old(keys)[id]) && pruned == |old(keys).Keys - keys.Keys|
    {
      PrunableExactly(keys, ToDb(SaturatingSub(now, olderThan)));
      var before := ToDb(SaturatingSub(now, olderThan));
      var gone := set id | id in keys && IsPast(EndedAt(keys[id]), before);
      keys := keys - gone;
      Enter(Pruned(gone, before));
      assert old(keys).Keys - keys.Keys == gone;
      return |gone|;
    }

    /** The rows of a workspace go with it, keys included. */
    method DeleteWorkspace(name: string) returns (result: Result<WorkspaceId, ControlError>)
      requires Valid()
      modifies this
      ensures Valid() && (result.Ok? <==> name in old(workspaces))
      ensures if result.Ok?
        then result.value == old(workspaces)[name] && workspaces == old(workspaces) - {name}
             && log == old(log) + [WorkspaceDeleted(result.value)]
             && keys == After(old(keys), WorkspaceDeleted(result.value))
             && (forall id :: id in keys <==> id in old(keys) && old(keys)[id].workspace != result.value)
             && (forall id <- keys :: keys[id] == old(keys)[id])
        else result == Err(NoSuchWorkspace(name)) && log == old(log) && keys == old(keys)
             && workspaces == old(workspaces)
    {
      if name !in workspaces {
        return Err(NoSuchWorkspace(name));
      }
      var found := workspaces[name];
      workspaces := workspaces - {name};
      keys := map id | id in keys && keys[id].workspace != found :: keys[id];
      Enter(WorkspaceDeleted(found));
      return Ok(found);
    }

    /** Matches a token to its key, and notes the use unless one was noted less than a minute ago. */
    method Authenticate(id: ApiKeyId, secret: Digest, now: nat) returns (result: Result<Key, AuthError>)
      requires Valid()
      modifies this
      ensures Valid() && result == Verdict(old(keys), id, secret, now)
      ensures
        var stale := result.Ok?
          && (result.value.lastUsedAt.None?
              || SaturatingSub(now, result.value.lastUsedAt.value) >= LAST_USE_EVERY_SECS);
        if stale then Entered(Used(id, ToDb(now))) else log == old(log) && keys == old(keys)
      ensures result.Err? ==> keys == old(keys)
      ensures result.Ok? ==>
        var noted := old(keys)[id].lastUsedAt;
        if noted.None? || noted.value + 60 <= now
        then keys == old(keys)[id := old(keys)[id].(lastUsedAt := Some(Least(now, 0x7FFF_FFFF_FFFF_FFFF)))]
        else keys == old(keys)
    {
      if id !in keys || keys[id].secret != secret {
        return Err(Unauthenticated);
      }
      var key := keys[id];
      if key.revokedAt.Some? {
        return Err(KeyRevoked);
      }
      if key.expiresAt.Some? && key.expiresAt.value <= now {
        return Err(KeyExpired);
      }
      if key.lastUsedAt.None? || SaturatingSub(now, key.lastUsedAt.value) >= LAST_USE_EVERY_SECS {
        keys := keys[id := key.(lastUsedAt := Some(ToDb(now)))];
        Enter(Used(id, ToDb(now)));
      }
      return Ok(key);
    }
  }
}
