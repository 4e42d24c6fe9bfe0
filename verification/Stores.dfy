/** The two stores of a workspace as values: the shelf, which holds the
    items, and the ledger's record, which is everything the rules remember. */
module Stores {
  import opened Wrappers
  import opened Ids
  import opened Sums

  // === the shelf ===

  type Digest = d: seq<byte> | |d| == 32 witness seq(32, _ => 0 as byte)

  /** What an item has besides its content. */
  datatype Envelope = Envelope(meta: seq<byte>, under: Option<KeyId>, receivedAt: nat)

  datatype Item = Item(content: seq<byte>, envelope: Envelope)

  /** An item as it is answered: without its content. */
  datatype StoredItem = StoredItem(size: nat, envelope: Envelope)

  /** A staging place: what was written there, and its digest if it was hashed. */
  datatype Staged = Staged(content: seq<byte>, digest: Option<Digest>)

  const EMPTY_PLACE := Staged([], None)

  datatype Shelf = Shelf(staging: map<UploadId, Staged>, generations: map<nat, map<ItemId, Item>>) {
    function Items(generation: nat): map<ItemId, Item> {
      if generation in generations then generations[generation] else map[]
    }

    /** The sizes of its items, added up. */
    ghost function Bytes(generation: nat): nat {
      BytesOf(Items(generation))
    }
  }

  function AsStored(item: Item): StoredItem {
    StoredItem(|item.content|, item.envelope)
  }

  ghost function BytesOf(items: map<ItemId, Item>): nat {
    Sum(map id | id in items :: |items[id].content|)
  }

  const EMPTY_SHELF := Shelf(map[], map[])

  // === the record ===

  datatype Seal = Seal(keyId: KeyId, header: seq<byte>)

  datatype RewriteKind = Migrate | Rotate

  /** An open rewrite. `prior` is the seal readers still go by. */
  datatype Session = Session(
    kind: RewriteKind, prior: Option<Seal>, next: Seal,
    holder: ApiKeyId, leaseExpiresAt: nat, stagedGeneration: nat)

  datatype State = Settled(seal: Option<Seal>) | Rewriting(session: Session)

  datatype UploadRequest = UploadRequest(
    id: ItemId, meta: seq<byte>, size: nat, expectedKeyId: Option<KeyId>, inRewrite: bool)

  datatype Ticket = Ticket(owner: ApiKeyId, request: UploadRequest, expiresAt: nat)

  datatype PutOutcome = PutOutcome(id: ItemId, created: bool, staged: bool)

  datatype Tombstone = Tombstone(owner: ApiKeyId, outcome: PutOutcome, expiresAt: nat)

  datatype WorkspaceRecord = WorkspaceRecord(
    state: State,
    generation: nat,
    plain: Option<nat>,
    nextGeneration: nat,
    used: map<nat, nat>,
    tickets: map<UploadId, Ticket>,
    tombstones: map<UploadId, Tombstone>,
    endedRewrites: set<KeyId>)
  {
    /** During a rewrite this is still the one from before it. */
    function Seal(): Option<Seal> {
      match state
      case Settled(seal) => seal
      case Rewriting(session) => session.prior
    }

    function SealKey(): Option<KeyId> {
      match Seal()
      case Some(seal) => Some(seal.keyId)
      case None => None
    }

    /** Current, plain and staged, as far as there are any. */
    function Live(): set<nat> {
      {generation}
      + (if plain.Some? then {plain.value} else {})
      + (if state.Rewriting? then {state.session.stagedGeneration} else {})
    }

    function UsedOf(generation: nat): nat {
      if generation in used then used[generation] else 0
    }
  }

  /** The record a workspace begins with. */
  const NEW_RECORD :=
    WorkspaceRecord(Settled(None), 0, None, 1, map[], map[], map[], {})

  /** Both stores of one workspace. */
  datatype Store = Store(shelf: Shelf, rec: WorkspaceRecord)

  /** A destructive shelf step, asked for by a rule and taken only after the
      record is stored. */
  datatype Cleanup = DropGeneration(generation: nat) | RemoveStaging(upload: UploadId)

  // === around them ===

  datatype Role = ReadWrite | ReadOnly

  datatype Caller = Caller(key: ApiKeyId, role: Role)

  datatype Partition = Current | Plain

  datatype Limits = Limits(
    quotaBytes: nat, maxItemBytes: Option<nat>, stagingSecs: nat, leaseSecs: nat,
    checkPlaintextContent: bool)

  /** The two fields of `meta` that a commit looks at, if it parses. */
  datatype Said = Said(sha256: Option<string>, size: Option<nat>)

  /** The limits of a workspace, and the two library functions the rules
      call: SHA-256 and the JSON parser. Nothing is assumed of either. */
  datatype Site = Site(limits: Limits, sha256: seq<byte> -> Digest, said: seq<byte> -> Option<Said>)

  datatype ApiError =
    | ForbiddenRole | RewriteInProgress | KeyIdMismatch | ItemTooLarge | QuotaExceeded
    | NotFound | ContentMismatch | InvalidRequest | LeaseHeld | RewriteEnded
    | RewriteIncomplete(staged: nat, source: nat)

  const U64_MAX := 0xFFFF_FFFF_FFFF_FFFF

  function SaturatingAdd(a: nat, b: nat): nat {
    if a + b > U64_MAX then U64_MAX else a + b
  }

  function SaturatingSub(a: nat, b: nat): nat {
    if a < b then 0 else a - b
  }

  // === facts about bytes ===

  lemma BytesOfPutIn(items: map<ItemId, Item>, id: ItemId, item: Item)
    requires id !in items
    ensures BytesOf(items[id := item]) == BytesOf(items) + |item.content|
  {
    var before := map i | i in items :: |items[i].content|;
    var more := items[id := item];
    assert (map i | i in more :: |more[i].content|) == before[id := |item.content|];
    SumPutIn(before, id, |item.content|);
  }

  lemma BytesOfTakeOut(items: map<ItemId, Item>, id: ItemId)
    requires id in items
    ensures BytesOf(items) == BytesOf(items - {id}) + |items[id].content|
  {
    var rest := items - {id};
    BytesOfPutIn(rest, id, items[id]);
    assert rest[id := items[id]] == items;
  }
}
