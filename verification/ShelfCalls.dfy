/** The fourteen calls of a shelf as values, and what the shelf in memory
    answers to each and is left as. */
module ShelfCalls {
  import opened Wrappers
  import opened Ids
  import opened Stores
  import opened Protocol
  import opened MemoryShelves

  datatype Call =
    | StageCreate(upload: UploadId)
    | StageWrite(upload: UploadId, chunks: seq<Chunk>, announced: nat, hashed: bool)
    | StageDigest(upload: UploadId)
    | StageSize(upload: UploadId)
    | StageRemove(upload: UploadId)
    | ListStaged
    | PublishItem(upload: UploadId, generation: nat, id: ItemId, envelope: Envelope)
    | GetItem(generation: nat, id: ItemId)
    | OpenContent(generation: nat, id: ItemId, offset: nat)
    | ListItems(generation: nat)
    | RemoveItem(generation: nat, id: ItemId)
    | DropItems(generation: nat)
    | ListGenerations
    | CountContent(generation: nat)

  datatype Reply =
    | IsDone
    | IsWritten(written: Result<nat, ApiError>)
    | IsDigest(digest: Option<Digest>)
    | IsSize(size: Option<nat>)
    | AreStaged(uploads: set<UploadId>)
    | IsPublished(published: Result<bool, ApiError>)
    | IsItem(item: Option<StoredItem>)
    | IsContent(content: Option<seq<byte>>)
    | AreItems(ids: seq<ItemId>)
    | AreGenerations(generations: set<nat>)
    | IsBytes(bytes: nat)

  /** What is staged by a write. */
  ghost function LeftBy(sha256: seq<byte> -> Digest, chunks: seq<Chunk>, announced: nat, hashed: bool): Staged {
    match Arriving(chunks)(announced)
    case Whole(all) => Staged(all, if hashed then Some(sha256(all)) else None)
    case _ => EMPTY_PLACE
  }

  /** What it answers. */
  ghost function WriteAnswer(chunks: seq<Chunk>, announced: nat): Result<nat, ApiError> {
    match Arriving(chunks)(announced)
    case Whole(all) => Ok(|all|)
    case TooLong => Err(ContentMismatch)
    case BrokenOff => Err(InvalidRequest)
  }

  ghost function LeftAs(sha256: seq<byte> -> Digest, shelf: Shelf, call: Call): Shelf {
    match call
    case StageCreate(u) => Create(shelf, u)
    case StageWrite(u, chunks, announced, hashed) =>
      if u in shelf.staging then shelf.(staging := shelf.staging[u := LeftBy(sha256, chunks, announced, hashed)])
        else shelf
    case StageRemove(u) => CleanedUp(RemoveStaging(u), shelf)
    case PublishItem(u, g, id, envelope) => Published(shelf, u, g, id, envelope)
    case RemoveItem(g, id) =>
      if id in shelf.Items(g) then shelf.(generations := shelf.generations[g := shelf.Items(g) - {id}]) else shelf
    case DropItems(g) => CleanedUp(DropGeneration(g), shelf)
    case _ => shelf
  }

  ghost function Replies(shelf: Shelf, call: Call): Reply {
    match call
    case StageWrite(u, chunks, announced, _) =>
      IsWritten(if u in shelf.staging then WriteAnswer(chunks, announced) else Err(NotFound))
    case StageDigest(u) => IsDigest(if u in shelf.staging then shelf.staging[u].digest else None)
    case StageSize(u) => IsSize(if u in shelf.staging then Some(|shelf.staging[u].content|) else None)
    case ListStaged => AreStaged(shelf.staging.Keys)
    case PublishItem(u, g, id, _) =>
      IsPublished(if u in shelf.staging then Ok(id !in shelf.Items(g)) else Err(NotFound))
    case GetItem(g, id) => IsItem(if id in shelf.Items(g) then Some(AsStored(shelf.Items(g)[id])) else None)
    case OpenContent(g, id, offset) =>
      IsContent(if id in shelf.Items(g) then Some(From(shelf.Items(g)[id].content, offset)) else None)
    case ListItems(g) => AreItems(NewestFirst(shelf.Items(g).Keys))
    case RemoveItem(g, id) => IsItem(if id in shelf.Items(g) then Some(AsStored(shelf.Items(g)[id])) else None)
    case ListGenerations => AreGenerations(NonEmpty(shelf))
    case CountContent(g) => IsBytes(shelf.Bytes(g))
    case _ => IsDone
  }

  /** Any call of the shelf in memory. */
  method Perform(shelf: MemoryShelf, site: Site, call: Call) returns (reply: Reply)
    modifies shelf
    ensures reply == Replies(old(shelf.Contents()), call)
    ensures shelf.Contents() == LeftAs(site.sha256, old(shelf.Contents()), call)
  {
    match call
    case StageCreate(u) => shelf.StageCreate(u); reply := IsDone;
    case StageWrite(u, chunks, announced, hashed) =>
      var content := new Reader(chunks);
      var written := shelf.StageWrite(u, content, announced, hashed, site);
      reply := IsWritten(written);
    case StageDigest(u) => var digest := shelf.StageDigest(u); reply := IsDigest(digest);
    case StageSize(u) => var size := shelf.StageSize(u); reply := IsSize(size);
    case StageRemove(u) => shelf.StageRemove(u); reply := IsDone;
    case ListStaged => var uploads := shelf.ListStaged(); reply := AreStaged(uploads);
    case PublishItem(u, g, id, envelope) =>
      var published := shelf.Publish(u, g, id, envelope);
      reply := IsPublished(published);
    case GetItem(g, id) =>
      var item := shelf.Get(g, id);
      reply := IsItem(if item.Some? then Some(AsStored(item.value)) else None);
    case OpenContent(g, id, offset) => var content := shelf.OpenContentFrom(g, id, offset); reply := IsContent(content);
    case ListItems(g) => var ids := shelf.ListIds(g); reply := AreItems(ids);
    case RemoveItem(g, id) => var item := shelf.Remove(g, id); reply := IsItem(item);
    case DropItems(g) => shelf.DropGeneration(g); reply := IsDone;
    case ListGenerations => var found := shelf.ListGenerations(); reply := AreGenerations(found);
    case CountContent(g) => var total := shelf.CountBytes(g); reply := IsBytes(total);
  }

  // === shelves that answer alike ===

  /** A generation without items is no generation. */
  ghost predicate Alike(a: Shelf, b: Shelf) {
    a.staging == b.staging && forall g: nat :: a.Items(g) == b.Items(g)
  }

  lemma PublishedAlike(a: Shelf, b: Shelf, u: UploadId, g: nat, id: ItemId, envelope: Envelope)
    requires Alike(a, b)
    ensures Alike(Published(a, u, g, id, envelope), Published(b, u, g, id, envelope))
  {
    forall h: nat ensures Published(a, u, g, id, envelope).Items(h) == Published(b, u, g, id, envelope).Items(h) {
      assert a.Items(h) == b.Items(h) && a.Items(g) == b.Items(g);
    }
  }

  lemma LeftAlike(sha256: seq<byte> -> Digest, a: Shelf, b: Shelf, call: Call)
    requires Alike(a, b)
    ensures Alike(LeftAs(sha256, a, call), LeftAs(sha256, b, call))
  {
    match call
    case PublishItem(u, g, id, envelope) => PublishedAlike(a, b, u, g, id, envelope);
    case RemoveItem(g, id) =>
      forall h: nat ensures LeftAs(sha256, a, call).Items(h) == LeftAs(sha256, b, call).Items(h) {
        assert a.Items(h) == b.Items(h) && a.Items(g) == b.Items(g);
      }
    case DropItems(g) =>
      forall h: nat ensures LeftAs(sha256, a, call).Items(h) == LeftAs(sha256, b, call).Items(h) {
        assert a.Items(h) == b.Items(h);
      }
    case _ =>
      forall h: nat ensures LeftAs(sha256, a, call).Items(h) == LeftAs(sha256, b, call).Items(h) {
        assert a.Items(h) == b.Items(h);
      }
  }

  lemma RepliesAlike(a: Shelf, b: Shelf, call: Call)
    requires Alike(a, b)
    ensures Replies(a, call) == Replies(b, call)
  {
    match call
    case ListGenerations =>
      forall g ensures g in NonEmpty(a) <==> g in NonEmpty(b) {
        if g >= 0 {
          assert a.Items(g) == b.Items(g);
        }
      }
    case _ =>
  }
}
