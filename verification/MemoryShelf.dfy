/** The shelf in memory, and the bounded copy loop every shelf writes with. */
module MemoryShelves {
  import opened Wrappers
  import opened Ids
  import opened Sums
  import opened Stores
  import opened Protocol

  // === the reader and the pump ===

  /** What one call of a reader yields. */
  datatype Chunk = Data(bytes: seq<byte>) | Interrupted | Broken

  /** A source of content. Reading past its last chunk, or reading no bytes,
      is its end. */
  class Reader {
    var chunks: seq<Chunk>

    constructor (chunks: seq<Chunk>)
      ensures this.chunks == chunks
    {
      this.chunks := chunks;
    }

    method Read() returns (chunk: Chunk)
      modifies this
      ensures old(chunks) == [] ==> chunk == Data([]) && chunks == []
      ensures old(chunks) != [] ==> chunk == old(chunks)[0] && chunks == old(chunks)[1..]
    {
      if chunks == [] {
        chunk := Data([]);
      } else {
        chunk, chunks := chunks[0], chunks[1..];
      }
    }
  }

  /** Everything a reader yields before its end, or before it breaks. */
  ghost function Yield(chunks: seq<Chunk>): seq<byte> {
    if chunks == [] then []
    else match chunks[0]
      case Data(bytes) => if bytes == [] then [] else bytes + Yield(chunks[1..])
      case Interrupted => Yield(chunks[1..])
      case Broken => []
  }

  /** Whether it breaks before its end. */
  ghost predicate Breaks(chunks: seq<Chunk>) {
    chunks != [] &&
    match chunks[0]
    case Data(bytes) => bytes != [] && Breaks(chunks[1..])
    case Interrupted => Breaks(chunks[1..])
    case Broken => true
  }

  /** What comes of reading it, when so many bytes were announced. */
  ghost function Arriving(chunks: seq<Chunk>): nat -> Sent {
    announced =>
      if |Yield(chunks)| > announced then TooLong else if Breaks(chunks) then BrokenOff else Whole(Yield(chunks))
  }

  /** Passes on, piece by piece, what a reader yields, and stops before the
      total would exceed `announced`. */
  method Pump(content: Reader, announced: nat) returns (result: Result<nat, ApiError>, passed: seq<byte>)
    modifies content
    ensures |passed| <= announced
    ensures result == Err(ContentMismatch) <==> |Yield(old(content.chunks))| > announced
    ensures result == Err(InvalidRequest) <==> |Yield(old(content.chunks))| <= announced && Breaks(old(content.chunks))
    ensures result.Ok? ==> passed == Yield(old(content.chunks)) && result == Ok(|passed|)
    ensures result.Ok? || result == Err(ContentMismatch) || result == Err(InvalidRequest)
  {
    passed := [];
    var total := 0;
    while true
      invariant total == |passed| <= announced
      invariant Yield(old(content.chunks)) == passed + Yield(content.chunks)
      invariant Breaks(old(content.chunks)) == Breaks(content.chunks)
      decreases |content.chunks|
    {
      var chunk := content.Read();
      match chunk
      case Data(bytes) =>
        if bytes == [] {
          return Ok(total), passed;
        }
        total := total + |bytes|;
        if total > announced {
          return Err(ContentMismatch), passed;
        }
        passed := passed + bytes;
      case Interrupted =>
      case Broken =>
        return Err(InvalidRequest), passed;
    }
  }

  // === the shelf ===

  function From(content: seq<byte>, offset: nat): seq<byte> {
    if offset < |content| then content[offset..] else []
  }

  /** Byte for byte, and nothing past the end. */
  lemma FromExactly(content: seq<byte>, offset: nat, i: nat)
    ensures i < |From(content, offset)| <==> offset + i < |content|
    ensures i < |From(content, offset)| ==> From(content, offset)[i] == content[offset + i]
  {
  }

  /** The generations with something in them. */
  function NonEmpty(shelf: Shelf): set<nat> {
    set g | g in shelf.generations && shelf.generations[g] != map[]
  }

  class MemoryShelf {
    var staging: map<UploadId, Staged>
    var generations: map<nat, map<ItemId, Item>>

    constructor ()
      ensures Contents() == EMPTY_SHELF
    {
      staging, generations := map[], map[];
    }

    function Contents(): Shelf
      reads this
    {
      Shelf(staging, generations)
    }

    method StageCreate(upload: UploadId)
      modifies this
      ensures Contents() == Create(old(Contents()), upload)
    {
      if upload !in staging {
        staging := staging[upload := EMPTY_PLACE];
      }
    }

    /** Replaces what is staged by what `content` yields, or empties the
        staging place when that is too much or breaks off. */
    method StageWrite(upload: UploadId, content: Reader, announced: nat, hashed: bool, site: Site)
      returns (result: Result<nat, ApiError>)
      modifies this, content
      ensures generations == old(generations)
      ensures upload !in old(staging) ==> result == Err(NotFound) && staging == old(staging)
      ensures upload in old(staging) ==>
        match Arriving(old(content.chunks))(announced)
        case Whole(all) =>
          result == Ok(|all|)
            && staging == old(staging)[upload := Staged(all, if hashed then Some(site.sha256(all)) else None)]
        case TooLong => result == Err(ContentMismatch) && staging == old(staging)[upload := EMPTY_PLACE]
        case BrokenOff => result == Err(InvalidRequest) && staging == old(staging)[upload := EMPTY_PLACE]
    {
      if upload !in staging {
        return Err(NotFound);
      }
      var passed;
      result, passed := Pump(content, announced);
      if result.Ok? {
        staging := staging[upload := Staged(passed, if hashed then Some(site.sha256(passed)) else None)];
      } else {
        staging := staging[upload := EMPTY_PLACE];
      }
    }

    method StageDigest(upload: UploadId) returns (digest: Option<Digest>)
      ensures digest == if upload in staging then staging[upload].digest else None
    {
      if upload !in staging {
        return None;
      }
      return staging[upload].digest;
    }

    method StageSize(upload: UploadId) returns (size: Option<nat>)
      ensures size == if upload in staging then Some(|staging[upload].content|) else None
    {
      if upload !in staging {
        return None;
      }
      return Some(|staging[upload].content|);
    }

    method ListStaged() returns (uploads: set<UploadId>)
      ensures uploads == staging.Keys
    {
      uploads := staging.Keys;
    }

    method StageRemove(upload: UploadId)
      modifies this
      ensures Contents() == CleanedUp(RemoveStaging(upload), old(Contents()))
    {
      staging := staging - {upload};
    }

    /** What is staged becomes an item; one that is there already is not replaced. */
    method Publish(upload: UploadId, generation: nat, id: ItemId, envelope: Envelope)
      returns (result: Result<bool, ApiError>)
      modifies this
      ensures upload !in old(staging) ==> result == Err(NotFound)
      ensures upload in old(staging) ==> result == Ok(id !in old(Contents()).Items(generation))
      ensures Contents() == Published(old(Contents()), upload, generation, id, envelope)
    {
      if upload !in staging {
        return Err(NotFound);
      }
      if generation in generations && id in generations[generation] {
        return Ok(false);
      }
      var content := staging[upload].content;
      staging := staging - {upload};
      var items := if generation in generations then generations[generation] else map[];
      generations := generations[generation := items[id := Item(content, envelope)]];
      return Ok(true);
    }

    /** The ids in descending order. */
    method ListIds(generation: nat) returns (list: seq<ItemId>)
      ensures list == NewestFirst(Contents().Items(generation).Keys)
    {
      list := NewestFirst(if generation in generations then generations[generation].Keys else {});
    }

    method Get(generation: nat, id: ItemId) returns (item: Option<Item>)
      ensures var items := Contents().Items(generation); item == if id in items then Some(items[id]) else None
    {
      if generation in generations && id in generations[generation] {
        return Some(generations[generation][id]);
      }
      return None;
    }

    /** What is left of an item's content from an offset on. */
    method OpenContentFrom(generation: nat, id: ItemId, offset: nat) returns (content: Option<seq<byte>>)
      ensures var items := Contents().Items(generation);
        content == if id in items then Some(From(items[id].content, offset)) else None
    {
      if generation !in generations || id !in generations[generation] {
        return None;
      }
      var all := generations[generation][id].content;
      var from := if offset < |all| then offset else |all|;
      assert all[|all|..] == [];
      return Some(all[from..]);
    }

    method ListGenerations() returns (found: set<nat>)
      ensures found == NonEmpty(Contents())
    {
      found := set g | g in generations && generations[g] != map[];
    }

    method Remove(generation: nat, id: ItemId) returns (removed: Option<StoredItem>)
      modifies this
      ensures staging == old(staging)
      ensures var items := old(Contents()).Items(generation);
        if id in items
        then removed == Some(AsStored(items[id]))
             && generations == old(generations)[generation := items - {id}]
        else removed == None && generations == old(generations)
    {
      if generation in generations && id in generations[generation] {
        removed := Some(AsStored(generations[generation][id]));
        generations := generations[generation := generations[generation] - {id}];
      } else {
        removed := None;
      }
    }

    method DropGeneration(generation: nat)
      modifies this
      ensures Contents() == CleanedUp(Cleanup.DropGeneration(generation), old(Contents()))
    {
      generations := generations - {generation};
    }

    /** Adds up the sizes of the items one by one. */
    method CountBytes(generation: nat) returns (total: nat)
      ensures total == Contents().Bytes(generation)
    {
      var items := if generation in generations then generations[generation] else map[];
      ghost var sizes := map id | id in items :: |items[id].content|;
      var left := items.Keys;
      total := 0;
      assert sizes == Restricted(sizes, left);
      while left != {}
        invariant left <= items.Keys
        invariant Sum(sizes) == total + Sum(Restricted(sizes, left))
        decreases left
      {
        var id :| id in left;
        SumOfRest(sizes, left, id);
        total := total + |items[id].content|;
        left := left - {id};
      }
    }
  }
}
