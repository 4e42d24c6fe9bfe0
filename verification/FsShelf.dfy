/** The shelf on a filesystem: its methods, made of single changes of a
    directory tree. Each is proved to make the changes `FsCalls` lists for it,
    so that what is proved of those, deaths included, is true of it. */
module FsShelves {
  import opened Wrappers
  import opened Ids
  import opened Sums
  import opened Stores
  import opened Protocol
  import opened MemoryShelves
  import opened ShelfCalls
  import opened FsTrees
  import opened FsCalls

  class FsShelf {
    const sha256: seq<byte> -> Digest
    var tree: Tree
    var trashed: nat
    /** Every change made, in order. */
    ghost var done: seq<FsStep>

    ghost predicate Valid()
      reads this
    {
      Sound(sha256, tree)
    }

    /** These changes were made, and no others. */
    twostate predicate Did(steps: seq<FsStep>)
      reads this
    {
      done == old(done) + steps && tree == AfterAll(old(tree), steps)
    }

    /** This call was made: its changes, safe against a death between any two
        of them, and what they leave. */
    twostate predicate Performed(call: Call)
      reads this
    {
      var steps := StepsOf(sha256, old(tree), call, old(trashed));
      && Valid() && Did(steps) && CallIsSafe(sha256, old(tree), call, steps)
      && Shows(tree, ViewLeft(sha256, ViewOf(old(tree)), call))
    }

    /** Opens what a process that stopped anywhere has left. */
    constructor (left: Tree, sha256: seq<byte> -> Digest)
      ensures tree == Opened(left) && this.sha256 == sha256
    {
      this.sha256 := sha256;
      tree, trashed, done := left, 0, [];
      new;
      EmptyTrash();
      SweepDigests();
    }

    method Step(s: FsStep)
      modifies this`tree, this`done
      ensures tree == After(old(tree), s) && done == old(done) + [s]
    {
      tree := After(tree, s);
      done := done + [s];
    }

    /** Each change of an opening leaves a tree that opens to the same. */
    method EmptyTrash()
      modifies this`tree, this`done
      ensures tree == old(tree).(trash := {})
    {
      var left := tree.trash;
      while left != {}
        invariant left <= old(tree).trash && tree == old(tree).(trash := left)
        invariant PartlyOpened(old(tree), tree)
        decreases left
      {
        var bin :| bin in left;
        Step(EmptyBin(bin));
        left := left - {bin};
      }
    }

    method SweepDigests()
      modifies this`tree, this`done
      ensures tree
        == old(tree).(digests := map u | u in old(tree).digests && u in old(tree).places :: old(tree).digests[u])
    {
      var left := tree.digests.Keys;
      while left != {}
        invariant left <= old(tree).digests.Keys
        invariant tree == old(tree).(digests :=
          map u | u in old(tree).digests && (u in left || u in old(tree).places) :: old(tree).digests[u])
        invariant PartlyOpened(old(tree), tree)
        decreases left
      {
        var u :| u in left;
        if u !in tree.places {
          Step(RemoveDigest(u));
        }
        left := left - {u};
      }
    }

    /** The steps taken so far, which began at `t0`. */
    ghost predicate CameFrom(t0: Tree, steps: seq<FsStep>, before: seq<FsStep>)
      reads this
    {
      tree == AfterAll(t0, steps) && done == before + steps
    }

    /** One more of the steps of a method. */
    method Then(s: FsStep, ghost t0: Tree, ghost steps: seq<FsStep>, ghost before: seq<FsStep>)
      requires CameFrom(t0, steps, before)
      modifies this`tree, this`done
      ensures CameFrom(t0, steps + [s], before)
      ensures tree == After(old(tree), s)
    {
      LastStep(t0, steps, s);
      Step(s);
    }

    // === staging places ===

    method StageCreate(u: UploadId)
      requires Valid()
      modifies this`tree, this`done
      ensures Performed(Call.StageCreate(u))
    {
      EveryCallIsSafe(sha256, tree, Call.StageCreate(u), trashed);
      MakeStaged(u);
    }

    method MakeStaged(u: UploadId)
      modifies this`tree, this`done
      ensures Did(CreateSteps(old(tree), u))
    {
      ghost var t0, before := tree, done;
      Then(MakePlace(u), t0, [], before);
      assert [] + [MakePlace(u)] == [MakePlace(u)];
      if tree.places[u].content.None? {
        Then(EmptyContent(u), t0, [MakePlace(u)], before);
        assert [MakePlace(u)] + [EmptyContent(u)] == CreateSteps(t0, u);
      }
    }

    method StageRemove(u: UploadId)
      requires Valid()
      modifies this
      ensures Performed(Call.StageRemove(u))
    {
      EveryCallIsSafe(sha256, tree, Call.StageRemove(u), trashed);
      DiscardPlace(u);
    }

    method DiscardPlace(u: UploadId)
      modifies this
      ensures Did(RemoveStagedSteps(old(tree), u, old(trashed)))
    {
      if u in tree.places {
        BinPlace(u);
      }
      Then(RemoveDigest(u), old(tree), BinSteps(old(tree), u, old(trashed)), old(done));
      assert BinSteps(old(tree), u, old(trashed)) + [RemoveDigest(u)] == RemoveStagedSteps(old(tree), u, old(trashed));
    }

    method BinPlace(u: UploadId)
      requires u in tree.places
      modifies this
      ensures Did(BinSteps(old(tree), u, old(trashed)))
    {
      Then(TrashPlace(u, trashed), old(tree), [], old(done));
      trashed := trashed + 1;
      Then(EmptyBin(trashed - 1), old(tree), [] + [TrashPlace(u, trashed - 1)], old(done));
      assert [] + [TrashPlace(u, trashed - 1)] + [EmptyBin(trashed - 1)] == BinSteps(old(tree), u, old(trashed));
    }

    static function BinSteps(t: Tree, u: UploadId, bin: nat): seq<FsStep> {
      if u in t.places then [TrashPlace(u, bin), EmptyBin(bin)] else []
    }

    /** A note that is not 32 bytes long is no digest. */
    method StageDigest(u: UploadId) returns (digest: Option<Digest>)
      requires Valid()
      ensures IsDigest(digest) == ViewReplies(ViewOf(tree), Call.StageDigest(u))
      ensures digest.Some? ==>
        u in tree.places && tree.places[u].content.Some? && digest.value == sha256(tree.places[u].content.value)
    {
      if u !in tree.digests || |tree.digests[u]| != 32 {
        return None;
      }
      return Some(tree.digests[u]);
    }

    method StageSize(u: UploadId) returns (size: Option<nat>)
      ensures IsSize(size) == ViewReplies(ViewOf(tree), Call.StageSize(u))
    {
      if u !in tree.places || tree.places[u].content.None? {
        return None;
      }
      return Some(|tree.places[u].content.value|);
    }

    /** Every directory there is, with content or without. */
    method Staged() returns (uploads: set<UploadId>)
      ensures AreStaged(uploads) == ViewReplies(ViewOf(tree), ListStaged)
    {
      uploads := tree.places.Keys;
      assert uploads == ShelfOf(tree).staging.Keys + Bare(tree);
    }

    // === content ===

    /** Content replaces what was staged; what breaks off leaves nothing. */
    method StageWrite(u: UploadId, content: Reader, announced: nat, hashed: bool)
      returns (result: Result<nat, ApiError>)
      requires Valid() && content != this as object
      modifies this`tree, this`done, content
      ensures var call := Call.StageWrite(u, old(content.chunks), announced, hashed);
        Performed(call) && IsWritten(result) == ViewReplies(ViewOf(old(tree)), call)
    {
      ghost var call := Call.StageWrite(u, content.chunks, announced, hashed);
      EveryCallIsSafe(sha256, tree, call, trashed);
      if u !in tree.places {
        return Err(NotFound);
      }
      result := Receive(u, content, announced, hashed);
    }

    method Receive(u: UploadId, content: Reader, announced: nat, hashed: bool) returns (result: Result<nat, ApiError>)
      requires u in tree.places && content != this as object
      modifies this`tree, this`done, content
      ensures Did(WriteSteps(sha256, old(tree), u, old(content.chunks), announced, hashed))
      ensures result == WriteAnswer(old(content.chunks), announced)
    {
      ghost var t0, before, chunks := tree, done, content.chunks;
      Clear(u);
      var all;
      result, all := Copy(u, content, announced, t0, before);
      var end := if result.Err? then Refusal else if hashed then Noted(sha256(all)) else Plainly;
      End(u, end, t0, Taken(chunks, announced), before);
    }

    /** The bounded copy: every piece as it comes, never more than announced. */
    method Copy(u: UploadId, content: Reader, announced: nat, ghost t0: Tree, ghost before: seq<FsStep>)
      returns (result: Result<nat, ApiError>, all: seq<byte>)
      requires content != this as object && CameFrom(t0, ReceiveSteps(u, []), before)
      modifies this`tree, this`done, content
      ensures CameFrom(t0, ReceiveSteps(u, Taken(old(content.chunks), announced)), before)
      ensures result == WriteAnswer(old(content.chunks), announced)
      ensures result.Ok? ==> all == Yield(old(content.chunks))
    {
      all := [];
      ghost var pieces, chunks := [], content.chunks;
      assert [] + Yield(chunks) == Yield(chunks) && [] + Taken(chunks, announced) == Taken(chunks, announced);
      while true
        invariant Copying(chunks, announced, content.chunks, all, pieces)
        invariant CameFrom(t0, ReceiveSteps(u, pieces), before)
        decreases |content.chunks|
      {
        ghost var rest := content.chunks;
        var chunk := content.Read();
        match chunk
        case Data(bytes) =>
          if bytes == [] {
            CopyEnds(chunks, announced, rest, all, pieces);
            return Ok(|all|), all;
          }
          if |all| + |bytes| > announced {
            CopyEnds(chunks, announced, rest, all, pieces);
            return Err(ContentMismatch), all;
          }
          CopyGoesOn(chunks, announced, rest, all, pieces);
          TakePiece(u, bytes, t0, pieces, before);
          all := all + bytes;
          pieces := pieces + [bytes];
        case Interrupted =>
          CopyGoesOn(chunks, announced, rest, all, pieces);
        case Broken =>
          CopyEnds(chunks, announced, rest, all, pieces);
          return Err(InvalidRequest), all;
      }
    }

    method Clear(u: UploadId)
      modifies this`tree, this`done
      ensures CameFrom(old(tree), ReceiveSteps(u, []), old(done))
    {
      Then(RemoveDigest(u), old(tree), [], old(done));
      Then(EmptyContent(u), old(tree), [] + [RemoveDigest(u)], old(done));
      assert [] + [RemoveDigest(u)] + [EmptyContent(u)] == ReceiveSteps(u, []);
    }

    method TakePiece(u: UploadId, bytes: seq<byte>, ghost t0: Tree, ghost pieces: seq<seq<byte>>,
            ghost before: seq<FsStep>)
      requires CameFrom(t0, ReceiveSteps(u, pieces), before)
      modifies this`tree, this`done
      ensures CameFrom(t0, ReceiveSteps(u, pieces + [bytes]), before)
    {
      Then(AppendContent(u, bytes), t0, ReceiveSteps(u, pieces), before);
      ReceiveGrows(u, pieces + [bytes]);
      assert (pieces + [bytes])[..|pieces|] == pieces;
    }

    method End(u: UploadId, ending: Ending, ghost t0: Tree, ghost pieces: seq<seq<byte>>, ghost before: seq<FsStep>)
      requires CameFrom(t0, ReceiveSteps(u, pieces), before)
      modifies this`tree, this`done
      ensures CameFrom(t0, ReceiveSteps(u, pieces) + EndSteps(u, ending), before)
    {
      ghost var steps := ReceiveSteps(u, pieces);
      match ending {
        case Refusal =>
          Then(EmptyContent(u), t0, steps, before);
        case Noted(digest) =>
          Then(CreateDigest(u), t0, steps, before);
          Then(AppendDigest(u, digest), t0, steps + [CreateDigest(u)], before);
          assert steps + [CreateDigest(u)] + [AppendDigest(u, digest)] == steps + EndSteps(u, ending);
        case Plainly =>
          assert steps + [] == steps;
      }
    }

    // === items ===

    /** A staged upload becomes an item, whole, unless something is in the way. */
    method Publish(u: UploadId, g: nat, id: ItemId, envelope: Envelope) returns (result: Result<bool, ApiError>)
      requires Valid()
      modifies this`tree, this`done
      ensures var call := PublishItem(u, g, id, envelope);
        Performed(call) && IsPublished(result) == ViewReplies(ViewOf(old(tree)), call)
    {
      EveryCallIsSafe(sha256, tree, PublishItem(u, g, id, envelope), trashed);
      if u !in tree.places {
        return Err(NotFound);
      }
      PublishEnds(sha256, tree, u, g, id, envelope);
      var taken := MovePlace(u, g, id, envelope);
      return Ok(taken);
    }

    method MovePlace(u: UploadId, g: nat, id: ItemId, envelope: Envelope) returns (taken: bool)
      requires u in tree.places
      modifies this`tree, this`done
      ensures Did(PublishSteps(old(tree), u, g, id, envelope)) && taken == WillTake(old(tree), g, id)
    {
      ghost var t0, before := tree, done;
      DescribedPlace(t0, u, g, envelope);
      Describe(u, g, envelope);
      ghost var first := DescribeSteps(u, g, envelope);
      Then(RenamePlace(u, g, id), t0, first, before);
      PublishLastStep(t0, u, g, id, envelope);
      if u in tree.places {
        return false;
      }
      Then(RemoveDigest(u), t0, first + [RenamePlace(u, g, id)], before);
      return true;
    }

    /** Writes what goes beside the content. */
    method Describe(u: UploadId, g: nat, envelope: Envelope)
      modifies this`tree, this`done
      ensures Did(DescribeSteps(u, g, envelope))
    {
      ghost var t0, before, all := tree, done, DescribeSteps(u, g, envelope);
      assert all[..0] == [] && all[..5] == all;
      assert forall k :: 0 <= k < 5 ==> all[..k] + [all[k]] == all[..k + 1];
      Then(CreateMeta(u), t0, all[..0], before);
      Then(AppendMeta(u, envelope.meta), t0, all[..1], before);
      Then(CreateServer(u), t0, all[..2], before);
      Then(FillServer(u, ServerFile(envelope.under, envelope.receivedAt)), t0, all[..3], before);
      Then(MakeGeneration(g), t0, all[..4], before);
    }

    method Get(g: nat, id: ItemId) returns (item: Option<StoredItem>)
      requires Valid()
      ensures IsItem(item) == ViewReplies(ViewOf(tree), GetItem(g, id))
    {
      if g !in tree.generations || id !in tree.generations[g] || tree.generations[g][id].content.None? {
        return None;
      }
      var d := tree.generations[g][id];
      var file := d.server.value.value;
      return Some(StoredItem(|d.content.value|, Envelope(d.meta.value, file.under, file.receivedAt)));
    }

    /** What is left of an item's content from an offset on. */
    method OpenContentFrom(g: nat, id: ItemId, offset: nat) returns (content: Option<seq<byte>>)
      requires Valid()
      ensures IsContent(content) == ViewReplies(ViewOf(tree), OpenContent(g, id, offset))
    {
      if g !in tree.generations || id !in tree.generations[g] || tree.generations[g][id].content.None? {
        return None;
      }
      return Some(From(tree.generations[g][id].content.value, offset));
    }

    /** What is listed are directories with content in them, newest first. */
    method ListIds(g: nat) returns (list: seq<ItemId>)
      requires Valid()
      ensures AreItems(list) == ViewReplies(ViewOf(tree), ListItems(g))
      ensures forall id :: id in list <==> id in ShelfOf(tree).Items(g)
    {
      var found := set id | g in tree.generations && id in tree.generations[g] && tree.generations[g][id].content.Some?;
      assert found == ShelfOf(tree).Items(g).Keys;
      list := NewestFirst(found);
    }

    method Remove(g: nat, id: ItemId) returns (removed: Option<StoredItem>)
      requires Valid()
      modifies this
      ensures Performed(RemoveItem(g, id)) && IsItem(removed) == ViewReplies(ViewOf(old(tree)), RemoveItem(g, id))
    {
      EveryCallIsSafe(sha256, tree, RemoveItem(g, id), trashed);
      removed := Get(g, id);
      if removed.Some? {
        DiscardItem(g, id);
      }
    }

    /** One rename takes the item away; the bin is emptied behind it. */
    method DiscardItem(g: nat, id: ItemId)
      requires g in tree.generations && id in tree.generations[g] && tree.generations[g][id].content.Some?
      modifies this
      ensures Did(RemoveItemSteps(old(tree), g, id, old(trashed)))
    {
      ghost var t0, before, bin := tree, done, trashed;
      Then(TrashItem(g, id, trashed), t0, [], before);
      trashed := trashed + 1;
      Then(EmptyBin(trashed - 1), t0, [] + [TrashItem(g, id, bin)], before);
      assert [] + [TrashItem(g, id, bin)] + [EmptyBin(bin)] == RemoveItemSteps(t0, g, id, bin);
    }

    // === generations ===

    method DropGeneration(g: nat)
      requires Valid()
      modifies this
      ensures Performed(DropItems(g))
    {
      ghost var t0, before, bin := tree, done, trashed;
      EveryCallIsSafe(sha256, t0, DropItems(g), bin);
      if g in tree.generations {
        Then(TrashGeneration(g, trashed), t0, [], before);
        trashed := trashed + 1;
        Then(EmptyBin(trashed - 1), t0, [] + [TrashGeneration(g, bin)], before);
        assert [] + [TrashGeneration(g, bin)] + [EmptyBin(bin)] == DropSteps(t0, g, bin);
      }
    }

    /** The directories of generations in which some item is listed. */
    method Generations() returns (found: set<nat>)
      requires Valid()
      ensures AreGenerations(found) == ViewReplies(ViewOf(tree), Call.ListGenerations)
    {
      found := {};
      var left := tree.generations.Keys;
      while left != {}
        invariant left <= tree.generations.Keys
        invariant forall g :: g in found <==>
          g in tree.generations && g !in left && ItemsIn(tree.generations[g]) != map[]
        decreases left
      {
        var g :| g in left;
        var list := ListIds(g);
        if list != [] {
          assert list[0] in ItemsIn(tree.generations[g]);
          found := found + {g};
        } else {
          assert forall id :: id !in ItemsIn(tree.generations[g]);
        }
        left := left - {g};
      }
      assert found == NonEmpty(ShelfOf(tree));
    }

    /** Adds up the sizes of the content files one by one. */
    method CountBytes(g: nat) returns (total: nat)
      requires Valid()
      ensures IsBytes(total) == ViewReplies(ViewOf(tree), CountContent(g))
    {
      ghost var items := ShelfOf(tree).Items(g);
      ghost var sizes := map id | id in items :: |items[id].content|;
      var dirs := if g in tree.generations then tree.generations[g] else map[];
      var left := set id | id in dirs && dirs[id].content.Some?;
      total := 0;
      assert left == items.Keys;
      assert sizes == Restricted(sizes, left);
      while left != {}
        invariant left <= items.Keys
        invariant Sum(sizes) == total + Sum(Restricted(sizes, left))
        decreases left
      {
        var id :| id in left;
        SumOfRest(sizes, left, id);
        total := total + |dirs[id].content.value|;
        left := left - {id};
      }
    }

    // === any call ===

    /** Whatever is called, it is answered and done as the view of the tree says. */
    method Perform(call: Call) returns (reply: Reply)
      requires Valid()
      modifies this
      ensures Performed(call) && reply == ViewReplies(ViewOf(old(tree)), call)
    {
      if call.StageCreate? || call.StageWrite? || call.StageRemove? || call.PublishItem? || call.RemoveItem?
        || call.DropItems?
      {
        reply := Change(call);
      } else {
        EveryCallIsSafe(sha256, tree, call, trashed);
        reply := Look(call);
        assert done + [] == done;
      }
    }

    method Change(call: Call) returns (reply: Reply)
      requires Valid()
      requires call.StageCreate? || call.StageWrite? || call.StageRemove? || call.PublishItem? || call.RemoveItem?
        || call.DropItems?
      modifies this
      ensures Performed(call) && reply == ViewReplies(ViewOf(old(tree)), call)
    {
      match call
      case StageCreate(u) => StageCreate(u); reply := IsDone;
      case StageWrite(u, chunks, announced, hashed) =>
        var content := new Reader(chunks);
        var written := StageWrite(u, content, announced, hashed);
        reply := IsWritten(written);
      case StageRemove(u) => StageRemove(u); reply := IsDone;
      case PublishItem(u, g, id, envelope) =>
        var published := Publish(u, g, id, envelope);
        reply := IsPublished(published);
      case RemoveItem(g, id) => var removed := Remove(g, id); reply := IsItem(removed);
      case DropItems(g) => DropGeneration(g); reply := IsDone;
    }

    method Look(call: Call) returns (reply: Reply)
      requires Valid()
      requires !(call.StageCreate? || call.StageWrite? || call.StageRemove? || call.PublishItem? || call.RemoveItem?
        || call.DropItems?)
      ensures reply == ViewReplies(ViewOf(tree), call)
    {
      match call
      case StageDigest(u) => var digest := StageDigest(u); reply := IsDigest(digest);
      case StageSize(u) => var size := StageSize(u); reply := IsSize(size);
      case ListStaged => var uploads := Staged(); reply := AreStaged(uploads);
      case GetItem(g, id) => var item := Get(g, id); reply := IsItem(item);
      case OpenContent(g, id, offset) => var content := OpenContentFrom(g, id, offset); reply := IsContent(content);
      case ListItems(g) => var list := ListIds(g); reply := AreItems(list);
      case ListGenerations => var found := Generations(); reply := AreGenerations(found);
      case CountContent(g) => var total := CountBytes(g); reply := IsBytes(total);
    }
  }
}
