/** Whole calls of the filesystem shelf: the changes each makes, what it shows
    afterwards, what a death between any two changes leaves, and runs of calls
    against the shelf in memory. */
module FsCalls {
  import opened Wrappers
  import opened Ids
  import opened Stores
  import opened Protocol
  import opened MemoryShelves
  import opened ShelfCalls
  import opened FsTrees

  // === what a call makes of a view ===

  ghost function ViewLeft(sha256: seq<byte> -> Digest, v: View, call: Call): View {
    match call
    case StageCreate(u) => v.(shelf := LeftAs(sha256, v.shelf, call), bare := v.bare - {u})
    case StageWrite(u, chunks, announced, hashed) =>
      if u in v.bare || u in v.shelf.staging then
        v.(shelf := v.shelf.(staging := v.shelf.staging[u := LeftBy(sha256, chunks, announced, hashed)]),
          bare := v.bare - {u})
      else v
    case StageRemove(u) => v.(shelf := LeftAs(sha256, v.shelf, call), bare := v.bare - {u})
    case PublishItem(u, g, id, _) =>
      if (g, id) in v.hollow then v
      else if u in v.bare && id !in v.shelf.Items(g) then v.(bare := v.bare - {u}, hollow := v.hollow + iset{(g, id)})
      else v.(shelf := LeftAs(sha256, v.shelf, call))
    case DropItems(g) => v.(shelf := LeftAs(sha256, v.shelf, call), hollow := iset p | p in v.hollow && p.0 != g)
    case _ => v.(shelf := LeftAs(sha256, v.shelf, call))
  }

  ghost function ViewReplies(v: View, call: Call): Reply {
    match call
    case StageWrite(u, chunks, announced, _) =>
      if u in v.bare then IsWritten(WriteAnswer(chunks, announced)) else Replies(v.shelf, call)
    case PublishItem(u, g, id, _) =>
      IsPublished(if u in v.bare || u in v.shelf.staging then Ok(id !in v.shelf.Items(g) && (g, id) !in v.hollow)
        else Err(NotFound))
    case ListStaged => AreStaged(v.shelf.staging.Keys + v.bare)
    case _ => Replies(v.shelf, call)
  }

  // === the changes of each call ===

  function CreateSteps(t: Tree, u: UploadId): seq<FsStep> {
    if PlaceOf(t, u).content.None? then [MakePlace(u), EmptyContent(u)] else [MakePlace(u)]
  }

  function RemoveStagedSteps(t: Tree, u: UploadId, bin: nat): seq<FsStep> {
    if u in t.places then [TrashPlace(u, bin), EmptyBin(bin), RemoveDigest(u)] else [RemoveDigest(u)]
  }

  function DropSteps(t: Tree, g: nat, bin: nat): seq<FsStep> {
    if g in t.generations then [TrashGeneration(g, bin), EmptyBin(bin)] else []
  }

  function RemoveItemSteps(t: Tree, g: nat, id: ItemId, bin: nat): seq<FsStep> {
    if g in t.generations && id in t.generations[g] && t.generations[g][id].content.Some?
    then [TrashItem(g, id, bin), EmptyBin(bin)] else []
  }

  function DescribeSteps(u: UploadId, g: nat, envelope: Envelope): seq<FsStep> {
    [CreateMeta(u), AppendMeta(u, envelope.meta), CreateServer(u),
     FillServer(u, ServerFile(envelope.under, envelope.receivedAt)), MakeGeneration(g)]
  }

  /** Whether the rename will work. */
  predicate WillTake(t: Tree, g: nat, id: ItemId) {
    g in t.generations && id in t.generations[g] ==> t.generations[g][id] == NEW_DIR
  }

  function DigestGoes(t: Tree, u: UploadId, g: nat, id: ItemId): seq<FsStep> {
    if WillTake(t, g, id) then [RemoveDigest(u)] else []
  }

  function PublishSteps(t: Tree, u: UploadId, g: nat, id: ItemId, envelope: Envelope): seq<FsStep> {
    if u !in t.places then []
    else DescribeSteps(u, g, envelope) + [RenamePlace(u, g, id)] + DigestGoes(t, u, g, id)
  }

  function Appends(u: UploadId, pieces: seq<seq<byte>>): seq<FsStep> {
    seq(|pieces|, i requires 0 <= i < |pieces| => AppendContent(u, pieces[i]))
  }

  function Joined(pieces: seq<seq<byte>>): seq<byte> {
    if pieces == [] then [] else Joined(pieces[..|pieces| - 1]) + pieces[|pieces| - 1]
  }

  /** The steps up to the last piece of content that came. */
  function ReceiveSteps(u: UploadId, pieces: seq<seq<byte>>): seq<FsStep> {
    [RemoveDigest(u), EmptyContent(u)] + Appends(u, pieces)
  }

  /** What ends a write: the content emptied again, its digest noted, or nothing. */
  datatype Ending = Refusal | Noted(digest: Digest) | Plainly

  function EndSteps(u: UploadId, ending: Ending): seq<FsStep> {
    match ending
    case Refusal => [EmptyContent(u)]
    case Noted(digest) => [CreateDigest(u), AppendDigest(u, digest)]
    case Plainly => []
  }

  /** The pieces that are written of what comes: as long as there is room. */
  ghost function Taken(chunks: seq<Chunk>, room: nat): seq<seq<byte>> {
    if chunks == [] then []
    else match chunks[0]
      case Data(bytes) => if bytes == [] || |bytes| > room then [] else [bytes] + Taken(chunks[1..], room - |bytes|)
      case Interrupted => Taken(chunks[1..], room)
      case Broken => []
  }

  ghost function EndingOf(sha256: seq<byte> -> Digest, chunks: seq<Chunk>, announced: nat, hashed: bool): Ending {
    match Arriving(chunks)(announced)
    case Whole(all) => if hashed then Noted(sha256(all)) else Plainly
    case _ => Refusal
  }

  ghost function WriteSteps(sha256: seq<byte> -> Digest, t: Tree, u: UploadId, chunks: seq<Chunk>, announced: nat,
          hashed: bool): seq<FsStep>
  {
    if u !in t.places then []
    else ReceiveSteps(u, Taken(chunks, announced)) + EndSteps(u, EndingOf(sha256, chunks, announced, hashed))
  }

  ghost function StepsOf(sha256: seq<byte> -> Digest, t: Tree, call: Call, bin: nat): seq<FsStep> {
    match call
    case StageCreate(u) => CreateSteps(t, u)
    case StageWrite(u, chunks, announced, hashed) => WriteSteps(sha256, t, u, chunks, announced, hashed)
    case StageRemove(u) => RemoveStagedSteps(t, u, bin)
    case PublishItem(u, g, id, envelope) => PublishSteps(t, u, g, id, envelope)
    case RemoveItem(g, id) => RemoveItemSteps(t, g, id, bin)
    case DropItems(g) => DropSteps(t, g, bin)
    case _ => []
  }

  // === what a death leaves ===

  /** Some of what is staged by a write: what was there, or a beginning of what
      came, and no more than was announced. */
  ghost predicate IsSome(v: View, call: Call, some: seq<byte>)
    requires call.StageWrite?
  {
    || (call.upload in v.shelf.staging && some == v.shelf.staging[call.upload].content)
    || (some <= Yield(call.chunks) && |some| <= call.announced)
  }

  ghost predicate LeavesSome(v: View, call: Call, left: View)
    requires call.StageWrite?
  {
    exists some: seq<byte> :: IsSome(v, call, some) && left == WithContent(v, call.upload, some)
  }

  /** A call that dies leaves what was before it or what is after it; but the
      making of a place may leave it bare, and a write may leave some content
      without a digest. */
  ghost predicate MayLeave(sha256: seq<byte> -> Digest, v: View, call: Call, left: View) {
    || left == v
    || left == ViewLeft(sha256, v, call)
    || (call.StageCreate? && call.upload !in v.shelf.staging && left == v.(bare := v.bare + {call.upload}))
    || (call.StageWrite? && (call.upload in v.bare || call.upload in v.shelf.staging) && LeavesSome(v, call, left))
  }

  /** A death here, then opening again, leaves what may be left. */
  ghost predicate DeathIsSafe(sha256: seq<byte> -> Digest, t: Tree, call: Call, s: Tree) {
    Sound(sha256, Opened(s)) && exists left: View :: MayLeave(sha256, ViewOf(t), call, left) && Shows(Opened(s), left)
  }

  /** A call leaves what it should, and a death at any point of it is safe. */
  ghost predicate CallIsSafe(sha256: seq<byte> -> Digest, t: Tree, call: Call, steps: seq<FsStep>) {
    && Sound(sha256, AfterAll(t, steps)) && Shows(AfterAll(t, steps), ViewLeft(sha256, ViewOf(t), call))
    && forall k :: 0 <= k <= |steps| ==> DeathIsSafe(sha256, t, call, AfterAll(t, steps[..k]))
  }

  lemma DeathLeaves(sha256: seq<byte> -> Digest, t: Tree, call: Call, s: Tree, left: View)
    requires Sound(sha256, Opened(s)) && MayLeave(sha256, ViewOf(t), call, left) && Shows(Opened(s), left)
    ensures DeathIsSafe(sha256, t, call, s)
  {
  }

  lemma DeathBefore(sha256: seq<byte> -> Digest, t: Tree, call: Call, s: Tree)
    requires Sound(sha256, s) && Shows(s, ViewOf(t))
    ensures DeathIsSafe(sha256, t, call, s)
  {
    OpenedSound(sha256, s);
    DeathLeaves(sha256, t, call, s, ViewOf(t));
  }

  lemma DeathAfter(sha256: seq<byte> -> Digest, t: Tree, call: Call, s: Tree)
    requires Sound(sha256, Opened(s)) && Shows(Opened(s), ViewLeft(sha256, ViewOf(t), call))
    ensures DeathIsSafe(sha256, t, call, s)
  {
    DeathLeaves(sha256, t, call, s, ViewLeft(sha256, ViewOf(t), call));
  }

  lemma NothingIsSafe(sha256: seq<byte> -> Digest, t: Tree, call: Call)
    requires Sound(sha256, t) && Shows(t, ViewLeft(sha256, ViewOf(t), call))
    ensures CallIsSafe(sha256, t, call, [])
  {
    DeathBefore(sha256, t, call, t);
  }

  lemma ViewLeftAlike(sha256: seq<byte> -> Digest, v: View, w: View, call: Call)
    requires SameView(v, w)
    ensures SameView(ViewLeft(sha256, v, call), ViewLeft(sha256, w, call))
  {
    LeftAlike(sha256, v.shelf, w.shelf, call);
    if call.StageWrite? {
      forall h: nat ensures ViewLeft(sha256, v, call).shelf.Items(h) == ViewLeft(sha256, w, call).shelf.Items(h) {
        assert v.shelf.Items(h) == w.shelf.Items(h);
      }
    }
  }

  // === places ===

  lemma CreateIsSafe(sha256: seq<byte> -> Digest, t: Tree, u: UploadId)
    requires Sound(sha256, t)
    ensures CallIsSafe(sha256, t, StageCreate(u), CreateSteps(t, u))
  {
    var call, steps, made := StageCreate(u), CreateSteps(t, u), After(t, MakePlace(u));
    assert steps[..0] == [] && steps[..|steps|] == steps;
    OneMoreStep(t, steps, 0);
    PlaceIsMade(sha256, t, u);
    DeathBefore(sha256, t, call, t);
    if |steps| == 2 {
      OneMoreStep(t, steps, 1);
      BareIsFilled(sha256, t, u);
      DeathAfter(sha256, t, call, After(made, EmptyContent(u)));
    } else {
      assert Create(ShelfOf(t), u) == ShelfOf(t) && Bare(t) - {u} == Bare(t);
      DeathAfter(sha256, t, call, made);
    }
  }

  /** The place is bare in between, and then it is one like any other. */
  lemma BareIsFilled(sha256: seq<byte> -> Digest, t: Tree, u: UploadId)
    requires Sound(sha256, t) && PlaceOf(t, u).content.None?
    ensures var made := After(t, MakePlace(u)); var s := After(made, EmptyContent(u));
      && Sound(sha256, made) && Opened(made) == made && DeathIsSafe(sha256, t, StageCreate(u), made)
      && Sound(sha256, s) && Opened(s) == s
      && Shows(s, ViewLeft(sha256, ViewOf(t), StageCreate(u)))
  {
    var made := After(t, MakePlace(u));
    var bare := ViewOf(t).(bare := Bare(t) + {u});
    PlaceIsMade(sha256, t, u);
    assert u in t.places ==> Bare(t) + {u} == Bare(t);
    DeathLeaves(sha256, t, StageCreate(u), made, bare);
    PlaceIsFilled(sha256, made, u);
    ViewLeftAlike(sha256, ViewOf(made), bare, StageCreate(u));
    assert bare.bare - {u} == Bare(t) - {u};
  }

  lemma RemoveStagedIsSafe(sha256: seq<byte> -> Digest, t: Tree, u: UploadId, bin: nat)
    requires Sound(sha256, t)
    ensures CallIsSafe(sha256, t, StageRemove(u), RemoveStagedSteps(t, u, bin))
  {
    var call, steps := StageRemove(u), RemoveStagedSteps(t, u, bin);
    assert steps[..0] == [] && steps[..|steps|] == steps;
    OneMoreStep(t, steps, 0);
    DeathBefore(sha256, t, call, t);
    if u in t.places {
      OneMoreStep(t, steps, 1);
      OneMoreStep(t, steps, 2);
      TrashingPlaceRemoves(sha256, t, u, bin);
      OpenedSound(sha256, AfterAll(t, steps));
      forall k | 1 <= k <= 3 ensures DeathIsSafe(sha256, t, call, AfterAll(t, steps[..k])) {
        assert Opened(AfterAll(t, steps[..k])) == AfterAll(t, steps);
        DeathAfter(sha256, t, call, AfterAll(t, steps[..k]));
      }
    } else {
      RemovingDigest(sha256, t, u);
      assert ShelfOf(t).staging - {u} == ShelfOf(t).staging && Bare(t) - {u} == Bare(t);
      DeathAfter(sha256, t, call, AfterAll(t, steps));
    }
  }

  // === items ===

  lemma DropIsSafe(sha256: seq<byte> -> Digest, t: Tree, g: nat, bin: nat)
    requires Sound(sha256, t)
    ensures CallIsSafe(sha256, t, DropItems(g), DropSteps(t, g, bin))
  {
    var call, steps := DropItems(g), DropSteps(t, g, bin);
    TrashingGenerationDrops(sha256, t, g, bin);
    if g in t.generations {
      TwoStepsAreSafe(sha256, t, call, steps);
    } else {
      assert ShelfOf(t).generations - {g} == ShelfOf(t).generations;
      assert (iset p | p in ViewOf(t).hollow && p.0 != g) == ViewOf(t).hollow;
      NothingIsSafe(sha256, t, call);
    }
  }

  /** Two steps, of which the first does it and the second only cleans up. */
  lemma TwoStepsAreSafe(sha256: seq<byte> -> Digest, t: Tree, call: Call, steps: seq<FsStep>)
    requires Sound(sha256, t) && |steps| == 2
    requires var s := After(t, steps[0]);
      && Sound(sha256, Opened(s)) && After(s, steps[1]) == Opened(s)
      && Shows(Opened(s), ViewLeft(sha256, ViewOf(t), call))
    ensures CallIsSafe(sha256, t, call, steps)
  {
    assert steps[..0] == [] && steps[..2] == steps;
    OneMoreStep(t, steps, 0);
    OneMoreStep(t, steps, 1);
    DeathBefore(sha256, t, call, t);
    OpenedSound(sha256, AfterAll(t, steps));
    DeathAfter(sha256, t, call, AfterAll(t, steps[..1]));
    DeathAfter(sha256, t, call, AfterAll(t, steps));
  }

  lemma RemoveItemIsSafe(sha256: seq<byte> -> Digest, t: Tree, g: nat, id: ItemId, bin: nat)
    requires Sound(sha256, t)
    ensures CallIsSafe(sha256, t, RemoveItem(g, id), RemoveItemSteps(t, g, id, bin))
  {
    var call, steps := RemoveItem(g, id), RemoveItemSteps(t, g, id, bin);
    if id in ShelfOf(t).Items(g) {
      TrashingItemRemoves(sha256, t, g, id, bin);
      TwoStepsAreSafe(sha256, t, call, steps);
    } else {
      NothingIsSafe(sha256, t, call);
    }
  }

  // === publishing ===

  lemma FiveSteps(t: Tree, steps: seq<FsStep>)
    requires |steps| == 5
    ensures AfterAll(t, steps) == After(After(After(After(After(t, steps[0]), steps[1]), steps[2]), steps[3]), steps[4])
  {
    var t3 := After(After(After(t, steps[0]), steps[1]), steps[2]);
    assert AfterAll(t, steps[..3]) == t3 by {
      assert steps[..0] == [];
      OneMoreStep(t, steps, 0);
      OneMoreStep(t, steps, 1);
      OneMoreStep(t, steps, 2);
    }
    assert steps[..5] == steps;
    OneMoreStep(t, steps, 3);
    OneMoreStep(t, steps, 4);
  }

  lemma MetaIsWritten(t: Tree, u: UploadId, meta: seq<byte>)
    ensures After(After(t, CreateMeta(u)), AppendMeta(u, meta)) == InPlace(t, u, PlaceOf(t, u).(meta := Some(meta)))
  {
    assert [] + meta == meta;
  }

  lemma ServerIsWritten(t: Tree, u: UploadId, file: ServerFile)
    ensures After(After(t, CreateServer(u)), FillServer(u, file))
      == InPlace(t, u, PlaceOf(t, u).(server := Some(Some(file))))
  {
  }

  lemma DescribedPlace(t: Tree, u: UploadId, g: nat, envelope: Envelope)
    requires u in t.places
    ensures var s := AfterAll(t, DescribeSteps(u, g, envelope));
      && g in s.generations && u in s.places && DescribedAs(s.places[u], envelope)
      && s.places[u].content == t.places[u].content
      && (forall id :: Takes(s, g, id) <==> WillTake(t, g, id))
  {
    var file := ServerFile(envelope.under, envelope.receivedAt);
    FiveSteps(t, DescribeSteps(u, g, envelope));
    MetaIsWritten(t, u, envelope.meta);
    ServerIsWritten(InPlace(t, u, PlaceOf(t, u).(meta := Some(envelope.meta))), u, file);
  }

  /** After the rename, opening leaves what the publish leaves. */
  lemma RenamedShows(sha256: seq<byte> -> Digest, t: Tree, u: UploadId, g: nat, id: ItemId, envelope: Envelope)
    requires Sound(sha256, t) && u in t.places && DescribedAs(t.places[u], envelope) && g in t.generations
    ensures Shows(Opened(After(t, RenamePlace(u, g, id))), ViewLeft(sha256, ViewOf(t), PublishItem(u, g, id, envelope)))
  {
    RenameMoves(sha256, t, u, g, id, envelope);
    if Takes(t, g, id) {
      if t.places[u].content.Some? {
        RenamePublishes(t, u, g, id, envelope);
      } else {
        RenameHollows(t, u, g, id, envelope);
      }
    }
  }

  /** Where a publish is after the rename, and where it ends. */
  lemma PublishEnds(sha256: seq<byte> -> Digest, t: Tree, u: UploadId, g: nat, id: ItemId, envelope: Envelope)
    requires Sound(sha256, t) && u in t.places
    ensures var renamed := AfterAll(t, DescribeSteps(u, g, envelope) + [RenamePlace(u, g, id)]);
      var end := AfterAll(t, PublishSteps(t, u, g, id, envelope));
      && Opened(renamed) == end && Opened(end) == end && Sound(sha256, end)
      && Shows(end, ViewLeft(sha256, ViewOf(t), PublishItem(u, g, id, envelope)))
      && (WillTake(t, g, id) <==> id !in ShelfOf(t).Items(g) && !HollowAt(t, (g, id)))
  {
    var first := DescribeSteps(u, g, envelope);
    var described := AfterAll(t, first);
    UnreadUnnoticed(sha256, t, first);
    DescribedPlace(t, u, g, envelope);
    LastStep(t, first, RenamePlace(u, g, id));
    LastStep(t, first + [RenamePlace(u, g, id)], RemoveDigest(u));
    RenameMoves(sha256, described, u, g, id, envelope);
    RenamedShows(sha256, described, u, g, id, envelope);
    ViewLeftAlike(sha256, ViewOf(described), ViewOf(t), PublishItem(u, g, id, envelope));
    PublishLastStep(t, u, g, id, envelope);
    OpenedSound(sha256, Opened(After(described, RenamePlace(u, g, id))));
    assert (g, id) in ViewOf(described).hollow <==> (g, id) in ViewOf(t).hollow;
  }

  lemma PublishLastStep(t: Tree, u: UploadId, g: nat, id: ItemId, envelope: Envelope)
    requires u in t.places
    ensures PublishSteps(t, u, g, id, envelope) ==
      if WillTake(t, g, id) then DescribeSteps(u, g, envelope) + [RenamePlace(u, g, id)] + [RemoveDigest(u)]
      else DescribeSteps(u, g, envelope) + [RenamePlace(u, g, id)]
  {
  }

  /** Up to the rename a death leaves the upload staged; from it on, the item. */
  lemma PublishIsSafe(sha256: seq<byte> -> Digest, t: Tree, u: UploadId, g: nat, id: ItemId, envelope: Envelope)
    requires Sound(sha256, t)
    ensures CallIsSafe(sha256, t, PublishItem(u, g, id, envelope), PublishSteps(t, u, g, id, envelope))
  {
    var call, steps := PublishItem(u, g, id, envelope), PublishSteps(t, u, g, id, envelope);
    if u in t.places {
      PublishEnds(sha256, t, u, g, id, envelope);
      forall k | 0 <= k <= |steps| ensures DeathIsSafe(sha256, t, call, AfterAll(t, steps[..k])) {
        PublishSurvives(sha256, t, u, g, id, envelope, k);
      }
    } else {
      NothingIsSafe(sha256, t, call);
    }
  }

  lemma PublishSurvives(sha256: seq<byte> -> Digest, t: Tree, u: UploadId, g: nat, id: ItemId, envelope: Envelope,
          k: nat)
    requires Sound(sha256, t) && u in t.places && k <= |PublishSteps(t, u, g, id, envelope)|
    ensures DeathIsSafe(sha256, t, PublishItem(u, g, id, envelope),
      AfterAll(t, PublishSteps(t, u, g, id, envelope)[..k]))
  {
    var call, steps := PublishItem(u, g, id, envelope), PublishSteps(t, u, g, id, envelope);
    if k <= 5 {
      assert steps[..k] == DescribeSteps(u, g, envelope)[..k];
      UnreadUnnoticed(sha256, t, steps[..k]);
      DeathBefore(sha256, t, call, AfterAll(t, steps[..k]));
    } else {
      PublishEnds(sha256, t, u, g, id, envelope);
      assert steps[..6] == DescribeSteps(u, g, envelope) + [RenamePlace(u, g, id)];
      assert k == 6 || steps[..k] == steps;
      DeathAfter(sha256, t, call, AfterAll(t, steps[..k]));
    }
  }

  // === writing: what is taken of what comes ===

  lemma {:induction false} JoinedFirst(piece: seq<byte>, rest: seq<seq<byte>>)
    ensures Joined([piece] + rest) == piece + Joined(rest)
    decreases |rest|
  {
    var all := [piece] + rest;
    if rest == [] {
      assert all[..0] == [] && [] + piece == piece == piece + [];
    } else {
      var n := |rest| - 1;
      assert all[..|all| - 1] == [piece] + rest[..n];
      JoinedFirst(piece, rest[..n]);
      assert piece + (Joined(rest[..n]) + rest[n]) == (piece + Joined(rest[..n])) + rest[n];
    }
  }

  /** All of it, when it fits and does not break off. */
  lemma {:induction false} TakenIsWhole(chunks: seq<Chunk>, room: nat)
    requires |Yield(chunks)| <= room && !Breaks(chunks)
    ensures Joined(Taken(chunks, room)) == Yield(chunks)
    decreases |chunks|
  {
    if chunks != [] {
      match chunks[0]
      case Data(bytes) =>
        if bytes != [] {
          TakenIsWhole(chunks[1..], room - |bytes|);
          JoinedFirst(bytes, Taken(chunks[1..], room - |bytes|));
        }
      case Interrupted => TakenIsWhole(chunks[1..], room);
      case Broken =>
    }
  }

  /** And in any case, after any number of pieces, a beginning of it. */
  lemma {:induction false} TakenIsBeginning(chunks: seq<Chunk>, room: nat, k: nat)
    requires k <= |Taken(chunks, room)|
    ensures Joined(Taken(chunks, room)[..k]) <= Yield(chunks) && |Joined(Taken(chunks, room)[..k])| <= room
    decreases |chunks|
  {
    if k > 0 {
      match chunks[0]
      case Data(bytes) =>
        var rest := Taken(chunks[1..], room - |bytes|);
        TakenIsBeginning(chunks[1..], room - |bytes|, k - 1);
        JoinedFirst(bytes, rest[..k - 1]);
        assert Taken(chunks, room)[..k] == [bytes] + rest[..k - 1];
      case Interrupted => TakenIsBeginning(chunks[1..], room, k);
    }
  }

  /** A copy on the way: so much has come, in these pieces. */
  ghost predicate Copying(chunks: seq<Chunk>, announced: nat, rest: seq<Chunk>, all: seq<byte>, pieces: seq<seq<byte>>)
  {
    && |all| <= announced
    && Yield(chunks) == all + Yield(rest) && Breaks(chunks) == Breaks(rest)
    && Taken(chunks, announced) == pieces + Taken(rest, announced - |all|)
  }

  lemma CopyGoesOn(chunks: seq<Chunk>, announced: nat, rest: seq<Chunk>, all: seq<byte>, pieces: seq<seq<byte>>)
    requires Copying(chunks, announced, rest, all, pieces) && rest != []
    requires rest[0].Interrupted? || (rest[0].Data? && rest[0].bytes != [] && |all| + |rest[0].bytes| <= announced)
    ensures rest[0].Interrupted? ==> Copying(chunks, announced, rest[1..], all, pieces)
    ensures rest[0].Data? ==> Copying(chunks, announced, rest[1..], all + rest[0].bytes, pieces + [rest[0].bytes])
  {
    if rest[0].Data? {
      assert all + (rest[0].bytes + Yield(rest[1..])) == (all + rest[0].bytes) + Yield(rest[1..]);
      var more := Taken(rest[1..], announced - |all| - |rest[0].bytes|);
      assert pieces + ([rest[0].bytes] + more) == (pieces + [rest[0].bytes]) + more;
    }
  }

  lemma CopyEnds(chunks: seq<Chunk>, announced: nat, rest: seq<Chunk>, all: seq<byte>, pieces: seq<seq<byte>>)
    requires Copying(chunks, announced, rest, all, pieces)
    requires rest == [] || rest[0].Broken?
      || (rest[0].Data? && (rest[0].bytes == [] || |all| + |rest[0].bytes| > announced))
    ensures Taken(chunks, announced) == pieces
    ensures WriteAnswer(chunks, announced) ==
      if rest == [] || (rest[0].Data? && rest[0].bytes == []) then Ok(|all|)
      else if rest[0].Broken? then Err(InvalidRequest) else Err(ContentMismatch)
    ensures WriteAnswer(chunks, announced).Ok? ==> all == Yield(chunks)
  {
    assert pieces + [] == pieces && all + [] == all;
  }

  // === writing: step by step ===

  lemma ReceiveGrows(u: UploadId, pieces: seq<seq<byte>>)
    requires pieces != []
    ensures var n := |pieces| - 1;
      ReceiveSteps(u, pieces) == ReceiveSteps(u, pieces[..n]) + [AppendContent(u, pieces[n])]
  {
  }

  /** A tree that shows what `t0` shows, but for what `u` may hold. */
  ghost predicate Near(t: Tree, t0: Tree, u: UploadId) {
    Shows(t, ViewOf(t0)) || exists some: seq<byte> :: Shows(t, WithContent(ViewOf(t0), u, some))
  }

  /** A tree like `t0`, but that `u` holds `some` and no digest. */
  ghost predicate Holding(sha256: seq<byte> -> Digest, t: Tree, t0: Tree, u: UploadId, some: seq<byte>) {
    && Sound(sha256, t) && u in t.places && u !in t.digests && t.places[u].content == Some(some)
    && Shows(t, WithContent(ViewOf(t0), u, some))
  }

  lemma ContentReplaced(v: View, w: View, u: UploadId, some: seq<byte>)
    requires SameView(v, w) || exists other: seq<byte> :: SameView(v, WithContent(w, u, other))
    ensures SameView(WithContent(v, u, some), WithContent(w, u, some))
  {
    forall h: nat ensures WithContent(v, u, some).shelf.Items(h) == WithContent(w, u, some).shelf.Items(h) {
      assert v.shelf.Items(h) == w.shelf.Items(h) by {
        if other: seq<byte> :| SameView(v, WithContent(w, u, other)) {
          assert v.shelf.Items(h) == WithContent(w, u, other).shelf.Items(h);
        }
      }
    }
  }

  lemma HoldingOn(sha256: seq<byte> -> Digest, t: Tree, t0: Tree, u: UploadId, more: seq<byte>)
    requires Sound(sha256, t) && u in t.places && u !in t.digests && Near(t, t0, u)
    ensures Holding(sha256, InPlace(t, u, t.places[u].(content := Some(more))), t0, u, more)
  {
    ContentChanges(sha256, t, u, more);
    ContentReplaced(ViewOf(t), ViewOf(t0), u, more);
  }

  lemma EmptyingHolds(sha256: seq<byte> -> Digest, t: Tree, t0: Tree, u: UploadId)
    requires Sound(sha256, t) && u in t.places && u !in t.digests && Near(t, t0, u)
    ensures Holding(sha256, After(t, EmptyContent(u)), t0, u, [])
  {
    HoldingOn(sha256, t, t0, u, []);
  }

  lemma AppendingHolds(sha256: seq<byte> -> Digest, t: Tree, t0: Tree, u: UploadId, some: seq<byte>, piece: seq<byte>)
    requires Holding(sha256, t, t0, u, some)
    ensures Holding(sha256, After(t, AppendContent(u, piece)), t0, u, some + piece)
  {
    HoldingOn(sha256, t, t0, u, some + piece);
  }

  /** The first step of a write: the digest goes. */
  lemma ForgetsDigest(sha256: seq<byte> -> Digest, t: Tree, u: UploadId, chunks: seq<Chunk>, announced: nat,
          hashed: bool)
    requires Sound(sha256, t) && u in t.places
    ensures var s := After(t, RemoveDigest(u));
      && Sound(sha256, s) && u in s.places && u !in s.digests && Near(s, t, u)
      && AfterAll(t, [RemoveDigest(u)]) == s
      && DeathIsSafe(sha256, t, StageWrite(u, chunks, announced, hashed), s)
  {
    var call, s := StageWrite(u, chunks, announced, hashed), After(t, RemoveDigest(u));
    RemovingDigest(sha256, t, u);
    LastStep(t, [], RemoveDigest(u));
    assert [] + [RemoveDigest(u)] == [RemoveDigest(u)];
    if t.places[u].content.Some? {
      SomeIsSafe(sha256, t, call, s, t.places[u].content.value);
    } else {
      DeathBefore(sha256, t, call, s);
    }
  }

  lemma SomeIsSafe(sha256: seq<byte> -> Digest, t: Tree, call: Call, s: Tree, some: seq<byte>)
    requires call.StageWrite? && call.upload in t.places && IsSome(ViewOf(t), call, some)
    requires Sound(sha256, s) && Shows(s, WithContent(ViewOf(t), call.upload, some))
    ensures DeathIsSafe(sha256, t, call, s)
  {
    OpenedSound(sha256, s);
    assert LeavesSome(ViewOf(t), call, WithContent(ViewOf(t), call.upload, some));
    DeathLeaves(sha256, t, call, s, WithContent(ViewOf(t), call.upload, some));
  }

  lemma {:induction false} ReceiveHolds(sha256: seq<byte> -> Digest, t: Tree, u: UploadId, pieces: seq<seq<byte>>)
    requires Sound(sha256, t) && u in t.places
    ensures Holding(sha256, AfterAll(t, ReceiveSteps(u, pieces)), t, u, Joined(pieces))
    decreases |pieces|
  {
    if pieces == [] {
      var first := [RemoveDigest(u)];
      ForgetsDigest(sha256, t, u, [], 0, false);
      LastStep(t, first, EmptyContent(u));
      assert ReceiveSteps(u, pieces) == first + [EmptyContent(u)];
      EmptyingHolds(sha256, AfterAll(t, first), t, u);
    } else {
      var n := |pieces| - 1;
      var before := ReceiveSteps(u, pieces[..n]);
      ReceiveHolds(sha256, t, u, pieces[..n]);
      ReceiveGrows(u, pieces);
      LastStep(t, before, AppendContent(u, pieces[n]));
      AppendingHolds(sha256, AfterAll(t, before), t, u, Joined(pieces[..n]), pieces[n]);
    }
  }

  ghost function WithStaged(v: View, u: UploadId, staged: Staged): View {
    v.(shelf := v.shelf.(staging := v.shelf.staging[u := staged]), bare := v.bare - {u})
  }

  lemma StagedReplaced(v: View, w: View, u: UploadId, some: seq<byte>, staged: Staged)
    requires SameView(v, WithContent(w, u, some))
    ensures SameView(WithStaged(v, u, staged), WithStaged(w, u, staged))
  {
    forall h: nat ensures WithStaged(v, u, staged).shelf.Items(h) == WithStaged(w, u, staged).shelf.Items(h) {
      assert v.shelf.Items(h) == WithContent(w, u, some).shelf.Items(h);
    }
  }

  lemma SameViewThen(a: View, b: View, c: View)
    requires SameView(a, b) && SameView(b, c)
    ensures SameView(a, c)
  {
  }

  lemma NotingShows(sha256: seq<byte> -> Digest, held: Tree, t: Tree, u: UploadId, some: seq<byte>)
    requires Holding(sha256, held, t, u, some)
    ensures var s := After(After(held, CreateDigest(u)), AppendDigest(u, sha256(some)));
      Sound(sha256, s) && Shows(s, WithStaged(ViewOf(t), u, Staged(some, Some(sha256(some)))))
  {
    var s := After(After(held, CreateDigest(u)), AppendDigest(u, sha256(some)));
    var staged := Staged(some, Some(sha256(some)));
    DigestIsNoted(sha256, held, u, sha256(some));
    StagedReplaced(ViewOf(held), ViewOf(t), u, some, staged);
    assert Bare(held) - {u} == Bare(held);
    SameViewThen(ViewOf(s), WithStaged(ViewOf(held), u, staged), WithStaged(ViewOf(t), u, staged));
  }

  lemma WriteStepsAre(sha256: seq<byte> -> Digest, t: Tree, u: UploadId, chunks: seq<Chunk>, announced: nat,
          hashed: bool)
    requires u in t.places
    ensures var received := ReceiveSteps(u, Taken(chunks, announced));
      WriteSteps(sha256, t, u, chunks, announced, hashed) ==
        match EndingOf(sha256, chunks, announced, hashed)
        case Refusal => received + [EmptyContent(u)]
        case Noted(digest) => received + [CreateDigest(u)] + [AppendDigest(u, digest)]
        case Plainly => received
  {
  }

  /** Where a write ends. */
  lemma WriteEnds(sha256: seq<byte> -> Digest, t: Tree, u: UploadId, chunks: seq<Chunk>, announced: nat, hashed: bool)
    requires Sound(sha256, t) && u in t.places
    ensures var end := AfterAll(t, WriteSteps(sha256, t, u, chunks, announced, hashed));
      Sound(sha256, end) && Shows(end, ViewLeft(sha256, ViewOf(t), StageWrite(u, chunks, announced, hashed)))
  {
    var pieces := Taken(chunks, announced);
    var received := ReceiveSteps(u, pieces);
    var held := AfterAll(t, received);
    ReceiveHolds(sha256, t, u, pieces);
    WriteStepsAre(sha256, t, u, chunks, announced, hashed);
    if Arriving(chunks)(announced).Whole? {
      TakenIsWhole(chunks, announced);
    }
    match EndingOf(sha256, chunks, announced, hashed) {
      case Refusal =>
        LastStep(t, received, EmptyContent(u));
        EmptyingHolds(sha256, held, t, u);
      case Noted(digest) =>
        LastStep(t, received, CreateDigest(u));
        LastStep(t, received + [CreateDigest(u)], AppendDigest(u, digest));
        NotingShows(sha256, held, t, u, Joined(pieces));
      case Plainly =>
    }
  }

  lemma ReceivingSurvives(sha256: seq<byte> -> Digest, t: Tree, call: Call, k: nat)
    requires Sound(sha256, t) && call.StageWrite? && call.upload in t.places
      && k <= |Taken(call.chunks, call.announced)|
    ensures DeathIsSafe(sha256, t, call,
      AfterAll(t, ReceiveSteps(call.upload, Taken(call.chunks, call.announced)[..k])))
  {
    var pieces := Taken(call.chunks, call.announced)[..k];
    ReceiveHolds(sha256, t, call.upload, pieces);
    TakenIsBeginning(call.chunks, call.announced, k);
    SomeIsSafe(sha256, t, call, AfterAll(t, ReceiveSteps(call.upload, pieces)), Joined(pieces));
  }

  /** A death while the digest is being noted. */
  lemma NotingSurvives(sha256: seq<byte> -> Digest, t: Tree, call: Call)
    requires Sound(sha256, t) && call.StageWrite? && call.upload in t.places
    ensures var received := ReceiveSteps(call.upload, Taken(call.chunks, call.announced));
      DeathIsSafe(sha256, t, call, AfterAll(t, received + [CreateDigest(call.upload)]))
  {
    var pieces := Taken(call.chunks, call.announced);
    var received := ReceiveSteps(call.upload, pieces);
    var held := AfterAll(t, received);
    ReceiveHolds(sha256, t, call.upload, pieces);
    LastStep(t, received, CreateDigest(call.upload));
    DigestIsBegun(sha256, held, call.upload);
    TakenIsBeginning(call.chunks, call.announced, |pieces|);
    assert pieces[..|pieces|] == pieces;
    ShowsThen(After(held, CreateDigest(call.upload)), held, WithContent(ViewOf(t), call.upload, Joined(pieces)));
    SomeIsSafe(sha256, t, call, AfterAll(t, received + [CreateDigest(call.upload)]), Joined(pieces));
  }

  /** At any point of a write a death leaves what was staged before, what is
      staged after, or some of the content without a digest. */
  lemma WriteSurvives(sha256: seq<byte> -> Digest, t: Tree, call: Call, k: nat)
    requires Sound(sha256, t) && call.StageWrite? && call.upload in t.places
    requires k <= |WriteSteps(sha256, t, call.upload, call.chunks, call.announced, call.hashed)|
    ensures DeathIsSafe(sha256, t, call,
      AfterAll(t, WriteSteps(sha256, t, call.upload, call.chunks, call.announced, call.hashed)[..k]))
  {
    var u := call.upload;
    var steps := WriteSteps(sha256, t, u, call.chunks, call.announced, call.hashed);
    var pieces := Taken(call.chunks, call.announced);
    var received := ReceiveSteps(u, pieces);
    if k == 0 {
      DeathBefore(sha256, t, call, t);
    } else if k == 1 {
      assert steps[..1] == [RemoveDigest(u)];
      ForgetsDigest(sha256, t, u, call.chunks, call.announced, call.hashed);
    } else if k <= |received| {
      assert steps[..k] == ReceiveSteps(u, pieces[..k - 2]);
      ReceivingSurvives(sha256, t, call, k - 2);
    } else if k == |steps| {
      assert steps[..k] == steps;
      WriteEnds(sha256, t, u, call.chunks, call.announced, call.hashed);
      OpenedSound(sha256, AfterAll(t, steps));
      DeathAfter(sha256, t, call, AfterAll(t, steps));
    } else {
      assert steps[..k] == received + [CreateDigest(u)];
      NotingSurvives(sha256, t, call);
    }
  }

  lemma WriteIsSafe(sha256: seq<byte> -> Digest, t: Tree, call: Call)
    requires Sound(sha256, t) && call.StageWrite?
    ensures CallIsSafe(sha256, t, call, WriteSteps(sha256, t, call.upload, call.chunks, call.announced, call.hashed))
  {
    var steps := WriteSteps(sha256, t, call.upload, call.chunks, call.announced, call.hashed);
    if call.upload in t.places {
      WriteEnds(sha256, t, call.upload, call.chunks, call.announced, call.hashed);
      forall k | 0 <= k <= |steps| ensures DeathIsSafe(sha256, t, call, AfterAll(t, steps[..k])) {
        WriteSurvives(sha256, t, call, k);
      }
    } else {
      NothingIsSafe(sha256, t, call);
    }
  }

  /** Of every call: what it leaves, and that a death at any point of it is safe. */
  lemma EveryCallIsSafe(sha256: seq<byte> -> Digest, t: Tree, call: Call, bin: nat)
    requires Sound(sha256, t)
    ensures CallIsSafe(sha256, t, call, StepsOf(sha256, t, call, bin))
  {
    match call
    case StageCreate(u) => CreateIsSafe(sha256, t, u);
    case StageWrite(_, _, _, _) => WriteIsSafe(sha256, t, call);
    case StageRemove(u) => RemoveStagedIsSafe(sha256, t, u, bin);
    case PublishItem(u, g, id, envelope) => PublishIsSafe(sha256, t, u, g, id, envelope);
    case RemoveItem(g, id) => RemoveItemIsSafe(sha256, t, g, id, bin);
    case DropItems(g) => DropIsSafe(sha256, t, g, bin);
    case _ => NothingIsSafe(sha256, t, call);
  }

  // === against the shelf in memory ===

  /** The calls at which the two shelves part: what is bare is written to,
      published or listed, or what is hollow is published onto. */
  ghost predicate Diverges(v: View, call: Call) {
    match call
    case StageWrite(u, _, _, _) => u in v.bare
    case PublishItem(u, g, id, _) => u in v.bare || (u in v.shelf.staging && (g, id) in v.hollow)
    case ListStaged => v.bare != {}
    case _ => false
  }

  /** What is bare is not staged, and what is hollow is no item. */
  ghost predicate Apart(v: View) {
    v.bare !! v.shelf.staging.Keys && forall p <- v.hollow :: p.1 !in v.shelf.Items(p.0)
  }

  lemma TreesAreApart(t: Tree)
    ensures Apart(ViewOf(t))
  {
  }

  /** Everywhere else, and only there, the answers are those of the shelf in
      memory; and where they are, so is what is left. */
  lemma DivergesExactly(sha256: seq<byte> -> Digest, v: View, call: Call)
    requires Apart(v)
    ensures ViewReplies(v, call) == Replies(v.shelf, call) <==> !Diverges(v, call)
    ensures !Diverges(v, call) ==> ViewLeft(sha256, v, call).shelf == LeftAs(sha256, v.shelf, call)
  {
    match call
    case ListStaged =>
      assert v.shelf.staging.Keys + v.bare == v.shelf.staging.Keys <==> v.bare == {};
    case _ =>
  }

  lemma ViewRepliesAlike(v: View, w: View, call: Call)
    requires SameView(v, w)
    ensures ViewReplies(v, call) == ViewReplies(w, call)
  {
    RepliesAlike(v.shelf, w.shelf, call);
  }

  // === runs ===

  datatype Happening =
    | Called(call: Call, bin: nat)
    /** The call dies after some of its changes; the shelf is opened again. */
    | Died(call: Call, bin: nat, changes: nat)
    | Reopened

  ghost function TreeAfter(sha256: seq<byte> -> Digest, t: Tree, h: Happening): Tree {
    match h
    case Called(call, bin) => AfterAll(t, StepsOf(sha256, t, call, bin))
    case Died(call, bin, n) =>
      var steps := StepsOf(sha256, t, call, bin);
      Opened(AfterAll(t, if n < |steps| then steps[..n] else steps))
    case Reopened => Opened(t)
  }

  ghost predicate ViewStep(sha256: seq<byte> -> Digest, v: View, h: Happening, next: View) {
    match h
    case Called(call, _) => next == ViewLeft(sha256, v, call)
    case Died(call, _, _) => MayLeave(sha256, v, call, next)
    case Reopened => next == v
  }

  lemma {:induction false} MayLeaveAlike(sha256: seq<byte> -> Digest, v: View, w: View, call: Call, left: View)
    returns (other: View)
    requires SameView(v, w) && MayLeave(sha256, v, call, left)
    ensures SameView(left, other) && MayLeave(sha256, w, call, other)
  {
    if left == v {
      other := w;
    } else if left == ViewLeft(sha256, v, call) {
      ViewLeftAlike(sha256, v, w, call);
      other := ViewLeft(sha256, w, call);
    } else if call.StageCreate? {
      other := w.(bare := w.bare + {call.upload});
    } else {
      var some: seq<byte> :| IsSome(v, call, some) && left == WithContent(v, call.upload, some);
      ContentReplaced(v, w, call.upload, some);
      assert IsSome(w, call, some);
      other := WithContent(w, call.upload, some);
    }
  }

  lemma StepRefines(sha256: seq<byte> -> Digest, t: Tree, v: View, h: Happening) returns (next: View)
    requires Sound(sha256, t) && Shows(t, v)
    ensures Sound(sha256, TreeAfter(sha256, t, h)) && Shows(TreeAfter(sha256, t, h), next)
      && ViewStep(sha256, v, h, next)
  {
    match h
    case Called(call, bin) =>
      EveryCallIsSafe(sha256, t, call, bin);
      ViewLeftAlike(sha256, ViewOf(t), v, call);
      next := ViewLeft(sha256, v, call);
    case Died(call, bin, n) =>
      EveryCallIsSafe(sha256, t, call, bin);
      var steps := StepsOf(sha256, t, call, bin);
      var k := if n < |steps| then n else |steps|;
      assert steps[..|steps|] == steps;
      assert DeathIsSafe(sha256, t, call, AfterAll(t, steps[..k]));
      var left :| MayLeave(sha256, ViewOf(t), call, left) && Shows(Opened(AfterAll(t, steps[..k])), left);
      next := MayLeaveAlike(sha256, ViewOf(t), v, call, left);
    case Reopened =>
      OpenedSound(sha256, t);
      next := v;
  }

  ghost function TreeAt(sha256: seq<byte> -> Digest, t: Tree, happenings: seq<Happening>): Tree {
    if happenings == [] then t
    else TreeAfter(sha256, TreeAt(sha256, t, happenings[..|happenings| - 1]), happenings[|happenings| - 1])
  }

  /** A run of the reference: one step a happening. */
  ghost predicate ViewRun(sha256: seq<byte> -> Digest, happenings: seq<Happening>, views: seq<View>) {
    && |views| == |happenings| + 1
    && forall i :: 0 <= i < |happenings| ==> ViewStep(sha256, views[i], happenings[i], views[i + 1])
  }

  /** The tree shows the view, so that whatever is called is answered as the
      view answers it. */
  ghost predicate Follows(sha256: seq<byte> -> Digest, t: Tree, v: View) {
    && Sound(sha256, t) && Shows(t, v)
    && forall call: Call :: ViewReplies(ViewOf(t), call) == ViewReplies(v, call)
  }

  /** At each point of the run the tree follows the reference. */
  ghost predicate Refines(sha256: seq<byte> -> Digest, t: Tree, happenings: seq<Happening>, views: seq<View>) {
    && ViewRun(sha256, happenings, views)
    && forall i :: 0 <= i <= |happenings| ==> Follows(sha256, TreeAt(sha256, t, happenings[..i]), views[i])
  }

  lemma ShownAnswers(t: Tree, v: View)
    requires Shows(t, v)
    ensures forall call: Call :: ViewReplies(ViewOf(t), call) == ViewReplies(v, call)
  {
    forall call: Call ensures ViewReplies(ViewOf(t), call) == ViewReplies(v, call) {
      ViewRepliesAlike(ViewOf(t), v, call);
    }
  }

  /** The main result on the filesystem shelf: any calls, any of them dying
      anywhere, any reopenings: there is a run of the reference that the trees
      follow, and that gives the same answers. */
  lemma {:induction false} RunRefines(sha256: seq<byte> -> Digest, t: Tree, v: View, happenings: seq<Happening>)
    returns (views: seq<View>)
    requires Sound(sha256, t) && Shows(t, v)
    ensures views != [] && views[0] == v && Refines(sha256, t, happenings, views)
    decreases |happenings|
  {
    if happenings == [] {
      views := [v];
      ShownAnswers(t, v);
    } else {
      var n := |happenings| - 1;
      var before := RunRefines(sha256, t, v, happenings[..n]);
      assert happenings[..n][..n] == happenings[..n];
      var next := StepRefines(sha256, TreeAt(sha256, t, happenings[..n]), before[n], happenings[n]);
      views := before + [next];
      ShownAnswers(TreeAt(sha256, t, happenings), next);
      OneMoreHappening(sha256, t, happenings, before, next);
    }
  }

  lemma OneMoreHappening(sha256: seq<byte> -> Digest, t: Tree, happenings: seq<Happening>, before: seq<View>,
          next: View)
    requires happenings != [] && Refines(sha256, t, happenings[..|happenings| - 1], before)
    requires ViewStep(sha256, before[|happenings| - 1], happenings[|happenings| - 1], next)
    requires Follows(sha256, TreeAt(sha256, t, happenings), next)
    ensures Refines(sha256, t, happenings, before + [next])
  {
    var n, views := |happenings| - 1, before + [next];
    forall i | 0 <= i < |happenings| ensures ViewStep(sha256, views[i], happenings[i], views[i + 1]) {
      assert i < n ==> happenings[..n][i] == happenings[i];
    }
    forall i | 0 <= i <= |happenings| ensures Follows(sha256, TreeAt(sha256, t, happenings[..i]), views[i]) {
      if i <= n {
        assert happenings[..n][..i] == happenings[..i];
      } else {
        assert happenings[..i] == happenings;
      }
    }
  }

  // === when the reference is the shelf in memory ===

  /** Nothing bare and nothing hollow. */
  ghost predicate Clean(v: View) { v.bare == {} && v.hollow == iset{} }

  /** A bare place comes only of a death inside the making of it. */
  lemma BareComesOfDeath(sha256: seq<byte> -> Digest, v: View, h: Happening, next: View, u: UploadId)
    requires ViewStep(sha256, v, h, next) && u in next.bare && u !in v.bare
    ensures h.Died? && h.call == StageCreate(u)
  {
  }

  /** A hollow directory comes only of publishing a bare place. */
  lemma HollowComesOfBare(sha256: seq<byte> -> Digest, v: View, h: Happening, next: View, p: (nat, ItemId))
    requires ViewStep(sha256, v, h, next) && p in next.hollow && p !in v.hollow
    ensures !h.Reopened? && h.call.PublishItem? && h.call.upload in v.bare && p == (h.call.generation, h.call.id)
  {
  }

  lemma StaysClean(sha256: seq<byte> -> Digest, v: View, h: Happening, next: View)
    requires ViewStep(sha256, v, h, next) && Clean(v) && (h.Died? ==> !h.call.StageCreate?)
    ensures Clean(next)
  {
    forall u ensures u !in next.bare {
      if u in next.bare {
        BareComesOfDeath(sha256, v, h, next, u);
      }
    }
    forall p ensures p !in next.hollow {
      if p in next.hollow {
        HollowComesOfBare(sha256, v, h, next, p);
      }
    }
  }

  /** A tree that shows nothing but a shelf answers as the one in memory. */
  lemma CleanAnswersAsMemory(sha256: seq<byte> -> Digest, t: Tree)
    requires Clean(ViewOf(t))
    ensures forall call: Call :: ViewReplies(ViewOf(t), call) == Replies(ShelfOf(t), call)
  {
    TreesAreApart(t);
    forall call: Call ensures ViewReplies(ViewOf(t), call) == Replies(ShelfOf(t), call) {
      DivergesExactly(sha256, ViewOf(t), call);
    }
  }

  /** Without a death inside the making of a place, the trees of a run hold
      nothing bare and nothing hollow: whatever is called at whatever point is
      answered as the shelf in memory answers it, and leaves what that leaves. */
  lemma {:induction false} AnswersAsMemory(sha256: seq<byte> -> Digest, t: Tree, happenings: seq<Happening>)
    requires Sound(sha256, t) && Clean(ViewOf(t))
    requires forall h <- happenings :: h.Died? ==> !h.call.StageCreate?
    ensures var end := TreeAt(sha256, t, happenings);
      && Sound(sha256, end) && Clean(ViewOf(end))
      && (forall call: Call :: ViewReplies(ViewOf(end), call) == Replies(ShelfOf(end), call))
      && forall call: Call, bin: nat ::
           Alike(ShelfOf(TreeAfter(sha256, end, Called(call, bin))), LeftAs(sha256, ShelfOf(end), call))
    decreases |happenings|
  {
    var end := TreeAt(sha256, t, happenings);
    if happenings != [] {
      var n := |happenings| - 1;
      var before := TreeAt(sha256, t, happenings[..n]);
      AnswersAsMemory(sha256, t, happenings[..n]);
      var next := StepRefines(sha256, before, ViewOf(before), happenings[n]);
      StaysClean(sha256, ViewOf(before), happenings[n], next);
    }
    CleanAnswersAsMemory(sha256, end);
    forall call: Call, bin: nat
      ensures Alike(ShelfOf(TreeAfter(sha256, end, Called(call, bin))), LeftAs(sha256, ShelfOf(end), call))
    {
      CleanLeavesAsMemory(sha256, end, call, bin);
    }
  }

  lemma CleanLeavesAsMemory(sha256: seq<byte> -> Digest, t: Tree, call: Call, bin: nat)
    requires Sound(sha256, t) && Clean(ViewOf(t))
    ensures Alike(ShelfOf(TreeAfter(sha256, t, Called(call, bin))), LeftAs(sha256, ShelfOf(t), call))
  {
    TreesAreApart(t);
    EveryCallIsSafe(sha256, t, call, bin);
    DivergesExactly(sha256, ViewOf(t), call);
  }

  const NO_TREE := Tree(map[], map[], map[], {})

  /** Such a death is enough for the two to part: content is taken in for a
      place the shelf in memory knows nothing of, and the place is listed. */
  lemma DeathMayLeaveBare(sha256: seq<byte> -> Digest, u: UploadId)
    ensures var t := TreeAfter(sha256, NO_TREE, Died(StageCreate(u), 0, 1));
      && Bare(t) == {u} && ShelfOf(t) == EMPTY_SHELF
      && ViewReplies(ViewOf(t), StageWrite(u, [], 0, false)) == IsWritten(Ok(0))
      && Replies(ShelfOf(t), StageWrite(u, [], 0, false)) == IsWritten(Err(NotFound))
      && ViewReplies(ViewOf(t), ListStaged) == AreStaged({u}) && Replies(ShelfOf(t), ListStaged) == AreStaged({})
  {
    var steps := CreateSteps(NO_TREE, u);
    OneMoreStep(NO_TREE, steps, 0);
    assert steps[..0] == [];
    var t := TreeAfter(sha256, NO_TREE, Died(StageCreate(u), 0, 1));
    assert t.places == map[u := NEW_DIR];
    assert ShelfOf(t).staging == map[];
    assert {} + {u} == {u};
    var none: seq<Chunk> := [];
    assert Yield(none) == [] && !Breaks(none);
    assert WriteAnswer(none, 0) == Ok(0);
  }
}
