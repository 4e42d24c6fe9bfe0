/** The directory tree of the filesystem shelf, the single changes its methods
    make of it, and what a tree stands for. */
module FsTrees {
  import opened Wrappers
  import opened Ids
  import opened Stores
  import opened Protocol
  import opened MemoryShelves
  import opened ShelfCalls

  // === the tree ===

  datatype ServerFile = ServerFile(under: Option<KeyId>, receivedAt: nat)

  /** The three files a place or an item may have. That of the server may be
      there and not yet whole. */
  datatype Dir = Dir(content: Option<seq<byte>>, meta: Option<seq<byte>>, server: Option<Option<ServerFile>>)

  const NEW_DIR := Dir(None, None, None)

  datatype Tree = Tree(
    places: map<UploadId, Dir>,               // staging/<upload>/
    digests: map<UploadId, seq<byte>>,        // staging/<upload>.sha256
    generations: map<nat, map<ItemId, Dir>>,  // gen-<n>/items/<id>/
    trash: set<nat>)                          // trash/<name>, whatever is in it

  /** One change of the tree. */
  datatype FsStep =
    | MakePlace(upload: UploadId)
    | EmptyContent(upload: UploadId)                       // created or truncated
    | AppendContent(upload: UploadId, piece: seq<byte>)
    | CreateDigest(upload: UploadId)
    | AppendDigest(upload: UploadId, piece: seq<byte>)
    | RemoveDigest(upload: UploadId)
    | CreateMeta(upload: UploadId)
    | AppendMeta(upload: UploadId, piece: seq<byte>)
    | CreateServer(upload: UploadId)
    | FillServer(upload: UploadId, file: ServerFile)
    | MakeGeneration(generation: nat)
    | RenamePlace(upload: UploadId, generation: nat, id: ItemId)
    | TrashPlace(upload: UploadId, bin: nat)
    | TrashItem(generation: nat, id: ItemId, bin: nat)
    | TrashGeneration(generation: nat, bin: nat)
    | EmptyBin(bin: nat)

  function PlaceOf(t: Tree, u: UploadId): Dir { if u in t.places then t.places[u] else NEW_DIR }

  function InPlace(t: Tree, u: UploadId, d: Dir): Tree {
    if u in t.places then t.(places := t.places[u := d]) else t
  }

  /** A rename onto a directory works only when that is not there or empty. */
  predicate Takes(t: Tree, generation: nat, id: ItemId) {
    generation in t.generations && (id in t.generations[generation] ==> t.generations[generation][id] == NEW_DIR)
  }

  function After(t: Tree, s: FsStep): Tree {
    match s
    case MakePlace(u) => if u in t.places then t else t.(places := t.places[u := NEW_DIR])
    case EmptyContent(u) => InPlace(t, u, PlaceOf(t, u).(content := Some([])))
    case AppendContent(u, p) => InPlace(t, u, PlaceOf(t, u).(content := Some(PlaceOf(t, u).content.GetOr([]) + p)))
    case CreateDigest(u) => t.(digests := t.digests[u := []])
    case AppendDigest(u, p) => t.(digests := t.digests[u := (if u in t.digests then t.digests[u] else []) + p])
    case RemoveDigest(u) => t.(digests := t.digests - {u})
    case CreateMeta(u) => InPlace(t, u, PlaceOf(t, u).(meta := Some([])))
    case AppendMeta(u, p) => InPlace(t, u, PlaceOf(t, u).(meta := Some(PlaceOf(t, u).meta.GetOr([]) + p)))
    case CreateServer(u) => InPlace(t, u, PlaceOf(t, u).(server := Some(None)))
    case FillServer(u, f) => InPlace(t, u, PlaceOf(t, u).(server := Some(Some(f))))
    case MakeGeneration(g) => if g in t.generations then t else t.(generations := t.generations[g := map[]])
    case RenamePlace(u, g, id) =>
      if u in t.places && Takes(t, g, id) then
        t.(places := t.places - {u}, generations := t.generations[g := t.generations[g][id := t.places[u]]])
      else t
    case TrashPlace(u, bin) => t.(places := t.places - {u}, trash := t.trash + {bin})
    case TrashItem(g, id, bin) =>
      if g in t.generations
      then t.(generations := t.generations[g := t.generations[g] - {id}], trash := t.trash + {bin})
      else t
    case TrashGeneration(g, bin) => t.(generations := t.generations - {g}, trash := t.trash + {bin})
    case EmptyBin(bin) => t.(trash := t.trash - {bin})
  }

  function AfterAll(t: Tree, steps: seq<FsStep>): Tree {
    if steps == [] then t else After(AfterAll(t, steps[..|steps| - 1]), steps[|steps| - 1])
  }

  lemma OneMoreStep(t: Tree, steps: seq<FsStep>, k: nat)
    requires k < |steps|
    ensures AfterAll(t, steps[..k + 1]) == After(AfterAll(t, steps[..k]), steps[k])
  {
    assert steps[..k + 1][..k] == steps[..k];
  }

  lemma LastStep(t: Tree, steps: seq<FsStep>, s: FsStep)
    ensures AfterAll(t, steps + [s]) == After(AfterAll(t, steps), s)
  {
    assert (steps + [s])[..|steps|] == steps;
  }

  // === what a tree stands for ===

  predicate IsComplete(d: Dir) {
    d.content.Some? && d.meta.Some? && d.server.Some? && d.server.value.Some?
  }

  function ItemIn(d: Dir): Item
    requires IsComplete(d)
  {
    var file := d.server.value.value;
    Item(d.content.value, Envelope(d.meta.value, file.under, file.receivedAt))
  }

  function DigestIn(t: Tree, u: UploadId): Option<Digest> {
    if u in t.digests && |t.digests[u]| == 32 then Some(t.digests[u]) else None
  }

  function ItemsIn(dirs: map<ItemId, Dir>): map<ItemId, Item> {
    map id | id in dirs && IsComplete(dirs[id]) :: ItemIn(dirs[id])
  }

  /** Places with content and items with content: what the shelf holds. */
  function ShelfOf(t: Tree): Shelf {
    Shelf(map u | u in t.places && t.places[u].content.Some? :: Staged(t.places[u].content.value, DigestIn(t, u)),
          map g | g in t.generations :: ItemsIn(t.generations[g]))
  }

  /** Places without content. A death inside the making of one leaves it so. */
  function Bare(t: Tree): set<UploadId> {
    set u | u in t.places && t.places[u].content.None?
  }

  /** Directories that are in the way of an item and are none. */
  predicate IsHollow(d: Dir) { d.content.None? && d != NEW_DIR }

  predicate HollowAt(t: Tree, p: (nat, ItemId)) {
    p.0 in t.generations && p.1 in t.generations[p.0] && IsHollow(t.generations[p.0][p.1])
  }

  /** What a tree shows to whoever calls: a shelf, and what besides it. */
  datatype View = View(shelf: Shelf, bare: set<UploadId>, hollow: iset<(nat, ItemId)>)

  ghost function ViewOf(t: Tree): View {
    View(ShelfOf(t), Bare(t), iset p | HollowAt(t, p))
  }

  ghost predicate SameView(a: View, b: View) {
    Alike(a.shelf, b.shelf) && a.bare == b.bare && a.hollow == b.hollow
  }

  /** The tree shows this. */
  ghost predicate Shows(t: Tree, v: View) { SameView(ViewOf(t), v) }

  ghost predicate ItemsComplete(t: Tree) {
    forall g <- t.generations, id <- t.generations[g] ::
      t.generations[g][id].content.Some? ==> IsComplete(t.generations[g][id])
  }

  /** A digest that is whole is that of what is staged beside it. */
  ghost predicate DigestsHonest(sha256: seq<byte> -> Digest, t: Tree) {
    forall u <- t.digests ::
      u in t.places
        && (|t.digests[u]| == 32 ==> t.places[u].content.Some? && t.digests[u] == sha256(t.places[u].content.value))
  }

  /** What holds whenever a shelf has been opened. */
  ghost predicate Sound(sha256: seq<byte> -> Digest, t: Tree) {
    ItemsComplete(t) && DigestsHonest(sha256, t) && t.trash == {}
  }

  /** What opening makes of what a death left: the trash is emptied, and
      digests whose place is gone are removed. */
  function Opened(t: Tree): Tree {
    t.(digests := map u | u in t.digests && u in t.places :: t.digests[u], trash := {})
  }

  lemma OpenedSound(sha256: seq<byte> -> Digest, t: Tree)
    requires Sound(sha256, t)
    ensures Opened(t) == t
  {
  }

  /** An opening that was cut short: some of the trash and some digests
      without a place are gone. */
  ghost predicate PartlyOpened(t: Tree, s: Tree) {
    && s.places == t.places && s.generations == t.generations && s.trash <= t.trash
    && s.digests.Keys <= t.digests.Keys && (forall u <- s.digests :: s.digests[u] == t.digests[u])
    && (forall u <- t.digests :: u in t.places ==> u in s.digests)
  }

  /** Opening again finishes what an opening began. */
  lemma OpeningIsFinished(t: Tree, s: Tree)
    requires PartlyOpened(t, s)
    ensures Opened(s) == Opened(t)
  {
    assert Opened(s).digests == Opened(t).digests;
  }

  // === the changes, one by one ===

  /** Trees with the same contents, digests and items. */
  ghost predicate SameContents(t: Tree, s: Tree) {
    && s.places.Keys == t.places.Keys && s.digests == t.digests && s.trash == t.trash
    && (forall u <- t.places :: s.places[u].content == t.places[u].content)
    && t.generations.Keys <= s.generations.Keys
    && (forall g <- s.generations :: s.generations[g] == if g in t.generations then t.generations[g] else map[])
  }

  lemma SameContentsSound(sha256: seq<byte> -> Digest, t: Tree, s: Tree)
    requires SameContents(t, s) && Sound(sha256, t)
    ensures Sound(sha256, s)
  {
  }

  lemma SameContentsShows(t: Tree, s: Tree)
    requires SameContents(t, s)
    ensures Shows(s, ViewOf(t))
  {
    assert ShelfOf(s).staging == ShelfOf(t).staging;
    assert ItemsIn(map[]) == map[];
    assert Bare(s) == Bare(t);
    assert forall p :: HollowAt(s, p) <==> HollowAt(t, p);
  }

  /** Before the rename a publish writes only what nobody reads yet. */
  predicate Unread(s: FsStep) {
    s.CreateMeta? || s.AppendMeta? || s.CreateServer? || s.FillServer? || s.MakeGeneration?
  }

  lemma UnreadKeepsContents(t: Tree, s: FsStep)
    requires Unread(s)
    ensures SameContents(t, After(t, s))
  {
  }

  lemma ShowsThen(t: Tree, s: Tree, v: View)
    requires Shows(t, ViewOf(s)) && Shows(s, v)
    ensures Shows(t, v)
  {
  }

  /** Nothing is noticed of any number of steps that nobody reads. */
  lemma {:induction false} UnreadUnnoticed(sha256: seq<byte> -> Digest, t: Tree, steps: seq<FsStep>)
    requires Sound(sha256, t) && forall s <- steps :: Unread(s)
    ensures Sound(sha256, AfterAll(t, steps)) && Shows(AfterAll(t, steps), ViewOf(t))
    decreases |steps|
  {
    if steps != [] {
      var n := |steps| - 1;
      var before := AfterAll(t, steps[..n]);
      UnreadUnnoticed(sha256, t, steps[..n]);
      assert steps[n] in steps;
      UnreadKeepsContents(before, steps[n]);
      SameContentsSound(sha256, before, After(before, steps[n]));
      SameContentsShows(before, After(before, steps[n]));
      ShowsThen(AfterAll(t, steps), before, ViewOf(t));
    }
  }

  lemma SameGenerationsHollow(t: Tree, s: Tree)
    requires s.generations == t.generations
    ensures ViewOf(s).hollow == ViewOf(t).hollow && (forall g: nat :: ShelfOf(s).Items(g) == ShelfOf(t).Items(g))
  {
    assert forall p :: HollowAt(s, p) <==> HollowAt(t, p);
  }

  lemma OneMoreItem(dirs: map<ItemId, Dir>, id: ItemId, d: Dir)
    ensures ItemsIn(dirs[id := d]) == if IsComplete(d) then ItemsIn(dirs)[id := ItemIn(d)] else ItemsIn(dirs) - {id}
  {
  }

  lemma OneItemLess(dirs: map<ItemId, Dir>, id: ItemId)
    ensures ItemsIn(dirs - {id}) == ItemsIn(dirs) - {id}
  {
  }

  lemma WithoutPlace(t: Tree, s: Tree, u: UploadId)
    requires s.places == t.places - {u} && s.digests == map v | v in t.digests && v in s.places :: t.digests[v]
    ensures ShelfOf(s).staging == ShelfOf(t).staging - {u} && Bare(s) == Bare(t) - {u}
  {
    assert forall v <- s.places :: DigestIn(s, v) == DigestIn(t, v);
  }

  /** What a directory to be published has beside its content. */
  predicate DescribedAs(d: Dir, envelope: Envelope) {
    d.meta == Some(envelope.meta) && d.server == Some(Some(ServerFile(envelope.under, envelope.receivedAt)))
  }

  /** The rename moves the place, and onto nothing that is in the way. */
  lemma RenameMoves(sha256: seq<byte> -> Digest, t: Tree, u: UploadId, g: nat, id: ItemId, envelope: Envelope)
    requires Sound(sha256, t) && u in t.places && DescribedAs(t.places[u], envelope) && g in t.generations
    ensures var s := After(t, RenamePlace(u, g, id));
      && Takes(t, g, id) == (id !in ShelfOf(t).Items(g) && !HollowAt(t, (g, id)))
      && Sound(sha256, Opened(s))
      && (if Takes(t, g, id) then After(s, RemoveDigest(u)) == Opened(s) else s == t == Opened(t))
  {
    var s := After(t, RenamePlace(u, g, id));
    if Takes(t, g, id) {
      assert After(s, RemoveDigest(u)).digests == Opened(s).digests;
    } else {
      OpenedSound(sha256, t);
    }
  }

  lemma HollowAfterRename(t: Tree, u: UploadId, g: nat, id: ItemId)
    requires u in t.places && Takes(t, g, id) && t.places[u] != NEW_DIR
    ensures var s := After(t, RenamePlace(u, g, id));
      forall p :: HollowAt(s, p) <==> HollowAt(t, p) || (p == (g, id) && t.places[u].content.None?)
  {
  }

  /** With content it becomes an item. */
  lemma RenamePublishes(t: Tree, u: UploadId, g: nat, id: ItemId, envelope: Envelope)
    requires u in t.places && DescribedAs(t.places[u], envelope) && t.places[u].content.Some? && Takes(t, g, id)
    ensures var s := Opened(After(t, RenamePlace(u, g, id)));
      Shows(s, ViewOf(t).(shelf := Published(ShelfOf(t), u, g, id, envelope)))
  {
    var s := Opened(After(t, RenamePlace(u, g, id)));
    WithoutPlace(t, s, u);
    ItemsWithOneMore(t, u, g, id, envelope);
    HollowAfterRename(t, u, g, id);
    SameGenerationsHollow(After(t, RenamePlace(u, g, id)), s);
  }

  lemma ItemsWithOneMore(t: Tree, u: UploadId, g: nat, id: ItemId, envelope: Envelope)
    requires u in t.places && DescribedAs(t.places[u], envelope) && t.places[u].content.Some? && Takes(t, g, id)
    ensures forall h: nat ::
      ShelfOf(After(t, RenamePlace(u, g, id))).Items(h) == Published(ShelfOf(t), u, g, id, envelope).Items(h)
  {
    OneMoreItem(t.generations[g], id, t.places[u]);
  }

  /** Without, it is only in the way of one. */
  lemma RenameHollows(t: Tree, u: UploadId, g: nat, id: ItemId, envelope: Envelope)
    requires u in t.places && DescribedAs(t.places[u], envelope) && t.places[u].content.None? && Takes(t, g, id)
    ensures var s := Opened(After(t, RenamePlace(u, g, id)));
      Shows(s, View(ShelfOf(t), Bare(t) - {u}, ViewOf(t).hollow + iset{(g, id)}))
  {
    var s := Opened(After(t, RenamePlace(u, g, id)));
    WithoutPlace(t, s, u);
    HollowItems(t, u, g, id);
    assert ShelfOf(s).staging == ShelfOf(t).staging;
    HollowAfterRename(t, u, g, id);
    SameGenerationsHollow(After(t, RenamePlace(u, g, id)), s);
  }

  lemma HollowItems(t: Tree, u: UploadId, g: nat, id: ItemId)
    requires u in t.places && t.places[u].content.None? && Takes(t, g, id)
    ensures forall h: nat :: ShelfOf(After(t, RenamePlace(u, g, id))).Items(h) == ShelfOf(t).Items(h)
  {
    OneMoreItem(t.generations[g], id, t.places[u]);
    assert ItemsIn(t.generations[g]) - {id} == ItemsIn(t.generations[g]);
  }

  lemma TrashingItemRemoves(sha256: seq<byte> -> Digest, t: Tree, g: nat, id: ItemId, bin: nat)
    requires Sound(sha256, t) && id in ShelfOf(t).Items(g)
    ensures var s := After(t, TrashItem(g, id, bin));
      && Sound(sha256, Opened(s)) && After(s, EmptyBin(bin)) == Opened(s)
      && Shows(Opened(s), ViewOf(t).(shelf := LeftAs(sha256, ShelfOf(t), RemoveItem(g, id))))
  {
    var s := After(t, TrashItem(g, id, bin));
    TrashingItemSound(sha256, t, g, id, bin);
    ItemsWithoutOne(sha256, t, g, id, bin);
    SameGenerationsHollow(s, Opened(s));
    HollowWithoutItem(t, g, id, bin);
    assert ShelfOf(Opened(s)).staging == ShelfOf(t).staging;
  }

  lemma TrashingItemSound(sha256: seq<byte> -> Digest, t: Tree, g: nat, id: ItemId, bin: nat)
    requires Sound(sha256, t) && id in ShelfOf(t).Items(g)
    ensures var s := After(t, TrashItem(g, id, bin));
      Sound(sha256, Opened(s)) && After(s, EmptyBin(bin)) == Opened(s) && Opened(s).digests == t.digests
  {
    assert Opened(After(t, TrashItem(g, id, bin))).digests == t.digests;
  }

  lemma ItemsWithoutOne(sha256: seq<byte> -> Digest, t: Tree, g: nat, id: ItemId, bin: nat)
    requires id in ShelfOf(t).Items(g)
    ensures forall h: nat ::
      ShelfOf(After(t, TrashItem(g, id, bin))).Items(h) == LeftAs(sha256, ShelfOf(t), RemoveItem(g, id)).Items(h)
  {
    OneItemLess(t.generations[g], id);
  }

  lemma HollowWithoutItem(t: Tree, g: nat, id: ItemId, bin: nat)
    requires id in ShelfOf(t).Items(g)
    ensures forall p :: HollowAt(After(t, TrashItem(g, id, bin)), p) <==> HollowAt(t, p)
  {
  }

  lemma TrashingGenerationDrops(sha256: seq<byte> -> Digest, t: Tree, g: nat, bin: nat)
    requires Sound(sha256, t)
    ensures var s := After(t, TrashGeneration(g, bin));
      && Sound(sha256, Opened(s)) && After(s, EmptyBin(bin)) == Opened(s)
      && Shows(Opened(s),
           View(CleanedUp(DropGeneration(g), ShelfOf(t)), Bare(t), iset p | p in ViewOf(t).hollow && p.0 != g))
  {
    var s := After(t, TrashGeneration(g, bin));
    assert Opened(s).digests == t.digests;
    assert ShelfOf(Opened(s)).staging == ShelfOf(t).staging;
    assert forall p :: HollowAt(Opened(s), p) <==> HollowAt(t, p) && p.0 != g;
  }

  lemma TrashingPlaceRemoves(sha256: seq<byte> -> Digest, t: Tree, u: UploadId, bin: nat)
    requires Sound(sha256, t)
    ensures var s := After(t, TrashPlace(u, bin)); var e := After(s, EmptyBin(bin));
      && Sound(sha256, Opened(s)) && Opened(e) == Opened(s) && After(e, RemoveDigest(u)) == Opened(s)
      && Shows(Opened(s), ViewOf(t).(shelf := CleanedUp(RemoveStaging(u), ShelfOf(t)), bare := Bare(t) - {u}))
  {
    var s := After(t, TrashPlace(u, bin));
    var e := After(s, EmptyBin(bin));
    assert After(e, RemoveDigest(u)).digests == Opened(s).digests;
    WithoutPlace(t, Opened(s), u);
    assert forall p :: HollowAt(Opened(s), p) <==> HollowAt(t, p);
  }

  /** A place that is made shows as a bare one. */
  lemma PlaceIsMade(sha256: seq<byte> -> Digest, t: Tree, u: UploadId)
    requires Sound(sha256, t)
    ensures var s := After(t, MakePlace(u));
      && Sound(sha256, s) && Opened(s) == s
      && Shows(s, if u in t.places then ViewOf(t) else ViewOf(t).(bare := Bare(t) + {u}))
  {
    if u in t.places {
      OpenedSound(sha256, t);
    } else {
      NewPlaceIsBare(sha256, t, u);
    }
  }

  lemma NewPlaceIsBare(sha256: seq<byte> -> Digest, t: Tree, u: UploadId)
    requires Sound(sha256, t) && u !in t.places
    ensures var s := t.(places := t.places[u := NEW_DIR]);
      Sound(sha256, s) && Opened(s) == s && Shows(s, ViewOf(t).(bare := Bare(t) + {u}))
  {
    var s := t.(places := t.places[u := NEW_DIR]);
    OpenedSound(sha256, s);
    assert forall v <- s.places :: DigestIn(s, v) == DigestIn(t, v);
    assert ShelfOf(s).staging == ShelfOf(t).staging;
    SameGenerationsHollow(t, s);
  }

  /** And once it has content, as a staged one. */
  lemma PlaceIsFilled(sha256: seq<byte> -> Digest, t: Tree, u: UploadId)
    requires Sound(sha256, t) && u in Bare(t)
    ensures var s := After(t, EmptyContent(u));
      && Sound(sha256, s) && Opened(s) == s
      && Shows(s, ViewOf(t).(shelf := Create(ShelfOf(t), u), bare := Bare(t) - {u}))
  {
    var s := After(t, EmptyContent(u));
    OpenedSound(sha256, s);
    assert DigestIn(s, u) == None;
    assert forall v <- s.places :: DigestIn(s, v) == DigestIn(t, v);
    assert ShelfOf(s).staging == ShelfOf(t).staging[u := EMPTY_PLACE];
    SameGenerationsHollow(t, s);
  }

  // === content ===

  /** The view with one place holding this, unhashed. */
  ghost function WithContent(v: View, u: UploadId, some: seq<byte>): View {
    v.(shelf := v.shelf.(staging := v.shelf.staging[u := Staged(some, None)]), bare := v.bare - {u})
  }

  lemma RemovingDigest(sha256: seq<byte> -> Digest, t: Tree, u: UploadId)
    requires Sound(sha256, t)
    ensures var s := After(t, RemoveDigest(u));
      && Sound(sha256, s) && Opened(s) == s
      && Shows(s, if u in ShelfOf(t).staging then WithContent(ViewOf(t), u, t.places[u].content.value) else ViewOf(t))
  {
    var s := After(t, RemoveDigest(u));
    OpenedSound(sha256, s);
    assert forall v <- s.places | v != u :: DigestIn(s, v) == DigestIn(t, v);
    SameGenerationsHollow(t, s);
    if u in ShelfOf(t).staging {
      assert ShelfOf(s).staging == ShelfOf(t).staging[u := Staged(t.places[u].content.value, None)];
    } else {
      assert ShelfOf(s).staging == ShelfOf(t).staging;
    }
  }

  /** Content beside which no digest is noted may change as it will. */
  lemma ContentChanges(sha256: seq<byte> -> Digest, t: Tree, u: UploadId, content: seq<byte>)
    requires Sound(sha256, t) && u in t.places && u !in t.digests
    ensures var s := InPlace(t, u, t.places[u].(content := Some(content)));
      Sound(sha256, s) && Opened(s) == s && Shows(s, WithContent(ViewOf(t), u, content))
  {
    var s := InPlace(t, u, t.places[u].(content := Some(content)));
    OpenedSound(sha256, s);
    assert forall v <- s.places | v != u :: DigestIn(s, v) == DigestIn(t, v);
    assert ShelfOf(s).staging == ShelfOf(t).staging[u := Staged(content, None)];
    SameGenerationsHollow(t, s);
  }

  lemma DigestIsBegun(sha256: seq<byte> -> Digest, t: Tree, u: UploadId)
    requires Sound(sha256, t) && u in t.places && t.places[u].content.Some? && u !in t.digests
    ensures var s := After(t, CreateDigest(u)); Sound(sha256, s) && Opened(s) == s && Shows(s, ViewOf(t))
  {
    var s := After(t, CreateDigest(u));
    OpenedSound(sha256, s);
    assert forall v <- s.places :: DigestIn(s, v) == DigestIn(t, v);
    assert ShelfOf(s).staging == ShelfOf(t).staging;
    SameGenerationsHollow(t, s);
  }

  lemma DigestIsNoted(sha256: seq<byte> -> Digest, t: Tree, u: UploadId, digest: Digest)
    requires Sound(sha256, t) && u in t.places && t.places[u].content.Some? && u !in t.digests
    requires digest == sha256(t.places[u].content.value)
    ensures var s := After(After(t, CreateDigest(u)), AppendDigest(u, digest));
      && Sound(sha256, s)
      && Shows(s, ViewOf(t).(shelf :=
           ShelfOf(t).(staging := ShelfOf(t).staging[u := Staged(t.places[u].content.value, Some(digest))])))
  {
    var s := After(After(t, CreateDigest(u)), AppendDigest(u, digest));
    assert [] + digest == digest;
    assert forall v <- s.places | v != u :: DigestIn(s, v) == DigestIn(t, v);
    assert ShelfOf(s).staging == ShelfOf(t).staging[u := Staged(t.places[u].content.value, Some(digest))];
    SameGenerationsHollow(t, s);
  }
}
