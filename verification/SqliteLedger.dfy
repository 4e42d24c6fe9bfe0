/** The record as rows of a database: a row of nullable columns for each
    workspace, and four tables of rows that belong to it. */
module SqliteLedgers {
  import opened Wrappers
  import opened Ids
  import opened Stores

  newtype i64 = x: int | -0x8000_0000_0000_0000 <= x < 0x8000_0000_0000_0000

  datatype LedgerError = NoWorkspace | ServiceUnavailable | Refused(error: ApiError)

  // === tables ===

  datatype WorkspaceRow = WorkspaceRow(
    generation: i64, plain: Option<i64>, nextGeneration: i64,
    sealKey: Option<string>, sealHeader: Option<seq<byte>>,
    rwKind: Option<string>, rwNextKey: Option<string>, rwNextHeader: Option<seq<byte>>,
    rwHolder: Option<string>, rwLease: Option<i64>, rwStaged: Option<i64>)

  datatype UploadRow = UploadRow(
    owner: string, item: string, meta: seq<byte>, size: i64, expectedKey: Option<string>, inRewrite: bool,
    expiresAt: i64)

  datatype StoneRow = StoneRow(owner: string, item: string, created: bool, expiresAt: i64, staged: bool)

  /** Every row of the four tables is keyed by its workspace first. */
  datatype Database = Database(
    workspaces: map<string, WorkspaceRow>,
    generations: GenerationRows,
    uploads: UploadRows,
    tombstones: StoneRows,
    ended: set<(string, string)>)

  // === columns ===

  const MAX: nat := 0x7FFF_FFFF_FFFF_FFFF

  predicate Fits(n: nat) { n <= MAX }

  function ToDb(n: nat): Result<i64, LedgerError> {
    if Fits(n) then Ok(n as i64) else Err(ServiceUnavailable)
  }

  function Column(n: nat): i64
    requires Fits(n)
  {
    n as i64
  }

  function KeyFrom(text: Option<string>): Result<Option<KeyId>, LedgerError> {
    match text
    case None => Ok(None)
    case Some(t) => if ParseKeyId(t).Some? then Ok(ParseKeyId(t)) else Err(ServiceUnavailable)
  }

  function SealFrom(key: Option<string>, header: Option<seq<byte>>): Result<Option<Seal>, LedgerError> {
    match KeyFrom(key)
    case Err(e) => Err(e)
    case Ok(None) => if header.None? then Ok(None) else Err(ServiceUnavailable)
    case Ok(Some(id)) => if header.Some? then Ok(Some(Seal(id, header.value))) else Err(ServiceUnavailable)
  }

  function KindText(kind: RewriteKind): string {
    match kind
    case Migrate => "migrate"
    case Rotate => "rotate"
  }

  function KindFrom(text: string): Result<RewriteKind, LedgerError> {
    if text == "migrate" then Ok(Migrate) else if text == "rotate" then Ok(Rotate) else Err(ServiceUnavailable)
  }

  /** The columns of a row make a state, or the row is damaged. */
  function StateFrom(row: WorkspaceRow): Result<State, LedgerError> {
    match SealFrom(row.sealKey, row.sealHeader)
    case Err(e) => Err(e)
    case Ok(seal) =>
      if row.rwKind.None? then Ok(Settled(seal))
      else
        match (KindFrom(row.rwKind.value), KeyFrom(row.rwNextKey))
        case (Ok(kind), Ok(Some(next))) =>
          if row.rwNextHeader.Some? && row.rwHolder.Some? && row.rwLease.Some? && row.rwLease.value >= 0
             && row.rwStaged.Some? && row.rwStaged.value >= 0
          then Ok(Rewriting(Session(kind, seal, Seal(next, row.rwNextHeader.value), ApiKeyId(row.rwHolder.value),
                                    row.rwLease.value as nat, row.rwStaged.value as nat)))
          else Err(ServiceUnavailable)
        case _ => Err(ServiceUnavailable)
  }

  // === reading ===

  type GenerationRows = map<(string, i64), i64>
  type UploadRows = map<(string, string), UploadRow>
  type StoneRows = map<(string, string), StoneRow>

  predicate UsedSound(rows: GenerationRows, id: string) {
    forall k <- rows | k.0 == id :: k.1 >= 0 && rows[k] >= 0
  }

  predicate UploadsSound(rows: UploadRows, id: string) {
    forall k <- rows | k.0 == id :: UploadIsSound(k.1, rows[k])
  }

  predicate StonesSound(rows: StoneRows, id: string) {
    forall k <- rows | k.0 == id :: StoneIsSound(k.1, rows[k])
  }

  predicate EndedSound(rows: set<(string, string)>, id: string) {
    forall k <- rows | k.0 == id :: ParseKeyId(k.1).Some?
  }

  predicate UploadIsSound(upload: string, row: UploadRow) {
    ParseUploadId(upload).Some? && ParseItemId(row.item).Some? && row.size >= 0 && KeyFrom(row.expectedKey).Ok?
      && row.expiresAt >= 0
  }

  predicate StoneIsSound(upload: string, row: StoneRow) {
    ParseUploadId(upload).Some? && ParseItemId(row.item).Some? && row.expiresAt >= 0
  }

  function TicketFrom(row: UploadRow): Ticket
    requires ParseItemId(row.item).Some? && row.size >= 0 && KeyFrom(row.expectedKey).Ok? && row.expiresAt >= 0
  {
    Ticket(ApiKeyId(row.owner),
           UploadRequest(ParseItemId(row.item).value, row.meta, row.size as nat, KeyFrom(row.expectedKey).value,
                         row.inRewrite),
           row.expiresAt as nat)
  }

  function StoneFrom(row: StoneRow): Tombstone
    requires ParseItemId(row.item).Some? && row.expiresAt >= 0
  {
    Tombstone(ApiKeyId(row.owner), PutOutcome(ParseItemId(row.item).value, row.created, row.staged),
      row.expiresAt as nat)
  }

  function UsedFrom(rows: GenerationRows, id: string): map<nat, nat>
    requires UsedSound(rows, id)
  {
    map k | k in rows && k.0 == id :: k.1 as nat := rows[k] as nat
  }

  function TicketsFrom(rows: UploadRows, id: string): map<UploadId, Ticket>
    requires UploadsSound(rows, id)
  {
    map k | k in rows && k.0 == id :: UploadId(k.1) := TicketFrom(rows[k])
  }

  function StonesFrom(rows: StoneRows, id: string): map<UploadId, Tombstone>
    requires StonesSound(rows, id)
  {
    map k | k in rows && k.0 == id :: UploadId(k.1) := StoneFrom(rows[k])
  }

  function EndedFrom(rows: set<(string, string)>, id: string): set<KeyId> {
    set k | k in rows && k.0 == id :: KeyId(k.1)
  }

  // The rows of each table read, or found damaged.

  function ReadUsed(rows: GenerationRows, id: string): Result<map<nat, nat>, LedgerError> {
    if UsedSound(rows, id) then Ok(UsedFrom(rows, id)) else Err(ServiceUnavailable)
  }

  function ReadTickets(rows: UploadRows, id: string): Result<map<UploadId, Ticket>, LedgerError> {
    if UploadsSound(rows, id) then Ok(TicketsFrom(rows, id)) else Err(ServiceUnavailable)
  }

  function ReadStones(rows: StoneRows, id: string): Result<map<UploadId, Tombstone>, LedgerError> {
    if StonesSound(rows, id) then Ok(StonesFrom(rows, id)) else Err(ServiceUnavailable)
  }

  function ReadEnded(rows: set<(string, string)>, id: string): Result<set<KeyId>, LedgerError> {
    if EndedSound(rows, id) then Ok(EndedFrom(rows, id)) else Err(ServiceUnavailable)
  }

  function ReadRow(row: WorkspaceRow): Result<WorkspaceRecord, LedgerError> {
    match StateFrom(row)
    case Err(e) => Err(e)
    case Ok(state) =>
      if row.generation < 0 || (row.plain.Some? && row.plain.value < 0) || row.nextGeneration < 0
      then Err(ServiceUnavailable)
      else Ok(WorkspaceRecord(
        state, row.generation as nat,
        if row.plain.Some? then Some(row.plain.value as nat) else None, row.nextGeneration as nat,
        map[], map[], map[], {}))
  }

  function Assembled(
    row: Result<WorkspaceRecord, LedgerError>, used: Result<map<nat, nat>, LedgerError>,
    tickets: Result<map<UploadId, Ticket>, LedgerError>, stones: Result<map<UploadId, Tombstone>, LedgerError>,
    ended: Result<set<KeyId>, LedgerError>): Result<WorkspaceRecord, LedgerError>
  {
    if row.Err? || used.Err? || tickets.Err? || stones.Err? || ended.Err? then Err(ServiceUnavailable)
    else Ok(row.value.(used := used.value, tickets := tickets.value, tombstones := stones.value,
      endedRewrites := ended.value))
  }

  function Read(db: Database, id: string): Result<WorkspaceRecord, LedgerError> {
    if id !in db.workspaces then Err(NoWorkspace)
    else Assembled(ReadRow(db.workspaces[id]), ReadUsed(db.generations, id), ReadTickets(db.uploads, id),
                   ReadStones(db.tombstones, id), ReadEnded(db.ended, id))
  }

  // === what can be stored ===

  predicate StateFits(state: State) {
    state.Rewriting? ==> Fits(state.session.leaseExpiresAt) && Fits(state.session.stagedGeneration)
  }

  predicate RowFits(rec: WorkspaceRecord) {
    StateFits(rec.state) && Fits(rec.generation) && (rec.plain.Some? ==> Fits(rec.plain.value))
      && Fits(rec.nextGeneration)
  }

  predicate UsedFits(used: map<nat, nat>) { forall g <- used :: Fits(g) && Fits(used[g]) }

  predicate TicketFits(ticket: Ticket) { Fits(ticket.request.size) && Fits(ticket.expiresAt) }

  predicate TicketsFit(tickets: map<UploadId, Ticket>) { forall u <- tickets :: TicketFits(tickets[u]) }

  predicate StonesFit(stones: map<UploadId, Tombstone>) { forall u <- stones :: Fits(stones[u].expiresAt) }

  /** Every number of the record fits the database's integers. */
  predicate Storable(rec: WorkspaceRecord) {
    RowFits(rec) && UsedFits(rec.used) && TicketsFit(rec.tickets) && StonesFit(rec.tombstones)
  }

  // === writing ===

  function SealOf(state: State): Option<Seal> {
    match state
    case Settled(seal) => seal
    case Rewriting(session) => session.prior
  }

  function RowOf(rec: WorkspaceRecord): WorkspaceRow
    requires RowFits(rec)
  {
    var seal := SealOf(rec.state);
    var s := if rec.state.Rewriting? then Some(rec.state.session) else None;
    WorkspaceRow(
      Column(rec.generation),
      if rec.plain.Some? then Some(Column(rec.plain.value)) else None, Column(rec.nextGeneration),
      if seal.Some? then Some(seal.value.keyId.text) else None,
      if seal.Some? then Some(seal.value.header) else None,
      if s.Some? then Some(KindText(s.value.kind)) else None,
      if s.Some? then Some(s.value.next.keyId.text) else None,
      if s.Some? then Some(s.value.next.header) else None,
      if s.Some? then Some(s.value.holder.text) else None,
      if s.Some? then Some(Column(s.value.leaseExpiresAt)) else None,
      if s.Some? then Some(Column(s.value.stagedGeneration)) else None)
  }

  function KeyText(key: Option<KeyId>): Option<string> {
    if key.Some? then Some(key.value.text) else None
  }

  function RowOfTicket(t: Ticket): UploadRow
    requires TicketFits(t)
  {
    UploadRow(t.owner.text, t.request.id.text, t.request.meta, Column(t.request.size),
              KeyText(t.request.expectedKeyId), t.request.inRewrite, Column(t.expiresAt))
  }

  function RowOfStone(t: Tombstone): StoneRow
    requires Fits(t.expiresAt)
  {
    StoneRow(t.owner.text, t.outcome.id.text, t.outcome.created, Column(t.expiresAt), t.outcome.staged)
  }

  /** A table without the rows of one workspace. */
  function WithoutRows<K(==), R>(table: map<(string, K), R>, id: string): map<(string, K), R> {
    map k | k in table && k.0 != id :: table[k]
  }

  /** Of a table whose rows of one workspace were replaced, those are the new ones. */
  function Replaced<K(==), R>(table: map<(string, K), R>, id: string, rows: map<(string, K), R>): map<(string, K), R> {
    WithoutRows(table, id) + rows
  }

  function RowsOfUsed(id: string, used: map<nat, nat>): (rows: GenerationRows)
    requires UsedFits(used)
    ensures forall k <- rows :: k.0 == id
  {
    map g | g in used :: (id, Column(g)) := Column(used[g])
  }

  function RowsOfTickets(id: string, tickets: map<UploadId, Ticket>): (rows: UploadRows)
    requires TicketsFit(tickets)
    ensures forall k <- rows :: k.0 == id
  {
    map u | u in tickets :: (id, u.text) := RowOfTicket(tickets[u])
  }

  function RowsOfStones(id: string, stones: map<UploadId, Tombstone>): (rows: StoneRows)
    requires StonesFit(stones)
    ensures forall k <- rows :: k.0 == id
  {
    map u | u in stones :: (id, u.text) := RowOfStone(stones[u])
  }

  function ReplacedEnded(rows: set<(string, string)>, id: string, keys: set<KeyId>): set<(string, string)> {
    (set k | k in rows && k.0 != id) + (set key | key in keys :: (id, key.text))
  }

  /** The database with one workspace's record replaced whole. */
  function Written(db: Database, id: string, rec: WorkspaceRecord): Database
    requires Storable(rec)
  {
    Database(
      db.workspaces[id := RowOf(rec)],
      Replaced(db.generations, id, RowsOfUsed(id, rec.used)),
      Replaced(db.uploads, id, RowsOfTickets(id, rec.tickets)),
      Replaced(db.tombstones, id, RowsOfStones(id, rec.tombstones)),
      ReplacedEnded(db.ended, id, rec.endedRewrites))
  }

  // === the round trip ===

  predicate IsKey(key: KeyId) { ParseKeyId(key.text) == Some(key) }

  predicate StateParses(state: State) {
    && (SealOf(state).Some? ==> IsKey(SealOf(state).value.keyId))
    && (state.Rewriting? ==> IsKey(state.session.next.keyId))
  }

  predicate TicketsParse(tickets: map<UploadId, Ticket>) {
    forall u <- tickets ::
      && ParseUploadId(u.text).Some? && ParseItemId(tickets[u].request.id.text).Some?
      && (tickets[u].request.expectedKeyId.Some? ==> IsKey(tickets[u].request.expectedKeyId.value))
  }

  predicate StonesParse(stones: map<UploadId, Tombstone>) {
    forall u <- stones :: ParseUploadId(u.text).Some? && ParseItemId(stones[u].outcome.id.text).Some?
  }

  /** Every id of the record is one the server would parse: what its types
      guarantee, their only constructors being the parsers. */
  predicate Parsed(rec: WorkspaceRecord) {
    StateParses(rec.state) && TicketsParse(rec.tickets) && StonesParse(rec.tombstones)
      && forall k <- rec.endedRewrites :: IsKey(k)
  }

  lemma RowRoundTrip(rec: WorkspaceRecord)
    requires RowFits(rec) && StateParses(rec.state)
    ensures ReadRow(RowOf(rec)) == Ok(rec.(used := map[], tickets := map[], tombstones := map[], endedRewrites := {}))
  {
    var seal := SealOf(rec.state);
    assert SealFrom(RowOf(rec).sealKey, RowOf(rec).sealHeader) == Ok(seal);
    assert StateFrom(RowOf(rec)) == Ok(rec.state);
  }

  lemma TicketRoundTrip(u: UploadId, t: Ticket)
    requires TicketFits(t) && ParseUploadId(u.text).Some? && ParseItemId(t.request.id.text).Some?
    requires t.request.expectedKeyId.Some? ==> IsKey(t.request.expectedKeyId.value)
    ensures UploadIsSound(u.text, RowOfTicket(t)) && TicketFrom(RowOfTicket(t)) == t
  {
  }

  lemma StoneRoundTrip(u: UploadId, t: Tombstone)
    requires Fits(t.expiresAt) && ParseUploadId(u.text).Some? && ParseItemId(t.outcome.id.text).Some?
    ensures StoneIsSound(u.text, RowOfStone(t)) && StoneFrom(RowOfStone(t)) == t
  {
  }

  /** A row of the books is one of those just written. */
  lemma UsedRow(table: GenerationRows, id: string, used: map<nat, nat>, k: (string, i64))
    requires UsedFits(used) && k.0 == id && k in Replaced(table, id, RowsOfUsed(id, used))
    ensures k.1 >= 0 && k.1 as nat in used
    ensures Replaced(table, id, RowsOfUsed(id, used))[k] as int == used[k.1 as nat]
  {
    assert k in RowsOfUsed(id, used);
    var g :| g in used && k == (id, Column(g));
  }

  ghost predicate RowsAre(rows: GenerationRows, id: string, used: map<nat, nat>) {
    && (forall k <- rows | k.0 == id :: k.1 >= 0 && k.1 as nat in used && rows[k] as int == used[k.1 as nat])
    && (forall g <- used :: Fits(g) && (id, Column(g)) in rows)
  }

  lemma UsedIsRead(rows: GenerationRows, id: string, used: map<nat, nat>)
    requires RowsAre(rows, id, used)
    ensures ReadUsed(rows, id) == Ok(used)
  {
    var back := UsedFrom(rows, id);
    forall g <- used ensures g in back {
      assert Column(g) as nat == g;
    }
    assert back == used;
  }

  lemma UsedRoundTrip(table: GenerationRows, id: string, used: map<nat, nat>)
    requires UsedFits(used)
    ensures ReadUsed(Replaced(table, id, RowsOfUsed(id, used)), id) == Ok(used)
  {
    var rows := Replaced(table, id, RowsOfUsed(id, used));
    forall k <- rows | k.0 == id ensures k.1 >= 0 && k.1 as nat in used && rows[k] as int == used[k.1 as nat] {
      UsedRow(table, id, used, k);
    }
    forall g <- used ensures Fits(g) && (id, Column(g)) in rows {
      assert (id, Column(g)) in RowsOfUsed(id, used);
    }
    UsedIsRead(rows, id, used);
  }

  lemma TicketsRoundTrip(table: UploadRows, id: string, tickets: map<UploadId, Ticket>)
    requires TicketsFit(tickets) && TicketsParse(tickets)
    ensures ReadTickets(Replaced(table, id, RowsOfTickets(id, tickets)), id) == Ok(tickets)
  {
    var rows := Replaced(table, id, RowsOfTickets(id, tickets));
    forall k <- rows | k.0 == id
      ensures UploadIsSound(k.1, rows[k]) && UploadId(k.1) in tickets && TicketFrom(rows[k]) == tickets[UploadId(k.1)]
    {
      assert k in RowsOfTickets(id, tickets);
      TicketRoundTrip(UploadId(k.1), tickets[UploadId(k.1)]);
    }
    var back := TicketsFrom(rows, id);
    forall u <- tickets ensures u in back && back[u] == tickets[u] {
      assert (id, u.text) in RowsOfTickets(id, tickets) && UploadId(u.text) == u;
    }
    assert back == tickets;
  }

  lemma StonesRoundTrip(table: StoneRows, id: string, stones: map<UploadId, Tombstone>)
    requires StonesFit(stones) && StonesParse(stones)
    ensures ReadStones(Replaced(table, id, RowsOfStones(id, stones)), id) == Ok(stones)
  {
    var rows := Replaced(table, id, RowsOfStones(id, stones));
    forall k <- rows | k.0 == id
      ensures StoneIsSound(k.1, rows[k]) && UploadId(k.1) in stones && StoneFrom(rows[k]) == stones[UploadId(k.1)]
    {
      assert k in RowsOfStones(id, stones);
      StoneRoundTrip(UploadId(k.1), stones[UploadId(k.1)]);
    }
    var back := StonesFrom(rows, id);
    forall u <- stones ensures u in back && back[u] == stones[u] {
      assert (id, u.text) in RowsOfStones(id, stones) && UploadId(u.text) == u;
    }
    assert back == stones;
  }

  lemma EndedRoundTrip(table: set<(string, string)>, id: string, keys: set<KeyId>)
    requires forall key <- keys :: IsKey(key)
    ensures ReadEnded(ReplacedEnded(table, id, keys), id) == Ok(keys)
  {
    var rows := ReplacedEnded(table, id, keys);
    forall key <- keys ensures key in EndedFrom(rows, id) {
      assert (id, key.text) in rows && KeyId(key.text) == key;
    }
    assert EndedFrom(rows, id) == keys;
  }

  /** The main result on the database: a record written is the record read. */
  lemma ReadsWhatWasWritten(db: Database, id: string, rec: WorkspaceRecord)
    requires Storable(rec) && Parsed(rec)
    ensures Read(Written(db, id, rec), id) == Ok(rec)
  {
    RowRoundTrip(rec);
    UsedRoundTrip(db.generations, id, rec.used);
    TicketsRoundTrip(db.uploads, id, rec.tickets);
    StonesRoundTrip(db.tombstones, id, rec.tombstones);
    EndedRoundTrip(db.ended, id, rec.endedRewrites);
  }

  predicate SameRows<K(==), R(==)>(a: map<(string, K), R>, b: map<(string, K), R>, id: string) {
    (forall k <- a | k.0 == id :: k in b && b[k] == a[k]) && (forall k <- b | k.0 == id :: k in a)
  }

  lemma OtherRowsStay<K, R>(table: map<(string, K), R>, id: string, rows: map<(string, K), R>, other: string)
    requires other != id && forall k <- rows :: k.0 == id
    ensures SameRows(Replaced(table, id, rows), table, other)
  {
  }

  lemma OthersUsed(table: GenerationRows, id: string, rows: GenerationRows, other: string)
    requires other != id && forall k <- rows :: k.0 == id
    ensures ReadUsed(Replaced(table, id, rows), other) == ReadUsed(table, other)
  {
    OtherRowsStay(table, id, rows, other);
    if UsedSound(table, other) {
      assert UsedFrom(Replaced(table, id, rows), other) == UsedFrom(table, other);
    }
  }

  lemma OthersTickets(table: UploadRows, id: string, rows: UploadRows, other: string)
    requires other != id && forall k <- rows :: k.0 == id
    ensures ReadTickets(Replaced(table, id, rows), other) == ReadTickets(table, other)
  {
    OtherRowsStay(table, id, rows, other);
    if UploadsSound(table, other) {
      assert TicketsFrom(Replaced(table, id, rows), other) == TicketsFrom(table, other);
    }
  }

  lemma OthersStones(table: StoneRows, id: string, rows: StoneRows, other: string)
    requires other != id && forall k <- rows :: k.0 == id
    ensures ReadStones(Replaced(table, id, rows), other) == ReadStones(table, other)
  {
    OtherRowsStay(table, id, rows, other);
    if StonesSound(table, other) {
      assert StonesFrom(Replaced(table, id, rows), other) == StonesFrom(table, other);
    }
  }

  lemma OthersEnded(table: set<(string, string)>, id: string, keys: set<KeyId>, other: string)
    requires other != id
    ensures ReadEnded(ReplacedEnded(table, id, keys), other) == ReadEnded(table, other)
  {
    var rows := ReplacedEnded(table, id, keys);
    assert forall text: string :: (other, text) in rows <==> (other, text) in table;
    assert EndedSound(rows, other) <==> EndedSound(table, other);
    assert EndedFrom(rows, other) == EndedFrom(table, other);
  }

  lemma SameReading(a: Database, b: Database, id: string)
    requires id in a.workspaces <==> id in b.workspaces
    requires id in a.workspaces ==> a.workspaces[id] == b.workspaces[id]
    requires ReadUsed(a.generations, id) == ReadUsed(b.generations, id)
      && ReadTickets(a.uploads, id) == ReadTickets(b.uploads, id)
    requires ReadStones(a.tombstones, id) == ReadStones(b.tombstones, id)
      && ReadEnded(a.ended, id) == ReadEnded(b.ended, id)
    ensures Read(a, id) == Read(b, id)
  {
  }

  /** And every other workspace's reads as before, be it sound or damaged. */
  lemma OthersReadAsBefore(db: Database, id: string, rec: WorkspaceRecord, other: string)
    requires Storable(rec) && other != id
    ensures Read(Written(db, id, rec), other) == Read(db, other)
  {
    OthersUsed(db.generations, id, RowsOfUsed(id, rec.used), other);
    OthersTickets(db.uploads, id, RowsOfTickets(id, rec.tickets), other);
    OthersStones(db.tombstones, id, RowsOfStones(id, rec.tombstones), other);
    OthersEnded(db.ended, id, rec.endedRewrites, other);
    SameReading(Written(db, id, rec), db, other);
  }

  /** A record can be stored exactly when its numbers are below 2^63. */
  lemma StorableExactly(rec: WorkspaceRecord)
    ensures Storable(rec) <==>
      && rec.generation < 0x8000_0000_0000_0000 && rec.nextGeneration < 0x8000_0000_0000_0000
      && (rec.plain.Some? ==> rec.plain.value < 0x8000_0000_0000_0000)
      && (rec.state.Rewriting? ==>
            && rec.state.session.leaseExpiresAt < 0x8000_0000_0000_0000
            && rec.state.session.stagedGeneration < 0x8000_0000_0000_0000)
      && (forall g <- rec.used :: g < 0x8000_0000_0000_0000 && rec.used[g] < 0x8000_0000_0000_0000)
      && (forall u <- rec.tickets ::
            rec.tickets[u].request.size < 0x8000_0000_0000_0000 && rec.tickets[u].expiresAt < 0x8000_0000_0000_0000)
      && (forall u <- rec.tombstones :: rec.tombstones[u].expiresAt < 0x8000_0000_0000_0000)
  {
  }

  // === the ledger ===

  /** `part` is what of `all` is not left. */
  ghost predicate IsPart<K, V>(part: map<K, V>, all: map<K, V>, left: set<K>) {
    part.Keys == all.Keys - left && forall k <- part :: part[k] == all[k]
  }

  lemma PartIsAll<K, V>(part: map<K, V>, all: map<K, V>)
    requires IsPart(part, all, {})
    ensures part == all
  {
  }

  lemma PartGrows<K, V>(part: map<K, V>, all: map<K, V>, left: set<K>, k: K)
    requires IsPart(part, all, left) && k in left && left <= all.Keys
    ensures IsPart(part[k := all[k]], all, left - {k})
  {
  }

  lemma NoRowsYet<K, R>(table: map<(string, K), R>, id: string)
    ensures Replaced(table, id, map[]) == WithoutRows(table, id)
  {
  }

  lemma OneMoreRow<K, R>(table: map<(string, K), R>, id: string, rows: map<(string, K), R>, k: (string, K), row: R)
    ensures Replaced(table, id, rows[k := row]) == Replaced(table, id, rows)[k := row]
  {
  }

  /** Inserts the books' rows one by one; a number that does not fit ends it. */
  method InsertUsed(table: GenerationRows, id: string, used: map<nat, nat>)
    returns (result: Result<GenerationRows, LedgerError>)
    ensures result == if UsedFits(used) then Ok(Replaced(table, id, RowsOfUsed(id, used))) else Err(ServiceUnavailable)
  {
    var rows := WithoutRows(table, id);
    var left := used.Keys;
    ghost var stored: map<nat, nat> := map[];
    NoRowsYet(table, id);
    assert RowsOfUsed(id, stored) == map[];
    while left != {}
      invariant left <= used.Keys && IsPart(stored, used, left) && UsedFits(stored)
      invariant rows == Replaced(table, id, RowsOfUsed(id, stored))
      decreases left
    {
      var g :| g in left;
      var generation, bytes := ToDb(g), ToDb(used[g]);
      if generation.Err? || bytes.Err? {
        return Err(ServiceUnavailable);
      }
      OneMoreUsed(table, id, stored, g, used[g]);
      PartGrows(stored, used, left, g);
      rows := rows[(id, generation.value) := bytes.value];
      left := left - {g};
      stored := stored[g := used[g]];
    }
    PartIsAll(stored, used);
    return Ok(rows);
  }

  lemma OneMoreUsed(table: GenerationRows, id: string, stored: map<nat, nat>, g: nat, bytes: nat)
    requires UsedFits(stored) && Fits(g) && Fits(bytes)
    ensures UsedFits(stored[g := bytes])
    ensures Replaced(table, id, RowsOfUsed(id, stored[g := bytes]))
      == Replaced(table, id, RowsOfUsed(id, stored))[(id, Column(g)) := Column(bytes)]
  {
    var more := RowsOfUsed(id, stored[g := bytes]);
    assert (id, Column(g)) in more;
    forall k <- RowsOfUsed(id, stored) ensures k in more {
      var h :| h in stored && k == (id, Column(h));
      assert (id, Column(h)) in more;
    }
    assert more == RowsOfUsed(id, stored)[(id, Column(g)) := Column(bytes)];
    OneMoreRow(table, id, RowsOfUsed(id, stored), (id, Column(g)), Column(bytes));
  }

  method InsertTickets(table: UploadRows, id: string, tickets: map<UploadId, Ticket>)
    returns (result: Result<UploadRows, LedgerError>)
    ensures result == if TicketsFit(tickets) then Ok(Replaced(table, id, RowsOfTickets(id, tickets)))
      else Err(ServiceUnavailable)
  {
    var rows := WithoutRows(table, id);
    var left := tickets.Keys;
    ghost var stored: map<UploadId, Ticket> := map[];
    NoRowsYet(table, id);
    assert RowsOfTickets(id, stored) == map[];
    while left != {}
      invariant left <= tickets.Keys && IsPart(stored, tickets, left) && TicketsFit(stored)
      invariant rows == Replaced(table, id, RowsOfTickets(id, stored))
      decreases left
    {
      var u :| u in left;
      var t := tickets[u];
      var size, expires := ToDb(t.request.size), ToDb(t.expiresAt);
      if size.Err? || expires.Err? {
        return Err(ServiceUnavailable);
      }
      OneMoreTicket(table, id, stored, u, t);
      PartGrows(stored, tickets, left, u);
      rows := rows[(id, u.text) := UploadRow(
        t.owner.text, t.request.id.text, t.request.meta, size.value, KeyText(t.request.expectedKeyId),
        t.request.inRewrite, expires.value)];
      left := left - {u};
      stored := stored[u := t];
    }
    PartIsAll(stored, tickets);
    return Ok(rows);
  }

  lemma OneMoreTicket(table: UploadRows, id: string, stored: map<UploadId, Ticket>, u: UploadId, t: Ticket)
    requires TicketsFit(stored) && TicketFits(t)
    ensures TicketsFit(stored[u := t])
    ensures Replaced(table, id, RowsOfTickets(id, stored[u := t]))
      == Replaced(table, id, RowsOfTickets(id, stored))[(id, u.text) := RowOfTicket(t)]
  {
    var more := RowsOfTickets(id, stored[u := t]);
    assert (id, u.text) in more;
    forall k <- RowsOfTickets(id, stored) ensures k in more {
      var v :| v in stored && k == (id, v.text);
      assert (id, v.text) in more;
    }
    assert more == RowsOfTickets(id, stored)[(id, u.text) := RowOfTicket(t)];
    OneMoreRow(table, id, RowsOfTickets(id, stored), (id, u.text), RowOfTicket(t));
  }

  method InsertStones(table: StoneRows, id: string, stones: map<UploadId, Tombstone>)
    returns (result: Result<StoneRows, LedgerError>)
    ensures result == if StonesFit(stones) then Ok(Replaced(table, id, RowsOfStones(id, stones)))
      else Err(ServiceUnavailable)
  {
    var rows := WithoutRows(table, id);
    var left := stones.Keys;
    ghost var stored: map<UploadId, Tombstone> := map[];
    NoRowsYet(table, id);
    assert RowsOfStones(id, stored) == map[];
    while left != {}
      invariant left <= stones.Keys && IsPart(stored, stones, left) && StonesFit(stored)
      invariant rows == Replaced(table, id, RowsOfStones(id, stored))
      decreases left
    {
      var u :| u in left;
      var t := stones[u];
      var expires := ToDb(t.expiresAt);
      if expires.Err? {
        return Err(ServiceUnavailable);
      }
      OneMoreStone(table, id, stored, u, t);
      PartGrows(stored, stones, left, u);
      rows := rows[(id, u.text) :=
        StoneRow(t.owner.text, t.outcome.id.text, t.outcome.created, expires.value, t.outcome.staged)];
      left := left - {u};
      stored := stored[u := t];
    }
    PartIsAll(stored, stones);
    return Ok(rows);
  }

  lemma OneMoreStone(table: StoneRows, id: string, stored: map<UploadId, Tombstone>, u: UploadId, t: Tombstone)
    requires StonesFit(stored) && Fits(t.expiresAt)
    ensures StonesFit(stored[u := t])
    ensures Replaced(table, id, RowsOfStones(id, stored[u := t]))
      == Replaced(table, id, RowsOfStones(id, stored))[(id, u.text) := RowOfStone(t)]
  {
    var more := RowsOfStones(id, stored[u := t]);
    assert (id, u.text) in more;
    forall k <- RowsOfStones(id, stored) ensures k in more {
      var v :| v in stored && k == (id, v.text);
      assert (id, v.text) in more;
    }
    assert more == RowsOfStones(id, stored)[(id, u.text) := RowOfStone(t)];
    OneMoreRow(table, id, RowsOfStones(id, stored), (id, u.text), RowOfStone(t));
  }

  method InsertEnded(table: set<(string, string)>, id: string, keys: set<KeyId>) returns (rows: set<(string, string)>)
    ensures rows == ReplacedEnded(table, id, keys)
  {
    rows := set k | k in table && k.0 != id;
    var left := keys;
    while left != {}
      invariant left <= keys
      invariant rows == ReplacedEnded(table, id, keys - left)
      decreases left
    {
      var key :| key in left;
      assert keys - (left - {key}) == keys - left + {key};
      assert ReplacedEnded(table, id, keys - left + {key}) == ReplacedEnded(table, id, keys - left) + {(id, key.text)};
      rows := rows + {(id, key.text)};
      left := left - {key};
    }
    assert keys - left == keys;
  }

  class SqliteLedger {
    /** What is committed. */
    var db: Database

    constructor ()
      ensures db == Database(map[], map[], map[], map[], {})
    {
      db := Database(map[], map[], map[], map[], {});
    }

    method Create(id: string)
      modifies this
      ensures db == if id in old(db).workspaces then old(db)
        else old(db).(workspaces := old(db).workspaces[id := RowOf(NEW_RECORD)])
    {
      if id !in db.workspaces {
        var row := WorkspaceRow(0, None, 1, None, None, None, None, None, None, None, None);
        db := db.(workspaces := db.workspaces[id := row]);
      }
    }

    /** The workspace's row is overwritten, and its rows in the other tables are
        deleted and inserted anew. */
    method Write(tx: Database, id: string, rec: WorkspaceRecord) returns (result: Result<Database, LedgerError>)
      requires id in tx.workspaces
      ensures result == if Storable(rec) then Ok(Written(tx, id, rec)) else Err(ServiceUnavailable)
    {
      if !RowFits(rec) {
        return Err(ServiceUnavailable);
      }
      var workspaces := tx.workspaces[id := RowOf(rec)];
      var generations := InsertUsed(tx.generations, id, rec.used);
      if generations.Err? {
        return Err(generations.error);
      }
      var uploads := InsertTickets(tx.uploads, id, rec.tickets);
      if uploads.Err? {
        return Err(uploads.error);
      }
      var tombstones := InsertStones(tx.tombstones, id, rec.tombstones);
      if tombstones.Err? {
        return Err(tombstones.error);
      }
      var ended := InsertEnded(tx.ended, id, rec.endedRewrites);
      return Ok(Database(workspaces, generations.value, uploads.value, tombstones.value, ended));
    }

    /** After a refusal, a damaged record or a number that does not fit, nothing
        has changed; success leaves the
        changed record to read, and every other as it read before. */
    method Transact<T>(id: string, rule: WorkspaceRecord -> Result<(WorkspaceRecord, T), ApiError>)
      returns (result: Result<T, LedgerError>)
      modifies this
      ensures result.Err? ==> db == old(db)
      ensures Read(old(db), id).Err? ==> result == Err(Read(old(db), id).error)
      ensures Read(old(db), id).Ok? ==>
        match rule(Read(old(db), id).value)
        case Err(e) => result == Err(Refused(e))
        case Ok((rec, answer)) =>
          if rec == Read(old(db), id).value || Storable(rec) then
            result == Ok(answer)
            && (Parsed(rec) ==> Read(db, id) == Ok(rec))
            && forall other: string :: other != id ==> Read(db, other) == Read(old(db), other)
          else result == Err(ServiceUnavailable)
    {
      var before := Read(db, id);
      if before.Err? {
        return Err(before.error);
      }
      var ruled := rule(before.value);
      if ruled.Err? {
        return Err(Refused(ruled.error));
      }
      var (rec, answer) := ruled.value;
      if rec != before.value {
        var tx := Write(db, id, rec);
        if tx.Err? {
          return Err(tx.error);
        }
        CommittedReads(db, id, rec);
        db := tx.value;
      }
      return Ok(answer);
    }
  }

  lemma CommittedReads(db: Database, id: string, rec: WorkspaceRecord)
    requires Storable(rec)
    ensures Parsed(rec) ==> Read(Written(db, id, rec), id) == Ok(rec)
    ensures forall other: string :: other != id ==> Read(Written(db, id, rec), other) == Read(db, other)
  {
    if Parsed(rec) {
      ReadsWhatWasWritten(db, id, rec);
    }
    forall other: string | other != id ensures Read(Written(db, id, rec), other) == Read(db, other) {
      OthersReadAsBefore(db, id, rec, other);
    }
  }
}
