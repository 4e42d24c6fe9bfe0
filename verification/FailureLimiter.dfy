/** How many authentications an address may fail in any sixty seconds, and
    which addresses are kept track of. */
module FailureLimiters {
  import opened Wrappers

  const WINDOW := 60

  // === addresses ===

  type Segments = s: seq<nat> | |s| == 8 && forall x <- s :: x < 0x1_0000 witness seq(8, _ => 0)

  datatype Address = V4(bits: nat) | V6(segments: Segments)

  predicate MapsV4(s: Segments) { s[..6] == [0, 0, 0, 0, 0, 0xFFFF] }

  /** Half of an IPv6 address counts; one that maps an IPv4 address is that one. */
  function CountedAs(address: Address): Address {
    match address
    case V4(_) => address
    case V6(s) => if MapsV4(s) then V4(s[6] * 0x1_0000 + s[7]) else V6(s[..4] + [0, 0, 0, 0])
  }

  lemma CountedAsItself(address: Address)
    ensures CountedAs(CountedAs(address)) == CountedAs(address)
  {
    if address.V6? && !MapsV4(address.segments) {
      var s := CountedAs(address).segments;
      assert s[..6][5] == 0;
    }
  }

  lemma CountedTogether(a: Segments, b: Segments)
    requires !MapsV4(a) && !MapsV4(b)
    ensures CountedAs(V6(a)) == CountedAs(V6(b)) <==> a[..4] == b[..4]
  {
    assert (a[..4] + [0, 0, 0, 0])[..4] == a[..4] && (b[..4] + [0, 0, 0, 0])[..4] == b[..4];
  }

  /** An IPv4 address counts as itself, also when it comes mapped, and nothing
      else counts as it. */
  lemma CountedAsMapped(s: Segments, bits: nat)
    requires bits < 0x1_0000_0000
    ensures CountedAs(V4(bits)) == V4(bits)
    ensures CountedAs(V6(s)) == V4(bits) <==> s == [0, 0, 0, 0, 0, 0xFFFF, bits / 0x1_0000, bits % 0x1_0000]
  {
    assert s == s[..6] + [s[6], s[7]];
  }

  // === windows ===

  /** The reference: of a plain log, what the last minute holds. */
  function Within(log: seq<nat>, now: nat): seq<nat> {
    if log == [] then []
    else if now < log[0] + WINDOW then [log[0]] + Within(log[1..], now)
    else Within(log[1..], now)
  }

  /** What is left when old failures are dropped from the front. */
  function Recent(failures: seq<nat>, now: nat): seq<nat> {
    if failures != [] && now >= failures[0] + WINDOW then Recent(failures[1..], now) else failures
  }

  /** In order, and none after `now`. */
  ghost predicate Ordered(log: seq<nat>, now: nat) {
    (forall i, j :: 0 <= i < j < |log| ==> log[i] <= log[j]) && forall i :: 0 <= i < |log| ==> log[i] <= now
  }

  lemma {:induction false} AllWithin(log: seq<nat>, now: nat)
    requires forall i :: 0 <= i < |log| ==> now < log[i] + WINDOW
    ensures Within(log, now) == log
  {
    if log != [] {
      AllWithin(log[1..], now);
    }
  }

  lemma {:induction false} NoneWithin(log: seq<nat>, now: nat)
    requires forall i :: 0 <= i < |log| ==> now >= log[i] + WINDOW
    ensures Within(log, now) == []
  {
    if log != [] {
      NoneWithin(log[1..], now);
    }
  }

  lemma {:induction false} WithinOfBoth(a: seq<nat>, b: seq<nat>, now: nat)
    ensures Within(a + b, now) == Within(a, now) + Within(b, now)
  {
    if a == [] {
      assert a + b == b;
    } else {
      assert (a + b)[1..] == a[1..] + b;
      WithinOfBoth(a[1..], b, now);
    }
  }

  lemma {:induction false} WithinLater(log: seq<nat>, now: nat, later: nat)
    requires now <= later
    ensures Within(Within(log, now), later) == Within(log, later)
  {
    if log != [] {
      WithinLater(log[1..], now, later);
    }
  }

  /** Dropping from the front of an ordered deque is the window of the log. */
  lemma {:induction false} RecentIsWithin(failures: seq<nat>, now: nat, bound: nat)
    requires Ordered(failures, bound)
    ensures Recent(failures, now) == Within(failures, now) && Ordered(Recent(failures, now), bound)
    ensures Recent(failures, now) != [] ==> now < Recent(failures, now)[0] + WINDOW
  {
    if failures != [] && now >= failures[0] + WINDOW {
      RecentIsWithin(failures[1..], now, bound);
    } else {
      AllWithin(failures, now);
    }
  }

  // === what the calls do ===

  type Table = map<Address, seq<nat>>

  function Of(table: Table, a: Address): seq<nat> { if a in table then table[a] else [] }

  predicate Uncleared(failures: seq<nat>, now: nat) {
    failures != [] && now < failures[|failures| - 1] + WINDOW
  }

  function Retained(table: Table, now: nat): Table {
    map a | a in table && Uncleared(table[a], now) :: table[a]
  }

  function LastOf(failures: seq<nat>): nat { if failures == [] then 0 else failures[|failures| - 1] }

  ghost predicate IsStalest(table: Table, a: Address) {
    a in table && forall other <- table :: LastOf(table[a]) <= LastOf(table[other])
  }

  /** Room is made: what has cleared goes; if nothing has, one address
      whose latest failure nobody's is older than. */
  ghost predicate MakesRoom(table: Table, capacity: nat, now: nat, room: Table, evicted: Option<Address>) {
    var kept := Retained(table, now);
    if |kept| < capacity || kept == map[] then room == kept && evicted == None
    else evicted.Some? && IsStalest(kept, evicted.value) && room == kept - {evicted.value}
  }

  ghost predicate HasRoomFor(table: Table, capacity: nat, a: Address, now: nat, room: Table, evicted: Option<Address>) {
    if a !in table && |table| >= capacity then MakesRoom(table, capacity, now, room, evicted)
    else room == table && evicted == None
  }

  function Counted(room: Table, perMinute: nat, a: Address, now: nat): Table {
    var left := Recent(Of(room, a), now);
    room[a := if |left| < perMinute then left + [now] else left]
  }

  /** How long an address has to wait, if it does. */
  function Wait(table: Table, perMinute: nat, a: Address, now: nat): Option<nat> {
    var left := Recent(Of(table, a), now);
    if perMinute == 0 || left == [] || |left| < perMinute then None
    else Some(var until := left[0] + WINDOW; if until <= now then 1 else until - now)
  }

  function AfterAsking(table: Table, perMinute: nat, a: Address, now: nat): Table {
    if perMinute == 0 || a !in table then table
    else
      var left := Recent(table[a], now);
      if left == [] then table - {a} else table[a := left]
  }

  // === the limiter ===

  class FailureLimiter {
    const perMinute: nat
    const capacity: nat
    var table: Table

    /** With `perMinute` 0 nobody is ever limited. */
    constructor (perMinute: nat, capacity: nat)
      ensures this.perMinute == perMinute && this.capacity == (if capacity == 0 then 1 else capacity) && table == map[]
    {
      this.perMinute := perMinute;
      this.capacity := if capacity == 0 then 1 else capacity;
      table := map[];
    }

    method Limited(address: Address, now: nat) returns (wait: Option<nat>)
      modifies this
      ensures wait == Wait(old(table), perMinute, CountedAs(address), now)
      ensures table == AfterAsking(old(table), perMinute, CountedAs(address), now)
    {
      if perMinute == 0 {
        return None;
      }
      var a := CountedAs(address);
      if a !in table {
        return None;
      }
      var failures := ForgetOld(table[a], now);
      if failures == [] {
        table := table - {a};
        return None;
      }
      table := table[a := failures];
      if |failures| < perMinute {
        return None;
      }
      var until := failures[0] + WINDOW;
      return Some(if until <= now then 1 else until - now);
    }

    method Failed(address: Address, now: nat) returns (ghost room: Table, ghost evicted: Option<Address>)
      modifies this
      ensures perMinute == 0 ==> table == old(table)
      ensures perMinute > 0 ==>
        HasRoomFor(old(table), capacity, CountedAs(address), now, room, evicted)
        && table == Counted(room, perMinute, CountedAs(address), now)
    {
      room, evicted := table, None;
      if perMinute == 0 {
        return;
      }
      var a := CountedAs(address);
      if a !in table && |table| >= capacity {
        evicted := MakeRoom(now);
      }
      room := table;
      var failures := ForgetOld(if a in table then table[a] else [], now);
      if |failures| < perMinute {
        failures := failures + [now];
      }
      table := table[a := failures];
    }

    method ForgetOld(failures: seq<nat>, now: nat) returns (left: seq<nat>)
      ensures left == Recent(failures, now)
    {
      left := failures;
      while left != [] && now >= left[0] + WINDOW
        invariant Recent(left, now) == Recent(failures, now)
      {
        left := left[1..];
      }
    }

    method MakeRoom(now: nat) returns (ghost evicted: Option<Address>)
      modifies this
      ensures MakesRoom(old(table), capacity, now, table, evicted)
    {
      evicted := None;
      table := map a | a in table && Uncleared(table[a], now) :: table[a];
      if |table| < capacity || table == map[] {
        return;
      }
      var stalest :| stalest in table;
      var left := table.Keys;
      while left != {}
        invariant left <= table.Keys && stalest in table
        invariant forall other <- table :: other !in left ==> LastOf(table[stalest]) <= LastOf(table[other])
        decreases left
      {
        var a :| a in left;
        if LastOf(table[a]) < LastOf(table[stalest]) {
          stalest := a;
        }
        left := left - {a};
      }
      evicted := Some(stalest);
      table := table - {stalest};
    }
  }

  // === over runs ===

  /** The plain log of counted failures, which the limiter does not keep: those
      before the last eviction of an address, and those since. */
  datatype History = History(
    earlier: map<Address, seq<nat>>, since: map<Address, seq<nat>>, evictedAt: map<Address, nat>)

  const NOTHING_YET := History(map[], map[], map[])

  datatype Limiter = Limiter(table: Table, hist: History, now: nat)

  datatype Call = Ask(address: Address, at: nat) | Fail(address: Address, at: nat)

  function Log(hist: History, a: Address): seq<nat> { Of(hist.earlier, a) + Of(hist.since, a) }

  function Evicting(hist: History, evicted: Option<Address>, now: nat): History {
    match evicted
    case None => hist
    case Some(a) => History(hist.earlier[a := Log(hist, a)], hist.since[a := []], hist.evictedAt[a := now])
  }

  function Counting(hist: History, a: Address, now: nat): History {
    hist.(since := hist.since[a := Of(hist.since, a) + [now]])
  }

  /** One call. A failure is logged when it is counted. */
  ghost predicate Step(perMinute: nat, capacity: nat, s: Limiter, call: Call, t: Limiter) {
    var a := CountedAs(call.address);
    && s.now <= call.at == t.now
    && match call
       case Ask(_, now) => t.table == AfterAsking(s.table, perMinute, a, now) && t.hist == s.hist
       case Fail(_, now) =>
         if perMinute == 0 then t.table == s.table && t.hist == s.hist
         else exists room, evicted :: Counts(perMinute, capacity, s, a, now, room, evicted, t)
  }

  ghost predicate Counts(perMinute: nat, capacity: nat, s: Limiter, a: Address, now: nat, room: Table,
          evicted: Option<Address>, t: Limiter)
  {
    && HasRoomFor(s.table, capacity, a, now, room, evicted)
    && t.table == Counted(room, perMinute, a, now)
    && var hist := Evicting(s.hist, evicted, now);
       t.hist == if |Recent(Of(room, a), now)| < perMinute then Counting(hist, a, now) else hist
  }

  ghost predicate NoneAfter(log: seq<nat>, t: nat) {
    forall i :: 0 <= i < |log| ==> log[i] <= t
  }

  /** The deque of an address holds what its log since its last eviction does. */
  ghost predicate DequeAgrees(perMinute: nat, deque: seq<nat>, earlier: seq<nat>, since: seq<nat>, evictedAt: nat,
          now: nat)
  {
    && Ordered(deque, now) && |deque| <= perMinute
    && NoneAfter(since, now) && NoneAfter(earlier, evictedAt) && evictedAt <= now
    && Within(deque, now) == Within(since, now)
  }

  function EvictedAt(hist: History, a: Address): nat {
    if a in hist.evictedAt then hist.evictedAt[a] else 0
  }

  ghost predicate Agrees(perMinute: nat, table: Table, hist: History, now: nat, a: Address) {
    && DequeAgrees(perMinute, Of(table, a), Of(hist.earlier, a), Of(hist.since, a), EvictedAt(hist, a), now)
    && (a in table ==> table[a] != [])
    && (a !in hist.evictedAt ==> Of(hist.earlier, a) == [])
  }

  ghost predicate Sound(perMinute: nat, capacity: nat, s: Limiter) {
    |s.table| <= capacity && forall a :: Agrees(perMinute, s.table, s.hist, s.now, a)
  }

  lemma DequeAgreesLater(perMinute: nat, deque: seq<nat>, earlier: seq<nat>, since: seq<nat>, evictedAt: nat, now: nat,
          later: nat)
    requires DequeAgrees(perMinute, deque, earlier, since, evictedAt, now) && now <= later
    ensures DequeAgrees(perMinute, deque, earlier, since, evictedAt, later)
  {
    WithinLater(deque, now, later);
    WithinLater(since, now, later);
  }

  lemma DequeAgreesTrimmed(perMinute: nat, deque: seq<nat>, earlier: seq<nat>, since: seq<nat>, evictedAt: nat,
          now: nat)
    requires DequeAgrees(perMinute, deque, earlier, since, evictedAt, now)
    ensures DequeAgrees(perMinute, Recent(deque, now), earlier, since, evictedAt, now)
    ensures Recent(deque, now) == Within(since, now)
  {
    RecentIsWithin(deque, now, now);
    WithinLater(deque, now, now);
    RecentShortens(deque, now);
  }

  /** One more failure, in the deque and in the log. */
  lemma DequeAgreesCounted(perMinute: nat, deque: seq<nat>, earlier: seq<nat>, since: seq<nat>, evictedAt: nat,
          now: nat)
    requires DequeAgrees(perMinute, deque, earlier, since, evictedAt, now) && |deque| < perMinute
    ensures DequeAgrees(perMinute, deque + [now], earlier, since + [now], evictedAt, now)
  {
    WithinOfBoth(deque, [now], now);
    WithinOfBoth(since, [now], now);
  }

  lemma AgreesLater(perMinute: nat, table: Table, hist: History, now: nat, later: nat, a: Address)
    requires Agrees(perMinute, table, hist, now, a) && now <= later
    ensures Agrees(perMinute, table, hist, later, a)
  {
    DequeAgreesLater(perMinute, Of(table, a), Of(hist.earlier, a), Of(hist.since, a), EvictedAt(hist, a), now, later);
  }

  lemma AgreesTrimmed(perMinute: nat, table: Table, hist: History, now: nat, a: Address)
    requires Agrees(perMinute, table, hist, now, a)
    ensures var left := Recent(Of(table, a), now);
      && DequeAgrees(perMinute, left, Of(hist.earlier, a), Of(hist.since, a), EvictedAt(hist, a), now)
      && left == Within(Of(hist.since, a), now)
  {
    DequeAgreesTrimmed(perMinute, Of(table, a), Of(hist.earlier, a), Of(hist.since, a), EvictedAt(hist, a), now);
  }

  lemma {:induction false} RecentShortens(failures: seq<nat>, now: nat)
    ensures |Recent(failures, now)| <= |failures|
  {
    if failures != [] {
      RecentShortens(failures[1..], now);
    }
  }

  lemma AskKeepsSound(perMinute: nat, capacity: nat, s: Limiter, call: Call, t: Limiter)
    requires Sound(perMinute, capacity, s) && Step(perMinute, capacity, s, call, t) && call.Ask?
    ensures Sound(perMinute, capacity, t)
  {
    var c := CountedAs(call.address);
    forall a ensures Agrees(perMinute, t.table, t.hist, t.now, a) {
      AgreesLater(perMinute, s.table, s.hist, s.now, t.now, a);
      if a == c {
        AgreesTrimmed(perMinute, s.table, s.hist, t.now, a);
      }
    }
    SizeAfterAsking(s.table, perMinute, c, call.at);
  }

  lemma SizeAfterAsking(table: Table, perMinute: nat, a: Address, now: nat)
    ensures |AfterAsking(table, perMinute, a, now)| <= |table|
  {
    if perMinute != 0 && a in table {
      var rest := table - {a};
      assert rest.Keys == table.Keys - {a};
      assert table[a := Recent(table[a], now)].Keys == table.Keys;
      SameSize(rest, rest.Keys);
      SameSize(table, table.Keys);
    }
  }

  lemma SameSize(table: Table, keys: set<Address>)
    requires table.Keys == keys
    ensures |table| == |keys|
  {
  }

  lemma SmallerTable(table: Table, part: Table)
    requires part.Keys <= table.Keys
    ensures |part| <= |table|
    ensures part.Keys < table.Keys ==> |part| < |table|
  {
    SameSize(table, table.Keys);
    SameSize(part, part.Keys);
    SubsetSize(part.Keys, table.Keys);
  }

  lemma {:induction false} SubsetSize(part: set<Address>, all: set<Address>)
    requires part <= all
    ensures |part| <= |all| && (part < all ==> |part| < |all|)
    decreases part
  {
    if part != {} {
      var a :| a in part;
      SubsetSize(part - {a}, all - {a});
    }
  }

  /** Making room takes the evicted away, and those who have cleared. */
  lemma RoomTakes(capacity: nat, table: Table, c: Address, now: nat, room: Table, evicted: Option<Address>, a: Address)
    requires HasRoomFor(table, capacity, c, now, room, evicted)
    ensures evicted == Some(a) ==> a !in room
    ensures a in room ==> a in table && room[a] == table[a]
    ensures a in table && a !in room && evicted != Some(a) ==> !Uncleared(table[a], now)
  {
  }

  lemma OthersKeepLog(hist: History, evicted: Option<Address>, now: nat, a: Address)
    requires evicted != Some(a)
    ensures var later := Evicting(hist, evicted, now);
      Of(later.earlier, a) == Of(hist.earlier, a) && Of(later.since, a) == Of(hist.since, a)
      && EvictedAt(later, a) == EvictedAt(hist, a) && (a in later.evictedAt <==> a in hist.evictedAt)
  {
  }

  /** Making room loses no failure that counts, but those of the evicted. */
  lemma RoomAgrees(perMinute: nat, capacity: nat, table: Table, hist: History, c: Address, now: nat, room: Table,
          evicted: Option<Address>, a: Address)
    requires Agrees(perMinute, table, hist, now, a) && HasRoomFor(table, capacity, c, now, room, evicted)
    ensures Agrees(perMinute, room, Evicting(hist, evicted, now), now, a)
  {
    RoomTakes(capacity, table, c, now, room, evicted, a);
    if evicted == Some(a) {
      EvictedAgrees(perMinute, table, hist, now, room, a);
    } else {
      OthersKeepLog(hist, evicted, now, a);
      if a in table && a !in room {
        ClearedAgrees(perMinute, Of(table, a), Of(hist.earlier, a), Of(hist.since, a), EvictedAt(hist, a), now);
      }
    }
  }

  lemma ClearedAgrees(perMinute: nat, deque: seq<nat>, earlier: seq<nat>, since: seq<nat>, evictedAt: nat, now: nat)
    requires DequeAgrees(perMinute, deque, earlier, since, evictedAt, now) && !Uncleared(deque, now)
    ensures DequeAgrees(perMinute, [], earlier, since, evictedAt, now)
  {
    NoneWithin(deque, now);
  }

  lemma EvictedAgrees(perMinute: nat, table: Table, hist: History, now: nat, room: Table, a: Address)
    requires Agrees(perMinute, table, hist, now, a) && a !in room
    ensures Agrees(perMinute, room, Evicting(hist, Some(a), now), now, a)
  {
    LogHasNoneAfter(hist, a, EvictedAt(hist, a), now);
    assert DequeAgrees(perMinute, [], Log(hist, a), [], now, now);
  }

  lemma LogHasNoneAfter(hist: History, a: Address, evictedAt: nat, now: nat)
    requires NoneAfter(Of(hist.earlier, a), evictedAt) && evictedAt <= now && NoneAfter(Of(hist.since, a), now)
    ensures NoneAfter(Log(hist, a), now)
  {
  }

  lemma RoomIsRoom(capacity: nat, table: Table, a: Address, now: nat, room: Table, evicted: Option<Address>)
    requires |table| <= capacity && capacity >= 1 && HasRoomFor(table, capacity, a, now, room, evicted)
    ensures |room| <= capacity && (a !in room ==> |room| < capacity)
  {
    var kept := Retained(table, now);
    SmallerTable(table, kept);
    if evicted.Some? {
      SmallerTable(kept, room);
    }
    if a in table {
      assert room == table;
    }
  }

  lemma CountedAgrees(perMinute: nat, room: Table, hist: History, c: Address, now: nat, a: Address)
    requires Agrees(perMinute, room, hist, now, a) && perMinute > 0
    ensures Agrees(perMinute, Counted(room, perMinute, c, now),
      if |Recent(Of(room, c), now)| < perMinute then Counting(hist, c, now) else hist, now, a)
  {
    if a == c {
      var left := Recent(Of(room, c), now);
      AgreesTrimmed(perMinute, room, hist, now, c);
      if |left| < perMinute {
        DequeAgreesCounted(perMinute, left, Of(hist.earlier, c), Of(hist.since, c), EvictedAt(hist, c), now);
      }
    }
  }

  lemma FailKeepsSound(perMinute: nat, capacity: nat, s: Limiter, call: Call, t: Limiter)
    requires Sound(perMinute, capacity, s) && Step(perMinute, capacity, s, call, t) && call.Fail?
    requires capacity >= 1 && perMinute > 0
    ensures Sound(perMinute, capacity, t)
  {
    var c := CountedAs(call.address);
    var room, evicted :| Counts(perMinute, capacity, s, c, call.at, room, evicted, t);
    forall a ensures Agrees(perMinute, t.table, t.hist, t.now, a) {
      AgreesLater(perMinute, s.table, s.hist, s.now, t.now, a);
      RoomAgrees(perMinute, capacity, s.table, s.hist, c, t.now, room, evicted, a);
      CountedAgrees(perMinute, room, Evicting(s.hist, evicted, t.now), c, t.now, a);
    }
    RoomIsRoom(capacity, s.table, c, t.now, room, evicted);
    CountedSize(room, perMinute, c, t.now);
  }

  lemma CountedSize(room: Table, perMinute: nat, a: Address, now: nat)
    ensures |Counted(room, perMinute, a, now)| <= |room| + (if a in room then 0 else 1)
  {
    var counted := Counted(room, perMinute, a, now);
    assert counted.Keys == room.Keys + {a};
    SameSize(counted, room.Keys + {a});
    SameSize(room, room.Keys);
  }

  lemma StepKeepsSound(perMinute: nat, capacity: nat, s: Limiter, call: Call, t: Limiter)
    requires Sound(perMinute, capacity, s) && Step(perMinute, capacity, s, call, t) && capacity >= 1
    ensures Sound(perMinute, capacity, t)
  {
    if call.Ask? {
      AskKeepsSound(perMinute, capacity, s, call, t);
    } else if perMinute > 0 {
      FailKeepsSound(perMinute, capacity, s, call, t);
    } else {
      forall a ensures Agrees(perMinute, t.table, t.hist, t.now, a) {
        AgreesLater(perMinute, s.table, s.hist, s.now, t.now, a);
      }
    }
  }

  /** A run: the states a new limiter goes through. */
  ghost predicate IsRun(perMinute: nat, capacity: nat, states: seq<Limiter>, calls: seq<Call>) {
    && |states| == |calls| + 1 && states[0].table == map[] && states[0].hist == NOTHING_YET
    && forall i :: 0 <= i < |calls| ==> Step(perMinute, capacity, states[i], calls[i], states[i + 1])
  }

  lemma {:induction false} RunIsSound(perMinute: nat, capacity: nat, states: seq<Limiter>, calls: seq<Call>)
    requires capacity >= 1 && IsRun(perMinute, capacity, states, calls)
    ensures Sound(perMinute, capacity, states[|calls|])
    decreases |calls|
  {
    if calls != [] {
      var n := |calls| - 1;
      RunIsSound(perMinute, capacity, states[..|calls|], calls[..n]);
      StepKeepsSound(perMinute, capacity, states[n], calls[n], states[n + 1]);
    }
  }

  // === what the answers mean ===

  /** An eviction is forgotten with the failures it lost. */
  predicate EvictionIsOver(hist: History, a: Address, now: nat) {
    a !in hist.evictedAt || now >= hist.evictedAt[a] + WINDOW
  }

  lemma DequeIsLog(perMinute: nat, s: Limiter, a: Address, now: nat)
    requires Agrees(perMinute, s.table, s.hist, s.now, a) && s.now <= now && EvictionIsOver(s.hist, a, now)
    ensures Recent(Of(s.table, a), now) == Within(Log(s.hist, a), now)
  {
    AgreesLater(perMinute, s.table, s.hist, s.now, now, a);
    AgreesTrimmed(perMinute, s.table, s.hist, now, a);
    WithinOfBoth(Of(s.hist.earlier, a), Of(s.hist.since, a), now);
    NoneWithin(Of(s.hist.earlier, a), now);
  }

  /** The main result on the limiter: after any calls, an address that no full
      table evicted in the last minute is limited exactly when the log of the
      last minute holds `perMinute` failures, and told to wait for the first
      second, at most a minute away, at which it no longer is. */
  lemma LimitedExactly(perMinute: nat, capacity: nat, states: seq<Limiter>, calls: seq<Call>, address: Address,
          now: nat)
    requires capacity >= 1 && perMinute > 0 && IsRun(perMinute, capacity, states, calls)
    requires states[|calls|].now <= now && EvictionIsOver(states[|calls|].hist, CountedAs(address), now)
    ensures var s := states[|calls|]; var a := CountedAs(address);
      var log := Log(s.hist, a); var wait := Wait(s.table, perMinute, a, now);
      && (wait.Some? <==> |Within(log, now)| >= perMinute)
      && (wait.Some? ==>
            && 1 <= wait.value <= WINDOW
            && (forall t :: now <= t < now + wait.value ==> |Within(log, t)| >= perMinute)
            && |Within(log, now + wait.value)| < perMinute)
  {
    var s, a := states[|calls|], CountedAs(address);
    RunIsSound(perMinute, capacity, states, calls);
    DequeIsLog(perMinute, s, a, now);
    var left := Recent(Of(s.table, a), now);
    AgreesLater(perMinute, s.table, s.hist, s.now, now, a);
    AgreesTrimmed(perMinute, s.table, s.hist, now, a);
    RecentIsWithin(Of(s.table, a), now, now);
    if left != [] {
      var until := left[0] + WINDOW;
      forall t | now <= t < until ensures Within(Log(s.hist, a), t) == left {
        WithinLater(Log(s.hist, a), now, t);
        AllWithin(left, t);
      }
      WithinLater(Log(s.hist, a), now, until);
      RecentIsWithin(left, until, now);
      RecentShortens(left[1..], until);
    }
  }

  /** A failure is counted exactly when the log of the last minute has room for it. */
  lemma CountedExactly(perMinute: nat, capacity: nat, states: seq<Limiter>, calls: seq<Call>, call: Call, t: Limiter)
    requires capacity >= 1 && perMinute > 0 && IsRun(perMinute, capacity, states, calls)
    requires Step(perMinute, capacity, states[|calls|], call, t) && call.Fail?
    requires EvictionIsOver(states[|calls|].hist, CountedAs(call.address), call.at)
    ensures var before := Log(states[|calls|].hist, CountedAs(call.address));
      Log(t.hist, CountedAs(call.address))
        == if |Within(before, call.at)| < perMinute then before + [call.at] else before
  {
    var s, c := states[|calls|], CountedAs(call.address);
    RunIsSound(perMinute, capacity, states, calls);
    DequeIsLog(perMinute, s, c, call.at);
    var room, evicted :| Counts(perMinute, capacity, s, c, call.at, room, evicted, t);
    NewcomerKeepsLog(s, capacity, c, call.at, room, evicted);
  }

  /** Whoever room is made for had no failures to lose. */
  lemma NewcomerKeepsLog(s: Limiter, capacity: nat, c: Address, now: nat, room: Table, evicted: Option<Address>)
    requires HasRoomFor(s.table, capacity, c, now, room, evicted)
    ensures Of(room, c) == Of(s.table, c)
    ensures Log(Evicting(s.hist, evicted, now), c) == Log(s.hist, c)
    ensures Log(Counting(Evicting(s.hist, evicted, now), c, now), c) == Log(s.hist, c) + [now]
  {
    assert Of(s.hist.earlier, c) + (Of(s.hist.since, c) + [now]) == Log(s.hist, c) + [now];
  }

  /** Eviction takes a full table in which nothing has cleared, and falls on
      an address that has been quiet for longest. */
  lemma EvictsTheStalest(table: Table, capacity: nat, a: Address, now: nat, room: Table, evicted: Option<Address>)
    requires HasRoomFor(table, capacity, a, now, room, evicted) && |table| <= capacity && evicted.Some?
    requires forall b <- table :: table[b] != []
    ensures |table| == capacity && a !in table
    ensures evicted.value in table && room == table - {evicted.value}
    ensures forall b <- table ::
      && now < table[b][|table[b]| - 1] + 60
      && table[evicted.value][|table[evicted.value]| - 1] <= table[b][|table[b]| - 1]
  {
    var kept := Retained(table, now);
    SmallerTable(table, kept);
    assert kept.Keys == table.Keys;
    assert kept == table;
  }
}
