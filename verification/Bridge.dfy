/** Between asynchronous bodies and blocking readers: two bounded channels of
    pieces, as state machines whose two sides step in any order. */
module Bridges {
  import opened Wrappers
  import opened Ids
  import opened Stores

  const PIECE: nat := 0x1_0000
  const DEPTH: nat := 8

  /** What crosses the channel. */
  datatype Piece = Bytes(bytes: seq<byte>) | Failed

  function BytesIn(piece: Piece): seq<byte> {
    match piece
    case Bytes(bytes) => bytes
    case Failed => []
  }

  function Flat(queue: seq<Piece>): seq<byte> {
    if queue == [] then [] else BytesIn(queue[0]) + Flat(queue[1..])
  }

  function Waiting(piece: Option<Piece>): seq<byte> {
    if piece.Some? then BytesIn(piece.value) else []
  }

  lemma {:induction false} FlatGrows(queue: seq<Piece>, piece: Piece)
    ensures Flat(queue + [piece]) == Flat(queue) + BytesIn(piece)
  {
    if queue == [] {
      assert queue + [piece] == [piece];
    } else {
      assert (queue + [piece])[1..] == queue[1..] + [piece];
      FlatGrows(queue[1..], piece);
    }
  }

  predicate Small(piece: Piece) { |BytesIn(piece)| <= PIECE }

  lemma {:induction false} FlatIsSmall(queue: seq<Piece>)
    requires forall p <- queue :: Small(p)
    ensures |Flat(queue)| <= 0x1_0000 * |queue|
  {
    if queue != [] {
      assert Small(queue[0]) && forall p <- queue[1..] :: p in queue;
      FlatIsSmall(queue[1..]);
    }
  }

  function Least(a: nat, b: nat): nat { if a < b then a else b }

  // === a request's body, read ===

  /** `arrived` and `given` are all there was and all that was read, as nobody
      remembers them; `lost` is what was counted and dropped with the reader. */
  datatype Inbound = Inbound(
    rest: seq<byte>, waiting: Option<Piece>, ended: bool,
    queue: seq<Piece>, current: seq<byte>, gone: bool,
    held: int, arrived: seq<byte>, given: seq<byte>, lost: nat)

  const NOTHING_ARRIVED := Inbound([], None, false, [], [], false, 0, [], [], 0)

  datatype Frame = Data(bytes: seq<byte>) | Trailers | Broke | NoMore

  datatype InStep =
    | Arrives(frame: Frame)
    | Cuts
    | Sends
    | SendFails
    | Takes
    | Reads(room: nat)
    | Leaves

  predicate InEnabled(s: Inbound, e: InStep) {
    match e
    case Arrives(_) => !s.ended && s.rest == [] && s.waiting.None?
    case Cuts => !s.ended && s.rest != [] && s.waiting.None?
    case Sends => s.waiting.Some? && !s.gone && |s.queue| < DEPTH
    case SendFails => s.waiting.Some? && s.gone
    case Takes => !s.gone && s.current == [] && s.queue != []
    case Reads(_) => !s.gone && s.current != []
    case Leaves => !s.gone
  }

  function InNext(s: Inbound, e: InStep): Inbound
    requires InEnabled(s, e)
  {
    match e
    case Arrives(Data(bytes)) => s.(rest := bytes, arrived := s.arrived + bytes)
    case Arrives(Trailers) => s
    case Arrives(Broke) => s.(waiting := Some(Failed))
    case Arrives(NoMore) => s.(ended := true)
    case Cuts =>
      var n := Least(|s.rest|, PIECE);
      s.(waiting := Some(Bytes(s.rest[..n])), rest := s.rest[n..], held := s.held + n)
    case Sends => s.(queue := s.queue + [s.waiting.value], waiting := None, ended := s.waiting.value.Failed?)
    case SendFails => s.(waiting := None, rest := [], ended := true, lost := s.lost + |Waiting(s.waiting)|)
    case Takes =>
      if s.queue[0].Failed? then s.(queue := s.queue[1..])
      else s.(current := s.queue[0].bytes, queue := s.queue[1..])
    case Reads(room) =>
      var n := Least(room, |s.current|);
      s.(given := s.given + s.current[..n], current := s.current[n..], held := s.held - n)
    case Leaves =>
      s.(gone := true, queue := [], current := [], lost := s.lost + |s.current| + |Flat(s.queue)|)
  }

  /** As long as there is a reader, pieces keep their order and none is missing,
      and the count is of those between the ends. */
  ghost predicate InOk(s: Inbound) {
    && (forall p <- s.queue :: Small(p)) && (s.waiting.Some? ==> Small(s.waiting.value))
    && |s.queue| <= DEPTH && |s.current| <= PIECE
    && s.held == |s.current| + |Flat(s.queue)| + |Waiting(s.waiting)| + s.lost
    && s.lost <= (DEPTH + 2) * PIECE && (s.ended ==> s.waiting.None?)
    && (if s.gone
        then s.queue == [] && s.current == [] && s.given <= s.arrived
             && (!s.ended ==> s.lost <= (DEPTH + 1) * PIECE)
        else s.lost == 0 && s.given + s.current + (Flat(s.queue) + Waiting(s.waiting) + s.rest) == s.arrived)
  }

  lemma SendKeepsInOk(s: Inbound)
    requires InOk(s) && InEnabled(s, Sends)
    ensures InOk(InNext(s, Sends))
  {
    FlatGrows(s.queue, s.waiting.value);
  }

  lemma CutKeepsInOk(s: Inbound)
    requires InOk(s) && InEnabled(s, Cuts)
    ensures InOk(InNext(s, Cuts))
  {
    var n := Least(|s.rest|, PIECE);
    assert s.rest == s.rest[..n] + s.rest[n..];
  }

  lemma TakeKeepsInOk(s: Inbound)
    requires InOk(s) && InEnabled(s, Takes)
    ensures InOk(InNext(s, Takes))
  {
    assert Small(s.queue[0]) && forall p <- s.queue[1..] :: p in s.queue;
    TakenIsNext(s.given, BytesIn(s.queue[0]), Flat(s.queue[1..]), Waiting(s.waiting), s.rest);
  }

  lemma TakenIsNext(given: seq<byte>, head: seq<byte>, tail: seq<byte>, waiting: seq<byte>, rest: seq<byte>)
    ensures given + [] + (head + tail + waiting + rest) == given + head + (tail + waiting + rest)
  {
  }

  lemma ReadKeepsInOk(s: Inbound, room: nat)
    requires InOk(s) && InEnabled(s, Reads(room))
    ensures InOk(InNext(s, Reads(room)))
  {
    var n := Least(room, |s.current|);
    MovesOver(s.given, s.current[..n], s.current[n..], Flat(s.queue) + Waiting(s.waiting) + s.rest);
    assert s.current == s.current[..n] + s.current[n..];
  }

  lemma MovesOver(given: seq<byte>, head: seq<byte>, tail: seq<byte>, more: seq<byte>)
    ensures (given + head) + tail + more == given + (head + tail) + more
  {
  }

  lemma LeaveKeepsInOk(s: Inbound)
    requires InOk(s) && InEnabled(s, Leaves)
    ensures InOk(InNext(s, Leaves))
  {
    FlatIsSmall(s.queue);
  }

  lemma StepKeepsInOk(s: Inbound, e: InStep)
    requires InOk(s) && InEnabled(s, e)
    ensures InOk(InNext(s, e))
  {
    match e
    case Cuts => CutKeepsInOk(s);
    case Sends => SendKeepsInOk(s);
    case Takes => TakeKeepsInOk(s);
    case Reads(room) => ReadKeepsInOk(s, room);
    case Leaves => LeaveKeepsInOk(s);
    case _ =>
  }

  predicate InRun(s: Inbound, steps: seq<InStep>)
    decreases |steps|
  {
    steps == [] || (InEnabled(s, steps[0]) && InRun(InNext(s, steps[0]), steps[1..]))
  }

  function InEnd(s: Inbound, steps: seq<InStep>): Inbound
    requires InRun(s, steps)
    decreases |steps|
  {
    if steps == [] then s else InEnd(InNext(s, steps[0]), steps[1..])
  }

  lemma {:induction false} RunKeepsInOk(s: Inbound, steps: seq<InStep>)
    requires InOk(s) && InRun(s, steps)
    ensures InOk(InEnd(s, steps))
    decreases |steps|
  {
    if steps != [] {
      StepKeepsInOk(s, steps[0]);
      RunKeepsInOk(InNext(s, steps[0]), steps[1..]);
    }
  }

  /** The main result on bodies that arrive: at every interleaving what was
      read is, in order, the beginning of what arrived; all of it, when the
      reader sees the end without a failure; and no more than ten pieces are
      ever counted. */
  lemma ReadsWhatArrives(steps: seq<InStep>)
    requires InRun(NOTHING_ARRIVED, steps)
    ensures var s := InEnd(NOTHING_ARRIVED, steps);
      && s.given <= s.arrived
      && (!s.gone && s.ended && s.queue == [] && s.current == [] && s.rest == [] ==> s.given == s.arrived)
      && s.held <= (DEPTH + 2) * PIECE
  {
    RunKeepsInOk(NOTHING_ARRIVED, steps);
    var s := InEnd(NOTHING_ARRIVED, steps);
    FlatIsSmall(s.queue);
  }

  // === the bound is met ===

  ghost predicate Reached(s: Inbound) {
    InOk(s) && exists steps: seq<InStep> :: InRun(NOTHING_ARRIVED, steps) && InEnd(NOTHING_ARRIVED, steps) == s
  }

  lemma {:induction false} RunOneMore(s: Inbound, steps: seq<InStep>, e: InStep)
    requires InRun(s, steps) && InEnabled(InEnd(s, steps), e)
    ensures InRun(s, steps + [e]) && InEnd(s, steps + [e]) == InNext(InEnd(s, steps), e)
    decreases |steps|
  {
    if steps == [] {
      assert steps + [e] == [e];
      assert InRun(InNext(s, e), []) && InEnd(InNext(s, e), []) == InNext(s, e);
    } else {
      RunOneMore(InNext(s, steps[0]), steps[1..], e);
      assert (steps + [e])[1..] == steps[1..] + [e];
    }
  }

  lemma ReachedNext(s: Inbound, e: InStep)
    requires Reached(s) && InEnabled(s, e)
    ensures Reached(InNext(s, e))
  {
    var steps :| InRun(NOTHING_ARRIVED, steps) && InEnd(NOTHING_ARRIVED, steps) == s;
    RunOneMore(NOTHING_ARRIVED, steps, e);
    StepKeepsInOk(s, e);
    assert InRun(NOTHING_ARRIVED, steps + [e]);
  }

  function Full(): (piece: seq<byte>)
    ensures |piece| == PIECE
  {
    seq(PIECE, _ => 0 as byte)
  }

  /** So many full pieces in the channel, and one at the reader or none. */
  ghost predicate Queued(s: Inbound, n: nat, reading: bool) {
    && Reached(s) && !s.ended && !s.gone && s.rest == [] && s.waiting.None?
    && |s.queue| == n && (forall p <- s.queue :: p == Bytes(Full()))
    && s.current == (if reading then Full() else [])
    && s.held == |s.arrived| == PIECE * n + (if reading then PIECE else 0)
  }

  /** One more piece is cut from a frame of that size. */
  lemma CutsPiece(s: Inbound, n: nat, reading: bool, piece: seq<byte>) returns (t: Inbound)
    requires Queued(s, n, reading) && 0 < |piece| <= PIECE
    ensures Reached(t)
    ensures t == s.(arrived := s.arrived + piece, waiting := Some(Bytes(piece)), held := s.held + |piece|)
  {
    var frame := Arrives(Data(piece));
    ReachedNext(s, frame);
    var a := InNext(s, frame);
    ReachedNext(a, Cuts);
    t := InNext(a, Cuts);
    assert piece[..|piece|] == piece && piece[|piece|..] == [];
  }

  lemma {:induction false} FillsUp(s: Inbound, n: nat, reading: bool, more: nat) returns (t: Inbound)
    requires Queued(s, n, reading) && n + more <= DEPTH
    ensures Queued(t, n + more, reading)
    decreases more
  {
    if more == 0 {
      t := s;
    } else {
      var c := CutsPiece(s, n, reading, Full());
      ReachedNext(c, Sends);
      t := FillsUp(InNext(c, Sends), n + 1, reading, more - 1);
    }
  }

  lemma StartsQueued()
    ensures Queued(NOTHING_ARRIVED, 0, false)
  {
    assert InRun(NOTHING_ARRIVED, []) && InEnd(NOTHING_ARRIVED, []) == NOTHING_ARRIVED;
  }

  /** The reader has taken one piece, and so many more are in the channel. */
  lemma FillsWhileReading(n: nat) returns (t: Inbound)
    requires n <= DEPTH
    ensures Queued(t, n, true)
  {
    StartsQueued();
    var one := FillsUp(NOTHING_ARRIVED, 0, false, 1);
    assert one.queue[0] in one.queue;
    ReachedNext(one, Takes);
    t := FillsUp(InNext(one, Takes), 0, true, n);
  }

  // === the most that is counted ===

  /** What is counted has arrived, and was neither read nor is it still to be
      cut. */
  ghost predicate CountsArrived(s: Inbound) { |s.given| + s.held + |s.rest| <= |s.arrived| }

  lemma StepCountsArrived(s: Inbound, e: InStep)
    requires InEnabled(s, e) && CountsArrived(s)
    ensures CountsArrived(InNext(s, e))
  {
  }

  lemma {:induction false} RunCountsArrived(s: Inbound, steps: seq<InStep>)
    requires InRun(s, steps) && CountsArrived(s)
    ensures CountsArrived(InEnd(s, steps))
    decreases |steps|
  {
    if steps != [] {
      StepCountsArrived(s, steps[0]);
      RunCountsArrived(InNext(s, steps[0]), steps[1..]);
    }
  }

  /** The most that is ever counted of a body of so many bytes: all of it, or
      one piece at the reader, the channel full and one piece on its way in. */
  function InPeak(size: nat): nat { Least(size, (DEPTH + 2) * PIECE) }

  lemma NeverAbovePeak(s: Inbound, size: nat)
    requires Reached(s) && |s.arrived| <= size
    ensures s.held <= InPeak(size)
  {
    var steps :| InRun(NOTHING_ARRIVED, steps) && InEnd(NOTHING_ARRIVED, steps) == s;
    RunCountsArrived(NOTHING_ARRIVED, steps);
    ReadsWhatArrives(steps);
  }

  /** So many full pieces, and the rest of a body in one that waits. */
  lemma ReachesPeak(size: nat) returns (s: Inbound)
    ensures Reached(s) && |s.arrived| <= size && s.held == InPeak(size)
  {
    var peak := InPeak(size);
    var n, last := peak / PIECE, peak % PIECE;
    if n == DEPTH + 2 {
      var full := FillsWhileReading(DEPTH);
      s := CutsPiece(full, DEPTH, true, Full());
    } else if n == 0 {
      StartsQueued();
      s := NOTHING_ARRIVED;
      if last > 0 {
        s := CutsPiece(s, 0, false, Full()[..last]);
      }
    } else {
      s := FillsWhileReading(n - 1);
      if last > 0 {
        s := CutsPiece(s, n - 1, true, Full()[..last]);
      }
    }
  }

  /** Whatever is counted of a body in any of its runs. */
  ghost predicate InStaysWithin(size: nat, bound: nat) {
    forall s: Inbound :: Reached(s) && |s.arrived| <= size ==> s.held <= bound
  }

  /** Exactly how much: no more than the peak, and the peak. */
  lemma InPeakIsExact(size: nat, bound: nat)
    ensures InStaysWithin(size, bound) <==> InPeak(size) <= bound
  {
    forall s: Inbound | Reached(s) && |s.arrived| <= size ensures s.held <= InPeak(size) {
      NeverAbovePeak(s, size);
    }
    var s := ReachesPeak(size);
    if InStaysWithin(size, bound) {
      assert s.held <= bound;
    }
  }

  /** The module's comment bounds what is in flight by the depth of the channel.
      That holds of a body exactly when all of it fits into the channel. */
  lemma InboundCommentHolds(size: nat)
    ensures InStaysWithin(size, DEPTH * PIECE) <==> size <= DEPTH * PIECE
  {
    InPeakIsExact(size, DEPTH * PIECE);
  }

  /** A body of ten pieces is counted whole. */
  lemma TenPiecesAreHeld()
    ensures exists s :: Reached(s) && s.held == (DEPTH + 2) * PIECE
  {
    var s := ReachesPeak((DEPTH + 2) * PIECE);
  }

  // === content, sent ===

  /** `emitted` is all the client was given. */
  datatype Outbound = Outbound(
    content: seq<byte>, length: nat, pos: nat, left: nat, waiting: Option<Piece>, stopped: bool,
    queue: seq<Piece>, remaining: nat, gone: bool, held: int, emitted: seq<byte>, lost: nat, failed: bool)

  datatype OutStep =
    | ReadsSome(n: nat)
    | ReadsNothing      // the content ended before its length
    | ReadFails
    | IsInterrupted
    | IsDone
    | SendsOut
    | SendOutFails
    | Polls
    | ClientLeaves

  predicate OutEnabled(s: Outbound, e: OutStep) {
    var reading := !s.stopped && s.waiting.None?;
    match e
    case ReadsSome(n) => reading && s.left > 0 && 1 <= n <= Least(s.left, PIECE) && s.pos + n <= |s.content|
    case ReadsNothing => reading && s.left > 0 && s.pos >= |s.content|
    case ReadFails => reading && s.left > 0
    case IsInterrupted => reading && s.left > 0
    case IsDone => reading && s.left == 0
    case SendsOut => s.waiting.Some? && !s.gone && |s.queue| < DEPTH
    case SendOutFails => s.waiting.Some? && s.gone
    case Polls => !s.gone && s.queue != []
    case ClientLeaves => !s.gone
  }

  function OutNext(s: Outbound, e: OutStep): Outbound
    requires OutEnabled(s, e)
  {
    match e
    case ReadsSome(n) =>
      s.(waiting := Some(Bytes(s.content[s.pos..s.pos + n])), pos := s.pos + n, left := s.left - n, held := s.held + n)
    case ReadsNothing => s.(waiting := Some(Failed), failed := true)
    case ReadFails => s.(waiting := Some(Failed), failed := true)
    case IsInterrupted => s
    case IsDone => s.(stopped := true)
    case SendsOut => s.(queue := s.queue + [s.waiting.value], waiting := None)
    case SendOutFails => s.(waiting := None, stopped := true, lost := s.lost + |Waiting(s.waiting)|)
    case Polls =>
      var bytes := BytesIn(s.queue[0]);
      s.(queue := s.queue[1..], emitted := s.emitted + bytes, held := s.held - |bytes|,
         remaining := SaturatingSub(s.remaining, |bytes|))
    case ClientLeaves => s.(gone := true, queue := [], lost := s.lost + |Flat(s.queue)|)
  }

  ghost predicate OutOk(s: Outbound) {
    && (forall p <- s.queue :: Small(p)) && (s.waiting.Some? ==> Small(s.waiting.value)) && |s.queue| <= DEPTH
    && s.pos <= |s.content| && s.pos + s.left == s.length
    && s.held == |Flat(s.queue)| + |Waiting(s.waiting)| + s.lost && s.lost <= (DEPTH + 1) * PIECE
    && s.remaining == s.length - |s.emitted|
    && (s.stopped ==> s.waiting.None? && (s.gone || s.left == 0))
    && (if s.gone
        then s.queue == [] && s.emitted <= s.content[..s.pos] && (!s.stopped ==> s.lost <= DEPTH * PIECE)
        else s.lost == 0 && s.emitted + (Flat(s.queue) + Waiting(s.waiting)) == s.content[..s.pos])
    && (|s.content| >= s.length && !s.failed ==>
          (s.waiting.Some? ==> s.waiting.value.Bytes?) && forall p <- s.queue :: p.Bytes?)
  }

  /** A body about to be sent. */
  ghost function StreamOut(content: seq<byte>, length: nat): (s: Outbound)
    ensures OutOk(s) && s.content == content && s.length == length
  {
    Outbound(content, length, 0, length, None, false, [], length, false, 0, [], 0, false)
  }

  lemma SomeReadKeepsOutOk(s: Outbound, n: nat)
    requires OutOk(s) && OutEnabled(s, ReadsSome(n))
    ensures OutOk(OutNext(s, ReadsSome(n)))
  {
    assert s.content[..s.pos + n] == s.content[..s.pos] + s.content[s.pos..s.pos + n];
  }

  lemma SendKeepsOutOk(s: Outbound)
    requires OutOk(s) && OutEnabled(s, SendsOut)
    ensures OutOk(OutNext(s, SendsOut))
  {
    FlatGrows(s.queue, s.waiting.value);
  }

  lemma PolledIsNext(emitted: seq<byte>, head: seq<byte>, tail: seq<byte>, waiting: seq<byte>)
    ensures emitted + (head + tail + waiting) == emitted + head + (tail + waiting)
  {
  }

  lemma PollKeepsOutOk(s: Outbound)
    requires OutOk(s) && OutEnabled(s, Polls)
    ensures OutOk(OutNext(s, Polls))
  {
    assert forall p <- s.queue[1..] :: p in s.queue;
    PolledIsNext(s.emitted, BytesIn(s.queue[0]), Flat(s.queue[1..]), Waiting(s.waiting));
    assert |s.emitted + (Flat(s.queue) + Waiting(s.waiting))| == s.pos;
  }

  lemma OutStepKeepsOk(s: Outbound, e: OutStep)
    requires OutOk(s) && OutEnabled(s, e)
    ensures OutOk(OutNext(s, e)) && OutNext(s, e).content == s.content && OutNext(s, e).length == s.length
  {
    FlatIsSmall(s.queue);
    match e
    case ReadsSome(n) => SomeReadKeepsOutOk(s, n);
    case SendsOut => SendKeepsOutOk(s);
    case Polls => PollKeepsOutOk(s);
    case _ =>
  }

  predicate OutRun(s: Outbound, steps: seq<OutStep>)
    decreases |steps|
  {
    steps == [] || (OutEnabled(s, steps[0]) && OutRun(OutNext(s, steps[0]), steps[1..]))
  }

  function OutEnd(s: Outbound, steps: seq<OutStep>): Outbound
    requires OutRun(s, steps)
    decreases |steps|
  {
    if steps == [] then s else OutEnd(OutNext(s, steps[0]), steps[1..])
  }

  lemma {:induction false} OutRunKeepsOk(s: Outbound, steps: seq<OutStep>)
    requires OutOk(s) && OutRun(s, steps)
    ensures OutOk(OutEnd(s, steps)) && OutEnd(s, steps).content == s.content && OutEnd(s, steps).length == s.length
    decreases |steps|
  {
    if steps != [] {
      OutStepKeepsOk(s, steps[0]);
      OutRunKeepsOk(OutNext(s, steps[0]), steps[1..]);
    }
  }

  /** The main result on bodies that leave: what the client has is always the
      beginning of the content and never more than `length`; the size it is
      told is still to come is exact; and once the sender is done and the
      channel empty it is exactly `length` bytes. Nine pieces are counted at
      most. Content that is long enough never fails for being short. */
  lemma StreamsExactly(content: seq<byte>, length: nat, steps: seq<OutStep>)
    requires OutRun(StreamOut(content, length), steps)
    ensures var s := OutEnd(StreamOut(content, length), steps);
      && s.emitted <= content && |s.emitted| + s.remaining == length
      && (!s.gone && s.stopped && s.queue == [] ==> length <= |content| && s.emitted == content[..length])
      && s.held <= (DEPTH + 1) * PIECE
      && (|content| >= length ==> !OutEnabled(s, ReadsNothing))
  {
    OutRunKeepsOk(StreamOut(content, length), steps);
    var s := OutEnd(StreamOut(content, length), steps);
    FlatIsSmall(s.queue);
  }

  // === the most that is counted of it ===

  /** What is counted was taken from the content and not given yet. */
  ghost predicate CountsTaken(s: Outbound) {
    |s.emitted| + s.held <= s.pos <= Least(s.length, |s.content|) && s.pos + s.left == s.length
  }

  lemma StepCountsTaken(s: Outbound, e: OutStep)
    requires OutEnabled(s, e) && CountsTaken(s)
    ensures CountsTaken(OutNext(s, e)) && OutNext(s, e).content == s.content && OutNext(s, e).length == s.length
  {
  }

  lemma {:induction false} RunCountsTaken(s: Outbound, steps: seq<OutStep>)
    requires OutRun(s, steps) && CountsTaken(s)
    ensures CountsTaken(OutEnd(s, steps))
    ensures OutEnd(s, steps).content == s.content && OutEnd(s, steps).length == s.length
    decreases |steps|
  {
    if steps != [] {
      StepCountsTaken(s, steps[0]);
      RunCountsTaken(OutNext(s, steps[0]), steps[1..]);
    }
  }

  lemma {:induction false} OutRunOneMore(s: Outbound, steps: seq<OutStep>, e: OutStep)
    requires OutRun(s, steps) && OutEnabled(OutEnd(s, steps), e)
    ensures OutRun(s, steps + [e]) && OutEnd(s, steps + [e]) == OutNext(OutEnd(s, steps), e)
    decreases |steps|
  {
    if steps == [] {
      assert steps + [e] == [e];
      assert OutRun(OutNext(s, e), []) && OutEnd(OutNext(s, e), []) == OutNext(s, e);
    } else {
      OutRunOneMore(OutNext(s, steps[0]), steps[1..], e);
      assert (steps + [e])[1..] == steps[1..] + [e];
    }
  }

  ghost predicate OutReached(content: seq<byte>, length: nat, s: Outbound) {
    exists steps: seq<OutStep> ::
      OutRun(StreamOut(content, length), steps) && OutEnd(StreamOut(content, length), steps) == s
  }

  lemma OutReachedNext(content: seq<byte>, length: nat, s: Outbound, e: OutStep)
    requires OutReached(content, length, s) && OutEnabled(s, e)
    ensures OutReached(content, length, OutNext(s, e))
  {
    var steps :|
      OutRun(StreamOut(content, length), steps) && OutEnd(StreamOut(content, length), steps) == s;
    OutRunOneMore(StreamOut(content, length), steps, e);
    assert OutRun(StreamOut(content, length), steps + [e]);
  }

  /** The most that is ever counted: all that is sent, or the channel full and
      one piece on its way in. */
  function OutPeak(content: seq<byte>, length: nat): nat {
    Least(Least(length, |content|), (DEPTH + 1) * PIECE)
  }

  lemma NeverAboveOutPeak(content: seq<byte>, length: nat, s: Outbound)
    requires OutReached(content, length, s)
    ensures s.held <= OutPeak(content, length)
  {
    var steps :|
      OutRun(StreamOut(content, length), steps) && OutEnd(StreamOut(content, length), steps) == s;
    RunCountsTaken(StreamOut(content, length), steps);
    StreamsExactly(content, length, steps);
  }

  /** Nothing is taken out of the channel yet. */
  ghost predicate OutQueued(content: seq<byte>, length: nat, s: Outbound, n: nat) {
    && OutReached(content, length, s) && s.content == content && s.length == length
    && !s.stopped && !s.gone && s.waiting.None? && |s.queue| == n
    && s.held == s.pos == PIECE * n <= Least(length, |content|) && s.pos + s.left == s.length
  }

  /** One more piece is read from the content. */
  lemma ReadsPiece(content: seq<byte>, length: nat, s: Outbound, n: nat, size: nat) returns (t: Outbound)
    requires OutQueued(content, length, s, n)
    requires 0 < size <= PIECE && s.pos + size <= Least(length, |content|)
    ensures OutReached(content, length, t)
    ensures t == s.(waiting := Some(Bytes(content[s.pos..s.pos + size])), pos := s.pos + size,
                    left := s.left - size, held := s.held + size)
  {
    OutReachedNext(content, length, s, ReadsSome(size));
    t := OutNext(s, ReadsSome(size));
  }

  lemma {:induction false} OutFillsUp(content: seq<byte>, length: nat, n: nat) returns (s: Outbound)
    requires n <= DEPTH && PIECE * n <= Least(length, |content|)
    ensures OutQueued(content, length, s, n)
    decreases n
  {
    if n == 0 {
      s := StreamOut(content, length);
      assert OutRun(s, []) && OutEnd(s, []) == s;
    } else {
      var before := OutFillsUp(content, length, n - 1);
      var read := ReadsPiece(content, length, before, n - 1, PIECE);
      OutReachedNext(content, length, read, SendsOut);
      s := OutNext(read, SendsOut);
    }
  }

  lemma ReachesOutPeak(content: seq<byte>, length: nat) returns (s: Outbound)
    ensures OutReached(content, length, s) && s.held == OutPeak(content, length)
  {
    var peak := OutPeak(content, length);
    var n := Least(peak / PIECE, DEPTH);
    s := OutFillsUp(content, length, n);
    if PIECE * n < peak {
      s := ReadsPiece(content, length, s, n, peak - PIECE * n);
    }
  }

  ghost predicate OutStaysWithin(content: seq<byte>, length: nat, bound: nat) {
    forall s: Outbound :: OutReached(content, length, s) ==> s.held <= bound
  }

  lemma OutPeakIsExact(content: seq<byte>, length: nat, bound: nat)
    ensures OutStaysWithin(content, length, bound) <==> OutPeak(content, length) <= bound
  {
    forall s: Outbound | OutReached(content, length, s) ensures s.held <= OutPeak(content, length) {
      NeverAboveOutPeak(content, length, s);
    }
    var s := ReachesOutPeak(content, length);
    if OutStaysWithin(content, length, bound) {
      assert s.held <= bound;
    }
  }

  /** Of what is sent, too, the comment holds exactly when all of it fits into
      the channel. */
  lemma OutboundCommentHolds(content: seq<byte>, length: nat)
    ensures OutStaysWithin(content, length, DEPTH * PIECE) <==> Least(length, |content|) <= DEPTH * PIECE
  {
    OutPeakIsExact(content, length, DEPTH * PIECE);
  }
}
