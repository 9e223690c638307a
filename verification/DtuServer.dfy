/** The listening server: per-connection byte buffers, the reading queue, and the batching consumer.

    asyncio runs one coroutine at a time and switches only at an await, so a run is the consumer's own steps
    interleaved with the events that happen while it waits. A schedule lists those events, one turn per await;
    every claim is for all schedules. */
module DtuServer {
  import opened Crc
  import opened Framing
  import opened Decoding
  import opened Data

  // ---------------------------------------------------------------- readings of a stream

  /** An unknown quality counts as good. */
  function ToReadingIn(r: RawReading): ReadingIn {
    var quality := if r.quality == "bad" then Bad else if r.quality == "uncertain" then Uncertain else Good;
    ReadingIn(r.deviceCode, r.channelCode, r.timestamp, r.value, r.unit, quality)
  }

  function ToReadingIns(rs: seq<RawReading>): (ins: seq<ReadingIn>)
    ensures |ins| == |rs|
  {
    if rs == [] then [] else [ToReadingIn(rs[0])] + ToReadingIns(rs[1..])
  }

  lemma {:induction false} ToReadingInsConcat(rs: seq<RawReading>, qs: seq<RawReading>)
    ensures ToReadingIns(rs + qs) == ToReadingIns(rs) + ToReadingIns(qs)
  {
    if rs == [] {
      assert rs + qs == qs;
    } else {
      assert (rs + qs)[1..] == rs[1..] + qs;
      ToReadingInsConcat(rs[1..], qs);
    }
  }

  /** What a stream of bytes means under a device's configuration, clock readings aside. */
  function Meaning(a: Adapter, stream: Bytes): seq<ReadingIn> {
    ToReadingIns(DecodeAll(a, Split(stream).frames, []))
  }

  lemma MeaningGrows(a: Adapter, stream: Bytes, chunk: Bytes)
    ensures Meaning(a, stream + chunk)
         == Meaning(a, stream) + Meaning(a, Split(stream).rest + chunk)
    ensures Split(stream + chunk).rest == Split(Split(stream).rest + chunk).rest
  {
    var fs, gs := Split(stream).frames, Split(Split(stream).rest + chunk).frames;
    SplitConcat(stream, chunk);
    DecodeAllConcat(a, fs, gs, []);
    ToReadingInsConcat(DecodeAll(a, fs, []), DecodeAll(a, gs, []));
  }

  // ---------------------------------------------------------------- queue items

  /** A reading in the queue, with the connection it came from; the tag is only for speaking about order. */
  datatype Queued = Queued(conn: nat, reading: ReadingIn)

  function Tag(conn: nat, rs: seq<RawReading>): (q: seq<Queued>)
    ensures |q| == |rs|
  {
    if rs == [] then [] else [Queued(conn, ToReadingIn(rs[0]))] + Tag(conn, rs[1..])
  }

  function Concat(batches: seq<seq<Queued>>): seq<Queued> {
    if batches == [] then [] else batches[0] + Concat(batches[1..])
  }

  lemma {:induction false} ConcatSnoc(batches: seq<seq<Queued>>, b: seq<Queued>)
    ensures Concat(batches + [b]) == Concat(batches) + b
  {
    if batches == [] {
      assert Concat([b]) == b + Concat([]);
    } else {
      assert (batches + [b])[1..] == batches[1..] + [b];
      ConcatSnoc(batches[1..], b);
    }
  }

  function OfConn(item: Queued, conn: nat): seq<ReadingIn> {
    if item.conn == conn then [item.reading.(timestamp := 0)] else []
  }

  /** The readings of one connection, in order, without their clock readings. */
  function OnConn(q: seq<Queued>, conn: nat): seq<ReadingIn> {
    if q == [] then [] else OfConn(q[0], conn) + OnConn(q[1..], conn)
  }

  lemma {:induction false} OnConnConcat(p: seq<Queued>, q: seq<Queued>, conn: nat)
    ensures OnConn(p + q, conn) == OnConn(p, conn) + OnConn(q, conn)
  {
    hide OfConn;
    if p == [] {
      assert p + q == q;
    } else {
      assert (p + q)[1..] == p[1..] + q;
      OnConnConcat(p[1..], q, conn);
      assert OnConn(p + q, conn) == OfConn(p[0], conn) + (OnConn(p[1..], conn) + OnConn(q, conn));
    }
  }

  lemma {:induction false} OnConnTag(conn: nat, rs: seq<RawReading>, c: nat)
    ensures OnConn(Tag(conn, rs), c) == if c == conn then ToReadingIns(Untimed(rs)) else []
  {
    if rs != [] {
      OnConnTag(conn, rs[1..], c);
    }
  }

  // ---------------------------------------------------------------- the server

  datatype Connection = Connection(adapter: Adapter, buffer: Bytes)

  datatype Event =
    | Accepted(conn: nat, adapter: Adapter)
    | Received(conn: nat, chunk: Bytes, clock: Clock)
    | StopRequested

  /** One await of the consumer: it is not reached because the deadline has passed, or it is waited for while the
      events happen, and then the time is over or not. */
  datatype Turn = Expired | Waited(events: seq<Event>, timedOut: bool)

  function EventsOf(turn: Turn): seq<Event> {
    if turn.Expired? then [] else turn.events
  }

  /** attempted are the batches handed to batch_ingest so far, whether or not it succeeded; batch is the consumer's
      batch in hand. enqueued is everything ever put into the queue, and streams everything ever received. */
  datatype Server = Server(
    connections: map<nat, Connection>, queue: seq<Queued>, stopping: bool,
    attempted: seq<seq<Queued>>, batch: seq<Queued>,
    enqueued: seq<Queued>, streams: map<nat, Bytes>)

  // ---------------------------------------------------------------- what happens while the consumer waits

  /** A chunk extends its connection's buffer; the readings of the frames split off it are queued. */
  function Extended(s: Server, conn: nat, chunk: Bytes, clock: Clock): Server
    requires conn in s.connections && conn in s.streams
  {
    var c := s.connections[conn];
    var split := Split(c.buffer + chunk);
    var added := Tag(conn, DecodeAll(c.adapter, split.frames, clock));
    s.(connections := s.connections[conn := c.(buffer := split.rest)],
       queue := s.queue + added, enqueued := s.enqueued + added,
       streams := s.streams[conn := s.streams[conn] + chunk])
  }

  function Happened(s: Server, e: Event): Server {
    match e
    case Accepted(conn, adapter) =>
      if conn in s.connections || s.stopping then s
      else s.(connections := s.connections[conn := Connection(adapter, [])], streams := s.streams[conn := []])
    case Received(conn, chunk, clock) =>
      if conn in s.connections && conn in s.streams then Extended(s, conn, chunk, clock) else s
    case StopRequested => s.(stopping := true)
  }

  function AllHappened(s: Server, events: seq<Event>): Server
    decreases |events|
  {
    if events == [] then s else AllHappened(Happened(s, events[0]), events[1..])
  }

  lemma {:induction false} AllHappenedSnoc(s: Server, events: seq<Event>, i: nat)
    requires i < |events|
    ensures AllHappened(s, events[..i + 1]) == Happened(AllHappened(s, events[..i]), events[i])
    decreases |events|
  {
    hide Happened;
    if i == 0 {
      assert events[..1] == [events[0]] && [events[0]][1..] == [] && events[..0] == [];
      assert AllHappened(Happened(s, events[0]), []) == Happened(s, events[0]);
    } else {
      assert events[..i + 1][1..] == events[1..][..i];
      assert events[..i][1..] == events[1..][..i - 1];
      AllHappenedSnoc(Happened(s, events[0]), events[1..], i - 1);
    }
  }

  // ---------------------------------------------------------------- the consumer, one await at a time

  /** Where the consumer is suspended: waiting for an item, waiting for batch_ingest, or gone. */
  datatype Phase = Collecting | Ingesting | Exited

  datatype Run = Run(server: Server, phase: Phase)

  /** After a round: the consumer leaves when it is told to stop and the queue is empty. */
  function RoundOver(s: Server): Run {
    Run(s, if s.stopping && s.queue == [] then Exited else Collecting)
  }

  /** Collecting is over: what has been collected, if anything, goes to batch_ingest. */
  function HandOver(s: Server): Run {
    if s.batch == [] then RoundOver(s) else Run(s.(attempted := s.attempted + [s.batch], batch := []), Ingesting)
  }

  function Took(s: Server): Server
    requires s.queue != []
  {
    s.(batch := s.batch + [s.queue[0]], queue := s.queue[1..])
  }

  function Collect(batchSize: nat, s: Server): Run {
    if |s.batch| < batchSize then Run(s, Collecting) else HandOver(s)
  }

  function Step(batchSize: nat, r: Run, turn: Turn): Run {
    match r.phase
    case Exited => r
    case Ingesting => RoundOver(AllHappened(r.server, EventsOf(turn)))
    case Collecting =>
      match turn
      case Expired => HandOver(r.server)
      case Waited(events, timedOut) =>
        var s := AllHappened(r.server, events);
        if timedOut || s.queue == [] then HandOver(s) else Collect(batchSize, Took(s))
  }

  function Steps(batchSize: nat, r: Run, turns: seq<Turn>): Run
    decreases |turns|
  {
    if turns == [] then r else Steps(batchSize, Step(batchSize, r, turns[0]), turns[1..])
  }

  lemma {:induction false} StepsSnoc(batchSize: nat, r: Run, turns: seq<Turn>, i: nat)
    requires i < |turns|
    ensures Steps(batchSize, r, turns[..i + 1]) == Step(batchSize, Steps(batchSize, r, turns[..i]), turns[i])
    decreases |turns|
  {
    hide Step;
    if i == 0 {
      assert turns[..1] == [turns[0]] && [turns[0]][1..] == [] && turns[..0] == [];
      assert Steps(batchSize, Step(batchSize, r, turns[0]), []) == Step(batchSize, r, turns[0]);
    } else {
      assert turns[..i + 1][1..] == turns[1..][..i];
      assert turns[..i][1..] == turns[1..][..i - 1];
      StepsSnoc(batchSize, Step(batchSize, r, turns[0]), turns[1..], i - 1);
    }
  }

  // ---------------------------------------------------------------- what every step keeps

  /** Queue conservation: what was queued is what was attempted, in order, then the batch in hand, then the queue. */
  ghost predicate Conserved(batchSize: nat, s: Server) {
    && s.enqueued == Concat(s.attempted) + s.batch + s.queue
    && |s.batch| <= batchSize
    && forall i :: 0 <= i < |s.attempted| ==> 1 <= |s.attempted[i]| <= batchSize
  }

  /** Each connection's share: its buffer is what its stream leaves over, its queued readings are its stream's. */
  ghost predicate Shares(s: Server) {
    && s.streams.Keys == s.connections.Keys
    && (forall c :: c in s.connections ==> s.connections[c].buffer == Split(s.streams[c]).rest)
    && (forall c :: c in s.connections ==> OnConn(s.enqueued, c) == Meaning(s.connections[c].adapter, s.streams[c]))
    && (forall c :: c !in s.connections ==> OnConn(s.enqueued, c) == [])
  }

  ghost predicate Ok(batchSize: nat, r: Run) {
    && batchSize >= 1
    && Conserved(batchSize, r.server) && Shares(r.server)
    && (r.phase.Collecting? ==> |r.server.batch| < batchSize)
    && (!r.phase.Collecting? ==> r.server.batch == [])
    && (r.phase.Exited? ==> r.server.stopping && r.server.queue == [])
  }

  /** Receiving a chunk keeps every connection's share of the queue equal to the meaning of its stream. */
  lemma ReceivedShare(s: Server, conn: nat, chunk: Bytes, clock: Clock)
    requires Shares(s) && conn in s.connections
    ensures conn in s.streams && Shares(Extended(s, conn, chunk, clock))
  {
    hide Meaning, OnConn, Split, DecodeAll;
    var k := s.connections[conn];
    var split := Split(k.buffer + chunk);
    var rs := DecodeAll(k.adapter, split.frames, clock);
    MeaningGrows(k.adapter, s.streams[conn], chunk);
    MeaningOf(k.adapter, k.buffer + chunk);
    UntimedDecode(k.adapter, split.frames, clock);
    forall c: nat ensures OnConn(s.enqueued + Tag(conn, rs), c)
                       == OnConn(s.enqueued, c) + if c == conn then ToReadingIns(Untimed(rs)) else [] {
      OnConnConcat(s.enqueued, Tag(conn, rs), c);
      OnConnTag(conn, rs, c);
    }
  }

  lemma MeaningOf(a: Adapter, stream: Bytes)
    ensures Meaning(a, stream) == ToReadingIns(DecodeAll(a, Split(stream).frames, []))
  {}

  lemma MeaningOfNothing(a: Adapter)
    ensures Meaning(a, []) == [] && Split([]).rest == []
  {}

  lemma HappenedKeeps(batchSize: nat, s: Server, e: Event)
    requires Conserved(batchSize, s) && Shares(s)
    ensures Conserved(batchSize, Happened(s, e)) && Shares(Happened(s, e))
    ensures Happened(s, e).batch == s.batch
  {
    hide Shares, Split, DecodeAll, Meaning, OnConn, Concat;
    match e
    case Accepted(conn, adapter) => AcceptedShare(s, conn, adapter);
    case Received(conn, chunk, clock) =>
      if conn in s.connections {
        ReceivedShare(s, conn, chunk, clock);
      }
    case StopRequested => SharesApart(s, s.(stopping := true));
  }

  lemma AcceptedShare(s: Server, conn: nat, adapter: Adapter)
    requires Shares(s)
    ensures Shares(Happened(s, Accepted(conn, adapter)))
  {
    hide Meaning, OnConn, Split;
    MeaningOfNothing(adapter);
  }

  /** Shares is about connections, streams and what was queued. */
  lemma SharesApart(s: Server, s': Server)
    requires Shares(s)
    requires s'.connections == s.connections && s'.streams == s.streams && s'.enqueued == s.enqueued
    ensures Shares(s')
  {}

  lemma {:induction false} AllHappenedKeeps(batchSize: nat, s: Server, events: seq<Event>)
    requires Conserved(batchSize, s) && Shares(s)
    ensures Conserved(batchSize, AllHappened(s, events)) && Shares(AllHappened(s, events))
    ensures AllHappened(s, events).batch == s.batch
    decreases |events|
  {
    hide Happened, Shares, Conserved;
    if events != [] {
      HappenedKeeps(batchSize, s, events[0]);
      AllHappenedKeeps(batchSize, Happened(s, events[0]), events[1..]);
    }
  }

  lemma TookKeeps(batchSize: nat, s: Server)
    requires Conserved(batchSize, s) && Shares(s) && s.queue != [] && |s.batch| < batchSize
    ensures Conserved(batchSize, Took(s)) && Shares(Took(s))
  {
    hide Shares, Concat;
    SharesApart(s, Took(s));
    assert s.batch + s.queue == s.batch + [s.queue[0]] + s.queue[1..];
  }

  lemma HandOverKeeps(batchSize: nat, s: Server)
    requires batchSize >= 1 && Conserved(batchSize, s) && Shares(s)
    ensures Ok(batchSize, HandOver(s))
  {
    hide Shares, Concat;
    ConcatSnoc(s.attempted, s.batch);
    SharesApart(s, HandOver(s).server);
  }

  lemma StepKeepsOk(batchSize: nat, r: Run, turn: Turn)
    requires Ok(batchSize, r)
    ensures Ok(batchSize, Step(batchSize, r, turn))
  {
    hide Shares, Concat, AllHappened;
    var s := AllHappened(r.server, EventsOf(turn));
    AllHappenedKeeps(batchSize, r.server, EventsOf(turn));
    if r.phase.Collecting? {
      NothingHappened(r.server);
      HandOverKeeps(batchSize, s);
      if s.queue != [] {
        TookKeeps(batchSize, s);
        HandOverKeeps(batchSize, Took(s));
      }
    }
  }

  lemma NothingHappened(s: Server)
    ensures AllHappened(s, []) == s
  {}

  /** For every schedule: what was queued is what was attempted, then the batch in hand, then the queue; batches hold
      one to batchSize items; and each connection's readings are the meaning of its bytes. */
  lemma {:induction false} StepsKeepOk(batchSize: nat, r: Run, turns: seq<Turn>)
    requires Ok(batchSize, r)
    ensures Ok(batchSize, Steps(batchSize, r, turns))
    decreases |turns|
  {
    hide Ok, Step;
    if turns != [] {
      StepKeepsOk(batchSize, r, turns[0]);
      StepsKeepOk(batchSize, Step(batchSize, r, turns[0]), turns[1..]);
    }
  }

  /** What has been handed over of a connection is a prefix of its stream's meaning, and once the consumer has left,
      all that was queued has been handed over, exactly once and in order. */
  lemma HandedOver(batchSize: nat, r: Run)
    requires Ok(batchSize, r)
    ensures var s := r.server;
            && s.streams.Keys == s.connections.Keys
            && (forall c :: c in s.connections ==>
                  OnConn(Concat(s.attempted), c) <= Meaning(s.connections[c].adapter, s.streams[c]))
            && (r.phase.Exited? ==> Concat(s.attempted) == s.enqueued)
            && (r.phase.Exited? ==> forall c :: c in s.connections ==>
                  OnConn(Concat(s.attempted), c) == Meaning(s.connections[c].adapter, s.streams[c]))
  {
    hide Meaning, Concat, Split;
    var s := r.server;
    assert s.enqueued == Concat(s.attempted) + (s.batch + s.queue);
    forall c | c in s.connections ensures OnConn(Concat(s.attempted), c) <= OnConn(s.enqueued, c) {
      OnConnConcat(Concat(s.attempted), s.batch + s.queue, c);
    }
  }

  // ---------------------------------------------------------------- the bytes a schedule delivers

  /** The events of a schedule's turns, in order. */
  function EventsIn(turns: seq<Turn>): seq<Event> {
    if turns == [] then [] else EventsOf(turns[0]) + EventsIn(turns[1..])
  }

  function ChunkOf(e: Event, conn: nat): Bytes {
    if e.Received? && e.conn == conn then e.chunk else []
  }

  /** All bytes received on a connection, in order. */
  function Delivered(events: seq<Event>, conn: nat): Bytes {
    if events == [] then [] else ChunkOf(events[0], conn) + Delivered(events[1..], conn)
  }

  lemma {:induction false} DeliveredConcat(xs: seq<Event>, ys: seq<Event>, conn: nat)
    ensures Delivered(xs + ys, conn) == Delivered(xs, conn) + Delivered(ys, conn)
  {
    hide ChunkOf;
    if xs == [] {
      assert xs + ys == ys;
    } else {
      assert (xs + ys)[1..] == xs[1..] + ys;
      DeliveredConcat(xs[1..], ys, conn);
      assert Delivered(xs + ys, conn) == ChunkOf(xs[0], conn) + (Delivered(xs[1..], conn) + Delivered(ys, conn));
    }
  }

  predicate Connected(s: Server, conn: nat) {
    conn in s.connections && conn in s.streams
  }

  /** The connection is the same one, and has received these bytes more. */
  ghost predicate HasReceived(s: Server, s': Server, conn: nat, more: Bytes) {
    && Connected(s, conn) && Connected(s', conn)
    && s'.connections[conn].adapter == s.connections[conn].adapter
    && s'.streams[conn] == s.streams[conn] + more
  }

  lemma ReceivedNothing(s: Server, conn: nat)
    requires Connected(s, conn)
    ensures HasReceived(s, s, conn, [])
  {}

  lemma ReceivedMore(s: Server, s': Server, s'': Server, conn: nat, more: Bytes, yet: Bytes)
    requires HasReceived(s, s', conn, more) && HasReceived(s', s'', conn, yet)
    ensures HasReceived(s, s'', conn, more + yet)
  {
    assert s.streams[conn] + (more + yet) == s.streams[conn] + more + yet;
  }

  lemma HappenedStream(s: Server, e: Event, conn: nat)
    requires Connected(s, conn)
    ensures HasReceived(s, Happened(s, e), conn, ChunkOf(e, conn))
  {
    hide Split, DecodeAll, Tag;
    assert s.streams[conn] + [] == s.streams[conn];
  }

  lemma {:induction false} StreamAfter(s: Server, events: seq<Event>, conn: nat)
    requires Connected(s, conn)
    ensures HasReceived(s, AllHappened(s, events), conn, Delivered(events, conn))
    decreases |events|
  {
    hide Happened, ChunkOf, HasReceived, Connected;
    if events == [] {
      ReceivedNothing(s, conn);
    } else {
      var s1 := Happened(s, events[0]);
      HappenedStream(s, events[0], conn);
      StillConnected(s, s1, conn, ChunkOf(events[0], conn));
      StreamAfter(s1, events[1..], conn);
      ReceivedMore(s, s1, AllHappened(s1, events[1..]), conn, ChunkOf(events[0], conn), Delivered(events[1..], conn));
    }
  }

  lemma StillConnected(s: Server, s': Server, conn: nat, more: Bytes)
    requires HasReceived(s, s', conn, more)
    ensures Connected(s', conn)
  {}

  lemma StepStream(batchSize: nat, r: Run, turn: Turn, conn: nat)
    requires Connected(r.server, conn) && !r.phase.Exited?
    ensures HasReceived(r.server, Step(batchSize, r, turn).server, conn, Delivered(EventsOf(turn), conn))
  {
    hide AllHappened, Delivered;
    StreamAfter(r.server, EventsOf(turn), conn);
    NothingHappened(r.server);
  }

  /** As long as the consumer runs, the schedule decides each stream: it is what it was, then every chunk that the
      schedule delivers on the connection, in order. */
  lemma {:induction false} StreamsAreDelivered(batchSize: nat, r: Run, turns: seq<Turn>, conn: nat)
    requires Connected(r.server, conn)
    requires forall i :: 0 <= i < |turns| ==> !Steps(batchSize, r, turns[..i]).phase.Exited?
    ensures HasReceived(r.server, Steps(batchSize, r, turns).server, conn, Delivered(EventsIn(turns), conn))
    decreases |turns|
  {
    hide Step, Connected, HasReceived, Delivered, EventsOf;
    if turns == [] {
      ReceivedNothing(r.server, conn);
      assert Delivered(EventsIn([]), conn) == [] by { NothingDelivered(conn); }
    } else {
      var r1 := Step(batchSize, r, turns[0]);
      var first, later := Delivered(EventsOf(turns[0]), conn), Delivered(EventsIn(turns[1..]), conn);
      assert turns[..0] == [] && Steps(batchSize, r, turns[..0]) == r;
      StepStream(batchSize, r, turns[0], conn);
      StillConnected(r.server, r1.server, conn, first);
      forall i | 0 <= i < |turns[1..]| ensures !Steps(batchSize, r1, turns[1..][..i]).phase.Exited? {
        assert turns[..i + 1][1..] == turns[1..][..i];
        assert Steps(batchSize, r, turns[..i + 1]) == Steps(batchSize, r1, turns[1..][..i]);
      }
      StreamsAreDelivered(batchSize, r1, turns[1..], conn);
      DeliveredConcat(EventsOf(turns[0]), EventsIn(turns[1..]), conn);
      ReceivedMore(r.server, r1.server, Steps(batchSize, r1, turns[1..]).server, conn, first, later);
    }
  }

  lemma NothingDelivered(conn: nat)
    ensures Delivered(EventsIn([]), conn) == []
  {}

  /** The consumer is at r after this many turns, and had not left before. */
  ghost predicate GotTo(batchSize: nat, start: Run, turns: seq<Turn>, used: nat, r: Run) {
    && used <= |turns| && r == Steps(batchSize, start, turns[..used])
    && forall i :: 0 <= i < used ==> !Steps(batchSize, start, turns[..i]).phase.Exited?
  }

  lemma GotNowhere(batchSize: nat, start: Run, turns: seq<Turn>)
    ensures GotTo(batchSize, start, turns, 0, start)
  {
    assert turns[..0] == [];
  }

  lemma GetsFurther(batchSize: nat, start: Run, turns: seq<Turn>, used: nat, r: Run)
    requires GotTo(batchSize, start, turns, used, r) && used < |turns| && !r.phase.Exited?
    ensures GotTo(batchSize, start, turns, used + 1, Step(batchSize, r, turns[used]))
  {
    hide Step;
    StepsSnoc(batchSize, start, turns, used);
  }

  /** What a consumer that has run over part of a schedule has to show for it. */
  lemma Concluded(batchSize: nat, start: Run, turns: seq<Turn>, used: nat, r: Run)
    requires Ok(batchSize, start) && GotTo(batchSize, start, turns, used, r)
    ensures Ok(batchSize, r)
    ensures forall c :: Connected(start.server, c) ==>
              HasReceived(start.server, r.server, c, Delivered(EventsIn(turns[..used]), c))
  {
    hide Ok, Connected, Step, Steps, Delivered, EventsIn, HasReceived;
    StepsKeepOk(batchSize, start, turns[..used]);
    forall i | 0 <= i < used ensures !Steps(batchSize, start, turns[..used][..i]).phase.Exited? {
      assert turns[..used][..i] == turns[..i];
    }
    forall c | Connected(start.server, c)
      ensures HasReceived(start.server, r.server, c, Delivered(EventsIn(turns[..used]), c)) {
      StreamsAreDelivered(batchSize, start, turns[..used], c);
    }
  }

  // ---------------------------------------------------------------- the methods

  class TcpServerManager {
    const batchSize: nat
    var connections: map<nat, Connection>
    var queue: seq<Queued>
    var stopping: bool
    var attempted: seq<seq<Queued>>
    /** The consumer's local batch. */
    var batch: seq<Queued>

    ghost var enqueued: seq<Queued>
    ghost var streams: map<nat, Bytes>

    ghost function State(): Server
      reads this
    {
      Server(connections, queue, stopping, attempted, batch, enqueued, streams)
    }

    ghost predicate Valid()
      reads this
    {
      batchSize >= 1 && Conserved(batchSize, State()) && Shares(State())
    }

    constructor (batchSize: nat)
      requires batchSize >= 1
      ensures Valid() && this.batchSize == batchSize
      ensures State() == Server(map[], [], false, [], [], [], map[])
    {
      this.batchSize := batchSize;
      connections, queue, stopping := map[], [], false;
      attempted, batch, enqueued, streams := [], [], [], map[];
    }

    method Accept(conn: nat, adapter: Adapter)
      requires Valid() && conn !in connections && !stopping
      modifies this
      ensures Valid() && State() == Happened(old(State()), Accepted(conn, adapter))
    {
      hide Conserved, Shares, Extended;
      HappenedKeeps(batchSize, State(), Accepted(conn, adapter));
      KeysMatch(State());
      connections := connections[conn := Connection(adapter, [])];
      streams := streams[conn := []];
    }

    /** One turn of the connection loop, with the buffer carried over as the module's design notes describe it:
        extend the buffer, split it, queue the readings of each frame. */
    method Receive(conn: nat, chunk: Bytes, clock: Clock)
      requires Valid() && conn in connections
      modifies this
      ensures Valid() && conn in old(streams) && State() == Extended(old(State()), conn, chunk, clock)
    {
      hide Split, DecodeAll, Tag, Concat, Meaning, OnConn;
      HappenedKeeps(batchSize, State(), Received(conn, chunk, clock));
      var c := connections[conn];
      var frames, rest := SplitRtuFrames(c.buffer + chunk);
      connections := connections[conn := c.(buffer := rest)];
      Enqueue(conn, c.adapter, frames, clock);
      enqueued := enqueued + Tag(conn, DecodeAll(c.adapter, frames, clock));
      streams := streams[conn := streams[conn] + chunk];
    }

    /** Queue the readings of each frame, as they are decoded. */
    method Enqueue(conn: nat, adapter: Adapter, frames: seq<Bytes>, clock: Clock)
      modifies `queue
      ensures queue == old(queue) + Tag(conn, DecodeAll(adapter, frames, clock))
    {
      hide DecodeFrame, DecodeAll, Tag, Tick;
      NothingTagged(conn, adapter, frames, clock);
      for i := 0 to |frames|
        invariant queue == old(queue) + Tag(conn, DecodeAll(adapter, frames[..i], clock))
      {
        var readings := DecodeFrameLoop(adapter, frames[i], Tick(Later(clock, i)));
        DecodeAllSnoc(adapter, frames, i, clock);
        TagConcat(conn, DecodeAll(adapter, frames[..i], clock), readings);
        ghost var soFar := Tag(conn, DecodeAll(adapter, frames[..i], clock));
        assert old(queue) + soFar + Tag(conn, readings) == old(queue) + (soFar + Tag(conn, readings));
        queue := queue + Tag(conn, readings);
      }
      assert frames[..|frames|] == frames;
    }

    /** The events, one after the other. */
    method Apply(events: seq<Event>)
      requires Valid()
      modifies this
      ensures Valid() && State() == AllHappened(old(State()), events) && batch == old(batch)
    {
      hide Conserved, Shares, Extended;
      ghost var start := State();
      assert events[..0] == [];
      NothingHappened(start);
      for i := 0 to |events|
        invariant Valid() && State() == AllHappened(start, events[..i])
      {
        AllHappenedSnoc(start, events, i);
        KeysMatch(State());
        match events[i]
        case Accepted(conn, adapter) =>
          if conn !in connections && !stopping {
            Accept(conn, adapter);
          }
        case Received(conn, chunk, clock) =>
          if conn in connections {
            Receive(conn, chunk, clock);
          }
        case StopRequested =>
          HappenedKeeps(batchSize, State(), StopRequested);
          stopping := true;
      }
      assert events[..|events|] == events;
      AllHappenedKeeps(batchSize, start, events);
    }

    /** The consumer coroutine, run against a schedule until it leaves or the schedule is used up. It makes the steps of
        the machine above, one for each turn; so at every point it is suspended what was queued is what was attempted,
        then the batch in hand, then the queue, and what was attempted of a connection is a prefix of the meaning of its
        stream, which is what it was and then every chunk the used turns deliver. When it leaves, everything queued
        until then has been handed to batch_ingest exactly once, in order. */
    method Consume(schedule: seq<Turn>) returns (exited: bool, used: nat, ghost phase: Phase)
      requires Valid() && batch == []
      modifies this
      ensures Valid() && (exited <==> phase.Exited?) && (!exited ==> used == |schedule|)
      ensures GotTo(batchSize, Run(old(State()), Collecting), schedule, used, Run(State(), phase))
      ensures forall c :: Connected(old(State()), c) ==>
                HasReceived(old(State()), State(), c, Delivered(EventsIn(schedule[..used]), c))
      ensures forall c :: c in connections ==>
                c in streams && OnConn(Concat(attempted), c) <= Meaning(connections[c].adapter, streams[c])
      ensures exited ==> Concat(attempted) == enqueued && queue == [] && batch == [] && stopping
      ensures exited ==> forall c :: c in connections ==>
                OnConn(Concat(attempted), c) == Meaning(connections[c].adapter, streams[c])
    {
      hide Conserved, Shares, AllHappened, Concat, OnConn, Meaning, Delivered, EventsIn, GotTo, Connected, HasReceived;
      ghost var start := Run(State(), Collecting);
      used, exited, phase := 0, false, Collecting;
      GotNowhere(batchSize, start, schedule);
      while !exited
        invariant batch == [] && Valid() && phase == if exited then Exited else Collecting
        invariant GotTo(batchSize, start, schedule, used, Run(State(), phase)) && used <= |schedule|
        decreases |schedule| - used, !exited
      {
        var starved;
        used, starved := CollectBatch(schedule, used, start);
        if starved {
          break;
        }
        HandOverKeeps(batchSize, State());
        if batch != [] {
          attempted, batch, phase := attempted + [batch], [], Ingesting;
          if used == |schedule| {
            break;
          }
          GetsFurther(batchSize, start, schedule, used, Run(State(), phase));
          Apply(EventsOf(schedule[used]));
          used := used + 1;
        }
        exited := stopping && queue == [];
        phase := if exited then Exited else Collecting;
      }
      Concluded(batchSize, start, schedule, used, Run(State(), phase));
      HandedOver(batchSize, Run(State(), phase));
    }

    /** The inner loop: it ends with a full batch, with no more time, or with the schedule. */
    method CollectBatch(schedule: seq<Turn>, before: nat, ghost start: Run) returns (used: nat, starved: bool)
      requires Valid() && batch == [] && before <= |schedule|
      requires GotTo(batchSize, start, schedule, before, Run(State(), Collecting))
      modifies this
      ensures Valid() && before <= used <= |schedule|
      ensures starved ==> used == |schedule| && |batch| < batchSize
      ensures starved ==> GotTo(batchSize, start, schedule, used, Run(State(), Collecting))
      ensures !starved ==> used > before && GotTo(batchSize, start, schedule, used, HandOver(State()))
    {
      hide Conserved, Shares, AllHappened, GotTo;
      used := before;
      while |batch| < batchSize
        invariant Valid() && before <= used <= |schedule| && (used == before ==> batch == [])
        invariant GotTo(batchSize, start, schedule, used, Collect(batchSize, State()))
        decreases |schedule| - used
      {
        if used == |schedule| {
          return used, true;
        }
        var turn := schedule[used];
        GetsFurther(batchSize, start, schedule, used, Run(State(), Collecting));
        used := used + 1;
        if turn.Expired? {
          return used, false;
        }
        Apply(turn.events);
        if turn.timedOut || queue == [] {
          return used, false;
        }
        TookKeeps(batchSize, State());
        batch, queue := batch + [queue[0]], queue[1..];
      }
      return used, false;
    }
  }

  lemma KeysMatch(s: Server)
    requires Shares(s)
    ensures s.streams.Keys == s.connections.Keys
  {}

  lemma NothingTagged(conn: nat, a: Adapter, frames: seq<Bytes>, clock: Clock)
    ensures Tag(conn, DecodeAll(a, frames[..0], clock)) == []
  {}

  lemma {:induction false} TagConcat(conn: nat, rs: seq<RawReading>, qs: seq<RawReading>)
    ensures Tag(conn, rs + qs) == Tag(conn, rs) + Tag(conn, qs)
  {
    if rs == [] {
      assert rs + qs == qs;
    } else {
      assert (rs + qs)[1..] == rs[1..] + qs;
      TagConcat(conn, rs[1..], qs);
    }
  }

  // ---------------------------------------------------------------- the connection loop as written

  /** The local variable buffer of _handle_conn: a bytearray at first, then whatever split_rtu_frames returned. */
  datatype Buffer = ByteArray(bytes: Bytes) | FrozenBytes(bytes: Bytes)

  /** The chunks a connection yields before the first empty read ends its loop. */
  function UntilEof(arrivals: seq<Bytes>): (chunks: seq<Bytes>)
    ensures chunks <= arrivals && [] !in chunks
    ensures |chunks| < |arrivals| ==> arrivals[|chunks|] == []
  {
    if arrivals == [] || arrivals[0] == [] then [] else [arrivals[0]] + UntilEof(arrivals[1..])
  }

  /** _handle_conn as it stands. split_rtu_frames returns bytes, which cannot be extended, so the second chunk
      raises; the handler logs the exception and closes the connection. */
  method HandleConnAsWritten(a: Adapter, arrivals: seq<Bytes>, clock: Clock)
    returns (readings: seq<RawReading>, raised: bool)
    ensures var chunks := UntilEof(arrivals);
            && raised == (|chunks| >= 2)
            && readings == (if chunks == [] then [] else DecodeAll(a, Split(chunks[0]).frames, clock))
            && ToReadingIns(Untimed(readings)) == AsWritten(a, chunks)
  {
    hide Split, DecodeAll;
    if UntilEof(arrivals) != [] {
      UntimedDecode(a, Split(arrivals[0]).frames, clock);
    }
    var buffer := ByteArray([]);
    readings, raised := [], false;
    for i := 0 to |arrivals|
      invariant i <= 1
      invariant i == 0 ==> buffer == ByteArray([]) && readings == [] && UntilEof(arrivals) == UntilEof(arrivals[i..])
      invariant i == 1 ==> buffer.FrozenBytes? && arrivals[0] != []
      invariant i == 1 ==> UntilEof(arrivals) == [arrivals[0]] + UntilEof(arrivals[1..])
      invariant i == 1 ==> readings == DecodeAll(a, Split(arrivals[0]).frames, clock)
      invariant !raised
    {
      var chunk := arrivals[i];
      if chunk == [] {
        break;
      }
      if buffer.FrozenBytes? {
        raised := true;
        break;
      }
      var frames, rest := SplitRtuFrames(buffer.bytes + chunk);
      assert [] + chunk == chunk;
      buffer := FrozenBytes(rest);
      var rs := DecodeFrames(a, frames, clock);
      readings := readings + rs;
    }
  }

  method DecodeFrames(a: Adapter, frames: seq<Bytes>, clock: Clock) returns (readings: seq<RawReading>)
    ensures readings == DecodeAll(a, frames, clock)
  {
    hide DecodeFrame;
    readings := [];
    for i := 0 to |frames|
      invariant readings == DecodeAll(a, frames[..i], clock)
    {
      var rs := DecodeFrameLoop(a, frames[i], Tick(Later(clock, i)));
      DecodeAllSnoc(a, frames, i, clock);
      readings := readings + rs;
    }
    assert frames[..|frames|] == frames;
  }

  /** What the loop as written delivers for a list of chunks... */
  function AsWritten(a: Adapter, chunks: seq<Bytes>): seq<ReadingIn> {
    if chunks == [] then [] else Meaning(a, chunks[0])
  }

  /** ...is the meaning of the stream exactly when no frame of the later chunks, as the first one's remainder begins
      them, makes the adapter report anything. One chunk is always fine; from the second on, every reading is lost. */
  lemma AsWrittenIff(a: Adapter, chunks: seq<Bytes>)
    ensures |chunks| <= 1 ==> AsWritten(a, chunks) == Meaning(a, Flatten(chunks))
    ensures |chunks| >= 2 ==>
              (AsWritten(a, chunks) == Meaning(a, Flatten(chunks)) <==>
               forall f :: f in Split(Split(chunks[0]).rest + Flatten(chunks[1..])).frames ==> !Yields(a, f))
  {
    hide Meaning, Split, Yields;
    if chunks == [] {
      MeaningOfNothing(a);
    } else {
      assert Flatten(chunks) == chunks[0] + Flatten(chunks[1..]);
      if |chunks| == 1 {
        assert chunks[0] + [] == chunks[0];
      }
      MeaningGrows(a, chunks[0], Flatten(chunks[1..]));
      MeansNothingIff(a, Split(chunks[0]).rest + Flatten(chunks[1..]));
    }
  }

  lemma MeansNothingIff(a: Adapter, stream: Bytes)
    ensures Meaning(a, stream) == [] <==> forall f :: f in Split(stream).frames ==> !Yields(a, f)
  {
    DecodeNothingIff(a, Split(stream).frames, []);
  }

  /** Any frame that arrives in two pieces is dropped, and what it says is lost exactly when it says anything. */
  lemma CutFrameIsLost(a: Adapter, f: Bytes, k: nat)
    requires WellFormed(f) && 0 < k < |f|
    ensures AsWritten(a, [f[..k], f[k..]]) == []
    ensures Meaning(a, Flatten([f[..k], f[k..]])) == ToReadingIns(DecodeFrame(a, f, 0))
    ensures AsWritten(a, [f[..k], f[k..]]) != Meaning(a, Flatten([f[..k], f[k..]])) <==> Yields(a, f)
  {
    hide WellFormed, DecodeFrame, Yields;
    assert Flatten([f[..k], f[k..]]) == f[..k] + Flatten([f[k..]]);
    assert Flatten([f[k..]]) == f[k..] + Flatten([]);
    assert f[..k] + (f[k..] + []) == f;
    FramesThenPrefix([], f[..k], f);
    assert Flatten([]) + f[..k] == f[..k];
    EmptyWaits();
    FramingRoundTrip([f], []);
    assert Flatten([f]) == f + Flatten([]);
    assert (f + []) + [] == f;
    DecodeAllOne(a, f, []);
    YieldsIff(a, f, 0);
  }
}
